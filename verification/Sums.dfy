/** Totals and gathered multisets over sequences, and how they change with one element. */
module Sums {

  function Count<T>(s: seq<T>, f: T -> nat): nat {
    if s == [] then 0 else Count(s[..|s| - 1], f) + f(s[|s| - 1])
  }

  lemma {:induction false} CountConcat<T>(a: seq<T>, b: seq<T>, f: T -> nat)
    ensures Count(a + b, f) == Count(a, f) + Count(b, f)
  {
    if b == [] {
      assert a + b == a;
    } else {
      assert (a + b)[..|a + b| - 1] == a + b[..|b| - 1];
      CountConcat(a, b[..|b| - 1], f);
    }
  }

  lemma CountRemove<T>(s: seq<T>, k: nat, f: T -> nat)
    requires k < |s|
    ensures Count(s[..k] + s[k + 1..], f) == Count(s, f) - f(s[k])
  {
    assert s == s[..k] + ([s[k]] + s[k + 1..]);
    CountConcat(s[..k], [s[k]] + s[k + 1..], f);
    CountConcat([s[k]], s[k + 1..], f);
    assert Count([s[k]], f) == f(s[k]);
    CountConcat(s[..k], s[k + 1..], f);
  }

  lemma {:induction false} CountUpdate<T>(s: seq<T>, i: nat, x: T, f: T -> nat)
    requires i < |s|
    ensures Count(s[i := x], f) == Count(s, f) - f(s[i]) + f(x)
  {
    var n := |s| - 1;
    if i == n {
      assert s[i := x][..n] == s[..n];
    } else {
      assert s[i := x][..n] == s[..n][i := x];
      CountUpdate(s[..n], i, x, f);
    }
  }

  lemma {:induction false} CountMember<T>(s: seq<T>, k: nat, f: T -> nat)
    requires k < |s|
    ensures f(s[k]) <= Count(s, f)
  {
    if k < |s| - 1 {
      CountMember(s[..|s| - 1], k, f);
    }
  }

  lemma {:induction false} CountPositive<T>(s: seq<T>, f: T -> nat) returns (k: nat)
    requires Count(s, f) > 0
    ensures k < |s| && f(s[k]) > 0
  {
    if f(s[|s| - 1]) > 0 {
      k := |s| - 1;
    } else {
      k := CountPositive(s[..|s| - 1], f);
    }
  }

  lemma {:induction false} CountZero<T>(s: seq<T>, f: T -> nat)
    requires forall i :: 0 <= i < |s| ==> f(s[i]) == 0
    ensures Count(s, f) == 0
  {
    if s != [] {
      CountZero(s[..|s| - 1], f);
    }
  }

  lemma CountAppend<T>(s: seq<T>, x: T, f: T -> nat)
    ensures Count(s + [x], f) == Count(s, f) + f(x)
  {
    assert (s + [x])[..|s|] == s;
  }

  /** A total where the position of an element matters too. */
  function CountAt<T>(s: seq<T>, f: (nat, T) -> nat): nat {
    if s == [] then 0 else CountAt(s[..|s| - 1], f) + f(|s| - 1, s[|s| - 1])
  }

  lemma {:induction false} CountAtUpdate<T>(s: seq<T>, i: nat, x: T, f: (nat, T) -> nat)
    requires i < |s|
    ensures CountAt(s[i := x], f) == CountAt(s, f) - f(i, s[i]) + f(i, x)
  {
    var n := |s| - 1;
    if i == n {
      assert s[i := x][..n] == s[..n];
    } else {
      assert s[i := x][..n] == s[..n][i := x];
      CountAtUpdate(s[..n], i, x, f);
    }
  }

  lemma {:induction false} CountAtZero<T>(s: seq<T>, f: (nat, T) -> nat)
    requires forall i :: 0 <= i < |s| ==> f(i, s[i]) == 0
    ensures CountAt(s, f) == 0
  {
    if s != [] {
      CountAtZero(s[..|s| - 1], f);
    }
  }
}
