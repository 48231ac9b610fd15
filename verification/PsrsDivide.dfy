/** Dividing a sorted list at the pivots, and which boundaries come out right. */
module PsrsDivide {
  import opened BSearch

  /** The far end of what is searched for boundary `i`. If the call that places the boundary works between
      the boundaries `left` and `right`, the search leaves out the last two elements: max(left, right - 2). */
  ghost function Cap(row: seq<nat>, left: nat, right: nat, fp: nat, lp: nat, i: nat): nat
    requires fp <= i <= lp < |row|
    decreases lp - fp
  {
    var mid := (fp + lp) / 2;
    if i == mid then if left + 2 <= right then right - 2 else left
    else if i < mid then Cap(row, left, row[mid], fp, mid - 1, i)
    else Cap(row, row[mid], right, mid + 1, lp, i)
  }

  /** Everything before is at most `pivot`, everything from there on is greater. */
  predicate IsUpperBound(keys: seq<int>, pivot: int, b: int) {
    0 <= b <= |keys| && (forall j :: 0 <= j < b ==> keys[j] <= pivot)
      && (forall j :: b <= j < |keys| ==> pivot < keys[j])
  }

  /** A boundary that is right as far as the search went. */
  predicate Placed(keys: seq<int>, pivot: int, b: nat, left: nat, cap: nat) {
    && left <= b <= cap <= |keys|
    && (forall j :: 0 <= j < b ==> keys[j] <= pivot)
    && (forall j :: b <= j < cap ==> pivot <= keys[j])
    && (Increasing(keys) ==> forall j :: b <= j < cap ==> pivot < keys[j])
  }

  ghost predicate Divided(keys: seq<int>, pivots: seq<int>, row: seq<nat>, left: nat, right: nat, fp: nat, lp: nat)
    requires lp < |row| && lp < |pivots|
  {
    forall i :: fp <= i <= lp ==> Placed(keys, pivots[i], row[i], left, Cap(row, left, right, fp, lp, i))
  }

  /** A boundary parts the list at its pivot exactly if the element where the search had to stop is not
      below the pivot; in a list without equal keys it is the upper bound exactly if that element is above
      the pivot. */
  lemma BoundaryExact(keys: seq<int>, pivot: int, b: nat, left: nat, cap: nat)
    requires NonDecreasing(keys) && Placed(keys, pivot, b, left, cap)
    ensures SplitsAt(keys, pivot, b) <==> (cap < |keys| ==> pivot <= keys[cap])
    ensures Increasing(keys) ==> (IsUpperBound(keys, pivot, b) <==> (cap < |keys| ==> pivot < keys[cap]))
  {
  }

  /** The same said of the upper bound `t` of pivot `i` itself: the boundary is the smaller of `t` and the end of
      its search, so it is `t` exactly if the search went that far. */
  lemma UpperBoundIff(keys: seq<int>, pivots: seq<int>, row: seq<nat>, left: nat, right: nat, fp: nat, lp: nat,
      i: nat, t: nat)
    requires lp < |row| && lp < |pivots| && fp <= i <= lp && Increasing(keys)
    requires Divided(keys, pivots, row, left, right, fp, lp) && IsUpperBound(keys, pivots[i], t)
    ensures var cap := Cap(row, left, right, fp, lp, i);
            row[i] == (if t <= cap then t else cap) && (row[i] == t <==> t <= cap)
  {
    var cap := Cap(row, left, right, fp, lp, i);
    assert Placed(keys, pivots[i], row[i], left, cap);
    assert t < |keys| ==> pivots[i] < keys[t];
    assert row[i] < cap ==> pivots[i] < keys[row[i]];
  }

  lemma {:induction false} CapSame(row: seq<nat>, other: seq<nat>, left: nat, right: nat, fp: nat, lp: nat, i: nat)
    requires fp <= i <= lp < |row| && lp < |other|
    requires forall k :: fp <= k <= lp ==> row[k] == other[k]
    ensures Cap(row, left, right, fp, lp, i) == Cap(other, left, right, fp, lp, i)
    decreases lp - fp
  {
    var mid := (fp + lp) / 2;
    if i < mid {
      CapSame(row, other, left, row[mid], fp, mid - 1, i);
    } else if mid < i {
      CapSame(row, other, row[mid], right, mid + 1, lp, i);
    }
  }

  lemma DividedSame(keys: seq<int>, pivots: seq<int>, row: seq<nat>, other: seq<nat>, left: nat, right: nat,
      fp: nat, lp: nat)
    requires lp < |row| && lp < |other| && lp < |pivots|
    requires forall k :: fp <= k <= lp ==> row[k] == other[k]
    requires Divided(keys, pivots, row, left, right, fp, lp)
    ensures Divided(keys, pivots, other, left, right, fp, lp)
  {
    hide Placed;
    forall i | fp <= i <= lp
      ensures Placed(keys, pivots[i], other[i], left, Cap(other, left, right, fp, lp, i))
    {
      CapSame(row, other, left, right, fp, lp, i);
    }
  }

  lemma {:induction false} CapFlat(row: seq<nat>, left: nat, fp: nat, lp: nat, i: nat)
    requires fp <= i <= lp < |row| && forall k :: fp <= k <= lp ==> row[k] == left
    ensures Cap(row, left, left, fp, lp, i) == left
    decreases lp - fp
  {
    var mid := (fp + lp) / 2;
    if i < mid {
      CapFlat(row, left, fp, mid - 1, i);
    } else if mid < i {
      CapFlat(row, left, mid + 1, lp, i);
    }
  }

  predicate Ordered(pivots: seq<int>, fp: nat, lp: nat) {
    lp < |pivots| && forall i, j :: fp <= i <= j <= lp ==> pivots[i] <= pivots[j]
  }

  /** A sorted list whose part before `start` belongs before `pivot`. */
  predicate Opens(keys: seq<int>, start: nat, pivot: int) {
    NonDecreasing(keys) && start <= |keys| && forall j :: 0 <= j < start ==> keys[j] <= pivot
  }

  /** What makes the boundaries meaningful: a sorted list, pivots in order, and everything before the part
      that is divided belongs before all of them. */
  predicate Ready(keys: seq<int>, pivots: seq<int>, start: nat, fp: nat, lp: nat) {
    fp <= lp && Ordered(pivots, fp, lp) && Opens(keys, start, pivots[fp])
  }

  /** The search in a part, seen from the whole list. */
  lemma PlaceOne(keys: seq<int>, k: int, start: nat, cap: nat, p: nat)
    requires Opens(keys, start, k) && start <= cap <= |keys| && p <= cap - start
    requires SplitsAt(keys[start..cap], k, p)
    requires Increasing(keys[start..cap]) ==> forall j :: p <= j < cap - start ==> k < keys[start..cap][j]
    ensures Placed(keys, k, start + p, start, cap)
  {
    var part := keys[start..cap];
    forall j | 0 <= j < start + p ensures keys[j] <= k {
      if start <= j {
        assert part[j - start] == keys[j];
      }
    }
    forall j | start + p <= j < cap ensures k <= keys[j] && (Increasing(part) ==> k < keys[j]) {
      assert part[j - start] == keys[j];
    }
    if Increasing(keys) {
      assert Increasing(part);
    }
  }

  lemma FillPlaced(keys: seq<int>, pivots: seq<int>, row: seq<nat>, start: nat, fp: nat, lp: nat)
    requires lp < |row| && Ready(keys, pivots, start, fp, lp)
    requires forall k :: fp <= k <= lp ==> row[k] == start
    ensures Divided(keys, pivots, row, start, start, fp, lp)
  {
    forall i | fp <= i <= lp ensures Placed(keys, pivots[i], row[i], start, Cap(row, start, start, fp, lp, i)) {
      CapFlat(row, start, fp, lp, i);
      assert pivots[fp] <= pivots[i];
    }
  }

  /** A call's boundaries from its own and those of the calls it makes. */
  lemma Combine(keys: seq<int>, pivots: seq<int>, row: seq<nat>, left: nat, right: nat, fp: nat, lp: nat)
    requires fp <= lp < |row| && lp < |pivots|
    requires var mid := (fp + lp) / 2;
             && Placed(keys, pivots[mid], row[mid], left, if left + 2 <= right then right - 2 else left)
             && (fp < mid ==> Divided(keys, pivots, row, left, row[mid], fp, mid - 1))
             && (mid < lp ==> Divided(keys, pivots, row, row[mid], right, mid + 1, lp))
    ensures Divided(keys, pivots, row, left, right, fp, lp)
  {
    var mid := (fp + lp) / 2;
    forall i | fp <= i <= lp ensures Placed(keys, pivots[i], row[i], left, Cap(row, left, right, fp, lp, i)) {
    }
  }

  lemma RightReady(keys: seq<int>, pivots: seq<int>, start: nat, fp: nat, mid: nat, lp: nat, pos: nat, cap: nat)
    requires Ready(keys, pivots, start, fp, lp) && fp <= mid < lp && Placed(keys, pivots[mid], pos, start, cap)
    ensures Ready(keys, pivots, pos, mid + 1, lp)
  {
    assert pivots[mid] <= pivots[mid + 1];
  }

  lemma MidReady(keys: seq<int>, pivots: seq<int>, start: nat, fp: nat, mid: nat, lp: nat)
    requires Ready(keys, pivots, start, fp, lp) && fp <= mid <= lp
    ensures Opens(keys, start, pivots[mid])
    ensures fp < mid ==> Ready(keys, pivots, start, fp, mid - 1)
  {
    assert pivots[fp] <= pivots[mid];
  }

  /** The search for one boundary. */
  method Search(keys: seq<int>, start: nat, end: nat, pivot: int) returns (pos: nat)
    requires start <= end < |keys|
    ensures start <= pos <= end
    ensures Opens(keys, start, pivot) ==>
              Placed(keys, pivot, pos, start, if start + 2 <= end + 1 then end - 1 else start)
  {
    var n: int := end - start - 1;
    var part := if n > 0 then keys[start..start + n] else [];
    pos := UpperBound(pivot, part);
    if Opens(keys, start, pivot) {
      var cap := start + |part|;
      assert part == keys[start..cap];
      assert NonDecreasing(part);
      PlaceOne(keys, pivot, start, cap, pos);
    }
    pos := pos + start;
  }

  /** Sets the boundaries from `fp` up to but not including `mid`. */
  method Fill(subsize: array<nat>, fp: nat, mid: nat, start: nat)
    requires fp <= mid <= subsize.Length
    modifies subsize
    ensures forall k :: 0 <= k < subsize.Length ==> subsize[k] == if fp <= k < mid then start else old(subsize[k])
  {
    for i := fp to mid
      invariant forall k :: 0 <= k < subsize.Length ==> subsize[k] == if fp <= k < i then start else old(subsize[k])
    {
      subsize[i] := start;
    }
  }

  /** Places the boundaries `fp` to `lp` between `start` and `end`. Whatever the pivots are, the boundaries
      increase and stay inside; in a sorted list with pivots in order each is right as far as its search
      went. Since the search leaves out the last two elements, the case of nothing left to the right does not
      arise. */
  method Divide(keys: seq<int>, start: nat, end: nat, subsize: array<nat>, pivots: seq<int>, fp: nat, lp: nat)
    requires start <= end < |keys| && fp <= lp < |pivots| && lp < subsize.Length
    modifies subsize
    ensures forall i :: 0 <= i < subsize.Length && !(fp <= i <= lp) ==> subsize[i] == old(subsize[i])
    ensures forall i :: fp <= i <= lp ==> start <= subsize[i] <= end + 1
    ensures forall i, j :: fp <= i <= j <= lp ==> subsize[i] <= subsize[j]
    ensures Ready(keys, pivots, start, fp, lp) ==> Divided(keys, pivots, subsize[..], start, end + 1, fp, lp)
    decreases lp - fp
  {
    hide Ready, Opens, Placed, Divided;
    var mid := (fp + lp) / 2;
    var pos := Search(keys, start, end, pivots[mid]);
    ghost var ready := Ready(keys, pivots, start, fp, lp);
    ghost var cap := if start + 2 <= end + 1 then end - 1 else start;
    if ready {
      MidReady(keys, pivots, start, fp, mid, lp);
    }
    subsize[mid] := pos;
    if fp < mid {
      if start < pos {
        Divide(keys, start, pos - 1, subsize, pivots, fp, mid - 1);
      } else {
        Fill(subsize, fp, mid, start);
        if ready {
          FillPlaced(keys, pivots, subsize[..], start, fp, mid - 1);
        }
      }
    }
    ghost var lower := subsize[..];
    if mid < lp {
      if ready {
        RightReady(keys, pivots, start, fp, mid, lp, pos, cap);
      }
      if pos <= end {
        Divide(keys, pos, end, subsize, pivots, mid + 1, lp);
      } else {
        assert false;
      }
    }
    if ready {
      if fp < mid {
        DividedSame(keys, pivots, lower, subsize[..], start, pos, fp, mid - 1);
      }
      Combine(keys, pivots, subsize[..], start, end + 1, fp, lp);
    }
  }
}
