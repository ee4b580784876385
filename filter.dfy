/** The filter a submit applies to the catalog: four elementwise comparisons
    joined into a boolean mask, then boolean-mask row selection. */
module CatalogFilter {
  import opened Catalog

  /** One size comparison `column <= allowance`. Against a cleared input
      (None) the comparison is false for every row, as pandas compares a
      numeric column with a missing scalar. */
  predicate AtMost(x: real, limit: Option<real>)
  {
    limit.Some? && x <= limit.value
  }

  /** The mask entry of one row: Flow within [flowMin, flowMax], and Height,
      Depth and Length each at most its allowance. All bounds are inclusive;
      the sizes have no lower bound. */
  predicate Matches(m: Machine, k: Criteria)
    ensures Matches(m, k) ==> k.flowMin <= k.flowMax
    ensures Matches(m, k) ==> k.maxHeight.Some? && k.maxDepth.Some? && k.maxLength.Some?
  {
    && m.flow >= k.flowMin
    && m.flow <= k.flowMax
    && AtMost(m.height, k.maxHeight)
    && AtMost(m.depth, k.maxDepth)
    && AtMost(m.length, k.maxLength)
  }

  /** The boolean mask of the comparisons, one entry per row. */
  function Mask(rows: seq<Machine>, k: Criteria): seq<bool>
  {
    seq(|rows|, i requires 0 <= i < |rows| => Matches(rows[i], k))
  }

  /** Boolean-mask indexing: the rows whose mask entry is true. */
  function Select<T>(rows: seq<T>, mask: seq<bool>): (r: seq<T>)
    requires |mask| == |rows|
    ensures |r| <= |rows|
    ensures forall x :: x in r ==> x in rows
    decreases |rows|
  {
    if rows == [] then []
    else
      var n := |rows| - 1;
      Select(rows[..n], mask[..n]) + (if mask[n] then [rows[n]] else [])
  }

  /** The positions of the true entries of a mask, in ascending order. */
  function Kept(mask: seq<bool>): (idx: seq<int>)
    ensures forall i :: 0 <= i < |idx| ==> 0 <= idx[i] < |mask| && mask[idx[i]]
    ensures forall i, j :: 0 <= i < j < |idx| ==> idx[i] < idx[j]
    ensures forall j :: 0 <= j < |mask| && mask[j] ==> j in idx
    decreases |mask|
  {
    if mask == [] then []
    else
      var n := |mask| - 1;
      Kept(mask[..n]) + (if mask[n] then [n] else [])
  }

  /** The rows of `rows` that satisfy `k`, as a submit computes them: no
      more rows than the frame, each from the frame and each satisfying `k`. */
  function Filter(rows: seq<Machine>, k: Criteria): (r: seq<Machine>)
    ensures |r| <= |rows|
    ensures forall i :: 0 <= i < |r| ==> r[i] in rows && Matches(r[i], k)
  {
    SelectAt(rows, Mask(rows, k));
    Select(rows, Mask(rows, k))
  }

  /** `r` consists of the rows of `rows` at the strictly increasing
      positions `idx`: an order-preserving subsequence without repeats. */
  ghost predicate OrderedSubsequence<T>(r: seq<T>, rows: seq<T>, idx: seq<int>)
  {
    && |idx| == |r|
    && (forall i :: 0 <= i < |idx| ==> 0 <= idx[i] < |rows| && r[i] == rows[idx[i]])
    && (forall i, j :: 0 <= i < j < |idx| ==> idx[i] < idx[j])
  }

  /** Selecting with a mask picks exactly the rows at the mask's true positions. */
  lemma {:induction false} SelectAt<T>(rows: seq<T>, mask: seq<bool>)
    requires |mask| == |rows|
    ensures OrderedSubsequence(Select(rows, mask), rows, Kept(mask))
    decreases |rows|
  {
    if rows != [] {
      var n := |rows| - 1;
      SelectAt(rows[..n], mask[..n]);
    }
  }

  /** Appending one row to the frame appends it to the result exactly when
      it matches. */
  lemma FilterSnoc(rows: seq<Machine>, m: Machine, k: Criteria)
    ensures Filter(rows + [m], k) == Filter(rows, k) + (if Matches(m, k) then [m] else [])
  {
    var all := rows + [m];
    assert all[..|rows|] == rows;
    assert Mask(all, k)[..|rows|] == Mask(rows, k);
  }

  /** Every nonempty frame is a shorter frame with one row appended. */
  lemma FilterLast(rows: seq<Machine>, k: Criteria)
    requires rows != []
    ensures var n := |rows| - 1;
      Filter(rows, k) == Filter(rows[..n], k) + (if Matches(rows[n], k) then [rows[n]] else [])
  {
    var n := |rows| - 1;
    assert rows == rows[..n] + [rows[n]];
    FilterSnoc(rows[..n], rows[n], k);
  }

  /** The result holds the matching rows, each once, in catalog order, and
      the row at position j is kept exactly when it satisfies all four
      comparisons. */
  lemma FilterKeepsMatchingRowsInOrder(rows: seq<Machine>, k: Criteria)
    ensures OrderedSubsequence(Filter(rows, k), rows, Kept(Mask(rows, k)))
    ensures forall j :: 0 <= j < |rows| ==> (j in Kept(Mask(rows, k)) <==> Matches(rows[j], k))
  {
    SelectAt(rows, Mask(rows, k));
  }

  /** Soundness and completeness: a row is in the result exactly when it is
      in the frame and satisfies the criteria. */
  lemma {:induction false} FilterMembership(rows: seq<Machine>, k: Criteria, m: Machine)
    ensures m in Filter(rows, k) <==> m in rows && Matches(m, k)
    decreases |rows|
  {
    if rows != [] {
      var n := |rows| - 1;
      FilterLast(rows, k);
      FilterMembership(rows[..n], k, m);
      assert rows == rows[..n] + [rows[n]];
    }
  }

  /** The tighter of two allowances; a cleared one admits nothing. */
  function Tighter(a: Option<real>, b: Option<real>): (c: Option<real>)
    ensures forall x :: AtMost(x, c) <==> AtMost(x, a) && AtMost(x, b)
  {
    match (a, b)
    case (Some(u), Some(v)) => Some(if u <= v then u else v)
    case _ => None
  }

  /** The conjunction of two criteria: the larger flow minimum, the smaller
      flow maximum and the tighter of each allowance. */
  function Meet(k1: Criteria, k2: Criteria): (k: Criteria)
    ensures forall m :: Matches(m, k) <==> Matches(m, k1) && Matches(m, k2)
  {
    Criteria(
      if k1.flowMin >= k2.flowMin then k1.flowMin else k2.flowMin,
      if k1.flowMax <= k2.flowMax then k1.flowMax else k2.flowMax,
      Tighter(k1.maxHeight, k2.maxHeight),
      Tighter(k1.maxDepth, k2.maxDepth),
      Tighter(k1.maxLength, k2.maxLength))
  }

  /** Filtering an already filtered frame narrows it by both criteria at once. */
  lemma {:induction false} FilterComposes(rows: seq<Machine>, k1: Criteria, k2: Criteria)
    ensures Filter(Filter(rows, k1), k2) == Filter(rows, Meet(k1, k2))
    decreases |rows|
  {
    if rows != [] {
      var n := |rows| - 1;
      FilterLast(rows, k1);
      FilterLast(rows, Meet(k1, k2));
      FilterComposes(rows[..n], k1, k2);
      if Matches(rows[n], k1) {
        FilterSnoc(Filter(rows[..n], k1), rows[n], k2);
      } else {
        assert Filter(rows, k1) == Filter(rows[..n], k1);
      }
    }
  }

  /** Two criteria that decide every row of the frame alike select the same rows. */
  lemma {:induction false} FilterCongruent(rows: seq<Machine>, k1: Criteria, k2: Criteria)
    requires forall i :: 0 <= i < |rows| ==> (Matches(rows[i], k1) <==> Matches(rows[i], k2))
    ensures Filter(rows, k1) == Filter(rows, k2)
    decreases |rows|
  {
    if rows != [] {
      var n := |rows| - 1;
      FilterLast(rows, k1);
      FilterLast(rows, k2);
      FilterCongruent(rows[..n], k1, k2);
    }
  }

  /** Filtering the result again with the same criteria changes nothing. */
  lemma FilterIdempotent(rows: seq<Machine>, k: Criteria)
    ensures Filter(Filter(rows, k), k) == Filter(rows, k)
  {
    FilterComposes(rows, k, k);
    FilterCongruent(rows, Meet(k, k), k);
  }

  /** A flow range whose minimum exceeds its maximum selects nothing. */
  lemma {:induction false} FilterEmptyWhenRangeInverted(rows: seq<Machine>, k: Criteria)
    requires k.flowMin > k.flowMax
    ensures Filter(rows, k) == []
    decreases |rows|
  {
    if rows != [] {
      FilterLast(rows, k);
      FilterEmptyWhenRangeInverted(rows[..|rows| - 1], k);
    }
  }

  /** The whole frame comes back exactly when every row matches. */
  lemma {:induction false} FilterKeepsAllIffAllMatch(rows: seq<Machine>, k: Criteria)
    ensures Filter(rows, k) == rows <==> forall i :: 0 <= i < |rows| ==> Matches(rows[i], k)
    decreases |rows|
  {
    if rows != [] {
      var n := |rows| - 1;
      FilterLast(rows, k);
      FilterKeepsAllIffAllMatch(rows[..n], k);
      if Filter(rows, k) == rows {
        forall i | 0 <= i < |rows| ensures Matches(rows[i], k) {
          FilterMembership(rows, k, rows[i]);
        }
      }
      if forall i :: 0 <= i < |rows| ==> Matches(rows[i], k) {
        assert rows == rows[..n] + [rows[n]];
      }
    }
  }

  /** When the matching rows are exactly those at positions lo .. hi - 1,
      the result is that slice of the frame. */
  lemma {:induction false} FilterContiguous(rows: seq<Machine>, k: Criteria, lo: int, hi: int)
    requires 0 <= lo <= hi <= |rows|
    requires forall i :: 0 <= i < |rows| ==> (Matches(rows[i], k) <==> lo <= i < hi)
    ensures Filter(rows, k) == rows[lo..hi]
    decreases |rows|
  {
    if rows != [] {
      var n := |rows| - 1;
      FilterLast(rows, k);
      if lo == hi {
        FilterContiguous(rows[..n], k, 0, 0);
      } else if hi == |rows| {
        FilterContiguous(rows[..n], k, lo, hi - 1);
        assert rows[lo..hi] == rows[..n][lo..hi - 1] + [rows[n]];
      } else {
        FilterContiguous(rows[..n], k, lo, hi);
        assert rows[lo..hi] == rows[..n][lo..hi];
      }
    }
  }

  /** Bounds are inclusive: criteria equal to a row's own Flow, Height, Depth
      and Length keep that row. */
  lemma BoundsInclusive(rows: seq<Machine>, m: Machine)
    requires m in rows
    ensures m in Filter(rows, Criteria(m.flow, m.flow, Some(m.height), Some(m.depth), Some(m.length)))
  {
    FilterMembership(rows, Criteria(m.flow, m.flow, Some(m.height), Some(m.depth), Some(m.length)), m);
  }

  /** A cleared allowance input matches no row, so the result is empty. */
  lemma {:induction false} FilterEmptyWhenAllowanceCleared(rows: seq<Machine>, k: Criteria)
    requires k.maxHeight.None? || k.maxDepth.None? || k.maxLength.None?
    ensures Filter(rows, k) == []
    decreases |rows|
  {
    if rows != [] {
      FilterLast(rows, k);
      FilterEmptyWhenAllowanceCleared(rows[..|rows| - 1], k);
    }
  }

  /** Two rows that agree on every column except Minimum flow and Maximum flow. */
  ghost predicate SameButOperatingRange(x: Machine, y: Machine)
  {
    x == y.(minFlow := x.minFlow, maxFlow := x.maxFlow)
  }

  /** Minimum flow and Maximum flow play no part in the filter: frames that
      differ only in those columns yield results that differ only in them. */
  lemma {:induction false} FilterIgnoresOperatingRange(a: seq<Machine>, b: seq<Machine>, k: Criteria)
    requires |a| == |b|
    requires forall i :: 0 <= i < |a| ==> SameButOperatingRange(a[i], b[i])
    ensures |Filter(a, k)| == |Filter(b, k)|
    ensures forall i :: 0 <= i < |Filter(a, k)| ==> SameButOperatingRange(Filter(a, k)[i], Filter(b, k)[i])
    decreases |a|
  {
    if a != [] {
      var n := |a| - 1;
      FilterLast(a, k);
      FilterLast(b, k);
      FilterIgnoresOperatingRange(a[..n], b[..n], k);
      assert Matches(a[n], k) == Matches(b[n], k);
    }
  }

  /** A frame ordered by strictly increasing Flow yields a result in the
      same order, and one with distinct names a result with distinct names. */
  lemma FilterPreservesOrderAndDistinctness(rows: seq<Machine>, k: Criteria)
    ensures FlowIncreasing(rows) ==> FlowIncreasing(Filter(rows, k))
    ensures NamesDistinct(rows) ==> NamesDistinct(Filter(rows, k))
  {
    FilterKeepsMatchingRowsInOrder(rows, k);
    var r, idx := Filter(rows, k), Kept(Mask(rows, k));
    forall i, j | 0 <= i < j < |r|
      ensures FlowIncreasing(rows) ==> r[i].flow < r[j].flow
      ensures NamesDistinct(rows) ==> r[i].name != r[j].name
    {
      assert r[i] == rows[idx[i]] && r[j] == rows[idx[j]] && idx[i] < idx[j];
    }
  }
}
