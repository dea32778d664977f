/**
  The rows of a conditional probability table: one per combination of parent states, numbered with the last
  parent's state changing fastest.
 */
module CptRows {
  import opened Wrappers
  import opened MachineIntegers

  datatype RowError = RowOutOfRange | AxisWithoutStates

  type Axes = seq<seq<string>>

  ghost predicate EveryAxisHasStates(axes: Axes) {
    forall k :: 0 <= k < |axes| ==> axes[k] != []
  }

  // ----- Counting rows -----

  function Product(axes: Axes): nat {
    if axes == [] then 1 else Product(axes[..|axes| - 1]) * |axes[|axes| - 1]|
  }

  // EditorFrom's fold: the product from the left in checked 32-bit arithmetic; None is an overflow.
  method CountRows(axes: Axes) returns (rows: Option<nat>)
    ensures rows.Some? <==> forall k :: 0 <= k <= |axes| ==> Product(axes[..k]) <= MAXIMUM
    ensures rows.Some? ==> rows.value == Product(axes)
  {
    var count := 1;
    for k := 0 to |axes|
      invariant count == Product(axes[..k])
      invariant forall j :: 0 <= j <= k ==> Product(axes[..j]) <= MAXIMUM
    {
      assert axes[..k + 1][..k] == axes[..k];
      count := count * |axes[k]|;
      if count > MAXIMUM {
        return None;
      }
    }
    assert axes[..|axes|] == axes;
    return Some(count);
  }

  datatype Counts = Counts(rows: nat, cells: nat)

  // The required row and cell counts of a node's table.
  method EditorFrom(axes: Axes, childStates: seq<string>) returns (counts: Option<Counts>)
    ensures counts.Some? <==> && (forall k :: 0 <= k <= |axes| ==> Product(axes[..k]) <= MAXIMUM)
                              && Product(axes) * |childStates| <= MAXIMUM
    ensures counts.Some? ==> counts.value == Counts(Product(axes), Product(axes) * |childStates|)
  {
    var rows := Some(1);
    if |axes| != 0 {
      rows := CountRows(axes);
    }
    if rows.None? || rows.value * |childStates| > MAXIMUM {
      return None;
    }
    return Some(Counts(rows.value, rows.value * |childStates|));
  }

  // With states on every axis the fold overflows only if the row count itself does not fit.
  lemma {:induction false} PrefixProducts(axes: Axes, k: nat)
    requires EveryAxisHasStates(axes) && k <= |axes|
    ensures 1 <= Product(axes[..k]) <= Product(axes)
    decreases |axes|
  {
    if axes != [] {
      var init := axes[..|axes| - 1];
      PrefixProducts(init, if k < |axes| then k else k - 1);
      GrowsByFactor(Product(init), |axes[|axes| - 1]|);
      if k < |axes| {
        assert init[..k] == axes[..k];
      } else {
        assert axes[..k] == axes;
      }
    }
  }

  lemma GrowsByFactor(n: nat, factor: nat)
    requires factor >= 1
    ensures n <= n * factor
  {
  }

  // ----- Numbering rows -----

  // The state of each parent in a row, as the loop of ParentAssignment peels it off from the last axis.
  function Assignment(axes: Axes, row: nat): (states: seq<string>)
    requires EveryAxisHasStates(axes)
    ensures |states| == |axes|
  {
    if axes == [] then []
    else
      var last := axes[|axes| - 1];
      Assignment(axes[..|axes| - 1], row / |last|) + [last[row % |last|]]
  }

  method ParentAssignment(axes: Axes, rowCount: nat, row: int) returns (r: Result<seq<string>, RowError>)
    ensures r == Err(RowOutOfRange) <==> row < 0 || row >= rowCount
    ensures r == Err(AxisWithoutStates) <==> 0 <= row < rowCount && !EveryAxisHasStates(axes)
    ensures r.Ok? ==> EveryAxisHasStates(axes) && row >= 0 && r.value == Assignment(axes, row)
  {
    if row < 0 || row >= rowCount {
      return Err(RowOutOfRange);
    }
    if |axes| == 0 {
      return Ok([]);
    }
    var remainder: nat := row;
    var assignment := new string[|axes|];
    var axis := |axes| - 1;
    assert axes[..|axes|] == axes;
    while axis >= 0
      invariant -1 <= axis < |axes|
      invariant forall k :: axis < k < |axes| ==> axes[k] != []
      invariant EveryAxisHasStates(axes) ==>
                  Assignment(axes, row) == Assignment(axes[..axis + 1], remainder) + assignment[axis + 1..]
    {
      var states := axes[axis];
      if |states| == 0 {
        return Err(AxisWithoutStates);
      }
      assert axes[..axis + 1][..axis] == axes[..axis];
      assignment[axis] := states[remainder % |states|];
      assert assignment[axis..] == [states[remainder % |states|]] + assignment[axis + 1..];
      remainder := remainder / |states|;
      axis := axis - 1;
    }
    assert assignment[0..] == assignment[..];
    return Ok(assignment[..]);
  }

  // The same with positions in place of the states' names.
  function Positions(axes: Axes, row: nat): (positions: seq<nat>)
    requires EveryAxisHasStates(axes)
    ensures |positions| == |axes|
    ensures forall k :: 0 <= k < |axes| ==> positions[k] < |axes[k]|
  {
    if axes == [] then []
    else
      var size := |axes[|axes| - 1]|;
      Positions(axes[..|axes| - 1], row / size) + [row % size]
  }

  lemma {:induction false} AssignmentNamesPositions(axes: Axes, row: nat, k: nat)
    requires EveryAxisHasStates(axes) && k < |axes|
    ensures Assignment(axes, row)[k] == axes[k][Positions(axes, row)[k]]
  {
    if k < |axes| - 1 {
      AssignmentNamesPositions(axes[..|axes| - 1], row / |axes[|axes| - 1]|, k);
    }
  }

  predicate Combination(axes: Axes, positions: seq<nat>) {
    |positions| == |axes| && forall k :: 0 <= k < |axes| ==> positions[k] < |axes[k]|
  }

  function RowOf(axes: Axes, positions: seq<nat>): nat
    requires Combination(axes, positions)
  {
    if axes == [] then 0
    else
      var n := |axes| - 1;
      RowOf(axes[..n], positions[..n]) * |axes[n]| + positions[n]
  }

  lemma Monotone(a: nat, b: nat, size: nat)
    requires a <= b
    ensures a * size <= b * size
  {
  }

  lemma DigitBound(q: nat, r: nat, size: nat, count: nat)
    requires q < count && r < size
    ensures q * size + r < count * size
  {
    Monotone(q + 1, count, size);
  }

  // Different leading digits decide.
  lemma DigitOrder(p: nat, x: nat, q: nat, y: nat, size: nat)
    requires x < size && y < size
    ensures p * size + x < q * size + y <==> p < q || (p == q && x < y)
  {
    if p < q {
      DigitBound(p, x, size, q);
    } else if q < p {
      DigitBound(q, y, size, p);
    }
  }

  lemma DivMod(q: nat, r: nat, size: nat)
    requires r < size
    ensures (q * size + r) / size == q && (q * size + r) % size == r
  {
    var n := q * size + r;
    DigitOrder(q, r, n / size, n % size, size);
    DigitOrder(n / size, n % size, q, r, size);
  }

  lemma DivBound(row: nat, count: nat, size: nat)
    requires size > 0 && row < count * size
    ensures row / size < count
  {
    if row / size >= count {
      Monotone(count, row / size, size);
    }
  }

  // Rows to combinations and back: every row number is the row of its own combination, ...
  lemma {:induction false} RowRoundTrip(axes: Axes, row: nat)
    requires EveryAxisHasStates(axes) && row < Product(axes)
    ensures RowOf(axes, Positions(axes, row)) == row
    decreases |axes|
  {
    if axes != [] {
      var n := |axes| - 1;
      var size := |axes[n]|;
      DivBound(row, Product(axes[..n]), size);
      RowRoundTrip(axes[..n], row / size);
      assert Positions(axes, row)[..n] == Positions(axes[..n], row / size);
    }
  }

  lemma CombinationHasStates(axes: Axes, positions: seq<nat>)
    requires Combination(axes, positions)
    ensures EveryAxisHasStates(axes)
  {
    forall k | 0 <= k < |axes| ensures axes[k] != [] {
      assert positions[k] < |axes[k]|;
    }
  }

  // ... and every combination has a row, whose combination it is.
  lemma {:induction false} CombinationRoundTrip(axes: Axes, positions: seq<nat>)
    requires Combination(axes, positions)
    ensures EveryAxisHasStates(axes)
    ensures RowOf(axes, positions) < Product(axes)
    ensures Positions(axes, RowOf(axes, positions)) == positions
    decreases |axes|
  {
    CombinationHasStates(axes, positions);
    if axes != [] {
      var n := |axes| - 1;
      CombinationRoundTrip(axes[..n], positions[..n]);
      var q := RowOf(axes[..n], positions[..n]);
      DivMod(q, positions[n], |axes[n]|);
      DigitBound(q, positions[n], |axes[n]|, Product(axes[..n]));
      assert positions == positions[..n] + [positions[n]];
    }
  }

  predicate Before(a: seq<nat>, b: seq<nat>)
    requires |a| == |b|
  {
    a != [] && (a[0] < b[0] || (a[0] == b[0] && Before(a[1..], b[1..])))
  }

  lemma {:induction false} BeforeAtEnd(a: seq<nat>, b: seq<nat>, x: nat, y: nat)
    requires |a| == |b|
    ensures Before(a + [x], b + [y]) <==> Before(a, b) || (a == b && x < y)
  {
    if a != [] {
      BeforeAtEnd(a[1..], b[1..], x, y);
      assert (a + [x])[1..] == a[1..] + [x];
      assert (b + [y])[1..] == b[1..] + [y];
      assert a == [a[0]] + a[1..] && b == [b[0]] + b[1..];
    }
  }

  // Row order is the lexicographic order of the combinations: the last parent changes fastest.
  lemma {:induction false} RowsAreLexicographic(axes: Axes, a: seq<nat>, b: seq<nat>)
    requires Combination(axes, a) && Combination(axes, b)
    ensures RowOf(axes, a) < RowOf(axes, b) <==> Before(a, b)
    decreases |axes|
  {
    if axes != [] {
      var n := |axes| - 1;
      RowsAreLexicographic(axes[..n], a[..n], b[..n]);
      BeforeAtEnd(a[..n], b[..n], a[n], b[n]);
      assert a == a[..n] + [a[n]] && b == b[..n] + [b[n]];
      var p, q := RowOf(axes[..n], a[..n]), RowOf(axes[..n], b[..n]);
      DigitOrder(p, a[n], q, b[n], |axes[n]|);
      if p == q {
        SameRowSameCombination(axes[..n], a[..n], b[..n]);
      }
    }
  }

  lemma SameRowSameCombination(axes: Axes, a: seq<nat>, b: seq<nat>)
    requires Combination(axes, a) && Combination(axes, b) && RowOf(axes, a) == RowOf(axes, b)
    ensures a == b
  {
    CombinationRoundTrip(axes, a);
    CombinationRoundTrip(axes, b);
  }
}
