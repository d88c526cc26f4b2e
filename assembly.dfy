/** What the assembly loops of barman/analysis.py:199-252 compute, stated as
    functions over entry maps and sequences, with reference definitions of the
    result entry by entry.

    The stiffness loop writes `k_global[gi, gj] = k_elem[li, lj]` (an assignment);
    the evidently intended finite-element assembly adds the contribution instead.
    Both are defined here, as the two `Op`s of one scatter. */
module Assembly {
  import opened Outcomes
  import opened Dofs
  import opened Matrices
  import opened Elements
  import opened Sparse
  import opened DofMaps
  import opened Prescriptions
  import opened Seqs

  /** `[dof_order[dof] for dof in dofs]`: KeyError when some DOF is not in the map. */
  function Indices(m: DofMap, dofs: seq<GlobalDoF>): (r: Result<seq<nat>>)
    ensures r.Ok? <==> forall d :: d in dofs ==> d in m
    ensures r.Err? ==> r.error == KeyError
    ensures r.Ok? ==> |r.value| == |dofs| && forall k {:trigger dofs[k]} :: 0 <= k < |dofs| ==> r.value[k] == m[dofs[k]]
  {
    if dofs == [] then Ok([])
    else if dofs[0] !in m then Err(KeyError)
    else
      var rest := Indices(m, dofs[1..]);
      assert forall d :: d in dofs <==> d == dofs[0] || d in dofs[1..];
      if rest.Err? then Err(KeyError) else Ok([m[dofs[0]]] + rest.value)
  }

  predicate Distinct(s: seq<nat>)
  {
    forall a, b :: 0 <= a < b < |s| ==> s[a] != s[b]
  }

  /** Distinct DOFs under an injective numbering give distinct indices. */
  lemma DistinctIndices(m: DofMap, order: seq<GlobalDoF>, dofs: seq<GlobalDoF>)
    requires Numbers(m, order)
    requires forall a, b :: 0 <= a < b < |dofs| ==> dofs[a] != dofs[b]
    requires Indices(m, dofs).Ok?
    ensures Distinct(Indices(m, dofs).value)
  {
    var idx := Indices(m, dofs).value;
    forall a, b | 0 <= a < b < |idx|
      ensures idx[a] != idx[b]
    {
      assert dofs[a] in m && dofs[b] in m;
      assert order[m[dofs[a]]] == dofs[a] && order[m[dofs[b]]] == dofs[b];
    }
  }

  /** The first position of `x` in `s`. */
  function IndexOf(s: seq<nat>, x: nat): (a: nat)
    requires x in s
    ensures a < |s| && s[a] == x
    ensures forall b :: 0 <= b < a ==> s[b] != x
  {
    if s[0] == x then 0 else 1 + IndexOf(s[1..], x)
  }

  lemma DistinctNotInPrefix(s: seq<nat>, a: nat)
    requires Distinct(s) && a < |s|
    ensures s[a] !in s[..a]
  {
  }

  lemma IndexOfDistinct(s: seq<nat>, a: nat)
    requires Distinct(s) && a < |s|
    ensures IndexOf(s, s[a]) == a
  {
  }

  predicate Square(k: Matrix)
  {
    IsMatrix(k, |k|, |k|)
  }

  /** The two ways one cell can take an element's contribution. */
  datatype Op =
    | Assign      // `k_global[gi, gj] = v`, as written
    | Accumulate  // `k_global[gi, gj] += v`, the finite-element assembly

  /** The value a cell holds after taking `v` on top of `before`. */
  function Combine(op: Op, before: real, v: real): real
  {
    match op
    case Assign => v
    case Accumulate => before + v
  }

  /** One in-bounds write of a contribution into a dok_matrix. */
  function Put(op: Op, m: Entries, key: Key, v: real): (r: Entries)
    ensures Get(r, key) == Combine(op, Get(m, key), v)
    ensures forall k :: k != key ==> Get(r, k) == Get(m, k)
    ensures NonZero(m) ==> NonZero(r)
    ensures r.Keys <= m.Keys + {key}
  {
    Store(m, key, Combine(op, Get(m, key), v))
  }

  /** Row `a` of the element's contribution, columns `0 .. b-1`, in loop order. */
  function ScatterRow(op: Op, m: Entries, idx: seq<nat>, k: Matrix, a: nat, b: nat): Entries
    requires Square(k) && a < |idx| && a < |k| && b <= |idx| && b <= |k|
  {
    if b == 0 then m
    else Put(op, ScatterRow(op, m, idx, k, a, b - 1), (idx[a], idx[b - 1]), k[a][b - 1])
  }

  /** Rows `0 .. a-1` of the element's contribution, in loop order. */
  function ScatterRows(op: Op, m: Entries, idx: seq<nat>, k: Matrix, a: nat): Entries
    requires Square(k) && a <= |idx| && a <= |k| && (a > 0 ==> |idx| <= |k|)
  {
    if a == 0 then m
    else ScatterRow(op, ScatterRows(op, m, idx, k, a - 1), idx, k, a - 1, |idx|)
  }

  /** One element's double loop on a matrix of side `n`: IndexError when an index
      leaves the matrix or the DOF list is longer than the element matrix. */
  function ElementScatter(op: Op, m: Entries, n: nat, idx: seq<nat>, k: Matrix): Result<Entries>
    requires Square(k)
  {
    if exists a :: 0 <= a < |idx| && idx[a] >= n then Err(IndexError)
    else if |idx| > |k| then Err(IndexError)
    else Ok(ScatterRows(op, m, idx, k, |idx|))
  }

  predicate Lengths(elements: seq<Element>, lengths: seq<real>)
  {
    |lengths| == |elements| && forall i :: 0 <= i < |elements| ==> IsLength(elements[i], lengths[i])
  }

  /** A prefix of lengths-matched elements is lengths-matched. */
  lemma LengthsPrefix(elements: seq<Element>, lengths: seq<real>, j: nat)
    requires Lengths(elements, lengths) && j <= |elements|
    ensures Lengths(elements[..j], lengths[..j])
  {
    forall i | 0 <= i < j
      ensures IsLength(elements[..j][i], lengths[..j][i])
    {
      assert elements[..j][i] == elements[i] && lengths[..j][i] == lengths[i];
    }
  }

  /** `generate_global_stiffness_matrix` (with `Assign`) on an `n × n` matrix: the
      elements in order, the first failure ending the run. */
  function Assemble(op: Op, elements: seq<Element>, lengths: seq<real>, m: DofMap, n: nat): Result<Entries>
    requires Lengths(elements, lengths)
    decreases |elements|
  {
    if elements == [] then Ok(map[])
    else
      var last := |elements| - 1;
      var prev := Assemble(op, elements[..last], lengths[..last], m, n);
      if prev.Err? then prev
      else
        var idx := Indices(m, GlobalDofs(elements[last]));
        if idx.Err? then Err(idx.error)
        else ElementScatter(op, prev.value, n, idx.value, GlobalStiffness(elements[last], lengths[last]))
  }

  /** The reference value of cell `key`: walking the elements in order, every
      element whose index list holds both `key.0` and `key.1` contributes the
      matching entry of its matrix, combined by `op`; no element, no value. */
  function Touch(op: Op, elements: seq<Element>, lengths: seq<real>, m: DofMap, key: Key): real
    requires Lengths(elements, lengths)
    decreases |elements|
  {
    if elements == [] then 0.0
    else
      var last := |elements| - 1;
      var prev := Touch(op, elements[..last], lengths[..last], m, key);
      Contribute(op, prev, Indices(m, GlobalDofs(elements[last])), GlobalStiffness(elements[last], lengths[last]), key)
  }

  /** Cell `key` holding `prev` after one more element with index list `idx` and
      matrix `k`: changed only when both of the cell's indices are in the list. */
  function Contribute(op: Op, prev: real, idx: Result<seq<nat>>, k: Matrix, key: Key): real
  {
    if idx.Ok? && |idx.value| <= |k| && key.0 in idx.value && key.1 in idx.value && IsMatrix(k, |k|, |k|) then
      Combine(op, prev, k[IndexOf(idx.value, key.0)][IndexOf(idx.value, key.1)])
    else prev
  }

  /** A symmetric element matrix contributes alike to `(i, j)` and `(j, i)`. */
  lemma ContributeSymmetric(op: Op, prev: real, idx: Result<seq<nat>>, k: Matrix, i: nat, j: nat)
    requires Symmetric(k)
    ensures Contribute(op, prev, idx, k, (i, j)) == Contribute(op, prev, idx, k, (j, i))
  {
    if idx.Ok? && |idx.value| <= |k| && i in idx.value && j in idx.value {
      var r, c := IndexOf(idx.value, i), IndexOf(idx.value, j);
      assert k[r][c] == k[c][r];
    }
  }

  // ---------------------------------------------------------------- scatter lemmas

  /** Cell `key` after row `a` of the contribution, columns `0 .. b-1`: written
      when its row is `idx[a]` and its column among the first `b` indices. */
  lemma {:induction false} ScatterRowAt(op: Op, m: Entries, idx: seq<nat>, k: Matrix, a: nat, b: nat, key: Key)
    requires Square(k) && Distinct(idx) && a < |idx| && b <= |idx| <= |k|
    ensures Get(ScatterRow(op, m, idx, k, a, b), key) ==
      if key.0 == idx[a] && key.1 in idx[..b] then Combine(op, Get(m, key), k[a][IndexOf(idx, key.1)])
      else Get(m, key)
    decreases b
  {
    if b > 0 {
      ScatterRowAt(op, m, idx, k, a, b - 1, key);
      InPrefixSnoc(idx, b - 1, key.1);
      if key.1 == idx[b - 1] {
        IndexOfDistinct(idx, b - 1);
        DistinctNotInPrefix(idx, b - 1);
      }
    }
  }

  /** Cell `key` after rows `0 .. a-1` of the contribution. */
  lemma {:induction false} ScatterRowsAt(op: Op, m: Entries, idx: seq<nat>, k: Matrix, a: nat, key: Key)
    requires Square(k) && Distinct(idx) && a <= |idx| <= |k|
    ensures Get(ScatterRows(op, m, idx, k, a), key) ==
      if key.0 in idx[..a] && key.1 in idx then Combine(op, Get(m, key), k[IndexOf(idx, key.0)][IndexOf(idx, key.1)])
      else Get(m, key)
    decreases a
  {
    if a > 0 {
      var prev := ScatterRows(op, m, idx, k, a - 1);
      ScatterRowsAt(op, m, idx, k, a - 1, key);
      LastRowAt(op, m, idx, k, a, key);
      RowsCell(op, Get(m, key), Get(prev, key), Get(ScatterRows(op, m, idx, k, a), key), idx, k, a, key.0, key.1);
    }
  }

  /** Row `a-1` of the outer loop, seen from cell `key`. */
  lemma LastRowAt(op: Op, m: Entries, idx: seq<nat>, k: Matrix, a: nat, key: Key)
    requires Square(k) && Distinct(idx) && 0 < a <= |idx| <= |k|
    ensures var prev := ScatterRows(op, m, idx, k, a - 1);
      Get(ScatterRows(op, m, idx, k, a), key) ==
        if key.0 == idx[a - 1] && key.1 in idx then Combine(op, Get(prev, key), k[a - 1][IndexOf(idx, key.1)])
        else Get(prev, key)
  {
    ScatterRowAt(op, ScatterRows(op, m, idx, k, a - 1), idx, k, a - 1, |idx|, key);
    assert idx[..|idx|] == idx;
  }

  /** The step of `ScatterRowsAt` on the cell's values alone: row `a-1` writes the
      cell exactly when its row index is `idx[a-1]`, which no earlier row had. */
  lemma RowsCell(op: Op, before: real, prev: real, after: real, idx: seq<nat>, k: Matrix, a: nat, x: nat, y: nat)
    requires Square(k) && Distinct(idx) && 0 < a <= |idx| <= |k|
    requires prev == if x in idx[..a - 1] && y in idx then Combine(op, before, k[IndexOf(idx, x)][IndexOf(idx, y)]) else before
    requires after == if x == idx[a - 1] && y in idx then Combine(op, prev, k[a - 1][IndexOf(idx, y)]) else prev
    ensures after == if x in idx[..a] && y in idx then Combine(op, before, k[IndexOf(idx, x)][IndexOf(idx, y)]) else before
  {
    InPrefixSnoc(idx, a - 1, x);
    if x == idx[a - 1] {
      IndexOfDistinct(idx, a - 1);
      DistinctNotInPrefix(idx, a - 1);
    }
  }

  /** One element with distinct indices: cell `(idx[r], idx[c])` takes `k[r][c]`
      (combined by `op`), every cell outside the index list is untouched. */
  lemma ElementScatterCells(op: Op, m: Entries, idx: seq<nat>, k: Matrix)
    requires Square(k) && Distinct(idx) && |idx| <= |k|
    ensures forall key: Key :: key.0 in idx && key.1 in idx ==>
              Get(ScatterRows(op, m, idx, k, |idx|), key)
                == Combine(op, Get(m, key), k[IndexOf(idx, key.0)][IndexOf(idx, key.1)])
    ensures forall key: Key :: key.0 !in idx || key.1 !in idx ==>
              Get(ScatterRows(op, m, idx, k, |idx|), key) == Get(m, key)
  {
    assert idx[..|idx|] == idx;
    forall key: Key
      ensures Get(ScatterRows(op, m, idx, k, |idx|), key) ==
        if key.0 in idx && key.1 in idx then Combine(op, Get(m, key), k[IndexOf(idx, key.0)][IndexOf(idx, key.1)])
        else Get(m, key)
    {
      ScatterRowsAt(op, m, idx, k, |idx|, key);
    }
  }

  /** Every element's indices are distinct (distinct DOFs under an injective numbering). */
  predicate DistinctElementIndices(elements: seq<Element>, m: DofMap)
  {
    forall i :: 0 <= i < |elements| ==>
      Indices(m, GlobalDofs(elements[i])).Ok? ==> Distinct(Indices(m, GlobalDofs(elements[i])).value)
  }

  /** After a successful assembly, every cell holds its reference value: with
      `Assign`, the entry of the last element whose index list holds the cell's
      row and column (earlier elements' entries are lost); with `Accumulate`, the
      sum of the entries of all such elements. */
  lemma {:induction false} AssembledCells(op: Op, elements: seq<Element>, lengths: seq<real>, m: DofMap, n: nat)
    requires Lengths(elements, lengths) && DistinctElementIndices(elements, m)
    requires Assemble(op, elements, lengths, m, n).Ok?
    ensures forall key :: Get(Assemble(op, elements, lengths, m, n).value, key) == Touch(op, elements, lengths, m, key)
    decreases |elements|
  {
    if elements != [] {
      var last := |elements| - 1;
      var init, ls := elements[..last], lengths[..last];
      var idx := Indices(m, GlobalDofs(elements[last])).value;
      var k := GlobalStiffness(elements[last], lengths[last]);
      var prev := Assemble(op, init, ls, m, n).value;
      assert forall key :: Get(prev, key) == Touch(op, init, ls, m, key) by {
        DistinctElementIndicesPrefix(elements, m, last);
        AssembledCells(op, init, ls, m, n);
      }
      var next := ScatterRows(op, prev, idx, k, |idx|);
      assert Indices(m, GlobalDofs(elements[last])).Ok? && |idx| <= |k|;
      assert Assemble(op, elements, lengths, m, n).value == next;
      ElementScatterCells(op, prev, idx, k);
      forall key
        ensures Get(next, key) == Touch(op, elements, lengths, m, key)
      {
        if key.0 in idx && key.1 in idx {
          assert Touch(op, elements, lengths, m, key) == Combine(op, Touch(op, init, ls, m, key), k[IndexOf(idx, key.0)][IndexOf(idx, key.1)]);
        } else {
          assert Touch(op, elements, lengths, m, key) == Touch(op, init, ls, m, key);
        }
      }
    }
  }

  lemma DistinctElementIndicesPrefix(elements: seq<Element>, m: DofMap, j: nat)
    requires DistinctElementIndices(elements, m) && j <= |elements|
    ensures DistinctElementIndices(elements[..j], m)
  {
    forall i | 0 <= i < j
      ensures Indices(m, GlobalDofs(elements[..j][i])).Ok? ==> Distinct(Indices(m, GlobalDofs(elements[..j][i])).value)
    {
      assert elements[..j][i] == elements[i];
    }
  }

  /** A successful assembly stores only in-range, non-zero entries: it is a valid
      `n × n` dok_matrix. */
  lemma {:induction false} AssembledInBounds(op: Op, elements: seq<Element>, lengths: seq<real>, m: DofMap, n: nat)
    requires Lengths(elements, lengths)
    requires Assemble(op, elements, lengths, m, n).Ok?
    ensures InBounds(Assemble(op, elements, lengths, m, n).value, n, n)
    ensures NonZero(Assemble(op, elements, lengths, m, n).value)
    decreases |elements|
  {
    if elements != [] {
      var last := |elements| - 1;
      AssembledInBounds(op, elements[..last], lengths[..last], m, n);
      var idx := Indices(m, GlobalDofs(elements[last])).value;
      var k := GlobalStiffness(elements[last], lengths[last]);
      ScatterRowsBounds(op, Assemble(op, elements[..last], lengths[..last], m, n).value, idx, k, |idx|, n);
    }
  }

  lemma {:induction false} ScatterRowsBounds(op: Op, e: Entries, idx: seq<nat>, k: Matrix, a: nat, n: nat)
    requires Square(k) && a <= |idx| <= |k|
    requires InBounds(e, n, n) && NonZero(e)
    requires forall r :: 0 <= r < |idx| ==> idx[r] < n
    ensures InBounds(ScatterRows(op, e, idx, k, a), n, n) && NonZero(ScatterRows(op, e, idx, k, a))
    decreases a
  {
    if a > 0 {
      ScatterRowsBounds(op, e, idx, k, a - 1, n);
      ScatterRowBounds(op, ScatterRows(op, e, idx, k, a - 1), idx, k, a - 1, |idx|, n);
    }
  }

  lemma {:induction false} ScatterRowBounds(op: Op, e: Entries, idx: seq<nat>, k: Matrix, a: nat, b: nat, n: nat)
    requires Square(k) && a < |idx| && b <= |idx| <= |k|
    requires InBounds(e, n, n) && NonZero(e)
    requires forall r :: 0 <= r < |idx| ==> idx[r] < n
    ensures InBounds(ScatterRow(op, e, idx, k, a, b), n, n) && NonZero(ScatterRow(op, e, idx, k, a, b))
    decreases b
  {
    if b > 0 {
      ScatterRowBounds(op, e, idx, k, a, b - 1, n);
    }
  }

  /** The reference value is symmetric because every element matrix is. */
  lemma {:induction false} TouchSymmetric(op: Op, elements: seq<Element>, lengths: seq<real>, m: DofMap, i: nat, j: nat)
    requires Lengths(elements, lengths)
    ensures Touch(op, elements, lengths, m, (i, j)) == Touch(op, elements, lengths, m, (j, i))
    decreases |elements|
  {
    if elements != [] {
      var last := |elements| - 1;
      LengthsPrefix(elements, lengths, last);
      TouchSymmetric(op, elements[..last], lengths[..last], m, i, j);
      ContributeSymmetric(op, Touch(op, elements[..last], lengths[..last], m, (i, j)),
        Indices(m, GlobalDofs(elements[last])), GlobalStiffness(elements[last], lengths[last]), i, j);
    }
  }

  /** K as assembled is symmetric, overwriting or not, when each element's indices
      are distinct. */
  lemma AssembledSymmetric(op: Op, elements: seq<Element>, lengths: seq<real>, m: DofMap, n: nat, i: nat, j: nat)
    requires Lengths(elements, lengths) && DistinctElementIndices(elements, m)
    requires Assemble(op, elements, lengths, m, n).Ok?
    ensures Get(Assemble(op, elements, lengths, m, n).value, (i, j))
         == Get(Assemble(op, elements, lengths, m, n).value, (j, i))
  {
    AssembledCells(op, elements, lengths, m, n);
    TouchSymmetric(op, elements, lengths, m, i, j);
  }

  /** The assembly fails exactly when some element has an unmapped DOF, an index
      outside the matrix, or more DOFs than matrix rows; the condition does not
      depend on how cells are combined. */
  lemma {:induction false} AssembleFails(op: Op, elements: seq<Element>, lengths: seq<real>, m: DofMap, n: nat)
    requires Lengths(elements, lengths)
    ensures Assemble(op, elements, lengths, m, n).Err? <==>
              exists i :: 0 <= i < |elements| && ElementFails(elements[i], m, n)
    decreases |elements|
  {
    if elements != [] {
      var last := |elements| - 1;
      var init, ls := elements[..last], lengths[..last];
      AssembleFails(op, init, ls, m, n);
      AssembleStep(op, elements, lengths, m, n);
      ExistsStep(elements, init, e => ElementFails(e, m, n));
    }
  }

  lemma ExistsStep<T>(s: seq<T>, init: seq<T>, p: T -> bool)
    requires s != [] && init == s[..|s| - 1]
    ensures (exists i :: 0 <= i < |s| && p(s[i])) <==>
              (exists i :: 0 <= i < |init| && p(init[i])) || p(s[|s| - 1])
  {
    if exists i :: 0 <= i < |s| && p(s[i]) {
      var i :| 0 <= i < |s| && p(s[i]);
      if i < |init| {
        assert init[i] == s[i];
      }
    }
  }

  /** One more element fails the assembly exactly when the earlier ones did or it does. */
  lemma AssembleStep(op: Op, elements: seq<Element>, lengths: seq<real>, m: DofMap, n: nat)
    requires Lengths(elements, lengths) && elements != []
    ensures var last := |elements| - 1;
      Assemble(op, elements, lengths, m, n).Err? <==>
        Assemble(op, elements[..last], lengths[..last], m, n).Err? || ElementFails(elements[last], m, n)
  {
  }

  /** The per-element failure condition: an unmapped DOF (KeyError), or an index
      outside `n` or more DOFs than matrix rows (IndexError). */
  predicate ElementFails(e: Element, m: DofMap, n: nat)
  {
    var idx := Indices(m, GlobalDofs(e));
    idx.Err? || (exists a :: 0 <= a < |idx.value| && idx.value[a] >= n)
    || |idx.value| > TransformationColumns(e.kind)
  }

  /** An element whose DOFs are all numbered by a contiguous numbering, and that
      has no more DOFs than its matrix has rows, does not fail the assembly. */
  lemma NumberedElementFitsMatrix(e: Element, m: DofMap, order: seq<GlobalDoF>)
    requires Numbers(m, order)
    requires forall d :: d in GlobalDofs(e) ==> d in m
    requires |GlobalDofs(e)| <= TransformationColumns(e.kind)
    ensures !ElementFails(e, m, |m|)
  {
    var dofs := GlobalDofs(e);
    var idx := Indices(m, dofs);
    forall a | 0 <= a < |idx.value|
      ensures idx.value[a] < |m|
    {
      assert idx.value[a] == m[dofs[a]];
    }
  }

  // ---------------------------------------------------------------- dense vectors

  /** `generate_global_force_vector` / `generate_global_dof_vector` on (DOF, value)
      pairs: starting from zeros of length `n`, each pair assigns its value at its
      DOF's index; KeyError for an unmapped DOF, IndexError for an index past `n`. */
  function ScatterValues(pairs: seq<(GlobalDoF, real)>, m: DofMap, n: nat): (r: Result<seq<real>>)
    ensures r.Ok? ==> |r.value| == n
    decreases |pairs|
  {
    if pairs == [] then Ok(seq(n, _ => 0.0))
    else
      var prev := ScatterValues(pairs[..|pairs| - 1], m, n);
      var (d, x) := pairs[|pairs| - 1];
      if prev.Err? then prev
      else if d !in m then Err(KeyError)
      else if m[d] >= n then Err(IndexError)
      else Ok(prev.value[m[d] := x])
  }

  /** The reference value at index `i`: the value of the last pair whose DOF is
      numbered `i`, zero when there is none. */
  function LastAssigned(pairs: seq<(GlobalDoF, real)>, m: DofMap, i: nat): real
    decreases |pairs|
  {
    if pairs == [] then 0.0
    else
      var (d, x) := pairs[|pairs| - 1];
      if d in m && m[d] == i then x else LastAssigned(pairs[..|pairs| - 1], m, i)
  }

  /** Last write wins: every entry of a successful scatter is its reference value. */
  lemma {:induction false} ScatterValuesLastWins(pairs: seq<(GlobalDoF, real)>, m: DofMap, n: nat)
    requires ScatterValues(pairs, m, n).Ok?
    ensures forall i :: 0 <= i < n ==> ScatterValues(pairs, m, n).value[i] == LastAssigned(pairs, m, i)
    decreases |pairs|
  {
    if pairs != [] {
      ScatterValuesLastWins(pairs[..|pairs| - 1], m, n);
    }
  }

  /** The scatter fails exactly when some pair's DOF is unmapped or numbered past
      `n`; when every index of the map is below `n`, a failure is a KeyError. */
  lemma {:induction false} ScatterValuesFails(pairs: seq<(GlobalDoF, real)>, m: DofMap, n: nat)
    ensures ScatterValues(pairs, m, n).Err? <==>
              exists k :: 0 <= k < |pairs| && (pairs[k].0 !in m || m[pairs[k].0] >= n)
    ensures (forall d :: d in m ==> m[d] < n) && ScatterValues(pairs, m, n).Err? ==>
              ScatterValues(pairs, m, n).error == KeyError
    decreases |pairs|
  {
    if pairs != [] {
      var init := pairs[..|pairs| - 1];
      ScatterValuesFails(init, m, n);
      if exists k :: 0 <= k < |pairs| && (pairs[k].0 !in m || m[pairs[k].0] >= n) {
        var k :| 0 <= k < |pairs| && (pairs[k].0 !in m || m[pairs[k].0] >= n);
        if k < |init| {
          assert init[k] == pairs[k];
        }
      }
    }
  }

  /** The pairs `generate_global_force_vector` reads: `(pf.global_dof, pf.value)`. */
  function ForcePairs(pfs: seq<PrescribedForce>): seq<(GlobalDoF, real)>
  {
    seq(|pfs|, k requires 0 <= k < |pfs| => (pfs[k].globalDof, pfs[k].value))
  }

  /** The pairs `generate_global_dof_vector` reads: `(pd.global_dof, pd.value)`. */
  function DisplacementPairs(pds: seq<PrescribedDisplacement>): seq<(GlobalDoF, real)>
  {
    seq(|pds|, k requires 0 <= k < |pds| => (pds[k].globalDof, pds[k].value))
  }

  /** The pairs D is built from are, prescription by prescription, the one pair
      `get_values` returns, and their DOFs are the ones `get_global_dof_map`
      registers first, in the same order. */
  lemma DisplacementPairsOfPrescriptions(pds: seq<PrescribedDisplacement>)
    ensures |DisplacementPairs(pds)| == |PrescribedDofs(pds)| == |pds|
    ensures forall k :: 0 <= k < |pds| ==>
              && DisplacementValues(pds[k]) == [DisplacementPairs(pds)[k]]
              && DisplacementPairs(pds)[k].0 == PrescribedDofs(pds)[k]
  {
  }

  /** The displacement vector cannot fail on the numbering of the same model: every
      prescribed DOF was numbered first, and every index is below the map's size. */
  lemma DisplacementVectorSucceeds(pds: seq<PrescribedDisplacement>, elements: seq<Element>)
    ensures ScatterValues(DisplacementPairs(pds), DofNumbering(pds, elements), |DofNumbering(pds, elements)|).Ok?
  {
    var m := DofNumbering(pds, elements);
    DofNumberingIsContiguous(pds, elements);
    ElementDofsNumbered(pds, elements);
    ScatterValuesFails(DisplacementPairs(pds), m, |m|);
    forall k | 0 <= k < |pds|
      ensures pds[k].globalDof in m
    {
      assert pds[k].globalDof in EssentialDofs(pds);
    }
  }

  /** A force on a DOF the numbering lacks makes the force vector fail with
      KeyError, and only such a force can make it fail. */
  lemma ForceVectorFailsOnUnmappedDof(pfs: seq<PrescribedForce>, pds: seq<PrescribedDisplacement>, elements: seq<Element>)
    ensures var m := DofNumbering(pds, elements);
      var r := ScatterValues(ForcePairs(pfs), m, |m|);
      && (r.Err? <==> exists k :: 0 <= k < |pfs| && pfs[k].globalDof !in m)
      && (r.Err? ==> r.error == KeyError)
  {
    var m := DofNumbering(pds, elements);
    DofNumberingIsContiguous(pds, elements);
    ScatterValuesFails(ForcePairs(pfs), m, |m|);
    forall k | 0 <= k < |pfs|
      ensures ForcePairs(pfs)[k].0 == pfs[k].globalDof
    {
    }
  }

  // ---------------------------------------------------------------- overwrite versus accumulate

  /** Assembling one more element that fits the matrix scatters its matrix on top
      of the earlier result. */
  lemma AssembleOneMore(op: Op, elements: seq<Element>, lengths: seq<real>, e: Element, l: real, m: DofMap, n: nat)
    requires Lengths(elements, lengths) && IsLength(e, l) && !ElementFails(e, m, n)
    requires Assemble(op, elements, lengths, m, n).Ok?
    ensures Lengths(elements + [e], lengths + [l])
    ensures Assemble(op, elements + [e], lengths + [l], m, n)
         == Ok(ScatterRows(op, Assemble(op, elements, lengths, m, n).value, Indices(m, GlobalDofs(e)).value,
                           GlobalStiffness(e, l), |GlobalDofs(e)|))
  {
    var els, ls := elements + [e], lengths + [l];
    assert els[..|elements|] == elements && ls[..|elements|] == lengths;
    assert Lengths(els, ls) by {
      forall i | 0 <= i < |els|
        ensures IsLength(els[i], ls[i])
      {
        if i < |elements| {
          assert els[i] == elements[i] && ls[i] == lengths[i];
        }
      }
    }
  }

  /** Two elements that fit the matrix share a cell (both index lists hold its
      row and column): after the assembly the cell holds the two entries combined
      by `op`; with `Assign` the first element's entry is lost, with `Accumulate`
      the two are added. */
  lemma SharedCell(op: Op, e1: Element, e2: Element, l1: real, l2: real, m: DofMap, n: nat, key: Key)
    requires IsLength(e1, l1) && IsLength(e2, l2)
    requires !ElementFails(e1, m, n) && !ElementFails(e2, m, n)
    requires Distinct(Indices(m, GlobalDofs(e1)).value) && Distinct(Indices(m, GlobalDofs(e2)).value)
    requires key.0 in Indices(m, GlobalDofs(e1)).value && key.1 in Indices(m, GlobalDofs(e1)).value
    requires key.0 in Indices(m, GlobalDofs(e2)).value && key.1 in Indices(m, GlobalDofs(e2)).value
    ensures Lengths([e1, e2], [l1, l2])
    ensures Assemble(op, [e1, e2], [l1, l2], m, n).Ok?
    ensures |Indices(m, GlobalDofs(e1)).value| <= |GlobalStiffness(e1, l1)|
    ensures |Indices(m, GlobalDofs(e2)).value| <= |GlobalStiffness(e2, l2)|
    ensures var i1, i2 := Indices(m, GlobalDofs(e1)).value, Indices(m, GlobalDofs(e2)).value;
      var k1, k2 := GlobalStiffness(e1, l1), GlobalStiffness(e2, l2);
      Get(Assemble(op, [e1, e2], [l1, l2], m, n).value, key)
         == Combine(op, k1[IndexOf(i1, key.0)][IndexOf(i1, key.1)], k2[IndexOf(i2, key.0)][IndexOf(i2, key.1)])
  {
    var i1, i2 := Indices(m, GlobalDofs(e1)).value, Indices(m, GlobalDofs(e2)).value;
    var k1, k2 := GlobalStiffness(e1, l1), GlobalStiffness(e2, l2);
    AssembleTwo(op, e1, e2, l1, l2, m, n);
    assert |i1| == |GlobalDofs(e1)| && |i2| == |GlobalDofs(e2)|;
    TwoScatters(op, i1, k1, i2, k2, key);
  }

  /** One element that fits the matrix is scattered onto an empty matrix. */
  lemma AssembleOne(op: Op, e: Element, l: real, m: DofMap, n: nat)
    requires IsLength(e, l) && !ElementFails(e, m, n)
    ensures Lengths([e], [l])
    ensures Assemble(op, [e], [l], m, n)
         == Ok(ScatterRows(op, map[], Indices(m, GlobalDofs(e)).value, GlobalStiffness(e, l), |GlobalDofs(e)|))
  {
    AssembleOneMore(op, [], [], e, l, m, n);
    assert [] + [e] == [e] && [] + [l] == [l];
  }

  /** Two elements that fit the matrix are scattered one after the other onto an empty matrix. */
  lemma AssembleTwo(op: Op, e1: Element, e2: Element, l1: real, l2: real, m: DofMap, n: nat)
    requires IsLength(e1, l1) && IsLength(e2, l2)
    requires !ElementFails(e1, m, n) && !ElementFails(e2, m, n)
    ensures Lengths([e1, e2], [l1, l2])
    ensures var i1, i2 := Indices(m, GlobalDofs(e1)).value, Indices(m, GlobalDofs(e2)).value;
      var k1, k2 := GlobalStiffness(e1, l1), GlobalStiffness(e2, l2);
      Assemble(op, [e1, e2], [l1, l2], m, n) == Ok(ScatterRows(op, ScatterRows(op, map[], i1, k1, |GlobalDofs(e1)|), i2, k2, |GlobalDofs(e2)|))
  {
    var es, ls := [e1] + [e2], [l1] + [l2];
    assert es == [e1, e2] && ls == [l1, l2];
    AssembleOne(op, e1, l1, m, n);
    AssembleOneMore(op, [e1], [l1], e2, l2, m, n);
  }


  /** Two scatters onto an empty matrix that both cover `key`. */
  lemma TwoScatters(op: Op, i1: seq<nat>, k1: Matrix, i2: seq<nat>, k2: Matrix, key: Key)
    requires Square(k1) && Distinct(i1) && |i1| <= |k1| && key.0 in i1 && key.1 in i1
    requires Square(k2) && Distinct(i2) && |i2| <= |k2| && key.0 in i2 && key.1 in i2
    ensures Get(ScatterRows(op, ScatterRows(op, map[], i1, k1, |i1|), i2, k2, |i2|), key)
         == Combine(op, k1[IndexOf(i1, key.0)][IndexOf(i1, key.1)], k2[IndexOf(i2, key.0)][IndexOf(i2, key.1)])
  {
    var a1 := ScatterRows(op, map[], i1, k1, |i1|);
    ElementScatterCells(op, map[], i1, k1);
    ElementScatterCells(op, a1, i2, k2);
    assert Get(map[], key) == 0.0;
  }

  /** Two collinear unit bars (0,0)-(1,0) and (1,0)-(2,0), E = A = 1, meeting at
      the node (1,0). */
  const Left := NewNode([0.0, 0.0])
  const Middle := NewNode([1.0, 0.0])
  const Right := NewNode([2.0, 0.0])
  const UnitBars := [Element(Bar2, [Left, Middle], Section(1.0, 1.0), NewLinearElastic("steel", 1.0, 0.3)),
                     Element(Bar2, [Middle, Right], Section(1.0, 1.0), NewLinearElastic("steel", 1.0, 0.3))]

  /** Both bars have length 1 and lie along the x axis. */
  lemma UnitBarsGeometry()
    ensures Lengths(UnitBars, [1.0, 1.0])
    ensures DirectionCosines(UnitBars[0], 1.0) == (1.0, 0.0)
    ensures DirectionCosines(UnitBars[1], 1.0) == (1.0, 0.0)
  {
    var b1, b2 := UnitBars[0], UnitBars[1];
    assert Direction(b1) == [1.0, 0.0];
    assert Direction(b2) == [1.0, 0.0];
    assert IsLength(b1, 1.0) && IsLength(b2, 1.0);
  }

  /** A two-node element with distinct nodes whose DOFs a contiguous numbering
      covers fits the matrix, with distinct indices. */
  lemma NumberedTwoNodeElement(e: Element, m: DofMap, order: seq<GlobalDoF>)
    requires Numbers(m, order) && |e.nodes| == 2 && e.nodes[0] != e.nodes[1]
    requires forall d :: d in GlobalDofs(e) ==> d in m
    ensures !ElementFails(e, m, |m|)
    ensures Indices(m, GlobalDofs(e)).Ok? && Distinct(Indices(m, GlobalDofs(e)).value)
  {
    var dofs := GlobalDofs(e);
    TwoNodeGlobalDofs(e.nodes[0], e.nodes[1]);
    assert e.nodes == [e.nodes[0], e.nodes[1]];
    assert forall a, b :: 0 <= a < b < |dofs| ==> dofs[a] != dofs[b];
    DistinctIndices(m, order, dofs);
    NumberedElementFitsMatrix(e, m, order);
  }

  /** An element that does not fail the assembly has exactly two distinct nodes:
      its length is positive, so its end nodes differ, and with three nodes or
      more its DOF list outgrows the element matrix. */
  lemma FittingElementHasTwoNodes(e: Element, l: real, m: DofMap, n: nat)
    requires IsLength(e, l) && !ElementFails(e, m, n)
    ensures |e.nodes| == 2 && e.nodes[0] != e.nodes[1]
  {
    var last := |e.nodes| - 1;
    var r, cs := Direction(e), DirectionCosines(e, l);
    assert cs == (r[0] / l, r[1] / l);
    assert r[0] == 0.0 && r[1] == 0.0 ==> cs == (0.0, 0.0);
    assert e.nodes[0].position != e.nodes[last].position;
    assert |Indices(m, GlobalDofs(e)).value| == |GlobalDofs(e)| <= TransformationColumns(e.kind);
  }

  /** On a contiguous numbering, every element of an assembly that succeeds has
      distinct indices: the side condition of `AssembledCells` always holds there. */
  lemma AssembledElementsDistinct(op: Op, elements: seq<Element>, lengths: seq<real>, m: DofMap, order: seq<GlobalDoF>, n: nat)
    requires Lengths(elements, lengths) && Numbers(m, order)
    requires Assemble(op, elements, lengths, m, n).Ok?
    ensures DistinctElementIndices(elements, m)
  {
    AssembleFails(op, elements, lengths, m, n);
    forall i | 0 <= i < |elements| && Indices(m, GlobalDofs(elements[i])).Ok?
      ensures Distinct(Indices(m, GlobalDofs(elements[i])).value)
    {
      FittingElementHasTwoNodes(elements[i], lengths[i], m, n);
      NumberedTwoNodeElement(elements[i], m, order);
    }
  }

  /** The K a run assembles on the numbering of its own model holds, cell by
      cell, its reference value `Touch`, and is symmetric. */
  lemma AssembledStiffnessOfModel(op: Op, pds: seq<PrescribedDisplacement>, elements: seq<Element>, lengths: seq<real>)
    requires Lengths(elements, lengths)
    requires Assemble(op, elements, lengths, DofNumbering(pds, elements), |DofNumbering(pds, elements)|).Ok?
    ensures var m := DofNumbering(pds, elements);
      var k := Assemble(op, elements, lengths, m, |m|).value;
      && (forall key :: Get(k, key) == Touch(op, elements, lengths, m, key))
      && (forall i: nat, j: nat :: Get(k, (i, j)) == Get(k, (j, i)))
  {
    var m := DofNumbering(pds, elements);
    DofNumberingIsContiguous(pds, elements);
    AssembledElementsDistinct(op, elements, lengths, m, NumberingOrder(pds, elements), |m|);
    AssembledCells(op, elements, lengths, m, |m|);
    forall i: nat, j: nat
      ensures Get(Assemble(op, elements, lengths, m, |m|).value, (i, j)) == Get(Assemble(op, elements, lengths, m, |m|).value, (j, i))
    {
      AssembledSymmetric(op, elements, lengths, m, |m|, i, j);
    }
  }

  /** The two bars number their DOFs without failing, and each element's indices are distinct. */
  lemma UnitBarsNumbered()
    ensures var m := DofNumbering([], UnitBars);
      && !ElementFails(UnitBars[0], m, |m|) && !ElementFails(UnitBars[1], m, |m|)
      && GlobalDoF(Middle, Dx) in m
      && Indices(m, GlobalDofs(UnitBars[0])).Ok? && Indices(m, GlobalDofs(UnitBars[1])).Ok?
      && Indices(m, GlobalDofs(UnitBars[0])).value[2] == m[GlobalDoF(Middle, Dx)]
      && Indices(m, GlobalDofs(UnitBars[1])).value[0] == m[GlobalDoF(Middle, Dx)]
      && Distinct(Indices(m, GlobalDofs(UnitBars[0])).value)
      && Distinct(Indices(m, GlobalDofs(UnitBars[1])).value)
  {
    var b1, b2 := UnitBars[0], UnitBars[1];
    var m := DofNumbering([], UnitBars);
    var order := NumberingOrder([], UnitBars);
    DofNumberingIsContiguous([], UnitBars);
    ElementDofsNumbered([], UnitBars);
    assert b1 in UnitBars && b2 in UnitBars;
    NumberedTwoNodeElement(b1, m, order);
    NumberedTwoNodeElement(b2, m, order);
    TwoNodeGlobalDofs(Left, Middle);
    TwoNodeGlobalDofs(Middle, Right);
    assert GlobalDofs(b1)[2] == GlobalDoF(Middle, Dx);
    assert GlobalDofs(b2)[0] == GlobalDoF(Middle, Dx);
  }

  /** As written the middle node's axial diagonal is 1, the second bar's entry
      alone; assembled additively it is 2, the stiffness of both bars. */
  lemma CollinearBarsOverwrite()
    ensures var m := DofNumbering([], UnitBars);
      && GlobalDoF(Middle, Dx) in m
      && var i := m[GlobalDoF(Middle, Dx)];
      && Lengths(UnitBars, [1.0, 1.0])
      && Assemble(Assign, UnitBars, [1.0, 1.0], m, |m|).Ok?
      && Get(Assemble(Assign, UnitBars, [1.0, 1.0], m, |m|).value, (i, i)) == 1.0
      && Assemble(Accumulate, UnitBars, [1.0, 1.0], m, |m|).Ok?
      && Get(Assemble(Accumulate, UnitBars, [1.0, 1.0], m, |m|).value, (i, i)) == 2.0
  {
    var b1, b2 := UnitBars[0], UnitBars[1];
    var m := DofNumbering([], UnitBars);
    UnitBarsNumbered();
    UnitBarsGeometry();
    var i := m[GlobalDoF(Middle, Dx)];
    IndexOfDistinct(Indices(m, GlobalDofs(b1)).value, 2);
    IndexOfDistinct(Indices(m, GlobalDofs(b2)).value, 0);
    assert UnitBars == [b1, b2];
    UnitBarAxialDiagonal(b1, 2);
    UnitBarAxialDiagonal(b2, 0);
    SharedCell(Assign, b1, b2, 1.0, 1.0, m, |m|, (i, i));
    SharedCell(Accumulate, b1, b2, 1.0, 1.0, m, |m|, (i, i));
  }

  /** A unit bar along the x axis has the axial diagonal entry 1 at every x slot. */
  lemma UnitBarAxialDiagonal(b: Element, slot: nat)
    requires b.kind == Bar2 && IsLength(b, 1.0) && DirectionCosines(b, 1.0) == (1.0, 0.0)
    requires AxialRigidity(b) == 1.0 && (slot == 0 || slot == 2)
    ensures |GlobalStiffness(b, 1.0)| == 4 && GlobalStiffness(b, 1.0)[slot][slot] == 1.0
  {
    Bar2GlobalStiffnessIsTrussMatrix(b, 1.0, 1.0);
    var d := [1.0, 0.0, -1.0, 0.0];
    assert TrussMatrix(GlobalStiffness(b, 1.0), 1.0, d);
    assert GlobalStiffness(b, 1.0)[slot][slot] == 1.0 * d[slot] * d[slot];
  }
}
