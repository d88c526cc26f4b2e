/** The linear static analysis of barman/analysis.py: DOF numbering, assembly of
    K, F and D, the nested `Equation` with its destructive partition, and the
    guard in front of the solve.

    The direct sparse solve is a parameter `solve` of the model; everything up to
    the effective load it is handed is modelled. */
module Analysis {
  import opened Outcomes
  import opened Dofs
  import opened Prescriptions
  import opened Elements
  import opened Matrices
  import opened Sparse
  import opened DofMaps
  import opened Assembly
  import opened Partition
  import Models
  import opened Seqs

  // ---------------------------------------------------------------- get_global_dof_map

  lemma PrescribedDofsNext(pds: seq<PrescribedDisplacement>, i: nat)
    requires i < |pds|
    ensures PrescribedDofs(pds[..i + 1]) == PrescribedDofs(pds[..i]) + [pds[i].globalDof]
  {
  }

  lemma ElementDofsNext(elements: seq<Element>, e: nat)
    requires e < |elements|
    ensures ElementDofs(elements[..e + 1]) == ElementDofs(elements[..e]) + GlobalDofs(elements[e])
  {
    assert elements[..e + 1][..e] == elements[..e];
  }

  /** The registration step the loops of `get_global_dof_map` perform. */
  lemma RegisterNext(m: DofMap, s: seq<GlobalDoF>, j: nat)
    requires j < |s|
    ensures RegisterAll(m, s[..j + 1]) == Register(RegisterAll(m, s[..j]), s[j])
  {
    assert s[..j + 1] == s[..j] + [s[j]];
    RegisterAllSnoc(m, s[..j], s[j]);
  }

  /** The inner loop over one element's DOFs: each DOF not yet in the map
      receives the map's current size. */
  method RegisterDofs(m: DofMap, gdofs: seq<GlobalDoF>) returns (dofOrder: DofMap)
    ensures dofOrder == RegisterAll(m, gdofs)
  {
    dofOrder := m;
    for j := 0 to |gdofs|
      invariant dofOrder == RegisterAll(m, gdofs[..j])
    {
      RegisterNext(m, gdofs, j);
      if gdofs[j] !in dofOrder {
        dofOrder := dofOrder[gdofs[j] := |dofOrder|];
      }
    }
    assert gdofs[..|gdofs|] == gdofs;
  }

  /** The first loop of `get_global_dof_map`: every prescribed displacement's DOF
      enters both the map and the essential set, a repeated one only once. */
  method NumberEssentialDofs(pds: seq<PrescribedDisplacement>) returns (dofOrder: DofMap, essential: set<GlobalDoF>)
    ensures dofOrder == RegisterAll(map[], PrescribedDofs(pds))
    ensures essential == EssentialDofs(pds)
  {
    dofOrder := map[];
    essential := {};
    var i := 0;
    while i < |pds|
      invariant 0 <= i <= |pds|
      invariant dofOrder == RegisterAll(map[], PrescribedDofs(pds)[..i])
      invariant essential == dofOrder.Keys
    {
      // `get_values()` yields exactly one (DOF, value) pair
      var gdof := DisplacementValues(pds[i])[0].0;
      if gdof !in essential {
        essential := essential + {gdof};
        dofOrder := dofOrder[gdof := |dofOrder|];
      }
      assert dofOrder == RegisterAll(map[], PrescribedDofs(pds)[..i + 1]) by {
        RegisterNext(map[], PrescribedDofs(pds), i);
      }
      i := i + 1;
    }
    assert PrescribedDofs(pds)[..i] == PrescribedDofs(pds);
    assert essential == EssentialDofs(pds) by {
      EssentialNumbering(pds);
    }
  }

  /** The second loop of `get_global_dof_map`: the DOFs of every element, in
      element order, each new one receiving the current size of the map. */
  method NumberElementDofs(m: DofMap, elements: seq<Element>) returns (dofOrder: DofMap)
    ensures dofOrder == RegisterAll(m, ElementDofs(elements))
  {
    dofOrder := m;
    var e := 0;
    while e < |elements|
      invariant 0 <= e <= |elements|
      invariant dofOrder == RegisterAll(m, ElementDofs(elements[..e]))
    {
      var gdofs := GlobalDofs(elements[e]);
      dofOrder := RegisterDofs(dofOrder, gdofs);
      assert dofOrder == RegisterAll(m, ElementDofs(elements[..e + 1])) by {
        ElementDofsNext(elements, e);
        RegisterAllAppend(m, ElementDofs(elements[..e]), gdofs);
      }
      e := e + 1;
    }
    assert elements[..e] == elements;
  }

  /** `get_global_dof_map`: the prescribed displacements first, then the DOFs of
      every element, each new DOF receiving the current size of the map. */
  method GetGlobalDofMap(model: Models.LinearStatic) returns (dofOrder: DofMap, essential: set<GlobalDoF>)
    ensures dofOrder == DofNumbering(model.prescribedDisplacements, model.elements)
    ensures essential == EssentialDofs(model.prescribedDisplacements)
  {
    var registered;
    registered, essential := NumberEssentialDofs(model.prescribedDisplacements);
    dofOrder := NumberElementDofs(registered, model.elements);
  }

  // ---------------------------------------------------------------- generate_global_stiffness_matrix

  /** One more element after an assembly that has failed changes nothing. */
  lemma AssembleErrStep(op: Op, elements: seq<Element>, lengths: seq<real>, m: DofMap, n: nat)
    requires Lengths(elements, lengths) && elements != []
    requires Lengths(elements[..|elements| - 1], lengths[..|elements| - 1])
    requires Assemble(op, elements[..|elements| - 1], lengths[..|elements| - 1], m, n).Err?
    ensures Assemble(op, elements, lengths, m, n) == Assemble(op, elements[..|elements| - 1], lengths[..|elements| - 1], m, n)
  {
  }

  /** Once the assembly of a prefix has failed, the assembly of the whole fails the same way. */
  lemma {:induction false} AssembleErrExtends(op: Op, elements: seq<Element>, lengths: seq<real>, m: DofMap, n: nat, j: nat)
    requires Lengths(elements, lengths) && j <= |elements|
    requires Lengths(elements[..j], lengths[..j]) && Assemble(op, elements[..j], lengths[..j], m, n).Err?
    ensures Assemble(op, elements, lengths, m, n) == Assemble(op, elements[..j], lengths[..j], m, n)
    decreases |elements| - j
  {
    if j == |elements| {
      assert elements[..j] == elements && lengths[..j] == lengths;
    } else {
      var last := |elements| - 1;
      LengthsPrefix(elements, lengths, last);
      PrefixOfPrefix(elements, j, last);
      PrefixOfPrefix(lengths, j, last);
      AssembleErrExtends(op, elements[..last], lengths[..last], m, n, j);
      AssembleErrStep(op, elements, lengths, m, n);
    }
  }

  /** The assembly of the first `e + 1` elements, after the first `e` succeeded. */
  lemma AssembleNext(op: Op, elements: seq<Element>, lengths: seq<real>, m: DofMap, n: nat, e: nat)
    requires Lengths(elements, lengths) && e < |elements|
    requires Lengths(elements[..e], lengths[..e]) && Assemble(op, elements[..e], lengths[..e], m, n).Ok?
    ensures Lengths(elements[..e + 1], lengths[..e + 1])
    ensures var idx := Indices(m, GlobalDofs(elements[e]));
      Assemble(op, elements[..e + 1], lengths[..e + 1], m, n)
        == if idx.Err? then Err(idx.error)
           else ElementScatter(op, Assemble(op, elements[..e], lengths[..e], m, n).value, n, idx.value,
                               GlobalStiffness(elements[e], lengths[e]))
  {
    LengthsPrefix(elements, lengths, e + 1);
    PrefixOfPrefix(elements, e, e + 1);
    PrefixOfPrefix(lengths, e, e + 1);
    PrefixLast(elements, e);
    PrefixLast(lengths, e);
  }

  /** The inner loop of the element's double loop: row `a`, column by column. It
      stops with IndexError at the first column outside the element matrix or
      the first index outside K, which happens exactly when one exists. */
  method ScatterElementRow(op: Op, k: DokMatrix, idx: seq<nat>, kElem: Matrix, a: nat) returns (err: Option<Error>)
    requires k.Valid() && k.rows == k.cols && Square(kElem)
    requires a < |idx| && a < |kElem|
    modifies k
    ensures k.Valid() && k.rows == old(k.rows) && k.cols == old(k.cols)
    ensures err == None <==> |idx| <= |kElem| && forall c :: 0 <= c < |idx| ==> idx[c] < k.rows
    ensures err != None ==> err == Some(IndexError)
    ensures err == None ==> k.entries == ScatterRow(op, old(k.entries), idx, kElem, a, |idx|)
  {
    var n := k.rows;
    var b := 0;
    while b < |idx|
      invariant 0 <= b <= |idx| && b <= |kElem|
      invariant b > 0 ==> idx[a] < n
      invariant forall c :: 0 <= c < b ==> idx[c] < n
      invariant k.Valid() && k.rows == n && k.cols == n
      invariant k.entries == ScatterRow(op, old(k.entries), idx, kElem, a, b)
    {
      if b >= |kElem| {
        // `k_elem[local_i, local_j]` outside the element matrix
        return Some(IndexError);
      }
      err := k.Set(idx[a], idx[b], Combine(op, Get(k.entries, (idx[a], idx[b])), kElem[a][b]));
      if err.Some? {
        return;
      }
      b := b + 1;
    }
    err := None;
  }

  /** The double loop over one element's indices: `k[global_i, global_j] = k_elem[local_i, local_j]`
      with `Assign`, `+=` with `Accumulate`. */
  method ScatterElement(op: Op, k: DokMatrix, idx: seq<nat>, kElem: Matrix) returns (err: Option<Error>)
    requires k.Valid() && k.rows == k.cols && Square(kElem)
    modifies k
    ensures k.Valid() && k.rows == old(k.rows) && k.cols == old(k.cols)
    ensures var r := ElementScatter(op, old(k.entries), old(k.rows), idx, kElem);
      && (r.Ok? ==> err == None && k.entries == r.value)
      && (r.Err? ==> err == Some(r.error))
  {
    err := None;
    var n := k.rows;
    ghost var before := k.entries;
    var a := 0;
    while a < |idx|
      invariant 0 <= a <= |idx|
      invariant a > 0 ==> |idx| <= |kElem| && forall c :: 0 <= c < |idx| ==> idx[c] < n
      invariant err == None
      invariant k.Valid() && k.rows == n && k.cols == n
      invariant k.entries == ScatterRows(op, before, idx, kElem, a)
    {
      if a >= |kElem| {
        return Some(IndexError);
      }
      err := ScatterElementRow(op, k, idx, kElem, a);
      if err.Some? {
        return;
      }
      a := a + 1;
    }
  }

  /** One pass of the outer loop of `generate_global_stiffness_matrix`: the
      element's DOFs are looked up, then its matrix is written into `k`. */
  method AssembleElement(op: Op, k: DokMatrix, elements: seq<Element>, lengths: seq<real>, dofOrder: DofMap, e: nat)
    returns (err: Option<Error>)
    requires Lengths(elements, lengths) && e < |elements|
    requires k.Valid() && k.rows == |dofOrder| && k.cols == |dofOrder|
    requires Lengths(elements[..e], lengths[..e])
    requires Assemble(op, elements[..e], lengths[..e], dofOrder, |dofOrder|) == Ok(k.entries)
    modifies k
    ensures k.Valid() && k.rows == |dofOrder| && k.cols == |dofOrder|
    ensures Lengths(elements[..e + 1], lengths[..e + 1])
    ensures err == None ==> Assemble(op, elements[..e + 1], lengths[..e + 1], dofOrder, |dofOrder|) == Ok(k.entries)
    ensures err.Some? ==> Assemble(op, elements, lengths, dofOrder, |dofOrder|) == Err(err.value)
  {
    AssembleNext(op, elements, lengths, dofOrder, |dofOrder|, e);
    var indices := Indices(dofOrder, GlobalDofs(elements[e]));
    if indices.Err? {
      err := Some(indices.error);
    } else {
      err := ScatterElement(op, k, indices.value, GlobalStiffness(elements[e], lengths[e]));
    }
    if err.Some? {
      AssembleErrExtends(op, elements, lengths, dofOrder, |dofOrder|, e + 1);
    }
  }

  /** `generate_global_stiffness_matrix`: an `N × N` dok_matrix, each element's
      matrix written cell by cell at its DOFs' indices; by assignment as written
      (`Assign`), or added as the finite-element method intends (`Accumulate`). */
  method GenerateGlobalStiffnessMatrix(op: Op, elements: seq<Element>, lengths: seq<real>, dofOrder: DofMap)
    returns (k: DokMatrix, err: Option<Error>)
    requires Lengths(elements, lengths)
    ensures fresh(k) && k.Valid() && k.rows == |dofOrder| && k.cols == |dofOrder|
    ensures var r := Assemble(op, elements, lengths, dofOrder, |dofOrder|);
      && (r.Ok? ==> err == None && k.entries == r.value)
      && (r.Err? ==> err == Some(r.error))
  {
    var n := |dofOrder|;
    k := new DokMatrix(n, n);
    var e := 0;
    while e < |elements|
      invariant 0 <= e <= |elements|
      invariant fresh(k) && k.Valid() && k.rows == n && k.cols == n
      invariant Lengths(elements[..e], lengths[..e])
      invariant Assemble(op, elements[..e], lengths[..e], dofOrder, n) == Ok(k.entries)
    {
      err := AssembleElement(op, k, elements, lengths, dofOrder, e);
      if err.Some? {
        return;
      }
      e := e + 1;
    }
    assert elements[..e] == elements && lengths[..e] == lengths;
    err := None;
  }

  // ---------------------------------------------------------------- generate_global_force_vector / generate_global_dof_vector

  /** Once a prefix of the pairs fails to scatter, the whole fails the same way. */
  lemma {:induction false} ScatterValuesErrExtends(pairs: seq<(GlobalDoF, real)>, m: DofMap, n: nat, j: nat)
    requires j <= |pairs| && ScatterValues(pairs[..j], m, n).Err?
    ensures ScatterValues(pairs, m, n) == ScatterValues(pairs[..j], m, n)
    decreases |pairs| - j
  {
    if j == |pairs| {
      assert pairs[..j] == pairs;
    } else {
      var last := |pairs| - 1;
      assert pairs[..last][..j] == pairs[..j];
      ScatterValuesErrExtends(pairs[..last], m, n, j);
    }
  }

  /** The loop both vector generators run: zeros of length N, then each pair's
      value assigned at its DOF's index. */
  method ScatterIntoZeros(pairs: seq<(GlobalDoF, real)>, dofOrder: DofMap) returns (v: Result<seq<real>>)
    ensures v == ScatterValues(pairs, dofOrder, |dofOrder|)
  {
    var n := |dofOrder|;
    var values := seq(n, _ => 0.0);
    var i := 0;
    while i < |pairs|
      invariant 0 <= i <= |pairs|
      invariant ScatterValues(pairs[..i], dofOrder, n) == Ok(values)
    {
      assert pairs[..i + 1][..i] == pairs[..i];
      var (gdof, value) := pairs[i];
      if gdof !in dofOrder {
        ScatterValuesErrExtends(pairs, dofOrder, n, i + 1);
        return Err(KeyError);
      }
      var gi := dofOrder[gdof];
      if gi >= n {
        ScatterValuesErrExtends(pairs, dofOrder, n, i + 1);
        return Err(IndexError);
      }
      values := values[gi := value];
      i := i + 1;
    }
    assert pairs[..i] == pairs;
    return Ok(values);
  }

  /** `generate_global_force_vector`: F of length N; the last force on a DOF wins,
      and a force on a DOF outside the map is a KeyError. */
  method GenerateGlobalForceVector(pfs: seq<PrescribedForce>, dofOrder: DofMap) returns (f: Result<seq<real>>)
    ensures f == ScatterValues(ForcePairs(pfs), dofOrder, |dofOrder|)
    ensures f.Ok? ==> |f.value| == |dofOrder|
    ensures f.Ok? <==> forall k :: 0 <= k < |pfs| ==> pfs[k].globalDof in dofOrder && dofOrder[pfs[k].globalDof] < |dofOrder|
  {
    f := ScatterIntoZeros(ForcePairs(pfs), dofOrder);
    ScatterValuesFails(ForcePairs(pfs), dofOrder, |dofOrder|);
    forall k | 0 <= k < |pfs|
      ensures ForcePairs(pfs)[k].0 == pfs[k].globalDof
    {
    }
  }

  /** `generate_global_dof_vector`: D of length N, the last prescription of a DOF
      winning; on the map built from the same prescriptions it cannot fail. */
  method GenerateGlobalDofVector(pds: seq<PrescribedDisplacement>, dofOrder: DofMap) returns (d: Result<seq<real>>)
    ensures d == ScatterValues(DisplacementPairs(pds), dofOrder, |dofOrder|)
    ensures d.Ok? ==> |d.value| == |dofOrder|
    ensures (exists elements :: dofOrder == DofNumbering(pds, elements)) ==> d.Ok?
  {
    d := ScatterIntoZeros(DisplacementPairs(pds), dofOrder);
    if exists elements :: dofOrder == DofNumbering(pds, elements) {
      var elements :| dofOrder == DofNumbering(pds, elements);
      DisplacementVectorSucceeds(pds, elements);
    }
  }

  // ---------------------------------------------------------------- LinearStatic.Equation

  /** The routing of one popped entry `(global_i, global_j)` in `set_equation`:
      rows and columns below `ne` are essential, the others lose the offset `ne`,
      and the entry is written to `k_ee`, `k_fe`, `k_ef` or `k_ff` (here `ee`,
      `fe`, `ef`, `ff`) by the two comparisons. */
  method Route(ee: DokMatrix, fe: DokMatrix, ef: DokMatrix, ff: DokMatrix, key: Key, value: real, ne: nat, nf: nat)
    returns (err: Option<Error>)
    requires ee.Valid() && fe.Valid() && ef.Valid() && ff.Valid()
    requires ee != fe && ee != ef && ee != ff && fe != ef && fe != ff && ef != ff
    requires ee.rows == ne && ee.cols == ne && fe.rows == nf && fe.cols == ne
    requires ef.rows == ne && ef.cols == nf && ff.rows == nf && ff.cols == nf
    modifies ee, fe, ef, ff
    ensures ee.Valid() && fe.Valid() && ef.Valid() && ff.Valid()
    ensures ee.rows == ne && ee.cols == ne && fe.rows == nf && fe.cols == ne
    ensures ef.rows == ne && ef.cols == nf && ff.rows == nf && ff.cols == nf
    ensures var s := Shape(Target(AsWritten, BlockOf(key, ne)), ne, nf);
      err == None <==> Local(key, ne).0 < s.0 && Local(key, ne).1 < s.1
    ensures err != None ==> err == Some(IndexError)
    ensures var b, l := BlockOf(key, ne), Local(key, ne);
      && ee.entries == (if b == EE && err == None then Store(old(ee.entries), l, value) else old(ee.entries))
      && fe.entries == (if b == EF && err == None then Store(old(fe.entries), l, value) else old(fe.entries))
      && ef.entries == (if b == FE && err == None then Store(old(ef.entries), l, value) else old(ef.entries))
      && ff.entries == (if b == FF && err == None then Store(old(ff.entries), l, value) else old(ff.entries))
  {
    var (i, j) := key;
    if i < ne {
      if j < ne {
        err := ee.Set(i, j, value);
      } else {
        err := fe.Set(i, j - ne, value);
      }
    } else {
      if j < ne {
        err := ef.Set(i - ne, j, value);
      } else {
        err := ff.Set(i - ne, j - ne, value);
      }
    }
  }

  lemma AsWrittenFitsFromBlocks(k: Entries, ne: nat, nf: nat)
    requires InBounds(BlockEntries(k, ne, EE), ne, ne) && InBounds(BlockEntries(k, ne, EF), nf, ne)
    requires InBounds(BlockEntries(k, ne, FE), ne, nf) && InBounds(BlockEntries(k, ne, FF), nf, nf)
    ensures FitsDestinations(k, ne, nf, AsWritten)
  {
  }

  /** The state of the `popitem` loop after the entries `done` of `k0` have been
      popped: `k_global` holds the rest and every block holds the popped entries
      of its kind at their block positions. */
  ghost predicate Draining(kg: DokMatrix, ee: DokMatrix, fe: DokMatrix, ef: DokMatrix, ff: DokMatrix,
                           ne: nat, nf: nat, k0: Entries, done: Entries)
    reads kg, ee, fe, ef, ff
  {
    && kg.Valid() && ee.Valid() && fe.Valid() && ef.Valid() && ff.Valid()
    && ee.rows == ne && ee.cols == ne && fe.rows == nf && fe.cols == ne
    && ef.rows == ne && ef.cols == nf && ff.rows == nf && ff.cols == nf
    && Distributed(kg.entries, ee.entries, fe.entries, ef.entries, ff.entries, ne, k0, done)
  }

  /** One pass of the `popitem` loop. */
  method DrainStep(kg: DokMatrix, ee: DokMatrix, fe: DokMatrix, ef: DokMatrix, ff: DokMatrix, ne: nat, nf: nat,
                   ghost k0: Entries, ghost done: Entries) returns (err: Option<Error>, ghost done': Entries, ghost stop: Key)
    requires ee != fe && ee != ef && ee != ff && fe != ef && fe != ff && ef != ff
    requires kg != ee && kg != fe && kg != ef && kg != ff
    requires Draining(kg, ee, fe, ef, ff, ne, nf, k0, done) && kg.entries != map[]
    modifies kg, ee, fe, ef, ff
    ensures kg.Valid() && kg.rows == old(kg.rows) && kg.cols == old(kg.cols)
    ensures err == None ==> Draining(kg, ee, fe, ef, ff, ne, nf, k0, done') && |kg.entries| < old(|kg.entries|)
    ensures err != None ==>
              && err == Some(IndexError) && !EntriesFit(k0, ne, nf, AsWritten) && done' == done
              && ee.rows == ne && ee.cols == ne && fe.rows == nf && fe.cols == ne
              && ef.rows == ne && ef.cols == nf && ff.rows == nf && ff.cols == nf
              && StoppedAt(ee.entries, fe.entries, ef.entries, ff.entries, ne, nf, k0, AsWritten, done, stop)
              && kg.entries == k0 - done.Keys - {stop}
  {
    var popped := kg.PopItem();
    var (key, value) := popped.value;
    stop := key;
    err := Route(ee, fe, ef, ff, key, value, ne, nf);
    if err.Some? {
      StoppedFromDistributed(old(kg.entries), ee.entries, fe.entries, ef.entries, ff.entries, ne, nf, k0, AsWritten, done, key);
      StoppedBlocksArePartial(ee.entries, fe.entries, ef.entries, ff.entries, ne, nf, k0, AsWritten, done, key);
      return err, done, key;
    }
    DistributedStep(old(kg.entries), old(ee.entries), old(fe.entries), old(ef.entries), old(ff.entries), ne, k0, done,
                    key, ee.entries, fe.entries, ef.entries, ff.entries);
    done' := done[key := value];
  }

  /** The `popitem` loop of `set_equation`: empties `k_global` into the four
      blocks, stopping at the first entry that falls outside the block it is
      written to. */
  method Drain(kg: DokMatrix, ee: DokMatrix, fe: DokMatrix, ef: DokMatrix, ff: DokMatrix, ne: nat, nf: nat)
    returns (err: Option<Error>, ghost done: Entries, ghost stop: Key)
    requires kg.Valid() && ee.Valid() && fe.Valid() && ef.Valid() && ff.Valid()
    requires ee != fe && ee != ef && ee != ff && fe != ef && fe != ff && ef != ff
    requires kg != ee && kg != fe && kg != ef && kg != ff
    requires ee.rows == ne && ee.cols == ne && fe.rows == nf && fe.cols == ne
    requires ef.rows == ne && ef.cols == nf && ff.rows == nf && ff.cols == nf
    requires ee.entries == map[] && fe.entries == map[] && ef.entries == map[] && ff.entries == map[]
    modifies kg, ee, fe, ef, ff
    ensures kg.Valid() && kg.rows == old(kg.rows) && kg.cols == old(kg.cols)
    ensures err == None <==> EntriesFit(old(kg.entries), ne, nf, AsWritten)
    ensures err != None ==>
              && err == Some(IndexError)
              && ee.rows == ne && ee.cols == ne && fe.rows == nf && fe.cols == ne
              && ef.rows == ne && ef.cols == nf && ff.rows == nf && ff.cols == nf
              && StoppedAt(ee.entries, fe.entries, ef.entries, ff.entries, ne, nf, old(kg.entries), AsWritten, done, stop)
              && kg.entries == old(kg.entries) - done.Keys - {stop}
    ensures err == None ==>
              && kg.entries == map[]
              && ee.rows == ne && ee.cols == ne && fe.rows == nf && fe.cols == ne
              && ef.rows == ne && ef.cols == nf && ff.rows == nf && ff.cols == nf
              && ee.entries == BlockEntries(old(kg.entries), ne, EE)
              && fe.entries == BlockEntries(old(kg.entries), ne, EF)
              && ef.entries == BlockEntries(old(kg.entries), ne, FE)
              && ff.entries == BlockEntries(old(kg.entries), ne, FF)
  {
    ghost var k0 := kg.entries;
    done, stop := map[], (0, 0);
    DistributedStart(k0, ne);
    while kg.Nnz() > 0
      invariant kg.Valid() && kg.rows == old(kg.rows) && kg.cols == old(kg.cols)
      invariant Draining(kg, ee, fe, ef, ff, ne, nf, k0, done)
      decreases |kg.entries|
    {
      err, done, stop := DrainStep(kg, ee, fe, ef, ff, ne, nf, k0, done);
      if err.Some? {
        return;
      }
    }
    DrainedAll(kg, ee, fe, ef, ff, ne, nf, k0, done);
    err := None;
  }

  /** When `k_global` is empty every entry has been popped, and the blocks fit. */
  lemma DrainedAll(kg: DokMatrix, ee: DokMatrix, fe: DokMatrix, ef: DokMatrix, ff: DokMatrix,
                   ne: nat, nf: nat, k0: Entries, done: Entries)
    requires Draining(kg, ee, fe, ef, ff, ne, nf, k0, done) && kg.entries == map[]
    ensures done == k0 && EntriesFit(k0, ne, nf, AsWritten)
  {
    DistributedAll(kg.entries, ee.entries, fe.entries, ef.entries, ff.entries, ne, k0, done);
    AsWrittenFitsFromBlocks(k0, ne, nf);
    FitsDestinationsByEntry(k0, ne, nf, AsWritten);
  }

  /** The part of `set_equation` from the creation of the four dok_matrix blocks
      to their conversion with `tocsr`. */
  method PartitionBlocks(kg: DokMatrix, ne: nat, nf: nat)
    returns (err: Option<Error>, kEE: SparseMatrix, kFE: SparseMatrix, kEF: SparseMatrix, kFF: SparseMatrix)
    requires kg.Valid()
    modifies kg
    ensures kg.Valid() && kg.rows == old(kg.rows) && kg.cols == old(kg.cols)
    ensures err == None <==> EntriesFit(old(kg.entries), ne, nf, AsWritten)
    ensures err != None ==>
              && err == Some(IndexError)
              && kEE.rows == ne && kEE.cols == ne && kFE.rows == nf && kFE.cols == ne
              && kEF.rows == ne && kEF.cols == nf && kFF.rows == nf && kFF.cols == nf
              && PartOfBlocks(kEE.entries, kFE.entries, kEF.entries, kFF.entries, ne, old(kg.entries))
              && SubEntries(kg.entries, old(kg.entries))
    ensures err == None ==>
              && kg.entries == map[]
              && kEE == SparseMatrix(ne, ne, BlockEntries(old(kg.entries), ne, EE))
              && kFE == SparseMatrix(nf, ne, BlockEntries(old(kg.entries), ne, EF))
              && kEF == SparseMatrix(ne, nf, BlockEntries(old(kg.entries), ne, FE))
              && kFF == SparseMatrix(nf, nf, BlockEntries(old(kg.entries), ne, FF))
  {
    var ee := new DokMatrix(ne, ne);
    var ef := new DokMatrix(ne, nf);
    var fe := new DokMatrix(nf, ne);
    var ff := new DokMatrix(nf, nf);
    ghost var done, stop;
    err, done, stop := Drain(kg, ee, fe, ef, ff, ne, nf);
    kEE, kFE, kEF, kFF := ee.Snapshot(), fe.Snapshot(), ef.Snapshot(), ff.Snapshot();
    if err.Some? {
      StoppedBlocksArePartial(kEE.entries, kFE.entries, kEF.entries, kFF.entries, ne, nf, old(kg.entries), AsWritten, done, stop);
    }
  }

  /** `LinearStatic.Equation`: the partitioned system of one analysis run. */
  class Equation {
    var dofMap: DofMap
    var kFF: SparseMatrix
    var kFE: SparseMatrix
    var kEF: SparseMatrix
    var kEE: SparseMatrix
    var dE: seq<real>
    var dF: seq<real>
    var fE: seq<real>
    var fF: seq<real>

    /** The state `clear` leaves: every field empty. */
    predicate IsCleared()
      reads this
    {
      && dofMap == map[]
      && kFF == EmptyBlock && kFE == EmptyBlock && kEF == EmptyBlock && kEE == EmptyBlock
      && dE == [] && dF == [] && fE == [] && fF == []
    }

    /** The first step of `__init__`: a new equation starts out cleared. */
    constructor ()
      ensures IsCleared()
    {
      dofMap := map[];
      kFF, kFE, kEF, kEE := EmptyBlock, EmptyBlock, EmptyBlock, EmptyBlock;
      dE, dF, fE, fF := [], [], [], [];
    }

    /** `clear`. */
    method Clear()
      modifies this
      ensures IsCleared()
    {
      dofMap := map[];
      kFF, kFE, kEF, kEE := EmptyBlock, EmptyBlock, EmptyBlock, EmptyBlock;
      dE, dF, fE, fF := [], [], [], [];
    }

    /** The `d_f` setter: only `d_f` changes. */
    method SetDf(value: seq<real>)
      modifies this
      ensures dF == value
      ensures dofMap == old(dofMap) && dE == old(dE) && fE == old(fE) && fF == old(fF)
      ensures kFF == old(kFF) && kFE == old(kFE) && kEF == old(kEF) && kEE == old(kEE)
    {
      dF := value;
    }

    /** The part of `set_equation` after the DOF counts are known: the blocks,
        with `k_global` drained into `k_ee`, `k_fe`, `k_ef`, `k_ff`, then D and F
        split at `ne`; on an IndexError D and F are left alone. */
    method PartitionSystem(kg: DokMatrix, ne: nat, nf: nat, dGlobal: seq<real>, fGlobal: seq<real>) returns (err: Option<Error>)
      requires kg.Valid()
      modifies this`kEE, this`kFE, this`kEF, this`kFF, this`dE, this`dF, this`fE, this`fF, kg
      ensures kg.Valid()
      ensures err == None <==> EntriesFit(old(kg.entries), ne, nf, AsWritten)
      ensures err != None ==>
                && err == Some(IndexError)
                && dE == old(dE) && dF == old(dF) && fE == old(fE) && fF == old(fF)
                && kEE.rows == ne && kEE.cols == ne && kFE.rows == nf && kFE.cols == ne
                && kEF.rows == ne && kEF.cols == nf && kFF.rows == nf && kFF.cols == nf
                && PartOfBlocks(kEE.entries, kFE.entries, kEF.entries, kFF.entries, ne, old(kg.entries))
                && SubEntries(kg.entries, old(kg.entries))
      ensures err == None ==>
                && kg.entries == map[]
                && kEE == SparseMatrix(ne, ne, BlockEntries(old(kg.entries), ne, EE))
                && kFE == SparseMatrix(nf, ne, BlockEntries(old(kg.entries), ne, EF))
                && kEF == SparseMatrix(ne, nf, BlockEntries(old(kg.entries), ne, FE))
                && kFF == SparseMatrix(nf, nf, BlockEntries(old(kg.entries), ne, FF))
                && dE == SplitAt(dGlobal, ne).0 && dF == SplitAt(dGlobal, ne).1
                && fE == SplitAt(fGlobal, ne).0 && fF == SplitAt(fGlobal, ne).1
    {
      err := StoreBlocks(kg, ne, nf);
      if err.Some? {
        return;
      }
      dE, dF := SplitAt(dGlobal, ne).0, SplitAt(dGlobal, ne).1;
      fE, fF := SplitAt(fGlobal, ne).0, SplitAt(fGlobal, ne).1;
    }

    /** The blocks of `PartitionBlocks`, stored in the four block fields. */
    method StoreBlocks(kg: DokMatrix, ne: nat, nf: nat) returns (err: Option<Error>)
      requires kg.Valid()
      modifies this`kEE, this`kFE, this`kEF, this`kFF, kg
      ensures kg.Valid()
      ensures err == None <==> EntriesFit(old(kg.entries), ne, nf, AsWritten)
      ensures err != None ==>
                && err == Some(IndexError)
                && kEE.rows == ne && kEE.cols == ne && kFE.rows == nf && kFE.cols == ne
                && kEF.rows == ne && kEF.cols == nf && kFF.rows == nf && kFF.cols == nf
                && PartOfBlocks(kEE.entries, kFE.entries, kEF.entries, kFF.entries, ne, old(kg.entries))
                && SubEntries(kg.entries, old(kg.entries))
      ensures err == None ==>
                && kg.entries == map[]
                && kEE == SparseMatrix(ne, ne, BlockEntries(old(kg.entries), ne, EE))
                && kFE == SparseMatrix(nf, ne, BlockEntries(old(kg.entries), ne, EF))
                && kEF == SparseMatrix(ne, nf, BlockEntries(old(kg.entries), ne, FE))
                && kFF == SparseMatrix(nf, nf, BlockEntries(old(kg.entries), ne, FF))
    {
      var bEE, bFE, bEF, bFF;
      err, bEE, bFE, bEF, bFF := PartitionBlocks(kg, ne, nf);
      kEE, kFE, kEF, kFF := bEE, bFE, bEF, bFF;
    }

    /** `set_equation`: drains `k_global` with `popitem`, routing each entry by
        comparing its row and column with `N_essential`, then splits D and F at
        `N_essential`. The entries of the essential-row/free-column block go to
        `k_fe` and those of the free-row/essential-column block to `k_ef`, each
        declared with the other's shape: wherever an entry falls outside the shape
        of the block it is written to, the write is an IndexError. */
    method SetEquation(dofMap: DofMap, kGlobal: StiffnessArgument, dGlobal: seq<real>, fGlobal: seq<real>,
                       essential: set<GlobalDoF>) returns (err: Option<Error>)
      requires kGlobal.DokArgument? ==> kGlobal.matrix.Valid()
      modifies this, if kGlobal.DokArgument? then {kGlobal.matrix} else {}
      ensures !kGlobal.DokArgument? ==> err == Some(TypeError) && unchanged(this)
      ensures kGlobal.DokArgument? && |essential| > |dofMap| ==>
                && err == Some(ValueError)
                && kEE == SparseMatrix(|essential|, |essential|, map[])
                && kFF == old(kFF) && kFE == old(kFE) && kEF == old(kEF)
                && this.dofMap == old(this.dofMap) && dE == old(dE) && dF == old(dF) && fE == old(fE) && fF == old(fF)
                && unchanged(kGlobal.matrix)
      ensures kGlobal.DokArgument? ==> kGlobal.matrix.Valid()
      ensures kGlobal.DokArgument? && |essential| <= |dofMap| ==>
                var k0, ne, nf := old(kGlobal.matrix.entries), |essential|, |dofMap| - |essential|;
                && (err == None <==> EntriesFit(k0, ne, nf, AsWritten))
                && (err != None ==> err == Some(IndexError))
                && this.dofMap == old(this.dofMap)
                && (err != None ==>
                      && dE == old(dE) && dF == old(dF) && fE == old(fE) && fF == old(fF)
                      && kEE.rows == ne && kEE.cols == ne && kFE.rows == nf && kFE.cols == ne
                      && kEF.rows == ne && kEF.cols == nf && kFF.rows == nf && kFF.cols == nf
                      && PartOfBlocks(kEE.entries, kFE.entries, kEF.entries, kFF.entries, ne, k0)
                      && SubEntries(kGlobal.matrix.entries, k0))
                && (err == None ==>
                      && kGlobal.matrix.entries == map[]
                      && kEE == SparseMatrix(ne, ne, BlockEntries(k0, ne, EE))
                      && kFE == SparseMatrix(nf, ne, BlockEntries(k0, ne, EF))
                      && kEF == SparseMatrix(ne, nf, BlockEntries(k0, ne, FE))
                      && kFF == SparseMatrix(nf, nf, BlockEntries(k0, ne, FF))
                      && dE == SplitAt(dGlobal, ne).0 && dF == SplitAt(dGlobal, ne).1
                      && fE == SplitAt(fGlobal, ne).0 && fF == SplitAt(fGlobal, ne).1)
    {
      if !kGlobal.DokArgument? {
        return Some(TypeError);
      }
      var kg := kGlobal.matrix;
      var ne := |essential|;
      if ne > |dofMap| {
        // `dok_matrix((N_essential, N_free))` refuses the negative N_free
        kEE := SparseMatrix(ne, ne, map[]);
        return Some(ValueError);
      }
      var nf := |dofMap| - ne;
      err := PartitionSystem(kg, ne, nf, dGlobal, fGlobal);
    }
  }
  /** `Equation(dof_map, k_global, d_global, f_global, essential_global_dofs)`:
      cleared, given the DOF map, then `set_equation`. */
  method NewEquation(dofMap: DofMap, kGlobal: StiffnessArgument, dGlobal: seq<real>, fGlobal: seq<real>,
                     essential: set<GlobalDoF>) returns (eq: Equation, err: Option<Error>)
    requires kGlobal.DokArgument? ==> kGlobal.matrix.Valid()
    modifies if kGlobal.DokArgument? then {kGlobal.matrix} else {}
    ensures fresh(eq) && eq.dofMap == dofMap
    ensures kGlobal.DokArgument? && |essential| <= |dofMap| ==>
              var k0, ne, nf := old(kGlobal.matrix.entries), |essential|, |dofMap| - |essential|;
              && (err == None <==> EntriesFit(k0, ne, nf, AsWritten))
              && (err != None ==>
                    && err == Some(IndexError)
                    && PartOfBlocks(eq.kEE.entries, eq.kFE.entries, eq.kEF.entries, eq.kFF.entries, ne, k0)
                    && SubEntries(kGlobal.matrix.entries, k0))
              && (err == None ==>
                    && eq.kEE == SparseMatrix(ne, ne, BlockEntries(k0, ne, EE))
                    && eq.kFE == SparseMatrix(nf, ne, BlockEntries(k0, ne, EF))
                    && eq.kEF == SparseMatrix(ne, nf, BlockEntries(k0, ne, FE))
                    && eq.kFF == SparseMatrix(nf, nf, BlockEntries(k0, ne, FF))
                    && eq.dE == SplitAt(dGlobal, ne).0 && eq.dF == SplitAt(dGlobal, ne).1
                    && eq.fE == SplitAt(fGlobal, ne).0 && eq.fF == SplitAt(fGlobal, ne).1)
    ensures !kGlobal.DokArgument? ==> err == Some(TypeError)
  {
    eq := new Equation();
    eq.dofMap := dofMap;
    err := eq.SetEquation(dofMap, kGlobal, dGlobal, fGlobal, essential);
  }

  // ---------------------------------------------------------------- solve_equation

  /** `f_f - k_fe.dot(d_e)`: a ValueError when the shapes do not line up. */
  function EffectiveLoad(kFE: SparseMatrix, dE: seq<real>, fF: seq<real>): (r: Result<seq<real>>)
    ensures r.Ok? <==> kFE.cols == |dE| && kFE.rows == |fF|
    ensures r.Ok? ==> |r.value| == |fF|
    ensures r.Err? ==> r.error == ValueError
  {
    if kFE.cols != |dE| || kFE.rows != |fF| then Err(ValueError)
    else
      var kd := Sparse.Dot(kFE, dE);
      Ok(seq(|fF|, i requires 0 <= i < |fF| => fF[i] - kd[i]))
  }

  lemma {:induction false} RowDotOfZeros(m: Entries, i: nat, v: seq<real>, n: nat)
    requires n <= |v| && forall j :: 0 <= j < |v| ==> v[j] == 0.0
    ensures RowDot(m, i, v, n) == 0.0
    decreases n
  {
    if n > 0 {
      RowDotOfZeros(m, i, v, n - 1);
    }
  }

  /** Prescribing zero displacements leaves the free load as it is. */
  lemma EffectiveLoadOfZeroDisplacements(kFE: SparseMatrix, dE: seq<real>, fF: seq<real>)
    requires kFE.cols == |dE| && kFE.rows == |fF|
    requires forall j :: 0 <= j < |dE| ==> dE[j] == 0.0
    ensures EffectiveLoad(kFE, dE, fF) == Ok(fF)
  {
    var r := EffectiveLoad(kFE, dE, fF).value;
    forall i | 0 <= i < |fF|
      ensures r[i] == fF[i]
    {
      RowDotOfZeros(kFE.entries, i, dE, |dE|);
      assert Sparse.Dot(kFE, dE)[i] == 0.0;
    }
    assert r == fF;
  }

  /** Row `i` of the free-row/essential-column block against `d_e` is row
      `N_essential + i` of K against the first `c` entries of D. */
  lemma {:induction false} CouplingRowDot(k: Entries, ne: nat, d: seq<real>, i: nat, c: nat)
    requires c <= ne <= |d|
    ensures RowDot(BlockEntries(k, ne, FE), i, d[..ne], c) == RowDot(k, ne + i, d, c)
    decreases c
  {
    if c > 0 {
      CouplingRowDot(k, ne, d, i, c - 1);
      BlockEntriesRead(k, ne, FE, (i, c - 1));
    }
  }

  /** With the intended `k_fe` (the free-row/essential-column block of K) the
      effective load of free DOF `i` is its force minus the forces the prescribed
      displacements induce: `F[Ne + i] - Σ_{j < Ne} K[Ne + i, j]·D[j]`. */
  lemma EffectiveLoadMovesKnownColumns(k: Entries, ne: nat, d: seq<real>, f: seq<real>)
    requires ne <= |d| == |f|
    ensures var kFE := SparseMatrix(|f| - ne, ne, BlockEntries(k, ne, FE));
      var r := EffectiveLoad(kFE, SplitAt(d, ne).0, SplitAt(f, ne).1);
      && r.Ok?
      && forall i :: 0 <= i < |f| - ne ==> r.value[i] == f[ne + i] - RowDot(k, ne + i, d, ne)
  {
    var kFE := SparseMatrix(|f| - ne, ne, BlockEntries(k, ne, FE));
    var dE, fF := SplitAt(d, ne).0, SplitAt(f, ne).1;
    assert dE == d[..ne] && fF == f[ne..];
    forall i | 0 <= i < |f| - ne
      ensures EffectiveLoad(kFE, dE, fF).value[i] == f[ne + i] - RowDot(k, ne + i, d, ne)
    {
      CouplingRowDot(k, ne, d, i, ne);
    }
  }

  /** `solve_equation`: without essential DOFs the equation is returned untouched;
      otherwise `d_f` is set to the solver's answer for `k_ff` and the effective
      load `f_f - k_fe·d_e`. */
  method SolveEquation(eq: Equation, solve: (SparseMatrix, seq<real>) -> seq<real>) returns (err: Option<Error>)
    modifies eq
    ensures |old(eq.dE)| == 0 ==> err == None && unchanged(eq)
    ensures |old(eq.dE)| > 0 ==>
              var r := EffectiveLoad(old(eq.kFE), old(eq.dE), old(eq.fF));
              && (r.Err? ==> err == Some(r.error) && unchanged(eq))
              && (r.Ok? ==> err == None && eq.dF == solve(old(eq.kFF), r.value))
    ensures eq.dofMap == old(eq.dofMap) && eq.dE == old(eq.dE) && eq.fE == old(eq.fE) && eq.fF == old(eq.fF)
    ensures eq.kFF == old(eq.kFF) && eq.kFE == old(eq.kFE) && eq.kEF == old(eq.kEF) && eq.kEE == old(eq.kEE)
  {
    err := None;
    if |eq.dE| > 0 {
      var f := EffectiveLoad(eq.kFE, eq.dE, eq.fF);
      if f.Err? {
        return Some(f.error);
      }
      eq.SetDf(solve(eq.kFF, f.value));
    }
  }

  // ---------------------------------------------------------------- run

  /** The essential DOFs are among the numbered ones, so `N_free` is never negative
      on the numbering of the same model. */
  lemma EssentialWithinNumbering(pds: seq<PrescribedDisplacement>, elements: seq<Element>)
    ensures |EssentialDofs(pds)| <= |DofNumbering(pds, elements)|
  {
    EssentialDofsFirst(pds, elements);
    DofNumberingIsContiguous(pds, elements);
  }

  /** The first half of `run`: the DOF map and the three assembled arrays. */
  method AssembleSystem(model: Models.LinearStatic, lengths: seq<real>)
    returns (dofMap: DofMap, essential: set<GlobalDoF>, k: DokMatrix, f: seq<real>, d: seq<real>, err: Option<Error>)
    requires Lengths(model.elements, lengths)
    ensures dofMap == DofNumbering(model.prescribedDisplacements, model.elements)
    ensures essential == EssentialDofs(model.prescribedDisplacements) && |essential| <= |dofMap|
    ensures fresh(k) && k.Valid() && k.rows == |dofMap| && k.cols == |dofMap|
    ensures var kr, fr := Assemble(Assign, model.elements, lengths, dofMap, |dofMap|),
                          ScatterValues(ForcePairs(model.prescribedForces), dofMap, |dofMap|);
      && (kr.Err? ==> err == Some(kr.error))
      && (kr.Ok? && fr.Err? ==> err == Some(fr.error))
      && (kr.Ok? && fr.Ok? ==> err == None)
      && (err == None ==> kr.Ok? && k.entries == kr.value && fr.Ok? && f == fr.value)
    ensures err == None ==> |f| == |dofMap| && |d| == |dofMap|
    ensures err == None ==> ScatterValues(DisplacementPairs(model.prescribedDisplacements), dofMap, |dofMap|) == Ok(d)
  {
    var pds := model.prescribedDisplacements;
    dofMap, essential := GetGlobalDofMap(model);
    EssentialWithinNumbering(pds, model.elements);
    k, err := GenerateGlobalStiffnessMatrix(Assign, model.elements, lengths, dofMap);
    f, d := [], [];
    if err.Some? {
      return;
    }
    var fr := GenerateGlobalForceVector(model.prescribedForces, dofMap);
    if fr.Err? {
      err := Some(fr.error);
      return;
    }
    var dr := GenerateGlobalDofVector(pds, dofMap);
    assert dr.Ok? by {
      DisplacementVectorSucceeds(pds, model.elements);
    }
    f, d := fr.value, dr.value;
  }

  /** With blocks of the declared shapes the effective load is well formed. */
  lemma EffectiveLoadOfPartition(kFE: SparseMatrix, dE: seq<real>, fF: seq<real>, ne: nat, nf: nat)
    requires kFE.rows == nf && kFE.cols == ne && |dE| == ne && |fF| == nf
    ensures EffectiveLoad(kFE, dE, fF).Ok?
  {
  }

  /** The second half of `run`: the equation over the assembled arrays, then the
      solve, which cannot fail once the partition has succeeded. */
  method EquationAndSolve(dofMap: DofMap, k: DokMatrix, d: seq<real>, f: seq<real>, essential: set<GlobalDoF>,
                          solve: (SparseMatrix, seq<real>) -> seq<real>) returns (eq: Equation?, err: Option<Error>)
    requires k.Valid() && |essential| <= |dofMap| && |d| == |dofMap| && |f| == |dofMap|
    modifies k
    ensures var ne := |essential|;
      && (err == None <==> EntriesFit(old(k.entries), ne, |dofMap| - ne, AsWritten))
      && (err != None ==> err == Some(IndexError))
      && (err == None ==>
            && eq != null && fresh(eq) && eq.dofMap == dofMap
            && (ne > 0 ==> EffectiveLoad(eq.kFE, eq.dE, eq.fF).Ok?
                           && eq.dF == solve(eq.kFF, EffectiveLoad(eq.kFE, eq.dE, eq.fF).value)))
  {
    eq, err := NewEquation(dofMap, DokArgument(k), d, f, essential);
    if err.Some? {
      return;
    }
    EffectiveLoadOfPartition(eq.kFE, eq.dE, eq.fF, |essential|, |dofMap| - |essential|);
    err := SolveEquation(eq, solve);
  }

  /** `run`: number the DOFs, assemble K, F and D, build the equation and solve
      it. The `Results` it returns hold the equation and the DOF map; the set of
      essential DOFs `get_global_dof_map` found is returned beside them. On the
      model's own numbering only three things can go wrong: the assembly of K, a
      force on a DOF no element or prescription numbers, and the partition, which
      fails exactly when an entry of K falls outside the block `set_equation`
      writes it to. */
  method Run(model: Models.LinearStatic, lengths: seq<real>, solve: (SparseMatrix, seq<real>) -> seq<real>)
    returns (eq: Equation?, dofOrder: DofMap, essential: set<GlobalDoF>, err: Option<Error>)
    requires Lengths(model.elements, lengths)
    ensures dofOrder == DofNumbering(model.prescribedDisplacements, model.elements)
    ensures essential == EssentialDofs(model.prescribedDisplacements) && |essential| <= |dofOrder|
    ensures var k := Assemble(Assign, model.elements, lengths, dofOrder, |dofOrder|);
      var f := ScatterValues(ForcePairs(model.prescribedForces), dofOrder, |dofOrder|);
      var ne := |essential|;
      && (k.Err? ==> err == Some(k.error))
      && (k.Ok? && f.Err? ==> err == Some(f.error))
      && (k.Ok? && f.Ok? ==> (err == None <==> EntriesFit(k.value, ne, |dofOrder| - ne, AsWritten)))
      && (k.Ok? && f.Ok? && err != None ==> err == Some(IndexError))
      && (err == None ==>
            && eq != null && fresh(eq) && eq.dofMap == dofOrder
            && (ne > 0 ==> EffectiveLoad(eq.kFE, eq.dE, eq.fF).Ok?
                           && eq.dF == solve(eq.kFF, EffectiveLoad(eq.kFE, eq.dE, eq.fF).value)))
  {
    var k, f, d;
    dofOrder, essential, k, f, d, err := AssembleSystem(model, lengths);
    if err.Some? {
      return null, dofOrder, essential, err;
    }
    eq, err := EquationAndSolve(dofOrder, k, d, f, essential, solve);
  }
}
