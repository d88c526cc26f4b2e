/** barman/equations.py: the stand-alone copy of the linear static equation. It
    partitions the assembled system like `LinearStatic.Equation` in
    barman/analysis.py, but reads `k_global` with `items()` instead of draining it,
    and stores the essential-row/free-column entries in `k_ef` and the
    free-row/essential-column entries in `k_fe`, the blocks whose shapes fit them. */
module Equations {
  import opened Outcomes
  import opened Dofs
  import opened Sparse
  import opened DofMaps
  import opened Partition

  /** The routing of one entry `(global_i, global_j)` of `k_global`: rows and
      columns below `ne` are essential, the others lose the offset `ne`, and the
      entry is written to `k_ee`, `k_ef`, `k_fe` or `k_ff` (here `ee`, `ef`, `fe`,
      `ff`) by the two comparisons. */
  method Route(ee: DokMatrix, ef: DokMatrix, fe: DokMatrix, ff: DokMatrix, key: Key, value: real, ne: nat, nf: nat)
    returns (err: Option<Error>)
    requires ee.Valid() && ef.Valid() && fe.Valid() && ff.Valid()
    requires ee != ef && ee != fe && ee != ff && ef != fe && ef != ff && fe != ff
    requires ee.rows == ne && ee.cols == ne && ef.rows == ne && ef.cols == nf
    requires fe.rows == nf && fe.cols == ne && ff.rows == nf && ff.cols == nf
    modifies ee, ef, fe, ff
    ensures ee.Valid() && ef.Valid() && fe.Valid() && ff.Valid()
    ensures ee.rows == ne && ee.cols == ne && ef.rows == ne && ef.cols == nf
    ensures fe.rows == nf && fe.cols == ne && ff.rows == nf && ff.cols == nf
    ensures var s := Shape(Target(Intended, BlockOf(key, ne)), ne, nf);
      err == None <==> Local(key, ne).0 < s.0 && Local(key, ne).1 < s.1
    ensures err != None ==> err == Some(IndexError)
    ensures var b, l := BlockOf(key, ne), Local(key, ne);
      && ee.entries == (if b == EE && err == None then Store(old(ee.entries), l, value) else old(ee.entries))
      && ef.entries == (if b == EF && err == None then Store(old(ef.entries), l, value) else old(ef.entries))
      && fe.entries == (if b == FE && err == None then Store(old(fe.entries), l, value) else old(fe.entries))
      && ff.entries == (if b == FF && err == None then Store(old(ff.entries), l, value) else old(ff.entries))
  {
    var (i, j) := key;
    if i < ne {
      if j < ne {
        err := ee.Set(i, j, value);
      } else {
        err := ef.Set(i, j - ne, value);
      }
    } else {
      if j < ne {
        err := fe.Set(i - ne, j, value);
      } else {
        err := ff.Set(i - ne, j - ne, value);
      }
    }
  }

  lemma IntendedFitsFromBlocks(k: Entries, ne: nat, nf: nat)
    requires InBounds(BlockEntries(k, ne, EE), ne, ne) && InBounds(BlockEntries(k, ne, EF), ne, nf)
    requires InBounds(BlockEntries(k, ne, FE), nf, ne) && InBounds(BlockEntries(k, ne, FF), nf, nf)
    ensures FitsDestinations(k, ne, nf, Intended)
  {
  }

  /** The state of the `items()` loop: the blocks keep their shapes, and hold
      the entries of `k0` handled so far (`done`); `todo` holds the others. */
  ghost predicate Scattering(ee: DokMatrix, ef: DokMatrix, fe: DokMatrix, ff: DokMatrix, ne: nat, nf: nat,
                             todo: Entries, k0: Entries, done: Entries)
    reads ee, ef, fe, ff
  {
    && ee.Valid() && ef.Valid() && fe.Valid() && ff.Valid()
    && ee.rows == ne && ee.cols == ne && ef.rows == ne && ef.cols == nf
    && fe.rows == nf && fe.cols == ne && ff.rows == nf && ff.cols == nf
    && NonZero(todo)
    && Distributed(todo, ee.entries, ef.entries, fe.entries, ff.entries, ne, k0, done)
  }

  /** One pass of the `items()` loop: entry `key` written to its block. */
  method ScatterStep(ee: DokMatrix, ef: DokMatrix, fe: DokMatrix, ff: DokMatrix, ne: nat, nf: nat,
                     todo: Entries, ghost k0: Entries, ghost done: Entries, key: Key)
    returns (err: Option<Error>, ghost done': Entries)
    requires ee != ef && ee != fe && ee != ff && ef != fe && ef != ff && fe != ff
    requires Scattering(ee, ef, fe, ff, ne, nf, todo, k0, done) && key in todo
    modifies ee, ef, fe, ff
    ensures err == None ==> Scattering(ee, ef, fe, ff, ne, nf, todo - {key}, k0, done')
    ensures err != None ==>
              && err == Some(IndexError) && !EntriesFit(k0, ne, nf, Intended) && done' == done
              && ee.rows == ne && ee.cols == ne && ef.rows == ne && ef.cols == nf
              && fe.rows == nf && fe.cols == ne && ff.rows == nf && ff.cols == nf
              && StoppedAt(ee.entries, ef.entries, fe.entries, ff.entries, ne, nf, k0, Intended, done, key)
  {
    err := Route(ee, ef, fe, ff, key, todo[key], ne, nf);
    if err.Some? {
      StoppedFromDistributed(todo, ee.entries, ef.entries, fe.entries, ff.entries, ne, nf, k0, Intended, done, key);
      StoppedBlocksArePartial(ee.entries, ef.entries, fe.entries, ff.entries, ne, nf, k0, Intended, done, key);
      return err, done;
    }
    DistributedStep(todo, old(ee.entries), old(ef.entries), old(fe.entries), old(ff.entries), ne, k0, done,
                    key, ee.entries, ef.entries, fe.entries, ff.entries);
    done' := done[key := todo[key]];
  }

  /** The `items()` loop of `set_equation`: every entry of `k_global`, in an order
      left open, written to its block; the first entry that falls outside its
      block's shape stops the loop. `k_global` itself is only read. */
  method ScatterItems(kg: DokMatrix, ee: DokMatrix, ef: DokMatrix, fe: DokMatrix, ff: DokMatrix, ne: nat, nf: nat)
    returns (err: Option<Error>, ghost done: Entries, ghost stop: Key)
    requires kg.Valid() && ee.Valid() && ef.Valid() && fe.Valid() && ff.Valid()
    requires ee != ef && ee != fe && ee != ff && ef != fe && ef != ff && fe != ff
    requires kg != ee && kg != ef && kg != fe && kg != ff
    requires ee.rows == ne && ee.cols == ne && ef.rows == ne && ef.cols == nf
    requires fe.rows == nf && fe.cols == ne && ff.rows == nf && ff.cols == nf
    requires ee.entries == map[] && ef.entries == map[] && fe.entries == map[] && ff.entries == map[]
    modifies ee, ef, fe, ff
    ensures err == None <==> EntriesFit(kg.entries, ne, nf, Intended)
    ensures err != None ==>
              && err == Some(IndexError)
              && ee.rows == ne && ee.cols == ne && ef.rows == ne && ef.cols == nf
              && fe.rows == nf && fe.cols == ne && ff.rows == nf && ff.cols == nf
              && StoppedAt(ee.entries, ef.entries, fe.entries, ff.entries, ne, nf, kg.entries, Intended, done, stop)
    ensures err == None ==>
              && ee.rows == ne && ee.cols == ne && ef.rows == ne && ef.cols == nf
              && fe.rows == nf && fe.cols == ne && ff.rows == nf && ff.cols == nf
              && ee.entries == BlockEntries(kg.entries, ne, EE)
              && ef.entries == BlockEntries(kg.entries, ne, EF)
              && fe.entries == BlockEntries(kg.entries, ne, FE)
              && ff.entries == BlockEntries(kg.entries, ne, FF)
  {
    var todo := kg.entries;
    ghost var k0 := kg.entries;
    done, stop := map[], (0, 0);
    DistributedStart(k0, ne);
    while todo != map[]
      invariant Scattering(ee, ef, fe, ff, ne, nf, todo, k0, done)
      decreases |todo|
    {
      var key :| key in todo;
      err, done := ScatterStep(ee, ef, fe, ff, ne, nf, todo, k0, done, key);
      if err.Some? {
        stop := key;
        return;
      }
      todo := todo - {key};
    }
    ScatteredAll(ee, ef, fe, ff, ne, nf, todo, k0, done);
    err := None;
  }

  /** When every entry has been handled, the blocks hold K's blocks, and they fit. */
  lemma ScatteredAll(ee: DokMatrix, ef: DokMatrix, fe: DokMatrix, ff: DokMatrix, ne: nat, nf: nat,
                     todo: Entries, k0: Entries, done: Entries)
    requires Scattering(ee, ef, fe, ff, ne, nf, todo, k0, done) && todo == map[]
    ensures EntriesFit(k0, ne, nf, Intended)
    ensures && ee.entries == BlockEntries(k0, ne, EE) && ef.entries == BlockEntries(k0, ne, EF)
            && fe.entries == BlockEntries(k0, ne, FE) && ff.entries == BlockEntries(k0, ne, FF)
  {
    DistributedAll(todo, ee.entries, ef.entries, fe.entries, ff.entries, ne, k0, done);
    IntendedFitsFromBlocks(k0, ne, nf);
    FitsDestinationsByEntry(k0, ne, nf, Intended);
  }

  /** The part of `set_equation` from the creation of the four dok_matrix blocks
      to their conversion with `tocsr`. */
  method PartitionBlocks(kg: DokMatrix, ne: nat, nf: nat)
    returns (err: Option<Error>, kEE: SparseMatrix, kEF: SparseMatrix, kFE: SparseMatrix, kFF: SparseMatrix)
    requires kg.Valid()
    ensures err == None <==> EntriesFit(kg.entries, ne, nf, Intended)
    ensures err != None ==>
              && err == Some(IndexError)
              && kEE.rows == ne && kEE.cols == ne && kEF.rows == ne && kEF.cols == nf
              && kFE.rows == nf && kFE.cols == ne && kFF.rows == nf && kFF.cols == nf
              && PartOfBlocks(kEE.entries, kEF.entries, kFE.entries, kFF.entries, ne, kg.entries)
    ensures err == None ==>
              && kEE == SparseMatrix(ne, ne, BlockEntries(kg.entries, ne, EE))
              && kEF == SparseMatrix(ne, nf, BlockEntries(kg.entries, ne, EF))
              && kFE == SparseMatrix(nf, ne, BlockEntries(kg.entries, ne, FE))
              && kFF == SparseMatrix(nf, nf, BlockEntries(kg.entries, ne, FF))
  {
    var ee := new DokMatrix(ne, ne);
    var ef := new DokMatrix(ne, nf);
    var fe := new DokMatrix(nf, ne);
    var ff := new DokMatrix(nf, nf);
    ghost var done, stop;
    err, done, stop := ScatterItems(kg, ee, ef, fe, ff, ne, nf);
    kEE, kEF, kFE, kFF := ee.Snapshot(), ef.Snapshot(), fe.Snapshot(), ff.Snapshot();
    if err.Some? {
      StoppedBlocksArePartial(kEE.entries, kEF.entries, kFE.entries, kFF.entries, ne, nf, kg.entries, Intended, done, stop);
    }
  }

  /** The linear static equation of barman/equations.py. */
  class LinearStatic {
    var dofMap: DofMap
    var kFF: SparseMatrix
    var kFE: SparseMatrix
    var kEF: SparseMatrix
    var kEE: SparseMatrix
    var dE: seq<real>
    var dF: seq<real>
    var fE: seq<real>
    var fF: seq<real>

    /** The state `clear` leaves: every field empty. */
    predicate IsCleared()
      reads this
    {
      && dofMap == map[]
      && kFF == EmptyBlock && kFE == EmptyBlock && kEF == EmptyBlock && kEE == EmptyBlock
      && dE == [] && dF == [] && fE == [] && fF == []
    }

    /** The first step of `__init__`: a new equation starts out cleared. */
    constructor ()
      ensures IsCleared()
    {
      dofMap := map[];
      kFF, kFE, kEF, kEE := EmptyBlock, EmptyBlock, EmptyBlock, EmptyBlock;
      dE, dF, fE, fF := [], [], [], [];
    }

    /** `clear`. */
    method Clear()
      modifies this
      ensures IsCleared()
    {
      dofMap := map[];
      kFF, kFE, kEF, kEE := EmptyBlock, EmptyBlock, EmptyBlock, EmptyBlock;
      dE, dF, fE, fF := [], [], [], [];
    }

    /** The `d_f` setter: only `d_f` changes. */
    method SetDf(value: seq<real>)
      modifies this
      ensures dF == value
      ensures dofMap == old(dofMap) && dE == old(dE) && fE == old(fE) && fF == old(fF)
      ensures kFF == old(kFF) && kFE == old(kFE) && kEF == old(kEF) && kEE == old(kEE)
    {
      dF := value;
    }

    /** The part of `set_equation` after the DOF counts are known: the blocks,
        with `k_global` read into `k_ee`, `k_ef`, `k_fe`, `k_ff`, then D and F
        split at `ne`; on an IndexError D and F are left alone. */
    method PartitionSystem(kg: DokMatrix, ne: nat, nf: nat, dGlobal: seq<real>, fGlobal: seq<real>) returns (err: Option<Error>)
      requires kg.Valid()
      modifies this`kEE, this`kEF, this`kFE, this`kFF, this`dE, this`dF, this`fE, this`fF
      ensures err == None <==> EntriesFit(kg.entries, ne, nf, Intended)
      ensures kg.rows == ne + nf && kg.cols == ne + nf ==> err == None
      ensures err != None ==>
                && err == Some(IndexError)
                && dE == old(dE) && dF == old(dF) && fE == old(fE) && fF == old(fF)
                && kEE.rows == ne && kEE.cols == ne && kEF.rows == ne && kEF.cols == nf
                && kFE.rows == nf && kFE.cols == ne && kFF.rows == nf && kFF.cols == nf
                && PartOfBlocks(kEE.entries, kEF.entries, kFE.entries, kFF.entries, ne, kg.entries)
      ensures err == None ==>
                && kEE == SparseMatrix(ne, ne, BlockEntries(kg.entries, ne, EE))
                && kEF == SparseMatrix(ne, nf, BlockEntries(kg.entries, ne, EF))
                && kFE == SparseMatrix(nf, ne, BlockEntries(kg.entries, ne, FE))
                && kFF == SparseMatrix(nf, nf, BlockEntries(kg.entries, ne, FF))
                && dE == SplitAt(dGlobal, ne).0 && dF == SplitAt(dGlobal, ne).1
                && fE == SplitAt(fGlobal, ne).0 && fF == SplitAt(fGlobal, ne).1
    {
      if kg.rows == ne + nf && kg.cols == ne + nf {
        IntendedEntriesFit(kg.entries, ne + nf, ne);
      }
      var bEE, bEF, bFE, bFF;
      err, bEE, bEF, bFE, bFF := PartitionBlocks(kg, ne, nf);
      kEE, kEF, kFE, kFF := bEE, bEF, bFE, bFF;
      if err.Some? {
        return;
      }
      dE, dF := SplitAt(dGlobal, ne).0, SplitAt(dGlobal, ne).1;
      fE, fF := SplitAt(fGlobal, ne).0, SplitAt(fGlobal, ne).1;
    }

    /** `set_equation`: every entry of `k_global` is copied to the block its row
        and column select, at its block position, and D and F are split at
        `N_essential`. `k_global` is left as it was. When `k_global` is the
        `N × N` matrix of the DOF map, the partition cannot fail. */
    method SetEquation(dofMap: DofMap, kGlobal: StiffnessArgument, dGlobal: seq<real>, fGlobal: seq<real>,
                       essential: set<GlobalDoF>) returns (err: Option<Error>)
      requires kGlobal.DokArgument? ==> kGlobal.matrix.Valid()
      modifies this
      ensures !kGlobal.DokArgument? ==> err == Some(TypeError) && unchanged(this)
      ensures kGlobal.DokArgument? && |essential| > |dofMap| ==>
                && err == Some(ValueError)
                && kEE == SparseMatrix(|essential|, |essential|, map[])
                && kFF == old(kFF) && kFE == old(kFE) && kEF == old(kEF)
                && this.dofMap == old(this.dofMap) && dE == old(dE) && dF == old(dF) && fE == old(fE) && fF == old(fF)
      ensures kGlobal.DokArgument? && |essential| <= |dofMap| ==>
                var k0, ne, nf := kGlobal.matrix.entries, |essential|, |dofMap| - |essential|;
                && (err == None <==> EntriesFit(k0, ne, nf, Intended))
                && (err != None ==> err == Some(IndexError))
                && this.dofMap == old(this.dofMap)
                && (err != None ==>
                      && dE == old(dE) && dF == old(dF) && fE == old(fE) && fF == old(fF)
                      && kEE.rows == ne && kEE.cols == ne && kEF.rows == ne && kEF.cols == nf
                      && kFE.rows == nf && kFE.cols == ne && kFF.rows == nf && kFF.cols == nf
                      && PartOfBlocks(kEE.entries, kEF.entries, kFE.entries, kFF.entries, ne, k0))
                && (err == None ==>
                      && kEE == SparseMatrix(ne, ne, BlockEntries(k0, ne, EE))
                      && kEF == SparseMatrix(ne, nf, BlockEntries(k0, ne, EF))
                      && kFE == SparseMatrix(nf, ne, BlockEntries(k0, ne, FE))
                      && kFF == SparseMatrix(nf, nf, BlockEntries(k0, ne, FF))
                      && dE == SplitAt(dGlobal, ne).0 && dF == SplitAt(dGlobal, ne).1
                      && fE == SplitAt(fGlobal, ne).0 && fF == SplitAt(fGlobal, ne).1)
      ensures (kGlobal.DokArgument? && |essential| <= |dofMap|
               && kGlobal.matrix.rows == |dofMap| && kGlobal.matrix.cols == |dofMap|) ==> err == None
    {
      if !kGlobal.DokArgument? {
        return Some(TypeError);
      }
      var kg := kGlobal.matrix;
      var ne := |essential|;
      if ne > |dofMap| {
        // `dok_matrix((N_essential, N_free))` refuses the negative N_free
        kEE := SparseMatrix(ne, ne, map[]);
        return Some(ValueError);
      }
      var nf := |dofMap| - ne;
      err := PartitionSystem(kg, ne, nf, dGlobal, fGlobal);
    }
  }

  /** `LinearStatic(dof_map, k_global, d_global, f_global, essential_global_dofs)`:
      cleared, given the DOF map, then `set_equation`. */
  method NewLinearStatic(dofMap: DofMap, kGlobal: StiffnessArgument, dGlobal: seq<real>, fGlobal: seq<real>,
                         essential: set<GlobalDoF>) returns (eq: LinearStatic, err: Option<Error>)
    requires kGlobal.DokArgument? ==> kGlobal.matrix.Valid()
    ensures fresh(eq) && eq.dofMap == dofMap
    ensures !kGlobal.DokArgument? ==> err == Some(TypeError)
    ensures kGlobal.DokArgument? && |essential| <= |dofMap| ==>
              var k0, ne, nf := kGlobal.matrix.entries, |essential|, |dofMap| - |essential|;
              && (err == None <==> EntriesFit(k0, ne, nf, Intended))
              && (err != None ==> err == Some(IndexError) && PartOfBlocks(eq.kEE.entries, eq.kEF.entries, eq.kFE.entries, eq.kFF.entries, ne, k0))
              && (err == None ==>
                    && eq.kEE == SparseMatrix(ne, ne, BlockEntries(k0, ne, EE))
                    && eq.kEF == SparseMatrix(ne, nf, BlockEntries(k0, ne, EF))
                    && eq.kFE == SparseMatrix(nf, ne, BlockEntries(k0, ne, FE))
                    && eq.kFF == SparseMatrix(nf, nf, BlockEntries(k0, ne, FF))
                    && eq.dE == SplitAt(dGlobal, ne).0 && eq.dF == SplitAt(dGlobal, ne).1
                    && eq.fE == SplitAt(fGlobal, ne).0 && eq.fF == SplitAt(fGlobal, ne).1)
  {
    eq := new LinearStatic();
    eq.dofMap := dofMap;
    err := eq.SetEquation(dofMap, kGlobal, dGlobal, fGlobal, essential);
  }
}
