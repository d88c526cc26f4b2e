/** The essential/free partition of the assembled system, as both copies of
    `set_equation` define it (barman/analysis.py:86-131,
    barman/equations.py:80-126): which block an entry `(i, j)` of K belongs to,
    where inside that block it goes, the shapes the blocks are declared with,
    and the prefix/suffix split of the vectors.

    The two copies differ only in where they send the off-diagonal blocks:
    barman/equations.py stores the essential-row/free-column entries in `k_ef`,
    barman/analysis.py stores them in `k_fe` (and the free-row/essential-column
    entries in `k_ef`), against the shapes it declares for those blocks. */
module Partition {
  import opened Outcomes
  import opened Sparse

  /** The four blocks, named by (row kind, column kind): e = essential, f = free. */
  datatype Block = EE | EF | FE | FF

  /** The block of an entry: its row and its column compared against `ne`. */
  function BlockOf(key: Key, ne: nat): Block
  {
    if key.0 < ne then
      if key.1 < ne then EE else EF
    else
      if key.1 < ne then FE else FF
  }

  /** Where an entry goes inside its block: free coordinates lose the offset `ne`. */
  function Local(key: Key, ne: nat): Key
  {
    (if key.0 < ne then key.0 else key.0 - ne, if key.1 < ne then key.1 else key.1 - ne)
  }

  predicate EssentialRows(b: Block)
  {
    b == EE || b == EF
  }

  predicate EssentialColumns(b: Block)
  {
    b == EE || b == FE
  }

  /** Re-offsetting: the global position of entry `key` of block `b`. */
  function Global(b: Block, key: Key, ne: nat): Key
  {
    (if EssentialRows(b) then key.0 else key.0 + ne, if EssentialColumns(b) then key.1 else key.1 + ne)
  }

  /** `key` lies in the essential range wherever block `b` has essential coordinates. */
  predicate InBlockRange(b: Block, key: Key, ne: nat)
  {
    (EssentialRows(b) ==> key.0 < ne) && (EssentialColumns(b) ==> key.1 < ne)
  }

  /** Placing an entry and re-offsetting it are inverse to each other. */
  lemma PlacementRoundTrip(key: Key, b: Block, local: Key, ne: nat)
    ensures Global(BlockOf(key, ne), Local(key, ne), ne) == key
    ensures InBlockRange(BlockOf(key, ne), Local(key, ne), ne)
    ensures InBlockRange(b, local, ne) ==>
              BlockOf(Global(b, local, ne), ne) == b && Local(Global(b, local, ne), ne) == local
  {
  }

  /** The shape `dok_matrix` is created with for each block, `(rows, columns)`. */
  function Shape(b: Block, ne: nat, nf: nat): (nat, nat)
  {
    match b
    case EE => (ne, ne)
    case EF => (ne, nf)
    case FE => (nf, ne)
    case FF => (nf, nf)
  }

  /** The entries of K that belong to block `b`, at their positions in the block. */
  function BlockEntries(k: Entries, ne: nat, b: Block): Entries
  {
    map key | key in k && BlockOf(key, ne) == b :: Local(key, ne) := k[key]
  }

  /** An entry of K is found in its block, at its block position. */
  lemma BlockEntryOf(k: Entries, ne: nat, key: Key)
    requires key in k
    ensures Local(key, ne) in BlockEntries(k, ne, BlockOf(key, ne))
    ensures BlockEntries(k, ne, BlockOf(key, ne))[Local(key, ne)] == k[key]
  {
    var b := BlockOf(key, ne);
    var r := BlockEntries(k, ne, b);
    assert Local(key, ne) in r;
    var key' :| key' in k && BlockOf(key', ne) == b && Local(key', ne) == Local(key, ne) && r[Local(key, ne)] == k[key'];
    PlacementRoundTrip(key, b, Local(key, ne), ne);
    PlacementRoundTrip(key', b, Local(key, ne), ne);
  }

  /** Every entry of a block comes from K, at its re-offset position. */
  lemma BlockEntryAt(k: Entries, ne: nat, b: Block, local: Key)
    requires local in BlockEntries(k, ne, b)
    ensures InBlockRange(b, local, ne) && Global(b, local, ne) in k
    ensures BlockEntries(k, ne, b)[local] == k[Global(b, local, ne)]
  {
    var key :| key in k && BlockOf(key, ne) == b && Local(key, ne) == local;
    PlacementRoundTrip(key, b, local, ne);
    BlockEntryOf(k, ne, key);
  }

  /** A block entry map reads K at the re-offset position, and only there. */
  lemma BlockEntriesRead(k: Entries, ne: nat, b: Block, local: Key)
    requires InBlockRange(b, local, ne)
    ensures Get(BlockEntries(k, ne, b), local) == Get(k, Global(b, local, ne))
  {
    var g := Global(b, local, ne);
    PlacementRoundTrip(g, b, local, ne);
    if g in k {
      BlockEntryOf(k, ne, g);
    }
    if local in BlockEntries(k, ne, b) {
      BlockEntryAt(k, ne, b, local);
    }
  }

  /** Every entry of K lands in exactly one block (the one `BlockOf` names), and
      reading that block at the entry's block position gives back K's value:
      together with `BlockEntriesRead`, re-offsetting the four blocks reproduces K. */
  lemma PartitionReassembles(k: Entries, ne: nat, key: Key)
    ensures Get(BlockEntries(k, ne, BlockOf(key, ne)), Local(key, ne)) == Get(k, key)
    ensures key in k ==> forall b ::
              (Local(key, ne) in BlockEntries(k, ne, b) && Global(b, Local(key, ne), ne) == key) <==> b == BlockOf(key, ne)
  {
    PlacementRoundTrip(key, EE, (0, 0), ne);
    BlockEntriesRead(k, ne, BlockOf(key, ne), Local(key, ne));
    if key in k {
      BlockEntryOf(k, ne, key);
      forall b | Local(key, ne) in BlockEntries(k, ne, b) && Global(b, Local(key, ne), ne) == key
        ensures b == BlockOf(key, ne)
      {
        BlockEntryAt(k, ne, b, Local(key, ne));
        PlacementRoundTrip(key, b, Local(key, ne), ne);
      }
    }
  }

  /** An entry of a block after one more entry of K was moved in: the new entry,
      or one that was there before. */
  lemma BlockEntryAdded(done: Entries, key: Key, v: real, ne: nat, b: Block, local: Key)
    requires key !in done && local in BlockEntries(done[key := v], ne, b)
    ensures if BlockOf(key, ne) == b && local == Local(key, ne) then BlockEntries(done[key := v], ne, b)[local] == v
            else local in BlockEntries(done, ne, b) && BlockEntries(done[key := v], ne, b)[local] == BlockEntries(done, ne, b)[local]
  {
    BlockEntryAt(done[key := v], ne, b, local);
    var g := Global(b, local, ne);
    PlacementRoundTrip(g, b, local, ne);
    PlacementRoundTrip(key, b, local, ne);
    if g != key {
      BlockEntryOf(done, ne, g);
    }
  }

  /** Moving one more entry of K into the partition updates only its own block. */
  lemma BlockEntriesAdd(done: Entries, key: Key, v: real, ne: nat, b: Block)
    requires key !in done
    ensures BlockEntries(done[key := v], ne, b)
         == if BlockOf(key, ne) == b then BlockEntries(done, ne, b)[Local(key, ne) := v] else BlockEntries(done, ne, b)
  {
    var after := BlockEntries(done[key := v], ne, b);
    var expected := if BlockOf(key, ne) == b then BlockEntries(done, ne, b)[Local(key, ne) := v] else BlockEntries(done, ne, b);
    var k' := done[key := v];
    forall local | local in after
      ensures local in expected && after[local] == expected[local]
    {
      BlockEntryAdded(done, key, v, ne, b, local);
    }
    forall local | local in expected
      ensures local in after
    {
      if BlockOf(key, ne) == b && local == Local(key, ne) {
        BlockEntryOf(k', ne, key);
      } else {
        BlockEntryAt(done, ne, b, local);
        BlockEntryOf(k', ne, Global(b, local, ne));
        PlacementRoundTrip(Global(b, local, ne), b, local, ne);
      }
    }
  }

  /** Where barman/equations.py stores the entries of each block: in the block of that name. */
  function Destination(b: Block): Block
  {
    b
  }

  /** Where barman/analysis.py stores them: `k_fe` takes the essential-row/free-column
      entries and `k_ef` the free-row/essential-column ones. */
  function DestinationAsWritten(b: Block): Block
  {
    match b
    case EF => FE
    case FE => EF
    case _ => b
  }

  /** Which of the two routings a partition follows. */
  datatype Routing = Intended | AsWritten

  function Target(routing: Routing, b: Block): Block
  {
    if routing.Intended? then Destination(b) else DestinationAsWritten(b)
  }

  /** Every block's entries fit the shape declared for the block they are stored in. */
  predicate FitsDestinations(k: Entries, ne: nat, nf: nat, routing: Routing)
  {
    forall b :: InBounds(BlockEntries(k, ne, b), Shape(Target(routing, b), ne, nf).0, Shape(Target(routing, b), ne, nf).1)
  }

  /** The same condition entry by entry: the block position of every entry of K is
      inside the shape of the block it is stored in. */
  predicate EntriesFit(k: Entries, ne: nat, nf: nat, routing: Routing)
  {
    forall key :: key in k ==>
      var s := Shape(Target(routing, BlockOf(key, ne)), ne, nf);
      Local(key, ne).0 < s.0 && Local(key, ne).1 < s.1
  }

  /** Every block fits its destination exactly when every entry does. */
  lemma FitsDestinationsByEntry(k: Entries, ne: nat, nf: nat, routing: Routing)
    ensures FitsDestinations(k, ne, nf, routing) <==> EntriesFit(k, ne, nf, routing)
  {
    if FitsDestinations(k, ne, nf, routing) {
      forall key | key in k
        ensures var s := Shape(Target(routing, BlockOf(key, ne)), ne, nf); Local(key, ne).0 < s.0 && Local(key, ne).1 < s.1
      {
        BlockEntryOf(k, ne, key);
      }
    }
    if EntriesFit(k, ne, nf, routing) {
      forall b, local | local in BlockEntries(k, ne, b)
        ensures local.0 < Shape(Target(routing, b), ne, nf).0 && local.1 < Shape(Target(routing, b), ne, nf).1
      {
        BlockEntryAt(k, ne, b, local);
        PlacementRoundTrip(Global(b, local, ne), b, local, ne);
      }
    }
  }

  /** With the intended destinations, every entry of an `n × n` matrix fits when
      `ne <= n` and the free size is `n - ne`. */
  lemma IntendedPartitionFits(k: Entries, n: nat, ne: nat)
    requires InBounds(k, n, n) && ne <= n
    ensures FitsDestinations(k, ne, n - ne, Intended)
  {
    forall b, local | local in BlockEntries(k, ne, b)
      ensures local.0 < Shape(b, ne, n - ne).0 && local.1 < Shape(b, ne, n - ne).1
    {
      BlockEntryAt(k, ne, b, local);
    }
  }

  /** The same, entry by entry. */
  lemma IntendedEntriesFit(k: Entries, n: nat, ne: nat)
    requires InBounds(k, n, n) && ne <= n
    ensures EntriesFit(k, ne, n - ne, Intended)
  {
    IntendedPartitionFits(k, n, ne);
    FitsDestinationsByEntry(k, ne, n - ne, Intended);
  }

  /** The couplings of a three-DOF system between its one essential DOF (dof 0)
      and its last free DOF (dof 2), symmetric as every assembled K is. */
  const CoupledEntries: Entries := map[(0, 2) := -1.0, (2, 0) := -1.0]

  /** As written, that system cannot be partitioned: the entry (0, 2) goes to
      `k_fe[0, 1]`, but `k_fe` has one column. The intended destinations fit. */
  lemma AsWrittenPartitionOverflows()
    ensures InBounds(CoupledEntries, 3, 3) && NonZero(CoupledEntries)
    ensures !FitsDestinations(CoupledEntries, 1, 2, AsWritten)
    ensures FitsDestinations(CoupledEntries, 1, 2, Intended)
  {
    BlockEntryOf(CoupledEntries, 1, (0, 2));
    assert (0, 1) in BlockEntries(CoupledEntries, 1, EF);
    assert Shape(DestinationAsWritten(EF), 1, 2) == (2, 1);
    assert !InBounds(BlockEntries(CoupledEntries, 1, EF), 2, 1);
    IntendedPartitionFits(CoupledEntries, 3, 1);
  }

  /** When the two sizes agree the as-written routing fits, but on a symmetric K
      what it stores as `k_fe` is the transpose of the intended `k_fe`. */
  lemma AsWrittenCouplingTransposed(k: Entries, ne: nat, a: nat, c: nat)
    requires forall i, j :: Get(k, (i, j)) == Get(k, (j, i))
    requires a < ne && c < ne
    ensures Get(BlockEntries(k, ne, DestinationAsWritten(FE)), (c, a)) == Get(BlockEntries(k, ne, FE), (a, c))
  {
    BlockEntriesRead(k, ne, EF, (c, a));
    BlockEntriesRead(k, ne, FE, (a, c));
  }

  // ---------------------------------------------------------------- the partition loop

  /** `done` holds the entries of `k0` handled so far and `rest` the others. */
  ghost predicate Popped(rest: Entries, k0: Entries, done: Entries)
  {
    && done.Keys <= k0.Keys && (forall x :: x in done ==> done[x] == k0[x])
    && rest == k0 - done.Keys
  }

  lemma PoppedOneMore(k0: Entries, done: Entries, rest: Entries, key: Key, v: real)
    requires rest == (k0 - done.Keys) - {key}
    ensures rest == k0 - done[key := v].Keys
  {
    assert done[key := v].Keys == done.Keys + {key};
  }

  lemma PoppedStep(rest: Entries, k0: Entries, done: Entries, key: Key)
    requires Popped(rest, k0, done) && key in rest
    ensures key !in done && rest[key] == k0[key]
    ensures Popped(rest - {key}, k0, done[key := rest[key]])
  {
    PoppedOneMore(k0, done, rest - {key}, key, rest[key]);
  }

  /** The state of a partition loop after the entries `done` of `k0` have been
      handled: `rest` holds the others, and `bEE`, `bEF`, `bFE`, `bFF` hold the
      handled entries of each kind at their block positions. */
  ghost predicate Distributed(rest: Entries, bEE: Entries, bEF: Entries, bFE: Entries, bFF: Entries,
                              ne: nat, k0: Entries, done: Entries)
  {
    && Popped(rest, k0, done)
    && bEE == BlockEntries(done, ne, EE) && bEF == BlockEntries(done, ne, EF)
    && bFE == BlockEntries(done, ne, FE) && bFF == BlockEntries(done, ne, FF)
  }

  /** Writing one more entry keeps its block equal to the handled entries of its kind. */
  lemma BlockStep(done: Entries, key: Key, v: real, ne: nat, b: Block, before: Entries, after: Entries)
    requires key !in done && v != 0.0 && before == BlockEntries(done, ne, b)
    requires after == if BlockOf(key, ne) == b then Store(before, Local(key, ne), v) else before
    ensures after == BlockEntries(done[key := v], ne, b)
  {
    BlockEntriesAdd(done, key, v, ne, b);
  }

  /** Taking `key` out of `rest` and writing it to its block keeps `Distributed`. */
  lemma DistributedStep(rest: Entries, bEE: Entries, bEF: Entries, bFE: Entries, bFF: Entries, ne: nat,
                        k0: Entries, done: Entries, key: Key, bEE': Entries, bEF': Entries, bFE': Entries, bFF': Entries)
    requires Distributed(rest, bEE, bEF, bFE, bFF, ne, k0, done) && NonZero(rest) && key in rest
    requires bEE' == (if BlockOf(key, ne) == EE then Store(bEE, Local(key, ne), rest[key]) else bEE)
    requires bEF' == (if BlockOf(key, ne) == EF then Store(bEF, Local(key, ne), rest[key]) else bEF)
    requires bFE' == (if BlockOf(key, ne) == FE then Store(bFE, Local(key, ne), rest[key]) else bFE)
    requires bFF' == (if BlockOf(key, ne) == FF then Store(bFF, Local(key, ne), rest[key]) else bFF)
    ensures Distributed(rest - {key}, bEE', bEF', bFE', bFF', ne, k0, done[key := rest[key]])
  {
    var v := rest[key];
    assert key !in done;
    BlockStep(done, key, v, ne, EE, bEE, bEE');
    BlockStep(done, key, v, ne, EF, bEF, bEF');
    BlockStep(done, key, v, ne, FE, bFE, bFE');
    BlockStep(done, key, v, ne, FF, bFF, bFF');
    PoppedStep(rest, k0, done, key);
  }

  /** Before the first entry: nothing handled, every block empty. */
  lemma DistributedStart(k0: Entries, ne: nat)
    ensures Distributed(k0, map[], map[], map[], map[], ne, k0, map[])
  {
    assert BlockEntries(map[], ne, EE) == map[] && BlockEntries(map[], ne, EF) == map[];
    assert BlockEntries(map[], ne, FE) == map[] && BlockEntries(map[], ne, FF) == map[];
  }

  /** With nothing left, every entry has been handled. */
  lemma DistributedAll(rest: Entries, bEE: Entries, bEF: Entries, bFE: Entries, bFF: Entries,
                       ne: nat, k0: Entries, done: Entries)
    requires Distributed(rest, bEE, bEF, bFE, bFF, ne, k0, done) && rest == map[]
    ensures done == k0
    ensures bEE == BlockEntries(k0, ne, EE) && bEF == BlockEntries(k0, ne, EF)
    ensures bFE == BlockEntries(k0, ne, FE) && bFF == BlockEntries(k0, ne, FF)
  {
    forall x | x in k0
      ensures x in done
    {
      assert x !in rest;
    }
  }

  /** `a` holds some of the entries of `b`, with their values. */
  ghost predicate SubEntries(a: Entries, b: Entries)
  {
    forall x :: x in a ==> x in b && a[x] == b[x]
  }

  /** The state a partition loop is left in when it stops at entry `key` of `k0`:
      `key` was not handled before, it falls outside the shape of the block it is
      stored in, and `bEE`, `bEF`, `bFE`, `bFF` hold exactly the entries `done`
      handled before it, each at its block position. */
  ghost predicate StoppedAt(bEE: Entries, bEF: Entries, bFE: Entries, bFF: Entries, ne: nat, nf: nat,
                            k0: Entries, routing: Routing, done: Entries, key: Key)
  {
    && key in k0 && key !in done && SubEntries(done, k0)
    && (var s := Shape(Target(routing, BlockOf(key, ne)), ne, nf);
        !(Local(key, ne).0 < s.0 && Local(key, ne).1 < s.1))
    && bEE == BlockEntries(done, ne, EE) && bEF == BlockEntries(done, ne, EF)
    && bFE == BlockEntries(done, ne, FE) && bFF == BlockEntries(done, ne, FF)
  }

  /** The loop reaches `StoppedAt` from `Distributed` on an entry that does not fit. */
  lemma StoppedFromDistributed(rest: Entries, bEE: Entries, bEF: Entries, bFE: Entries, bFF: Entries,
                               ne: nat, nf: nat, k0: Entries, routing: Routing, done: Entries, key: Key)
    requires Distributed(rest, bEE, bEF, bFE, bFF, ne, k0, done) && key in rest
    requires var s := Shape(Target(routing, BlockOf(key, ne)), ne, nf);
      !(Local(key, ne).0 < s.0 && Local(key, ne).1 < s.1)
    ensures StoppedAt(bEE, bEF, bFE, bFF, ne, nf, k0, routing, done, key)
  {
  }

  /** The entries of a block taken from part of K are part of that block of K. */
  lemma BlockEntriesOfSubEntries(done: Entries, k0: Entries, ne: nat, b: Block)
    requires SubEntries(done, k0)
    ensures SubEntries(BlockEntries(done, ne, b), BlockEntries(k0, ne, b))
  {
    forall local | local in BlockEntries(done, ne, b)
      ensures local in BlockEntries(k0, ne, b) && BlockEntries(done, ne, b)[local] == BlockEntries(k0, ne, b)[local]
    {
      BlockEntryAt(done, ne, b, local);
      PlacementRoundTrip(Global(b, local, ne), b, local, ne);
      BlockEntryOf(k0, ne, Global(b, local, ne));
    }
  }

  /** Every block holds some of the entries of the block of `k0` of its kind. */
  ghost predicate PartOfBlocks(bEE: Entries, bEF: Entries, bFE: Entries, bFF: Entries, ne: nat, k0: Entries)
  {
    && SubEntries(bEE, BlockEntries(k0, ne, EE)) && SubEntries(bEF, BlockEntries(k0, ne, EF))
    && SubEntries(bFE, BlockEntries(k0, ne, FE)) && SubEntries(bFF, BlockEntries(k0, ne, FF))
  }

  /** A loop that stopped left in every block a part of that block of K (the
      entries handled before the stop), and K does not fit its destinations. */
  lemma StoppedBlocksArePartial(bEE: Entries, bEF: Entries, bFE: Entries, bFF: Entries, ne: nat, nf: nat,
                                k0: Entries, routing: Routing, done: Entries, key: Key)
    requires StoppedAt(bEE, bEF, bFE, bFF, ne, nf, k0, routing, done, key)
    ensures !EntriesFit(k0, ne, nf, routing)
    ensures PartOfBlocks(bEE, bEF, bFE, bFF, ne, k0)
  {
    BlockEntriesOfSubEntries(done, k0, ne, EE);
    BlockEntriesOfSubEntries(done, k0, ne, EF);
    BlockEntriesOfSubEntries(done, k0, ne, FE);
    BlockEntriesOfSubEntries(done, k0, ne, FF);
  }

  // ---------------------------------------------------------------- vectors

  /** `numpy.split(v, [n])`: the first `n` entries (all of them when `v` is
      shorter) and the rest. */
  function SplitAt(v: seq<real>, n: nat): (r: (seq<real>, seq<real>))
    ensures r.0 + r.1 == v
    ensures |r.0| == if n <= |v| then n else |v|
  {
    if n <= |v| then (v[..n], v[n..]) else (v, [])
  }
}
