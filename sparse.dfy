/** The dictionary-of-keys sparse matrix (`scipy.sparse.dok_matrix`) that the
    analysis assembles the stiffness matrix into and partitions it with, and the
    value a block becomes once converted by `tocsr()`.

    Only the behaviour the analysis relies on is modelled: an absent entry reads
    as zero, storing a zero removes the entry, a write outside the declared shape
    raises IndexError, `getnnz` counts stored entries, `popitem` removes one. */
module Sparse {
  import opened Outcomes

  type Key = (nat, nat)

  type Entries = map<Key, real>

  /** The value at `key`: stored entries, zero elsewhere. */
  function Get(m: Entries, key: Key): real
  {
    if key in m then m[key] else 0.0
  }

  /** A dok_matrix never stores an explicit zero. */
  predicate NonZero(m: Entries)
  {
    forall k :: k in m ==> m[k] != 0.0
  }

  /** Every stored entry lies inside a `rows × cols` shape. */
  predicate InBounds(m: Entries, rows: nat, cols: nat)
  {
    forall k :: k in m ==> k.0 < rows && k.1 < cols
  }

  /** A write inside the shape: `key` reads `v` afterwards, every other key reads
      as before, and a zero is removed rather than stored. */
  function Store(m: Entries, key: Key, v: real): (r: Entries)
    ensures Get(r, key) == v
    ensures forall k :: k != key ==> Get(r, k) == Get(m, k)
    ensures NonZero(m) ==> NonZero(r)
    ensures r.Keys <= m.Keys + {key}
  {
    if v == 0.0 then m - {key} else m[key := v]
  }

  /** A converted (`tocsr`) matrix: its shape and its entries. */
  datatype SparseMatrix = SparseMatrix(rows: nat, cols: nat, entries: Entries)

  predicate WellFormed(m: SparseMatrix)
  {
    InBounds(m.entries, m.rows, m.cols) && NonZero(m.entries)
  }

  /** Row `i` of `m` against `v[..n]`. */
  function RowDot(m: Entries, i: nat, v: seq<real>, n: nat): real
    requires n <= |v|
  {
    if n == 0 then 0.0 else RowDot(m, i, v, n - 1) + Get(m, (i, n - 1)) * v[n - 1]
  }

  /** `m.dot(v)` for a vector whose length is the column count. */
  function Dot(m: SparseMatrix, v: seq<real>): (r: seq<real>)
    requires m.cols == |v|
    ensures |r| == m.rows
  {
    seq(m.rows, i requires 0 <= i => RowDot(m.entries, i, v, |v|))
  }

  /** A product over an empty column range is zero whatever the vector. */
  lemma RowDotOfEmpty(m: Entries, i: nat, v: seq<real>, n: nat)
    requires n <= |v|
    requires forall j :: 0 <= j < n ==> (i, j) !in m
    ensures RowDot(m, i, v, n) == 0.0
  {
    if n > 0 {
      RowDotOfEmpty(m, i, v, n - 1);
    }
  }

  /** The mutable dok_matrix. */
  class DokMatrix {
    var rows: nat
    var cols: nat
    var entries: Entries

    ghost predicate Valid()
      reads this
    {
      InBounds(entries, rows, cols) && NonZero(entries)
    }

    /** `dok_matrix((rows, cols))`: an empty matrix of that shape. */
    constructor (rows: nat, cols: nat)
      ensures Valid()
      ensures this.rows == rows && this.cols == cols && entries == map[]
    {
      this.rows := rows;
      this.cols := cols;
      entries := map[];
    }

    /** `self[i, j] = v`. */
    method Set(i: nat, j: nat, v: real) returns (err: Option<Error>)
      requires Valid()
      modifies this
      ensures Valid() && rows == old(rows) && cols == old(cols)
      ensures i < rows && j < cols ==> err == None && entries == Store(old(entries), (i, j), v)
      ensures !(i < rows && j < cols) ==> err == Some(IndexError) && entries == old(entries)
    {
      if i < rows && j < cols {
        entries := Store(entries, (i, j), v);
        err := None;
      } else {
        err := Some(IndexError);
      }
    }

    /** `getnnz()`: the number of stored entries. */
    function Nnz(): nat
      reads this
    {
      |entries|
    }

    /** `popitem()`: removes some stored entry and returns it; KeyError when
        nothing is stored. Which entry goes first is left open. */
    method PopItem() returns (r: Result<(Key, real)>)
      requires Valid()
      modifies this
      ensures Valid() && rows == old(rows) && cols == old(cols)
      ensures old(entries) == map[] ==> r == Err(KeyError) && entries == old(entries)
      ensures old(entries) != map[] ==>
                && r.Ok?
                && r.value.0 in old(entries)
                && r.value.1 == old(entries)[r.value.0]
                && entries == old(entries) - {r.value.0}
    {
      if entries == map[] {
        r := Err(KeyError);
      } else {
        var key :| key in entries;
        r := Ok((key, entries[key]));
        entries := entries - {key};
      }
    }

    /** `tocsr()`: the same matrix as a value. */
    function Snapshot(): (m: SparseMatrix)
      reads this
      ensures Valid() ==> WellFormed(m)
    {
      SparseMatrix(rows, cols, entries)
    }
  }

  /** What a caller may pass as `k_global`: `set_equation` accepts only a dok_matrix. */
  datatype StiffnessArgument = DokArgument(matrix: DokMatrix) | OtherArgument

  /** A matrix field before `set_equation` has run: the empty list `clear` stores. */
  const EmptyBlock := SparseMatrix(0, 0, map[])
}
