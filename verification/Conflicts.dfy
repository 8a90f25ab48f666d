/** Which mutations conflict, packed into one bit for each pair: the writer of the table and its reader. */
module Conflicts {
  import opened Integers
  import opened Wrappers

  // ---------- The place of a pair ----------

  /** The bits in the rows before this one. */
  function RowStart(n: nat, row: nat): nat
    requires row <= n
  {
    if row == 0 then 0 else RowStart(n, row - 1) + (n - row)
  }

  function PairsCount(n: nat): nat {
    if n == 0 then 0 else n * (n - 1) / 2
  }

  function Bit(n: nat, row: nat, column: nat): int {
    row * (2 * n - row - 1) / 2 + (column - row - 1)
  }

  lemma {:induction false} RowStartIs(n: nat, row: nat)
    requires row <= n
    ensures 2 * RowStart(n, row) == row * (2 * n - row - 1)
  {
    if row > 0 {
      RowStartIs(n, row - 1);
      assert (row - 1) * (2 * n - row) + 2 * (n - row) == row * (2 * n - row - 1);
    }
  }

  lemma BitIs(n: nat, row: nat, column: nat)
    requires row < column < n
    ensures Bit(n, row, column) == RowStart(n, row) + (column - row - 1)
  {
    RowStartIs(n, row);
  }

  lemma {:induction false} RowsAscend(n: nat, row: nat, later: nat)
    requires row < later <= n
    ensures RowStart(n, row) + (n - row - 1) <= RowStart(n, later)
  {
    if row < later - 1 {
      RowsAscend(n, row, later - 1);
    }
  }

  lemma AllRows(n: nat)
    requires n > 0
    ensures RowStart(n, n - 1) == PairsCount(n)
  {
    RowStartIs(n, n - 1);
  }

  /** The index stays within the triangle, and tells any two pairs apart. */
  lemma PairsHaveTheirOwnBits(n: nat, a: nat, b: nat, c: nat, d: nat)
    requires a < b < n && c < d < n
    ensures 0 <= Bit(n, a, b) < PairsCount(n)
    ensures Bit(n, a, b) == Bit(n, c, d) <==> a == c && b == d
  {
    hide Bit, PairsCount, RowStart;
    BitIs(n, a, b);
    BitIs(n, c, d);
    AllRows(n);
    if a < n - 1 {
      RowsAscend(n, a, n - 1);
    }
    if a < c {
      RowsAscend(n, a, c);
    } else if c < a {
      RowsAscend(n, c, a);
    }
  }

  // ---------- Bits in bytes ----------

  function Mask(i: nat): bv8
    requires i < 8
  {
    1 << i
  }

  predicate HasBit(bytes: seq<bv8>, bit: nat)
    requires bit / 8 < |bytes|
  {
    bytes[bit / 8] & Mask(bit % 8) != 0
  }

  lemma MasksAreDisjoint(byte: bv8, i: nat, j: nat)
    requires i < 8 && j < 8
    ensures ((byte | Mask(i)) & Mask(j) != 0) <==> i == j || byte & Mask(j) != 0
  {
    assert (byte | Mask(i)) & Mask(j) == (byte & Mask(j)) | (Mask(i) & Mask(j));
    assert i != j ==> Mask(i) & Mask(j) == 0;
  }

  // ---------- The matrix ----------

  function Bytes(n: nat): nat {
    (PairsCount(n) + 7) / 8
  }

  function PairBit(n: nat, a: nat, b: nat): (bit: nat)
    requires a != b && a < n && b < n
    ensures bit < PairsCount(n) && bit / 8 < Bytes(n)
  {
    var row, column := if a < b then a else b, if a < b then b else a;
    PairsHaveTheirOwnBits(n, row, column, row, column);
    Bit(n, row, column)
  }

  /** What the runtime reads: both indices must be of the matrix, and nothing conflicts with itself. */
  predicate Contains(n: nat, bytes: seq<bv8>, a: nat, b: nat)
    requires |bytes| == Bytes(n) && a < n && b < n
  {
    a != b && HasBit(bytes, PairBit(n, a, b))
  }

  lemma SameBit(n: nat, a: nat, b: nat, c: nat, d: nat)
    requires a < n && b < n && c < n && d < n && a != b && c != d
    ensures PairBit(n, a, b) == PairBit(n, c, d) <==> {a, b} == {c, d}
  {
    hide Bit;
    var row, column := if a < b then a else b, if a < b then b else a;
    var row', column' := if c < d then c else d, if c < d then d else c;
    PairsHaveTheirOwnBits(n, row, column, row', column');
    assert {a, b} == {row, column} && {c, d} == {row', column'};
    if {a, b} == {c, d} {
      assert row in {c, d} && column in {c, d};
    }
  }

  lemma SetBit(bytes: seq<bv8>, i: nat, j: nat)
    requires i / 8 < |bytes| && j / 8 < |bytes|
    ensures HasBit(bytes[i / 8 := bytes[i / 8] | Mask(i % 8)], j) <==> i == j || HasBit(bytes, j)
  {
    if i / 8 == j / 8 {
      MasksAreDisjoint(bytes[i / 8], i % 8, j % 8);
    }
  }

  /** The matrix as the code generator fills it. */
  class TriangleBits {
    const n: nat
    var bytes: seq<bv8>
    /** The pairs inserted so far. */
    ghost var pairs: set<set<nat>>

    /** The runtime reads exactly the pairs that were inserted, in either order. */
    ghost predicate Valid()
      reads this
    {
      && |bytes| == Bytes(n)
      && forall a, b | 0 <= a < n && 0 <= b < n :: Contains(n, bytes, a, b) <==> a != b && {a, b} in pairs
    }

    constructor (n: nat)
      ensures Valid() && this.n == n && pairs == {}
    {
      this.n, bytes, pairs := n, seq(Bytes(n), _ => 0), {};
    }

    method Insert(a: nat, b: nat)
      requires Valid() && a != b && a < n && b < n
      modifies this
      ensures Valid() && pairs == old(pairs) + {{a, b}}
    {
      hide Bytes, PairBit, HasBit, Mask;
      var bit := PairBit(n, a, b);
      forall c, d | 0 <= c < n && 0 <= d < n && c != d
        ensures HasBit(bytes[bit / 8 := bytes[bit / 8] | Mask(bit % 8)], PairBit(n, c, d))
          <==> {a, b} == {c, d} || HasBit(bytes, PairBit(n, c, d))
      {
        SetBit(bytes, bit, PairBit(n, c, d));
        SameBit(n, a, b, c, d);
      }
      bytes := bytes[bit / 8 := bytes[bit / 8] | Mask(bit % 8)];
      pairs := pairs + {{a, b}};
    }
  }

  // ---------- Conflicts between mutations ----------

  /** A sorted table of ids, and one bit for each pair of places in it. */
  datatype ConflictsMeta = ConflictsMeta(inProcess: seq<u32>, bytes: seq<bv8>) {
    predicate Valid() {
      && (forall i, j | 0 <= i < j < |inProcess| :: inProcess[i] < inProcess[j])
      && |bytes| == Bytes(|inProcess|)
    }

    /** Where an id is, as a binary search of ascending ids finds it. */
    function Position(id: u32): (p: Option<nat>)
      requires Valid()
      ensures p.Some? <==> id in inProcess
      ensures p.Some? ==> p.value < |inProcess| && inProcess[p.value] == id
    {
      if id in inProcess then
        var p :| 0 <= p < |inProcess| && inProcess[p] == id;
        Some(p)
      else None
    }

    predicate Conflicting(a: u32, b: u32)
      requires Valid()
    {
      && Position(a).Some?
      && Position(b).Some?
      && Contains(|inProcess|, bytes, Position(a).value, Position(b).value)
    }
  }

  /** The table of the runtime holds these pairs of places, as `TriangleBits` writes them. */
  ghost predicate HoldsPairs(meta: ConflictsMeta, pairs: set<set<nat>>) {
    && meta.Valid()
    && forall a, b | 0 <= a < |meta.inProcess| && 0 <= b < |meta.inProcess| ::
         Contains(|meta.inProcess|, meta.bytes, a, b) <==> a != b && {a, b} in pairs
  }

  /** The two mutations stand at two places of the table whose pair was inserted. */
  predicate IsInserted(inProcess: seq<u32>, pairs: set<set<nat>>, a: u32, b: u32) {
    exists p, q | 0 <= p < |inProcess| && 0 <= q < |inProcess| :: p != q && inProcess[p] == a && inProcess[q] == b && {p, q} in pairs
  }

  /** What the generator inserted is what the runtime reads: the mutations of each inserted pair conflict, and no others. */
  lemma ConflictsAreInserted(meta: ConflictsMeta, pairs: set<set<nat>>, a: u32, b: u32)
    requires HoldsPairs(meta, pairs)
    ensures meta.Conflicting(a, b) <==> IsInserted(meta.inProcess, pairs, a, b)
  {
    hide Contains;
    if p, q :| 0 <= p < |meta.inProcess| && 0 <= q < |meta.inProcess| && p != q && meta.inProcess[p] == a && meta.inProcess[q] == b {
      assert meta.Position(a) == Some(p) && meta.Position(b) == Some(q);
    }
  }

  /** A table that `TriangleBits` filled, for as many ids as it has places. */
  lemma WrittenIsRead(bits: TriangleBits, meta: ConflictsMeta)
    requires bits.Valid() && meta.Valid() && bits.n == |meta.inProcess| && bits.bytes == meta.bytes
    ensures HoldsPairs(meta, bits.pairs)
    ensures forall a, b :: meta.Conflicting(a, b) <==> IsInserted(meta.inProcess, bits.pairs, a, b)
  {
    hide Contains, IsInserted, ConflictsMeta.Conflicting;
    forall a, b
      ensures meta.Conflicting(a, b) <==> IsInserted(meta.inProcess, bits.pairs, a, b)
    {
      ConflictsAreInserted(meta, bits.pairs, a, b);
    }
  }

  /** Conflicts go both ways, and mutations that do not run in this process have none. */
  lemma ConflictsAreMutual(meta: ConflictsMeta, a: u32, b: u32)
    requires meta.Valid()
    ensures meta.Conflicting(a, b) <==> meta.Conflicting(b, a)
    ensures meta.Conflicting(a, b) ==> a != b && a in meta.inProcess && b in meta.inProcess
  {
    var p, q := meta.Position(a), meta.Position(b);
    if p.Some? && q.Some? && p != q {
      SameBit(|meta.inProcess|, p.value, q.value, q.value, p.value);
    }
  }
}
