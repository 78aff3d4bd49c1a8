/** Hash-driven chunk placement of the client (dfc.c). The canonical table of
    chunk pairs {0,1},{1,2},{2,3},{3,0} is rotated left (hash mod count)
    times; roster position i is then responsible for the two chunks of row i.
    put_file, check_file_completeness and get_file each rotate a fresh copy
    of the table in place; here that loop is written once, as RotatePairs. */
module Placement {

  /** A chunk number as used in placement arithmetic (0-based). */
  type ChunkIndex = c: int | 0 <= c < 4

  datatype Pair = Pair(first: ChunkIndex, second: ChunkIndex) {
    predicate Holds(c: ChunkIndex) { first == c || second == c }
  }

  /** The chunk_pairs initialiser. */
  const Canonical: seq<Pair> := [Pair(0, 1), Pair(1, 2), Pair(2, 3), Pair(3, 0)]

  /** Row i of the table after x left rotations: row i + 1 of the table
      after x - 1 of them. */
  function PairAt(x: nat, i: nat): (p: Pair)
    requires i < 4
  {
    if x == 0 then Canonical[i] else PairAt(x - 1, Wrap(i + 1))
  }

  /** s mod 4 for 0 <= s < 8. */
  function Wrap(s: nat): (w: nat)
    requires s < 8
    ensures w < 4
  {
    if s >= 4 then s - 4 else s
  }

  /** hash % server_list->count; the source divides by zero when the
      roster is empty, so the count must be positive. */
  function Rotation(hash: nat, count: nat): (x: nat)
    requires count > 0
    ensures x < count
  {
    hash % count
  }

  /** Rotating once more moves every row up by one place and row 0 to the end. */
  lemma RotateOnce(x: nat)
    ensures PairAt(x + 1, 0) == PairAt(x, 1)
    ensures PairAt(x + 1, 1) == PairAt(x, 2)
    ensures PairAt(x + 1, 2) == PairAt(x, 3)
    ensures PairAt(x + 1, 3) == PairAt(x, 0)
  {
  }

  /** Row k after x rotations is canonical row (k + x) mod 4. */
  lemma {:induction false} PairAtClosed(x: nat, k: nat)
    requires k < 4
    ensures PairAt(x, k) == Canonical[Wrap(k + x % 4)]
  {
    if x > 0 {
      PairAtClosed(x - 1, Wrap(k + 1));
    }
  }

  /** Row k of the 4 x 2 array holds pair p. */
  predicate RowIs(pairs: array2<int>, k: nat, p: Pair)
    reads pairs
    requires pairs.Length0 == 4 && pairs.Length1 == 2 && k < 4
  {
    pairs[k, 0] == p.first && pairs[k, 1] == p.second
  }

  /** The four rows of the array are the four given pairs. */
  predicate RowsAre(pairs: array2<int>, p0: Pair, p1: Pair, p2: Pair, p3: Pair)
    reads pairs
    requires pairs.Length0 == 4 && pairs.Length1 == 2
  {
    RowIs(pairs, 0, p0) && RowIs(pairs, 1, p1) && RowIs(pairs, 2, p2) && RowIs(pairs, 3, p3)
  }

  /** The rotation loop of put_file, check_file_completeness and get_file:
      a 4 x 2 array initialised to the canonical table and rotated left x
      times by moving rows 1..3 up one place and row 0 to the end. */
  method RotatePairs(x: nat) returns (pairs: array2<int>)
    ensures pairs.Length0 == 4 && pairs.Length1 == 2
    ensures forall i :: 0 <= i < 4 ==>
      pairs[i, 0] == PairAt(x, i).first && pairs[i, 1] == PairAt(x, i).second
  {
    pairs := new int[4, 2];
    pairs[0, 0], pairs[0, 1] := 0, 1;
    pairs[1, 0], pairs[1, 1] := 1, 2;
    pairs[2, 0], pairs[2, 1] := 2, 3;
    pairs[3, 0], pairs[3, 1] := 3, 0;
    var i := 0;
    while i < x
      invariant 0 <= i <= x
      invariant RowsAre(pairs, PairAt(i, 0), PairAt(i, 1), PairAt(i, 2), PairAt(i, 3))
    {
      ghost var r0, r1, r2, r3 := PairAt(i, 0), PairAt(i, 1), PairAt(i, 2), PairAt(i, 3);
      var temp1 := pairs[0, 0];
      var temp2 := pairs[0, 1];
      var j := 0;
      while j < 3
        invariant 0 <= j <= 3
        invariant temp1 == r0.first && temp2 == r0.second
        invariant RowsAre(pairs, if j > 0 then r1 else r0, if j > 1 then r2 else r1, if j > 2 then r3 else r2, r3)
      {
        pairs[j, 0] := pairs[j + 1, 0];
        pairs[j, 1] := pairs[j + 1, 1];
        j := j + 1;
      }
      pairs[3, 0] := temp1;
      pairs[3, 1] := temp2;
      RotateOnce(i);
      i := i + 1;
    }
    assert RowIs(pairs, 0, PairAt(x, 0)) && RowIs(pairs, 1, PairAt(x, 1));
    assert RowIs(pairs, 2, PairAt(x, 2)) && RowIs(pairs, 3, PairAt(x, 3));
  }

  /** The two roster positions that hold chunk c after x rotations: the
      rows where canonical rows c - 1 and c (mod 4) end up. */
  function Holders(x: nat, c: ChunkIndex): (ps: (nat, nat))
    ensures ps.0 < 4 && ps.1 < 4 && ps.0 != ps.1
    ensures PairAt(x, ps.0).Holds(c) && PairAt(x, ps.1).Holds(c)
  {
    var r := x % 4;
    var a := Wrap(Wrap(c + 3) + 4 - r);
    var b := Wrap(c + 4 - r);
    PairAtClosed(x, a);
    PairAtClosed(x, b);
    (a, b)
  }

  /** Redundancy: every chunk index lies in exactly two rows of the rotated
      table, at two different roster positions. */
  lemma EachChunkInExactlyTwoRows(x: nat, c: ChunkIndex, k: nat)
    requires k < 4
    ensures PairAt(x, k).Holds(c) <==> k == Holders(x, c).0 || k == Holders(x, c).1
  {
    PairAtClosed(x, k);
  }

  /** Any three distinct roster positions among the four together hold all
      four chunks, which is why three live servers suffice. */
  lemma ThreePositionsCoverAllChunks(x: nat, p: nat, q: nat, s: nat, c: ChunkIndex)
    requires p < 4 && q < 4 && s < 4 && p != q && q != s && p != s
    ensures PairAt(x, p).Holds(c) || PairAt(x, q).Holds(c) || PairAt(x, s).Holds(c)
  {
    var hs := Holders(x, c);
    EachChunkInExactlyTwoRows(x, c, p);
    EachChunkInExactlyTwoRows(x, c, q);
    EachChunkInExactlyTwoRows(x, c, s);
  }

  /** Two positions are not enough: some pair of positions misses a chunk,
      for every rotation. */
  lemma TwoPositionsCanMissAChunk(x: nat)
    ensures exists p, q, c: ChunkIndex :: 0 <= p < q < 4 && !PairAt(x, p).Holds(c) && !PairAt(x, q).Holds(c)
  {
    var r := x % 4;
    var p := Wrap(4 - r);
    var q := Wrap(5 - r);
    PairAtClosed(x, p);
    PairAtClosed(x, q);
    assert PairAt(x, p) == Canonical[0];
    assert PairAt(x, q) == Canonical[1];
    if p < q {
      assert !PairAt(x, p).Holds(3) && !PairAt(x, q).Holds(3);
    } else {
      assert !PairAt(x, q).Holds(3) && !PairAt(x, p).Holds(3);
    }
  }

  /** The two chunks of one row are different chunks. */
  lemma RowsHoldDistinctChunks(x: nat, i: nat)
    requires i < 4
    ensures PairAt(x, i).first != PairAt(x, i).second
    ensures PairAt(x, i).second == (PairAt(x, i).first + 1) % 4
  {
  }

  /** The rotation only matters modulo the table size. */
  lemma RotationIsPeriodic(x: nat, i: nat)
    requires i < 4
    ensures PairAt(x + 4, i) == PairAt(x, i)
  {
    PairAtClosed(x, i);
    PairAtClosed(x + 4, i);
  }
}
