/**
 * Block layouts of one contiguous buffer: an offset array made of prefix
 * sums of block sizes, the blocks it delimits, and a block vector whose
 * blocks are views (slices) of a single shared buffer.
 */
module BlockLayout {

  /** Sum of a list of block sizes. */
  function Sum(sizes: seq<nat>): (total: nat)
  {
    if sizes == [] then 0 else sizes[0] + Sum(sizes[1..])
  }

  lemma {:induction false} SumAppend(sizes: seq<nat>, x: nat)
    ensures Sum(sizes + [x]) == Sum(sizes) + x
  {
    if sizes == [] {
      assert [] + [x] == [x];
    } else {
      assert (sizes + [x])[1..] == sizes[1..] + [x];
      SumAppend(sizes[1..], x);
    }
  }

  /**
   * The offsets of consecutive blocks with the given sizes: entry `i` is
   * where block `i` starts (the sum of the sizes before it) and the last
   * entry is the total length.
   */
  function Offsets(sizes: seq<nat>): (off: seq<nat>)
    ensures |off| == |sizes| + 1
  {
    seq(|sizes| + 1, i requires 0 <= i <= |sizes| => Sum(sizes[..i]))
  }

  /** The offsets start at 0 and each one adds the size of the block before it. */
  lemma OffsetsRecurrence(sizes: seq<nat>, i: nat)
    requires i < |sizes|
    ensures Offsets(sizes)[0] == 0
    ensures Offsets(sizes)[i + 1] == Offsets(sizes)[i] + sizes[i]
  {
    assert sizes[..i + 1] == sizes[..i] + [sizes[i]];
    SumAppend(sizes[..i], sizes[i]);
  }

  /** The last offset is the total of all sizes. */
  lemma OffsetsTotal(sizes: seq<nat>)
    ensures Offsets(sizes)[|sizes|] == Sum(sizes)
  {
    assert sizes[..|sizes|] == sizes;
  }

  /** An offset array: starts at 0 and never decreases. */
  ghost predicate ValidOffsets(off: seq<nat>)
  {
    && |off| >= 1
    && off[0] == 0
    && forall i, j :: 0 <= i <= j < |off| ==> off[i] <= off[j]
  }

  lemma {:induction false} OffsetsMonotoneFrom(sizes: seq<nat>, i: nat, j: nat)
    requires i <= j <= |sizes|
    ensures Offsets(sizes)[i] <= Offsets(sizes)[j]
    decreases j - i
  {
    if i < j {
      OffsetsRecurrence(sizes, j - 1);
      OffsetsMonotoneFrom(sizes, i, j - 1);
    }
  }

  /** Prefix sums of sizes always form a valid offset array. */
  lemma OffsetsValid(sizes: seq<nat>)
    ensures ValidOffsets(Offsets(sizes))
  {
    var off := Offsets(sizes);
    assert off[0] == 0 by { assert sizes[..0] == []; }
    forall i, j | 0 <= i <= j < |off|
      ensures off[i] <= off[j]
    {
      OffsetsMonotoneFrom(sizes, i, j);
    }
  }

  /** Position `p` of the buffer lies in block `b`, the slice `[off[b], off[b+1])`. */
  predicate InBlock(off: seq<nat>, b: nat, p: int)
  {
    b + 1 < |off| && off[b] <= p < off[b + 1]
  }

  /** The length of block `b`. */
  function Length(off: seq<nat>, b: nat): (len: int)
    requires b + 1 < |off|
  {
    off[b + 1] as int - off[b] as int
  }

  /** Two different blocks of a valid layout share no position. */
  lemma BlocksDisjoint(off: seq<nat>, b: nat, c: nat, p: int)
    requires ValidOffsets(off)
    requires b != c && InBlock(off, b, p)
    ensures !InBlock(off, c, p)
  {
    if b < c < |off| {
      assert off[b + 1] <= off[c];
    } else if c + 1 < |off| {
      assert off[c + 1] <= off[b];
    }
  }

  /** The block, at index `b` or later, that holds position `p`. */
  function Owner(off: seq<nat>, p: int, b: nat): (r: nat)
    requires ValidOffsets(off)
    requires b < |off| && off[b] <= p < off[|off| - 1]
    ensures b <= r && InBlock(off, r, p)
    decreases |off| - b
  {
    if p < off[b + 1] then b else Owner(off, p, b + 1)
  }

  /** The blocks of a valid layout cover exactly the positions `[0, off[last])`. */
  lemma BlocksCover(off: seq<nat>, p: int)
    requires ValidOffsets(off)
    ensures (0 <= p < off[|off| - 1]) <==> exists b: nat :: InBlock(off, b, p)
  {
    if 0 <= p < off[|off| - 1] {
      var b := Owner(off, p, 0);
      assert InBlock(off, b, p);
    }
    if exists b: nat :: InBlock(off, b, p) {
      var b: nat :| InBlock(off, b, p);
      assert off[0] <= off[b] && off[b + 1] <= off[|off| - 1];
    }
  }

  /** A view of `size` buffer entries starting at `offset`. */
  datatype Ref = Ref(offset: nat, size: nat)

  /** The view `r` contains position `p`. */
  predicate InRef(r: Ref, p: int)
  {
    r.offset <= p < r.offset + r.size
  }

  /**
   * A block vector: one buffer of length `offsets[last]`; block `b` is the
   * slice `[offsets[b], offsets[b+1])` of that buffer, and reading or
   * writing a block reads or writes the buffer itself.
   */
  class BlockVector {
    const offsets: seq<nat>
    const data: array<real>

    ghost predicate Valid()
    {
      ValidOffsets(offsets) && data.Length == offsets[|offsets| - 1]
    }

    /** Allocates a buffer of length `trueOffset[last]` laid out by `trueOffset`. */
    constructor (trueOffset: array<nat>)
      requires ValidOffsets(trueOffset[..])
      ensures Valid() && offsets == trueOffset[..] && fresh(data)
    {
      offsets := trueOffset[..];
      data := new real[trueOffset[trueOffset.Length - 1]];
    }

    /** The number of blocks. */
    function NumBlocks(): (n: nat)
      requires Valid()
    {
      |offsets| - 1
    }

    /** Block `b`: the slice `[offsets[b], offsets[b+1])` of the buffer. */
    function Block(b: nat): (v: seq<real>)
      reads data
      requires Valid() && b < NumBlocks()
      ensures |v| == offsets[b + 1] - offsets[b]
      ensures forall k :: 0 <= k < |v| ==> v[k] == data[offsets[b] + k]
    {
      data[offsets[b]..offsets[b + 1]]
    }

    /** The entries a view `r` of the buffer sees. */
    function View(r: Ref): (v: seq<real>)
      reads data
      requires r.offset + r.size <= data.Length
      ensures |v| == r.size
      ensures forall k :: 0 <= k < |v| ==> v[k] == data[r.offset + k]
    {
      data[r.offset..r.offset + r.size]
    }

    /** A view that spans exactly the slice of block `b` sees block `b`. */
    lemma ViewOfBlock(r: Ref, b: nat)
      requires Valid() && b < NumBlocks()
      requires r.offset == offsets[b] && r.offset + r.size == offsets[b + 1]
      ensures r.offset + r.size <= data.Length
      ensures View(r) == Block(b)
    {
      assert offsets[b + 1] <= offsets[|offsets| - 1];
    }

    /**
     * Writes entry `k` of block `b` through the shared buffer: that block
     * sees the new value and every other block is unchanged.
     */
    method WriteBlock(b: nat, k: nat, x: real)
      requires Valid() && b < NumBlocks() && k < offsets[b + 1] - offsets[b]
      modifies data
      ensures Block(b) == old(Block(b))[k := x]
      ensures forall c :: 0 <= c < NumBlocks() && c != b ==> Block(c) == old(Block(c))
    {
      data[offsets[b] + k] := x;
      forall c | 0 <= c < NumBlocks() && c != b
        ensures Block(c) == old(Block(c))
      {
        BlocksDisjoint(offsets, b, c, offsets[b] + k);
        assert forall q :: offsets[c] <= q < offsets[c + 1] ==> data[q] == old(data[q]);
      }
    }
  }
}
