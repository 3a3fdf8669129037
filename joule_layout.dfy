/**
 * The coupled Joule-heating state of `joule_solve`: six fields stored as
 * consecutive blocks of one block vector, each block sized by the
 * dimension of its field's finite-element space.
 */
module JouleLayout {
  import opened BlockLayout

  /** The four finite-element spaces the fields live in. */
  datatype Space = L2 | HCurl | HDiv | HGrad

  /** The vector size (`GetVSize`) of each space, opaque inputs of the model. */
  datatype VSizes = VSizes(l2: nat, nd: nat, rt: nat, h1: nat)

  function VSize(vs: VSizes, s: Space): (size: nat)
  {
    match s
    case L2 => vs.l2
    case HCurl => vs.nd
    case HDiv => vs.rt
    case HGrad => vs.h1
  }

  /** The fields of the state, in block order. */
  datatype Field =
    | Temperature     // T, block 0
    | ThermalFlux     // F, block 1
    | Potential       // P, block 2
    | ElectricField   // E, block 3
    | MagneticFlux    // B, block 4
    | JouleHeating    // w, block 5

  /** The block each field occupies. */
  function BlockIndex(f: Field): (i: nat)
    ensures i < 6
  {
    match f
    case Temperature => 0
    case ThermalFlux => 1
    case Potential => 2
    case ElectricField => 3
    case MagneticFlux => 4
    case JouleHeating => 5
  }

  /**
   * The space each field is discretised in: T and w share L2, F and B
   * share H(div), P alone is in H1 and E alone in H(curl).
   */
  function SpaceOf(f: Field): (s: Space)
    ensures s == L2 <==> f == Temperature || f == JouleHeating
    ensures s == HDiv <==> f == ThermalFlux || f == MagneticFlux
    ensures s == HGrad <==> f == Potential
    ensures s == HCurl <==> f == ElectricField
  {
    match f
    case Temperature => L2
    case ThermalFlux => HDiv
    case Potential => HGrad
    case ElectricField => HCurl
    case MagneticFlux => HDiv
    case JouleHeating => L2
  }

  /** The field stored in block `i`. */
  function FieldAt(i: nat): (f: Field)
    requires i < 6
    ensures BlockIndex(f) == i
  {
    [Temperature, ThermalFlux, Potential, ElectricField, MagneticFlux, JouleHeating][i]
  }

  /** Different fields occupy different blocks. */
  lemma BlockIndexInjective(f: Field, g: Field)
    requires BlockIndex(f) == BlockIndex(g)
    ensures f == g
  {
  }

  /** The block sizes in block order: L2, RT, H1, ND, RT, L2. */
  function BlockSizes(vs: VSizes): (sizes: seq<nat>)
    ensures |sizes| == 6
    ensures forall f: Field :: sizes[BlockIndex(f)] == VSize(vs, SpaceOf(f))
  {
    [vs.l2, vs.rt, vs.h1, vs.nd, vs.rt, vs.l2]
  }

  /** The length of the whole state vector. */
  function TotalSize(vs: VSizes): (total: nat)
  {
    2 * vs.l2 + 2 * vs.rt + vs.h1 + vs.nd
  }

  /**
   * Fills the seven-entry offset array entry by entry: entry 0 is 0 and
   * each later entry adds the size of the preceding block.
   */
  method ComputeOffsets(vs: VSizes) returns (trueOffset: array<nat>)
    ensures fresh(trueOffset)
    ensures trueOffset[..] == Offsets(BlockSizes(vs))
  {
    trueOffset := new nat[7];
    trueOffset[0] := 0;
    trueOffset[1] := trueOffset[0] + vs.l2;
    trueOffset[2] := trueOffset[1] + vs.rt;
    trueOffset[3] := trueOffset[2] + vs.h1;
    trueOffset[4] := trueOffset[3] + vs.nd;
    trueOffset[5] := trueOffset[4] + vs.rt;
    trueOffset[6] := trueOffset[5] + vs.l2;
    var sizes := BlockSizes(vs);
    var off := Offsets(sizes);
    OffsetsRecurrence(sizes, 0);
    OffsetsRecurrence(sizes, 1);
    OffsetsRecurrence(sizes, 2);
    OffsetsRecurrence(sizes, 3);
    OffsetsRecurrence(sizes, 4);
    OffsetsRecurrence(sizes, 5);
    assert forall j :: 0 <= j < 7 ==> trueOffset[j] == off[j];
  }

  /** The offsets, the total length and the state's layout agree. */
  lemma JouleOffsets(vs: VSizes)
    ensures ValidOffsets(Offsets(BlockSizes(vs)))
    ensures Offsets(BlockSizes(vs))[6] == TotalSize(vs)
    ensures Offsets(BlockSizes(vs))[6] == Sum(BlockSizes(vs))
  {
    var sizes := BlockSizes(vs);
    OffsetsValid(sizes);
    OffsetsTotal(sizes);
    OffsetsRecurrence(sizes, 0);
    OffsetsRecurrence(sizes, 1);
    OffsetsRecurrence(sizes, 2);
    OffsetsRecurrence(sizes, 3);
    OffsetsRecurrence(sizes, 4);
    OffsetsRecurrence(sizes, 5);
  }

  /**
   * `MakeRef(space, F, offset)`: a grid function over `space` aliasing the
   * state buffer from `trueOffset[i]`, as long as the space's vector size.
   */
  function FieldRef(vs: VSizes, trueOffset: seq<nat>, f: Field): (r: Ref)
    requires |trueOffset| == 7
    ensures r.offset == trueOffset[BlockIndex(f)]
    ensures r.size == BlockSizes(vs)[BlockIndex(f)]
  {
    Ref(trueOffset[BlockIndex(f)], VSize(vs, SpaceOf(f)))
  }

  /** Each field's grid function is exactly the slice its block delimits. */
  lemma FieldRefIsBlock(vs: VSizes, f: Field)
    ensures var off := Offsets(BlockSizes(vs));
            var r := FieldRef(vs, off, f);
            r.offset == off[BlockIndex(f)] && r.offset + r.size == off[BlockIndex(f) + 1]
            && forall p :: InRef(r, p) <==> InBlock(off, BlockIndex(f), p)
  {
    OffsetsRecurrence(BlockSizes(vs), BlockIndex(f));
  }

  /** The grid functions of two different fields share no buffer entry. */
  lemma FieldRefsDisjoint(vs: VSizes, f: Field, g: Field, p: int)
    requires f != g
    ensures var off := Offsets(BlockSizes(vs));
            !(InRef(FieldRef(vs, off, f), p) && InRef(FieldRef(vs, off, g), p))
  {
    var off := Offsets(BlockSizes(vs));
    JouleOffsets(vs);
    FieldRefIsBlock(vs, f);
    FieldRefIsBlock(vs, g);
    if InRef(FieldRef(vs, off, f), p) {
      if BlockIndex(f) == BlockIndex(g) {
        BlockIndexInjective(f, g);
      }
      BlocksDisjoint(off, BlockIndex(f), BlockIndex(g), p);
    }
  }

  /** Together the six grid functions cover exactly the whole state buffer. */
  lemma FieldRefsCover(vs: VSizes, p: int)
    ensures var off := Offsets(BlockSizes(vs));
            (0 <= p < TotalSize(vs)) <==> exists f: Field :: InRef(FieldRef(vs, off, f), p)
  {
    var off := Offsets(BlockSizes(vs));
    JouleOffsets(vs);
    BlocksCover(off, p);
    if 0 <= p < TotalSize(vs) {
      var b: nat :| InBlock(off, b, p);
      var f := FieldAt(b);
      FieldRefIsBlock(vs, f);
      assert InRef(FieldRef(vs, off, f), p);
    }
    if exists f: Field :: InRef(FieldRef(vs, off, f), p) {
      var f: Field :| InRef(FieldRef(vs, off, f), p);
      FieldRefIsBlock(vs, f);
      assert InBlock(off, BlockIndex(f), p);
    }
  }

  /**
   * Fields in the same space have blocks of the same length: T and w
   * (blocks 0 and 5, both L2), F and B (blocks 1 and 4, both H(div)).
   */
  lemma SharedSpaceBlocks(vs: VSizes)
    ensures var off := Offsets(BlockSizes(vs));
            Length(off, 0) == Length(off, 5) && Length(off, 1) == Length(off, 4)
  {
    var sizes := BlockSizes(vs);
    OffsetsRecurrence(sizes, 0);
    OffsetsRecurrence(sizes, 1);
    OffsetsRecurrence(sizes, 4);
    OffsetsRecurrence(sizes, 5);
  }

  /**
   * The layout step of `joule_solve`: the offsets, the block vector `F`
   * over a buffer of length `trueOffset[6]`, and the six grid functions
   * T, F, P, E, B, w made to alias it (indexed by block).
   */
  method SetupState(vs: VSizes) returns (trueOffset: array<nat>, state: BlockVector, refs: seq<Ref>)
    ensures fresh(trueOffset) && fresh(state) && fresh(state.data)
    ensures trueOffset[..] == Offsets(BlockSizes(vs))
    ensures state.Valid() && state.offsets == trueOffset[..] && state.NumBlocks() == 6
    ensures state.data.Length == trueOffset[6] == TotalSize(vs)
    ensures |refs| == 6
    ensures forall f: Field :: refs[BlockIndex(f)] == FieldRef(vs, trueOffset[..], f)
    ensures forall f: Field :: refs[BlockIndex(f)].offset + refs[BlockIndex(f)].size <= state.data.Length
    ensures forall f: Field :: state.View(refs[BlockIndex(f)]) == state.Block(BlockIndex(f))
  {
    trueOffset := ComputeOffsets(vs);
    JouleOffsets(vs);
    state := new BlockVector(trueOffset);
    var off := trueOffset[..];
    refs := [FieldRef(vs, off, Temperature), FieldRef(vs, off, ThermalFlux),
             FieldRef(vs, off, Potential), FieldRef(vs, off, ElectricField),
             FieldRef(vs, off, MagneticFlux), FieldRef(vs, off, JouleHeating)];
    forall f: Field
      ensures refs[BlockIndex(f)] == FieldRef(vs, off, f)
    {
      match f
      case Temperature =>
      case ThermalFlux =>
      case Potential =>
      case ElectricField =>
      case MagneticFlux =>
      case JouleHeating =>
    }
    forall f: Field
      ensures refs[BlockIndex(f)].offset + refs[BlockIndex(f)].size <= state.data.Length
      ensures state.View(refs[BlockIndex(f)]) == state.Block(BlockIndex(f))
    {
      FieldRefIsBlock(vs, f);
      state.ViewOfBlock(refs[BlockIndex(f)], BlockIndex(f));
    }
  }
}
