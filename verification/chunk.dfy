/** Chunk storage of `rustmine_lib/src/chunk.rs` and the geometry constants
    of `rustmine_lib/src/chunk/mod.rs`.  A section keeps a palette of the
    distinct blocks it holds and, per cell, a one-byte index into it; a
    chunk is sixteen sections stacked along y.  The locks around palettes
    and cells are left out: every operation here is one atomic step. */
module Chunk {
  import opened Ints
  import opened Wrappers

  const CHUNK_HEIGHT: nat := 256
  const CHUNK_WIDTH: nat := 16
  const SECTION_HEIGHT: nat := 16
  const SECTION_WIDTH: nat := CHUNK_WIDTH
  const SECTION_VOLUME: nat := SECTION_HEIGHT * SECTION_WIDTH * SECTION_WIDTH
  const NUM_SECTIONS: nat := 16
  const GLOBAL_BITS_PER_BLOCK: byte := 15
  const MIN_BITS_PER_BLOCK: byte := 4
  const MAX_BITS_PER_BLOCK: byte := 8

  /** The constants agree with one another. */
  lemma {:induction false} Geometry()
    ensures SECTION_VOLUME == 4096 && SECTION_WIDTH == CHUNK_WIDTH == 16
    ensures NUM_SECTIONS * SECTION_HEIGHT == CHUNK_HEIGHT
    ensures MIN_BITS_PER_BLOCK <= MAX_BITS_PER_BLOCK < GLOBAL_BITS_PER_BLOCK
  {
  }

  /** The generated `Block` enum, with `Air` singled out; every other block
      is known only by an identity. */
  datatype Block = Air | Block(id: nat)

  // ------------------------------------------------------------ palette

  datatype Palette = Palette(blocks: seq<Block>)

  /** No block appears twice. */
  predicate Distinct(bs: seq<Block>) {
    forall i, j :: 0 <= i < j < |bs| ==> bs[i] != bs[j]
  }

  /** `Palette::new`. */
  function NewPalette(): (p: Palette)
    ensures p.blocks == [Air]
  {
    Palette([Air])
  }

  /** `position`: the first index holding `b`. */
  function Position(bs: seq<Block>, b: Block): (r: Option<nat>)
    ensures r.None? <==> b !in bs
    ensures r.Some? ==> r.value < |bs| && bs[r.value] == b && forall j :: 0 <= j < r.value ==> bs[j] != b
  {
    if |bs| == 0 then None
    else if bs[0] == b then Some(0)
    else
      match Position(bs[1..], b)
      case None => None
      case Some(i) => Some(i + 1)
  }

  /** `Palette::get`: the block at an index, `Air` past the end. */
  function Get(p: Palette, idx: byte): (b: Block)
    ensures idx >= |p.blocks| ==> b == Air
    ensures idx < |p.blocks| ==> b == p.blocks[idx]
  {
    if idx < |p.blocks| then p.blocks[idx] else Air
  }

  /** `Palette::get_or_insert`: the index of `b`, appending it when it is
      new.  The index is cast `as u8`, so it wraps past 255. */
  function GetOrInsert(p: Palette, b: Block): (r: (Palette, byte))
    ensures b in p.blocks ==> r.0 == p
    ensures b !in p.blocks ==> r.0.blocks == p.blocks + [b]
  {
    match Position(p.blocks, b)
    case Some(i) => (p, AsU8(i))
    case None => (Palette(p.blocks + [b]), AsU8(|p.blocks|))
  }

  /** Reading back the index `get_or_insert` hands out gives the block, as
      long as the palette fits the one-byte indices; the palette stays free
      of duplicates. */
  lemma {:induction false} GetOrInsertRoundTrip(p: Palette, b: Block)
    requires |GetOrInsert(p, b).0.blocks| <= TWO_8
    ensures Get(GetOrInsert(p, b).0, GetOrInsert(p, b).1) == b
    ensures Distinct(p.blocks) ==> Distinct(GetOrInsert(p, b).0.blocks)
  {
  }

  /** With 256 distinct blocks in the palette, a new block gets index 0 and
      reads back as `Air`. */
  lemma {:induction false} PaletteIndexWraps()
    ensures var p := Palette(seq(256, i requires 0 <= i => if i == 0 then Air else Block(i)));
            var r := GetOrInsert(p, Block(256));
            r.1 == 0 && Get(r.0, r.1) == Air
  {
    var p := Palette(seq(256, i requires 0 <= i => if i == 0 then Air else Block(i)));
    assert forall i :: 0 <= i < 256 ==> p.blocks[i] != Block(256);
  }

  // ------------------------------------------------------------ section

  /** The `[[[u8; 16]; 16]; 16]` index array, flattened in memory order. */
  type Cells = c: seq<byte> | |c| == SECTION_VOLUME witness seq(4096, _ => 0)

  datatype Section = Section(palette: Palette, cells: Cells)

  /** Where `blocks[x][y][z]` lives in the flattened array. */
  function Cell(x: nat, y: nat, z: nat): (i: nat)
    requires x < 16 && y < 16 && z < 16
    ensures i < SECTION_VOLUME
  {
    x * 256 + y * 16 + z
  }

  /** Different coordinates are different cells. */
  lemma {:induction false} CellInjective(x: nat, y: nat, z: nat, x': nat, y': nat, z': nat)
    requires x < 16 && y < 16 && z < 16 && x' < 16 && y' < 16 && z' < 16
    requires Cell(x, y, z) == Cell(x', y', z')
    ensures x == x' && y == y' && z == z'
  {
  }

  /** A section whose every index points into a duplicate-free palette. */
  predicate Wf(s: Section) {
    Distinct(s.palette.blocks) && forall i :: 0 <= i < |s.cells| ==> s.cells[i] < |s.palette.blocks|
  }

  /** `ChunkSection::new`: the palette is `[Air]` and every index is 0. */
  function NewSection(): (s: Section)
    ensures s.palette == NewPalette() && Wf(s)
  {
    Section(NewPalette(), seq(4096, _ => 0))
  }

  predicate InSection(x: byte, y: byte, z: byte) {
    x < 16 && y < 16 && z < 16
  }

  /** `ChunkSection::set_block`: out-of-range coordinates do nothing;
      otherwise the block's palette index goes into the cell. */
  function SetBlock(s: Section, x: byte, y: byte, z: byte, b: Block): (r: Section)
    ensures !InSection(x, y, z) ==> r == s
  {
    if InSection(x, y, z) then
      var (p, idx) := GetOrInsert(s.palette, b);
      Section(p, s.cells[Cell(x, y, z) := idx])
    else s
  }

  /** `ChunkSection::get_block`: `Air` outside the section. */
  function GetBlock(s: Section, x: byte, y: byte, z: byte): (b: Block)
    ensures !InSection(x, y, z) ==> b == Air
  {
    if InSection(x, y, z) then Get(s.palette, s.cells[Cell(x, y, z)]) else Air
  }

  /** A new section holds air everywhere. */
  lemma {:induction false} NewSectionIsAir(x: byte, y: byte, z: byte)
    ensures GetBlock(NewSection(), x, y, z) == Air
  {
  }

  /** Setting a block keeps a section well formed, provided the palette
      still fits one-byte indices. */
  lemma {:induction false} SetBlockKeepsWf(s: Section, x: byte, y: byte, z: byte, b: Block)
    requires Wf(s) && |SetBlock(s, x, y, z, b).palette.blocks| <= TWO_8
    ensures Wf(SetBlock(s, x, y, z, b))
  {
    if InSection(x, y, z) {
      GetOrInsertRoundTrip(s.palette, b);
    }
  }

  /** After `set_block`, `get_block` at the same place answers the block,
      and every other place answers what it did before. */
  lemma {:induction false} SetThenGet(s: Section, x: byte, y: byte, z: byte, b: Block, x': byte, y': byte, z': byte)
    requires Wf(s) && InSection(x, y, z) && |SetBlock(s, x, y, z, b).palette.blocks| <= TWO_8
    ensures GetBlock(SetBlock(s, x, y, z, b), x, y, z) == b
    ensures (x', y', z') != (x, y, z) ==> GetBlock(SetBlock(s, x, y, z, b), x', y', z') == GetBlock(s, x', y', z')
  {
    GetOrInsertRoundTrip(s.palette, b);
    if (x', y', z') != (x, y, z) && InSection(x', y', z') {
      if Cell(x, y, z) == Cell(x', y', z') {
        CellInjective(x, y, z, x', y', z');
      }
    }
  }

  /** The index array in the order `encode_nbt` lists it: y outermost,
      then z, then x. */
  method EncodeIndices(s: Section) returns (out: seq<byte>)
    ensures |out| == SECTION_VOLUME
    ensures forall x, y, z :: 0 <= x < 16 && 0 <= y < 16 && 0 <= z < 16 ==>
              out[y * 256 + z * 16 + x] == s.cells[Cell(x, y, z)]
  {
    out := [];
    for y := 0 to 16
      invariant |out| == y * 256
      invariant forall x, y0, z :: 0 <= x < 16 && 0 <= y0 < y && 0 <= z < 16 ==>
                  out[y0 * 256 + z * 16 + x] == s.cells[Cell(x, y0, z)]
    {
      for z := 0 to 16
        invariant |out| == y * 256 + z * 16
        invariant forall x, y0, z0 :: 0 <= x < 16 && 0 <= y0 < y && 0 <= z0 < 16 ==>
                    out[y0 * 256 + z0 * 16 + x] == s.cells[Cell(x, y0, z0)]
        invariant forall x, z0 :: 0 <= x < 16 && 0 <= z0 < z ==>
                    out[y * 256 + z0 * 16 + x] == s.cells[Cell(x, y, z0)]
      {
        for x := 0 to 16
          invariant |out| == y * 256 + z * 16 + x
          invariant forall x0, y0, z0 :: 0 <= x0 < 16 && 0 <= y0 < y && 0 <= z0 < 16 ==>
                      out[y0 * 256 + z0 * 16 + x0] == s.cells[Cell(x0, y0, z0)]
          invariant forall x0, z0 :: 0 <= x0 < 16 && 0 <= z0 < z ==>
                      out[y * 256 + z0 * 16 + x0] == s.cells[Cell(x0, y, z0)]
          invariant forall x0 :: 0 <= x0 < x ==> out[y * 256 + z * 16 + x0] == s.cells[Cell(x0, y, z)]
        {
          out := out + [s.cells[Cell(x, y, z)]];
        }
      }
    }
  }

  // -------------------------------------------------------------- chunk

  type Sections = s: seq<Section> | |s| == NUM_SECTIONS witness seq(16, _ => NewSection())

  datatype Chunk = Chunk(x: i32, z: i32, sections: Sections)

  /** `Chunk::new`: sixteen new sections. */
  function NewChunk(x: i32, z: i32): (c: Chunk)
    ensures c.x == x && c.z == z
    ensures forall i :: 0 <= i < NUM_SECTIONS ==> c.sections[i] == NewSection()
  {
    Chunk(x, z, seq(16, _ => NewSection()))
  }

  /** `Chunk::coordinates`. */
  function Coordinates(c: Chunk): (r: (i32, i32))
    ensures r.0 == c.x && r.1 == c.z
  {
    (c.x, c.z)
  }

  /** Every section of the chunk is well formed. */
  predicate ChunkWf(c: Chunk) {
    forall i :: 0 <= i < NUM_SECTIONS ==> Wf(c.sections[i])
  }

  /** The bounds check of `Chunk::set_block`; `y < 256` always holds for a
      `u8`, so only x and z can be out of range. */
  predicate InChunk(x: byte, y: byte, z: byte) {
    x < 16 && y < 256 && z < 16
  }

  /** `Chunk::set_block`: section `y / 16`, at height `y % 16` in it. */
  function ChunkSetBlock(c: Chunk, x: byte, y: byte, z: byte, b: Block): (r: Chunk)
    ensures !InChunk(x, y, z) ==> r == c
    ensures r.x == c.x && r.z == c.z
    ensures forall i :: 0 <= i < NUM_SECTIONS && i != y / 16 ==> r.sections[i] == c.sections[i]
  {
    if InChunk(x, y, z) then c.(sections := c.sections[y / 16 := SetBlock(c.sections[y / 16], x, y % 16, z, b)])
    else c
  }

  /** `Chunk::get_block`. */
  function ChunkGetBlock(c: Chunk, x: byte, y: byte, z: byte): (b: Block)
    ensures !InChunk(x, y, z) ==> b == Air
  {
    if InChunk(x, y, z) then GetBlock(c.sections[y / 16], x, y % 16, z) else Air
  }

  /** A new chunk holds air everywhere. */
  lemma {:induction false} NewChunkIsAir(cx: i32, cz: i32, x: byte, y: byte, z: byte)
    ensures ChunkGetBlock(NewChunk(cx, cz), x, y, z) == Air
  {
    if InChunk(x, y, z) {
      NewSectionIsAir(x, y % 16, z);
    }
  }

  /** Distinct heights in the same section are distinct local heights. */
  lemma {:induction false} SameSectionOtherHeight(y: byte, y': byte)
    requires y / 16 == y' / 16 && y != y'
    ensures y % 16 != y' % 16
  {
  }

  /** After `Chunk::set_block` in range, `get_block` at the same place
      answers the block and every other place answers what it did before,
      as long as the section's palette fits one-byte indices. */
  lemma {:induction false} ChunkSetThenGet(c: Chunk, x: byte, y: byte, z: byte, b: Block, x': byte, y': byte, z': byte)
    requires ChunkWf(c) && InChunk(x, y, z)
    requires |SetBlock(c.sections[y / 16], x, y % 16, z, b).palette.blocks| <= TWO_8
    ensures ChunkGetBlock(ChunkSetBlock(c, x, y, z, b), x, y, z) == b
    ensures (x', y', z') != (x, y, z) ==>
              ChunkGetBlock(ChunkSetBlock(c, x, y, z, b), x', y', z') == ChunkGetBlock(c, x', y', z')
  {
    var s := c.sections[y / 16];
    SetThenGet(s, x, y % 16, z, b, x', y' % 16, z');
    if (x', y', z') != (x, y, z) && InChunk(x', y', z') && y' / 16 == y / 16 && y' != y {
      SameSectionOtherHeight(y, y');
    }
  }
}
