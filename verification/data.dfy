/** The primitive wire codec of `rustmine_lib/src/data.rs`.

    Every writer returns the bytes it appends to the buffer; every reader is
    a pure function of `(buffer, position)` returning the value and the new
    position, or an error.  On an error the Rust readers may already have
    moved the position, but no caller reads the position after an error, so
    the model returns none.

    VarInts are unsigned LEB128 limited to 32 bits (section 7.6 of the
    DWARF 4 standard); strings are a VarInt byte length followed by UTF-8
    (RFC 3629); `u16` and `u64` are big-endian; UUIDs are 16 raw bytes
    (section 4 of RFC 9562). */
module Data {
  import opened Ints
  import opened Wrappers
  import opened Utf8

  type Uuid = s: seq<byte> | |s| == 16 witness seq(16, _ => 0)

  // ---------------------------------------------------------------- VarInt

  /** `128^k`, the weight of the `k`-th 7-bit group of a VarInt, for the
      groups a 32-bit VarInt can have. */
  function Weight(k: nat): (w: nat)
    requires k <= 5
    ensures w >= 1
  {
    if k == 0 then 1
    else if k == 1 then 0x80
    else if k == 2 then 0x4000
    else if k == 3 then 0x20_0000
    else if k == 4 then 0x1000_0000
    else 0x8_0000_0000
  }

  /** `varint_size`: the number of 7-bit groups `WriteVarint(v)` emits.
      The loop of the source shifts until the value fits in seven bits; the
      model counts the same groups by comparing with their weights. */
  function VarintSize(v: u32): (n: nat)
    ensures 1 <= n <= 5
  {
    if v < 0x80 then 1
    else if v < 0x4000 then 2
    else if v < 0x20_0000 then 3
    else if v < 0x1000_0000 then 4
    else 5
  }

  /** The size is the least `n` with `v < 128^n`. */
  lemma {:induction false} VarintSizeIsLeast(v: u32)
    ensures v < Weight(VarintSize(v))
    ensures VarintSize(v) == 1 || Weight(VarintSize(v) - 1) <= v
  {
  }

  /** The 0x80 continuation bit is set on every byte of `w` but the last. */
  predicate Terminated(w: seq<byte>) {
    |w| > 0 && w[|w| - 1] < 0x80 && forall i :: 0 <= i < |w| - 1 ==> w[i] >= 0x80
  }

  /** `write_varint`: seven bits at a time, least significant group first,
      with the 0x80 bit set on every byte but the last. */
  function WriteVarint(v: u32): (r: seq<byte>)
    ensures |r| == VarintSize(v)
  {
    if v >= 0x80 then [v % 0x80 + 0x80] + WriteVarint(v / 0x80)
    else [v]
  }

  /** The number a run of VarInt bytes denotes before truncation to 32 bits:
      the sum of its 7-bit groups, group `i` weighted by `128^i`. */
  function GroupSum(bs: seq<byte>): nat
  {
    if |bs| == 0 then 0 else bs[0] % 0x80 + 0x80 * GroupSum(bs[1..])
  }

  /** Rust's `(g as u32) << (7 * k)` for a 7-bit group `g`: the bits shifted
      past bit 31 are lost, which only happens for the fifth group (shift
      28), where only the low four bits of the group survive. */
  function Shl32(g: nat, k: nat): (r: u32)
    requires g < 0x80 && k <= 4
    ensures k < 4 ==> r == g * Weight(k)
    ensures k == 4 ==> r == (g % 16) * Weight(4)
  {
    if k == 0 then g
    else if k == 1 then g * 0x80
    else if k == 2 then g * 0x4000
    else if k == 3 then g * 0x20_0000
    else (g % 16) * 0x1000_0000
  }

  /** The groups occupy disjoint bit ranges, so Rust's `|=` adds. */
  lemma {:induction false} AccumulateBound(value: nat, g: nat, k: nat)
    requires g < 0x80 && k <= 4 && value < Weight(k)
    ensures value + Shl32(g, k) < TWO_32
    ensures k < 4 ==> value + Shl32(g, k) < Weight(k + 1)
  {
  }

  /** The loop of `read_varint` from the byte at `pos` on, after `k` groups
      have been read into `value`; the next group goes to bit `7 * k`. */
  function ReadVarintFrom(buf: seq<byte>, pos: nat, value: nat, k: nat): (r: Result<(u32, nat)>)
    requires k <= 4 && value < Weight(k)
    decreases 4 - k
    ensures r.Ok? ==> pos < r.value.1 <= |buf| && r.value.1 <= pos + (5 - k)
    ensures r.Err? ==> r.error == NotEnoughBytes || r.error == VarintTooBig
  {
    if pos >= |buf| then Err(NotEnoughBytes)
    else
      var b := buf[pos];
      AccumulateBound(value, b % 0x80, k);
      var v := value + Shl32(b % 0x80, k);
      if b < 0x80 then Ok((v, pos + 1))
      else if 7 * (k + 1) >= 32 then Err(VarintTooBig)
      else ReadVarintFrom(buf, pos + 1, v, k + 1)
  }

  /** `ReadVarintFrom` stops exactly at the first byte without the
      continuation bit. */
  lemma {:induction false} ReadVarintFromShape(buf: seq<byte>, pos: nat, value: nat, k: nat)
    requires k <= 4 && value < Weight(k)
    requires ReadVarintFrom(buf, pos, value, k).Ok?
    ensures var end := ReadVarintFrom(buf, pos, value, k).value.1;
            buf[end - 1] < 0x80 && forall i :: pos <= i < end - 1 ==> buf[i] >= 0x80
    decreases 4 - k
  {
    if buf[pos] >= 0x80 {
      AccumulateBound(value, buf[pos] % 0x80, k);
      ReadVarintFromShape(buf, pos + 1, value + Shl32(buf[pos] % 0x80, k), k + 1);
    }
  }

  /** `ReadVarintFrom` fails with "Varint too big" exactly when all of the
      `5 - k` bytes it may still read carry the continuation bit, and with
      "Not enough bytes" exactly when the buffer ends before a byte without
      it. */
  lemma {:induction false} ReadVarintFromErrors(buf: seq<byte>, pos: nat, value: nat, k: nat)
    requires k <= 4 && value < Weight(k)
    ensures ReadVarintFrom(buf, pos, value, k) == Err(VarintTooBig) <==>
              pos + (5 - k) <= |buf| && forall i :: pos <= i < pos + (5 - k) ==> buf[i] >= 0x80
    ensures ReadVarintFrom(buf, pos, value, k) == Err(NotEnoughBytes) <==>
              |buf| < pos + (5 - k) && forall i :: pos <= i < |buf| ==> buf[i] >= 0x80
    decreases 4 - k
  {
    if pos < |buf| && buf[pos] >= 0x80 && k < 4 {
      AccumulateBound(value, buf[pos] % 0x80, k);
      ReadVarintFromErrors(buf, pos + 1, value + Shl32(buf[pos] % 0x80, k), k + 1);
    }
  }

  /** The value `read_varint` holds after adding the groups `bs` to the `k`
      groups already in `value`, truncated to 32 bits. */
  function Accumulated(value: nat, k: nat, bs: seq<byte>): nat
    requires k <= 4
  {
    (value + Weight(k) * GroupSum(bs)) % TWO_32
  }

  lemma {:induction false} SmallMod(x: int)
    requires 0 <= x < TWO_32
    ensures x % TWO_32 == x
  {
  }

  /** At shift 28 the high three bits of the group fall off the top. */
  lemma {:induction false} TopGroupWraps(value: int, g: int)
    requires 0 <= value < 0x1000_0000 && 0 <= g < 0x80
    ensures (value + 0x1000_0000 * g) % TWO_32 == value + (g % 16) * 0x1000_0000
  {
    var hi, lo := g / 16, g % 16;
    assert value + 0x1000_0000 * g == hi * TWO_32 + (value + lo * 0x1000_0000);
  }

  lemma {:induction false} LastGroup(g: byte, value: nat, k: nat)
    requires g < 0x80 && k <= 4 && value < Weight(k)
    ensures value + Shl32(g, k) == Accumulated(value, k, [g])
  {
    assert GroupSum([g]) == g by {
      assert [g][1..] == [];
    }
    AccumulateBound(value, g, k);
    if k == 4 {
      TopGroupWraps(value, g);
    } else {
      SmallMod(value + Shl32(g, k));
    }
  }

  lemma {:induction false} Distribute(value: int, g: int, p: int, rest: int)
    ensures value + g * p + (0x80 * p) * rest == value + p * (g + 0x80 * rest)
  {
  }

  lemma {:induction false} NextGroup(b: byte, rest: seq<byte>, value: nat, k: nat)
    requires k <= 3 && value < Weight(k)
    ensures Accumulated(value + Shl32(b % 0x80, k), k + 1, rest) == Accumulated(value, k, [b] + rest)
  {
    assert ([b] + rest)[1..] == rest;
    var g := b % 0x80;
    var s := GroupSum(rest);
    assert GroupSum([b] + rest) == g + 0x80 * s;
    assert Weight(k + 1) == 0x80 * Weight(k);
    Distribute(value, g, Weight(k), s);
  }

  /** The value `ReadVarintFrom` returns is the sum of the groups it read,
      truncated to 32 bits. */
  lemma {:induction false} ReadVarintFromValue(buf: seq<byte>, pos: nat, value: nat, k: nat)
    requires k <= 4 && value < Weight(k)
    requires ReadVarintFrom(buf, pos, value, k).Ok?
    ensures var (x, end) := ReadVarintFrom(buf, pos, value, k).value;
            x == Accumulated(value, k, buf[pos..end])
    decreases 4 - k
  {
    if buf[pos] < 0x80 {
      ValueOfLastByte(buf, pos, value, k);
    } else {
      var v := value + Shl32(buf[pos] % 0x80, k);
      AccumulateBound(value, buf[pos] % 0x80, k);
      ReadVarintFromValue(buf, pos + 1, v, k + 1);
      ValueOfNextByte(buf, pos, value, k);
    }
  }

  lemma {:induction false} SliceCons(buf: seq<byte>, pos: nat, end: nat)
    requires pos < end <= |buf|
    ensures buf[pos..end] == [buf[pos]] + buf[pos + 1..end]
  {
  }

  lemma {:induction false} SliceOne(buf: seq<byte>, pos: nat)
    requires pos < |buf|
    ensures buf[pos..pos + 1] == [buf[pos]]
  {
  }

  lemma {:induction false} ValueOfLastByte(buf: seq<byte>, pos: nat, value: nat, k: nat)
    requires k <= 4 && value < Weight(k)
    requires pos < |buf| && buf[pos] < 0x80
    ensures ReadVarintFrom(buf, pos, value, k) == Ok((Accumulated(value, k, buf[pos..pos + 1]), pos + 1))
  {
    var b := buf[pos];
    AccumulateBound(value, b, k);
    SliceOne(buf, pos);
    LastGroup(b, value, k);
  }

  lemma {:induction false} ValueOfNextByte(buf: seq<byte>, pos: nat, value: nat, k: nat)
    requires k <= 4 && value < Weight(k)
    requires pos < |buf| && buf[pos] >= 0x80
    requires ReadVarintFrom(buf, pos, value, k).Ok?
    requires var v := value + Shl32(buf[pos] % 0x80, k);
             k < 4 && v < Weight(k + 1) &&
             var (x, end) := ReadVarintFrom(buf, pos + 1, v, k + 1).value;
             x == Accumulated(v, k + 1, buf[pos + 1..end])
    ensures var (x, end) := ReadVarintFrom(buf, pos, value, k).value;
            x == Accumulated(value, k, buf[pos..end])
  {
    var b := buf[pos];
    var v := value + Shl32(b % 0x80, k);
    var end := ReadVarintFrom(buf, pos + 1, v, k + 1).value.1;
    SliceCons(buf, pos, end);
    NextGroup(b, buf[pos + 1..end], value, k);
  }

  /** `read_varint`: a VarInt starting at `pos`, returned with the position
      after its last byte. */
  function ReadVarint(buf: seq<byte>, pos: nat): (r: Result<(u32, nat)>)
    ensures r.Ok? ==> pos < r.value.1 <= |buf| && r.value.1 <= pos + 5
    ensures r.Err? ==> r.error == NotEnoughBytes || r.error == VarintTooBig
  {
    ReadVarintFrom(buf, pos, 0, 0)
  }

  /** The value `read_varint` returns is the sum of the groups it read,
      truncated to 32 bits. */
  lemma {:induction false} ReadVarintValue(buf: seq<byte>, pos: nat)
    requires ReadVarint(buf, pos).Ok?
    ensures var (v, end) := ReadVarint(buf, pos).value;
            v == GroupSum(buf[pos..end]) % TWO_32
  {
    ReadVarintFromValue(buf, pos, 0, 0);
  }

  /** `read_varint` consumes bytes up to and including the first one
      without the continuation bit. */
  lemma {:induction false} ReadVarintShape(buf: seq<byte>, pos: nat)
    requires ReadVarint(buf, pos).Ok?
    ensures var end := ReadVarint(buf, pos).value.1;
            buf[end - 1] < 0x80 && forall i :: pos <= i < end - 1 ==> buf[i] >= 0x80
  {
    ReadVarintFromShape(buf, pos, 0, 0);
  }

  /** `read_varint` fails with "Varint too big" exactly when the next five
      bytes all carry the continuation bit, and with "Not enough bytes"
      exactly when the buffer ends first. */
  lemma {:induction false} ReadVarintErrors(buf: seq<byte>, pos: nat)
    ensures ReadVarint(buf, pos) == Err(VarintTooBig) <==>
              pos + 5 <= |buf| && forall i :: pos <= i < pos + 5 ==> buf[i] >= 0x80
    ensures ReadVarint(buf, pos) == Err(NotEnoughBytes) <==>
              |buf| < pos + 5 && forall i :: pos <= i < |buf| ==> buf[i] >= 0x80
  {
    ReadVarintFromErrors(buf, pos, 0, 0);
  }

  /** `bs` sits in `buf` at `pos`. */
  predicate At(buf: seq<byte>, pos: nat, bs: seq<byte>) {
    pos + |bs| <= |buf| && buf[pos..pos + |bs|] == bs
  }

  lemma {:induction false} AtIndex(buf: seq<byte>, pos: nat, bs: seq<byte>, i: nat)
    requires At(buf, pos, bs) && i < |bs|
    ensures buf[pos + i] == bs[i]
  {
    assert buf[pos..pos + |bs|][i] == buf[pos + i];
  }

  /** The two halves of `a + b` sit one after the other. */
  lemma {:induction false} AtConcat(buf: seq<byte>, pos: nat, a: seq<byte>, b: seq<byte>)
    requires At(buf, pos, a + b)
    ensures At(buf, pos, a) && At(buf, pos + |a|, b)
  {
    assert buf[pos..pos + |a|] == buf[pos..pos + |a + b|][..|a|];
    assert buf[pos + |a|..pos + |a| + |b|] == buf[pos..pos + |a + b|][|a|..];
  }

  /** The positions of three runs laid end to end. */
  lemma {:induction false} ThreeRuns(a: seq<byte>, b: seq<byte>, c: seq<byte>)
    ensures At(a + b + c, 0, a) && At(a + b + c, |a|, b)
    ensures (a + b + c)[|a| + |b|..] == c
  {
    SplitAt(a + b, c);
    AtConcat(a + b + c, 0, a, b);
  }

  /** The positions of four runs laid end to end. */
  lemma {:induction false} FourRuns(a: seq<byte>, b: seq<byte>, c: seq<byte>, d: seq<byte>)
    ensures At(a + b + c + d, 0, a) && At(a + b + c + d, |a|, b) && At(a + b + c + d, |a| + |b|, c)
    ensures (a + b + c + d)[|a| + |b| + |c|..] == d
  {
    SplitAt(a + b + c, d);
    AtConcat(a + b + c + d, 0, a + b, c);
    AtConcat(a + b + c + d, 0, a, b);
  }

  /** The two halves of a concatenation. */
  lemma {:induction false} SplitAt(a: seq<byte>, b: seq<byte>)
    ensures At(a + b, 0, a) && At(a + b, |a|, b)
    ensures (a + b)[|a|..] == b
  {
    assert (a + b)[0..|a + b|] == a + b;
    AtConcat(a + b, 0, a, b);
  }

  /** Every byte `write_varint` emits but the last carries the
      continuation bit. */
  lemma {:induction false} WriteVarintTerminated(v: u32)
    ensures Terminated(WriteVarint(v))
  {
    if v >= 0x80 {
      WriteVarintTerminated(v / 0x80);
      var w := WriteVarint(v);
      assert w[1..] == WriteVarint(v / 0x80);
    }
  }

  /** The groups of `WriteVarint(v)` sum to `v`. */
  lemma {:induction false} GroupSumOfWrite(v: u32)
    ensures GroupSum(WriteVarint(v)) == v
  {
    var w := WriteVarint(v);
    if v >= 0x80 {
      assert w[1..] == WriteVarint(v / 0x80);
      GroupSumOfWrite(v / 0x80);
    }
  }

  /** `read_varint` stops at the first byte without the continuation bit
      when there is one among the next five bytes. */
  lemma {:induction false} ReadVarintEnd(buf: seq<byte>, pos: nat, last: nat)
    requires pos <= last < pos + 5 && last < |buf| && buf[last] < 0x80
    requires forall i :: pos <= i < last ==> buf[i] >= 0x80
    ensures ReadVarint(buf, pos).Ok? && ReadVarint(buf, pos).value.1 == last + 1
  {
    var r := ReadVarint(buf, pos);
    ReadVarintErrors(buf, pos);
    assert r.Ok? by {
      if r == Err(VarintTooBig) {
        assert pos <= last < pos + 5;
      } else if r == Err(NotEnoughBytes) {
        assert pos <= last < |buf|;
      }
    }
    var end := r.value.1;
    ReadVarintShape(buf, pos);
    if end - 1 > last {
      assert pos <= last < end - 1;
    }
  }

  /** A run of bytes with the continuation bit set on all but its last
      byte keeps that shape wherever it sits in a buffer. */
  lemma {:induction false} ShapeAt(buf: seq<byte>, pos: nat, w: seq<byte>)
    requires Terminated(w) && At(buf, pos, w)
    ensures buf[pos + |w| - 1] < 0x80
    ensures forall i :: pos <= i < pos + |w| - 1 ==> buf[i] >= 0x80
  {
    var n := |w|;
    assert w[n - 1] == buf[pos + n - 1];
    forall i | pos <= i < pos + n - 1
      ensures buf[i] >= 0x80
    {
      assert w[i - pos] == buf[i];
    }
  }

  /** `read_varint` decodes any well-shaped run of groups to their sum. */
  lemma {:induction false} ReadShapedRun(buf: seq<byte>, pos: nat, w: seq<byte>, v: u32)
    requires Terminated(w) && |w| <= 5 && At(buf, pos, w)
    requires GroupSum(w) == v
    ensures ReadVarint(buf, pos) == Ok((v, pos + |w|))
  {
    ShapeAt(buf, pos, w);
    ReadVarintEnd(buf, pos, pos + |w| - 1);
    ReadVarintValue(buf, pos);
    assert buf[pos..pos + |w|] == w;
    SmallMod(v);
  }

  /** `read_varint` decodes what `write_varint` wrote, whatever follows. */
  lemma {:induction false} VarintRoundTrip(v: u32, buf: seq<byte>, pos: nat)
    requires At(buf, pos, WriteVarint(v))
    ensures ReadVarint(buf, pos) == Ok((v, pos + |WriteVarint(v)|))
  {
    GroupSumOfWrite(v);
    WriteVarintTerminated(v);
    ReadShapedRun(buf, pos, WriteVarint(v), v);
  }

  /** A VarInt has one canonical encoding: `write_varint` never pads with
      empty high groups. */
  lemma {:induction false} WriteVarintInjective(a: u32, b: u32)
    requires WriteVarint(a) == WriteVarint(b)
    ensures a == b
  {
    GroupSumOfWrite(a);
    GroupSumOfWrite(b);
  }

  // ------------------------------------------------------ fixed-width values

  function Pow256(n: nat): (r: nat)
    ensures r >= 1
  {
    if n == 0 then 1 else 0x100 * Pow256(n - 1)
  }

  /** `to_be_bytes`: the low `n` bytes of `v`, most significant first. */
  function BeBytes(v: nat, n: nat): (r: seq<byte>)
    ensures |r| == n
  {
    if n == 0 then [] else BeBytes(v / 0x100, n - 1) + [v % 0x100]
  }

  /** `from_be_bytes`: the number whose big-endian bytes are `bs`. */
  function FromBe(bs: seq<byte>): (r: nat)
    ensures r < Pow256(|bs|)
  {
    if |bs| == 0 then 0 else FromBe(bs[..|bs| - 1]) * 0x100 + bs[|bs| - 1]
  }

  lemma {:induction false} FromBeOfBeBytes(v: nat, n: nat)
    requires v < Pow256(n)
    ensures FromBe(BeBytes(v, n)) == v
  {
    if n > 0 {
      var q := v / 0x100;
      DivBound(v, Pow256(n - 1));
      FromBeOfBeBytes(q, n - 1);
      FromBeSnoc(BeBytes(q, n - 1), v % 0x100);
    }
  }

  lemma {:induction false} FromBeSnoc(init: seq<byte>, b: byte)
    ensures FromBe(init + [b]) == FromBe(init) * 0x100 + b
  {
    assert (init + [b])[..|init|] == init;
  }

  lemma {:induction false} DivBound(v: nat, p: nat)
    requires v < 0x100 * p
    ensures v / 0x100 < p
  {
  }

  lemma {:induction false} BeBytesOfFromBe(bs: seq<byte>)
    ensures BeBytes(FromBe(bs), |bs|) == bs
  {
    if |bs| > 0 {
      var n := |bs|;
      var init := bs[..n - 1];
      var v := FromBe(bs);
      assert v / 0x100 == FromBe(init) && v % 0x100 == bs[n - 1];
      BeBytesOfFromBe(init);
      assert bs == init + [bs[n - 1]];
    }
  }

  lemma {:induction false} Pow256Values()
    ensures Pow256(2) == TWO_16 && Pow256(8) == TWO_64
  {
    assert Pow256(4) == 0x1_0000_0000;
  }

  /** `write_ushort`. */
  function WriteUshort(v: u16): (r: seq<byte>)
    ensures |r| == 2
  {
    BeBytes(v, 2)
  }

  /** `read_ushort`. */
  function ReadUshort(buf: seq<byte>, pos: nat): (r: Result<(u16, nat)>)
    ensures r.Ok? <==> pos + 2 <= |buf|
    ensures r.Err? ==> r.error == NotEnoughBytes
    ensures r.Ok? ==> r.value.1 == pos + 2 && WriteUshort(r.value.0) == buf[pos..pos + 2]
  {
    if pos + 2 > |buf| then Err(NotEnoughBytes)
    else
      var bs := buf[pos..pos + 2];
      Pow256Values();
      BeBytesOfFromBe(bs);
      Ok((FromBe(bs), pos + 2))
  }

  lemma {:induction false} UshortRoundTrip(v: u16, buf: seq<byte>, pos: nat)
    requires At(buf, pos, WriteUshort(v))
    ensures ReadUshort(buf, pos) == Ok((v, pos + 2))
  {
    Pow256Values();
    FromBeOfBeBytes(v, 2);
  }

  /** `write_long`. */
  function WriteLong(v: u64): (r: seq<byte>)
    ensures |r| == 8
  {
    BeBytes(v, 8)
  }

  /** `read_long`. */
  function ReadLong(buf: seq<byte>, pos: nat): (r: Result<(u64, nat)>)
    ensures r.Ok? <==> pos + 8 <= |buf|
    ensures r.Err? ==> r.error == NotEnoughBytes
    ensures r.Ok? ==> r.value.1 == pos + 8 && WriteLong(r.value.0) == buf[pos..pos + 8]
  {
    if |buf| < pos + 8 then Err(NotEnoughBytes)
    else
      var bs := buf[pos..pos + 8];
      Pow256Values();
      BeBytesOfFromBe(bs);
      Ok((FromBe(bs), pos + 8))
  }

  lemma {:induction false} LongRoundTrip(v: u64, buf: seq<byte>, pos: nat)
    requires At(buf, pos, WriteLong(v))
    ensures ReadLong(buf, pos) == Ok((v, pos + 8))
  {
    Pow256Values();
    FromBeOfBeBytes(v, 8);
  }

  /** `write_uuid`: the 16 bytes of the UUID as they are. */
  function WriteUuid(u: Uuid): (r: seq<byte>)
    ensures |r| == 16
  {
    u
  }

  /** `read_uuid`. */
  function ReadUuid(buf: seq<byte>, pos: nat): (r: Result<(Uuid, nat)>)
    ensures r.Ok? <==> pos + 16 <= |buf|
    ensures r.Err? ==> r.error == NotEnoughBytes
    ensures r.Ok? ==> r.value.1 == pos + 16 && WriteUuid(r.value.0) == buf[pos..pos + 16]
  {
    if pos + 16 > |buf| then Err(NotEnoughBytes)
    else Ok((buf[pos..pos + 16], pos + 16))
  }

  lemma {:induction false} UuidRoundTrip(u: Uuid, buf: seq<byte>, pos: nat)
    requires At(buf, pos, WriteUuid(u))
    ensures ReadUuid(buf, pos) == Ok((u, pos + 16))
  {
  }

  /** `write_bool`: 1 for true, 0 for false. */
  function WriteBool(b: bool): (r: seq<byte>)
    ensures |r| == 1 && r[0] < 2
  {
    [if b then 1 else 0]
  }

  /** `read_bool`: any non-zero byte reads as true. */
  function ReadBool(buf: seq<byte>, pos: nat): (r: Result<(bool, nat)>)
    ensures r.Ok? <==> pos < |buf|
    ensures r.Err? ==> r.error == NotEnoughBytes
    ensures r.Ok? ==> r.value == (buf[pos] != 0, pos + 1)
  {
    if pos >= |buf| then Err(NotEnoughBytes)
    else Ok((buf[pos] != 0, pos + 1))
  }

  lemma {:induction false} BoolRoundTrip(b: bool, buf: seq<byte>, pos: nat)
    requires At(buf, pos, WriteBool(b))
    ensures ReadBool(buf, pos) == Ok((b, pos + 1))
  {
    AtIndex(buf, pos, WriteBool(b), 0);
  }

  /** `write_byte`. */
  function WriteByte(b: byte): (r: seq<byte>)
    ensures |r| == 1 && FromBe(r) == b
  {
    assert [b][..0] == [];
    [b]
  }

  /** `read_byte`. */
  function ReadByte(buf: seq<byte>, pos: nat): (r: Result<(byte, nat)>)
    ensures r.Ok? <==> pos < |buf|
    ensures r.Err? ==> r.error == NotEnoughBytes
    ensures r.Ok? ==> r.value.1 == pos + 1 && WriteByte(r.value.0) == buf[pos..r.value.1]
  {
    if pos >= |buf| then Err(NotEnoughBytes)
    else Ok((buf[pos], pos + 1))
  }

  lemma {:induction false} ByteRoundTrip(b: byte, buf: seq<byte>, pos: nat)
    requires At(buf, pos, WriteByte(b))
    ensures ReadByte(buf, pos) == Ok((b, pos + 1))
  {
    AtIndex(buf, pos, [b], 0);
  }

  /** `read_bytes`: the next `n` bytes. */
  function ReadBytes(buf: seq<byte>, pos: nat, n: nat): (r: Result<(seq<byte>, nat)>)
    ensures r.Ok? <==> pos + n <= |buf|
    ensures r.Err? ==> r.error == NotEnoughBytes
    ensures r.Ok? ==> |r.value.0| == n && At(buf, pos, r.value.0) && r.value.1 == pos + n
  {
    if pos + n > |buf| then Err(NotEnoughBytes)
    else Ok((buf[pos..pos + n], pos + n))
  }

  // ----------------------------------------------------------------- strings

  /** `write_string`: the byte length as a VarInt (cast with `as u32`, so
      it wraps for strings of 4 GiB or more), then the UTF-8 bytes. */
  function WriteString(s: Str): (r: seq<byte>)
    ensures ReadVarint(r, 0) == Ok((AsU32(|s|), VarintSize(AsU32(|s|))))
    ensures r[VarintSize(AsU32(|s|))..] == s
  {
    var prefix := WriteVarint(AsU32(|s|));
    VarintRoundTrip(AsU32(|s|), prefix + s, 0);
    prefix + s
  }

  /** `read_string`: a VarInt length, then that many bytes, which must be
      well-formed UTF-8. */
  function ReadString(buf: seq<byte>, pos: nat): (r: Result<(Str, nat)>)
    ensures r.Err? ==> r.error in {NotEnoughBytes, VarintTooBig, InvalidUtf8}
  {
    var lp :- ReadVarint(buf, pos);
    var (len, start) := lp;
    if start + len > |buf| then Err(NotEnoughBytes)
    else
      var bs := buf[start..start + len];
      if Valid(bs) then Ok((bs, start + len)) else Err(InvalidUtf8)
  }

  /** What `read_string` returns: the length prefix's error, a short buffer,
      bytes that are not UTF-8, or exactly the `len` bytes after the
      prefix. */
  lemma {:induction false} ReadStringShape(buf: seq<byte>, pos: nat)
    ensures ReadVarint(buf, pos).Err? ==> ReadString(buf, pos) == ReadVarint(buf, pos).PropagateFailure()
    ensures ReadVarint(buf, pos).Ok? ==>
              var (len, start) := ReadVarint(buf, pos).value;
              var r := ReadString(buf, pos);
              (start + len > |buf| ==> r == Err(NotEnoughBytes)) &&
              (start + len <= |buf| ==> (r.Ok? <==> Valid(buf[start..start + len]))) &&
              (r.Ok? ==> |r.value.0| == len && r.value.1 == start + len && At(buf, start, r.value.0))
  {
  }

  /** `read_string` reads back a string whose length prefix decodes to its
      byte length. */
  lemma {:induction false} ReadStringAt(buf: seq<byte>, pos: nat, start: nat, s: Str)
    requires ReadVarint(buf, pos) == Ok((|s|, start))
    requires At(buf, start, s)
    ensures ReadString(buf, pos) == Ok((s, start + |s|))
  {
  }

  lemma {:induction false} StringRoundTrip(s: Str, buf: seq<byte>, pos: nat)
    requires |s| < TWO_32
    requires At(buf, pos, WriteString(s))
    ensures ReadString(buf, pos) == Ok((s, pos + |WriteString(s)|))
  {
    var w := WriteVarint(|s|);
    AtConcat(buf, pos, w, s);
    VarintRoundTrip(|s|, buf, pos);
    ReadStringAt(buf, pos, pos + |w|, s);
  }

  // ------------------------------------------------ reading field by field

  /* Each lemma below reads one field off the front of `w + rest` and
     leaves the cursor at `rest`; payload round trips chain them.  The
     position after the field is a parameter, so that chained calls name
     every position by one term. */

  lemma {:induction false} VarintThen(v: u32, rest: seq<byte>, buf: seq<byte>, pos: nat, next: nat)
    requires next == pos + |WriteVarint(v)|
    requires At(buf, pos, WriteVarint(v) + rest)
    ensures ReadVarint(buf, pos) == Ok((v, next))
    ensures At(buf, next, rest)
  {
    AtConcat(buf, pos, WriteVarint(v), rest);
    VarintRoundTrip(v, buf, pos);
  }

  lemma {:induction false} VarintLast(v: u32, buf: seq<byte>, pos: nat, next: nat)
    requires next == pos + |WriteVarint(v)|
    requires At(buf, pos, WriteVarint(v))
    ensures ReadVarint(buf, pos) == Ok((v, next))
  {
    VarintRoundTrip(v, buf, pos);
  }

  lemma {:induction false} StringThen(s: Str, rest: seq<byte>, buf: seq<byte>, pos: nat, next: nat)
    requires |s| < TWO_32
    requires next == pos + |WriteString(s)|
    requires At(buf, pos, WriteString(s) + rest)
    ensures ReadString(buf, pos) == Ok((s, next))
    ensures At(buf, next, rest)
  {
    AtConcat(buf, pos, WriteString(s), rest);
    StringRoundTrip(s, buf, pos);
  }

  lemma {:induction false} UshortThen(v: u16, rest: seq<byte>, buf: seq<byte>, pos: nat, next: nat)
    requires next == pos + 2
    requires At(buf, pos, WriteUshort(v) + rest)
    ensures ReadUshort(buf, pos) == Ok((v, next))
    ensures At(buf, next, rest)
  {
    AtConcat(buf, pos, WriteUshort(v), rest);
    UshortRoundTrip(v, buf, pos);
  }

  lemma {:induction false} LongThen(v: u64, rest: seq<byte>, buf: seq<byte>, pos: nat, next: nat)
    requires next == pos + 8
    requires At(buf, pos, WriteLong(v) + rest)
    ensures ReadLong(buf, pos) == Ok((v, next))
    ensures At(buf, next, rest)
  {
    AtConcat(buf, pos, WriteLong(v), rest);
    LongRoundTrip(v, buf, pos);
  }

  lemma {:induction false} UuidThen(u: Uuid, rest: seq<byte>, buf: seq<byte>, pos: nat, next: nat)
    requires next == pos + 16
    requires At(buf, pos, WriteUuid(u) + rest)
    ensures ReadUuid(buf, pos) == Ok((u, next))
    ensures At(buf, next, rest)
  {
    AtConcat(buf, pos, WriteUuid(u), rest);
    UuidRoundTrip(u, buf, pos);
  }

  lemma {:induction false} BoolThen(b: bool, rest: seq<byte>, buf: seq<byte>, pos: nat, next: nat)
    requires next == pos + 1
    requires At(buf, pos, WriteBool(b) + rest)
    ensures ReadBool(buf, pos) == Ok((b, next))
    ensures At(buf, next, rest)
  {
    AtConcat(buf, pos, WriteBool(b), rest);
    BoolRoundTrip(b, buf, pos);
  }

  lemma {:induction false} ByteThen(b: byte, rest: seq<byte>, buf: seq<byte>, pos: nat, next: nat)
    requires next == pos + 1
    requires At(buf, pos, WriteByte(b) + rest)
    ensures ReadByte(buf, pos) == Ok((b, next))
    ensures At(buf, next, rest)
  {
    AtConcat(buf, pos, WriteByte(b), rest);
    ByteRoundTrip(b, buf, pos);
  }

  lemma {:induction false} BytesThen(bs: seq<byte>, rest: seq<byte>, buf: seq<byte>, pos: nat, next: nat)
    requires next == pos + |bs|
    requires At(buf, pos, bs + rest)
    ensures ReadBytes(buf, pos, |bs|) == Ok((bs, next))
    ensures At(buf, next, rest)
  {
    AtConcat(buf, pos, bs, rest);
  }
}
