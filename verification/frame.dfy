/** Packet framing of `rustmine_server/src/packet/mod.rs`: the bytes
    `write_packet` puts on the wire and `read_packet_from_bytes`, which
    takes them apart again.

    A frame is a VarInt length followed by that many bytes.  Without
    compression (threshold 0) the body is the packet id as a VarInt followed
    by the payload.  With compression enabled the body starts with a second
    VarInt, the uncompressed size: it is 0 when the packet was left
    uncompressed and the zlib stream (RFC 1950) of id and payload follows
    otherwise.

    zlib is not modelled: a `Zlib` value is any pair of functions, and the
    round trips through the compressed branch assume the inverse law
    `Inverse`. */
module Frame {
  import opened Ints
  import opened Wrappers
  import opened Data

  /** The compressor and decompressor of `flate2`; decompression of a
      malformed stream fails. */
  datatype Zlib = Zlib(compress: seq<byte> -> seq<byte>, decompress: seq<byte> -> Option<seq<byte>>)

  /** Decompressing what was compressed gives back the original bytes. */
  ghost predicate Inverse(z: Zlib) {
    forall bs :: z.decompress(z.compress(bs)) == Some(bs)
  }

  /** `RawPacket`: the declared frame length, the packet id and the bytes
      after the id. */
  datatype RawPacket = RawPacket(length: u32, id: u32, data: seq<byte>)

  /** The uncompressed body: id, then payload. */
  function Body(id: u32, payload: seq<byte>): (r: seq<byte>)
    ensures |r| == |WriteVarint(id)| + |payload|
  {
    WriteVarint(id) + payload
  }

  /** The buffer `write_packet` sends for packet `id` with `payload`.  Every
      length is cast with `as u32`, which wraps. */
  function WriteFrame(id: u32, payload: seq<byte>, threshold: u32, z: Zlib): (r: seq<byte>)
    ensures var body := Body(id, payload);
            threshold == 0 || AsU32(|body|) < threshold ==> |body| < |r| && r[|r| - |body|..] == body
    ensures var body := Body(id, payload);
            threshold != 0 && AsU32(|body|) >= threshold ==>
              var c := z.compress(body); |c| < |r| && r[|r| - |c|..] == c
  {
    var body := Body(id, payload);
    var size := AsU32(|body|);
    if threshold == 0 then
      WriteVarint(size) + body
    else if size >= threshold then
      var compressed := z.compress(body);
      WriteVarint(AsU32(AsU32(|compressed|) + VarintSize(size))) + WriteVarint(size) + compressed
    else
      WriteVarint(AsU32(size + VarintSize(0))) + WriteVarint(0) + body
  }

  /** The id VarInt and the bytes after it, which run to the end of `buf`. */
  function ReadIdAndData(buf: seq<byte>, pos: nat): (r: Result<(u32, seq<byte>)>)
    ensures r.Ok? ==> ReadVarint(buf, pos).Ok?
    ensures r.Ok? ==> var (id, start) := ReadVarint(buf, pos).value;
                      r.value == (id, buf[start..])
    ensures ReadVarint(buf, pos).Err? ==> r == Err(ReadVarint(buf, pos).error)
  {
    var p :- ReadVarint(buf, pos);
    Ok((p.0, buf[p.1..]))
  }

  /** `read_packet_from_bytes`. */
  function ReadPacketFromBytes(bytes: seq<byte>, threshold: u32, z: Zlib): (r: Result<RawPacket>)
    ensures r.Ok? ==> ReadVarint(bytes, 0).Ok? && r.value.length == ReadVarint(bytes, 0).value.0
    ensures r.Ok? ==> |bytes| >= r.value.length
    ensures r.Err? ==> r.error in {NotEnoughBytes, VarintTooBig, PacketTooShort, DecompressFailed}
  {
    var lp :- ReadVarint(bytes, 0);
    var (length, pos) := lp;
    if |bytes| < length then Err(PacketTooShort)
    else if threshold == 0 then
      var idd :- ReadIdAndData(bytes, pos);
      Ok(RawPacket(length, idd.0, idd.1))
    else
      var dp :- ReadVarint(bytes, pos);
      var (dataLength, start) := dp;
      if dataLength >= threshold then
        match z.decompress(bytes[start..])
        case None => Err(DecompressFailed)
        case Some(plain) =>
          var idd :- ReadIdAndData(plain, 0);
          Ok(RawPacket(length, idd.0, idd.1))
      else
        var idd :- ReadIdAndData(bytes, start);
        Ok(RawPacket(length, idd.0, idd.1))
  }

  // ------------------------------------------------------------ round trips

  /** The frame without compression. */
  lemma {:induction false} PlainShape(id: u32, payload: seq<byte>, z: Zlib)
    requires |Body(id, payload)| < TWO_32
    ensures WriteFrame(id, payload, 0, z) == WriteVarint(|Body(id, payload)|) + WriteVarint(id) + payload
  {
  }

  /** The frame of a packet sent raw under compression. */
  lemma {:induction false} UncompressedShape(id: u32, payload: seq<byte>, threshold: u32, z: Zlib)
    requires 0 < threshold && |Body(id, payload)| < threshold
    ensures WriteFrame(id, payload, threshold, z)
         == WriteVarint(|Body(id, payload)| + 1) + WriteVarint(0) + WriteVarint(id) + payload
  {
  }

  /** The frame of a compressed packet. */
  lemma {:induction false} CompressedShape(id: u32, payload: seq<byte>, threshold: u32, z: Zlib)
    requires 0 < threshold <= |Body(id, payload)| < TWO_32
    requires |z.compress(Body(id, payload))| + VarintSize(|Body(id, payload)|) < TWO_32
    ensures WriteFrame(id, payload, threshold, z)
         == WriteVarint(|z.compress(Body(id, payload))| + VarintSize(|Body(id, payload)|))
            + WriteVarint(|Body(id, payload)|) + z.compress(Body(id, payload))
  {
  }

  /** `read_packet_from_bytes` on a frame of the uncompressed format. */
  lemma {:induction false} ReadsPlain(bytes: seq<byte>, z: Zlib, length: u32, pos: nat, id: u32, start: nat)
    requires ReadVarint(bytes, 0) == Ok((length, pos)) && length <= |bytes|
    requires ReadVarint(bytes, pos) == Ok((id, start))
    ensures ReadPacketFromBytes(bytes, 0, z) == Ok(RawPacket(length, id, bytes[start..]))
  {
  }

  /** `read_packet_from_bytes` on a compression-format frame whose size
      field is below the threshold. */
  lemma {:induction false} ReadsUncompressed(bytes: seq<byte>, threshold: u32, z: Zlib, length: u32, pos: nat,
                          sizeField: u32, start: nat, id: u32, idEnd: nat)
    requires 0 < threshold
    requires ReadVarint(bytes, 0) == Ok((length, pos)) && length <= |bytes|
    requires ReadVarint(bytes, pos) == Ok((sizeField, start)) && sizeField < threshold
    requires ReadVarint(bytes, start) == Ok((id, idEnd))
    ensures ReadPacketFromBytes(bytes, threshold, z) == Ok(RawPacket(length, id, bytes[idEnd..]))
  {
  }

  /** `read_packet_from_bytes` on a compression-format frame whose size
      field is at least the threshold. */
  lemma {:induction false} ReadsCompressed(bytes: seq<byte>, threshold: u32, z: Zlib, length: u32, pos: nat,
                        sizeField: u32, start: nat, plain: seq<byte>, id: u32, idEnd: nat)
    requires 0 < threshold
    requires ReadVarint(bytes, 0) == Ok((length, pos)) && length <= |bytes|
    requires ReadVarint(bytes, pos) == Ok((sizeField, start)) && sizeField >= threshold
    requires z.decompress(bytes[start..]) == Some(plain)
    requires ReadVarint(plain, 0) == Ok((id, idEnd))
    ensures ReadPacketFromBytes(bytes, threshold, z) == Ok(RawPacket(length, id, plain[idEnd..]))
  {
  }

  /** Without compression the frame is read back as written. */
  lemma {:induction false} PlainRoundTrip(id: u32, payload: seq<byte>, z: Zlib)
    requires |Body(id, payload)| < TWO_32
    ensures ReadPacketFromBytes(WriteFrame(id, payload, 0, z), 0, z)
         == Ok(RawPacket(|Body(id, payload)|, id, payload))
  {
    var size := |Body(id, payload)|;
    var lw := WriteVarint(size);
    var iw := WriteVarint(id);
    var frame := lw + iw + payload;
    PlainShape(id, payload, z);
    ThreeRuns(lw, iw, payload);
    VarintRoundTrip(size, frame, 0);
    VarintRoundTrip(id, frame, |lw|);
    ReadsPlain(frame, z, size, |lw|, id, |lw| + |iw|);
  }

  /** With compression enabled, a packet smaller than the threshold is sent
      raw behind a zero size, and read back as written. */
  lemma {:induction false} UncompressedRoundTrip(id: u32, payload: seq<byte>, threshold: u32, z: Zlib)
    requires 0 < threshold && |Body(id, payload)| < threshold
    ensures ReadPacketFromBytes(WriteFrame(id, payload, threshold, z), threshold, z)
         == Ok(RawPacket(|Body(id, payload)| + 1, id, payload))
  {
    var size := |Body(id, payload)|;
    UncompressedShape(id, payload, threshold, z);
    AnySmallSizeMeansUncompressed(WriteVarint(size + 1), WriteVarint(0), WriteVarint(id), payload,
                                  size + 1, 0, id, threshold, z);
  }

  /** The reader takes any size field below the threshold, not only 0, as
      the mark of an uncompressed packet: the bytes after it are read as
      the id and the data. */
  lemma {:induction false} AnySmallSizeMeansUncompressed(lw: seq<byte>, sw: seq<byte>, iw: seq<byte>, payload: seq<byte>,
                                      length: u32, sizeField: u32, id: u32, threshold: u32, z: Zlib)
    requires lw == WriteVarint(length) && sw == WriteVarint(sizeField) && iw == WriteVarint(id)
    requires 0 < threshold && sizeField < threshold
    requires length <= |lw| + |sw| + |iw| + |payload|
    ensures ReadPacketFromBytes(lw + sw + iw + payload, threshold, z) == Ok(RawPacket(length, id, payload))
  {
    var frame := lw + sw + iw + payload;
    FourRuns(lw, sw, iw, payload);
    VarintRoundTrip(length, frame, 0);
    VarintRoundTrip(sizeField, frame, |lw|);
    VarintRoundTrip(id, frame, |lw| + |sw|);
    ReadsUncompressed(frame, threshold, z, length, |lw|, sizeField, |lw| + |sw|, id, |lw| + |sw| + |iw|);
  }

  /** A packet at or above the threshold is compressed, and read back as
      written whenever decompression inverts compression. */
  lemma {:induction false} CompressedRoundTrip(id: u32, payload: seq<byte>, threshold: u32, z: Zlib)
    requires Inverse(z)
    requires 0 < threshold <= |Body(id, payload)| < TWO_32
    requires |z.compress(Body(id, payload))| + VarintSize(|Body(id, payload)|) < TWO_32
    ensures ReadPacketFromBytes(WriteFrame(id, payload, threshold, z), threshold, z)
         == Ok(RawPacket(|z.compress(Body(id, payload))| + VarintSize(|Body(id, payload)|), id, payload))
  {
    var body := Body(id, payload);
    var c := z.compress(body);
    var total := |c| + VarintSize(|body|);
    CompressedShape(id, payload, threshold, z);
    FirstOfThree(WriteVarint(total), WriteVarint(|body|), c, total);
    SecondOfThree(WriteVarint(total), WriteVarint(|body|), c, |body|);
    var iw := WriteVarint(id);
    SplitAt(iw, payload);
    VarintRoundTrip(id, body, 0);
    ReadsCompressed(WriteFrame(id, payload, threshold, z), threshold, z, total, |WriteVarint(total)|,
                    |body|, |WriteVarint(total)| + |WriteVarint(|body|)|, body, id, |iw|);
  }

  /** In every branch the outer length is the number of bytes after it. */
  lemma {:induction false} OuterLengthCountsRest(id: u32, payload: seq<byte>, threshold: u32, z: Zlib)
    requires |Body(id, payload)| + 1 < TWO_32
    requires |z.compress(Body(id, payload))| + VarintSize(|Body(id, payload)|) < TWO_32
    ensures var frame := WriteFrame(id, payload, threshold, z);
            ReadVarint(frame, 0).Ok? &&
            ReadVarint(frame, 0).value.0 == |frame| - ReadVarint(frame, 0).value.1
  {
    var body := Body(id, payload);
    var size := |body|;
    var iw := WriteVarint(id);
    if threshold == 0 {
      PlainShape(id, payload, z);
      ThreeRuns(WriteVarint(size), iw, payload);
      VarintRoundTrip(size, WriteVarint(size) + iw + payload, 0);
    } else if size >= threshold {
      var c := z.compress(body);
      var sw := WriteVarint(size);
      var total := |c| + VarintSize(size);
      CompressedShape(id, payload, threshold, z);
      ThreeRuns(WriteVarint(total), sw, c);
      VarintRoundTrip(total, WriteVarint(total) + sw + c, 0);
    } else {
      var zw := WriteVarint(0);
      UncompressedShape(id, payload, threshold, z);
      FourRuns(WriteVarint(size + 1), zw, iw, payload);
      VarintRoundTrip(size + 1, WriteVarint(size + 1) + zw + iw + payload, 0);
    }
  }

  /** The writer compresses exactly the packets whose body is at least the
      threshold: the size field it writes is the body size then, followed
      by the compressed body, and 0 otherwise, followed by the body. */
  lemma {:induction false} CompressesIffAtThreshold(id: u32, payload: seq<byte>, threshold: u32, z: Zlib)
    requires 0 < threshold
    requires |Body(id, payload)| + 1 < TWO_32
    requires |z.compress(Body(id, payload))| + VarintSize(|Body(id, payload)|) < TWO_32
    ensures var frame := WriteFrame(id, payload, threshold, z);
            ReadVarint(frame, 0).Ok? && ReadVarint(frame, ReadVarint(frame, 0).value.1).Ok? &&
            var (sizeField, rest) := ReadVarint(frame, ReadVarint(frame, 0).value.1).value;
            (|Body(id, payload)| >= threshold <==> sizeField != 0) &&
            (|Body(id, payload)| >= threshold ==>
               sizeField == |Body(id, payload)| && frame[rest..] == z.compress(Body(id, payload))) &&
            (|Body(id, payload)| < threshold ==> frame[rest..] == Body(id, payload))
  {
    var body := Body(id, payload);
    var size := |body|;
    if size >= threshold {
      var c := z.compress(body);
      CompressedShape(id, payload, threshold, z);
      FirstOfThree(WriteVarint(|c| + VarintSize(size)), WriteVarint(size), c, |c| + VarintSize(size));
      SecondOfThree(WriteVarint(|c| + VarintSize(size)), WriteVarint(size), c, size);
    } else {
      UncompressedShape(id, payload, threshold, z);
      assert WriteVarint(size + 1) + WriteVarint(0) + WriteVarint(id) + payload
          == WriteVarint(size + 1) + WriteVarint(0) + body;
      FirstOfThree(WriteVarint(size + 1), WriteVarint(0), body, size + 1);
      SecondOfThree(WriteVarint(size + 1), WriteVarint(0), body, 0);
    }
  }

  lemma {:induction false} FirstOfThree(a: seq<byte>, b: seq<byte>, c: seq<byte>, v: u32)
    requires a == WriteVarint(v)
    ensures ReadVarint(a + b + c, 0) == Ok((v, |a|))
  {
    ThreeRuns(a, b, c);
    VarintRoundTrip(v, a + b + c, 0);
  }

  lemma {:induction false} SecondOfThree(a: seq<byte>, b: seq<byte>, c: seq<byte>, v: u32)
    requires b == WriteVarint(v)
    ensures ReadVarint(a + b + c, |a|) == Ok((v, |a| + |b|))
    ensures (a + b + c)[|a| + |b|..] == c
  {
    ThreeRuns(a, b, c);
    VarintRoundTrip(v, a + b + c, |a|);
  }

  // --------------------------------------------------- the length check

  /** The length check of `read_packet_from_bytes` compares the declared
      body length with the whole input, length prefix included, so a frame
      whose body is cut short by up to the size of its prefix is accepted. */
  lemma {:induction false} TruncatedFrameAccepted(z: Zlib)
    ensures ReadVarint([0x02, 0x00], 0) == Ok((2, 1))
    ensures ReadPacketFromBytes([0x02, 0x00], 0, z) == Ok(RawPacket(2, 0, []))
  {
    var frame: seq<byte> := [0x02, 0x00];
    ReadVarintFromAt(frame, 0);
    ReadVarintFromAt(frame, 1);
    ReadsPlain(frame, z, 2, 1, 0, 2);
    assert frame[2..] == [];
  }

  lemma {:induction false} ReadVarintFromAt(buf: seq<byte>, pos: nat)
    requires pos < |buf| && buf[pos] < 0x80
    ensures ReadVarint(buf, pos) == Ok((buf[pos], pos + 1))
  {
    var w := [buf[pos]];
    assert WriteVarint(buf[pos]) == w;
    assert buf[pos..pos + 1] == w;
    VarintRoundTrip(buf[pos], buf, pos);
  }

  /** `read_packet_from_bytes` with the length check the error message
      describes: the bytes after the length prefix must hold the declared
      body. */
  function ReadPacketChecked(bytes: seq<byte>, threshold: u32, z: Zlib): (r: Result<RawPacket>)
    ensures ReadVarint(bytes, 0).Ok? ==>
              var (length, pos) := ReadVarint(bytes, 0).value;
              (|bytes| - pos < length ==> r == Err(PacketTooShort)) &&
              (|bytes| - pos >= length ==> r == ReadPacketFromBytes(bytes, threshold, z))
    ensures r.Ok? ==> ReadVarint(bytes, 0).Ok? && ReadVarint(bytes, 0).value.1 + r.value.length <= |bytes|
  {
    var lp :- ReadVarint(bytes, 0);
    var (length, pos) := lp;
    if |bytes| - pos < length then Err(PacketTooShort)
    else ReadPacketFromBytes(bytes, threshold, z)
  }

  /** The checked reader rejects the truncated frame. */
  lemma {:induction false} TruncatedFrameRejected(z: Zlib)
    ensures ReadPacketChecked([0x02, 0x00], 0, z) == Err(PacketTooShort)
  {
    TruncatedFrameAccepted(z);
  }

  /** The checked reader still reads back every frame the writer produces. */
  lemma {:induction false} CheckedReadsWrittenFrames(id: u32, payload: seq<byte>, threshold: u32, z: Zlib)
    requires |Body(id, payload)| + 1 < TWO_32
    requires |z.compress(Body(id, payload))| + VarintSize(|Body(id, payload)|) < TWO_32
    ensures ReadPacketChecked(WriteFrame(id, payload, threshold, z), threshold, z)
         == ReadPacketFromBytes(WriteFrame(id, payload, threshold, z), threshold, z)
  {
    OuterLengthCountsRest(id, payload, threshold, z);
  }
}
