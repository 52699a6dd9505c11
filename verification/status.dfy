/** The packets of the Status state: the serverbound request and ping
    (`rustmine_server/src/packet/serverbound/status.rs`) and the clientbound
    response and pong (`rustmine_server/src/packet/clientbound/status.rs`).
    A ping's payload is an opaque 64-bit number the server echoes in its
    pong. */
module Status {
  import opened Ints
  import opened Wrappers
  import opened Utf8
  import opened Data

  /** `PROTOCOL_VERSION` of `rustmine_server/src/lib.rs`. */
  const PROTOCOL_VERSION: i32 := 770

  const REQUEST_ID: u32 := 0x00
  const PING_ID: u32 := 0x01
  const RESPONSE_ID: u32 := 0x00
  const PONG_ID: u32 := 0x01

  /** `StatusRequestPacket::read_from`: only the id is checked; the payload
      is ignored. */
  function ReadRequest(id: u32, buf: seq<byte>): (r: Result<()>)
    ensures r.Ok? <==> id == REQUEST_ID
    ensures r.Err? ==> r.error == IdMismatch(REQUEST_ID, id)
  {
    if id != REQUEST_ID then Err(IdMismatch(REQUEST_ID, id)) else Ok(())
  }

  /** `StatusPingPacket::read_from`: the first eight bytes as a big-endian
      number; fewer than eight bytes panic in `unwrap`. */
  function ReadPing(id: u32, buf: seq<byte>): (r: Result<u64>)
    ensures id != PING_ID ==> r == Err(IdMismatch(PING_ID, id))
    ensures id == PING_ID ==> (r.Ok? <==> 8 <= |buf|)
    ensures id == PING_ID && |buf| < 8 ==> r == Err(Panic(UnwrapOnError))
    ensures r.Ok? ==> WriteLong(r.value) == buf[..8]
  {
    if id != PING_ID then Err(IdMismatch(PING_ID, id))
    else
      var p :- ReadLong(buf, 0).Unwrap();
      Ok(p.0)
  }

  /** The payload of a ping and of a pong: the number, big-endian. */
  function WritePing(payload: u64): (r: seq<byte>)
    ensures |r| == 8 && ReadLong(r, 0) == Ok((payload, 8))
  {
    LongRoundTrip(payload, WriteLong(payload), 0);
    WriteLong(payload)
  }

  /** `StatusPongPacket::write_to`, which writes the same field as the
      ping. */
  function WritePong(payload: u64): (r: seq<byte>)
    ensures |r| == 8 && ReadLong(r, 0) == Ok((payload, 8))
  {
    LongRoundTrip(payload, WriteLong(payload), 0);
    WriteLong(payload)
  }

  /** `StatusResponsePacket::write_to`: the JSON text of the response as one
      string.  The text itself comes from `serde_json` and is not modelled. */
  function WriteResponse(json: Str): (r: seq<byte>)
    ensures |r| >= |json| + 1
  {
    WriteString(json)
  }

  /** A response whose text fits the 32-bit length prefix reads back, as a
      string, to the same text, using every byte. */
  lemma {:induction false} ResponseRoundTrip(json: Str)
    requires |json| < TWO_32
    ensures ReadString(WriteResponse(json), 0) == Ok((json, |WriteResponse(json)|))
  {
    var r := WriteResponse(json);
    assert At(r, 0, WriteString(json));
    StringRoundTrip(json, r, 0);
  }

  /** A ping is read back as written, and so is the pong the server sends:
      the two share one layout. */
  lemma {:induction false} PingRoundTrip(payload: u64, rest: seq<byte>)
    ensures ReadPing(PING_ID, WritePing(payload) + rest) == Ok(payload)
    ensures ReadPing(PING_ID, WritePong(payload) + rest) == Ok(payload)
  {
    SplitAt(WriteLong(payload), rest);
    LongRoundTrip(payload, WriteLong(payload) + rest, 0);
  }

  /** A request decodes from any payload once the id matches. */
  lemma {:induction false} RequestIgnoresPayload(a: seq<byte>, b: seq<byte>)
    ensures ReadRequest(REQUEST_ID, a) == ReadRequest(REQUEST_ID, b) == Ok(())
  {
  }

  // ------------------------------------------------------------ defaults

  datatype StatusVersion = StatusVersion(name: Str, protocol: i32)

  datatype PlayerEntry = PlayerEntry(name: Str, id: Str)

  datatype StatusPlayers = StatusPlayers(max: i32, online: i32, sample: seq<PlayerEntry>)

  /** `StatusVersion::default`. */
  function DefaultVersion(): (v: StatusVersion)
    ensures v.name == Ascii("Rustmine") && v.protocol == PROTOCOL_VERSION
  {
    StatusVersion(AsciiStr("Rustmine"), PROTOCOL_VERSION)
  }

  /** `StatusPlayers::default`. */
  function DefaultPlayers(): (p: StatusPlayers)
    ensures p.max == 0 && p.online == 0 && |p.sample| == 0
  {
    StatusPlayers(0, 0, [])
  }
}
