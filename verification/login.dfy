/** The packets of the Login state: the serverbound login start and
    acknowledgement (`rustmine_server/src/packet/serverbound/login.rs`) and
    the clientbound login success
    (`rustmine_server/src/packet/clientbound/login.rs`). */
module Login {
  import opened Ints
  import opened Wrappers
  import opened Utf8
  import opened Data

  const START_ID: u32 := 0x00
  const SUCCESS_ID: u32 := 0x02
  const ACK_ID: u32 := 0x03

  /** A player's name and UUID (`GameProfile`); a login start carries one. */
  datatype Profile = Profile(username: Str, uuid: Uuid)

  /** `LoginStartPacket::read_from`: a string name, then a 16-byte UUID.
      Both reads are unwrapped, so malformed input panics. */
  function ReadStart(id: u32, buf: seq<byte>): (r: Result<Profile>)
    ensures id != START_ID ==> r == Err(IdMismatch(START_ID, id))
    ensures r.Err? ==> r.error == IdMismatch(START_ID, id) || r.error == Panic(UnwrapOnError)
  {
    if id != START_ID then Err(IdMismatch(START_ID, id))
    else
      var a :- ReadString(buf, 0).Unwrap();
      var b :- ReadUuid(buf, a.1).Unwrap();
      Ok(Profile(a.0, b.0))
  }

  /** The layout `ReadStart` expects.  Login start is serverbound only, so
      the source has no writer for it; this one states the layout. */
  function StartLayout(p: Profile): seq<byte>
  {
    WriteString(p.username) + WriteUuid(p.uuid)
  }

  /** `ReadStart` on a buffer whose two fields read as given. */
  lemma {:induction false} ReadsStart(buf: seq<byte>, name: Str, p1: nat, uuid: Uuid, p2: nat)
    requires ReadString(buf, 0) == Ok((name, p1))
    requires ReadUuid(buf, p1) == Ok((uuid, p2))
    ensures ReadStart(START_ID, buf) == Ok(Profile(name, uuid))
  {
  }

  lemma {:induction false} StartRoundTrip(p: Profile, buf: seq<byte>)
    requires |p.username| < TWO_32
    requires At(buf, 0, StartLayout(p))
    ensures ReadStart(START_ID, buf) == Ok(p)
  {
    var p1 := |WriteString(p.username)|;
    var p2 := p1 + 16;
    assert WriteUuid(p.uuid) + [] == WriteUuid(p.uuid);
    StringThen(p.username, WriteUuid(p.uuid), buf, 0, p1);
    UuidThen(p.uuid, [], buf, p1, p2);
    ReadsStart(buf, p.username, p1, p.uuid, p2);
  }

  /** A login start whose name does not parse panics instead of returning
      an error. */
  lemma {:induction false} MalformedStartPanics(buf: seq<byte>)
    requires ReadString(buf, 0).Err?
    ensures ReadStart(START_ID, buf) == Err(Panic(UnwrapOnError))
  {
  }

  /** `LoginAcknowledgedPacket::read_from`: the id alone. */
  function ReadAck(id: u32, buf: seq<byte>): (r: Result<()>)
    ensures r.Ok? <==> id == ACK_ID
    ensures r.Err? ==> r.error == IdMismatch(ACK_ID, id)
  {
    if id != ACK_ID then Err(IdMismatch(ACK_ID, id)) else Ok(())
  }

  /** `LoginAcknowledgedPacket::write_to` writes nothing. */
  function WriteAck(): (r: seq<byte>)
    ensures |r| == 0
  {
    []
  }

  /** `LoginSuccessPacket::write_to`: the UUID, the name, and an empty
      property list (the count 0). */
  function WriteSuccess(p: Profile): (r: seq<byte>)
    ensures |r| == 16 + |WriteString(p.username)| + 1
    ensures r[..16] == p.uuid && r[16..|r| - 1] == WriteString(p.username) && r[|r| - 1] == 0
  {
    WriteUuid(p.uuid) + (WriteString(p.username) + WriteVarint(0))
  }

  /** The success payload is 16 UUID bytes, the length-prefixed name and a
      single zero byte. */
  lemma {:induction false} SuccessLength(p: Profile)
    requires |p.username| < TWO_32
    ensures |WriteSuccess(p)| == 16 + VarintSize(|p.username|) + |p.username| + 1
  {
  }

  /** The fields of a success payload, read back: the client learns the
      profile the server recorded. */
  lemma {:induction false} SuccessFields(p: Profile, buf: seq<byte>)
    requires |p.username| < TWO_32
    requires At(buf, 0, WriteSuccess(p))
    ensures ReadUuid(buf, 0) == Ok((p.uuid, 16))
    ensures ReadString(buf, 16) == Ok((p.username, 16 + |WriteString(p.username)|))
    ensures ReadVarint(buf, 16 + |WriteString(p.username)|) == Ok((0, 17 + |WriteString(p.username)|))
  {
    var p1 := 16;
    var p2 := p1 + |WriteString(p.username)|;
    var p3 := p2 + 1;
    UuidThen(p.uuid, WriteString(p.username) + WriteVarint(0), buf, 0, p1);
    StringThen(p.username, WriteVarint(0), buf, p1, p2);
    VarintLast(0, buf, p2, p3);
  }
}
