/** Every packet of the model as one type, standing for the `Packet` trait
    objects of `rustmine_server/src/packet/mod.rs`: the `packet_id!`,
    `id_match!`, `clientbound_packet!` and `serverbound_packet!` macros,
    `downcast_packet`, the per-state decoder tables of the serverbound
    modules and the event table of `PlayerConnection::read_packet`.

    A `Kind` is the concrete Rust type behind a trait object; several kinds
    share an id, which is why a downcast compares kinds and not ids. */
module Packets {
  import opened Ints
  import opened Wrappers
  import opened Utf8
  import opened Data
  import CS = ConnState
  import Hs = Handshake
  import Sp = Status
  import Lp = Login
  import Cp = Configuration

  datatype Kind =
    | Handshake
    | StatusRequest
    | StatusPing
    | StatusResponse
    | StatusPong
    | LoginStart
    | LoginAcknowledged
    | LoginSuccess
    | ClientInformation
    | PluginMessageFromClient
    | PluginMessageToClient
    | ClientKnownPacks
    | SelectKnownPacks
    | FinishConfiguration

  datatype Packet =
    | HandshakePacket(handshake: Hs.HandshakePacket)
    | StatusRequestPacket
    | StatusPingPacket(ping: u64)
    | StatusResponsePacket(json: Str)
    | StatusPongPacket(pong: u64)
    | LoginStartPacket(start: Lp.Profile)
    | LoginAcknowledgedPacket
    | LoginSuccessPacket(success: Lp.Profile)
    | ClientInformationPacket(info: Cp.ClientInformation)
    | PluginMessageFromClientPacket(fromClient: Cp.PluginMessage)
    | PluginMessageToClientPacket(toClient: Cp.PluginMessage)
    | ClientKnownPacksPacket(known: seq<Cp.KnownPack>)
    | SelectKnownPacksPacket(selected: seq<Cp.KnownPack>)
    | FinishConfigurationPacket

  /** The concrete type of a packet. */
  function KindOf(p: Packet): Kind {
    match p
    case HandshakePacket(_) => Handshake
    case StatusRequestPacket => StatusRequest
    case StatusPingPacket(_) => StatusPing
    case StatusResponsePacket(_) => StatusResponse
    case StatusPongPacket(_) => StatusPong
    case LoginStartPacket(_) => LoginStart
    case LoginAcknowledgedPacket => LoginAcknowledged
    case LoginSuccessPacket(_) => LoginSuccess
    case ClientInformationPacket(_) => ClientInformation
    case PluginMessageFromClientPacket(_) => PluginMessageFromClient
    case PluginMessageToClientPacket(_) => PluginMessageToClient
    case ClientKnownPacksPacket(_) => ClientKnownPacks
    case SelectKnownPacksPacket(_) => SelectKnownPacks
    case FinishConfigurationPacket => FinishConfiguration
  }

  /** `Packet::id()` of each type, as its `packet_id!` invocation (or, for
      the handshake, its hand-written `id`) declares it. */
  function KindId(k: Kind): u32 {
    match k
    case Handshake => Hs.ID
    case StatusRequest => Sp.REQUEST_ID
    case StatusPing => Sp.PING_ID
    case StatusResponse => Sp.RESPONSE_ID
    case StatusPong => Sp.PONG_ID
    case LoginStart => Lp.START_ID
    case LoginAcknowledged => Lp.ACK_ID
    case LoginSuccess => Lp.SUCCESS_ID
    case ClientInformation => Cp.CLIENT_INFO_ID
    case PluginMessageFromClient => Cp.PLUGIN_MESSAGE_FROM_CLIENT_ID
    case PluginMessageToClient => Cp.PLUGIN_MESSAGE_TO_CLIENT_ID
    case ClientKnownPacks => Cp.KNOWN_PACKS_ID
    case SelectKnownPacks => Cp.SELECT_KNOWN_PACKS_ID
    case FinishConfiguration => Cp.FINISH_ID
  }

  /** `packet_id(&self)`, which `packet_id!` defines as `Self::id()`: an
      instance reports the id of its type. */
  function PacketId(p: Packet): (n: u32)
    ensures n == KindId(KindOf(p))
    ensures n <= 0x0E
  {
    match p
    case HandshakePacket(_) => 0x00
    case StatusRequestPacket => 0x00
    case StatusPingPacket(_) => 0x01
    case StatusResponsePacket(_) => 0x00
    case StatusPongPacket(_) => 0x01
    case LoginStartPacket(_) => 0x00
    case LoginAcknowledgedPacket => 0x03
    case LoginSuccessPacket(_) => 0x02
    case ClientInformationPacket(_) => 0x00
    case PluginMessageFromClientPacket(_) => 0x02
    case PluginMessageToClientPacket(_) => 0x01
    case ClientKnownPacksPacket(_) => 0x07
    case SelectKnownPacksPacket(_) => 0x0E
    case FinishConfigurationPacket => 0x03
  }

  /** The types whose `read_from` is not `clientbound_packet!`'s
      `unimplemented!()`. */
  predicate Decodable(k: Kind) {
    !(k == StatusResponse || k == StatusPong || k == LoginSuccess || k == PluginMessageToClient || k == SelectKnownPacks)
  }

  /** The types whose `write_to` is not `serverbound_packet!`'s
      `unimplemented!()`. */
  predicate Encodable(k: Kind) {
    !(k == LoginStart || k == ClientInformation || k == PluginMessageFromClient || k == ClientKnownPacks)
  }

  /** `<K>::read_from(id, buffer)`.  Every decodable type starts with
      `id_match!` (the handshake with its own equivalent test), so a
      decode under another id fails without reading; a clientbound type
      panics whatever the id. */
  function ReadFrom(k: Kind, id: u32, buf: seq<byte>): (r: Result<Packet>)
    ensures r.Ok? ==> KindOf(r.value) == k && id == KindId(k)
    ensures !Decodable(k) ==> r == Err(Panic(Unimplemented))
    ensures Decodable(k) && id != KindId(k) ==> r == Err(IdMismatch(KindId(k), id))
  {
    if !Decodable(k) then Err(Panic(Unimplemented))
    else if id != KindId(k) then Err(IdMismatch(KindId(k), id))
    else if k == ClientInformation then ReadInfoPacket(buf)
    else if k == PluginMessageFromClient then ReadPluginPacket(buf)
    else if k == ClientKnownPacks then ReadKnownPacksPacket(buf)
    else ReadSmall(k, buf)
  }

  /** The fields of the other decodable types, read once the id has
      matched.  The request, the login acknowledgement and finish
      configuration have no fields: their readers succeed on any payload
      once the id matches (`Status.ReadRequest`, `Login.ReadAck`,
      `Configuration.ReadFinish`). */
  function ReadSmall(k: Kind, buf: seq<byte>): (r: Result<Packet>)
    requires Decodable(k) && k != ClientInformation && k != PluginMessageFromClient && k != ClientKnownPacks
    ensures r.Ok? ==> KindOf(r.value) == k
  {
    match k
    case Handshake =>
      var h :- Hs.Read(Hs.ID, buf);
      Ok(HandshakePacket(h))
    case StatusRequest => Ok(StatusRequestPacket)
    case StatusPing =>
      var v :- Sp.ReadPing(Sp.PING_ID, buf);
      Ok(StatusPingPacket(v))
    case LoginStart =>
      var profile :- Lp.ReadStart(Lp.START_ID, buf);
      Ok(LoginStartPacket(profile))
    case LoginAcknowledged => Ok(LoginAcknowledgedPacket)
    case FinishConfiguration => Ok(FinishConfigurationPacket)
  }

  function ReadInfoPacket(buf: seq<byte>): (r: Result<Packet>)
    ensures r.Ok? ==> KindOf(r.value) == ClientInformation
  {
    var info :- Cp.ReadClientInfo(Cp.CLIENT_INFO_ID, buf);
    Ok(ClientInformationPacket(info))
  }

  function ReadPluginPacket(buf: seq<byte>): (r: Result<Packet>)
    ensures r.Ok? ==> KindOf(r.value) == PluginMessageFromClient
  {
    var m :- Cp.ReadPluginMessage(Cp.PLUGIN_MESSAGE_FROM_CLIENT_ID, buf);
    Ok(PluginMessageFromClientPacket(m))
  }

  function ReadKnownPacksPacket(buf: seq<byte>): (r: Result<Packet>)
    ensures r.Ok? ==> KindOf(r.value) == ClientKnownPacks
  {
    var entries :- Cp.ReadKnownPacks(Cp.KNOWN_PACKS_ID, buf);
    Ok(ClientKnownPacksPacket(entries))
  }

  /** `write_to`: the payload bytes of a packet.  A serverbound type
      panics; so do the clientbound writers that unwrap a conversion. */
  function WriteTo(p: Packet): (r: Result<seq<byte>>)
    ensures !Encodable(KindOf(p)) ==> r == Err(Panic(Unimplemented))
    ensures r.Err? ==> IsPanic(r)
  {
    if !Encodable(KindOf(p)) then Err(Panic(Unimplemented))
    else match p
    case HandshakePacket(h) => Ok(Hs.Write(h))
    case StatusRequestPacket => Ok([])
    case StatusPingPacket(v) => Ok(Sp.WritePing(v))
    case StatusResponsePacket(json) => Ok(Sp.WriteResponse(json))
    case StatusPongPacket(v) => Ok(Sp.WritePong(v))
    case LoginAcknowledgedPacket => Ok(Lp.WriteAck())
    case LoginSuccessPacket(profile) => Ok(Lp.WriteSuccess(profile))
    case PluginMessageToClientPacket(m) => Cp.WritePluginMessage(m)
    case SelectKnownPacksPacket(entries) => Cp.WriteSelectKnownPacks(entries)
    case FinishConfigurationPacket => Ok(Cp.WriteFinish())
    case _ => Err(Panic(Unimplemented))
  }

  /** `downcast_packet::<K>`: the packet itself when its concrete type is
      `K`, an error otherwise. */
  function Downcast(p: Packet, k: Kind): (r: Result<Packet>)
    ensures r.Ok? <==> KindOf(p) == k
    ensures r.Ok? ==> r.value == p
    ensures r.Err? ==> r.error == DowncastFailed
  {
    if KindOf(p) == k then Ok(p) else Err(DowncastFailed)
  }

  /** What `read_from` of type `k` hands back downcasts to `k` and to no
      other type. */
  lemma {:induction false} DowncastAfterRead(k: Kind, other: Kind, id: u32, buf: seq<byte>)
    requires ReadFrom(k, id, buf).Ok?
    ensures Downcast(ReadFrom(k, id, buf).value, k) == ReadFrom(k, id, buf)
    ensures other != k ==> Downcast(ReadFrom(k, id, buf).value, other) == Err(DowncastFailed)
  {
  }

  // ------------------------------------------------------------ layouts

  /** The bytes a client sends for a serverbound packet, field by field as
      its reader takes them apart; `None` for clientbound packets and for
      payloads no writer can produce. */
  function Layout(p: Packet): (r: Option<seq<byte>>)
  {
    match p
    case HandshakePacket(h) => Some(Hs.Write(h))
    case StatusRequestPacket => Some([])
    case StatusPingPacket(v) => Some(Sp.WritePing(v))
    case LoginStartPacket(profile) => Some(Lp.StartLayout(profile))
    case LoginAcknowledgedPacket => Some([])
    case ClientInformationPacket(info) => Some(Cp.ClientInfoLayout(Wire(info)))
    case PluginMessageFromClientPacket(m) =>
      if |m.data| < TWO_32 then Some(WriteString(m.channel) + (WriteVarint(|m.data|) + m.data)) else None
    case ClientKnownPacksPacket(entries) =>
      var w := Cp.WriteSelectKnownPacks(entries);
      if w.Ok? then Some(w.value) else None
    case FinishConfigurationPacket => Some([])
    case _ => None
  }

  /** Only a type the server decodes has a client layout. */
  lemma {:induction false} LayoutOnlyServerbound(p: Packet)
    ensures Layout(p).Some? ==> Decodable(KindOf(p))
  {
  }

  /** Client information as a client sends it: the signed fields as the
      VarInt of their 32-bit two's-complement pattern. */
  function Wire(info: Cp.ClientInformation): (w: Cp.ClientInfoWire)
    ensures AsI8(w.viewDistance) == info.viewDistance
    ensures AsI32(w.chatMode) == info.chatMode && AsI32(w.mainHand) == info.mainHand
  {
    SignedPattern(info.viewDistance);
    SignedPattern(info.chatMode);
    SignedPattern(info.mainHand);
    Cp.ClientInfoWire(info.locale, AsU32(info.viewDistance), AsU32(info.chatMode), info.chatColors,
                      info.skinParts, AsU32(info.mainHand), info.textFiltering, info.serverListing)
  }

  /** A signed 32-bit value survives the trip through its unsigned bit
      pattern, and so does a signed 8-bit value. */
  lemma {:induction false} SignedPattern(v: i32)
    ensures AsI32(AsU32(v)) == v
    ensures -0x80 <= v < 0x80 ==> AsI8(AsU32(v)) == v
  {
    if v < 0 {
      assert AsU32(v) == v + TWO_32;
      assert (v + TWO_32) % TWO_8 == (v + TWO_8) % TWO_8 by {
        assert v + TWO_32 == (v + TWO_8) + (TWO_32 - TWO_8);
        assert (TWO_32 - TWO_8) % TWO_8 == 0;
      }
    }
  }

  /** The string and list fields of a packet fit the VarInt lengths its
      layout prefixes them with, and a handshake asks for a state its
      reader accepts. */
  predicate Fits(p: Packet) {
    match p
    case HandshakePacket(h) => Hs.Requestable(h.nextState) && |h.serverAddress| < TWO_32
    case LoginStartPacket(profile) => |profile.username| < TWO_32
    case ClientInformationPacket(info) => |info.locale| < TWO_32
    case PluginMessageFromClientPacket(m) => |m.channel| < TWO_32
    case PluginMessageToClientPacket(m) => |m.channel| < TWO_32
    case ClientKnownPacksPacket(entries) => Cp.ShortEntries(entries)
    case SelectKnownPacksPacket(entries) => Cp.ShortEntries(entries)
    case _ => true
  }

  /** Every serverbound packet decodes from its layout under its own id. */
  lemma {:induction false} LayoutRoundTrip(p: Packet)
    requires Fits(p) && Layout(p).Some?
    ensures ReadFrom(KindOf(p), PacketId(p), Layout(p).value) == Ok(p)
  {
    if p.ClientInformationPacket? || p.PluginMessageFromClientPacket? || p.ClientKnownPacksPacket? {
      LateLayoutRoundTrip(p);
    } else {
      EarlyLayoutRoundTrip(p);
    }
  }

  lemma {:induction false} EarlyLayoutRoundTrip(p: Packet)
    requires Fits(p) && Layout(p).Some?
    requires !(p.ClientInformationPacket? || p.PluginMessageFromClientPacket? || p.ClientKnownPacksPacket?)
    ensures ReadFrom(KindOf(p), PacketId(p), Layout(p).value) == Ok(p)
  {
    match p
    case HandshakePacket(h) => HandshakeLayout(h);
    case StatusPingPacket(v) => PingLayout(v);
    case LoginStartPacket(profile) => StartLayout(profile);
    case _ =>
  }

  lemma {:induction false} LateLayoutRoundTrip(p: Packet)
    requires Fits(p) && Layout(p).Some?
    requires p.ClientInformationPacket? || p.PluginMessageFromClientPacket? || p.ClientKnownPacksPacket?
    ensures ReadFrom(KindOf(p), PacketId(p), Layout(p).value) == Ok(p)
  {
    match p
    case ClientInformationPacket(info) => InfoLayout(info);
    case PluginMessageFromClientPacket(m) => PluginLayout(m);
    case ClientKnownPacksPacket(entries) => KnownPacksLayout(entries);
  }

  lemma {:induction false} WholeBuffer(buf: seq<byte>)
    ensures At(buf, 0, buf)
  {
    assert buf[0..|buf|] == buf;
  }

  lemma {:induction false} HandshakeLayout(h: Hs.HandshakePacket)
    requires Hs.Requestable(h.nextState) && |h.serverAddress| < TWO_32
    ensures ReadFrom(Handshake, Hs.ID, Hs.Write(h)) == Ok(HandshakePacket(h))
  {
    WholeBuffer(Hs.Write(h));
    Hs.RoundTrip(h, Hs.Write(h));
    ReadsHandshake(Hs.Write(h), h);
  }

  lemma {:induction false} PingLayout(v: u64)
    ensures ReadFrom(StatusPing, Sp.PING_ID, Sp.WritePing(v)) == Ok(StatusPingPacket(v))
  {
    Sp.PingRoundTrip(v, []);
    assert Sp.WritePing(v) + [] == Sp.WritePing(v);
  }

  lemma {:induction false} StartLayout(profile: Lp.Profile)
    requires |profile.username| < TWO_32
    ensures ReadFrom(LoginStart, Lp.START_ID, Lp.StartLayout(profile)) == Ok(LoginStartPacket(profile))
  {
    WholeBuffer(Lp.StartLayout(profile));
    Lp.StartRoundTrip(profile, Lp.StartLayout(profile));
  }

  lemma {:induction false} InfoLayout(info: Cp.ClientInformation)
    requires |info.locale| < TWO_32
    ensures ReadFrom(ClientInformation, Cp.CLIENT_INFO_ID, Cp.ClientInfoLayout(Wire(info))) == Ok(ClientInformationPacket(info))
  {
    var buf := Cp.ClientInfoLayout(Wire(info));
    WholeBuffer(buf);
    Cp.ClientInfoRoundTrip(Wire(info), buf);
  }

  lemma {:induction false} PluginLayout(m: Cp.PluginMessage)
    requires |m.channel| < TWO_32 && |m.data| < TWO_32
    ensures ReadFrom(PluginMessageFromClient, Cp.PLUGIN_MESSAGE_FROM_CLIENT_ID,
                     WriteString(m.channel) + (WriteVarint(|m.data|) + m.data)) == Ok(PluginMessageFromClientPacket(m))
  {
    var buf := Cp.WritePluginMessage(m).value;
    WholeBuffer(buf);
    Cp.PluginMessageRoundTrip(m, buf);
  }

  lemma {:induction false} KnownPacksLayout(entries: seq<Cp.KnownPack>)
    requires Cp.ShortEntries(entries) && Cp.WriteSelectKnownPacks(entries).Ok?
    ensures ReadFrom(ClientKnownPacks, Cp.KNOWN_PACKS_ID, Cp.WriteSelectKnownPacks(entries).value)
         == Ok(ClientKnownPacksPacket(entries))
  {
    var buf := Cp.WriteSelectKnownPacks(entries).value;
    WholeBuffer(buf);
    Cp.KnownPacksRoundTrip(entries, buf);
    ReadsKnownPacks(buf, entries);
  }

  lemma {:induction false} ReadsKnownPacks(buf: seq<byte>, entries: seq<Cp.KnownPack>)
    requires Cp.ReadKnownPacks(Cp.KNOWN_PACKS_ID, buf) == Ok(entries)
    ensures ReadFrom(ClientKnownPacks, Cp.KNOWN_PACKS_ID, buf) == Ok(ClientKnownPacksPacket(entries))
  {
  }

  lemma {:induction false} ReadsHandshake(buf: seq<byte>, h: Hs.HandshakePacket)
    requires Hs.Read(Hs.ID, buf) == Ok(h)
    ensures ReadFrom(Handshake, Hs.ID, buf) == Ok(HandshakePacket(h))
  {
  }

  /** The writers the server has for serverbound packets produce exactly the
      layout their readers expect. */
  lemma {:induction false} WriterMatchesLayout(p: Packet)
    requires Layout(p).Some? && Encodable(KindOf(p))
    ensures WriteTo(p) == Ok(Layout(p).value)
  {
  }

  /** The serverbound packet that shares a clientbound packet's layout:
      a ping for a pong, the serverbound plugin message for the clientbound
      one, and the client's known-pack list for the server's selection. */
  function Mirror(p: Packet): (r: Option<Packet>)
    ensures r.Some? ==> !Decodable(KindOf(p)) && Decodable(KindOf(r.value))
  {
    match p
    case StatusPongPacket(v) => Some(StatusPingPacket(v))
    case PluginMessageToClientPacket(m) => Some(PluginMessageFromClientPacket(m))
    case SelectKnownPacksPacket(entries) => Some(ClientKnownPacksPacket(entries))
    case _ => None
  }

  /** A clientbound packet and its mirror are written the same way, so
      what the server writes the serverbound decoder reads back as the
      mirror packet. */
  lemma {:induction false} MirrorRoundTrip(p: Packet)
    requires Mirror(p).Some? && Fits(p)
    ensures WriteTo(p).Ok? <==> Layout(Mirror(p).value).Some?
    ensures WriteTo(p).Ok? ==> WriteTo(p).value == Layout(Mirror(p).value).value
    ensures WriteTo(p).Ok? ==>
              ReadFrom(KindOf(Mirror(p).value), PacketId(Mirror(p).value), WriteTo(p).value) == Ok(Mirror(p).value)
  {
    var m := Mirror(p).value;
    assert Fits(m);
    if WriteTo(p).Ok? {
      LayoutRoundTrip(m);
    }
  }

  // ------------------------------------------------------------- tables

  /** The types each state's decoder table lists, in match order: the
      handshake arm of `PlayerConnection::read_packet` and the
      `read_packet` functions of the status, login and configuration
      modules.  Play and Transfer have none. */
  function Table(s: CS.State): (r: seq<Kind>)
    ensures forall i, j :: 0 <= i < j < |r| ==> KindId(r[i]) != KindId(r[j])
    ensures forall k :: k in r ==> Decodable(k)
    ensures s == CS.Play || s == CS.Transfer ==> r == []
  {
    match s
    case Handshake => [Handshake]
    case Status => [StatusRequest, StatusPing]
    case Login => [LoginStart, LoginAcknowledged]
    case Configuration => [ClientInformation, PluginMessageFromClient]
    case _ => []
  }

  /** The arm of a state's table an id selects. */
  function KindFor(s: CS.State, id: u32): (r: Option<Kind>)
    ensures r.Some? ==> r.value in Table(s) && KindId(r.value) == id
  {
    match s
    case Handshake => if id == 0x00 then Some(Handshake) else None
    case Status => if id == 0x00 then Some(StatusRequest) else if id == 0x01 then Some(StatusPing) else None
    case Login => if id == 0x00 then Some(LoginStart) else if id == 0x03 then Some(LoginAcknowledged) else None
    case Configuration =>
      if id == 0x00 then Some(ClientInformation) else if id == 0x02 then Some(PluginMessageFromClient) else None
    case _ => None
  }

  /** The ids of a table are distinct, so every listed type is reached by
      its own id. */
  lemma {:induction false} TableComplete(s: CS.State, k: Kind)
    requires k in Table(s)
    ensures KindFor(s, KindId(k)) == Some(k)
  {
  }

  /** Every type of a table is one the server can decode. */
  lemma {:induction false} TablesDecodable(s: CS.State, k: Kind)
    requires k in Table(s)
    ensures Decodable(k) && !Encodable(k) == (k in [LoginStart, ClientInformation, PluginMessageFromClient])
  {
  }

  /** The `match *self.state` of `PlayerConnection::read_packet`: the
      state's table decodes the frame, an id outside the table is refused,
      and Play and Transfer reach `todo!()`. */
  function Decode(s: CS.State, id: u32, buf: seq<byte>): (r: Result<Packet>)
    ensures s == CS.Play || s == CS.Transfer ==> r == Err(Panic(Todo))
    ensures s != CS.Play && s != CS.Transfer && KindFor(s, id).None? ==> r == Err(UnknownPacketId(CS.Id(s), id))
    ensures r.Ok? ==> KindOf(r.value) in Table(s) && PacketId(r.value) == id
  {
    if s == CS.Play || s == CS.Transfer then Err(Panic(Todo))
    else
      match KindFor(s, id)
      case None => Err(UnknownPacketId(CS.Id(s), id))
      case Some(k) => ReadFrom(k, id, buf)
  }

  /** A packet of a state's table, sent with its layout, decodes in that
      state. */
  lemma {:induction false} DecodeRoundTrip(s: CS.State, p: Packet)
    requires KindOf(p) in Table(s) && Fits(p) && Layout(p).Some?
    ensures Decode(s, PacketId(p), Layout(p).value) == Ok(p)
  {
    TableComplete(s, KindOf(p));
    LayoutRoundTrip(p);
  }

  /** The id 0x07 of the client's known-pack list is missing from the
      Configuration table, so that packet is never decoded. */
  lemma {:induction false} KnownPacksNotDecoded(buf: seq<byte>)
    ensures Decode(CS.Configuration, Cp.KNOWN_PACKS_ID, buf) == Err(UnknownPacketId(5, 0x07))
  {
  }

  // ------------------------------------------------------------- events

  /** The types `dispatch_packet_event!` raises an event for in each
      state. */
  function EventTable(s: CS.State): (r: seq<Kind>)
    ensures forall k :: k in r ==> k in Table(s)
    ensures forall i, j :: 0 <= i < j < |r| ==> r[i] != r[j]
    ensures s == CS.Configuration ==> r == []
  {
    match s
    case Handshake => [Handshake]
    case Status => [StatusRequest]
    case Login => [LoginStart, LoginAcknowledged]
    case _ => []
  }

  /** The events one decoded packet raises: one per listed type whose id
      the packet has and to which it downcasts. */
  function EventsFor(kinds: seq<Kind>, p: Packet): (r: seq<Packet>)
    ensures forall i :: 0 <= i < |r| ==> r[i] == p
  {
    if |kinds| == 0 then []
    else (if PacketId(p) == KindId(kinds[0]) && KindOf(p) == kinds[0] then [p] else []) + EventsFor(kinds[1..], p)
  }

  /** `dispatch_packet_event!` for a packet decoded in state `s`. */
  function Dispatch(s: CS.State, p: Packet): (r: seq<Packet>)
    ensures |r| <= 1
    ensures forall e :: e in r ==> e == p
  {
    EventsForCount(EventTable(s), p);
    EventsFor(EventTable(s), p)
  }

  /** Over a list without repeated types, a packet raises one event when
      its type is listed and none otherwise. */
  lemma {:induction false} EventsForCount(kinds: seq<Kind>, p: Packet)
    requires forall i, j :: 0 <= i < j < |kinds| ==> kinds[i] != kinds[j]
    ensures |EventsFor(kinds, p)| == if KindOf(p) in kinds then 1 else 0
  {
    if |kinds| > 0 {
      EventsForCount(kinds[1..], p);
      assert KindOf(p) in kinds <==> KindOf(p) == kinds[0] || KindOf(p) in kinds[1..];
    }
  }

  /** A packet raises exactly one event when the state's event table lists
      its type, and none otherwise; a Configuration packet never raises
      one. */
  lemma {:induction false} DispatchOnce(s: CS.State, p: Packet)
    ensures Dispatch(s, p) == if KindOf(p) in EventTable(s) then [p] else []
  {
    EventsForCount(EventTable(s), p);
    var r := Dispatch(s, p);
    if |r| == 1 {
      assert r == [p];
    }
  }
}
