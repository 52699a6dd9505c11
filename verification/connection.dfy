/** `PlayerConnection` of `rustmine_server/src/player.rs`, as an immutable
    record.  The socket becomes two logs: `inbound` holds, in order, what
    each raw read of the stream would return (a frame or a read error), and
    `sent` collects the packets written.  `events` collects the packets for
    which `dispatch_packet_event!` raised a `PlayerSentPacket` event; what
    the listeners then do is the event bus's business (`EventBus`). */
module Connection {
  import opened Ints
  import opened Wrappers
  import opened Utf8
  import opened ConnState
  import P = Packets
  import Lp = Login
  import Cp = Configuration
  import Frame

  /** `PlayerClientInfo`. */
  datatype ClientInfo = ClientInfo(
    brand: Str,
    locale: Str,
    viewDistance: i8,
    chatMode: i32,
    chatColors: bool,
    skinParts: byte,
    mainHand: byte,
    textFiltering: bool,
    serverListing: bool)

  /** `PlayerClientInfo::default`: empty strings, zeros and `false`. */
  function DefaultInfo(): (i: ClientInfo)
    ensures |i.brand| == 0 && |i.locale| == 0
    ensures i.viewDistance == 0 && i.chatMode == 0 && i.skinParts == 0 && i.mainHand == 0
    ensures !i.chatColors && !i.textFiltering && !i.serverListing
  {
    ClientInfo([], [], 0, 0, false, 0, 0, false, false)
  }

  datatype Conn = Conn(
    state: State,
    threshold: u32,
    profile: Option<Lp.Profile>,
    info: ClientInfo,
    inbound: seq<Result<Frame.RawPacket>>,
    sent: seq<P.Packet>,
    events: seq<P.Packet>)

  /** The connection after an operation, and what the operation returned.
      Effects that happened before a failure are kept in `conn`. */
  datatype Step<T> = Step(conn: Conn, result: Result<T>)

  /** `PlayerConnection::new`. */
  function New(inbound: seq<Result<Frame.RawPacket>>): (c: Conn)
    ensures c.state == Handshake && c.threshold == 0
    ensures c.profile == None && c.info == DefaultInfo()
    ensures c.inbound == inbound && c.sent == [] && c.events == []
  {
    Conn(Handshake, 0, None, DefaultInfo(), inbound, [], [])
  }

  /** The fields only a handler's own logic changes: the state, the
      threshold, the profile, the client information and the sent log. */
  predicate SameSession(a: Conn, b: Conn) {
    a.state == b.state && a.threshold == b.threshold && a.profile == b.profile && a.info == b.info && a.sent == b.sent
  }

  /** `PlayerConnection::read_packet`: take the next frame, decode it with
      the current state's table, recheck the decoded id against the
      frame's, then raise the events the state's event table lists. */
  function ReadPacket(c: Conn): (r: Step<P.Packet>)
    ensures |c.inbound| == 0 ==> r == Step(c, Err(ConnectionClosed))
    ensures |c.inbound| > 0 ==> r.conn.inbound == c.inbound[1..]
    ensures SameSession(c, r.conn)
    ensures r.result.Ok? ==>
              |c.inbound| > 0 && c.inbound[0].Ok? &&
              r.result == P.Decode(c.state, c.inbound[0].value.id, c.inbound[0].value.data)
    ensures r.result.Ok? ==> P.KindOf(r.result.value) in P.Table(c.state)
    ensures r.conn.events == c.events + if r.result.Ok? then P.Dispatch(c.state, r.result.value) else []
  {
    if |c.inbound| == 0 then Step(c, Err(ConnectionClosed))
    else
      var rest := c.(inbound := c.inbound[1..]);
      match c.inbound[0]
      case Err(e) => Step(rest, Err(e))
      case Ok(raw) =>
        var decoded := P.Decode(c.state, raw.id, raw.data);
        if decoded.Err? then Step(rest, decoded)
        else
          var got := P.PacketId(decoded.value);
          if got != raw.id then Step(rest, Err(IdMismatch(got, raw.id)))
        else Step(rest.(events := rest.events + P.Dispatch(c.state, decoded.value)), decoded)
  }

  /** Whatever the next frame holds, reading it fails exactly when the frame
      is a read error or the state's table refuses it: the recheck of the
      decoded id never fires, because every decoder checks the id first. */
  lemma {:induction false} ReadPacketFailsOnlyInDecode(c: Conn)
    requires |c.inbound| > 0
    ensures c.inbound[0].Err? ==> ReadPacket(c).result == Err(c.inbound[0].error)
    ensures c.inbound[0].Ok? ==>
              ReadPacket(c).result == P.Decode(c.state, c.inbound[0].value.id, c.inbound[0].value.data)
  {
  }

  /** `PlayerConnection::write_packet`: the payload comes from `write_to`,
      whose panic ends the connection; the framing is `Frame.WriteFrame`
      with the connection's threshold. */
  function WritePacket(c: Conn, p: P.Packet): (r: Step<()>)
    ensures r.result.Ok? <==> P.WriteTo(p).Ok?
    ensures r.result.Ok? ==> r.conn == c.(sent := c.sent + [p])
    ensures r.result.Err? ==> r.conn == c && IsPanic(r.result)
  {
    match P.WriteTo(p)
    case Ok(_) => Step(c.(sent := c.sent + [p]), Ok(()))
    case Err(e) => Step(c, Err(e))
  }

  /** The bytes a written packet goes out as. */
  function WireBytes(c: Conn, p: P.Packet, z: Frame.Zlib): (r: Option<seq<byte>>)
    ensures r.Some? <==> P.WriteTo(p).Ok?
  {
    match P.WriteTo(p)
    case Ok(payload) => Some(Frame.WriteFrame(P.PacketId(p), payload, c.threshold, z))
    case Err(_) => None
  }

  /** The client information `update_client_info` records: the brand and
      every field of the client's packet, the main hand cast `as u8`. */
  function Recorded(brand: Str, info: Cp.ClientInformation): (i: ClientInfo)
    ensures i.brand == brand && i.locale == info.locale
    ensures i.viewDistance == info.viewDistance && i.chatMode == info.chatMode
    ensures i.chatColors == info.chatColors && i.skinParts == info.skinParts
    ensures i.mainHand == AsU8(info.mainHand)
    ensures i.textFiltering == info.textFiltering && i.serverListing == info.serverListing
  {
    ClientInfo(brand, info.locale, info.viewDistance, info.chatMode, info.chatColors,
               info.skinParts, AsU8(info.mainHand), info.textFiltering, info.serverListing)
  }

  /** `PlayerConnection::update_client_info`: the brand message must be on
      the brand channel and carry UTF-8; then the client information is
      replaced and nothing else changes. */
  function UpdateClientInfo(c: Conn, info: Cp.ClientInformation, m: Cp.PluginMessage): (r: Step<()>)
    ensures m.channel != Cp.BrandChannel() ==> r == Step(c, Err(WrongChannel))
    ensures m.channel == Cp.BrandChannel() && !Valid(m.data) ==> r == Step(c, Err(InvalidBrand))
    ensures r.result.Ok? <==> m.channel == Cp.BrandChannel() && Valid(m.data)
    ensures r.result.Ok? ==> r == Step(c.(info := Recorded(m.data, info)), Ok(()))
  {
    if m.channel != Cp.BrandChannel() then Step(c, Err(WrongChannel))
    else if !Valid(m.data) then Step(c, Err(InvalidBrand))
    else Step(c.(info := Recorded(m.data, info)), Ok(()))
  }

  /** The server's own brand message (`brand_packet`), sent back by a
      client, is accepted and sets the brand. */
  lemma {:induction false} BrandPacketAccepted(c: Conn, info: Cp.ClientInformation, brand: Str)
    ensures UpdateClientInfo(c, info, Cp.BrandPacket(brand)).result.Ok?
    ensures UpdateClientInfo(c, info, Cp.BrandPacket(brand)).conn.info.brand == brand
  {
  }

  /** Updating twice with the same packets gives the same client
      information as updating once. */
  lemma {:induction false} UpdateIdempotent(c: Conn, info: Cp.ClientInformation, m: Cp.PluginMessage)
    ensures var once := UpdateClientInfo(c, info, m);
            UpdateClientInfo(once.conn, info, m).conn == once.conn
  {
  }

  /** `PlayerConnection::set_game_profile`. */
  function SetGameProfile(c: Conn, profile: Lp.Profile): (r: Conn)
    ensures r.profile == Some(profile)
    ensures r.state == c.state && r.info == c.info && r.inbound == c.inbound
    ensures r.sent == c.sent && r.events == c.events && r.threshold == c.threshold
  {
    c.(profile := Some(profile))
  }
}
