/** The exchanges a connection runs: the status exchange
    (`rustmine_server/src/packet/serverbound/status.rs`), login
    (`rustmine_server/src/packet/serverbound/login.rs`), configuration
    (`rustmine_server/src/packet/serverbound/configuration/mod.rs`), the
    handshake that picks one of them (`PlayerConnection::handle_handshake`)
    and the spawned task each accepted connection runs (`RustmineServer::run`). */
module Exchanges {
  import opened Ints
  import opened Wrappers
  import opened Utf8
  import opened Connection
  import CS = ConnState
  import P = Packets
  import Hs = Handshake
  import Sp = Status
  import Lp = Login
  import Cp = Configuration
  import Frame

  /** `.unwrap()` inside a connection task: an error becomes a panic, and a
      panic raised earlier is the one that ends the spawned task. */
  function Fatal<T>(r: Result<T>): (u: Result<T>)
    ensures u.Ok? <==> r.Ok?
    ensures r.Ok? ==> u == r
    ensures u.Err? ==> IsPanic(u)
    ensures IsPanic(r) ==> u == r
    ensures r.Err? && !IsPanic(r) ==> u == Err(Panic(UnwrapOnError))
  {
    if IsPanic(r) then r else r.Unwrap()
  }

  // ------------------------------------------------------------- status

  /** `handle_status_request`: a request must come first; then, if the next
      packet is a ping, its payload goes back in a pong.  Any other second
      packet ends the exchange without a reply. */
  function HandleStatus(c: Conn): (r: Step<()>)
    ensures r.conn.state == c.state && r.conn.threshold == c.threshold
    ensures r.conn.profile == c.profile && r.conn.info == c.info
    ensures r.conn.sent == c.sent || (|r.conn.sent| == |c.sent| + 1 && r.conn.sent[..|c.sent|] == c.sent
                                      && r.conn.sent[|c.sent|].StatusPongPacket?)
    ensures r.conn.sent != c.sent ==> r.result.Ok?
  {
    match ReadPacket(c)
    case Step(c1, Err(e)) => Step(c1, Err(e))
    case Step(c1, Ok(first)) =>
      if P.PacketId(first) != Sp.REQUEST_ID then Step(c1, Err(UnexpectedPacket)) else AnswerPing(c1)
  }

  /** The second half of `handle_status_request`: a ping is answered with a
      pong carrying its payload. */
  function AnswerPing(c: Conn): (r: Step<()>)
    ensures r.conn.state == c.state && r.conn.threshold == c.threshold
    ensures r.conn.profile == c.profile && r.conn.info == c.info
    ensures r.conn.sent == c.sent || (ReadPacket(c).result.Ok? && ReadPacket(c).result.value.StatusPingPacket?
                                      && r.conn.sent == c.sent + [P.StatusPongPacket(ReadPacket(c).result.value.ping)])
    ensures r.conn.sent != c.sent ==> r.result.Ok?
  {
    match ReadPacket(c)
    case Step(c1, Err(e)) => Step(c1, Err(e))
    case Step(c1, Ok(second)) =>
      match P.Downcast(second, P.StatusPing)
      case Ok(ping) => WritePacket(c1, P.StatusPongPacket(ping.ping))
      case Err(_) => Step(c1, Ok(()))
  }

  /** A status exchange that does not start with a request (a ping sent
      first) is refused before anything is sent. */
  lemma {:induction false} StatusNeedsRequest(c: Conn)
    requires ReadPacket(c).result.Ok? && P.PacketId(ReadPacket(c).result.value) != Sp.REQUEST_ID
    ensures HandleStatus(c) == Step(ReadPacket(c).conn, Err(UnexpectedPacket))
  {
  }

  /** `handle_status_request` once its first read yields a request. */
  lemma {:induction false} StatusReadsRequest(c: Conn, c1: Conn)
    requires ReadPacket(c) == Step(c1, Ok(P.StatusRequestPacket))
    ensures HandleStatus(c) == AnswerPing(c1)
  {
  }

  /** The second half once its read yields a ping. */
  lemma {:induction false} StatusReadsPing(c: Conn, c1: Conn, v: u64)
    requires ReadPacket(c) == Step(c1, Ok(P.StatusPingPacket(v)))
    ensures AnswerPing(c) == Step(c1.(sent := c1.sent + [P.StatusPongPacket(v)]), Ok(()))
  {
    assert P.Downcast(P.StatusPingPacket(v), P.StatusPing) == Ok(P.StatusPingPacket(v));
  }

  // -------------------------------------------------------------- login

  /** `handle_login`: the first packet must be a login start (anything else
      panics in `unwrap`); the server answers with a login success for the
      same name and UUID, records the profile, and then expects the
      acknowledgement. */
  function HandleLogin(c: Conn): (r: Step<()>)
    ensures r.conn.state == c.state && r.conn.threshold == c.threshold && r.conn.info == c.info
    ensures r.conn.sent == c.sent || (r.conn.profile.Some? && r.conn.sent == c.sent + [P.LoginSuccessPacket(r.conn.profile.value)])
    ensures r.conn.profile != c.profile ==> r.conn.sent != c.sent
    ensures r.result.Ok? ==> r.conn.profile.Some? && r.conn.sent == c.sent + [P.LoginSuccessPacket(r.conn.profile.value)]
  {
    match ReadPacket(c)
    case Step(c1, Err(e)) => Step(c1, Err(e))
    case Step(c1, Ok(first)) =>
      match P.Downcast(first, P.LoginStart).Unwrap()
      case Err(e) => Step(c1, Err(e))
      case Ok(start) =>
        var profile := start.start;
        match WritePacket(c1, P.LoginSuccessPacket(profile))
        case Step(c2, Err(e)) => Step(c2, Err(e))
        case Step(c2, Ok(_)) => AwaitAck(SetGameProfile(c2, profile))
  }

  /** The end of `handle_login`: the next packet must be the
      acknowledgement. */
  function AwaitAck(c: Conn): (r: Step<()>)
    ensures r.conn == ReadPacket(c).conn
    ensures r.result.Ok? <==> ReadPacket(c).result.Ok? && P.PacketId(ReadPacket(c).result.value) == Lp.ACK_ID
  {
    match ReadPacket(c)
    case Step(c1, Err(e)) => Step(c1, Err(e))
    case Step(c1, Ok(second)) =>
      if P.PacketId(second) != Lp.ACK_ID then Step(c1, Err(UnexpectedPacket)) else Step(c1, Ok(()))
  }

  /** A login that opens with anything but a login start panics, before
      anything is sent or recorded. */
  lemma {:induction false} LoginNeedsStart(c: Conn)
    requires ReadPacket(c).result.Ok? && P.KindOf(ReadPacket(c).result.value) != P.LoginStart
    ensures HandleLogin(c) == Step(ReadPacket(c).conn, Err(Panic(UnwrapOnError)))
  {
  }

  /** `handle_login` once its first read yields a login start. */
  lemma {:induction false} LoginReadsStart(c: Conn, c1: Conn, profile: Lp.Profile)
    requires ReadPacket(c) == Step(c1, Ok(P.LoginStartPacket(profile)))
    ensures HandleLogin(c) == AwaitAck(SetGameProfile(c1.(sent := c1.sent + [P.LoginSuccessPacket(profile)]), profile))
  {
    assert P.Downcast(P.LoginStartPacket(profile), P.LoginStart).Unwrap() == Ok(P.LoginStartPacket(profile));
  }

  // ------------------------------------------------------ configuration

  /** `handle_configuration`: a plugin message and then the client
      information, each unwrapped, feed `update_client_info`.  Nothing is
      sent. */
  function HandleConfiguration(c: Conn): (r: Step<()>)
    ensures r.conn.state == c.state && r.conn.threshold == c.threshold
    ensures r.conn.profile == c.profile && r.conn.sent == c.sent
    ensures r.conn.info != c.info ==> r.result.Ok?
  {
    match ReadPacket(c)
    case Step(c1, Err(e)) => Step(c1, Err(e))
    case Step(c1, Ok(first)) =>
      match P.Downcast(first, P.PluginMessageFromClient).Unwrap()
      case Err(e) => Step(c1, Err(e))
      case Ok(plugin) => ConfigureWith(c1, plugin.fromClient)
  }

  /** The second half of `handle_configuration`, once the plugin message
      `m` is in hand. */
  function ConfigureWith(c: Conn, m: Cp.PluginMessage): (r: Step<()>)
    ensures r.conn.state == c.state && r.conn.threshold == c.threshold
    ensures r.conn.profile == c.profile && r.conn.sent == c.sent
    ensures r.conn.info != c.info ==> r.result.Ok? && r.conn.info.brand == m.data
  {
    match ReadPacket(c)
    case Step(c1, Err(e)) => Step(c1, Err(e))
    case Step(c1, Ok(second)) =>
      match P.Downcast(second, P.ClientInformation).Unwrap()
      case Err(e) => Step(c1, Err(e))
      case Ok(info) => UpdateClientInfo(c1, info.info, m)
  }

  /** Client information sent before the brand message panics. */
  lemma {:induction false} ConfigurationNeedsPluginMessage(c: Conn)
    requires ReadPacket(c).result.Ok? && P.KindOf(ReadPacket(c).result.value) != P.PluginMessageFromClient
    ensures HandleConfiguration(c) == Step(ReadPacket(c).conn, Err(Panic(UnwrapOnError)))
  {
  }

  /** `handle_configuration` once its first read yields a plugin message. */
  lemma {:induction false} ConfigurationReadsPlugin(c: Conn, c1: Conn, m: Cp.PluginMessage)
    requires ReadPacket(c) == Step(c1, Ok(P.PluginMessageFromClientPacket(m)))
    ensures HandleConfiguration(c) == ConfigureWith(c1, m)
  {
  }

  /** The second half of `handle_configuration` once its read yields the
      client information. */
  lemma {:induction false} ConfigurationReadsInfo(c: Conn, c1: Conn, m: Cp.PluginMessage, info: Cp.ClientInformation)
    requires ReadPacket(c) == Step(c1, Ok(P.ClientInformationPacket(info)))
    ensures ConfigureWith(c, m) == UpdateClientInfo(c1, info, m)
  {
    assert P.Downcast(P.ClientInformationPacket(info), P.ClientInformation).Unwrap() == Ok(P.ClientInformationPacket(info));
  }

  // ---------------------------------------------------------- handshake

  /** `handle_handshake`.  Status propagates the status exchange's result.
      Login moves to Configuration after a login and to Play after a
      configuration; a failed login or configuration leaves the state where
      it was and still returns `Ok` (the source tests `is_ok()`), but a panic
      inside them ends the spawned task.  Any other requested state is refused. */
  function HandleHandshake(c: Conn, h: Hs.HandshakePacket): (r: Step<()>)
    ensures h.nextState != CS.Status && h.nextState != CS.Login ==> r == Step(c, Err(InvalidNextState))
    ensures h.nextState == CS.Status ==> r.conn.state == CS.Status
    ensures h.nextState == CS.Login ==> r.result.Ok? || IsPanic(r.result)
    ensures h.nextState == CS.Login ==> r.conn.state in {CS.Login, CS.Configuration, CS.Play}
    ensures r.conn.threshold == c.threshold
    ensures h.nextState == CS.Login && r.conn.state == CS.Play ==>
              r.result.Ok? && r.conn.profile.Some? && r.conn.sent == c.sent + [P.LoginSuccessPacket(r.conn.profile.value)]
  {
    match h.nextState
    case Status => HandleStatus(c.(state := CS.Status))
    case Login =>
      var login := HandleLogin(c.(state := CS.Login));
      if IsPanic(login.result) then login
      else if login.result.Err? then Step(login.conn, Ok(()))
      else
        var config := HandleConfiguration(login.conn.(state := CS.Configuration));
        if IsPanic(config.result) then config
        else if config.result.Err? then Step(config.conn, Ok(()))
        else Step(config.conn.(state := CS.Play), Ok(()))
    case _ => Step(c, Err(InvalidNextState))
  }

  /** The connection task of `RustmineServer::run`: read the handshake,
      downcast it and run it, unwrapping each step. */
  function Accept(inbound: seq<Result<Frame.RawPacket>>): (r: Step<()>)
    ensures r.result.Err? ==> IsPanic(r.result)
    ensures r.conn.threshold == 0
    ensures |inbound| == 0 ==> r.result == Err(Panic(UnwrapOnError))
  {
    match ReadPacket(New(inbound))
    case Step(c, Err(e)) => Step(c, Fatal(Err(e)))
    case Step(c, Ok(p)) =>
      match P.Downcast(p, P.Handshake).Unwrap()
      case Err(e) => Step(c, Err(e))
      case Ok(hp) =>
        var r := HandleHandshake(c, hp.handshake);
        Step(r.conn, Fatal(r.result))
  }

  // ---------------------------------------------------------- scenarios

  /** What the connection reads for a serverbound packet a client sends
      with its layout: `read_packet` of the frame `write_packet` builds with
      compression off (`SendsIsFramed`).  A packet without a layout stands
      for a stream that ends. */
  function Sends(p: P.Packet): (r: Result<Frame.RawPacket>)
    ensures P.Layout(p).Some? ==> r.Ok? && r.value.id == P.PacketId(p) && r.value.data == P.Layout(p).value
  {
    match P.Layout(p)
    case Some(payload) => Ok(Frame.RawPacket(AsU32(|Frame.Body(P.PacketId(p), payload)|), P.PacketId(p), payload))
    case None => Err(ConnectionClosed)
  }

  /** The frame a client writes for `p` is read back as `Sends(p)`. */
  lemma {:induction false} SendsIsFramed(p: P.Packet, z: Frame.Zlib)
    requires P.Layout(p).Some? && |Frame.Body(P.PacketId(p), P.Layout(p).value)| < TWO_32
    ensures Frame.ReadPacketFromBytes(Frame.WriteFrame(P.PacketId(p), P.Layout(p).value, 0, z), 0, z) == Sends(p)
  {
    Frame.PlainRoundTrip(P.PacketId(p), P.Layout(p).value, z);
  }

  /** The client sent `packets`, in order, each with its layout, and they
      are the next frames of `inbound`. */
  predicate Carries(inbound: seq<Result<Frame.RawPacket>>, packets: seq<P.Packet>)
    decreases |packets|
  {
    |packets| <= |inbound| &&
    (|packets| == 0 ||
     (P.Layout(packets[0]).Some? && inbound[0] == Sends(packets[0]) && Carries(inbound[1..], packets[1..])))
  }

  /** Reading the next packet the client sent, when the state's table lists
      it. */
  lemma {:induction false} ReadsSent(c: Conn, packets: seq<P.Packet>)
    requires |packets| > 0 && Carries(c.inbound, packets)
    requires P.KindOf(packets[0]) in P.Table(c.state) && P.Fits(packets[0])
    ensures ReadPacket(c)
         == Step(c.(inbound := c.inbound[1..], events := c.events + P.Dispatch(c.state, packets[0])), Ok(packets[0]))
    ensures Carries(c.inbound[1..], packets[1..])
  {
    P.DecodeRoundTrip(c.state, packets[0]);
  }

  /** Dropping the first two of a list. */
  lemma {:induction false} DropTwo<T>(s: seq<T>)
    requires |s| >= 2
    ensures s[1..][1..] == s[2..]
  {
  }

  /** Appending two entries one by one. */
  lemma {:induction false} AppendTwo<T>(s: seq<T>, a: T, b: T)
    ensures s + [a] + [b] == s + [a, b]
  {
  }

  /** Five packets, as the handshake and two exchanges of two. */
  lemma {:induction false} Regroup<T>(a: T, b: T, c: T, d: T, e: T)
    ensures [a, b, c, d, e] == [a] + ([b, c] + ([d, e] + []))
  {
  }

  /** A request and a ping with payload `v`: the server answers with a pong
      carrying `v`, and the request raises its event. */
  lemma {:induction false} StatusExchange(c: Conn, v: u64, more: seq<P.Packet>)
    requires c.state == CS.Status && Carries(c.inbound, [P.StatusRequestPacket, P.StatusPingPacket(v)] + more)
    ensures |c.inbound| >= 2 && Carries(c.inbound[2..], more)
    ensures HandleStatus(c) == Step(c.(inbound := c.inbound[2..], sent := c.sent + [P.StatusPongPacket(v)],
                                       events := c.events + [P.StatusRequestPacket]), Ok(()))
  {
    var packets := [P.StatusRequestPacket, P.StatusPingPacket(v)] + more;
    ReadsSent(c, packets);
    P.DispatchOnce(c.state, P.StatusRequestPacket);
    var c1 := c.(inbound := c.inbound[1..], events := c.events + [P.StatusRequestPacket]);
    StatusReadsRequest(c, c1);
    assert packets[1..] == [P.StatusPingPacket(v)] + more;
    ReadsSent(c1, packets[1..]);
    P.DispatchOnce(c.state, P.StatusPingPacket(v));
    assert packets[1..][1..] == more;
    DropTwo(c.inbound);
    StatusReadsPing(c1, c1.(inbound := c.inbound[2..]), v);
  }

  /** A login start for `profile` opens a login: the server sends one
      login success for the profile, records it, raises the start's event,
      and waits for the acknowledgement. */
  lemma {:induction false} LoginStarts(c: Conn, profile: Lp.Profile, more: seq<P.Packet>)
    requires c.state == CS.Login && |profile.username| < TWO_32
    requires Carries(c.inbound, [P.LoginStartPacket(profile)] + more)
    ensures |c.inbound| >= 1 && Carries(c.inbound[1..], more)
    ensures HandleLogin(c) == AwaitAck(c.(inbound := c.inbound[1..], profile := Some(profile),
                                          sent := c.sent + [P.LoginSuccessPacket(profile)],
                                          events := c.events + [P.LoginStartPacket(profile)]))
  {
    var packets := [P.LoginStartPacket(profile)] + more;
    ReadsSent(c, packets);
    assert packets[1..] == more;
    P.DispatchOnce(c.state, P.LoginStartPacket(profile));
    var c1 := c.(inbound := c.inbound[1..], events := c.events + [P.LoginStartPacket(profile)]);
    LoginReadsStart(c, c1, profile);
  }

  /** The acknowledgement ends the login and raises its event. */
  lemma {:induction false} AckEndsLogin(c: Conn, more: seq<P.Packet>)
    requires c.state == CS.Login && Carries(c.inbound, [P.LoginAcknowledgedPacket] + more)
    ensures |c.inbound| >= 1 && Carries(c.inbound[1..], more)
    ensures AwaitAck(c) == Step(c.(inbound := c.inbound[1..], events := c.events + [P.LoginAcknowledgedPacket]), Ok(()))
  {
    var packets := [P.LoginAcknowledgedPacket] + more;
    ReadsSent(c, packets);
    assert packets[1..] == more;
    P.DispatchOnce(c.state, P.LoginAcknowledgedPacket);
  }

  /** A login start for `profile` and its acknowledgement: the server sends
      one login success for the profile, records it, and both packets raise
      their events. */
  lemma {:induction false} LoginExchange(c: Conn, profile: Lp.Profile, more: seq<P.Packet>)
    requires c.state == CS.Login && |profile.username| < TWO_32
    requires Carries(c.inbound, [P.LoginStartPacket(profile), P.LoginAcknowledgedPacket] + more)
    ensures |c.inbound| >= 2 && Carries(c.inbound[2..], more)
    ensures HandleLogin(c) == Step(c.(inbound := c.inbound[2..], profile := Some(profile),
                                      sent := c.sent + [P.LoginSuccessPacket(profile)],
                                      events := c.events + [P.LoginStartPacket(profile), P.LoginAcknowledgedPacket]),
                                   Ok(()))
  {
    assert [P.LoginStartPacket(profile), P.LoginAcknowledgedPacket] + more
        == [P.LoginStartPacket(profile)] + ([P.LoginAcknowledgedPacket] + more);
    LoginStarts(c, profile, [P.LoginAcknowledgedPacket] + more);
    var c2 := c.(inbound := c.inbound[1..], profile := Some(profile),
                 sent := c.sent + [P.LoginSuccessPacket(profile)],
                 events := c.events + [P.LoginStartPacket(profile)]);
    AckEndsLogin(c2, more);
    DropTwo(c.inbound);
    AppendTwo(c.events, P.LoginStartPacket(profile), P.LoginAcknowledgedPacket);
  }

  /** A plugin message opens the configuration. */
  lemma {:induction false} PluginMessageOpens(c: Conn, m: Cp.PluginMessage, more: seq<P.Packet>)
    requires c.state == CS.Configuration && |m.channel| < TWO_32
    requires Carries(c.inbound, [P.PluginMessageFromClientPacket(m)] + more)
    ensures |c.inbound| >= 1 && Carries(c.inbound[1..], more)
    ensures HandleConfiguration(c) == ConfigureWith(c.(inbound := c.inbound[1..]), m)
  {
    var packets := [P.PluginMessageFromClientPacket(m)] + more;
    ReadsSent(c, packets);
    assert packets[1..] == more;
    P.DispatchOnce(c.state, P.PluginMessageFromClientPacket(m));
    ConfigurationReadsPlugin(c, c.(inbound := c.inbound[1..]), m);
  }

  /** The client information completes it. */
  lemma {:induction false} InfoCompletes(c: Conn, m: Cp.PluginMessage, info: Cp.ClientInformation, more: seq<P.Packet>)
    requires c.state == CS.Configuration && |info.locale| < TWO_32
    requires Carries(c.inbound, [P.ClientInformationPacket(info)] + more)
    ensures |c.inbound| >= 1 && Carries(c.inbound[1..], more)
    ensures ConfigureWith(c, m) == UpdateClientInfo(c.(inbound := c.inbound[1..]), info, m)
  {
    var packets := [P.ClientInformationPacket(info)] + more;
    ReadsSent(c, packets);
    assert packets[1..] == more;
    P.DispatchOnce(c.state, P.ClientInformationPacket(info));
    ConfigurationReadsInfo(c, c.(inbound := c.inbound[1..]), m, info);
  }

  /** A plugin message and the client information: the connection hands
      both to `update_client_info` and raises no event.  With the brand
      message (`BrandPacketAccepted`) that records the brand and every
      field of the information. */
  lemma {:induction false} ConfigurationExchange(c: Conn, m: Cp.PluginMessage, info: Cp.ClientInformation,
                                                 more: seq<P.Packet>)
    requires c.state == CS.Configuration && |m.channel| < TWO_32 && |info.locale| < TWO_32
    requires Carries(c.inbound, [P.PluginMessageFromClientPacket(m), P.ClientInformationPacket(info)] + more)
    ensures |c.inbound| >= 2 && Carries(c.inbound[2..], more)
    ensures HandleConfiguration(c) == UpdateClientInfo(c.(inbound := c.inbound[2..]), info, m)
  {
    assert [P.PluginMessageFromClientPacket(m), P.ClientInformationPacket(info)] + more
        == [P.PluginMessageFromClientPacket(m)] + ([P.ClientInformationPacket(info)] + more);
    PluginMessageOpens(c, m, [P.ClientInformationPacket(info)] + more);
    InfoCompletes(c.(inbound := c.inbound[1..]), m, info, more);
    DropTwo(c.inbound);
  }

  // ------------------------------------------------------- whole session

  /** The handshake a task reads first, and what follows. */
  lemma {:induction false} AcceptReadsHandshake(h: Hs.HandshakePacket, inbound: seq<Result<Frame.RawPacket>>,
                                                more: seq<P.Packet>)
    requires P.Fits(P.HandshakePacket(h)) && Carries(inbound, [P.HandshakePacket(h)] + more)
    ensures |inbound| >= 1 && Carries(inbound[1..], more)
    ensures var c := New(inbound).(inbound := inbound[1..], events := [P.HandshakePacket(h)]);
            var r := HandleHandshake(c, h);
            Accept(inbound) == Step(r.conn, Fatal(r.result))
  {
    var packets := [P.HandshakePacket(h)] + more;
    var c0 := New(inbound);
    ReadsSent(c0, packets);
    assert packets[1..] == more;
    P.DispatchOnce(c0.state, P.HandshakePacket(h));
    assert c0.events + [P.HandshakePacket(h)] == [P.HandshakePacket(h)];
    var c := New(inbound).(inbound := inbound[1..], events := [P.HandshakePacket(h)]);
    assert ReadPacket(c0) == Step(c, Ok(P.HandshakePacket(h)));
    assert P.Downcast(P.HandshakePacket(h), P.Handshake).Unwrap() == Ok(P.HandshakePacket(h));
  }

  /** A login handshake whose login and configuration both succeed ends in
      Play. */
  lemma {:induction false} LoginReachesPlay(c: Conn, h: Hs.HandshakePacket, c2: Conn, c3: Conn)
    requires h.nextState == CS.Login
    requires HandleLogin(c.(state := CS.Login)) == Step(c2, Ok(()))
    requires HandleConfiguration(c2.(state := CS.Configuration)) == Step(c3, Ok(()))
    ensures HandleHandshake(c, h) == Step(c3.(state := CS.Play), Ok(()))
  {
  }

  /** A status handshake runs the status exchange in the Status state. */
  lemma {:induction false} HandshakeToStatus(c: Conn, h: Hs.HandshakePacket)
    requires h.nextState == CS.Status
    ensures HandleHandshake(c, h) == HandleStatus(c.(state := CS.Status))
  {
  }

  /** The connection a status session ends with. */
  lemma {:induction false} StatusConn(c: Conn, inbound: seq<Result<Frame.RawPacket>>, h: Hs.HandshakePacket, v: u64)
    requires |inbound| >= 3
    requires c == New(inbound).(state := CS.Status, inbound := inbound[1..], events := [P.HandshakePacket(h)])
    ensures c.(inbound := c.inbound[2..], sent := c.sent + [P.StatusPongPacket(v)],
               events := c.events + [P.StatusRequestPacket])
         == Conn(CS.Status, 0, None, DefaultInfo(), inbound[3..], [P.StatusPongPacket(v)],
                 [P.HandshakePacket(h), P.StatusRequestPacket])
  {
    assert inbound[1..][2..] == inbound[3..];
  }

  /** A client that asks for the status and pings with `v` gets one pong
      carrying `v`; the handshake and the request raise their events. */
  lemma {:induction false} StatusSession(h: Hs.HandshakePacket, v: u64, inbound: seq<Result<Frame.RawPacket>>)
    requires h.nextState == CS.Status && |h.serverAddress| < TWO_32
    requires Carries(inbound, [P.HandshakePacket(h), P.StatusRequestPacket, P.StatusPingPacket(v)])
    ensures |inbound| >= 3
    ensures Accept(inbound) == Step(Conn(CS.Status, 0, None, DefaultInfo(), inbound[3..], [P.StatusPongPacket(v)],
                                         [P.HandshakePacket(h), P.StatusRequestPacket]), Ok(()))
  {
    assert [P.HandshakePacket(h), P.StatusRequestPacket, P.StatusPingPacket(v)]
        == [P.HandshakePacket(h)] + ([P.StatusRequestPacket, P.StatusPingPacket(v)] + []);
    AcceptReadsHandshake(h, inbound, [P.StatusRequestPacket, P.StatusPingPacket(v)] + []);
    var c := New(inbound).(inbound := inbound[1..], events := [P.HandshakePacket(h)]);
    HandshakeToStatus(c, h);
    StatusExchange(c.(state := CS.Status), v, []);
    StatusConn(c.(state := CS.Status), inbound, h, v);
  }

  /** A login handshake followed by a login start, its acknowledgement, the
      brand message and the client information reaches Play, with the
      profile and the information recorded and one login success sent. */
  lemma {:induction false} LoginHandshake(c: Conn, h: Hs.HandshakePacket, profile: Lp.Profile, m: Cp.PluginMessage,
                                          info: Cp.ClientInformation)
    requires h.nextState == CS.Login && |profile.username| < TWO_32
    requires m.channel == Cp.BrandChannel() && Valid(m.data) && |info.locale| < TWO_32
    requires Carries(c.inbound, [P.LoginStartPacket(profile), P.LoginAcknowledgedPacket]
                                + ([P.PluginMessageFromClientPacket(m), P.ClientInformationPacket(info)] + []))
    ensures |c.inbound| >= 4
    ensures HandleHandshake(c, h)
         == Step(c.(state := CS.Play, inbound := c.inbound[4..], profile := Some(profile), info := Recorded(m.data, info),
                    sent := c.sent + [P.LoginSuccessPacket(profile)],
                    events := c.events + [P.LoginStartPacket(profile), P.LoginAcknowledgedPacket]), Ok(()))
  {
    LoginExchange(c.(state := CS.Login), profile, [P.PluginMessageFromClientPacket(m), P.ClientInformationPacket(info)] + []);
    var c2 := c.(state := CS.Login, inbound := c.inbound[2..], profile := Some(profile),
                 sent := c.sent + [P.LoginSuccessPacket(profile)],
                 events := c.events + [P.LoginStartPacket(profile), P.LoginAcknowledgedPacket]);
    ConfigurationExchange(c2.(state := CS.Configuration), m, info, []);
    assert c.inbound[2..][2..] == c.inbound[4..];
    var c3 := c2.(state := CS.Configuration, inbound := c.inbound[4..], info := Recorded(m.data, info));
    assert HandleConfiguration(c2.(state := CS.Configuration)) == Step(c3, Ok(()));
    LoginReachesPlay(c, h, c2, c3);
  }

  /** The login session after its handshake has been read. */
  lemma {:induction false} LoginAfterHandshake(h: Hs.HandshakePacket, profile: Lp.Profile, m: Cp.PluginMessage,
                                               info: Cp.ClientInformation, inbound: seq<Result<Frame.RawPacket>>)
    requires h.nextState == CS.Login && |profile.username| < TWO_32
    requires m.channel == Cp.BrandChannel() && Valid(m.data) && |info.locale| < TWO_32
    requires |inbound| >= 1
    requires Carries(inbound[1..], [P.LoginStartPacket(profile), P.LoginAcknowledgedPacket]
                                   + ([P.PluginMessageFromClientPacket(m), P.ClientInformationPacket(info)] + []))
    ensures |inbound| >= 5
    ensures HandleHandshake(New(inbound).(inbound := inbound[1..], events := [P.HandshakePacket(h)]), h)
         == Step(Conn(CS.Play, 0, Some(profile), Recorded(m.data, info), inbound[5..], [P.LoginSuccessPacket(profile)],
                      [P.HandshakePacket(h), P.LoginStartPacket(profile), P.LoginAcknowledgedPacket]), Ok(()))
  {
    var c := New(inbound).(inbound := inbound[1..], events := [P.HandshakePacket(h)]);
    LoginHandshake(c, h, profile, m, info);
    PlayConn(c, inbound, h, profile, Recorded(m.data, info));
  }

  lemma {:induction false} PlayConn(c: Conn, inbound: seq<Result<Frame.RawPacket>>, h: Hs.HandshakePacket,
                                    profile: Lp.Profile, i: ClientInfo)
    requires |inbound| >= 5 && c == New(inbound).(inbound := inbound[1..], events := [P.HandshakePacket(h)])
    ensures c.(state := CS.Play, inbound := c.inbound[4..], profile := Some(profile), info := i,
               sent := c.sent + [P.LoginSuccessPacket(profile)],
               events := c.events + [P.LoginStartPacket(profile), P.LoginAcknowledgedPacket])
         == Conn(CS.Play, 0, Some(profile), i, inbound[5..], [P.LoginSuccessPacket(profile)],
                 [P.HandshakePacket(h), P.LoginStartPacket(profile), P.LoginAcknowledgedPacket])
  {
    assert inbound[1..][4..] == inbound[5..];
  }

  /** A client that logs in as `profile`, acknowledges, sends the brand
      message `m` and its client information reaches Play: the server has
      sent exactly one login success, recorded the profile, the brand and
      the information, and the handshake, the login start and the
      acknowledgement raised their events. */
  lemma {:induction false} LoginSession(h: Hs.HandshakePacket, profile: Lp.Profile, m: Cp.PluginMessage,
                                        info: Cp.ClientInformation, inbound: seq<Result<Frame.RawPacket>>)
    requires h.nextState == CS.Login && |h.serverAddress| < TWO_32 && |profile.username| < TWO_32
    requires m.channel == Cp.BrandChannel() && Valid(m.data) && |info.locale| < TWO_32
    requires Carries(inbound, [P.HandshakePacket(h), P.LoginStartPacket(profile), P.LoginAcknowledgedPacket,
                               P.PluginMessageFromClientPacket(m), P.ClientInformationPacket(info)])
    ensures |inbound| >= 5
    ensures Accept(inbound) == Step(Conn(CS.Play, 0, Some(profile), Recorded(m.data, info), inbound[5..],
                                         [P.LoginSuccessPacket(profile)],
                                         [P.HandshakePacket(h), P.LoginStartPacket(profile), P.LoginAcknowledgedPacket]),
                                    Ok(()))
  {
    Regroup(P.HandshakePacket(h), P.LoginStartPacket(profile), P.LoginAcknowledgedPacket,
            P.PluginMessageFromClientPacket(m), P.ClientInformationPacket(info));
    AcceptReadsHandshake(h, inbound, [P.LoginStartPacket(profile), P.LoginAcknowledgedPacket]
                                     + ([P.PluginMessageFromClientPacket(m), P.ClientInformationPacket(info)] + []));
    LoginAfterHandshake(h, profile, m, info, inbound);
  }

  /** A handshake asking for Transfer is refused, and the spawned task panics in
      `unwrap`. */
  lemma {:induction false} TransferPanics(h: Hs.HandshakePacket, inbound: seq<Result<Frame.RawPacket>>)
    requires h.nextState == CS.Transfer && |h.serverAddress| < TWO_32
    requires Carries(inbound, [P.HandshakePacket(h)])
    ensures Accept(inbound).result == Err(Panic(UnwrapOnError))
  {
    assert [P.HandshakePacket(h)] == [P.HandshakePacket(h)] + [];
    AcceptReadsHandshake(h, inbound, []);
  }
}
