/** The serverbound handshake packet
    (`rustmine_server/src/packet/serverbound/handshake.rs`): the first packet
    of every connection, naming the protocol version, the address and port
    the client dialled and the state it asks to move to. */
module Handshake {
  import opened Ints
  import opened Wrappers
  import opened Utf8
  import opened Data
  import opened ConnState

  const ID: u32 := 0x00

  datatype HandshakePacket = HandshakePacket(protocol: u32, serverAddress: Str, port: u16, nextState: State)

  /** The states a handshake may ask for. */
  predicate Requestable(s: State) {
    s == Status || s == Login || s == Transfer
  }

  /** The next-state number of a handshake: 1, 2 and 3 name a state, every
      other number is refused. */
  function NextState(n: u32): (r: Result<State>)
    ensures r.Ok? <==> 1 <= n <= 3
    ensures r.Ok? ==> Requestable(r.value) && Id(r.value) == n
    ensures r.Err? ==> r.error == InvalidNextState
  {
    if n == 1 then Ok(Status)
    else if n == 2 then Ok(Login)
    else if n == 3 then Ok(Transfer)
    else Err(InvalidNextState)
  }

  /** `write_to`: varint protocol, string address, big-endian port, varint
      next-state number. */
  function Write(h: HandshakePacket): (r: seq<byte>)
    ensures |r| == VarintSize(h.protocol) + |WriteString(h.serverAddress)| + 2 + VarintSize(Id(h.nextState))
    ensures ReadVarint(r, 0) == Ok((h.protocol, VarintSize(h.protocol)))
  {
    var rest := WriteString(h.serverAddress) + (WriteUshort(h.port) + WriteVarint(Id(h.nextState)));
    VarintRoundTrip(h.protocol, WriteVarint(h.protocol) + rest, 0);
    WriteVarint(h.protocol) + rest
  }

  /** `read_from`.  The first three fields are unwrapped, so a malformed
      one panics; only the next-state field reports an error. */
  function Read(id: u32, buf: seq<byte>): (r: Result<HandshakePacket>)
    ensures id != ID ==> r == Err(IdMismatch(ID, id))
    ensures id == ID && ReadVarint(buf, 0).Err? ==> r == Err(Panic(UnwrapOnError))
    ensures r.Ok? ==> Requestable(r.value.nextState)
    ensures r.Err? ==> r.error == IdMismatch(ID, id) || r.error == Panic(UnwrapOnError)
                       || r.error == InvalidNextState || r.error == NotEnoughBytes || r.error == VarintTooBig
  {
    if id != ID then Err(IdMismatch(ID, id))
    else
      var a :- ReadVarint(buf, 0).Unwrap();
      var b :- ReadString(buf, a.1).Unwrap();
      var c :- ReadUshort(buf, b.1).Unwrap();
      var d :- ReadVarint(buf, c.1);
      var next :- NextState(d.0);
      Ok(HandshakePacket(a.0, b.0, c.0, next))
  }

  /** `Read` on a buffer whose four fields read as given. */
  lemma {:induction false} ReadsFields(buf: seq<byte>, protocol: u32, p1: nat, address: Str, p2: nat,
                    port: u16, p3: nat, n: u32, p4: nat)
    requires ReadVarint(buf, 0) == Ok((protocol, p1))
    requires ReadString(buf, p1) == Ok((address, p2))
    requires ReadUshort(buf, p2) == Ok((port, p3))
    requires ReadVarint(buf, p3) == Ok((n, p4))
    ensures NextState(n).Ok? ==> Read(ID, buf) == Ok(HandshakePacket(protocol, address, port, NextState(n).value))
    ensures NextState(n).Err? ==> Read(ID, buf) == Err(InvalidNextState)
  {
  }

  /** The four fields of a written handshake read back as written, from any
      buffer that starts with the written bytes; `n` is the next-state
      number. */
  lemma {:induction false} FieldsRoundTrip(protocol: u32, address: Str, port: u16, n: u32, buf: seq<byte>)
    requires |address| < TWO_32
    requires At(buf, 0, WriteVarint(protocol) + (WriteString(address) + (WriteUshort(port) + WriteVarint(n))))
    ensures NextState(n).Ok? ==> Read(ID, buf) == Ok(HandshakePacket(protocol, address, port, NextState(n).value))
    ensures NextState(n).Err? ==> Read(ID, buf) == Err(InvalidNextState)
  {
    var p1 := |WriteVarint(protocol)|;
    var p2 := p1 + |WriteString(address)|;
    var p3 := p2 + 2;
    var p4 := p3 + |WriteVarint(n)|;
    VarintThen(protocol, WriteString(address) + (WriteUshort(port) + WriteVarint(n)), buf, 0, p1);
    StringThen(address, WriteUshort(port) + WriteVarint(n), buf, p1, p2);
    UshortThen(port, WriteVarint(n), buf, p2, p3);
    VarintLast(n, buf, p3, p4);
    ReadsFields(buf, protocol, p1, address, p2, port, p3, n, p4);
  }

  /** A handshake asking for Status, Login or Transfer is read back as
      written. */
  lemma {:induction false} RoundTrip(h: HandshakePacket, buf: seq<byte>)
    requires Requestable(h.nextState) && |h.serverAddress| < TWO_32
    requires At(buf, 0, Write(h))
    ensures Read(ID, buf) == Ok(h)
  {
    FieldsRoundTrip(h.protocol, h.serverAddress, h.port, Id(h.nextState), buf);
  }

  /** A handshake naming Handshake, Play or Configuration is written (as 0,
      4 or 5) but refused by the reader. */
  lemma {:induction false} UnrequestableIsRefused(h: HandshakePacket, buf: seq<byte>)
    requires !Requestable(h.nextState) && |h.serverAddress| < TWO_32
    requires At(buf, 0, Write(h))
    ensures Read(ID, buf) == Err(InvalidNextState)
  {
    FieldsRoundTrip(h.protocol, h.serverAddress, h.port, Id(h.nextState), buf);
  }
}
