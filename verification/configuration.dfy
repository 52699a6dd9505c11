/** The packets of the Configuration state: client information, the plugin
    messages in both directions, the known-pack lists in both directions and
    finish-configuration (`rustmine_server/src/packet/serverbound/configuration/`,
    `rustmine_server/src/packet/clientbound/configuration/`,
    `rustmine_server/src/packet/clientbound/mod.rs` and
    `rustmine_lib/src/common/configuration_state.rs`). */
module Configuration {
  import opened Ints
  import opened Wrappers
  import opened Utf8
  import opened Data

  const CLIENT_INFO_ID: u32 := 0x00
  const PLUGIN_MESSAGE_TO_CLIENT_ID: u32 := 0x01
  const PLUGIN_MESSAGE_FROM_CLIENT_ID: u32 := 0x02
  const FINISH_ID: u32 := 0x03
  const KNOWN_PACKS_ID: u32 := 0x07
  const SELECT_KNOWN_PACKS_ID: u32 := 0x0E

  // ------------------------------------------------- client information

  /** `ClientInformationConfigPacket`. */
  datatype ClientInformation = ClientInformation(
    locale: Str,
    viewDistance: i8,
    chatMode: i32,
    chatColors: bool,
    skinParts: byte,
    mainHand: i32,
    textFiltering: bool,
    serverListing: bool)

  /** `ClientInformationConfigPacket::read_from`.  Every field is read with
      `?`, so malformed input is an error and never a panic; the three
      VarInt fields are cast with `as i8` and `as i32`. */
  function ReadClientInfo(id: u32, buf: seq<byte>): (r: Result<ClientInformation>)
    ensures id != CLIENT_INFO_ID ==> r == Err(IdMismatch(CLIENT_INFO_ID, id))
    ensures r.Err? ==> r.error in {IdMismatch(CLIENT_INFO_ID, id), NotEnoughBytes, VarintTooBig, InvalidUtf8}
    ensures !IsPanic(r)
  {
    if id != CLIENT_INFO_ID then Err(IdMismatch(CLIENT_INFO_ID, id))
    else
      var locale :- ReadString(buf, 0);
      var viewDistance :- ReadVarint(buf, locale.1);
      var chatMode :- ReadVarint(buf, viewDistance.1);
      var chatColors :- ReadBool(buf, chatMode.1);
      var skinParts :- ReadByte(buf, chatColors.1);
      var mainHand :- ReadVarint(buf, skinParts.1);
      var textFiltering :- ReadBool(buf, mainHand.1);
      var serverListing :- ReadBool(buf, textFiltering.1);
      Ok(ClientInformation(locale.0, AsI8(viewDistance.0), AsI32(chatMode.0), chatColors.0,
                           skinParts.0, AsI32(mainHand.0), textFiltering.0, serverListing.0))
  }

  /** The field values as they travel, before the casts. */
  datatype ClientInfoWire = ClientInfoWire(
    locale: Str,
    viewDistance: u32,
    chatMode: u32,
    chatColors: bool,
    skinParts: byte,
    mainHand: u32,
    textFiltering: bool,
    serverListing: bool)

  /** The layout `ReadClientInfo` expects.  Client information is
      serverbound only, so the source has no writer for it. */
  function ClientInfoLayout(w: ClientInfoWire): seq<byte>
  {
    WriteString(w.locale) + (WriteVarint(w.viewDistance) + (WriteVarint(w.chatMode) + (WriteBool(w.chatColors)
      + (WriteByte(w.skinParts) + (WriteVarint(w.mainHand) + (WriteBool(w.textFiltering)
      + WriteBool(w.serverListing)))))))
  }

  /** `ReadClientInfo` on a buffer whose eight fields read as given. */
  lemma {:induction false} ReadsClientInfo(buf: seq<byte>, w: ClientInfoWire,
                        p1: nat, p2: nat, p3: nat, p4: nat, p5: nat, p6: nat, p7: nat, p8: nat)
    requires ReadString(buf, 0) == Ok((w.locale, p1))
    requires ReadVarint(buf, p1) == Ok((w.viewDistance, p2))
    requires ReadVarint(buf, p2) == Ok((w.chatMode, p3))
    requires ReadBool(buf, p3) == Ok((w.chatColors, p4))
    requires ReadByte(buf, p4) == Ok((w.skinParts, p5))
    requires ReadVarint(buf, p5) == Ok((w.mainHand, p6))
    requires ReadBool(buf, p6) == Ok((w.textFiltering, p7))
    requires ReadBool(buf, p7) == Ok((w.serverListing, p8))
    ensures ReadClientInfo(CLIENT_INFO_ID, buf)
         == Ok(ClientInformation(w.locale, AsI8(w.viewDistance), AsI32(w.chatMode), w.chatColors,
                                 w.skinParts, AsI32(w.mainHand), w.textFiltering, w.serverListing))
  {
  }

  /** The reader takes apart the layout field by field and applies the
      casts: the view distance keeps its low 8 bits, the chat mode and main
      hand their 32 bits read as two's complement. */
  lemma {:induction false} ClientInfoRoundTrip(w: ClientInfoWire, buf: seq<byte>)
    requires |w.locale| < TWO_32
    requires At(buf, 0, ClientInfoLayout(w))
    ensures ReadClientInfo(CLIENT_INFO_ID, buf)
         == Ok(ClientInformation(w.locale, AsI8(w.viewDistance), AsI32(w.chatMode), w.chatColors,
                                 w.skinParts, AsI32(w.mainHand), w.textFiltering, w.serverListing))
  {
    var r4 := WriteByte(w.skinParts) + (WriteVarint(w.mainHand) + (WriteBool(w.textFiltering)
              + WriteBool(w.serverListing)));
    var p1 := |WriteString(w.locale)|;
    var p2 := p1 + |WriteVarint(w.viewDistance)|;
    var p3 := p2 + |WriteVarint(w.chatMode)|;
    var p4 := p3 + 1;
    StringThen(w.locale, WriteVarint(w.viewDistance) + (WriteVarint(w.chatMode) + (WriteBool(w.chatColors) + r4)),
               buf, 0, p1);
    VarintThen(w.viewDistance, WriteVarint(w.chatMode) + (WriteBool(w.chatColors) + r4), buf, p1, p2);
    VarintThen(w.chatMode, WriteBool(w.chatColors) + r4, buf, p2, p3);
    BoolThen(w.chatColors, r4, buf, p3, p4);
    var p5, p6, p7, p8 := ClientInfoTail(w, buf, p4);
    ReadsClientInfo(buf, w, p1, p2, p3, p4, p5, p6, p7, p8);
  }

  /** The last four fields of the layout, read from where they start. */
  lemma {:induction false} ClientInfoTail(w: ClientInfoWire, buf: seq<byte>, p4: nat)
    returns (p5: nat, p6: nat, p7: nat, p8: nat)
    requires At(buf, p4, WriteByte(w.skinParts) + (WriteVarint(w.mainHand) + (WriteBool(w.textFiltering)
                         + WriteBool(w.serverListing))))
    ensures ReadByte(buf, p4) == Ok((w.skinParts, p5))
    ensures ReadVarint(buf, p5) == Ok((w.mainHand, p6))
    ensures ReadBool(buf, p6) == Ok((w.textFiltering, p7))
    ensures ReadBool(buf, p7) == Ok((w.serverListing, p8))
  {
    p5 := p4 + 1;
    p6 := p5 + |WriteVarint(w.mainHand)|;
    p7 := p6 + 1;
    p8 := p7 + 1;
    ByteThen(w.skinParts, WriteVarint(w.mainHand) + (WriteBool(w.textFiltering) + WriteBool(w.serverListing)),
             buf, p4, p5);
    VarintThen(w.mainHand, WriteBool(w.textFiltering) + WriteBool(w.serverListing), buf, p5, p6);
    BoolThen(w.textFiltering, WriteBool(w.serverListing), buf, p6, p7);
    assert WriteBool(w.serverListing) == WriteBool(w.serverListing) + [];
    BoolThen(w.serverListing, [], buf, p7, p8);
  }

  /** A view distance of 128 or more arrives negative: only the low 8 bits
      are kept. */
  lemma {:induction false} ViewDistanceWraps()
    ensures AsI8(200) == -56 && AsI8(256 + 10) == 10
  {
  }

  // ---------------------------------------------------- plugin messages

  /** `ConfigurationPluginMessagePacket`, in either direction: a channel
      name and raw bytes. */
  datatype PluginMessage = PluginMessage(channel: Str, data: seq<byte>)

  /** The serverbound `read_from`: a string channel, a VarInt length and
      exactly that many bytes; whatever follows is ignored. */
  function ReadPluginMessage(id: u32, buf: seq<byte>): (r: Result<PluginMessage>)
    ensures id != PLUGIN_MESSAGE_FROM_CLIENT_ID ==> r == Err(IdMismatch(PLUGIN_MESSAGE_FROM_CLIENT_ID, id))
    ensures r.Err? ==> r.error in {IdMismatch(PLUGIN_MESSAGE_FROM_CLIENT_ID, id), NotEnoughBytes, VarintTooBig, InvalidUtf8}
  {
    if id != PLUGIN_MESSAGE_FROM_CLIENT_ID then Err(IdMismatch(PLUGIN_MESSAGE_FROM_CLIENT_ID, id))
    else
      var channel :- ReadString(buf, 0);
      var n :- ReadVarint(buf, channel.1);
      var data :- ReadBytes(buf, n.1, n.0);
      Ok(PluginMessage(channel.0, data.0))
  }

  /** A decoded plugin message is the channel string at the start of the
      buffer and exactly as many of the bytes after the length as the
      length says. */
  lemma {:induction false} PluginMessageShape(buf: seq<byte>)
    requires ReadPluginMessage(PLUGIN_MESSAGE_FROM_CLIENT_ID, buf).Ok?
    ensures var m := ReadPluginMessage(PLUGIN_MESSAGE_FROM_CLIENT_ID, buf).value;
            ReadString(buf, 0).Ok? &&
            var (channel, p1) := ReadString(buf, 0).value;
            ReadVarint(buf, p1).Ok? &&
            var (n, p2) := ReadVarint(buf, p1).value;
            m.channel == channel && |m.data| == n && At(buf, p2, m.data)
  {
  }

  /** A plugin message whose declared length runs past the buffer is
      refused. */
  lemma {:induction false} ShortPluginMessageRefused(buf: seq<byte>, channel: Str, p1: nat, n: u32, p2: nat)
    requires ReadString(buf, 0) == Ok((channel, p1))
    requires ReadVarint(buf, p1) == Ok((n, p2))
    requires p2 + n > |buf|
    ensures ReadPluginMessage(PLUGIN_MESSAGE_FROM_CLIENT_ID, buf) == Err(NotEnoughBytes)
  {
  }

  /** The clientbound `write_to`: the channel, the data length (converted
      with `try_into().unwrap()`, which panics past `u32`) and the data. */
  function WritePluginMessage(m: PluginMessage): (r: Result<seq<byte>>)
    ensures r.Ok? <==> |m.data| < TWO_32
    ensures r.Err? ==> r.error == Panic(UnwrapOnError)
  {
    if |m.data| >= TWO_32 then Err(Panic(UnwrapOnError))
    else Ok(WriteString(m.channel) + (WriteVarint(|m.data|) + m.data))
  }

  lemma {:induction false} ReadsPluginMessage(buf: seq<byte>, m: PluginMessage, p1: nat, p2: nat, p3: nat)
    requires ReadString(buf, 0) == Ok((m.channel, p1))
    requires ReadVarint(buf, p1) == Ok((|m.data|, p2))
    requires ReadBytes(buf, p2, |m.data|) == Ok((m.data, p3))
    ensures ReadPluginMessage(PLUGIN_MESSAGE_FROM_CLIENT_ID, buf) == Ok(m)
  {
  }

  /** What the server writes as a plugin message, the serverbound decoder
      reads back as the same message, whatever bytes follow. */
  lemma {:induction false} PluginMessageRoundTrip(m: PluginMessage, buf: seq<byte>)
    requires |m.channel| < TWO_32
    requires WritePluginMessage(m).Ok?
    requires At(buf, 0, WritePluginMessage(m).value)
    ensures ReadPluginMessage(PLUGIN_MESSAGE_FROM_CLIENT_ID, buf) == Ok(m)
  {
    var p1 := |WriteString(m.channel)|;
    var p2 := p1 + |WriteVarint(|m.data|)|;
    var p3 := p2 + |m.data|;
    StringThen(m.channel, WriteVarint(|m.data|) + m.data, buf, 0, p1);
    VarintThen(|m.data|, m.data, buf, p1, p2);
    assert m.data == m.data + [];
    BytesThen(m.data, [], buf, p2, p3);
    ReadsPluginMessage(buf, m, p1, p2, p3);
  }

  /** "minecraft:brand", the channel of the brand message, spelt out byte
      by byte (`BrandChannelText` reads it back as text). */
  function BrandChannel(): (r: seq<byte>)
    ensures |r| == 15 && IsAscii(r)
  {
    [0x6d, 0x69, 0x6e, 0x65, 0x63, 0x72, 0x61, 0x66, 0x74, 0x3a, 0x62, 0x72, 0x61, 0x6e, 0x64]
  }

  lemma {:induction false} BrandChannelText(s: string)
    requires s == "minecraft:brand"
    ensures BrandChannel() == Ascii(s)
  {
    var a, b := Ascii(s), BrandChannel();
    assert s[0] == 'm' && s[1] == 'i' && s[2] == 'n' && s[3] == 'e' && s[4] == 'c' && s[5] == 'r' && s[6] == 'a';
    assert s[7] == 'f' && s[8] == 't' && s[9] == ':' && s[10] == 'b' && s[11] == 'r' && s[12] == 'a' && s[13] == 'n';
    assert s[14] == 'd';
    assert forall i | 0 <= i < 15 :: a[i] == b[i];
  }

  /** `brand_packet`: the server's brand on the brand channel. */
  function BrandPacket(brand: Str): (m: PluginMessage)
    ensures m.channel == BrandChannel() && m.data == brand
  {
    AsciiIsValid(BrandChannel());
    PluginMessage(BrandChannel(), brand)
  }

  // ---------------------------------------------------------- known packs

  /** `ConfigKnownPackEntry`: a namespaced pack name and a version.  The
      source derives field-wise equality, which datatype equality is. */
  datatype KnownPack = KnownPack(name: Str, version: Str)

  /** The byte of ':'. */
  const COLON: byte := 0x3A

  /** `minecraft_core`: the pack "minecraft:core", version "1.21.6".  Its
      name is built as namespace, ':' and path, so the writer can split it. */
  function MinecraftCore(): (p: KnownPack)
    ensures p.name == Ascii("minecraft") + [COLON] + Ascii("core")
    ensures SplitOnce(p.name) == Some((Ascii("minecraft"), Ascii("core")))
    ensures p.version == Ascii("1.21.6")
  {
    var namespace := AsciiStr("minecraft");
    CoreNamespace();
    SplitJoin(namespace, AsciiStr("core"));
    KnownPack(Join(namespace, AsciiStr("core")), AsciiStr("1.21.6"))
  }

  /** A literal without ':' has no COLON byte. */
  lemma {:induction false} NoColon(s: string)
    requires ':' !in s
    ensures COLON !in Ascii(s)
  {
  }

  lemma {:induction false} CoreNamespace()
    ensures COLON !in Ascii("minecraft")
  {
    NoColon("minecraft");
  }

  /** The position of the first ':' in `s`, if any. */
  function FirstColon(s: seq<byte>): (r: Option<nat>)
    ensures r.Some? ==> r.value < |s| && s[r.value] == COLON
    ensures r.Some? ==> forall j :: 0 <= j < r.value ==> s[j] != COLON
    ensures r.None? ==> forall j :: 0 <= j < |s| ==> s[j] != COLON
  {
    if |s| == 0 then None
    else if s[0] == COLON then Some(0)
    else
      match FirstColon(s[1..])
      case None => None
      case Some(k) => Some(k + 1)
  }

  /** `split_once(":")`: the parts before and after the first ':'. */
  function SplitOnce(s: Str): (r: Option<(Str, Str)>)
    ensures r.Some? <==> COLON in s
    ensures r.Some? ==> s == r.value.0 + [COLON] + r.value.1 && COLON !in r.value.0
  {
    match FirstColon(s)
    case None => None
    case Some(k) =>
      SplitAtColon(s, k);
      Some((s[..k], s[k + 1..]))
  }

  /** Cutting a string around one of its ':' bytes leaves two strings. */
  lemma {:induction false} SplitAtColon(s: Str, k: nat)
    requires k < |s| && s[k] == COLON
    ensures Valid(s[..k]) && Valid(s[k + 1..])
    ensures s == s[..k] + [COLON] + s[k + 1..]
  {
    SplitAtAscii(s, k);
    assert s == s[..k] + [s[k]] + s[k + 1..];
  }

  /** `format!("{}:{}", namespace, name)`. */
  function Join(namespace: Str, name: Str): (r: Str)
    ensures r == namespace + [COLON] + name
  {
    AsciiIsValid([COLON]);
    ConcatValid(namespace, [COLON]);
    ConcatValid(namespace + [COLON], name);
    namespace + [COLON] + name
  }

  /** Splitting a joined name gives back its parts when the namespace has
      no ':' of its own, and joining the parts of a split gives back the
      name. */
  lemma {:induction false} SplitJoin(namespace: Str, name: Str)
    requires COLON !in namespace
    ensures SplitOnce(Join(namespace, name)) == Some((namespace, name))
  {
    var s := Join(namespace, name);
    assert s[|namespace|] == COLON;
    var k := FirstColon(s).value;
    assert k == |namespace|;
    assert s[..k] == namespace;
    assert s[k + 1..] == name;
  }

  lemma {:induction false} JoinSplit(s: Str)
    requires SplitOnce(s).Some?
    ensures Join(SplitOnce(s).value.0, SplitOnce(s).value.1) == s
  {
  }

  /** The loop of `ClientKnownPacksPacket::read_from`: `count` entries of
      three strings each, every read unwrapped. */
  function ReadEntries(buf: seq<byte>, pos: nat, count: nat): (r: Result<(seq<KnownPack>, nat)>)
    ensures r.Ok? ==> |r.value.0| == count
    ensures r.Err? ==> r.error == Panic(UnwrapOnError)
    decreases count
  {
    if count == 0 then Ok(([], pos))
    else
      var namespace :- ReadString(buf, pos).Unwrap();
      var name :- ReadString(buf, namespace.1).Unwrap();
      var version :- ReadString(buf, name.1).Unwrap();
      var rest :- ReadEntries(buf, version.1, count - 1);
      Ok(([KnownPack(Join(namespace.0, name.0), version.0)] + rest.0, rest.1))
  }

  /** `ClientKnownPacksPacket::read_from`: a VarInt count, then the
      entries. */
  function ReadKnownPacks(id: u32, buf: seq<byte>): (r: Result<seq<KnownPack>>)
    ensures id != KNOWN_PACKS_ID ==> r == Err(IdMismatch(KNOWN_PACKS_ID, id))
    ensures r.Err? ==> r.error == IdMismatch(KNOWN_PACKS_ID, id) || r.error == Panic(UnwrapOnError)
  {
    if id != KNOWN_PACKS_ID then Err(IdMismatch(KNOWN_PACKS_ID, id))
    else
      var count :- ReadVarint(buf, 0).Unwrap();
      var entries :- ReadEntries(buf, count.1, count.0);
      Ok(entries.0)
  }

  /** A decoded list has as many entries as its leading count says. */
  lemma {:induction false} KnownPacksCount(buf: seq<byte>)
    requires ReadKnownPacks(KNOWN_PACKS_ID, buf).Ok?
    ensures ReadVarint(buf, 0).Ok? && |ReadKnownPacks(KNOWN_PACKS_ID, buf).value| == ReadVarint(buf, 0).value.0
  {
  }

  /** The loop of `ConfigSelectKnownPacksPacket::write_to`: per entry the
      name split at its first ':' as two strings, then the version.  A
      name without ':' panics. */
  function WriteEntries(entries: seq<KnownPack>): (r: Result<seq<byte>>)
    ensures r.Ok? <==> forall i :: 0 <= i < |entries| ==> COLON in entries[i].name
    ensures r.Err? ==> r.error == Panic(UnwrapOnError)
  {
    if |entries| == 0 then Ok([])
    else
      assert forall i :: 1 <= i < |entries| ==> entries[i] == entries[1..][i - 1];
      match SplitOnce(entries[0].name)
      case None => Err(Panic(UnwrapOnError))
      case Some(parts) =>
        var rest :- WriteEntries(entries[1..]);
        Ok(WriteString(parts.0) + (WriteString(parts.1) + (WriteString(entries[0].version) + rest)))
  }

  /** `ConfigSelectKnownPacksPacket::write_to`: the entry count, converted
      with `try_into().unwrap()`, then the entries. */
  function WriteSelectKnownPacks(entries: seq<KnownPack>): (r: Result<seq<byte>>)
    ensures r.Ok? <==> |entries| < TWO_32 && forall i :: 0 <= i < |entries| ==> COLON in entries[i].name
    ensures r.Err? ==> r.error == Panic(UnwrapOnError)
    ensures r.Ok? ==> ReadVarint(r.value, 0) == Ok((|entries|, |WriteVarint(|entries|)|))
  {
    if |entries| >= TWO_32 then Err(Panic(UnwrapOnError))
    else
      var body :- WriteEntries(entries);
      var r := WriteVarint(|entries|) + body;
      SplitAt(WriteVarint(|entries|), body);
      VarintRoundTrip(|entries|, r, 0);
      Ok(r)
  }

  /** Every string of an entry list fits a VarInt length. */
  predicate ShortEntries(entries: seq<KnownPack>) {
    forall i :: 0 <= i < |entries| ==> |entries[i].name| < TWO_32 && |entries[i].version| < TWO_32
  }

  /** `ReadEntries` at `pos` returns `entries` and leaves the cursor at
      `end`. */
  predicate ReadsBack(buf: seq<byte>, pos: nat, entries: seq<KnownPack>, end: nat) {
    ReadEntries(buf, pos, |entries|) == Ok((entries, end))
  }

  /** `ReadEntries` on a buffer holding the strings of a list's first
      entry (its name split at the first ':') and then the rest of the
      list. */
  lemma {:induction false} ReadsEntry(buf: seq<byte>, pos: nat, first: KnownPack, more: seq<KnownPack>,
                                      namespace: Str, name: Str, p1: nat, p2: nat, p3: nat, end: nat)
    requires SplitOnce(first.name) == Some((namespace, name))
    requires ReadString(buf, pos) == Ok((namespace, p1))
    requires ReadString(buf, p1) == Ok((name, p2))
    requires ReadString(buf, p2) == Ok((first.version, p3))
    requires ReadsBack(buf, p3, more, end)
    ensures ReadsBack(buf, pos, [first] + more, end)
  {
    JoinSplit(first.name);
    assert KnownPack(Join(namespace, name), first.version) == first;
    ReadsFirstEntry(buf, pos, |more| + 1, namespace, p1, name, p2, first.version, p3, more, end);
  }

  /** One step of `ReadEntries`: three strings, then the rest. */
  lemma {:induction false} ReadsFirstEntry(buf: seq<byte>, pos: nat, count: nat, namespace: Str, p1: nat,
                                           name: Str, p2: nat, version: Str, p3: nat,
                                           more: seq<KnownPack>, end: nat)
    requires count == |more| + 1
    requires ReadString(buf, pos) == Ok((namespace, p1))
    requires ReadString(buf, p1) == Ok((name, p2))
    requires ReadString(buf, p2) == Ok((version, p3))
    requires ReadsBack(buf, p3, more, end)
    ensures ReadEntries(buf, pos, count) == Ok(([KnownPack(Join(namespace, name), version)] + more, end))
  {
  }

  /** A written non-empty list is its first entry's three strings, then the
      rest of the list written. */
  lemma {:induction false} WriteEntriesCons(entries: seq<KnownPack>)
    requires |entries| > 0 && WriteEntries(entries).Ok?
    ensures SplitOnce(entries[0].name).Some? && WriteEntries(entries[1..]).Ok?
    ensures WriteEntries(entries).value
         == WriteString(SplitOnce(entries[0].name).value.0) + (WriteString(SplitOnce(entries[0].name).value.1)
            + (WriteString(entries[0].version) + WriteEntries(entries[1..]).value))
    ensures |WriteEntries(entries).value|
         == |WriteString(SplitOnce(entries[0].name).value.0)| + |WriteString(SplitOnce(entries[0].name).value.1)|
            + |WriteString(entries[0].version)| + |WriteEntries(entries[1..]).value|
  {
  }

  lemma {:induction false} ShortEntriesTail(entries: seq<KnownPack>)
    requires |entries| > 0 && ShortEntries(entries)
    ensures ShortEntries(entries[1..]) && |entries[0].name| < TWO_32 && |entries[0].version| < TWO_32
  {
    forall i | 0 <= i < |entries[1..]|
      ensures |entries[1..][i].name| < TWO_32 && |entries[1..][i].version| < TWO_32
    {
      assert entries[1..][i] == entries[i + 1];
    }
  }

  /** The three strings of one entry, read from where they were written. */
  lemma {:induction false} EntryThen(namespace: Str, name: Str, version: Str, more: seq<byte>, buf: seq<byte>,
                  pos: nat, p1: nat, p2: nat, p3: nat)
    requires |namespace| < TWO_32 && |name| < TWO_32 && |version| < TWO_32
    requires p1 == pos + |WriteString(namespace)|
    requires p2 == p1 + |WriteString(name)|
    requires p3 == p2 + |WriteString(version)|
    requires At(buf, pos, WriteString(namespace) + (WriteString(name) + (WriteString(version) + more)))
    ensures ReadString(buf, pos) == Ok((namespace, p1))
    ensures ReadString(buf, p1) == Ok((name, p2))
    ensures ReadString(buf, p2) == Ok((version, p3))
    ensures At(buf, p3, more)
  {
    StringThen(namespace, WriteString(name) + (WriteString(version) + more), buf, pos, p1);
    StringThen(name, WriteString(version) + more, buf, p1, p2);
    StringThen(version, more, buf, p2, p3);
  }

  /** The first entry of a written list reads back as its three strings;
      the rest of the list follows them. */
  lemma {:induction false} EntryStep(entries: seq<KnownPack>, buf: seq<byte>, pos: nat)
    returns (namespace: Str, name: Str, p1: nat, p2: nat, p3: nat)
    requires |entries| > 0 && ShortEntries(entries)
    requires WriteEntries(entries).Ok?
    requires At(buf, pos, WriteEntries(entries).value)
    ensures SplitOnce(entries[0].name) == Some((namespace, name))
    ensures ReadString(buf, pos) == Ok((namespace, p1))
    ensures ReadString(buf, p1) == Ok((name, p2))
    ensures ReadString(buf, p2) == Ok((entries[0].version, p3))
    ensures ShortEntries(entries[1..]) && WriteEntries(entries[1..]).Ok?
    ensures At(buf, p3, WriteEntries(entries[1..]).value)
    ensures p3 + |WriteEntries(entries[1..]).value| == pos + |WriteEntries(entries).value|
  {
    WriteEntriesCons(entries);
    ShortEntriesTail(entries);
    namespace := SplitOnce(entries[0].name).value.0;
    name := SplitOnce(entries[0].name).value.1;
    p1 := pos + |WriteString(namespace)|;
    p2 := p1 + |WriteString(name)|;
    p3 := p2 + |WriteString(entries[0].version)|;
    EntryThen(namespace, name, entries[0].version, WriteEntries(entries[1..]).value, buf, pos, p1, p2, p3);
  }

  /** The written entries are read back as written, and the cursor ends
      where they end. */
  lemma {:induction false} EntriesRoundTrip(entries: seq<KnownPack>, buf: seq<byte>, pos: nat, end: nat)
    requires ShortEntries(entries)
    requires WriteEntries(entries).Ok?
    requires At(buf, pos, WriteEntries(entries).value)
    requires end == pos + |WriteEntries(entries).value|
    ensures ReadsBack(buf, pos, entries, end)
    decreases |entries|
  {
    if |entries| > 0 {
      var namespace, name, p1, p2, p3 := EntryStep(entries, buf, pos);
      EntriesRoundTrip(entries[1..], buf, p3, end);
      ReadsEntry(buf, pos, entries[0], entries[1..], namespace, name, p1, p2, p3, end);
      assert [entries[0]] + entries[1..] == entries;
    } else {
      assert WriteEntries(entries).value == [];
    }
  }

  /** What the server writes as a select-known-packs list, the client's
      known-packs decoder reads back as the same entries, whenever every
      name contains ':'. */
  lemma {:induction false} KnownPacksRoundTrip(entries: seq<KnownPack>, buf: seq<byte>)
    requires ShortEntries(entries)
    requires WriteSelectKnownPacks(entries).Ok?
    requires At(buf, 0, WriteSelectKnownPacks(entries).value)
    ensures ReadKnownPacks(KNOWN_PACKS_ID, buf) == Ok(entries)
  {
    var body := WriteEntries(entries).value;
    var p1 := |WriteVarint(|entries|)|;
    VarintThen(|entries|, body, buf, 0, p1);
    EntriesRoundTrip(entries, buf, p1, p1 + |body|);
  }

  // ------------------------------------------------ finish configuration

  /** `FinishConfigurationPacket::read_from`: the id alone. */
  function ReadFinish(id: u32, buf: seq<byte>): (r: Result<()>)
    ensures r.Ok? <==> id == FINISH_ID
    ensures r.Err? ==> r.error == IdMismatch(FINISH_ID, id)
  {
    if id != FINISH_ID then Err(IdMismatch(FINISH_ID, id)) else Ok(())
  }

  /** `FinishConfigurationPacket::write_to` writes nothing. */
  function WriteFinish(): (r: seq<byte>)
    ensures |r| == 0 && ReadFinish(FINISH_ID, r) == Ok(())
  {
    []
  }
}
