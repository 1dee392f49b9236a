/** A reader for CONNECT packets, written from section 3.1 of MQTT 3.1.1 and of MQTT 5.0 and
  independent of `send__connect`, and the proof that it reads back what was configured. */
module ConnectReader {
  import opened Common
  import opened Varint
  import opened PacketBuffer
  import opened ConnectPacket

  /** A value read and what follows it. */
  datatype Reading<+T> = Fails | Reads(value: T, rest: seq<byte>) {
    predicate IsFailure() {
      Fails?
    }

    function PropagateFailure<U>(): Reading<U>
      requires Fails?
    {
      Fails
    }

    function Extract(): (T, seq<byte>)
      requires Reads?
    {
      (value, rest)
    }
  }

  function TakeBytes(s: seq<byte>, n: nat): Reading<seq<byte>> {
    if |s| < n then Fails else Reads(s[..n], s[n..])
  }

  function TakeByte(s: seq<byte>): Reading<byte> {
    if s == [] then Fails else Reads(s[0], s[1..])
  }

  function TakeUint16(s: seq<byte>): Reading<nat> {
    if |s| < 2 then Fails else Reads((s[0] as int) * 256 + s[1], s[2..])
  }

  function TakeText(s: seq<byte>): Reading<seq<byte>> {
    var (n, rest) :- TakeUint16(s);
    TakeBytes(rest, n)
  }

  /** The digits up to the first with its top bit clear, at most `limit` of them. */
  function TakeDigits(s: seq<byte>, limit: nat): Reading<seq<byte>>
    decreases limit
  {
    if s == [] || limit == 0 then Fails
    else if s[0] < 128 then Reads([s[0]], s[1..])
    else
      var (more, rest) :- TakeDigits(s[1..], limit - 1);
      Reads([s[0]] + more, rest)
  }

  /** A block with a variable byte integer in front. */
  function TakeBlock(s: seq<byte>): Reading<seq<byte>> {
    var (digits, rest) :- TakeDigits(s, 4);
    TakeBytes(rest, Digits(digits))
  }

  function TakeBlockIf(present: bool, s: seq<byte>): Reading<seq<byte>> {
    if present then TakeBlock(s) else Reads([], s)
  }

  function TakeTextIf(present: bool, s: seq<byte>): Reading<Option<seq<byte>>> {
    if present then
      var (text, rest) :- TakeText(s);
      Reads(Some(text), rest)
    else Reads(None, s)
  }

  function Bit(flags: byte, weight: nat): bool
    requires weight > 0
  {
    flags / weight % 2 == 1
  }

  function TakeWill(flags: byte, v5: bool, s: seq<byte>): Reading<Option<Will>> {
    if !Bit(flags, 4) then Reads(None, s)
    else
      var (properties, s1) :- TakeBlockIf(v5, s);
      var (topic, s2) :- TakeText(s1);
      var (payload, s3) :- TakeText(s2);
      Reads(Some(Will(topic, payload, flags / 8 % 4, Bit(flags, 32), properties)), s3)
  }

  /** What a server learns from a CONNECT packet. */
  datatype View = View(
    protocol: ProtocolVersion,
    cleanSession: bool,
    keepalive: nat,
    properties: seq<byte>,
    clientId: seq<byte>,
    will: Option<Will>,
    username: Option<seq<byte>>,
    password: Option<seq<byte>>)

  function ProtocolOf(name: seq<byte>, version: byte): Option<ProtocolVersion> {
    if name == [77, 81, 73, 115, 100, 112] && version == 3 then Some(Mqtt31)  // "MQIsdp"
    else if name == [77, 81, 84, 84] && version == 4 then Some(Mqtt311)        // "MQTT"
    else if name == [77, 81, 84, 84] && version == 5 then Some(Mqtt5)
    else None
  }

  function TakePayload(protocol: ProtocolVersion, flags: byte, keepalive: nat, s: seq<byte>): Reading<View> {
    var (properties, s1) :- TakeBlockIf(protocol == Mqtt5, s);
    var (clientId, s2) :- TakeText(s1);
    var (will, s3) :- TakeWill(flags, protocol == Mqtt5, s2);
    var (username, s4) :- TakeTextIf(Bit(flags, 128), s3);
    var (password, s5) :- TakeTextIf(Bit(flags, 64), s4);
    Reads(View(protocol, Bit(flags, 2), keepalive, properties, clientId, will, username, password), s5)
  }

  /** Everything after the fixed header of a CONNECT packet. */
  function ReadConnect(s: seq<byte>): Reading<View> {
    var (name, s1) :- TakeText(s);
    var (version, s2) :- TakeByte(s1);
    var (flags, s3) :- TakeByte(s2);
    var (keepalive, s4) :- TakeUint16(s3);
    if ProtocolOf(name, version).None? || Bit(flags, 1) then Fails
    else TakePayload(ProtocolOf(name, version).value, flags, keepalive, s4)
  }

  /** What the configuration says, as far as its protocol version can express it. */
  function ViewOf(c: Config): View {
    var v5 := c.protocol == Mqtt5;
    View(c.protocol, c.cleanSession, c.keepalive,
         if v5 then c.properties + c.localProperties else [],
         if c.clientId.Some? then c.clientId.value else [],
         if c.will.None? then None
         else
           var w := c.will.value;
           Some(Will(w.topic, w.payload, w.qos, w.retain && c.retainAvailable, if v5 then w.properties else [])),
         c.username, c.password)
  }

  // ---------- reading back single fields ----------

  lemma TextBack(s: seq<byte>, rest: seq<byte>)
    requires |s| < 0x1_0000
    ensures WrittenText(s) == Text(s)
    ensures TakeText(Text(s) + rest) == Reads(s, rest)
  {
    var t := Text(s) + rest;
    assert s[..|s|] == s;
    assert t[0] == |s| / 256 && t[1] == |s| % 256;
    assert t[2..] == s + rest;
    assert TakeUint16(t) == Reads(|s|, s + rest);
    assert (s + rest)[..|s|] == s && (s + rest)[|s|..] == rest;
  }

  lemma {:induction false} DigitsBack(ds: seq<byte>, limit: nat, rest: seq<byte>)
    requires Terminated(ds) && |ds| <= limit
    ensures TakeDigits(ds + rest, limit) == Reads(ds, rest)
    decreases |ds|
  {
    var s := ds + rest;
    assert s[0] == ds[0];
    if |ds| == 1 {
      assert s[1..] == rest && ds == [ds[0]];
    } else {
      assert s[1..] == ds[1..] + rest;
      assert forall i :: 0 <= i < |ds[1..]| ==> ds[1..][i] == ds[i + 1];
      DigitsBack(ds[1..], limit - 1, rest);
      assert [ds[0]] + ds[1..] == ds;
    }
  }

  lemma BlockBack(p: seq<byte>, rest: seq<byte>)
    requires |p| < VARINT_LIMIT
    ensures TakeBlock(Encode(|p|) + p + rest) == Reads(p, rest)
  {
    EncodeTerminated(|p|);
    EncodeLength(|p|);
    DigitsOfEncode(|p|);
    DigitsBack(Encode(|p|), 4, p + rest);
    assert Encode(|p|) + p + rest == Encode(|p|) + (p + rest);
    assert (p + rest)[..|p|] == p && (p + rest)[|p|..] == rest;
  }

  lemma OptionalBack(s: Option<seq<byte>>, rest: seq<byte>)
    requires s.Some? ==> |s.value| < 0x1_0000
    ensures TakeTextIf(s.Some?, OptionalBytes(s) + rest) == Reads(s, rest)
  {
    if s.Some? {
      TextBack(s.value, rest);
    } else {
      assert [] + rest == rest;
    }
  }

  /** The flag byte keeps its parts apart. */
  lemma FlagsBack(c: Config)
    requires ValidConfig(c)
    ensures var f := Flags(c);
            && !Bit(f, 1)
            && Bit(f, 2) == c.cleanSession
            && Bit(f, 4) == c.will.Some?
            && (c.will.Some? ==>
                  && f / 8 % 4 == c.will.value.qos
                  && Bit(f, 32) == (c.will.value.retain && c.retainAvailable))
            && Bit(f, 64) == c.password.Some?
            && Bit(f, 128) == c.username.Some?
  {
    var clean := if c.cleanSession then 1 else 0;
    var will := if c.will.Some? then 1 else 0;
    var qos := if c.will.Some? then c.will.value.qos else 0;
    var retain := if c.will.Some? && c.will.value.retain && c.retainAvailable then 1 else 0;
    var password := if c.password.Some? then 1 else 0;
    var username := if c.username.Some? then 1 else 0;
    FlagArithmetic(clean, will, qos, retain, password, username);
    assert Flags(c) == 2 * clean + 4 * will + 8 * qos + 32 * retain + 64 * password + 128 * username;
  }

  lemma FlagArithmetic(clean: nat, will: nat, qos: nat, retain: nat, password: nat, username: nat)
    requires clean <= 1 && will <= 1 && qos <= 2 && retain <= 1 && password <= 1 && username <= 1
    ensures var f := 2 * clean + 4 * will + 8 * qos + 32 * retain + 64 * password + 128 * username;
            && f / 1 % 2 == 0 && f / 2 % 2 == clean && f / 4 % 2 == will && f / 8 % 4 == qos
            && f / 32 % 2 == retain && f / 64 % 2 == password && f / 128 % 2 == username
  {
    var f := 2 * clean + 4 * will + 8 * qos + 32 * retain + 64 * password + 128 * username;
    assert f / 2 == clean + 2 * (will + 2 * qos + 8 * retain + 16 * password + 32 * username);
    assert f / 4 == will + 2 * (qos + 4 * retain + 8 * password + 16 * username);
    assert f / 8 == qos + 4 * (retain + 2 * password + 4 * username);
    assert f / 32 == retain + 2 * (password + 2 * username);
    assert f / 64 == password + 2 * username;
    assert f / 128 == username;
  }

  lemma Nest4(a: seq<byte>, b: seq<byte>, c: seq<byte>, d: seq<byte>, rest: seq<byte>)
    ensures a + b + c + d + rest == a + b + (c + (d + rest))
  {
  }

  lemma Nest6(a: seq<byte>, b: seq<byte>, c: seq<byte>, d: seq<byte>, e: seq<byte>, f: seq<byte>)
    ensures a + b + c + d + e + f == a + (b + (c + (d + (e + (f + [])))))
  {
  }

  predicate PropertiesFit(c: Config) {
    c.protocol == Mqtt5 ==>
      && |c.properties| + |c.localProperties| < VARINT_LIMIT
      && (c.will.Some? ==> |c.will.value.properties| < VARINT_LIMIT)
  }

  lemma WillBack(c: Config, rest: seq<byte>)
    requires ValidConfig(c) && FieldsFit(c) && PropertiesFit(c)
    ensures TakeWill(Flags(c), c.protocol == Mqtt5, WillBytes(c) + rest) == Reads(ViewOf(c).will, rest)
  {
    FlagsBack(c);
    if c.will.Some? {
      WillFieldsBack(c.will.value, c.protocol == Mqtt5, rest);
    } else {
      assert [] + rest == rest;
    }
  }

  lemma WillPropertiesBack(w: Will, v5: bool, t: seq<byte>, l: seq<byte>, rest: seq<byte>)
    requires v5 ==> |w.properties| < VARINT_LIMIT
    ensures TakeBlockIf(v5, WillProperties(w, v5) + t + l + rest) ==
            Reads(if v5 then w.properties else [], t + (l + rest))
  {
    if v5 {
      Nest4(Encode(|w.properties|), w.properties, t, l, rest);
      BlockBack(w.properties, t + (l + rest));
    } else {
      assert [] + t + l + rest == t + (l + rest);
    }
  }

  lemma WillFieldsBack(w: Will, v5: bool, rest: seq<byte>)
    requires |w.topic| < 0x1_0000 && |w.payload| < 0x1_0000 && (v5 ==> |w.properties| < VARINT_LIMIT)
    ensures var s := WillProperties(w, v5) + WrittenText(w.topic) + WrittenText(w.payload) + rest;
            var s1 := WrittenText(w.topic) + (WrittenText(w.payload) + rest);
            && TakeBlockIf(v5, s) == Reads(if v5 then w.properties else [], s1)
            && TakeText(s1) == Reads(w.topic, WrittenText(w.payload) + rest)
            && TakeText(WrittenText(w.payload) + rest) == Reads(w.payload, rest)
  {
    TextBack(w.payload, rest);
    TextBack(w.topic, WrittenText(w.payload) + rest);
    WillPropertiesBack(w, v5, WrittenText(w.topic), WrittenText(w.payload), rest);
  }

  lemma PropertiesBack(c: Config, rest: seq<byte>)
    requires PropertiesFit(c)
    ensures TakeBlockIf(c.protocol == Mqtt5, PropertyBytes(c) + rest) == Reads(ViewOf(c).properties, rest)
  {
    if c.protocol == Mqtt5 {
      var p := c.properties + c.localProperties;
      BlockBack(p, rest);
      Nest3(Encode(|p|), c.properties, c.localProperties, rest);
    } else {
      assert [] + rest == rest;
    }
  }

  lemma Nest3(a: seq<byte>, b: seq<byte>, c: seq<byte>, rest: seq<byte>)
    ensures a + b + c + rest == a + (b + c) + rest
  {
  }

  lemma ClientIdBack(c: Config, rest: seq<byte>)
    requires FieldsFit(c)
    ensures TakeText(ClientIdBytes(c) + rest) == Reads(ViewOf(c).clientId, rest)
  {
    if c.clientId.Some? {
      TextBack(c.clientId.value, rest);
    } else {
      TextBack([], rest);
      assert Text([]) == Uint16(0);
    }
  }

  lemma PayloadStages(v: View, flags: byte, s: seq<byte>, s1: seq<byte>, s2: seq<byte>, s3: seq<byte>, s4: seq<byte>)
    requires Bit(flags, 2) == v.cleanSession
    requires TakeBlockIf(v.protocol == Mqtt5, s) == Reads(v.properties, s1)
    requires TakeText(s1) == Reads(v.clientId, s2)
    requires TakeWill(flags, v.protocol == Mqtt5, s2) == Reads(v.will, s3)
    requires TakeTextIf(Bit(flags, 128), s3) == Reads(v.username, s4)
    requires TakeTextIf(Bit(flags, 64), s4) == Reads(v.password, [])
    ensures TakePayload(v.protocol, flags, v.keepalive, s) == Reads(v, [])
  {
  }

  /** The fields after the variable header, nested from the right. */
  function PayloadBytes(c: Config): seq<byte>
    requires ValidConfig(c)
  {
    PropertyBytes(c) +
    (ClientIdBytes(c) + (WillBytes(c) + (OptionalBytes(c.username) + (OptionalBytes(c.password) + []))))
  }

  lemma PayloadBack(c: Config)
    requires ValidConfig(c) && FieldsFit(c) && PropertiesFit(c)
    ensures TakePayload(c.protocol, Flags(c), c.keepalive, PayloadBytes(c)) == Reads(ViewOf(c), [])
  {
    var s4 := OptionalBytes(c.password) + [];
    var s3 := OptionalBytes(c.username) + s4;
    var s2 := WillBytes(c) + s3;
    var s1 := ClientIdBytes(c) + s2;
    OptionalBack(c.password, []);
    OptionalBack(c.username, s4);
    WillBack(c, s3);
    ClientIdBack(c, s2);
    PropertiesBack(c, s1);
    FlagsBack(c);
    PayloadStages(ViewOf(c), Flags(c), PayloadBytes(c), s1, s2, s3, s4);
  }

  lemma VariableHeaderBack(c: Config, rest: seq<byte>)
    requires ValidConfig(c)
    ensures ReadConnect(VariableHeader(c) + rest) == TakePayload(c.protocol, Flags(c), c.keepalive, rest)
  {
    var name := if c.protocol == Mqtt31 then NAME_V31 else NAME;
    FixedFieldsBack(name, Version(c.protocol), Flags(c), c.keepalive, rest);
    FlagsBack(c);
    assert ProtocolOf(name, Version(c.protocol)) == Some(c.protocol);
  }

  lemma FixedFieldsBack(name: seq<byte>, version: byte, flags: byte, keepalive: nat, rest: seq<byte>)
    requires |name| < 0x1_0000 && keepalive < 0x1_0000
    ensures var s3 := Uint16(keepalive) + rest;
            && TakeText(Text(name) + [version, flags] + Uint16(keepalive) + rest) == Reads(name, [version, flags] + s3)
            && TakeByte([version, flags] + s3) == Reads(version, [flags] + s3)
            && TakeByte([flags] + s3) == Reads(flags, s3)
            && TakeUint16(s3) == Reads(keepalive, rest)
  {
    var s3 := Uint16(keepalive) + rest;
    assert Text(name) + [version, flags] + Uint16(keepalive) + rest == Text(name) + ([version, flags] + s3);
    TextBack(name, [version, flags] + s3);
    assert ([version, flags] + s3)[1..] == [flags] + s3 && ([flags] + s3)[1..] == s3 && s3[2..] == rest;
    assert s3[0] == keepalive / 256 && s3[1] == keepalive % 256;
  }

  /** Round trip: for every protocol version and every combination of client id, will, user name
    and password whose fields fit, the reader gets back exactly what was configured. */
  lemma ConnectRoundTrip(c: Config)
    requires ValidConfig(c) && FieldsFit(c) && PropertiesFit(c)
    ensures ReadConnect(ConnectBytes(c)) == Reads(ViewOf(c), [])
  {
    Nest6(VariableHeader(c), PropertyBytes(c), ClientIdBytes(c), WillBytes(c),
          OptionalBytes(c.username), OptionalBytes(c.password));
    VariableHeaderBack(c, PayloadBytes(c));
    PayloadBack(c);
  }

  /** All of the fields and nothing behind them. */
  function ReadFields(fields: seq<byte>): Option<View> {
    match ReadConnect(fields)
    case Fails => None
    case Reads(view, more) => if more == [] then Some(view) else None
  }

  /** The fields of a packet with the command byte of CONNECT, its length, and nothing behind it. */
  function TakeWhole(s: seq<byte>): Option<seq<byte>> {
    if s == [] || s[0] != 16 then None
    else
      match TakeBlock(s[1..])
      case Fails => None
      case Reads(fields, rest) => if rest == [] then Some(fields) else None
  }

  function ReadPacket(s: seq<byte>): Option<View> {
    match TakeWhole(s)
    case None => None
    case Some(fields) => ReadFields(fields)
  }

  lemma BlockAlone(b: seq<byte>)
    requires |b| < VARINT_LIMIT
    ensures TakeBlock(Encode(|b|) + b) == Reads(b, [])
  {
    BlockBack(b, []);
    assert Encode(|b|) + b + [] == Encode(|b|) + b;
  }

  lemma WholeBack(b: seq<byte>)
    requires |b| < VARINT_LIMIT
    ensures TakeWhole([16] + Encode(|b|) + b) == Some(b)
  {
    BlockAlone(b);
    BlockWhole(Encode(|b|) + b, b);
    Group([16], Encode(|b|), b);
  }

  lemma BlockWhole(block: seq<byte>, b: seq<byte>)
    requires TakeBlock(block) == Reads(b, [])
    ensures TakeWhole([16] + block) == Some(b)
  {
    assert ([16] + block)[1..] == block;
  }

  lemma Group(a: seq<byte>, b: seq<byte>, c: seq<byte>)
    ensures a + b + c == a + (b + c)
  {
  }

  /** The packet that `SendConnect` builds is read back as a whole. */
  lemma PacketRoundTrip(c: Config)
    requires ValidConfig(c) && FieldsFit(c) && PropertiesFit(c) && RemainingLength(c) < VARINT_LIMIT
    ensures ReadPacket([CMD_CONNECT] + Encode(RemainingLength(c)) + ConnectBytes(c)) == Some(ViewOf(c))
  {
    ConnectLengthIff(c);
    ConnectRoundTrip(c);
    WholeBack(ConnectBytes(c));
  }
}
