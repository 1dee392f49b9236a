/** `send__connect`: the length computed before the CONNECT packet is allocated, the bytes written
  into it, and a reader for them that follows section 3.1 of MQTT 3.1.1 and of MQTT 5.0. */
module ConnectPacket {
  import opened Common
  import opened Varint
  import opened PacketBuffer

  datatype Will = Will(topic: seq<byte>, payload: seq<byte>, qos: nat, retain: bool, properties: seq<byte>)

  /** What `send__connect` takes from `struct mosquitto` and its arguments.  Properties are the
    bytes of the property list, without its length. */
  datatype Config = Config(
    protocol: ProtocolVersion,
    clientId: Option<seq<byte>>,
    will: Option<Will>,
    username: Option<seq<byte>>,
    password: Option<seq<byte>>,
    cleanSession: bool,
    retainAvailable: bool,
    keepalive: nat,
    properties: seq<byte>,
    localProperties: seq<byte>)

  predicate ValidConfig(c: Config) {
    c.keepalive < 0x1_0000 && (c.will.Some? ==> c.will.value.qos <= 2)
  }

  // ---------- the computed length ----------

  function OptionalLength(s: Option<seq<byte>>): nat {
    if s.Some? then 2 + |s.value| else 0
  }

  function HeaderLength(c: Config): nat {
    match c.protocol
    case Mqtt5 => var n := |c.properties| + |c.localProperties|; 10 + n + VarintBytes(n)
    case Mqtt311 => 10
    case Mqtt31 => 12
  }

  function WillLength(c: Config): nat {
    match c.will
    case None => 0
    case Some(w) =>
      2 + |w.topic| + 2 + |w.payload|
      + (if c.protocol == Mqtt5 then |w.properties| + VarintBytes(|w.properties|) else 0)
  }

  function RemainingLength(c: Config): nat {
    HeaderLength(c)
    + (if c.clientId.Some? then 2 + |c.clientId.value| else 2)
    + WillLength(c)
    + OptionalLength(c.username)
    + OptionalLength(c.password)
  }

  // ---------- the bytes written ----------

  const NAME_V31: seq<byte> := [77, 81, 73, 115, 100, 112]  // "MQIsdp"
  const NAME: seq<byte> := [77, 81, 84, 84]                 // "MQTT"
  const CMD_CONNECT: byte := 0x10

  /** The cast to `uint16_t` that every string length goes through. */
  function Cast16(n: nat): nat {
    n % 0x1_0000
  }

  function WrittenText(s: seq<byte>): seq<byte> {
    Text(s[..Cast16(|s|)])
  }

  function Version(p: ProtocolVersion): byte {
    match p
    case Mqtt31 => 3
    case Mqtt311 => 4
    case Mqtt5 => 5
  }

  function Flags(c: Config): byte
    requires ValidConfig(c)
  {
    (if c.cleanSession then 2 else 0)
    + (if c.will.Some? then
         4 + 8 * c.will.value.qos + (if c.retainAvailable && c.will.value.retain then 32 else 0)
       else 0)
    + (if c.username.Some? then 128 else 0)
    + (if c.password.Some? then 64 else 0)
  }

  function VariableHeader(c: Config): seq<byte>
    requires ValidConfig(c)
  {
    Text(if c.protocol == Mqtt31 then NAME_V31 else NAME) + [Version(c.protocol), Flags(c)] + Uint16(c.keepalive)
  }

  function PropertyBytes(c: Config): seq<byte> {
    if c.protocol == Mqtt5
    then Encode(|c.properties| + |c.localProperties|) + c.properties + c.localProperties
    else []
  }

  function WillProperties(w: Will, v5: bool): seq<byte> {
    if v5 then Encode(|w.properties|) + w.properties else []
  }

  function WillBytes(c: Config): seq<byte> {
    match c.will
    case None => []
    case Some(w) =>
      WillProperties(w, c.protocol == Mqtt5) + WrittenText(w.topic) + WrittenText(w.payload)
  }

  function OptionalBytes(s: Option<seq<byte>>): seq<byte> {
    if s.Some? then WrittenText(s.value) else []
  }

  function ClientIdBytes(c: Config): seq<byte> {
    if c.clientId.Some? then WrittenText(c.clientId.value) else Uint16(0)
  }

  /** Everything after the fixed header. */
  function ConnectBytes(c: Config): seq<byte>
    requires ValidConfig(c)
  {
    VariableHeader(c) + PropertyBytes(c) + ClientIdBytes(c) + WillBytes(c)
    + OptionalBytes(c.username) + OptionalBytes(c.password)
  }

  function Refusal(c: Config): Rc {
    if c.protocol == Mqtt31 && c.clientId.None? then Protocol
    else if c.protocol != Mqtt5 && c.password.Some? && c.username.None? then Inval
    else if RemainingLength(c) >= VARINT_LIMIT then PayloadSize
    else Success
  }

  // ---------- when the two agree ----------

  /** Every length-prefixed field fits its 16-bit length. */
  predicate FieldsFit(c: Config) {
    && (c.clientId.Some? ==> |c.clientId.value| < 0x1_0000)
    && (c.username.Some? ==> |c.username.value| < 0x1_0000)
    && (c.password.Some? ==> |c.password.value| < 0x1_0000)
    && (c.will.Some? ==> |c.will.value.topic| < 0x1_0000 && |c.will.value.payload| < 0x1_0000)
  }

  lemma WrittenTextLength(s: seq<byte>)
    ensures |WrittenText(s)| <= 2 + |s|
    ensures |WrittenText(s)| == 2 + |s| <==> |s| < 0x1_0000
  {
  }

  lemma HeaderBytesLength(c: Config)
    requires ValidConfig(c) && RemainingLength(c) < UINT32_LIMIT
    ensures |VariableHeader(c)| + |PropertyBytes(c)| == HeaderLength(c)
  {
    if c.protocol == Mqtt5 {
      EncodeLength(|c.properties| + |c.localProperties|);
    }
  }

  lemma WillBytesLength(c: Config)
    requires RemainingLength(c) < UINT32_LIMIT
    ensures |WillBytes(c)| <= WillLength(c)
    ensures c.will.Some? ==>
      (|WillBytes(c)| == WillLength(c) <==> |c.will.value.topic| < 0x1_0000 && |c.will.value.payload| < 0x1_0000)
  {
    if c.will.Some? {
      if c.protocol == Mqtt5 {
        EncodeLength(|c.will.value.properties|);
      }
      WrittenTextLength(c.will.value.topic);
      WrittenTextLength(c.will.value.payload);
    }
  }

  /** The bytes written never exceed the computed length, and meet it exactly if and only if every
    field fits: a longer one is counted in full but written modulo 65536. */
  lemma ConnectLengthIff(c: Config)
    requires ValidConfig(c) && RemainingLength(c) < UINT32_LIMIT
    ensures |ConnectBytes(c)| <= RemainingLength(c)
    ensures |ConnectBytes(c)| == RemainingLength(c) <==> FieldsFit(c)
  {
    HeaderBytesLength(c);
    WillBytesLength(c);
    if c.clientId.Some? { WrittenTextLength(c.clientId.value); }
    if c.username.Some? { WrittenTextLength(c.username.value); }
    if c.password.Some? { WrittenTextLength(c.password.value); }
  }

  /** A client "a" whose will has the topic "a" and a payload of n zero bytes. */
  function WillOf(n: nat): Config {
    Config(Mqtt311, Some([97]), Some(Will([97], seq(n, _ => 0), 0, false, [])), None, None, true, true, 60, [], [])
  }

  /** With a will payload of 65536 bytes the packet announces 65554 bytes, and 18 are written. */
  lemma LongWill()
    ensures ValidConfig(WillOf(0x1_0000)) && Refusal(WillOf(0x1_0000)) == Success
    ensures RemainingLength(WillOf(0x1_0000)) == 65554
    ensures |ConnectBytes(WillOf(0x1_0000))| == 18
  {
  }

  // ---------- send__connect ----------

  /** The packet is sent exactly when the configuration is legal for its protocol version and not
    too long; no writer is ever called without room for what it writes; and the buffer ends up
    completely written if and only if every field fits its 16-bit length. */
  method SendConnect(c: Config) returns (rc: Rc, packet: Packet)
    requires ValidConfig(c) && RemainingLength(c) < UINT32_LIMIT
    ensures rc == Refusal(c)
    ensures c.protocol == Mqtt31 && c.clientId.None? ==> rc == Protocol
    ensures c.protocol == Mqtt311 && c.password.Some? && c.username.None? ==> rc == Inval
    ensures rc == Success <==>
      && (c.protocol == Mqtt31 ==> c.clientId.Some?)
      && (c.protocol == Mqtt5 || c.password.None? || c.username.Some?)
      && RemainingLength(c) < 0x1000_0000
    ensures rc == Success ==> packet.Room(0)
    ensures rc == Success ==> packet.Written() == [CMD_CONNECT] + Encode(RemainingLength(c)) + ConnectBytes(c)
    ensures rc == Success ==> (packet.pos == packet.packetLength <==> FieldsFit(c))
  {
    packet := new Packet(CMD_CONNECT, 0);
    if c.protocol == Mqtt31 && c.clientId.None? {
      return Protocol, packet;
    }
    if c.protocol != Mqtt5 && c.password.Some? && c.username.None? {
      return Inval, packet;
    }
    var remaining := ComputeLength(c);
    packet := new Packet(CMD_CONNECT, remaining);
    rc := packet.Alloc();
    if rc != Success {
      return;
    }
    ConnectLengthIff(c);
    ghost var fixed := packet.Written();
    WriteConnect(packet, c);
    assert |packet.Written()| == |fixed| + |ConnectBytes(c)|;
  }

  /** `headerlen` and `payloadlen`, accumulated field by field. */
  method ComputeLength(c: Config) returns (remaining: nat)
    ensures remaining == RemainingLength(c)
  {
    var headerlen: nat := 10;
    if c.protocol == Mqtt5 {
      var proplen := |c.properties|;
      proplen := proplen + |c.localProperties|;
      headerlen := headerlen + proplen + VarintBytes(proplen);
    } else if c.protocol == Mqtt31 {
      headerlen := 12;
    }
    var payloadlen: nat := 2;
    if c.clientId.Some? {
      payloadlen := 2 + |c.clientId.value|;
    }
    if c.will.Some? {
      var w := c.will.value;
      payloadlen := payloadlen + (2 + |w.topic| + 2 + |w.payload|);
      if c.protocol == Mqtt5 {
        payloadlen := payloadlen + |w.properties| + VarintBytes(|w.properties|);
      }
    }
    if c.username.Some? {
      payloadlen := payloadlen + 2 + |c.username.value|;
    }
    if c.password.Some? {
      payloadlen := payloadlen + 2 + |c.password.value|;
    }
    remaining := headerlen + payloadlen;
  }

  method WriteConnect(packet: Packet, c: Config)
    requires ValidConfig(c) && RemainingLength(c) < UINT32_LIMIT
    requires packet.Room(|ConnectBytes(c)|)
    modifies packet`pos, packet.payload
    ensures packet.Room(0) && packet.Written() == old(packet.Written()) + ConnectBytes(c)
  {
    ghost var before := packet.Written();
    WriteVariableHeader(packet, c);
    WriteProperties(packet, c);
    if c.clientId.Some? {
      packet.WriteString(c.clientId.value, Cast16(|c.clientId.value|));
    } else {
      packet.WriteUint16(0);
    }
    WriteWill(packet, c);
    WriteOptional(packet, c.username);
    WriteOptional(packet, c.password);
    Concat6(before, VariableHeader(c), PropertyBytes(c), ClientIdBytes(c), WillBytes(c),
            OptionalBytes(c.username), OptionalBytes(c.password));
  }

  lemma Concat6(z: seq<byte>, a: seq<byte>, b: seq<byte>, c: seq<byte>, d: seq<byte>, e: seq<byte>, f: seq<byte>)
    ensures z + a + b + c + d + e + f == z + (a + b + c + d + e + f)
  {
  }

  lemma Concat3(z: seq<byte>, a: seq<byte>, b: seq<byte>, c: seq<byte>)
    ensures z + a + b + c == z + (a + b + c)
  {
  }

  method WriteVariableHeader(packet: Packet, c: Config)
    requires ValidConfig(c) && packet.Room(|VariableHeader(c)|)
    modifies packet`pos, packet.payload
    ensures packet.Room(0) && packet.Written() == old(packet.Written()) + VariableHeader(c)
  {
    ghost var before := packet.Written();
    if c.protocol == Mqtt31 {
      packet.WriteString(NAME_V31, |NAME_V31|);
      assert NAME_V31[..|NAME_V31|] == NAME_V31;
    } else {
      packet.WriteString(NAME, |NAME|);
      assert NAME[..|NAME|] == NAME;
    }
    ghost var name := packet.Written();
    packet.WriteByte(Version(c.protocol));
    packet.WriteByte(Flags(c));
    assert packet.Written() == name + [Version(c.protocol), Flags(c)];
    packet.WriteUint16(c.keepalive);
    Concat3(before, Text(if c.protocol == Mqtt31 then NAME_V31 else NAME),
            [Version(c.protocol), Flags(c)], Uint16(c.keepalive));
  }

  method WriteProperties(packet: Packet, c: Config)
    requires RemainingLength(c) < UINT32_LIMIT && packet.Room(|PropertyBytes(c)|)
    modifies packet`pos, packet.payload
    ensures packet.Room(0) && packet.Written() == old(packet.Written()) + PropertyBytes(c)
  {
    ghost var before := packet.Written();
    if c.protocol == Mqtt5 {
      var n := |c.properties| + |c.localProperties|;
      EncodeLength(n);
      var ignored := packet.WriteVarint(n);
      packet.WriteBytes(c.properties);
      packet.WriteBytes(c.localProperties);
      Concat3(before, Encode(n), c.properties, c.localProperties);
    } else {
      assert before + [] == before;
    }
  }

  method WriteWillProperties(packet: Packet, w: Will, v5: bool)
    requires v5 ==> |w.properties| < UINT32_LIMIT
    requires packet.Room(|WillProperties(w, v5)|)
    modifies packet`pos, packet.payload
    ensures packet.Room(0) && packet.Written() == old(packet.Written()) + WillProperties(w, v5)
  {
    ghost var before := packet.Written();
    if v5 {
      EncodeLength(|w.properties|);
      var ignored := packet.WriteVarint(|w.properties|);
      packet.WriteBytes(w.properties);
      assert before + Encode(|w.properties|) + w.properties == before + (Encode(|w.properties|) + w.properties);
    } else {
      assert before + [] == before;
    }
  }

  method WriteWill(packet: Packet, c: Config)
    requires RemainingLength(c) < UINT32_LIMIT && packet.Room(|WillBytes(c)|)
    modifies packet`pos, packet.payload
    ensures packet.Room(0) && packet.Written() == old(packet.Written()) + WillBytes(c)
  {
    ghost var before := packet.Written();
    if c.will.Some? {
      var w := c.will.value;
      WriteWillProperties(packet, w, c.protocol == Mqtt5);
      packet.WriteString(w.topic, Cast16(|w.topic|));
      packet.WriteString(w.payload, Cast16(|w.payload|));
      Concat3(before, WillProperties(w, c.protocol == Mqtt5), WrittenText(w.topic), WrittenText(w.payload));
    } else {
      assert before + [] == before;
    }
  }

  method WriteOptional(packet: Packet, s: Option<seq<byte>>)
    requires packet.Room(|OptionalBytes(s)|)
    modifies packet`pos, packet.payload
    ensures packet.Room(0) && packet.Written() == old(packet.Written()) + OptionalBytes(s)
  {
    if s.Some? {
      packet.WriteString(s.value, Cast16(|s.value|));
    } else {
      assert packet.Written() + [] == packet.Written();
    }
  }
}
