/**
 * CONNECT packets (section 3.1 of MQTT 3.1.1): MQTTConnectClient.c and MQTTConnectServer.c.
 */
module MqttConnect {
  import opened MqttPacket
  import opened MqttPublish

  const CONNECT: nat := 1

  datatype Will<S> = Will(topic: S, message: S, qos: nat, retained: nat)

  /** Connection options over the strings S: the caller's MqttStrings, or just their bytes. */
  datatype Options<S> = Options(cleansession: nat, keepAlive: nat, clientID: S, will: Option<Will<S>>,
    username: S, password: S)

  /** What a server gets to see: absent strings are None. */
  datatype Connect = Connect(cleansession: nat, keepAlive: nat, clientID: seq<byte>, will: Option<Will<seq<byte>>>,
    username: Option<seq<byte>>, password: Option<seq<byte>>)

  function Given(m: MqttString): Option<seq<byte>> { if m.Null? then None else Some(Text(m)) }

  /** The options as the server sees them. */
  function View(o: Options<MqttString>): Connect {
    Connect(o.cleansession, o.keepAlive, Text(o.clientID),
      if o.will.Some? then Some(Will(Text(o.will.value.topic), Text(o.will.value.message), o.will.value.qos, o.will.value.retained))
      else None,
      Given(o.username), Given(o.password))
  }

  /** "MQTT" and "MQIsdp". */
  const MQTT: seq<byte> := [77, 81, 84, 84]
  const MQISDP: seq<byte> := [77, 81, 73, 115, 100, 112]

  function Protocol(version: nat): seq<byte> { if version == 4 then StringBytes(MQTT) + [4] else StringBytes(MQISDP) + [3] }

  function Bit(b: bool): (r: nat)
    ensures r < 2
  {
    if b then 1 else 0
  }

  /** The bit fields of MQTTConnectFlags, from the top. */
  function FlagBits(u: nat, p: nat, r: nat, q: nat, w: nat, s: nat): byte
    requires u < 2 && p < 2 && r < 2 && q < 4 && w < 2 && s < 2
  {
    u * 128 + p * 64 + r * 32 + q * 8 + w * 4 + s * 2
  }

  function Flags(c: Connect): byte {
    var u, p, s := Bit(c.username.Some?), Bit(c.password.Some?), c.cleansession % 2;
    if c.will.Some? then FlagBits(u, p, c.will.value.retained % 2, c.will.value.qos % 4, 1, s)
    else FlagBits(u, p, 0, 0, 0, s)
  }

  function MaybeString(s: Option<seq<byte>>): seq<byte> { if s.Some? then StringBytes(s.value) else [] }

  function WillBytes(w: Option<Will<seq<byte>>>): seq<byte> {
    if w.Some? then StringBytes(w.value.topic) + StringBytes(w.value.message) else []
  }

  function Strings(c: Connect): seq<byte> {
    StringBytes(c.clientID) + (WillBytes(c.will) + (MaybeString(c.username) + MaybeString(c.password)))
  }

  function ConnectBody(version: nat, c: Connect): seq<byte> {
    Protocol(version) + ([Flags(c)] + (TwoBytes(c.keepAlive) + Strings(c)))
  }

  function ConnectBytes(version: nat, c: Connect): seq<byte> {
    [HeaderByte(CONNECT, 0, 0, 0)] + (EncodeVar(|ConnectBody(version, c)|) + ConnectBody(version, c))
  }

  ghost predicate ShortString(s: Option<seq<byte>>) { s.Some? ==> |s.value| < 65536 }

  ghost predicate ConnectOk(version: nat, c: Connect) {
    && (version == 3 || version == 4) && c.cleansession < 2 && c.keepAlive < 65536 && |c.clientID| < 65536
    && (c.will.Some? ==> |c.will.value.topic| < 65536 && |c.will.value.message| < 65536 && c.will.value.qos < 4 && c.will.value.retained < 2)
    && ShortString(c.username) && ShortString(c.password) && |ConnectBody(version, c)| <= MAX_REMAINING
  }

  /** MQTTPacket_checkVersion: memcmp over at most the length of the name that came. */
  predicate CheckVersion(name: seq<byte>, version: byte) {
    || (version == 3 && name[..if |name| < 6 then |name| else 6] <= MQISDP)
    || (version == 4 && name[..if |name| < 4 then |name| else 4] <= MQTT)
  }

  datatype Login = Login(username: Option<seq<byte>>, password: Option<seq<byte>>)

  /** A string the flags announce: at least three bytes must be left. */
  function ReadLoginString(b: seq<byte>, p: nat): Read<seq<byte>> {
    if |b| < p + 3 then Bad else ReadString(b, p, |b|)
  }

  function ReadLogin(b: seq<byte>, p: nat, user: bool, pass: bool): Outcome<Login> {
    if user then
      var u := ReadLoginString(b, p);
      if !u.Got? then Failed(0)
      else if pass then
        var w := ReadLoginString(b, u.next);
        if !w.Got? then Failed(0) else Done(Login(Some(u.value), Some(w.value)))
      else Done(Login(Some(u.value), None))
    else if pass then Failed(0) else Done(Login(None, None))
  }

  /** What follows the protocol version, flags being the next byte. */
  function ReadRest(b: seq<byte>, p: nat): Outcome<Connect> {
    if |b| < p + 3 then Overrun
    else
      var f := b[p] as nat;
      var keepAlive := 256 * (b[p + 1] as int) + b[p + 2] as int;
      var id := ReadString(b, p + 3, |b|);
      if !id.Got? then Failed(0)
      else
        var willFlag := f / 4 % 2 == 1;
        var topic := if willFlag then ReadString(b, id.next, |b|) else Got([], id.next);
        if !topic.Got? then Failed(0)
        else
          var message := if willFlag then ReadString(b, topic.next, |b|) else Got([], topic.next);
          if !message.Got? then Failed(0)
          else
            var will := if willFlag then Some(Will(topic.value, message.value, f / 8 % 4, f / 32 % 2)) else None;
            var l := ReadLogin(b, message.next, f / 128 == 1, f / 64 % 2 == 1);
            if !l.Done? then Failed(0)
            else Done(Connect(f / 2 % 2, keepAlive, id.value, will, l.value.username, l.value.password))
  }

  /** MQTTDeserialize_connect on a buffer holding one packet. */
  function ReadConnect(b: seq<byte>): Outcome<Connect> {
    if |b| == 0 then Overrun
    else if b[0] / 16 != CONNECT then Failed(0)
    else
      var v := DecodeVar(b, 1);
      if !v.Got? then Overrun
      else
        var name := ReadString(b, v.next, |b|);
        if !name.Got? then Failed(0)
        else
          var version := ReadByte(b, name.next);
          if !version.Got? then Overrun
          else if !CheckVersion(name.value, version.value) then Failed(0)
          else ReadRest(b, version.next)
  }

  /** The logins a server accepts from this client: a user name that is not empty when it comes
      last, and no password but a non-empty one behind a user name. */
  predicate LoginOk(username: Option<seq<byte>>, password: Option<seq<byte>>) {
    if password.Some? then username.Some? && password.value != []
    else username.Some? ==> username.value != []
  }

  lemma FlagsBack(c: Connect)
    requires c.cleansession < 2 && (c.will.Some? ==> c.will.value.qos < 4 && c.will.value.retained < 2)
    ensures var f := Flags(c) as nat;
      && f / 2 % 2 == c.cleansession && (f / 4 % 2 == 1 <==> c.will.Some?)
      && (c.will.Some? ==> f / 8 % 4 == c.will.value.qos && f / 32 % 2 == c.will.value.retained)
      && (f / 64 % 2 == 1 <==> c.password.Some?) && (f / 128 == 1 <==> c.username.Some?)
  {
    hide FlagBits;
    var u, p, s := Bit(c.username.Some?), Bit(c.password.Some?), c.cleansession;
    if c.will.Some? {
      BitsBack(u, p, c.will.value.retained, c.will.value.qos, 1, s);
    } else {
      BitsBack(u, p, 0, 0, 0, s);
    }
  }

  lemma BitsBack(u: nat, p: nat, r: nat, q: nat, w: nat, s: nat)
    requires u < 2 && p < 2 && r < 2 && q < 4 && w < 2 && s < 2
    ensures var f := FlagBits(u, p, r, q, w, s) as nat;
      f / 2 % 2 == s && f / 4 % 2 == w && f / 8 % 4 == q && f / 32 % 2 == r && f / 64 % 2 == p && f / 128 == u
  {
    var f := u * 128 + p * 64 + r * 32 + q * 8 + w * 4 + s * 2;
    assert f / 2 == 64 * u + 32 * p + 16 * r + 4 * q + 2 * w + s;
    assert f / 4 == 32 * u + 16 * p + 8 * r + 2 * q + w;
    assert f / 8 == 16 * u + 8 * p + 4 * r + q;
    assert f / 32 == 4 * u + 2 * p + r;
    assert f / 64 == 2 * u + p;
  }

  lemma {:induction false} LoginBack(b: seq<byte>, p: nat, username: Option<seq<byte>>, password: Option<seq<byte>>)
    requires ShortString(username) && ShortString(password)
    requires At(b, p, MaybeString(username) + MaybeString(password))
    requires |b| == p + |MaybeString(username) + MaybeString(password)|
    ensures ReadLogin(b, p, username.Some?, password.Some?) ==
      if LoginOk(username, password) then Done(Login(username, password)) else Failed(0)
  {
    hide StringBytes, ReadString;
    AtParts(b, p, MaybeString(username), MaybeString(password));
    if username.Some? {
      StringLong(username.value);
      StringBack(b, p, username.value, |b|);
    }
    if password.Some? {
      var q := p + |MaybeString(username)|;
      StringLong(password.value);
      StringBack(b, q, password.value, |b|);
    }
  }

  lemma {:induction false} RestBack(b: seq<byte>, p: nat, c: Connect)
    requires c.cleansession < 2 && c.keepAlive < 65536 && |c.clientID| < 65536
    requires c.will.Some? ==> |c.will.value.topic| < 65536 && |c.will.value.message| < 65536 && c.will.value.qos < 4 && c.will.value.retained < 2
    requires ShortString(c.username) && ShortString(c.password)
    requires At(b, p, [Flags(c)] + (TwoBytes(c.keepAlive) + Strings(c)))
    requires |b| == p + 3 + |Strings(c)|
    ensures ReadRest(b, p) == if LoginOk(c.username, c.password) then Done(c) else Failed(0)
  {
    hide StringBytes, ReadString, Flags, FlagBits, TwoBytes, ReadLogin, LoginOk, MaybeString, ReadTwo, Strings, At, WillBytes;
    FlagsBack(c);
    FrontBack(b, p, c);
    var q := p + 5 + |c.clientID|;
    WillBack(b, q, c.will, |MaybeString(c.username) + MaybeString(c.password)|);
    LoginBack(b, q + |WillBytes(c.will)|, c.username, c.password);
  }

  /** The flags, the keep-alive time and the client's name, and where the others are. */
  lemma FrontBack(b: seq<byte>, p: nat, c: Connect)
    requires c.keepAlive < 65536 && |c.clientID| < 65536
    requires At(b, p, [Flags(c)] + (TwoBytes(c.keepAlive) + Strings(c))) && |b| == p + 3 + |Strings(c)|
    ensures p + 3 <= |b| && b[p] == Flags(c) && 256 * (b[p + 1] as int) + b[p + 2] as int == c.keepAlive
    ensures ReadString(b, p + 3, |b|) == Got(c.clientID, p + 5 + |c.clientID|)
    ensures var q, login := p + 5 + |c.clientID|, MaybeString(c.username) + MaybeString(c.password);
      At(b, q, WillBytes(c.will)) && At(b, q + |WillBytes(c.will)|, login) && |b| == q + |WillBytes(c.will)| + |login|
  {
    hide StringBytes, ReadString, Flags, TwoBytes, MaybeString, ReadTwo, At, WillBytes;
    TwoLong(c.keepAlive);
    AtParts(b, p, [Flags(c)], TwoBytes(c.keepAlive) + Strings(c));
    ByteBack(b, p, Flags(c));
    AtParts(b, p + 1, TwoBytes(c.keepAlive), Strings(c));
    TwoBack(b, p + 1, c.keepAlive);
    assert p + 3 <= |b|;
    TwoIs(b, p + 1);
    var login := MaybeString(c.username) + MaybeString(c.password);
    StringLong(c.clientID);
    AtParts(b, p + 3, StringBytes(c.clientID), WillBytes(c.will) + login);
    StringBack(b, p + 3, c.clientID, |b|);
    AtParts(b, p + 5 + |c.clientID|, WillBytes(c.will), login);
  }

  lemma TwoIs(b: seq<byte>, p: nat)
    requires p + 2 <= |b|
    ensures ReadTwo(b, p) == Got(256 * (b[p] as int) + b[p + 1] as int, p + 2)
  {
  }

  lemma WillBack(b: seq<byte>, q: nat, will: Option<Will<seq<byte>>>, more: nat)
    requires will.Some? ==> |will.value.topic| < 65536 && |will.value.message| < 65536
    requires At(b, q, WillBytes(will)) && |b| == q + |WillBytes(will)| + more
    ensures will.Some? ==>
      var t := ReadString(b, q, |b|);
      && t == Got(will.value.topic, q + 2 + |will.value.topic|)
      && ReadString(b, t.next, |b|) == Got(will.value.message, q + |WillBytes(will)|)
    ensures will.None? ==> |WillBytes(will)| == 0
  {
    hide StringBytes, ReadString;
    if will.Some? {
      var t, m := will.value.topic, will.value.message;
      StringLong(t);
      StringLong(m);
      AtParts(b, q, StringBytes(t), StringBytes(m));
      StringBack(b, q, t, |b|);
      StringBack(b, q + 2 + |t|, m, |b|);
    }
  }

  lemma ProtocolBack(b: seq<byte>, p: nat, version: nat)
    requires version == 3 || version == 4
    requires At(b, p, Protocol(version))
    ensures var name := if version == 4 then MQTT else MQISDP;
      && |Protocol(version)| == 3 + |name|
      && ReadString(b, p, |b|) == Got(name, p + 2 + |name|)
      && ReadByte(b, p + 2 + |name|) == Got(version, p + 3 + |name|)
      && CheckVersion(name, version)
  {
    hide ReadString;
    var name: seq<byte> := if version == 4 then MQTT else MQISDP;
    var v: byte := version;
    StringLong(name);
    AtParts(b, p, StringBytes(name), [v]);
    StringBack(b, p, name, |b|);
    ByteBack(b, p + 2 + |name|, v);
    assert name[..|name|] == name;
  }

  /** Reading a serialized CONNECT gives back everything but the version, unless the user name and
      password are a combination the server refuses. */
  lemma {:induction false} ConnectBack(version: nat, c: Connect)
    requires ConnectOk(version, c)
    ensures ReadConnect(ConnectBytes(version, c)) == if LoginOk(c.username, c.password) then Done(c) else Failed(0)
  {
    hide HeaderByte, EncodeVar, DecodeVar, ReadString, Protocol, CheckVersion, ReadRest, Strings, TwoBytes, Flags, LoginOk, ReadByte;
    var b, body := ConnectBytes(version, c), ConnectBody(version, c);
    var header, length := HeaderByte(CONNECT, 0, 0, 0), EncodeVar(|body|);
    assert At(b, 0, b) by { assert b[0..|b|] == b; }
    HeaderBack(CONNECT, 0, 0, 0);
    AtParts(b, 0, [header], length + body);
    ByteIs(b, 0, header);
    AtParts(b, 1, length, body);
    VarBack(b, 1, |body|);
    var q := 1 + |length|;
    var rest := [Flags(c)] + (TwoBytes(c.keepAlive) + Strings(c));
    AtParts(b, q, Protocol(version), rest);
    ProtocolBack(b, q, version);
    TwoLong(c.keepAlive);
    RestBack(b, q + |Protocol(version)|, c);
  }

  /** A client with an empty user name and no password is refused by the deserializer. */
  lemma RefusedLogin()
    ensures ReadConnect(ConnectBytes(4, Connect(1, 60, [], None, Some([]), None))) == Failed(0)
  {
    var c := Connect(1, 60, [], None, Some([]), None);
    hide ConnectBytes, ReadConnect;
    ProtocolLong(4);
    StringLong([]);
    assert |ConnectBody(4, c)| <= 20;
    ConnectBack(4, c);
  }

  lemma ByteIs(b: seq<byte>, p: nat, x: byte)
    requires At(b, p, [x])
    ensures p < |b| && b[p] == x
  {
    assert b[p] == b[p..p + 1][0];
  }

  /** MQTTSerialize_connectLength. */
  method ConnectLength(version: nat, o: Options<MqttString>) returns (len: nat)
    requires version == 3 || version == 4
    ensures len == |ConnectBody(version, View(o))|
  {
    hide TwoBytes, StringBytes;
    StringLong(MQTT);
    StringLong(MQISDP);
    StringLong(Text(o.clientID));
    StringLong(Text(o.username));
    StringLong(Text(o.password));
    TwoLong(o.keepAlive);
    len := if version == 3 then 12 else 10;
    len := len + |Text(o.clientID)| + 2;
    if o.will.Some? {
      StringLong(Text(o.will.value.topic));
      StringLong(Text(o.will.value.message));
      len := len + |Text(o.will.value.topic)| + 2 + |Text(o.will.value.message)| + 2;
    }
    if !o.username.Null? { len := len + |Text(o.username)| + 2; }
    if !o.password.Null? { len := len + |Text(o.password)| + 2; }
  }

  /** The packet from the protocol name on. */
  method WriteBody(buf: array<byte>, p: nat, version: nat, o: Options<MqttString>, ghost w0: seq<byte>, ghost first: seq<byte>)
    returns (ptr: nat)
    requires (version == 3 || version == 4) && Written(buf, p, w0, first)
    requires p + |ConnectBody(version, View(o))| <= buf.Length
    modifies buf
    ensures Written(buf, ptr, w0 + ConnectBody(version, View(o)), first)
  {
    hide TwoBytes, StringBytes, Written, Flags, Strings, WillBytes;
    var c := View(o);
    LengthOf(buf, p, w0, first);
    TwoLong(o.keepAlive);
    ProtocolLong(version);
    ghost var w := w0;
    if version == 4 {
      StringLong(MQTT);
      ptr := WriteString(buf, p, CString(MQTT), w, first);
      w := w + StringBytes(MQTT);
      LengthOf(buf, ptr, w, first);
      ptr := WriteChar(buf, ptr, 4, w, first);
      w := w + [4];
    } else {
      StringLong(MQISDP);
      ptr := WriteString(buf, p, CString(MQISDP), w, first);
      w := w + StringBytes(MQISDP);
      LengthOf(buf, ptr, w, first);
      ptr := WriteChar(buf, ptr, 3, w, first);
      w := w + [3];
    }
    assert w == w0 + Protocol(version);
    LengthOf(buf, ptr, w, first);
    ptr := WriteChar(buf, ptr, Flags(c), w, first);
    w := w + [Flags(c)];
    LengthOf(buf, ptr, w, first);
    ptr := WriteInt(buf, ptr, o.keepAlive, w, first);
    w := w + TwoBytes(o.keepAlive);
    LengthOf(buf, ptr, w, first);
    ptr := WriteStrings(buf, ptr, o, w, first);
    Regroup(w0, Protocol(version), [Flags(c)], TwoBytes(o.keepAlive), Strings(c));
    assert w + Strings(c) == w0 + ConnectBody(version, c);
  }

  lemma ProtocolLong(version: nat)
    ensures |Protocol(version)| == if version == 4 then 7 else 9
  {
    StringLong(MQTT);
    StringLong(MQISDP);
  }

  method WriteStrings(buf: array<byte>, p: nat, o: Options<MqttString>, ghost w0: seq<byte>, ghost first: seq<byte>)
    returns (ptr: nat)
    requires Written(buf, p, w0, first) && p + |Strings(View(o))| <= buf.Length
    modifies buf
    ensures Written(buf, ptr, w0 + Strings(View(o)), first)
  {
    hide StringBytes, Written;
    ghost var c := View(o);
    StringLong(Text(o.clientID));
    StringLong(Text(o.username));
    StringLong(Text(o.password));
    LengthOf(buf, p, w0, first);
    ptr := WriteString(buf, p, o.clientID, w0, first);
    ghost var w := w0 + StringBytes(Text(o.clientID));
    LengthOf(buf, ptr, w, first);
    if o.will.Some? {
      var will := o.will.value;
      StringLong(Text(will.topic));
      StringLong(Text(will.message));
      ptr := WriteString(buf, ptr, will.topic, w, first);
      ghost var w1 := w + StringBytes(Text(will.topic));
      LengthOf(buf, ptr, w1, first);
      ptr := WriteString(buf, ptr, will.message, w1, first);
      assert w1 + StringBytes(Text(will.message)) == w + WillBytes(c.will);
    }
    w := w + WillBytes(c.will);
    LengthOf(buf, ptr, w, first);
    if !o.username.Null? { ptr := WriteString(buf, ptr, o.username, w, first); }
    w := w + MaybeString(c.username);
    LengthOf(buf, ptr, w, first);
    if !o.password.Null? { ptr := WriteString(buf, ptr, o.password, w, first); }
    w := w + MaybeString(c.password);
    LengthOf(buf, ptr, w, first);
    assert w == w0 + Strings(c) by {
      Regroup(w0, StringBytes(c.clientID), WillBytes(c.will), MaybeString(c.username), MaybeString(c.password));
    }
  }

  /** MQTTSerialize_connect. */
  method SerializeConnect(buf: array<byte>, buflen: nat, version: nat, o: Options<MqttString>) returns (rc: int)
    requires buflen <= buf.Length && (version == 3 || version == 4)
    requires |ConnectBody(version, View(o))| <= MAX_REMAINING
    modifies buf
    ensures var c := View(o);
      if PacketLen(|ConnectBody(version, c)|) > buflen then rc == -2 && buf[..] == old(buf[..])
      else 0 < rc <= buflen && buf[..rc] == ConnectBytes(version, c) && buf[rc..] == old(buf[rc..])
  {
    hide EncodeVar, HeaderByte, ConnectBody, Written;
    ghost var first, c := buf[..], View(o);
    StartWriting(buf);
    var length := ConnectLength(version, o);
    LenSuffices(length);
    if PacketLen(length) > buflen { return BUFFER_TOO_SHORT; }
    var header := HeaderByte(CONNECT, 0, 0, 0);
    var ptr := WriteChar(buf, 0, header, [], first);
    ghost var w: seq<byte> := [header];
    assert [] + w == w;
    LengthOf(buf, ptr, w, first);
    ptr := Encode(buf, ptr, length, w, first);
    w := w + EncodeVar(length);
    LengthOf(buf, ptr, w, first);
    ptr := WriteBody(buf, ptr, version, o, w, first);
    w := w + ConnectBody(version, c);
    LengthOf(buf, ptr, w, first);
    assert w == ConnectBytes(version, c);
    rc := ptr;
  }

  /** MQTTDeserialize_connect. */
  method DeserializeConnect(buf: array<byte>, buflen: nat) returns (r: Outcome<Connect>)
    requires buflen <= buf.Length
    ensures r == ReadConnect(buf[..buflen])
  {
    hide DecodeVar, ReadString, CheckVersion, ReadRest;
    if buflen == 0 { return Overrun; }
    if buf[0] / 16 != CONNECT { return Failed(0); }
    var v := Decode(buf, buflen, 1);
    if !v.Got? { return Overrun; }
    var name := ReadStringAt(buf, buflen, v.next, buflen);
    if !name.Got? { return Failed(0); }
    if buflen <= name.next { return Overrun; }
    var version := buf[name.next];
    if !CheckVersion(name.value, version) { return Failed(0); }
    r := DeserializeRest(buf, buflen, name.next + 1);
  }

  method DeserializeRest(buf: array<byte>, buflen: nat, p: nat) returns (r: Outcome<Connect>)
    requires buflen <= buf.Length
    ensures r == ReadRest(buf[..buflen], p)
  {
    hide ReadString;
    if buflen < p + 3 { return Overrun; }
    var f := buf[p] as nat;
    var keepAlive := 256 * (buf[p + 1] as int) + buf[p + 2] as int;
    var id := ReadStringAt(buf, buflen, p + 3, buflen);
    if !id.Got? { return Failed(0); }
    var cur := id.next;
    var will: Option<Will<seq<byte>>> := None;
    if f / 4 % 2 == 1 {
      var topic := ReadStringAt(buf, buflen, cur, buflen);
      if !topic.Got? { return Failed(0); }
      var message := ReadStringAt(buf, buflen, topic.next, buflen);
      if !message.Got? { return Failed(0); }
      will := Some(Will(topic.value, message.value, f / 8 % 4, f / 32 % 2));
      cur := message.next;
    }
    var username: Option<seq<byte>>, password: Option<seq<byte>> := None, None;
    if f / 128 == 1 {
      if buflen < cur + 3 { return Failed(0); }
      var u := ReadStringAt(buf, buflen, cur, buflen);
      if !u.Got? { return Failed(0); }
      username, cur := Some(u.value), u.next;
      if f / 64 % 2 == 1 {
        if buflen < cur + 3 { return Failed(0); }
        var w := ReadStringAt(buf, buflen, cur, buflen);
        if !w.Got? { return Failed(0); }
        password := Some(w.value);
      }
    } else if f / 64 % 2 == 1 {
      return Failed(0);
    }
    r := Done(Connect(f / 2 % 2, keepAlive, id.value, will, username, password));
  }
}
