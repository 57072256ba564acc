/** The bytes of CONNECT, PUBLISH and SUBSCRIBE packets by their positions (sections 2.2, 3.1, 3.3 and
    3.8 of MQTT 3.1.1). */
module MqttLayout {
  import opened MqttPacket
  import opened MqttPublish
  import opened MqttConnect

  /** The remaining length, seven bits a byte, the top bit set in all but the last. */
  lemma LengthLayout(n: nat)
    requires n <= 268435455
    ensures n <= 127 ==> EncodeVar(n) == [n]
    ensures 128 <= n <= 16383 ==> EncodeVar(n) == [n % 128 + 128, n / 128]
    ensures 16384 <= n <= 2097151 ==> EncodeVar(n) == [n % 128 + 128, n / 128 % 128 + 128, n / 16384]
    ensures 2097152 <= n ==> EncodeVar(n) == [n % 128 + 128, n / 128 % 128 + 128, n / 16384 % 128 + 128, n / 2097152]
  {
    if 128 <= n <= 16383 { TwoDigits(n); }
    if 16384 <= n <= 2097151 { ThreeDigits(n); }
    if 2097152 <= n { FourDigits(n); }
  }

  lemma TwoDigits(n: nat)
    requires 128 <= n <= 16383
    ensures EncodeVar(n) == [n % 128 + 128, n / 128]
  {
    Next(n);
  }

  lemma ThreeDigits(n: nat)
    requires 16384 <= n <= 2097151
    ensures EncodeVar(n) == [n % 128 + 128, n / 128 % 128 + 128, n / 16384]
  {
    hide EncodeVar;
    Next(n);
    TwoDigits(n / 128);
    Quotients(n);
  }

  lemma FourDigits(n: nat)
    requires 2097152 <= n <= 268435455
    ensures EncodeVar(n) == [n % 128 + 128, n / 128 % 128 + 128, n / 16384 % 128 + 128, n / 2097152]
  {
    hide EncodeVar;
    Next(n);
    ThreeDigits(n / 128);
    Quotients(n);
  }

  lemma Quotients(n: nat)
    ensures n / 128 / 128 == n / 16384 && n / 128 / 16384 == n / 2097152
  {
  }

  lemma Next(n: nat)
    ensures EncodeVar(n) == if n < 128 then [n] else [n % 128 + 128] + EncodeVar(n / 128)
  {
  }

  /** A string at p: two bytes of length, the high one first, and its bytes. */
  ghost predicate StringAt(s: seq<byte>, p: nat, t: seq<byte>) {
    p + 2 + |t| <= |s| && s[p] == |t| / 256 % 256 && s[p + 1] == |t| % 256 && s[p + 2..p + 2 + |t|] == t
  }

  lemma Piece(front: seq<byte>, t: seq<byte>, rest: seq<byte>, s: seq<byte>)
    requires s == front + (StringBytes(t) + rest)
    ensures StringAt(s, |front|, t) && |s| == |front| + |t| + 2 + |rest| && s[|front| + |t| + 2..] == rest
  {
    var n := |front|;
    assert s[n] == TwoBytes(|t|)[0] && s[n + 1] == TwoBytes(|t|)[1];
    assert s[n + 2..n + 2 + |t|] == t;
  }

  // ---------------------------------------------------------------- CONNECT

  /** What follows the flags and the keep-alive time. */
  function PayloadStart(version: nat): nat { if version == 4 then 10 else 12 }

  /** The flag byte says which strings follow: bit 7 a user name, bit 6 a password, bit 2 a will with
      its quality of service in bits 4 and 3 and whether it is retained in bit 5; bit 1 asks for a clean
      session, and bit 0 is 0. */
  ghost predicate FlagsAre(f: int, o: Options<MqttString>) {
    && 0 <= f < 256 && (f / 128 == 1 <==> !o.username.Null?) && (f / 64 % 2 == 1 <==> !o.password.Null?)
    && (if o.will.Some?
        then f / 4 % 2 == 1 && f / 8 % 4 == o.will.value.qos && f / 32 % 2 == o.will.value.retained
        else f / 4 % 16 == 0)
    && f / 2 % 2 == o.cleansession && f % 2 == 0
  }

  lemma FlagsSay(o: Options<MqttString>)
    requires o.cleansession < 2 && (o.will.Some? ==> o.will.value.qos < 4 && o.will.value.retained < 2)
    ensures FlagsAre(Flags(View(o)), o)
  {
    FlagsBack(View(o));
  }

  /** Where the user name starts in the payload, and the password. */
  function UserStart(o: Options<MqttString>): nat {
    |Text(o.clientID)| + 2 + if o.will.Some? then |Text(o.will.value.topic)| + |Text(o.will.value.message)| + 4 else 0
  }

  function PasswordStart(o: Options<MqttString>): nat { UserStart(o) + if o.username.Null? then 0 else |Text(o.username)| + 2 }

  lemma Lengths(o: Options<MqttString>)
    ensures var c := View(o);
      |StringBytes(c.clientID)| + |WillBytes(c.will)| == UserStart(o)
      && |MaybeString(c.username)| == PasswordStart(o) - UserStart(o)
  {
    hide Text;
  }

  /** The payload: the client's name, the topic and message of a will, the user name and the
      password, each of those that the flags announce, and nothing else. */
  lemma {:induction false} PayloadLayout(o: Options<MqttString>)
    ensures var s := Strings(View(o));
      && StringAt(s, 0, Text(o.clientID))
      && (o.will.Some? ==> var w := o.will.value;
          var t := |Text(o.clientID)| + 2;
          StringAt(s, t, Text(w.topic)) && StringAt(s, t + 2 + |Text(w.topic)|, Text(w.message)))
      && (!o.username.Null? ==> StringAt(s, UserStart(o), Text(o.username)))
      && (!o.password.Null? ==> StringAt(s, PasswordStart(o), Text(o.password)))
      && |s| == PasswordStart(o) + if o.password.Null? then 0 else |Text(o.password)| + 2
  {
    hide StringAt, StringBytes, Text, Strings;
    Lengths(o);
    WillLayout(o);
    LoginLayout(o);
  }

  lemma {:induction false} WillLayout(o: Options<MqttString>)
    ensures var s := Strings(View(o));
      && StringAt(s, 0, Text(o.clientID))
      && (o.will.Some? ==> var w := o.will.value;
          var t := |Text(o.clientID)| + 2;
          StringAt(s, t, Text(w.topic)) && StringAt(s, t + 2 + |Text(w.topic)|, Text(w.message)))
  {
    hide StringAt, StringBytes, Text, WillBytes, MaybeString;
    var c := View(o);
    var login := MaybeString(c.username) + MaybeString(c.password);
    FirstStrings(c.clientID, c.will, login, Strings(c));
  }

  lemma {:induction false} FirstStrings(id: seq<byte>, will: Option<Will<seq<byte>>>, login: seq<byte>, s: seq<byte>)
    requires s == StringBytes(id) + (WillBytes(will) + login)
    ensures StringAt(s, 0, id)
    ensures will.Some? ==>
      StringAt(s, |id| + 2, will.value.topic) && StringAt(s, |id| + 4 + |will.value.topic|, will.value.message)
  {
    hide StringAt, StringBytes;
    assert s == [] + (StringBytes(id) + (WillBytes(will) + login));
    Piece([], id, WillBytes(will) + login, s);
    if will.Some? { WillStrings(StringBytes(id), will.value.topic, will.value.message, login, s); StringLong(id); }
  }

  lemma WillStrings(a: seq<byte>, topic: seq<byte>, message: seq<byte>, login: seq<byte>, s: seq<byte>)
    requires s == a + ((StringBytes(topic) + StringBytes(message)) + login)
    ensures StringAt(s, |a|, topic) && StringAt(s, |a| + 2 + |topic|, message)
  {
    hide StringAt, StringBytes;
    var t, m := StringBytes(topic), StringBytes(message);
    Regrouped(a, t, m, login);
    Piece(a, topic, m + login, s);
    Piece(a + t, message, login, s);
    StringLong(topic);
  }

  lemma Regrouped(a: seq<byte>, b: seq<byte>, c: seq<byte>, d: seq<byte>)
    ensures a + ((b + c) + d) == a + (b + (c + d)) == (a + b) + (c + d)
  {
  }

  lemma {:induction false} LoginLayout(o: Options<MqttString>)
    ensures var s := Strings(View(o));
      && (!o.username.Null? ==> StringAt(s, UserStart(o), Text(o.username)))
      && (!o.password.Null? ==> StringAt(s, PasswordStart(o), Text(o.password)))
      && |s| == PasswordStart(o) + if o.password.Null? then 0 else |Text(o.password)| + 2
  {
    hide StringAt, StringBytes, Text, UserStart, PasswordStart;
    Lengths(o);
    var c := View(o);
    var front, user, pass := StringBytes(c.clientID) + WillBytes(c.will), MaybeString(c.username), MaybeString(c.password);
    var s := Strings(c);
    assert s == front + (user + pass) == (front + user) + pass;
    if c.username.Some? { Piece(front, c.username.value, pass, s); }
    if c.password.Some? {
      assert s == (front + user) + (pass + []);
      Piece(front + user, c.password.value, [], s);
    }
  }

  /** The variable header: "MQTT" and 4, or "MQIsdp" and 3; the flags, and the keep-alive time. */
  lemma {:induction false} ConnectLayout(version: nat, o: Options<MqttString>)
    requires ConnectOk(version, View(o))
    ensures ConnectBytes(version, View(o))[0] == 16
    ensures var s, v := ConnectBody(version, View(o)), PayloadStart(version);
      && |s| >= v && s[v..] == Strings(View(o))
      && (version == 4 ==> s[..7] == [0, 4, 77, 81, 84, 84, 4])
      && (version == 3 ==> s[..9] == [0, 6, 77, 81, 73, 115, 100, 112, 3])
      && FlagsAre(s[v - 3], o) && s[v - 2] == o.keepAlive / 256 && s[v - 1] == o.keepAlive % 256
  {
    hide FlagsAre, Flags, Strings, Protocol;
    var c := View(o);
    var s, v := ConnectBody(version, c), PayloadStart(version);
    FlagsSay(o);
    ProtocolLayout(version);
    var rest := TwoBytes(c.keepAlive) + Strings(c);
    assert s == Protocol(version) + ([Flags(c)] + rest);
    assert s[v - 2..] == rest;
    assert s[v..] == rest[2..];
  }

  lemma ProtocolLayout(version: nat)
    ensures Protocol(version) == if version == 4 then [0, 4, 77, 81, 84, 84, 4] else [0, 6, 77, 81, 73, 115, 100, 112, 3]
  {
  }

  /** CheckVersion takes a prefix of the name with its version and no other. */
  lemma VersionsTaken(name: seq<byte>, version: byte)
    ensures CheckVersion(name, version) <==>
      var right := if version == 4 then [77, 81, 84, 84] else [77, 81, 73, 115, 100, 112];
      (version == 3 || version == 4) && forall i :: 0 <= i < |name| && i < |right| ==> name[i] == right[i]
  {
  }

  // ---------------------------------------------------------------- PUBLISH and SUBSCRIBE

  /** The first byte of a PUBLISH is 48 and its flags; the topic, the packet id if there is one and the
      payload follow the remaining length. */
  lemma {:induction false} PublishLayout(p: Publish)
    requires PublishOk(p)
    ensures PublishBytes(p)[0] == 48 + 8 * p.dup + 2 * p.qos + p.retained
    ensures var s, n := PublishBody(p), |p.topic| + 2;
      var m := if p.qos == 0 then n else n + 2;
      && StringAt(s, 0, p.topic) && |s| >= m && s[m..] == p.payload
      && (p.qos > 0 ==> s[n] == p.packetid.value / 256 && s[n + 1] == p.packetid.value % 256)
  {
    hide StringAt, StringBytes, HeaderByte, IdBytes, PublishOk;
    IdLayout(p);
    FirstByte(p);
    var s, n := PublishBody(p), |p.topic| + 2;
    assert s == [] + s;
    Piece([], p.topic, IdBytes(p.packetid) + p.payload, s);
    if p.qos > 0 {
      assert s[n] == s[n..][0] && s[n + 1] == s[n..][1];
      assert s[n + 2..] == s[n..][2..] == p.payload;
    }
  }

  lemma FirstByte(p: Publish)
    requires p.dup < 2 && p.qos < 4 && p.retained < 2
    ensures HeaderByte(PUBLISH, p.dup, p.qos, p.retained) == 48 + 8 * p.dup + 2 * p.qos + p.retained
  {
  }

  lemma IdLayout(p: Publish)
    requires PublishOk(p)
    ensures p.dup < 2 && p.qos < 4 && p.retained < 2
    ensures IdBytes(p.packetid) == if p.qos == 0 then [] else [p.packetid.value / 256, p.packetid.value % 256]
  {
  }

  /** The first byte of a SUBSCRIBE is 130, or 138 when it is sent again; the packet id and the filters,
      each with its quality of service behind it, follow the remaining length. */
  lemma {:induction false} SubscribeLayout(p: Subscribe)
    requires SubscribeOk(p)
    ensures SubscribeBytes(p)[0] == (if p.dup == 1 then 138 else 130)
    ensures var s := SubscribeBody(p);
      && |s| >= 2 && s[0] == p.packetid / 256 && s[1] == p.packetid % 256
      && (p.filters != [] ==> var t := p.filters[0].topic;
          StringAt(s, 2, t) && |s| >= |t| + 5 && s[|t| + 4] == p.filters[0].qos
          && s[|t| + 5..] == FiltersBytes(p.filters[1..]))
  {
    hide StringAt, StringBytes;
    var s := SubscribeBody(p);
    if p.filters != [] {
      var f, rest := p.filters[0], FiltersBytes(p.filters[1..]);
      assert FiltersBytes(p.filters) == StringBytes(f.topic) + ([f.qos] + rest);
      Piece(TwoBytes(p.packetid), f.topic, [f.qos] + rest, s);
      assert s[|f.topic| + 4] == s[|f.topic| + 4..][0];
      assert s[|f.topic| + 5..] == s[|f.topic| + 4..][1..];
    }
  }
}
