/**
 * PUBLISH and SUBSCRIBE packets (sections 3.3 and 3.8 of MQTT 3.1.1): MQTTSerializePublish.c,
 * MQTTDeserializePublish.c, MQTTSubscribeClient.c and MQTTSubscribeServer.c.
 */
module MqttPublish {
  import opened MqttPacket

  datatype Option<T> = None | Some(value: T)

  /** Done; an error return; a success whose payload has a negative length; or something read, or
      handed to the caller, that lies beyond the end of the buffer. */
  datatype Outcome<T> = Done(value: T) | Failed(rc: int) | Negative(payloadlen: int) | Overrun

  const PUBLISH: nat := 3
  const SUBSCRIBE: nat := 8

  /** The fixed header byte, its fields cut to their widths. */
  function HeaderByte(kind: nat, dup: nat, qos: nat, retained: nat): byte {
    kind % 16 * 16 + dup % 2 * 8 + qos % 4 * 2 + retained % 2
  }

  lemma HeaderBack(kind: nat, dup: nat, qos: nat, retained: nat)
    requires kind < 16 && dup < 2 && qos < 4 && retained < 2
    ensures var h := HeaderByte(kind, dup, qos, retained) as int;
      h / 16 == kind && h / 8 % 2 == dup && h / 2 % 4 == qos && h % 2 == retained
  {
    var h := kind * 16 + dup * 8 + qos * 2 + retained;
    assert HeaderByte(kind, dup, qos, retained) == h;
    assert h / 8 == kind * 2 + dup;
    assert h / 2 == kind * 8 + dup * 4 + qos;
  }

  /** A packet id is there exactly when the quality of service is above 0. */
  datatype Publish = Publish(dup: nat, qos: nat, retained: nat, packetid: Option<nat>, topic: seq<byte>, payload: seq<byte>)

  function IdBytes(p: Option<nat>): seq<byte> { if p.Some? then TwoBytes(p.value) else [] }

  function PublishBody(p: Publish): seq<byte> { StringBytes(p.topic) + (IdBytes(p.packetid) + p.payload) }

  function PublishBytes(p: Publish): seq<byte> {
    [HeaderByte(PUBLISH, p.dup, p.qos, p.retained)] + (EncodeVar(|PublishBody(p)|) + PublishBody(p))
  }

  ghost predicate PublishOk(p: Publish) {
    && p.dup < 2 && p.qos < 4 && p.retained < 2 && |p.topic| < 65536
    && (p.packetid.Some? <==> p.qos > 0) && (p.packetid.Some? ==> p.packetid.value < 65536)
    && |PublishBody(p)| <= MAX_REMAINING
  }

  /** What MQTTDeserialize_publish makes of a buffer; a topic that does not fit is reported with
      the size of the length field as return code. */
  function ReadPublish(b: seq<byte>): Outcome<Publish> {
    if |b| == 0 then Overrun
    else if b[0] / 16 != PUBLISH then Failed(0)
    else
      var qos := (b[0] / 2 % 4) as nat;
      var v := DecodeVar(b, 1);
      if !v.Got? then Overrun
      else
        var end := v.next + v.value;
        var t := ReadString(b, v.next, end);
        if t.Over? then Overrun
        else if t.Bad? then Failed(v.next - 1)
        else
          var id := if qos > 0 then ReadTwo(b, t.next) else Got(0, t.next);
          if !id.Got? then Overrun
          else if end < id.next then Negative(end - id.next)
          else if |b| < end then Overrun
          else Done(Publish(b[0] / 8 % 2, qos, b[0] % 2, if qos > 0 then Some(id.value) else None, t.value, b[id.next..end]))
  }

  /** Reading a serialized PUBLISH gives back every field. */
  lemma {:induction false} PublishBack(b: seq<byte>, p: Publish)
    requires PublishOk(p) && At(b, 0, PublishBytes(p))
    ensures ReadPublish(b) == Done(p)
  {
    hide HeaderByte, DecodeVar, ReadString, ReadTwo, EncodeVar, TwoBytes;
    StringLong(p.topic);
    if p.qos > 0 { TwoLong(p.packetid.value); }
    var header, body := HeaderByte(PUBLISH, p.dup, p.qos, p.retained), PublishBody(p);
    var length := EncodeVar(|body|);
    HeaderBack(PUBLISH, p.dup, p.qos, p.retained);
    AtParts(b, 0, [header], length + body);
    ByteBack(b, 0, header);
    AtParts(b, 1, length, body);
    VarBack(b, 1, |body|);
    var q := 1 + |length|;
    AtParts(b, q, StringBytes(p.topic), IdBytes(p.packetid) + p.payload);
    StringBack(b, q, p.topic, q + |body|);
    var r := q + |StringBytes(p.topic)|;
    AtParts(b, r, IdBytes(p.packetid), p.payload);
    if p.qos > 0 { TwoBack(b, r, p.packetid.value); }
  }

  /** A PUBLISH whose topic does not fit is taken for a success exactly when its length field
      is one byte. */
  lemma {:induction false} PublishFailure(b: seq<byte>)
    requires ReadPublish(b).Failed? && b[0] / 16 == PUBLISH
    ensures ReadPublish(b).rc == 1 <==> b[1] < 128
  {
    ReadVarMoves(b, 2, 1, 128, (b[1] % 128) as nat);
  }

  lemma {:induction false} ReadVarMoves(b: seq<byte>, p: nat, len: nat, multiplier: nat, value: nat)
    requires len <= 4
    ensures ReadVar(b, p, len, multiplier, value).Got? ==> ReadVar(b, p, len, multiplier, value).next > p
    decreases 4 - len
  {
    if len < 4 && p < |b| && b[p] >= 128 {
      ReadVarMoves(b, p + 1, len + 1, multiplier * 128, value + b[p] % 128 * multiplier);
    }
  }

  /** Such a packet: one byte follows the header where a topic should be. */
  lemma PublishFailureExample()
    ensures ReadPublish([HeaderByte(PUBLISH, 0, 0, 0), 1, 0]) == Failed(1)
  {
    var b: seq<byte> := [HeaderByte(PUBLISH, 0, 0, 0), 1, 0];
    assert b[0] / 16 == PUBLISH;
    assert DecodeVar(b, 1) == Got(1, 2);
  }

  /** A malformed PUBLISH is taken for a success, with a negative payload length, exactly when the
      topic fits and the packet id behind it crosses the end of the packet: the remaining length m is
      one or two bytes short of a topic of n bytes and an id, and the bytes of the id are there. */
  lemma {:induction false} NegativePayload(b: seq<byte>, m: nat, q: nat)
    requires |b| > 0 && b[0] / 16 == PUBLISH && DecodeVar(b, 1) == Got(m, q)
    ensures ReadPublish(b).Negative? <==>
      b[0] / 2 % 4 > 0 && q + 2 <= |b| && var n := 256 * (b[q] as int) + b[q + 1] as int; n + 2 <= m < n + 4 && q + n + 4 <= |b|
    ensures ReadPublish(b).Negative? ==>
      q + 2 <= |b| && ReadPublish(b).payloadlen == m - 4 - 256 * (b[q] as int) - b[q + 1] as int && -2 <= ReadPublish(b).payloadlen < 0
  {
    hide DecodeVar;
  }

  /** Such a packet: topic "a" and nothing else, in a buffer of seven bytes. */
  lemma NegativePayloadExample(x: byte, y: byte)
    ensures ReadPublish([HeaderByte(PUBLISH, 0, 1, 0), 3, 0, 1, 97, x, y]) == Negative(-2)
  {
    var b: seq<byte> := [HeaderByte(PUBLISH, 0, 1, 0), 3, 0, 1, 97, x, y];
    assert b[0] == 50;
    assert DecodeVar(b, 1) == Got(3, 2);
    assert ReadTwo(b, 2) == Got(1, 4);
    assert ReadTwo(b, 5).Got?;
  }

  /** MQTTSerialize_publish: nothing is written unless the room asked for is there, and then
      exactly the packet, inside the buffer. */
  method SerializePublish(buf: array<byte>, buflen: nat, dup: nat, qos: nat, retained: nat, packetid: nat, topic: MqttString,
    payload: seq<byte>) returns (rc: int)
    requires buflen <= buf.Length
    requires 2 + |Text(topic)| + |payload| + (if qos > 0 then 2 else 0) <= MAX_REMAINING
    modifies buf
    ensures var p := Publish(dup, qos, retained, if qos > 0 then Some(packetid) else None, Text(topic), payload);
      if PacketLen(|PublishBody(p)|) > buflen then rc == -2 && buf[..] == old(buf[..])
      else 0 < rc <= buflen && buf[..rc] == PublishBytes(p) && buf[rc..] == old(buf[rc..])
  {
    hide EncodeVar, HeaderByte, TwoBytes, StringBytes, Written;
    TwoLong(packetid);
    StringLong(Text(topic));
    ghost var first := buf[..];
    StartWriting(buf);
    ghost var p := Publish(dup, qos, retained, if qos > 0 then Some(packetid) else None, Text(topic), payload);
    var length := 2 + |Text(topic)| + |payload| + if qos > 0 then 2 else 0;
    assert length == |PublishBody(p)|;
    LenSuffices(length);
    if PacketLen(length) > buflen { return BUFFER_TOO_SHORT; }
    var header := HeaderByte(PUBLISH, dup, qos, retained);
    var ptr := WriteChar(buf, 0, header, [], first);
    ghost var w: seq<byte> := [header];
    assert [] + w == w;
    LengthOf(buf, ptr, w, first);
    ptr := Encode(buf, ptr, length, w, first);
    w := w + EncodeVar(length);
    LengthOf(buf, ptr, w, first);
    ptr := WriteString(buf, ptr, topic, w, first);
    w := w + StringBytes(Text(topic));
    LengthOf(buf, ptr, w, first);
    if qos > 0 { ptr := WriteInt(buf, ptr, packetid, w, first); }
    w := w + IdBytes(p.packetid);
    LengthOf(buf, ptr, w, first);
    ptr := Copy(buf, ptr, payload, w, first);
    w := w + payload;
    LengthOf(buf, ptr, w, first);
    Regroup([header], EncodeVar(length), StringBytes(Text(topic)), IdBytes(p.packetid), payload);
    rc := ptr;
  }

  lemma Regroup(h: seq<byte>, e: seq<byte>, t: seq<byte>, i: seq<byte>, p: seq<byte>)
    ensures h + e + t + i + p == h + (e + (t + (i + p)))
  {
    assert t + (i + p) == t + i + p;
    assert e + (t + i + p) == e + t + i + p;
  }

  lemma StartWriting(buf: array<byte>)
    ensures Written(buf, 0, [], buf[..])
  {
  }

  lemma LengthOf(buf: array<byte>, ptr: nat, w: seq<byte>, first: seq<byte>)
    requires Written(buf, ptr, w, first)
    ensures ptr == |w| <= buf.Length == |first| && buf[..ptr] == w && buf[ptr..] == first[ptr..]
  {
  }

  /** MQTTDeserialize_publish. */
  method DeserializePublish(buf: array<byte>, buflen: nat) returns (r: Outcome<Publish>)
    requires buflen <= buf.Length
    ensures r == ReadPublish(buf[..buflen])
  {
    hide DecodeVar, ReadString;
    ghost var b := buf[..buflen];
    if buflen == 0 { return Overrun; }
    var header := buf[0];
    if header / 16 != PUBLISH { return Failed(0); }
    var dup, qos, retained := header / 8 % 2, header / 2 % 4, header % 2;
    var v := Decode(buf, buflen, 1);
    if !v.Got? { return Overrun; }
    var cur, end := v.next, v.next + v.value;
    var t := ReadStringAt(buf, buflen, cur, end);
    if t.Over? { return Overrun; }
    if t.Bad? { return Failed(cur - 1); }
    cur := t.next;
    var packetid: Option<nat> := None;
    if qos > 0 {
      if buflen < cur + 2 { return Overrun; }
      packetid := Some(256 * (buf[cur] as int) + buf[cur + 1] as int);
      cur := cur + 2;
    }
    if end < cur { return Negative(end - cur); }
    if buflen < end { return Overrun; }
    r := Done(Publish(dup, qos, retained, packetid, t.value, buf[cur..end]));
    SliceOf(buf, buflen, cur, end);
  }

  /** readMQTTLenString. */
  method ReadStringAt(buf: array<byte>, buflen: nat, p: nat, end: nat) returns (r: Read<seq<byte>>)
    requires buflen <= buf.Length
    ensures r == ReadString(buf[..buflen], p, end)
  {
    ghost var b := buf[..buflen];
    if end <= p + 1 { return Bad; }
    if buflen < p + 2 { return Over; }
    var len := 256 * (buf[p] as int) + buf[p + 1] as int;
    assert ReadTwo(b, p) == Got(len, p + 2);
    if end < p + 2 + len { return Bad; }
    if buflen < p + 2 + len { return Over; }
    SliceOf(buf, buflen, p + 2, p + 2 + len);
    r := Got(buf[p + 2..p + 2 + len], p + 2 + len);
  }

  datatype Filter = Filter(topic: seq<byte>, qos: byte)

  datatype Subscribe = Subscribe(dup: nat, packetid: nat, filters: seq<Filter>)

  function FilterBytes(f: Filter): seq<byte> { StringBytes(f.topic) + [f.qos] }

  function FiltersBytes(fs: seq<Filter>): seq<byte> {
    if fs == [] then [] else FilterBytes(fs[0]) + FiltersBytes(fs[1..])
  }

  function SubscribeBody(s: Subscribe): seq<byte> { TwoBytes(s.packetid) + FiltersBytes(s.filters) }

  function SubscribeBytes(s: Subscribe): seq<byte> {
    [HeaderByte(SUBSCRIBE, s.dup, 1, 0)] + (EncodeVar(|SubscribeBody(s)|) + SubscribeBody(s))
  }

  ghost predicate SubscribeOk(s: Subscribe) {
    && s.dup < 2 && s.packetid < 65536 && |SubscribeBody(s)| <= MAX_REMAINING
    && forall k :: 0 <= k < |s.filters| ==> |s.filters[k].topic| < 65536
  }

  /** The loop over topic filters; failed is the code returned when one does not fit. */
  function ReadFilters(b: seq<byte>, p: nat, end: nat, fs: seq<Filter>, failed: int): Outcome<seq<Filter>>
    decreases end - p
  {
    if end <= p then Done(fs)
    else
      var t := ReadString(b, p, end);
      if t.Over? then Overrun
      else if t.Bad? || end <= t.next then Failed(failed)
      else if |b| <= t.next then Overrun
      else ReadFilters(b, t.next + 1, end, fs + [Filter(t.value, b[t.next])], failed)
  }

  function ReadSubscribe(b: seq<byte>): Outcome<Subscribe> {
    if |b| == 0 then Overrun
    else if b[0] / 16 != SUBSCRIBE then Failed(-1)
    else
      var v := DecodeVar(b, 1);
      if !v.Got? then Overrun
      else
        var id := ReadTwo(b, v.next);
        if !id.Got? then Overrun
        else
          var fs := ReadFilters(b, id.next, v.next + v.value, [], v.next - 1);
          if fs.Done? then Done(Subscribe(b[0] / 8 % 2, id.value, fs.value))
          else if fs.Failed? then Failed(fs.rc) else Overrun
  }

  lemma {:induction false} FiltersBack(b: seq<byte>, p: nat, fs: seq<Filter>, end: nat, before: seq<Filter>, failed: int)
    requires At(b, p, FiltersBytes(fs)) && end == p + |FiltersBytes(fs)|
    requires forall k :: 0 <= k < |fs| ==> |fs[k].topic| < 65536
    ensures ReadFilters(b, p, end, before, failed) == Done(before + fs)
    decreases |fs|
  {
    hide EncodeVar, TwoBytes, StringBytes, ReadString, ReadTwo, FilterBytes, At;
    if fs == [] {
      assert before + fs == before;
    } else {
      var f, q := fs[0], p + |FilterBytes(fs[0])|;
      AtParts(b, p, FilterBytes(f), FiltersBytes(fs[1..]));
      FilterBack(b, p, f, end);
      FiltersBack(b, q, fs[1..], end, before + [f], failed);
      assert before + [f] + fs[1..] == before + fs;
    }
  }

  lemma FilterBack(b: seq<byte>, p: nat, f: Filter, end: nat)
    requires At(b, p, FilterBytes(f)) && |f.topic| < 65536 && p + |FilterBytes(f)| <= end
    ensures var q := p + |FilterBytes(f)| - 1;
      p < q < |b| && ReadString(b, p, end) == Got(f.topic, q) && b[q] == f.qos
  {
    hide TwoBytes, StringBytes, ReadString;
    StringLong(f.topic);
    AtParts(b, p, StringBytes(f.topic), [f.qos]);
    StringBack(b, p, f.topic, end);
    ByteBack(b, p + |StringBytes(f.topic)|, f.qos);
  }

  /** Reading a serialized SUBSCRIBE gives back the whole list of filters. */
  lemma {:induction false} SubscribeBack(b: seq<byte>, s: Subscribe)
    requires SubscribeOk(s) && At(b, 0, SubscribeBytes(s))
    ensures ReadSubscribe(b) == Done(s)
  {
    hide HeaderByte, ReadFilters, FiltersBytes, DecodeVar, ReadTwo, EncodeVar, TwoBytes;
    TwoLong(s.packetid);
    var header, body := HeaderByte(SUBSCRIBE, s.dup, 1, 0), SubscribeBody(s);
    var length := EncodeVar(|body|);
    HeaderBack(SUBSCRIBE, s.dup, 1, 0);
    AtParts(b, 0, [header], length + body);
    ByteBack(b, 0, header);
    AtParts(b, 1, length, body);
    VarBack(b, 1, |body|);
    var q := 1 + |length|;
    AtParts(b, q, TwoBytes(s.packetid), FiltersBytes(s.filters));
    TwoBack(b, q, s.packetid);
    FiltersBack(b, q + 2, s.filters, q + |body|, [], q - 1);
    assert [] + s.filters == s.filters;
  }

  /** What the filters given by two parallel arrays are. */
  function Filters(topics: seq<MqttString>, qoss: seq<byte>): (r: seq<Filter>)
    requires |topics| == |qoss|
    ensures |r| == |topics|
    ensures forall k :: 0 <= k < |r| ==> r[k] == Filter(Text(topics[k]), qoss[k])
  {
    seq(|topics|, k requires 0 <= k < |topics| => Filter(Text(topics[k]), qoss[k]))
  }

  lemma {:induction false} FiltersAppend(fs: seq<Filter>, f: Filter)
    ensures FiltersBytes(fs + [f]) == FiltersBytes(fs) + FilterBytes(f)
    decreases |fs|
  {
    if fs == [] {
      assert (fs + [f])[1..] == [] && FiltersBytes([]) == [];
    } else {
      FiltersAppend(fs[1..], f);
      assert (fs + [f])[1..] == fs[1..] + [f];
      assert FilterBytes(fs[0]) + (FiltersBytes(fs[1..]) + FilterBytes(f)) == FilterBytes(fs[0]) + FiltersBytes(fs[1..]) + FilterBytes(f);
    }
  }

  lemma {:induction false} FiltersSplit(fs: seq<Filter>, k: nat)
    requires k <= |fs|
    ensures |FiltersBytes(fs[..k])| <= |FiltersBytes(fs)|
    decreases |fs| - k
  {
    if k < |fs| {
      assert fs[..k + 1] == fs[..k] + [fs[k]];
      FiltersAppend(fs[..k], fs[k]);
      FiltersSplit(fs, k + 1);
    } else {
      assert fs[..k] == fs;
    }
  }

  /** MQTTSerialize_subscribeLength. */
  method SubscribeLength(topics: seq<MqttString>, ghost qoss: seq<byte>) returns (len: nat)
    requires |topics| == |qoss|
    ensures len == 2 + |FiltersBytes(Filters(topics, qoss))|
  {
    ghost var fs := Filters(topics, qoss);
    len := 2;
    for i := 0 to |topics|
      invariant len == 2 + |FiltersBytes(fs[..i])|
    {
      assert fs[..i + 1] == fs[..i] + [fs[i]];
      FiltersAppend(fs[..i], fs[i]);
      len := len + 2 + |Text(topics[i])| + 1;
    }
    assert fs[..|topics|] == fs;
  }

  /** MQTTSerialize_subscribe. */
  method SerializeSubscribe(buf: array<byte>, buflen: nat, dup: nat, packetid: nat, topics: seq<MqttString>, qoss: seq<byte>)
    returns (rc: int)
    requires buflen <= buf.Length && |topics| == |qoss|
    requires 2 + |FiltersBytes(Filters(topics, qoss))| <= MAX_REMAINING
    modifies buf
    ensures var s := Subscribe(dup, packetid, Filters(topics, qoss));
      if PacketLen(|SubscribeBody(s)|) > buflen then rc == -2 && buf[..] == old(buf[..])
      else 0 < rc <= buflen && buf[..rc] == SubscribeBytes(s) && buf[rc..] == old(buf[rc..])
  {
    hide EncodeVar, HeaderByte, TwoBytes, StringBytes, Written, FiltersBytes;
    ghost var first := buf[..];
    StartWriting(buf);
    ghost var fs := Filters(topics, qoss);
    TwoLong(packetid);
    var length := SubscribeLength(topics, qoss);
    LenSuffices(length);
    if PacketLen(length) > buflen { return BUFFER_TOO_SHORT; }
    var header := HeaderByte(SUBSCRIBE, dup, 1, 0);
    var ptr := WriteChar(buf, 0, header, [], first);
    ghost var w: seq<byte> := [header];
    assert [] + w == w;
    LengthOf(buf, ptr, w, first);
    ptr := Encode(buf, ptr, length, w, first);
    w := w + EncodeVar(length);
    LengthOf(buf, ptr, w, first);
    ptr := WriteInt(buf, ptr, packetid, w, first);
    ghost var start := w + TwoBytes(packetid);
    NoFilters(fs, start);
    for i := 0 to |topics|
      invariant Written(buf, ptr, start + FiltersBytes(fs[..i]), first)
    {
      w := start + FiltersBytes(fs[..i]);
      LengthOf(buf, ptr, w, first);
      NextFilter(fs, i, start);
      StringLong(Text(topics[i]));
      ptr := WriteString(buf, ptr, topics[i], w, first);
      w := w + StringBytes(Text(topics[i]));
      LengthOf(buf, ptr, w, first);
      ptr := WriteChar(buf, ptr, qoss[i], w, first);
    }
    assert fs[..|topics|] == fs;
    LengthOf(buf, ptr, start + FiltersBytes(fs), first);
    Regroup2([header], EncodeVar(length), TwoBytes(packetid), FiltersBytes(fs));
    rc := ptr;
  }

  lemma Regroup2(h: seq<byte>, e: seq<byte>, t: seq<byte>, f: seq<byte>)
    ensures h + e + t + f == h + (e + (t + f))
  {
    assert e + (t + f) == e + t + f;
  }

  lemma NoFilters(fs: seq<Filter>, start: seq<byte>)
    ensures start + FiltersBytes(fs[..0]) == start
  {
  }

  lemma NextFilter(fs: seq<Filter>, i: nat, start: seq<byte>)
    requires i < |fs|
    ensures start + FiltersBytes(fs[..i]) + StringBytes(fs[i].topic) + [fs[i].qos] == start + FiltersBytes(fs[..i + 1])
    ensures |FiltersBytes(fs[..i])| + |StringBytes(fs[i].topic)| + 1 <= |FiltersBytes(fs)|
  {
    hide StringBytes;
    assert fs[..i + 1] == fs[..i] + [fs[i]];
    FiltersAppend(fs[..i], fs[i]);
    FiltersSplit(fs, i + 1);
    var a, b, c := FiltersBytes(fs[..i]), StringBytes(fs[i].topic), [fs[i].qos];
    assert start + (a + (b + c)) == start + a + b + c;
  }

  /** MQTTDeserialize_subscribe. */
  method DeserializeSubscribe(buf: array<byte>, buflen: nat) returns (r: Outcome<Subscribe>)
    requires buflen <= buf.Length
    ensures r == ReadSubscribe(buf[..buflen])
  {
    hide DecodeVar, ReadString;
    ghost var b := buf[..buflen];
    if buflen == 0 { return Overrun; }
    var header := buf[0];
    if header / 16 != SUBSCRIBE { return Failed(-1); }
    var dup := header / 8 % 2;
    var v := Decode(buf, buflen, 1);
    if !v.Got? { return Overrun; }
    var cur, end, rc := v.next, v.next + v.value, v.next - 1;
    if buflen < cur + 2 { return Overrun; }
    var packetid := 256 * (buf[cur] as int) + buf[cur + 1] as int;
    assert ReadTwo(b, cur) == Got(packetid, cur + 2);
    cur := cur + 2;
    ghost var start := cur;
    var fs: seq<Filter> := [];
    while cur < end
      invariant start <= cur && ReadFilters(b, start, end, [], rc) == ReadFilters(b, cur, end, fs, rc)
      decreases end - cur
    {
      var t := ReadStringAt(buf, buflen, cur, end);
      StringMoves(b, cur, end);
      if t.Over? { return Overrun; }
      if t.Bad? { return Failed(rc); }
      cur := t.next;
      if cur >= end { return Failed(rc); }
      if buflen <= cur { return Overrun; }
      fs := fs + [Filter(t.value, buf[cur])];
      cur := cur + 1;
    }
    r := Done(Subscribe(dup, packetid, fs));
  }

  lemma StringMoves(b: seq<byte>, p: nat, end: nat)
    ensures ReadString(b, p, end).Got? ==> p < ReadString(b, p, end).next <= end
  {
  }

  /** A SUBSCRIBE with a filter that does not fit is taken for a success exactly when its length
      field is one byte. */
  lemma {:induction false} SubscribeFailure(b: seq<byte>)
    requires ReadSubscribe(b).Failed? && b[0] / 16 == SUBSCRIBE
    ensures ReadSubscribe(b).rc == 1 <==> b[1] < 128
  {
    var v := DecodeVar(b, 1);
    ReadVarMoves(b, 2, 1, 128, (b[1] % 128) as nat);
    FailureCode(b, v.next + 2, v.next + v.value, [], v.next - 1);
  }

  lemma {:induction false} FailureCode(b: seq<byte>, p: nat, end: nat, fs: seq<Filter>, failed: int)
    ensures ReadFilters(b, p, end, fs, failed).Failed? ==> ReadFilters(b, p, end, fs, failed).rc == failed
    decreases end - p
  {
    if p < end {
      var t := ReadString(b, p, end);
      if t.Got? && t.next < end && t.next < |b| {
        FailureCode(b, t.next + 1, end, fs + [Filter(t.value, b[t.next])], failed);
      }
    }
  }

  /** Such a packet: behind the packet id one byte is left where a filter should be. */
  lemma SubscribeFailureExample()
    ensures ReadSubscribe([HeaderByte(SUBSCRIBE, 0, 1, 0), 3, 0, 1, 0]) == Failed(1)
  {
    var b: seq<byte> := [HeaderByte(SUBSCRIBE, 0, 1, 0), 3, 0, 1, 0];
    assert b[0] / 16 == SUBSCRIBE;
    assert DecodeVar(b, 1) == Got(3, 2);
    assert ReadTwo(b, 2) == Got(1, 4);
    assert ReadFilters(b, 4, 5, [], 1) == Failed(1);
  }
}
