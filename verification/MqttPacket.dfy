/**
 * The MQTT 3.1.1 packet layer (MQTTPacket.c): remaining length (section 2.2.3), two-byte integers
 * and length-prefixed strings, written through a cursor into a buffer and read back.
 */
module MqttPacket {

  type byte = x: int | 0 <= x < 256

  /** A string given as a C string, as a length and data, or not at all. */
  datatype MqttString = CString(text: seq<byte>) | LenString(data: seq<byte>) | Null

  function Text(m: MqttString): seq<byte> {
    match m case CString(t) => t case LenString(d) => d case Null => []
  }

  const BUFFER_TOO_SHORT: int := -2
  const MAX_REMAINING: nat := 268435455

  function EncodeVar(n: nat): (r: seq<byte>)
    ensures 1 <= |r|
  {
    if n < 128 then [n] else [n % 128 + 128] + EncodeVar(n / 128)
  }

  function TwoBytes(n: nat): seq<byte> { [n / 256 % 256, n % 256] }

  function StringBytes(s: seq<byte>): seq<byte> { TwoBytes(|s|) + s }

  /** MQTTPacket_len: the room asked for before a packet with this remaining length is written. */
  function PacketLen(remaining: nat): nat {
    var len := remaining + 1;
    if len < 128 then len + 1 else if len < 16384 then len + 2 else if len < 2097151 then len + 3 else len + 4
  }

  lemma {:induction false} VarSize(n: nat)
    ensures n < 128 ==> |EncodeVar(n)| == 1
    ensures 128 <= n < 16384 ==> |EncodeVar(n)| == 2
    ensures 16384 <= n < 2097152 ==> |EncodeVar(n)| == 3
    ensures 2097152 <= n <= MAX_REMAINING ==> |EncodeVar(n)| == 4
    ensures n > MAX_REMAINING ==> |EncodeVar(n)| > 4
  {
    if n >= 128 {
      assert |EncodeVar(n)| == 1 + |EncodeVar(n / 128)|;
      VarSize(n / 128);
    }
  }

  /** The room asked for is enough, and is exactly what is needed except where the byte already
      added tips the length into the next size too early. */
  lemma LenSuffices(n: nat)
    requires n <= MAX_REMAINING
    ensures 1 + |EncodeVar(n)| + n <= PacketLen(n)
    ensures PacketLen(n) == 1 + |EncodeVar(n)| + n <==> n !in {127, 16383, 2097150, 2097151}
  {
    VarSize(n);
  }

  /** Something read, and the position behind it; Over when the read leaves the buffer. */
  datatype Read<T> = Got(value: T, next: nat) | Bad | Over

  function ReadByte(b: seq<byte>, p: nat): Read<byte> {
    if p < |b| then Got(b[p], p + 1) else Over
  }

  function ReadTwo(b: seq<byte>, p: nat): (r: Read<nat>)
    ensures r.Got? ==> r.value < 65536
  {
    if p + 2 <= |b| then Got(256 * (b[p] as int) + b[p + 1] as int, p + 2) else Over
  }

  /** readMQTTLenString, not beyond end. */
  function ReadString(b: seq<byte>, p: nat, end: nat): (r: Read<seq<byte>>)
    ensures r.Got? ==> p < r.next <= end
  {
    if end <= p + 1 then Bad
    else
      var len := ReadTwo(b, p);
      if len.Over? then Over
      else if end < p + 2 + len.value then Bad
      else if |b| < p + 2 + len.value then Over
      else Got(b[p + 2..p + 2 + len.value], p + 2 + len.value)
  }

  /** MQTTPacket_decode after len bytes: the value, and how many bytes were taken; a fifth byte is
      counted but not looked at. */
  function ReadVar(b: seq<byte>, p: nat, len: nat, multiplier: nat, value: nat): Read<nat>
    requires len <= 4
    decreases 4 - len
  {
    if len == 4 then Got(value, p + 1)
    else if |b| <= p then Over
    else
      var v := value + b[p] % 128 * multiplier;
      if b[p] >= 128 then ReadVar(b, p + 1, len + 1, multiplier * 128, v) else Got(v, p + 1)
  }

  function DecodeVar(b: seq<byte>, p: nat): Read<nat> { ReadVar(b, p, 0, 1, 0) }

  /** s is at p in b. */
  ghost predicate At(b: seq<byte>, p: nat, s: seq<byte>) { p + |s| <= |b| && b[p..p + |s|] == s }

  lemma AtParts(b: seq<byte>, p: nat, s: seq<byte>, t: seq<byte>)
    requires At(b, p, s + t)
    ensures At(b, p, s) && At(b, p + |s|, t)
  {
    var all := s + t;
    assert s == all[..|s|] && t == all[|s|..];
    assert b[p..p + |s|] == b[p..p + |all|][..|s|];
    assert b[p + |s|..p + |all|] == b[p..p + |all|][|s|..];
  }

  function Pow128(k: nat): nat { if k == 0 then 1 else 128 * Pow128(k - 1) }

  lemma Digits(n: nat, m: nat)
    ensures n % 128 * m + n / 128 * (128 * m) == n * m
  {
    var d, q := n % 128, n / 128;
    assert n == d + q * 128;
    assert q * (128 * m) == q * 128 * m;
  }

  lemma {:induction false} ReadVarBack(b: seq<byte>, p: nat, n: nat, len: nat, value: nat)
    requires At(b, p, EncodeVar(n)) && len <= 4 && len + |EncodeVar(n)| <= 4
    ensures ReadVar(b, p, len, Pow128(len), value) == Got(value + n * Pow128(len), p + |EncodeVar(n)|)
    decreases 4 - len
  {
    var m := Pow128(len);
    assert Pow128(len + 1) == 128 * m;
    if n < 128 {
      assert b[p] == b[p..p + 1][0];
    } else {
      assert EncodeVar(n) == [n % 128 + 128] + EncodeVar(n / 128);
      AtParts(b, p, [n % 128 + 128], EncodeVar(n / 128));
      assert b[p] == b[p..p + 1][0];
      ReadVarBack(b, p + 1, n / 128, len + 1, value + n % 128 * m);
      Digits(n, m);
    }
  }

  /** A length that takes more than four bytes is not read back. */
  lemma {:induction false} ReadVarLong(b: seq<byte>, p: nat, n: nat, len: nat, multiplier: nat, value: nat)
    requires At(b, p, EncodeVar(n)) && len <= 4 && len + |EncodeVar(n)| > 4
    ensures ReadVar(b, p, len, multiplier, value).Got? && ReadVar(b, p, len, multiplier, value).next == p + 5 - len
    decreases 4 - len
  {
    if len < 4 {
      assert EncodeVar(n) == [n % 128 + 128] + EncodeVar(n / 128);
      AtParts(b, p, [n % 128 + 128], EncodeVar(n / 128));
      assert b[p] == b[p..p + 1][0];
      ReadVarLong(b, p + 1, n / 128, len + 1, multiplier * 128, value + b[p] % 128 * multiplier);
    }
  }

  /** The remaining length is read back exactly when it is one MQTT allows. */
  lemma {:induction false} VarBack(b: seq<byte>, p: nat, n: nat)
    requires At(b, p, EncodeVar(n))
    ensures DecodeVar(b, p) == Got(n, p + |EncodeVar(n)|) <==> n <= MAX_REMAINING
  {
    VarSize(n);
    if n <= MAX_REMAINING {
      ReadVarBack(b, p, n, 0, 0);
    } else {
      ReadVarLong(b, p, n, 0, 1, 0);
      if |EncodeVar(n)| == 5 { TooBig(b, p, n); }
    }
  }

  /** Four bytes hold at most MAX_REMAINING. */
  lemma TooBig(b: seq<byte>, p: nat, n: nat)
    requires n > MAX_REMAINING
    ensures DecodeVar(b, p) != Got(n, p + 5)
  {
    ReadVarBound(b, p, 0, 1, 0);
  }

  lemma {:induction false} ReadVarBound(b: seq<byte>, p: nat, len: nat, multiplier: nat, value: nat)
    requires len <= 4 && multiplier == Pow128(len) && value < multiplier
    ensures ReadVar(b, p, len, multiplier, value).Got? ==> ReadVar(b, p, len, multiplier, value).value < Pow128(4) == MAX_REMAINING + 1
    decreases 4 - len
  {
    assert Pow128(4) == 128 * 128 * 128 * 128;
    Pow128Mono(len, 4);
    if len < 4 && p < |b| {
      var d := b[p] % 128;
      assert value + d * multiplier < multiplier + 127 * multiplier by { assert d * multiplier <= 127 * multiplier; }
      Pow128Mono(len + 1, 4);
      if b[p] >= 128 { ReadVarBound(b, p + 1, len + 1, multiplier * 128, value + d * multiplier); }
    }
  }

  lemma {:induction false} Pow128Mono(a: nat, b: nat)
    requires a <= b
    ensures 0 < Pow128(a) <= Pow128(b)
    decreases b
  {
    if a < b { Pow128Mono(a, b - 1); } else if a > 0 { Pow128Mono(a - 1, a - 1); }
  }

  lemma StringBack(b: seq<byte>, p: nat, s: seq<byte>, end: nat)
    requires At(b, p, StringBytes(s)) && |s| < 65536 && p + 2 + |s| <= end
    ensures ReadString(b, p, end) == Got(s, p + 2 + |s|)
  {
    AtParts(b, p, TwoBytes(|s|), s);
    TwoBack(b, p, |s|);
  }

  lemma TwoBack(b: seq<byte>, p: nat, n: nat)
    requires At(b, p, TwoBytes(n)) && n < 65536
    ensures ReadTwo(b, p) == Got(n, p + 2)
  {
    assert b[p] == b[p..p + 2][0] && b[p + 1] == b[p..p + 2][1];
  }

  lemma ByteBack(b: seq<byte>, p: nat, x: byte)
    requires At(b, p, [x])
    ensures ReadByte(b, p) == Got(x, p + 1)
  {
    assert b[p] == b[p..p + 1][0];
  }

  /** The cursor ptr is behind the bytes w written since the buffer was first, the rest as it was. */
  ghost predicate Written(buf: array<byte>, ptr: nat, w: seq<byte>, first: seq<byte>)
    reads buf
  {
    ptr == |w| <= buf.Length == |first| && buf[..ptr] == w && buf[ptr..] == first[ptr..]
  }

  /** writeChar. */
  method WriteChar(buf: array<byte>, ptr: nat, c: byte, ghost w: seq<byte>, ghost first: seq<byte>) returns (ptr2: nat)
    requires ptr < buf.Length && Written(buf, ptr, w, first)
    modifies buf
    ensures Written(buf, ptr2, w + [c], first)
  {
    buf[ptr] := c;
    ptr2 := ptr + 1;
    assert buf[ptr2..] == old(buf[ptr..])[1..];
  }

  /** writeInt. */
  method WriteInt(buf: array<byte>, ptr: nat, n: nat, ghost w: seq<byte>, ghost first: seq<byte>) returns (ptr2: nat)
    requires ptr + 2 <= buf.Length && Written(buf, ptr, w, first)
    modifies buf
    ensures Written(buf, ptr2, w + TwoBytes(n), first)
  {
    buf[ptr] := n / 256 % 256;
    buf[ptr + 1] := n % 256;
    ptr2 := ptr + 2;
    assert buf[ptr2..] == old(buf[ptr..])[2..];
  }

  /** memcpy to the cursor. */
  method Copy(buf: array<byte>, ptr: nat, s: seq<byte>, ghost w: seq<byte>, ghost first: seq<byte>) returns (ptr2: nat)
    requires ptr + |s| <= buf.Length && Written(buf, ptr, w, first)
    modifies buf
    ensures Written(buf, ptr2, w + s, first)
  {
    forall k | 0 <= k < |s| { buf[ptr + k] := s[k]; }
    ptr2 := ptr + |s|;
    assert buf[ptr2..] == old(buf[ptr..])[|s|..];
    assert buf[..ptr2] == old(buf[..ptr]) + s;
  }

  /** writeMQTTString. */
  method WriteString(buf: array<byte>, ptr: nat, m: MqttString, ghost w: seq<byte>, ghost first: seq<byte>)
    returns (ptr2: nat)
    requires ptr + 2 + |Text(m)| <= buf.Length && Written(buf, ptr, w, first)
    modifies buf
    ensures Written(buf, ptr2, w + StringBytes(Text(m)), first)
  {
    hide TwoBytes;
    TwoLong(|Text(m)|);
    assert w + StringBytes(Text(m)) == w + TwoBytes(|Text(m)|) + Text(m);
    if m.LenString? && |m.data| > 0 {
      ptr2 := WriteInt(buf, ptr, |m.data|, w, first);
      ptr2 := Copy(buf, ptr2, m.data, w + TwoBytes(|m.data|), first);
    } else if m.CString? {
      ptr2 := WriteInt(buf, ptr, |m.text|, w, first);
      ptr2 := Copy(buf, ptr2, m.text, w + TwoBytes(|m.text|), first);
    } else {
      ptr2 := WriteInt(buf, ptr, 0, w, first);
    }
  }

  lemma StringLong(s: seq<byte>)
    ensures |StringBytes(s)| == 2 + |s|
  {
  }

  lemma TwoLong(n: nat)
    ensures |TwoBytes(n)| == 2
  {
  }

  /** MQTTPacket_encode. */
  method Encode(buf: array<byte>, ptr: nat, length: nat, ghost w: seq<byte>, ghost first: seq<byte>) returns (ptr2: nat)
    requires ptr + |EncodeVar(length)| <= buf.Length && Written(buf, ptr, w, first)
    modifies buf
    ensures Written(buf, ptr2, w + EncodeVar(length), first)
  {
    var n := length;
    ptr2 := ptr;
    ghost var done: seq<byte> := [];
    while true
      invariant done + EncodeVar(n) == EncodeVar(length) && Written(buf, ptr2, w + done, first)
      decreases n
    {
      var d: byte := n % 128;
      n := n / 128;
      if n > 0 { d := d + 128; }
      ghost var sofar := w + done;
      ptr2 := WriteChar(buf, ptr2, d, sofar, first);
      done := done + [d];
      assert sofar + [d] == w + done;
      if n == 0 { break; }
    }
  }

  lemma SliceOf(buf: array<byte>, n: nat, i: nat, j: nat)
    requires i <= j <= n <= buf.Length
    ensures buf[..n][i..j] == buf[i..j]
  {
    assert forall k :: i <= k < j ==> buf[..n][k] == buf[k];
  }

  /** MQTTPacket_decode over the bytes of a buffer. */
  method Decode(buf: array<byte>, buflen: nat, p: nat) returns (r: Read<nat>)
    requires buflen <= buf.Length
    ensures r == DecodeVar(buf[..buflen], p)
  {
    var cur: nat, len: nat, multiplier: nat, value: nat := p, 0, 1, 0;
    ghost var b := buf[..buflen];
    while true
      invariant len <= 4 && ReadVar(b, cur, len, multiplier, value) == DecodeVar(b, p)
      decreases 4 - len
    {
      if len == 4 { return Got(value, cur + 1); }
      if buflen <= cur { return Over; }
      var c := buf[cur];
      assert c == b[cur];
      value := value + c % 128 * multiplier;
      len, cur, multiplier := len + 1, cur + 1, multiplier * 128;
      if c < 128 { return Got(value, cur); }
    }
  }
}
