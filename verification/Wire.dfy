// The length-prefixed message format of gRPC: a flag byte, the length as four bytes in network
// order, and that many bytes of data. Encoding and walking it are inverse to each other.

module Wire {
  type Byte = x: int | 0 <= x < 256
  type Bytes = seq<Byte>

  const U32: int := 0x1_0000_0000
  const HEADER: nat := 5

  datatype RawMessage = Message(cflag: Byte, data: Bytes)

  // The length field of a message has 32 bits.
  type Message = m: RawMessage | |m.data| < U32 witness Message(0, [])

  // ---- Network byte order ----

  function Be32(n: nat): (b: Bytes)
    requires n < U32
    ensures |b| == 4
  {
    [n / 256 / 256 / 256, n / 256 / 256 % 256, n / 256 % 256, n % 256]
  }

  function FromBe32(b: Bytes): (n: nat)
    requires |b| == 4
    ensures n < U32
  {
    var b0: int, b1: int, b2: int, b3: int := b[0], b[1], b[2], b[3];
    ((b0 * 256 + b1) * 256 + b2) * 256 + b3
  }

  lemma Be32RoundTrip(n: nat)
    requires n < U32
    ensures FromBe32(Be32(n)) == n
  {
  }

  lemma FromBe32RoundTrip(b: Bytes)
    requires |b| == 4
    ensures Be32(FromBe32(b)) == b
  {
    var b0: int, b1: int, b2: int := b[0], b[1], b[2];
    var n := FromBe32(b);
    assert n / 256 == (b0 * 256 + b1) * 256 + b2;
    assert n / 256 / 256 == b0 * 256 + b1;
  }

  // The most significant byte comes first: a small number is the last byte alone, and another digit
  // moves the others one place to the front.
  lemma Be32Digits(n: nat, b: Byte)
    requires n < U32 / 256
    ensures n < 256 ==> Be32(n) == [0, 0, 0, n]
    ensures Be32(256 * n + b) == Be32(n)[1..] + [b]
  {
    assert (256 * n + b) / 256 == n && (256 * n + b) % 256 == b;
  }

  // The number with these digits to the base of 256.
  function PlaceValue(b0: int, b1: int, b2: int, b3: int): int {
    0x100_0000 * b0 + 0x1_0000 * b1 + 0x100 * b2 + b3
  }

  lemma FromBe32Value(b: Bytes)
    requires |b| == 4
    ensures FromBe32(b) == PlaceValue(b[0], b[1], b[2], b[3])
  {
  }

  // memcpy
  method CopyInto(buf: array<Byte>, at: nat, bytes: Bytes)
    requires at + |bytes| <= buf.Length
    modifies buf
    ensures buf[..at] == old(buf[..at]) && buf[at..at + |bytes|] == bytes
  {
    for i := 0 to |bytes|
      invariant buf[..at] == old(buf[..at])
      invariant forall j | 0 <= j < i :: buf[at + j] == bytes[j]
    {
      buf[at + i] := bytes[i];
    }
  }

  // ---- Encoding ----

  function Header(m: Message): (b: Bytes)
    ensures |b| == HEADER
  {
    [m.cflag] + Be32(|m.data|)
  }

  function Encode(m: Message): Bytes {
    Header(m) + m.data
  }

  function EncodeAll(ms: seq<Message>): Bytes {
    if ms == [] then [] else Encode(ms[0]) + EncodeAll(ms[1..])
  }

  lemma EncodeFirst(m: Message, ms: seq<Message>, rest: Bytes)
    ensures EncodeAll([m] + ms) + rest == Encode(m) + (EncodeAll(ms) + rest)
  {
    hide Encode;
    assert ([m] + ms)[1..] == ms;
  }

  lemma NothingEncoded()
    ensures EncodeAll([]) == []
  {
  }

  // The flag, the length in network order, and the data.
  lemma EncodeLayout(m: Message)
    ensures
      var d := Encode(m);
      && |d| == HEADER + |m.data| && d[0] == m.cflag && d[HEADER..] == m.data
      && PlaceValue(d[1], d[2], d[3], d[4]) == |m.data|
  {
    hide Be32, FromBe32;
    var b := Be32(|m.data|);
    Be32RoundTrip(|m.data|);
    FromBe32Value(b);
    assert Encode(m)[1] == b[0] && Encode(m)[2] == b[1] && Encode(m)[3] == b[2] && Encode(m)[4] == b[3];
  }

  lemma {:induction false} EncodeAllConcat(a: seq<Message>, b: seq<Message>)
    ensures EncodeAll(a + b) == EncodeAll(a) + EncodeAll(b)
  {
    hide EncodeAll, Encode;
    if a == [] {
      NothingEncoded();
      assert a + b == b;
    } else {
      EncodeAllConcat(a[1..], b);
      EncodeFirst(a[0], a[1..], EncodeAll(b));
      EncodeFirst(a[0], a[1..] + b, []);
      assert a == [a[0]] + a[1..] && a + b == [a[0]] + (a[1..] + b);
      assert EncodeAll(a + b) + [] == EncodeAll(a + b);
      assert EncodeAll(a[1..] + b) + [] == EncodeAll(a[1..] + b);
    }
  }

  // ---- Walking ----

  // The length that the first header announces.
  function LengthAt(d: Bytes): nat
    requires |d| >= HEADER
  {
    FromBe32(d[1..HEADER])
  }

  // Whether the bytes start with a whole message.
  predicate HasFrame(d: Bytes) {
    |d| >= HEADER && HEADER + LengthAt(d) <= |d|
  }

  function FirstMessage(d: Bytes): Message
    requires HasFrame(d)
  {
    Message(d[0], d[HEADER..HEADER + LengthAt(d)])
  }

  function AfterFirst(d: Bytes): (r: Bytes)
    requires HasFrame(d)
    ensures |r| == |d| - HEADER - LengthAt(d)
  {
    d[HEADER + LengthAt(d)..]
  }

  lemma FirstMessageLayout(d: Bytes)
    requires |d| >= HEADER
    ensures LengthAt(d) == PlaceValue(d[1], d[2], d[3], d[4])
    ensures HasFrame(d) <==> |d| >= HEADER + LengthAt(d)
    ensures HasFrame(d) ==> FirstMessage(d).cflag == d[0] && FirstMessage(d).data == d[HEADER..HEADER + LengthAt(d)]
  {
    hide FromBe32;
    FromBe32Value(d[1..HEADER]);
  }

  // The whole messages from the front, and the bytes left over.
  function Messages(d: Bytes): seq<Message>
    decreases |d|
  {
    if HasFrame(d) then [FirstMessage(d)] + Messages(AfterFirst(d)) else []
  }

  function Residue(d: Bytes): Bytes
    decreases |d|
  {
    if HasFrame(d) then Residue(AfterFirst(d)) else d
  }

  // ---- The two directions ----

  lemma FirstOfEncoded(m: Message, rest: Bytes)
    ensures HasFrame(Encode(m) + rest)
    ensures FirstMessage(Encode(m) + rest) == m
    ensures AfterFirst(Encode(m) + rest) == rest
  {
    var d := Encode(m) + rest;
    assert d[1..HEADER] == Be32(|m.data|);
    Be32RoundTrip(|m.data|);
    assert d[HEADER..HEADER + |m.data|] == m.data;
  }

  // What was encoded is read back, whatever follows it.
  lemma {:induction false} DecodeEncode(ms: seq<Message>, rest: Bytes)
    ensures Messages(EncodeAll(ms) + rest) == ms + Messages(rest)
    ensures Residue(EncodeAll(ms) + rest) == Residue(rest)
  {
    hide Encode, LengthAt, FirstMessage, AfterFirst;
    if ms == [] {
      assert EncodeAll(ms) + rest == rest;
    } else {
      var d := EncodeAll(ms) + rest;
      assert d == Encode(ms[0]) + (EncodeAll(ms[1..]) + rest);
      FirstOfEncoded(ms[0], EncodeAll(ms[1..]) + rest);
      DecodeEncode(ms[1..], rest);
      assert [ms[0]] + (ms[1..] + Messages(rest)) == ms + Messages(rest);
    }
  }

  lemma FirstReEncoded(d: Bytes)
    requires HasFrame(d)
    ensures d == Encode(FirstMessage(d)) + AfterFirst(d)
  {
    FromBe32RoundTrip(d[1..HEADER]);
    assert d == [d[0]] + d[1..HEADER] + d[HEADER..HEADER + LengthAt(d)] + d[HEADER + LengthAt(d)..];
  }

  // Any bytes are the messages read from them, encoded, and a residue that holds no whole message.
  lemma {:induction false} EncodeDecode(d: Bytes)
    ensures d == EncodeAll(Messages(d)) + Residue(d)
    ensures !HasFrame(Residue(d)) && Messages(Residue(d)) == [] && Residue(Residue(d)) == Residue(d)
    decreases |d|
  {
    hide EncodeAll, Encode, LengthAt, FirstMessage;
    if HasFrame(d) {
      FirstReEncoded(d);
      EncodeDecode(AfterFirst(d));
      EncodeFirst(FirstMessage(d), Messages(AfterFirst(d)), Residue(AfterFirst(d)));
    } else {
      NothingEncoded();
      assert [] + d == d;
    }
  }

  // Reading in two parts comes to the same, when the second part starts with the first's residue.
  lemma MessagesConcat(a: Bytes, b: Bytes)
    ensures Messages(a + b) == Messages(a) + Messages(Residue(a) + b)
    ensures Residue(a + b) == Residue(Residue(a) + b)
  {
    hide Messages, Residue, EncodeAll;
    EncodeDecode(a);
    DecodeEncode(Messages(a), Residue(a) + b);
    assert a + b == EncodeAll(Messages(a)) + (Residue(a) + b);
  }
}
