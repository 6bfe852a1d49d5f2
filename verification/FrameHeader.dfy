/**
  * WebSocket frame headers (section 5.2 of RFC 6455): building one for the wire, reading
  * one back, and the check that rejects sizes not written in their shortest form.
  */
module FrameHeader {
  import opened Helpers
  import opened Words
  import opened Masking

  /** The two bytes every header starts with. */
  datatype BasicHeader = BasicHeader(b0: Byte, b1: Byte)

  /** What a header says. */
  datatype Header = Header(opcode: Byte, fin: bool, rsv1: bool, rsv2: bool, rsv3: bool,
                           masked: bool, key: Key, size: nat)

  const SIZE_16BIT: Byte := 0x7E
  const SIZE_64BIT: Byte := 0x7F

  /** Headers that can be sent: a 4-bit opcode, a 64-bit size, and no key unless masked. */
  ghost predicate Sendable(h: Header) {
    h.opcode <= 0x0F && h.size < Power(8) && (!h.masked ==> h.key == [0, 0, 0, 0])
  }

  // ----- Building -----

  function Flag(on: bool, bit: Byte): Byte {
    if on then bit else 0
  }

  function SizeCode(size: nat): Byte {
    if size <= 125 then ToByte(size)
    else if size <= 0xFFFF then SIZE_16BIT
    else SIZE_64BIT
  }

  function MakeBasic(h: Header): BasicHeader {
    BasicHeader(
      Flag(h.fin, 0x80) | Flag(h.rsv1, 0x40) | Flag(h.rsv2, 0x20) | Flag(h.rsv3, 0x10) | (h.opcode & 0x0F),
      Flag(h.masked, 0x80) | SizeCode(h.size))
  }

  /** Host to network order, by swapping the bytes in memory on little-endian hosts; its own inverse. */
  function HostToNet(little: bool, w: Word): (r: Word)
    ensures |r| == |w|
  {
    if little then Reversed(w) else w
  }

  /** The size bytes that follow the basic header: none, the last two, or all eight. */
  function SizeField(little: bool, size: nat): (s: seq<Byte>)
    ensures |s| == if size <= 125 then 0 else if size <= 0xFFFF then 2 else 8
  {
    var offset := if size <= 125 then 8 else if size <= 0xFFFF then 6 else 0;
    Image(little, HostToNet(little, Digits(size, 8)))[offset..]
  }

  /** The twelve bytes of an extended header. */
  function MakeExtended(little: bool, h: Header): (e: seq<Byte>)
    ensures |e| == 12
  {
    var field := SizeField(little, h.size) + (if h.masked then h.key else []);
    field + Zeros(12 - |field|)
  }

  // ----- Reading -----

  predicate Masked?(b: BasicHeader) {
    b.b1 & 0x80 == 0x80
  }

  function BasicSize(b: BasicHeader): Byte {
    b.b1 & 0x7F
  }

  function KeyOffset(b: BasicHeader): nat {
    if BasicSize(b) == SIZE_16BIT then 2
    else if BasicSize(b) == SIZE_64BIT then 8
    else 0
  }

  function HeaderLength(b: BasicHeader): nat {
    2 + KeyOffset(b) + if Masked?(b) then 4 else 0
  }

  function PrepareHeader(b: BasicHeader, e: seq<Byte>): seq<Byte>
    requires |e| == 12
  {
    [b.b0, b.b1] + e[..HeaderLength(b) - 2]
  }

  /** The first `n` bytes of an extended header, read as a number in network order. */
  function NetworkNumber(little: bool, e: seq<Byte>, n: nat): nat
    requires n <= |e|
  {
    Value(HostToNet(little, Image(little, e[..n])))
  }

  function PayloadSize(little: bool, b: BasicHeader, e: seq<Byte>): nat
    requires |e| == 12
  {
    if BasicSize(b) <= 125 then BasicSize(b) as nat
    else if BasicSize(b) == SIZE_16BIT then NetworkNumber(little, e, 2)
    else NetworkNumber(little, e, 8)
  }

  function MaskingKey(b: BasicHeader, e: seq<Byte>): Key
    requires |e| == 12
  {
    if !Masked?(b) then [0, 0, 0, 0] else e[KeyOffset(b)..KeyOffset(b) + 4]
  }

  function Fields(little: bool, b: BasicHeader, e: seq<Byte>): Header
    requires |e| == 12
  {
    Header(b.b0 & 0x0F, b.b0 & 0x80 == 0x80, b.b0 & 0x40 == 0x40, b.b0 & 0x20 == 0x20, b.b0 & 0x10 == 0x10,
           Masked?(b), MaskingKey(b, e), PayloadSize(little, b, e))
  }

  /** The size came in a longer field than it needs. */
  predicate NonMinimal(little: bool, b: BasicHeader, e: seq<Byte>)
    requires |e| == 12
  {
    || (BasicSize(b) == SIZE_16BIT && PayloadSize(little, b, e) <= 125)
    || (BasicSize(b) == SIZE_64BIT && PayloadSize(little, b, e) <= 0xFFFF)
  }

  // ----- The wire -----

  /** What the sender puts on the wire before the payload. */
  function Encode(little: bool, h: Header): seq<Byte> {
    PrepareHeader(MakeBasic(h), MakeExtended(little, h))
  }

  /** The receiver's zero-filled extended header after copying the header bytes of `wire`. */
  function Received(b: BasicHeader, wire: seq<Byte>): (e: seq<Byte>)
    requires HeaderLength(b) <= |wire|
    ensures |e| == 12
  {
    wire[2..HeaderLength(b)] + Zeros(14 - HeaderLength(b))
  }

  /** Reads a header from the front of `wire`; `None` while bytes are still missing. */
  function Decode(little: bool, wire: seq<Byte>): Option<(Header, nat)> {
    if |wire| < 2 then None
    else
      var b := BasicHeader(wire[0], wire[1]);
      if |wire| < HeaderLength(b) then None
      else Some((Fields(little, b, Received(b, wire)), HeaderLength(b)))
  }

  // ----- The first two bytes -----

  lemma SmallCode(size: nat)
    ensures var code := SizeCode(size);
            && (size <= 125 ==> code <= 125 && code as nat == size)
            && (125 < size <= 0xFFFF ==> code == SIZE_16BIT)
            && (0xFFFF < size ==> code == SIZE_64BIT)
  {
  }

  lemma BasicRoundTrip(h: Header)
    requires h.opcode <= 0x0F
    ensures var b := MakeBasic(h);
            && b.b0 & 0x0F == h.opcode
            && (b.b0 & 0x80 == 0x80 <==> h.fin) && (b.b0 & 0x40 == 0x40 <==> h.rsv1)
            && (b.b0 & 0x20 == 0x20 <==> h.rsv2) && (b.b0 & 0x10 == 0x10 <==> h.rsv3)
            && (Masked?(b) <==> h.masked) && BasicSize(b) == SizeCode(h.size)
  {
    SmallCode(h.size);
    hide SizeCode;
    FlagsRoundTrip(h.fin, h.rsv1, h.rsv2, h.rsv3, h.opcode);
    CodeRoundTrip(h.masked, SizeCode(h.size));
  }

  lemma FlagsRoundTrip(f: bool, r1: bool, r2: bool, r3: bool, op: Byte)
    requires op <= 0x0F
    ensures var b := Flag(f, 0x80) | Flag(r1, 0x40) | Flag(r2, 0x20) | Flag(r3, 0x10) | (op & 0x0F);
            && b & 0x0F == op && (b & 0x80 == 0x80 <==> f) && (b & 0x40 == 0x40 <==> r1)
            && (b & 0x20 == 0x20 <==> r2) && (b & 0x10 == 0x10 <==> r3)
  {
  }

  lemma CodeRoundTrip(m: bool, code: Byte)
    requires code <= 0x7F
    ensures var b := Flag(m, 0x80) | code; b & 0x7F == code && (b & 0x80 == 0x80 <==> m)
  {
  }

  /** Reading the flags and putting them back restores both bytes. */
  lemma BasicRestored(b: BasicHeader)
    ensures Flag(b.b0 & 0x80 == 0x80, 0x80) | Flag(b.b0 & 0x40 == 0x40, 0x40) | Flag(b.b0 & 0x20 == 0x20, 0x20)
            | Flag(b.b0 & 0x10 == 0x10, 0x10) | (b.b0 & 0x0F & 0x0F) == b.b0
    ensures Flag(Masked?(b), 0x80) | BasicSize(b) == b.b1
    ensures BasicSize(b) <= 0x7F
  {
  }

  // ----- The size field -----

  lemma ReversedTwice(s: seq<Byte>)
    ensures Reversed(Reversed(s)) == s
  {
  }

  /** On every host the size goes out most significant byte first, in as many bytes as it needs. */
  lemma SizeFieldBytes(little: bool, size: nat)
    ensures 125 < size <= 0xFFFF ==> SizeField(little, size) == Reversed(Digits(size, 2))
    ensures size > 0xFFFF ==> SizeField(little, size) == Reversed(Digits(size, 8))
  {
    hide Digits;
    var d := Digits(size, 8);
    NetworkImage(little, d);
    hide HostToNet, Image;
    if 125 < size <= 0xFFFF {
      PowerTable();
      hide Power;
      DigitsPadded(size, 2, 6);
      LowDigits(Digits(size, 2));
    }
  }

  /** What goes into memory in network order is the digits, most significant first. */
  lemma NetworkImage(little: bool, d: Word)
    ensures Image(little, HostToNet(little, d)) == Reversed(d)
  {
    ReversedTwice(d);
  }

  lemma LowDigits(d: Word)
    requires |d| == 2
    ensures Reversed(d + Zeros(6))[6..] == Reversed(d)
  {
  }

  lemma NetworkNumberBytes(little: bool, e: seq<Byte>, n: nat)
    requires n <= |e|
    ensures NetworkNumber(little, e, n) == Value(Reversed(e[..n]))
  {
    hide Value;
    ReversedTwice(e[..n]);
    assert HostToNet(little, Image(little, e[..n])) == Reversed(e[..n]);
  }

  lemma PowerTable()
    ensures Power(2) == 0x1_0000 && Power(8) == 0x1_0000_0000_0000_0000
  {
    assert Power(4) == 256 * 256 * Power(2);
    assert Power(6) == 256 * 256 * Power(4);
  }

  // ----- Round trips -----

  lemma EncodedShape(little: bool, h: Header)
    requires h.opcode <= 0x0F
    ensures var b := MakeBasic(h);
            && KeyOffset(b) == |SizeField(little, h.size)|
            && HeaderLength(b) == 2 + |SizeField(little, h.size)| + (if h.masked then 4 else 0)
            && Encode(little, h) == [b.b0, b.b1] + SizeField(little, h.size) + (if h.masked then h.key else [])
  {
    hide MakeBasic, SizeField, BasicSize, Masked?;
    BasicRoundTrip(h);
    FieldLength(little, h);
    hide KeyOffset;
    var field := SizeField(little, h.size) + (if h.masked then h.key else []);
    assert MakeExtended(little, h)[..|field|] == field;
  }

  lemma FieldLength(little: bool, h: Header)
    requires h.opcode <= 0x0F
    ensures KeyOffset(MakeBasic(h)) == |SizeField(little, h.size)|
  {
    BasicRoundTrip(h);
    SmallCode(h.size);
    hide MakeBasic, SizeField, SizeCode, BasicSize;
  }

  /** The receiver's extended header is the sender's. */
  lemma ReceivedIsSent(little: bool, h: Header, rest: seq<Byte>)
    requires h.opcode <= 0x0F
    ensures HeaderLength(MakeBasic(h)) == |Encode(little, h)|
    ensures Received(MakeBasic(h), Encode(little, h) + rest) == MakeExtended(little, h)
  {
    EncodedShape(little, h);
    hide MakeBasic, SizeField, Encode, HeaderLength;
  }

  /** Size and key, read on any host from the extended header built on any host. */
  lemma ExtendedRoundTrip(from: bool, to: bool, h: Header)
    requires Sendable(h)
    ensures PayloadSize(to, MakeBasic(h), MakeExtended(from, h)) == h.size
    ensures MaskingKey(MakeBasic(h), MakeExtended(from, h)) == h.key
  {
    var b, e := MakeBasic(h), MakeExtended(from, h);
    hide MakeBasic, SizeField, BasicSize, SizeCode, Masked?, NetworkNumber, KeyOffset;
    BasicRoundTrip(h);
    SmallCode(h.size);
    FieldLength(from, h);
    if h.masked {
      assert e[KeyOffset(b)..KeyOffset(b) + 4] == h.key;
    }
    if h.size > 125 {
      SizeReadBack(from, to, h, if h.size <= 0xFFFF then 2 else 8);
    }
  }

  /** The size field, written on one host and read on another. */
  lemma SizeReadBack(from: bool, to: bool, h: Header, n: nat)
    requires 125 < h.size < Power(8) && n == if h.size <= 0xFFFF then 2 else 8
    ensures NetworkNumber(to, MakeExtended(from, h), n) == h.size
  {
    hide SizeField, NetworkNumber, Digits, Value;
    var e := MakeExtended(from, h);
    PowerTable();
    hide Power;
    SizeFieldBytes(from, h.size);
    assert e[..n] == Reversed(Digits(h.size, n));
    NetworkNumberBytes(to, e, n);
    ReversedTwice(Digits(h.size, n));
    ValueDigits(h.size, n);
  }

  /**
    * Every header that can be sent, followed by arbitrary bytes, is read back unchanged, whatever the
    * byte orders of the two hosts; its length, fixed by the first two bytes, is between 2 and 14.
    */
  lemma DecodeEncode(from: bool, to: bool, h: Header, rest: seq<Byte>)
    requires Sendable(h)
    ensures Decode(to, Encode(from, h) + rest) == Some((h, |Encode(from, h)|))
    ensures |Encode(from, h)| == HeaderLength(BasicHeader(Encode(from, h)[0], Encode(from, h)[1]))
    ensures 2 <= |Encode(from, h)| <= 14
  {
    EncodedShape(from, h);
    ReceivedIsSent(from, h, rest);
    ExtendedRoundTrip(from, to, h);
    BasicRoundTrip(h);
    hide MakeBasic, SizeField, Encode, MakeExtended, PayloadSize, MaskingKey, Received;
    var wire := Encode(from, h) + rest;
    assert BasicHeader(wire[0], wire[1]) == MakeBasic(h);
  }

  /** The size code and size bytes that a decoded size would be sent with, if it came in its shortest form. */
  lemma MinimalRestored(from: bool, to: bool, b: BasicHeader, e: seq<Byte>)
    requires |e| == 12
    ensures var size := PayloadSize(to, b, e);
            && size < Power(8)
            && |SizeField(from, size)| <= KeyOffset(b)
            && (NonMinimal(to, b, e) ==> |SizeField(from, size)| < KeyOffset(b))
            && (!NonMinimal(to, b, e) ==> SizeCode(size) == BasicSize(b) && SizeField(from, size) == e[..KeyOffset(b)])
  {
    hide BasicSize, SizeCode, SizeField, NetworkNumber;
    var code, size := BasicSize(b), PayloadSize(to, b, e);
    BasicRestored(b);
    SmallCode(size);
    if code <= 125 {
      PowerTable();
      ByteDetermined(code, SizeCode(size));
    } else {
      WideRestored(from, to, e, if code == SIZE_16BIT then 2 else 8);
      hide Power;
    }
  }

  /** A two- or eight-byte size field: its bytes come back exactly when the number needs them. */
  lemma WideRestored(from: bool, to: bool, e: seq<Byte>, n: nat)
    requires |e| == 12 && (n == 2 || n == 8)
    ensures var size := NetworkNumber(to, e, n);
            && size < Power(8) && (n == 2 ==> size <= 0xFFFF)
            && (size > (if n == 2 then 125 else 0xFFFF) ==> SizeField(from, size) == e[..n])
  {
    hide Value, Digits, NetworkNumber, SizeField;
    var r := Reversed(e[..n]);
    NetworkNumberBytes(to, e, n);
    ValueBound(r);
    PowerTable();
    DigitsValue(r);
    ReversedTwice(e[..n]);
    SizeFieldBytes(from, NetworkNumber(to, e, n));
  }

  /** The basic header is restored once its size code is. */
  lemma BasicRebuilt(to: bool, b: BasicHeader, e: seq<Byte>)
    requires |e| == 12
    ensures var h := Fields(to, b, e);
            && h.opcode <= 0x0F && h.masked == Masked?(b) && h.key == MaskingKey(b, e) && h.size == PayloadSize(to, b, e)
            && (SizeCode(h.size) == BasicSize(b) ==> MakeBasic(h) == b)
  {
    hide SizeCode, PayloadSize, MaskingKey;
    BasicRestored(b);
    LowBits(b.b0);
  }

  lemma LowBits(b: Byte)
    ensures b & 0x0F <= 0x0F
  {
  }

  /** The header bytes on the wire are the basic header, the size field and the key. */
  lemma WireShape(b: BasicHeader, wire: seq<Byte>)
    requires |wire| >= 2 && b == BasicHeader(wire[0], wire[1]) && |wire| >= HeaderLength(b)
    ensures var e := Received(b, wire);
            HeaderLength(b) <= 14 && wire[..HeaderLength(b)]
            == [b.b0, b.b1] + e[..KeyOffset(b)] + (if Masked?(b) then MaskingKey(b, e) else [])
  {
    hide Masked?, BasicSize;
    var n, k := HeaderLength(b), KeyOffset(b);
    var e := Received(b, wire);
    assert wire[..n] == [b.b0, b.b1] + wire[2..2 + k] + wire[2 + k..n];
    assert e[..k] == wire[2..2 + k];
    assert Masked?(b) ==> e[k..k + 4] == wire[2 + k..n];
  }

  /** Sending again what was read, in terms of the two header parts. */
  lemma Resent(from: bool, to: bool, b: BasicHeader, e: seq<Byte>)
    requires |e| == 12
    ensures var h := Fields(to, b, e);
            && Sendable(h)
            && (NonMinimal(to, b, e) ==> |Encode(from, h)| < HeaderLength(b))
            && (!NonMinimal(to, b, e) ==>
                Encode(from, h) == [b.b0, b.b1] + e[..KeyOffset(b)] + (if Masked?(b) then MaskingKey(b, e) else []))
  {
    hide SizeField, Encode, PayloadSize, NonMinimal, MakeBasic, MaskingKey, SizeCode, BasicSize,
         KeyOffset, Masked?, Power, Fields, HeaderLength;
    var h := Fields(to, b, e);
    HeaderParts(b, e);
    BasicRebuilt(to, b, e);
    MinimalRestored(from, to, b, e);
    EncodedShape(from, h);
  }

  lemma HeaderParts(b: BasicHeader, e: seq<Byte>)
    requires |e| == 12
    ensures KeyOffset(b) <= 8 && HeaderLength(b) == 2 + KeyOffset(b) + if Masked?(b) then 4 else 0
    ensures !Masked?(b) ==> MaskingKey(b, e) == [0, 0, 0, 0]
  {
  }

  /**
    * For every wire content that holds a complete header: what is read can be sent, and sending it
    * again never takes more bytes. It gives back the very same bytes exactly when the receiver's check
    * for non-minimal sizes accepts the header, and otherwise it takes fewer.
    */
  lemma EncodeDecode(from: bool, to: bool, wire: seq<Byte>)
    requires Decode(to, wire).Some?
    ensures var (h, n) := Decode(to, wire).value;
            var b := BasicHeader(wire[0], wire[1]);
            && Sendable(h) && n <= 14 && |Encode(from, h)| <= n
            && (Encode(from, h) == wire[..n] <==> !NonMinimal(to, b, Received(b, wire)))
            && (|Encode(from, h)| == n <==> !NonMinimal(to, b, Received(b, wire)))
  {
    hide SizeField, Encode, PayloadSize, NonMinimal, MakeBasic, MaskingKey, Received, SizeCode, BasicSize,
         KeyOffset, Masked?, Power, Fields, HeaderLength, Sendable;
    var b := BasicHeader(wire[0], wire[1]);
    WireShape(b, wire);
    Resent(from, to, b, Received(b, wire));
  }

  // ----- The format, in numbers -----

  /** A number written most significant byte first. */
  function BigEndian(s: seq<Byte>): nat {
    if s == [] then 0 else 256 * BigEndian(s[..|s| - 1]) + s[|s| - 1] as nat
  }

  lemma {:induction false} BigEndianValue(s: seq<Byte>)
    ensures BigEndian(s) == Value(Reversed(s))
  {
    if s != [] {
      var init := s[..|s| - 1];
      BigEndianValue(init);
      assert Reversed(s)[1..] == Reversed(init);
    }
  }

  lemma TwoBytes(s: seq<Byte>)
    requires |s| == 2
    ensures BigEndian(s) == 256 * s[0] as nat + s[1] as nat
  {
    assert s[..1][..0] == [];
    assert BigEndian(s[..1]) == s[0] as nat;
  }

  /** Where the size field ends, by the low seven bits of the second byte. */
  function SizeEnd(second: Byte): nat {
    if second & 0x7F <= 125 then 2 else if second & 0x7F == 126 then 4 else 10
  }

  /** The size, from the second byte and the bytes after it. */
  function WireSize(wire: seq<Byte>): nat
    requires |wire| >= 2 && |wire| >= SizeEnd(wire[1])
  {
    if wire[1] & 0x7F <= 125 then (wire[1] & 0x7F) as nat
    else if wire[1] & 0x7F == 126 then 256 * wire[2] as nat + wire[3] as nat
    else BigEndian(wire[2..10])
  }

  /**
    * What a header is on the wire: the flags and the opcode bit by bit in the first byte; the mask bit and
    * the size, or 126 or 127, in the second; then the size in two or eight bytes, most significant first,
    * and the key.
    */
  lemma EncodedOnWire(little: bool, h: Header)
    requires Sendable(h)
    ensures var w := Encode(little, h);
            && |w| == (if h.size <= 125 then 2 else if h.size <= 65535 then 4 else 10) + (if h.masked then 4 else 0)
            && (w[0] & 0x80 != 0 <==> h.fin) && (w[0] & 0x40 != 0 <==> h.rsv1) && (w[0] & 0x20 != 0 <==> h.rsv2)
            && (w[0] & 0x10 != 0 <==> h.rsv3) && w[0] & 0x0F == h.opcode && (w[1] & 0x80 != 0 <==> h.masked)
            && (w[1] & 0x7F) as nat == (if h.size <= 125 then h.size else if h.size <= 65535 then 126 else 127)
            && (125 < h.size <= 65535 ==> 256 * w[2] as nat + w[3] as nat == h.size)
            && (65535 < h.size ==> BigEndian(w[2..10]) == h.size)
            && (h.masked ==> w[|w| - 4..] == h.key)
  {
    hide MakeBasic, Encode, SizeField, HeaderLength, KeyOffset, BigEndian;
    BasicOnWire(h);
    EncodedShape(little, h);
    SizeOnWire(little, h.size);
    Parts(Encode(little, h), MakeBasic(h), SizeField(little, h.size), if h.masked then h.key else [], h.size);
  }

  lemma Parts(w: seq<Byte>, b: BasicHeader, field: seq<Byte>, key: seq<Byte>, size: nat)
    requires w == [b.b0, b.b1] + field + key && |field| == if size <= 125 then 0 else if size <= 65535 then 2 else 8
    requires size > 125 ==> BigEndian(field) == size
    ensures |w| == (if size <= 125 then 2 else if size <= 65535 then 4 else 10) + |key| && w[0] == b.b0 && w[1] == b.b1
    ensures 125 < size <= 65535 ==> 256 * w[2] as nat + w[3] as nat == size
    ensures 65535 < size ==> BigEndian(w[2..10]) == size
    ensures w[|w| - |key|..] == key
  {
    hide BigEndian;
    if 125 < size <= 65535 {
      TwoBytes(field);
      assert w[2] == field[0] && w[3] == field[1];
    } else if size > 65535 {
      assert w[2..10] == field;
    }
  }

  lemma BasicOnWire(h: Header)
    requires h.opcode <= 0x0F
    ensures var b := MakeBasic(h);
            && (b.b0 & 0x80 != 0 <==> h.fin) && (b.b0 & 0x40 != 0 <==> h.rsv1) && (b.b0 & 0x20 != 0 <==> h.rsv2)
            && (b.b0 & 0x10 != 0 <==> h.rsv3) && b.b0 & 0x0F == h.opcode && (b.b1 & 0x80 != 0 <==> h.masked)
            && (b.b1 & 0x7F) as nat == (if h.size <= 125 then h.size else if h.size <= 65535 then 126 else 127)
  {
    hide MakeBasic, SizeCode;
    BasicRoundTrip(h);
    Bits(MakeBasic(h).b0);
    Bits(MakeBasic(h).b1);
    SmallCode(h.size);
  }

  lemma Bits(b: Byte)
    ensures (b & 0x80 == 0x80 <==> b & 0x80 != 0) && (b & 0x40 == 0x40 <==> b & 0x40 != 0)
    ensures (b & 0x20 == 0x20 <==> b & 0x20 != 0) && (b & 0x10 == 0x10 <==> b & 0x10 != 0)
  {
  }

  lemma SizeOnWire(little: bool, size: nat)
    requires size < Power(8)
    ensures 125 < size ==> BigEndian(SizeField(little, size)) == size
  {
    hide BigEndian, SizeField, Digits, Value;
    if 125 < size {
      PowerTable();
      hide Power;
      SizeFieldBytes(little, size);
      var n := if size <= 0xFFFF then 2 else 8;
      BigEndianValue(SizeField(little, size));
      ReversedTwice(Digits(size, n));
      ValueDigits(size, n);
    }
  }

  /** What is read from the wire: whether enough bytes are there, how many are taken, and every field. */
  lemma DecodedFromWire(little: bool, wire: seq<Byte>)
    ensures |wire| < 2 ==> Decode(little, wire) == None
    ensures |wire| >= 2 ==>
              var n := SizeEnd(wire[1]) + if wire[1] & 0x80 != 0 then 4 else 0;
              if |wire| < n then Decode(little, wire) == None
              else Decode(little, wire) == Some((
                Header(wire[0] & 0x0F, wire[0] & 0x80 != 0, wire[0] & 0x40 != 0, wire[0] & 0x20 != 0, wire[0] & 0x10 != 0,
                       wire[1] & 0x80 != 0, if wire[1] & 0x80 != 0 then wire[n - 4..n] else [0, 0, 0, 0], WireSize(wire)), n))
  {
    hide BigEndian, NetworkNumber, PayloadSize, MaskingKey, WireSize, SizeEnd, HeaderLength, Received;
    if |wire| >= 2 {
      var b := BasicHeader(wire[0], wire[1]);
      Bits(wire[0]);
      Bits(wire[1]);
      LengthOnWire(b);
      if |wire| >= HeaderLength(b) {
        SizeFromWire(little, wire);
        KeyFromWire(wire);
      }
    }
  }

  lemma SizeFromWire(little: bool, wire: seq<Byte>)
    requires |wire| >= 2 && |wire| >= HeaderLength(BasicHeader(wire[0], wire[1])) && |wire| >= SizeEnd(wire[1])
    ensures var b := BasicHeader(wire[0], wire[1]); PayloadSize(little, b, Received(b, wire)) == WireSize(wire)
  {
    hide BigEndian, NetworkNumber;
    var b := BasicHeader(wire[0], wire[1]);
    LengthOnWire(b);
    var e, k := Received(b, wire), KeyOffset(b);
    if k > 0 {
      assert e[..k] == wire[2..2 + k];
      NetworkNumberBytes(little, e, k);
      BigEndianValue(e[..k]);
      if k == 2 { TwoBytes(wire[2..4]); }
    }
  }

  lemma KeyFromWire(wire: seq<Byte>)
    requires |wire| >= 2 && |wire| >= HeaderLength(BasicHeader(wire[0], wire[1]))
    ensures var b := BasicHeader(wire[0], wire[1]);
            var n := HeaderLength(b);
            n >= 4 + (if Masked?(b) then 2 else -2) && MaskingKey(b, Received(b, wire)) == if Masked?(b) then wire[n - 4..n] else [0, 0, 0, 0]
  {
    hide BasicSize, Masked?;
    var b := BasicHeader(wire[0], wire[1]);
    var n := HeaderLength(b);
    if Masked?(b) {
      assert forall i | 0 <= i < n - 2 :: Received(b, wire)[i] == wire[i + 2];
      assert Received(b, wire)[KeyOffset(b)..KeyOffset(b) + 4] == wire[n - 4..n];
    }
  }

  lemma LengthOnWire(b: BasicHeader)
    ensures 2 + KeyOffset(b) == SizeEnd(b.b1) && HeaderLength(b) == SizeEnd(b.b1) + if b.b1 & 0x80 == 0x80 then 4 else 0
    ensures b.b1 & 0x7F <= 127
  {
  }

  /** The check that rejects a longer size field than needed, on the wire. */
  lemma NonMinimalOnWire(little: bool, wire: seq<Byte>)
    requires |wire| >= 2 && |wire| >= HeaderLength(BasicHeader(wire[0], wire[1])) && |wire| >= SizeEnd(wire[1])
    ensures var b := BasicHeader(wire[0], wire[1]);
            NonMinimal(little, b, Received(b, wire))
            <==> (SizeEnd(wire[1]) == 4 && WireSize(wire) <= 125) || (SizeEnd(wire[1]) == 10 && WireSize(wire) <= 65535)
  {
    SizeFromWire(little, wire);
    hide BigEndian, NetworkNumber, WireSize, PayloadSize, Received, HeaderLength;
  }

  /** The text examples of section 5.7 of RFC 6455: 5 bytes, plain and masked. */
  lemma TextExamples(little: bool, key: Key)
    ensures Encode(little, Header(1, true, false, false, false, false, key, 5)) == [0x81, 0x05]
    ensures Encode(little, Header(1, true, false, false, false, true, key, 5)) == [0x81, 0x85] + key
  {
    hide Encode, MakeBasic, SizeField;
    SmallStart(key);
    Example(little, Header(1, true, false, false, false, false, key, 5), 0x81, 0x05, []);
    Example(little, Header(1, true, false, false, false, true, key, 5), 0x81, 0x85, []);
  }

  lemma SmallStart(key: Key)
    ensures MakeBasic(Header(1, true, false, false, false, false, key, 5)) == BasicHeader(0x81, 0x05)
    ensures MakeBasic(Header(1, true, false, false, false, true, key, 5)) == BasicHeader(0x81, 0x85)
  {
    SmallCode(5);
    ByteDetermined(SizeCode(5), 5);
    hide SizeCode;
  }

  /** And the binary ones: 256 bytes and 64 KiB, not masked. */
  lemma BinaryExamples(little: bool, key: Key)
    ensures Encode(little, Header(2, true, false, false, false, false, key, 256)) == [0x82, 0x7E, 0x01, 0x00]
    ensures Encode(little, Header(2, true, false, false, false, false, key, 65536)) == [0x82, 0x7F, 0, 0, 0, 0, 0, 1, 0, 0]
  {
    hide Encode, MakeBasic, SizeField;
    LargeStart(key);
    TwoBytes([1, 0]);
    Size64K();
    hide BigEndian;
    Example(little, Header(2, true, false, false, false, false, key, 256), 0x82, 0x7E, [1, 0]);
    Example(little, Header(2, true, false, false, false, false, key, 65536), 0x82, 0x7F, [0, 0, 0, 0, 0, 1, 0, 0]);
  }

  lemma LargeStart(key: Key)
    ensures MakeBasic(Header(2, true, false, false, false, false, key, 256)) == BasicHeader(0x82, 0x7E)
    ensures MakeBasic(Header(2, true, false, false, false, false, key, 65536)) == BasicHeader(0x82, 0x7F)
  {
    SmallCode(256);
    SmallCode(65536);
    hide SizeCode;
  }

  lemma BigEndianSnoc(s: seq<Byte>, b: Byte)
    ensures BigEndian(s + [b]) == 256 * BigEndian(s) + b as nat
  {
    assert (s + [b])[..|s|] == s;
  }

  lemma {:induction false} LeadingZeros(n: nat)
    ensures BigEndian(Zeros(n)) == 0
  {
    if n > 0 {
      LeadingZeros(n - 1);
      BigEndianSnoc(Zeros(n - 1), 0);
      hide BigEndian;
      assert Zeros(n) == Zeros(n - 1) + [0];
    }
  }

  lemma Size64K()
    ensures BigEndian([0, 0, 0, 0, 0, 1, 0, 0]) == 65536
  {
    LeadingZeros(5);
    BigEndianSnoc(Zeros(5), 1);
    BigEndianSnoc(Zeros(5) + [1], 0);
    BigEndianSnoc(Zeros(5) + [1] + [0], 0);
    hide BigEndian;
    assert [0, 0, 0, 0, 0, 1, 0, 0] == Zeros(5) + [1] + [0] + [0];
  }

  lemma Example(little: bool, h: Header, first: Byte, second: Byte, field: seq<Byte>)
    requires h.opcode <= 0x0F && MakeBasic(h) == BasicHeader(first, second)
    requires |field| == (if h.size <= 125 then 0 else if h.size <= 0xFFFF then 2 else 8) && (field != [] ==> BigEndian(field) == h.size)
    ensures Encode(little, h) == [first, second] + field + if h.masked then h.key else []
  {
    hide Encode, MakeBasic, SizeField, Digits, Value, BigEndian;
    EncodedShape(little, h);
    if field != [] {
      BigEndianValue(field);
      SizeFieldBytes(little, h.size);
      DigitsValue(Reversed(field));
      ReversedTwice(field);
    }
  }
}
