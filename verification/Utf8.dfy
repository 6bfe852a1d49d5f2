/**
  * The table-driven UTF-8 validator, proved equal to the grammar of section 4 of RFC 3629,
  * with the code points it accumulates on the way.
  */
module Utf8 {
  import opened Helpers

  type Octet = b: int | 0 <= b < 256

  const ACCEPT: nat := 0
  const REJECT: nat := 1

  // ----- The automaton -----

  // The lookup table, row by row. Bytes map to types first, then state and type map to a state.
  const ROW_00: seq<nat> := [0,0,0,0,0,0,0,0,0,0,0,0,0,0,0,0,0,0,0,0,0,0,0,0,0,0,0,0,0,0,0,0] // 00..1f, and so on to 60..7f
  const ROW_80: seq<nat> := [1,1,1,1,1,1,1,1,1,1,1,1,1,1,1,1,9,9,9,9,9,9,9,9,9,9,9,9,9,9,9,9] // 80..9f
  const ROW_A0: seq<nat> := [7,7,7,7,7,7,7,7,7,7,7,7,7,7,7,7,7,7,7,7,7,7,7,7,7,7,7,7,7,7,7,7] // a0..bf
  const ROW_C0: seq<nat> := [8,8,2,2,2,2,2,2,2,2,2,2,2,2,2,2,2,2,2,2,2,2,2,2,2,2,2,2,2,2,2,2] // c0..df
  const ROW_E0: seq<nat> := [10,3,3,3,3,3,3,3,3,3,3,3,3,4,3,3,11,6,6,6,5,8,8,8,8,8,8,8,8,8,8,8] // e0..ff
  const ROW_S0: seq<nat> := [0,1,2,3,5,8,7,1,1,1,4,6,1,1,1,1] // s0
  const ROW_S1: seq<nat> := [1,1,1,1,1,1,1,1,1,1,1,1,1,1,1,1,1,0,1,1,1,1,1,0,1,0,1,1,1,1,1,1] // s1..s2
  const ROW_S3: seq<nat> := [1,2,1,1,1,1,1,2,1,2,1,1,1,1,1,1,1,1,1,1,1,1,1,2,1,1,1,1,1,1,1,1] // s3..s4
  const ROW_S5: seq<nat> := [1,2,1,1,1,1,1,1,1,2,1,1,1,1,1,1,1,1,1,1,1,1,1,3,1,3,1,1,1,1,1,1] // s5..s6
  const ROW_S7: seq<nat> := [1,3,1,1,1,1,1,3,1,3,1,1,1,1,1,1,1,3,1,1,1,1,1,1,1,1,1,1,1,1,1,1] // s7..s8

  function Utf8d(i: nat): nat
    requires i < 400
  {
    if i < 0x80 then ROW_00[i % 32]
    else if i < 0xA0 then ROW_80[i - 0x80]
    else if i < 0xC0 then ROW_A0[i - 0xA0]
    else if i < 0xE0 then ROW_C0[i - 0xC0]
    else if i < 0x100 then ROW_E0[i - 0xE0]
    else if i < 272 then ROW_S0[i - 256]
    else if i < 304 then ROW_S1[i - 272]
    else if i < 336 then ROW_S3[i - 304]
    else if i < 368 then ROW_S5[i - 336]
    else ROW_S7[i - 368]
  }

  /** The type of a byte, by range. */
  function Type(b: Octet): nat {
    if b < 0x80 then 0 else if b < 0x90 then 1 else if b < 0xA0 then 9 else if b < 0xC0 then 7
    else if b < 0xC2 then 8 else if b < 0xE0 then 2 else if b == 0xE0 then 10 else if b == 0xED then 4
    else if b < 0xF0 then 3 else if b == 0xF0 then 11 else if b < 0xF4 then 6 else if b == 0xF4 then 5
    else 8
  }

  /** The successor of a state on a byte, by range. */
  function Next(q: nat, b: Octet): nat {
    if q == 0 then
      if b < 0x80 then 0 else if b < 0xC2 then 1 else if b < 0xE0 then 2 else if b == 0xE0 then 4
      else if b == 0xED then 5 else if b < 0xF0 then 3 else if b == 0xF0 then 6 else if b < 0xF4 then 7
      else if b == 0xF4 then 8 else 1
    else if q == 2 then if 0x80 <= b < 0xC0 then 0 else 1
    else if q == 3 then if 0x80 <= b < 0xC0 then 2 else 1
    else if q == 4 then if 0xA0 <= b < 0xC0 then 2 else 1
    else if q == 5 then if 0x80 <= b < 0xA0 then 2 else 1
    else if q == 6 then if 0x90 <= b < 0xC0 then 3 else 1
    else if q == 7 then if 0x80 <= b < 0xC0 then 3 else 1
    else if q == 8 then if 0x80 <= b < 0x90 then 3 else 1
    else 1
  }

  lemma TypeTable(b: Octet)
    ensures Utf8d(b) == Type(b)
  {
    if b < 0xE0 {
      if b < 0x80 {} else if b < 0xA0 {} else if b < 0xC0 {} else {}
    } else {
      TypeTableHigh(b);
    }
  }

  lemma TypeTableHigh(b: Octet)
    requires 0xE0 <= b
    ensures Utf8d(b) == Type(b)
  {
  }

  lemma StateTable(q: nat, b: Octet)
    requires q <= 8
    ensures Utf8d(256 + q * 16 + Type(b)) == Next(q, b)
  {
    if q <= 2 {
      if q == 0 {} else {}
    } else if q <= 4 {
    } else {
      StateTableHigh(q, b);
    }
  }

  lemma StateTableHigh(q: nat, b: Octet)
    requires 5 <= q <= 8
    ensures Utf8d(256 + q * 16 + Type(b)) == Next(q, b)
  {
    if q <= 6 {} else {}
  }

  /** The two table lookups of `decode`; their contracts say what the table holds. */
  function TypeOf(b: Octet): (kind: nat)
    ensures kind == Type(b)
  {
    TypeTable(b);
    Utf8d(b)
  }

  function Successor(q: nat, b: Octet): (r: nat)
    requires q <= 8
    ensures r == Next(q, b)
  {
    StateTable(q, b);
    Utf8d(256 + q * 16 + TypeOf(b))
  }

  datatype Decoder = Decoder(state: nat, codepoint: nat)

  const START := Decoder(ACCEPT, 0)

  /** `(0xff >> type) & byte` */
  function Payload(kind: nat, b: Octet): nat {
    if kind == 0 then b else if kind == 1 then b % 128 else if kind == 2 then b % 64 else if kind == 3 then b % 32
    else if kind == 4 then b % 16 else if kind == 5 then b % 8 else if kind == 6 then b % 4 else if kind == 7 then b % 2
    else 0
  }

  /** One byte, as `decode` does it; both fields are 32-bit and the shifted code point leaves room for six bits. */
  function Step(d: Decoder, b: Octet): (r: Decoder)
    requires d.state <= 8
    ensures r.state <= 8
  {
    Decoder(Successor(d.state, b),
            if d.state != ACCEPT then b % 64 + d.codepoint * 64 % 0x1_0000_0000 else Payload(TypeOf(b), b))
  }

  /** The payload of a first byte of this type: its low `8 - kind` bits. */
  lemma PayloadBits(kind: nat, b: Octet)
    requires kind <= 8
    ensures Payload(kind, b) == b % TwoTo(8 - kind)
  {
    assert TwoTo(3) == 8 && TwoTo(4) == 16 && TwoTo(5) == 32 && TwoTo(6) == 64 && TwoTo(7) == 128 && TwoTo(8) == 256;
  }

  lemma StepByRange(d: Decoder, b: Octet)
    requires d.state <= 8
    ensures Step(d, b) == Decoder(Next(d.state, b),
              if d.state != ACCEPT then b % 64 + d.codepoint * 64 % 0x1_0000_0000 else Payload(Type(b), b))
  {
    hide Utf8d, TypeOf, Successor;
  }

  /** All bytes of `s`, one after the other. */
  function Run(d: Decoder, s: seq<Octet>): (r: Decoder)
    requires d.state <= 8
    ensures r.state <= 8
    decreases |s|
  {
    if s == [] then d else Run(Step(d, s[0]), s[1..])
  }

  predicate Valid(s: seq<Octet>) {
    Run(START, s).state == ACCEPT
  }

  lemma {:induction false} RunConcat(d: Decoder, s: seq<Octet>, t: seq<Octet>)
    requires d.state <= 8
    ensures Run(d, s + t) == Run(Run(d, s), t)
    decreases |s|
  {
    hide Step;
    if s == [] {
      assert s + t == t;
    } else {
      assert (s + t)[1..] == s[1..] + t;
      RunConcat(Step(d, s[0]), s[1..], t);
    }
  }

  lemma {:induction false} RejectAbsorbs(d: Decoder, s: seq<Octet>)
    requires d.state == REJECT
    ensures Run(d, s).state == REJECT
    decreases |s|
  {
    if s != [] {
      StepByRange(d, s[0]);
      hide Step;
      RejectAbsorbs(Step(d, s[0]), s[1..]);
    }
  }

  // ----- The grammar -----

  predicate Tail(b: Octet) {
    0x80 <= b <= 0xBF
  }

  /** `UTF8-char`, the four alternatives of section 4 of RFC 3629. */
  predicate Char(c: seq<Octet>) {
    || (|c| == 1 && c[0] <= 0x7F)
    || (|c| == 2 && 0xC2 <= c[0] <= 0xDF && Tail(c[1]))
    || (|c| == 3 && c[0] == 0xE0 && 0xA0 <= c[1] <= 0xBF && Tail(c[2]))
    || (|c| == 3 && 0xE1 <= c[0] <= 0xEC && Tail(c[1]) && Tail(c[2]))
    || (|c| == 3 && c[0] == 0xED && 0x80 <= c[1] <= 0x9F && Tail(c[2]))
    || (|c| == 3 && 0xEE <= c[0] <= 0xEF && Tail(c[1]) && Tail(c[2]))
    || (|c| == 4 && c[0] == 0xF0 && 0x90 <= c[1] <= 0xBF && Tail(c[2]) && Tail(c[3]))
    || (|c| == 4 && 0xF1 <= c[0] <= 0xF3 && Tail(c[1]) && Tail(c[2]) && Tail(c[3]))
    || (|c| == 4 && c[0] == 0xF4 && 0x80 <= c[1] <= 0x8F && Tail(c[2]) && Tail(c[3]))
  }

  function Flatten(chars: seq<seq<Octet>>): seq<Octet> {
    if chars == [] then [] else chars[0] + Flatten(chars[1..])
  }

  ghost predicate AllChars(chars: seq<seq<Octet>>) {
    forall i | 0 <= i < |chars| :: Char(chars[i])
  }

  /** `UTF8-octets`: a concatenation of characters. */
  ghost predicate WellFormed(s: seq<Octet>) {
    exists chars :: AllChars(chars) && Flatten(chars) == s
  }

  // ----- Code points -----

  /** Unicode scalar values: code points without the surrogates. */
  predicate Scalar(v: nat) {
    v < 0xD800 || 0xE000 <= v <= 0x10FFFF
  }

  /** The encoding of a scalar value, by the table in section 3 of RFC 3629. */
  function Encode(v: nat): seq<Octet>
    requires Scalar(v)
  {
    if v < 0x80 then [v]
    else if v < 0x800 then [0xC0 + v / 64, 0x80 + v % 64]
    else if v < 0x1_0000 then [0xE0 + v / 4096, 0x80 + v / 64 % 64, 0x80 + v % 64]
    else [0xF0 + v / 262144, 0x80 + v / 4096 % 64, 0x80 + v / 64 % 64, 0x80 + v % 64]
  }

  function EncodeAll(vs: seq<nat>): seq<Octet>
    requires forall i | 0 <= i < |vs| :: Scalar(vs[i])
  {
    if vs == [] then [] else Encode(vs[0]) + EncodeAll(vs[1..])
  }

  /** Six more payload bits. */
  function Append(high: nat, b: Octet): nat {
    64 * high + b % 64
  }

  function AppendAll(high: nat, t: seq<Octet>): nat
    decreases |t|
  {
    if t == [] then high else AppendAll(Append(high, t[0]), t[1..])
  }

  /** The number that the payload bits of a character spell. */
  function CharValue(c: seq<Octet>): nat
    requires Char(c)
  {
    AppendAll(Payload(if |c| == 1 then 0 else |c| + 1, c[0]), c[1..])
  }

  function Six(a: int, b: int, c: int, d: int): int {
    64 * (64 * (64 * a + b) + c) + d
  }

  function Above(b: Octet, base: nat): int {
    b - base
  }

  /** The encoding of a number given by its sextets. */
  lemma EncodeSextets(a: nat, b: nat, c: nat, d: nat)
    requires b < 64 && c < 64 && d < 64 && Scalar(Six(a, b, c, d))
    ensures var v := Six(a, b, c, d);
            && (0x1_0000 <= v ==> Encode(v) == [0xF0 + a, 0x80 + b, 0x80 + c, 0x80 + d])
            && (a == 0 && 0x800 <= v < 0x1_0000 ==> Encode(v) == [0xE0 + b, 0x80 + c, 0x80 + d])
            && (a == 0 && b == 0 && 0x80 <= v < 0x800 ==> Encode(v) == [0xC0 + c, 0x80 + d])
  {
    var v := Six(a, b, c, d);
    assert v / 64 == 64 * (64 * a + b) + c && v % 64 == d;
    assert v / 64 / 64 == 64 * a + b && v / 64 % 64 == c;
    assert v / 64 / 64 / 64 == a && v / 64 / 64 % 64 == b;
    assert v / 4096 == v / 64 / 64 && v / 262144 == v / 64 / 64 / 64;
  }

  lemma CharValueSextets(c: seq<Octet>)
    requires Char(c)
    ensures |c| == 1 ==> CharValue(c) == c[0]
    ensures |c| == 2 ==> CharValue(c) == Six(0, 0, Above(c[0], 0xC0), Above(c[1], 0x80))
    ensures |c| == 3 ==> CharValue(c) == Six(0, Above(c[0], 0xE0), Above(c[1], 0x80), Above(c[2], 0x80))
    ensures |c| == 4 ==> CharValue(c) == Six(Above(c[0], 0xF0), Above(c[1], 0x80), Above(c[2], 0x80), Above(c[3], 0x80))
  {
    LeadPayload(c);
    if |c| > 1 {
      AppendTails(Above(c[0], if |c| == 2 then 0xC0 else if |c| == 3 then 0xE0 else 0xF0), c[1..]);
      hide AppendAll;
    }
  }

  lemma AppendTails(a: nat, t: seq<Octet>)
    requires 1 <= |t| <= 3 && forall i | 0 <= i < |t| :: Tail(t[i])
    ensures |t| == 1 ==> AppendAll(a, t) == 64 * a + Above(t[0], 0x80)
    ensures |t| == 2 ==> AppendAll(a, t) == 64 * (64 * a + Above(t[0], 0x80)) + Above(t[1], 0x80)
    ensures |t| == 3 ==> AppendAll(a, t) == Six(a, Above(t[0], 0x80), Above(t[1], 0x80), Above(t[2], 0x80))
  {
    hide Append, Above, Six;
    TailAppended(a, t[0]);
    var b := Append(a, t[0]);
    if |t| == 1 {
      assert AppendAll(a, t) == AppendAll(b, t[1..]) == b;
    } else {
      TailAppended(b, t[1]);
      var c := Append(b, t[1]);
      assert t[1..][0] == t[1] && t[1..][1..] == t[2..];
      assert AppendAll(a, t) == AppendAll(b, t[1..]) == AppendAll(c, t[2..]);
      if |t| == 2 {
        assert AppendAll(c, t[2..]) == c;
      } else {
        TailAppended(c, t[2]);
        assert t[2..][0] == t[2] && t[2..][1..] == t[3..] == [];
        assert AppendAll(c, t[2..]) == AppendAll(Append(c, t[2]), []) == Append(c, t[2]);
        Sextets(a, Above(t[0], 0x80), Above(t[1], 0x80), Above(t[2], 0x80));
      }
    }
  }

  lemma TailAppended(a: nat, b: Octet)
    requires Tail(b)
    ensures Append(a, b) == 64 * a + Above(b, 0x80)
  {
  }

  lemma Sextets(a: int, b: int, c: int, d: int)
    ensures Six(a, b, c, d) == 64 * (64 * (64 * a + b) + c) + d
  {
  }

  /** Characters and scalar values correspond one to one. */
  lemma EncodeCharValue(c: seq<Octet>)
    requires Char(c)
    ensures Scalar(CharValue(c)) && Encode(CharValue(c)) == c
  {
    hide CharValue, Encode, Char, Six;
    CharValueSextets(c);
    CharRange(c);
    if |c| == 1 {
      EncodeAscii(c[0]);
    } else if |c| == 2 {
      EncodeSextets(0, 0, Above(c[0], 0xC0), Above(c[1], 0x80));
      assert c == [c[0], c[1]];
    } else if |c| == 3 {
      EncodeSextets(0, Above(c[0], 0xE0), Above(c[1], 0x80), Above(c[2], 0x80));
      assert c == [c[0], c[1], c[2]];
    } else {
      EncodeSextets(Above(c[0], 0xF0), Above(c[1], 0x80), Above(c[2], 0x80), Above(c[3], 0x80));
      assert c == [c[0], c[1], c[2], c[3]];
    }
  }

  lemma EncodeAscii(v: nat)
    requires v < 0x80
    ensures Encode(v) == [v]
  {
  }

  /** No overlong forms, no surrogates, nothing above U+10FFFF. */
  lemma CharRange(c: seq<Octet>)
    requires Char(c)
    ensures 1 <= |c| <= 4 && forall i | 1 <= i < |c| :: 0 <= Above(c[i], 0x80) < 64
    ensures |c| == 1 ==> c[0] < 0x80
    ensures |c| == 2 ==> 0 <= Above(c[0], 0xC0) < 64 && 0x80 <= Six(0, 0, Above(c[0], 0xC0), Above(c[1], 0x80)) < 0x800
    ensures |c| == 3 ==>
              var v := Six(0, Above(c[0], 0xE0), Above(c[1], 0x80), Above(c[2], 0x80));
              0 <= Above(c[0], 0xE0) < 64 && 0x800 <= v < 0x1_0000 && Scalar(v)
    ensures |c| == 4 ==>
              var v := Six(Above(c[0], 0xF0), Above(c[1], 0x80), Above(c[2], 0x80), Above(c[3], 0x80));
              0 <= Above(c[0], 0xF0) && 0x1_0000 <= v && Scalar(v)
  {
  }

  lemma CharValueEncode(v: nat)
    requires Scalar(v)
    ensures Char(Encode(v)) && CharValue(Encode(v)) == v
  {
    var c := Encode(v);
    assert v / 64 / 64 == v / 4096 && v / 64 / 64 / 64 == v / 262144;
    assert Char(c);
    CharValueSextets(c);
    hide CharValue;
  }

  // ----- One character -----

  /** What must follow in state `q` to finish the character, by range. */
  predicate Finishes(q: nat, t: seq<Octet>) {
    || (q == 2 && |t| == 1 && Tail(t[0]))
    || (q == 3 && |t| == 2 && Tail(t[0]) && Tail(t[1]))
    || (q == 4 && |t| == 2 && 0xA0 <= t[0] <= 0xBF && Tail(t[1]))
    || (q == 5 && |t| == 2 && 0x80 <= t[0] <= 0x9F && Tail(t[1]))
    || (q == 6 && |t| == 3 && 0x90 <= t[0] <= 0xBF && Tail(t[1]) && Tail(t[2]))
    || (q == 7 && |t| == 3 && Tail(t[0]) && Tail(t[1]) && Tail(t[2]))
    || (q == 8 && |t| == 3 && 0x80 <= t[0] <= 0x8F && Tail(t[1]) && Tail(t[2]))
  }

  /** A character is a one-byte character, or a lead byte and what finishes it. */
  lemma CharSplits(c: seq<Octet>)
    requires c != []
    ensures Char(c) <==> (if Next(ACCEPT, c[0]) == ACCEPT then |c| == 1 else Finishes(Next(ACCEPT, c[0]), c[1..]))
  {
  }

  lemma FinishesSplits(q: nat, t: seq<Octet>)
    requires 2 <= q <= 8 && t != []
    ensures Finishes(q, t) <==> (if Next(q, t[0]) == ACCEPT then |t| == 1 else Finishes(Next(q, t[0]), t[1..]))
  {
  }

  /** Reading the rest of a character ends in accept. */
  lemma {:induction false} FinishesAccepts(d: Decoder, t: seq<Octet>)
    requires d.state <= 8 && Finishes(d.state, t)
    ensures Run(d, t).state == ACCEPT
    decreases |t|
  {
    FinishesSplits(d.state, t);
    StepByRange(d, t[0]);
    hide Step, Finishes;
    if Next(d.state, t[0]) != ACCEPT {
      FinishesAccepts(Step(d, t[0]), t[1..]);
    }
  }

  /** A run from inside a character to accept first finishes that character. */
  lemma {:induction false} AcceptFinishes(d: Decoder, s: seq<Octet>) returns (k: nat)
    requires 2 <= d.state <= 8 && Run(d, s).state == ACCEPT
    ensures k <= |s| && Finishes(d.state, s[..k])
    decreases |s|
  {
    StepByRange(d, s[0]);
    hide Step, Finishes;
    var d' := Step(d, s[0]);
    if d'.state == REJECT {
      RejectAbsorbs(d', s[1..]);
    } else if d'.state == ACCEPT {
      k := 1;
    } else {
      k := AcceptFinishes(d', s[1..]);
      assert s[..k + 1][1..] == s[1..][..k];
      k := k + 1;
    }
    FinishesSplits(d.state, s[..k]);
  }

  function CodepointBound(left: nat): nat {
    if left == 0 then 0x20_0000 else if left == 1 then 0x8000 else if left == 2 then 0x200 else 8
  }

  /** On the way to the end of a character the code point collects six bits per byte and never overflows. */
  lemma {:induction false} FinishesCollects(d: Decoder, t: seq<Octet>)
    requires d.state <= 8 && Finishes(d.state, t) && d.codepoint < CodepointBound(|t|)
    ensures Run(d, t).codepoint == AppendAll(d.codepoint, t)
    decreases |t|
  {
    FinishesSplits(d.state, t);
    StepByRange(d, t[0]);
    hide Step, Finishes;
    var d' := Step(d, t[0]);
    assert d'.codepoint == Append(d.codepoint, t[0]);
    if Next(d.state, t[0]) != ACCEPT {
      FinishesCollects(d', t[1..]);
    } else {
      assert t[1..] == [];
    }
  }

  /** Reading one character from accept ends in accept, with its scalar value as the code point. */
  lemma CharAccepts(d: Decoder, c: seq<Octet>)
    requires d.state == ACCEPT && Char(c)
    ensures Run(d, c) == Decoder(ACCEPT, CharValue(c))
  {
    StepByRange(d, c[0]);
    CharSplits(c);
    LeadPayload(c);
    hide Step, Finishes, Char, Payload;
    var d' := Step(d, c[0]);
    if |c| > 1 {
      FinishesAccepts(d', c[1..]);
      FinishesCollects(d', c[1..]);
    }
  }

  lemma LeadPayload(c: seq<Octet>)
    requires Char(c)
    ensures 1 <= |c| <= 4
    ensures Payload(Type(c[0]), c[0]) == Payload(if |c| == 1 then 0 else |c| + 1, c[0])
    ensures |c| > 1 ==> Payload(Type(c[0]), c[0]) < CodepointBound(|c| - 1)
    ensures |c| > 1 ==> Payload(Type(c[0]), c[0]) == Above(c[0], if |c| == 2 then 0xC0 else if |c| == 3 then 0xE0 else 0xF0)
  {
  }

  // ----- Whole strings -----

  /** The code points at the moments a run reaches accept. */
  function Codepoints(d: Decoder, s: seq<Octet>): seq<nat>
    requires d.state <= 8
    decreases |s|
  {
    if s == [] then []
    else
      var d' := Step(d, s[0]);
      (if d'.state == ACCEPT then [d'.codepoint] else []) + Codepoints(d', s[1..])
  }

  lemma {:induction false} CodepointsConcat(d: Decoder, s: seq<Octet>, t: seq<Octet>)
    requires d.state <= 8
    ensures Codepoints(d, s + t) == Codepoints(d, s) + Codepoints(Run(d, s), t)
    decreases |s|
  {
    hide Step;
    if s == [] {
      assert s + t == t;
    } else {
      assert (s + t)[1..] == s[1..] + t;
      CodepointsConcat(Step(d, s[0]), s[1..], t);
    }
  }

  lemma {:induction false} FinishesOnce(d: Decoder, t: seq<Octet>)
    requires d.state <= 8 && Finishes(d.state, t)
    ensures Codepoints(d, t) == [Run(d, t).codepoint]
    decreases |t|
  {
    FinishesSplits(d.state, t);
    StepByRange(d, t[0]);
    hide Step, Finishes;
    if Next(d.state, t[0]) != ACCEPT {
      FinishesOnce(Step(d, t[0]), t[1..]);
    } else {
      assert t[1..] == [];
    }
  }

  /** One character makes the automaton report one code point, its scalar value. */
  lemma CharReported(d: Decoder, c: seq<Octet>)
    requires d.state == ACCEPT && Char(c)
    ensures Codepoints(d, c) == [CharValue(c)]
  {
    CharAccepts(d, c);
    CharSplits(c);
    StepByRange(d, c[0]);
    hide Step, Finishes, Char, CharValue;
    var d' := Step(d, c[0]);
    if |c| > 1 {
      FinishesOnce(d', c[1..]);
    } else {
      assert c[1..] == [];
    }
  }

  function Values(chars: seq<seq<Octet>>): (vs: seq<nat>)
    requires AllChars(chars)
    ensures |vs| == |chars| && forall i | 0 <= i < |chars| :: vs[i] == CharValue(chars[i])
  {
    if chars == [] then [] else
      assert AllChars(chars[1..]);
      [CharValue(chars[0])] + Values(chars[1..])
  }

  /** A concatenation of characters is accepted, and the scalar values of the characters are reported in order. */
  lemma {:induction false} CharsAccepted(d: Decoder, chars: seq<seq<Octet>>)
    requires d.state == ACCEPT && AllChars(chars)
    ensures Run(d, Flatten(chars)).state == ACCEPT
    ensures Codepoints(d, Flatten(chars)) == Values(chars)
    decreases |chars|
  {
    if chars != [] {
      var c, rest := chars[0], chars[1..];
      CharAccepts(d, c);
      CharReported(d, c);
      RunConcat(d, c, Flatten(rest));
      CodepointsConcat(d, c, Flatten(rest));
      assert AllChars(rest);
      hide Step, Char, CharValue;
      CharsAccepted(Run(d, c), rest);
    }
  }

  /** The length of the first character of an accepted string. */
  lemma FirstChar(d: Decoder, s: seq<Octet>) returns (k: nat)
    requires d.state == ACCEPT && s != [] && Run(d, s).state == ACCEPT
    ensures 1 <= k <= |s| && Char(s[..k])
  {
    StepByRange(d, s[0]);
    hide Step, Char, Finishes;
    var d' := Step(d, s[0]);
    if d'.state == REJECT {
      RejectAbsorbs(d', s[1..]);
    } else if d'.state == ACCEPT {
      k := 1;
    } else {
      k := AcceptFinishes(d', s[1..]);
      assert s[..k + 1][1..] == s[1..][..k];
      k := k + 1;
    }
    CharSplits(s[..k]);
  }

  /** An accepted string splits into characters. */
  lemma {:induction false} AcceptedSplits(d: Decoder, s: seq<Octet>) returns (chars: seq<seq<Octet>>)
    requires d.state == ACCEPT && Run(d, s).state == ACCEPT
    ensures AllChars(chars) && Flatten(chars) == s
    decreases |s|
  {
    hide Step, Char, CharValue;
    if s == [] {
      chars := [];
    } else {
      var k := FirstChar(d, s);
      assert s == s[..k] + s[k..];
      RunConcat(d, s[..k], s[k..]);
      CharAccepts(d, s[..k]);
      var rest := AcceptedSplits(Run(d, s[..k]), s[k..]);
      chars := [s[..k]] + rest;
      assert chars[1..] == rest;
    }
  }

  /** The automaton accepts exactly the strings of the grammar. */
  lemma ValidIsWellFormed(s: seq<Octet>)
    ensures Valid(s) <==> WellFormed(s)
  {
    hide Step, Char, AllChars;
    if Valid(s) {
      var chars := AcceptedSplits(START, s);
    }
    if WellFormed(s) {
      var chars :| AllChars(chars) && Flatten(chars) == s;
      CharsAccepted(START, chars);
    }
  }

  ghost predicate AllScalar(vs: seq<nat>) {
    forall i | 0 <= i < |vs| :: Scalar(vs[i])
  }

  lemma {:induction false} EncodeValues(chars: seq<seq<Octet>>)
    requires AllChars(chars)
    ensures AllScalar(Values(chars)) && EncodeAll(Values(chars)) == Flatten(chars)
    decreases |chars|
  {
    if chars != [] {
      EncodeCharValue(chars[0]);
      assert AllChars(chars[1..]);
      hide Char, CharValue, Encode;
      EncodeValues(chars[1..]);
    }
  }

  /** The code points reported for a valid string are scalar values and encode back to that string. */
  lemma CodepointsEncodeBack(s: seq<Octet>)
    requires Valid(s)
    ensures AllScalar(Codepoints(START, s)) && EncodeAll(Codepoints(START, s)) == s
  {
    hide Step, Char, AllChars, AllScalar;
    var chars := AcceptedSplits(START, s);
    CharsAccepted(START, chars);
    EncodeValues(chars);
  }

  /** Every sequence of scalar values is encoded as a valid string, and is reported back unchanged. */
  lemma {:induction false} EncodedIsReported(d: Decoder, vs: seq<nat>)
    requires d.state == ACCEPT && AllScalar(vs)
    ensures Run(d, EncodeAll(vs)).state == ACCEPT && Codepoints(d, EncodeAll(vs)) == vs
    decreases |vs|
  {
    hide Char, Step, Encode, CharValue, Scalar;
    if vs != [] {
      var c, rest := Encode(vs[0]), vs[1..];
      CharValueEncode(vs[0]);
      CharAccepts(d, c);
      CharReported(d, c);
      assert AllScalar(rest);
      RunConcat(d, c, EncodeAll(rest));
      CodepointsConcat(d, c, EncodeAll(rest));
      EncodedIsReported(Run(d, c), rest);
    }
  }

  // ----- Streaming -----

  /** `validator::decode` on one range: it stops after the first byte that leads to reject. */
  function Feed(d: Decoder, s: seq<Octet>): (r: (Decoder, bool))
    requires d.state <= 8
    ensures r.0.state <= 8
    decreases |s|
  {
    if s == [] then (d, true)
    else
      var d' := Step(d, s[0]);
      if d'.state == REJECT then (d', false) else Feed(d', s[1..])
  }

  /** `s` is rejected at its byte `k`, and not before. */
  ghost predicate RejectedAt(d: Decoder, s: seq<Octet>, k: nat)
    requires d.state <= 8
  {
    k < |s| && (forall i | 0 < i <= k :: Run(d, s[..i]).state != REJECT) && Run(d, s[..k + 1]).state == REJECT
  }

  /** With an error, the state and the code point are those right after the first rejected byte. */
  lemma {:induction false} FeedStops(d: Decoder, s: seq<Octet>)
    requires d.state <= 8 && !Feed(d, s).1
    ensures exists k: nat :: RejectedAt(d, s, k) && Feed(d, s).0 == Run(d, s[..k + 1])
    decreases |s|
  {
    hide Step;
    var d' := Step(d, s[0]);
    assert s[..1][1..] == [] && s[..1][0] == s[0];
    assert Run(d, s[..1]) == Run(d', []) == d';
    if d'.state == REJECT {
      assert RejectedAt(d, s, 0);
    } else {
      FeedStops(d', s[1..]);
      var k: nat :| RejectedAt(d', s[1..], k) && Feed(d', s[1..]).0 == Run(d', s[1..][..k + 1]);
      forall i | 0 <= i <= k + 1 ensures Run(d, s[..i + 1]) == Run(d', s[1..][..i]) {
        assert s[..i + 1][1..] == s[1..][..i] && s[..i + 1][0] == s[0];
      }
      forall i | 0 < i <= k + 1 ensures Run(d, s[..i]).state != REJECT {
        assert Run(d, s[..(i - 1) + 1]) == Run(d', s[1..][..i - 1]);
      }
      assert RejectedAt(d, s, k + 1);
    }
  }

  /** Stopping early does not change the state, and without an error nothing was skipped. */
  lemma {:induction false} FeedIsRun(d: Decoder, s: seq<Octet>)
    requires d.state <= 8
    ensures Feed(d, s).0.state == Run(d, s).state
    ensures Feed(d, s).1 ==> Feed(d, s).0 == Run(d, s)
    ensures Feed(d, s).1 <==> Run(d, s).state != REJECT || s == []
    decreases |s|
  {
    hide Step;
    if s != [] {
      var d' := Step(d, s[0]);
      if d'.state == REJECT {
        RejectAbsorbs(d', s[1..]);
      } else {
        FeedIsRun(d', s[1..]);
      }
    }
  }

  function FeedAll(d: Decoder, chunks: seq<seq<Octet>>): (r: Decoder)
    requires d.state <= 8
    ensures r.state <= 8
    decreases |chunks|
  {
    if chunks == [] then d else FeedAll(Feed(d, chunks[0]).0, chunks[1..])
  }

  lemma {:induction false} RunState(d: Decoder, e: Decoder, s: seq<Octet>)
    requires d.state == e.state <= 8
    ensures Run(d, s).state == Run(e, s).state
    decreases |s|
  {
    if s != [] {
      StepByRange(d, s[0]);
      StepByRange(e, s[0]);
      hide Step;
      RunState(Step(d, s[0]), Step(e, s[0]), s[1..]);
    }
  }

  /** However a string is cut into chunks, the final state is that of one pass over the whole string. */
  lemma {:induction false} FeedAllIsRun(d: Decoder, chunks: seq<seq<Octet>>)
    requires d.state <= 8
    ensures FeedAll(d, chunks).state == Run(d, Flatten(chunks)).state
    decreases |chunks|
  {
    hide Step;
    if chunks != [] {
      var d' := Feed(d, chunks[0]).0;
      FeedIsRun(d, chunks[0]);
      FeedAllIsRun(d', chunks[1..]);
      RunConcat(d, chunks[0], Flatten(chunks[1..]));
      RunState(d', Run(d, chunks[0]), Flatten(chunks[1..]));
    }
  }

  /** `complete()` after any run of `decode` calls says whether all bytes together are well-formed. */
  lemma StreamIsWellFormed(chunks: seq<seq<Octet>>)
    ensures FeedAll(START, chunks).state == ACCEPT <==> WellFormed(Flatten(chunks))
  {
    hide Step, WellFormed;
    FeedAllIsRun(START, chunks);
    ValidIsWellFormed(Flatten(chunks));
  }

  /** Bytes that complete the character begun in state `q`. */
  function Closing(q: nat): seq<Octet> {
    if q == 2 then [0x80] else if q == 3 || q == 5 then [0x80, 0x80] else if q == 4 then [0xA0, 0x80]
    else if q == 6 then [0x90, 0x80, 0x80] else if q == 7 || q == 8 then [0x80, 0x80, 0x80]
    else []
  }

  /**
    * Errors show at the earliest byte: the state is not reject exactly as long as some continuation
    * would make the string well-formed.
    */
  lemma RejectsEarliest(s: seq<Octet>)
    ensures Run(START, s).state != REJECT <==> exists t :: WellFormed(s + t)
  {
    hide WellFormed;
    var d := Run(START, s);
    if d.state != REJECT {
      var t := Closing(d.state);
      if d.state != ACCEPT {
        assert Finishes(d.state, t);
        hide Step, Finishes, Closing;
        FinishesAccepts(d, t);
      }
      RunConcat(START, s, t);
      ValidIsWellFormed(s + t);
      assert WellFormed(s + t);
    } else {
      hide Step, Finishes, Closing;
      forall t ensures !WellFormed(s + t) {
        RunConcat(START, s, t);
        RejectAbsorbs(d, t);
        ValidIsWellFormed(s + t);
      }
    }
  }

  class Validator {
    var state: nat
    var codepoint: nat

    ghost predicate Ready()
      reads this
    {
      state <= 8
    }

    function Decoded(): Decoder
      reads this
    {
      Decoder(state, codepoint)
    }

    constructor ()
      ensures Ready() && Decoded() == START && state == 0 && codepoint == 0
    {
      state := ACCEPT;
      codepoint := 0;
    }

    method Consume(b: Octet) returns (ok: bool)
      requires Ready()
      modifies this
      ensures Ready() && Decoded() == Step(old(Decoded()), b)
      ensures ok <==> state != REJECT
    {
      var d := Step(Decoder(state, codepoint), b);
      state, codepoint := d.state, d.codepoint;
      ok := state != REJECT;
    }

    method Decode(s: seq<Octet>) returns (ok: bool)
      requires Ready()
      modifies this
      ensures Ready() && (Decoded(), ok) == Feed(old(Decoded()), s)
      ensures state == Run(old(Decoded()), s).state
    {
      hide Step;
      FeedIsRun(Decoded(), s);
      for i := 0 to |s|
        invariant Ready()
        invariant Feed(Decoded(), s[i..]) == Feed(old(Decoded()), s)
      {
        var result := Consume(s[i]);
        assert s[i..][1..] == s[i + 1..];
        if !result {
          return false;
        }
      }
      return true;
    }

    method Complete() returns (r: bool)
      ensures r <==> state == ACCEPT
    {
      r := state == ACCEPT;
    }

    method Reset()
      modifies this
      ensures Ready() && Decoded() == START && state == 0 && codepoint == 0
    {
      state := ACCEPT;
      codepoint := 0;
    }
  }

  method Validate(s: seq<Octet>) returns (r: bool)
    ensures r <==> WellFormed(s)
  {
    hide Step, WellFormed;
    ValidIsWellFormed(s);
    var v := new Validator();
    var ok := v.Decode(s);
    if !ok {
      FeedIsRun(START, s);
      return false;
    }
    r := v.Complete();
  }
}
