/**
  * Masking and unmasking of WebSocket payloads (section 5.3 of RFC 6455).
  *
  * `Masked` is the slow byte-wise definition. The word-wise and circular forms are proved to
  * compute it on 4- and 8-byte words, on both byte orders, in place or not, and across any
  * split of a message into chunks.
  */
module Masking {
  import opened Words

  /** The four bytes of a masking key as they lie in memory. */
  type Key = k: seq<Byte> | |k| == 4 witness [0, 0, 0, 0]

  // ----- The slow form -----

  function KeyByte(key: Key, n: nat): Byte {
    key[n % 4]
  }

  lemma SameRemainder(m: nat, n: nat, k: nat)
    requires m % 4 == n % 4
    ensures (k + m) % 4 == (k + n) % 4
  {
    AddFours(k + m % 4, m / 4);
    AddFours(k + n % 4, n / 4);
    assert k + m % 4 + 4 * (m / 4) == k + m && k + n % 4 + 4 * (n / 4) == k + n;
  }

  lemma {:induction false} AddFours(n: nat, d: nat)
    ensures (n + 4 * d) % 4 == n % 4
  {
    if d > 0 { AddFours(n, d - 1); }
  }

  // ----- What masking does to the bits -----

  /** Each bit of `r` is the bit of `a`, inverted exactly where `k` has a one. */
  ghost predicate ByteFlips(a: Byte, k: Byte, r: Byte) {
    && (r & 0x01 != 0 <==> (a & 0x01 != 0) != (k & 0x01 != 0)) && (r & 0x02 != 0 <==> (a & 0x02 != 0) != (k & 0x02 != 0))
    && (r & 0x04 != 0 <==> (a & 0x04 != 0) != (k & 0x04 != 0)) && (r & 0x08 != 0 <==> (a & 0x08 != 0) != (k & 0x08 != 0))
    && (r & 0x10 != 0 <==> (a & 0x10 != 0) != (k & 0x10 != 0)) && (r & 0x20 != 0 <==> (a & 0x20 != 0) != (k & 0x20 != 0))
    && (r & 0x40 != 0 <==> (a & 0x40 != 0) != (k & 0x40 != 0)) && (r & 0x80 != 0 <==> (a & 0x80 != 0) != (k & 0x80 != 0))
  }

  /** Every bit of every byte is inverted exactly where the key, repeated from `offset` on, has a one. */
  ghost predicate FlipsBits(before: seq<Byte>, after: seq<Byte>, key: Key, offset: nat) {
    |after| == |before| && forall i | 0 <= i < |before| :: ByteFlips(before[i], key[(offset + i) % 4], after[i])
  }

  lemma XorFlips(a: Byte, k: Byte)
    ensures ByteFlips(a, k, XorByte(a, k))
  {
  }

  lemma MaskedFlips(s: seq<Byte>, key: Key, offset: nat)
    ensures FlipsBits(s, Masked(s, key, offset), key, offset)
  {
    hide ByteFlips, XorByte, Masked;
    forall i | 0 <= i < |s| ensures ByteFlips(s[i], key[(offset + i) % 4], Masked(s, key, offset)[i]) {
      MaskedAt(s, key, offset, i);
      XorFlips(s[i], key[(offset + i) % 4]);
    }
  }

  /** The key repeats every four bytes. */
  lemma KeyPeriodic(key: Key, m: nat, n: nat, k: nat)
    requires m % 4 == n % 4
    ensures KeyByte(key, m + k) == KeyByte(key, n + k)
  {
    SameRemainder(m, n, k);
  }

  /** Byte `i` is combined with key byte `(offset + i) % 4`. */
  function Masked(s: seq<Byte>, key: Key, offset: nat): (r: seq<Byte>)
    ensures |r| == |s|
  {
    seq(|s|, i requires 0 <= i < |s| => XorByte(s[i], KeyByte(key, offset + i)))
  }

  lemma MaskedAt(s: seq<Byte>, key: Key, offset: nat, i: nat)
    requires i < |s|
    ensures Masked(s, key, offset)[i] == XorByte(s[i], key[(offset + i) % 4])
  {
  }

  /** Byte `i` has been written as in `goal`, after all before it. */
  lemma OneByte(before: seq<Byte>, goal: seq<Byte>, i: nat)
    requires i < |goal| <= |before| && before[..i] == goal[..i]
    ensures var after := before[i := goal[i]];
            after[..i + 1] == goal[..i + 1] && after[|goal|..] == before[|goal|..]
  {
    var after := before[i := goal[i]];
    forall k | 0 <= k < i ensures after[k] == goal[k] {
      assert before[..i][k] == goal[..i][k];
    }
  }

  method ByteMask(input: array<Byte>, output: array<Byte>, length: nat, key: Key, keyOffset: nat)
    requires length <= input.Length && length <= output.Length
    modifies output
    ensures output[..length] == Masked(old(input[..length]), key, keyOffset)
    ensures FlipsBits(old(input[..length]), output[..length], key, keyOffset)
    ensures output[length..] == old(output[length..])
  {
    hide XorByte, Masked, FlipsBits;
    ghost var s := input[..length];
    MaskedFlips(s, key, keyOffset);
    var keyIndex := keyOffset % 4;
    for i := 0 to length
      invariant keyIndex == (keyOffset + i) % 4
      invariant output[..i] == Masked(s, key, keyOffset)[..i]
      invariant forall j | i <= j < length :: input[j] == s[j]
      invariant output[length..] == old(output[length..])
    {
      ghost var before := output[..];
      MaskedAt(s, key, keyOffset, i);
      output[i] := XorByte(input[i], key[keyIndex]);
      assert output[..] == before[i := Masked(s, key, keyOffset)[i]];
      OneByte(before, Masked(s, key, keyOffset), i);
      SameRemainder(keyIndex, keyOffset + i, 1);
      keyIndex := (keyIndex + 1) % 4;
    }
  }

  // ----- Prepared keys -----

  /** The key repeated over a machine word. `Image` of the key bytes is the integer `key.i`. */
  function PrepareKey(p: Platform, key: Key): (w: Word)
    ensures |w| == p.Size()
  {
    var i := Image(p.little, key);
    if p.wide then Or(ShiftLeft(i + Zeros(4), 4), i + Zeros(4)) else i
  }

  /** Circular shift by `offset` bytes, as the little- or big-endian branch does it. */
  function CircShift(p: Platform, w: Word, offset: nat): (r: Word)
    requires |w| == p.Size() && offset < p.Size()
    ensures |r| == p.Size()
  {
    if p.little then Or(ShiftRight(w, offset), ShiftLeft(w, p.Size() - offset))
    else Or(ShiftLeft(w, offset), ShiftRight(w, p.Size() - offset))
  }

  /** The word as a `uint32_t`, seen as four bytes in memory. */
  function Narrowed(p: Platform, w: Word): (key: Key)
    requires |w| == p.Size()
  {
    Image(p.little, w[..4])
  }

  /** Byte `i` of the prepared key in memory is byte `offset + i` of the key: the word is 4-periodic. */
  ghost predicate InPhase(p: Platform, w: Word, key: Key, offset: nat) {
    |w| == p.Size() && forall i | 0 <= i < p.Size() :: Image(p.little, w)[i] == KeyByte(key, offset + i)
  }

  /** The integer key in the low half, combined with itself in the high half. */
  lemma OrZeros(i: Word)
    requires |i| == 4
    ensures Or(ShiftLeft(i + Zeros(4), 4), i + Zeros(4)) == i + i
  {
    hide OrByte;
    forall k | 0 <= k < 4 ensures OrByte(0, i[k]) == i[k] && OrByte(i[k], 0) == i[k] { OrZero(i[k]); }
  }

  lemma PreparedInPhase(p: Platform, key: Key)
    ensures InPhase(p, PrepareKey(p, key), key, 0)
  {
    hide Or, ShiftLeft;
    var i := Image(p.little, key);
    if p.wide {
      OrZeros(i);
      assert PrepareKey(p, key) == i + i;
    }
  }

  /** In memory, a circular shift rotates the bytes of the word, whatever the byte order. */
  lemma CircShiftRotates(p: Platform, w: Word, n: nat)
    requires |w| == p.Size() && n < p.Size()
    ensures Image(p.little, CircShift(p, w, n)) == Image(p.little, w)[n..] + Image(p.little, w)[..n]
  {
    hide CircShift;
    CircShiftDigits(p, w, n);
    if !p.little {
      ReversedRotates(w, n);
    }
  }

  /** The shift moves the digits up or down, depending on the byte order. */
  lemma CircShiftDigits(p: Platform, w: Word, n: nat)
    requires |w| == p.Size() && n < p.Size()
    ensures var m := if p.little then n else p.Size() - n; CircShift(p, w, n) == w[m..] + w[..m]
  {
    hide OrByte;
    var m := if p.little then n else p.Size() - n;
    forall k | 0 <= k < p.Size() ensures CircShift(p, w, n)[k] == (w[m..] + w[..m])[k] {
      OrZero(w[k]);
      OrZero(if k + m < p.Size() then w[k + m] else w[k + m - p.Size()]);
    }
  }

  lemma ReversedRotates(w: Word, n: nat)
    requires n < |w|
    ensures Reversed(w[|w| - n..] + w[..|w| - n]) == Reversed(w)[n..] + Reversed(w)[..n]
  {
  }

  /** The key repeated over `m`, which is rotated by `n` bytes. */
  lemma RotatedInPhase(m: seq<Byte>, key: Key, offset: nat, n: nat)
    requires |m| % 4 == 0 && n < |m| && forall i | 0 <= i < |m| :: m[i] == KeyByte(key, offset + i)
    ensures forall i | 0 <= i < |m| :: (m[n..] + m[..n])[i] == KeyByte(key, offset + n + i)
  {
    hide KeyByte;
    forall i | 0 <= i < |m| ensures (m[n..] + m[..n])[i] == KeyByte(key, offset + n + i) {
      if n + i < |m| {
        assert (m[n..] + m[..n])[i] == m[n + i];
        assert offset + (n + i) == offset + n + i;
      } else {
        var k := n + i - |m|;
        assert (m[n..] + m[..n])[i] == m[k];
        KeyPeriodic(key, |m|, 0, offset + k);
        assert |m| + (offset + k) == offset + n + i && 0 + (offset + k) == offset + k;
      }
    }
  }

  /** Shifting a key that is in phase moves the phase by the number of bytes. */
  lemma ShiftedInPhase(p: Platform, w: Word, key: Key, offset: nat, n: nat)
    requires InPhase(p, w, key, offset) && n < p.Size()
    ensures InPhase(p, CircShift(p, w, n), key, offset + n)
  {
    hide CircShift, Image, KeyByte;
    CircShiftRotates(p, w, n);
    RotatedInPhase(Image(p.little, w), key, offset, n);
  }

  /** The truncation to 32 bits: the word modulo 2^32, and the four bytes of that number in memory. */
  lemma NarrowedValue(p: Platform, w: Word)
    requires |w| == p.Size()
    ensures Value(Image(p.little, Narrowed(p, w))) == Value(w) % Power(4)
  {
    ImageInvolutive(p.little, w[..4]);
    assert w == w[..4] + w[4..];
    ValueConcat(w[..4], w[4..]);
    ValueBound(w[..4]);
    hide Value, Power, Image;
    DivideUnique(Value(w), Power(4), Value(w[4..]), Value(w[..4]));
  }

  /** The low half of an in-phase word holds the key at the same phase, also on big-endian hosts. */
  lemma NarrowedInPhase(p: Platform, w: Word, key: Key, offset: nat, i: nat)
    requires InPhase(p, w, key, offset)
    ensures KeyByte(Narrowed(p, w), i) == KeyByte(key, offset + i)
  {
    hide KeyByte, Narrowed, Image;
    var k, j := i % 4, if p.wide && !p.little then 4 + i % 4 else i % 4;
    KeyByteIs(Narrowed(p, w), i);
    NarrowedByte(p, w, k);
    InPhaseAt(p, w, key, offset, j);
    AddFours(k, 1);
    assert j % 4 == i % 4;
    hide InPhase;
    KeyPeriodic(key, i, j, offset);
    assert i + offset == offset + i && j + offset == offset + j;
  }

  lemma KeyByteIs(key: Key, i: nat)
    ensures KeyByte(key, i) == key[i % 4]
  {
  }

  lemma InPhaseAt(p: Platform, w: Word, key: Key, offset: nat, j: nat)
    requires InPhase(p, w, key, offset) && j < p.Size()
    ensures |w| == p.Size() && Image(p.little, w)[j] == KeyByte(key, offset + j)
  {
  }

  lemma NarrowedByte(p: Platform, w: Word, k: nat)
    requires |w| == p.Size() && k < 4
    ensures Narrowed(p, w)[k] == Image(p.little, w)[if p.wide && !p.little then 4 + k else k]
  {
  }

  /** The phase, counted modulo 4, determines the word. */
  lemma PhaseDetermines(p: Platform, v: Word, w: Word, key: Key, m: nat, n: nat)
    requires InPhase(p, v, key, m) && InPhase(p, w, key, n) && m % 4 == n % 4
    ensures v == w
  {
    forall i | 0 <= i < p.Size() ensures Image(p.little, v)[i] == Image(p.little, w)[i] {
      KeyPeriodic(key, m, n, i);
    }
    assert Image(p.little, v) == Image(p.little, w);
    ImageInvolutive(p.little, v);
    ImageInvolutive(p.little, w);
  }

  // ----- The circular forms -----

  function WordByte(p: Platform, w: Word, n: nat): Byte
    requires |w| == p.Size()
  {
    Image(p.little, w)[n % p.Size()]
  }

  /** The bytes of the word `w` in memory, repeated, combined with `s`. */
  function WordMasked(p: Platform, s: seq<Byte>, w: Word): (r: seq<Byte>)
    requires |w| == p.Size()
    ensures |r| == |s|
  {
    seq(|s|, i requires 0 <= i < |s| => XorByte(s[i], WordByte(p, w, i)))
  }

  lemma WordMaskedFlips(p: Platform, s: seq<Byte>, w: Word)
    requires |w| == p.Size()
    ensures forall i | 0 <= i < |s| :: ByteFlips(s[i], Image(p.little, w)[i % p.Size()], WordMasked(p, s, w)[i])
  {
    hide ByteFlips, XorByte, Image;
    forall i | 0 <= i < |s| ensures ByteFlips(s[i], Image(p.little, w)[i % p.Size()], WordMasked(p, s, w)[i]) {
      XorFlips(s[i], WordByte(p, w, i));
    }
  }

  method StoreWord(little: bool, a: array<Byte>, at: nat, w: Word)
    requires at + |w| <= a.Length
    modifies a
    ensures a[..at] == old(a[..at]) && a[at..at + |w|] == Image(little, w) && a[at + |w|..] == old(a[at + |w|..])
  {
    hide Image;
    for k := 0 to |w|
      invariant a[..at] == old(a[..at]) && a[at..at + k] == Image(little, w)[..k] && a[at + k..] == old(a[at + k..])
    {
      a[at + k] := Image(little, w)[k];
    }
  }

  /** XOR on words is XOR on their memory images. */
  lemma XorImage(little: bool, v: Word, w: Word)
    requires |v| == |w|
    ensures Image(little, Xor(v, w)) == Xor(Image(little, v), Image(little, w))
  {
    hide XorByte;
    if !little {
      forall i | 0 <= i < |v| ensures Reversed(Xor(v, w))[i] == Xor(Reversed(v), Reversed(w))[i] {
        assert Reversed(Xor(v, w))[i] == Xor(v, w)[|v| - 1 - i] == XorByte(v[|v| - 1 - i], w[|v| - 1 - i]);
      }
      assert Reversed(Xor(v, w)) == Xor(Reversed(v), Reversed(w));
    }
  }

  /** The loop that both word-wise forms share: every whole word is combined with the prepared key. */
  method MaskWholeWords(p: Platform, input: array<Byte>, output: array<Byte>, length: nat, w: Word) returns (done: nat)
    requires |w| == p.Size()
    requires length <= input.Length && length <= output.Length
    modifies output
    ensures done == length / p.Size() * p.Size() && done + length % p.Size() == length
    ensures output[..done] == WordMasked(p, old(input[..length]), w)[..done]
    ensures forall i | 0 <= i < done :: ByteFlips(old(input[i]), Image(p.little, w)[i % p.Size()], output[i])
    ensures forall j | done <= j < length :: input[j] == old(input[j])
    ensures output[done..] == old(output[done..])
  {
    hide XorByte, Image, WordMasked, Xor, ByteFlips;
    ghost var s, start := input[..length], output[..];
    WordMaskedFlips(p, s, w);
    var n := length / p.Size();
    done := 0;
    for i := 0 to n
      invariant done == i * p.Size() && done <= length
      invariant output[..done] == WordMasked(p, s, w)[..done]
      invariant forall j | done <= j < length :: input[j] == s[j]
      invariant output[done..] == old(output[done..])
    {
      WordFits(p, length, i);
      ghost var before := output[..];
      MaskWord(p, input, output, i, done, w, s);
      OneMore(start, before, output[..], WordMasked(p, s, w), done, done + p.Size());
      done := done + p.Size();
    }
    forall i | 0 <= i < done ensures ByteFlips(s[i], Image(p.little, w)[i % p.Size()], output[i]) {
      assert output[i] == output[..done][i] == WordMasked(p, s, w)[i];
    }
  }

  /** The stretch from `m` to `n` has been written as in `goal`, after all before it. */
  lemma OneMore(start: seq<Byte>, before: seq<Byte>, after: seq<Byte>, goal: seq<Byte>, m: nat, n: nat)
    requires m <= n <= |goal| && n <= |start| == |before| == |after|
    requires before[..m] == goal[..m] && before[m..] == start[m..]
    requires after[..m] == before[..m] && after[m..n] == goal[m..n] && after[n..] == before[n..]
    ensures after[..n] == goal[..n] && after[n..] == start[n..]
  {
    assert after[..n] == after[..m] + after[m..n] && goal[..n] == goal[..m] + goal[m..n];
    assert before[n..] == before[m..][n - m..] && start[n..] == start[m..][n - m..];
  }

  /** One word: load it from the input, combine it with the key, store it to the output. */
  method MaskWord(p: Platform, input: array<Byte>, output: array<Byte>, ghost i: nat, at: nat, w: Word, ghost s: seq<Byte>)
    requires |w| == p.Size() && at == i * p.Size() && at + p.Size() <= |s|
    requires |s| <= input.Length && |s| <= output.Length && forall j | at <= j < |s| :: input[j] == s[j]
    modifies output
    ensures output[..at] == old(output[..at]) && output[at + p.Size()..] == old(output[at + p.Size()..])
    ensures output[at..at + p.Size()] == WordMasked(p, s, w)[at..at + p.Size()]
  {
    hide XorByte, Image, WordMasked, Xor;
    var word := Image(p.little, input[at..at + p.Size()]);
    assert input[at..at + p.Size()] == s[at..at + p.Size()];
    NextWord(p, s, w, i, at);
    StoreWord(p.little, output, at, Xor(word, w));
  }

  lemma WordFits(p: Platform, length: nat, i: nat)
    requires i < length / p.Size()
    ensures i * p.Size() + p.Size() <= length && (i + 1) * p.Size() == i * p.Size() + p.Size()
  {
    var n := length / p.Size();
    assert n * p.Size() <= length;
    Gap(p.Size(), i, n);
  }

  /** One word of the word-wise loop. */
  lemma NextWord(p: Platform, s: seq<Byte>, w: Word, i: nat, at: nat)
    requires |w| == p.Size() && at == i * p.Size() && at + p.Size() <= |s|
    ensures Image(p.little, Xor(Image(p.little, s[at..at + p.Size()]), w)) == WordMasked(p, s, w)[at..at + p.Size()]
  {
    hide XorByte, Image, WordByte;
    var chunk := s[at..at + p.Size()];
    XorImage(p.little, Image(p.little, chunk), w);
    ImageInvolutive(p.little, chunk);
    forall k | 0 <= k < p.Size() ensures WordMasked(p, s, w)[at + k] == XorByte(chunk[k], Image(p.little, w)[k]) {
      WordIndex(p, w, i, k);
    }
    assert WordMasked(p, s, w)[at..at + p.Size()] == Xor(chunk, Image(p.little, w));
  }

  lemma WordIndex(p: Platform, w: Word, i: nat, k: nat)
    requires |w| == p.Size() && k < p.Size()
    ensures WordByte(p, w, i * p.Size() + k) == Image(p.little, w)[k]
  {
    DivideUnique(i * p.Size() + k, p.Size(), i, k);
  }

  lemma WordMaskedAt(p: Platform, s: seq<Byte>, w: Word, i: nat)
    requires |w| == p.Size() && i < |s|
    ensures WordMasked(p, s, w)[i] == XorByte(s[i], WordByte(p, w, i))
  {
  }

  method WordMaskCirc(p: Platform, input: array<Byte>, output: array<Byte>, length: nat, preparedKey: Word) returns (next: Word)
    requires |preparedKey| == p.Size()
    requires length <= input.Length && length <= output.Length
    modifies output
    ensures (output[..length], next) == Pass(p, Chunk(true, old(input[..length])), preparedKey)
    ensures forall key: Key, offset: nat | InPhase(p, preparedKey, key, offset) ::
              FlipsBits(old(input[..length]), output[..length], key, offset) && InPhase(p, next, key, offset + length)
    ensures forall i | 0 <= i < length :: ByteFlips(old(input[i]), Image(p.little, preparedKey)[i % p.Size()], output[i])
    ensures output[length..] == old(output[length..])
  {
    hide CircShift, WordMasked, InPhase, FlipsBits, ByteFlips, Image;
    ghost var s := input[..length];
    PassFlips(p, Chunk(true, s), preparedKey);
    WordMaskedFlips(p, s, preparedKey);
    var start := MaskWholeWords(p, input, output, length, preparedKey);
    MaskRest(p, input, output, length / p.Size(), start, length, preparedKey, s);
    next := CircShift(p, preparedKey, length - start);
    forall i | 0 <= i < length ensures ByteFlips(s[i], Image(p.little, preparedKey)[i % p.Size()], output[i]) {
      assert output[i] == output[..length][i] == WordMasked(p, s, preparedKey)[i];
    }
  }

  /** The bytes after the last whole word. */
  method MaskRest(p: Platform, input: array<Byte>, output: array<Byte>, ghost words: nat, start: nat, length: nat, w: Word, ghost s: seq<Byte>)
    requires |w| == p.Size() && start == words * p.Size() && start <= length < start + p.Size()
    requires length == |s| <= input.Length && length <= output.Length && forall j | start <= j < length :: input[j] == s[j]
    requires output[..start] == WordMasked(p, s, w)[..start]
    modifies output
    ensures output[..length] == WordMasked(p, s, w) && output[length..] == old(output[length..])
  {
    hide XorByte, Image, WordByte, WordMasked;
    var byteKey := Image(p.little, w);
    for i := 0 to length - start
      invariant output[..start + i] == WordMasked(p, s, w)[..start + i]
      invariant forall j | start + i <= j < length :: input[j] == s[j]
      invariant output[length..] == old(output[length..])
    {
      WordIndex(p, w, words, i);
      WordMaskedAt(p, s, w, start + i);
      ghost var before := output[..];
      output[start + i] := XorByte(input[start + i], byteKey[i]);
      assert output[..] == before[start + i := WordMasked(p, s, w)[start + i]];
      OneByte(before, WordMasked(p, s, w), start + i);
    }
    assert output[..length] == WordMasked(p, s, w);
  }

  method ByteMaskCirc(p: Platform, input: array<Byte>, output: array<Byte>, length: nat, preparedKey: Word) returns (next: Word)
    requires |preparedKey| == p.Size()
    requires length <= input.Length && length <= output.Length
    modifies output
    ensures (output[..length], next) == Pass(p, Chunk(false, old(input[..length])), preparedKey)
    ensures forall key: Key, offset: nat | InPhase(p, preparedKey, key, offset) ::
              FlipsBits(old(input[..length]), output[..length], key, offset) && InPhase(p, next, key, offset + length)
    ensures FlipsBits(old(input[..length]), output[..length], Narrowed(p, preparedKey), 0)
    ensures output[length..] == old(output[length..])
  {
    hide XorByte, Image, CircShift, Masked, InPhase, FlipsBits;
    ghost var s := input[..length];
    PassFlips(p, Chunk(false, s), preparedKey);
    MaskedFlips(s, Narrowed(p, preparedKey), 0);
    var key := Narrowed(p, preparedKey);
    for i := 0 to length
      invariant output[..i] == Masked(s, key, 0)[..i]
      invariant forall j | i <= j < length :: input[j] == s[j]
      invariant output[length..] == old(output[length..])
    {
      ghost var before := output[..];
      MaskedAt(s, key, 0, i);
      output[i] := XorByte(input[i], key[i % 4]);
      assert output[..] == before[i := Masked(s, key, 0)[i]];
      OneByte(before, Masked(s, key, 0), i);
    }
    assert output[..length] == Masked(s, key, 0);
    next := CircShift(p, preparedKey, length % 4);
  }

  method WordMaskExact(p: Platform, input: array<Byte>, output: array<Byte>, length: nat, key: Key)
    requires length <= input.Length && length <= output.Length
    modifies output
    ensures output[..length] == Masked(old(input[..length]), key, 0)
    ensures FlipsBits(old(input[..length]), output[..length], key, 0)
    ensures output[length..] == old(output[length..])
  {
    hide XorByte, PrepareKey, Masked, WordMasked, FlipsBits;
    ghost var s := input[..length];
    MaskedFlips(s, key, 0);
    var preparedKey := PrepareKey(p, key);
    PreparedInPhase(p, key);
    WordPassInPhase(p, s, preparedKey, key, 0);
    var start := MaskWholeWords(p, input, output, length, preparedKey);
    for i := start to length
      invariant output[..i] == Masked(s, key, 0)[..i]
      invariant forall j | i <= j < length :: input[j] == s[j]
      invariant output[length..] == old(output[length..])
    {
      ghost var before := output[..];
      MaskedAt(s, key, 0, i);
      output[i] := XorByte(input[i], key[i % 4]);
      assert output[..] == before[i := Masked(s, key, 0)[i]];
      OneByte(before, Masked(s, key, 0), i);
    }
  }

  lemma WordPeriodic(p: Platform, n: nat)
    ensures n % p.Size() < p.Size() && (n % p.Size()) % 4 == n % 4
  {
    if p.wide {
      AddFours(n % 8, 2 * (n / 8));
      assert n % 8 + 4 * (2 * (n / 8)) == n;
    }
  }

  /** With a key in phase, a word-wise pass is the byte-wise mask at that phase. */
  lemma WordPassInPhase(p: Platform, s: seq<Byte>, w: Word, key: Key, offset: nat)
    requires InPhase(p, w, key, offset)
    ensures WordMasked(p, s, w) == Masked(s, key, offset)
  {
    hide XorByte, Image, KeyByte;
    forall i | 0 <= i < |s| ensures WordMasked(p, s, w)[i] == Masked(s, key, offset)[i] {
      WordPeriodic(p, i);
      KeyPeriodic(key, i % p.Size(), i, offset);
      assert WordByte(p, w, i) == Image(p.little, w)[i % p.Size()] == KeyByte(key, offset + i % p.Size());
    }
  }

  /** With a key in phase, a byte-wise circular pass is the byte-wise mask at that phase. */
  lemma BytePassInPhase(p: Platform, s: seq<Byte>, w: Word, key: Key, offset: nat)
    requires InPhase(p, w, key, offset)
    ensures Masked(s, Narrowed(p, w), 0) == Masked(s, key, offset)
  {
    hide XorByte, Image, Narrowed;
    forall i | 0 <= i < |s| ensures Masked(s, Narrowed(p, w), 0)[i] == Masked(s, key, offset)[i] {
      NarrowedInPhase(p, w, key, offset, i);
    }
  }

  // ----- Streaming -----

  /** One call of a circular mask function: which of the two, and on which bytes. */
  datatype Chunk = Chunk(wordwise: bool, data: seq<Byte>)

  function Message(chunks: seq<Chunk>): seq<Byte> {
    if chunks == [] then [] else Message(chunks[..|chunks| - 1]) + chunks[|chunks| - 1].data
  }

  /** The bytes written and the key returned by one call of `WordMaskCirc` or `ByteMaskCirc`. */
  function Pass(p: Platform, chunk: Chunk, w: Word): (r: (seq<Byte>, Word))
    requires |w| == p.Size()
    ensures |r.1| == p.Size()
  {
    if chunk.wordwise then
      (WordMasked(p, chunk.data, w), CircShift(p, w, |chunk.data| % p.Size()))
    else
      (Masked(chunk.data, Narrowed(p, w), 0), CircShift(p, w, |chunk.data| % 4))
  }

  /** All bytes written by a run of calls, each fed the key that the previous one returned. */
  function Stream(p: Platform, chunks: seq<Chunk>, w: Word): (r: (seq<Byte>, Word))
    requires |w| == p.Size()
    ensures |r.1| == p.Size()
  {
    if chunks == [] then ([], w)
    else
      var (out, k) := Stream(p, chunks[..|chunks| - 1], w);
      var (last, k') := Pass(p, chunks[|chunks| - 1], k);
      (out + last, k')
  }

  lemma MaskedConcat(s: seq<Byte>, t: seq<Byte>, key: Key, offset: nat)
    ensures Masked(s + t, key, offset) == Masked(s, key, offset) + Masked(t, key, offset + |s|)
  {
    hide XorByte;
  }

  /** One call advances the phase by the bytes it consumed. */
  lemma PassInPhase(p: Platform, chunk: Chunk, w: Word, key: Key, offset: nat)
    requires InPhase(p, w, key, offset)
    ensures Pass(p, chunk, w).0 == Masked(chunk.data, key, offset)
    ensures InPhase(p, Pass(p, chunk, w).1, key, offset + |chunk.data|)
  {
    hide XorByte, Image, Narrowed, CircShift, WordMasked, Masked, KeyByte;
    WordPeriodic(p, |chunk.data|);
    var n := if chunk.wordwise then |chunk.data| % p.Size() else |chunk.data| % 4;
    if chunk.wordwise {
      WordPassInPhase(p, chunk.data, w, key, offset);
    } else {
      BytePassInPhase(p, chunk.data, w, key, offset);
    }
    ShiftedInPhase(p, w, key, offset, n);
    SameRemainder(n, |chunk.data|, offset);
    SamePhase(p, CircShift(p, w, n), key, offset + n, offset + |chunk.data|);
  }

  /** One call inverts the bits that the key says, wherever in its period the key is. */
  lemma PassFlips(p: Platform, chunk: Chunk, w: Word)
    requires |w| == p.Size()
    ensures forall key: Key, offset: nat | InPhase(p, w, key, offset) ::
              FlipsBits(chunk.data, Pass(p, chunk, w).0, key, offset) && InPhase(p, Pass(p, chunk, w).1, key, offset + |chunk.data|)
  {
    hide InPhase, FlipsBits, Pass, Masked;
    forall key: Key, offset: nat | InPhase(p, w, key, offset)
      ensures FlipsBits(chunk.data, Pass(p, chunk, w).0, key, offset) && InPhase(p, Pass(p, chunk, w).1, key, offset + |chunk.data|)
    {
      PassInPhase(p, chunk, w, key, offset);
      MaskedFlips(chunk.data, key, offset);
    }
  }

  lemma SamePhase(p: Platform, w: Word, key: Key, m: nat, n: nat)
    requires InPhase(p, w, key, m) && m % 4 == n % 4
    ensures InPhase(p, w, key, n)
  {
    hide KeyByte, Image;
    forall i | 0 <= i < p.Size() ensures Image(p.little, w)[i] == KeyByte(key, n + i) {
      KeyPeriodic(key, m, n, i);
    }
  }

  /**
    * For every message, key, platform and split into chunks, the two circular forms freely
    * mixed write exactly what one byte-wise pass over the whole message writes, and the key
    * they hand on is the prepared key rotated by the bytes consumed so far, modulo 4.
    */
  lemma {:induction false} StreamMasksMessage(p: Platform, chunks: seq<Chunk>, key: Key)
    ensures var (out, k) := Stream(p, chunks, PrepareKey(p, key));
            && out == Masked(Message(chunks), key, 0)
            && InPhase(p, k, key, |Message(chunks)|)
            && k == CircShift(p, PrepareKey(p, key), |Message(chunks)| % 4)
  {
    hide XorByte, Image, Narrowed, CircShift, WordMasked, Masked, InPhase, Pass, PrepareKey;
    var w := PrepareKey(p, key);
    PreparedInPhase(p, key);
    if chunks == [] {
      assert Masked([], key, 0) == [];
    } else {
      var init, last := chunks[..|chunks| - 1], chunks[|chunks| - 1];
      StreamMasksMessage(p, init, key);
      PassInPhase(p, last, Stream(p, init, w).1, key, |Message(init)|);
      MaskedConcat(Message(init), last.data, key, 0);
    }
    RotatedKey(p, w, Stream(p, chunks, w).1, key, |Message(chunks)|);
  }

  /** The same, in bits: chunk by chunk, every bit of the message is inverted exactly where the repeated key has a one. */
  lemma StreamFlipsBits(p: Platform, chunks: seq<Chunk>, key: Key)
    ensures FlipsBits(Message(chunks), Stream(p, chunks, PrepareKey(p, key)).0, key, 0)
  {
    hide FlipsBits, Stream, PrepareKey, InPhase, Message, CircShift, Masked;
    StreamMasksMessage(p, chunks, key);
    MaskedFlips(Message(chunks), key, 0);
  }

  /** The masked text message "Hello" of section 5.7 of RFC 6455, with either form and on every platform. */
  lemma HelloMasked(p: Platform, wordwise: bool)
    ensures Stream(p, [Chunk(wordwise, [0x48, 0x65, 0x6C, 0x6C, 0x6F])], PrepareKey(p, [0x37, 0xFA, 0x21, 0x3D])).0
            == [0x7F, 0x9F, 0x4D, 0x51, 0x58]
  {
    hide Stream, PrepareKey, InPhase, CircShift;
    var hello: seq<Byte>, key: Key := [0x48, 0x65, 0x6C, 0x6C, 0x6F], [0x37, 0xFA, 0x21, 0x3D];
    StreamMasksMessage(p, [Chunk(wordwise, hello)], key);
    assert [Chunk(wordwise, hello)][..0] == [];
    assert Message([Chunk(wordwise, hello)]) == [] + hello == hello;
    hide Message, Masked;
    FiveMasked(hello, key);
    HelloBytes();
  }

  lemma FiveMasked(s: seq<Byte>, key: Key)
    requires |s| == 5
    ensures Masked(s, key, 0) == [XorByte(s[0], key[0]), XorByte(s[1], key[1]), XorByte(s[2], key[2]), XorByte(s[3], key[3]), XorByte(s[4], key[0])]
  {
    hide XorByte;
  }

  lemma HelloBytes()
    ensures XorByte(0x48, 0x37) == 0x7F && XorByte(0x65, 0xFA) == 0x9F && XorByte(0x6C, 0x21) == 0x4D
    ensures XorByte(0x6C, 0x3D) == 0x51 && XorByte(0x6F, 0x37) == 0x58
  {
  }

  /** A key in phase `n` is the prepared key rotated by `n` modulo 4. */
  lemma RotatedKey(p: Platform, w: Word, k: Word, key: Key, n: nat)
    requires InPhase(p, w, key, 0) && InPhase(p, k, key, n)
    ensures k == CircShift(p, w, n % 4)
  {
    hide Image, CircShift, KeyByte;
    ShiftedInPhase(p, w, key, 0, n % 4);
    PhaseDetermines(p, k, CircShift(p, w, n % 4), key, n, n % 4);
  }

  /** Masking is its own inverse. */
  lemma MaskedTwice(s: seq<Byte>, key: Key, offset: nat)
    ensures Masked(Masked(s, key, offset), key, offset) == s
  {
    hide XorByte;
    forall i | 0 <= i < |s| ensures Masked(Masked(s, key, offset), key, offset)[i] == s[i] {
      XorTwice(s[i], KeyByte(key, offset + i));
    }
  }

  /** So are the fast forms: masking a buffer in place word by word, and then byte by byte, restores it. */
  method MaskAndUnmask(p: Platform, a: array<Byte>, length: nat, key: Key)
    requires length <= a.Length
    modifies a
    ensures a[..] == old(a[..])
  {
    hide Masked;
    WordMaskExact(p, a, a, length, key);
    ByteMask(a, a, length, key, 0);
    MaskedTwice(old(a[..length]), key, 0);
    assert a[..] == a[..length] + a[length..] && old(a[..]) == old(a[..length]) + old(a[length..]);
  }

  /** Unmasking what was masked in one pass, in chunks of any kind and size, restores it. */
  lemma StreamUnmasks(p: Platform, chunks: seq<Chunk>, s: seq<Byte>, key: Key)
    requires Message(chunks) == Masked(s, key, 0)
    ensures Stream(p, chunks, PrepareKey(p, key)).0 == s
  {
    hide Masked, Stream, PrepareKey, InPhase, Message, CircShift;
    StreamMasksMessage(p, chunks, key);
    MaskedTwice(s, key, 0);
  }
}
