/**
Base32 with a shift register: lower case, unpadded, each byte string spelt in one way
(section 6 of RFC 4648; no other spelling is accepted, as section 3.5 asks).

The register is a 32-bit word when encoding and is masked to twelve bits when decoding; only its
low `bits` bits are ever meant.
*/
module Base32 {
  import opened Protocol

  const ALPHABET := "abcdefghijklmnopqrstuvwxyz234567"
  const WORD := 0x1_0000_0000

  type Byte = n: nat | n < 256

  // ---------------------------------------------------------------- powers of two and remainders

  function Pow2(n: nat): (p: nat)
    ensures p > 0
  {
    if n == 0 then 1 else 2 * Pow2(n - 1)
  }

  lemma {:induction false} Pow2Add(m: nat, n: nat)
    ensures Pow2(m + n) == Pow2(m) * Pow2(n)
  {
    if m > 0 {
      Pow2Add(m - 1, n);
      assert Pow2(m + n) == 2 * (Pow2(m - 1) * Pow2(n));
    }
  }

  lemma Split(x: nat, p: nat, r: nat, q: nat)
    requires p > 0 && x == p * q + r && r < p
    ensures x % p == r && x / p == q
  {
    var d := x / p - q;
    assert x == p * (x / p) + x % p;
    assert p * d == r - x % p;
    assert d > 0 ==> p * d >= p;
    assert d < 0 ==> p * d + p <= 0;
  }

  lemma Spread(p: nat, base: nat, a: nat, b: nat)
    ensures p * (base * a + b) == (p * base) * a + b * p
  {
    calc {
      p * (base * a + b);
      p * (base * a) + p * b;
      (p * base) * a + b * p;
    }
  }

  lemma Bounded(b: nat, base: nat, p: nat, r: nat)
    requires b < base && r < p
    ensures b * p + r < base * p && base * p == p * base
  {
    assert (b + 1) * p <= base * p;
  }

  /** A remainder of a remainder by a multiple is the remainder. */
  lemma Nested(x: nat, p: nat, m: nat, all: nat)
    requires p > 0 && m > 0 && all == p * m
    ensures all > 0 && (x % all) % p == x % p
  {
    assert all > 0;
    NestedAt(x, p, m, all, x / all, x % all);
  }

  lemma NestedAt(x: nat, p: nat, m: nat, all: nat, q: nat, r: nat)
    requires p > 0 && all == p * m && x == all * q + r
    ensures r % p == x % p
  {
    var s, t := r / p, r % p;
    calc {
      x;
      (p * m) * q + (p * s + t);
      p * (m * q) + p * s + t;
      p * (m * q + s) + t;
    }
    Split(x, p, t, m * q + s);
  }

  /** Digits beyond the low ones shift in from below. */
  lemma Shifted(v: nat, p: nat, base: nat, d: nat, all: nat)
    requires p > 0 && base > 0 && d < base && all == p * base
    ensures all > 0 && (v * base + d) % all == (v % p) * base + d
  {
    var q, r := v / p, v % p;
    assert v == p * q + r;
    Bounded(r, p, base, d);
    calc {
      v * base + d;
      (p * q + r) * base + d;
      (p * q) * base + r * base + d;
      (p * base) * q + (r * base + d);
    }
    Split(v * base + d, all, r * base + d, q);
  }

  lemma CutAt(v: nat, p: nat, base: nat, all: nat, q: nat, r: nat, a: nat, b: nat)
    requires p > 0 && base > 0 && all == p * base && v == p * q + r && r < p && q == base * a + b && b < base
    ensures all > 0 && v % all == b * p + r
  {
    Spread(p, base, a, b);
    Bounded(b, base, p, r);
    assert v == all * a + (b * p + r);
    Split(v, all, b * p + r, a);
  }

  /** The low bits are the digit above and the bits below it. */
  lemma Cut(v: nat, p: nat, base: nat, all: nat)
    requires p > 0 && base > 0 && all == p * base
    ensures all > 0 && v % all == ((v / p) % base) * p + v % p
  {
    CutAt(v, p, base, all, v / p, v % p, (v / p) / base, (v / p) % base);
  }

  // ---------------------------------------------------------------- what a text spells

  /** The value of a character of the alphabet, from its place; 32 for any other. */
  function DigitOf(c: char): nat {
    if 'a' <= c <= 'z' then (c as int) - ('a' as int)
    else if '2' <= c <= '7' then 26 + (c as int) - ('2' as int)
    else 32
  }

  lemma AlphabetIndex(c: char, d: nat)
    requires d < 32
    ensures ALPHABET[d] == c <==> DigitOf(c) == d
  {
  }

  function Letter(d: nat): (c: char)
    requires d < 32
    ensures DigitOf(c) == d
  {
    AlphabetIndex(ALPHABET[d], d);
    ALPHABET[d]
  }

  /** A text as a number in base 32, and bytes as a number in base 256. */
  function TextNumber(text: string): nat {
    if text == [] then 0 else TextNumber(text[..|text| - 1]) * 32 + DigitOf(text[|text| - 1])
  }

  function ByteNumber(bytes: seq<Byte>): nat {
    if bytes == [] then 0 else ByteNumber(bytes[..|bytes| - 1]) * 256 + bytes[|bytes| - 1]
  }

  lemma TextSnoc(text: string, c: char)
    ensures TextNumber(text + [c]) == TextNumber(text) * 32 + DigitOf(c)
  {
    assert (text + [c])[..|text|] == text;
  }

  lemma ByteSnoc(bytes: seq<Byte>, b: Byte)
    ensures ByteNumber(bytes + [b]) == ByteNumber(bytes) * 256 + b
  {
    assert (bytes + [b])[..|bytes|] == bytes;
  }

  ghost predicate AllLetters(text: string) {
    forall k | 0 <= k < |text| :: DigitOf(text[k]) < 32
  }

  lemma {:induction false} TextUnique(t: string, u: string)
    requires |t| == |u| && AllLetters(t) && AllLetters(u) && TextNumber(t) == TextNumber(u)
    ensures t == u
  {
    if t != [] {
      var p, q, c, d := TextNumber(t[..|t| - 1]), TextNumber(u[..|u| - 1]), t[|t| - 1], u[|u| - 1];
      Split(p * 32 + DigitOf(c), 32, DigitOf(c), p);
      Split(q * 32 + DigitOf(d), 32, DigitOf(d), q);
      AlphabetIndex(c, DigitOf(c));
      AlphabetIndex(d, DigitOf(c));
      TextUnique(t[..|t| - 1], u[..|u| - 1]);
      assert t == t[..|t| - 1] + [c] && u == u[..|u| - 1] + [d];
    }
  }

  lemma {:induction false} BytesUnique(a: seq<Byte>, b: seq<Byte>)
    requires |a| == |b| && ByteNumber(a) == ByteNumber(b)
    ensures a == b
  {
    if a != [] {
      var p, q, x, y := ByteNumber(a[..|a| - 1]), ByteNumber(b[..|b| - 1]), a[|a| - 1], b[|b| - 1];
      Split(p * 256 + x, 256, x, p);
      Split(q * 256 + y, 256, y, q);
      BytesUnique(a[..|a| - 1], b[..|b| - 1]);
      assert a == a[..|a| - 1] + [x] && b == b[..|b| - 1] + [y];
    }
  }

  function TextLength(bytes: nat): nat {
    (bytes * 8 + 4) / 5
  }

  /** The bits of the bytes, five to a character, with zeros after the last. */
  ghost predicate Spells(text: string, bytes: seq<Byte>) {
    && |text| == TextLength(|bytes|) && AllLetters(text)
    && TextNumber(text) == ByteNumber(bytes) * Pow2(5 * |text| - 8 * |bytes|)
  }

  /** A byte string has one spelling, and a spelling is of one byte string. */
  lemma OneSpelling(t: string, b: seq<Byte>, u: string, c: seq<Byte>)
    requires Spells(t, b) && Spells(u, c) && |b| == |c|
    ensures t == u <==> b == c
  {
    if b == c { TextUnique(t, u); }
    if t == u {
      Cancel(ByteNumber(b), ByteNumber(c), Pow2(5 * |t| - 8 * |b|));
      BytesUnique(b, c);
    }
  }

  lemma Cancel(m: nat, n: nat, p: nat)
    requires p > 0 && m * p == n * p
    ensures m == n
  {
    assert m < n ==> (n - m) * p >= p;
    assert n < m ==> (m - n) * p >= p;
  }

  // ---------------------------------------------------------------- the register

  /**
   * A number read so far and a number written so far, `bits` bits apart, the low bits of the
   * register between them.
   */
  ghost predicate Between(read: nat, written: nat, value: nat, bits: nat) {
    read == written * Pow2(bits) + value % Pow2(bits)
  }

  lemma ReadsAt(read: nat, written: nat, value: nat, p: nat, base: nat, all: nat, rest: nat, room: nat, d: nat)
    requires p > 0 && base > 0 && rest > 0 && all == p * base && room == all * rest && d < base
    requires read == written * p + value % p
    ensures room > 0 && all > 0
    ensures read * base + d == written * all + ((value * base + d) % room) % all
  {
    Shifted(value, p, base, d, all);
    Nested(value * base + d, all, rest, room);
    Carry(written, p, value % p, base, d);
  }

  lemma Parts(bits: nat, k: nat, room: nat)
    requires bits + k <= room
    ensures Pow2(bits + k) == Pow2(bits) * Pow2(k) && Pow2(room) == Pow2(bits + k) * Pow2(room - bits - k)
  {
    hide Pow2;
    Pow2Add(bits, k);
    Pow2Add(bits + k, room - bits - k);
  }

  lemma BetweenAt(read: nat, written: nat, value: nat, bits: nat, p: nat)
    requires p == Pow2(bits)
    ensures Between(read, written, value, bits) <==> read == written * p + value % p
  {
    hide Pow2;
  }

  /** Reading a digit of the base 2^k; the register keeps at least the low bits that are meant. */
  lemma Reads(read: nat, written: nat, value: nat, bits: nat, k: nat, d: nat, room: nat)
    requires Between(read, written, value, bits) && d < Pow2(k) && bits + k <= room
    ensures Between(read * Pow2(k) + d, written, (value * Pow2(k) + d) % Pow2(room), bits + k)
  {
    hide Pow2, Between;
    Parts(bits, k, room);
    var p, base, all, rest, whole := Pow2(bits), Pow2(k), Pow2(bits + k), Pow2(room - bits - k), Pow2(room);
    BetweenAt(read, written, value, bits, p);
    ReadsAt(read, written, value, p, base, all, rest, whole, d);
    BetweenAt(read * base + d, written, (value * base + d) % whole, bits + k, all);
  }

  lemma Carry(n: nat, p: nat, low: nat, base: nat, d: nat)
    ensures (n * p + low) * base + d == n * (p * base) + (low * base + d)
  {
    calc {
      (n * p + low) * base + d;
      (n * p) * base + low * base + d;
      n * (p * base) + (low * base + d);
    }
  }

  /** Writing the top digit of the register, of the base 2^k. */
  lemma Writes(read: nat, written: nat, value: nat, bits: nat, k: nat)
    requires Between(read, written, value, bits) && bits >= k
    ensures Between(read, written * Pow2(k) + (value / Pow2(bits - k)) % Pow2(k), value, bits - k)
  {
    var p, base := Pow2(bits - k), Pow2(k);
    Pow2Add(bits - k, k);
    Cut(value, p, base, Pow2(bits));
    Carry(written, base, (value / p) % base, p, value % p);
    Commutes(p, base);
  }

  lemma Commutes(p: nat, q: nat)
    ensures p * q == q * p
  {
  }

  lemma Powers()
    ensures Pow2(0) == 1 && Pow2(5) == 32 && Pow2(8) == 256 && Pow2(12) == 4096 && Pow2(32) == WORD
  {
    assert Pow2(5) == 32;
    assert Pow2(8) == 256;
    Pow2Add(4, 8);
    assert Pow2(4) == 16;
    Pow2Add(8, 8);
    Pow2Add(16, 16);
  }

  // ---------------------------------------------------------------- encoding

  function ShiftIn(value: nat, byte: Byte): nat {
    (value * 256 + byte) % WORD
  }

  /** The five bits at the top of the low `bits` of the register. */
  function HighDigit(value: nat, bits: nat): (d: nat)
    requires bits >= 5
    ensures d < 32
  {
    (value / Pow2(bits - 5)) % 32
  }

  /** The leftover bits with zeros after them. */
  function LastDigit(value: nat, bits: nat): (d: nat)
    requires bits <= 5
    ensures d < 32
  {
    (value * Pow2(5 - bits)) % 32
  }

  /** What has been encoded of some bytes: the text so far and the bits left in the register. */
  ghost predicate Encoded(text: string, bytes: seq<Byte>, value: nat, bits: nat) {
    && 5 * |text| + bits == 8 * |bytes| && AllLetters(text)
    && Between(ByteNumber(bytes), TextNumber(text), value, bits)
  }

  lemma ShiftedIn(value: nat, b: Byte)
    ensures ShiftIn(value, b) == (value * Pow2(8) + b) % Pow2(32)
  {
    hide Pow2;
    Powers();
  }

  lemma EncodeByte(text: string, bytes: seq<Byte>, value: nat, bits: nat, b: Byte)
    requires Encoded(text, bytes, value, bits) && bits < 5
    ensures Encoded(text, bytes + [b], ShiftIn(value, b), bits + 8)
  {
    hide Pow2, ShiftIn, Between;
    Powers();
    ByteSnoc(bytes, b);
    ShiftedIn(value, b);
    Reads(ByteNumber(bytes), TextNumber(text), value, bits, 8, b, 32);
  }

  lemma EncodeDigit(text: string, bytes: seq<Byte>, value: nat, bits: nat)
    requires Encoded(text, bytes, value, bits) && bits >= 5
    ensures Encoded(text + [Letter(HighDigit(value, bits))], bytes, value, bits - 5)
  {
    hide Letter;
    Powers();
    TextSnoc(text, Letter(HighDigit(value, bits)));
    Writes(ByteNumber(bytes), TextNumber(text), value, bits, 5);
  }

  /** The last character carries the leftover bits and zeros. */
  lemma EncodeRest(text: string, bytes: seq<Byte>, value: nat, bits: nat)
    requires Encoded(text, bytes, value, bits) && bits < 5
    ensures bits == 0 ==> Spells(text, bytes)
    ensures bits > 0 ==> Spells(text + [Letter(LastDigit(value, bits))], bytes)
  {
    hide Letter;
    Powers();
    if bits > 0 {
      var p, q := Pow2(bits), Pow2(5 - bits);
      Pow2Add(bits, 5 - bits);
      Shifted(value, p, q, 0, 32);
      TextSnoc(text, Letter(LastDigit(value, bits)));
      Carry(TextNumber(text), p, value % p, q, 0);
      assert 5 * (|text| + 1) - 8 * |bytes| == 5 - bits;
    } else {
      assert 5 * |text| - 8 * |bytes| == 0;
    }
  }

  /** Nothing has been read or written. */
  lemma Begins()
    ensures Encoded("", [], 0, 0) && Decoded([], "", 0, 0)
  {
    Powers();
  }

  /** Writes characters while the register holds five bits or more. */
  method Drain(text: string, value: nat, count: nat, ghost bytes: seq<Byte>) returns (out: string, bits: nat)
    requires Encoded(text, bytes, value, count)
    ensures Encoded(out, bytes, value, bits) && bits < 5
  {
    hide Encoded, HighDigit, Letter;
    out, bits := text, count;
    while bits >= 5
      invariant Encoded(out, bytes, value, bits)
    {
      EncodeDigit(out, bytes, value, bits);
      out := out + [Letter(HighDigit(value, bits))];
      bits := bits - 5;
    }
  }

  lemma EncodeNext(text: string, bytes: seq<Byte>, i: nat, value: nat, bits: nat)
    requires i < |bytes| && Encoded(text, bytes[..i], value, bits) && bits < 5
    ensures Encoded(text, bytes[..i + 1], ShiftIn(value, bytes[i]), bits + 8)
  {
    hide Encoded, ShiftIn;
    EncodeByte(text, bytes[..i], value, bits, bytes[i]);
    assert bytes[..i] + [bytes[i]] == bytes[..i + 1];
  }

  method EncodeAll(bytes: seq<Byte>) returns (text: string, value: nat, bits: nat)
    ensures Encoded(text, bytes[..|bytes|], value, bits) && bits < 5
  {
    hide Encoded, ShiftIn, Pow2, ByteNumber, TextNumber;
    text, bits, value := "", 0, 0;
    Begins();
    assert bytes[..0] == [];
    for i := 0 to |bytes|
      invariant bits < 5 && Encoded(text, bytes[..i], value, bits)
    {
      EncodeNext(text, bytes, i, value, bits);
      value := ShiftIn(value, bytes[i]);
      text, bits := Drain(text, value, bits + 8, bytes[..i + 1]);
    }
  }

  method Encode(bytes: seq<Byte>) returns (text: string)
    ensures Spells(text, bytes)
  {
    var value, bits;
    text, value, bits := EncodeAll(bytes);
    assert bytes[..|bytes|] == bytes;
    EncodeRest(text, bytes, value, bits);
    if bits > 0 {
      text := text + [Letter(LastDigit(value, bits))];
    }
  }

  // ---------------------------------------------------------------- decoding

  function HighByte(value: nat, bits: nat): (b: Byte)
    requires bits >= 8
  {
    (value / Pow2(bits - 8)) % 256
  }

  ghost predicate Decoded(bytes: seq<Byte>, text: string, value: nat, bits: nat) {
    && 5 * |text| == 8 * |bytes| + bits && AllLetters(text)
    && Between(TextNumber(text), ByteNumber(bytes), value, bits)
  }

  lemma DecodeDigit(bytes: seq<Byte>, text: string, value: nat, bits: nat, c: char)
    requires Decoded(bytes, text, value, bits) && bits < 8 && DigitOf(c) < 32
    ensures Decoded(bytes, text + [c], (value * 32 + DigitOf(c)) % 4096, bits + 5)
  {
    hide Pow2, Between;
    Powers();
    TextSnoc(text, c);
    Reads(TextNumber(text), ByteNumber(bytes), value, bits, 5, DigitOf(c), 12);
  }

  lemma DecodeByte(bytes: seq<Byte>, text: string, value: nat, bits: nat)
    requires Decoded(bytes, text, value, bits) && bits >= 8
    ensures Decoded(bytes + [HighByte(value, bits)], text, value, bits - 8)
  {
    Powers();
    ByteSnoc(bytes, HighByte(value, bits));
    Writes(TextNumber(text), ByteNumber(bytes), value, bits, 8);
  }

  /** When all is read the leftover bits decide: zero, and the text spells the bytes; or nothing. */
  lemma DecodeRest(bytes: seq<Byte>, text: string, value: nat, bits: nat, length: nat)
    requires Decoded(bytes, text, value, bits) && bits < 8 && |text| == TextLength(length)
    ensures |bytes| == length
    ensures value % Pow2(bits) == 0 ==> Spells(text, bytes)
    ensures value % Pow2(bits) != 0 ==> forall other: seq<Byte> | |other| == length :: !Spells(text, other)
  {
    assert |bytes| == length && 5 * |text| - 8 * |bytes| == bits;
    forall other: seq<Byte> | |other| == length && Spells(text, other) ensures value % Pow2(bits) == 0 {
      var p, m, n := Pow2(bits), ByteNumber(bytes), ByteNumber(other);
      Commutes(n, p);
      Commutes(m, p);
      Split(TextNumber(text), p, 0, n);
      Split(TextNumber(text), p, value % p, m);
    }
  }

  /** The exact inverse for a given length; any other spelling is refused. */
  method Decode(text: string, length: nat) returns (result: Option<seq<Byte>>)
    ensures result.Some? ==> |result.value| == length && Spells(text, result.value)
    ensures result.None? ==> forall bytes: seq<Byte> | |bytes| == length :: !Spells(text, bytes)
  {
    if |text| != TextLength(length) {
      return None;
    }
    var out, value, bits, ok := DecodeAll(text);
    if !ok {
      return None;
    }
    DecodeRest(out, text, value, bits, length);
    if value % Pow2(bits) != 0 {
      return None;
    }
    return Some(out);
  }

  method DecodeAll(text: string) returns (out: seq<Byte>, value: nat, bits: nat, ok: bool)
    ensures ok ==> Decoded(out, text, value, bits) && bits < 8
    ensures !ok ==> !AllLetters(text)
  {
    hide Decoded, HighByte, Pow2, ByteNumber, TextNumber;
    out, bits, value, ok := [], 0, 0, true;
    Begins();
    assert text[..0] == "";
    for i := 0 to |text|
      invariant bits < 8 && Decoded(out, text[..i], value, bits)
    {
      if DigitOf(text[i]) >= 32 {
        return out, value, bits, false;
      }
      DecodeDigit(out, text[..i], value, bits, text[i]);
      assert text[..i] + [text[i]] == text[..i + 1];
      value := (value * 32 + DigitOf(text[i])) % 4096;
      bits := bits + 5;
      if bits >= 8 {
        DecodeByte(out, text[..i + 1], value, bits);
        out := out + [HighByte(value, bits)];
        bits := bits - 8;
      }
    }
    assert text[..|text|] == text;
  }

  // ---------------------------------------------------------------- there and back

  /** Decoding an encoding gives the bytes back. */
  method RoundTrip(bytes: seq<Byte>) returns (result: Option<seq<Byte>>)
    ensures result == Some(bytes)
  {
    var text := Encode(bytes);
    result := Decode(text, |bytes|);
    assert result.Some?;
    OneSpelling(text, bytes, text, result.value);
  }

  /** What the decoder accepts is exactly the encoding of its result. */
  method Respell(text: string, length: nat) returns (again: Option<string>)
    ensures again.Some? ==> again.value == text
    ensures again.None? ==> forall bytes: seq<Byte> | |bytes| == length :: !Spells(text, bytes)
  {
    var bytes := Decode(text, length);
    if bytes.None? {
      return None;
    }
    var spelt := Encode(bytes.value);
    OneSpelling(text, bytes.value, spelt, bytes.value);
    return Some(spelt);
  }
}
