/**
 * The URL-safe radix-64 codec (src/utils/radix64.ts): a 64-character alphabet
 * in ascending character order, fixed-width integer encoding, and byte-buffer
 * encoding. Integers are unbounded here; the source's doubles are exact for the
 * record timestamps it encodes.
 */
module Radix64 {
  import opened Wrappers

  type byte = x: int | 0 <= x < 256

  /** `ALPHABET`: the digits 0..63, in strictly ascending character order. */
  const ALPHABET: string :=
    "-0123456789ABCDE" + "FGHIJKLMNOPQRSTU" + "VWXYZ_abcdefghij" + "klmnopqrstuvwxyz"

  /** The character of base-64 digit `d`, computed from its position. */
  function DigitChar(d: nat): char
    requires d < 64
  {
    if d == 0 then '-'
    else if d <= 10 then ('0' as int + (d - 1)) as char
    else if d <= 36 then ('A' as int + (d - 11)) as char
    else if d == 37 then '_'
    else ('a' as int + (d - 38)) as char
  }

  /** `ALPHABET_FLIPPED[c]`: the digit a character stands for, if any. */
  function Flipped(c: char): Option<nat>
  {
    if c == '-' then Some(0)
    else if '0' <= c <= '9' then Some(c as int - '0' as int + 1)
    else if 'A' <= c <= 'Z' then Some(c as int - 'A' as int + 11)
    else if c == '_' then Some(37)
    else if 'a' <= c <= 'z' then Some(c as int - 'a' as int + 38)
    else None
  }

  lemma AlphabetDigits()
    ensures |ALPHABET| == 64
    ensures forall d :: 0 <= d < 64 ==> ALPHABET[d] == DigitChar(d)
  {
    var digits := seq(64, d requires 0 <= d < 64 => DigitChar(d));
    assert digits[..16] == "-0123456789ABCDE";
    assert digits[16..32] == "FGHIJKLMNOPQRSTU";
    assert digits[32..48] == "VWXYZ_abcdefghij";
    assert digits[48..] == "klmnopqrstuvwxyz";
    assert digits == digits[..16] + digits[16..32] + digits[32..48] + digits[48..];
  }

  /** The alphabet is strictly ascending, hence free of repeats. */
  lemma AlphabetAscending()
    ensures |ALPHABET| == 64
    ensures forall i, j :: 0 <= i < j < 64 ==> ALPHABET[i] < ALPHABET[j]
  {
    AlphabetDigits();
  }

  /** `ALPHABET_FLIPPED` is the inverse of `ALPHABET`. */
  lemma AlphabetInverse()
    ensures |ALPHABET| == 64
    ensures forall d :: 0 <= d < 64 ==> Flipped(ALPHABET[d]) == Some(d)
    ensures forall c :: Flipped(c).Some? ==> Flipped(c).value < 64 && ALPHABET[Flipped(c).value] == c
  {
    AlphabetDigits();
    forall d | 0 <= d < 64 ensures Flipped(ALPHABET[d]) == Some(d) {
      DigitFlipped(d);
    }
    forall c | Flipped(c).Some? ensures Flipped(c).value < 64 && ALPHABET[Flipped(c).value] == c {
      FlippedDigit(c);
    }
  }

  lemma DigitFlipped(d: nat)
    requires d < 64
    ensures Flipped(DigitChar(d)) == Some(d)
  {
    var c := DigitChar(d);
    if d == 0 {
    } else if d <= 10 {
      assert '0' <= c <= '9' && c as int == '0' as int + d - 1;
    } else if d <= 36 {
      assert 'A' <= c <= 'Z' && c as int == 'A' as int + d - 11;
    } else if d == 37 {
    } else {
      assert 'a' <= c <= 'z' && c as int == 'a' as int + d - 38;
    }
  }

  lemma FlippedDigit(c: char)
    requires Flipped(c).Some?
    ensures Flipped(c).value < 64 && DigitChar(Flipped(c).value) == c
  {
    if c == '-' {
    } else if '0' <= c <= '9' {
    } else if 'A' <= c <= 'Z' {
    } else if c == '_' {
    } else {
      assert 'a' <= c <= 'z';
    }
  }

  /** The loop that fills `ALPHABET_FLIPPED` (radix64.ts:9-12). */
  method BuildFlipped() returns (flipped: map<char, nat>)
    ensures forall c :: c in flipped <==> Flipped(c).Some?
    ensures forall c :: c in flipped ==> Flipped(c) == Some(flipped[c])
  {
    AlphabetAscending();
    AlphabetInverse();
    flipped := map[];
    var i := 0;
    while i < |ALPHABET|
      invariant 0 <= i <= |ALPHABET|
      invariant forall c :: c in flipped <==> c in ALPHABET[..i]
      invariant forall c :: c in flipped ==> flipped[c] < i && ALPHABET[flipped[c]] == c
    {
      assert forall c :: c in ALPHABET[..i + 1] <==> c in ALPHABET[..i] || c == ALPHABET[i] by {
        assert ALPHABET[..i + 1] == ALPHABET[..i] + [ALPHABET[i]];
      }
      flipped := flipped[ALPHABET[i] := i];
      i := i + 1;
    }
    assert ALPHABET[..i] == ALPHABET;
    forall c | c in flipped ensures Flipped(c) == Some(flipped[c]) {
      assert Flipped(ALPHABET[flipped[c]]) == Some(flipped[c]);
    }
    forall c | Flipped(c).Some? ensures c in flipped {
      assert ALPHABET[Flipped(c).value] == c;
    }
  }

  // ---------------------------------------------------------------------
  // Powers and positional values
  // ---------------------------------------------------------------------

  function Pow2(k: nat): (p: nat)
    ensures p >= 1
  {
    if k == 0 then 1 else 2 * Pow2(k - 1)
  }

  lemma {:induction false} Pow2Add(a: nat, b: nat)
    ensures Pow2(a + b) == Pow2(a) * Pow2(b)
    decreases a
  {
    if a > 0 {
      Pow2Add(a - 1, b);
      assert Pow2(a + b) == 2 * Pow2(a - 1 + b);
    }
  }

  /** 64^len, written as `Math.pow(2, 6 * length)` in the source. */
  function Pow64(len: nat): nat
  {
    Pow2(6 * len)
  }

  /** 256^n: the number of values an n-byte buffer holds. */
  function Pow256(n: nat): nat
  {
    Pow2(8 * n)
  }

  lemma Pow64Succ(len: nat)
    ensures Pow64(len + 1) == 64 * Pow64(len)
  {
    Pow2Add(6, 6 * len);
    assert 6 * (len + 1) == 6 + 6 * len;
  }

  lemma Pow256Succ(n: nat)
    ensures Pow256(n + 1) == 256 * Pow256(n)
  {
    Pow2Add(8, 8 * n);
    assert 8 * (n + 1) == 8 + 8 * n;
  }

  /** The digit a character stands for, 0 for a character outside the alphabet. */
  function LenientDigit(c: char): (d: nat)
    ensures d < 64
  {
    Flipped(c).GetOr(0)
  }

  predicate Valid(s: string)
  {
    forall k :: 0 <= k < |s| ==> Flipped(s[k]).Some?
  }

  /** The base-64 value of `s`, most significant digit first. */
  function Value(s: string): nat
    decreases |s|
  {
    if s == [] then 0 else Value(s[..|s| - 1]) * 64 + LenientDigit(s[|s| - 1])
  }

  /** A string of `k` digits holds less than 64^k. */
  lemma {:induction false} ValueBound(s: string)
    ensures Value(s) < Pow64(|s|)
    decreases |s|
  {
    if s != [] {
      ValueBound(s[..|s| - 1]);
      Pow64Succ(|s| - 1);
    }
  }

  /** What `decodeToInt` computes: `None` stands for NaN. */
  function DecodeInt(s: string): Option<nat>
  {
    if s == [] || !Valid(s) then None else Some(Value(s))
  }

  /** The low `len` base-64 digits of `n`, padded on the left with `ALPHABET[0]`. */
  function Encode(n: nat, len: nat): (e: string)
    ensures |e| == len
  {
    if len == 0 then "" else Encode(n / 64, len - 1) + [ALPHABET[n % 64]]
  }

  /** Every character of an encoding is in the alphabet. */
  lemma {:induction false} EncodeValid(n: nat, len: nat)
    ensures Valid(Encode(n, len))
    decreases len
  {
    if len > 0 {
      EncodeValid(n / 64, len - 1);
      AlphabetDigits();
      DigitFlipped(n % 64);
      var e := Encode(n, len);
      forall k | 0 <= k < len ensures Flipped(e[k]).Some? {
        if k < len - 1 { assert e[k] == Encode(n / 64, len - 1)[k]; }
      }
    }
  }

  /** The fewest base-64 digits that hold `n`, and at least one. */
  function MinDigits(n: nat): (k: nat)
    ensures k >= 1 && n < Pow64(k)
    ensures k == 1 || Pow64(k - 1) <= n
  {
    if n < 64 then
      assert Pow64(1) == 64 by { Pow64Succ(0); }
      1
    else
      var k := MinDigits(n / 64);
      Pow64Succ(k);
      Pow64Succ(k - 1);
      k + 1
  }

  // ---------------------------------------------------------------------
  // encodeInt / decodeToInt
  // ---------------------------------------------------------------------

  /**
   * `encodeInt(num, length)`; `length == 0` stands for an absent (falsy) length.
   * An absent length with a negative number fails as `new Array(NaN)` does.
   */
  method EncodeInt(num: int, length: nat) returns (r: Result<string>)
    ensures r.Err? <==> (length > 0 && num >= Pow64(length)) || (length == 0 && num < 0)
    ensures r.Ok? ==> r.value == Encode(if num < 0 then 0 else num,
                                        if length > 0 then length else MinDigits(num))
  {
    var len: nat;
    if length > 0 {
      if num >= Pow2(6 * length) {
        return Err("Int is greater than or equal to max bound for encoded string length");
      }
      len := length;
    } else {
      if num < 0 {
        return Err("Invalid array length");
      }
      len := MinDigits(num);
    }
    var chars := new char[len];
    WriteDigits(chars, num);
    r := Ok(chars[..]);
  }

  /** `chars[k] = c`, seen from position `k` onwards. */
  method Put(chars: array<char>, k: int, c: char)
    requires 0 <= k < chars.Length
    modifies chars
    ensures chars[k..] == [c] + old(chars[k + 1..])
  {
    chars[k] := c;
    assert chars[k..] == [c] + chars[k + 1..];
  }

  lemma Glue(init: string, whole: string, d: char, suffix: string)
    requires whole == init + [d]
    ensures init + ([d] + suffix) == whole + suffix
  {
  }

  lemma Phase(i: int)
    ensures i % 4 == 1 ==> (i + 1) % 4 == 2
    ensures i % 4 == 2 ==> (i + 1) % 4 == 3
    ensures i % 4 == 3 ==> (i + 1) % 4 == 0
    ensures i % 4 == 0 ==> (i + 1) % 4 == 1
  {
  }

  /** A positive number below `64^(i+1)` leaves a position `i` to write, and its quotient fits in `i` digits. */
  lemma DigitBound(n: int, i: int)
    requires 0 < n && -1 <= i && n < Pow64(i + 1)
    ensures 0 <= i && n / 64 < Pow64(i)
  {
    if i >= 0 {
      Pow64Succ(i);
    }
  }

  /** The two loops of `encodeInt` that fill `chars` from the right. */
  method WriteDigits(chars: array<char>, num: int)
    requires num < Pow64(chars.Length)
    modifies chars
    ensures chars[..] == Encode(if num < 0 then 0 else num, chars.Length)
  {
    ghost var n0: nat := if num < 0 then 0 else num;
    ghost var len := chars.Length;
    assert |ALPHABET| == 64;
    var n := num;
    var i := chars.Length - 1;
    assert chars[i + 1..] == [];
    while n > 0
      invariant -1 <= i < len
      invariant n > 0 ==> n < Pow64(i + 1)
      invariant Encode(if n < 0 then 0 else n, i + 1) + chars[i + 1..] == Encode(n0, len)
    {
      DigitBound(n, i);
      ghost var suffix := chars[i + 1..];
      Put(chars, i, ALPHABET[n % 64]);
      Glue(Encode(n / 64, i), Encode(n, i + 1), ALPHABET[n % 64], suffix);
      i := i - 1;
      n := n / 64;
    }
    ghost var low := chars[i + 1..];
    PadLeft(chars, i);
    assert chars[..] == Encode(0, i + 1) + low;
  }

  /** The second loop of `encodeInt`: `ALPHABET[0]` in positions `upto` down to 0. */
  method PadLeft(chars: array<char>, upto: int)
    requires -1 <= upto < chars.Length
    modifies chars
    ensures chars[..] == Encode(0, upto + 1) + old(chars[upto + 1..])
  {
    assert |ALPHABET| == 64;
    ghost var low := chars[upto + 1..];
    var i := upto;
    while i >= 0
      invariant -1 <= i <= upto
      invariant chars[i + 1..] == Encode(0, upto - i) + low
    {
      Put(chars, i, ALPHABET[0]);
      assert Encode(0, upto - i + 1) == [ALPHABET[0]] + Encode(0, upto - i) by {
        EncodeZero(upto - i + 1);
        EncodeZero(upto - i);
      }
      i := i - 1;
    }
    assert chars[..] == chars[0..];
  }

  /** Zero encodes as `ALPHABET[0]` repeated. */
  lemma {:induction false} EncodeZero(len: nat)
    ensures Encode(0, len) == seq(len, _ => ALPHABET[0])
  {
    if len > 0 {
      EncodeZero(len - 1);
    }
  }

  /** One step of `num = num * BASE + ALPHABET_FLIPPED[c]`; NaN absorbs. */
  function Accumulate(num: Option<nat>, c: Option<char>): Option<nat>
  {
    if num.Some? && c.Some? && Flipped(c.value).Some? then Some(num.value * 64 + Flipped(c.value).value)
    else None
  }

  lemma DecodeSnoc(s: string, c: char)
    requires s != []
    ensures DecodeInt(s + [c]) == Accumulate(DecodeInt(s), Some(c))
  {
    var t := s + [c];
    assert t[..|t| - 1] == s;
    if Valid(s) && Flipped(c).Some? {
      assert Valid(t) by {
        forall k | 0 <= k < |t| ensures Flipped(t[k]).Some? {
          if k < |s| { assert t[k] == s[k]; }
        }
      }
    } else if !Valid(s) {
      var k :| 0 <= k < |s| && Flipped(s[k]).None?;
      assert t[k] == s[k];
    } else {
      assert t[|s|] == c;
    }
  }

  /** `decodeToInt`: the do-while reads `string[0]` even when it is undefined. */
  method DecodeToInt(s: string) returns (r: Option<nat>)
    ensures r == DecodeInt(s)
  {
    var num: Option<nat> := Some(0);
    num := Accumulate(num, if |s| > 0 then Some(s[0]) else None);
    var i := 1;
    if |s| > 0 {
      assert s[..1] == [s[0]];
      assert [s[0]][..0] == [];
      assert Value([s[0]]) == LenientDigit(s[0]);
    }
    while i < |s|
      invariant 1 <= i
      invariant |s| > 0 ==> i <= |s| && num == DecodeInt(s[..i])
      invariant |s| == 0 ==> num == None
    {
      DecodeSnoc(s[..i], s[i]);
      assert s[..i + 1] == s[..i] + [s[i]];
      num := Accumulate(num, Some(s[i]));
      i := i + 1;
    }
    if |s| > 0 {
      assert s[..i] == s;
    }
    r := num;
  }

  // ---------------------------------------------------------------------
  // Properties of the integer codec
  // ---------------------------------------------------------------------

  lemma DivMod(x: int, m: int)
    requires m > 0
    ensures x == m * (x / m) + x % m && 0 <= x % m < m
  {
  }

  lemma MulAssoc(a: int, b: int, c: int)
    ensures (a * b) * c == a * (b * c)
  {
  }

  lemma MulAtLeast(m: int, k: int)
    requires m > 0 && k >= 1
    ensures m * k >= m
  {
    assert m * k == m + m * (k - 1);
  }

  lemma ModUnique(x: int, m: int, a: int, c: int)
    requires m > 0 && x == m * a + c && 0 <= c < m
    ensures x / m == a && x % m == c
  {
    var q, r := x / m, x % m;
    assert x == m * q + r;
    if q > a {
      assert m * q == m * a + m * (q - a);
      MulAtLeast(m, q - a);
    } else if q < a {
      assert m * a == m * q + m * (a - q);
      MulAtLeast(m, a - q);
    }
  }

  /** The value of `Encode(n, len)` is `n` reduced modulo 64^len. */
  lemma {:induction false} EncodeValue(n: nat, len: nat)
    ensures Value(Encode(n, len)) == n % Pow64(len)
    decreases len
  {
    if len == 0 {
      ModUnique(n, 1, n, 0);
    } else {
      var p := Pow64(len - 1);
      var q := n / 64;
      EncodeValue(q, len - 1);
      var e := Encode(n, len);
      assert e[..|e| - 1] == Encode(q, len - 1);
      assert e[|e| - 1] == ALPHABET[n % 64];
      assert LenientDigit(e[|e| - 1]) == n % 64 by { AlphabetInverse(); }
      assert Value(e) == (q % p) * 64 + n % 64;
      Pow64Succ(len - 1);
      var a := q / p;
      DivMod(q, p);
      MulAssoc(64, p, a);
      ModUnique(n, 64 * p, a, 64 * (q % p) + n % 64);
    }
  }

  /** `decodeToInt(encodeInt(n, L)) == n` whenever `n` fits in `L` digits. */
  lemma IntRoundTrip(n: nat, len: nat)
    requires len >= 1 && n < Pow64(len)
    ensures DecodeInt(Encode(n, len)) == Some(n)
  {
    EncodeValid(n, len);
    EncodeValue(n, len);
    ModUnique(n, Pow64(len), 0, n);
  }

  /** Without a length, `encodeInt` of a natural number decodes back to it. */
  lemma IntRoundTripMinimal(n: nat)
    ensures DecodeInt(Encode(n, MinDigits(n))) == Some(n)
  {
    IntRoundTrip(n, MinDigits(n));
  }

  lemma {:induction false} ValueFront(c: char, s: string)
    ensures Value([c] + s) == LenientDigit(c) * Pow64(|s|) + Value(s)
    decreases |s|
  {
    var t := [c] + s;
    if s == [] {
      assert t[..|t| - 1] == [];
    } else {
      var init, last := s[..|s| - 1], s[|s| - 1];
      var d, p := LenientDigit(c), Pow64(|init|);
      ValueFront(c, init);
      assert t[..|t| - 1] == [c] + init;
      assert t[|t| - 1] == last;
      assert Value(t) == (d * p + Value(init)) * 64 + LenientDigit(last);
      assert Value(s) == Value(init) * 64 + LenientDigit(last);
      Pow64Succ(|init|);
      MulAssoc(d, p, 64);
    }
  }

  lemma ValidCons(c: char, s: string)
    ensures Valid([c] + s) <==> Flipped(c).Some? && Valid(s)
  {
    var t := [c] + s;
    if Flipped(c).Some? && Valid(s) {
      forall k | 0 <= k < |t| ensures Flipped(t[k]).Some? {
        if k > 0 { assert t[k] == s[k - 1]; }
      }
    }
    if Valid(t) {
      assert t[0] == c;
      forall k | 0 <= k < |s| ensures Flipped(s[k]).Some? {
        assert s[k] == t[k + 1];
      }
    }
  }

  /** Leading `ALPHABET[0]` characters do not change the decoded value. */
  lemma LeadingPadding(s: string)
    requires s != []
    ensures DecodeInt([ALPHABET[0]] + s) == DecodeInt(s)
  {
    AlphabetDigits();
    DigitFlipped(0);
    ValueFront(ALPHABET[0], s);
    ValidCons(ALPHABET[0], s);
  }

  /** JavaScript's `<` on strings: lexicographic order on character codes. */
  predicate LexLess(a: string, b: string)
  {
    if a == [] then b != []
    else b != [] && (a[0] < b[0] || (a[0] == b[0] && LexLess(a[1..], b[1..])))
  }

  /** Digits grow with their characters. */
  lemma FlippedMonotone(c1: char, c2: char)
    requires Flipped(c1).Some? && Flipped(c2).Some? && c1 < c2
    ensures Flipped(c1).value < Flipped(c2).value
  {
  }

  /** A smaller leading digit makes a smaller number, whatever follows it. */
  lemma FrontLess(da: nat, db: nat, p: nat, va: nat, vb: nat)
    requires da < db && va < p
    ensures da * p + va < db * p + vb
  {
    assert db * p - da * p == (db - da) * p;
    MulAtLeast(p, db - da);
  }

  lemma {:induction false} LexLessValue(a: string, b: string)
    requires |a| == |b| && Valid(a) && Valid(b) && LexLess(a, b)
    ensures Value(a) < Value(b)
    decreases |a|
  {
    assert a == [a[0]] + a[1..] && b == [b[0]] + b[1..];
    ValueFront(a[0], a[1..]);
    ValueFront(b[0], b[1..]);
    ValidCons(a[0], a[1..]);
    ValidCons(b[0], b[1..]);
    if a[0] < b[0] {
      var p := Pow64(|a| - 1);
      var da, db := LenientDigit(a[0]), LenientDigit(b[0]);
      FlippedMonotone(a[0], b[0]);
      ValueBound(a[1..]);
      FrontLess(da, db, p, Value(a[1..]), Value(b[1..]));
    } else {
      assert a[0] == b[0] && LexLess(a[1..], b[1..]);
      LexLessValue(a[1..], b[1..]);
    }
  }

  lemma {:induction false} LexTotal(a: string, b: string)
    requires |a| == |b| && a != b
    ensures LexLess(a, b) || LexLess(b, a)
    decreases |a|
  {
    if a[0] == b[0] {
      assert a == [a[0]] + a[1..] && b == [b[0]] + b[1..];
      LexTotal(a[1..], b[1..]);
    }
  }

  /** For encodings of one width, string order is numeric order. */
  lemma EncodeOrder(n: nat, m: nat, len: nat)
    requires len >= 1 && n < Pow64(len) && m < Pow64(len)
    ensures n < m <==> LexLess(Encode(n, len), Encode(m, len))
  {
    IntRoundTrip(n, len);
    IntRoundTrip(m, len);
    var en, em := Encode(n, len), Encode(m, len);
    if LexLess(en, em) {
      LexLessValue(en, em);
    }
    if n < m {
      LexTotal(en, em);
      if LexLess(em, en) {
        LexLessValue(em, en);
      }
    }
  }

  // ---------------------------------------------------------------------
  // Byte buffers
  // ---------------------------------------------------------------------

  /** The big-endian value of a byte sequence. */
  function BytesValue(b: seq<byte>): nat
  {
    if b == [] then 0 else BytesValue(b[..|b| - 1]) * 256 + b[|b| - 1]
  }

  /** The low `n` bytes of `v`, big-endian. */
  function BytesOf(v: nat, n: nat): (b: seq<byte>)
    ensures |b| == n
  {
    if n == 0 then [] else BytesOf(v / 256, n - 1) + [v % 256]
  }

  /** `Math.ceil(n * 8 / 6)`: the digits an n-byte buffer needs. */
  function DefaultDigits(n: nat): (len: nat)
    ensures 6 * len >= 8 * n
  {
    (8 * n + 5) / 6
  }

  /** The value of the bytes `encodeBuffer` has not read yet (positions 0..index). */
  ghost function Unread(buffer: seq<byte>, index: int): nat
    requires index < |buffer|
  {
    if index >= 0 then BytesValue(buffer[..index + 1]) else 0
  }

  /** The value still to be emitted while `encodeBuffer` runs: the unread bytes and the hang bits. */
  ghost function Unencoded(buffer: seq<byte>, index: int, i: int, hang: int): int
    requires index < |buffer|
  {
    var w := Unread(buffer, index);
    if i % 4 == 1 then w
    else if i % 4 == 2 then w * 4 + hang
    else if i % 4 == 3 then w * 16 + hang
    else w * 64 + hang
  }

  /** How many digits `encodeBuffer` has placed once its counter is `i`. */
  function Placed(i: int, len: nat): nat
  {
    if i <= 1 then 0 else if i - 1 <= len then i - 1 else len
  }

  predicate HangFits(i: int, hang: int)
  {
    0 <= hang &&
    (i % 4 == 2 ==> hang < 4) && (i % 4 == 3 ==> hang < 16) && (i % 4 == 0 ==> hang < 64)
  }

  lemma Split64(x: int, hi: int, lo: int)
    requires x == hi * 64 + lo && 0 <= lo < 64
    ensures x / 64 == hi && x % 64 == lo
  {
    ModUnique(x, 64, hi, lo);
  }

  lemma EncodeStep(x: nat, m: nat, digit: nat, rest: nat)
    requires m >= 1 && x == rest * 64 + digit && digit < 64
    ensures Encode(x, m) == Encode(rest, m - 1) + [ALPHABET[digit]]
  {
    Split64(x, rest, digit);
  }

  lemma BytesPrefix(buffer: seq<byte>, index: int)
    requires 0 <= index < |buffer|
    ensures BytesValue(buffer[..index + 1]) == (if index > 0 then BytesValue(buffer[..index]) else 0) * 256 + buffer[index]
  {
    assert buffer[..index + 1][..index] == buffer[..index];
  }

  /** The arithmetic behind each branch of the `switch` in `encodeBuffer`. */
  lemma ByteDigits(w: int, b: byte, hang: int)
    ensures w * 256 + b == (w * 4 + b / 64) * 64 + b % 64
    ensures 0 <= hang < 4 ==> (w * 256 + b) * 4 + hang == (w * 16 + b / 16) * 64 + ((b % 16) * 4 + hang)
    ensures 0 <= hang < 16 ==> (w * 256 + b) * 16 + hang == (w * 64 + b / 4) * 64 + ((b % 4) * 16 + hang)
  {
  }

  /** What one pass of the `switch (i % 4)` in `encodeBuffer` produces. */
  datatype Emit = Emit(digit: int, index: int, hang: int)

  /**
   * One pass of the `switch (i % 4)` in `encodeBuffer`: the digit it places and the
   * new read position and hang bits. Reading before the first byte yields
   * `undefined`, which the bit operations treat as 0.
   */
  function EmitDigit(buffer: seq<byte>, i: int, index: int, hang: int): Emit
    requires index < |buffer|
  {
    var b: byte := if index >= 0 then buffer[index] else 0;
    if i % 4 == 1 then Emit(b % 64, index - 1, b / 64)
    else if i % 4 == 2 then Emit((b % 16) * 4 + hang, index - 1, b / 16)
    else if i % 4 == 3 then Emit((b % 4) * 16 + hang, index - 1, b / 4)
    else Emit(hang, index, hang)
  }

  /** Each pass places the lowest base-64 digit of the value still to be emitted. */
  lemma EmitDigitValue(buffer: seq<byte>, i: int, index: int, hang: int)
    requires -1 <= index < |buffer| && HangFits(i, hang)
    requires i % 4 == 0 ==> index >= 0
    ensures var e := EmitDigit(buffer, i, index, hang);
      0 <= e.digit < 64 && HangFits(i + 1, e.hang) && -2 <= e.index < |buffer| &&
      Unencoded(buffer, index, i, hang) == Unencoded(buffer, e.index, i + 1, e.hang) * 64 + e.digit
  {
    Phase(i);
    var w := Unread(buffer, index - 1);
    var b: byte := if index >= 0 then buffer[index] else 0;
    assert Unread(buffer, index) == w * 256 + b by {
      if index >= 0 { BytesPrefix(buffer, index); }
    }
    ByteDigits(w, b, hang);
  }

  /** Placing the next digit in front of the placed ones keeps the loop invariant. */
  lemma PlaceDigit(x: nat, x': nat, digit: nat, m: nat, suffix: string)
    requires m >= 1 && x == x' * 64 + digit && digit < 64
    ensures Encode(x', m - 1) + ([ALPHABET[digit]] + suffix) == Encode(x, m) + suffix
  {
    EncodeStep(x, m, digit, x');
  }

  /**
   * The state of `encodeBuffer` before pass `i`: the digits placed so far, followed
   * by the encoding of what is still unread, make up the encoding of the whole buffer.
   */
  ghost predicate Emitting(buffer: seq<byte>, s: string, i: int, index: int, hang: int)
  {
    -2 <= index < |buffer| && HangFits(i, hang) &&
    Encode(BytesValue(buffer), |s|) ==
      Encode(Unencoded(buffer, index, i, hang), |s| - Placed(i, |s|)) + s[|s| - Placed(i, |s|)..]
  }

  lemma EmitStart(buffer: seq<byte>, s: string)
    ensures Emitting(buffer, s, 1, |buffer| - 1, 0)
  {
    assert buffer[..|buffer|] == buffer;
    assert s[|s|..] == [];
  }

  /** One pass of the `do … while` body of `encodeBuffer`. */
  method EmitPass(buffer: seq<byte>, chars: array<char>, i: int, index: int, hang: int)
    returns (index': int, hang': int)
    requires 1 <= i <= chars.Length + 1 && -1 <= index && (i == 1 || index >= 0)
    requires Emitting(buffer, chars[..], i, index, hang)
    modifies chars
    ensures Emitting(buffer, chars[..], i + 1, index', hang')
    ensures (index', hang') == (EmitDigit(buffer, i, index, hang).index, EmitDigit(buffer, i, index, hang).hang)
  {
    var len := chars.Length;
    ghost var x := Unencoded(buffer, index, i, hang);
    EmitDigitValue(buffer, i, index, hang);
    var e := EmitDigit(buffer, i, index, hang);
    if len - i >= 0 {
      assert Placed(i + 1, len) == i;
      ghost var suffix := chars[len - i + 1..];
      Put(chars, len - i, ALPHABET[e.digit]);
      PlaceDigit(x, Unencoded(buffer, e.index, i + 1, e.hang), e.digit, len - i + 1, suffix);
    }
    index', hang' := e.index, e.hang;
  }

  /**
   * `encodeBuffer(buffer, length)`; `length == 0` stands for an absent length.
   * The bit operations of the source are written arithmetically: `b & m` is
   * `b % (m + 1)`, `b >> k` is `b / 2^k`, and each `|` joins disjoint bits.
   * Writes to a negative position of the JavaScript array are dropped by `join`.
   */
  method EncodeBuffer(buffer: seq<byte>, length: nat) returns (r: string)
    ensures r == Encode(BytesValue(buffer), if length > 0 then length else DefaultDigits(|buffer|))
  {
    var len := if length > 0 then length else DefaultDigits(|buffer|);
    var chars := new char[len](_ => ALPHABET[0]);
    var i := 1;
    var index := |buffer| - 1;
    var hang := 0;
    var first := true;
    EmitStart(buffer, chars[..]);
    while first || (index >= 0 && i <= len)
      invariant first ==> i == 1 && index == |buffer| - 1
      invariant !first ==> 2 <= i <= len + 2 && (i == len + 2 ==> len == 0)
      invariant Emitting(buffer, chars[..], i, index, hang)
      decreases len + 2 - i
    {
      index, hang := EmitPass(buffer, chars, i, index, hang);
      i := i + 1;
      first := false;
    }
    FinishEncode(buffer, chars, i, index, hang);
    r := chars[..];
  }

  /**
   * The tail of `encodeBuffer`: the pending hang bits become one more digit
   * unless the last pass completed a group of three bytes, and the positions
   * before the placed digits keep their initial `ALPHABET[0]`.
   */
  method FinishEncode(buffer: seq<byte>, chars: array<char>, i: int, index: int, hang: int)
    requires i >= 1 && Emitting(buffer, chars[..], i, index, hang)
    requires index < 0 || i > chars.Length
    modifies chars
    ensures chars[..] == Encode(BytesValue(buffer), chars.Length)
  {
    var len := chars.Length;
    var i := i;
    assert Unread(buffer, index) == 0 || i > len;
    if i % 4 != 1 {
      if len - i >= 0 {
        assert Unencoded(buffer, index, i, hang) == hang;
        ghost var suffix := chars[len - i + 1..];
        Put(chars, len - i, ALPHABET[hang]);
        PlaceDigit(hang, 0, hang, len - i + 1, suffix);
      }
      i := i + 1;
    }
    if i <= len {
      PadLeft(chars, len - i);
    }
    assert chars[..] == chars[0..];
  }

  // ---------------------------------------------------------------------
  // decodeToBuffer
  // ---------------------------------------------------------------------

  /**
   * The digit `decodeToBuffer` looks up on pass `i`, `string[string.length - i]`:
   * a character outside the alphabet, or a position before the front, gives
   * `undefined`, which both the bit operations and the byte store read as 0.
   */
  function DigitFrom(s: string, i: int): (d: nat)
    ensures d < 64
  {
    if 1 <= i <= |s| then LenientDigit(s[|s| - i]) else 0
  }

  /** The value of the digits not yet read before pass `i`. */
  function Undecoded(s: string, i: int): nat
  {
    if 1 <= i && i - 1 <= |s| then Value(s[..|s| - (i - 1)]) else 0
  }

  lemma UndecodedStep(s: string, i: int)
    requires i >= 1
    ensures Undecoded(s, i) == Undecoded(s, i + 1) * 64 + DigitFrom(s, i)
  {
    if i <= |s| {
      var t := s[..|s| - (i - 1)];
      assert t[..|t| - 1] == s[..|s| - i];
    }
  }

  /** The weight of the unread digits above the pending bits: 2 to the number of pending bits. */
  function Scale(i: int): nat
  {
    if i % 4 == 1 then 1 else if i % 4 == 2 then 64 else if i % 4 == 3 then 16 else 4
  }

  /** The bits already stored in `buffer[bufferIndex]` before pass `i`. */
  function Pending(b: seq<byte>, i: int, bi: int): nat
  {
    if i % 4 != 1 && 0 <= bi < |b| then b[bi] else 0
  }

  /**
   * The state of `decodeToBuffer` before pass `i`: the bytes after `bufferIndex`
   * are final, and the unread digits with the pending bits make up the rest.
   */
  ghost predicate Decoding(s: string, b: seq<byte>, i: int, bi: int)
  {
    -1 <= bi < |b| && Pending(b, i, bi) < Scale(i) &&
    BytesOf(Value(s), |b|) == BytesOf(Undecoded(s, i) * Scale(i) + Pending(b, i, bi), bi + 1) + b[bi + 1..]
  }

  lemma DecodeStart(s: string, b: seq<byte>)
    ensures Decoding(s, b, 1, |b| - 1)
  {
    assert s[..|s|] == s;
    assert b[|b|..] == [];
  }

  /** `buffer[k] = v`: a Node.js buffer ignores a store outside its bounds. */
  method Store(buffer: array<byte>, k: int, v: byte)
    modifies buffer
    ensures buffer[..] == if 0 <= k < buffer.Length then old(buffer[..])[k := v] else old(buffer[..])
  {
    if 0 <= k < buffer.Length {
      buffer[k] := v;
    }
  }

  /** The lowest byte of `y` completes position `bi`; the rest carries to the bytes before it. */
  lemma Carry(y: nat, z: nat, lo: nat, b: seq<byte>, b': seq<byte>, bi: int)
    requires y == z * 256 + lo && lo < 256
    requires 0 <= bi < |b| == |b'| && b'[bi] == lo && b'[bi + 1..] == b[bi + 1..]
    ensures BytesOf(y, bi + 1) + b[bi + 1..] == BytesOf(z, bi) + b'[bi..]
  {
    ModUnique(y, 256, z, lo);
    assert b'[bi..] == [lo] + b'[bi + 1..];
  }

  /** A pass that completes the byte at `bi` keeps the state of `decodeToBuffer` consistent. */
  lemma CompleteByte(s: string, b: seq<byte>, b': seq<byte>, i: int, bi: int, z: nat, lo: nat)
    requires i >= 1 && Decoding(s, b, i, bi) && 0 <= bi
    requires |b'| == |b| && b'[bi] == lo && b'[bi + 1..] == b[bi + 1..] && lo < 256
    requires Undecoded(s, i) * Scale(i) + Pending(b, i, bi) == z * 256 + lo
    requires Pending(b', i + 1, bi - 1) < Scale(i + 1)
    requires bi >= 1 ==> z == Undecoded(s, i + 1) * Scale(i + 1) + Pending(b', i + 1, bi - 1)
    ensures Decoding(s, b', i + 1, bi - 1)
  {
    Carry(Undecoded(s, i) * Scale(i) + Pending(b, i, bi), z, lo, b, b', bi);
  }

  /** One pass of the `do … while` body of `decodeToBuffer`; each `|=` joins disjoint bits. */
  method DecodePass(s: string, buffer: array<byte>, i: int, bi: int) returns (bi': int)
    requires i >= 1 && (i == 1 || bi >= 0) && Decoding(s, buffer[..], i, bi)
    modifies buffer
    ensures Decoding(s, buffer[..], i + 1, bi') && bi - 1 <= bi' <= bi
  {
    if i % 4 == 1 {
      DecodeLow(s, buffer, i, bi);
      bi' := bi;
    } else if i % 4 == 2 {
      bi' := DecodeSecond(s, buffer, i, bi);
    } else if i % 4 == 3 {
      bi' := DecodeThird(s, buffer, i, bi);
    } else {
      bi' := DecodeHigh(s, buffer, i, bi);
    }
  }

  /** Passes 1, 5, 9, …: the digit's six bits start the byte at `bi`. */
  method DecodeLow(s: string, buffer: array<byte>, i: int, bi: int)
    requires i >= 1 && i % 4 == 1 && (i == 1 || bi >= 0) && Decoding(s, buffer[..], i, bi)
    modifies buffer
    ensures Decoding(s, buffer[..], i + 1, bi)
  {
    ghost var b := buffer[..];
    UndecodedStep(s, i);
    Phase(i);
    var dec := DigitFrom(s, i);
    Store(buffer, bi, dec);
    assert buffer[bi + 1..] == b[bi + 1..];
  }

  /** Passes 2, 6, 10, …: the low two bits of the digit complete the byte at `bi`, the other four start the byte before it. */
  method DecodeSecond(s: string, buffer: array<byte>, i: int, bi: int) returns (bi': int)
    requires i >= 2 && i % 4 == 2 && bi >= 0 && Decoding(s, buffer[..], i, bi)
    modifies buffer
    ensures Decoding(s, buffer[..], i + 1, bi') && bi' == bi - 1
  {
    ghost var b := buffer[..];
    ghost var r := Undecoded(s, i + 1);
    UndecodedStep(s, i);
    Phase(i);
    var dec := DigitFrom(s, i);
    var p := buffer[bi];
    Store(buffer, bi, p + (dec % 4) * 64);
    ghost var b1 := buffer[..];
    bi' := bi - 1;
    Store(buffer, bi', dec / 4);
    assert buffer[bi..] == b1[bi..];
    CompleteByte(s, b, buffer[..], i, bi, r * 16 + dec / 4, p + (dec % 4) * 64);
  }

  /** Passes 3, 7, 11, …: the low four bits of the digit complete the byte at `bi`, the other two start the byte before it. */
  method DecodeThird(s: string, buffer: array<byte>, i: int, bi: int) returns (bi': int)
    requires i >= 2 && i % 4 == 3 && bi >= 0 && Decoding(s, buffer[..], i, bi)
    modifies buffer
    ensures Decoding(s, buffer[..], i + 1, bi') && bi' == bi - 1
  {
    ghost var b := buffer[..];
    ghost var r := Undecoded(s, i + 1);
    UndecodedStep(s, i);
    Phase(i);
    var dec := DigitFrom(s, i);
    var p := buffer[bi];
    Store(buffer, bi, p + (dec % 16) * 16);
    ghost var b1 := buffer[..];
    bi' := bi - 1;
    Store(buffer, bi', dec / 16);
    assert buffer[bi..] == b1[bi..];
    CompleteByte(s, b, buffer[..], i, bi, r * 4 + dec / 16, p + (dec % 16) * 16);
  }


  /** Passes 4, 8, …: the digit fills the top six bits of the byte at `bi`. */
  method DecodeHigh(s: string, buffer: array<byte>, i: int, bi: int) returns (bi': int)
    requires i >= 4 && i % 4 == 0 && bi >= 0 && Decoding(s, buffer[..], i, bi)
    modifies buffer
    ensures Decoding(s, buffer[..], i + 1, bi') && bi' == bi - 1
  {
    ghost var b := buffer[..];
    ghost var r := Undecoded(s, i + 1);
    UndecodedStep(s, i);
    Phase(i);
    var dec := DigitFrom(s, i);
    var p := buffer[bi];
    Store(buffer, bi, p + dec * 4);
    bi' := bi - 1;
    CompleteByte(s, b, buffer[..], i, bi, r, p + dec * 4);
  }


  lemma ZeroBytes(m: nat)
    ensures BytesOf(0, m) == seq(m, _ => 0)
  {
    if m > 0 {
      ZeroBytes(m - 1);
    }
  }

  /**
   * `decodeToBuffer(string, bytes)`. The buffer is a copy of `bytes`, so only its
   * length matters; without `bytes` the source calls `Buffer.from` with a number,
   * which throws.
   */
  method DecodeToBuffer(s: string, bytes: Option<seq<byte>>) returns (r: Result<seq<byte>>)
    ensures bytes.None? <==> r.Err?
    ensures bytes.Some? ==> r == Ok(BytesOf(Value(s), |bytes.value|))
  {
    if bytes.None? {
      return Err("The first argument must be of type string or an instance of Buffer, ArrayBuffer, or Array");
    }
    var init := bytes.value;
    var buffer := new byte[|init|](k requires 0 <= k < |init| => init[k]);
    DecodeInto(s, buffer);
    r := Ok(buffer[..]);
  }

  /** The `do … while` loop of `decodeToBuffer` and its tail, over a buffer of any contents. */
  method DecodeInto(s: string, buffer: array<byte>)
    modifies buffer
    ensures buffer[..] == BytesOf(Value(s), buffer.Length)
  {
    var i := 1;
    var bi := buffer.Length - 1;
    var first := true;
    DecodeStart(s, buffer[..]);
    while first || (bi >= 0 && i <= |s|)
      invariant first ==> i == 1 && bi == buffer.Length - 1
      invariant !first ==> 2 <= i <= |s| + 2 && (i == |s| + 2 ==> |s| == 0)
      invariant Decoding(s, buffer[..], i, bi)
      decreases |s| + 2 - i
    {
      bi := DecodePass(s, buffer, i, bi);
      i := i + 1;
      first := false;
    }
    FinishDecode(s, buffer, i, bi);
  }

  /**
   * The tail of `decodeToBuffer`: a completed byte group steps the index back
   * onto the last byte written, and `buffer.fill(0, 0, bufferIndex)` clears
   * everything before it.
   */
  method FinishDecode(s: string, buffer: array<byte>, i: int, bi: int)
    requires i >= 2 && Decoding(s, buffer[..], i, bi) && (bi < 0 || i > |s|)
    modifies buffer
    ensures buffer[..] == BytesOf(Value(s), buffer.Length)
  {
    var bi := bi;
    ghost var y := Undecoded(s, i) * Scale(i) + Pending(buffer[..], i, bi);
    assert bi >= 0 ==> Undecoded(s, i) == 0;
    if i % 4 == 1 {
      if bi >= 0 {
        ZeroBytes(bi + 1);
      }
      bi := bi + 1;
    } else if bi >= 0 {
      ZeroBytes(bi);
      ModUnique(y, 256, 0, y);
    }
    if bi > 0 {
      forall k | 0 <= k < bi {
        buffer[k] := 0;
      }
    }
    assert buffer[..] == buffer[0..];
  }

  // ---------------------------------------------------------------------
  // Buffer round trip
  // ---------------------------------------------------------------------

  /** Reading a byte sequence as a number and writing it back at the same width gives it back. */
  lemma {:induction false} BytesOfValue(b: seq<byte>)
    ensures BytesOf(BytesValue(b), |b|) == b
    decreases |b|
  {
    if b != [] {
      var init := b[..|b| - 1];
      BytesOfValue(init);
      ModUnique(BytesValue(b), 256, BytesValue(init), b[|b| - 1]);
      assert b == init + [b[|b| - 1]];
    }
  }

  /** An n-byte sequence holds a value below 256^n. */
  lemma {:induction false} BytesValueBound(b: seq<byte>)
    ensures BytesValue(b) < Pow256(|b|)
    decreases |b|
  {
    if b != [] {
      var init := b[..|b| - 1];
      BytesValueBound(init);
      Pow256Succ(|init|);
    }
  }

  lemma Pow2Monotone(a: nat, b: nat)
    requires a <= b
    ensures Pow2(a) <= Pow2(b)
  {
    Pow2Add(a, b - a);
    MulAtLeast(Pow2(a), Pow2(b - a));
  }

  /**
   * Decoding the digits `encodeBuffer` produces for a buffer back into a
   * buffer of the same length restores it, whenever the digits hold all
   * of its bits; the default length always does.
   */
  lemma BufferRoundTrip(b: seq<byte>, length: nat)
    requires length == 0 || 6 * length >= 8 * |b|
    ensures BytesOf(Value(Encode(BytesValue(b), if length > 0 then length else DefaultDigits(|b|))), |b|) == b
  {
    var len := if length > 0 then length else DefaultDigits(|b|);
    EncodeValue(BytesValue(b), len);
    BytesValueBound(b);
    Pow2Monotone(8 * |b|, 6 * len);
    ModUnique(BytesValue(b), Pow64(len), 0, BytesValue(b));
    BytesOfValue(b);
  }
}
