/** Base64 in the two forms the SSH tool uses: padded standard (RFC 4648, section 4) and unpadded
    URL-safe (section 5). Decoding skips line breaks and does not insist on zero trailing bits. */
module Base64 {
  import opened Collections

  type Byte = b: int | 0 <= b < 256
  type Sextet = v: int | 0 <= v < 64

  datatype Encoding = StdEncoding | RawURLEncoding

  const PAD := '='

  function Alphabet(enc: Encoding, v: Sextet): char {
    if v < 26 then ('A' as int + v) as char
    else if v < 52 then ('a' as int + v - 26) as char
    else if v < 62 then ('0' as int + v - 52) as char
    else if v == 62 then (if enc.StdEncoding? then '+' else '-')
    else (if enc.StdEncoding? then '/' else '_')
  }

  function ValueOf(enc: Encoding, c: char): Option<Sextet> {
    if 'A' <= c <= 'Z' then Some(c as int - 'A' as int)
    else if 'a' <= c <= 'z' then Some(c as int - 'a' as int + 26)
    else if '0' <= c <= '9' then Some(c as int - '0' as int + 52)
    else if c == (if enc.StdEncoding? then '+' else '-') then Some(62)
    else if c == (if enc.StdEncoding? then '/' else '_') then Some(63)
    else None
  }

  /** The alphabet is one to one, and has neither padding, spaces nor line breaks in it. */
  lemma AlphabetInverse(enc: Encoding, v: Sextet)
    ensures ValueOf(enc, Alphabet(enc, v)) == Some(v)
    ensures IsTextChar(Alphabet(enc, v)) && Alphabet(enc, v) != PAD
  {
  }

  predicate IsTextChar(c: char) {
    c != ' ' && c != '\n' && c != '\r'
  }

  function Padding(enc: Encoding, n: nat): string {
    if enc.RawURLEncoding? then "" else seq(n, _ => PAD)
  }

  function Group(enc: Encoding, b0: Byte, b1: Byte, b2: Byte): string {
    [Alphabet(enc, b0 / 4), Alphabet(enc, b0 % 4 * 16 + b1 / 16),
     Alphabet(enc, b1 % 16 * 4 + b2 / 64), Alphabet(enc, b2 % 64)]
  }

  /** EncodeToString */
  function Encode(enc: Encoding, b: seq<Byte>): string {
    if |b| == 0 then ""
    else if |b| == 1 then Group(enc, b[0], 0, 0)[..2] + Padding(enc, 2)
    else if |b| == 2 then Group(enc, b[0], b[1], 0)[..3] + Padding(enc, 1)
    else Group(enc, b[0], b[1], b[2]) + Encode(enc, b[3..])
  }

  function StripNewlines(s: string): string {
    if s == "" then ""
    else (if s[0] == '\n' || s[0] == '\r' then "" else [s[0]]) + StripNewlines(s[1..])
  }

  /** The values of a group of characters, if all are in the alphabet. */
  function Values(enc: Encoding, s: string): (r: Option<seq<Sextet>>)
    ensures r.Some? ==> |r.value| == |s|
  {
    if s == "" then Some([])
    else match (ValueOf(enc, s[0]), Values(enc, s[1..]))
      case (Some(v), Some(vs)) => Some([v] + vs)
      case _ => None
  }

  /** The first n - 1 bytes held by n sextets. */
  function Bytes(v: seq<Sextet>): (r: seq<Byte>)
    requires 2 <= |v| <= 4
    ensures |r| == |v| - 1
  {
    var (v0: int, v1: int) := (v[0], v[1]);
    if |v| == 2 then [v0 * 4 + v1 / 16]
    else
      var v2: int := v[2];
      if |v| == 3 then [v0 * 4 + v1 / 16, v1 % 16 * 16 + v2 / 4]
      else
        var v3: int := v[3];
        [v0 * 4 + v1 / 16, v1 % 16 * 16 + v2 / 4, v2 % 4 * 64 + v3]
  }

  function DecodeTail(enc: Encoding, s: string): Option<seq<Byte>> {
    var n :=
      if enc.RawURLEncoding? then |s|
      else if |s| == 4 && s[2] == PAD && s[3] == PAD then 2
      else if |s| == 4 && s[3] == PAD then 3
      else 0;
    if n != 2 && n != 3 then None
    else match Values(enc, s[..n])
      case None => None
      case Some(v) => Some(Bytes(v))
  }

  function DecodeChars(enc: Encoding, s: string): Option<seq<Byte>> {
    if s == "" then Some([])
    else if |s| >= 4 && Values(enc, s[..4]).Some? then
      match DecodeChars(enc, s[4..])
      case None => None
      case Some(rest) => Some(Bytes(Values(enc, s[..4]).value) + rest)
    else DecodeTail(enc, s)
  }

  /** DecodeString; None for a CorruptInputError. */
  function Decode(enc: Encoding, text: string): Option<seq<Byte>> {
    DecodeChars(enc, StripNewlines(text))
  }

  // ----- round trip

  function Sextets(b0: Byte, b1: Byte, b2: Byte): seq<Sextet> {
    [b0 / 4, b0 % 4 * 16 + b1 / 16, b1 % 16 * 4 + b2 / 64, b2 % 64]
  }

  lemma GroupValues(enc: Encoding, b0: Byte, b1: Byte, b2: Byte, n: nat)
    requires 2 <= n <= 4
    ensures Values(enc, Group(enc, b0, b1, b2)[..n]) == Some(Sextets(b0, b1, b2)[..n])
  {
    var v := Sextets(b0, b1, b2);
    assert Group(enc, b0, b1, b2) == AlphabetOf(enc, v);
    assert AlphabetOf(enc, v)[..n] == AlphabetOf(enc, v[..n]);
    ValuesInverse(enc, v[..n]);
  }

  function AlphabetOf(enc: Encoding, v: seq<Sextet>): string {
    seq(|v|, k requires 0 <= k < |v| => Alphabet(enc, v[k]))
  }

  lemma {:induction false} ValuesInverse(enc: Encoding, v: seq<Sextet>)
    ensures Values(enc, AlphabetOf(enc, v)) == Some(v)
  {
    if v != [] {
      AlphabetInverse(enc, v[0]);
      ValuesInverse(enc, v[1..]);
      assert AlphabetOf(enc, v)[1..] == AlphabetOf(enc, v[1..]);
      assert [v[0]] + v[1..] == v;
    }
  }

  lemma GroupBytes(b0: Byte, b1: Byte, b2: Byte)
    ensures Bytes(Sextets(b0, b1, b2)[..4]) == [b0, b1, b2]
    ensures Bytes(Sextets(b0, b1, 0)[..3]) == [b0, b1]
    ensures Bytes(Sextets(b0, 0, 0)[..2]) == [b0]
  {
  }

  lemma DecodeGroup(enc: Encoding, b0: Byte, b1: Byte, b2: Byte, rest: string)
    requires DecodeChars(enc, rest).Some?
    ensures DecodeChars(enc, Group(enc, b0, b1, b2) + rest)
         == Some([b0, b1, b2] + DecodeChars(enc, rest).value)
  {
    var s := Group(enc, b0, b1, b2) + rest;
    assert s[..4] == Group(enc, b0, b1, b2)[..4] && s[4..] == rest;
    GroupValues(enc, b0, b1, b2, 4);
    GroupBytes(b0, b1, b2);
  }

  lemma {:induction false} DecodeCharsEncode(enc: Encoding, b: seq<Byte>)
    ensures DecodeChars(enc, Encode(enc, b)) == Some(b)
    decreases |b|
  {
    if |b| == 1 || |b| == 2 {
      TailRoundTrip(enc, b);
    } else if |b| >= 3 {
      DecodeCharsEncode(enc, b[3..]);
      DecodeGroup(enc, b[0], b[1], b[2], Encode(enc, b[3..]));
      assert b == [b[0], b[1], b[2]] + b[3..];
    }
  }

  lemma TailRoundTrip(enc: Encoding, b: seq<Byte>)
    requires 1 <= |b| <= 2
    ensures DecodeChars(enc, Encode(enc, b)) == Some(b)
  {
    var s := Encode(enc, b);
    var b1 := if |b| == 2 then b[1] else 0;
    var n := |b| + 1;
    GroupValues(enc, b[0], b1, 0, n);
    GroupBytes(b[0], b1, 0);
    assert s[..n] == Group(enc, b[0], b1, 0)[..n];
    assert Values(enc, s[..n]) == Some(Sextets(b[0], b1, 0)[..n]);
    if enc.StdEncoding? {
      assert s[3] == PAD && (n == 2 ==> s[2] == PAD);
      PadHasNoValue(enc, s[..4], 3);
      if n == 3 {
        PadIsNoAlphabet(enc, b1 % 16 * 4);
      }
    }
    assert DecodeChars(enc, s) == DecodeTail(enc, s);
    assert b == if |b| == 1 then [b[0]] else [b[0], b1];
  }

  lemma PadIsNoAlphabet(enc: Encoding, v: Sextet)
    ensures Alphabet(enc, v) != PAD
  {
    AlphabetInverse(enc, v);
  }

  lemma {:induction false} PadHasNoValue(enc: Encoding, s: string, k: nat)
    requires k < |s| && s[k] == PAD
    ensures Values(enc, s).None?
  {
    if k > 0 {
      PadHasNoValue(enc, s[1..], k - 1);
    }
  }

  lemma {:induction false} EncodeIsText(enc: Encoding, b: seq<Byte>)
    ensures forall k :: 0 <= k < |Encode(enc, b)| ==> IsTextChar(Encode(enc, b)[k])
    decreases |b|
  {
    forall v: Sextet
      ensures IsTextChar(Alphabet(enc, v))
    {
      AlphabetInverse(enc, v);
    }
    if |b| >= 3 {
      EncodeIsText(enc, b[3..]);
    }
  }

  lemma {:induction false} NothingToStrip(s: string)
    requires forall k :: 0 <= k < |s| ==> IsTextChar(s[k])
    ensures StripNewlines(s) == s
  {
    if s != "" {
      NothingToStrip(s[1..]);
    }
  }

  lemma {:induction false} StripConcat(a: string, b: string)
    ensures StripNewlines(a + b) == StripNewlines(a) + StripNewlines(b)
  {
    if a == "" {
      assert a + b == b;
    } else {
      StripConcat(a[1..], b);
      assert (a + b)[1..] == a[1..] + b;
      var first := if a[0] == '\n' || a[0] == '\r' then "" else [a[0]];
      Regroup(first, StripNewlines(a[1..]), StripNewlines(b));
    }
  }

  lemma {:induction false} NothingButBreaks(breaks: string)
    requires forall k :: 0 <= k < |breaks| ==> breaks[k] == '\n' || breaks[k] == '\r'
    ensures StripNewlines(breaks) == ""
  {
    if breaks != "" {
      NothingButBreaks(breaks[1..]);
    }
  }

  /** decode(encode(b)) = b for every byte string, in both encodings, with or without line breaks
      after the text. */
  lemma DecodeEncode(enc: Encoding, b: seq<Byte>, breaks: string)
    requires forall k :: 0 <= k < |breaks| ==> breaks[k] == '\n' || breaks[k] == '\r'
    ensures Decode(enc, Encode(enc, b) + breaks) == Some(b)
  {
    EncodeIsText(enc, b);
    NothingToStrip(Encode(enc, b));
    StripConcat(Encode(enc, b), breaks);
    NothingButBreaks(breaks);
    assert Encode(enc, b) + "" == Encode(enc, b);
    DecodeCharsEncode(enc, b);
  }

  // ----- what the text says

  /** Byte i, and zeros after the end. */
  function ByteAt(b: seq<Byte>, i: nat): Byte {
    if i < |b| then b[i] else 0
  }

  /** The 24 bits of the g-th three bytes, as a number. */
  function GroupNumber(b: seq<Byte>, g: nat): nat {
    ByteAt(b, 3 * g) * 0x1_0000 + ByteAt(b, 3 * g + 1) * 0x100 + ByteAt(b, 3 * g + 2)
  }

  /** The j-th six of 24 bits, from the top. */
  function SixBits(n: nat, j: nat): (v: Sextet)
    requires n < 0x100_0000 && j < 4
  {
    if j == 0 then n / 0x4_0000 else if j == 1 then n / 0x1000 % 64 else if j == 2 then n / 64 % 64 else n % 64
  }

  function CharsFor(n: nat): nat {
    (4 * n + 2) / 3
  }

  lemma FirstSix(b0: Byte, low: nat)
    requires low < 0x1_0000
    ensures (b0 * 0x1_0000 + low) / 0x4_0000 == b0 / 4
  {
    assert b0 * 0x1_0000 + low == b0 / 4 * 0x4_0000 + (b0 % 4 * 0x1_0000 + low);
  }

  lemma MiddleSix(high: nat, low: nat)
    requires low < 64
    ensures (high * 64 + low) / 64 == high && (high * 64 + low) % 64 == low
  {
  }

  lemma SixBitsOfGroup(b0: Byte, b1: Byte, b2: Byte, j: nat)
    requires j < 4
    ensures SixBits(b0 * 0x1_0000 + b1 * 0x100 + b2, j) == Sextets(b0, b1, b2)[j]
  {
    var v := Sextets(b0, b1, b2);
    var n := b0 * 0x1_0000 + b1 * 0x100 + b2;
    var first: nat, second: nat, third: nat := v[0], v[1], v[2];
    assert n == ((first * 64 + second) * 64 + third) * 64 + v[3];
    FirstSix(b0, b1 * 0x100 + b2);
    MiddleSix((first * 64 + second) * 64 + third, v[3]);
    MiddleSix(first * 64 + second, third);
    MiddleSix(first, second);
    assert n / 0x1000 == first * 64 + second;
  }

  lemma GroupSays(enc: Encoding, b: seq<Byte>, j: nat)
    requires j < 4
    ensures Group(enc, ByteAt(b, 0), ByteAt(b, 1), ByteAt(b, 2))[j] == Alphabet(enc, SixBits(GroupNumber(b, 0), j))
  {
    SixBitsOfGroup(ByteAt(b, 0), ByteAt(b, 1), ByteAt(b, 2), j);
  }

  lemma {:induction false} EncodeLength(enc: Encoding, b: seq<Byte>)
    ensures |Encode(enc, b)| == if enc.RawURLEncoding? then CharsFor(|b|) else (|b| + 2) / 3 * 4
    decreases |b|
  {
    if |b| >= 3 {
      EncodeLength(enc, b[3..]);
      ThreeMore(|b| - 3);
    }
  }

  lemma ThreeMore(n: nat)
    ensures CharsFor(n + 3) == CharsFor(n) + 4
    ensures (n + 3 + 2) / 3 * 4 == (n + 2) / 3 * 4 + 4
  {
  }

  lemma NextGroup(b: seq<Byte>, g: nat)
    requires |b| >= 3
    ensures GroupNumber(b, g + 1) == GroupNumber(b[3..], g)
  {
    assert 3 * (g + 1) == 3 * g + 3;
  }

  /** The j-th character due for the g-th three bytes: that of the six bits there, or padding. */
  function CharacterOf(enc: Encoding, b: seq<Byte>, g: nat, j: nat): char
    requires j < 4
  {
    if 4 * g + j < CharsFor(|b|) then Alphabet(enc, SixBits(GroupNumber(b, g), j)) else PAD
  }

  /** RFC 4648, sections 4 and 5: each three bytes make four characters, six bits each from the top; the
      last one or two bytes make two or three, zero bits filling the last; and the padded form is filled
      up to a multiple of four. */
  lemma {:induction false} EncodeSays(enc: Encoding, b: seq<Byte>, g: nat, j: nat)
    requires j < 4 && 4 * g + j < |Encode(enc, b)|
    ensures Encode(enc, b)[4 * g + j] == CharacterOf(enc, b, g, j)
    decreases |b|
  {
    if g == 0 {
      FirstGroupSays(enc, b, j);
    } else {
      LaterGroup(enc, b, g - 1, j);
      EncodeSays(enc, b[3..], g - 1, j);
      LaterGroupSays(enc, b, g - 1, j);
    }
  }

  lemma LaterGroupSays(enc: Encoding, b: seq<Byte>, g: nat, j: nat)
    requires |b| >= 3 && j < 4
    ensures CharacterOf(enc, b, g + 1, j) == CharacterOf(enc, b[3..], g, j)
  {
    NextGroup(b, g);
    ThreeMore(|b| - 3);
  }

  lemma LaterGroup(enc: Encoding, b: seq<Byte>, g: nat, j: nat)
    requires j < 4 && 4 * g + 4 + j < |Encode(enc, b)|
    ensures |b| >= 3 && |Encode(enc, b)| == |Encode(enc, b[3..])| + 4
    ensures Encode(enc, b)[4 * g + 4 + j] == Encode(enc, b[3..])[4 * g + j]
  {
  }

  lemma FirstGroupSays(enc: Encoding, b: seq<Byte>, j: nat)
    requires j < 4 && j < |Encode(enc, b)|
    ensures Encode(enc, b)[j] == CharacterOf(enc, b, 0, j)
  {
    GroupSays(enc, b, j);
  }

  // ----- the alphabets

  const LETTERS_AND_DIGITS :=
    "ABCDEFGHIJKLMNOPQRSTUVWXYZ" + "abcdefghijklmnopqrstuvwxyz" + "0123456789"

  lemma UpperCase(v: nat)
    requires v < 26
    ensures "ABCDEFGHIJKLMNOPQRSTUVWXYZ"[v] == ('A' as int + v) as char
  {
  }

  lemma LowerCase(v: nat)
    requires v < 26
    ensures "abcdefghijklmnopqrstuvwxyz"[v] == ('a' as int + v) as char
  {
  }

  lemma Digit(v: nat)
    requires v < 10
    ensures "0123456789"[v] == ('0' as int + v) as char
  {
  }

  /** The characters of RFC 4648, tables 1 and 2, in order. */
  lemma AlphabetInOrder(v: Sextet)
    ensures |LETTERS_AND_DIGITS| == 62
    ensures Alphabet(StdEncoding, v) == (LETTERS_AND_DIGITS + "+/")[v]
    ensures Alphabet(RawURLEncoding, v) == (LETTERS_AND_DIGITS + "-_")[v]
  {
    if v < 26 {
      UpperCase(v);
    } else if v < 52 {
      LowerCase(v - 26);
    } else if v < 62 {
      Digit(v - 52);
    }
  }

  predicate IsUrlSafe(c: char) {
    'A' <= c <= 'Z' || 'a' <= c <= 'z' || '0' <= c <= '9' || c == '-' || c == '_'
  }

  /** The unpadded form can stand in a URL as it is. */
  lemma UrlSafe(b: seq<Byte>)
    ensures forall k :: 0 <= k < |Encode(RawURLEncoding, b)| ==> IsUrlSafe(Encode(RawURLEncoding, b)[k])
  {
    EncodeLength(RawURLEncoding, b);
    forall k | 0 <= k < |Encode(RawURLEncoding, b)|
      ensures IsUrlSafe(Encode(RawURLEncoding, b)[k])
    {
      EncodeSays(RawURLEncoding, b, k / 4, k % 4);
      AlphabetUrlSafe(SixBits(GroupNumber(b, k / 4), k % 4));
    }
  }

  lemma AlphabetUrlSafe(v: Sextet)
    ensures IsUrlSafe(Alphabet(RawURLEncoding, v))
  {
  }

  // ----- which texts decode

  /** The character stands for some six bits. */
  predicate InAlphabet(enc: Encoding, c: char) {
    exists v: Sextet | 0 <= v < 64 :: Alphabet(enc, v) == c
  }

  lemma InAlphabetHasValue(enc: Encoding, c: char)
    ensures InAlphabet(enc, c) <==> ValueOf(enc, c).Some?
  {
    if ValueOf(enc, c).Some? {
      assert Alphabet(enc, ValueOf(enc, c).value) == c;
    }
    if v: Sextet :| Alphabet(enc, v) == c {
      AlphabetInverse(enc, v);
    }
  }

  /** n characters of the alphabet, never one more than a multiple of four, and then the padding. */
  predicate IsPadded(enc: Encoding, s: string, n: nat) {
    && n <= |s| && n % 4 != 1
    && (forall k :: 0 <= k < n ==> InAlphabet(enc, s[k]))
    && s[n..] == Padding(enc, (4 - n % 4) % 4)
  }

  ghost predicate IsWellFormed(enc: Encoding, s: string) {
    exists n: nat :: IsPadded(enc, s, n)
  }

  lemma {:induction false} ValuesExactly(enc: Encoding, s: string)
    ensures Values(enc, s).Some? <==> forall k :: 0 <= k < |s| ==> InAlphabet(enc, s[k])
  {
    if s != "" {
      ValuesExactly(enc, s[1..]);
      InAlphabetHasValue(enc, s[0]);
      assert s == [s[0]] + s[1..];
    }
  }

  lemma PadNotInAlphabet(enc: Encoding)
    ensures !InAlphabet(enc, PAD)
  {
    InAlphabetHasValue(enc, PAD);
  }

  lemma {:induction false} CharsDecodeExactly(enc: Encoding, s: string)
    ensures DecodeChars(enc, s).Some? <==> IsWellFormed(enc, s)
    decreases |s|
  {
    if s == "" {
      assert IsPadded(enc, s, 0);
    } else if |s| >= 4 && Values(enc, s[..4]).Some? {
      CharsDecodeExactly(enc, s[4..]);
      FirstFourExactly(enc, s);
      FourMore(enc, s);
    } else {
      TailDecodesExactly(enc, s);
    }
  }

  lemma FourMore(enc: Encoding, s: string)
    requires |s| >= 4 && forall k :: 0 <= k < 4 ==> InAlphabet(enc, s[k])
    ensures IsWellFormed(enc, s) <==> IsWellFormed(enc, s[4..])
  {
    if n: nat :| IsPadded(enc, s, n) {
      NotInTheFirstFour(enc, s, n);
      WithoutFour(enc, s, n);
    }
    if n: nat :| IsPadded(enc, s[4..], n) {
      WithFour(enc, s, n);
    }
  }

  lemma WithoutFour(enc: Encoding, s: string, n: nat)
    requires n >= 4 && IsPadded(enc, s, n)
    ensures IsPadded(enc, s[4..], n - 4)
  {
    assert s[4..][n-4..] == s[n..];
  }

  lemma WithFour(enc: Encoding, s: string, n: nat)
    requires |s| >= 4 && (forall k :: 0 <= k < 4 ==> InAlphabet(enc, s[k])) && IsPadded(enc, s[4..], n)
    ensures IsPadded(enc, s, n + 4)
  {
    assert s[4..][n..] == s[n+4..];
    forall k | 0 <= k < n + 4
      ensures InAlphabet(enc, s[k])
    {
      assert k >= 4 ==> s[k] == s[4..][k-4];
    }
  }

  lemma FirstFourExactly(enc: Encoding, s: string)
    requires |s| >= 4
    ensures Values(enc, s[..4]).Some? <==> forall k :: 0 <= k < 4 ==> InAlphabet(enc, s[k])
  {
    ValuesExactly(enc, s[..4]);
    assert forall k :: 0 <= k < 4 ==> s[..4][k] == s[k];
  }

  lemma PadFollows(enc: Encoding, s: string, n: nat)
    requires IsPadded(enc, s, n) && n < |s|
    ensures s[n] == PAD
  {
    assert s[n] == s[n..][0];
  }

  lemma NotInTheFirstFour(enc: Encoding, s: string, n: nat)
    requires |s| >= 4 && (forall k :: 0 <= k < 4 ==> InAlphabet(enc, s[k])) && IsPadded(enc, s, n)
    ensures n >= 4
  {
    PadNotInAlphabet(enc);
    if n < 4 {
      PadFollows(enc, s, n);
    }
  }

  lemma TailDecodesExactly(enc: Encoding, s: string)
    requires s != "" && (|s| >= 4 ==> Values(enc, s[..4]).None?)
    ensures DecodeTail(enc, s).Some? <==> IsWellFormed(enc, s)
  {
    PadNotInAlphabet(enc);
    if n: nat :| IsPadded(enc, s, n) {
      ShortTail(enc, s, n);
    }
    if DecodeTail(enc, s).Some? {
      var n := if enc.RawURLEncoding? then |s| else if s[2] == PAD then 2 else 3;
      ValuesExactly(enc, s[..n]);
      forall k | 0 <= k < n
        ensures InAlphabet(enc, s[k])
      {
        assert s[..n][k] == s[k];
      }
      assert IsPadded(enc, s, n);
    }
  }

  lemma ShortTail(enc: Encoding, s: string, n: nat)
    requires s != "" && (|s| >= 4 ==> Values(enc, s[..4]).None?) && IsPadded(enc, s, n)
    ensures DecodeTail(enc, s).Some?
  {
    if |s| >= 4 {
      FirstFourExactly(enc, s);
    }
    assert n < 4;
    ValuesExactly(enc, s[..n]);
    assert forall k :: 0 <= k < n ==> s[..n][k] == s[k];
    if enc.StdEncoding? && n == 2 {
      assert s[2] == s[n..][0] && s[3] == s[n..][1];
    } else if enc.StdEncoding? && n == 3 {
      assert s[3] == s[n..][0] && s[2] != PAD by {
        PadNotInAlphabet(enc);
      }
    }
  }

  /** A text decodes exactly if, line breaks aside, it is characters of the alphabet and the padding due. */
  lemma DecodesExactly(enc: Encoding, text: string)
    ensures Decode(enc, text).Some? <==> IsWellFormed(enc, StripNewlines(text))
  {
    CharsDecodeExactly(enc, StripNewlines(text));
  }

  /** Line breaks make no difference anywhere in a text. */
  lemma LineBreaksSkipped(enc: Encoding, a: string, breaks: string, b: string)
    requires forall k :: 0 <= k < |breaks| ==> breaks[k] == '\n' || breaks[k] == '\r'
    ensures Decode(enc, a + breaks + b) == Decode(enc, a + b)
  {
    NothingButBreaks(breaks);
    StripConcat(a + breaks, b);
    StripConcat(a, breaks);
    StripConcat(a, b);
    assert StripNewlines(a) + "" == StripNewlines(a);
  }
}
