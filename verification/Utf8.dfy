/** UTF-8 (section 3 of RFC 3629) as `Buffer.from` and `toString` use it. Decoding replaces each
    maximal subpart of an ill-formed sequence by U+FFFD (section 3.9 of the Unicode Standard). */
module Utf8 {

  type Byte = b: int | 0 <= b < 256

  const REPLACEMENT: char := '\U{FFFD}'

  function EncodeChar(c: char): (r: seq<Byte>)
    ensures 1 <= |r| <= 4
  {
    var n := c as int;
    if n < 0x80 then [n]
    else if n < 0x800 then [0xC0 + n / 64, 0x80 + n % 64]
    else if n < 0x10000 then [0xE0 + n / 4096, 0x80 + n / 64 % 64, 0x80 + n % 64]
    else [0xF0 + n / 262144, 0x80 + n / 4096 % 64, 0x80 + n / 64 % 64, 0x80 + n % 64]
  }

  function Encode(s: string): seq<Byte> {
    if s == "" then [] else EncodeChar(s[0]) + Encode(s[1..])
  }

  // ----- decoding

  /** The length of the sequence a lead byte announces, 0 if it cannot lead one. */
  function Announced(lead: Byte): (n: nat)
    ensures n <= 4
  {
    if lead < 0x80 then 1
    else if 0xC2 <= lead <= 0xDF then 2
    else if 0xE0 <= lead <= 0xEF then 3
    else if 0xF0 <= lead <= 0xF4 then 4
    else 0
  }

  predicate Trailing(b: Byte) {
    0x80 <= b <= 0xBF
  }

  /** The second byte is restricted further so as to exclude overlong forms, surrogates and values
      above U+10FFFF. */
  predicate SecondFits(lead: Byte, second: Byte) {
    && Trailing(second)
    && (lead == 0xE0 ==> 0xA0 <= second)
    && (lead == 0xED ==> second <= 0x9F)
    && (lead == 0xF0 ==> 0x90 <= second)
    && (lead == 0xF4 ==> second <= 0x8F)
  }

  /** How many bytes belong to the first well-formed sequence or maximal subpart. */
  function SubpartLength(bytes: seq<Byte>): (n: nat)
    requires bytes != []
    ensures 1 <= n <= |bytes|
    ensures n <= 4
  {
    var announced := Announced(bytes[0]);
    if announced < 2 || |bytes| < 2 || !SecondFits(bytes[0], bytes[1]) then 1
    else if announced < 3 || |bytes| < 3 || !Trailing(bytes[2]) then 2
    else if announced < 4 || |bytes| < 4 || !Trailing(bytes[3]) then 3
    else 4
  }

  /** What a byte contributes besides its marker bits. */
  function Payload(b: Byte, marker: int): int {
    b - marker
  }

  function DecodeFirst(bytes: seq<Byte>): char
    requires bytes != []
  {
    var n := SubpartLength(bytes);
    if n != Announced(bytes[0]) then REPLACEMENT
    else if n == 1 then bytes[0] as char
    else if n == 2 then (Payload(bytes[0], 0xC0) * 64 + Payload(bytes[1], 0x80)) as char
    else if n == 3 then
      (Payload(bytes[0], 0xE0) * 4096 + Payload(bytes[1], 0x80) * 64 + Payload(bytes[2], 0x80)) as char
    else
      (Payload(bytes[0], 0xF0) * 262144 + Payload(bytes[1], 0x80) * 4096 + Payload(bytes[2], 0x80) * 64
       + Payload(bytes[3], 0x80)) as char
  }

  function Decode(bytes: seq<Byte>): string
    decreases |bytes|
  {
    if bytes == [] then "" else [DecodeFirst(bytes)] + Decode(bytes[SubpartLength(bytes)..])
  }

  // ----- encoding and decoding

  /** An encoded character is well-formed. */
  lemma EncodedShape(c: char)
    ensures var e := EncodeChar(c);
      && Announced(e[0]) == |e|
      && (|e| > 1 ==> SecondFits(e[0], e[1])) && (|e| > 2 ==> Trailing(e[2])) && (|e| > 3 ==> Trailing(e[3]))
  {
  }

  lemma DecodeFirstEncoded(c: char, rest: seq<Byte>)
    ensures var bytes := EncodeChar(c) + rest;
      SubpartLength(bytes) == |EncodeChar(c)| && DecodeFirst(bytes) == c
  {
    var e := EncodeChar(c);
    var bytes := e + rest;
    assert forall i :: 0 <= i < |e| ==> bytes[i] == e[i];
    EncodedShape(c);
    EncodedValue(c);
    hide EncodeChar, Announced, SecondFits, Trailing;
    assert SubpartLength(bytes) == |e|;
  }

  /** The payloads of an encoded character make up its code point. */
  lemma EncodedValue(c: char)
    ensures var e, n := EncodeChar(c), c as int;
      match |e|
      case 1 => n == e[0]
      case 2 => n == Payload(e[0], 0xC0) * 64 + Payload(e[1], 0x80)
      case 3 => n == Payload(e[0], 0xE0) * 4096 + Payload(e[1], 0x80) * 64 + Payload(e[2], 0x80)
      case _ =>
        n == Payload(e[0], 0xF0) * 262144 + Payload(e[1], 0x80) * 4096 + Payload(e[2], 0x80) * 64 + Payload(e[3], 0x80)
  {
    var n := c as int;
    Nested(n);
    assert n == n / 64 * 64 + n % 64;
    assert n / 64 == n / 64 / 64 * 64 + n / 64 % 64;
    assert n / 64 / 64 == n / 64 / 64 / 64 * 64 + n / 4096 % 64;
  }

  lemma {:induction false} DecodeEncoded(s: string, rest: seq<Byte>)
    ensures Decode(Encode(s) + rest) == s + Decode(rest)
  {
    hide EncodeChar, DecodeFirst, SubpartLength;
    if s == "" {
      assert Encode(s) + rest == rest;
    } else {
      var first, tail := EncodeChar(s[0]), Encode(s[1..]) + rest;
      DecodeEncoded(s[1..], rest);
      DecodeFirstEncoded(s[0], tail);
      assert Encode(s) + rest == first + tail;
      assert (first + tail)[|first|..] == tail;
      assert s + Decode(rest) == [s[0]] + (s[1..] + Decode(rest));
    }
  }

  /** Every string survives encoding and decoding. */
  lemma {:induction false} RoundTrip(s: string)
    ensures Decode(Encode(s)) == s
  {
    DecodeEncoded(s, []);
    assert Encode(s) + [] == Encode(s);
  }

  lemma {:induction false} EncodeConcat(a: string, b: string)
    ensures Encode(a + b) == Encode(a) + Encode(b)
  {
    if a == "" {
      assert a + b == b;
    } else {
      hide EncodeChar;
      EncodeConcat(a[1..], b);
      var first, middle, last := EncodeChar(a[0]), Encode(a[1..]), Encode(b);
      assert (a + b)[1..] == a[1..] + b && (a + b)[0] == a[0];
      assert Encode(a + b) == first + Encode(a[1..] + b);
      assert (first + middle) + last == first + (middle + last);
    }
  }

  lemma Digits(high: int, low: int)
    requires 0 <= low < 64
    ensures (high * 64 + low) / 64 == high && (high * 64 + low) % 64 == low
  {
  }

  lemma DecodeTwo(bytes: seq<Byte>)
    requires bytes != [] && SubpartLength(bytes) == 2 == Announced(bytes[0])
    ensures bytes[..2] == EncodeChar(DecodeFirst(bytes))
  {
    Digits(Payload(bytes[0], 0xC0), Payload(bytes[1], 0x80));
  }

  lemma DecodeThree(bytes: seq<Byte>)
    requires bytes != [] && SubpartLength(bytes) == 3 == Announced(bytes[0])
    ensures bytes[..3] == EncodeChar(DecodeFirst(bytes))
  {
    var a, b, c := Payload(bytes[0], 0xE0), Payload(bytes[1], 0x80), Payload(bytes[2], 0x80);
    Digits(a, b);
    Digits(a * 64 + b, c);
    assert DecodeFirst(bytes) as int == (a * 64 + b) * 64 + c;
    Nested(DecodeFirst(bytes) as int);
  }

  lemma DecodeFour(bytes: seq<Byte>)
    requires bytes != [] && SubpartLength(bytes) == 4 == Announced(bytes[0])
    ensures bytes[..4] == EncodeChar(DecodeFirst(bytes))
  {
    var a, b, c, d :=
      Payload(bytes[0], 0xF0), Payload(bytes[1], 0x80), Payload(bytes[2], 0x80), Payload(bytes[3], 0x80);
    Digits(a, b);
    Digits(a * 64 + b, c);
    Digits((a * 64 + b) * 64 + c, d);
    assert DecodeFirst(bytes) as int == ((a * 64 + b) * 64 + c) * 64 + d;
    Nested(DecodeFirst(bytes) as int);
  }

  lemma Nested(n: nat)
    ensures n / 4096 == n / 64 / 64 && n / 262144 == n / 64 / 64 / 64
  {
  }

  /** What decodes to anything but the replacement character is the encoding of that character. */
  lemma DecodeFirstIsEncoded(bytes: seq<Byte>)
    requires bytes != []
    ensures DecodeFirst(bytes) == REPLACEMENT || bytes[..SubpartLength(bytes)] == EncodeChar(DecodeFirst(bytes))
  {
    var n := SubpartLength(bytes);
    if n == Announced(bytes[0]) {
      if n == 2 {
        DecodeTwo(bytes);
      } else if n == 3 {
        DecodeThree(bytes);
      } else if n == 4 {
        DecodeFour(bytes);
      }
    }
  }

  // ----- cutting in the middle

  /** Whatever is left of a character that was cut decodes to one replacement character. */
  lemma DecodeCutChar(c: char, n: nat)
    requires 0 < n < |EncodeChar(c)|
    ensures Decode(EncodeChar(c)[..n]) == [REPLACEMENT]
  {
    var e := EncodeChar(c);
    var bytes := e[..n];
    assert forall i :: 0 <= i < n ==> bytes[i] == e[i];
    EncodedShape(c);
    hide EncodeChar, Announced, SecondFits, Trailing;
    assert SubpartLength(bytes) == n;
    assert bytes[n..] == [];
  }

  /** How many whole characters fit into `n` bytes. */
  function WholeChars(s: string, n: nat): (k: nat)
    ensures k <= |s|
  {
    if s == "" || |EncodeChar(s[0])| > n then 0 else 1 + WholeChars(s[1..], n - |EncodeChar(s[0])|)
  }

  /** How many bytes of the next character are left when cutting after `n` bytes: 0 exactly if the
      cut falls on a character boundary. */
  function LeftOver(s: string, n: nat): (p: nat)
    ensures p <= n
    ensures n <= |Encode(s)| ==> p < 4
  {
    if s == "" then 0
    else if |EncodeChar(s[0])| > n then n
    else LeftOver(s[1..], n - |EncodeChar(s[0])|)
  }

  lemma {:induction false} CutSplits(s: string, n: nat)
    requires n <= |Encode(s)|
    ensures var k := WholeChars(s, n); var p := LeftOver(s, n);
      && n == |Encode(s[..k])| + p
      && (p > 0 ==> k < |s| && p < |EncodeChar(s[k])| && Encode(s)[..n] == Encode(s[..k]) + EncodeChar(s[k])[..p])
      && (p == 0 ==> Encode(s)[..n] == Encode(s[..k]))
  {
    hide EncodeChar;
    if s == "" {
    } else {
      var first, rest := EncodeChar(s[0]), Encode(s[1..]);
      if |first| > n {
        assert (first + rest)[..n] == first[..n];
        assert s[..0] == "";
      } else {
        var m := n - |first|;
        CutSplits(s[1..], m);
        var k := WholeChars(s[1..], m);
        EncodeTake(s, k);
        assert (first + rest)[..n] == first + rest[..m];
        assert s[1..][..k] == s[1..k + 1];
        if LeftOver(s, n) > 0 {
          var cut := EncodeChar(s[1..][k])[..LeftOver(s, n)];
          assert first + (Encode(s[1..][..k]) + cut) == (first + Encode(s[1..][..k])) + cut;
        }
      }
    }
  }

  lemma EncodeTake(s: string, k: nat)
    requires k < |s|
    ensures Encode(s[..k + 1]) == EncodeChar(s[0]) + Encode(s[1..][..k])
  {
    assert s[..k + 1][1..] == s[1..][..k] && s[..k + 1][0] == s[0];
  }

  /** Cutting an encoded string and decoding it gives the characters that fit, followed by one
      replacement character if the cut went through the next one. */
  lemma DecodeCut(s: string, n: nat)
    requires n <= |Encode(s)|
    ensures Decode(Encode(s)[..n]) ==
      s[..WholeChars(s, n)] + if LeftOver(s, n) > 0 then [REPLACEMENT] else []
  {
    var k, p := WholeChars(s, n), LeftOver(s, n);
    CutSplits(s, n);
    if p > 0 {
      DecodeEncoded(s[..k], EncodeChar(s[k])[..p]);
      DecodeCutChar(s[k], p);
    } else {
      RoundTrip(s[..k]);
    }
  }
}
