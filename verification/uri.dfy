/**
 * ECMAScript `encodeURIComponent` and `decodeURIComponent` (section 19.2.6 of
 * ECMA-262): percent-encoding of the UTF-8 octets of every character outside
 * the unreserved set, and its inverse, which fails with a URIError on a bad
 * escape or an invalid UTF-8 sequence. A failure is `None`.
 */
module Uri {
  import opened Wrappers

  /** The characters encodeURIComponent copies: letters, digits and - _ . ! ~ * ' ( ). */
  predicate Unreserved(ch: char)
  {
    'A' <= ch <= 'Z' || 'a' <= ch <= 'z' || '0' <= ch <= '9' ||
    ch == '-' || ch == '_' || ch == '.' || ch == '!' || ch == '~' || ch == '*' || ch == '\'' || ch == '(' || ch == ')'
  }

  predicate IsHex(ch: char)
  {
    '0' <= ch <= '9' || 'A' <= ch <= 'F' || 'a' <= ch <= 'f'
  }

  function HexValue(ch: char): (v: nat)
    requires IsHex(ch)
    ensures v < 16
  {
    if ch <= '9' then ch as int - '0' as int
    else if ch <= 'F' then ch as int - 'A' as int + 10
    else ch as int - 'a' as int + 10
  }

  /** The upper-case hexadecimal digit encodeURIComponent writes. */
  function HexDigit(v: nat): (ch: char)
    requires v < 16
    ensures IsHex(ch) && HexValue(ch) == v
  {
    if v < 10 then ('0' as int + v) as char else ('A' as int + v - 10) as char
  }

  /** `%XX` for one octet. */
  function Pct(b: nat): (s: string)
    requires b < 256
    ensures |s| == 3 && s[0] == '%'
  {
    ['%', HexDigit(b / 16), HexDigit(b % 16)]
  }

  /** The UTF-8 octets of a character, in the bit layout of section 3 of RFC 3629. */
  function Utf8(ch: char): (bs: seq<nat>)
    ensures 1 <= |bs| <= 4 && forall k :: 0 <= k < |bs| ==> bs[k] < 256
  {
    var cp := ch as int;
    if cp < 0x80 then [cp]
    else if cp < 0x800 then [0xC0 + cp / 64, 0x80 + cp % 64]
    else if cp < 0x10000 then [0xE0 + cp / 4096, 0x80 + cp / 64 % 64, 0x80 + cp % 64]
    else [0xF0 + cp / 262144, 0x80 + cp / 4096 % 64, 0x80 + cp / 64 % 64, 0x80 + cp % 64]
  }

  function PctAll(bs: seq<nat>): (s: string)
    requires forall k :: 0 <= k < |bs| ==> bs[k] < 256
    ensures |s| == 3 * |bs|
  {
    if bs == [] then [] else Pct(bs[0]) + PctAll(bs[1..])
  }

  function EncodeChar(ch: char): (s: string)
    ensures s != []
  {
    if Unreserved(ch) then [ch] else PctAll(Utf8(ch))
  }

  /** encodeURIComponent. */
  function Encode(s: string): (r: string)
    ensures s == [] <==> r == []
  {
    if s == [] then [] else EncodeChar(s[0]) + Encode(s[1..])
  }

  // ----------------------------------------------------------------- decoding

  /** The octet of a `%XX` escape at the start of `s`. */
  function PctByte(s: string): (r: Option<nat>)
    ensures r.Some? ==> |s| >= 3 && r.value < 256
  {
    if |s| >= 3 && s[0] == '%' && IsHex(s[1]) && IsHex(s[2]) then Some(HexValue(s[1]) * 16 + HexValue(s[2]))
    else None
  }

  /** Number of octets a UTF-8 sequence with this leading octet has; 0 when it cannot lead one. */
  function LeadLength(b: nat): (n: nat)
    ensures n <= 4 && n != 1
  {
    if 0xC0 <= b < 0xE0 then 2 else if 0xE0 <= b < 0xF0 then 3 else if 0xF0 <= b < 0xF8 then 4 else 0
  }

  /** `n` escapes of continuation octets (`10xxxxxx`) at the start of `s`. */
  function Continuations(s: string, n: nat): (r: Option<seq<nat>>)
    ensures r.Some? ==> |r.value| == n && 3 * n <= |s|
    decreases n
  {
    if n == 0 then Some([])
    else
      var b := PctByte(s);
      if b.None? || !(0x80 <= b.value < 0xC0) then None
      else
        var t := Continuations(s[3..], n - 1);
        if t.None? then None else Some([b.value] + t.value)
  }

  /** The payload bits of continuation octets appended to `acc`. */
  function Accumulate(acc: nat, cs: seq<nat>): nat
    decreases |cs|
  {
    if cs == [] then acc else Accumulate(acc * 64 + cs[0] % 64, cs[1..])
  }

  /** The smallest code point a sequence of `n` octets may encode (no overlong forms). */
  function MinCodePoint(n: nat): nat
  {
    if n == 2 then 0x80 else if n == 3 then 0x800 else 0x10000
  }

  /**
   * The character at the start of `s` and the number of characters it takes:
   * itself, or a `%XX` escape of an ASCII octet, or the escapes of a whole
   * UTF-8 sequence that encodes a Unicode scalar value.
   */
  function DecodeChar(s: string): (r: Option<(char, nat)>)
    requires s != []
    ensures r.Some? ==> 1 <= r.value.1 <= |s|
  {
    if s[0] != '%' then Some((s[0], 1))
    else
      var b := PctByte(s);
      if b.None? then None
      else if b.value < 0x80 then Some((b.value as char, 3))
      else
        var n := LeadLength(b.value);
        if n == 0 then None
        else
          var cs := Continuations(s[3..], n - 1);
          if cs.None? then None
          else
            var cp := Accumulate(b.value % (if n == 2 then 32 else if n == 3 then 16 else 8), cs.value);
            if MinCodePoint(n) <= cp <= 0x10FFFF && !(0xD800 <= cp <= 0xDFFF) then Some((cp as char, 3 * n))
            else None
  }

  /** decodeURIComponent; `None` is its URIError. */
  function Decode(s: string): (r: Option<string>)
    decreases |s|
  {
    if s == [] then Some([])
    else
      var d := DecodeChar(s);
      if d.None? then None
      else
        var t := Decode(s[d.value.1..]);
        if t.None? then None else Some([d.value.0] + t.value)
  }

  // --------------------------------------------------------------- round trip

  lemma PctByteOf(b: nat, rest: string)
    requires b < 256
    ensures PctByte(Pct(b) + rest) == Some(b)
    ensures (Pct(b) + rest)[3..] == rest
  {
    var s := Pct(b) + rest;
    assert s[1] == HexDigit(b / 16) && s[2] == HexDigit(b % 16);
  }

  lemma {:induction false} ContinuationsOf(cs: seq<nat>, rest: string)
    requires forall k :: 0 <= k < |cs| ==> 0x80 <= cs[k] < 0xC0
    ensures Continuations(PctAll(cs) + rest, |cs|) == Some(cs)
  {
    if cs != [] {
      var s := PctAll(cs) + rest;
      assert s == Pct(cs[0]) + (PctAll(cs[1..]) + rest);
      PctByteOf(cs[0], PctAll(cs[1..]) + rest);
      ContinuationsOf(cs[1..], rest);
      assert [cs[0]] + cs[1..] == cs;
    }
  }

  /** The octets of a two-, three- or four-octet sequence decode to the code point they came from. */
  lemma Utf8Bits(ch: char)
    requires ch as int >= 0x80
    ensures var bs := Utf8(ch); var n := |bs|;
      LeadLength(bs[0]) == n && Accumulate(bs[0] % (if n == 2 then 32 else if n == 3 then 16 else 8), bs[1..]) == ch as int &&
      MinCodePoint(n) <= ch as int &&
      forall k :: 1 <= k < n ==> 0x80 <= bs[k] < 0xC0
  {
    var cp := ch as int;
    if cp < 0x800 {
      Utf8Two(cp);
    } else if cp < 0x10000 {
      Utf8Three(cp);
    } else {
      Utf8Four(cp);
    }
  }

  lemma Utf8Two(cp: nat)
    requires 0x80 <= cp < 0x800
    ensures LeadLength(0xC0 + cp / 64) == 2 && (0xC0 + cp / 64) % 32 == cp / 64
    ensures Accumulate(cp / 64, [0x80 + cp % 64]) == cp
  {
    Utf8Last(cp);
  }

  lemma Utf8Three(cp: nat)
    requires 0x800 <= cp < 0x10000
    ensures LeadLength(0xE0 + cp / 4096) == 3 && (0xE0 + cp / 4096) % 16 == cp / 4096
    ensures Accumulate(cp / 4096, [0x80 + cp / 64 % 64, 0x80 + cp % 64]) == cp
  {
    var q := cp / 64;
    var top := cp / 4096;
    assert top == q / 64 by {
      DivSixtyFour(cp);
    }
    assert top < 16 by {
      assert cp == 4096 * top + cp % 4096;
    }
    LeadThree(top);
    var b2, b1 := 0x80 + cp % 64, 0x80 + q % 64;
    assert Accumulate(top, [b1, b2]) == Accumulate(q, [b2]) by {
      DigitBack(q, top, b1);
      AccumulateStep(top, b1, [b2]);
      assert [b1] + [b2] == [b1, b2];
    }
    assert Accumulate(q, [b2]) == cp by {
      Utf8Last(cp);
    }
  }

  /** The lead octet of a three-octet sequence carries the top four bits. */
  lemma LeadThree(top: nat)
    requires top < 16
    ensures LeadLength(0xE0 + top) == 3 && (0xE0 + top) % 16 == top
  {
    assert 0xE0 + top == 16 * 14 + top;
  }

  lemma Utf8Four(cp: nat)
    requires 0x10000 <= cp <= 0x10FFFF
    ensures LeadLength(0xF0 + cp / 262144) == 4 && (0xF0 + cp / 262144) % 8 == cp / 262144
    ensures Accumulate(cp / 262144, [0x80 + cp / 4096 % 64, 0x80 + cp / 64 % 64, 0x80 + cp % 64]) == cp
  {
    var q := cp / 64;
    var p := q / 64;
    var top := cp / 262144;
    assert cp / 4096 == p && top == p / 64 && top <= 4 by {
      FourSplit(cp, q, p, top);
    }
    LeadFour(top);
    FourAccumulate(cp, q, p, top);
  }

  /** The three divisions by 64 behind a four-octet sequence. */
  lemma FourSplit(cp: nat, q: nat, p: nat, top: nat)
    requires cp <= 0x10FFFF && q == cp / 64 && p == q / 64 && top == cp / 262144
    ensures cp / 4096 == p && top == p / 64 && top <= 4
  {
    DivSixtyFour(cp);
    assert cp == 262144 * top + cp % 262144;
  }

  /** The lead value and three continuation octets of a four-octet sequence rebuild the code point. */
  lemma FourAccumulate(cp: nat, q: nat, p: nat, top: nat)
    requires q == cp / 64 && p == q / 64 && top == p / 64
    ensures Accumulate(top, [0x80 + p % 64, 0x80 + q % 64, 0x80 + cp % 64]) == cp
  {
    var b3, b2, b1 := 0x80 + cp % 64, 0x80 + q % 64, 0x80 + p % 64;
    assert Accumulate(top, [b1, b2, b3]) == Accumulate(p, [b2, b3]) by {
      DigitBack(p, top, b1);
      AccumulateStep(top, b1, [b2, b3]);
      assert [b1] + [b2, b3] == [b1, b2, b3];
    }
    assert Accumulate(p, [b2, b3]) == Accumulate(q, [b3]) by {
      DigitBack(q, p, b2);
      AccumulateStep(p, b2, [b3]);
      assert [b2] + [b3] == [b2, b3];
    }
    assert Accumulate(q, [b3]) == cp by {
      Utf8Last(cp);
    }
  }

  /** The lead octet of a four-octet sequence carries the top three bits. */
  lemma LeadFour(top: nat)
    requires top <= 4
    ensures LeadLength(0xF0 + top) == 4 && (0xF0 + top) % 8 == top
  {
    assert 0xF0 + top == 8 * 30 + top;
  }

  /** Two divisions by 64 are one division by 4096. */
  lemma DivSixtyFour(n: nat)
    ensures n / 4096 == n / 64 / 64 && n / 262144 == n / 64 / 64 / 64
  {
    var q := n / 64;
    var p := q / 64;
    assert n == 4096 * p + (64 * (q % 64) + n % 64);
    assert n == 262144 * (p / 64) + (4096 * (p % 64) + 64 * (q % 64) + n % 64);
  }

  /** The quotient by 64 and a continuation octet with the remainder give back `q`. */
  lemma DigitBack(q: nat, a: nat, c: nat)
    requires a == q / 64 && c == 0x80 + q % 64
    ensures a * 64 + c % 64 == q
  {
    ContinuationLow(q % 64);
  }

  lemma AccumulateStep(acc: nat, c: nat, rest: seq<nat>)
    ensures Accumulate(acc, [c] + rest) == Accumulate(acc * 64 + c % 64, rest)
  {
    var cs := [c] + rest;
    assert cs[0] == c && cs[1..] == rest;
  }

  lemma Utf8Last(cp: nat)
    ensures Accumulate(cp / 64, [0x80 + cp % 64]) == cp
  {
    var q, r := cp / 64, cp % 64;
    AccumulateOne(q, 0x80 + r);
    ContinuationLow(r);
  }

  lemma ContinuationLow(r: nat)
    requires r < 64
    ensures (0x80 + r) % 64 == r
  {
    assert 0x80 + r == 2 * 64 + r;
  }

  lemma AccumulateOne(acc: nat, c: nat)
    ensures Accumulate(acc, [c]) == acc * 64 + c % 64
  {
    assert [c][1..] == [];
  }

  /** The escapes of one character decode to that character and use up exactly those escapes. */
  lemma DecodeCharOf(ch: char, rest: string)
    ensures DecodeChar(EncodeChar(ch) + rest) == Some((ch, |EncodeChar(ch)|))
  {
    if !Unreserved(ch) {
      var bs := Utf8(ch);
      assert PctAll(bs) == Pct(bs[0]) + PctAll(bs[1..]);
      PctByteOf(bs[0], PctAll(bs[1..]) + rest);
      if ch as int >= 0x80 {
        DecodeMultiOf(ch, rest);
      }
    }
  }

  lemma DecodeMultiOf(ch: char, rest: string)
    requires ch as int >= 0x80
    ensures DecodeChar(PctAll(Utf8(ch)) + rest) == Some((ch, 3 * |Utf8(ch)|))
  {
    var bs := Utf8(ch);
    var s := PctAll(bs) + rest;
    var cs := bs[1..];
    assert PctAll(bs) == Pct(bs[0]) + PctAll(cs);
    assert s == Pct(bs[0]) + (PctAll(cs) + rest);
    PctByteOf(bs[0], PctAll(cs) + rest);
    Utf8Bits(ch);
    ContinuationsOf(cs, rest);
    assert |cs| + 1 == |bs|;
    DecodeLead(s, bs[0], cs, ch);
  }

  /** A leading escape and its continuation escapes decode to the code point they accumulate to. */
  lemma DecodeLead(s: string, b: nat, cs: seq<nat>, ch: char)
    requires PctByte(s) == Some(b) && b >= 0x80 && LeadLength(b) == |cs| + 1
    requires Continuations(s[3..], |cs|) == Some(cs)
    requires var n := |cs| + 1;
      Accumulate(b % (if n == 2 then 32 else if n == 3 then 16 else 8), cs) == ch as int && MinCodePoint(n) <= ch as int
    ensures DecodeChar(s) == Some((ch, 3 * (|cs| + 1)))
  {
  }

  /** One character's escapes in front of `rest`. */
  lemma DecodeCons(ch: char, rest: string)
    ensures var t := Decode(rest);
      Decode(EncodeChar(ch) + rest) == if t.None? then None else Some([ch] + t.value)
  {
    var s := EncodeChar(ch) + rest;
    DecodeCharOf(ch, rest);
    assert s[|EncodeChar(ch)|..] == rest;
  }

  /** decodeURIComponent undoes encodeURIComponent. */
  lemma {:induction false} DecodeEncode(s: string)
    ensures Decode(Encode(s)) == Some(s)
  {
    if s != [] {
      var tl := s[1..];
      var rest := Encode(tl);
      assert Encode(s) == EncodeChar(s[0]) + rest;
      assert Decode(rest) == Some(tl) by {
        DecodeEncode(tl);
      }
      assert Decode(EncodeChar(s[0]) + rest) == Some([s[0]] + tl) by {
        DecodeCons(s[0], rest);
      }
      assert [s[0]] + tl == s;
    }
  }

  // --------------------------------------------------------- encoded alphabet

  /** A character encodeURIComponent may write: an unreserved one, '%' or an upper-case hex digit. */
  predicate EncodedChar(ch: char)
  {
    Unreserved(ch) || ch == '%' || '0' <= ch <= '9' || 'A' <= ch <= 'F'
  }

  /** The encoded alphabet holds no separator of a form body and nothing outside ASCII. */
  lemma EncodedCharIs(ch: char)
    requires EncodedChar(ch)
    ensures ch != '&' && ch != '=' && ch != '+' && ch as int < 0x80
  {
  }

  lemma {:induction false} PctAllAlphabet(bs: seq<nat>)
    requires forall k :: 0 <= k < |bs| ==> bs[k] < 256
    ensures forall k :: 0 <= k < |PctAll(bs)| ==> EncodedChar(PctAll(bs)[k])
    ensures bs != [] ==> PctAll(bs)[|PctAll(bs)| - 1] != '%'
  {
    if bs != [] {
      PctAllAlphabet(bs[1..]);
      var p, t := Pct(bs[0]), PctAll(bs[1..]);
      assert PctAll(bs) == p + t;
      assert forall k :: 0 <= k < |p| ==> EncodedChar(p[k]);
    }
  }

  lemma EncodeCharAlphabet(ch: char)
    ensures forall k :: 0 <= k < |EncodeChar(ch)| ==> EncodedChar(EncodeChar(ch)[k])
    ensures EncodeChar(ch)[|EncodeChar(ch)| - 1] != '%'
  {
    if !Unreserved(ch) {
      PctAllAlphabet(Utf8(ch));
    }
  }

  /** Everything encodeURIComponent writes is ASCII from the encoded alphabet, so never '&', '=' or '+'. */
  lemma {:induction false} EncodeAlphabet(s: string)
    ensures forall k :: 0 <= k < |Encode(s)| ==> EncodedChar(Encode(s)[k])
  {
    if s != [] {
      var tl := s[1..];
      var a, b := EncodeChar(s[0]), Encode(tl);
      assert forall k :: 0 <= k < |a| ==> EncodedChar(a[k]) by {
        EncodeCharAlphabet(s[0]);
      }
      assert forall k :: 0 <= k < |b| ==> EncodedChar(b[k]) by {
        EncodeAlphabet(tl);
      }
      assert Encode(s) == a + b;
      EncodedConcat(a, b);
    }
  }

  /** Two texts from the encoded alphabet make one. */
  lemma EncodedConcat(a: string, b: string)
    requires forall k :: 0 <= k < |a| ==> EncodedChar(a[k])
    requires forall k :: 0 <= k < |b| ==> EncodedChar(b[k])
    ensures forall k :: 0 <= k < |a + b| ==> EncodedChar((a + b)[k])
  {
    forall k | 0 <= k < |a + b|
      ensures EncodedChar((a + b)[k])
    {
      if k < |a| {
        assert (a + b)[k] == a[k];
      } else {
        assert (a + b)[k] == b[k - |a|];
      }
    }
  }

  /** Text without '%' decodes to itself. */
  lemma {:induction false} DecodePlain(s: string)
    requires '%' !in s
    ensures Decode(s) == Some(s)
    decreases |s|
  {
    if s != [] {
      assert DecodeChar(s) == Some((s[0], 1));
      assert s == [s[0]] + s[1..];
      assert '%' !in s[1..] by { assert forall k :: 0 <= k < |s| - 1 ==> s[1..][k] == s[k + 1]; }
      DecodePlain(s[1..]);
    }
  }

  /** A three-octet sequence cut short after its second octet is refused. */
  lemma DecodeTruncated()
    ensures Decode("%E2%82") == None
  {
    var s := "%E2%82";
    assert PctByte(s) == Some(0xE2);
    assert LeadLength(0xE2) == 3;
    assert PctByte(s[3..]) == Some(0x82);
    assert s[3..][3..] == [];
    assert Continuations(s[3..][3..], 1) == None;
    assert Continuations(s[3..], 2) == None;
    assert DecodeChar(s) == None;
  }
}
