/**
 * The POST-body converters of the web scenario step form: name/value pairs to
 * an `application/x-www-form-urlencoded` body and back. Each converter is a
 * method with the loop of the page script, proved equal to a specification
 * function; the round trip is proved about the functions.
 */
module WebScenario {
  import opened Wrappers
  import opened Strings
  import opened Uri

  datatype Pair = Pair(name: string, value: string)

  /**
   * What the converters throw: "Values without names are not allowed in form
   * fields.", "Name of the form field should not exceed 255 characters.",
   * "Data is not properly encoded." and the URIError of decodeURIComponent.
   */
  datatype FormError = Unnamed | NameTooLong | NotEncoded | UriError

  /** `s.replace(/c/g, t)`. */
  function ReplaceAll(s: string, c: char, t: string): (r: string)
    ensures c !in s ==> r == s
  {
    if s == [] then [] else (if s[0] == c then t else [s[0]]) + ReplaceAll(s[1..], c, t)
  }

  /** The quotes written as the text `%27` and `%22` before encoding. */
  function Quote(s: string): string
  {
    ReplaceAll(ReplaceAll(s, '\'', "%27"), '"', "%22")
  }

  /** The `parts` of one pair: the encoded name, and the encoded value unless it is empty. */
  function Parts(p: Pair): (parts: seq<string>)
    ensures 1 <= |parts| <= 2
  {
    [Encode(Quote(p.name))] + (if p.value != "" then [Encode(Quote(p.value))] else [])
  }

  /** One field of the body: `name=value`, or `name` alone. */
  function Field(p: Pair): string
  {
    Join(Parts(p), "=")
  }

  /** The fields of the pairs from the `i`-th on. */
  function FieldsFrom(pairs: seq<Pair>, i: nat): (fs: seq<string>)
    requires i <= |pairs|
    ensures |fs| == |pairs| - i
    decreases |pairs| - i
  {
    if i == |pairs| then [] else [Field(pairs[i])] + FieldsFrom(pairs, i + 1)
  }

  /** Some pair from the `i`-th on has an empty name. */
  predicate UnnamedFrom(pairs: seq<Pair>, i: nat)
    requires i <= |pairs|
    decreases |pairs| - i
  {
    i < |pairs| && (pairs[i].name == "" || UnnamedFrom(pairs, i + 1))
  }

  /** The loop of _parsePostPairsToRaw from pair `i` on, with the fields built so far. */
  function PairsToRawFrom(pairs: seq<Pair>, i: nat, fields: seq<string>): Result<string, FormError>
    requires i <= |pairs|
    decreases |pairs| - i
  {
    if i == |pairs| then Success(Join(fields, "&"))
    else if pairs[i].name == "" then Failure(Unnamed)
    else PairsToRawFrom(pairs, i + 1, fields + [Field(pairs[i])])
  }

  /** What _parsePostPairsToRaw returns. */
  function PairsToRawSpec(pairs: seq<Pair>): Result<string, FormError>
  {
    PairsToRawFrom(pairs, 0, [])
  }

  /** `_parsePostPairsToRaw`. */
  method PairsToRaw(pairs: seq<Pair>) returns (r: Result<string, FormError>)
    ensures r == PairsToRawSpec(pairs)
  {
    var fields: seq<string> := [];
    for i := 0 to |pairs|
      invariant PairsToRawFrom(pairs, i, fields) == PairsToRawSpec(pairs)
    {
      if pairs[i].name == "" {
        return Failure(Unnamed);
      }
      var parts := [Encode(Quote(pairs[i].name))];
      if pairs[i].value != "" {
        parts := parts + [Encode(Quote(pairs[i].value))];
      }
      assert parts == Parts(pairs[i]);
      fields := fields + [Join(parts, "=")];
    }
    return Success(Join(fields, "&"));
  }

  // ------------------------------------------------------------------ parsing

  /** Length of `s` in UTF-16 code units, which is what a script string's `length` counts. */
  function Utf16Length(s: string): (n: nat)
    ensures n >= |s|
  {
    if s == [] then 0 else (if s[0] as int >= 0x10000 then 2 else 1) + Utf16Length(s[1..])
  }

  /** The regular expression /%[01]/ matches somewhere in `s`: an escaped control character. */
  predicate HasLowPct(s: string)
    decreases |s|
  {
    |s| >= 2 && ((s[0] == '%' && (s[1] == '0' || s[1] == '1')) || HasLowPct(s[1..]))
  }

  /** One '&'-separated piece of the body turned into a pair, with the checks in their order. */
  function ParseField(piece: string): Result<Pair, FormError>
  {
    var fields := Split(piece, '=');
    if fields[0] == "" then Failure(Unnamed)
    else if Utf16Length(fields[0]) > 255 then Failure(NameTooLong)
    else
      var fields := if |fields| == 1 then fields + [""] else fields;
      if |fields| > 2 || HasLowPct(fields[0]) || HasLowPct(fields[1]) then Failure(NotEncoded)
      else
        var name := Decode(ReplaceAll(fields[0], '+', " "));
        var value := Decode(ReplaceAll(fields[1], '+', " "));
        if name.None? || value.None? then Failure(UriError)
        else Success(Pair(name.value, value.value))
  }

  /** The pieces parsed in order after the pairs in `acc`; the first failing piece decides the error. */
  function ParseFrom(pieces: seq<string>, acc: seq<Pair>): Result<seq<Pair>, FormError>
    decreases |pieces|
  {
    if pieces == [] then Success(acc)
    else
      var f := ParseField(pieces[0]);
      if f.Failure? then Failure(f.error) else ParseFrom(pieces[1..], acc + [f.value])
  }

  /** What _parsePostRawToPairs returns. */
  function RawToPairsSpec(value: string): Result<seq<Pair>, FormError>
  {
    if value == "" then Success([Pair("", "")]) else ParseFrom(Split(value, '&'), [])
  }

  /** `_parsePostRawToPairs`. */
  method RawToPairs(value: string) returns (r: Result<seq<Pair>, FormError>)
    ensures r == RawToPairsSpec(value)
  {
    if value == "" {
      return Success([Pair("", "")]);
    }
    var pairs: seq<Pair> := [];
    var pieces := Split(value, '&');
    for i := 0 to |pieces|
      invariant ParseFrom(pieces[i..], pairs) == RawToPairsSpec(value)
    {
      assert pieces[i..][1..] == pieces[i + 1..];
      var fields := Split(pieces[i], '=');
      if fields[0] == "" {
        return Failure(Unnamed);
      }
      if Utf16Length(fields[0]) > 255 {
        return Failure(NameTooLong);
      }
      if |fields| == 1 {
        fields := fields + [""];
      }
      var malformed := |fields| > 2;
      var nonPrintable := HasLowPct(fields[0]) || HasLowPct(fields[1]);
      if malformed || nonPrintable {
        return Failure(NotEncoded);
      }
      var name := Decode(ReplaceAll(fields[0], '+', " "));
      var v := Decode(ReplaceAll(fields[1], '+', " "));
      if name.None? || v.None? {
        return Failure(UriError);
      }
      pairs := pairs + [Pair(name.value, v.value)];
    }
    return Success(pairs);
  }

  // ---------------------------------------------------------------- encoding

  /** The encoder fails exactly when some pair has no name; otherwise it is the fields joined with '&'. */
  lemma PairsToRawResult(pairs: seq<Pair>)
    ensures PairsToRawSpec(pairs).Failure? <==> exists k :: 0 <= k < |pairs| && pairs[k].name == ""
    ensures PairsToRawSpec(pairs).Failure? ==> PairsToRawSpec(pairs).error == Unnamed
    ensures PairsToRawSpec(pairs).Success? ==> PairsToRawSpec(pairs).value == Join(FieldsFrom(pairs, 0), "&")
  {
    PairsToRawFromResult(pairs, 0, []);
    var fs := FieldsFrom(pairs, 0);
    assert [] + fs == fs;
    UnnamedFromExists(pairs, 0);
  }

  lemma {:induction false} PairsToRawFromResult(pairs: seq<Pair>, i: nat, acc: seq<string>)
    requires i <= |pairs|
    ensures var r := PairsToRawFrom(pairs, i, acc);
      (r.Failure? <==> UnnamedFrom(pairs, i)) && (r.Failure? ==> r.error == Unnamed) &&
      (r.Success? ==> r.value == Join(acc + FieldsFrom(pairs, i), "&"))
    decreases |pairs| - i
  {
    if i == |pairs| {
      assert acc + [] == acc;
    } else if pairs[i].name != "" {
      PairsToRawFromResult(pairs, i + 1, acc + [Field(pairs[i])]);
      assert acc + FieldsFrom(pairs, i) == acc + [Field(pairs[i])] + FieldsFrom(pairs, i + 1);
    }
  }

  lemma {:induction false} UnnamedFromExists(pairs: seq<Pair>, i: nat)
    requires i <= |pairs|
    ensures UnnamedFrom(pairs, i) <==> exists k :: i <= k < |pairs| && pairs[k].name == ""
    decreases |pairs| - i
  {
    if i < |pairs| {
      UnnamedFromExists(pairs, i + 1);
      if pairs[i].name == "" {
        assert i <= i < |pairs| && pairs[i].name == "";
      } else if exists k :: i <= k < |pairs| && pairs[k].name == "" {
        var k :| i <= k < |pairs| && pairs[k].name == "";
        assert k != i;
      }
    }
  }

  // ------------------------------------------------------- encoder alphabet

  /** No control character below 0x20. */
  predicate Printable(s: string)
  {
    forall k :: 0 <= k < |s| ==> s[k] as int >= 0x20
  }

  lemma {:induction false} ReplaceAllPrintable(s: string, c: char, t: string)
    requires Printable(s) && Printable(t)
    ensures Printable(ReplaceAll(s, c, t))
    ensures s != [] && t != [] ==> ReplaceAll(s, c, t) != []
    decreases |s|
  {
    if s != [] {
      ReplaceAllPrintable(s[1..], c, t);
      var h := if s[0] == c then t else [s[0]];
      var r := ReplaceAll(s[1..], c, t);
      assert ReplaceAll(s, c, t) == h + r;
      assert forall k :: 0 <= k < |h + r| ==> (h + r)[k] == if k < |h| then h[k] else r[k - |h|];
    }
  }

  lemma QuotePrintable(s: string)
    requires Printable(s)
    ensures Printable(Quote(s)) && (s != [] ==> Quote(s) != [])
  {
    ReplaceAllPrintable(s, '\'', "%27");
    ReplaceAllPrintable(ReplaceAll(s, '\'', "%27"), '"', "%22");
  }

  /** A script string's `length` is the number of characters when none is outside the basic plane. */
  lemma {:induction false} Utf16LengthOfAscii(s: string)
    requires forall k :: 0 <= k < |s| ==> EncodedChar(s[k])
    ensures Utf16Length(s) == |s|
    decreases |s|
  {
    if s != [] {
      Utf16LengthOfAscii(s[1..]);
    }
  }

  lemma {:induction false} HasLowPctConcat(a: string, b: string)
    requires a == [] || a[|a| - 1] != '%'
    ensures HasLowPct(a + b) == (HasLowPct(a) || HasLowPct(b))
    decreases |a|
  {
    if |a| == 1 {
      assert (a + b)[1..] == b;
    } else if |a| >= 2 {
      assert (a + b)[0] == a[0] && (a + b)[1] == a[1];
      assert (a + b)[1..] == a[1..] + b;
      HasLowPctConcat(a[1..], b);
    } else {
      assert a + b == b;
    }
  }

  lemma PctNotLow(b: nat)
    requires 0x20 <= b < 256
    ensures !HasLowPct(Pct(b))
  {
    var p := Pct(b);
    var d := HexDigit(b / 16);
    assert p[1] == d && IsHex(d) && HexValue(d) >= 2;
    assert d != '0' && d != '1' && d != '%';
    assert p[1..][1..] == [p[2]];
    assert !HasLowPct([p[2]]);
    assert !HasLowPct(p[1..]);
  }

  lemma {:induction false} PctAllNotLow(bs: seq<nat>)
    requires forall k :: 0 <= k < |bs| ==> 0x20 <= bs[k] < 256
    ensures !HasLowPct(PctAll(bs))
  {
    if bs != [] {
      PctNotLow(bs[0]);
      PctAllNotLow(bs[1..]);
      HasLowPctConcat(Pct(bs[0]), PctAll(bs[1..]));
    }
  }

  lemma EncodeCharNotLow(ch: char)
    requires ch as int >= 0x20
    ensures !HasLowPct(EncodeChar(ch))
  {
    if !Unreserved(ch) {
      PctAllNotLow(Utf8(ch));
    }
  }

  /** Encoding a text without control characters never produces the `%0`/`%1` the parser refuses. */
  lemma {:induction false} EncodeNotLow(s: string)
    requires Printable(s)
    ensures !HasLowPct(Encode(s))
  {
    if s != [] {
      EncodeCharNotLow(s[0]);
      EncodeCharAlphabet(s[0]);
      EncodeNotLow(s[1..]);
      HasLowPctConcat(EncodeChar(s[0]), Encode(s[1..]));
    }
  }

  // --------------------------------------------------------------- round trip

  /**
   * A pair the two converters carry across: it has a name, neither part holds
   * a control character, and the encoded name fits the 255-character limit.
   */
  predicate Convertible(p: Pair)
  {
    p.name != "" && Printable(p.name) && Printable(p.value) && |Encode(Quote(p.name))| <= 255
  }

  /** What comes back for a pair: its quotes turned into the text `%27` and `%22`. */
  function QuotePair(p: Pair): Pair
  {
    Pair(Quote(p.name), Quote(p.value))
  }

  function QuotedFrom(pairs: seq<Pair>, i: nat): (qs: seq<Pair>)
    requires i <= |pairs|
    ensures |qs| == |pairs| - i
    decreases |pairs| - i
  {
    if i == |pairs| then [] else [QuotePair(pairs[i])] + QuotedFrom(pairs, i + 1)
  }

  lemma {:induction false} QuotedFromAt(pairs: seq<Pair>, i: nat, k: nat)
    requires i <= |pairs| && k < |pairs| - i
    ensures QuotedFrom(pairs, i)[k] == QuotePair(pairs[i + k])
    decreases k
  {
    var qs := QuotedFrom(pairs, i);
    assert qs == [QuotePair(pairs[i])] + QuotedFrom(pairs, i + 1);
    if k > 0 {
      QuotedFromAt(pairs, i + 1, k - 1);
      assert qs[k] == QuotedFrom(pairs, i + 1)[k - 1];
    }
  }

  /** An encoded text passes every check of the parser and decodes to the text. */
  lemma EncodedPart(y: string)
    requires Printable(y)
    ensures var e := Encode(y);
      '&' !in e && '=' !in e && !HasLowPct(e) && Utf16Length(e) == |e| &&
      ReplaceAll(e, '+', " ") == e && Decode(e) == Some(y)
  {
    var e := Encode(y);
    EncodeAlphabet(y);
    EncodeNotLow(y);
    Utf16LengthOfAscii(e);
    DecodeEncode(y);
    forall k | 0 <= k < |e|
      ensures e[k] != '&' && e[k] != '=' && e[k] != '+'
    {
      EncodedCharIs(e[k]);
    }
  }

  /** The parser on `a=b`, or on `a` alone when `b` is empty, for parts that pass its checks. */
  lemma ParseEncodedField(a: string, b: string, n: string, v: string)
    requires a != [] && '=' !in a && '=' !in b && Utf16Length(a) <= 255
    requires !HasLowPct(a) && !HasLowPct(b)
    requires ReplaceAll(a, '+', " ") == a && ReplaceAll(b, '+', " ") == b
    requires Decode(a) == Some(n) && Decode(b) == Some(v)
    ensures ParseField(if b == [] then a else a + "=" + b) == Success(Pair(n, v))
  {
    if b == [] {
      SplitNoDelimiter(a, '=');
      assert !HasLowPct("") && ReplaceAll("", '+', " ") == "";
    } else {
      assert Join([a, b], "=") == a + "=" + b;
      SplitJoin([a, b], '=');
    }
  }

  /** The parser reads one encoded field back as the quoted pair. */
  lemma ParseFieldOf(p: Pair)
    requires Convertible(p)
    ensures Field(p) != [] && '&' !in Field(p)
    ensures ParseField(Field(p)) == Success(QuotePair(p))
  {
    var n, v := Quote(p.name), Quote(p.value);
    QuotePrintable(p.name);
    QuotePrintable(p.value);
    EncodedPart(n);
    EncodedPart(v);
    var a, b := Encode(n), Encode(v);
    assert Parts(p) == [a] + (if p.value != "" then [b] else []);
    assert p.value == "" <==> b == [];
    var f := if b == [] then a else a + "=" + b;
    if b != [] {
      assert [a, b][1..] == [b];
      assert Join([a, b], "=") == a + "=" + Join([b], "=");
    }
    assert Field(p) == f;
    assert '&' !in f;
    ParseEncodedField(a, b, n, v);
  }

  lemma {:induction false} ParseFromFields(pairs: seq<Pair>, i: nat, acc: seq<Pair>)
    requires i <= |pairs|
    requires forall k :: i <= k < |pairs| ==> Convertible(pairs[k])
    ensures ParseFrom(FieldsFrom(pairs, i), acc) == Success(acc + QuotedFrom(pairs, i))
    decreases |pairs| - i
  {
    if i == |pairs| {
      assert acc + [] == acc;
    } else {
      var fs, q := FieldsFrom(pairs, i), QuotePair(pairs[i]);
      assert fs[0] == Field(pairs[i]) && fs[1..] == FieldsFrom(pairs, i + 1);
      ParseFieldOf(pairs[i]);
      ParseFromCons(fs, acc, q);
      ParseFromFields(pairs, i + 1, acc + [q]);
      assert acc + [q] + QuotedFrom(pairs, i + 1) == acc + QuotedFrom(pairs, i);
    }
  }

  lemma ParseFromCons(fs: seq<string>, acc: seq<Pair>, q: Pair)
    requires fs != [] && ParseField(fs[0]) == Success(q)
    ensures ParseFrom(fs, acc) == ParseFrom(fs[1..], acc + [q])
  {
  }

  lemma {:induction false} FieldsFromShape(pairs: seq<Pair>, i: nat)
    requires i <= |pairs|
    requires forall k :: i <= k < |pairs| ==> Convertible(pairs[k])
    ensures forall k :: 0 <= k < |FieldsFrom(pairs, i)| ==> '&' !in FieldsFrom(pairs, i)[k]
    ensures i < |pairs| ==> FieldsFrom(pairs, i)[0] != []
    decreases |pairs| - i
  {
    if i < |pairs| {
      ParseFieldOf(pairs[i]);
      FieldsFromShape(pairs, i + 1);
    }
  }

  /**
   * Converting pairs to a body and back gives the same pairs, quotes aside,
   * whenever the pairs are convertible and there is at least one.
   */
  lemma RoundTrip(pairs: seq<Pair>)
    requires pairs != []
    requires forall k :: 0 <= k < |pairs| ==> Convertible(pairs[k])
    ensures PairsToRawSpec(pairs).Success?
    ensures var r := RawToPairsSpec(PairsToRawSpec(pairs).value);
      r.Success? && |r.value| == |pairs| && forall k :: 0 <= k < |pairs| ==> r.value[k] == QuotePair(pairs[k])
  {
    var fs := FieldsFrom(pairs, 0);
    RawOfConvertible(pairs);
    ParseFromFields(pairs, 0, []);
    assert [] + QuotedFrom(pairs, 0) == QuotedFrom(pairs, 0);
    forall k | 0 <= k < |pairs|
      ensures QuotedFrom(pairs, 0)[k] == QuotePair(pairs[k])
    {
      QuotedFromAt(pairs, 0, k);
    }
  }

  /** The body made from convertible pairs: their fields joined with '&', which splits back into the fields. */
  lemma RawOfConvertible(pairs: seq<Pair>)
    requires pairs != []
    requires forall k :: 0 <= k < |pairs| ==> Convertible(pairs[k])
    ensures var fs := FieldsFrom(pairs, 0);
      PairsToRawSpec(pairs) == Success(Join(fs, "&")) && Join(fs, "&") != [] && Split(Join(fs, "&"), '&') == fs
  {
    PairsToRawResult(pairs);
    var fs := FieldsFrom(pairs, 0);
    FieldsFromShape(pairs, 0);
    var raw := Join(fs, "&");
    assert raw == if |fs| == 1 then fs[0] else fs[0] + "&" + Join(fs[1..], "&");
    SplitJoin(fs, '&');
  }

  lemma QuoteNoQuotes(s: string)
    requires '\'' !in s && '"' !in s
    ensures Quote(s) == s
  {
    assert ReplaceAll(s, '\'', "%27") == s;
  }

  /** A pair whose name and value hold no quote characters. */
  predicate Unquoted(p: Pair)
  {
    '\'' !in p.name && '"' !in p.name && '\'' !in p.value && '"' !in p.value
  }

  lemma QuotePairUnquoted(p: Pair)
    requires Unquoted(p)
    ensures QuotePair(p) == p
  {
    QuoteNoQuotes(p.name);
    QuoteNoQuotes(p.value);
  }

  /** Without quote characters the round trip gives back exactly the pairs. */
  lemma RoundTripPlain(pairs: seq<Pair>)
    requires pairs != []
    requires forall k :: 0 <= k < |pairs| ==> Convertible(pairs[k])
    requires forall k :: 0 <= k < |pairs| ==> Unquoted(pairs[k])
    ensures PairsToRawSpec(pairs).Success? && RawToPairsSpec(PairsToRawSpec(pairs).value) == Success(pairs)
  {
    RoundTrip(pairs);
    var r := RawToPairsSpec(PairsToRawSpec(pairs).value);
    forall k | 0 <= k < |pairs|
      ensures r.value[k] == pairs[k]
    {
      QuotePairUnquoted(pairs[k]);
    }
    assert r.value == pairs;
  }

  /** The parser accepts the pieces exactly when every piece parses. */
  lemma {:induction false} ParseFromSuccess(pieces: seq<string>, acc: seq<Pair>)
    ensures ParseFrom(pieces, acc).Success? <==> forall k :: 0 <= k < |pieces| ==> ParseField(pieces[k]).Success?
    decreases |pieces|
  {
    if pieces != [] && ParseField(pieces[0]).Success? {
      ParseFromSuccess(pieces[1..], acc + [ParseField(pieces[0]).value]);
      assert forall k :: 0 < k < |pieces| ==> pieces[k] == pieces[1..][k - 1];
    }
  }

  /** On success there is one pair per piece, in order, after the pairs already collected. */
  lemma ParseFromValues(pieces: seq<string>, acc: seq<Pair>)
    requires ParseFrom(pieces, acc).Success?
    ensures var r := ParseFrom(pieces, acc).value;
      |r| == |acc| + |pieces| && r[..|acc|] == acc &&
      (forall k :: 0 <= k < |pieces| ==> ParseField(pieces[k]) == Success(r[|acc| + k]))
  {
    ParseFromIsFold(pieces, acc);
    FoldValues(ParseField, pieces, acc);
  }

  /** `ParseFrom` with the piece parser as a parameter, so that facts about the loop need not look into it. */
  function Fold(parse: string -> Result<Pair, FormError>, pieces: seq<string>, acc: seq<Pair>): Result<seq<Pair>, FormError>
    decreases |pieces|
  {
    if pieces == [] then Success(acc)
    else
      var f := parse(pieces[0]);
      if f.Failure? then Failure(f.error) else Fold(parse, pieces[1..], acc + [f.value])
  }

  lemma {:induction false} ParseFromIsFold(pieces: seq<string>, acc: seq<Pair>)
    ensures ParseFrom(pieces, acc) == Fold(ParseField, pieces, acc)
    decreases |pieces|
  {
    if pieces != [] && ParseField(pieces[0]).Success? {
      ParseFromIsFold(pieces[1..], acc + [ParseField(pieces[0]).value]);
    }
  }

  lemma {:induction false} FoldValues(parse: string -> Result<Pair, FormError>, pieces: seq<string>, acc: seq<Pair>)
    requires Fold(parse, pieces, acc).Success?
    ensures var r := Fold(parse, pieces, acc).value;
      |r| == |acc| + |pieces| && r[..|acc|] == acc &&
      (forall k :: 0 <= k < |pieces| ==> parse(pieces[k]) == Success(r[|acc| + k]))
    decreases |pieces|
  {
    if pieces != [] {
      var f := parse(pieces[0]);
      var acc' := acc + [f.value];
      var r := Fold(parse, pieces, acc).value;
      assert r == Fold(parse, pieces[1..], acc').value;
      FoldValues(parse, pieces[1..], acc');
      assert r[..|acc|] == r[..|acc'|][..|acc|];
      assert r[|acc|] == acc'[|acc|];
      forall k | 0 < k < |pieces|
        ensures parse(pieces[k]) == Success(r[|acc| + k])
      {
        assert pieces[k] == pieces[1..][k - 1];
        assert |acc| + k == |acc'| + (k - 1);
      }
    }
  }

  /** On failure the error is that of the first piece that does not parse. */
  lemma {:induction false} ParseFromError(pieces: seq<string>, acc: seq<Pair>)
    requires ParseFrom(pieces, acc).Failure?
    ensures exists k ::
        0 <= k < |pieces| && ParseField(pieces[k]) == Failure(ParseFrom(pieces, acc).error) &&
        (forall j :: 0 <= j < k ==> ParseField(pieces[j]).Success?)
    decreases |pieces|
  {
    var e := ParseFrom(pieces, acc).error;
    if ParseField(pieces[0]).Failure? {
      assert ParseField(pieces[0]) == Failure(e);
    } else {
      var acc' := acc + [ParseField(pieces[0]).value];
      assert ParseFrom(pieces, acc) == ParseFrom(pieces[1..], acc');
      ParseFromError(pieces[1..], acc');
      var k :| 0 <= k < |pieces| - 1 && ParseField(pieces[1..][k]) == Failure(e) &&
        forall j :: 0 <= j < k ==> ParseField(pieces[1..][j]).Success?;
      assert ParseField(pieces[k + 1]) == Failure(e);
      forall j | 0 <= j < k + 1
        ensures ParseField(pieces[j]).Success?
      {
        if j > 0 { assert pieces[j] == pieces[1..][j - 1]; }
      }
    }
  }

  /** A piece is refused as unnamed exactly when it is empty or starts with '='. */
  lemma ParseFieldUnnamed(piece: string)
    ensures ParseField(piece) == Failure(Unnamed) <==> piece == [] || piece[0] == '='
  {
    SplitHead(piece, '=');
  }

  /**
   * A piece is refused for its name length exactly when its name part is not
   * empty and is longer than 255 UTF-16 code units.
   */
  lemma ParseFieldLongName(piece: string)
    ensures var name := Split(piece, '=')[0];
      ParseField(piece) == Failure(NameTooLong) <==> name != [] && Utf16Length(name) > 255
  {
  }

  /** Every pair the parser accepts has a name. */
  lemma ParseFieldNamed(piece: string)
    requires ParseField(piece).Success?
    ensures ParseField(piece).value.name != ""
  {
    var a := Split(piece, '=')[0];
    var n := ReplaceAll(a, '+', " ");
    assert n == (if a[0] == '+' then " " else [a[0]]) + ReplaceAll(a[1..], '+', " ");
    assert Decode(n).Some?;
  }

  /** A non-empty body that parses gives one named pair per '&'-separated piece. */
  lemma RawToPairsNamed(value: string)
    requires value != "" && RawToPairsSpec(value).Success?
    ensures var r := RawToPairsSpec(value).value;
      |r| == |Split(value, '&')| && forall k :: 0 <= k < |r| ==> r[k].name != ""
  {
    var pieces := Split(value, '&');
    ParseFromValues(pieces, []);
    var r := RawToPairsSpec(value).value;
    forall k | 0 <= k < |r|
      ensures r[k].name != ""
    {
      ParseFieldNamed(pieces[k]);
    }
  }

  /** The body is empty exactly when the result is the single pair with empty name and value. */
  lemma RawToPairsEmpty(value: string)
    ensures RawToPairsSpec(value) == Success([Pair("", "")]) <==> value == ""
  {
    if value != "" && RawToPairsSpec(value).Success? {
      RawToPairsNamed(value);
      assert RawToPairsSpec(value).value[0].name != "";
    }
  }

  // ------------------------------------------------------- escaped controls

  /** A separator that is neither '%' nor '0' nor '1' cannot be part of a `%0` or `%1`. */
  lemma {:induction false} HasLowPctAround(a: string, d: char, b: string)
    requires d != '%' && d != '0' && d != '1'
    ensures HasLowPct(a + [d] + b) == (HasLowPct(a) || HasLowPct(b))
    decreases |a|
  {
    var s := a + [d] + b;
    if a == [] {
      assert s == [d] + b;
      if b != [] {
        assert s[1..] == b;
      }
    } else {
      assert s[0] == a[0];
      assert s[1..] == a[1..] + [d] + b;
      HasLowPctAround(a[1..], d, b);
      if |a| == 1 {
        assert s[1] == d;
      } else {
        assert s[1] == a[1];
      }
    }
  }

  /** Pieces without a `%0` or `%1`, joined with such a separator, have none either. */
  lemma {:induction false} JoinNoLowPct(xs: seq<string>, d: char)
    requires d != '%' && d != '0' && d != '1'
    requires forall k :: 0 <= k < |xs| ==> !HasLowPct(xs[k])
    ensures !HasLowPct(Join(xs, [d]))
    decreases |xs|
  {
    if |xs| >= 2 {
      JoinNoLowPct(xs[1..], d);
      HasLowPctAround(xs[0], d, Join(xs[1..], [d]));
    }
  }

  /** A piece the parser accepts holds no `%0` or `%1`. */
  lemma ParseFieldNoLowPct(piece: string)
    requires ParseField(piece).Success?
    ensures !HasLowPct(piece)
  {
    var fields := Split(piece, '=');
    JoinSplit(piece, '=');
    if |fields| == 2 {
      assert fields[1..] == [fields[1]];
      HasLowPctAround(fields[0], '=', fields[1]);
    }
  }

  /** A piece with an acceptable name and a `%0` or `%1` anywhere is refused as not properly encoded. */
  lemma ParseFieldLowPct(piece: string)
    requires HasLowPct(piece)
    requires Split(piece, '=')[0] != [] && Utf16Length(Split(piece, '=')[0]) <= 255
    ensures ParseField(piece) == Failure(NotEncoded)
  {
    var fields := Split(piece, '=');
    JoinSplit(piece, '=');
    if |fields| == 2 {
      assert fields[1..] == [fields[1]];
      HasLowPctAround(fields[0], '=', fields[1]);
    }
  }

  /** A body with a `%0` or `%1` anywhere is refused. */
  lemma RawToPairsLowPct(value: string)
    requires HasLowPct(value)
    ensures RawToPairsSpec(value).Failure?
  {
    var pieces := Split(value, '&');
    if RawToPairsSpec(value).Success? {
      ParseFromSuccess(pieces, []);
      forall k | 0 <= k < |pieces|
        ensures !HasLowPct(pieces[k])
      {
        ParseFieldNoLowPct(pieces[k]);
      }
      JoinNoLowPct(pieces, '&');
      JoinSplit(value, '&');
      assert false;
    }
  }

  /** A piece with a second '=' and an acceptable name is refused as not properly encoded. */
  lemma ParseFieldMalformed(piece: string)
    requires Split(piece, '=')[0] != [] && Utf16Length(Split(piece, '=')[0]) <= 255
    requires Count(piece, '=') >= 2
    ensures ParseField(piece) == Failure(NotEncoded)
  {
    SplitCount(piece, '=');
  }

  /** A non-empty body that starts with '&' or '=' has an unnamed first field. */
  lemma RawToPairsUnnamedFirst(value: string)
    requires value != [] && (value[0] == '&' || value[0] == '=')
    ensures RawToPairsSpec(value) == Failure(Unnamed)
  {
    var pieces := Split(value, '&');
    SplitHead(value, '&');
    ParseFieldUnnamed(pieces[0]);
  }

  // ------------------------------------------------------------------ examples

  /** `Split` of a body made of the pieces `xs` joined with `d`. */
  lemma SplitOf(s: string, xs: seq<string>, d: char)
    requires |xs| >= 1 && s == Join(xs, [d])
    requires forall i :: 0 <= i < |xs| ==> d !in xs[i]
    ensures Split(s, d) == xs
  {
    SplitJoin(xs, d);
  }

  /** A body without '&' is a single field. */
  lemma RawSingle(value: string)
    requires value != [] && '&' !in value
    ensures var f := ParseField(value);
      RawToPairsSpec(value) == if f.Failure? then Failure(f.error) else Success([f.value])
  {
    SplitNoDelimiter(value, '&');
    var f := ParseField(value);
    if f.Success? {
      ParseFromCons([value], [], f.value);
      assert [value][1..] == [] && [] + [f.value] == [f.value];
    }
  }

  /** The checks of a `name=value` piece, once the name passes them, leave only the decoding. */
  lemma ParseFieldTwo(a: string, b: string)
    requires a != [] && '=' !in a && '=' !in b && Utf16Length(a) <= 255
    requires !HasLowPct(a) && !HasLowPct(b)
    ensures var n, v := Decode(ReplaceAll(a, '+', " ")), Decode(ReplaceAll(b, '+', " "));
      ParseField(a + "=" + b) == if n.None? || v.None? then Failure(UriError) else Success(Pair(n.value, v.value))
  {
    SplitOf(a + "=" + b, [a, b], '=');
  }

  lemma {:induction false} NoPctNoLow(s: string)
    requires '%' !in s
    ensures !HasLowPct(s)
    decreases |s|
  {
    if |s| >= 2 {
      assert '%' !in s[1..] by { assert forall k :: 0 <= k < |s| - 1 ==> s[1..][k] == s[k + 1]; }
      NoPctNoLow(s[1..]);
    }
  }

  lemma {:induction false} ReplaceAllAvoids(s: string, c: char, t: string, x: char)
    requires x !in s && x !in t
    ensures x !in ReplaceAll(s, c, t)
    decreases |s|
  {
    if s != [] {
      assert x !in s[1..] by { assert forall k :: 0 <= k < |s| - 1 ==> s[1..][k] == s[k + 1]; }
      ReplaceAllAvoids(s[1..], c, t, x);
    }
  }

  /**
   * A single `name=value` field without escapes, separators or '=' in its parts
   * reads back with every '+' turned into a space.
   */
  lemma RawToPairsPlusIsSpace(a: string, b: string)
    requires a != [] && Utf16Length(a) <= 255
    requires '&' !in a && '=' !in a && '%' !in a
    requires '&' !in b && '=' !in b && '%' !in b
    ensures RawToPairsSpec(a + "=" + b) == Success([Pair(ReplaceAll(a, '+', " "), ReplaceAll(b, '+', " "))])
  {
    var v := a + "=" + b;
    assert '&' !in v by { assert forall k :: 0 <= k < |v| ==> v[k] == if k < |a| then a[k] else if k == |a| then '=' else b[k - |a| - 1]; }
    RawSingle(v);
    NoPctNoLow(a);
    NoPctNoLow(b);
    ParseFieldTwo(a, b);
    ReplaceAllAvoids(a, '+', " ", '%');
    ReplaceAllAvoids(b, '+', " ", '%');
    DecodePlain(ReplaceAll(a, '+', " "));
    DecodePlain(ReplaceAll(b, '+', " "));
  }

  /** '+' in the body stands for a space. */
  lemma PlusIsSpace()
    ensures RawToPairsSpec("a+b=c+d") == Success([Pair("a b", "c d")])
  {
    assert "a+b=c+d" == "a+b" + "=" + "c+d";
    RawToPairsPlusIsSpace("a+b", "c+d");
    assert ReplaceAll("a+b", '+', " ") == "a b";
    assert ReplaceAll("c+d", '+', " ") == "c d";
  }

  /** A second '=' in a field is refused. */
  lemma TwoEqualsRefused()
    ensures RawToPairsSpec("a=b=c") == Failure(NotEncoded)
  {
    RawSingle("a=b=c");
    TwoEqualsField();
  }

  lemma TwoEqualsField()
    ensures ParseField("a=b=c") == Failure(NotEncoded)
  {
    assert "a=b=c" == Join(["a", "b", "c"], "=");
    SplitOf("a=b=c", ["a", "b", "c"], '=');
  }

  lemma JoinPair(a: string, b: string, d: string)
    ensures Join([a, b], d) == a + d + b
  {
    assert [a, b][1..] == [b];
  }

  lemma ControlCharText()
    ensures "a" + "=" + "%0A" == "a=%0A"
  {
  }

  /** An escaped control character is refused. */
  lemma ControlCharRefused()
    ensures RawToPairsSpec("a=%0A") == Failure(NotEncoded)
  {
    RawSingle("a=%0A");
    ControlCharField();
  }

  lemma ControlCharField()
    ensures ParseField("a=%0A") == Failure(NotEncoded)
  {
    JoinPair("a", "%0A", "=");
    ControlCharText();
    SplitOf("a=%0A", ["a", "%0A"], '=');
    assert HasLowPct("%0A");
  }

  /** A single field whose value does not decode is a URIError. */
  lemma RawToPairsUriError(a: string, b: string)
    requires a != [] && Utf16Length(a) <= 255
    requires '&' !in a && '=' !in a && !HasLowPct(a)
    requires '&' !in b && '=' !in b && !HasLowPct(b)
    requires Decode(ReplaceAll(b, '+', " ")) == None
    ensures RawToPairsSpec(a + "=" + b) == Failure(UriError)
  {
    var v := a + "=" + b;
    assert '&' !in v by {
      NotInPair(a, b, '&');
    }
    var f := ParseField(v);
    assert RawToPairsSpec(v) == (if f.Failure? then Failure(f.error) else Success([f.value])) by {
      RawSingle(v);
    }
    assert f == Failure(UriError) by {
      ParseFieldTwo(a, b);
    }
  }

  /** A character that is neither in `a`, nor in `b`, nor '=' is not in `a=b`. */
  lemma NotInPair(a: string, b: string, x: char)
    requires x !in a && x !in b && x != '='
    ensures x !in a + "=" + b
  {
    var v := a + "=" + b;
    assert forall k :: 0 <= k < |v| ==> v[k] == if k < |a| then a[k] else if k == |a| then '=' else b[k - |a| - 1];
  }

  /** An unnamed pair anywhere makes the conversion fail. */
  lemma UnnamedPairRefused()
    ensures PairsToRawSpec([Pair("a", ""), Pair("", "b")]) == Failure(Unnamed)
  {
  }
}
