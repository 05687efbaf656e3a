/**
 * Position-preserving substitution of resolved macro values into a text, as
 * CMacrosResolver does it once the values are known: the position map of a
 * text (the result of getMacroPositions) is walked in descending position
 * order and every known macro is spliced out with substr_replace; the HTML
 * variant walks the map in ascending order and emits a list of fragments.
 * Also the seeding of every extracted token with the "unresolved" sentinel.
 */
module MacroRewrite {
  import opened Wrappers

  /** The sentinel every extracted token holds until a lookup finds its value (UNRESOLVED_MACRO_STRING). */
  const Unresolved: string := "*UNKNOWN*"

  /** One entry of the position map of a text: `macro` starts at offset `pos`. */
  datatype Occurrence = Occurrence(pos: nat, macro: string)

  function End(o: Occurrence): nat { o.pos + |o.macro| }

  /**
   * The entries from the `i`-th on fit `text` from offset `from` on:
   * positions ascending, spans non-overlapping and inside the text.
   */
  predicate FitsAt(text: string, occs: seq<Occurrence>, i: nat, from: nat)
    requires i <= |occs|
    decreases |occs| - i
  {
    && from <= |text|
    && (i < |occs| ==> from <= occs[i].pos && End(occs[i]) <= |text| && FitsAt(text, occs, i + 1, End(occs[i])))
  }

  /** The text holds the macro at the entry's position. */
  predicate Located(text: string, o: Occurrence)
  {
    End(o) <= |text| && text[o.pos..End(o)] == o.macro
  }

  /** What getMacroPositions (not part of this model) guarantees of the position map of a text. */
  predicate PositionMap(text: string, occs: seq<Occurrence>)
  {
    && FitsAt(text, occs, 0, 0)
    && forall k {:trigger Located(text, occs[k])} :: 0 <= k < |occs| ==> Located(text, occs[k])
  }

  /**
   * What a replace loop does with a positioned macro that has no entry in the
   * value map: resolveTriggerNames skips it (Keep); the map-element label loop
   * writes the sentinel (Default(Unresolved)); the loops that index the map
   * without checking get PHP's null, which substr_replace takes as "" (Default("")).
   */
  datatype Missing = Keep | Default(value: string)

  /** The replacement of `macro`, or None when it stays as it is. */
  function Lookup(values: map<string, string>, miss: Missing, macro: string): (r: Option<string>)
    ensures macro in values ==> r == Some(values[macro])
    ensures macro !in values ==> (r.None? <==> miss == Keep)
  {
    if macro in values then Some(values[macro])
    else match miss
      case Keep => None
      case Default(v) => Some(v)
  }

  /** What occurrence `o` becomes in the rewritten text. */
  function Piece(o: Occurrence, values: map<string, string>, miss: Missing): string
  {
    if o.macro in values then values[o.macro]
    else if miss.Default? then miss.value
    else o.macro
  }

  /**
   * The reference rewrite: the text from `from` on, read left to right, with
   * the span of every entry from the `i`-th on replaced by its piece and
   * everything between the spans copied.
   */
  function SpliceAt(text: string, occs: seq<Occurrence>, values: map<string, string>, miss: Missing, i: nat, from: nat): string
    requires i <= |occs| && FitsAt(text, occs, i, from)
    decreases |occs| - i
  {
    if i == |occs| then text[from..]
    else text[from..occs[i].pos] + Piece(occs[i], values, miss) + SpliceAt(text, occs, values, miss, i + 1, End(occs[i]))
  }

  function Splice(text: string, occs: seq<Occurrence>, values: map<string, string>, miss: Missing): string
    requires PositionMap(text, occs)
  {
    SpliceAt(text, occs, values, miss, 0, 0)
  }

  /** Where the gap before the `k`-th entry (the tail for k == |occs|) starts. */
  function GapStart(occs: seq<Occurrence>, k: nat): nat
    requires k <= |occs|
  {
    if k == 0 then 0 else End(occs[k-1])
  }

  function GapEnd(text: string, occs: seq<Occurrence>, k: nat): nat
    requires k <= |occs|
  {
    if k < |occs| then occs[k].pos else |text|
  }

  /** In a position map, the entries from the `i`-th on fit from the end of the one before. */
  lemma {:induction false} FitsFrom(text: string, occs: seq<Occurrence>, i: nat)
    requires FitsAt(text, occs, 0, 0) && i <= |occs|
    ensures FitsAt(text, occs, i, GapStart(occs, i))
    decreases i
  {
    if i > 0 {
      FitsFrom(text, occs, i - 1);
    }
  }

  /** PHP's substr_replace with an offset and a length inside the string. */
  function SubstrReplace(s: string, replacement: string, offset: nat, length: nat): string
    requires offset + length <= |s|
  {
    s[..offset] + replacement + s[offset + length..]
  }

  /** What the descending loop has built once the entries from the `i`-th on are done. */
  function RewrittenFrom(text: string, occs: seq<Occurrence>, values: map<string, string>, miss: Missing, i: nat): string
    requires FitsAt(text, occs, 0, 0) && i <= |occs|
  {
    FitsFrom(text, occs, i);
    text[..GapStart(occs, i)] + SpliceAt(text, occs, values, miss, i, GapStart(occs, i))
  }

  lemma ConcatIndexLeft(a: string, b: string, j: nat)
    requires j < |a|
    ensures (a + b)[j] == a[j]
  {
  }

  lemma ConcatSliceRight(a: string, b: string, lo: nat, n: nat)
    requires lo + n <= |b|
    ensures (a + b)[|a| + lo..|a| + lo + n] == b[lo..lo + n]
  {
  }

  lemma ConcatSliceLeft(a: string, b: string, c: string)
    ensures (a + b + c)[|a|..|a| + |b|] == b
  {
  }

  /** Pure sequence algebra for one replacement inside the untouched prefix. */
  lemma ReplaceInPrefix(text: string, g: nat, p: nat, e: nat, mid: string, rest: string, v: string)
    requires g <= p <= e <= |text|
    ensures (text[..e] + rest)[..p] + v + (text[..e] + rest)[e..] == text[..g] + (text[g..p] + v + rest)
  {
    assert (text[..e] + rest)[..p] == text[..g] + text[g..p];
    assert (text[..e] + rest)[e..] == rest;
  }

  /** Pure sequence algebra for a span that stays as it is. */
  lemma KeepInPrefix(text: string, g: nat, p: nat, e: nat, rest: string)
    requires g <= p <= e <= |text|
    ensures text[..e] + rest == text[..g] + (text[g..p] + text[p..e] + rest)
  {
    assert text[..e] == text[..g] + text[g..p] + text[p..e];
  }

  /** One step of the descending loop: handling the `i`-th entry extends the rewritten part by one entry. */
  lemma RewriteStep(text: string, occs: seq<Occurrence>, values: map<string, string>, miss: Missing, i: nat)
    requires FitsAt(text, occs, 0, 0) && i < |occs| && Located(text, occs[i])
    ensures End(occs[i]) <= |RewrittenFrom(text, occs, values, miss, i + 1)|
    ensures Lookup(values, miss, occs[i].macro).Some? ==>
              SubstrReplace(RewrittenFrom(text, occs, values, miss, i + 1), Lookup(values, miss, occs[i].macro).value,
                            occs[i].pos, |occs[i].macro|)
              == RewrittenFrom(text, occs, values, miss, i)
    ensures Lookup(values, miss, occs[i].macro).None? ==>
              RewrittenFrom(text, occs, values, miss, i + 1) == RewrittenFrom(text, occs, values, miss, i)
  {
    FitsFrom(text, occs, i);
    var o := occs[i];
    var rest := SpliceAt(text, occs, values, miss, i + 1, End(o));
    var v := Lookup(values, miss, o.macro);
    if v.Some? {
      ReplaceInPrefix(text, GapStart(occs, i), o.pos, End(o), o.macro, rest, v.value);
    } else {
      KeepInPrefix(text, GapStart(occs, i), o.pos, End(o), rest);
    }
  }

  /** Before the descending loop, nothing is rewritten. */
  lemma RewriteStart(text: string, occs: seq<Occurrence>, values: map<string, string>, miss: Missing)
    requires FitsAt(text, occs, 0, 0)
    ensures RewrittenFrom(text, occs, values, miss, |occs|) == text
  {
    FitsFrom(text, occs, |occs|);
    assert text[..GapStart(occs, |occs|)] + text[GapStart(occs, |occs|)..] == text;
  }

  /** After the descending loop, everything is rewritten. */
  lemma RewriteDone(text: string, occs: seq<Occurrence>, values: map<string, string>, miss: Missing)
    requires PositionMap(text, occs)
    ensures RewrittenFrom(text, occs, values, miss, 0) == Splice(text, occs, values, miss)
  {
    assert text[..0] == [];
  }

  /**
   * The replace loop of resolveTexts, resolveTriggerNames,
   * resolveTriggerDescriptions, resolveTriggerUrl and the map-element labels:
   * positions are visited in DESCENDING order and each macro with a
   * replacement is replaced in place with substr_replace. The result is the
   * left-to-right splice, so no replacement disturbs the positions still to
   * be visited.
   */
  method Rewrite(text: string, occs: seq<Occurrence>, values: map<string, string>, miss: Missing) returns (r: string)
    requires PositionMap(text, occs)
    ensures r == Splice(text, occs, values, miss)
  {
    r := text;
    var i := |occs|;
    RewriteStart(text, occs, values, miss);
    while i > 0
      invariant 0 <= i <= |occs|
      invariant r == RewrittenFrom(text, occs, values, miss, i)
    {
      i := i - 1;
      assert Located(text, occs[i]);
      RewriteStep(text, occs, values, miss, i);
      var v := Lookup(values, miss, occs[i].macro);
      if v.Some? {
        r := SubstrReplace(r, v.value, occs[i].pos, |occs[i].macro|);
      }
    }
    RewriteDone(text, occs, values, miss);
  }

  // ---------------------------------------------------------------------
  // What the rewrite keeps and what it puts in

  /** How much longer the pieces of the entries `i` to `k - 1` are than their spans. */
  function Shift(occs: seq<Occurrence>, values: map<string, string>, miss: Missing, i: nat, k: nat): int
    requires i <= k <= |occs|
    decreases k - i
  {
    if i == k then 0 else |Piece(occs[i], values, miss)| - |occs[i].macro| + Shift(occs, values, miss, i + 1, k)
  }

  lemma {:induction false} SpliceAtKeepsGap(text: string, occs: seq<Occurrence>, values: map<string, string>,
                                            miss: Missing, i: nat, from: nat, k: nat, p: nat)
    requires i <= k <= |occs| && FitsAt(text, occs, i, from)
    requires (if k == i then from else End(occs[k-1])) <= p < GapEnd(text, occs, k)
    ensures p < |text| && 0 <= p - from + Shift(occs, values, miss, i, k) < |SpliceAt(text, occs, values, miss, i, from)|
            && SpliceAt(text, occs, values, miss, i, from)[p - from + Shift(occs, values, miss, i, k)] == text[p]
    decreases k - i
  {
    if i < k {
      var o := occs[i];
      SpliceAtKeepsGap(text, occs, values, miss, i + 1, End(o), k, p);
    } else if i < |occs| {
      var a := text[from..occs[i].pos];
      var b := Piece(occs[i], values, miss) + SpliceAt(text, occs, values, miss, i + 1, End(occs[i]));
      ConcatIndexLeft(a, b, p - from);
    }
  }

  /** The part of the splice from `from` that comes before the `k`-th entry's piece. */
  function SpliceBefore(text: string, occs: seq<Occurrence>, values: map<string, string>, miss: Missing,
                        i: nat, k: nat, from: nat): string
    requires i <= k < |occs| && FitsAt(text, occs, i, from)
    decreases k - i
  {
    if i == k then text[from..occs[k].pos]
    else text[from..occs[i].pos] + Piece(occs[i], values, miss) + SpliceBefore(text, occs, values, miss, i + 1, k, End(occs[i]))
  }

  lemma {:induction false} SpliceAtSplit(text: string, occs: seq<Occurrence>, values: map<string, string>,
                                         miss: Missing, i: nat, k: nat, from: nat)
    requires i <= k < |occs| && FitsAt(text, occs, i, from)
    ensures FitsAt(text, occs, k + 1, End(occs[k]))
    ensures SpliceAt(text, occs, values, miss, i, from)
            == SpliceBefore(text, occs, values, miss, i, k, from) + Piece(occs[k], values, miss)
               + SpliceAt(text, occs, values, miss, k + 1, End(occs[k]))
    decreases k - i
  {
    if i < k {
      SpliceAtSplit(text, occs, values, miss, i + 1, k, End(occs[i]));
      ConcatRegroup(text[from..occs[i].pos] + Piece(occs[i], values, miss),
                    SpliceBefore(text, occs, values, miss, i + 1, k, End(occs[i])),
                    Piece(occs[k], values, miss), SpliceAt(text, occs, values, miss, k + 1, End(occs[k])));
    }
  }

  lemma ConcatRegroup(a: string, b: string, c: string, d: string)
    ensures a + (b + c + d) == a + b + c + d
  {
  }

  lemma {:induction false} SpliceBeforeLength(text: string, occs: seq<Occurrence>, values: map<string, string>,
                                              miss: Missing, i: nat, k: nat, from: nat)
    requires i <= k < |occs| && FitsAt(text, occs, i, from)
    ensures |SpliceBefore(text, occs, values, miss, i, k, from)| == occs[k].pos - from + Shift(occs, values, miss, i, k)
    decreases k - i
  {
    if i < k {
      SpliceBeforeLength(text, occs, values, miss, i + 1, k, End(occs[i]));
    }
  }

  /**
   * Text outside the macro spans is preserved: every character of the gap
   * before the `k`-th entry (or of the tail) reappears in the result, moved by
   * the length change of the replacements before it.
   */
  lemma SpliceKeepsGap(text: string, occs: seq<Occurrence>, values: map<string, string>, miss: Missing, k: nat, p: nat)
    requires PositionMap(text, occs) && k <= |occs|
    requires GapStart(occs, k) <= p < GapEnd(text, occs, k)
    ensures p < |text| && 0 <= p + Shift(occs, values, miss, 0, k) < |Splice(text, occs, values, miss)|
            && Splice(text, occs, values, miss)[p + Shift(occs, values, miss, 0, k)] == text[p]
  {
    SpliceAtKeepsGap(text, occs, values, miss, 0, 0, k, p);
  }

  /**
   * The result is made of three parts: the rewrite of everything before the
   * `k`-th entry, whose length differs from the original's by the
   * replacements in it; the entry's value (the loop's default for a macro
   * without one, or the macro itself when the loop skips it); and the
   * rewrite of everything after.
   */
  lemma SpliceSplit(text: string, occs: seq<Occurrence>, values: map<string, string>, miss: Missing, k: nat)
    requires PositionMap(text, occs) && k < |occs|
    ensures FitsAt(text, occs, k + 1, End(occs[k]))
    ensures Splice(text, occs, values, miss)
            == SpliceBefore(text, occs, values, miss, 0, k, 0)
               + (if occs[k].macro in values then values[occs[k].macro]
                  else if miss.Default? then miss.value
                  else occs[k].macro)
               + SpliceAt(text, occs, values, miss, k + 1, End(occs[k]))
    ensures |SpliceBefore(text, occs, values, miss, 0, k, 0)| == occs[k].pos + Shift(occs, values, miss, 0, k)
  {
    SpliceAtSplit(text, occs, values, miss, 0, k, 0);
    SpliceBeforeLength(text, occs, values, miss, 0, k, 0);
  }

  /** An empty position map, or one none of whose macros has a value when such macros are skipped, leaves the text as it was. */
  lemma {:induction false} SpliceIdentity(text: string, occs: seq<Occurrence>, values: map<string, string>, miss: Missing)
    requires PositionMap(text, occs)
    requires occs == [] || (miss == Keep && forall k :: 0 <= k < |occs| ==> occs[k].macro !in values)
    ensures Splice(text, occs, values, miss) == text
  {
    SpliceAtIdentity(text, occs, values, miss, 0, 0);
  }

  lemma {:induction false} SpliceAtIdentity(text: string, occs: seq<Occurrence>, values: map<string, string>, miss: Missing,
                                            i: nat, from: nat)
    requires PositionMap(text, occs) && i <= |occs| && FitsAt(text, occs, i, from)
    requires i == |occs| || (miss == Keep && forall k :: 0 <= k < |occs| ==> occs[k].macro !in values)
    ensures SpliceAt(text, occs, values, miss, i, from) == text[from..]
    decreases |occs| - i
  {
    if i < |occs| {
      var o := occs[i];
      SpliceAtIdentity(text, occs, values, miss, i + 1, End(o));
      assert Located(text, o);
      assert text[from..] == text[from..o.pos] + text[o.pos..End(o)] + text[End(o)..];
    }
  }

  /**
   * Once every positioned macro has an entry in the value map (the seeding
   * below guarantees it), what a loop does with a missing entry never matters.
   */
  lemma {:induction false} SeededPolicyIrrelevant(text: string, occs: seq<Occurrence>, values: map<string, string>,
                                                  m1: Missing, m2: Missing, i: nat, from: nat)
    requires i <= |occs| && FitsAt(text, occs, i, from)
    requires forall k :: 0 <= k < |occs| ==> occs[k].macro in values
    ensures SpliceAt(text, occs, values, m1, i, from) == SpliceAt(text, occs, values, m2, i, from)
    decreases |occs| - i
  {
    if i < |occs| {
      SeededPolicyIrrelevant(text, occs, values, m1, m2, i + 1, End(occs[i]));
    }
  }

  // ---------------------------------------------------------------------
  // HTML mode: an ordered list of fragments

  /** A piece of HTML-mode output: literal text of the source, or a resolved value. */
  datatype Fragment = Literal(text: string) | Value(text: string)

  function Concat(fs: seq<Fragment>): string
  {
    if fs == [] then [] else Concat(fs[..|fs|-1]) + fs[|fs|-1].text
  }

  /** The values among the fragments, in order. */
  function ValuesOf(fs: seq<Fragment>): seq<string>
  {
    if fs == [] then []
    else ValuesOf(fs[..|fs|-1]) + (if fs[|fs|-1].Value? then [fs[|fs|-1].text] else [])
  }

  /** The values of the first `i` positioned macros that have one, in position order. */
  function KnownValues(occs: seq<Occurrence>, values: map<string, string>, i: nat): seq<string>
    requires i <= |occs|
  {
    if i == 0 then []
    else KnownValues(occs, values, i - 1) + (if occs[i-1].macro in values then [values[occs[i-1].macro]] else [])
  }

  /** Starting the splice earlier only prepends the text in between. */
  lemma SpliceAtEarlier(text: string, occs: seq<Occurrence>, values: map<string, string>, i: nat, a: nat, b: nat)
    requires i <= |occs| && FitsAt(text, occs, i, b) && a <= b
    ensures FitsAt(text, occs, i, a)
    ensures SpliceAt(text, occs, values, Keep, i, a) == text[a..b] + SpliceAt(text, occs, values, Keep, i, b)
  {
    if i == |occs| {
      assert text[a..] == text[a..b] + text[b..];
    } else {
      assert text[a..occs[i].pos] == text[a..b] + text[b..occs[i].pos];
    }
  }

  /** One step of the ascending HTML loop over a macro without a value: the literal simply grows. */
  lemma SkipUnknown(text: string, occs: seq<Occurrence>, values: map<string, string>, i: nat, posLeft: nat)
    requires i < |occs| && FitsAt(text, occs, i, posLeft)
    requires occs[i].macro !in values && Located(text, occs[i])
    ensures FitsAt(text, occs, i + 1, posLeft)
    ensures SpliceAt(text, occs, values, Keep, i, posLeft) == SpliceAt(text, occs, values, Keep, i + 1, posLeft)
  {
    var o := occs[i];
    SpliceAtEarlier(text, occs, values, i + 1, posLeft, End(o));
    assert text[posLeft..End(o)] == text[posLeft..o.pos] + text[o.pos..End(o)];
  }

  /** No literal among the fragments is empty. */
  predicate NoEmptyLiteral(fs: seq<Fragment>)
  {
    fs == [] || (NoEmptyLiteral(fs[..|fs|-1]) && (fs[|fs|-1].Literal? ==> fs[|fs|-1].text != []))
  }

  lemma {:induction false} NoEmptyLiteralMeaning(fs: seq<Fragment>)
    ensures NoEmptyLiteral(fs) <==> forall k :: 0 <= k < |fs| && fs[k].Literal? ==> fs[k].text != []
  {
    if fs != [] {
      var front := fs[..|fs|-1];
      NoEmptyLiteralMeaning(front);
      assert forall k :: 0 <= k < |front| ==> front[k] == fs[k];
    }
  }

  lemma ConcatAppend(fs: seq<Fragment>, f: Fragment)
    ensures Concat(fs + [f]) == Concat(fs) + f.text
    ensures ValuesOf(fs + [f]) == ValuesOf(fs) + (if f.Value? then [f.text] else [])
    ensures NoEmptyLiteral(fs + [f]) <==> NoEmptyLiteral(fs) && (f.Literal? ==> f.text != [])
  {
    assert (fs + [f])[..|fs|] == fs;
  }

  /**
   * What the ascending HTML loop keeps true once the first `i` entries are
   * handled and the current literal starts at `posLeft`: the fragments so far
   * followed by the plain rewrite of the rest give the whole rewrite.
   */
  predicate HtmlLoop(text: string, occs: seq<Occurrence>, values: map<string, string>, i: nat, posLeft: nat,
                     frags: seq<Fragment>)
    requires PositionMap(text, occs) && i <= |occs|
  {
    && FitsAt(text, occs, i, posLeft)
    && Concat(frags) + SpliceAt(text, occs, values, Keep, i, posLeft) == Splice(text, occs, values, Keep)
    && ValuesOf(frags) == KnownValues(occs, values, i)
    && NoEmptyLiteral(frags)
  }

  lemma HtmlStart(text: string, occs: seq<Occurrence>, values: map<string, string>)
    requires PositionMap(text, occs)
    ensures HtmlLoop(text, occs, values, 0, 0, [])
  {
  }

  /** A macro without a value: the current literal simply grows over it. */
  lemma HtmlSkip(text: string, occs: seq<Occurrence>, values: map<string, string>, i: nat, posLeft: nat,
                 frags: seq<Fragment>)
    requires PositionMap(text, occs) && i < |occs| && HtmlLoop(text, occs, values, i, posLeft, frags)
    requires occs[i].macro !in values
    ensures HtmlLoop(text, occs, values, i + 1, posLeft, frags)
  {
    assert Located(text, occs[i]);
    SkipUnknown(text, occs, values, i, posLeft);
  }

  /** A macro with a value right where the current literal starts: only its value is emitted. */
  lemma HtmlValue(text: string, occs: seq<Occurrence>, values: map<string, string>, i: nat, posLeft: nat,
                  frags: seq<Fragment>)
    requires PositionMap(text, occs) && i < |occs| && HtmlLoop(text, occs, values, i, posLeft, frags)
    requires occs[i].macro in values && posLeft == occs[i].pos
    ensures HtmlLoop(text, occs, values, i + 1, End(occs[i]), frags + [Value(values[occs[i].macro])])
  {
    ConcatAppend(frags, Value(values[occs[i].macro]));
    assert text[posLeft..occs[i].pos] == [];
  }

  /** A macro with a value after some text: that text, then the value. */
  lemma HtmlLiteralAndValue(text: string, occs: seq<Occurrence>, values: map<string, string>, i: nat, posLeft: nat,
                            frags: seq<Fragment>)
    requires PositionMap(text, occs) && i < |occs| && HtmlLoop(text, occs, values, i, posLeft, frags)
    requires occs[i].macro in values && posLeft != occs[i].pos
    ensures posLeft <= occs[i].pos <= |text|
    ensures HtmlLoop(text, occs, values, i + 1, End(occs[i]),
                     frags + [Literal(text[posLeft..occs[i].pos])] + [Value(values[occs[i].macro])])
  {
    var lit := Literal(text[posLeft..occs[i].pos]);
    ConcatAppend(frags, lit);
    ConcatAppend(frags + [lit], Value(values[occs[i].macro]));
  }

  /** The tail slice closes the list. */
  lemma HtmlDone(text: string, occs: seq<Occurrence>, values: map<string, string>, posLeft: nat, frags: seq<Fragment>)
    requires PositionMap(text, occs) && HtmlLoop(text, occs, values, |occs|, posLeft, frags)
    ensures posLeft <= |text|
    ensures Concat(frags + [Literal(text[posLeft..])]) == Splice(text, occs, values, Keep)
    ensures ValuesOf(frags + [Literal(text[posLeft..])]) == KnownValues(occs, values, |occs|)
    ensures forall k :: 0 <= k < |frags| && frags[k].Literal? ==> frags[k].text != []
  {
    ConcatAppend(frags, Literal(text[posLeft..]));
    NoEmptyLiteralMeaning(frags);
  }

  /**
   * The HTML branch of resolveTriggerDescriptions: a literal slice is emitted
   * only when it is not empty, one value for each positioned macro that has
   * one (a macro without a value stays inside the following literal), and the
   * tail slice always closes the list. Joined, the fragments are the plain
   * rewrite that skips macros without a value.
   */
  method HtmlFragments(text: string, occs: seq<Occurrence>, values: map<string, string>) returns (frags: seq<Fragment>)
    requires PositionMap(text, occs)
    ensures Concat(frags) == Splice(text, occs, values, Keep)
    ensures ValuesOf(frags) == KnownValues(occs, values, |occs|)
    ensures |frags| > 0 && frags[|frags|-1].Literal?
    ensures forall k :: 0 <= k < |frags| - 1 && frags[k].Literal? ==> frags[k].text != []
  {
    frags := [];
    var posLeft: nat := 0;
    var i := 0;
    HtmlStart(text, occs, values);
    while i < |occs|
      invariant 0 <= i <= |occs|
      invariant HtmlLoop(text, occs, values, i, posLeft, frags)
    {
      if occs[i].macro in values {
        if posLeft != occs[i].pos {
          HtmlLiteralAndValue(text, occs, values, i, posLeft, frags);
          frags := frags + [Literal(text[posLeft..occs[i].pos])];
        } else {
          HtmlValue(text, occs, values, i, posLeft, frags);
        }
        frags := frags + [Value(values[occs[i].macro])];
        posLeft := End(occs[i]);
      } else {
        HtmlSkip(text, occs, values, i, posLeft, frags);
      }
      i := i + 1;
    }
    HtmlDone(text, occs, values, posLeft, frags);
    frags := frags + [Literal(text[posLeft..])];
  }

  // Seeding every extracted token with the sentinel

  /**
   * One extracted indexed macro (`{HOST.HOST2}`, `{ITEM.VALUE1}`, ...): the
   * token as written, the macro it names and the number of the trigger
   * function it refers to.
   */
  datatype Match = Match(token: string, macro: string, fnum: nat)

  /** A lookup to do: the value of `macro` for the function `functionid`, to be written to `token`. */
  datatype Request = Request(functionid: string, macro: string, token: string)

  /** The value map after seeding the tokens of `ms`. */
  function Seeded(values: map<string, string>, ms: seq<Match>): map<string, string>
  {
    if ms == [] then values
    else Seeded(values, ms[..|ms|-1])[ms[|ms|-1].token := Unresolved]
  }

  /** The lookups collected for the tokens of `ms`: only those whose function number names a function. */
  function Requests(ms: seq<Match>, functionids: map<nat, string>): seq<Request>
  {
    if ms == [] then []
    else
      var m := ms[|ms|-1];
      Requests(ms[..|ms|-1], functionids)
      + (if m.fnum in functionids then [Request(functionids[m.fnum], m.macro, m.token)] else [])
  }

  /**
   * The "find macros" loops of resolveTriggerNames and its siblings: every
   * token is set to the sentinel before anything is looked up, and a lookup
   * is queued only when the function number is known.
   */
  method SeedTokens(values: map<string, string>, ms: seq<Match>, functionids: map<nat, string>)
    returns (seeded: map<string, string>, requests: seq<Request>)
    ensures seeded == Seeded(values, ms)
    ensures requests == Requests(ms, functionids)
  {
    seeded := values;
    requests := [];
    var i := 0;
    while i < |ms|
      invariant 0 <= i <= |ms|
      invariant seeded == Seeded(values, ms[..i])
      invariant requests == Requests(ms[..i], functionids)
    {
      assert ms[..i+1][..i] == ms[..i];
      seeded := seeded[ms[i].token := Unresolved];
      if ms[i].fnum in functionids {
        requests := requests + [Request(functionids[ms[i].fnum], ms[i].macro, ms[i].token)];
      }
      i := i + 1;
    }
    assert ms[..i] == ms;
  }

  /** After seeding, every token holds the sentinel and every other entry is unchanged. */
  lemma {:induction false} SeededMeaning(values: map<string, string>, ms: seq<Match>, t: string)
    ensures t in Seeded(values, ms) <==> t in values || exists k :: 0 <= k < |ms| && ms[k].token == t
    ensures (exists k :: 0 <= k < |ms| && ms[k].token == t) ==> Seeded(values, ms)[t] == Unresolved
    ensures (forall k :: 0 <= k < |ms| ==> ms[k].token != t) && t in values ==> Seeded(values, ms)[t] == values[t]
  {
    if ms != [] {
      var front := ms[..|ms|-1];
      SeededMeaning(values, front, t);
      if exists k :: 0 <= k < |ms| && ms[k].token == t {
        var k :| 0 <= k < |ms| && ms[k].token == t;
        if k < |ms| - 1 {
          assert front[k].token == t;
        }
      }
      if exists k :: 0 <= k < |front| && front[k].token == t {
        var k :| 0 <= k < |front| && front[k].token == t;
        assert ms[k].token == t;
      }
    }
  }

  /** The lookup asks for the value of some match whose function number is known. */
  predicate FromSomeMatch(r: Request, ms: seq<Match>, functionids: map<nat, string>)
  {
    exists k :: 0 <= k < |ms| && ms[k].fnum in functionids && r == Request(functionids[ms[k].fnum], ms[k].macro, ms[k].token)
  }

  /** A token gets a lookup exactly when its function number is known. */
  lemma {:induction false} RequestsMeaning(ms: seq<Match>, functionids: map<nat, string>)
    ensures forall k :: 0 <= k < |ms| && ms[k].fnum in functionids ==>
              Request(functionids[ms[k].fnum], ms[k].macro, ms[k].token) in Requests(ms, functionids)
    ensures forall r :: r in Requests(ms, functionids) ==> FromSomeMatch(r, ms, functionids)
  {
    if ms != [] {
      var front := ms[..|ms|-1];
      RequestsMeaning(front, functionids);
      var rs := Requests(ms, functionids);
      var fr := Requests(front, functionids);
      forall k | 0 <= k < |ms| && ms[k].fnum in functionids
        ensures Request(functionids[ms[k].fnum], ms[k].macro, ms[k].token) in rs
      {
        if k < |front| {
          assert front[k] == ms[k];
        }
      }
      forall r | r in rs
        ensures FromSomeMatch(r, ms, functionids)
      {
        if r in fr {
          var k :| 0 <= k < |front| && front[k].fnum in functionids
                   && r == Request(functionids[front[k].fnum], front[k].macro, front[k].token);
          assert ms[k] == front[k];
        } else {
          var k := |ms| - 1;
          assert ms[k].fnum in functionids && r == Request(functionids[ms[k].fnum], ms[k].macro, ms[k].token);
        }
      }
    }
  }

  /**
   * The lookups (getHostMacros, getIpMacros, ... , not part of this model)
   * overwrite the seeded entries of the tokens they found a value for.
   */
  function Resolved(seeded: map<string, string>, found: map<string, string>): (r: map<string, string>)
    ensures r.Keys == seeded.Keys
  {
    map t | t in seeded :: if t in found then found[t] else seeded[t]
  }

  /**
   * A lookup miss leaves the sentinel, never an empty string: after seeding
   * and the lookups, a token holds what was found for it, or else the sentinel.
   */
  lemma LookupMissIsUnresolved(values: map<string, string>, ms: seq<Match>, found: map<string, string>, k: nat)
    requires k < |ms|
    ensures ms[k].token in Resolved(Seeded(values, ms), found)
    ensures Resolved(Seeded(values, ms), found)[ms[k].token] == (if ms[k].token in found then found[ms[k].token] else Unresolved)
    ensures ms[k].token !in found ==> Resolved(Seeded(values, ms), found)[ms[k].token] != []
  {
    SeededMeaning(values, ms, ms[k].token);
  }
}
