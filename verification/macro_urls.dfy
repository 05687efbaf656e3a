/**
 * Media type URLs with {EVENT.TAGS.<tag>} macros, resolved per event
 * (resolveMediaTypeUrls in ui/include/classes/macros/CMacrosResolver.php).
 */
module MacroUrls {
  import opened Wrappers

  /** An event tag. */
  datatype Tag = Tag(tag: string, value: string)

  /** A media type URL: the address and the label shown for it. */
  datatype Url = Url(url: string, name: string)

  // ---------------------------------------------------------------------
  // First value per tag

  /** Tag name to value, where an earlier tag wins over a later one of the same name. */
  function TagValues(tags: seq<Tag>): map<string, string>
  {
    if tags == [] then map[]
    else
      var earlier := TagValues(tags[..|tags| - 1]);
      var last := tags[|tags| - 1];
      if last.tag in earlier then earlier else earlier[last.tag := last.value]
  }

  /** The `$tag_value += [tag => value]` loop over the (sorted) tags. */
  method FirstValues(tags: seq<Tag>) returns (tv: map<string, string>)
    ensures tv == TagValues(tags)
  {
    tv := map[];
    for i := 0 to |tags|
      invariant tv == TagValues(tags[..i])
    {
      assert tags[..i + 1][..i] == tags[..i];
      if tags[i].tag !in tv {
        tv := tv[tags[i].tag := tags[i].value];
      }
    }
    assert tags[..|tags|] == tags;
  }

  /** `tags[i]` is the first tag with its name. */
  predicate FirstOfName(tags: seq<Tag>, i: nat)
  {
    i < |tags| && forall j :: 0 <= j < i ==> tags[j].tag != tags[i].tag
  }

  /** Every tag name has a value, and it is the value of the first tag with that name. */
  lemma {:induction false} FirstValueWins(tags: seq<Tag>, i: nat)
    requires FirstOfName(tags, i)
    ensures tags[i].tag in TagValues(tags)
    ensures TagValues(tags)[tags[i].tag] == tags[i].value
    decreases |tags|
  {
    var init := tags[..|tags| - 1];
    if i < |tags| - 1 {
      assert FirstOfName(init, i) by {
        forall j | 0 <= j < i
          ensures init[j].tag != init[i].tag
        {
          assert init[j] == tags[j];
        }
      }
      FirstValueWins(init, i);
    } else {
      TagValuesDomain(init);
    }
  }

  /** The names with a value are exactly the names of the tags. */
  lemma {:induction false} TagValuesDomain(tags: seq<Tag>)
    ensures forall t :: t in TagValues(tags) <==> exists j :: 0 <= j < |tags| && tags[j].tag == t
    decreases |tags|
  {
    if tags != [] {
      var init := tags[..|tags| - 1];
      TagValuesDomain(init);
      forall t | t in TagValues(tags)
        ensures exists j :: 0 <= j < |tags| && tags[j].tag == t
      {
        if t in TagValues(init) {
          var j :| 0 <= j < |init| && init[j].tag == t;
          assert tags[j] == init[j];
        } else {
          assert tags[|tags| - 1].tag == t;
        }
      }
      forall t | exists j :: 0 <= j < |tags| && tags[j].tag == t
        ensures t in TagValues(tags)
      {
        var j :| 0 <= j < |tags| && tags[j].tag == t;
        if j < |tags| - 1 {
          assert init[j] == tags[j];
        }
      }
    }
  }

  // ---------------------------------------------------------------------
  // strtr

  /** `t` occurs in `s` at position `i`. */
  predicate HasAt(s: string, i: nat, t: string)
  {
    i + |t| <= |s| && s[i..i + |t|] == t
  }

  /** The `m` characters at position `i` form a key of `pairs`. */
  predicate KeyOfLength(s: string, i: nat, m: nat, pairs: map<string, string>)
  {
    i + m <= |s| && s[i..i + m] in pairs
  }

  /** The length of the longest non-empty key of `pairs` at position `i`, trying lengths from `n` down. */
  function LongestKey(s: string, i: nat, n: nat, pairs: map<string, string>): (r: Option<nat>)
    requires i + n <= |s|
    ensures r.Some? ==> 0 < r.value <= n && s[i..i + r.value] in pairs
    ensures r.None? ==> forall m :: 0 < m <= n ==> !KeyOfLength(s, i, m, pairs)
  {
    if n == 0 then None
    else if s[i..i + n] in pairs then Some(n)
    else LongestKey(s, i, n - 1, pairs)
  }

  /**
   * PHP's strtr with an array, from position `i` on: at each position the
   * longest matching key is replaced by its value and the scan continues
   * after it, so replaced text is never scanned again; where no key
   * matches, the character is kept.
   */
  function StrTrFrom(s: string, i: nat, pairs: map<string, string>): string
    requires i <= |s|
    decreases |s| - i
  {
    if i == |s| then []
    else match LongestKey(s, i, |s| - i, pairs)
      case Some(n) => pairs[s[i..i + n]] + StrTrFrom(s, i + n, pairs)
      case None => [s[i]] + StrTrFrom(s, i + 1, pairs)
  }

  function StrTr(s: string, pairs: map<string, string>): string
  {
    StrTrFrom(s, 0, pairs)
  }

  /** No key of `pairs` occurs in `s` from `i` on. */
  predicate NoKeyFrom(s: string, i: nat, pairs: map<string, string>)
  {
    forall j, k :: i <= j < |s| && k in pairs && k != [] ==> !HasAt(s, j, k)
  }

  /** Text in which no key occurs comes back unchanged. */
  lemma {:induction false} StrTrNoKey(s: string, i: nat, pairs: map<string, string>)
    requires i <= |s| && NoKeyFrom(s, i, pairs)
    ensures StrTrFrom(s, i, pairs) == s[i..]
    decreases |s| - i
  {
    if i < |s| {
      var r := LongestKey(s, i, |s| - i, pairs);
      if r.Some? {
        assert HasAt(s, i, s[i..i + r.value]);
        assert false;
      }
      StrTrNoKey(s, i + 1, pairs);
      assert s[i..] == [s[i]] + s[i + 1..];
    }
  }

  /** A key found at the scan position is replaced by its value, the longest one when several match. */
  lemma StrTrReplacesLongest(s: string, i: nat, pairs: map<string, string>, n: nat)
    requires 0 < n && i + n <= |s| && s[i..i + n] in pairs
    requires forall m :: n < m <= |s| - i ==> !KeyOfLength(s, i, m, pairs)
    ensures StrTrFrom(s, i, pairs) == pairs[s[i..i + n]] + StrTrFrom(s, i + n, pairs)
  {
    LongestKeyIsLongest(s, i, |s| - i, n, pairs);
  }

  lemma {:induction false} LongestKeyIsLongest(s: string, i: nat, top: nat, n: nat, pairs: map<string, string>)
    requires 0 < n <= top && i + top <= |s| && s[i..i + n] in pairs
    requires forall m :: n < m <= top ==> !KeyOfLength(s, i, m, pairs)
    ensures LongestKey(s, i, top, pairs) == Some(n)
    decreases top
  {
    if top > n {
      assert !KeyOfLength(s, i, top, pairs);
      LongestKeyIsLongest(s, i, top - 1, n, pairs);
    }
  }

  // ---------------------------------------------------------------------
  // Resolving the URLs of one event

  /** Every token of any URL. */
  function AllTokens(urlTokens: seq<set<string>>): (r: set<string>)
    ensures forall i :: 0 <= i < |urlTokens| ==> urlTokens[i] <= r
  {
    if urlTokens == [] then {} else AllTokens(urlTokens[..|urlTokens| - 1]) + urlTokens[|urlTokens| - 1]
  }

  /**
   * The value of each token for an event: the event's value for the tag the
   * token names, or None (PHP's null) when the event has no such tag.
   */
  function TokenValues(tokens: set<string>, tagOf: string -> string, tv: map<string, string>): (r: map<string, Option<string>>)
    ensures r.Keys == tokens
    ensures forall t :: t in r ==> (r[t].Some? <==> tagOf(t) in tv)
    ensures forall t :: t in r && r[t].Some? ==> r[t].value == tv[tagOf(t)]
  {
    map t | t in tokens :: if tagOf(t) in tv then Some(tv[tagOf(t)]) else None
  }

  /** The pairs strtr gets: every token of the event, a missing value read as the empty string. */
  function Pairs(values: map<string, Option<string>>): (r: map<string, string>)
    ensures r.Keys == values.Keys
    ensures forall t :: t in values && values[t].Some? ==> r[t] == values[t].value
  {
    map t | t in values :: if values[t].Some? then values[t].value else ""
  }

  predicate Resolved(tokens: set<string>, values: map<string, Option<string>>)
  {
    forall t :: t in tokens ==> t in values && values[t].Some?
  }

  /**
   * One URL for one event: a URL without tokens is kept as it is; one with
   * an unresolved token is dropped; otherwise both its address and its
   * label go through strtr with all of the event's token values.
   */
  function ResolveUrl(url: Url, tokens: set<string>, values: map<string, Option<string>>): (r: Option<Url>)
    ensures tokens == {} ==> r == Some(url)
    ensures r.None? <==> tokens != {} && !Resolved(tokens, values)
  {
    if tokens == {} then Some(url)
    else if !Resolved(tokens, values) then None
    else Some(Url(StrTr(url.url, Pairs(values)), StrTr(url.name, Pairs(values))))
  }

  /** The URLs of an event: the kept ones, in the order of the media type's URLs. */
  function Kept(urls: seq<Url>, urlTokens: seq<set<string>>, values: map<string, Option<string>>): seq<Url>
    requires |urlTokens| == |urls|
  {
    if urls == [] then []
    else
      var n := |urls| - 1;
      var init := Kept(urls[..n], urlTokens[..n], values);
      match ResolveUrl(urls[n], urlTokens[n], values)
      case Some(u) => init + [u]
      case None => init
  }

  /** The check that every token of a URL has a value (the loop left by `continue 2`). */
  method AllResolved(tokens: set<string>, values: map<string, Option<string>>) returns (ok: bool)
    ensures ok <==> Resolved(tokens, values)
  {
    var todo := tokens;
    while todo != {}
      invariant todo <= tokens
      invariant forall t :: t in tokens && t !in todo ==> t in values && values[t].Some?
      decreases |todo|
    {
      var t :| t in todo;
      if t !in values || values[t].None? {
        return false;
      }
      todo := todo - {t};
    }
    return true;
  }

  /**
   * The URLs of one event. `urlTokens[i]` are the {EVENT.TAGS.*} tokens
   * found in the address and the label of `urls[i]`, and `tagOf` gives the
   * tag a token names; `tags` are the event's tags, already sorted by tag
   * and value.
   */
  method EventUrls(tags: seq<Tag>, urls: seq<Url>, urlTokens: seq<set<string>>, tagOf: string -> string)
    returns (result: seq<Url>)
    requires |urlTokens| == |urls|
    ensures result == Kept(urls, urlTokens, TokenValues(AllTokens(urlTokens), tagOf, TagValues(tags)))
  {
    var tv := FirstValues(tags);
    var values := TokenValues(AllTokens(urlTokens), tagOf, tv);
    result := [];
    for i := 0 to |urls|
      invariant result == Kept(urls[..i], urlTokens[..i], values)
    {
      KeptStep(urls, urlTokens, values, i);
      var url := urls[i];
      if urlTokens[i] == {} {
        result := result + [url];
      } else {
        var ok := AllResolved(urlTokens[i], values);
        if ok {
          result := result + [Url(StrTr(url.url, Pairs(values)), StrTr(url.name, Pairs(values)))];
        }
      }
    }
    assert urls[..|urls|] == urls && urlTokens[..|urlTokens|] == urlTokens;
  }

  lemma KeptStep(urls: seq<Url>, urlTokens: seq<set<string>>, values: map<string, Option<string>>, i: nat)
    requires |urlTokens| == |urls| && i < |urls|
    ensures ResolveUrl(urls[i], urlTokens[i], values).Some? ==>
              Kept(urls[..i + 1], urlTokens[..i + 1], values)
              == Kept(urls[..i], urlTokens[..i], values) + [ResolveUrl(urls[i], urlTokens[i], values).value]
    ensures ResolveUrl(urls[i], urlTokens[i], values).None? ==>
              Kept(urls[..i + 1], urlTokens[..i + 1], values) == Kept(urls[..i], urlTokens[..i], values)
  {
    assert urls[..i + 1][..i] == urls[..i] && urlTokens[..i + 1][..i] == urlTokens[..i];
  }

  /** The number of URLs of a list that are kept. */
  function KeptCount(urlTokens: seq<set<string>>, values: map<string, Option<string>>): nat
  {
    if urlTokens == [] then 0
    else
      var n := |urlTokens| - 1;
      KeptCount(urlTokens[..n], values) + (if urlTokens[n] == {} || Resolved(urlTokens[n], values) then 1 else 0)
  }

  /** Exactly the URLs without tokens and those whose tokens all resolve are kept. */
  lemma {:induction false} KeptLength(urls: seq<Url>, urlTokens: seq<set<string>>, values: map<string, Option<string>>)
    requires |urlTokens| == |urls|
    ensures |Kept(urls, urlTokens, values)| == KeptCount(urlTokens, values)
    decreases |urls|
  {
    if urls != [] {
      var n := |urls| - 1;
      KeptLength(urls[..n], urlTokens[..n], values);
    }
  }

  /** When no URL has a token, the URLs come back unchanged and in order. */
  lemma {:induction false} NoTokensUnchanged(urls: seq<Url>, urlTokens: seq<set<string>>, values: map<string, Option<string>>)
    requires |urlTokens| == |urls|
    requires forall i :: 0 <= i < |urlTokens| ==> urlTokens[i] == {}
    ensures Kept(urls, urlTokens, values) == urls
    decreases |urls|
  {
    if urls != [] {
      var n := |urls| - 1;
      NoTokensUnchanged(urls[..n], urlTokens[..n], values);
      assert urls[..n] + [urls[n]] == urls;
    }
  }

  /** When every token of the event resolves, every URL is kept, in order, each rewritten by strtr. */
  lemma {:induction false} AllResolvedKeepsAll(urls: seq<Url>, urlTokens: seq<set<string>>, values: map<string, Option<string>>)
    requires |urlTokens| == |urls|
    requires Resolved(AllTokens(urlTokens), values)
    ensures |Kept(urls, urlTokens, values)| == |urls|
    ensures forall i :: 0 <= i < |urls| ==>
              Kept(urls, urlTokens, values)[i] == ResolveUrl(urls[i], urlTokens[i], values).value
    decreases |urls|
  {
    if urls != [] {
      var n := |urls| - 1;
      assert AllTokens(urlTokens[..n]) <= AllTokens(urlTokens);
      AllResolvedKeepsAll(urls[..n], urlTokens[..n], values);
      assert urlTokens[n] <= AllTokens(urlTokens);
    }
  }
}
