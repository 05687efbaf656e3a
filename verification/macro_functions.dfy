/**
 * Trigger functions as CMacrosResolver shows them (resolveTriggerExpressions)
 * and the host placeholder of expression macros (resolveExpressionMacroHost),
 * both in ui/include/classes/macros/CMacrosResolver.php.
 */
module MacroFunctions {
  import opened Wrappers
  import opened Strings

  // ---------------------------------------------------------------------
  // Joining functions with their items and hosts

  /** A row of the functions table: the item it reads, its name and its parameter text. */
  datatype TriggerFunction = TriggerFunction(itemid: string, name: string, parameter: string)

  /** What the renderer needs of an item: its host and its key. */
  datatype ItemRow = ItemRow(hostid: string, key: string)

  /** A trigger function with its item's key and its host's technical name attached. */
  datatype Bound = Bound(name: string, parameter: string, host: string, key: string)

  /** The function of macro `m` can be shown: its item was found, and so was the item's host. */
  predicate Bindable(functions: map<string, TriggerFunction>, items: map<string, ItemRow>, hosts: map<string, string>,
                     m: string)
  {
    m in functions && functions[m].itemid in items && items[functions[m].itemid].hostid in hosts
  }

  /**
   * The loop over the trigger functions in resolveTriggerExpressions: a
   * function whose item, or whose item's host, is missing is removed, and
   * every other one gets the host name and the item key.
   */
  method BindFunctions(functions: map<string, TriggerFunction>, items: map<string, ItemRow>, hosts: map<string, string>)
    returns (bound: map<string, Bound>)
    ensures forall m :: m in bound <==> Bindable(functions, items, hosts, m)
    ensures forall m :: Bindable(functions, items, hosts, m) ==>
              var f := functions[m];
              bound[m] == Bound(f.name, f.parameter, hosts[items[f.itemid].hostid], items[f.itemid].key)
  {
    bound := map[];
    var todo := functions.Keys;
    while todo != {}
      invariant todo <= functions.Keys
      invariant forall m :: m in bound <==> Bindable(functions, items, hosts, m) && m !in todo
      invariant forall m :: Bindable(functions, items, hosts, m) && m in bound ==>
                  var f := functions[m];
                  bound[m] == Bound(f.name, f.parameter, hosts[items[f.itemid].hostid], items[f.itemid].key)
      decreases |todo|
    {
      var m :| m in todo;
      var f := functions[m];
      if f.itemid in items && items[f.itemid].hostid in hosts {
        var item := items[f.itemid];
        bound := bound[m := Bound(f.name, f.parameter, hosts[item.hostid], item.key)];
      }
      todo := todo - {m};
    }
  }

  // ---------------------------------------------------------------------
  // Rendering

  /** What a functionid macro without a function shows. */
  const ErrorText: string := "*ERROR*"

  /** The item query the placeholder stands for. */
  function Query(f: Bound): string
  {
    "/" + f.host + "/" + f.key
  }

  /**
   * The plain rendering: the function name, then its parameter in
   * parentheses with the first placeholder character replaced by the query.
   */
  function FunctionText(f: Bound, placeholder: char): (r: string)
    ensures placeholder !in f.parameter ==> r == f.name + "(" + f.parameter + ")"
  {
    var p := IndexOf(f.parameter, placeholder);
    var params := if p >= 0 then f.parameter[..p] + Query(f) + f.parameter[p + 1..] else f.parameter;
    f.name + "(" + params + ")"
  }

  /** Only the first placeholder is replaced: whatever follows it stays as written. */
  lemma FunctionTextFirstPlaceholder(f: Bound, placeholder: char, p: nat)
    requires p < |f.parameter| && f.parameter[p] == placeholder && placeholder !in f.parameter[..p]
    ensures FunctionText(f, placeholder) == f.name + "(" + f.parameter[..p] + Query(f) + f.parameter[p + 1..] + ")"
  {
  }

  /** The plain value of a functionid macro. */
  function FunctionMacroValue(macro: string, bound: map<string, Bound>, placeholder: char): (r: string)
    ensures macro !in bound ==> r == ErrorText
    ensures macro in bound ==> r == FunctionText(bound[macro], placeholder)
  {
    if macro in bound then FunctionText(bound[macro], placeholder) else ErrorText
  }

  /** A piece of the HTML rendering: bold text, plain text, or the item query (a link or a span). */
  datatype Html = Bold(text: string) | Plain(text: string) | ItemQuery(text: string)

  function Flatten(hs: seq<Html>): string
  {
    if hs == [] then [] else Flatten(hs[..|hs|-1]) + hs[|hs|-1].text
  }

  /**
   * The HTML rendering: the name and the opening parenthesis in bold, the
   * parameter text before the placeholder (when there is any), the item
   * query, the parameter text after it (when there is any), and the closing
   * parenthesis in bold.
   */
  function FunctionHtml(f: Bound, placeholder: char): (r: seq<Html>)
    ensures |r| >= 3 && r[0] == Bold(f.name + "(") && r[|r|-1] == Bold(")")
    ensures placeholder in f.parameter ==> ItemQuery(Query(f)) in r
    ensures placeholder !in f.parameter ==> forall k :: 0 <= k < |r| ==> !r[k].ItemQuery?
    ensures placeholder in f.parameter ==> forall k :: 0 < k < |r| - 1 ==> r[k].text != []
  {
    [Bold(f.name + "(")] + Middle(f, IndexOf(f.parameter, placeholder)) + [Bold(")")]
  }

  /** A plain piece, left out when its text is empty. */
  function Optional(x: string): seq<Html>
  {
    if x == [] then [] else [Plain(x)]
  }

  /** The pieces between the parentheses, for the placeholder at `p` (or none when `p` is -1). */
  function Middle(f: Bound, p: int): seq<Html>
    requires -1 <= p < |f.parameter|
  {
    if p >= 0 then Optional(f.parameter[..p]) + [ItemQuery(Query(f))] + Optional(f.parameter[p + 1..])
    else [Plain(f.parameter)]
  }

  lemma FlattenAppend(a: seq<Html>, b: seq<Html>)
    ensures Flatten(a + b) == Flatten(a) + Flatten(b)
    decreases |b|
  {
    if b != [] {
      assert (a + b)[..|a + b| - 1] == a + b[..|b| - 1];
      FlattenAppend(a, b[..|b| - 1]);
    } else {
      assert a + b == a;
    }
  }

  /** The HTML pieces, read as text, are the plain rendering. */
  lemma FlattenOptional(x: string)
    ensures Flatten(Optional(x)) == x
  {
    if x != [] {
      assert Optional(x)[..0] == [];
    }
  }

  lemma FlattenAround(head: Html, middle: seq<Html>, tail: Html)
    ensures Flatten([head] + middle + [tail]) == head.text + Flatten(middle) + tail.text
  {
    assert [head][..0] == [];
    FlattenAppend([head], middle);
    FlattenAppend([head] + middle, [tail]);
  }

  /** The HTML pieces, read as text, are the plain rendering. */
  lemma HtmlMatchesText(f: Bound, placeholder: char)
    ensures Flatten(FunctionHtml(f, placeholder)) == FunctionText(f, placeholder)
  {
    var p := IndexOf(f.parameter, placeholder);
    var middle := Middle(f, p);
    assert FunctionHtml(f, placeholder) == [Bold(f.name + "(")] + middle + [Bold(")")];
    FlattenAround(Bold(f.name + "("), middle, Bold(")"));
    if p >= 0 {
      var pre, q, post := Optional(f.parameter[..p]), [ItemQuery(Query(f))], Optional(f.parameter[p + 1..]);
      assert q[..0] == [];
      FlattenOptional(f.parameter[..p]);
      FlattenOptional(f.parameter[p + 1..]);
      FlattenAppend(pre, q);
      FlattenAppend(pre + q, post);
    } else {
      assert middle[..0] == [];
    }
  }

  // ---------------------------------------------------------------------
  // resolveExpressionMacroHost

  /** The result: the expression macro and the host the function now names. */
  datatype HostResult = HostResult(macro: string, host: string)

  /** `t` occurs in `s` at position `i`. */
  predicate HasAt(s: string, i: nat, t: string)
  {
    i + |t| <= |s| && s[i..i + |t|] == t
  }

  /**
   * The length of the match at position `i` of the pattern the function
   * uses: `//` for an empty host, or `/{HOST.HOST}/` with an optional digit
   * 1 to 9 before the closing brace; 0 when there is none.
   */
  function MatchLen(s: string, i: nat, emptyHost: bool): (n: nat)
    ensures n > 0 ==> i + n <= |s|
  {
    if emptyHost then (if HasAt(s, i, "//") then 2 else 0)
    else if HasAt(s, i, "/{HOST.HOST}/") then 13
    else if HasAt(s, i, "/{HOST.HOST") && i + 14 <= |s| && '1' <= s[i + 11] <= '9' && HasAt(s, i + 12, "}/") then 14
    else 0
  }

  /** preg_replace with a limit of 1, from position `i` on: the leftmost match is replaced by `rep`. */
  function ReplaceFirst(s: string, i: nat, emptyHost: bool, rep: string): string
    requires i <= |s|
    decreases |s| - i
  {
    if i == |s| then s
    else if MatchLen(s, i, emptyHost) > 0 then s[..i] + rep + s[i + MatchLen(s, i, emptyHost)..]
    else ReplaceFirst(s, i + 1, emptyHost, rep)
  }

  /** Without a match from `i` on, nothing is replaced. */
  lemma {:induction false} ReplaceFirstNoMatch(s: string, i: nat, emptyHost: bool, rep: string)
    requires i <= |s|
    requires forall j :: i <= j < |s| ==> MatchLen(s, j, emptyHost) == 0
    ensures ReplaceFirst(s, i, emptyHost, rep) == s
    decreases |s| - i
  {
    if i < |s| {
      ReplaceFirstNoMatch(s, i + 1, emptyHost, rep);
    }
  }

  /** The leftmost match in `s` starts at `p`. */
  predicate FirstMatchAt(s: string, p: nat, emptyHost: bool)
  {
    p < |s| && MatchLen(s, p, emptyHost) > 0 && forall j :: 0 <= j < p ==> MatchLen(s, j, emptyHost) == 0
  }

  /** With the leftmost match from `i` on at `p`, exactly that match is replaced. */
  lemma {:induction false} ReplaceFirstAt(s: string, i: nat, p: nat, emptyHost: bool, rep: string)
    requires i <= p < |s| && MatchLen(s, p, emptyHost) > 0
    requires forall j :: i <= j < p ==> MatchLen(s, j, emptyHost) == 0
    ensures p + MatchLen(s, p, emptyHost) <= |s|
    ensures ReplaceFirst(s, i, emptyHost, rep) == s[..p] + rep + s[p + MatchLen(s, p, emptyHost)..]
    decreases p - i
  {
    if i < p {
      ReplaceFirstAt(s, i + 1, p, emptyHost, rep);
    }
  }

  /** The item a host placeholder refers to: the first for an empty host or a reference of 0, else the reference minus one. */
  function ItemIndex(host: string, reference: nat): nat
  {
    if host == [] || reference == 0 then 0 else reference - 1
  }

  /**
   * An empty host or a {HOST.HOST<n>} placeholder is replaced by the host
   * of the item it refers to (`reference` is what the macro parser read
   * from the placeholder); a literal host name, or a reference to an item
   * that is not there, leaves both the macro and the host as they were.
   */
  function ResolveExpressionMacroHost(macro: string, host: string, reference: nat, items: map<nat, string>): (r: HostResult)
    ensures host != [] && host[0] != '{' ==> r == HostResult(macro, host)
    ensures ItemIndex(host, reference) !in items ==> r == HostResult(macro, host)
    ensures (host == [] || host[0] == '{') && ItemIndex(host, reference) in items ==>
              r.host == items[ItemIndex(host, reference)]
  {
    if host == [] || host[0] == '{' then
      var index := ItemIndex(host, reference);
      if index !in items then HostResult(macro, host)
      else
        var newHost := items[index];
        HostResult(ReplaceFirst(macro, 0, host == [], "/" + newHost + "/"), newHost)
    else HostResult(macro, host)
  }

  /** {HOST.HOST} and {HOST.HOST1} both name the first item's host. */
  lemma FirstHostTwoWays(macro: string, host: string, items: map<nat, string>)
    requires host != []
    ensures ResolveExpressionMacroHost(macro, host, 0, items) == ResolveExpressionMacroHost(macro, host, 1, items)
  {
  }

  /**
   * When the placeholder is resolved, the macro has the new host, between
   * slashes, exactly where the leftmost placeholder was, and is otherwise
   * unchanged; without a placeholder in it the macro stays as it was.
   */
  lemma ResolvedMacroShape(macro: string, host: string, reference: nat, items: map<nat, string>, p: nat)
    requires host == [] || host[0] == '{'
    requires ItemIndex(host, reference) in items
    requires FirstMatchAt(macro, p, host == [])
    ensures p + MatchLen(macro, p, host == []) <= |macro|
    ensures ResolveExpressionMacroHost(macro, host, reference, items).macro
            == macro[..p] + "/" + items[ItemIndex(host, reference)] + "/" + macro[p + MatchLen(macro, p, host == [])..]
  {
    ReplaceFirstAt(macro, 0, p, host == [], "/" + items[ItemIndex(host, reference)] + "/");
  }
}
