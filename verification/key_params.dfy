/**
 * replace_key_params_dyn and replace_key_param of src/libs/zbxparam/param.c:
 * a walk over an item key or SNMP OID that hands its head and every parameter
 * to a callback, which may return a replacement for that piece.
 *
 * `*data` is a value that the walk replaces; the callback, is_key_char and the
 * two macro parsers are function parameters. The callback's side effects on
 * `cb_data` are not modelled: it is a function of its arguments.
 */
module KeyParams {
  import opened Wrappers

  /** ZBX_KEY_TYPE_ITEM and ZBX_KEY_TYPE_OID */
  datatype KeyType = ItemKey | SnmpOid

  /** ZBX_STATE_NEW, ZBX_STATE_END, ZBX_STATE_UNQUOTED, ZBX_STATE_QUOTED */
  datatype KState = New | End | Unquoted | Quoted

  /** The callback: piece, key type, level, parameter number, quoted; SUCCEED and an optional replacement. */
  type Callback = (string, KeyType, int, int, bool) -> (bool, Option<string>)

  /** A macro parser at the start of the text: the index of the macro's last character. */
  type MacroParser = string -> Option<nat>

  /** One call made to the callback. */
  datatype Call = Call(text: string, level: int, num: int, quoted: bool)

  /** A parser that reports a macro ending inside the text it was given. */
  ghost predicate Fits(parse: MacroParser)
  {
    forall t :: parse(t).Some? ==> parse(t).value < |t|
  }

  /** zbx_replace_string over the block [l, r): the text before and after the block is kept. */
  function Splice(data: string, l: nat, r: nat, v: string): (d: string)
    requires l <= r <= |data|
    ensures |d| == |data| - (r - l) + |v|
    ensures d[..l] == data[..l] && d[l..l + |v|] == v && d[l + |v|..] == data[r..]
  {
    data[..l] + v + data[r..]
  }

  /** The variables of the replace_key_params_dyn loop, with the calls made so far. */
  datatype Scan = Scan(data: string, i: nat, l: nat, level: int, num: int, state: KState, ok: bool,
                       calls: seq<Call>)

  /** A configuration the loop can be in: `i` within `data`, and a piece begun before `i`. */
  predicate Sound(c: Scan)
  {
    c.i <= |c.data| && c.l <= c.i && (c.state == Unquoted || c.state == Quoted ==> c.l < c.i)
  }

  /**
   * replace_key_param on the block [l, r): the callback sees the block; a
   * replacement takes its place and `i` ends just after it.
   */
  function Invoke(kt: KeyType, cb: Callback, c: Scan, l: nat, r: nat, quoted: bool): (d: Scan)
    requires l <= r <= |c.data|
    ensures l <= d.i <= |d.data| && |d.data| - d.i == |c.data| - r
    ensures d.calls == c.calls + [Call(c.data[l..r], c.level, c.num, quoted)]
    ensures d.level == c.level && d.num == c.num && d.state == c.state && d.l == c.l
    ensures d.ok == cb(c.data[l..r], kt, c.level, c.num, quoted).0
    ensures cb(c.data[l..r], kt, c.level, c.num, quoted).1.None? ==> d.data == c.data && d.i == r
  {
    var res := cb(c.data[l..r], kt, c.level, c.num, quoted);
    var calls := c.calls + [Call(c.data[l..r], c.level, c.num, quoted)];
    match res.1
    case None => c.(i := r, ok := res.0, calls := calls)
    case Some(v) => c.(data := Splice(c.data, l, r, v), i := l + |v|, ok := res.0, calls := calls)
  }

  /**
   * replace_key_param changes only the block it was given: the text before it
   * stays, the replacement (or the block itself) follows, and the rest follows
   * that, from the new `i` on.
   */
  lemma InvokeKeepsOutside(kt: KeyType, cb: Callback, c: Scan, l: nat, r: nat, quoted: bool)
    requires l <= r <= |c.data|
    ensures var d := Invoke(kt, cb, c, l, r, quoted);
      var v := cb(c.data[l..r], kt, c.level, c.num, quoted).1;
      d.data[..l] == c.data[..l] && d.data[d.i..] == c.data[r..] &&
      d.data[l..d.i] == (if v.Some? then v.value else c.data[l..r])
  {
  }

  datatype KeyStep = Next(c: Scan) | Clean(c: Scan)

  /** Termination measure: `i` moves towards the end of the unscanned suffix, or state 2 turns to 1. */
  function Rank(c: Scan): nat
    requires c.i <= |c.data|
  {
    2 * (|c.data| - c.i) + (if c.state == Unquoted then 1 else 0)
  }

  /** What every pass of the loop keeps: a sound configuration, progress, and the calls made so far. */
  predicate Passes(c: Scan, r: KeyStep)
    requires Sound(c) && c.i < |c.data|
  {
    Sound(r.c) && (r.Next? ==> Rank(r.c) < Rank(c)) && (r.Clean? ==> r.c == c && c.data[c.i] != ' ') &&
    c.calls <= r.c.calls
  }

  /** One pass of the loop body on the character at `i`; `Clean` is its `goto clean`. */
  function Step(kt: KeyType, cb: Callback, c: Scan): (r: KeyStep)
    requires Sound(c) && c.i < |c.data|
    ensures Passes(c, r)
  {
    match c.state
    case New => NewPass(kt, cb, c)
    case End => EndPass(c)
    case Unquoted => UnquotedPass(kt, cb, c)
    case Quoted => QuotedPass(kt, cb, c)
  }

  /** `case ZBX_STATE_NEW`: a new parameter started. */
  function NewPass(kt: KeyType, cb: Callback, c: Scan): (r: KeyStep)
    requires Sound(c) && c.i < |c.data| && c.state == New
    ensures Passes(c, r)
  {
    var ch := c.data[c.i];
    if ch == ' ' then Next(c.(i := c.i + 1))
    else if ch == ',' then
      var d := Invoke(kt, cb, c, c.i, c.i, false);
      Next(d.(i := d.i + 1, num := if c.level == 1 then c.num + 1 else c.num))
    else if ch == '[' then
      if c.level == 2 then Clean(c)   // incorrect syntax: multi-level array
      else Next(c.(i := c.i + 1, level := c.level + 1, num := if c.level + 1 == 1 then c.num + 1 else c.num))
    else if ch == ']' then
      var d := Invoke(kt, cb, c, c.i, c.i, false);
      Next(d.(i := d.i + 1, level := c.level - 1, state := End))
    else if ch == '"' then Next(c.(i := c.i + 1, state := Quoted, l := c.i))
    else Next(c.(i := c.i + 1, state := Unquoted, l := c.i))
  }

  /** `case ZBX_STATE_END`: end of parameter. */
  function EndPass(c: Scan): (r: KeyStep)
    requires Sound(c) && c.i < |c.data| && c.state == End
    ensures Passes(c, r)
  {
    var ch := c.data[c.i];
    if ch == ' ' then Next(c.(i := c.i + 1))
    else if ch == ',' then Next(c.(i := c.i + 1, state := New, num := if c.level == 1 then c.num + 1 else c.num))
    else if ch == ']' then
      if c.level == 0 then Clean(c)   // incorrect syntax: redundant ']'
      else Next(c.(i := c.i + 1, level := c.level - 1))
    else Clean(c)
  }

  /** `case ZBX_STATE_UNQUOTED`: the callback on the parameter at ']' or ',', which is then read again. */
  function UnquotedPass(kt: KeyType, cb: Callback, c: Scan): (r: KeyStep)
    requires Sound(c) && c.i < |c.data| && c.state == Unquoted
    ensures Passes(c, r)
  {
    var ch := c.data[c.i];
    if ch == ']' || ch == ',' then
      var d := Invoke(kt, cb, c, c.l, c.i, false);
      Next(d.(state := End))   // `i--` and the loop's `i++`: the same character again
    else Next(c.(i := c.i + 1))
  }

  /** `case ZBX_STATE_QUOTED`: the callback on the parameter with its quotes at an unescaped '"'. */
  function QuotedPass(kt: KeyType, cb: Callback, c: Scan): (r: KeyStep)
    requires Sound(c) && c.i < |c.data| && c.state == Quoted
    ensures Passes(c, r)
  {
    if c.data[c.i] == '"' && c.data[c.i - 1] != '\\' then
      var d := Invoke(kt, cb, c, c.l, c.i + 1, true);
      Next(d.(state := End))
    else Next(c.(i := c.i + 1))
  }

  /** What replace_key_params_dyn returns: SUCCEED, the new `*data`, the error text and the callback calls. */
  datatype Outcome = Outcome(ok: bool, data: string, error: Option<string>, calls: seq<Call>)

  /** The decimal digits of `n` (ZBX_FS_SIZE_T). */
  function Decimal(n: nat): (s: string)
    ensures |s| >= 1 && forall k :: 0 <= k < |s| ==> '0' <= s[k] <= '9'
    decreases n
  {
    if n < 10 then [(n + '0' as int) as char] else Decimal(n / 10) + [(n % 10 + '0' as int) as char]
  }

  /** The number a string of decimal digits denotes. */
  function DecimalValue(s: string): nat
  {
    if s == [] then 0
    else
      var d := s[|s| - 1] as int - '0' as int;
      DecimalValue(s[..|s| - 1]) * 10 + (if 0 <= d <= 9 then d else 0)
  }

  /** `Decimal` writes `n` in a form that reads back as `n`. */
  lemma {:induction false} DecimalRoundTrip(n: nat)
    ensures DecimalValue(Decimal(n)) == n
    decreases n
  {
    if n >= 10 {
      DecimalRoundTrip(n / 10);
      var s := Decimal(n);
      assert s[..|s| - 1] == Decimal(n / 10);
    }
  }

  /** "Invalid item key|SNMP OID at position i" */
  function ErrorText(kt: KeyType, i: nat): string
  {
    "Invalid " + (if kt == ItemKey then "item key" else "SNMP OID") + " at position " + Decimal(i)
  }

  /**
   * What `zbx_snprintf(error, size, ...)` leaves in an error buffer of `size`
   * bytes: the message cut to `size - 1` characters before the NUL, and
   * nothing at all when the buffer has no room.
   */
  function Written(text: string, size: nat): (w: string)
    ensures w <= text
    ensures size == 0 ==> w == []
    ensures size > 0 ==> |w| < size && (|text| < size ==> w == text)
  {
    if size == 0 then [] else text[..if |text| < size then |text| else size - 1]
  }

  /** The message as it lands in the caller's buffer; a NULL buffer (`None`) receives nothing. */
  function Reported(message: Option<string>, errorSize: Option<nat>): Option<string>
  {
    if message.Some? && errorSize.Some? then Some(Written(message.value, errorSize.value)) else None
  }

  /** The checks at `clean:`: something was read, all of it was read, and every '[' was closed. */
  function Finish(kt: KeyType, c: Scan): (r: Outcome)
    requires c.i <= |c.data|
    ensures r.ok <==> c.ok && c.i != 0 && c.i == |c.data| && c.level == 0
    ensures r.error.Some? <==> c.i == 0 || c.i != |c.data| || c.level != 0
    ensures r.error.Some? ==> r.error.value == ErrorText(kt, c.i)
    ensures r.data == c.data && r.calls == c.calls
  {
    if c.i == 0 || c.i != |c.data| || c.level != 0 then Outcome(false, c.data, Some(ErrorText(kt, c.i)), c.calls)
    else Outcome(c.ok, c.data, None, c.calls)
  }

  /** The loop run from `c` to `clean:`; it stops at the end of the data or after a callback failure. */
  function Run(kt: KeyType, cb: Callback, c: Scan): (r: Outcome)
    requires Sound(c)
    ensures c.calls <= r.calls
    ensures r.ok ==> c.ok && r.error.None?
    decreases Rank(c)
  {
    if c.i == |c.data| || !c.ok then Finish(kt, c)
    else
      match Step(kt, cb, c)
      case Clean(d) => Finish(kt, d)
      case Next(d) => Run(kt, cb, d)
  }

  /** The end of the item key name: the first character that is not a key character. */
  function KeyNameEnd(data: string, isKeyChar: char -> bool, i: nat): (h: nat)
    requires i <= |data|
    ensures i <= h <= |data| && (h < |data| ==> !isKeyChar(data[h]))
    ensures forall k :: i <= k < h ==> isKeyChar(data[k])
    decreases |data| - i
  {
    if i < |data| && isKeyChar(data[i]) then KeyNameEnd(data, isKeyChar, i + 1) else i
  }

  /** The end of the SNMP OID head: the first '[' outside user and low-level discovery macros. */
  function OidHeadEnd(data: string, userMacro: MacroParser, nestedMacro: MacroParser, i: nat): (h: nat)
    requires i <= |data| && Fits(userMacro) && Fits(nestedMacro)
    ensures i <= h <= |data| && (h < |data| ==> data[h] == '[')
    decreases |data| - i
  {
    if i == |data| then i
    else if data[i] == '{' && i + 1 < |data| && data[i + 1] == '$' && userMacro(data[i..]).Some? then
      OidHeadEnd(data, userMacro, nestedMacro, i + userMacro(data[i..]).value + 1)
    else if data[i] == '{' && i + 2 < |data| && data[i + 1] == '{' && data[i + 2] == '#' &&
            nestedMacro(data[i..]).Some? then
      OidHeadEnd(data, userMacro, nestedMacro, i + nestedMacro(data[i..]).value + 1)
    else if data[i] != '[' then OidHeadEnd(data, userMacro, nestedMacro, i + 1)
    else i
  }

  /** The configuration the walk starts the parameters from, once the head ends at `h`. */
  function Start(data: string, h: nat): (c: Scan)
    requires h <= |data|
  {
    Scan(data, h, 0, 0, 0, New, true, [])
  }

  /** What replace_key_params_dyn does to `data`. */
  function ReplaceSpec(data: string, kt: KeyType, cb: Callback, isKeyChar: char -> bool,
                       userMacro: MacroParser, nestedMacro: MacroParser): (r: Outcome)
    requires Fits(userMacro) && Fits(nestedMacro)
  {
    if kt == ItemKey then
      var h := KeyNameEnd(data, isKeyChar, 0);
      if h == 0 || (h < |data| && data[h] != '[') then Finish(kt, Start(data, h))
      else Run(kt, cb, Invoke(kt, cb, Start(data, h), 0, h, false))
    else
      var h := OidHeadEnd(data, userMacro, nestedMacro, 0);
      Run(kt, cb, Invoke(kt, cb, Start(data, h), 0, h, false))
  }

  // ------------------------------------------------------------- properties

  /** A callback that never supplies a replacement. */
  ghost predicate NeverReplaces(cb: Callback)
  {
    forall t, kt, level, num, quoted :: cb(t, kt, level, num, quoted).1.None?
  }

  /** The loop run unfolded once. */
  lemma RunUnfold(kt: KeyType, cb: Callback, c: Scan)
    requires Sound(c) && c.i < |c.data| && c.ok
    ensures var st := Step(kt, cb, c);
      Run(kt, cb, c) == if st.Clean? then Finish(kt, st.c) else Run(kt, cb, st.c)
  {
  }

  lemma StepKeepsData(kt: KeyType, cb: Callback, c: Scan)
    requires Sound(c) && c.i < |c.data| && NeverReplaces(cb)
    ensures Step(kt, cb, c).c.data == c.data
  {
    var l, r, quoted := c.i, c.i, false;
    if c.state == Unquoted {
      l := c.l;
    } else if c.state == Quoted {
      l, r, quoted := c.l, c.i + 1, true;
    }
    assert cb(c.data[l..r], kt, c.level, c.num, quoted).1.None?;
    StepKeepsDataWith(kt, cb, c, l, r, quoted);
  }

  /** The pass at `c` replaces nothing when the one callback it may make, on [l, r), supplies nothing. */
  lemma StepKeepsDataWith(kt: KeyType, cb: Callback, c: Scan, l: nat, r: nat, quoted: bool)
    requires Sound(c) && c.i < |c.data|
    requires c.state == Unquoted ==> l == c.l && r == c.i && !quoted
    requires c.state == Quoted ==> l == c.l && r == c.i + 1 && quoted
    requires c.state == New ==> l == c.i && r == c.i && !quoted
    requires l <= r <= |c.data| && cb(c.data[l..r], kt, c.level, c.num, quoted).1.None?
    ensures Step(kt, cb, c).c.data == c.data
  {
    match c.state {
      case New => assert Step(kt, cb, c) == NewPass(kt, cb, c);
      case End =>
      case Unquoted => assert Step(kt, cb, c) == UnquotedPass(kt, cb, c);
      case Quoted => assert Step(kt, cb, c) == QuotedPass(kt, cb, c);
    }
  }

  lemma {:induction false} RunKeepsData(kt: KeyType, cb: Callback, c: Scan)
    requires Sound(c) && NeverReplaces(cb)
    ensures Run(kt, cb, c).data == c.data
    decreases Rank(c)
  {
    if c.i < |c.data| && c.ok {
      RunUnfold(kt, cb, c);
      StepKeepsData(kt, cb, c);
      var st := Step(kt, cb, c);
      if st.Next? {
        RunKeepsData(kt, cb, st.c);
      }
    }
  }

  /** When the callback never supplies a replacement, `*data` is left as it was. */
  lemma NoReplacementKeepsData(data: string, kt: KeyType, cb: Callback, isKeyChar: char -> bool,
                               userMacro: MacroParser, nestedMacro: MacroParser)
    requires Fits(userMacro) && Fits(nestedMacro) && NeverReplaces(cb)
    ensures ReplaceSpec(data, kt, cb, isKeyChar, userMacro, nestedMacro).data == data
  {
    if kt == ItemKey {
      var h := KeyNameEnd(data, isKeyChar, 0);
      if !(h == 0 || (h < |data| && data[h] != '[')) {
        RunKeepsData(kt, cb, Invoke(kt, cb, Start(data, h), 0, h, false));
      }
    } else {
      var h := OidHeadEnd(data, userMacro, nestedMacro, 0);
      RunKeepsData(kt, cb, Invoke(kt, cb, Start(data, h), 0, h, false));
    }
  }

  /**
   * Once the head is accepted, the first callback call is on the item key name
   * (or the OID up to its first '['), at level 0, parameter 0, unquoted.
   */
  lemma HeadIsFirstCall(data: string, kt: KeyType, cb: Callback, isKeyChar: char -> bool,
                        userMacro: MacroParser, nestedMacro: MacroParser)
    requires Fits(userMacro) && Fits(nestedMacro)
    ensures var h := if kt == ItemKey then KeyNameEnd(data, isKeyChar, 0)
                     else OidHeadEnd(data, userMacro, nestedMacro, 0);
      var spec := ReplaceSpec(data, kt, cb, isKeyChar, userMacro, nestedMacro);
      (kt == SnmpOid || (h > 0 && (h == |data| || data[h] == '['))) ==>
        |spec.calls| >= 1 && spec.calls[0] == Call(data[..h], 0, 0, false)
  {
  }

  /**
   * An item key whose name is empty, or is followed by something other than
   * '[' or the end, fails before any callback call, with the error at the end
   * of the name.
   */
  lemma ItemKeyRejected(data: string, cb: Callback, isKeyChar: char -> bool,
                        userMacro: MacroParser, nestedMacro: MacroParser)
    requires Fits(userMacro) && Fits(nestedMacro)
    ensures var h := KeyNameEnd(data, isKeyChar, 0);
      (h == 0 || (h < |data| && data[h] != '[')) ==>
        ReplaceSpec(data, ItemKey, cb, isKeyChar, userMacro, nestedMacro) ==
        Outcome(false, data, Some(ErrorText(ItemKey, h)), [])
  {
  }

  /** The error text for an empty item key. */
  lemma EmptyKeyText()
    ensures ErrorText(ItemKey, 0) == "Invalid item key at position 0"
  {
  }

  /** The callback returned SUCCEED on this call. */
  predicate CallOk(kt: KeyType, cb: Callback, call: Call)
  {
    cb(call.text, kt, call.level, call.num, call.quoted).0
  }

  /** A pass calls the callback at most once, and the loop's `ret` is what that call returned. */
  lemma StepCallOk(kt: KeyType, cb: Callback, c: Scan)
    requires Sound(c) && c.i < |c.data|
    ensures var d := Step(kt, cb, c).c;
      |d.calls| <= |c.calls| + 1 &&
      (|d.calls| == |c.calls| ==> d.ok == c.ok) &&
      (|d.calls| == |c.calls| + 1 ==> d.ok == CallOk(kt, cb, d.calls[|c.calls|]))
  {
    var d := Step(kt, cb, c).c;
    match c.state {
      case New =>
        assert Step(kt, cb, c) == NewPass(kt, cb, c);
        assert OneCall(kt, cb, c, d) by {
          NewCallOk(kt, cb, c);
        }
      case End =>
      case Unquoted =>
        assert Step(kt, cb, c) == UnquotedPass(kt, cb, c);
        assert OneCall(kt, cb, c, d) by {
          UnquotedCallOk(kt, cb, c);
        }
      case Quoted =>
        assert Step(kt, cb, c) == QuotedPass(kt, cb, c);
        assert OneCall(kt, cb, c, d) by {
          QuotedCallOk(kt, cb, c);
        }
    }
  }

  /** `d` made at most one call after those of `c`, and its `ret` is what that call returned. */
  predicate OneCall(kt: KeyType, cb: Callback, c: Scan, d: Scan)
  {
    |d.calls| <= |c.calls| + 1 &&
    (|d.calls| == |c.calls| ==> d.ok == c.ok) &&
    (|d.calls| == |c.calls| + 1 ==> d.ok == CallOk(kt, cb, d.calls[|c.calls|]))
  }

  lemma NewCallOk(kt: KeyType, cb: Callback, c: Scan)
    requires Sound(c) && c.i < |c.data| && c.state == New
    ensures OneCall(kt, cb, c, NewPass(kt, cb, c).c)
  {
  }

  lemma UnquotedCallOk(kt: KeyType, cb: Callback, c: Scan)
    requires Sound(c) && c.i < |c.data| && c.state == Unquoted
    ensures OneCall(kt, cb, c, UnquotedPass(kt, cb, c).c)
  {
  }

  lemma QuotedCallOk(kt: KeyType, cb: Callback, c: Scan)
    requires Sound(c) && c.i < |c.data| && c.state == Quoted
    ensures OneCall(kt, cb, c, QuotedPass(kt, cb, c).c)
  {
  }

  lemma {:induction false} RunCallsOk(kt: KeyType, cb: Callback, c: Scan)
    requires Sound(c)
    ensures var r := Run(kt, cb, c);
      r.ok ==> forall k :: |c.calls| <= k < |r.calls| ==> CallOk(kt, cb, r.calls[k])
    decreases Rank(c)
  {
    if c.i < |c.data| && c.ok {
      RunUnfold(kt, cb, c);
      StepCallOk(kt, cb, c);
      var st := Step(kt, cb, c);
      var r := Run(kt, cb, c);
      if st.Next? && r.ok {
        var d := st.c;
        RunCallsOk(kt, cb, d);
        CallsOkBefore(kt, cb, r.calls, d.calls, |c.calls|);
      }
    }
  }

  /** The calls from `from` on succeeded when those past the prefix `d` did and `d` added at most one good call. */
  lemma CallsOkBefore(kt: KeyType, cb: Callback, calls: seq<Call>, d: seq<Call>, from: nat)
    requires from <= |d| <= from + 1 && d <= calls
    requires |d| == from + 1 ==> CallOk(kt, cb, d[from])
    requires forall k :: |d| <= k < |calls| ==> CallOk(kt, cb, calls[k])
    ensures forall k :: from <= k < |calls| ==> CallOk(kt, cb, calls[k])
  {
    if |d| == from + 1 {
      assert calls[from] == d[from];
    }
  }

  /**
   * SUCCEED means every callback call returned SUCCEED, the walk read the
   * whole (rewritten) text and no error text was written.
   */
  lemma SucceedMeansCallsOk(data: string, kt: KeyType, cb: Callback, isKeyChar: char -> bool,
                            userMacro: MacroParser, nestedMacro: MacroParser)
    requires Fits(userMacro) && Fits(nestedMacro)
    ensures var spec := ReplaceSpec(data, kt, cb, isKeyChar, userMacro, nestedMacro);
      spec.ok ==> spec.error.None? && |spec.calls| >= 1 &&
                  forall k :: 0 <= k < |spec.calls| ==> CallOk(kt, cb, spec.calls[k])
  {
    var h := if kt == ItemKey then KeyNameEnd(data, isKeyChar, 0) else OidHeadEnd(data, userMacro, nestedMacro, 0);
    if kt == SnmpOid || !(h == 0 || (h < |data| && data[h] != '[')) {
      var c := Invoke(kt, cb, Start(data, h), 0, h, false);
      assert ReplaceSpec(data, kt, cb, isKeyChar, userMacro, nestedMacro) == Run(kt, cb, c);
      RunCallsOk(kt, cb, c);
    }
  }

  /** A callback that replaces the parameter `a` by `xyz` and keeps everything else. */
  function RenameA(t: string, kt: KeyType, level: int, num: int, quoted: bool): (bool, Option<string>)
  {
    if t == "a" then (true, Some("xyz")) else (true, None)
  }

  predicate Lower(ch: char)
  {
    'a' <= ch <= 'z'
  }

  /**
   * The walk over `k[a,"b"]`: the callback sees the name at level 0, then `a`
   * as parameter 1 and `"b"` (quotes included) as parameter 2 at level 1, and
   * the replacement of `a` shifts the rest of the key.
   */
  lemma RenameExample(userMacro: MacroParser, nestedMacro: MacroParser)
    requires Fits(userMacro) && Fits(nestedMacro)
    ensures ReplaceSpec("k[a,\"b\"]", ItemKey, RenameA, Lower, userMacro, nestedMacro) ==
      Outcome(true, "k[xyz,\"b\"]", None,
              [Call("k", 0, 0, false), Call("a", 1, 1, false), Call("\"b\"", 1, 2, true)])
  {
    KeyStart("k[a,\"b\"]", RenameA, userMacro, nestedMacro);
    RenameExampleFirst(Scan("k[a,\"b\"]", 1, 0, 0, 0, New, true, [Call("k", 0, 0, false)]));
  }

  /** A key that starts with `k[`: the name `k` is reported, then the parameters are scanned from the '['. */
  lemma KeyStart(data: string, cb: Callback, userMacro: MacroParser, nestedMacro: MacroParser)
    requires Fits(userMacro) && Fits(nestedMacro)
    requires |data| >= 2 && data[0] == 'k' && data[1] == '['
    requires cb("k", ItemKey, 0, 0, false) == (true, None)
    ensures ReplaceSpec(data, ItemKey, cb, Lower, userMacro, nestedMacro) ==
      Run(ItemKey, cb, Scan(data, 1, 0, 0, 0, New, true, [Call("k", 0, 0, false)]))
  {
    assert Lower(data[0]) && !Lower(data[1]);
    assert KeyNameEnd(data, Lower, 1) == 1;
    assert KeyNameEnd(data, Lower, 0) == 1;
    assert data[0..1] == "k";
    assert Invoke(ItemKey, cb, Start(data, 1), 0, 1, false) ==
      Scan(data, 1, 0, 0, 0, New, true, [Call("k", 0, 0, false)]);
  }

  /** The name, the opening '[' and the replacement of `a`. */
  lemma RenameExampleFirst(c0: Scan)
    requires c0 == Scan("k[a,\"b\"]", 1, 0, 0, 0, New, true, [Call("k", 0, 0, false)])
    ensures Run(ItemKey, RenameA, c0) ==
      Outcome(true, "k[xyz,\"b\"]", None,
              [Call("k", 0, 0, false), Call("a", 1, 1, false), Call("\"b\"", 1, 2, true)])
  {
    var c1 := c0.(i := 2, level := 1, num := 1);
    var c2 := c1.(i := 3, l := 2, state := Unquoted);
    assert Step(ItemKey, RenameA, c0) == Next(c1);
    assert Step(ItemKey, RenameA, c1) == Next(c2);
    RunUnfold(ItemKey, RenameA, c0);
    RunUnfold(ItemKey, RenameA, c1);
    var c3 := Scan("k[xyz,\"b\"]", 5, 2, 1, 1, End, true, [Call("k", 0, 0, false), Call("a", 1, 1, false)]);
    RenameExampleReplace(c2);
    RenameExampleSecond(c3);
  }

  /** The `,` after `a`: the callback replaces `a` by `xyz`. */
  lemma RenameExampleReplace(c2: Scan)
    requires c2 == Scan("k[a,\"b\"]", 3, 2, 1, 1, Unquoted, true, [Call("k", 0, 0, false)])
    ensures Run(ItemKey, RenameA, c2) ==
      Run(ItemKey, RenameA, Scan("k[xyz,\"b\"]", 5, 2, 1, 1, End, true, [Call("k", 0, 0, false), Call("a", 1, 1, false)]))
  {
    assert c2.data[2..3] == "a";
    assert Splice(c2.data, 2, 3, "xyz") == "k[xyz,\"b\"]";
    var d := Invoke(ItemKey, RenameA, c2, 2, 3, false);
    assert d == Scan("k[xyz,\"b\"]", 5, 2, 1, 1, Unquoted, true, [Call("k", 0, 0, false), Call("a", 1, 1, false)]);
    assert Step(ItemKey, RenameA, c2) == Next(d.(state := End));
    RunUnfold(ItemKey, RenameA, c2);
  }

  /** From the `,` after `xyz` to the end. */
  lemma RenameExampleSecond(c3: Scan)
    requires c3 == Scan("k[xyz,\"b\"]", 5, 2, 1, 1, End, true, [Call("k", 0, 0, false), Call("a", 1, 1, false)])
    ensures Run(ItemKey, RenameA, c3) ==
      Outcome(true, "k[xyz,\"b\"]", None,
              [Call("k", 0, 0, false), Call("a", 1, 1, false), Call("\"b\"", 1, 2, true)])
  {
    var data := c3.data;
    var c4 := c3.(i := 6, state := New, num := 2);
    var c5 := c4.(i := 7, state := Quoted, l := 6);
    var c6 := c5.(i := 8);
    assert data[6..9] == "\"b\"";
    var c7 := Scan(data, 9, 6, 1, 2, End, true, c3.calls + [Call("\"b\"", 1, 2, true)]);
    assert Step(ItemKey, RenameA, c3) == Next(c4);
    assert Step(ItemKey, RenameA, c4) == Next(c5);
    assert Step(ItemKey, RenameA, c5) == Next(c6);
    RunUnfold(ItemKey, RenameA, c3);
    RunUnfold(ItemKey, RenameA, c4);
    RunUnfold(ItemKey, RenameA, c5);
    RenameExampleLast(c6, c7);
  }

  /** The closing quote of `"b"` and the final `]`. */
  lemma RenameExampleLast(c6: Scan, c7: Scan)
    requires c6 == Scan("k[xyz,\"b\"]", 8, 6, 1, 2, Quoted, true, [Call("k", 0, 0, false), Call("a", 1, 1, false)])
    requires c7 == Scan("k[xyz,\"b\"]", 9, 6, 1, 2, End, true, c6.calls + [Call("\"b\"", 1, 2, true)])
    ensures Run(ItemKey, RenameA, c6) == Outcome(true, "k[xyz,\"b\"]", None, c7.calls)
  {
    assert c6.data[6..9] == "\"b\"";
    var c8 := c7.(i := 10, level := 0);
    assert Step(ItemKey, RenameA, c6) == Next(c7);
    assert Step(ItemKey, RenameA, c7) == Next(c8);
    RunUnfold(ItemKey, RenameA, c6);
    RunUnfold(ItemKey, RenameA, c7);
  }

  /** Text after the closing ']' of `k[b]x` is refused at its position, after the callbacks ran. */
  lemma TrailingExample(userMacro: MacroParser, nestedMacro: MacroParser)
    requires Fits(userMacro) && Fits(nestedMacro)
    ensures ReplaceSpec("k[b]x", ItemKey, RenameA, Lower, userMacro, nestedMacro) ==
      Outcome(false, "k[b]x", Some("Invalid item key at position 4"),
              [Call("k", 0, 0, false), Call("b", 1, 1, false)])
  {
    KeyStart("k[b]x", RenameA, userMacro, nestedMacro);
    var c0 := Scan("k[b]x", 1, 0, 0, 0, New, true, [Call("k", 0, 0, false)]);
    TrailingExampleFirst(c0);
    TrailingExampleText();
  }

  /** The name and the opening '['. */
  lemma TrailingExampleFirst(c0: Scan)
    requires c0 == Scan("k[b]x", 1, 0, 0, 0, New, true, [Call("k", 0, 0, false)])
    ensures Run(ItemKey, RenameA, c0) ==
      Finish(ItemKey, Scan("k[b]x", 4, 2, 0, 1, End, true, [Call("k", 0, 0, false), Call("b", 1, 1, false)]))
  {
    var c1 := c0.(i := 2, level := 1, num := 1);
    var c2 := c1.(i := 3, l := 2, state := Unquoted);
    assert Step(ItemKey, RenameA, c0) == Next(c1);
    assert Step(ItemKey, RenameA, c1) == Next(c2);
    RunUnfold(ItemKey, RenameA, c0);
    RunUnfold(ItemKey, RenameA, c1);
    TrailingExampleTail(c2);
  }

  lemma TrailingExampleText()
    ensures ErrorText(ItemKey, 4) == "Invalid item key at position 4"
  {
    assert Decimal(4) == "4";
  }

  /** From `b` on: the callback sees `b`, the ']' closes level 1 and the walk stops at `x`. */
  lemma TrailingExampleTail(c2: Scan)
    requires c2 == Scan("k[b]x", 3, 2, 1, 1, Unquoted, true, [Call("k", 0, 0, false)])
    ensures Run(ItemKey, RenameA, c2) ==
      Finish(ItemKey, Scan("k[b]x", 4, 2, 0, 1, End, true, [Call("k", 0, 0, false), Call("b", 1, 1, false)]))
  {
    assert c2.data[2..3] == "b";
    var c3 := c2.(state := End, calls := c2.calls + [Call("b", 1, 1, false)]);
    var c4 := c3.(i := 4, level := 0);
    assert Step(ItemKey, RenameA, c2) == Next(c3);
    assert Step(ItemKey, RenameA, c3) == Next(c4);
    assert Step(ItemKey, RenameA, c4) == Clean(c4);
    RunUnfold(ItemKey, RenameA, c2);
    RunUnfold(ItemKey, RenameA, c3);
    RunUnfold(ItemKey, RenameA, c4);
  }

  // ------------------------------------------------- refused configurations

  /**
   * The characters at which the loop jumps to `clean:` early: a '[' that would
   * open a third level, a ']' after a parameter at level 0, and anything but a
   * space, ',' or ']' after a parameter.
   */
  predicate Refused(c: Scan)
    requires c.i < |c.data|
  {
    var ch := c.data[c.i];
    (c.state == New && ch == '[' && c.level == 2) ||
    (c.state == End && ch == ']' && c.level == 0) ||
    (c.state == End && ch != ' ' && ch != ',' && ch != ']')
  }

  /** A pass leaves the loop early exactly on a refused character. */
  lemma StepRefuses(kt: KeyType, cb: Callback, c: Scan)
    requires Sound(c) && c.i < |c.data|
    ensures Step(kt, cb, c).Clean? <==> Refused(c)
  {
    match c.state
    case New =>
      assert Step(kt, cb, c) == NewPass(kt, cb, c);
    case End =>
      assert Step(kt, cb, c) == EndPass(c);
    case Unquoted =>
      assert Step(kt, cb, c) == UnquotedPass(kt, cb, c);
    case Quoted =>
      assert Step(kt, cb, c) == QuotedPass(kt, cb, c);
  }

  /** Once the walk meets a refused character it fails there: the position is that character's, and no callback follows. */
  lemma RefusedFails(kt: KeyType, cb: Callback, c: Scan)
    requires Sound(c) && c.i < |c.data| && c.ok && Refused(c)
    ensures Run(kt, cb, c) == Outcome(false, c.data, Some(ErrorText(kt, c.i)), c.calls)
  {
    StepRefuses(kt, cb, c);
    RunUnfold(kt, cb, c);
  }

  /** A parameter without quotes or brackets: what the walk reads in its unquoted state. */
  predicate BareParam(b: string)
  {
    b != [] && b[0] != ' ' && b[0] != '"' && b[0] != '[' &&
    forall k :: 0 <= k < |b| ==> b[k] != ']' && b[k] != ','
  }

  /**
   * An item key `name[param]` followed by text that does not begin with a
   * space or ',' is refused at the first character after the ']' (a second
   * ']' is a redundant one, anything else is trailing text). The callback has
   * already seen the name and the parameter by then.
   */
  lemma TrailingRefused(n: string, b: string, t: string, cb: Callback, isKeyChar: char -> bool,
                        userMacro: MacroParser, nestedMacro: MacroParser)
    requires Fits(userMacro) && Fits(nestedMacro)
    requires n != [] && (forall k :: 0 <= k < |n| ==> isKeyChar(n[k])) && !isKeyChar('[')
    requires BareParam(b) && t != [] && t[0] != ' ' && t[0] != ','
    requires cb(n, ItemKey, 0, 0, false) == (true, None) && cb(b, ItemKey, 1, 1, false) == (true, None)
    ensures var data := n + "[" + b + "]" + t;
      ReplaceSpec(data, ItemKey, cb, isKeyChar, userMacro, nestedMacro) ==
        Outcome(false, data, Some(ErrorText(ItemKey, |n| + |b| + 2)), [Call(n, 0, 0, false), Call(b, 1, 1, false)])
  {
    KeyLayout(n, b, t);
    TrailingFrom(n + "[" + b + "]" + t, n, b, cb, isKeyChar, userMacro, nestedMacro);
  }

  /**
   * An item key whose list opens with three '[' is refused at the third: the
   * walk allows arrays one level deep only. The callback has seen the name.
   */
  lemma NestedRefused(n: string, t: string, cb: Callback, isKeyChar: char -> bool,
                      userMacro: MacroParser, nestedMacro: MacroParser)
    requires Fits(userMacro) && Fits(nestedMacro)
    requires n != [] && (forall k :: 0 <= k < |n| ==> isKeyChar(n[k])) && !isKeyChar('[')
    requires cb(n, ItemKey, 0, 0, false) == (true, None)
    ensures var data := n + "[[[" + t;
      ReplaceSpec(data, ItemKey, cb, isKeyChar, userMacro, nestedMacro) ==
        Outcome(false, data, Some(ErrorText(ItemKey, |n| + 2)), [Call(n, 0, 0, false)])
  {
    NestedLayout(n, t);
    NestedFrom(n + "[[[" + t, n, cb, isKeyChar, userMacro, nestedMacro);
  }

  /** Where the name and the three '[' sit in `name[[[rest`. */
  lemma NestedLayout(n: string, t: string)
    ensures var data := n + "[[[" + t; data[..|n|] == n && ThreeOpen(data, |n|)
  {
    var data := n + "[[[" + t;
    assert data == n + ("[[[" + t);
  }

  /** NestedRefused on the key text, given where its parts sit. */
  lemma NestedFrom(data: string, n: string, cb: Callback, isKeyChar: char -> bool,
                   userMacro: MacroParser, nestedMacro: MacroParser)
    requires Fits(userMacro) && Fits(nestedMacro) && NameThenBracket(data, n, isKeyChar)
    requires ThreeOpen(data, |n|)
    requires cb(n, ItemKey, 0, 0, false) == (true, None)
    ensures ReplaceSpec(data, ItemKey, cb, isKeyChar, userMacro, nestedMacro) ==
      Outcome(false, data, Some(ErrorText(ItemKey, |n| + 2)), [Call(n, 0, 0, false)])
  {
    TrailingHead(data, n, cb, isKeyChar, userMacro, nestedMacro);
    NestedWalk(cb, data, |n|, [Call(n, 0, 0, false)]);
  }

  /** Three '[' in a row stand at `m`. */
  predicate ThreeOpen(data: string, m: nat)
  {
    m + 2 < |data| && data[m] == '[' && data[m + 1] == '[' && data[m + 2] == '['
  }

  /** From the first of three '[': two levels open and the third is refused. */
  lemma NestedWalk(cb: Callback, data: string, m: nat, calls: seq<Call>)
    requires ThreeOpen(data, m)
    ensures Run(ItemKey, cb, Scan(data, m, 0, 0, 0, New, true, calls)) ==
      Outcome(false, data, Some(ErrorText(ItemKey, m + 2)), calls)
  {
    OpenStep(ItemKey, cb, Scan(data, m, 0, 0, 0, New, true, calls));
    InnerOpenStep(ItemKey, cb, Scan(data, m + 1, 0, 1, 1, New, true, calls));
    RefusedFails(ItemKey, cb, Scan(data, m + 2, 0, 2, 1, New, true, calls));
  }

  /** A '[' at level 1 opens level 2 inside the current parameter. */
  lemma InnerOpenStep(kt: KeyType, cb: Callback, c: Scan)
    requires Sound(c) && c.i < |c.data| && c.ok && c.state == New && c.data[c.i] == '[' && c.level == 1
    ensures Run(kt, cb, c) == Run(kt, cb, c.(i := c.i + 1, level := 2))
  {
    var d := c.(i := c.i + 1, level := 2);
    assert NewPass(kt, cb, c) == Next(d);
    assert Step(kt, cb, c) == Next(d);
    RunUnfold(kt, cb, c);
  }

  /** After `l`: a bare parameter `b`, its ']', and a character that is neither a space nor ','. */
  predicate BareThenClose(data: string, l: nat, b: string)
  {
    BareParam(b) && l + |b| + 1 < |data| && data[l..l + |b|] == b && data[l + |b|] == ']' &&
    data[l + |b| + 1] != ' ' && data[l + |b| + 1] != ','
  }

  /** TrailingRefused on the key text, given where its parts sit. */
  lemma TrailingFrom(data: string, n: string, b: string, cb: Callback, isKeyChar: char -> bool,
                     userMacro: MacroParser, nestedMacro: MacroParser)
    requires Fits(userMacro) && Fits(nestedMacro) && NameThenBracket(data, n, isKeyChar)
    requires BareThenClose(data, |n| + 1, b)
    requires cb(n, ItemKey, 0, 0, false) == (true, None) && cb(b, ItemKey, 1, 1, false) == (true, None)
    ensures ReplaceSpec(data, ItemKey, cb, isKeyChar, userMacro, nestedMacro) ==
      Outcome(false, data, Some(ErrorText(ItemKey, |n| + |b| + 2)), [Call(n, 0, 0, false), Call(b, 1, 1, false)])
  {
    TrailingHead(data, n, cb, isKeyChar, userMacro, nestedMacro);
    TrailingAfterName(cb, data, n, b);
  }

  /** TrailingWalk with the name as the one call made before the '['. */
  lemma TrailingAfterName(cb: Callback, data: string, n: string, b: string)
    requires |n| < |data| && data[|n|] == '[' && BareThenClose(data, |n| + 1, b)
    requires cb(b, ItemKey, 1, 1, false) == (true, None)
    ensures Run(ItemKey, cb, Scan(data, |n|, 0, 0, 0, New, true, [Call(n, 0, 0, false)])) ==
      Outcome(false, data, Some(ErrorText(ItemKey, |n| + |b| + 2)), [Call(n, 0, 0, false), Call(b, 1, 1, false)])
  {
    assert [Call(n, 0, 0, false)] + [Call(b, 1, 1, false)] == [Call(n, 0, 0, false), Call(b, 1, 1, false)];
    TrailingWalk(cb, data, |n|, [Call(n, 0, 0, false)], b);
  }

  /** From the '[' after the name: the bare parameter, its ']' and the refused character after it. */
  lemma TrailingWalk(cb: Callback, data: string, m: nat, calls: seq<Call>, b: string)
    requires m < |data| && data[m] == '[' && BareThenClose(data, m + 1, b)
    requires cb(b, ItemKey, 1, 1, false) == (true, None)
    ensures Run(ItemKey, cb, Scan(data, m, 0, 0, 0, New, true, calls)) ==
      Outcome(false, data, Some(ErrorText(ItemKey, m + |b| + 2)), calls + [Call(b, 1, 1, false)])
  {
    assert data[m + 1] == b[0] by {
      assert data[m + 1..m + 1 + |b|][0] == b[0];
    }
    TrailingOpen(cb, Scan(data, m, 0, 0, 0, New, true, calls), b);
    TrailingRest(cb, data, m + 1, calls, b);
  }

  /** From the second character of the bare parameter that starts at `l` to the refused character after its ']'. */
  lemma TrailingRest(cb: Callback, data: string, l: nat, calls: seq<Call>, b: string)
    requires BareThenClose(data, l, b)
    requires cb(b, ItemKey, 1, 1, false) == (true, None)
    ensures Run(ItemKey, cb, Scan(data, l + 1, l, 1, 1, Unquoted, true, calls)) ==
      Outcome(false, data, Some(ErrorText(ItemKey, l + |b| + 1)), calls + [Call(b, 1, 1, false)])
  {
    BareNoStop(data, l, b);
    UnquotedSkip(ItemKey, cb, Scan(data, l + 1, l, 1, 1, Unquoted, true, calls), l + |b|);
    TrailingClose(cb, data, l, calls, b);
  }

  /** No character of a bare parameter after its first ends it. */
  lemma BareNoStop(data: string, l: nat, b: string)
    requires BareThenClose(data, l, b)
    ensures forall j :: l + 1 <= j < l + |b| ==> data[j] != ']' && data[j] != ','
  {
    forall j | l + 1 <= j < l + |b|
      ensures data[j] != ']' && data[j] != ','
    {
      assert data[j] == data[l..l + |b|][j - l];
    }
  }

  /** Where the name, the '[', the parameter, the ']' and the rest sit in `name[param]rest`. */
  lemma KeyLayout(n: string, b: string, t: string)
    requires BareParam(b) && t != [] && t[0] != ' ' && t[0] != ','
    ensures var data := n + "[" + b + "]" + t;
      |n| < |data| && data[..|n|] == n && data[|n|] == '[' && BareThenClose(data, |n| + 1, b)
  {
    var data := n + "[" + b + "]" + t;
    var m := |n|;
    assert data == n + ("[" + b + "]" + t);
    assert data[m..] == "[" + b + "]" + t;
    assert data[m + 1..] == b + "]" + t;
    assert data[m + 1 + |b|..] == "]" + t;
  }

  /** The key name ends where the first character that is not a key character stands. */
  lemma {:induction false} KeyNameEndAt(data: string, isKeyChar: char -> bool, i: nat, h: nat)
    requires i <= h < |data| && !isKeyChar(data[h]) && forall k :: i <= k < h ==> isKeyChar(data[k])
    ensures KeyNameEnd(data, isKeyChar, i) == h
    decreases h - i
  {
    if i < h {
      KeyNameEndAt(data, isKeyChar, i + 1, h);
    }
  }

  /** `data` begins with a non-empty item key name `n` and a '['. */
  predicate NameThenBracket(data: string, n: string, isKeyChar: char -> bool)
  {
    n != [] && |n| < |data| && data[..|n|] == n && data[|n|] == '[' &&
    (forall k :: 0 <= k < |n| ==> isKeyChar(n[k])) && !isKeyChar('[')
  }

  /** The head of `name[...`: the callback sees the name and the walk starts at the '['. */
  lemma TrailingHead(data: string, n: string, cb: Callback, isKeyChar: char -> bool,
                     userMacro: MacroParser, nestedMacro: MacroParser)
    requires Fits(userMacro) && Fits(nestedMacro) && NameThenBracket(data, n, isKeyChar)
    requires cb(n, ItemKey, 0, 0, false) == (true, None)
    ensures ReplaceSpec(data, ItemKey, cb, isKeyChar, userMacro, nestedMacro) ==
      Run(ItemKey, cb, Scan(data, |n|, 0, 0, 0, New, true, [Call(n, 0, 0, false)]))
  {
    forall k | 0 <= k < |n|
      ensures isKeyChar(data[k])
    {
      assert data[k] == n[k];
    }
    KeyNameEndAt(data, isKeyChar, 0, |n|);
    assert data[0..|n|] == n;
    assert Invoke(ItemKey, cb, Start(data, |n|), 0, |n|, false) ==
      Scan(data, |n|, 0, 0, 0, New, true, [Call(n, 0, 0, false)]);
  }

  /** The '[' opens level 1 as parameter 1, and the first character of a bare parameter starts it. */
  lemma TrailingOpen(cb: Callback, c0: Scan, b: string)
    requires c0.state == New && c0.level == 0 && c0.num == 0 && c0.ok && c0.l <= c0.i
    requires BareParam(b) && c0.i + 1 + |b| < |c0.data| && c0.data[c0.i] == '[' && c0.data[c0.i + 1] == b[0]
    ensures Run(ItemKey, cb, c0) ==
      Run(ItemKey, cb, Scan(c0.data, c0.i + 2, c0.i + 1, 1, 1, Unquoted, true, c0.calls))
  {
    OpenStep(ItemKey, cb, c0);
    BareStartStep(ItemKey, cb, c0.(i := c0.i + 1, level := 1, num := 1));
  }

  /** A '[' at level 0 opens level 1 and starts the first parameter. */
  lemma OpenStep(kt: KeyType, cb: Callback, c: Scan)
    requires Sound(c) && c.i < |c.data| && c.ok && c.state == New && c.data[c.i] == '[' && c.level == 0
    ensures Run(kt, cb, c) == Run(kt, cb, c.(i := c.i + 1, level := 1, num := c.num + 1))
  {
    var d := c.(i := c.i + 1, level := 1, num := c.num + 1);
    assert NewPass(kt, cb, c) == Next(d);
    assert Step(kt, cb, c) == Next(d);
    RunUnfold(kt, cb, c);
  }

  /** A character that is not a space, a quote, a bracket or ',' starts an unquoted parameter. */
  lemma BareStartStep(kt: KeyType, cb: Callback, c: Scan)
    requires Sound(c) && c.i < |c.data| && c.ok && c.state == New
    requires c.data[c.i] != ' ' && c.data[c.i] != ',' && c.data[c.i] != '[' && c.data[c.i] != ']' && c.data[c.i] != '"'
    ensures Run(kt, cb, c) == Run(kt, cb, c.(i := c.i + 1, state := Unquoted, l := c.i))
  {
    var d := c.(i := c.i + 1, state := Unquoted, l := c.i);
    assert NewPass(kt, cb, c) == Next(d);
    assert Step(kt, cb, c) == Next(d);
    RunUnfold(kt, cb, c);
  }

  /** In the unquoted state the walk passes over every character that is neither ']' nor ','. */
  lemma {:induction false} UnquotedSkip(kt: KeyType, cb: Callback, c: Scan, k: nat)
    requires Sound(c) && c.state == Unquoted && c.ok && c.i <= k < |c.data|
    requires forall j :: c.i <= j < k ==> c.data[j] != ']' && c.data[j] != ','
    ensures Run(kt, cb, c) == Run(kt, cb, c.(i := k))
    decreases k - c.i
  {
    if c.i < k {
      var d := c.(i := c.i + 1);
      assert Step(kt, cb, c) == Next(d) by {
        assert Step(kt, cb, c) == UnquotedPass(kt, cb, c);
      }
      RunUnfold(kt, cb, c);
      UnquotedSkip(kt, cb, d, k);
    }
  }

  /** A ']' or ',' ends an unquoted parameter: the callback sees it and the same character is read again. */
  lemma UnquotedEndStep(kt: KeyType, cb: Callback, c: Scan)
    requires Sound(c) && c.i < |c.data| && c.ok && c.state == Unquoted && (c.data[c.i] == ']' || c.data[c.i] == ',')
    ensures Run(kt, cb, c) == Run(kt, cb, Invoke(kt, cb, c, c.l, c.i, false).(state := End))
  {
    var d := Invoke(kt, cb, c, c.l, c.i, false).(state := End);
    assert UnquotedPass(kt, cb, c) == Next(d);
    assert Step(kt, cb, c) == Next(d);
    RunUnfold(kt, cb, c);
  }

  /** A ']' after a parameter closes one level, unless the walk is already at level 0. */
  lemma CloseStep(kt: KeyType, cb: Callback, c: Scan)
    requires Sound(c) && c.i < |c.data| && c.ok && c.state == End && c.data[c.i] == ']' && c.level != 0
    ensures Run(kt, cb, c) == Run(kt, cb, c.(i := c.i + 1, level := c.level - 1))
  {
    var d := c.(i := c.i + 1, level := c.level - 1);
    assert EndPass(c) == Next(d);
    assert Step(kt, cb, c) == Next(d);
    RunUnfold(kt, cb, c);
  }

  /** The ']' after a bare parameter: the callback sees it, level 1 closes, and the next character is refused. */
  lemma TrailingClose(cb: Callback, data: string, l: nat, calls: seq<Call>, b: string)
    requires BareThenClose(data, l, b)
    requires cb(b, ItemKey, 1, 1, false) == (true, None)
    ensures Run(ItemKey, cb, Scan(data, l + |b|, l, 1, 1, Unquoted, true, calls)) ==
      Outcome(false, data, Some(ErrorText(ItemKey, l + |b| + 1)), calls + [Call(b, 1, 1, false)])
  {
    var k := l + |b|;
    var c4 := Scan(data, k, l, 1, 1, End, true, calls + [Call(b, 1, 1, false)]);
    assert Run(ItemKey, cb, Scan(data, k, l, 1, 1, Unquoted, true, calls)) == Run(ItemKey, cb, c4) by {
      UnquotedEndStep(ItemKey, cb, Scan(data, k, l, 1, 1, Unquoted, true, calls));
    }
    CloseStep(ItemKey, cb, c4);
    RefusedFails(ItemKey, cb, Scan(data, k + 1, l, 0, 1, End, true, c4.calls));
  }

  // ------------------------------------------------------------ the C loops

  /** replace_key_param: the callback on [l, r) of `data`, and the splice of its replacement. */
  method ReplaceKeyParam(data: string, kt: KeyType, l: nat, r: nat, level: int, num: int, quoted: bool,
                         cb: Callback) returns (ret: bool, data': string, r': nat)
    requires l <= r <= |data|
    ensures var c := Scan(data, r, l, level, num, New, true, []);
      var d := Invoke(kt, cb, c, l, r, quoted);
      ret == d.ok && data' == d.data && r' == d.i
  {
    var res := cb(data[l..r], kt, level, num, quoted);
    var param := res.1;
    ret := res.0;
    data', r' := data, r;
    if param.Some? {
      data' := data[..l] + param.value + data[r..];
      r' := l + |param.value|;
    }
  }

  /** `for (; SUCCEED == is_key_char((*data)[i]) && '\0' != (*data)[i]; i++);` */
  method ScanKeyName(data: string, isKeyChar: char -> bool) returns (i: nat)
    ensures i == KeyNameEnd(data, isKeyChar, 0)
  {
    i := 0;
    while i < |data| && isKeyChar(data[i])
      invariant i <= |data| && KeyNameEnd(data, isKeyChar, i) == KeyNameEnd(data, isKeyChar, 0)
      decreases |data| - i
    {
      i := i + 1;
    }
  }

  /** Where the OID head loop goes from `i` when it does not stop there, `OidHeadEnd` stays the same. */
  lemma OidHeadMoves(data: string, userMacro: MacroParser, nestedMacro: MacroParser, i: nat, next: nat)
    requires i < |data| && Fits(userMacro) && Fits(nestedMacro)
    requires next == if data[i] == '{' && i + 1 < |data| && data[i + 1] == '$' && userMacro(data[i..]).Some? then
        i + userMacro(data[i..]).value + 1
      else if data[i] == '{' && i + 2 < |data| && data[i + 1] == '{' && data[i + 2] == '#' &&
              nestedMacro(data[i..]).Some? then
        i + nestedMacro(data[i..]).value + 1
      else i + 1
    requires next == i + 1 ==> data[i] != '['
    ensures i < next <= |data| && OidHeadEnd(data, userMacro, nestedMacro, next) == OidHeadEnd(data, userMacro, nestedMacro, i)
  {
  }

  /** The SNMP OID head loop: skips user macros and low-level discovery macros up to the first '['. */
  method ScanOidHead(data: string, userMacro: MacroParser, nestedMacro: MacroParser) returns (i: nat)
    requires Fits(userMacro) && Fits(nestedMacro)
    ensures i == OidHeadEnd(data, userMacro, nestedMacro, 0)
  {
    i := 0;
    while i < |data|
      invariant i <= |data| && OidHeadEnd(data, userMacro, nestedMacro, i) == OidHeadEnd(data, userMacro, nestedMacro, 0)
      decreases |data| - i
    {
      var next: nat;
      if data[i] == '{' && i + 1 < |data| && data[i + 1] == '$' && userMacro(data[i..]).Some? {
        next := i + userMacro(data[i..]).value + 1;   // skip to the position after user macro
      } else if data[i] == '{' && i + 2 < |data| && data[i + 1] == '{' && data[i + 2] == '#' &&
                nestedMacro(data[i..]).Some? {
        next := i + nestedMacro(data[i..]).value + 1;
      } else if data[i] != '[' {
        next := i + 1;
      } else {
        break;
      }
      OidHeadMoves(data, userMacro, nestedMacro, i, next);
      i := next;
    }
  }

  /**
   * replace_key_params_dyn: SUCCEED, the rewritten key and the error text are
   * those of `ReplaceSpec`.
   */
  method ReplaceKeyParamsDyn(data0: string, kt: KeyType, cb: Callback, isKeyChar: char -> bool,
                             userMacro: MacroParser, nestedMacro: MacroParser, errorSize: Option<nat>)
    returns (ret: bool, data: string, error: Option<string>)
    requires Fits(userMacro) && Fits(nestedMacro)
    ensures var spec := ReplaceSpec(data0, kt, cb, isKeyChar, userMacro, nestedMacro);
      ret == spec.ok && data == spec.data &&
      (error.Some? <==> spec.error.Some? && errorSize.Some?) &&
      (error.Some? ==> error.value == Written(spec.error.value, errorSize.value))
  {
    var h;
    if kt == ItemKey {
      h := ScanKeyName(data0, isKeyChar);
      if h == 0 || (h < |data0| && data0[h] != '[') {
        var out := Finish(kt, Start(data0, h));   // goto clean
        ReportedMeans(out.error, errorSize);
        return out.ok, out.data, Reported(out.error, errorSize);
      }
    } else {
      h := ScanOidHead(data0, userMacro, nestedMacro);
    }
    var ok, d, i := ReplaceKeyParam(data0, kt, 0, h, 0, 0, false, cb);
    var c := Scan(d, i, 0, 0, 0, New, ok, [Call(data0[..h], 0, 0, false)]);
    assert c == Invoke(kt, cb, Start(data0, h), 0, h, false);
    var out := RunLoop(kt, cb, c);
    ReportedMeans(out.error, errorSize);
    return out.ok, out.data, Reported(out.error, errorSize);
  }

  /** The main loop of replace_key_params_dyn from `c0` to `clean:`, as `Run` describes it. */
  method RunLoop(kt: KeyType, cb: Callback, c0: Scan) returns (out: Outcome)
    requires Sound(c0)
    ensures out == Run(kt, cb, c0)
  {
    var c := c0;
    while c.i < |c.data| && c.ok
      invariant Sound(c)
      invariant Run(kt, cb, c) == Run(kt, cb, c0)
      decreases Rank(c)
    {
      var clean, next;
      match c.state {
        case New => clean, next := StepNew(kt, cb, c);
        case End => clean, next := StepEnd(kt, cb, c);
        case Unquoted => clean, next := StepUnquoted(kt, cb, c);
        case Quoted => clean, next := StepQuoted(kt, cb, c);
      }
      RunUnfold(kt, cb, c);
      if clean {
        return Finish(kt, c);   // goto clean
      }
      c := next;
    }
    return Finish(kt, c);
  }

  /** What `Reported` hands back: the message cut to the buffer, exactly when there is a message and a buffer. */
  lemma ReportedMeans(message: Option<string>, errorSize: Option<nat>)
    ensures Reported(message, errorSize).Some? <==> message.Some? && errorSize.Some?
    ensures Reported(message, errorSize).Some? ==> Reported(message, errorSize).value == Written(message.value, errorSize.value)
  {
  }

  /** `case ZBX_STATE_NEW` of the loop. */
  method StepNew(kt: KeyType, cb: Callback, c: Scan) returns (clean: bool, d: Scan)
    requires Sound(c) && c.i < |c.data| && c.state == New
    ensures if clean then Step(kt, cb, c) == Clean(c) else Step(kt, cb, c) == Next(d)
  {
    assert Step(kt, cb, c) == NewPass(kt, cb, c);
    var ch := c.data[c.i];
    clean, d := false, c.(i := c.i + 1);
    if ch == ',' {
      d := Invoke(kt, cb, c, c.i, c.i, false);
      d := d.(i := d.i + 1, num := if c.level == 1 then c.num + 1 else c.num);
    } else if ch == '[' {
      if c.level == 2 {
        return true, c;   // incorrect syntax: multi-level array
      }
      d := d.(level := c.level + 1);
      if d.level == 1 {
        d := d.(num := c.num + 1);
      }
    } else if ch == ']' {
      d := Invoke(kt, cb, c, c.i, c.i, false);
      d := d.(i := d.i + 1, level := c.level - 1, state := End);
    } else if ch == '"' {
      d := d.(state := Quoted, l := c.i);
    } else if ch != ' ' {
      d := d.(state := Unquoted, l := c.i);
    }
  }

  /** `case ZBX_STATE_END` of the loop. */
  method StepEnd(kt: KeyType, cb: Callback, c: Scan) returns (clean: bool, d: Scan)
    requires Sound(c) && c.i < |c.data| && c.state == End
    ensures if clean then Step(kt, cb, c) == Clean(c) else Step(kt, cb, c) == Next(d)
  {
    assert Step(kt, cb, c) == EndPass(c);
    var ch := c.data[c.i];
    clean, d := false, c.(i := c.i + 1);
    if ch == ',' {
      d := d.(state := New);
      if c.level == 1 {
        d := d.(num := c.num + 1);
      }
    } else if ch == ']' {
      if c.level == 0 {
        return true, c;   // incorrect syntax: redundant ']'
      }
      d := d.(level := c.level - 1);
    } else if ch != ' ' {
      return true, c;
    }
  }

  /** `case ZBX_STATE_UNQUOTED` of the loop. */
  method StepUnquoted(kt: KeyType, cb: Callback, c: Scan) returns (clean: bool, d: Scan)
    requires Sound(c) && c.i < |c.data| && c.state == Unquoted
    ensures !clean && Step(kt, cb, c) == Next(d)
  {
    assert Step(kt, cb, c) == UnquotedPass(kt, cb, c);
    clean := false;
    if c.data[c.i] == ']' || c.data[c.i] == ',' {
      d := Invoke(kt, cb, c, c.l, c.i, false);
      d := d.(state := End);
    } else {
      d := c.(i := c.i + 1);
    }
  }

  /** One pass in a quoted parameter: its end at an unescaped '"', or the next character. */
  lemma QuotedStep(kt: KeyType, cb: Callback, c: Scan)
    requires Sound(c) && c.i < |c.data| && c.state == Quoted
    ensures Step(kt, cb, c) ==
      if c.data[c.i] == '"' && c.data[c.i - 1] != '\\' then Next(Invoke(kt, cb, c, c.l, c.i + 1, true).(state := End))
      else Next(c.(i := c.i + 1))
  {
    assert Step(kt, cb, c) == QuotedPass(kt, cb, c);
  }

  /** `case ZBX_STATE_QUOTED` of the loop. */
  method StepQuoted(kt: KeyType, cb: Callback, c: Scan) returns (clean: bool, d: Scan)
    requires Sound(c) && c.i < |c.data| && c.state == Quoted
    ensures !clean && Step(kt, cb, c) == Next(d)
  {
    QuotedStep(kt, cb, c);
    clean := false;
    if c.data[c.i] == '"' && c.data[c.i - 1] != '\\' {
      d := Invoke(kt, cb, c, c.l, c.i + 1, true);
      d := d.(state := End);
    } else {
      d := c.(i := c.i + 1);
    }
  }
}
