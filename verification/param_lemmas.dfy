/** Properties of the param.c scanners, proved on their function forms. */
module ParamLemmas {
  import opened Strings
  import opened ParamMachine

  // ------------------------------------------------------------------- type

  /** Once parameter `num` has begun (a quote, an array or a character), its type is recorded. */
  predicate Typed(num: int, c: Scan)
  {
    c.idx == num && (c.mode != Init || c.depth > 0) ==> c.ty != Undefined
  }

  /** A pass keeps `Typed`, and a pass that writes to the buffer has a recorded type. */
  lemma TypedStep(s: string, num: int, c: Scan)
    requires c.p < |s| && Typed(num, c)
    ensures var st := GetParamStep(s, num, c);
      st.Next? ==> Typed(num, st.c) && (st.c.out != c.out ==> st.c.ty != Undefined)
  {
  }

  /** A recorded type is the type the run ends with. */
  lemma {:induction false} TypeKept(s: string, num: int, c: Scan)
    requires c.p <= |s| && c.ty != Undefined
    ensures GetParamRun(s, num, c).ty == c.ty
    decreases Rank(c.p, c.mode, |s|)
  {
    if c.p < |s| && c.idx <= num {
      match GetParamStep(s, num, c)
      case SyntaxError =>
      case Next(c') => TypeKept(s, num, c');
    }
  }

  /**
   * A pass that is a syntax error, or that writes past a full buffer, leaves
   * the type the unbounded run ends with.
   */
  lemma StopType(s: string, num: int, c: Scan)
    requires c.p < |s| && c.idx <= num && Typed(num, c)
    requires GetParamStep(s, num, c).Next? ==> |GetParamStep(s, num, c).c.out| > |c.out|
    ensures GetParamRun(s, num, c).ty == PassType(s, num, c)
  {
    TypedStep(s, num, c);
    match GetParamStep(s, num, c)
    case SyntaxError =>
    case Next(c') => TypeKept(s, num, c');
  }

  /** get_param_len and get_param walk `s` in lock step: one counts exactly what the other writes. */
  predicate Matched(c: Scan, d: LenScan)
  {
    c.p == d.p && c.mode == d.mode && c.depth == d.depth && c.idx == d.idx && d.sz == |c.out|
  }

  lemma {:induction false} LenRunAgrees(s: string, num: int, c: Scan, d: LenScan)
    requires c.p <= |s| && Matched(c, d)
    ensures GetParamLenRun(s, num, d).code == GetParamRun(s, num, c).code
    ensures GetParamLenRun(s, num, d).sz == |GetParamRun(s, num, c).out|
    decreases Rank(c.p, c.mode, |s|)
  {
    if c.p < |s| && c.idx <= num {
      StepAgrees(s, num, c, d);
      match GetParamStep(s, num, c)
      case SyntaxError =>
      case Next(c') =>
        LenRunAgrees(s, num, c', GetParamLenStep(s, num, d).c);
    }
  }

  /** One pass of each loop on matched configurations fails together or leaves them matched. */
  lemma StepAgrees(s: string, num: int, c: Scan, d: LenScan)
    requires c.p < |s| && Matched(c, d)
    ensures GetParamStep(s, num, c).SyntaxError? == GetParamLenStep(s, num, d).SyntaxError?
    ensures GetParamStep(s, num, c).Next? ==>
      Matched(GetParamStep(s, num, c).c, GetParamLenStep(s, num, d).c)
  {
    match c.mode {
      case Init => StepAgreesInit(s, num, c, d);
      case Quoted => StepAgreesQuoted(s, num, c, d);
      case Unquoted =>
    }
  }

  lemma StepAgreesInit(s: string, num: int, c: Scan, d: LenScan)
    requires c.p < |s| && Matched(c, d) && c.mode == Init
    ensures GetParamStep(s, num, c).SyntaxError? == GetParamLenStep(s, num, d).SyntaxError?
    ensures GetParamStep(s, num, c).Next? ==>
      Matched(GetParamStep(s, num, c).c, GetParamLenStep(s, num, d).c)
  {
    if s[c.p] == ']' && c.depth != 0 {
      var q := SkipSpaces(s, c.p);
    }
  }

  lemma StepAgreesQuoted(s: string, num: int, c: Scan, d: LenScan)
    requires c.p < |s| && Matched(c, d) && c.mode == Quoted
    ensures GetParamStep(s, num, c).SyntaxError? == GetParamLenStep(s, num, d).SyntaxError?
    ensures GetParamStep(s, num, c).Next? ==>
      Matched(GetParamStep(s, num, c).c, GetParamLenStep(s, num, d).c)
  {
    if s[c.p] == '"' {
      var q := SkipSpaces(s, c.p);
    }
  }

  /**
   * get_param_len reports what get_param finds: the same outcome, and as
   * length the number of characters get_param writes.
   */
  lemma LenAgrees(s: string, num: int)
    ensures GetParamLenSpec(s, num).code == GetParamSpec(s, num).code
    ensures GetParamLenSpec(s, num).sz == |GetParamSpec(s, num).out|
  {
    LenRunAgrees(s, num, ScanStart, LenScan(0, Init, 0, 1, 0));
  }

  // ------------------------------------------------------------ plain lists

  /** A list with no quotes and no brackets: its parameters are the pieces between commas. */
  predicate Plain(s: string)
  {
    forall i :: 0 <= i < |s| ==> s[i] != '"' && s[i] != '[' && s[i] != ']'
  }

  /** The first piece of `s[p..]` grows by `s[p]` when that is not a comma; the later pieces stay. */
  lemma SplitAt(s: string, p: nat)
    requires p < |s|
    ensures s[p..][1..] == s[p + 1..]
    ensures Count(s[p..], ',') == (if s[p] == ',' then 1 else 0) + Count(s[p + 1..], ',')
    ensures s[p] == ',' ==> Split(s[p..], ',') == [[]] + Split(s[p + 1..], ',')
    ensures s[p] != ',' ==>
      Split(s[p..], ',') == [[s[p]] + Split(s[p + 1..], ',')[0]] + Split(s[p + 1..], ',')[1..]
  {
    assert s[p..][1..] == s[p + 1..];
  }

  /** num_param on a plain list from any unquoted configuration: one more per top-level comma. */
  lemma {:induction false} NumPlainRun(s: string, c: NumScan)
    requires Plain(s) && c.p <= |s| && c.depth == 0 && c.mode != Quoted
    ensures NumParamRun(s, c) == c.ret + Count(s[c.p..], ',')
    decreases Rank(c.p, c.mode, |s|)
  {
    if c.p < |s| {
      SplitAt(s, c.p);
      match NumParamStep(s, c)
      case SyntaxError =>
        assert false;
      case Next(c') =>
        NumPlainRun(s, c');
    }
  }

  /** num_param counts the pieces of a plain list: top-level commas + 1. */
  lemma NumParamPlain(s: string)
    requires Plain(s)
    ensures NumParamSpec(s) == Count(s, ',') + 1 == |Split(s, ',')|
  {
    NumPlainRun(s, NumScan(0, Init, 0, 1));
    assert s[0..] == s;
    SplitCount(s, ',');
  }

  /** An empty or all-space list holds one (empty) parameter. */
  lemma NumParamBlank(s: string)
    requires forall i :: 0 <= i < |s| ==> s[i] == ' '
    ensures NumParamSpec(s) == 1
  {
    NumParamPlain(s);
    SplitNoDelimiter(s, ',');
  }

  /** `TrimLeft` skips one leading space, and keeps any other first character. */
  lemma TrimLeftCons(ch: char, x: string)
    ensures ch == ' ' ==> TrimLeft([ch] + x) == TrimLeft(x)
    ensures ch != ' ' ==> TrimLeft([ch] + x) == [ch] + x
  {
    assert ([ch] + x)[1..] == x;
  }

  /** A configuration of the get_param loop on a plain list that has not passed parameter `num`. */
  predicate PlainConfig(s: string, num: int, c: Scan)
  {
    Plain(s) && c.p <= |s| && c.depth == 0 && c.mode != Quoted && c.idx <= num &&
    num - c.idx < |Split(s[c.p..], ',')|
  }

  /**
   * What get_param ends with from configuration `c` when the rest of the list
   * splits into `ps`: parameter `num` is a piece between commas, with its
   * leading spaces skipped unless its copy has already begun; STRING is
   * recorded exactly when a character is written.
   */
  function PieceResult(ps: seq<string>, num: int, c: Scan): Parsed
    requires 0 <= num - c.idx < |ps|
  {
    var piece := ps[num - c.idx];
    if c.mode == Unquoted && c.idx == num then Parsed(0, c.out + piece, c.ty)
    else Parsed(0, c.out + TrimLeft(piece), if TrimLeft(piece) != [] then SetType(c.ty, StringParam) else c.ty)
  }

  function PlainResult(s: string, num: int, c: Scan): Parsed
    requires PlainConfig(s, num, c)
  {
    PieceResult(Split(s[c.p..], ','), num, c)
  }

  /** The get_param step on a character `ch` of a plain list, where only commas and spaces matter. */
  function PlainAdvance(ch: char, num: int, c: Scan): Scan
  {
    var at := c.idx == num;
    if c.mode == Unquoted then
      if ch == ',' then c.(mode := Init) else c.(p := c.p + 1, out := Emit(at, c.out, [ch]))
    else if ch == ',' then c.(p := c.p + 1, idx := c.idx + 1)
    else if ch == ' ' then c.(p := c.p + 1)
    else c.(p := c.p + 1, mode := Unquoted, ty := if at then SetType(c.ty, StringParam) else c.ty,
            out := Emit(at, c.out, [ch]))
  }

  lemma PlainStepIs(s: string, num: int, c: Scan)
    requires Plain(s) && c.p < |s| && c.depth == 0 && c.mode != Quoted
    ensures GetParamStep(s, num, c) == Next(PlainAdvance(s[c.p], num, c))
  {
  }

  /** One pass from a plain configuration ends parameter `num` or keeps the expected result. */
  lemma GetPlainStep(s: string, num: int, c: Scan)
    requires PlainConfig(s, num, c) && c.p < |s|
    ensures var c' := PlainAdvance(s[c.p], num, c);
      if c'.idx <= num then PlainConfig(s, num, c') && PlainResult(s, num, c') == PlainResult(s, num, c)
      else c'.mode == Init && c'.depth == 0 && c'.idx == num + 1 && PlainResult(s, num, c) == Parsed(0, c'.out, c'.ty)
  {
    SplitAt(s, c.p);
    var ps, rest := Split(s[c.p..], ','), Split(s[c.p + 1..], ',');
    var c' := PlainAdvance(s[c.p], num, c);
    if s[c.p] == ',' {
      if c.mode == Init {
        assert ps == [[]] + rest;
        if c'.idx <= num {
          assert ps[num - c.idx] == rest[num - c'.idx];
        }
      } else {
        assert c'.p == c.p;
      }
    } else {
      assert c'.p == c.p + 1;
      PieceAdvance(ps, rest, s[c.p], num, c);
    }
  }

  /** Any character but a comma extends the first piece, and the expected result stays the same. */
  lemma PieceAdvance(ps: seq<string>, rest: seq<string>, ch: char, num: int, c: Scan)
    requires |rest| >= 1 && ps == [[ch] + rest[0]] + rest[1..] && ch != ','
    requires c.mode != Quoted && 0 <= num - c.idx < |ps|
    ensures 0 <= num - PlainAdvance(ch, num, c).idx < |rest|
    ensures PieceResult(rest, num, PlainAdvance(ch, num, c)) == PieceResult(ps, num, c)
  {
    if c.idx < num {
      PieceAdvanceLater(ps, rest, ch, num, c);
    } else if c.mode == Unquoted {
      PieceAdvanceCopying(ps, rest, ch, num, c);
    } else {
      PieceAdvanceStart(ps, rest, ch, num, c);
    }
  }

  /** Before parameter `num`, a character changes neither the output nor the type. */
  lemma PieceAdvanceLater(ps: seq<string>, rest: seq<string>, ch: char, num: int, c: Scan)
    requires |rest| >= 1 && ps == [[ch] + rest[0]] + rest[1..] && ch != ','
    requires c.mode != Quoted && 0 < num - c.idx < |ps|
    ensures var c' := PlainAdvance(ch, num, c);
      c'.idx == c.idx && c'.out == c.out && c'.ty == c.ty
    ensures PieceResult(rest, num, PlainAdvance(ch, num, c)) == PieceResult(ps, num, c)
  {
    assert ps[num - c.idx] == rest[num - c.idx];
  }

  /** Inside parameter `num`, a character is copied as it is. */
  lemma PieceAdvanceCopying(ps: seq<string>, rest: seq<string>, ch: char, num: int, c: Scan)
    requires |rest| >= 1 && ps == [[ch] + rest[0]] + rest[1..] && ch != ','
    requires c.mode == Unquoted && c.idx == num
    ensures PlainAdvance(ch, num, c) == c.(p := c.p + 1, out := c.out + [ch])
    ensures PieceResult(rest, num, PlainAdvance(ch, num, c)) == PieceResult(ps, num, c)
  {
    assert (c.out + [ch]) + rest[0] == c.out + ([ch] + rest[0]);
  }

  /** At the start of parameter `num`, a space is skipped and any other character begins the copy. */
  lemma PieceAdvanceStart(ps: seq<string>, rest: seq<string>, ch: char, num: int, c: Scan)
    requires |rest| >= 1 && ps == [[ch] + rest[0]] + rest[1..] && ch != ','
    requires c.mode == Init && c.idx == num
    ensures PieceResult(rest, num, PlainAdvance(ch, num, c)) == PieceResult(ps, num, c)
  {
    TrimLeftCons(ch, rest[0]);
    if ch != ' ' {
      assert (c.out + [ch]) + rest[0] == c.out + ([ch] + rest[0]);
    }
  }

  /** get_param from a plain configuration succeeds with `PlainResult`. */
  lemma {:induction false} GetPlainRun(s: string, num: int, c: Scan)
    requires PlainConfig(s, num, c)
    ensures GetParamRun(s, num, c) == PlainResult(s, num, c)
    decreases Rank(c.p, c.mode, |s|)
  {
    if c.p < |s| {
      PlainStepIs(s, num, c);
      GetPlainStep(s, num, c);
      var c' := PlainAdvance(s[c.p], num, c);
      if c'.idx <= num {
        GetPlainRun(s, num, c');
      }
    } else {
      assert s[c.p..] == [];
    }
  }

  /** get_param reports a missing parameter on a plain list from any configuration short of it. */
  lemma {:induction false} GetPlainMissing(s: string, num: int, c: Scan)
    requires Plain(s) && c.p <= |s| && c.depth == 0 && c.mode != Quoted
    requires num - c.idx > Count(s[c.p..], ',')
    ensures GetParamRun(s, num, c).code == 1
    decreases Rank(c.p, c.mode, |s|)
  {
    if c.p < |s| {
      SplitAt(s, c.p);
      match GetParamStep(s, num, c)
      case SyntaxError =>
        assert false;
      case Next(c') =>
        GetPlainMissing(s, num, c');
    } else {
      assert s[c.p..] == [];
    }
  }

  /**
   * get_param on a plain list: parameter `num` (1-based) is the `num`-th piece
   * between commas with its leading spaces skipped and its trailing spaces kept,
   * typed STRING when non-empty; past the last piece the parameter is missing.
   */
  lemma GetParamPlain(s: string, num: int)
    requires Plain(s) && num >= 1
    ensures var ps := Split(s, ',');
      var r := GetParamSpec(s, num);
      (num <= |ps| ==> r.code == 0 && r.out == TrimLeft(ps[num - 1]) &&
                       r.ty == if r.out == [] then Undefined else StringParam) &&
      (num > |ps| ==> r.code == 1)
  {
    assert s[0..] == s;
    SplitCount(s, ',');
    if num <= |Split(s, ',')| {
      GetPlainRun(s, num, ScanStart);
      assert PlainResult(s, num, ScanStart).out == TrimLeft(Split(s, ',')[num - 1]);
    } else {
      GetPlainMissing(s, num, ScanStart);
    }
  }

  /** A parameter number below 1 is found at once, empty and untyped. */
  lemma GetParamNonPositive(s: string, num: int)
    requires num <= 0
    ensures GetParamSpec(s, num) == Parsed(0, [], Undefined)
  {
  }

  // ------------------------------------------------------------- rejections

  /** num_param in a quoted parameter that is never closed reaches the end and fails. */
  lemma {:induction false} NumQuotedOpen(s: string, c: NumScan)
    requires c.p <= |s| && c.mode == Quoted && forall i :: c.p <= i < |s| ==> s[i] != '"'
    ensures NumParamRun(s, c) == 0
    decreases |s| - c.p
  {
    if c.p < |s| {
      NumQuotedOpen(s, NumParamStep(s, c).c);
    }
  }

  /** num_param in an array that is never closed, over text without quotes or brackets, fails at the end. */
  lemma {:induction false} NumArrayOpen(s: string, c: NumScan)
    requires c.p <= |s| && c.mode != Quoted && c.depth == 1
    requires forall i :: c.p <= i < |s| ==> s[i] != '"' && s[i] != '[' && s[i] != ']'
    ensures NumParamRun(s, c) == 0
    decreases Rank(c.p, c.mode, |s|)
  {
    if c.p < |s| {
      NumArrayOpen(s, NumParamStep(s, c).c);
    }
  }

  /**
   * get_param stops once parameter `num` is passed: the stray ']' that makes
   * "a,]" invalid for num_param goes unreported when asking for the first parameter.
   */
  lemma GetParamStopsEarly()
    ensures NumParamSpec("a,]") == 0
    ensures GetParamSpec("a,]", 1) == Parsed(0, "a", StringParam)
  {
    var s := "a,]";
    assert NumParamStep(s, NumScan(0, Init, 0, 1)) == Next(NumScan(1, Unquoted, 0, 1));
    assert NumParamStep(s, NumScan(1, Unquoted, 0, 1)) == Next(NumScan(1, Init, 0, 1));
    assert NumParamStep(s, NumScan(1, Init, 0, 1)) == Next(NumScan(2, Init, 0, 2));
    assert NumParamStep(s, NumScan(2, Init, 0, 2)) == SyntaxError;
    var c1 := Scan(1, Unquoted, 0, 1, "a", StringParam);
    assert Emit(true, [], [s[0]]) == "a";
    assert GetParamStep(s, 1, ScanStart) == Next(c1);
    assert GetParamStep(s, 1, c1) == Next(c1.(mode := Init));
    assert GetParamStep(s, 1, c1.(mode := Init)) == Next(c1.(p := 2, mode := Init, idx := 2));
  }

  // ------------------------------------------------------- quoted and arrays

  /** The first character of `x` written inside double quotes: '"' is preceded by a backslash. */
  function EscapedFirst(x: string): (r: string)
    requires x != []
    ensures r == [x[0]] || (x[0] == '"' && r == ['\\', '"'])
  {
    if x[0] == '"' then ['\\', '"'] else [x[0]]
  }

  /** `x` written inside double quotes: each '"' is preceded by a backslash, any other backslash is itself. */
  function Escape(x: string): (r: string)
    ensures |r| >= |x|
  {
    if x == [] then [] else EscapedFirst(x) + Escape(x[1..])
  }

  lemma AppendHead(out: string, x: string)
    requires x != []
    ensures out + [x[0]] + x[1..] == out + x
  {
    assert [x[0]] + x[1..] == x;
  }

  // ------------------------------------------------------------ remove_param

  /** `xs` without its element at index `k`. */
  function RemoveAt<T>(xs: seq<T>, k: nat): (r: seq<T>)
    requires k < |xs|
    ensures |r| == |xs| - 1
  {
    xs[..k] + xs[k + 1..]
  }

  /**
   * What remove_param keeps of the pieces `ps` between commas, the first of
   * which belongs to parameter `idx`: every piece but that of parameter `num`,
   * and every comma but the one that begins parameter `num` (or, for the first
   * parameter, the one that ends it).
   */
  function KeptPieces(ps: seq<string>, idx: int, num: int): string
    requires |ps| >= 1
    decreases |ps|
  {
    (if idx != num then ps[0] else []) +
    if |ps| == 1 then []
    else (if idx + 1 != num && !(idx == 1 && num == 1) then [','] else []) + KeptPieces(ps[1..], idx + 1, num)
  }

  /** The remove_param scan on a list without quotes keeps exactly `KeptPieces`. */
  lemma {:induction false} RemoveFromPlain(s: string, num: int, i: nat, idx: int)
    requires i <= |s| && '"' !in s
    ensures RemoveParamFrom(s, num, i, false, idx) == KeptPieces(Split(s[i..], ','), idx, num)
    decreases |s| - i
  {
    if i < |s| {
      SplitAt(s, i);
      var rest := Split(s[i + 1..], ',');
      if s[i] == ',' {
        RemoveFromPlain(s, num, i + 1, idx + 1);
        RemoveCommaStep(s, num, i, idx);
        KeptPiecesComma(rest, idx, num);
      } else {
        RemoveFromPlain(s, num, i + 1, idx);
        RemoveCharStep(s, num, i, idx);
        KeptPiecesCons(s[i], rest, idx, num);
      }
    } else {
      assert s[i..] == [];
    }
  }

  /** An unquoted comma begins the next parameter; it is dropped when that parameter goes, or the first one does. */
  lemma RemoveCommaStep(s: string, num: int, i: nat, idx: int)
    requires i < |s| && s[i] == ','
    ensures RemoveParamFrom(s, num, i, false, idx) ==
      (if idx + 1 != num && !(idx == 1 && num == 1) then [','] else []) + RemoveParamFrom(s, num, i + 1, false, idx + 1)
  {
  }

  /** Any other unquoted character but '"' stays exactly when its parameter does. */
  lemma RemoveCharStep(s: string, num: int, i: nat, idx: int)
    requires i < |s| && s[i] != ',' && s[i] != '"'
    ensures RemoveParamFrom(s, num, i, false, idx) ==
      (if idx != num then [s[i]] else []) + RemoveParamFrom(s, num, i + 1, false, idx)
  {
  }

  /** An empty first piece contributes only the comma after it, when kept. */
  lemma KeptPiecesComma(rest: seq<string>, idx: int, num: int)
    requires |rest| >= 1
    ensures KeptPieces([[]] + rest, idx, num) ==
      (if idx + 1 != num && !(idx == 1 && num == 1) then [','] else []) + KeptPieces(rest, idx + 1, num)
  {
    assert ([[]] + rest)[1..] == rest;
  }

  /** A character prefixed to the first piece is kept exactly when that piece is. */
  lemma KeptPiecesCons(ch: char, rest: seq<string>, idx: int, num: int)
    requires |rest| >= 1
    ensures KeptPieces([[ch] + rest[0]] + rest[1..], idx, num) ==
            (if idx != num then [ch] else []) + KeptPieces(rest, idx, num)
  {
    var ps := [[ch] + rest[0]] + rest[1..];
    assert ps[1..] == rest[1..];
  }

  /** When no piece belongs to parameter `num`, every piece and comma is kept. */
  lemma {:induction false} KeptAll(ps: seq<string>, idx: int, num: int)
    requires |ps| >= 1 && idx >= 1 && (idx > num || num < 1 || num >= idx + |ps|)
    ensures KeptPieces(ps, idx, num) == Join(ps, [','])
    decreases |ps|
  {
    if |ps| > 1 {
      KeptAll(ps[1..], idx + 1, num);
    }
  }

  /** At parameter `num` itself (not the first): its piece goes, the comma after it stays. */
  lemma KeptFrom(ps: seq<string>, num: int)
    requires |ps| >= 1 && num > 1
    ensures KeptPieces(ps, num, num) == if |ps| == 1 then [] else [','] + Join(ps[1..], [','])
  {
    if |ps| > 1 {
      KeptAll(ps[1..], num + 1, num);
    }
  }

  /** Before parameter `num`: the kept text is the join of the pieces without that of `num`. */
  lemma {:induction false} KeptBefore(ps: seq<string>, idx: int, num: int)
    requires 1 <= idx < num < idx + |ps|
    ensures KeptPieces(ps, idx, num) == Join(RemoveAt(ps, num - idx), [','])
    decreases |ps|
  {
    var r := RemoveAt(ps, num - idx);
    assert r[0] == ps[0];
    if num == idx + 1 {
      KeptFrom(ps[1..], num);
      if |ps| > 2 {
        assert r[1..] == ps[2..];
      }
    } else {
      KeptBefore(ps[1..], idx + 1, num);
      assert r[1..] == RemoveAt(ps[1..], num - idx - 1);
    }
  }

  /**
   * remove_param on a list without quotes: parameter `num` goes together with
   * the comma after it (first parameter) or before it (any other); a `num`
   * outside 1..(commas + 1) leaves the text unchanged.
   */
  lemma RemoveParamPlain(s: string, num: int)
    requires '"' !in s
    ensures var ps := Split(s, ',');
      (1 <= num <= |ps| ==> RemoveParamSpec(s, num) == Join(RemoveAt(ps, num - 1), [','])) &&
      (num < 1 || num > |ps| ==> RemoveParamSpec(s, num) == s)
  {
    var ps := Split(s, ',');
    assert RemoveParamSpec(s, num) == KeptPieces(ps, 1, num) by {
      RemoveFromPlain(s, num, 0, 1);
      assert s[0..] == s;
    }
    if num == 1 {
      KeptFirst(ps);
    } else if 1 < num <= |ps| {
      KeptBefore(ps, 1, num);
    } else {
      KeptAll(ps, 1, num);
      JoinSplit(s, ',');
    }
  }

  /** The first parameter goes with the comma after it. */
  lemma KeptFirst(ps: seq<string>)
    requires |ps| >= 1
    ensures KeptPieces(ps, 1, 1) == Join(RemoveAt(ps, 0), [','])
  {
    assert RemoveAt(ps, 0) == ps[1..];
    if |ps| > 1 {
      KeptAll(ps[1..], 2, 1);
    }
  }
}
