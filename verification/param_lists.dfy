/**
 * Properties of the param.c scanners on whole lists: what a segment without
 * quotes or brackets does to the scan, where a malformed element makes the
 * list malformed, and how a valid list followed by ',' and more parameters
 * is scanned.
 */
module ParamLists {
  import opened Strings
  import opened ParamMachine
  import opened ParamLemmas

  /** No quote or bracket in `s[i..k]`. */
  predicate PlainBetween(s: string, i: nat, k: nat)
  {
    forall j :: i <= j < k && j < |s| ==> s[j] != '"' && s[j] != '[' && s[j] != ']'
  }

  /** A plain list that is empty or ends with ',': what follows starts a new parameter. */
  predicate OpensParam(x: string)
  {
    Plain(x) && (x == [] || x[|x| - 1] == ',')
  }

  lemma PlainPrefix(x: string, t: string)
    requires Plain(x)
    ensures PlainBetween(x + t, 0, |x|)
  {
    assert forall j :: 0 <= j < |x| ==> (x + t)[j] == x[j];
  }

  // ------------------------------------------------------------ num_param

  /**
   * num_param across a segment without quotes or brackets that is empty or
   * ends with ',': the scan arrives in state init at the same depth, having
   * counted the segment's commas when outside an array.
   */
  lemma {:induction false} NumPlainToComma(s: string, c: NumScan, k: nat)
    requires c.p <= k <= |s| && c.mode != Quoted && PlainBetween(s, c.p, k)
    requires k == c.p || s[k - 1] == ','
    ensures NumParamRun(s, c) == NumParamRun(s, NumScan(k, if k == c.p then c.mode else Init, c.depth,
                                                          c.ret + if c.depth == 0 then Count(s[c.p..k], ',') else 0))
    decreases Rank(c.p, c.mode, |s|)
  {
    if c.p < k {
      var c' := NumPlainStep(s, c, k);
      assert NumParamRun(s, c) == NumParamRun(s, c');
      NumPlainToComma(s, c', k);
    } else {
      assert s[c.p..k] == [];
    }
  }

  /** Where `NumPlainToComma` lands from `c`: at `k`, with the commas in between counted. */
  function PlainTarget(s: string, c: NumScan, k: nat): NumScan
    requires c.p <= k <= |s|
  {
    NumScan(k, if k == c.p then c.mode else Init, c.depth,
            c.ret + if c.depth == 0 then Count(s[c.p..k], ',') else 0)
  }

  /** One pass of num_param before `k` over a segment without quotes or brackets keeps the same landing point. */
  lemma NumPlainStep(s: string, c: NumScan, k: nat) returns (c': NumScan)
    requires c.p < k <= |s| && c.mode != Quoted && PlainBetween(s, c.p, k)
    requires s[k - 1] == ','
    ensures NumParamStep(s, c) == Next(c') && c'.p <= k && c'.mode != Quoted && PlainBetween(s, c'.p, k)
    ensures (k == c'.p || s[k - 1] == ',') && Rank(c'.p, c'.mode, |s|) < Rank(c.p, c.mode, |s|)
    ensures PlainTarget(s, c', k) == PlainTarget(s, c, k)
  {
    var ch := s[c.p];
    assert ch != '"' && ch != '[' && ch != ']';
    c' := NumParamStep(s, c).c;
    assert Count(s[c.p..k], ',') == (if ch == ',' then 1 else 0) + Count(s[c.p + 1..k], ',') by {
      assert s[c.p..k][0] == ch && s[c.p..k][1..] == s[c.p + 1..k];
    }
    if c'.p == c.p {
      assert s[c.p..k] == s[c'.p..k];
    }
  }

  /** A ']' reached outside an array, over a segment without quotes or brackets, is a syntax error. */
  lemma {:induction false} NumStrayRun(s: string, c: NumScan, k: nat)
    requires c.p <= k < |s| && c.mode != Quoted && c.depth == 0 && PlainBetween(s, c.p, k) && s[k] == ']'
    ensures NumParamRun(s, c) == 0
    decreases Rank(c.p, c.mode, |s|)
  {
    match NumParamStep(s, c)
    case SyntaxError =>
    case Next(c') => NumStrayRun(s, c', k);
  }

  /** Where a parameter starts after `x`: init state, outside any array, with its number. */
  lemma NumAfterOpen(s: string, x: string)
    requires OpensParam(x) && x <= s
    ensures NumParamSpec(s) == NumParamRun(s, NumScan(|x|, Init, 0, 1 + Count(x, ',')))
  {
    assert s == x + s[|x|..];
    PlainPrefix(x, s[|x|..]);
    NumPlainToComma(s, NumScan(0, Init, 0, 1), |x|);
    assert s[0..|x|] == x;
  }

  /** A ']' outside an array, after any plain text, makes the list malformed (count 0). */
  lemma NumParamStray(x: string, t: string)
    requires Plain(x)
    ensures NumParamSpec(x + "]" + t) == 0
  {
    var s := x + "]" + t;
    assert s == x + ("]" + t);
    PlainPrefix(x, "]" + t);
    NumStrayRun(s, NumScan(0, Init, 0, 1), |x|);
  }

  /** A '[' that opens an element of an array makes the list malformed: only one level is allowed. */
  lemma NumParamNested(x: string, z: string, t: string)
    requires OpensParam(x) && OpensParam(z)
    ensures NumParamSpec(x + "[" + z + "[" + t) == 0
  {
    var s := x + "[" + z + "[" + t;
    var r := 1 + Count(x, ',');
    NumAfterOpen(s, x);
    assert s[|x|] == '[';
    var c := NumScan(|x| + 1, Init, 1, r);
    assert NumParamStep(s, NumScan(|x|, Init, 0, r)) == Next(c);
    var k := |x| + 1 + |z|;
    assert forall j :: |x| + 1 <= j < k ==> s[j] == z[j - |x| - 1];
    NumPlainToComma(s, c, k);
    assert s[k] == '[';
    assert NumParamStep(s, NumScan(k, Init, 1, r)) == SyntaxError;
  }

  /** A quote that opens a parameter and is never closed makes the list malformed. */
  lemma NumParamUnterminated(x: string, z: string)
    requires OpensParam(x) && '"' !in z
    ensures NumParamSpec(x + "\"" + z) == 0
  {
    var s := x + "\"" + z;
    var r := 1 + Count(x, ',');
    NumAfterOpen(s, x);
    assert s[|x|] == '"';
    assert NumParamStep(s, NumScan(|x|, Init, 0, r)) == Next(NumScan(|x| + 1, Quoted, 0, r));
    assert forall j :: |x| + 1 <= j < |s| ==> s[j] == z[j - |x| - 1];
    NumQuotedOpen(s, NumScan(|x| + 1, Quoted, 0, r));
  }

  /** An array that opens a parameter and is never closed makes the list malformed. */
  lemma NumParamUnclosed(x: string, z: string)
    requires OpensParam(x) && Plain(z)
    ensures NumParamSpec(x + "[" + z) == 0
  {
    var s := x + "[" + z;
    var r := 1 + Count(x, ',');
    NumAfterOpen(s, x);
    assert s[|x|] == '[';
    assert NumParamStep(s, NumScan(|x|, Init, 0, r)) == Next(NumScan(|x| + 1, Init, 1, r));
    assert forall j :: |x| + 1 <= j < |s| ==> s[j] == z[j - |x| - 1];
    NumArrayOpen(s, NumScan(|x| + 1, Init, 1, r));
  }

  // ---------------------------------------------------- a list and the rest

  /** Spaces are skipped alike in `x` and in `x` followed by text that does not start with a space. */
  lemma {:induction false} SkipSpacesExtend(x: string, z: string, p: nat)
    requires p < |x| && z != [] && z[0] != ' '
    ensures SkipSpaces(x + z, p) == SkipSpaces(x, p)
    decreases |x| - p
  {
    if Ch(x, p + 1) == ' ' {
      SkipSpacesExtend(x, z, p + 1);
    }
  }

  /** Spaces are skipped alike in `y` and, shifted, in `y` after a prefix. */
  lemma {:induction false} SkipSpacesShift(pre: string, y: string, p: nat)
    requires p < |y|
    ensures SkipSpaces(pre + y, |pre| + p) == |pre| + SkipSpaces(y, p)
    decreases |y| - p
  {
    assert Ch(pre + y, |pre| + p + 1) == Ch(y, p + 1);
    if Ch(y, p + 1) == ' ' {
      SkipSpacesShift(pre, y, p + 1);
    }
  }

  /** Before the end of `x`, a pass of num_param is the same on `x` and on `x` followed by a ','. */
  lemma NumStepExtend(x: string, z: string, c: NumScan)
    requires c.p < |x| && z != [] && z[0] == ','
    ensures NumParamStep(x + z, c) == NumParamStep(x, c)
  {
    var s := x + z;
    assert s[c.p] == x[c.p];
    assert Ch(s, c.p + 1) == Ch(x, c.p + 1) || (Ch(s, c.p + 1) == ',' && Ch(x, c.p + 1) == '\0');
    var q := SkipSpaces(x, c.p);
    SkipSpacesExtend(x, z, c.p);
    assert Ch(s, q + 1) == Ch(x, q + 1) || (Ch(s, q + 1) == ',' && Ch(x, q + 1) == '\0');
  }

  /**
   * A scan of `x` that ends without error scans `x` followed by ',' in the
   * same way, arriving at the ',' in state init with the count of `x`.
   */
  lemma {:induction false} NumExtend(x: string, z: string, c: NumScan)
    requires c.p <= |x| && z != [] && z[0] == ',' && NumParamRun(x, c) != 0
    ensures NumParamRun(x + z, c) == NumParamRun(x + z, NumScan(|x|, Init, 0, NumParamRun(x, c)))
    decreases Rank(c.p, c.mode, |x|)
  {
    if c.p < |x| {
      NumStepExtend(x, z, c);
      NumExtend(x, z, NumParamStep(x, c).c);
    } else if c.mode == Unquoted {
      assert (x + z)[c.p] == ',';
      assert NumParamStep(x + z, c) == Next(c.(mode := Init));
    }
  }

  /** Raising the count at the start raises a successful result by as much. */
  lemma {:induction false} NumRetShift(s: string, c: NumScan, k: nat)
    requires c.p <= |s| && c.ret >= 1
    ensures var r := NumParamRun(s, c);
      NumParamRun(s, c.(ret := c.ret + k)) == if r == 0 then 0 else r + k
    decreases Rank(c.p, c.mode, |s|)
  {
    if c.p < |s| {
      match NumParamStep(s, c)
      case SyntaxError =>
      case Next(c') =>
        assert NumParamStep(s, c.(ret := c.ret + k)) == Next(c'.(ret := c'.ret + k));
        NumRetShift(s, c', k);
    }
  }

  /** A pass of num_param on `y` after a prefix is the pass on `y`, shifted. */
  lemma NumStepShift(pre: string, y: string, c: NumScan)
    requires c.p < |y|
    ensures var st := NumParamStep(y, c);
      NumParamStep(pre + y, c.(p := |pre| + c.p)) == if st.SyntaxError? then SyntaxError else Next(st.c.(p := |pre| + st.c.p))
  {
    match c.mode
    case Init => NumStepShiftInit(pre, y, c);
    case Quoted => NumStepShiftQuoted(pre, y, c);
    case Unquoted =>
      var s := pre + y;
      assert s[|pre| + c.p] == y[c.p];
  }

  lemma NumStepShiftInit(pre: string, y: string, c: NumScan)
    requires c.p < |y| && c.mode == Init
    ensures var st := NumParamStep(y, c);
      NumParamStep(pre + y, c.(p := |pre| + c.p)) == if st.SyntaxError? then SyntaxError else Next(st.c.(p := |pre| + st.c.p))
  {
    var s := pre + y;
    var ch := y[c.p];
    assert s[|pre| + c.p] == ch;
    if ch == ']' && c.depth != 0 {
      SkipSpacesShift(pre, y, c.p);
      var q := SkipSpaces(y, c.p);
      assert Ch(s, |pre| + q + 1) == Ch(y, q + 1);
    }
  }

  lemma NumStepShiftQuoted(pre: string, y: string, c: NumScan)
    requires c.p < |y| && c.mode == Quoted
    ensures var st := NumParamStep(y, c);
      NumParamStep(pre + y, c.(p := |pre| + c.p)) == if st.SyntaxError? then SyntaxError else Next(st.c.(p := |pre| + st.c.p))
  {
    var s := pre + y;
    var ch := y[c.p];
    assert s[|pre| + c.p] == ch;
    if ch == '"' {
      SkipSpacesShift(pre, y, c.p);
      var q := SkipSpaces(y, c.p);
      assert Ch(s, |pre| + q + 1) == Ch(y, q + 1);
    } else {
      assert Ch(s, |pre| + c.p + 1) == Ch(y, c.p + 1);
    }
  }

  /** num_param on `y` after a prefix, started where `y` starts, is num_param on `y`. */
  lemma {:induction false} NumShift(pre: string, y: string, c: NumScan)
    requires c.p <= |y|
    ensures NumParamRun(pre + y, c.(p := |pre| + c.p)) == NumParamRun(y, c)
    decreases Rank(c.p, c.mode, |y|)
  {
    if c.p < |y| {
      NumStepShift(pre, y, c);
      match NumParamStep(y, c)
      case SyntaxError =>
      case Next(c') => NumShift(pre, y, c');
    }
  }

  /**
   * A valid list followed by ',' and more text: the counts add up, and a
   * malformed rest makes the whole list malformed.
   */
  lemma NumParamJoin(x: string, y: string)
    requires NumParamSpec(x) != 0
    ensures NumParamSpec(x + "," + y) ==
      if NumParamSpec(y) == 0 then 0 else NumParamSpec(x) + NumParamSpec(y)
  {
    var s := x + "," + y;
    var rx := NumParamSpec(x);
    var ry := NumParamSpec(y);
    var c0 := NumScan(0, Init, 0, 1);
    var c1 := NumScan(|x|, Init, 0, rx);
    var c2 := NumScan(|x| + 1, Init, 0, rx + 1);
    var cy := NumScan(0, Init, 0, rx + 1);
    assert NumParamSpec(s) == NumParamRun(s, c1) by {
      assert s == x + ("," + y);
      NumExtend(x, "," + y, c0);
    }
    assert NumParamRun(s, c1) == NumParamRun(s, c2) by {
      assert s[|x|] == ',';
      assert NumParamStep(s, c1) == Next(c2);
    }
    assert NumParamRun(s, c2) == NumParamRun(y, cy) by {
      var x' := x + ",";
      assert s == x' + y && c2 == cy.(p := |x'| + cy.p);
      NumShift(x', y, cy);
    }
    assert NumParamRun(y, cy) == (if ry == 0 then 0 else ry + rx) by {
      assert cy == c0.(ret := c0.ret + rx);
      NumRetShift(y, c0, rx);
    }
  }

  // ------------------------------------------------------------ get_param

  /** Before the end of `x`, a pass of get_param is the same on `x` and on `x` followed by a ','. */
  lemma GetStepExtend(x: string, z: string, num: int, c: Scan)
    requires c.p < |x| && z != [] && z[0] == ','
    ensures GetParamStep(x + z, num, c) == GetParamStep(x, num, c)
  {
    var s := x + z;
    assert s[c.p] == x[c.p];
    assert Ch(s, c.p + 1) == Ch(x, c.p + 1) || (Ch(s, c.p + 1) == ',' && Ch(x, c.p + 1) == '\0');
    var q := SkipSpaces(x, c.p);
    SkipSpacesExtend(x, z, c.p);
    assert Ch(s, q + 1) == Ch(x, q + 1) || (Ch(s, q + 1) == ',' && Ch(x, q + 1) == '\0');
  }

  /** get_param before parameter `num` and num_param at the same place: nothing written yet. */
  predicate Before(num: int, c: Scan, n: NumScan)
  {
    c.p == n.p && c.mode == n.mode && c.depth == n.depth <= 1 && c.idx == n.ret && c.idx < num &&
    c.out == [] && c.ty == Undefined
  }

  /** Where num_param makes a pass, get_param makes the same pass, writing nothing before parameter `num`. */
  lemma GetStepBefore(s: string, num: int, c: Scan, n: NumScan)
    requires c.p < |s| && Before(num, c, n) && NumParamStep(s, n).Next?
    requires NumParamStep(s, n).c.ret < num
    ensures GetParamStep(s, num, c).Next? && Before(num, GetParamStep(s, num, c).c, NumParamStep(s, n).c)
  {
  }

  /**
   * Before parameter `num`, get_param scans a valid list `x` followed by ','
   * as num_param does, arriving at the ',' in state init with its count.
   */
  lemma {:induction false} GetExtend(x: string, z: string, num: int, c: Scan, n: NumScan)
    requires c.p <= |x| && z != [] && z[0] == ',' && Before(num, c, n)
    requires NumParamRun(x, n) != 0 && NumParamRun(x, n) < num
    ensures GetParamRun(x + z, num, c) == GetParamRun(x + z, num, Scan(|x|, Init, 0, NumParamRun(x, n), [], Undefined))
    decreases Rank(c.p, c.mode, |x|)
  {
    if c.p < |x| {
      GetStepExtend(x, z, num, c);
      GetStepBefore(x, num, c, n);
      GetExtend(x, z, num, GetParamStep(x, num, c).c, NumParamStep(x, n).c);
    } else if c.mode == Unquoted {
      assert (x + z)[c.p] == ',';
      assert GetParamStep(x + z, num, c) == Next(c.(mode := Init));
    }
  }

  /** The configuration `c` of a scan of `y`, placed after a prefix of length `n` and renumbered by `j`. */
  function Shifted(c: Scan, n: nat, j: int): Scan
  {
    c.(p := n + c.p, idx := c.idx + j)
  }

  /** A pass of get_param on `y` after a prefix, with parameters renumbered by `j`, is the pass on `y`, shifted. */
  lemma GetStepShift(pre: string, y: string, num: int, j: int, c: Scan)
    requires c.p < |y|
    ensures var st := GetParamStep(y, num, c);
      GetParamStep(pre + y, num + j, Shifted(c, |pre|, j)) ==
        if st.SyntaxError? then SyntaxError else Next(Shifted(st.c, |pre|, j))
  {
    var s := pre + y;
    assert s[|pre| + c.p] == y[c.p];
    assert Ch(s, |pre| + c.p + 1) == Ch(y, c.p + 1);
    SkipSpacesShift(pre, y, c.p);
    var q := SkipSpaces(y, c.p);
    assert Ch(s, |pre| + q + 1) == Ch(y, q + 1);
    assert ShiftedView(s, y, |pre|, c.p);
    match c.mode {
      case Init => GetStepShiftInit(s, y, |pre|, num, j, c);
      case Quoted => GetStepShiftQuoted(s, y, |pre|, num, j, c);
      case Unquoted => GetStepShiftUnquoted(s, y, |pre|, num, j, c);
    }
  }

  /** The facts a shifted pass needs about the string after the prefix of length `n`. */
  predicate ShiftedView(s: string, y: string, n: nat, p: nat)
    requires p < |y|
  {
    |s| == n + |y| && s[n + p] == y[p] && Ch(s, n + p + 1) == Ch(y, p + 1) &&
    SkipSpaces(s, n + p) == n + SkipSpaces(y, p) &&
    Ch(s, n + SkipSpaces(y, p) + 1) == Ch(y, SkipSpaces(y, p) + 1)
  }

  lemma GetStepShiftInit(s: string, y: string, n: nat, num: int, j: int, c: Scan)
    requires c.p < |y| && c.mode == Init && ShiftedView(s, y, n, c.p)
    ensures var st := GetParamStep(y, num, c);
      GetParamStep(s, num + j, Shifted(c, n, j)) ==
        if st.SyntaxError? then SyntaxError else Next(Shifted(st.c, n, j))
  {
    var ch := y[c.p];
    if ch == ',' {
      GetStepShiftComma(s, y, n, num, j, c);
    } else if ch == '"' || ch == '[' {
      GetStepShiftOpen(s, y, n, num, j, c);
    } else if ch == ']' && c.depth != 0 {
      GetStepShiftClose(s, y, n, num, j, c);
    } else {
      GetStepShiftPlain(s, y, n, num, j, c);
    }
  }

  lemma GetStepShiftComma(s: string, y: string, n: nat, num: int, j: int, c: Scan)
    requires c.p < |y| && c.mode == Init && ShiftedView(s, y, n, c.p) && y[c.p] == ','
    ensures var st := GetParamStep(y, num, c);
      GetParamStep(s, num + j, Shifted(c, n, j)) ==
        if st.SyntaxError? then SyntaxError else Next(Shifted(st.c, n, j))
  {
    var at := c.idx == num;
    var c2 := Shifted(c, n, j);
    var st2 := GetParamStep(s, num + j, c2);
    if c.depth == 0 {
      assert GetParamStep(y, num, c) == Next(c.(p := c.p + 1, idx := c.idx + 1));
      assert st2 == Next(c2.(p := c2.p + 1, idx := c2.idx + 1));
    } else {
      assert GetParamStep(y, num, c) == Next(c.(p := c.p + 1, out := Emit(at, c.out, [','])));
      assert st2 == Next(c2.(p := c2.p + 1, out := Emit(at, c.out, [','])));
    }
  }

  lemma GetStepShiftOpen(s: string, y: string, n: nat, num: int, j: int, c: Scan)
    requires c.p < |y| && c.mode == Init && ShiftedView(s, y, n, c.p) && (y[c.p] == '"' || y[c.p] == '[')
    ensures var st := GetParamStep(y, num, c);
      GetParamStep(s, num + j, Shifted(c, n, j)) ==
        if st.SyntaxError? then SyntaxError else Next(Shifted(st.c, n, j))
  {
    var ch := y[c.p];
    var at := c.idx == num;
    var c2 := Shifted(c, n, j);
    var st2 := GetParamStep(s, num + j, c2);
    var out := Emit(at && c.depth != 0, c.out, [ch]);
    if ch == '"' {
      var ty := if at then SetType(c.ty, StringParam) else c.ty;
      assert GetParamStep(y, num, c) == Next(c.(p := c.p + 1, mode := Quoted, ty := ty, out := out));
      assert st2 == Next(c2.(p := c2.p + 1, mode := Quoted, ty := ty, out := out));
    } else {
      var ty := if at then SetType(c.ty, ArrayParam) else c.ty;
      assert GetParamStep(y, num, c) == Next(c.(p := c.p + 1, depth := c.depth + 1, ty := ty, out := out));
      assert st2 == Next(c2.(p := c2.p + 1, depth := c2.depth + 1, ty := ty, out := out));
    }
  }

  lemma GetStepShiftPlain(s: string, y: string, n: nat, num: int, j: int, c: Scan)
    requires c.p < |y| && c.mode == Init && ShiftedView(s, y, n, c.p)
    requires y[c.p] != ',' && y[c.p] != '"' && y[c.p] != '[' && (y[c.p] == ']' ==> c.depth == 0)
    ensures var st := GetParamStep(y, num, c);
      GetParamStep(s, num + j, Shifted(c, n, j)) ==
        if st.SyntaxError? then SyntaxError else Next(Shifted(st.c, n, j))
  {
    var c2 := Shifted(c, n, j);
    assert s[c2.p] == y[c.p] && (c2.idx == num + j <==> c.idx == num);
    InitPlainStep(y, num, c);
    InitPlainStep(s, num + j, c2);
  }

  /** A pass of get_param over an ordinary character or a space, outside quotes. */
  lemma InitPlainStep(s: string, num: int, c: Scan)
    requires c.p < |s| && c.mode == Init
    requires s[c.p] != ',' && s[c.p] != '"' && s[c.p] != '[' && (s[c.p] == ']' ==> c.depth == 0)
    ensures GetParamStep(s, num, c) ==
      if s[c.p] == ' ' then Next(c.(p := c.p + 1))
      else Next(c.(p := c.p + 1, mode := Unquoted, ty := if c.idx == num then SetType(c.ty, StringParam) else c.ty,
                   out := Emit(c.idx == num, c.out, [s[c.p]])))
  {
  }

  lemma GetStepShiftClose(s: string, y: string, n: nat, num: int, j: int, c: Scan)
    requires c.p < |y| && c.mode == Init && ShiftedView(s, y, n, c.p) && y[c.p] == ']' && c.depth != 0
    ensures var st := GetParamStep(y, num, c);
      GetParamStep(s, num + j, Shifted(c, n, j)) ==
        if st.SyntaxError? then SyntaxError else Next(Shifted(st.c, n, j))
  {
    var at := c.idx == num;
    var c2 := Shifted(c, n, j);
    var q := SkipSpaces(y, c.p);
    if Closes(y, q, c.depth - 1) {
      var out := Emit(at && c.depth - 1 != 0, c.out, [']']);
      assert GetParamStep(y, num, c) == Next(c.(p := q + 1, depth := c.depth - 1, out := out));
      assert GetParamStep(s, num + j, c2) == Next(c2.(p := n + q + 1, depth := c.depth - 1, out := out));
    } else {
      assert GetParamStep(y, num, c) == SyntaxError;
    }
  }

  lemma GetStepShiftQuote(s: string, y: string, n: nat, num: int, j: int, c: Scan)
    requires c.p < |y| && c.mode == Quoted && ShiftedView(s, y, n, c.p) && y[c.p] == '"'
    ensures var st := GetParamStep(y, num, c);
      GetParamStep(s, num + j, Shifted(c, n, j)) ==
        if st.SyntaxError? then SyntaxError else Next(Shifted(st.c, n, j))
  {
    var at := c.idx == num;
    var c2 := Shifted(c, n, j);
    var q := SkipSpaces(y, c.p);
    if Closes(y, q, c.depth) {
      var out := Emit(at && c.depth != 0, c.out, ['"']);
      assert GetParamStep(y, num, c) == Next(c.(p := q + 1, mode := Init, out := out));
      assert GetParamStep(s, num + j, c2) == Next(c2.(p := n + q + 1, mode := Init, out := out));
    } else {
      assert GetParamStep(y, num, c) == SyntaxError;
    }
  }

  lemma GetStepShiftQuoted(s: string, y: string, n: nat, num: int, j: int, c: Scan)
    requires c.p < |y| && c.mode == Quoted && ShiftedView(s, y, n, c.p)
    ensures var st := GetParamStep(y, num, c);
      GetParamStep(s, num + j, Shifted(c, n, j)) ==
        if st.SyntaxError? then SyntaxError else Next(Shifted(st.c, n, j))
  {
    var ch := y[c.p];
    var at := c.idx == num;
    var c2 := Shifted(c, n, j);
    if ch == '"' {
      GetStepShiftQuote(s, y, n, num, j, c);
    } else if ch == '\\' && Ch(y, c.p + 1) == '"' {
      var out := Emit(at, Emit(at && c.depth != 0, c.out, ['\\']), ['"']);
      assert GetParamStep(y, num, c) == Next(c.(p := c.p + 2, out := out));
      assert GetParamStep(s, num + j, c2) == Next(c2.(p := c2.p + 2, out := out));
    } else {
      var out := Emit(at, c.out, [ch]);
      assert GetParamStep(y, num, c) == Next(c.(p := c.p + 1, out := out));
      assert GetParamStep(s, num + j, c2) == Next(c2.(p := c2.p + 1, out := out));
    }
  }

  lemma GetStepShiftUnquoted(s: string, y: string, n: nat, num: int, j: int, c: Scan)
    requires c.p < |y| && c.mode == Unquoted && ShiftedView(s, y, n, c.p)
    ensures var st := GetParamStep(y, num, c);
      GetParamStep(s, num + j, Shifted(c, n, j)) ==
        if st.SyntaxError? then SyntaxError else Next(Shifted(st.c, n, j))
  {
    var ch := y[c.p];
    if ch == ',' || (ch == ']' && c.depth != 0) {
      GetStepShiftSeparator(s, y, n, num, j, c);
    } else {
      var c2 := Shifted(c, n, j);
      var out := Emit(c.idx == num, c.out, [ch]);
      assert GetParamStep(y, num, c) == Next(c.(p := c.p + 1, out := out));
      assert GetParamStep(s, num + j, c2) == Next(c2.(p := c2.p + 1, out := out));
    }
  }

  lemma GetStepShiftSeparator(s: string, y: string, n: nat, num: int, j: int, c: Scan)
    requires c.p < |y| && c.mode == Unquoted && ShiftedView(s, y, n, c.p)
    requires y[c.p] == ',' || (y[c.p] == ']' && c.depth != 0)
    ensures var st := GetParamStep(y, num, c);
      GetParamStep(s, num + j, Shifted(c, n, j)) ==
        if st.SyntaxError? then SyntaxError else Next(Shifted(st.c, n, j))
  {
    var c2 := Shifted(c, n, j);
    assert GetParamStep(y, num, c) == Next(c.(mode := Init));
    assert GetParamStep(s, num + j, c2) == Next(c2.(mode := Init));
  }

  /** get_param on `y` after a prefix, with parameters renumbered by `j`, is get_param on `y`. */
  lemma {:induction false} GetShift(s: string, pre: string, y: string, num: int, j: int, c: Scan)
    requires s == pre + y && c.p <= |y|
    ensures GetParamRun(s, num + j, Shifted(c, |pre|, j)) == GetParamRun(y, num, c)
    decreases Rank(c.p, c.mode, |y|)
  {
    if c.p < |y| && c.idx <= num {
      GetStepShift(pre, y, num, j, c);
      match GetParamStep(y, num, c)
      case SyntaxError =>
      case Next(c') => GetShift(s, pre, y, num, j, c');
    }
  }

  /**
   * After a valid list and a ',', parameter `k` of the rest is parameter
   * count-plus-`k` of the whole: same result, text and type.
   */
  lemma GetParamJoin(x: string, y: string, k: int)
    requires NumParamSpec(x) != 0 && k >= 1
    ensures GetParamSpec(x + "," + y, NumParamSpec(x) + k) == GetParamSpec(y, k)
  {
    var s := x + "," + y;
    var rx := NumParamSpec(x);
    GetUpToComma(s, x, y, rx + k);
    GetAfterComma(s, x, y, k, rx);
  }

  /** From the start of `y` after `x` and ',', get_param renumbered by the count of `x` is get_param on `y`. */
  lemma GetAfterComma(s: string, x: string, y: string, k: int, rx: int)
    requires s == x + "," + y
    ensures GetParamRun(s, rx + k, Scan(|x| + 1, Init, 0, rx + 1, [], Undefined)) == GetParamSpec(y, k)
  {
    var pre := x + ",";
    assert s == pre + y;
    assert Shifted(ScanStart, |pre|, rx) == Scan(|x| + 1, Init, 0, rx + 1, [], Undefined);
    GetShift(s, pre, y, k, rx, ScanStart);
    assert k + rx == rx + k;
  }

  /** get_param scans a valid list `x` and the ',' after it, before parameter `num`, as num_param does. */
  lemma GetUpToComma(s: string, x: string, y: string, num: int)
    requires s == x + "," + y && NumParamSpec(x) != 0 && NumParamSpec(x) < num
    ensures GetParamSpec(s, num) == GetParamRun(s, num, Scan(|x| + 1, Init, 0, NumParamSpec(x) + 1, [], Undefined))
  {
    var r := NumParamSpec(x);
    assert s == x + ("," + y);
    GetExtend(x, "," + y, num, ScanStart, NumScan(0, Init, 0, 1));
    assert s[|x|] == ',';
    assert GetParamStep(s, num, Scan(|x|, Init, 0, r, [], Undefined)) == Next(Scan(|x| + 1, Init, 0, r + 1, [], Undefined));
  }

  // ---------------------------------------------- quoted and array parameters

  /** What may follow a closed parameter: spaces, then the end of the list or a ','. */
  predicate EndsParam(t: string)
  {
    t == [] || t[0] == ',' || (t[0] == ' ' && EndsParam(t[1..]))
  }

  /** Only spaces. */
  predicate Spaces(w: string)
  {
    forall i :: 0 <= i < |w| ==> w[i] == ' '
  }

  /** Text whose quoted form get_param reads back: a final backslash would escape the closing quote. */
  predicate NoTrailingBackslash(x: string)
  {
    x == [] || x[|x| - 1] != '\\'
  }

  /** After a closing quote or bracket at `p` followed by `t`, the skipped spaces end at the end of the list or at a ','. */
  lemma {:induction false} CloseAt(s: string, p: nat, t: string)
    requires p < |s| && s[p + 1..] == t && EndsParam(t)
    ensures SkipSpaces(s, p) + 1 == |s| || s[SkipSpaces(s, p) + 1] == ','
    decreases |s| - p
  {
    if Ch(s, p + 1) == ' ' {
      assert t[1..] == s[p + 2..];
      CloseAt(s, p + 1, t[1..]);
    }
  }

  lemma EscapeHead(x: string)
    requires x != []
    ensures Escape(x) != [] && Escape(x)[0] != '"'
  {
  }

  lemma NoTrailingBackslashTail(x: string)
    requires x != [] && NoTrailingBackslash(x)
    ensures NoTrailingBackslash(x[1..])
    ensures x[0] == '\\' ==> |x| >= 2
  {
    if |x| >= 2 {
      assert x[1..][|x| - 2] == x[|x| - 1];
    }
  }

  /** In state init, spaces are skipped without effect. */
  lemma {:induction false} SpacesRun(s: string, num: int, c: Scan, n: nat)
    requires c.mode == Init && c.idx == num && c.p + n <= |s|
    requires forall j :: c.p <= j < c.p + n ==> s[j] == ' '
    ensures GetParamRun(s, num, c) == GetParamRun(s, num, c.(p := c.p + n))
    decreases n
  {
    if n > 0 {
      assert GetParamStep(s, num, c) == Next(c.(p := c.p + 1));
      SpacesRun(s, num, c.(p := c.p + 1), n - 1);
    }
  }

  /** Leading spaces and an opening quote or bracket: the scan of the first parameter enters it typed. */
  lemma Opening(s: string, w: string, o: char, rest: string)
    requires s == w + [o] + rest && Spaces(w) && (o == '"' || o == '[')
    ensures s[|w| + 1..] == rest
    ensures GetParamSpec(s, 1) == GetParamRun(s, 1,
      if o == '"' then Scan(|w| + 1, Quoted, 0, 1, [], StringParam) else Scan(|w| + 1, Init, 1, 1, [], ArrayParam))
  {
    assert forall j :: 0 <= j < |w| ==> s[j] == w[j];
    SpacesRun(s, 1, ScanStart, |w|);
    var c := ScanStart.(p := |w|);
    assert s[|w|] == o;
    InitOpen(s, 1, c);
  }

  /** At the end of the list or at the ',' after it, parameter `num` is complete. */
  lemma ClosedParam(s: string, num: int, c: Scan)
    requires c.mode == Init && c.depth == 0 && c.idx == num && c.p <= |s|
    requires c.p == |s| || s[c.p] == ','
    ensures GetParamRun(s, num, c) == Parsed(0, c.out, c.ty)
  {
    if c.p < |s| {
      assert GetParamStep(s, num, c) == Next(c.(p := c.p + 1, idx := c.idx + 1));
    }
  }

  /** One pass in state init on a ',' inside an array: it is copied. */
  lemma InitComma(s: string, num: int, c: Scan)
    requires c.mode == Init && c.idx == num && c.p < |s| && s[c.p] == ',' && c.depth != 0
    ensures GetParamStep(s, num, c) == Next(c.(p := c.p + 1, out := c.out + ","))
  {
  }

  /** One pass in state init on an opening quote or bracket: the parameter gets its type. */
  lemma InitOpen(s: string, num: int, c: Scan)
    requires c.mode == Init && c.idx == num && c.p < |s| && (s[c.p] == '"' || s[c.p] == '[')
    ensures s[c.p] == '"' ==>
      GetParamStep(s, num, c) == Next(c.(p := c.p + 1, mode := Quoted, ty := SetType(c.ty, StringParam),
                                         out := Emit(c.depth != 0, c.out, "\"")))
    ensures s[c.p] == '[' ==>
      GetParamStep(s, num, c) == Next(c.(p := c.p + 1, depth := c.depth + 1, ty := SetType(c.ty, ArrayParam),
                                         out := Emit(c.depth != 0, c.out, "[")))
  {
  }

  /** One pass in state init on the ']' closing a top-level array followed by spaces and the end or a ','. */
  lemma InitClose(s: string, num: int, c: Scan)
    requires c.mode == Init && c.idx == num && c.p < |s| && s[c.p] == ']' && c.depth == 1
    requires SkipSpaces(s, c.p) + 1 == |s| || s[SkipSpaces(s, c.p) + 1] == ','
    ensures GetParamStep(s, num, c) == Next(c.(p := SkipSpaces(s, c.p) + 1, depth := 0))
  {
  }

  /** One pass in state init on a character that starts bare text: it is copied, in state unquoted. */
  lemma InitBare(s: string, num: int, c: Scan)
    requires c.mode == Init && c.idx == num && c.p < |s| && s[c.p] !in " \"[],"
    ensures GetParamStep(s, num, c) == Next(c.(p := c.p + 1, mode := Unquoted, ty := SetType(c.ty, StringParam),
                                               out := c.out + [s[c.p]]))
  {
  }

  /** One pass inside quotes on the first character of `x` as written: a '"' comes with its backslash. */
  lemma QuotedPass(s: string, num: int, c: Scan, x: string)
    requires c.mode == Quoted && c.idx == num && x != [] && c.p < |s|
    requires s[c.p] == EscapedFirst(x)[0]
    requires x[0] == '"' ==> Ch(s, c.p + 1) == '"'
    requires x[0] == '\\' ==> Ch(s, c.p + 1) != '"'
    ensures GetParamStep(s, num, c) ==
      Next(c.(p := c.p + |EscapedFirst(x)|, out := c.out + (if c.depth == 0 then [x[0]] else EscapedFirst(x))))
  {
    if x[0] == '"' {
      assert c.out + ['\\'] + ['"'] == c.out + EscapedFirst(x);
    }
  }

  /** The pass on a closing quote followed by spaces and the end, a ',' or, inside an array, a ']'. */
  lemma QuotedClose(s: string, num: int, c: Scan)
    requires c.mode == Quoted && c.idx == num && c.p < |s| && s[c.p] == '"'
    requires var q := SkipSpaces(s, c.p); q + 1 == |s| || s[q + 1] == ',' || (c.depth != 0 && s[q + 1] == ']')
    ensures GetParamStep(s, num, c) ==
      Next(c.(p := SkipSpaces(s, c.p) + 1, mode := Init, out := Emit(c.depth != 0, c.out, "\"")))
  {
  }

  /** The closing quote of an array element directly followed by ',' or ']' is copied, back in state init. */
  lemma QuotedCloseInArray(s: string, num: int, c: Scan, f: Scan)
    requires c.mode == Quoted && c.idx == num && c.depth != 0 && c.p + 1 < |s| && s[c.p] == '"'
    requires s[c.p + 1] == ',' || s[c.p + 1] == ']'
    requires f == c.(p := c.p + 1, mode := Init, out := c.out + "\"")
    ensures GetParamRun(s, num, c) == GetParamRun(s, num, f)
  {
    assert SkipSpaces(s, c.p) == c.p;
    assert GetParamStep(s, num, c) == Next(f);
  }

  /** What the quoted text `x` followed by a closing quote tells about the characters at `p`. */
  lemma EscapeChars(s: string, p: nat, x: string)
    requires x != [] && NoTrailingBackslash(x)
    requires p + |Escape(x)| < |s| && s[p..p + |Escape(x)|] == Escape(x) && s[p + |Escape(x)|] == '"'
    ensures Escape(x) == EscapedFirst(x) + Escape(x[1..])
    ensures s[p] == EscapedFirst(x)[0]
    ensures x[0] == '"' ==> Ch(s, p + 1) == '"'
    ensures x[0] == '\\' ==> Ch(s, p + 1) != '"'
    ensures s[p + |EscapedFirst(x)|..p + |Escape(x)|] == Escape(x[1..])
    ensures NoTrailingBackslash(x[1..])
  {
    var e := EscapedFirst(x);
    var k := p + |Escape(x)|;
    NoTrailingBackslashTail(x);
    assert s[p] == Escape(x)[0];
    if x[0] == '"' {
      assert s[p + 1] == Escape(x)[1];
    } else if x[0] == '\\' {
      EscapeHead(x[1..]);
      assert s[p + 1] == Escape(x)[1] == Escape(x[1..])[0];
    }
    assert s[p + |e|..k] == s[p..k][|e|..];
  }

  /** A pass from `c` to `d` followed by the run from `d`: the run from `c`. */
  lemma RunVia(s: string, num: int, c: Scan, d: Scan, e: Scan)
    requires c.p < |s| && c.idx <= num && d.p <= |s| && e.p <= |s|
    requires GetParamStep(s, num, c) == Next(d) && GetParamRun(s, num, d) == GetParamRun(s, num, e)
    ensures GetParamRun(s, num, c) == GetParamRun(s, num, e)
  {
  }

  /** The text get_param writes for the quoted text `x`: `x` itself at the top level, `x` as written inside an array. */
  function QuotedOut(depth: nat, x: string): (r: string)
    ensures depth == 0 ==> r == x
    ensures depth != 0 ==> r == Escape(x)
  {
    if depth == 0 then x else Escape(x)
  }

  /** The configuration after the pass on the first character of the quoted text `x`. */
  function QuotedNext(c: Scan, x: string): Scan
    requires x != []
  {
    c.(p := c.p + |EscapedFirst(x)|, out := c.out + (if c.depth == 0 then [x[0]] else EscapedFirst(x)))
  }

  /** The pass on the first character of the quoted text `x` leaves the rest of `x` to scan and write. */
  lemma QuotedBodyStep(s: string, num: int, c: Scan, x: string, k: nat)
    requires c.mode == Quoted && c.idx == num && NoTrailingBackslash(x) && x != []
    requires k == c.p + |Escape(x)| && k < |s| && s[c.p..k] == Escape(x) && s[k] == '"'
    ensures GetParamStep(s, num, c) == Next(QuotedNext(c, x))
    ensures var d := QuotedNext(c, x);
      && NoTrailingBackslash(x[1..]) && k == d.p + |Escape(x[1..])| && s[d.p..k] == Escape(x[1..])
      && d.(p := k, out := d.out + QuotedOut(c.depth, x[1..])) == c.(p := k, out := c.out + QuotedOut(c.depth, x))
  {
    assert GetParamStep(s, num, c) == Next(QuotedNext(c, x)) by {
      EscapeChars(s, c.p, x);
      QuotedPass(s, num, c, x);
    }
    QuotedBodyRest(s, c, x, k);
  }

  /** What is left of the quoted text `x` after its first character: its scan and its output. */
  lemma QuotedBodyRest(s: string, c: Scan, x: string, k: nat)
    requires NoTrailingBackslash(x) && x != []
    requires k == c.p + |Escape(x)| && k < |s| && s[c.p..k] == Escape(x) && s[k] == '"'
    ensures var d := QuotedNext(c, x);
      && NoTrailingBackslash(x[1..]) && k == d.p + |Escape(x[1..])| && s[d.p..k] == Escape(x[1..])
      && d.(p := k, out := d.out + QuotedOut(c.depth, x[1..])) == c.(p := k, out := c.out + QuotedOut(c.depth, x))
  {
    var e := EscapedFirst(x);
    EscapeChars(s, c.p, x);
    if c.depth == 0 {
      AppendHead(c.out, x);
    } else {
      assert c.out + e + Escape(x[1..]) == c.out + Escape(x);
    }
  }

  /**
   * Inside quotes, get_param runs through the quoted text `x` up to its
   * closing quote at `k`, writing `x` at the top level and `x` as written
   * inside an array.
   */
  lemma {:induction false} QuotedBody(s: string, num: int, c: Scan, x: string, k: nat)
    requires c.mode == Quoted && c.idx == num && NoTrailingBackslash(x)
    requires k == c.p + |Escape(x)| && k < |s| && s[c.p..k] == Escape(x) && s[k] == '"'
    ensures GetParamRun(s, num, c) == GetParamRun(s, num, c.(p := k, out := c.out + QuotedOut(c.depth, x)))
    decreases |x|
  {
    if x == [] {
      assert c.(p := k, out := c.out + QuotedOut(c.depth, x)) == c;
    } else {
      QuotedBodyStep(s, num, c, x, k);
      QuotedBody(s, num, QuotedNext(c, x), x[1..], k);
      RunVia(s, num, c, QuotedNext(c, x), c.(p := k, out := c.out + QuotedOut(c.depth, x)));
    }
  }

  /** The closing quote of top-level parameter `num`, followed by spaces and the end or a ',', completes it. */
  lemma QuotedEnd(s: string, num: int, d: Scan, t: string)
    requires d.mode == Quoted && d.depth == 0 && d.idx == num && d.p < |s| && s[d.p] == '"'
    requires s[d.p + 1..] == t && EndsParam(t)
    ensures GetParamRun(s, num, d) == Parsed(0, d.out, d.ty)
  {
    CloseAt(s, d.p, t);
    var q := SkipSpaces(s, d.p);
    QuotedClose(s, num, d);
    var d' := d.(p := q + 1, mode := Init);
    ClosedParam(s, num, d');
    RunVia(s, num, d, d', d');
  }

  /** From inside the quotes of top-level parameter `num`, get_param writes the text back unescaped. */
  lemma QuotedRun(s: string, num: int, c: Scan, x: string, t: string)
    requires c.mode == Quoted && c.depth == 0 && c.idx == num && c.p <= |s|
    requires s[c.p..] == Escape(x) + "\"" + t && EndsParam(t) && NoTrailingBackslash(x)
    ensures GetParamRun(s, num, c) == Parsed(0, c.out + x, c.ty)
  {
    var k := c.p + |Escape(x)|;
    assert s[c.p..k] == Escape(x) && s[k] == '"' && s[k + 1..] == t by {
      ReadsThen(s, c.p, Escape(x), '"', t);
    }
    QuotedBody(s, num, c, x, k);
    QuotedEnd(s, num, c.(p := k, out := c.out + x), t);
  }

  /**
   * A quoted first parameter, after any spaces and before spaces and a ',' or
   * the end, comes out without its enclosing quotes and with every `\"`
   * turned back into '"', typed STRING; other backslashes are kept.
   */
  lemma GetParamQuoted(w: string, x: string, t: string)
    requires Spaces(w) && NoTrailingBackslash(x) && EndsParam(t)
    ensures GetParamSpec(w + "\"" + Escape(x) + "\"" + t, 1) == Parsed(0, x, StringParam)
  {
    var rest := Escape(x) + "\"" + t;
    var s := w + "\"" + rest;
    var c := Scan(|w| + 1, Quoted, 0, 1, [], StringParam);
    assert s == w + "\"" + Escape(x) + "\"" + t;
    assert s[c.p..] == rest && GetParamSpec(s, 1) == GetParamRun(s, 1, c) by {
      Opening(s, w, '"', rest);
    }
    assert GetParamRun(s, 1, c) == Parsed(0, c.out + x, c.ty) by {
      QuotedRun(s, 1, c, x, t);
    }
    assert c.out + x == x;
  }

  /** The same quoted parameter as parameter count-plus-one after a valid list and ','. */
  lemma GetParamQuotedAfter(pre: string, w: string, x: string, t: string)
    requires NumParamSpec(pre) != 0 && Spaces(w) && NoTrailingBackslash(x) && EndsParam(t)
    ensures GetParamSpec(pre + "," + w + "\"" + Escape(x) + "\"" + t, NumParamSpec(pre) + 1) == Parsed(0, x, StringParam)
  {
    var y := w + "\"" + Escape(x) + "\"" + t;
    assert pre + "," + w + "\"" + Escape(x) + "\"" + t == pre + "," + y;
    GetParamJoin(pre, y, 1);
    GetParamQuoted(w, x, t);
  }

  /** An element of an array parameter: unquoted text, or a quoted string. */
  datatype Element = Bare(t: string) | QuotedElem(x: string)

  /** How an element is written in the list. */
  function ElementText(e: Element): string
  {
    match e
    case Bare(t) => t
    case QuotedElem(x) => "\"" + Escape(x) + "\""
  }

  /**
   * An element get_param copies as written: bare text without quote, bracket
   * or ',' that does not start with a space, or a quoted string.
   */
  predicate WellFormed(e: Element)
  {
    match e
    case Bare(t) => (t == [] || t[0] != ' ') && forall i :: 0 <= i < |t| ==> t[i] !in "\"[],"
    case QuotedElem(x) => NoTrailingBackslash(x)
  }

  /** The elements as written between the brackets, separated by ','. */
  function ArrayBody(es: seq<Element>): string
    requires es != []
  {
    if |es| == 1 then ElementText(es[0]) else ElementText(es[0]) + "," + ArrayBody(es[1..])
  }

  /** In state unquoted inside an array, get_param copies up to the next ',' or ']' and falls back to init there. */
  lemma {:induction false} BareRun(s: string, num: int, c: Scan, k: nat)
    requires c.mode == Unquoted && c.depth == 1 && c.idx == num && c.p <= k < |s|
    requires forall j :: c.p <= j < k ==> s[j] != ',' && s[j] != ']'
    requires s[k] == ',' || s[k] == ']'
    ensures GetParamRun(s, num, c) == GetParamRun(s, num, c.(p := k, mode := Init, out := c.out + s[c.p..k]))
    decreases k - c.p
  {
    var f := c.(p := k, mode := Init, out := c.out + s[c.p..k]);
    if c.p == k {
      assert f == c.(mode := Init) by {
        assert c.out + s[c.p..k] == c.out;
      }
      UnquotedStop(s, num, c);
    } else {
      var d := c.(p := c.p + 1, out := c.out + [s[c.p]]);
      assert GetParamRun(s, num, c) == GetParamRun(s, num, d) by {
        UnquotedChar(s, num, c, d);
      }
      assert GetParamRun(s, num, d) == GetParamRun(s, num, d.(p := k, mode := Init, out := d.out + s[d.p..k])) by {
        BareRun(s, num, d, k);
      }
      assert d.(p := k, mode := Init, out := d.out + s[d.p..k]) == f by {
        assert s[c.p..k] == [s[c.p]] + s[c.p + 1..k];
        assert c.out + [s[c.p]] + s[c.p + 1..k] == c.out + s[c.p..k];
      }
    }
  }

  /** In state unquoted inside an array, a ',' or ']' ends the element, to be read again in state init. */
  lemma UnquotedStop(s: string, num: int, c: Scan)
    requires c.mode == Unquoted && c.depth == 1 && c.idx == num && c.p < |s| && (s[c.p] == ',' || s[c.p] == ']')
    ensures GetParamRun(s, num, c) == GetParamRun(s, num, c.(mode := Init))
  {
    assert GetParamStep(s, num, c) == Next(c.(mode := Init));
  }

  /** In state unquoted, any other character of parameter `num` is copied. */
  lemma UnquotedChar(s: string, num: int, c: Scan, d: Scan)
    requires c.mode == Unquoted && c.depth == 1 && c.idx == num && c.p < |s| && s[c.p] != ',' && s[c.p] != ']'
    requires d == c.(p := c.p + 1, out := c.out + [s[c.p]])
    ensures GetParamRun(s, num, c) == GetParamRun(s, num, d)
  {
    assert GetParamStep(s, num, c) == Next(d);
  }

  /** A bare element of the array of parameter `num` is copied as written, up to the ',' or ']' after it. */
  lemma BareElementRun(s: string, num: int, c: Scan, t: string, f: Scan)
    requires c.mode == Init && c.depth == 1 && c.idx == num && c.ty != Undefined && WellFormed(Bare(t))
    requires c.p + |t| < |s| && s[c.p..c.p + |t|] == t && (s[c.p + |t|] == ',' || s[c.p + |t|] == ']')
    requires f == c.(p := c.p + |t|, out := c.out + t)
    ensures GetParamRun(s, num, c) == GetParamRun(s, num, f)
  {
    var k := c.p + |t|;
    if t == [] {
      assert c.(p := k, out := c.out + t) == c;
    } else {
      assert s[c.p] == t[0];
      InitBare(s, num, c);
      var d := c.(p := c.p + 1, mode := Unquoted, out := c.out + [t[0]]);
      assert forall j :: c.p + 1 <= j < k ==> s[j] == t[j - c.p];
      BareRun(s, num, d, k);
      assert s[c.p + 1..k] == t[1..];
      AppendHead(c.out, t);
    }
  }

  lemma Concat4(a: string, b: string, c: string, d: string)
    ensures a + b + c + d == a + (b + c + d)
  {
  }

  /** Where the quoted form of `x` starts at `p`: its opening quote, its text and its closing quote. */
  lemma QuotedTextAt(s: string, p: nat, e: string)
    requires p + |e| + 2 <= |s| && s[p..p + |e| + 2] == "\"" + e + "\""
    ensures s[p] == '"' && s[p + 1..p + 1 + |e|] == e && s[p + 1 + |e|] == '"'
  {
    var q := s[p..p + |e| + 2];
    assert s[p] == q[0] == '"';
    assert q[|e| + 1] == '"' by {
      var h := "\"" + e;
      assert q == h + "\"" && |h| == |e| + 1;
    }
    assert s[p + 1 + |e|] == q[|e| + 1];
    assert forall i :: 0 <= i < |e| ==> s[p + 1 + i] == q[1 + i] == e[i];
    assert s[p + 1..p + 1 + |e|] == e;
  }

  /** A quoted element of the array of parameter `num` is copied as written, quotes and escapes included. */
  lemma QuotedElementRun(s: string, num: int, c: Scan, x: string, f: Scan)
    requires c.mode == Init && c.depth == 1 && c.idx == num && c.ty != Undefined && NoTrailingBackslash(x)
    requires var k := c.p + |Escape(x)| + 2; k < |s| && s[c.p..k] == "\"" + Escape(x) + "\"" && (s[k] == ',' || s[k] == ']')
    requires f == c.(p := c.p + |Escape(x)| + 2, out := c.out + ("\"" + Escape(x) + "\""))
    ensures GetParamRun(s, num, c) == GetParamRun(s, num, f)
  {
    var ex := Escape(x);
    var k := c.p + |ex| + 1;
    var d1 := c.(p := k, mode := Quoted, out := c.out + "\"" + ex);
    var k1 := k + 1;
    assert k1 < |s| && (s[k1] == ',' || s[k1] == ']');
    assert s[k] == '"' && GetParamRun(s, num, c) == GetParamRun(s, num, d1) by {
      QuotedElementOpen(s, num, c, x, k, d1);
    }
    QuotedElementClose(s, num, c, ex, k, d1, f);
  }

  /** The closing quote of an array element, followed by `,` or `]`, is copied and the scan returns to its initial mode. */
  lemma QuotedElementClose(s: string, num: int, c: Scan, ex: string, k: nat, d1: Scan, f: Scan)
    requires k == c.p + |ex| + 1 && k + 1 < |s| && s[k] == '"' && (s[k + 1] == ',' || s[k + 1] == ']')
    requires c.mode == Init && c.idx == num && c.depth == 1
    requires d1 == c.(p := k, mode := Quoted, out := c.out + "\"" + ex)
    requires f == c.(p := c.p + |ex| + 2, out := c.out + ("\"" + ex + "\""))
    ensures GetParamRun(s, num, d1) == GetParamRun(s, num, f)
  {
    var d2 := d1.(p := k + 1, mode := Init, out := d1.out + "\"");
    assert d1.mode == Quoted && d1.idx == num && d1.depth != 0 && d1.p == k;
    assert GetParamRun(s, num, d1) == GetParamRun(s, num, d2) by {
      QuotedCloseInArray(s, num, d1, d2);
    }
    assert d2 == f by {
      Concat4(c.out, "\"", ex, "\"");
    }
  }

  /** The opening quote and the text of a quoted element are copied as written, up to its closing quote. */
  lemma QuotedElementOpen(s: string, num: int, c: Scan, x: string, k: nat, d1: Scan)
    requires c.mode == Init && c.depth == 1 && c.idx == num && c.ty != Undefined && NoTrailingBackslash(x)
    requires k == c.p + |Escape(x)| + 1 && k < |s| && s[c.p..k + 1] == "\"" + Escape(x) + "\""
    requires d1 == c.(p := k, mode := Quoted, out := c.out + "\"" + Escape(x))
    ensures s[k] == '"' && GetParamRun(s, num, c) == GetParamRun(s, num, d1)
  {
    var ex := Escape(x);
    assert s[c.p] == '"' && s[c.p + 1..k] == ex && s[k] == '"' by {
      QuotedTextAt(s, c.p, ex);
    }
    var d := c.(p := c.p + 1, mode := Quoted, out := c.out + "\"");
    assert GetParamStep(s, num, c) == Next(d) by {
      InitOpen(s, num, c);
    }
    assert GetParamRun(s, num, d) == GetParamRun(s, num, d1) by {
      assert d1 == d.(p := k, out := d.out + QuotedOut(d.depth, x));
      QuotedBody(s, num, d, x, k);
    }
    RunVia(s, num, c, d, d1);
  }

  /** get_param copies one well-formed element of the array of parameter `num`, up to the ',' or ']' after it. */
  lemma ElementRun(s: string, num: int, c: Scan, e: Element, f: Scan)
    requires c.mode == Init && c.depth == 1 && c.idx == num && c.ty != Undefined && WellFormed(e)
    requires c.p + |ElementText(e)| < |s| && s[c.p..c.p + |ElementText(e)|] == ElementText(e)
    requires s[c.p + |ElementText(e)|] == ',' || s[c.p + |ElementText(e)|] == ']'
    requires f == c.(p := c.p + |ElementText(e)|, out := c.out + ElementText(e))
    ensures GetParamRun(s, num, c) == GetParamRun(s, num, f)
  {
    match e
    case Bare(t) => BareElementRun(s, num, c, t, f);
    case QuotedElem(x) => QuotedElementRun(s, num, c, x, f);
  }

  /** Where the elements `es` of an array start at `p`: the first element, then ']' and `t` or ',' and the others. */
  lemma ArraySplit(s: string, p: nat, es: seq<Element>, t: string)
    requires p <= |s| && es != [] && s[p..] == ArrayBody(es) + "]" + t
    ensures var k := p + |ElementText(es[0])|;
      && k < |s| && s[p..k] == ElementText(es[0])
      && (|es| == 1 ==> s[k] == ']' && s[k + 1..] == t)
      && (|es| > 1 ==> s[k] == ',' && s[k + 1..] == ArrayBody(es[1..]) + "]" + t)
  {
    var e := ElementText(es[0]);
    if |es| == 1 {
      assert ArrayBody(es) == e;
      ReadsThen(s, p, e, ']', t);
    } else {
      var b := ArrayBody(es[1..]);
      assert ArrayBody(es) == e + "," + b;
      ArraySplitMore(s, p, e, b, t);
    }
  }

  /** Where `s` reads an element `e`, ',' and the rest `b` of an array body from `p` on. */
  lemma ArraySplitMore(s: string, p: nat, e: string, b: string, t: string)
    requires p <= |s| && s[p..] == e + "," + b + "]" + t
    ensures p + |e| < |s| && s[p..p + |e|] == e && s[p + |e|] == ',' && s[p + |e| + 1..] == b + "]" + t
  {
    assert s[p..] == e + [','] + (b + "]" + t) by {
      Concat4(e, ",", b, "]" + t);
    }
    ReadsThen(s, p, e, ',', b + "]" + t);
  }

  /** `s` from `p` on reads `a`, `ch` and `b` in turn. */
  lemma ReadsThen(s: string, p: nat, a: string, ch: char, b: string)
    ensures p <= |s| && s[p..] == a + [ch] + b ==>
      p + |a| < |s| && s[p..p + |a|] == a && s[p + |a|] == ch && s[p + |a| + 1..] == b
  {
    if p <= |s| && s[p..] == a + [ch] + b {
      assert a + [ch] + b == a + ([ch] + b);
      PrefixAt(s, p, a, ch, b);
    }
  }

  /** Where `s` reads `a`, a character `ch`, then `b` from `p` on. */
  lemma PrefixAt(s: string, p: nat, a: string, ch: char, b: string)
    requires p <= |s| && s[p..] == a + ([ch] + b)
    ensures p + |a| < |s| && s[p..p + |a|] == a && s[p + |a|] == ch && s[p + |a| + 1..] == b
  {
    var k := p + |a|;
    assert s[p..k] == s[p..][..|a|];
    assert s[k] == s[p..][|a|];
    assert s[k + 1..] == s[p..][|a| + 1..];
  }

  /** The ']' closing the array of parameter `num`, followed by spaces and the end or a ',', completes it. */
  lemma ArrayClose(s: string, num: int, d: Scan, t: string)
    requires d.mode == Init && d.depth == 1 && d.idx == num && d.p < |s| && s[d.p] == ']'
    requires s[d.p + 1..] == t && EndsParam(t)
    ensures GetParamRun(s, num, d) == Parsed(0, d.out, d.ty)
  {
    CloseAt(s, d.p, t);
    InitClose(s, num, d);
    var d' := d.(p := SkipSpaces(s, d.p) + 1, depth := 0);
    ClosedParam(s, num, d');
    RunVia(s, num, d, d', d');
  }

  /** A ',' inside the array of parameter `num` is copied. */
  lemma ArrayComma(s: string, num: int, d: Scan)
    requires d.mode == Init && d.depth == 1 && d.idx == num && d.p < |s| && s[d.p] == ','
    ensures GetParamRun(s, num, d) == GetParamRun(s, num, d.(p := d.p + 1, out := d.out + ","))
  {
    InitComma(s, num, d);
  }

  /** The first element of the array of parameter `num` is copied, up to the ']' or ',' after it. */
  lemma ArrayFirst(s: string, num: int, c: Scan, es: seq<Element>, t: string, e: string, k: nat, d: Scan)
    requires c.mode == Init && c.depth == 1 && c.idx == num && c.ty != Undefined && c.p <= |s|
    requires es != [] && forall i :: 0 <= i < |es| ==> WellFormed(es[i])
    requires s[c.p..] == ArrayBody(es) + "]" + t && e == ElementText(es[0]) && k == c.p + |e|
    requires d == c.(p := k, out := c.out + e)
    ensures k < |s| && GetParamRun(s, num, c) == GetParamRun(s, num, d)
    ensures |es| == 1 ==> s[k] == ']' && s[k + 1..] == t
    ensures |es| > 1 ==> s[k] == ',' && s[k + 1..] == ArrayBody(es[1..]) + "]" + t
  {
    var hd := es[0];
    assert k < |s| && s[c.p..k] == e
      && (|es| == 1 ==> s[k] == ']' && s[k + 1..] == t)
      && (|es| > 1 ==> s[k] == ',' && s[k + 1..] == ArrayBody(es[1..]) + "]" + t) by {
      ArraySplit(s, c.p, es, t);
    }
    assert WellFormed(hd) && (s[k] == ',' || s[k] == ']');
    assert GetParamRun(s, num, c) == GetParamRun(s, num, d) by {
      ElementRun(s, num, c, hd, d);
    }
  }

  /** Inside the array of parameter `num`, get_param copies its elements and their commas as written. */
  lemma {:induction false} ArrayRun(s: string, num: int, c: Scan, es: seq<Element>, t: string)
    requires c.mode == Init && c.depth == 1 && c.idx == num && c.ty != Undefined && c.p <= |s|
    requires es != [] && forall i :: 0 <= i < |es| ==> WellFormed(es[i])
    requires s[c.p..] == ArrayBody(es) + "]" + t && EndsParam(t)
    ensures GetParamRun(s, num, c) == Parsed(0, c.out + ArrayBody(es), c.ty)
    decreases |es|
  {
    if |es| == 1 {
      ArrayLast(s, num, c, es, t);
    } else {
      var e := ElementText(es[0]);
      var tl := es[1..];
      var b := ArrayBody(tl);
      var d' := c.(p := c.p + |e| + 1, out := c.out + e + ",");
      ArrayHead(s, num, c, es, t, e, d');
      assert GetParamRun(s, num, d') == Parsed(0, d'.out + b, c.ty) by {
        assert forall i :: 0 <= i < |tl| ==> WellFormed(tl[i]);
        ArrayRun(s, num, d', tl, t);
      }
      assert c.out + ArrayBody(es) == d'.out + b by {
        assert ArrayBody(es) == e + "," + b;
        Concat4(c.out, e, ",", b);
      }
    }
  }

  /** The last element of the array of parameter `num` and its ']' complete the parameter. */
  lemma ArrayLast(s: string, num: int, c: Scan, es: seq<Element>, t: string)
    requires c.mode == Init && c.depth == 1 && c.idx == num && c.ty != Undefined && c.p <= |s|
    requires |es| == 1 && WellFormed(es[0])
    requires s[c.p..] == ArrayBody(es) + "]" + t && EndsParam(t)
    ensures GetParamRun(s, num, c) == Parsed(0, c.out + ArrayBody(es), c.ty)
  {
    var e := ElementText(es[0]);
    var k := c.p + |e|;
    var d := c.(p := k, out := c.out + e);
    assert k < |s| && s[k] == ']' && s[k + 1..] == t && GetParamRun(s, num, c) == GetParamRun(s, num, d) by {
      ArrayFirst(s, num, c, es, t, e, k, d);
    }
    assert GetParamRun(s, num, d) == Parsed(0, d.out, d.ty) by {
      ArrayClose(s, num, d, t);
    }
    assert ArrayBody(es) == e;
  }

  /** An element of the array of parameter `num` that is not the last, and its ',', are copied. */
  lemma ArrayHead(s: string, num: int, c: Scan, es: seq<Element>, t: string, e: string, d': Scan)
    requires c.mode == Init && c.depth == 1 && c.idx == num && c.ty != Undefined && c.p <= |s|
    requires |es| > 1 && forall i :: 0 <= i < |es| ==> WellFormed(es[i])
    requires s[c.p..] == ArrayBody(es) + "]" + t && e == ElementText(es[0])
    requires d' == c.(p := c.p + |e| + 1, out := c.out + e + ",")
    ensures d'.p <= |s| && s[d'.p..] == ArrayBody(es[1..]) + "]" + t
    ensures GetParamRun(s, num, c) == GetParamRun(s, num, d')
  {
    var k := c.p + |e|;
    var d := c.(p := k, out := c.out + e);
    assert k < |s| && s[k] == ',' && s[k + 1..] == ArrayBody(es[1..]) + "]" + t by {
      ArrayFirst(s, num, c, es, t, e, k, d);
    }
    assert GetParamRun(s, num, c) == GetParamRun(s, num, d) by {
      ArrayFirst(s, num, c, es, t, e, k, d);
    }
    assert GetParamRun(s, num, d) == GetParamRun(s, num, d') by {
      assert d' == d.(p := d.p + 1, out := d.out + ",");
      ArrayComma(s, num, d);
    }
  }

  /**
   * An array first parameter, after any spaces and before spaces and a ',' or
   * the end, comes out as written between its brackets (quotes, escapes and
   * commas of its elements included), typed ARRAY.
   */
  lemma GetParamArray(w: string, es: seq<Element>, t: string)
    requires Spaces(w) && es != [] && (forall i :: 0 <= i < |es| ==> WellFormed(es[i])) && EndsParam(t)
    ensures GetParamSpec(w + "[" + ArrayBody(es) + "]" + t, 1) == Parsed(0, ArrayBody(es), ArrayParam)
  {
    var rest := ArrayBody(es) + "]" + t;
    var s := w + "[" + rest;
    assert s == w + "[" + ArrayBody(es) + "]" + t;
    var c := Scan(|w| + 1, Init, 1, 1, [], ArrayParam);
    assert GetParamSpec(s, 1) == GetParamRun(s, 1, c) && s[c.p..] == rest by {
      Opening(s, w, '[', rest);
    }
    ArrayRun(s, 1, c, es, t);
  }

  /** The same array as parameter count-plus-one after a valid list and ','. */
  lemma GetParamArrayAfter(pre: string, w: string, es: seq<Element>, t: string)
    requires NumParamSpec(pre) != 0 && Spaces(w) && es != [] && (forall i :: 0 <= i < |es| ==> WellFormed(es[i])) && EndsParam(t)
    ensures GetParamSpec(pre + "," + w + "[" + ArrayBody(es) + "]" + t, NumParamSpec(pre) + 1) == Parsed(0, ArrayBody(es), ArrayParam)
  {
    var y := w + "[" + ArrayBody(es) + "]" + t;
    assert pre + "," + w + "[" + ArrayBody(es) + "]" + t == pre + "," + y;
    GetParamJoin(pre, y, 1);
    GetParamArray(w, es, t);
  }

  // ------------------------------------------------------------ remove_param

  /**
   * A stretch of a parameter as remove_param sees it: text without ',' or
   * '"', or a quoted string whose body is written as it appears between the
   * quotes.
   */
  datatype Seg = Text(t: string) | Quote(body: string)

  /**
   * A stretch remove_param reads as intended: in a quoted body every '"' is
   * preceded by a backslash, and the body does not end with one, so only the
   * closing quote ends it.
   */
  predicate SegOk(g: Seg)
  {
    match g
    case Text(t) => ',' !in t && '"' !in t
    case Quote(b) =>
      && (forall j :: 0 <= j < |b| && b[j] == '"' ==> j > 0 && b[j - 1] == '\\')
      && (b == [] || b[|b| - 1] != '\\')
  }

  function SegText(g: Seg): string
  {
    match g
    case Text(t) => t
    case Quote(b) => "\"" + b + "\""
  }

  /** The text of a parameter made of stretches. */
  function PieceText(gs: seq<Seg>): string
  {
    if gs == [] then [] else SegText(gs[0]) + PieceText(gs[1..])
  }

  /** Every stretch of the parameter reads as intended. */
  predicate PieceOk(gs: seq<Seg>)
  {
    gs == [] || (SegOk(gs[0]) && PieceOk(gs[1..]))
  }

  /** `ts` are the texts of the well-read parameters `ps`. */
  predicate TextsOf(ps: seq<seq<Seg>>, ts: seq<string>)
  {
    |ps| == |ts| && (ps == [] || (PieceOk(ps[0]) && ts[0] == PieceText(ps[0]) && TextsOf(ps[1..], ts[1..])))
  }

  /** The texts of the parameters `ps`. */
  function Texts(ps: seq<seq<Seg>>): (r: seq<string>)
    ensures |r| == |ps| && forall i :: 0 <= i < |ps| ==> r[i] == PieceText(ps[i])
  {
    seq(|ps|, i requires 0 <= i < |ps| => PieceText(ps[i]))
  }

  /** Inside quotes, remove_param runs to the first '"' not preceded by a backslash, keeping it all or nothing. */
  lemma {:induction false} RemoveQuotedRun(s: string, num: int, j: nat, e: nat, idx: int)
    requires 0 < j <= e < |s| && s[e] == '"' && s[e - 1] != '\\'
    requires forall k :: j <= k < e && s[k] == '"' ==> s[k - 1] == '\\'
    ensures RemoveParamFrom(s, num, j, true, idx) ==
      (if idx != num then s[j..e + 1] else []) + RemoveParamFrom(s, num, e + 1, false, idx)
    decreases e - j
  {
    if j < e {
      var j1 := j + 1;
      var e1 := e + 1;
      var keep := idx != num;
      var r0 := RemoveParamFrom(s, num, j, true, idx);
      var r1 := RemoveParamFrom(s, num, j1, true, idx);
      var r2 := RemoveParamFrom(s, num, e1, false, idx);
      assert r0 == (if keep then [s[j]] else []) + r1 by {
        assert RemoveSwitch(s, num, j, true, idx) == (true, idx, false);
      }
      assert r1 == (if keep then s[j1..e1] else []) + r2 by {
        RemoveQuotedRun(s, num, j1, e, idx);
      }
      KeepBoth(keep, [s[j]], s[j1..e1], r0, r1, r2);
      SliceJoin(s, j, j1, e1);
      assert s[j..j1] == [s[j]];
    } else {
      assert RemoveSwitch(s, num, j, true, idx) == (false, idx, false);
      assert s[j..e + 1] == [s[j]];
    }
  }

  /** Outside quotes, text without ',' or '"' is kept exactly when its parameter is. */
  lemma {:induction false} RemoveTextRun(s: string, num: int, i: nat, k: nat, idx: int)
    requires i <= k <= |s| && forall j :: i <= j < k ==> s[j] != ',' && s[j] != '"'
    ensures RemoveParamFrom(s, num, i, false, idx) ==
      (if idx != num then s[i..k] else []) + RemoveParamFrom(s, num, k, false, idx)
    decreases k - i
  {
    if i < k {
      var i1 := i + 1;
      var keep := idx != num;
      var r0 := RemoveParamFrom(s, num, i, false, idx);
      var r1 := RemoveParamFrom(s, num, i1, false, idx);
      var r2 := RemoveParamFrom(s, num, k, false, idx);
      assert r0 == (if keep then [s[i]] else []) + r1 by {
        RemoveCharStep(s, num, i, idx);
      }
      assert r1 == (if keep then s[i1..k] else []) + r2 by {
        RemoveTextRun(s, num, i1, k, idx);
      }
      KeepBoth(keep, [s[i]], s[i1..k], r0, r1, r2);
      SliceJoin(s, i, i1, k);
      assert s[i..i1] == [s[i]];
    } else {
      assert s[i..k] == [];
    }
  }

  /** A quoted stretch of parameter `idx` is kept exactly when that parameter is. */
  lemma RemoveQuoteSeg(s: string, num: int, i: nat, e: nat, idx: int, b: string)
    requires SegOk(Quote(b)) && i <= e <= |s| && s[i..e] == "\"" + b + "\""
    ensures RemoveParamFrom(s, num, i, false, idx) ==
      (if idx != num then s[i..e] else []) + RemoveParamFrom(s, num, e, false, idx)
  {
    QuoteSegChars(s, i, e, b);
    var keep := idx != num;
    var r0 := RemoveParamFrom(s, num, i, false, idx);
    var r1 := RemoveParamFrom(s, num, i + 1, true, idx);
    var r2 := RemoveParamFrom(s, num, e, false, idx);
    assert r0 == (if keep then [s[i]] else []) + r1 by {
      assert RemoveSwitch(s, num, i, false, idx) == (true, idx, false);
    }
    assert r1 == (if keep then s[i + 1..e] else []) + r2 by {
      RemoveQuotedRun(s, num, i + 1, e - 1, idx);
    }
    var a, w := [s[i]], s[i + 1..e];
    assert a + w == s[i..e];
    assert r0 == (if keep then s[i..e] else []) + r2 by {
      KeepBoth(keep, a, w, r0, r1, r2);
    }
  }

  /** What a quoted stretch tells about its characters: its quotes, and a backslash before each quote inside. */
  lemma QuoteSegChars(s: string, i: nat, e: nat, b: string)
    requires SegOk(Quote(b)) && i <= e <= |s| && s[i..e] == "\"" + b + "\""
    ensures i + 2 <= e && s[i] == '"' && s[e - 1] == '"' && s[e - 2] != '\\'
    ensures forall j :: i + 1 <= j < e - 1 && s[j] == '"' ==> s[j - 1] == '\\'
  {
    assert i + 2 <= e && s[i] == '"' && s[e - 1] == '"' && s[e - 2] != '\\' by {
      assert s[i..e][0] == '"' && s[i..e][e - i - 1] == '"';
      if b != [] {
        assert s[i..e][e - i - 2] == b[|b| - 1];
      }
    }
    forall j | i + 1 <= j < e - 1 && s[j] == '"'
      ensures s[j - 1] == '\\'
    {
      assert s[i..e][j - i] == b[j - i - 1];
      assert s[i..e][j - i - 1] == s[j - 1];
      if j - i - 1 > 0 {
        assert b[j - i - 2] == s[j - 1];
      }
    }
  }

  /** One stretch of parameter `idx` is kept exactly when that parameter is. */
  lemma RemoveSegRun(s: string, num: int, i: nat, e: nat, idx: int, g: Seg)
    requires SegOk(g) && i <= e <= |s| && s[i..e] == SegText(g)
    ensures RemoveParamFrom(s, num, i, false, idx) ==
      (if idx != num then s[i..e] else []) + RemoveParamFrom(s, num, e, false, idx)
  {
    match g
    case Text(x) =>
      assert forall j :: i <= j < e ==> s[j] != ',' && s[j] != '"' by {
        forall j | i <= j < e
          ensures s[j] != ',' && s[j] != '"'
        {
          assert s[j] == s[i..e][j - i] == x[j - i];
        }
      }
      RemoveTextRun(s, num, i, e, idx);
    case Quote(b) =>
      RemoveQuoteSeg(s, num, i, e, idx, b);
  }

  /** A whole parameter is kept exactly when it is not parameter `num`. */
  lemma {:induction false} RemovePieceRun(s: string, num: int, i: nat, e: nat, idx: int, gs: seq<Seg>)
    requires PieceOk(gs) && i <= e <= |s| && s[i..e] == PieceText(gs)
    ensures RemoveParamFrom(s, num, i, false, idx) ==
      (if idx != num then s[i..e] else []) + RemoveParamFrom(s, num, e, false, idx)
    decreases |gs|
  {
    if gs == [] {
      assert i == e && s[i..e] == [];
    } else {
      var hd := gs[0];
      var tl := gs[1..];
      var k := i + |SegText(hd)|;
      PieceSplit(s, i, e, gs, hd, tl, k);
      assert RemoveParamFrom(s, num, i, false, idx) ==
        (if idx != num then s[i..k] else []) + RemoveParamFrom(s, num, k, false, idx) by {
        RemoveSegRun(s, num, i, k, idx, hd);
      }
      assert RemoveParamFrom(s, num, k, false, idx) ==
        (if idx != num then s[k..e] else []) + RemoveParamFrom(s, num, e, false, idx) by {
        RemovePieceRun(s, num, k, e, idx, tl);
      }
      RemoveCompose(s, num, i, k, e, idx);
    }
  }

  /** Where the first stretch of a parameter ends, and what it and the rest read. */
  lemma PieceSplit(s: string, i: nat, e: nat, gs: seq<Seg>, hd: Seg, tl: seq<Seg>, k: nat)
    requires PieceOk(gs) && i <= e <= |s| && s[i..e] == PieceText(gs)
    requires gs != [] && hd == gs[0] && tl == gs[1..] && k == i + |SegText(hd)|
    ensures SegOk(hd) && PieceOk(tl) && i <= k <= e
    ensures s[i..k] == SegText(hd) && s[k..e] == PieceText(tl)
  {
    var g := SegText(hd);
    var rest := PieceText(tl);
    assert PieceText(gs) == g + rest;
    SliceSplit(s, i, g, rest);
  }

  /** Two adjacent stretches of parameter `idx`, each kept exactly when it is kept, are kept together. */
  lemma RemoveCompose(s: string, num: int, i: nat, k: nat, e: nat, idx: int)
    requires i <= k <= e <= |s|
    requires RemoveParamFrom(s, num, i, false, idx) ==
      (if idx != num then s[i..k] else []) + RemoveParamFrom(s, num, k, false, idx)
    requires RemoveParamFrom(s, num, k, false, idx) ==
      (if idx != num then s[k..e] else []) + RemoveParamFrom(s, num, e, false, idx)
    ensures RemoveParamFrom(s, num, i, false, idx) ==
      (if idx != num then s[i..e] else []) + RemoveParamFrom(s, num, e, false, idx)
  {
    var keep := idx != num;
    var r0 := RemoveParamFrom(s, num, i, false, idx);
    var r1 := RemoveParamFrom(s, num, k, false, idx);
    var r2 := RemoveParamFrom(s, num, e, false, idx);
    var a, b, w := s[i..k], s[k..e], s[i..e];
    assert a + b == w by {
      SliceJoin(s, i, k, e);
    }
    assert r0 == (if keep then w else []) + r2 by {
      KeepBoth(keep, a, b, r0, r1, r2);
    }
  }

  /** A slice that reads `a + b` reads `a`, then `b`. */
  lemma SliceSplit(s: string, i: nat, a: string, b: string)
    requires i + |a| + |b| <= |s| && s[i..i + |a| + |b|] == a + b
    ensures s[i..i + |a|] == a && s[i + |a|..i + |a| + |b|] == b
  {
    assert s[i..i + |a|] == s[i..i + |a| + |b|][..|a|];
    assert s[i + |a|..i + |a| + |b|] == s[i..i + |a| + |b|][|a|..];
  }

  /** Text built in three steps is their concatenation. */
  lemma Chain(r0: string, r1: string, r2: string, a: string, b: string, c: string, w: string)
    requires r0 == a + r1 && r1 == b + r2 && r2 == c && w == a + (b + c)
    ensures r0 == w
  {
  }

  /** Two adjacent slices make one. */
  lemma SliceJoin(s: string, i: nat, k: nat, e: nat)
    requires i <= k <= e <= |s|
    ensures s[i..k] + s[k..e] == s[i..e]
  {
  }

  /** Keeping two adjacent texts alike is keeping them together. */
  lemma KeepBoth(keep: bool, a: string, b: string, r0: string, r1: string, r2: string)
    requires r0 == (if keep then a else []) + r1 && r1 == (if keep then b else []) + r2
    ensures r0 == (if keep then a + b else []) + r2
  {
  }

  /** remove_param from the start of parameter `idx` over the parameters `ps` keeps exactly `KeptPieces` of their texts. */
  lemma {:induction false} RemoveFromPieces(s: string, num: int, i: nat, idx: int, ps: seq<seq<Seg>>, ts: seq<string>)
    requires i <= |s| && |ps| >= 1 && |ts| == |ps|
    requires TextsOf(ps, ts)
    requires s[i..] == Join(ts, [','])
    ensures RemoveParamFrom(s, num, i, false, idx) == KeptPieces(ts, idx, num)
    decreases |ps|
  {
    var hd := ps[0];
    var t := ts[0];
    var k := i + |t|;
    var r0 := RemoveParamFrom(s, num, i, false, idx);
    if |ps| == 1 {
      assert s[i..] == t && k == |s|;
      assert r0 == (if idx != num then t else []) + [] by {
        assert s[i..k] == t;
        RemovePieceRun(s, num, i, k, idx, hd);
      }
      assert KeptPieces(ts, idx, num) == (if idx != num then t else []) + [];
    } else {
      var tl := ps[1..];
      var tt := ts[1..];
      var rest := Join(tt, [',']);
      assert s[i..k] == t && s[k] == ',' && s[k + 1..] == rest by {
        JoinUnfold(ts, tt);
        CommaSplit(s, i, k, t, rest);
      }
      var kt := if idx != num then t else [];
      var sep := if idx + 1 != num && !(idx == 1 && num == 1) then [','] else [];
      var r1 := RemoveParamFrom(s, num, k, false, idx);
      var k1 := k + 1;
      var idx1 := idx + 1;
      var r2 := RemoveParamFrom(s, num, k1, false, idx1);
      assert r0 == kt + r1 by {
        RemovePieceRun(s, num, i, k, idx, hd);
      }
      assert r1 == sep + r2 by {
        RemoveCommaStep(s, num, k, idx);
      }
      assert r2 == KeptPieces(tt, idx1, num) by {
        assert s[k1..] == rest;
        RemoveFromPieces(s, num, k1, idx1, tl, tt);
      }
      var whole := KeptPieces(ts, idx, num);
      assert whole == kt + (sep + KeptPieces(tt, idx1, num)) by {
        KeptUnfold(ts, tt, idx, num);
      }
      Chain(r0, r1, r2, kt, sep, KeptPieces(tt, idx1, num), whole);
    }
  }

  /** `Join` over two or more texts. */
  lemma JoinUnfold(ts: seq<string>, tt: seq<string>)
    requires |ts| >= 2 && tt == ts[1..]
    ensures Join(ts, [',']) == ts[0] + [','] + Join(tt, [','])
  {
  }

  /** A suffix reading `t`, a comma and `rest` splits at the comma. */
  lemma CommaSplit(s: string, i: nat, k: nat, t: string, rest: string)
    requires i <= |s| && k == i + |t| && s[i..] == t + [','] + rest
    ensures k < |s| && s[i..k] == t && s[k] == ',' && s[k + 1..] == rest
  {
    assert s[i..][..|t|] == t && s[i..][|t|] == ',' && s[i..][|t| + 1..] == rest;
  }

  /** One step of `KeptPieces` over a list of two or more pieces. */
  lemma KeptUnfold(ts: seq<string>, tt: seq<string>, idx: int, num: int)
    requires |ts| >= 2 && tt == ts[1..]
    ensures KeptPieces(ts, idx, num) ==
      (if idx != num then ts[0] else []) +
      ((if idx + 1 != num && !(idx == 1 && num == 1) then [','] else []) + KeptPieces(tt, idx + 1, num))
  {
  }

  lemma {:induction false} TextsOfTexts(ps: seq<seq<Seg>>)
    requires forall j :: 0 <= j < |ps| ==> PieceOk(ps[j])
    ensures TextsOf(ps, Texts(ps))
    decreases |ps|
  {
    if ps != [] {
      var tl := ps[1..];
      assert Texts(ps)[1..] == Texts(tl);
      assert forall j :: 0 <= j < |tl| ==> PieceOk(tl[j]) by {
        forall j | 0 <= j < |tl|
          ensures PieceOk(tl[j])
        {
          assert tl[j] == ps[j + 1];
        }
      }
      TextsOfTexts(tl);
    }
  }

  /**
   * remove_param on a list of parameters that may hold quoted strings, commas
   * inside quotes included: parameter `num` goes together with the comma after
   * it (first parameter) or before it (any other); a `num` outside
   * 1..|ps| leaves the text unchanged.
   */
  lemma RemoveParamQuoted(ps: seq<seq<Seg>>, num: int)
    requires |ps| >= 1 && forall j :: 0 <= j < |ps| ==> PieceOk(ps[j])
    ensures var s := Join(Texts(ps), [',']);
      && (1 <= num <= |ps| ==> RemoveParamSpec(s, num) == Join(RemoveAt(Texts(ps), num - 1), [',']))
      && (num < 1 || num > |ps| ==> RemoveParamSpec(s, num) == s)
  {
    var s := Join(Texts(ps), [',']);
    var ts := Texts(ps);
    assert RemoveParamSpec(s, num) == KeptPieces(ts, 1, num) by {
      TextsOfTexts(ps);
      RemoveFromPieces(s, num, 0, 1, ps, ts);
    }
    if num == 1 {
      KeptFirst(ts);
    } else if 1 < num <= |ps| {
      KeptBefore(ts, 1, num);
    } else {
      KeptAll(ts, 1, num);
    }
  }
}
