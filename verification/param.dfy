/**
 * The parameter-list functions of src/libs/zbxparam/param.c as methods that
 * keep the C loops, each proved to compute what its scanner function in
 * `ParamMachine` describes.
 */
module Param {
  import opened Wrappers
  import opened Strings
  import opened ParamMachine
  import ParamLemmas

  /**
   * A pass of the get_param loop that ends in `return 1`: a syntax error, or
   * a write past the `cap` characters the buffer holds.
   */
  predicate Stops(s: string, num: int, cap: nat, c: Scan)
    requires c.p < |s|
  {
    var st := GetParamStep(s, num, c);
    st.SyntaxError? || |st.c.out| > cap
  }

  /** The pass leaves `d`, whose `p` the loop's `p++` still has to advance. */
  predicate Passes(s: string, num: int, cap: nat, c: Scan, d: Scan)
    requires c.p < |s|
  {
    d.p < |s| && GetParamStep(s, num, c) == Next(d.(p := d.p + 1)) && |d.out| <= cap
  }

  /** get_param: copies parameter `num` (counted from 1) of `s` into a buffer of `maxLen` bytes. */
  method GetParam(s: string, num: int, maxLen: nat) returns (r: int, buf: string, ty: ParamType)
    ensures r == 0 || r == 1
    ensures maxLen == 0 ==> r == 1 && buf == [] && ty == Undefined
    ensures maxLen > 0 ==> |buf| < maxLen
    ensures maxLen > 0 ==>
      (r == 0 <==> GetParamSpec(s, num).code == 0 && |GetParamSpec(s, num).out| < maxLen)
    ensures r == 0 ==> buf == GetParamSpec(s, num).out
    ensures maxLen > 0 ==> ty == GetParamSpec(s, num).ty
  {
    if maxLen == 0 {
      return 1, [], Undefined;   // buffer overflow
    }
    var cap := maxLen - 1;   // room for the terminating '\0'
    var c := ScanStart;
    while c.p < |s| && c.idx <= num
      invariant c.p <= |s| && |c.out| <= cap
      invariant c.mode == Unquoted ==> c.p > 0
      invariant GetParamRun(s, num, c) == GetParamSpec(s, num)
      invariant ParamLemmas.Typed(num, c)
      decreases Rank(c.p, c.mode, |s|)
    {
      var stop, d;
      match c.mode {
        case Init => stop, d := GetParamInit(s, num, cap, c);
        case Quoted => stop, d := GetParamQuoted(s, num, cap, c);
        case Unquoted => stop, d := GetParamUnquoted(s, num, cap, c);
      }
      ParamLemmas.TypedStep(s, num, c);
      if stop {
        StopFails(s, num, cap, c);
        return 1, d.out, d.ty;   // the type is already recorded
      }
      PassRun(s, num, cap, c, d);
      c := d.(p := d.p + 1);
    }
    if c.mode == Quoted {
      return 1, c.out, c.ty;   // missing terminating '"'
    }
    if c.depth != 0 {
      return 1, c.out, c.ty;   // missing terminating ']'
    }
    if c.idx >= num {
      return 0, c.out, c.ty;
    }
    return 1, c.out, c.ty;
  }

  /** A pass that stops the loop leaves a run that failed or overflowed, with the type of the pass. */
  lemma StopFails(s: string, num: int, cap: nat, c: Scan)
    requires c.p < |s| && c.idx <= num && ParamLemmas.Typed(num, c) && |c.out| <= cap && Stops(s, num, cap, c)
    ensures GetParamRun(s, num, c).code != 0 || |GetParamRun(s, num, c).out| > cap
    ensures GetParamRun(s, num, c).ty == PassType(s, num, c)
  {
    ParamLemmas.StopType(s, num, c);
  }

  /** A pass that goes on leaves the run unchanged once `p` is advanced. */
  lemma PassRun(s: string, num: int, cap: nat, c: Scan, d: Scan)
    requires c.p < |s| && c.idx <= num && Passes(s, num, cap, c, d)
    ensures GetParamRun(s, num, d.(p := d.p + 1)) == GetParamRun(s, num, c)
  {
  }

  /** `case 0` of the get_param switch: between parameters. */
  method GetParamInit(s: string, num: int, cap: nat, c: Scan) returns (stop: bool, d: Scan)
    requires c.p < |s| && c.mode == Init && |c.out| <= cap
    ensures stop ==> Stops(s, num, cap, c) && d.ty == PassType(s, num, c)
    ensures !stop ==> Passes(s, num, cap, c, d)
    ensures |d.out| <= cap
  {
    var at := c.idx == num;
    d := c;
    stop := false;
    var ch := s[c.p];
    if ch == ',' {
      if d.depth == 0 {
        d := d.(idx := d.idx + 1);
      } else if at {
        if |d.out| == cap { return true, d; }
        d := d.(out := d.out + [ch]);
      }
    } else if ch == '"' {
      d := d.(mode := Quoted);
      if at {
        if d.ty == Undefined { d := d.(ty := StringParam); }
        if d.depth != 0 {
          if |d.out| == cap { return true, d; }
          d := d.(out := d.out + [ch]);
        }
      }
    } else if ch == '[' {
      if at {
        if d.ty == Undefined { d := d.(ty := ArrayParam); }
        if d.depth != 0 {
          if |d.out| == cap { return true, d; }
          d := d.(out := d.out + [ch]);
        }
      }
      d := d.(depth := d.depth + 1);
    } else if ch == ']' && d.depth != 0 {
      d := d.(depth := d.depth - 1);
      if d.depth != 0 && at {
        if |d.out| == cap { return true, d; }
        d := d.(out := d.out + [ch]);
      }
      var q := SkipSpacesLoop(s, d.p);
      d := d.(p := q);
      if Ch(s, q + 1) != ',' && Ch(s, q + 1) != '\0' && (d.depth == 0 || Ch(s, q + 1) != ']') {
        return true, d;   // incorrect syntax
      }
    } else if ch != ' ' {
      if at {
        if d.ty == Undefined { d := d.(ty := StringParam); }
        if |d.out| == cap { return true, d; }
        d := d.(out := d.out + [ch]);
      }
      d := d.(mode := Unquoted);
    }
  }

  /** `case 1` of the get_param switch: inside a quoted parameter. */
  method GetParamQuoted(s: string, num: int, cap: nat, c: Scan) returns (stop: bool, d: Scan)
    requires c.p < |s| && c.mode == Quoted && |c.out| <= cap
    ensures stop ==> Stops(s, num, cap, c) && d.ty == PassType(s, num, c)
    ensures !stop ==> Passes(s, num, cap, c, d)
    ensures |d.out| <= cap
  {
    var at := c.idx == num;
    d := c;
    stop := false;
    if s[d.p] == '"' {
      if d.depth != 0 && at {
        if |d.out| == cap { return true, d; }
        d := d.(out := d.out + [s[d.p]]);
      }
      var q := SkipSpacesLoop(s, d.p);
      d := d.(p := q);
      if Ch(s, q + 1) != ',' && Ch(s, q + 1) != '\0' && (d.depth == 0 || Ch(s, q + 1) != ']') {
        return true, d;   // incorrect syntax
      }
      d := d.(mode := Init);
    } else if s[d.p] == '\\' && Ch(s, d.p + 1) == '"' {
      if at && d.depth != 0 {
        if |d.out| == cap { return true, d; }
        d := d.(out := d.out + [s[d.p]]);
      }
      d := d.(p := d.p + 1);
      if at {
        if |d.out| == cap { return true, d; }
        d := d.(out := d.out + [s[d.p]]);
      }
    } else if at {
      if |d.out| == cap { return true, d; }
      d := d.(out := d.out + [s[d.p]]);
    }
  }

  /** `case 2` of the get_param switch: inside an unquoted parameter. */
  method GetParamUnquoted(s: string, num: int, cap: nat, c: Scan) returns (stop: bool, d: Scan)
    requires c.p < |s| && c.mode == Unquoted && |c.out| <= cap && c.p > 0
    ensures stop ==> Stops(s, num, cap, c) && d.ty == PassType(s, num, c)
    ensures !stop ==> Passes(s, num, cap, c, d)
    ensures |d.out| <= cap
  {
    d := c;
    stop := false;
    if s[d.p] == ',' || (s[d.p] == ']' && d.depth != 0) {
      d := d.(p := d.p - 1, mode := Init);   // the character is read again in state 0
    } else if c.idx == num {
      if |d.out| == cap { return true, d; }
      d := d.(out := d.out + [s[d.p]]);
    }
  }

  /** get_param_len: the length of parameter `num` of `s`, without copying it. */
  method GetParamLen(s: string, num: int) returns (r: int, sz: nat)
    ensures r == GetParamLenSpec(s, num).code
    ensures r == 0 ==> sz == GetParamLenSpec(s, num).sz
  {
    var c := LenScan(0, Init, 0, 1, 0);
    while c.p < |s| && c.idx <= num
      invariant c.p <= |s|
      invariant c.mode == Unquoted ==> c.p > 0
      invariant GetParamLenRun(s, num, c) == GetParamLenSpec(s, num)
      decreases Rank(c.p, c.mode, |s|)
    {
      var stop, d;
      match c.mode {
        case Init => stop, d := GetParamLenInit(s, num, c);
        case Quoted => stop, d := GetParamLenQuoted(s, num, c);
        case Unquoted => stop, d := GetParamLenUnquoted(s, num, c);
      }
      if stop {
        return 1, d.sz;   // incorrect syntax
      }
      c := d.(p := d.p + 1);
    }
    if c.mode == Quoted || c.depth != 0 {
      return 1, c.sz;   // missing terminating '"' or ']'
    }
    if c.idx >= num {
      return 0, c.sz;
    }
    return 1, c.sz;
  }

  /** The pass of the get_param_len loop leaves `d`, before the loop's `p++`. */
  predicate LenPasses(s: string, num: int, c: LenScan, d: LenScan)
    requires c.p < |s|
  {
    d.p < |s| && GetParamLenStep(s, num, c) == Next(d.(p := d.p + 1))
  }

  /** `case 0` of the get_param_len switch. */
  method GetParamLenInit(s: string, num: int, c: LenScan) returns (stop: bool, d: LenScan)
    requires c.p < |s| && c.mode == Init
    ensures stop ==> GetParamLenStep(s, num, c).SyntaxError?
    ensures !stop ==> LenPasses(s, num, c, d)
  {
    var at := c.idx == num;
    d, stop := c, false;
    var ch := s[c.p];
    if ch == ',' {
      if d.depth == 0 {
        d := d.(idx := d.idx + 1);
      } else if at {
        d := d.(sz := d.sz + 1);
      }
    } else if ch == '"' {
      d := d.(mode := Quoted);
      if d.depth != 0 && at { d := d.(sz := d.sz + 1); }
    } else if ch == '[' {
      if d.depth != 0 && at { d := d.(sz := d.sz + 1); }
      d := d.(depth := d.depth + 1);
    } else if ch == ']' && d.depth != 0 {
      d := d.(depth := d.depth - 1);
      if d.depth != 0 && at { d := d.(sz := d.sz + 1); }
      var q := SkipSpacesLoop(s, d.p);
      d := d.(p := q);
      if Ch(s, q + 1) != ',' && Ch(s, q + 1) != '\0' && (d.depth == 0 || Ch(s, q + 1) != ']') {
        return true, d;   // incorrect syntax
      }
    } else if ch != ' ' {
      if at { d := d.(sz := d.sz + 1); }
      d := d.(mode := Unquoted);
    }
  }

  /** `case 1` of the get_param_len switch. */
  method GetParamLenQuoted(s: string, num: int, c: LenScan) returns (stop: bool, d: LenScan)
    requires c.p < |s| && c.mode == Quoted
    ensures stop ==> GetParamLenStep(s, num, c).SyntaxError?
    ensures !stop ==> LenPasses(s, num, c, d)
  {
    var at := c.idx == num;
    d, stop := c, false;
    if s[d.p] == '"' {
      if d.depth != 0 && at { d := d.(sz := d.sz + 1); }
      var q := SkipSpacesLoop(s, d.p);
      d := d.(p := q);
      if Ch(s, q + 1) != ',' && Ch(s, q + 1) != '\0' && (d.depth == 0 || Ch(s, q + 1) != ']') {
        return true, d;   // incorrect syntax
      }
      d := d.(mode := Init);
    } else if s[d.p] == '\\' && Ch(s, d.p + 1) == '"' {
      if at && d.depth != 0 { d := d.(sz := d.sz + 1); }
      d := d.(p := d.p + 1);
      if at { d := d.(sz := d.sz + 1); }
    } else if at {
      d := d.(sz := d.sz + 1);
    }
  }

  /** `case 2` of the get_param_len switch. */
  method GetParamLenUnquoted(s: string, num: int, c: LenScan) returns (stop: bool, d: LenScan)
    requires c.p < |s| && c.mode == Unquoted && c.p > 0
    ensures stop ==> GetParamLenStep(s, num, c).SyntaxError?
    ensures !stop ==> LenPasses(s, num, c, d)
  {
    d, stop := c, false;
    if s[d.p] == ',' || (s[d.p] == ']' && d.depth != 0) {
      d := d.(p := d.p - 1, mode := Init);
    } else if c.idx == num {
      d := d.(sz := d.sz + 1);
    }
  }

  /**
   * get_param_dyn: parameter `num` of `s` in a buffer sized by get_param_len,
   * or None when it is missing. `ty` is the caller's type variable, which is
   * only written when get_param runs.
   */
  method GetParamDyn(s: string, num: int, tyIn: ParamType) returns (r: Option<string>, ty: ParamType)
    ensures r.Some? <==> GetParamSpec(s, num).code == 0
    ensures r.Some? ==> r.value == GetParamSpec(s, num).out && ty == GetParamSpec(s, num).ty
    ensures r.None? ==> ty == tyIn
  {
    var lr, sz := GetParamLen(s, num);
    ParamLemmas.LenAgrees(s, num);
    if lr != 0 {
      return None, tyIn;
    }
    var gr, buf;
    gr, buf, ty := GetParam(s, num, sz + 1);
    if gr != 0 {
      assert false;   // get_param_len promised room for the whole parameter
      return None, ty;
    }
    return Some(buf), ty;
  }

  /** num_param: the number of parameters in `p`, 0 for a NULL list or a syntax error. */
  method NumParam(p0: Option<string>) returns (r: int)
    ensures p0.None? ==> r == 0
    ensures p0.Some? ==> r == NumParamSpec(p0.value)
  {
    if p0.None? {
      return 0;
    }
    var s := p0.value;
    var c := NumScan(0, Init, 0, 1);
    while c.p < |s|
      invariant c.p <= |s|
      invariant c.mode == Unquoted ==> c.p > 0
      invariant NumParamRun(s, c) == NumParamSpec(s)
      decreases Rank(c.p, c.mode, |s|)
    {
      var stop, d;
      match c.mode {
        case Init => stop, d := NumParamInit(s, c);
        case Quoted => stop, d := NumParamQuoted(s, c);
        case Unquoted => stop, d := NumParamUnquoted(s, c);
      }
      if stop {
        return 0;   // incorrect syntax
      }
      c := d.(p := d.p + 1);
    }
    if c.mode == Quoted || c.depth != 0 {
      return 0;   // missing terminating '"' or ']'
    }
    return c.ret;
  }

  /** The pass of the num_param loop leaves `d`, before the loop's `p++`. */
  predicate NumPasses(s: string, c: NumScan, d: NumScan)
    requires c.p < |s|
  {
    d.p < |s| && NumParamStep(s, c) == Next(d.(p := d.p + 1))
  }

  /** `case 0` of the num_param switch. */
  method NumParamInit(s: string, c: NumScan) returns (stop: bool, d: NumScan)
    requires c.p < |s| && c.mode == Init
    ensures stop ==> NumParamStep(s, c).SyntaxError?
    ensures !stop ==> NumPasses(s, c, d)
  {
    d, stop := c, false;
    var ch := s[c.p];
    if ch == ',' {
      if d.depth == 0 { d := d.(ret := d.ret + 1); }
    } else if ch == '"' {
      d := d.(mode := Quoted);
    } else if ch == '[' {
      if d.depth == 0 {
        d := d.(depth := 1);
      } else {
        return true, d;   // incorrect syntax: multi-level array
      }
    } else if ch == ']' && d.depth != 0 {
      d := d.(depth := 0);
      var q := SkipSpacesLoop(s, d.p);   // skip trailing spaces after closing ']'
      d := d.(p := q);
      if Ch(s, q + 1) != ',' && Ch(s, q + 1) != '\0' {
        return true, d;   // incorrect syntax
      }
    } else if ch == ']' && d.depth == 0 {
      return true, d;   // incorrect syntax
    } else if ch != ' ' {
      d := d.(mode := Unquoted);
    }
  }

  /** `case 1` of the num_param switch. */
  method NumParamQuoted(s: string, c: NumScan) returns (stop: bool, d: NumScan)
    requires c.p < |s| && c.mode == Quoted
    ensures stop ==> NumParamStep(s, c).SyntaxError?
    ensures !stop ==> NumPasses(s, c, d)
  {
    d, stop := c, false;
    if s[d.p] == '"' {
      var q := SkipSpacesLoop(s, d.p);   // skip trailing spaces after closing quotes
      d := d.(p := q);
      if Ch(s, q + 1) != ',' && Ch(s, q + 1) != '\0' && (d.depth == 0 || Ch(s, q + 1) != ']') {
        return true, d;   // incorrect syntax
      }
      d := d.(mode := Init);
    } else if s[d.p] == '\\' && Ch(s, d.p + 1) == '"' {
      d := d.(p := d.p + 1);
    }
  }

  /** `case 2` of the num_param switch. */
  method NumParamUnquoted(s: string, c: NumScan) returns (stop: bool, d: NumScan)
    requires c.p < |s| && c.mode == Unquoted && c.p > 0
    ensures stop ==> NumParamStep(s, c).SyntaxError?
    ensures !stop ==> NumPasses(s, c, d)
  {
    d, stop := c, false;
    if s[d.p] == ',' || (s[d.p] == ']' && d.depth != 0) {
      d := d.(p := d.p - 1, mode := Init);
    } else if s[d.p] == ']' && d.depth == 0 {
      return true, d;   // incorrect syntax
    }
  }

  /** The C string held in `a`: the characters before its first NUL. */
  function CStr(a: seq<char>): (s: string)
    requires '\0' in a
    ensures |s| < |a| && s == a[..|s|] && a[|s|] == '\0'
  {
    a[..IndexOf(a, '\0')]
  }

  /** No character of a C string is the NUL that ends it. */
  lemma CStrNoNul(a: seq<char>, i: nat)
    requires '\0' in a && i < |CStr(a)|
    ensures a[i] != '\0'
  {
    assert CStr(a)[i] == a[i];
  }

  /**
   * remove_param: deletes parameter `num` of the list held in `param`, in
   * place, moving the characters it keeps to the left.
   */
  method RemoveParam(param: array<char>, num: int)
    requires '\0' in param[..]
    modifies param
    ensures var t := RemoveParamSpec(CStr(old(param[..])), num);
      |t| < param.Length && param[..|t|] == t && param[|t|] == '\0' &&
      param[|t| + 1..] == old(param[|t| + 1..])
  {
    ghost var a := param[..];
    ghost var s := CStr(a);
    var quoted := false;   // state: 0 - unquoted parameter, 1 - quoted parameter
    var idx := 1;
    var w: nat, p: nat := 0, 0;   // `param` and `p` of the C loop
    ghost var kept: string := [];
    while param[p] != '\0'
      invariant RemoveParamInv(param, a, s, num, w, p, quoted, idx, kept)
      decreases |s| - p
    {
      w, quoted, idx, kept := RemoveParamPass(param, a, s, num, w, p, quoted, idx, kept);
      p := p + 1;
    }
    if p < |s| {
      CStrNoNul(a, p);
      assert false;
    }
    RemoveParamTerminate(param, a, s, num, w, p, quoted, idx, kept);
  }

  /** `*param = '\0';` once the scan has reached the end of the C string. */
  method RemoveParamTerminate(param: array<char>, ghost a: seq<char>, ghost s: string, num: int,
                              w: nat, p: nat, quoted: bool, idx: int, ghost kept: string)
    requires RemoveParamInv(param, a, s, num, w, p, quoted, idx, kept) && p == |s|
    modifies param
    ensures var t := RemoveParamSpec(s, num);
      |t| < param.Length && param[..|t|] == t && param[|t|] == '\0' &&
      param[|t| + 1..] == a[|t| + 1..]
  {
    assert kept == RemoveParamSpec(s, num);
    param[w] := '\0';
    assert param[..w] == kept;
    assert param[w + 1..] == a[w + 1..];
  }

  /** The invariant of the remove_param loop: `kept` is in place before `w`, the rest is untouched. */
  ghost predicate RemoveParamInv(param: array<char>, a: seq<char>, s: string, num: int,
                                 w: nat, p: nat, quoted: bool, idx: int, kept: string)
    reads param
  {
    |a| == param.Length && |s| < |a| && s == a[..|s|] && a[|s|] == '\0' &&
    w <= p <= |s| && |kept| == w &&
    (forall k :: w <= k < param.Length ==> param[k] == a[k]) &&
    (forall k :: 0 <= k < w ==> param[k] == kept[k]) &&
    (p > 0 ==> param[p - 1] == s[p - 1]) &&
    (quoted ==> p > 0) &&
    kept + RemoveParamFrom(s, num, p, quoted, idx) == RemoveParamSpec(s, num)
  }

  /** The body of the remove_param loop: the switch on `*p`, then `*param++ = *p` for a kept character. */
  method RemoveParamPass(param: array<char>, ghost a: seq<char>, ghost s: string, num: int,
                         w: nat, p: nat, quoted: bool, idx: int, ghost kept: string)
    returns (w': nat, quoted': bool, idx': int, ghost kept': string)
    requires RemoveParamInv(param, a, s, num, w, p, quoted, idx, kept) && p < |s|
    modifies param
    ensures RemoveParamInv(param, a, s, num, w', p + 1, quoted', idx', kept')
  {
    assert param[p] == a[p];
    var skipChar;
    quoted', idx', skipChar := RemoveParamSwitch(param, p, quoted, idx, num, s);
    RemoveParamAdvance(s, num, p, quoted, idx, kept);
    w', kept' := w, kept;
    if idx' != num && !skipChar {
      param[w] := param[p];
      w', kept' := w + 1, kept + [s[p]];
    }
    assert param[p] == s[p];
  }

  /** What one character of remove_param adds to the kept text. */
  lemma RemoveParamAdvance(s: string, num: int, p: nat, quoted: bool, idx: int, kept: string)
    requires p < |s| && (quoted ==> p > 0)
    ensures var st := RemoveSwitch(s, num, p, quoted, idx);
      kept + RemoveParamFrom(s, num, p, quoted, idx)
      == (if st.1 != num && !st.2 then kept + [s[p]] else kept) + RemoveParamFrom(s, num, p + 1, st.0, st.1)
  {
    var st := RemoveSwitch(s, num, p, quoted, idx);
    var rest := RemoveParamFrom(s, num, p + 1, st.0, st.1);
    assert kept + [s[p]] + rest == kept + ([s[p]] + rest);
  }

  /** The switch of the remove_param loop on `param[p]`; it reads `*(p - 1)` inside quotes. */
  method RemoveParamSwitch(param: array<char>, p: nat, quoted: bool, idx: int, num: int, ghost s: string)
    returns (quoted': bool, idx': int, skipChar: bool)
    requires p < |s| && p < param.Length && param[p] == s[p]
    requires quoted ==> p > 0 && param[p - 1] == s[p - 1]
    ensures (quoted', idx', skipChar) == RemoveSwitch(s, num, p, quoted, idx)
  {
    quoted', idx', skipChar := quoted, idx, false;
    if !quoted {
      if param[p] == ',' {
        if idx == 1 && num == 1 {
          skipChar := true;
        }
        idx' := idx + 1;
      } else if param[p] == '"' {
        quoted' := true;
      }
    } else {
      if param[p] == '"' && param[p - 1] != '\\' {
        quoted' := false;
      }
    }
  }

  /** The parameter list of a key `key[...]`: from after its first '[' to before its last ']'. */
  function KeyParamList(s: string): (r: Option<string>)
    ensures r.None? <==> '[' !in s || ']' !in s || IndexOf(s, '[') > LastIndexOf(s, ']')
    ensures r.Some? ==> r.value == s[IndexOf(s, '[') + 1..LastIndexOf(s, ']')]
  {
    var pl, pr := IndexOf(s, '['), LastIndexOf(s, ']');
    if pl == -1 || pr == -1 || pl > pr then None else Some(s[pl + 1..pr])
  }

  /** The first '[' and the last ']' of the C string in `param`, when they enclose a list. */
  method FindKeyParams(param: array<char>) returns (found: bool, pl: nat, pr: nat)
    requires '\0' in param[..]
    ensures found <==> KeyParamList(CStr(param[..])).Some?
    ensures found ==> (pl < pr < |CStr(param[..])| && param[pr] == ']' &&
                       KeyParamList(CStr(param[..])).value == CStr(param[..])[pl + 1..pr])
  {
    var s := CStr(param[..]);
    var l, r := IndexOf(s, '['), LastIndexOf(s, ']');
    if l == -1 || r == -1 || l > r {
      return false, 0, 0;
    }
    assert s[l] == '[' && s[r] == ']';
    return true, l, r;
  }

  /**
   * get_key_param: get_param on the parameters of the key held in `param`,
   * whose last ']' is replaced by '\0' for the call and then put back.
   */
  method GetKeyParam(param: array<char>, num: int, maxLen: nat) returns (r: int, buf: string)
    requires '\0' in param[..]
    modifies param
    ensures param[..] == old(param[..])
    ensures KeyParamList(CStr(old(param[..]))).None? ==> r == 1
    ensures KeyParamList(CStr(old(param[..]))).Some? ==>
      var spec := GetParamSpec(KeyParamList(CStr(old(param[..]))).value, num);
      (r == 0 <==> maxLen > 0 && spec.code == 0 && |spec.out| < maxLen) && (r == 0 ==> buf == spec.out)
  {
    ghost var a := param[..];
    var found, pl, pr := FindKeyParams(param);
    if !found {
      return 1, [];
    }
    param[pr] := '\0';
    assert param[..] == a[pr := '\0'];
    KeyParamCut(a, param[..], pl, pr);
    var ty;   // get_key_param passes no type variable
    r, buf, ty := GetParam(CStr(param[pl + 1..]), num, maxLen);
    param[pr] := ']';
    assert param[..] == a;
  }

  /** num_key_param: num_param on the parameters of the key held in `param`; 0 for NULL. */
  method NumKeyParam(param: array?<char>) returns (r: int)
    requires param != null ==> '\0' in param[..]
    modifies param
    ensures param == null ==> r == 0
    ensures param != null ==> param[..] == old(param[..])
    ensures param != null && KeyParamList(CStr(old(param[..]))).None? ==> r == 0
    ensures param != null && KeyParamList(CStr(old(param[..]))).Some? ==>
      r == NumParamSpec(KeyParamList(CStr(old(param[..]))).value)
  {
    if param == null {
      return 0;
    }
    ghost var a := param[..];
    var found, pl, pr := FindKeyParams(param);
    if !found {
      return 0;
    }
    param[pr] := '\0';
    assert param[..] == a[pr := '\0'];
    KeyParamCut(a, param[..], pl, pr);
    r := NumParam(Some(CStr(param[pl + 1..])));
    param[pr] := ']';
    assert param[..] == a;
  }

  /** With '\\0' written over the last ']', the C string after the first '[' is the parameter list. */
  lemma KeyParamCut(a: seq<char>, b: seq<char>, pl: int, pr: int)
    requires '\0' in a
    requires 0 <= pl < pr < |CStr(a)|
    requires b == a[pr := '\0']
    ensures '\0' in b[pl + 1..]
    ensures CStr(b[pl + 1..]) == CStr(a)[pl + 1..pr]
  {
    var s := CStr(a);
    var t := b[pl + 1..];
    assert t[pr - pl - 1] == '\0';
    forall i | 0 <= i < pr - pl - 1
      ensures t[i] != '\0'
    {
      CStrNoNul(a, pl + 1 + i);
    }
    CStrAt(t, pr - pl - 1);
    assert t[..pr - pl - 1] == s[pl + 1..pr];
  }

  /** The first NUL of `a` at `k` makes `a[..k]` its C string. */
  lemma CStrAt(a: seq<char>, k: nat)
    requires k < |a| && a[k] == '\0' && '\0' !in a[..k]
    ensures CStr(a) == a[..k]
  {
  }

  /** `while (' ' == p[1]) p++;` */
  method SkipSpacesLoop(s: string, p0: nat) returns (p: nat)
    requires p0 < |s|
    ensures p == SkipSpaces(s, p0)
  {
    p := p0;
    while Ch(s, p + 1) == ' '
      invariant p0 <= p < |s|
      invariant SkipSpaces(s, p) == SkipSpaces(s, p0)
      decreases |s| - p
    {
      p := p + 1;
    }
  }
}
