/**
 * The parameter-list scanners of src/libs/zbxparam/param.c written as
 * functions: one step of each C loop, and the run of that loop to its end.
 *
 * A C string is the sequence of its characters before the terminating NUL,
 * so the end of the string is position |s| and the look-ahead `p[1]` past the
 * last character reads '\0' (see `Ch`).
 */
module ParamMachine {
  /** zbx_request_parameter_type_t */
  datatype ParamType = Undefined | StringParam | ArrayParam

  /** The scanner states: 0 - init, 1 - inside a quoted parameter, 2 - inside an unquoted one. */
  datatype Mode = Init | Quoted | Unquoted

  /** The character at index `i`, reading the terminating NUL at and after |s|. */
  function Ch(s: string, i: nat): (c: char)
    ensures i < |s| ==> c == s[i]
    ensures i >= |s| ==> c == '\0'
  {
    if i < |s| then s[i] else '\0'
  }

  /** Where `while (' ' == p[1]) p++;` leaves `p`. */
  function SkipSpaces(s: string, p: nat): (q: nat)
    requires p < |s|
    ensures p <= q < |s|
    ensures forall k :: p < k <= q ==> s[k] == ' '
    ensures Ch(s, q + 1) != ' '
    decreases |s| - p
  {
    if Ch(s, p + 1) == ' ' then SkipSpaces(s, p + 1) else p
  }

  /**
   * The check after a closing quote or bracket: what follows the skipped spaces
   * is a ',' or the end, or a ']' closing a still open array.
   */
  predicate Closes(s: string, q: nat, depth: nat)
  {
    var n := Ch(s, q + 1);
    n == ',' || n == '\0' || (depth != 0 && n == ']')
  }

  /** The type is recorded only while it is still undefined. */
  function SetType(ty: ParamType, t: ParamType): (r: ParamType)
    ensures ty == Undefined ==> r == t
    ensures ty != Undefined ==> r == ty
  {
    if ty == Undefined then t else ty
  }

  // ---------------------------------------------------------------- get_param

  /** The variables of the get_param loop; `out` is the text written to `buf`. */
  datatype Scan = Scan(p: nat, mode: Mode, depth: nat, idx: int, out: string, ty: ParamType)

  datatype Parsed = Parsed(code: int, out: string, ty: ParamType)

  datatype Step<C> = Next(c: C) | SyntaxError

  /** Termination measure of every scanner: `p` moves right, or state 2 falls back to state 0 in place. */
  function Rank(p: nat, mode: Mode, len: nat): nat
    requires p <= len
  {
    2 * (len - p) + (if mode == Unquoted then 1 else 0)
  }

  /** `Emit(at, c.out, x)` is the text after ZBX_ASSIGN_PARAM wrote `x` when `at` holds. */
  function Emit(at: bool, out: string, x: string): (r: string)
    ensures r == if at then out + x else out
  {
    if at then out + x else out
  }

  /** One pass of the get_param loop body on the character at `c.p`, with an unbounded buffer. */
  function GetParamStep(s: string, num: int, c: Scan): (r: Step<Scan>)
    requires c.p < |s|
    ensures r.Next? ==> r.c.p <= |s| && Rank(r.c.p, r.c.mode, |s|) < Rank(c.p, c.mode, |s|)
    ensures r.Next? ==> c.out <= r.c.out
    ensures r.Next? && r.c.idx != c.idx ==> r.c.idx == c.idx + 1 && r.c.mode == Init && r.c.depth == 0
    ensures r.Next? && c.ty != Undefined ==> r.c.ty == c.ty
  {
    var ch := s[c.p];
    var at := c.idx == num;
    match c.mode
    case Init =>
      if ch == ',' then
        if c.depth == 0 then Next(c.(p := c.p + 1, idx := c.idx + 1))
        else Next(c.(p := c.p + 1, out := Emit(at, c.out, [ch])))
      else if ch == '"' then
        Next(c.(p := c.p + 1, mode := Quoted, ty := if at then SetType(c.ty, StringParam) else c.ty,
                out := Emit(at && c.depth != 0, c.out, [ch])))
      else if ch == '[' then
        Next(c.(p := c.p + 1, depth := c.depth + 1, ty := if at then SetType(c.ty, ArrayParam) else c.ty,
                out := Emit(at && c.depth != 0, c.out, [ch])))
      else if ch == ']' && c.depth != 0 then
        var q := SkipSpaces(s, c.p);
        if Closes(s, q, c.depth - 1) then
          Next(c.(p := q + 1, depth := c.depth - 1, out := Emit(at && c.depth - 1 != 0, c.out, [ch])))
        else SyntaxError
      else if ch != ' ' then
        Next(c.(p := c.p + 1, mode := Unquoted, ty := if at then SetType(c.ty, StringParam) else c.ty,
                out := Emit(at, c.out, [ch])))
      else Next(c.(p := c.p + 1))
    case Quoted =>
      if ch == '"' then
        var q := SkipSpaces(s, c.p);
        if Closes(s, q, c.depth) then
          Next(c.(p := q + 1, mode := Init, out := Emit(at && c.depth != 0, c.out, [ch])))
        else SyntaxError
      else if ch == '\\' && Ch(s, c.p + 1) == '"' then
        Next(c.(p := c.p + 2, out := Emit(at, Emit(at && c.depth != 0, c.out, ['\\']), ['"'])))
      else Next(c.(p := c.p + 1, out := Emit(at, c.out, [ch])))
    case Unquoted =>
      if ch == ',' || (ch == ']' && c.depth != 0) then Next(c.(mode := Init))
      else Next(c.(p := c.p + 1, out := Emit(at, c.out, [ch])))
  }

  /** The checks after the get_param loop: unterminated quote, unclosed depth, too few parameters. */
  function GetParamEnd(num: int, c: Scan): (r: Parsed)
    ensures r.code == 0 <==> c.mode != Quoted && c.depth == 0 && c.idx >= num
    ensures r.code == 0 || r.code == 1
    ensures r.out == c.out && r.ty == c.ty
  {
    if c.mode == Quoted then Parsed(1, c.out, c.ty)
    else if c.depth != 0 then Parsed(1, c.out, c.ty)
    else if c.idx >= num then Parsed(0, c.out, c.ty)
    else Parsed(1, c.out, c.ty)
  }

  /** The get_param loop run from configuration `c` to its end, with an unbounded buffer. */
  function GetParamRun(s: string, num: int, c: Scan): (r: Parsed)
    requires c.p <= |s|
    ensures c.out <= r.out
    ensures r.code == 0 || r.code == 1
    decreases Rank(c.p, c.mode, |s|)
  {
    if c.p == |s| || c.idx > num then GetParamEnd(num, c)
    else
      match GetParamStep(s, num, c)
      case SyntaxError => Parsed(1, c.out, c.ty)
      case Next(c') => GetParamRun(s, num, c')
  }

  const ScanStart := Scan(0, Init, 0, 1, [], Undefined)

  /** The parameter type once the pass on `c` has run: a syntax error leaves it as it was. */
  function PassType(s: string, num: int, c: Scan): ParamType
    requires c.p < |s|
  {
    match GetParamStep(s, num, c)
    case SyntaxError => c.ty
    case Next(e) => e.ty
  }

  /** What get_param computes for parameter `num` of `s` given a buffer large enough. */
  function GetParamSpec(s: string, num: int): Parsed
  {
    GetParamRun(s, num, ScanStart)
  }

  // ------------------------------------------------------------ get_param_len

  /** The variables of the get_param_len loop; `sz` counts what get_param would write. */
  datatype LenScan = LenScan(p: nat, mode: Mode, depth: nat, idx: int, sz: nat)

  /** One pass of the get_param_len loop body. */
  function GetParamLenStep(s: string, num: int, c: LenScan): (r: Step<LenScan>)
    requires c.p < |s|
    ensures r.Next? ==> r.c.p <= |s| && Rank(r.c.p, r.c.mode, |s|) < Rank(c.p, c.mode, |s|)
  {
    var ch := s[c.p];
    var at := c.idx == num;
    match c.mode
    case Init =>
      if ch == ',' then
        if c.depth == 0 then Next(c.(p := c.p + 1, idx := c.idx + 1))
        else Next(c.(p := c.p + 1, sz := if at then c.sz + 1 else c.sz))
      else if ch == '"' then
        Next(c.(p := c.p + 1, mode := Quoted, sz := if c.depth != 0 && at then c.sz + 1 else c.sz))
      else if ch == '[' then
        Next(c.(p := c.p + 1, depth := c.depth + 1, sz := if c.depth != 0 && at then c.sz + 1 else c.sz))
      else if ch == ']' && c.depth != 0 then
        var q := SkipSpaces(s, c.p);
        if Closes(s, q, c.depth - 1) then
          Next(c.(p := q + 1, depth := c.depth - 1, sz := if c.depth - 1 != 0 && at then c.sz + 1 else c.sz))
        else SyntaxError
      else if ch != ' ' then
        Next(c.(p := c.p + 1, mode := Unquoted, sz := if at then c.sz + 1 else c.sz))
      else Next(c.(p := c.p + 1))
    case Quoted =>
      if ch == '"' then
        var q := SkipSpaces(s, c.p);
        if Closes(s, q, c.depth) then
          Next(c.(p := q + 1, mode := Init, sz := if c.depth != 0 && at then c.sz + 1 else c.sz))
        else SyntaxError
      else if ch == '\\' && Ch(s, c.p + 1) == '"' then
        var sz1 := if at && c.depth != 0 then c.sz + 1 else c.sz;
        Next(c.(p := c.p + 2, sz := if at then sz1 + 1 else sz1))
      else Next(c.(p := c.p + 1, sz := if at then c.sz + 1 else c.sz))
    case Unquoted =>
      if ch == ',' || (ch == ']' && c.depth != 0) then Next(c.(mode := Init))
      else Next(c.(p := c.p + 1, sz := if at then c.sz + 1 else c.sz))
  }

  datatype Length = Length(code: int, sz: nat)

  /** The get_param_len loop run from `c` to its end, with its closing checks. */
  function GetParamLenRun(s: string, num: int, c: LenScan): (r: Length)
    requires c.p <= |s|
    ensures r.sz >= c.sz
    decreases Rank(c.p, c.mode, |s|)
  {
    if c.p == |s| || c.idx > num then
      Length(if c.mode == Quoted || c.depth != 0 || c.idx < num then 1 else 0, c.sz)
    else
      match GetParamLenStep(s, num, c)
      case SyntaxError => Length(1, c.sz)
      case Next(c') => GetParamLenRun(s, num, c')
  }

  /** What get_param_len computes for parameter `num` of `s`. */
  function GetParamLenSpec(s: string, num: int): Length
  {
    GetParamLenRun(s, num, LenScan(0, Init, 0, 1, 0))
  }

  // ---------------------------------------------------------------- num_param

  /** The variables of the num_param loop; `ret` is the parameter count so far. */
  datatype NumScan = NumScan(p: nat, mode: Mode, depth: nat, ret: int)

  /** One pass of the num_param loop body; `SyntaxError` is its `return 0`. */
  function NumParamStep(s: string, c: NumScan): (r: Step<NumScan>)
    requires c.p < |s|
    ensures r.Next? ==> r.c.p <= |s| && Rank(r.c.p, r.c.mode, |s|) < Rank(c.p, c.mode, |s|)
    ensures r.Next? ==> r.c.ret >= c.ret && r.c.depth <= 1 + c.depth
  {
    var ch := s[c.p];
    match c.mode
    case Init =>
      if ch == ',' then
        Next(c.(p := c.p + 1, ret := if c.depth == 0 then c.ret + 1 else c.ret))
      else if ch == '"' then Next(c.(p := c.p + 1, mode := Quoted))
      else if ch == '[' then
        if c.depth == 0 then Next(c.(p := c.p + 1, depth := 1)) else SyntaxError
      else if ch == ']' && c.depth != 0 then
        var q := SkipSpaces(s, c.p);
        var n := Ch(s, q + 1);
        if n == ',' || n == '\0' then Next(c.(p := q + 1, depth := 0)) else SyntaxError
      else if ch == ']' then SyntaxError
      else if ch != ' ' then Next(c.(p := c.p + 1, mode := Unquoted))
      else Next(c.(p := c.p + 1))
    case Quoted =>
      if ch == '"' then
        var q := SkipSpaces(s, c.p);
        if Closes(s, q, c.depth) then Next(c.(p := q + 1, mode := Init)) else SyntaxError
      else if ch == '\\' && Ch(s, c.p + 1) == '"' then Next(c.(p := c.p + 2))
      else Next(c.(p := c.p + 1))
    case Unquoted =>
      if ch == ',' || (ch == ']' && c.depth != 0) then Next(c.(mode := Init))
      else if ch == ']' then SyntaxError
      else Next(c.(p := c.p + 1))
  }

  /** The num_param loop run from `c` to its end, with its closing checks. */
  function NumParamRun(s: string, c: NumScan): (r: int)
    requires c.p <= |s|
    ensures r == 0 || r >= c.ret
    decreases Rank(c.p, c.mode, |s|)
  {
    if c.p == |s| then
      if c.mode == Quoted || c.depth != 0 then 0 else c.ret
    else
      match NumParamStep(s, c)
      case SyntaxError => 0
      case Next(c') => NumParamRun(s, c')
  }

  /** The number of parameters num_param finds in `s`, 0 on a syntax error. */
  function NumParamSpec(s: string): int
  {
    NumParamRun(s, NumScan(0, Init, 0, 1))
  }

  // ------------------------------------------------------------- remove_param

  /**
   * The switch of the remove_param loop on the character at `i`: the new
   * quoting state, the new parameter index, and whether the comma ending the
   * first parameter is being dropped (`skip_char`).
   */
  function RemoveSwitch(s: string, num: int, i: nat, quoted: bool, idx: int): (r: (bool, int, bool))
    requires i < |s| && (quoted ==> i > 0)
    ensures r.1 == idx || (r.1 == idx + 1 && s[i] == ',' && !quoted)
    ensures r.2 ==> s[i] == ',' && idx == 1 && num == 1 && !quoted
  {
    var ch := s[i];
    if !quoted then
      if ch == ',' then (false, idx + 1, idx == 1 && num == 1)
      else if ch == '"' then (true, idx, false)
      else (false, idx, false)
    else if ch == '"' && s[i - 1] != '\\' then (false, idx, false)
    else (true, idx, false)
  }

  /**
   * The text remove_param keeps from position `i` on, in quoting state
   * `quoted` with `idx` parameters begun so far.
   */
  function RemoveParamFrom(s: string, num: int, i: nat, quoted: bool, idx: int): (r: string)
    requires i <= |s|
    requires quoted ==> i > 0
    ensures |r| <= |s| - i
    decreases |s| - i
  {
    if i == |s| then []
    else
      var st := RemoveSwitch(s, num, i, quoted, idx);
      (if st.1 != num && !st.2 then [s[i]] else []) + RemoveParamFrom(s, num, i + 1, st.0, st.1)
  }

  /** The text remove_param leaves in place of `s`. */
  function RemoveParamSpec(s: string, num: int): string
  {
    RemoveParamFrom(s, num, 0, false, 1)
  }
}
