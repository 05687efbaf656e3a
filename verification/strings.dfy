/** Character-sequence helpers shared by the modules of the model. */
module Strings {
  /** `s` with its leading spaces removed. */
  function TrimLeft(s: string): (r: string)
    ensures |r| <= |s| && r == s[|s| - |r|..]
    ensures r == [] || r[0] != ' '
    ensures forall k :: 0 <= k < |s| - |r| ==> s[k] == ' '
  {
    if s != [] && s[0] == ' ' then TrimLeft(s[1..]) else s
  }

  /** The pieces of `s` between occurrences of `d`; always at least one piece. */
  function Split(s: string, d: char): (r: seq<string>)
    ensures |r| >= 1
    ensures forall i :: 0 <= i < |r| ==> d !in r[i]
  {
    if s == [] then [[]]
    else
      var rest := Split(s[1..], d);
      if s[0] == d then [[]] + rest else [[s[0]] + rest[0]] + rest[1..]
  }

  /** The pieces joined with `d` between neighbours. */
  function Join(xs: seq<string>, d: string): string
  {
    if xs == [] then []
    else if |xs| == 1 then xs[0]
    else xs[0] + d + Join(xs[1..], d)
  }

  /** Number of occurrences of `c` in `s`. */
  function Count(s: string, c: char): nat
  {
    if s == [] then 0 else (if s[0] == c then 1 else 0) + Count(s[1..], c)
  }

  /** Index of the first `c` in `s` (C `strchr`). */
  function IndexOf(s: string, c: char): (r: int)
    ensures -1 <= r < |s|
    ensures r == -1 <==> c !in s
    ensures r >= 0 ==> s[r] == c && c !in s[..r]
  {
    if s == [] then -1
    else if s[0] == c then 0
    else
      var k := IndexOf(s[1..], c);
      assert s[1..][..k + 1] == s[1..k + 2] && s[..k + 2] == [s[0]] + s[1..k + 2];
      if k == -1 then -1 else k + 1
  }

  /** Index of the last `c` in `s` (C `strrchr`). */
  function LastIndexOf(s: string, c: char): (r: int)
    ensures -1 <= r < |s|
    ensures r == -1 <==> c !in s
    ensures r >= 0 ==> s[r] == c && c !in s[r + 1..]
  {
    if s == [] then -1
    else if s[|s| - 1] == c then |s| - 1
    else
      assert s == s[..|s| - 1] + [s[|s| - 1]];
      LastIndexOf(s[..|s| - 1], c)
  }

  /** `Split` undoes nothing: joining its pieces with `d` gives `s` back. */
  lemma {:induction false} JoinSplit(s: string, d: char)
    ensures Join(Split(s, d), [d]) == s
    decreases |s|
  {
    if s != [] {
      var rest := Split(s[1..], d);
      JoinSplit(s[1..], d);
      if s[0] == d {
        assert Split(s, d) == [[]] + rest;
      } else {
        var r := Split(s, d);
        assert r == [[s[0]] + rest[0]] + rest[1..];
        if |rest| == 1 {
          assert Join(r, [d]) == [s[0]] + rest[0];
        } else {
          assert r[1..] == rest[1..];
          assert Join(rest, [d]) == rest[0] + [d] + Join(rest[1..], [d]);
        }
      }
    }
  }

  /** `Split` recovers the pieces that `Join` put together, when no piece holds `d`. */
  lemma {:induction false} SplitJoin(xs: seq<string>, d: char)
    requires |xs| >= 1
    requires forall i :: 0 <= i < |xs| ==> d !in xs[i]
    ensures Split(Join(xs, [d]), d) == xs
    decreases |xs|, |xs[0]|
  {
    if |xs| == 1 {
      SplitNoDelimiter(xs[0], d);
    } else if xs[0] == [] {
      var j := Join(xs, [d]);
      assert j == [d] + Join(xs[1..], [d]);
      assert j[1..] == Join(xs[1..], [d]);
      SplitJoin(xs[1..], d);
      assert xs == [[]] + xs[1..];
    } else {
      var j := Join(xs, [d]);
      var ys := [xs[0][1..]] + xs[1..];
      assert j == [xs[0][0]] + Join(ys, [d]) by {
        assert Join(ys, [d]) == xs[0][1..] + [d] + Join(xs[1..], [d]) by { assert ys[1..] == xs[1..]; }
        assert xs[0] == [xs[0][0]] + xs[0][1..];
      }
      assert j[1..] == Join(ys, [d]);
      assert d !in ys[0] by { assert forall k :: 0 <= k < |ys[0]| ==> ys[0][k] == xs[0][k + 1]; }
      SplitJoin(ys, d);
      assert xs[0] == [xs[0][0]] + ys[0];
      assert xs == [[xs[0][0]] + ys[0]] + ys[1..];
    }
  }

  lemma {:induction false} SplitNoDelimiter(s: string, d: char)
    requires d !in s
    ensures Split(s, d) == [s]
    decreases |s|
  {
    if s != [] {
      assert d !in s[1..] by { assert forall k :: 0 <= k < |s| - 1 ==> s[1..][k] == s[k + 1]; }
      SplitNoDelimiter(s[1..], d);
      assert s == [s[0]] + s[1..];
    }
  }

  /** There is one more piece than there are delimiters. */
  lemma {:induction false} SplitCount(s: string, d: char)
    ensures |Split(s, d)| == Count(s, d) + 1
    decreases |s|
  {
    if s != [] {
      SplitCount(s[1..], d);
    }
  }

  /** The first piece is the text before the first delimiter, or all of `s` when there is none. */
  lemma {:induction false} SplitHead(s: string, d: char)
    ensures var h := Split(s, d)[0];
      |h| <= |s| && h == s[..|h|] && (|h| < |s| ==> s[|h|] == d)
    decreases |s|
  {
    if s != [] && s[0] != d {
      SplitHead(s[1..], d);
      var h' := Split(s[1..], d)[0];
      assert Split(s, d)[0] == [s[0]] + h';
      assert s[..|h'| + 1] == [s[0]] + s[1..][..|h'|];
    }
  }
}
