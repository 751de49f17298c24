/**
  The parts of Python's `str` that the library leans on: whitespace, `strip`,
  `rstrip`, `split()` with no separator, `sep.join(...)` and `endswith`.
  Whitespace is the ASCII part of `str.isspace`.
 */
module Text {

  /** Python's `str.isspace` restricted to ASCII: space, \t \n \v \f \r and the
      four information separators \x1c-\x1f. */
  predicate IsSpace(c: char) {
    c == ' ' || c == '\t' || c == '\n' || c == '\r' || c == '\U{B}' || c == '\U{C}'
    || ('\U{1C}' <= c <= '\U{1F}')
  }

  predicate AllSpace(s: string) {
    forall i :: 0 <= i < |s| ==> IsSpace(s[i])
  }

  predicate NoSpace(s: string) {
    forall i :: 0 <= i < |s| ==> !IsSpace(s[i])
  }

  /** `s.lstrip()`: the suffix of `s` left after dropping leading whitespace. */
  function LStrip(s: string): (r: string)
    ensures |r| <= |s| && r == s[|s| - |r|..]
    ensures r == [] || !IsSpace(r[0])
    ensures forall i :: 0 <= i < |s| - |r| ==> IsSpace(s[i])
  {
    if s != [] && IsSpace(s[0]) then LStrip(s[1..]) else s
  }

  /** `s.rstrip()`: the prefix of `s` left after dropping trailing whitespace. */
  function RStrip(s: string): (r: string)
    ensures |r| <= |s| && r == s[..|r|]
    ensures r == [] || !IsSpace(r[|r| - 1])
    ensures forall i :: |r| <= i < |s| ==> IsSpace(s[i])
  {
    if s != [] && IsSpace(s[|s| - 1]) then RStrip(s[..|s| - 1]) else s
  }

  /** No whitespace at either end. */
  predicate Stripped(s: string) {
    s == [] || (!IsSpace(s[0]) && !IsSpace(s[|s| - 1]))
  }

  /** `s.strip()`: `s` without whitespace at either end. */
  function Strip(s: string): (r: string)
    ensures |r| <= |s|
    ensures r == [] || (!IsSpace(r[0]) && !IsSpace(r[|r| - 1]))
  {
    RStrip(LStrip(s))
  }

  /** Stripping a string with no whitespace at either end changes nothing. */
  lemma StripOfStripped(s: string)
    requires Stripped(s)
    ensures Strip(s) == s
  {
    assert LStrip(s) == s;
  }

  /** What `strip` keeps is a contiguous piece of the original. */
  lemma StripIsInfix(s: string)
    ensures IsInfix(Strip(s), s)
  {
    var l := LStrip(s);
    var r := RStrip(l);
    assert s[|s| - |l|..][..|r|] == s[|s| - |l|..|s| - |l| + |r|];
    assert IsAt(r, s, |s| - |l|);
  }

  /** `strip` gives the empty string exactly for blank input. */
  lemma StripEmptyIffBlank(s: string)
    ensures Strip(s) == [] <==> AllSpace(s)
  {
    var l := LStrip(s);
    var r := RStrip(l);
    if r == [] {
      assert l == [];
    } else {
      assert l[0] == s[|s| - |l|];
    }
  }

  /** Stripping keeps the last visible character of the text last. */
  lemma StripKeepsLastVisible(s: string)
    requires RStrip(s) != []
    ensures var r := Strip(s); r != [] && r[|r| - 1] == RStrip(s)[|RStrip(s)| - 1]
  {
    var t := RStrip(s);
    var l := LStrip(s);
    var j := |t| - 1;
    assert s[j] == t[j] && !IsSpace(s[j]);
    LStripStopsAt(s, j);
    RStripOfSuffix(s, l);
    SuffixIndex(s, l, j);
  }

  /** Left-stripping stops at or before the first visible character. */
  lemma LStripStopsAt(s: string, j: int)
    requires 0 <= j < |s| && !IsSpace(s[j])
    ensures |s| - |LStrip(s)| <= j
  {
  }

  /** A character of `s` inside its suffix `l`, indexed from `l`'s start. */
  lemma SuffixIndex(s: string, l: string, j: int)
    requires |l| <= |s| && l == s[|s| - |l|..] && |s| - |l| <= j < |s|
    ensures l[j - (|s| - |l|)] == s[j]
  {
  }

  /** Right-stripping a suffix of `s` that starts inside `RStrip(s)` cuts it at
      the same place. */
  lemma RStripOfSuffix(s: string, l: string)
    requires |l| <= |s| && l == s[|s| - |l|..]
    requires |s| - |l| < |RStrip(s)|
    ensures RStrip(l) == l[..|RStrip(s)| - (|s| - |l|)]
    decreases |s|
  {
    if s != [] && IsSpace(s[|s| - 1]) {
      assert l != [];
      assert l[..|l| - 1] == s[..|s| - 1][|s| - 1 - (|l| - 1)..];
      RStripOfSuffix(s[..|s| - 1], l[..|l| - 1]);
    }
  }

  /** `a` occurs as a contiguous piece of `b`. */
  predicate IsInfix(a: string, b: string) {
    exists i | 0 <= i <= |b| - |a| :: IsAt(a, b, i)
  }

  /** `a` occurs in `b` starting at index `i`. */
  predicate IsAt(a: string, b: string, i: int) {
    0 <= i <= |b| - |a| && b[i..i + |a|] == a
  }

  /** `s.endswith(suffix)`. */
  predicate EndsWith(s: string, suffix: string) {
    |suffix| <= |s| && s[|s| - |suffix|..] == suffix
  }

  /** Each of three concatenated strings can be found where it was put. */
  lemma ThreeParts(a: string, b: string, c: string)
    ensures (a + b + c)[..|a|] == a
    ensures IsAt(b, a + b + c, |a|)
    ensures EndsWith(a + b + c, c)
  {
    assert (a + b + c)[|a|..|a| + |b|] == b;
    assert (a + b + c)[|a + b|..] == c;
  }

  /** The longest prefix of `s` holding no whitespace. */
  function TakeWord(s: string): (w: string)
    ensures |w| <= |s| && w == s[..|w|]
    ensures NoSpace(w)
    ensures |w| == |s| || IsSpace(s[|w|])
  {
    if s == [] || IsSpace(s[0]) then [] else [s[0]] + TakeWord(s[1..])
  }

  /** `s.split()`: the maximal runs of non-whitespace characters, in order. */
  function Words(s: string): (ws: seq<string>)
    ensures forall i :: 0 <= i < |ws| ==> ws[i] != [] && NoSpace(ws[i])
    decreases |s|
  {
    var t := LStrip(s);
    if t == [] then []
    else
      var w := TakeWord(t);
      assert w != [] by { assert !IsSpace(t[0]); }
      var rest := Words(t[|w|..]);
      WordsCons(w, rest);
      [w] + rest
  }

  lemma WordsCons(w: string, rest: seq<string>)
    requires w != [] && NoSpace(w)
    requires forall i :: 0 <= i < |rest| ==> rest[i] != [] && NoSpace(rest[i])
    ensures forall i :: 0 <= i < |[w] + rest| ==> ([w] + rest)[i] != [] && NoSpace(([w] + rest)[i])
  {
    forall i | 0 <= i < |[w] + rest|
      ensures ([w] + rest)[i] != [] && NoSpace(([w] + rest)[i])
    {
      if i > 0 {
        assert ([w] + rest)[i] == rest[i - 1];
      }
    }
  }

  /** `s.split()` is empty exactly when `s` is blank. */
  lemma WordsEmptyIffBlank(s: string)
    ensures Words(s) == [] <==> AllSpace(s)
  {
    var t := LStrip(s);
    if t != [] {
      assert s[|s| - |t|] == t[0];
    }
  }

  /** `sep.join(xs)`. */
  function Join(sep: string, xs: seq<string>): string
  {
    if |xs| == 0 then ""
    else if |xs| == 1 then xs[0]
    else Join(sep, xs[..|xs| - 1]) + sep + xs[|xs| - 1]
  }

  /** `"".join(xs)`. */
  function Concat(xs: seq<string>): string
  {
    if xs == [] then "" else Concat(xs[..|xs| - 1]) + xs[|xs| - 1]
  }

  /** The sum of the lengths of the strings in `xs`. */
  function TotalLength(xs: seq<string>): nat
  {
    if xs == [] then 0 else TotalLength(xs[..|xs| - 1]) + |xs[|xs| - 1]|
  }

  /** Joining two non-empty lists puts exactly one separator between the halves. */
  lemma {:induction false} JoinAppend(sep: string, a: seq<string>, b: seq<string>)
    requires a != [] && b != []
    ensures Join(sep, a + b) == Join(sep, a) + sep + Join(sep, b)
    decreases |b|
  {
    if |b| == 1 {
      assert (a + b)[..|a + b| - 1] == a;
    } else {
      var b' := b[..|b| - 1];
      assert (a + b)[..|a + b| - 1] == a + b';
      JoinAppend(sep, a, b');
    }
  }

  /** The length of a join: the parts plus one separator between each pair. */
  lemma {:induction false} JoinLength(sep: string, xs: seq<string>)
    requires xs != []
    ensures |Join(sep, xs)| == TotalLength(xs) + |sep| * (|xs| - 1)
    decreases |xs|
  {
    if |xs| > 1 {
      JoinLength(sep, xs[..|xs| - 1]);
    }
  }

  /** Concatenation distributes over appending lists. */
  lemma {:induction false} ConcatAppend(a: seq<string>, b: seq<string>)
    ensures Concat(a + b) == Concat(a) + Concat(b)
    decreases |b|
  {
    if b != [] {
      var b' := b[..|b| - 1];
      assert (a + b)[..|a + b| - 1] == a + b';
      ConcatAppend(a, b');
    } else {
      assert a + b == a;
    }
  }

  /** A concatenation is as long as its parts together. */
  lemma {:induction false} ConcatLength(xs: seq<string>)
    ensures |Concat(xs)| == TotalLength(xs)
    decreases |xs|
  {
    if xs != [] {
      ConcatLength(xs[..|xs| - 1]);
    }
  }

  /** The non-whitespace characters of `s`, in order. */
  function Visible(s: string): string
  {
    if s == [] then []
    else Visible(s[..|s| - 1]) + (if IsSpace(s[|s| - 1]) then [] else [s[|s| - 1]])
  }

  lemma {:induction false} VisibleAppend(a: string, b: string)
    ensures Visible(a + b) == Visible(a) + Visible(b)
    decreases |b|
  {
    if b == [] {
      assert a + b == a;
    } else {
      assert (a + b)[..|a + b| - 1] == a + b[..|b| - 1];
      VisibleAppend(a, b[..|b| - 1]);
    }
  }

  lemma {:induction false} VisibleOfBlank(s: string)
    requires AllSpace(s)
    ensures Visible(s) == []
    decreases |s|
  {
    if s != [] {
      VisibleOfBlank(s[..|s| - 1]);
    }
  }

  /** Stripping removes only whitespace. */
  lemma VisibleStrip(s: string)
    ensures Visible(Strip(s)) == Visible(s)
  {
    VisibleLStrip(s);
    VisibleRStrip(LStrip(s));
  }

  lemma VisibleLStrip(s: string)
    ensures Visible(LStrip(s)) == Visible(s)
  {
    var l := LStrip(s);
    var p := s[..|s| - |l|];
    assert s == p + l;
    VisibleAppend(p, l);
    VisibleOfBlank(p);
  }

  lemma VisibleRStrip(s: string)
    ensures Visible(RStrip(s)) == Visible(s)
  {
    var r := RStrip(s);
    var q := s[|r|..];
    assert s == r + q;
    VisibleAppend(r, q);
    VisibleOfBlank(q);
  }
}
