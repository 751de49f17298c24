/**
  The text shaping of `Logger`: the debug and timestamp flags, the
  timestamp prefix, and what `print_user_input` makes of a single string —
  the terminal width it works with, the length it measures once colour
  codes are removed, the truncated form of an interim (carriage-return)
  update and the word-wrapped lines of a final one. Printing, colours and
  the clock are left out: the formatted clock reading, the environment
  variable and the detected width are parameters.
 */
module Logger {
  import opened Common
  import opened Text

  /** The class-level flags `_timestamps_enabled` and `_debug_enabled`. */
  datatype Flags = Flags(timestamps: bool, debug: bool)

  /** Both flags start off. */
  const InitialFlags: Flags := Flags(false, false)

  function EnableTimestamps(f: Flags): (r: Flags)
    ensures r.timestamps && r.debug == f.debug
  {
    f.(timestamps := true)
  }

  function DisableTimestamps(f: Flags): (r: Flags)
    ensures !r.timestamps && r.debug == f.debug
  {
    f.(timestamps := false)
  }

  function EnableDebug(f: Flags): (r: Flags)
    ensures r.debug && r.timestamps == f.timestamps
  {
    f.(debug := true)
  }

  function DisableDebug(f: Flags): (r: Flags)
    ensures !r.debug && r.timestamps == f.timestamps
  {
    f.(debug := false)
  }

  /** `_get_timestamp`: `[<clock>] ` when timestamps are on, else nothing.
      `clock` is the reading formatted as hours:minutes:seconds.milliseconds. */
  function TimestampPrefix(f: Flags, clock: string): (p: string)
    ensures !f.timestamps ==> p == ""
    ensures f.timestamps ==> p == "[" + clock + "] "
  {
    if f.timestamps then "[" + clock + "] " else ""
  }

  /** The levels that carry the timestamp prefix. */
  datatype Level = Error | Warning | Info | Debug | Perf

  /** The text a levelled print writes, colours aside: the timestamp prefix
      and the message; nothing at all for a debug message while debug is off. */
  function LogLine(f: Flags, level: Level, clock: string, message: string): (out: Option<string>)
    ensures out.None? <==> level == Debug && !f.debug
    ensures out.Some? ==> out.value == TimestampPrefix(f, clock) + message
  {
    if level == Debug && !f.debug then None
    else Some(TimestampPrefix(f, clock) + message)
  }

  /** Turning debug output on and off again leaves nothing printed for a
      debug message, whatever the timestamp flag. */
  lemma DebugSilentAfterDisable(f: Flags, clock: string, message: string)
    ensures LogLine(DisableDebug(EnableDebug(f)), Debug, clock, message) == None
    ensures LogLine(EnableDebug(f), Debug, clock, message).Some?
    ensures LogLine(DisableTimestamps(f), Info, clock, message) == Some(message)
  {
    assert "" + message == message;
  }

  predicate IsDigit(c: char) {
    '0' <= c <= '9'
  }

  predicate AllDigits(s: string) {
    forall i :: 0 <= i < |s| ==> IsDigit(s[i])
  }

  /** The value of a string of decimal digits. */
  function DigitsValue(s: string): nat
    requires AllDigits(s)
  {
    if s == [] then 0
    else DigitsValue(s[..|s| - 1]) * 10 + (s[|s| - 1] as int - '0' as int)
  }

  /** `int(s)` for a decimal string: surrounding whitespace is ignored, then
      an optional sign and at least one digit; anything else raises
      ValueError, modelled as None. */
  function ParseInt(s: string): (r: Option<int>)
    ensures r.Some? ==> Strip(s) != ""
  {
    ParseStripped(Strip(s))
  }

  /** `int` once the surrounding whitespace is gone. */
  function ParseStripped(t: string): (r: Option<int>)
    ensures r.Some? ==> t != ""
  {
    if t == [] then None
    else
      var neg := t[0] == '-';
      var digits := if t[0] == '-' || t[0] == '+' then t[1..] else t;
      if digits != [] && AllDigits(digits) then
        Some(if neg then -(DigitsValue(digits) as int) else DigitsValue(digits))
      else None
  }

  /** The decimal digits of a natural number, without leading zeros. */
  function ShowNat(n: nat): (s: string)
    ensures s != [] && AllDigits(s)
    ensures Stripped(s)
  {
    if n < 10 then ['0' + n as char]
    else ShowNat(n / 10) + ['0' + (n % 10) as char]
  }

  /** `str(n)`. */
  function ShowInt(n: int): (s: string)
    ensures s != [] && Stripped(s)
  {
    if n < 0 then
      var s := "-" + ShowNat(-n);
      assert s[|s| - 1] == ShowNat(-n)[|ShowNat(-n)| - 1];
      s
    else ShowNat(n)
  }

  lemma {:induction false} DigitsOfShowNat(n: nat)
    ensures DigitsValue(ShowNat(n)) == n
    decreases n
  {
    if n >= 10 {
      DigitsOfShowNat(n / 10);
      var s := ShowNat(n);
      assert s[..|s| - 1] == ShowNat(n / 10);
    }
  }

  /** `int(str(n)) == n`: every integer written in decimal parses back, also
      with whitespace around it. */
  lemma ParseShowInt(n: int, pad: string)
    requires AllSpace(pad)
    ensures ParseInt(ShowInt(n)) == Some(n)
    ensures ParseInt(pad + ShowInt(n) + pad) == Some(n)
  {
    var s := ShowInt(n);
    ParseShown(n);
    StripOfStripped(s);
    StripPadded(pad, s);
  }

  /** The digits of `str(n)` read back as `n`. */
  lemma ParseShown(n: int)
    ensures ParseStripped(ShowInt(n)) == Some(n)
  {
    if n < 0 {
      var s := "-" + ShowNat(-n);
      assert s[1..] == ShowNat(-n);
      DigitsOfShowNat(-n);
    } else {
      var s := ShowNat(n);
      assert s[0] != '-' && s[0] != '+';
      DigitsOfShowNat(n);
    }
  }

  /** Whitespace around a string with no whitespace at either end is what
      `strip` removes. */
  lemma StripPadded(pad: string, s: string)
    requires AllSpace(pad) && s != [] && Stripped(s)
    ensures Strip(pad + s + pad) == Strip(s)
  {
    assert pad + s + pad == pad + (s + pad);
    assert (s + pad)[0] == s[0];
    LStripPadded(pad, s + pad);
    RStripPadded(s, pad);
    StripOfStripped(s);
  }

  lemma {:induction false} LStripPadded(pad: string, s: string)
    requires AllSpace(pad) && s != [] && !IsSpace(s[0])
    ensures LStrip(pad + s) == s
    decreases |pad|
  {
    if pad != [] {
      LStripPadded(pad[1..], s);
      PadFront(pad, s);
    } else {
      assert pad + s == s;
    }
  }

  /** Dropping one leading space of the padding. */
  lemma PadFront(pad: string, s: string)
    requires AllSpace(pad) && pad != []
    ensures (pad + s)[1..] == pad[1..] + s && IsSpace((pad + s)[0]) && AllSpace(pad[1..])
  {
    assert (pad + s)[1..] == pad[1..] + s;
    assert forall i :: 0 <= i < |pad[1..]| ==> pad[1..][i] == pad[i + 1];
  }

  lemma {:induction false} RStripPadded(s: string, pad: string)
    requires AllSpace(pad) && s != [] && !IsSpace(s[|s| - 1])
    ensures RStrip(s + pad) == s
    decreases |pad|
  {
    if pad != [] {
      RStripPadded(s, pad[..|pad| - 1]);
      PadBack(s, pad);
    } else {
      assert s + pad == s;
    }
  }

  /** Dropping one trailing space of the padding. */
  lemma PadBack(s: string, pad: string)
    requires AllSpace(pad) && pad != []
    ensures var t := s + pad;
      t[..|t| - 1] == s + pad[..|pad| - 1] && IsSpace(t[|t| - 1]) && AllSpace(pad[..|pad| - 1])
  {
    assert (s + pad)[..|s + pad| - 1] == s + pad[..|pad| - 1];
  }

  /** The fallback width when the terminal size cannot be read. */
  const DefaultWidth: int := 80

  /** The width `print_user_input` works with: `GANGLIA_TERMINAL_WIDTH` when
      it is set, non-empty and an integer; otherwise the detected terminal
      width (None when detecting it raised), otherwise 80. */
  function TerminalWidth(env: Option<string>, detected: Option<int>): (w: int)
    ensures env.Some? && ParseInt(env.value).Some? ==> w == ParseInt(env.value).value
    ensures (env.None? || ParseInt(env.value).None?) && detected.Some? ==> w == detected.value
    ensures (env.None? || ParseInt(env.value).None?) && detected.None? ==> w == DefaultWidth
  {
    var fromEnv := if env.Some? && env.value != "" then ParseInt(env.value) else None;
    match fromEnv
    case Some(w) => w
    case None => detected.GetOr(DefaultWidth)
  }

  const Esc: char := '\U{1B}'

  /** A character `[0-9;]` matches. */
  predicate IsParam(c: char) {
    IsDigit(c) || c == ';'
  }

  predicate AllParams(s: string) {
    forall i :: 0 <= i < |s| ==> IsParam(s[i])
  }

  /** The length of the longest prefix of `s` made of `[0-9;]`. */
  function ParamRun(s: string): (n: nat)
    ensures n <= |s| && AllParams(s[..n])
    ensures n < |s| ==> !IsParam(s[n])
  {
    if s == [] || !IsParam(s[0]) then 0
    else
      var n := 1 + ParamRun(s[1..]);
      assert s[..n] == [s[0]] + s[1..][..n - 1];
      n
  }

  /** The length of the match of `\033\[[0-9;]*[mK]` at the start of `s`,
      if there is one. The parameter run cannot contain `m` or `K`, so the
      greedy run decides the match. */
  function AnsiMatch(s: string): (r: Option<nat>)
    ensures r.Some? ==> 3 <= r.value <= |s| && s[0] == Esc
  {
    if |s| >= 2 && s[0] == Esc && s[1] == '[' then
      var n := ParamRun(s[2..]);
      if 2 + n < |s| && (s[2 + n] == 'm' || s[2 + n] == 'K') then Some(3 + n) else None
    else None
  }

  /** `re.sub(r"\033\[[0-9;]*[mK]", "", s)`: scanning left to right, each
      match is dropped and every other character kept. */
  function StripAnsi(s: string): (r: string)
    ensures |r| <= |s|
    decreases |s|
  {
    if s == [] then []
    else match AnsiMatch(s)
      case Some(n) => StripAnsi(s[n..])
      case None => [s[0]] + StripAnsi(s[1..])
  }

  /** `re.sub(r"\r", "", s)`. */
  function RemoveCarriageReturns(s: string): (r: string)
    ensures |r| <= |s|
    ensures forall i :: 0 <= i < |r| ==> r[i] != '\r'
  {
    if s == [] then []
    else
      var rest := RemoveCarriageReturns(s[1..]);
      var r := if s[0] == '\r' then rest else [s[0]] + rest;
      assert forall i | 0 < i < |[s[0]] + rest| :: ([s[0]] + rest)[i] == rest[i - 1];
      r
  }

  /** The text whose length `print_user_input` measures. */
  function CleanText(text: string): (clean: string)
    ensures |clean| <= |text|
    ensures forall i :: 0 <= i < |clean| ==> clean[i] != '\r'
  {
    RemoveCarriageReturns(StripAnsi(text))
  }

  predicate NoEscape(s: string) {
    forall i :: 0 <= i < |s| ==> s[i] != Esc
  }

  predicate NoControl(s: string) {
    forall i :: 0 <= i < |s| ==> s[i] != Esc && s[i] != '\r'
  }

  /** Text free of escapes passes the ANSI removal unchanged, and so does
      whatever follows it. */
  lemma {:induction false} StripAnsiPlainPrefix(a: string, b: string)
    requires NoEscape(a)
    ensures StripAnsi(a + b) == a + StripAnsi(b)
    decreases |a|
  {
    if a != [] {
      assert (a + b)[1..] == a[1..] + b;
      assert AnsiMatch(a + b).None?;
      StripAnsiPlainPrefix(a[1..], b);
      assert a == [a[0]] + a[1..];
    } else {
      assert a + b == b;
    }
  }

  /** A colour code `ESC [ <params> m` (or the clear-line `... K`) in front of
      text is removed entirely. */
  lemma StripAnsiCode(params: string, final: char, rest: string)
    requires AllParams(params) && (final == 'm' || final == 'K')
    ensures StripAnsi([Esc, '['] + params + [final] + rest) == StripAnsi(rest)
  {
    var s := [Esc, '['] + params + [final] + rest;
    assert s[2..] == params + ([final] + rest);
    ParamRunOf(params, [final] + rest);
    assert s[2 + |params|] == final;
    assert s[3 + |params|..] == rest;
  }

  lemma {:induction false} ParamRunOf(params: string, rest: string)
    requires AllParams(params) && (rest == [] || !IsParam(rest[0]))
    ensures ParamRun(params + rest) == |params|
    decreases |params|
  {
    if params != [] {
      assert (params + rest)[1..] == params[1..] + rest;
      ParamRunOf(params[1..], rest);
    } else {
      assert params + rest == rest;
    }
  }

  lemma {:induction false} RemoveCarriageReturnsPlain(s: string)
    requires NoControl(s)
    ensures RemoveCarriageReturns(s) == s
    decreases |s|
  {
    if s != [] {
      RemoveCarriageReturnsPlain(s[1..]);
    }
  }

  /** The measured text of a coloured message is the message itself: for
      text without escapes or carriage returns, wrapping it in a colour code
      and a reset code does not change its measured length. */
  lemma CleanColoredText(color: string, text: string)
    requires AllParams(color) && NoControl(text)
    ensures CleanText([Esc, '['] + color + "m" + text + [Esc, '[', '0', 'm']) == text
    ensures CleanText(text) == text
  {
    var reset := [Esc, '[', '0', 'm'];
    assert [Esc, '['] + color + "m" + text + reset == [Esc, '['] + color + ['m'] + (text + reset);
    StripAnsiCode(color, 'm', text + reset);
    StripAnsiPlainPrefix(text, reset);
    assert reset == [Esc, '['] + "0" + ['m'] + [];
    StripAnsiCode("0", 'm', []);
    assert text + [] == text;
    RemoveCarriageReturnsPlain(text);
    StripAnsiPlainPrefix(text, []);
  }

  /** Python's `s[a:]`: a negative start counts from the end (clamped at
      the front), a non-negative one is clamped at the end. */
  function PySliceFrom(s: string, a: int): (r: string)
    ensures |r| <= |s| && r == s[|s| - |r|..]
  {
    if a < 0 then s[(if |s| + a < 0 then 0 else |s| + a)..]
    else s[(if a > |s| then |s| else a)..]
  }

  /** The interim line for a measured text longer than width-5:
      `"..." + clean[-(width - 8):]`. */
  function Truncate(clean: string, width: int): string {
    "..." + PySliceFrom(clean, -(width - 8))
  }

  /** For a width above 8 the interim line is `...` and the last width-8
      characters, width-5 in all. At exactly 8 the slice `[-0:]` is the whole
      text, so nothing is cut; below 8 the slice drops the first 8-width
      characters instead of keeping the last ones. */
  lemma TruncateShape(clean: string, width: int)
    requires |clean| > width - 5
    ensures width > 8 ==>
      Truncate(clean, width) == "..." + clean[|clean| - (width - 8)..]
      && |Truncate(clean, width)| == width - 5
    ensures width == 8 ==> Truncate(clean, width) == "..." + clean
    ensures width < 8 ==>
      Truncate(clean, width) == "..." + clean[(if 8 - width > |clean| then |clean| else 8 - width)..]
  {
  }

  /** The length of a line made of the words `g` joined by single spaces. */
  function LineLength(g: seq<string>): int {
    TotalLength(g) + |g| - 1
  }

  /** A line that fits, or a single word (which may not). */
  predicate Fits(g: seq<string>, limit: int) {
    |g| == 1 || LineLength(g) <= limit
  }

  /** Adding `next` to the line would exceed the limit. */
  predicate Full(g: seq<string>, next: string, limit: int) {
    LineLength(g) + 1 + |next| > limit
  }

  /** The words of the groups, in order. */
  function Flatten(gs: seq<seq<string>>): seq<string> {
    if gs == [] then [] else Flatten(gs[..|gs| - 1]) + gs[|gs| - 1]
  }

  predicate WellGrouped(gs: seq<seq<string>>, limit: int) {
    && (forall i :: 0 <= i < |gs| ==> gs[i] != [] && Fits(gs[i], limit))
    && (forall i :: 0 <= i < |gs| - 1 ==> Full(gs[i], gs[i + 1][0], limit))
  }

  /** The greedy loop of the final-output wrap. A word joins the current
      line when the line with a space and the word stays within `limit`;
      otherwise the current line is closed and the word starts the next one.
      The groups hold every word once, in order; each line fits unless it is
      one over-long word; and each line is full: its successor's first word
      would not have fitted on it. */
  method WrapGroups(words: seq<string>, limit: int) returns (groups: seq<seq<string>>)
    ensures Flatten(groups) == words
    ensures WellGrouped(groups, limit)
  {
    groups := [];
    var current: seq<string> := [];
    var currentLength := 0;
    var i := 0;
    while i < |words|
      invariant Wrapping(words, i, groups, current, currentLength, limit)
    {
      var word := words[i];
      var wordLength := |word| + (if current != [] then 1 else 0);
      if currentLength + wordLength <= limit {
        AddWord(words, i, groups, current, currentLength, limit);
        current := current + [word];
        currentLength := currentLength + wordLength;
      } else {
        BreakLine(words, i, groups, current, currentLength, limit);
        if current != [] {
          groups := groups + [current];
        }
        current := [word];
        currentLength := |word|;
      }
      i := i + 1;
    }
    FinishLines(words, groups, current, currentLength, limit);
    if current != [] {
      groups := groups + [current];
    }
  }

  /** The state of the greedy loop after `i` words: the closed lines and the
      open one hold those words in order, the open line's length is tracked,
      and every closed line is well formed and full. */
  predicate Wrapping(words: seq<string>, i: int, groups: seq<seq<string>>, current: seq<string>,
                     currentLength: int, limit: int) {
    && 0 <= i <= |words|
    && Flatten(groups) + current == words[..i]
    && (current == [] <==> i == 0)
    && (current == [] ==> currentLength == 0)
    && (current != [] ==> Fits(current, limit) && currentLength == LineLength(current))
    && WellGrouped(groups, limit)
    && (groups != [] ==> current != [] && Full(groups[|groups| - 1], current[0], limit))
  }

  /** The next word fits and joins the open line. */
  lemma AddWord(words: seq<string>, i: int, groups: seq<seq<string>>, current: seq<string>,
                currentLength: int, limit: int)
    requires Wrapping(words, i, groups, current, currentLength, limit) && i < |words|
    requires currentLength + |words[i]| + (if current != [] then 1 else 0) <= limit
    ensures Wrapping(words, i + 1, groups, current + [words[i]],
                     currentLength + |words[i]| + (if current != [] then 1 else 0), limit)
  {
    var word := words[i];
    assert words[..i + 1] == words[..i] + [word];
    ExtendLine(current, word);
    AppendAssoc(Flatten(groups), current, [word]);
  }

  /** The next word does not fit: the open line (if any) is closed and the
      word opens the next one. */
  lemma BreakLine(words: seq<string>, i: int, groups: seq<seq<string>>, current: seq<string>,
                  currentLength: int, limit: int)
    requires Wrapping(words, i, groups, current, currentLength, limit) && i < |words|
    requires currentLength + |words[i]| + (if current != [] then 1 else 0) > limit
    ensures var gs := if current != [] then groups + [current] else groups;
      Wrapping(words, i + 1, gs, [words[i]], |words[i]|, limit)
  {
    assert words[..i + 1] == words[..i] + [words[i]];
    SingleWordLine(words[i]);
    if current != [] {
      BreakOpenLine(words[..i], words[i], groups, current, limit);
    } else {
      assert Flatten(groups) == [];
    }
  }

  lemma SingleWordLine(word: string)
    ensures LineLength([word]) == |word|
  {
    assert [word][..0] == [];
    assert TotalLength([word]) == TotalLength([]) + |word|;
  }

  /** Closing the open line before a word that does not fit on it. */
  lemma BreakOpenLine(done: seq<string>, word: string, groups: seq<seq<string>>, current: seq<string>, limit: int)
    requires Flatten(groups) + current == done
    requires WellGrouped(groups, limit)
    requires current != [] && Fits(current, limit)
    requires groups != [] ==> Full(groups[|groups| - 1], current[0], limit)
    ensures Flatten(groups + [current]) + [word] == done + [word]
    ensures WellGrouped(groups + [current], limit)
  {
    CloseLine(groups, current, limit);
  }

  /** After the last word the open line (if any) is closed. */
  lemma FinishLines(words: seq<string>, groups: seq<seq<string>>, current: seq<string>,
                    currentLength: int, limit: int)
    requires Wrapping(words, |words|, groups, current, currentLength, limit)
    ensures var gs := if current != [] then groups + [current] else groups;
      Flatten(gs) == words && WellGrouped(gs, limit)
  {
    assert words[..|words|] == words;
    if current != [] {
      CloseLine(groups, current, limit);
    } else {
      assert Flatten(groups) + current == Flatten(groups);
    }
  }

  /** Adding a word to a line adds its length and one space (none for the
      first word). */
  lemma ExtendLine(current: seq<string>, word: string)
    ensures (current + [word])[0] == (if current == [] then word else current[0])
    ensures LineLength(current + [word]) == LineLength(current) + |word| + 1
    ensures Flatten([]) == []
    ensures current + [word] != [] && (current + [word])[..|current|] == current
  {
    assert (current + [word])[..|current|] == current;
  }

  /** Closing a full, fitting line keeps the grouping well formed. */
  lemma CloseLine(groups: seq<seq<string>>, current: seq<string>, limit: int)
    requires WellGrouped(groups, limit)
    requires current != [] && Fits(current, limit)
    requires groups != [] ==> Full(groups[|groups| - 1], current[0], limit)
    ensures WellGrouped(groups + [current], limit)
    ensures Flatten(groups + [current]) == Flatten(groups) + current
  {
    assert (groups + [current])[..|groups|] == groups;
    ClosedLinesFit(groups, current, limit);
    ClosedLinesFull(groups, current, limit);
  }

  lemma ClosedLinesFit(groups: seq<seq<string>>, current: seq<string>, limit: int)
    requires forall i :: 0 <= i < |groups| ==> groups[i] != [] && Fits(groups[i], limit)
    requires current != [] && Fits(current, limit)
    ensures forall i :: 0 <= i < |groups + [current]| ==>
      (groups + [current])[i] != [] && Fits((groups + [current])[i], limit)
  {
    forall i | 0 <= i < |groups + [current]|
      ensures (groups + [current])[i] != [] && Fits((groups + [current])[i], limit)
    {
      if i < |groups| {
        assert (groups + [current])[i] == groups[i];
      }
    }
  }

  lemma ClosedLinesFull(groups: seq<seq<string>>, current: seq<string>, limit: int)
    requires forall i :: 0 <= i < |groups| ==> groups[i] != []
    requires forall i :: 0 <= i < |groups| - 1 ==> Full(groups[i], groups[i + 1][0], limit)
    requires current != []
    requires groups != [] ==> Full(groups[|groups| - 1], current[0], limit)
    ensures forall i :: 0 <= i < |groups + [current]| - 1 ==>
      Full((groups + [current])[i], (groups + [current])[i + 1][0], limit)
  {
    var gs := groups + [current];
    forall i | 0 <= i < |gs| - 1
      ensures Full(gs[i], gs[i + 1][0], limit)
    {
      assert gs[i] == groups[i];
      if i < |groups| - 1 {
        assert gs[i + 1] == groups[i + 1];
      } else {
        assert gs[i + 1] == current;
      }
    }
  }

  /** The printed lines: each group's words joined by single spaces. */
  function JoinGroups(gs: seq<seq<string>>): (lines: seq<string>)
    ensures |lines| == |gs|
    ensures forall i :: 0 <= i < |gs| ==> lines[i] == Join(" ", gs[i])
  {
    seq(|gs|, i requires 0 <= i < |gs| => Join(" ", gs[i]))
  }

  /** Joining the lines with spaces gives the words joined with spaces. */
  lemma {:induction false} JoinFlatten(gs: seq<seq<string>>)
    requires forall i :: 0 <= i < |gs| ==> gs[i] != []
    ensures Join(" ", JoinGroups(gs)) == Join(" ", Flatten(gs))
    ensures gs != [] ==> Flatten(gs) != []
    decreases |gs|
  {
    if gs != [] {
      var init := gs[..|gs| - 1];
      var last := gs[|gs| - 1];
      JoinFlatten(init);
      assert JoinGroups(gs)[..|gs| - 1] == JoinGroups(init);
      if init != [] {
        JoinAppend(" ", Flatten(init), last);
      } else {
        assert Flatten(gs) == last;
      }
    }
  }

  /** A line of non-empty words is non-empty and as long as `LineLength` says. */
  lemma LineShape(g: seq<string>)
    requires g != [] && forall i :: 0 <= i < |g| ==> g[i] != []
    ensures |Join(" ", g)| == LineLength(g)
    ensures Join(" ", g) != []
    ensures |g| == 1 ==> Join(" ", g) == g[0]
  {
    JoinLength(" ", g);
  }

  /** Every word of a grouping is a word of some group. */
  lemma {:induction false} FlattenMembers(gs: seq<seq<string>>, i: int, j: int)
    requires 0 <= i < |gs| && 0 <= j < |gs[i]|
    ensures gs[i][j] in Flatten(gs)
    decreases |gs|
  {
    if i < |gs| - 1 {
      FlattenMembers(gs[..|gs| - 1], i, j);
    }
  }

  /** The word wrap of `print_user_input`: the words of the text broken into
      lines of at most `limit` characters. The lines are non-empty, joining
      them with single spaces gives back the words joined the same way, and
      a line is longer than `limit` only when it is a single word. */
  method WrapWords(words: seq<string>, limit: int) returns (lines: seq<string>)
    requires forall i :: 0 <= i < |words| ==> words[i] != []
    ensures forall i :: 0 <= i < |lines| ==> lines[i] != []
    ensures Join(" ", lines) == Join(" ", words)
    ensures forall i :: 0 <= i < |lines| ==> |lines[i]| <= limit || lines[i] in words
    ensures words != [] <==> lines != []
  {
    var groups := WrapGroups(words, limit);
    lines := JoinGroups(groups);
    forall i | 0 <= i < |groups|
      ensures forall j :: 0 <= j < |groups[i]| ==> groups[i][j] != []
    {
      forall j | 0 <= j < |groups[i]|
        ensures groups[i][j] != []
      {
        FlattenMembers(groups, i, j);
      }
    }
    JoinFlatten(groups);
    forall i | 0 <= i < |lines|
      ensures lines[i] != [] && (|lines[i]| <= limit || lines[i] in words)
    {
      LineShape(groups[i]);
      if |groups[i]| == 1 {
        FlattenMembers(groups, i, 0);
      }
    }
  }

  /** What `print_user_input` writes for its arguments, colours aside. */
  datatype Shown =
    | Truncated(line: string)       // one interim line, cleared and rewritten
    | Wrapped(lines: seq<string>)   // the final text, one line per print
    | AsGiven                       // the arguments printed unchanged

  /** `print_user_input`. `single` is the text when the call has exactly one
      string argument; `end` is the `end` keyword (default newline).
      - An interim update (`end` of `\r` or empty) whose measured text is
        longer than width-5 becomes `...` and the end of the text.
      - A final update whose measured text is longer than width-2 is wrapped
        to width-2.
      - Anything else is printed as given. */
  method PrintUserInput(single: Option<string>, end: string, width: int) returns (out: Shown)
    ensures single.None? ==> out == AsGiven
    ensures single.Some? && (end == "\r" || end == "") ==>
      var clean := CleanText(single.value);
      out == if |clean| > width - 5 then Truncated(Truncate(clean, width)) else AsGiven
    ensures single.Some? && !(end == "\r" || end == "") ==>
      var clean := CleanText(single.value);
      && (out.Wrapped? <==> |clean| > width - 2)
      && (!out.Wrapped? ==> out == AsGiven)
      && (out.Wrapped? ==>
            && Join(" ", out.lines) == Join(" ", Words(clean))
            && (forall i :: 0 <= i < |out.lines| ==> out.lines[i] != [])
            && (forall i :: 0 <= i < |out.lines| ==>
                  |out.lines[i]| <= width - 2 || out.lines[i] in Words(clean)))
  {
    if single.None? {
      return AsGiven;
    }
    var clean := CleanText(single.value);
    if end == "\r" || end == "" {
      if |clean| > width - 5 {
        return Truncated(Truncate(clean, width));
      }
      return AsGiven;
    }
    if |clean| > width - 2 {
      var lines := WrapWords(Words(clean), width - 2);
      return Wrapped(lines);
    }
    out := AsGiven;
  }
}
