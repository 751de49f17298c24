/**
  The text handling shared by the text-to-speech back ends (`TextToSpeech`):
  `split_text`, which cuts a reply into sentence matches of `[^.!?]*[.!?]`
  and then into stripped slices of at most `max_length` characters, and the
  `ffplay` command line chosen by `prepare_playback`.
 */
module BaseTts {
  import opened Common
  import opened Text

  /** The `(success, file_path)` pair every conversion returns. */
  datatype Speech = Speech(ok: bool, path: Option<string>)

  /** `(False, None)`. */
  const Failed: Speech := Speech(false, None)

  /** The outcome of a call that may let an exception escape. */
  datatype Call<T> = Done(value: T) | Threw

  predicate IsTerminator(c: char) {
    c == '.' || c == '!' || c == '?'
  }

  predicate NoTerminator(s: string) {
    forall i :: 0 <= i < |s| ==> !IsTerminator(s[i])
  }

  /** One match of `[^.!?]*[.!?]`: characters other than `. ! ?`, then one of them. */
  predicate IsSentence(s: string) {
    s != [] && IsTerminator(s[|s| - 1]) && NoTerminator(s[..|s| - 1])
  }

  /** The length of the longest prefix of `s` holding no terminator. */
  function RunLength(s: string): (n: nat)
    ensures n <= |s| && NoTerminator(s[..n])
    ensures n < |s| ==> IsTerminator(s[n])
  {
    if s == [] || IsTerminator(s[0]) then 0
    else
      var n := 1 + RunLength(s[1..]);
      assert s[..n] == [s[0]] + s[1..][..n - 1];
      n
  }

  /** `re.finditer(r'[^.!?]*[.!?]', text)`: each match runs from the end of
      the previous one up to and including the next terminator; text after
      the last terminator matches nothing. */
  function Sentences(text: string): (ss: seq<string>)
    ensures forall i :: 0 <= i < |ss| ==> IsSentence(ss[i])
    decreases |text|
  {
    var n := RunLength(text);
    if n == |text| then []
    else
      var s := text[..n + 1];
      assert s[..n] == text[..n];
      var rest := Sentences(text[n + 1..]);
      var ss := [s] + rest;
      assert forall i | 1 <= i < |ss| :: ss[i] == rest[i - 1];
      ss
  }

  lemma ConcatCons(x: string, xs: seq<string>)
    ensures Concat([x] + xs) == x + Concat(xs)
  {
    ConcatAppend([x], xs);
    assert [x][..0] == [];
  }

  /** `c` is a prefix of `text` and what follows it holds no terminator. */
  predicate Covers(text: string, c: string) {
    |c| <= |text| && text[..|c|] == c && NoTerminator(text[|c|..])
  }

  /** The matches, laid end to end, are a prefix of the text, and what
      follows them holds no terminator. */
  lemma {:induction false} SentencesCover(text: string)
    ensures Covers(text, Concat(Sentences(text)))
    decreases |text|
  {
    if RunLength(text) == |text| {
      CoverNone(text);
    } else {
      SentencesCover(text[RunLength(text) + 1..]);
      CoverCons(text);
    }
  }

  lemma CoverNone(text: string)
    requires RunLength(text) == |text|
    ensures Covers(text, Concat(Sentences(text)))
  {
    assert Sentences(text) == [];
    assert text[..|text|] == text && text[0..] == text;
  }

  lemma CoverCons(text: string)
    requires RunLength(text) < |text|
    requires var t := text[RunLength(text) + 1..]; Covers(t, Concat(Sentences(t)))
    ensures Covers(text, Concat(Sentences(text)))
  {
    var n := RunLength(text);
    var s := text[..n + 1];
    var t := text[n + 1..];
    SentencesCons(text);
    ConcatCons(s, Sentences(t));
    CoverStep(text, s, t, Concat(Sentences(t)));
  }

  /** The first match, then the matches of what follows it. */
  lemma SentencesCons(text: string)
    requires RunLength(text) < |text|
    ensures Sentences(text) == [text[..RunLength(text) + 1]] + Sentences(text[RunLength(text) + 1..])
  {
  }

  /** A covered prefix of the rest extends to one of the whole text. */
  lemma CoverStep(text: string, s: string, t: string, c: string)
    requires |s| <= |text| && s == text[..|s|] && t == text[|s|..]
    requires Covers(t, c)
    ensures Covers(text, s + c)
  {
    assert text[..|s + c|] == s + t[..|c|];
    assert text[|s + c|..] == t[|c|..];
  }

  /** The matches are the only split of the text into sentences followed by
      terminator-free rest. */
  lemma {:induction false} SentencesUnique(text: string, ss: seq<string>, rest: string)
    requires forall i :: 0 <= i < |ss| ==> IsSentence(ss[i])
    requires NoTerminator(rest) && Concat(ss) + rest == text
    ensures Sentences(text) == ss
    decreases |ss|
  {
    if ss == [] {
      assert text == rest;
      assert text[..|text|] == text;
      assert RunLength(text) == |text|;
    } else {
      var s := ss[0];
      assert ss == [s] + ss[1..];
      ConcatCons(s, ss[1..]);
      assert text == s + (Concat(ss[1..]) + rest);
      var n := RunLength(text);
      RunLengthOfSentence(s, Concat(ss[1..]) + rest);
      assert text[..n + 1] == s;
      assert text[n + 1..] == Concat(ss[1..]) + rest;
      SentencesUnique(text[n + 1..], ss[1..], rest);
    }
  }

  lemma RunLengthOfSentence(s: string, t: string)
    requires IsSentence(s)
    ensures RunLength(s + t) == |s| - 1
  {
    var u := s + t;
    var n := RunLength(u);
    assert u[..|s| - 1] == s[..|s| - 1];
    assert IsTerminator(u[|s| - 1]);
  }

  /** A text with no terminator yields no match at all. */
  lemma NoSentencesIffNoTerminator(text: string)
    ensures Sentences(text) == [] <==> NoTerminator(text)
  {
    if NoTerminator(text) {
      SentencesUnique(text, [], text);
    }
  }

  /** The inner `while` of `split_text` with its final append: while the
      sentence is longer than `max_length`, its first `max_length`
      characters are stripped and emitted and the rest carried on; what is
      left when it fits is stripped and emitted last. */
  function SliceChunks(s: string, maxLength: nat): (cs: seq<string>)
    requires maxLength >= 1
    ensures cs != []
    ensures forall i :: 0 <= i < |cs| ==> |cs[i]| <= maxLength
    decreases |s|
  {
    if |s| > maxLength then
      var rest := SliceChunks(s[maxLength..], maxLength);
      var cs := [Strip(s[..maxLength])] + rest;
      assert forall i | 1 <= i < |cs| :: cs[i] == rest[i - 1];
      cs
    else [Strip(s)]
  }

  /** No string of `cs` has whitespace at either end. */
  predicate AllStripped(cs: seq<string>) {
    forall i :: 0 <= i < |cs| ==> Stripped(cs[i])
  }

  /** Each slice chunk is already stripped. */
  lemma {:induction false} SliceChunksTrimmed(s: string, maxLength: nat)
    requires maxLength >= 1
    ensures AllStripped(SliceChunks(s, maxLength))
    decreases |s|
  {
    if |s| > maxLength {
      SliceChunksTrimmed(s[maxLength..], maxLength);
      SliceChunksCons(s, maxLength);
      TrimmedCons(Strip(s[..maxLength]), SliceChunks(s[maxLength..], maxLength));
    } else {
      assert SliceChunks(s, maxLength) == [Strip(s)];
    }
  }

  /** The chunks of a sentence longer than `max_length`: its first slice
      stripped, then the chunks of the rest. */
  lemma SliceChunksCons(s: string, maxLength: nat)
    requires maxLength >= 1 && |s| > maxLength
    ensures SliceChunks(s, maxLength) == [Strip(s[..maxLength])] + SliceChunks(s[maxLength..], maxLength)
  {
  }

  lemma TrimmedCons(x: string, xs: seq<string>)
    requires Stripped(x) && AllStripped(xs)
    ensures AllStripped([x] + xs)
  {
    forall i | 1 <= i < |[x] + xs|
      ensures Stripped(([x] + xs)[i])
    {
      assert ([x] + xs)[i] == xs[i - 1];
    }
  }

  /** The slice chunks keep every visible character of the sentence, in order. */
  lemma {:induction false} SliceChunksVisible(s: string, maxLength: nat)
    requires maxLength >= 1
    ensures Visible(Concat(SliceChunks(s, maxLength))) == Visible(s)
    decreases |s|
  {
    if |s| > maxLength {
      var head := s[..maxLength];
      var rest := s[maxLength..];
      SliceChunksVisible(rest, maxLength);
      SliceChunksCons(s, maxLength);
      ConcatCons(Strip(head), SliceChunks(rest, maxLength));
      assert s == head + rest;
      VisibleStep(head, rest, Concat(SliceChunks(rest, maxLength)));
    } else {
      assert [Strip(s)][..0] == [];
      assert Concat(SliceChunks(s, maxLength)) == Strip(s);
      VisibleStrip(s);
    }
  }

  /** Stripping the first slice and keeping the visible characters of the
      rest keeps the visible characters of both. */
  lemma VisibleStep(head: string, rest: string, c: string)
    requires Visible(c) == Visible(rest)
    ensures Visible(Strip(head) + c) == Visible(head + rest)
  {
    VisibleAppend(Strip(head), c);
    VisibleStrip(head);
    VisibleAppend(head, rest);
  }

  /** A non-empty sentence gives ceil(|s| / max_length) chunks. */
  lemma {:induction false} SliceChunksCount(s: string, maxLength: nat)
    requires maxLength >= 1 && s != []
    ensures (|SliceChunks(s, maxLength)| - 1) * maxLength < |s| <= |SliceChunks(s, maxLength)| * maxLength
    decreases |s|
  {
    if |s| > maxLength {
      var rest := s[maxLength..];
      SliceChunksCount(rest, maxLength);
      var k := |SliceChunks(rest, maxLength)|;
      assert |SliceChunks(s, maxLength)| == k + 1;
      CountStep(k, maxLength, |rest|);
    }
  }

  lemma CountStep(k: int, m: int, n: int)
    requires (k - 1) * m < n <= k * m
    ensures k * m < n + m <= (k + 1) * m
  {
    assert (k + 1) * m == k * m + m;
    assert (k - 1) * m == k * m - m;
  }

  /** The slices the inner loop cuts a sentence into, before stripping:
      `max_length` characters at a time, the rest last. */
  function RawSlices(s: string, maxLength: nat): seq<string>
    requires maxLength >= 1
    decreases |s|
  {
    if |s| > maxLength then [s[..maxLength]] + RawSlices(s[maxLength..], maxLength)
    else [s]
  }

  /** Before stripping, the slices laid end to end give back the sentence;
      all but the last are exactly `max_length` long, the last is at most
      that; and each emitted chunk is its slice stripped. */
  lemma RawSlicesRebuild(s: string, maxLength: nat)
    requires maxLength >= 1
    ensures var raw := RawSlices(s, maxLength);
      && Concat(raw) == s
      && |raw| == |SliceChunks(s, maxLength)|
      && (forall i :: 0 <= i < |raw| - 1 ==> |raw[i]| == maxLength)
      && |raw[|raw| - 1]| <= maxLength
      && (forall i :: 0 <= i < |raw| ==> SliceChunks(s, maxLength)[i] == Strip(raw[i]))
  {
    RawSlicesConcat(s, maxLength);
    RawSlicesShape(s, maxLength);
  }

  lemma {:induction false} RawSlicesConcat(s: string, maxLength: nat)
    requires maxLength >= 1
    ensures Concat(RawSlices(s, maxLength)) == s
    decreases |s|
  {
    if |s| > maxLength {
      var head, rest := s[..maxLength], s[maxLength..];
      RawSlicesConcat(rest, maxLength);
      ConcatCons(head, RawSlices(rest, maxLength));
      assert s == head + rest;
    } else {
      assert Concat([s]) == Concat([]) + s;
    }
  }

  lemma RawSlicesShape(s: string, maxLength: nat)
    requires maxLength >= 1
    ensures var raw := RawSlices(s, maxLength);
      && |raw| == |SliceChunks(s, maxLength)| && raw != []
      && (forall i :: 0 <= i < |raw| - 1 ==> |raw[i]| == maxLength)
      && |raw[|raw| - 1]| <= maxLength
      && (forall i :: 0 <= i < |raw| ==> SliceChunks(s, maxLength)[i] == Strip(raw[i]))
  {
    RawSlicesLengths(s, maxLength);
    RawSlicesStripped(s, maxLength);
  }

  lemma {:induction false} RawSlicesLengths(s: string, maxLength: nat)
    requires maxLength >= 1
    ensures var raw := RawSlices(s, maxLength);
      && raw != []
      && (forall i :: 0 <= i < |raw| - 1 ==> |raw[i]| == maxLength)
      && |raw[|raw| - 1]| <= maxLength
    decreases |s|
  {
    if |s| > maxLength {
      var rest := s[maxLength..];
      RawSlicesLengths(rest, maxLength);
      var raw := RawSlices(s, maxLength);
      var tail := RawSlices(rest, maxLength);
      assert raw == [s[..maxLength]] + tail;
      assert forall i | 1 <= i < |raw| :: raw[i] == tail[i - 1];
    }
  }

  lemma {:induction false} RawSlicesStripped(s: string, maxLength: nat)
    requires maxLength >= 1
    ensures |RawSlices(s, maxLength)| == |SliceChunks(s, maxLength)|
    ensures forall i :: 0 <= i < |RawSlices(s, maxLength)| ==>
      SliceChunks(s, maxLength)[i] == Strip(RawSlices(s, maxLength)[i])
    decreases |s|
  {
    if |s| > maxLength {
      var head, rest := s[..maxLength], s[maxLength..];
      RawSlicesStripped(rest, maxLength);
      var raw := RawSlices(s, maxLength);
      var tail := RawSlices(rest, maxLength);
      var cs := SliceChunks(s, maxLength);
      var ctail := SliceChunks(rest, maxLength);
      assert raw == [head] + tail;
      assert cs == [Strip(head)] + ctail;
      forall i | 0 <= i < |raw|
        ensures cs[i] == Strip(raw[i])
      {
        if i > 0 {
          assert raw[i] == tail[i - 1] && cs[i] == ctail[i - 1];
        }
      }
    }
  }

  /** The chunks `split_text` emits for a list of sentences, in order. */
  function Chunks(ss: seq<string>, maxLength: int): seq<string>
    requires maxLength >= 1 || ss == []
  {
    if ss == [] then []
    else Chunks(ss[..|ss| - 1], maxLength) + SliceChunks(ss[|ss| - 1], maxLength)
  }

  /** `split_text(text, max_length)`. With `max_length < 1` the source's
      inner loop never ends once a sentence exists, so that case is excluded. */
  function SplitText(text: string, maxLength: int): seq<string>
    requires maxLength >= 1 || NoTerminator(text)
  {
    NoSentencesIffNoTerminator(text);
    Chunks(Sentences(text), maxLength)
  }

  /** Every chunk fits in `max_length` and has no whitespace at either end. */
  predicate Fits(cs: seq<string>, maxLength: nat) {
    forall i :: 0 <= i < |cs| ==> |cs[i]| <= maxLength && Stripped(cs[i])
  }

  lemma {:induction false} ChunksFit(ss: seq<string>, maxLength: nat)
    requires maxLength >= 1
    ensures Fits(Chunks(ss, maxLength), maxLength)
    decreases |ss|
  {
    if ss != [] {
      ChunksFit(ss[..|ss| - 1], maxLength);
      SliceChunksTrimmed(ss[|ss| - 1], maxLength);
      FitsAppend(Chunks(ss[..|ss| - 1], maxLength), SliceChunks(ss[|ss| - 1], maxLength), maxLength);
    }
  }

  lemma FitsAppend(a: seq<string>, b: seq<string>, maxLength: nat)
    requires Fits(a, maxLength) && AllStripped(b)
    requires forall i :: 0 <= i < |b| ==> |b[i]| <= maxLength
    ensures Fits(a + b, maxLength)
  {
    forall i | |a| <= i < |a + b|
      ensures |(a + b)[i]| <= maxLength && Stripped((a + b)[i])
    {
      assert (a + b)[i] == b[i - |a|];
    }
  }

  /** No visible character of a matched sentence is lost or reordered. */
  lemma {:induction false} ChunksVisible(ss: seq<string>, maxLength: nat)
    requires maxLength >= 1
    ensures Visible(Concat(Chunks(ss, maxLength))) == Visible(Concat(ss))
    decreases |ss|
  {
    if ss != [] {
      var init := ss[..|ss| - 1];
      var last := ss[|ss| - 1];
      ChunksVisible(init, maxLength);
      var a := Chunks(init, maxLength);
      var b := SliceChunks(last, maxLength);
      ConcatAppend(a, b);
      VisibleAppend(Concat(a), Concat(b));
      SliceChunksVisible(last, maxLength);
      VisibleAppend(Concat(init), last);
    }
  }

  /** The promise of `split_text`: every chunk fits in `max_length` and is
      stripped, and the chunks keep, in order, every visible character of the
      text up to its last terminator; text without a terminator gives no
      chunk at all. */
  lemma SplitTextShape(text: string, maxLength: int)
    requires maxLength >= 1
    ensures forall c <- SplitText(text, maxLength) :: |c| <= maxLength && Stripped(c)
    ensures var matched := Concat(Sentences(text));
      |matched| <= |text| && text[..|matched|] == matched
      && NoTerminator(text[|matched|..])
      && Visible(Concat(SplitText(text, maxLength))) == Visible(matched)
    ensures SplitText(text, maxLength) == [] <==> NoTerminator(text)
  {
    var ss := Sentences(text);
    ChunksFit(ss, maxLength);
    ChunksVisible(ss, maxLength);
    SentencesCover(text);
    NoSentencesIffNoTerminator(text);
    if ss != [] {
      assert SliceChunks(ss[|ss| - 1], maxLength) != [];
    }
  }

  /** A slice of nothing but whitespace becomes an empty chunk. */
  lemma BlankChunkExample()
    ensures SplitText(" .", 1) == ["", "."]
  {
    var t := " .";
    assert RunLength(t[1..]) == 0;
    assert RunLength(t) == 1;
    assert t[2..] == [];
    assert Sentences(t[2..]) == [];
    assert t[..2] == t;
    assert Sentences(t) == [t[..2]] + Sentences(t[2..]);
    assert t[..1] == " " && t[1..] == ".";
    assert Strip(" ") == "";
    assert Strip(".") == ".";
    assert SliceChunks(t, 1) == ["", "."];
    assert Chunks([t], 1) == Chunks([], 1) + SliceChunks(t, 1);
  }

  /** `split_text` as the source writes it: a loop over the sentence matches
      with an inner loop cutting each one into slices. */
  method SplitTextLoop(text: string, maxLength: int) returns (chunks: seq<string>)
    requires maxLength >= 1 || NoTerminator(text)
    ensures chunks == SplitText(text, maxLength)
  {
    NoSentencesIffNoTerminator(text);
    var sentences := Sentences(text);
    chunks := [];
    var k := 0;
    while k < |sentences|
      invariant 0 <= k <= |sentences|
      invariant chunks == Chunks(sentences[..k], maxLength)
    {
      var sentence := sentences[k];
      while |sentence| > maxLength
        invariant chunks + SliceChunks(sentence, maxLength)
          == Chunks(sentences[..k], maxLength) + SliceChunks(sentences[k], maxLength)
        decreases |sentence|
      {
        SliceStep(chunks, sentence, maxLength);
        chunks := chunks + [Strip(sentence[..maxLength])];
        sentence := sentence[maxLength..];
      }
      chunks := chunks + [Strip(sentence)];
      ChunksStep(sentences, k, maxLength);
      k := k + 1;
    }
    assert sentences[..k] == sentences;
  }

  /** One more sentence adds its slices after the chunks so far. */
  lemma ChunksStep(ss: seq<string>, k: nat, maxLength: int)
    requires k < |ss| && maxLength >= 1
    ensures Chunks(ss[..k + 1], maxLength) == Chunks(ss[..k], maxLength) + SliceChunks(ss[k], maxLength)
  {
    assert ss[..k + 1][..k] == ss[..k];
  }

  /** One turn of the inner loop moves a stripped piece from the sentence
      to the chunks. */
  lemma SliceStep(chunks: seq<string>, s: string, maxLength: nat)
    requires maxLength >= 1 && |s| > maxLength
    ensures (chunks + [Strip(s[..maxLength])]) + SliceChunks(s[maxLength..], maxLength)
      == chunks + SliceChunks(s, maxLength)
  {
    AppendAssoc(chunks, [Strip(s[..maxLength])], SliceChunks(s[maxLength..], maxLength));
  }

  /** `prepare_playback`'s command: `ffplay -nodisp [-af volume=5] -autoexit
      <path>`, with the volume boost only for files not ending in `.mp4`. */
  function PlayCommand(filePath: string): (cmd: seq<string>)
    ensures |cmd| >= 4 && cmd[..2] == ["ffplay", "-nodisp"]
    ensures cmd[|cmd| - 2..] == ["-autoexit", filePath]
    ensures EndsWith(filePath, ".mp4") <==> |cmd| == 4
    ensures !EndsWith(filePath, ".mp4") ==> cmd[2..4] == ["-af", "volume=5"]
  {
    if EndsWith(filePath, ".mp4") then ["ffplay", "-nodisp", "-autoexit", filePath]
    else ["ffplay", "-nodisp", "-af", "volume=5", "-autoexit", filePath]
  }
}
