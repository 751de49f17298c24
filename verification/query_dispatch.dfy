/**
  The conversation bookkeeping of `ChatGPTQueryDispatcher`: the message
  history, word-count tokens, front-trimming rotation, sentence segmentation of
  a streamed reply, and the bounded retry of the image-prompt filter. The chat
  API is an oracle: its replies and chunks are parameters.
 */
module QueryDispatch {
  import opened Common
  import opened Text

  datatype Role = System | User | Assistant

  datatype Message = Message(role: Role, content: string)

  type History = seq<Message>

  /** The rotation limit, in whitespace-separated words. */
  const MaxTokens: nat := 4097

  /** The history a new dispatcher starts with: one system message holding a
      non-empty `pre_prompt`, otherwise nothing. */
  function NewHistory(prePrompt: Option<string>): (h: History)
    ensures prePrompt.Some? && prePrompt.value != "" ==> h == [Message(System, prePrompt.value)]
    ensures prePrompt.None? || prePrompt.value == "" ==> h == []
  {
    match prePrompt
    case Some(p) => if p != "" then [Message(System, p)] else []
    case None => []
  }

  /** `add_system_context`: one system message per line, appended in order;
      the earlier messages are kept as they were. */
  function AddSystemContext(h: History, lines: seq<string>): (r: History)
    ensures |r| == |h| + |lines| && r[..|h|] == h
    ensures forall i :: 0 <= i < |lines| ==> r[|h| + i] == Message(System, lines[i])
    decreases |lines|
  {
    if lines == [] then h
    else
      var h' := h + [Message(System, lines[0])];
      var r := AddSystemContext(h', lines[1..]);
      assert r[..|h'|][..|h|] == h;
      forall i | 1 <= i < |lines|
        ensures r[|h| + i] == Message(System, lines[i])
      {
        assert r[|h'| + (i - 1)] == Message(System, lines[1..][i - 1]);
      }
      r
  }

  /** The token count of one message: its whitespace-separated words. */
  function Tokens(m: Message): nat
  {
    |Words(m.content)|
  }

  /** `count_tokens`: the number of whitespace-separated words over all contents. */
  function CountTokens(h: History): nat
  {
    if h == [] then 0 else CountTokens(h[..|h| - 1]) + Tokens(h[|h| - 1])
  }

  lemma {:induction false} CountTokensAppend(a: History, b: History)
    ensures CountTokens(a + b) == CountTokens(a) + CountTokens(b)
    decreases |b|
  {
    if b == [] {
      assert a + b == a;
    } else {
      assert (a + b)[..|a + b| - 1] == a + b[..|b| - 1];
      CountTokensAppend(a, b[..|b| - 1]);
    }
  }

  /** Dropping the oldest message removes exactly its word count. */
  lemma CountTokensFront(h: History)
    requires h != []
    ensures CountTokens(h) == Tokens(h[0]) + CountTokens(h[1..])
  {
    assert h == [h[0]] + h[1..];
    CountTokensAppend([h[0]], h[1..]);
  }

  /** `count_tokens`: the loop summing the word counts of the messages. */
  method TokenCount(h: History) returns (total: nat)
    ensures total == CountTokens(h)
  {
    total := 0;
    var i := 0;
    while i < |h|
      invariant 0 <= i <= |h|
      invariant total == CountTokens(h[..i])
    {
      CountTokensStep(h, i);
      total := total + Tokens(h[i]);
      i := i + 1;
    }
    assert h[..|h|] == h;
  }

  lemma CountTokensStep(h: History, i: nat)
    requires i < |h|
    ensures CountTokens(h[..i + 1]) == CountTokens(h[..i]) + Tokens(h[i])
  {
    assert h[..i + 1][..i] == h[..i];
  }

  /** Every suffix of `h` starting before `start` is over the limit. */
  predicate LongerSuffixesOverLimit(h: History, start: int) {
    forall k :: 0 <= k < start && k <= |h| ==> CountTokens(h[k..]) > MaxTokens
  }

  /** `rotate_session_history`: drops messages from the front while the count
      exceeds the limit. The result is the longest suffix of the history
      within the limit; a history already within it is kept whole. */
  method RotateSessionHistory(h: History) returns (r: History)
    ensures |r| <= |h| && r == h[|h| - |r|..]
    ensures CountTokens(r) <= MaxTokens
    ensures LongerSuffixesOverLimit(h, |h| - |r|)
    ensures CountTokens(h) <= MaxTokens ==> r == h
  {
    var total := TokenCount(h);
    var start := 0;
    while total > MaxTokens
      invariant 0 <= start <= |h|
      invariant total == CountTokens(h[start..])
      invariant LongerSuffixesOverLimit(h, start)
      decreases |h| - start
    {
      DropOldest(h, start);
      total := total - Tokens(h[start]);
      start := start + 1;
    }
    r := h[start..];
    assert h[0..] == h;
  }

  /** One rotation step: dropping the oldest message of an over-limit suffix
      removes its tokens and keeps every longer suffix over the limit. */
  lemma DropOldest(h: History, start: nat)
    requires start <= |h| && CountTokens(h[start..]) > MaxTokens
    requires LongerSuffixesOverLimit(h, start)
    ensures start < |h|
    ensures CountTokens(h[start + 1..]) == CountTokens(h[start..]) - Tokens(h[start])
    ensures LongerSuffixesOverLimit(h, start + 1)
  {
    assert h[start..] != [];
    CountTokensFront(h[start..]);
    assert h[start..][1..] == h[start + 1..];
  }

  /** `r` is what rotating `full` leaves: the longest suffix of `full` within
      the limit. */
  predicate RotationOf(full: History, r: History) {
    |r| <= |full| && r == full[|full| - |r|..] && CountTokens(r) <= MaxTokens
    && LongerSuffixesOverLimit(full, |full| - |r|)
  }

  /** The history bookkeeping at the start of `send_query` and
      `send_query_streaming`: the user message is appended, then the history is
      rotated. The user message survives exactly when it alone is within the
      limit; a longer one empties the whole history, itself included. */
  method AppendUserAndRotate(h: History, input: string) returns (r: History)
    ensures |r| <= |h| + 1 && r == (h + [Message(User, input)])[|h| + 1 - |r|..]
    ensures CountTokens(r) <= MaxTokens
    ensures RotationOf(h + [Message(User, input)], r)
    ensures r != [] <==> Tokens(Message(User, input)) <= MaxTokens
    ensures r != [] ==> r[|r| - 1] == Message(User, input)
  {
    r := RotateSessionHistory(h + [Message(User, input)]);
    RotatedWithNewest(h, Message(User, input), r);
  }

  /** The rotation of a history with one more message, seen from the
      history before it. */
  lemma RotatedWithNewest(h: History, u: Message, r: History)
    requires |r| <= |h + [u]| && r == (h + [u])[|h + [u]| - |r|..]
    requires CountTokens(r) <= MaxTokens
    requires LongerSuffixesOverLimit(h + [u], |h + [u]| - |r|)
    ensures |r| <= |h| + 1 && r == (h + [u])[|h| + 1 - |r|..]
    ensures r != [] <==> Tokens(u) <= MaxTokens
    ensures r != [] ==> r[|r| - 1] == u
  {
    RotatedKeepsLast(h + [u], r);
    assert (h + [u])[|h|] == u;
  }

  /** A rotated history keeps the newest message exactly when that message
      alone is within the limit, and is empty otherwise. */
  lemma RotatedKeepsLast(full: History, r: History)
    requires full != [] && |r| <= |full| && r == full[|full| - |r|..]
    requires CountTokens(r) <= MaxTokens
    requires LongerSuffixesOverLimit(full, |full| - |r|)
    ensures r != [] <==> Tokens(full[|full| - 1]) <= MaxTokens
    ensures r != [] ==> r[|r| - 1] == full[|full| - 1]
  {
    if r != [] {
      NonEmptySuffixKeepsLast(full, r);
    } else {
      SingleMessageTokens(full[|full| - 1]);
      assert full[|full| - 1..] == [full[|full| - 1]];
    }
  }

  lemma NonEmptySuffixKeepsLast(full: History, r: History)
    requires r != [] && |r| <= |full| && r == full[|full| - |r|..]
    ensures r[|r| - 1] == full[|full| - 1]
    ensures CountTokens(r) >= Tokens(full[|full| - 1])
  {
  }

  lemma SingleMessageTokens(m: Message)
    ensures CountTokens([m]) == Tokens(m)
  {
    assert [m][..0] == [];
  }

  /** `send_query` (text reply): the rotation of the history with the user
      message appended, followed by the reply. */
  method SendQuery(h: History, input: string, reply: string) returns (r: History)
    ensures r != [] && r[|r| - 1] == Message(Assistant, reply)
    ensures CountTokens(r[..|r| - 1]) <= MaxTokens
    ensures RotationOf(h + [Message(User, input)], r[..|r| - 1])
    ensures |r| >= 2 <==> Tokens(Message(User, input)) <= MaxTokens
    ensures |r| >= 2 ==> r[|r| - 2] == Message(User, input)
  {
    var rotated := AppendUserAndRotate(h, input);
    r := rotated + [Message(Assistant, reply)];
    assert r[..|r| - 1] == rotated;
  }

  const SentenceEndings: seq<char> := ['.', '!', '?', '\n']

  /** The completion test of the streaming loop: the right-stripped buffer ends
      in one of `. ! ? \n`. The newline can never be that last character,
      since right-stripping removes it, so the test is `. ! ?` alone. */
  function SentenceComplete(buffer: string): (done: bool)
    ensures done <==> RStrip(buffer) != [] && RStrip(buffer)[|RStrip(buffer)| - 1] in ['.', '!', '?']
  {
    var t := RStrip(buffer);
    t != [] && t[|t| - 1] in SentenceEndings
  }

  /** Non-empty, with no whitespace at either end. */
  predicate Trimmed(s: string) {
    s != [] && !IsSpace(s[0]) && !IsSpace(s[|s| - 1])
  }

  /** Ends in one of the sentence terminators `. ! ?`. */
  predicate Terminated(s: string) {
    s != [] && s[|s| - 1] in ['.', '!', '?']
  }

  /** Every emitted sentence is trimmed and terminated. */
  predicate Complete(sentences: seq<string>) {
    forall i :: 0 <= i < |sentences| ==> Trimmed(sentences[i]) && Terminated(sentences[i])
  }

  /** No visible character is lost: the emitted sentences and the buffer
      together hold the visible characters of the reply so far. */
  predicate Accounted(sentences: seq<string>, current: string, full: string) {
    Visible(Concat(sentences)) + Visible(current) == Visible(full)
  }

  /** The buffer at which the streaming loop emits a sentence: it completes a
      sentence and is not blank. */
  predicate Cut(buffer: string) {
    SentenceComplete(buffer) && Strip(buffer) != ""
  }

  /** The text of the chunks `from..to`. */
  function RunText(chunks: seq<string>, from: int, to: int): string
    requires 0 <= from <= to <= |chunks|
  {
    Concat(chunks[from..to])
  }

  /** No buffer made of the chunks `from..j`, for `from <= j < to`, is a cut. */
  predicate NoCutBefore(chunks: seq<string>, from: int, to: int) {
    forall j :: 0 <= from <= j < to && j <= |chunks| ==> !Cut(RunText(chunks, from, j))
  }

  /** `s` is the sentence the chunks `from..to` make: their text is a cut,
      no shorter run of chunks from `from` is one, and `s` is the text
      stripped. */
  predicate SentenceAt(chunks: seq<string>, from: int, to: int, s: string) {
    0 <= from < to <= |chunks| && Cut(RunText(chunks, from, to)) && NoCutBefore(chunks, from, to)
    && s == Strip(RunText(chunks, from, to))
  }

  /** `done[n]` is the sentence from cut `n` to cut `n + 1`, the first cut
      being chunk 0. */
  predicate Sentences(chunks: seq<string>, cuts: seq<int>, done: seq<string>) {
    |cuts| == |done| + 1 && cuts[0] == 0
    && forall n {:trigger SentenceAt(chunks, cuts[n], cuts[n + 1], done[n])} ::
         0 <= n < |done| ==> SentenceAt(chunks, cuts[n], cuts[n + 1], done[n])
  }

  /** The state of the segmentation after the first `k` chunks, described by
      the chunk indices where sentences end: the first run starts at chunk 0,
      each sentence ends at the first chunk after the previous cut whose
      accumulated text is a cut, and the buffer holds the chunks since the
      last cut, which do not yet make one. */
  predicate Segmented(chunks: seq<string>, k: int, cuts: seq<int>, done: seq<string>, current: string) {
    0 <= k <= |chunks| && Sentences(chunks, cuts, done) && 0 <= cuts[|done|] <= k
    && NoCutBefore(chunks, cuts[|done|], k + 1)
    && current == RunText(chunks, cuts[|done|], k)
  }

  /** The sentences of a whole stream: the sentences cut as above, then the
      stripped remainder when it is not blank. */
  predicate Segmentation(chunks: seq<string>, cuts: seq<int>, sentences: seq<string>) {
    |cuts| >= 1 && |cuts| - 1 <= |sentences| && 0 <= cuts[|cuts| - 1] <= |chunks|
    && var rest := RunText(chunks, cuts[|cuts| - 1], |chunks|);
    Segmented(chunks, |chunks|, cuts, sentences[..|cuts| - 1], rest)
    && sentences[|cuts| - 1..] == Remainder(rest)
  }

  /** One more chunk extends the text of a run of chunks. */
  lemma RunExtend(chunks: seq<string>, from: int, to: int)
    requires 0 <= from <= to < |chunks|
    ensures RunText(chunks, from, to + 1) == RunText(chunks, from, to) + chunks[to]
  {
    assert chunks[from..to + 1][..to - from] == chunks[from..to];
  }

  /** Before any chunk: no cut, an empty buffer. */
  lemma SegmentStart(chunks: seq<string>)
    ensures Segmented(chunks, 0, [0], [], "")
  {
    assert RunText(chunks, 0, 0) == "";
  }

  /** A chunk after which the buffer is no cut joins the buffer. */
  lemma SegmentGrow(chunks: seq<string>, k: int, cuts: seq<int>, done: seq<string>, current: string)
    requires Segmented(chunks, k, cuts, done, current) && k < |chunks|
    requires !Cut(current + chunks[k])
    ensures Segmented(chunks, k + 1, cuts, done, current + chunks[k])
  {
    RunExtend(chunks, cuts[|done|], k);
  }

  /** A chunk after which the buffer is a cut ends a sentence there, and the
      buffer restarts empty. */
  lemma SegmentCut(chunks: seq<string>, k: int, cuts: seq<int>, done: seq<string>, current: string)
    requires Segmented(chunks, k, cuts, done, current) && k < |chunks|
    requires Cut(current + chunks[k])
    ensures Segmented(chunks, k + 1, cuts + [k + 1], done + [Strip(current + chunks[k])], "")
  {
    RunExtend(chunks, cuts[|done|], k);
    CutHere(chunks, k, cuts, done, current);
  }

  lemma CutHere(chunks: seq<string>, k: int, cuts: seq<int>, done: seq<string>, current: string)
    requires Segmented(chunks, k, cuts, done, current) && k < |chunks|
    requires RunText(chunks, cuts[|done|], k + 1) == current + chunks[k]
    requires Cut(current + chunks[k])
    ensures Segmented(chunks, k + 1, cuts + [k + 1], done + [Strip(current + chunks[k])], "")
  {
    SentencesAppend(chunks, cuts, done, k + 1, Strip(current + chunks[k]));
    EmptyRun(chunks, k + 1);
  }

  /** A sentence from the last cut extends the list of sentences. */
  lemma SentencesAppend(chunks: seq<string>, cuts: seq<int>, done: seq<string>, to: int, s: string)
    requires Sentences(chunks, cuts, done) && SentenceAt(chunks, cuts[|done|], to, s)
    ensures Sentences(chunks, cuts + [to], done + [s])
  {
    var cuts', done' := cuts + [to], done + [s];
    forall i | 0 <= i < |done'|
      ensures SentenceAt(chunks, cuts'[i], cuts'[i + 1], done'[i])
    {
      if i < |done| {
        SentenceOf(chunks, cuts, done, i);
        assert cuts'[i] == cuts[i] && cuts'[i + 1] == cuts[i + 1] && done'[i] == done[i];
      }
    }
  }

  /** A buffer just cleared: empty, and no cut. */
  lemma EmptyRun(chunks: seq<string>, k: int)
    requires 0 <= k <= |chunks|
    ensures RunText(chunks, k, k) == "" && NoCutBefore(chunks, k, k + 1)
  {
    assert RunText(chunks, k, k) == "";
  }

  /** Two sentences starting at the same chunk end at the same chunk: each
      ends at the first cut. */
  lemma NextCut(chunks: seq<string>, from1: int, from2: int, to1: int, to2: int, s1: string, s2: string)
    requires from1 == from2
    requires SentenceAt(chunks, from1, to1, s1) && SentenceAt(chunks, from2, to2, s2)
    ensures to1 == to2 && s1 == s2
  {
    assert Cut(RunText(chunks, from1, to1)) && Cut(RunText(chunks, from2, to2));
  }

  /** Two descriptions that agree on cut `n` agree on the next cut and on
      the sentence between. */
  lemma NextCutOf(chunks: seq<string>, cuts1: seq<int>, done1: seq<string>,
                  cuts2: seq<int>, done2: seq<string>, n: int)
    ensures Sentences(chunks, cuts1, done1) && Sentences(chunks, cuts2, done2)
      && 0 <= n < |done1| && n < |done2| && cuts1[n] == cuts2[n]
      ==> cuts1[n + 1] == cuts2[n + 1] && done1[n] == done2[n]
  {
    if Sentences(chunks, cuts1, done1) && Sentences(chunks, cuts2, done2)
      && 0 <= n < |done1| && n < |done2| && cuts1[n] == cuts2[n]
    {
      SentenceOf(chunks, cuts1, done1, n);
      SentenceOf(chunks, cuts2, done2, n);
      NextCut(chunks, cuts1[n], cuts2[n], cuts1[n + 1], cuts2[n + 1], done1[n], done2[n]);
    }
  }

  /** The `n`-th sentence of a segmentation state. */
  lemma SentenceOf(chunks: seq<string>, cuts: seq<int>, done: seq<string>, n: int)
    ensures Sentences(chunks, cuts, done) && 0 <= n < |done| ==>
      SentenceAt(chunks, cuts[n], cuts[n + 1], done[n])
  {
  }

  /** Cuts only grow: every cut lies at or before the last one. */
  lemma {:induction false} CutBelowLast(chunks: seq<string>, cuts: seq<int>, done: seq<string>, i: int)
    ensures Sentences(chunks, cuts, done) && 0 <= i <= |done| ==> cuts[i] <= cuts[|done|]
    decreases |done| - i
  {
    if Sentences(chunks, cuts, done) && 0 <= i < |done| {
      CutsIncrease(chunks, cuts, done, i);
      CutBelowLast(chunks, cuts, done, i + 1);
    }
  }

  /** Each sentence spans at least one chunk. */
  lemma CutsIncrease(chunks: seq<string>, cuts: seq<int>, done: seq<string>, n: int)
    ensures Sentences(chunks, cuts, done) && 0 <= n < |done| ==> 0 <= cuts[n] < cuts[n + 1] <= |chunks|
  {
    SentenceOf(chunks, cuts, done, n);
  }

  /** Two descriptions of the same chunks agree on every cut both make. */
  lemma {:induction false} SameCuts(chunks: seq<string>, cuts1: seq<int>, done1: seq<string>,
                                    cuts2: seq<int>, done2: seq<string>, i: int)
    requires Sentences(chunks, cuts1, done1) && Sentences(chunks, cuts2, done2)
    requires 0 <= i <= |done1| && i <= |done2|
    ensures cuts1[i] == cuts2[i]
    ensures i > 0 ==> done1[i - 1] == done2[i - 1]
    decreases i
  {
    if i > 0 {
      SameCuts(chunks, cuts1, done1, cuts2, done2, i - 1);
      NextCutOf(chunks, cuts1, done1, cuts2, done2, i - 1);
    }
  }

  /** A description cannot make more cuts than another one of the same
      chunks: its next cut would lie within the chunks read so far, where the
      other finds none. */
  lemma NoFurtherCut(chunks: seq<string>, k: int,
                     cuts1: seq<int>, done1: seq<string>, current1: string,
                     cuts2: seq<int>, done2: seq<string>, current2: string)
    requires Segmented(chunks, k, cuts1, done1, current1) && Segmented(chunks, k, cuts2, done2, current2)
    ensures |done2| <= |done1|
  {
    var m := |done1|;
    if m < |done2| {
      SameCuts(chunks, cuts1, done1, cuts2, done2, m);
      SentenceOf(chunks, cuts2, done2, m);
      CutBelowLast(chunks, cuts2, done2, m + 1);
      assert false;
    }
  }

  /** The description pins the state down: after `k` chunks there is only
      one list of cuts, sentences and buffer that satisfies it. */
  lemma SegmentedUnique(chunks: seq<string>, k: int,
                        cuts1: seq<int>, done1: seq<string>, current1: string,
                        cuts2: seq<int>, done2: seq<string>, current2: string)
    requires Segmented(chunks, k, cuts1, done1, current1) && Segmented(chunks, k, cuts2, done2, current2)
    ensures cuts1 == cuts2 && done1 == done2 && current1 == current2
  {
    SameState(chunks, k, cuts1, done1, current1, cuts2, done2, current2);
  }

  lemma SameState(chunks: seq<string>, k: int,
                  cuts1: seq<int>, done1: seq<string>, current1: string,
                  cuts2: seq<int>, done2: seq<string>, current2: string)
    ensures Segmented(chunks, k, cuts1, done1, current1) && Segmented(chunks, k, cuts2, done2, current2)
      ==> cuts1 == cuts2 && done1 == done2 && current1 == current2
  {
    if Segmented(chunks, k, cuts1, done1, current1) && Segmented(chunks, k, cuts2, done2, current2) {
      NoFurtherCut(chunks, k, cuts1, done1, current1, cuts2, done2, current2);
      NoFurtherCut(chunks, k, cuts2, done2, current2, cuts1, done1, current1);
      forall i | 0 <= i <= |done1|
        ensures cuts1[i] == cuts2[i]
      {
        SameCuts(chunks, cuts1, done1, cuts2, done2, i);
      }
      forall i | 0 <= i < |done1|
        ensures done1[i] == done2[i]
      {
        SameCuts(chunks, cuts1, done1, cuts2, done2, i + 1);
      }
    }
  }

  /** The sentences of a stream are determined by its chunks: any two
      segmentations of the same chunks hold the same sentences. */
  lemma SegmentationUnique(chunks: seq<string>, cuts1: seq<int>, sentences1: seq<string>,
                           cuts2: seq<int>, sentences2: seq<string>)
    requires Segmentation(chunks, cuts1, sentences1) && Segmentation(chunks, cuts2, sentences2)
    ensures sentences1 == sentences2
  {
    var n1, n2 := |cuts1| - 1, |cuts2| - 1;
    SameState(chunks, |chunks|,
              cuts1, sentences1[..n1], RunText(chunks, cuts1[n1], |chunks|),
              cuts2, sentences2[..n2], RunText(chunks, cuts2[n2], |chunks|));
    SplitAtLastCut(chunks, cuts1, sentences1);
    SplitAtLastCut(chunks, cuts2, sentences2);
  }

  /** The sentences of a segmentation: those cut, then the remainder. */
  lemma SplitAtLastCut(chunks: seq<string>, cuts: seq<int>, sentences: seq<string>)
    ensures Segmentation(chunks, cuts, sentences) ==>
      sentences == sentences[..|cuts| - 1] + Remainder(RunText(chunks, cuts[|cuts| - 1], |chunks|))
  {
    if Segmentation(chunks, cuts, sentences) {
      assert sentences == sentences[..|cuts| - 1] + sentences[|cuts| - 1..];
    }
  }

  /** The sentence segmentation of `send_query_streaming`. Each chunk is
      appended to the full reply and to the sentence buffer; when the buffer
      completes a sentence its stripped text is emitted and the buffer
      cleared; a non-blank remainder is emitted last. Empty chunks (`None` or
      `""` content) are skipped. Every sentence is non-empty with no
      whitespace at either end, every sentence but the last ends in `. ! ?`,
      no visible character of the reply is lost or reordered, and the
      sentences end exactly at the cuts described by `Segmentation`. */
  method SegmentStream(chunks: seq<string>) returns (sentences: seq<string>, full: string, ghost cuts: seq<int>)
    ensures full == Concat(chunks)
    ensures forall i :: 0 <= i < |sentences| ==> Trimmed(sentences[i])
    ensures forall i :: 0 <= i < |sentences| - 1 ==> Terminated(sentences[i])
    ensures Visible(Concat(sentences)) == Visible(full)
    ensures Segmentation(chunks, cuts, sentences)
  {
    var current;
    sentences, current, full, cuts := ScanChunks(chunks);
    Finish(chunks, sentences, current, full, cuts);
    var rest := Strip(current);
    if rest != "" {
      sentences := sentences + [rest];
    } else {
      assert sentences + Remainder(current) == sentences;
    }
  }

  /** The final sentence: the buffer stripped, when it is not blank. */
  function Remainder(current: string): seq<string> {
    if Strip(current) != "" then [Strip(current)] else []
  }

  /** What the end of the stream adds to the loop's result. */
  lemma Finish(chunks: seq<string>, done: seq<string>, current: string, full: string, cuts: seq<int>)
    requires full == Concat(chunks) && Complete(done) && Accounted(done, current, full)
    requires Segmented(chunks, |chunks|, cuts, done, current)
    ensures var out := done + Remainder(current);
      && (forall i :: 0 <= i < |out| ==> Trimmed(out[i]))
      && (forall i :: 0 <= i < |out| - 1 ==> Terminated(out[i]))
      && Visible(Concat(out)) == Visible(full)
      && Segmentation(chunks, cuts, out)
  {
    var out := done + Remainder(current);
    if Strip(current) != "" {
      Flush(done, current, full);
    } else {
      StripEmptyIffBlank(current);
      VisibleOfBlank(current);
      assert out == done;
    }
    assert out[..|cuts| - 1] == done;
  }

  /** The loop state of the segmentation after `k` chunks. */
  predicate Scanned(chunks: seq<string>, k: int, done: seq<string>, current: string, full: string,
                    cuts: seq<int>)
  {
    0 <= k <= |chunks| && full == Concat(chunks[..k]) && Complete(done) && Accounted(done, current, full)
    && Segmented(chunks, k, cuts, done, current)
  }

  /** The reply after one more chunk. */
  lemma FullStep(chunks: seq<string>, k: int)
    requires 0 <= k < |chunks|
    ensures Concat(chunks[..k + 1]) == Concat(chunks[..k]) + chunks[k]
  {
    assert chunks[..k + 1] == chunks[..k] + [chunks[k]];
    ConcatAppendOne(chunks[..k], chunks[k]);
  }

  /** An empty chunk changes nothing. */
  lemma ScanSkip(chunks: seq<string>, k: int, done: seq<string>, current: string, full: string,
                 cuts: seq<int>)
    requires Scanned(chunks, k, done, current, full, cuts) && k < |chunks| && chunks[k] == ""
    ensures Scanned(chunks, k + 1, done, current, full, cuts)
  {
    FullStep(chunks, k);
    assert current + chunks[k] == current;
    SegmentGrow(chunks, k, cuts, done, current);
  }

  /** A chunk that does not complete a sentence joins the buffer. */
  lemma ScanGrow(chunks: seq<string>, k: int, done: seq<string>, current: string, full: string,
                 cuts: seq<int>)
    requires Scanned(chunks, k, done, current, full, cuts) && k < |chunks|
    requires !(SentenceComplete(current + chunks[k]) && Strip(current + chunks[k]) != "")
    ensures Scanned(chunks, k + 1, done, current + chunks[k], full + chunks[k], cuts)
  {
    FullStep(chunks, k);
    Feed(done, current, full, chunks[k]);
    SegmentGrow(chunks, k, cuts, done, current);
  }

  /** A chunk that completes a non-blank sentence emits it and clears the
      buffer. */
  lemma ScanCut(chunks: seq<string>, k: int, done: seq<string>, current: string, full: string,
                cuts: seq<int>)
    requires Scanned(chunks, k, done, current, full, cuts) && k < |chunks|
    requires SentenceComplete(current + chunks[k]) && Strip(current + chunks[k]) != ""
    ensures Scanned(chunks, k + 1, done + [Strip(current + chunks[k])], "", full + chunks[k], cuts + [k + 1])
  {
    FullStep(chunks, k);
    Feed(done, current, full, chunks[k]);
    Emit(done, current + chunks[k], full + chunks[k]);
    SegmentCut(chunks, k, cuts, done, current);
  }

  lemma ScanStart(chunks: seq<string>)
    ensures Scanned(chunks, 0, [], "", "", [0])
  {
    SegmentStart(chunks);
    assert Concat(chunks[..0]) == "";
  }

  lemma ScanEnd(chunks: seq<string>, done: seq<string>, current: string, full: string, cuts: seq<int>)
    requires Scanned(chunks, |chunks|, done, current, full, cuts)
    ensures full == Concat(chunks)
    ensures Complete(done)
    ensures Accounted(done, current, full)
    ensures Segmented(chunks, |chunks|, cuts, done, current)
  {
    assert chunks[..|chunks|] == chunks;
  }

  /** The loop of the segmentation: the complete sentences found in the
      chunks, the unfinished buffer and the full reply. */
  method ScanChunks(chunks: seq<string>)
    returns (sentences: seq<string>, current: string, full: string, ghost cuts: seq<int>)
    ensures full == Concat(chunks)
    ensures Complete(sentences)
    ensures Accounted(sentences, current, full)
    ensures Segmented(chunks, |chunks|, cuts, sentences, current)
  {
    sentences, full := [], "";
    current := "";
    cuts := [0];
    ScanStart(chunks);
    var k := 0;
    while k < |chunks|
      invariant 0 <= k <= |chunks|
      invariant Scanned(chunks, k, sentences, current, full, cuts)
    {
      var content := chunks[k];
      if content != "" {
        if SentenceComplete(current + content) && Strip(current + content) != "" {
          ScanCut(chunks, k, sentences, current, full, cuts);
        } else {
          ScanGrow(chunks, k, sentences, current, full, cuts);
        }
        full := full + content;
        current := current + content;
        if SentenceComplete(current) {
          var sentence := Strip(current);
          if sentence != "" {
            sentences := sentences + [sentence];
            current := "";
            cuts := cuts + [k + 1];
          }
        }
      } else {
        ScanSkip(chunks, k, sentences, current, full, cuts);
      }
      k := k + 1;
    }
    ScanEnd(chunks, sentences, current, full, cuts);
  }

  /** Appending a chunk to both the buffer and the reply keeps the account. */
  lemma Feed(sentences: seq<string>, current: string, full: string, content: string)
    requires Accounted(sentences, current, full)
    ensures Accounted(sentences, current + content, full + content)
  {
    VisibleAppend(full, content);
    VisibleAppend(current, content);
  }

  /** Emitting a completed buffer's stripped text and clearing the buffer keeps
      every sentence terminated and the account balanced. */
  lemma Emit(sentences: seq<string>, current: string, full: string)
    requires Complete(sentences) && Accounted(sentences, current, full)
    requires SentenceComplete(current) && Strip(current) != ""
    ensures Complete(sentences + [Strip(current)])
    ensures Accounted(sentences + [Strip(current)], "", full)
  {
    StripKeepsLast(current);
    Flush(sentences, current, full);
  }

  /** Emitting a non-blank buffer's stripped text keeps the account balanced. */
  lemma Flush(sentences: seq<string>, current: string, full: string)
    requires Accounted(sentences, current, full)
    requires Strip(current) != ""
    ensures Visible(Concat(sentences + [Strip(current)])) == Visible(full)
    ensures Accounted(sentences + [Strip(current)], "", full)
    ensures Complete(sentences) ==>
      var s' := sentences + [Strip(current)];
      (forall i :: 0 <= i < |s'| ==> Trimmed(s'[i]))
      && (forall i :: 0 <= i < |s'| - 1 ==> Terminated(s'[i]))
  {
    FlushAccount(sentences, current, full);
    if Complete(sentences) {
      FlushShape(sentences, Strip(current));
    }
  }

  lemma FlushAccount(sentences: seq<string>, current: string, full: string)
    requires Accounted(sentences, current, full)
    ensures Visible(Concat(sentences + [Strip(current)])) == Visible(full)
    ensures Accounted(sentences + [Strip(current)], "", full)
  {
    VisibleStrip(current);
    ConcatAppendOne(sentences, Strip(current));
    VisibleAppend(Concat(sentences), Strip(current));
    assert Visible("") == [];
  }

  lemma FlushShape(sentences: seq<string>, last: string)
    requires Complete(sentences) && Trimmed(last)
    ensures var s' := sentences + [last];
      (forall i :: 0 <= i < |s'| ==> Trimmed(s'[i]))
      && (forall i :: 0 <= i < |s'| - 1 ==> Terminated(s'[i]))
  {
    var s' := sentences + [last];
    forall i | 0 <= i < |s'|
      ensures Trimmed(s'[i]) && (i < |s'| - 1 ==> Terminated(s'[i]))
    {
      if i < |sentences| {
        assert s'[i] == sentences[i];
      }
    }
  }

  lemma ConcatAppendOne(xs: seq<string>, x: string)
    ensures Concat(xs + [x]) == Concat(xs) + x
  {
    assert (xs + [x])[..|xs|] == xs;
  }

  /** Stripping a buffer whose right-stripped form ends in a terminator keeps
      that terminator as its last character. */
  lemma StripKeepsLast(s: string)
    requires SentenceComplete(s)
    ensures Terminated(Strip(s))
  {
    StripKeepsLastVisible(s);
  }

  /** `send_query_streaming` run to the end of the stream: the user message
      is appended and the history rotated, the reply is streamed as the
      sentences of its segmentation, and the stored assistant message is the
      concatenation of every chunk. */
  method SendQueryStreaming(h: History, input: string, chunks: seq<string>)
    returns (sentences: seq<string>, r: History, ghost cuts: seq<int>)
    ensures r != [] && r[|r| - 1] == Message(Assistant, Concat(chunks))
    ensures CountTokens(r[..|r| - 1]) <= MaxTokens
    ensures RotationOf(h + [Message(User, input)], r[..|r| - 1])
    ensures |r| >= 2 <==> Tokens(Message(User, input)) <= MaxTokens
    ensures |r| >= 2 ==> r[|r| - 2] == Message(User, input)
    ensures forall i :: 0 <= i < |sentences| ==> sentences[i] != []
    ensures Visible(Concat(sentences)) == Visible(Concat(chunks))
    ensures Segmentation(chunks, cuts, sentences)
  {
    var rotated := AppendUserAndRotate(h, input);
    var full;
    sentences, full, cuts := SegmentStream(chunks);
    r := rotated + [Message(Assistant, full)];
    assert r[..|r| - 1] == rotated;
  }

  /** What one `send_query` call inside the filter loop ends in. */
  datatype QueryOutcome =
    | Reply(text: string)
      /** ValueError, IOError, RuntimeError or TimeoutError: caught and retried. */
    | Caught
      /** Any other exception: it propagates out of the filter. */
    | Uncaught

  datatype FilterResult =
    | Filtered(content: string)   // (True, filtered_content)
    | NotFiltered                 // (False, None)
    | Propagated                  // an uncaught exception left the call

  const FilterPreamble: string :=
    "Please rewrite this story to pass OpenAI's DALL-E content filters. "
    + "The rewritten version should:"
    + "1. Replace all specific names with generic terms (e.g., 'the family', 'the children')"
    + "2. Replace specific locations with generic descriptions (e.g., 'a beautiful lake')"
    + "3. Remove any potentially sensitive or controversial content"
    + "4. Keep the core story and emotional tone\n"

  const FilterClosing: string :=
    "\nReturn only the rewritten story with no additional text or explanation."

  /** `_get_dalle_filter_prompt`: the fixed instructions with the content
      placed verbatim between them. */
  function DallePrompt(content: string): (p: string)
    ensures IsAt(content, p, |FilterPreamble| + 19)
    ensures |p| == |FilterPreamble| + 19 + |content| + 1 + |FilterClosing|
    ensures p[..|FilterPreamble|] == FilterPreamble
    ensures p[|p| - |FilterClosing|..] == FilterClosing
  {
    var p := FilterPreamble + "\nStory to rewrite:\n" + content + "\n" + FilterClosing;
    assert p[|FilterPreamble| + 19..|FilterPreamble| + 19 + |content|] == content;
    p
  }

  /** `filter_content_for_dalle`: at most `maxAttempts` queries; the first
      reply is returned stripped; caught errors are retried; an uncaught one
      propagates; when every attempt hits a caught error (or there are no
      attempts) the result is (False, None). `outcome(k)` is attempt k's. */
  method FilterContentForDalle(maxAttempts: int, outcome: nat -> QueryOutcome)
    returns (r: FilterResult, queries: nat)
    ensures queries <= if maxAttempts < 0 then 0 else maxAttempts
    ensures forall j :: 0 <= j < queries - 1 ==> outcome(j).Caught?
    ensures r.Filtered? <==> queries > 0 && outcome(queries - 1).Reply?
    ensures r.Filtered? ==> r.content == Strip(outcome(queries - 1).text)
    ensures r.Propagated? <==> queries > 0 && outcome(queries - 1).Uncaught?
    ensures r.NotFiltered? ==>
      queries == (if maxAttempts < 0 then 0 else maxAttempts)
      && forall j :: 0 <= j < queries ==> outcome(j).Caught?
  {
    var attempt := 0;
    queries := 0;
    while attempt < maxAttempts
      invariant 0 <= attempt && queries == attempt
      invariant maxAttempts < 0 ==> attempt == 0
      invariant maxAttempts >= 0 ==> attempt <= maxAttempts
      invariant forall j :: 0 <= j < attempt ==> outcome(j).Caught?
    {
      queries := queries + 1;
      match outcome(attempt)
      case Reply(text) =>
        return Filtered(Strip(text)), queries;
      case Uncaught =>
        return Propagated, queries;
      case Caught =>
        if attempt == maxAttempts - 1 {
          return NotFiltered, queries;
        }
      attempt := attempt + 1;
    }
    r := NotFiltered;
  }
}
