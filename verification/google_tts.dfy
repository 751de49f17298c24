/**
  `GoogleTTS`: the file name derived from the text, the retried conversion
  of one text and the conversion of a list of sentences followed by a
  concatenation. The synthesis service, the clock, the random jitter and
  ffmpeg are parameters.
 */
module GoogleTts {
  import opened Common
  import opened Text
  import opened BaseTts
  import opened Retry

  /** The exceptions `convert_text_to_speech` tells apart. */
  datatype SynthesisError =
    | ApiCallError   // google.api_core.exceptions.GoogleAPICallError
    | IoError        // IOError
    | OtherError     // anything else

  /** `split_text` as `google_tts.py` repeats it: the same loops, written
      here with a moving offset into each sentence instead of re-slicing it.
      It gives exactly the chunks of the shared version. */
  method SplitText(text: string, maxLength: int) returns (chunks: seq<string>)
    requires maxLength >= 1 || NoTerminator(text)
    ensures chunks == BaseTts.SplitText(text, maxLength)
  {
    NoSentencesIffNoTerminator(text);
    var sentences := Sentences(text);
    chunks := [];
    var k := 0;
    while k < |sentences|
      invariant 0 <= k <= |sentences|
      invariant chunks == Chunks(sentences[..k], maxLength)
    {
      var pieces := SliceSentence(sentences[k], maxLength);
      chunks := chunks + pieces;
      ChunksStep(sentences, k, maxLength);
      k := k + 1;
    }
    assert sentences[..k] == sentences;
  }

  /** The inner loop of `split_text` for one sentence. */
  method SliceSentence(sentence: string, maxLength: nat) returns (chunks: seq<string>)
    requires maxLength >= 1
    ensures chunks == SliceChunks(sentence, maxLength)
  {
    chunks := [];
    var pos := 0;
    ghost var tail := sentence;
    while |sentence| - pos > maxLength
      invariant 0 <= pos <= |sentence| && tail == sentence[pos..]
      invariant chunks + SliceChunks(tail, maxLength) == SliceChunks(sentence, maxLength)
      decreases |sentence| - pos
    {
      var piece := Strip(sentence[pos..pos + maxLength]);
      OffsetStep(sentence, pos, maxLength);
      SliceStep(chunks, tail, maxLength);
      chunks := chunks + [piece];
      pos := pos + maxLength;
      tail := tail[maxLength..];
    }
    chunks := chunks + [Strip(sentence[pos..])];
  }

  /** One turn of the inner loop at offset `pos`. */
  lemma OffsetStep(s: string, pos: nat, maxLength: nat)
    requires maxLength >= 1 && pos + maxLength < |s|
    ensures s[pos..][..maxLength] == s[pos..pos + maxLength]
    ensures s[pos..][maxLength..] == s[pos + maxLength..]
    ensures SliceChunks(s[pos..], maxLength)
      == [Strip(s[pos..pos + maxLength])] + SliceChunks(s[pos + maxLength..], maxLength)
  {
    assert s[pos..][..maxLength] == s[pos..pos + maxLength];
    assert s[pos..][maxLength..] == s[pos + maxLength..];
  }

  /** `\w` restricted to ASCII: letters, digits and underscore. */
  predicate IsWordChar(c: char) {
    ('a' <= c <= 'z') || ('A' <= c <= 'Z') || ('0' <= c <= '9') || c == '_'
  }

  /** A character `[^\w\s-]` does not match. */
  predicate KeptChar(c: char) {
    IsWordChar(c) || IsSpace(c) || c == '-'
  }

  /** Characters safe in a file name: word characters and `-`. */
  predicate FileSafe(s: string) {
    forall i :: 0 <= i < |s| ==> IsWordChar(s[i]) || s[i] == '-'
  }

  /** `re.sub(r'[^\w\s-]', '_', word)`: each character outside `\w`, `\s`
      and `-` becomes `_`, and the rest stay where they were. */
  function Sanitize(word: string): (r: string)
    ensures |r| == |word|
    ensures forall i :: 0 <= i < |r| ==> KeptChar(r[i])
    ensures forall i :: 0 <= i < |r| ==> r[i] == word[i] || r[i] == '_'
    ensures forall i :: 0 <= i < |r| && KeptChar(word[i]) ==> r[i] == word[i]
  {
    seq(|word|, i requires 0 <= i < |word| => if KeptChar(word[i]) then word[i] else '_')
  }

  /** Sanitizing twice changes nothing more. */
  lemma SanitizeIdempotent(word: string)
    ensures Sanitize(Sanitize(word)) == Sanitize(word)
  {
  }

  /** The first three words of the text, or all of them when fewer. */
  function FirstWords(text: string): (ws: seq<string>)
    ensures |ws| <= 3
    ensures forall i :: 0 <= i < |ws| ==> ws[i] != [] && NoSpace(ws[i])
  {
    var all := Words(text);
    all[..if |all| < 3 then |all| else 3]
  }

  /** Each word sanitized on its own. */
  function SanitizeAll(ws: seq<string>): (r: seq<string>)
    ensures |r| == |ws|
    ensures forall i :: 0 <= i < |r| ==> r[i] == Sanitize(ws[i])
  {
    seq(|ws|, i requires 0 <= i < |ws| => Sanitize(ws[i]))
  }

  /** The name fragment of `_convert_text_to_speech_impl`: the first three
      words of the text, sanitized and joined with `_`. */
  function Snippet(text: string): string
  {
    Join("_", SanitizeAll(FirstWords(text)))
  }

  /** The snippet uses only word characters and `-`, is empty exactly for a
      blank text, and is as long as the first three words plus one `_`
      between each pair. */
  lemma SnippetShape(text: string)
    ensures FileSafe(Snippet(text))
    ensures Snippet(text) == "" <==> AllSpace(text)
    ensures var ws := Words(text);
      var n := if |ws| < 3 then |ws| else 3;
      n > 0 ==> |Snippet(text)| == TotalLength(ws[..n]) + n - 1
  {
    var first := FirstWords(text);
    var parts := SanitizeAll(first);
    SanitizedParts(first);
    JoinFileSafe(parts);
    WordsEmptyIffBlank(text);
    if parts != [] {
      JoinLength("_", parts);
      SameLengths(parts, first);
      JoinNonEmpty(parts);
    }
  }

  /** Sanitized words are file-safe, non-empty and as long as the words. */
  lemma SanitizedParts(ws: seq<string>)
    requires forall i :: 0 <= i < |ws| ==> ws[i] != [] && NoSpace(ws[i])
    ensures forall i :: 0 <= i < |ws| ==>
      var p := SanitizeAll(ws)[i]; FileSafe(p) && p != [] && |p| == |ws[i]|
  {
    forall i | 0 <= i < |ws|
      ensures FileSafe(SanitizeAll(ws)[i])
    {
      SanitizeWordFileSafe(ws[i]);
    }
  }

  /** A word without whitespace sanitizes to a file-safe string. */
  lemma SanitizeWordFileSafe(w: string)
    requires NoSpace(w)
    ensures FileSafe(Sanitize(w))
  {
    var r := Sanitize(w);
    forall i | 0 <= i < |r|
      ensures IsWordChar(r[i]) || r[i] == '-'
    {
      assert KeptChar(r[i]);
      assert r[i] == w[i] || r[i] == '_';
    }
  }

  lemma {:induction false} JoinFileSafe(xs: seq<string>)
    requires forall i :: 0 <= i < |xs| ==> FileSafe(xs[i])
    ensures FileSafe(Join("_", xs))
    decreases |xs|
  {
    if |xs| > 1 {
      JoinFileSafe(xs[..|xs| - 1]);
      var a := Join("_", xs[..|xs| - 1]) + "_";
      var b := xs[|xs| - 1];
      forall i | 0 <= i < |a + b|
        ensures IsWordChar((a + b)[i]) || (a + b)[i] == '-'
      {
        if i >= |a| {
          assert (a + b)[i] == b[i - |a|];
        }
      }
    }
  }

  lemma {:induction false} SameLengths(parts: seq<string>, words: seq<string>)
    requires |parts| == |words| && forall i :: 0 <= i < |parts| ==> |parts[i]| == |words[i]|
    ensures TotalLength(parts) == TotalLength(words)
    decreases |parts|
  {
    if parts != [] {
      SameLengths(parts[..|parts| - 1], words[..|words| - 1]);
    }
  }

  lemma {:induction false} JoinNonEmpty(xs: seq<string>)
    requires xs != [] && forall i :: 0 <= i < |xs| ==> xs[i] != []
    ensures Join("_", xs) != []
    decreases |xs|
  {
  }

  /** The name of the file `_convert_text_to_speech_impl` writes, inside
      the `tts` directory: it carries the snippet and the timestamp and is an
      MP3 file. */
  function ResponseFileName(text: string, timestamp: string): (name: string)
    ensures |name| == |"chatgpt_response_"| + |Snippet(text)| + 1 + |timestamp| + 4
    ensures name[..|"chatgpt_response_"|] == "chatgpt_response_"
    ensures IsAt(Snippet(text), name, |"chatgpt_response_"|)
    ensures EndsWith(name, "_" + timestamp + ".mp3")
  {
    var snippet := Snippet(text);
    var tail := "_" + timestamp + ".mp3";
    ThreeParts("chatgpt_response_", snippet, tail);
    "chatgpt_response_" + snippet + tail
  }

  /** How many calls the conversion allows, and its first delay. */
  const MaxRetries: nat := 5
  const InitialDelay: real := 1.0

  /** The index of the first successful call among the first `n`, or `n`. */
  function FirstSuccess<T, E>(call: nat -> Attempt<T, E>, n: nat): (k: nat)
    ensures k <= n
    ensures forall j :: 0 <= j < k ==> call(j).Fail?
    ensures k < n ==> call(k).Ok?
  {
    if n == 0 then 0
    else
      var k := FirstSuccess(call, n - 1);
      if k < n - 1 then k else if call(n - 1).Ok? then n - 1 else n
  }

  /** What `convert_text_to_speech` makes of the calls of the synthesis,
      stated without the retry loop: the first of five calls that succeeds
      gives its file; when all five fail, an API or I/O error of the fifth
      gives `(False, None)` and any other error escapes. */
  function Converted(call: nat -> Attempt<string, SynthesisError>): Call<Speech>
  {
    var k := FirstSuccess(call, MaxRetries);
    if k < MaxRetries then Done(Speech(true, Some(call(k).value)))
    else if call(MaxRetries - 1).error.OtherError? then Threw
    else Done(Failed)
  }

  /** `convert_text_to_speech`: the synthesis wrapped in
      `exponential_backoff(max_retries=5, initial_delay=1.0)`, with the API and
      I/O errors turned into `(False, None)`. `call(k)` is what the synthesis
      does on call `k + 1`. It agrees with `Converted`, and the sleeps
      between the calls double: about 1, 2, 4 and 8 seconds, each jittered
      by a factor in [0.5, 1.5). */
  method Convert(call: nat -> Attempt<string, SynthesisError>, jitter: nat -> Unit)
    returns (r: Call<Speech>, calls: nat, delays: seq<real>)
    ensures r == Converted(call)
    ensures 1 <= calls <= MaxRetries && |delays| == calls - 1
    ensures forall j :: 0 <= j < |delays| ==>
      0.5 * (Pow2(j) as real) <= delays[j] < 1.5 * (Pow2(j) as real)
  {
    var out;
    out, calls, delays := Backoff(call, MaxRetries, InitialDelay, jitter);
    var k := FirstSuccess(call, MaxRetries);
    if out.Returned? {
      assert k == calls - 1;
      r := Done(Speech(true, Some(out.value)));
    } else {
      assert k == MaxRetries;
      match out.exc
      case Reraised(e) =>
        r := if e.OtherError? then Threw else Done(Failed);
      case NoneRaised =>
        r := Threw;
      case NegativeSleep =>
        r := Threw;
    }
    forall j | 0 <= j < |delays|
      ensures 0.5 * (Pow2(j) as real) <= delays[j] < 1.5 * (Pow2(j) as real)
    {
      DelayBounds(InitialDelay, j + 1, jitter(j));
    }
  }

  /** `convert_text_to_speech_streaming`. `call(i)` gives the synthesis
      calls for sentence `i`, `jitter(i)` its jitter, `concatenated` whether
      ffmpeg succeeds and `output` the concatenated file's path.
      - No sentence: `(False, None)`.
      - One sentence: exactly `convert_text_to_speech` of it.
      - Several: every sentence is converted; an exception escaping any of
        them escapes; otherwise one failure gives `(False, None)`; otherwise
        the concatenation decides between `(True, output)` and
        `(False, None)`. */
  method ConvertStreaming(sentences: seq<string>, call: nat -> nat -> Attempt<string, SynthesisError>,
                          jitter: nat -> nat -> Unit, concatenated: bool, output: string)
    returns (r: Call<Speech>)
    ensures sentences == [] ==> r == Done(Failed)
    ensures |sentences| == 1 ==> r == Converted(call(0))
    ensures |sentences| >= 2 ==>
      (r == Threw <==> exists i :: 0 <= i < |sentences| && Converted(call(i)).Threw?)
    ensures |sentences| >= 2 && r != Threw ==>
      r == if (forall i :: 0 <= i < |sentences| ==> Converted(call(i)).value.ok) && concatenated
           then Done(Speech(true, Some(output))) else Done(Failed)
  {
    if sentences == [] {
      return Done(Failed);
    }
    if |sentences| == 1 {
      var calls, delays;
      r, calls, delays := Convert(call(0), jitter(0));
      return;
    }
    var results: seq<Speech> := [];
    var i := 0;
    while i < |sentences|
      invariant 0 <= i <= |sentences| && |results| == i
      invariant forall j :: 0 <= j < i ==> Converted(call(j)) == Done(results[j])
    {
      var res, calls, delays := Convert(call(i), jitter(i));
      if res == Threw {
        return Threw;
      }
      results := results + [res.value];
      i := i + 1;
    }
    if exists j :: 0 <= j < |results| && !results[j].ok {
      return Done(Failed);
    }
    var audioFiles := AudioFiles(results);
    if audioFiles == [] {
      return Done(Failed);
    }
    r := if concatenated then Done(Speech(true, Some(output))) else Done(Failed);
  }

  /** `[file_path for success, file_path in results if success]`: the paths
      of the successful results, in input order. When every result succeeded
      these are all the paths; the list is empty exactly when none did. */
  function AudioFiles(results: seq<Speech>): (files: seq<Option<string>>)
    ensures |files| <= |results|
    ensures (forall i :: 0 <= i < |results| ==> results[i].ok) ==>
      files == seq(|results|, i requires 0 <= i < |results| => results[i].path)
    ensures files == [] <==> forall i :: 0 <= i < |results| ==> !results[i].ok
  {
    if results == [] then []
    else
      var rest := AudioFiles(results[1..]);
      assert forall i :: 1 <= i < |results| ==> results[i] == results[1..][i - 1];
      if results[0].ok then
        var files := [results[0].path] + rest;
        assert (forall i :: 0 <= i < |results| ==> results[i].ok) ==>
          forall i :: 0 <= i < |results| ==> files[i] == results[i].path;
        files
      else rest
  }

  /** The filter works piecewise: the files of two result lists in a row are
      the files of the first followed by those of the second, so each file
      keeps the place of its result. */
  lemma {:induction false} AudioFilesAppend(a: seq<Speech>, b: seq<Speech>)
    ensures AudioFiles(a + b) == AudioFiles(a) + AudioFiles(b)
    decreases |a|
  {
    if a == [] {
      assert a + b == b;
    } else {
      assert (a + b)[1..] == a[1..] + b;
      AudioFilesAppend(a[1..], b);
    }
  }
}
