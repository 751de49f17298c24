/**
  `OpenAITTS`: the voice choice, the blank-text guard, the splitting of
  over-long text into chunks converted one after another, the conversion of
  a list of sentences, and the concatenation with its fallback and the
  errors it lets escape. The speech endpoint, ffmpeg and the existence of
  the temporary `tts` directory are parameters: `api(request)` is the saved
  file's path, or None when the call raises.
 */
module OpenAiTts {
  import opened Common
  import opened Text
  import opened BaseTts

  /** The keys of `VOICES`. */
  const Voices: seq<string> := ["alloy", "echo", "fable", "onyx", "nova", "shimmer"]

  const DefaultVoice: string := "onyx"

  const Model: string := "tts-1"

  /** Texts longer than this are split before conversion. */
  const MaxLength: nat := 4000

  /** One call of the speech endpoint. */
  datatype Request = Request(model: string, voice: string, input: string)

  type Api = Request -> Option<string>

  /** The constructor's voice: the requested one when it is known, else `onyx`. */
  function InstanceVoice(voice: string): (v: string)
    ensures v in Voices
    ensures voice in Voices <==> v == voice
  {
    if voice in Voices then voice else DefaultVoice
  }

  /** The voice of one request: `voice_id` when it is known, else the
      instance's voice. A missing `voice_id` is never known. */
  function RequestVoice(instance: string, voiceId: Option<string>): (v: string)
    ensures voiceId.Some? && voiceId.value in Voices ==> v == voiceId.value
    ensures !(voiceId.Some? && voiceId.value in Voices) ==> v == instance
  {
    match voiceId
    case Some(id) => if id in Voices then id else instance
    case None => instance
  }

  /** Every request of a constructed instance names a known voice. */
  lemma RequestVoiceKnown(voice: string, voiceId: Option<string>)
    ensures RequestVoice(InstanceVoice(voice), voiceId) in Voices
  {
  }

  /** `_convert_text_to_speech_impl`: an empty or blank text fails before
      any request; otherwise one request is made, with the text unchanged,
      and any exception of the endpoint gives `(False, None)`. */
  function Impl(instance: string, text: string, voiceId: Option<string>, api: Api)
    : (res: (Speech, Option<Request>))
    ensures res.1.None? <==> AllSpace(text)
    ensures res.1.Some? ==> res.1.value == Request(Model, RequestVoice(instance, voiceId), text)
    ensures res.0.ok <==> res.1.Some? && api(res.1.value).Some?
    ensures res.0.ok ==> res.0.path.Some? && res.0.path == api(res.1.value)
    ensures !res.0.ok ==> res.0 == Failed
  {
    StripEmptyIffBlank(text);
    if text == "" || Strip(text) == "" then (Failed, None)
    else
      var request := Request(Model, RequestVoice(instance, voiceId), text);
      match api(request)
      case Some(path) => (Speech(true, Some(path)), Some(request))
      case None => (Failed, Some(request))
  }

  /** What running `ffmpeg -f concat` does: it joins the files, exits with
      an error status, or is not installed at all. */
  datatype Ffmpeg = Concatenated | ProcessError | NotInstalled

  /** `_concatenate_audio_files`. The list file is written into
      `<temp_dir>/tts`, so when that directory does not exist `open` raises;
      a missing ffmpeg raises `FileNotFoundError` from `subprocess.run`.
      Neither is caught: only an error exit status falls back to the first
      input file, or to None when there is none. */
  function ConcatenateAudio(files: seq<string>, ttsDir: bool, ffmpeg: Ffmpeg, output: string)
    : (r: Call<Option<string>>)
    ensures r.Threw? <==> !ttsDir || ffmpeg == NotInstalled
    ensures r.Done? && ffmpeg == Concatenated ==> r.value == Some(output)
    ensures r.Done? && ffmpeg == ProcessError && files != [] ==> r.value == Some(files[0])
    ensures r == Done(None) <==> ttsDir && ffmpeg == ProcessError && files == []
  {
    if !ttsDir then Threw
    else match ffmpeg
      case Concatenated => Done(Some(output))
      case ProcessError => Done(if files != [] then Some(files[0]) else None)
      case NotInstalled => Threw
  }

  /** The `(True, final_path)` a finished concatenation reports. */
  function Reported(c: Call<Option<string>>): (r: Call<Speech>)
    ensures r.Threw? <==> c.Threw?
    ensures r.Done? ==> r.value.ok && r.value.path == c.value
  {
    match c
    case Done(path) => Done(Speech(true, path))
    case Threw => Threw
  }

  /** Whether `Impl` succeeds on `text`. */
  predicate Converts(instance: string, text: string, voiceId: Option<string>, api: Api) {
    Impl(instance, text, voiceId, api).0.ok
  }

  /** The results of `_convert_text_to_speech_impl` taken in order, stopping
      at the first failure, as both the long-text path and the streaming path
      collect them. `done` counts the texts converted before the loop stopped
      and `files` holds their paths. `calls` counts the texts that reached the
      endpoint (a blank text is refused before any request) and holds for the
      long-text loop only: the streaming path submits every sentence to its
      thread pool, so there every non-blank sentence reaches the endpoint. */
  method ConvertEach(instance: string, texts: seq<string>, voiceId: Option<string>, api: Api)
    returns (done: nat, files: seq<string>, calls: nat)
    ensures done <= |texts| && |files| == done
    ensures forall i :: 0 <= i < done ==>
      Converts(instance, texts[i], voiceId, api) && SavedPath(instance, texts[i], voiceId, api) == files[i]
    ensures done < |texts| ==> !Converts(instance, texts[done], voiceId, api)
    ensures calls == done + (if done < |texts| && !AllSpace(texts[done]) then 1 else 0)
  {
    files, calls := [], 0;
    done := 0;
    while done < |texts|
      invariant done <= |texts| && |files| == done && calls == done
      invariant SavedPrefix(instance, texts, voiceId, api, files)
    {
      var res := Impl(instance, texts[done], voiceId, api);
      if !res.0.ok {
        calls := calls + (if res.1.Some? then 1 else 0);
        return;
      }
      SavedPrefixStep(instance, texts, voiceId, api, files);
      files := files + [SavedPath(instance, texts[done], voiceId, api)];
      calls := calls + 1;
      done := done + 1;
    }
  }

  /** `files` are the saved paths of the first `|files|` texts, all converted. */
  predicate SavedPrefix(instance: string, texts: seq<string>, voiceId: Option<string>, api: Api,
                        files: seq<string>)
  {
    |files| <= |texts| &&
    forall i :: 0 <= i < |files| ==>
      Converts(instance, texts[i], voiceId, api) && SavedPath(instance, texts[i], voiceId, api) == files[i]
  }

  lemma SavedPrefixStep(instance: string, texts: seq<string>, voiceId: Option<string>, api: Api,
                        files: seq<string>)
    requires SavedPrefix(instance, texts, voiceId, api, files) && |files| < |texts|
    requires Converts(instance, texts[|files|], voiceId, api)
    ensures SavedPrefix(instance, texts, voiceId, api,
                        files + [SavedPath(instance, texts[|files|], voiceId, api)])
  {
    var files' := files + [SavedPath(instance, texts[|files|], voiceId, api)];
    forall i | 0 <= i < |files'|
      ensures Converts(instance, texts[i], voiceId, api)
        && SavedPath(instance, texts[i], voiceId, api) == files'[i]
    {
      if i < |files| {
        assert files'[i] == files[i];
      }
    }
  }

  /** The paths of the files saved for `texts`, when every one converts. */
  function SavedFiles(instance: string, texts: seq<string>, voiceId: Option<string>, api: Api): seq<string>
    requires forall i :: 0 <= i < |texts| ==> Converts(instance, texts[i], voiceId, api)
  {
    seq(|texts|, i requires 0 <= i < |texts| => SavedPath(instance, texts[i], voiceId, api))
  }

  /** The path `Impl` reports for a text it converts. */
  function SavedPath(instance: string, text: string, voiceId: Option<string>, api: Api): string
    requires Converts(instance, text, voiceId, api)
  {
    Impl(instance, text, voiceId, api).0.path.value
  }

  /** What `convert_text_to_speech` returns. A text of at most 4000
      characters goes to the endpoint in one call. A longer one is cut by
      `split_text(text, 4000)`: when some chunk fails the result is
      `(False, None)`; otherwise the saved files are concatenated, which may
      raise. `dirExists` says whether `<temp_dir>/tts` existed before the
      call; every saved file creates it. */
  function Conversion(instance: string, text: string, voiceId: Option<string>, api: Api,
                      dirExists: bool, ffmpeg: Ffmpeg, output: string): (r: Call<Speech>)
    ensures |text| <= MaxLength ==> r == Done(Impl(instance, text, voiceId, api).0)
    ensures |text| > MaxLength ==>
      var chunks := SplitText(text, MaxLength);
      var all := forall i :: 0 <= i < |chunks| ==> Converts(instance, chunks[i], voiceId, api);
      && (r == Done(Failed) <==> !all)
      && (r.Threw? <==> all && (ffmpeg == NotInstalled || (chunks == [] && !dirExists)))
      && (all && r.Done? ==>
            r.value.ok && r.value.path == ConcatenateAudio(SavedFiles(instance, chunks, voiceId, api),
                                                           true, ffmpeg, output).value)
  {
    if |text| <= MaxLength then Done(Impl(instance, text, voiceId, api).0)
    else
      var chunks := SplitText(text, MaxLength);
      if forall i :: 0 <= i < |chunks| ==> Converts(instance, chunks[i], voiceId, api) then
        var files := SavedFiles(instance, chunks, voiceId, api);
        Reported(ConcatenateAudio(files, dirExists || files != [], ffmpeg, output))
      else Done(Failed)
  }

  /** `convert_text_to_speech`: the result is `Conversion`, and the endpoint
      is called once for a short non-blank text, and for a long one once per
      chunk up to the first failure. */
  method Convert(instance: string, text: string, voiceId: Option<string>, api: Api,
                 dirExists: bool, ffmpeg: Ffmpeg, output: string)
    returns (r: Call<Speech>, calls: nat)
    ensures r == Conversion(instance, text, voiceId, api, dirExists, ffmpeg, output)
    ensures |text| <= MaxLength ==> calls == if AllSpace(text) then 0 else 1
    ensures |text| > MaxLength ==>
      && calls <= |SplitText(text, MaxLength)|
      && (r != Done(Failed) ==> calls == |SplitText(text, MaxLength)|)
  {
    if |text| > MaxLength {
      var chunks := SplitText(text, MaxLength);
      var done, files;
      done, files, calls := ConvertEach(instance, chunks, voiceId, api);
      if done < |chunks| {
        return Done(Failed), calls;
      }
      assert files == SavedFiles(instance, chunks, voiceId, api);
      r := Reported(ConcatenateAudio(files, dirExists || files != [], ffmpeg, output));
    } else {
      var res := Impl(instance, text, voiceId, api);
      r := Done(res.0);
      calls := if res.1.Some? then 1 else 0;
    }
  }

  /** A long text with no `. ! ?` gives no chunk and so no request. The
      concatenation of nothing then raises unless `<temp_dir>/tts` already
      exists and ffmpeg is installed; otherwise the conversion reports
      success, with no file when ffmpeg fails. */
  method LongTextWithoutTerminator(instance: string, text: string, voiceId: Option<string>, api: Api,
                                   dirExists: bool, ffmpeg: Ffmpeg, output: string)
    returns (r: Call<Speech>, calls: nat)
    requires |text| > MaxLength && NoTerminator(text)
    ensures calls == 0
    ensures r.Threw? <==> !dirExists || ffmpeg == NotInstalled
    ensures r.Done? ==> r.value.ok && (r.value.path.None? <==> ffmpeg == ProcessError)
  {
    SplitTextShape(text, MaxLength);
    r, calls := Convert(instance, text, voiceId, api, dirExists, ffmpeg, output);
  }

  /** `convert_text_to_speech_streaming`: no sentence fails; one sentence is
      converted by `convert_text_to_speech`, long or not; several are each
      sent to the endpoint as they are (not split), the first failure in
      order gives `(False, None)`, and otherwise the files are concatenated.
      Some sentence has then been saved, so `<temp_dir>/tts` exists. */
  method ConvertStreaming(instance: string, sentences: seq<string>, voiceId: Option<string>, api: Api,
                          dirExists: bool, ffmpeg: Ffmpeg, output: string)
    returns (r: Call<Speech>)
    ensures sentences == [] ==> r == Done(Failed)
    ensures |sentences| == 1 ==>
      r == Conversion(instance, sentences[0], voiceId, api, dirExists, ffmpeg, output)
    ensures |sentences| >= 2 ==>
      var all := forall i :: 0 <= i < |sentences| ==> Converts(instance, sentences[i], voiceId, api);
      && (r == Done(Failed) <==> !all)
      && (all ==> r == Reported(ConcatenateAudio(SavedFiles(instance, sentences, voiceId, api),
                                                 true, ffmpeg, output)))
      && (r.Threw? <==> all && ffmpeg == NotInstalled)
      && (r.Done? && r.value.ok ==> r.value.path.Some?)
  {
    if sentences == [] {
      return Done(Failed);
    }
    if |sentences| == 1 {
      var calls;
      r, calls := Convert(instance, sentences[0], voiceId, api, dirExists, ffmpeg, output);
      return;
    }
    var done, files, calls := ConvertEach(instance, sentences, voiceId, api);
    if done < |sentences| {
      return Done(Failed);
    }
    assert files == SavedFiles(instance, sentences, voiceId, api);
    r := Reported(ConcatenateAudio(files, dirExists || files != [], ffmpeg, output));
  }
}
