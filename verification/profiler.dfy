/**
  The bookkeeping of the performance profiler: the global timing flag, the
  per-name lists of `PerformanceStats` and their summary, and the duration
  getters of `ConversationTimer` with the durations `print_breakdown` records.
  Durations and clock readings are `real`; the clock itself is left out, so
  every timestamp is a parameter.
 */
module Profiler {
  import opened Common

  /** One call of `enable_timing_analysis` (true) or `disable_timing_analysis` (false). */
  type FlagCall = bool

  /** `is_timing_enabled()` after the given calls, starting from the module's `False`. */
  function TimingEnabled(calls: seq<FlagCall>): bool
  {
    if calls == [] then false
    else calls[|calls| - 1]
  }

  /** The flag reflects the most recent call: appending a call decides the
      flag whatever came before, and with no call it is off. */
  lemma {:induction false} TimingFlagIsLastCall(calls: seq<FlagCall>, more: seq<FlagCall>)
    ensures more != [] ==> TimingEnabled(calls + more) == more[|more| - 1]
    ensures more == [] ==> TimingEnabled(calls + more) == TimingEnabled(calls)
    ensures TimingEnabled([]) == false
  {
    if more == [] {
      assert calls + more == calls;
    } else {
      assert (calls + more)[|calls + more| - 1] == more[|more| - 1];
    }
  }

  /** `PerformanceStats.timings`: the durations recorded under each name, in
      recording order. */
  type Stats = map<string, seq<real>>

  /** A fresh `PerformanceStats()`. */
  const EmptyStats: Stats := map[]

  /** The durations recorded under `name` so far. */
  function Recorded(st: Stats, name: string): seq<real> {
    if name in st then st[name] else []
  }

  /** `record`: appends the duration to `name`'s list, creating it if absent;
      every other name keeps its list. */
  function Record(st: Stats, name: string, duration: real): (r: Stats)
    ensures name in r && r[name] == Recorded(st, name) + [duration]
    ensures r.Keys == st.Keys + {name}
    ensures forall other :: other in st && other != name ==> r[other] == st[other]
  {
    st[name := Recorded(st, name) + [duration]]
  }

  /** `reset`: no name is left. */
  function Reset(st: Stats): (r: Stats)
    ensures r.Keys == {}
    ensures forall name :: Recorded(r, name) == []
  {
    map[]
  }

  predicate Sorted(s: seq<real>) {
    forall i, j :: 0 <= i < j < |s| ==> s[i] <= s[j]
  }

  /** Places `x` into a sorted list. */
  function Insert(x: real, s: seq<real>): (r: seq<real>)
    requires Sorted(s)
    ensures Sorted(r)
    ensures multiset(r) == multiset(s) + multiset{x}
    ensures |r| == |s| + 1
  {
    if s == [] then [x]
    else if x <= s[0] then [x] + s
    else
      var rest := Insert(x, s[1..]);
      assert s == [s[0]] + s[1..];
      InsertKeepsHeadSmallest(s[0], s[1..], x, rest);
      [s[0]] + rest
  }

  /** A head no larger than the tail and the inserted value stays first. */
  lemma InsertKeepsHeadSmallest(h: real, t: seq<real>, x: real, rest: seq<real>)
    requires Sorted([h] + t) && h < x
    requires Sorted(rest) && multiset(rest) == multiset(t) + multiset{x}
    ensures Sorted([h] + rest)
  {
    forall k | 0 <= k < |rest|
      ensures h <= rest[k]
    {
      assert rest[k] in multiset(rest);
      assert rest[k] in multiset(t) + multiset{x};
      if rest[k] != x {
        assert rest[k] in multiset(t);
        assert rest[k] in t;
        var j :| 0 <= j < |t| && t[j] == rest[k];
        assert ([h] + t)[0] == h && ([h] + t)[j + 1] == t[j];
      }
    }
    forall i, j | 0 <= i < j < |[h] + rest|
      ensures ([h] + rest)[i] <= ([h] + rest)[j]
    {
      if i > 0 {
        assert ([h] + rest)[i] == rest[i - 1] && ([h] + rest)[j] == rest[j - 1];
      } else {
        assert ([h] + rest)[j] == rest[j - 1];
      }
    }
  }

  /** `sorted(values)`: the values in non-decreasing order, each as often as
      it was recorded. */
  function Sort(s: seq<real>): (r: seq<real>)
    ensures Sorted(r) && multiset(r) == multiset(s) && |r| == |s|
  {
    if s == [] then [] else
      assert s == s[..|s| - 1] + [s[|s| - 1]];
      Insert(s[|s| - 1], Sort(s[..|s| - 1]))
  }

  /** Two sorted lists holding the same values are the same list, so the
      summary below does not depend on how the sorting is done. */
  lemma {:induction false} SortedPermutationUnique(a: seq<real>, b: seq<real>)
    requires Sorted(a) && Sorted(b) && multiset(a) == multiset(b)
    ensures a == b
    decreases |a|
  {
    if a != [] {
      SameHead(a, b);
      SortedPermutationUnique(a[1..], b[1..]);
      assert a == [a[0]] + a[1..] && b == [b[0]] + b[1..];
    } else {
      assert |b| == |multiset(b)| == 0;
    }
  }

  /** Two sorted lists holding the same values start with the same value,
      and what follows it is again two sorted lists with the same values. */
  lemma SameHead(a: seq<real>, b: seq<real>)
    requires Sorted(a) && Sorted(b) && multiset(a) == multiset(b) && a != []
    ensures b != [] && a[0] == b[0]
    ensures Sorted(a[1..]) && Sorted(b[1..]) && multiset(a[1..]) == multiset(b[1..])
  {
    assert |a| == |multiset(a)| == |multiset(b)| == |b|;
    assert a[0] in multiset(a) && b[0] in multiset(b);
    SortedHeadIsLeast(a, b[0]);
    SortedHeadIsLeast(b, a[0]);
    TailMultiset(a);
    TailMultiset(b);
    SortedTail(a);
    SortedTail(b);
  }

  lemma TailMultiset(s: seq<real>)
    requires s != []
    ensures multiset(s[1..]) == multiset(s) - multiset{s[0]}
  {
    assert s == [s[0]] + s[1..];
  }

  lemma SortedTail(s: seq<real>)
    requires s != [] && Sorted(s)
    ensures Sorted(s[1..])
  {
  }

  lemma SortedHeadIsLeast(s: seq<real>, v: real)
    requires Sorted(s) && v in multiset(s)
    ensures s[0] <= v
  {
    assert v in s;
  }

  /** The summary `get_stats` returns, without the mean. */
  datatype Summary = Summary(count: nat, median: real, p95: real, p99: real, min: real, max: real)

  /** The median of a sorted list: the middle value for odd length, the mean
      of the two middle values for even length. */
  function MedianOf(t: seq<real>): real
    requires t != []
  {
    var n := |t|;
    if n % 2 == 0 then (t[n / 2 - 1] + t[n / 2]) / 2.0 else t[n / 2]
  }

  /** The summary of a non-empty sorted list. The p95 and p99 positions for
      more than one value are `n * 95 / 100` and `n * 99 / 100`, rounded down. */
  function SummaryOf(t: seq<real>): Summary
    requires t != []
  {
    var n := |t|;
    Summary(n, MedianOf(t),
            if n > 1 then t[n * 95 / 100] else t[0],
            if n > 1 then t[n * 99 / 100] else t[0],
            t[0], t[n - 1])
  }

  /** `get_stats`: None for a name never recorded or with an empty list;
      otherwise the count, the least and greatest recorded value (both among
      the records), and the median and percentiles of the sorted values. */
  function GetStats(st: Stats, name: string): (r: Option<Summary>)
    ensures r.None? <==> Recorded(st, name) == []
    ensures r.Some? ==>
      var xs := Recorded(st, name);
      && r.value.count == |xs|
      && r.value.min in xs && r.value.max in xs
      && (forall i :: 0 <= i < |xs| ==> r.value.min <= xs[i] <= r.value.max)
  {
    var xs := Recorded(st, name);
    if xs == [] then None
    else
      var t := Sort(xs);
      SortedBounds(t, xs);
      Some(SummaryOf(t))
  }

  /** The ends of a sorted rearrangement of `xs` are the least and greatest of `xs`. */
  lemma SortedBounds(t: seq<real>, xs: seq<real>)
    requires Sorted(t) && multiset(t) == multiset(xs) && t != []
    ensures t[0] in xs && t[|t| - 1] in xs
    ensures forall i :: 0 <= i < |xs| ==> t[0] <= xs[i] <= t[|t| - 1]
  {
    assert t[0] in multiset(t) && t[|t| - 1] in multiset(t);
    forall i | 0 <= i < |xs|
      ensures t[0] <= xs[i] <= t[|t| - 1]
    {
      assert xs[i] in multiset(xs);
      var j :| 0 <= j < |t| && t[j] == xs[i];
    }
  }

  /** `get_stats` agrees with any sorted arrangement of the recorded values:
      the count is its length, the median its middle (or the mean of its two
      middles), min and max its ends, and p95/p99 its indexed values. */
  lemma GetStatsOfSorted(st: Stats, name: string, t: seq<real>)
    requires Sorted(t) && multiset(t) == multiset(Recorded(st, name)) && t != []
    ensures GetStats(st, name) == Some(SummaryOf(t))
    ensures |t| % 2 == 1 ==> GetStats(st, name).value.median == t[|t| / 2]
    ensures |t| % 2 == 0 ==> GetStats(st, name).value.median == (t[|t| / 2 - 1] + t[|t| / 2]) / 2.0
  {
    var xs := Recorded(st, name);
    assert |xs| == |multiset(xs)| == |t|;
    SortedPermutationUnique(Sort(xs), t);
  }

  /** A single record is its own count, median, percentiles, min and max. */
  lemma SingleRecordStats(name: string, d: real)
    ensures GetStats(Record(EmptyStats, name, d), name) == Some(Summary(1, d, d, d, d, d))
  {
    var st := Record(EmptyStats, name, d);
    assert Recorded(st, name) == [d];
    GetStatsOfSorted(st, name, [d]);
  }

  /** Recording and then reading back: the count grows by one and the new
      value lies between the reported min and max. */
  lemma RecordThenStats(st: Stats, name: string, d: real)
    ensures var r := GetStats(Record(st, name, d), name);
      r.Some? && r.value.count == |Recorded(st, name)| + 1 && r.value.min <= d <= r.value.max
  {
    var xs := Recorded(Record(st, name, d), name);
    assert xs[|xs| - 1] == d;
  }

  /** `ConversationTimer`'s marks: each is None until its `mark_*` call
      stores a clock reading. */
  datatype Timer = Timer(
    userStart: Option<real>, userEnd: Option<real>,
    aiStart: Option<real>, aiEnd: Option<real>,
    sttStart: Option<real>, sttEnd: Option<real>,
    llmStart: Option<real>, llmEnd: Option<real>,
    ttsStart: Option<real>, ttsEnd: Option<real>,
    playbackStart: Option<real>)

  /** A fresh `ConversationTimer()`: nothing marked. */
  const NewTimer: Timer := Timer(None, None, None, None, None, None, None, None, None, None, None)

  /** Python truth of an optional reading: set and not `0.0`. */
  predicate Truthy(x: Option<real>) {
    x.Some? && x.value != 0.0
  }

  /** The getters' shape: `end - start` when both are truthy, else None. */
  function Between(start: Option<real>, end: Option<real>): (d: Option<real>)
    ensures d.Some? <==> Truthy(start) && Truthy(end)
    ensures d.Some? ==> start.value + d.value == end.value
  {
    if Truthy(start) && Truthy(end) then Some(end.value - start.value) else None
  }

  function SttDuration(t: Timer): Option<real> { Between(t.sttStart, t.sttEnd) }
  function LlmDuration(t: Timer): Option<real> { Between(t.llmStart, t.llmEnd) }
  function TtsDuration(t: Timer): Option<real> { Between(t.ttsStart, t.ttsEnd) }
  function UserDuration(t: Timer): Option<real> { Between(t.userStart, t.userEnd) }
  function AiDuration(t: Timer): Option<real> { Between(t.aiStart, t.aiEnd) }

  /** From the user's last word to the start of playback. */
  function RoundtripDuration(t: Timer): Option<real> { Between(t.userEnd, t.playbackStart) }

  /** A fresh timer has no duration at all; once both ends of the STT stage
      are marked at non-zero readings its duration is their difference. */
  lemma TimerGetters(t: Timer, start: real, end: real)
    requires start != 0.0 && end != 0.0
    ensures SttDuration(NewTimer) == None && LlmDuration(NewTimer) == None
    ensures TtsDuration(NewTimer) == None && UserDuration(NewTimer) == None
    ensures AiDuration(NewTimer) == None && RoundtripDuration(NewTimer) == None
    ensures SttDuration(t.(sttStart := Some(start), sttEnd := Some(end))) == Some(end - start)
    ensures SttDuration(t.(sttStart := None)) == None && SttDuration(t.(sttEnd := None)) == None
  {
  }

  /** `if dur: _global_stats.record(name, dur)`: records a truthy duration only. */
  function RecordIf(st: Stats, name: string, d: Option<real>): Stats {
    if Truthy(d) then Record(st, name, d.value) else st
  }

  /** The names `print_breakdown` records under. */
  const StatNames: seq<string> := ["STT", "LLM", "TTS", "Roundtrip"]

  /** The statistics `print_breakdown` leaves behind: nothing when timing is
      off or the user's end is not marked; otherwise the STT, LLM, TTS and
      round-trip durations that are set and non-zero, each appended under its
      name. */
  function BreakdownStats(timingEnabled: bool, t: Timer, st: Stats): Stats
  {
    if !timingEnabled || !Truthy(t.userEnd) then st
    else
      var st1 := RecordIf(st, "STT", SttDuration(t));
      var st2 := RecordIf(st1, "LLM", LlmDuration(t));
      var st3 := RecordIf(st2, "TTS", TtsDuration(t));
      RecordIf(st3, "Roundtrip", RoundtripDuration(t))
  }

  /** The duration `print_breakdown` considers for each of its names. */
  function StageDuration(t: Timer, name: string): Option<real>
    requires name in StatNames
  {
    if name == "STT" then SttDuration(t)
    else if name == "LLM" then LlmDuration(t)
    else if name == "TTS" then TtsDuration(t)
    else RoundtripDuration(t)
  }

  /** What `print_breakdown` records: each of its four names gains exactly its
      non-zero duration (and nothing when that duration is None or 0), only
      when timing is on and the user's end is marked; every other name is
      unchanged. */
  lemma BreakdownRecordsNonZero(timingEnabled: bool, t: Timer, st: Stats, name: string)
    ensures name !in StatNames ==> Recorded(BreakdownStats(timingEnabled, t, st), name) == Recorded(st, name)
    ensures name in StatNames ==>
      var d := StageDuration(t, name);
      Recorded(BreakdownStats(timingEnabled, t, st), name) ==
        Recorded(st, name) + (if timingEnabled && Truthy(t.userEnd) && Truthy(d) then [d.value] else [])
  {
    if timingEnabled && Truthy(t.userEnd) {
      var st1 := RecordIf(st, "STT", SttDuration(t));
      var st2 := RecordIf(st1, "LLM", LlmDuration(t));
      var st3 := RecordIf(st2, "TTS", TtsDuration(t));
      RecordIfOther(st, "STT", SttDuration(t), name);
      RecordIfOther(st1, "LLM", LlmDuration(t), name);
      RecordIfOther(st2, "TTS", TtsDuration(t), name);
      RecordIfOther(st3, "Roundtrip", RoundtripDuration(t), name);
    }
  }

  /** `RecordIf` touches only its own name. */
  lemma RecordIfOther(st: Stats, n: string, d: Option<real>, name: string)
    ensures name != n ==> Recorded(RecordIf(st, n, d), name) == Recorded(st, name)
    ensures name == n ==> Recorded(RecordIf(st, n, d), name) == Recorded(st, name) + (if Truthy(d) then [d.value] else [])
  {
  }
}
