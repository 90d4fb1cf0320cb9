/**
 * The listening lab: the material grid's filters, the four-step practice workflow, and the
 * shadowing step's sentence list built from the material's transcript.
 */
module Listening {
  import opened Strings
  import opened Types
  import opened Transcript
  import opened Storage

  /** The workflow steps (`Step`). */
  const GRID: nat := 0
  const BLIND_LISTENING: nat := 1
  const DICTATION: nat := 2
  const CORRECTION: nat := 3
  const SHADOWING: nat := 4

  /** One sentence of the shadowing step, with its play window in seconds. */
  datatype SentenceNode = SentenceNode(text: string, start: int, end: int)

  /** `Math.ceil(n / 5)` on naturals. */
  function CeilFifth(n: nat): (q: nat)
    ensures 5 * q >= n && 5 * q < n + 5
  {
    (n + 4) / 5
  }

  /** `parseInt(parts[0]) * 60 + parseInt(parts[1])` for a duration written with a colon;
      `None` is NaN, which either missing number produces. */
  function ClockSeconds(duration: string): Option<int>
    requires ':' in duration
  {
    var parts := SplitAtColon(duration);
    var minutes := ParseInt(parts[0]);
    var seconds := ParseInt(parts[1]);
    if minutes.Some? && seconds.Some? then Some(minutes.value * 60 + seconds.value) else None
  }

  /** `duration.split(':')`, which has a second piece when the duration has a colon. */
  function SplitAtColon(duration: string): (parts: seq<string>)
    requires ':' in duration
    ensures parts == Split(duration, ':') && |parts| >= 2
  {
    OccurrencesPositive(duration, ':');
    SplitCount(duration, ':');
    Split(duration, ':')
  }

  /** The duration used to close the last segment: the audio element's duration when it
      is known (nonzero), else the material's `m:ss` duration, else `ceil(words / 2.5)`
      with words counted by splitting on single spaces. */
  function ShadowDuration(audioDuration: int, duration: string, transcript: string): (r: Option<int>)
    ensures audioDuration != 0 ==> r == Some(audioDuration)
    ensures audioDuration == 0 && ':' in duration ==> r == ClockSeconds(duration)
    ensures audioDuration == 0 && ':' !in duration ==>
      r.Some? && 5 * r.value >= 2 * |Split(transcript, ' ')| > 5 * (r.value - 1)
  {
    if audioDuration != 0 then Some(audioDuration)
    else if ':' in duration then ClockSeconds(duration)
    else Some(CeilFifth(2 * |Split(transcript, ' ')|))
  }

  /** A duration `m:ss` written by the application gives `m * 60 + ss` seconds. */
  lemma ShadowDurationClock(m: nat, s: nat, transcript: string)
    ensures ShadowDuration(0, NatToString(m) + ":" + NatToString(s), transcript) == Some(m * 60 + s)
  {
    var a, b := NatToString(m), NatToString(s);
    var d := a + ":" + b;
    assert d == a + [':'] + b;
    assert d[|a|] == ':';
    SplitParts(a, b);
    var parts := Split(d, ':');
    assert parts[0] == a && parts[1] == b;
    ParseIntOfNat(m);
    ParseIntOfNat(s);
    assert ParseInt(parts[0]) == Some(m) && ParseInt(parts[1]) == Some(s);
    assert ':' in d;
    assert SplitAtColon(d) == parts;
    ClockOf(d, m, s);
    assert ShadowDuration(0, d, transcript) == ClockSeconds(d);
  }

  lemma ClockOf(d: string, m: int, s: int)
    requires ':' in d
    requires ParseInt(SplitAtColon(d)[0]) == Some(m) && ParseInt(SplitAtColon(d)[1]) == Some(s)
    ensures ClockSeconds(d) == Some(m * 60 + s)
  {
  }

  /** Two digit strings around a colon split into exactly those two strings. */
  lemma SplitParts(a: string, b: string)
    requires forall i :: 0 <= i < |a| ==> IsDigit(a[i])
    requires forall i :: 0 <= i < |b| ==> IsDigit(b[i])
    ensures Split(a + [':'] + b, ':') == [a, b]
  {
    assert ':' !in a && ':' !in b;
    SplitFirst(a, b, ':');
    SplitNoSeparator(b, ':');
  }

  /** `durationInSeconds || startTime + 5`: a zero or NaN duration falls back to five
      seconds after the last start. */
  function LastEnd(start: int, duration: Option<int>): int {
    if duration.Some? && duration.value != 0 then duration.value else start + 5
  }

  /** A duration with nothing after its colon is NaN, so the last segment gets five
      seconds. */
  lemma ClockWithoutSeconds(m: nat, start: int, transcript: string)
    ensures LastEnd(start, ShadowDuration(0, NatToString(m) + ":", transcript)) == start + 5
  {
    var d := NatToString(m) + ":";
    assert d == NatToString(m) + [':'] + [];
    assert ':' !in NatToString(m);
    SplitFirst(NatToString(m), [], ':');
    assert Split(d, ':')[1] == [];
  }

  /** The shadowing sentences of a stamped transcript: one per mark, text `"..."` when the
      mark is empty, each ending where the next starts and the last at `LastEnd`. */
  function ShadowNodes(ms: seq<Mark>, duration: Option<int>): (r: seq<SentenceNode>)
    ensures |r| == |ms|
    ensures forall i :: 0 <= i < |ms| ==> r[i].start == ms[i].start
    ensures forall i :: 0 <= i < |ms| ==> r[i].text == if ms[i].content == [] then "..." else ms[i].content
    ensures forall i :: 0 <= i < |ms| - 1 ==> r[i].end == r[i + 1].start
    ensures |ms| > 0 ==> r[|ms| - 1].end == LastEnd(ms[|ms| - 1].start, duration)
  {
    seq(|ms|, i requires 0 <= i < |ms| =>
      SentenceNode(if ms[i].content == [] then "..." else ms[i].content, ms[i].start,
        if i < |ms| - 1 then ms[i + 1].start else LastEnd(ms[i].start, duration)))
  }

  /** `(t.match(/[^.!?]+[.!?]+/g) || [t]).map(trim).filter(nonempty)`. */
  function CleanSentences(t: string): (r: seq<string>)
    ensures forall k :: 0 <= k < |r| ==> r[k] != [] && IsTrimmed(r[k])
  {
    var raw := Sentences(t);
    TrimNonEmpty(if raw == [] then [t] else raw)
  }

  /** Written sentences joined by a white-space character clean back to exactly those
      sentences, in order. */
  lemma CleanJoined(ss: seq<string>, c: char)
    requires IsWhite(c)
    requires forall k :: 0 <= k < |ss| ==> SingleSentence(ss[k])
    ensures CleanSentences(Join(ss, c)) == ss
  {
    if ss == [] {
      TrimNonEmptyOne("");
    } else {
      assert [] + Join(ss, c) == Join(ss, c);
      SentencesOfJoined(ss, [], c);
    }
  }

  /** An unstamped transcript of written sentences becomes one node per sentence, in
      order, with its times left at 0. */
  lemma ShadowOfJoined(ss: seq<string>, c: char, duration: Option<int>)
    requires IsWhite(c)
    requires forall k :: 0 <= k < |ss| ==> SingleSentence(ss[k])
    requires !HasStamp(Join(ss, c), TwoDigit)
    ensures var r := ShadowSentences(Join(ss, c), duration);
      |r| == |ss| && forall k :: 0 <= k < |ss| ==> r[k] == SentenceNode(ss[k], 0, 0)
  {
    CleanJoined(ss, c);
  }

  /** Text without any terminator is kept whole, once trimmed. */
  lemma CleanUnterminated(t: string)
    requires forall i :: 0 <= i < |t| ==> !IsTerminator(t[i])
    requires t != [] && IsTrimmed(t)
    ensures CleanSentences(t) == [t]
  {
    NoSentences(t);
    TrimNonEmptyKeeps([t]);
  }

  /** Text with no terminator after its first non-terminator has no sentences. */
  lemma NoSentences(s: string)
    requires forall i :: 0 <= i < |s| ==> !IsTerminator(s[i])
    ensures Sentences(s) == []
  {
  }

  /** The sentence list the shadowing step starts with. A stamped transcript is segmented
      at its `dd:dd` stamps; otherwise each clean sentence becomes a node whose times are
      left at 0 (the application spreads them proportionally in floating point). */
  function ShadowSentences(transcript: string, duration: Option<int>): seq<SentenceNode> {
    if HasStamp(transcript, TwoDigit) then ShadowNodes(Marks(transcript, TwoDigit), duration)
    else
      var cs := CleanSentences(transcript);
      seq(|cs|, i requires 0 <= i < |cs| => SentenceNode(cs[i], 0, 0))
  }

  /** The sentence list shadowing builds for material `m` with the player's duration. */
  function ShadowOf(m: Material, audioDuration: int): seq<SentenceNode> {
    ShadowSentences(m.transcript, ShadowDuration(audioDuration, m.duration, m.transcript))
  }

  /** A transcript written as stamps and texts is segmented back into exactly those
      texts and starts, each sentence ending at the next start. */
  lemma ShadowOfRendered(ms: seq<Mark>, duration: Option<int>)
    requires Renderable(ms, TwoDigit) && ms != []
    ensures var r := ShadowSentences(Render(ms), duration);
      && |r| == |ms|
      && (forall i :: 0 <= i < |ms| ==> r[i].text == ms[i].content && r[i].start == ms[i].start)
      && (forall i :: 0 <= i < |ms| - 1 ==> r[i].end == ms[i + 1].start)
      && r[|ms| - 1].end == LastEnd(ms[|ms| - 1].start, duration)
  {
    MarksRender(ms, TwoDigit);
    MarksWhenStamped(Render(ms), TwoDigit);
  }

  /** The duration filter: the leading integer of the duration against the bucket; a
      NaN fails every bucket, and an unknown bucket name accepts everything. */
  predicate DurationMatches(duration: string, bucket: string) {
    if bucket == "" then true
    else
      var minutes := ParseInt(duration);
      if bucket == "short" then minutes.Some? && minutes.value < 3
      else if bucket == "medium" then minutes.Some? && 3 <= minutes.value <= 5
      else if bucket == "long" then minutes.Some? && minutes.value > 5
      else true
  }

  /** The three buckets split the numeric durations between them, and a duration with no
      leading number is in none. */
  lemma DurationBuckets(duration: string)
    ensures ParseInt(duration).Some? ==>
      (DurationMatches(duration, "short") && !DurationMatches(duration, "medium") && !DurationMatches(duration, "long")) ||
      (!DurationMatches(duration, "short") && DurationMatches(duration, "medium") && !DurationMatches(duration, "long")) ||
      (!DurationMatches(duration, "short") && !DurationMatches(duration, "medium") && DurationMatches(duration, "long"))
    ensures ParseInt(duration).None? ==>
      !DurationMatches(duration, "short") && !DurationMatches(duration, "medium") && !DurationMatches(duration, "long")
  {
  }

  /** A duration written `m:...` falls in the bucket its minutes `m` select. */
  lemma BucketOfClock(m: nat, rest: string)
    ensures DurationMatches(NatToString(m) + ":" + rest, "short") <==> m < 3
    ensures DurationMatches(NatToString(m) + ":" + rest, "medium") <==> 3 <= m <= 5
    ensures DurationMatches(NatToString(m) + ":" + rest, "long") <==> m > 5
  {
    ParseIntNat(m, rest);
  }

  /** `parseInt('Unknown')` is NaN, so an unknown duration is in no bucket. */
  lemma UnknownIsNaN()
    ensures ParseInt("Unknown").None?
  {
    StartsWithNonDigit("Unknown");
  }

  /** The grid's three filters; an empty filter accepts everything. */
  predicate MatchesFilters(m: Material, difficulty: string, topic: string, bucket: string) {
    && (difficulty == "" || DifficultyName(m.difficulty) == difficulty)
    && (topic == "" || ToLower(m.topic) == ToLower(topic))
    && DurationMatches(m.duration, bucket)
  }

  /** Topics are compared without regard to (ASCII) case. */
  lemma TopicCaseInsensitive(m: Material, difficulty: string, topic: string, bucket: string)
    ensures MatchesFilters(m, difficulty, topic, bucket) ==
      MatchesFilters(m.(topic := ToLower(m.topic)), difficulty, ToLower(topic), bucket)
  {
    ToLowerIdempotent(m.topic);
    ToLowerIdempotent(topic);
    assert |ToLower(topic)| == |topic|;
  }

  /** `filteredMaterials`: the materials passing every filter, in their order. */
  function FilterMaterials(ms: seq<Material>, difficulty: string, topic: string, bucket: string): (r: seq<Material>)
    ensures |r| <= |ms|
    ensures forall m :: m in r <==> m in ms && MatchesFilters(m, difficulty, topic, bucket)
  {
    if ms == [] then []
    else
      (if MatchesFilters(ms[0], difficulty, topic, bucket) then [ms[0]] else [])
      + FilterMaterials(ms[1..], difficulty, topic, bucket)
  }

  /** Filtering distributes over concatenation, so the grid keeps the library's order. */
  lemma {:induction false} FilterMaterialsConcat(a: seq<Material>, b: seq<Material>, difficulty: string, topic: string, bucket: string)
    ensures FilterMaterials(a + b, difficulty, topic, bucket) ==
      FilterMaterials(a, difficulty, topic, bucket) + FilterMaterials(b, difficulty, topic, bucket)
  {
    if a == [] {
      assert a + b == b;
    } else {
      assert (a + b)[0] == a[0];
      assert (a + b)[1..] == a[1..] + b;
      FilterMaterialsConcat(a[1..], b, difficulty, topic, bucket);
      Associate(if MatchesFilters(a[0], difficulty, topic, bucket) then [a[0]] else [],
        FilterMaterials(a[1..], difficulty, topic, bucket), FilterMaterials(b, difficulty, topic, bucket));
    }
  }

  /** One material is shown exactly when it passes the filters. */
  lemma FilterMaterialsOne(m: Material, difficulty: string, topic: string, bucket: string)
    ensures FilterMaterials([m], difficulty, topic, bucket) ==
      if MatchesFilters(m, difficulty, topic, bucket) then [m] else []
  {
    assert [m][1..] == [];
  }

  /** With every filter empty the grid shows every material. */
  lemma {:induction false} NoFilters(ms: seq<Material>)
    ensures FilterMaterials(ms, "", "", "") == ms
  {
    if ms != [] {
      NoFilters(ms[1..]);
    }
  }

  class ListeningSession {
    /** The store the lab saves to. */
    const store: Store
    /** The current workflow step, `GRID` to `SHADOWING`. */
    var step: nat
    /** The material being practised. */
    var material: Option<Material>
    /** The shadowing sentences and the current one. */
    var sentences: seq<SentenceNode>
    var index: int
    /** Loop mode (`playbackMode === 'loop'`). */
    var loop: bool
    /** Where playback stops in loop mode (`stopTimeRef`). */
    var stopTime: Option<int>
    /** Whether the completion dialog is shown. */
    var completed: bool

    /** The current index stays within the sentence list. */
    predicate Valid()
      reads this
    {
      step <= SHADOWING && (index == 0 || 0 <= index < |sentences|)
    }

    constructor (s: Store)
      ensures store == s && step == GRID && material.None? && sentences == [] && index == 0
      ensures !loop && stopTime.None? && !completed && Valid()
    {
      store := s;
      step := GRID;
      material := None;
      sentences := [];
      index := 0;
      loop := false;
      stopTime := None;
      completed := false;
    }

    /** `startPractice`: opens a material at the first step; entering a step resets loop
        mode. */
    method StartPractice(m: Material)
      requires Valid()
      modifies this`material, this`step, this`completed, this`loop
      ensures material == Some(m) && step == BLIND_LISTENING && !completed && !loop
      ensures Valid()
    {
      material := Some(m);
      step := BLIND_LISTENING;
      completed := false;
      loop := false;
    }

    /** The step-4 effect: the sentence list is rebuilt and the first sentence selected. */
    method InitShadowing(audioDuration: int)
      requires Valid()
      modifies this`sentences, this`index
      ensures step == SHADOWING && material.Some? ==>
        sentences == ShadowOf(material.value, audioDuration) && index == 0
      ensures !(step == SHADOWING && material.Some?) ==> sentences == old(sentences) && index == old(index)
      ensures Valid()
    {
      if step == SHADOWING && material.Some? {
        var m := material.value;
        sentences := ShadowOf(m, audioDuration);
        index := 0;
      }
    }

    /** The footer's back button: `Math.max(BLIND_LISTENING, step - 1)`; loop mode is
        reset only when the step actually changes. */
    method StepBack()
      requires Valid()
      modifies this`step, this`loop
      ensures step == if old(step) >= 2 then old(step) - 1 else BLIND_LISTENING
      ensures loop == (old(loop) && step == old(step))
      ensures Valid()
    {
      var next := if step >= 2 then step - 1 else BLIND_LISTENING;
      if next != step {
        // a step change re-runs the audio reset, which leaves loop mode
        step := next;
        loop := false;
      }
    }

    /** The footer's forward button: the next step below `SHADOWING` (building the
        sentence list on arrival there), or "complete and sync" at `SHADOWING`. */
    method StepForward(audioDuration: int)
      requires Valid()
      modifies this`step, this`loop, this`sentences, this`index, this`completed, store`speaking
      ensures old(step) < SHADOWING ==> step == old(step) + 1 && !loop && completed == old(completed)
      ensures old(step) < SHADOWING ==> store.speaking == old(store.speaking)
      ensures old(step) == SHADOWING ==> step == SHADOWING && loop == old(loop)
      ensures old(step) == SHADOWING && material.Some? ==>
        store.speaking == Some(MergeSpeaking(CleanSentences(material.value.transcript), old(store.Speaking()))) && completed
      ensures old(step) == SHADOWING && material.None? ==>
        completed == old(completed) && store.speaking == old(store.speaking)
      ensures old(step) + 1 == SHADOWING && material.Some? ==>
        sentences == ShadowOf(material.value, audioDuration) && index == 0
      ensures !(old(step) + 1 == SHADOWING && material.Some?) ==>
        sentences == old(sentences) && index == old(index)
      ensures Valid()
    {
      if step < SHADOWING {
        step := step + 1;
        loop := false;
        InitShadowing(audioDuration);
      } else {
        CompleteAndSync();
      }
    }

    /** `handleCompleteAndSync`: the transcript's clean sentences go to the speaking list. */
    method CompleteAndSync()
      modifies this`completed, store`speaking
      ensures material.Some? ==>
        store.speaking == Some(MergeSpeaking(CleanSentences(material.value.transcript), old(store.Speaking()))) && completed
      ensures material.None? ==> store.speaking == old(store.speaking) && completed == old(completed)
    {
      if material.Some? {
        var _ := store.AddSpeakingSentences(CleanSentences(material.value.transcript));
        completed := true;
      }
    }

    /** `nextShadowSentence`: one sentence on, only while not at the last one. */
    method NextSentence()
      requires Valid()
      modifies this`index, this`stopTime
      ensures old(index) < |sentences| - 1 ==>
        index == old(index) + 1 && stopTime == (if loop then Some(sentences[index].end) else None)
      ensures old(index) >= |sentences| - 1 ==> index == old(index) && stopTime == old(stopTime)
      ensures Valid()
    {
      if index < |sentences| - 1 {
        index := index + 1;
        stopTime := if loop then Some(sentences[index].end) else None;
      }
    }

    /** `prevShadowSentence`: one sentence back, only while not at the first one. */
    method PrevSentence()
      requires Valid()
      modifies this`index, this`stopTime
      ensures old(index) > 0 ==>
        index == old(index) - 1 && stopTime == (if loop then Some(sentences[index].end) else None)
      ensures old(index) == 0 ==> index == 0 && stopTime == old(stopTime)
      ensures Valid()
    {
      if index > 0 {
        index := index - 1;
        stopTime := if loop then Some(sentences[index].end) else None;
      }
    }

    /** `toggleLoopMode`: entering loop mode stops at the end of the current sentence. */
    method ToggleLoop()
      requires Valid()
      modifies this`loop, this`stopTime
      ensures loop == !old(loop)
      ensures stopTime == if loop && index < |sentences| then Some(sentences[index].end) else None
      ensures Valid()
    {
      loop := !loop;
      stopTime := if loop && index < |sentences| then Some(sentences[index].end) else None;
    }

    /** The header's exit button returns to the grid. */
    method Exit()
      requires Valid()
      modifies this`step
      ensures step == GRID && Valid()
    {
      step := GRID;
    }
  }
}
