/**
 * The dashboard's review panel: the due count, the first five queued tasks with their
 * due labels, and "start review", which completes every task due now and refreshes.
 */
module Dashboard {
  import opened Strings
  import opened Types
  import opened Review
  import opened Storage

  /** `tasks.filter(i => i.nextReviewAt <= now)`: due tasks, boundary included. */
  function DueTasks(tasks: seq<ReviewTask>, now: int): (r: seq<ReviewTask>)
    ensures |r| <= |tasks|
    ensures forall t :: t in r <==> t in tasks && t.nextReviewAt <= now
  {
    if tasks == [] then []
    else (if tasks[0].nextReviewAt <= now then [tasks[0]] else []) + DueTasks(tasks[1..], now)
  }

  /** Filtering distributes over concatenation, so the due tasks keep the queue's order. */
  lemma {:induction false} DueTasksConcat(a: seq<ReviewTask>, b: seq<ReviewTask>, now: int)
    ensures DueTasks(a + b, now) == DueTasks(a, now) + DueTasks(b, now)
  {
    if a == [] {
      assert a + b == b;
    } else {
      assert (a + b)[0] == a[0];
      assert (a + b)[1..] == a[1..] + b;
      DueTasksConcat(a[1..], b, now);
      Associate(if a[0].nextReviewAt <= now then [a[0]] else [], DueTasks(a[1..], now), DueTasks(b, now));
    }
  }

  /** One task is kept exactly when it is due. */
  lemma DueTasksOne(t: ReviewTask, now: int)
    ensures DueTasks([t], now) == if t.nextReviewAt <= now then [t] else []
  {
    assert [t][1..] == [];
  }

  /** Whole days until a positive millisecond difference, rounded up (`Math.ceil`). */
  function DaysUntil(diff: int): (d: int)
    requires diff > 0
    ensures d >= 1 && (d - 1) * DAY_MS < diff <= d * DAY_MS
  {
    (diff + DAY_MS - 1) / DAY_MS
  }

  /** `getDueLabel`: today when already due, tomorrow within a day, else "N天后". */
  function DueLabel(timestamp: int, now: int): (r: string)
    ensures timestamp - now <= 0 ==> r == "今天"
    ensures 0 < timestamp - now <= DAY_MS ==> r == "明天"
    ensures timestamp - now > DAY_MS ==>
      DaysUntil(timestamp - now) >= 2 && r == NatToString(DaysUntil(timestamp - now)) + "天后"
  {
    var diff := timestamp - now;
    if diff <= 0 then "今天"
    else if DaysUntil(diff) == 1 then "明天"
    else NatToString(DaysUntil(diff)) + "天后"
  }

  /** A task due more than a day ahead is labelled with the number `d` of days such that
      the difference lies in `((d-1) days, d days]`. */
  lemma DueLabelDays(timestamp: int, now: int, d: nat)
    requires d >= 2 && (d - 1) * DAY_MS < timestamp - now <= d * DAY_MS
    ensures DueLabel(timestamp, now) == NatToString(d) + "天后"
  {
  }

  /** `reviewTasks.slice(0, 5)`. */
  function Listed(tasks: seq<ReviewTask>): (r: seq<ReviewTask>)
    ensures |r| <= 5 && r <= tasks
    ensures |tasks| >= 5 ==> |r| == 5
    ensures |tasks| < 5 ==> r == tasks
  {
    if |tasks| < 5 then tasks else tasks[..5]
  }

  /** The review button is enabled exactly when some listed-or-not task is due. */
  lemma ReviewEnabledIff(tasks: seq<ReviewTask>, now: int)
    ensures |DueTasks(tasks, now)| > 0 <==> exists i :: 0 <= i < |tasks| && tasks[i].nextReviewAt <= now
  {
    if exists i :: 0 <= i < |tasks| && tasks[i].nextReviewAt <= now {
      var i :| 0 <= i < |tasks| && tasks[i].nextReviewAt <= now;
      assert tasks[i] in DueTasks(tasks, now);
    } else if |DueTasks(tasks, now)| > 0 {
      assert DueTasks(tasks, now)[0] in tasks;
    }
  }

  /** The vocabulary list after the store has been told to complete `tasks` in order. */
  function ApplyWords(v: seq<VocabularyItem>, tasks: seq<ReviewTask>, now: int): (r: seq<VocabularyItem>)
    ensures |r| == |v|
    decreases |tasks|
  {
    if tasks == [] then v
    else
      var before := ApplyWords(v, tasks[..|tasks| - 1], now);
      var t := tasks[|tasks| - 1];
      if t.kind == Word then MarkWords(before, t.id, now) else before
  }

  /** The grammar list after the store has been told to complete `tasks` in order. */
  function ApplyGrammars(g: seq<GrammarItem>, tasks: seq<ReviewTask>, now: int): (r: seq<GrammarItem>)
    ensures |r| == |g|
    decreases |tasks|
  {
    if tasks == [] then g
    else
      var before := ApplyGrammars(g, tasks[..|tasks| - 1], now);
      var t := tasks[|tasks| - 1];
      if t.kind == Grammar then MarkGrammar(before, t.id, now) else before
  }

  /** Completing one more task of `tasks` updates only the list of its kind. */
  lemma ApplyOneMore(v: seq<VocabularyItem>, g: seq<GrammarItem>, tasks: seq<ReviewTask>, i: nat, now: int)
    requires i < |tasks|
    ensures ApplyWords(v, tasks[..i + 1], now) ==
      if tasks[i].kind == Word then MarkWords(ApplyWords(v, tasks[..i], now), tasks[i].id, now)
      else ApplyWords(v, tasks[..i], now)
    ensures ApplyGrammars(g, tasks[..i + 1], now) ==
      if tasks[i].kind == Grammar then MarkGrammar(ApplyGrammars(g, tasks[..i], now), tasks[i].id, now)
      else ApplyGrammars(g, tasks[..i], now)
  {
    assert tasks[..i + 1][..i] == tasks[..i];
  }

  /** How many tasks of `tasks` name the item `id` of list `kind`. */
  function Hits(tasks: seq<ReviewTask>, kind: TaskKind, id: string): nat
    decreases |tasks|
  {
    if tasks == [] then 0
    else
      var t := tasks[|tasks| - 1];
      Hits(tasks[..|tasks| - 1], kind, id) + (if t.kind == kind && t.id == id then 1 else 0)
  }

  /** A vocabulary item completed `n` times in a row at `now`. */
  function CompleteWordTimes(item: VocabularyItem, n: nat, now: int): (r: VocabularyItem)
    ensures r.id == item.id
  {
    if n == 0 then item else CompleteWord(CompleteWordTimes(item, n - 1, now), now)
  }

  /** A grammar item completed `n` times in a row at `now`. */
  function CompleteGrammarTimes(item: GrammarItem, n: nat, now: int): (r: GrammarItem)
    ensures r.id == item.id
  {
    if n == 0 then item else CompleteGrammar(CompleteGrammarTimes(item, n - 1, now), now)
  }

  /** Each vocabulary item is completed once per task that names it. */
  lemma {:induction false} ApplyWordsHits(v: seq<VocabularyItem>, tasks: seq<ReviewTask>, now: int)
    ensures forall i :: 0 <= i < |v| ==>
      ApplyWords(v, tasks, now)[i] == CompleteWordTimes(v[i], Hits(tasks, Word, v[i].id), now)
    decreases |tasks|
  {
    if tasks != [] {
      ApplyWordsHits(v, tasks[..|tasks| - 1], now);
    }
  }

  /** Each grammar item is completed once per task that names it. */
  lemma {:induction false} ApplyGrammarsHits(g: seq<GrammarItem>, tasks: seq<ReviewTask>, now: int)
    ensures forall i :: 0 <= i < |g| ==>
      ApplyGrammars(g, tasks, now)[i] == CompleteGrammarTimes(g[i], Hits(tasks, Grammar, g[i].id), now)
    decreases |tasks|
  {
    if tasks != [] {
      ApplyGrammarsHits(g, tasks[..|tasks| - 1], now);
    }
  }

  lemma {:induction false} HitsConcat(a: seq<ReviewTask>, b: seq<ReviewTask>, kind: TaskKind, id: string)
    ensures Hits(a + b, kind, id) == Hits(a, kind, id) + Hits(b, kind, id)
    decreases |b|
  {
    if b == [] {
      assert a + b == a;
    } else {
      assert (a + b)[..|a + b| - 1] == a + b[..|b| - 1];
      HitsConcat(a, b[..|b| - 1], kind, id);
    }
  }

  /** The test a task passes when it is due and names the item `id` of list `kind`. */
  function MatchDue(kind: TaskKind, id: string, now: int): ReviewTask -> bool {
    (t: ReviewTask) => t.kind == kind && t.id == id && t.nextReviewAt <= now
  }

  /** Among the due tasks, the ones naming an item are the due tasks naming it. */
  lemma {:induction false} HitsDue(tasks: seq<ReviewTask>, kind: TaskKind, id: string, now: int)
    ensures Hits(DueTasks(tasks, now), kind, id) == Count(tasks, MatchDue(kind, id, now))
  {
    if tasks != [] {
      var head := if tasks[0].nextReviewAt <= now then [tasks[0]] else [];
      HitsDue(tasks[1..], kind, id, now);
      HitsConcat(head, DueTasks(tasks[1..], now), kind, id);
      if head != [] {
        assert head[..0] == [];
      }
    }
  }

  /** Item ids are distinct within a list. */
  predicate DistinctWordIds(v: seq<VocabularyItem>) {
    forall i, j :: 0 <= i < j < |v| ==> v[i].id != v[j].id
  }

  predicate DistinctGrammarIds(g: seq<GrammarItem>) {
    forall i, j :: 0 <= i < j < |g| ==> g[i].id != g[j].id
  }

  lemma {:induction false} NoWordTaskFor(v: seq<VocabularyItem>, id: string, now: int)
    requires forall j :: 0 <= j < |v| ==> v[j].id != id
    ensures Count(WordTasks(v), MatchDue(Word, id, now)) == 0
  {
    if v != [] {
      TasksTail(WordTask(v[0]), WordTasks(v[1..]));
      NoWordTaskFor(v[1..], id, now);
    }
  }

  lemma {:induction false} NoGrammarTaskFor(g: seq<GrammarItem>, id: string, now: int)
    requires forall j :: 0 <= j < |g| ==> g[j].id != id
    ensures Count(GrammarTasks(g), MatchDue(Grammar, id, now)) == 0
  {
    if g != [] {
      TasksTail(GrammarTask(g[0]), GrammarTasks(g[1..]));
      NoGrammarTaskFor(g[1..], id, now);
    }
  }

  /** No grammar task names a vocabulary item, and no word task a grammar item. */
  lemma {:induction false} OtherKindNoHits(v: seq<VocabularyItem>, g: seq<GrammarItem>, id: string, now: int)
    ensures Count(GrammarTasks(g), MatchDue(Word, id, now)) == 0
    ensures Count(WordTasks(v), MatchDue(Grammar, id, now)) == 0
    decreases |v| + |g|
  {
    if g != [] {
      TasksTail(GrammarTask(g[0]), GrammarTasks(g[1..]));
      OtherKindNoHits([], g[1..], id, now);
    }
    if v != [] {
      TasksTail(WordTask(v[0]), WordTasks(v[1..]));
      OtherKindNoHits(v[1..], [], id, now);
    }
  }

  /** With distinct ids, the word task of `v[i]` is the only one naming it. */
  lemma {:induction false} OneWordTask(v: seq<VocabularyItem>, i: nat, now: int)
    requires DistinctWordIds(v) && i < |v|
    ensures Count(WordTasks(v), MatchDue(Word, v[i].id, now)) == if v[i].nextReviewAt <= now then 1 else 0
  {
    TasksTail(WordTask(v[0]), WordTasks(v[1..]));
    if i == 0 {
      NoWordTaskFor(v[1..], v[0].id, now);
    } else {
      OneWordTask(v[1..], i - 1, now);
    }
  }

  lemma {:induction false} OneGrammarTask(g: seq<GrammarItem>, i: nat, now: int)
    requires DistinctGrammarIds(g) && i < |g|
    ensures Count(GrammarTasks(g), MatchDue(Grammar, g[i].id, now)) == if g[i].nextReviewAt <= now then 1 else 0
  {
    TasksTail(GrammarTask(g[0]), GrammarTasks(g[1..]));
    if i == 0 {
      NoGrammarTaskFor(g[1..], g[0].id, now);
    } else {
      OneGrammarTask(g[1..], i - 1, now);
    }
  }

  /** In the due part of a fresh queue, exactly one task names a due vocabulary item
      and none names one that is not due. */
  lemma WordHitsInQueue(v: seq<VocabularyItem>, g: seq<GrammarItem>, i: nat, now: int)
    requires DistinctWordIds(v) && i < |v|
    ensures Hits(DueTasks(BuildQueue(v, g), now), Word, v[i].id) == if v[i].nextReviewAt <= now then 1 else 0
  {
    HitsDue(BuildQueue(v, g), Word, v[i].id, now);
    CountQueue(v, g, MatchDue(Word, v[i].id, now));
    OtherKindNoHits(v, g, v[i].id, now);
    OneWordTask(v, i, now);
  }

  lemma GrammarHitsInQueue(v: seq<VocabularyItem>, g: seq<GrammarItem>, i: nat, now: int)
    requires DistinctGrammarIds(g) && i < |g|
    ensures Hits(DueTasks(BuildQueue(v, g), now), Grammar, g[i].id) == if g[i].nextReviewAt <= now then 1 else 0
  {
    HitsDue(BuildQueue(v, g), Grammar, g[i].id, now);
    CountQueue(v, g, MatchDue(Grammar, g[i].id, now));
    OtherKindNoHits(v, g, g[i].id, now);
    OneGrammarTask(g, i, now);
  }

  lemma WordCompletedOnceIfDue(v: seq<VocabularyItem>, due: seq<ReviewTask>, i: nat, now: int)
    requires i < |v| && Hits(due, Word, v[i].id) == if v[i].nextReviewAt <= now then 1 else 0
    ensures ApplyWords(v, due, now)[i] == if v[i].nextReviewAt <= now then CompleteWord(v[i], now) else v[i]
  {
    ApplyWordsHits(v, due, now);
    assert CompleteWordTimes(v[i], 1, now) == CompleteWord(v[i], now);
  }

  lemma GrammarCompletedOnceIfDue(g: seq<GrammarItem>, due: seq<ReviewTask>, i: nat, now: int)
    requires i < |g| && Hits(due, Grammar, g[i].id) == if g[i].nextReviewAt <= now then 1 else 0
    ensures ApplyGrammars(g, due, now)[i] == if g[i].nextReviewAt <= now then CompleteGrammar(g[i], now) else g[i]
  {
    ApplyGrammarsHits(g, due, now);
    assert CompleteGrammarTimes(g[i], 1, now) == CompleteGrammar(g[i], now);
  }

  /** Starting a review on a fresh queue completes each due vocabulary item exactly once
      and leaves the others as they were. */
  lemma StartReviewWords(v: seq<VocabularyItem>, g: seq<GrammarItem>, now: int)
    requires DistinctWordIds(v)
    ensures var after := ApplyWords(v, DueTasks(BuildQueue(v, g), now), now);
      forall i :: 0 <= i < |v| ==>
        after[i] == if v[i].nextReviewAt <= now then CompleteWord(v[i], now) else v[i]
  {
    var due := DueTasks(BuildQueue(v, g), now);
    forall i | 0 <= i < |v|
      ensures ApplyWords(v, due, now)[i] == if v[i].nextReviewAt <= now then CompleteWord(v[i], now) else v[i]
    {
      WordHitsInQueue(v, g, i, now);
      WordCompletedOnceIfDue(v, due, i, now);
    }
  }

  /** The same for grammar items. */
  lemma StartReviewGrammars(v: seq<VocabularyItem>, g: seq<GrammarItem>, now: int)
    requires DistinctGrammarIds(g)
    ensures var after := ApplyGrammars(g, DueTasks(BuildQueue(v, g), now), now);
      forall i :: 0 <= i < |g| ==>
        after[i] == if g[i].nextReviewAt <= now then CompleteGrammar(g[i], now) else g[i]
  {
    var due := DueTasks(BuildQueue(v, g), now);
    forall i | 0 <= i < |g|
      ensures ApplyGrammars(g, due, now)[i] == if g[i].nextReviewAt <= now then CompleteGrammar(g[i], now) else g[i]
    {
      GrammarHitsInQueue(v, g, i, now);
      GrammarCompletedOnceIfDue(g, due, i, now);
    }
  }

  /** The test a task passes when it is due. */
  function IsDue(now: int): ReviewTask -> bool {
    (t: ReviewTask) => t.nextReviewAt <= now
  }

  lemma {:induction false} DueLength(tasks: seq<ReviewTask>, now: int)
    ensures |DueTasks(tasks, now)| == Count(tasks, IsDue(now))
  {
    if tasks != [] {
      DueLength(tasks[1..], now);
    }
  }

  /** The due count of the queue is the number of due words plus due grammar items. */
  lemma DueCountSplits(v: seq<VocabularyItem>, g: seq<GrammarItem>, now: int)
    ensures |DueTasks(BuildQueue(v, g), now)| ==
      |DueTasks(WordTasks(v), now)| + |DueTasks(GrammarTasks(g), now)|
  {
    DueLength(BuildQueue(v, g), now);
    DueLength(WordTasks(v), now);
    DueLength(GrammarTasks(g), now);
    CountQueue(v, g, IsDue(now));
  }

  /** Three tasks due at 100, 500 and 900: at 500 two are due, the boundary included. */
  lemma DueCountExample()
    ensures |DueTasks([ReviewTask("a", "x", Word, 100), ReviewTask("b", "y", Grammar, 500),
                       ReviewTask("c", "z", Word, 900)], 500)| == 2
  {
    var s := [ReviewTask("a", "x", Word, 100), ReviewTask("b", "y", Grammar, 500),
              ReviewTask("c", "z", Word, 900)];
    assert s[1..][1..][1..] == [];
  }

  class DashboardView {
    /** The store the dashboard reads and updates. */
    const store: Store
    /** The queue shown in the panel, as last refreshed. */
    var reviewTasks: seq<ReviewTask>
    /** The number of queued tasks due at the last refresh. */
    var dueCount: nat

    /** Mounting the dashboard refreshes the queue. */
    constructor (s: Store, now: int)
      modifies s`vocabulary, s`grammar
      ensures store == s
      ensures reviewTasks == BuildQueue(old(s.Words()), old(s.Grammars()))
      ensures dueCount == |DueTasks(reviewTasks, now)|
      ensures s.Words() == old(s.Words()) && s.Grammars() == old(s.Grammars())
    {
      store := s;
      reviewTasks := [];
      dueCount := 0;
      new;
      Refresh(now);
    }

    /** `dueCount > 0`: whether "start review" is enabled. */
    predicate ReviewEnabled()
      reads this
    {
      dueCount > 0
    }

    /** `refreshReviews`: reload the queue and recount the due tasks. */
    method Refresh(now: int)
      modifies this`reviewTasks, this`dueCount, store`vocabulary, store`grammar
      ensures reviewTasks == BuildQueue(old(store.Words()), old(store.Grammars()))
      ensures dueCount == |DueTasks(reviewTasks, now)|
      ensures store.Words() == old(store.Words()) && store.Grammars() == old(store.Grammars())
    {
      var items := store.GetReviewItems();
      reviewTasks := items;
      dueCount := |DueTasks(items, now)|;
    }

    /** `handleStartReview`: completes every queued task due at `now`, in queue order,
        returns how many there were, and refreshes. */
    method StartReview(now: int) returns (completed: nat)
      modifies this`reviewTasks, this`dueCount, store`vocabulary, store`grammar
      ensures completed == |DueTasks(old(reviewTasks), now)|
      ensures store.Words() == ApplyWords(old(store.Words()), DueTasks(old(reviewTasks), now), now)
      ensures store.Grammars() == ApplyGrammars(old(store.Grammars()), DueTasks(old(reviewTasks), now), now)
      ensures reviewTasks == BuildQueue(store.Words(), store.Grammars())
      ensures dueCount == |DueTasks(reviewTasks, now)|
    {
      ghost var words0 := store.Words();
      ghost var grammars0 := store.Grammars();
      var due := DueTasks(reviewTasks, now);
      var i := 0;
      while i < |due|
        invariant 0 <= i <= |due|
        invariant store.Words() == ApplyWords(words0, due[..i], now)
        invariant store.Grammars() == ApplyGrammars(grammars0, due[..i], now)
      {
        ApplyOneMore(words0, grammars0, due, i, now);
        store.MarkReviewComplete(due[i].id, due[i].kind, now);
        i := i + 1;
      }
      assert due[..|due|] == due;
      completed := |due|;
      Refresh(now);
    }
  }
}
