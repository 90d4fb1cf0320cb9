/**
 * The spaced-repetition scheduler of the storage service: the interval table, the
 * per-item update applied when a review is completed, and the review queue built from
 * the vocabulary and grammar lists (projection, then a stable sort by due time).
 */
module Review {
  import opened Types

  /** Days to wait after reaching each stage (`REVIEW_INTERVALS`). */
  const REVIEW_INTERVALS: seq<nat> := [1, 2, 4, 7, 15, 30]

  /** Milliseconds in a day, as written in the service. */
  const DAY_MS: nat := 86400000

  /** The highest stage: the last index of the interval table. */
  const MAX_STAGE: nat := |REVIEW_INTERVALS| - 1

  /** `Math.min(stage + 1, REVIEW_INTERVALS.length - 1)`. */
  function NextStage(stage: nat): (r: nat)
    ensures 1 <= r <= MAX_STAGE && r < |REVIEW_INTERVALS|
    ensures stage < MAX_STAGE ==> r == stage + 1
    ensures stage >= MAX_STAGE ==> r == MAX_STAGE
  {
    if stage + 1 <= MAX_STAGE then stage + 1 else MAX_STAGE
  }

  /** The due time set when an item reaches `stage` at time `now`. */
  function DueAfter(stage: nat, now: int): int
    requires stage < |REVIEW_INTERVALS|
  {
    now + REVIEW_INTERVALS[stage] * DAY_MS
  }

  /** The update `markReviewComplete` applies to a vocabulary item whose id matches. */
  function CompleteWord(item: VocabularyItem, now: int): (r: VocabularyItem)
    ensures r.stage == NextStage(item.stage)
    ensures r.nextReviewAt == DueAfter(r.stage, now)
    ensures r.(stage := item.stage, nextReviewAt := item.nextReviewAt) == item
  {
    var s := NextStage(item.stage);
    item.(stage := s, nextReviewAt := DueAfter(s, now))
  }

  /** The update `markReviewComplete` applies to a grammar item whose id matches. */
  function CompleteGrammar(item: GrammarItem, now: int): (r: GrammarItem)
    ensures r.stage == NextStage(item.stage)
    ensures r.nextReviewAt == DueAfter(r.stage, now)
    ensures r.(stage := item.stage, nextReviewAt := item.nextReviewAt) == item
  {
    var s := NextStage(item.stage);
    item.(stage := s, nextReviewAt := DueAfter(s, now))
  }

  /** A completed item is never due again on the same instant: its next review is at
      least two days later, and at most thirty. */
  lemma CompletedNotDue(item: VocabularyItem, g: GrammarItem, now: int)
    ensures now + 2 * DAY_MS <= CompleteWord(item, now).nextReviewAt <= now + 30 * DAY_MS
    ensures now + 2 * DAY_MS <= CompleteGrammar(g, now).nextReviewAt <= now + 30 * DAY_MS
  {
    var s := NextStage(item.stage);
    var t := NextStage(g.stage);
    assert 2 <= REVIEW_INTERVALS[s] <= 30;
    assert 2 <= REVIEW_INTERVALS[t] <= 30;
  }

  /** The stage never decreases, and completing an item at the top stage keeps it there. */
  lemma StageMonotoneAndCapped(item: VocabularyItem, now: int)
    ensures item.stage <= MAX_STAGE ==> item.stage <= CompleteWord(item, now).stage
    ensures item.stage == MAX_STAGE ==> CompleteWord(item, now).stage == MAX_STAGE
  {
  }

  /** The two worked cases of the schedule: a stage-0 item completed at `t` is due two days
      later at stage 1, and a stage-5 item stays at stage 5 and is due thirty days later. */
  lemma ScheduleExamples(t: int)
    ensures var r := CompleteWord(VocabularyItem("v", "w", "", "", "", 0, t - 1000, 0), t);
            r.stage == 1 && r.nextReviewAt == t + 2 * 86400000
    ensures var r := CompleteWord(VocabularyItem("v", "w", "", "", "", 0, t - 1, 5), t);
            r.stage == 5 && r.nextReviewAt == t + 30 * 86400000
  {
  }

  /** `list.map(item => item.id === id ? complete(item) : item)` on the vocabulary list. */
  function MarkWords(list: seq<VocabularyItem>, id: string, now: int): (r: seq<VocabularyItem>)
    ensures |r| == |list|
    ensures forall i :: 0 <= i < |list| ==>
      r[i] == if list[i].id == id then CompleteWord(list[i], now) else list[i]
  {
    if list == [] then []
    else [if list[0].id == id then CompleteWord(list[0], now) else list[0]] + MarkWords(list[1..], id, now)
  }

  /** The same update on the grammar list. */
  function MarkGrammar(list: seq<GrammarItem>, id: string, now: int): (r: seq<GrammarItem>)
    ensures |r| == |list|
    ensures forall i :: 0 <= i < |list| ==>
      r[i] == if list[i].id == id then CompleteGrammar(list[i], now) else list[i]
  {
    if list == [] then []
    else [if list[0].id == id then CompleteGrammar(list[0], now) else list[0]] + MarkGrammar(list[1..], id, now)
  }

  /** A vocabulary item seen as a review task: its word is the title. */
  function WordTask(v: VocabularyItem): ReviewTask {
    ReviewTask(v.id, v.word, Word, v.nextReviewAt)
  }

  /** A grammar item seen as a review task: its rule is the title. */
  function GrammarTask(g: GrammarItem): ReviewTask {
    ReviewTask(g.id, g.rule, Grammar, g.nextReviewAt)
  }

  function WordTasks(v: seq<VocabularyItem>): (r: seq<ReviewTask>)
    ensures |r| == |v| && forall i :: 0 <= i < |v| ==> r[i] == WordTask(v[i])
  {
    if v == [] then [] else [WordTask(v[0])] + WordTasks(v[1..])
  }

  function GrammarTasks(g: seq<GrammarItem>): (r: seq<ReviewTask>)
    ensures |r| == |g| && forall i :: 0 <= i < |g| ==> r[i] == GrammarTask(g[i])
  {
    if g == [] then [] else [GrammarTask(g[0])] + GrammarTasks(g[1..])
  }

  lemma TasksTail(t: ReviewTask, rest: seq<ReviewTask>)
    ensures ([t] + rest)[1..] == rest
  {
  }

  /** Ascending by due time. */
  ghost predicate Sorted(s: seq<ReviewTask>) {
    forall i, j :: 0 <= i < j < |s| ==> s[i].nextReviewAt <= s[j].nextReviewAt
  }

  /** Puts `t` in front of the first task that is due no earlier than `t`. */
  function Insert(t: ReviewTask, s: seq<ReviewTask>): (r: seq<ReviewTask>)
    ensures multiset(r) == multiset(s) + multiset{t}
    ensures Sorted(s) ==> Sorted(r)
  {
    if s == [] || t.nextReviewAt <= s[0].nextReviewAt then [t] + s
    else
      var rest := Insert(t, s[1..]);
      assert s == [s[0]] + s[1..];
      InsertStep(t, s, rest);
      [s[0]] + rest
  }

  /** The step of `Insert` past the first task keeps a sorted list sorted. */
  lemma InsertStep(t: ReviewTask, s: seq<ReviewTask>, rest: seq<ReviewTask>)
    requires s != [] && s[0].nextReviewAt < t.nextReviewAt
    requires multiset(rest) == multiset(s[1..]) + multiset{t}
    requires Sorted(s[1..]) ==> Sorted(rest)
    ensures Sorted(s) ==> Sorted([s[0]] + rest)
  {
    if Sorted(s) {
      forall x | x in rest ensures s[0].nextReviewAt <= x.nextReviewAt {
        assert x in multiset(rest);
        if x != t {
          assert x in multiset(s[1..]);
          var j :| 0 <= j < |s[1..]| && s[1..][j] == x;
          assert s[j + 1] == x;
        }
      }
      var r := [s[0]] + rest;
      forall i, j | 0 <= i < j < |r| ensures r[i].nextReviewAt <= r[j].nextReviewAt {
        if i == 0 {
          assert r[j] == rest[j - 1];
          assert r[j] in rest;
        } else {
          assert r[i] == rest[i - 1] && r[j] == rest[j - 1];
        }
      }
    }
  }

  /** `Array.prototype.sort` with comparator `a.nextReviewAt - b.nextReviewAt`, which is a
      stable sort: written as an insertion sort. */
  function SortByDue(s: seq<ReviewTask>): (r: seq<ReviewTask>)
    ensures Sorted(r)
    ensures multiset(r) == multiset(s)
  {
    if s == [] then []
    else
      assert s == [s[0]] + s[1..];
      Insert(s[0], SortByDue(s[1..]))
  }

  /** The tasks of `s` with due time `k`, in order. */
  function WithDue(s: seq<ReviewTask>, k: int): seq<ReviewTask> {
    if s == [] then []
    else (if s[0].nextReviewAt == k then [s[0]] else []) + WithDue(s[1..], k)
  }

  lemma {:induction false} WithDueConcat(a: seq<ReviewTask>, b: seq<ReviewTask>, k: int)
    ensures WithDue(a + b, k) == WithDue(a, k) + WithDue(b, k)
  {
    if a != [] {
      assert (a + b)[1..] == a[1..] + b;
      WithDueConcat(a[1..], b, k);
    } else {
      assert a + b == b;
    }
  }

  lemma {:induction false} InsertWithDue(t: ReviewTask, s: seq<ReviewTask>, k: int)
    ensures WithDue(Insert(t, s), k) == WithDue([t], k) + WithDue(s, k)
  {
    if s == [] || t.nextReviewAt <= s[0].nextReviewAt {
      WithDueConcat([t], s, k);
    } else {
      var rest := Insert(t, s[1..]);
      calc {
        WithDue(Insert(t, s), k);
        == { assert Insert(t, s) == [s[0]] + rest; }
        WithDue([s[0]] + rest, k);
        == { WithDueConcat([s[0]], rest, k); }
        WithDue([s[0]], k) + WithDue(rest, k);
        == { InsertWithDue(t, s[1..], k); }
        WithDue([s[0]], k) + (WithDue([t], k) + WithDue(s[1..], k));
        == { WithDueConcat([s[0]], s[1..], k); assert [s[0]] + s[1..] == s; }
        WithDue([t], k) + WithDue(s, k);
      }
    }
  }

  /** The sort is stable: among the tasks due at any one time, the input order is kept. */
  lemma {:induction false} SortStable(s: seq<ReviewTask>, k: int)
    ensures WithDue(SortByDue(s), k) == WithDue(s, k)
  {
    if s != [] {
      var sorted := SortByDue(s[1..]);
      calc {
        WithDue(SortByDue(s), k);
        == { assert SortByDue(s) == Insert(s[0], sorted); }
        WithDue(Insert(s[0], sorted), k);
        == { InsertWithDue(s[0], sorted, k); }
        WithDue([s[0]], k) + WithDue(sorted, k);
        == { SortStable(s[1..], k); }
        WithDue([s[0]], k) + WithDue(s[1..], k);
        == { WithDueConcat([s[0]], s[1..], k); assert [s[0]] + s[1..] == s; }
        WithDue(s, k);
      }
    }
  }

  /** `getReviewItems` on the two lists: word tasks, then grammar tasks, sorted by due time. */
  function BuildQueue(v: seq<VocabularyItem>, g: seq<GrammarItem>): seq<ReviewTask> {
    SortByDue(WordTasks(v) + GrammarTasks(g))
  }

  /** The queue is sorted, holds exactly one task per item, and every task copies the id,
      due time and title of an item of the matching kind. */
  lemma QueueContents(v: seq<VocabularyItem>, g: seq<GrammarItem>)
    ensures Sorted(BuildQueue(v, g))
    ensures multiset(BuildQueue(v, g)) == multiset(WordTasks(v)) + multiset(GrammarTasks(g))
    ensures |BuildQueue(v, g)| == |v| + |g|
    ensures forall t :: t in BuildQueue(v, g) <==>
      (exists i :: 0 <= i < |v| && t == WordTask(v[i])) || (exists j :: 0 <= j < |g| && t == GrammarTask(g[j]))
  {
    var all := WordTasks(v) + GrammarTasks(g);
    var q := BuildQueue(v, g);
    assert multiset(q) == multiset(all);
    assert |q| == |multiset(q)| == |multiset(all)| == |all|;
    forall t
      ensures t in q <==>
        (exists i :: 0 <= i < |v| && t == WordTask(v[i])) || (exists j :: 0 <= j < |g| && t == GrammarTask(g[j]))
    {
      assert t in q <==> t in multiset(q);
      assert t in all <==> t in multiset(all);
      InWordTasks(v, t);
      InGrammarTasks(g, t);
    }
  }

  lemma InWordTasks(v: seq<VocabularyItem>, t: ReviewTask)
    ensures t in WordTasks(v) <==> exists i :: 0 <= i < |v| && t == WordTask(v[i])
  {
    if t in WordTasks(v) {
      var i :| 0 <= i < |v| && WordTasks(v)[i] == t;
    }
    if exists i :: 0 <= i < |v| && t == WordTask(v[i]) {
      var i :| 0 <= i < |v| && t == WordTask(v[i]);
      assert WordTasks(v)[i] == t;
    }
  }

  lemma InGrammarTasks(g: seq<GrammarItem>, t: ReviewTask)
    ensures t in GrammarTasks(g) <==> exists j :: 0 <= j < |g| && t == GrammarTask(g[j])
  {
    if t in GrammarTasks(g) {
      var j :| 0 <= j < |g| && GrammarTasks(g)[j] == t;
    }
    if exists j :: 0 <= j < |g| && t == GrammarTask(g[j]) {
      var j :| 0 <= j < |g| && t == GrammarTask(g[j]);
      assert GrammarTasks(g)[j] == t;
    }
  }

  lemma {:induction false} WithDueKeepsKind(s: seq<ReviewTask>, k: int, kind: TaskKind)
    requires forall i :: 0 <= i < |s| ==> s[i].kind == kind
    ensures forall i :: 0 <= i < |WithDue(s, k)| ==> WithDue(s, k)[i].kind == kind && WithDue(s, k)[i].nextReviewAt == k
  {
    if s != [] {
      WithDueKeepsKind(s[1..], k, kind);
    }
  }

  /** Ties in due time are broken vocabulary first: among the queue's tasks due at `k`, the
      word tasks of `v` come in their order, then the grammar tasks of `g`, so no grammar
      task is ahead of a word task. */
  lemma QueueTieBreak(v: seq<VocabularyItem>, g: seq<GrammarItem>, k: int)
    ensures WithDue(BuildQueue(v, g), k) == WithDue(WordTasks(v), k) + WithDue(GrammarTasks(g), k)
    ensures var f := WithDue(BuildQueue(v, g), k);
      forall i, j :: 0 <= i < j < |f| ==> !(f[i].kind == Grammar && f[j].kind == Word)
  {
    SortStable(WordTasks(v) + GrammarTasks(g), k);
    WithDueConcat(WordTasks(v), GrammarTasks(g), k);
    WithDueKeepsKind(WordTasks(v), k, Word);
    WithDueKeepsKind(GrammarTasks(g), k, Grammar);
    KindsInOrder(WithDue(WordTasks(v), k), WithDue(GrammarTasks(g), k));
  }

  /** Word tasks followed by grammar tasks have no grammar task ahead of a word task. */
  lemma KindsInOrder(a: seq<ReviewTask>, b: seq<ReviewTask>)
    requires forall i :: 0 <= i < |a| ==> a[i].kind == Word
    requires forall i :: 0 <= i < |b| ==> b[i].kind == Grammar
    ensures forall i, j :: 0 <= i < j < |a + b| ==> !((a + b)[i].kind == Grammar && (a + b)[j].kind == Word)
  {
    var f := a + b;
    forall i, j | 0 <= i < j < |f| ensures !(f[i].kind == Grammar && f[j].kind == Word) {
      if i < |a| {
        assert f[i] == a[i];
      } else {
        assert f[i] == b[i - |a|] && f[j] == b[j - |a|];
      }
    }
  }

  /** The worked tie case: a word and a grammar item both due at 100 are queued word first. */
  lemma TieExample()
    ensures BuildQueue([VocabularyItem("v1", "w", "", "", "", 0, 100, 0)],
                       [GrammarItem("g1", "s", "r", "", 0, 100, 0)])
         == [ReviewTask("v1", "w", Word, 100), ReviewTask("g1", "r", Grammar, 100)]
  {
    var a := [ReviewTask("v1", "w", Word, 100)];
    var b := [ReviewTask("g1", "r", Grammar, 100)];
    assert WordTasks([VocabularyItem("v1", "w", "", "", "", 0, 100, 0)]) == a;
    assert GrammarTasks([GrammarItem("g1", "s", "r", "", 0, 100, 0)]) == b;
    assert (a + b)[1..] == b;
  }

  /** How many tasks of `s` satisfy `p`. */
  function Count(s: seq<ReviewTask>, p: ReviewTask -> bool): nat {
    if s == [] then 0 else (if p(s[0]) then 1 else 0) + Count(s[1..], p)
  }

  lemma {:induction false} CountConcat(a: seq<ReviewTask>, b: seq<ReviewTask>, p: ReviewTask -> bool)
    ensures Count(a + b, p) == Count(a, p) + Count(b, p)
  {
    if a != [] {
      assert (a + b)[1..] == a[1..] + b;
      CountConcat(a[1..], b, p);
    } else {
      assert a + b == b;
    }
  }

  lemma {:induction false} CountInsert(t: ReviewTask, s: seq<ReviewTask>, p: ReviewTask -> bool)
    ensures Count(Insert(t, s), p) == Count([t], p) + Count(s, p)
  {
    if s == [] || t.nextReviewAt <= s[0].nextReviewAt {
      CountConcat([t], s, p);
    } else {
      CountInsert(t, s[1..], p);
      CountConcat([s[0]], Insert(t, s[1..]), p);
    }
  }

  /** Sorting changes no count. */
  lemma {:induction false} CountSort(s: seq<ReviewTask>, p: ReviewTask -> bool)
    ensures Count(SortByDue(s), p) == Count(s, p)
  {
    if s != [] {
      CountSort(s[1..], p);
      CountInsert(s[0], SortByDue(s[1..]), p);
    }
  }

  /** Counting over the queue is counting over the word tasks plus the grammar tasks. */
  lemma CountQueue(v: seq<VocabularyItem>, g: seq<GrammarItem>, p: ReviewTask -> bool)
    ensures Count(BuildQueue(v, g), p) == Count(WordTasks(v), p) + Count(GrammarTasks(g), p)
  {
    CountSort(WordTasks(v) + GrammarTasks(g), p);
    CountConcat(WordTasks(v), GrammarTasks(g), p);
  }
}
