/**
 * Transcript segmentation shared by the two labs: a transcript is cut at `mm:ss` stamps
 * into marks carrying the stamp's second count and the trimmed text that follows it up to
 * the next stamp; without stamps it may be cut into sentences instead.
 *
 * The stamp search models a global match of `(STAMP)\s*([\s\S]*?)(?=STAMP|$)`: a match
 * starts at the first stamp at or after the last match's end, and its lazy content stops
 * at the first stamp after the matched stamp, or at the end of the text.
 */
module Transcript {
  import opened Strings

  /** The listening lab's stamps need two minute digits (`\d{2}:\d{2}`); the speaking
      lab's accept one or two (`\d{1,2}:\d{2}`). */
  datatype Flavor = TwoDigit | OneOrTwoDigit

  /** `dd:dd` at the start of `s`. */
  predicate TwoDigitStamp(s: string) {
    |s| >= 5 && IsDigit(s[0]) && IsDigit(s[1]) && s[2] == ':' && IsDigit(s[3]) && IsDigit(s[4])
  }

  /** `d:dd` at the start of `s`. */
  predicate OneDigitStamp(s: string) {
    |s| >= 4 && IsDigit(s[0]) && s[1] == ':' && IsDigit(s[2]) && IsDigit(s[3])
  }

  /** The length of the stamp the pattern matches at the start of `s`, or 0. The greedy
      `\d{1,2}` tries two minute digits before one. */
  function StampLen(s: string, f: Flavor): (n: nat)
    ensures n <= |s|
    ensures n == 5 <==> TwoDigitStamp(s)
    ensures n == 4 <==> f == OneOrTwoDigit && !TwoDigitStamp(s) && OneDigitStamp(s)
    ensures n == 0 || n == 4 || n == 5
  {
    if TwoDigitStamp(s) then 5 else if f == OneOrTwoDigit && OneDigitStamp(s) then 4 else 0
  }

  /** `min * 60 + sec` for the stamp at the start of `s`. Seconds are not range-checked:
      `00:99` is 99 seconds. */
  function StampSeconds(s: string, f: Flavor): (t: nat)
    requires StampLen(s, f) > 0
    ensures StampLen(s, f) == 5 ==>
      t == (DigitValue(s[0]) * 10 + DigitValue(s[1])) * 60 + DigitValue(s[3]) * 10 + DigitValue(s[4])
    ensures StampLen(s, f) == 4 ==>
      t == DigitValue(s[0]) * 60 + DigitValue(s[2]) * 10 + DigitValue(s[3])
    ensures t < 100 * 60 + 100
  {
    if StampLen(s, f) == 5 then
      (DigitValue(s[0]) * 10 + DigitValue(s[1])) * 60 + DigitValue(s[3]) * 10 + DigitValue(s[4])
    else
      DigitValue(s[0]) * 60 + DigitValue(s[2]) * 10 + DigitValue(s[3])
  }

  /** The position of the first stamp in `s`, or `|s|` when there is none. */
  function NextStamp(s: string, f: Flavor): (r: nat)
    ensures r <= |s|
    ensures r < |s| ==> StampLen(s[r..], f) > 0
    ensures forall k :: 0 <= k < r ==> StampLen(s[k..], f) == 0
  {
    if s == [] then 0
    else if StampLen(s, f) > 0 then 0
    else
      var r := NextStamp(s[1..], f);
      assert forall k :: 1 <= k < r + 1 ==> s[k..] == s[1..][k - 1..];
      1 + r
  }

  /** A matched stamp: its second count and its trimmed content. */
  datatype Mark = Mark(start: nat, content: string)

  /** Every match of the stamp pattern in `s`, in text order. */
  function Marks(s: string, f: Flavor): seq<Mark>
    decreases |s|
  {
    var p := NextStamp(s, f);
    if p == |s| then []
    else
      var n := StampLen(s[p..], f);
      var body := s[p + n..];
      var q := NextStamp(body, f);
      [Mark(StampSeconds(s[p..], f), Trim(body[..q]))] + Marks(body[q..], f)
  }

  /** `s` contains a stamp (the listening lab's `timestampRegex.test`). */
  predicate HasStamp(s: string, f: Flavor) {
    NextStamp(s, f) < |s|
  }

  /** Text has a stamp exactly when it yields at least one mark. */
  lemma MarksWhenStamped(s: string, f: Flavor)
    ensures |Marks(s, f)| > 0 <==> HasStamp(s, f)
  {
  }

  /** `mm:ss` for a second count below 100 minutes. */
  function Stamp(t: nat): (r: string)
    requires t < 6000
    ensures |r| == 5
  {
    [DigitChar(t / 60 / 10), DigitChar(t / 60 % 10), ':', DigitChar(t % 60 / 10), DigitChar(t % 60 % 10)]
  }

  /** A transcript written from its marks: each stamp, a space, the text, a space. */
  function Render(ms: seq<Mark>): string
    requires forall i :: 0 <= i < |ms| ==> ms[i].start < 6000
  {
    if ms == [] then [] else Stamp(ms[0].start) + " " + ms[0].content + " " + Render(ms[1..])
  }

  /** Marks that can be written out and read back: stamps below 100 minutes, texts that
      are nonempty, trimmed and free of stamps. */
  predicate Renderable(ms: seq<Mark>, f: Flavor) {
    forall i :: 0 <= i < |ms| ==> RenderableMark(ms[i], f)
  }

  predicate RenderableMark(m: Mark, f: Flavor) {
    && m.start < 6000
    && m.content != []
    && IsTrimmed(m.content)
    && forall k :: 0 <= k < |m.content| ==> StampLen(m.content[k..], f) == 0
  }

  lemma StampRoundTrip(t: nat, rest: string, f: Flavor)
    requires t < 6000
    ensures StampLen(Stamp(t) + rest, f) == 5
    ensures StampSeconds(Stamp(t) + rest, f) == t
  {
    var s := Stamp(t) + rest;
    assert s[0] == DigitChar(t / 60 / 10) && s[1] == DigitChar(t / 60 % 10);
    assert s[3] == DigitChar(t % 60 / 10) && s[4] == DigitChar(t % 60 % 10);
  }

  /** A space ends any stamp that would run into it. */
  lemma StampBrokenBySpace(u: string, w: string, f: Flavor)
    requires StampLen(u, f) == 0
    ensures StampLen(u + " " + w, f) == 0
  {
    var s := u + " " + w;
    assert s[|u|] == ' ';
    if |u| >= 5 {
      assert s[..5] == u[..5];
    } else if |u| >= 4 {
      assert s[..4] == u[..4];
    }
  }

  /** The first stamp of a sequence is found where the caller says it is. */
  lemma {:induction false} NextStampAt(s: string, f: Flavor, r: nat)
    requires r <= |s|
    requires forall k :: 0 <= k < r ==> StampLen(s[k..], f) == 0
    requires r < |s| ==> StampLen(s[r..], f) > 0
    ensures NextStamp(s, f) == r
  {
    if r > 0 {
      assert StampLen(s[0..], f) == 0 && s[0..] == s;
      forall k | 0 <= k < r - 1 ensures StampLen(s[1..][k..], f) == 0 {
        assert s[1..][k..] == s[k + 1..];
      }
      assert r - 1 < |s| - 1 ==> s[1..][r - 1..] == s[r..];
      NextStampAt(s[1..], f, r - 1);
    } else {
      assert s[0..] == s;
    }
  }

  /** In `" " + text + " " + rest` the first stamp is the one `rest` starts with. */
  lemma PaddedTextFirstStamp(text: string, rest: string, f: Flavor)
    requires forall k :: 0 <= k < |text| ==> StampLen(text[k..], f) == 0
    requires rest == [] || StampLen(rest, f) > 0
    ensures NextStamp(" " + text + " " + rest, f) == |text| + 2
  {
    var body := " " + text + " " + rest;
    forall k | 0 <= k < |text| + 2 ensures StampLen(body[k..], f) == 0 {
      if k == 0 || k == |text| + 1 {
        assert body[k] == ' ';
      } else {
        assert body[k..] == text[k - 1..] + " " + rest;
        StampBrokenBySpace(text[k - 1..], rest, f);
      }
    }
    assert body[|text| + 2..] == rest;
    NextStampAt(body, f, |text| + 2);
  }

  /** Text that starts with a stamp reads as the mark of that stamp, then the marks of
      what follows its text. */
  lemma MarksFromStart(s: string, f: Flavor)
    requires StampLen(s, f) > 0
    ensures var body := s[StampLen(s, f)..];
      var q := NextStamp(body, f);
      Marks(s, f) == [Mark(StampSeconds(s, f), Trim(body[..q]))] + Marks(body[q..], f)
  {
    NextStampAt(s, f, 0);
    assert NextStamp(s, f) == 0;
    assert s[NextStamp(s, f)..] == s;
  }

  /** After a stamp, `" " + text + " " + rest` splits into the trimmed text and `rest`. */
  lemma PaddedBody(text: string, rest: string, f: Flavor)
    requires text != [] && IsTrimmed(text)
    requires forall k :: 0 <= k < |text| ==> StampLen(text[k..], f) == 0
    requires rest == [] || StampLen(rest, f) > 0
    ensures var body := " " + text + " " + rest;
      var q := NextStamp(body, f);
      Trim(body[..q]) == text && body[q..] == rest
  {
    var body := " " + text + " " + rest;
    PaddedTextFirstStamp(text, rest, f);
    ConcatSlices(" " + text + " ", rest);
    TrimPadded(text, " ", " ");
  }

  /** Text starting with a stamp of `t`, then a padded text, then more text, reads back
      as one mark, then the marks of the rest. */
  lemma MarkAtStart(s: string, t: nat, text: string, rest: string, f: Flavor)
    requires StampLen(s, f) > 0 && StampSeconds(s, f) == t
    requires s[StampLen(s, f)..] == " " + text + " " + rest
    requires text != [] && IsTrimmed(text)
    requires forall k :: 0 <= k < |text| ==> StampLen(text[k..], f) == 0
    requires rest == [] || StampLen(rest, f) > 0
    ensures Marks(s, f) == [Mark(t, text)] + Marks(rest, f)
  {
    MarksFromStart(s, f);
    PaddedBody(text, rest, f);
  }

  /** A written mark followed by more text reads back as that mark, then the marks of
      the text. */
  lemma FirstMark(m: Mark, rest: string, f: Flavor)
    requires RenderableMark(m, f)
    requires rest == [] || StampLen(rest, f) > 0
    ensures Marks(Stamp(m.start) + " " + m.content + " " + rest, f) == [m] + Marks(rest, f)
  {
    var s := Stamp(m.start) + " " + m.content + " " + rest;
    AfterFirst(Stamp(m.start), " ", m.content, " ", rest);
    StampRoundTrip(m.start, " " + m.content + " " + rest, f);
    assert s[5..] == " " + m.content + " " + rest;
    MarkAtStart(s, m.start, m.content, rest, f);
  }

  /** Reading back a written transcript gives the marks it was written from: one mark per
      stamp, in order, with the stamp's seconds and the trimmed text. */
  lemma {:induction false} MarksRender(ms: seq<Mark>, f: Flavor)
    requires Renderable(ms, f)
    ensures Marks(Render(ms), f) == ms
  {
    if ms != [] {
      var tail := ms[1..];
      assert Renderable(tail, f) by {
        forall i | 0 <= i < |tail| ensures tail[i] == ms[i + 1] { }
      }
      assert RenderableMark(ms[0], f);
      if tail != [] {
        RenderStartsWithStamp(tail, f);
      }
      calc {
        Marks(Render(ms), f);
        == { assert Render(ms) == Stamp(ms[0].start) + " " + ms[0].content + " " + Render(tail); }
        Marks(Stamp(ms[0].start) + " " + ms[0].content + " " + Render(tail), f);
        == { FirstMark(ms[0], Render(tail), f); }
        [ms[0]] + Marks(Render(tail), f);
        == { MarksRender(tail, f); }
        [ms[0]] + tail;
        == { assert [ms[0]] + ms[1..] == ms; }
        ms;
      }
    }
  }

  /** A written transcript of at least one mark starts with a stamp. */
  lemma RenderStartsWithStamp(ms: seq<Mark>, f: Flavor)
    requires ms != [] && Renderable(ms, f)
    ensures StampLen(Render(ms), f) > 0
  {
    var rest := " " + ms[0].content + " " + Render(ms[1..]);
    AfterFirst(Stamp(ms[0].start), " ", ms[0].content, " ", Render(ms[1..]));
    StampRoundTrip(ms[0].start, rest, f);
  }

  /** One of the sentence terminators `.`, `!` and `?`. */
  predicate IsTerminator(c: char) {
    c == '.' || c == '!' || c == '?'
  }

  /** The length of the longest prefix of `s` without a terminator. */
  function PlainRun(s: string): (n: nat)
    ensures n <= |s|
    ensures forall i :: 0 <= i < n ==> !IsTerminator(s[i])
    ensures n < |s| ==> IsTerminator(s[n])
  {
    if s == [] || IsTerminator(s[0]) then 0 else 1 + PlainRun(s[1..])
  }

  /** The length of the longest prefix of `s` made of terminators. */
  function TerminatorRun(s: string): (n: nat)
    ensures n <= |s|
    ensures forall i :: 0 <= i < n ==> IsTerminator(s[i])
    ensures n < |s| ==> !IsTerminator(s[n])
  {
    if s == [] || !IsTerminator(s[0]) then 0 else 1 + TerminatorRun(s[1..])
  }

  /** The matches of `[^.!?]+[.!?]+` in `s`: runs of text each closed by its terminators.
      Leading terminators and an unterminated tail are not part of any sentence. */
  function Sentences(s: string): (r: seq<string>)
    ensures forall k :: 0 <= k < |r| ==> IsSentence(r[k])
    decreases |s|
  {
    if s == [] then []
    else if IsTerminator(s[0]) then Sentences(s[1..])
    else
      var j := PlainRun(s);
      if j == |s| then []
      else
        var k := SentenceEnd(s);
        var rest := Sentences(s[k..]);
        SentencesCons(s[..k], rest);
        [s[..k]] + rest
  }

  /** A match of `[^.!?]+[.!?]+`: nonempty, opened by a non-terminator, closed by a terminator. */
  predicate IsSentence(p: string) {
    p != [] && !IsTerminator(p[0]) && IsTerminator(p[|p| - 1])
  }

  /** Where the first sentence of `s` ends: after its text and all its terminators. */
  function SentenceEnd(s: string): (k: nat)
    requires s != [] && !IsTerminator(s[0]) && PlainRun(s) < |s|
    ensures PlainRun(s) < k <= |s| && IsSentence(s[..k])
    ensures k < |s| ==> !IsTerminator(s[k])
  {
    var j := PlainRun(s);
    var k := j + TerminatorRun(s[j..]);
    assert s[..k][0] == s[0] && s[..k][k - 1] == s[j..][k - 1 - j];
    assert k < |s| ==> s[k] == s[j..][k - j];
    k
  }

  lemma SentencesCons(p: string, rest: seq<string>)
    requires IsSentence(p) && forall k :: 0 <= k < |rest| ==> IsSentence(rest[k])
    ensures forall k :: 0 <= k < |rest| + 1 ==> IsSentence(([p] + rest)[k])
  {
    forall k | 0 < k < |rest| + 1 ensures ([p] + rest)[k] == rest[k - 1] { }
  }

  /** The pieces glued back together. */
  function Concat(ps: seq<string>): string {
    if ps == [] then [] else ps[0] + Concat(ps[1..])
  }

  /** Text that starts with a non-terminator and ends with a terminator is exactly the
      concatenation of its sentences: nothing is lost or repeated. */
  lemma {:induction false} SentencesCover(s: string)
    requires s != [] && !IsTerminator(s[0]) && IsTerminator(s[|s| - 1])
    ensures Concat(Sentences(s)) == s
    decreases |s|
  {
    var k := SentenceEnd(s);
    var tail := s[k..];
    calc {
      Concat(Sentences(s));
      == { assert Sentences(s) == [s[..k]] + Sentences(tail); }
      Concat([s[..k]] + Sentences(tail));
      == { assert ([s[..k]] + Sentences(tail))[1..] == Sentences(tail); }
      s[..k] + Concat(Sentences(tail));
      == { if k < |s| {
             assert tail[0] == s[k] && tail[|tail| - 1] == s[|s| - 1];
             SentencesCover(tail);
           } else {
             assert tail == [];
           } }
      s[..k] + tail;
      == { SplitAt(s, k); }
      s;
    }
  }

  /** Every piece trimmed, the empty ones dropped. */
  function TrimNonEmpty(ps: seq<string>): (r: seq<string>)
    ensures |r| <= |ps|
    ensures forall k :: 0 <= k < |r| ==> r[k] != [] && IsTrimmed(r[k])
  {
    if ps == [] then []
    else
      TrimSpec(ps[0]);
      var t := Trim(ps[0]);
      var rest := TrimNonEmpty(ps[1..]);
      if t == [] then rest
      else
        assert forall k :: 0 < k < |rest| + 1 ==> ([t] + rest)[k] == rest[k - 1];
        [t] + rest
  }

  /** Pieces that are already trimmed and nonempty pass through unchanged. */
  lemma {:induction false} TrimNonEmptyKeeps(ps: seq<string>)
    requires forall k :: 0 <= k < |ps| ==> ps[k] != [] && IsTrimmed(ps[k])
    ensures TrimNonEmpty(ps) == ps
  {
    if ps != [] {
      assert [] + ps[0] + [] == ps[0];
      TrimPadded(ps[0], [], []);
      TrimNonEmptyKeeps(ps[1..]);
    }
  }

  /** Trimming and dropping empties works piece by piece: it distributes over concatenation. */
  lemma {:induction false} TrimNonEmptyConcat(a: seq<string>, b: seq<string>)
    ensures TrimNonEmpty(a + b) == TrimNonEmpty(a) + TrimNonEmpty(b)
  {
    if a == [] {
      assert a + b == b;
    } else {
      assert (a + b)[0] == a[0];
      assert (a + b)[1..] == a[1..] + b;
      TrimNonEmptyConcat(a[1..], b);
      if Trim(a[0]) != [] {
        Associate([Trim(a[0])], TrimNonEmpty(a[1..]), TrimNonEmpty(b));
      }
    }
  }

  /** One piece is kept, trimmed, exactly when it is not blank. */
  lemma TrimNonEmptyOne(p: string)
    ensures TrimNonEmpty([p]) == if Trim(p) == [] then [] else [Trim(p)]
  {
    assert [p][1..] == [];
  }

  /** The pieces from `i` on: the first one, trimmed unless blank, then those after it. */
  lemma TrimNonEmptyFrom(ps: seq<string>, i: nat)
    requires i < |ps|
    ensures TrimNonEmpty(ps[i..]) ==
      (if Trim(ps[i]) == [] then [] else [Trim(ps[i])]) + TrimNonEmpty(ps[i + 1..])
  {
    assert ps[i..][0] == ps[i] && ps[i..][1..] == ps[i + 1..];
  }

  /** The run lengths are determined by their defining properties. */
  lemma PlainRunIs(s: string, n: nat)
    requires n <= |s|
    requires forall i :: 0 <= i < n ==> !IsTerminator(s[i])
    requires n < |s| ==> IsTerminator(s[n])
    ensures PlainRun(s) == n
  {
  }

  lemma TerminatorRunIs(s: string, n: nat)
    requires n <= |s|
    requires forall i :: 0 <= i < n ==> IsTerminator(s[i])
    requires n < |s| ==> !IsTerminator(s[n])
    ensures TerminatorRun(s) == n
  {
  }

  /** A sentence as a person writes it: trimmed, some text, then only terminators. */
  predicate SingleSentence(p: string) {
    && IsTrimmed(p)
    && 0 < PlainRun(p) < |p|
    && TerminatorRun(p[PlainRun(p)..]) == |p| - PlainRun(p)
  }

  /** A written sentence, possibly after one separator and followed by a separator or
      nothing, is matched as one sentence (separator included) before the rest. */
  lemma FirstSentence(pre: string, p: string, rest: string, c: char)
    requires !IsTerminator(c) && (pre == [] || pre == [c])
    requires SingleSentence(p)
    requires rest == [] || rest[0] == c
    ensures Sentences(pre + p + rest) == [pre + p] + Sentences(rest)
  {
    var s := pre + p + rest;
    FirstSentenceEnd(pre, p, rest, c);
    var k := SentenceEnd(s);
    assert s[..k] == pre + p;
    assert s[k..] == rest;
  }

  /** Where that first sentence ends: after the separator and the whole written sentence. */
  lemma FirstSentenceEnd(pre: string, p: string, rest: string, c: char)
    requires !IsTerminator(c) && (pre == [] || pre == [c])
    requires SingleSentence(p)
    requires rest == [] || rest[0] == c
    ensures var s := pre + p + rest;
      s != [] && !IsTerminator(s[0]) && PlainRun(s) < |s| && SentenceEnd(s) == |pre| + |p|
  {
    var s := pre + p + rest;
    var j := PlainRun(p);
    FirstSentencePlain(pre, p, rest, c, j);
    FirstSentenceTerminators(pre, p, rest, c, j);
    assert !IsTerminator(s[0]) by {
      if pre == [] {
        assert s[0] == p[0] && !IsTerminator(p[0]);
      } else {
        assert s[0] == c;
      }
    }
    SentenceEndIs(s, |pre| + j, |p| - j);
  }

  /** `SentenceEnd` from the two run lengths. */
  lemma SentenceEndIs(s: string, j: nat, n: nat)
    requires s != [] && !IsTerminator(s[0])
    requires j == PlainRun(s) && j < |s| && n == TerminatorRun(s[j..])
    ensures SentenceEnd(s) == j + n
  {
  }

  lemma FirstSentencePlain(pre: string, p: string, rest: string, c: char, j: nat)
    requires !IsTerminator(c) && (pre == [] || pre == [c])
    requires j == PlainRun(p) && j < |p|
    ensures PlainRun(pre + p + rest) == |pre| + j
  {
    var s := pre + p + rest;
    forall i | 0 <= i < |pre| + j
      ensures !IsTerminator(s[i])
    {
      if i >= |pre| {
        assert s[i] == p[i - |pre|];
      }
    }
    assert s[|pre| + j] == p[j];
    PlainRunIs(s, |pre| + j);
  }

  lemma FirstSentenceTerminators(pre: string, p: string, rest: string, c: char, j: nat)
    requires !IsTerminator(c)
    requires j <= |p| && TerminatorRun(p[j..]) == |p| - j
    requires rest == [] || rest[0] == c
    ensures TerminatorRun((pre + p + rest)[|pre| + j..]) == |p| - j
  {
    DropInto(pre, p, rest, j);
    TerminatorsThen(p[j..], rest, c);
  }

  /** A run of terminators stays one run when a non-terminator follows it. */
  lemma {:induction false} TerminatorsThen(t: string, rest: string, c: char)
    requires !IsTerminator(c) && (rest == [] || rest[0] == c)
    requires TerminatorRun(t) == |t|
    ensures TerminatorRun(t + rest) == |t|
  {
    if t == [] {
      assert t + rest == rest;
    } else {
      assert (t + rest)[0] == t[0];
      assert (t + rest)[1..] == t[1..] + rest;
      TerminatorsThen(t[1..], rest, c);
    }
  }

  /** Written sentences joined by a white-space character are matched as those sentences,
      each after its separator, and trimming gives back exactly the sentences. */
  lemma {:induction false} SentencesOfJoined(ss: seq<string>, pre: string, c: char)
    requires IsWhite(c) && (pre == [] || pre == [c])
    requires forall k :: 0 <= k < |ss| ==> SingleSentence(ss[k])
    ensures TrimNonEmpty(Sentences(pre + Join(ss, c))) == ss
    decreases |ss|
  {
    if ss == [] {
      assert pre + Join(ss, c) == pre;
      assert PlainRun(pre) == |pre|;
    } else {
      if |ss| > 1 {
        SentencesOfJoined(ss[1..], [c], c);
      }
      SentencesOfJoinedCons(ss, pre, c);
    }
  }

  /** The step of the induction: the first sentence, then those of the rest. */
  lemma SentencesOfJoinedCons(ss: seq<string>, pre: string, c: char)
    requires IsWhite(c) && (pre == [] || pre == [c])
    requires ss != [] && SingleSentence(ss[0])
    requires |ss| > 1 ==> TrimNonEmpty(Sentences([c] + Join(ss[1..], c))) == ss[1..]
    ensures TrimNonEmpty(Sentences(pre + Join(ss, c))) == ss
  {
    var rest := if |ss| == 1 then [] else [c] + Join(ss[1..], c);
    JoinedFirst(ss, pre, c);
    FirstSentence(pre, ss[0], rest, c);
    calc {
      TrimNonEmpty(Sentences(pre + Join(ss, c)));
      TrimNonEmpty([pre + ss[0]] + Sentences(rest));
      { TrimNonEmptyConcat([pre + ss[0]], Sentences(rest)); }
      TrimNonEmpty([pre + ss[0]]) + TrimNonEmpty(Sentences(rest));
      { TrimSeparated(pre, ss[0], c); }
      [ss[0]] + ss[1..];
      { HeadTail(ss); }
      ss;
    }
  }

  /** The joined text is the separator, the first sentence, then the rest with its separator. */
  lemma JoinedFirst(ss: seq<string>, pre: string, c: char)
    requires ss != []
    ensures pre + Join(ss, c) == pre + ss[0] + (if |ss| == 1 then [] else [c] + Join(ss[1..], c))
  {
    if |ss| == 1 {
      assert Join(ss, c) == ss[0] + [];
    } else {
      Associate(ss[0], [c], Join(ss[1..], c));
    }
    Associate(pre, ss[0], if |ss| == 1 then [] else [c] + Join(ss[1..], c));
  }

  /** A separated written sentence trims back to the sentence. */
  lemma TrimSeparated(pre: string, p: string, c: char)
    requires IsWhite(c) && (pre == [] || pre == [c])
    requires SingleSentence(p)
    ensures TrimNonEmpty([pre + p]) == [p]
  {
    TrimAfterWhite(pre, p);
    TrimNonEmptyOne(pre + p);
  }

  lemma TrimAfterWhite(pre: string, p: string)
    requires forall i :: 0 <= i < |pre| ==> IsWhite(pre[i])
    requires p != [] && IsTrimmed(p)
    ensures Trim(pre + p) == p
  {
    assert pre + p + [] == pre + p;
    TrimPadded(p, pre, []);
  }
}
