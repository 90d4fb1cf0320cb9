/**
 * The speaking lab: the practice list built from stored sentences or from an imported
 * text, and the handlers that move the focus, toggle loop mode and start or stop a
 * recording.
 */
module Speaking {
  import opened Strings
  import opened Transcript
  import opened Storage
  import opened Gemini

  /** The translation shown before one is requested, exactly as the component writes it
      (the file holds it in a mis-decoded form, which the component also compares against). */
  const TRANSLATION_PLACEHOLDER: string :=
    "\U{C1}\U{C7}\U{3C0}\U{C2}\U{E1}\U{AA}\U{C1}\U{F8}\U{AA}\U{CB}\U{D8}\U{EB}\U{CA}\U{E5}\U{E2}\U{C8}\U{ED}\U{C6}\U{CA}\U{FC}\U{2022}\U{C1}\U{FA}\U{E3}\U{2030}\U{220F}\U{2260}\U{CA}\U{F1}\U{E1}\U{C8}\U{E1}\U{E4}\U{2030}\U{3C0}\U{E2}..."

  /** The translation shown while one is being generated, also as the file writes it. */
  const TRANSLATION_PENDING: string :=
    "\U{2030}\U{220F}\U{2260}\U{CA}\U{F1}\U{E1}\U{C1}\U{F8}\U{AA}\U{CB}\U{D8}\U{EB}\U{C1}\U{EE}\U{FC}\U{CA}\U{E0}\U{EA}\U{2030}\U{220F}\U{2260}..."

  /** One practice sentence (`SpeakingItem`), without the recording and score. */
  datatype SpeakingItem = SpeakingItem(
    id: string, text: string, translation: string, start: int, end: int, showTranslation: bool)

  /** The items of the marks of a stamped text imported at `now`: the mark's text (or a
      stand-in when empty) and start, ending at the next start, the last five seconds on. */
  function StampedItems(ms: seq<Mark>, now: nat): (r: seq<SpeakingItem>)
    ensures |r| == |ms|
    ensures forall i :: 0 <= i < |r| ==>
      && r[i].start == ms[i].start
      && r[i].text == (if ms[i].content == [] then "No text content" else ms[i].content)
      && !r[i].showTranslation
    ensures forall i :: 0 <= i < |r| - 1 ==> r[i].end == ms[i + 1].start
    ensures |r| > 0 ==> r[|r| - 1].end == ms[|ms| - 1].start + 5
  {
    seq(|ms|, i requires 0 <= i < |ms| =>
      SpeakingItem("seg-" + NatToString(i) + "-" + NatToString(now),
        if ms[i].content == [] then "No text content" else ms[i].content,
        TRANSLATION_PLACEHOLDER, ms[i].start,
        if i < |ms| - 1 then ms[i + 1].start else ms[i].start + 5, false))
  }

  /** The texts of a list of items, in order. */
  function Texts(items: seq<SpeakingItem>): seq<string> {
    if items == [] then [] else [items[0].text] + Texts(items[1..])
  }

  /** The id of the item made from piece `i` at `now`. */
  function PlainId(i: nat, now: nat): string {
    "plain-" + NatToString(i) + "-" + NatToString(now)
  }

  /** The items of piece `i` onwards of an unstamped text: the pieces trimmed, empties
      dropped, in order; ids keep the piece's index. */
  function PlainItems(pieces: seq<string>, i: nat, now: nat): (r: seq<SpeakingItem>)
    requires i <= |pieces|
    ensures |r| <= |pieces| - i
    ensures forall k :: 0 <= k < |r| ==>
      r[k].text != [] && IsTrimmed(r[k].text) && r[k].start == 0 && r[k].end == 0 && !r[k].showTranslation
    decreases |pieces| - i
  {
    if i == |pieces| then []
    else
      TrimSpec(pieces[i]);
      var t := Trim(pieces[i]);
      var rest := PlainItems(pieces, i + 1, now);
      if t == [] then rest
      else
        var item := SpeakingItem(PlainId(i, now), t, TRANSLATION_PLACEHOLDER, 0, 0, false);
        ItemsCons(item, rest);
        [item] + rest
  }

  /** The texts of those items are the pieces trimmed, empties dropped, in order. */
  lemma {:induction false} PlainItemsTexts(pieces: seq<string>, i: nat, now: nat)
    requires i <= |pieces|
    ensures Texts(PlainItems(pieces, i, now)) == TrimNonEmpty(pieces[i..])
    decreases |pieces| - i
  {
    if i == |pieces| {
      assert pieces[i..] == [];
    } else {
      PlainItemsTexts(pieces, i + 1, now);
      TrimNonEmptyFrom(pieces, i);
      var t := Trim(pieces[i]);
      if t != [] {
        ItemsCons(SpeakingItem(PlainId(i, now), t, TRANSLATION_PLACEHOLDER, 0, 0, false), PlainItems(pieces, i + 1, now));
      }
    }
  }

  lemma ItemsCons(item: SpeakingItem, rest: seq<SpeakingItem>)
    ensures Texts([item] + rest) == [item.text] + Texts(rest)
    ensures forall k :: 0 < k < |rest| + 1 ==> ([item] + rest)[k] == rest[k - 1]
  {
    assert ([item] + rest)[1..] == rest;
  }

  /** `parseTimestampedText`: one item per `m:ss` or `mm:ss` stamp, each ending at the next
      start and the last five seconds after its own; without stamps, the sentences (or
      else the lines) of the text. */
  function ParseTimestampedText(text: string, now: nat): (r: seq<SpeakingItem>)
    ensures forall k :: 0 <= k < |r| ==> !r[k].showTranslation
    ensures HasStamp(text, OneOrTwoDigit) ==> |r| == |Marks(text, OneOrTwoDigit)|
    ensures !HasStamp(text, OneOrTwoDigit) ==>
      Texts(r) == TrimNonEmpty(if Sentences(text) == [] then Split(text, '\n') else Sentences(text))
    ensures !HasStamp(text, OneOrTwoDigit) ==>
      forall k :: 0 <= k < |r| ==> r[k].text != [] && IsTrimmed(r[k].text) && r[k].start == 0 && r[k].end == 0
  {
    if HasStamp(text, OneOrTwoDigit) then StampedItems(Marks(text, OneOrTwoDigit), now)
    else
      var sentences := Sentences(text);
      var pieces := if sentences == [] then Split(text, '\n') else sentences;
      PlainItemsTexts(pieces, 0, now);
      assert pieces[0..] == pieces;
      PlainItems(pieces, 0, now)
  }

  /** A text written as stamps and texts comes back as those texts and starts, each item
      ending at the next start and the last five seconds after its start. */
  lemma SpeakingOfRendered(ms: seq<Mark>, now: nat)
    requires Renderable(ms, OneOrTwoDigit) && ms != []
    ensures var r := ParseTimestampedText(Render(ms), now);
      && |r| == |ms|
      && (forall i :: 0 <= i < |ms| ==> r[i].text == ms[i].content && r[i].start == ms[i].start)
      && (forall i :: 0 <= i < |ms| - 1 ==> r[i].end == ms[i + 1].start)
      && r[|ms| - 1].end == ms[|ms| - 1].start + 5
  {
    MarksRender(ms, OneOrTwoDigit);
    MarksWhenStamped(Render(ms), OneOrTwoDigit);
  }

  /** An unstamped text of written sentences joined by a white-space character comes
      back as exactly those sentences, in order, with zero times. */
  lemma SpeakingOfJoined(ss: seq<string>, c: char, now: nat)
    requires IsWhite(c) && ss != []
    requires forall k :: 0 <= k < |ss| ==> SingleSentence(ss[k])
    requires !HasStamp(Join(ss, c), OneOrTwoDigit)
    ensures var r := ParseTimestampedText(Join(ss, c), now);
      && Texts(r) == ss
      && forall k :: 0 <= k < |r| ==> r[k].start == 0 && r[k].end == 0
  {
    assert [] + Join(ss, c) == Join(ss, c);
    SentencesOfJoined(ss, [], c);
    assert Sentences(Join(ss, c)) != [];
    assert Sentences(Join(ss, c))[0..] == Sentences(Join(ss, c));
  }

  /** A one-digit minute counts here: the text `m:ss text ` is one item starting at
      `m * 60 + ss` and ending five seconds later. */
  lemma OneDigitMinute(m: nat, sec: nat, text: string, now: nat)
    requires m < 10 && sec < 60
    requires text != [] && IsTrimmed(text)
    requires forall k :: 0 <= k < |text| ==> StampLen(text[k..], OneOrTwoDigit) == 0
    ensures var r := ParseTimestampedText([DigitChar(m), ':', DigitChar(sec / 10), DigitChar(sec % 10)] + " " + text + " ", now);
      |r| == 1 && r[0].text == text && r[0].start == m * 60 + sec && r[0].end == m * 60 + sec + 5
  {
    var s := [DigitChar(m), ':', DigitChar(sec / 10), DigitChar(sec % 10)] + " " + text + " ";
    assert StampLen(s, OneOrTwoDigit) == 4;
    assert s[4..] == " " + text + " " + [];
    MarkAtStart(s, m * 60 + sec, text, [], OneOrTwoDigit);
    assert Marks([], OneOrTwoDigit) == [];
    MarksWhenStamped(s, OneOrTwoDigit);
  }

  /** The items built from stored sentences: `s-i`, five seconds each, back to back. */
  function InitialItems(stored: seq<string>): (r: seq<SpeakingItem>)
    ensures |r| == |stored|
    ensures forall i :: 0 <= i < |r| ==>
      r[i].text == stored[i] && r[i].start == 5 * i && r[i].end == 5 * (i + 1) && !r[i].showTranslation
    ensures forall i :: 0 <= i < |r| - 1 ==> r[i].end == r[i + 1].start
  {
    seq(|stored|, i requires 0 <= i < |stored| =>
      SpeakingItem("s-" + NatToString(i), stored[i], TRANSLATION_PLACEHOLDER, i * 5, (i + 1) * 5, false))
  }

  /** The initial items have distinct ids. */
  lemma InitialIdsDistinct(stored: seq<string>)
    ensures var r := InitialItems(stored);
      forall i, j :: 0 <= i < j < |r| ==> r[i].id != r[j].id
  {
    var r := InitialItems(stored);
    forall i, j | 0 <= i < j < |r| ensures r[i].id != r[j].id {
      if r[i].id == r[j].id {
        assert NatToString(i) == r[i].id[2..] == r[j].id[2..] == NatToString(j);
        ParseIntOfNat(i);
        ParseIntOfNat(j);
      }
    }
  }

  /** `Math.min(len - 1, i + 1)`: one on, but never past the last item. */
  function NextIndex(i: int, len: nat): (r: int)
    ensures r <= len - 1 && r <= i + 1
    ensures r == i + 1 || r == len - 1
  {
    if len - 1 < i + 1 then len - 1 else i + 1
  }

  /** `Math.max(0, i - 1)`: one back, but never before the first item. */
  function PrevIndex(i: int): (r: int)
    ensures r >= 0 && r >= i - 1
    ensures r == i - 1 || r == 0
  {
    if i - 1 < 0 then 0 else i - 1
  }

  /** Inside a nonempty list the clamps keep an index inside it. */
  lemma ClampsStayInside(i: int, len: nat)
    requires 0 <= i < len
    ensures 0 <= NextIndex(i, len) < len && 0 <= PrevIndex(i) < len
    ensures i < len - 1 ==> NextIndex(i, len) == i + 1
    ensures i == len - 1 ==> NextIndex(i, len) == i
    ensures i > 0 ==> PrevIndex(i) == i - 1
    ensures i == 0 ==> PrevIndex(i) == 0
  {
  }

  class SpeakingSession {
    /** The practice list. */
    var items: seq<SpeakingItem>
    /** The focused item (`focusedIndex`); -1 after `playNext` on an empty list. */
    var focused: int
    /** The item being recorded, if any. */
    var recording: Option<nat>
    /** The item whose original audio is playing, and the item whose recording is. */
    var playingOriginal: Option<nat>
    var playingUser: Option<nat>
    /** Loop mode and where playback stops in it. */
    var loop: bool
    var stopTime: Option<int>
    var isPlaying: bool
    /** The playback position of the original audio, in whole seconds. */
    var position: int

    /** Mounting the lab loads the stored sentences. */
    constructor (store: Store)
      ensures items == InitialItems(store.Speaking()) && focused == 0
      ensures recording.None? && playingOriginal.None? && playingUser.None?
      ensures !loop && stopTime.None? && !isPlaying && position == 0
    {
      var stored := store.GetSpeakingSentences();
      items := [];
      if |stored| > 0 {
        items := InitialItems(stored);
      }
      focused := 0;
      recording, playingOriginal, playingUser := None, None, None;
      loop, stopTime, isPlaying := false, None, false;
      position := 0;
    }

    /** The play window of the focused item, when there is one. */
    function FocusedEnd(i: int): Option<int>
      reads this
    {
      if 0 <= i < |items| then Some(items[i].end) else None
    }

    /** `playNext`: focus the next item (clamped); while it exists, play from its start,
        stopping at its end in loop mode. */
    method PlayNext()
      modifies this`focused, this`stopTime, this`isPlaying, this`position
      ensures focused == NextIndex(old(focused), |items|)
      ensures 0 <= focused < |items| ==>
        isPlaying && position == items[focused].start &&
        stopTime == (if loop then Some(items[focused].end) else None)
      ensures !(0 <= focused < |items|) ==>
        isPlaying == old(isPlaying) && stopTime == old(stopTime) && position == old(position)
    {
      focused := NextIndex(focused, |items|);
      if 0 <= focused < |items| {
        position := items[focused].start;
        stopTime := if loop then Some(items[focused].end) else None;
        isPlaying := true;
      }
    }

    /** `playPrev`: focus the previous item (clamped), and play it as `playNext` does. */
    method PlayPrev()
      modifies this`focused, this`stopTime, this`isPlaying, this`position
      ensures focused == PrevIndex(old(focused))
      ensures focused < |items| ==>
        isPlaying && position == items[focused].start &&
        stopTime == (if loop then Some(items[focused].end) else None)
      ensures focused >= |items| ==>
        isPlaying == old(isPlaying) && stopTime == old(stopTime) && position == old(position)
    {
      focused := PrevIndex(focused);
      if focused < |items| {
        position := items[focused].start;
        stopTime := if loop then Some(items[focused].end) else None;
        isPlaying := true;
      }
    }

    /** The down-arrow key: `Math.min(prev + 1, items.length - 1)`, focus only. */
    method ArrowDown()
      modifies this`focused
      ensures focused == NextIndex(old(focused), |items|)
    {
      focused := NextIndex(focused, |items|);
    }

    /** The up-arrow key: `Math.max(prev - 1, 0)`, focus only. */
    method ArrowUp()
      modifies this`focused
      ensures focused == PrevIndex(old(focused))
    {
      focused := PrevIndex(focused);
    }

    /** `toggleLoop`: entering loop mode stops at the end of the focused item. */
    method ToggleLoop()
      modifies this`loop, this`stopTime
      ensures loop == !old(loop)
      ensures stopTime == if loop then FocusedEnd(focused) else None
    {
      loop := !loop;
      stopTime := if loop then FocusedEnd(focused) else None;
    }

    /** `toggleRecording(index)`: a request for another item while one is recording is
        ignored; a request for the recording item stops it; otherwise recording starts
        when the microphone is granted, stopping both players. */
    method ToggleRecording(index: nat, micGranted: bool)
      modifies this`recording, this`playingOriginal, this`playingUser
      ensures old(recording).Some? && old(recording) != Some(index) ==>
        recording == old(recording) && playingOriginal == old(playingOriginal) &&
        playingUser == old(playingUser)
      ensures old(recording) == Some(index) ==>
        recording.None? && playingOriginal == old(playingOriginal) && playingUser == old(playingUser)
      ensures old(recording).None? && micGranted ==>
        recording == Some(index) && playingOriginal.None? && playingUser.None?
      ensures old(recording).None? && !micGranted ==>
        recording.None? && playingOriginal == old(playingOriginal) && playingUser == old(playingUser)
    {
      if recording.Some? && recording != Some(index) {
        return;
      }
      if recording == Some(index) {
        recording := None;
        return;
      }
      if micGranted {
        recording := Some(index);
        playingOriginal := None;
        playingUser := None;
      }
    }

    /** `toggleTranslation(index)`: a shown translation is hidden; a hidden placeholder
        is replaced by the translator's answer and shown; any other hidden translation
        is shown as it is. Only that item changes. */
    method ToggleTranslation(index: nat, reply: Reply)
      requires index < |items|
      modifies this`items
      ensures |items| == |old(items)|
      ensures forall i :: 0 <= i < |items| && i != index ==> items[i] == old(items)[i]
      ensures var it := old(items)[index];
        items[index] ==
          if it.showTranslation then it.(showTranslation := false)
          else if it.translation == TRANSLATION_PLACEHOLDER || it.translation == TRANSLATION_PENDING then
            it.(showTranslation := true, translation := TranslateText(reply))
          else it.(showTranslation := true)
    {
      var it := items[index];
      if it.showTranslation {
        items := items[index := it.(showTranslation := false)];
      } else if it.translation == TRANSLATION_PLACEHOLDER || it.translation == TRANSLATION_PENDING {
        items := items[index := it.(showTranslation := true, translation := TranslateText(reply))];
      } else {
        items := items[index := it.(showTranslation := true)];
      }
    }

    /** `handleImportText`: a nonempty text replaces the list with its parsed items. */
    method ImportText(text: string, now: nat)
      modifies this`items
      ensures text != [] ==> items == ParseTimestampedText(text, now)
      ensures text == [] ==> items == old(items)
    {
      if text != [] {
        items := ParseTimestampedText(text, now);
      }
    }
  }
}
