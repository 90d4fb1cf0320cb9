/**
 * The import dialog: the material it builds from a dropped file, a link or pasted
 * text, the title taken from a file name, the reading-time estimate for text, and
 * when the confirm button is enabled.
 */
module ImportModal {
  import opened Strings
  import opened Types
  import opened Gemini
  import opened Listening

  /** The dialog's three tabs. */
  datatype Tab = FileTab | LinkTab | TextTab

  /** A chosen file: its name, its MIME type, and its text (read only for plain text). */
  datatype ImportFile = ImportFile(name: string, mime: string, text: string)

  /** The model's replies to one pair of topic and difficulty requests. */
  datatype Replies = Replies(topic: Reply, difficulty: Reply)

  /** Characters the extension pattern `[^/.]` accepts. */
  predicate InExtension(c: char) {
    c != '/' && c != '.'
  }

  /** The length of the longest suffix of `s` made of extension characters. */
  function ExtensionRun(s: string): (k: nat)
    ensures k <= |s|
    ensures forall i :: |s| - k <= i < |s| ==> InExtension(s[i])
    ensures k < |s| ==> !InExtension(s[|s| - k - 1])
  {
    if s != [] && InExtension(s[|s| - 1]) then ExtensionRun(s[..|s| - 1]) + 1 else 0
  }

  /** `name.replace(/\.[^/.]+$/, "")`: a final `.ext` without '/' or '.' in `ext` is
      removed; any other name is kept. */
  function StripExtension(name: string): (r: string)
    ensures |r| <= |name| && r == name[..|r|]
    ensures |r| < |name| ==>
      && name[|r|] == '.'
      && |name| - |r| >= 2
      && forall i :: |r| < i < |name| ==> InExtension(name[i])
  {
    var k := ExtensionRun(name);
    if 1 <= k < |name| && name[|name| - k - 1] == '.' then name[..|name| - k - 1] else name
  }

  /** Only the last extension goes: `base.ext` becomes `base`, whatever `base` holds. */
  lemma StripAppended(base: string, ext: string)
    requires ext != []
    requires forall i :: 0 <= i < |ext| ==> InExtension(ext[i])
    ensures StripExtension(base + "." + ext) == base
  {
    var name := base + "." + ext;
    ExtensionRunOf(base + ".", ext);
    assert name[|name| - |ext| - 1] == '.';
    assert name[..|name| - |ext| - 1] == base;
  }

  /** Appending extension characters after a non-extension character adds exactly them
      to the suffix run. */
  lemma {:induction false} ExtensionRunOf(prefix: string, ext: string)
    requires prefix != [] && !InExtension(prefix[|prefix| - 1])
    requires forall i :: 0 <= i < |ext| ==> InExtension(ext[i])
    ensures ExtensionRun(prefix + ext) == |ext|
    decreases |ext|
  {
    var s := prefix + ext;
    if ext == [] {
      assert s == prefix;
    } else {
      assert s[..|s| - 1] == prefix + ext[..|ext| - 1];
      ExtensionRunOf(prefix, ext[..|ext| - 1]);
    }
  }

  /** A name loses something exactly when it ends in a full stop followed by one or
      more characters that are neither '/' nor '.'. */
  lemma StripIff(name: string)
    ensures StripExtension(name) != name <==>
      exists p :: 0 <= p < |name| - 1 && name[p] == '.' && forall i :: p < i < |name| ==> InExtension(name[i])
  {
    var r := StripExtension(name);
    if r != name {
      assert |r| < |name|;
      assert forall i :: |r| < i < |name| ==> InExtension(name[i]);
    }
    if exists p :: 0 <= p < |name| - 1 && name[p] == '.' && forall i :: p < i < |name| ==> InExtension(name[i]) {
      var p :| 0 <= p < |name| - 1 && name[p] == '.' && forall i :: p < i < |name| ==> InExtension(name[i]);
      var k := ExtensionRun(name);
      assert k == |name| - p - 1;
      assert |r| == p;
    }
  }

  /** `text.split(/\s+/).length`. */
  function WordCount(text: string): (n: nat)
    ensures n >= 1
  {
    |SplitWhite(text)|
  }

  /** Text of `n` words separated by single spaces counts `n` words. */
  lemma WordCountOfWords(ws: seq<string>)
    requires ws != []
    requires forall k :: 0 <= k < |ws| ==> ws[k] != []
    requires forall k, i :: 0 <= k < |ws| && 0 <= i < |ws[k]| ==> !IsWhite(ws[k][i])
    ensures WordCount(Join(ws, ' ')) == |ws|
  {
    SplitWhiteJoin(ws);
  }

  /** A run of white space of any length before the rest of the text adds one word, the
      text in front of it; white space at the very start counts an empty first word. */
  lemma WordCountRun(a: string, w: string, b: string)
    requires forall i :: 0 <= i < |a| ==> !IsWhite(a[i])
    requires w != [] && forall i :: 0 <= i < |w| ==> IsWhite(w[i])
    requires b == [] || !IsWhite(b[0])
    ensures WordCount(a + w + b) == 1 + WordCount(b)
  {
    SplitWhiteRun(a, w, b);
  }

  /** `Math.ceil(words / 150)`: the reading time in whole minutes at 150 words a minute. */
  function ReadingMinutes(words: nat): (m: nat)
    ensures words > 0 ==> (m - 1) * 150 < words <= m * 150
    ensures words > 0 ==> m >= 1
  {
    (words + 149) / 150
  }

  /** The reading-time estimate written `m:00`. */
  function EstimateDuration(text: string): string {
    NatToString(ReadingMinutes(WordCount(text))) + ":00"
  }

  /** The estimate reads back, through `parseInt`, as the minutes it was written from. */
  lemma EstimateReadsBack(text: string)
    ensures ParseInt(EstimateDuration(text)) == Some(ReadingMinutes(WordCount(text)))
    ensures ReadingMinutes(WordCount(text)) * 150 - 150 < WordCount(text) <= ReadingMinutes(WordCount(text)) * 150
  {
    var m := ReadingMinutes(WordCount(text));
    assert EstimateDuration(text) == NatToString(m) + ":" + "00";
    ParseIntNat(m, "00");
  }

  /** A text imported this way lands in the library's duration buckets by its word
      count: short up to 300 words, medium up to 750, long beyond. */
  lemma ImportedTextBucket(text: string)
    ensures DurationMatches(EstimateDuration(text), "short") <==> WordCount(text) <= 300
    ensures DurationMatches(EstimateDuration(text), "medium") <==> 300 < WordCount(text) <= 750
    ensures DurationMatches(EstimateDuration(text), "long") <==> WordCount(text) > 750
  {
    var m := ReadingMinutes(WordCount(text));
    assert EstimateDuration(text) == NatToString(m) + ":" + "00";
    BucketOfClock(m, "00");
  }

  /** The material type of a file: plain text, otherwise video for `video...` types and
      audio for everything else. */
  function FileKind(mime: string): (k: MaterialType)
    ensures k == Text <==> mime == "text/plain"
    ensures k == Video <==> mime != "text/plain" && StartsWith(mime, "video")
  {
    if mime == "text/plain" then Text
    else if StartsWith(mime, "video") then Video
    else Audio
  }

  /** The confirm button: enabled while not processing and the active tab has its input. */
  predicate SubmitEnabled(processing: bool, tab: Tab, file: Option<ImportFile>, linkUrl: string, textContent: string) {
    && !processing
    && (tab == FileTab ==> file.Some?)
    && (tab == LinkTab ==> linkUrl != [])
    && (tab == TextTab ==> textContent != [])
  }

  /** Each tab's button is enabled exactly when its own input is present. */
  lemma SubmitEnabledPerTab(processing: bool, file: Option<ImportFile>, linkUrl: string, textContent: string)
    ensures SubmitEnabled(processing, FileTab, file, linkUrl, textContent) <==> !processing && file.Some?
    ensures SubmitEnabled(processing, LinkTab, file, linkUrl, textContent) <==> !processing && linkUrl != []
    ensures SubmitEnabled(processing, TextTab, file, linkUrl, textContent) <==> !processing && textContent != []
  {
  }

  /** The material every import starts from. */
  function DefaultMaterial(id: string, now: int): (m: Material)
    ensures m.id == id && m.createdAt == now
    ensures m.title == "New Material" && m.kind == Text && m.duration == "Unknown"
    ensures m.source == "User Import" && m.difficulty == Intermediate && m.topic == "General"
    ensures m.transcript == [] && m.thumbnail.None? && m.audioUrl.None?
  {
    Material(id, "New Material", Text, "Unknown", "User Import", Intermediate, "General", None, None, [], now)
  }

  /** `handleSubmit`: the material built for the active tab. The id, the clock, the
      object URL, the probed media duration and the model's replies are inputs; for a
      plain-text file `second` answers the requests about its contents. */
  method BuildMaterial(tab: Tab, file: Option<ImportFile>, linkUrl: string, textContent: string,
                       id: string, now: int, objectUrl: string, probed: string,
                       first: Replies, second: Replies) returns (m: Material)
    ensures m.id == id && m.createdAt == now && m.thumbnail.None?
    ensures tab == FileTab && file.None? ==> m == DefaultMaterial(id, now)
    ensures tab == FileTab && file.Some? ==>
      && m.title == StripExtension(file.value.name)
      && m.kind == FileKind(file.value.mime)
      && m.audioUrl == Some(objectUrl)
      && m.source == "User Import"
    ensures tab == FileTab && file.Some? && file.value.mime == "text/plain" ==>
      && m.transcript == file.value.text
      && m.duration == EstimateDuration(file.value.text)
      && m.topic == ClassifyTopic(second.topic)
      && m.difficulty == EstimateDifficulty(second.difficulty)
    ensures tab == FileTab && file.Some? && file.value.mime != "text/plain" ==>
      && m.transcript == []
      && m.duration == (if StartsWith(file.value.mime, "text") || probed == "Unknown" then "Unknown" else probed)
      && m.topic == ClassifyTopic(first.topic)
      && m.difficulty == EstimateDifficulty(first.difficulty)
    ensures tab == LinkTab ==>
      && m.source == linkUrl && m.kind == Video && m.title == "Web Video Resource"
      && m.topic == ClassifyTopic(first.topic) && m.difficulty == EstimateDifficulty(first.difficulty)
      && m.duration == "Unknown" && m.transcript == [] && m.audioUrl.None?
    ensures tab == TextTab ==>
      && m.kind == Text && m.transcript == textContent && m.title == "Text Material"
      && m.duration == EstimateDuration(textContent) && m.source == "User Import"
      && m.topic == ClassifyTopic(first.topic) && m.difficulty == EstimateDifficulty(first.difficulty)
      && m.audioUrl.None?
  {
    m := DefaultMaterial(id, now);
    if tab == FileTab && file.Some? {
      var f := file.value;
      m := m.(title := StripExtension(f.name));
      m := m.(kind := if StartsWith(f.mime, "video") then Video else Audio);
      m := m.(audioUrl := Some(objectUrl));
      var duration := if StartsWith(f.mime, "text") then "Unknown" else probed;
      m := m.(topic := ClassifyTopic(first.topic), difficulty := EstimateDifficulty(first.difficulty));
      if duration != "Unknown" {
        m := m.(duration := duration);
      }
      if f.mime == "text/plain" {
        m := m.(kind := Text, transcript := f.text);
        m := m.(topic := ClassifyTopic(second.topic), difficulty := EstimateDifficulty(second.difficulty));
        m := m.(duration := EstimateDuration(f.text));
      }
    } else if tab == LinkTab {
      m := m.(source := linkUrl, kind := Video, title := "Web Video Resource");
      m := m.(topic := ClassifyTopic(first.topic), difficulty := EstimateDifficulty(first.difficulty));
    } else if tab == TextTab {
      m := m.(kind := Text, transcript := textContent, title := "Text Material");
      m := m.(duration := EstimateDuration(textContent));
      m := m.(topic := ClassifyTopic(first.topic), difficulty := EstimateDifficulty(first.difficulty));
    }
  }
}
