/**
 * Post-processing of the language model's replies: the difficulty and topic
 * classifiers, the translator, the truncation of classifier inputs and the
 * transcript generator.
 */
module Gemini {
  import opened Strings
  import opened Types

  /** How a request to the model ends: there is no client (no API key), the call
      fails, or it answers with a text (a missing text reads as the empty one). */
  datatype Reply = NoClient | Failed | Answered(text: string)

  /** `input.substring(0, 500)`: what of a classifier input reaches the prompt. */
  function PromptInput(input: string): (r: string)
    ensures |r| <= 500 && |r| <= |input|
    ensures r == input[..|r|]
    ensures |input| <= 500 ==> r == input
    ensures |input| > 500 ==> |r| == 500
  {
    if |input| <= 500 then input else input[..500]
  }

  /** The reply as the difficulty classifier reads it: trimmed, then lower-cased. */
  function Normalised(text: string): string {
    ToLower(Trim(text))
  }

  /** `estimateDifficulty`: "beginner" anywhere in the normalised reply wins, then
      "advanced"; anything else, no client and a failure give intermediate. */
  function EstimateDifficulty(reply: Reply): (d: Difficulty)
    ensures !reply.Answered? ==> d == Intermediate
    ensures reply.Answered? ==>
      (d == Beginner <==> Contains(Normalised(reply.text), "beginner"))
    ensures reply.Answered? ==>
      (d == Advanced <==> !Contains(Normalised(reply.text), "beginner") && Contains(Normalised(reply.text), "advanced"))
  {
    match reply
    case Answered(text) =>
      var t := Normalised(text);
      if Contains(t, "beginner") then Beginner
      else if Contains(t, "advanced") then Advanced
      else Intermediate
    case _ => Intermediate
  }

  /** A nonempty word of lower-case letters reads as itself. */
  lemma NormalisedPlain(n: string)
    requires n != [] && forall i :: 0 <= i < |n| ==> 'a' <= n[i] <= 'z'
    ensures Normalised(n) == n
  {
    TrimPadded(n, "", "");
    assert "" + n + "" == n;
    LowerOfLower(n);
  }

  /** A level's name reads as itself. */
  lemma NormalisedName(d: Difficulty)
    ensures Normalised(DifficultyName(d)) == DifficultyName(d)
  {
    NormalisedPlain(DifficultyName(d));
  }

  /** Which of the two key words each level's name includes. */
  lemma NameKeywords(d: Difficulty)
    ensures Contains(DifficultyName(d), "beginner") <==> d == Beginner
    ensures d != Beginner ==> (Contains(DifficultyName(d), "advanced") <==> d == Advanced)
  {
    match d
    case Beginner => BeginnerKeywords(d);
    case Intermediate => IntermediateKeywords(d);
    case Advanced => AdvancedKeywords(d);
  }

  lemma BeginnerKeywords(d: Difficulty)
    requires d == Beginner
    ensures Contains(DifficultyName(d), "beginner")
  {
    assert StartsWith(DifficultyName(d), "beginner");
  }

  lemma IntermediateKeywords(d: Difficulty)
    requires d == Intermediate
    ensures !Contains(DifficultyName(d), "beginner") && !Contains(DifficultyName(d), "advanced")
  {
    var n := DifficultyName(d);
    NotContains(n, "beginner", 0);
    NotContains(n, "advanced", 2);
  }

  lemma AdvancedKeywords(d: Difficulty)
    requires d == Advanced
    ensures !Contains(DifficultyName(d), "beginner") && Contains(DifficultyName(d), "advanced")
  {
    var n := DifficultyName(d);
    NotContains(n, "beginner", 0);
    assert StartsWith(n, "advanced");
  }

  /** A reply that is exactly a level's name gives that level back. */
  lemma DifficultyOfName(d: Difficulty)
    ensures EstimateDifficulty(Answered(DifficultyName(d))) == d
  {
    NormalisedName(d);
    NameKeywords(d);
  }

  /** Padding white space does not change the level a reply gives. */
  lemma DifficultyIgnoresPadding(t: string, left: string, right: string)
    requires t != [] && IsTrimmed(t)
    requires forall i :: 0 <= i < |left| ==> IsWhite(left[i])
    requires forall i :: 0 <= i < |right| ==> IsWhite(right[i])
    ensures EstimateDifficulty(Answered(left + t + right)) == EstimateDifficulty(Answered(t))
  {
    NormalisedPadding(t, left, right);
  }

  lemma NormalisedPadding(t: string, left: string, right: string)
    requires t != [] && IsTrimmed(t)
    requires forall i :: 0 <= i < |left| ==> IsWhite(left[i])
    requires forall i :: 0 <= i < |right| ==> IsWhite(right[i])
    ensures Normalised(left + t + right) == Normalised(t)
  {
    TrimPadded(t, left, right);
    TrimPadded(t, "", "");
    assert "" + t + "" == t;
  }

  /** Letter case does not change the level a reply gives. */
  lemma DifficultyIgnoresCase(t: string)
    ensures EstimateDifficulty(Answered(ToLower(t))) == EstimateDifficulty(Answered(t))
  {
    NormalisedLower(t);
  }

  lemma NormalisedLower(t: string)
    ensures Normalised(ToLower(t)) == Normalised(t)
  {
    TrimLower(t);
    ToLowerIdempotent(Trim(t));
  }

  /** `classifyTopic`: the trimmed reply with every '.' removed, or "General" when that
      is empty, when there is no client and when the call fails. */
  function ClassifyTopic(reply: Reply): (r: string)
    ensures r != [] && '.' !in r
    ensures !reply.Answered? ==> r == "General"
  {
    match reply
    case Answered(text) =>
      var t := RemoveChar(Trim(text), '.');
      if t == [] then "General" else t
    case _ => "General"
  }

  /** Full stops after a dot-free name are removed, and only they are. */
  lemma RemoveTrailingDots(name: string, dots: string)
    requires '.' !in name
    requires forall i :: 0 <= i < |dots| ==> dots[i] == '.'
    ensures RemoveChar(name + dots, '.') == name
  {
    RemoveCharConcat(name, dots, '.');
    RemoveAbsent(name, '.');
    RemoveRun(dots, '.');
    assert name + [] == name;
  }

  /** A category name, padded with white space and followed by full stops, is the topic. */
  lemma TopicOfCategory(name: string, dots: string, left: string, right: string)
    requires name != [] && IsTrimmed(name) && '.' !in name
    requires forall i :: 0 <= i < |dots| ==> dots[i] == '.'
    requires forall i :: 0 <= i < |left| ==> IsWhite(left[i])
    requires forall i :: 0 <= i < |right| ==> IsWhite(right[i])
    ensures ClassifyTopic(Answered(left + name + dots + right)) == name
  {
    TrimDotted(name, dots, left, right);
    RemoveTrailingDots(name, dots);
  }

  lemma TrimDotted(name: string, dots: string, left: string, right: string)
    requires name != [] && IsTrimmed(name)
    requires forall i :: 0 <= i < |dots| ==> dots[i] == '.'
    requires forall i :: 0 <= i < |left| ==> IsWhite(left[i])
    requires forall i :: 0 <= i < |right| ==> IsWhite(right[i])
    ensures Trim(left + name + dots + right) == name + dots
  {
    DottedTrimmed(name, dots);
    TrimPadded(name + dots, left, right);
    Regroup(left, name, dots, right);
  }

  /** A trimmed name followed by full stops is still trimmed. */
  lemma DottedTrimmed(name: string, dots: string)
    requires name != [] && IsTrimmed(name)
    requires forall i :: 0 <= i < |dots| ==> dots[i] == '.'
    ensures name + dots != [] && IsTrimmed(name + dots)
  {
    var core := name + dots;
    assert core[0] == name[0];
    if dots == [] {
      assert core == name;
    } else {
      assert core[|core| - 1] == dots[|dots| - 1] == '.';
    }
  }

  /** A reply that is only white space gives "General". */
  lemma BlankTopicIsGeneral(text: string)
    requires forall i :: 0 <= i < |text| ==> IsWhite(text[i])
    ensures ClassifyTopic(Answered(text)) == "General"
  {
    assert TrimStart(text) == [];
  }

  /** `translateText`: the fixed stand-in without a client, an apology on failure,
      and otherwise the trimmed reply, or "翻译失败" when that is empty. */
  function TranslateText(reply: Reply): (r: string)
    ensures r != [] && IsTrimmed(r)
    ensures reply.NoClient? ==> r == "这是模拟的中文翻译结果。AI服务未配置。"
    ensures reply.Failed? ==> r == "翻译服务不可用"
    ensures reply.Answered? && Trim(reply.text) == [] ==> r == "翻译失败"
  {
    match reply
    case NoClient => "这是模拟的中文翻译结果。AI服务未配置。"
    case Failed => "翻译服务不可用"
    case Answered(text) => TrimmedOr(text, "翻译失败")
  }

  /** The trimmed text, or `fallback` when nothing is left after trimming. */
  function TrimmedOr(text: string, fallback: string): (r: string)
    requires fallback != [] && IsTrimmed(fallback)
    ensures r != [] && IsTrimmed(r)
    ensures r == if Trim(text) == [] then fallback else Trim(text)
  {
    TrimSpec(text);
    var t := Trim(text);
    if t == [] then fallback else t
  }

  /** A translation padded with white space comes back without the padding. */
  lemma TranslationOfPadded(t: string, left: string, right: string)
    requires t != [] && IsTrimmed(t)
    requires forall i :: 0 <= i < |left| ==> IsWhite(left[i])
    requires forall i :: 0 <= i < |right| ==> IsWhite(right[i])
    ensures TranslateText(Answered(left + t + right)) == t
  {
    TrimPadded(t, left, right);
  }

  /** `generateTranscriptFromText`: the transcript of a text is the text itself. */
  function GenerateTranscriptFromText(text: string): (r: string)
    ensures r == text
  {
    text
  }
}
