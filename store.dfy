/**
 * The storage service: a key-value store holding one list per key
 * (`del_materials`, `del_vocabulary`, `del_grammar`, `del_speaking_sentences`), read
 * and written whole. An absent key reads as the seed list; for materials, vocabulary
 * and grammar, reading an absent key also writes the seed back.
 */
module Storage {
  import opened Strings
  import opened Types
  import opened Review

  /** The partial vocabulary record handed to `addVocabulary`; a missing field is `None`. */
  datatype WordDraft = WordDraft(
    id: Option<string>, word: Option<string>, context: Option<string>,
    definition: Option<string>, translation: Option<string>)

  /** The partial grammar record handed to `addGrammar`. */
  datatype GrammarDraft = GrammarDraft(
    id: Option<string>, sentence: Option<string>, rule: Option<string>, explanation: Option<string>)

  /** `field || fallback`: a missing or empty string gives way to the fallback. */
  function OrElse(field: Option<string>, fallback: string): (r: string)
    ensures field.Some? && field.value != "" ==> r == field.value
    ensures field.None? || field.value == "" ==> r == fallback
  {
    if field.Some? && field.value != "" then field.value else fallback
  }

  /** The list read from a key: the stored list, or the seed when the key is absent. */
  function Loaded<T>(stored: Option<seq<T>>, seed: seq<T>): seq<T> {
    if stored.Some? then stored.value else seed
  }

  /** The item `addVocabulary` creates: due one day after it is added, at stage 0. */
  function NewWord(d: WordDraft, freshId: string, now: int): (r: VocabularyItem)
    ensures r.stage == 0 && r.addedAt == now && r.nextReviewAt == now + DAY_MS
    ensures r.id == OrElse(d.id, freshId)
    ensures r.word == OrElse(d.word, "") && r.context == OrElse(d.context, "")
    ensures r.definition == OrElse(d.definition, "") && r.translation == OrElse(d.translation, "")
  {
    VocabularyItem(OrElse(d.id, freshId), OrElse(d.word, ""), OrElse(d.context, ""),
      OrElse(d.definition, ""), OrElse(d.translation, ""), now, now + 86400000, 0)
  }

  /** The item `addGrammar` creates. */
  function NewGrammar(d: GrammarDraft, freshId: string, now: int): (r: GrammarItem)
    ensures r.stage == 0 && r.addedAt == now && r.nextReviewAt == now + DAY_MS
    ensures r.id == OrElse(d.id, freshId)
    ensures r.sentence == OrElse(d.sentence, "") && r.rule == OrElse(d.rule, "")
    ensures r.explanation == OrElse(d.explanation, "")
  {
    GrammarItem(OrElse(d.id, freshId), OrElse(d.sentence, ""), OrElse(d.rule, ""),
      OrElse(d.explanation, ""), now, now + 86400000, 0)
  }

  /** A newly added item is not due until a day has passed, and its first completion moves
      it to stage 1. */
  lemma NewWordSchedule(d: WordDraft, freshId: string, now: int)
    ensures !(NewWord(d, freshId, now).nextReviewAt <= now + DAY_MS - 1)
    ensures CompleteWord(NewWord(d, freshId, now), now).stage == 1
  {
  }

  /** `materials.map(m => m.id === updated.id ? updated : m)`. */
  function ReplaceById(ms: seq<Material>, m: Material): (r: seq<Material>)
    ensures |r| == |ms|
    ensures forall i :: 0 <= i < |ms| ==> r[i] == if ms[i].id == m.id then m else ms[i]
  {
    if ms == [] then [] else [if ms[0].id == m.id then m else ms[0]] + ReplaceById(ms[1..], m)
  }

  /** Replacing is idempotent, leaves the list alone when no id matches, and otherwise puts
      the new record in. */
  lemma ReplaceByIdFacts(ms: seq<Material>, m: Material)
    ensures ReplaceById(ReplaceById(ms, m), m) == ReplaceById(ms, m)
    ensures (forall i :: 0 <= i < |ms| ==> ms[i].id != m.id) ==> ReplaceById(ms, m) == ms
    ensures (exists i :: 0 <= i < |ms| && ms[i].id == m.id) ==> m in ReplaceById(ms, m)
  {
    ReplaceTwice(ms, m);
    ReplaceAbsent(ms, m);
    if exists i :: 0 <= i < |ms| && ms[i].id == m.id {
      var i :| 0 <= i < |ms| && ms[i].id == m.id;
      assert ReplaceById(ms, m)[i] == m;
    }
  }

  lemma ReplaceTwice(ms: seq<Material>, m: Material)
    ensures ReplaceById(ReplaceById(ms, m), m) == ReplaceById(ms, m)
  {
    var r := ReplaceById(ms, m);
    var r2 := ReplaceById(r, m);
    forall i | 0 <= i < |r| ensures r2[i] == r[i] {
      assert r[i] == if ms[i].id == m.id then m else ms[i];
    }
  }

  lemma ReplaceAbsent(ms: seq<Material>, m: Material)
    ensures (forall i :: 0 <= i < |ms| ==> ms[i].id != m.id) ==> ReplaceById(ms, m) == ms
  {
    if forall i :: 0 <= i < |ms| ==> ms[i].id != m.id {
      var r := ReplaceById(ms, m);
      forall i | 0 <= i < |ms| ensures r[i] == ms[i] { }
    }
  }

  /** `sentences.filter(s => !current.includes(s))`. */
  function UniqueNew(sentences: seq<string>, current: seq<string>): (r: seq<string>)
    ensures |r| <= |sentences|
    ensures forall x :: x in r <==> x in sentences && x !in current
  {
    if sentences == [] then []
    else (if sentences[0] in current then [] else [sentences[0]]) + UniqueNew(sentences[1..], current)
  }

  /** The filter distributes over concatenation, so the kept sentences keep their order
      and their repeats. */
  lemma {:induction false} UniqueNewConcat(a: seq<string>, b: seq<string>, current: seq<string>)
    ensures UniqueNew(a + b, current) == UniqueNew(a, current) + UniqueNew(b, current)
  {
    if a == [] {
      assert a + b == b;
    } else {
      assert (a + b)[0] == a[0];
      assert (a + b)[1..] == a[1..] + b;
      UniqueNewConcat(a[1..], b, current);
      Associate(if a[0] in current then [] else [a[0]], UniqueNew(a[1..], current), UniqueNew(b, current));
    }
  }

  /** One sentence is kept exactly when it is not stored yet. */
  lemma UniqueNewOne(x: string, current: seq<string>)
    ensures UniqueNew([x], current) == if x in current then [] else [x]
  {
    assert [x][1..] == [];
  }

  /** The list `addSpeakingSentences` stores: new sentences first, then the stored ones. */
  function MergeSpeaking(sentences: seq<string>, current: seq<string>): seq<string> {
    UniqueNew(sentences, current) + current
  }

  /** The stored list survives as a suffix, nothing already stored is added a second time,
      and every given sentence ends up in the list. */
  lemma MergeSpeakingFacts(sentences: seq<string>, current: seq<string>)
    ensures var r := MergeSpeaking(sentences, current);
      && |current| <= |r| <= |sentences| + |current|
      && r[|r| - |current|..] == current
      && (forall i :: 0 <= i < |r| - |current| ==> r[i] !in current && r[i] in sentences)
      && (forall x :: x in sentences ==> x in r)
  {
    var n := UniqueNew(sentences, current);
    var r := n + current;
    assert r[|n|..] == current;
    forall i | 0 <= i < |r| - |current| ensures r[i] !in current && r[i] in sentences {
      assert r[i] == n[i];
    }
  }

  /** Adding a batch a second time changes nothing. */
  lemma MergeSpeakingIdempotent(sentences: seq<string>, current: seq<string>)
    ensures MergeSpeaking(sentences, MergeSpeaking(sentences, current)) == MergeSpeaking(sentences, current)
  {
    var r := MergeSpeaking(sentences, current);
    MergeSpeakingFacts(sentences, current);
    NothingNew(sentences, r);
  }

  lemma {:induction false} NothingNew(sentences: seq<string>, current: seq<string>)
    requires forall x :: x in sentences ==> x in current
    ensures UniqueNew(sentences, current) == []
  {
    if sentences != [] {
      NothingNew(sentences[1..], current);
    }
  }

  class Store {
    /** The list under `del_materials`; `None` while the key is absent. */
    var materials: Option<seq<Material>>
    /** The list under `del_vocabulary`. */
    var vocabulary: Option<seq<VocabularyItem>>
    /** The list under `del_grammar`. */
    var grammar: Option<seq<GrammarItem>>
    /** The list under `del_speaking_sentences`. */
    var speaking: Option<seq<string>>

    /** The seed lists used when a key is absent. */
    const mockMaterials: seq<Material>
    const mockVocabulary: seq<VocabularyItem>
    const mockGrammar: seq<GrammarItem>
    const defaultSpeaking: seq<string>

    /** An empty store with the given seeds. */
    constructor (seedMaterials: seq<Material>, seedVocabulary: seq<VocabularyItem>,
                 seedGrammar: seq<GrammarItem>, seedSpeaking: seq<string>)
      ensures materials.None? && vocabulary.None? && grammar.None? && speaking.None?
      ensures mockMaterials == seedMaterials && mockVocabulary == seedVocabulary
      ensures mockGrammar == seedGrammar && defaultSpeaking == seedSpeaking
    {
      materials, vocabulary, grammar, speaking := None, None, None, None;
      mockMaterials, mockVocabulary, mockGrammar, defaultSpeaking :=
        seedMaterials, seedVocabulary, seedGrammar, seedSpeaking;
    }

    /** What reading each key returns now. */
    function Materials(): seq<Material> reads this { Loaded(materials, mockMaterials) }
    function Words(): seq<VocabularyItem> reads this { Loaded(vocabulary, mockVocabulary) }
    function Grammars(): seq<GrammarItem> reads this { Loaded(grammar, mockGrammar) }
    function Speaking(): seq<string> reads this { Loaded(speaking, defaultSpeaking) }

    /** `getMaterials`: the stored list, writing the seed first when the key is absent. */
    method GetMaterials() returns (ms: seq<Material>)
      modifies this`materials
      ensures ms == old(Materials()) && materials == Some(ms)
    {
      if materials.None? {
        materials := Some(mockMaterials);
      }
      ms := materials.value;
    }

    /** `saveMaterial`: prepends the material and returns the new list. */
    method SaveMaterial(m: Material) returns (ms: seq<Material>)
      modifies this`materials
      ensures ms == [m] + old(Materials()) && materials == Some(ms)
      ensures |ms| == |old(Materials())| + 1
    {
      var current := GetMaterials();
      ms := [m] + current;
      materials := Some(ms);
    }

    /** `updateMaterial`: replaces the materials whose id matches and returns the list. */
    method UpdateMaterial(m: Material) returns (ms: seq<Material>)
      modifies this`materials
      ensures ms == ReplaceById(old(Materials()), m) && materials == Some(ms)
    {
      var current := GetMaterials();
      ms := ReplaceById(current, m);
      materials := Some(ms);
    }

    /** `getVocabulary`. */
    method GetVocabulary() returns (v: seq<VocabularyItem>)
      modifies this`vocabulary
      ensures v == old(Words()) && vocabulary == Some(v)
    {
      if vocabulary.None? {
        vocabulary := Some(mockVocabulary);
      }
      v := vocabulary.value;
    }

    /** `getGrammar`. */
    method GetGrammar() returns (g: seq<GrammarItem>)
      modifies this`grammar
      ensures g == old(Grammars()) && grammar == Some(g)
    {
      if grammar.None? {
        grammar := Some(mockGrammar);
      }
      g := grammar.value;
    }

    /** `addVocabulary`: prepends a new item due tomorrow; the other items follow unchanged. */
    method AddVocabulary(d: WordDraft, freshId: string, now: int)
      modifies this`vocabulary
      ensures vocabulary == Some([NewWord(d, freshId, now)] + old(Words()))
    {
      var list := GetVocabulary();
      vocabulary := Some([NewWord(d, freshId, now)] + list);
    }

    /** `addGrammar`. */
    method AddGrammar(d: GrammarDraft, freshId: string, now: int)
      modifies this`grammar
      ensures grammar == Some([NewGrammar(d, freshId, now)] + old(Grammars()))
    {
      var list := GetGrammar();
      grammar := Some([NewGrammar(d, freshId, now)] + list);
    }

    /** `getReviewItems`: the review queue of the two lists (seeding them if absent). */
    method GetReviewItems() returns (tasks: seq<ReviewTask>)
      modifies this`vocabulary, this`grammar
      ensures tasks == BuildQueue(old(Words()), old(Grammars()))
      ensures vocabulary == Some(old(Words())) && grammar == Some(old(Grammars()))
    {
      var v := GetVocabulary();
      var g := GetGrammar();
      tasks := BuildQueue(v, g);
    }

    /** `markReviewComplete`: advances every item of the list named by `kind` whose id
        matches; the other list is not touched. */
    method MarkReviewComplete(id: string, kind: TaskKind, now: int)
      modifies this`vocabulary, this`grammar
      ensures kind == Word ==> vocabulary == Some(MarkWords(old(Words()), id, now)) && grammar == old(grammar)
      ensures kind == Grammar ==> grammar == Some(MarkGrammar(old(Grammars()), id, now)) && vocabulary == old(vocabulary)
    {
      if kind == Word {
        var list := GetVocabulary();
        vocabulary := Some(MarkWords(list, id, now));
      } else {
        var list := GetGrammar();
        grammar := Some(MarkGrammar(list, id, now));
      }
    }

    /** `getSpeakingSentences`: the stored list or the default one; nothing is written. */
    method GetSpeakingSentences() returns (s: seq<string>)
      ensures s == Speaking()
      ensures speaking.Some? ==> s == speaking.value
      ensures speaking.None? ==> s == defaultSpeaking
    {
      s := if speaking.Some? then speaking.value else defaultSpeaking;
    }

    /** `addSpeakingSentences`: sentences not yet stored, then the stored list. */
    method AddSpeakingSentences(sentences: seq<string>) returns (updated: seq<string>)
      modifies this`speaking
      ensures updated == MergeSpeaking(sentences, old(Speaking())) && speaking == Some(updated)
    {
      var current := GetSpeakingSentences();
      updated := UniqueNew(sentences, current) + current;
      speaking := Some(updated);
    }
  }
}
