/**
 * The application's records: learning materials, collected vocabulary and grammar
 * items carrying their spaced-repetition schedule, and the review tasks derived from them.
 * Timestamps are epoch milliseconds.
 */
module Types {
  import opened Strings

  datatype Difficulty = Beginner | Intermediate | Advanced

  datatype MaterialType = Audio | Video | Text

  datatype Material = Material(
    id: string,
    title: string,
    kind: MaterialType,
    duration: string,
    source: string,
    difficulty: Difficulty,
    topic: string,
    thumbnail: Option<string>,
    audioUrl: Option<string>,
    transcript: string,
    createdAt: int)

  datatype VocabularyItem = VocabularyItem(
    id: string,
    word: string,
    context: string,
    definition: string,
    translation: string,
    addedAt: int,
    nextReviewAt: int,
    stage: nat)

  datatype GrammarItem = GrammarItem(
    id: string,
    sentence: string,
    rule: string,
    explanation: string,
    addedAt: int,
    nextReviewAt: int,
    stage: nat)

  /** Which list a review task came from: `'word' | 'grammar'`. */
  datatype TaskKind = Word | Grammar

  datatype ReviewTask = ReviewTask(id: string, title: string, kind: TaskKind, nextReviewAt: int)

  /** The text of a difficulty as the application stores it. */
  function DifficultyName(d: Difficulty): string {
    match d
    case Beginner => "beginner"
    case Intermediate => "intermediate"
    case Advanced => "advanced"
  }
}
