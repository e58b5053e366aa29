/** The response record shapes the backend declares and the frontend
    consumes.  Only their shapes are modelled; field validation is not. */
module Records {

  /** One study card: a prompt and its answer. */
  datatype Flashcard = Flashcard(front: string, back: string)

  /** The digest of a transcript, as the result card displays it. */
  datatype DigestData = DigestData(
    summary: string,
    highlights: seq<string>,
    insights: seq<string>,
    actionItems: seq<string>,
    questions: seq<string>)

  /** Smart notes; `flashcards` holds the cards still as raw mappings. */
  datatype SmartNotesData = SmartNotesData(
    summary: string,
    structuredNotes: seq<string>,
    flashcards: seq<map<string, string>>,
    quizzes: seq<string>,
    eli12: string)
}
