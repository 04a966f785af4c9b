/** The card record (models/card_model.go) and the instants and
    timestamp texts that its date columns hold. */
module TimeText {
  import opened Wrappers

  /** Durations in nanoseconds, as Go's `time.Duration` counts them. */
  const Minute: int := 60_000_000_000
  const Hour: int := 60 * Minute
  const Day: int := 24 * Hour

  /** The time library functions the scheduler calls, over instants counted
      in nanoseconds (UTC):
      - `marshalText`: `Time.MarshalText`, the RFC 3339 `date-time` layout
        with fractional seconds;
      - `toString`: `Time.String`, the layout "2006-01-02 15:04:05.999999999
        +0000 UTC";
      - `parse`: `time.Parse(time.RFC3339Nano, ·)`, `None` when the text does
        not follow the layout. */
  datatype TimeFormat = TimeFormat(
    marshalText: int -> string,
    toString: int -> string,
    parse: string -> Option<int>)
  {
    /** What the library guarantees and the model relies on: a marshalled
        instant parses back to itself, and a `String()` text never parses
        (it has a space where RFC 3339 requires 'T'). */
    ghost predicate Lawful() {
      && (forall t :: parse(marshalText(t)) == Some(t))
      && (forall t :: parse(toString(t)) == None)
    }
  }
}

module Cards {

  /** One row of the `cards` table. Counters and ease are Go `int`s; dates are
      the texts stored in the TEXT columns. */
  datatype Card = Card(
    cardId: int,
    deckId: int,
    correct: int,
    incorrect: int,
    cardCreated: string,
    lastReviewDate: string,
    stage: string,
    lapses: int,
    ease: int,
    reviewDueDate: string,
    question: string,
    answer: string)

  /** The two values the `stage` column takes. */
  const LearningStage: string := "learning"
  const ReviewStage: string := "review"

  /** Go's zero value `models.Card{}`, returned beside an error. */
  const ZeroCard: Card := Card(0, 0, 0, 0, "", "", "", 0, 0, "", "", "")

  /** The columns no scheduling update writes: identity, deck and content. */
  predicate SameIdentity(a: Card, b: Card) {
    && a.cardId == b.cardId
    && a.deckId == b.deckId
    && a.cardCreated == b.cardCreated
    && a.question == b.question
    && a.answer == b.answer
  }

  /** The row `insertCard` creates: the given columns plus the schema
      defaults of `createCardsTable` for all others. */
  function NewCard(cardId: int, deckId: int, question: string, answer: string,
                   cardCreated: string, reviewDueDate: string): Card
  {
    Card(cardId, deckId, 0, 0, cardCreated, "", LearningStage, 0, 1, reviewDueDate, question, answer)
  }
}
