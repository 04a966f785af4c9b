/** The `cards` table as an in-memory sequence of rows in rowid order, with
    the queries and updates the scheduler runs against it: `insertCard`,
    `selectCardByCardID`, the three `select*CardsByDeckID` filters,
    `updateLearningCard` and `updateReviewCard`. */
module CardStore {
  import opened Wrappers
  import opened TimeText
  import opened Cards
  import Scheduler

  /** `sql.ErrNoRows` from a lookup by card id. */
  datatype StoreError = NotFound(cardId: int)

  /** The WHERE clause of a deck query: deck only, or deck and stage. */
  datatype StageFilter = AnyStage | InStage(stage: string)

  predicate Matches(c: Card, deckId: int, filter: StageFilter) {
    c.deckId == deckId && (filter.InStage? ==> c.stage == filter.stage)
  }

  /** The rows a deck query returns, in table order. Every row it returns
      is a matching row of the table. */
  function CardsWhere(rows: seq<Card>, deckId: int, filter: StageFilter): (r: seq<Card>)
    ensures |r| <= |rows|
    ensures forall c :: c in r ==> c in rows && Matches(c, deckId, filter)
  {
    if rows == [] then []
    else
      var init := CardsWhere(rows[..|rows| - 1], deckId, filter);
      var last := rows[|rows| - 1];
      if Matches(last, deckId, filter) then init + [last] else init
  }

  /** Every matching row of the table is returned by the deck query. */
  lemma {:induction false} CardsWhereComplete(rows: seq<Card>, deckId: int, filter: StageFilter, c: Card)
    requires c in rows && Matches(c, deckId, filter)
    ensures c in CardsWhere(rows, deckId, filter)
  {
    var last := rows[|rows| - 1];
    if c != last {
      var init := rows[..|rows| - 1];
      assert rows == init + [last];
      CardsWhereComplete(init, deckId, filter, c);
    }
  }

  predicate KnownStage(stage: string) {
    stage == LearningStage || stage == ReviewStage
  }

  /** On a table whose stages are all known, the learning and the review
      queries of a deck split its full query between them. */
  lemma {:induction false} StageQueriesPartitionDeck(rows: seq<Card>, deckId: int)
    requires forall i :: 0 <= i < |rows| ==> KnownStage(rows[i].stage)
    ensures |CardsWhere(rows, deckId, InStage(LearningStage))| + |CardsWhere(rows, deckId, InStage(ReviewStage))|
         == |CardsWhere(rows, deckId, AnyStage)|
  {
    if rows != [] {
      StageQueriesPartitionDeck(rows[..|rows| - 1], deckId);
    }
  }

  /** The card id SQLite gives the next inserted row: one more than the
      largest, which is the last in rowid order, or 1 in an empty table. */
  function NextCardId(rows: seq<Card>): int {
    if rows == [] then 1 else rows[|rows| - 1].cardId + 1
  }

  class CardTable {
    /** The time library the queries format dates with. */
    const time: TimeFormat
    /** The rows in rowid order. */
    var rows: seq<Card>

    /** Card ids are the rowid (positive, strictly ascending in table order)
        and every stage is one the program writes. */
    ghost predicate Valid()
      reads this
    {
      && (forall i, j :: 0 <= i < j < |rows| ==> rows[i].cardId < rows[j].cardId)
      && (forall i :: 0 <= i < |rows| ==> rows[i].cardId >= 1 && KnownStage(rows[i].stage))
    }

    /** `createCardsTable`: an empty table. */
    constructor (time: TimeFormat)
      ensures Valid() && this.time == time && rows == []
    {
      this.time := time;
      rows := [];
    }

    /** `insertCard`: appends a row with the given columns, the schema
        defaults, and `now` marshalled as its review due date. */
    method InsertCard(deckId: int, question: string, answer: string, cardCreated: string, now: int)
      requires Valid()
      modifies this
      ensures Valid()
      ensures rows == old(rows) +
        [NewCard(NextCardId(old(rows)), deckId, question, answer, cardCreated, time.marshalText(now))]
    {
      var card := NewCard(NextCardId(rows), deckId, question, answer, cardCreated, time.marshalText(now));
      rows := rows + [card];
    }

    /** `selectCardByCardID`: the row with that id, or `NotFound` and the
        zero card. */
    method SelectCardByCardID(cardId: int) returns (card: Card, err: Option<StoreError>)
      ensures err.None? <==> exists i :: 0 <= i < |rows| && rows[i].cardId == cardId
      ensures err.None? ==> card in rows && card.cardId == cardId
      ensures err.Some? ==> card == ZeroCard && err == Some(NotFound(cardId))
    {
      var i := 0;
      while i < |rows|
        invariant 0 <= i <= |rows|
        invariant forall j :: 0 <= j < i ==> rows[j].cardId != cardId
      {
        if rows[i].cardId == cardId {
          return rows[i], None;
        }
        i := i + 1;
      }
      return ZeroCard, Some(NotFound(cardId));
    }

    /** The scan shared by the three deck queries. */
    method SelectCardsWhere(deckId: int, filter: StageFilter) returns (cards: seq<Card>)
      ensures cards == CardsWhere(rows, deckId, filter)
    {
      cards := [];
      var i := 0;
      while i < |rows|
        invariant 0 <= i <= |rows|
        invariant cards == CardsWhere(rows[..i], deckId, filter)
      {
        assert rows[..i + 1][..i] == rows[..i];
        if Matches(rows[i], deckId, filter) {
          cards := cards + [rows[i]];
        }
        i := i + 1;
      }
      assert rows[..i] == rows;
    }

    /** `selectLearningCardsByDeckID`. */
    method SelectLearningCardsByDeckID(deckId: int) returns (cards: seq<Card>)
      ensures cards == CardsWhere(rows, deckId, InStage(LearningStage))
      ensures forall c :: c in rows ==> (c in cards <==> c.deckId == deckId && c.stage == LearningStage)
    {
      cards := SelectCardsWhere(deckId, InStage(LearningStage));
      forall c | c in rows && c.deckId == deckId && c.stage == LearningStage ensures c in cards {
        CardsWhereComplete(rows, deckId, InStage(LearningStage), c);
      }
    }

    /** `selectReviewCardsByDeckID`. */
    method SelectReviewCardsByDeckID(deckId: int) returns (cards: seq<Card>)
      ensures cards == CardsWhere(rows, deckId, InStage(ReviewStage))
      ensures forall c :: c in rows ==> (c in cards <==> c.deckId == deckId && c.stage == ReviewStage)
    {
      cards := SelectCardsWhere(deckId, InStage(ReviewStage));
      forall c | c in rows && c.deckId == deckId && c.stage == ReviewStage ensures c in cards {
        CardsWhereComplete(rows, deckId, InStage(ReviewStage), c);
      }
    }

    /** `selectAllCardsByDeckID`. */
    method SelectAllCardsByDeckID(deckId: int) returns (cards: seq<Card>)
      ensures cards == CardsWhere(rows, deckId, AnyStage)
      ensures forall c :: c in rows ==> (c in cards <==> c.deckId == deckId)
    {
      cards := SelectCardsWhere(deckId, AnyStage);
      forall c | c in rows && c.deckId == deckId ensures c in cards {
        CardsWhereComplete(rows, deckId, AnyStage, c);
      }
    }

    /** `updateLearningCard`: reads the card, then writes the learning
        transition of it to the row with that id; a missing card is
        reported and nothing changes. Every other row is untouched. */
    method UpdateLearningCard(cardId: int, correctAnswer: bool, now: int) returns (err: Option<StoreError>)
      requires Valid()
      modifies this
      ensures Valid()
      ensures err.None? <==> exists i :: 0 <= i < |old(rows)| && old(rows)[i].cardId == cardId
      ensures err.Some? ==> rows == old(rows)
      ensures |rows| == |old(rows)|
      ensures forall k :: 0 <= k < |rows| ==>
        rows[k] == if old(rows)[k].cardId == cardId
                   then Scheduler.LearningAnswer(old(rows)[k], correctAnswer, now, time)
                   else old(rows)[k]
    {
      var card;
      card, err := SelectCardByCardID(cardId);
      if err.Some? {
        return;
      }
      var next := Scheduler.LearningAnswer(card, correctAnswer, now, time);
      rows := WriteRow(rows, cardId, next);
    }

    /** `updateReviewCard`: as `UpdateLearningCard`, with the review
        transition as the code writes it. */
    method UpdateReviewCard(cardId: int, correctAnswer: bool, now: int) returns (err: Option<StoreError>)
      requires Valid()
      modifies this
      ensures Valid()
      ensures err.None? <==> exists i :: 0 <= i < |old(rows)| && old(rows)[i].cardId == cardId
      ensures err.Some? ==> rows == old(rows)
      ensures |rows| == |old(rows)|
      ensures forall k :: 0 <= k < |rows| ==>
        rows[k] == if old(rows)[k].cardId == cardId
                   then Scheduler.ReviewAnswer(old(rows)[k], correctAnswer, now, time)
                   else old(rows)[k]
    {
      var card;
      card, err := SelectCardByCardID(cardId);
      if err.Some? {
        return;
      }
      var next := Scheduler.ReviewAnswer(card, correctAnswer, now, time);
      rows := WriteRow(rows, cardId, next);
    }
  }

  /** `UPDATE cards SET ... WHERE card_id = ?`: every row with that id
      becomes `next`, every other row stays as it was. */
  function WriteRow(rows: seq<Card>, cardId: int, next: Card): seq<Card>
  {
    seq(|rows|, k requires 0 <= k < |rows| => if rows[k].cardId == cardId then next else rows[k])
  }
}
