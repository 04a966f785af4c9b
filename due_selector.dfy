/** `getMostDueCard`: picks the card with the earliest review due date by a
    linear scan with a strict `Before` comparison, so the first of several
    equally due cards wins. */
module DueSelector {
  import opened Wrappers
  import opened Cards
  import opened TimeText
  import Scheduler

  datatype DueError =
    | NoCards                          // the "no cards" error of an empty slice
    | MalformedDueDate(text: string)   // the parse error of the first bad due date

  /** Every card's due date parses. */
  predicate AllDueDatesParse(cards: seq<Card>, parse: string -> Option<int>) {
    forall i :: 0 <= i < |cards| ==> parse(cards[i].reviewDueDate).Some?
  }

  /** `k` holds the earliest due date, and every card before it is due
      strictly later. */
  predicate IsFirstMostDue(cards: seq<Card>, parse: string -> Option<int>, k: int)
    requires AllDueDatesParse(cards, parse)
  {
    && 0 <= k < |cards|
    && (forall j :: 0 <= j < |cards| ==>
          parse(cards[k].reviewDueDate).value <= parse(cards[j].reviewDueDate).value)
    && (forall j :: 0 <= j < k ==>
          parse(cards[k].reviewDueDate).value < parse(cards[j].reviewDueDate).value)
  }

  /** `i` is the first card whose due date does not parse. */
  predicate IsFirstMalformed(cards: seq<Card>, parse: string -> Option<int>, i: int) {
    && 0 <= i < |cards|
    && parse(cards[i].reviewDueDate).None?
    && forall j :: 0 <= j < i ==> parse(cards[j].reviewDueDate).Some?
  }

  method GetMostDueCard(cards: seq<Card>, parse: string -> Option<int>) returns (card: Card, err: Option<DueError>)
    ensures |cards| == 0 ==> card == ZeroCard && err == Some(NoCards)
    ensures |cards| == 1 ==> card == cards[0] && err == None
    ensures |cards| >= 2 && !AllDueDatesParse(cards, parse) ==>
      card == ZeroCard &&
      exists i :: IsFirstMalformed(cards, parse, i) && err == Some(MalformedDueDate(cards[i].reviewDueDate))
    ensures |cards| >= 2 && AllDueDatesParse(cards, parse) ==>
      err == None && exists k :: IsFirstMostDue(cards, parse, k) && card == cards[k]
  {
    if |cards| == 0 {
      return ZeroCard, Some(NoCards);
    }
    if |cards| == 1 {
      return cards[0], None;
    }
    var first := parse(cards[0].reviewDueDate);
    if first.None? {
      assert IsFirstMalformed(cards, parse, 0);
      return ZeroCard, Some(MalformedDueDate(cards[0].reviewDueDate));
    }
    var mostDueCardTime := first.value;
    card := cards[0];
    ghost var k := 0;
    var i := 0;
    while i < |cards|
      invariant 0 <= i <= |cards|
      invariant 0 <= k < |cards| && (k == 0 || k < i) && card == cards[k]
      invariant parse(cards[k].reviewDueDate) == Some(mostDueCardTime)
      invariant forall j :: 0 <= j < i ==> parse(cards[j].reviewDueDate).Some?
      invariant forall j :: 0 <= j < i ==> mostDueCardTime <= parse(cards[j].reviewDueDate).value
      invariant forall j :: 0 <= j < k ==> mostDueCardTime < parse(cards[j].reviewDueDate).value
    {
      var current := parse(cards[i].reviewDueDate);
      if current.None? {
        assert IsFirstMalformed(cards, parse, i);
        return ZeroCard, Some(MalformedDueDate(cards[i].reviewDueDate));
      }
      if current.value < mostDueCardTime {
        mostDueCardTime := current.value;
        card := cards[i];
        k := i;
      }
      i := i + 1;
    }
    err := None;
    assert IsFirstMostDue(cards, parse, k);
  }

  /** The scan's choice is determined: at most one index is the first most
      due, so ties always go to the earliest card. */
  lemma FirstMostDueIsUnique(cards: seq<Card>, parse: string -> Option<int>, k1: int, k2: int)
    requires AllDueDatesParse(cards, parse)
    requires IsFirstMostDue(cards, parse, k1) && IsFirstMostDue(cards, parse, k2)
    ensures k1 == k2
  {
    var t1, t2 := parse(cards[k1].reviewDueDate).value, parse(cards[k2].reviewDueDate).value;
    assert t1 <= t2 && t2 <= t1;
  }

  /** Of two cards due at different instants, the earlier is chosen. */
  lemma EarlierOfTwoIsMostDue(c1: Card, c2: Card, parse: string -> Option<int>)
    requires parse(c1.reviewDueDate).Some? && parse(c2.reviewDueDate).Some?
    requires parse(c1.reviewDueDate).value < parse(c2.reviewDueDate).value
    ensures AllDueDatesParse([c1, c2], parse) && IsFirstMostDue([c1, c2], parse, 0)
    ensures forall k :: IsFirstMostDue([c1, c2], parse, k) ==> k == 0
  {
  }

  /** After a wrong answer through the review transition as written, the
      card's due date no longer parses. Wherever that card sits in a list,
      the list fails `AllDueDatesParse`, so by `GetMostDueCard`'s contract
      a selection over it and at least one other card returns
      `MalformedDueDate` and the zero card. */
  lemma ReviewedCardBlocksSelection(card: Card, now: int, tf: TimeFormat, cards: seq<Card>, i: int)
    requires tf.Lawful() && 0 <= i < |cards| && cards[i] == Scheduler.ReviewAnswer(card, false, now, tf)
    ensures !AllDueDatesParse(cards, tf.parse)
  {
    assert tf.parse(cards[i].reviewDueDate) == None;
  }

  /** With the intended review transition the due date stays parseable, so
      the card keeps its place in selection. */
  lemma IntendedReviewKeepsSelectable(card: Card, correctAnswer: bool, now: int, tf: TimeFormat, others: seq<Card>)
    requires tf.Lawful() && AllDueDatesParse(others, tf.parse)
    ensures AllDueDatesParse([Scheduler.IntendedReviewAnswer(card, correctAnswer, now, tf)] + others, tf.parse)
  {
    var cards := [Scheduler.IntendedReviewAnswer(card, correctAnswer, now, tf)] + others;
    forall i | 0 <= i < |cards| ensures tf.parse(cards[i].reviewDueDate).Some? {
      if i > 0 {
        assert cards[i] == others[i - 1];
      }
    }
  }
}
