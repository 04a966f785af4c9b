/** The answer-driven card transitions of `updateLearningCard` and
    `updateReviewCard`, as pure functions of the card read from the table,
    the answer's correctness and the current instant `now`. */
module Scheduler {
  import opened Wrappers
  import opened TimeText
  import opened Cards

  const MaxInt64: int := 0x7FFF_FFFF_FFFF_FFFF
  const Int64Modulus: int := 0x1_0000_0000_0000_0000

  /** The largest ease whose interval `ease * 24h` fits a `time.Duration`. */
  const MaxSafeEase: int := MaxInt64 / Day

  /** Two's-complement wrap of Go's 64-bit integer arithmetic. */
  function WrapInt64(x: int): (r: int)
    ensures -MaxInt64 - 1 <= r <= MaxInt64
    ensures -MaxInt64 - 1 <= x <= MaxInt64 ==> r == x
    ensures (x - r) % Int64Modulus == 0
  {
    var m := x % Int64Modulus;
    if m > MaxInt64 then m - Int64Modulus else m
  }

  /** `getNextEaseLevel`: ceil(currentEase * growthFactor). Only the whole
      factors 1 and 2 are ever passed, so the ceiling is exact. */
  function NextEaseLevel(currentEase: int, growthFactor: nat): (r: int)
    ensures growthFactor == 1 ==> r == currentEase
    ensures growthFactor == 2 ==> r == 2 * currentEase
    ensures currentEase >= 1 && growthFactor >= 1 ==> r >= currentEase
  {
    currentEase * growthFactor
  }

  /** `createNextReviewDueDate`: `now` plus `ease` days, where the interval
      `time.Duration(ease) * 24 * time.Hour` is computed in 64 bits. Up to
      `MaxSafeEase` the due date is exactly `ease` days ahead. */
  function NextReviewDueDate(ease: int, now: int, tf: TimeFormat): (due: string)
    ensures tf.Lawful() ==> tf.parse(due) == Some(now + WrapInt64(ease * Day))
    ensures tf.Lawful() && 1 <= ease <= MaxSafeEase ==>
      tf.parse(due) == Some(now + ease * Day) && tf.parse(due).value > now
  {
    SafeIntervalFits(ease);
    tf.marshalText(now + WrapInt64(ease * 24 * Hour))
  }

  lemma SafeIntervalFits(ease: int)
    ensures 1 <= ease <= MaxSafeEase ==> Day <= ease * Day <= MaxInt64
    ensures ease * 24 * Hour == ease * Day
  {
    assert MaxSafeEase == 106751;
    if 1 <= ease <= MaxSafeEase {
      assert ease * Day <= 106751 * Day;
    }
  }

  /** `updateLearningCard`: the row written back after a typed answer.
      A correct answer at ease above 1 graduates the card to review, due in
      24 hours; a correct answer at ease 1 or below doubles ease and keeps the
      stage, due in a minute; an incorrect answer resets ease to 1, due in a
      minute. Lapses are not among the written columns. */
  function LearningAnswer(card: Card, correctAnswer: bool, now: int, tf: TimeFormat): (next: Card)
    ensures SameIdentity(next, card) && next.lapses == card.lapses
    ensures next.correct == card.correct + (if correctAnswer then 1 else 0)
    ensures next.incorrect == card.incorrect + (if correctAnswer then 0 else 1)
    ensures next.stage == if correctAnswer && card.ease > 1 then ReviewStage else card.stage
    ensures correctAnswer && card.ease > 1 ==> next.ease == card.ease
    ensures correctAnswer && card.ease <= 1 ==> next.ease == 2 * card.ease
    ensures !correctAnswer ==> next.ease == 1
    ensures card.ease >= 1 ==> next.ease >= 1
    ensures tf.Lawful() ==> tf.parse(next.lastReviewDate) == Some(now)
    ensures tf.Lawful() ==>
      tf.parse(next.reviewDueDate) == Some(now + if correctAnswer && card.ease > 1 then Day else Minute)
  {
    var nowText := tf.marshalText(now);
    var minuteAfter := tf.marshalText(now + Minute);
    var dayAfter := tf.marshalText(now + Day);
    if correctAnswer then
      if card.ease > 1 then
        card.(correct := card.correct + 1, ease := NextEaseLevel(card.ease, 1),
              stage := ReviewStage, reviewDueDate := dayAfter, lastReviewDate := nowText)
      else
        card.(correct := card.correct + 1, ease := NextEaseLevel(card.ease, 2),
              reviewDueDate := minuteAfter, lastReviewDate := nowText)
    else
      card.(incorrect := card.incorrect + 1, ease := 1,
            reviewDueDate := minuteAfter, lastReviewDate := nowText)
  }

  /** `updateReviewCard` AS WRITTEN. A correct answer doubles ease and
      schedules the card `ease'` days ahead. On an incorrect answer the values
      are passed in the order "incorrect, 1, Lapses(+1)" against the columns
      "incorrect, lapses, ease", so lapses becomes 1 and ease becomes the old
      lapse count (plus one when ease was not 1). Every date this function
      writes, except the correct branch's due date, is in `String()` layout
      and does not parse. The stage is not among the written columns. */
  function ReviewAnswer(card: Card, correctAnswer: bool, now: int, tf: TimeFormat): (next: Card)
    ensures SameIdentity(next, card) && next.stage == card.stage
    ensures next.correct == card.correct + (if correctAnswer then 1 else 0)
    ensures next.incorrect == card.incorrect + (if correctAnswer then 0 else 1)
    ensures correctAnswer ==> next.lapses == card.lapses && next.ease == 2 * card.ease
    ensures correctAnswer && tf.Lawful() ==>
      tf.parse(next.reviewDueDate) == Some(now + WrapInt64(next.ease * Day))
    ensures correctAnswer && tf.Lawful() && 1 <= 2 * card.ease <= MaxSafeEase ==>
      tf.parse(next.reviewDueDate) == Some(now + next.ease * Day)
    ensures !correctAnswer ==>
      next.lapses == 1 && next.ease == card.lapses + (if card.ease != 1 then 1 else 0)
    ensures next.lastReviewDate == tf.toString(now)
    ensures !correctAnswer ==> next.reviewDueDate == tf.toString(now)
    ensures tf.Lawful() ==> tf.parse(next.lastReviewDate) == None
    ensures tf.Lawful() && !correctAnswer ==> tf.parse(next.reviewDueDate) == None
  {
    var nowString := tf.toString(now);
    if correctAnswer then
      card.(correct := card.correct + 1, lapses := card.lapses, ease := NextEaseLevel(card.ease, 2),
            reviewDueDate := NextReviewDueDate(NextEaseLevel(card.ease, 2), now, tf),
            lastReviewDate := nowString)
    else if card.ease != 1 then
      card.(incorrect := card.incorrect + 1, lapses := 1, ease := card.lapses + 1,
            reviewDueDate := nowString, lastReviewDate := nowString)
    else
      card.(incorrect := card.incorrect + 1, lapses := 1, ease := card.lapses,
            reviewDueDate := nowString, lastReviewDate := nowString)
  }

  // ---------------------------------------------------------------------
  // Answer sequences through the typed-answer handler, which applies the
  // learning transition to whatever card is answered.

  datatype Answer = Answer(correct: bool, at: int)

  function AnswerTypedAll(card: Card, answers: seq<Answer>, tf: TimeFormat): Card
    decreases |answers|
  {
    if answers == [] then card
    else AnswerTypedAll(LearningAnswer(card, answers[0].correct, answers[0].at, tf), answers[1..], tf)
  }

  /** Ease never drops below 1 through typed answers. */
  lemma {:induction false} TypedAnswersKeepEaseFloor(card: Card, answers: seq<Answer>, tf: TimeFormat)
    requires card.ease >= 1
    ensures AnswerTypedAll(card, answers, tf).ease >= 1
    decreases |answers|
  {
    if answers != [] {
      TypedAnswersKeepEaseFloor(LearningAnswer(card, answers[0].correct, answers[0].at, tf), answers[1..], tf);
    }
  }

  /** Typed answers keep the ease of a card that starts at 1 or 2 (every
      inserted card starts at 1) within {1, 2}: a correct answer doubles
      only ease 1, keeps ease 2, and a wrong answer resets to 1. So no
      card reaches `updateReviewCard`'s overflow range through the handler. */
  lemma {:induction false} TypedAnswersKeepEaseOneOrTwo(card: Card, answers: seq<Answer>, tf: TimeFormat)
    requires card.ease == 1 || card.ease == 2
    ensures AnswerTypedAll(card, answers, tf).ease == 1 || AnswerTypedAll(card, answers, tf).ease == 2
    decreases |answers|
  {
    if answers != [] {
      TypedAnswersKeepEaseOneOrTwo(LearningAnswer(card, answers[0].correct, answers[0].at, tf), answers[1..], tf);
    }
  }

  /** Typed answers never move a card back out of review, never touch its
      identity or lapses, and count every answer exactly once. */
  lemma {:induction false} TypedAnswersNeverDemote(card: Card, answers: seq<Answer>, tf: TimeFormat)
    ensures var last := AnswerTypedAll(card, answers, tf);
      && SameIdentity(last, card) && last.lapses == card.lapses
      && last.correct + last.incorrect == card.correct + card.incorrect + |answers|
      && (card.stage == ReviewStage ==> last.stage == ReviewStage)
      && (card.stage in {LearningStage, ReviewStage} ==> last.stage in {LearningStage, ReviewStage})
    decreases |answers|
  {
    if answers != [] {
      TypedAnswersNeverDemote(LearningAnswer(card, answers[0].correct, answers[0].at, tf), answers[1..], tf);
    }
  }

  /** A fresh card needs two correct answers to graduate: the first doubles
      ease to 2 and keeps it learning, due a minute later; the second moves
      it to review, due a day later. */
  lemma FreshCardGraduation(cardId: int, deckId: int, question: string, answer: string,
                            created: string, inserted: int, t1: int, t2: int, tf: TimeFormat)
    requires tf.Lawful()
    ensures var card := NewCard(cardId, deckId, question, answer, created, tf.marshalText(inserted));
      var first := LearningAnswer(card, true, t1, tf);
      var second := LearningAnswer(first, true, t2, tf);
      && first.ease == 2 && first.stage == LearningStage
      && tf.parse(first.reviewDueDate) == Some(t1 + Minute)
      && second.ease == 2 && second.stage == ReviewStage && second.correct == 2
      && tf.parse(second.reviewDueDate) == Some(t2 + Day)
  {
  }

  // ---------------------------------------------------------------------
  // The review transition as its comment and the rest of the program intend:
  // a lapse is counted when ease was not 1 and ease resets to 1; all dates
  // are written with `MarshalText`; the interval is computed without 64-bit
  // wrap-around.

  function IntendedNextReviewDueDate(ease: int, now: int, tf: TimeFormat): (due: string)
    ensures tf.Lawful() ==> tf.parse(due) == Some(now + ease * Day)
    ensures tf.Lawful() && ease >= 1 ==> tf.parse(due).value > now
  {
    tf.marshalText(now + ease * Day)
  }

  function IntendedReviewAnswer(card: Card, correctAnswer: bool, now: int, tf: TimeFormat): (next: Card)
    ensures SameIdentity(next, card) && next.stage == card.stage
    ensures next.correct == card.correct + (if correctAnswer then 1 else 0)
    ensures next.incorrect == card.incorrect + (if correctAnswer then 0 else 1)
    ensures correctAnswer ==> next.lapses == card.lapses && next.ease == 2 * card.ease
    ensures !correctAnswer ==>
      next.ease == 1 && next.lapses == card.lapses + (if card.ease != 1 then 1 else 0)
    ensures tf.Lawful() ==> tf.parse(next.lastReviewDate) == Some(now)
    ensures tf.Lawful() ==>
      tf.parse(next.reviewDueDate) == Some(if correctAnswer then now + next.ease * Day else now)
  {
    var nowText := tf.marshalText(now);
    if correctAnswer then
      card.(correct := card.correct + 1, ease := NextEaseLevel(card.ease, 2),
            reviewDueDate := IntendedNextReviewDueDate(NextEaseLevel(card.ease, 2), now, tf),
            lastReviewDate := nowText)
    else if card.ease != 1 then
      card.(incorrect := card.incorrect + 1, lapses := card.lapses + 1, ease := 1,
            reviewDueDate := nowText, lastReviewDate := nowText)
    else
      card.(incorrect := card.incorrect + 1, ease := 1,
            reviewDueDate := nowText, lastReviewDate := nowText)
  }

  // ---------------------------------------------------------------------
  // Findings: each as-written lemma exhibits an input, each intended lemma
  // proves the property the code evidently aims at.

  /** As written, a review card at ease 1 with no lapses drops to ease 0 on
      a wrong answer, and a card at ease 4 with 5 lapses goes to ease 6 with
      1 lapse. */
  lemma ReviewLapseBindsPositionally(card: Card, now: int, tf: TimeFormat)
    ensures card.ease == 1 && card.lapses == 0 ==> ReviewAnswer(card, false, now, tf).ease == 0
    ensures card.ease == 4 && card.lapses == 5 ==>
      ReviewAnswer(card, false, now, tf).ease == 6 && ReviewAnswer(card, false, now, tf).lapses == 1
  {
  }

  /** Intended: a review answer keeps ease at least 1, never loses lapses, and
      a wrong answer at ease 4 resets ease to 1 and records one more lapse. */
  lemma IntendedReviewKeepsEaseFloor(card: Card, correctAnswer: bool, now: int, tf: TimeFormat)
    requires card.ease >= 1
    ensures var next := IntendedReviewAnswer(card, correctAnswer, now, tf);
      next.ease >= 1 && next.lapses >= card.lapses &&
      (card.ease == 4 && !correctAnswer ==> next.ease == 1 && next.lapses == card.lapses + 1)
  {
  }

  /** As written, a review card with ease 65536 answered correctly gets ease
      131072, whose interval overflows `time.Duration`: the new due date lies
      before `now`. */
  lemma LargeEaseDueDateInPast(card: Card, now: int, tf: TimeFormat)
    requires tf.Lawful() && card.ease == 65536
    ensures var next := ReviewAnswer(card, true, now, tf);
      next.ease == 131072 && tf.parse(next.reviewDueDate).Some? && tf.parse(next.reviewDueDate).value < now
  {
    var next := ReviewAnswer(card, true, now, tf);
    assert 131072 * 24 * Hour == 11_324_620_800_000_000_000;
    assert WrapInt64(11_324_620_800_000_000_000) == 11_324_620_800_000_000_000 - Int64Modulus;
    assert next.reviewDueDate == tf.marshalText(now + (11_324_620_800_000_000_000 - Int64Modulus));
  }

  /** Intended: a correct review answer on a card with positive ease is due
      strictly after `now`, whatever the ease. */
  lemma IntendedReviewDueDateIsFuture(card: Card, now: int, tf: TimeFormat)
    requires tf.Lawful() && card.ease >= 1
    ensures var next := IntendedReviewAnswer(card, true, now, tf);
      tf.parse(next.reviewDueDate).Some? && tf.parse(next.reviewDueDate).value > now
  {
    var next := IntendedReviewAnswer(card, true, now, tf);
    assert next.ease >= 2;
    assert next.ease * Day > 0;
  }
}
