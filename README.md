# Linguatron scheduling core, modelled in Dafny

Linguatron is a spaced-repetition flash-card server. Each card sits in a
`learning` or a `review` stage. It carries correct, incorrect and lapse counters, an
integer `ease`, and a review due date. This project models the part of
`main.go` that decides how cards evolve:

- **Scheduler** (`scheduler.dfy`). `updateLearningCard` and `updateReviewCard` are the pure
  transitions `LearningAnswer` and `ReviewAnswer` from (card, correct?, now)
  to the row written back. Their helpers are `getNextEaseLevel`
  (`NextEaseLevel`) and `createNextReviewDueDate` (`NextReviewDueDate`), with
  Go's 64-bit `time.Duration` arithmetic written out (`WrapInt64`).
- **Due selector** (`due_selector.dfy`). `getMostDueCard` is a method with
  the source's loop. It has three outcomes: the "no cards" error, the
  single-card shortcut (date never parsed), and a parse-failure error or the
  first card with the earliest due date.
- **Answer check** (`answer_check.dfy`). `IsAnswerCorrectInLowerCase` is
  equality after ASCII lower-casing. It is characterised as character-wise
  equality up to letter case.
- **Card table** (`card_store.dfy`). The class `CardTable` holds the
  `cards` rows in rowid order, with `insertCard`, `selectCardByCardID`,
  the three `select*CardsByDeckID` filters and the two updates. Each update
  reads the row and writes the transition of it back with
  `UPDATE ... WHERE card_id = ?`. Every other row is unchanged.

Instants are integers counting nanoseconds (UTC). Date columns stay strings.
The time library enters as a `TimeText.TimeFormat` value with three fields:
`MarshalText`, `Time.String`, and `time.Parse(time.RFC3339Nano, ·)`.
`Lawful()` states the two facts the model relies on:
- a marshalled instant parses back to itself;
- a `String()` text never parses, because RFC 3339 `date-time` (section 5.6
  of RFC 3339) needs a `T` where `String()` writes a space.

`updateLearningCard` calls `time.Now()` three times and `updateReviewCard`
twice. The model uses one `now` parameter for each update.

The model follows the code literally, including where it departs from the scheduling rules as usually stated:
- On a wrong review answer, the code writes due date = `now` (in `String()`
  layout), not now + 1 minute.
- The code binds the lapse and ease values positionally (see Findings), not
  as the comment at main.go:611 intends.
- A correct learning answer doubles ease whenever ease ≤ 1, not only when it
  equals 1.
- The typed-answer handler applies the learning transition to every card,
  review cards included (main.go:119-124). `updateReviewCard` is never called.
- There is no multiple-choice distractor sampler in `main.go`.

## Model

| member | source | states |
|---|---|---|
| `AnswerCheck.IsAnswerCorrectInLowerCase` | main.go:96-98 | true iff the answers have equal length and agree at every position up to ASCII letter case; true for identical answers |
| `AnswerCheck.AnswerCheckSymmetric` | main.go:96-98 | the check gives the same verdict with the two answers swapped |
| `AnswerCheck.CaseVariantIsCorrect` | main.go:96-98 | a typed answer that differs from the stored one only in the case of letters is accepted |
| `Scheduler.WrapInt64` | main.go:632 | the result is the int64 value congruent to the input modulo 2^64, and equals the input when that fits in 64 bits |
| `Scheduler.NextEaseLevel` | main.go:622-627 | factor 1 keeps ease; factor 2 gives exactly twice the ease; a positive ease never shrinks (utility_test.go:8-13: level 1 with factor 2 is 2) |
| `Scheduler.NextReviewDueDate` | main.go:629-639 | for every ease the due text parses to now plus the int64-wrapped interval of ease days; for 1 ≤ ease ≤ 106751 that is exactly now + ease days, strictly after now |
| `Scheduler.LearningAnswer` | main.go:555-595 | correct at ease > 1: correct+1, ease kept, stage review, due now+24h; correct at ease ≤ 1: ease doubled, stage kept, due now+1min; wrong: incorrect+1, ease 1, stage kept, due now+1min; last review = now; lapses and identity untouched; ease ≥ 1 is preserved |
| `Scheduler.ReviewAnswer` | main.go:597-620 | as written: correct gives correct+1, lapses kept, ease doubled, due now plus the int64-wrapped interval of ease' days (exactly ease' days when that fits); wrong gives incorrect+1, lapses 1, ease = old lapses (+1 when ease ≠ 1), due date = `String()` of now; last review is always `String()` of now; those `String()` texts never parse; stage and identity untouched |
| `Scheduler.TypedAnswersKeepEaseFloor` | main.go:119-124 | any sequence of typed answers keeps ease ≥ 1 if it started ≥ 1 |
| `Scheduler.TypedAnswersKeepEaseOneOrTwo` | main.go:582-591 | typed answers keep a card whose ease is 1 or 2 (as every inserted card's is) at ease 1 or 2 |
| `Scheduler.TypedAnswersNeverDemote` | main.go:582-592 | typed answers never move a review card back, keep stages within learning/review, leave identity and lapses alone, and add exactly one to correct+incorrect per answer |
| `Scheduler.FreshCardGraduation` | main.go:582-588 | a newly inserted card answered correctly twice goes ease 1→2 while learning (due +1min), then to review with ease 2 (due +24h) |
| `Scheduler.ReviewLapseBindsPositionally` | main.go:611-615 | as written, ease 1 with 0 lapses becomes ease 0; ease 4 with 5 lapses becomes ease 6 with 1 lapse |
| `Scheduler.IntendedReviewAnswer` | main.go:608-616 | corrected review rule: wrong answer counts a lapse when ease ≠ 1 and resets ease to 1; all dates parse; correct answer due ease' days ahead without wrap |
| `Scheduler.IntendedReviewKeepsEaseFloor` | main.go:611-616 | corrected rule keeps ease ≥ 1, never loses lapses, and maps ease 4 + wrong to ease 1 with one more lapse |
| `Scheduler.LargeEaseDueDateInPast` | main.go:629-632 | as written, a review card at ease 65536 answered correctly gets ease 131072 and a due date before now |
| `Scheduler.IntendedNextReviewDueDate` | main.go:629-633 | corrected due date parses to now + ease days for every ease, after now when ease ≥ 1 |
| `Scheduler.IntendedReviewDueDateIsFuture` | main.go:629-632 | with the corrected rule a correct review answer is always due strictly after now |
| `DueSelector.GetMostDueCard` | main.go:172-205 | no cards: zero card and NoCards; one card: that card, nil error, date not parsed; two or more with a bad date: zero card and the error of the first bad date; otherwise nil error and the first card whose due date is ≤ all others |
| `DueSelector.FirstMostDueIsUnique` | main.go:186-198 | at most one index is "first most due", so the strict comparison makes the choice deterministic |
| `DueSelector.EarlierOfTwoIsMostDue` | main.go:186-198 | of two cards with due dates T1 < T2 the first is the one selected |
| `DueSelector.ReviewedCardBlocksSelection` | main.go:609-616 | after a wrong review answer as written, any list holding that card, at any position, no longer has all due dates parseable, so selection over it and another card errors |
| `DueSelector.IntendedReviewKeepsSelectable` | main.go:180-191 | with the corrected review rule, a list of parseable cards stays parseable after the update |
| `CardStore.CardsWhere` | main.go:492-553 | a deck query returns only matching rows of the table, never more rows than the table has |
| `CardStore.CardsWhereComplete` | main.go:534-553 | every matching row of the table is returned |
| `CardStore.StageQueriesPartitionDeck` | main.go:492-553 | when all stages are learning or review, the learning and review queries of a deck together have as many rows as the full deck query |
| `CardStore.CardTable.constructor` | main.go:398-417 | a new table is empty and valid |
| `CardStore.CardTable.InsertCard` | main.go:469-476 | appends one row with the next rowid, the given columns, schema defaults (counters 0, ease 1, stage learning, last review "") and due date = the insertion instant |
| `CardStore.CardTable.SelectCardByCardID` | main.go:483-490 | finds a row iff some row has that id and returns it; otherwise NotFound and the zero card |
| `CardStore.CardTable.SelectCardsWhere` | main.go:534-553 | the loop returns exactly `CardsWhere` of the table |
| `CardStore.CardTable.SelectLearningCardsByDeckID` | main.go:492-511 | a table row is returned iff it is in the deck and in stage learning |
| `CardStore.CardTable.SelectReviewCardsByDeckID` | main.go:513-532 | a table row is returned iff it is in the deck and in stage review |
| `CardStore.CardTable.SelectAllCardsByDeckID` | main.go:534-553 | a table row is returned iff it is in the deck |
| `CardStore.CardTable.UpdateLearningCard` | main.go:555-595 | fails with nothing changed iff no row has the id; otherwise that row becomes its learning transition and every other row is unchanged; ids stay unique and stages known |
| `CardStore.CardTable.UpdateReviewCard` | main.go:597-620 | same as above, with the review transition as written |

## Left out

- HTTP handlers, routing, templates and the server (main.go:25-395). They are I/O. The handler's call order (check answer, update, select learning cards, pick most due) appears only through `AnswerTypedAll`, which folds the learning transition over a sequence of answers.
- The SQL layer's own failures (`Prepare`, `Exec`, `Query`, `Scan`, `rows.Err`) and the `decks` table, `insertDeck`, `deleteDeck` and `deleteCard`. Only the lookup's "no rows" error is modelled. Cascading delete is not modelled because the foreign-key pragma is never enabled.
- The concrete timestamp layouts and the parser. They are library calls, abstracted as `TimeFormat` with the two laws above. `MarshalText` fails for years outside 0–9999; that is not modelled, since `time.Now()` never yields such an instant.
- Unicode case mapping in `strings.ToLower`. The model lowers ASCII letters only.
- `getNextEaseLevel`'s float64 arithmetic. It is modelled as exact integer multiplication. The two differ only beyond 2^53, where float rounding and the conversion back to int would also matter.
- 64-bit overflow of the counters and of ease. These are unbounded integers here. Only the interval overflow in `createNextReviewDueDate` is modelled. It is reachable only on `updateReviewCard`'s own input domain, from an ease of 53376 or more read from the table. No caller in `main.go` reaches it: `updateReviewCard` is never called, and typed answers keep an inserted card's ease at 1 or 2 (`TypedAnswersKeepEaseOneOrTwo`).
- SQLite's choice of a random rowid once the largest rowid is 2^63-1. New ids are always the largest id plus one.
- Concurrent answers racing on one card, and the multiple-choice distractor sampler (not present in `main.go`).
- The row order of the deck queries. They have no `ORDER BY`, so SQLite may return rows in any order. The model assumes rowid order, the order of a full table scan. That order decides which of several equally due cards `getMostDueCard` picks.
- Store updates and findings: the card table applies the review transition as the code writes it. The corrected rule `IntendedReviewAnswer` stands beside it with its properties proved, and no caller in `main.go` uses either.

## Findings

| source | as written | input that shows it | evidently intended | confidence | as-written member | corrected member |
|---|---|---|---|---|---|---|
| main.go:611-616 | the values `1` and `Lapses(+1)` are bound positionally to the columns `lapses, ease`, so lapses becomes 1 and ease becomes the lapse count | a review card with ease 1 and 0 lapses answered wrongly gets ease 0 | count a lapse when ease ≠ 1 and reset ease to 1, as the comment on line 611 says | not executed; high | `Scheduler.ReviewLapseBindsPositionally` | `Scheduler.IntendedReviewKeepsEaseFloor` |
| main.go:609-615 | the review update writes dates with `Time.String()`, which `time.Parse(RFC3339Nano)` rejects | any review card answered wrongly; `getMostDueCard` over it and any other card then returns a parse error | write dates with `MarshalText`, as every other writer does | not executed; high | `DueSelector.ReviewedCardBlocksSelection` | `DueSelector.IntendedReviewKeepsSelectable` |
| main.go:629-632 | `time.Duration(ease) * 24 * time.Hour` wraps around in 64 bits once ease ≥ 106752 | a review card at ease 65536 answered correctly gets ease 131072 and a due date about 225 years before now; such an ease must already be in the table, since no caller in `main.go` produces one | schedule the card ease days after now | not executed; medium (latent: `updateReviewCard` has no caller) | `Scheduler.LargeEaseDueDateInPast` | `Scheduler.IntendedReviewDueDateIsFuture` |
