/** The typed-answer check: an answer is right when it equals the stored
    answer after both are lower-cased. Lower-casing is ASCII-only here. */
module AnswerCheck {

  function LowerChar(c: char): char {
    if 'A' <= c <= 'Z' then (c as int + 32) as char else c
  }

  function ToLower(s: string): string {
    seq(|s|, i requires 0 <= i < |s| => LowerChar(s[i]))
  }

  /** Reference relation: two characters are the same letter in either case,
      or simply equal. */
  predicate SameUpToCase(c: char, d: char) {
    || c == d
    || ('A' <= c <= 'Z' && d as int == c as int + 32)
    || ('a' <= c <= 'z' && d as int == c as int - 32)
  }

  /** `IsAnswerCorrectInLowerCase`: equal after lower-casing exactly when the
      two answers have the same length and agree character by character up
      to letter case. */
  function IsAnswerCorrectInLowerCase(userAnswer: string, databaseAnswer: string): (r: bool)
    ensures r <==> |userAnswer| == |databaseAnswer| &&
                   forall i :: 0 <= i < |userAnswer| ==> SameUpToCase(userAnswer[i], databaseAnswer[i])
    ensures userAnswer == databaseAnswer ==> r
  {
    LowerEqualIffSameUpToCase(userAnswer, databaseAnswer);
    ToLower(userAnswer) == ToLower(databaseAnswer)
  }

  lemma LowerCharAgrees(c: char, d: char)
    ensures LowerChar(c) == LowerChar(d) <==> SameUpToCase(c, d)
  {
  }

  lemma LowerEqualIffSameUpToCase(a: string, b: string)
    ensures ToLower(a) == ToLower(b) <==>
      |a| == |b| && forall i :: 0 <= i < |a| ==> SameUpToCase(a[i], b[i])
  {
    if |a| == |b| && forall i :: 0 <= i < |a| ==> SameUpToCase(a[i], b[i]) {
      forall i | 0 <= i < |a| ensures ToLower(a)[i] == ToLower(b)[i] {
        LowerCharAgrees(a[i], b[i]);
      }
    }
    if ToLower(a) == ToLower(b) {
      forall i | 0 <= i < |a| ensures SameUpToCase(a[i], b[i]) {
        assert ToLower(a)[i] == ToLower(b)[i];
        LowerCharAgrees(a[i], b[i]);
      }
    }
  }

  /** The check does not depend on which side is the user's. */
  lemma AnswerCheckSymmetric(a: string, b: string)
    ensures IsAnswerCorrectInLowerCase(a, b) == IsAnswerCorrectInLowerCase(b, a)
  {
  }

  /** Changing the case of any letters of the stored answer keeps the typed
      answer correct. */
  lemma CaseVariantIsCorrect(answer: string, typed: string)
    requires |typed| == |answer|
    requires forall i :: 0 <= i < |answer| ==>
      typed[i] == answer[i] || typed[i] == LowerChar(answer[i]) ||
      ('a' <= answer[i] <= 'z' && typed[i] as int == answer[i] as int - 32)
    ensures IsAnswerCorrectInLowerCase(typed, answer)
  {
  }
}
