/** The derived statistics and the final score (`getStats` and the score
    formula of `updateFromPlayer`). */
module Scoring {

  const CORRECT_POINTS: int := 10
  const WRONG_PENALTY: int := 5
  const COMBO_POINTS: int := 2

  function Max(a: int, b: int): int {
    if a >= b then a else b
  }

  /** The unclamped score: ten points per correct key, minus five per wrong
      key, plus two per unit of the longest combo. */
  function RawScore(correct: nat, wrong: nat, maxCombo: nat): int {
    CORRECT_POINTS * correct - WRONG_PENALTY * wrong + COMBO_POINTS * maxCombo
  }

  /** The final score, clamped at zero. `updateFromPlayer` rounds the value first;
      it is an integer already, so rounding changes nothing. */
  function Score(correct: nat, wrong: nat, maxCombo: nat): (score: nat)
    ensures score >= RawScore(correct, wrong, maxCombo)
    ensures score == 0 || score == RawScore(correct, wrong, maxCombo)
    ensures RawScore(correct, wrong, maxCombo) >= 0 ==> score == RawScore(correct, wrong, maxCombo)
  {
    Max(0, RawScore(correct, wrong, maxCombo))
  }

  /** More correct keys or a longer combo never lower the score; more wrong
      keys never raise it. */
  lemma ScoreMonotone(c: nat, w: nat, m: nat, c': nat, w': nat, m': nat)
    requires c <= c' && w' <= w && m <= m'
    ensures Score(c, w, m) <= Score(c', w', m')
  {
    assert RawScore(c, w, m) <= RawScore(c', w', m');
  }

  /** The accuracy in percent: 0 when no key has been scored. */
  function Accuracy(correct: nat, wrong: nat): (acc: real)
    ensures 0.0 <= acc <= 100.0
    ensures correct + wrong == 0 ==> acc == 0.0
    ensures correct == 0 ==> acc == 0.0
    ensures wrong == 0 && correct > 0 ==> acc == 100.0
  {
    if correct + wrong > 0 then
      RatioBounded(correct, wrong);
      (correct as real / (correct + wrong) as real) * 100.0
    else 0.0
  }

  lemma RatioBounded(correct: nat, wrong: nat)
    requires correct + wrong > 0
    ensures 0.0 <= correct as real / (correct + wrong) as real <= 1.0
    ensures wrong == 0 ==> correct as real / (correct + wrong) as real == 1.0
  {
    var d := (correct + wrong) as real;
    var q := correct as real / d;
    assert q * d == correct as real;
    assert (correct as real) <= d;
  }

  /** The accuracy is all correct keys exactly when there is no wrong key. */
  lemma AccuracyFull(correct: nat, wrong: nat)
    requires correct + wrong > 0
    ensures Accuracy(correct, wrong) == 100.0 <==> wrong == 0
  {
    if wrong > 0 {
      var d := (correct + wrong) as real;
      var q := correct as real / d;
      assert q * d == correct as real;
      assert q < 1.0;
    }
  }

  lemma ScoreExamples()
    ensures Score(1, 0, 1) == 12
    ensures Score(0, 3, 0) == 0
    ensures Score(10, 2, 4) == 98
  {
  }
}
