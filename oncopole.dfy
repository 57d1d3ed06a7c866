/**
 * app/enigme-2/oncopole/page.tsx: the Oncopole team's lock. Three quiz answers, each stored
 * upper-cased under its question key as it is typed, and a code field; the lock opens when the
 * three answers are exactly the expected words and the code is exactly "1031", the same code
 * as the laboratory team's.
 */
module Oncopole {
  import opened Text
  import Labo

  const CorrectAnswers: map<string, string> := map["q1" := "SEIN", "q2" := "OCTOBRE", "q3" := "ROSE"]
  const CorrectCode: string := "1031"
  const WrongMessage: string := "Les réponses ou le code sont incorrects. Réessayez."
  const InitialAnswers: map<string, string> := map["q1" := "", "q2" := "", "q3" := ""]

  /** handleSubmit's test: each of the three answers equals its expected word (not trimmed) and the code is exact */
  predicate Unlocks(answers: map<string, string>, code: string) {
    && "q1" in answers && answers["q1"] == "SEIN"
    && "q2" in answers && answers["q2"] == "OCTOBRE"
    && "q3" in answers && answers["q3"] == "ROSE"
    && code == CorrectCode
  }

  /** The lock opens on the expected answers and code, and answers are compared untrimmed */
  lemma UnlocksOnExpected(answers: map<string, string>, code: string)
    requires forall q :: q in CorrectAnswers ==> q in answers && answers[q] == CorrectAnswers[q]
    ensures Unlocks(answers, code) <==> code == CorrectCode
    ensures !Unlocks(answers["q1" := "SEIN "], code)
  {
    assert "q1" in CorrectAnswers && "q2" in CorrectAnswers && "q3" in CorrectAnswers;
  }

  /** Both teams open their locks with the same code */
  lemma SameLockCode()
    ensures CorrectCode == Labo.CorrectCode
  {
  }

  /** The Oncopole page's state */
  class OncopolePage {
    var answers: map<string, string>
    var code: string
    var showHint: bool
    var unlocked: bool
    var error: string

    ghost predicate Valid()
      reads this
    {
      answers.Keys == CorrectAnswers.Keys
    }

    constructor ()
      ensures Valid() && answers == InitialAnswers && code == "" && !showHint && !unlocked && error == ""
    {
      answers, code, showHint, unlocked, error := InitialAnswers, "", false, false, "";
    }

    /** handleAnswerChange: the answer under the question key becomes the upper-cased input */
    method SetAnswer(question: string, value: string)
      requires Valid() && question in CorrectAnswers
      modifies this
      ensures Valid()
      ensures answers == old(answers)[question := Upper(value)]
      ensures forall q :: q in answers && q != question ==> answers[q] == old(answers)[q]
      ensures code == old(code) && showHint == old(showHint) && unlocked == old(unlocked) && error == old(error)
    {
      answers := answers[question := Upper(value)];
    }

    method SetCode(value: string)
      requires Valid()
      modifies this
      ensures Valid() && code == value
      ensures answers == old(answers) && showHint == old(showHint) && unlocked == old(unlocked) && error == old(error)
    {
      code := value;
    }

    method ToggleHint()
      requires Valid()
      modifies this
      ensures Valid() && showHint == !old(showHint)
      ensures answers == old(answers) && code == old(code) && unlocked == old(unlocked) && error == old(error)
    {
      showHint := !showHint;
    }

    /** handleSubmit: unlock, or set the error; an open lock stays open */
    method HandleSubmit()
      requires Valid()
      modifies this
      ensures Valid()
      ensures unlocked == (old(unlocked) || Unlocks(old(answers), old(code)))
      ensures old(unlocked) ==> unlocked
      ensures error == if Unlocks(old(answers), old(code)) then old(error) else WrongMessage
      ensures answers == old(answers) && code == old(code) && showHint == old(showHint)
    {
      assert "q1" in CorrectAnswers && "q2" in CorrectAnswers && "q3" in CorrectAnswers;
      var allCorrect := answers["q1"] == "SEIN" && answers["q2"] == "OCTOBRE" && answers["q3"] == "ROSE";
      if allCorrect && code == CorrectCode {
        unlocked := true;
      } else {
        error := WrongMessage;
      }
    }
  }
}
