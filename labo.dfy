/**
 * app/enigme-2/labo/page.tsx: the laboratory team's lock. Four sequence fields, each stored
 * upper-cased as it is typed, and a code field; the lock opens when every field holds the
 * expected DNA sequence at its position and the code is exactly "1031".
 */
module Labo {
  import opened Text

  const CorrectSequence: seq<string> := ["ATCG", "CGTA", "TACG", "GCTA"]
  const CorrectCode: string := "1031"
  const WrongMessage: string := "La séquence ou le code est incorrect. Vérifiez vos données."

  /** `sequence.every((seq, idx) => seq === correctSequence[idx])`, where an index past the expected list matches nothing */
  function EveryMatches(sequence: seq<string>): bool {
    if sequence == [] then true
    else EveryMatches(sequence[..|sequence| - 1])
         && |sequence| <= |CorrectSequence| && sequence[|sequence| - 1] == CorrectSequence[|sequence| - 1]
  }

  lemma {:induction false} EveryMatchesIsPrefix(sequence: seq<string>)
    ensures EveryMatches(sequence) <==> |sequence| <= |CorrectSequence| && sequence == CorrectSequence[..|sequence|]
  {
    if sequence != [] {
      EveryMatchesIsPrefix(sequence[..|sequence| - 1]);
      if |sequence| <= |CorrectSequence| && sequence == CorrectSequence[..|sequence|] {
        assert sequence[..|sequence| - 1] == CorrectSequence[..|sequence| - 1];
      }
    }
  }

  /** handleSubmit's test: the sequence matches position by position and the code is exact (not trimmed) */
  predicate Unlocks(sequence: seq<string>, code: string) {
    EveryMatches(sequence) && code == CorrectCode
  }

  /** With its four fields, the lock opens exactly on the expected sequence and code */
  lemma UnlocksIff(sequence: seq<string>, code: string)
    requires |sequence| == |CorrectSequence|
    ensures Unlocks(sequence, code) <==> sequence == CorrectSequence && code == CorrectCode
  {
    EveryMatchesIsPrefix(sequence);
  }

  /** The laboratory page's state */
  class LaboPage {
    var sequence: seq<string>
    var code: string
    var showHint: bool
    var unlocked: bool
    var error: string

    ghost predicate Valid()
      reads this
    {
      |sequence| == |CorrectSequence|
    }

    constructor ()
      ensures Valid() && sequence == ["", "", "", ""] && code == "" && !showHint && !unlocked && error == ""
    {
      sequence, code, showHint, unlocked, error := ["", "", "", ""], "", false, false, "";
    }

    /** handleSequenceChange: a copy of the sequence with one field replaced by the upper-cased input */
    method SetEntry(index: nat, value: string)
      requires Valid() && index < |sequence|
      modifies this
      ensures Valid()
      ensures sequence == old(sequence)[index := Upper(value)]
      ensures code == old(code) && showHint == old(showHint) && unlocked == old(unlocked) && error == old(error)
    {
      var next := sequence;
      next := next[index := Upper(value)];
      sequence := next;
    }

    method SetCode(value: string)
      requires Valid()
      modifies this
      ensures Valid() && code == value
      ensures sequence == old(sequence) && showHint == old(showHint) && unlocked == old(unlocked) && error == old(error)
    {
      code := value;
    }

    method ToggleHint()
      requires Valid()
      modifies this
      ensures Valid() && showHint == !old(showHint)
      ensures sequence == old(sequence) && code == old(code) && unlocked == old(unlocked) && error == old(error)
    {
      showHint := !showHint;
    }

    /** handleSubmit: unlock, or set the error; an open lock stays open */
    method HandleSubmit()
      requires Valid()
      modifies this
      ensures Valid()
      ensures unlocked == (old(unlocked) || Unlocks(old(sequence), old(code)))
      ensures old(unlocked) ==> unlocked
      ensures error == if Unlocks(old(sequence), old(code)) then old(error) else WrongMessage
      ensures sequence == old(sequence) && code == old(code) && showHint == old(showHint)
    {
      var isSequenceCorrect := EveryMatches(sequence);
      if isSequenceCorrect && code == CorrectCode {
        unlocked := true;
      } else {
        error := WrongMessage;
      }
    }
  }
}
