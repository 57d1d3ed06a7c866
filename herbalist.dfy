/**
 * app/enigme-4/page.tsx: the herbalist puzzle. The plant's Latin name is accepted after
 * trimming and upper-casing; three buttons each show or hide one panel.
 */
module Herbalist {
  import opened Wrappers
  import opened Text

  const CorrectAnswer: string := "TAXUS BACCATA"
  const FinaleRoute: string := "/finale"
  const WrongMessage: string := "Ce n'est pas le bon nom. Analysez bien le dessin et le message caché."

  predicate AcceptsPlant(plantName: string) {
    Normalize(plantName) == CorrectAnswer
  }

  /** Any letter case, with any whitespace around it, is accepted */
  lemma AcceptsPaddedAnyCase(w1: string, t: string, w2: string)
    requires AllWhitespace(w1) && AllWhitespace(w2) && Upper(t) == CorrectAnswer
    ensures AcceptsPlant(w1 + t + w2)
  {
    NormalizePadded(w1, t, w2);
  }

  /** Whitespace inside the name is kept as typed, so a doubled space between the words is refused */
  lemma RejectsDoubleSpace(w1: string, w2: string)
    requires AllWhitespace(w1) && AllWhitespace(w2)
    ensures !AcceptsPlant(w1 + "TAXUS  BACCATA" + w2)
  {
    var t := "TAXUS  BACCATA";
    assert !IsWhitespace(t[0]) && !IsWhitespace(t[|t| - 1]);
    TrimPadded(w1, t, w2);
    assert |Normalize(w1 + t + w2)| == 14;
  }

  /** The page's state: the name field, the three panels and the error banner */
  class Enigme4Page {
    var plantName: string
    var showHiddenMessage: bool
    var showBotanicalDetails: bool
    var showHint: bool
    var error: string

    constructor ()
      ensures plantName == "" && !showHiddenMessage && !showBotanicalDetails && !showHint && error == ""
    {
      plantName, showHiddenMessage, showBotanicalDetails, showHint, error := "", false, false, false, "";
    }

    method SetPlantName(value: string)
      modifies this
      ensures plantName == value
      ensures showHiddenMessage == old(showHiddenMessage) && showBotanicalDetails == old(showBotanicalDetails)
      ensures showHint == old(showHint) && error == old(error)
    {
      plantName := value;
    }

    /** The botanical-details button */
    method ToggleBotanicalDetails()
      modifies this
      ensures showBotanicalDetails == !old(showBotanicalDetails)
      ensures plantName == old(plantName) && showHiddenMessage == old(showHiddenMessage)
      ensures showHint == old(showHint) && error == old(error)
    {
      showBotanicalDetails := !showBotanicalDetails;
    }

    /** The hidden-message button */
    method ToggleHiddenMessage()
      modifies this
      ensures showHiddenMessage == !old(showHiddenMessage)
      ensures plantName == old(plantName) && showBotanicalDetails == old(showBotanicalDetails)
      ensures showHint == old(showHint) && error == old(error)
    {
      showHiddenMessage := !showHiddenMessage;
    }

    /** The hint button */
    method ToggleHint()
      modifies this
      ensures showHint == !old(showHint)
      ensures plantName == old(plantName) && showHiddenMessage == old(showHiddenMessage)
      ensures showBotanicalDetails == old(showBotanicalDetails) && error == old(error)
    {
      showHint := !showHint;
    }

    /** handleSubmit: navigate to the finale, or set the error and stay */
    method HandleSubmit() returns (nav: Option<string>)
      modifies this
      ensures nav == if AcceptsPlant(old(plantName)) then Some(FinaleRoute) else None
      ensures error == if AcceptsPlant(old(plantName)) then old(error) else WrongMessage
      ensures plantName == old(plantName) && showHiddenMessage == old(showHiddenMessage)
      ensures showBotanicalDetails == old(showBotanicalDetails) && showHint == old(showHint)
    {
      var normalizedAnswer := Upper(Trim(plantName));
      if normalizedAnswer == CorrectAnswer {
        nav := Some(FinaleRoute);
      } else {
        error := WrongMessage;
        nav := None;
      }
    }
  }
}
