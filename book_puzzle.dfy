/**
 * Enigma 1, "Le Livre et le Code" (app/enigme-1/page.tsx): a Caesar-shift decoder tool and
 * an answer form that accepts the decoded book title.
 */
module BookPuzzle {
  import opened Wrappers
  import opened Text
  import opened Caesar

  const CorrectAnswer: string := "LES PLANTES DE LA VILLE ROSE"
  const EncodedMessage: string := "MFT QMBOUFT EF MB WJMMF SPTF"
  const WrongTitle: string := "Ce n'est pas le bon titre. Réessayez !"
  const BookRoute: string := "/enigme-1/livre"

  /** An encoding is checked character by character */
  lemma EncodesPointwise(s: string, e: string)
    requires |s| == |e| && forall i :: 0 <= i < |s| ==> e[i] == EncodeChar(s[i], 1)
    ensures CaesarEncode(s, 1) == e
  {
  }

  // The title encoded word by word; small literal steps keep the solver fast
  lemma EncodesWord1() ensures CaesarEncode("LES", 1) == "MFT" { EncodesPointwise("LES", "MFT"); }
  lemma EncodesWord2() ensures CaesarEncode(" PLANTES", 1) == " QMBOUFT" { EncodesPointwise(" PLANTES", " QMBOUFT"); }
  lemma EncodesWord3() ensures CaesarEncode(" DE", 1) == " EF" { EncodesPointwise(" DE", " EF"); }
  lemma EncodesWord4() ensures CaesarEncode(" LA", 1) == " MB" { EncodesPointwise(" LA", " MB"); }
  lemma EncodesWord5() ensures CaesarEncode(" VILLE", 1) == " WJMMF" { EncodesPointwise(" VILLE", " WJMMF"); }
  lemma EncodesWord6() ensures CaesarEncode(" ROSE", 1) == " SPTF" { EncodesPointwise(" ROSE", " SPTF"); }

  lemma TitleWords()
    ensures CorrectAnswer == "LES" + " PLANTES" + " DE" + " LA" + " VILLE" + " ROSE"
  {
  }

  lemma MessageWords()
    ensures EncodedMessage == "MFT" + " QMBOUFT" + " EF" + " MB" + " WJMMF" + " SPTF"
  {
  }

  /** Encoding six pieces piece by piece gives the encoding of their concatenation */
  lemma EncodeSixPieces(a1: string, a2: string, a3: string, a4: string, a5: string, a6: string,
                        e1: string, e2: string, e3: string, e4: string, e5: string, e6: string)
    requires CaesarEncode(a1, 1) == e1 && CaesarEncode(a2, 1) == e2 && CaesarEncode(a3, 1) == e3
    requires CaesarEncode(a4, 1) == e4 && CaesarEncode(a5, 1) == e5 && CaesarEncode(a6, 1) == e6
    ensures CaesarEncode(a1 + a2 + a3 + a4 + a5 + a6, 1) == e1 + e2 + e3 + e4 + e5 + e6
  {
    EncodeAppend(a1, a2, 1);
    EncodeAppend(a1 + a2, a3, 1);
    EncodeAppend(a1 + a2 + a3, a4, 1);
    EncodeAppend(a1 + a2 + a3 + a4, a5, 1);
    EncodeAppend(a1 + a2 + a3 + a4 + a5, a6, 1);
  }

  /** The message shown on the page is the title encoded with shift 1 */
  lemma TitleEncodesToMessage()
    ensures CaesarEncode(CorrectAnswer, 1) == EncodedMessage
  {
    EncodesWord1(); EncodesWord2(); EncodesWord3(); EncodesWord4(); EncodesWord5(); EncodesWord6();
    EncodeSixPieces("LES", " PLANTES", " DE", " LA", " VILLE", " ROSE",
                    "MFT", " QMBOUFT", " EF", " MB", " WJMMF", " SPTF");
    TitleWords();
    MessageWords();
  }

  /** Known answer: the decoder tool turns the page's message into the book title */
  lemma DecodesToTitle()
    ensures CaesarDecode(EncodedMessage, 1) == CorrectAnswer
  {
    TitleEncodesToMessage();
    DecodeEncode(CorrectAnswer, 1);
  }

  /** The decoder tool upper-cases its input first, so its output holds no lower-case letter */
  lemma DecoderOutputHasNoLowercase(input: string)
    ensures HasNoLowercase(CaesarDecode(Upper(input), 1))
  {
    var u := Upper(input);
    var d := CaesarDecode(u, 1);
    forall i | 0 <= i < |d| ensures !IsLowerAscii(d[i]) {
      assert !IsLowerLetter(u[i]);
    }
  }

  /** The answer form's acceptance rule: the trimmed, upper-cased answer is the title */
  predicate AcceptsTitle(answer: string) {
    Normalize(answer) == CorrectAnswer
  }

  lemma NoLowercaseAppend(a: string, b: string)
    requires HasNoLowercase(a) && HasNoLowercase(b)
    ensures HasNoLowercase(a + b)
  {
    forall i | 0 <= i < |a + b| ensures !IsLowerAscii((a + b)[i]) {
      if i >= |a| {
        assert (a + b)[i] == b[i - |a|];
      }
    }
  }

  /** The title is already trimmed and upper-case, so normalising leaves it as it is */
  lemma TitleIsNormal()
    ensures Normalize(CorrectAnswer) == CorrectAnswer
  {
    TrimUnpadded(CorrectAnswer);
    TitleWords();
    NoLowercaseAppend("LES", " PLANTES");
    NoLowercaseAppend("LES" + " PLANTES", " DE");
    NoLowercaseAppend("LES" + " PLANTES" + " DE", " LA");
    NoLowercaseAppend("LES" + " PLANTES" + " DE" + " LA", " VILLE");
    NoLowercaseAppend("LES" + " PLANTES" + " DE" + " LA" + " VILLE", " ROSE");
    UpperKeepsUppercase(CorrectAnswer);
  }

  lemma AcceptsDecodedTitle(w1: string, t: string, w2: string)
    requires AllWhitespace(w1) && AllWhitespace(w2) && Upper(t) == CorrectAnswer
    ensures AcceptsTitle(CaesarDecode(EncodedMessage, 1))
    ensures AcceptsTitle(w1 + t + w2)
  {
    DecodesToTitle();
    TitleIsNormal();
    NormalizePadded(w1, t, w2);
  }

  /** The page's mutable state: the answer field, the error banner and the decoder tool */
  class Enigme1Page {
    var answer: string
    var error: string
    var decoderInput: string
    var decoderOutput: string

    constructor ()
      ensures answer == "" && error == "" && decoderInput == "" && decoderOutput == ""
    {
      answer, error, decoderInput, decoderOutput := "", "", "", "";
    }

    method SetAnswer(value: string)
      modifies this
      ensures answer == value
      ensures error == old(error) && decoderInput == old(decoderInput) && decoderOutput == old(decoderOutput)
    {
      answer := value;
    }

    method SetDecoderInput(value: string)
      modifies this
      ensures decoderInput == value
      ensures answer == old(answer) && error == old(error) && decoderOutput == old(decoderOutput)
    {
      decoderInput := value;
    }

    /** handleSubmit: navigate to the book page when accepted, otherwise only set the error */
    method HandleSubmit() returns (nav: Option<string>)
      modifies this
      ensures nav == (if AcceptsTitle(old(answer)) then Some(BookRoute) else None)
      ensures error == (if AcceptsTitle(old(answer)) then old(error) else WrongTitle)
      ensures answer == old(answer) && decoderInput == old(decoderInput) && decoderOutput == old(decoderOutput)
    {
      var normalized := Upper(Trim(answer));
      if normalized == CorrectAnswer {
        nav := Some(BookRoute);
      } else {
        error := WrongTitle;
        nav := None;
      }
    }

    /** handleDecode: the output becomes the decoding of the upper-cased input */
    method HandleDecode()
      modifies this
      ensures decoderOutput == CaesarDecode(Upper(old(decoderInput)), 1)
      ensures HasNoLowercase(decoderOutput)
      ensures answer == old(answer) && error == old(error) && decoderInput == old(decoderInput)
    {
      decoderOutput := CaesarDecode(Upper(decoderInput), 1);
      DecoderOutputHasNoLowercase(decoderInput);
    }
  }
}
