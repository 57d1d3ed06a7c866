/**
 * The Caesar shift used by enigma 1 (caesarDecode in app/enigme-1/page.tsx), with the matching
 * encoder that produced the page's message.
 */
module Caesar {

  predicate IsUpperLetter(c: char) { 'A' <= c <= 'Z' }
  predicate IsLowerLetter(c: char) { 'a' <= c <= 'z' }

  /** Shifts one character back by `shift` places within its own alphabet; other characters stay */
  function DecodeChar(c: char, shift: int): (r: char)
    requires 0 <= shift <= 26
    ensures IsUpperLetter(r) <==> IsUpperLetter(c)
    ensures IsLowerLetter(r) <==> IsLowerLetter(c)
    ensures !IsUpperLetter(c) && !IsLowerLetter(c) ==> r == c
  {
    if IsUpperLetter(c) then ((c as int - 65 - shift + 26) % 26 + 65) as char
    else if IsLowerLetter(c) then ((c as int - 97 - shift + 26) % 26 + 97) as char
    else c
  }

  /** caesarDecode: the character-wise map of DecodeChar (split, map, join) */
  function CaesarDecode(text: string, shift: int): (r: string)
    requires 0 <= shift <= 26
    ensures |r| == |text|
    ensures forall i :: 0 <= i < |text| ==> r[i] == DecodeChar(text[i], shift)
  {
    if text == [] then [] else [DecodeChar(text[0], shift)] + CaesarDecode(text[1..], shift)
  }

  /** The encoding the puzzle's message was made with: each letter moved forward by `shift` */
  function EncodeChar(c: char, shift: int): char
    requires 0 <= shift <= 26
  {
    if IsUpperLetter(c) then ((c as int - 65 + shift) % 26 + 65) as char
    else if IsLowerLetter(c) then ((c as int - 97 + shift) % 26 + 97) as char
    else c
  }

  function CaesarEncode(text: string, shift: int): (r: string)
    requires 0 <= shift <= 26
    ensures |r| == |text|
    ensures forall i :: 0 <= i < |text| ==> r[i] == EncodeChar(text[i], shift)
  {
    if text == [] then [] else [EncodeChar(text[0], shift)] + CaesarEncode(text[1..], shift)
  }

  /**
   * An upper-case letter moves back by `shift` modulo 26 and stays upper-case; a lower-case
   * letter likewise within 'a'..'z'; anything else is returned unchanged.
   */
  lemma DecodeCharShiftsBack(c: char, shift: int)
    requires 0 <= shift <= 26
    ensures IsUpperLetter(c) ==>
      IsUpperLetter(DecodeChar(c, shift)) && (DecodeChar(c, shift) as int - 65) % 26 == (c as int - 65 - shift) % 26
    ensures IsLowerLetter(c) ==>
      IsLowerLetter(DecodeChar(c, shift)) && (DecodeChar(c, shift) as int - 97) % 26 == (c as int - 97 - shift) % 26
    ensures !IsUpperLetter(c) && !IsLowerLetter(c) ==> DecodeChar(c, shift) == c
  {
  }

  /** The decoder preserves letter case in both directions and leaves non-letters alone */
  lemma DecodeKeepsCase(text: string, shift: int, i: int)
    requires 0 <= shift <= 26 && 0 <= i < |text|
    ensures IsUpperLetter(CaesarDecode(text, shift)[i]) <==> IsUpperLetter(text[i])
    ensures IsLowerLetter(CaesarDecode(text, shift)[i]) <==> IsLowerLetter(text[i])
    ensures !IsUpperLetter(text[i]) && !IsLowerLetter(text[i]) ==> CaesarDecode(text, shift)[i] == text[i]
  {
  }

  /** With the page's shift of 1, 'A' wraps around to 'Z' */
  lemma DecodeWrapsAround()
    ensures DecodeChar('A', 1) == 'Z' && DecodeChar('a', 1) == 'z' && DecodeChar('B', 1) == 'A'
  {
  }

  lemma ShiftRoundTrip(x: int, shift: int)
    requires 0 <= x < 26 && 0 <= shift <= 26
    ensures ((x + shift) % 26 - shift + 26) % 26 == x
  {
    if x + shift < 26 {
      assert (x + shift) % 26 == x + shift;
    } else {
      assert (x + shift) % 26 == x + shift - 26;
    }
  }

  lemma DecodeEncodeChar(c: char, shift: int)
    requires 0 <= shift <= 26
    ensures DecodeChar(EncodeChar(c, shift), shift) == c
  {
    if IsUpperLetter(c) {
      ShiftRoundTrip(c as int - 65, shift);
    } else if IsLowerLetter(c) {
      ShiftRoundTrip(c as int - 97, shift);
    }
  }

  /** Decoding undoes encoding with the same shift */
  lemma {:induction false} DecodeEncode(text: string, shift: int)
    requires 0 <= shift <= 26
    ensures CaesarDecode(CaesarEncode(text, shift), shift) == text
  {
    if text != [] {
      DecodeEncode(text[1..], shift);
      DecodeEncodeChar(text[0], shift);
      assert CaesarEncode(text, shift)[1..] == CaesarEncode(text[1..], shift);
    }
  }

  /** Decoding works character by character, so it distributes over concatenation */
  lemma {:induction false} DecodeAppend(a: string, b: string, shift: int)
    requires 0 <= shift <= 26
    ensures CaesarDecode(a + b, shift) == CaesarDecode(a, shift) + CaesarDecode(b, shift)
  {
    if a == [] {
      assert a + b == b;
    } else {
      assert (a + b)[1..] == a[1..] + b;
      DecodeAppend(a[1..], b, shift);
    }
  }

  /** Encoding distributes over concatenation in the same way */
  lemma {:induction false} EncodeAppend(a: string, b: string, shift: int)
    requires 0 <= shift <= 26
    ensures CaesarEncode(a + b, shift) == CaesarEncode(a, shift) + CaesarEncode(b, shift)
  {
    if a == [] {
      assert a + b == b;
    } else {
      assert (a + b)[1..] == a[1..] + b;
      EncodeAppend(a[1..], b, shift);
    }
  }
}
