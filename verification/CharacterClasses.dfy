/** The character classes of the library, as the standards list their members. */
module CharacterClasses {
  import opened Text
  import opened Numbers
  import opened MessageHeader
  import UriCodec

  predicate IsLetter(c: char) {
    65 <= c as int <= 90 || 97 <= c as int <= 122
  }

  predicate IsDecimalDigit(c: char) {
    c in {'0', '1', '2', '3', '4', '5', '6', '7', '8', '9'}
  }

  /** The characters of a token: section 5.6.2 of RFC 9110. */
  predicate IsTchar(c: char) {
    IsLetter(c) || IsDecimalDigit(c) ||
    c in {'!', '#', '$', '%', '&', '\'', '*', '+', '-', '.', '^', '_', '`', '|', '~'}
  }

  /** A visible octet: not a control, not a blank, not DEL; from 128 on all are. */
  predicate IsVisible(c: char) {
    33 <= c as int && c as int != 127
  }

  lemma DigitsAre(c: char)
    ensures IsDigit(c) <==> IsDecimalDigit(c)
  {
  }

  lemma TokenCharsAre(c: char)
    ensures IsTokenChar(c) <==> IsTchar(c)
  {
  }

  lemma TokensAre(s: string)
    ensures IsToken(s) <==> s != "" && forall i :: 0 <= i < |s| ==> IsTchar(s[i])
  {
    hide IsTokenChar, IsTchar;
    forall i | 0 <= i < |s| ensures IsTokenChar(s[i]) <==> IsTchar(s[i]) { TokenCharsAre(s[i]); }
  }

  /** Targets are visible octets, at least one. */
  lemma TargetsAre(s: string)
    ensures IsTarget(s) <==> s != "" && forall i :: 0 <= i < |s| ==> IsVisible(s[i])
  {
  }

  /**
   Field values: visible octets with blanks and tabs between them, none at either end, section
   5.5 of RFC 9110.
   */
  lemma FieldValuesAre(s: string)
    ensures IsFieldValue(s) <==>
            s == "" || (IsVisible(s[0]) && IsVisible(s[|s| - 1]) &&
                        forall i :: 0 <= i < |s| ==> IsVisible(s[i]) || s[i] as int == 32 || s[i] as int == 9)
  {
  }

  /** What a value is trimmed of, and what starts a continuation line: blanks and tabs. */
  lemma WhitespaceIs(c: char)
    ensures IsStrictWhitespace(c) <==> c as int == 32 || c as int == 9
  {
  }

  /**
   The octets that are sent as they are: the unreserved characters of section 2.3 of RFC 3986,
   and five of its reserved ones.
   */
  lemma UnescapedAre(c: char)
    requires UriCodec.IsOctet(c)
    ensures UriCodec.EncodeOctet(c) == [c] <==> IsLetter(c) || IsDecimalDigit(c) || c in {'-', '.', '_', '~', '!', '*', '\'', '(', ')'}
  {
  }
}
