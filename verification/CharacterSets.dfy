/** The character classes of the parsers, spelled out. */
module CharacterSets {
  import opened HttpTypes
  import opened StringUtils
  import opened Urls

  const UPPER := "ABCDEFGHIJKLMNOPQRSTUVWXYZ"
  const LOWER := "abcdefghijklmnopqrstuvwxyz"
  const DIGITS := "0123456789"

  predicate IsLetter(c: char) {
    c in UPPER || c in LOWER
  }

  predicate IsLetterOrDigit(c: char) {
    IsLetter(c) || c in DIGITS
  }

  lemma Ranges(c: char)
    ensures c in UPPER <==> 'A' <= c <= 'Z'
    ensures c in LOWER <==> 'a' <= c <= 'z'
    ensures c in DIGITS <==> '0' <= c <= '9'
  {
  }

  /** Letters and digits. */
  lemma AlphaNumerics(c: char)
    ensures IsAlpha(c) <==> IsLetter(c)
    ensures IsNum(c) <==> c in DIGITS
    ensures IsAlphaNum(c) <==> IsLetterOrDigit(c)
    ensures IsHex(c) <==> c in DIGITS || c in "abcdef" || c in "ABCDEF"
  {
    hide IsHex;
    Ranges(c);
    HexDigits(c);
  }

  lemma HexDigits(c: char)
    ensures IsHex(c) <==> c in DIGITS || c in "abcdef" || c in "ABCDEF"
  {
  }

  /** A digit's value is its place among the digits; so is that of a hexadecimal digit of either case. */
  lemma DigitValues(i: nat)
    ensures i < 10 ==> Digit(DIGITS[i]) == i && Unhex(DIGITS[i]) == i
    ensures i < 6 ==> Unhex("abcdef"[i]) == 10 + i && Unhex("ABCDEF"[i]) == 10 + i
  {
    var d, a, b := DIGITS, "abcdef", "ABCDEF";
    assert i < 10 ==> d[i] as int == '0' as int + i;
    assert i < 6 ==> a[i] as int == 'a' as int + i && b[i] as int == 'A' as int + i;
  }

  /** Of the other characters of ASCII none has a hexadecimal value; those above ASCII have the value zero. */
  lemma NoHexValue(c: char)
    ensures c as int < 128 ==> (Unhex(c) == -1 <==> !IsHex(c))
    ensures c as int >= 128 ==> Unhex(c) == 0
  {
  }

  /** Case folding changes the letters, and nothing else. */
  lemma FoldedLetters(c: char, i: nat)
    ensures i < 26 ==> FoldedChar(UPPER[i]) == LOWER[i] && Lower(UPPER[i]) == LOWER[i] && TokenOf(UPPER[i]) == LOWER[i]
    ensures c !in UPPER ==> FoldedChar(c) == c
  {
    Ranges(c);
    UpperAt(i);
  }

  lemma UpperAt(i: nat)
    ensures i < 26 ==> UPPER[i] as int == 'A' as int + i && LOWER[i] as int == 'a' as int + i
  {
  }

  /** The characters of header names. */
  lemma TokenCharacters(c: char)
    ensures TokenOf(c) != '\0' <==> IsLetterOrDigit(c) || c in "!#$%&'*+-.^_`|~"
    ensures TokenOf(c) != '\0' && c !in UPPER ==> TokenOf(c) == c
  {
    Ranges(c);
  }

  /** The characters of header values: all but the controls, tabs and line ends being allowed. */
  lemma ValueCharacters(c: char)
    ensures IsHeaderChar(c) <==> c in "\t\n\r" || (c as int >= 32 && c as int != 127)
  {
  }

  /** The characters of paths. */
  lemma UrlCharacters(c: char)
    ensures IsUrlChar(c) <==> IsLetterOrDigit(c) || c in "!\"$%&'()*+,-./" || c in ":;<=>@[\\]^_`{|}~"
  {
    Ranges(c);
  }

  lemma UserInfoCharacters(c: char)
    ensures IsUserInfoChar(c) <==> IsLetterOrDigit(c) || c in "-_.!~*'()" || c in "%;:&=+$,"
  {
    AlphaNumerics(c);
  }

  lemma HostCharacters(c: char)
    ensures IsHostChar(c) <==> IsLetterOrDigit(c) || c in ".-"
    ensures IsV6Char(c) <==> c in DIGITS || c in "abcdef" || c in "ABCDEF" || c in ":."
    ensures IsZoneChar(c) <==> IsLetterOrDigit(c) || c in "%.-_~"
  {
    AlphaNumerics(c);
  }

  /**
   The unreserved characters and the percent sign of RFC 3986, section 2, may stand in userinfo, path, query
   and fragment; those but `_`, `~` and `%` in a host name.
   */
  lemma UnreservedCharacters(c: char)
    requires IsLetterOrDigit(c) || c in "-._~%"
    ensures IsUrlChar(c) && IsUserInfoChar(c) && IsZoneChar(c) && (IsHostChar(c) <==> c !in "_~%")
  {
    UrlCharacters(c);
    UserInfoCharacters(c);
    HostCharacters(c);
    Ranges(c);
  }
}
