/** The custom command: free text of hexadecimal digit pairs, white space
    ignored, sent as the bytes it spells. */
module CustomCommand {
  import opened Bytes
  import opened JsValues
  import opened Visca

  /** Text whose every character, white space aside, is decoded: once white
      space is removed, an even number of hexadecimal digits. */
  predicate CustomDecodable(text: string) {
    var h := RemoveWhitespace(text);
    AllHexDigits(h) && |h| % 2 == 0
  }

  /** The custom command: white space removed, hexadecimal pairs decoded,
      bytes sent verbatim. */
  function CustomPayload(text: string): (p: Payload)
    ensures CustomDecodable(text) ==> 2 * |p| == |RemoveWhitespace(text)|
  {
    HexDecode(RemoveWhitespace(text))
  }

  /** The option's pattern `^8[0-9a-fA-F]\s*([0-9a-fA-F]\s*)+$`: an `8`
      directly followed by a hexadecimal digit, then white space and
      hexadecimal digits in any order with at least one digit. */
  predicate MatchesCustomPattern(text: string) {
    |text| >= 3 && text[0] == '8' && IsHexDigit(text[1]) &&
    (forall i | 2 <= i < |text| :: IsHexDigit(text[i]) || IsJsWhitespace(text[i])) &&
    (exists i | 2 <= i < |text| :: IsHexDigit(text[i]))
  }

  lemma {:induction false} RemoveWhitespaceKeepsHexDigits(s: string)
    requires forall i | 0 <= i < |s| :: IsHexDigit(s[i]) || IsJsWhitespace(s[i])
    ensures AllHexDigits(RemoveWhitespace(s))
    ensures (exists i | 0 <= i < |s| :: IsHexDigit(s[i])) ==> |RemoveWhitespace(s)| >= 1
  {
    if s != [] {
      RemoveWhitespaceKeepsHexDigits(s[1..]);
      if !IsJsWhitespace(s[0]) {
        assert IsHexDigit(s[0]);
      } else if exists i | 0 <= i < |s| :: IsHexDigit(s[i]) {
        var i :| 0 <= i < |s| && IsHexDigit(s[i]);
        assert i >= 1 && IsHexDigit(s[1..][i - 1]);
      }
    }
  }

  /** Text that matches the pattern is, once white space is removed, at least
      three hexadecimal digits starting with 8; when the count is even it
      decodes to a payload whose first byte is 0x80..0x8F. The pattern does
      not ensure an even count, and the callback does not check the pattern. */
  lemma CustomPatternMeaning(text: string)
    requires MatchesCustomPattern(text)
    ensures var h := RemoveWhitespace(text);
      AllHexDigits(h) && |h| >= 3 && h[0] == '8'
    ensures CustomDecodable(text) ==> 0x80 <= CustomPayload(text)[0] <= 0x8F
  {
    CustomPatternDigits(text);
    var h := RemoveWhitespace(text);
    if CustomDecodable(text) {
      assert |HexDecode(h)| == |h| / 2 >= 1;
      HexDecodeReadsPairs(h, 0);
      assert HexDigitValue(h[0]) == 8;
    }
  }

  /** White space removal keeps the leading 8 and leaves only digits. */
  lemma CustomPatternDigits(text: string)
    requires MatchesCustomPattern(text)
    ensures var h := RemoveWhitespace(text);
      AllHexDigits(h) && |h| >= 3 && h[0] == '8'
  {
    var rest := text[2..];
    assert forall i | 0 <= i < |rest| :: IsHexDigit(rest[i]) || IsJsWhitespace(rest[i]);
    var i :| 2 <= i < |text| && IsHexDigit(text[i]);
    assert IsHexDigit(rest[i - 2]);
    RemoveWhitespaceKeepsHexDigits(rest);
    RemoveWhitespaceKeepsHead(text);
    assert text[1..][1..] == rest;
    RemoveWhitespaceKeepsHead(text[1..]);
    AllHexDigitsCons(text[1], RemoveWhitespace(rest));
    AllHexDigitsCons(text[0], [text[1]] + RemoveWhitespace(rest));
  }

  lemma AllHexDigitsCons(c: char, s: string)
    requires IsHexDigit(c) && AllHexDigits(s)
    ensures AllHexDigits([c] + s)
  {
    assert forall j | 1 <= j < |[c] + s| :: ([c] + s)[j] == s[j - 1];
  }

  /** A space between the leading 8 and the next digit is removed before
      decoding, so "8 1 09 04 3F 02 00 FF" decodes exactly as
      "81 09 04 3F 02 00 FF" does, yet the option's pattern rejects the
      first (the 8 must be followed directly by a digit) and accepts the
      second. */
  lemma SpaceAfterLeadingDigit(rest: string)
    ensures RemoveWhitespace("8 " + rest) == RemoveWhitespace("8" + rest)
    ensures !MatchesCustomPattern("8 " + rest)
    ensures CustomPayload("8 " + rest) == CustomPayload("8" + rest)
  {
    var s := "8 " + rest;
    assert s[0] == '8' && s[1..] == " " + rest;
    assert (" " + rest)[1..] == rest;
    assert ("8" + rest)[1..] == rest;
  }

  /** "8 1", with a space inside the first byte, sends 81. */
  lemma SpacedCustomExample()
    ensures CustomPayload("8 1") == [0x81]
  {
    assert "8 1"[1..] == " 1" && " 1"[1..] == "1" && "1"[1..] == "";
    assert RemoveWhitespace("8 1") == "81";
    assert "81"[2..] == "";
  }

  /** Text that matches the pattern. */
  lemma CompactCustomExample()
    ensures MatchesCustomPattern("81 09 04 3F 02 00 FF")
  {
    assert IsHexDigit("81 09 04 3F 02 00 FF"[3]);
  }

  /** A pair that is not hexadecimal ends the payload: "810G" sends 81. */
  lemma TruncatedCustomExample()
    ensures CustomPayload("810G") == [0x81]
  {
    var h := "810G";
    assert forall i | 0 <= i < |h| :: !IsJsWhitespace(h[i]);
    assert h[2..] == "0G";
    assert HexDecode("0G") == [];
  }
}
