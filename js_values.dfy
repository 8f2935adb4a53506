/** The pieces of JavaScript semantics the command layer relies on: white
    space, `parseInt(s, 16)`, `Number.prototype.toString(16)`, loose equality
    of an option value with a number, and array indexing by an option value. */
module JsValues {
  import opened Wrappers
  import opened Bytes

  // ---------------------------------------------------------------------------
  // White space

  /** JavaScript WhiteSpace and LineTerminator code points: what `\s` matches
      in a regular expression and what `parseInt` skips at the start. */
  predicate IsJsWhitespace(c: char) {
    c == '\t' || c == '\n' || c == '\U{0B}' || c == '\U{0C}' || c == '\r' || c == ' ' ||
    c == '\U{A0}' || c == '\U{1680}' || ('\U{2000}' <= c <= '\U{200A}') ||
    c == '\U{2028}' || c == '\U{2029}' || c == '\U{202F}' || c == '\U{205F}' ||
    c == '\U{3000}' || c == '\U{FEFF}'
  }

  /** The string without its leading white space. */
  function TrimStart(s: string): (t: string)
    ensures |t| <= |s| && t == s[|s| - |t|..]
    ensures t == [] || !IsJsWhitespace(t[0])
    ensures forall i | 0 <= i < |s| - |t| :: IsJsWhitespace(s[i])
  {
    if s != [] && IsJsWhitespace(s[0]) then TrimStart(s[1..]) else s
  }

  /** The string without any white space at all: `s.replace(/\s+/g, '')`. */
  function RemoveWhitespace(s: string): (t: string)
    ensures |t| <= |s|
    ensures forall i | 0 <= i < |t| :: !IsJsWhitespace(t[i])
    ensures (forall i | 0 <= i < |s| :: !IsJsWhitespace(s[i])) ==> t == s
    ensures (forall i | 0 <= i < |s| :: IsJsWhitespace(s[i])) ==> t == []
  {
    if s == [] then []
    else if IsJsWhitespace(s[0]) then RemoveWhitespace(s[1..])
    else [s[0]] + RemoveWhitespace(s[1..])
  }
  /** A character that is not white space survives at the front. */
  lemma RemoveWhitespaceKeepsHead(s: string)
    requires s != [] && !IsJsWhitespace(s[0])
    ensures RemoveWhitespace(s) == [s[0]] + RemoveWhitespace(s[1..])
  {
  }



  /** Removing white space works piece by piece. */
  lemma {:induction false} RemoveWhitespaceAppend(a: string, b: string)
    ensures RemoveWhitespace(a + b) == RemoveWhitespace(a) + RemoveWhitespace(b)
  {
    if a == [] {
      assert a + b == b;
    } else {
      var ab := a + b;
      assert ab[0] == a[0] && ab[1..] == a[1..] + b;
      RemoveWhitespaceAppend(a[1..], b);
    }
  }

  // ---------------------------------------------------------------------------
  // Hexadecimal digits

  predicate IsHexDigit(c: char) {
    '0' <= c <= '9' || 'a' <= c <= 'f' || 'A' <= c <= 'F'
  }

  predicate AllHexDigits(s: string) {
    forall i | 0 <= i < |s| :: IsHexDigit(s[i])
  }

  function HexDigitValue(c: char): (v: nat)
    requires IsHexDigit(c)
    ensures v < 16
  {
    if '0' <= c <= '9' then c as int - '0' as int
    else if 'a' <= c <= 'f' then c as int - 'a' as int + 10
    else c as int - 'A' as int + 10
  }

  /** The lower-case digit `toString(16)` writes for a value below 16. */
  function HexDigit(v: nat): (c: char)
    requires v < 16
    ensures IsHexDigit(c) && HexDigitValue(c) == v
    ensures c != 'x' && c != 'X'
    ensures v < 10 ==> '0' <= c <= '9'
    ensures v >= 10 ==> 'a' <= c <= 'f'
  {
    if v < 10 then ('0' as int + v) as char else ('a' as int + v - 10) as char
  }

  /** The value of a string of hexadecimal digits, most significant first. */
  function HexDigitsValue(d: string): nat
    requires AllHexDigits(d)
  {
    if d == [] then 0 else 16 * HexDigitsValue(d[..|d| - 1]) + HexDigitValue(d[|d| - 1])
  }

  /** The longest prefix of `s` made of hexadecimal digits. */
  function LeadingHexDigits(s: string): (d: string)
    ensures d <= s && AllHexDigits(d)
    ensures |d| < |s| ==> !IsHexDigit(s[|d|])
  {
    if s != [] && IsHexDigit(s[0]) then [s[0]] + LeadingHexDigits(s[1..]) else []
  }

  /** `parseInt(s, 16)`: skip leading white space, take an optional sign and
      an optional `0x`/`0X` prefix, then read the longest run of hexadecimal
      digits; `None` is `NaN` (no digit at all). */
  function ParseIntHex(s: string): (r: Option<int>)
    ensures r.None? <==> LeadingHexDigits(HexBody(s)) == []
    ensures r.Some? && !SignedNegative(s) ==> r.value >= 0
  {
    var d := LeadingHexDigits(HexBody(s));
    if d == [] then None
    else
      var v: int := HexDigitsValue(d);
      Some(if SignedNegative(s) then -v else v)
  }

  /** Whether `parseInt` reads a minus sign in front of the digits. */
  predicate SignedNegative(s: string) {
    var t := TrimStart(s);
    |t| > 0 && t[0] == '-'
  }

  /** What `parseInt(s, 16)` reads its digits from: white space, sign and
      radix prefix removed. */
  function HexBody(s: string): string {
    var t := TrimStart(s);
    var u := if |t| > 0 && (t[0] == '-' || t[0] == '+') then t[1..] else t;
    if |u| >= 2 && u[0] == '0' && (u[1] == 'x' || u[1] == 'X') then u[2..] else u
  }

  /** `parseInt(s, 16) & 0xFF`: `NaN & 0xFF` is 0. */
  function HexByte(s: string): byte {
    match ParseIntHex(s)
    case None => 0
    case Some(v) => Low8(v)
  }

  /** `n.toString(16)` for a non-negative integer: lower case, no leading zero. */
  function ToHexString(n: nat): (s: string)
    ensures |s| >= 1 && AllHexDigits(s)
    ensures n < 16 <==> |s| == 1
    ensures 16 <= n < 256 ==> |s| == 2
  {
    if n < 16 then [HexDigit(n)] else ToHexString(n / 16) + [HexDigit(n % 16)]
  }

  lemma {:induction false} HexDigitsValueOfToHexString(n: nat)
    ensures HexDigitsValue(ToHexString(n)) == n
  {
    var s := ToHexString(n);
    if n >= 16 {
      HexDigitsValueOfToHexString(n / 16);
      assert s[..|s| - 1] == ToHexString(n / 16);
    }
  }

  lemma LeadingHexDigitsOfHexString(s: string)
    requires AllHexDigits(s)
    ensures LeadingHexDigits(s) == s
  {
  }

  /** A non-empty run of hexadecimal digits reads back as its value. */
  lemma ParseIntHexOfDigits(s: string)
    requires s != [] && AllHexDigits(s)
    ensures ParseIntHex(s) == Some(HexDigitsValue(s))
  {
    assert !IsJsWhitespace(s[0]);
    assert TrimStart(s) == s;
    assert |s| >= 2 ==> IsHexDigit(s[1]);
    assert HexBody(s) == s;
    LeadingHexDigitsOfHexString(s);
  }

  /** `parseInt(n.toString(16), 16) == n`: every number written in
      hexadecimal reads back as itself. */
  lemma {:induction false} ParseIntHexOfToHexString(n: nat)
    ensures ParseIntHex(ToHexString(n)) == Some(n)
  {
    ParseIntHexOfDigits(ToHexString(n));
    HexDigitsValueOfToHexString(n);
  }

  // ---------------------------------------------------------------------------
  // Option values that are numbers or strings

  /** A dropdown option as the action layer receives it: the choice's `id`,
      which is a string, or a number written by a preset or a default. */
  datatype JsVal = Num(n: int) | Str(s: string)

  predicate IsDecimalDigit(c: char) { '0' <= c <= '9' }

  predicate AllDecimalDigits(s: string) {
    forall i | 0 <= i < |s| :: IsDecimalDigit(s[i])
  }

  function DecimalValue(d: string): nat
    requires AllDecimalDigits(d)
  {
    if d == [] then 0 else 10 * DecimalValue(d[..|d| - 1]) + (d[|d| - 1] as int - '0' as int)
  }

  /** `String(k)` for a non-negative integer. */
  function DecimalString(k: nat): (s: string)
    ensures |s| >= 1 && AllDecimalDigits(s)
    ensures |s| > 1 ==> s[0] != '0'
  {
    if k < 10 then [('0' as int + k) as char] else DecimalString(k / 10) + [('0' as int + k % 10) as char]
  }

  lemma {:induction false} DecimalValueOfDecimalString(k: nat)
    ensures DecimalValue(DecimalString(k)) == k
  {
    var s := DecimalString(k);
    if k >= 10 {
      DecimalValueOfDecimalString(k / 10);
      assert s[..|s| - 1] == DecimalString(k / 10);
    }
  }

  /** The string without trailing white space. */
  function TrimEnd(s: string): (t: string)
    ensures t <= s
    ensures t == [] || !IsJsWhitespace(t[|t| - 1])
    ensures forall i | |t| <= i < |s| :: IsJsWhitespace(s[i])
  {
    if s != [] && IsJsWhitespace(s[|s| - 1]) then TrimEnd(s[..|s| - 1]) else s
  }

  /** `Number(s)` for the strings this model covers: surrounding white space
      is ignored, the empty string is 0 and a run of decimal digits is its
      value; every other string is taken as `NaN`. */
  function StringToNumber(s: string): Option<nat> {
    var t := TrimEnd(TrimStart(s));
    if t == [] then Some(0)
    else if AllDecimalDigits(t) then Some(DecimalValue(t))
    else None
  }

  /** `v == k` with JavaScript's loose equality, for an integer `k`. */
  predicate LooseEquals(v: JsVal, k: int) {
    match v
    case Num(n) => n == k
    case Str(s) => StringToNumber(s) == Some(k)
  }

  /** `v === k` (what `switch` compares with): a string never equals a number. */
  predicate StrictEquals(v: JsVal, k: int) {
    v == Num(k)
  }

  /** `v` names array index k: it is the number k or its decimal name. */
  predicate NamesIndex(v: JsVal, k: nat) {
    v == Num(k) || v == Str(DecimalString(k))
  }

  /** The array element `table[v]` picks, if any: a number indexes directly, a
      string only when it is the canonical decimal name of an index. Any
      other value (a negative or too large number, "01", " 1", "") gives
      `undefined`. */
  function ArrayIndex(v: JsVal, len: nat): (r: Option<nat>)
    ensures r.Some? ==> r.value < len
  {
    match v
    case Num(n) => if 0 <= n < len then Some(n) else None
    case Str(s) =>
      if s != [] && AllDecimalDigits(s) && (s[0] != '0' || |s| == 1) && DecimalValue(s) < len
      then Some(DecimalValue(s)) else None
  }

  /** The lookup picks index k exactly when k is inside the array and the
      value is the number k or its decimal name; every other value gives
      `undefined`. */
  lemma ArrayIndexMeaning(v: JsVal, len: nat, k: nat)
    ensures ArrayIndex(v, len) == Some(k) <==> k < len && NamesIndex(v, k)
  {
    DecimalValueOfDecimalString(k);
    if v.Str? && ArrayIndex(v, len).Some? {
      CanonicalDecimalIsDecimalString(v.s);
    }
  }

  /** A digit string without a leading zero is the decimal name of its value. */
  lemma {:induction false} CanonicalDecimalIsDecimalString(s: string)
    requires s != [] && AllDecimalDigits(s) && (s[0] != '0' || |s| == 1)
    ensures s == DecimalString(DecimalValue(s))
    decreases |s|
  {
    var v := DecimalValue(s);
    var d := s[|s| - 1] as int - '0' as int;
    var p := s[..|s| - 1];
    assert v == 10 * DecimalValue(p) + d;
    if |s| == 1 {
      assert p == [];
      assert DecimalString(v) == [s[0]];
    } else {
      assert p[0] == s[0];
      DecimalValuePositive(p);
      CanonicalDecimalIsDecimalString(p);
      assert v / 10 == DecimalValue(p) && v % 10 == d;
      assert s == p + [s[|s| - 1]];
    }
  }

  /** A digit string that does not start with 0 has a positive value. */
  lemma {:induction false} DecimalValuePositive(s: string)
    requires s != [] && AllDecimalDigits(s) && s[0] != '0'
    ensures DecimalValue(s) >= 1
    decreases |s|
  {
    var p := s[..|s| - 1];
    if |s| > 1 {
      assert p[0] == s[0];
      DecimalValuePositive(p);
    } else {
      assert p == [];
    }
  }

  /** Values that name no index pick nothing: a negative number, a padded
      or zero-prefixed name and the empty string. */
  lemma NonIndexNamesPickNothing(len: nat)
    ensures ArrayIndex(Num(-1), len) == None
    ensures ArrayIndex(Str("01"), len) == None
    ensures ArrayIndex(Str(" 1"), len) == None
    ensures ArrayIndex(Str(""), len) == None
  {
    assert !IsDecimalDigit(" 1"[0]);
  }

  /** A number and the string naming it pick the same element of an array,
      as a JavaScript property lookup does. */
  lemma ArrayIndexOfDecimalString(k: nat, len: nat)
    requires k < len
    ensures ArrayIndex(Num(k), len) == Some(k)
    ensures ArrayIndex(Str(DecimalString(k)), len) == Some(k)
  {
    DecimalValueOfDecimalString(k);
  }

  /** Loose equality with a number holds of that number and of its decimal
      name, and of no other number. */
  lemma {:induction false} LooseEqualsDecimalString(k: nat, j: int)
    ensures LooseEquals(Num(k), j) <==> j == k
    ensures LooseEquals(Str(DecimalString(k)), j) <==> j == k
  {
    var s := DecimalString(k);
    DecimalValueOfDecimalString(k);
    DecimalDigitsUntrimmed(s);
  }

  lemma DecimalDigitsUntrimmed(s: string)
    requires s != [] && AllDecimalDigits(s)
    ensures TrimEnd(TrimStart(s)) == s
  {
    assert !IsJsWhitespace(s[0]);
    assert TrimStart(s) == s;
    assert !IsJsWhitespace(s[|s| - 1]);
  }
}
