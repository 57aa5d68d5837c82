/** Strings, character classes and decimal numerals, as the ingest code sees them. */
module Text {

  datatype Option<+T> = None | Some(value: T)

  /** Which characters outside ASCII count as word characters: Unicode's tables are not spelled out. */
  const NON_ASCII_WORD: char -> bool

  /** Which strings name an IP address. */
  const VALID_IP: string -> bool

  /** Whitespace: what `\s` matches and what `str.strip` removes. */
  predicate IsSpace(c: char) {
    || '\t' <= c <= '\r'
    || '\U{1c}' <= c <= ' '
    || c == '\U{85}' || c == '\U{a0}' || c == '\U{1680}'
    || '\U{2000}' <= c <= '\U{200a}'
    || c == '\U{2028}' || c == '\U{2029}' || c == '\U{202f}' || c == '\U{205f}' || c == '\U{3000}'
  }

  predicate NotSpace(c: char) {
    !IsSpace(c)
  }

  predicate IsDigit(c: char) {
    '0' <= c <= '9'
  }

  /** `\w`. */
  predicate IsWord(c: char) {
    || 'a' <= c <= 'z' || 'A' <= c <= 'Z' || IsDigit(c) || c == '_'
    || (c > '\U{7f}' && !IsSpace(c) && NON_ASCII_WORD(c))
  }

  /** `.` without the DOTALL flag. */
  predicate NotNewline(c: char) {
    c != '\n'
  }

  predicate IsEquals(c: char) {
    c == '='
  }

  /** The whitespace characters, one by one. */
  lemma {:induction false} SpaceCharacters(c: char)
    ensures IsSpace(c) <==> c as int in {
      9, 10, 11, 12, 13, 28, 29, 30, 31, 32, 133, 160, 5760,
      8192, 8193, 8194, 8195, 8196, 8197, 8198, 8199, 8200, 8201, 8202, 8232, 8233, 8239, 8287, 12288}
  {
  }

  /** The word characters of ASCII, one by one; whitespace is never one. */
  lemma {:induction false} WordCharacters(c: char)
    ensures c < '\U{80}' ==> (IsWord(c) <==> c in {
      'A', 'B', 'C', 'D', 'E', 'F', 'G', 'H', 'I', 'J', 'K', 'L', 'M', 'N', 'O', 'P',
      'Q', 'R', 'S', 'T', 'U', 'V', 'W', 'X', 'Y', 'Z', 'a', 'b', 'c', 'd', 'e', 'f',
      'g', 'h', 'i', 'j', 'k', 'l', 'm', 'n', 'o', 'p', 'q', 'r', 's', 't', 'u', 'v',
      'w', 'x', 'y', 'z', '0', '1', '2', '3', '4', '5', '6', '7', '8', '9', '_'})
    ensures IsSpace(c) ==> !IsWord(c)
    ensures c >= '\U{80}' && !IsSpace(c) ==> (IsWord(c) <==> NON_ASCII_WORD(c))
  {
  }

  lemma {:induction false} OtherCharacters(c: char)
    ensures IsDigit(c) <==> c in {'0', '1', '2', '3', '4', '5', '6', '7', '8', '9'}
    ensures NotSpace(c) <==> !IsSpace(c)
    ensures NotNewline(c) <==> c != '\n'
    ensures IsEquals(c) <==> c == '='
  {
  }

  predicate All(p: char -> bool, s: string) {
    forall k :: 0 <= k < |s| ==> p(s[k])
  }

  function Concat(parts: seq<string>): string {
    if parts == [] then "" else parts[0] + Concat(parts[1..])
  }

  // ---- Case ----

  /** `str.lower` and ILIKE's case folding, on ASCII letters. */
  function LowerChar(c: char): char {
    if 'A' <= c <= 'Z' then (c as int + 32) as char else c
  }

  function Lower(s: string): (r: string)
    ensures |r| == |s| && forall k :: 0 <= k < |s| ==> r[k] == LowerChar(s[k])
  {
    if s == "" then "" else [LowerChar(s[0])] + Lower(s[1..])
  }

  lemma {:induction false} LowerLetters(c: char)
    ensures LowerChar('A') == 'a' && LowerChar('B') == 'b' && LowerChar('C') == 'c' && LowerChar('D') == 'd'
    ensures LowerChar('E') == 'e' && LowerChar('F') == 'f' && LowerChar('G') == 'g' && LowerChar('H') == 'h'
    ensures LowerChar('I') == 'i' && LowerChar('J') == 'j' && LowerChar('K') == 'k' && LowerChar('L') == 'l'
    ensures LowerChar('M') == 'm' && LowerChar('N') == 'n' && LowerChar('O') == 'o' && LowerChar('P') == 'p'
    ensures LowerChar('Q') == 'q' && LowerChar('R') == 'r' && LowerChar('S') == 's' && LowerChar('T') == 't'
    ensures LowerChar('U') == 'u' && LowerChar('V') == 'v' && LowerChar('W') == 'w' && LowerChar('X') == 'x'
    ensures LowerChar('Y') == 'y' && LowerChar('Z') == 'z'
    ensures c < 'A' || 'Z' < c ==> LowerChar(c) == c
  {
  }

  // ---- Stripping ----

  function StripLeft(space: char -> bool, s: string): string {
    if s != "" && space(s[0]) then StripLeft(space, s[1..]) else s
  }

  function StripRight(space: char -> bool, s: string): string {
    if s != "" && space(s[|s| - 1]) then StripRight(space, s[..|s| - 1]) else s
  }

  function Strip(space: char -> bool, s: string): string {
    StripRight(space, StripLeft(space, s))
  }

  /** Neither end of `s` is whitespace. */
  predicate Trimmed(space: char -> bool, s: string) {
    s != "" && !space(s[0]) && !space(s[|s| - 1])
  }

  lemma {:induction false} StripLeftPadding(space: char -> bool, pad: string, s: string)
    requires All(space, pad)
    requires s == "" || !space(s[0])
    ensures StripLeft(space, pad + s) == s
  {
    if pad == "" {
      assert pad + s == s;
    } else {
      assert (pad + s)[0] == pad[0];
      assert (pad + s)[1..] == pad[1..] + s;
      StripLeftPadding(space, pad[1..], s);
    }
  }

  lemma {:induction false} StripRightPadding(space: char -> bool, s: string, pad: string)
    requires All(space, pad)
    requires s == "" || !space(s[|s| - 1])
    ensures StripRight(space, s + pad) == s
  {
    if pad == "" {
      assert s + pad == s;
    } else {
      var t := s + pad;
      assert t[|t| - 1] == pad[|pad| - 1];
      assert t[..|t| - 1] == s + pad[..|pad| - 1];
      StripRightPadding(space, s, pad[..|pad| - 1]);
    }
  }

  lemma {:induction false} StripPadding(space: char -> bool, left: string, s: string, right: string)
    requires All(space, left) && All(space, right) && Trimmed(space, s)
    ensures Strip(space, left + s + right) == s
  {
    assert left + s + right == left + (s + right);
    StripLeftPadding(space, left, s + right);
    StripRightPadding(space, s, right);
  }

  /** What is stripped is whitespace, and no more of it could be. */
  lemma {:induction false} StripIs(space: char -> bool, s: string) returns (left: string, right: string)
    ensures s == left + Strip(space, s) + right && All(space, left) && All(space, right)
    ensures Strip(space, s) != "" ==> Trimmed(space, Strip(space, s))
  {
    left := StripLeftIs(space, s);
    right := StripRightIs(space, StripLeft(space, s));
  }

  lemma {:induction false} StripLeftIs(space: char -> bool, s: string) returns (left: string)
    ensures s == left + StripLeft(space, s) && All(space, left)
    ensures StripLeft(space, s) != "" ==> !space(StripLeft(space, s)[0])
  {
    left := "";
    if s != "" && space(s[0]) {
      left := StripLeftIs(space, s[1..]);
      left := [s[0]] + left;
    }
  }

  lemma {:induction false} StripRightIs(space: char -> bool, s: string) returns (right: string)
    ensures s == StripRight(space, s) + right && All(space, right)
    ensures StripRight(space, s) != "" ==>
              StripRight(space, s)[0] == s[0] && !space(StripRight(space, s)[|StripRight(space, s)| - 1])
  {
    right := "";
    if s != "" && space(s[|s| - 1]) {
      right := StripRightIs(space, s[..|s| - 1]);
      right := right + [s[|s| - 1]];
    }
  }

  lemma {:induction false} StripRightEnd(space: char -> bool, s: string)
    ensures |StripRight(space, s)| <= |s|
    ensures StripRight(space, s) != "" ==> !space(StripRight(space, s)[|StripRight(space, s)| - 1])
  {
    if s != "" && space(s[|s| - 1]) {
      StripRightEnd(space, s[..|s| - 1]);
    }
  }

  // ---- Decimal numerals ----

  function DigitValue(c: char): nat
    requires IsDigit(c)
  {
    c as int - '0' as int
  }

  function Digit(d: nat): (c: char)
    requires d < 10
    ensures IsDigit(c) && DigitValue(c) == d
  {
    ('0' as int + d) as char
  }

  /** `int` on a run of digits; leading zeros are accepted. */
  function FromDecimal(s: string): nat
    requires All(IsDigit, s)
  {
    if s == "" then 0 else 10 * FromDecimal(s[..|s| - 1]) + DigitValue(s[|s| - 1])
  }

  function ToDecimal(n: nat): string {
    if n < 10 then [Digit(n)] else ToDecimal(n / 10) + [Digit(n % 10)]
  }

  function TwoDigits(n: nat): string
    requires n < 100
  {
    [Digit(n / 10), Digit(n % 10)]
  }

  lemma {:induction false} DecimalRoundTrip(n: nat)
    ensures All(IsDigit, ToDecimal(n)) && FromDecimal(ToDecimal(n)) == n && ToDecimal(n) != ""
  {
    if n >= 10 {
      DecimalRoundTrip(n / 10);
      assert ToDecimal(n)[..|ToDecimal(n)| - 1] == ToDecimal(n / 10);
    } else {
      assert FromDecimal(ToDecimal(n)[..0]) == 0;
    }
  }

  lemma {:induction false} DecimalLength(n: nat)
    requires n < 1000
    ensures |ToDecimal(n)| == if n < 10 then 1 else if n < 100 then 2 else 3
  {
    if n >= 10 {
      DecimalLength(n / 10);
    }
  }

  lemma {:induction false} TwoDigitsRoundTrip(n: nat)
    requires n < 100
    ensures All(IsDigit, TwoDigits(n)) && |TwoDigits(n)| == 2 && FromDecimal(TwoDigits(n)) == n
  {
    var s := TwoDigits(n);
    assert s[..1] == [Digit(n / 10)];
    assert FromDecimal(s[..1][..0]) == 0;
    assert FromDecimal(s[..1]) == n / 10;
  }

  /** Which digit stands for which number, and how a numeral is read place by place. */
  lemma {:induction false} DecimalPlaces(s: string, c: char)
    requires All(IsDigit, s) && IsDigit(c)
    ensures FromDecimal("") == 0 && FromDecimal(s + [c]) == 10 * FromDecimal(s) + DigitValue(c)
    ensures DigitValue('0') == 0 && DigitValue('1') == 1 && DigitValue('2') == 2 && DigitValue('3') == 3
    ensures DigitValue('4') == 4 && DigitValue('5') == 5 && DigitValue('6') == 6 && DigitValue('7') == 7
    ensures DigitValue('8') == 8 && DigitValue('9') == 9
  {
    assert (s + [c])[..|s|] == s;
  }
}
