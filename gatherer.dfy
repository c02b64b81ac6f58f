/**
 * Course-code helpers. In a numeric course code (the part after the
 * three-letter subject, such as "1100" in ITI1100) the digit at index 1 tells
 * the language: 5 and above is French. The same course in the other language
 * has that digit moved by 4. The default term to query is the next season
 * after the current month; the month and year are parameters here.
 */
module Gatherer {

  predicate IsDigit(ch: char) {
    '0' <= ch <= '9'
  }

  function DigitValue(ch: char): (d: nat)
    requires IsDigit(ch)
    ensures d <= 9
  {
    ch as int - '0' as int
  }

  /** `str(d)` for a single digit. */
  function DigitChar(d: nat): (ch: char)
    requires d <= 9
    ensures IsDigit(ch) && DigitValue(ch) == d
  {
    ('0' as int + d) as char
  }

  /** `int(code[1])` succeeds: the code has an index 1 and it holds a decimal digit. */
  predicate HasLevelDigit(code: string) {
    |code| >= 2 && IsDigit(code[1])
  }

  /** A French code has level digit 5, 6, 7, 8 or 9. */
  predicate IsFrench(code: string): (french: bool)
    requires HasLevelDigit(code)
    ensures french <==> code[1] in "56789"
  {
    DigitValue(code[1]) >= 5
  }

  /**
   * The code of the same course in the other language: the digit at index 1
   * goes up by 4 for an English code and down by 4 for a French one; nothing
   * else changes.
   */
  function LanguageEquivalent(code: string): (r: string)
    requires HasLevelDigit(code)
    ensures |r| == |code| && HasLevelDigit(r)
    ensures forall i :: 0 <= i < |code| && i != 1 ==> r[i] == code[i]
    ensures !IsFrench(code) ==> DigitValue(r[1]) == DigitValue(code[1]) + 4
    ensures IsFrench(code) ==> DigitValue(r[1]) == DigitValue(code[1]) - 4
  {
    var direction := (if !IsFrench(code) then 1 else 0) * 2 - 1;
    var tmp := DigitValue(code[1]) + 4 * direction;
    code[..1] + [DigitChar(tmp)] + code[2..]
  }

  /**
   * For level digits 1 to 8 the transform swaps the language and is its own
   * inverse.
   */
  lemma LanguageEquivalentInvolution(code: string)
    requires HasLevelDigit(code) && 1 <= DigitValue(code[1]) <= 8
    ensures IsFrench(LanguageEquivalent(code)) <==> !IsFrench(code)
    ensures LanguageEquivalent(LanguageEquivalent(code)) == code
  {
    var back := LanguageEquivalent(LanguageEquivalent(code));
    assert back[1] == DigitChar(DigitValue(code[1]));
    assert forall i :: 0 <= i < |code| ==> back[i] == code[i];
  }

  /**
   * Level digits 0 and 9 are not swapped: 0 becomes 4, still English, and 9
   * becomes 5, still French, so a second application does not return the code.
   */
  lemma EdgeDigitsKeepLanguage(code: string)
    requires HasLevelDigit(code) && (code[1] == '0' || code[1] == '9')
    ensures IsFrench(LanguageEquivalent(code)) <==> IsFrench(code)
    ensures LanguageEquivalent(LanguageEquivalent(code)) != code
  {
    var once := LanguageEquivalent(code);
    var twice := LanguageEquivalent(once);
    assert twice[1] != code[1];
  }

  /** The next season to register for, from the current month (1 to 12). */
  function DefaultSeason(month: int): (season: string)
    ensures season in {"summer", "fall", "winter"}
    ensures season == "summer" <==> month <= 4
    ensures season == "fall" <==> 4 < month <= 8
    ensures season == "winter" <==> 8 < month
  {
    if month <= 4 then "summer"
    else if month <= 8 then "fall"
    else "winter"
  }

  /** The current year, plus one exactly when the default season is winter. */
  function DefaultYear(currentYear: int, month: int): (year: int)
    ensures year == currentYear || year == currentYear + 1
    ensures year == currentYear + 1 <==> 8 < month
  {
    currentYear + (if DefaultSeason(month) == "winter" then 1 else 0)
  }
}
