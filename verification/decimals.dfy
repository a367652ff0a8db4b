/** `extract_decimal_value`: the first match of the regular expression
    `\d+(?:\.\d+)?` in a cell, read as a number. The model keeps the matched
    digits and computes the number they spell exactly, as a `real`. */
module Decimals {
  import opened Results
  import opened Text

  /** A match of `\d+(?:\.\d+)?`: the integer digits and the fraction digits
      (empty when the match has no fractional part). */
  datatype Decimal = Decimal(whole: string, frac: string)

  predicate ValidDecimal(d: Decimal) {
    d.whole != [] && AllDigits(d.whole) && AllDigits(d.frac)
  }

  /** The text the match covers. */
  function Spelling(d: Decimal): string {
    if d.frac == [] then d.whole else d.whole + "." + d.frac
  }

  function Pow10(n: nat): (r: nat)
    ensures r > 0
  {
    if n == 0 then 1 else 10 * Pow10(n - 1)
  }

  /** `n` digits spell a number below `10^n`. */
  lemma {:induction false} DigitsBelowPow10(s: string)
    requires AllDigits(s)
    ensures DigitsValue(s) < Pow10(|s|)
  {
    if s != [] {
      DigitsBelowPow10(s[..|s| - 1]);
    }
  }

  /** The exact number `float()` reads from the matched text (before rounding to
      binary floating point). The pattern has no sign, so it is never negative,
      and its integer part is the number the integer digits spell. */
  function Value(d: Decimal): (v: real)
    requires ValidDecimal(d)
    ensures v >= 0.0
    ensures DigitsValue(d.whole) as real <= v < DigitsValue(d.whole) as real + 1.0
  {
    DigitsBelowPow10(d.frac);
    FractionBelowOne(DigitsValue(d.frac), Pow10(|d.frac|));
    DigitsValue(d.whole) as real + DigitsValue(d.frac) as real / Pow10(|d.frac|) as real
  }

  lemma FractionBelowOne(b: nat, p: nat)
    requires b < p
    ensures 0.0 <= b as real / p as real < 1.0
  {
    assert b as real < p as real;
  }

  /** Every character of `s` from position `a` up to `b` is a digit. */
  predicate DigitsIn(s: string, a: nat, b: nat)
    requires b <= |s|
  {
    forall k :: a <= k < b ==> IsDigit(s[k])
  }

  /** The slice of a digit range is a digit string. */
  lemma DigitsInSlice(s: string, a: nat, b: nat)
    requires a <= b <= |s| && DigitsIn(s, a, b)
    ensures AllDigits(s[a..b])
  {
    assert forall k :: 0 <= k < b - a ==> s[a..b][k] == s[a + k];
  }

  /** `s[i..j]` is matched in full by `\d+(?:\.\d+)?`: digits, or digits, a
      dot and digits. */
  ghost predicate IsMatchAt(s: string, i: nat, j: nat) {
    && i < j <= |s|
    && (|| DigitsIn(s, i, j)
        || exists c :: i < c && c + 1 < j && s[c] == '.' && DigitsIn(s, i, c) && DigitsIn(s, c + 1, j))
  }

  /** `s[i..j]` is the match that `re.findall(...)[0]` reports: the pattern
      matches there, no match starts further left, and no match from the same
      start is longer. For this pattern Python's backtracking search (greedy
      `\d+`, then the optional fraction tried first) finds exactly this
      leftmost-longest match. */
  ghost predicate IsFirstMatch(s: string, i: nat, j: nat) {
    && IsMatchAt(s, i, j)
    && forall k: nat, l: nat :: IsMatchAt(s, k, l) ==> i < k || (i == k && l <= j)
  }

  /** The pattern matches nowhere in `s`. */
  ghost predicate NoMatch(s: string) {
    forall k, l :: !IsMatchAt(s, k, l)
  }

  /** The position of the first digit at or after `from`, or `|s|` if there is none. */
  function FirstDigit(s: string, from: nat): (i: nat)
    requires from <= |s|
    ensures from <= i <= |s|
    ensures i < |s| ==> IsDigit(s[i])
    ensures forall k :: from <= k < i ==> !IsDigit(s[k])
    decreases |s| - from
  {
    if from == |s| || IsDigit(s[from]) then from else FirstDigit(s, from + 1)
  }

  /** The length of the longest run of digits starting at `from`. */
  function DigitRun(s: string, from: nat): (n: nat)
    requires from <= |s|
    ensures from + n <= |s|
    ensures DigitsIn(s, from, from + n)
    ensures from + n == |s| || !IsDigit(s[from + n])
    decreases |s| - from
  {
    if from < |s| && IsDigit(s[from]) then 1 + DigitRun(s, from + 1) else 0
  }

  /** Where the first match of `\d+(?:\.\d+)?` ends, given that it starts at
      the first digit `i`: after the digits that follow `.` when the digit run
      from `i` is followed by a dot and a digit, else where that run ends. */
  function MatchEnd(s: string): (j: nat)
    requires FirstDigit(s, 0) < |s|
    ensures var dot := FirstDigit(s, 0) + DigitRun(s, FirstDigit(s, 0));
            && FirstDigit(s, 0) < dot <= j <= |s|
            && (j == dot || (dot + 1 < j && s[dot] == '.'))
  {
    var i := FirstDigit(s, 0);
    var dot := i + DigitRun(s, i);
    if dot + 1 < |s| && s[dot] == '.' && IsDigit(s[dot + 1]) then dot + 1 + DigitRun(s, dot + 1)
    else dot
  }

  /** The first match of `\d+(?:\.\d+)?` in `s`: the digits from the first digit
      on, then `.` and the following digits when a digit follows the dot. */
  function ExtractMatch(s: string): (r: Option<Decimal>)
    ensures r.None? <==> forall k :: 0 <= k < |s| ==> !IsDigit(s[k])
    ensures r.Some? ==> ValidDecimal(r.value)
  {
    var i := FirstDigit(s, 0);
    if i == |s| then None
    else
      var dot := i + DigitRun(s, i);
      var j := MatchEnd(s);
      DigitsInSlice(s, i, dot);
      if j == dot then Some(Decimal(s[i..dot], ""))
      else
        DigitsInSlice(s, dot + 1, j);
        Some(Decimal(s[i..dot], s[dot + 1..j]))
  }

  /** A run of digits starting at `i` lies inside the longest one. */
  lemma {:induction false} DigitsWithinRun(s: string, i: nat, l: nat)
    requires i <= l <= |s| && DigitsIn(s, i, l)
    ensures l <= i + DigitRun(s, i)
    decreases l - i
  {
    if i < l {
      DigitsWithinRun(s, i + 1, l);
    }
  }

  /** A match with a fractional part, starting at `i`, has its dot where the
      digit run from `i` ends, and its fraction inside the digit run after it. */
  lemma DottedMatchShape(s: string, i: nat, c: nat, l: nat)
    requires i < c && c + 1 < l <= |s| && s[c] == '.'
    requires DigitsIn(s, i, c) && DigitsIn(s, c + 1, l)
    ensures c == i + DigitRun(s, i)
    ensures IsDigit(s[c + 1])
    ensures l <= c + 1 + DigitRun(s, c + 1)
  {
    DigitsWithinRun(s, i, c);
    DigitsWithinRun(s, c + 1, l);
  }

  /** The case split of `IsMatchAt`, with the position of the dot as a value:
      `0` when the match is digits only. */
  lemma MatchDot(s: string, i: nat, l: nat) returns (c: nat)
    requires IsMatchAt(s, i, l)
    ensures c == 0 ==> DigitsIn(s, i, l)
    ensures c != 0 ==> i < c && c + 1 < l && s[c] == '.' && DigitsIn(s, i, c) && DigitsIn(s, c + 1, l)
  {
    if DigitsIn(s, i, l) {
      c := 0;
    } else {
      c :| i < c && c + 1 < l && s[c] == '.' && DigitsIn(s, i, c) && DigitsIn(s, c + 1, l);
    }
  }

  /** When a dot and a digit follow the first digit run, the match runs on
      through the digits after the dot. */
  lemma MatchEndDotted(s: string)
    requires FirstDigit(s, 0) < |s|
    requires var dot := FirstDigit(s, 0) + DigitRun(s, FirstDigit(s, 0));
             dot + 1 < |s| && s[dot] == '.' && IsDigit(s[dot + 1])
    ensures var dot := FirstDigit(s, 0) + DigitRun(s, FirstDigit(s, 0));
            MatchEnd(s) == dot + 1 + DigitRun(s, dot + 1)
  {
  }

  /** A match starting at the first digit of `s` ends no later than the one
      `ExtractMatch` reports. */
  lemma MatchFromFirstDigitIsShorter(s: string, l: nat)
    requires FirstDigit(s, 0) < |s| && IsMatchAt(s, FirstDigit(s, 0), l)
    ensures l <= MatchEnd(s)
  {
    var i := FirstDigit(s, 0);
    var c := MatchDot(s, i, l);
    if c == 0 {
      DigitsWithinRun(s, i, l);
    } else {
      DottedMatchShape(s, i, c, l);
      MatchEndDotted(s);
    }
  }

  /** No match starts before the first digit. */
  lemma MatchesStartAtDigits(s: string)
    ensures forall k: nat, l: nat :: IsMatchAt(s, k, l) ==> FirstDigit(s, 0) <= k < |s|
  {
    forall k: nat, l: nat | IsMatchAt(s, k, l)
      ensures FirstDigit(s, 0) <= k < |s|
    {
      var c := MatchDot(s, k, l);
      assert IsDigit(s[k]);
    }
  }

  /** Every match starts at or after the first digit, and one starting there
      ends no later than `MatchEnd(s)`. */
  lemma NoEarlierOrLongerMatch(s: string)
    requires FirstDigit(s, 0) < |s|
    ensures forall k: nat, l: nat :: IsMatchAt(s, k, l) ==>
              FirstDigit(s, 0) < k || (FirstDigit(s, 0) == k && l <= MatchEnd(s))
  {
    var i := FirstDigit(s, 0);
    MatchesStartAtDigits(s);
    forall l | IsMatchAt(s, i, l) {
      MatchFromFirstDigitIsShorter(s, l);
    }
  }

  /** The reported match is a full match of the pattern and is the slice of `s`
      from the first digit to `MatchEnd(s)`. */
  lemma ExtractMatchSpelling(s: string)
    requires ExtractMatch(s).Some?
    ensures IsMatchAt(s, FirstDigit(s, 0), MatchEnd(s))
    ensures s[FirstDigit(s, 0)..MatchEnd(s)] == Spelling(ExtractMatch(s).value)
  {
    var i := FirstDigit(s, 0);
    var d := ExtractMatch(s).value;
    var dot := i + DigitRun(s, i);
    var j := MatchEnd(s);
    if j != dot {
      MatchEndNotDot(s);
      DottedSpelling(s, i, dot, j);
    } else {
      assert s[i..j] == d.whole;
    }
  }

  /** Digits, a dot and digits next to each other in `s` form a match, spelled
      as the two digit strings joined by the dot. */
  lemma DottedSpelling(s: string, i: nat, dot: nat, j: nat)
    requires i < dot && dot + 1 < j <= |s| && s[dot] == '.'
    requires DigitsIn(s, i, dot) && DigitsIn(s, dot + 1, j)
    ensures IsMatchAt(s, i, j)
    ensures s[i..j] == s[i..dot] + "." + s[dot + 1..j]
  {
    assert s[i..j] == s[i..dot] + [s[dot]] + s[dot + 1..j];
  }

  /** When the match does not end at the first digit run, a dot and digits
      follow that run. */
  lemma MatchEndNotDot(s: string)
    requires FirstDigit(s, 0) < |s|
    requires MatchEnd(s) != FirstDigit(s, 0) + DigitRun(s, FirstDigit(s, 0))
    ensures var dot := FirstDigit(s, 0) + DigitRun(s, FirstDigit(s, 0));
            && dot + 1 < |s| && s[dot] == '.' && IsDigit(s[dot + 1])
            && MatchEnd(s) == dot + 1 + DigitRun(s, dot + 1)
  {
  }

  /** `ExtractMatch` finds exactly the first match of `\d+(?:\.\d+)?`, and finds
      nothing exactly when the pattern matches nowhere. */
  lemma ExtractMatchIsFirstMatch(s: string)
    ensures ExtractMatch(s).None? <==> NoMatch(s)
    ensures ExtractMatch(s).Some? ==>
              exists i: nat, j: nat :: IsFirstMatch(s, i, j) && s[i..j] == Spelling(ExtractMatch(s).value)
  {
    MatchesStartAtDigits(s);
    if ExtractMatch(s).Some? {
      var i := FirstDigit(s, 0);
      var j := MatchEnd(s);
      ExtractMatchSpelling(s);
      NoEarlierOrLongerMatch(s);
      assert IsFirstMatch(s, i, j);
    }
  }

  /** `extract_decimal_value`: nothing for a null cell or a cell without a digit;
      otherwise the number spelled by the first match. */
  function ExtractDecimalValue(cell: Option<string>): (r: Option<real>)
    ensures r.None? <==> cell.None? || forall k :: 0 <= k < |cell.value| ==> !IsDigit(cell.value[k])
    ensures r.Some? ==> r.value >= 0.0
  {
    match cell
    case None => None
    case Some(s) =>
      match ExtractMatch(s)
      case None => None
      case Some(d) => Some(Value(d))
  }

  /** `extract_decimal_value` against the regular expression: nothing exactly
      when the cell is null or the pattern matches nowhere in it; otherwise the
      value of a decimal whose spelling is the first match. */
  lemma ExtractDecimalValueIsFirstMatch(s: string)
    ensures ExtractDecimalValue(Some(s)).None? <==> NoMatch(s)
    ensures ExtractDecimalValue(Some(s)).Some? ==>
              exists d: Decimal, i: nat, j: nat ::
                && ValidDecimal(d) && IsFirstMatch(s, i, j) && s[i..j] == Spelling(d)
                && ExtractDecimalValue(Some(s)).value == Value(d)
  {
    ExtractMatchIsFirstMatch(s);
    if ExtractMatch(s).Some? {
      var d := ExtractMatch(s).value;
      var i: nat, j: nat :| IsFirstMatch(s, i, j) && s[i..j] == Spelling(d);
      assert ExtractDecimalValue(Some(s)).value == Value(d);
    }
  }

  /** A value with an annotation suffix: `"78.5 b"` reads as 78.5. */
  lemma ExtractAnnotated()
    ensures ExtractDecimalValue(Some("78.5 b")) == Some(78.5)
  {
    assert DigitRun("78.5 b", 0) == 2 && DigitRun("78.5 b", 3) == 1;
    assert "78.5 b"[0..2] == "78" && "78.5 b"[3..4] == "5";
    assert ExtractMatch("78.5 b") == Some(Decimal("78", "5"));
    assert DigitsValue("78") == 78;
  }

  /** A bare integer: `"100"` reads as 100. */
  lemma ExtractInteger()
    ensures ExtractDecimalValue(Some("100")) == Some(100.0)
  {
    assert DigitRun("100", 0) == 3;
    assert "100"[0..3] == "100";
    assert ExtractMatch("100") == Some(Decimal("100", ""));
    assert "100"[..2] == "10" && "10"[..1] == "1";
    assert DigitsValue("100") == 100;
  }

  /** A dot not followed by a digit is not part of the match: `"12.x"` reads as 12. */
  lemma ExtractDotWithoutFraction()
    ensures ExtractDecimalValue(Some("12.x")) == Some(12.0)
  {
    assert DigitRun("12.x", 0) == 2;
    assert "12.x"[0..2] == "12";
    assert ExtractMatch("12.x") == Some(Decimal("12", ""));
    assert DigitsValue("12") == 12;
  }

  /** The missing-data marker and a null cell read as nothing. */
  lemma ExtractMissing()
    ensures ExtractDecimalValue(Some(":")) == None
    ensures ExtractDecimalValue(Some(": ")) == None
    ensures ExtractDecimalValue(None) == None
  {
  }
}
