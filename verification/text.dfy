/** The string routines the cleaning stage calls: Python's `str.strip()`,
    `str.replace(" ", "")`, `str.split(",")` and `int()` on a `str`, plus the
    decimal-digit helpers they share. Digits are the ASCII digits `0`-`9`. */
module Text {
  import opened Results
  import Seqs

  predicate IsDigit(c: char) {
    '0' <= c <= '9'
  }

  predicate AllDigits(s: string) {
    forall k :: 0 <= k < |s| ==> IsDigit(s[k])
  }

  /** The characters for which Python's `str.isspace()` holds: these are what
      `str.strip()` with no argument removes. */
  predicate IsSpace(c: char) {
    || c == ' '
    || '\t' <= c <= '\r'
    || '\U{1c}' <= c <= '\U{1f}'
    || c == '\U{85}'
    || c == '\U{a0}'
    || c == '\U{1680}'
    || '\U{2000}' <= c <= '\U{200a}'
    || c == '\U{2028}'
    || c == '\U{2029}'
    || c == '\U{202f}'
    || c == '\U{205f}'
    || c == '\U{3000}'
  }

  predicate AllSpace(s: string) {
    forall k :: 0 <= k < |s| ==> IsSpace(s[k])
  }

  /** `s` with its leading whitespace removed. */
  function TrimStart(s: string): string {
    if s != [] && IsSpace(s[0]) then TrimStart(s[1..]) else s
  }

  /** `TrimStart` removes a whitespace prefix and exactly that: what is left is
      a suffix of `s` that does not start with whitespace. */
  lemma {:induction false} TrimStartSpec(s: string)
    ensures var r := TrimStart(s);
      && |r| <= |s| && r == s[|s| - |r|..]
      && AllSpace(s[..|s| - |r|])
      && (r != [] ==> !IsSpace(r[0]))
  {
    if s != [] && IsSpace(s[0]) {
      TrimStartSpec(s[1..]);
      var r := TrimStart(s);
      assert s[..|s| - |r|] == [s[0]] + s[1..][..|s| - 1 - |r|];
    }
  }

  /** `s` with its trailing whitespace removed. */
  function TrimEnd(s: string): string {
    if s != [] && IsSpace(s[|s| - 1]) then TrimEnd(s[..|s| - 1]) else s
  }

  /** `TrimEnd` removes a whitespace suffix and exactly that: what is left is a
      prefix of `s` that does not end with whitespace. */
  lemma {:induction false} TrimEndSpec(s: string)
    ensures var r := TrimEnd(s);
      && |r| <= |s| && r == s[..|r|]
      && AllSpace(s[|r|..])
      && (r != [] ==> !IsSpace(r[|r| - 1]))
  {
    if s != [] && IsSpace(s[|s| - 1]) {
      var p := s[..|s| - 1];
      TrimEndSpec(p);
      var r := TrimEnd(s);
      assert s[|r|..] == p[|r|..] + [s[|s| - 1]];
    }
  }

  /** `r` is the slice of `s` starting at `i`, and everything of `s` outside that
      slice is whitespace. */
  ghost predicate Surrounds(s: string, i: nat, r: string) {
    && i + |r| <= |s|
    && s[i..i + |r|] == r
    && AllSpace(s[..i])
    && AllSpace(s[i + |r|..])
  }

  /** Python's `s.strip()`: the slice of `s` left when whitespace is removed from
      both ends. */
  function Strip(s: string): string {
    TrimEnd(TrimStart(s))
  }

  /** `Strip` keeps a slice of `s` surrounded by whitespace, and that slice
      neither starts nor ends with whitespace. */
  lemma StripSpec(s: string)
    ensures exists i: nat :: Surrounds(s, i, Strip(s))
    ensures var r := Strip(s); r != [] ==> !IsSpace(r[0]) && !IsSpace(r[|r| - 1])
  {
    var a := TrimStart(s);
    var r := TrimEnd(a);
    TrimStartSpec(s);
    TrimEndSpec(a);
    var i: nat := |s| - |a|;
    assert s[i..i + |r|] == r;
    assert s[..i + |r|][..i] == s[..i];
    assert s[i + |r|..] == a[|r|..];
    assert r == Strip(s);
    assert Surrounds(s, i, Strip(s));
  }

  /** Stripping a non-blank string padded with whitespace gives the string back. */
  lemma StripPadded(lead: string, x: string, trail: string)
    requires AllSpace(lead) && AllSpace(trail)
    requires x != [] && !IsSpace(x[0]) && !IsSpace(x[|x| - 1])
    ensures Strip(lead + x + trail) == x
  {
    var s := lead + x + trail;
    var r := Strip(s);
    StripSpec(s);
    var i: nat :| Surrounds(s, i, r);
    assert s[|lead|] == x[0];
    assert s[|lead| + |x| - 1] == x[|x| - 1];
    assert s[i] == r[0];
    assert i == |lead|;
    assert s[i + |r| - 1] == r[|r| - 1];
    assert i + |r| == |lead| + |x|;
    assert s[|lead|..|lead| + |x|] == x;
  }

  /** Python's `s.replace(" ", "")`: only the space character is removed; other
      whitespace stays. */
  function RemoveSpaces(s: string): string {
    if s == [] then []
    else if s[0] == ' ' then RemoveSpaces(s[1..])
    else [s[0]] + RemoveSpaces(s[1..])
  }

  /** `RemoveSpaces` is the filter that keeps every character but the space: no
      space is left, every other character keeps its count and the order is kept. */
  lemma RemoveSpacesIsFilter(s: string)
    ensures RemoveSpaces(s) == Seqs.Filter(s, NotSpaceChar)
    ensures ' ' !in RemoveSpaces(s)
    ensures forall c :: c != ' ' ==> multiset(RemoveSpaces(s))[c] == multiset(s)[c]
    ensures Seqs.IsSubsequence(RemoveSpaces(s), s)
  {
    RemoveSpacesFilters(s);
    Seqs.FilterCounts(s, NotSpaceChar);
  }

  /** Every character but the space. */
  predicate NotSpaceChar(c: char) {
    c != ' '
  }

  lemma {:induction false} RemoveSpacesFilters(s: string)
    ensures RemoveSpaces(s) == Seqs.Filter(s, NotSpaceChar)
  {
    if s != [] {
      RemoveSpacesFilters(s[1..]);
    }
  }

  /** Python's `s.split(sep)`: the pieces between occurrences of `sep`. */
  function Split(s: string, sep: char): (r: seq<string>)
    ensures |r| >= 1
  {
    if s == [] then [""]
    else
      var rest := Split(s[1..], sep);
      if s[0] == sep then [""] + rest
      else [[s[0]] + rest[0]] + rest[1..]
  }

  /** No piece of a split holds the separator, and joining the pieces with it
      gives the string back. */
  lemma {:induction false} SplitPieces(s: string, sep: char)
    ensures forall k :: 0 <= k < |Split(s, sep)| ==> sep !in Split(s, sep)[k]
    ensures Join(Split(s, sep), sep) == s
  {
    if s != [] {
      SplitPieces(s[1..], sep);
      var rest := Split(s[1..], sep);
      var r := Split(s, sep);
      if s[0] == sep {
        assert r[1..] == rest;
      } else {
        assert r[1..] == rest[1..];
        assert s == [s[0]] + s[1..];
      }
    }
  }

  /** Python's `sep.join(parts)`. */
  function Join(parts: seq<string>, sep: char): string
    requires |parts| >= 1
  {
    if |parts| == 1 then parts[0] else parts[0] + [sep] + Join(parts[1..], sep)
  }

  /** Splitting a joined sequence of separator-free pieces gives the pieces back. */
  lemma {:induction false} SplitJoin(parts: seq<string>, sep: char)
    requires |parts| >= 1
    requires forall k :: 0 <= k < |parts| ==> sep !in parts[k]
    ensures Split(Join(parts, sep), sep) == parts
  {
    if |parts| == 1 {
      SplitNoSeparator(parts[0], sep);
    } else {
      SplitJoin(parts[1..], sep);
      SplitAfterPiece(parts[0], Join(parts[1..], sep), sep);
    }
  }

  lemma {:induction false} SplitNoSeparator(p: string, sep: char)
    requires sep !in p
    ensures Split(p, sep) == [p]
  {
    if p != [] {
      SplitNoSeparator(p[1..], sep);
      assert p == [p[0]] + p[1..];
    }
  }

  lemma {:induction false} SplitAfterPiece(p: string, rest: string, sep: char)
    requires sep !in p
    ensures Split(p + [sep] + rest, sep) == [p] + Split(rest, sep)
  {
    if p == [] {
      assert p + [sep] + rest == [sep] + rest;
      assert ([sep] + rest)[1..] == rest;
    } else {
      SplitAfterPiece(p[1..], rest, sep);
      var s := p + [sep] + rest;
      assert s[0] == p[0];
      assert s[1..] == p[1..] + [sep] + rest;
      var tail := Split(s[1..], sep);
      assert tail[0] == p[1..] && tail[1..] == Split(rest, sep);
      assert [p[0]] + p[1..] == p;
    }
  }

  function DigitValue(c: char): nat
    requires IsDigit(c)
  {
    c as int - '0' as int
  }

  function DigitChar(d: nat): char
    requires d < 10
  {
    ('0' as int + d) as char
  }

  /** The natural number a string of decimal digits spells, most significant first. */
  function DigitsValue(s: string): nat
    requires AllDigits(s)
  {
    if s == [] then 0 else 10 * DigitsValue(s[..|s| - 1]) + DigitValue(s[|s| - 1])
  }

  /** Python's `str(n)` for a natural number: its shortest decimal spelling. */
  function FormatNat(n: nat): (r: string)
    ensures r != [] && AllDigits(r)
    ensures |r| > 1 ==> r[0] != '0'
    ensures DigitsValue(r) == n
  {
    if n < 10 then [DigitChar(n)]
    else
      var r := FormatNat(n / 10) + [DigitChar(n % 10)];
      assert r[..|r| - 1] == FormatNat(n / 10);
      r
  }

  /** Python's `str(n)` for an integer. */
  function FormatInt(n: int): (r: string)
    ensures r != [] && !IsSpace(r[0]) && !IsSpace(r[|r| - 1]) && ' ' !in r
  {
    if n < 0 then "-" + FormatNat(-n) else FormatNat(n)
  }

  /** A run of digits in which a single `_` may stand before a digit. */
  predicate DigitsTail(s: string)
    decreases |s|
  {
    || s == []
    || (IsDigit(s[0]) && DigitsTail(s[1..]))
    || (|s| > 1 && s[0] == '_' && IsDigit(s[1]) && DigitsTail(s[2..]))
  }

  /** Digits in which a single `_` may separate two digits, as `int()` accepts:
      `2019`, `1_000`, but not `_1`, `1_` or `1__0`. */
  predicate IsDigitGroups(b: string) {
    b != [] && IsDigit(b[0]) && DigitsTail(b[1..])
  }

  /** The digits of a digit-group string, with the separating underscores dropped. */
  function RemoveUnderscores(s: string): string
    requires DigitsTail(s)
    decreases |s|
  {
    if s == [] then []
    else if IsDigit(s[0]) && DigitsTail(s[1..]) then [s[0]] + RemoveUnderscores(s[1..])
    else [s[1]] + RemoveUnderscores(s[2..])
  }

  /** Dropping the underscores of digit groups leaves only digits. */
  lemma {:induction false} RemoveUnderscoresDigits(s: string)
    requires DigitsTail(s)
    ensures AllDigits(RemoveUnderscores(s))
    decreases |s|
  {
    if s == [] {
    } else if IsDigit(s[0]) && DigitsTail(s[1..]) {
      RemoveUnderscoresDigits(s[1..]);
    } else {
      RemoveUnderscoresDigits(s[2..]);
    }
  }

  /** A plain digit string is a digit-group string without underscores to drop. */
  lemma {:induction false} PlainDigitGroups(s: string)
    requires AllDigits(s)
    ensures DigitsTail(s) && RemoveUnderscores(s) == s
    decreases |s|
  {
    if s != [] {
      PlainDigitGroups(s[1..]);
    }
  }

  /** Python's `int(s)` for a `str` in base 10: an optional `+` or `-`, then
      digit groups. Anything else raises `ValueError`, modelled as `None`.
      Whitespace around the literal is cut with `Strip`, which removes every
      `str.isspace()` character; CPython's `int()` cuts only ` \t\n\v\f\r`
      around an ASCII literal. The two agree on the text `clean_year` passes,
      which `str.strip()` has already cleared of whitespace at both ends. */
  function ParseInt(s: string): Option<int>
  {
    var t := Strip(s);
    if t != [] && (t[0] == '+' || t[0] == '-') then
      var body := t[1..];
      if IsDigitGroups(body) then
        var m: int := GroupsValue(body);
        Some(if t[0] == '-' then -m else m)
      else None
    else if IsDigitGroups(t) then Some(GroupsValue(t))
    else None
  }

  /** The number a digit-group string spells. */
  function GroupsValue(b: string): nat
    requires IsDigitGroups(b)
  {
    assert DigitsTail(b);
    RemoveUnderscoresDigits(b);
    DigitsValue(RemoveUnderscores(b))
  }

  /** `int(str(n)) == n`. */
  lemma ParseFormat(n: int)
    ensures ParseInt(FormatInt(n)) == Some(n)
  {
    var f := FormatInt(n);
    StripUnpadded(f);
    var m: nat := if n < 0 then -n else n;
    DigitGroupsOfFormat(m);
    if n < 0 {
      assert f[1..] == FormatNat(m);
    }
  }

  lemma StripUnpadded(x: string)
    requires x != [] && !IsSpace(x[0]) && !IsSpace(x[|x| - 1])
    ensures Strip(x) == x
  {
    StripPadded("", x, "");
    assert "" + x + "" == x;
  }

  lemma DigitGroupsOfFormat(m: nat)
    ensures IsDigitGroups(FormatNat(m)) && GroupsValue(FormatNat(m)) == m
  {
    var digits := FormatNat(m);
    PlainDigitGroups(digits);
    PlainDigitGroups(digits[1..]);
  }

  /** The year label normalisation of `clean_year`: `int(heading.strip().replace(" ", ""))`. */
  function ParseYear(heading: string): Option<int>
  {
    ParseInt(RemoveSpaces(Strip(heading)))
  }

  /** Dropping the spaces keeps the last character when it is not a space. */
  lemma {:induction false} RemoveSpacesLast(x: string)
    requires x != [] && x[|x| - 1] != ' '
    ensures RemoveSpaces(x) != [] && RemoveSpaces(x)[|RemoveSpaces(x)| - 1] == x[|x| - 1]
  {
    if |x| > 1 {
      RemoveSpacesLast(x[1..]);
    }
  }

  /** The text `clean_year` hands to `int()` has no whitespace at either end,
      so the whitespace `ParseInt` cuts before reading the literal is none. */
  lemma ParseYearStripsOnce(heading: string)
    ensures var text := RemoveSpaces(Strip(heading)); Strip(text) == text
  {
    var x := Strip(heading);
    StripSpec(heading);
    if x != [] {
      RemoveSpacesLast(x);
      var text := RemoveSpaces(x);
      assert text[0] == x[0];
      StripUnpadded(text);
    }
  }

  /** A label that spells an integer, padded with whitespace on either side,
      normalises to that integer. */
  lemma ParseYearPadded(lead: string, n: int, trail: string)
    requires AllSpace(lead) && AllSpace(trail)
    ensures ParseYear(lead + FormatInt(n) + trail) == Some(n)
  {
    var f := FormatInt(n);
    StripPadded(lead, f, trail);
    RemoveSpacesIsFilter(f);
    Seqs.FilterKeepsAll(f, NotSpaceChar);
    ParseFormat(n);
  }
}
