/**
 * The two pieces of Python string handling the ranking extraction relies on:
 * `str.strip()` and `int(text)` for base-10 text.
 */
module Text {
  import opened Wrappers

  /** The characters Python's `str.isspace()` accepts. */
  predicate IsSpace(c: char) {
    || c == ' '
    || ('\U{9}' <= c <= '\U{D}')
    || ('\U{1C}' <= c <= '\U{1F}')
    || c == '\U{85}' || c == '\U{A0}' || c == '\U{1680}'
    || ('\U{2000}' <= c <= '\U{200A}')
    || c == '\U{2028}' || c == '\U{2029}' || c == '\U{202F}' || c == '\U{205F}' || c == '\U{3000}'
  }

  /** Which whitespace an operation discards at the ends of a text. */
  datatype Spaces =
    | StrSpaces   // `str.strip()`: every `str.isspace()` character
    | IntSpaces   // `int()`: the same but for U+001C..U+001F, which it does not skip

  predicate IsSpaceIn(w: Spaces, c: char) {
    IsSpace(c) && (w == IntSpaces ==> !('\U{1C}' <= c <= '\U{1F}'))
  }

  predicate AllSpace(w: Spaces, s: string) {
    forall i :: 0 <= i < |s| ==> IsSpaceIn(w, s[i])
  }

  /** `s.lstrip()` over the set w: the suffix of `s` left after its leading whitespace. */
  function TrimStart(w: Spaces, s: string): (r: string)
    ensures |r| <= |s|
  {
    if |s| > 0 && IsSpaceIn(w, s[0]) then TrimStart(w, s[1..]) else s
  }

  /** lstrip() removes a run of whitespace from the front and stops at the first other character. */
  lemma {:induction false} TrimStartSpec(w: Spaces, s: string)
    ensures var r := TrimStart(w, s);
      && r == s[|s| - |r|..]
      && AllSpace(w, s[..|s| - |r|])
      && (r != [] ==> !IsSpaceIn(w, r[0]))
  {
    if |s| > 0 && IsSpaceIn(w, s[0]) {
      TrimStartSpec(w, s[1..]);
      var r := TrimStart(w, s);
      assert s[..|s| - |r|] == [s[0]] + s[1..][..|s| - 1 - |r|];
    }
  }

  /** `s.rstrip()` over the set w: the prefix of `s` left before its trailing whitespace. */
  function TrimEnd(w: Spaces, s: string): (r: string)
    ensures |r| <= |s|
  {
    if |s| > 0 && IsSpaceIn(w, s[|s| - 1]) then TrimEnd(w, s[..|s| - 1]) else s
  }

  /** rstrip() removes a run of whitespace from the back and stops at the last other character. */
  lemma {:induction false} TrimEndSpec(w: Spaces, s: string)
    ensures var r := TrimEnd(w, s);
      && r == s[..|r|]
      && AllSpace(w, s[|r|..])
      && (r != [] ==> !IsSpaceIn(w, r[|r| - 1]))
  {
    if |s| > 0 && IsSpaceIn(w, s[|s| - 1]) {
      var init := s[..|s| - 1];
      TrimEndSpec(w, init);
      var r := TrimEnd(w, s);
      assert s[|r|..] == init[|r|..] + [s[|s| - 1]];
      assert r == init[..|r|] == s[..|r|];
    }
  }

  /** Both ends trimmed of the whitespace in w. */
  function StripBy(w: Spaces, s: string): string {
    TrimEnd(w, TrimStart(w, s))
  }

  /** `s.strip()`. */
  function Strip(s: string): string {
    StripBy(StrSpaces, s)
  }

  lemma {:induction false} TrimStartOfSpaces(w: Spaces, lead: string, rest: string)
    requires AllSpace(w, lead)
    requires rest == [] || !IsSpaceIn(w, rest[0])
    ensures TrimStart(w, lead + rest) == rest
  {
    if lead != [] {
      assert (lead + rest)[1..] == lead[1..] + rest;
      TrimStartOfSpaces(w, lead[1..], rest);
    }
  }

  lemma {:induction false} TrimEndOfSpaces(w: Spaces, rest: string, trail: string)
    requires AllSpace(w, trail)
    requires rest == [] || !IsSpaceIn(w, rest[|rest| - 1])
    ensures TrimEnd(w, rest + trail) == rest
  {
    if trail != [] {
      var t := trail[..|trail| - 1];
      assert (rest + trail)[..|rest + trail| - 1] == rest + t;
      TrimEndOfSpaces(w, rest, t);
    }
  }

  /**
   * Stripping returns exactly the middle part of any split of `s` into
   * whitespace, a part that neither starts nor ends with whitespace, and
   * whitespace; in particular a blank text strips to the empty string.
   */
  lemma StripSplit(w: Spaces, lead: string, mid: string, trail: string)
    requires AllSpace(w, lead) && AllSpace(w, trail)
    requires mid == [] || (!IsSpaceIn(w, mid[0]) && !IsSpaceIn(w, mid[|mid| - 1]))
    ensures StripBy(w, lead + mid + trail) == mid
  {
    assert lead + mid + trail == lead + (mid + trail);
    if mid == [] {
      TrimStartOfSpaces(w, lead + trail, []);
      assert lead + trail + [] == lead + mid + trail;
    } else {
      TrimStartOfSpaces(w, lead, mid + trail);
      TrimEndOfSpaces(w, mid, trail);
    }
  }

  /** The split `StripSplit` speaks of always exists: stripping drops whitespace only. */
  lemma StripIsInfix(w: Spaces, s: string)
    ensures var r := StripBy(w, s);
      exists i :: 0 <= i <= |s| - |r| && s[i..i + |r|] == r && AllSpace(w, s[..i]) && AllSpace(w, s[i + |r|..])
    ensures StripBy(w, s) != [] ==> !IsSpaceIn(w, StripBy(w, s)[0]) && !IsSpaceIn(w, StripBy(w, s)[|StripBy(w, s)| - 1])
  {
    var i := StripAt(w, s);
  }

  /** Where the stripped text starts in s, with whitespace only before and after it. */
  lemma StripAt(w: Spaces, s: string) returns (i: nat)
    ensures var r := StripBy(w, s);
      && i <= |s| - |r| && s[i..i + |r|] == r && AllSpace(w, s[..i]) && AllSpace(w, s[i + |r|..])
      && (r != [] ==> !IsSpaceIn(w, r[0]) && !IsSpaceIn(w, r[|r| - 1]))
  {
    var t := TrimStart(w, s);
    var r := TrimEnd(w, t);
    i := |s| - |t|;
    TrimStartSpec(w, s);
    TrimEndSpec(w, t);
    assert s[i..i + |r|] == t[..|r|] == r;
    assert s[i + |r|..] == t[|r|..];
  }

  predicate IsDigit(c: char) {
    '0' <= c <= '9'
  }

  function DigitValue(c: char): (d: nat)
    requires IsDigit(c)
    ensures d < 10
  {
    (c as int) - ('0' as int)
  }

  /**
   * The value of a run of ASCII decimal digits in which a single `_` may
   * separate two digits, as Python's `int()` accepts; None for anything else.
   */
  function ParseDigits(s: string): (r: Option<nat>)
    decreases |s|
  {
    if |s| == 0 || !IsDigit(s[|s| - 1]) then None
    else if |s| == 1 then Some(DigitValue(s[0]))
    else
      match ParseDigits(Head(s))
      case None => None
      case Some(v) => Some(10 * v + DigitValue(s[|s| - 1]))
  }

  /** What precedes the last character, without the separator in front of it if there is one. */
  function Head(s: string): (head: string)
    requires |s| > 1
    ensures |head| < |s| && head == s[..|head|]
    ensures |head| == |s| - 1 || (|head| == |s| - 2 && s[|s| - 2] == '_')
  {
    var init := s[..|s| - 1];
    if init[|init| - 1] == '_' then init[..|init| - 1] else init
  }

  /** Position i of s holds a digit, or an underscore between two digits. */
  predicate DigitOrSeparator(s: string, i: int)
    requires 0 <= i < |s|
  {
    IsDigit(s[i]) || (s[i] == '_' && 0 < i < |s| - 1 && IsDigit(s[i + 1]) && IsDigit(s[i - 1]))
  }

  /** Digits, with single underscores only between two digits. */
  predicate DigitsShape(s: string) {
    && |s| > 0
    && IsDigit(s[0])
    && IsDigit(s[|s| - 1])
    && forall i :: 0 <= i < |s| ==> DigitOrSeparator(s, i)
  }

  /** Only digit runs of that shape have a value: anything else is rejected. */
  lemma {:induction false} ParseDigitsShape(s: string)
    ensures ParseDigits(s).Some? ==> DigitsShape(s)
    decreases |s|
  {
    if ParseDigits(s).Some? && |s| > 1 {
      var head := Head(s);
      ParseDigitsShape(head);
      forall i | 0 <= i < |s|
        ensures DigitOrSeparator(s, i)
      {
        if i < |head| {
          assert DigitOrSeparator(head, i);
          assert s[i] == head[i];
          if i + 1 < |head| {
            assert s[i + 1] == head[i + 1];
          }
          if 0 < i {
            assert s[i - 1] == head[i - 1];
          }
        }
      }
    }
  }

  /** An integer literal with an optional sign, already stripped of whitespace. */
  function ParseLiteral(t: string): Option<int> {
    if |t| > 0 && (t[0] == '-' || t[0] == '+') then
      match ParseDigits(t[1..])
      case None => None
      case Some(v) => Some(if t[0] == '-' then -(v as int) else v as int)
    else
      match ParseDigits(t)
      case None => None
      case Some(v) => Some(v)
  }

  /** Python's `int(text)`: None where Python raises ValueError. */
  function ParseInt(text: string): Option<int> {
    ParseLiteral(StripBy(IntSpaces, text))
  }

  /** The digits of s, in order, without the separators. */
  function Digits(s: string): (ds: string)
    ensures forall i :: 0 <= i < |ds| ==> IsDigit(ds[i])
    decreases |s|
  {
    if s == [] then []
    else Digits(s[..|s| - 1]) + (if IsDigit(s[|s| - 1]) then [s[|s| - 1]] else [])
  }

  /** The number a run of decimal digits denotes. */
  function DecimalValue(ds: string): nat
    requires forall i :: 0 <= i < |ds| ==> IsDigit(ds[i])
    decreases |ds|
  {
    if ds == [] then 0 else 10 * DecimalValue(ds[..|ds| - 1]) + DigitValue(ds[|ds| - 1])
  }

  /** Dropping the last digit, and the separator before it if any, keeps the shape. */
  lemma ShapeHead(s: string)
    requires DigitsShape(s) && |s| > 1
    ensures DigitsShape(Head(s))
  {
    var n := |s|;
    var head := Head(s);
    assert DigitOrSeparator(s, n - 2);
    assert forall i :: 0 <= i < |head| ==> head[i] == s[i];
    forall i | 0 <= i < |head|
      ensures DigitOrSeparator(head, i)
    {
      assert DigitOrSeparator(s, i);
      assert DigitOrSeparator(s, i + 1);
    }
  }

  /** Every digit run of the accepted shape has a value: that of its digits. */
  lemma {:induction false} ParseDigitsComplete(s: string)
    requires DigitsShape(s)
    ensures ParseDigits(s) == Some(DecimalValue(Digits(s)))
    decreases |s|
  {
    var n := |s|;
    if n == 1 {
      assert Digits(s) == Digits(s[..0]) + [s[0]] == [s[0]];
      assert DecimalValue([s[0]]) == 10 * DecimalValue([]) + DigitValue(s[0]);
    } else {
      var head := Head(s);
      ShapeHead(s);
      ParseDigitsComplete(head);
      DigitsOfHead(s);
      DecimalValueAppend(Digits(head), s[n - 1]);
    }
  }

  lemma DigitsOfHead(s: string)
    requires DigitsShape(s) && |s| > 1
    ensures Digits(s) == Digits(Head(s)) + [s[|s| - 1]]
  {
    var init := s[..|s| - 1];
    if init[|init| - 1] == '_' {
      assert Digits(init) == Digits(init[..|init| - 1]) + [];
    }
  }

  lemma DecimalValueAppend(ds: string, d: char)
    requires forall i :: 0 <= i < |ds| ==> IsDigit(ds[i])
    requires IsDigit(d)
    ensures DecimalValue(ds + [d]) == 10 * DecimalValue(ds) + DigitValue(d)
  {
    assert (ds + [d])[..|ds|] == ds;
  }

  /**
   * `int()` in full: after stripping, a run of digits gives its value, a
   * sign followed by a run of digits gives the signed value, and anything
   * else is a ValueError.
   */
  lemma ParseIntSpec(text: string)
    ensures var t := StripBy(IntSpaces, text);
      ParseInt(text) ==
        if DigitsShape(t) then Some(DecimalValue(Digits(t)) as int)
        else if |t| > 0 && (t[0] == '-' || t[0] == '+') && DigitsShape(t[1..]) then
          Some(if t[0] == '-' then -(DecimalValue(Digits(t[1..])) as int) else DecimalValue(Digits(t[1..])))
        else None
  {
    var t := StripBy(IntSpaces, text);
    ParseDigitsShape(t);
    if DigitsShape(t) {
      ParseDigitsComplete(t);
    }
    if |t| > 0 {
      ParseDigitsShape(t[1..]);
      if DigitsShape(t[1..]) {
        ParseDigitsComplete(t[1..]);
      }
    }
  }

  function DigitChar(d: nat): (c: char)
    requires d < 10
    ensures IsDigit(c) && DigitValue(c) == d
  {
    ('0' as int + d) as char
  }

  /** The decimal text of a natural number, as Python's `str()` writes it. */
  function ShowNat(n: nat): (s: string)
    ensures |s| > 0 && forall i :: 0 <= i < |s| ==> IsDigit(s[i])
  {
    if n < 10 then [DigitChar(n)] else ShowNat(n / 10) + [DigitChar(n % 10)]
  }

  function ShowInt(x: int): string {
    if x < 0 then "-" + ShowNat(-x) else ShowNat(x)
  }

  lemma {:induction false} ParseShowNat(n: nat)
    ensures ParseDigits(ShowNat(n)) == Some(n)
  {
    if n >= 10 {
      var s := ShowNat(n);
      ParseShowNat(n / 10);
      assert s[..|s| - 1] == ShowNat(n / 10);
    }
  }

  lemma ParseLiteralShowInt(x: int)
    ensures ParseLiteral(ShowInt(x)) == Some(x)
  {
    var t := ShowInt(x);
    if x < 0 {
      assert t[0] == '-' && t[1..] == ShowNat(-x);
      ParseShowNat(-x);
    } else {
      assert t == ShowNat(x) && IsDigit(t[0]);
      ParseShowNat(x);
    }
  }

  /** `int()` reads back every integer written in decimal, surrounded by any whitespace it skips. */
  lemma ParseShowInt(x: int, lead: string, trail: string)
    requires AllSpace(IntSpaces, lead) && AllSpace(IntSpaces, trail)
    ensures ParseInt(lead + ShowInt(x) + trail) == Some(x)
  {
    var t := ShowInt(x);
    var digits := ShowNat(if x < 0 then -x else x);
    assert t[|t| - 1] == digits[|digits| - 1];
    assert !IsSpaceIn(IntSpaces, t[0]) && !IsSpaceIn(IntSpaces, t[|t| - 1]);
    StripSplit(IntSpaces, lead, t, trail);
    ParseLiteralShowInt(x);
  }

  /** `int()` accepts separators between digits. */
  lemma SeparatedInt()
    ensures ParseInt("1_000") == Some(1000)
  {
    StripSplit(IntSpaces, "", "1_000", "");
    assert "" + "1_000" + "" == "1_000";
    SeparatedDigits();
  }

  lemma SeparatedDigits()
    ensures ParseDigits("1_000") == Some(1000)
  {
    assert Head("1_000") == "1_00";
    assert Head("1_00") == "1_0";
    assert Head("1_0") == "1";
    assert ParseDigits("1") == Some(1);
  }

  /** `int()` accepts leading zeros and skips surrounding whitespace. */
  lemma PaddedInt()
    ensures ParseInt(" 007\n") == Some(7)
  {
    StripSplit(IntSpaces, " ", "007", "\n");
    assert " " + "007" + "\n" == " 007\n";
    PaddedDigits();
  }

  lemma PaddedDigits()
    ensures ParseDigits("007") == Some(7)
  {
    assert Head("007") == "00";
    assert Head("00") == "0";
    assert ParseDigits("0") == Some(0);
  }

  /**
   * A file separator (U+001C) in front is whitespace to `str.strip()`, so
   * the cell is not blank, but `int()` does not skip it and rejects the text.
   */
  lemma SeparatorCharRejected()
    ensures Strip("\U{1C}42") == "42"
    ensures ParseInt("\U{1C}42") == None
  {
    StripSplit(StrSpaces, "\U{1C}", "42", "");
    assert "\U{1C}" + "42" + "" == "\U{1C}42";
    StripSplit(IntSpaces, "", "\U{1C}42", "");
    assert "" + "\U{1C}42" + "" == "\U{1C}42";
    ParseDigitsShape("\U{1C}42");
  }
}
