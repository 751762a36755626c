/**
 * formatNumber for integers: `num.toString().replace(/\B(?=(\d{3})+(?!\d))/g, ",")`.
 * The global replacement inserts a ',' at every position of the string where the
 * pattern matches the empty string: `\B` holds there (the characters on both sides are
 * both word characters or both not), and the run of digits starting there is non-empty
 * and a whole number of groups of three.
 */
module NumberFormat {
  import opened Text

  /** A character `\w` matches. */
  predicate IsWordChar(c: char) {
    IsDigit(c) || 'a' <= c <= 'z' || 'A' <= c <= 'Z' || c == '_'
  }

  /** `\B` at position i: a word character on both sides of it, or on neither. */
  predicate NotAtBoundary(s: string, i: nat)
    requires i <= |s|
  {
    (i > 0 && IsWordChar(s[i - 1])) == (i < |s| && IsWordChar(s[i]))
  }

  /** The length of the run of digits starting at position i. */
  function DigitRun(s: string, i: nat): (r: nat)
    requires i <= |s|
    ensures r <= |s| - i
    decreases |s| - i
  {
    if i < |s| && IsDigit(s[i]) then 1 + DigitRun(s, i + 1) else 0
  }

  /** The pattern matches the empty string at position i. */
  predicate MatchesAt(s: string, i: nat)
    requires i <= |s|
  {
    NotAtBoundary(s, i) && DigitRun(s, i) > 0 && DigitRun(s, i) % 3 == 0
  }

  /** The replacement applied to s from position i on. */
  function Replace(s: string, i: nat): string
    requires i <= |s|
    decreases |s| - i
  {
    (if MatchesAt(s, i) then "," else "") + (if i == |s| then "" else [s[i]] + Replace(s, i + 1))
  }

  /** On a bare run of n digits the pattern matches just before digit i. */
  predicate CommaBefore(n: nat, i: nat) {
    0 < i < n && (n - i) % 3 == 0
  }

  /** The replacement on a bare digit string d, from position i to its end. */
  function Scan(d: string, i: nat): string
    requires i <= |d|
    decreases |d| - i
  {
    if i == |d| then ""
    else (if CommaBefore(|d|, i) then "," else "") + [d[i]] + Scan(d, i + 1)
  }

  /** Grouping by threes from the right: the reference the scan is compared against. */
  function Grouped(d: string): string {
    if |d| <= 3 then d else Grouped(d[..|d| - 3]) + "," + d[|d| - 3..]
  }

  /** A string with every ',' removed. */
  function StripCommas(s: string): (r: string)
    ensures ',' !in r
  {
    if s == [] then []
    else StripCommas(s[..|s| - 1]) + (if s[|s| - 1] == ',' then [] else [s[|s| - 1]])
  }

  /** A first group of one to three digits, then any number of ',' and exactly three digits. */
  predicate WellGrouped(s: string) {
    if |s| <= 4 then 1 <= |s| <= 3 && IsDigits(s)
    else s[|s| - 4] == ',' && IsDigits(s[|s| - 3..]) && WellGrouped(s[..|s| - 4])
  }

  lemma {:induction false} StripCommasAppend(a: string, b: string)
    ensures StripCommas(a + b) == StripCommas(a) + StripCommas(b)
  {
    if b != [] {
      assert (a + b)[..|a + b| - 1] == a + b[..|b| - 1];
      StripCommasAppend(a, b[..|b| - 1]);
    } else {
      assert a + b == a;
    }
  }

  lemma {:induction false} StripCommasOfDigits(d: string)
    requires IsDigits(d)
    ensures StripCommas(d) == d
  {
    if d != [] {
      var init, last := d[..|d| - 1], d[|d| - 1];
      assert IsDigits(init) && last != ',';
      StripCommasOfDigits(init);
      assert d == init + [last];
    }
  }

  lemma StripCommasOfComma()
    ensures StripCommas(",") == []
  {
    assert ","[..0] == [];
  }

  /** Deleting the commas gives back the digits. */
  lemma {:induction false} GroupedStripsToDigits(d: string)
    requires IsDigits(d)
    ensures StripCommas(Grouped(d)) == d
  {
    if |d| <= 3 {
      StripCommasOfDigits(d);
    } else {
      var p, t := d[..|d| - 3], d[|d| - 3..];
      assert IsDigits(p) && IsDigits(t);
      var g := Grouped(p);
      assert Grouped(d) == g + "," + t;
      var head := g + ",";
      assert StripCommas(head) == p by {
        GroupedStripsToDigits(p);
        StripCommasOfComma();
        StripCommasAppend(g, ",");
      }
      assert StripCommas(head + t) == p + t by {
        StripCommasAppend(head, t);
        StripCommasOfDigits(t);
      }
      assert p + t == d;
    }
  }

  /** The groups have the shape the source promises: 1 to 3 digits first, exactly 3 after each comma. */
  lemma {:induction false} GroupedIsWellGrouped(d: string)
    requires IsDigits(d) && |d| >= 1
    ensures WellGrouped(Grouped(d))
    ensures |Grouped(d)| <= 3 <==> |d| <= 3
  {
    if |d| > 3 {
      var p, t := d[..|d| - 3], d[|d| - 3..];
      GroupedIsWellGrouped(p);
      var s := Grouped(d);
      assert s == Grouped(p) + "," + t;
      assert s[..|s| - 4] == Grouped(p);
      assert s[|s| - 3..] == t;
    }
  }

  /** A run of at most three digits gets no comma. */
  lemma {:induction false} ScanShort(d: string, i: nat)
    requires i <= |d| <= 3
    ensures Scan(d, i) == d[i..]
    decreases |d| - i
  {
    if i < |d| {
      ScanShort(d, i + 1);
      assert d[i..] == [d[i]] + d[i + 1..];
    }
  }

  /** The last three digits of a longer run get one comma in front of them. */
  lemma ScanLastGroup(p: string, t: string)
    requires |p| >= 1 && |t| == 3
    ensures Scan(p + t, |p|) == "," + t
  {
    var d, n := p + t, |p|;
    assert Scan(d, n + 3) == "";
    assert !CommaBefore(|d|, n + 2) && d[n + 2] == t[2];
    assert Scan(d, n + 2) == [t[2]];
    assert !CommaBefore(|d|, n + 1) && d[n + 1] == t[1];
    assert Scan(d, n + 1) == [t[1], t[2]];
    assert CommaBefore(|d|, n) && d[n] == t[0];
  }

  /** Appending three digits to a non-empty run adds one comma before them and leaves the rest as it was. */
  lemma {:induction false} ScanAppendGroup(p: string, t: string, i: nat)
    requires |p| >= 1 && |t| == 3 && i <= |p|
    ensures Scan(p + t, i) == Scan(p, i) + "," + t
    decreases |p| - i
  {
    var d := p + t;
    if i == |p| {
      ScanLastGroup(p, t);
    } else {
      ScanAppendGroup(p, t, i + 1);
      var c := if CommaBefore(|p|, i) then "," else "";
      assert CommaBefore(|d|, i) == CommaBefore(|p|, i);
      assert Scan(d, i) == c + [p[i]] + Scan(d, i + 1) by {
        assert d[i] == p[i];
      }
      assert Scan(p, i) == c + [p[i]] + Scan(p, i + 1);
    }
  }

  /** The regular-expression replacement and grouping from the right agree on every digit string. */
  lemma {:induction false} ScanIsGrouped(d: string)
    ensures Scan(d, 0) == Grouped(d)
  {
    if |d| <= 3 {
      ScanShort(d, 0);
    } else {
      var p, t := d[..|d| - 3], d[|d| - 3..];
      ScanIsGrouped(p);
      ScanAppendGroup(p, t, 0);
      assert p + t == d;
    }
  }

  lemma {:induction false} DigitRunOfDigits(s: string, i: nat)
    requires i <= |s| && forall j :: i <= j < |s| ==> IsDigit(s[j])
    ensures DigitRun(s, i) == |s| - i
    decreases |s| - i
  {
    if i < |s| {
      DigitRunOfDigits(s, i + 1);
    }
  }

  /** On a bare digit string the replacement is the scan. */
  lemma {:induction false} ReplaceDigits(d: string, i: nat)
    requires IsDigits(d) && i <= |d|
    ensures Replace(d, i) == Scan(d, i)
    decreases |d| - i
  {
    DigitRunOfDigits(d, i);
    assert MatchesAt(d, i) == CommaBefore(|d|, i);
    if i < |d| {
      ReplaceDigits(d, i + 1);
    }
  }

  /** Past the sign, the pattern matches where it would on the bare digits. */
  lemma SignedMatch(d: string, i: nat)
    requires IsDigits(d) && i <= |d|
    ensures MatchesAt("-" + d, i + 1) == CommaBefore(|d|, i)
  {
    var s := "-" + d;
    forall k | i + 1 <= k < |s|
      ensures IsDigit(s[k])
    {
      assert s[k] == d[k - 1];
    }
    DigitRunOfDigits(s, i + 1);
    if 0 < i {
      assert s[i] == d[i - 1];
    }
  }

  /** After a '-' sign the replacement is the scan of the digits: no comma goes right after the sign. */
  lemma {:induction false} ReplaceSigned(d: string, i: nat)
    requires IsDigits(d) && i <= |d|
    ensures Replace("-" + d, i + 1) == Scan(d, i)
    decreases |d| - i
  {
    SignedMatch(d, i);
    if i < |d| {
      assert ("-" + d)[i + 1] == d[i];
      ReplaceSigned(d, i + 1);
    }
  }

  lemma StripCommasOfSign(x: string)
    ensures StripCommas("-" + x) == "-" + StripCommas(x)
  {
    StripCommasAppend("-", x);
    assert "-"[..0] == [];
  }

  /** formatNumber: the replacement over the whole decimal rendering, sign included. */
  function FormatNumber(n: int): (r: string)
    ensures StripCommas(r) == IntToString(n)
  {
    var s := IntToString(n);
    if n < 0 then
      var d := NatToString(-n);
      ReplaceSigned(d, 0);
      assert !MatchesAt(s, 0);
      assert Replace(s, 0) == "-" + Replace(s, 1);
      ScanIsGrouped(d);
      GroupedStripsToDigits(d);
      StripCommasOfSign(Scan(d, 0));
      Replace(s, 0)
    else
      ReplaceDigits(s, 0);
      ScanIsGrouped(s);
      GroupedStripsToDigits(s);
      Replace(s, 0)
  }

  /** formatNumber of a non-negative integer: its digits with commas, grouped by threes from the right. */
  lemma FormatNonNegative(n: nat)
    ensures StripCommas(FormatNumber(n)) == NatToString(n)
    ensures WellGrouped(FormatNumber(n))
    ensures |FormatNumber(n)| <= 3 <==> n < 1000
  {
    var d := NatToString(n);
    ReplaceDigits(d, 0);
    ScanIsGrouped(d);
    GroupedStripsToDigits(d);
    GroupedIsWellGrouped(d);
    NatToStringValue(n);
    ShortDigitsBelow1000(d);
  }

  /**
   * A negative integer keeps its sign in front of the grouped digits of its magnitude:
   * the positions before and right after the sign get no comma.
   */
  lemma FormatNegative(n: int)
    requires n < 0
    ensures FormatNumber(n) == "-" + FormatNumber(-n)
    ensures WellGrouped(FormatNumber(n)[1..])
  {
    var d := NatToString(-n);
    var s := IntToString(n);
    assert !MatchesAt(s, 0);
    assert Replace(s, 0) == "-" + Replace(s, 1);
    ReplaceSigned(d, 0);
    ReplaceDigits(d, 0);
    FormatNonNegative(-n);
  }

  lemma ShortDigitsBelow1000(d: string)
    requires IsDigits(d) && |d| >= 1 && (d[0] == '0' ==> |d| == 1)
    ensures |d| <= 3 <==> Value(d) < 1000
  {
    ValueBounds(d);
  }

  lemma {:induction false} ValueBounds(d: string)
    requires IsDigits(d) && |d| >= 1 && (d[0] == '0' ==> |d| == 1)
    ensures Value(d) < Pow10(|d|)
    ensures |d| >= 2 ==> Value(d) >= Pow10(|d| - 1)
  {
    if |d| >= 2 {
      var init := d[..|d| - 1];
      ValueBounds(init);
    }
  }

  function Pow10(k: nat): (r: nat)
    ensures r >= 1
  {
    if k == 0 then 1 else 10 * Pow10(k - 1)
  }
}
