/** `format_won`: delete every comma, parse what is left with Python's `int()`, and print
    the integer with a comma between each group of three digits followed by `원`; text that
    `int()` rejects becomes `공고 참조` ("see the notice"). */
module WonFormat {
  import opened Wrappers

  const WonSuffix: string := "원"
  const SeeNotice: string := "공고 참조"

  // ---------------------------------------------------------------- input side

  /** `s.replace(",", "")`. */
  function RemoveCommas(s: string): (r: string)
    ensures forall i :: 0 <= i < |r| ==> r[i] != ','
    ensures |r| <= |s|
  {
    if s == [] then [] else (if s[0] == ',' then "" else [s[0]]) + RemoveCommas(s[1..])
  }

  lemma {:induction false} RemoveCommasAppend(a: string, b: string)
    ensures RemoveCommas(a + b) == RemoveCommas(a) + RemoveCommas(b)
  {
    if a == [] {
      assert a + b == b;
    } else {
      assert (a + b)[1..] == a[1..] + b;
      RemoveCommasAppend(a[1..], b);
    }
  }

  lemma {:induction false} RemoveCommasNoCommas(s: string)
    requires forall i :: 0 <= i < |s| ==> s[i] != ','
    ensures RemoveCommas(s) == s
  {
    if s != [] {
      RemoveCommasNoCommas(s[1..]);
    }
  }

  /** The characters Python's `int()` strips around a number: the ASCII space and `\t`..`\r`,
      and the non-ASCII whitespace characters, which it first maps to a space. The separators
      U+001C..U+001F satisfy `str.isspace` but are not stripped. */
  predicate IsPySpace(c: char)
  {
    || c == ' '
    || '\t' <= c <= '\r'
    || c == '\U{85}'
    || c == '\U{A0}'
    || c == '\U{1680}'
    || '\U{2000}' <= c <= '\U{200A}'
    || c == '\U{2028}'
    || c == '\U{2029}'
    || c == '\U{202F}'
    || c == '\U{205F}'
    || c == '\U{3000}'
  }

  predicate IsDigit(c: char)
  {
    '0' <= c <= '9'
  }

  predicate AllDigits(s: string)
  {
    forall i :: 0 <= i < |s| ==> IsDigit(s[i])
  }

  function TrimStart(s: string): string
  {
    if s != [] && IsPySpace(s[0]) then TrimStart(s[1..]) else s
  }

  function TrimEnd(s: string): string
  {
    if s != [] && IsPySpace(s[|s| - 1]) then TrimEnd(s[..|s| - 1]) else s
  }

  function Strip(s: string): string
  {
    TrimEnd(TrimStart(s))
  }

  /** A digit string as `int()` accepts it (PEP 515): ASCII digits, where single
      underscores may separate two digits. */
  predicate IsDigitString(u: string)
  {
    && |u| > 0
    && IsDigit(u[0])
    && IsDigit(u[|u| - 1])
    && (forall i :: 0 <= i < |u| ==> IsDigit(u[i]) || u[i] == '_')
    && (forall i :: 0 <= i < |u| - 1 ==> u[i] == '_' ==> u[i + 1] != '_')
  }

  function RemoveUnderscores(u: string): (r: string)
    ensures (forall i :: 0 <= i < |u| ==> IsDigit(u[i]) || u[i] == '_') ==> AllDigits(r)
  {
    if u == [] then [] else (if u[0] == '_' then "" else [u[0]]) + RemoveUnderscores(u[1..])
  }

  function DigitValue(c: char): nat
    requires IsDigit(c)
  {
    c as int - '0' as int
  }

  /** The number a string of decimal digits denotes. */
  function DigitsValue(ds: string): nat
    requires AllDigits(ds)
  {
    if ds == [] then 0 else DigitsValue(ds[..|ds| - 1]) * 10 + DigitValue(ds[|ds| - 1])
  }

  /** The unsigned part of a numeral: `None` unless it is a digit string. */
  function ParseUnsigned(u: string): Option<nat>
  {
    if IsDigitString(u) then Some(DigitsValue(RemoveUnderscores(u))) else None
  }

  /** An optional sign followed by an unsigned part. */
  function ParseSigned(t: string): Option<int>
  {
    if |t| > 0 && (t[0] == '+' || t[0] == '-') then
      match ParseUnsigned(t[1..])
      case Some(n) => Some(if t[0] == '-' then -(n as int) else n)
      case None => None
    else
      match ParseUnsigned(t)
      case Some(n) => Some(n)
      case None => None
  }

  /** Python's `int(s)` on a string: `None` where it raises ValueError. */
  function ParseInt(s: string): Option<int>
  {
    ParseSigned(Strip(s))
  }

  // --------------------------------------------------------------- output side

  function DigitChar(d: nat): (c: char)
    requires d < 10
    ensures IsDigit(c) && DigitValue(c) == d
  {
    ('0' as int + d) as char
  }

  /** The decimal numeral of `n`, without leading zeros. */
  function DecimalDigits(n: nat): (r: string)
    ensures 1 <= |r| && AllDigits(r)
  {
    if n < 10 then [DigitChar(n)] else DecimalDigits(n / 10) + [DigitChar(n % 10)]
  }

  /** The three-digit group of `r`, with leading zeros. */
  function Pad3(r: nat): (g: string)
    requires r < 1000
    ensures |g| == 3 && AllDigits(g)
  {
    [DigitChar(r / 100), DigitChar(r / 10 % 10), DigitChar(r % 10)]
  }

  /** Python's `format(n, ",")` for `n >= 0`. */
  function Grouped(n: nat): (g: string)
    ensures 1 <= |g| && IsDigit(g[0]) && IsDigit(g[|g| - 1])
  {
    if n < 1000 then DecimalDigits(n) else Grouped(n / 1000) + "," + Pad3(n % 1000)
  }

  /** Python's `f"{n:,}"`. */
  function WithThousands(n: int): string
  {
    if n < 0 then "-" + Grouped(-n) else Grouped(n)
  }

  /** `format_won(amount)` for a string `amount`. */
  function FormatWon(amount: string): (r: string)
    ensures r == SeeNotice <==> ParseInt(RemoveCommas(amount)) == None
    ensures ParseInt(RemoveCommas(amount)).Some? ==> |r| >= 2 && r[|r| - 1] == '원'
  {
    match ParseInt(RemoveCommas(amount))
    case Some(n) =>
      var r := WithThousands(n) + WonSuffix;
      assert r[|r| - 1] == '원' && SeeNotice[|SeeNotice| - 1] == '조';
      r
    case None => SeeNotice
  }

  // ------------------------------------------------------------------ lemmas

  /** Reading back a numeral gives its number. */
  lemma {:induction false} DecimalDigitsValue(n: nat)
    ensures DigitsValue(DecimalDigits(n)) == n
  {
    if n >= 10 {
      DecimalDigitsValue(n / 10);
      var ds := DecimalDigits(n);
      assert ds[..|ds| - 1] == DecimalDigits(n / 10);
    }
  }

  /** A numeral has no leading zero unless it is the numeral of zero, and has at most three
      digits below 1000. */
  lemma {:induction false} DecimalDigitsShape(n: nat)
    ensures DecimalDigits(n)[0] == '0' <==> n == 0
    ensures n < 1000 ==> |DecimalDigits(n)| <= 3
  {
    if n >= 10 {
      DecimalDigitsShape(n / 10);
    }
  }

  /** The numeral of `q * 1000 + r` is that of `q` followed by the three digits of `r`. */
  lemma DecimalDigitsSplit(q: nat, r: nat)
    requires 1 <= q && r < 1000
    ensures DecimalDigits(q * 1000 + r) == DecimalDigits(q) + Pad3(r)
  {
    var n := q * 1000 + r;
    var n1 := q * 100 + r / 10;
    var n2 := q * 10 + r / 100;
    assert n / 10 == n1 && n % 10 == r % 10;
    assert n1 / 10 == n2 && n1 % 10 == r / 10 % 10;
    assert n2 / 10 == q && n2 % 10 == r / 100;
    calc {
      DecimalDigits(n);
      DecimalDigits(n1) + [DigitChar(r % 10)];
      DecimalDigits(n2) + [DigitChar(r / 10 % 10)] + [DigitChar(r % 10)];
      DecimalDigits(q) + [DigitChar(r / 100)] + [DigitChar(r / 10 % 10)] + [DigitChar(r % 10)];
      DecimalDigits(q) + Pad3(r);
    }
  }

  /** Deleting the commas of the grouped form gives the plain numeral, which has no
      leading zero: the grouping only inserts separators. */
  lemma {:induction false} GroupedDigits(n: nat)
    ensures RemoveCommas(Grouped(n)) == DecimalDigits(n)
  {
    if n < 1000 {
      RemoveCommasNoCommas(DecimalDigits(n));
    } else {
      var q, r := n / 1000, n % 1000;
      var h, p := Grouped(q), Pad3(r);
      GroupedDigits(q);
      RemoveCommasAppend(h + ",", p);
      RemoveCommasAppend(h, ",");
      RemoveCommasNoCommas(p);
      DecimalDigitsSplit(q, r);
      calc {
        RemoveCommas(Grouped(n));
        RemoveCommas(h + "," + p);
        RemoveCommas(h + ",") + RemoveCommas(p);
        RemoveCommas(h) + RemoveCommas(",") + p;
        { assert RemoveCommas(",") == ""; }
        DecimalDigits(q) + p;
        DecimalDigits(q * 1000 + r);
      }
    }
  }

  /** Commas stand exactly at the positions followed by a positive multiple of three digits,
      and every other character is a digit. */
  predicate CommaGrouped(g: string)
  {
    forall i :: 0 <= i < |g| ==> (g[i] == ',' <==> (|g| - i) % 4 == 0) && (g[i] != ',' ==> IsDigit(g[i]))
  }

  lemma ShortNumeralGrouped(d: string)
    requires AllDigits(d) && |d| <= 3
    ensures CommaGrouped(d)
  {
  }

  lemma AppendGroup(h: string, p: string)
    requires CommaGrouped(h) && |p| == 3 && AllDigits(p)
    ensures CommaGrouped(h + "," + p)
  {
    var g := h + "," + p;
    forall i | 0 <= i < |g|
      ensures (g[i] == ',' <==> (|g| - i) % 4 == 0) && (g[i] != ',' ==> IsDigit(g[i]))
    {
      if i < |h| {
        assert g[i] == h[i];
        ModFour(|h| - i);
      } else if i > |h| {
        assert g[i] == p[i - |h| - 1];
      }
    }
  }

  /** Where the commas of the grouped form stand: every group after the first has three
      digits, the first has one to three, and nothing but digits lies between them. */
  lemma {:induction false} GroupedShape(n: nat)
    ensures CommaGrouped(Grouped(n))
  {
    if n < 1000 {
      DecimalDigitsShape(n);
      ShortNumeralGrouped(DecimalDigits(n));
    } else {
      GroupedShape(n / 1000);
      AppendGroup(Grouped(n / 1000), Pad3(n % 1000));
    }
  }

  lemma ModFour(x: int)
    ensures (x + 4) % 4 == x % 4
  {
  }

  lemma {:induction false} TrimStartNoSpace(s: string)
    requires s != [] && !IsPySpace(s[0])
    ensures TrimStart(s) == s
  {
  }

  lemma StripUnchanged(s: string)
    requires s != [] && !IsPySpace(s[0]) && !IsPySpace(s[|s| - 1])
    ensures Strip(s) == s
  {
    TrimStartNoSpace(s);
  }

  lemma {:induction false} RemoveUnderscoresNone(s: string)
    requires AllDigits(s)
    ensures RemoveUnderscores(s) == s
  {
    if s != [] {
      RemoveUnderscoresNone(s[1..]);
    }
  }

  lemma ParseUnsignedNumeral(n: nat)
    ensures ParseUnsigned(DecimalDigits(n)) == Some(n)
  {
    RemoveUnderscoresNone(DecimalDigits(n));
    DecimalDigitsValue(n);
  }

  /** `int()` reads back the numeral of `n`, and the numeral of `n` with a minus sign. */
  lemma ParseNumeral(n: nat)
    ensures ParseInt(DecimalDigits(n)) == Some(n)
    ensures ParseInt("-" + DecimalDigits(n)) == Some(-(n as int))
  {
    var ds := DecimalDigits(n);
    ParseUnsignedNumeral(n);
    StripUnchanged(ds);
    assert ParseSigned(ds) == Some(n);
    var neg := "-" + ds;
    StripUnchanged(neg);
    assert neg[1..] == ds;
    assert ParseSigned(neg) == Some(-(n as int));
  }

  /** Round trip: deleting the commas of Python's `f"{n:,}"` and parsing gives back `n`. */
  lemma WithThousandsRoundTrip(n: int)
    ensures ParseInt(RemoveCommas(WithThousands(n))) == Some(n)
  {
    if n < 0 {
      var m: nat := -n;
      GroupedDigits(m);
      RemoveCommasAppend("-", Grouped(m));
      assert RemoveCommas("-") == "-";
      assert RemoveCommas(WithThousands(n)) == "-" + DecimalDigits(m);
      ParseNumeral(m);
    } else {
      GroupedDigits(n);
      ParseNumeral(n);
    }
  }

  /** Round trip through `format_won`: the output, with its `원` suffix and its commas
      deleted, parses to the integer the input denoted. */
  lemma FormatWonRoundTrip(amount: string, n: int)
    requires ParseInt(RemoveCommas(amount)) == Some(n)
    ensures var out := FormatWon(amount);
      |out| >= 2 && out[|out| - 1] == '원' && ParseInt(RemoveCommas(out[..|out| - 1])) == Some(n)
  {
    var out := FormatWon(amount);
    assert out[..|out| - 1] == WithThousands(n);
    WithThousandsRoundTrip(n);
  }

  /** Two amounts print the same exactly when they parse to the same value (or both fail
      to parse); in particular where the commas stand in the input does not matter. */
  lemma FormatWonDeterminedByValue(a: string, b: string)
    ensures FormatWon(a) == FormatWon(b) <==> ParseInt(RemoveCommas(a)) == ParseInt(RemoveCommas(b))
  {
    var pa, pb := ParseInt(RemoveCommas(a)), ParseInt(RemoveCommas(b));
    if FormatWon(a) == FormatWon(b) && pa.Some? && pb.Some? {
      FormatWonRoundTrip(a, pa.value);
      FormatWonRoundTrip(b, pb.value);
    }
  }

  /** A leading file separator U+001C is not stripped, so `int()` fails and `format_won` falls
      back to the notice text. */
  lemma SeparatorNotStripped()
    ensures ParseInt("\U{1C}12") == None
    ensures FormatWon("\U{1C}12") == SeeNotice
  {
    var s := "\U{1C}12";
    assert !IsPySpace(s[0]) && TrimStart(s) == s;
    assert !IsPySpace(s[|s| - 1]) && TrimEnd(s) == s;
    assert !IsDigit(s[0]) && ParseUnsigned(s) == None;
    RemoveCommasNoCommas(s);
  }

  /** A leading non-breaking space U+00A0 is stripped, as any non-ASCII whitespace is. */
  lemma NoBreakSpaceStripped()
    ensures ParseInt("\U{A0}12") == Some(12)
  {
    var t := "\U{A0}12";
    assert IsPySpace(t[0]) && t[1..] == "12";
    assert TrimStart(t) == "12";
    assert TrimEnd("12") == "12";
    ParseNumeral(12);
    assert DecimalDigits(12) == "12" by {
      assert DecimalDigits(1) == "1";
    }
  }
}
