/** Field extraction for listing cards and the count normaliser (src/parser.py). */
module Parser {
  import opened Wrappers
  import opened Text
  import opened Numerals

  // ---------------------------------------------------------------------------
  // normalize_count
  // ---------------------------------------------------------------------------

  /** The magnitude suffixes that mean "times ten thousand". */
  const WanSuffixes: set<char> := {'万', 'w', 'W'}

  predicate IsNumberChar(c: char) {
    IsDigit(c) || c == '.'
  }

  /** A decimal literal as Python's float() reads one made of digits and at
      most one point: the digits before the point and the digits after it. */
  datatype Decimal = Decimal(whole: string, fraction: string)

  /** float(s) for a string over digits and points: a literal with at most
      one point and at least one digit; anything else raises ValueError. */
  function ParseDecimal(s: string): (r: Option<Decimal>)
    ensures r.Some? ==> AllDigits(r.value.whole) && AllDigits(r.value.fraction)
    ensures r.Some? ==> r.value.whole != [] || r.value.fraction != []
    ensures r.Some? ==> s == r.value.whole || s == r.value.whole + "." + r.value.fraction
  {
    var whole := BeforeFirst(s, '.');
    var fraction := if |whole| < |s| then s[|whole| + 1..] else [];
    if AllDigits(whole) && AllDigits(fraction) && (whole != [] || fraction != []) then
      assert |whole| < |s| ==> s == whole + "." + fraction;
      Some(Decimal(whole, fraction))
    else None
  }

  /** int(x) for the value x of a decimal literal: the fraction is dropped. */
  function Truncated(d: Decimal): nat
    requires AllDigits(d.whole)
  {
    DigitsValue(d.whole)
  }

  /** The first four fraction digits, padded with zeros. */
  function FourPlaces(fraction: string): (r: string)
    requires AllDigits(fraction)
    ensures |r| == 4 && AllDigits(r)
  {
    var padded := fraction + "0000";
    assert AllDigits(padded) by { AllDigitsAppend(fraction, "0000"); }
    padded[..4]
  }

  /** int(x * 10000) for the exact value x of a decimal literal: truncation,
      never rounding. */
  function TruncatedWan(d: Decimal): nat
    requires AllDigits(d.whole) && AllDigits(d.fraction)
  {
    DigitsValue(d.whole) * 10000 + DigitsValue(FourPlaces(d.fraction))
  }

  predicate AllNumberChars(s: string) {
    forall i :: 0 <= i < |s| ==> IsNumberChar(s[i])
  }

  /** The number part of a text matched by ^([\d.]+)\s*[万wW]$, if it matches.
      Python's `$` also matches just before a final newline, so one trailing
      '\n' after the suffix is allowed. */
  function WanNumber(t: string): (r: Option<string>)
    ensures r.Some? ==> r.value != [] && AllNumberChars(r.value)
    ensures r.Some? ==> |r.value| < |t| && r.value == t[..|r.value|]
    ensures r.Some? ==>
              t[|t| - 1] in WanSuffixes || (|t| > 1 && t[|t| - 1] == '\n' && t[|t| - 2] in WanSuffixes)
  {
    var body := if |t| > 0 && t[|t| - 1] == '\n' then t[..|t| - 1] else t;
    if |body| > 0 && body[|body| - 1] in WanSuffixes then
      var number := TrimEnd(body[..|body| - 1], Whitespace);
      if number != [] && AllNumberChars(number) then Some(number) else None
    else None
  }

  /** text.strip().replace(",", "") */
  function Cleaned(text: string): string {
    RemoveAll(Strip(text), ',')
  }

  /** int(float(number) * 10000), or 0 when float() raises. */
  function ReadWan(number: string): nat {
    match ParseDecimal(number)
    case Some(d) => TruncatedWan(d)
    case None => 0
  }

  /** int(float(t)), or 0 when float() raises: surrounding whitespace and one
      leading sign are accepted, and int() truncates toward zero. */
  function ReadPlain(t: string): int {
    var plain := Strip(t);
    var negative := |plain| > 0 && plain[0] == '-';
    var body := if |plain| > 0 && (plain[0] == '-' || plain[0] == '+') then plain[1..] else plain;
    match ParseDecimal(body)
    case Some(d) =>
      var magnitude: int := Truncated(d);
      if negative then -magnitude else magnitude
    case None => 0
  }

  /** normalize_count: strip, drop every comma, then read "<number><suffix>"
      as number times 10000 or else the whole text as a number, truncating;
      0 when the text is empty or does not parse. */
  function NormalizeCount(text: string): (n: int)
    ensures text == [] ==> n == 0
  {
    if text == [] then 0
    else
      var t := Cleaned(text);
      match WanNumber(t)
      case Some(number) => ReadWan(number)
      case None => ReadPlain(t)
  }

  lemma {:induction false} BeforeFirstAbsent(s: string, c: char)
    requires c !in s
    ensures BeforeFirst(s, c) == s
    decreases |s|
  {
    if s != [] {
      BeforeFirstAbsent(s[1..], c);
    }
  }

  lemma {:induction false} BeforeFirstAt(a: string, c: char, b: string)
    requires c !in a
    ensures BeforeFirst(a + [c] + b, c) == a
    decreases |a|
  {
    if a == [] {
      assert a + [c] + b == [c] + b;
    } else {
      assert (a + [c] + b)[1..] == a[1..] + [c] + b;
      BeforeFirstAt(a[1..], c, b);
    }
  }

  lemma DigitsAreNumberChars(s: string)
    requires AllDigits(s)
    ensures AllNumberChars(s) && ',' !in s && '.' !in s && '-' !in s && '+' !in s
    ensures s != [] ==> s[0] !in Whitespace && s[|s| - 1] !in Whitespace && s[|s| - 1] !in WanSuffixes
  {
  }

  /** A digit string is read as a whole number. */
  lemma ParseDigits(s: string)
    requires s != [] && AllDigits(s)
    ensures ParseDecimal(s) == Some(Decimal(s, []))
  {
    BeforeFirstAbsent(s, '.');
  }

  /** A literal "<digits>.<digits>" with at least one digit is read as its two
      digit strings. */
  lemma ParsePointed(whole: string, fraction: string)
    requires AllDigits(whole) && AllDigits(fraction)
    requires whole != [] || fraction != []
    ensures ParseDecimal(whole + "." + fraction) == Some(Decimal(whole, fraction))
  {
    var s := whole + "." + fraction;
    assert s == whole + ['.'] + fraction;
    BeforeFirstAt(whole, '.', fraction);
    assert s[|whole| + 1..] == fraction;
  }

  /** A lone point, or two points, is not a literal. */
  lemma ParseRejects(a: string, b: string, c: string)
    requires AllDigits(a) && AllDigits(b) && AllDigits(c)
    ensures ParseDecimal(".") == None
    ensures ParseDecimal(a + "." + b + "." + c) == None
  {
    assert "." == [] + ['.'] + [];
    BeforeFirstAt([], '.', []);
    var s := a + "." + b + "." + c;
    assert s == a + ['.'] + (b + "." + c);
    DigitsAreNumberChars(a);
    BeforeFirstAt(a, '.', b + "." + c);
    assert s[|a| + 1..] == b + "." + c;
    assert (b + "." + c)[|b|] == '.';
  }

  /** A digit string with at least one digit reads as its value on the plain path. */
  lemma ReadPlainDigits(s: string)
    requires s != [] && AllDigits(s)
    ensures ReadPlain(s) == DigitsValue(s)
  {
    DigitsAreNumberChars(s);
    TrimClean(s, Whitespace);
    ParseDigits(s);
  }

  /** Surrounding whitespace is ignored: "  500  " reads as 500, and every
      rendered number reads back as itself. */
  lemma PlainCount(front: string, n: nat, back: string)
    requires forall i :: 0 <= i < |front| ==> front[i] in Whitespace
    requires forall i :: 0 <= i < |back| ==> back[i] in Whitespace
    ensures NormalizeCount(front + NatToString(n) + back) == n
  {
    var digits := NatToString(n);
    DigitsAreNumberChars(digits);
    TrimPadded(front, digits, back, Whitespace);
    RemoveAllAbsent(digits, ',');
    assert Cleaned(front + digits + back) == digits;
    assert WanNumber(digits) == None;
    ReadPlainDigits(digits);
  }

  /** A leading minus sign negates: "-5" reads as -5. */
  lemma NegativeCount(n: nat)
    ensures NormalizeCount("-" + NatToString(n)) == -(n as int)
  {
    var digits := NatToString(n);
    var text := "-" + digits;
    DigitsAreNumberChars(digits);
    assert text[1..] == digits;
    TrimClean(text, Whitespace);
    assert ',' !in text;
    RemoveAllAbsent(text, ',');
    assert Cleaned(text) == text;
    assert WanNumber(text) == None;
    ParseDigits(digits);
  }

  lemma {:induction false} RemoveAllDigits(s: string)
    requires forall i :: 0 <= i < |s| ==> IsDigit(s[i]) || s[i] == ','
    ensures AllDigits(RemoveAll(s, ','))
    ensures s != [] && s[0] != ',' ==> RemoveAll(s, ',') != [] && RemoveAll(s, ',')[0] == s[0]
    ensures s != [] && s[|s| - 1] != ',' ==> RemoveAll(s, ',') != [] && RemoveAll(s, ',')[|RemoveAll(s, ',')| - 1] == s[|s| - 1]
    decreases |s|
  {
    if s != [] {
      RemoveAllDigits(s[1..]);
    }
  }

  /** Commas between digits are ignored: "3,240" reads as 3240. */
  lemma CommaGroupedCount(s: string)
    requires forall i :: 0 <= i < |s| ==> IsDigit(s[i]) || s[i] == ','
    requires s != [] && s[0] != ',' && s[|s| - 1] != ','
    ensures AllDigits(RemoveAll(s, ','))
    ensures NormalizeCount(s) == DigitsValue(RemoveAll(s, ','))
  {
    var t := RemoveAll(s, ',');
    RemoveAllDigits(s);
    DigitsAreNumberChars(t);
    CommaGroupedClean(s);
    assert WanNumber(t) == None;
    ViaPlain(s, t);
    ReadPlainDigits(t);
  }

  /** Digits and commas that begin and end with a digit have no surrounding
      whitespace, so cleaning only drops the commas. */
  lemma CommaGroupedClean(s: string)
    requires forall i :: 0 <= i < |s| ==> IsDigit(s[i]) || s[i] == ','
    requires s != [] && s[0] != ',' && s[|s| - 1] != ','
    ensures Cleaned(s) == RemoveAll(s, ',')
  {
    assert IsDigit(s[0]) && IsDigit(s[|s| - 1]);
    TrimClean(s, Whitespace);
  }

  /** Once the cleaned text is known and the suffix pattern fails, the count
      is read from the whole cleaned text. */
  lemma ViaPlain(text: string, t: string)
    requires text != [] && Cleaned(text) == t && WanNumber(t) == None
    ensures NormalizeCount(text) == ReadPlain(t)
  {
  }

  lemma NumberCharsConcat(a: string, b: string)
    requires AllNumberChars(a) && AllNumberChars(b)
    ensures AllNumberChars(a + b)
  {
    assert forall i :: 0 <= i < |a + b| ==> (a + b)[i] == if i < |a| then a[i] else b[i - |a|];
  }

  /** A number that begins and ends with a digit is already clean and carries
      no suffix. */
  lemma NumberClean(s: string)
    requires s != [] && AllNumberChars(s) && IsDigit(s[0]) && IsDigit(s[|s| - 1])
    ensures NormalizeCount(s) == ReadPlain(s) && Strip(s) == s
  {
    NumberCleanFacts(s);
    ViaPlain(s, s);
  }

  lemma NumberCleanFacts(s: string)
    requires s != [] && AllNumberChars(s) && IsDigit(s[0]) && IsDigit(s[|s| - 1])
    ensures Cleaned(s) == s && WanNumber(s) == None && Strip(s) == s
  {
    assert s[|s| - 1] != '\n' && s[|s| - 1] !in WanSuffixes;
    TrimClean(s, Whitespace);
    assert ',' !in s;
    RemoveAllAbsent(s, ',');
  }

  /** The shared step of the suffix lemmas: the text is its own cleaned form
      and the regular expression captures exactly the number. */
  lemma WanPattern(number: string, gap: string, suffix: char)
    requires number != [] && IsDigit(number[0]) && IsDigit(number[|number| - 1])
    requires AllNumberChars(number)
    requires forall i :: 0 <= i < |gap| ==> gap[i] in Whitespace
    requires suffix in WanSuffixes
    ensures NormalizeCount(number + gap + [suffix]) == ReadWan(number)
  {
    var text := number + gap + [suffix];
    assert |text| > 0;
    assert text != [];
    WanTextCapture(number, gap, suffix);
    WanTextClean(number, gap, suffix);
  }

  lemma WanTextClean(number: string, gap: string, suffix: char)
    requires number != [] && IsDigit(number[0])
    requires AllNumberChars(number)
    requires forall i :: 0 <= i < |gap| ==> gap[i] in Whitespace
    requires suffix in WanSuffixes
    ensures Cleaned(number + gap + [suffix]) == number + gap + [suffix]
  {
    var text := number + gap + [suffix];
    assert text[0] == number[0];
    assert text[|text| - 1] == suffix;
    TrimClean(text, Whitespace);
    forall i | 0 <= i < |text| ensures text[i] != ',' {
      if i < |number| {
        assert text[i] == number[i];
      } else if i < |number| + |gap| {
        assert text[i] == gap[i - |number|];
      }
    }
    RemoveAllAbsent(text, ',');
  }

  lemma WanTextCapture(number: string, gap: string, suffix: char)
    requires number != [] && IsDigit(number[|number| - 1])
    requires AllNumberChars(number)
    requires forall i :: 0 <= i < |gap| ==> gap[i] in Whitespace
    requires suffix in WanSuffixes
    ensures WanNumber(number + gap + [suffix]) == Some(number)
  {
    var text := number + gap + [suffix];
    assert text[..|text| - 1] == number + gap;
    TrimEndPadded(number, gap, Whitespace);
  }

  /** A comma after the suffix and a newline survives strip() and is then
      removed, leaving the newline before which `$` matches: such text takes
      the suffix reading too. */
  lemma WanBeforeNewline(number: string, gap: string, suffix: char)
    requires number != [] && IsDigit(number[0]) && IsDigit(number[|number| - 1])
    requires AllNumberChars(number)
    requires forall i :: 0 <= i < |gap| ==> gap[i] in Whitespace
    requires suffix in WanSuffixes
    ensures NormalizeCount(number + gap + [suffix] + "\n,") == ReadWan(number)
  {
    var text := number + gap + [suffix] + "\n,";
    assert |text| > 0;
    WanNewlineClean(number, gap, suffix);
    WanNewlineCapture(number, gap, suffix);
  }

  /** "<digits><spaces><suffix>\n," reads as the digits' value times 10000. */
  lemma WanNewlineCount(digits: string, gap: string, suffix: char)
    requires digits != [] && AllDigits(digits)
    requires forall i :: 0 <= i < |gap| ==> gap[i] in Whitespace
    requires suffix in WanSuffixes
    ensures NormalizeCount(digits + gap + [suffix] + "\n,") == DigitsValue(digits) * 10000
  {
    DigitsAreNumberChars(digits);
    WanBeforeNewline(digits, gap, suffix);
    assert ReadWan(digits) == DigitsValue(digits) * 10000 by {
      ParseDigits(digits);
      ZeroPlaces();
    }
  }

  lemma WanNewlineClean(number: string, gap: string, suffix: char)
    requires number != [] && IsDigit(number[0])
    requires AllNumberChars(number)
    requires forall i :: 0 <= i < |gap| ==> gap[i] in Whitespace
    requires suffix in WanSuffixes
    ensures Cleaned(number + gap + [suffix] + "\n,") == number + gap + [suffix] + "\n"
  {
    var core := number + gap + [suffix] + "\n";
    var text := core + ",";
    assert text == number + gap + [suffix] + "\n,";
    assert text[0] == number[0];
    assert text[|text| - 1] == ',';
    TrimClean(text, Whitespace);
    forall i | 0 <= i < |core| ensures core[i] != ',' {
      if i < |number| {
        assert core[i] == number[i];
      } else if i < |number| + |gap| {
        assert core[i] == gap[i - |number|];
      }
    }
    RemoveAllAbsent(core, ',');
    RemoveAllAppend(core, ",", ',');
    assert RemoveAll(",", ',') == [] by {
      assert ","[1..] == [];
    }
    assert core + [] == core;
  }

  lemma WanNewlineCapture(number: string, gap: string, suffix: char)
    requires number != [] && IsDigit(number[|number| - 1])
    requires AllNumberChars(number)
    requires forall i :: 0 <= i < |gap| ==> gap[i] in Whitespace
    requires suffix in WanSuffixes
    ensures WanNumber(number + gap + [suffix] + "\n") == Some(number)
  {
    var body := number + gap + [suffix];
    var t := body + "\n";
    assert t[..|t| - 1] == body;
    assert body[..|body| - 1] == number + gap;
    TrimEndPadded(number, gap, Whitespace);
  }

  lemma ZeroPlaces()
    ensures FourPlaces([]) == "0000" && DigitsValue("0000") == 0
  {
    assert "0000"[..3] == "000";
    assert "000"[..2] == "00";
    assert "00"[..1] == "0";
  }

  /** "<digits><spaces><suffix>" reads as the digits' value times 10000:
      "2万" is 20000. */
  lemma WanCount(digits: string, gap: string, suffix: char)
    requires digits != [] && AllDigits(digits)
    requires forall i :: 0 <= i < |gap| ==> gap[i] in Whitespace
    requires suffix in WanSuffixes
    ensures NormalizeCount(digits + gap + [suffix]) == DigitsValue(digits) * 10000
  {
    DigitsAreNumberChars(digits);
    WanPattern(digits, gap, suffix);
    assert ReadWan(digits) == DigitsValue(digits) * 10000 by {
      ParseDigits(digits);
      ZeroPlaces();
    }
  }

  /** The decimal "<whole>.<fraction>" where both parts are digit strings and
      the first and last characters are digits. */
  lemma PointedNumber(whole: string, fraction: string)
    requires whole != [] && AllDigits(whole) && fraction != [] && AllDigits(fraction)
    ensures var s := whole + "." + fraction;
      s != [] && AllNumberChars(s) && IsDigit(s[0]) && IsDigit(s[|s| - 1])
  {
    DigitsAreNumberChars(whole);
    DigitsAreNumberChars(fraction);
    NumberCharsConcat(whole, ".");
    NumberCharsConcat(whole + ".", fraction);
    var s := whole + "." + fraction;
    assert s[0] == whole[0];
    assert s[|s| - 1] == fraction[|fraction| - 1];
  }

  /** "<whole>.<fraction><spaces><suffix>" reads as the whole part times
      10000 plus the first four fraction digits, truncated: "1.2万" and
      "1.2 万" are 12000. */
  lemma WanDecimalCount(whole: string, fraction: string, gap: string, suffix: char)
    requires whole != [] && AllDigits(whole) && fraction != [] && AllDigits(fraction)
    requires forall i :: 0 <= i < |gap| ==> gap[i] in Whitespace
    requires suffix in WanSuffixes
    ensures NormalizeCount(whole + "." + fraction + gap + [suffix])
            == DigitsValue(whole) * 10000 + DigitsValue(FourPlaces(fraction))
  {
    var number := whole + "." + fraction;
    PointedNumber(whole, fraction);
    WanPattern(number, gap, suffix);
    ParsePointed(whole, fraction);
  }

  /** Plain decimals truncate toward zero: "1.9" reads as 1. */
  lemma TruncatedCount(whole: string, fraction: string)
    requires whole != [] && AllDigits(whole) && fraction != [] && AllDigits(fraction)
    ensures NormalizeCount(whole + "." + fraction) == DigitsValue(whole)
  {
    var text := whole + "." + fraction;
    PointedNumber(whole, fraction);
    NumberClean(text);
    PointedUnsigned(whole, fraction);
    UnsignedPlain(text, Decimal(whole, fraction));
  }

  /** An unpadded, unsigned decimal literal reads as its truncated value. */
  lemma UnsignedPlain(t: string, d: Decimal)
    requires Strip(t) == t && t != [] && t[0] != '-' && t[0] != '+'
    requires ParseDecimal(t) == Some(d) && AllDigits(d.whole)
    ensures ReadPlain(t) == DigitsValue(d.whole)
  {
  }

  /** "<whole>.<fraction>" carries no sign and is the decimal of its two parts. */
  lemma PointedUnsigned(whole: string, fraction: string)
    requires whole != [] && AllDigits(whole) && fraction != [] && AllDigits(fraction)
    ensures var text := whole + "." + fraction;
      text[0] != '-' && text[0] != '+' && ParseDecimal(text) == Some(Decimal(whole, fraction))
  {
    var text := whole + "." + fraction;
    assert text[0] == whole[0];
    ParsePointed(whole, fraction);
  }

  /** A suffixed number with a second point does not parse: "1.2.3万" reads as 0. */
  lemma TwoPointsCount(a: string, b: string, c: string, suffix: char)
    requires a != [] && AllDigits(a) && AllDigits(b) && c != [] && AllDigits(c)
    requires suffix in WanSuffixes
    ensures NormalizeCount(a + "." + b + "." + c + [suffix]) == 0
  {
    var number := a + "." + b + "." + c;
    assert number + [] + [suffix] == a + "." + b + "." + c + [suffix];
    TwoPointsNumber(a, b, c);
    WanPattern(number, [], suffix);
    assert ReadWan(number) == 0 by {
      ParseRejects(a, b, c);
    }
  }

  /** "<a>.<b>.<c>" is made of number characters and begins and ends with a
      digit. */
  lemma TwoPointsNumber(a: string, b: string, c: string)
    requires a != [] && AllDigits(a) && AllDigits(b) && c != [] && AllDigits(c)
    ensures var number := a + "." + b + "." + c;
      AllNumberChars(number) && IsDigit(number[0]) && IsDigit(number[|number| - 1])
  {
    var number := a + "." + b + "." + c;
    DigitsAreNumberChars(a);
    DigitsAreNumberChars(b);
    DigitsAreNumberChars(c);
    NumberCharsConcat(a, ".");
    NumberCharsConcat(a + ".", b);
    NumberCharsConcat(a + "." + b, ".");
    NumberCharsConcat(a + "." + b + ".", c);
    assert number[0] == a[0];
    assert number[|number| - 1] == c[|c| - 1];
  }

  /** A string none of whose characters is a digit never parses. */
  lemma NoDigitParse(s: string)
    requires forall x :: x in s ==> !IsDigit(x)
    ensures ParseDecimal(s).None?
  {
    var whole := BeforeFirst(s, '.');
    var fraction := if |whole| < |s| then s[|whole| + 1..] else [];
    if whole != [] {
      assert whole[0] == s[0];
    } else if fraction != [] {
      assert fraction[0] == s[|whole| + 1];
    }
  }

  lemma StripKeeps(s: string)
    ensures forall x :: x in Strip(s) ==> x in s
  {
    var u := TrimStart(s, Whitespace);
    var v := TrimEnd(u, Whitespace);
    assert Strip(s) == v;
    forall x | x in v ensures x in s {
      var i :| 0 <= i < |v| && v[i] == x;
      assert v[i] == u[i];
      assert u[i] == s[|s| - |u| + i];
    }
  }

  /** Text with no digit at all, such as "赞", reads as 0 and never fails. */
  lemma NoDigitCount(text: string)
    requires forall x :: x in text ==> !IsDigit(x)
    ensures NormalizeCount(text) == 0
  {
    if text != [] {
      var t := Cleaned(text);
      StripKeeps(text);
      assert forall x :: x in t ==> !IsDigit(x);
      match WanNumber(t)
      case Some(number) =>
        NoDigitWan(t);
      case None =>
        NoDigitPlain(t);
    }
  }

  lemma NoDigitWan(t: string)
    requires forall x :: x in t ==> !IsDigit(x)
    requires WanNumber(t).Some?
    ensures ReadWan(WanNumber(t).value) == 0
  {
    var number := WanNumber(t).value;
    assert forall x :: x in number ==> x in t by {
      forall x | x in number ensures x in t {
        var i :| 0 <= i < |number| && number[i] == x;
        assert number[i] == t[i];
      }
    }
    NoDigitParse(number);
  }

  lemma NoDigitPlain(t: string)
    requires forall x :: x in t ==> !IsDigit(x)
    ensures ReadPlain(t) == 0
  {
    var plain := Strip(t);
    StripKeeps(t);
    var body := if |plain| > 0 && (plain[0] == '-' || plain[0] == '+') then plain[1..] else plain;
    assert forall x :: x in body ==> x in plain;
    NoDigitParse(body);
  }

  lemma TwoThousand()
    ensures FourPlaces("2") == "2000" && DigitsValue("2000") == 2000
    ensures FourPlaces("5") == "5000" && DigitsValue("5000") == 5000
  {
    assert "2000"[..3] == "200" && "200"[..2] == "20" && "20"[..1] == "2";
    assert "5000"[..3] == "500" && "500"[..2] == "50" && "50"[..1] == "5";
  }

  // The worked values of the normaliser's own documentation and tests.

  lemma ExampleWanPoint()
    ensures NormalizeCount("1.2万") == 12000
  {
    assert "1" + "." + "2" + [] + ['万'] == "1.2万";
    WanDecimalCount("1", "2", [], '万');
    TwoThousand();
  }

  /** "5万\n," reads as 50000: the comma goes, and `$` matches before the
      newline it leaves at the end. */
  lemma ExampleWanBeforeNewline()
    ensures NormalizeCount("5万\n,") == 50000
  {
    assert "5" + [] + ['万'] + "\n," == "5万\n,";
    WanNewlineCount("5", [], '万');
  }

  lemma ExampleWanSpaced()
    ensures NormalizeCount("1.2 万") == 12000
  {
    assert "1" + "." + "2" + " " + ['万'] == "1.2 万";
    WanDecimalCount("1", "2", " ", '万');
    TwoThousand();
  }

  lemma ExampleWanLetter()
    ensures NormalizeCount("3.5w") == 35000
  {
    assert "3" + "." + "5" + [] + ['w'] == "3.5w";
    WanDecimalCount("3", "5", [], 'w');
    TwoThousand();
  }

  lemma ExampleWanWhole()
    ensures NormalizeCount("2万") == 20000
  {
    assert "2" + [] + ['万'] == "2万";
    WanCount("2", [], '万');
  }

  lemma ExampleWanTwoPoints()
    ensures NormalizeCount("1.2.3万") == 0
  {
    assert "1" + "." + "2" + "." + "3" + ['万'] == "1.2.3万";
    TwoPointsCount("1", "2", "3", '万');
  }

  lemma ExamplePlain()
    ensures NormalizeCount("  500  ") == 500
  {
    assert NatToString(500) == "500";
    assert "  " + "500" + "  " == "  500  ";
    PlainCount("  ", 500, "  ");
  }

  lemma ExampleTruncated()
    ensures NormalizeCount("1.9") == 1
  {
    assert "1" + "." + "9" == "1.9";
    TruncatedCount("1", "9");
  }

  lemma ExampleNoDigit()
    ensures NormalizeCount("赞") == 0
  {
    NoDigitCount("赞");
  }

  // ---------------------------------------------------------------------------
  // parse_search_card
  // ---------------------------------------------------------------------------

  /** The site prefix put in front of a '/'-relative note link. */
  const NoteBaseUrl: string := "https://www.xiaohongshu.com"

  const ExploreAnchor: string := "a[href*=\"/explore/\"]"
  const CoverAnchor: string := "a.cover"
  const AnyAnchor: string := "a"
  const CoverImage: string := "a.cover img"
  const AnyImage: string := "img:not(.author-avatar)"
  const VideoMarker: string := ".video-icon, .type-video, [class*='play-icon']"
  const ProfileMarker: string := "/user/profile/"

  const TitleSelectors: seq<string> :=
    [".footer a.title span", ".footer a.title", ".footer .title span", ".footer .title", "a.title span", "a.title"]
  const AuthorSelectors: seq<string> :=
    [".card-bottom-wrapper .author .name", ".card-bottom-wrapper .name", ".author-wrapper .name", ".author .name"]
  const ProfileSelectors: seq<string> :=
    [".card-bottom-wrapper a.author[href*='/user/profile/']", "a.author[href*='/user/profile/']", "a[href*='/user/profile/']"]
  const TimeSelectors: seq<string> := [".name-time-wrapper .time", ".time"]
  const LikeSelectors: seq<string> := [".like-wrapper .count", ".likes .count", ".count"]

  /** An element handle as the parser reads it: its rendered text and its
      attributes (a missing key is an attribute that is not set). */
  datatype Element = Element(text: string, attrs: map<string, string>)

  /** A listing card: the first element each selector matches inside it (a
      selector that is not a key matches nothing), and whether a driver call
      made while reading the card raises. */
  datatype Card = Card(nodes: map<string, Element>, raises: bool)

  datatype NoteType = Image | Video

  /** The nine-field summary of one listing card. */
  datatype SummaryRecord = SummaryRecord(
    noteId: string, title: string, author: string, authorId: string, coverUrl: string,
    likes: int, noteUrl: string, noteType: NoteType, publishTime: string)

  /** el.get_attribute(name) or "" */
  function Attr(e: Element, name: string): (v: string)
    ensures name in e.attrs ==> v == e.attrs[name]
    ensures name !in e.attrs ==> v == []
  {
    if name in e.attrs then e.attrs[name] else []
  }

  /** Python's `a or b` on strings. */
  function OrElse(a: string, b: string): string {
    if a != [] then a else b
  }

  /** href.split("?")[0].rstrip("/").split("/")[-1]: the last path segment of
      the link, without its query and trailing slashes. */
  function HrefId(href: string): (id: string)
    ensures '/' !in id && '?' !in id
  {
    AfterLast(TrimEnd(BeforeFirst(href, '?'), {'/'}), '/')
  }

  /** A note link together with the id read from it. */
  datatype Link = Link(url: string, id: string)

  /** The link the hidden explore anchor gives, or an empty one. */
  function ExploreLink(card: Card): Link {
    if ExploreAnchor in card.nodes && Attr(card.nodes[ExploreAnchor], "href") != [] then
      var href := Attr(card.nodes[ExploreAnchor], "href");
      Link(if StartsWith(href, "/") then NoteBaseUrl + href else href, HrefId(href))
    else Link([], [])
  }

  /** The cover anchor, or failing that the first anchor of the card. */
  function FallbackAnchor(card: Card): Option<Element> {
    if CoverAnchor in card.nodes then Some(card.nodes[CoverAnchor])
    else if AnyAnchor in card.nodes then Some(card.nodes[AnyAnchor])
    else None
  }

  /** note_url and note_id: the explore anchor's when it yields an id, else the
      fallback anchor's id, whose href replaces the url only when it is
      '/'-relative or starts with "http". */
  function Locate(card: Card): (link: Link)
    ensures ExploreLink(card).id != [] ==> link == ExploreLink(card)
    ensures ExploreLink(card).id == [] && FallbackAnchor(card).None? ==>
              link.id == [] && link.url == ExploreLink(card).url
    ensures ExploreLink(card).id == [] && FallbackAnchor(card).Some? ==>
      link.id == HrefId(Attr(FallbackAnchor(card).value, "href"))
  {
    var first := ExploreLink(card);
    if first.id != [] then first
    else match FallbackAnchor(card)
      case None => first
      case Some(anchor) =>
        var href := Attr(anchor, "href");
        var url := if StartsWith(href, "/") then NoteBaseUrl + href
                   else if StartsWith(href, "http") then href
                   else first.url;
        Link(url, HrefId(href))
  }

  /** How a cascade accepts a selector: its element has non-blank text, its
      element merely exists, or its element's href splits into exactly two
      parts around the profile marker. */
  datatype Rule = NonBlankText | Present | TwoPartProfile

  predicate Accepts(card: Card, rule: Rule, sel: string) {
    sel in card.nodes &&
    match rule
    case NonBlankText => Strip(card.nodes[sel].text) != []
    case Present => true
    case TwoPartProfile => |Split(Attr(card.nodes[sel], "href"), ProfileMarker)| == 2
  }

  /** The position of the first selector the rule accepts, |sels| if none. */
  function FirstAccepted(card: Card, rule: Rule, sels: seq<string>): (k: nat)
    ensures k <= |sels|
    ensures forall j :: 0 <= j < k ==> !Accepts(card, rule, sels[j])
    ensures k < |sels| ==> Accepts(card, rule, sels[k])
    decreases |sels|
  {
    if sels == [] || Accepts(card, rule, sels[0]) then 0
    else 1 + FirstAccepted(card, rule, sels[1..])
  }

  /** The first position satisfying the two conditions is FirstAccepted. */
  lemma FirstAcceptedUnique(card: Card, rule: Rule, sels: seq<string>, k: nat)
    requires k <= |sels|
    requires forall j :: 0 <= j < k ==> !Accepts(card, rule, sels[j])
    requires k < |sels| ==> Accepts(card, rule, sels[k])
    ensures FirstAccepted(card, rule, sels) == k
  {
  }

  /** The stripped text of the first selector with non-blank text, else "". */
  function TextOf(card: Card, sels: seq<string>): (t: string)
    ensures t == [] <==> forall j :: 0 <= j < |sels| ==> !Accepts(card, NonBlankText, sels[j])
  {
    var k := FirstAccepted(card, NonBlankText, sels);
    if k < |sels| then Strip(card.nodes[sels[k]].text) else []
  }

  /** The likes of the first existing count element, even when its text is
      blank; 0 when none exists. */
  function LikesOf(card: Card): (n: int)
    ensures (forall j :: 0 <= j < |LikeSelectors| ==> LikeSelectors[j] !in card.nodes) ==> n == 0
  {
    var k := FirstAccepted(card, Present, LikeSelectors);
    if k < |LikeSelectors| then NormalizeCount(Strip(card.nodes[LikeSelectors[k]].text)) else 0
  }

  /** parts[1].split("?")[0].rstrip("/") for the two parts of a profile link. */
  function ProfileTail(href: string): (id: string)
    requires |Split(href, ProfileMarker)| == 2
    ensures '?' !in id
    ensures id == [] || id[|id| - 1] != '/'
  {
    TrimEnd(BeforeFirst(Split(href, ProfileMarker)[1], '?'), {'/'})
  }

  /** The author id of the first profile anchor whose href has exactly one
      profile marker, else "". */
  function AuthorIdOf(card: Card): (id: string)
    ensures '?' !in id
    ensures (forall j :: 0 <= j < |ProfileSelectors| ==> !Accepts(card, TwoPartProfile, ProfileSelectors[j])) ==> id == []
  {
    var k := FirstAccepted(card, TwoPartProfile, ProfileSelectors);
    if k < |ProfileSelectors| then ProfileTail(Attr(card.nodes[ProfileSelectors[k]], "href")) else []
  }

  /** The cover image's data-src, else its src, else ""; "" without an image. */
  function CoverUrlOf(card: Card): string {
    var img := if CoverImage in card.nodes then Some(card.nodes[CoverImage])
               else if AnyImage in card.nodes then Some(card.nodes[AnyImage])
               else None;
    match img
    case None => []
    case Some(e) => OrElse(Attr(e, "data-src"), OrElse(Attr(e, "src"), []))
  }

  function NoteTypeOf(card: Card): NoteType {
    if VideoMarker in card.nodes then Video else Image
  }

  /** The text cascade stops at the first selector with non-blank text and
      takes that text, stripped. */
  lemma TextFromFirstNonBlank(card: Card, sels: seq<string>, k: nat)
    requires k < |sels| && Accepts(card, NonBlankText, sels[k])
    requires forall j :: 0 <= j < k ==> !Accepts(card, NonBlankText, sels[j])
    ensures TextOf(card, sels) == Strip(card.nodes[sels[k]].text)
    ensures TextOf(card, sels) != []
  {
    FirstAcceptedUnique(card, NonBlankText, sels, k);
  }

  /** The likes cascade stops at the first existing count element whatever
      its text: a blank one gives 0 even when a later selector would match. */
  lemma LikesFromFirstPresent(card: Card, k: nat)
    requires k < |LikeSelectors| && LikeSelectors[k] in card.nodes
    requires forall j :: 0 <= j < k ==> LikeSelectors[j] !in card.nodes
    ensures LikesOf(card) == NormalizeCount(Strip(card.nodes[LikeSelectors[k]].text))
    ensures Strip(card.nodes[LikeSelectors[k]].text) == [] ==> LikesOf(card) == 0
  {
    FirstAcceptedUnique(card, Present, LikeSelectors, k);
  }

  /** The author id comes from the first profile anchor whose href splits
      into exactly two parts; anchors before it are passed over. */
  lemma AuthorIdFromFirstProfile(card: Card, k: nat)
    requires k < |ProfileSelectors| && Accepts(card, TwoPartProfile, ProfileSelectors[k])
    requires forall j :: 0 <= j < k ==> !Accepts(card, TwoPartProfile, ProfileSelectors[j])
    ensures AuthorIdOf(card) == ProfileTail(Attr(card.nodes[ProfileSelectors[k]], "href"))
  {
    FirstAcceptedUnique(card, TwoPartProfile, ProfileSelectors, k);
  }

  /** The cover URL is the chosen image's data-src when that is non-empty,
      else its src; "" without an image. */
  lemma CoverUrlChoice(card: Card)
    ensures CoverImage !in card.nodes && AnyImage !in card.nodes ==> CoverUrlOf(card) == []
    ensures CoverImage in card.nodes || AnyImage in card.nodes ==>
              var e := if CoverImage in card.nodes then card.nodes[CoverImage] else card.nodes[AnyImage];
              CoverUrlOf(card) == if Attr(e, "data-src") != [] then Attr(e, "data-src") else Attr(e, "src")
  {
  }

  /** What parse_search_card returns for a card: nothing when a driver call
      raises or no id is found, otherwise the complete record. */
  function CardRecord(card: Card): (r: Option<SummaryRecord>)
    ensures r.None? <==> card.raises || Locate(card).id == []
    ensures r.Some? ==> r.value.noteId != [] && r.value.noteId == Locate(card).id
  {
    var link := Locate(card);
    if card.raises || link.id == [] then None
    else Some(SummaryRecord(
      link.id, TextOf(card, TitleSelectors), TextOf(card, AuthorSelectors), AuthorIdOf(card),
      CoverUrlOf(card), LikesOf(card), link.url, NoteTypeOf(card), TextOf(card, TimeSelectors)))
  }

  /** One text cascade as the parser runs it: each existing element's stripped
      text is taken in turn, stopping at the first that is not blank. */
  method ReadText(card: Card, sels: seq<string>) returns (text: string)
    ensures text == TextOf(card, sels)
  {
    text := [];
    var i := 0;
    while i < |sels|
      invariant 0 <= i <= |sels|
      invariant forall j :: 0 <= j < i ==> !Accepts(card, NonBlankText, sels[j])
      invariant text == []
    {
      if sels[i] in card.nodes {
        text := Strip(card.nodes[sels[i]].text);
        if text != [] {
          FirstAcceptedUnique(card, NonBlankText, sels, i);
          return;
        }
      }
      i := i + 1;
    }
    FirstAcceptedUnique(card, NonBlankText, sels, |sels|);
  }

  lemma {:induction false} AfterLastAt(a: string, c: char, b: string)
    requires c !in b
    ensures AfterLast(a + [c] + b, c) == b
    decreases |b|
  {
    if b == [] {
      assert a + [c] + b == a + [c];
    } else {
      var s := a + [c] + b;
      assert s[..|s| - 1] == a + [c] + b[..|b| - 1];
      AfterLastAt(a, c, b[..|b| - 1]);
      assert b == b[..|b| - 1] + [b[|b| - 1]];
    }
  }

  /** The id of a link "<dir>/<id><query>" is <id>, whatever directories come
      before it, when the query is empty or starts with '?'. */
  lemma HrefIdOf(dir: string, id: string, query: string)
    requires '?' !in dir
    requires id != [] && '/' !in id && '?' !in id
    requires query == [] || query[0] == '?'
    ensures HrefId(dir + "/" + id + query) == id
  {
    var path := dir + "/" + id;
    var href := path + query;
    assert '?' !in path;
    if query == [] {
      assert href == path;
      BeforeFirstAbsent(path, '?');
    } else {
      assert href == path + ['?'] + query[1..];
      BeforeFirstAt(path, '?', query[1..]);
    }
    assert TrimEnd(path, {'/'}) == path by {
      TrimEndPadded(path, [], {'/'});
      assert path + [] == path;
    }
    assert path == dir + ['/'] + id;
    AfterLastAt(dir, '/', id);
  }

  /** A card whose explore anchor links "/explore/<id>" is located there: the
      url is the site prefix plus the link and the id is the last segment. */
  lemma ExploreCardLocated(card: Card, id: string, query: string)
    requires id != [] && '/' !in id && '?' !in id
    requires query == [] || query[0] == '?'
    requires ExploreAnchor in card.nodes
    requires Attr(card.nodes[ExploreAnchor], "href") == "/explore/" + id + query
    ensures Locate(card) == Link(NoteBaseUrl + "/explore/" + id + query, id)
  {
    var href := "/explore/" + id + query;
    assert href == "/explore" + "/" + id + query;
    HrefIdOf("/explore", id, query);
    assert StartsWith(href, "/");
    PrefixJoin3(NoteBaseUrl, "/explore/", id, query);
  }

  /** Without an explore anchor, the cover link "<dir>/<id>?<token>" gives the
      id, and the url is the site prefix plus the whole cover link, token
      included. */
  lemma CoverCardLocated(card: Card, dir: string, id: string, token: string)
    requires ExploreAnchor !in card.nodes && CoverAnchor in card.nodes
    requires dir != [] && dir[0] == '/' && '?' !in dir
    requires id != [] && '/' !in id && '?' !in id
    requires Attr(card.nodes[CoverAnchor], "href") == dir + "/" + id + "?" + token
    ensures Locate(card) == Link(NoteBaseUrl + dir + "/" + id + "?" + token, id)
  {
    var href := dir + "/" + id + "?" + token;
    assert href == dir + "/" + id + ("?" + token);
    HrefIdOf(dir, id, "?" + token);
    assert href[0] == '/';
    assert StartsWith(href, "/");
    PrefixJoin3(NoteBaseUrl, dir + "/" + id, "?", token);
    PrefixJoin3(NoteBaseUrl, dir, "/", id);
  }

  /** An explore link that is not '/'-relative, such as an absolute
      "https://.../explore/<id>", is kept verbatim as the url. */
  lemma ExploreAbsoluteLocated(card: Card, dir: string, id: string, query: string)
    requires dir != [] && dir[0] != '/' && '?' !in dir
    requires id != [] && '/' !in id && '?' !in id
    requires query == [] || query[0] == '?'
    requires ExploreAnchor in card.nodes
    requires Attr(card.nodes[ExploreAnchor], "href") == dir + "/" + id + query
    ensures Locate(card) == Link(dir + "/" + id + query, id)
  {
    var href := dir + "/" + id + query;
    HrefIdOf(dir, id, query);
    assert !StartsWith(href, "/") by {
      assert href[0] == dir[0];
    }
    assert ExploreLink(card) == Link(href, id);
  }

  /** Without an explore anchor, a cover link starting with "http" is kept
      verbatim as the url, and its last segment is the id. */
  lemma HttpCoverLocated(card: Card, dir: string, id: string, token: string)
    requires ExploreAnchor !in card.nodes && CoverAnchor in card.nodes
    requires StartsWith(dir, "http") && '?' !in dir
    requires id != [] && '/' !in id && '?' !in id
    requires Attr(card.nodes[CoverAnchor], "href") == dir + "/" + id + "?" + token
    ensures Locate(card) == Link(dir + "/" + id + "?" + token, id)
  {
    HttpHref(dir, id, token);
    assert ExploreLink(card) == Link([], []);
    assert FallbackAnchor(card) == Some(card.nodes[CoverAnchor]);
  }

  /** "<http dir>/<id>?<token>" is absolute, and its id is <id>. */
  lemma HttpHref(dir: string, id: string, token: string)
    requires StartsWith(dir, "http") && '?' !in dir
    requires id != [] && '/' !in id && '?' !in id
    ensures var href := dir + "/" + id + "?" + token;
            StartsWith(href, "http") && !StartsWith(href, "/") && HrefId(href) == id
  {
    var href := dir + "/" + id + "?" + token;
    HttpPrefix(dir, "/" + id + "?" + token);
    assert href == dir + ("/" + id + "?" + token);
    assert href == dir + "/" + id + ("?" + token);
    HrefIdOf(dir, id, "?" + token);
  }

  lemma HttpPrefix(dir: string, rest: string)
    requires StartsWith(dir, "http")
    ensures StartsWith(dir + rest, "http") && !StartsWith(dir + rest, "/")
  {
    assert (dir + rest)[..4] == dir[..4];
    assert (dir + rest)[0] == dir[0] == 'h';
  }

  /** A card with no anchor at all yields no record. */
  lemma AnchorlessCard(card: Card)
    requires ExploreAnchor !in card.nodes && CoverAnchor !in card.nodes && AnyAnchor !in card.nodes
    ensures CardRecord(card) == None
  {
    assert ExploreLink(card).id == [];
    assert FallbackAnchor(card) == None;
  }

  /** When the explore anchor yields a url but no id, and the fallback link is
      neither '/'-relative nor "http", the record keeps the explore anchor's
      url beside the fallback id. */
  lemma ExploreUrlKept(card: Card)
    requires ExploreLink(card).id == [] && FallbackAnchor(card).Some?
    requires !StartsWith(Attr(FallbackAnchor(card).value, "href"), "/")
    requires !StartsWith(Attr(FallbackAnchor(card).value, "href"), "http")
    ensures Locate(card).url == ExploreLink(card).url
  {
  }

  /** "/user/profile/<uid>?<rest>" gives the author id <uid>. */
  lemma ProfileTailOf(uid: string, rest: string)
    requires uid != [] && '?' !in uid && uid[|uid| - 1] != '/'
    requires !Contains(uid + "?" + rest, ProfileMarker)
    ensures |Split(ProfileMarker + uid + "?" + rest, ProfileMarker)| == 2
    ensures ProfileTail(ProfileMarker + uid + "?" + rest) == uid
  {
    var tail := uid + "?" + rest;
    var href := ProfileMarker + tail;
    assert href == ProfileMarker + uid + "?" + rest;
    assert StartsWith(href, ProfileMarker);
    assert Find(href, ProfileMarker) == Some(0);
    assert href[|ProfileMarker|..] == tail;
    assert Split(tail, ProfileMarker) == [tail];
    assert Split(href, ProfileMarker) == [[]] + [tail] by {
      assert href[..0] == [];
    }
    assert tail == uid + ['?'] + rest;
    BeforeFirstAt(uid, '?', rest);
  }

  /** The id/url block of parse_search_card: the explore anchor first, then
      the cover or first anchor when no id came from it. */
  method LocateNote(card: Card) returns (noteUrl: string, noteId: string)
    ensures Link(noteUrl, noteId) == Locate(card)
  {
    noteUrl, noteId := ReadExploreLink(card);
    if noteId == [] {
      var anchor := if CoverAnchor in card.nodes then Some(card.nodes[CoverAnchor])
                    else if AnyAnchor in card.nodes then Some(card.nodes[AnyAnchor])
                    else None;
      assert anchor == FallbackAnchor(card);
      if anchor.Some? {
        var href := Attr(anchor.value, "href");
        if StartsWith(href, "/") {
          noteUrl := NoteBaseUrl + href;
        } else if StartsWith(href, "http") {
          noteUrl := href;
        }
        noteId := HrefId(href);
      }
    }
  }

  /** The explore anchor's link, when it has a non-empty href. */
  method ReadExploreLink(card: Card) returns (noteUrl: string, noteId: string)
    ensures Link(noteUrl, noteId) == ExploreLink(card)
  {
    noteUrl := [];
    noteId := [];
    if ExploreAnchor in card.nodes {
      var href := Attr(card.nodes[ExploreAnchor], "href");
      if href != [] {
        noteUrl := if StartsWith(href, "/") then NoteBaseUrl + href else href;
        noteId := HrefId(href);
      }
    }
  }

  /** The author-id cascade: the first profile anchor whose href splits into
      exactly two parts decides, and the loop stops there. */
  method ReadAuthorId(card: Card) returns (authorId: string)
    ensures authorId == AuthorIdOf(card)
  {
    authorId := [];
    var i := 0;
    while i < |ProfileSelectors|
      invariant 0 <= i <= |ProfileSelectors|
      invariant forall j :: 0 <= j < i ==> !Accepts(card, TwoPartProfile, ProfileSelectors[j])
      invariant authorId == []
    {
      var sel := ProfileSelectors[i];
      if sel in card.nodes {
        var parts := Split(Attr(card.nodes[sel], "href"), ProfileMarker);
        if |parts| == 2 {
          authorId := TrimEnd(BeforeFirst(parts[1], '?'), {'/'});
          FirstAcceptedUnique(card, TwoPartProfile, ProfileSelectors, i);
          return;
        }
      }
      i := i + 1;
    }
    FirstAcceptedUnique(card, TwoPartProfile, ProfileSelectors, i);
  }

  /** The likes cascade: the first existing count element decides, even when
      its text is blank. */
  method ReadLikes(card: Card) returns (likes: int)
    ensures likes == LikesOf(card)
  {
    likes := 0;
    var l := 0;
    while l < |LikeSelectors|
      invariant 0 <= l <= |LikeSelectors|
      invariant forall j :: 0 <= j < l ==> !Accepts(card, Present, LikeSelectors[j])
      invariant likes == 0
    {
      if LikeSelectors[l] in card.nodes {
        likes := NormalizeCount(Strip(card.nodes[LikeSelectors[l]].text));
        FirstAcceptedUnique(card, Present, LikeSelectors, l);
        return;
      }
      l := l + 1;
    }
    FirstAcceptedUnique(card, Present, LikeSelectors, l);
  }

  /** parse_search_card */
  method ParseSearchCard(card: Card) returns (r: Option<SummaryRecord>)
    ensures r == CardRecord(card)
  {
    if card.raises {
      return None;
    }
    var noteUrl, noteId := LocateNote(card);
    if noteId == [] {
      return None;
    }
    var coverUrl := CoverUrlOf(card);
    var title := ReadText(card, TitleSelectors);
    var author := ReadText(card, AuthorSelectors);
    var authorId := ReadAuthorId(card);
    var publishTime := ReadText(card, TimeSelectors);
    var likes := ReadLikes(card);
    var noteType := if VideoMarker in card.nodes then Video else Image;
    r := Some(SummaryRecord(noteId, title, author, authorId, coverUrl, likes, noteUrl, noteType, publishTime));
  }
}
