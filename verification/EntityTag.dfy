/** The version counter as an entity tag: its printer, and the parser of `If-Match`. */
module EntityTag {
  import opened Wrappers
  import opened StoreContract
  import opened Text

  predicate IsDigit(c: char) { '0' <= c <= '9' }

  function DigitOf(c: char): (d: nat)
    requires IsDigit(c)
    ensures d < 10
  {
    c as int - '0' as int
  }

  function CharOf(d: nat): (c: char)
    requires d < 10
    ensures IsDigit(c) && DigitOf(c) == d
  {
    '0' + d as char
  }

  function Decimal(n: nat): string {
    if n < 10 then [CharOf(n)] else Decimal(n / 10) + [CharOf(n % 10)]
  }

  /** Renders a version as an entity tag, quotes included. */
  function Display(v: Version): string {
    "\"" + Decimal(v) + "\""
  }

  /** `u64::from_str`: an optional plus sign, then digits, with overflow checked at each one. */
  function ParseU64(s: string): Option<Version> {
    var digits := if |s| > 1 && s[0] == '+' then s[1..] else s;
    if digits == [] then None else Accumulate(digits, 0)
  }

  function Accumulate(digits: string, acc: Version): Option<Version> {
    if digits == [] then Some(acc)
    else if !IsDigit(digits[0]) then None
    else
      var next := acc * 10 + DigitOf(digits[0]);
      if next < U64_LIMIT then Accumulate(digits[1..], next) else None
  }

  function Parse(s: string): Option<Version> {
    ParseU64(Trim(Trim(s, IsWhitespace), IsQuote))
  }

  // ----- what the parser accepts

  /** The number a digit string denotes, read from its last digit. */
  ghost function Value(digits: string): nat
    requires All(digits, IsDigit)
  {
    if digits == [] then 0
    else 10 * Value(digits[..|digits| - 1]) + DigitOf(digits[|digits| - 1])
  }

  ghost predicate TagShape(s: string, v: int, lead: string, open: string, plus: string,
                           digits: string, close: string, trail: string)
  {
    && s == lead + (open + (plus + digits) + close) + trail
    && All(lead, IsWhitespace) && All(trail, IsWhitespace)
    && All(open, IsQuote) && All(close, IsQuote)
    && (plus == "" || plus == "+")
    && digits != "" && All(digits, IsDigit) && Value(digits) == v
  }

  /** Whitespace, then quotes, then an optional plus sign and at least one digit of value `v`,
      then quotes, then whitespace. */
  ghost predicate IsTagFor(s: string, v: int) {
    exists lead, open, plus, digits, close, trail :: TagShape(s, v, lead, open, plus, digits, close, trail)
  }

  lemma {:induction false} AccumulateAppend(digits: string, c: char, acc: Version)
    ensures Accumulate(digits + [c], acc) ==
            match Accumulate(digits, acc)
            case None => None
            case Some(n) =>
              if IsDigit(c) && n * 10 + DigitOf(c) < U64_LIMIT then Some(n * 10 + DigitOf(c)) else None
    decreases |digits|
  {
    if digits == [] {
      assert digits + [c] == [c] && [c][1..] == [];
    } else {
      assert (digits + [c])[1..] == digits[1..] + [c];
      if IsDigit(digits[0]) {
        var next := acc * 10 + DigitOf(digits[0]);
        if next < U64_LIMIT { AccumulateAppend(digits[1..], c, next); }
      }
    }
  }

  /** Checking overflow digit by digit refuses exactly the digit strings of value 2^64 and more. */
  lemma {:induction false} AccumulateIsValue(digits: string)
    ensures Accumulate(digits, 0).Some? <==> All(digits, IsDigit) && Value(digits) < U64_LIMIT
    ensures Accumulate(digits, 0).Some? ==> Accumulate(digits, 0).value == Value(digits)
  {
    if digits != [] {
      var n := |digits| - 1;
      assert digits == digits[..n] + [digits[n]];
      AccumulateIsValue(digits[..n]);
      AccumulateAppend(digits[..n], digits[n], 0);
      assert All(digits, IsDigit) <==> All(digits[..n], IsDigit) && IsDigit(digits[n]);
    }
  }

  lemma TagShapeParses(s: string, v: int, lead: string, open: string, plus: string,
                       digits: string, close: string, trail: string)
    requires TagShape(s, v, lead, open, plus, digits, close, trail)
    ensures Parse(s) == if v < U64_LIMIT then Some(v) else None
  {
    var core := plus + digits;
    assert core[|core| - 1] == digits[|digits| - 1];
    TrimOf(open, core, close, IsQuote);
    var quoted := open + core + close;
    assert quoted[0] == if open == "" then core[0] else open[0];
    assert quoted[|quoted| - 1] == if close == "" then core[|core| - 1] else close[|close| - 1];
    TrimOf(lead, quoted, trail, IsWhitespace);
    AccumulateIsValue(digits);
    if plus == "" { assert core == digits; } else { assert core[1..] == digits; }
  }

  lemma ParsedHasTagShape(s: string)
    requires Parse(s).Some?
    ensures IsTagFor(s, Parse(s).value)
  {
    var lead, trail := TrimSplits(s, IsWhitespace);
    var quoted := Trim(s, IsWhitespace);
    var open, close := TrimSplits(quoted, IsQuote);
    var core := Trim(quoted, IsQuote);
    var signed := |core| > 1 && core[0] == '+';
    var digits := if signed then core[1..] else core;
    var plus := if signed then "+" else "";
    AccumulateIsValue(digits);
    assert core == plus + digits;
    assert TagShape(s, Value(digits), lead, open, plus, digits, close, trail);
  }

  /** Acceptance, both directions: a header parses to `v` exactly when it has that shape, and no
      `u64` overflow hides: a value of 2^64 or more is refused. */
  lemma ParseAcceptsExactly(s: string, v: Version)
    ensures Parse(s) == Some(v) <==> IsTagFor(s, v)
  {
    if Parse(s) == Some(v) { ParsedHasTagShape(s); }
    if IsTagFor(s, v) {
      var lead, open, plus, digits, close, trail :| TagShape(s, v, lead, open, plus, digits, close, trail);
      TagShapeParses(s, v, lead, open, plus, digits, close, trail);
    }
  }

  lemma AcceptedCharacters(s: string)
    requires Parse(s).Some?
    ensures All(s, c => IsWhitespace(c) || IsQuote(c) || c == '+' || IsDigit(c))
  {
    ParsedHasTagShape(s);
  }

  /** Hence `*`, weak tags and tag lists are never accepted: they hold a foreign character. */
  lemma WildcardWeakAndListRejected(s: string)
    requires '*' in s || 'W' in s || ',' in s
    ensures Parse(s).None?
  {
    if Parse(s).Some? { AcceptedCharacters(s); }
  }

  lemma {:induction false} DecimalValue(n: nat)
    ensures Decimal(n) != "" && All(Decimal(n), IsDigit) && Value(Decimal(n)) == n
  {
    if n < 10 {
      assert Decimal(n)[..0] == "";
    } else {
      DecimalValue(n / 10);
      assert Decimal(n)[..|Decimal(n)| - 1] == Decimal(n / 10);
    }
  }

  const DIGITS: string := "0123456789"

  /** Decimal notation, from the last digit up, with no leading zero. */
  lemma PrintsDecimal(n: nat)
    ensures n < 10 ==> Decimal(n) == [DIGITS[n]]
    ensures n >= 10 ==> Decimal(n) == Decimal(n / 10) + [DIGITS[n % 10]]
  {
    assert '0' as int == 48 && 48 as char == '0';
    forall d | 0 <= d < 10 ensures CharOf(d) == DIGITS[d] { DigitIsListed(d); }
  }

  lemma DigitIsListed(d: nat)
    requires d < 10
    ensures CharOf(d) == DIGITS[d]
  {
  }

  lemma {:induction false} NoLeadingZero(n: nat)
    ensures Decimal(n) != "" && (n > 0 ==> Decimal(n)[0] != '0')
  {
    if n >= 10 { NoLeadingZero(n / 10); }
  }

  /** A printed tag is a quote, the decimal digits of the version without a leading zero, a quote. */
  lemma TagIsQuotedDecimal(v: Version)
    ensures Display(v) == "\"" + Decimal(v) + "\""
    ensures All(Decimal(v), IsDigit) && Value(Decimal(v)) == v
    ensures v > 0 ==> Decimal(v)[0] != '0'
  {
    DecimalValue(v);
    NoLeadingZero(v);
  }

  lemma Spelled(v: Version, lead: string, open: string, plus: string, close: string, trail: string)
    requires All(lead, IsWhitespace) && All(trail, IsWhitespace) && All(open, IsQuote) && All(close, IsQuote)
    requires plus == "" || plus == "+"
    ensures Parse(lead + open + plus + Decimal(v) + close + trail) == Some(v)
  {
    var d := Decimal(v);
    DecimalValue(v);
    var s := lead + open + plus + d + close + trail;
    assert s == lead + (open + (plus + d) + close) + trail;
    TagShapeParses(s, v, lead, open, plus, d, close, trail);
  }

  /** The accepted spellings of a version: bare as well as quoted, with blanks around it, and with the
      plus sign that parsing an integer allows. */
  lemma BareDigitsAreAccepted(v: Version)
    ensures Parse(Decimal(v)) == Some(v)
  {
    Spelled(v, "", "", "", "", "");
    assert "" + "" + "" + Decimal(v) + "" + "" == Decimal(v);
  }

  lemma BlanksAreAccepted(v: Version)
    ensures Parse(" \t" + Display(v) + "\n ") == Some(v)
  {
    Spelled(v, " \t", "\"", "", "\"", "\n ");
    assert " \t" + "\"" + "" + Decimal(v) + "\"" + "\n " == " \t" + Display(v) + "\n ";
  }

  lemma PlusIsAccepted(v: Version)
    ensures Parse("+" + Decimal(v)) == Some(v)
  {
    Spelled(v, "", "", "+", "", "");
    assert "" + "" + "+" + Decimal(v) + "" + "" == "+" + Decimal(v);
  }

  /** The printer and the parser are inverses, for every counter. */
  lemma DisplayRoundTrips(v: Version)
    ensures Parse(Display(v)) == Some(v)
  {
    DecimalValue(v);
    assert Display(v) == "" + ("\"" + ("" + Decimal(v)) + "\"") + "";
    TagShapeParses(Display(v), v, "", "\"", "", Decimal(v), "\"", "");
  }
}
