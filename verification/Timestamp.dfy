/** `TimestampFormatter`: the format split around `%Qms`, `%Qus` or `%Qns`, and the text of a
    timestamp, of which the parts that change once a second are cached. */
module Timestamps {
  import opened Numerals
  import opened Outbuf
  import opened SpecInfos
  import F = SpecFields
  import I = IntegerField
  import S = FormatScan

  datatype Timezone = LocalTime | GmtTime

  /** A part of the format at a second, as `localtime`/`gmtime` and `strftime` print it. */
  type Strftime = (seq<char>, Timezone, int) -> seq<char>

  datatype Additional = Absent | Qms | Qus | Qns

  function Name(a: Additional): seq<char> {
    match a
    case Absent => ""
    case Qms => "%Qms"
    case Qus => "%Qus"
    case Qns => "%Qns"
  }

  const SPECIFIER_LENGTH: nat := 4

  // ---------------------------------------------------------------- splitting the format

  predicate Occurs(s: seq<char>, a: Additional, i: int) {
    a != Absent && 0 <= i && i + SPECIFIER_LENGTH <= |s| && s[i..i + SPECIFIER_LENGTH] == Name(a)
  }

  /** Specifiers do not overlap. */
  lemma Disjoint(s: seq<char>, a: Additional, i: int, b: Additional, j: int)
    requires Occurs(s, a, i) && Occurs(s, b, j) && i < j
    ensures i + SPECIFIER_LENGTH <= j
  {
    var x, y := s[i..i + SPECIFIER_LENGTH], s[j..j + SPECIFIER_LENGTH];
    assert s[j] == y[0] == '%';
    assert s[i + 1] == x[1] != '%' && s[i + 2] == x[2] != '%' && s[i + 3] == x[3] != '%';
  }

  datatype Parts =
    | Split(part1: seq<char>, additional: Additional, part2: seq<char>)
    | OnlyOneAllowed
    | MutuallyExclusive

  /** `std::string::find`: the first occurrence at or behind `from`, -1 for `npos`. */
  method Find(s: seq<char>, a: Additional, from: nat) returns (i: int)
    requires a != Absent
    ensures i >= 0 ==> i >= from && Occurs(s, a, i) && forall j | from <= j < i :: !Occurs(s, a, j)
    ensures i < 0 ==> i == -1 && forall j | from <= j :: !Occurs(s, a, j)
  {
    i := from;
    while i + SPECIFIER_LENGTH <= |s|
      invariant i >= from && forall j | from <= j < i :: !Occurs(s, a, j)
      decreases |s| - i
    {
      if s[i..i + SPECIFIER_LENGTH] == Name(a) {
        return;
      }
      i := i + 1;
    }
    i := -1;
  }

  /** The occurrence of one kind; a second one of the same kind is an error. */
  method FindOnly(s: seq<char>, a: Additional) returns (i: int, twice: bool)
    requires a != Absent
    ensures i >= 0 ==> Occurs(s, a, i)
    ensures i >= 0 && !twice ==> forall j | Occurs(s, a, j) :: j == i
    ensures i < 0 ==> !twice && forall j :: !Occurs(s, a, j)
    ensures twice ==> exists j :: j != i && Occurs(s, a, j)
  {
    i := Find(s, a, 0);
    twice := false;
    if i >= 0 {
      var again := Find(s, a, i + SPECIFIER_LENGTH);
      twice := again >= 0;
      if !twice {
        forall j | Occurs(s, a, j) ensures j == i {
          if j > i { Disjoint(s, a, i, a, j); }
        }
      }
    }
  }

  /** No two specifiers, of one kind or of two. */
  ghost predicate AtMostOne(s: seq<char>) {
    forall a, i, b, j | Occurs(s, a, i) && Occurs(s, b, j) :: a == b && i == j
  }

  /** The first half of the constructor.  It fails exactly for formats with more than one of the
      three specifiers, and what it returns is the format around the one, or all of it. */
  method SplitFormat(s: seq<char>) returns (r: Parts)
    ensures r.Split? <==> AtMostOne(s)
    ensures r.Split? ==> s == r.part1 + Name(r.additional) + r.part2
    ensures r.Split? && r.additional == Absent ==> r.part2 == [] && forall a, i :: !Occurs(s, a, i)
    ensures r == OnlyOneAllowed ==> exists a, i, j :: i != j && Occurs(s, a, i) && Occurs(s, a, j)
    ensures r == MutuallyExclusive ==> exists a, i, b, j :: a != b && Occurs(s, a, i) && Occurs(s, b, j)
  {
    hide Occurs;
    var additional, specifierBegin := Absent, 0;
    var ms, msTwice := FindOnly(s, Qms);
    if ms >= 0 {
      additional, specifierBegin := Qms, ms;
      if msTwice { return OnlyOneAllowed; }
    }
    var us, usTwice := FindOnly(s, Qus);
    if us >= 0 {
      if additional != Absent { return MutuallyExclusive; }
      additional, specifierBegin := Qus, us;
      if usTwice { return OnlyOneAllowed; }
    }
    var ns, nsTwice := FindOnly(s, Qns);
    if ns >= 0 {
      if additional != Absent { return MutuallyExclusive; }
      additional, specifierBegin := Qns, ns;
      if nsTwice { return OnlyOneAllowed; }
    }
    assert forall a, i | Occurs(s, a, i) :: a == additional && i == specifierBegin by {
      forall a, i | Occurs(s, a, i) ensures a == additional && i == specifierBegin {
        NotAbsent(s, a, i);
        if a == Qms {} else if a == Qus {} else {}
      }
    }
    if additional == Absent {
      forall a, i ensures !Occurs(s, a, i) {
        if Occurs(s, a, i) { NotAbsent(s, a, i); }
      }
      r := Split(s, Absent, []);
    } else {
      Around(s, additional, specifierBegin);
      r := Split(s[..specifierBegin], additional, s[specifierBegin + SPECIFIER_LENGTH..]);
    }
  }

  lemma NotAbsent(s: seq<char>, a: Additional, i: int)
    requires Occurs(s, a, i)
    ensures a == Qms || a == Qus || a == Qns
  {
  }

  lemma Around(s: seq<char>, a: Additional, i: int)
    requires Occurs(s, a, i)
    ensures 0 <= i && i + SPECIFIER_LENGTH <= |s|
    ensures s == s[..i] + Name(a) + s[i + SPECIFIER_LENGTH..]
  {
  }

  // ---------------------------------------------------------------- the text of a timestamp

  const NS_PER_SECOND: int := 1_000_000_000

  /** Division as C++ has it: towards zero. */
  function Seconds(ns: int): int {
    if ns >= 0 then ns / NS_PER_SECOND else -((-ns) / NS_PER_SECOND)
  }

  /** The second a timestamp lies in, counted towards zero. */
  lemma SecondsIs(ns: int)
    ensures ns >= 0 ==> 0 <= ns - Seconds(ns) * 1_000_000_000 < 1_000_000_000
    ensures ns < 0 ==> -1_000_000_000 < ns - Seconds(ns) * 1_000_000_000 <= 0
  {
  }

  /** The rest, converted to `uint32_t`. */
  function ExtractedNs(ns: int): (r: nat)
    ensures r < 0x1_0000_0000
  {
    (ns - Seconds(ns) * NS_PER_SECOND) % 0x1_0000_0000
  }

  function Unit(a: Additional): (u: nat)
    requires a != Absent
    ensures u > 0
  {
    match a
    case Qms => 1_000_000
    case Qus => 1_000
    case Qns => 1
  }

  function InUnits(ns: nat, a: Additional): nat
    requires a != Absent
  {
    ns / Unit(a)
  }

  function FractionWidth(a: Additional): nat
    requires a != Absent
  {
    match a
    case Qms => 3
    case Qus => 6
    case Qns => 9
  }

  /** `%03u`, `%06u` or `%09u`. */
  function FractionSpec(a: Additional): SpecInfo
    requires a != Absent
  {
    SpecInfo(0, 0, Flags(false, true, false, false, Plain), Fixed(FractionWidth(a)), Fixed(-1), NUL, 'u', true)
  }

  function Fraction(a: Additional, ns: int): seq<char>
    requires a != Absent
  {
    I.AsCoded(I.ShapeOf(FractionSpec(a), 0, -1), InUnits(ExtractedNs(ns), a), false)
  }

  /** The text without a cache: both parts at this second, the fraction between them. */
  function Recomputed(strftime: Strftime, zone: Timezone, part1: seq<char>, a: Additional, part2: seq<char>,
      ns: int): seq<char>
    requires a != Absent
  {
    strftime(part1, zone, Seconds(ns)) + Fraction(a, ns)
        + (if part2 == [] then [] else strftime(part2, zone, Seconds(ns)))
  }

  const BUFFER_SIZE: nat := 100

  class TimestampFormatter {
    const strftime: Strftime
    const part1: seq<char>
    const part2: seq<char>
    const additional: Additional
    const zone: Timezone
    const formatted: array<char>
    var preFormatted1: seq<char>
    var preFormatted2: seq<char>
    var cachedTimestamp: int

    /** The cache holds the two parts at the cached second. */
    ghost predicate Valid()
      reads this
    {
      && formatted.Length == BUFFER_SIZE
      && preFormatted1 == strftime(part1, zone, cachedTimestamp)
      && (part2 != [] ==> preFormatted2 == strftime(part2, zone, cachedTimestamp))
    }

    /** The second half of the constructor; `now` is what `std::time` returned. */
    constructor (split: Parts, zone: Timezone, now: int, strftime: Strftime)
      requires split.Split?
      ensures Valid() && part1 == split.part1 && part2 == split.part2 && additional == split.additional
      ensures this.zone == zone && this.strftime == strftime && fresh(formatted)
    {
      this.strftime, this.zone := strftime, zone;
      part1, part2, additional := split.part1, split.part2, split.additional;
      formatted := new char[BUFFER_SIZE];
      cachedTimestamp := now;
      preFormatted1 := strftime(split.part1, zone, now);
      preFormatted2 := if split.part2 != [] then strftime(split.part2, zone, now) else [];
    }

    /** `format_timestamp`.  Whatever timestamps have come before and in whatever order, the buffer
        then holds the text that recomputing both parts gives, cut off at 99 characters; without
        one of the three specifiers it is left as it was. */
    method FormatTimestamp(timestampNs: int)
      requires Valid()
      modifies this, formatted
      ensures Valid()
      ensures additional == Absent ==> formatted[..] == old(formatted[..])
      ensures additional != Absent ==>
        var kept := Fitting(Recomputed(strftime, zone, part1, additional, part2, timestampNs), BUFFER_SIZE);
        && formatted[..|kept|] == kept && formatted[|kept|] == NUL && |kept| <= 99
        && (|kept| < 99 ==> kept == Recomputed(strftime, zone, part1, additional, part2, timestampNs))
    {
      var timestampSecs := Seconds(timestampNs);
      if timestampSecs != cachedTimestamp {
        cachedTimestamp := timestampSecs;
        preFormatted1 := strftime(part1, zone, cachedTimestamp);
        if part2 != [] {
          preFormatted2 := strftime(part2, zone, cachedTimestamp);
        }
      }
      if additional != Absent {
        FractionFits(additional, timestampNs);
        WriteText(formatted, preFormatted1, additional, InUnits(ExtractedNs(timestampNs), additional), part2 != [],
            preFormatted2);
      }
    }
  }

  /** `CFMT_STR` with "%s%03u", "%s%03u%s" and so on. */
  method WriteText(buffer: array<char>, text1: seq<char>, a: Additional, fraction: nat, two: bool, text2: seq<char>)
    requires a != Absent && buffer.Length == BUFFER_SIZE && fraction < 0x1_0000_0000
    modifies buffer
    ensures var kept := Fitting(text1 + I.AsCoded(I.ShapeOf(FractionSpec(a), 0, -1), fraction, false)
        + (if two then text2 else []), BUFFER_SIZE);
      buffer[..|kept|] == kept && buffer[|kept|] == NUL
  {
    hide I.AsCoded, I.ShapeOf;
    var out := new OutbufArg(buffer, BUFFER_SIZE);
    out.WriteBlock(text1);
    assert I.Converted(fraction, Plain, 'u') == fraction && I.Abs(fraction) == fraction;
    I.ConvertInteger(out, FractionSpec(a), fraction, 0, -1);
    if two {
      out.WriteBlock(text2);
    }
    ghost var coded := I.AsCoded(I.ShapeOf(FractionSpec(a), 0, -1), fraction, false);
    assert out.text == text1 + coded + (if two then text2 else []) by {
      assert [] + text1 == text1 && text1 + coded + [] == text1 + coded;
    }
    out.Done();
  }

  lemma FractionFits(a: Additional, ns: int)
    requires a != Absent
    ensures InUnits(ExtractedNs(ns), a) < 0x1_0000_0000
  {
  }

  /** The formats in the code, and what compiling them gives. */
  function FormatTokens(a: Additional, two: bool): seq<S.Token>
    requires a != Absent
  {
    [S.Valid([], 's'), S.Valid(['0', DigitChar(FractionWidth(a), false)], 'u')]
        + (if two then [S.Valid([], 's')] else [])
  }

  lemma FormatIsFractionSpec(a: Additional, two: bool)
    requires a != Absent
    ensures var fmt := S.SourceOf(FormatTokens(a, two)) + [NUL];
      S.CStr(fmt) && S.Tokens(fmt) == FormatTokens(a, two)
    ensures F.Meaning(F.Items(['0', DigitChar(FractionWidth(a), false)]), 'u') == FractionSpec(a)
  {
    FormatTokensOk(a, two);
    S.TokensOfSource(FormatTokens(a, two));
    FractionSpecRead(a);
  }

  lemma FormatTokensOk(a: Additional, two: bool)
    requires a != Absent
    ensures S.TokensOk(FormatTokens(a, two))
  {
    var ts, last := FormatTokens(a, two), if two then [S.Valid([], 's')] else [];
    assert S.TokenOk(S.Valid([], 's')) && S.TokenOk(ts[1]);
    hide S.TokenOk;
    hide S.TokensOk;
    assert ts[1..][1..] == last && (two ==> last[1..] == []);
    S.NothingOk();
    if two { S.TokensOkCons(last); }
    S.TokensOkCons(ts[1..]);
    S.TokensOkCons(ts);
  }

  lemma FractionSpecRead(a: Additional)
    requires a != Absent
    ensures F.Meaning(F.Items(['0', DigitChar(FractionWidth(a), false)]), 'u') == FractionSpec(a)
  {
    var spec, w := FractionSpec(a), FractionWidth(a);
    assert F.CanonicalItems(spec) == [F.Flag('0'), F.Width(w)];
    assert "0" + Numeral(w, 10, false) == ['0', DigitChar(w, false)];
    hide F.CanonicalItems, F.Meaning, F.Items, Numeral;
    F.ReadUndoesPrint(spec);
    PrintTwo(F.Flag('0'), F.Width(w));
  }

  lemma PrintTwo(x: F.Item, y: F.Item)
    ensures F.Print([x, y]) == F.Text(x) + F.Text(y)
  {
    assert [x, y][1..] == [y] && [y][1..] == [] && F.Print([]) == [];
    assert F.Print([y]) == F.Text(y) + F.Print([]);
  }

  // ---------------------------------------------------------------- the fraction

  lemma {:induction false} LengthAtLeast(v: nat, n: nat)
    requires v >= Pow(10, n)
    ensures |Numeral(v, 10, false)| > n
    decreases n
  {
    if n > 0 {
      assert Pow(10, n) == 10 * Pow(10, n - 1);
      PowPositive(n - 1);
      LengthAtLeast(v / 10, n - 1);
    }
  }

  lemma {:induction false} PowPositive(n: nat)
    ensures Pow(10, n) >= 1
  {
    if n > 0 { PowPositive(n - 1); }
  }

  lemma PowersOfTen()
    ensures Pow(10, 3) == 1_000 && Pow(10, 6) == 1_000_000 && Pow(10, 9) == 1_000_000_000
  {
    assert Pow(10, 3) == 10 * Pow(10, 2) == 10 * (10 * Pow(10, 1)) == 10 * (10 * (10 * Pow(10, 0)));
    assert Pow(10, 6) == 10 * Pow(10, 5) == 10 * (10 * Pow(10, 4)) == 10 * (10 * (10 * Pow(10, 3)));
    assert Pow(10, 9) == 10 * Pow(10, 8) == 10 * (10 * Pow(10, 7)) == 10 * (10 * (10 * Pow(10, 6)));
  }

  /** The digits of the fraction: zeros in front as far as the width asks for them. */
  lemma FractionIs(a: Additional, ns: int)
    requires a != Absent
    ensures var num := Numeral(InUnits(ExtractedNs(ns), a), 10, false);
      Fraction(a, ns) == I.Zeros(FractionWidth(a) - |num|) + num
  {
    hide Numeral, ExtractedNs, InUnits;
    var u := InUnits(ExtractedNs(ns), a);
    var num := Numeral(u, 10, false);
    var f := I.ShapeOf(FractionSpec(a), 0, -1);
    assert I.Proper(f, u) == [] + num && [] + num == num;
    assert I.Zeros(f.p - |num|) + num == num;
  }

  /** A timestamp gets exactly 3, 6 or 9 fraction digits if and only if it is not negative or lies
      on a whole second: the negative rest of any other wraps around in 32 bits. */
  lemma FractionDigitsIff(a: Additional, ns: int)
    requires a != Absent
    ensures |Fraction(a, ns)| == FractionWidth(a) <==> ns >= 0 || ns % NS_PER_SECOND == 0
  {
    hide Fraction, Numeral, Pow, InUnits, ExtractedNs;
    FractionIs(a, ns);
    UnitsInWidth(a, ns);
    var u, w := InUnits(ExtractedNs(ns), a), FractionWidth(a);
    if ns >= 0 || ns % NS_PER_SECOND == 0 {
      LengthBound(u, 10, false, w);
    } else {
      LengthAtLeast(u, w);
    }
    PaddedLength(w, Numeral(u, 10, false));
  }

  lemma PaddedLength(w: nat, num: seq<char>)
    ensures |I.Zeros(w - |num|) + num| == w <==> |num| <= w
  {
  }

  lemma UnitsInWidth(a: Additional, ns: int)
    requires a != Absent
    ensures FractionWidth(a) > 0
    ensures InUnits(ExtractedNs(ns), a) < Pow(10, FractionWidth(a)) <==> ns >= 0 || ns % NS_PER_SECOND == 0
  {
    PowersOfTen();
    Rests(ns);
    hide ExtractedNs, Pow;
  }

  lemma Rests(ns: int)
    ensures ns >= 0 || ns % NS_PER_SECOND == 0 ==> ExtractedNs(ns) == ns % NS_PER_SECOND
    ensures ns < 0 && ns % NS_PER_SECOND != 0 ==> ExtractedNs(ns) >= 3_294_967_297
  {
  }

  /** These digits are the fraction of the second, cut to their number. */
  lemma FractionValue(a: Additional, ns: int)
    requires a != Absent && (ns >= 0 || ns % NS_PER_SECOND == 0)
    ensures AllDigits(Fraction(a, ns), 10, false)
    ensures Value(Fraction(a, ns), 10) == InUnits(ns % NS_PER_SECOND, a)
  {
    hide *;
    FractionIs(a, ns);
    Rests(ns);
    ValueOfPadded(InUnits(ExtractedNs(ns), a), FractionWidth(a));
  }

  /** The fraction of a timestamp that is not negative, in words: as many whole units have passed
      since the second as its digits say, the unit being a millisecond, a microsecond or a
      nanosecond if there are 3, 6 or 9 digits, as `%Qms`, `%Qus` and `%Qns` ask for. */
  lemma FractionOfSecond(a: Additional, ns: int)
    requires a != Absent && ns >= 0
    ensures var f, rest := Fraction(a, ns), ns % 1_000_000_000;
      var unit := if |f| == 3 then 1_000_000 else if |f| == 6 then 1_000 else 1;
      && |f| == (if Name(a) == "%Qms" then 3 else if Name(a) == "%Qus" then 6 else 9)
      && (Name(a) == "%Qms" || Name(a) == "%Qus" || Name(a) == "%Qns")
      && AllDigits(f, 10, false) && Value(f, 10) * unit <= rest < (Value(f, 10) + 1) * unit
  {
    hide Fraction, Value, AllDigits;
    FractionDigitsIff(a, ns);
    FractionValue(a, ns);
  }

  /** The whole text of a timestamp that is not negative: the two parts at the second the timestamp
      lies in, and between them the digits of what has passed of it. */
  lemma RecomputedIs(strftime: Strftime, zone: Timezone, part1: seq<char>, a: Additional, part2: seq<char>, ns: int)
    returns (f: seq<char>)
    requires a != Absent && ns >= 0
    ensures Recomputed(strftime, zone, part1, a, part2, ns)
         == strftime(part1, zone, ns / 1_000_000_000) + f
            + (if part2 == [] then [] else strftime(part2, zone, ns / 1_000_000_000))
    ensures var unit := if |f| == 3 then 1_000_000 else if |f| == 6 then 1_000 else 1;
      && |f| == (if Name(a) == "%Qms" then 3 else if Name(a) == "%Qus" then 6 else 9)
      && AllDigits(f, 10, false) && Value(f, 10) * unit <= ns % 1_000_000_000 < (Value(f, 10) + 1) * unit
  {
    hide Fraction, Value, AllDigits;
    f := Fraction(a, ns);
    FractionOfSecond(a, ns);
  }

  lemma ValueOfPadded(u: nat, w: nat)
    ensures var num := Numeral(u, 10, false);
      var s := I.Zeros(w - |num|) + num;
      AllDigits(s, 10, false) && Value(s, 10) == u
  {
    hide Value, Numeral, AllDigits;
    var num := Numeral(u, 10, false);
    ValueOfNumeral(u, 10, false);
    ValueOfZeros(I.Zeros(w - |num|), num, 10);
    ZerosAreDigits(I.Zeros(w - |num|), num);
  }

  lemma ZerosAreDigits(zeros: seq<char>, num: seq<char>)
    requires (forall i | 0 <= i < |zeros| :: zeros[i] == '0') && AllDigits(num, 10, false)
    ensures AllDigits(zeros + num, 10, false)
  {
  }
}
