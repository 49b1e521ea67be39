/** The integer conversions of `converter_single` against section 7.21.6.1 of ISO/IEC 9899:2011:
    what the code writes, what the standard asks for, and exactly when the two differ. */
module IntegerField {
  import opened Bytes
  import opened Numerals
  import opened Outbuf
  import opened SpecInfos

  const BUFSIZE_INT: nat := 32

  predicate IsInteger(c: char) { c in "diuoxX" }

  predicate IsSigned(c: char) { c == 'd' || c == 'i' }

  function Base(c: char): (b: nat)
    ensures IsBase(b)
  {
    if c == 'o' then 8 else if c == 'x' || c == 'X' then 16 else 10
  }

  // ---------------------------------------------------------------- the value converted

  /** The values of the integer type that a length modifier names. */
  function Modulus(length: Length): nat {
    match length
    case CharInt => 0x100
    case ShortInt => 0x1_0000
    case Plain => 0x1_0000_0000
    case _ => TWO_TO_64
  }

  /** `static_cast` to the unsigned and to the signed type of that size. */
  function AsUnsigned(v: int, length: Length): (u: nat)
    ensures u < Modulus(length)
  {
    v % Modulus(length)
  }

  function AsSigned(v: int, length: Length): int {
    var u := AsUnsigned(v, length);
    if u < Modulus(length) / 2 then u else u - Modulus(length)
  }

  /** The value that the conversion specifier `c` prints. */
  function Converted(v: int, length: Length, c: char): int {
    if IsSigned(c) then AsSigned(v, length) else AsUnsigned(v, length)
  }

  function Abs(v: int): nat { if v < 0 then -v else v }

  lemma SignedRange(v: int, length: Length)
    ensures -(TWO_TO_64 as int) / 2 <= AsSigned(v, length) < TWO_TO_64 / 2
    ensures AsUnsigned(v, length) < TWO_TO_64
  {
  }

  lemma TwosComplement(x: int)
    requires -(TWO_TO_64 as int) / 2 <= x < TWO_TO_64 / 2
    ensures x % TWO_TO_64 == if x < 0 then x + TWO_TO_64 else x
    ensures x < 0 ==> (0 - (x + TWO_TO_64)) % TWO_TO_64 == -x
  {
  }

  /** `SARG`/`UARG` and the negation behind them: the magnitude of every converted value, the most
      negative one included, fits the unsigned type it is kept in. */
  method Magnitude(v: int, length: Length, c: char) returns (ujval: nat, negative: bool)
    ensures ujval == Abs(Converted(v, length, c)) < TWO_TO_64
    ensures negative <==> Converted(v, length, c) < 0
  {
    SignedRange(v, length);
    TwosComplement(AsSigned(v, length));
    hide AsSigned, AsUnsigned, Modulus;
    negative := false;
    if IsSigned(c) {
      ujval := AsSigned(v, length) % TWO_TO_64;
      if ujval >= TWO_TO_64 / 2 {
        ujval := (0 - ujval) % TWO_TO_64;
        negative := true;
      }
    } else {
      ujval := AsUnsigned(v, length);
    }
  }

  // ---------------------------------------------------------------- width and precision

  /** The field of one conversion: width, precision (negative: none), and the flags left. */
  datatype Shape = Shape(w: nat, p: int, left: bool, zeroPad: bool, alt: bool, sign: char, c: char)

  /** How the width and precision arguments enter: a negative width turns into left adjustment, a
      negative precision counts as none. */
  function ShapeOf(s: SpecInfo, w: int, p: int): Shape
    requires SpecOk(s)
  {
    Shape(if s.width.Dynamic? then Abs(w) else s.width.value,
          if s.prec.Dynamic? then (if p < 0 then -1 else p) else s.prec.value,
          s.flags.leftAdjust || (s.width.Dynamic? && w < 0), s.flags.zeroPad, s.flags.alt, s.sign, s.terminal)
  }

  /** The four branches that do it. */
  method EffectiveFields(s: SpecInfo, w: int, p: int) returns (W: nat, P: int, left: bool)
    requires SpecOk(s)
    ensures ShapeOf(s, w, p) == Shape(W, P, left, s.flags.zeroPad, s.flags.alt, s.sign, s.terminal)
  {
    left := s.flags.leftAdjust;
    if s.width != Dynamic && s.prec == Dynamic {
      W := s.width.value;
      P := if p < 0 then -1 else p;
    } else if s.width == Dynamic && s.prec != Dynamic {
      var width := w;
      if width < 0 {
        width := -width;
        left := true;
      }
      W := width;
      P := s.prec.value;
    } else if s.width != Dynamic && s.prec != Dynamic {
      W := s.width.value;
      P := s.prec.value;
    } else {
      P := if p < 0 then -1 else p;
      var width := w;
      if width < 0 {
        width := -width;
        left := true;
      }
      W := width;
    }
  }

  // ---------------------------------------------------------------- what the standard asks for

  function Blanks(n: int): seq<char> { Padding(' ', n) }
  function Zeros(n: int): seq<char> { Padding('0', n) }

  /** "-", or what the `+` and space flags put in its place; only signed conversions have one. */
  function SignText(f: Shape, negative: bool): (s: seq<char>)
    ensures |s| <= 1 && (forall i | 0 <= i < |s| :: s[i] == f.sign || s[i] == '-')
  {
    if !IsSigned(f.c) then [] else if negative then "-" else if f.sign == NUL then [] else [f.sign]
  }

  function Digits(u: nat, c: char): (s: seq<char>)
    ensures |s| > 0
  {
    Numeral(u, Base(c), c == 'X')
  }

  /** The digits under a precision; a zero value with precision zero has none, and `#o` raises the
      precision as far as needed to make the first digit a zero. */
  function StandardDigits(f: Shape, u: nat): seq<char> {
    var digits := if u == 0 && f.p == 0 then [] else Zeros(f.p - |Digits(u, f.c)|) + Digits(u, f.c);
    if f.alt && f.c == 'o' && (digits == [] || digits[0] != '0') then "0" + digits else digits
  }

  function HexPrefix(f: Shape, u: nat): seq<char> {
    if f.alt && (f.c == 'x' || f.c == 'X') && u != 0 then ['0', f.c] else []
  }

  /** The padding of a field: blanks on one side, or zeros behind what leads it; the `0` flag is
      ignored next to `-` or a precision. */
  function Arrange(f: Shape, front: seq<char>, digits: seq<char>): seq<char> {
    var fill := f.w - |front| - |digits|;
    if f.left then front + digits + Blanks(fill)
    else if f.zeroPad && f.p < 0 then front + Zeros(fill) + digits
    else Blanks(fill) + front + digits
  }

  /** The field of section 7.21.6.1: sign and prefix lead it. */
  function Standard(f: Shape, u: nat, negative: bool): seq<char> {
    Arrange(f, SignText(f, negative) + HexPrefix(f, u), StandardDigits(f, u))
  }

  // ---------------------------------------------------------------- what the code writes

  /** `cp`, `size`: the digits with whatever the `#` flag puts in front of them. */
  function Proper(f: Shape, u: nat): seq<char> {
    (if f.alt && f.c == 'o' && u != 0 then "0" else HexPrefix(f, u)) + Digits(u, f.c)
  }

  /** To the code only the sign leads the field: a `0x` is among the digits, behind the zeros. */
  function AsCoded(f: Shape, u: nat, negative: bool): seq<char> {
    Arrange(f, SignText(f, negative), Zeros(f.p - |Proper(f, u)|) + Proper(f, u))
  }

  /** The digits in the 32-character buffer, and the prefix that is written in front of them
      there if the first digit is no zero. */
  method DigitsWithPrefix(ghost f: Shape, c: char, alt: bool, u: nat) returns (cp: seq<char>)
    requires f.c == c && f.alt == alt && u < TWO_TO_64
    ensures cp == Proper(f, u)
  {
    var buf := new char[BUFSIZE_INT];
    var it := FormatPairs(buf, u, Base(c), c == 'X');
    AtMost22(u, Base(c), c == 'X');
    NoLeadingZero(u, Base(c), c == 'X');
    ghost var digits := buf[it..];
    assert buf[it] == digits[0];
    if c == 'o' && alt {
      if buf[it] != '0' {
        it := it - 1;
        buf[it] := '0';
        assert buf[it..] == "0" + digits;
      }
    } else if (c == 'x' || c == 'X') && alt {
      if buf[it] != '0' {
        it := it - 1;
        buf[it] := c;
        it := it - 1;
        buf[it] := '0';
        assert buf[it..] == ['0', c] + digits;
      }
    }
    cp := buf[it..];
  }

  /** Blanks, sign and zeros in front of the digits. */
  method PutFront(out: OutbufArg, fill: int, zeroPad: bool, left: bool, sign: seq<char>)
    requires out.Valid() && |sign| <= 1
    modifies out, out.buf
    ensures out.Valid() && out.Beyond() == old(out.Beyond())
    ensures out.text == old(out.text) + ((if !zeroPad && !left then Blanks(fill) else []) + sign
        + (if zeroPad && !left then Zeros(fill) else []))
  {
    hide Padding;
    if !zeroPad && !left {
      out.WritePaddings(' ', fill);
    }
    if sign != [] {
      out.Write(sign[0]);
    }
    if zeroPad && !left {
      out.WritePaddings('0', fill);
    }
  }

  /** The zeros of the precision, the digits, and blanks behind them. */
  method PutBack(out: OutbufArg, zeros: int, cp: seq<char>, fill: int, left: bool)
    requires out.Valid()
    modifies out, out.buf
    ensures out.Valid() && out.Beyond() == old(out.Beyond())
    ensures out.text == old(out.text) + (Zeros(zeros) + cp + (if left then Blanks(fill) else []))
  {
    hide Padding;
    out.WritePaddings('0', zeros);
    out.WriteBlock(cp);
    if left {
      out.WritePaddings(' ', fill);
    }
  }

  /** The integer part of `converter_single`: fields, magnitude, digits, and the paddings around them. */
  method ConvertInteger(out: OutbufArg, s: SpecInfo, v: int, w: int, p: int)
    requires out.Valid() && SpecOk(s) && IsInteger(s.terminal)
    modifies out, out.buf
    ensures out.Valid() && out.Beyond() == old(out.Beyond())
    ensures var value := Converted(v, s.flags.length, s.terminal);
      out.text == old(out.text) + AsCoded(ShapeOf(s, w, p), Abs(value), value < 0)
  {
    hide Numeral, Converted, Padding, Proper, Arrange, OutbufArg.Valid, OutbufArg.Beyond;
    var W, P, left := EffectiveFields(s, w, p);
    ghost var f := ShapeOf(s, w, p);
    var ujval, negative := Magnitude(v, s.flags.length, s.terminal);
    var sign := if negative then '-' else s.sign;
    var zeroPad := s.flags.zeroPad;
    var cp := DigitsWithPrefix(f, s.terminal, s.flags.alt, ujval);
    var size := |cp|;
    if P >= 0 {
      zeroPad := false;
    }
    var realsz := if P > size then P else size;
    var prefix: seq<char> := [];
    if IsSigned(s.terminal) && sign != NUL {
      realsz := realsz + 1;
      prefix := [sign];
    }
    assert realsz == |prefix| + |Zeros(P - size) + cp| && zeroPad == (f.zeroPad && f.p < 0);
    assert AsCoded(f, ujval, negative) == Arrange(f, prefix, Zeros(P - size) + cp);
    hide AsCoded, SignText, ShapeOf;
    PutField(out, f, W - realsz, zeroPad, left, prefix, P - size, cp);
  }

  /** The two writes of a field. */
  method PutField(out: OutbufArg, ghost f: Shape, fill: int, zeroPad: bool, left: bool, sign: seq<char>,
      zeros: int, cp: seq<char>)
    requires out.Valid() && |sign| <= 1
    requires fill == f.w - |sign| - |Zeros(zeros) + cp| && zeroPad == (f.zeroPad && f.p < 0) && left == f.left
    modifies out, out.buf
    ensures out.Valid() && out.Beyond() == old(out.Beyond())
    ensures out.text == old(out.text) + Arrange(f, sign, Zeros(zeros) + cp)
  {
    hide Padding, Arrange, OutbufArg.Valid, OutbufArg.Beyond;
    PutFront(out, fill, zeroPad, left, sign);
    PutBack(out, zeros, cp, fill, left);
    Arranged(f, old(out.text), sign, Zeros(zeros), cp);
  }

  /** Two writes make the field: one for what is in front of the digits, one for the rest. */
  lemma Arranged(f: Shape, t: seq<char>, front: seq<char>, zeros: seq<char>, cp: seq<char>)
    ensures var fill, zeroPad := f.w - |front| - |zeros + cp|, f.zeroPad && f.p < 0;
      t + ((if !zeroPad && !f.left then Blanks(fill) else []) + front
          + (if zeroPad && !f.left then Zeros(fill) else []))
        + (zeros + cp + (if f.left then Blanks(fill) else []))
      == t + Arrange(f, front, zeros + cp)
  {
    hide Padding;
    var fill := f.w - |front| - |zeros + cp|;
    if f.left {
      assert t + ([] + front + []) + (zeros + cp + Blanks(fill)) == t + (front + (zeros + cp) + Blanks(fill));
    } else if f.zeroPad && f.p < 0 {
      assert t + ([] + front + Zeros(fill)) + (zeros + cp + []) == t + (front + Zeros(fill) + (zeros + cp));
    } else {
      assert t + (Blanks(fill) + front + []) + (zeros + cp + []) == t + (Blanks(fill) + front + (zeros + cp));
    }
  }

  // ---------------------------------------------------------------- the two compared

  predicate ShapeOk(f: Shape) {
    IsInteger(f.c) && f.p >= -1 && f.sign in [NUL, '+', ' ']
  }

  /** Zero under precision zero, unless `#o` asks for its one digit. */
  predicate NoDigits(f: Shape, u: nat) {
    u == 0 && f.p == 0 && !(f.alt && f.c == 'o')
  }

  /** A hexadecimal prefix with zeros between it and the digits. */
  predicate PrefixThenZeros(f: Shape, u: nat) {
    && HexPrefix(f, u) != []
    && (f.p > |Digits(u, f.c)| || (f.p < 0 && f.zeroPad && !f.left && f.w > |Digits(u, f.c)| + 2))
  }

  /** The code writes the standard's field for every value, flag, width and precision except these
      two families, in which it never does. */
  lemma ConformsIff(f: Shape, u: nat, negative: bool)
    requires ShapeOk(f)
    ensures AsCoded(f, u, negative) == Standard(f, u, negative) <==> !NoDigits(f, u) && !PrefixThenZeros(f, u)
  {
    if NoDigits(f, u) {
      DiffersWithoutDigits(f, u, negative);
    } else if PrefixThenZeros(f, u) {
      DiffersAfterPrefix(f, u, negative);
    } else {
      Conforms(f, u, negative);
    }
  }

  lemma Conforms(f: Shape, u: nat, negative: bool)
    requires ShapeOk(f) && !NoDigits(f, u) && !PrefixThenZeros(f, u)
    ensures AsCoded(f, u, negative) == Standard(f, u, negative)
  {
    hide Numeral;
    if f.alt && f.c == 'o' && u != 0 {
      ConformsOctal(f, u, negative);
    } else if HexPrefix(f, u) != [] {
      ConformsPrefixed(f, u, negative);
    } else {
      ConformsPlain(f, u, negative);
    }
  }

  lemma ConformsPlain(f: Shape, u: nat, negative: bool)
    requires ShapeOk(f) && !NoDigits(f, u) && HexPrefix(f, u) == [] && !(f.alt && f.c == 'o' && u != 0)
    ensures AsCoded(f, u, negative) == Standard(f, u, negative)
  {
    NoLeadingZero(u, Base(f.c), f.c == 'X');
    hide Numeral, Arrange;
    assert Proper(f, u) == [] + Digits(u, f.c);
    assert SignText(f, negative) + [] == SignText(f, negative);
    assert StandardDigits(f, u) == Zeros(f.p - |Proper(f, u)|) + Proper(f, u);
  }

  lemma ConformsOctal(f: Shape, u: nat, negative: bool)
    requires ShapeOk(f) && f.alt && f.c == 'o' && u != 0
    ensures AsCoded(f, u, negative) == Standard(f, u, negative)
  {
    NoLeadingZero(u, Base(f.c), f.c == 'X');
    hide Numeral;
    var num := Digits(u, f.c);
    assert Proper(f, u) == "0" + num;
    assert StandardDigits(f, u) == Zeros(f.p - |num| - 1) + ("0" + num) by {
      if f.p > |num| {
        assert Zeros(f.p - |num|) == Zeros(f.p - |num| - 1) + "0";
      }
    }
    assert SignText(f, negative) == [] && HexPrefix(f, u) == [];
    hide Arrange;
    assert StandardDigits(f, u) == Zeros(f.p - |Proper(f, u)|) + Proper(f, u);
  }

  lemma ConformsPrefixed(f: Shape, u: nat, negative: bool)
    requires ShapeOk(f) && HexPrefix(f, u) != [] && !PrefixThenZeros(f, u)
    ensures AsCoded(f, u, negative) == Standard(f, u, negative)
  {
    hide Numeral;
    var num := Digits(u, f.c);
    assert Zeros(f.p - |num|) == [] && StandardDigits(f, u) == num;
    assert Proper(f, u) == ['0', f.c] + num;
    assert SignText(f, negative) == [];
    hide Digits, Proper, StandardDigits, HexPrefix, SignText, Padding;
    PrefixInFront(f, ['0', f.c], num);
  }

  lemma PrefixInFront(f: Shape, prefix: seq<char>, num: seq<char>)
    requires !(f.p < 0 && f.zeroPad && !f.left && f.w > |num| + |prefix|) && f.p <= |num|
    ensures Arrange(f, [], Zeros(f.p - |prefix + num|) + (prefix + num)) == Arrange(f, [] + prefix, num)
  {
    assert Zeros(f.p - |prefix + num|) == [];
  }

  lemma DiffersWithoutDigits(f: Shape, u: nat, negative: bool)
    requires ShapeOk(f) && NoDigits(f, u)
    ensures AsCoded(f, u, negative) != Standard(f, u, negative)
  {
    var coded, std, sgn := AsCoded(f, u, negative), Standard(f, u, negative), SignText(f, negative);
    assert Proper(f, u) == "0";
    if |coded| == |std| {
      if f.left {
        assert coded[|sgn|] == '0' && std[|sgn|] == ' ';
      } else {
        assert coded[|coded| - 1] == '0' && std[|std| - 1] != '0';
      }
    }
  }

  lemma DiffersAfterPrefix(f: Shape, u: nat, negative: bool)
    requires ShapeOk(f) && PrefixThenZeros(f, u)
    ensures AsCoded(f, u, negative) != Standard(f, u, negative)
  {
    hide Numeral;
    var coded, std, num := AsCoded(f, u, negative), Standard(f, u, negative), Digits(u, f.c);
    NoLeadingZero(u, Base(f.c), f.c == 'X');
    assert Proper(f, u) == ['0', f.c] + num;
    if |coded| == |std| && f.p > |num| {
      if f.left && f.p <= |num| + 2 {
        assert coded[2] == num[0] && std[2] == '0';
      } else if f.left {
        assert coded[1] == '0' && std[1] == f.c;
      } else {
        assert coded[f.w - f.p - 2] == ' ' && std[f.w - f.p - 2] == '0';
      }
    } else if |coded| == |std| {
      assert coded[1] == '0' && std[1] == f.c;
    }
  }

  // ---------------------------------------------------------------- reading a field back

  predicate IsAnyDigit(c: char, b: nat) { IsDigitOf(c, b, true) || IsDigitOf(c, b, false) }

  function SkipBlanks(s: seq<char>): seq<char> {
    if s != [] && s[0] == ' ' then SkipBlanks(s[1..]) else s
  }

  function DigitRun(s: seq<char>, b: nat): seq<char> {
    if s == [] || !IsAnyDigit(s[0], b) then [] else [s[0]] + DigitRun(s[1..], b)
  }

  function Unprefixed(s: seq<char>, b: nat): seq<char> {
    if b == 16 && |s| > 2 && s[0] == '0' && (s[1] == 'x' || s[1] == 'X') && IsAnyDigit(s[2], 16) then s[2..] else s
  }

  function ReadMagnitude(s: seq<char>, b: nat): nat { Value(DigitRun(Unprefixed(s, b), b), b) }

  /** What `strtol` makes of a text (section 7.22.1.4): blanks, a sign, a prefix, digits up to the
      first character that is none. */
  function ReadField(s: seq<char>, b: nat): int {
    var t := SkipBlanks(s);
    if t != [] && t[0] == '-' then 0 - ReadMagnitude(t[1..], b)
    else if t != [] && t[0] == '+' then ReadMagnitude(t[1..], b)
    else ReadMagnitude(t, b)
  }

  /** The zeros have come in front of the prefix. */
  predicate ZerosThenPrefix(f: Shape, u: nat) {
    && HexPrefix(f, u) != []
    && (f.p > |Digits(u, f.c)| + 2 || (f.p < 0 && f.zeroPad && !f.left && f.w > |Digits(u, f.c)| + 2))
  }

  lemma {:induction false} SkipsBlanks(n: int, rest: seq<char>)
    requires rest != [] && rest[0] != ' '
    ensures SkipBlanks(Blanks(n) + rest) == rest
    decreases n
  {
    if n <= 0 {
      assert Blanks(n) + rest == rest;
    } else {
      assert (Blanks(n) + rest)[1..] == Blanks(n - 1) + rest;
      SkipsBlanks(n - 1, rest);
    }
  }

  lemma {:induction false} RunOf(digits: seq<char>, rest: seq<char>, b: nat)
    requires forall i | 0 <= i < |digits| :: IsAnyDigit(digits[i], b)
    requires rest == [] || !IsAnyDigit(rest[0], b)
    ensures DigitRun(digits + rest, b) == digits
    decreases |digits|
  {
    if digits == [] {
      assert digits + rest == rest;
    } else {
      assert (digits + rest)[1..] == digits[1..] + rest;
      RunOf(digits[1..], rest, b);
    }
  }

  predicate Begins(s: seq<char>) { s != [] && s[0] != ' ' && s[0] != '-' && s[0] != '+' }

  /** Zeros, digits and blanks read as the digits' value; a prefix does no harm at the front. */
  lemma MagnitudeRead(f: Shape, u: nat, z: nat, r: int)
    requires ShapeOk(f)
    ensures var b, s := Base(f.c), Zeros(z) + Proper(f, u) + Blanks(r);
      && Begins(s)
      && ReadMagnitude(s, b) == (if HexPrefix(f, u) != [] && z > 0 then 0 else u)
  {
    var b, num := Base(f.c), Digits(u, f.c);
    ValueOfNumeral(u, b, f.c == 'X');
    EachDigit(num, b, f.c == 'X');
    var lead := if f.alt && f.c == 'o' && u != 0 then "0" else HexPrefix(f, u);
    assert Value(num, b) == u && Proper(f, u) == lead + num;
    assert HexPrefix(f, u) != [] ==> b == 16 && lead == ['0', f.c] && (f.c == 'x' || f.c == 'X');
    assert HexPrefix(f, u) == [] ==> forall i | 0 <= i < |lead| :: lead[i] == '0';
    hide *;
    if HexPrefix(f, u) == [] {
      PlainRead(z, lead, num, r, b);
    } else if z == 0 {
      PrefixedRead(f.c, num, r);
    } else {
      ZerosRead(f.c, z, num, r);
    }
  }

  lemma PrefixedRead(c: char, num: seq<char>, r: int)
    requires num != [] && (c == 'x' || c == 'X') && forall i | 0 <= i < |num| :: IsAnyDigit(num[i], 16)
    ensures var s := Zeros(0) + (['0', c] + num) + Blanks(r);
      Begins(s) && ReadMagnitude(s, 16) == Value(num, 16)
  {
    hide *;
    var t := num + Blanks(r);
    BlankIsNoDigit(r, 16);
    RunOf(num, Blanks(r), 16);
    Strip(c, t);
    PrefixFirst(['0', c], num, Blanks(r));
  }

  lemma PrefixFirst(prefix: seq<char>, num: seq<char>, tail: seq<char>)
    ensures Zeros(0) + (prefix + num) + tail == prefix + (num + tail)
  {
  }

  lemma Strip(c: char, t: seq<char>)
    requires (c == 'x' || c == 'X') && t != [] && IsAnyDigit(t[0], 16)
    ensures Begins(['0', c] + t) && ReadMagnitude(['0', c] + t, 16) == Value(DigitRun(t, 16), 16)
  {
    hide Value, DigitRun, IsAnyDigit;
    var s := ['0', c] + t;
    assert s[0] == '0' && s[1] == c && s[2] == t[0] && s[2..] == t;
  }

  lemma BlankIsNoDigit(r: int, b: nat)
    ensures Blanks(r) == [] || !IsAnyDigit(Blanks(r)[0], b)
  {
  }

  lemma ZerosRead(c: char, z: nat, num: seq<char>, r: int)
    requires z > 0 && (c == 'x' || c == 'X')
    ensures var s := Zeros(z) + (['0', c] + num) + Blanks(r);
      Begins(s) && ReadMagnitude(s, 16) == 0
  {
    hide Padding;
    var s, zeros, rest := Zeros(z) + (['0', c] + num) + Blanks(r), Zeros(z) + "0", [c] + num + Blanks(r);
    assert s == zeros + rest && s[1] == '0';
    RunOf(zeros, rest, 16);
    ValueOfZeros(zeros, [], 16);
    assert zeros + [] == zeros;
  }

  lemma EachDigit(s: seq<char>, b: nat, upper: bool)
    requires AllDigits(s, b, upper)
    ensures forall i | 0 <= i < |s| :: IsAnyDigit(s[i], b)
  {
  }

  lemma PlainRead(z: nat, lead: seq<char>, num: seq<char>, r: int, b: nat)
    requires IsBase(b) && num != []
    requires forall i | 0 <= i < |num| :: IsAnyDigit(num[i], b)
    requires forall i | 0 <= i < |lead| :: lead[i] == '0'
    ensures var s := Zeros(z) + (lead + num) + Blanks(r);
      Begins(s) && ReadMagnitude(s, b) == Value(num, b)
  {
    hide Value, Padding;
    var s, zeros := Zeros(z) + (lead + num) + Blanks(r), Zeros(z) + lead;
    assert s == zeros + num + Blanks(r);
    assert |s| > 1 ==> s[1] != 'x' && s[1] != 'X' by {
      if |s| > 1 { assert s[1] == ' ' || s[1] == '0' || IsAnyDigit(s[1], b); }
    }
    assert Unprefixed(s, b) == s;
    RunOf(zeros + num, Blanks(r), b);
    ValueOfZeros(zeros, num, b);
  }

  /** A field as blanks, sign, zeros, digits and blanks. */
  lemma Laid(f: Shape, u: nat, negative: bool) returns (l: int, z: nat, r: int)
    requires ShapeOk(f)
    ensures AsCoded(f, u, negative) == Blanks(l) + (SignText(f, negative) + (Zeros(z) + Proper(f, u) + Blanks(r)))
    ensures HexPrefix(f, u) != [] ==> (z > 0 <==> ZerosThenPrefix(f, u))
  {
    var zs, body := Zeros(f.p - |Proper(f, u)|), Proper(f, u);
    assert HexPrefix(f, u) != [] ==> |body| == |Digits(u, f.c)| + 2;
    assert HexPrefix(f, u) != [] ==> SignText(f, negative) == [];
    hide Padding, Numeral, Proper, SignText, HexPrefix, Digits, Arrange;
    l, z, r := Spread(f, SignText(f, negative), zs, body);
  }

  lemma Spread(f: Shape, front: seq<char>, zs: seq<char>, body: seq<char>) returns (l: int, z: nat, r: int)
    requires zs == Zeros(|zs|) && (f.p < 0 ==> zs == [])
    ensures Arrange(f, front, zs + body) == Blanks(l) + (front + (Zeros(z) + body + Blanks(r)))
    ensures z == if f.zeroPad && f.p < 0 && !f.left then |Zeros(f.w - |front| - |body|)| else |zs|
    ensures var fill := f.w - |front| - |zs + body|;
      l == (if f.left || (f.zeroPad && f.p < 0) then 0 else fill) && r == if f.left then fill else 0
  {
    hide Padding;
    var fill := f.w - |front| - |zs + body|;
    l, z, r := 0, |zs|, 0;
    assert Blanks(0) == [];
    if f.left {
      r := fill;
      Regroup([], front, zs, body, Blanks(fill));
    } else if f.zeroPad && f.p < 0 {
      z := |Zeros(fill)|;
      assert zs + body == body && Zeros(z) == Zeros(fill);
      Regroup([], front, Zeros(fill), body, []);
    } else {
      l := fill;
      Regroup(Blanks(fill), front, zs, body, []);
    }
  }

  lemma Regroup(a: seq<char>, b: seq<char>, c: seq<char>, d: seq<char>, e: seq<char>)
    ensures a == [] ==> b + (c + d) + e == a + (b + (c + d + e))
    ensures e == [] ==> a + b + (c + d) == a + (b + (c + d + e))
    ensures a == [] && e == [] ==> b + c + d == a + (b + (c + d + e))
  {
  }

  lemma ReadSigned(n: int, sgn: seq<char>, s: seq<char>, b: nat)
    requires Begins(s) && (sgn == [] || sgn == " " || sgn == "+" || sgn == "-")
    ensures ReadField(Blanks(n) + (sgn + s), b) == (if sgn == "-" then 0 - ReadMagnitude(s, b) else ReadMagnitude(s, b))
  {
    hide Padding, ReadMagnitude;
    if sgn == [] {
      assert [] + s == s;
      SkipsBlanks(n, s);
    } else if sgn == " " {
      assert Blanks(n) + (" " + s) == Blanks(n) + " " + s;
      OneMoreBlank(n, s);
    } else {
      SkipsBlanks(n, sgn + s);
      assert (sgn + s)[1..] == s;
    }
  }

  /** Read in base 8 for `o`, 16 for `x` and `X` and 10 for the others, the printed field gives the
      converted value back, exactly unless zeros have come in front of a `0x`. */
  lemma ReadsBackIff(f: Shape, u: nat, negative: bool)
    requires ShapeOk(f) && (negative ==> f.c == 'd' || f.c == 'i')
    ensures ReadField(AsCoded(f, u, negative), if f.c == 'o' then 8 else if f.c == 'x' || f.c == 'X' then 16 else 10)
          == (if negative then 0 - u else u)
       <==> !ZerosThenPrefix(f, u)
  {
    assert Base(f.c) == if f.c == 'o' then 8 else if f.c == 'x' || f.c == 'X' then 16 else 10;
    var l, z, r := Laid(f, u, negative);
    MagnitudeRead(f, u, z, r);
    assert HexPrefix(f, u) != [] ==> u != 0 && !negative;
    hide Numeral, Padding, ReadMagnitude, AsCoded, Proper, HexPrefix, Digits, ReadField, Begins, Base;
    ReadSigned(l, SignText(f, negative), Zeros(z) + Proper(f, u) + Blanks(r), Base(f.c));
  }

  lemma OneMoreBlank(n: int, rest: seq<char>)
    requires rest != [] && rest[0] != ' '
    ensures SkipBlanks(Blanks(n) + " " + rest) == rest
  {
    var m := if n <= 0 then 0 else n;
    assert Blanks(n) + " " == Blanks(m + 1);
    SkipsBlanks(m + 1, rest);
  }

  /** The values of the type that a length modifier names: signed for `d` and `i`, else unsigned. */
  predicate Holds(v: int, length: Length, c: char) {
    var signed := c == 'd' || c == 'i';
    match length
    case CharInt => if signed then -128 <= v <= 127 else 0 <= v <= 255
    case ShortInt => if signed then -32_768 <= v <= 32_767 else 0 <= v <= 65_535
    case Plain => if signed then -2_147_483_648 <= v <= 2_147_483_647 else 0 <= v <= 4_294_967_295
    case _ =>
      if signed then -9_223_372_036_854_775_808 <= v <= 9_223_372_036_854_775_807
      else 0 <= v <= 18_446_744_073_709_551_615
  }

  /** What is converted is a value of that type, the argument itself if that is one, and otherwise
      the one that agrees with it in as many low bits as the type has. */
  lemma ConvertedIs(v: int, length: Length, c: char)
    ensures Holds(Converted(v, length, c), length, c)
    ensures Holds(v, length, c) ==> Converted(v, length, c) == v
    ensures var d := v - Converted(v, length, c);
      match length
      case CharInt => d % 0x100 == 0
      case ShortInt => d % 0x1_0000 == 0
      case Plain => d % 0x1_0000_0000 == 0
      case _ => d % 0x1_0000_0000_0000_0000 == 0
  {
    var signed, m := c == 'd' || c == 'i', Modulus(length);
    assert Converted(v, length, c) == Reduced(v, m, signed);
    hide Converted, Reduced;
    match length
    case CharInt => Reduced8(v, signed);
    case ShortInt => Reduced16(v, signed);
    case Plain => Reduced32(v, signed);
    case _ => Reduced64(v, signed);
  }

  function Reduced(v: int, m: nat, signed: bool): int
    requires m > 0
  {
    if signed && v % m >= m / 2 then v % m - m else v % m
  }

  lemma Reduced8(v: int, signed: bool)
    ensures var x := Reduced(v, 0x100, signed);
      && (v - x) % 0x100 == 0 && (if signed then -128 <= x <= 127 else 0 <= x <= 255)
      && ((if signed then -128 <= v <= 127 else 0 <= v <= 255) ==> x == v)
  {
    assert v == 0x100 * (v / 0x100) + v % 0x100;
  }

  lemma Reduced16(v: int, signed: bool)
    ensures var x := Reduced(v, 0x1_0000, signed);
      && (v - x) % 0x1_0000 == 0 && (if signed then -32_768 <= x <= 32_767 else 0 <= x <= 65_535)
      && ((if signed then -32_768 <= v <= 32_767 else 0 <= v <= 65_535) ==> x == v)
  {
    assert v == 0x1_0000 * (v / 0x1_0000) + v % 0x1_0000;
  }

  lemma Reduced32(v: int, signed: bool)
    ensures var x := Reduced(v, 0x1_0000_0000, signed);
      && (v - x) % 0x1_0000_0000 == 0 && Holds(x, Plain, if signed then 'd' else 'u')
      && (Holds(v, Plain, if signed then 'd' else 'u') ==> x == v)
  {
    assert v == 0x1_0000_0000 * (v / 0x1_0000_0000) + v % 0x1_0000_0000;
  }

  lemma Reduced64(v: int, signed: bool)
    ensures var x := Reduced(v, TWO_TO_64, signed);
      && (v - x) % TWO_TO_64 == 0 && Holds(x, IntMax, if signed then 'd' else 'u')
      && (Holds(v, IntMax, if signed then 'd' else 'u') ==> x == v)
  {
    assert v == TWO_TO_64 * (v / TWO_TO_64) + v % TWO_TO_64;
  }

  /** The whole field in words.  Blanks, the sign, zeros, what `#` asks for, the digits, blanks:
      the sign is that of a signed conversion or what the flags put in its place; the digits are
      those of the value in the base and the case of the conversion, without superfluous zeros; the
      field is as wide as the width asks for and no wider than it has to be; zeros fill up the
      precision, or the width under the `0` flag if there are neither a precision nor `-`. */
  lemma FieldIs(f: Shape, u: nat, negative: bool) returns (l: nat, z: nat, num: seq<char>, r: nat)
    requires ShapeOk(f)
    ensures var sign :=
        if f.c != 'd' && f.c != 'i' then "" else if negative then "-" else if f.sign == NUL then "" else [f.sign];
      var lead :=
        if !f.alt || u == 0 then ""
        else if f.c == 'o' then "0" else if f.c == 'x' || f.c == 'X' then ['0', f.c] else "";
      var proper, text := |lead| + |num|, AsCoded(f, u, negative);
      && text == seq(l, _ => ' ') + (sign + (seq(z, _ => '0') + (lead + num) + seq(r, _ => ' ')))
      && |text| == Larger(f.w, |sign| + Larger(f.p, proper))
      && (l > 0 ==> !f.left && !(f.zeroPad && f.p < 0)) && (r > 0 ==> f.left)
      && z + proper >= f.p && (z > 0 && z + proper > f.p ==> f.zeroPad && f.p < 0 && !f.left)
    ensures num != [] && (u == 0 ==> num == "0") && (u > 0 ==> num[0] != '0')
    ensures Value(num, if f.c == 'o' then 8 else if f.c == 'x' || f.c == 'X' then 16 else 10) == u
    ensures forall i | 0 <= i < |num| ::
      (if f.c == 'o' then '0' <= num[i] <= '7' else '0' <= num[i] <= '9')
      || (f.c == 'x' && 'a' <= num[i] <= 'f') || (f.c == 'X' && 'A' <= num[i] <= 'F')
  {
    num := Digits(u, f.c);
    NumIs(f.c, u);
    var lead := if f.alt && f.c == 'o' && u != 0 then "0" else HexPrefix(f, u);
    assert Proper(f, u) == lead + num;
    hide Numeral, Digits, Proper, Value, Arrange;
    l, z, r := Parts(f, SignText(f, negative), lead + num);
  }

  lemma NumIs(c: char, u: nat)
    requires IsInteger(c)
    ensures var num := Digits(u, c);
      && (u == 0 ==> num == "0") && (u > 0 ==> num[0] != '0')
      && Value(num, if c == 'o' then 8 else if c == 'x' || c == 'X' then 16 else 10) == u
      && forall i | 0 <= i < |num| ::
          (if c == 'o' then '0' <= num[i] <= '7' else '0' <= num[i] <= '9')
          || (c == 'x' && 'a' <= num[i] <= 'f') || (c == 'X' && 'A' <= num[i] <= 'F')
  {
    assert u == 0 ==> Digits(u, c) == "0";
    hide Numeral, Value;
    ValueOfNumeral(u, Base(c), c == 'X');
    NoLeadingZero(u, Base(c), c == 'X');
    DigitsLook(Digits(u, c), c);
  }

  /** What is around the digits. */
  lemma Parts(f: Shape, sign: seq<char>, proper: seq<char>) returns (l: nat, z: nat, r: nat)
    ensures var text := Arrange(f, sign, Zeros(f.p - |proper|) + proper);
      && text == seq(l, _ => ' ') + (sign + (seq(z, _ => '0') + proper + seq(r, _ => ' ')))
      && |text| == Larger(f.w, |sign| + Larger(f.p, |proper|))
    ensures (l > 0 ==> !f.left && !(f.zeroPad && f.p < 0)) && (r > 0 ==> f.left)
    ensures z + |proper| >= f.p && (z > 0 && z + |proper| > f.p ==> f.zeroPad && f.p < 0 && !f.left)
  {
    hide Arrange;
    var l', z', r' := Spread(f, sign, Zeros(f.p - |proper|), proper);
    l, z, r := |Blanks(l')|, z', |Blanks(r')|;
    assert Blanks(l') == seq(l, _ => ' ') && Zeros(z) == seq(z, _ => '0') && Blanks(r') == seq(r, _ => ' ');
  }

  function Larger(a: int, b: int): int { if a < b then b else a }

  lemma DigitsLook(num: seq<char>, c: char)
    requires AllDigits(num, Base(c), c == 'X') && IsInteger(c)
    ensures forall i | 0 <= i < |num| ::
      (if c == 'o' then '0' <= num[i] <= '7' else '0' <= num[i] <= '9')
      || (c == 'x' && 'a' <= num[i] <= 'f') || (c == 'X' && 'A' <= num[i] <= 'F')
  {
  }

  /** A width argument is the width it says, a negative one the `-` flag and its magnitude; a precision
      argument is the precision it says, a negative one none. */
  lemma StarsAreFixed(s: SpecInfo, w: int, p: int)
    requires SpecOk(s)
    ensures var t := s.(width := if s.width.Dynamic? then Fixed(if w < 0 then -w else w) else s.width,
                        flags := if s.width.Dynamic? && w < 0 then s.flags.(leftAdjust := true) else s.flags,
                        prec := if s.prec.Dynamic? then Fixed(if p < 0 then -1 else p) else s.prec);
      && SpecOk(t) && ShapeOf(s, w, p) == ShapeOf(t, 0, -1)
      && ShapeOf(t, 0, -1)
         == Shape(t.width.value, t.prec.value, t.flags.leftAdjust, t.flags.zeroPad, t.flags.alt, t.sign, t.terminal)
  {
  }

  /** For every argument its type holds, at every specifier, width and precision: reading what has
      been printed gives the argument, unless zeros have come in front of a `0x`. */
  lemma PrintedReadsBackIff(s: SpecInfo, v: int, w: int, p: int)
    requires SpecOk(s) && IsInteger(s.terminal) && Holds(v, s.flags.length, s.terminal)
    ensures var f, value := ShapeOf(s, w, p), Converted(v, s.flags.length, s.terminal);
      var c := s.terminal;
      ReadField(AsCoded(f, Abs(value), value < 0), if c == 'o' then 8 else if c == 'x' || c == 'X' then 16 else 10) == v
      <==> !ZerosThenPrefix(f, Abs(v))
  {
    hide ReadField, AsCoded, ZerosThenPrefix;
    ConvertedIs(v, s.flags.length, s.terminal);
    ReadsBackIff(ShapeOf(s, w, p), Abs(v), v < 0);
  }
}
