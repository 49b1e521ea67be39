/** Numerals: what a digit string means, the one canonical numeral of a value, and the loops of
    `constexpr_fmt.h` that write it from the end of a buffer, two digits at a time. */
module Numerals {
  import opened Bytes
  import opened Sequences

  predicate IsBase(b: nat) { b == 8 || b == 10 || b == 16 }

  function DigitChar(d: nat, upper: bool): char
    requires d < 16
  {
    if d < 10 then '0' + d as char else (if upper then 'A' else 'a') + (d - 10) as char
  }

  predicate IsDigit(c: char) { '0' <= c <= '9' }

  function DigitValue(c: char): nat {
    if IsDigit(c) then (c - '0') as nat
    else if 'A' <= c <= 'F' then (c - 'A') as nat + 10
    else if 'a' <= c <= 'f' then (c - 'a') as nat + 10
    else 0
  }

  /** A digit of this base in this case. */
  predicate IsDigitOf(c: char, b: nat, upper: bool) {
    (IsDigit(c) || (if upper then 'A' <= c <= 'F' else 'a' <= c <= 'f')) && DigitValue(c) < b
  }

  predicate AllDigits(s: seq<char>, b: nat, upper: bool) {
    forall i | 0 <= i < |s| :: IsDigitOf(s[i], b, upper)
  }

  /** The value of a digit string, most significant digit first. */
  function Value(s: seq<char>, b: nat): nat {
    if s == [] then 0 else Value(s[..|s| - 1], b) * b + DigitValue(s[|s| - 1])
  }

  function Numeral(v: nat, b: nat, upper: bool): (s: seq<char>)
    requires IsBase(b)
    ensures |s| > 0
  {
    if v < b then [DigitChar(v, upper)] else Numeral(v / b, b, upper) + [DigitChar(v % b, upper)]
  }

  /** The digits in their order, and in both cases of the letters. */
  lemma DigitsAre(d: nat)
    requires d < 16
    ensures DigitChar(d, false) == "0123456789abcdef"[d] && DigitChar(d, true) == "0123456789ABCDEF"[d]
    ensures DigitValue("0123456789abcdef"[d]) == d && DigitValue("0123456789ABCDEF"[d]) == d
  {
  }

  lemma DigitRoundTrip(d: nat, b: nat, upper: bool)
    requires d < b <= 16
    ensures DigitValue(DigitChar(d, upper)) == d && IsDigitOf(DigitChar(d, upper), b, upper)
  {
  }

  /** Reading a numeral gives its value back. */
  lemma {:induction false} ValueOfNumeral(v: nat, b: nat, upper: bool)
    requires IsBase(b)
    ensures Value(Numeral(v, b, upper), b) == v && AllDigits(Numeral(v, b, upper), b, upper)
  {
    hide DigitValue, DigitChar, IsDigitOf;
    var s := Numeral(v, b, upper);
    if v < b {
      DigitRoundTrip(v, b, upper);
      assert Value([], b) == 0 && s[..0] == [];
    } else {
      ValueOfNumeral(v / b, b, upper);
      DigitRoundTrip(v % b, b, upper);
      assert s[..|s| - 1] == Numeral(v / b, b, upper);
      assert Value(s, b) == Value(s[..|s| - 1], b) * b + DigitValue(s[|s| - 1]);
      assert v / b * b + v % b == v by { Divided(v, b); }
    }
  }

  lemma {:induction false} NoLeadingZero(v: nat, b: nat, upper: bool)
    requires IsBase(b)
    ensures Numeral(v, b, upper)[0] == '0' <==> v == 0
  {
    if v >= b {
      NoLeadingZero(v / b, b, upper);
      hide DigitChar;
      assert Numeral(v, b, upper)[0] == Numeral(v / b, b, upper)[0];
      assert v / b != 0 by { Divided(v, b); }
    }
  }

  lemma Divided(v: nat, b: nat)
    requires IsBase(b)
    ensures v / b * b + v % b == v
  {
    if b == 8 {} else if b == 10 {} else {}
  }

  lemma DigitUnique(c: char, b: nat, upper: bool)
    requires b <= 16 && IsDigitOf(c, b, upper)
    ensures c == DigitChar(DigitValue(c), upper)
  {
  }

  /** A digit string without superfluous zeros is the numeral of its value: there is no other. */
  lemma {:induction false} NumeralUnique(s: seq<char>, b: nat, upper: bool)
    requires IsBase(b) && |s| > 0 && AllDigits(s, b, upper) && (|s| == 1 || s[0] != '0')
    ensures s == Numeral(Value(s, b), b, upper)
    ensures |s| > 1 ==> Value(s, b) >= b
    decreases |s|
  {
    var init, last := s[..|s| - 1], s[|s| - 1];
    DigitUnique(last, b, upper);
    assert s == init + [last] && IsDigitOf(s[0], b, upper);
    if init == [] {
      assert Value(s, b) == DigitValue(last);
    } else {
      NumeralUnique(init, b, upper);
      var h := Value(init, b);
      if |init| == 1 {
        assert init[..0] == [] && h == DigitValue(s[0]) && Value([], b) == 0;
        DigitUnique(s[0], b, upper);
        assert DigitChar(0, upper) == '0';
      }
      assert h >= 1;
      DivideBack(h, DigitValue(last), b);
    }
  }

  lemma DivideBack(h: nat, d: nat, b: nat)
    requires IsBase(b) && d < b
    ensures (h * b + d) / b == h && (h * b + d) % b == d && (h >= 1 ==> h * b + d >= b)
  {
    if b == 8 {} else if b == 10 {} else {}
  }

  lemma {:induction false} ValueOfZeros(zeros: seq<char>, s: seq<char>, b: nat)
    requires forall i | 0 <= i < |zeros| :: zeros[i] == '0'
    ensures Value(zeros + s, b) == Value(s, b)
    decreases |zeros| + |s|
  {
    var t := zeros + s;
    if s != [] {
      assert t[..|t| - 1] == zeros + s[..|s| - 1];
      ValueOfZeros(zeros, s[..|s| - 1], b);
    } else if zeros != [] {
      assert t[..|t| - 1] == zeros[..|zeros| - 1] + [] && t[|t| - 1] == '0';
      ValueOfZeros(zeros[..|zeros| - 1], [], b);
    }
  }

  // ---------------------------------------------------------------- two digits at a time

  /** An entry of the `digit_pairs` tables. */
  function Pair(x: nat, b: nat, upper: bool): (s: seq<char>)
    requires IsBase(b) && x < b * b
    ensures |s| == 2
  {
    assert x / b < 16;
    [DigitChar(x / b, upper), DigitChar(x % b, upper)]
  }

  lemma NumeralOfPair(d: nat, b: nat, upper: bool)
    requires IsBase(b) && d >= b * b
    ensures Numeral(d, b, upper) == Numeral(d / (b * b), b, upper) + Pair(d % (b * b), b, upper)
  {
    var h, l := d / b, d % b;
    assert h >= b && h / b == d / (b * b) && h % b == d % (b * b) / b && l == d % (b * b) % b by { TwoDigits(d, b); }
    assert Numeral(d, b, upper) == Numeral(h, b, upper) + [DigitChar(l, upper)];
    assert Numeral(h, b, upper) == Numeral(h / b, b, upper) + [DigitChar(h % b, upper)];
    assert Numeral(h / b, b, upper) + [DigitChar(h % b, upper)] + [DigitChar(l, upper)]
        == Numeral(h / b, b, upper) + [DigitChar(h % b, upper), DigitChar(l, upper)];
  }

  lemma TwoDigits(d: nat, b: nat)
    requires IsBase(b) && d >= b * b
    ensures d / b >= b && d / b / b == d / (b * b) && d / b % b == d % (b * b) / b && d % b == d % (b * b) % b
  {
    if b == 8 {} else if b == 10 {} else {}
  }

  function Pow(b: nat, n: nat): nat { if n == 0 then 1 else b * Pow(b, n - 1) }

  lemma {:induction false} LengthBound(v: nat, b: nat, upper: bool, n: nat)
    requires IsBase(b) && n > 0 && v < Pow(b, n)
    ensures |Numeral(v, b, upper)| <= n
    decreases n
  {
    if v >= b {
      assert Pow(b, 0) == 1 && Pow(b, 1) == b * Pow(b, 0);
      assert v / b < Pow(b, n - 1) by { Quotient(v, b, Pow(b, n - 1)); }
      LengthBound(v / b, b, upper, n - 1);
    }
  }

  lemma Quotient(v: nat, b: nat, p: nat)
    requires IsBase(b) && v < b * p
    ensures v / b < p
  {
    if b == 8 {} else if b == 10 {} else {}
  }

  /** 22 octal digits hold any 64-bit value, and no other base needs more. */
  lemma AtMost22(v: nat, b: nat, upper: bool)
    requires IsBase(b) && v < TWO_TO_64
    ensures |Numeral(v, b, upper)| <= 22
  {
    PowStep(b, 0); PowStep(b, 4); PowStep(b, 8); PowStep(b, 12); PowStep(b, 16);
    assert Pow(b, 0) == 1;
    assert Pow(b, 22) == b * (b * Pow(b, 20));
    LengthBound(v, b, upper, 22);
  }

  lemma PowStep(b: nat, n: nat)
    requires IsBase(b)
    ensures Pow(b, n + 4) == b * b * b * b * Pow(b, n)
  {
    assert Pow(b, n + 4) == b * Pow(b, n + 3) == b * (b * Pow(b, n + 2)) == b * (b * (b * Pow(b, n + 1)));
    if b == 8 {} else if b == 10 {} else {}
  }

  /** `d / 100`, `d >> 6`, `d >> 8`, and what each leaves. */
  function High(d: nat, b: nat): nat
    requires IsBase(b)
  {
    d / (b * b)
  }

  function Low(d: nat, b: nat): (low: nat)
    requires IsBase(b)
    ensures low < b * b
  {
    if b == 8 then d % 64 else if b == 10 then d % 100 else d % 256
  }

  /** `formatDec`, `formatOct` and `formatHex`: one loop in three bases.  The numeral of every
      64-bit value ends up at the end of the buffer, and no index leaves it. */
  method FormatPairs(buf: array<char>, value: nat, b: nat, upper: bool) returns (it: nat)
    requires IsBase(b) && value < TWO_TO_64 && buf.Length >= 22
    modifies buf
    ensures it < buf.Length && buf[it..] == Numeral(value, b, upper)
  {
    hide Numeral, Pow, High, Low, Pair;
    var d: nat := value;
    it := buf.Length - 2;
    var div := High(d, b);
    AtMost22(value, b, upper);
    ghost var tail: seq<char> := [];
    assert Numeral(value, b, upper) == Numeral(d, b, upper) + tail;
    while div != 0
      invariant div == High(d, b) && it + 2 + |tail| == buf.Length && |tail| % 2 == 0
      invariant Numeral(value, b, upper) == Numeral(d, b, upper) + tail && buf[it + 2..] == tail
      decreases d
    {
      Split(d, b, upper);
      var pair := Pair(Low(d, b), b, upper);
      buf[it], buf[it + 1] := pair[0], pair[1];
      assert buf[it..] == pair + buf[it + 2..];
      Assoc(Numeral(div, b, upper), pair, tail);
      tail := pair + tail;
      d := div;
      it := it - 2;
      div := High(d, b);
    }
    it := PutLast(buf, it, d, b, upper);
    assert buf[it..] == Numeral(d, b, upper) + tail;
  }

  /** The last one or two digits. */
  method PutLast(buf: array<char>, it: nat, d: nat, b: nat, upper: bool) returns (first: nat)
    requires IsBase(b) && High(d, b) == 0 && it + 2 <= buf.Length
    modifies buf
    ensures first < it + 2 && buf[first..it + 2] == Numeral(d, b, upper) && buf[it + 2..] == old(buf[it + 2..])
    ensures buf[first..] == Numeral(d, b, upper) + old(buf[it + 2..])
  {
    hide Numeral, Pow, High, Low, Pair;
    ghost var behind := buf[it + 2..];
    Split(d, b, upper);
    var pair := Pair(d, b, upper);
    buf[it], buf[it + 1] := pair[0], pair[1];
    LastPair(d, b, upper);
    first := it;
    if d < b {
      first := it + 1;
    }
    assert buf[it..it + 2] == pair && buf[it + 2..] == behind;
    SplitAt(buf[..], first, it + 2);
  }

  lemma SplitAt(s: seq<char>, i: nat, j: nat)
    requires i <= j <= |s|
    ensures s[i..] == s[i..j] + s[j..]
  {
  }

  lemma Split(d: nat, b: nat, upper: bool)
    requires IsBase(b)
    ensures High(d, b) != 0 ==>
      High(d, b) < d && Numeral(d, b, upper) == Numeral(High(d, b), b, upper) + Pair(Low(d, b), b, upper)
    ensures High(d, b) == 0 ==> d < b * b
  {
    hide Numeral, Pair;
    Smaller(d, b);
    assert Low(d, b) == d % (b * b) by { if b == 8 {} else if b == 10 {} else {} }
    if High(d, b) != 0 { NumeralOfPair(d, b, upper); }
  }

  lemma Smaller(d: nat, b: nat)
    requires IsBase(b)
    ensures d / (b * b) != 0 ==> d >= b * b && d / (b * b) < d
    ensures d / (b * b) == 0 ==> d < b * b
  {
    if b == 8 {} else if b == 10 {} else {}
  }

  lemma LastPair(d: nat, b: nat, upper: bool)
    requires IsBase(b) && d < b * b
    ensures d < b ==> Pair(d, b, upper) == ['0'] + Numeral(d, b, upper)
    ensures d >= b ==> Pair(d, b, upper) == Numeral(d, b, upper)
  {
    if b == 8 {} else if b == 10 {} else {}
  }
}
