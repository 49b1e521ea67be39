/** The fields of one conversion specifier: how `getOneSpec` reads the characters between `%` and
    the conversion character, what they mean, and a printer that this reading undoes. */
module SpecFields {
  import opened Bytes
  import opened Numerals
  import opened Sequences
  import opened SpecInfos

  predicate IsTerminal(c: char) {
    || c == 'd' || c == 'i' || c == 'u' || c == 'o' || c == 'x' || c == 'X'
    || c == 'f' || c == 'F' || c == 'e' || c == 'E'
    || c == 'g' || c == 'G' || c == 'a' || c == 'A' || c == 'c' || c == 'p' || c == 's' || c == 'n'
  }
  predicate IsFlag(c: char) { c == '-' || c == '+' || c == ' ' || c == '#' || c == '0' }
  predicate IsLength(c: char) { c == 'h' || c == 'l' || c == 'j' || c == 'z' || c == 't' || c == 'L' }

  /** What may stand between `%` and the conversion character, in any order. */
  predicate IsModifier(c: char) { IsFlag(c) || IsDigit(c) || IsLength(c) || c == '.' || c == '*' }

  predicate AllModifiers(s: seq<char>) { forall i | 0 <= i < |s| :: IsModifier(s[i]) }

  // ---------------------------------------------------------------- reference reading

  /** The parts modifiers consist of. */
  datatype Item =
    | Flag(c: char)
    | Width(v: nat)
    | WidthArg          // *
    | Prec(v: nat)
    | PrecArg           // .*
    | Size(length: Length)
    | LongDouble

  /** The digits a text starts with. */
  function Run(s: seq<char>): (n: nat)
    ensures n <= |s| && (forall i | 0 <= i < n :: IsDigit(s[i])) && (n < |s| ==> !IsDigit(s[n]))
  {
    if s == [] || !IsDigit(s[0]) then 0 else 1 + Run(s[1..])
  }

  /** The first item and how many characters it takes: always as many as belong to it. */
  function First(s: seq<char>): (r: (Item, nat))
    requires s != []
    ensures 1 <= r.1 <= |s|
  {
    var c, next := s[0], if |s| > 1 then s[1] else NUL;
    if IsFlag(c) then (Flag(c), 1)
    else if IsDigit(c) then (Width(Value(s[..Run(s)], 10)), Run(s))
    else if c == '*' then (WidthArg, 1)
    else if c == '.' then
      if next == '*' then (PrecArg, 2) else (Prec(Value(s[1..][..Run(s[1..])], 10)), 1 + Run(s[1..]))
    else if c == 'L' then (LongDouble, 1)
    else if c == 'h' then (if next == 'h' then (Size(CharInt), 2) else (Size(ShortInt), 1))
    else if c == 'l' then (if next == 'l' then (Size(LongLongInt), 2) else (Size(LongInt), 1))
    else if c == 'j' then (Size(IntMax), 1)
    else if c == 't' then (Size(PtrDiff), 1)
    else (Size(SizeT), 1)
  }

  function Items(s: seq<char>): seq<Item>
    decreases |s|
  {
    if s == [] then [] else [First(s).0] + Items(s[First(s).1..])
  }

  /** The last item of a kind wins. */
  function LastWidth(items: seq<Item>): Field {
    if items == [] then Fixed(0)
    else
      var last := items[|items| - 1];
      if last.WidthArg? then Dynamic else if last.Width? then Fixed(last.v) else LastWidth(items[..|items| - 1])
  }

  function LastPrec(items: seq<Item>): Field {
    if items == [] then Fixed(-1)
    else
      var last := items[|items| - 1];
      if last.PrecArg? then Dynamic else if last.Prec? then Fixed(last.v) else LastPrec(items[..|items| - 1])
  }

  function LastSize(items: seq<Item>): Length {
    if items == [] then Plain
    else
      var last := items[|items| - 1];
      if last.Size? then last.length else LastSize(items[..|items| - 1])
  }

  /** `+` wins over a space, in either order. */
  function Sign(items: seq<Item>): char {
    if Flag('+') in items then '+' else if Flag(' ') in items then ' ' else NUL
  }

  /** The position of the last item equal to `x`, -1 if there is none. */
  function LastAt(items: seq<Item>, x: Item): int {
    if items == [] then -1
    else if items[|items| - 1] == x then |items| - 1
    else LastAt(items[..|items| - 1], x)
  }

  /** The flag the code keeps: it changes only when one `*` meets the other. */
  function WFirst(items: seq<Item>): bool {
    if items == [] then true
    else
      var init, last := items[..|items| - 1], items[|items| - 1];
      if last.WidthArg? && LastPrec(init).Dynamic? then false
      else if last.PrecArg? && LastWidth(init).Dynamic? then true
      else WFirst(init)
  }

  function FlagsOf(items: seq<Item>): Flags {
    Flags(Flag('#') in items, Flag('0') in items, Flag('-') in items, LongDouble in items, LastSize(items))
  }

  /** The specifier that items and a conversion character make, at no position yet. */
  function Meaning(items: seq<Item>, terminal: char): SpecInfo {
    SpecInfo(0, 0, FlagsOf(items), LastWidth(items), LastPrec(items), Sign(items), terminal, WFirst(items))
  }

  // ---------------------------------------------------------------- what that means

  /** The characters that end a specifier, and those that may stand in front of them. */
  lemma CharactersAre(c: char)
    ensures IsTerminal(c) <==> c in "diouxXfFeEgGaAcspn"
    ensures IsModifier(c) <==> c in "-+ #0123456789hljztL.*"
  {
  }

  /** The flags are on if and only if their characters are there; `+` wins over the space. */
  lemma FlagsAre(mods: seq<char>, t: char)
    requires AllModifiers(mods)
    ensures var s := Meaning(Items(mods), t);
      && (s.flags.alt <==> '#' in mods) && (s.flags.leftAdjust <==> '-' in mods) && s.terminal == t
      && s.sign == (if '+' in mods then '+' else if ' ' in mods then ' ' else NUL)
      && (s.flags.zeroPad <==> ZeroFlag(mods)) && (s.flags.longDouble <==> 'L' in mods)
  {
    LongDoubleIn(mods);
    FlagIn(mods, '#');
    FlagIn(mods, '-');
    FlagIn(mods, '+');
    FlagIn(mods, ' ');
    ZeroIn(mods);
  }

  /** A `0` with which no number goes on and no precision begins. */
  predicate ZeroFlag(mods: seq<char>) {
    exists k | 0 <= k < |mods| :: mods[k] == '0' && (k == 0 || (mods[k - 1] !in "0123456789."))
  }

  lemma {:induction false} FlagIn(s: seq<char>, c: char)
    requires AllModifiers(s) && c in "#-+ "
    ensures c in s <==> Flag(c) in Items(s)
    decreases |s|
  {
    hide First, Items;
    ItemsStep(s);
    if s != [] {
      var (x, n) := First(s);
      FlagIn(s[n..], c);
      FirstChars(s, c);
      assert s == s[..n] + s[n..];
    }
  }

  lemma {:induction false} LongDoubleIn(s: seq<char>)
    requires AllModifiers(s)
    ensures 'L' in s <==> LongDouble in Items(s)
    decreases |s|
  {
    hide First, Items;
    ItemsStep(s);
    if s != [] {
      LongDoubleIn(s[First(s).1..]);
      FirstLongDouble(s);
      assert s == s[..First(s).1] + s[First(s).1..];
    }
  }

  lemma FirstLongDouble(s: seq<char>)
    requires AllModifiers(s) && s != []
    ensures 'L' in s[..First(s).1] <==> First(s).0 == LongDouble
  {
    hide Value, Run;
    var (x, n) := First(s);
    if IsDigit(s[0]) && s[0] != '0' {
      assert forall i | 0 <= i < n :: IsDigit(s[i]);
    } else if s[0] == '.' && |s| > 1 && s[1] != '*' {
      assert forall i | 1 <= i < n :: s[i] == s[1..][i - 1];
    }
  }

  lemma ItemsStep(s: seq<char>)
    ensures Items(s) == if s == [] then [] else [First(s).0] + Items(s[First(s).1..])
  {
  }

  lemma FirstChars(s: seq<char>, c: char)
    requires AllModifiers(s) && s != [] && c in "#-+ "
    ensures c in s[..First(s).1] <==> First(s).0 == Flag(c)
  {
    hide Value, Run;
    var (x, n) := First(s);
    if IsDigit(s[0]) && s[0] != '0' {
      assert forall i | 0 <= i < n :: IsDigit(s[i]);
    } else if s[0] == '.' && |s| > 1 && s[1] != '*' {
      assert forall i | 1 <= i < n :: s[i] == s[1..][i - 1];
    }
  }

  lemma {:induction false} ZeroIn(s: seq<char>)
    requires AllModifiers(s)
    ensures Flag('0') in Items(s) <==> ZeroFlag(s)
    decreases |s|
  {
    hide First, Items;
    ItemsStep(s);
    if s != [] {
      ZeroIn(s[First(s).1..]);
      FirstZero(s);
    }
  }

  lemma FirstZero(s: seq<char>)
    requires AllModifiers(s) && s != []
    ensures var (x, n) := First(s); if x == Flag('0') then ZeroFlag(s) else ZeroFlag(s) <==> ZeroFlag(s[n..])
  {
    hide Value, Run;
    var (x, n) := First(s);
    if x == Flag('0') {
      assert s[0] == '0';
    } else {
      NoZeroIn(s);
      if ZeroFlag(s) {
        var k :| 0 <= k < |s| && s[k] == '0' && (k == 0 || (s[k - 1] !in "0123456789."));
        assert k >= n && s[n..][k - n] == '0' && (k > n ==> s[n..][k - n - 1] == s[k - 1]);
      }
      if ZeroFlag(s[n..]) {
        var k :| 0 <= k < |s[n..]| && s[n..][k] == '0' && (k == 0 || (s[n..][k - 1] !in "0123456789."));
        assert s[n + k] == '0' && (k > 0 ==> s[n + k - 1] == s[n..][k - 1]);
      }
    }
  }

  /** In an item that is no such flag no zero is one, and behind a number there is no digit. */
  lemma NoZeroIn(s: seq<char>)
    requires AllModifiers(s) && s != [] && First(s).0 != Flag('0')
    ensures var n := First(s).1;
      && (forall k | 0 <= k < n && s[k] == '0' :: k > 0 && s[k - 1] in "0123456789.")
      && (n < |s| && s[n] == '0' ==> s[n - 1] !in "0123456789.")
  {
    hide Value;
    var (x, n) := First(s);
    if IsDigit(s[0]) && s[0] != '0' {
      assert forall i | 0 <= i < n :: IsDigit(s[i]);
    } else if s[0] == '.' && |s| > 1 && s[1] != '*' {
      assert forall i | 1 <= i < n :: s[i] == s[1..][i - 1] && IsDigit(s[i]);
      assert n < |s| ==> s[n] == s[1..][n - 1];
    }
  }

  /** The length modifiers by their letters, and the numbers and stars of width and precision. */
  lemma ItemsAre(rest: seq<char>)
    ensures First("hh" + rest) == (Size(CharInt), 2) && First("ll" + rest) == (Size(LongLongInt), 2)
    ensures rest == [] || rest[0] != 'h' ==> First("h" + rest) == (Size(ShortInt), 1)
    ensures rest == [] || rest[0] != 'l' ==> First("l" + rest) == (Size(LongInt), 1)
    ensures First("j" + rest) == (Size(IntMax), 1) && First("t" + rest) == (Size(PtrDiff), 1)
    ensures First("z" + rest) == (Size(SizeT), 1) && First("L" + rest) == (LongDouble, 1)
    ensures First("*" + rest) == (WidthArg, 1) && First(".*" + rest) == (PrecArg, 2)
  {
  }

  lemma WidthIs(digits: seq<char>, rest: seq<char>)
    requires digits != [] && digits[0] != '0' && forall i | 0 <= i < |digits| :: '0' <= digits[i] <= '9'
    requires rest == [] || rest[0] < '0' || rest[0] > '9'
    ensures First(digits + rest) == (Width(Value(digits, 10)), |digits|)
  {
    hide Value, Run, First;
    RunOfDigits(digits, rest);
    assert (digits + rest)[0] == digits[0];
    FirstNumber(digits + rest);
  }

  lemma PrecIs(digits: seq<char>, rest: seq<char>)
    requires forall i | 0 <= i < |digits| :: '0' <= digits[i] <= '9'
    requires rest == [] || rest[0] < '0' || rest[0] > '9'
    requires digits == [] && rest != [] ==> rest[0] != '*'
    ensures First("." + (digits + rest)) == (Prec(Value(digits, 10)), 1 + |digits|)
  {
    hide Value, Run, First;
    RunOfDigits(digits, rest);
    FirstPrec(digits + rest);
  }

  lemma RunOfDigits(digits: seq<char>, rest: seq<char>)
    requires forall i | 0 <= i < |digits| :: '0' <= digits[i] <= '9'
    requires rest == [] || rest[0] < '0' || rest[0] > '9'
    ensures Run(digits + rest) == |digits| && (digits + rest)[..|digits|] == digits
  {
    hide Run;
    RunIs(digits + rest, |digits|);
  }

  lemma FirstNumber(s: seq<char>)
    requires s != [] && '1' <= s[0] <= '9'
    ensures First(s) == (Width(Value(s[..Run(s)], 10)), Run(s))
  {
    hide Value, Run;
  }

  lemma FirstPrec(s: seq<char>)
    requires s == [] || s[0] != '*'
    ensures First("." + s) == (Prec(Value(s[..Run(s)], 10)), 1 + Run(s))
  {
    hide Value, Run;
    assert ("." + s)[1..] == s;
  }

  /** Of several widths, precisions or lengths the last counts. */
  lemma LastWins(items: seq<Item>, x: Item)
    ensures var s, t := Meaning(items, NUL), Meaning(items + [x], NUL);
      && t.width == (if x.WidthArg? then Dynamic else if x.Width? then Fixed(x.v) else s.width)
      && t.prec == (if x.PrecArg? then Dynamic else if x.Prec? then Fixed(x.v) else s.prec)
      && t.flags.length == (if x.Size? then x.length else s.flags.length)
    ensures var s := Meaning([], NUL); s.width == Fixed(0) && s.prec == Fixed(-1) && s.flags.length == Plain
  {
    StateStep(items, x);
  }

  // ---------------------------------------------------------------- the loop

  /** Reads on while there are digits: `10 * value + toDigit(fmt[pos])`. */
  method ReadNumber(fmt: seq<char>, start: nat) returns (value: nat, pos: nat)
    requires start <= |fmt| && exists i :: start <= i < |fmt| && !IsDigit(fmt[i])
    ensures start <= pos < |fmt| && !IsDigit(fmt[pos]) && (forall i | start <= i < pos :: IsDigit(fmt[i]))
    ensures value == Value(fmt[start..pos], 10)
  {
    value, pos := 0, start;
    while IsDigit(fmt[pos])
      invariant start <= pos < |fmt| && (forall i | start <= i < pos :: IsDigit(fmt[i]))
      invariant value == Value(fmt[start..pos], 10)
      decreases |fmt| - pos
    {
      assert fmt[start..pos + 1][..pos - start] == fmt[start..pos];
      value := 10 * value + DigitValue(fmt[pos]);
      pos := pos + 1;
    }
  }

  lemma {:induction false} RunIs(s: seq<char>, n: nat)
    requires n <= |s| && (forall i | 0 <= i < n :: IsDigit(s[i])) && (n < |s| ==> !IsDigit(s[n]))
    ensures Run(s) == n
    decreases n
  {
    if n > 0 { RunIs(s[1..], n - 1); }
  }

  /** The variables of the loop. */
  datatype State = State(flags: Flags, width: Field, prec: Field, sign: char, wFirst: bool)

  function StateOf(items: seq<Item>): State {
    State(FlagsOf(items), LastWidth(items), LastPrec(items), Sign(items), WFirst(items))
  }

  /** What one item does to them. */
  function After(st: State, x: Item): State {
    match x
    case Flag(c) =>
      if c == ' ' then st.(sign := if st.sign == NUL then ' ' else st.sign)
      else if c == '+' then st.(sign := '+')
      else if c == '#' then st.(flags := st.flags.(alt := true))
      else if c == '0' then st.(flags := st.flags.(zeroPad := true))
      else if c == '-' then st.(flags := st.flags.(leftAdjust := true))
      else st
    case WidthArg => st.(width := Dynamic, wFirst := if st.prec.Dynamic? then false else st.wFirst)
    case PrecArg => st.(prec := Dynamic, wFirst := if st.width.Dynamic? then true else st.wFirst)
    case Width(v) => st.(width := Fixed(v))
    case Prec(v) => st.(prec := Fixed(v))
    case Size(length) => st.(flags := st.flags.(length := length))
    case LongDouble => st.(flags := st.flags.(longDouble := true))
  }

  /** Item by item the loop arrives at what the last ones of each kind say. */
  lemma StateStep(items: seq<Item>, x: Item)
    ensures StateOf(items + [x]) == After(StateOf(items), x)
  {
    hide Sign, LastWidth, LastPrec, LastSize, WFirst;
    var more := items + [x];
    LastStep(items, x);
    assert forall y :: y in more <==> y in items || y == x;
  }

  lemma LastStep(items: seq<Item>, x: Item)
    ensures Sign(items) in [NUL, '+', ' ']
    ensures var more := items + [x];
      && LastWidth(more) == (if x.WidthArg? then Dynamic else if x.Width? then Fixed(x.v) else LastWidth(items))
      && LastPrec(more) == (if x.PrecArg? then Dynamic else if x.Prec? then Fixed(x.v) else LastPrec(items))
      && LastSize(more) == (if x.Size? then x.length else LastSize(items))
      && WFirst(more) == (if x.WidthArg? && LastPrec(items).Dynamic? then false
                          else if x.PrecArg? && LastWidth(items).Dynamic? then true
                          else WFirst(items))
      && Sign(more) == (if x == Flag('+') || Sign(items) == '+' then '+'
                        else if x == Flag(' ') || Sign(items) == ' ' then ' '
                        else NUL)
  {
    var more := items + [x];
    assert more[..|more| - 1] == items && more[|more| - 1] == x;
  }

  /** The characters a specifier is read from: `mods` and behind them the conversion character. */
  ghost predicate SpecAt(fmt: seq<char>, start: nat, mods: seq<char>, t: char) {
    && start + |mods| < |fmt| && fmt[start..start + |mods|] == mods && fmt[start + |mods|] == t
    && AllModifiers(mods) && IsTerminal(t)
  }

  lemma CharAt(fmt: seq<char>, start: nat, mods: seq<char>, t: char, k: nat)
    requires SpecAt(fmt, start, mods, t) && k <= |mods|
    ensures fmt[start + k] == (if k < |mods| then mods[k] else t)
    ensures k < |mods| ==> IsModifier(fmt[start + k]) && !IsTerminal(fmt[start + k])
    ensures !IsModifier(t)
  {
    hide IsModifier, IsTerminal;
    if k < |mods| {
      assert fmt[start..start + |mods|][k] == mods[k];
      Disjoint(mods[k]);
    }
    Disjoint(t);
  }

  lemma Disjoint(c: char)
    ensures !(IsModifier(c) && IsTerminal(c))
  {
  }

  /** Where the digits stop in the format, they stop among the modifiers. */
  lemma NumberEnds(fmt: seq<char>, start: nat, mods: seq<char>, t: char, k: nat, pos: nat)
    requires SpecAt(fmt, start, mods, t) && k <= |mods| && start + k <= pos < |fmt|
    requires !IsDigit(fmt[pos]) && (forall i | start + k <= i < pos :: IsDigit(fmt[i]))
    ensures pos <= start + |mods| && Run(mods[k..]) == pos - start - k
    ensures fmt[start + k..pos] == mods[k..][..pos - start - k]
  {
    CharAt(fmt, start, mods, t, |mods|);
    assert !IsDigit(fmt[start + |mods|]);
    assert forall i | k <= i < |mods| :: fmt[start + i] == mods[i] by {
      forall i | k <= i < |mods| ensures fmt[start + i] == mods[i] { CharAt(fmt, start, mods, t, i); }
    }
    RunIs(mods[k..], pos - start - k);
  }

  /** `pos` is between two items: `k` modifiers have been read as `done`. */
  ghost predicate Progress(mods: seq<char>, k: nat, done: seq<Item>) {
    && k <= |mods| && AllModifiers(mods) && AllModifiers(mods[k..])
    && Items(mods) == done + Items(mods[k..])
  }

  lemma ProgressStep(mods: seq<char>, k: nat, done: seq<Item>, x: Item, n: nat)
    requires Progress(mods, k, done) && k < |mods| && First(mods[k..]) == (x, n)
    ensures k + n <= |mods| && Progress(mods, k + n, done + [x])
  {
    assert mods[k..][n..] == mods[k + n..];
    assert done + ([x] + Items(mods[k + n..])) == done + [x] + Items(mods[k + n..]);
  }

  lemma Ends(fmt: seq<char>, start: nat, mods: seq<char>, t: char)
    requires SpecAt(fmt, start, mods, t)
    ensures start + |mods| < |fmt| && !IsDigit(fmt[start + |mods|])
  {
    CharAt(fmt, start, mods, t, |mods|);
  }

  lemma DotNumber(fmt: seq<char>, dot: nat, start: nat, mods: seq<char>, t: char, pos: nat)
    requires SpecAt(fmt, start, mods, t) && start <= dot < start + |mods| && fmt[dot] == '.' && fmt[dot + 1] != '*'
    requires dot < pos < |fmt| && !IsDigit(fmt[pos]) && (forall i | dot < i < pos :: IsDigit(fmt[i]))
    ensures pos <= start + |mods| && First(mods[dot - start..]) == (Prec(Value(fmt[dot + 1..pos], 10)), pos - dot)
  {
    hide Value, Run;
    var k := dot - start;
    CharAt(fmt, start, mods, t, k);
    CharAt(fmt, start, mods, t, k + 1);
    NumberEnds(fmt, start, mods, t, k + 1, pos);
    hide SpecAt, IsTerminal;
    assert mods[k..][1..] == mods[k + 1..];
  }

  lemma DotStar(fmt: seq<char>, dot: nat, start: nat, mods: seq<char>, t: char)
    requires SpecAt(fmt, start, mods, t) && start <= dot < start + |mods| && fmt[dot] == '.' && fmt[dot + 1] == '*'
    ensures dot + 2 <= start + |mods| && First(mods[dot - start..]) == (PrecArg, 2)
  {
    hide Value, Run;
    CharAt(fmt, start, mods, t, dot - start);
    CharAt(fmt, start, mods, t, dot - start + 1);
    hide SpecAt, IsTerminal;
  }

  /** The case of the dot: `.*`, or a possibly empty number. */
  method CaseDot(fmt: seq<char>, dot: nat, st: State, ghost start: nat, ghost mods: seq<char>, ghost t: char)
      returns (next: State, pos: nat)
    requires SpecAt(fmt, start, mods, t) && start <= dot < start + |mods| && fmt[dot] == '.'
    ensures dot < pos <= start + |mods| && First(mods[dot - start..]).1 == pos - dot
        && next == After(st, First(mods[dot - start..]).0)
  {
    hide First, Value;
    Ends(fmt, start, mods, t);
    next, pos := st, dot + 1;
    if fmt[pos] == '*' {
      DotStar(fmt, dot, start, mods, t);
      next := next.(prec := Dynamic);
      if next.width == Dynamic { next := next.(wFirst := true); }
      pos := pos + 1;
    } else {
      var value, stop := ReadNumber(fmt, pos);
      DotNumber(fmt, dot, start, mods, t, stop);
      next, pos := next.(prec := Fixed(value)), stop;
    }
  }

  lemma WidthNumber(fmt: seq<char>, first: nat, start: nat, mods: seq<char>, t: char, pos: nat)
    requires SpecAt(fmt, start, mods, t) && start <= first < start + |mods| && '1' <= fmt[first] <= '9'
    requires first < pos < |fmt| && !IsDigit(fmt[pos]) && (forall i | first <= i < pos :: IsDigit(fmt[i]))
    ensures pos <= start + |mods| && First(mods[first - start..]) == (Width(Value(fmt[first..pos], 10)), pos - first)
  {
    hide Value, Run;
    CharAt(fmt, start, mods, t, first - start);
    NumberEnds(fmt, start, mods, t, first - start, pos);
    hide SpecAt, IsTerminal;
  }

  method CaseNumber(fmt: seq<char>, first: nat, st: State, ghost start: nat, ghost mods: seq<char>, ghost t: char)
      returns (next: State, pos: nat)
    requires SpecAt(fmt, start, mods, t) && start <= first < start + |mods| && '1' <= fmt[first] <= '9'
    ensures first < pos <= start + |mods| && First(mods[first - start..]).1 == pos - first
        && next == After(st, First(mods[first - start..]).0)
  {
    hide First, Value;
    Ends(fmt, start, mods, t);
    var value, stop := ReadNumber(fmt, first);
    WidthNumber(fmt, first, start, mods, t, stop);
    next, pos := st.(width := Fixed(value)), stop;
  }

  /** `h` and `l`, once or twice. */
  method CaseTwice(fmt: seq<char>, first: nat, st: State, ghost start: nat, ghost mods: seq<char>, ghost t: char)
      returns (next: State, pos: nat)
    requires SpecAt(fmt, start, mods, t) && start <= first < start + |mods| && (fmt[first] == 'h' || fmt[first] == 'l')
    ensures first < pos <= start + |mods| && First(mods[first - start..]).1 == pos - first
        && next == After(st, First(mods[first - start..]).0)
  {
    var c := fmt[first];
    CharAt(fmt, start, mods, t, first - start);
    CharAt(fmt, start, mods, t, first - start + 1);
    pos := first + 1;
    var length;
    if fmt[pos] == c {
      length := if c == 'h' then CharInt else LongLongInt;
      pos := pos + 1;
    } else {
      length := if c == 'h' then ShortInt else LongInt;
    }
    next := st.(flags := st.flags.(length := length));
  }

  /** The cases of one character. */
  method CaseOne(c: char, st: State, ghost mods: seq<char>) returns (next: State)
    requires mods != [] && mods[0] == c && IsModifier(c) && c != '.' && c != 'h' && c != 'l' && !('1' <= c <= '9')
    ensures First(mods).1 == 1 && next == After(st, First(mods).0)
  {
    next := st;
    if c == ' ' {
      if st.sign == NUL { next := st.(sign := ' '); }
    } else if c == '#' {
      next := st.(flags := st.flags.(alt := true));
    } else if c == '*' {
      next := st.(width := Dynamic);
      if st.prec == Dynamic { next := next.(wFirst := false); }
    } else if c == '-' {
      next := st.(flags := st.flags.(leftAdjust := true));
    } else if c == '+' {
      next := st.(sign := '+');
    } else if c == '0' {
      next := st.(flags := st.flags.(zeroPad := true));
    } else if c == 'L' {
      next := st.(flags := st.flags.(longDouble := true));
    } else if c == 'j' {
      next := st.(flags := st.flags.(length := IntMax));
    } else if c == 't' {
      next := st.(flags := st.flags.(length := PtrDiff));
    } else if c == 'z' {
      next := st.(flags := st.flags.(length := SizeT));
    } else {
      assert false;         // the default case, which throws
    }
  }

  /** The second loop of `getOneSpec`, from behind the `%`.  For every specifier it ends right
      behind the conversion character without ever reaching the default case, which throws, and
      has read the meaning of the items. */
  method ParseFields(fmt: seq<char>, start: nat, ghost mods: seq<char>, ghost t: char)
      returns (spec: SpecInfo, pos: nat)
    requires SpecAt(fmt, start, mods, t)
    ensures spec == Meaning(Items(mods), t) && pos == start + |mods| + 1
  {
    hide After, Items, First;
    var st, terminal := State(Flags(false, false, false, false, Plain), Fixed(0), Fixed(-1), NUL, true), NUL;
    pos := start;
    ghost var done: seq<Item> := [];
    Initially(mods);
    hide StateOf, Progress;
    while terminal == NUL
      invariant start <= pos && st == StateOf(done)
      invariant terminal == NUL ==> pos <= start + |mods| && Progress(mods, pos - start, done)
      invariant terminal != NUL ==> terminal == t && pos == start + |mods| + 1 && Progress(mods, |mods|, done)
      decreases |mods| + start - pos + 1
    {
      hide SpecAt;
      ghost var k := pos - start;
      CharAt(fmt, start, mods, t, k);
      var c := fmt[pos];
      if IsTerminal(c) {
        terminal := c;
        pos := pos + 1;
      } else {
        ghost var item := First(mods[k..]).0;
        var next := pos + 1;
        if c == '.' {
          st, next := CaseDot(fmt, pos, st, start, mods, t);
        } else if '1' <= c <= '9' {
          st, next := CaseNumber(fmt, pos, st, start, mods, t);
        } else if c == 'h' || c == 'l' {
          st, next := CaseTwice(fmt, pos, st, start, mods, t);
        } else {
          st := CaseOne(c, st, mods[k..]);
        }
        ProgressStep(mods, k, done, item, next - pos);
        StateStep(done, item);
        done, pos := done + [item], next;
      }
    }
    Finally(mods, done);
    spec := SpecInfo(0, 0, st.flags, st.width, st.prec, st.sign, terminal, st.wFirst);
    OfState(done, terminal);
  }

  lemma Initially(mods: seq<char>)
    requires AllModifiers(mods)
    ensures Progress(mods, 0, [])
    ensures StateOf([]) == State(Flags(false, false, false, false, Plain), Fixed(0), Fixed(-1), NUL, true)
  {
    assert mods[0..] == mods;
  }

  lemma Finally(mods: seq<char>, done: seq<Item>)
    requires Progress(mods, |mods|, done)
    ensures AllModifiers(mods) && done == Items(mods)
  {
    assert mods[|mods|..] == [] && done + [] == done;
  }

  lemma OfState(items: seq<Item>, terminal: char)
    ensures var st := StateOf(items);
      Meaning(items, terminal) == SpecInfo(0, 0, st.flags, st.width, st.prec, st.sign, terminal, st.wFirst)
  {
  }

  // ---------------------------------------------------------------- which `*` comes first

  /** Where both fields come from arguments the flag says in which order: it is off exactly if the
      last `*` stands behind the last `.*`. */
  lemma {:induction false} WFirstIff(items: seq<Item>)
    requires LastWidth(items).Dynamic? && LastPrec(items).Dynamic?
    ensures WFirst(items) <==> LastAt(items, WidthArg) < LastAt(items, PrecArg)
  {
    var init, last := items[..|items| - 1], items[|items| - 1];
    NotBothAt(init, WidthArg, PrecArg);
    if !last.WidthArg? && !last.PrecArg? { WFirstIff(init); }
  }

  /** A `*` stands where the precision so far is `.*`, and no `.*` behind it stands where the width
      so far is `*`. */
  ghost predicate TurnedOff(items: seq<Item>) {
    exists i: nat :: i < |items| && TurnsOff(items, i)
  }

  ghost predicate TurnsOff(items: seq<Item>, i: nat)
    requires i < |items|
  {
    && items[i].WidthArg? && LastPrec(items[..i]).Dynamic?
    && forall j: nat | i < j < |items| && items[j].PrecArg? :: !LastWidth(items[..j]).Dynamic?
  }

  /** When the flag is off, for every sequence of items whatever its fields end up as. */
  lemma {:induction false} WFirstOffIff(items: seq<Item>)
    ensures !WFirst(items) <==> TurnedOff(items)
  {
    if items != [] {
      var n := |items| - 1;
      var init, last := items[..n], items[n];
      WFirstOffIff(init);
      assert forall i: nat | i <= n :: init[..i] == items[..i];
      if last.WidthArg? && LastPrec(init).Dynamic? {
        assert TurnsOff(items, n);
      } else if last.PrecArg? && LastWidth(init).Dynamic? {
        assert forall i: nat | i < n :: !TurnsOff(items, i);
      } else {
        assert forall i: nat | i < n :: TurnsOff(items, i) <==> TurnsOff(init, i);
      }
    }
  }

  ghost predicate BothDynamic(items: seq<Item>) { LastWidth(items).Dynamic? && LastPrec(items).Dynamic? }

  /** "Off exactly if both fields are dynamic and the last `*` stands behind the last `.*`" holds of
      a specifier if and only if both are dynamic or it never was turned off. */
  lemma WFirstExactIff(items: seq<Item>)
    ensures (!WFirst(items) <==> BothDynamic(items) && LastAt(items, PrecArg) < LastAt(items, WidthArg))
       <==> BothDynamic(items) || !TurnedOff(items)
  {
    WFirstOffIff(items);
    if BothDynamic(items) {
      WFirstIff(items);
      NotBothAt(items, WidthArg, PrecArg);
      DynamicAt(items);
    }
  }

  lemma {:induction false} NotBothAt(items: seq<Item>, x: Item, y: Item)
    requires x != y
    ensures LastAt(items, x) == LastAt(items, y) ==> LastAt(items, x) == -1
    ensures -1 <= LastAt(items, x) < |items| && -1 <= LastAt(items, y) < |items|
  {
    if items != [] { NotBothAt(items[..|items| - 1], x, y); }
  }

  lemma {:induction false} DynamicAt(items: seq<Item>)
    requires LastWidth(items).Dynamic?
    ensures LastAt(items, WidthArg) >= 0
  {
    if !items[|items| - 1].WidthArg? { DynamicAt(items[..|items| - 1]); }
  }

  /** Otherwise it may be off without meaning anything: after `%.**5d` it is, though the width is 5. */
  lemma WFirstOffForFixedWidth()
    ensures AllModifiers(".**5") && Items(".**5") == [PrecArg, WidthArg, Width(5)]
    ensures LastWidth(Items(".**5")) == Fixed(5) && !WFirst(Items(".**5"))
  {
    var s := ".**5";
    assert s[2..] == "*5" && s[2..][1..] == "5" && s[3..] == "5";
    RunIs("5", 1);
    assert "5"[..1] == "5" && "5"[..0] == [] && Value("5", 10) == Value("5"[..0], 10) * 10 + DigitValue('5');
    assert First(s) == (PrecArg, 2) && First("*5") == (WidthArg, 1) && First("5") == (Width(5), 1);
    assert "5"[1..] == [] && Items("5") == [Width(5)];
    assert Items("*5") == [WidthArg] + Items("5");
    assert Items(s) == [PrecArg] + Items("*5");
    var items := [PrecArg, WidthArg, Width(5)];
    assert items[..2] == [PrecArg, WidthArg] && items[..2][..1] == [PrecArg];
    assert LastPrec([PrecArg]) == Dynamic;
    assert !WFirst([PrecArg, WidthArg]);
  }

  // ---------------------------------------------------------------- a printer

  function Text(x: Item): seq<char> {
    match x
    case Flag(c) => [c]
    case Width(v) => Numeral(v, 10, false)
    case WidthArg => "*"
    case Prec(v) => "." + Numeral(v, 10, false)
    case PrecArg => ".*"
    case Size(CharInt) => "hh"
    case Size(ShortInt) => "h"
    case Size(LongInt) => "l"
    case Size(LongLongInt) => "ll"
    case Size(IntMax) => "j"
    case Size(PtrDiff) => "t"
    case Size(SizeT) => "z"
    case Size(Plain) => ""
    case LongDouble => "L"
  }

  function Print(items: seq<Item>): seq<char> {
    if items == [] then [] else Text(items[0]) + Print(items[1..])
  }

  predicate ItemOk(x: Item) {
    match x
    case Flag(c) => IsFlag(c)
    case Width(v) => v > 0
    case Size(length) => length != Plain
    case _ => true
  }

  /** What follows does not read as a part of the item. */
  predicate Apart(x: Item, rest: seq<char>) {
    rest == [] ||
    match x
    case Width(_) => !IsDigit(rest[0])
    case Prec(_) => !IsDigit(rest[0])
    case Size(ShortInt) => rest[0] != 'h'
    case Size(LongInt) => rest[0] != 'l'
    case _ => true
  }

  predicate Printable(items: seq<Item>) {
    items == [] || (ItemOk(items[0]) && Apart(items[0], Print(items[1..])) && Printable(items[1..]))
  }

  lemma NumberText(v: nat, rest: seq<char>)
    requires rest == [] || !IsDigit(rest[0])
    ensures var n := Numeral(v, 10, false);
      && Run(n + rest) == |n| && (n + rest)[..|n|] == n && Value(n, 10) == v
      && (v > 0 ==> IsDigit(n[0]) && n[0] != '0') && (forall i | 0 <= i < |n| :: IsDigit(n[i]))
  {
    var n := Numeral(v, 10, false);
    ValueOfNumeral(v, 10, false);
    NoLeadingZero(v, 10, false);
    hide Numeral, Value;
    assert forall i | 0 <= i < |n| :: IsDigit(n[i]);
    RunIs(n + rest, |n|);
  }

  lemma FirstOfText(x: Item, rest: seq<char>)
    requires ItemOk(x) && Apart(x, rest)
    ensures AllModifiers(Text(x)) && Text(x) != []
    ensures First(Text(x) + rest) == (x, |Text(x)|)
  {
    if x.Width? {
      FirstOfWidth(x.v, rest);
    } else if x.Prec? {
      FirstOfPrec(x.v, rest);
    } else {
      hide Numeral, Value, Run;
      assert (Text(x) + rest)[0] == Text(x)[0];
    }
  }

  lemma FirstOfWidth(v: nat, rest: seq<char>)
    requires v > 0 && Apart(Width(v), rest)
    ensures AllModifiers(Text(Width(v))) && Text(Width(v)) != []
    ensures First(Text(Width(v)) + rest) == (Width(v), |Text(Width(v))|)
  {
    hide Numeral, Value, Run;
    NumberText(v, rest);
    assert (Numeral(v, 10, false) + rest)[0] == Numeral(v, 10, false)[0];
  }

  lemma FirstOfPrec(v: nat, rest: seq<char>)
    requires Apart(Prec(v), rest)
    ensures AllModifiers(Text(Prec(v))) && Text(Prec(v)) != []
    ensures First(Text(Prec(v)) + rest) == (Prec(v), |Text(Prec(v))|)
  {
    hide Numeral, Value, Run;
    NumberText(v, rest);
    assert (Text(Prec(v)) + rest)[1..] == Numeral(v, 10, false) + rest;
  }

  /** Printing and reading items again. */
  lemma {:induction false} ItemsOfPrint(items: seq<Item>)
    requires Printable(items)
    ensures AllModifiers(Print(items)) && Items(Print(items)) == items
  {
    if items != [] {
      ItemsOfPrint(items[1..]);
      FirstOfText(items[0], Print(items[1..]));
      assert Print(items)[|Text(items[0])|..] == Print(items[1..]);
    }
  }

  /** The specifiers there are: where the flag is off, both `.*` and `*` have been read, so neither
      field is at the value it has without any item. */
  predicate Canonical(s: SpecInfo) {
    SpecOk(s) && (!s.wFirst ==> s.width != Fixed(0) && s.prec != Fixed(-1))
  }

  function WidthItems(s: SpecInfo): seq<Item>
    requires SpecOk(s)
  {
    if s.width.Dynamic? then [WidthArg] else if s.width.value == 0 then [] else [Width(s.width.value)]
  }

  function PrecItems(s: SpecInfo): seq<Item>
    requires SpecOk(s)
  {
    if s.prec.Dynamic? then [PrecArg] else if s.prec.value < 0 then [] else [Prec(s.prec.value)]
  }

  function SizeItems(s: SpecInfo): seq<Item> {
    (if s.flags.length == Plain then [] else [Size(s.flags.length)]) + (if s.flags.longDouble then [LongDouble] else [])
  }

  function FlagItem(on: bool, c: char): (items: seq<Item>)
    ensures items == [] || items == [Flag(c)]
    ensures items == [] <==> !on
  {
    if on then [Flag(c)] else []
  }

  function FlagItems(s: SpecInfo): seq<Item> {
    FlagItem(s.sign != NUL, s.sign) + FlagItem(s.flags.alt, '#') + FlagItem(s.flags.leftAdjust, '-')
        + FlagItem(s.flags.zeroPad, '0')
  }

  /** Flags, width, precision, length: the order in which the standard lists them. */
  function CanonicalItems(s: SpecInfo): seq<Item>
    requires SpecOk(s)
  {
    FlagItems(s) + FieldItems(s) + SizeItems(s)
  }

  lemma Optional(items: seq<Item>, more: seq<Item>, x: Item)
    requires more == [] || more == [x]
    ensures StateOf(items + more) == if more == [] then StateOf(items) else After(StateOf(items), x)
  {
    if more == [] { assert items + more == items; } else { StateStep(items, x); }
  }

  lemma FlagItemsState(s: SpecInfo)
    requires SpecOk(s)
    ensures StateOf(FlagItems(s)) == State(Flags(s.flags.alt, s.flags.zeroPad, s.flags.leftAdjust, false, Plain),
        Fixed(0), Fixed(-1), s.sign, true)
  {
    hide StateOf, FlagItem;
    var a, b, c, d := FlagItem(s.sign != NUL, s.sign), FlagItem(s.flags.alt, '#'), FlagItem(s.flags.leftAdjust, '-'),
        FlagItem(s.flags.zeroPad, '0');
    Initially([]);
    Optional([], a, Flag(s.sign));
    assert [] + a == a;
    Optional(a, b, Flag('#'));
    Optional(a + b, c, Flag('-'));
    Optional(a + b + c, d, Flag('0'));
  }

  /** The fields behind the flags, in their order.  Where the flag is off, `.*` and `*` turn it off
      before a number overrides either. */
  function FieldItems(s: SpecInfo): seq<Item>
    requires SpecOk(s)
  {
    if s.wFirst then WidthItems(s) + PrecItems(s)
    else
      [PrecArg] + [WidthArg] + (if s.width.Fixed? then WidthItems(s) else [])
      + (if s.prec.Fixed? then PrecItems(s) else [])
  }

  lemma FieldItemsState(s: SpecInfo, flags: seq<Item>)
    requires Canonical(s) && StateOf(flags).width == Fixed(0) && StateOf(flags).prec == Fixed(-1)
        && StateOf(flags).wFirst
    ensures StateOf(flags + FieldItems(s)) == StateOf(flags).(width := s.width, prec := s.prec, wFirst := s.wFirst)
  {
    hide StateOf;
    var w, p := WidthItems(s), PrecItems(s);
    var width := if s.width.Dynamic? then WidthArg else Width(s.width.value);
    var prec := if s.prec.Dynamic? then PrecArg else if s.prec.value < 0 then PrecArg else Prec(s.prec.value);
    if s.wFirst {
      Optional(flags, w, width);
      Optional(flags + w, p, prec);
      Assoc(flags, w, p);
    } else {
      OffState(s, flags);
    }
  }

  lemma OffState(s: SpecInfo, flags: seq<Item>)
    requires Canonical(s) && !s.wFirst && StateOf(flags).width == Fixed(0) && StateOf(flags).prec == Fixed(-1)
    ensures StateOf(flags + FieldItems(s)) == StateOf(flags).(width := s.width, prec := s.prec, wFirst := false)
  {
    hide StateOf;
    var w := if s.width.Fixed? then [Width(s.width.value)] else [];
    var p := if s.prec.Fixed? then [Prec(s.prec.value)] else [];
    Optional(flags, [PrecArg], PrecArg);
    Optional(flags + [PrecArg], [WidthArg], WidthArg);
    var front := flags + [PrecArg] + [WidthArg];
    Optional(front, w, if s.width.Fixed? then Width(s.width.value) else WidthArg);
    Optional(front + w, p, if s.prec.Fixed? then Prec(s.prec.value) else PrecArg);
    assert FieldItems(s) == [PrecArg] + [WidthArg] + w + p;
    assert flags + ([PrecArg] + [WidthArg] + w + p) == front + w + p;
  }

  lemma MeaningOfCanonical(s: SpecInfo)
    requires Canonical(s)
    ensures Meaning(CanonicalItems(s), s.terminal) == s.(begin := 0, end := 0)
  {
    hide StateOf, FlagItems, FieldItems, Meaning;
    var front := FlagItems(s) + FieldItems(s);
    var size := if s.flags.length == Plain then [] else [Size(s.flags.length)];
    var double := if s.flags.longDouble then [LongDouble] else [];
    FlagItemsState(s);
    FieldItemsState(s, FlagItems(s));
    Optional(front, size, Size(s.flags.length));
    Optional(front + size, double, LongDouble);
    Assoc(front, size, double);
    OfState(CanonicalItems(s), s.terminal);
  }

  lemma PrintableCons(x: Item, rest: seq<Item>)
    requires ItemOk(x) && Printable(rest) && Apart(x, Print(rest))
    ensures Printable([x] + rest) && Print([x] + rest) == Text(x) + Print(rest)
  {
    assert ([x] + rest)[1..] == rest;
  }

  lemma PrintableMore(more: seq<Item>, x: Item, rest: seq<Item>)
    requires more == [] || more == [x]
    requires more != [] ==> ItemOk(x) && Apart(x, Print(rest))
    requires Printable(rest)
    ensures Printable(more + rest) && Print(more + rest) == (if more == [] then [] else Text(x)) + Print(rest)
  {
    if more == [] { assert more + rest == rest; } else { PrintableCons(x, rest); }
  }

  lemma SizeItemsPrintable(s: SpecInfo)
    ensures Printable(SizeItems(s)) && (Print(SizeItems(s)) == [] || !IsDigit(Print(SizeItems(s))[0]))
  {
    var double := if s.flags.longDouble then [LongDouble] else [];
    PrintableMore(double, LongDouble, []);
    assert double + [] == double;
    PrintableMore(if s.flags.length == Plain then [] else [Size(s.flags.length)], Size(s.flags.length), double);
  }

  /** A width and a precision as numbers, if they are, in front of the length. */
  lemma NumbersPrintable(w: seq<Item>, width: Item, p: seq<Item>, prec: Item, size: seq<Item>)
    requires (w == [] || w == [width]) && (p == [] || p == [prec]) && (prec.Prec? || prec.PrecArg?)
    requires (width.Width? || width.WidthArg?) && (w != [] ==> ItemOk(width))
    requires Printable(size) && (Print(size) == [] || !IsDigit(Print(size)[0]))
    ensures Printable(w + (p + size))
  {
    PrintableMore(p, prec, size);
    hide Printable, Print, Numeral;
    assert p != [] ==> Text(prec)[0] == '.';
    PrintableMore(w, width, p + size);
  }

  lemma FieldItemsPrintable(s: SpecInfo)
    requires Canonical(s)
    ensures Printable(FieldItems(s) + SizeItems(s))
  {
    SizeItemsPrintable(s);
    hide SizeItems, Printable, Print, Text;
    var w, p, size := WidthItems(s), PrecItems(s), SizeItems(s);
    var width := if s.width.Dynamic? then WidthArg else Width(s.width.value);
    var prec := if s.prec.Dynamic? then PrecArg else if s.prec.value < 0 then PrecArg else Prec(s.prec.value);
    if s.wFirst {
      NumbersPrintable(w, width, p, prec, size);
      Assoc(w, p, size);
    } else {
      var w1, p1 := if s.width.Fixed? then w else [], if s.prec.Fixed? then p else [];
      NumbersPrintable(w1, width, p1, prec, size);
      PrintableMore([WidthArg], WidthArg, w1 + (p1 + size));
      PrintableMore([PrecArg], PrecArg, [WidthArg] + (w1 + (p1 + size)));
      Regroup([], [PrecArg], [WidthArg], w1, p1, size);
      assert [] + [PrecArg] == [PrecArg];
      assert [] + ([PrecArg] + ([WidthArg] + (w1 + (p1 + size)))) == [PrecArg] + ([WidthArg] + (w1 + (p1 + size)));
    }
  }

  lemma Regroup(a: seq<Item>, b: seq<Item>, c: seq<Item>, d: seq<Item>, e: seq<Item>, f: seq<Item>)
    ensures a + b + c + d + e + f == a + (b + (c + (d + (e + f))))
  {
  }

  lemma CanonicalPrintable(s: SpecInfo)
    requires Canonical(s)
    ensures Printable(CanonicalItems(s))
  {
    FieldItemsPrintable(s);
    hide Printable, Print, Text, FlagItem, FieldItems, SizeItems;
    var a, b, c, d := FlagItem(s.sign != NUL, s.sign), FlagItem(s.flags.alt, '#'), FlagItem(s.flags.leftAdjust, '-'),
        FlagItem(s.flags.zeroPad, '0');
    var rest := FieldItems(s) + SizeItems(s);
    PrintableMore(d, Flag('0'), rest);
    PrintableMore(c, Flag('-'), d + rest);
    PrintableMore(b, Flag('#'), c + (d + rest));
    PrintableMore(a, Flag(s.sign), b + (c + (d + rest)));
    Regroup(a, b, c, d, FieldItems(s), SizeItems(s));
  }

  /** Reading undoes printing, for every canonical specifier. */
  lemma ReadUndoesPrint(s: SpecInfo)
    requires Canonical(s)
    ensures var mods := Print(CanonicalItems(s));
      AllModifiers(mods) && Meaning(Items(mods), s.terminal) == s.(begin := 0, end := 0)
  {
    CanonicalPrintable(s);
    ItemsOfPrint(CanonicalItems(s));
    MeaningOfCanonical(s);
  }

  /** A number in front of which no digit stands has no leading zero. */
  predicate WidthsOk(items: seq<Item>) { forall i | 0 <= i < |items| && items[i].Width? :: items[i].v > 0 }

  lemma {:induction false} ItemsWidthsOk(s: seq<char>)
    requires AllModifiers(s)
    ensures WidthsOk(Items(s))
    decreases |s|
  {
    if s != [] {
      var (x, n) := First(s);
      ItemsWidthsOk(s[n..]);
      if x.Width? { NumberPositive(s[..n]); }
      hide First;
      assert Items(s) == [x] + Items(s[n..]);
    }
  }

  lemma {:induction false} NumberPositive(s: seq<char>)
    requires s != [] && IsDigit(s[0]) && s[0] != '0'
    ensures Value(s, 10) > 0
    decreases |s|
  {
    if |s| > 1 { NumberPositive(s[..|s| - 1]); }
  }

  /** Whatever modifiers mean, their specifier is one that the printer prints and reading restores:
      every meaning has its canonical text. */
  lemma EveryMeaningPrints(mods: seq<char>, t: char)
    requires AllModifiers(mods)
    ensures var s := Meaning(Items(mods), t);
      Canonical(s) && AllModifiers(Print(CanonicalItems(s))) && Meaning(Items(Print(CanonicalItems(s))), t) == s
  {
    ItemsWidthsOk(mods);
    MeaningOk(Items(mods), t);
    OffFields(Items(mods));
    ReadUndoesPrint(Meaning(Items(mods), t));
  }

  lemma {:induction false} OffFields(items: seq<Item>)
    requires WidthsOk(items)
    ensures !WFirst(items) ==> LastWidth(items) != Fixed(0) && LastPrec(items) != Fixed(-1)
  {
    if items != [] {
      var init := items[..|items| - 1];
      assert WidthsOk(init) by { assert forall i | 0 <= i < |init| :: init[i] == items[i]; }
      OffFields(init);
    }
  }

  /** What is read from any modifiers is within the bounds of a specifier. */
  lemma MeaningOk(items: seq<Item>, terminal: char)
    ensures SpecOk(Meaning(items, terminal))
  {
    LastWidthOk(items);
    LastPrecOk(items);
  }

  lemma {:induction false} LastWidthOk(items: seq<Item>)
    ensures LastWidth(items).Fixed? ==> LastWidth(items).value >= 0
  {
    if items != [] { LastWidthOk(items[..|items| - 1]); }
  }

  lemma {:induction false} LastPrecOk(items: seq<Item>)
    ensures LastPrec(items).Fixed? ==> LastPrec(items).value >= -1
  {
    if items != [] { LastPrecOk(items[..|items| - 1]); }
  }
}
