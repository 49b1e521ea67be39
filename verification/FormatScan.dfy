/** The four scanners of `constexpr_fmt.h` over one format string: they count its valid
    specifiers, measure and produce the text without the invalid ones, and find the literal text
    in front of each specifier.  One sequence of tokens says what they have to agree on. */
module FormatScan {
  import opened SpecFields
  import opened SpecInfos

  // ---------------------------------------------------------------- tokens

  datatype Token =
    | Literal(c: char)
    | Valid(mods: seq<char>, t: char)        // %, modifiers, conversion character
    | Invalid(mods: seq<char>, c: char)      // the same with a character that converts nothing
    | Dangling(mods: seq<char>)              // % and modifiers up to the end

  /** A string literal: characters and the NUL that ends them. */
  predicate CStr(fmt: seq<char>) {
    |fmt| > 0 && fmt[|fmt| - 1] == NUL && forall i | 0 <= i < |fmt| - 1 :: fmt[i] != NUL
  }

  function Mods(s: seq<char>): (n: nat)
    ensures n <= |s| && (forall i | 0 <= i < n :: IsModifier(s[i])) && (n < |s| ==> !IsModifier(s[n]))
  {
    if s == [] || !IsModifier(s[0]) then 0 else 1 + Mods(s[1..])
  }

  lemma ModsStop(s: seq<char>)
    requires CStr(s)
    ensures Mods(s) < |s|
  {
    assert !IsModifier(NUL);
  }

  lemma Rest(s: seq<char>, n: nat)
    requires CStr(s) && n < |s|
    ensures CStr(s[n..])
  {
  }

  /** The token a format begins with. */
  function FirstToken(s: seq<char>): (t: Token)
    requires CStr(s) && s[0] != NUL
    ensures 1 <= |Source(t)| < |s| && s[..|Source(t)|] == Source(t)
  {
    if s[0] != '%' then Literal(s[0])
    else
      Rest(s, 1);
      ModsStop(s[1..]);
      var n := Mods(s[1..]);
      var mods, c := s[1..][..n], s[n + 1];
      assert s[..n + 1] == ['%'] + mods && s[..n + 2] == s[..n + 1] + [c];
      if c == NUL then Dangling(mods) else if IsTerminal(c) then Valid(mods, c) else Invalid(mods, c)
  }

  /** The characters of a token in the format. */
  function Source(t: Token): seq<char> {
    match t
    case Literal(c) => [c]
    case Valid(mods, c) => ['%'] + mods + [c]
    case Invalid(mods, c) => ['%'] + mods + [c]
    case Dangling(mods) => ['%'] + mods
  }

  function Tokens(s: seq<char>): seq<Token>
    requires CStr(s)
    decreases |s|
  {
    if s[0] == NUL then []
    else
      Rest(s, |Source(FirstToken(s))|);
      [FirstToken(s)] + Tokens(s[|Source(FirstToken(s))|..])
  }

  /** What is kept of a token: of an invalid specifier only the character that ended it, nothing
      of one that the end of the format cuts off. */
  function Kept(t: Token): seq<char> {
    match t
    case Literal(c) => [c]
    case Valid(_, _) => Source(t)
    case Invalid(_, c) => [c]
    case Dangling(_) => []
  }

  function Squeezed(ts: seq<Token>): seq<char> {
    if ts == [] then [] else Kept(ts[0]) + Squeezed(ts[1..])
  }

  function CountValid(ts: seq<Token>): nat {
    if ts == [] then 0 else (if ts[0].Valid? then 1 else 0) + CountValid(ts[1..])
  }

  function SourceOf(ts: seq<Token>): seq<char> {
    if ts == [] then [] else Source(ts[0]) + SourceOf(ts[1..])
  }

  /** The tokens are the whole format. */
  lemma {:induction false} TokensCover(s: seq<char>)
    requires CStr(s)
    ensures SourceOf(Tokens(s)) + [NUL] == s
    decreases |s|
  {
    hide FirstToken, Source;
    if s[0] == NUL {
      assert s == [NUL];
    } else {
      var t := FirstToken(s);
      var n := |Source(t)|;
      Rest(s, n);
      TokensCover(s[n..]);
      assert Tokens(s)[1..] == Tokens(s[n..]);
      assert Source(t) + SourceOf(Tokens(s[n..])) + [NUL] == s[..n] + s[n..];
    }
  }

  /** A token as a format can contain it; only the last may be cut off. */
  predicate TokenOk(t: Token) {
    match t
    case Literal(c) => c != '%' && c != NUL
    case Valid(mods, c) => AllModifiers(mods) && IsTerminal(c)
    case Invalid(mods, c) => AllModifiers(mods) && !IsTerminal(c) && !IsModifier(c) && c != NUL
    case Dangling(mods) => AllModifiers(mods)
  }

  predicate TokensOk(ts: seq<Token>) {
    ts == [] || (TokenOk(ts[0]) && (ts[0].Dangling? ==> |ts| == 1) && TokensOk(ts[1..]))
  }

  lemma NothingOk()
    ensures TokensOk([])
  {
  }

  lemma TokensOkCons(ts: seq<Token>)
    requires ts != [] && TokenOk(ts[0]) && (ts[0].Dangling? ==> |ts| == 1) && TokensOk(ts[1..])
    ensures TokensOk(ts)
  {
  }

  lemma {:induction false} TokensAreOk(s: seq<char>)
    requires CStr(s)
    ensures TokensOk(Tokens(s))
    decreases |s|
  {
    if s[0] != NUL {
      FirstIsOk(s);
      hide FirstToken, TokenOk, Source;
      var n := |Source(FirstToken(s))|;
      Rest(s, n);
      TokensAreOk(s[n..]);
      assert Tokens(s)[1..] == Tokens(s[n..]);
    }
  }

  lemma FirstIsOk(s: seq<char>)
    requires CStr(s) && s[0] != NUL
    ensures TokenOk(FirstToken(s)) && (FirstToken(s).Dangling? ==> s[|Source(FirstToken(s))|] == NUL)
  {
    hide IsModifier, IsTerminal;
    if s[0] == '%' {
      Rest(s, 1);
      ModsStop(s[1..]);
    }
  }

  lemma FirstOfSource(t: Token, rest: seq<char>)
    requires TokenOk(t) && CStr(rest) && (t.Dangling? ==> rest == [NUL])
    ensures CStr(Source(t) + rest) && (Source(t) + rest)[0] != NUL && FirstToken(Source(t) + rest) == t
  {
    NoPart();
    hide IsTerminal, IsModifier, Mods, FirstToken;
    var s := Source(t) + rest;
    if t.Literal? {
      FirstLiteral(s);
    } else {
      SpecText(t.mods, s[|t.mods| + 1..]);
      var k := |t.mods| + 1;
      assert s == ['%'] + t.mods + s[k..];
      Disjoint(s[k]);
      SpecToken(s, k);
    }
  }

  lemma SpecText(mods: seq<char>, tail: seq<char>)
    requires AllModifiers(mods) && CStr(tail)
    ensures var s, k := ['%'] + mods + tail, |mods| + 1;
      CStr(s) && s[0] == '%' && s[1..k] == mods && s[k] == tail[0] && forall i | 1 <= i < k :: IsModifier(s[i])
  {
    NoPart();
    hide IsModifier;
    var s, k := ['%'] + mods + tail, |mods| + 1;
    assert forall i | 1 <= i < k :: s[i] == mods[i - 1];
    assert forall i | k <= i < |s| :: s[i] == tail[i - k];
  }

  lemma FirstLiteral(s: seq<char>)
    requires CStr(s) && s[0] != NUL && s[0] != '%'
    ensures FirstToken(s) == Literal(s[0])
  {
  }

  /** Every sequence of tokens is read from its text as it is: a format has one reading. */
  lemma {:induction false} TokensOfSource(ts: seq<Token>)
    requires TokensOk(ts)
    ensures CStr(SourceOf(ts) + [NUL]) && Tokens(SourceOf(ts) + [NUL]) == ts
    decreases |ts|
  {
    hide *;
    if ts == [] {
      NoTokens();
    } else {
      Unfolded(ts);
      TokensOfSource(ts[1..]);
      NothingBehind(ts);
      TokensCons(ts[0], SourceOf(ts[1..]) + [NUL]);
      assert Source(ts[0]) + (SourceOf(ts[1..]) + [NUL]) == SourceOf(ts) + [NUL];
    }
  }

  lemma NoTokens()
    ensures CStr(SourceOf([]) + [NUL]) && Tokens(SourceOf([]) + [NUL]) == []
  {
    assert SourceOf([]) + [NUL] == [NUL];
  }

  lemma Unfolded(ts: seq<Token>)
    requires TokensOk(ts) && ts != []
    ensures TokenOk(ts[0]) && TokensOk(ts[1..]) && SourceOf(ts) == Source(ts[0]) + SourceOf(ts[1..])
  {
  }

  lemma NothingBehind(ts: seq<Token>)
    requires TokensOk(ts) && ts != []
    ensures ts[0].Dangling? ==> SourceOf(ts[1..]) + [NUL] == [NUL]
  {
    if ts[0].Dangling? { assert ts[1..] == []; }
  }

  lemma TokensCons(t: Token, rest: seq<char>)
    requires TokenOk(t) && CStr(rest) && (t.Dangling? ==> rest == [NUL])
    ensures CStr(Source(t) + rest) && Tokens(Source(t) + rest) == [t] + Tokens(rest)
  {
    FirstOfSource(t, rest);
    hide FirstToken, Source, TokenOk;
    assert (Source(t) + rest)[|Source(t)|..] == rest;
  }

  /** What `%` and one character are: a conversion for the characters of the standard, cut off
      within the modifiers, and a character that stands for itself for all others. */
  lemma AfterPercent(c: char)
    requires c != NUL
    ensures CStr(['%', c, NUL])
    ensures Tokens(['%', c, NUL])
         == [if c in "diouxXfFeEgGaAcspn" then Valid([], c)
             else if c in "-+ #0123456789hljztL.*" then Dangling([c])
             else Invalid([], c)]
  {
    CharactersAre(c);
    NoPart();
    hide IsTerminal, IsModifier;
    var t := if IsTerminal(c) then Valid([], c) else if IsModifier(c) then Dangling([c]) else Invalid([], c);
    SpecFields.Disjoint(c);
    NothingOk();
    assert [t][1..] == [];
    TokensOkCons([t]);
    TokensOfSource([t]);
    assert SourceOf([t]) == Source(t) + SourceOf([]) && SourceOf([]) == [];
    assert Source(t) + [] + [NUL] == ['%', c, NUL];
  }

  // ---------------------------------------------------------------- one token further

  /** The format from `pos` on: its tokens are what is left. */
  ghost predicate At(fmt: seq<char>, pos: nat, rest: seq<Token>) {
    && CStr(fmt) && pos < |fmt| && CStr(fmt[pos..]) && Tokens(fmt[pos..]) == rest
  }

  lemma Beginning(fmt: seq<char>)
    requires CStr(fmt)
    ensures At(fmt, 0, Tokens(fmt))
  {
    assert fmt[0..] == fmt;
  }

  lemma AtEnd(fmt: seq<char>, pos: nat, rest: seq<Token>)
    requires At(fmt, pos, rest)
    ensures pos < |fmt| && (fmt[pos] == NUL <==> rest == [])
    ensures fmt[pos] == NUL <==> pos == |fmt| - 1
  {
  }

  lemma Advance(fmt: seq<char>, pos: nat, rest: seq<Token>)
    requires At(fmt, pos, rest) && fmt[pos] != NUL
    ensures rest != [] && fmt[pos..] != [] && rest[0] == FirstToken(fmt[pos..])
    ensures At(fmt, pos + |Source(rest[0])|, rest[1..])
  {
    hide FirstToken, Source;
    var n := |Source(FirstToken(fmt[pos..]))|;
    Rest(fmt, pos + n);
    assert fmt[pos..][n..] == fmt[pos + n..];
  }

  lemma AtLiteral(fmt: seq<char>, pos: nat, rest: seq<Token>)
    requires At(fmt, pos, rest) && fmt[pos] != NUL && fmt[pos] != '%'
    ensures rest != [] && rest[0] == Literal(fmt[pos]) && At(fmt, pos + 1, rest[1..])
  {
    Advance(fmt, pos, rest);
    hide At;
  }

  /** Where the modifiers behind a `%` end decides what the token is. */
  lemma AtSpec(fmt: seq<char>, pos: nat, rest: seq<Token>, p: nat)
    requires At(fmt, pos, rest) && fmt[pos] == '%'
    requires pos < p < |fmt| && !IsModifier(fmt[p]) && (forall i | pos < i < p :: IsModifier(fmt[i]))
    ensures rest != [] && AllModifiers(fmt[pos + 1..p])
    ensures rest[0] == (if fmt[p] == NUL then Dangling(fmt[pos + 1..p])
                        else if IsTerminal(fmt[p]) then Valid(fmt[pos + 1..p], fmt[p])
                        else Invalid(fmt[pos + 1..p], fmt[p]))
    ensures At(fmt, if fmt[p] == NUL then p else p + 1, rest[1..])
    ensures |Kept(rest[0])| == (if fmt[p] == NUL then 0 else if IsTerminal(fmt[p]) then p - pos + 1 else 1)
  {
    hide FirstToken, IsModifier, IsTerminal, Tokens, Kept, Source;
    var s, k := fmt[pos..], p - pos;
    assert CStr(s) && s[0] == '%' && s[k] == fmt[p] && forall i | 0 <= i < |s| :: s[i] == fmt[pos + i];
    SpecToken(s, k);
    assert s[1..k] == fmt[pos + 1..p];
    Advance(fmt, pos, rest);
    KeptSize(rest[0]);
    hide At;
  }

  lemma KeptSize(t: Token)
    ensures t.Valid? ==> |Kept(t)| == |t.mods| + 2
    ensures t.Invalid? ==> |Kept(t)| == 1
    ensures t.Dangling? ==> Kept(t) == []
  {
  }

  /** Neither the NUL nor a `%` is part of a specifier behind its first character. */
  lemma NoPart()
    ensures !IsTerminal(NUL) && !IsModifier(NUL) && !IsTerminal('%') && !IsModifier('%')
  {
  }

  lemma SpecToken(s: seq<char>, k: nat)
    requires CStr(s) && s[0] == '%' && 1 <= k < |s| && !IsModifier(s[k]) && (forall i | 1 <= i < k :: IsModifier(s[i]))
    ensures FirstToken(s) == (if s[k] == NUL then Dangling(s[1..k])
                              else if IsTerminal(s[k]) then Valid(s[1..k], s[k])
                              else Invalid(s[1..k], s[k]))
    ensures |Source(FirstToken(s))| == (if s[k] == NUL then k else k + 1)
  {
    hide IsModifier, IsTerminal, Mods;
    Rest(s, 1);
    ModsIs(s[1..], k - 1);
    assert s[1..][..k - 1] == s[1..k];
  }

  lemma {:induction false} ModsIs(s: seq<char>, n: nat)
    requires n < |s| && !IsModifier(s[n]) && (forall i | 0 <= i < n :: IsModifier(s[i]))
    ensures Mods(s) == n
    decreases n
  {
    if n > 0 { ModsIs(s[1..], n - 1); }
  }

  /** The inner loop of all four: skips over modifiers. */
  method SkipModifiers(fmt: seq<char>, start: nat) returns (pos: nat)
    requires CStr(fmt) && start < |fmt|
    ensures start <= pos < |fmt| && !IsModifier(fmt[pos]) && (forall i | start <= i < pos :: IsModifier(fmt[i]))
  {
    pos := start;
    assert !IsModifier(NUL);
    while IsModifier(fmt[pos])
      invariant start <= pos < |fmt| && (forall i | start <= i < pos :: IsModifier(fmt[i]))
      decreases |fmt| - pos
    {
      pos := pos + 1;
    }
  }

  // ---------------------------------------------------------------- counting and measuring

  /** `countValidSpecInfos`. */
  method CountValidSpecInfos(fmt: seq<char>) returns (count: nat)
    requires CStr(fmt)
    ensures count == CountValid(Tokens(fmt))
  {
    hide At, Tokens, IsModifier, IsTerminal;
    var pos := 0;
    count := 0;
    ghost var rest := Tokens(fmt);
    Beginning(fmt);
    NoPart();
    while true
      invariant pos < |fmt| && At(fmt, pos, rest) && count + CountValid(rest) == CountValid(Tokens(fmt))
      decreases |fmt| - pos
    {
      AtEnd(fmt, pos, rest);
      while fmt[pos] != NUL && fmt[pos] != '%'
        invariant pos < |fmt| && At(fmt, pos, rest) && count + CountValid(rest) == CountValid(Tokens(fmt))
        invariant fmt[pos] == NUL <==> rest == []
        decreases |fmt| - pos
      {
        AtLiteral(fmt, pos, rest);
        pos, rest := pos + 1, rest[1..];
        AtEnd(fmt, pos, rest);
      }
      if fmt[pos] == NUL {
        return;
      }
      var start := pos;
      AtEnd(fmt, pos, rest);
      pos := SkipModifiers(fmt, pos + 1);
      AtSpec(fmt, start, rest, pos);
      rest := rest[1..];
      if IsTerminal(fmt[pos]) {
        count := count + 1;
      }
      if fmt[pos] == NUL {
        AtEnd(fmt, pos, rest);
        return;
      }
      pos := pos + 1;
    }
  }

  /** `squeezeSoundSize`. */
  method SqueezeSoundSize(fmt: seq<char>) returns (size: int)
    requires CStr(fmt)
    ensures size == |Squeezed(Tokens(fmt))| + 1
  {
    hide At, Tokens, Squeezed, IsModifier, IsTerminal, Kept, Source;
    var pos := 0;
    size := |fmt|;
    ghost var rest := Tokens(fmt);
    Beginning(fmt);
    NoPart();
    while true
      invariant pos < |fmt| && At(fmt, pos, rest)
      invariant size - (|fmt| - pos) + |Squeezed(rest)| == |Squeezed(Tokens(fmt))|
      decreases |fmt| - pos
    {
      AtEnd(fmt, pos, rest);
      while fmt[pos] != NUL && fmt[pos] != '%'
        invariant pos < |fmt| && At(fmt, pos, rest)
        invariant size - (|fmt| - pos) + |Squeezed(rest)| == |Squeezed(Tokens(fmt))|
        invariant (fmt[pos] == NUL <==> rest == []) && (fmt[pos] == NUL <==> pos == |fmt| - 1)
        decreases |fmt| - pos
      {
        AtLiteral(fmt, pos, rest);
        SqueezedLiteral(rest);
        pos, rest := pos + 1, rest[1..];
        AtEnd(fmt, pos, rest);
      }
      if fmt[pos] == NUL {
        SqueezedNone();
        return;
      }
      var specStartPos := pos;
      AtEnd(fmt, pos, rest);
      pos := SkipModifiers(fmt, pos + 1);
      AtSpec(fmt, specStartPos, rest, pos);
      SqueezedCons(rest);
      rest := rest[1..];
      if !IsTerminal(fmt[pos]) {
        size := size - (pos - specStartPos);
      }
      if fmt[pos] == NUL {
        AtEnd(fmt, pos, rest);
        SqueezedNone();
        return;
      }
      pos := pos + 1;
    }
  }

  // ---------------------------------------------------------------- squeezing

  /** `storeOneChar`: the character number `num` of the squeezed format.  `offset` says how far
      the reading is ahead of the writing; `p` is where the modifiers behind a `%` end. */
  method StoreOneChar(fmt: seq<char>, offset: nat, num: nat) returns (c: char, ahead: nat, ghost p: nat)
    requires CStr(fmt)
    ensures num + offset >= |fmt| ==> c == NUL && ahead == offset
    ensures num + offset < |fmt| && fmt[num + offset] != '%' ==> c == fmt[num + offset] && ahead == offset
    ensures num + offset < |fmt| && fmt[num + offset] == '%' ==>
      && num + offset < p < |fmt| && !IsModifier(fmt[p]) && (forall i | num + offset < i < p :: IsModifier(fmt[i]))
      && (if IsTerminal(fmt[p]) then c == '%' && ahead == offset else c == fmt[p] && num + ahead == p)
  {
    hide IsModifier, IsTerminal;
    ahead, p := offset, 0;
    if num + ahead < |fmt| {
      if fmt[num + ahead] == '%' {
        assert fmt[|fmt| - 1] == NUL;
        var stop := SkipModifiers(fmt, num + ahead + 1);
        p, ahead := stop, stop - num;
        if IsTerminal(fmt[num + ahead]) {
          ahead := offset;
        }
      }
      c := fmt[num + ahead];
    } else {
      c := NUL;
    }
  }

  /** Reading stands at `pos`: up to `end` what is there is kept as it is, then tokens follow. */
  ghost predicate Between(fmt: seq<char>, pos: nat, end: nat, rest: seq<Token>) {
    && pos <= end && At(fmt, end, rest) && (forall i | pos <= i < end :: fmt[i] != '%')
  }

  /** What is still to be written from there. */
  ghost function ToWrite(fmt: seq<char>, pos: nat, end: nat, rest: seq<Token>): seq<char>
    requires pos <= end <= |fmt|
  {
    fmt[pos..end] + Squeezed(rest)
  }

  /** One character at a time off what is to be written; the last one is the NUL. */
  lemma WritesOne(fmt: seq<char>, pos: nat, end: nat, rest: seq<Token>, p: nat)
      returns (c: char, pos1: nat, end1: nat, rest1: seq<Token>)
    requires pos <= end < |fmt| && Between(fmt, pos, end, rest)
    requires fmt[pos] == '%' ==>
      pos < p < |fmt| && !IsModifier(fmt[p]) && (forall i | pos < i < p :: IsModifier(fmt[i]))
    ensures fmt[pos] != '%' ==> c == fmt[pos] && pos1 == pos + 1
    ensures fmt[pos] == '%' && IsTerminal(fmt[p]) ==> c == '%' && pos1 == pos + 1
    ensures fmt[pos] == '%' && !IsTerminal(fmt[p]) ==> c == fmt[p] && pos1 == p + 1
    ensures ToWrite(fmt, pos, end, rest) == [] ==> c == NUL
    ensures ToWrite(fmt, pos, end, rest) != [] ==>
      pos1 <= end1 < |fmt| && Between(fmt, pos1, end1, rest1)
          && [c] + ToWrite(fmt, pos1, end1, rest1) == ToWrite(fmt, pos, end, rest)
  {
    hide At, Tokens, IsModifier, IsTerminal, Kept;
    AtEnd(fmt, end, rest);
    end1, rest1 := end, rest;
    if pos < end {
      c, pos1 := fmt[pos], pos + 1;
    } else if fmt[pos] == NUL {
      c, pos1 := NUL, pos + 1;
    } else if fmt[pos] != '%' {
      AtLiteral(fmt, pos, rest);
      c, pos1, end1, rest1 := fmt[pos], pos + 1, pos + 1, rest[1..];
      SqueezedLiteral(rest);
      assert [c] + ([] + Squeezed(rest1)) == [] + Squeezed(rest);
    } else {
      AtSpec(fmt, pos, rest, p);
      c, pos1, end1, rest1 := WritesSpec(fmt, pos, rest, p);
    }
  }

  lemma WritesSpec(fmt: seq<char>, pos: nat, rest: seq<Token>, p: nat)
      returns (c: char, pos1: nat, end1: nat, rest1: seq<Token>)
    requires At(fmt, pos, rest) && pos < p < |fmt| && fmt[pos] == '%' && !IsModifier(fmt[p])
        && (forall i | pos < i < p :: IsModifier(fmt[i]))
    ensures IsTerminal(fmt[p]) ==> c == '%' && pos1 == pos + 1
    ensures !IsTerminal(fmt[p]) ==> c == fmt[p] && pos1 == p + 1
    ensures ToWrite(fmt, pos, pos, rest) == [] ==> c == NUL
    ensures ToWrite(fmt, pos, pos, rest) != [] ==>
      pos1 <= end1 < |fmt| && Between(fmt, pos1, end1, rest1)
          && [c] + ToWrite(fmt, pos1, end1, rest1) == ToWrite(fmt, pos, pos, rest)
  {
    hide At, IsModifier, Squeezed, IsTerminal, Kept;
    AtSpec(fmt, pos, rest, p);
    SqueezedCons(rest);
    NoPart();
    rest1 := rest[1..];
    assert fmt[pos..pos] == [];
    if IsTerminal(fmt[p]) {
      c, pos1, end1 := '%', pos + 1, p + 1;
      assert forall i | pos1 <= i < end1 :: fmt[i] != '%';
      KeptValid(fmt, pos, p, rest[0]);
      Grouped([c], fmt[pos1..end1], Squeezed(rest1));
    } else if fmt[p] == NUL {
      c, pos1, end1 := NUL, p + 1, p;
      AtEnd(fmt, p, rest1);
      SqueezedNone();
    } else {
      c, pos1, end1 := fmt[p], p + 1, p + 1;
      KeptInvalid(rest[0]);
      assert fmt[pos1..end1] == [];
    }
    AtEnd(fmt, end1, rest1);
  }

  lemma KeptValid(fmt: seq<char>, pos: nat, p: nat, t: Token)
    requires pos < p < |fmt| && fmt[pos] == '%' && t == Valid(fmt[pos + 1..p], fmt[p])
    ensures Kept(t) == ['%'] + fmt[pos + 1..p + 1] == fmt[pos..p + 1]
  {
  }

  lemma KeptInvalid(t: Token)
    requires t.Invalid?
    ensures Kept(t) == [t.c]
  {
  }

  lemma Grouped(a: seq<char>, b: seq<char>, c: seq<char>)
    ensures [] + (a + b + c) == a + (b + c)
  {
  }

  lemma SqueezedLiteral(ts: seq<Token>)
    requires ts != [] && ts[0].Literal?
    ensures Squeezed(ts) == [ts[0].c] + Squeezed(ts[1..])
  {
  }

  lemma SqueezedCons(ts: seq<Token>)
    requires ts != []
    ensures Squeezed(ts) == Kept(ts[0]) + Squeezed(ts[1..])
  {
  }

  lemma SqueezedNone()
    ensures Squeezed([]) == []
  {
  }

  /** `preprocessInvalidSpecs`: one character after the other, the result is the squeezed format
      and its NUL. */
  method Preprocess(fmt: seq<char>, len: nat) returns (out: seq<char>)
    requires CStr(fmt) && len == |Squeezed(Tokens(fmt))| + 1
    ensures out == Squeezed(Tokens(fmt)) + [NUL]
  {
    hide At, Tokens, Between, ToWrite, IsModifier, IsTerminal, Squeezed;
    var offset := 0;
    out := [];
    ghost var all, rest, end: nat := Squeezed(Tokens(fmt)), Tokens(fmt), 0;
    ToBegin(fmt);
    while |out| < len
      invariant |out| <= len
      invariant |out| < len ==> |out| + offset <= end < |fmt| && Between(fmt, |out| + offset, end, rest)
      invariant |out| < len ==> out + ToWrite(fmt, |out| + offset, end, rest) == all
      invariant |out| == len ==> out == all + [NUL]
      decreases len - |out|
    {
      ghost var pos := |out| + offset;
      var c, ahead, p := StoreOneChar(fmt, offset, |out|);
      ghost var c1, pos1, end1, rest1 := WritesOne(fmt, pos, end, rest, p);
      assert c == c1 && |out| + 1 + ahead == pos1;
      ghost var left := ToWrite(fmt, pos, end, rest);
      if |out| + 1 < len {
        assert left != [];
        assert out + ([c] + ToWrite(fmt, pos1, end1, rest1)) == out + [c] + ToWrite(fmt, pos1, end1, rest1);
      } else {
        assert left == [] && out + left == out;
      }
      out, offset, end, rest := out + [c], ahead, end1, rest1;
    }
  }

  lemma ToBegin(fmt: seq<char>)
    requires CStr(fmt)
    ensures Between(fmt, 0, 0, Tokens(fmt)) && [] + ToWrite(fmt, 0, 0, Tokens(fmt)) == Squeezed(Tokens(fmt))
  {
    Beginning(fmt);
  }
}
