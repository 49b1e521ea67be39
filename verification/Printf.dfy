/** Formatting as a whole: the compiled specifiers, the squeezed format, the arguments and the
    bounded buffer together do what one pass over the tokens of the format says. */
module Printf {
  import opened ArgEncoding
  import opened Bytes
  import opened FormatCompiler
  import opened FormatScan
  import opened Outbuf
  import opened Sequences
  import opened SpecInfos
  import F = SpecFields
  import I = IntegerField
  import LogBlocks

  // ---------------------------------------------------------------- reference

  /** The text of a conversion that is not one of the integers': it depends on nothing else. */
  type Renderer = Call -> seq<char>

  /** The specifier of a valid token. */
  function SpecOfToken(t: Token): SpecInfo
    requires t.Valid?
  {
    F.Meaning(F.Items(t.mods), t.t)
  }

  /** The text of one conversion; an integer conversion of anything else is an error. */
  function Rendered(s: SpecInfo, seen: Seen, w: int, p: int, other: Renderer): seq<char>
    requires SpecOk(s)
  {
    if !I.IsInteger(s.terminal) then other(Call(s, seen, w, p))
    else if !seen.Object? || !seen.ty.Integer? then "(ER)"
    else
      var value := I.Converted(IntegerValue(seen.ty, seen.bytes), s.flags.length, s.terminal);
      I.AsCoded(I.ShapeOf(s, w, p), I.Abs(value), value < 0)
  }

  function Needed(ts: seq<Token>): nat {
    if ts == [] then 0 else (if ts[0].Valid? then Dynamics(SpecOfToken(ts[0])) + 1 else 0) + Needed(ts[1..])
  }

  /** The text of a valid specifier with the arguments it takes. */
  function Conversion(t: Token, args: seq<Arg>, other: Renderer): seq<char>
    requires t.Valid? && |args| > Dynamics(SpecOfToken(t))
  {
    var s := SpecOfToken(t);
    var n := Dynamics(s);
    var f := Fields(s, Objects(args[..n]));
    F.MeaningOk(F.Items(t.mods), t.t);
    Rendered(s, Look(s, args[n]), f.0, f.1, other)
  }

  /** What a format and its arguments print: literal characters and the characters that end
      invalid specifiers as they are, each valid specifier with the next arguments. */
  function Printed(ts: seq<Token>, args: seq<Arg>, other: Renderer): seq<char>
    requires |args| >= Needed(ts)
  {
    if ts == [] then []
    else if ts[0].Valid? then
      Conversion(ts[0], args, other) + Printed(ts[1..], args[Dynamics(SpecOfToken(ts[0])) + 1..], other)
    else Kept(ts[0]) + Printed(ts[1..], args, other)
  }

  // ---------------------------------------------------------------- what that means, by the characters

  /** The modifiers of a specifier. */
  predicate Modifiers(mods: seq<char>) { forall i | 0 <= i < |mods| :: mods[i] in "-+ #0123456789hljztL.*" }

  /** The end of the format prints nothing, and neither does a specifier that it cuts off. */
  lemma EndPrints(mods: seq<char>, args: seq<Arg>, other: Renderer)
    requires Modifiers(mods)
    ensures CStr([NUL]) && Printed(Tokens([NUL]), args, other) == []
    ensures var fmt := ['%'] + mods + [NUL];
      CStr(fmt) && Needed(Tokens(fmt)) == 0 && Printed(Tokens(fmt), args, other) == []
  {
    AreModifiers(mods);
    OneToken(Dangling(mods), [NUL], args, other);
  }

  /** Any other character prints itself. */
  lemma LiteralPrints(c: char, fmt: seq<char>, args: seq<Arg>, other: Renderer)
    requires CStr(fmt) && c != '%' && c != NUL && |args| >= Needed(Tokens(fmt))
    ensures CStr([c] + fmt) && Needed(Tokens([c] + fmt)) == Needed(Tokens(fmt))
    ensures Printed(Tokens([c] + fmt), args, other) == [c] + Printed(Tokens(fmt), args, other)
  {
    OneToken(Literal(c), fmt, args, other);
  }

  /** A specifier whose last character converts nothing prints that character, as `%%` prints `%`. */
  lemma InvalidPrints(mods: seq<char>, c: char, fmt: seq<char>, args: seq<Arg>, other: Renderer)
    requires CStr(fmt) && Modifiers(mods) && c != NUL && |args| >= Needed(Tokens(fmt))
    requires c !in "diouxXfFeEgGaAcspn" && c !in "-+ #0123456789hljztL.*"
    ensures var spec := ['%'] + mods + [c];
      && CStr(spec + fmt) && Needed(Tokens(spec + fmt)) == Needed(Tokens(fmt))
      && Printed(Tokens(spec + fmt), args, other) == [c] + Printed(Tokens(fmt), args, other)
  {
    AreModifiers(mods);
    F.CharactersAre(c);
    OneToken(Invalid(mods, c), fmt, args, other);
  }

  /** A valid specifier prints its conversion and takes the arguments its stars ask for and one more. */
  lemma ConversionPrints(mods: seq<char>, t: char, fmt: seq<char>, args: seq<Arg>, other: Renderer)
    requires CStr(fmt) && Modifiers(mods) && t in "diouxXfFeEgGaAcspn"
    requires var s := F.Meaning(F.Items(mods), t);
      |args| >= (if s.width.Dynamic? then 1 else 0) + (if s.prec.Dynamic? then 1 else 0) + 1 + Needed(Tokens(fmt))
    ensures var spec, s := ['%'] + mods + [t], F.Meaning(F.Items(mods), t);
      var n := (if s.width.Dynamic? then 1 else 0) + (if s.prec.Dynamic? then 1 else 0);
      && CStr(spec + fmt) && Needed(Tokens(spec + fmt)) == n + 1 + Needed(Tokens(fmt)) && n == Dynamics(s)
      && Printed(Tokens(spec + fmt), args, other)
         == Conversion(Valid(mods, t), args, other) + Printed(Tokens(fmt), args[n + 1..], other)
  {
    hide F.Items, F.Meaning, F.IsTerminal, F.IsModifier, Tokens, Needed, Printed, Conversion, F.AllModifiers, Modifiers;
    AreModifiers(mods);
    F.CharactersAre(t);
    OneConversion(Valid(mods, t), fmt, args, other);
  }

  /** That conversion: an integer of whatever type is reduced to the type of the specifier and printed
      as the specifier's field; an integer conversion of anything else is an error. */
  lemma ConversionIs(mods: seq<char>, t: char, args: seq<Arg>, other: Renderer)
    requires t in "diouxXfFeEgGaAcspn" && |args| > Dynamics(F.Meaning(F.Items(mods), t))
    ensures var s := F.Meaning(F.Items(mods), t);
      var n := Dynamics(s);
      && SpecOk(s) && s == SpecOfToken(Valid(mods, t))
      && var (w, p) := Fields(s, Objects(args[..n]));
         Conversion(Valid(mods, t), args, other)
         == if t !in "diouxX" then other(Call(s, Look(s, args[n]), w, p))
            else if !args[n].ty.Integer? then "(ER)"
            else
              var v := I.Converted(IntegerValue(args[n].ty, args[n].raw), s.flags.length, t);
              I.AsCoded(I.ShapeOf(s, w, p), if v < 0 then -v else v, v < 0)
  {
    hide F.Items, F.FlagsOf, F.LastWidth, F.LastPrec, F.WFirst, F.Sign, I.AsCoded, I.ShapeOf, I.Converted, IntegerValue,
        Fields, Objects, Dynamics, Look;
    F.MeaningOk(F.Items(mods), t);
    var s := F.Meaning(F.Items(mods), t);
    LookIs(s, args[Dynamics(s)]);
  }

  lemma AreModifiers(mods: seq<char>)
    requires Modifiers(mods)
    ensures F.AllModifiers(mods)
  {
    forall i | 0 <= i < |mods| ensures F.IsModifier(mods[i]) { F.CharactersAre(mods[i]); }
  }

  lemma OneToken(t: Token, fmt: seq<char>, args: seq<Arg>, other: Renderer)
    requires CStr(fmt) && TokenOk(t) && !t.Valid? && (t.Dangling? ==> fmt == [NUL]) && |args| >= Needed(Tokens(fmt))
    ensures CStr(Source(t) + fmt) && Needed(Tokens(Source(t) + fmt)) == Needed(Tokens(fmt))
    ensures Printed(Tokens(Source(t) + fmt), args, other) == Kept(t) + Printed(Tokens(fmt), args, other)
  {
    TokensCons(t, fmt);
    hide Tokens, Source, Kept, TokenOk;
    assert ([t] + Tokens(fmt))[1..] == Tokens(fmt);
  }

  lemma OneConversion(t: Token, fmt: seq<char>, args: seq<Arg>, other: Renderer)
    requires CStr(fmt) && TokenOk(t) && t.Valid? && |args| >= Dynamics(SpecOfToken(t)) + 1 + Needed(Tokens(fmt))
    ensures var n := Dynamics(SpecOfToken(t));
      && CStr(Source(t) + fmt) && Needed(Tokens(Source(t) + fmt)) == n + 1 + Needed(Tokens(fmt))
      && Printed(Tokens(Source(t) + fmt), args, other)
         == Conversion(t, args, other) + Printed(Tokens(fmt), args[n + 1..], other)
  {
    hide Tokens, Source, TokenOk, SpecOfToken, Conversion, Needed, Printed, Dynamics;
    TokensCons(t, fmt);
    ConversionFirst(t, Tokens(fmt), args, other);
  }

  lemma ConversionFirst(t: Token, ts: seq<Token>, args: seq<Arg>, other: Renderer)
    requires t.Valid? && |args| >= Dynamics(SpecOfToken(t)) + 1 + Needed(ts)
    ensures var n := Dynamics(SpecOfToken(t));
      && Needed([t] + ts) == n + 1 + Needed(ts)
      && Printed([t] + ts, args, other) == Conversion(t, args, other) + Printed(ts, args[n + 1..], other)
  {
    hide SpecOfToken, Conversion, Dynamics;
    assert ([t] + ts)[1..] == ts;
  }

  // ---------------------------------------------------------------- what the code does

  /** The same specifier wherever it stands. */
  function Placeless(s: SpecInfo): SpecInfo { s.(begin := 0, end := 0) }

  predicate CallsOk(specs: seq<SpecInfo>, text: seq<char>, calls: seq<Call>) {
    && |specs| == |calls| + 1
    && (forall i | 0 <= i < |specs| :: specs[i].begin <= specs[i].end <= |text| && SpecOk(specs[i]))
    && (forall i | 0 <= i < |calls| :: calls[i].spec == specs[i])
  }

  /** The literal text in front of each conversion, the conversion, and the tail. */
  function Output(specs: seq<SpecInfo>, text: seq<char>, calls: seq<Call>, other: Renderer): seq<char>
    requires CallsOk(specs, text, calls)
    decreases |calls|
  {
    var literal := text[specs[0].begin..specs[0].end];
    if calls == [] then literal
    else
      literal + Rendered(Placeless(calls[0].spec), calls[0].seen, calls[0].w, calls[0].p, other)
      + Output(specs[1..], text, calls[1..], other)
  }

  /** `converter_single`, one conversion with its literal text. */
  method ConvertSingle(out: OutbufArg, text: seq<char>, call: Call, other: Renderer)
    requires out.Valid() && call.spec.begin <= call.spec.end <= |text| && SpecOk(call.spec)
    modifies out, out.buf
    ensures out.Valid() && out.Beyond() == old(out.Beyond())
    ensures out.text == old(out.text) + (text[call.spec.begin..call.spec.end]
        + Rendered(Placeless(call.spec), call.seen, call.w, call.p, other))
  {
    hide I.AsCoded, I.Converted, OutbufArg.Valid, OutbufArg.Beyond;
    var s := call.spec;
    if s.end - s.begin > 0 {
      out.WriteBlock(text[s.begin..s.end]);
    }
    ghost var before := out.text;
    assert before == old(out.text) + text[s.begin..s.end];
    if I.IsInteger(s.terminal) {
      if call.seen.Object? && call.seen.ty.Integer? {
        I.ConvertInteger(out, s, IntegerValue(call.seen.ty, call.seen.bytes), call.w, call.p);
        assert I.ShapeOf(s, call.w, call.p) == I.ShapeOf(Placeless(s), call.w, call.p);
      } else {
        out.WriteBlock("(ER)");
      }
    } else {
      out.WriteBlock(other(Call(Placeless(s), call.seen, call.w, call.p)));
    }
    Assoc(old(out.text), text[s.begin..s.end], Rendered(Placeless(s), call.seen, call.w, call.p, other));
  }

  /** `converter_impl`, and `formator` just as well: conversion after conversion, then the tail. */
  method Convert(out: OutbufArg, text: seq<char>, specs: seq<SpecInfo>, calls: seq<Call>, other: Renderer)
    requires out.Valid() && CallsOk(specs, text, calls)
    modifies out, out.buf
    ensures out.Valid() && out.Beyond() == old(out.Beyond())
    ensures out.text == old(out.text) + Output(specs, text, calls, other)
    decreases |calls|
  {
    hide Rendered, OutbufArg.Valid, OutbufArg.Beyond;
    if calls == [] {
      out.WriteBlock(text[specs[0].begin..specs[0].end]);
    } else {
      ConvertSingle(out, text, calls[0], other);
      Convert(out, text, specs[1..], calls[1..], other);
      ghost var c := calls[0];
      ghost var single := text[specs[0].begin..specs[0].end] + Rendered(Placeless(c.spec), c.seen, c.w, c.p, other);
      Assoc(old(out.text), single, Output(specs[1..], text, calls[1..], other));
    }
  }

  // ---------------------------------------------------------------- the two agree

  function Calls(specs: seq<SpecInfo>, args: seq<Arg>): (calls: seq<Call>)
    requires specs != [] && |args| >= ArgsRequired(specs[..|specs| - 1])
  {
    Direct(specs[..|specs| - 1], args)
  }

  /** These specifiers print `r`. */
  ghost predicate Prints(specs: seq<SpecInfo>, text: seq<char>, args: seq<Arg>, other: Renderer, r: seq<char>) {
    && specs != [] && |args| >= ArgsRequired(specs[..|specs| - 1])
    && CallsOk(specs, text, Calls(specs, args))
    && Output(specs, text, Calls(specs, args), other) == r
  }

  lemma PrintsTail(s: SpecInfo, text: seq<char>, args: seq<Arg>, other: Renderer)
    requires s.begin <= s.end <= |text| && SpecOk(s)
    ensures Prints([s], text, args, other, text[s.begin..s.end])
  {
    assert [s][..0] == [];
  }

  lemma PrintsCons(s: SpecInfo, specs: seq<SpecInfo>, text: seq<char>, args: seq<Arg>, other: Renderer, r: seq<char>)
    requires s.begin <= s.end <= |text| && SpecOk(s) && |args| > Dynamics(s)
    requires Prints(specs, text, args[Dynamics(s) + 1..], other, r)
    ensures var n := Dynamics(s);
      var f := Fields(s, Objects(args[..n]));
      Prints([s] + specs, text, args, other, text[s.begin..s.end]
          + Rendered(Placeless(s), Look(s, args[n]), f.0, f.1, other) + r)
  {
    hide Rendered, Fields, Objects, Look, Dynamics, SpecOk;
    var all, init := [s] + specs, specs[..|specs| - 1];
    assert all[..|all| - 1] == [s] + init;
    assert ([s] + init)[0] == s && ([s] + init)[1..] == init && all[1..] == specs;
    DirectCons([s] + init, args);
    var calls, rest := Calls(all, args), Calls(specs, args[Dynamics(s) + 1..]);
    assert calls == [calls[0]] + rest && calls[1..] == rest;
    hide Direct, Calls;
    forall i | 0 <= i < |all| ensures all[i].begin <= all[i].end <= |text| && SpecOk(all[i]) {
      if i > 0 { assert all[i] == specs[i - 1]; }
    }
    forall i | 0 <= i < |calls| ensures calls[i].spec == all[i] {
      if i > 0 { assert calls[i] == rest[i - 1] && all[i] == specs[i - 1]; }
    }
  }

  /** A specifier at its place does what its token does. */
  lemma SpecOfPiece(begin: nat, end: nat, t: Token)
    requires t.Valid?
    ensures var s, u := SpecOf(Piece(begin, end, t)), SpecOfToken(t);
      s.begin == begin && s.end == end && Placeless(s) == u && SpecOk(s) && Dynamics(s) == Dynamics(u)
  {
    F.MeaningOk(F.Items(t.mods), t.t);
    hide F.Items, F.FlagsOf, F.LastWidth, F.LastPrec, F.WFirst, F.Sign;
  }

  lemma ConversionOfPiece(s: SpecInfo, t: Token, args: seq<Arg>, other: Renderer)
    requires t.Valid? && Placeless(s) == SpecOfToken(t) && SpecOk(s) && |args| > Dynamics(s)
        && Dynamics(s) == Dynamics(SpecOfToken(t))
    ensures var f := Fields(s, Objects(args[..Dynamics(s)]));
      Conversion(t, args, other) == Rendered(Placeless(s), Look(s, args[Dynamics(s)]), f.0, f.1, other)
  {
    hide SpecOfToken, Rendered, ToInt, Objects;
  }

  lemma SpecsOfCons(tile: Tile, tiles: seq<Tile>)
    ensures SpecsOf([tile] + tiles) == [SpecOf(tile)] + SpecsOf(tiles)
  {
  }

  /** The conversions from here on, behind the literal text that is still to be written. */
  lemma {:induction false} PrintsPrinted(ts: seq<Token>, done: seq<char>, begin: nat, text: seq<char>, args: seq<Arg>,
      other: Renderer)
    requires begin <= |done| && done + Squeezed(ts) <= text && |args| >= Needed(ts)
    ensures Prints(SpecsOf(Tiles(ts, |done|, begin)), text, args, other, text[begin..|done|] + Printed(ts, args, other))
    decreases |ts|
  {
    hide Prints, SpecOf, SpecOfToken, Conversion, Rendered, Kept, Fields, Objects, Look;
    if ts == [] {
      TailPrints(begin, |done|, text, args, other);
      assert text[begin..|done|] + [] == text[begin..|done|];
      assert SpecsOf(Tiles(ts, |done|, begin)) == [SpecOf(Tail(begin, |done|))];
    } else {
      var next := done + Kept(ts[0]);
      assert done + Squeezed(ts) == next + Squeezed(ts[1..]);
      if ts[0].Valid? {
        var n := Dynamics(SpecOfToken(ts[0]));
        var tile, rest := Piece(begin, |done|, ts[0]), args[n + 1..];
        PrintsPrinted(ts[1..], next, |next|, text, rest, other);
        SpecOfPiece(begin, |done|, ts[0]);
        ConversionOfPiece(SpecOf(tile), ts[0], args, other);
        var r := Printed(ts[1..], rest, other);
        assert text[|next|..|next|] + r == r;
        PrintsCons(SpecOf(tile), SpecsOf(Tiles(ts[1..], |next|, |next|)), text, args, other, r);
        SpecsOfCons(tile, Tiles(ts[1..], |next|, |next|));
        Assoc(text[begin..|done|], Conversion(ts[0], args, other), r);
      } else {
        PrintsPrinted(ts[1..], next, begin, text, args, other);
        assert text[begin..|next|] == text[begin..|done|] + Kept(ts[0]);
        Assoc(text[begin..|done|], Kept(ts[0]), Printed(ts[1..], args, other));
      }
    }
  }

  lemma TailPrints(begin: nat, end: nat, text: seq<char>, args: seq<Arg>, other: Renderer)
    requires begin <= end <= |text|
    ensures Prints([SpecOf(Tail(begin, end))], text, args, other, text[begin..end])
  {
    F.MeaningOk([], NUL);
    PrintsTail(SpecOf(Tail(begin, end)), text, args, other);
  }

  /** Compiled conversions over the squeezed format print what the tokens say: the scanners agree
      on the text, on its coordinates, on the specifiers and on the arguments each of them takes. */
  lemma CompiledPrints(fmt: seq<char>, text: seq<char>, args: seq<Arg>, other: Renderer)
    requires CStr(fmt) && Squeezed(Tokens(fmt)) <= text && |args| >= Needed(Tokens(fmt))
    ensures Prints(Specs(fmt), text, args, other, Printed(Tokens(fmt), args, other))
  {
    hide Prints, Tokens, Squeezed, Printed;
    assert [] + Squeezed(Tokens(fmt)) == Squeezed(Tokens(fmt));
    PrintsPrinted(Tokens(fmt), [], 0, text, args, other);
    assert text[0..0] + Printed(Tokens(fmt), args, other) == Printed(Tokens(fmt), args, other);
  }

  /** `countArgsRequired` over all compiled specifiers, the one without a conversion included. */
  method CountArgsRequired(specs: seq<SpecInfo>) returns (count: nat)
    requires specs != [] && (forall i | 0 <= i < |specs| - 1 :: F.IsTerminal(specs[i].terminal))
    requires var tail := specs[|specs| - 1]; !F.IsTerminal(tail.terminal) && Dynamics(tail) == 0
    ensures count == ArgsRequired(specs[..|specs| - 1])
  {
    count := 0;
    var i := 0;
    ghost var init := specs[..|specs| - 1];
    assert init[0..] == init;
    while i < |specs|
      invariant i <= |specs|
      invariant count + (if i < |specs| then ArgsRequired(init[i..]) else 0) == ArgsRequired(init)
    {
      assert i < |init| ==> init[i..][1..] == init[i + 1..];
      if F.IsTerminal(specs[i].terminal) { count := count + 1; }
      if specs[i].width == Dynamic { count := count + 1; }
      if specs[i].prec == Dynamic { count := count + 1; }
      i := i + 1;
    }
  }

  /** The compiled specifiers ask for as many arguments as the tokens do. */
  lemma {:induction false} RequiredIsNeeded(ts: seq<Token>, at: nat, begin: nat)
    ensures var specs := SpecsOf(Tiles(ts, at, begin));
      ArgsRequired(specs[..|specs| - 1]) == Needed(ts)
    decreases |ts|
  {
    hide SpecOf, SpecOfToken, Kept;
    if ts == [] {
    } else {
      var next := at + |Kept(ts[0])|;
      if ts[0].Valid? {
        RequiredIsNeeded(ts[1..], next, next);
        SpecOfPiece(begin, at, ts[0]);
        var tile, tiles := Piece(begin, at, ts[0]), Tiles(ts[1..], next, next);
        SpecsOfCons(tile, tiles);
        var specs := SpecsOf([tile] + tiles);
        assert specs[..|specs| - 1][1..] == SpecsOf(tiles)[..|tiles| - 1];
      } else {
        RequiredIsNeeded(ts[1..], next, begin);
      }
    }
  }

  /** Of the compiled specifiers all but the last convert something. */
  lemma {:induction false} SpecsConvert(ts: seq<Token>, at: nat, begin: nat)
    requires TokensOk(ts)
    ensures var specs := SpecsOf(Tiles(ts, at, begin));
      && (forall i | 0 <= i < |specs| - 1 :: F.IsTerminal(specs[i].terminal))
      && var tail := specs[|specs| - 1]; !F.IsTerminal(tail.terminal) && Dynamics(tail) == 0
    decreases |ts|
  {
    hide F.IsTerminal, F.Items, Kept;
    if ts == [] {
      NoPart();
    } else if ts[0].Valid? {
      var next := at + |Kept(ts[0])|;
      SpecsConvert(ts[1..], next, next);
      SpecsOfCons(Piece(begin, at, ts[0]), Tiles(ts[1..], next, next));
    } else {
      SpecsConvert(ts[1..], at + |Kept(ts[0])|, begin);
    }
  }

  /** The number of arguments a format asks for at least, from its compiled specifiers. */
  method ArgumentsRequired(fmt: seq<char>) returns (count: nat)
    requires CStr(fmt)
    ensures count == Needed(Tokens(fmt))
  {
    hide Tokens, Needed, ArgsRequired, Dynamics, F.IsTerminal, SpecsOf;
    var specs := Compile(fmt);
    TokensAreOk(fmt);
    SpecsConvert(Tokens(fmt), 0, 0);
    RequiredIsNeeded(Tokens(fmt), 0, 0);
    count := CountArgsRequired(specs);
  }

  // ---------------------------------------------------------------- keeping the format itself

  lemma {:induction false} NothingDropped(ts: seq<Token>)
    ensures |Squeezed(ts)| <= |SourceOf(ts)|
    ensures |Squeezed(ts)| == |SourceOf(ts)| ==> Squeezed(ts) == SourceOf(ts)
  {
    if ts != [] { NothingDropped(ts[1..]); }
  }

  /** If squeezing makes the format no shorter, it is the squeezed format already. */
  lemma SameSize(fmt: seq<char>)
    requires CStr(fmt)
    ensures |Squeezed(Tokens(fmt))| + 1 <= |fmt|
    ensures |Squeezed(Tokens(fmt))| + 1 == |fmt| ==> fmt == Squeezed(Tokens(fmt)) + [NUL]
  {
    TokensCover(fmt);
    NothingDropped(Tokens(fmt));
  }

  // ---------------------------------------------------------------- CFMT_STR

  /** `CFMT_STR`: what `snprintf` promises in section 7.21.6.5 of ISO/IEC 9899:2011.  The result is
      the length of the whole text; as much of it as leaves room for the NUL is in the buffer, with
      the NUL behind it; nothing behind the announced size has been touched. */
  method CfmtStr(buffer: array<char>, count: nat, fmt: seq<char>, args: seq<Arg>, other: Renderer) returns (result: nat)
    requires 1 <= count <= buffer.Length && CStr(fmt) && |args| >= Needed(Tokens(fmt))
    modifies buffer
    ensures var text := Printed(Tokens(fmt), args, other);
      && result == |text|
      && var kept := Fitting(text, count);
         kept == text[..if |text| < count then |text| else count - 1]
         && buffer[..|kept|] == kept && buffer[|kept|] == NUL
    ensures buffer[count..] == old(buffer[count..])
  {
    hide Tokens, Squeezed, Printed, Needed, Output, SpecsOf;
    var specs := Compile(fmt);
    var kSS := SqueezeSoundSize(fmt);
    SameSize(fmt);
    var kRTStr := fmt;
    if kSS < |fmt| {
      kRTStr := Preprocess(fmt, kSS);
    }
    CompiledPrints(fmt, kRTStr, args, other);
    var out := new OutbufArg(buffer, count);
    Convert(out, kRTStr, specs, Calls(specs, args), other);
    assert out.text == [] + Printed(Tokens(fmt), args, other) == Printed(Tokens(fmt), args, other);
    result := out.written;
    out.Done();
  }

  /** From the bytes of a normal log entry, wherever they have been copied to, the sink prints what
      formatting at once would have printed. */
  lemma DeferredPrints(fmt: seq<char>, text: seq<char>, args: seq<Arg>, other: Renderer,
                       mem: seq<byte>, base: nat, fmtId: nat, timestamp: nat)
    requires CStr(fmt) && Squeezed(Tokens(fmt)) <= text && |args| >= Needed(Tokens(fmt)) && AllOk(args)
    requires var specs := Specs(fmt);
      && |args| >= ArgsRequired(specs[..|specs| - 1])
      && var e := LogEntry(fmtId, timestamp, specs[..|specs| - 1], args);
         e[STATUS_AT] == NORMAL && Has(mem, base, e)
    ensures var specs := Specs(fmt);
      var calls := Formator(specs[..|specs| - 1], Types(args), mem, base + LogBlocks.ENTRY_HEADER_SIZE);
      CallsOk(specs, text, calls) && Output(specs, text, calls, other) == Printed(Tokens(fmt), args, other)
  {
    hide Tokens, Squeezed, Printed, Needed, Output, Formator, LogEntry, Has, SpecsOf;
    var specs := Specs(fmt);
    CompiledPrints(fmt, text, args, other);
    EntryFormatsAsDirect(fmtId, timestamp, specs[..|specs| - 1], args, mem, base);
  }
}
