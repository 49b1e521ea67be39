/** Deferred formatting (`tz_logger.h`): the arguments of a log call are written as raw objects,
    strings behind them with offsets relative to their own slots; the sink reads them back at
    whatever address the bytes have reached and makes the same conversions that formatting
    directly would have made. */
module ArgEncoding {
  import opened Bytes
  import opened Sequences
  import opened SpecInfos
  import LogBlocks
  import R = StagingRing

  const PTR_SIZE: nat := 8
  const WCHAR_SIZE: nat := 4

  /** The types of arguments, as far as storing and reading them depends on it. */
  datatype Type =
    | Integer(size: nat, signed: bool)
    | Other(size: nat)          // floating point, pointers that are not strings, classes
    | CharPtr
    | WCharPtr
    | NullPtr

  function SizeOf(t: Type): nat {
    match t
    case Integer(size, _) => size
    case Other(size) => size
    case _ => PTR_SIZE
  }

  /** An argument: its object representation and, behind a string pointer, the characters. */
  datatype Arg = Arg(ty: Type, raw: seq<byte>, chars: seq<byte>, units: seq<seq<byte>>)

  const ZERO_UNIT: seq<byte> := [0, 0, 0, 0]

  /** Strings end at their first zero, so what is in front of it holds none. */
  predicate ArgOk(a: Arg) {
    && |a.raw| == SizeOf(a.ty)
    && (forall i | 0 <= i < |a.chars| :: a.chars[i] != 0)
    && (forall i | 0 <= i < |a.units| :: |a.units[i]| == WCHAR_SIZE && a.units[i] != ZERO_UNIT)
  }

  /** `%s` or `%ls`: does this specifier read the characters behind a pointer of this type? */
  predicate ReadsChars(s: SpecInfo, t: Type) { s.terminal == 's' && !s.flags.length.LongInt? && t.CharPtr? }
  predicate ReadsUnits(s: SpecInfo, t: Type) { s.terminal == 's' && s.flags.length.LongInt? && t.WCharPtr? }

  // ---------------------------------------------------------------- formatting directly

  /** What `converter_single` looks at.  For a `%s` whose argument is no string of its kind it
      depends on the type alone: it prints "(null)" or "(ER)". */
  datatype Seen =
    | Object(ty: Type, bytes: seq<byte>)
    | Text(chars: seq<byte>)
    | WideText(units: seq<seq<byte>>)
    | TypeOnly(ty: Type)

  /** One call of `converter_single`: specifier, argument, width, precision. */
  datatype Call = Call(spec: SpecInfo, seen: Seen, w: int, p: int)

  /** The value of an integral object: two's complement if its type is signed. */
  function IntegerValue(t: Type, bytes: seq<byte>): int
    requires t.Integer?
  {
    var v := Decode(bytes);
    if t.signed && |bytes| > 0 && bytes[|bytes| - 1] as int >= 128 then v - Pow256(|bytes|) else v
  }

  /** `static_cast<int>` of an integral argument, `other` for any other type. */
  function ToInt(t: Type, bytes: seq<byte>, other: int): int {
    if !t.Integer? then other
    else
      var low := IntegerValue(t, bytes) % 0x1_0000_0000;
      if low < 0x8000_0000 then low else low - 0x1_0000_0000
  }

  function Dynamics(s: SpecInfo): nat { (if s.width.Dynamic? then 1 else 0) + (if s.prec.Dynamic? then 1 else 0) }

  /** `countArgsRequired`, without the tail piece. */
  function ArgsRequired(specs: seq<SpecInfo>): nat {
    if specs == [] then 0 else Dynamics(specs[0]) + 1 + ArgsRequired(specs[1..])
  }

  /** The width and precision a specifier passes on, from the values of its dynamic arguments. */
  function Fields(s: SpecInfo, d: seq<(Type, seq<byte>)>): (int, int)
    requires |d| == Dynamics(s)
  {
    if s.width.Dynamic? && s.prec.Dynamic? then
      if s.wFirst then (ToInt(d[0].0, d[0].1, 0), ToInt(d[1].0, d[1].1, -1))
      else (ToInt(d[1].0, d[1].1, 0), ToInt(d[0].0, d[0].1, -1))
    else if s.width.Dynamic? then (ToInt(d[0].0, d[0].1, 0), -1)
    else if s.prec.Dynamic? then (0, ToInt(d[0].0, d[0].1, -1))
    else (0, -1)
  }

  function Look(s: SpecInfo, a: Arg): Seen {
    if ReadsChars(s, a.ty) then Text(a.chars)
    else if ReadsUnits(s, a.ty) then WideText(a.units)
    else if s.terminal == 's' then TypeOnly(a.ty)
    else Object(a.ty, a.raw)
  }

  function Objects(args: seq<Arg>): seq<(Type, seq<byte>)> {
    seq(|args|, i requires 0 <= i < |args| => (args[i].ty, args[i].raw))
  }

  /** The conversions `converter_impl` makes for these specifiers and arguments. */
  function Direct(specs: seq<SpecInfo>, args: seq<Arg>): seq<Call>
    requires |args| >= ArgsRequired(specs)
  {
    if specs == [] then []
    else
      var s, n := specs[0], Dynamics(specs[0]);
      var (w, p) := Fields(s, Objects(args[..n]));
      [Call(s, Look(s, args[n]), w, p)] + Direct(specs[1..], args[n + 1..])
  }

  // ---------------------------------------------------------------- what that means

  /** Every conversion finds what its argument is: the characters of a `char*` for `%s`, the units of
      a `wchar_t*` for `%ls`, of anything else for these two nothing but the type, and for all other
      specifiers the object itself. */
  lemma LookIs(s: SpecInfo, a: Arg)
    ensures s.terminal == 's' && s.flags.length != LongInt && a.ty == CharPtr ==> Look(s, a) == Text(a.chars)
    ensures s.terminal == 's' && s.flags.length == LongInt && a.ty == WCharPtr ==> Look(s, a) == WideText(a.units)
    ensures s.terminal == 's' && a.ty != (if s.flags.length == LongInt then WCharPtr else CharPtr) ==>
      Look(s, a) == TypeOnly(a.ty)
    ensures s.terminal != 's' ==> Look(s, a) == Object(a.ty, a.raw)
  {
  }

  /** The value of an integral object, and what is left of it in an `int`: itself if it fits. */
  lemma IntegerIs(t: Type, bytes: seq<byte>, other: int)
    requires t.Integer? && |bytes| == t.size && t.size in {1, 2, 4, 8}
    ensures var v, u := IntegerValue(t, bytes), Decode(bytes);
      && v == (if !t.signed then u
               else if t.size == 1 then (if u < 0x80 then u else u - 0x100)
               else if t.size == 2 then (if u < 0x8000 then u else u - 0x1_0000)
               else if t.size == 4 then (if u < 0x8000_0000 then u else u - 0x1_0000_0000)
               else if u < 0x8000_0000_0000_0000 then u else u - 0x1_0000_0000_0000_0000)
      && -0x8000_0000 <= ToInt(t, bytes, other) < 0x8000_0000
      && (-0x8000_0000 <= v < 0x8000_0000 ==> ToInt(t, bytes, other) == v)
  {
    SignByte(bytes);
    PowersOf256();
    hide Decode, Pow256;
  }

  lemma PowersOf256()
    ensures Pow256(1) == 0x100 && Pow256(2) == 0x1_0000 && Pow256(4) == 0x1_0000_0000
    ensures Pow256(8) == 0x1_0000_0000_0000_0000
  {
    assert Pow256(2) == 256 * Pow256(1) && Pow256(1) == 256 * Pow256(0);
    Pow256Four();
    Pow256Eight();
  }

  /** The top bit of the last byte is the top bit of the value. */
  lemma SignByte(bytes: seq<byte>)
    requires |bytes| in {1, 2, 4, 8}
    ensures var u, top := Decode(bytes), bytes[|bytes| - 1] as int;
      && (|bytes| == 1 ==> (top >= 128 <==> u >= 0x80))
      && (|bytes| == 2 ==> (top >= 128 <==> u >= 0x8000))
      && (|bytes| == 4 ==> (top >= 128 <==> u >= 0x8000_0000) && u < 0x1_0000_0000)
      && (|bytes| == 8 ==> (top >= 128 <==> u >= 0x8000_0000_0000_0000))
  {
    LittleEndian(bytes);
    if |bytes| == 8 {
      SignByte(bytes[..4]);
      SignByte(bytes[4..]);
    } else if |bytes| == 4 {
      hide Decode;
    }
  }

  /** Width and precision come from the arguments in front: in the order in which their stars stand,
      the value of each as an `int`; without a star they are 0 and -1. */
  lemma FieldsAre(s: SpecInfo, d: seq<(Type, seq<byte>)>)
    requires |d| == (if s.width.Dynamic? then 1 else 0) + (if s.prec.Dynamic? then 1 else 0)
    ensures |d| == Dynamics(s)
    ensures var (w, p) := Fields(s, d);
      && (s.width.Fixed? ==> w == 0) && (s.prec.Fixed? ==> p == -1)
      && (s.width.Dynamic? ==>
            var x := d[if s.prec.Dynamic? && !s.wFirst then 1 else 0];
            w == if x.0.Integer? then ToInt(x.0, x.1, 0) else 0)
      && (s.prec.Dynamic? ==>
            var x := d[if s.width.Dynamic? && s.wFirst then 1 else 0];
            p == if x.0.Integer? then ToInt(x.0, x.1, -1) else -1)
  {
  }

  /** The `k`-th call converts with the `k`-th specifier the argument behind its own stars, of those
      that the specifiers before it have left. */
  lemma {:induction false} DirectAt(specs: seq<SpecInfo>, args: seq<Arg>, k: nat)
    requires k < |specs| && |args| >= ArgsRequired(specs)
    ensures |Direct(specs, args)| == |specs|
    ensures var s, at := specs[k], ArgsRequired(specs[..k]);
      var n := (if s.width.Dynamic? then 1 else 0) + (if s.prec.Dynamic? then 1 else 0);
      && at + n < |args| && n == Dynamics(s)
      && var f := Fields(s, Objects(args[at..at + n]));
         Direct(specs, args)[k] == Call(s, Look(s, args[at + n]), f.0, f.1)
  {
    hide Look, Fields, Objects, Direct, ArgsRequired;
    RequiredStep(specs);
    DirectLength(specs, args);
    DirectCons(specs, args);
    var n, m := Dynamics(specs[0]), Dynamics(specs[k]);
    if k == 0 {
      NoneRequired();
      assert specs[..0] == [] && args[0..n] == args[..n];
    } else {
      DirectAt(specs[1..], args[n + 1..], k - 1);
      RequiredStep(specs[..k]);
      assert specs[..k][0] == specs[0] && specs[..k][1..] == specs[1..][..k - 1];
      var at := ArgsRequired(specs[1..][..k - 1]);
      SliceOfRest(args, n + 1, at, m);
    }
  }

  lemma SliceOfRest(args: seq<Arg>, n: nat, at: nat, m: nat)
    requires n + at + m <= |args|
    ensures args[n..][at..at + m] == args[n + at..n + at + m]
  {
  }

  lemma RequiredStep(specs: seq<SpecInfo>)
    requires specs != []
    ensures ArgsRequired(specs) == Dynamics(specs[0]) + 1 + ArgsRequired(specs[1..])
  {
  }

  lemma NoneRequired()
    ensures ArgsRequired([]) == 0
  {
  }

  lemma {:induction false} DirectLength(specs: seq<SpecInfo>, args: seq<Arg>)
    requires |args| >= ArgsRequired(specs)
    ensures |Direct(specs, args)| == |specs|
  {
    if specs != [] { DirectLength(specs[1..], args[Dynamics(specs[0]) + 1..]); }
  }

  // ---------------------------------------------------------------- storing

  /** `getNArgsSize` of the arguments the specifiers use. */
  function ArgsSize(args: seq<Arg>, n: nat): nat
    requires n <= |args|
  {
    if n == 0 then 0 else SizeOf(args[0].ty) + ArgsSize(args[1..], n - 1)
  }

  /** What `getSizeForTerminal_s` records for one argument of a `%s`. */
  function StrSize(s: SpecInfo, a: Arg): nat {
    if ReadsChars(s, a.ty) then |a.chars| + 1
    else if ReadsUnits(s, a.ty) then (|a.units| + 1) * WCHAR_SIZE
    else 0
  }

  /** `getStrSizeArray`: one size for each `%s`, in order. */
  function StrSizes(specs: seq<SpecInfo>, args: seq<Arg>): seq<nat>
    requires |args| >= ArgsRequired(specs)
  {
    if specs == [] then []
    else
      var s, n := specs[0], Dynamics(specs[0]);
      (if s.terminal == 's' then [StrSize(s, args[n])] else []) + StrSizes(specs[1..], args[n + 1..])
  }

  function Sum(sizes: seq<nat>): nat {
    if sizes == [] then 0 else sizes[0] + Sum(sizes[1..])
  }

  /** The characters of a string argument with their terminator, as copied behind the slots. */
  function StrBytes(s: SpecInfo, a: Arg): seq<byte> {
    if ReadsChars(s, a.ty) then a.chars + [0]
    else if ReadsUnits(s, a.ty) then Flatten(a.units) + ZERO_UNIT
    else []
  }

  function ObjectBytes(args: seq<Arg>): seq<byte> {
    if args == [] then [] else args[0].raw + ObjectBytes(args[1..])
  }

  /** The bytes of the slot of an argument that lies at `here`, when its string goes to `there`. */
  function SlotBytes(s: SpecInfo, a: Arg, here: nat, there: nat): (slot: seq<byte>)
    requires ArgOk(a) && here <= there
    ensures |slot| == SizeOf(a.ty)
  {
    if ReadsChars(s, a.ty) || ReadsUnits(s, a.ty) then Encode(there - here, PTR_SIZE) else a.raw
  }

  /** `storeArgs`: the slots and the strings, appended to what is already there.  The strings
      begin `argsSize` bytes behind the first slot. */
  function Store(specs: seq<SpecInfo>, args: seq<Arg>, argsSize: nat, slots: seq<byte>, strs: seq<byte>)
    : (seq<byte>, seq<byte>)
    requires |args| >= ArgsRequired(specs) && (forall i | 0 <= i < |args| :: ArgOk(args[i]))
    requires |slots| + ArgsSize(args, ArgsRequired(specs)) <= argsSize
    decreases |specs|
  {
    if specs == [] then (slots, strs)
    else
      var s, n := specs[0], Dynamics(specs[0]);
      ArgsSizeSplit(args, n, ArgsRequired(specs[1..]));
      var slots1 := slots + ObjectBytes(args[..n]);
      var slots2 := slots1 + SlotBytes(s, args[n], |slots1|, argsSize + |strs|);
      Store(specs[1..], args[n + 1..], argsSize, slots2, strs + StrBytes(s, args[n]))
  }

  lemma {:induction false} ArgsSizeSplit(args: seq<Arg>, n: nat, m: nat)
    requires n + 1 + m <= |args| && forall i | 0 <= i < |args| :: ArgOk(args[i])
    ensures ArgsSize(args, n + 1 + m) == |ObjectBytes(args[..n])| + SizeOf(args[n].ty) + ArgsSize(args[n + 1..], m)
    decreases n
  {
    assert ArgOk(args[0]);
    if n == 0 {
      assert args[..0] == [];
    } else {
      ArgsSizeSplit(args[1..], n - 1, m);
      assert args[..n][0] == args[0] && args[..n][1..] == args[1..][..n - 1];
      assert args[1..][n..] == args[n + 1..];
    }
  }

  // ---------------------------------------------------------------- reading back

  function Slice(mem: seq<byte>, at: nat, n: nat): seq<byte> {
    if at + n <= |mem| then mem[at..at + n] else []
  }

  /** A NUL-terminated string in memory. */
  function CString(mem: seq<byte>, at: nat): seq<byte>
    decreases |mem| - at
  {
    if at >= |mem| || mem[at] == 0 then [] else [mem[at]] + CString(mem, at + 1)
  }

  function WideString(mem: seq<byte>, at: nat): seq<seq<byte>>
    decreases |mem| - at
  {
    if at + WCHAR_SIZE > |mem| || mem[at..at + WCHAR_SIZE] == ZERO_UNIT then []
    else [mem[at..at + WCHAR_SIZE]] + WideString(mem, at + WCHAR_SIZE)
  }

  /** `_ARG`, and what `converter_single` then reads: a string is looked for as many bytes behind
      its own slot as the slot says. */
  function ArgAt(s: SpecInfo, t: Type, mem: seq<byte>, at: nat): Seen {
    var raw := Slice(mem, at, SizeOf(t));
    if ReadsChars(s, t) then Text(CString(mem, at + Decode(raw)))
    else if ReadsUnits(s, t) then WideText(WideString(mem, at + Decode(raw)))
    else if s.terminal == 's' then TypeOnly(t)
    else Object(t, raw)
  }

  function TypesSize(types: seq<Type>): nat {
    if types == [] then 0 else SizeOf(types[0]) + TypesSize(types[1..])
  }

  function ReadObjects(types: seq<Type>, mem: seq<byte>, at: nat): (os: seq<(Type, seq<byte>)>)
    ensures |os| == |types|
  {
    if types == [] then []
    else [(types[0], Slice(mem, at, SizeOf(types[0])))] + ReadObjects(types[1..], mem, at + SizeOf(types[0]))
  }

  /** `static_cast<int>` of an integral object in memory, `other` for any other type. */
  function IntAt(t: Type, mem: seq<byte>, at: nat, other: int): int {
    ToInt(t, Slice(mem, at, SizeOf(t)), other)
  }

  /** The width and precision that `formator` reads in front of the argument. */
  function FieldsAt(s: SpecInfo, types: seq<Type>, mem: seq<byte>, at: nat): (int, int)
    requires |types| == Dynamics(s)
  {
    if s.width.Dynamic? && s.prec.Dynamic? then
      var next := at + SizeOf(types[0]);
      if s.wFirst then (IntAt(types[0], mem, at, 0), IntAt(types[1], mem, next, -1))
      else (IntAt(types[1], mem, next, 0), IntAt(types[0], mem, at, -1))
    else if s.width.Dynamic? then (IntAt(types[0], mem, at, 0), -1)
    else if s.prec.Dynamic? then (0, IntAt(types[0], mem, at, -1))
    else (0, -1)
  }

  /** The conversions `formator` makes, reading the arguments from `mem` at `at`. */
  function Formator(specs: seq<SpecInfo>, types: seq<Type>, mem: seq<byte>, at: nat): seq<Call>
    requires |types| >= ArgsRequired(specs)
  {
    if specs == [] then []
    else
      var s, n := specs[0], Dynamics(specs[0]);
      var (w, p) := FieldsAt(s, types[..n], mem, at);
      var here := at + TypesSize(types[..n]);
      [Call(s, ArgAt(s, types[n], mem, here), w, p)]
      + Formator(specs[1..], types[n + 1..], mem, here + SizeOf(types[n]))
  }

  function Types(args: seq<Arg>): seq<Type> { seq(|args|, i requires 0 <= i < |args| => args[i].ty) }

  // ---------------------------------------------------------------- the two agree

  predicate AllOk(args: seq<Arg>) { forall i | 0 <= i < |args| :: ArgOk(args[i]) }

  lemma StrBytesSize(s: SpecInfo, a: Arg)
    requires ArgOk(a)
    ensures |StrBytes(s, a)| == StrSize(s, a)
  {
    if ReadsUnits(s, a.ty) { FlattenUnits(a.units); }
  }

  lemma {:induction false} FlattenUnits(units: seq<seq<byte>>)
    requires forall i | 0 <= i < |units| :: |units[i]| == WCHAR_SIZE
    ensures |Flatten(units)| == |units| * WCHAR_SIZE
  {
    if units != [] { FlattenUnits(units[1..]); }
  }

  /** The slots end up exactly `argsSize` long and the strings exactly as long as the recorded
      sizes say, which is what makes the reserved space the right one. */
  lemma {:induction false} StoreSizes(specs: seq<SpecInfo>, args: seq<Arg>, argsSize: nat, slots: seq<byte>,
      strs: seq<byte>)
    requires |args| >= ArgsRequired(specs) && AllOk(args) && |slots| + ArgsSize(args, ArgsRequired(specs)) <= argsSize
    ensures var (a, b) := Store(specs, args, argsSize, slots, strs);
      && slots <= a && |a| == |slots| + ArgsSize(args, ArgsRequired(specs))
      && strs <= b && |b| == |strs| + Sum(StrSizes(specs, args))
    decreases |specs|
  {
    hide Store, ArgsSize, ObjectBytes, SlotBytes, StrBytes, StrSize, StrSizes, Sum;
    if specs == [] {
      StoreNothing(args, argsSize, slots, strs);
    } else {
      var s, n := specs[0], Dynamics(specs[0]);
      ArgsSizeSplit(args, n, ArgsRequired(specs[1..]));
      assert ArgOk(args[n]);
      StrBytesSize(s, args[n]);
      var slots1 := slots + ObjectBytes(args[..n]);
      var slots2 := slots1 + SlotBytes(s, args[n], |slots1|, argsSize + |strs|);
      StoreCons(specs, args, argsSize, slots, strs);
      StoreSizes(specs[1..], args[n + 1..], argsSize, slots2, strs + StrBytes(s, args[n]));
      StrSizesCons(specs, args);
    }
  }

  lemma StrSizesCons(specs: seq<SpecInfo>, args: seq<Arg>)
    requires specs != [] && |args| >= ArgsRequired(specs)
    ensures var s, n := specs[0], Dynamics(specs[0]);
      Sum(StrSizes(specs, args)) == StrSize(s, args[n]) + Sum(StrSizes(specs[1..], args[n + 1..]))
  {
    StrSizesStep(specs, args);
    hide ArgsSize, StrSize, StrSizes, Sum;
    var s, n := specs[0], Dynamics(specs[0]);
    var size, rest := StrSize(s, args[n]), StrSizes(specs[1..], args[n + 1..]);
    if s.terminal == 's' {
      SumCons(size, rest);
    } else {
      assert [] + rest == rest;
      NoStr(s, args[n]);
    }
  }

  lemma StrSizesStep(specs: seq<SpecInfo>, args: seq<Arg>)
    requires specs != [] && |args| >= ArgsRequired(specs)
    ensures var s, n := specs[0], Dynamics(specs[0]);
      StrSizes(specs, args)
      == (if s.terminal == 's' then [StrSize(s, args[n])] else []) + StrSizes(specs[1..], args[n + 1..])
  {
    hide ArgsSize, StrSize, Sum;
  }

  lemma SumCons(size: nat, rest: seq<nat>)
    ensures Sum([size] + rest) == size + Sum(rest)
  {
    assert ([size] + rest)[1..] == rest;
  }

  lemma NoStr(s: SpecInfo, a: Arg)
    requires s.terminal != 's'
    ensures StrSize(s, a) == 0
  {
  }

  lemma StoreNothing(args: seq<Arg>, argsSize: nat, slots: seq<byte>, strs: seq<byte>)
    requires AllOk(args) && |slots| <= argsSize
    ensures ArgsRequired([]) == 0 && ArgsSize(args, 0) == 0 && Sum(StrSizes([], args)) == 0
    ensures Store([], args, argsSize, slots, strs) == (slots, strs)
  {
  }

  /** Memory holds `bytes` from `at` on. */
  predicate Has(mem: seq<byte>, at: nat, bytes: seq<byte>) {
    at + |bytes| <= |mem| && mem[at..at + |bytes|] == bytes
  }

  lemma HasParts(mem: seq<byte>, at: nat, x: seq<byte>, y: seq<byte>)
    requires Has(mem, at, x + y)
    ensures Has(mem, at, x) && Has(mem, at + |x|, y)
  {
    assert mem[at..at + |x|] == mem[at..at + |x + y|][..|x|];
    assert mem[at + |x|..at + |x| + |y|] == mem[at..at + |x + y|][|x|..];
  }

  lemma {:induction false} CStringAt(mem: seq<byte>, at: nat, chars: seq<byte>)
    requires Has(mem, at, chars + [0]) && forall i | 0 <= i < |chars| :: chars[i] != 0
    ensures CString(mem, at) == chars
    decreases |chars|
  {
    HasParts(mem, at, chars, [0]);
    assert mem[at + |chars|..at + |chars| + 1][0] == 0;
    if chars != [] {
      assert mem[at] == mem[at..at + |chars|][0] == chars[0];
      assert chars + [0] == [chars[0]] + (chars[1..] + [0]);
      HasParts(mem, at, [chars[0]], chars[1..] + [0]);
      CStringAt(mem, at + 1, chars[1..]);
    }
  }

  lemma {:induction false} WideStringAt(mem: seq<byte>, at: nat, units: seq<seq<byte>>)
    requires Has(mem, at, Flatten(units) + ZERO_UNIT)
    requires forall i | 0 <= i < |units| :: |units[i]| == WCHAR_SIZE && units[i] != ZERO_UNIT
    ensures WideString(mem, at) == units
    decreases |units|
  {
    if units == [] {
      assert Flatten(units) + ZERO_UNIT == ZERO_UNIT;
    } else {
      assert Flatten(units) + ZERO_UNIT == units[0] + (Flatten(units[1..]) + ZERO_UNIT);
      HasParts(mem, at, units[0], Flatten(units[1..]) + ZERO_UNIT);
      WideStringAt(mem, at + WCHAR_SIZE, units[1..]);
    }
  }

  lemma {:induction false} ObjectsAt(args: seq<Arg>, mem: seq<byte>, at: nat)
    requires AllOk(args) && Has(mem, at, ObjectBytes(args))
    ensures ReadObjects(Types(args), mem, at) == Objects(args)
    ensures TypesSize(Types(args)) == |ObjectBytes(args)|
    decreases |args|
  {
    if args != [] {
      assert ArgOk(args[0]);
      HasParts(mem, at, args[0].raw, ObjectBytes(args[1..]));
      ObjectsAt(args[1..], mem, at + |args[0].raw|);
      assert Types(args)[1..] == Types(args[1..]);
      assert Objects(args) == [(args[0].ty, args[0].raw)] + Objects(args[1..]);
    }
  }

  /** Both programs find the same width and precision. */
  lemma FieldsBack(s: SpecInfo, types: seq<Type>, mem: seq<byte>, at: nat, d: seq<(Type, seq<byte>)>)
    requires |types| == Dynamics(s) && ReadObjects(types, mem, at) == d
    ensures FieldsAt(s, types, mem, at) == Fields(s, d)
  {
    hide ToInt, Slice;
    if |types| == 2 {
      assert d[1] == ReadObjects(types[1..], mem, at + SizeOf(types[0]))[0];
    }
  }

  lemma OffsetBack(mem: seq<byte>, at: nat, offset: nat)
    requires offset < TWO_TO_64 && Has(mem, at, Encode(offset, PTR_SIZE))
    ensures Decode(Slice(mem, at, PTR_SIZE)) == offset
  {
    hide Pow256, Encode, Decode;
    Pow256Eight();
    DecodeEncode(offset, PTR_SIZE);
  }

  lemma ArgBack(s: SpecInfo, a: Arg, mem: seq<byte>, at: nat, here: nat, there: nat)
    requires ArgOk(a) && here <= there < TWO_TO_64
    requires Has(mem, at, SlotBytes(s, a, here, there)) && Has(mem, at + (there - here), StrBytes(s, a))
    ensures ArgAt(s, a.ty, mem, at) == Look(s, a)
  {
    hide Encode, Decode, Pow256, CString, WideString, Flatten, Has, Slice;
    if ReadsChars(s, a.ty) {
      OffsetBack(mem, at, there - here);
      CStringAt(mem, at + (there - here), a.chars);
    } else if ReadsUnits(s, a.ty) {
      OffsetBack(mem, at, there - here);
      WideStringAt(mem, at + (there - here), a.units);
    } else {
      assert SlotBytes(s, a, here, there) == a.raw;
      RawAt(mem, at, a.raw);
    }
  }

  lemma RawAt(mem: seq<byte>, at: nat, raw: seq<byte>)
    requires Has(mem, at, raw)
    ensures Slice(mem, at, |raw|) == raw
  {
  }

  lemma Pow256Eight()
    ensures Pow256(8) == TWO_TO_64
  {
    assert Pow256(4) == 256 * Pow256(3) == 256 * (256 * Pow256(2)) == 0x1_0000_0000;
    assert Pow256(8) == 256 * Pow256(7) == 256 * (256 * Pow256(6)) == 256 * (256 * (256 * Pow256(5)));
  }

  lemma Pow256Four()
    ensures Pow256(4) == 0x1_0000_0000
  {
    assert Pow256(4) == 256 * Pow256(3) == 256 * (256 * Pow256(2));
  }

  /** The first specifier's arguments, read from where they were stored. */
  lemma ReadFirst(s: SpecInfo, n: nat, args: seq<Arg>, argsSize: nat, slots: seq<byte>, strs: seq<byte>,
      mem: seq<byte>, base: nat, a: seq<byte>, b: seq<byte>)
    requires n < |args| && AllOk(args) && argsSize + |strs| < TWO_TO_64 && Has(mem, base, a)
        && Has(mem, base + argsSize, b)
    requires |slots| + |ObjectBytes(args[..n])| <= argsSize
    requires var here := |slots| + |ObjectBytes(args[..n])|;
      && slots + ObjectBytes(args[..n]) + SlotBytes(s, args[n], here, argsSize + |strs|) <= a
      && strs + StrBytes(s, args[n]) <= b
    ensures ReadObjects(Types(args)[..n], mem, base + |slots|) == Objects(args[..n])
    ensures TypesSize(Types(args)[..n]) == |ObjectBytes(args[..n])|
    ensures ArgAt(s, Types(args)[n], mem, base + |slots| + TypesSize(Types(args)[..n])) == Look(s, args[n])
  {
    hide Look, ArgAt, SlotBytes, StrBytes, Has, ObjectBytes, TypesSize, ReadObjects;
    var here := |slots| + |ObjectBytes(args[..n])|;
    Placed(mem, base, a, slots, ObjectBytes(args[..n]), SlotBytes(s, args[n], here, argsSize + |strs|));
    PlacedString(mem, base + argsSize, b, strs, StrBytes(s, args[n]));
    ObjectsAt(args[..n], mem, base + |slots|);
    ArgBack(s, args[n], mem, base + here, here, argsSize + |strs|);
    assert Types(args)[..n] == Types(args[..n]);
  }

  /** Reading from where `slots` end gives the calls for the arguments stored behind them. */
  lemma {:induction false} ReadBack(specs: seq<SpecInfo>, args: seq<Arg>, argsSize: nat, slots: seq<byte>,
      strs: seq<byte>, mem: seq<byte>, base: nat)
    requires |args| >= ArgsRequired(specs) && AllOk(args) && |slots| + ArgsSize(args, ArgsRequired(specs)) == argsSize
    requires var (a, b) := Store(specs, args, argsSize, slots, strs);
      Has(mem, base, a) && Has(mem, base + argsSize, b) && argsSize + |b| < TWO_TO_64
    ensures Formator(specs, Types(args), mem, base + |slots|) == Direct(specs, args)
    decreases |specs|
  {
    hide Look, ArgAt, SlotBytes, StrBytes, Fields, FieldsAt, Has, ObjectBytes, TypesSize, ReadObjects, ArgsSize, Sum,
        StrSizes, Objects, Formator, Direct, Store;
    if specs == [] {
      NothingToRead(Types(args), args, mem, base + |slots|);
    } else {
      var s, n := specs[0], Dynamics(specs[0]);
      var rest := args[n + 1..];
      ArgsSizeSplit(args, n, ArgsRequired(specs[1..]));
      assert ArgOk(args[n]);
      var slots1 := slots + ObjectBytes(args[..n]);
      var slot := SlotBytes(s, args[n], |slots1|, argsSize + |strs|);
      var str := StrBytes(s, args[n]);
      var (a, b) := Store(specs, args, argsSize, slots, strs);
      StoreCons(specs, args, argsSize, slots, strs);
      StoreSizes(specs[1..], rest, argsSize, slots1 + slot, strs + str);
      ReadBack(specs[1..], rest, argsSize, slots1 + slot, strs + str, mem, base);
      ReadFirst(s, n, args, argsSize, slots, strs, mem, base, a, b);
      assert Types(args)[n + 1..] == Types(rest);
      FieldsBack(s, Types(args)[..n], mem, base + |slots|, Objects(args[..n]));
      FormatorCons(specs, Types(args), mem, base + |slots|);
      DirectCons(specs, args);
    }
  }

  lemma StoreCons(specs: seq<SpecInfo>, args: seq<Arg>, argsSize: nat, slots: seq<byte>, strs: seq<byte>)
    requires |args| >= ArgsRequired(specs) && AllOk(args) && |slots| + ArgsSize(args, ArgsRequired(specs)) <= argsSize
        && specs != []
    ensures ArgOk(args[Dynamics(specs[0])]) && |slots| + |ObjectBytes(args[..Dynamics(specs[0])])| <= argsSize
    ensures var s, n := specs[0], Dynamics(specs[0]);
      var slots1 := slots + ObjectBytes(args[..n]);
      var slots2 := slots1 + SlotBytes(s, args[n], |slots1|, argsSize + |strs|);
      && |slots2| + ArgsSize(args[n + 1..], ArgsRequired(specs[1..])) <= argsSize
      && Store(specs, args, argsSize, slots, strs)
          == Store(specs[1..], args[n + 1..], argsSize, slots2, strs + StrBytes(s, args[n]))
  {
    hide SlotBytes, StrBytes, ArgsSize, ObjectBytes;
    ArgsSizeSplit(args, Dynamics(specs[0]), ArgsRequired(specs[1..]));
  }

  lemma NothingToRead(types: seq<Type>, args: seq<Arg>, mem: seq<byte>, at: nat)
    ensures Formator([], types, mem, at) == Direct([], args)
  {
  }

  lemma FormatorCons(specs: seq<SpecInfo>, types: seq<Type>, mem: seq<byte>, at: nat)
    requires specs != [] && |types| >= ArgsRequired(specs)
    ensures var s, n := specs[0], Dynamics(specs[0]);
      var f, here := FieldsAt(s, types[..n], mem, at), at + TypesSize(types[..n]);
      Formator(specs, types, mem, at) == [Call(s, ArgAt(s, types[n], mem, here), f.0, f.1)]
                                         + Formator(specs[1..], types[n + 1..], mem, here + SizeOf(types[n]))
  {
    hide ArgAt, FieldsAt, TypesSize, SizeOf;
  }

  lemma DirectCons(specs: seq<SpecInfo>, args: seq<Arg>)
    requires specs != [] && |args| >= ArgsRequired(specs)
    ensures var s, n := specs[0], Dynamics(specs[0]);
      var f := Fields(s, Objects(args[..n]));
      Direct(specs, args) == [Call(s, Look(s, args[n]), f.0, f.1)] + Direct(specs[1..], args[n + 1..])
  {
    hide Look, Fields, Objects;
  }

  lemma Placed(mem: seq<byte>, base: nat, a: seq<byte>, slots: seq<byte>, objects: seq<byte>, slot: seq<byte>)
    requires Has(mem, base, a) && slots + objects + slot <= a
    ensures Has(mem, base + |slots|, objects) && Has(mem, base + |slots| + |objects|, slot)
  {
    var tail := a[|slots + objects + slot|..];
    assert a == slots + (objects + (slot + tail));
    HasParts(mem, base, slots, objects + (slot + tail));
    HasParts(mem, base + |slots|, objects, slot + tail);
    HasParts(mem, base + |slots| + |objects|, slot, tail);
  }

  lemma PlacedString(mem: seq<byte>, at: nat, b: seq<byte>, strs: seq<byte>, str: seq<byte>)
    requires Has(mem, at, b) && strs + str <= b
    ensures Has(mem, at + |strs|, str)
  {
    var tail := b[|strs + str|..];
    assert b == strs + (str + tail);
    HasParts(mem, at, strs, str + tail);
    HasParts(mem, at + |strs|, str, tail);
  }

  /** What `dump` writes behind the entry header. */
  function Dumped(specs: seq<SpecInfo>, args: seq<Arg>): (bytes: seq<byte>)
    requires |args| >= ArgsRequired(specs) && AllOk(args)
    ensures |bytes| == ArgsSize(args, ArgsRequired(specs)) + Sum(StrSizes(specs, args))
  {
    var argsSize := ArgsSize(args, ArgsRequired(specs));
    StoreSizes(specs, args, argsSize, [], []);
    var (slots, strs) := Store(specs, args, argsSize, [], []);
    slots + strs
  }

  /** Deferred formatting is direct formatting: wherever the dumped bytes have been copied to, the
      reader makes exactly the conversions that the specifiers and arguments ask for. */
  lemma DeferredIsDirect(specs: seq<SpecInfo>, args: seq<Arg>, mem: seq<byte>, base: nat)
    requires |args| >= ArgsRequired(specs) && AllOk(args)
    requires |Dumped(specs, args)| < TWO_TO_64 && Has(mem, base, Dumped(specs, args))
    ensures Formator(specs, Types(args), mem, base) == Direct(specs, args)
  {
    hide Formator, Direct, Store, Has, ArgsSize, StrSizes, Sum;
    var argsSize := ArgsSize(args, ArgsRequired(specs));
    var (slots, strs) := Store(specs, args, argsSize, [], []);
    StoreSizes(specs, args, argsSize, [], []);
    HasParts(mem, base, slots, strs);
    ReadBack(specs, args, argsSize, [], [], mem, base);
  }

  /** The `k`-th conversion that the reader makes, in terms of the arguments of the call: it sees the
      argument behind the stars of its specifier, a string by its characters, and the width and the
      precision are the values of the arguments that stand for them. */
  lemma DeferredSees(specs: seq<SpecInfo>, args: seq<Arg>, mem: seq<byte>, base: nat, k: nat)
    requires |args| >= ArgsRequired(specs) && AllOk(args) && k < |specs|
    requires |Dumped(specs, args)| < TWO_TO_64 && Has(mem, base, Dumped(specs, args))
    ensures |Formator(specs, Types(args), mem, base)| == |specs|
    ensures var call, s, at := Formator(specs, Types(args), mem, base)[k], specs[k], ArgsRequired(specs[..k]);
      var wide, exact := if s.width.Dynamic? then 1 else 0, if s.prec.Dynamic? then 1 else 0;
      && at + wide + exact < |args| && call.spec == s
      && Sees(call.seen, s, args[at + wide + exact])
      && IsValue(call.w, wide > 0, args[at + if exact > 0 && !s.wFirst then 1 else 0], 0)
      && IsValue(call.p, exact > 0, args[at + if wide > 0 && s.wFirst then 1 else 0], -1)
  {
    hide Formator, Direct, Has, ArgsRequired, Dumped, Look, Fields, Sees, IsValue, Dynamics, ArgOk;
    DeferredIsDirect(specs, args, mem, base);
    DirectAt(specs, args, k);
    var s, at := specs[k], ArgsRequired(specs[..k]);
    var n := Dynamics(s);
    LooksAt(s, args[at + n]);
    ValuesOf(s, args[at..at + n], args[at + n]);
    var d := args[at..at + n] + [args[at + n]];
    assert n > 0 ==> d[0] == args[at] && d[1] == args[at + 1];
    assert n == 0 ==> d[0] == args[at];
  }

  /** What `%s`, `%ls` and the others see of their argument. */
  predicate Sees(seen: Seen, s: SpecInfo, a: Arg) {
    && (s.terminal == 's' && s.flags.length != LongInt && a.ty == CharPtr ==> seen == Text(a.chars))
    && (s.terminal == 's' && s.flags.length == LongInt && a.ty == WCharPtr ==> seen == WideText(a.units))
    && (s.terminal != 's' ==> seen == Object(a.ty, a.raw))
  }

  /** A field is the value of its argument if that is an integer that an `int` holds, and `none` if
      there is no such argument or it is no integer. */
  predicate IsValue(x: int, given: bool, a: Arg, none: int) {
    && (!given ==> x == none)
    && (given && !a.ty.Integer? ==> x == none)
    && (given && a.ty.Integer? && |a.raw| == a.ty.size && a.ty.size in {1, 2, 4, 8} ==>
          var v := IntegerValue(a.ty, a.raw); -0x8000_0000 <= v < 0x8000_0000 ==> x == v)
  }

  lemma LooksAt(s: SpecInfo, a: Arg)
    ensures Sees(Look(s, a), s, a)
  {
    LookIs(s, a);
    hide Look;
  }

  lemma ValuesOf(s: SpecInfo, d: seq<Arg>, a: Arg)
    requires |d| == Dynamics(s)
    ensures var f := Fields(s, Objects(d));
      var wide, exact := if s.width.Dynamic? then 1 else 0, if s.prec.Dynamic? then 1 else 0;
      && |d| == wide + exact
      && IsValue(f.0, wide > 0, (d + [a])[if exact > 0 && !s.wFirst then 1 else 0], 0)
      && IsValue(f.1, exact > 0, (d + [a])[if wide > 0 && s.wFirst then 1 else 0], -1)
  {
    FieldsAre(s, Objects(d));
    hide Fields, ToInt, IntegerValue;
    forall x, other | x in d && x.ty.Integer? && |x.raw| == x.ty.size && x.ty.size in {1, 2, 4, 8}
      ensures var v := IntegerValue(x.ty, x.raw); -0x8000_0000 <= v < 0x8000_0000 ==> ToInt(x.ty, x.raw, other) == v
    {
      IntegerIs(x.ty, x.raw, other);
    }
  }

  // ---------------------------------------------------------------- in place

  /** `memcpy` of `bytes` to `mem + at`. */
  method Copy(mem: array<byte>, at: nat, bytes: seq<byte>)
    requires at + |bytes| <= mem.Length
    modifies mem
    ensures mem[..] == old(mem[..at]) + bytes + old(mem[at + |bytes|..])
  {
    var i := 0;
    while i < |bytes|
      invariant i <= |bytes|
      invariant mem[..at] == old(mem[..at]) && mem[at + |bytes|..] == old(mem[at + |bytes|..])
      invariant mem[at..at + i] == bytes[..i]
    {
      mem[at + i] := bytes[i];
      i := i + 1;
    }
    assert mem[..] == mem[..at] + mem[at..at + |bytes|] + mem[at + |bytes|..];
  }

  /** What a copy leaves in place: everything that ends before it or begins behind it. */
  lemma CopyKeeps(was: seq<byte>, mem: seq<byte>, at: nat, bytes: seq<byte>, here: nat, x: seq<byte>)
    requires at + |bytes| <= |was| && mem == was[..at] + bytes + was[at + |bytes|..]
    requires Has(was, here, x) && (here + |x| <= at || at + |bytes| <= here)
    ensures Has(mem, here, x)
  {
    assert forall i | here <= i < here + |x| :: mem[i] == was[i];
    assert mem[here..here + |x|] == was[here..here + |x|];
  }

  lemma CopyAppends(was: seq<byte>, mem: seq<byte>, at: nat, bytes: seq<byte>, here: nat, x: seq<byte>)
    requires at + |bytes| <= |was| && mem == was[..at] + bytes + was[at + |bytes|..]
    requires Has(was, here, x) && here + |x| == at
    ensures Has(mem, here, x + bytes)
  {
    CopyKeeps(was, mem, at, bytes, here, x);
    assert mem[here..here + |x + bytes|] == mem[here..at] + mem[at..at + |bytes|];
  }

  /** `getStrSizeArray`: entry `idx` on are filled, one for each `%s`. */
  method GetStrSizeArray(arr: array<nat>, idx: nat, specs: seq<SpecInfo>, args: seq<Arg>)
    requires |args| >= ArgsRequired(specs) && idx + |StrSizes(specs, args)| == arr.Length
    modifies arr
    ensures arr[..] == old(arr[..idx]) + StrSizes(specs, args)
    decreases |specs|
  {
    if specs != [] {
      var s, n := specs[0], Dynamics(specs[0]);
      if s.terminal == 's' {
        arr[idx] := StrSize(s, args[n]);
        GetStrSizeArray(arr, idx + 1, specs[1..], args[n + 1..]);
      } else {
        GetStrSizeArray(arr, idx, specs[1..], args[n + 1..]);
      }
    }
  }

  /** `base` is where the slots began, `slots` and `strs` what has been written so far. */
  ghost predicate Written(mem: seq<byte>, base: nat, argsSize: nat, slots: seq<byte>, strs: seq<byte>) {
    Has(mem, base, slots) && Has(mem, base + argsSize, strs)
  }

  /** One write at `storage`, behind the slots. */
  method PutSlot(mem: array<byte>, storage: nat, bytes: seq<byte>, ghost base: nat, ghost argsSize: nat,
      ghost slots: seq<byte>, ghost strs: seq<byte>)
    requires Written(mem[..], base, argsSize, slots, strs) && storage == base + |slots| && |slots| + |bytes| <= argsSize
    modifies mem
    ensures Written(mem[..], base, argsSize, slots + bytes, strs)
    ensures mem[..base] == old(mem[..base]) && mem[base + argsSize..] == old(mem[base + argsSize..])
  {
    ghost var was := mem[..];
    Copy(mem, storage, bytes);
    CopyAppends(was, mem[..], storage, bytes, base, slots);
    CopyKeeps(was, mem[..], storage, bytes, base + argsSize, strs);
    assert mem[base + argsSize..] == was[base + argsSize..];
    assert mem[..base] == was[..base];
  }

  /** One write at `storage2`, behind the strings. */
  method PutString(mem: array<byte>, storage2: nat, bytes: seq<byte>, ghost base: nat, ghost argsSize: nat,
      ghost slots: seq<byte>, ghost strs: seq<byte>)
    requires Written(mem[..], base, argsSize, slots, strs) && |slots| <= argsSize
    requires storage2 == base + argsSize + |strs| && storage2 + |bytes| <= mem.Length
    modifies mem
    ensures Written(mem[..], base, argsSize, slots, strs + bytes)
    ensures mem[..base] == old(mem[..base]) && mem[storage2 + |bytes|..] == old(mem[storage2 + |bytes|..])
  {
    ghost var was := mem[..];
    Copy(mem, storage2, bytes);
    CopyAppends(was, mem[..], storage2, bytes, base + argsSize, strs);
    CopyKeeps(was, mem[..], storage2, bytes, base, slots);
    assert mem[..base] == was[..base];
  }

  lemma TailOfTail(x: seq<byte>, y: seq<byte>, i: nat, j: nat)
    requires i <= j <= |x| && i <= |y| && x[i..] == y[i..]
    ensures j <= |y| && x[j..] == y[j..]
  {
    assert x[j..] == x[i..][j - i..] && y[j..] == y[i..][j - i..];
  }

  /** A string argument: the text, its terminator, and the offset in the slot. */
  method PutText(mem: array<byte>, storage: nat, storage2: nat, text: seq<byte>, end: seq<byte>,
                 ghost base: nat, ghost argsSize: nat, ghost slots: seq<byte>, ghost strs: seq<byte>)
    requires Written(mem[..], base, argsSize, slots, strs) && |slots| + PTR_SIZE <= argsSize
    requires storage == base + |slots| && storage2 == base + argsSize + |strs| && storage2 + |text + end| <= mem.Length
    modifies mem
    ensures Written(mem[..], base, argsSize, slots + Encode(storage2 - storage, PTR_SIZE), strs + (text + end))
    ensures mem[..base] == old(mem[..base]) && mem[storage2 + |text + end|..] == old(mem[storage2 + |text + end|..])
  {
    hide Written, Has, Encode;
    PutString(mem, storage2, text, base, argsSize, slots, strs);
    TailOfTail(mem[..], old(mem[..]), storage2 + |text|, storage2 + |text + end|);
    PutString(mem, storage2 + |text|, end, base, argsSize, slots, strs + text);
    Assoc(strs, text, end);
    ghost var was := mem[..];
    PutSlot(mem, storage, Encode(storage2 - storage, PTR_SIZE), base, argsSize, slots, strs + (text + end));
    TailOfTail(mem[..], was, base + argsSize, storage2 + |text + end|);
  }

  /** `storeArg`: a string goes to `storage2`, as many bytes of it as `size` says, and its offset
      to `storage`; anything else goes to `storage` as it is. */
  method StoreArg(mem: array<byte>, storage: nat, storage2: nat, size: nat, s: SpecInfo, a: Arg,
                  ghost base: nat, ghost argsSize: nat, ghost slots: seq<byte>, ghost strs: seq<byte>)
    returns (next: nat, next2: nat)
    requires ArgOk(a) && size == StrSize(s, a)
    requires Written(mem[..], base, argsSize, slots, strs) && |slots| + SizeOf(a.ty) <= argsSize
    requires storage == base + |slots| && storage2 == base + argsSize + |strs| && storage2 + size <= mem.Length
    modifies mem
    ensures Written(mem[..], base, argsSize, slots + SlotBytes(s, a, |slots|, argsSize + |strs|), strs + StrBytes(s, a))
    ensures next == storage + SizeOf(a.ty) && next2 == storage2 + size
    ensures mem[..base] == old(mem[..base]) && mem[next2..] == old(mem[next2..])
  {
    hide Written, Has, Flatten, Encode;
    next, next2 := storage + SizeOf(a.ty), storage2;
    StrBytesSize(s, a);
    if ReadsChars(s, a.ty) {
      assert a.chars[..size - 1] == a.chars;
      PutText(mem, storage, storage2, a.chars[..size - 1], [0], base, argsSize, slots, strs);
      next2 := storage2 + size;
    } else if ReadsUnits(s, a.ty) {
      var text := Flatten(a.units);
      FlattenUnits(a.units);
      assert text[..size - WCHAR_SIZE] == text;
      PutText(mem, storage, storage2, text[..size - WCHAR_SIZE], ZERO_UNIT, base, argsSize, slots, strs);
      next2 := storage2 + size;
    } else {
      PutSlot(mem, storage, a.raw, base, argsSize, slots, strs);
      assert strs + [] == strs;
      TailOfTail(mem[..], old(mem[..]), base + argsSize, next2);
    }
  }

  lemma {:induction false} ObjectBytesSnoc(args: seq<Arg>, i: nat)
    requires i < |args|
    ensures ObjectBytes(args[..i + 1]) == ObjectBytes(args[..i]) + args[i].raw
    decreases i
  {
    if i > 0 {
      ObjectBytesSnoc(args[1..], i - 1);
      assert args[..i + 1][1..] == args[1..][..i] && args[..i][1..] == args[1..][..i - 1];
      Assoc(args[0].raw, ObjectBytes(args[1..][..i - 1]), args[i].raw);
    }
  }

  /** The dynamic width and precision arguments in front of an argument. */
  method StoreDynamics(mem: array<byte>, storage: nat, args: seq<Arg>, n: nat,
                       ghost base: nat, ghost argsSize: nat, ghost slots: seq<byte>, ghost strs: seq<byte>)
    returns (next: nat)
    requires n <= |args| && AllOk(args)
    requires Written(mem[..], base, argsSize, slots, strs) && storage == base + |slots|
    requires |slots| + |ObjectBytes(args[..n])| <= argsSize
    modifies mem
    ensures Written(mem[..], base, argsSize, slots + ObjectBytes(args[..n]), strs)
    ensures next == storage + |ObjectBytes(args[..n])|
    ensures mem[..base] == old(mem[..base]) && mem[base + argsSize..] == old(mem[base + argsSize..])
  {
    assert base + argsSize <= mem.Length;
    hide Written, Has, ObjectBytes;
    next := storage;
    var i := 0;
    assert slots + ObjectBytes(args[..0]) == slots by { Nothing(args); }
    while i < n
      invariant i <= n && next == storage + |ObjectBytes(args[..i])|
      invariant Written(mem[..], base, argsSize, slots + ObjectBytes(args[..i]), strs)
      invariant mem[..base] == old(mem[..base]) && mem[base + argsSize..] == old(mem[base + argsSize..])
    {
      ObjectBytesSnoc(args, i);
      ObjectBytesGrow(args, i + 1, n);
      PutSlot(mem, next, args[i].raw, base, argsSize, slots + ObjectBytes(args[..i]), strs);
      Assoc(slots, ObjectBytes(args[..i]), args[i].raw);
      next := next + SizeOf(args[i].ty);
      i := i + 1;
    }
  }

  lemma Nothing(args: seq<Arg>)
    ensures ObjectBytes(args[..0]) == []
  {
    assert args[..0] == [];
  }

  lemma {:induction false} ObjectBytesGrow(args: seq<Arg>, i: nat, n: nat)
    requires i <= n <= |args|
    ensures |ObjectBytes(args[..i])| <= |ObjectBytes(args[..n])|
    decreases n - i
  {
    if i < n {
      ObjectBytesSnoc(args, i);
      ObjectBytesGrow(args, i + 1, n);
    }
  }

  /** `storeArgs`: writes the slots from `storage` and the strings from `storage2`. */
  method StoreArgs(mem: array<byte>, storage: nat, storage2: nat, arr: array<nat>, idx: nat,
                   specs: seq<SpecInfo>, args: seq<Arg>,
                   ghost base: nat, ghost argsSize: nat, ghost slots: seq<byte>, ghost strs: seq<byte>)
    returns (next: nat, next2: nat)
    requires |args| >= ArgsRequired(specs) && AllOk(args) && |slots| + ArgsSize(args, ArgsRequired(specs)) <= argsSize
    requires idx <= arr.Length && arr[idx..] == StrSizes(specs, args)
    requires Written(mem[..], base, argsSize, slots, strs)
    requires storage == base + |slots| && storage2 == base + argsSize + |strs|
        && storage2 + Sum(arr[idx..]) <= mem.Length
    modifies mem
    ensures var (a, b) := Store(specs, args, argsSize, slots, strs);
      Written(mem[..], base, argsSize, a, b) && next == base + |a| && next2 == base + argsSize + |b|
    ensures mem[..base] == old(mem[..base])
    ensures next2 <= mem.Length && mem[next2..] == old(mem[next2..])
    decreases |specs|
  {
    hide Written, SlotBytes, StrBytes, ObjectBytes, ArgsSize, StrSize;
    StoreSizes(specs, args, argsSize, slots, strs);
    if specs == [] {
      return storage, storage2;
    }
    var s, n := specs[0], Dynamics(specs[0]);
    ArgsSizeSplit(args, n, ArgsRequired(specs[1..]));
    ghost var slots1 := slots + ObjectBytes(args[..n]);
    var storage1 := StoreDynamics(mem, storage, args, n, base, argsSize, slots, strs);
    ghost var mem1 := mem[..];
    TailOfTail(mem1, old(mem[..]), base + argsSize, storage2);
    assert ArgOk(args[n]);
    StrBytesSize(s, args[n]);
    var size := StrSizeAt(arr, idx, specs, args);
    var storage3, storage4 := StoreArg(mem, storage1, storage2, size, s, args[n], base, argsSize, slots1, strs);
    ghost var mem2 := mem[..];
    var idx1 := if s.terminal == 's' then idx + 1 else idx;
    next, next2 := StoreArgs(mem, storage3, storage4, arr, idx1, specs[1..], args[n + 1..],
      base, argsSize, slots1 + SlotBytes(s, args[n], |slots1|, argsSize + |strs|), strs + StrBytes(s, args[n]));
    TailOfTail(mem1, old(mem[..]), storage2, next2);
    TailOfTail(mem2, mem1, storage4, next2);
  }

  /** The recorded size of the first specifier's argument; only `%s` has one. */
  method StrSizeAt(arr: array<nat>, idx: nat, specs: seq<SpecInfo>, args: seq<Arg>) returns (size: nat)
    requires |args| >= ArgsRequired(specs) && specs != []
    requires idx <= arr.Length && arr[idx..] == StrSizes(specs, args)
    ensures size == StrSize(specs[0], args[Dynamics(specs[0])])
    ensures var next := if specs[0].terminal == 's' then idx + 1 else idx;
      && next <= arr.Length && arr[next..] == StrSizes(specs[1..], args[Dynamics(specs[0]) + 1..])
      && size + Sum(arr[next..]) == Sum(arr[idx..])
  {
    if specs[0].terminal == 's' {
      size := arr[idx];
      assert arr[idx + 1..] == arr[idx..][1..];
    } else {
      size := 0;
    }
  }

  /** `LogEntryHandler::dump`: at `storage` it leaves `Dumped`, touches nothing else, and ends
      right behind it. */
  method Dump(mem: array<byte>, storage: nat, arr: array<nat>, specs: seq<SpecInfo>, args: seq<Arg>) returns (end: nat)
    requires |args| >= ArgsRequired(specs) && AllOk(args) && arr[..] == StrSizes(specs, args)
    requires storage + |Dumped(specs, args)| <= mem.Length
    modifies mem
    ensures end == storage + |Dumped(specs, args)|
    ensures mem[..] == old(mem[..storage]) + Dumped(specs, args) + old(mem[end..])
  {
    hide Store, ArgsSize, Sum, StrSizes, Has, Written;
    var argsSize := ArgsSize(args, ArgsRequired(specs));
    assert arr[0..] == arr[..];
    NothingWritten(mem[..], storage, argsSize);
    StoreSizes(specs, args, argsSize, [], []);
    var _, end2 := StoreArgs(mem, storage, storage + argsSize, arr, 0, specs, args, storage, argsSize, [], []);
    end := end2;
    ghost var (a, b) := Store(specs, args, argsSize, [], []);
    Spliced(mem[..], storage, argsSize, a, b);
  }

  lemma NothingWritten(mem: seq<byte>, base: nat, argsSize: nat)
    requires base + argsSize <= |mem|
    ensures Written(mem, base, argsSize, [], [])
  {
  }

  lemma Spliced(mem: seq<byte>, base: nat, argsSize: nat, a: seq<byte>, b: seq<byte>)
    requires Written(mem, base, argsSize, a, b) && |a| == argsSize
    ensures mem == mem[..base] + (a + b) + mem[base + |a + b|..]
  {
    assert mem == mem[..base] + mem[base..base + argsSize] + mem[base + argsSize..base + argsSize + |b|]
        + mem[base + argsSize + |b|..];
  }

  // ---------------------------------------------------------------- the log entry

  const FORMAT_ARGS_MAXIMUM_SIZE: nat := R.STAGING_BUFFER_SIZE / 2
  const STATUS_AT: nat := 12
  const NORMAL: byte := 0
  const ILLEGAL_ARGS_SIZE: byte := 1

  function Header(fmtId: nat, size: nat, status: byte, timestamp: nat): (h: seq<byte>)
    ensures |h| == LogBlocks.ENTRY_HEADER_SIZE
  {
    Encode(fmtId, 8) + Encode(size, 4) + [status, 0, 0, 0] + Encode(timestamp, 8)
  }

  /** The bytes `TZ_LOG` reserves, fills and commits for one log call. */
  function LogEntry(fmtId: nat, timestamp: nat, specs: seq<SpecInfo>, args: seq<Arg>): (e: seq<byte>)
    requires |args| >= ArgsRequired(specs) && AllOk(args)
    ensures |e| >= LogBlocks.ENTRY_HEADER_SIZE
  {
    var size := LogBlocks.ENTRY_HEADER_SIZE + ArgsSize(args, ArgsRequired(specs)) + Sum(StrSizes(specs, args));
    if size <= FORMAT_ARGS_MAXIMUM_SIZE then Header(fmtId, size, NORMAL, timestamp) + Dumped(specs, args)
    else Header(fmtId, LogBlocks.ENTRY_HEADER_SIZE + 8, ILLEGAL_ARGS_SIZE, timestamp) + Encode(size, 8)
  }

  /** The 24 bytes in front of an entry: the format, the size of the entry, its status, the time. */
  predicate HeaderSays(e: seq<byte>, fmtId: nat, status: byte, timestamp: nat) {
    && 24 <= |e| && Decode(e[8..12]) == |e| && e[12] == status
    && (fmtId < 0x1_0000_0000_0000_0000 ==> Decode(e[0..8]) == fmtId)
    && (timestamp < 0x1_0000_0000_0000_0000 ==> Decode(e[16..24]) == timestamp)
  }

  /** What an entry says, and when it is the entry of a call that is too large, which carries nothing
      but its size. */
  lemma EntryHeaderIs(fmtId: nat, timestamp: nat, specs: seq<SpecInfo>, args: seq<Arg>)
    requires |args| >= ArgsRequired(specs) && AllOk(args)
    ensures var e, size := LogEntry(fmtId, timestamp, specs, args), 24 + |Dumped(specs, args)|;
      if size <= 524_288 then HeaderSays(e, fmtId, 0, timestamp) && e[24..] == Dumped(specs, args)
      else
        && HeaderSays(e, fmtId, 1, timestamp) && |e| == 32
        && (size < 0x1_0000_0000_0000_0000 ==> Decode(e[24..]) == size)
  {
    hide Encode, Decode, Pow256, Dumped, Header, HeaderSays, LogEntry, ArgsSize, Sum, StrSizes, ArgsRequired, AllOk;
    EntryIs(fmtId, timestamp, specs, args);
    var size := 24 + |Dumped(specs, args)|;
    if size <= 524_288 {
      HeaderIs(fmtId, size, NORMAL, timestamp, Dumped(specs, args));
    } else {
      HeaderIs(fmtId, 32, ILLEGAL_ARGS_SIZE, timestamp, Encode(size, 8));
      SizeBack(size);
    }
  }

  lemma SizeBack(size: nat)
    ensures size < 0x1_0000_0000_0000_0000 ==> Decode(Encode(size, 8)) == size
  {
    hide Encode, Decode, Pow256;
    Pow256Eight();
    if size < TWO_TO_64 { DecodeEncode(size, 8); }
  }

  lemma HeaderIs(fmtId: nat, size: nat, status: byte, timestamp: nat, body: seq<byte>)
    requires size == 24 + |body| < 0x1_0000_0000
    ensures var e := Header(fmtId, size, status, timestamp) + body;
      HeaderSays(e, fmtId, status, timestamp) && e[24..] == body
  {
    hide Encode, Decode, Pow256;
    var e := Header(fmtId, size, status, timestamp) + body;
    assert e[0..8] == Encode(fmtId, 8) && e[8..12] == Encode(size, 4) && e[16..24] == Encode(timestamp, 8);
    Pow256Four();
    Pow256Eight();
    DecodeEncode(size, 4);
    if fmtId < TWO_TO_64 { DecodeEncode(fmtId, 8); }
    if timestamp < TWO_TO_64 { DecodeEncode(timestamp, 8); }
  }

  /** Every entry carries its own size, so the sink steps over it exactly, and every request is
      below the bound under which a blocking reserve always gets its space. */
  lemma LogEntryFits(fmtId: nat, timestamp: nat, specs: seq<SpecInfo>, args: seq<Arg>)
    requires |args| >= ArgsRequired(specs) && AllOk(args)
    ensures var e := LogEntry(fmtId, timestamp, specs, args);
      LogBlocks.EntryOk(e) && |e| <= FORMAT_ARGS_MAXIMUM_SIZE < R.STAGING_BUFFER_SIZE
  {
    hide Encode, Decode, Pow256, Dumped;
    var e := LogEntry(fmtId, timestamp, specs, args);
    assert e[8..12] == Encode(|e|, 4);
    Pow256Four();
    DecodeEncode(|e|, 4);
  }

  /** `TZ_LOG` on reserved space: the sizes are added up, the arguments dumped, the header filled
      in, and the assertion that the cursor has moved by exactly the announced size holds. */
  method WriteLogEntry(mem: array<byte>, writePos: nat, fmtId: nat, timestamp: nat, specs: seq<SpecInfo>,
      args: seq<Arg>)
    returns (bufSize: nat)
    requires |args| >= ArgsRequired(specs) && AllOk(args)
    requires writePos + |LogEntry(fmtId, timestamp, specs, args)| <= mem.Length
    modifies mem
    ensures bufSize == LogBlocks.ENTRY_HEADER_SIZE + ArgsSize(args, ArgsRequired(specs)) + Sum(StrSizes(specs, args))
    ensures var e := LogEntry(fmtId, timestamp, specs, args);
      mem[..] == old(mem[..writePos]) + e + old(mem[writePos + |e|..])
  {
    hide ArgsSize, StrSizes, Encode, Header, Dumped, Sum, StrNum, ArgsRequired, AllOk, LogEntry;
    EntryIs(fmtId, timestamp, specs, args);
    ghost var was := mem[..];
    var arr := new nat[StrNum(specs)];
    StrSizesLength(specs, args);
    GetStrSizeArray(arr, 0, specs, args);
    assert arr[..] == StrSizes(specs, args);
    bufSize := AddSizes(arr, ArgsSize(args, ArgsRequired(specs)) + LogBlocks.ENTRY_HEADER_SIZE);
    var behind := writePos + LogBlocks.ENTRY_HEADER_SIZE;
    if bufSize <= FORMAT_ARGS_MAXIMUM_SIZE {
      var end := Dump(mem, behind, arr, specs, args);
      assert bufSize == end - writePos;
      FillHeader(mem, writePos, Header(fmtId, bufSize, NORMAL, timestamp), was, Dumped(specs, args));
    } else {
      Copy(mem, behind, Encode(bufSize, 8));
      FillHeader(mem, writePos, Header(fmtId, LogBlocks.ENTRY_HEADER_SIZE + 8, ILLEGAL_ARGS_SIZE, timestamp), was,
          Encode(bufSize, 8));
    }
  }

  lemma EntryIs(fmtId: nat, timestamp: nat, specs: seq<SpecInfo>, args: seq<Arg>)
    requires |args| >= ArgsRequired(specs) && AllOk(args)
    ensures var size := LogBlocks.ENTRY_HEADER_SIZE + ArgsSize(args, ArgsRequired(specs)) + Sum(StrSizes(specs, args));
      LogEntry(fmtId, timestamp, specs, args)
      == if size <= FORMAT_ARGS_MAXIMUM_SIZE then Header(fmtId, size, NORMAL, timestamp) + Dumped(specs, args)
         else Header(fmtId, LogBlocks.ENTRY_HEADER_SIZE + 8, ILLEGAL_ARGS_SIZE, timestamp) + Encode(size, 8)
  {
    hide ArgsSize, StrSizes, Encode, Header, Dumped, Sum, ArgsRequired, AllOk;
  }

  method FillHeader(mem: array<byte>, at: nat, h: seq<byte>, ghost was: seq<byte>, ghost body: seq<byte>)
    requires at + |h| + |body| <= |was| == mem.Length && mem[..] == was[..at + |h|] + body + was[at + |h| + |body|..]
    modifies mem
    ensures mem[..] == was[..at] + (h + body) + was[at + |h + body|..]
  {
    ghost var dumped := mem[..];
    Copy(mem, at, h);
    HeaderInFront(was, dumped, mem[..], at, h, body);
  }

  lemma HeaderInFront(was: seq<byte>, dumped: seq<byte>, mem: seq<byte>, at: nat, h: seq<byte>, body: seq<byte>)
    requires at + |h| + |body| <= |was| && dumped == was[..at + |h|] + body + was[at + |h| + |body|..]
    requires mem == dumped[..at] + h + dumped[at + |h|..]
    ensures mem == was[..at] + (h + body) + was[at + |h + body|..]
  {
    assert dumped[..at] == was[..at];
    assert dumped[at + |h|..] == body + was[at + |h| + |body|..];
  }

  /** `getStrsNum`. */
  function StrNum(specs: seq<SpecInfo>): nat {
    if specs == [] then 0 else (if specs[0].terminal == 's' then 1 else 0) + StrNum(specs[1..])
  }

  lemma {:induction false} StrSizesLength(specs: seq<SpecInfo>, args: seq<Arg>)
    requires |args| >= ArgsRequired(specs)
    ensures |StrSizes(specs, args)| == StrNum(specs)
    decreases |specs|
  {
    if specs != [] { StrSizesLength(specs[1..], args[Dynamics(specs[0]) + 1..]); }
  }

  method AddSizes(arr: array<nat>, start: nat) returns (total: nat)
    ensures total == start + Sum(arr[..])
  {
    total := start;
    var i := 0;
    assert arr[0..] == arr[..];
    while i < arr.Length
      invariant i <= arr.Length && total + Sum(arr[i..]) == start + Sum(arr[..])
    {
      assert arr[i..][1..] == arr[i + 1..];
      total := total + arr[i];
      i := i + 1;
    }
  }

  /** The sink finds the arguments of a normal entry behind its header, wherever the entry lies. */
  lemma EntryFormatsAsDirect(fmtId: nat, timestamp: nat, specs: seq<SpecInfo>, args: seq<Arg>, mem: seq<byte>,
      base: nat)
    requires |args| >= ArgsRequired(specs) && AllOk(args) && Has(mem, base, LogEntry(fmtId, timestamp, specs, args))
    requires LogEntry(fmtId, timestamp, specs, args)[STATUS_AT] == NORMAL
    ensures Formator(specs, Types(args), mem, base + LogBlocks.ENTRY_HEADER_SIZE) == Direct(specs, args)
  {
    hide Formator, Direct, Types, AllOk, Dumped, LogEntry, Has;
    var e := EntryParts(fmtId, timestamp, specs, args);
    HasParts(mem, base, e, Dumped(specs, args));
    DeferredIsDirect(specs, args, mem, base + LogBlocks.ENTRY_HEADER_SIZE);
  }

  /** A normal entry is its header and the arguments. */
  lemma EntryParts(fmtId: nat, timestamp: nat, specs: seq<SpecInfo>, args: seq<Arg>) returns (header: seq<byte>)
    requires |args| >= ArgsRequired(specs) && AllOk(args)
    requires LogEntry(fmtId, timestamp, specs, args)[STATUS_AT] == NORMAL
    ensures |header| == LogBlocks.ENTRY_HEADER_SIZE
    ensures LogEntry(fmtId, timestamp, specs, args) == header + Dumped(specs, args) && |Dumped(specs, args)| < TWO_TO_64
  {
    hide Dumped;
    var e := LogEntry(fmtId, timestamp, specs, args);
    header := e[..LogBlocks.ENTRY_HEADER_SIZE];
    assert e == header + e[LogBlocks.ENTRY_HEADER_SIZE..];
    assert e[LogBlocks.ENTRY_HEADER_SIZE..] == Dumped(specs, args);
  }
}
