/** The double buffering of `SinkLogger`: the poller appends blocks to the current buffer under
    the mutex, the sink thread swaps the filled buffers out, writes them, and recycles two of
    them.  The steps are those of the two threads; everything one of them does under the mutex
    without a visible point in between is one step, the store that resets the supplement counter
    outside the mutex is a step of its own. */
module SinkBuffering {
  import opened Bytes
  import opened LogBlocks
  import opened Sequences
  import R = StagingRing

  const LARGE_BUFFER: nat := 128 * 1024 * 1024
  const SUPPLEMENT_MAXIMUM: nat := 4

  datatype Option<T> = None | Some(value: T)

  datatype Buffer = Buffer(id: nat, blocks: seq<Block>)

  /** What the poller does with the mutex. */
  datatype AppendPc =
    | Unlocked
    | Supplement(size: nat)   // has seen the counter below its maximum, makes a new buffer
    | Filling(size: nat)      // the current buffer has room, the copy loop runs

  datatype SinkPc =
    | Top
    | Waiting                 // in wait_for, the mutex is released
    | Writing(b: nat, k: nat, e: nat)
    | Trimming
    | ResettingCount
    | Refilling1
    | Refilling2
    | Clearing
    | Stopped

  datatype State = State(
    current: Option<Buffer>, next: Option<Buffer>, pending: seq<Buffer>, count: nat, apc: AppendPc,
    spare1: Option<Buffer>, spare2: Option<Buffer>, writing: seq<Buffer>, spc: SinkPc,
    // the next unused buffer identity, and what has happened: records appended and written
    unused: nat, appended: seq<Rec>, processed: seq<Rec>)

  predicate Init(s: State) {
    s == State(Some(Buffer(0, [])), Some(Buffer(1, [])), [], 0, Unlocked,
               Some(Buffer(2, [])), Some(Buffer(3, [])), [], Top, 4, [], [])
  }

  datatype Act =
    // poller: one pass of `append`
    | Admit(size: nat)
    | Supply
    | Put(block: Block)
    // sink thread
    | Enter
    | Wake(timeout: bool)
    | WriteNext
    | Trim
    | ResetCount
    | Refill1
    | Refill2
    | Clear
    | Stop

  predicate Enabled(s: State, a: Act) {
    match a
    case Admit(size) => s.apc.Unlocked? && size <= R.STAGING_BUFFER_SIZE
    case Supply => s.apc.Supplement?
    case Put(block) => s.apc.Filling? && BlockSize(block) == s.apc.size
    case Enter => s.spc.Top? && s.apc.Unlocked?
    case Wake(_) => s.spc.Waiting? && s.apc.Unlocked?
    case WriteNext => s.spc.Writing?
    case Trim => s.spc.Trimming?
    case ResetCount => s.spc.ResettingCount?
    case Refill1 => s.spc.Refilling1?
    case Refill2 => s.spc.Refilling2?
    case Clear => s.spc.Clearing?
    case Stop => s.spc.Top?
  }

  predicate Fits(b: Buffer, size: nat) { LARGE_BUFFER - Used(b.blocks) > size + CHECKPOINT_SIZE }

  predicate EmptySpare(b: Option<Buffer>) { b.Some? && b.value.blocks == [] }

  /** What a step needs to be harmless: no null pointer, no index out of range, room for the
      header and the bytes, and the four asserts of `threadFunc`. */
  predicate Safe(s: State, a: Act) {
    match a
    case Admit(_) => s.current.Some?
    case Supply => s.current.Some?
    case Put(block) => s.current.Some? && Fits(s.current.value, BlockSize(block))
    case Enter => s.current.Some? && EmptySpare(s.spare1) && EmptySpare(s.spare2) && s.writing == []
    case Wake(_) => s.current.Some?
    case WriteNext =>
      && s.spc.Writing?
      && (s.spc.b < |s.writing| ==> s.spc.k <= |s.writing[s.spc.b].blocks|)
      && (s.spc.b < |s.writing| && s.spc.k < |s.writing[s.spc.b].blocks| ==>
            s.spc.e <= |s.writing[s.spc.b].blocks[s.spc.k].entries|)
    case Refill1 => s.spare1.None? ==> s.writing != []
    case Refill2 => s.spare2.None? ==> s.writing != []
    case _ => true
  }

  /** More than 0.8 of the buffer is filled. */
  predicate NearlyFull(b: Buffer) { 10 * Used(b.blocks) > 8 * LARGE_BUFFER }

  /** The locked hand-over at the end of the wait. */
  function Rotate(s: State, timeout: bool): State
    requires s.current.Some?
  {
    var cur := s.current.value;
    var t := if (if timeout then Used(cur.blocks) > 0 else NearlyFull(cur))
             then s.(pending := s.pending + [cur], current := s.spare1, spare1 := None) else s;
    var u := t.(writing := t.pending, pending := t.writing);
    var v := if u.next.None? then u.(next := u.spare2, spare2 := None) else u;
    v.(spc := if v.writing == [] then Top else Writing(0, 0, 0))
  }

  function Step(s: State, a: Act): State
    requires Enabled(s, a) && Safe(s, a)
  {
    match a
    case Admit(size) =>
      if Fits(s.current.value, size) then s.(apc := Filling(size))
      else if s.next.Some? then
        s.(pending := s.pending + [s.current.value], current := s.next, next := None, apc := Filling(size))
      else if s.count < SUPPLEMENT_MAXIMUM then s.(apc := Supplement(size))
      else s                                    // leaves the mutex, sleeps, comes back
    case Supply =>
      s.(pending := s.pending + [s.current.value], current := Some(Buffer(s.unused, [])), unused := s.unused + 1,
         count := s.count + 1, apc := Filling(s.apc.size))
    case Put(block) =>
      var cur := s.current.value;
      s.(current := Some(cur.(blocks := cur.blocks + [block])), apc := Unlocked,
         appended := s.appended + BlockRecs(block, 0))
    case Enter => if s.pending == [] then s.(spc := Waiting) else Rotate(s, false)
    case Wake(timeout) => Rotate(s, timeout)
    case WriteNext =>
      var Writing(b, k, e) := s.spc;
      if b >= |s.writing| then s.(spc := Trimming)
      else if k == |s.writing[b].blocks| then s.(spc := Writing(b + 1, 0, 0))
      else
        var block := s.writing[b].blocks[k];
        if e == |block.entries| then s.(spc := Writing(b, k + 1, 0))
        else s.(processed := s.processed + [Rec(block.src, block.name, block.entries[e])],
                spc := Writing(b, k, e + 1))
    case Trim => s.(writing := if |s.writing| > 2 then s.writing[..2] else s.writing, spc := ResettingCount)
    case ResetCount => s.(count := 0, spc := Refilling1)
    case Refill1 =>
      if s.spare1.Some? then s.(spc := Refilling2)
      else s.(spare1 := Some(Last(s.writing).(blocks := [])), writing := s.writing[..|s.writing| - 1],
          spc := Refilling2)
    case Refill2 =>
      if s.spare2.Some? then s.(spc := Clearing)
      else s.(spare2 := Some(Last(s.writing).(blocks := [])), writing := s.writing[..|s.writing| - 1], spc := Clearing)
    case Clear => s.(writing := [], spc := Top)
    case Stop => s.(spc := Stopped)
  }

  // ---------------------------------------------------------------- the invariant

  function BufferRecs(bs: seq<Buffer>): seq<Rec> {
    if bs == [] then [] else Recs(bs[0].blocks) + BufferRecs(bs[1..])
  }

  lemma {:induction false} BufferRecsAppend(a: seq<Buffer>, b: seq<Buffer>)
    ensures BufferRecs(a + b) == BufferRecs(a) + BufferRecs(b)
  {
    if a == [] {
      assert a + b == b;
    } else {
      BufferRecsAppend(a[1..], b);
      assert (a + b)[0] == a[0] && (a + b)[1..] == a[1..] + b;
      Assoc(Recs(a[0].blocks), BufferRecs(a[1..]), BufferRecs(b));
      hide Recs;
    }
  }

  ghost predicate Cursor(writing: seq<Buffer>, b: nat, k: nat, e: nat) {
    && b <= |writing|
    && (b == |writing| ==> k == 0 && e == 0)
    && (b < |writing| ==> k <= |writing[b].blocks| && (k == |writing[b].blocks| ==> e == 0))
    && (b < |writing| && k < |writing[b].blocks| ==> e <= |writing[b].blocks[k].entries|)
  }

  /** What the sink still has to write, from its cursor on. */
  ghost function Unwritten(writing: seq<Buffer>, b: nat, k: nat, e: nat): seq<Rec>
    requires Cursor(writing, b, k, e)
  {
    if b == |writing| then []
    else
      var blocks := writing[b].blocks;
      (if k == |blocks| then [] else BlockRecs(blocks[k], e) + Recs(blocks[k + 1..])) + BufferRecs(writing[b + 1..])
  }

  ghost predicate CursorOk(writing: seq<Buffer>, spc: SinkPc) {
    spc.Writing? ==> Cursor(writing, spc.b, spc.k, spc.e)
  }

  ghost function Left(writing: seq<Buffer>, spc: SinkPc): seq<Rec>
    requires CursorOk(writing, spc)
  {
    if spc.Writing? then Unwritten(writing, spc.b, spc.k, spc.e) else []
  }

  /** Nothing lost, nothing doubled, nothing reordered. */
  ghost predicate InOrder(s: State)
    requires s.current.Some? && CursorOk(s.writing, s.spc)
  {
    s.appended == s.processed + Left(s.writing, s.spc) + BufferRecs(s.pending) + Recs(s.current.value.blocks)
  }

  /** How many elements of `bs` are the buffer `id`. */
  function Occurrences(bs: seq<Buffer>, id: nat): nat {
    if bs == [] then 0 else (if bs[0].id == id then 1 else 0) + Occurrences(bs[1..], id)
  }

  lemma {:induction false} OccurrencesAppend(a: seq<Buffer>, b: seq<Buffer>, id: nat)
    ensures Occurrences(a + b, id) == Occurrences(a, id) + Occurrences(b, id)
  {
    if a == [] {
      assert a + b == b;
    } else {
      OccurrencesAppend(a[1..], b, id);
      assert (a + b)[0] == a[0] && (a + b)[1..] == a[1..] + b;
    }
  }

  function Holds(b: Option<Buffer>, id: nat): nat { if b.Some? && b.value.id == id then 1 else 0 }

  /** How many slots point to the buffer `id`. */
  function Owners(s: State, id: nat): nat {
    Holds(s.current, id) + Holds(s.next, id) + Occurrences(s.pending, id)
    + Holds(s.spare1, id) + Holds(s.spare2, id) + Occurrences(s.writing, id)
  }

  ghost predicate Unique(s: State) {
    forall id: nat :: Owners(s, id) <= if id < s.unused then 1 else 0
  }

  function Missing(b: Option<Buffer>): nat { if b.None? then 1 else 0 }

  /** Where each slot may be empty, and what is then there to fill it from. */
  ghost predicate Slots(s: State) {
    && s.current.Some?
    && (s.next.Some? ==> s.next.value.blocks == [])
    && (s.spare1.Some? ==> s.spare1.value.blocks == []) && (s.spare2.Some? ==> s.spare2.value.blocks == [])
    && (s.next.None? ==> s.pending != [])
    && (match s.spc
        case Top => s.spare1.Some? && s.spare2.Some? && s.writing == []
        case Waiting => s.spare1.Some? && s.spare2.Some? && s.writing == []
        case Stopped => s.spare1.Some? && s.spare2.Some? && s.writing == []
        case Refilling2 => s.spare1.Some? && Missing(s.spare2) <= |s.writing|
        case Clearing => s.spare1.Some? && s.spare2.Some?
        case _ => Missing(s.spare1) + Missing(s.spare2) <= |s.writing|)
  }

  /** The counter has not been reset since the last swap. */
  predicate BeforeReset(spc: SinkPc) { spc.Writing? || spc.Trimming? || spc.ResettingCount? }

  ghost predicate Bounded(s: State) {
    && s.count <= SUPPLEMENT_MAXIMUM
    && (s.apc.Supplement? ==> s.count < SUPPLEMENT_MAXIMUM && s.next.None?)
    && |s.pending| <= Missing(s.next) + s.count + (if BeforeReset(s.spc) then 0 else SUPPLEMENT_MAXIMUM)
    && |s.writing| <= 2 * SUPPLEMENT_MAXIMUM + 2
  }

  ghost predicate Roomy(s: State)
    requires s.current.Some?
  {
    && Used(s.current.value.blocks) < LARGE_BUFFER
    && (s.apc.Filling? ==> Fits(s.current.value, s.apc.size))
    && (s.apc.Supplement? ==> s.apc.size <= R.STAGING_BUFFER_SIZE)
  }

  ghost predicate Ready(s: State) { Slots(s) && Bounded(s) && Roomy(s) }

  ghost predicate Inv(s: State) {
    && Ready(s)
    && Unique(s)
    && CursorOk(s.writing, s.spc) && InOrder(s)
  }

  lemma InitInv(s: State)
    requires Init(s)
    ensures Inv(s)
  {
  }

  lemma EnabledIsSafe(s: State, a: Act)
    requires Inv(s) && Enabled(s, a)
    ensures Safe(s, a)
  {
    hide Owners, Unique, InOrder, Unwritten;
  }

  lemma StepReady(s: State, a: Act)
    requires Ready(s) && Enabled(s, a) && Safe(s, a)
    ensures Ready(Step(s, a))
  {
    hide BufferRecs, BlockRecs, Recs, BlockSize;
    match a
    case Admit(size) => AdmitReady(s, size);
    case Supply =>
    case Put(block) => PutReady(s, block);
    case Enter => if s.pending != [] { RotateReady(s, false); }
    case Wake(timeout) => RotateReady(s, timeout);
    case WriteNext => WriterReady(s, a);
    case Stop => WriterReady(s, a);
    case _ => RecyclerReady(s, a);
  }

  lemma AdmitReady(s: State, size: nat)
    requires Ready(s) && Enabled(s, Admit(size)) && Safe(s, Admit(size))
    ensures Ready(Step(s, Admit(size)))
  {
    hide BufferRecs, BlockRecs, Recs, BlockSize;
  }

  lemma PutReady(s: State, block: Block)
    requires Ready(s) && Enabled(s, Put(block)) && Safe(s, Put(block))
    ensures Ready(Step(s, Put(block)))
  {
    hide BufferRecs, BlockRecs, Recs;
    UsedAppend(s.current.value.blocks, [block]);
    assert Used([block]) == CHECKPOINT_SIZE + BlockSize(block) + Used([]) by { assert [block][1..] == []; }
    hide Used, BlockSize;
  }

  lemma RotateReady(s: State, timeout: bool)
    requires Ready(s) && (s.spc.Top? || s.spc.Waiting?) && s.apc.Unlocked?
    ensures Ready(Rotate(s, timeout))
  {
    hide BufferRecs, BlockRecs, Recs, BlockSize;
    assert Used([]) == 0;
  }

  lemma WriterReady(s: State, a: Act)
    requires Ready(s) && Enabled(s, a) && Safe(s, a)
    requires a.WriteNext? || a.Stop?
    ensures Ready(Step(s, a))
  {
    hide BufferRecs, BlockRecs, Recs, Used, BlockSize;
  }

  lemma RecyclerReady(s: State, a: Act)
    requires Ready(s) && Enabled(s, a) && Safe(s, a)
    requires a.Trim? || a.ResetCount? || a.Refill1? || a.Refill2? || a.Clear?
    ensures Ready(Step(s, a))
  {
    hide BufferRecs, BlockRecs, Recs, Used, BlockSize, Fits;
  }

  // ---- ownership

  lemma Split(bs: seq<Buffer>, n: nat, id: nat)
    requires n <= |bs|
    ensures Occurrences(bs, id) == Occurrences(bs[..n], id) + Occurrences(bs[n..], id)
  {
    assert bs == bs[..n] + bs[n..];
    OccurrencesAppend(bs[..n], bs[n..], id);
  }

  lemma One(bs: seq<Buffer>, b: Buffer, id: nat)
    ensures Occurrences(bs + [b], id) == Occurrences(bs, id) + Holds(Some(b), id)
    ensures bs != [] ==> Occurrences(bs, id) == Occurrences(bs[..|bs| - 1], id) + Holds(Some(Last(bs)), id)
  {
    OccurrencesAppend(bs, [b], id);
    if bs != [] {
      Split(bs, |bs| - 1, id);
      assert bs[|bs| - 1..] == [Last(bs)];
    }
  }

  /** No step makes a second owner: buffers move, are dropped, or are new. */
  lemma StepOwners(s: State, a: Act, id: nat)
    requires Ready(s) && Enabled(s, a) && Safe(s, a)
    ensures Owners(Step(s, a), id) <= Owners(s, id) + (if a.Supply? && id == s.unused then 1 else 0)
    ensures Step(s, a).unused == s.unused + (if a.Supply? then 1 else 0)
  {
    hide BufferRecs, BlockRecs, Recs, Used, BlockSize, Bounded, Roomy, Occurrences, Owners, Rotate;
    match a
    case Admit(_) => AppendOwners(s, a, id);
    case Supply => AppendOwners(s, a, id);
    case Put(_) => AppendOwners(s, a, id);
    case Enter => if s.pending != [] { RotateOwners(s, false, id); } else { WriterOwners(s, a, id); }
    case Wake(timeout) => RotateOwners(s, timeout, id);
    case Trim => RecycleOwners(s, a, id);
    case Refill1 => RecycleOwners(s, a, id);
    case Refill2 => RecycleOwners(s, a, id);
    case _ => WriterOwners(s, a, id);
  }

  lemma AppendOwners(s: State, a: Act, id: nat)
    requires Enabled(s, a) && Safe(s, a) && (a.Admit? || a.Supply? || a.Put?)
    ensures Owners(Step(s, a), id) <= Owners(s, id) + (if a.Supply? && id == s.unused then 1 else 0)
    ensures Step(s, a).unused == s.unused + (if a.Supply? then 1 else 0)
  {
    One(s.pending, s.current.value, id);
    hide Occurrences, BlockRecs, Used, BlockSize;
  }

  lemma RotateOwners(s: State, timeout: bool, id: nat)
    requires s.current.Some?
    ensures Owners(Rotate(s, timeout), id) == Owners(s, id) && Rotate(s, timeout).unused == s.unused
  {
    One(s.pending, s.current.value, id);
    hide Occurrences, Used;
  }

  lemma RecycleOwners(s: State, a: Act, id: nat)
    requires Enabled(s, a) && Safe(s, a) && (a == Trim || a == Refill1 || a == Refill2)
    ensures Owners(Step(s, a), id) <= Owners(s, id) && Step(s, a).unused == s.unused
  {
    if a == Trim {
      if |s.writing| > 2 { Split(s.writing, 2, id); }
    } else if s.writing != [] {
      One(s.writing, Last(s.writing), id);
    }
    hide Occurrences;
  }

  lemma WriterOwners(s: State, a: Act, id: nat)
    requires Enabled(s, a) && Safe(s, a)
    requires a.WriteNext? || a.ResetCount? || a.Clear? || a.Stop? || (a.Enter? && s.pending == [])
    ensures Owners(Step(s, a), id) <= Owners(s, id) && Step(s, a).unused == s.unused
  {
    assert Occurrences([], id) == 0;
    var t := Step(s, a);
    assert t.current == s.current && t.next == s.next && t.spare1 == s.spare1 && t.spare2 == s.spare2;
    assert t.pending == s.pending && (t.writing == s.writing || t.writing == []);
    hide Occurrences, Step;
  }

  // ---- order

  /** The three ways the sink's cursor moves on. */
  lemma NextBuffer(writing: seq<Buffer>, b: nat, k: nat, e: nat)
    requires Cursor(writing, b, k, e) && b < |writing| && k == |writing[b].blocks|
    ensures Cursor(writing, b + 1, 0, 0) && Unwritten(writing, b, k, e) == Unwritten(writing, b + 1, 0, 0)
  {
    FromTheTop(writing, b + 1);
    hide BufferRecs;
  }

  lemma NextBlock(writing: seq<Buffer>, b: nat, k: nat)
    requires b < |writing| && k < |writing[b].blocks|
    ensures var n := |writing[b].blocks[k].entries|;
      Cursor(writing, b, k, n) && Cursor(writing, b, k + 1, 0)
          && Unwritten(writing, b, k, n) == Unwritten(writing, b, k + 1, 0)
  {
    var rest := writing[b].blocks[k + 1..];
    assert rest != [] ==> rest[0] == writing[b].blocks[k + 1] && rest[1..] == writing[b].blocks[k + 2..];
    hide BufferRecs;
  }

  lemma NextEntry(writing: seq<Buffer>, b: nat, k: nat, e: nat)
    requires b < |writing| && k < |writing[b].blocks| && e < |writing[b].blocks[k].entries|
    ensures Cursor(writing, b, k, e) && Cursor(writing, b, k, e + 1)
    ensures var block := writing[b].blocks[k];
      Unwritten(writing, b, k, e) == [Rec(block.src, block.name, block.entries[e])] + Unwritten(writing, b, k, e + 1)
  {
    var block := writing[b].blocks[k];
    BlockRecsCons(block, e);
    hide BufferRecs, BlockRecs, Recs;
    var rec, x := [Rec(block.src, block.name, block.entries[e])], BlockRecs(block, e + 1);
    Assoc(rec, x, Recs(writing[b].blocks[k + 1..]));
    Assoc(rec, x + Recs(writing[b].blocks[k + 1..]), BufferRecs(writing[b + 1..]));
  }

  /** At the start of a buffer everything in it and behind it is unwritten. */
  lemma FromTheTop(writing: seq<Buffer>, b: nat)
    requires b <= |writing|
    ensures Cursor(writing, b, 0, 0) && Unwritten(writing, b, 0, 0) == BufferRecs(writing[b..])
  {
    if b < |writing| {
      var blocks := writing[b].blocks;
      assert blocks != [] ==> blocks == [blocks[0]] + blocks[1..];
      assert writing[b..][0] == writing[b] && writing[b..][1..] == writing[b + 1..];
    }
  }

  lemma UnwrittenEnd(writing: seq<Buffer>)
    ensures Cursor(writing, |writing|, 0, 0) && Unwritten(writing, |writing|, 0, 0) == []
  {
  }

  ghost predicate Ordered(s: State) { s.current.Some? && CursorOk(s.writing, s.spc) && InOrder(s) }

  lemma StepOrder(s: State, a: Act)
    requires Ready(s) && Ordered(s) && Enabled(s, a) && Safe(s, a)
    ensures Ordered(Step(s, a))
  {
    hide Used, BlockSize, Bounded, Roomy, Unwritten, BufferRecs, Recs, BlockRecs, Cursor;
    match a
    case Admit(size) => OneBuffer(s.pending, s.current.value); AdmitOrder(s, size);
    case Supply => OneBuffer(s.pending, s.current.value); SupplyOrder(s);
    case Put(block) => PutOrder(s, block);
    case Enter => if s.pending != [] { RotateOrder(s, false); }
    case Wake(timeout) => RotateOrder(s, timeout);
    case WriteNext => WriteOrder(s);
    case _ =>
  }

  lemma OneBuffer(bs: seq<Buffer>, b: Buffer)
    ensures BufferRecs(bs + [b]) == BufferRecs(bs) + Recs(b.blocks)
    ensures Recs([]) == []
  {
    BufferRecsAppend(bs, [b]);
    assert [b][1..] == [];
  }

  lemma AdmitOrder(s: State, size: nat)
    requires Ready(s) && Ordered(s) && Enabled(s, Admit(size)) && Safe(s, Admit(size))
    requires BufferRecs(s.pending + [s.current.value]) == BufferRecs(s.pending) + Recs(s.current.value.blocks)
    requires Recs([]) == []
    ensures Ordered(Step(s, Admit(size)))
  {
    hide Used, BlockSize, Bounded, Roomy, Unwritten, BufferRecs, Recs, BlockRecs, Cursor;
    var l, p, c := s.processed + Left(s.writing, s.spc), BufferRecs(s.pending), Recs(s.current.value.blocks);
    assert l + (p + c) + [] == l + p + c;
  }

  lemma SupplyOrder(s: State)
    requires Ready(s) && Ordered(s) && Enabled(s, Supply) && Safe(s, Supply)
    requires BufferRecs(s.pending + [s.current.value]) == BufferRecs(s.pending) + Recs(s.current.value.blocks)
    requires Recs([]) == []
    ensures Ordered(Step(s, Supply))
  {
    hide Used, BlockSize, Bounded, Roomy, Unwritten, BufferRecs, Recs, BlockRecs, Cursor;
    var l, p, c := s.processed + Left(s.writing, s.spc), BufferRecs(s.pending), Recs(s.current.value.blocks);
    assert l + (p + c) + [] == l + p + c;
  }

  lemma PutOrder(s: State, block: Block)
    requires Ready(s) && Ordered(s) && Enabled(s, Put(block)) && Safe(s, Put(block))
    ensures Ordered(Step(s, Put(block)))
  {
    hide Used, BlockSize, Bounded, Roomy, Slots, Unwritten, BufferRecs, Recs, BlockRecs, Cursor;
    var blocks := s.current.value.blocks;
    PutRecs(blocks, block);
    Assoc(s.processed + Left(s.writing, s.spc) + BufferRecs(s.pending), Recs(blocks), BlockRecs(block, 0));
  }

  lemma PutRecs(blocks: seq<Block>, block: Block)
    ensures Recs(blocks + [block]) == Recs(blocks) + BlockRecs(block, 0)
  {
    RecsAppend(blocks, [block]);
    assert [block][1..] == [];
  }

  lemma RotateOrder(s: State, timeout: bool)
    requires Ready(s) && Ordered(s) && (s.spc.Top? || s.spc.Waiting?) && s.apc.Unlocked?
    ensures Ordered(Rotate(s, timeout))
  {
    var t := Rotate(s, timeout);
    OneBuffer(s.pending, s.current.value);
    FromTheTop(t.writing, 0);
    assert t.writing[0..] == t.writing;
    assert BufferRecs([]) == [];
    RotateLog(s, t);
  }

  lemma RotateLog(s: State, t: State)
    requires Slots(s) && Ordered(s) && (s.spc.Top? || s.spc.Waiting?)
    requires t.pending == [] && BufferRecs([]) == [] && Recs([]) == [] && t.current.Some?
    requires t.appended == s.appended && t.processed == s.processed
    requires (t.spc == Top && t.writing == []) || (t.spc == Writing(0, 0, 0) && Cursor(t.writing, 0, 0, 0))
    requires t.spc.Writing? ==> Unwritten(t.writing, 0, 0, 0) == BufferRecs(t.writing)
    requires (t.writing == s.pending && t.current == s.current)
          || (t.writing == s.pending + [s.current.value] && t.current.value.blocks == [])
    requires BufferRecs(s.pending + [s.current.value]) == BufferRecs(s.pending) + Recs(s.current.value.blocks)
    ensures Ordered(t)
  {
    hide Used, BlockSize, Unwritten, BufferRecs, Recs, BlockRecs, Cursor;
    var p, c := BufferRecs(s.pending), Recs(s.current.value.blocks);
    assert s.appended == s.processed + p + c;
    assert (s.processed + (p + c)) + [] + [] == s.processed + p + c;
    assert (s.processed + p) + [] + c == s.processed + p + c;
  }

  lemma WriteOrder(s: State)
    requires Ready(s) && Ordered(s) && Enabled(s, WriteNext) && Safe(s, WriteNext)
    ensures Ordered(Step(s, WriteNext))
  {
    hide Used, BlockSize, Bounded, Roomy, Slots, Unwritten, BufferRecs, Recs, BlockRecs;
    var Writing(b, k, e) := s.spc;
    if b == |s.writing| {
      UnwrittenEnd(s.writing);
    } else if k == |s.writing[b].blocks| {
      NextBuffer(s.writing, b, k, e);
    } else if e == |s.writing[b].blocks[k].entries| {
      NextBlock(s.writing, b, k);
    } else {
      WriteEntryOrder(s);
    }
  }

  lemma WriteEntryOrder(s: State)
    requires Ordered(s) && s.spc.Writing? && s.spc.b < |s.writing| && s.spc.k < |s.writing[s.spc.b].blocks|
    requires s.spc.e < |s.writing[s.spc.b].blocks[s.spc.k].entries|
    requires Safe(s, WriteNext)
    ensures Ordered(Step(s, WriteNext))
  {
    hide Used, BlockSize, Unwritten, BufferRecs, Recs, BlockRecs;
    var Writing(b, k, e) := s.spc;
    var block := s.writing[b].blocks[k];
    NextEntry(s.writing, b, k, e);
    Assoc(s.processed, [Rec(block.src, block.name, block.entries[e])], Unwritten(s.writing, b, k, e + 1));
  }

  // ---------------------------------------------------------------- every run

  lemma StepInv(s: State, a: Act)
    requires Inv(s) && Enabled(s, a)
    ensures Safe(s, a) && Inv(Step(s, a))
  {
    hide Bounded, Roomy, InOrder, CursorOk, Owners, Step, Safe, Enabled;
    EnabledIsSafe(s, a);
    StepReady(s, a);
    forall id: nat ensures Owners(Step(s, a), id) <= if id < Step(s, a).unused then 1 else 0 {
      StepOwners(s, a, id);
    }
    StepOrder(s, a);
  }

  /** The hand-over keeps the invariant from the top of an iteration as after a wait. */
  lemma RotateKeeps(s: State, timeout: bool)
    requires Inv(s) && (s.spc.Top? || s.spc.Waiting?) && s.apc.Unlocked?
    ensures s.current.Some? && Inv(Rotate(s, timeout))
  {
    hide Bounded, Roomy, InOrder, CursorOk, Owners, Rotate;
    RotateReady(s, timeout);
    RotateOrder(s, timeout);
    forall id: nat ensures Owners(Rotate(s, timeout), id) <= if id < Rotate(s, timeout).unused then 1 else 0 {
      RotateOwners(s, timeout, id);
    }
  }

  /** After a wait that timed out, all that has been appended is written or in the sink's hands,
      however little it is. */
  lemma TimeoutHandsOverAll(s: State)
    requires Inv(s) && s.spc.Waiting? && s.apc.Unlocked?
    ensures Enabled(s, Wake(true)) && Safe(s, Wake(true))
    ensures var t := Step(s, Wake(true));
      && t.appended == s.appended && t.processed == s.processed
      && t.appended == t.processed + BufferRecs(t.writing)
      && (t.spc == if t.writing == [] then Top else Writing(0, 0, 0))
  {
    EnabledIsSafe(s, Wake(true));
    HandsOver(s, true);
  }

  /** Otherwise, after a notified wait or if there was no need to wait, all full buffers are in the
      sink's hands, and the current one with them if it is more than 0.8 full, that is above
      107374182 bytes; if it is not, it stays, and its records alone are left behind. */
  lemma NotifiedHandsOver(s: State, a: Act)
    requires Inv(s) && s.apc.Unlocked?
    requires (a == Enter && s.spc.Top? && s.pending != []) || (a == Wake(false) && s.spc.Waiting?)
    ensures s.current.Some? && Enabled(s, a) && Safe(s, a)
    ensures var t, cur := Step(s, a), s.current.value;
      && t.appended == s.appended && t.processed == s.processed
      && (t.spc == if t.writing == [] then Top else Writing(0, 0, 0))
      && (if Used(cur.blocks) > 107_374_182 then
            t.appended == t.processed + BufferRecs(t.writing) && t.writing == s.pending + [cur]
          else
            t.appended == t.processed + BufferRecs(t.writing) + Recs(cur.blocks)
            && t.writing == s.pending && t.current == s.current)
  {
    EnabledIsSafe(s, a);
    HandsOver(s, false);
  }

  lemma HandsOver(s: State, timeout: bool)
    requires Inv(s) && (s.spc.Top? || s.spc.Waiting?) && s.apc.Unlocked?
    ensures s.current.Some? && var t, cur := Rotate(s, timeout), s.current.value;
      && t.appended == s.appended && t.processed == s.processed
      && (t.spc == if t.writing == [] then Top else Writing(0, 0, 0))
      && (if timeout || Used(cur.blocks) > 107_374_182 then t.appended == t.processed + BufferRecs(t.writing)
          else t.appended == t.processed + BufferRecs(t.writing) + Recs(cur.blocks))
      && (!timeout ==> if Used(cur.blocks) > 107_374_182 then t.writing == s.pending + [cur]
                       else t.writing == s.pending && t.current == s.current)
  {
    hide Bounded, Roomy, Unique, Used, BufferRecs, Recs;
    var cur := s.current.value;
    OneBuffer(s.pending, cur);
    NothingUsed(cur.blocks);
    var p, c := BufferRecs(s.pending), Recs(cur.blocks);
    assert s.appended == s.processed + p + c by {
      assert s.processed + [] + p + c == s.processed + p + c;
    }
    Assoc(s.processed, p, c);
    assert c == [] ==> s.processed + p + c == s.processed + p;
  }

  /** An empty buffer holds no records. */
  lemma NothingUsed(blocks: seq<Block>)
    ensures Used(blocks) == 0 ==> Recs(blocks) == []
  {
  }

  /** Writing all buffers at once is the same as record by record. */
  lemma AllWritten(s: State)
    requires Inv(s) && s.spc == Writing(0, 0, 0)
    ensures Inv(s.(processed := s.processed + BufferRecs(s.writing), spc := Trimming))
  {
    hide Owners, BufferRecs, Recs, Unwritten, Used, InOrder, Unique;
    var t := s.(processed := s.processed + BufferRecs(s.writing), spc := Trimming);
    AllWrittenOrder(s, t);
    SameOwners(s, t);
  }

  lemma AllWrittenOrder(s: State, t: State)
    requires Slots(s) && s.spc == Writing(0, 0, 0) && CursorOk(s.writing, s.spc) && InOrder(s)
    requires t == s.(processed := s.processed + BufferRecs(s.writing), spc := Trimming)
    ensures CursorOk(t.writing, t.spc) && InOrder(t)
  {
    FromTheTop(s.writing, 0);
    assert s.writing[0..] == s.writing;
    hide BufferRecs, Recs, Unwritten, Cursor;
    assert t.processed + [] == t.processed;
  }

  lemma SameOwners(s: State, t: State)
    requires t == s.(processed := t.processed, spc := t.spc) && Unique(s)
    ensures Unique(t)
  {
    forall id: nat ensures Owners(t, id) == Owners(s, id) {}
  }

  lemma TopSpares(s: State)
    requires Inv(s) && s.spc.Top?
    ensures EmptySpare(s.spare1) && EmptySpare(s.spare2) && s.writing == []
  {
  }

  ghost predicate Run(s: State, acts: seq<Act>, t: State)
    decreases |acts|
  {
    if acts == [] then s == t
    else Enabled(s, acts[0]) && Safe(s, acts[0]) && Run(Step(s, acts[0]), acts[1..], t)
  }

  lemma {:induction false} RunInv(s: State, acts: seq<Act>, t: State)
    requires Inv(s) && Run(s, acts, t)
    ensures Inv(t)
    decreases |acts|
  {
    hide Inv, Step, Safe, Enabled;
    if acts != [] {
      StepInv(s, acts[0]);
      RunInv(Step(s, acts[0]), acts[1..], t);
    }
  }

  lemma WrittenPrefix(s: State)
    requires Inv(s)
    ensures s.processed <= s.appended
  {
  }

  /** Whatever the two threads do, the records written so far are a prefix of the records appended
      so far: none lost, doubled or reordered. */
  lemma WrittenInOrder(s: State, acts: seq<Act>, t: State)
    requires Init(s) && Run(s, acts, t)
    ensures t.processed <= t.appended
  {
    InitInv(s);
    RunInv(s, acts, t);
  }

  // ---------------------------------------------------------------- one iteration of the sink thread

  /** Within one iteration after a timeout the sink thread alone writes all that has been appended,
      and comes back to the top with the counter reset. */
  lemma FlushIsRun(s: State) returns (acts: seq<Act>, t: State)
    requires Inv(s) && s.spc.Waiting? && s.apc.Unlocked?
    ensures Run(s, [Wake(true)] + acts, t) && BySinkAlone(acts)
    ensures t.spc.Top? && t.appended == s.appended && t.processed == s.appended && (acts != [] ==> t.count == 0)
    ensures t.pending == [] && t.apc.Unlocked?
  {
    hide Inv, Run, Step, Enabled, Safe, BufferRecs;
    TimeoutHandsOverAll(s);
    StepInv(s, Wake(true));
    var u := Step(s, Wake(true));
    NothingPending(s, true);
    if u.writing == [] {
      acts, t := [], u;
      NoRecords();
      assert u.processed + [] == u.processed;
      NoStep(u);
    } else {
      acts, t := FinishIsRun(u);
    }
    OneMore(s, Wake(true), u, acts, t);
  }

  lemma NothingPending(s: State, timeout: bool)
    requires Inv(s) && (s.spc.Top? || s.spc.Waiting?) && s.apc.Unlocked?
    ensures s.current.Some? && Rotate(s, timeout).pending == [] && Rotate(s, timeout).apc.Unlocked?
    ensures s.spc.Waiting? ==>
      Enabled(s, Wake(timeout)) && Safe(s, Wake(timeout)) && Step(s, Wake(timeout)) == Rotate(s, timeout)
  {
    hide Bounded, Roomy, Unique, InOrder, Used;
  }

  /** From the hand-over to the top: all that is to be written is written, and the counter reset. */
  lemma FinishIsRun(s: State) returns (acts: seq<Act>, t: State)
    requires Inv(s) && s.spc == Writing(0, 0, 0)
    ensures Run(s, acts, t) && BySinkAlone(acts)
    ensures t == s.(processed := s.processed + BufferRecs(s.writing), spc := Top, count := 0, writing := [],
                    spare1 := t.spare1, spare2 := t.spare2)
  {
    hide Inv, Run, Step, Enabled, Safe, BufferRecs;
    FromTheTop(s.writing, 0);
    assert s.writing[0..] == s.writing;
    var write, v := WritingIsRun(s, 0, 0, 0);
    RunInv(s, write, v);
    t := RecyclingIsRun(v);
    var recycle := [Trim, ResetCount, Refill1, Refill2, Clear];
    RunConcat(s, write, v, recycle, t);
    acts := write + recycle;
  }

  predicate BySinkAlone(acts: seq<Act>) {
    forall i | 0 <= i < |acts| :: !acts[i].Admit? && !acts[i].Supply? && !acts[i].Put?
  }

  lemma NoRecords()
    ensures BufferRecs([]) == []
  {
  }

  lemma OneMore(s: State, a: Act, u: State, acts: seq<Act>, t: State)
    requires Enabled(s, a) && Safe(s, a) && u == Step(s, a) && Run(u, acts, t)
    ensures Run(s, [a] + acts, t)
  {
    hide Enabled, Safe, Step;
    assert ([a] + acts)[1..] == acts;
  }

  lemma {:induction false} RunConcat(s: State, a: seq<Act>, t: State, b: seq<Act>, u: State)
    requires Run(s, a, t) && Run(t, b, u)
    ensures Run(s, a + b, u)
    decreases |a|
  {
    hide Safe, Step, Enabled;
    if a == [] {
      assert a + b == b;
    } else {
      RunConcat(Step(s, a[0]), a[1..], t, b, u);
      assert (a + b)[0] == a[0] && (a + b)[1..] == a[1..] + b;
    }
  }

  /** The three nested loops from where they stand to their end. */
  lemma {:induction false} WritingIsRun(s: State, b: nat, k: nat, e: nat) returns (acts: seq<Act>, t: State)
    requires s.spc == Writing(b, k, e) && Cursor(s.writing, b, k, e) && b <= |s.writing|
    ensures Run(s, acts, t) && BySinkAlone(acts)
    ensures t == s.(processed := s.processed + Unwritten(s.writing, b, k, e), spc := Trimming)
    decreases |s.writing| - b,
              if b < |s.writing| then |s.writing[b].blocks| - k else 0,
              if b < |s.writing| && k < |s.writing[b].blocks| then |s.writing[b].blocks[k].entries| - e else 0
  {
    hide Unwritten;
    var u := WriteStep(s, b, k, e);
    var rest := [];
    if b == |s.writing| {
      t := u;
    } else if k == |s.writing[b].blocks| {
      rest, t := WritingIsRun(u, b + 1, 0, 0);
    } else if e == |s.writing[b].blocks[k].entries| {
      rest, t := WritingIsRun(u, b, k + 1, 0);
    } else {
      rest, t := WritingIsRun(u, b, k, e + 1);
      var block := s.writing[b].blocks[k];
      Assoc(s.processed, [Rec(block.src, block.name, block.entries[e])], Unwritten(s.writing, b, k, e + 1));
    }
    hide Step, Enabled, Safe;
    OneMore(s, WriteNext, u, rest, t);
    acts := [WriteNext] + rest;
  }

  lemma WriteStep(s: State, b: nat, k: nat, e: nat) returns (u: State)
    requires s.spc == Writing(b, k, e) && Cursor(s.writing, b, k, e) && b <= |s.writing|
    ensures Enabled(s, WriteNext) && Safe(s, WriteNext) && u == Step(s, WriteNext)
    ensures
      if b == |s.writing| then
        Unwritten(s.writing, b, k, e) == [] && u == s.(spc := Trimming, processed := s.processed + [])
      else if k == |s.writing[b].blocks| then
        && u == s.(spc := Writing(b + 1, 0, 0)) && Cursor(s.writing, b + 1, 0, 0)
        && Unwritten(s.writing, b, k, e) == Unwritten(s.writing, b + 1, 0, 0)
      else if e == |s.writing[b].blocks[k].entries| then
        && u == s.(spc := Writing(b, k + 1, 0)) && Cursor(s.writing, b, k + 1, 0)
        && Unwritten(s.writing, b, k, e) == Unwritten(s.writing, b, k + 1, 0)
      else
        var block := s.writing[b].blocks[k];
        var rec := [Rec(block.src, block.name, block.entries[e])];
        && u == s.(spc := Writing(b, k, e + 1), processed := s.processed + rec) && Cursor(s.writing, b, k, e + 1)
        && Unwritten(s.writing, b, k, e) == rec + Unwritten(s.writing, b, k, e + 1)
  {
    u := Step(s, WriteNext);
    if b == |s.writing| {
      assert s.processed + [] == s.processed;
    } else if k == |s.writing[b].blocks| {
      NextBuffer(s.writing, b, k, e);
    } else if e == |s.writing[b].blocks[k].entries| {
      NextBlock(s.writing, b, k);
    } else {
      NextEntry(s.writing, b, k, e);
    }
  }

  /** The rest of an iteration, whose asserts hold: both spares are there and empty at its end. */
  lemma RecyclingIsRun(s: State) returns (t: State)
    requires Inv(s) && s.spc.Trimming?
    ensures Run(s, [Trim, ResetCount, Refill1, Refill2, Clear], t)
    ensures t == s.(spc := Top, count := 0, writing := [], spare1 := t.spare1, spare2 := t.spare2)
    ensures EmptySpare(t.spare1) && EmptySpare(t.spare2)
  {
    hide Inv;
    var acts := [Trim, ResetCount, Refill1, Refill2, Clear];
    StepInv(s, Trim);
    var s1 := Step(s, Trim);
    StepInv(s1, ResetCount);
    var s2 := Step(s1, ResetCount);
    StepInv(s2, Refill1);
    var s3 := Step(s2, Refill1);
    StepInv(s3, Refill2);
    var s4 := Step(s3, Refill2);
    StepInv(s4, Clear);
    t := Step(s4, Clear);
    TopSpares(t);
    hide Step, Enabled, Safe, Run, EmptySpare;
    NoStep(t);
    OneMore(s4, Clear, t, [], t);
    OneMore(s3, Refill2, s4, [Clear] + [], t);
    OneMore(s2, Refill1, s3, [Refill2] + ([Clear] + []), t);
    OneMore(s1, ResetCount, s2, [Refill1] + ([Refill2] + ([Clear] + [])), t);
    OneMore(s, Trim, s1, [ResetCount] + ([Refill1] + ([Refill2] + ([Clear] + []))), t);
    assert acts == [Trim] + ([ResetCount] + ([Refill1] + ([Refill2] + ([Clear] + []))));
  }

  lemma NoStep(t: State)
    ensures Run(t, [], t)
  {
  }

  /** The asserts of `threadFunc` never fail, no null buffer is dereferenced and every block fits;
      in particular at the top of every iteration both spare buffers are there and empty. */
  lemma NoAssertFails(s: State, acts: seq<Act>, t: State)
    requires Init(s) && Run(s, acts, t)
    ensures t.current.Some? && forall a | Enabled(t, a) :: Safe(t, a)
    ensures t.spc.Top? ==> EmptySpare(t.spare1) && EmptySpare(t.spare2) && t.writing == []
  {
    InitInv(s);
    RunInv(s, acts, t);
    forall a | Enabled(t, a) ensures Safe(t, a) { EnabledIsSafe(t, a); }
  }

  /** No buffer is ever owned by two slots. */
  lemma OneOwner(s: State, acts: seq<Act>, t: State)
    requires Init(s) && Run(s, acts, t)
    ensures forall id: nat :: Owners(t, id) <= 1
  {
    InitInv(s);
    RunInv(s, acts, t);
  }

  /** The pending list stays bounded although the counter is reset outside the mutex: at most one
      buffer for `nextBuffer_` and two rounds of supplements, plus the one the sink hands over. */
  lemma PendingIsBounded(s: State, acts: seq<Act>, t: State)
    requires Init(s) && Run(s, acts, t)
    ensures t.count <= SUPPLEMENT_MAXIMUM
    ensures |t.pending| <= 2 * SUPPLEMENT_MAXIMUM + 1
    ensures |t.writing| <= 2 * SUPPLEMENT_MAXIMUM + 2
  {
    InitInv(s);
    RunInv(s, acts, t);
  }

  // ---------------------------------------------------------------- where blocks come from

  ghost predicate InSlot(b: Option<Buffer>, x: Block) { b.Some? && x in b.value.blocks }

  ghost predicate InSlots(bs: seq<Buffer>, x: Block) { exists i | 0 <= i < |bs| :: x in bs[i].blocks }

  /** The block is in one of the buffers. */
  ghost predicate Kept(s: State, x: Block) {
    || InSlot(s.current, x) || InSlot(s.next, x) || InSlot(s.spare1, x) || InSlot(s.spare2, x)
    || InSlots(s.pending, x) || InSlots(s.writing, x)
  }

  lemma InSlotsOneMore(bs: seq<Buffer>, b: Buffer, x: Block)
    ensures InSlots(bs + [b], x) <==> InSlots(bs, x) || x in b.blocks
  {
    if InSlots(bs, x) {
      var i :| 0 <= i < |bs| && x in bs[i].blocks;
      assert (bs + [b])[i] == bs[i];
    }
    if x in b.blocks { assert (bs + [b])[|bs|] == b; }
    if InSlots(bs + [b], x) {
      var i :| 0 <= i < |bs| + 1 && x in (bs + [b])[i].blocks;
      assert i < |bs| ==> (bs + [b])[i] == bs[i];
    }
  }

  lemma InSlotsFewer(bs: seq<Buffer>, n: nat, x: Block)
    requires n <= |bs| && InSlots(bs[..n], x)
    ensures InSlots(bs, x)
  {
    var i :| 0 <= i < n && x in bs[..n][i].blocks;
    assert bs[i] == bs[..n][i];
  }

  /** Only a `Put` brings a block into the buffers. */
  lemma StepKept(s: State, a: Act, x: Block)
    requires Enabled(s, a) && Safe(s, a) && Kept(Step(s, a), x)
    ensures Kept(s, x) || a == Put(x)
  {
    hide InSlots, Used, Recs, BlockRecs, BlockSize;
    match a
    case Admit(size) => InSlotsOneMore(s.pending, s.current.value, x);
    case Supply => InSlotsOneMore(s.pending, s.current.value, x);
    case Put(block) =>
    case Enter => if s.pending != [] { RotateKept(s, false, x); }
    case Wake(timeout) => RotateKept(s, timeout, x);
    case Clear => assert !InSlots([], x) by { NoSlots(x); }
    case _ => WriterKept(s, a, x);
  }

  lemma NoSlots(x: Block)
    ensures !InSlots([], x)
  {
  }

  lemma RotateKept(s: State, timeout: bool, x: Block)
    requires s.current.Some? && Kept(Rotate(s, timeout), x)
    ensures Kept(s, x)
  {
    hide InSlots, Used;
    InSlotsOneMore(s.pending, s.current.value, x);
  }

  lemma WriterKept(s: State, a: Act, x: Block)
    requires Enabled(s, a) && Safe(s, a) && Kept(Step(s, a), x)
    requires a.WriteNext? || a.Trim? || a.ResetCount? || a.Refill1? || a.Refill2? || a.Stop?
    ensures Kept(s, x)
  {
    hide InSlots, Used, BlockSize;
    var t := Step(s, a);
    if InSlots(t.writing, x) && t.writing != s.writing {
      assert t.writing == s.writing[..|t.writing|];
      InSlotsFewer(s.writing, |t.writing|, x);
    }
  }
}
