/** The whole pipeline: any number of logging threads with a staging ring each, the poller that
    visits the rings and appends what it finds to the sink buffers, and the sink thread. */
module EndToEnd {
  import opened Bytes
  import opened LogBlocks
  import opened Sequences
  import R = StagingRing
  import K = SinkBuffering

  /** Where `poll_` is with the ring at index `i` of `threadBuffers`. */
  datatype PollPc =
    | Asleep      // between two rounds, bufferMutex free
    | Scan        // about to peek at the i-th ring, or past the last one
    | Peeking     // in peek, before the load of the recorded end
    | Rolling     // in peek, before the roll-over
    | Empty       // peek found nothing: may the ring be deleted?
    | Offer       // in append, looking for a buffer with room; bufferMutex free
    | Fill        // in appendInternal, copying and releasing chunks
    | Place       // all copied, about to leave the mutex

  /** `threads` are all the rings there ever were, with the name of their thread and whether that
      thread has ended; `live` is `threadBuffers`.  `placed` counts, for each ring, the entries
      that are in a sink buffer. */
  datatype Thread = Thread(ring: R.State, name: seq<byte>, ended: bool, placed: nat)

  datatype State = State(threads: seq<Thread>, live: seq<nat>, i: nat, ppc: PollPc, sink: K.State)

  predicate Init(s: State) {
    s.threads == [] && s.live == [] && s.i == 0 && s.ppc == Asleep && K.Init(s.sink)
  }

  datatype Act =
    | Spawn(ring: R.State, name: seq<byte>)
    | Log(t: nat, a: R.Act)            // a step of a logging thread
    | Exit(t: nat)
    | Sink(k: K.Act)                   // a step of the sink thread
    // poller
    | StartRound
    | EndRound
    | Peek(a: R.Act)
    | CheckDelete
    | Admit
    | Supply
    | Copy(a: R.Act)
    | Put

  predicate ByProducer(a: R.Act) {
    a.Reserve? || a.LoadC? || a.PutEnd? || a.PutWrap? || a.PutFree? || a.WriteByte? || a.Commit? || a.Shrink?
  }

  predicate BySink(k: K.Act) { !k.Admit? && !k.Supply? && !k.Put? }

  /** The poller's index denotes a ring. */
  predicate AtRing(s: State) { s.i < |s.live| && s.live[s.i] < |s.threads| && R.Shape(s.threads[s.live[s.i]].ring) }

  function At(s: State): nat requires AtRing(s) { s.live[s.i] }
  function Ring(s: State): R.State requires AtRing(s) { s.threads[At(s)].ring }

  /** The ring's consumer stands where the poller is about to make this step of it. */
  predicate Ready(ring: R.State, b: R.Act) {
    match b
    case LoadP(_) => ring.cpc.Polling?
    case LoadE(_) => ring.cpc.LoadEnd?
    case Roll => ring.cpc.RollOver?
    case _ => ring.cpc.Copying?
  }

  /** The choices that are open in a step of the poller's ring: which value a load returns, and
      whether the chunk in hand is complete. */
  predicate Open(s: State, b: R.Act) {
    AtRing(s) && Ready(Ring(s), b) ==> R.Enabled(Ring(s), b)
  }

  /** The steps the programs can take next.  Only where each thread stands, who holds a mutex and
      the tests in the code decide; whether the step is a sound one is `Safe`. */
  predicate Enabled(s: State, a: Act) {
    match a
    case Spawn(ring, name) => (s.ppc.Asleep? || s.ppc.Offer? || s.ppc.Fill? || s.ppc.Place?) && R.Init(ring)
    case Log(t, b) =>
      t < |s.threads| && !s.threads[t].ended && ByProducer(b)
      && (R.Shape(s.threads[t].ring) ==> R.Enabled(s.threads[t].ring, b))
    case Exit(t) => t < |s.threads| && s.threads[t].ring.ppc.Outside?
    case Sink(k) => BySink(k) && K.Enabled(s.sink, k)
    case StartRound => s.ppc.Asleep?
    case EndRound => s.ppc.Scan? && s.i >= |s.live|
    case Peek(b) =>
      && ((s.ppc.Scan? && s.i < |s.live| && b.LoadP?) || (s.ppc.Peeking? && b.LoadE?) || (s.ppc.Rolling? && b.Roll?))
      && Open(s, b)
    case CheckDelete => s.ppc.Empty?
    case Admit => s.ppc.Offer? && s.sink.apc.Unlocked?
    case Supply => s.ppc.Offer? && s.sink.apc.Supplement?
    case Copy(b) => s.ppc.Fill? && (b.CopyByte? || b.Release?) && Open(s, b)
    case Put => s.ppc.Place?
  }

  /** Entry number `n` of a ring, read from `bytes`, which hold the ring's stream from its start. */
  function Entry(bytes: seq<byte>, ends: seq<nat>, n: nat): seq<byte>
    requires n + 1 < |ends| && ends[n] <= ends[n + 1] <= |bytes|
  {
    bytes[ends[n]..ends[n + 1]]
  }

  predicate Cut(bytes: seq<byte>, ends: seq<nat>, from: nat, to: nat) {
    && from <= to < |ends| && ends[to] <= |bytes|
    && forall m, n | from <= m <= n <= to :: ends[m] <= ends[n]
  }

  function Entries(bytes: seq<byte>, ends: seq<nat>, from: nat, to: nat): seq<seq<byte>>
    requires Cut(bytes, ends, from, to)
  {
    seq(to - from, n requires 0 <= n < to - from => Entry(bytes, ends, from + n))
  }

  /** The block the poller has just copied out of its ring. */
  function Copied(s: State): Block
    requires AtRing(s) && Cut(Ring(s).delivered, Ring(s).ends, s.threads[At(s)].placed, Ring(s).taken)
  {
    var th := s.threads[At(s)];
    Block(At(s), th.name, Entries(th.ring.delivered, th.ring.ends, th.placed, th.ring.taken))
  }

  /** What each step needs to be harmless: an index that denotes a ring, the ring and the sink
      where the step expects them, a span that fits, and what the two subsystems ask for. */
  predicate Safe(s: State, a: Act)
    requires Enabled(s, a)
  {
    match a
    case Log(t, b) =>
      var ring := s.threads[t].ring;
      R.Shape(ring) && R.Enabled(ring, b) && R.Safe(ring, b)
    case Sink(k) => K.Safe(s.sink, k)
    case Peek(b) => AtRing(s) && R.Enabled(Ring(s), b) && R.Safe(Ring(s), b)
    case CheckDelete => AtRing(s)
    case Admit =>
      AtRing(s) && Ring(s).cpc.Copying? && Ring(s).cpc.remaining <= R.STAGING_BUFFER_SIZE
      && K.Safe(s.sink, K.Admit(Ring(s).cpc.remaining))
    case Supply => K.Safe(s.sink, K.Supply)
    case Copy(b) => AtRing(s) && R.Enabled(Ring(s), b) && R.Safe(Ring(s), b)
    case Put =>
      && AtRing(s) && s.sink.apc.Filling?
      && Cut(Ring(s).delivered, Ring(s).ends, s.threads[At(s)].placed, Ring(s).taken)
      && K.Enabled(s.sink, K.Put(Copied(s))) && K.Safe(s.sink, K.Put(Copied(s)))
    case _ => true
  }

  function SetRing(s: State, t: nat, ring: R.State): State
    requires t < |s.threads|
  {
    s.(threads := s.threads[t := s.threads[t].(ring := ring)])
  }

  /** Where a step of `peek` leaves the poller. */
  function AfterPeek(cpc: R.ConsumerPc): PollPc {
    match cpc
    case Polling => Empty
    case LoadEnd(_) => Peeking
    case RollOver(_) => Rolling
    case Copying(_, _, _, _) => Offer
  }

  function Step(s: State, a: Act): State
    requires Enabled(s, a) && Safe(s, a)
  {
    match a
    case Spawn(ring, name) =>
      s.(threads := s.threads + [Thread(ring, name, false, 0)], live := s.live + [|s.threads|])
    case Log(t, b) => SetRing(s, t, R.Step(s.threads[t].ring, b))
    case Exit(t) => s.(threads := s.threads[t := s.threads[t].(ended := true)])
    case Sink(k) => s.(sink := K.Step(s.sink, k))
    case StartRound => s.(ppc := Scan, i := 0)
    case EndRound => s.(ppc := Asleep)
    case Peek(b) =>
      var ring := R.Step(Ring(s), b);
      SetRing(s, At(s), ring).(ppc := AfterPeek(ring.cpc))
    case CheckDelete =>
      if s.threads[s.live[s.i]].ended then s.(live := s.live[..s.i] + s.live[s.i + 1..], ppc := Scan)
      else s.(i := s.i + 1, ppc := Scan)
    case Admit =>
      var sink := K.Step(s.sink, K.Admit(Ring(s).cpc.remaining));
      s.(sink := sink, ppc := if sink.apc.Filling? then Fill else Offer)
    case Supply => s.(sink := K.Step(s.sink, K.Supply), ppc := Fill)
    case Copy(b) =>
      var ring := R.Step(Ring(s), b);
      SetRing(s, At(s), ring).(ppc := if ring.cpc.Polling? then Place else Fill)
    case Put =>
      var t := At(s);
      var th := s.threads[t];
      s.(sink := K.Step(s.sink, K.Put(Copied(s))),
         threads := s.threads[t := th.(placed := th.ring.taken)],
         i := s.i + 1, ppc := Scan)
  }

  // ---------------------------------------------------------------- the invariant

  /** The entries of thread `t` among `rs`, in their order. */
  function Of(rs: seq<Rec>, t: nat): seq<seq<byte>> {
    if rs == [] then [] else Of(rs[..|rs| - 1], t) + (if rs[|rs| - 1].src == t then [rs[|rs| - 1].entry] else [])
  }

  lemma {:induction false} OfAppend(a: seq<Rec>, b: seq<Rec>, t: nat)
    ensures Of(a + b, t) == Of(a, t) + Of(b, t)
  {
    if b == [] {
      assert a + b == a;
    } else {
      var n := |b| - 1;
      assert (a + b)[..|a| + n] == a + b[..n] && (a + b)[|a| + n] == b[n];
      OfAppend(a, b[..n], t);
      Assoc(Of(a, t), Of(b[..n], t), if b[n].src == t then [b[n].entry] else []);
    }
  }

  lemma {:induction false} OfBlock(b: Block, e: nat, t: nat)
    requires e <= |b.entries|
    ensures Of(BlockRecs(b, e), t) == if b.src == t then b.entries[e..] else []
    decreases |b.entries| - e
  {
    hide Of, BlockRecs;
    if e == |b.entries| {
      OfNothing(b, t);
    } else {
      var r := Rec(b.src, b.name, b.entries[e]);
      BlockRecsCons(b, e);
      OfAppend([r], BlockRecs(b, e + 1), t);
      OfOne(r, t);
      OfBlock(b, e + 1, t);
      assert b.entries[e..] == [b.entries[e]] + b.entries[e + 1..];
    }
  }

  lemma OfNothing(b: Block, t: nat)
    ensures Of(BlockRecs(b, |b.entries|), t) == []
  {
    assert BlockRecs(b, |b.entries|) == [];
  }

  lemma OfOne(r: Rec, t: nat)
    ensures Of([r], t) == if r.src == t then [r.entry] else []
  {
    assert [r][..0] == [];
  }

  /** The bytes of consecutive entries are the stretch of the stream they cover. */
  lemma {:induction false} FlattenEntries(bytes: seq<byte>, ends: seq<nat>, from: nat, to: nat)
    requires Cut(bytes, ends, from, to) && ends[from] <= |bytes|
    ensures ends[from] <= ends[to] && Flatten(Entries(bytes, ends, from, to)) == bytes[ends[from]..ends[to]]
    decreases |ends| - from
  {
    var es := Entries(bytes, ends, from, to);
    if from == to {
      assert es == [];
    } else {
      FlattenEntries(bytes, ends, from + 1, to);
      assert es[1..] == Entries(bytes, ends, from + 1, to);
      assert es[0] == Entry(bytes, ends, from + 0);
      assert bytes[ends[from]..ends[to]] == es[0] + bytes[ends[from + 1]..ends[to]];
    }
  }

  /** What a thread has placed is exactly its first `placed` committed entries. */
  ghost predicate Placed(th: Thread, t: nat, appended: seq<Rec>) {
    && Cut(th.ring.stream, th.ring.ends, 0, th.placed)
    && Of(appended, t) == Entries(th.ring.stream, th.ring.ends, 0, th.placed)
  }

  /** A ring the poller is not busy with: everything taken from it is placed. */
  predicate Idle(th: Thread) { th.ring.cpc.Polling? && th.placed == th.ring.taken }

  /** The consumer has taken everything up to the position it loaded last. */
  ghost predicate CaughtUp(ring: R.State)
    requires R.Shape(ring)
  {
    R.C(ring).idx == ring.pubs[ring.seenP].pos.idx
  }

  /** The ring the poller is busy with. */
  ghost predicate Busy(th: Thread, ppc: PollPc, apc: K.AppendPc)
    requires R.Shape(th.ring)
  {
    var w := th.ring.cpc;
    match ppc
    case Peeking => w.LoadEnd? && th.placed == th.ring.taken && apc.Unlocked?
    case Rolling => w.RollOver? && th.placed == th.ring.taken && apc.Unlocked?
    case Offer =>
      && w.Copying? && th.placed == th.ring.taken && w.upTo < |th.ring.ends|
      && th.ring.ends[th.placed] + w.remaining == th.ring.ends[w.upTo] && w.remaining <= R.STAGING_BUFFER_SIZE
      && (apc.Unlocked? || apc == K.Supplement(w.remaining))
    case Fill =>
      && w.Copying? && th.placed == th.ring.taken && w.upTo < |th.ring.ends|
      && apc.Filling? && th.ring.ends[th.placed] + apc.size == th.ring.ends[w.upTo]
    case Place =>
      && w.Polling? && th.placed <= th.ring.taken
      && apc.Filling? && th.ring.ends[th.placed] + apc.size == th.ring.ends[th.ring.taken]
    case Empty => Idle(th) && apc.Unlocked? && CaughtUp(th.ring)
    case _ => Idle(th) && apc.Unlocked?
  }

  predicate AtWork(ppc: PollPc) {
    ppc.Peeking? || ppc.Rolling? || ppc.Empty? || ppc.Offer? || ppc.Fill? || ppc.Place?
  }

  ghost predicate Rings(s: State) {
    forall t | 0 <= t < |s.threads| :: R.Inv(s.threads[t].ring) && Placed(s.threads[t], t, s.sink.appended)
  }

  ghost predicate Live(s: State) {
    && (forall j | 0 <= j < |s.live| :: s.live[j] < |s.threads|)
    && (AtWork(s.ppc) ==> s.i < |s.live|)
  }

  ghost predicate Work(s: State)
    requires Live(s) && Rings(s)
  {
    && (forall t | 0 <= t < |s.threads| ::
          Idle(s.threads[t]) || (AtWork(s.ppc) && t == s.live[s.i]))
    && (if AtWork(s.ppc) then Busy(s.threads[s.live[s.i]], s.ppc, s.sink.apc) else s.sink.apc.Unlocked?)
  }

  /** Records of unknown threads do not exist. */
  ghost predicate Known(s: State) {
    forall t: nat | t >= |s.threads| :: Of(s.sink.appended, t) == []
  }

  ghost predicate Inv(s: State) {
    Live(s) && Rings(s) && Work(s) && Known(s) && K.Inv(s.sink)
  }

  // ---- what the subsystems guarantee

  lemma ProducerFrame(s: R.State, a: R.Act)
    requires R.Inv(s) && R.Enabled(s, a) && R.Safe(s, a) && ByProducer(a)
    ensures var t := R.Step(s, a);
      && R.Shape(t) && t.cpc == s.cpc && t.taken == s.taken && t.delivered == s.delivered
      && s.stream <= t.stream && s.ends <= t.ends && (CaughtUp(t) <==> CaughtUp(s))
  {
    hide R.Content, R.Pubs, R.PubsSorted, R.Bumps, R.BumpsSorted, R.Sorted, R.ProducerOk, R.ConsumerOk;
  }

  lemma ConsumerFrame(s: R.State, a: R.Act)
    requires R.Inv(s) && R.Enabled(s, a) && R.Safe(s, a) && !ByProducer(a)
    ensures var t := R.Step(s, a);
      && R.Shape(t) && t.stream == s.stream && t.ends == s.ends
      && (t.taken == s.taken || (a.Release? && t.cpc.Polling? && s.cpc.Copying? && t.taken == s.cpc.upTo))
  {
    hide R.Content, R.Pubs, R.PubsSorted, R.Bumps, R.BumpsSorted, R.Sorted, R.ProducerOk, R.ConsumerOk;
  }

  /** Between two peeks the copied bytes are exactly the first `taken` entries. */
  lemma PollingRing(s: R.State)
    requires R.Inv(s) && s.cpc.Polling?
    ensures s.ends[s.taken] == |s.delivered| && s.delivered <= s.stream
    ensures Cut(s.delivered, s.ends, 0, s.taken)
  {
  }

  /** Entries read from a longer stream, with more ends, are the same entries. */
  lemma SameEntries(bytes: seq<byte>, ends: seq<nat>, bytes': seq<byte>, ends': seq<nat>, from: nat, to: nat)
    requires Cut(bytes, ends, from, to) && bytes <= bytes' && ends <= ends'
    ensures Cut(bytes', ends', from, to) && Entries(bytes, ends, from, to) == Entries(bytes', ends', from, to)
  {
    forall m, n | from <= m <= n <= to ensures ends'[m] <= ends'[n] {
      assert ends[m] <= ends[n];
    }
    forall n | 0 <= n < to - from ensures Entries(bytes, ends, from, to)[n] == Entries(bytes', ends', from, to)[n] {
      assert ends[from + n] <= ends[from + n + 1] <= ends[to];
      assert ends'[from + n] == ends[from + n] && ends'[from + n + 1] == ends[from + n + 1];
      assert bytes[ends[from + n]..ends[from + n + 1]] == bytes'[ends[from + n]..ends[from + n + 1]];
      assert Entry(bytes, ends, from + n) == Entry(bytes', ends', from + n);
    }
  }

  lemma Extend(th: Thread, ring: R.State, t: nat, appended: seq<Rec>)
    requires Placed(th, t, appended) && th.ring.stream <= ring.stream && th.ring.ends <= ring.ends
    ensures Placed(th.(ring := ring), t, appended)
  {
    SameEntries(th.ring.stream, th.ring.ends, ring.stream, ring.ends, 0, th.placed);
  }

  lemma SinkFrame(k: K.State, a: K.Act)
    requires K.Enabled(k, a) && K.Safe(k, a) && BySink(a)
    ensures K.Step(k, a).appended == k.appended && K.Step(k, a).apc == k.apc
  {
    hide Recs, Used;
  }

  lemma AppendFrame(k: K.State, a: K.Act)
    requires K.Enabled(k, a) && K.Safe(k, a) && (a.Admit? || a.Supply?)
    ensures var t := K.Step(k, a);
      && t.appended == k.appended
      && (a.Admit? ==> t.apc == K.Unlocked || t.apc == K.Supplement(a.size) || t.apc == K.Filling(a.size))
      && (a.Supply? ==> t.apc == K.Filling(k.apc.size))
  {
    hide Recs, Used;
  }

  // ---- every step

  lemma InitInv(s: State)
    requires Init(s)
    ensures Inv(s)
  {
    K.InitInv(s.sink);
    hide K.Inv, K.Init, R.Inv, Placed, Of, Busy, Idle;
    InitSink(s.sink);
  }

  lemma InitSink(k: K.State)
    requires K.Init(k)
    ensures k.appended == [] && k.apc.Unlocked?
  {
  }

  /** A step that only replaces thread `t` by `th`, and perhaps changes the poller's pc. */
  lemma ThreadStep(s: State, u: State, t: nat, th: Thread)
    requires Inv(s) && t < |s.threads| && u == s.(threads := s.threads[t := th], ppc := u.ppc)
    requires R.Inv(th.ring) && Placed(th, t, s.sink.appended)
    requires AtWork(u.ppc) ==> s.i < |s.live|
    requires if AtWork(u.ppc) && s.live[s.i] == t then Busy(th, u.ppc, s.sink.apc)
             else u.ppc == s.ppc && Idle(th)
    requires AtWork(s.ppc) && !AtWork(u.ppc) ==> s.live[s.i] == t
    requires !AtWork(s.ppc) && AtWork(u.ppc) ==> s.live[s.i] == t
    ensures Inv(u)
  {
    hide R.Inv, K.Inv, Placed, Of, R.Shape;
    assert Live(u);
    assert Rings(u);
  }

  lemma RingThere(s: State, t: nat)
    requires Inv(s) && t < |s.threads|
    ensures R.Inv(s.threads[t].ring) && R.Shape(s.threads[t].ring)
  {
  }

  /** Where the poller works there is a ring, and it stands where the poller expects it. */
  lemma RingAtWork(s: State)
    requires Inv(s) && (AtWork(s.ppc) || (s.ppc.Scan? && s.i < |s.live|))
    ensures AtRing(s) && R.Inv(Ring(s))
    ensures var th := s.threads[At(s)];
      if AtWork(s.ppc) then Busy(th, s.ppc, s.sink.apc) else Idle(th) && s.sink.apc.Unlocked?
  {
    hide K.Inv, Placed, Of, R.Geometry, R.Content, R.Pubs, R.Bumps, R.ProducerOk, R.ConsumerOk;
  }

  lemma LogInv(s: State, t: nat, b: R.Act)
    requires Inv(s) && Enabled(s, Log(t, b))
    ensures Safe(s, Log(t, b)) && Inv(Step(s, Log(t, b)))
  {
    hide R.Inv, R.Shape, K.Inv, Placed, Of, R.Step, R.Enabled, R.Safe;
    RingThere(s, t);
    var ring := s.threads[t].ring;
    R.StepInv(ring, b);
    ProducerFrame(ring, b);
    var ring' := R.Step(ring, b);
    Extend(s.threads[t], ring', t, s.sink.appended);
    var u := Step(s, Log(t, b));
    ThreadStep(s, u, t, s.threads[t].(ring := ring'));
  }

  lemma ExitInv(s: State, t: nat)
    requires Inv(s) && Enabled(s, Exit(t))
    ensures Inv(Step(s, Exit(t)))
  {
    hide R.Inv, K.Inv, Of;
    ThreadStep(s, Step(s, Exit(t)), t, s.threads[t].(ended := true));
  }

  lemma PeekInv(s: State, b: R.Act)
    requires Inv(s) && Enabled(s, Peek(b))
    ensures Safe(s, Peek(b)) && Inv(Step(s, Peek(b)))
  {
    hide R.Inv, K.Inv, Placed, Of, R.Step, R.Enabled, R.Safe, R.Shape;
    RingAtWork(s);
    var ring := Ring(s);
    R.StepInv(ring, b);
    ConsumerFrame(ring, b);
    var ring' := R.Step(ring, b);
    PeekResult(ring, b);
    var th := s.threads[At(s)].(ring := ring');
    Extend(s.threads[At(s)], ring', At(s), s.sink.appended);
    var u := Step(s, Peek(b));
    ThreadStep(s, u, At(s), th);
  }

  /** A peek that finds nothing has taken everything up to the position it loaded. */
  lemma EmptyPeek(ring: R.State, b: R.Act)
    requires R.Inv(ring) && R.Enabled(ring, b) && R.Safe(ring, b) && (b.LoadP? || b.LoadE? || b.Roll?)
    requires R.Step(ring, b).cpc.Polling?
    ensures R.Shape(R.Step(ring, b)) && CaughtUp(R.Step(ring, b))
  {
    hide R.Content, R.Bumps, R.BumpsSorted, R.Sorted, R.ProducerOk;
    if b.LoadP? {
      R.PubAt(ring.pubs, ring.seenP, b.i, R.P(ring), R.C(ring), R.E(ring), ring.ends, |ring.marks| - 1);
    } else {
      R.PubAt(ring.pubs, ring.seenP, ring.seenP, R.P(ring), R.C(ring), R.E(ring), ring.ends, |ring.marks| - 1);
    }
  }

  /** Where the ring stands after a step of peek. */
  lemma PeekResult(ring: R.State, b: R.Act)
    requires R.Inv(ring) && R.Enabled(ring, b) && R.Safe(ring, b) && (b.LoadP? || b.LoadE? || b.Roll?)
    ensures var u := R.Step(ring, b);
      && R.Shape(u) && u.taken == ring.taken
      && (u.cpc.Copying? ==>
            && u.cpc.upTo < |u.ends| && u.ends[u.taken] + u.cpc.remaining == u.ends[u.cpc.upTo]
            && u.cpc.remaining <= R.STAGING_BUFFER_SIZE)
      && (u.cpc.Polling? ==> CaughtUp(u))
  {
    ConsumerFrame(ring, b);
    if R.Step(ring, b).cpc.Polling? { EmptyPeek(ring, b); }
    if R.Step(ring, b).cpc.Copying? {
      R.PeekedSpan(ring, b);
    }
  }

  lemma CopyInv(s: State, b: R.Act)
    requires Inv(s) && Enabled(s, Copy(b))
    ensures Safe(s, Copy(b)) && Inv(Step(s, Copy(b)))
  {
    hide R.Inv, K.Inv, Placed, Of, R.Step, R.Enabled, R.Safe, R.Shape;
    RingAtWork(s);
    var ring := Ring(s);
    R.StepInv(ring, b);
    ConsumerFrame(ring, b);
    var ring' := R.Step(ring, b);
    CopyResult(ring, b);
    var th := s.threads[At(s)].(ring := ring');
    Extend(s.threads[At(s)], ring', At(s), s.sink.appended);
    var u := Step(s, Copy(b));
    ThreadStep(s, u, At(s), th);
  }

  lemma CopyResult(ring: R.State, b: R.Act)
    requires R.Inv(ring) && R.Enabled(ring, b) && R.Safe(ring, b) && (b.CopyByte? || b.Release?)
    ensures var u := R.Step(ring, b);
      && R.Shape(u)
      && (u.cpc.Polling? ==> ring.taken <= ring.cpc.upTo == u.taken)
      && (!u.cpc.Polling? ==> u.cpc.Copying? && u.cpc.upTo == ring.cpc.upTo && u.taken == ring.taken)
  {
    R.SpanIsStream(ring);
    hide R.Content, R.Pubs, R.PubsSorted, R.Bumps, R.BumpsSorted, R.Sorted, R.ProducerOk;
  }

  lemma SinkInv(s: State, k: K.Act)
    requires Inv(s) && Enabled(s, Sink(k))
    ensures Safe(s, Sink(k)) && Inv(Step(s, Sink(k)))
  {
    hide R.Inv, K.Inv, Of, K.Step, K.Enabled, K.Safe;
    K.StepInv(s.sink, k);
    SinkFrame(s.sink, k);
  }

  lemma AppendInv(s: State, a: Act)
    requires Inv(s) && (a == Admit || a == Supply) && Enabled(s, a)
    ensures Safe(s, a) && Inv(Step(s, a))
  {
    hide R.Inv, K.Inv, Of, K.Step, K.Safe;
    RingAtWork(s);
    var k := if a == Admit then K.Admit(Ring(s).cpc.remaining) else K.Supply;
    K.StepInv(s.sink, k);
    AppendFrame(s.sink, k);
  }

  lemma RoundInv(s: State, a: Act)
    requires Inv(s) && (a == StartRound || a == EndRound || a == CheckDelete) && Enabled(s, a)
    ensures Safe(s, a) && Inv(Step(s, a))
  {
    hide R.Inv, K.Inv, Of, Placed, Cut, Copied, R.Step, R.Enabled, R.Safe, K.Step, K.Safe, K.Enabled;
    if a == CheckDelete { RingAtWork(s); }
  }

  lemma NewThread(ring: R.State, t: nat, appended: seq<Rec>, name: seq<byte>)
    requires R.Init(ring) && Of(appended, t) == []
    ensures R.Inv(ring) && Placed(Thread(ring, name, false, 0), t, appended) && Idle(Thread(ring, name, false, 0))
  {
    hide R.Inv, Of;
    R.InitInv(ring);
    assert Cut(ring.stream, ring.ends, 0, 0);
    assert Entries(ring.stream, ring.ends, 0, 0) == [];
  }

  lemma SpawnInv(s: State, ring: R.State, name: seq<byte>)
    requires Inv(s) && Enabled(s, Spawn(ring, name))
    ensures Inv(Step(s, Spawn(ring, name)))
  {
    hide R.Inv, K.Inv, Of, Placed, R.Init;
    var u := Step(s, Spawn(ring, name));
    var n := |s.threads|;
    NewThread(ring, n, s.sink.appended, name);
    assert Live(u);
    forall t | 0 <= t < |u.threads| ensures R.Inv(u.threads[t].ring) && Placed(u.threads[t], t, u.sink.appended) {
      if t < n { assert u.threads[t] == s.threads[t]; }
    }
  }

  /** The block in the poller's hands is the ring's next whole entries. */
  lemma CopiedBlock(th: Thread, t: nat, size: nat)
    requires R.Inv(th.ring) && th.ring.cpc.Polling? && th.placed <= th.ring.taken
    requires th.ring.ends[th.placed] + size == th.ring.ends[th.ring.taken]
    ensures Cut(th.ring.delivered, th.ring.ends, th.placed, th.ring.taken)
    ensures Cut(th.ring.stream, th.ring.ends, 0, th.ring.taken)
    ensures var es := Entries(th.ring.delivered, th.ring.ends, th.placed, th.ring.taken);
      && |Flatten(es)| == size
      && Entries(th.ring.stream, th.ring.ends, 0, th.ring.taken)
          == Entries(th.ring.stream, th.ring.ends, 0, th.placed) + es
  {
    PollingRing(th.ring);
    var d, s, ends, from, to := th.ring.delivered, th.ring.stream, th.ring.ends, th.placed, th.ring.taken;
    hide R.Inv, Flatten;
    assert Cut(d, ends, from, to) && Cut(d, ends, 0, from);
    hide Cut;
    FlattenEntries(d, ends, from, to);
    SameEntries(d, ends, s, ends, from, to);
    SameEntries(d, ends, s, ends, 0, to);
    SameEntries(d, ends, s, ends, 0, from);
    EntriesSplit(s, ends, from, to);
  }

  lemma EntriesSplit(bytes: seq<byte>, ends: seq<nat>, from: nat, to: nat)
    requires Cut(bytes, ends, 0, to) && Cut(bytes, ends, 0, from) && Cut(bytes, ends, from, to)
    ensures Entries(bytes, ends, 0, to) == Entries(bytes, ends, 0, from) + Entries(bytes, ends, from, to)
  {
    hide Entry;
  }

  lemma AppendedBlock(appended: seq<Rec>, block: Block, t: nat)
    ensures Of(appended + BlockRecs(block, 0), t) == Of(appended, t) + (if t == block.src then block.entries else [])
  {
    OfAppend(appended, BlockRecs(block, 0), t);
    OfBlock(block, 0, t);
    assert block.entries[0..] == block.entries;
  }

  lemma PutFrame(k: K.State, block: Block)
    requires K.Enabled(k, K.Put(block)) && K.Safe(k, K.Put(block))
    ensures K.Step(k, K.Put(block)).appended == k.appended + BlockRecs(block, 0)
    ensures K.Step(k, K.Put(block)).apc == K.Unlocked
  {
  }

  lemma PlacedBlock(th: Thread, t: nat, appended: seq<Rec>, block: Block, size: nat)
    requires R.Inv(th.ring) && th.ring.cpc.Polling? && th.placed <= th.ring.taken && Placed(th, t, appended)
    requires th.ring.ends[th.placed] + size == th.ring.ends[th.ring.taken] && block.src == t
    requires Cut(th.ring.delivered, th.ring.ends, th.placed, th.ring.taken)
    requires block.entries == Entries(th.ring.delivered, th.ring.ends, th.placed, th.ring.taken)
    ensures Placed(th.(placed := th.ring.taken), t, appended + BlockRecs(block, 0))
  {
    CopiedBlock(th, t, size);
    AppendedBlock(appended, block, t);
  }

  lemma PutInv(s: State)
    requires Inv(s) && Enabled(s, Put)
    ensures Safe(s, Put) && Inv(Step(s, Put))
  {
    hide R.Inv, K.Inv, Of, Placed, K.Step, K.Safe, BlockRecs, Cut;
    RingAtWork(s);
    var t := At(s);
    var th := s.threads[t];
    CopiedBlock(th, t, s.sink.apc.size);
    var block := Copied(s);
    K.StepInv(s.sink, K.Put(block));
    PutFrame(s.sink, block);
    PlacedBlock(th, t, s.sink.appended, block, s.sink.apc.size);
    var u := Step(s, Put);
    forall t': nat | t' != t ensures Of(u.sink.appended, t') == Of(s.sink.appended, t') {
      AppendedBlock(s.sink.appended, block, t');
    }
    assert u == s.(sink := u.sink, threads := s.threads[t := th.(placed := th.ring.taken)], i := s.i + 1, ppc := Scan);
    PutNext(s, u, t, th);
  }

  lemma PutNext(s: State, u: State, t: nat, th: Thread)
    requires Inv(s) && s.ppc.Place? && t == s.live[s.i] && th == s.threads[t]
    requires u == s.(sink := u.sink, threads := s.threads[t := th.(placed := th.ring.taken)], i := s.i + 1, ppc := Scan)
    requires K.Inv(u.sink) && u.sink.apc.Unlocked?
    requires Placed(th.(placed := th.ring.taken), t, u.sink.appended)
    requires forall t': nat | t' != t :: Of(u.sink.appended, t') == Of(s.sink.appended, t')
    ensures Inv(u)
  {
    hide R.Inv, K.Inv, Of;
  }

  lemma StepInv(s: State, a: Act)
    requires Inv(s) && Enabled(s, a)
    ensures Safe(s, a) && Inv(Step(s, a))
  {
    hide Inv, Safe, Enabled, Step;
    match a
    case Spawn(ring, name) => SpawnSafe(s, a); SpawnInv(s, ring, name);
    case Log(t, b) => LogInv(s, t, b);
    case Exit(t) => SpawnSafe(s, a); ExitInv(s, t);
    case Sink(k) => SinkInv(s, k);
    case StartRound => RoundInv(s, a);
    case EndRound => RoundInv(s, a);
    case Peek(b) => PeekInv(s, b);
    case CheckDelete => RoundInv(s, a);
    case Admit => AppendInv(s, a);
    case Supply => AppendInv(s, a);
    case Copy(b) => CopyInv(s, b);
    case Put => PutInv(s);
  }

  lemma SpawnSafe(s: State, a: Act)
    requires Enabled(s, a) && (a.Spawn? || a.Exit?)
    ensures Safe(s, a)
  {
  }

  ghost predicate Run(s: State, acts: seq<Act>, t: State)
    decreases |acts|
  {
    if acts == [] then s == t
    else Enabled(s, acts[0]) && Safe(s, acts[0]) && Run(Step(s, acts[0]), acts[1..], t)
  }

  lemma {:induction false} RunInv(s: State, acts: seq<Act>, t: State)
    requires Inv(s) && Run(s, acts, t)
    ensures Inv(t)
    decreases |acts|
  {
    hide Inv, Safe, Enabled, Step;
    if acts != [] {
      StepInv(s, acts[0]);
      RunInv(Step(s, acts[0]), acts[1..], t);
    }
  }

  /** The states the program can be in. */
  ghost predicate Reachable(s: State) {
    exists z, acts :: Init(z) && Run(z, acts, s)
  }

  lemma ReachableInv(s: State)
    requires Reachable(s)
    ensures Inv(s)
  {
    hide Inv, Safe, Enabled, Step, Init;
    var z, acts :| Init(z) && Run(z, acts, s);
    InitInv(z);
    RunInv(z, acts, s);
  }

  /** A thread that has not ended is among those the poller visits. */
  ghost predicate AllLive(s: State) { forall t: nat | t < |s.threads| && !s.threads[t].ended :: t in s.live }

  lemma AllLiveStep(s: State, a: Act)
    requires AllLive(s) && Enabled(s, a) && Safe(s, a)
    ensures AllLive(Step(s, a))
  {
    hide R.Step, R.Safe, R.Enabled, R.Shape, K.Step, K.Safe, K.Enabled, Copied, Cut;
    if a.CheckDelete? {
      assert s.live == s.live[..s.i] + ([s.live[s.i]] + s.live[s.i + 1..]);
    }
  }

  /** In every run the poller's list has every thread that has not ended. */
  lemma {:induction false} NoThreadForgotten(s: State, acts: seq<Act>, u: State)
    requires Inv(s) && AllLive(s) && Run(s, acts, u)
    ensures AllLive(u)
    decreases |acts|
  {
    hide Inv, AllLive, Enabled, Safe, Step;
    if acts != [] {
      StepInv(s, acts[0]);
      AllLiveStep(s, acts[0]);
      NoThreadForgotten(Step(s, acts[0]), acts[1..], u);
    }
  }

  lemma OfPrefix(a: seq<Rec>, b: seq<Rec>, t: nat)
    requires a <= b
    ensures Of(a, t) <= Of(b, t)
  {
    assert b == a + b[|a|..];
    OfAppend(a, b[|a|..], t);
  }

  /** Every entry a ring's thread has committed. */
  function Committed(ring: R.State): seq<seq<byte>>
    requires ring.ends != [] && Cut(ring.stream, ring.ends, 0, |ring.ends| - 1)
  {
    Entries(ring.stream, ring.ends, 0, |ring.ends| - 1)
  }

  lemma PlacedIsPrefix(th: Thread, t: nat, appended: seq<Rec>)
    requires R.Inv(th.ring) && Placed(th, t, appended)
    ensures th.ring.ends != [] && Cut(th.ring.stream, th.ring.ends, 0, |th.ring.ends| - 1)
    ensures Of(appended, t) <= Committed(th.ring)
  {
    hide R.Pubs, R.Bumps, R.BumpsSorted, R.PubsSorted, R.ProducerOk, R.ConsumerOk, R.Holds, Of;
    var s, ends, n := th.ring.stream, th.ring.ends, th.placed;
    assert Cut(s, ends, n, |ends| - 1);
    assert Entries(s, ends, 0, |ends| - 1) == Entries(s, ends, 0, n) + Entries(s, ends, n, |ends| - 1);
  }

  /** The main claim.  At every moment of every run, and for every thread, the entries the sink has
      processed are an in-order, duplicate-free prefix of the entries that thread has committed,
      and no step that either subsystem can take next is harmful. */
  lemma ProcessedIsPrefixOfCommitted(s: State, acts: seq<Act>, u: State, t: nat)
    requires Init(s) && Run(s, acts, u) && t < |u.threads|
    ensures var ring := u.threads[t].ring;
      && ring.ends != [] && Cut(ring.stream, ring.ends, 0, |ring.ends| - 1)
      && Of(u.sink.processed, t) <= Committed(ring)
    ensures forall a | Enabled(u, a) :: Safe(u, a)
  {
    hide Of, Placed, R.Inv, Cut, Safe, Enabled, Step, Init;
    InitInv(s);
    RunInv(s, acts, u);
    PlacedIsPrefix(u.threads[t], t, u.sink.appended);
    K.WrittenPrefix(u.sink);
    OfPrefix(u.sink.processed, u.sink.appended, t);
    forall a | Enabled(u, a) ensures Safe(u, a) { StepInv(u, a); }
  }

  lemma CopiedEntries(th: Thread)
    requires R.Inv(th.ring) && th.ring.cpc.Polling? && th.placed <= th.ring.taken
    requires Cut(th.ring.delivered, th.ring.ends, th.placed, th.ring.taken)
    requires Cut(th.ring.stream, th.ring.ends, 0, th.ring.taken)
    ensures forall i | 0 <= i < th.ring.taken - th.placed ::
      Entries(th.ring.delivered, th.ring.ends, th.placed, th.ring.taken)[i]
          == Entry(th.ring.stream, th.ring.ends, th.placed + i)
  {
    PollingRing(th.ring);
    hide R.Inv;
    SameEntries(th.ring.delivered, th.ring.ends, th.ring.stream, th.ring.ends, th.placed, th.ring.taken);
    var x, y := Entries(th.ring.delivered, th.ring.ends, th.placed, th.ring.taken),
        Entries(th.ring.stream, th.ring.ends, th.placed, th.ring.taken);
    forall i | 0 <= i < th.ring.taken - th.placed ensures x[i] == Entry(th.ring.stream, th.ring.ends, th.placed + i) {
      assert x[i] == y[i];
    }
  }

  // ---------------------------------------------------------------- the blocks in the buffers

  lemma CommittedOk(ring: R.State)
    requires R.Inv(ring)
    ensures ring.ends != [] && Cut(ring.stream, ring.ends, 0, |ring.ends| - 1)
  {
    hide R.Pubs, R.PubsSorted, R.Bumps, R.BumpsSorted, R.ProducerOk, R.ConsumerOk, R.Holds;
  }

  /** The block is of this thread, and its entries are entries the thread has committed. */
  ghost predicate Origin(threads: seq<Thread>, x: Block) {
    && x.src < |threads| && x.name == threads[x.src].name && BlockSize(x) < K.LARGE_BUFFER
    && var ring := threads[x.src].ring;
       && ring.ends != [] && Cut(ring.stream, ring.ends, 0, |ring.ends| - 1)
       && forall i | 0 <= i < |x.entries| :: x.entries[i] in Committed(ring)
  }

  ghost predicate FromRings(s: State) { forall x | K.Kept(s.sink, x) :: Origin(s.threads, x) }

  /** A thread keeps its name and what it has committed. */
  lemma ThreadGrows(s: State, a: Act, t: nat)
    requires Inv(s) && Enabled(s, a) && Safe(s, a) && t < |s.threads|
    ensures var u := Step(s, a);
      && t < |u.threads| && u.threads[t].name == s.threads[t].name
      && s.threads[t].ring.stream <= u.threads[t].ring.stream && s.threads[t].ring.ends <= u.threads[t].ring.ends
  {
    hide R.Inv, K.Inv, Of, K.Step, K.Safe, K.Enabled, Cut, Copied, R.Step, R.Safe, R.Enabled, Inv;
    RingThere(s, t);
    match a
    case Log(t', b) => R.StepGrows(s.threads[t'].ring, b);
    case Peek(b) => R.StepGrows(Ring(s), b);
    case Copy(b) => R.StepGrows(Ring(s), b);
    case _ =>
  }

  lemma OriginGrows(threads: seq<Thread>, threads': seq<Thread>, x: Block)
    requires Origin(threads, x) && x.src < |threads'| && threads'[x.src].name == threads[x.src].name
    requires R.Inv(threads'[x.src].ring)
    requires threads[x.src].ring.stream <= threads'[x.src].ring.stream
    requires threads[x.src].ring.ends <= threads'[x.src].ring.ends
    ensures Origin(threads', x)
  {
    hide R.Inv, Cut;
    var before, after := threads[x.src].ring, threads'[x.src].ring;
    CommittedOk(after);
    forall i | 0 <= i < |x.entries| ensures x.entries[i] in Committed(after) {
      CommittedStays(before, after, x.entries[i]);
    }
  }

  lemma CommittedStays(ring: R.State, ring': R.State, e: seq<byte>)
    requires ring.ends != [] && Cut(ring.stream, ring.ends, 0, |ring.ends| - 1)
    requires ring'.ends != [] && Cut(ring'.stream, ring'.ends, 0, |ring'.ends| - 1)
    requires ring.stream <= ring'.stream && ring.ends <= ring'.ends && e in Committed(ring)
    ensures e in Committed(ring')
  {
    var n := |ring.ends| - 1;
    SameEntries(ring.stream, ring.ends, ring'.stream, ring'.ends, 0, n);
    hide Cut;
    var i :| 0 <= i < n && Committed(ring)[i] == e;
    assert Committed(ring')[i] == Entry(ring'.stream, ring'.ends, i) == Entries(ring'.stream, ring'.ends, 0, n)[i];
  }

  /** The block in the poller's hands consists of committed entries. */
  lemma CopiedOrigin(s: State)
    requires Inv(s) && Enabled(s, Put) && Safe(s, Put)
    ensures Origin(s.threads, Copied(s))
  {
    hide K.Inv, Of, Placed, R.Inv, R.Shape, Used, Flatten;
    RingAtWork(s);
    var th := s.threads[At(s)];
    CommittedOk(th.ring);
    CopiedBlock(th, At(s), s.sink.apc.size);
    CopiedCommitted(th, Copied(s));
  }

  lemma CopiedCommitted(th: Thread, x: Block)
    requires R.Inv(th.ring) && th.ring.cpc.Polling? && th.placed <= th.ring.taken
    requires Cut(th.ring.delivered, th.ring.ends, th.placed, th.ring.taken)
    requires Cut(th.ring.stream, th.ring.ends, 0, th.ring.taken)
    requires x.entries == Entries(th.ring.delivered, th.ring.ends, th.placed, th.ring.taken)
    requires th.ring.ends != [] && Cut(th.ring.stream, th.ring.ends, 0, |th.ring.ends| - 1)
    ensures forall i | 0 <= i < |x.entries| :: x.entries[i] in Committed(th.ring)
  {
    hide R.Inv;
    CopiedEntries(th);
    forall i | 0 <= i < |x.entries| ensures x.entries[i] in Committed(th.ring) {
      assert x.entries[i] == Entry(th.ring.stream, th.ring.ends, th.placed + i) == Committed(th.ring)[th.placed + i];
    }
  }

  lemma FromRingsStep(s: State, a: Act)
    requires Inv(s) && FromRings(s) && Enabled(s, a) && Safe(s, a)
    ensures FromRings(Step(s, a))
  {
    hide Inv, Origin, K.Kept, R.Inv;
    var u := Step(s, a);
    StepInv(s, a);
    forall x | K.Kept(u.sink, x) ensures Origin(u.threads, x) {
      Origins(s, a, x);
      ThreadGrows(s, a, x.src);
      RingThere(u, x.src);
      OriginGrows(s.threads, u.threads, x);
    }
  }

  lemma Origins(s: State, a: Act, x: Block)
    requires Inv(s) && FromRings(s) && Enabled(s, a) && Safe(s, a) && K.Kept(Step(s, a).sink, x)
    ensures Origin(s.threads, x) && x.src < |s.threads|
  {
    hide Inv, K.Kept, R.Inv, K.Step, K.Safe, Copied, Cut, BlockSize;
    match a
    case Sink(k) => K.StepKept(s.sink, k, x);
    case Admit => K.StepKept(s.sink, K.Admit(Ring(s).cpc.remaining), x);
    case Supply => K.StepKept(s.sink, K.Supply, x);
    case Put => K.StepKept(s.sink, K.Put(Copied(s)), x); CopiedOrigin(s);
    case _ =>
  }

  lemma {:induction false} FromRingsRun(s: State, acts: seq<Act>, u: State)
    requires Inv(s) && FromRings(s) && Run(s, acts, u)
    ensures Inv(u) && FromRings(u)
    decreases |acts|
  {
    hide Inv, FromRings, Enabled, Safe, Step;
    if acts != [] {
      StepInv(s, acts[0]);
      FromRingsStep(s, acts[0]);
      FromRingsRun(Step(s, acts[0]), acts[1..], u);
    }
  }

  /** In every run, if every committed entry carries its own size and names fill their field, every
      block in any buffer is one that the nested loops of the sink read back exactly. */
  lemma BuffersReadBack(z: State, acts: seq<Act>, u: State, x: Block)
    requires Init(z) && Run(z, acts, u) && K.Kept(u.sink, x)
    requires forall t | 0 <= t < |u.threads| :: |u.threads[t].name| == NAME_SIZE
    requires forall t | 0 <= t < |u.threads| :: EntriesOk(u.threads[t].ring)
    ensures BlockOk(x)
  {
    hide Inv, Run, EntryOk;
    InitInv(z);
    assert FromRings(z);
    FromRingsRun(z, acts, u);
    assert Origin(u.threads, x);
  }

  ghost predicate EntriesOk(ring: R.State) {
    && ring.ends != [] && Cut(ring.stream, ring.ends, 0, |ring.ends| - 1)
    && forall e | e in Committed(ring) :: EntryOk(e)
  }

  // ---------------------------------------------------------------- deletion

  /** Whenever the poller can delete a ring: deleting it loses nothing exactly if nothing was
      committed after the position that the last peek loaded. */
  lemma DeletionLosesNothingIff(s: State)
    requires Reachable(s) && Enabled(s, CheckDelete)
    ensures AtRing(s) && var ring := Ring(s);
      ring.delivered == ring.stream <==> R.P(ring).idx == ring.pubs[ring.seenP].pos.idx
  {
    hide Of, K.Inv, R.Content, R.Pubs, R.Bumps, R.ProducerOk, R.ConsumerOk;
    ReachableInv(s);
    EmptyRing(Ring(s));
  }

  lemma EmptyRing(ring: R.State)
    requires R.Inv(ring) && ring.cpc.Polling? && CaughtUp(ring)
    ensures ring.delivered == ring.stream <==> R.P(ring).idx == ring.pubs[ring.seenP].pos.idx
  {
    hide R.Pubs, R.PubsSorted, R.Bumps, R.BumpsSorted, R.Sorted, R.ProducerOk, R.Holds;
  }

  /** An ended thread publishes nothing more, and its consumer never forgets what it has loaded. */
  lemma EndedStep(s: State, a: Act, t: nat)
    requires Inv(s) && Enabled(s, a) && Safe(s, a) && t < |s.threads| && s.threads[t].ended
    ensures var u := Step(s, a);
      && t < |u.threads| && u.threads[t].ended
      && u.threads[t].ring.pubs == s.threads[t].ring.pubs && u.threads[t].ring.seenP >= s.threads[t].ring.seenP
  {
    hide Inv, Of, R.Inv, K.Inv, K.Step, K.Safe, K.Enabled, Cut, Copied;
  }

  lemma {:induction false} EndedRun(s: State, acts: seq<Act>, u: State, t: nat)
    requires Inv(s) && Run(s, acts, u) && t < |s.threads| && s.threads[t].ended
    ensures t < |u.threads| && u.threads[t].ended
    ensures u.threads[t].ring.pubs == s.threads[t].ring.pubs && u.threads[t].ring.seenP >= s.threads[t].ring.seenP
    decreases |acts|
  {
    hide Inv, Enabled, Safe, Step;
    if acts != [] {
      EndedStep(s, acts[0], t);
      StepInv(s, acts[0]);
      EndedRun(Step(s, acts[0]), acts[1..], u, t);
    }
  }

  /** Once a thread has ended and a peek has loaded its newest position, deleting its ring loses
      nothing, however the peek goes on and whenever the poller gets to it. */
  lemma DeletionAfterEndLosesNothing(s: State, acts: seq<Act>, u: State, t: nat)
    requires Reachable(s) && t < |s.threads| && s.threads[t].ended
    requires s.threads[t].ring.seenP == |s.threads[t].ring.pubs| - 1
    requires Run(s, acts, u) && Enabled(u, CheckDelete)
    ensures AtRing(u) && (At(u) == t ==> Ring(u).delivered == Ring(u).stream)
  {
    hide Inv, Of, Run, Reachable, R.Inv, R.Shape;
    ReachableInv(s);
    RunInv(s, acts, u);
    EndedRun(s, acts, u, t);
    RingAtWork(u);
    EmptyRing(Ring(u));
    if At(u) == t {
      Newest(Ring(u));
    }
  }

  lemma Newest(ring: R.State)
    requires R.Inv(ring) && ring.seenP >= |ring.pubs| - 1
    ensures R.Shape(ring) && R.P(ring).idx == ring.pubs[ring.seenP].pos.idx
  {
    hide R.Geometry, R.Content, R.Pubs, R.Bumps, R.ProducerOk, R.ConsumerOk;
  }

  lemma OneMore(s: State, a: Act, t: State, acts: seq<Act>, u: State)
    requires Enabled(s, a) && Safe(s, a) && t == Step(s, a) && Run(t, acts, u)
    ensures Run(s, [a] + acts, u)
  {
    hide Enabled, Safe, Step;
    assert ([a] + acts)[0] == a && ([a] + acts)[1..] == acts;
  }

  /** A thread that reserves, and a poller that peeks before anything is committed. */
  function Early(ring: R.State, name: seq<byte>): seq<Act> {
    [Spawn(ring, name), StartRound, Log(0, R.Reserve(1, true)), Peek(R.LoadP(0))]
  }

  lemma PeekedTooEarly(s: State, ring: R.State, name: seq<byte>) returns (t: State)
    requires Init(s) && R.Init(ring)
    ensures Run(s, Early(ring, name), t)
    ensures t == s.(threads := [Thread(ring.(ppc := R.Reserved(1)), name, false, 0)], live := [0], ppc := Empty)
  {
    hide K.Step, K.Safe, K.Enabled, Copied, Cut, K.Init;
    var s1 := Step(s, Spawn(ring, name));
    var s2 := Step(s1, StartRound);
    var s3 := Step(s2, Log(0, R.Reserve(1, true)));
    assert s3.threads[0].ring == ring.(ppc := R.Reserved(1));
    t := Step(s3, Peek(R.LoadP(0)));
    assert t.threads[0].ring == s3.threads[0].ring;
    hide Step, Enabled, Safe, Run;
    FourSteps(s, Early(ring, name), s1, s2, s3, t);
  }

  /** The thread commits and ends; then the poller tests the flag. */
  function Late(): seq<Act> {
    [Log(0, R.Commit(1)), Log(0, R.Shrink), Exit(0), CheckDelete]
  }

  lemma EndedTooLate(s: State) returns (u: State)
    requires s.ppc == Empty && s.i == 0 && s.live == [0] && |s.threads| == 1 && !s.threads[0].ended
    requires var ring := s.threads[0].ring;
      R.Shape(ring) && ring.ppc == R.Reserved(1) && R.P(ring).off + 1 < R.STAGING_BUFFER_SIZE && ring.free > 1
    ensures Run(s, Late(), u)
    ensures u.live == [] && |u.threads| == 1 && u.threads[0].ended && u.sink == s.sink
    ensures u.threads[0].ring.delivered == s.threads[0].ring.delivered
    ensures |u.threads[0].ring.stream| == |s.threads[0].ring.stream| + 1
  {
    hide K.Step, K.Safe, K.Enabled, Copied, Cut;
    var s1 := Step(s, Log(0, R.Commit(1)));
    assert s1.threads[0].ring.ppc == R.ShrinkFree(1) && R.Shape(s1.threads[0].ring);
    var s2 := Step(s1, Log(0, R.Shrink));
    assert s2.threads[0].ring.ppc == R.Outside && R.Shape(s2.threads[0].ring);
    var s3 := Step(s2, Exit(0));
    u := Step(s3, CheckDelete);
    hide Step, Enabled, Safe, Run;
    FourSteps(s, Late(), s1, s2, s3, u);
  }

  lemma FourSteps(s: State, acts: seq<Act>, s1: State, s2: State, s3: State, u: State)
    requires |acts| == 4
    requires Enabled(s, acts[0]) && Safe(s, acts[0]) && s1 == Step(s, acts[0])
    requires Enabled(s1, acts[1]) && Safe(s1, acts[1]) && s2 == Step(s1, acts[1])
    requires Enabled(s2, acts[2]) && Safe(s2, acts[2]) && s3 == Step(s2, acts[2])
    requires Enabled(s3, acts[3]) && Safe(s3, acts[3]) && u == Step(s3, acts[3])
    ensures Run(s, acts, u)
  {
    hide Step, Enabled, Safe, Run;
    assert acts == [acts[0]] + ([acts[1]] + ([acts[2]] + ([acts[3]] + [])));
    NoStep(u);
    OneMore(s3, acts[3], u, [], u);
    OneMore(s2, acts[2], s3, [acts[3]] + [], u);
    OneMore(s1, acts[1], s2, [acts[2]] + ([acts[3]] + []), u);
    OneMore(s, acts[0], s1, [acts[1]] + ([acts[2]] + ([acts[3]] + [])), u);
  }

  lemma NoStep(u: State)
    ensures Run(u, [], u)
  {
  }

  /** `poll_` tests the flag after it has peeked, so an entry committed in between is lost when
      its thread ends at once: here is such a run, with an entry of one byte. */
  lemma DeletionCanLose(s: State, ring: R.State, name: seq<byte>) returns (acts: seq<Act>, u: State)
    requires Init(s) && R.Init(ring)
    ensures acts == [Spawn(ring, name), StartRound, Log(0, R.Reserve(1, true)), Peek(R.LoadP(0)),
                     Log(0, R.Commit(1)), Log(0, R.Shrink), Exit(0), CheckDelete]
    ensures Run(s, acts, u)
    ensures u.live == [] && |u.threads| == 1 && u.threads[0].ended
    ensures |u.threads[0].ring.stream| == 1 && u.threads[0].ring.delivered == [] && u.sink.appended == []
  {
    hide Step, Enabled, Safe, Run;
    var t := PeekedTooEarly(s, ring, name);
    u := EndedTooLate(t);
    RunConcat(s, Early(ring, name), t, Late(), u);
    acts := Early(ring, name) + Late();
  }

  lemma {:induction false} RunConcat(s: State, a: seq<Act>, t: State, b: seq<Act>, u: State)
    requires Run(s, a, t) && Run(t, b, u)
    ensures Run(s, a + b, u)
    decreases |a|
  {
    hide Safe, Step, Enabled;
    if a == [] {
      assert a + b == b;
    } else {
      RunConcat(Step(s, a[0]), a[1..], t, b, u);
      assert (a + b)[0] == a[0] && (a + b)[1..] == a[1..] + b;
    }
  }
}
