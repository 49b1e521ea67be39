/** The single-producer/single-consumer staging ring of one logging thread
    (`RuntimeLogger::StagingBuffer`), as a system of steps of two threads.

    Every step does at most one atomic load or store of a shared position, so every
    interleaving the two threads can have is a run of this system.  A load of the position the
    other thread owns may also return an OLDER value than the newest one, as long as the thread
    never goes back behind a value it has already seen; the sequentially consistent program is
    the special case in which every load returns the newest value. */
module StagingRing {
  import opened Bytes
  import opened Sequences

  const STAGING_BUFFER_SIZE: nat := 0x10_0000
  const RELEASE_THRESHOLD: nat := STAGING_BUFFER_SIZE / 16

  /** A value of `_producerPos` or `_consumerPos`.  The program stores only `off`; `lap` counts
      the roll-overs before it and `idx` the committed bytes before it. */
  datatype Pos = Pos(off: nat, lap: nat, idx: nat)

  /** One store to `_producerPos`: also how many reservations had been committed by then, and
      which store to `_endOfRecordedSpace` was the newest. */
  datatype Pub = Pub(pos: Pos, cnt: nat, mark: nat)

  /** Where the producer is inside `reserveProducerSpace` and `finishReservation`. */
  datatype ProducerPc =
    | Outside
    | LoadConsumer(n: nat, blocking: bool)          // top of the retry loop
    | StoreEnd(n: nat, blocking: bool, k: Pos)      // about to store _endOfRecordedSpace
    | StoreWrap(n: nat, blocking: bool, k: Pos)     // about to store 0 to _producerPos
    | RefreshFree(n: nat, blocking: bool, k: Pos)   // wrapped, _minFreeSpace still the old one
    | Reserved(n: nat)                              // holds n bytes, not yet visible
    | ShrinkFree(n: nat)                            // committed, _minFreeSpace not yet reduced

  /** Where the consumer is inside `peek` and the copy loop of `appendInternal`. */
  datatype ConsumerPc =
    | Polling
    | LoadEnd(q: Pub)
    | RollOver(q: Pub)
    | Copying(at: nat, remaining: nat, copied: nat, upTo: nat)

  datatype State = State(
    storage: seq<byte>,
    pubs: seq<Pub>, marks: seq<nat>, free: nat, ppc: ProducerPc, seenC: nat,
    bumps: seq<Pos>, cpc: ConsumerPc, seenP: nat,
    // what has happened so far: the bytes committed, where each commit ended, how many commits
    // came before the producer's lap, how many the consumer has taken, and the bytes copied out
    stream: seq<byte>, ends: seq<nat>, lapCnt: nat, taken: nat, delivered: seq<byte>)

  predicate Shape(s: State) {
    && |s.storage| == STAGING_BUFFER_SIZE
    && s.pubs != [] && s.marks != [] && s.bumps != []
    && s.seenC < |s.bumps| && s.seenP < |s.pubs|
    && s.ends != [] && s.lapCnt < |s.ends| && s.taken < |s.ends|
  }

  function P(s: State): Pos requires Shape(s) { Last(s.pubs).pos }
  function C(s: State): Pos requires Shape(s) { Last(s.bumps) }
  function E(s: State): nat requires Shape(s) { Last(s.marks) }

  predicate Init(s: State) {
    && |s.storage| == STAGING_BUFFER_SIZE
    && s == State(s.storage,
                  [Pub(Pos(0, 0, 0), 0, 0)], [STAGING_BUFFER_SIZE], STAGING_BUFFER_SIZE, Outside, 0,
                  [Pos(0, 0, 0)], Polling, 0,
                  [], [0], 0, 0, [])
  }

  // ---------------------------------------------------------------- the two programs

  datatype Act =
    // producer
    | Reserve(n: nat, blocking: bool)
    | LoadC(i: nat)
    | PutEnd
    | PutWrap
    | PutFree
    | WriteByte(at: nat, value: byte)
    | Commit(n: nat)
    | Shrink
    // consumer
    | LoadP(i: nat)
    | LoadE(i: nat)
    | Roll
    | CopyByte
    | Release

  /** How much of `remaining` the copy loop takes before it gives space back. */
  function Chunk(remaining: nat): nat {
    if RELEASE_THRESHOLD < remaining then RELEASE_THRESHOLD else remaining
  }

  /** The steps the two programs can take next. */
  predicate Enabled(s: State, a: Act)
    requires Shape(s)
  {
    match a
    case Reserve(_, _) => s.ppc.Outside?
    case LoadC(i) => s.ppc.LoadConsumer? && s.seenC <= i < |s.bumps|
    case PutEnd => s.ppc.StoreEnd?
    case PutWrap => s.ppc.StoreWrap?
    case PutFree => s.ppc.RefreshFree?
    case WriteByte(at, _) => s.ppc.Reserved? && at < s.ppc.n
    case Commit(n) => s.ppc.Reserved? && n <= s.ppc.n
    case Shrink => s.ppc.ShrinkFree?
    case LoadP(i) => s.cpc.Polling? && s.seenP <= i < |s.pubs|
    case LoadE(i) => s.cpc.LoadEnd? && s.cpc.q.mark <= i < |s.marks|
    case Roll => s.cpc.RollOver?
    case CopyByte => s.cpc.Copying? && s.cpc.copied < Chunk(s.cpc.remaining)
    case Release => s.cpc.Copying? && s.cpc.copied == Chunk(s.cpc.remaining)
  }

  /** What each step needs to be harmless: accesses inside the storage, the two asserts of
      `finishReservation`, and a consumed entry count that exists. */
  predicate Safe(s: State, a: Act)
    requires Shape(s) && Enabled(s, a)
  {
    match a
    case WriteByte(at, _) => P(s).off + at < STAGING_BUFFER_SIZE
    case Commit(n) => n < s.free && P(s).off + n < STAGING_BUFFER_SIZE
    case CopyByte => s.cpc.at + s.cpc.copied < STAGING_BUFFER_SIZE
    case Release => s.cpc.upTo < |s.ends|
    case _ => true
  }

  /** The end of one pass of the retry loop: leave with the space, give up, or go round. */
  function AfterPass(s: State, n: nat, blocking: bool): State {
    if n < s.free then s.(ppc := Reserved(n))
    else if blocking then s.(ppc := LoadConsumer(n, blocking))
    else s.(ppc := Outside)
  }

  /** `peek` has computed `len`: nothing there, or the poller starts to copy. */
  function Found(s: State, len: nat, upTo: nat): State
    requires Shape(s)
  {
    if len == 0 then s.(cpc := Polling) else s.(cpc := Copying(C(s).off, len, 0, upTo))
  }

  function Step(s: State, a: Act): State
    requires Shape(s) && Enabled(s, a) && Safe(s, a)
  {
    var p, c := P(s), C(s);
    match a
    case Reserve(n, blocking) =>
      if n < s.free then s.(ppc := Reserved(n)) else s.(ppc := LoadConsumer(n, blocking))
    case LoadC(i) =>
      var k, n, blocking := s.bumps[i], s.ppc.n, s.ppc.blocking;
      if k.off <= p.off then
        var t := s.(seenC := i, free := SubU64(STAGING_BUFFER_SIZE, p.off));
        if n < t.free then t.(ppc := Reserved(n)) else t.(ppc := StoreEnd(n, blocking, k))
      else
        AfterPass(s.(seenC := i, free := SubU64(k.off, p.off)), n, blocking)
    case PutEnd =>
      var t := s.(marks := s.marks + [p.off]);
      if s.ppc.k.off != 0 then t.(ppc := StoreWrap(s.ppc.n, s.ppc.blocking, s.ppc.k))
      else AfterPass(t, s.ppc.n, s.ppc.blocking)
    case PutWrap =>
      var w := Pub(Pos(0, p.lap + 1, p.idx), Last(s.pubs).cnt, |s.marks| - 1);
      s.(pubs := s.pubs + [w], lapCnt := |s.ends| - 1,
         ppc := RefreshFree(s.ppc.n, s.ppc.blocking, s.ppc.k))
    case PutFree =>
      AfterPass(s.(free := SubU64(s.ppc.k.off, p.off)), s.ppc.n, s.ppc.blocking)
    case WriteByte(at, value) =>
      s.(storage := s.storage[p.off + at := value])
    case Commit(n) =>
      var q := Pub(Pos(p.off + n, p.lap, p.idx + n), |s.ends|, |s.marks| - 1);
      s.(pubs := s.pubs + [q], ppc := ShrinkFree(n),
         stream := s.stream + s.storage[p.off..p.off + n], ends := s.ends + [|s.stream| + n])
    case Shrink =>
      s.(free := SubU64(s.free, s.ppc.n), ppc := Outside)
    case LoadP(i) =>
      var q := s.pubs[i];
      var t := s.(seenP := i);
      if q.pos.off < c.off then t.(cpc := LoadEnd(q))
      else Found(t, SubU64(q.pos.off, c.off), q.cnt)
    case LoadE(i) =>
      var len := SubU64(s.marks[i], c.off);
      if len > 0 then Found(s, len, s.lapCnt) else s.(cpc := RollOver(s.cpc.q))
    case Roll =>
      Found(s.(bumps := s.bumps + [Pos(0, c.lap + 1, c.idx)]), s.cpc.q.pos.off, s.cpc.q.cnt)
    case CopyByte =>
      s.(delivered := s.delivered + [s.storage[s.cpc.at + s.cpc.copied]],
         cpc := s.cpc.(copied := s.cpc.copied + 1))
    case Release =>
      var n := s.cpc.copied;
      var t := s.(bumps := s.bumps + [Pos(c.off + n, c.lap, c.idx + n)]);
      if n == s.cpc.remaining then t.(cpc := Polling, taken := s.cpc.upTo)
      else t.(cpc := Copying(s.cpc.at + n, SubU64(s.cpc.remaining, n), 0, s.cpc.upTo))
  }

  // ---------------------------------------------------------------- the invariant
  // Each part names exactly the fields it speaks of.  p, c and e are the newest producer
  // position, consumer position and recorded end.

  ghost predicate Before(a: Pos, b: Pos) {
    a.lap < b.lap || (a.lap == b.lap && a.off <= b.off)
  }

  /** Either both threads are on one lap, or the producer is exactly one lap ahead and strictly
      below the consumer, whose lap ends at the recorded end. */
  ghost predicate Geometry(p: Pos, c: Pos, e: nat) {
    && p.off < STAGING_BUFFER_SIZE
    && ((c.lap == p.lap && c.off <= p.off && p.idx - c.idx == p.off - c.off)
        || (p.lap == c.lap + 1 && p.off < c.off <= e < STAGING_BUFFER_SIZE
            && p.idx - c.idx == (e - c.off) + p.off))
  }

  /** The bytes from `lo` to `hi` of the storage are those of the stream from `idx` on. */
  ghost predicate Holds(storage: seq<byte>, stream: seq<byte>, lo: nat, hi: nat, idx: nat) {
    lo <= hi <= |storage| && idx + (hi - lo) <= |stream| && storage[lo..hi] == stream[idx..idx + (hi - lo)]
  }

  /** Every committed byte the consumer has not released still stands where it was written. */
  ghost predicate Content(storage: seq<byte>, stream: seq<byte>, p: Pos, c: Pos, e: nat) {
    && p.idx == |stream| && p.off <= p.idx
    && if c.lap == p.lap then Holds(storage, stream, c.off, p.off, c.idx)
       else Holds(storage, stream, c.off, e, c.idx) && Holds(storage, stream, 0, p.off, p.idx - p.off)
  }

  ghost predicate Sorted(ends: seq<nat>) {
    forall i, j | 0 <= i <= j < |ends| :: ends[i] <= ends[j]
  }

  ghost predicate Commits(ends: seq<nat>, p: Pos, lapCnt: nat, cnt: nat) {
    && ends != [] && ends[0] == 0 && Last(ends) == p.idx && cnt == |ends| - 1
    && p.off <= p.idx && lapCnt < |ends| && ends[lapCnt] == p.idx - p.off
  }

  /** A value of `_producerPos` the consumer may still load. */
  ghost predicate PubOk(q: Pub, p: Pos, c: Pos, e: nat, ends: seq<nat>, mark: nat) {
    && q.cnt < |ends| && ends[q.cnt] == q.pos.idx && q.mark <= mark && Before(q.pos, p)
    && ((q.pos.lap == c.lap && c.off <= q.pos.off && q.pos.off - c.off == q.pos.idx - c.idx
         && (c.lap != p.lap ==> q.pos.off <= e))
        || (q.pos.lap == c.lap + 1 == p.lap && p.idx - q.pos.idx == p.off - q.pos.off && q.mark == mark))
  }

  ghost predicate Pubs(pubs: seq<Pub>, seen: nat, p: Pos, c: Pos, e: nat, ends: seq<nat>, mark: nat) {
    forall i | seen <= i < |pubs| :: PubOk(pubs[i], p, c, e, ends, mark)
  }

  ghost predicate PubsSorted(pubs: seq<Pub>) {
    forall i, j | 0 <= i <= j < |pubs| :: Before(pubs[i].pos, pubs[j].pos)
  }

  /** A value of `_consumerPos` the producer may still load. */
  ghost predicate BumpOk(k: Pos, p: Pos, c: Pos) {
    && Before(k, c) && k.off <= STAGING_BUFFER_SIZE
    && ((k.lap == p.lap && k.off <= p.off) || (k.lap + 1 == p.lap && p.off < k.off))
  }

  ghost predicate Bumps(bumps: seq<Pos>, seen: nat, p: Pos, c: Pos) {
    forall i | seen <= i < |bumps| :: BumpOk(bumps[i], p, c)
  }

  ghost predicate BumpsSorted(bumps: seq<Pos>) {
    forall i, j | 0 <= i <= j < |bumps| :: Before(bumps[i], bumps[j])
  }

  /** `room` bytes from the producer's position on may be written without touching anything the
      consumer has not released, whatever consumer position is the true one. */
  ghost predicate Room(bumps: seq<Pos>, seen: nat, p: Pos, room: nat) {
    && p.off + room <= STAGING_BUFFER_SIZE
    && forall i | seen <= i < |bumps| :: bumps[i].lap == p.lap || p.off + room <= bumps[i].off
  }

  /** `_minFreeSpace` is a sound lower bound except between the wrap and its recomputation, and
      between a commit and its decrement. */
  ghost predicate ProducerOk(ppc: ProducerPc, free: nat, bumps: seq<Pos>, seen: nat, p: Pos, e: nat)
    requires seen < |bumps|
  {
    match ppc
    case Outside => Room(bumps, seen, p, free)
    case LoadConsumer(n, _) => Room(bumps, seen, p, free) && free <= n
    case Reserved(n) => Room(bumps, seen, p, free) && n < free
    case StoreEnd(n, _, k) => Room(bumps, seen, p, free) && free <= n && k == bumps[seen] && k.lap == p.lap
    case StoreWrap(n, _, k) => k == bumps[seen] && k.lap == p.lap && k.off != 0 && e == p.off
    case RefreshFree(n, _, k) => k == bumps[seen] && k.lap + 1 == p.lap && p.off == 0
    case ShrinkFree(n) => n < free && Room(bumps, seen, p, free - n)
  }

  /** No value of `_producerPos` the consumer may load is before `limit` of its own lap. */
  ghost predicate Visible(pubs: seq<Pub>, seen: nat, p: Pos, c: Pos, e: nat, limit: nat) {
    && (if c.lap == p.lap then limit <= p.off else limit <= e)
    && forall i | seen <= i < |pubs| :: pubs[i].pos.lap != c.lap || limit <= pubs[i].pos.off
  }

  /** `copied` bytes beyond the consumer's position have been copied out, and nothing else. */
  ghost predicate Delivered(delivered: seq<byte>, stream: seq<byte>, upTo: nat) {
    upTo <= |stream| && delivered == stream[..upTo]
  }

  ghost predicate ConsumerOk(cpc: ConsumerPc, pubs: seq<Pub>, seen: nat, p: Pos, c: Pos, e: nat, ends: seq<nat>,
      taken: nat)
    requires seen < |pubs| && taken < |ends|
  {
    match cpc
    case Polling => ends[taken] == c.idx
    case LoadEnd(q) => ends[taken] == c.idx && q == pubs[seen] && q.pos.off < c.off
    case RollOver(q) => ends[taken] == c.idx && q == pubs[seen] && q.pos.off < c.off && c.off == e
    case Copying(at, remaining, copied, upTo) =>
      && at == c.off && copied <= Chunk(remaining) && remaining > 0
      && upTo < |ends| && ends[taken] <= c.idx && ends[upTo] == c.idx + remaining
      && Visible(pubs, seen, p, c, e, at + remaining)
  }

  function Copied(cpc: ConsumerPc): nat {
    if cpc.Copying? then cpc.copied else 0
  }

  ghost predicate Inv(s: State) {
    && Shape(s)
    && Geometry(P(s), C(s), E(s))
    && Content(s.storage, s.stream, P(s), C(s), E(s))
    && Sorted(s.ends) && Commits(s.ends, P(s), s.lapCnt, Last(s.pubs).cnt)
    && Pubs(s.pubs, s.seenP, P(s), C(s), E(s), s.ends, |s.marks| - 1) && PubsSorted(s.pubs)
    && Bumps(s.bumps, s.seenC, P(s), C(s)) && BumpsSorted(s.bumps)
    && ProducerOk(s.ppc, s.free, s.bumps, s.seenC, P(s), E(s))
    && ConsumerOk(s.cpc, s.pubs, s.seenP, P(s), C(s), E(s), s.ends, s.taken)
    && Delivered(s.delivered, s.stream, C(s).idx + Copied(s.cpc))
  }

  lemma BumpAt(bumps: seq<Pos>, seen: nat, i: nat, p: Pos, c: Pos)
    requires Bumps(bumps, seen, p, c) && seen <= i < |bumps|
    ensures BumpOk(bumps[i], p, c)
  {
  }

  lemma PubAt(pubs: seq<Pub>, seen: nat, i: nat, p: Pos, c: Pos, e: nat, ends: seq<nat>, mark: nat)
    requires Pubs(pubs, seen, p, c, e, ends, mark) && seen <= i < |pubs|
    ensures PubOk(pubs[i], p, c, e, ends, mark)
  {
  }

  lemma InitInv(s: State)
    requires Init(s)
    ensures Inv(s)
  {
  }

  lemma EnabledIsSafe(s: State, a: Act)
    requires Inv(s) && Enabled(s, a)
    ensures Safe(s, a)
  {
  }

  lemma ReserveInv(s: State, n: nat, blocking: bool)
    requires Inv(s) && Enabled(s, Reserve(n, blocking))
    ensures Inv(Step(s, Reserve(n, blocking)))
  {
    var t := Step(s, Reserve(n, blocking));
    assert t == s.(ppc := t.ppc);
  }

  /** What a fresh or stale load of the consumer position allows the producer to conclude. */
  lemma RoomAfterLoad(bumps: seq<Pos>, seen: nat, i: nat, p: Pos, c: Pos)
    requires seen <= i < |bumps| && Bumps(bumps, seen, p, c) && BumpsSorted(bumps) && c.lap <= p.lap
    requires p.off < STAGING_BUFFER_SIZE && c.off <= STAGING_BUFFER_SIZE
    ensures Bumps(bumps, i, p, c)
    ensures bumps[i].off <= p.off <==> bumps[i].lap == p.lap
    ensures bumps[i].lap == p.lap ==> Room(bumps, i, p, STAGING_BUFFER_SIZE - p.off)
    ensures bumps[i].lap != p.lap && bumps[i].off <= STAGING_BUFFER_SIZE ==> Room(bumps, i, p, bumps[i].off - p.off)
  {
    assert BumpOk(bumps[i], p, c);
    forall j | i <= j < |bumps|
      ensures bumps[j].lap == p.lap || (bumps[j].lap == bumps[i].lap && bumps[i].off <= bumps[j].off)
    {
      assert Before(bumps[i], bumps[j]) && BumpOk(bumps[j], p, c);
    }
  }

  lemma LoadCInv(s: State, i: nat)
    requires Inv(s) && Enabled(s, LoadC(i))
    ensures Inv(Step(s, LoadC(i)))
  {
    hide Content, Pubs, PubsSorted, Bumps, BumpsSorted, Sorted;
    var t := Step(s, LoadC(i));
    BumpAt(s.bumps, s.seenC, i, P(s), C(s));
    RoomAfterLoad(s.bumps, s.seenC, i, P(s), C(s));
    assert t == s.(seenC := i, free := t.free, ppc := t.ppc);
  }

  lemma PutEndInv(s: State)
    requires Inv(s) && Enabled(s, PutEnd)
    ensures Inv(Step(s, PutEnd))
  {
    var t := Step(s, PutEnd);
    assert t == s.(marks := s.marks + [P(s).off], ppc := t.ppc);
    assert P(t) == P(s) && C(t) == C(s);
    assert BumpOk(s.bumps[s.seenC], P(s), C(s));
  }

  lemma PutWrapInv(s: State)
    requires Inv(s) && Enabled(s, PutWrap)
    ensures Inv(Step(s, PutWrap))
  {
    hide Sorted;
    assert BumpOk(s.bumps[s.seenC], P(s), C(s));
  }

  lemma PutFreeInv(s: State)
    requires Inv(s) && Enabled(s, PutFree)
    ensures Inv(Step(s, PutFree))
  {
    hide Content, Pubs, PubsSorted, Bumps, BumpsSorted, Sorted;
    var t := Step(s, PutFree);
    BumpAt(s.bumps, s.seenC, s.seenC, P(s), C(s));
    RoomAfterLoad(s.bumps, s.seenC, s.seenC, P(s), C(s));
    assert t == s.(free := t.free, ppc := t.ppc);
  }

  lemma WriteByteInv(s: State, at: nat, value: byte)
    requires Inv(s) && Enabled(s, WriteByte(at, value)) && Safe(s, WriteByte(at, value))
    ensures Inv(Step(s, WriteByte(at, value)))
  {
  }

  lemma CommitInv(s: State, n: nat)
    requires Inv(s) && Enabled(s, Commit(n)) && Safe(s, Commit(n))
    ensures Inv(Step(s, Commit(n)))
  {
    var t := Step(s, Commit(n));
    assert BumpOk(C(s), P(s), C(s));
    CommitNext(s, t, n);
  }

  lemma CommitNext(s: State, t: State, n: nat)
    requires Inv(s) && s.ppc.Reserved? && n < s.free
    requires P(s).off + n < STAGING_BUFFER_SIZE && BumpOk(C(s), P(s), C(s))
    requires t.pubs != [] && t == s.(pubs := s.pubs + [Last(t.pubs)], ppc := ShrinkFree(n),
                     stream := s.stream + s.storage[P(s).off..P(s).off + n], ends := s.ends + [|s.stream| + n])
    requires Last(t.pubs) == Pub(Pos(P(s).off + n, P(s).lap, P(s).idx + n), |s.ends|, |s.marks| - 1)
    ensures Inv(t)
  {
    hide Content, Pubs, PubsSorted, Bumps, BumpsSorted, Sorted;
    var p, c, e := P(s), C(s), E(s);
    CommitContent(s.storage, s.stream, p, c, e, n);
    CommitPubs(s.pubs, s.seenP, p, c, e, s.ends, |s.marks| - 1, Last(t.pubs));
    CommitBumps(s.bumps, s.seenC, p, c, s.free, n);
    CommitConsumer(s, t);
  }

  lemma CommitPubs(pubs: seq<Pub>, seen: nat, p: Pos, c: Pos, e: nat, ends: seq<nat>, mark: nat, q: Pub)
    requires seen < |pubs| && Last(pubs).pos == p && Geometry(p, c, e) && c.idx <= p.idx && c.off <= STAGING_BUFFER_SIZE
    requires Sorted(ends) && ends != [] && Last(ends) == p.idx
    requires Pubs(pubs, seen, p, c, e, ends, mark) && PubsSorted(pubs)
    requires p.off <= q.pos.off && q.pos.lap == p.lap && q.pos.idx - p.idx == q.pos.off - p.off
    requires q.cnt == |ends| && q.mark == mark
    ensures Pubs(pubs + [q], seen, q.pos, c, e, ends + [q.pos.idx], mark) && PubsSorted(pubs + [q])
    ensures Sorted(ends + [q.pos.idx])
  {
    var pubs' := pubs + [q];
    forall i | seen <= i < |pubs'| ensures PubOk(pubs'[i], q.pos, c, e, ends + [q.pos.idx], mark) {
      if i < |pubs| { assert PubOk(pubs[i], p, c, e, ends, mark); }
    }
    forall i, j | 0 <= i <= j < |pubs'| ensures Before(pubs'[i].pos, pubs'[j].pos) {
      if i < |pubs| { assert Before(pubs[i].pos, Last(pubs).pos); }
    }
  }

  lemma CommitBumps(bumps: seq<Pos>, seen: nat, p: Pos, c: Pos, free: nat, n: nat)
    requires Bumps(bumps, seen, p, c) && Room(bumps, seen, p, free) && n < free
    ensures Bumps(bumps, seen, Pos(p.off + n, p.lap, p.idx + n), c)
    ensures Room(bumps, seen, Pos(p.off + n, p.lap, p.idx + n), free - n)
  {
    forall i | seen <= i < |bumps| ensures BumpOk(bumps[i], Pos(p.off + n, p.lap, p.idx + n), c) {
      assert BumpOk(bumps[i], p, c);
    }
  }

  lemma CommitConsumer(s: State, t: State)
    requires Inv(s) && Shape(t) && t.pubs == s.pubs + [Last(t.pubs)] && t.ends == s.ends + [Last(t.ends)]
    requires t.cpc == s.cpc && t.seenP == s.seenP && t.taken == s.taken && t.bumps == s.bumps && t.marks == s.marks
    requires P(t).lap == P(s).lap && P(s).off <= P(t).off
    ensures ConsumerOk(t.cpc, t.pubs, t.seenP, P(t), C(t), E(t), t.ends, t.taken)
  {
  }

  lemma CommitContent(storage: seq<byte>, stream: seq<byte>, p: Pos, c: Pos, e: nat, n: nat)
    requires Geometry(p, c, e) && Content(storage, stream, p, c, e) && p.off + n <= |storage|
    requires c.lap != p.lap ==> p.off + n < c.off
    ensures Content(storage, stream + storage[p.off..p.off + n], Pos(p.off + n, p.lap, p.idx + n), c, e)
  {
    var slice := storage[p.off..p.off + n];
    if c.lap == p.lap {
      HoldsMore(storage, stream, c.off, p.off, c.idx, n);
    } else {
      HoldsMore(storage, stream, 0, p.off, c.idx + (e - c.off), n);
      HoldsLonger(storage, stream, slice, c.off, e, c.idx);
    }
  }

  lemma HoldsMore(storage: seq<byte>, stream: seq<byte>, lo: nat, hi: nat, idx: nat, n: nat)
    requires Holds(storage, stream, lo, hi, idx) && idx + (hi - lo) == |stream| && hi + n <= |storage|
    ensures Holds(storage, stream + storage[hi..hi + n], lo, hi + n, idx)
  {
    assert storage[lo..hi + n] == storage[lo..hi] + storage[hi..hi + n];
  }

  lemma HoldsLonger(storage: seq<byte>, stream: seq<byte>, more: seq<byte>, lo: nat, hi: nat, idx: nat)
    requires Holds(storage, stream, lo, hi, idx)
    ensures Holds(storage, stream + more, lo, hi, idx)
  {
    assert (stream + more)[idx..idx + (hi - lo)] == stream[idx..idx + (hi - lo)];
  }

  lemma ShrinkInv(s: State)
    requires Inv(s) && Enabled(s, Shrink)
    ensures Inv(Step(s, Shrink))
  {
    hide Content, Pubs, PubsSorted, Bumps, BumpsSorted, Sorted;
    var t := Step(s, Shrink);
    assert t == s.(free := t.free, ppc := t.ppc);
  }

  lemma LoadPInv(s: State, i: nat)
    requires Inv(s) && Enabled(s, LoadP(i))
    ensures Inv(Step(s, LoadP(i)))
  {
    hide Content, Bumps, BumpsSorted, ProducerOk;
    var t := Step(s, LoadP(i));
    var p, c, e := P(s), C(s), E(s);
    assert PubOk(s.pubs[i], p, c, e, s.ends, |s.marks| - 1);
    assert t == s.(seenP := i, cpc := t.cpc);
    forall j | i <= j < |s.pubs| ensures Before(s.pubs[i].pos, s.pubs[j].pos) {}
    assert Pubs(s.pubs, i, p, c, e, s.ends, |s.marks| - 1);
  }

  lemma LoadEInv(s: State, i: nat)
    requires Inv(s) && Enabled(s, LoadE(i))
    ensures Inv(Step(s, LoadE(i)))
  {
    hide Content, Bumps, BumpsSorted, Sorted, ProducerOk;
    var t := Step(s, LoadE(i));
    assert t == s.(cpc := t.cpc);
    PubAt(s.pubs, s.seenP, s.seenP, P(s), C(s), E(s), s.ends, |s.marks| - 1);
  }

  lemma RollInv(s: State)
    requires Inv(s) && Enabled(s, Roll)
    ensures Inv(Step(s, Roll))
  {
    var t := Step(s, Roll);
    var c' := Pos(0, C(s).lap + 1, C(s).idx);
    assert t == s.(bumps := s.bumps + [c'], cpc := t.cpc);
    RollNext(s, t, c');
  }

  lemma RollNext(s: State, t: State, c': Pos)
    requires Inv(s) && s.cpc.RollOver? && c' == Pos(0, C(s).lap + 1, C(s).idx)
    requires t == s.(bumps := s.bumps + [c'], cpc := t.cpc)
    requires var q := s.cpc.q;
      t.cpc == if q.pos.off == 0 then Polling else Copying(0, q.pos.off, 0, q.cnt)
    ensures Inv(t)
  {
    var p, c, e := P(s), C(s), E(s);
    assert PubOk(s.pubs[s.seenP], p, c, e, s.ends, |s.marks| - 1);
    RollPubs(s.pubs, s.seenP, p, c, e, s.ends, |s.marks| - 1, c', s.cpc.q.pos.off);
    RollBumps(s.bumps, s.seenC, p, c, c');
    RollProducer(s.ppc, s.free, s.bumps, s.seenC, p, e, c');
    hide Pubs, PubsSorted, Bumps, BumpsSorted, Sorted, ProducerOk;
    assert s.storage[0..p.off] == s.storage[..p.off];
  }

  lemma RollPubs(pubs: seq<Pub>, seen: nat, p: Pos, c: Pos, e: nat, ends: seq<nat>, mark: nat, c': Pos, limit: nat)
    requires seen < |pubs| && Pubs(pubs, seen, p, c, e, ends, mark) && PubsSorted(pubs) && Geometry(p, c, e)
    requires c' == Pos(0, c.lap + 1, c.idx) && c.off == e && pubs[seen].pos.off < c.off && limit == pubs[seen].pos.off
    ensures Pubs(pubs, seen, p, c', e, ends, mark) && Visible(pubs, seen, p, c', e, limit)
  {
    assert PubOk(pubs[seen], p, c, e, ends, mark);
    forall i | seen <= i < |pubs| ensures PubOk(pubs[i], p, c', e, ends, mark) && limit <= pubs[i].pos.off {
      assert PubOk(pubs[i], p, c, e, ends, mark) && Before(pubs[seen].pos, pubs[i].pos);
    }
  }

  lemma RollBumps(bumps: seq<Pos>, seen: nat, p: Pos, c: Pos, c': Pos)
    requires seen < |bumps| && Last(bumps) == c && Bumps(bumps, seen, p, c) && BumpsSorted(bumps)
    requires c' == Pos(0, c.lap + 1, c.idx) && p.lap == c.lap + 1
    ensures Bumps(bumps + [c'], seen, p, c') && BumpsSorted(bumps + [c'])
  {
    forall i | seen <= i < |bumps| ensures BumpOk((bumps + [c'])[i], p, c') { assert BumpOk(bumps[i], p, c); }
    forall i | 0 <= i < |bumps| ensures Before(bumps[i], c') { assert Before(bumps[i], c); }
  }

  lemma RollProducer(ppc: ProducerPc, free: nat, bumps: seq<Pos>, seen: nat, p: Pos, e: nat, c': Pos)
    requires seen < |bumps| && ProducerOk(ppc, free, bumps, seen, p, e) && c'.lap == p.lap
    ensures ProducerOk(ppc, free, bumps + [c'], seen, p, e)
  {
    forall room: nat | Room(bumps, seen, p, room) ensures Room(bumps + [c'], seen, p, room) {}
  }

  lemma CopyByteInv(s: State)
    requires Inv(s) && Enabled(s, CopyByte) && Safe(s, CopyByte)
    ensures Inv(Step(s, CopyByte))
  {
    hide Content, Pubs, PubsSorted, Bumps, BumpsSorted, Sorted, ProducerOk;
    var t := Step(s, CopyByte);
    var p, c, e := P(s), C(s), E(s);
    assert t == s.(delivered := t.delivered, cpc := t.cpc);
    assert Geometry(p, c, e);
    CopiedByte(s.storage, s.stream, p, c, e, s.cpc.copied);
  }

  /** The byte the copy loop reads is the next byte of the stream. */
  lemma CopiedByte(storage: seq<byte>, stream: seq<byte>, p: Pos, c: Pos, e: nat, k: nat)
    requires Geometry(p, c, e) && Content(storage, stream, p, c, e) && |storage| == STAGING_BUFFER_SIZE
    requires c.off + k < if c.lap == p.lap then p.off else e
    ensures c.idx + k < |stream| && storage[c.off + k] == stream[c.idx + k]
  {
    var hi := if c.lap == p.lap then p.off else e;
    assert storage[c.off..hi][k] == stream[c.idx..c.idx + (hi - c.off)][k];
  }

  lemma ReleaseInv(s: State)
    requires Inv(s) && Enabled(s, Release) && Safe(s, Release)
    ensures Inv(Step(s, Release))
  {
    ReleaseNext(s, Step(s, Release), s.cpc.copied);
  }

  lemma ReleaseNext(s: State, t: State, n: nat)
    requires Inv(s) && s.cpc.Copying? && n == s.cpc.copied == Chunk(s.cpc.remaining)
    requires t == s.(bumps := s.bumps + [Pos(C(s).off + n, C(s).lap, C(s).idx + n)], cpc := t.cpc, taken := t.taken)
    requires if n == s.cpc.remaining then t.cpc == Polling && t.taken == s.cpc.upTo
             else t.taken == s.taken && t.cpc == Copying(s.cpc.at + n, s.cpc.remaining - n, 0, s.cpc.upTo)
    ensures Inv(t)
  {
    hide Content, Pubs, PubsSorted, Bumps, BumpsSorted, Sorted;
    var p, c, e := P(s), C(s), E(s);
    ReleaseContent(s.storage, s.stream, p, c, e, n);
    ReleasePubs(s.pubs, s.seenP, p, c, e, s.ends, |s.marks| - 1, n, c.off + s.cpc.remaining);
    ReleaseBumps(s.bumps, s.seenC, p, c, e, n);
    ReleaseProducer(s.ppc, s.free, s.bumps, s.seenC, p, c, e, n);
  }

  lemma ReleaseProducer(ppc: ProducerPc, free: nat, bumps: seq<Pos>, seen: nat, p: Pos, c: Pos, e: nat, n: nat)
    requires seen < |bumps| && Last(bumps) == c && ProducerOk(ppc, free, bumps, seen, p, e)
    ensures ProducerOk(ppc, free, bumps + [Pos(c.off + n, c.lap, c.idx + n)], seen, p, e)
  {
    var bumps' := bumps + [Pos(c.off + n, c.lap, c.idx + n)];
    forall room: nat | Room(bumps, seen, p, room) ensures Room(bumps', seen, p, room) {
      assert bumps[|bumps| - 1].lap == p.lap || p.off + room <= c.off;
    }
  }

  lemma HoldsDrop(storage: seq<byte>, stream: seq<byte>, lo: nat, hi: nat, idx: nat, n: nat)
    requires Holds(storage, stream, lo, hi, idx) && lo + n <= hi
    ensures Holds(storage, stream, lo + n, hi, idx + n)
  {
    assert storage[lo + n..hi] == storage[lo..hi][n..];
    assert stream[idx + n..idx + (hi - lo)] == stream[idx..idx + (hi - lo)][n..];
  }

  lemma ReleaseContent(storage: seq<byte>, stream: seq<byte>, p: Pos, c: Pos, e: nat, n: nat)
    requires Geometry(p, c, e) && Content(storage, stream, p, c, e)
    requires c.off + n <= if c.lap == p.lap then p.off else e
    ensures Content(storage, stream, p, Pos(c.off + n, c.lap, c.idx + n), e)
  {
    hide Holds;
    var hi := if c.lap == p.lap then p.off else e;
    assert Holds(storage, stream, c.off, hi, c.idx);
    HoldsDrop(storage, stream, c.off, hi, c.idx, n);
  }

  lemma ReleasePubs(pubs: seq<Pub>, seen: nat, p: Pos, c: Pos, e: nat, ends: seq<nat>, mark: nat, n: nat, limit: nat)
    requires Pubs(pubs, seen, p, c, e, ends, mark) && Visible(pubs, seen, p, c, e, limit) && c.off + n <= limit
    ensures Pubs(pubs, seen, p, Pos(c.off + n, c.lap, c.idx + n), e, ends, mark)
    ensures Visible(pubs, seen, p, Pos(c.off + n, c.lap, c.idx + n), e, limit)
  {
    forall i | seen <= i < |pubs| ensures PubOk(pubs[i], p, Pos(c.off + n, c.lap, c.idx + n), e, ends, mark) {
      assert PubOk(pubs[i], p, c, e, ends, mark);
    }
  }

  lemma ReleaseBumps(bumps: seq<Pos>, seen: nat, p: Pos, c: Pos, e: nat, n: nat)
    requires seen < |bumps| && Last(bumps) == c && Bumps(bumps, seen, p, c) && BumpsSorted(bumps)
    requires Geometry(p, c, e) && c.off + n <= if c.lap == p.lap then p.off else e
    ensures Bumps(bumps + [Pos(c.off + n, c.lap, c.idx + n)], seen, p, Pos(c.off + n, c.lap, c.idx + n))
    ensures BumpsSorted(bumps + [Pos(c.off + n, c.lap, c.idx + n)])
  {
    var c' := Pos(c.off + n, c.lap, c.idx + n);
    assert BumpOk(c, p, c);
    forall i | seen <= i < |bumps| ensures BumpOk((bumps + [c'])[i], p, c') { assert BumpOk(bumps[i], p, c); }
    forall i | 0 <= i < |bumps| ensures Before(bumps[i], c') { assert Before(bumps[i], c); }
  }

  // ---------------------------------------------------------------- every run

  /** No step the programs can take is harmful, and every step keeps the invariant. */
  lemma StepInv(s: State, a: Act)
    requires Inv(s) && Enabled(s, a)
    ensures Safe(s, a) && Inv(Step(s, a))
  {
    hide Inv, Safe, Step, Enabled;
    EnabledIsSafe(s, a);
    match a
    case Reserve(n, blocking) => ReserveInv(s, n, blocking);
    case LoadC(i) => LoadCInv(s, i);
    case PutEnd => PutEndInv(s);
    case PutWrap => PutWrapInv(s);
    case PutFree => PutFreeInv(s);
    case WriteByte(at, value) => WriteByteInv(s, at, value);
    case Commit(n) => CommitInv(s, n);
    case Shrink => ShrinkInv(s);
    case LoadP(i) => LoadPInv(s, i);
    case LoadE(i) => LoadEInv(s, i);
    case Roll => RollInv(s);
    case CopyByte => CopyByteInv(s);
    case Release => ReleaseInv(s);
  }

  /** The two threads, started on a new buffer, can reach `t`. */
  ghost predicate Run(s: State, acts: seq<Act>, t: State)
    decreases |acts|
  {
    if acts == [] then s == t
    else Shape(s) && Enabled(s, acts[0]) && Safe(s, acts[0]) && Run(Step(s, acts[0]), acts[1..], t)
  }

  lemma {:induction false} RunInv(s: State, acts: seq<Act>, t: State)
    requires Inv(s) && Run(s, acts, t)
    ensures Inv(t)
    decreases |acts|
  {
    hide Inv, Safe, Step, Enabled;
    if acts != [] {
      StepInv(s, acts[0]);
      RunInv(Step(s, acts[0]), acts[1..], t);
    }
  }

  lemma {:induction false} RunConcat(s: State, a: seq<Act>, t: State, b: seq<Act>, u: State)
    requires Run(s, a, t) && Run(t, b, u)
    ensures Run(s, a + b, u)
    decreases |a|
  {
    hide Safe, Step, Enabled;
    if a == [] {
      assert a + b == b;
    } else {
      RunConcat(Step(s, a[0]), a[1..], t, b, u);
      assert (a + b)[0] == a[0] && (a + b)[1..] == a[1..] + b;
    }
  }

  /** The states the two programs can be in. */
  ghost predicate Reachable(s: State) {
    exists z, acts :: Init(z) && Run(z, acts, s)
  }

  lemma ReachableInv(s: State)
    requires Reachable(s)
    ensures Inv(s)
  {
    hide Inv, Safe, Step, Enabled, Init;
    var z, acts :| Init(z) && Run(z, acts, s);
    InitInv(z);
    RunInv(z, acts, s);
  }

  /** First in, first out, across any number of roll-overs and under every interleaving: what has
      been copied out is at every moment a prefix of what has been committed, and no step the
      programs can take next is out of bounds or fails an assert. */
  lemma FifoOnEveryRun(s: State, acts: seq<Act>, t: State)
    requires Init(s) && Run(s, acts, t)
    ensures t.delivered <= t.stream
    ensures Shape(t) && forall a | Enabled(t, a) :: Safe(t, a)
  {
    hide Inv, Safe, Step, Enabled, Init, Shape;
    InitInv(s);
    RunInv(s, acts, t);
    DeliveredIsPrefix(t);
    forall a | Enabled(t, a) ensures Safe(t, a) {
      EnabledIsSafe(t, a);
    }
  }

  lemma DeliveredIsPrefix(s: State)
    requires Inv(s)
    ensures Shape(s) && s.delivered <= s.stream
  {
  }

  /** Storage offset `o` holds a committed byte the consumer has not released. */
  ghost predicate Unreleased(s: State, o: nat)
    requires Shape(s)
  {
    if C(s).lap == P(s).lap then C(s).off <= o < P(s).off
    else C(s).off <= o < E(s) || o < P(s).off
  }

  /** What a reservation hands out is inside the storage and touches no unreleased byte, and so
      does any later reservation that `_minFreeSpace` lets through without looking. */
  lemma ReservedSpanIsFree(s: State, o: nat)
    requires Shape(s) && Reachable(s) && (s.ppc.Reserved? || s.ppc.Outside?)
    requires P(s).off <= o < P(s).off + (if s.ppc.Reserved? then s.ppc.n else s.free)
    ensures o < STAGING_BUFFER_SIZE && !Unreleased(s, o)
  {
    ReachableInv(s);
    assert BumpOk(C(s), P(s), C(s));
  }

  /** A span `peek` returns is a whole number (at least one) of committed entries, also when it
      ends at the roll-over. */
  lemma PeekedSpanIsWholeEntries(s: State, a: Act)
    requires Shape(s) && Reachable(s) && Enabled(s, a) && !s.cpc.Copying? && Safe(s, a) && Step(s, a).cpc.Copying?
    ensures var t := Step(s, a); var w := t.cpc;
      && t.taken < w.upTo < |t.ends| && w.at + w.remaining <= STAGING_BUFFER_SIZE == |t.storage|
      && t.ends[t.taken] + w.remaining == t.ends[w.upTo] <= |t.stream|
      && t.storage[w.at..w.at + w.remaining] == t.stream[t.ends[t.taken]..t.ends[w.upTo]]
  {
    hide Inv, Step, Safe, Enabled, Reachable;
    ReachableInv(s);
    PeekedSpan(s, a);
  }

  lemma PeekedSpan(s: State, a: Act)
    requires Inv(s) && Enabled(s, a) && !s.cpc.Copying? && Safe(s, a) && Step(s, a).cpc.Copying?
    ensures var t := Step(s, a); var w := t.cpc;
      && t.taken < w.upTo < |t.ends| && w.at + w.remaining <= STAGING_BUFFER_SIZE == |t.storage|
      && t.ends[t.taken] + w.remaining == t.ends[w.upTo] <= |t.stream|
      && t.storage[w.at..w.at + w.remaining] == t.stream[t.ends[t.taken]..t.ends[w.upTo]]
  {
    hide Content, Pubs, PubsSorted, Bumps, BumpsSorted, ProducerOk, Geometry, Step;
    var t := Step(s, a);
    assert Shape(t) && t.ends[t.taken] == C(t).idx by { PeekStart(s, a); }
    assert Inv(t) by { StepInv(s, a); }
    SpanIsStream(t);
  }

  lemma PeekStart(s: State, a: Act)
    requires Inv(s) && Enabled(s, a) && !s.cpc.Copying? && Safe(s, a) && Step(s, a).cpc.Copying?
    ensures var t := Step(s, a); Shape(t) && t.ends[t.taken] == C(t).idx
  {
    hide Content, Pubs, PubsSorted, Bumps, BumpsSorted, Sorted;
  }

  lemma SpanIsStream(t: State)
    requires Inv(t) && t.cpc.Copying?
    ensures var w := t.cpc;
      && t.taken <= w.upTo < |t.ends| && w.at == C(t).off && w.at + w.remaining <= STAGING_BUFFER_SIZE == |t.storage|
      && C(t).idx + w.remaining == t.ends[w.upTo] <= |t.stream|
      && t.storage[w.at..w.at + w.remaining] == t.stream[C(t).idx..t.ends[w.upTo]]
  {
    hide Pubs, PubsSorted, Bumps, BumpsSorted;
    var w := t.cpc;
    var p, c, e := P(t), C(t), E(t);
    var hi := if c.lap == p.lap then p.off else e;
    assert Holds(t.storage, t.stream, c.off, hi, c.idx);
    HoldsPrefix(t.storage, t.stream, c.off, hi, c.idx, w.remaining);
  }

  lemma HoldsPrefix(storage: seq<byte>, stream: seq<byte>, lo: nat, hi: nat, idx: nat, n: nat)
    requires Holds(storage, stream, lo, hi, idx) && n <= hi - lo
    ensures storage[lo..lo + n] == stream[idx..idx + n]
  {
    assert storage[lo..lo + n] == storage[lo..hi][..n];
    assert stream[idx..idx + n] == stream[idx..idx + (hi - lo)][..n];
  }

  /** Nothing the producer does changes what is left of a span while it is copied and released. */
  lemma PeekedSpanIsStable(s: State, a: Act)
    requires Shape(s) && Reachable(s) && Enabled(s, a) && Safe(s, a) && s.cpc.Copying?
    ensures s.cpc.at + s.cpc.remaining <= STAGING_BUFFER_SIZE == |Step(s, a).storage|
    ensures Step(s, a).storage[s.cpc.at..s.cpc.at + s.cpc.remaining]
         == s.storage[s.cpc.at..s.cpc.at + s.cpc.remaining]
  {
    hide Reachable;
    ReachableInv(s);
    SpanIsStream(s);
    hide Content, Sorted, PubsSorted, BumpsSorted;
    assert BumpOk(C(s), P(s), C(s));
  }

  /** A chunk is given back to the producer only after all of it has been read, and a finished
      span has been copied completely: the copy stands exactly at the end of its last entry. */
  lemma ReleasedAfterRead(s: State)
    requires Shape(s) && Reachable(s) && Enabled(s, Release) && Safe(s, Release)
    ensures var t := Step(s, Release);
      && Shape(t) && C(t).idx <= |t.stream| && t.delivered == t.stream[..C(t).idx]
      && (t.cpc.Polling? ==> t.taken == s.cpc.upTo && C(t).idx == t.ends[t.taken])
      && (t.cpc.Copying? ==> C(t).idx < t.ends[s.cpc.upTo])
  {
    hide Reachable;
    ReachableInv(s);
    ReleaseInv(s);
  }

  /** No step takes back what was committed or delivered. */
  lemma StepGrows(s: State, a: Act)
    requires Shape(s) && Enabled(s, a) && Safe(s, a)
    ensures var t := Step(s, a); s.stream <= t.stream && s.ends <= t.ends && s.delivered <= t.delivered
  {
  }

  // ---------------------------------------------------------------- no stuck producer

  /** The consumer has taken everything committed and is between two peeks. */
  ghost predicate Drained(s: State)
    requires Shape(s)
  {
    C(s).idx == P(s).idx && s.cpc.Polling?
  }

  /** The producer is inside a blocking reserve of `n` bytes that has no space yet. */
  predicate Waiting(s: State, n: nat) {
    match s.ppc
    case LoadConsumer(m, blocking) => m == n && blocking
    case StoreEnd(m, blocking, _) => m == n && blocking
    case StoreWrap(m, blocking, _) => m == n && blocking
    case RefreshFree(m, blocking, _) => m == n && blocking
    case _ => false
  }

  /** The producer's next step, with a load that returns the newest consumer position. */
  function Next(s: State): Act
    requires Shape(s)
  {
    match s.ppc
    case StoreEnd(_, _, _) => PutEnd
    case StoreWrap(_, _, _) => PutWrap
    case RefreshFree(_, _, _) => PutFree
    case _ => LoadC(|s.bumps| - 1)
  }

  /** The producer running alone, on fresh loads, while it waits for `n` bytes.  `Next` leaves it
      no choice, so this is the run it makes. */
  ghost predicate Alone(s: State, n: nat, acts: seq<Act>, t: State)
    decreases |acts|
  {
    if acts == [] then s == t
    else
      && Shape(s) && Waiting(s, n) && acts[0] == Next(s) && Enabled(s, acts[0]) && Safe(s, acts[0])
      && Alone(Step(s, acts[0]), n, acts[1..], t)
  }

  /** One complete `peek` of an empty lap: three steps on fresh loads. */
  function FreshPeek(s: State): seq<Act>
    requires Shape(s)
  {
    [LoadP(|s.pubs| - 1), LoadE(|s.marks| - 1), Roll]
  }

  /** The producer has rolled over and the drained consumer has not: one peek lets it through. */
  ghost predicate NeedsPeek(s: State, n: nat) {
    Inv(s) && Waiting(s, n) && s.ppc.LoadConsumer? && Drained(s) && C(s).lap != P(s).lap
  }

  ghost predicate Served(s: State, n: nat) {
    s.ppc == Reserved(n) || NeedsPeek(s, n)
  }

  lemma NewestPub(s: State)
    requires Inv(s)
    ensures Last(s.pubs).mark < |s.marks|
  {
    assert PubOk(s.pubs[|s.pubs| - 1], P(s), C(s), E(s), s.ends, |s.marks| - 1);
  }

  lemma PeekServes(s: State, n: nat) returns (u: State, t: State)
    requires NeedsPeek(s, n) && n < STAGING_BUFFER_SIZE
    ensures Run(s, FreshPeek(s), u) && u.cpc == Polling
    ensures Shape(u) && Alone(u, n, [Next(u)], t) && t.ppc == Reserved(n)
  {
    hide Content, Pubs, PubsSorted, Bumps, BumpsSorted, Sorted;
    var acts := FreshPeek(s);
    NewestPub(s);
    assert P(s).off == 0 < C(s).off == E(s);
    var s1 := Step(s, acts[0]);
    assert s1 == s.(seenP := |s.pubs| - 1, cpc := LoadEnd(Last(s.pubs)));
    var s2 := Step(s1, acts[1]);
    assert s2 == s1.(cpc := RollOver(Last(s.pubs)));
    u := Step(s2, acts[2]);
    assert u == s2.(cpc := Polling, bumps := s.bumps + [Pos(0, C(s).lap + 1, C(s).idx)]);
    t := Step(u, Next(u));
    assert acts[1..] == [acts[1], acts[2]] && acts[1..][1..] == [acts[2]] && acts[1..][1..][1..] == [];
    assert Run(s2, [acts[2]], u);
    assert Run(s1, acts[1..], u);
  }

  lemma {:induction false} AloneConcat(s: State, n: nat, a: seq<Act>, t: State, b: seq<Act>, u: State)
    requires Alone(s, n, a, t) && Alone(t, n, b, u)
    ensures Alone(s, n, a + b, u)
    decreases |a|
  {
    hide Safe, Step, Enabled;
    if a == [] {
      assert a + b == b;
    } else {
      AloneConcat(Step(s, a[0]), n, a[1..], t, b, u);
      assert (a + b)[0] == a[0] && (a + b)[1..] == a[1..] + b;
    }
  }

  /** One step of the waiting producer on fresh loads. */
  lemma NextStep(s: State, n: nat) returns (t: State)
    requires Inv(s) && Waiting(s, n) && Drained(s)
    ensures Enabled(s, Next(s)) && Safe(s, Next(s)) && t == Step(s, Next(s))
    ensures Alone(s, n, [Next(s)], t) && Inv(t) && Drained(t) && (Waiting(t, n) || t.ppc == Reserved(n))
    ensures s.ppc.RefreshFree? ==> Served(t, n) || (t.ppc.LoadConsumer? && C(t).lap == P(t).lap && P(t).off == 0)
    ensures s.ppc.StoreWrap? ==> t.ppc.RefreshFree?
    ensures s.ppc.StoreEnd? ==> if s.ppc.k.off != 0 then t.ppc.StoreWrap?
        else t.ppc.LoadConsumer? && C(t).lap == P(t).lap
    ensures s.ppc.LoadConsumer? && C(s).lap == P(s).lap && n < STAGING_BUFFER_SIZE ==>
      t.ppc == Reserved(n) || (P(s).off != 0 && t.ppc.StoreEnd? && t.ppc.k.off != 0)
  {
    StepInv(s, Next(s));
    t := Step(s, Next(s));
    WaitingStep(s, n, t);
  }

  lemma WaitingStep(s: State, n: nat, t: State)
    requires Inv(s) && Waiting(s, n) && Drained(s) && Enabled(s, Next(s)) && Safe(s, Next(s)) && t == Step(s, Next(s))
    requires Inv(t)
    ensures Drained(t) && (Waiting(t, n) || t.ppc == Reserved(n))
    ensures s.ppc.RefreshFree? ==> Served(t, n) || (t.ppc.LoadConsumer? && C(t).lap == P(t).lap && P(t).off == 0)
    ensures s.ppc.StoreWrap? ==> t.ppc.RefreshFree?
    ensures s.ppc.StoreEnd? ==> if s.ppc.k.off != 0 then t.ppc.StoreWrap?
        else t.ppc.LoadConsumer? && C(t).lap == P(t).lap
    ensures s.ppc.LoadConsumer? && C(s).lap == P(s).lap && n < STAGING_BUFFER_SIZE ==>
      t.ppc == Reserved(n) || (P(s).off != 0 && t.ppc.StoreEnd? && t.ppc.k.off != 0)
  {
    hide Content, Pubs, PubsSorted, BumpsSorted, Sorted;
    assert BumpOk(s.bumps[s.seenC], P(s), C(s));
    assert C(t) == C(s);
  }

  /** No stuck producer.  Once everything committed has been consumed, a blocking reserve of any
      `n` below the buffer size gets its space after at most six producer steps; or after those,
      one complete `peek` of the consumer and one more step. */
  lemma NoStuckProducer(s: State, n: nat) returns (acts: seq<Act>, t: State)
    requires Shape(s) && Reachable(s) && Waiting(s, n) && Drained(s) && n < STAGING_BUFFER_SIZE
    ensures |acts| <= 6 && Alone(s, n, acts, t)
    ensures t.ppc == Reserved(n) || (NeedsPeek(t, n) && exists u, v ::
        Run(t, FreshPeek(t), u) && u.cpc == Polling && Shape(u) && Alone(u, n, [Next(u)], v) && v.ppc == Reserved(n))
  {
    hide Inv, Waiting, Drained, Next, Enabled, Safe, Step, Reachable;
    ReachableInv(s);
    acts, t := WaitOut(s, n, 6);
    if t.ppc != Reserved(n) {
      var u, v := PeekServes(t, n);
    }
  }

  /** How many steps are left at most before the producer has its space or needs the peek. */
  function Distance(s: State): nat
    requires Shape(s)
  {
    match s.ppc
    case RefreshFree(_, _, _) => 2
    case StoreWrap(_, _, _) => 3
    case StoreEnd(_, _, k) => if k.off != 0 then 4 else 6
    case LoadConsumer(_, _) => if C(s).lap != P(s).lap then 0 else if P(s).off == 0 then 1 else 5
    case _ => 0
  }

  lemma {:induction false} WaitOut(s: State, n: nat, fuel: nat) returns (acts: seq<Act>, t: State)
    requires Inv(s) && Waiting(s, n) && Drained(s) && n < STAGING_BUFFER_SIZE && Distance(s) <= fuel
    ensures |acts| <= fuel && Alone(s, n, acts, t) && Served(t, n)
    decreases fuel
  {
    hide Content, Pubs, PubsSorted, Bumps, BumpsSorted, Sorted, Enabled, Safe, Step;
    if NeedsPeek(s, n) {
      acts, t := [], s;
    } else {
      var s' := NextStep(s, n);
      if s'.ppc == Reserved(n) {
        acts, t := [Next(s)], s';
      } else {
        var rest;
        rest, t := WaitOut(s', n, fuel - 1);
        AloneConcat(s, n, [Next(s)], s', rest, t);
        acts := [Next(s)] + rest;
      }
    }
  }
}
