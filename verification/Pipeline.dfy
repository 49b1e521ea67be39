/** The four layers in one claim: what a thread logs is what the sink prints.  What the stores of
    `TZ_LOG` have left of a reservation is what its commit publishes; the records the sink processes
    are those commits, in order; and reading a record in the sink's buffer makes the conversions
    that formatting the call at once would have made. */
module Pipeline {
  import opened ArgEncoding
  import opened Bytes
  import opened LogBlocks
  import opened Sequences
  import opened SpecInfos
  import E = EndToEnd
  import F = FormatScan
  import G = FormatCompiler
  import K = SinkBuffering
  import P = Printf
  import R = StagingRing

  // ---------------------------------------------------------------- storing and committing

  /** A reservation leaves room for itself. */
  predicate Holding(s: R.State) {
    R.Shape(s) && s.ppc.Reserved? && R.P(s).off + s.ppc.n < R.STAGING_BUFFER_SIZE
  }

  /** The reserved bytes, which nobody else looks at before the commit. */
  function Window(s: R.State): seq<byte>
    requires Holding(s)
  {
    s.storage[R.P(s).off..R.P(s).off + s.ppc.n]
  }

  /** What one step does to a window: a store changes its byte, anything else nothing. */
  function Into(w: seq<byte>, a: R.Act): seq<byte> {
    if a.WriteByte? && a.at < |w| then w[a.at := a.value] else w
  }

  /** What these steps leave of a window, in whatever order and however often they store. */
  function Fold(w: seq<byte>, acts: seq<R.Act>): (r: seq<byte>)
    ensures |r| == |w|
  {
    if acts == [] then w else Into(Fold(w, acts[..|acts| - 1]), Last(acts))
  }

  lemma FoldSnoc(w: seq<byte>, acts: seq<R.Act>, a: R.Act)
    ensures Fold(w, acts + [a]) == Into(Fold(w, acts), a)
  {
    assert (acts + [a])[..|acts|] == acts;
  }

  /** The producer does nothing but store. */
  predicate OnlyStores(acts: seq<R.Act>) {
    forall i | 0 <= i < |acts| && E.ByProducer(acts[i]) :: acts[i].WriteByte?
  }

  /** While a reservation is held, nothing but a store of its owner changes its bytes. */
  lemma WindowStep(s: R.State, a: R.Act)
    requires R.Inv(s) && Holding(s) && R.Enabled(s, a) && R.Safe(s, a) && !a.Commit?
    ensures var t := R.Step(s, a);
      && Holding(t) && t.ppc == s.ppc && R.P(t) == R.P(s) && t.stream == s.stream && t.ends == s.ends
      && Window(t) == Into(Window(s), a) && (E.ByProducer(a) ==> a.WriteByte?)
  {
    hide R.Inv, Window;
    WindowOf(s);
    WindowOf(R.Step(s, a));
    if a.WriteByte? { SliceStore(s.storage, R.P(s).off, s.ppc.n, a.at, a.value); }
  }

  lemma WindowOf(s: R.State)
    requires Holding(s)
    ensures Window(s) == s.storage[R.P(s).off..R.P(s).off + s.ppc.n] && |Window(s)| == s.ppc.n
  {
  }

  lemma SliceStore(storage: seq<byte>, off: nat, n: nat, at: nat, value: byte)
    requires at < n && off + n <= |storage|
    ensures storage[off + at := value][off..off + n] == storage[off..off + n][at := value]
  {
  }

  lemma {:induction false} StoredSoFar(s: R.State, acts: seq<R.Act>, t: R.State, w: seq<byte>, done: seq<R.Act>)
    requires R.Inv(s) && Holding(s) && R.Run(s, acts, t) && OnlyStores(acts) && Window(s) == Fold(w, done)
    ensures R.Inv(t) && Holding(t) && t.ppc == s.ppc && t.stream == s.stream && t.ends == s.ends
    ensures Window(t) == Fold(w, done + acts)
    decreases |acts|
  {
    hide R.Inv, R.Step, R.Enabled, R.Safe, R.Shape, Fold, Into, Holding, Window;
    if acts == [] {
      assert done + acts == done;
    } else {
      var s' := R.Step(s, acts[0]);
      NoCommit(acts[0]);
      WindowStep(s, acts[0]);
      R.StepInv(s, acts[0]);
      FoldSnoc(w, done, acts[0]);
      StoredSoFar(s', acts[1..], t, w, done + [acts[0]]);
      assert done + [acts[0]] + acts[1..] == done + acts;
    }
  }

  lemma NoCommit(a: R.Act)
    requires E.ByProducer(a) ==> a.WriteByte?
    ensures !a.Commit?
  {
  }

  /** Whatever the stores between reserve and commit are, in any order, repeated or not, and whatever
      the consumer does in between: the commit adds to the stream what they have left, one more
      entry with exactly these bytes. */
  lemma StoredIsCommitted(s: R.State, acts: seq<R.Act>, t: R.State, e: seq<byte>)
    requires R.Inv(s) && Holding(s) && R.Run(s, acts, t) && OnlyStores(acts)
    requires e <= Fold(Window(s), acts)
    ensures R.Shape(t) && R.Enabled(t, R.Commit(|e|)) && R.Safe(t, R.Commit(|e|))
    ensures var u := R.Step(t, R.Commit(|e|));
      u.stream == s.stream + e && u.ends == s.ends + [|s.stream| + |e|]
  {
    hide R.Inv, R.Step, R.Run;
    assert Fold(Window(s), []) == Window(s) && [] + acts == acts;
    StoredSoFar(s, acts, t, Window(s), []);
    ReservedFits(t);
    CommitStored(t, e);
  }

  /** A commit publishes the front of the window. */
  lemma CommitStored(t: R.State, e: seq<byte>)
    requires Holding(t) && t.ppc.n < t.free && e <= Window(t)
    ensures R.Enabled(t, R.Commit(|e|)) && R.Safe(t, R.Commit(|e|))
    ensures t.storage[R.P(t).off..R.P(t).off + |e|] == e
    ensures var u := R.Step(t, R.Commit(|e|));
      u.stream == t.stream + e && u.ends == t.ends + [|t.stream| + |e|]
  {
    var w := Window(t);
    assert w[..|e|] == e;
    assert t.storage[R.P(t).off..R.P(t).off + |e|] == w[..|e|];
  }

  lemma ReservedFits(s: R.State)
    requires R.Inv(s) && s.ppc.Reserved?
    ensures Holding(s) && s.ppc.n < s.free
  {
    assert R.Safe(s, R.Commit(s.ppc.n)) by { R.EnabledIsSafe(s, R.Commit(s.ppc.n)); }
  }

  // ---- what stores leave, whatever was there before

  /** The value that was stored last at a place of the window. */
  function LastStored(stores: seq<R.Act>, at: nat): K.Option<byte> {
    if stores == [] then K.None
    else if Last(stores).WriteByte? && Last(stores).at == at then K.Some(Last(stores).value)
    else LastStored(stores[..|stores| - 1], at)
  }

  /** From `base` on, the last stores are those of the bytes of `e`. */
  predicate Leaves(stores: seq<R.Act>, base: nat, e: seq<byte>) {
    forall i | 0 <= i < |e| :: LastStored(stores, base + i) == K.Some(e[i])
  }

  lemma {:induction false} FoldAt(w: seq<byte>, stores: seq<R.Act>, at: nat)
    requires at < |w|
    ensures Fold(w, stores)[at] == match LastStored(stores, at) case Some(v) => v case None => w[at]
    decreases |stores|
  {
    if stores != [] { FoldAt(w, stores[..|stores| - 1], at); }
  }

  /** Stores leave `e` in front of every window, as `WriteLogEntry` leaves the entry in any memory, if
      and only if each byte of it has been stored and not been overwritten. */
  lemma LeavesIff(stores: seq<R.Act>, e: seq<byte>, n: nat)
    requires |e| <= n
    ensures Leaves(stores, 0, e) <==> forall w | |w| == n :: e <= Fold(w, stores)
  {
    hide Fold, Leaves;
    if Leaves(stores, 0, e) {
      forall w | |w| == n ensures e <= Fold(w, stores) { LeavesInFront(stores, e, w); }
    } else {
      var w := LeavesNot(stores, e, n);
    }
  }

  lemma LeavesNot(stores: seq<R.Act>, e: seq<byte>, n: nat) returns (w: seq<byte>)
    requires |e| <= n && !Leaves(stores, 0, e)
    ensures |w| == n && !(e <= Fold(w, stores))
  {
    hide Fold, LastStored;
    var i :| 0 <= i < |e| && LastStored(stores, 0 + i) != K.Some(e[i]);
    var other: byte := if e[i] == 0 then 1 else 0;
    w := seq(n, _ => other);
    FoldAt(w, stores, i);
    assert Fold(w, stores)[i] != e[i];
  }

  lemma LeavesInFront(stores: seq<R.Act>, e: seq<byte>, w: seq<byte>)
    requires Leaves(stores, 0, e) && |e| <= |w|
    ensures e <= Fold(w, stores)
  {
    hide Fold, LastStored;
    forall i | 0 <= i < |e| ensures Fold(w, stores)[i] == e[i] {
      FoldAt(w, stores, i);
      assert LastStored(stores, 0 + i) == K.Some(e[i]);
    }
  }

  lemma {:induction false} LastOfBoth(a: seq<R.Act>, b: seq<R.Act>, at: nat)
    ensures LastStored(a + b, at) == if LastStored(b, at).Some? then LastStored(b, at) else LastStored(a, at)
    decreases |b|
  {
    if b == [] {
      assert a + b == a;
    } else {
      assert (a + b)[..|a + b| - 1] == a + b[..|b| - 1];
      LastOfBoth(a, b[..|b| - 1], at);
    }
  }

  /** The order of `TZ_LOG`: the header is made empty, then the body is stored, then the header is
      filled in; that leaves the entry. */
  lemma HeaderLast(zeros: seq<R.Act>, body: seq<R.Act>, header: seq<R.Act>, e: seq<byte>)
    requires |e| >= ENTRY_HEADER_SIZE
    requires Leaves(header, 0, e[..ENTRY_HEADER_SIZE]) && Leaves(body, ENTRY_HEADER_SIZE, e[ENTRY_HEADER_SIZE..])
    requires forall a | a in header && a.WriteByte? :: a.at < ENTRY_HEADER_SIZE
    ensures Leaves(zeros + body + header, 0, e)
  {
    hide LastStored;
    forall i | 0 <= i < |e| ensures LastStored(zeros + body + header, 0 + i) == K.Some(e[i]) {
      LastOfBoth(zeros + body, header, i);
      LastOfBoth(zeros, body, i);
      if i < ENTRY_HEADER_SIZE {
        assert LastStored(header, 0 + i) == K.Some(e[..ENTRY_HEADER_SIZE][i]);
      } else {
        NotStored(header, i);
        var k := i - ENTRY_HEADER_SIZE;
        assert LastStored(body, ENTRY_HEADER_SIZE + k) == K.Some(e[ENTRY_HEADER_SIZE..][k]);
      }
    }
  }

  lemma {:induction false} NotStored(stores: seq<R.Act>, at: nat)
    requires forall a | a in stores && a.WriteByte? :: a.at != at
    ensures LastStored(stores, at) == K.None
    decreases |stores|
  {
    if stores != [] {
      assert Last(stores) in stores;
      NotStored(stores[..|stores| - 1], at);
    }
  }

  // ---------------------------------------------------------------- the calls of a run

  /** A `TZ_LOG` call: its format with what identifies it, the time, the arguments. */
  datatype LogCall = LogCall(fmtId: nat, timestamp: nat, fmt: seq<char>, args: seq<Arg>)

  /** The specifiers of a format that convert something. */
  function Conversions(fmt: seq<char>): seq<SpecInfo>
    requires F.CStr(fmt)
  {
    var specs := G.Specs(fmt);
    specs[..|specs| - 1]
  }

  predicate CallOk(c: LogCall) {
    F.CStr(c.fmt) && AllOk(c.args) && |c.args| >= ArgsRequired(Conversions(c.fmt))
  }

  function EntryOf(c: LogCall): seq<byte>
    requires CallOk(c)
  {
    LogEntry(c.fmtId, c.timestamp, Conversions(c.fmt), c.args)
  }

  /** What thread `t` publishes in a step: the bytes in its reserved space. */
  ghost function Published(s: E.State, a: E.Act, t: nat): seq<seq<byte>>
    requires E.Enabled(s, a) && E.Safe(s, a)
  {
    if a.Log? && a.t == t && a.a.Commit? then
      var ring := s.threads[t].ring;
      [ring.storage[R.P(ring).off..R.P(ring).off + a.a.n]]
    else []
  }

  /** What thread `t` publishes in a run, commit by commit. */
  ghost function CommitsOf(s: E.State, acts: seq<E.Act>, u: E.State, t: nat): seq<seq<byte>>
    requires E.Run(s, acts, u)
    decreases |acts|
  {
    if acts == [] then [] else Published(s, acts[0], t) + CommitsOf(E.Step(s, acts[0]), acts[1..], u, t)
  }

  ghost function Committed(ring: R.State): seq<seq<byte>>
    requires R.Inv(ring)
  {
    E.CommittedOk(ring);
    E.Committed(ring)
  }

  /** The entries thread `t` has committed, none if it has not started. */
  ghost function CommittedBy(s: E.State, t: nat): seq<seq<byte>>
    requires E.Inv(s)
  {
    if t < |s.threads| then
      E.RingThere(s, t);
      Committed(s.threads[t].ring)
    else []
  }

  lemma StreamEnd(ring: R.State)
    requires R.Inv(ring)
    ensures R.Shape(ring) && Last(ring.ends) == |ring.stream|
  {
    hide R.Pubs, R.PubsSorted, R.Bumps, R.BumpsSorted, R.ProducerOk, R.ConsumerOk, R.Holds;
  }

  /** Only a commit changes stream and ends. */
  lemma NothingCommitted(ring: R.State, b: R.Act)
    requires R.Shape(ring) && R.Enabled(ring, b) && R.Safe(ring, b) && !b.Commit?
    ensures R.Step(ring, b).stream == ring.stream && R.Step(ring, b).ends == ring.ends
  {
  }

  lemma CommitAdds(ring: R.State, n: nat)
    requires R.Inv(ring) && R.Enabled(ring, R.Commit(n)) && R.Safe(ring, R.Commit(n))
    requires R.Inv(R.Step(ring, R.Commit(n)))
    ensures Committed(R.Step(ring, R.Commit(n)))
         == Committed(ring) + [ring.storage[R.P(ring).off..R.P(ring).off + n]]
  {
    hide R.Inv, R.Commits, E.Cut;
    StreamEnd(ring);
    var t := R.Step(ring, R.Commit(n));
    E.CommittedOk(ring);
    E.CommittedOk(t);
    var k, slice := |ring.ends| - 1, ring.storage[R.P(ring).off..R.P(ring).off + n];
    assert t.stream == ring.stream + slice && t.ends == ring.ends + [|ring.stream| + n];
    E.SameEntries(ring.stream, ring.ends, t.stream, t.ends, 0, k);
    assert E.Entry(t.stream, t.ends, k) == slice;
    forall i | 0 <= i < k + 1 ensures Committed(t)[i] == (Committed(ring) + [slice])[i] {
      if i < k {
        assert Committed(t)[i] == E.Entry(t.stream, t.ends, i) == E.Entries(t.stream, t.ends, 0, k)[i];
      }
    }
  }

  lemma RingStep(ring: R.State, b: R.Act)
    requires R.Inv(ring) && R.Shape(ring) && R.Enabled(ring, b) && R.Safe(ring, b) && R.Inv(R.Step(ring, b))
    ensures Committed(R.Step(ring, b))
         == Committed(ring) + (if b.Commit? then [ring.storage[R.P(ring).off..R.P(ring).off + b.n]] else [])
  {
    hide R.Inv, R.Step;
    if b.Commit? {
      CommitAdds(ring, b.n);
    } else {
      NothingCommitted(ring, b);
    }
  }

  lemma NewRing(ring: R.State)
    requires R.Init(ring) && R.Inv(ring)
    ensures Committed(ring) == []
  {
    hide R.Inv;
    E.CommittedOk(ring);
    assert |E.Committed(ring)| == 0;
  }

  /** What a step of the system does to the ring of thread `t`: one step of that ring, or nothing. */
  lemma RingMoves(s: E.State, a: E.Act, t: nat) returns (moved: bool, b: R.Act)
    requires E.Inv(s) && E.Enabled(s, a) && E.Safe(s, a) && t < |s.threads| && R.Shape(s.threads[t].ring)
    ensures var ring := s.threads[t].ring;
      var u := E.Step(s, a);
      && t < |u.threads|
      && (if moved then R.Enabled(ring, b) && R.Safe(ring, b) && u.threads[t].ring == R.Step(ring, b)
          else u.threads[t].ring == ring)
      && (if a.Log? && a.t == t then moved && b == a.a && E.ByProducer(b) else moved ==> !E.ByProducer(b))
      && Published(s, a, t)
         == if moved && b.Commit? then [ring.storage[R.P(ring).off..R.P(ring).off + b.n]] else []
  {
    hide E.Inv, R.Init, R.Step, R.Safe, R.Enabled, R.Shape, K.Step, K.Safe, K.Enabled, E.Copied, E.Cut;
    moved, b := false, R.LoadE(0);
    match a
    case Log(t', c) => moved, b := t == t', c;
    case Peek(c) => moved, b := t == E.At(s), c;
    case Copy(c) => moved, b := t == E.At(s), c;
    case _ =>
  }

  lemma StepPublishes(s: E.State, a: E.Act, t: nat)
    requires E.Inv(s) && E.Enabled(s, a) && E.Safe(s, a) && E.Inv(E.Step(s, a))
    ensures CommittedBy(E.Step(s, a), t) == CommittedBy(s, t) + Published(s, a, t)
  {
    hide E.Inv, E.Step, E.Safe, E.Enabled, R.Inv, R.Step, R.Safe, R.Enabled, Committed, Published;
    var u := E.Step(s, a);
    if t < |s.threads| {
      E.RingThere(s, t);
      var moved, b := RingMoves(s, a, t);
      E.RingThere(u, t);
      if moved { RingStep(s.threads[t].ring, b); }
    } else {
      Unstarted(s, a, t);
    }
  }

  lemma Unstarted(s: E.State, a: E.Act, t: nat)
    requires E.Inv(s) && E.Enabled(s, a) && E.Safe(s, a) && E.Inv(E.Step(s, a)) && t >= |s.threads|
    ensures Published(s, a, t) == [] && CommittedBy(E.Step(s, a), t) == []
  {
    hide E.Inv, R.Inv, R.Init, R.Step, R.Safe, R.Enabled, K.Step, K.Safe, K.Enabled, Committed, E.Copied, E.Cut;
    if a.Spawn? && t == |s.threads| {
      E.RingThere(E.Step(s, a), t);
      NewRing(a.ring);
    }
  }

  /** What a thread has committed in the end is what it had and what the run published. */
  lemma {:induction false} RunPublishes(s: E.State, acts: seq<E.Act>, u: E.State, t: nat)
    requires E.Inv(s) && E.Run(s, acts, u)
    ensures E.Inv(u) && CommittedBy(u, t) == CommittedBy(s, t) + CommitsOf(s, acts, u, t)
    decreases |acts|
  {
    hide E.Inv, E.Step, E.Safe, E.Enabled, CommittedBy, Published;
    if acts != [] {
      var s' := E.Step(s, acts[0]);
      E.StepInv(s, acts[0]);
      StepPublishes(s, acts[0], t);
      RunPublishes(s', acts[1..], u, t);
      Assoc(CommittedBy(s, t), Published(s, acts[0], t), CommitsOf(s', acts[1..], u, t));
    }
  }

  /** These are the entries of these calls, in their order. */
  ghost predicate EntriesOf(entries: seq<seq<byte>>, calls: seq<LogCall>) {
    |calls| == |entries| && forall k | 0 <= k < |calls| :: CallOk(calls[k]) && entries[k] == EntryOf(calls[k])
  }

  /** The commits of every thread of the run are the entries of these calls, in their order. */
  ghost predicate Logging(z: E.State, acts: seq<E.Act>, u: E.State, calls: seq<seq<LogCall>>)
    requires E.Run(z, acts, u)
  {
    |calls| == |u.threads| && forall t | 0 <= t < |calls| :: EntriesOf(CommitsOf(z, acts, u, t), calls[t])
  }

  // ---- what the threads do, and that it makes their run a logging one

  /** Thread `t` follows `TZ_LOG`: before each commit it has stored, in any order, the entry of its
      next call, of which it commits the length.  `stores` are those since its last commit, `calls`
      the calls that still come to their commit. */
  ghost predicate Follows(acts: seq<E.Act>, t: nat, stores: seq<R.Act>, calls: seq<LogCall>)
    decreases |acts|
  {
    if acts == [] then calls == []
    else if !acts[0].Log? || acts[0].t != t then Follows(acts[1..], t, stores, calls)
    else if acts[0].a.Commit? then
      CommitsNext(acts[0].a.n, stores, calls) && Follows(acts[1..], t, [], calls[1..])
    else Follows(acts[1..], t, Since(stores, acts[0].a), calls)
  }

  /** The `n` bytes to commit are the entry of the next call, and it has been stored. */
  ghost predicate CommitsNext(n: nat, stores: seq<R.Act>, calls: seq<LogCall>) {
    calls != [] && CallOk(calls[0]) && n == |EntryOf(calls[0])| && Leaves(stores, 0, EntryOf(calls[0]))
  }

  /** The stores since the last commit, after one more step of the producer. */
  function Since(stores: seq<R.Act>, a: R.Act): seq<R.Act> {
    if a.Commit? then [] else if a.WriteByte? then stores + [a] else stores
  }

  /** The window is what these stores have left of some other. */
  ghost predicate Under(ring: R.State, stores: seq<R.Act>) {
    if ring.ppc.Reserved? then Holding(ring) && exists w :: Fold(w, stores) == Window(ring) else stores == []
  }

  lemma UnderStep(ring: R.State, b: R.Act, stores: seq<R.Act>)
    requires R.Inv(ring) && R.Shape(ring) && R.Enabled(ring, b) && R.Safe(ring, b) && R.Inv(R.Step(ring, b))
    requires Under(ring, stores)
    ensures Under(R.Step(ring, b), if E.ByProducer(b) then Since(stores, b) else stores)
  {
    hide R.Inv, Fold, Into, Window, Holding;
    var after := R.Step(ring, b);
    if ring.ppc.Reserved? && !b.Commit? {
      WindowStep(ring, b);
      var w :| Fold(w, stores) == Window(ring);
      FoldSnoc(w, stores, b);
      if !b.WriteByte? { assert Into(Window(ring), b) == Window(ring) by { NoStore(Window(ring), b); } }
    } else if after.ppc.Reserved? {
      ReservedFits(after);
      assert Fold(Window(after), []) == Window(after) by { FoldNothing(Window(after)); }
    }
  }

  lemma NoStore(w: seq<byte>, a: R.Act)
    requires !a.WriteByte?
    ensures Into(w, a) == w
  {
  }

  lemma FoldNothing(w: seq<byte>)
    ensures Fold(w, []) == w
  {
  }

  /** What such a thread publishes is its entry. */
  lemma PublishesEntry(ring: R.State, stores: seq<R.Act>, e: seq<byte>)
    requires R.Inv(ring) && Under(ring, stores) && ring.ppc.Reserved? && |e| <= ring.ppc.n && Leaves(stores, 0, e)
    ensures ring.storage[R.P(ring).off..R.P(ring).off + |e|] == e
  {
    hide R.Inv, Fold, Leaves;
    ReservedFits(ring);
    var w :| Fold(w, stores) == Window(ring);
    LeavesInFront(stores, e, w);
    CommitStored(ring, e);
  }

  ghost predicate UnderAt(s: E.State, t: nat, stores: seq<R.Act>) {
    if t < |s.threads| then Under(s.threads[t].ring, stores) else stores == []
  }

  lemma UnderAtStep(s: E.State, a: E.Act, t: nat, stores: seq<R.Act>)
    requires E.Inv(s) && E.Enabled(s, a) && E.Safe(s, a) && E.Inv(E.Step(s, a)) && UnderAt(s, t, stores)
    ensures UnderAt(E.Step(s, a), t, if a.Log? && a.t == t then Since(stores, a.a) else stores)
  {
    hide E.Inv, E.Step, E.Safe, E.Enabled, R.Inv, R.Step, R.Safe, R.Enabled, Under, Published, Since;
    var u := E.Step(s, a);
    if t < |s.threads| {
      E.RingThere(s, t);
      var moved, b := RingMoves(s, a, t);
      E.RingThere(u, t);
      if moved { UnderStep(s.threads[t].ring, b, stores); }
    } else {
      NotYet(s, a, t);
    }
  }

  lemma NotYet(s: E.State, a: E.Act, t: nat)
    requires E.Inv(s) && E.Enabled(s, a) && E.Safe(s, a) && t >= |s.threads|
    ensures !(a.Log? && a.t == t) && UnderAt(E.Step(s, a), t, [])
  {
    hide E.Inv, R.Inv, R.Step, R.Safe, R.Enabled, K.Step, K.Safe, K.Enabled, E.Copied, E.Cut;
  }

  lemma {:induction false} FollowsCommits(s: E.State, acts: seq<E.Act>, u: E.State, t: nat, stores: seq<R.Act>,
                                          calls: seq<LogCall>)
    requires E.Inv(s) && E.Run(s, acts, u) && Follows(acts, t, stores, calls) && UnderAt(s, t, stores)
    ensures EntriesOf(CommitsOf(s, acts, u, t), calls)
    decreases |acts|
  {
    hide E.Inv, E.Step, E.Safe, E.Enabled, Published, UnderAt, CallOk, EntryOf, Leaves;
    if acts != [] {
      var s' := E.Step(s, acts[0]);
      E.StepInv(s, acts[0]);
      UnderAtStep(s, acts[0], t, stores);
      StepEntries(s, acts[0], t, stores, calls);
      var commit := acts[0].Log? && acts[0].t == t && acts[0].a.Commit?;
      var stores' := if acts[0].Log? && acts[0].t == t then Since(stores, acts[0].a) else stores;
      FollowsCommits(s', acts[1..], u, t, stores', if commit then calls[1..] else calls);
    }
  }

  lemma StepEntries(s: E.State, a: E.Act, t: nat, stores: seq<R.Act>, calls: seq<LogCall>)
    requires E.Inv(s) && E.Enabled(s, a) && E.Safe(s, a) && UnderAt(s, t, stores)
    ensures !(a.Log? && a.t == t && a.a.Commit?) ==> Published(s, a, t) == []
    ensures a.Log? && a.t == t && a.a.Commit? && CommitsNext(a.a.n, stores, calls) ==>
      Published(s, a, t) == [EntryOf(calls[0])]
  {
    hide E.Inv, R.Inv, R.Step, K.Step, K.Safe, K.Enabled, E.Copied, E.Cut, CallOk, EntryOf, Leaves, Under;
    if a.Log? && a.t == t && a.a.Commit? && CommitsNext(a.a.n, stores, calls) {
      E.RingThere(s, t);
      PublishesEntry(s.threads[t].ring, stores, EntryOf(calls[0]));
    }
  }

  /** In every run in which each thread stores the entry of each of its calls before it commits it,
      the commits are those entries: a hypothesis on what the threads do alone. */
  lemma ThreadsLog(z: E.State, acts: seq<E.Act>, u: E.State, calls: seq<seq<LogCall>>)
    requires E.Init(z) && E.Run(z, acts, u) && |calls| == |u.threads|
    requires forall t | 0 <= t < |calls| :: Follows(acts, t, [], calls[t])
    ensures Logging(z, acts, u, calls)
  {
    hide E.Inv, E.Run, Follows, EntriesOf, CommitsOf;
    E.InitInv(z);
    forall t | 0 <= t < |calls| ensures EntriesOf(CommitsOf(z, acts, u, t), calls[t]) {
      FollowsCommits(z, acts, u, t, [], calls[t]);
    }
  }

  lemma CommittedCalls(z: E.State, acts: seq<E.Act>, u: E.State, calls: seq<seq<LogCall>>, t: nat)
    requires E.Init(z) && E.Run(z, acts, u) && Logging(z, acts, u, calls) && t < |u.threads|
    ensures R.Inv(u.threads[t].ring) && |Committed(u.threads[t].ring)| == |calls[t]|
    ensures forall k | 0 <= k < |calls[t]| ::
      CallOk(calls[t][k]) && Committed(u.threads[t].ring)[k] == EntryOf(calls[t][k])
  {
    hide E.Inv, E.Run, CommitsOf, Committed, CallOk, EntryOf, R.Inv;
    E.InitInv(z);
    RunPublishes(z, acts, u, t);
    E.RingThere(u, t);
    assert CommittedBy(z, t) == [];
    assert CommitsOf(z, acts, u, t) == CommittedBy(u, t);
  }

  /** In every run in which threads log: the `k`-th record of a thread that the sink has processed is
      the entry of that thread's `k`-th call. */
  lemma ProcessedAreTheCalls(z: E.State, acts: seq<E.Act>, u: E.State, calls: seq<seq<LogCall>>, t: nat, k: nat)
    requires E.Init(z) && E.Run(z, acts, u) && Logging(z, acts, u, calls) && t < |u.threads|
    requires k < |E.Of(u.sink.processed, t)|
    ensures t < |calls| && k < |calls[t]| && CallOk(calls[t][k]) && E.Of(u.sink.processed, t)[k] == EntryOf(calls[t][k])
  {
    assert |calls| == |u.threads|;
    hide E.Inv, E.Run, E.Of, CommitsOf, CallOk, EntryOf, R.Inv, E.Init, E.Cut, E.Enabled, E.Safe, Logging;
    CommittedCalls(z, acts, u, calls, t);
    E.ProcessedIsPrefixOfCommitted(z, acts, u, t);
  }

  /** And every block in any buffer is one that the sink reads back. */
  lemma LoggedBlocksReadBack(z: E.State, acts: seq<E.Act>, u: E.State, calls: seq<seq<LogCall>>, x: Block)
    requires E.Init(z) && E.Run(z, acts, u) && Logging(z, acts, u, calls) && K.Kept(u.sink, x)
    requires forall t | 0 <= t < |u.threads| :: |u.threads[t].name| == NAME_SIZE
    ensures BlockOk(x)
  {
    hide E.Run, E.Init, E.Inv, R.Inv, EntryOk, EntryOf, CallOk, K.Kept, E.Cut, CommitsOf;
    forall t | 0 <= t < |u.threads| ensures E.EntriesOk(u.threads[t].ring) {
      CommittedCalls(z, acts, u, calls, t);
      var ring := u.threads[t].ring;
      E.CommittedOk(ring);
      forall e | e in E.Committed(ring) ensures EntryOk(e) {
        var k :| 0 <= k < |E.Committed(ring)| && E.Committed(ring)[k] == e;
        CallEntryOk(calls[t][k]);
      }
    }
    E.BuffersReadBack(z, acts, u, x);
  }

  lemma CallEntryOk(c: LogCall)
    requires CallOk(c)
    ensures EntryOk(EntryOf(c)) && |EntryOf(c)| < R.STAGING_BUFFER_SIZE
  {
    LogEntryFits(c.fmtId, c.timestamp, Conversions(c.fmt), c.args);
  }

  // ---------------------------------------------------------------- what is printed

  /** Every record of a buffer is in its bytes as it was committed. */
  lemma {:induction false} RecordInBytes(blocks: seq<Block>, j: nat) returns (at: nat)
    requires (forall i | 0 <= i < |blocks| :: BlockOk(blocks[i])) && j < |Recs(blocks)|
    ensures Has(BufferBytes(blocks), at, Recs(blocks)[j].entry)
  {
    hide BlockBytes, BlockRecs, EntryOk, BlockSize;
    var b, n := blocks[0], |BlockRecs(blocks[0], 0)|;
    if j < n {
      at := RecordInBlock(b, j);
      Behind(BlockBytes(b), BufferBytes(blocks[1..]), at, Recs(blocks)[j].entry);
    } else {
      var i := RecordInBytes(blocks[1..], j - n);
      at := |BlockBytes(b)| + i;
      InFront(BlockBytes(b), BufferBytes(blocks[1..]), i, Recs(blocks)[j].entry);
    }
  }

  lemma RecordInBlock(b: Block, j: nat) returns (at: nat)
    requires BlockOk(b) && j < |BlockRecs(b, 0)|
    ensures Has(BlockBytes(b), at, BlockRecs(b, 0)[j].entry)
  {
    var i := EntryInside(b.entries, j);
    at := CHECKPOINT_SIZE + i;
    InFront(b.name + Encode(BlockSize(b), 4), Flatten(b.entries), i, b.entries[j]);
  }

  lemma InFront(x: seq<byte>, y: seq<byte>, at: nat, e: seq<byte>)
    requires Has(y, at, e)
    ensures Has(x + y, |x| + at, e)
  {
    assert (x + y)[|x| + at..|x| + at + |e|] == y[at..at + |e|];
  }

  lemma Behind(x: seq<byte>, y: seq<byte>, at: nat, e: seq<byte>)
    requires Has(x, at, e)
    ensures Has(x + y, at, e)
  {
    assert (x + y)[at..at + |e|] == x[at..at + |e|];
  }

  lemma {:induction false} EntryInside(es: seq<seq<byte>>, j: nat) returns (at: nat)
    requires j < |es|
    ensures Has(Flatten(es), at, es[j])
  {
    if j == 0 {
      at := 0;
      Behind(es[0], Flatten(es[1..]), 0, es[0]);
    } else {
      var i := EntryInside(es[1..], j - 1);
      at := |es[0]| + i;
      InFront(es[0], Flatten(es[1..]), i, es[j]);
    }
  }

  /** The whole way of a log call.  The `k`-th record of a thread that the sink has processed, read
      from wherever its bytes are in a sink buffer, makes the conversions of that thread's `k`-th
      call and prints what formatting the call at once would have printed. */
  lemma LoggedIsPrinted(z: E.State, acts: seq<E.Act>, u: E.State, calls: seq<seq<LogCall>>, t: nat, k: nat,
                        mem: seq<byte>, base: nat, text: seq<char>, other: P.Renderer)
    requires E.Init(z) && E.Run(z, acts, u) && Logging(z, acts, u, calls) && t < |u.threads|
    requires k < |E.Of(u.sink.processed, t)| && Has(mem, base, E.Of(u.sink.processed, t)[k])
    ensures k < |calls[t]| && CallOk(calls[t][k]) && |EntryOf(calls[t][k])| > STATUS_AT
    ensures var c := calls[t][k];
      EntryOf(c)[STATUS_AT] == NORMAL ==>
        Formator(Conversions(c.fmt), Types(c.args), mem, base + ENTRY_HEADER_SIZE) == Direct(Conversions(c.fmt), c.args)
    ensures var c := calls[t][k];
      EntryOf(c)[STATUS_AT] == NORMAL
      && F.Squeezed(F.Tokens(c.fmt)) <= text && |c.args| >= P.Needed(F.Tokens(c.fmt)) ==>
        var made := Formator(Conversions(c.fmt), Types(c.args), mem, base + ENTRY_HEADER_SIZE);
        P.CallsOk(G.Specs(c.fmt), text, made)
        && P.Output(G.Specs(c.fmt), text, made, other) == P.Printed(F.Tokens(c.fmt), c.args, other)
  {
    hide E.Run, E.Of, Logging, Formator, Direct, LogEntry, Has, F.Tokens, F.Squeezed, P.Needed, P.Output, P.Printed,
         G.SpecsOf, P.CallsOk;
    ProcessedAreTheCalls(z, acts, u, calls, t, k);
    var c := calls[t][k];
    if EntryOf(c)[STATUS_AT] == NORMAL {
      EntryFormatsAsDirect(c.fmtId, c.timestamp, Conversions(c.fmt), c.args, mem, base);
      if F.Squeezed(F.Tokens(c.fmt)) <= text && |c.args| >= P.Needed(F.Tokens(c.fmt)) {
        P.DeferredPrints(c.fmt, text, c.args, other, mem, base, c.fmtId, c.timestamp);
      }
    }
  }
}
