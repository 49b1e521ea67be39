/** Nothing stays behind: whenever the logging threads pause, the poller and the sink thread can go
    on until everything that has been committed is processed. */
module Arrival {
  import opened Bytes
  import opened LogBlocks
  import opened Sequences
  import E = EndToEnd
  import K = SinkBuffering
  import L = SinkLoggers
  import P = Pollers
  import R = StagingRing
  import S = StagingBuffers
  import V = Visits

  // ---------------------------------------------------------------- the sink comes to rest

  /** The sink thread is at the top of an iteration or waits, and nobody holds its mutex. */
  predicate Resting(k: K.State) { (k.spc.Top? || k.spc.Waiting?) && k.apc.Unlocked? }

  /** From there it can write all that has been appended and wait again, with a buffer in reserve. */
  lemma SinkSettles(k: K.State) returns (acts: seq<K.Act>, t: K.State)
    requires K.Inv(k) && Resting(k)
    ensures K.Run(k, acts, t) && K.BySinkAlone(acts) && K.Inv(t)
    ensures t.spc.Waiting? && t.apc.Unlocked? && t.next.Some? && t.appended == k.appended && t.processed == k.appended
  {
    hide K.Inv, K.Run, K.Step, K.Enabled, K.Safe;
    var first, waiting := ToWaiting(k);
    K.RunInv(k, first, waiting);
    var flush, top := K.FlushIsRun(waiting);
    var wake := [K.Wake(true)] + flush;
    K.RunInv(waiting, wake, top);
    var last;
    last, t := ToWaiting(top);
    K.RunInv(top, last, t);
    K.RunConcat(waiting, wake, top, last, t);
    K.RunConcat(k, first, waiting, wake + last, t);
    acts := first + (wake + last);
    InReserve(t);
  }

  lemma ToWaiting(k: K.State) returns (acts: seq<K.Act>, t: K.State)
    requires K.Inv(k) && Resting(k)
    ensures K.Run(k, acts, t) && K.BySinkAlone(acts)
    ensures t.spc.Waiting? && t.apc.Unlocked? && t.appended == k.appended
    ensures k.pending == [] ==> t == k.(spc := K.Waiting)
    decreases |k.pending|
  {
    if k.spc.Waiting? {
      acts, t := [], k;
      K.NoStep(k);
    } else if k.pending == [] {
      acts, t := [K.Enter] + [], K.Step(k, K.Enter);
      K.StepInv(k, K.Enter);
      K.NoStep(t);
      K.OneMore(k, K.Enter, t, [], t);
    } else {
      hide K.Inv, K.Run, K.Step, K.Enabled, K.Safe;
      var enter, top := EnterIsRun(k);
      K.RunInv(k, enter, top);
      var last;
      last, t := ToWaiting(top);
      K.RunConcat(k, enter, top, last, t);
      acts := enter + last;
    }
  }

  /** With full buffers pending the sink writes them and is back at the top. */
  lemma EnterIsRun(k: K.State) returns (acts: seq<K.Act>, t: K.State)
    requires K.Inv(k) && k.spc.Top? && k.apc.Unlocked? && k.pending != []
    ensures K.Run(k, acts, t) && K.BySinkAlone(acts)
    ensures t.spc.Top? && t.apc.Unlocked? && t.appended == k.appended && t.pending == []
  {
    K.NotifiedHandsOver(k, K.Enter);
    K.NothingPending(k, false);
    var u := K.Step(k, K.Enter);
    assert u == K.Rotate(k, false);
    hide K.Inv, K.Run, K.Step, K.Enabled, K.Safe, K.Rotate;
    K.StepInv(k, K.Enter);
    var finish;
    finish, t := K.FinishIsRun(u);
    K.OneMore(k, K.Enter, u, finish, t);
    acts := [K.Enter] + finish;
  }

  lemma InReserve(k: K.State)
    requires K.Inv(k) && k.pending == []
    ensures k.next.Some?
  {
  }

  function Sinks(acts: seq<K.Act>): seq<E.Act> { seq(|acts|, i requires 0 <= i < |acts| => E.Sink(acts[i])) }

  lemma {:induction false} SinkLifts(s: E.State, acts: seq<K.Act>, k: K.State)
    requires K.Run(s.sink, acts, k) && K.BySinkAlone(acts)
    ensures E.Run(s, Sinks(acts), s.(sink := k)) && V.NoThread(Sinks(acts))
    decreases |acts|
  {
    hide K.Step, K.Safe, K.Enabled;
    if acts == [] {
      assert s.(sink := k) == s;
    } else {
      var u := s.(sink := K.Step(s.sink, acts[0]));
      SinkLifts(u, acts[1..], k);
      assert Sinks(acts)[0] == E.Sink(acts[0]) && Sinks(acts)[1..] == Sinks(acts[1..]);
    }
  }

  // ---------------------------------------------------------------- how far a ring is from being empty

  ghost predicate Clear(ring: R.State)
    requires R.Shape(ring)
  {
    R.C(ring).idx == R.P(ring).idx
  }

  /** One more peek gets it all. */
  ghost predicate Near(ring: R.State)
    requires R.Shape(ring)
  {
    R.C(ring).lap == R.P(ring).lap || R.C(ring).off == R.E(ring)
  }

  /** So many peeks that look at the newest positions are enough. */
  ghost function Peeks(ring: R.State): nat
    requires R.Shape(ring)
  {
    if Clear(ring) then 0 else if Near(ring) then 1 else 2
  }

  /** A span has gone out of a ring. */
  ghost predicate Moved(ring: R.State, after: R.State, n: nat) {
    && R.Inv(ring) && R.Inv(after) && ring.cpc.Polling? && after.cpc.Polling?
    && after == ring.(bumps := after.bumps, seenP := after.seenP, taken := after.taken, delivered := after.delivered)
    && |after.delivered| == |ring.delivered| + n
  }

  lemma OnePeekLess(ring: R.State, after: R.State)
    requires R.Inv(ring) && ring.cpc.Polling?
    requires Moved(ring, after, S.Peek(R.C(ring).off, R.P(ring).off, R.E(ring)).2)
    ensures Peeks(after) <= if Peeks(ring) == 0 then 0 else Peeks(ring) - 1
    ensures S.Peek(R.C(ring).off, R.P(ring).off, R.E(ring)).2 == 0 ==> Clear(ring) && Clear(after)
  {
    hide R.Inv;
    S.PeekFindsAll(ring);
    Taken(ring);
    Taken(after);
    Geometry(after);
  }

  lemma Taken(ring: R.State)
    requires R.Inv(ring) && ring.cpc.Polling?
    ensures R.Shape(ring) && R.C(ring).idx == |ring.delivered| && ring.ends[ring.taken] == |ring.delivered|
    ensures R.P(ring).idx == |ring.stream|
  {
    hide R.Geometry, R.Pubs, R.PubsSorted, R.Bumps, R.BumpsSorted, R.ProducerOk;
  }

  lemma Geometry(ring: R.State)
    requires R.Inv(ring)
    ensures R.Shape(ring) && R.Geometry(R.P(ring), R.C(ring), R.E(ring)) && |ring.storage| == R.STAGING_BUFFER_SIZE
    ensures ring.pubs[|ring.pubs| - 1].mark <= |ring.marks| - 1
  {
    hide R.Geometry, R.Content, R.PubsSorted, R.Bumps, R.BumpsSorted, R.ProducerOk, R.ConsumerOk, R.Sorted, R.Commits;
    assert R.PubOk(ring.pubs[|ring.pubs| - 1], R.P(ring), R.C(ring), R.E(ring), ring.ends, |ring.marks| - 1);
  }

  // ---------------------------------------------------------------- a visit

  /** What a visit has done to the threads: every ring is as near to being empty as it was or nearer,
      and nothing has been committed. */
  ghost predicate Ahead(s: E.State, u: E.State) {
    && |u.threads| == |s.threads| && E.Inv(s) && E.Inv(u)
    && forall t | 0 <= t < |s.threads| ::
         R.Shape(s.threads[t].ring) && R.Shape(u.threads[t].ring)
         && u.threads[t].ring.stream == s.threads[t].ring.stream && u.threads[t].ring.ends == s.threads[t].ring.ends
         && Peeks(u.threads[t].ring) <= Peeks(s.threads[t].ring)
  }

  lemma AheadTwice(s: E.State, t: E.State, u: E.State)
    requires Ahead(s, t) && Ahead(t, u)
    ensures Ahead(s, u) && |u.threads| == |s.threads|
  {
    hide E.Inv, R.Shape, Peeks;
  }

  /** With a buffer in reserve every span finds room. */
  lemma RoomThere(k: K.State, len: nat)
    requires K.Inv(k) && k.apc.Unlocked? && k.next.Some? && len <= R.STAGING_BUFFER_SIZE
    ensures V.Room(k, len)
  {
    hide K.Inv, K.Step, K.Fits, L.Admitted;
    L.AdmitStep(k, len);
    L.AdmittedIs(k, len);
  }

  lemma StillResting(k: K.State, block: Block)
    requires V.Room(k, BlockSize(block)) && Resting(k)
    ensures Resting(L.Appended(k, block))
  {
    hide K.Inv, K.Fits, BlockRecs;
    L.AdmittedIs(k, BlockSize(block));
  }

  lemma SpanFits(ring: R.State)
    requires R.Inv(ring) && ring.cpc.Polling?
    ensures R.Shape(ring) && S.Peek(R.C(ring).off, R.P(ring).off, R.E(ring)).2 <= R.STAGING_BUFFER_SIZE
  {
    hide R.Content, R.Pubs, R.PubsSorted, R.Bumps, R.BumpsSorted, R.ProducerOk, R.ConsumerOk, R.Sorted, R.Commits;
  }

  /** The poller looks at the newest positions and has a buffer in reserve. */
  lemma Visit(s: E.State) returns (acts: seq<E.Act>, u: E.State)
    requires E.Inv(s) && s.ppc.Scan? && s.i < |s.live| && E.AtRing(s) && R.Inv(E.Ring(s)) && R.Shape(E.Ring(s))
    requires K.Inv(s.sink) && s.sink.spc.Waiting? && s.sink.apc.Unlocked? && s.sink.next.Some?
    ensures E.Run(s, acts, u) && V.NoThread(acts) && E.Inv(u) && u.ppc.Scan? && Resting(u.sink) && Ahead(s, u)
    ensures E.At(s) < |u.threads| && Less(E.Ring(s), u.threads[E.At(s)].ring)
    ensures (u.live == s.live && u.i == s.i + 1)
         || (u.live == s.live[..s.i] + s.live[s.i + 1..] && u.i == s.i && Empty(u.threads[E.At(s)].ring))
  {
    hide E.Inv, R.Inv, K.Inv, R.Shape, Peeks, V.Room, L.Appended, Resting;
    var ring := E.Ring(s);
    V.IdleAt(s);
    Geometry(ring);
    SpanFits(ring);
    Newest(ring);
    var len := S.Peek(R.C(ring).off, R.P(ring).off, R.E(ring)).2;
    RoomThere(s.sink, len);
    var block;
    acts, u, block := V.VisitIsRun(s, |ring.pubs| - 1, |ring.marks| - 1);
    E.RingThere(u, E.At(s));
    V.IsIdle(u, E.At(s));
    OnlyOneMoved(s, u, len);
    Rests(s.sink);
    if len > 0 { StillResting(s.sink, block); }
  }

  lemma Rests(k: K.State)
    ensures k.spc.Waiting? && k.apc.Unlocked? ==> Resting(k)
  {
  }

  lemma Newest(ring: R.State)
    requires R.Inv(ring)
    ensures R.Shape(ring) && ring.pubs[|ring.pubs| - 1].pos == R.P(ring) && ring.marks[|ring.marks| - 1] == R.E(ring)
    ensures ring.seenP <= |ring.pubs| - 1 && |ring.marks| > 0
  {
    hide R.Geometry, R.Content, R.Pubs, R.PubsSorted, R.Bumps, R.BumpsSorted, R.ProducerOk, R.ConsumerOk, R.Sorted;
  }

  lemma OnlyOneMoved(s: E.State, u: E.State, len: nat)
    requires E.Inv(s) && E.Inv(u) && E.AtRing(s) && R.Inv(E.Ring(s)) && E.Ring(s).cpc.Polling?
    requires exists at: nat :: V.Taking(s, u, at, len)
    requires len == S.Peek(R.C(E.Ring(s)).off, R.P(E.Ring(s)).off, R.E(E.Ring(s))).2
    ensures Ahead(s, u) && R.Shape(u.threads[E.At(s)].ring)
    ensures var was, now := Peeks(E.Ring(s)), Peeks(u.threads[E.At(s)].ring);
      now <= (if was == 0 then 0 else was - 1) && (len == 0 ==> now == 0)
  {
    hide E.Inv, R.Inv, R.Shape;
    var t := E.At(s);
    var at: nat :| V.Taking(s, u, at, len);
    E.RingThere(u, t);
    OnePeekLess(E.Ring(s), u.threads[t].ring);
    forall r | 0 <= r < |s.threads|
      ensures R.Shape(s.threads[r].ring) && R.Shape(u.threads[r].ring)
           && u.threads[r].ring.stream == s.threads[r].ring.stream && u.threads[r].ring.ends == s.threads[r].ring.ends
           && Peeks(u.threads[r].ring) <= Peeks(s.threads[r].ring)
    {
      E.RingThere(s, r);
      E.RingThere(u, r);
    }
  }

  // ---------------------------------------------------------------- a round

  /** From the `i`-th ring to the end of the round, with the sink at work before each visit: the rings
      that are still to be visited are one peek nearer to being empty, and one that is gone is empty. */
  lemma {:induction false} RestOfRound(s: E.State) returns (acts: seq<E.Act>, u: E.State)
    requires E.Inv(s) && s.ppc.Scan? && s.i <= |s.live| && Resting(s.sink) && K.Inv(s.sink)
    ensures E.Run(s, acts, u) && V.NoThread(acts) && E.Inv(u) && u.ppc.Asleep? && Resting(u.sink) && Ahead(s, u)
    ensures forall t | t in s.live[s.i..] :: t < |s.threads| && Less(s.threads[t].ring, u.threads[t].ring)
    ensures forall t | t in s.live :: t < |s.threads| && (t in u.live || Empty(u.threads[t].ring))
    decreases |s.live| - s.i
  {
    hide E.Inv, K.Inv, E.Step, E.Enabled, E.Safe, K.Step, Ahead, Less, Empty, Resting;
    if s.i == |s.live| {
      u := EndOfRound(s);
      acts := [E.EndRound];
    } else {
      var settle, k := SinkSettles(s.sink);
      var v := s.(sink := k);
      SinkLifts(s, settle, k);
      E.RunInv(s, Sinks(settle), v);
      AtARing(v);
      var visit, w := Visit(v);
      LiveRings(w);
      var rest;
      rest, u := RestOfRound(w);
      E.RunConcat(v, visit, w, rest, u);
      E.RunConcat(s, Sinks(settle), v, visit + rest, u);
      acts := Sinks(settle) + (visit + rest);
      Together(s, v, w, u);
    }
  }

  ghost predicate Less(was: R.State, now: R.State) {
    R.Shape(was) && R.Shape(now) && Peeks(now) <= if Peeks(was) == 0 then 0 else Peeks(was) - 1
  }

  ghost predicate Empty(ring: R.State) { R.Shape(ring) && Peeks(ring) == 0 }

  lemma EndOfRound(s: E.State) returns (u: E.State)
    requires E.Inv(s) && s.ppc.Scan? && s.i == |s.live|
    ensures E.Run(s, [E.EndRound], u) && V.NoThread([E.EndRound]) && u == s.(ppc := E.Asleep) && E.Inv(u) && Ahead(s, u)
    ensures forall t | t in s.live :: t < |s.threads|
  {
    hide E.Inv, K.Step, K.Safe, K.Enabled, R.Step, R.Safe, R.Enabled, E.Copied, E.Cut;
    E.StepInv(s, E.EndRound);
    u := E.Step(s, E.EndRound);
    V.OneStep(s, E.EndRound, u);
    SameThreads(s, u);
    LiveRings(s);
  }

  lemma LiveRings(s: E.State)
    requires E.Inv(s)
    ensures forall t | t in s.live :: t < |s.threads|
    ensures K.Inv(s.sink)
  {
    hide K.Inv, R.Inv, E.Placed, E.Of;
  }

  lemma SameThreads(s: E.State, u: E.State)
    requires E.Inv(s) && E.Inv(u) && u.threads == s.threads
    ensures Ahead(s, u)
  {
    hide E.Inv, R.Shape;
    forall t | 0 <= t < |s.threads| ensures R.Shape(s.threads[t].ring) { E.RingThere(s, t); }
  }

  lemma AtARing(s: E.State)
    requires E.Inv(s) && s.ppc.Scan? && s.i < |s.live|
    ensures E.AtRing(s) && R.Inv(E.Ring(s)) && R.Shape(E.Ring(s)) && K.Inv(s.sink)
  {
    hide E.Inv;
    E.RingAtWork(s);
    LiveRings(s);
  }

  /** One visit and the rest of the round. */
  lemma Together(s: E.State, v: E.State, w: E.State, u: E.State)
    requires E.Inv(s) && E.Inv(v) && v == s.(sink := v.sink) && s.i < |s.live| && E.AtRing(v)
    requires Ahead(v, w) && Ahead(w, u) && R.Shape(E.Ring(v)) && Less(E.Ring(v), w.threads[E.At(v)].ring)
    requires (w.live == s.live && w.i == s.i + 1)
          || (w.live == s.live[..s.i] + s.live[s.i + 1..] && w.i == s.i && Empty(w.threads[E.At(v)].ring))
    requires forall t | t in w.live[w.i..] :: t < |w.threads| && Less(w.threads[t].ring, u.threads[t].ring)
    requires forall t | t in w.live :: t < |w.threads| && (t in u.live || Empty(u.threads[t].ring))
    ensures Ahead(s, u)
    ensures forall t | t in s.live[s.i..] :: t < |s.threads| && Less(s.threads[t].ring, u.threads[t].ring)
    ensures forall t | t in s.live :: t < |s.threads| && (t in u.live || Empty(u.threads[t].ring))
  {
    hide E.Inv, R.Shape, Peeks, Ahead, Less, Empty;
    SameThreads(s, v);
    AheadTwice(s, v, w);
    AheadTwice(s, w, u);
    LiveRings(s);
    var here := E.At(v);
    forall t | t in s.live[s.i..] ensures t < |s.threads| && Less(s.threads[t].ring, u.threads[t].ring) {
      assert t in s.live && s.live[s.i..] == [here] + s.live[s.i + 1..];
      Nearer(s, w, u, t);
      if t != here { assert t in w.live[w.i..]; }
    }
    forall t | t in s.live ensures t < |s.threads| && (t in u.live || Empty(u.threads[t].ring)) {
      assert s.live == s.live[..s.i] + ([here] + s.live[s.i + 1..]);
      Nearer(s, w, u, t);
      if t !in w.live { assert t == here; }
    }
  }

  lemma Nearer(s: E.State, w: E.State, u: E.State, t: nat)
    requires Ahead(s, w) && Ahead(w, u) && t < |s.threads|
    ensures |w.threads| == |s.threads| && |u.threads| == |s.threads|
    ensures Less(s.threads[t].ring, w.threads[t].ring) ==> Less(s.threads[t].ring, u.threads[t].ring)
    ensures Less(w.threads[t].ring, u.threads[t].ring) ==> Less(s.threads[t].ring, u.threads[t].ring)
    ensures Empty(w.threads[t].ring) ==> Empty(u.threads[t].ring)
  {
    hide E.Inv, R.Shape, Peeks;
  }

  /** A whole round. */
  lemma RoundIsRun(s: E.State) returns (acts: seq<E.Act>, u: E.State)
    requires E.Inv(s) && s.ppc.Asleep? && Resting(s.sink)
    ensures E.Run(s, acts, u) && V.NoThread(acts) && E.Inv(u) && u.ppc.Asleep? && Resting(u.sink) && Ahead(s, u)
    ensures forall t | t in s.live ::
      t < |s.threads| && Less(s.threads[t].ring, u.threads[t].ring) && (t in u.live || Empty(u.threads[t].ring))
  {
    hide E.Inv, E.Step, E.Enabled, E.Safe, Ahead, Less, Empty, Resting;
    var v := StartOfRound(s);
    LiveRings(v);
    var rest;
    rest, u := RestOfRound(v);
    E.RunConcat(s, [E.StartRound], v, rest, u);
    acts := [E.StartRound] + rest;
    AheadTwice(s, v, u);
    assert s.live[0..] == s.live;
  }

  lemma StartOfRound(s: E.State) returns (u: E.State)
    requires E.Inv(s) && s.ppc.Asleep?
    ensures E.Run(s, [E.StartRound], u) && V.NoThread([E.StartRound]) && E.Inv(u) && Ahead(s, u)
    ensures u == s.(ppc := E.Scan, i := 0)
  {
    hide E.Inv, K.Step, K.Safe, K.Enabled, R.Step, R.Safe, R.Enabled, E.Copied, E.Cut;
    E.StepInv(s, E.StartRound);
    u := E.Step(s, E.StartRound);
    V.OneStep(s, E.StartRound, u);
    SameThreads(s, u);
  }

  // ---------------------------------------------------------------- everything arrives

  /** Whatever the threads have committed by the time they pause, two rounds of the poller and the
      iterations of the sink between them get it all processed: from every state between two rounds
      there is a run, without a step of a logging thread, after which the processed entries of every
      thread that still has a ring are its whole stream, one by one those it has committed if none
      of these is empty. */
  lemma EverythingArrives(s: E.State) returns (acts: seq<E.Act>, u: E.State)
    requires E.Inv(s) && s.ppc.Asleep? && Resting(s.sink)
    ensures E.Run(s, acts, u) && V.NoThread(acts) && E.Inv(u) && u.ppc.Asleep? && |u.threads| == |s.threads|
    ensures u.sink.processed == u.sink.appended
    ensures forall t | t in s.live ::
      && t < |s.threads| && u.threads[t].ring.stream == s.threads[t].ring.stream
      && Flatten(E.Of(u.sink.processed, t)) == s.threads[t].ring.stream
      && Arrived(s.threads[t].ring, E.Of(u.sink.processed, t))
  {
    hide E.Inv, K.Inv, Less, Empty, Resting, Flatten, E.Of, Arrived;
    var first, v := RoundIsRun(s);
    var second, w := RoundIsRun(v);
    LiveRings(w);
    var settle, k := SinkSettles(w.sink);
    u := w.(sink := k);
    SinkLifts(w, settle, k);
    E.RunInv(w, Sinks(settle), u);
    E.RunConcat(v, second, w, Sinks(settle), u);
    E.RunConcat(s, first, v, second + Sinks(settle), u);
    acts := first + (second + Sinks(settle));
    forall t | t in s.live
      ensures t < |s.threads| && u.threads[t].ring.stream == s.threads[t].ring.stream
           && Flatten(E.Of(u.sink.processed, t)) == s.threads[t].ring.stream
           && Arrived(s.threads[t].ring, E.Of(u.sink.processed, t))
    {
      TwoPeeks(s.threads[t].ring, v.threads[t].ring, w.threads[t].ring, t in v.live);
      WholeStream(u, t);
      SameEnds(u.threads[t].ring, s.threads[t].ring, E.Of(u.sink.processed, t));
    }
  }

  /** The entries are those that the thread has committed, unless there are some without a byte. */
  ghost predicate Arrived(ring: R.State, entries: seq<seq<byte>>) {
    && ring.ends != [] && E.Cut(ring.stream, ring.ends, 0, |ring.ends| - 1)
    && ((forall n, m | 0 <= n < m < |ring.ends| :: ring.ends[n] < ring.ends[m]) ==> entries == E.Committed(ring))
  }

  lemma SameEnds(now: R.State, was: R.State, entries: seq<seq<byte>>)
    requires now.ends == was.ends && now.stream == was.stream && Arrived(now, entries)
    ensures Arrived(was, entries)
  {
  }

  lemma TwoPeeks(a: R.State, b: R.State, c: R.State, again: bool)
    requires Less(a, b) && (if again then Less(b, c) else Empty(b)) && R.Shape(c) && Peeks(c) <= Peeks(b)
    ensures Empty(c)
  {
    hide R.Shape;
  }

  /** An empty ring between two rounds, all of whose entries have been processed. */
  lemma WholeStream(s: E.State, t: nat)
    requires E.Inv(s) && s.ppc.Asleep? && t < |s.threads| && Empty(s.threads[t].ring)
    requires s.sink.processed == s.sink.appended
    ensures Flatten(E.Of(s.sink.processed, t)) == s.threads[t].ring.stream
    ensures Arrived(s.threads[t].ring, E.Of(s.sink.processed, t))
  {
    hide K.Inv, R.Inv, E.Of, Flatten;
    var th := s.threads[t];
    E.RingThere(s, t);
    Between(s, t);
    Taken(th.ring);
    FirstEnd(th.ring);
    E.CommittedOk(th.ring);
    hide E.Inv;
    E.FlattenEntries(th.ring.stream, th.ring.ends, 0, th.placed);
    assert th.ring.stream[0..|th.ring.stream|] == th.ring.stream;
  }

  lemma Between(s: E.State, t: nat)
    requires E.Inv(s) && s.ppc.Asleep? && t < |s.threads|
    ensures E.Idle(s.threads[t]) && E.Placed(s.threads[t], t, s.sink.appended)
  {
    hide K.Inv, R.Inv, E.Placed, E.Of;
  }

  lemma FirstEnd(ring: R.State)
    requires R.Inv(ring)
    ensures ring.ends != [] && ring.ends[0] == 0 && Last(ring.ends) == R.P(ring).idx
  {
    hide R.Geometry, R.Content, R.Pubs, R.PubsSorted, R.Bumps, R.BumpsSorted, R.ProducerOk, R.ConsumerOk, R.Sorted;
  }
}
