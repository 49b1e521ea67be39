/** What the objects of the poller do in one visit is a run of the whole system: the peek of a
    staging buffer, the pass of `append` that takes its span, and the deletion of an empty one
    have the effects that the methods of those classes promise. */
module Visits {
  import opened Bytes
  import opened LogBlocks
  import opened Sequences
  import opened StagingBuffers
  import E = EndToEnd
  import K = SinkBuffering
  import L = SinkLoggers
  import P = Pollers
  import R = StagingRing

  // ---------------------------------------------------------------- steps of one ring as steps of the poller

  function Peeks(acts: seq<R.Act>): seq<E.Act> { seq(|acts|, i requires 0 <= i < |acts| => E.Peek(acts[i])) }

  function CopyActs(acts: seq<R.Act>): seq<E.Act> { seq(|acts|, i requires 0 <= i < |acts| => E.Copy(acts[i])) }

  /** The poller stands where the first of these steps of its ring comes next. */
  predicate Stands(ppc: E.PollPc, acts: seq<R.Act>) {
    && (forall i | 0 < i < |acts| :: acts[i].LoadE? || acts[i].Roll?)
    && (acts != [] ==>
          (acts[0].LoadP? && ppc.Scan?) || (acts[0].LoadE? && ppc.Peeking?) || (acts[0].Roll? && ppc.Rolling?))
  }

  lemma {:induction false} PeekLifts(s: E.State, acts: seq<R.Act>, ring: R.State) returns (u: E.State)
    requires E.Inv(s) && E.AtRing(s) && R.Run(E.Ring(s), acts, ring) && Stands(s.ppc, acts)
    ensures E.Run(s, Peeks(acts), u) && E.Inv(u)
    ensures u == E.SetRing(s, E.At(s), ring).(ppc := if acts == [] then s.ppc else E.AfterPeek(ring.cpc))
    decreases |acts|
  {
    hide E.Inv, E.Step, E.Safe, E.Enabled, R.Step, R.Safe, R.Enabled, R.Shape;
    if acts == [] {
      u := s;
      assert s.threads[E.At(s) := s.threads[E.At(s)].(ring := ring)] == s.threads;
    } else {
      var a, rest := acts[0], acts[1..];
      var next := PeekStep(s, a);
      StillStands(s.ppc, acts, E.Ring(next), next.ppc, ring);
      u := PeekLifts(next, rest, ring);
      assert Peeks(acts)[0] == E.Peek(a) && Peeks(acts)[1..] == Peeks(rest);
    }
  }

  lemma PeekStep(s: E.State, a: R.Act) returns (u: E.State)
    requires E.Inv(s) && E.AtRing(s) && Stands(s.ppc, [a]) && R.Enabled(E.Ring(s), a) && R.Safe(E.Ring(s), a)
    ensures E.Enabled(s, E.Peek(a)) && E.Safe(s, E.Peek(a)) && u == E.Step(s, E.Peek(a)) && E.Inv(u) && E.AtRing(u)
    ensures var ring := R.Step(E.Ring(s), a);
      && u == E.SetRing(s, E.At(s), ring).(ppc := E.AfterPeek(ring.cpc))
      && E.Ring(u) == ring && E.At(u) == E.At(s)
  {
    hide E.Inv, R.Step, R.Safe, R.Enabled, R.Shape, K.Step, K.Safe, K.Enabled, E.Copied, E.Cut;
    E.StepInv(s, E.Peek(a));
    u := E.Step(s, E.Peek(a));
    E.RingThere(u, E.At(s));
  }

  lemma StillStands(was: E.PollPc, acts: seq<R.Act>, ring: R.State, ppc: E.PollPc, end: R.State)
    requires acts != [] && Stands(was, acts) && R.Run(ring, acts[1..], end) && ppc == E.AfterPeek(ring.cpc)
    ensures Stands(ppc, acts[1..])
  {
    hide R.Step, R.Safe;
    assert forall i | 0 <= i < |acts| - 1 :: acts[1..][i] == acts[i + 1];
  }

  lemma {:induction false} CopyLifts(s: E.State, acts: seq<R.Act>, ring: R.State) returns (u: E.State)
    requires E.Inv(s) && E.AtRing(s) && s.ppc.Fill? && acts != [] && Copies(acts) && R.Run(E.Ring(s), acts, ring)
    requires ring.cpc.Polling?
    ensures E.Run(s, CopyActs(acts), u) && E.Inv(u)
    ensures u == E.SetRing(s, E.At(s), ring).(ppc := E.Place)
    decreases |acts|
  {
    hide E.Inv, E.Step, E.Safe, E.Enabled, R.Step, R.Safe, R.Shape, R.Enabled;
    var a, rest := acts[0], acts[1..];
    var next := CopyStepLifts(s, a);
    CopyEnds(E.Ring(next), rest, ring);
    if rest == [] {
      u := next;
    } else {
      u := CopyLifts(next, rest, ring);
    }
    assert CopyActs(acts)[0] == E.Copy(a) && CopyActs(acts)[1..] == CopyActs(rest);
  }

  lemma CopyStepLifts(s: E.State, a: R.Act) returns (u: E.State)
    requires E.Inv(s) && E.AtRing(s) && s.ppc.Fill? && (a.CopyByte? || a.Release?)
    requires R.Enabled(E.Ring(s), a) && R.Safe(E.Ring(s), a)
    ensures E.Enabled(s, E.Copy(a)) && E.Safe(s, E.Copy(a)) && u == E.Step(s, E.Copy(a)) && E.Inv(u) && E.AtRing(u)
    ensures var ring := R.Step(E.Ring(s), a);
      && u == E.SetRing(s, E.At(s), ring).(ppc := if ring.cpc.Polling? then E.Place else E.Fill)
      && E.Ring(u) == ring && E.At(u) == E.At(s)
  {
    hide E.Inv, R.Step, R.Safe, R.Enabled, R.Shape, K.Step, K.Safe, K.Enabled, E.Copied, E.Cut;
    E.StepInv(s, E.Copy(a));
    u := E.Step(s, E.Copy(a));
    E.RingThere(u, E.At(s));
  }

  /** No copying goes on behind its end. */
  lemma CopyEnds(ring: R.State, acts: seq<R.Act>, end: R.State)
    requires R.Run(ring, acts, end) && Copies(acts) && end.cpc.Polling?
    ensures ring.cpc.Polling? <==> acts == []
  {
    hide R.Step, R.Safe;
  }

  // ---------------------------------------------------------------- a pass of append

  /** The room is found: whatever way the search takes, it is one or two steps of the poller. */
  lemma SearchIsRun(s: E.State, len: nat) returns (acts: seq<E.Act>, u: E.State)
    requires E.Inv(s) && s.ppc.Offer? && E.AtRing(s) && E.Ring(s).cpc.Copying? && E.Ring(s).cpc.remaining == len
    requires s.sink.apc.Unlocked? && K.Inv(s.sink) && len <= R.STAGING_BUFFER_SIZE
    requires L.Admitted(s.sink, len).apc.Filling?
    ensures E.Run(s, acts, u) && E.Inv(u) && NoThread(acts) && u == s.(sink := L.Admitted(s.sink, len), ppc := E.Fill)
  {
    hide E.Inv, K.Inv, K.Step, K.Fits, K.Enabled, K.Safe, L.Admitted, E.Copied, E.Cut, R.Shape, R.Step, R.Safe,
        R.Enabled;
    L.AdmittedIs(s.sink, len);
    AdmitKinds(s.sink, len);
    E.StepInv(s, E.Admit);
    var t := E.Step(s, E.Admit);
    if t.sink.apc.Filling? {
      acts, u := [E.Admit], t;
      OneStep(s, E.Admit, u);
    } else {
      E.StepInv(t, E.Supply);
      u := E.Step(t, E.Supply);
      acts := [E.Admit] + [E.Supply];
      OneStep(t, E.Supply, u);
      hide E.Step, E.Enabled, E.Safe;
      E.OneMore(s, E.Admit, t, [E.Supply], u);
    }
  }

  lemma AdmitKinds(s: K.State, len: nat)
    requires K.Inv(s) && s.apc.Unlocked? && len <= R.STAGING_BUFFER_SIZE && L.Admitted(s, len).apc.Filling?
    ensures K.Enabled(s, K.Admit(len)) && K.Safe(s, K.Admit(len))
    ensures var t := K.Step(s, K.Admit(len));
      if t.apc.Filling? then L.Admitted(s, len) == t
      else
        t.apc.Supplement? && K.Enabled(t, K.Supply) && K.Safe(t, K.Supply) && L.Admitted(s, len) == K.Step(t, K.Supply)
  {
    hide K.Inv, K.Fits;
    L.AdmittedIs(s, len);
  }

  /** The poller with a span in its hands. */
  lemma Offering(s: E.State)
    requires E.Inv(s) && s.ppc.Offer?
    ensures K.Inv(s.sink) && E.AtRing(s) && R.Inv(E.Ring(s))
    ensures var th := s.threads[E.At(s)];
      var w := th.ring.cpc;
      && w.Copying? && w.remaining <= R.STAGING_BUFFER_SIZE && th.placed == th.ring.taken
      && th.placed < |th.ring.ends| && w.upTo < |th.ring.ends|
      && (w.copied == 0 ==> th.ring.ends[th.placed] == |th.ring.delivered|)
      && th.ring.ends[th.placed] + w.remaining == th.ring.ends[w.upTo]
  {
    hide E.Placed, E.Of, K.Inv, R.Inv;
    E.RingAtWork(s);
    DeliveredSoFar(E.Ring(s));
  }

  lemma DeliveredSoFar(ring: R.State)
    requires R.Inv(ring) && ring.cpc.Copying?
    ensures R.Shape(ring) && ring.cpc.upTo < |ring.ends|
    ensures |ring.delivered| + ring.cpc.remaining == ring.ends[ring.cpc.upTo] + ring.cpc.copied
  {
    hide R.Geometry, R.Content, R.Pubs, R.PubsSorted, R.Bumps, R.BumpsSorted, R.ProducerOk;
  }

  /** The whole pass of `append` that finds room, from the span in the poller's hands to the next
      buffer: the sink is as the method `Append` leaves it, the block consists of the bytes of the
      span, and these have gone out of the ring. */
  lemma AppendIsRun(s: E.State) returns (acts: seq<E.Act>, u: E.State, block: Block)
    requires E.Inv(s) && s.ppc.Offer? && s.sink.apc.Unlocked? && K.Inv(s.sink)
    requires E.AtRing(s) && E.Ring(s).cpc.Copying? && E.Ring(s).cpc.copied == 0
    requires E.Ring(s).cpc.remaining <= R.STAGING_BUFFER_SIZE
    requires L.Admitted(s.sink, E.Ring(s).cpc.remaining).apc.Filling?
    ensures E.Run(s, acts, u) && E.Inv(u) && NoThread(acts)
    ensures var ring, w := E.Ring(s), E.Ring(s).cpc;
      && w.at + w.remaining <= |ring.storage| && Flatten(block.entries) == ring.storage[w.at..w.at + w.remaining]
      && block.name == s.threads[E.At(s)].name && BlockSize(block) == w.remaining
      && u.sink == L.Appended(s.sink, block)
    ensures u.ppc == E.Scan && u.i == s.i + 1 && u.live == s.live && Released(s, u)
  {
    hide E.Inv, K.Inv, R.Inv, L.Admitted, E.Step, E.Enabled, E.Safe, R.Shape;
    Offering(s);
    var search, found := SearchIsRun(s, E.Ring(s).cpc.remaining);
    var copies, ring := CopyIsRun(E.Ring(s));
    var copied := CopyLifts(found, copies, ring);
    block, u := PutLifts(s, copied, ring);
    OneStep(copied, E.Put, u);
    E.RunConcat(found, CopyActs(copies), copied, [E.Put], u);
    E.RunConcat(s, search, found, CopyActs(copies) + [E.Put], u);
    acts := search + (CopyActs(copies) + [E.Put]);
  }

  /** Only the ring of the visit has changed: its span has gone out, and its place to the producer. */
  ghost predicate Released(s: E.State, u: E.State)
    requires E.AtRing(s) && E.Ring(s).cpc.Copying?
  {
    var th, t, w := s.threads[E.At(s)], E.At(s), E.Ring(s).cpc;
    && |u.threads| == |s.threads| && R.Shape(u.threads[t].ring) && w.at + w.remaining <= |th.ring.storage|
    && u.threads == s.threads[t := th.(ring := u.threads[t].ring, placed := w.upTo)]
    && u.threads[t].ring == th.ring.(bumps := u.threads[t].ring.bumps, cpc := R.Polling, taken := w.upTo,
                                     delivered := th.ring.delivered + th.ring.storage[w.at..w.at + w.remaining])
    && R.C(u.threads[t].ring).off == R.C(th.ring).off + w.remaining
  }

  lemma PutLifts(s: E.State, c: E.State, ring: R.State) returns (block: Block, u: E.State)
    requires E.Inv(s) && s.ppc.Offer? && s.sink.apc.Unlocked? && K.Inv(s.sink)
    requires E.AtRing(s) && E.Ring(s).cpc.Copying? && E.Ring(s).cpc.copied == 0 && R.Shape(ring)
    requires E.Ring(s).cpc.remaining <= R.STAGING_BUFFER_SIZE
    requires L.Admitted(s.sink, E.Ring(s).cpc.remaining).apc.Filling?
    requires var w := E.Ring(s).cpc;
      && w.at + w.remaining <= |E.Ring(s).storage|
      && ring == E.Ring(s).(bumps := ring.bumps, cpc := R.Polling, taken := w.upTo,
                            delivered := E.Ring(s).delivered + E.Ring(s).storage[w.at..w.at + w.remaining])
      && R.C(ring).off == R.C(E.Ring(s)).off + w.remaining
    requires E.Inv(c)
    requires c == E.SetRing(s, E.At(s), ring).(sink := L.Admitted(s.sink, E.Ring(s).cpc.remaining), ppc := E.Place)
    ensures E.Enabled(c, E.Put) && E.Safe(c, E.Put) && u == E.Step(c, E.Put) && E.Inv(u)
    ensures var w := E.Ring(s).cpc;
      && Flatten(block.entries) == E.Ring(s).storage[w.at..w.at + w.remaining]
      && block.name == s.threads[E.At(s)].name && BlockSize(block) == w.remaining
      && u.sink == L.Appended(s.sink, block)
    ensures u.ppc == E.Scan && u.i == s.i + 1 && u.live == s.live && Released(s, u)
  {
    hide E.Inv, K.Inv, R.Inv, L.Admitted, R.Shape, K.Step, K.Enabled, K.Safe, Flatten, E.Cut, E.Entries;
    Offering(s);
    E.StepInv(c, E.Put);
    E.RingAtWork(c);
    u := E.Step(c, E.Put);
    block := E.Copied(c);
    SpanEntries(c.threads[E.At(c)], E.Ring(s));
  }

  lemma SpanEntries(th: E.Thread, before: R.State)
    requires R.Inv(th.ring) && th.ring.cpc.Polling? && th.placed <= th.ring.taken && th.placed < |th.ring.ends|
    requires E.Cut(th.ring.delivered, th.ring.ends, th.placed, th.ring.taken)
    requires before.delivered <= th.ring.delivered && th.ring.ends[th.placed] == |before.delivered|
    ensures Flatten(E.Entries(th.ring.delivered, th.ring.ends, th.placed, th.ring.taken))
         == th.ring.delivered[|before.delivered|..]
  {
    hide Flatten, E.Entries;
    E.PollingRing(th.ring);
    hide R.Inv;
    E.FlattenEntries(th.ring.delivered, th.ring.ends, th.placed, th.ring.taken);
  }

  lemma OneStep(s: E.State, a: E.Act, u: E.State)
    requires E.Enabled(s, a) && E.Safe(s, a) && u == E.Step(s, a)
    ensures E.Run(s, [a], u)
  {
    hide E.Enabled, E.Safe, E.Step;
    assert [a][1..] == [];
    E.NoStep(u);
  }

  // ---------------------------------------------------------------- a whole visit

  /** What a visit meets whose loads return these values, nobody registering meanwhile. */
  function Meeting(s: E.State, i: nat, j: nat): P.Met
    requires E.AtRing(s) && i < |E.Ring(s).pubs| && j < |E.Ring(s).marks|
  {
    P.Met(E.Ring(s).pubs[i].pos.off, E.Ring(s).marks[j], s.threads[E.At(s)].ended, [])
  }

  /** A span of this size finds room. */
  ghost predicate Room(k: K.State, len: nat) {
    K.Inv(k) && k.apc.Unlocked? && len <= R.STAGING_BUFFER_SIZE && L.Admitted(k, len).apc.Filling?
  }

  /** One iteration of the poller's loop over the buffers, from the peek to the next index, for every
      pair of values that the loads of the peek may return: the consumer ends where the method
      `VisitAt` leaves it; an empty buffer stays or goes as there, with the index; a span ends up in
      the sink as the method `Append` puts it there. */
  lemma VisitIsRun(s: E.State, i: nat, j: nat) returns (acts: seq<E.Act>, u: E.State, block: Block)
    requires E.Inv(s) && s.ppc.Scan? && s.i < |s.live| && E.AtRing(s)
    requires E.Ring(s).seenP <= i < |E.Ring(s).pubs| && E.Ring(s).pubs[i].mark <= j < |E.Ring(s).marks|
    requires var (c, at, len) := P.Taken(R.C(E.Ring(s)).off, Meeting(s, i, j)); len > 0 ==> Room(s.sink, len)
    ensures E.Run(s, acts, u) && E.Inv(u) && u.ppc.Scan? && NoThread(acts)
    ensures var (c, at, len) := P.Taken(R.C(E.Ring(s)).off, Meeting(s, i, j)); Taking(s, u, at, len)
    ensures var (c, at, len) := P.Taken(R.C(E.Ring(s)).off, Meeting(s, i, j));
      var t, ring := E.At(s), E.Ring(s);
      && |u.threads| == |s.threads| && R.Shape(u.threads[t].ring) && R.C(u.threads[t].ring).off == c
      && (if len == 0 then
            u.sink == s.sink
            && (if s.threads[t].ended then u.live == s.live[..s.i] + s.live[s.i + 1..] && u.i == s.i
                else u.live == s.live && u.i == s.i + 1)
          else
            u.live == s.live && u.i == s.i + 1 && at + len <= |ring.storage|
            && Flatten(block.entries) == ring.storage[at..at + len] && BlockSize(block) == len
            && block.name == s.threads[t].name && u.sink == L.Appended(s.sink, block))
  {
    hide E.Inv, K.Inv, R.Inv, L.Admitted, L.Appended, E.Step, E.Enabled, E.Safe, R.Shape, Flatten, BlockSize, Released,
        R.Step, R.Safe, R.Enabled, Taking;
    E.RingAtWork(s);
    IdleAt(s);
    var ring := PeekIsRun(E.Ring(s), i, j);
    var peeked := PeekLifts(s, PeekActs(E.Ring(s), i, j), ring);
    E.RingThere(peeked, E.At(s));
    StandsInside(E.Ring(s));
    if ring.cpc.Polling? {
      u := TestFlag(peeked);
      TakingNothing(s, peeked, u, ring, P.Taken(R.C(E.Ring(s)).off, Meeting(s, i, j)).1);
      block := Block(0, [], []);
      OneStep(peeked, E.CheckDelete, u);
      E.RunConcat(s, Peeks(PeekActs(E.Ring(s), i, j)), peeked, [E.CheckDelete], u);
      acts := Peeks(PeekActs(E.Ring(s), i, j)) + [E.CheckDelete];
    } else {
      var rest;
      rest, u, block := AppendIsRun(peeked);
      ReleasedSpan(peeked, u);
      TakingSpan(s, peeked, u, ring);
      E.RunConcat(s, Peeks(PeekActs(E.Ring(s), i, j)), peeked, rest, u);
      acts := Peeks(PeekActs(E.Ring(s), i, j)) + rest;
    }
  }

  /** The step is not one of a logging thread. */
  predicate NoThread(acts: seq<E.Act>) { forall a | a in acts :: !a.Log? && !a.Spawn? && !a.Exit? }

  /** What the visit does to the threads: bytes of one ring have gone out of it, nothing else. */
  ghost predicate Taking(s: E.State, u: E.State, at: nat, len: nat)
    requires E.AtRing(s)
  {
    var t, th := E.At(s), s.threads[E.At(s)];
    && |u.threads| == |s.threads| && at + len <= |th.ring.storage|
    && var after := u.threads[t];
       && u.threads == s.threads[t := after] && after.name == th.name && after.ended == th.ended
       && after.ring == th.ring.(bumps := after.ring.bumps, cpc := R.Polling, seenP := after.ring.seenP,
                                 taken := after.ring.taken,
                                 delivered := th.ring.delivered + th.ring.storage[at..at + len])
  }

  lemma StandsInside(ring: R.State)
    requires R.Inv(ring)
    ensures R.Shape(ring) && R.C(ring).off <= |ring.storage|
  {
    hide R.Content, R.Pubs, R.PubsSorted, R.Bumps, R.BumpsSorted, R.ProducerOk, R.ConsumerOk, R.Sorted, R.Commits;
  }

  lemma TakingNothing(s: E.State, peeked: E.State, u: E.State, ring: R.State, at: nat)
    requires E.AtRing(s) && u.threads == peeked.threads && peeked.threads == E.SetRing(s, E.At(s), ring).threads
    requires ring == E.Ring(s).(bumps := ring.bumps, cpc := R.Polling, seenP := ring.seenP)
    requires at <= |E.Ring(s).storage|
    ensures Taking(s, u, at, 0)
  {
    var d := E.Ring(s).delivered;
    assert d + E.Ring(s).storage[at..at + 0] == d;
  }

  lemma TakingSpan(s: E.State, peeked: E.State, u: E.State, ring: R.State)
    requires E.AtRing(s) && E.AtRing(peeked) && E.At(peeked) == E.At(s) && E.Ring(peeked) == ring && ring.cpc.Copying?
    requires peeked.threads == E.SetRing(s, E.At(s), ring).threads && Released(peeked, u)
    requires ring == E.Ring(s).(bumps := ring.bumps, cpc := ring.cpc, seenP := ring.seenP)
    ensures Taking(s, u, ring.cpc.at, ring.cpc.remaining)
  {
  }

  lemma IdleAt(s: E.State)
    requires E.Inv(s) && s.ppc.Scan? && s.i < |s.live|
    ensures E.AtRing(s) && E.Ring(s).cpc.Polling?
  {
    hide K.Inv, R.Inv, E.Placed, E.Of;
    E.RingAtWork(s);
  }

  lemma IsIdle(s: E.State, t: nat)
    requires E.Inv(s) && s.ppc.Scan? && t < |s.threads|
    ensures s.threads[t].ring.cpc.Polling?
  {
    hide K.Inv, R.Inv, E.Placed, E.Of;
  }

  lemma TestFlag(s: E.State) returns (u: E.State)
    requires E.Inv(s) && s.ppc.Empty? && E.AtRing(s)
    ensures E.Enabled(s, E.CheckDelete) && E.Safe(s, E.CheckDelete) && u == E.Step(s, E.CheckDelete) && E.Inv(u)
    ensures u.threads == s.threads && u.sink == s.sink && u.ppc.Scan?
    ensures if s.threads[E.At(s)].ended then u.live == s.live[..s.i] + s.live[s.i + 1..] && u.i == s.i
            else u.live == s.live && u.i == s.i + 1
  {
    hide E.Inv, R.Shape, K.Step, K.Safe, K.Enabled, R.Step, R.Safe, R.Enabled, E.Copied, E.Cut;
    E.StepInv(s, E.CheckDelete);
    u := E.Step(s, E.CheckDelete);
  }

  lemma ReleasedSpan(s: E.State, u: E.State)
    requires E.AtRing(s) && E.Ring(s).cpc.Copying? && Released(s, u)
    ensures var ring, w := E.Ring(s), E.Ring(s).cpc;
      && |u.threads| == |s.threads| && R.Shape(u.threads[E.At(s)].ring)
      && w.at + w.remaining <= |ring.storage| && R.C(u.threads[E.At(s)].ring).off == R.C(ring).off + w.remaining
  {
  }
}
