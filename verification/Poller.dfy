/** The round of `poll_` over the staging buffers, with the vector that shrinks and grows under the
    running index.  What other threads do meanwhile comes in as parameters. */
module Pollers {
  import opened StagingBuffers

  /** What one iteration meets: the values its two loads of the producer's positions return, the
      deallocate flag, and the buffers that register while the mutex is free. */
  datatype Met = Met(p: nat, e: nat, shouldDeallocate: bool, registering: seq<StagingBuffer>)

  /** What a visit finds: a span, which goes to the sink if it is not empty. */
  datatype Visit = Visit(sb: StagingBuffer, at: nat, len: nat)

  /** Where the consumer then stands, and the span that has been taken. */
  function Taken(c: nat, m: Met): (nat, nat, nat) {
    var (pos, at, len) := Peek(c, m.p, m.e);
    (pos + len, at, len)
  }

  function Visited(visits: seq<Visit>): seq<StagingBuffer> {
    seq(|visits|, j requires 0 <= j < |visits| => visits[j].sb)
  }

  /** The visits that hand something over, the buffers that stay (a buffer goes when it is empty
      and its thread has ended), and those that come in while the mutex is free. */
  function HandedOver(visits: seq<Visit>): seq<Visit> {
    if visits == [] then []
    else
      var n := |visits| - 1;
      HandedOver(visits[..n]) + (if visits[n].len > 0 then [visits[n]] else [])
  }

  function Staying(visits: seq<Visit>, met: seq<Met>): seq<StagingBuffer>
    requires |visits| <= |met|
  {
    if visits == [] then []
    else
      var n := |visits| - 1;
      Staying(visits[..n], met) + (if visits[n].len == 0 && met[n].shouldDeallocate then [] else [visits[n].sb])
  }

  function Arrived(visits: seq<Visit>, met: seq<Met>): seq<StagingBuffer>
    requires |visits| <= |met|
  {
    if visits == [] then []
    else
      var n := |visits| - 1;
      Arrived(visits[..n], met) + (if visits[n].len > 0 then met[n].registering else [])
  }

  /** Where the consumer of `sb`, first at `c`, stands after these visits. */
  function Standing(c: nat, sb: StagingBuffer, visits: seq<Visit>, met: seq<Met>): nat
    requires |visits| <= |met|
  {
    if visits == [] then c
    else
      var n := |visits| - 1;
      var before := Standing(c, sb, visits[..n], met);
      if visits[n].sb == sb then Taken(before, met[n]).0 else before
  }

  /** The visit found what `peek` returns to a consumer that stands at `c`. */
  predicate Finds(v: Visit, c: nat, m: Met) { (v.at, v.len) == (Taken(c, m).1, Taken(c, m).2) }

  /** Where the consumers of all buffers stand. */
  ghost function Positions(known: set<StagingBuffer>): map<StagingBuffer, nat>
    reads known
  {
    map b | b in known :: b.consumerPos
  }

  /** Each visit found what `peek` returns to the consumer where the visits before have left it. */
  ghost predicate AllFind(start: map<StagingBuffer, nat>, visits: seq<Visit>, met: seq<Met>)
    requires |visits| <= |met|
  {
    forall k | 0 <= k < |visits| ::
      var b := visits[k].sb;
      b in start && Finds(visits[k], Standing(start[b], b, visits[..k], met), met[k])
  }

  /** After the visits every consumer stands where they have left it. */
  ghost predicate AllStand(start: map<StagingBuffer, nat>, now: map<StagingBuffer, nat>, visits: seq<Visit>,
                           met: seq<Met>)
    requires |visits| <= |met|
  {
    now.Keys == start.Keys && forall b | b in start :: now[b] == Standing(start[b], b, visits, met)
  }

  lemma NoVisit(start: map<StagingBuffer, nat>, met: seq<Met>)
    ensures AllFind(start, [], met) && AllStand(start, start, [], met)
  {
  }

  lemma FindSnoc(start: map<StagingBuffer, nat>, now: map<StagingBuffer, nat>, visits: seq<Visit>,
                 met: seq<Met>, v: Visit)
    requires |visits| < |met| && AllFind(start, visits, met) && AllStand(start, now, visits, met)
    requires v.sb in now && Finds(v, now[v.sb], met[|visits|])
    ensures AllFind(start, visits + [v], met)
  {
    hide Finds, Standing;
    assert forall k | 0 <= k < |visits| :: (visits + [v])[..k] == visits[..k];
    assert (visits + [v])[..|visits|] == visits;
  }

  lemma StandSnoc(start: map<StagingBuffer, nat>, now: map<StagingBuffer, nat>, next: map<StagingBuffer, nat>,
                  visits: seq<Visit>, met: seq<Met>, v: Visit)
    requires |visits| < |met| && AllStand(start, now, visits, met)
    requires v.sb in now && next == now[v.sb := Taken(now[v.sb], met[|visits|]).0]
    ensures AllStand(start, next, visits + [v], met)
  {
    hide Standing, Taken;
    forall b | b in start ensures next[b] == Standing(start[b], b, visits + [v], met) {
      StandingSnoc(start[b], b, visits, met, v);
    }
  }

  /** Nobody else moves the consumer of a buffer that is not visited. */
  lemma {:induction false} NotVisited(c: nat, sb: StagingBuffer, visits: seq<Visit>, met: seq<Met>)
    requires |visits| <= |met| && sb !in Visited(visits)
    ensures Standing(c, sb, visits, met) == c
    decreases |visits|
  {
    if visits != [] {
      var n := |visits| - 1;
      assert Visited(visits)[n] == visits[n].sb && Visited(visits)[..n] == Visited(visits[..n]);
      NotVisited(c, sb, visits[..n], met);
    }
  }

  lemma StandingSnoc(c: nat, sb: StagingBuffer, visits: seq<Visit>, met: seq<Met>, v: Visit)
    requires |visits| < |met|
    ensures Standing(c, sb, visits + [v], met)
         == (if v.sb == sb then Taken(Standing(c, sb, visits, met), met[|visits|]).0 else Standing(c, sb, visits, met))
  {
    assert (visits + [v])[..|visits|] == visits;
  }

  lemma Snoc(visits: seq<Visit>, met: seq<Met>, v: Visit)
    requires |visits| < |met|
    ensures var more, m := visits + [v], met[|visits|];
      && Visited(more) == Visited(visits) + [v.sb]
      && HandedOver(more) == HandedOver(visits) + (if v.len > 0 then [v] else [])
      && Staying(more, met) == Staying(visits, met) + (if v.len == 0 && m.shouldDeallocate then [] else [v.sb])
      && Arrived(more, met) == Arrived(visits, met) + (if v.len > 0 then m.registering else [])
  {
    assert (visits + [v])[..|visits|] == visits;
  }

  function Total(spans: seq<Visit>): nat {
    if spans == [] then 0 else Total(spans[..|spans| - 1]) + spans[|spans| - 1].len
  }

  /** All that the visits have taken is handed over, and nothing else, in the order of the visits. */
  lemma {:induction false} AllHandedOver(visits: seq<Visit>)
    ensures Total(HandedOver(visits)) == Total(visits)
    ensures forall v | v in visits && v.len > 0 :: v in HandedOver(visits)
    ensures forall v | v in HandedOver(visits) :: v in visits && v.len > 0
    decreases |visits|
  {
    hide Total, HandedOver;
    HandedOverStep(visits);
    if visits != [] {
      var init, last := visits[..|visits| - 1], visits[|visits| - 1];
      AllHandedOver(init);
      assert visits == init + [last];
      TotalSnoc(init, last);
      TotalSnoc(HandedOver(init), last);
    }
  }

  lemma HandedOverStep(visits: seq<Visit>)
    ensures visits == [] ==> HandedOver(visits) == []
    ensures visits != [] ==>
      var init, last := visits[..|visits| - 1], visits[|visits| - 1];
      HandedOver(visits) == if last.len > 0 then HandedOver(init) + [last] else HandedOver(init)
  {
    if visits != [] {
      var init := HandedOver(visits[..|visits| - 1]);
      assert init + [] == init;
    }
  }

  lemma TotalSnoc(spans: seq<Visit>, v: Visit)
    ensures Total([]) == 0 && Total(spans + [v]) == Total(spans) + v.len
  {
    assert (spans + [v])[..|spans|] == spans;
  }

  lemma Regroup(visited: seq<StagingBuffer>, sb: StagingBuffer, rest: seq<StagingBuffer>, was: seq<StagingBuffer>,
                arrived: seq<StagingBuffer>, more: seq<StagingBuffer>)
    requires visited + ([sb] + rest) == was + arrived
    ensures visited + [sb] + (rest + more) == was + (arrived + more)
  {
    assert visited + [sb] + (rest + more) == visited + ([sb] + rest) + more;
  }

  class Poller {
    var threadBuffers: seq<StagingBuffer>

    constructor ()
      ensures threadBuffers == []
    {
      threadBuffers := [];
    }

    /** One iteration: peek, hand over or delete, and the index of the next buffer. */
    method VisitAt(i: nat, m: Met, ghost known: set<StagingBuffer>) returns (v: Visit, next: nat)
      requires i < |threadBuffers| && (forall b | b in threadBuffers + m.registering :: b in known)
      modifies this, known`consumerPos
      ensures v.sb == old(threadBuffers[i]) && next <= |threadBuffers|
      ensures var was := old(Positions(known));
        v.sb in was && Finds(v, was[v.sb], m) && Positions(known) == was[v.sb := Taken(was[v.sb], m).0]
      ensures threadBuffers[..next] == old(threadBuffers[..i])
          + (if v.len == 0 && m.shouldDeallocate then [] else [v.sb])
      ensures threadBuffers[next..] == old(threadBuffers[i + 1..]) + (if v.len > 0 then m.registering else [])
      ensures forall b | b in threadBuffers :: b in known
    {
      var sb, index := threadBuffers[i], i as int;
      assert sb in threadBuffers + m.registering;
      var at, peekBytes := sb.PeekSpan(m.p, m.e);
      v := Visit(sb, at, peekBytes);
      if peekBytes > 0 {
        sb.Consume(peekBytes);
        threadBuffers := threadBuffers + m.registering;
      } else if m.shouldDeallocate {
        threadBuffers := threadBuffers[..i] + threadBuffers[i + 1..];
        index := index - 1;
      }
      next := index + 1;
    }

    /** One pass of the loop over `threadBuffers`, finished unless `met` was too short for it.
        Every buffer that was there or came in on the way is visited exactly once and in order,
        although deleting shifts the others under the index; what a visit finds is what `peek`
        returns there, and a buffer that is not visited is left alone.  `known` are the buffers
        there are. */
    method Round(met: seq<Met>, ghost known: set<StagingBuffer>)
      returns (finished: bool, bytesWritten: nat, spans: seq<Visit>, ghost visits: seq<Visit>)
      requires forall b | b in threadBuffers :: b in known
      requires forall j, b | 0 <= j < |met| && b in met[j].registering :: b in known
      modifies this, known`consumerPos
      ensures |visits| <= |met| && (finished || |visits| == |met|)
      ensures finished ==> Visited(visits) == old(threadBuffers) + Arrived(visits, met)
      ensures finished ==> threadBuffers == Staying(visits, met)
      ensures spans == HandedOver(visits) && bytesWritten == Total(spans)
      ensures AllFind(old(Positions(known)), visits, met)
      ensures AllStand(old(Positions(known)), Positions(known), visits, met)
    {
      bytesWritten, spans, visits, finished := 0, [], [], true;
      var i: nat, j: nat := 0, 0;
      assert Visited([]) + threadBuffers[0..] == threadBuffers + [];
      ghost var start := Positions(known);
      hide Taken, AllFind, AllStand, Positions, Finds;
      NoVisit(start, met);
      while i < |threadBuffers|
        invariant i <= |threadBuffers| && j == |visits| <= |met| && finished
        invariant forall b | b in threadBuffers :: b in known
        invariant threadBuffers[..i] == Staying(visits, met)
        invariant Visited(visits) + threadBuffers[i..] == old(threadBuffers) + Arrived(visits, met)
        invariant spans == HandedOver(visits) && bytesWritten == Total(spans)
        invariant AllFind(start, visits, met) && AllStand(start, Positions(known), visits, met)
        decreases |met| - |visits|
      {
        hide HandedOver, Staying, Arrived, Visited, Total;
        if j == |met| {
          finished := false;
          return;
        }
        ghost var now, rest := Positions(known), threadBuffers[i + 1..];
        assert threadBuffers[i..] == [threadBuffers[i]] + rest;
        var v, next := VisitAt(i, met[j], known);
        Snoc(visits, met, v);
        Regroup(Visited(visits), v.sb, rest, old(threadBuffers), Arrived(visits, met),
            if v.len > 0 then met[j].registering else []);
        if v.len > 0 {
          TotalSnoc(spans, v);
          spans := spans + [v];
          bytesWritten := bytesWritten + v.len;
        }
        FindSnoc(start, now, visits, met, v);
        StandSnoc(start, now, Positions(known), visits, met, v);
        i, j, visits := next, j + 1, visits + [v];
      }
      assert threadBuffers[..i] == threadBuffers;
    }
  }
}
