/** The four methods of `RuntimeLogger::StagingBuffer` in the form the program has, each proved
    against a function of its fields, and the proof that each of them is a run of the step system
    of `StagingRing`.  A load of a position that the other thread owns returns whatever that
    thread has stored by then, so its value is a parameter. */
module StagingBuffers {
  import opened Bytes
  import R = StagingRing

  const SIZE: nat := R.STAGING_BUFFER_SIZE

  /** The producer's view: `_producerPos`, `_endOfRecordedSpace`, `_minFreeSpace`. */
  datatype Producer = Producer(pos: nat, end: nat, free: nat)

  datatype Outcome = At(pos: nat) | NullPtr | StillBlocked

  /** One pass of the retry loop that loads `k` from `_consumerPos`. */
  function Pass(v: Producer, n: nat, k: nat): Producer {
    if k > v.pos then v.(free := SubU64(k, v.pos))
    else if n < SubU64(SIZE, v.pos) then v.(free := SubU64(SIZE, v.pos))
    else if k != 0 then Producer(0, v.pos, k)
    else Producer(v.pos, v.pos, SubU64(SIZE, v.pos))
  }

  /** `reserveProducerSpace` when its loads of `_consumerPos` return `loads`, one after another. */
  function Reserve(v: Producer, n: nat, blocking: bool, loads: seq<nat>): (Producer, Outcome)
    decreases |loads|
  {
    if n < v.free then (v, At(v.pos))
    else if loads == [] then (v, StillBlocked)
    else
      var v' := Pass(v, n, loads[0]);
      if !blocking && v'.free <= n then (v', NullPtr) else Reserve(v', n, blocking, loads[1..])
  }

  /** `peek` when it loads `p` and, if it gets there, `e`: new consumer position, span. */
  function Peek(c: nat, p: nat, e: nat): (nat, nat, nat) {
    if c <= p then (c, c, SubU64(p, c))
    else if SubU64(e, c) > 0 then (c, c, SubU64(e, c))
    else (0, 0, p)
  }

  class StagingBuffer {
    var producerPos: nat
    var endOfRecordedSpace: nat
    var minFreeSpace: nat
    var consumerPos: nat
    const storage: array<byte>

    constructor ()
      ensures View() == Producer(0, SIZE, SIZE) && consumerPos == 0
      ensures fresh(storage) && storage.Length == SIZE
    {
      producerPos, endOfRecordedSpace, minFreeSpace, consumerPos := 0, SIZE, SIZE, 0;
      storage := new byte[SIZE];
    }

    ghost function View(): Producer
      reads this
    {
      Producer(producerPos, endOfRecordedSpace, minFreeSpace)
    }

    /** `loads` are the values the loads of `_consumerPos` return; when they are used up, the
        caller is still in the loop. */
    method ReserveProducerSpace(nbytes: nat, blocking: bool, loads: seq<nat>) returns (r: Outcome)
      modifies this`producerPos, this`endOfRecordedSpace, this`minFreeSpace
      ensures (View(), r) == Reserve(old(View()), nbytes, blocking, loads)
    {
      var currentProducerPos := producerPos;
      if nbytes < minFreeSpace {
        return At(currentProducerPos);
      }
      var i := 0;
      while minFreeSpace <= nbytes
        invariant 0 <= i <= |loads| && currentProducerPos == producerPos
        invariant Reserve(View(), nbytes, blocking, loads[i..]) == Reserve(old(View()), nbytes, blocking, loads)
        decreases |loads| - i, if minFreeSpace <= nbytes then 1 else 0
      {
        if i == |loads| {
          return StillBlocked;
        }
        ghost var before := View();
        var cachedConsumerPos := loads[i];
        i := i + 1;
        if cachedConsumerPos <= currentProducerPos {
          minFreeSpace := SubU64(SIZE, currentProducerPos);
          if minFreeSpace > nbytes {
            break;
          }
          endOfRecordedSpace := currentProducerPos;
          if cachedConsumerPos != 0 {
            producerPos := 0;
            currentProducerPos := producerPos;
            minFreeSpace := SubU64(cachedConsumerPos, currentProducerPos);
          }
        } else {
          minFreeSpace := SubU64(cachedConsumerPos, currentProducerPos);
        }
        assert View() == Pass(before, nbytes, cachedConsumerPos) && loads[i - 1..][1..] == loads[i..];
        if !blocking && minFreeSpace <= nbytes {
          return NullPtr;
        }
      }
      r := At(currentProducerPos);
    }

    method FinishReservation(nbytes: nat)
      requires nbytes < minFreeSpace && producerPos + nbytes < SIZE
      modifies this`producerPos, this`minFreeSpace
      ensures View() == old(View()).(pos := old(producerPos) + nbytes, free := old(minFreeSpace) - nbytes)
    {
      var currentProducerPos := producerPos;
      producerPos := currentProducerPos + nbytes;
      minFreeSpace := SubU64(minFreeSpace, nbytes);
    }

    /** `loadedProducerPos` and `loadedEnd` are what the two loads of the producer's fields return. */
    method PeekSpan(loadedProducerPos: nat, loadedEnd: nat) returns (at: nat, bytesAvailable: nat)
      modifies this`consumerPos
      ensures (consumerPos, at, bytesAvailable) == Peek(old(consumerPos), loadedProducerPos, loadedEnd)
    {
      var currentConsumerPos := consumerPos;
      if loadedProducerPos < currentConsumerPos {
        bytesAvailable := SubU64(loadedEnd, currentConsumerPos);
        if bytesAvailable > 0 {
          return currentConsumerPos, bytesAvailable;
        }
        consumerPos := 0;
        currentConsumerPos := consumerPos;
      }
      bytesAvailable := SubU64(loadedProducerPos, currentConsumerPos);
      at := currentConsumerPos;
    }

    method Consume(nbytes: nat)
      modifies this`consumerPos
      ensures consumerPos == old(consumerPos) + nbytes
    {
      var currentConsumerPos := consumerPos;
      consumerPos := currentConsumerPos + nbytes;
    }
  }

  // ---------------------------------------------------------------- the same as the step system

  function ViewOf(s: R.State): Producer
    requires R.Shape(s)
  {
    Producer(R.P(s).off, R.E(s), s.free)
  }

  /** The steps of one pass of the retry loop that starts with the load of `bumps[i]`. */
  function PassActs(s: R.State, i: nat): seq<R.Act>
    requires R.Shape(s) && i < |s.bumps| && s.ppc.LoadConsumer?
  {
    var k, p, n := s.bumps[i].off, R.P(s).off, s.ppc.n;
    if k > p || n < SubU64(SIZE, p) then [R.LoadC(i)]
    else if k != 0 then [R.LoadC(i), R.PutEnd, R.PutWrap, R.PutFree]
    else [R.LoadC(i), R.PutEnd]
  }

  function AfterPass(free: nat, n: nat, blocking: bool): R.ProducerPc {
    if n < free then R.Reserved(n) else if blocking then R.LoadConsumer(n, blocking) else R.Outside
  }

  /** One pass of the loop of the program is these steps of the system. */
  lemma PassIsRun(s: R.State, i: nat) returns (t: R.State)
    requires R.Shape(s) && s.ppc.LoadConsumer? && s.seenC <= i < |s.bumps|
    ensures R.Run(s, PassActs(s, i), t) && R.Shape(t)
    ensures ViewOf(t) == Pass(ViewOf(s), s.ppc.n, s.bumps[i].off)
    ensures t.ppc == AfterPass(t.free, s.ppc.n, s.ppc.blocking) && t.bumps == s.bumps && t.seenC == i
  {
    var acts := PassActs(s, i);
    var k, n, blocking := s.bumps[i], s.ppc.n, s.ppc.blocking;
    var p := R.P(s);
    var s1 := R.Step(s, R.LoadC(i));
    assert acts[0] == R.LoadC(i);
    if |acts| == 1 {
      t := s1;
      assert acts[1..] == [];
    } else {
      assert s1 == s.(seenC := i, free := SubU64(SIZE, p.off), ppc := R.StoreEnd(n, blocking, k));
      t := WrapIsRun(s1);
      assert acts[1..] == if k.off != 0 then [R.PutEnd, R.PutWrap, R.PutFree] else [R.PutEnd];
    }
  }

  lemma WrapIsRun(s: R.State) returns (t: R.State)
    requires R.Shape(s) && s.ppc.StoreEnd? && s.free <= s.ppc.n
    ensures R.Run(s, if s.ppc.k.off != 0 then [R.PutEnd, R.PutWrap, R.PutFree] else [R.PutEnd], t) && R.Shape(t)
    ensures ViewOf(t) == if s.ppc.k.off != 0 then Producer(0, R.P(s).off, s.ppc.k.off)
                         else Producer(R.P(s).off, R.P(s).off, s.free)
    ensures t.ppc == AfterPass(t.free, s.ppc.n, s.ppc.blocking) && t.bumps == s.bumps && t.seenC == s.seenC
  {
    var k, n, blocking, p := s.ppc.k, s.ppc.n, s.ppc.blocking, R.P(s);
    var s2 := R.Step(s, R.PutEnd);
    if k.off == 0 {
      t := s2;
      assert [R.PutEnd][1..] == [];
    } else {
      assert s2 == s.(marks := s.marks + [p.off], ppc := R.StoreWrap(n, blocking, k));
      var s3 := R.Step(s2, R.PutWrap);
      assert R.P(s3).off == 0 && s3.ppc == R.RefreshFree(n, blocking, k) && s3.marks == s2.marks;
      t := R.Step(s3, R.PutFree);
      assert [R.PutEnd, R.PutWrap, R.PutFree][1..] == [R.PutWrap, R.PutFree];
      assert [R.PutWrap, R.PutFree][1..] == [R.PutFree] && [R.PutFree][1..] == [];
      assert R.Run(s3, [R.PutFree], t);
      assert R.Run(s2, [R.PutWrap, R.PutFree], t);
    }
  }

  /** The values loaded at the indices `at` of the history of consumer positions. */
  function Loaded(bumps: seq<R.Pos>, at: seq<nat>): seq<nat>
    requires forall j | 0 <= j < |at| :: at[j] < |bumps|
  {
    seq(|at|, j requires 0 <= j < |at| => bumps[at[j]].off)
  }

  predicate Forward(at: seq<nat>, from: nat, to: nat) {
    && (forall j | 0 <= j < |at| :: from <= at[j] < to)
    && (forall j, k | 0 <= j <= k < |at| :: at[j] <= at[k])
  }

  function OutcomeOf(t: R.State): Outcome
    requires R.Shape(t)
  {
    if t.ppc.Reserved? then At(R.P(t).off) else if t.ppc.Outside? then NullPtr else StillBlocked
  }

  /** The retry loop of `reserveProducerSpace`, for every choice of values its loads may return,
      stale ones included. */
  lemma {:induction false} RetryIsRun(s: R.State, at: seq<nat>) returns (acts: seq<R.Act>, t: R.State)
    requires R.Shape(s) && s.ppc.LoadConsumer? && s.free <= s.ppc.n && Forward(at, s.seenC, |s.bumps|)
    ensures R.Run(s, acts, t) && R.Shape(t)
    ensures (ViewOf(t), OutcomeOf(t)) == Reserve(ViewOf(s), s.ppc.n, s.ppc.blocking, Loaded(s.bumps, at))
    decreases |at|
  {
    hide R.Step, R.Enabled, R.Safe;
    var loads := Loaded(s.bumps, at);
    if at == [] {
      acts, t := [], s;
    } else {
      var u := PassIsRun(s, at[0]);
      var n, blocking := s.ppc.n, s.ppc.blocking;
      assert loads[0] == s.bumps[at[0]].off && loads[1..] == Loaded(u.bumps, at[1..]);
      if n < u.free || !blocking {
        acts, t := PassActs(s, at[0]), u;
      } else {
        var rest;
        rest, t := RetryIsRun(u, at[1..]);
        R.RunConcat(s, PassActs(s, at[0]), u, rest, t);
        acts := PassActs(s, at[0]) + rest;
      }
    }
  }

  /** The whole of `reserveProducerSpace`, from the call on, the fast path included: for every
      choice of values its loads may return, the method's result is that of a run of the step
      system, which consists of the call and of passes of the loop. */
  lemma ReserveIsRun(s: R.State, n: nat, blocking: bool, at: seq<nat>) returns (acts: seq<R.Act>, t: R.State)
    requires R.Shape(s) && s.ppc.Outside? && Forward(at, s.seenC, |s.bumps|)
    ensures acts != [] && acts[0] == R.Reserve(n, blocking) && R.Run(s, acts, t) && R.Shape(t)
    ensures (ViewOf(t), OutcomeOf(t)) == Reserve(ViewOf(s), n, blocking, Loaded(s.bumps, at))
    ensures n < s.free ==> acts == [R.Reserve(n, blocking)] && t == s.(ppc := R.Reserved(n))
  {
    var u := R.Step(s, R.Reserve(n, blocking));
    var rest: seq<R.Act> := [];
    t := u;
    if n >= s.free {
      assert u == s.(ppc := R.LoadConsumer(n, blocking));
      rest, t := RetryIsRun(u, at);
    }
    acts := [R.Reserve(n, blocking)] + rest;
    assert acts[1..] == rest;
  }

  /** A reserve that looks at where the consumer stands answers with space exactly if there is
      some: in front of the consumer if the producer is a lap ahead, up to the end of the storage or
      else in front of the consumer if it is not.  Otherwise it goes on waiting, or gives up. */
  lemma ReserveAnswersIff(s: R.State, n: nat, blocking: bool)
    requires R.Inv(s) && s.ppc.Outside?
    ensures R.Shape(s) && var p, c := R.P(s), R.C(s);
      var here := if c.lap != p.lap then p.off + n < c.off else p.off + n < 1_048_576;
      var front := c.lap == p.lap && n < c.off;
      Reserve(ViewOf(s), n, blocking, [c.off]).1
      == if here then At(p.off) else if front then At(0) else if blocking then StillBlocked else NullPtr
  {
    Freed(s);
    hide R.Inv;
    var v := ViewOf(s);
    if n >= v.free {
      var v' := Pass(v, n, R.C(s).off);
      assert [R.C(s).off][1..] == [];
      assert Reserve(v', n, blocking, []) == if n < v'.free then (v', At(v'.pos)) else (v', StillBlocked);
    }
  }

  /** Where the two positions are, and how far the bound of the producer reaches at most. */
  lemma Freed(s: R.State)
    requires R.Inv(s) && s.ppc.Outside?
    ensures R.Shape(s) && var p, c := R.P(s), R.C(s);
      && p.off < 1_048_576 && c.off < 1_048_576
      && (if c.lap == p.lap then c.off <= p.off && p.off + s.free <= 1_048_576
          else p.off < c.off && p.off + s.free <= c.off)
  {
    hide R.Content, R.Pubs, R.PubsSorted, R.ConsumerOk, R.Sorted, R.Commits;
    assert s.bumps[|s.bumps| - 1] == R.C(s);
  }

  /** A peek that looks at where the producer stands finds something exactly if there is something:
      all that has been committed and not yet taken, up to the end of the consumer's lap. */
  lemma PeekFindsAll(s: R.State)
    requires R.Inv(s) && s.cpc.Polling?
    ensures R.Shape(s) && var p, c, e := R.P(s), R.C(s), R.E(s);
      var (stands, at, len) := Peek(c.off, p.off, e);
      && (len > 0 <==> c.idx < p.idx) && at == stands
      && (if c.lap != p.lap && c.off < e then stands == c.off && c.idx + len + p.off == p.idx
          else c.idx + len == p.idx && stands == if c.lap == p.lap then c.off else 0)
  {
    hide R.Content, R.Pubs, R.PubsSorted, R.Bumps, R.BumpsSorted, R.ProducerOk, R.ConsumerOk, R.Sorted, R.Commits;
  }

  /** `finishReservation`: the store that publishes the bytes, then the smaller bound. */
  lemma FinishIsRun(s: R.State, n: nat) returns (t: R.State)
    requires R.Shape(s) && s.ppc.Reserved? && n <= s.ppc.n && R.Safe(s, R.Commit(n))
    ensures R.Run(s, [R.Commit(n), R.Shrink], t) && R.Shape(t) && t.ppc.Outside?
    ensures ViewOf(t) == ViewOf(s).(pos := ViewOf(s).pos + n, free := ViewOf(s).free - n)
  {
    var u := R.Step(s, R.Commit(n));
    assert u.ppc == R.ShrinkFree(n) && u.free == s.free;
    t := R.Step(u, R.Shrink);
    assert [R.Commit(n), R.Shrink][1..] == [R.Shrink] && [R.Shrink][1..] == [];
    assert R.Run(u, [R.Shrink], t);
  }

  /** `consume` of a chunk that has been copied. */
  lemma ConsumeIsRun(s: R.State) returns (t: R.State)
    requires R.Shape(s) && R.Enabled(s, R.Release) && R.Safe(s, R.Release)
    ensures R.Run(s, [R.Release], t) && R.Shape(t)
    ensures R.C(t).off == R.C(s).off + s.cpc.copied
  {
    t := R.Step(s, R.Release);
    assert [R.Release][1..] == [];
  }

  /** A peek that finds everything in one go or in two, and the roll-over in between. */
  function PeekActs(s: R.State, i: nat, j: nat): seq<R.Act>
    requires R.Shape(s) && i < |s.pubs| && j < |s.marks|
  {
    if R.C(s).off <= s.pubs[i].pos.off then [R.LoadP(i)]
    else if SubU64(s.marks[j], R.C(s).off) > 0 then [R.LoadP(i), R.LoadE(j)]
    else [R.LoadP(i), R.LoadE(j), R.Roll]
  }

  /** `peek`, for every pair of values its loads may return, is a run of the step system. */
  lemma PeekIsRun(s: R.State, i: nat, j: nat) returns (t: R.State)
    requires R.Shape(s) && s.cpc.Polling? && s.seenP <= i < |s.pubs| && s.pubs[i].mark <= j < |s.marks|
    ensures R.Run(s, PeekActs(s, i, j), t) && R.Shape(t)
    ensures t == s.(bumps := t.bumps, cpc := t.cpc, seenP := i)
    ensures var (c, at, len) := Peek(R.C(s).off, s.pubs[i].pos.off, s.marks[j]);
      && R.C(t).off == c
      && (if len == 0 then t.cpc == R.Polling
          else t.cpc.Copying? && t.cpc.at == at && t.cpc.remaining == len && t.cpc.copied == 0)
  {
    var acts := PeekActs(s, i, j);
    var s1 := R.Step(s, R.LoadP(i));
    if |acts| == 1 {
      t := s1;
      assert acts[1..] == [];
    } else {
      var s2 := R.Step(s1, R.LoadE(j));
      if |acts| == 2 {
        t := s2;
        assert acts[1..] == [R.LoadE(j)] && [R.LoadE(j)][1..] == [];
        assert R.Run(s1, [R.LoadE(j)], t);
      } else {
        t := R.Step(s2, R.Roll);
        assert acts[1..] == [R.LoadE(j), R.Roll] && acts[1..][1..] == [R.Roll] && [R.Roll][1..] == [];
        assert R.Run(s2, [R.Roll], t);
        assert R.Run(s1, acts[1..], t);
      }
    }
  }

  /** The steps of the copy loop. */
  predicate Copies(acts: seq<R.Act>) { forall i | 0 <= i < |acts| :: acts[i].CopyByte? || acts[i].Release? }

  /** The copy loop up to its end, with no other step in between: what is left of the span goes out
      byte by byte, and the space of every chunk is given back. */
  lemma {:induction false} CopyIsRun(s: R.State) returns (acts: seq<R.Act>, t: R.State)
    requires R.Inv(s) && s.cpc.Copying?
    ensures R.Shape(s) && R.Shape(t) && R.Run(s, acts, t) && Copies(acts) && acts != []
    ensures s.cpc.copied <= s.cpc.remaining && s.cpc.at + s.cpc.remaining <= |s.storage|
    ensures t == s.(bumps := t.bumps, cpc := R.Polling, taken := s.cpc.upTo,
                    delivered := s.delivered + s.storage[s.cpc.at + s.cpc.copied..s.cpc.at + s.cpc.remaining])
    ensures R.C(t).off == R.C(s).off + s.cpc.remaining
    decreases s.cpc.remaining, R.Chunk(s.cpc.remaining) - s.cpc.copied
  {
    hide R.Inv, R.Step, R.Enabled, R.Safe;
    var a, s' := CopyStep(s);
    if s'.cpc.Polling? {
      acts, t := [a], s';
      assert [a][1..] == [];
    } else {
      var rest;
      rest, t := CopyIsRun(s');
      acts := [a] + rest;
      assert acts[1..] == rest;
    }
  }

  /** The copy loop holds back at most a sixteenth of the storage: after 65536 bytes, or when the span
      is at its end, and only then, the next step gives back what has been copied. */
  lemma ChunkIsGivenBack(s: R.State)
    requires R.Inv(s) && s.cpc.Copying?
    ensures R.Shape(s) && s.cpc.copied <= 65_536 && s.cpc.copied <= s.cpc.remaining
    ensures s.cpc.copied == 65_536 || s.cpc.copied == s.cpc.remaining <==> R.Enabled(s, R.Release)
    ensures R.Enabled(s, R.Release) <==> !R.Enabled(s, R.CopyByte)
  {
    hide R.Geometry, R.Content, R.Pubs, R.PubsSorted, R.Bumps, R.BumpsSorted, R.ProducerOk;
  }

  lemma CopyStep(s: R.State) returns (a: R.Act, t: R.State)
    requires R.Inv(s) && s.cpc.Copying?
    ensures R.Shape(s) && R.Shape(t) && (a.CopyByte? || a.Release?) && R.Inv(t)
    ensures R.Enabled(s, a) && R.Safe(s, a) && t == R.Step(s, a)
    ensures var w := s.cpc;
      && w.copied <= R.Chunk(w.remaining) && w.at + w.remaining <= |s.storage|
      && (if a.CopyByte? then
            w.copied < w.remaining && t == s.(delivered := s.delivered + [s.storage[w.at + w.copied]],
                                              cpc := w.(copied := w.copied + 1))
            && t.cpc.copied <= R.Chunk(w.remaining)
          else if w.copied == w.remaining then
            t == s.(bumps := t.bumps, cpc := R.Polling, taken := w.upTo) && R.C(t).off == R.C(s).off + w.remaining
          else
            w.copied > 0
            && t == s.(bumps := t.bumps, cpc := R.Copying(w.at + w.copied, w.remaining - w.copied, 0, w.upTo))
            && R.C(t).off == R.C(s).off + w.copied)
  {
    hide R.Inv, R.Safe, R.Step, R.Enabled, R.Shape;
    R.SpanIsStream(s);
    CopyBounds(s);
    if s.cpc.copied < R.Chunk(s.cpc.remaining) {
      a := R.CopyByte;
      ByteStep(s);
    } else {
      a := R.Release;
      ReleaseStep(s);
    }
    R.StepInv(s, a);
    t := R.Step(s, a);
  }

  lemma ByteStep(s: R.State)
    requires R.Shape(s) && s.cpc.Copying? && s.cpc.copied < R.Chunk(s.cpc.remaining)
    requires s.cpc.at + s.cpc.remaining <= R.STAGING_BUFFER_SIZE
    ensures R.Enabled(s, R.CopyByte) && R.Safe(s, R.CopyByte) && R.Shape(R.Step(s, R.CopyByte))
    ensures R.Step(s, R.CopyByte) == s.(delivered := s.delivered + [s.storage[s.cpc.at + s.cpc.copied]],
                                        cpc := s.cpc.(copied := s.cpc.copied + 1))
  {
  }

  lemma ReleaseStep(s: R.State)
    requires R.Shape(s) && s.cpc.Copying? && s.cpc.copied == R.Chunk(s.cpc.remaining) && s.cpc.remaining > 0
    requires s.cpc.upTo < |s.ends|
    ensures R.Enabled(s, R.Release) && R.Safe(s, R.Release)
    ensures var t, w := R.Step(s, R.Release), s.cpc;
      && R.Shape(t) && R.C(t).off == R.C(s).off + w.copied && w.copied > 0
      && t == if w.copied == w.remaining then s.(bumps := t.bumps, cpc := R.Polling, taken := w.upTo)
              else s.(bumps := t.bumps, cpc := R.Copying(w.at + w.copied, w.remaining - w.copied, 0, w.upTo))
  {
  }

  lemma CopyBounds(s: R.State)
    requires R.Inv(s) && s.cpc.Copying?
    ensures R.Shape(s) && s.cpc.copied <= R.Chunk(s.cpc.remaining) && s.cpc.remaining > 0
  {
    hide R.Geometry, R.Content, R.Pubs, R.PubsSorted, R.Bumps, R.BumpsSorted, R.ProducerOk;
  }
}
