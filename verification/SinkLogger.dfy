/** `SinkBuffer`, `appendInternal` and the locked and unlocked sections of `SinkLogger` in the form
    the program has.  A buffer's bytes are always those of the blocks appended to it, and each
    section is proved to be the steps that `SinkBuffering` gives it, so what is proved there of
    every run holds of these objects. */
module SinkLoggers {
  import opened Bytes
  import opened LogBlocks
  import opened Sequences
  import opened StagingBuffers
  import K = SinkBuffering
  import R = StagingRing

  /** A fixed block of bytes that is only filled at its end. */
  class SinkBuffer {
    const data: array<byte>
    var cur: nat
    /** Which buffer this is, and what has been appended to it. */
    ghost const id: nat
    ghost var blocks: seq<Block>

    constructor (ghost id: nat)
      ensures Valid() && fresh(data) && this.id == id && blocks == []
    {
      data := new byte[K.LARGE_BUFFER];
      cur, this.id, blocks := 0, id, [];
    }

    ghost predicate Filled()
      reads this
    {
      data.Length == K.LARGE_BUFFER && cur <= data.Length
    }

    ghost function Contents(): seq<byte>
      requires Filled()
      reads this, data
    {
      data[..cur]
    }

    /** The bytes are those of the blocks, each of which the sink can read back. */
    ghost predicate Valid()
      reads this, data
    {
      Filled() && (forall i | 0 <= i < |blocks| :: BlockOk(blocks[i])) && Contents() == BufferBytes(blocks)
    }

    function Avail(): nat
      requires Filled()
      reads this
    {
      data.Length - cur
    }

    /** The precondition is the method's own assert. */
    method Append(src: array<byte>, at: nat, len: nat)
      requires Filled() && src != data && at + len <= src.Length && Avail() > len
      modifies this`cur, data
      ensures Filled() && Contents() == old(Contents()) + src[at..at + len]
    {
      forall k | 0 <= k < len {
        data[cur + k] := src[at + k];
      }
      cur := cur + len;
    }

    /** Bytes written in place at `current()`, as placement new does. */
    method Emplace(bytes: seq<byte>)
      requires Filled() && Avail() >= |bytes|
      modifies this`cur, data
      ensures Filled() && Contents() == old(Contents()) + bytes
    {
      forall k | 0 <= k < |bytes| {
        data[cur + k] := bytes[k];
      }
      cur := cur + |bytes|;
    }

    method Reset()
      requires Filled()
      modifies this`cur, this`blocks
      ensures Valid() && blocks == []
    {
      cur, blocks := 0, [];
    }
  }

  lemma AppendChunk(before: seq<byte>, all: seq<byte>, at: nat, i: nat, n: nat)
    requires at <= i && i + n <= |all|
    ensures before + all[at..i] + all[i..i + n] == before + all[at..i + n]
  {
    assert all[at..i] + all[i..i + n] == all[at..i + n];
  }

  /** The copy loop: the span goes back to the producer chunk by chunk, each chunk after it has been
      copied.  The room that `append` has checked is enough for every chunk. */
  method CopySpan(buf: SinkBuffer, sb: StagingBuffer, at: nat, len: nat)
    requires buf.Filled() && sb.storage != buf.data && at + len <= sb.storage.Length && buf.Avail() > len
    modifies buf`cur, buf.data, sb`consumerPos
    ensures buf.Filled() && buf.Contents() == old(buf.Contents()) + sb.storage[at..at + len]
    ensures sb.consumerPos == old(sb.consumerPos) + len
  {
    ghost var before, all := buf.Contents(), sb.storage[..];
    var logline, remaining := at, len;
    assert before + all[at..at] == before;
    while remaining > 0
      invariant logline + remaining == at + len && at <= logline && 0 <= remaining
      invariant buf.Filled() && buf.Avail() > remaining && sb.storage[..] == all
      invariant buf.Contents() == before + all[at..logline]
      invariant sb.consumerPos == old(sb.consumerPos) + (logline - at)
    {
      var bytesToCopy := if R.RELEASE_THRESHOLD < remaining then R.RELEASE_THRESHOLD else remaining;
      buf.Append(sb.storage, logline, bytesToCopy);
      AppendChunk(before, all, at, logline, bytesToCopy);
      logline := logline + bytesToCopy;
      remaining := remaining - bytesToCopy;
      sb.Consume(bytesToCopy);
    }
  }

  /** `appendInternal`: what it leaves in the buffer are the bytes of one more block, the one whose
      entries the span holds. */
  method AppendInternal(buf: SinkBuffer, sb: StagingBuffer, at: nat, len: nat, name: seq<byte>, ghost block: Block)
    requires buf.Valid() && sb.storage != buf.data && at + len <= sb.storage.Length
    requires buf.Avail() > len + CHECKPOINT_SIZE
    requires BlockOk(block) && block.name == name && Flatten(block.entries) == sb.storage[at..at + len]
    modifies buf`cur, buf`blocks, buf.data, sb`consumerPos
    ensures buf.Valid() && buf.blocks == old(buf.blocks) + [block]
    ensures buf.Contents() == old(buf.Contents()) + BlockBytes(block)
    ensures sb.consumerPos == old(sb.consumerPos) + len
  {
    hide BufferBytes, Flatten, Encode;
    ghost var was := buf.Contents();
    ghost var text := sb.storage[at..at + len];
    buf.Emplace(name + Encode(len, 4));
    assert sb.storage[at..at + len] == text;
    CopySpan(buf, sb, at, len);
    HeaderAndBody(was, block, len, text);
    BufferBytesAppend(buf.blocks, block);
    buf.blocks := buf.blocks + [block];
  }

  lemma HeaderAndBody(was: seq<byte>, block: Block, len: nat, text: seq<byte>)
    requires |block.name| == NAME_SIZE && Flatten(block.entries) == text && |text| == len
    ensures was + (block.name + Encode(len, 4)) + text == was + BlockBytes(block)
  {
    hide Flatten, Encode;
  }

  // ---------------------------------------------------------------- the logger

  /** An owning pointer and the slot of the step system it stands for. */
  ghost predicate Slot(b: SinkBuffer?, v: K.Option<K.Buffer>)
    reads b
  {
    if b == null then v.None? else v == K.Some(K.Buffer(b.id, b.blocks))
  }

  ghost predicate Slots(bs: seq<SinkBuffer>, vs: seq<K.Buffer>)
    reads bs
  {
    |bs| == |vs| && forall i | 0 <= i < |bs| :: vs[i] == K.Buffer(bs[i].id, bs[i].blocks)
  }

  /** Every buffer's bytes are its own, and are those of its blocks. */
  ghost predicate Apart(pool: seq<SinkBuffer>, unused: nat, repr: set<object>)
    reads repr
  {
    && |pool| == unused
    && (forall i | 0 <= i < |pool| :: pool[i] in repr && pool[i].data in repr && pool[i].id == i && pool[i].Valid())
    && (forall i, j | 0 <= i < j < |pool| :: pool[i].data != pool[j].data)
  }

  /** The object is the one of its identity among all buffers ever made. */
  ghost predicate Known(pool: seq<SinkBuffer>, b: SinkBuffer?) {
    b == null || (b.id < |pool| && pool[b.id] == b)
  }

  ghost predicate AllKnown(pool: seq<SinkBuffer>, bs: seq<SinkBuffer>) {
    forall i | 0 <= i < |bs| :: Known(pool, bs[i])
  }

  lemma StillKnown(pool: seq<SinkBuffer>, bs: seq<SinkBuffer>, b: SinkBuffer)
    requires AllKnown(pool, bs)
    ensures AllKnown(pool + [b], bs)
  {
  }

  /** A list of pointers with one more at its end. */
  lemma OneMoreSlot(pool: seq<SinkBuffer>, bs: seq<SinkBuffer>, vs: seq<K.Buffer>, b: SinkBuffer)
    requires AllKnown(pool, bs) && Slots(bs, vs) && Known(pool, b)
    ensures AllKnown(pool, bs + [b]) && Slots(bs + [b], vs + [K.Buffer(b.id, b.blocks)])
  {
  }

  lemma OneSlotLess(pool: seq<SinkBuffer>, bs: seq<SinkBuffer>, vs: seq<K.Buffer>)
    requires AllKnown(pool, bs) && Slots(bs, vs) && bs != []
    ensures var n := |bs| - 1; AllKnown(pool, bs[..n]) && Slots(bs[..n], vs[..n]) && Known(pool, bs[n])
  {
  }

  lemma NoneYet()
    ensures Apart([], 0, {})
  {
  }

  lemma PoolSize(pool: seq<SinkBuffer>, unused: nat, repr: set<object>)
    requires Apart(pool, unused, repr)
    ensures |pool| == unused
  {
  }

  lemma OneMoreApart(pool: seq<SinkBuffer>, repr: set<object>, b: SinkBuffer)
    requires Apart(pool, |pool|, repr) && b.Valid() && b.id == |pool| && b.data !in repr
    ensures Apart(pool + [b], |pool| + 1, repr + {b, b.data})
  {
    hide SinkBuffer.Valid;
  }

  /** Two more buffers, without records. */
  method TwoBuffers(ghost pool: seq<SinkBuffer>, ghost repr: set<object>)
    returns (a: SinkBuffer, b: SinkBuffer, ghost more: set<object>)
    requires Apart(pool, |pool|, repr)
    ensures a.id == |pool| && b.id == |pool| + 1 && a.blocks == [] && b.blocks == []
    ensures fresh(more) && Apart(pool + [a, b], |pool| + 2, repr + more)
  {
    hide Apart, SinkBuffer.Valid;
    a := new SinkBuffer(|pool|);
    assert Apart(pool, |pool|, repr);
    OneMoreApart(pool, repr, a);
    ghost var first := {a, a.data};
    b := new SinkBuffer(|pool| + 1);
    assert Apart(pool + [a], |pool| + 1, repr + first);
    OneMoreApart(pool + [a], repr + first, b);
    more := first + {b, b.data};
    assert repr + first + {b, b.data} == repr + more && pool + [a] + [b] == pool + [a, b];
  }

  /** Four empty buffers. */
  ghost function FirstState(): K.State {
    K.State(K.Some(K.Buffer(0, [])), K.Some(K.Buffer(1, [])), [], 0, K.Unlocked,
            K.Some(K.Buffer(2, [])), K.Some(K.Buffer(3, [])), [], K.Top, 4, [], [])
  }

  lemma FirstSlots()
    ensures var s := FirstState();
      && K.Inv(s) && s.apc.Unlocked? && s.spc.Top? && s.unused == 4 && s.count == 0
      && s.current == K.Some(K.Buffer(0, [])) && s.next == K.Some(K.Buffer(1, [])) && s.pending == []
      && s.spare1 == K.Some(K.Buffer(2, [])) && s.spare2 == K.Some(K.Buffer(3, [])) && s.writing == []
      && s.appended == [] && s.processed == []
  {
    K.InitInv(FirstState());
  }

  class SinkLogger {
    // under mutex_
    var currentBuffer: SinkBuffer?
    var nextBuffer: SinkBuffer?
    var buffers: seq<SinkBuffer>
    var newBufferCount: nat
    // locals of threadFunc
    var newBuffer1: SinkBuffer?
    var newBuffer2: SinkBuffer?
    var buffersToWrite: seq<SinkBuffer>
    /** The state of the step system that this is, all buffers ever made in the order of their
        identities, and the objects they consist of. */
    ghost var view: K.State
    ghost var pool: seq<SinkBuffer>
    ghost var repr: set<object>

    lemma Member(b: SinkBuffer)
      requires Apart(pool, view.unused, repr) && Known(pool, b)
      ensures b in pool && b in repr && b.data in repr && b.Valid() && b.Filled()
    {
    }

    /** One buffer has changed. */
    twostate lemma StillApart(b: SinkBuffer)
      requires old(Apart(pool, view.unused, repr)) && b in pool && b.Valid()
      requires pool == old(pool) && repr == old(repr) && view.unused == old(view.unused)
      requires forall o | o in repr && o != b && o != b.data :: unchanged(o)
      ensures Apart(pool, view.unused, repr)
    {
      hide SinkBuffer.Valid;
      forall i | 0 <= i < |pool| ensures pool[i].Valid() {
        if pool[i] != b {
          assert old(pool[i].Valid()) && unchanged(pool[i]) && unchanged(pool[i].data);
        }
      }
    }

    ghost predicate Owned()
      reads this
    {
      && Known(pool, currentBuffer) && Known(pool, nextBuffer) && Known(pool, newBuffer1) && Known(pool, newBuffer2)
      && AllKnown(pool, buffers) && AllKnown(pool, buffersToWrite)
    }

    ghost predicate Linked()
      reads this, repr
    {
      && this !in repr && Apart(pool, view.unused, repr) && Owned() && newBufferCount == view.count
      && Slot(currentBuffer, view.current) && Slot(nextBuffer, view.next) && Slots(buffers, view.pending)
      && Slot(newBuffer1, view.spare1) && Slot(newBuffer2, view.spare2) && Slots(buffersToWrite, view.writing)
    }

    ghost predicate Valid()
      reads this, repr
    {
      Linked() && K.Inv(view) && view.apc.Unlocked?
    }

    constructor ()
      ensures Valid() && view.spc.Top? && view.appended == [] && view.processed == [] && fresh(repr)
    {
      hide K.Inv, SinkBuffer.Valid, Apart, FirstState;
      NoneYet();
      var a, b, two := TwoBuffers([], {});
      assert [] + [a, b] == [a, b] && {} + two == two;
      var c, d, more := TwoBuffers([a, b], two);
      currentBuffer, nextBuffer, newBuffer1, newBuffer2 := a, b, c, d;
      buffers, buffersToWrite, newBufferCount := [], [], 0;
      view, pool, repr := FirstState(), [a, b] + [c, d], two + more;
      new;
      FirstSlots();
    }

    /** One pass of `append`'s loop.  The span goes in exactly if the current buffer has room, or
        the next one is there, or the supplements are not used up; otherwise nothing changes. */
    method Append(sb: StagingBuffer, at: nat, len: nat, name: seq<byte>, ghost block: Block) returns (placed: bool)
      requires Valid() && at + len <= sb.storage.Length && len <= R.STAGING_BUFFER_SIZE
      requires BlockOk(block) && block.name == name && Flatten(block.entries) == sb.storage[at..at + len]
      requires BlockSize(block) == len
      requires sb !in repr && sb.storage !in repr && sb.storage as object != this
      modifies this, repr, sb`consumerPos
      ensures Valid() && fresh(repr - old(repr))
      ensures placed <==> (K.Fits(old(view).current.value, len) || old(view).next.Some?
                           || old(view).count < K.SUPPLEMENT_MAXIMUM)
      ensures placed <==> Admitted(old(view), len).apc.Filling?
      ensures placed ==> view == Appended(old(view), block)
      ensures placed ==> view.appended == old(view).appended + BlockRecs(block, 0)
      ensures placed ==> sb.consumerPos == old(sb.consumerPos) + len
      ensures !placed ==> view == old(view) && sb.consumerPos == old(sb.consumerPos)
    {
      hide K.Inv, K.Step, K.Fits, SinkBuffer.Valid, Apart, Owned, BlockOk, Flatten, Admitted;
      placed := Admit(len);
      if placed {
        Place(sb, at, len, name, block);
      }
    }

    /** The search for a buffer with room. */
    method Admit(len: nat) returns (found: bool)
      requires Valid() && len <= R.STAGING_BUFFER_SIZE
      modifies this
      ensures Linked() && K.Inv(view) && fresh(repr - old(repr))
      ensures found <==> (K.Fits(old(view).current.value, len) || old(view).next.Some?
                          || old(view).count < K.SUPPLEMENT_MAXIMUM)
      ensures view == Admitted(old(view), len) && view.appended == old(view).appended
      ensures if found then view.apc == K.Filling(len) else view == old(view)
    {
      hide K.Inv, K.Step, K.Fits, Admitted, SinkBuffer.Valid, SinkBuffer.Filled, SinkBuffer.Avail, Apart, Owned;
      AdmitStep(view, len);
      AdmittedIs(view, len);
      found := true;
      if HasRoom(len) {
        UseCurrent(len);
      } else if nextBuffer != null {
        UseNext(len);
      } else if newBufferCount < K.SUPPLEMENT_MAXIMUM {
        Supplement(len);
      } else {
        found := false;
      }
    }

    predicate HasRoom(len: nat): (room: bool)
      requires Linked() && currentBuffer != null
      reads this, repr
      ensures room <==> K.Fits(view.current.value, len)
    {
      currentBuffer.Avail() > len + CHECKPOINT_SIZE
    }

    method UseCurrent(len: nat)
      requires Valid() && K.Enabled(view, K.Admit(len)) && K.Safe(view, K.Admit(len))
      requires K.Step(view, K.Admit(len)) == view.(apc := K.Filling(len))
      modifies this`view
      ensures Linked() && view == K.Step(old(view), K.Admit(len))
    {
      hide K.Inv, K.Step, SinkBuffer.Valid;
      view := K.Step(view, K.Admit(len));
    }

    /** The next buffer becomes the current one. */
    method UseNext(len: nat)
      requires Valid() && nextBuffer != null && currentBuffer != null
      requires K.Enabled(view, K.Admit(len)) && K.Safe(view, K.Admit(len))
      requires K.Step(view, K.Admit(len)) == view.(pending := view.pending + [view.current.value], current := view.next,
                                                   next := K.None, apc := K.Filling(len))
      modifies this
      ensures Linked() && view == K.Step(old(view), K.Admit(len)) && repr == old(repr)
    {
      hide K.Inv, K.Step, SinkBuffer.Valid, Slots, AllKnown;
      OneMoreSlot(pool, buffers, view.pending, currentBuffer);
      buffers := buffers + [currentBuffer];
      currentBuffer, nextBuffer := nextBuffer, null;
      view := K.Step(view, K.Admit(len));
    }

    /** A new buffer becomes the current one. */
    method Supplement(len: nat)
      requires Valid() && currentBuffer != null && K.Enabled(view, K.Admit(len)) && K.Safe(view, K.Admit(len))
      requires K.Step(view, K.Admit(len)) == view.(apc := K.Supplement(len)) && K.Inv(K.Step(view, K.Admit(len)))
      modifies this
      ensures Linked() && K.Inv(view) && fresh(repr - old(repr))
      ensures view == Admitted(old(view), len) && view.apc == K.Filling(len)
    {
      hide K.Inv, K.Step, SinkBuffer.Valid, Apart, Slots, AllKnown;
      SupplyStep(view, len);
      OneMoreSlot(pool, buffers, view.pending, currentBuffer);
      assert view.unused == |pool| by { PoolSize(pool, view.unused, repr); }
      buffers := buffers + [currentBuffer];
      currentBuffer := new SinkBuffer(view.unused);
      OneMoreApart(pool, repr, currentBuffer);
      StillKnown(pool, buffers, currentBuffer);
      StillKnown(pool, buffersToWrite, currentBuffer);
      newBufferCount := newBufferCount + 1;
      view := K.Step(K.Step(view, K.Admit(len)), K.Supply);
      pool, repr := pool + [currentBuffer], repr + {currentBuffer, currentBuffer.data};
    }

    /** `appendInternal` into the buffer that has been found. */
    method Place(sb: StagingBuffer, at: nat, len: nat, name: seq<byte>, ghost block: Block)
      requires Linked() && K.Inv(view) && view.apc == K.Filling(len) && at + len <= sb.storage.Length
      requires BlockOk(block) && block.name == name && Flatten(block.entries) == sb.storage[at..at + len]
      requires sb !in repr && sb.storage !in repr && sb.storage as object != this
      modifies this`view, repr, sb`consumerPos
      ensures Valid() && K.Enabled(old(view), K.Put(block)) && K.Safe(old(view), K.Put(block))
      ensures view == K.Step(old(view), K.Put(block)) && view.appended == old(view).appended + BlockRecs(block, 0)
      ensures sb.consumerPos == old(sb.consumerPos) + len
    {
      hide K.Inv, K.Step, K.Fits, SinkBuffer.Valid, BlockOk, Flatten, BlockRecs, BufferBytes, Apart;
      PutStep(view, block);
      Member(currentBuffer);
      assert HasRoom(len);
      AppendInternal(currentBuffer, sb, at, len, name, block);
      StillApart(currentBuffer);
      view := K.Step(view, K.Put(block));
    }

    /** The sink thread takes the mutex at the top of an iteration: without a full buffer it waits,
        which frees the mutex, otherwise it goes on at once. */
    method Enter() returns (waiting: bool)
      requires Valid() && view.spc.Top?
      modifies this
      ensures Valid() && repr == old(repr) && K.Enabled(old(view), K.Enter) && K.Safe(old(view), K.Enter)
      ensures view == K.Step(old(view), K.Enter) && (waiting <==> view.spc.Waiting?)
      ensures waiting <==> old(buffers) == []
    {
      hide K.Inv, Apart, Owned, Slot, SinkBuffer.Valid, K.Rotate;
      K.StepInv(view, K.Enter);
      RotatePc(view, false);
      waiting := |buffers| == 0;
      if waiting {
        SetPc(K.Waiting);
      } else {
        HandOver(false);
      }
    }

    /** The wait is over, by a notification or by its timeout, and the mutex taken again. */
    method Wake(timedOut: bool)
      requires Valid() && view.spc.Waiting?
      modifies this
      ensures Valid() && repr == old(repr) && K.Enabled(old(view), K.Wake(timedOut))
      ensures K.Safe(old(view), K.Wake(timedOut)) && view == K.Step(old(view), K.Wake(timedOut))
      ensures timedOut ==>
        view.appended == old(view).appended && view.appended == view.processed + K.BufferRecs(view.writing)
    {
      hide K.Inv, Apart, Owned, Slot, Slots, SinkBuffer.Valid, K.Rotate, K.BufferRecs;
      K.StepInv(view, K.Wake(timedOut));
      HandOver(timedOut);
    }

    /** The rest of the locked section. */
    method HandOver(timedOut: bool)
      requires Valid() && (view.spc.Top? || view.spc.Waiting?)
      modifies this
      ensures view == K.Rotate(old(view), timedOut) && Valid() && repr == old(repr)
      ensures view.appended == old(view).appended && view.processed == old(view).processed
      ensures timedOut || Used(old(view).current.value.blocks) > 107_374_182 ==>
        view.appended == view.processed + K.BufferRecs(view.writing)
    {
      hide K.Inv, Apart, Owned, Slot, Slots, SinkBuffer.Valid, K.BufferRecs, Used;
      K.RotateKeeps(view, timedOut);
      K.HandsOver(view, timedOut);
      assert currentBuffer != null by { SlotThere(currentBuffer, view.current); }
      if MustGo(timedOut) {
        PushCurrent();
      }
      SwapLists();
      UseSpareAsNext();
      SetPc(if view.writing == [] then K.Top else K.Writing(0, 0, 0));
    }

    method PushCurrent()
      requires Linked() && currentBuffer != null
      modifies this
      ensures Linked() && repr == old(repr)
      ensures view == old(view).(pending := old(view).pending + [old(view).current.value],
                                 current := old(view).spare1, spare1 := K.None)
    {
      hide SinkBuffer.Valid, Slots, AllKnown;
      OneMoreSlot(pool, buffers, view.pending, currentBuffer);
      buffers := buffers + [currentBuffer];
      currentBuffer, newBuffer1 := newBuffer1, null;
      view := view.(pending := view.pending + [view.current.value], current := view.spare1, spare1 := K.None);
    }

    method SwapLists()
      requires Linked()
      modifies this
      ensures Linked() && repr == old(repr)
      ensures view == old(view).(writing := old(view).pending, pending := old(view).writing)
    {
      hide SinkBuffer.Valid, Slots, AllKnown, Apart;
      buffersToWrite, buffers := buffers, buffersToWrite;
      view := view.(writing := view.pending, pending := view.writing);
    }

    method UseSpareAsNext()
      requires Linked()
      modifies this
      ensures Linked() && repr == old(repr)
      ensures view == if old(view).next.None? then old(view).(next := old(view).spare2, spare2 := K.None) else old(view)
    {
      hide SinkBuffer.Valid;
      if nextBuffer == null {
        nextBuffer, newBuffer2 := newBuffer2, null;
        view := view.(next := view.spare2, spare2 := K.None);
      }
    }

    ghost method SetPc(spc: K.SinkPc)
      requires Linked()
      modifies this`view
      ensures Linked() && view == old(view).(spc := spc)
    {
      hide SinkBuffer.Valid;
      view := view.(spc := spc);
    }

    /** Whether the current buffer is swapped out: after a timeout if it holds anything, otherwise
        if it is more than 0.8 full. */
    predicate MustGo(timedOut: bool): (push: bool)
      requires Linked() && currentBuffer != null
      reads this, repr
      ensures push <==> (if timedOut then Used(view.current.value.blocks) > 0 else K.NearlyFull(view.current.value))
    {
      if timedOut then currentBuffer.cur > 0 else 10 * currentBuffer.cur > 8 * currentBuffer.data.Length
    }

    /** The loop over the buffers to write: from their bytes it reads exactly the records appended
        to them, in order. */
    method WriteAll() returns (lines: seq<(seq<byte>, seq<byte>)>)
      requires Valid() && view.spc == K.Writing(0, 0, 0)
      modifies this`view
      ensures Valid() && view == old(view).(processed := view.processed, spc := K.Trimming)
      ensures view.processed == old(view).processed + K.BufferRecs(view.writing)
      ensures lines == Printed(K.BufferRecs(view.writing))
    {
      hide K.Inv, K.BufferRecs, Recs, Printed, BufferBytes, BlockOk, Slot, Apart;
      lines := [];
      ghost var written: seq<Rec>, s := [], view;
      NothingWritten();
      for b := 0 to |buffersToWrite|
        invariant view == s && Linked() && lines == Printed(written) && written == K.BufferRecs(s.writing[..b])
      {
        var out := WriteOne(b);
        PrintedAppend(written, Recs(s.writing[b].blocks));
        K.OneBuffer(s.writing[..b], s.writing[b]);
        assert s.writing[..b + 1] == s.writing[..b] + [s.writing[b]];
        lines := lines + out;
        written := written + Recs(s.writing[b].blocks);
      }
      assert s.writing[..|buffersToWrite|] == s.writing;
      K.AllWritten(s);
      view := s.(processed := s.processed + written, spc := K.Trimming);
    }

    /** The two inner loops, over the bytes of one buffer. */
    method WriteOne(b: nat) returns (out: seq<(seq<byte>, seq<byte>)>)
      requires Linked() && b < |buffersToWrite|
      ensures b < |view.writing| && out == Printed(Recs(view.writing[b].blocks))
    {
      hide Recs, Printed, BufferBytes, BlockOk, Slot, Apart;
      var buffer := buffersToWrite[b];
      Member(buffer);
      assert view.writing[b] == K.Buffer(buffer.id, buffer.blocks);
      var _, text := WriteBuffer(buffer.data[..buffer.cur], buffer.blocks);
      out := text;
    }

    /** What is left of an iteration: drop all but two buffers, reset the counter, refill the two
        spares, drop the rest. */
    method Recycle()
      requires Valid() && view.spc.Trimming?
      modifies this, repr
      ensures Valid() && view == Recycled(old(view)) && repr == old(repr)
      ensures newBufferCount == 0 && buffersToWrite == [] && view.spc.Top?
      ensures view.current == old(view).current && view.next == old(view).next && view.pending == old(view).pending
      ensures K.EmptySpare(view.spare1) && K.EmptySpare(view.spare2)
    {
      hide K.Inv, Apart, Owned, Slot, Slots, SinkBuffer.Valid, Trimmed;
      RecycleKeeps(view);
      Trim();
      RefillFirst();
      RefillSecond();
      Clear();
    }

    method Trim()
      requires Valid() && view.spc.Trimming?
      modifies this
      ensures Linked() && K.Inv(view) && repr == old(repr)
      ensures view == old(view).(writing := Trimmed(old(view).writing), count := 0, spc := K.Refilling1)
    {
      hide K.Inv, SinkBuffer.Valid;
      ghost var t := TrimAndReset(view);
      if |buffersToWrite| > 2 {
        buffersToWrite := buffersToWrite[..2];
      }
      newBufferCount := 0;
      view := t;
    }

    /** The last written buffer, emptied. */
    method TakeLast() returns (b: SinkBuffer)
      requires Linked() && view.writing != []
      requires OnlyIn(Last(view.writing).id, view.current, view.next, view.pending, view.spare1, view.spare2,
                      view.writing[..|view.writing| - 1])
      modifies this, repr
      ensures Linked() && repr == old(repr) && Known(pool, b) && Slot(b, K.Some(Last(old(view).writing).(blocks := [])))
      ensures view == old(view).(writing := old(view).writing[..|old(view).writing| - 1])
      ensures newBuffer1 == old(newBuffer1) && newBuffer2 == old(newBuffer2)
    {
      hide SinkBuffer.Valid, AllKnown;
      OneSlotLess(pool, buffersToWrite, view.writing);
      b := Last(buffersToWrite);
      assert Known(pool, b);
      Member(b);
      buffersToWrite := buffersToWrite[..|buffersToWrite| - 1];
      b.Reset();
      StillApart(b);
      hide Apart;
      view := view.(writing := view.writing[..|view.writing| - 1]);
    }

    method RefillFirst()
      requires Linked() && K.Inv(view) && view.spc.Refilling1?
      modifies this, repr
      ensures Linked() && K.Inv(view) && repr == old(repr)
      ensures old(view).spare1.None? ==> old(view).writing != []
      ensures var (spare, w) := Refilled(old(view).spare1, old(view).writing);
        view == old(view).(spare1 := spare, writing := w, spc := K.Refilling2)
    {
      hide K.Inv, SinkBuffer.Valid, OnlyIn, Apart;
      RefillStep(view, K.Refill1);
      assert newBuffer1 == null <==> view.spare1.None? by { SlotThere(newBuffer1, view.spare1); }
      if newBuffer1 == null {
        newBuffer1 := TakeLast();
        SetSpares(view.(spare1 := K.Some(Last(old(view).writing).(blocks := []))));
      }
      SetPc(K.Refilling2);
    }

    method RefillSecond()
      requires Linked() && K.Inv(view) && view.spc.Refilling2?
      modifies this, repr
      ensures Linked() && K.Inv(view) && repr == old(repr)
      ensures old(view).spare2.None? ==> old(view).writing != []
      ensures var (spare, w) := Refilled(old(view).spare2, old(view).writing);
        view == old(view).(spare2 := spare, writing := w, spc := K.Clearing)
    {
      hide K.Inv, SinkBuffer.Valid, OnlyIn, Apart;
      RefillStep(view, K.Refill2);
      assert newBuffer2 == null <==> view.spare2.None? by { SlotThere(newBuffer2, view.spare2); }
      if newBuffer2 == null {
        newBuffer2 := TakeLast();
        SetSpares(view.(spare2 := K.Some(Last(old(view).writing).(blocks := []))));
      }
      SetPc(K.Clearing);
    }

    /** The owning pointers of the spares have changed, and the state they stand for. */
    ghost method SetSpares(t: K.State)
      requires this !in repr && Apart(pool, view.unused, repr) && Owned() && newBufferCount == view.count
      requires Slot(currentBuffer, view.current) && Slot(nextBuffer, view.next) && Slots(buffers, view.pending)
      requires Slots(buffersToWrite, view.writing) && Slot(newBuffer1, t.spare1) && Slot(newBuffer2, t.spare2)
      requires t == view.(spare1 := t.spare1, spare2 := t.spare2)
      modifies this`view
      ensures Linked() && view == t
    {
      hide SinkBuffer.Valid;
      view := t;
    }

    method Clear()
      requires Linked() && K.Inv(view) && view.spc.Clearing?
      modifies this
      ensures Linked() && K.Inv(view) && repr == old(repr)
      ensures view == old(view).(writing := [], spc := K.Top) && buffersToWrite == []
    {
      hide K.Inv, SinkBuffer.Valid;
      K.StepInv(view, K.Clear);
      buffersToWrite := [];
      view := K.Step(view, K.Clear);
    }
  }

  // ---------------------------------------------------------------- the steps of the sections

  lemma AdmitStep(s: K.State, len: nat)
    requires K.Inv(s) && s.apc.Unlocked? && len <= R.STAGING_BUFFER_SIZE
    ensures s.current.Some?
    ensures K.Fits(s.current.value, len) <==> Used(s.current.value.blocks) + len + 24 < 134_217_728
    ensures K.Enabled(s, K.Admit(len)) && K.Safe(s, K.Admit(len)) && K.Inv(K.Step(s, K.Admit(len)))
    ensures K.Step(s, K.Admit(len)) ==
      if K.Fits(s.current.value, len) then s.(apc := K.Filling(len))
      else if s.next.Some? then
        s.(pending := s.pending + [s.current.value], current := s.next, next := K.None, apc := K.Filling(len))
      else if s.count < 4 then s.(apc := K.Supplement(len))
      else s
  {
    hide K.Inv;
    K.StepInv(s, K.Admit(len));
  }

  /** What a pass of `append` leaves of its search: a buffer with room, taken from where there is one
      or newly made, or everything as it was. */
  ghost function Admitted(s: K.State, len: nat): K.State
    requires K.Inv(s) && s.apc.Unlocked? && len <= R.STAGING_BUFFER_SIZE
  {
    AdmitStep(s, len);
    var t := K.Step(s, K.Admit(len));
    if t.apc.Supplement? then
      SupplyStep(s, len);
      K.Step(t, K.Supply)
    else t
  }

  lemma AdmittedIs(s: K.State, len: nat)
    requires K.Inv(s) && s.apc.Unlocked? && len <= R.STAGING_BUFFER_SIZE
    ensures s.current.Some? && K.Enabled(s, K.Admit(len)) && K.Safe(s, K.Admit(len)) && K.Inv(Admitted(s, len))
    ensures K.Fits(s.current.value, len) || s.next.Some? ==> Admitted(s, len) == K.Step(s, K.Admit(len))
    ensures !K.Fits(s.current.value, len) && s.next.None? && s.count >= K.SUPPLEMENT_MAXIMUM ==> Admitted(s, len) == s
    ensures !K.Fits(s.current.value, len) && s.next.None? && s.count < K.SUPPLEMENT_MAXIMUM ==>
      var t := K.Step(s, K.Admit(len));
      K.Enabled(t, K.Supply) && K.Safe(t, K.Supply) && Admitted(s, len) == K.Step(t, K.Supply)
    ensures Admitted(s, len) == s || Admitted(s, len).apc == K.Filling(len)
    ensures Admitted(s, len).appended == s.appended
  {
    hide K.Inv, K.Step, K.Fits;
    AdmitStep(s, len);
    if K.Step(s, K.Admit(len)).apc.Supplement? { SupplyStep(s, len); }
  }

  /** And what a pass that places its block leaves. */
  ghost function Appended(s: K.State, block: Block): K.State
    requires K.Inv(s) && s.apc.Unlocked? && BlockSize(block) <= R.STAGING_BUFFER_SIZE
    requires Admitted(s, BlockSize(block)).apc.Filling?
  {
    AdmittedIs(s, BlockSize(block));
    PutStep(Admitted(s, BlockSize(block)), block);
    K.Step(Admitted(s, BlockSize(block)), K.Put(block))
  }

  lemma RotatePc(s: K.State, timedOut: bool)
    requires s.current.Some?
    ensures !K.Rotate(s, timedOut).spc.Waiting?
  {
  }

  lemma SupplyStep(s: K.State, len: nat)
    requires K.Inv(s) && K.Enabled(s, K.Admit(len)) && K.Safe(s, K.Admit(len))
    requires K.Step(s, K.Admit(len)) == s.(apc := K.Supplement(len)) && K.Inv(K.Step(s, K.Admit(len)))
    ensures var t := K.Step(s, K.Admit(len));
      && K.Enabled(t, K.Supply) && K.Safe(t, K.Supply) && K.Inv(K.Step(t, K.Supply)) && s.current.Some?
      && K.Step(t, K.Supply) == s.(pending := s.pending + [s.current.value], current := K.Some(K.Buffer(s.unused, [])),
                                   unused := s.unused + 1, count := s.count + 1, apc := K.Filling(len))
  {
    hide K.Inv;
    K.StepInv(K.Step(s, K.Admit(len)), K.Supply);
  }

  /** The buffer being filled is in no other slot. */
  lemma PutStep(s: K.State, block: Block)
    requires K.Inv(s) && s.apc == K.Filling(BlockSize(block))
    ensures K.Enabled(s, K.Put(block)) && K.Safe(s, K.Put(block)) && K.Inv(K.Step(s, K.Put(block)))
    ensures s.current.Some? && K.Fits(s.current.value, BlockSize(block))
    ensures K.Step(s, K.Put(block)) ==
      s.(current := K.Some(s.current.value.(blocks := s.current.value.blocks + [block])), apc := K.Unlocked,
         appended := s.appended + BlockRecs(block, 0))
    ensures OnlyIn(s.current.value.id, K.None, s.next, s.pending, s.spare1, s.spare2, s.writing)
  {
    hide K.Ready, K.CursorOk, K.InOrder, BlockRecs, Used, BlockSize;
    K.StepInv(s, K.Put(block));
    NotAmong(s.pending, s.current.value.id);
    NotAmong(s.writing, s.current.value.id);
    assert K.Owners(s, s.current.value.id) <= 1;
  }

  /** The buffer `id` is in none of these slots. */
  ghost predicate OnlyIn(id: nat, a: K.Option<K.Buffer>, b: K.Option<K.Buffer>, c: seq<K.Buffer>,
                         d: K.Option<K.Buffer>, e: K.Option<K.Buffer>, f: seq<K.Buffer>) {
    && (a.Some? ==> a.value.id != id) && (b.Some? ==> b.value.id != id) && (d.Some? ==> d.value.id != id)
    && (e.Some? ==> e.value.id != id)
    && (forall i | 0 <= i < |c| :: c[i].id != id) && (forall i | 0 <= i < |f| :: f[i].id != id)
  }

  lemma {:induction false} NotAmong(bs: seq<K.Buffer>, id: nat)
    ensures K.Occurrences(bs, id) == 0 <==> forall i | 0 <= i < |bs| :: bs[i].id != id
  {
    if bs != [] {
      NotAmong(bs[1..], id);
      if exists i :: 0 <= i < |bs| && bs[i].id == id {
        var i :| 0 <= i < |bs| && bs[i].id == id;
        if i > 0 { assert bs[1..][i - 1].id == id; }
      }
      assert forall i | 0 <= i < |bs[1..]| :: bs[1..][i] == bs[i + 1];
    }
  }

  lemma NothingWritten()
    ensures Printed([]) == [] && K.BufferRecs([]) == []
  {
  }

  /** One spare refilled from the back of the written buffers. */
  ghost function Refilled(spare: K.Option<K.Buffer>, writing: seq<K.Buffer>): (K.Option<K.Buffer>, seq<K.Buffer>)
    requires spare.None? ==> writing != []
  {
    if spare.Some? then (spare, writing)
    else (K.Some(Last(writing).(blocks := [])), writing[..|writing| - 1])
  }

  ghost function Trimmed(writing: seq<K.Buffer>): seq<K.Buffer> {
    if |writing| > 2 then writing[..2] else writing
  }

  ghost function Recycled(s: K.State): K.State
    requires K.Missing(s.spare1) + K.Missing(s.spare2) <= |Trimmed(s.writing)|
  {
    var (spare1, w) := Refilled(s.spare1, Trimmed(s.writing));
    var (spare2, _) := Refilled(s.spare2, w);
    s.(spare1 := spare1, spare2 := spare2, writing := [], count := 0, spc := K.Top)
  }

  lemma RecycleKeeps(s: K.State)
    requires K.Inv(s) && s.spc.Trimming?
    ensures K.Missing(s.spare1) + K.Missing(s.spare2) <= |Trimmed(s.writing)|
    ensures K.Inv(Recycled(s))
    ensures K.EmptySpare(Recycled(s).spare1) && K.EmptySpare(Recycled(s).spare2)
  {
    assert K.Missing(s.spare1) + K.Missing(s.spare2) <= |Trimmed(s.writing)|;
    hide K.Inv;
    var t := TrimAndReset(s);
    K.StepInv(t, K.Refill1);
    var s3 := K.Step(t, K.Refill1);
    K.StepInv(s3, K.Refill2);
    var s4 := K.Step(s3, K.Refill2);
    K.StepInv(s4, K.Clear);
    assert K.Step(s4, K.Clear) == Recycled(s);
    K.TopSpares(Recycled(s));
  }

  lemma TrimAndReset(s: K.State) returns (t: K.State)
    requires K.Inv(s) && s.spc.Trimming?
    ensures K.Inv(t) && t == s.(writing := Trimmed(s.writing), count := 0, spc := K.Refilling1)
  {
    hide K.Inv;
    K.StepInv(s, K.Trim);
    var u := K.Step(s, K.Trim);
    K.StepInv(u, K.ResetCount);
    t := K.Step(u, K.ResetCount);
  }

  lemma SlotThere(b: SinkBuffer?, v: K.Option<K.Buffer>)
    requires Slot(b, v)
    ensures b == null <==> v.None?
  {
  }

  /** The buffer that becomes a spare is in no other slot. */
  lemma RefillStep(s: K.State, a: K.Act)
    requires K.Inv(s) && ((a == K.Refill1 && s.spc.Refilling1?) || (a == K.Refill2 && s.spc.Refilling2?))
    ensures (if a == K.Refill1 then s.spare1 else s.spare2).None? ==> s.writing != []
    ensures var (spare, w) := Refilled(if a == K.Refill1 then s.spare1 else s.spare2, s.writing);
      K.Inv(if a == K.Refill1 then s.(spare1 := spare, writing := w, spc := K.Refilling2)
            else s.(spare2 := spare, writing := w, spc := K.Clearing))
    ensures s.writing != [] ==>
      OnlyIn(Last(s.writing).id, s.current, s.next, s.pending, s.spare1, s.spare2, s.writing[..|s.writing| - 1])
  {
    hide K.Ready, K.CursorOk, K.InOrder;
    K.StepInv(s, a);
    if s.writing != [] {
      var id, init := Last(s.writing).id, s.writing[..|s.writing| - 1];
      NotAmong(s.pending, id);
      NotAmong(init, id);
      K.OccurrencesAppend(init, [Last(s.writing)], id);
      assert init + [Last(s.writing)] == s.writing;
      assert K.Occurrences([Last(s.writing)], id) == 1 + K.Occurrences([], id);
      assert K.Owners(s, id) <= 1;
    }
  }
}
