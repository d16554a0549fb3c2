// What the runs of the request protocol of channel.go achieve: queued requests are written in order,
// replies reach their senders, and a close reaches everyone.
module ChannelRuns {
  import opened Wrappers
  import opened Bytes
  import opened Packets
  import opened PacketAccumulators
  import opened ChannelProtocol

  // -------------------------------------------------------- written in order

  // Stored in pendingRequests and not yet removed by the sender itself.
  predicate InFlight(phase: Phase) {
    !phase.Started? && !phase.Checked? && !phase.Finished?
  }

  // Also put into the queue.
  predicate Enqueued(phase: Phase) {
    InFlight(phase) && !phase.Stored?
  }

  // The sender no longer waits for a reply.
  predicate Gone(phase: Phase) {
    phase.Delivered? || phase.Finished?
  }

  // A request is pending while it is in flight, unless the closer has dropped its key.
  ghost predicate PendingExact(s: State) {
    && (forall t :: t in s.senders && InFlight(s.senders[t].phase) ==> IsPending(s, t) || s.senders[t].req.id in s.dropped)
    && (forall id :: id in s.pending ==> s.pending[id] in s.senders && InFlight(s.senders[s.pending[id]].phase))
  }

  ghost predicate EnqueuedOk(s: State) {
    forall t :: t in s.senders && Enqueued(s.senders[t].phase) ==> s.senders[t].req.id in s.taken + s.queue
  }

  ghost predicate HasGone(s: State, id: int64) {
    exists t :: t in s.senders && s.senders[t].req.id == id && Gone(s.senders[t].phase)
  }

  ghost predicate TakenOk(s: State) {
    forall id :: id in s.taken ==> id in s.written || id in s.dropped || HasGone(s, id)
  }

  // a, with elements put in between.
  predicate IsWithin<T(==)>(a: seq<T>, b: seq<T>) {
    a == [] || (b != [] && (IsWithin(a, b[..|b| - 1]) || (a[|a| - 1] == b[|b| - 1] && IsWithin(a[..|a| - 1], b[..|b| - 1]))))
  }

  lemma WithinSnoc<T>(a: seq<T>, b: seq<T>, x: T)
    requires IsWithin(a, b)
    ensures IsWithin(a, b + [x]) && IsWithin(a + [x], b + [x])
  {
    assert (b + [x])[..|b|] == b && (a + [x])[..|a|] == a;
  }

  // Nobody is stored, queued or removed.
  ghost predicate Alike(s: State, after: State) {
    && (forall t :: t in s.senders ==>
          && t in after.senders && after.senders[t].req.id == s.senders[t].req.id
          && InFlight(after.senders[t].phase) == InFlight(s.senders[t].phase)
          && Enqueued(after.senders[t].phase) == Enqueued(s.senders[t].phase)
          && (Gone(s.senders[t].phase) ==> Gone(after.senders[t].phase)))
    && (forall t :: t in after.senders && t !in s.senders ==> after.senders[t].phase.Started?)
  }

  predicate MovesKeys(a: Action) {
    a.Store? || a.Enqueue? || a.Remove?
  }

  lemma OneAlike(s: State, after: State, t: nat)
    requires t in s.senders && t in after.senders && after.senders == s.senders[t := after.senders[t]]
    requires var was, sender := s.senders[t], after.senders[t];
      && sender.req.id == was.req.id && InFlight(sender.phase) == InFlight(was.phase)
      && Enqueued(sender.phase) == Enqueued(was.phase) && (Gone(was.phase) ==> Gone(sender.phase))
    ensures Alike(s, after)
  {
  }

  lemma SameAlike(s: State, after: State)
    requires after.senders == s.senders
    ensures Alike(s, after)
  {
  }

  lemma SenderAlike(s: State, a: Action)
    requires !MovesKeys(a)
    ensures Alike(s, SenderStep(s, a))
  {
    hide HandshakeOver, IsError, ReplyOf, Alike;
    var after := SenderStep(s, a);
    if after.senders == s.senders {
      SameAlike(s, after);
    } else if a.Handshake? || a.TakeId? {
      NewAlike(s, after, a.t);
    } else {
      OneAlike(s, after, a.t);
    }
  }

  lemma NewAlike(s: State, after: State, t: nat)
    requires t !in s.senders && t in after.senders && after.senders == s.senders[t := after.senders[t]]
    requires after.senders[t].phase.Started?
    ensures Alike(s, after)
  {
  }

  lemma ReaderAlike(s: State, a: Action)
    ensures Alike(s, ReaderStep(s, a))
  {
    hide ResponseId, Alike;
    var after := ReaderStep(s, a);
    if after.senders == s.senders {
      SameAlike(s, after);
    } else {
      OneAlike(s, after, s.reader.t);
    }
  }

  lemma CloserAlike(s: State, a: Action)
    ensures Alike(s, CloserStep(s, a))
  {
    hide Alike;
    var after := CloserStep(s, a);
    if after.senders == s.senders {
      SameAlike(s, after);
    } else {
      OneAlike(s, after, s.closer.t);
    }
  }

  lemma StepAlike(s: State, a: Action)
    requires !MovesKeys(a)
    ensures Alike(s, Step(s, a))
  {
    hide SenderStep, ReaderStep, CloserStep, Alike;
    SenderAlike(s, a);
    ReaderAlike(s, a);
    CloserAlike(s, a);
    if a.Write? {
      SameAlike(s, Step(s, a));
    }
  }

  lemma DroppedSame(s: State, a: Action)
    ensures s.dropped <= Step(s, a).dropped
    ensures !a.Drop? ==> Step(s, a).dropped == s.dropped
  {
    hide SenderStep, ReaderStep;
    SenderDropsNone(s, a);
    ReaderDropsNone(s, a);
  }

  lemma SenderDropsNone(s: State, a: Action)
    ensures SenderStep(s, a).dropped == s.dropped
  {
    hide HandshakeOver, IsError, ReplyOf, ChannelProtocol.Result;
  }

  lemma ReaderDropsNone(s: State, a: Action)
    ensures ReaderStep(s, a).dropped == s.dropped
  {
    hide ResponseId;
  }

  lemma PendingSame(s: State, after: State)
    requires Alike(s, after) && PendingExact(s) && after.pending == s.pending && after.dropped == s.dropped
    ensures PendingExact(after)
  {
  }

  lemma DropKeepsPending(s: State)
    requires PendingOk(s) && PendingExact(s)
    ensures PendingExact(CloserStep(s, Drop))
  {
  }

  lemma StoreKeepsPending(s: State, t: nat)
    requires PendingOk(s) && LiveApart(s) && PendingExact(s)
    ensures PendingExact(SenderStep(s, Store(t)))
  {
  }

  lemma RemoveKeepsPending(s: State, t: nat)
    requires PendingOk(s) && LiveApart(s) && PendingExact(s)
    ensures PendingExact(SenderStep(s, Remove(t)))
  {
  }

  lemma EnqueueKeepsPending(s: State, t: nat)
    requires PendingExact(s)
    ensures PendingExact(SenderStep(s, Enqueue(t)))
  {
  }

  lemma PendingStep(s: State, a: Action)
    requires Inv(s) && RangeOk(s) && LiveApart(s) && PendingExact(s)
    ensures PendingExact(Step(s, a))
  {
    hide SendersOk, IdsOk, ReaderOk, CloserOk, RangeOk, LiveApart, PendingExact, Alike, PendingOk,
         SenderStep, ReaderStep, CloserStep, WriterStep;
    match a
    case Store(t) => StoreKeepsPending(s, t);
    case Remove(t) => RemoveKeepsPending(s, t);
    case Enqueue(t) => EnqueueKeepsPending(s, t);
    case Drop => DropKeepsPending(s);
    case _ =>
      StepAlike(s, a);
      DroppedSame(s, a);
      PendingUnlessDropped(s, a);
      PendingSame(s, Step(s, a));
  }

  lemma PendingUnlessDropped(s: State, a: Action)
    requires !a.Store? && !a.Remove? && !a.Drop?
    ensures Step(s, a).pending == s.pending
  {
    hide SenderStep, ReaderStep, WriterStep;
    if !IsCloserAction(a) {
      hide Step;
      SharesSame(s, a);
    }
  }

  // What the writer finds at the head of the queue is pending, dropped or given up.
  lemma HeadKnown(s: State)
    requires PendingExact(s) && QueueOk(s) && s.queue != []
    ensures var id := s.queue[0]; id in s.pending || id in s.dropped || HasGone(s, id)
  {
    var id := s.queue[0];
    assert id in s.taken + s.queue;
    var t :| t in s.senders && s.senders[t].req.id == id && Queued(s.senders[t].phase);
    assert Gone(s.senders[t].phase) || IsPending(s, t) || id in s.dropped;
  }

  ghost predicate StaysGone(s: State, after: State) {
    forall t :: t in s.senders ==>
      && t in after.senders && after.senders[t].req.id == s.senders[t].req.id
      && (Gone(s.senders[t].phase) ==> Gone(after.senders[t].phase))
  }

  lemma GoneStays(s: State, after: State, id: int64)
    requires HasGone(s, id)
    requires StaysGone(s, after)
    ensures HasGone(after, id)
  {
    var t :| t in s.senders && s.senders[t].req.id == id && Gone(s.senders[t].phase);
    assert Gone(after.senders[t].phase);
  }

  lemma StepGone(s: State, a: Action)
    ensures StaysGone(s, Step(s, a))
  {
    hide SenderStep, ReaderStep, CloserStep, WriterStep, Step;
    if MovesKeys(a) {
      KeysGone(s, a);
    } else {
      StepAlike(s, a);
    }
  }

  lemma KeysGone(s: State, a: Action)
    requires MovesKeys(a)
    ensures StaysGone(s, Step(s, a))
  {
    hide StaysGone, ReaderStep, CloserStep, WriterStep, HandshakeOver;
    var after := Step(s, a);
    if after.senders == s.senders {
      SameGone(s, after);
    } else {
      OneGone(s, after, a.t);
    }
  }

  lemma SameGone(s: State, after: State)
    requires after.senders == s.senders
    ensures StaysGone(s, after)
  {
  }

  lemma OneGone(s: State, after: State, t: nat)
    requires t in s.senders && t in after.senders && after.senders == s.senders[t := after.senders[t]]
    requires after.senders[t].req.id == s.senders[t].req.id
    requires Gone(s.senders[t].phase) ==> Gone(after.senders[t].phase)
    ensures StaysGone(s, after)
  {
  }

  ghost predicate Delivery(s: State) {
    PendingExact(s) && EnqueuedOk(s) && TakenOk(s) && IsWithin(s.written, s.taken)
  }

  lemma WriteStepKeeps(s: State)
    requires PendingExact(s) && QueueOk(s) && TakenOk(s) && IsWithin(s.written, s.taken)
    ensures TakenOk(WriterStep(s, Write)) && IsWithin(WriterStep(s, Write).written, WriterStep(s, Write).taken)
  {
    hide PendingExact, QueueOk, IsWithin;
    if s.queue != [] {
      HeadKnown(s);
      WithinSnoc(s.written, s.taken, s.queue[0]);
      var after := WriterStep(s, Write);
      forall id | id in after.taken ensures id in after.written || id in after.dropped || HasGone(after, id) {
        if HasGone(s, id) {
          GoneStays(s, after, id);
        }
      }
    }
  }

  lemma TakenStep(s: State, a: Action)
    requires PendingExact(s) && QueueOk(s) && TakenOk(s) && IsWithin(s.written, s.taken)
    ensures TakenOk(Step(s, a)) && IsWithin(Step(s, a).written, Step(s, a).taken)
  {
    hide PendingExact, QueueOk, IsWithin, SenderStep, ReaderStep, CloserStep, WriterStep, Gone;
    if a.Write? {
      WriteStepKeeps(s);
    } else {
      var after := Step(s, a);
      StepGone(s, a);
      DroppedSame(s, a);
      NotWriting(s, a);
      forall id | id in after.taken ensures id in after.written || id in after.dropped || HasGone(after, id) {
        if HasGone(s, id) {
          GoneStays(s, after, id);
        }
      }
    }
  }

  lemma NotWriting(s: State, a: Action)
    requires !a.Write?
    ensures Step(s, a).taken == s.taken && Step(s, a).written == s.written
    ensures s.queue <= Step(s, a).queue
  {
    hide Step;
    if a.Enqueue? {
      EnqueuedBehind(s, a.t);
    } else {
      QueuesSame(s, a);
    }
  }

  lemma EnqueuedBehind(s: State, t: nat)
    ensures var after := Step(s, Enqueue(t));
      after.taken == s.taken && after.written == s.written && s.queue <= after.queue
  {
  }

  // Every step only adds to the end of what has been queued and of what has been taken of it.
  lemma StepOrder(s: State, a: Action)
    ensures s.taken + s.queue <= Step(s, a).taken + Step(s, a).queue
    ensures s.taken <= Step(s, a).taken && s.written <= Step(s, a).written
  {
    hide SenderStep, ReaderStep, CloserStep;
    if a.Write? {
      assert s.queue != [] ==> s.taken + s.queue == s.taken + [s.queue[0]] + s.queue[1..];
    } else {
      hide Step;
      NotWriting(s, a);
    }
  }

  lemma EnqueueStep(s: State, a: Action)
    requires EnqueuedOk(s)
    ensures EnqueuedOk(Step(s, a))
  {
    hide SenderStep, ReaderStep, CloserStep, WriterStep, Step;
    var after := Step(s, a);
    StepOrder(s, a);
    if MovesKeys(a) {
      KeysEnqueued(s, a);
    } else {
      StepAlike(s, a);
    }
    forall t | t in after.senders && Enqueued(after.senders[t].phase)
      ensures after.senders[t].req.id in after.taken + after.queue
    {
      if t in s.senders && Enqueued(s.senders[t].phase) {
        assert s.senders[t].req.id in s.taken + s.queue;
      }
    }
  }

  lemma KeysEnqueued(s: State, a: Action)
    requires MovesKeys(a)
    ensures var after := Step(s, a);
      forall t :: t in after.senders ==>
        && t in s.senders && after.senders[t].req.id == s.senders[t].req.id
        && (Enqueued(after.senders[t].phase) ==>
              Enqueued(s.senders[t].phase) || s.senders[t].req.id in after.taken + after.queue)
  {
    hide ReaderStep, CloserStep, WriterStep, HandshakeOver;
    var after := Step(s, a);
    if after.senders != s.senders {
      assert after.senders == s.senders[a.t := after.senders[a.t]] && after.senders[a.t].req == s.senders[a.t].req;
    }
  }

  lemma {:induction false} RunDelivery(actions: seq<Action>)
    ensures Delivery(Run(Init(), actions))
    decreases |actions|
  {
    hide Step, Inv, QueueOk, RangeOk, LiveApart, PendingExact, EnqueuedOk, TakenOk;
    if actions == [] {
      assert Delivery(Init()) by { NothingYet(); }
    } else {
      var init, a := actions[..|actions| - 1], actions[|actions| - 1];
      RunDelivery(init);
      RunKeeps(init);
      RunRange(init);
      WrittenOnce(init);
      PendingStep(Run(Init(), init), a);
      TakenStep(Run(Init(), init), a);
      EnqueueStep(Run(Init(), init), a);
    }
  }

  lemma NothingYet()
    ensures Delivery(Init())
  {
  }

  // The writer writes what it takes, in the order in which it takes it: for every run, each id taken
  // from the queue has been written, or its sender has got or given up its answer, or the closer has
  // dropped its key.
  lemma TakenIsWritten(actions: seq<Action>, id: int64)
    ensures var s := Run(Init(), actions);
      && IsWithin(s.written, s.taken)
      && (id in s.taken ==>
            || id in s.written || id in s.dropped
            || exists t :: t in s.senders && s.senders[t].req.id == id
                 && (s.senders[t].phase.Delivered? || s.senders[t].phase.Finished?))
  {
    hide Run, PendingExact, EnqueuedOk;
    RunDelivery(actions);
    var s := Run(Init(), actions);
    if id in s.taken && id !in s.written && id !in s.dropped {
      assert HasGone(s, id);
      var t :| t in s.senders && s.senders[t].req.id == id && Gone(s.senders[t].phase);
      assert s.senders[t].phase.Delivered? || s.senders[t].phase.Finished?;
    }
  }

  // So a sender that waits is pending, and its request stands in the queue or has been written, unless
  // the closer has dropped its key.
  lemma WaitingIsServed(actions: seq<Action>, t: nat)
    requires t in Run(Init(), actions).senders && Run(Init(), actions).senders[t].phase == Waiting
    requires Run(Init(), actions).senders[t].req.id != HANDSHAKE_ID
    ensures var s, id := Run(Init(), actions), Run(Init(), actions).senders[t].req.id;
      id in s.dropped || (id in s.pending && s.pending[id] == t && (id in s.queue || id in s.written))
  {
    hide Run, SendersOk, PendingOk, ReaderOk, CloserOk;
    RunDelivery(actions);
    RunKeeps(actions);
    var s := Run(Init(), actions);
    var id := s.senders[t].req.id;
    assert Enqueued(s.senders[t].phase) && id in s.taken + s.queue;
  }

  // Requests are queued, taken and written first come, first served: at every later point of a run
  // there are only more of them, behind the earlier ones.
  lemma {:induction false} FirstComeFirstServed(s: State, actions: seq<Action>)
    ensures var after := Run(s, actions);
      s.taken + s.queue <= after.taken + after.queue && s.taken <= after.taken && s.written <= after.written
    decreases |actions|
  {
    hide Step;
    if actions != [] {
      FirstComeFirstServed(s, actions[..|actions| - 1]);
      StepOrder(Run(s, actions[..|actions| - 1]), actions[|actions| - 1]);
    }
  }

  // A request that has been answered, failed or given up is no longer pending once it is finished.
  lemma FinishedNotPending(actions: seq<Action>, t: nat)
    requires t in Run(Init(), actions).senders && Run(Init(), actions).senders[t].phase.Finished?
    ensures var s := Run(Init(), actions); forall id :: id in s.pending ==> s.pending[id] != t
  {
    hide Run;
    RunDelivery(actions);
  }

  // ------------------------------------------------------------------ replies

  lemma RunFive(s: State, a: Action, b: Action, c: Action, d: Action, e: Action)
    ensures Run(s, [a, b, c, d, e]) == Step(Step(Step(Step(Step(s, a), b), c), d), e)
  {
    hide Step;
    RunThree(s, a, b, c);
    assert [a, b, c, d, e][..4] == [a, b, c, d] && [a, b, c, d][..3] == [a, b, c];
  }

  // The reader hands a packet to the request that it is for.
  lemma ReplyStored(s: State, t: nat, p: Packet)
    requires t in s.senders && s.reader.Idle? && IsPacket(p) && IsPending(s, t)
    requires if s.hasContext || s.handshakeDone then ResponseId(p) == Some(s.senders[t].req.id)
      else s.senders[t].req.id == HANDSHAKE_ID
    ensures var after := Run(s, [Receive(p), Lookup, SetData, ClearError, Wake]);
      var req := s.senders[t].req.(data := Some(p), failed := false, cleared := true, done := true);
      && after.senders == s.senders[t := Sender(req, s.senders[t].phase)]
      && after.pending == s.pending && after.reader.Idle? && after.hasContext == s.hasContext
  {
    hide Run, Step, ResponseId;
    RunFive(s, Receive(p), Lookup, SetData, ClearError, Wake);
    ReplyFound(s, t, p);
    FoundStored(Step(Step(s, Receive(p)), Lookup), t, p);
  }

  lemma ReplyFound(s: State, t: nat, p: Packet)
    requires t in s.senders && s.reader.Idle? && IsPacket(p) && IsPending(s, t)
    requires if s.hasContext || s.handshakeDone then ResponseId(p) == Some(s.senders[t].req.id)
      else s.senders[t].req.id == HANDSHAKE_ID
    ensures var after := Step(Step(s, Receive(p)), Lookup);
      && after.senders == s.senders && after.pending == s.pending
      && after.reader == Found(t, p) && after.hasContext == s.hasContext
  {
    hide SenderStep, CloserStep, WriterStep, ResponseId;
  }

  lemma FoundStored(s: State, t: nat, p: Packet)
    requires t in s.senders && s.reader == Found(t, p)
    ensures var after := Step(Step(Step(s, SetData), ClearError), Wake);
      var req := s.senders[t].req.(data := Some(p), failed := false, cleared := true, done := true);
      && after.senders == s.senders[t := Sender(req, s.senders[t].phase)]
      && after.pending == s.pending && after.reader.Idle? && after.hasContext == s.hasContext
  {
    hide SenderStep, CloserStep, WriterStep, ResponseId;
  }

  lemma NoErrorFound(s: State, t: nat)
    requires s.InPhase(t, Waiting) && s.senders[t].req.done && !s.senders[t].req.failed
    ensures Step(Step(s, SeeDone(t)), ReadError(t)) == s.Move(t, NoError)
  {
    hide ReaderStep, CloserStep, WriterStep, HandshakeOver;
  }

  lemma ReplyMarked(s: State, t: nat, p: Packet)
    requires s.InPhase(t, NoError) && !s.senders[t].req.failed && s.senders[t].req.data == Some(p)
    requires s.senders[t].req.id != HANDSHAKE_ID && ResponseId(p) == Some(s.senders[t].req.id) && ReplyOf(p).Some?
    ensures var after := Step(Step(s, ReadData(t)), MarkError(t));
      after.InPhase(t, Marked(p)) && after.senders[t].req.failed == IsError(p)
  {
    hide ReaderStep, CloserStep, WriterStep, HandshakeOver, ResponseId, ReplyOf, IsError;
  }

  lemma MarkedDelivered(s: State, t: nat, p: Packet)
    requires s.InPhase(t, Marked(p))
    ensures Step(s, Deliver(t)).InPhase(t, Delivered(Answer(p, s.senders[t].req.failed)))
  {
    hide ReaderStep, CloserStep, WriterStep, HandshakeOver;
  }

  lemma HandshakeAnswered(s: State, t: nat, p: Packet)
    requires s.InPhase(t, NoError) && s.senders[t].req.data == Some(p) && s.senders[t].req.id == HANDSHAKE_ID
    ensures Step(s, ReadData(t)) == s.Move(t, Delivered(Answer(p, false)))
  {
    hide ReaderStep, CloserStep, WriterStep, HandshakeOver, ResponseId, ReplyOf;
  }

  lemma HandshakeEnded(s: State, t: nat, p: Packet)
    requires s.InPhase(t, Delivered(Answer(p, false))) && s.senders[t].req.id == HANDSHAKE_ID
    ensures var after := Step(Step(s, StoreContext(t)), Remove(t));
      after.InPhase(t, Finished(Answer(p, false))) && after.hasContext && HANDSHAKE_ID !in after.pending
  {
    hide ReaderStep, CloserStep, WriterStep, HandshakeOver;
  }

  // And the sender hands it to its response reader, with an error exactly if the reply says so.
  lemma ReplyRead(s: State, t: nat, p: Packet)
    requires s.InPhase(t, Waiting) && s.senders[t].req.done && !s.senders[t].req.failed
    requires s.senders[t].req.data == Some(p) && s.senders[t].req.id != HANDSHAKE_ID
    requires ResponseId(p) == Some(s.senders[t].req.id) && ReplyOf(p).Some?
    ensures Run(s, [SeeDone(t), ReadError(t), ReadData(t), MarkError(t), Deliver(t)])
      .InPhase(t, Delivered(Answer(p, IsError(p))))
  {
    hide Run, Step, ResponseId, ReplyOf, IsError;
    RunFive(s, SeeDone(t), ReadError(t), ReadData(t), MarkError(t), Deliver(t));
    NoErrorFound(s, t);
    ReplyMarked(s.Move(t, NoError), t, p);
    MarkedDelivered(Step(Step(s.Move(t, NoError), ReadData(t)), MarkError(t)), t, p);
  }

  lemma RequestStarted(s: State, t: nat)
    requires t !in s.senders && 1 <= s.lastId < MAX_INT64 - 1 && !s.IsClosed()
    ensures var after := Step(Step(s, TakeId(t)), CheckClosed(t));
      && after.InPhase(t, Checked) && after.senders[t].req == ChannelProtocol.NewRequest(s.lastId + 1)
      && after.lastId == s.lastId + 1 && after.pending == s.pending && after.queue == s.queue
  {
    hide ReaderStep, CloserStep, WriterStep, HandshakeOver;
  }

  lemma RequestQueued(s: State, t: nat)
    requires s.InPhase(t, Checked) && |s.queue| < QUEUE_CAPACITY
    ensures var after := Step(Step(s, Store(t)), Enqueue(t));
      && after.InPhase(t, Waiting) && after.senders[t].req == s.senders[t].req && IsPending(after, t)
      && after.lastId == s.lastId && after.queue == s.queue + [s.senders[t].req.id]
  {
    hide ReaderStep, CloserStep, WriterStep, HandshakeOver;
  }

  // On an open channel a request gets the next id, becomes pending and goes to the end of the queue.
  lemma RequestWaits(s: State, t: nat)
    requires t !in s.senders && 1 <= s.lastId < MAX_INT64 - 1 && !s.IsClosed() && |s.queue| < QUEUE_CAPACITY
    ensures var after := Run(s, [TakeId(t), CheckClosed(t)] + [Store(t), Enqueue(t)]);
      && after.InPhase(t, Waiting) && after.senders[t].req.id == s.lastId + 1 == after.lastId
      && IsPending(after, t) && after.queue == s.queue + [s.lastId + 1]
  {
    hide Run, Step;
    RunTwo(s, TakeId(t), CheckClosed(t));
    RequestStarted(s, t);
    var checked := Run(s, [TakeId(t), CheckClosed(t)]);
    RunTwo(checked, Store(t), Enqueue(t));
    RequestQueued(checked, t);
    RunConcat(s, [TakeId(t), CheckClosed(t)], [Store(t), Enqueue(t)]);
  }

  lemma RunTwo(s: State, a: Action, b: Action)
    ensures Run(s, [a, b]) == Step(Step(s, a), b)
  {
    hide Step;
    assert [a, b][..1] == [a];
    RunOfOne(s, a);
  }

  // A request that cannot be built ends before it becomes pending.
  lemma RejectedEnds(s: State, t: nat)
    requires s.InPhase(t, Checked)
    ensures var after := Run(s, [Reject(t)]);
      after.InPhase(t, Finished(Rejected)) && after.pending == s.pending && after.queue == s.queue
  {
    hide ReaderStep, CloserStep, WriterStep, HandshakeOver;
    RunOfOne(s, Reject(t));
  }

  // From every state in which a request waits, a reply for it is delivered to its response reader by
  // the steps of the reader and the sender.
  lemma ReplyDelivered(s: State, t: nat, p: Packet)
    requires s.InPhase(t, Waiting) && IsPending(s, t) && s.senders[t].req.id != HANDSHAKE_ID
    requires s.reader.Idle? && (s.hasContext || s.handshakeDone)
    requires IsPacket(p) && ResponseId(p) == Some(s.senders[t].req.id) && ReplyOf(p).Some?
    ensures Run(s, [Receive(p), Lookup, SetData, ClearError, Wake]
                   + [SeeDone(t), ReadError(t), ReadData(t), MarkError(t), Deliver(t)])
      .InPhase(t, Delivered(Answer(p, IsError(p))))
  {
    hide Run, ResponseId, ReplyOf, IsError, Step;
    ReplyStored(s, t, p);
    ReplyRead(Run(s, [Receive(p), Lookup, SetData, ClearError, Wake]), t, p);
    RunConcat(s, [Receive(p), Lookup, SetData, ClearError, Wake],
              [SeeDone(t), ReadError(t), ReadData(t), MarkError(t), Deliver(t)]);
  }

  // The first reply answers the handshake, whatever it holds, and from then on replies go by their ids.
  lemma HandshakeDelivered(s: State, t: nat, p: Packet)
    requires s.InPhase(t, Waiting) && IsPending(s, t) && s.senders[t].req.id == HANDSHAKE_ID
    requires s.reader.Idle? && !s.hasContext && !s.handshakeDone && IsPacket(p)
    ensures var after := Run(s, [Receive(p), Lookup, SetData, ClearError, Wake]
                                + [SeeDone(t), ReadError(t), ReadData(t), StoreContext(t), Remove(t)]);
      after.InPhase(t, Finished(Answer(p, false))) && after.hasContext && HANDSHAKE_ID !in after.pending
  {
    hide Run, ResponseId, ReplyOf, Step;
    var stored := Run(s, [Receive(p), Lookup, SetData, ClearError, Wake]);
    ReplyStored(s, t, p);
    HandshakeRead(stored, t, p);
    RunConcat(s, [Receive(p), Lookup, SetData, ClearError, Wake],
              [SeeDone(t), ReadError(t), ReadData(t), StoreContext(t), Remove(t)]);
  }

  lemma HandshakeRead(s: State, t: nat, p: Packet)
    requires s.InPhase(t, Waiting) && s.senders[t].req.done && !s.senders[t].req.failed
    requires s.senders[t].req.data == Some(p) && s.senders[t].req.id == HANDSHAKE_ID
    ensures var after := Run(s, [SeeDone(t), ReadError(t), ReadData(t), StoreContext(t), Remove(t)]);
      after.InPhase(t, Finished(Answer(p, false))) && after.hasContext && HANDSHAKE_ID !in after.pending
  {
    hide Run, Step;
    RunFive(s, SeeDone(t), ReadError(t), ReadData(t), StoreContext(t), Remove(t));
    NoErrorFound(s, t);
    HandshakeAnswered(s.Move(t, NoError), t, p);
    HandshakeEnded(s.Move(t, NoError).Move(t, Delivered(Answer(p, false))), t, p);
  }

  lemma CancelledRemoved(s: State, t: nat)
    requires s.InPhase(t, Waiting)
    ensures var after := Step(Step(s, Cancel(t)), Remove(t));
      after.InPhase(t, Finished(Cancelled)) && s.senders[t].req.id !in after.pending
  {
    hide HandshakeOver, ReaderStep, CloserStep, WriterStep;
  }

  // A sender may give up while it waits, and takes its request back.
  lemma GivesUp(s: State, t: nat)
    requires s.InPhase(t, Waiting)
    ensures var after := Run(s, [Cancel(t), Remove(t)]);
      after.InPhase(t, Finished(Cancelled)) && s.senders[t].req.id !in after.pending
  {
    hide Run, Step;
    RunTwo(s, Cancel(t), Remove(t));
    CancelledRemoved(s, t);
  }

  lemma StoppedStep(s: State, a: Action)
    requires s.reader.Stopped?
    ensures Step(s, a).reader.Stopped? && Step(s, a).received == s.received
  {
    hide HandshakeOver, IsError, ReplyOf, ResponseId, ChannelProtocol.Result;
  }

  lemma ShortPacket(s: State, p: Packet)
    requires s.reader.Idle? && (s.hasContext || s.handshakeDone) && IsPacket(p) && |p| < 8
    ensures Step(s, Receive(p)).reader.Stopped? && Step(s, Receive(p)).received == s.received + [p]
  {
    hide SenderStep, CloserStep, WriterStep;
  }

  // A packet without an id stops the reader for good.
  lemma {:induction false} ShortPacketStops(s: State, p: Packet, actions: seq<Action>)
    requires s.reader.Idle? && (s.hasContext || s.handshakeDone) && IsPacket(p) && |p| < 8
    ensures var after := Run(s, [Receive(p)] + actions);
      after.reader.Stopped? && after.received == s.received + [p]
    decreases |actions|
  {
    if actions == [] {
      hide Run, Step;
      assert [Receive(p)] + actions == [Receive(p)];
      RunOfOne(s, Receive(p));
      ShortPacket(s, p);
    } else {
      hide Step;
      var init := actions[..|actions| - 1];
      ShortPacketStops(s, p, init);
      StoppedStep(Run(s, [Receive(p)] + init), actions[|actions| - 1]);
      assert ([Receive(p)] + actions)[..|actions|] == [Receive(p)] + init;
    }
  }

  // ------------------------------------------------------------------ closing

  // Whoever asks after a close has begun is refused.
  predicate Refused(s: State, t: nat) {
    s.IsClosed() && (t in s.senders ==> s.senders[t].phase in {Started, Finished(Closed)})
  }

  lemma RefusedStep(s: State, a: Action, t: nat)
    requires Refused(s, t)
    ensures Refused(Step(s, a), t)
  {
    hide Refused, SenderStep, ReaderStep, CloserStep;
    SenderRefused(s, a, t);
    OthersRefused(s, a, t);
    if a.Write? {
      assert Refused(Step(s, a), t) by { StillRefused(s, Step(s, a), t); }
    }
  }

  lemma SenderRefused(s: State, a: Action, t: nat)
    requires Refused(s, t)
    ensures Refused(SenderStep(s, a), t)
  {
    hide HandshakeOver, IsError, ReplyOf, ChannelProtocol.Result;
  }

  lemma OthersRefused(s: State, a: Action, t: nat)
    requires Refused(s, t)
    ensures Refused(ReaderStep(s, a), t) && Refused(CloserStep(s, a), t)
  {
    hide ResponseId;
  }

  lemma StillRefused(s: State, after: State, t: nat)
    requires Refused(s, t) && after.senders == s.senders && after.closer == s.closer
    ensures Refused(after, t)
  {
  }

  lemma {:induction false} ClosedRefuses(s: State, actions: seq<Action>, t: nat)
    requires s.IsClosed() && (t in s.senders ==> s.senders[t].phase == Started)
    ensures var after := Run(s, actions);
      after.IsClosed() && (t in after.senders ==> after.senders[t].phase in {Started, Finished(Closed)})
    decreases |actions|
  {
    hide Step;
    if actions != [] {
      var init := actions[..|actions| - 1];
      ClosedRefuses(s, init, t);
      RefusedStep(Run(s, init), actions[|actions| - 1], t);
    }
  }

  lemma {:induction false} ClosingStays(s: State, actions: seq<Action>)
    requires s.IsClosed()
    ensures Run(s, actions).IsClosed() && Run(s, actions).atClose == s.atClose
    decreases |actions|
  {
    hide Step;
    if actions != [] {
      var init := actions[..|actions| - 1];
      ClosingStays(s, init);
      ClosingStep(Run(s, init), actions[|actions| - 1]);
    }
  }

  lemma ClosingStep(s: State, a: Action)
    requires s.IsClosed()
    ensures Step(s, a).IsClosed() && Step(s, a).atClose == s.atClose
  {
    hide HandshakeOver, IsError, ReplyOf, ResponseId, ChannelProtocol.Result;
  }

  // A close that begins at any point of a run and has ended by a later one has settled every request
  // that was pending at that point: it is answered, failed or given up.
  lemma CloseReachesAll(before: seq<Action>, after: seq<Action>, t: nat)
    requires var s := Run(Init(), before); !s.IsClosed() && t in s.senders && IsPending(s, t)
    requires Run(Init(), before + [BeginClose] + after).IsDone()
    ensures var s := Run(Init(), before + [BeginClose] + after);
      t in s.senders && (s.senders[t].req.done || s.senders[t].phase.Delivered? || s.senders[t].phase.Finished?)
  {
    hide Run, Settled;
    var s := Run(Init(), before);
    RunConcat(Init(), before, [BeginClose]);
    RunOfOne(s, BeginClose);
    var closing := Step(s, BeginClose);
    assert t in closing.atClose;
    RunConcat(Init(), before + [BeginClose], after);
    ClosingStays(closing, after);
    CloseSettles(before + [BeginClose] + after, t);
    assert Settled(Run(Init(), before + [BeginClose] + after).senders[t]);
    IsSettled(Run(Init(), before + [BeginClose] + after).senders[t]);
  }

  lemma IsSettled(sender: Sender)
    ensures Settled(sender) <==> sender.req.done || sender.phase.Delivered? || sender.phase.Finished?
  {
  }
}
