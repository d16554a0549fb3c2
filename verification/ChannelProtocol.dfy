// The multiplexed request protocol of channel.go: senders, writer, reader and closer interleave in
// any way and the server sends whatever it likes.  Every action is one atomic access to what the
// goroutines share.
module ChannelProtocol {
  import opened Wrappers
  import opened Bytes
  import opened Streams
  import opened Packets
  import opened PacketAccumulators
  import Codec

  const MAX_INT64 := 0x7FFF_FFFF_FFFF_FFFF
  const QUEUE_CAPACITY := 1024
  const ERROR_FLAG := 1
  const TOPOLOGY_CHANGED_FLAG := 2

  function ResponseId(p: Packet): Option<int64> {
    if |p| >= 8 then Some(Int64At(p, 0)) else None
  }

  // What a reply says behind its id: whether it is an error.  None: it ends within its own header, and
  // reading it panics.
  function ReplyOf(p: Packet): Option<bool> {
    if |p| < 10 then None
    else
      var flags := UIntAt(p, 8, 2);
      var at := if flags / TOPOLOGY_CHANGED_FLAG % 2 == 1 then 22 else 10;
      if at > |p| then None
      else if flags / ERROR_FLAG % 2 == 0 then Some(false)
      else if at + 4 > |p| || Codec.UnmarshalStringAt(p, at + 4) == Err(Panic) then None
      else Some(true)
  }

  predicate IsError(p: Packet) {
    ReplyOf(p).Some? && ReplyOf(p).value
  }

  // pendingRequest: `failed` says that its error is not nil, `cleared` that the reader has set it to nil.
  datatype Request = Request(id: int64, data: Option<Packet>, failed: bool, done: bool, cleared: bool)

  datatype Outcome =
    | Answer(packet: Packet, failed: bool)  // the response reader is given the packet, with an error or not
    | Cancelled                             // the context is done
    | Rejected                              // the request cannot be built
    | Closed                                // the connection is closed
    | Neither                               // the response reader is given neither packet nor error
    | Malformed(packet: Packet)             // the sender panics over a reply that is too short
    | Crash                                 // the panic of send0

  datatype Phase =
    | Started | Checked | Stored | Waiting | Woken | Failing | NoError
    | Replied(packet: Packet)
    | Marked(packet: Packet)
    | Delivered(outcome: Outcome)
    | Finished(outcome: Outcome)

  datatype Sender = Sender(req: Request, phase: Phase)

  datatype Reader =
    | Idle
    | WithId(id: int64, packet: Packet)
    | Found(t: nat, packet: Packet)
    | DataSet(t: nat)
    | ErrorCleared(t: nat)
    | Stopped

  datatype Closer =
    | Open
    | Closing
    | Ranging
    | Picked(id: int64, t: nat)
    | ErrorSet(id: int64, t: nat)
    | Woke(id: int64)
    | Ended

  datatype State = State(
    lastId: int,                 // idGen
    senders: map<nat, Sender>,
    pending: map<int64, nat>,    // pendingRequests
    queue: seq<int64>,           // pendingCh
    taken: seq<int64>,           // ids that the writer has taken
    written: seq<int64>,         // ids whose request it has written
    received: seq<Packet>,
    hasContext: bool,            // protocolCtx
    handshakeDone: bool,         // a local variable of the reader
    reader: Reader,
    closer: Closer,
    atClose: set<nat>,           // the requests that were pending when the close began
    dropped: set<int64>,         // keys that the closer has deleted
    toVisit: set<int64>)         // keys that the range over pendingRequests is bound to visit
  {
    // ch.closed
    predicate IsClosed() {
      !closer.Open?
    }

    // ch.doneCh is closed
    predicate IsDone() {
      closer.Ended?
    }

    predicate InPhase(t: nat, phase: Phase) {
      t in senders && senders[t].phase == phase
    }

    function Move(t: nat, phase: Phase): State
      requires t in senders
    {
      this.(senders := senders[t := senders[t].(phase := phase)])
    }

    // A key that is deleted while a range is on its way need not be visited any more.
    function Delete(id: int64): State {
      this.(pending := pending - {id}, toVisit := toVisit - {id})
    }

    function Change(t: nat, req: Request): State
      requires t in senders
    {
      this.(senders := senders[t := senders[t].(req := req)])
    }
  }

  function Init(): State {
    State(1, map[], map[], [], [], [], [], false, false, Idle, Open, {}, {}, {})
  }

  datatype Action =
    | Handshake(t: nat)          // send0 with the handshake id
    | TakeId(t: nat)             // send: idGen.Add(1)
    | CheckClosed(t: nat)
    | Reject(t: nat)             // newRequest fails
    | Store(t: nat)
    | Enqueue(t: nat)
    | Cancel(t: nat)
    | SeeClosed(t: nat)
    | SeeDone(t: nat)
    | ReadError(t: nat)          // req.err != nil
    | ReportError(t: nat)        // req.err is read again for the response reader
    | ReadData(t: nat)
    | MarkError(t: nat)          // an error in the reply becomes the request's
    | Deliver(t: nat)            // req.err is read for the response reader
    | StoreContext(t: nat)       // the response reader of the handshake
    | Remove(t: nat)
    | Write
    | Receive(packet: Packet)
    | Lookup
    | SetData
    | ClearError
    | Wake
    | BeginClose                 // by a user, or by a reader or writer that fails
    | StartRange
    | Pick(id: int64)
    | SetError
    | WakeClosed
    | Drop
    | EndClose

  // What the sender makes of a request that is done without an error.
  function Result(req: Request): (phase: Phase)
    ensures phase.Delivered? || phase.Replied?
  {
    if req.data.None? then Delivered(Crash)
    else
      var p := req.data.value;
      if req.id == HANDSHAKE_ID then Delivered(Answer(p, false))
      else if ResponseId(p) != Some(req.id) then Delivered(Crash)
      else if ReplyOf(p).None? then Delivered(Malformed(p))
      else Replied(p)
  }

  function NewRequest(id: int64): Request {
    Request(id, None, false, false, false)
  }

  // Handshake rounds come one after another.
  ghost predicate HandshakeOver(senders: map<nat, Sender>) {
    forall t :: t in senders && senders[t].req.id == HANDSHAKE_ID ==> senders[t].phase.Finished?
  }

  ghost function SenderStep(s: State, a: Action): State {
    match a
    case Handshake(t) =>
      if t in s.senders || !HandshakeOver(s.senders) then s
      else s.(senders := s.senders[t := Sender(NewRequest(HANDSHAKE_ID), Started)])
    case TakeId(t) =>
      if t in s.senders || s.lastId >= MAX_INT64 - 1 || s.lastId < 1 then s
      else s.(lastId := s.lastId + 1,
              senders := s.senders[t := Sender(NewRequest(s.lastId + 1), Started)])
    case CheckClosed(t) =>
      if !s.InPhase(t, Started) then s else s.Move(t, if s.IsClosed() then Finished(Closed) else Checked)
    case Reject(t) =>
      if !s.InPhase(t, Checked) then s else s.Move(t, Finished(Rejected))
    case Store(t) =>
      if !s.InPhase(t, Checked) then s
      else s.Move(t, Stored).(pending := s.pending[s.senders[t].req.id := t])
    case Enqueue(t) =>
      if !s.InPhase(t, Stored) || |s.queue| >= QUEUE_CAPACITY then s
      else s.Move(t, Waiting).(queue := s.queue + [s.senders[t].req.id])
    case Cancel(t) =>
      if !s.InPhase(t, Waiting) then s else s.Move(t, Delivered(Cancelled))
    case SeeClosed(t) =>
      if !s.InPhase(t, Waiting) || !s.IsDone() then s else s.Move(t, Delivered(Closed))
    case SeeDone(t) =>
      if !s.InPhase(t, Waiting) || !s.senders[t].req.done then s else s.Move(t, Woken)
    case ReadError(t) =>
      if !s.InPhase(t, Woken) then s
      else s.Move(t, if s.senders[t].req.failed then Failing else NoError)
    case ReportError(t) =>
      if !s.InPhase(t, Failing) then s
      else s.Move(t, Delivered(if s.senders[t].req.failed then Closed else Neither))
    case ReadData(t) =>
      if !s.InPhase(t, NoError) then s else s.Move(t, Result(s.senders[t].req))
    case MarkError(t) =>
      if t !in s.senders || !s.senders[t].phase.Replied? then s
      else
        var p, req := s.senders[t].phase.packet, s.senders[t].req;
        s.(senders := s.senders[t := Sender(req.(failed := req.failed || IsError(p)), Marked(p))])
    case Deliver(t) =>
      if t !in s.senders || !s.senders[t].phase.Marked? then s
      else s.Move(t, Delivered(Answer(s.senders[t].phase.packet, s.senders[t].req.failed)))
    case StoreContext(t) =>
      if t in s.senders && s.senders[t].req.id == HANDSHAKE_ID && s.senders[t].phase.Delivered?
         && s.senders[t].phase.outcome.Answer? then s.(hasContext := true) else s
    case Remove(t) =>
      if t in s.senders && s.senders[t].phase.Delivered?
      then s.Move(t, Finished(s.senders[t].phase.outcome)).Delete(s.senders[t].req.id) else s
    case _ => s
  }

  function WriterStep(s: State, a: Action): State {
    if !a.Write? || s.queue == [] then s
    else
      var id := s.queue[0];
      s.(queue := s.queue[1..], taken := s.taken + [id],
         written := if id in s.pending then s.written + [id] else s.written)
  }

  function ReaderStep(s: State, a: Action): State {
    match a
    case Receive(p) =>
      if !s.reader.Idle? || !IsPacket(p) then s
      else
        var over := s.handshakeDone || s.hasContext;
        s.(received := s.received + [p], handshakeDone := over,
           reader := if !over then WithId(HANDSHAKE_ID, p)
                     else if ResponseId(p).None? then Stopped else WithId(ResponseId(p).value, p))
    case Lookup =>
      if !s.reader.WithId? then s
      else if s.reader.id in s.pending then s.(reader := Found(s.pending[s.reader.id], s.reader.packet))
      else s.(reader := Idle)
    case SetData =>
      if !s.reader.Found? || s.reader.t !in s.senders then s
      else
        var t := s.reader.t;
        s.Change(t, s.senders[t].req.(data := Some(s.reader.packet))).(reader := DataSet(t))
    case ClearError =>
      if !s.reader.DataSet? || s.reader.t !in s.senders then s
      else s.Change(s.reader.t, s.senders[s.reader.t].req.(failed := false, cleared := true)).(reader := ErrorCleared(s.reader.t))
    case Wake =>
      if !s.reader.ErrorCleared? || s.reader.t !in s.senders then s
      else s.Change(s.reader.t, s.senders[s.reader.t].req.(done := true)).(reader := Idle)
    case _ => s
  }

  // The range visits every key that stays pending, and may visit keys that are stored meanwhile.
  function CloserStep(s: State, a: Action): State {
    match a
    case BeginClose => if s.IsClosed() then s else s.(closer := Closing, atClose := s.pending.Values)
    case StartRange => if s.closer.Closing? then s.(closer := Ranging, toVisit := s.pending.Keys) else s
    case Pick(id) =>
      if s.closer.Ranging? && id in s.pending
      then s.(closer := Picked(id, s.pending[id]), toVisit := s.toVisit - {id}) else s
    case SetError =>
      if !s.closer.Picked? || s.closer.t !in s.senders then s
      else
        var t := s.closer.t;
        s.Change(t, s.senders[t].req.(failed := true)).(closer := ErrorSet(s.closer.id, t))
    case WakeClosed =>
      if !s.closer.ErrorSet? || s.closer.t !in s.senders then s
      else
        var t := s.closer.t;
        s.Change(t, s.senders[t].req.(done := true)).(closer := Woke(s.closer.id))
    case Drop =>
      if s.closer.Woke? then s.Delete(s.closer.id).(closer := Ranging, dropped := s.dropped + {s.closer.id}) else s
    case EndClose => if s.closer.Ranging? && s.toVisit == {} then s.(closer := Ended) else s
    case _ => s
  }

  predicate IsCloserAction(a: Action) {
    a.BeginClose? || a.StartRange? || a.Pick? || a.SetError? || a.WakeClosed? || a.Drop? || a.EndClose?
  }

  ghost function Step(s: State, a: Action): State {
    if a.Write? then WriterStep(s, a)
    else if a.Receive? || a.Lookup? || a.SetData? || a.ClearError? || a.Wake? then ReaderStep(s, a)
    else if IsCloserAction(a) then CloserStep(s, a)
    else SenderStep(s, a)
  }

  ghost function Run(s: State, actions: seq<Action>): State {
    if actions == [] then s else Step(Run(s, actions[..|actions| - 1]), actions[|actions| - 1])
  }

  // --------------------------------------------------------------- invariant

  predicate Answers(id: int64, p: Packet) {
    id == HANDSHAKE_ID || ResponseId(p) == Some(id)
  }

  // The server has sent two packets that answer this id.
  ghost predicate Twice(id: int64, received: seq<Packet>) {
    exists i, k :: 0 <= i < k < |received| && Answers(id, received[i]) && Answers(id, received[k])
  }

  predicate RequestOk(req: Request, received: seq<Packet>) {
    && (req.data.Some? ==> Answers(req.id, req.data.value) && req.data.value in received)
    && (req.done && !req.failed ==> req.cleared)
    && (req.cleared ==> req.data.Some?)
  }

  // A reply whose header has been read, and the error that the response reader is given or would be given.
  ghost predicate ReplyOk(id: int64, p: Packet, failed: bool, received: seq<Packet>, closed: bool) {
    && id != HANDSHAKE_ID && ReplyOf(p).Some?
    && (IsError(p) && !failed ==> Twice(id, received))
    && (!IsError(p) && failed ==> closed)
  }

  predicate IsAnswer(id: int64, p: Packet, received: seq<Packet>) {
    Answers(id, p) && p in received
  }

  ghost predicate OutcomeOk(id: int64, outcome: Outcome, received: seq<Packet>, closed: bool) {
    match outcome
    case Answer(p, failed) =>
      IsAnswer(id, p, received) && (if id == HANDSHAKE_ID then !failed else ReplyOk(id, p, failed, received, closed))
    case Closed => closed
    case Neither => closed && exists p :: IsAnswer(id, p, received)
    case Malformed(p) => id != HANDSHAKE_ID && IsAnswer(id, p, received) && ReplyOf(p).None?
    case Crash => false
    case _ => true
  }

  ghost predicate PhaseOk(req: Request, phase: Phase, received: seq<Packet>, closed: bool) {
    match phase
    case Woken => req.done && (req.failed ==> closed)
    case Failing => req.done && closed
    case NoError => req.cleared && (req.failed ==> closed)
    case Replied(p) =>
      req.cleared && (req.failed ==> closed) && IsAnswer(req.id, p, received) && req.id != HANDSHAKE_ID && ReplyOf(p).Some?
    case Marked(p) => req.cleared && IsAnswer(req.id, p, received) && ReplyOk(req.id, p, req.failed, received, closed)
    case Delivered(outcome) => OutcomeOk(req.id, outcome, received, closed)
    case Finished(outcome) => OutcomeOk(req.id, outcome, received, closed)
    case _ => req.failed ==> closed
  }

  ghost predicate SenderOk(sender: Sender, received: seq<Packet>, closed: bool) {
    RequestOk(sender.req, received) && PhaseOk(sender.req, sender.phase, received, closed)
  }

  ghost predicate SendersOk(s: State) {
    forall t :: t in s.senders ==> SenderOk(s.senders[t], s.received, s.IsClosed())
  }

  // Every request has an id of its own, above the id of handshakes.
  ghost predicate IdsOk(s: State) {
    && s.lastId >= 1
    && (forall t :: t in s.senders && s.senders[t].req.id != HANDSHAKE_ID ==> 2 <= s.senders[t].req.id <= s.lastId)
    && (forall t, u :: t in s.senders && u in s.senders && t != u && s.senders[t].req.id == s.senders[u].req.id ==>
          s.senders[t].req.id == HANDSHAKE_ID)
  }

  ghost predicate PendingOk(s: State) {
    forall id :: id in s.pending ==> s.pending[id] in s.senders && s.senders[s.pending[id]].req.id == id
  }

  // A reader that is about to clear an error for the second time has seen a second packet.
  ghost predicate ReaderOk(s: State) {
    match s.reader
    case WithId(id, p) =>
      IsAnswer(id, p, s.received)
      && forall t :: t in s.senders && s.senders[t].req.id == id && s.senders[t].req.cleared ==> Twice(id, s.received)
    case Found(t, p) =>
      t in s.senders && IsAnswer(s.senders[t].req.id, p, s.received)
      && (s.senders[t].req.cleared ==> Twice(s.senders[t].req.id, s.received))
    case DataSet(t) =>
      t in s.senders && s.senders[t].req.data.Some?
      && (s.senders[t].req.cleared ==> Twice(s.senders[t].req.id, s.received))
    case ErrorCleared(t) => t in s.senders && s.senders[t].req.cleared
    case _ => true
  }

  ghost predicate CloserOk(s: State) {
    match s.closer
    case Picked(id, t) => t in s.senders
    case ErrorSet(id, t) => t in s.senders && (s.senders[t].req.failed || s.senders[t].req.cleared)
    case _ => true
  }

  ghost predicate Inv(s: State) {
    SendersOk(s) && IdsOk(s) && PendingOk(s) && ReaderOk(s) && CloserOk(s)
  }

  // ------------------------------------------------------------- preservation

  // A sender changes its phase, its request or both.
  lemma UpdateKeeps(s: State, t: nat, sender: Sender)
    requires Inv(s) && t in s.senders && SenderOk(sender, s.received, s.IsClosed())
    requires var was, req := s.senders[t].req, sender.req;
      && req.id == was.id && (was.data.Some? ==> req.data.Some?)
      && (was.cleared ==> req.cleared) && (req.cleared ==> was.cleared || s.reader.Idle?)
      && (was.failed ==> req.failed || req.cleared)
    ensures Inv(s.(senders := s.senders[t := sender]))
  {
    hide SenderOk, Answers, Twice;
  }

  lemma MoveKeeps(s: State, t: nat, phase: Phase)
    requires Inv(s) && t in s.senders
    requires PhaseOk(s.senders[t].req, phase, s.received, s.IsClosed())
    ensures Inv(s.Move(t, phase))
  {
    hide Inv, PhaseOk, Answers;
    assert SenderOk(s.senders[t], s.received, s.IsClosed()) by { InvSender(s, t); }
    UpdateKeeps(s, t, s.senders[t].(phase := phase));
  }

  lemma InvSender(s: State, t: nat)
    requires Inv(s) && t in s.senders
    ensures SenderOk(s.senders[t], s.received, s.IsClosed())
  {
  }

  lemma AddKeeps(s: State, t: nat, id: int64, lastId: int)
    requires Inv(s) && t !in s.senders && lastId >= s.lastId
    requires id == HANDSHAKE_ID || s.lastId < id <= lastId
    ensures Inv(s.(lastId := lastId, senders := s.senders[t := Sender(NewRequest(id), Started)]))
  {
    hide Answers, Twice, PhaseOk;
    assert PhaseOk(NewRequest(id), Started, s.received, s.IsClosed()) by { NewPhaseOk(s, id); }
  }

  lemma NewPhaseOk(s: State, id: int64)
    ensures PhaseOk(NewRequest(id), Started, s.received, s.IsClosed())
  {
  }

  lemma PendingKeeps(s: State, pending: map<int64, nat>)
    requires Inv(s)
    requires forall id :: id in pending ==>
      (id in s.pending && pending[id] == s.pending[id]) || (pending[id] in s.senders && s.senders[pending[id]].req.id == id)
    ensures Inv(s.(pending := pending))
  {
    hide SenderOk, Answers;
  }

  lemma QueueKeeps(s: State, queue: seq<int64>)
    requires Inv(s)
    ensures Inv(s.(queue := queue))
  {
    hide SenderOk, Answers;
  }

  lemma VisitKeeps(s: State, atClose: set<nat>, toVisit: set<int64>)
    requires Inv(s)
    ensures Inv(s.(atClose := atClose, toVisit := toVisit))
  {
    hide SenderOk, Answers;
  }

  lemma DroppedKeeps(s: State, dropped: set<int64>)
    requires Inv(s)
    ensures Inv(s.(dropped := dropped))
  {
    hide SenderOk, Answers;
  }

  lemma DeleteKeeps(s: State, id: int64)
    requires Inv(s)
    ensures Inv(s.Delete(id))
  {
    hide Inv;
    DeletedPending(s, id);
    VisitKeeps(s.(pending := s.pending - {id}), s.atClose, s.toVisit - {id});
  }

  lemma DeletedPending(s: State, id: int64)
    requires Inv(s)
    ensures Inv(s.(pending := s.pending - {id}))
  {
    PendingKeeps(s, s.pending - {id});
  }

  lemma ContextKeeps(s: State)
    requires Inv(s)
    ensures Inv(s.(hasContext := true))
  {
    hide SenderOk, Answers;
  }

  lemma ReaderKeeps(s: State, reader: Reader)
    requires Inv(s) && ReaderOk(s.(reader := reader))
    ensures Inv(s.(reader := reader))
  {
    hide SenderOk, Answers;
  }

  lemma CloserKeeps(s: State, closer: Closer)
    requires Inv(s) && CloserOk(s.(closer := closer)) && (s.IsClosed() ==> !closer.Open?)
    ensures Inv(s.(closer := closer))
  {
    hide Answers;
  }

  lemma SenderStepKeeps(s: State, a: Action)
    requires Inv(s)
    ensures Inv(SenderStep(s, a))
  {
    hide SendersOk, IdsOk, PendingOk, ReaderOk, CloserOk, Answers;
    match a
    case Handshake(t) =>
      if t !in s.senders { AddKeeps(s, t, HANDSHAKE_ID, s.lastId); }
    case TakeId(t) =>
      if t !in s.senders && s.lastId < MAX_INT64 - 1 && s.lastId >= 1 { AddKeeps(s, t, s.lastId + 1, s.lastId + 1); }
    case _ => SenderMoveKeeps(s, a);
  }

  lemma SenderMoveKeeps(s: State, a: Action)
    requires Inv(s) && !a.Handshake? && !a.TakeId?
    ensures Inv(SenderStep(s, a))
  {
    hide Inv, Answers, Result, Twice;
    match a
    case CheckClosed(t) =>
      if s.InPhase(t, Started) { InvSender(s, t); MoveKeeps(s, t, if s.IsClosed() then Finished(Closed) else Checked); }
    case Reject(t) =>
      if s.InPhase(t, Checked) { MoveKeeps(s, t, Finished(Rejected)); }
    case Cancel(t) =>
      if s.InPhase(t, Waiting) { MoveKeeps(s, t, Delivered(Cancelled)); }
    case SeeClosed(t) =>
      if s.InPhase(t, Waiting) && s.IsDone() { MoveKeeps(s, t, Delivered(Closed)); }
    case SeeDone(t) =>
      if s.InPhase(t, Waiting) && s.senders[t].req.done { InvSender(s, t); MoveKeeps(s, t, Woken); }
    case _ => SenderReadKeeps(s, a);
  }

  // The steps that read the request.
  lemma SenderReadKeeps(s: State, a: Action)
    requires Inv(s)
    requires a.ReadError? || a.ReportError? || a.ReadData? || a.MarkError? || a.Deliver? || a.Store? || a.Enqueue?
      || a.Remove? || a.StoreContext? || SenderStep(s, a) == s
    ensures Inv(SenderStep(s, a))
  {
    hide Inv, Answers, Result, Twice, ReplyOf;
    match a
    case ReadError(t) =>
      if s.InPhase(t, Woken) { InvSender(s, t); MoveKeeps(s, t, if s.senders[t].req.failed then Failing else NoError); }
    case ReportError(t) =>
      if s.InPhase(t, Failing) {
        InvSender(s, t);
        NeitherOk(s.senders[t].req, s.received);
        MoveKeeps(s, t, Delivered(if s.senders[t].req.failed then Closed else Neither));
      }
    case ReadData(t) =>
      if s.InPhase(t, NoError) {
        InvSender(s, t);
        ResultOk(s.senders[t].req, s.received, s.IsClosed());
        MoveKeeps(s, t, Result(s.senders[t].req));
      }
    case MarkError(t) =>
      if t in s.senders && s.senders[t].phase.Replied? {
        InvSender(s, t);
        UpdateKeeps(s, t, SenderStep(s, a).senders[t]);
      }
    case Deliver(t) =>
      if t in s.senders && s.senders[t].phase.Marked? {
        InvSender(s, t);
        MoveKeeps(s, t, SenderStep(s, a).senders[t].phase);
      }
    case _ => SenderShareKeeps(s, a);
  }

  // With the error gone between the two reads, the reader has answered.
  lemma NeitherOk(req: Request, received: seq<Packet>)
    requires RequestOk(req, received) && req.done
    ensures !req.failed ==> exists p :: IsAnswer(req.id, p, received)
  {
    if !req.failed {
      assert IsAnswer(req.id, req.data.value, received);
    }
  }

  // The steps that also change what is shared.
  lemma SenderShareKeeps(s: State, a: Action)
    requires Inv(s) && (a.Store? || a.Enqueue? || a.Remove? || a.StoreContext? || SenderStep(s, a) == s)
    ensures Inv(SenderStep(s, a))
  {
    hide Inv, Answers, Result, Twice, ReplyOf;
    match a
    case Store(t) =>
      if s.InPhase(t, Checked) {
        InvSender(s, t);
        MoveKeeps(s, t, Stored);
        PendingKeeps(s.Move(t, Stored), s.pending[s.senders[t].req.id := t]);
      }
    case Enqueue(t) =>
      if s.InPhase(t, Stored) && |s.queue| < QUEUE_CAPACITY {
        InvSender(s, t);
        MoveKeeps(s, t, Waiting);
        QueueKeeps(s.Move(t, Waiting), s.queue + [s.senders[t].req.id]);
      }
    case Remove(t) =>
      if t in s.senders && s.senders[t].phase.Delivered? {
        InvSender(s, t);
        MoveKeeps(s, t, Finished(s.senders[t].phase.outcome));
        DeleteKeeps(s.Move(t, Finished(s.senders[t].phase.outcome)), s.senders[t].req.id);
      }
    case StoreContext(t) => ContextKeeps(s);
    case _ =>
  }

  // The id panic of send0 is out of reach.
  lemma ResultOk(req: Request, received: seq<Packet>, closed: bool)
    requires RequestOk(req, received) && PhaseOk(req, NoError, received, closed)
    ensures PhaseOk(req, Result(req), received, closed)
  {
    hide ReplyOf, Twice;
  }

  lemma TwiceStays(id: int64, received: seq<Packet>, p: Packet)
    ensures Twice(id, received) ==> Twice(id, received + [p])
    ensures Answers(id, p) && (exists q :: IsAnswer(id, q, received)) ==> Twice(id, received + [p])
  {
    hide Answers;
    if Twice(id, received) {
      var i, k :| 0 <= i < k < |received| && Answers(id, received[i]) && Answers(id, received[k]);
      assert (received + [p])[i] == received[i] && (received + [p])[k] == received[k];
    }
    if q :| Answers(id, p) && IsAnswer(id, q, received) {
      var i :| 0 <= i < |received| && received[i] == q;
      assert (received + [p])[i] == q && (received + [p])[|received|] == p;
    }
  }

  lemma SenderStays(sender: Sender, received: seq<Packet>, p: Packet, closed: bool)
    requires SenderOk(sender, received, closed)
    ensures SenderOk(sender, received + [p], closed)
  {
    hide Answers, ReplyOf, Twice;
    TwiceStays(sender.req.id, received, p);
    if q :| IsAnswer(sender.req.id, q, received) {
      assert IsAnswer(sender.req.id, q, received + [p]);
    }
  }

  lemma ReceiveKeeps(s: State, p: Packet)
    requires Inv(s)
    ensures Inv(ReaderStep(s, Receive(p)))
  {
    hide ResponseId, ReplyOf, PhaseOk, Twice;
    if s.reader.Idle? && IsPacket(p) {
      forall t | t in s.senders
        ensures SenderOk(s.senders[t], s.received + [p], s.IsClosed())
        ensures s.senders[t].req.cleared && Answers(s.senders[t].req.id, p) ==> Twice(s.senders[t].req.id, s.received + [p])
      {
        SenderStays(s.senders[t], s.received, p, s.IsClosed());
        TwiceStays(s.senders[t].req.id, s.received, p);
        assert s.senders[t].req.cleared ==> IsAnswer(s.senders[t].req.id, s.senders[t].req.data.value, s.received);
      }
    }
  }

  lemma ReaderStepKeeps(s: State, a: Action)
    requires Inv(s)
    ensures Inv(ReaderStep(s, a))
  {
    hide SendersOk, IdsOk, Answers, ResponseId, ReplyOf, Twice, PhaseOk;
    match a
    case Receive(p) => ReceiveKeeps(s, p);
    case Lookup =>
      if s.reader.WithId? { ReaderKeeps(s, ReaderStep(s, Lookup).reader); }
    case SetData =>
      if s.reader.Found? { SetDataKeeps(s); }
    case ClearError =>
      if s.reader.DataSet? { ClearErrorKeeps(s); }
    case Wake =>
      if s.reader.ErrorCleared? { WakeKeeps(s); }
    case _ =>
  }

  lemma SetDataKeeps(s: State)
    requires Inv(s) && s.reader.Found?
    ensures Inv(ReaderStep(s, SetData))
  {
    hide SendersOk, IdsOk, PendingOk, CloserOk, Answers, ReplyOf, Twice;
    var t := s.reader.t;
    InvSender(s, t);
    var sender := s.senders[t].(req := s.senders[t].req.(data := Some(s.reader.packet)));
    UpdateKeeps(s, t, sender);
    ReaderKeeps(s.(senders := s.senders[t := sender]), DataSet(t));
  }

  lemma ClearErrorKeeps(s: State)
    requires Inv(s) && s.reader.DataSet?
    ensures Inv(ReaderStep(s, ClearError))
  {
    hide SendersOk, IdsOk, PendingOk, CloserOk, Answers, ReplyOf, Twice;
    var t := s.reader.t;
    InvSender(s, t);
    var sender := s.senders[t].(req := s.senders[t].req.(failed := false, cleared := true));
    ReaderKeeps(s, Idle);
    UpdateKeeps(s.(reader := Idle), t, sender);
    ReaderKeeps(s.(reader := Idle).(senders := s.senders[t := sender]), ErrorCleared(t));
  }

  lemma WakeKeeps(s: State)
    requires Inv(s) && s.reader.ErrorCleared?
    ensures Inv(ReaderStep(s, Wake))
  {
    hide SendersOk, IdsOk, PendingOk, CloserOk, Answers, ReplyOf, Twice;
    var t := s.reader.t;
    InvSender(s, t);
    var sender := s.senders[t].(req := s.senders[t].req.(done := true));
    UpdateKeeps(s, t, sender);
    ReaderKeeps(s.(senders := s.senders[t := sender]), Idle);
  }

  lemma SetErrorKeeps(s: State)
    requires Inv(s) && s.closer.Picked?
    ensures Inv(CloserStep(s, SetError))
  {
    hide SendersOk, IdsOk, PendingOk, ReaderOk, Answers, ReplyOf, Twice;
    var t := s.closer.t;
    InvSender(s, t);
    var sender := s.senders[t].(req := s.senders[t].req.(failed := true));
    UpdateKeeps(s, t, sender);
    CloserKeeps(s.(senders := s.senders[t := sender]), ErrorSet(s.closer.id, t));
  }

  lemma WakeClosedKeeps(s: State)
    requires Inv(s) && s.closer.ErrorSet?
    ensures Inv(CloserStep(s, WakeClosed))
  {
    hide SendersOk, IdsOk, PendingOk, ReaderOk, Answers, ReplyOf, Twice;
    var t := s.closer.t;
    InvSender(s, t);
    var sender := s.senders[t].(req := s.senders[t].req.(done := true));
    UpdateKeeps(s, t, sender);
    CloserKeeps(s.(senders := s.senders[t := sender]), Woke(s.closer.id));
  }

  lemma CloserStepKeeps(s: State, a: Action)
    requires Inv(s)
    ensures Inv(CloserStep(s, a))
  {
    hide SendersOk, IdsOk, ReaderOk, Answers, ResponseId, Twice, PhaseOk;
    match a
    case SetError =>
      if s.closer.Picked? { SetErrorKeeps(s); }
    case WakeClosed =>
      if s.closer.ErrorSet? { WakeClosedKeeps(s); }
    case Drop =>
      if s.closer.Woke? {
        DeleteKeeps(s, s.closer.id);
        CloserKeeps(s.Delete(s.closer.id), Ranging);
        DroppedKeeps(s.Delete(s.closer.id).(closer := Ranging), s.dropped + {s.closer.id});
      }
    case _ =>
      if IsCloserAction(a) {
        var after := CloserStep(s, a);
        CloserKeeps(s, after.closer);
        VisitKeeps(s.(closer := after.closer), after.atClose, after.toVisit);
      }
  }

  lemma WriterStepKeeps(s: State, a: Action)
    requires Inv(s)
    ensures Inv(WriterStep(s, a))
  {
    hide SenderOk, Answers;
  }

  lemma StepKeeps(s: State, a: Action)
    requires Inv(s)
    ensures Inv(Step(s, a))
  {
    hide Inv, SenderStep, ReaderStep, CloserStep, WriterStep;
    SenderStepKeeps(s, a);
    ReaderStepKeeps(s, a);
    CloserStepKeeps(s, a);
    WriterStepKeeps(s, a);
  }

  lemma {:induction false} RunKeeps(actions: seq<Action>)
    ensures Inv(Run(Init(), actions))
    decreases |actions|
  {
    hide Step;
    if actions != [] {
      RunKeeps(actions[..|actions| - 1]);
      StepKeeps(Run(Init(), actions[..|actions| - 1]), actions[|actions| - 1]);
    }
  }

  // In every interleaving, whatever the server sends: a request that is done without an error
  // holds a packet that was received and carries the id of the request.
  lemma DoneHasOwnPacket(actions: seq<Action>, t: nat)
    requires t in Run(Init(), actions).senders
    ensures var s, req := Run(Init(), actions), Run(Init(), actions).senders[t].req;
      req.done && !req.failed ==>
        && req.data.Some? && req.data.value in s.received
        && (req.id == HANDSHAKE_ID || ResponseId(req.data.value) == Some(req.id))
  {
    hide ResponseId, Run, Inv, PhaseOk;
    RunKeeps(actions);
    InvSender(Run(Init(), actions), t);
  }

  // So no sender panics over an id, answers go to the request they are for, and the connection only
  // fails requests when it is closed.  A sender panics only over a reply that ends within its own header.
  // An answer comes with an error if and only if the reply says so, unless the channel has been closed or
  // the server has answered the id twice.  The response reader gets neither packet nor error only where
  // the channel has been closed and the request has been answered.
  lemma OutcomesSound(actions: seq<Action>, t: nat)
    requires t in Run(Init(), actions).senders
    requires var phase := Run(Init(), actions).senders[t].phase; phase.Delivered? || phase.Finished?
    ensures var s, sender := Run(Init(), actions), Run(Init(), actions).senders[t];
      var id := sender.req.id;
      match sender.phase.outcome
      case Answer(p, failed) =>
        && p in s.received
        && (id == HANDSHAKE_ID ==> !failed)
        && (id != HANDSHAKE_ID ==> ResponseId(p) == Some(id) && ReplyOf(p).Some?)
        && (id != HANDSHAKE_ID ==>
             IsError(p) == failed || (failed && s.IsClosed()) || (!failed && Twice(id, s.received)))
      case Closed => s.IsClosed()
      case Neither => s.IsClosed() && exists p :: p in s.received && (id == HANDSHAKE_ID || ResponseId(p) == Some(id))
      case Malformed(p) => p in s.received && ResponseId(p) == Some(id) && ReplyOf(p).None?
      case Crash => false
      case _ => true
  {
    hide ResponseId, Run, ReplyOf, Twice, Inv;
    RunKeeps(actions);
    var s := Run(Init(), actions);
    InvSender(s, t);
    if s.senders[t].phase.outcome.Neither? {
      var p :| IsAnswer(s.senders[t].req.id, p, s.received);
      assert p in s.received;
    }
  }

  lemma AndThen(actions: seq<Action>, s: State, a: Action) returns (longer: seq<Action>, after: State)
    requires Run(Init(), actions) == s
    ensures longer == actions + [a] && after == Step(s, a) && Run(Init(), longer) == after
  {
    longer, after := actions + [a], Step(s, a);
    assert longer[..|actions|] == actions;
  }

  // A handshake that waits for its reply.
  lemma WaitingHandshake() returns (actions: seq<Action>, s: State)
    ensures Run(Init(), actions) == s && s.reader.Idle? && s.closer.Open? && s.toVisit == {}
    ensures s.pending == map[HANDSHAKE_ID := 0] && !s.hasContext && !s.handshakeDone
    ensures s.senders == map[0 := Sender(NewRequest(HANDSHAKE_ID), Waiting)]
  {
    hide Run, HandshakeOver, ReaderStep, CloserStep, WriterStep;
    actions, s := CheckedHandshake();
    var req := NewRequest(HANDSHAKE_ID);
    assert s.InPhase(0, Checked);
    actions, s := AndThen(actions, s, Store(0));
    assert s == Init().(senders := map[0 := Sender(req, Stored)], pending := map[HANDSHAKE_ID := 0]);
    actions, s := AndThen(actions, s, Enqueue(0));
  }

  lemma CheckedHandshake() returns (actions: seq<Action>, s: State)
    ensures Run(Init(), actions) == s == Init().(senders := map[0 := Sender(NewRequest(HANDSHAKE_ID), Checked)])
  {
    hide Run, ReaderStep, CloserStep, WriterStep;
    assert Run(Init(), []) == Init() by { NoRun(); }
    actions, s := AndThen([], Init(), Handshake(0));
    assert s == Init().(senders := map[0 := Sender(NewRequest(HANDSHAKE_ID), Started)]);
    actions, s := AndThen(actions, s, CheckClosed(0));
  }

  lemma NoRun()
    ensures Run(Init(), []) == Init()
  {
  }

  // One whose reply the reader has just stored with the request.
  lemma AnsweredHandshake(p: Packet) returns (actions: seq<Action>, s: State)
    requires IsPacket(p)
    ensures Run(Init(), actions) == s && s.reader == DataSet(0) && s.closer.Open?
    ensures s.pending == map[HANDSHAKE_ID := 0]
    ensures s.senders == map[0 := Sender(NewRequest(HANDSHAKE_ID).(data := Some(p)), Waiting)]
  {
    hide Run, SenderStep, CloserStep, WriterStep, ResponseId;
    actions, s := WaitingHandshake();
    actions, s := AndThen(actions, s, Receive(p));
    actions, s := AndThen(actions, s, Lookup);
    actions, s := AndThen(actions, s, SetData);
  }

  // And that the closer then fails.
  lemma FailedHandshake(p: Packet) returns (actions: seq<Action>, s: State)
    requires IsPacket(p)
    ensures Run(Init(), actions) == s && s.reader == DataSet(0)
    ensures s.senders == map[0 := Sender(NewRequest(HANDSHAKE_ID).(data := Some(p), failed := true, done := true), Waiting)]
  {
    hide Run, SenderStep, ReaderStep, WriterStep;
    actions, s := AnsweredHandshake(p);
    actions, s := AndThen(actions, s, BeginClose);
    actions, s := AndThen(actions, s, StartRange);
    actions, s := AndThen(actions, s, Pick(HANDSHAKE_ID));
    assert s.closer == Picked(HANDSHAKE_ID, 0);
    actions, s := AndThen(actions, s, SetError);
    actions, s := AndThen(actions, s, WakeClosed);
  }

  // It happens that the response reader gets neither: the closer fails a request that the reader has
  // just answered, the sender finds the error, and the reader clears it before the sender reads it again.
  lemma NeitherHappens(p: Packet) returns (actions: seq<Action>)
    requires IsPacket(p)
    ensures Run(Init(), actions).InPhase(0, Delivered(Neither))
  {
    hide Run, CloserStep, WriterStep, HandshakeOver;
    var s;
    actions, s := FailedHandshake(p);
    actions, s := AndThen(actions, s, SeeDone(0));
    actions, s := AndThen(actions, s, ReadError(0));
    actions, s := AndThen(actions, s, ClearError);
    actions, s := AndThen(actions, s, ReportError(0));
  }

  // And the error of a reply is lost if a second reply comes while the sender is at it.
  lemma SecondReplyHidesError(s: State, t: nat, second: Packet)
    requires t in s.senders && s.senders[t].phase.Replied? && IsError(s.senders[t].phase.packet)
    requires s.reader.Idle? && s.hasContext && IsPacket(second) && ResponseId(second) == Some(s.senders[t].req.id)
    requires s.senders[t].req.id in s.pending && s.pending[s.senders[t].req.id] == t
    ensures Run(s, [MarkError(t), Receive(second), Lookup, SetData, ClearError, Deliver(t)])
      .InPhase(t, Delivered(Answer(s.senders[t].phase.packet, false)))
  {
    hide Run, IsError, ResponseId, CloserStep, WriterStep, SenderStep, ReaderStep;
    var marked := [MarkError(t), Receive(second), Lookup];
    var p := s.senders[t].phase.packet;
    RunThree(s, MarkError(t), Receive(second), Lookup);
    RunThree(Run(s, marked), SetData, ClearError, Deliver(t));
    RunConcat(s, marked, [SetData, ClearError, Deliver(t)]);
    assert marked + [SetData, ClearError, Deliver(t)] == [MarkError(t), Receive(second), Lookup, SetData, ClearError, Deliver(t)];
    MarkedBy(s, t);
    var s1 := Step(s, MarkError(t));
    SecondFound(s1, t, second);
    var s2 := Run(s, marked);
    ClearedBy(s2, t);
  }

  lemma MarkedBy(s: State, t: nat)
    requires t in s.senders && s.senders[t].phase.Replied?
    ensures var after := Step(s, MarkError(t));
      && after == s.(senders := after.senders) && t in after.senders
      && after.senders[t].phase == Marked(s.senders[t].phase.packet) && after.senders[t].req.id == s.senders[t].req.id
  {
    hide IsError;
  }

  lemma SecondFound(s: State, t: nat, second: Packet)
    requires t in s.senders && s.reader.Idle? && s.hasContext
    requires IsPacket(second) && ResponseId(second) == Some(s.senders[t].req.id)
    requires s.senders[t].req.id in s.pending && s.pending[s.senders[t].req.id] == t
    ensures var after := Step(Step(s, Receive(second)), Lookup); after.senders == s.senders && after.reader == Found(t, second)
  {
    hide ResponseId, SenderStep, CloserStep, WriterStep;
  }

  lemma ClearedBy(s: State, t: nat)
    requires t in s.senders && s.senders[t].phase.Marked? && s.reader.Found? && s.reader.t == t
    ensures Step(Step(Step(s, SetData), ClearError), Deliver(t)).InPhase(t, Delivered(Answer(s.senders[t].phase.packet, false)))
  {
    hide ResponseId, HandshakeOver, CloserStep, WriterStep;
  }

  lemma RunThree(s: State, a: Action, b: Action, c: Action)
    ensures Run(s, [a, b, c]) == Step(Step(Step(s, a), b), c)
  {
    hide Step;
    assert [a, b, c][..2] == [a, b] && [a, b][..1] == [a];
    RunOfOne(s, a);
  }

  // The reader of this sender has been given the packet.
  predicate HasAnswer(sender: Sender, p: Packet) {
    (sender.phase.Delivered? || sender.phase.Finished?)
    && sender.phase.outcome.Answer? && sender.phase.outcome.packet == p
  }

  // No packet answers two requests.
  lemma AnswersApart(actions: seq<Action>, t: nat, u: nat, p: Packet)
    requires var senders := Run(Init(), actions).senders;
      && t in senders && u in senders && t != u
      && senders[t].req.id != HANDSHAKE_ID && senders[u].req.id != HANDSHAKE_ID
    ensures var senders := Run(Init(), actions).senders;
      !(HasAnswer(senders[t], p) && HasAnswer(senders[u], p))
  {
    hide Run, ReplyOf, Twice;
    var senders := Run(Init(), actions).senders;
    if HasAnswer(senders[t], p) && HasAnswer(senders[u], p) {
      OutcomesSound(actions, t);
      OutcomesSound(actions, u);
      RunKeeps(actions);
    }
  }

  // ------------------------------------------------------------------- closing

  predicate Queued(phase: Phase) {
    !phase.Started? && !phase.Checked? && !phase.Stored?
  }

  // Answered, failed or given up: nothing is left to wait for.
  predicate Settled(sender: Sender) {
    sender.req.done || sender.phase.Delivered? || sender.phase.Finished?
  }

  // Senders keep their ids, never leave the queue's side of their run, and stay settled and finished.
  ghost predicate Advances(s: State, after: State) {
    forall t :: t in s.senders ==>
      && t in after.senders && after.senders[t].req.id == s.senders[t].req.id
      && (Queued(s.senders[t].phase) ==> Queued(after.senders[t].phase))
      && (Settled(s.senders[t]) ==> Settled(after.senders[t]))
      && (s.senders[t].phase.Finished? ==> after.senders[t].phase.Finished?)
  }

  lemma StepAdvances(s: State, a: Action)
    ensures Advances(s, Step(s, a))
  {
    hide SenderStep, ReaderStep, CloserStep, WriterStep, Advances;
    SenderStepAdvances(s, a);
    ReaderStepAdvances(s, a);
    CloserStepAdvances(s, a);
    WriterStepAdvances(s, a);
  }

  lemma ReaderStepAdvances(s: State, a: Action)
    ensures Advances(s, ReaderStep(s, a))
  {
    hide ResponseId;
  }

  lemma CloserStepAdvances(s: State, a: Action)
    ensures Advances(s, CloserStep(s, a))
  {
  }

  lemma WriterStepAdvances(s: State, a: Action)
    ensures Advances(s, WriterStep(s, a))
  {
  }

  lemma SenderStepAdvances(s: State, a: Action)
    ensures Advances(s, SenderStep(s, a))
  {
    if a.Handshake? || a.TakeId? || a.CheckClosed? || a.Reject? || a.Store? || a.Enqueue? {
      hide HandshakeOver;
    } else if a.Cancel? || a.SeeClosed? || a.SeeDone? || a.ReadError? || a.ReportError? {
      WaitStepAdvances(s, a);
    } else {
      LateStepAdvances(s, a);
    }
  }

  lemma WaitStepAdvances(s: State, a: Action)
    requires a.Cancel? || a.SeeClosed? || a.SeeDone? || a.ReadError? || a.ReportError?
    ensures Advances(s, SenderStep(s, a))
  {
    var after := SenderStep(s, a);
    if after != s {
      OneAdvances(s, after, a.t);
    }
  }

  lemma LateStepAdvances(s: State, a: Action)
    requires a.ReadData? || a.MarkError? || a.Deliver? || a.StoreContext? || a.Remove? || SenderStep(s, a) == s
    ensures Advances(s, SenderStep(s, a))
  {
    hide Result, IsError;
    var after := SenderStep(s, a);
    if after.senders != s.senders {
      OneAdvances(s, after, a.t);
    }
  }

  // A step of one sender.
  lemma OneAdvances(s: State, after: State, t: nat)
    requires t in s.senders && t in after.senders && after.senders == s.senders[t := after.senders[t]]
    requires var was, sender := s.senders[t], after.senders[t];
      && sender.req.id == was.req.id
      && (Queued(was.phase) ==> Queued(sender.phase))
      && (Settled(was) ==> Settled(sender))
      && (was.phase.Finished? ==> sender.phase.Finished?)
    ensures Advances(s, after)
  {
  }

  // Of two requests with one id at most one is still under way.
  ghost predicate LiveApart(s: State) {
    forall t, u :: t in s.senders && u in s.senders && t != u && s.senders[t].req.id == s.senders[u].req.id ==>
      s.senders[t].phase.Finished? || s.senders[u].phase.Finished?
  }

  predicate IsPending(s: State, t: nat)
    requires t in s.senders
  {
    var id := s.senders[t].req.id;
    id in s.pending && s.pending[id] == t
  }

  // The closer has the request in hand or will still come to it.
  predicate Held(s: State, t: nat)
    requires t in s.senders
  {
    || (s.closer.Closing? && IsPending(s, t))
    || (s.senders[t].req.id in s.toVisit && IsPending(s, t))
    || ((s.closer.Picked? || s.closer.ErrorSet?) && s.closer.t == t)
  }

  ghost predicate RangeOk(s: State) {
    && s.toVisit <= s.pending.Keys
    && (s.closer.Open? ==> s.atClose == {} && s.toVisit == {})
    && (s.closer.Ended? ==> s.toVisit == {})
    && (s.closer.Picked? || s.closer.ErrorSet? || s.closer.Woke? ==> s.closer.id !in s.toVisit)
    && (forall t :: t in s.atClose ==> t in s.senders && (Settled(s.senders[t]) || Held(s, t)))
  }

  // Steps that leave the closer's side alone.
  lemma RangeStays(s: State, after: State)
    requires RangeOk(s) && Advances(s, after)
    requires after.pending == s.pending && after.closer == s.closer
    requires after.atClose == s.atClose && after.toVisit == s.toVisit
    ensures RangeOk(after)
  {
    forall t | t in s.atClose ensures t in after.senders && (Settled(after.senders[t]) || Held(after, t)) {
      assert Settled(s.senders[t]) || Held(s, t);
    }
  }

  lemma SendersSame(s: State, a: Action)
    requires !a.Handshake? && !a.TakeId?
    ensures Step(s, a).senders.Keys == s.senders.Keys
  {
    hide SenderStep, ResponseId;
    SenderKeysSame(s, a);
  }

  lemma SenderKeysSame(s: State, a: Action)
    requires !a.Handshake? && !a.TakeId?
    ensures SenderStep(s, a).senders.Keys == s.senders.Keys
  {
    hide Result, IsError;
  }

  lemma LiveStays(s: State, a: Action)
    requires Inv(s) && LiveApart(s)
    ensures LiveApart(Step(s, a))
  {
    if a.Handshake? || a.TakeId? {
      hide SendersOk, PendingOk, ReaderOk, CloserOk;
    } else {
      hide Inv, Step, Settled, Queued;
      StepAdvances(s, a);
      SendersSame(s, a);
      var after := Step(s, a);
      forall t, u | t in after.senders && u in after.senders && t != u && after.senders[t].req.id == after.senders[u].req.id
        ensures after.senders[t].phase.Finished? || after.senders[u].phase.Finished?
      {
        assert t in s.senders && u in s.senders && s.senders[t].req.id == s.senders[u].req.id;
      }
    }
  }

  lemma CloserRangeKeeps(s: State, a: Action)
    requires Inv(s) && RangeOk(s)
    ensures RangeOk(CloserStep(s, a))
  {
    hide SendersOk, IdsOk, ReaderOk;
    var after := CloserStep(s, a);
    forall t | t in after.atClose ensures t in after.senders && (Settled(after.senders[t]) || Held(after, t)) {
      if t in s.atClose {
        assert Settled(s.senders[t]) || Held(s, t);
      }
    }
  }

  lemma StoreRangeKeeps(s: State, u: nat)
    requires Inv(s) && RangeOk(s) && LiveApart(s)
    ensures RangeOk(SenderStep(s, Store(u)))
  {
    hide SendersOk, IdsOk, ReaderOk;
    var after := SenderStep(s, Store(u));
    forall t | t in s.atClose ensures t in after.senders && (Settled(after.senders[t]) || Held(after, t)) {
      assert Settled(s.senders[t]) || Held(s, t);
    }
  }

  lemma RemoveRangeKeeps(s: State, u: nat)
    requires Inv(s) && RangeOk(s) && LiveApart(s)
    ensures RangeOk(SenderStep(s, Remove(u)))
  {
    hide SendersOk, IdsOk, ReaderOk;
    var after := SenderStep(s, Remove(u));
    forall t | t in s.atClose ensures t in after.senders && (Settled(after.senders[t]) || Held(after, t)) {
      assert Settled(s.senders[t]) || Held(s, t);
    }
  }

  predicate SameShares(s: State, after: State) {
    after.pending == s.pending && after.closer == s.closer && after.atClose == s.atClose && after.toVisit == s.toVisit
  }

  lemma SenderSharesSame(s: State, a: Action)
    requires !a.Store? && !a.Remove?
    ensures SameShares(s, SenderStep(s, a))
  {
    hide HandshakeOver, Result;
  }

  lemma SharesSame(s: State, a: Action)
    requires !a.Store? && !a.Remove? && !IsCloserAction(a)
    ensures SameShares(s, Step(s, a))
  {
    hide SenderStep, ResponseId;
    SenderSharesSame(s, a);
  }

  lemma RangeStepKeeps(s: State, a: Action)
    requires Inv(s) && RangeOk(s) && LiveApart(s)
    ensures RangeOk(Step(s, a)) && LiveApart(Step(s, a))
  {
    hide Inv, RangeOk, LiveApart, SenderStep, CloserStep, ReaderStep, WriterStep, Advances;
    LiveStays(s, a);
    StepAdvances(s, a);
    if IsCloserAction(a) {
      CloserRangeKeeps(s, a);
    } else if a.Store? {
      StoreRangeKeeps(s, a.t);
    } else if a.Remove? {
      RemoveRangeKeeps(s, a.t);
    } else {
      SharesSame(s, a);
      RangeStays(s, Step(s, a));
    }
  }

  lemma {:induction false} RunRange(actions: seq<Action>)
    ensures RangeOk(Run(Init(), actions)) && LiveApart(Run(Init(), actions))
    decreases |actions|
  {
    hide Step, Inv;
    if actions != [] {
      RunRange(actions[..|actions| - 1]);
      RunKeeps(actions[..|actions| - 1]);
      RangeStepKeeps(Run(Init(), actions[..|actions| - 1]), actions[|actions| - 1]);
    }
  }

  // Once a close has ended, every request that was pending when it began has been answered, failed
  // or given up.
  lemma CloseSettles(actions: seq<Action>, t: nat)
    requires Run(Init(), actions).IsDone() && t in Run(Init(), actions).atClose
    ensures t in Run(Init(), actions).senders && Settled(Run(Init(), actions).senders[t])
  {
    hide Run;
    RunRange(actions);
  }

  lemma {:induction false} RunConcat(s: State, a: seq<Action>, b: seq<Action>)
    ensures Run(s, a + b) == Run(Run(s, a), b)
    decreases |b|
  {
    hide Step;
    if b == [] {
      assert a + b == a;
    } else {
      var init, last := b[..|b| - 1], b[|b| - 1];
      RunConcat(s, a, init);
      assert (a + b)[..|a + b| - 1] == a + init && (a + b)[|a + b| - 1] == last;
    }
  }

  lemma RunOfOne(s: State, a: Action)
    ensures Run(s, [a]) == Step(s, a)
  {
    assert [a][..0] == [];
  }

  // The steps left of one visit.
  function Rank(closer: Closer): nat {
    match closer
    case Picked(_, _) => 4 case ErrorSet(_, _) => 3 case Woke(_) => 2 case Ranging => 1 case _ => 0
  }

  // The range begins, has fewer keys to visit, or goes on with a visit.
  predicate Progress(s: State, after: State) {
    || (s.closer.Closing? && !after.closer.Closing?)
    || (s.closer.Closing? == after.closer.Closing? && after.toVisit < s.toVisit)
    || (s.closer.Closing? == after.closer.Closing? && after.toVisit == s.toVisit && Rank(after.closer) < Rank(s.closer))
  }

  ghost function NextCloserAction(s: State): Action {
    match s.closer
    case Closing => StartRange
    case Ranging => if s.toVisit == {} then EndClose else var id :| id in s.toVisit; Pick(id)
    case Picked(_, _) => SetError
    case ErrorSet(_, _) => WakeClosed
    case _ => Drop
  }

  // A close that has begun can be finished by its own steps alone, with every sender where it was.
  lemma {:induction false} CloseFinishes(s: State) returns (actions: seq<Action>)
    requires Inv(s) && RangeOk(s) && LiveApart(s) && s.IsClosed()
    ensures Run(s, actions).IsDone()
    ensures forall t, phase :: s.InPhase(t, phase) ==> Run(s, actions).InPhase(t, phase)
    decreases s.closer.Closing?, s.toVisit, Rank(s.closer)
  {
    hide SendersOk, IdsOk, PendingOk, ReaderOk, LiveApart, CloserStep, Step;
    if s.IsDone() {
      actions := [];
    } else {
      var a := NextCloserAction(s);
      StepKeeps(s, a);
      RangeStepKeeps(s, a);
      CloserProgress(s, a);
      CloserKeepsPhases(s, a);
      var rest := CloseFinishes(Step(s, a));
      actions := [a] + rest;
      RunConcat(s, [a], rest);
      RunOfOne(s, a);
    }
  }

  lemma CloserKeepsPhases(s: State, a: Action)
    ensures forall t, phase :: s.InPhase(t, phase) ==> CloserStep(s, a).InPhase(t, phase)
  {
  }

  lemma CloserProgress(s: State, a: Action)
    requires CloserOk(s) && s.IsClosed() && !s.IsDone() && a == NextCloserAction(s)
    requires s.toVisit <= s.pending.Keys && (s.closer.Woke? ==> s.closer.id !in s.toVisit)
    ensures Step(s, a) == CloserStep(s, a) && Step(s, a).IsClosed() && Progress(s, Step(s, a))
  {
    if s.closer.Woke? {
      assert s.toVisit - {s.closer.id} == s.toVisit;
    }
  }

  // So no sender has to wait for ever once the channel is closed.
  lemma CloseReleases(before: seq<Action>, t: nat) returns (after: seq<Action>)
    requires Run(Init(), before).IsClosed() && Run(Init(), before).InPhase(t, Waiting)
    ensures Run(Init(), before + after).IsDone()
    ensures Step(Run(Init(), before + after), SeeClosed(t)).InPhase(t, Delivered(Closed))
  {
    hide Run;
    RunKeeps(before);
    RunRange(before);
    after := CloseFinishes(Run(Init(), before));
    RunConcat(Init(), before, after);
  }

  // ------------------------------------------------------------- written once

  // The requests that have been put into the queue.
  ghost predicate WasQueued(s: State, id: int64) {
    exists t :: t in s.senders && s.senders[t].req.id == id && Queued(s.senders[t].phase)
  }

  // All but handshakes are queued once and written once.
  ghost predicate Once(ids: seq<int64>) {
    forall i, k :: 0 <= i < k < |ids| && ids[i] != HANDSHAKE_ID ==> ids[i] != ids[k]
  }

  ghost predicate QueueOk(s: State) {
    && Once(s.taken + s.queue) && Once(s.written)
    && (forall id :: id in s.taken + s.queue ==> WasQueued(s, id))
    && (forall id :: id in s.written ==> id in s.taken)
  }

  lemma WasQueuedStays(s: State, after: State, id: int64)
    requires WasQueued(s, id) && Advances(s, after)
    ensures WasQueued(after, id)
  {
    var t :| t in s.senders && s.senders[t].req.id == id && Queued(s.senders[t].phase);
    assert t in after.senders && after.senders[t].req.id == id;
  }

  lemma EnqueueKeeps(s: State, t: nat)
    requires Inv(s) && QueueOk(s)
    ensures QueueOk(SenderStep(s, Enqueue(t)))
  {
    hide SendersOk, PendingOk, ReaderOk, CloserOk, Advances;
    var after := SenderStep(s, Enqueue(t));
    if s.InPhase(t, Stored) && |s.queue| < QUEUE_CAPACITY {
      var id := s.senders[t].req.id;
      assert after.taken + after.queue == s.taken + s.queue + [id];
      SenderStepAdvances(s, Enqueue(t));
      hide SenderStep;
      assert WasQueued(after, id) by { assert Queued(after.senders[t].phase); }
      forall other | other in s.taken + s.queue ensures WasQueued(after, other) && (other == id ==> id == HANDSHAKE_ID) {
        WasQueuedStays(s, after, other);
        if other == id {
          OnlyOneQueued(s, t, other);
        }
      }
    }
  }

  // A request that is still to be queued shares its id with none that was.
  lemma OnlyOneQueued(s: State, t: nat, id: int64)
    requires IdsOk(s) && s.InPhase(t, Stored) && WasQueued(s, id) && id == s.senders[t].req.id
    ensures id == HANDSHAKE_ID
  {
  }

  lemma WriteKeeps(s: State)
    requires QueueOk(s)
    ensures QueueOk(WriterStep(s, Write))
  {
    if s.queue != [] {
      var id, after := s.queue[0], WriterStep(s, Write);
      var all := s.taken + s.queue;
      assert after.taken + after.queue == all;
      assert all[|s.taken|] == id;
      forall i | 0 <= i < |s.written| && s.written[i] != HANDSHAKE_ID ensures s.written[i] != id {
        assert s.written[i] in s.taken;
        var k :| 0 <= k < |s.taken| && s.taken[k] == s.written[i];
        assert all[k] == s.taken[k];
      }
      forall other | other in all ensures WasQueued(after, other) {
        assert WasQueued(s, other);
        WasQueuedStays(s, after, other);
      }
    }
  }

  lemma QueueStepKeeps(s: State, a: Action)
    requires Inv(s) && QueueOk(s)
    ensures QueueOk(Step(s, a))
  {
    hide Inv;
    match a
    case Enqueue(t) => EnqueueKeeps(s, t);
    case Write => WriteKeeps(s);
    case _ =>
      var after := Step(s, a);
      StepAdvances(s, a);
      QueuesSame(s, a);
      forall id | id in s.taken + s.queue ensures WasQueued(after, id) {
        WasQueuedStays(s, after, id);
      }
  }

  lemma QueuesSame(s: State, a: Action)
    requires !a.Enqueue? && !a.Write?
    ensures var after := Step(s, a); after.taken == s.taken && after.queue == s.queue && after.written == s.written
  {
    hide SenderStep;
    SenderQueuesSame(s, a);
  }

  lemma SenderQueuesSame(s: State, a: Action)
    requires !a.Enqueue?
    ensures var after := SenderStep(s, a); after.taken == s.taken && after.queue == s.queue && after.written == s.written
  {
    hide HandshakeOver, Result;
  }

  // Every request is written to the connection at most once.
  lemma {:induction false} WrittenOnce(actions: seq<Action>)
    ensures QueueOk(Run(Init(), actions))
    decreases |actions|
  {
    hide Step, Inv;
    if actions == [] {
      assert QueueOk(Init());
    } else {
      WrittenOnce(actions[..|actions| - 1]);
      RunKeeps(actions[..|actions| - 1]);
      QueueStepKeeps(Run(Init(), actions[..|actions| - 1]), actions[|actions| - 1]);
    }
  }
}
