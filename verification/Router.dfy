/**
 Request routing in the LSP client (contrib/kotlin-cli.py, class `LspClient`): any number of
 threads call `request` and `notify`, one dispatcher thread hands incoming messages to the queue
 of the waiting request, and one lock protects the id counter, the table of pending requests and
 the server's input.  Every statement that touches shared state is one move of a state machine; a
 scheduler picks the moves, and the server may send any message at any time.
 */
module Router {
  import opened Text

  /** A message from the server; a response carries the id of its request. */
  datatype Message = Message(id: Option<nat>, payload: nat)

  /** A response queue, with the id of the request it was created for. */
  datatype Queue = Queue(owner: nat, items: seq<Message>)

  datatype Outcome = Got(msg: Message) | TimedOut

  datatype Agent = Caller(call: nat) | Notifier(thread: nat) | Dispatcher

  /** Where one call of `request` stands. */
  datatype Phase =
    | Entering                                        // waits for the lock
    | Allocating                                      // holds the lock from here ...
    | Registering(rid: nat)
    | Sending(rid: nat, queue: nat)
    | Releasing(rid: nat, queue: nat)                 // ... to here
    | Listening(rid: nat, queue: nat)
    | Leaving(rid: nat, queue: nat, result: Outcome)  // in `finally`, waits for the lock
    | Popping(rid: nat, queue: nat, result: Outcome)  // holds the lock again
    | Unlocking(rid: nat, queue: nat, result: Outcome)
    | Ended(rid: nat, queue: nat, result: Outcome)
    | Raised(rid: nat)                                // writing to the server failed

  /** Where the dispatcher stands. */
  datatype Dispatching =
    | Idle
    | Waiting(msg: Message)
    | LookingUp(msg: Message)
    | Found(msg: Message, target: Option<nat>)
    | Delivering(msg: Message, target: Option<nat>)

  datatype State = State(
    lock: Option<Agent>,
    lastId: nat,
    pending: map<nat, nat>,
    queues: seq<Queue>,
    wire: seq<Option<nat>>,
    inbox: seq<Message>,
    calls: map<nat, Phase>,
    dispatcher: Dispatching)

  const START := State(None, 0, map[], [], [], [], map[], Idle)

  datatype Move =
    | Enter(call: nat) | Acquire(call: nat) | Allocate(call: nat) | Register(call: nat)
    | Send(call: nat) | SendFails(call: nat) | Release(call: nat)
    | Get(call: nat) | TimeOut(call: nat) | Reacquire(call: nat) | Pop(call: nat) | Finish(call: nat)
    | NotifyAcquire(thread: nat) | NotifySend(thread: nat) | NotifyFails(thread: nat)
    | Take | LookUpAcquire | LookUp | LookUpRelease | Put
    | ServerSends(msg: Message)

  function At(s: State, call: nat): Option<Phase> {
    if call in s.calls then Some(s.calls[call]) else None
  }

  function To(s: State, call: nat, phase: Phase): State {
    s.(calls := s.calls[call := phase])
  }

  /** The state after a move, or `None` if the move is not possible. */
  function Next(s: State, move: Move): Option<State> {
    match move
    case Enter(c) => if c in s.calls then None else Some(To(s, c, Entering))
    case Acquire(c) =>
      if At(s, c) == Some(Entering) && s.lock == None
      then Some(To(s, c, Allocating).(lock := Some(Caller(c)))) else None
    case Allocate(c) =>
      if At(s, c) == Some(Allocating)
      then Some(To(s, c, Registering(s.lastId + 1)).(lastId := s.lastId + 1)) else None
    case Register(c) => NextRegister(s, c)
    case Send(c) => NextSend(s, c)
    case SendFails(c) => NextSendFails(s, c)
    case Release(c) => NextRelease(s, c)
    case Get(c) => NextGet(s, c)
    case TimeOut(c) => NextTimeOut(s, c)
    case Reacquire(c) => NextReacquire(s, c)
    case Pop(c) => NextPop(s, c)
    case Finish(c) => NextFinish(s, c)
    case NotifyAcquire(t) => if s.lock == None then Some(s.(lock := Some(Notifier(t)))) else None
    case NotifySend(t) =>
      if s.lock == Some(Notifier(t)) then Some(s.(lock := None, wire := s.wire + [None])) else None
    case NotifyFails(t) => if s.lock == Some(Notifier(t)) then Some(s.(lock := None)) else None
    case Take => NextTake(s)
    case LookUpAcquire =>
      if s.dispatcher.Waiting? && s.lock == None
      then Some(s.(lock := Some(Dispatcher), dispatcher := LookingUp(s.dispatcher.msg))) else None
    case LookUp => NextLookUp(s)
    case LookUpRelease =>
      if s.dispatcher.Found?
      then Some(s.(lock := None, dispatcher := Delivering(s.dispatcher.msg, s.dispatcher.target))) else None
    case Put => NextPut(s)
    case ServerSends(m) => Some(s.(inbox := s.inbox + [m]))
  }

  /** `self._pending[rid] = queue.Queue()`. */
  function NextRegister(s: State, c: nat): Option<State> {
    match At(s, c)
    case Some(Registering(rid)) =>
      var q := |s.queues|;
      Some(To(s, c, Sending(rid, q)).(pending := s.pending[rid := q], queues := s.queues + [Queue(rid, [])]))
    case _ => None
  }

  function NextSend(s: State, c: nat): Option<State> {
    match At(s, c)
    case Some(Sending(rid, q)) => Some(To(s, c, Releasing(rid, q)).(wire := s.wire + [Some(rid)]))
    case _ => None
  }

  /** An exception while writing leaves the `with` block, but is raised before the `try`. */
  function NextSendFails(s: State, c: nat): Option<State> {
    match At(s, c)
    case Some(Sending(rid, _)) => Some(To(s, c, Raised(rid)).(lock := None))
    case _ => None
  }

  function NextRelease(s: State, c: nat): Option<State> {
    match At(s, c)
    case Some(Releasing(rid, q)) => Some(To(s, c, Listening(rid, q)).(lock := None))
    case _ => None
  }

  function NextGet(s: State, c: nat): Option<State> {
    match At(s, c)
    case Some(Listening(rid, q)) =>
      if q < |s.queues| && s.queues[q].items != [] then
        var items := s.queues[q].items;
        Some(To(s, c, Leaving(rid, q, Got(items[0]))).(queues := s.queues[q := s.queues[q].(items := items[1..])]))
      else None
    case _ => None
  }

  /** `queue.Empty`: the time is up and the queue is empty. */
  function NextTimeOut(s: State, c: nat): Option<State> {
    match At(s, c)
    case Some(Listening(rid, q)) =>
      if q < |s.queues| && s.queues[q].items == [] then Some(To(s, c, Leaving(rid, q, TimedOut))) else None
    case _ => None
  }

  function NextReacquire(s: State, c: nat): Option<State> {
    match At(s, c)
    case Some(Leaving(rid, q, r)) =>
      if s.lock == None then Some(To(s, c, Popping(rid, q, r)).(lock := Some(Caller(c)))) else None
    case _ => None
  }

  /** `self._pending.pop(rid, None)`. */
  function NextPop(s: State, c: nat): Option<State> {
    match At(s, c)
    case Some(Popping(rid, q, r)) => Some(To(s, c, Unlocking(rid, q, r)).(pending := s.pending - {rid}))
    case _ => None
  }

  function NextFinish(s: State, c: nat): Option<State> {
    match At(s, c)
    case Some(Unlocking(rid, q, r)) => Some(To(s, c, Ended(rid, q, r)).(lock := None))
    case _ => None
  }

  /** A message without an id is dropped. */
  function NextTake(s: State): Option<State> {
    if s.dispatcher == Idle && s.inbox != [] then
      var msg := s.inbox[0];
      Some(s.(inbox := s.inbox[1..], dispatcher := if msg.id == None then Idle else Waiting(msg)))
    else None
  }

  function NextLookUp(s: State): Option<State> {
    match s.dispatcher
    case LookingUp(msg) =>
      var target := if msg.id.Some? && msg.id.value in s.pending then Some(s.pending[msg.id.value]) else None;
      Some(s.(dispatcher := Found(msg, target)))
    case _ => None
  }

  function NextPut(s: State): Option<State> {
    match s.dispatcher
    case Delivering(msg, Some(q)) =>
      if q < |s.queues|
      then Some(s.(queues := s.queues[q := s.queues[q].(items := s.queues[q].items + [msg])], dispatcher := Idle))
      else None
    case Delivering(msg, None) => Some(s.(dispatcher := Idle))
    case _ => None
  }

  /** The state after a whole schedule, if every move in it is possible. */
  function Run(moves: seq<Move>): Option<State> {
    if moves == [] then Some(START)
    else
      match Run(moves[..|moves| - 1])
      case None => None
      case Some(s) => Next(s, moves[|moves| - 1])
  }

  // ----- the invariant, for one call, pair of calls, table entry, queue and wire entry at a time

  predicate HoldsLock(p: Phase) {
    p.Allocating? || p.Registering? || p.Sending? || p.Releasing? || p.Popping? || p.Unlocking?
  }

  /** Between its registration and its removal a request has an entry in `pending`. */
  predicate Registered(p: Phase) {
    p.Sending? || p.Releasing? || p.Listening? || p.Leaving? || p.Popping?
  }

  predicate InTable(p: Phase) {
    Registered(p) || p.Raised?
  }

  predicate HasId(p: Phase) {
    !p.Entering? && !p.Allocating?
  }

  predicate AboutToWrite(p: Phase) {
    p.Registering? || p.Sending?
  }

  predicate HasResult(p: Phase) {
    p.Leaving? || p.Popping? || p.Unlocking? || p.Ended?
  }

  /** The calls inside the critical section are exactly the holder of the lock. */
  ghost predicate CallLockOk(s: State, c: nat) {
    if c in s.calls then HoldsLock(s.calls[c]) <==> s.lock == Some(Caller(c)) else s.lock != Some(Caller(c))
  }

  ghost predicate CallIdOk(s: State, c: nat) {
    c in s.calls ==>
      && (HasId(s.calls[c]) ==> 1 <= s.calls[c].rid <= s.lastId)
      && (AboutToWrite(s.calls[c]) ==> s.calls[c].rid == s.lastId)
  }

  ghost predicate CallTableOk(s: State, c: nat) {
    c in s.calls ==>
      && (InTable(s.calls[c]) ==> s.calls[c].rid in s.pending)
      && (Registered(s.calls[c]) ==> s.pending[s.calls[c].rid] == s.calls[c].queue)
  }

  /** A request that received a message received one with its own id. */
  ghost predicate CallResultOk(s: State, c: nat) {
    c in s.calls && HasResult(s.calls[c]) && s.calls[c].result.Got? ==> s.calls[c].result.msg.id == Some(s.calls[c].rid)
  }

  ghost predicate CallOk(s: State, c: nat) {
    CallLockOk(s, c) && CallIdOk(s, c) && CallTableOk(s, c) && CallResultOk(s, c)
  }

  /** Ids are unique. */
  ghost predicate PairOk(s: State, c: nat, d: nat) {
    c in s.calls && d in s.calls && c != d && HasId(s.calls[c]) && HasId(s.calls[d]) ==> s.calls[c].rid != s.calls[d].rid
  }

  ghost predicate OwnsId(s: State, c: nat, r: nat) {
    c in s.calls && InTable(s.calls[c]) && s.calls[c].rid == r
  }

  /** An entry of `pending` leads to the queue made for that id, and some call is responsible for it. */
  ghost predicate EntryOk(s: State, r: nat) {
    r in s.pending ==> s.pending[r] < |s.queues| && s.queues[s.pending[r]].owner == r
  }

  ghost predicate EntryOwned(s: State, r: nat) {
    r in s.pending ==> exists c :: OwnsId(s, c, r)
  }

  /** Every message in a queue answers the request that owns the queue. */
  ghost predicate QueueOk(s: State, q: nat) {
    q < |s.queues| ==> forall i | 0 <= i < |s.queues[q].items| :: s.queues[q].items[i].id == Some(s.queues[q].owner)
  }

  ghost predicate DispatcherOk(s: State) {
    && (s.dispatcher.LookingUp? || s.dispatcher.Found? <==> s.lock == Some(Dispatcher))
    && (s.dispatcher != Idle ==> s.dispatcher.msg.id.Some?)
    && ((s.dispatcher.Found? || s.dispatcher.Delivering?) && s.dispatcher.target.Some? ==>
          var q := s.dispatcher.target.value; q < |s.queues| && s.dispatcher.msg.id == Some(s.queues[q].owner))
  }

  /** The ids written so far are in use, and smaller than the id of a call about to write. */
  ghost predicate WireOk(s: State, i: nat) {
    i < |s.wire| && s.wire[i].Some? ==> s.wire[i].value <= s.lastId
  }

  ghost predicate WireCallOk(s: State, i: nat, c: nat) {
    i < |s.wire| && s.wire[i].Some? && c in s.calls && AboutToWrite(s.calls[c]) ==> s.wire[i].value < s.calls[c].rid
  }

  ghost predicate WirePairOk(s: State, i: nat, j: nat) {
    i < j < |s.wire| && s.wire[i].Some? && s.wire[j].Some? ==> s.wire[i].value < s.wire[j].value
  }

  ghost predicate Inv(s: State) {
    && (forall c :: CallOk(s, c))
    && (forall c, d :: PairOk(s, c, d))
    && (forall r :: EntryOk(s, r))
    && (forall r :: EntryOwned(s, r))
    && (forall q :: QueueOk(s, q))
    && DispatcherOk(s)
    && (forall i :: WireOk(s, i))
    && (forall i, c :: WireCallOk(s, i, c))
    && (forall i, j :: WirePairOk(s, i, j))
  }

  /** The call that makes a move. */
  function Mover(move: Move): nat {
    match move
    case Enter(c) => c
    case Acquire(c) => c
    case Allocate(c) => c
    case Register(c) => c
    case Send(c) => c
    case SendFails(c) => c
    case Release(c) => c
    case Get(c) => c
    case TimeOut(c) => c
    case Reacquire(c) => c
    case Pop(c) => c
    case Finish(c) => c
    case _ => 0
  }

  lemma CallLockStep(s: State, move: Move, c: nat)
    requires Next(s, move).Some? && CallLockOk(s, c) && CallLockOk(s, Mover(move)) && DispatcherOk(s)
    ensures CallLockOk(Next(s, move).value, c)
  {
  }

  lemma CallIdStep(s: State, move: Move, c: nat)
    requires Next(s, move).Some? && CallLockOk(s, c) && CallLockOk(s, Mover(move)) && CallIdOk(s, c)
    ensures CallIdOk(Next(s, move).value, c)
  {
  }

  lemma CallTableStep(s: State, move: Move, c: nat)
    requires Next(s, move).Some? && CallTableOk(s, c) && PairOk(s, c, Mover(move))
    ensures CallTableOk(Next(s, move).value, c)
  {
  }

  /** The queue on which a call listens, if it does. */
  function Heard(s: State, c: nat): (nat, nat) {
    if c in s.calls && s.calls[c].Listening? then (s.calls[c].rid, s.calls[c].queue) else (0, 0)
  }

  lemma CallResultStep(s: State, move: Move, c: nat)
    requires Next(s, move).Some? && CallTableOk(s, c) && CallResultOk(s, c)
    requires EntryOk(s, Heard(s, c).0) && QueueOk(s, Heard(s, c).1)
    ensures CallResultOk(Next(s, move).value, c)
  {
  }

  lemma PairStep(s: State, move: Move, c: nat, d: nat)
    requires Next(s, move).Some?
    requires CallOk(s, c) && CallOk(s, d) && PairOk(s, c, d)
    ensures PairOk(Next(s, move).value, c, d)
  {
  }

  lemma EntryStep(s: State, move: Move, r: nat)
    requires Next(s, move).Some? && EntryOk(s, r)
    ensures EntryOk(Next(s, move).value, r)
  {
  }

  lemma EntryOwnedStep(s: State, move: Move, r: nat)
    requires Next(s, move).Some? && EntryOwned(s, r) && CallOk(s, Mover(move))
    ensures EntryOwned(Next(s, move).value, r)
  {
    var t := Next(s, move).value;
    if r in t.pending {
      if r in s.pending {
        var c :| OwnsId(s, c, r);
        assert OwnsId(Next(s, move).value, c, r);
      } else {
        assert OwnsId(t, move.call, r);
      }
    }
  }

  lemma QueueStep(s: State, move: Move, q: nat)
    requires Next(s, move).Some? && QueueOk(s, q) && DispatcherOk(s)
    ensures QueueOk(Next(s, move).value, q)
  {
  }

  lemma DispatcherStep(s: State, move: Move)
    requires Next(s, move).Some? && DispatcherOk(s) && CallOk(s, Mover(move))
    requires EntryOk(s, if s.dispatcher.LookingUp? && s.dispatcher.msg.id.Some? then s.dispatcher.msg.id.value else 0)
    ensures DispatcherOk(Next(s, move).value)
  {
  }

  lemma WireStep(s: State, move: Move, i: nat)
    requires Next(s, move).Some? && WireOk(s, i) && CallOk(s, Mover(move))
    ensures WireOk(Next(s, move).value, i)
  {
  }

  lemma WireCallStep(s: State, move: Move, i: nat, c: nat)
    requires Next(s, move).Some? && WireOk(s, i) && WireCallOk(s, i, c) && CallOk(s, c) && CallOk(s, Mover(move))
    ensures WireCallOk(Next(s, move).value, i, c)
  {
  }

  lemma WirePairStep(s: State, move: Move, i: nat, j: nat)
    requires Next(s, move).Some? && WirePairOk(s, i, j) && WireCallOk(s, i, Mover(move))
    ensures WirePairOk(Next(s, move).value, i, j)
  {
  }

  lemma Step(s: State, move: Move)
    requires Inv(s) && Next(s, move).Some?
    ensures Inv(Next(s, move).value)
  {
    var t, m := Next(s, move).value, Mover(move);
    forall c ensures CallOk(t, c) {
      assert CallOk(s, c) && CallOk(s, m) && PairOk(s, c, m);
      CallLockStep(s, move, c);
      CallIdStep(s, move, c);
      CallTableStep(s, move, c);
      CallResultStep(s, move, c);
    }
    forall c, d ensures PairOk(t, c, d) {
      assert CallOk(s, c) && CallOk(s, d);
      PairStep(s, move, c, d);
    }
    forall r ensures EntryOk(t, r) && EntryOwned(t, r) {
      assert CallOk(s, m);
      EntryStep(s, move, r);
      EntryOwnedStep(s, move, r);
    }
    forall q ensures QueueOk(t, q) {
      QueueStep(s, move, q);
    }
    DispatcherStep(s, move);
    forall i ensures WireOk(t, i) {
      assert CallOk(s, m);
      WireStep(s, move, i);
    }
    forall i, c ensures WireCallOk(t, i, c) && WirePairOk(t, i, c) {
      assert CallOk(s, c) && CallOk(s, m) && WireCallOk(s, i, c) && WireCallOk(s, i, m);
      WireCallStep(s, move, i, c);
      WirePairStep(s, move, i, c);
    }
  }

  /** The invariant holds after every schedule. */
  lemma {:induction false} Reachable(moves: seq<Move>)
    requires Run(moves).Some?
    ensures Inv(Run(moves).value)
  {
    if moves != [] {
      Reachable(moves[..|moves| - 1]);
      Step(Run(moves[..|moves| - 1]).value, moves[|moves| - 1]);
    }
  }

  // ----- the main results, over every schedule

  /** No two calls of `request` use the same id. */
  lemma UniqueIds(moves: seq<Move>, c: nat, d: nat)
    requires Run(moves).Some?
    requires var s := Run(moves).value; c in s.calls && d in s.calls && HasId(s.calls[c]) && HasId(s.calls[d])
    ensures var s := Run(moves).value; s.calls[c].rid == s.calls[d].rid ==> c == d
  {
    Reachable(moves);
    assert PairOk(Run(moves).value, c, d);
  }

  /** Ids reach the server in strictly increasing order. */
  lemma WireIncreases(moves: seq<Move>, i: nat, j: nat)
    requires Run(moves).Some?
    requires var wire := Run(moves).value.wire; i < j < |wire| && wire[i].Some? && wire[j].Some?
    ensures Run(moves).value.wire[i].value < Run(moves).value.wire[j].value
  {
    Reachable(moves);
    assert WirePairOk(Run(moves).value, i, j);
  }

  /** A request that returns a message returns one that carries its own id. */
  lemma OwnResponse(moves: seq<Move>, c: nat)
    requires Run(moves).Some?
    requires var s := Run(moves).value; c in s.calls && s.calls[c].Ended? && s.calls[c].result.Got?
    ensures var s := Run(moves).value; s.calls[c].result.msg.id == Some(s.calls[c].rid)
  {
    Reachable(moves);
    assert CallOk(Run(moves).value, c);
  }

  /**
   Once every request has ended, `pending` holds exactly the ids whose message could not be
   written; it is empty if and only if no write failed.
   */
  lemma PendingAtRest(moves: seq<Move>)
    requires Run(moves).Some?
    requires forall c | c in Run(moves).value.calls :: var p := Run(moves).value.calls[c]; p.Ended? || p.Raised?
    ensures var s := Run(moves).value;
      && (forall r :: r in s.pending <==> exists c | c in s.calls :: s.calls[c] == Raised(r))
      && (s.pending == map[] <==> forall c | c in s.calls :: s.calls[c].Ended?)
  {
    Reachable(moves);
    var s := Run(moves).value;
    forall r ensures r in s.pending <==> exists c | c in s.calls :: s.calls[c] == Raised(r) {
      if r in s.pending {
        assert EntryOwned(s, r);
        var c :| OwnsId(s, c, r);
        assert s.calls[c] == Raised(r);
      }
      if c :| c in s.calls && s.calls[c] == Raised(r) {
        assert CallOk(s, c);
      }
    }
    if c :| c in s.calls && !s.calls[c].Ended? {
      assert s.calls[c] == Raised(s.calls[c].rid);
      assert s.calls[c].rid in s.pending;
    } else {
      assert forall r :: r !in s.pending;
    }
  }

  // ----- what the dispatcher has handed over

  /** A message the dispatcher is done with, and the queue it put it into, if it found one. */
  datatype Handover = Handover(msg: Message, target: Option<nat>)

  function Handed(s: State, move: Move): seq<Handover> {
    if move == Put && s.dispatcher.Delivering? then [Handover(s.dispatcher.msg, s.dispatcher.target)] else []
  }

  /** The messages the dispatcher is done with, in order. */
  ghost function Handled(moves: seq<Move>): seq<Handover>
    requires Run(moves).Some?
  {
    if moves == [] then []
    else
      var front := moves[..|moves| - 1];
      Handled(front) + Handed(Run(front).value, moves[|moves| - 1])
  }

  /** The messages put into queue `q`, in order. */
  function Into(hs: seq<Handover>, q: nat): seq<Message> {
    if hs == [] then []
    else Into(hs[..|hs| - 1], q) + if hs[|hs| - 1].target == Some(q) then [hs[|hs| - 1].msg] else []
  }

  predicate HasQueue(p: Phase) {
    Registered(p) || p.Unlocking? || p.Ended?
  }

  /** What a call has taken out of its queue. */
  function Taken(p: Phase): seq<Message> {
    if HasResult(p) && p.result.Got? then [p.result.msg] else []
  }

  /** A call's queue is its own, and holds what was put into it but for what the call has taken. */
  ghost predicate HistoryOk(s: State, hs: seq<Handover>, c: nat) {
    c in s.calls && HasQueue(s.calls[c]) ==>
      var q := s.calls[c].queue;
      q < |s.queues| && s.queues[q].owner == s.calls[c].rid && Into(hs, q) == Taken(s.calls[c]) + s.queues[q].items
  }

  predicate TargetsOk(s: State, hs: seq<Handover>) {
    forall h | h in hs && h.target.Some? :: h.target.value < |s.queues|
  }

  lemma {:induction false} IntoNone(hs: seq<Handover>, q: nat)
    requires forall h | h in hs :: h.target != Some(q)
    ensures Into(hs, q) == []
  {
    if hs != [] {
      IntoNone(hs[..|hs| - 1], q);
    }
  }

  lemma {:induction false} IntoMore(hs: seq<Handover>, more: seq<Handover>, q: nat)
    ensures Into(hs + more, q) == Into(hs, q) + Into(more, q)
  {
    if more == [] {
      assert hs + more == hs;
    } else {
      var front := more[..|more| - 1];
      IntoMore(hs, front, q);
      assert (hs + more)[..|hs + more| - 1] == hs + front && (hs + more)[|hs + more| - 1] == more[|more| - 1];
    }
  }

  /** What becomes of the queue of a call: it gains the message that is put into it, and loses what the call takes. */
  lemma ItemsStep(s: State, move: Move, c: nat)
    requires Next(s, move).Some? && c in s.calls && HasQueue(s.calls[c]) && s.calls[c].queue < |s.queues|
    requires move.Get? && move.call != c && move.call in s.calls && s.calls[move.call].Listening? ==>
      s.calls[move.call].queue != s.calls[c].queue
    requires HasQueue(Next(s, move).value.calls[c])
    ensures var t, q := Next(s, move).value, s.calls[c].queue;
      && t.calls[c].queue == q && t.calls[c].rid == s.calls[c].rid
      && q < |t.queues| && t.queues[q].owner == s.queues[q].owner
      && Taken(t.calls[c]) + t.queues[q].items == Taken(s.calls[c]) + s.queues[q].items + IntoNext(s, move, q)
  {
    var t, q := Next(s, move).value, s.calls[c].queue;
    if move == Put && s.dispatcher.Delivering? && s.dispatcher.target == Some(q) {
      Regroup(Taken(s.calls[c]), s.queues[q].items, [s.dispatcher.msg]);
    } else {
      assert IntoNext(s, move, q) == [];
      assert move == Get(c) ==> s.queues[q].items == [s.queues[q].items[0]] + t.queues[q].items;
    }
  }

  /** What a move puts into queue `q`. */
  function IntoNext(s: State, move: Move, q: nat): seq<Message> {
    if move == Put && s.dispatcher.Delivering? && s.dispatcher.target == Some(q) then [s.dispatcher.msg] else []
  }

  lemma IntoStep(hs: seq<Handover>, s: State, move: Move, q: nat)
    ensures Into(hs + Handed(s, move), q) == Into(hs, q) + IntoNext(s, move, q)
  {
    IntoMore(hs, Handed(s, move), q);
    assert Into([], q) == [];
  }

  lemma QueueComes(s: State, move: Move, c: nat)
    requires Next(s, move).Some? && c in Next(s, move).value.calls && HasQueue(Next(s, move).value.calls[c])
    ensures if move == Register(c) then
              var t := Next(s, move).value; var q := |s.queues|;
              t.calls[c] == Sending(s.calls[c].rid, q) && t.queues == s.queues + [Queue(s.calls[c].rid, [])]
            else c in s.calls && HasQueue(s.calls[c])
  {
  }

  lemma HistoryStep(s: State, move: Move, hs: seq<Handover>, c: nat)
    requires Next(s, move).Some? && TargetsOk(s, hs)
    requires HistoryOk(s, hs, c) && HistoryOk(s, hs, Mover(move)) && PairOk(s, c, Mover(move))
    ensures HistoryOk(Next(s, move).value, hs + Handed(s, move), c)
  {
    var t := Next(s, move).value;
    if c in t.calls && HasQueue(t.calls[c]) {
      QueueComes(s, move, c);
      IntoStep(hs, s, move, t.calls[c].queue);
      hide Next, Into, Handed;
      if move == Register(c) {
        IntoNone(hs, t.calls[c].queue);
      } else {
        hide IntoNext, Taken;
        ItemsStep(s, move, c);
      }
    }
  }

  lemma TargetsStep(s: State, move: Move, hs: seq<Handover>)
    requires Next(s, move).Some? && TargetsOk(s, hs) && DispatcherOk(s)
    ensures TargetsOk(Next(s, move).value, hs + Handed(s, move))
  {
  }

  lemma {:induction false} History(moves: seq<Move>)
    requires Run(moves).Some?
    ensures TargetsOk(Run(moves).value, Handled(moves))
    ensures forall c: nat :: HistoryOk(Run(moves).value, Handled(moves), c)
  {
    if moves != [] {
      var front, last := moves[..|moves| - 1], moves[|moves| - 1];
      var s, hs := Run(front).value, Handled(front);
      History(front);
      Reachable(front);
      TargetsStep(s, last, hs);
      forall c: nat ensures HistoryOk(Next(s, last).value, hs + Handed(s, last), c) {
        assert PairOk(s, c, Mover(last)) && HistoryOk(s, hs, Mover(last));
        HistoryStep(s, last, hs, c);
      }
    }
  }

  /** The dispatcher is between looking up `msg` and putting it into queue `q`. */
  predicate OnItsWay(s: State, msg: Message, q: nat) {
    s.dispatcher == Found(msg, Some(q)) || s.dispatcher == Delivering(msg, Some(q))
  }

  /** Only `put` ends the way of a response to its queue. */
  lemma DeliveryStep(s: State, move: Move, msg: Message, q: nat)
    requires OnItsWay(s, msg, q) && Next(s, move).Some?
    ensures if Handed(s, move) == [] then OnItsWay(Next(s, move).value, msg, q)
            else Handed(s, move) == [Handover(msg, Some(q))]
  {
  }

  lemma LookedUp(s: State, c: nat)
    requires Inv(s) && c in s.calls && Registered(s.calls[c]) && s.dispatcher.LookingUp?
    requires s.dispatcher.msg.id == Some(s.calls[c].rid)
    ensures Next(s, LookUp).Some? && OnItsWay(Next(s, LookUp).value, s.dispatcher.msg, s.calls[c].queue)
  {
    assert CallOk(s, c);
    hide Inv;
  }

  /**
   When the dispatcher looks up a response whose request is registered, the queue it finds is the one that request
   listens on.  Whatever the threads do then, the response is on its way to that queue, or the very next message the
   dispatcher handed over was this one, to that queue.
   */
  lemma {:induction false} RegisteredIsDelivered(moves: seq<Move>, later: seq<Move>, c: nat)
    requires Run(moves).Some? && Run(moves + [LookUp] + later).Some?
    requires var s := Run(moves).value;
      c in s.calls && Registered(s.calls[c]) && s.dispatcher.LookingUp? && s.dispatcher.msg.id == Some(s.calls[c].rid)
    ensures var s, all := Run(moves).value, moves + [LookUp] + later;
      var msg, q := s.dispatcher.msg, s.calls[c].queue;
      || (OnItsWay(Run(all).value, msg, q) && Handled(all) == Handled(moves))
      || Handled(moves) + [Handover(msg, Some(q))] <= Handled(all)
    decreases |later|
  {
    var s := Run(moves).value;
    var msg, q := s.dispatcher.msg, s.calls[c].queue;
    var all := moves + [LookUp] + later;
    if later == [] {
      assert all == moves + [LookUp] && all[..|all| - 1] == moves;
      Reachable(moves);
      LookedUp(s, c);
    } else {
      hide OnItsWay, Next, Registered, Handed;
      var front, last := later[..|later| - 1], later[|later| - 1];
      assert all[..|all| - 1] == moves + [LookUp] + front && all[|all| - 1] == last;
      RegisteredIsDelivered(moves, front, c);
      if OnItsWay(Run(moves + [LookUp] + front).value, msg, q) {
        DeliveryStep(Run(moves + [LookUp] + front).value, last, msg, q);
      }
    }
  }

  // ----- what a request returns

  predicate GivenUp(s: State, c: nat) {
    c in s.calls && HasResult(s.calls[c]) && s.calls[c].result.TimedOut?
  }

  lemma GivenUpStep(s: State, move: Move, c: nat)
    requires Next(s, move).Some?
    ensures GivenUp(Next(s, move).value, c) <==> move == TimeOut(c) || GivenUp(s, c)
    ensures GivenUp(s, c) ==> Next(s, move).value.calls[c].queue == s.calls[c].queue
  {
  }

  /** At some point of the schedule a call gave up on its queue, into which nothing had been put. */
  ghost predicate GaveUp(moves: seq<Move>, c: nat, q: nat) {
    exists n | 0 <= n < |moves| :: moves[n] == TimeOut(c) && Run(moves[..n]).Some? && Into(Handled(moves[..n]), q) == []
  }

  lemma {:induction false} GivenUpOnEmpty(moves: seq<Move>, c: nat)
    requires Run(moves).Some?
    ensures TimeOut(c) in moves <==> GivenUp(Run(moves).value, c)
    ensures GivenUp(Run(moves).value, c) ==> GaveUp(moves, c, Run(moves).value.calls[c].queue)
  {
    if moves != [] {
      var front, last := moves[..|moves| - 1], moves[|moves| - 1];
      var s := Run(front).value;
      GivenUpOnEmpty(front, c);
      GivenUpStep(s, last, c);
      History(front);
      assert moves == front + [last] && HistoryOk(s, Handled(front), c);
      assert last == TimeOut(c) ==> moves[..|moves| - 1] == front && Into(Handled(front), s.calls[c].queue) == [];
      hide Next, GivenUp, HistoryOk, Into, Handled;
      if last != TimeOut(c) && GivenUp(Run(moves).value, c) {
        GaveUpEarlier(front, last, c, s.calls[c].queue);
      }
    }
  }

  lemma GaveUpEarlier(front: seq<Move>, last: Move, c: nat, q: nat)
    requires GaveUp(front, c, q)
    ensures GaveUp(front + [last], c, q)
  {
    var n :| 0 <= n < |front| && front[n] == TimeOut(c) && Run(front[..n]).Some? && Into(Handled(front[..n]), q) == [];
    assert (front + [last])[..n] == front[..n];
  }

  lemma KeepsQueue(s: State, move: Move, c: nat)
    requires Next(s, move).Some? && c in s.calls && HasQueue(s.calls[c])
    ensures var t := Next(s, move).value;
      c in t.calls && (t.calls[c].Raised? || (HasQueue(t.calls[c]) && t.calls[c].queue == s.calls[c].queue))
  {
  }

  lemma RaisedStays(s: State, move: Move, c: nat)
    requires Next(s, move).Some? && c in s.calls && s.calls[c].Raised?
    ensures c in Next(s, move).value.calls && Next(s, move).value.calls[c].Raised?
  {
  }

  /**
   What a request returns, on every schedule: it times out exactly if the schedule says so, and then nothing had been put
   into its queue by that time; otherwise it returns the first message ever put into its queue.
   */
  lemma AnswerReturned(moves: seq<Move>, c: nat)
    requires Run(moves).Some? && c in Run(moves).value.calls && HasResult(Run(moves).value.calls[c])
    ensures var p := Run(moves).value.calls[c];
      && (p.result.TimedOut? <==> TimeOut(c) in moves)
      && (p.result.TimedOut? ==> GaveUp(moves, c, p.queue))
      && (p.result.Got? ==> [p.result.msg] <= Into(Handled(moves), p.queue))
  {
    GivenUpOnEmpty(moves, c);
    History(moves);
    assert HistoryOk(Run(moves).value, Handled(moves), c);
    hide Run, Into, Handled, GaveUp;
  }

  /** A request that listens can always go on: by taking a message if one was put into its queue, by timing out if not. */
  lemma ListeningGoesOn(moves: seq<Move>, c: nat)
    requires Run(moves).Some? && c in Run(moves).value.calls && Run(moves).value.calls[c].Listening?
    ensures var s := Run(moves).value; var into := Into(Handled(moves), s.calls[c].queue);
      && (Next(s, Get(c)).Some? <==> into != [])
      && (Next(s, TimeOut(c)).Some? <==> into == [])
  {
    hide Run, Into, Handled;
    History(moves);
    assert HistoryOk(Run(moves).value, Handled(moves), c);
    ListeningNext(Run(moves).value, c);
  }

  lemma ListeningNext(s: State, c: nat)
    requires c in s.calls && s.calls[c].Listening? && s.calls[c].queue < |s.queues|
    ensures Next(s, Get(c)).Some? <==> s.queues[s.calls[c].queue].items != []
    ensures Next(s, TimeOut(c)).Some? <==> s.queues[s.calls[c].queue].items == []
  {
  }

  lemma {:induction false} QueueKept(moves: seq<Move>, later: seq<Move>, c: nat)
    requires Run(moves).Some? && Run(moves + later).Some? && c in Run(moves).value.calls && HasQueue(Run(moves).value.calls[c])
    ensures c in Run(moves + later).value.calls
    ensures var p, r := Run(moves).value.calls[c], Run(moves + later).value.calls[c];
      r.Raised? || (HasQueue(r) && r.queue == p.queue)
    decreases |later|
  {
    if later == [] {
      assert moves + later == moves;
    } else {
      var front, last := later[..|later| - 1], later[|later| - 1];
      assert (moves + later)[..|moves + later| - 1] == moves + front && (moves + later)[|moves + later| - 1] == last;
      QueueKept(moves, front, c);
      var s := Run(moves + front).value;
      if s.calls[c].Raised? {
        RaisedStays(s, last, c);
      } else {
        KeepsQueue(s, last, c);
      }
    }
  }

  /**
   A response that is looked up while its request waits for the first one is what this request returns, on every schedule
   on which it does not time out.
   */
  lemma ResponseReturned(moves: seq<Move>, later: seq<Move>, c: nat)
    requires Run(moves).Some? && Run(moves + [LookUp] + later).Some?
    requires var s := Run(moves).value;
      && c in s.calls && Registered(s.calls[c]) && s.dispatcher.LookingUp? && s.dispatcher.msg.id == Some(s.calls[c].rid)
      && Into(Handled(moves), s.calls[c].queue) == []
    requires var t := Run(moves + [LookUp] + later).value; c in t.calls && HasResult(t.calls[c])
    requires TimeOut(c) !in moves + [LookUp] + later
    ensures Run(moves + [LookUp] + later).value.calls[c].result == Got(Run(moves).value.dispatcher.msg)
  {
    var all, s := moves + [LookUp] + later, Run(moves).value;
    var msg, q := s.dispatcher.msg, s.calls[c].queue;
    hide Into, Handled, Run, GaveUp, Registered, OnItsWay;
    RegisteredIsDelivered(moves, later, c);
    SameQueue(moves, later, c);
    AnswerReturned(all, c);
    if Handled(moves) + [Handover(msg, Some(q))] <= Handled(all) {
      FirstInto(Handled(moves), Handover(msg, Some(q)), Handled(all), q);
    }
    var got := Run(all).value.calls[c].result;
    assert got.Got? && Into(Handled(all), q)[0] == got.msg;
  }

  lemma SameQueue(moves: seq<Move>, later: seq<Move>, c: nat)
    requires Run(moves).Some? && c in Run(moves).value.calls && Registered(Run(moves).value.calls[c])
    requires Run(moves + [LookUp] + later).Some?
    requires var t := Run(moves + [LookUp] + later).value; c in t.calls && HasResult(t.calls[c])
    ensures Run(moves + [LookUp] + later).value.calls[c].queue == Run(moves).value.calls[c].queue
  {
    hide Run;
    assert moves + ([LookUp] + later) == moves + [LookUp] + later;
    QueueKept(moves, [LookUp] + later, c);
  }

  lemma FirstInto(hs: seq<Handover>, h: Handover, all: seq<Handover>, q: nat)
    requires Into(hs, q) == [] && h.target == Some(q) && hs + [h] <= all
    ensures [h.msg] <= Into(all, q)
  {
    assert all == hs + [h] + all[|hs| + 1..];
    IntoMore(hs, [h], q);
    IntoMore(hs + [h], all[|hs| + 1..], q);
    assert Into([h], q) == [h.msg];
  }

  // ----- no message is lost or overtaken, and what the server gets

  /** The messages the server has sent. */
  function Sent(moves: seq<Move>): seq<Message> {
    if moves == [] then []
    else
      var last := moves[|moves| - 1];
      Sent(moves[..|moves| - 1]) + if last.ServerSends? then [last.msg] else []
  }

  function Messages(hs: seq<Handover>): seq<Message> {
    seq(|hs|, i requires 0 <= i < |hs| => hs[i].msg)
  }

  function InHand(s: State): seq<Message> {
    if s.dispatcher == Idle then [] else [s.dispatcher.msg]
  }

  function WithId(): Message -> bool {
    (m: Message) => m.id.Some?
  }

  /** The messages with an id that the dispatcher has taken or will take from the queue of the client. */
  function Held(s: State): seq<Message> {
    InHand(s) + Filter(s.inbox, WithId())
  }

  lemma HeldSent(s: State, m: Message)
    ensures Held(s.(inbox := s.inbox + [m])) == Held(s) + Filter([m], WithId())
  {
    hide Filter;
    FilterAppend(s.inbox, [m], WithId());
    Regroup(InHand(s), Filter(s.inbox, WithId()), Filter([m], WithId()));
  }

  lemma HeldTaken(s: State)
    requires Next(s, Take).Some?
    ensures Held(Next(s, Take).value) == Held(s)
  {
    hide Filter;
    assert s.inbox == [s.inbox[0]] + s.inbox[1..];
    FilterCons(s.inbox[0], s.inbox[1..], WithId());
  }

  lemma DispatcherMoves(s: State, move: Move)
    requires Next(s, move).Some? && !move.ServerSends? && move != Take
    ensures var t := Next(s, move).value;
      && t.inbox == s.inbox
      && if Handed(s, move) == [] then InHand(t) == InHand(s)
         else |Handed(s, move)| == 1 && InHand(s) == [Handed(s, move)[0].msg] && InHand(t) == []
  {
  }

  lemma HeldOtherwise(s: State, move: Move)
    requires Next(s, move).Some? && !move.ServerSends? && move != Take
    ensures Held(s) == Messages(Handed(s, move)) + Held(Next(s, move).value)
  {
    DispatcherMoves(s, move);
    hide Next, Handed, InHand;
    var rest := Filter(s.inbox, WithId());
    hide Filter;
    Neutral(rest);
    Neutral(InHand(s) + rest);
  }

  lemma Neutral(s: seq<Message>)
    ensures [] + s == s && s + [] == s
  {
  }

  lemma HeldStep(s: State, move: Move)
    requires Next(s, move).Some?
    ensures var t, more := Next(s, move).value, if move.ServerSends? then [move.msg] else [];
      Held(s) + Filter(more, WithId()) == Messages(Handed(s, move)) + Held(t)
  {
    var t := Next(s, move).value;
    assert Filter<Message>([], WithId()) == [];
    assert move != Put ==> Messages(Handed(s, move)) == [];
    assert move.ServerSends? ==> t == s.(inbox := s.inbox + [move.msg]);
    hide Held, Filter, Next, Handed, Messages;
    Neutral(Held(s));
    Neutral(Held(t));
    if move.ServerSends? {
      HeldSent(s, move.msg);
    } else if move == Take {
      HeldTaken(s);
    } else {
      HeldOtherwise(s, move);
    }
  }

  lemma Chained(sent: seq<Message>, done: seq<Message>, held: seq<Message>, more: seq<Message>, next: seq<Message>, left: seq<Message>)
    requires sent == done + held && held + more == next + left
    ensures sent + more == (done + next) + left
  {
    Regroup(done, held, more);
    Regroup(done, next, left);
  }

  /**
   Every message with an id that the server has sent has been handed over, is with the dispatcher or is waiting, in the
   order in which it was sent.
   */
  lemma {:induction false} DispatchedInOrder(moves: seq<Move>)
    requires Run(moves).Some?
    ensures Filter(Sent(moves), WithId()) == Messages(Handled(moves)) + Held(Run(moves).value)
  {
    if moves == [] {
      assert Held(START) == [];
    } else {
      var front, last := moves[..|moves| - 1], moves[|moves| - 1];
      var s := Run(front).value;
      var more := if last.ServerSends? then [last.msg] else [];
      assert Messages(Handled(moves)) == Messages(Handled(front)) + Messages(Handed(s, last));
      hide Filter, Messages, Held, Handed;
      DispatchedInOrder(front);
      HeldStep(s, last);
      FilterAppend(Sent(front), more, WithId());
      Chained(Filter(Sent(front), WithId()), Messages(Handled(front)), Held(s), Filter(more, WithId()),
              Messages(Handed(s, last)), Held(Run(moves).value));
    }
  }

  /** The message of this call has been written. */
  predicate Written(p: Phase) {
    p.Releasing? || p.Listening? || p.Leaving? || p.Popping? || p.Unlocking? || p.Ended?
  }

  predicate Wrote(s: State, c: nat, r: nat) {
    c in s.calls && Written(s.calls[c]) && s.calls[c].rid == r
  }

  lemma CallWrites(s: State, move: Move, c: nat, r: nat)
    requires Next(s, move).Some?
    ensures Wrote(Next(s, move).value, c, r) <==> Wrote(s, c, r) || (move == Send(c) && s.calls[c].rid == r)
  {
  }

  lemma WireGrows(s: State, move: Move, r: nat)
    requires Next(s, move).Some?
    ensures Some(r) in Next(s, move).value.wire <==> Some(r) in s.wire || (move.Send? && s.calls[move.call].rid == r)
  {
  }

  /** The server gets the id of exactly those requests that were written without an exception. */
  lemma {:induction false} WireIsWritten(moves: seq<Move>, r: nat)
    requires Run(moves).Some?
    ensures Some(r) in Run(moves).value.wire <==> exists c: nat :: Wrote(Run(moves).value, c, r)
  {
    if moves != [] {
      var s, last := Run(moves[..|moves| - 1]).value, moves[|moves| - 1];
      WireIsWritten(moves[..|moves| - 1], r);
      WireGrows(s, last, r);
      forall c: nat ensures Wrote(Next(s, last).value, c, r) <==> Wrote(s, c, r) || (last == Send(c) && s.calls[c].rid == r) {
        CallWrites(s, last, c, r);
      }
    }
  }

  lemma RunThen(moves: seq<Move>, move: Move)
    ensures Run(moves + [move]) == match Run(moves) case None => None case Some(s) => Next(s, move)
  {
    assert (moves + [move])[..|moves|] == moves;
  }

  /** For example a single request whose message cannot be written: it raises, and its queue stays registered. */
  lemma FailedWriteExample()
    ensures Run([Enter(0), Acquire(0), Allocate(0), Register(0), SendFails(0)])
         == Some(State(None, 1, map[1 := 0], [Queue(1, [])], [], [], map[0 := Raised(1)], Idle))
  {
    var entered := [] + [Enter(0)];
    var acquired := entered + [Acquire(0)];
    var numbered := acquired + [Allocate(0)];
    var registered := numbered + [Register(0)];
    RunThen([], Enter(0));
    RunThen(entered, Acquire(0));
    RunThen(acquired, Allocate(0));
    RunThen(numbered, Register(0));
    RunThen(registered, SendFails(0));
    assert map[0 := Entering][0 := Allocating] == map[0 := Allocating];
    assert map[0 := Allocating][0 := Registering(1)] == map[0 := Registering(1)];
    assert map[0 := Registering(1)][0 := Sending(1, 0)] == map[0 := Sending(1, 0)];
    assert map[0 := Sending(1, 0)][0 := Raised(1)] == map[0 := Raised(1)];
    assert map[][0 := Entering] == map[0 := Entering] && map[][1 := 0] == map[1 := 0] && [] + [Queue(1, [])] == [Queue(1, [])];
    assert Run(entered) == Some(START.(calls := map[0 := Entering]));
    assert Run(acquired) == Some(START.(lock := Some(Caller(0)), calls := map[0 := Allocating]));
    assert Run(numbered) == Some(START.(lock := Some(Caller(0)), lastId := 1, calls := map[0 := Registering(1)]));
    var waiting := START.(lastId := 1, pending := map[1 := 0], queues := [Queue(1, [])]);
    assert Run(registered) == Some(waiting.(lock := Some(Caller(0)), calls := map[0 := Sending(1, 0)]));
    assert registered + [SendFails(0)] == [Enter(0), Acquire(0), Allocate(0), Register(0), SendFails(0)];
  }

  /** Whoever holds the lock has a next move, which no other thread can take away. */
  lemma NoDeadlock(moves: seq<Move>)
    requires Run(moves).Some? && Run(moves).value.lock.Some?
    ensures exists move :: Next(Run(moves).value, move).Some? && match Run(moves).value.lock.value
              case Caller(c) => Mover(move) == c && !move.Enter?
              case Notifier(t) => move == NotifySend(t)
              case Dispatcher => move == LookUp || move == LookUpRelease
  {
    Reachable(moves);
    hide Run;
    var s := Run(moves).value;
    match s.lock.value
    case Caller(c) =>
      var move := CallerMoves(s, c);
    case Notifier(t) =>
      assert Next(s, NotifySend(t)).Some?;
    case Dispatcher =>
      assert Next(s, if s.dispatcher.LookingUp? then LookUp else LookUpRelease).Some?;
  }

  /**
   Nobody waits for nothing: calls can begin at any time, whoever waits for the lock can take it when it is free, and the
   dispatcher can go on as long as there is a message, except for the lock.
   */
  lemma WaitingEnds(moves: seq<Move>, c: nat)
    requires Run(moves).Some?
    ensures var s := Run(moves).value;
      && (c !in s.calls ==> Next(s, Enter(c)).Some?)
      && (s.lock == None ==> Next(s, NotifyAcquire(c)).Some?)
      && (s.lock == None && c in s.calls && s.calls[c].Entering? ==> Next(s, Acquire(c)).Some?)
      && (s.lock == None && c in s.calls && s.calls[c].Leaving? ==> Next(s, Reacquire(c)).Some?)
      && (s.inbox != [] && s.dispatcher == Idle ==> Next(s, Take).Some?)
      && (s.lock == None && s.dispatcher.Waiting? ==> Next(s, LookUpAcquire).Some?)
      && (s.dispatcher.Delivering? ==> Next(s, Put).Some?)
  {
    Reachable(moves);
    assert DispatcherOk(Run(moves).value);
    hide Run, Inv;
  }

  lemma CallerMoves(s: State, c: nat) returns (move: Move)
    requires Inv(s) && s.lock == Some(Caller(c))
    ensures Next(s, move).Some? && Mover(move) == c && !move.Enter?
  {
    assert CallOk(s, c);
    hide Inv;
    move := match s.calls[c]
      case Allocating => Allocate(c)
      case Registering(_) => Register(c)
      case Sending(_, _) => Send(c)
      case Releasing(_, _) => Release(c)
      case Popping(_, _, _) => Pop(c)
      case _ => Finish(c);
  }

  // ----- the client object: its critical sections are runs of the state machine

  function Then(s: Option<State>, move: Move): Option<State> {
    match s
    case None => None
    case Some(t) => Next(t, move)
  }

  /** The moves of the `with` block at the start of `request`. */
  function Begin(s: State, c: nat, written: bool): Option<State> {
    var registered := Then(Then(Then(Some(s), Acquire(c)), Allocate(c)), Register(c));
    if written then Then(Then(registered, Send(c)), Release(c)) else Then(registered, SendFails(c))
  }

  class LspClient {
    var id: nat
    var pending: map<nat, nat>
    var queues: seq<Queue>
    var wire: seq<Option<nat>>

    constructor ()
      ensures Matches(START)
    {
      id, pending, queues, wire := 0, map[], [], [];
    }

    /** The fields of the object are the shared part of state `s`. */
    ghost predicate Matches(s: State)
      reads this
    {
      s.lastId == id && s.pending == pending && s.queues == queues && s.wire == wire
    }

    /** The `with` block at the start of `request`; `written` says whether the write succeeded. */
    method BeginRequest(c: nat, written: bool, ghost s: State) returns (rid: nat, q: nat, ghost t: State)
      requires Matches(s) && s.lock == None && At(s, c) == Some(Entering)
      modifies this
      ensures Begin(s, c, written) == Some(t)
      ensures Matches(t) && t.lock == None && At(t, c) == Some(if written then Listening(rid, q) else Raised(rid))
    {
      id := id + 1;
      rid, q := id, |queues|;
      queues := queues + [Queue(rid, [])];
      pending := pending[rid := q];
      if written {
        wire := wire + [Some(rid)];
      }
      t := Begin(s, c, written).value;
    }

    /** `q.get(timeout=self.timeout)`: a message if there is one in time, `None` for `queue.Empty`. */
    method Receive(c: nat, q: nat, ghost s: State) returns (msg: Option<Message>, ghost t: State)
      requires Matches(s) && c in s.calls && s.calls[c].Listening? && s.calls[c].queue == q < |queues|
      modifies this`queues
      ensures Next(s, if old(queues[q].items) == [] then TimeOut(c) else Get(c)) == Some(t) && Matches(t)
      ensures At(t, c) == Some(Leaving(s.calls[c].rid, q, if msg.Some? then Got(msg.value) else TimedOut))
      ensures msg == if old(queues[q].items) == [] then None else Some(old(queues[q].items[0]))
    {
      var items := queues[q].items;
      if items == [] {
        t := Next(s, TimeOut(c)).value;
        return None, t;
      }
      queues := queues[q := queues[q].(items := items[1..])];
      t := Next(s, Get(c)).value;
      return Some(items[0]), t;
    }

    /** The `with` block in the `finally` clause of `request`. */
    method EndRequest(c: nat, rid: nat, ghost s: State) returns (ghost t: State)
      requires Matches(s) && s.lock == None && c in s.calls && s.calls[c].Leaving? && s.calls[c].rid == rid
      modifies this
      ensures Then(Then(Then(Some(s), Reacquire(c)), Pop(c)), Finish(c)) == Some(t)
      ensures Matches(t) && t.lock == None && At(t, c) == Some(Ended(rid, s.calls[c].queue, s.calls[c].result))
    {
      pending := pending - {rid};
      t := Next(Next(Next(s, Reacquire(c)).value, Pop(c)).value, Finish(c)).value;
    }

    /** The `with` block of the dispatcher: `self._pending.get(rid)`. */
    method LookUpQueue(rid: nat, ghost s: State) returns (q: Option<nat>, ghost t: State)
      requires Matches(s) && s.lock == None && s.dispatcher.Waiting? && s.dispatcher.msg.id == Some(rid)
      ensures Then(Then(Then(Some(s), LookUpAcquire), LookUp), LookUpRelease) == Some(t)
      ensures Matches(t) && t.lock == None && t.dispatcher == Delivering(s.dispatcher.msg, q)
      ensures q == if rid in pending then Some(pending[rid]) else None
    {
      q := if rid in pending then Some(pending[rid]) else None;
      t := Next(Next(Next(s, LookUpAcquire).value, LookUp).value, LookUpRelease).value;
    }
  }
}
