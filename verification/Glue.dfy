/**
 Two glued channels, each on its own event loop (FIFO queue of tasks). What one channel sees is
 done on the other; a read on one side is let through only while the other side is writable.
 */
module Glue {
  import opened Bytes

  /** What a channel sees, and what is then done on its partner: data is written, the end of a
      read burst flushes, the end of input closes the output, and so on. */
  datatype Op = Write(data: int) | Flush | CloseOutput | Close | FireError

  /** Closures handed to an event loop. `id` numbers the read requests of one side. */
  datatype Task =
    | Transfer(op: Op)       // do `op` on this channel
    | Check(id: nat)         // the partner asks to read: is this channel writable?
    | DoRead(id: nat)        // answer: forward the read
    | MarkPending(id: nat)   // answer: remember it
    | Wake                   // the partner became writable: forward a remembered read

  /** A loop's tasks, first come first served. */
  datatype Queue = Empty | Next(task: Task, rest: Queue)

  function Enqueue(queue: Queue, task: Task): (r: Queue) {
    match queue
    case Empty => Next(task, Empty)
    case Next(first, rest) => Next(first, Enqueue(rest, task))
  }

  /** One side: the handler's fields, its loop's queue, its channel, and what happened so far. */
  datatype Peer = Peer(
    attached: bool,          // the handler has a context
    queue: Queue,
    pendingRead: bool,
    writable: bool,
    notify: bool,            // a writability change is still to be announced
    requested: nat,          // reads requested on this side
    waiting: set<nat>,       // those that `pendingRead` stands for
    forwarded: set<nat>,
    lost: set<nat>,
    seen: seq<Op>,
    dropped: seq<Op>,        // seen while the partner had no context
    done: seq<Op>)

  datatype Action = Attach | See(op: Op) | RequestRead | SetWritable(value: bool) | Announce | RunTask

  predicate Enabled(me: Peer, action: Action) {
    match action
    case Attach => !me.attached
    case See(_) => me.attached
    case RequestRead => me.attached
    case SetWritable(value) => me.writable != value
    case Announce => me.notify
    case RunTask => me.queue.Next?
  }

  /** Queues a task on a peer's loop; without a context there is no loop to queue it on. */
  function Execute(peer: Peer, task: Task): (r: Peer) {
    if peer.attached then peer.(queue := Enqueue(peer.queue, task)) else peer
  }

  function Request(me: Peer, partner: Peer): (r: (Peer, Peer)) {
    var asked := me.(requested := me.requested + 1);
    if partner.attached then (asked, Execute(partner, Check(me.requested)))
    else (asked.(lost := me.lost + {me.requested}), partner)
  }

  /** Runs the first queued task on this side's loop. */
  function Run(me: Peer, partner: Peer): (r: (Peer, Peer))
    requires me.queue.Next?
  {
    var popped := me.(queue := me.queue.rest);
    match me.queue.task
    case Transfer(op) => (popped.(done := me.done + [op]), partner)
    case Check(id) => (popped, Execute(partner, if me.writable then DoRead(id) else MarkPending(id)))
    case DoRead(id) => (popped.(forwarded := me.forwarded + {id}), partner)
    case MarkPending(id) => (popped.(pendingRead := true, waiting := me.waiting + {id}), partner)
    case Wake =>
      if me.pendingRead then
        (popped.(pendingRead := false, forwarded := me.forwarded + me.waiting, waiting := {}), partner)
      else (popped, partner)
  }

  /** One step of one side: the new state of that side and of its partner. */
  function Act(me: Peer, partner: Peer, action: Action): (r: (Peer, Peer))
    requires Enabled(me, action)
  {
    match action
    case Attach => (me.(attached := true), partner)
    case See(op) =>
      var saw := me.(seen := me.seen + [op]);
      if partner.attached then (saw, Execute(partner, Transfer(op))) else (saw.(dropped := me.dropped + [op]), partner)
    case RequestRead => Request(me, partner)
    case SetWritable(value) => (me.(writable := value, notify := true), partner)
    case Announce =>
      (me.(notify := false), if me.attached && me.writable then Execute(partner, Wake) else partner)
    case RunTask => Run(me, partner)
  }

  // ---------- before both sides have a context ----------

  /** Nothing is queued, remembered or done until both sides have a context. */
  predicate QuietUntilGlued(me: Peer, partner: Peer) {
    !me.attached || !partner.attached ==>
      me.queue == Empty && partner.queue == Empty && me.waiting == {} && partner.waiting == {}
      && me.done == [] && partner.done == []
  }

  lemma {:induction false} StepKeepsQuiet(me: Peer, partner: Peer, action: Action)
    requires QuietUntilGlued(me, partner) && Enabled(me, action)
    ensures var (a, b) := Act(me, partner, action); QuietUntilGlued(a, b)
  {
  }

  predicate FlagsAgree(me: Peer) {
    me.pendingRead <==> me.waiting != {}
  }

  lemma {:induction false} StepKeepsFlags(me: Peer, partner: Peer, action: Action)
    requires FlagsAgree(me) && FlagsAgree(partner) && Enabled(me, action)
    ensures var (a, b) := Act(me, partner, action); FlagsAgree(a) && FlagsAgree(b)
  {
    var (a, b) := Act(me, partner, action);
    if action == RunTask && me.queue.task.MarkPending? {
      assert me.queue.task.id in a.waiting;
    }
  }

  // ---------- order: what one side sees is done on the other ----------

  function Transfers(queue: Queue): (r: seq<Op>) {
    match queue
    case Empty => []
    case Next(task, rest) => (if task.Transfer? then [task.op] else []) + Transfers(rest)
  }

  /** Done and queued on the partner, in order: everything seen since the partner has a context. */
  predicate InOrder(me: Peer, partner: Peer) {
    me.seen == me.dropped + (partner.done + Transfers(partner.queue))
  }

  lemma {:induction false} TransfersEnqueue(queue: Queue, task: Task)
    ensures Transfers(Enqueue(queue, task)) == Transfers(queue) + if task.Transfer? then [task.op] else []
  {
    if queue.Next? {
      TransfersEnqueue(queue.rest, task);
    }
  }

  /** Queuing anything but a transfer leaves the order alone. */
  lemma {:induction false} ExecuteKeepsOrder(me: Peer, partner: Peer, task: Task)
    requires InOrder(me, partner) && !task.Transfer?
    ensures InOrder(me, Execute(partner, task))
  {
    TransfersEnqueue(partner.queue, task);
    assert Transfers(partner.queue) + [] == Transfers(partner.queue);
  }

  lemma {:induction false} SeeKeepsOrder(me: Peer, partner: Peer, op: Op)
    requires InOrder(me, partner) && QuietUntilGlued(me, partner) && Enabled(me, See(op))
    ensures var (a, b) := Act(me, partner, See(op)); InOrder(a, b)
  {
    if partner.attached {
      TransfersEnqueue(partner.queue, Transfer(op));
    }
  }

  lemma {:induction false} RunKeepsOrder(me: Peer, partner: Peer)
    requires InOrder(partner, me) && me.queue.Next?
    ensures InOrder(partner, Run(me, partner).0)
  {
    var task, rest := me.queue.task, me.queue.rest;
    if task.Transfer? {
      assert me.done + ([task.op] + Transfers(rest)) == me.done + [task.op] + Transfers(rest);
    } else {
      assert [] + Transfers(rest) == Transfers(rest);
    }
  }

  lemma {:induction false} StepKeepsOrder(me: Peer, partner: Peer, action: Action)
    requires InOrder(me, partner) && InOrder(partner, me)
    requires QuietUntilGlued(me, partner) && Enabled(me, action)
    ensures var (a, b) := Act(me, partner, action); InOrder(a, b) && InOrder(b, a)
  {
    match action
    case See(op) => SeeKeepsOrder(me, partner, op);
    case RequestRead => ExecuteKeepsOrder(me, partner, Check(me.requested));
    case Announce => ExecuteKeepsOrder(me, partner, Wake);
    case RunTask =>
      RunKeepsOrder(me, partner);
      if me.queue.task.Check? {
        var id := me.queue.task.id;
        ExecuteKeepsOrder(me, partner, if me.writable then DoRead(id) else MarkPending(id));
      }
    case _ =>
  }

  // ---------- conservation: every read request is in exactly one place ----------

  function One(b: bool): (r: nat) {
    if b then 1 else 0
  }

  function Count(queue: Queue, task: Task): (r: nat) {
    match queue
    case Empty => 0
    case Next(first, rest) => One(first == task) + Count(rest, task)
  }

  lemma {:induction false} CountEnqueue(queue: Queue, more: Task, task: Task)
    ensures Count(Enqueue(queue, more), task) == Count(queue, task) + One(more == task)
  {
    if queue.Next? {
      CountEnqueue(queue.rest, more, task);
    }
  }

  /** In how many places request `id` of this side is: forwarded, remembered, lost, to be checked
      by the partner, or with its answer on the way. */
  function Places(me: Peer, partner: Peer, id: nat): (r: nat) {
    One(id in me.forwarded) + One(id in me.waiting) + One(id in me.lost)
    + Count(partner.queue, Check(id)) + Count(me.queue, DoRead(id)) + Count(me.queue, MarkPending(id))
  }

  /** Requests made are in exactly one place, and no others are anywhere. */
  predicate Placed(me: Peer, partner: Peer, id: nat) {
    Places(me, partner, id) == One(id < me.requested)
  }

  /** The effect of queuing `task` on all the counts that matter for `id`. */
  lemma {:induction false} ExecuteCounts(peer: Peer, task: Task, id: nat)
    requires peer.attached
    ensures var after := Execute(peer, task).queue;
            && Count(after, Check(id)) == Count(peer.queue, Check(id)) + One(task == Check(id))
            && Count(after, DoRead(id)) == Count(peer.queue, DoRead(id)) + One(task == DoRead(id))
            && Count(after, MarkPending(id)) == Count(peer.queue, MarkPending(id)) + One(task == MarkPending(id))
  {
    CountEnqueue(peer.queue, task, Check(id));
    CountEnqueue(peer.queue, task, DoRead(id));
    CountEnqueue(peer.queue, task, MarkPending(id));
  }

  /** Running a task moves this side's request from its queue to where the answer says. */
  lemma {:induction false} RunKeepsMine(me: Peer, partner: Peer, id: nat)
    requires Placed(me, partner, id) && FlagsAgree(me) && me.queue.Next?
    requires me.attached && partner.attached
    ensures var (a, b) := Run(me, partner); Placed(a, b, id)
  {
    var task := me.queue.task;
    if task.Check? {
      ExecuteCounts(partner, if me.writable then DoRead(task.id) else MarkPending(task.id), id);
    }
  }

  /** Running a check moves the partner's request from this queue to the partner's. */
  lemma {:induction false} RunKeepsTheirs(me: Peer, partner: Peer, id: nat)
    requires Placed(partner, me, id) && me.queue.Next? && me.attached && partner.attached
    ensures var (a, b) := Run(me, partner); Placed(b, a, id)
  {
    var task := me.queue.task;
    if task.Check? {
      ExecuteCounts(partner, if me.writable then DoRead(task.id) else MarkPending(task.id), id);
    }
  }

  lemma {:induction false} ActKeepsMine(me: Peer, partner: Peer, action: Action, id: nat)
    requires Placed(me, partner, id)
    requires FlagsAgree(me) && QuietUntilGlued(me, partner) && Enabled(me, action)
    ensures var (a, b) := Act(me, partner, action); Placed(a, b, id)
  {
    match action
    case See(op) => if partner.attached { ExecuteCounts(partner, Transfer(op), id); }
    case RequestRead => if partner.attached { ExecuteCounts(partner, Check(me.requested), id); }
    case Announce => if partner.attached { ExecuteCounts(partner, Wake, id); }
    case RunTask => RunKeepsMine(me, partner, id);
    case _ =>
  }

  lemma {:induction false} ActKeepsTheirs(me: Peer, partner: Peer, action: Action, id: nat)
    requires Placed(partner, me, id)
    requires FlagsAgree(me) && QuietUntilGlued(me, partner) && Enabled(me, action)
    ensures var (a, b) := Act(me, partner, action); Placed(b, a, id)
  {
    match action
    case See(op) => if partner.attached { ExecuteCounts(partner, Transfer(op), id); }
    case RequestRead => if partner.attached { ExecuteCounts(partner, Check(me.requested), id); }
    case Announce => if partner.attached { ExecuteCounts(partner, Wake, id); }
    case RunTask => RunKeepsTheirs(me, partner, id);
    case _ =>
  }

  /** Every step leaves each read request, of either side, in exactly one place. */
  lemma {:induction false} StepKeepsPlaces(me: Peer, partner: Peer, action: Action, id: nat)
    requires Placed(me, partner, id) && Placed(partner, me, id)
    requires FlagsAgree(me) && QuietUntilGlued(me, partner) && Enabled(me, action)
    ensures var (a, b) := Act(me, partner, action); Placed(a, b, id) && Placed(b, a, id)
  {
    ActKeepsMine(me, partner, action, id);
    ActKeepsTheirs(me, partner, action, id);
  }

  // ---------- back-pressure: a remembered read will be woken ----------

  predicate WakeQueued(queue: Queue) {
    queue.Next? && (queue.task == Wake || WakeQueued(queue.rest))
  }

  /** Every `MarkPending` in the queue has a wake-up behind it. */
  predicate MarksWoken(queue: Queue) {
    queue.Next? ==> (queue.task.MarkPending? ==> WakeQueued(queue.rest)) && MarksWoken(queue.rest)
  }

  /** While the partner is writable and has nothing to announce, every read remembered or about to
      be remembered has a wake-up behind it. */
  predicate Guarded(me: Peer, partner: Peer) {
    partner.writable && !partner.notify ==>
      (me.waiting != {} ==> WakeQueued(me.queue)) && MarksWoken(me.queue)
  }

  lemma {:induction false} EnqueueKeepsGuard(queue: Queue, task: Task)
    ensures WakeQueued(queue) ==> WakeQueued(Enqueue(queue, task))
    ensures MarksWoken(queue) && !task.MarkPending? ==> MarksWoken(Enqueue(queue, task))
    ensures task == Wake ==> WakeQueued(Enqueue(queue, task)) && MarksWoken(Enqueue(queue, task))
  {
    if queue.Next? {
      EnqueueKeepsGuard(queue.rest, task);
    }
  }

  lemma {:induction false} StepKeepsGuard(me: Peer, partner: Peer, action: Action)
    requires Guarded(me, partner) && Guarded(partner, me)
    requires FlagsAgree(me) && QuietUntilGlued(me, partner) && Enabled(me, action)
    ensures var (a, b) := Act(me, partner, action); Guarded(a, b) && Guarded(b, a)
  {
    match action
    case See(op) => EnqueueKeepsGuard(partner.queue, Transfer(op));
    case RequestRead => EnqueueKeepsGuard(partner.queue, Check(me.requested));
    case Announce => EnqueueKeepsGuard(partner.queue, Wake);
    case RunTask => if me.queue.task.Check? { EnqueueKeepsGuard(partner.queue, DoRead(me.queue.task.id)); }
    case _ =>
  }

  // ---------- whole runs ----------

  datatype Side = Left | Right

  datatype State = State(left: Peer, right: Peer)

  datatype Move = Move(side: Side, action: Action)

  function Mine(st: State, side: Side): (r: Peer) {
    if side == Left then st.left else st.right
  }

  function Theirs(st: State, side: Side): (r: Peer) {
    if side == Left then st.right else st.left
  }

  function Step(st: State, move: Move): (r: State)
    requires Enabled(Mine(st, move.side), move.action)
  {
    var (a, b) := Act(Mine(st, move.side), Theirs(st, move.side), move.action);
    if move.side == Left then State(a, b) else State(b, a)
  }

  /** Every move can be made where it is made: any interleaving of the two loops. */
  predicate ValidRun(st: State, moves: seq<Move>)
    decreases |moves|
  {
    moves == [] ||
    (Enabled(Mine(st, moves[0].side), moves[0].action) && ValidRun(Step(st, moves[0]), moves[1..]))
  }

  function Exec(st: State, moves: seq<Move>): (r: State)
    requires ValidRun(st, moves)
    decreases |moves|
  {
    if moves == [] then st else Exec(Step(st, moves[0]), moves[1..])
  }

  predicate Fresh(peer: Peer) {
    && !peer.attached && peer.queue == Empty && !peer.pendingRead && !peer.notify && peer.requested == 0
    && peer.waiting == {} && peer.forwarded == {} && peer.lost == {}
    && peer.seen == [] && peer.dropped == [] && peer.done == []
  }

  ghost predicate PairInv(me: Peer, partner: Peer) {
    && QuietUntilGlued(me, partner) && FlagsAgree(me) && FlagsAgree(partner)
    && InOrder(me, partner) && InOrder(partner, me)
    && (forall id: nat :: Placed(me, partner, id) && Placed(partner, me, id))
    && Guarded(me, partner) && Guarded(partner, me)
  }

  ghost predicate Inv(st: State) {
    PairInv(st.left, st.right)
  }

  lemma {:induction false} PairKeeps(me: Peer, partner: Peer, action: Action)
    requires PairInv(me, partner) && Enabled(me, action)
    ensures var (a, b) := Act(me, partner, action); PairInv(a, b)
  {
    var (a, b) := Act(me, partner, action);
    StepKeepsQuiet(me, partner, action);
    StepKeepsFlags(me, partner, action);
    StepKeepsOrder(me, partner, action);
    StepKeepsGuard(me, partner, action);
    forall id: nat ensures Placed(a, b, id) && Placed(b, a, id) {
      assert Placed(me, partner, id) && Placed(partner, me, id);
      StepKeepsPlaces(me, partner, action, id);
    }
  }

  lemma {:induction false} PairSymmetric(me: Peer, partner: Peer)
    requires PairInv(me, partner)
    ensures PairInv(partner, me)
  {
    forall id: nat ensures Placed(partner, me, id) && Placed(me, partner, id) {
      assert Placed(me, partner, id) && Placed(partner, me, id);
    }
  }

  lemma {:induction false} StepKeeps(st: State, move: Move)
    requires Inv(st) && Enabled(Mine(st, move.side), move.action)
    ensures Inv(Step(st, move))
  {
    if move.side == Left {
      PairKeeps(st.left, st.right, move.action);
    } else {
      PairSymmetric(st.left, st.right);
      PairKeeps(st.right, st.left, move.action);
      var (a, b) := Act(st.right, st.left, move.action);
      PairSymmetric(a, b);
    }
  }

  lemma {:induction false} RunKeeps(st: State, moves: seq<Move>)
    requires Inv(st) && ValidRun(st, moves)
    ensures Inv(Exec(st, moves))
    decreases |moves|
  {
    if moves != [] {
      StepKeeps(st, moves[0]);
      RunKeeps(Step(st, moves[0]), moves[1..]);
    }
  }

  /** The invariant holds in every reachable state. */
  lemma {:induction false} Reachable(st: State, moves: seq<Move>)
    requires Fresh(st.left) && Fresh(st.right) && ValidRun(st, moves)
    ensures Inv(Exec(st, moves))
  {
    forall id: nat ensures Placed(st.left, st.right, id) && Placed(st.right, st.left, id) {
    }
    RunKeeps(st, moves);
  }

  /** In every run, what was done on the partner is a prefix, in order, of what was seen since the
      partner has a context; so a flush or a close is done only after everything seen before it. */
  lemma {:induction false} DoneIsPrefixOfSeen(st: State, moves: seq<Move>, side: Side)
    requires Fresh(st.left) && Fresh(st.right) && ValidRun(st, moves)
    ensures var me, partner := Mine(Exec(st, moves), side), Theirs(Exec(st, moves), side);
            && me.dropped + partner.done <= me.seen
            && forall k :: 0 <= k < |partner.done| ==>
                 partner.done[..k] == me.seen[|me.dropped|..|me.dropped| + k]
                 && partner.done[k] == me.seen[|me.dropped| + k]
  {
    Reachable(st, moves);
    var me, partner := Mine(Exec(st, moves), side), Theirs(Exec(st, moves), side);
    MiddlePart(me.seen, me.dropped, partner.done, Transfers(partner.queue));
  }

  lemma {:induction false} MiddlePart(seen: seq<Op>, dropped: seq<Op>, done: seq<Op>, queued: seq<Op>)
    requires seen == dropped + (done + queued)
    ensures dropped + done <= seen
    ensures forall k :: 0 <= k < |done| ==>
              done[..k] == seen[|dropped|..|dropped| + k] && done[k] == seen[|dropped| + k]
  {
    assert seen == dropped + done + queued;
  }

  // ---------- which reads are lost ----------

  /** Reads requested on `side` before its partner got a context. */
  function EarlyReads(moves: seq<Move>, side: Side): (r: nat) {
    if moves == [] || (moves[0].side != side && moves[0].action == Attach) then 0
    else One(moves[0] == Move(side, RequestRead)) + EarlyReads(moves[1..], side)
  }

  function Other(side: Side): (r: Side) {
    if side == Left then Right else Left
  }

  /** What one move does to the requests of `side` and to its partner's context. */
  lemma {:induction false} MoveOnRequests(st: State, move: Move, side: Side)
    requires Enabled(Mine(st, move.side), move.action)
    ensures var before, after := Mine(st, side), Mine(Step(st, move), side);
            var asked := move == Move(side, RequestRead);
            && after.requested == before.requested + One(asked)
            && after.lost == (if asked && !Theirs(st, side).attached then before.lost + {before.requested} else before.lost)
            && Theirs(Step(st, move), side).attached == (Theirs(st, side).attached || move == Move(Other(side), Attach))
  {
    ActOnRequests(Mine(st, move.side), Theirs(st, move.side), move.action);
  }

  lemma {:induction false} ActOnRequests(me: Peer, partner: Peer, action: Action)
    requires Enabled(me, action)
    ensures var (a, b) := Act(me, partner, action);
            && a.requested == me.requested + One(action == RequestRead)
            && a.lost == (if action == RequestRead && !partner.attached then me.lost + {me.requested} else me.lost)
            && a.attached == (me.attached || action == Attach)
            && b.requested == partner.requested && b.lost == partner.lost && b.attached == partner.attached
  {
  }

  lemma {:induction false} LostFrom(st: State, moves: seq<Move>, side: Side, id: nat)
    requires ValidRun(st, moves)
    ensures var me := Mine(st, side);
            id in Mine(Exec(st, moves), side).lost <==>
              id in me.lost || (!Theirs(st, side).attached && me.requested <= id < me.requested + EarlyReads(moves, side))
    decreases |moves|
  {
    if moves != [] {
      MoveOnRequests(st, moves[0], side);
      LostFrom(Step(st, moves[0]), moves[1..], side, id);
    }
  }

  /** A read request is lost exactly when it was made before the partner had a context. */
  lemma {:induction false} LostExactlyEarly(st: State, moves: seq<Move>, side: Side, id: nat)
    requires Fresh(st.left) && Fresh(st.right) && ValidRun(st, moves)
    ensures id in Mine(Exec(st, moves), side).lost <==> id < EarlyReads(moves, side)
  {
    LostFrom(st, moves, side, id);
  }

  /** What `side` sees in one move. */
  function SeenIn(move: Move, side: Side): (r: seq<Op>) {
    if move.side == side && move.action.See? then [move.action.op] else []
  }

  /** What `side` saw in a run. */
  function SeenOps(moves: seq<Move>, side: Side): (r: seq<Op>) {
    if moves == [] then [] else SeenIn(moves[0], side) + SeenOps(moves[1..], side)
  }

  /** What it saw before its partner got a context. */
  function EarlyOps(moves: seq<Move>, side: Side): (r: seq<Op>) {
    if moves == [] || (moves[0].side != side && moves[0].action == Attach) then []
    else SeenIn(moves[0], side) + EarlyOps(moves[1..], side)
  }

  lemma {:induction false} ActOnSeen(me: Peer, partner: Peer, action: Action)
    requires Enabled(me, action)
    ensures var (a, b) := Act(me, partner, action);
            var ops := if action.See? then [action.op] else [];
            && a.seen == me.seen + ops && a.dropped == me.dropped + (if partner.attached then [] else ops)
            && b.seen == partner.seen && b.dropped == partner.dropped
  {
  }

  lemma {:induction false} MoveOnSeen(st: State, move: Move, side: Side)
    requires Enabled(Mine(st, move.side), move.action)
    ensures var before, after := Mine(st, side), Mine(Step(st, move), side);
            && after.seen == before.seen + SeenIn(move, side)
            && after.dropped == before.dropped + (if Theirs(st, side).attached then [] else SeenIn(move, side))
  {
    ActOnSeen(Mine(st, move.side), Theirs(st, move.side), move.action);
  }

  lemma {:induction false} SeenFrom(st: State, moves: seq<Move>, side: Side)
    requires ValidRun(st, moves)
    ensures Mine(Exec(st, moves), side).seen == Mine(st, side).seen + SeenOps(moves, side)
    decreases |moves|
  {
    if moves != [] {
      MoveOnSeen(st, moves[0], side);
      SeenFrom(Step(st, moves[0]), moves[1..], side);
    }
  }

  lemma {:induction false} DroppedFrom(st: State, moves: seq<Move>, side: Side)
    requires ValidRun(st, moves)
    ensures Mine(Exec(st, moves), side).dropped ==
              Mine(st, side).dropped + if Theirs(st, side).attached then [] else EarlyOps(moves, side)
    decreases |moves|
  {
    if moves != [] {
      MoveOnSeen(st, moves[0], side);
      MoveOnRequests(st, moves[0], side);
      DroppedFrom(Step(st, moves[0]), moves[1..], side);
      assert moves[0] == Move(Other(side), Attach) <==> moves[0].side != side && moves[0].action == Attach;
    }
  }

  /** What is dropped is exactly what was seen before the partner had a context. */
  lemma {:induction false} DroppedExactlyEarly(st: State, moves: seq<Move>, side: Side)
    requires Fresh(st.left) && Fresh(st.right) && ValidRun(st, moves)
    ensures var end := Mine(Exec(st, moves), side);
            end.seen == SeenOps(moves, side) && end.dropped == EarlyOps(moves, side)
  {
    SeenFrom(st, moves, side);
    DroppedFrom(st, moves, side);
  }

  /** Such a read is lost even when the partner is writable and everything has run. */
  lemma {:induction false} EarlyReadIsLost(st: State)
    requires Fresh(st.left) && Fresh(st.right)
    ensures var moves := [Move(Left, Attach), Move(Left, RequestRead), Move(Right, Attach)];
            && ValidRun(st, moves)
            && var end := Exec(st, moves);
               && end.left.queue == Empty && end.right.queue == Empty && end.left.requested == 1
               && end.left.forwarded == {} && !end.left.pendingRead && end.left.lost == {0}
  {
    var m0, m1, m2 := Move(Left, Attach), Move(Left, RequestRead), Move(Right, Attach);
    var moves := [m0, m1, m2];
    var s1 := Step(st, m0);
    var s2 := Step(s1, m1);
    assert moves[1..] == [m1, m2] && [m1, m2][1..] == [m2] && [m2][1..] == [];
    assert ValidRun(s2, [m2]) && ValidRun(s1, [m1, m2]);
    assert Exec(s2, [m2]) == Step(s2, m2);
    assert Exec(s1, [m1, m2]) == Exec(s2, [m2]);
  }

  // ---------- letting the loops run dry ----------

  function QueueWeight(queue: Queue): (r: nat) {
    match queue
    case Empty => 0
    case Next(task, rest) => (if task.Check? then 2 else 1) + QueueWeight(rest)
  }

  function PeerWeight(peer: Peer): (r: nat) {
    QueueWeight(peer.queue) + 2 * One(peer.notify)
  }

  function Weight(st: State): (r: nat) {
    PeerWeight(st.left) + PeerWeight(st.right)
  }

  lemma {:induction false} EnqueueWeight(queue: Queue, task: Task)
    ensures QueueWeight(Enqueue(queue, task)) == QueueWeight(queue) + if task.Check? then 2 else 1
  {
    if queue.Next? {
      EnqueueWeight(queue.rest, task);
    }
  }

  lemma {:induction false} ActLowersWeight(me: Peer, partner: Peer, action: Action)
    requires Enabled(me, action) && (action == Announce || action == RunTask)
    ensures var (a, b) := Act(me, partner, action);
            PeerWeight(a) + PeerWeight(b) < PeerWeight(me) + PeerWeight(partner)
  {
    if action == Announce {
      EnqueueWeight(partner.queue, Wake);
    } else if me.queue.task.Check? {
      var id := me.queue.task.id;
      EnqueueWeight(partner.queue, if me.writable then DoRead(id) else MarkPending(id));
    }
  }

  /** The next announcement or task, if any is left. */
  function NextMove(st: State): (r: Option<Move>)
    ensures r.Some? ==> Enabled(Mine(st, r.value.side), r.value.action)
    ensures r.Some? ==> r.value.action == Announce || r.value.action == RunTask
    ensures r.None? <==> !st.left.notify && !st.right.notify && st.left.queue == Empty && st.right.queue == Empty
  {
    if st.left.notify then Some(Move(Left, Announce))
    else if st.right.notify then Some(Move(Right, Announce))
    else if st.left.queue.Next? then Some(Move(Left, RunTask))
    else if st.right.queue.Next? then Some(Move(Right, RunTask))
    else None
  }

  /** Both loops run, with no new events, until nothing is left to announce or run. */
  function Settle(st: State): (r: State)
    decreases Weight(st)
  {
    var next := NextMove(st);
    if next.None? then st
    else
      ActLowersWeight(Mine(st, next.value.side), Theirs(st, next.value.side), next.value.action);
      Settle(Step(st, next.value))
  }

  /** What settling leaves alone. */
  predicate SameOutside(a: Peer, b: Peer) {
    && a.attached == b.attached && a.writable == b.writable && a.requested == b.requested
    && a.lost == b.lost && a.seen == b.seen && a.dropped == b.dropped
  }

  lemma {:induction false} QuietMove(st: State, move: Move)
    requires Enabled(Mine(st, move.side), move.action) && (move.action == Announce || move.action == RunTask)
    ensures Weight(Step(st, move)) < Weight(st)
    ensures SameOutside(st.left, Step(st, move).left) && SameOutside(st.right, Step(st, move).right)
  {
    ActLowersWeight(Mine(st, move.side), Theirs(st, move.side), move.action);
    ActInside(Mine(st, move.side), Theirs(st, move.side), move.action);
  }

  lemma {:induction false} ActInside(me: Peer, partner: Peer, action: Action)
    requires Enabled(me, action) && (action == Announce || action == RunTask)
    ensures var (a, b) := Act(me, partner, action); SameOutside(me, a) && SameOutside(partner, b)
  {
  }

  lemma {:induction false} SettleKeeps(st: State)
    requires Inv(st)
    ensures Inv(Settle(st)) && NextMove(Settle(st)).None?
    decreases Weight(st)
  {
    var next := NextMove(st);
    if next.Some? {
      QuietMove(st, next.value);
      StepKeeps(st, next.value);
      SettleKeeps(Step(st, next.value));
    }
  }

  lemma {:induction false} SettleKeepsOutside(st: State)
    ensures SameOutside(st.left, Settle(st).left) && SameOutside(st.right, Settle(st).right)
    decreases Weight(st)
  {
    var next := NextMove(st);
    if next.Some? {
      QuietMove(st, next.value);
      SettleKeepsOutside(Step(st, next.value));
    }
  }

  /** From every reachable state, letting the loops run delivers everything seen, in order, and
      forwards every read whose partner is writable, except those made before it had a context. */
  lemma {:induction false} NothingIsStuck(st: State, moves: seq<Move>, side: Side)
    requires Fresh(st.left) && Fresh(st.right) && ValidRun(st, moves)
    ensures var now := Exec(st, moves);
            var end := Settle(now);
            var me, partner := Mine(end, side), Theirs(end, side);
            && me.seen == Mine(now, side).seen && me.seen == me.dropped + partner.done
            && (Theirs(now, side).writable ==>
                  !me.pendingRead && forall id: nat :: id < Mine(now, side).requested ==>
                    (id in me.forwarded <==> id >= EarlyReads(moves, side)))
  {
    var now := Exec(st, moves);
    Reachable(st, moves);
    SettleKeeps(now);
    SettleKeepsOutside(now);
    var end := Settle(now);
    var me, partner := Mine(end, side), Theirs(end, side);
    assert partner.done + [] == partner.done;
    forall id: nat | Theirs(now, side).writable && id < me.requested
      ensures id in me.forwarded <==> id >= EarlyReads(moves, side)
    {
      LostExactlyEarly(st, moves, side, id);
      assert Placed(end.left, end.right, id) && Placed(end.right, end.left, id);
    }
  }
}
