/**
 Back-pressure between two glued channels: a read is let through only while the other side is
 writable, and held back otherwise, in every interleaving of the two loops.
 */
module GluePressure {
  import opened Glue

  /** Of the reads requested on one side: those the partner's loop has checked, and those it has granted,
      either because the partner was writable when the check ran, or because the partner announced later
      that it was writable. */
  datatype History = History(checked: set<nat>, granted: set<nat>)

  const NOTHING: History := History({}, {})

  /** What a step of the partner adds to the history. */
  function NoteTheirs(partner: Peer, action: Action, h: History): (r: History)
    requires Enabled(partner, action)
  {
    match action
    case RunTask =>
      (match partner.queue.task
       case Check(id) => History(h.checked + {id}, if partner.writable then h.granted + {id} else h.granted)
       case _ => h)
    case Announce => if partner.attached && partner.writable then h.(granted := h.granted + h.checked) else h
    case _ => h
  }

  function Note(st: State, move: Move, side: Side, h: History): (r: History)
    requires Enabled(Mine(st, move.side), move.action)
  {
    if move.side == side then h else NoteTheirs(Theirs(st, side), move.action, h)
  }

  /** The history of a run. */
  function Noted(st: State, moves: seq<Move>, side: Side, h: History): (r: History)
    requires ValidRun(st, moves)
    decreases |moves|
  {
    if moves == [] then h else Noted(Step(st, moves[0]), moves[1..], side, Note(st, moves[0], side, h))
  }

  /** Everything queued is justified: a forward by a grant, a mark by a check, and a wake-up by grants of
      all reads it will find remembered. */
  predicate QueueHeld(queue: Queue, waiting: set<nat>, h: History) {
    match queue
    case Empty => true
    case Next(DoRead(id), rest) => id in h.granted && QueueHeld(rest, waiting, h)
    case Next(MarkPending(id), rest) => id in h.checked && QueueHeld(rest, waiting + {id}, h)
    case Next(Wake, rest) => waiting <= h.granted && QueueHeld(rest, {}, h)
    case Next(_, rest) => QueueHeld(rest, waiting, h)
  }

  function WaitingAfter(waiting: set<nat>, task: Task): (r: set<nat>) {
    match task
    case MarkPending(id) => waiting + {id}
    case Wake => {}
    case _ => waiting
  }

  predicate Held(me: Peer, h: History) {
    me.forwarded <= h.granted && me.waiting <= h.checked && QueueHeld(me.queue, me.waiting, h)
  }

  predicate Marked(queue: Queue, id: nat) {
    queue.Next? && (queue.task == MarkPending(id) || Marked(queue.rest, id))
  }

  /** A read that was checked and not granted is remembered, or about to be. */
  predicate Remembers(me: Peer, h: History) {
    forall id :: id in h.checked && id !in h.granted ==> id in me.waiting || Marked(me.queue, id)
  }

  predicate Extends(h: History, more: History) {
    h.checked <= more.checked && h.granted <= more.granted
  }

  lemma {:induction false} MoreHistory(queue: Queue, waiting: set<nat>, h: History, more: History)
    requires QueueHeld(queue, waiting, h) && Extends(h, more)
    ensures QueueHeld(queue, waiting, more)
  {
    if queue.Next? {
      MoreHistory(queue.rest, WaitingAfter(waiting, queue.task), h, more);
    }
  }

  predicate MayQueue(task: Task, h: History) {
    match task
    case DoRead(id) => id in h.granted
    case MarkPending(id) => id in h.checked
    case Wake => h.checked <= h.granted
    case _ => true
  }

  lemma {:induction false} EnqueueHeld(queue: Queue, waiting: set<nat>, task: Task, h: History)
    requires QueueHeld(queue, waiting, h) && waiting <= h.checked && MayQueue(task, h)
    ensures QueueHeld(Enqueue(queue, task), waiting, h)
  {
    if queue.Next? {
      EnqueueHeld(queue.rest, WaitingAfter(waiting, queue.task), task, h);
    }
  }

  lemma {:induction false} EnqueueMarked(queue: Queue, task: Task, id: nat)
    ensures Marked(Enqueue(queue, task), id) <==> Marked(queue, id) || task == MarkPending(id)
  {
    if queue.Next? {
      EnqueueMarked(queue.rest, task, id);
    }
  }

  /** A task queued on this side's loop keeps it held. */
  lemma {:induction false} ExecuteHeld(me: Peer, task: Task, h: History, more: History)
    requires Held(me, h) && Extends(h, more) && MayQueue(task, more)
    ensures Held(Execute(me, task), more)
  {
    MoreHistory(me.queue, me.waiting, h, more);
    EnqueueHeld(me.queue, me.waiting, task, more);
  }

  lemma {:induction false} ExecuteRemembers(me: Peer, task: Task, h: History)
    requires Remembers(me, h)
    ensures Remembers(Execute(me, task), h)
  {
    forall id | id in h.checked && id !in h.granted ensures id in Execute(me, task).waiting || Marked(Execute(me, task).queue, id) {
      EnqueueMarked(me.queue, task, id);
    }
  }

  /** A step of the side itself. */
  lemma {:induction false} OwnStepHeld(me: Peer, partner: Peer, action: Action, h: History)
    requires Held(me, h) && Remembers(me, h) && FlagsAgree(me) && Enabled(me, action)
    ensures var (a, b) := Act(me, partner, action); Held(a, h) && Remembers(a, h)
  {
    var (a, b) := Act(me, partner, action);
    forall id | id in h.checked && id !in h.granted ensures id in a.waiting || Marked(a.queue, id) {
      assert id in me.waiting || Marked(me.queue, id);
    }
  }

  lemma {:induction false} CheckHeld(me: Peer, id: nat, writable: bool, h: History)
    requires Held(me, h) && Remembers(me, h) && me.attached
    ensures var more := History(h.checked + {id}, if writable then h.granted + {id} else h.granted);
            var a := Execute(me, if writable then DoRead(id) else MarkPending(id));
            Held(a, more) && Remembers(a, more)
  {
    var more := History(h.checked + {id}, if writable then h.granted + {id} else h.granted);
    var task := if writable then DoRead(id) else MarkPending(id);
    ExecuteHeld(me, task, h, more);
    var a := Execute(me, task);
    forall i | i in more.checked && i !in more.granted ensures i in a.waiting || Marked(a.queue, i) {
      EnqueueMarked(me.queue, task, i);
    }
  }

  /** A step of the partner. */
  lemma {:induction false} TheirStepHeld(me: Peer, partner: Peer, action: Action, h: History)
    requires Held(me, h) && Remembers(me, h) && QuietUntilGlued(me, partner) && Enabled(partner, action)
    ensures var (b, a) := Act(partner, me, action);
            var more := NoteTheirs(partner, action, h);
            Held(a, more) && Remembers(a, more)
  {
    match action
    case See(op) =>
      ExecuteHeld(me, Transfer(op), h, h);
      ExecuteRemembers(me, Transfer(op), h);
    case RequestRead =>
      ExecuteHeld(me, Check(partner.requested), h, h);
      ExecuteRemembers(me, Check(partner.requested), h);
    case Announce =>
      if partner.attached && partner.writable {
        var more := h.(granted := h.granted + h.checked);
        ExecuteHeld(me, Wake, h, more);
      }
    case RunTask =>
      if partner.queue.task.Check? {
        CheckHeld(me, partner.queue.task.id, partner.writable, h);
      }
    case _ =>
  }

  lemma {:induction false} StepHeld(st: State, move: Move, side: Side, h: History)
    requires Inv(st) && Enabled(Mine(st, move.side), move.action)
    requires Held(Mine(st, side), h) && Remembers(Mine(st, side), h)
    ensures var more := Note(st, move, side, h);
            var after := Mine(Step(st, move), side);
            Held(after, more) && Remembers(after, more)
  {
    PairSymmetric(st.left, st.right);
    if move.side == side {
      OwnStepHeld(Mine(st, side), Theirs(st, side), move.action, h);
    } else {
      TheirStepHeld(Mine(st, side), Theirs(st, side), move.action, h);
    }
  }

  lemma {:induction false} RunHeld(st: State, moves: seq<Move>, side: Side, h: History)
    requires Inv(st) && ValidRun(st, moves) && Held(Mine(st, side), h) && Remembers(Mine(st, side), h)
    ensures var more := Noted(st, moves, side, h);
            var end := Mine(Exec(st, moves), side);
            Held(end, more) && Remembers(end, more)
    decreases |moves|
  {
    if moves != [] {
      StepHeld(st, moves[0], side, h);
      StepKeeps(st, moves[0]);
      RunHeld(Step(st, moves[0]), moves[1..], side, Note(st, moves[0], side, h));
    }
  }

  /** In every run, a read is forwarded only if the partner was writable when it checked the read, or
      announced after that check that it had become writable. A read that was checked and not granted is
      held back: it is remembered, or its mark is still queued. */
  lemma {:induction false} ReadsAreHeld(st: State, moves: seq<Move>, side: Side)
    requires Glue.Fresh(st.left) && Glue.Fresh(st.right) && ValidRun(st, moves)
    ensures var h := Noted(st, moves, side, NOTHING);
            var end := Mine(Exec(st, moves), side);
            && end.forwarded <= h.granted
            && (forall id :: id in h.checked && id !in h.granted ==> id in end.waiting || Marked(end.queue, id))
            && (end.queue == Empty && h.checked != h.granted * h.checked ==> end.pendingRead)
  {
    Reachable(st, []);
    Reachable(st, moves);
    RunHeld(st, moves, side, NOTHING);
    var h := Noted(st, moves, side, NOTHING);
    if h.checked != h.granted * h.checked {
      var id :| id in h.checked && id !in h.granted;
    }
  }

  /** The partner of `side` is writable in none of the states of a run. */
  predicate NeverWritable(st: State, moves: seq<Move>, side: Side)
    requires ValidRun(st, moves)
    decreases |moves|
  {
    !Theirs(st, side).writable && (moves != [] ==> NeverWritable(Step(st, moves[0]), moves[1..], side))
  }

  lemma {:induction false} NothingGranted(st: State, moves: seq<Move>, side: Side, h: History)
    requires ValidRun(st, moves) && NeverWritable(st, moves, side)
    ensures Noted(st, moves, side, h).granted == h.granted
    decreases |moves|
  {
    if moves != [] {
      NothingGranted(Step(st, moves[0]), moves[1..], side, Note(st, moves[0], side, h));
    }
  }

  /** While the partner is not writable, no read is forwarded. */
  lemma {:induction false} UnwritablePartnerHoldsReads(st: State, moves: seq<Move>, side: Side)
    requires Glue.Fresh(st.left) && Glue.Fresh(st.right) && ValidRun(st, moves) && NeverWritable(st, moves, side)
    ensures Mine(Exec(st, moves), side).forwarded == {}
  {
    ReadsAreHeld(st, moves, side);
    NothingGranted(st, moves, side, NOTHING);
  }
}
