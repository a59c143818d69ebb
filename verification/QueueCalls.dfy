/**
 The queue seen from its callers: each push and each pop takes effect at one of its own steps, by
 appending its value, by removing the front, or by being refused, and answers accordingly.
 */
module QueueCalls {
  import opened Options
  import opened QueueMachine
  import opened QueueProofs

  // ---- Any step of a call ----

  ghost predicate InPush<T>(pc: Pc<T>) {
    pc.PushLoad? || pc.PushSeq? || pc.PushCas? || pc.PushWrite? || pc.PushPublish?
  }

  ghost predicate InPop<T>(pc: Pc<T>) {
    pc.PopLoad? || pc.PopSeq? || pc.PopCas? || pc.PopRead? || pc.PopRecycle?
  }

  /** The slot of the head still serves the ticket one turn earlier. */
  ghost predicate NotRecycled<T>(st: State<T>)
    requires |st.ring| > 0
  {
    st.head >= |st.ring| && Ticket(st, st.head % |st.ring|) == st.head - |st.ring|
  }

  /** The ticket of the tail is not published. */
  ghost predicate NotPublished<T>(st: State<T>)
    requires |st.ring| > 0
  {
    !(Filled(st, st.tail % |st.ring|) && Ticket(st, st.tail % |st.ring|) == st.tail)
  }

  /**
   Whatever a push is about to do: it is refused if and only if it stands at its load of the
   sequence number, at the head, and the ticket one turn before is not recycled; it succeeds if and only
   if it publishes; and otherwise it goes on with the same value.
   */
  lemma PushStep<T>(st: State<T>, m: Move<T>)
    requires Inv(st) && m.id < |st.threads| && InPush(st.threads[m.id])
    ensures var pc, pc' := st.threads[m.id], Step(st, m).threads[m.id];
            && (pc' == Ready(Pushed(false)) <==> pc.PushSeq? && pc.pos == st.head && NotRecycled(st))
            && (pc' == Ready(Pushed(true)) <==> pc.PushPublish?)
            && (pc' == Ready(Pushed(false)) || pc' == Ready(Pushed(true)) || (InPush(pc') && pc'.v == pc.v))
  {
    if st.threads[m.id].PushSeq? {
      RefusedPush(st, m);
    }
    hide Inv;
  }

  /** The same for a pop, which succeeds if and only if it recycles its slot. */
  lemma PopStep<T>(st: State<T>, m: Move<T>)
    requires Inv(st) && m.id < |st.threads| && InPop(st.threads[m.id])
    ensures var pc, pc' := st.threads[m.id], Step(st, m).threads[m.id];
            && (pc' == Ready(Popped(None)) <==> pc.PopSeq? && pc.pos == st.tail && NotPublished(st))
            && ((pc'.Ready? && pc'.out.Popped? && pc'.out.value.Some?) <==> pc.PopRecycle?)
            && ((pc'.Ready? && pc'.out.Popped?) || InPop(pc'))
  {
    if st.threads[m.id].PopSeq? {
      RefusedPop(st, m);
    }
    hide Inv;
  }

  // ---- Histories ----

  datatype Event<+T> = Appended(id: nat, v: T) | Removed(id: nat, v: T) | PushRefused(id: nat) | PopRefused(id: nat)

  ghost function Replay<T>(init: seq<T>, log: seq<Event<T>>): seq<T> {
    if log == [] then init
    else
      var q := Replay(init, log[..|log| - 1]);
      match log[|log| - 1]
      case Appended(_, v) => q + [v]
      case Removed(_, _) => if q == [] then [] else q[1..]
      case _ => q
  }

  /** Every removal takes the front. */
  ghost predicate Legal<T>(init: seq<T>, log: seq<Event<T>>) {
    forall i: nat | i < |log| && log[i].Removed? :: var q := Replay(init, log[..i]); q != [] && q[0] == log[i].v
  }

  /** The call has not taken effect. */
  ghost predicate Pending<T>(pc: Pc<T>) {
    pc.PushLoad? || pc.PushSeq? || pc.PushCas? || pc.PopLoad? || pc.PopSeq? || pc.PopCas?
  }

  ghost function Commit<T>(st: State<T>, m: Move<T>): seq<Event<T>>
    requires |st.ring| > 0
  {
    if m.id >= |st.threads| || !Pending(st.threads[m.id]) then [] else
      var pc, pc', st' := st.threads[m.id], Step(st, m).threads[m.id], Step(st, m);
      if |st'.log| > |st.log| then [Appended(m.id, st'.log[|st.log|])]
      else if st'.tail > st.tail && st.tail < |st.log| then [Removed(m.id, st.log[st.tail])]
      else if pc'.Ready? then [if InPush(pc) then PushRefused(m.id) else PopRefused(m.id)]
      else []
  }

  ghost function History<T>(st: State<T>, moves: seq<Move<T>>): seq<Event<T>>
    requires |st.ring| > 0
  {
    if moves == [] then []
    else History(st, moves[..|moves| - 1]) + Commit(Run(st, moves[..|moves| - 1]), moves[|moves| - 1])
  }

  /** What the last event of a thread says it answers. */
  ghost function Outcome<T>(log: seq<Event<T>>, id: nat): Output<T> {
    if log == [] then Nothing
    else
      var e := log[|log| - 1];
      if e.id != id then Outcome(log[..|log| - 1], id)
      else
        match e
        case Appended(_, _) => Pushed(true)
        case Removed(_, v) => Popped(Some(v))
        case PushRefused(_) => Pushed(false)
        case PopRefused(_) => Popped(None)
  }

  /** A thread at rest has answered, and one past its effect will answer, what its last event says. */
  ghost predicate Answers<T>(st: State<T>, pc: Pc<T>, log: seq<Event<T>>, id: nat) {
    match pc
    case Ready(out) => out == Outcome(log, id)
    case PushWrite(_, _) => Outcome(log, id) == Pushed(true)
    case PushPublish(_, _) => Outcome(log, id) == Pushed(true)
    case PopRead(pos) => pos < |st.log| && Outcome(log, id) == Popped(Some(st.log[pos]))
    case PopRecycle(_, v) => Outcome(log, id) == Popped(Some(v))
    case _ => true
  }

  /** A call takes effect exactly once, on the step on which it stops being pending; a push with its own value. */
  lemma CommitsOnce<T>(st: State<T>, m: Move<T>)
    requires Inv(st) && m.id < |st.threads|
    ensures var pc, pc' := st.threads[m.id], Step(st, m).threads[m.id];
            && (|Commit(st, m)| == 1 <==> Pending(pc) && !Pending(pc'))
            && (!Pending(pc) && Pending(pc') ==> pc.Ready? && !m.op.Rest?)
            && (forall e | e in Commit(st, m) ::
                  && e.id == m.id
                  && (e.Appended? ==> InPush(pc) && e.v == pc.v && InPush(pc'))
                  && (e.Removed? ==> InPop(pc) && InPop(pc')))
  {
    StepRefinesFifo(st, m);
    assert ThreadOk(st, st.threads[m.id]);
    hide SlotOk, Occupancy, OutsOk;
  }

  lemma StepCommits<T>(st: State<T>, m: Move<T>)
    requires Inv(st)
    ensures |st.ring| > 0 && |Commit(st, m)| <= 1 && st.tail <= st.head == |st.log|
    ensures Inv(Step(st, m)) && Step(st, m).Abstract() == Replay(st.Abstract(), Commit(st, m))
    ensures forall e | e in Commit(st, m) && e.Removed? :: st.Abstract() != [] && e.v == st.Abstract()[0]
  {
    StepRefinesFifo(st, m);
    if m.id < |st.threads| {
      assert ThreadOk(st, st.threads[m.id]);
    }
    hide SlotOk, Occupancy, OutsOk, ThreadOk;
  }

  lemma OutcomeAppend<T>(log: seq<Event<T>>, more: seq<Event<T>>, id: nat)
    requires |more| <= 1
    ensures Outcome(log + more, id) ==
            if more == [] || more[0].id != id then Outcome(log, id)
            else match more[0]
                 case Appended(_, _) => Pushed(true)
                 case Removed(_, v) => Popped(Some(v))
                 case PushRefused(_) => Pushed(false)
                 case PopRefused(_) => Popped(None)
  {
    if more == [] {
      assert log + more == log;
    } else {
      assert (log + more)[..|log + more| - 1] == log;
    }
  }

  lemma PushAnswer<T>(st: State<T>, m: Move<T>, log: seq<Event<T>>)
    requires Inv(st) && m.id < |st.threads| && Answers(st, st.threads[m.id], log, m.id)
    requires InPush(st.threads[m.id]) || st.threads[m.id].Ready?
    ensures Answers(Step(st, m), Step(st, m).threads[m.id], log + Commit(st, m), m.id)
  {
    StepCommits(st, m);
    OutcomeAppend(log, Commit(st, m), m.id);
    CommitsOnce(st, m);
    if InPush(st.threads[m.id]) {
      PushStep(st, m);
    }
    hide Inv, Outcome, Step, Replay, Ticket, Filled, NotRecycled;
    PushBegins(st, m);
  }

  lemma PushBegins<T>(st: State<T>, m: Move<T>)
    requires m.id < |st.threads| && |st.ring| > 0
    ensures var pc, pc' := st.threads[m.id], Step(st, m).threads[m.id];
            && (pc.Ready? ==> pc' == (match m.op case Rest => pc case StartPush(v) => PushLoad(v) case StartPop => PopLoad))
            && (pc.PushWrite? ==> pc'.PushPublish?) && (pc.PushPublish? ==> pc' == Ready(Pushed(true)))
            && (Pending(pc) && InPush(pc) && !Pending(pc') ==>
                  if pc'.PushWrite? then |Step(st, m).log| > |st.log|
                  else pc' == Ready(Pushed(false)) && Step(st, m).log == st.log && Step(st, m).tail == st.tail)
  {
  }

  lemma PopAnswer<T>(st: State<T>, m: Move<T>, log: seq<Event<T>>)
    requires Inv(st) && m.id < |st.threads| && Answers(st, st.threads[m.id], log, m.id)
    requires InPop(st.threads[m.id])
    ensures Answers(Step(st, m), Step(st, m).threads[m.id], log + Commit(st, m), m.id)
  {
    StepCommits(st, m);
    OutcomeAppend(log, Commit(st, m), m.id);
    CommitsOnce(st, m);
    PopReturnsTicketValue(st, m);
    PopGoesOn(st, m);
    hide Inv, Outcome, Step, Replay, Exec;
  }

  lemma PopGoesOn<T>(st: State<T>, m: Move<T>)
    requires Inv(st) && m.id < |st.threads| && InPop(st.threads[m.id])
    ensures var pc, pc' := st.threads[m.id], Step(st, m).threads[m.id];
            && Step(st, m).log == st.log
            && (pc.PopRead? ==> pc.pos < |st.log| && pc' == PopRecycle(pc.pos, st.log[pc.pos]))
            && (Pending(pc) && !Pending(pc') ==>
                  if pc'.PopRead? then pc'.pos == st.tail < |st.log| && Step(st, m).tail > st.tail
                  else pc' == Ready(Popped(None)) && Step(st, m).tail == st.tail)
  {
    var pc := st.threads[m.id];
    assert ThreadOk(st, pc);
    StepRefinesFifo(st, m);
    if pc.PopRead? {
      SlotFacts(st, pc.pos);
    }
    hide SlotOk, Occupancy, OutsOk;
  }

  lemma StepAnswers<T>(st: State<T>, m: Move<T>, log: seq<Event<T>>, id: nat)
    requires Inv(st) && id < |st.threads| && Answers(st, st.threads[id], log, id)
    ensures Answers(Step(st, m), Step(st, m).threads[id], log + Commit(st, m), id)
  {
    if m.id == id {
      if InPop(st.threads[id]) {
        PopAnswer(st, m, log);
      } else {
        PushAnswer(st, m, log);
      }
    } else {
      StepCommits(st, m);
      OutcomeAppend(log, Commit(st, m), id);
      if m.id < |st.threads| {
        CommitsOnce(st, m);
        LogGrows(st, m);
      }
      hide Inv, Outcome, Exec, Replay;
    }
  }

  lemma LogGrows<T>(st: State<T>, m: Move<T>)
    requires |st.ring| > 0
    ensures |st.log| <= |Step(st, m).log| && Step(st, m).log[..|st.log|] == st.log
  {
  }

  lemma ReplayAppend<T>(init: seq<T>, log: seq<Event<T>>, more: seq<Event<T>>)
    requires |more| <= 1
    ensures Replay(init, log + more) == Replay(Replay(init, log), more)
    ensures Legal(init, log) && (forall e | e in more && e.Removed? :: Replay(init, log) != [] && e.v == Replay(init, log)[0]) ==> Legal(init, log + more)
  {
    var both := log + more;
    if more == [] {
      assert both == log;
    } else {
      assert both[..|both| - 1] == log && more[..0] == [];
      forall i: nat | i < |log| ensures both[..i] == log[..i] && both[i] == log[i] {
      }
    }
  }

  /** Any run is a legal history of a FIFO, ends with its contents, and every call answers what the history says. */
  lemma {:induction false} Linearizes<T>(st: State<T>, moves: seq<Move<T>>, id: nat)
    requires Inv(st) && id < |st.threads| && st.threads[id] == Ready(Nothing)
    ensures Inv(Run(st, moves)) && |st.ring| > 0 && st.tail <= st.head == |st.log|
    ensures Legal(st.Abstract(), History(st, moves))
    ensures Run(st, moves).Abstract() == Replay(st.Abstract(), History(st, moves))
    ensures Answers(Run(st, moves), Run(st, moves).threads[id], History(st, moves), id)
  {
    RunKeepsInv(st, moves);
    if moves != [] {
      hide Inv, Step, Answers, Commit, Legal;
      var n := |moves| - 1;
      var before := Run(st, moves[..n]);
      Linearizes(st, moves[..n], id);
      StepCommits(before, moves[n]);
      ReplayAppend(st.Abstract(), History(st, moves[..n]), Commit(before, moves[n]));
      StepAnswers(before, moves[n], History(st, moves[..n]), id);
    }
  }
}
