/**
 The atomic shared pointer is a register with exchange: each load and each store takes effect at
 one of its own steps, and what it answers is what the register held there.
 */
module SharedPtrHistory {
  import opened Options
  import opened TaggedPtr
  import opened SharedPtr

  datatype Event<+V> =
    | Read(id: nat, value: Option<V>)
    | Exchange(id: nat, item: Option<V>, value: Option<V>)

  // ---- The register ----

  /** The register after the events of `log`. */
  ghost function Replay<V>(init: Option<V>, log: seq<Event<V>>): Option<V> {
    if log == [] then init
    else if log[|log| - 1].Exchange? then log[|log| - 1].item
    else Replay(init, log[..|log| - 1])
  }

  /** Every event reports what the register held just before it. */
  ghost predicate Legal<V>(init: Option<V>, log: seq<Event<V>>) {
    forall i: nat | i < |log| :: log[i].value == Replay(init, log[..i])
  }

  // ---- The history of a run ----

  ghost predicate Pending<V>(pc: Pc<V>) {
    !pc.Idle? && !pc.StoreTake? && !pc.StoreFree? && !pc.Fault?
  }

  /** The event a step commits, with the value the thread goes on to answer. */
  ghost function Commit<V>(st: State<V>, m: Move<V>): seq<Event<V>> {
    if !Acts(st, m) || !Pending(st.threads[m.id]) then [] else
      match Target(st, m).pc
      case Idle(Loaded(v)) => [Read(m.id, v)]
      case Idle(Swapped(v)) => [Exchange(m.id, st.threads[m.id].item, v)]
      case StoreTake(_, was) => [Exchange(m.id, st.threads[m.id].item, Some(was))]
      case _ => []
  }

  ghost function History<V>(st: State<V>, moves: seq<Move<V>>): seq<Event<V>> {
    if moves == [] then []
    else History(st, moves[..|moves| - 1]) + Commit(Run(st, moves[..|moves| - 1]), moves[|moves| - 1])
  }

  /** What the last event of a thread says it answers. */
  ghost function Outcome<V>(log: seq<Event<V>>, id: nat): Output<V> {
    if log == [] then Nothing
    else
      match log[|log| - 1]
      case Read(i, v) => if i == id then Loaded(v) else Outcome(log[..|log| - 1], id)
      case Exchange(i, _, v) => if i == id then Swapped(v) else Outcome(log[..|log| - 1], id)
  }

  /** A thread at rest has answered, and one past its exchange will answer, what its last event says. */
  ghost predicate Answers<V>(pc: Pc<V>, log: seq<Event<V>>, id: nat) {
    match pc
    case Idle(out) => out == Outcome(log, id)
    case StoreTake(_, was) => Outcome(log, id) == Swapped(Some(was))
    case StoreFree(_, was, _) => Outcome(log, id) == Swapped(Some(was))
    case _ => true
  }

  // ---- One step ----

  /** A step changes the register exactly by committing an exchange, and whatever it commits reports the register. */
  lemma StepCommits<V>(st: State<V>, m: Move<V>)
    requires Inv(st)
    ensures |Commit(st, m)| <= 1
    ensures forall e | e in Commit(st, m) :: e.value == st.Value()
    ensures Step(st, m).Value() == Replay(st.Value(), Commit(st, m))
  {
    hide Holders, BoxOk;
    if Acts(st, m) {
      Solo(st, m.id);
      assert ThreadOk(st, st.threads[m.id]);
      if st.word.addr != 0 {
        CurrentBox(st);
      }
    }
  }

  /** An operation commits exactly once: on the step that ends its pending phase. */
  lemma CommitsOnce<V>(st: State<V>, m: Move<V>)
    requires Inv(st) && Acts(st, m)
    ensures |Commit(st, m)| == 1 <==> Pending(st.threads[m.id]) && !Pending(Target(st, m).pc)
    ensures !Pending(st.threads[m.id]) && Pending(Target(st, m).pc) ==> st.threads[m.id].Idle? && !m.op.Rest?
  {
    hide Holders, BoxOk;
    Solo(st, m.id);
    assert ThreadOk(st, st.threads[m.id]);
    if st.word.addr != 0 {
      CurrentBox(st);
    }
  }

  lemma StepAnswers<V>(st: State<V>, m: Move<V>, log: seq<Event<V>>, id: nat)
    requires Inv(st) && id < |st.threads| && Answers(st.threads[id], log, id)
    ensures Answers(Step(st, m).threads[id], log + Commit(st, m), id)
  {
    hide Holders, BoxOk;
    assert ThreadOk(st, st.threads[id]);
    var log' := log + Commit(st, m);
    if Commit(st, m) == [] {
      assert log' == log;
    } else {
      assert log'[..|log' | - 1] == log;
    }
  }

  lemma ReplayAppend<V>(init: Option<V>, log: seq<Event<V>>, more: seq<Event<V>>)
    requires |more| <= 1
    ensures Replay(init, log + more) == Replay(Replay(init, log), more)
    ensures Legal(init, log) && (forall e | e in more :: e.value == Replay(init, log)) ==> Legal(init, log + more)
  {
    var both := log + more;
    if more == [] {
      assert both == log;
    } else {
      assert both[..|both| - 1] == log && more[..0] == [];
      forall i: nat | i < |log| ensures both[..i] == log[..i] && both[i] == log[i] {
      }
    }
  }

  // ---- Whole runs ----

  /** Any run is a legal history of the register, ends with the register's value, and answers as the history says. */
  lemma {:induction false} Linearizes<V>(st: State<V>, moves: seq<Move<V>>, id: nat)
    requires Inv(st) && FewLoads(st, moves) && id < |st.threads| && st.threads[id] == Idle(Nothing)
    ensures Legal(st.Value(), History(st, moves))
    ensures Run(st, moves).Value() == Replay(st.Value(), History(st, moves))
    ensures Answers(Run(st, moves).threads[id], History(st, moves), id)
  {
    hide Inv, FewLoads, Step, Answers, Commit, Legal;
    if moves == [] {
      LinearizesNothing(st, id);
    } else {
      var n := |moves| - 1;
      var before := Run(st, moves[..n]);
      FewLoadsPrefix(st, moves, n);
      Linearizes(st, moves[..n], id);
      RunKeepsInv(st, moves[..n]);
      StepCommits(before, moves[n]);
      ReplayAppend(st.Value(), History(st, moves[..n]), Commit(before, moves[n]));
      StepAnswers(before, moves[n], History(st, moves[..n]), id);
    }
  }

  lemma LinearizesNothing<V>(st: State<V>, id: nat)
    requires id < |st.threads| && st.threads[id] == Idle(Nothing)
    ensures Legal(st.Value(), []) && Answers(st.threads[id], [], id)
  {
    assert Outcome<V>([], id) == Nothing;
  }
}
