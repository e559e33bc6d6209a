/** The queue never gets stuck, and every job accepted comes to its end. */
module QueueProgress {
  import opened Wrappers
  import opened JobQueue
  import opened QueueMachine
  import opened QueueInvariant
  import opened QueueFairness
  import opened QueueLifeCycle
  import opened QueueRefinement
  import opened QueueTheorems

  /** A step that brings an accepted job nearer its end. */
  predicate Moves(e: Event) {
    (e.Submit? && !e.a.Refuse? && !e.a.Admit?) || (e.Work? && !e.w.Stop?)
  }

  function SubmitLeft(p: Submitter): nat {
    match p
    case Free => 0
    case Admitted(_) => 10
    case Stored(_) => 9
    case Listed(_) => 8
    case Counted(_) => 7
  }

  function WorkerLeft(w: Worker): nat {
    match w
    case Idle | Stopped => 0
    case Received(_) => 5
    case Removed(_) => 4
    case Running(_) => 3
    case Finished(_) => 2
    case Published(_) => 1
  }

  /** How many such steps are left. */
  function Left(s: State): nat {
    SubmitLeft(s.submitter) + 6 * |s.chan| + WorkerLeft(s.worker)
  }

  lemma SubmitUses(c: Config, s: State, a: SubmitStep)
    requires Addressed(s) && MaySubmit(c, s, a)
    ensures Left(SubmitNext(c, s, a)) == Left(s) + (if a.Refuse? then 0 else if a.Admit? then 10 else -1)
    ensures SubmitNext(c, s, a).worker == s.worker
  {
  }

  lemma WorkUses(s: State, w: WorkStep)
    requires Addressed(s) && MayWork(s, w)
    ensures Left(WorkNext(s, w)) == Left(s) - if w.Stop? then 0 else 1
    ensures !w.Stop? ==> !WorkNext(s, w).worker.Stopped?
  {
  }

  /** Each step that moves uses up exactly one; only an admission adds some, ten each. */
  lemma StepUses(c: Config, s: State, e: Event)
    requires Addressed(s) && Enabled(c, s, e)
    ensures Left(Next(c, s, e)) == Left(s) + (if Moves(e) then -1 else if e.Submit? && e.a.Admit? then 10 else 0)
    ensures Moves(e) && !s.worker.Stopped? ==> !Next(c, s, e).worker.Stopped?
  {
    match e
    case Tick(_) =>
    case Submit(a) => SubmitUses(c, s, a);
    case Work(w) => WorkUses(s, w);
    case Client(x) => ClientFrame(c, s, x);
  }

  /** The next step of whoever can take one: the holder of `mu` first. */
  function Mover(s: State): Event {
    match s.submitter
    case Admitted(_) => Submit(StoreQueued)
    case Stored(_) => Submit(List)
    case Listed(_) => Submit(Count)
    case Counted(_) => Submit(Send)
    case Free =>
      match s.worker
      case Received(_) => Work(Dequeue)
      case Removed(_) => Work(Begin)
      case Running(_) => Work(Finish(Outcome(None, JobFiles("", 0, "", 0))))
      case Finished(_) => Work(Publish)
      case Published(_) => Work(ReleaseSlot)
      case _ => Work(Receive)
  }

  /** While anything is left to do and the worker has not been stopped, some step that does it is enabled. */
  lemma NeverStuck(c: Config, s: State)
    requires Addressed(s) && Room(c, s) && Left(s) > 0 && !s.worker.Stopped?
    ensures Moves(Mover(s)) && Enabled(c, s, Mover(s))
  {
  }

  /** Nothing is left: every job ever accepted has its terminal snapshot, and no slot is taken. */
  lemma NothingLeft(c: Config, s: State, id: string)
    requires Sound(c, s) && Left(s) == 0
    ensures Past(s) == s.started == s.accepted && s.order == []
    ensures id in s.accepted ==> Complete(Trail(s.log, id))
    ensures s.inflight == map[]
  {
    assert Ahead(s) == [] && InHand(s) == [];
    assert s.started + [] == s.started;
    StageTrail(s.log, id);
    forall ip ensures ip !in s.inflight {
      assert Owners(s.heap, s.chan) == [] && Load(s)[ip] == 0;
    }
  }

  /** In whatever order such steps are taken, there are never more of them than were left. */
  lemma {:induction false} NoEndlessWork(c: Config, s: State, es: seq<Event>)
    requires Addressed(s) && Runs(c, s, es)
    requires forall i :: 0 <= i < |es| ==> Moves(es[i])
    ensures Addressed(After(c, s, es)) && |es| + Left(After(c, s, es)) == Left(s)
    decreases |es|
  {
    if es != [] {
      StepAddressed(c, s, es[0]);
      StepUses(c, s, es[0]);
      NoEndlessWork(c, Next(c, s, es[0]), es[1..]);
    }
  }

  lemma MoverStep(c: Config, s: State) returns (e: Event)
    requires Sound(c, s) && Left(s) > 0 && !s.worker.Stopped?
    ensures Moves(e) && Addressed(s) && Enabled(c, s, e)
    ensures var t := Next(c, s, e);
            Sound(c, t) && !t.worker.Stopped? && Left(t) == Left(s) - 1
  {
    e := Mover(s);
    NeverStuck(c, s);
    StepUses(c, s, e);
    StepSound(c, s, e);
  }

  /** A run of moves that leaves nothing to do. */
  ghost predicate Drains(c: Config, s: State, es: seq<Event>) {
    Addressed(s) && Runs(c, s, es) && |es| == Left(s) && forall i :: 0 <= i < |es| ==> Moves(es[i])
  }

  lemma DrainsFirst(c: Config, s: State, e: Event, es: seq<Event>)
    requires Addressed(s) && Enabled(c, s, e) && Moves(e)
    requires Drains(c, Next(c, s, e), es) && Left(Next(c, s, e)) == Left(s) - 1
    ensures Drains(c, s, [e] + es)
  {
    RunFirst(c, s, e, es);
  }

  /** Take every step that is left. */
  lemma {:induction false} Drain(c: Config, s: State) returns (es: seq<Event>)
    requires Sound(c, s) && !s.worker.Stopped?
    ensures Drains(c, s, es)
    decreases Left(s)
  {
    if Left(s) == 0 {
      es := [];
    } else {
      var e := MoverStep(c, s);
      var rest := Drain(c, Next(c, s, e));
      DrainsFirst(c, s, e, rest);
      es := [e] + rest;
    }
  }

  /**
   Whatever was done so far, the steps that are left bring every accepted job to its end: exactly
   so many of them, with no new submission, and no download or clean-up, needed.
   */
  lemma EveryJobEnds(c: Config, s: State) returns (es: seq<Event>)
    requires Sound(c, s) && !s.worker.Stopped?
    ensures Drains(c, s, es)
    ensures var t := After(c, s, es);
            && s.accepted <= t.accepted
            && (forall id :: id in t.accepted ==> Complete(Trail(t.log, id)))
            && t.inflight == map[] && t.order == []
  {
    es := Drain(c, s);
    var t := After(c, s, es);
    NoEndlessWork(c, s, es);
    RunSound(c, s, es);
    RunGrows(c, s, es);
    forall id | id in t.accepted ensures Complete(Trail(t.log, id)) {
      NothingLeft(c, t, id);
    }
    NothingLeft(c, t, "");
  }
}
