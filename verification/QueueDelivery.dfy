/** Downloads and clean-up: who may take a result, and when a job may disappear. */
module QueueDelivery {
  import opened Wrappers
  import opened QueueMachine
  import opened QueueInvariant
  import opened QueueLifeCycle

  /** A flag is set exactly when a MarkDownloaded on some copy of its job has returned true. */
  ghost predicate Marked(s: State)
    requires Addressed(s)
  {
    forall a :: 0 <= a < |s.heap| ==> (s.marks[s.heap[a].downloaded] <==> s.heap[a].id in s.wins)
  }

  ghost predicate Won(s: State) {
    && Distinct(s.wins)
    && (forall id :: id in s.wins ==> Stage(s.log, id) == Succeeded)
    && (forall id :: id in s.serving || id in s.served ==> id in s.wins)
    && s.processed + |s.serving| <= |s.wins|
  }

  /** Terminal publications carry a completion time, the others none. */
  ghost predicate Dated(log: seq<Publication>) {
    forall k :: 0 <= k < |log| ==>
      if log[k].job.status.Terminal() then Judged(log[k].job) else log[k].job.completedAt == None
  }

  /** Some result of id is at least maxAge old. */
  ghost predicate Aged(c: Config, s: State, id: string) {
    exists k :: 0 <= k < |s.log| && s.log[k].job.id == id && Ripe(c, s.now, s.log[k].job)
  }

  predicate Ripe(c: Config, now: int, job: Record) {
    job.status.Terminal() && job.completedAt.Some? && now - job.completedAt.value >= c.maxAge
  }

  /** A directory or a record goes only after a complete download or at its age. */
  ghost predicate Retained(c: Config, s: State) {
    forall id :: id in s.removedDirs || id in s.deleting ==> id in s.served || Aged(c, s, id)
  }

  lemma StepDated(c: Config, s: State, e: Event)
    requires Addressed(s) && Snapshots(s) && Dated(s.log) && Enabled(c, s, e)
    ensures Dated(Next(c, s, e).log)
  {
    match e
    case Tick(_) =>
    case Submit(a) =>
      if a.StoreQueued? {
        assert Next(c, s, e).log == s.log + [Publication(s.submitter.job, s.heap[s.submitter.job])];
      }
    case Work(w) => WorkLog(s, w);
    case Client(x) => ClientFrame(c, s, x);
  }

  // At most one download

  lemma SubmitMarked(c: Config, s: State, a: SubmitStep)
    requires Addressed(s) && Frozen(s.heap, s.log) && Marked(s) && Won(s) && MaySubmit(c, s, a)
    ensures Addressed(SubmitNext(c, s, a)) && Marked(SubmitNext(c, s, a))
  {
    SubmitNames(c, s, a);
    if a.Admit? {
      StageUnseen(s.log, a.id);
    }
  }

  lemma WorkMarked(s: State, w: WorkStep)
    requires Addressed(s) && Marked(s) && MayWork(s, w)
    ensures Addressed(WorkNext(s, w)) && Marked(WorkNext(s, w))
  {
    WorkNames(s, w);
  }

  lemma ClientMarked(c: Config, s: State, x: ClientStep)
    requires Addressed(s) && Copies(s.heap) && Marked(s) && MayDo(c, s, x)
    ensures Addressed(ClientNext(c, s, x)) && Marked(ClientNext(c, s, x))
  {
    ClientFrame(c, s, x);
  }

  lemma SubmitWon(c: Config, s: State, a: SubmitStep)
    requires Addressed(s) && TrailOfSubmitted(s) && Won(s) && MaySubmit(c, s, a)
    ensures Won(SubmitNext(c, s, a))
  {
    var t := SubmitNext(c, s, a);
    if a.StoreQueued? {
      forall id { Extend(s.log, t.log[|s.log|], id); }
    }
  }

  lemma WorkWon(s: State, w: WorkStep)
    requires Addressed(s) && TrailOfWorked(s) && Won(s) && MayWork(s, w)
    ensures Won(WorkNext(s, w))
  {
    var t := WorkNext(s, w);
    forall id | id in t.wins ensures Stage(t.log, id) == Succeeded {
      WorkStage(s, w, id);
    }
  }

  /** The compare-and-swap on the shared flag lets only the first of all copies through. */
  lemma MarkWon(c: Config, s: State, k: nat)
    requires Addressed(s) && Frozen(s.heap, s.log) && Legal(s.log) && Marked(s) && Won(s) && MayDo(c, s, Mark(k))
    ensures Won(ClientNext(c, s, Mark(k)))
  {
    hide Stage;
    StageDone(s.log, k);
    var job := s.heap[s.log[k].addr];
    if !s.marks[job.downloaded] {
      assert job.id !in s.wins;
      assert job.id !in s.serving;
    }
  }

  lemma ServeWon(c: Config, s: State, id: string, complete: bool, internal: bool)
    requires Addressed(s) && Won(s) && MayDo(c, s, Serve(id, complete, internal))
    ensures Won(ClientNext(c, s, Serve(id, complete, internal)))
  {
    hide Stage;
  }

  lemma ClientWon(c: Config, s: State, x: ClientStep)
    requires Addressed(s) && Frozen(s.heap, s.log) && Legal(s.log) && Marked(s) && Won(s) && MayDo(c, s, x)
    ensures Won(ClientNext(c, s, x))
  {
    hide Stage, Marked, Legal, Frozen;
    match x
    case Mark(k) => MarkWon(c, s, k);
    case Serve(id, complete, internal) => ServeWon(c, s, id, complete, internal);
    case _ =>
  }

  lemma StepWon(c: Config, s: State, e: Event)
    requires Inv(s) && Trails(s) && Marked(s) && Won(s) && Enabled(c, s, e)
    ensures Addressed(Next(c, s, e)) && Marked(Next(c, s, e)) && Won(Next(c, s, e))
  {
    match e
    case Tick(_) =>
    case Submit(a) =>
      SubmitMarked(c, s, a);
      SubmitWon(c, s, a);
    case Work(w) =>
      WorkMarked(s, w);
      WorkWon(s, w);
    case Client(x) =>
      ClientMarked(c, s, x);
      ClientWon(c, s, x);
  }

  // No early clean-up

  lemma AgedStays(c: Config, s: State, t: State, id: string)
    requires Aged(c, s, id) && s.log <= t.log && s.now <= t.now
    ensures Aged(c, t, id)
  {
    var k :| 0 <= k < |s.log| && s.log[k].job.id == id && Ripe(c, s.now, s.log[k].job);
    assert t.log[k] == s.log[k] && Ripe(c, t.now, t.log[k].job);
  }

  /** Histories only grow. */
  ghost predicate Grown(s: State, t: State) {
    && s.log <= t.log && s.now <= t.now && s.accepted <= t.accepted
    && s.served <= t.served && s.deleting <= t.deleting
  }

  lemma SubmitGrows(c: Config, s: State, a: SubmitStep)
    requires Addressed(s) && MaySubmit(c, s, a)
    ensures Grown(s, SubmitNext(c, s, a))
  {
  }

  lemma WorkGrows(s: State, w: WorkStep)
    requires Addressed(s) && MayWork(s, w)
    ensures Grown(s, WorkNext(s, w))
  {
  }

  lemma Grows(c: Config, s: State, e: Event)
    requires Addressed(s) && Enabled(c, s, e)
    ensures Grown(s, Next(c, s, e))
  {
    match e
    case Tick(_) =>
    case Submit(a) => SubmitGrows(c, s, a);
    case Work(w) => WorkGrows(s, w);
    case Client(x) =>
  }

  lemma ClientRetained(c: Config, s: State, x: ClientStep)
    requires Addressed(s) && Frozen(s.heap, s.log) && Dated(s.log) && Retained(c, s) && MayDo(c, s, x)
    ensures forall id :: id in ClientNext(c, s, x).removedDirs || id in ClientNext(c, s, x).deleting ==>
                           id in s.served || Aged(c, s, id)
  {
    match x
    case RemoveDir(k, cause) =>
      assert cause.Expired? ==> Ripe(c, s.now, s.log[k].job);
    case DeleteRecord(k, cause) =>
      assert cause.Expired? ==> Ripe(c, s.now, s.log[k].job);
    case _ =>
  }

  lemma StepRetained(c: Config, s: State, e: Event)
    requires Addressed(s) && Frozen(s.heap, s.log) && Dated(s.log) && Retained(c, s) && Enabled(c, s, e)
    ensures Retained(c, Next(c, s, e))
  {
    Grows(c, s, e);
    var t := Next(c, s, e);
    forall id | id in t.removedDirs || id in t.deleting
      ensures id in t.served || Aged(c, t, id)
    {
      if e.Client? {
        ClientRetained(c, s, e.x);
      }
      assert id in s.served || Aged(c, s, id);
      if Aged(c, s, id) {
        AgedStays(c, s, t, id);
      }
    }
  }
}
