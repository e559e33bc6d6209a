/** What is published for one job over its life, and what the job table says of it. */
module QueueLifeCycle {
  import opened Wrappers
  import opened JobQueue
  import opened QueueMachine
  import opened QueueInvariant

  /** The statuses published for id, oldest first. */
  function Trail(log: seq<Publication>, id: string): seq<Status> {
    if log == [] then []
    else
      var last := log[|log| - 1].job;
      Trail(log[..|log| - 1], id) + if last.id == id then [last.status] else []
  }

  /** queued, processing, then exactly one of done and error. */
  predicate Complete(trail: seq<Status>) {
    trail == [Queued, Processing, Done] || trail == [Queued, Processing, Error]
  }

  predicate IsLife(trail: seq<Status>) {
    trail <= [Queued, Processing] || Complete(trail)
  }

  /** The same as one state of an automaton. */
  datatype Life = Unseen | Waits | Works | Succeeded | Failed | Broken

  function Advance(life: Life, status: Status): Life {
    match (life, status)
    case (Unseen, Queued) => Waits
    case (Waits, Processing) => Works
    case (Works, Done) => Succeeded
    case (Works, Error) => Failed
    case _ => Broken
  }

  function Stage(log: seq<Publication>, id: string): Life {
    if log == [] then Unseen
    else
      var last := log[|log| - 1].job;
      var before := Stage(log[..|log| - 1], id);
      if last.id == id then Advance(before, last.status) else before
  }

  /** What each state of the automaton says of the trail. */
  predicate Describes(life: Life, trail: seq<Status>) {
    && (life != Broken <==> IsLife(trail))
    && (life == Unseen <==> trail == [])
    && (life == Waits <==> trail == [Queued])
    && (life == Works <==> trail == [Queued, Processing])
    && (life == Succeeded <==> trail == [Queued, Processing, Done])
    && (life == Failed <==> trail == [Queued, Processing, Error])
  }

  lemma Snoc(trail: seq<Status>, status: Status, front: seq<Status>, last: Status)
    ensures trail + [status] == front + [last] <==> trail == front && status == last
  {
    if trail + [status] == front + [last] {
      assert |trail| == |front|;
      assert trail == (trail + [status])[..|trail|] == (front + [last])[..|front|] == front;
      assert status == (trail + [status])[|trail|] == (front + [last])[|front|] == last;
    }
  }

  /** One publication more. */
  lemma AdvanceDescribes(life: Life, trail: seq<Status>, status: Status)
    requires Describes(life, trail)
    ensures Describes(Advance(life, status), trail + [status])
  {
    var longer := trail + [status];
    Snoc(trail, status, [], Queued);
    Snoc(trail, status, [Queued], Processing);
    Snoc(trail, status, [Queued, Processing], Done);
    Snoc(trail, status, [Queued, Processing], Error);
    assert [] + [Queued] == [Queued];
    assert [Queued] + [Processing] == [Queued, Processing];
    assert [Queued, Processing] + [Done] == [Queued, Processing, Done];
    assert [Queued, Processing] + [Error] == [Queued, Processing, Error];
    assert longer <= [Queued, Processing] <==> longer == [Queued] || longer == [Queued, Processing];
  }

  /** The automaton accepts exactly the legal trails, and tells them apart. */
  lemma {:induction false} StageTrail(log: seq<Publication>, id: string)
    ensures Describes(Stage(log, id), Trail(log, id))
  {
    if log != [] {
      var last := log[|log| - 1].job;
      var trail := Trail(log[..|log| - 1], id);
      StageTrail(log[..|log| - 1], id);
      AdvanceDescribes(Stage(log[..|log| - 1], id), trail, last.status);
      assert trail + [] == trail;
    }
  }

  /** The address published last for id. */
  function Latest(log: seq<Publication>, id: string): Option<nat> {
    if log == [] then None
    else if log[|log| - 1].job.id == id then Some(log[|log| - 1].addr)
    else Latest(log[..|log| - 1], id)
  }

  lemma Extend(log: seq<Publication>, p: Publication, id: string)
    ensures Stage(log + [p], id) == if p.job.id == id then Advance(Stage(log, id), p.job.status) else Stage(log, id)
    ensures Latest(log + [p], id) == if p.job.id == id then Some(p.addr) else Latest(log, id)
  {
    assert (log + [p])[..|log|] == log;
  }

  lemma {:induction false} StageUnseen(log: seq<Publication>, id: string)
    requires forall k :: 0 <= k < |log| ==> log[k].job.id != id
    ensures Stage(log, id) == Unseen && Latest(log, id) == None
  {
    if log != [] {
      StageUnseen(log[..|log| - 1], id);
    }
  }

  /** A done publication shows in the stage, however long ago it was. */
  lemma {:induction false} StageDone(log: seq<Publication>, k: nat)
    requires k < |log| && log[k].job.status.Terminal()
    ensures var stage := Stage(log, log[k].job.id);
            stage == Broken || stage == if log[k].job.status.Done? then Succeeded else Failed
  {
    if k < |log| - 1 {
      StageDone(log[..|log| - 1], k);
    }
  }

  // How far a job has come is where it is

  ghost predicate Legal(log: seq<Publication>) {
    forall id :: Stage(log, id) != Broken
  }

  predicate Ends(life: Life) {
    life == Succeeded || life == Failed
  }

  ghost predicate TrailOfSubmitted(s: State)
    requires Addressed(s)
  {
    !s.submitter.Free? ==>
      Stage(s.log, s.heap[s.submitter.job].id) == if s.submitter.Admitted? then Unseen else Waits
  }

  ghost predicate TrailOfQueued(s: State)
    requires Addressed(s)
  {
    forall i :: 0 <= i < |s.chan| ==> Stage(s.log, s.heap[s.chan[i]].id) == Waits
  }

  ghost predicate TrailOfWorked(s: State)
    requires Addressed(s)
  {
    && (s.worker.Received? || s.worker.Removed? ==> Stage(s.log, s.heap[s.worker.local].id) == Waits)
    && (s.worker.Running? || s.worker.Finished? ==> Stage(s.log, s.heap[s.worker.local].id) == Works)
  }

  ghost predicate TrailOfPast(s: State) {
    forall id :: id in Past(s) ==> Ends(Stage(s.log, id))
  }

  ghost predicate Trails(s: State)
    requires Addressed(s)
  {
    Legal(s.log) && TrailOfSubmitted(s) && TrailOfQueued(s) && TrailOfWorked(s) && TrailOfPast(s)
  }

  /** The table holds the latest publication of every job that was published and not deleted. */
  ghost predicate LatestIn(jobs: map<string, nat>, log: seq<Publication>, deleting: set<string>) {
    && (forall id :: id in jobs ==> Latest(log, id) == Some(jobs[id]))
    && (forall id :: id in jobs <==> Latest(log, id).Some? && id !in deleting)
  }

  ghost predicate Table(s: State) {
    LatestIn(s.jobs, s.log, s.deleting)
  }

  lemma PublishLatest(jobs: map<string, nat>, log: seq<Publication>, deleting: set<string>, p: Publication)
    requires LatestIn(jobs, log, deleting) && p.job.id !in deleting
    ensures LatestIn(jobs[p.job.id := p.addr], log + [p], deleting)
  {
    hide Latest, Stage;
    forall id ensures Latest(log + [p], id) == if p.job.id == id then Some(p.addr) else Latest(log, id) {
      Extend(log, p, id);
    }
  }

  /** IDs that are apart: the submitter's, the channel's, the worker's, the finished ones. */
  lemma Apartness(s: State)
    requires Addressed(s) && Fifo(s)
    ensures forall i :: 0 <= i < |s.chan| ==> s.heap[s.chan[i]].id in s.accepted && s.heap[s.chan[i]].id !in s.started
    ensures forall id :: id in Past(s) ==> id in s.accepted
    ensures Holds(s.worker) ==> s.heap[s.worker.local].id in s.accepted
    ensures Holds(s.worker) && !s.worker.Published? ==> s.heap[s.worker.local].id !in Past(s)
  {
    var ids := Ids(s.heap, s.chan);
    forall i | 0 <= i < |s.chan|
      ensures s.heap[s.chan[i]].id in s.accepted && s.heap[s.chan[i]].id !in s.started
    {
      assert s.accepted[|s.started| + i] == ids[i];
      assert forall j :: 0 <= j < |s.started| ==> s.accepted[j] == s.started[j];
    }
    assert forall j :: 0 <= j < |s.started| ==> s.accepted[j] == s.started[j];
  }

  lemma SubmitTrails(c: Config, s: State, a: SubmitStep)
    requires Addressed(s) && Fifo(s) && Snapshots(s) && Trails(s) && MaySubmit(c, s, a)
    ensures Addressed(SubmitNext(c, s, a)) && Trails(SubmitNext(c, s, a))
  {
    hide Stage;
    SubmitNames(c, s, a);
    var t := SubmitNext(c, s, a);
    assert Past(t) == Past(s);
    if a.Admit? {
      StageUnseen(s.log, a.id);
    } else if a.StoreQueued? {
      Apartness(s);
      forall id { Extend(s.log, t.log[|s.log|], id); }
    } else {
      assert t.log == s.log && t.heap == s.heap;
    }
  }

  /** What the worker publishes. */
  lemma WorkLog(s: State, w: WorkStep)
    requires Addressed(s) && MayWork(s, w)
    ensures var t := WorkNext(s, w);
            t.log == match w
                     case Begin => s.log + [Publication(|s.heap|, s.heap[s.worker.local].(status := Processing))]
                     case Publish => s.log + [Publication(s.worker.local, s.heap[s.worker.local])]
                     case _ => s.log
  {
  }

  lemma WorkStage(s: State, w: WorkStep, id: string)
    requires Addressed(s) && MayWork(s, w)
    ensures Stage(WorkNext(s, w).log, id) ==
              if (w.Begin? || w.Publish?) && s.heap[s.worker.local].id == id
              then Advance(Stage(s.log, id), if w.Begin? then Processing else s.heap[s.worker.local].status)
              else Stage(s.log, id)
  {
    WorkLog(s, w);
    var t := WorkNext(s, w);
    if |t.log| > |s.log| {
      Extend(s.log, t.log[|s.log|], id);
    }
  }

  lemma WorkTrailOfPast(s: State, w: WorkStep)
    requires Addressed(s) && Fifo(s) && Staged(s) && TrailOfPast(s) && TrailOfWorked(s) && MayWork(s, w)
    ensures TrailOfPast(WorkNext(s, w))
  {
    hide Stage, Past, Fifo;
    Apartness(s);
    WorkPast(s, w);
    var t := WorkNext(s, w);
    forall id | id in Past(t) ensures Ends(Stage(t.log, id)) {
      WorkStage(s, w, id);
      if id in Past(s) {
        assert Ends(Stage(s.log, id));
      } else {
        assert w.Publish? && id == s.heap[s.worker.local].id;
      }
    }
  }

  lemma WorkTrailOfQueued(s: State, w: WorkStep)
    requires Addressed(s) && Fifo(s) && TrailOfQueued(s) && MayWork(s, w)
    ensures Addressed(WorkNext(s, w)) && TrailOfQueued(WorkNext(s, w))
  {
    hide Stage;
    WorkNames(s, w);
    Apartness(s);
    var t := WorkNext(s, w);
    if w.Receive? {
      assert t.log == s.log;
      assert forall i :: 0 <= i < |t.chan| ==> t.chan[i] == s.chan[i + 1];
    } else {
      forall i | 0 <= i < |t.chan| ensures Stage(t.log, t.heap[t.chan[i]].id) == Waits {
        WorkStage(s, w, s.heap[s.chan[i]].id);
      }
    }
  }

  lemma WorkTrailOfWorked(s: State, w: WorkStep)
    requires Addressed(s) && TrailOfQueued(s) && TrailOfWorked(s) && MayWork(s, w)
    ensures Addressed(WorkNext(s, w)) && TrailOfWorked(WorkNext(s, w))
  {
    hide Stage;
    WorkNames(s, w);
    if Holds(s.worker) {
      WorkStage(s, w, s.heap[s.worker.local].id);
    } else {
      WorkLog(s, w);
    }
  }

  lemma WorkTrailOfSubmitted(s: State, w: WorkStep)
    requires Addressed(s) && Fifo(s) && TrailOfSubmitted(s) && MayWork(s, w)
    ensures Addressed(WorkNext(s, w)) && TrailOfSubmitted(WorkNext(s, w))
  {
    WorkNames(s, w);
    if !s.submitter.Free? {
      SubmitterApart(s);
      WorkStage(s, w, s.heap[s.submitter.job].id);
    }
  }

  /** The worker never holds the job that is still being submitted. */
  lemma SubmitterApart(s: State)
    requires Addressed(s) && Fifo(s) && !s.submitter.Free?
    ensures Holds(s.worker) ==> s.heap[s.worker.local].id != s.heap[s.submitter.job].id
    ensures s.heap[s.submitter.job].id !in s.started
  {
    Apartness(s);
    if s.submitter.Listed? || s.submitter.Counted? {
      assert s.accepted[|s.accepted| - 1] == s.heap[s.submitter.job].id;
    }
    assert forall j :: 0 <= j < |s.started| ==> s.accepted[j] == s.started[j];
  }

  lemma WorkLegal(s: State, w: WorkStep)
    requires Addressed(s) && Staged(s) && Legal(s.log) && TrailOfWorked(s) && MayWork(s, w)
    ensures Legal(WorkNext(s, w).log)
  {
    forall id ensures Stage(WorkNext(s, w).log, id) != Broken {
      WorkStage(s, w, id);
    }
  }

  lemma StepTrails(c: Config, s: State, e: Event)
    requires Inv(s) && Trails(s) && Enabled(c, s, e)
    ensures Addressed(Next(c, s, e)) && Trails(Next(c, s, e))
  {
    match e
    case Tick(_) =>
    case Submit(a) => SubmitTrails(c, s, a);
    case Work(w) =>
      WorkTrailOfPast(s, w);
      WorkTrailOfQueued(s, w);
      WorkTrailOfWorked(s, w);
      WorkTrailOfSubmitted(s, w);
      WorkLegal(s, w);
    case Client(x) => ClientFrame(c, s, x);
  }

  // The job table

  lemma SubmitTable(c: Config, s: State, a: SubmitStep)
    requires Addressed(s) && Fifo(s) && Ended(s) && Table(s) && MaySubmit(c, s, a)
    ensures Table(SubmitNext(c, s, a))
  {
    hide LatestIn;
    if a.StoreQueued? {
      var p := Publication(s.submitter.job, s.heap[s.submitter.job]);
      NotDeleted(s, p.job.id);
      PublishLatest(s.jobs, s.log, s.deleting, p);
    }
  }

  /** What the submitter stores and what the worker holds has not been deleted. */
  lemma NotDeleted(s: State, id: string)
    requires Addressed(s) && Fifo(s) && Ended(s)
    requires (s.submitter.Admitted? && id == s.heap[s.submitter.job].id)
             || (Holds(s.worker) && !s.worker.Published? && id == s.heap[s.worker.local].id)
    ensures id !in s.deleting
  {
    Apartness(s);
  }

  lemma WorkTable(s: State, w: WorkStep)
    requires Addressed(s) && Fifo(s) && Ended(s) && Table(s) && MayWork(s, w)
    ensures Table(WorkNext(s, w))
  {
    hide LatestIn, Fifo, Ended;
    if w.Begin? || w.Publish? {
      var job := s.heap[s.worker.local];
      NotDeleted(s, job.id);
      PublishLatest(s.jobs, s.log, s.deleting,
                    if w.Begin? then Publication(|s.heap|, job.(status := Processing))
                    else Publication(s.worker.local, job));
    }
  }

  lemma ClientTable(c: Config, s: State, x: ClientStep)
    requires Addressed(s) && Frozen(s.heap, s.log) && Table(s) && MayDo(c, s, x)
    ensures Table(ClientNext(c, s, x))
  {
    hide Latest;
    ClientFrame(c, s, x);
  }

  lemma StepTable(c: Config, s: State, e: Event)
    requires Inv(s) && Table(s) && Enabled(c, s, e)
    ensures Table(Next(c, s, e))
  {
    match e
    case Tick(_) =>
    case Submit(a) => SubmitTable(c, s, a);
    case Work(w) => WorkTable(s, w);
    case Client(x) => ClientTable(c, s, x);
  }
}
