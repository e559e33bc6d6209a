/** The promises of the queue over whole runs, from an empty queue, for every interleaving. */
module QueueTheorems {
  import opened Wrappers
  import opened JobQueue
  import opened QueueMachine
  import opened QueueInvariant
  import opened QueueFairness
  import opened QueueLifeCycle
  import opened QueueDelivery

  ghost predicate Sound(c: Config, s: State) {
    && Inv(s)
    && Accounts(c, s) && Room(c, s)
    && Trails(s) && Table(s) && Dated(s.log)
    && Marked(s) && Won(s) && Retained(c, s)
  }

  lemma InitInv(now: int)
    ensures Inv(Init(now))
  {
    assert Ids(Init(now).heap, Init(now).chan) == [];
  }

  lemma InitAccounts(c: Config, now: int)
    ensures Accounts(c, Init(now)) && Room(c, Init(now))
  {
    assert Owners(Init(now).heap, Init(now).chan) == [];
  }

  lemma InitTrails(now: int)
    ensures Trails(Init(now)) && Table(Init(now)) && Dated(Init(now).log)
  {
  }

  lemma InitDelivery(c: Config, now: int)
    ensures Marked(Init(now)) && Won(Init(now)) && Retained(c, Init(now))
  {
  }

  lemma InitSound(c: Config, now: int)
    ensures Sound(c, Init(now))
  {
    hide Inv, Accounts, Room, Trails, Table, Dated, Marked, Won, Retained;
    InitInv(now);
    InitAccounts(c, now);
    InitTrails(now);
    InitDelivery(c, now);
  }

  lemma StepSound(c: Config, s: State, e: Event)
    requires Sound(c, s) && Enabled(c, s, e)
    ensures Sound(c, Next(c, s, e))
  {
    StepFifo(c, s, e);
    StepMirrors(c, s, e);
    StepEnded(c, s, e);
    StepCopies(c, s, e);
    StepSnapshots(c, s, e);
    StepFairness(c, s, e);
    StepTrails(c, s, e);
    StepTable(c, s, e);
    StepDated(c, s, e);
    StepWon(c, s, e);
    StepRetained(c, s, e);
  }

  /** What holds of a state is kept by every run from it. */
  lemma {:induction false} RunSound(c: Config, s: State, es: seq<Event>)
    requires Sound(c, s) && Runs(c, s, es)
    ensures Sound(c, After(c, s, es))
    decreases |es|
  {
    if es != [] {
      StepSound(c, s, es[0]);
      RunSound(c, Next(c, s, es[0]), es[1..]);
    }
  }

  /** Reachable from an empty queue. */
  ghost predicate Reachable(c: Config, s: State) {
    exists now: int, es: seq<Event> :: Runs(c, Init(now), es) && After(c, Init(now), es) == s
  }

  lemma ReachableSound(c: Config, s: State)
    requires Reachable(c, s)
    ensures Sound(c, s)
  {
    var now: int, es: seq<Event> :| Runs(c, Init(now), es) && After(c, Init(now), es) == s;
    InitSound(c, now);
    RunSound(c, Init(now), es);
  }

  // Submission

  /** The send that Submit makes while it holds `mu` never waits. */
  lemma SendNeverBlocks(c: Config, s: State)
    requires Reachable(c, s) && s.submitter.Counted?
    ensures Addressed(s) && Enabled(c, s, Submit(Send))
  {
    ReachableSound(c, s);
  }

  /** The slots of a client are its unfinished jobs, never more than the limit. */
  lemma SlotsAreExact(c: Config, s: State, ip: string)
    requires Reachable(c, s) && ip != ""
    ensures Addressed(s)
    ensures InFlight(s.inflight, ip) == Load(s)[ip] <= PerClientLimit(c.maxSize)
    ensures ip in s.inflight <==> Load(s)[ip] > 0
  {
    ReachableSound(c, s);
  }

  /** When the worker gives a slot back, that slot was taken. */
  lemma ReleaseIsOwed(c: Config, s: State)
    requires Reachable(c, s) && Addressed(s) && s.worker.Published?
    ensures var ip := s.heap[s.worker.local].ownerIP;
            ip != "" ==> ip in s.inflight && s.inflight[ip] >= 1
  {
    var ip := s.heap[s.worker.local].ownerIP;
    if ip != "" {
      SlotsAreExact(c, s, ip);
      assert Load(s)[ip] >= HeldBy(s)[ip] == 1;
    }
  }

  // First in, first out

  /** Jobs start in the order in which they were submitted, each at most once. */
  lemma StartsInOrder(c: Config, s: State)
    requires Reachable(c, s)
    ensures s.started <= s.accepted && Distinct(s.accepted)
    ensures s.submitter.Free? && !s.worker.Received? ==>
              Addressed(s) && s.order == Ids(s.heap, s.chan) && s.accepted == s.started + s.order
  {
    ReachableSound(c, s);
    StartedOrder(s);
  }

  lemma StartedOrder(s: State)
    requires Addressed(s) && Mirrors(s) && Fifo(s)
    ensures s.started <= s.accepted
    ensures s.submitter.Free? && !s.worker.Received? ==>
              s.order == Ids(s.heap, s.chan) && s.accepted == s.started + s.order
  {
  }

  lemma {:induction false} PositionAppend(order: seq<string>, x: string, id: string)
    requires x != id
    ensures Position(order + [x], id) == Position(order, id)
  {
    if order != [] {
      assert (order + [x])[1..] == order[1..] + [x];
      PositionAppend(order[1..], x, id);
    }
  }

  /** How each event changes the order list: append a new ID, drop the head, or nothing. */
  lemma OrderStep(c: Config, s: State, e: Event)
    requires Addressed(s) && Mirrors(s) && Fifo(s) && Ended(s) && Enabled(c, s, e)
    ensures var order := Next(c, s, e).order;
            || order == s.order
            || (exists id :: id !in s.accepted && order == s.order + [id])
            || (s.worker.Received? && s.order != [] && order == s.order[1..])
  {
    match e
    case Tick(_) =>
    case Submit(a) => SubmitOrder(c, s, a);
    case Work(w) => WorkOrder(s, w);
    case Client(x) =>
      if x.DeleteOrder? {
        PastUnlisted(s, x.id);
        RemoveAbsent(s.order, x.id);
      }
  }

  lemma WorkOrder(s: State, w: WorkStep)
    requires Addressed(s) && Mirrors(s) && MayWork(s, w)
    ensures var order := WorkNext(s, w).order;
            if w.Dequeue? then s.worker.Received? && s.order != [] && order == s.order[1..] else order == s.order
  {
    if w.Dequeue? {
      FirstOccurrence(s.order, 0, s.heap[s.worker.local].id);
    }
  }

  lemma SubmitOrder(c: Config, s: State, a: SubmitStep)
    requires Addressed(s) && Fifo(s) && MaySubmit(c, s, a)
    ensures var order := SubmitNext(c, s, a).order;
            if a.List? then
              order == s.order + [s.heap[s.submitter.job].id] && s.heap[s.submitter.job].id !in s.accepted
            else order == s.order
  {
  }

  /** A new entry behind it, or the head gone, does not move an entry back. */
  lemma PositionAfter(order: seq<string>, longer: seq<string>, id: string, x: string)
    requires longer == order + [x] && x != id
    ensures Position(longer, id) <= Position(order, id)
  {
    PositionAppend(order, x, id);
  }

  lemma PositionBehind(order: seq<string>, id: string)
    requires order != [] && order[0] !in order[1..]
    ensures Position(order[1..], id) <= Position(order, id)
  {
    PositionFinds(order[1..], id);
  }

  lemma StepPosition(c: Config, s: State, e: Event, id: string)
    requires Sound(c, s) && Enabled(c, s, e) && id in s.accepted
    ensures Position(Next(c, s, e).order, id) <= Position(s.order, id)
  {
    hide Next, Enabled, Position, Accounts, Room, Trails, Table, Dated, Marked, Won, Retained;
    OrderStep(c, s, e);
    var order := Next(c, s, e).order;
    if order != s.order {
      if x :| x !in s.accepted && order == s.order + [x] {
        PositionAfter(s.order, order, id, x);
      } else {
        DequeueDistinct(s);
        PositionBehind(s.order, id);
      }
    }
  }

  lemma DequeueDistinct(s: State)
    requires Addressed(s) && Mirrors(s) && Fifo(s) && s.worker.Received?
    ensures s.order != [] && s.order[0] !in s.order[1..]
  {
    assert s.accepted[|s.started| - 1] == s.order[0];
    assert s.order[1..] == Ahead(s) == s.accepted[|s.started|..];
  }

  /** A job once submitted never moves back in the queue, and never returns to it. */
  lemma {:induction false} PositionNeverIncreases(c: Config, s: State, es: seq<Event>, id: string)
    requires Sound(c, s) && Runs(c, s, es) && id in s.accepted
    ensures Position(After(c, s, es).order, id) <= Position(s.order, id)
    decreases |es|
  {
    if es != [] {
      StepSound(c, s, es[0]);
      StepPosition(c, s, es[0], id);
      Grows(c, s, es[0]);
      PositionNeverIncreases(c, Next(c, s, es[0]), es[1..], id);
    }
  }

  // Life cycle

  /** Published for every ID: queued, then processing, then one of done and error, as far as it came. */
  lemma LivesAreLegal(c: Config, s: State, id: string)
    requires Reachable(c, s)
    ensures IsLife(Trail(s.log, id))
    ensures Complete(Trail(s.log, id)) ==> id in Past(s)
  {
    ReachableSound(c, s);
    StageTrail(s.log, id);
    if Complete(Trail(s.log, id)) {
      CompleteEnds(s.log, id);
    }
  }

  lemma {:induction false} CompleteEnds(log: seq<Publication>, id: string)
    requires Stage(log, id) == Succeeded || Stage(log, id) == Failed
    ensures exists k :: 0 <= k < |log| && log[k].job.id == id && log[k].job.status.Terminal()
  {
    var n := |log| - 1;
    if log[n].job.id != id || !log[n].job.status.Terminal() {
      CompleteEnds(log[..n], id);
      var k :| 0 <= k < n && log[..n][k].job.id == id && log[..n][k].job.status.Terminal();
      assert log[k] == log[..n][k];
    }
  }

  lemma {:induction false} RunGrows(c: Config, s: State, es: seq<Event>)
    requires Addressed(s) && Runs(c, s, es)
    ensures Grown(s, After(c, s, es))
    decreases |es|
  {
    if es != [] {
      StepAddressed(c, s, es[0]);
      Grows(c, s, es[0]);
      RunGrows(c, Next(c, s, es[0]), es[1..]);
    }
  }

  /** A snapshot, once published, is never written again, however the run goes on. */
  lemma SnapshotsAreImmutable(c: Config, s: State, es: seq<Event>, k: nat)
    requires Sound(c, s) && Runs(c, s, es) && k < |s.log|
    ensures s.heap[s.log[k].addr] == s.log[k].job
    ensures var t := After(c, s, es);
            k < |t.log| && t.log[k] == s.log[k] && t.heap[t.log[k].addr] == s.heap[s.log[k].addr]
  {
    RunSound(c, s, es);
    RunGrows(c, s, es);
    assert After(c, s, es).log[k] == s.log[k];
  }

  /** A deleted job stays deleted. */
  lemma DeletedNeverReturns(c: Config, s: State, es: seq<Event>, id: string)
    requires Sound(c, s) && Runs(c, s, es) && id in s.deleting
    ensures id !in After(c, s, es).jobs
  {
    RunSound(c, s, es);
    RunGrows(c, s, es);
  }

  /** GetJob finds the latest snapshot of every job until that job is deleted. */
  lemma GetJobIsCurrent(c: Config, s: State, id: string)
    requires Reachable(c, s)
    ensures id in s.jobs <==> Latest(s.log, id).Some? && id !in s.deleting
    ensures id in s.jobs ==>
              && Latest(s.log, id) == Some(s.jobs[id])
              && s.jobs[id] < |s.heap| && s.heap[s.jobs[id]].id == id
  {
    ReachableSound(c, s);
    LatestIsPublished(s.log, id);
  }

  lemma {:induction false} LatestIsPublished(log: seq<Publication>, id: string)
    ensures Latest(log, id).Some? ==>
              exists k :: 0 <= k < |log| && log[k].addr == Latest(log, id).value && log[k].job.id == id
  {
    if log != [] && log[|log| - 1].job.id != id {
      var front := log[..|log| - 1];
      LatestIsPublished(front, id);
      if Latest(front, id).Some? {
        var k :| 0 <= k < |front| && front[k].addr == Latest(front, id).value && front[k].job.id == id;
        assert log[k] == front[k];
      }
    }
  }

  /** Done means within the size limit; finished means dated. */
  lemma ResultsAreBounded(c: Config, s: State, k: nat)
    requires Reachable(c, s) && k < |s.log|
    ensures s.log[k].job.status.Terminal() <==> s.log[k].job.completedAt.Some?
    ensures s.log[k].job.status.Done? ==> s.log[k].job.files.outputSize <= MAX_OUTPUT_SIZE
  {
    ReachableSound(c, s);
  }

  // Delivery and clean-up

  function DoneIds(log: seq<Publication>): set<string> {
    set k | 0 <= k < |log| && log[k].job.status.Done? :: log[k].job.id
  }

  /**
   Whatever snapshots the download handlers hold, each job is won at most once, only finished
   jobs are won, and the processed count never exceeds the number of done jobs.
   */
  lemma AtMostOnceDelivery(c: Config, s: State)
    requires Reachable(c, s)
    ensures Distinct(s.wins)
    ensures forall id :: id in s.wins ==> Trail(s.log, id) == [Queued, Processing, Done]
    ensures s.processed <= |s.wins| <= |DoneIds(s.log)|
  {
    ReachableSound(c, s);
    forall id | id in s.wins
      ensures Trail(s.log, id) == [Queued, Processing, Done] && id in DoneIds(s.log)
    {
      StageTrail(s.log, id);
      SucceededIsDone(s.log, id);
    }
    DistinctSize(s.wins);
    SubsetSize((set id | id in s.wins), DoneIds(s.log));
  }

  lemma {:induction false} SucceededIsDone(log: seq<Publication>, id: string)
    requires Stage(log, id) == Succeeded
    ensures id in DoneIds(log)
  {
    var n := |log| - 1;
    if log[n].job.id == id {
      assert log[n].job.status.Done?;
    } else {
      SucceededIsDone(log[..n], id);
      assert forall k :: 0 <= k < n ==> log[..n][k] == log[k];
    }
  }

  /**
   The record of a job is found, and its directory stays, until the job was downloaded to the end
   or is maxAge old. Whether its result can still be downloaded is another matter: QueueDownloads.
   */
  lemma ResultsAreRetained(c: Config, s: State, id: string)
    requires Reachable(c, s) && Latest(s.log, id).Some?
    ensures id !in s.jobs ==> id in s.served || Aged(c, s, id)
    ensures id in s.removedDirs ==> id in s.served || Aged(c, s, id)
    ensures id in s.served ==> id in s.wins
  {
    ReachableSound(c, s);
  }

  /** In the table, its record and its directory untouched. */
  predicate Kept(s: State, id: string) {
    id in s.jobs && id !in s.removedDirs && id !in s.deleting
  }

  /** Neither the record nor the working directory of a job that is not finished is ever removed. */
  lemma WorkIsSafe(c: Config, s: State)
    requires Reachable(c, s)
    ensures Addressed(s)
    ensures Holds(s.worker) && !s.worker.Published? ==> Kept(s, s.heap[s.worker.local].id)
    ensures forall i :: 0 <= i < |s.chan| ==> Kept(s, s.heap[s.chan[i]].id)
    ensures s.submitter.Stored? || s.submitter.Listed? || s.submitter.Counted? ==> Kept(s, s.heap[s.submitter.job].id)
  {
    ReachableSound(c, s);
    Apartness(s);
    if Holds(s.worker) && !s.worker.Published? {
      UnfinishedIsKept(s, s.heap[s.worker.local].id);
    }
    forall i | 0 <= i < |s.chan| ensures Kept(s, s.heap[s.chan[i]].id) {
      assert s.heap[s.chan[i]].id !in Past(s);
      UnfinishedIsKept(s, s.heap[s.chan[i]].id);
    }
    if !s.submitter.Free? && !s.submitter.Admitted? {
      SubmitterApart(s);
      assert s.heap[s.submitter.job].id !in Past(s);
      UnfinishedIsKept(s, s.heap[s.submitter.job].id);
    }
  }

  /** Published, and not finished. */
  lemma UnfinishedIsKept(s: State, id: string)
    requires Table(s) && Ended(s) && id !in Past(s) && Stage(s.log, id) != Unseen
    ensures Kept(s, id)
  {
    SeenHasLatest(s.log, id);
  }

  lemma {:induction false} SeenHasLatest(log: seq<Publication>, id: string)
    ensures Stage(log, id) != Unseen ==> Latest(log, id).Some?
  {
    if log != [] && log[|log| - 1].job.id != id {
      SeenHasLatest(log[..|log| - 1], id);
    }
  }
}
