/**
 What every step of the queue keeps: the order list mirrors the channel, copies of a job
 share one flag, and what was published stays as it was.
 */
module QueueInvariant {
  import opened Wrappers
  import opened JobQueue
  import opened QueueMachine

  function Ids(h: seq<Record>, q: seq<nat>): (r: seq<string>)
    requires forall i :: 0 <= i < |q| ==> q[i] < |h|
    ensures |r| == |q| && forall i :: 0 <= i < |q| ==> r[i] == h[q[i]].id
  {
    seq(|q|, i requires 0 <= i < |q| => h[q[i]].id)
  }

  predicate Holds(w: Worker) {
    !w.Idle? && !w.Stopped?
  }

  /** The ID received but not yet taken out of the order list. */
  function InHand(s: State): seq<string>
    requires Addressed(s)
  {
    if s.worker.Received? then [s.heap[s.worker.local].id] else []
  }

  /** The ID listed by the submitter that holds `mu` and not yet sent. */
  function Unsent(s: State): seq<string>
    requires Addressed(s)
  {
    if s.submitter.Listed? || s.submitter.Counted? then [s.heap[s.submitter.job].id] else []
  }

  /** The jobs submitted and not yet received, in order. */
  function Ahead(s: State): seq<string>
    requires Addressed(s)
  {
    Ids(s.heap, s.chan) + Unsent(s)
  }

  /** The order list mirrors the channel. */
  ghost predicate Mirrors(s: State)
    requires Addressed(s)
  {
    s.order == InHand(s) + Ahead(s)
  }

  /** Submission order is the order of the channel and of the worker. */
  ghost predicate Fifo(s: State)
    requires Addressed(s)
  {
    && s.accepted == s.started + Ahead(s)
    && Distinct(s.accepted)
    && (Holds(s.worker) ==> |s.started| > 0 && s.started[|s.started| - 1] == s.heap[s.worker.local].id)
    && (s.submitter.Admitted? || s.submitter.Stored? ==> s.heap[s.submitter.job].id !in s.accepted)
  }

  /** The IDs whose terminal snapshot is out. */
  function Past(s: State): seq<string> {
    if s.started != [] && Holds(s.worker) && !s.worker.Published?
    then s.started[..|s.started| - 1]
    else s.started
  }

  /** Only such IDs are downloaded or cleaned up. */
  ghost predicate Ended(s: State) {
    && (forall k :: 0 <= k < |s.log| && s.log[k].job.status.Terminal() ==> s.log[k].job.id in Past(s))
    && (forall id :: id in s.serving || id in s.served || id in s.deleting || id in s.removedDirs ==> id in Past(s))
  }

  /** Copies of one submission. */
  predicate SameJob(x: Record, y: Record) {
    x.id == y.id && x.ownerIP == y.ownerIP && x.downloaded == y.downloaded && x.request == y.request
  }

  /** Records share an ID exactly when they share a flag, and then they are copies of one job. */
  ghost predicate Copies(h: seq<Record>) {
    forall a, b :: 0 <= a < |h| && 0 <= b < |h| ==>
      && (h[a].id == h[b].id <==> h[a].downloaded == h[b].downloaded)
      && (h[a].id == h[b].id ==> SameJob(h[a], h[b]))
  }

  lemma CopiesUpdate(h: seq<Record>, a: nat, job: Record)
    requires Copies(h) && a < |h| && SameJob(job, h[a])
    ensures Copies(h[a := job])
  {
  }

  lemma CopiesAppend(h: seq<Record>, a: nat, job: Record)
    requires Copies(h) && a < |h| && SameJob(job, h[a])
    ensures Copies(h + [job])
  {
  }

  lemma CopiesNew(h: seq<Record>, job: Record)
    requires Copies(h)
    requires forall a :: 0 <= a < |h| ==> h[a].id != job.id && h[a].downloaded != job.downloaded
    ensures Copies(h + [job])
  {
  }

  /** A record as Submit makes it. */
  predicate Fresh(job: Record) {
    job.status == Queued && job.completedAt == None && job.files.outputSize == 0
  }

  /** A terminal record as the worker leaves it. */
  predicate Judged(job: Record) {
    && job.status.Terminal() && job.completedAt.Some?
    && (job.status.Done? ==> job.files.outputSize <= MAX_OUTPUT_SIZE)
  }

  /** Every publication still reads as it was published. */
  ghost predicate Frozen(h: seq<Record>, log: seq<Publication>) {
    forall k :: 0 <= k < |log| ==> log[k].addr < |h| && h[log[k].addr] == log[k].job
  }

  /** What waits in the channel or in Submit is as Submit made it. */
  ghost predicate Waiting(s: State)
    requires Addressed(s)
  {
    && (forall i :: 0 <= i < |s.chan| ==> Fresh(s.heap[s.chan[i]]))
    && (!s.submitter.Free? ==> Fresh(s.heap[s.submitter.job]))
  }

  /** Until it publishes its copy, the worker is the only one to know it. */
  ghost predicate Apart(s: State)
    requires Addressed(s)
  {
    Holds(s.worker) ==>
      && (!s.worker.Published? ==> forall k :: 0 <= k < |s.log| ==> s.log[k].addr != s.worker.local)
      && (forall i :: 0 <= i < |s.chan| ==> s.chan[i] != s.worker.local)
      && (!s.submitter.Free? ==> s.submitter.job != s.worker.local)
  }

  /** The status of the worker's copy follows its program counter. */
  ghost predicate Staged(s: State)
    requires Addressed(s)
  {
    Holds(s.worker) ==>
      var job := s.heap[s.worker.local];
      && (s.worker.Received? || s.worker.Removed? ==> Fresh(job))
      && (s.worker.Running? ==> job.status == Processing && job.completedAt == None)
      && (s.worker.Finished? || s.worker.Published? ==> Judged(job))
  }

  ghost predicate Inv(s: State) {
    && Addressed(s) && Mirrors(s) && Fifo(s) && Ended(s)
    && Copies(s.heap) && Frozen(s.heap, s.log) && Waiting(s) && Apart(s) && Staged(s)
  }

  // Names never change

  lemma SubmitNames(c: Config, s: State, a: SubmitStep)
    requires Addressed(s) && MaySubmit(c, s, a)
    ensures var t := SubmitNext(c, s, a);
            && Addressed(t) && s.heap <= t.heap && t.worker == s.worker && t.started == s.started
            && (!a.Admit? ==> t.heap == s.heap)
  {
    SubmitAddressed(c, s, a);
  }

  lemma WorkNames(s: State, w: WorkStep)
    requires Addressed(s) && MayWork(s, w)
    ensures var t := WorkNext(s, w);
            && Addressed(t) && t.submitter == s.submitter && t.accepted == s.accepted
            && |s.heap| <= |t.heap|
            && (forall a :: 0 <= a < |s.heap| ==> SameJob(t.heap[a], s.heap[a]))
  {
    WorkAddressed(s, w);
  }

  lemma StepCopies(c: Config, s: State, e: Event)
    requires Addressed(s) && Copies(s.heap) && Enabled(c, s, e)
    ensures Copies(Next(c, s, e).heap)
  {
    var t := Next(c, s, e);
    match e
    case Tick(_) =>
    case Submit(a) =>
      if a.Admit? {
        CopiesNew(s.heap, t.heap[|s.heap|]);
      } else {
        SubmitNames(c, s, a);
      }
    case Work(w) => WorkCopies(s, w);
    case Client(x) => ClientFrame(c, s, x);
  }

  lemma WorkCopies(s: State, w: WorkStep)
    requires Addressed(s) && Copies(s.heap) && MayWork(s, w)
    ensures Copies(WorkNext(s, w).heap)
  {
    var t := WorkNext(s, w);
    match w
    case Receive => CopiesAppend(s.heap, s.chan[0], t.heap[|s.heap|]);
    case Begin =>
      var a := s.worker.local;
      CopiesUpdate(s.heap, a, t.heap[a]);
      CopiesAppend(s.heap[a := t.heap[a]], a, t.heap[a]);
    case Finish(_) => CopiesUpdate(s.heap, s.worker.local, t.heap[s.worker.local]);
    case _ => assert t.heap == s.heap;
  }

  // Published records stay as they are

  ghost predicate Snapshots(s: State)
    requires Addressed(s)
  {
    Frozen(s.heap, s.log) && Waiting(s) && Apart(s) && Staged(s)
  }

  lemma SubmitSnapshots(c: Config, s: State, a: SubmitStep)
    requires Addressed(s) && Snapshots(s) && MaySubmit(c, s, a)
    ensures Addressed(SubmitNext(c, s, a)) && Snapshots(SubmitNext(c, s, a))
  {
    SubmitAddressed(c, s, a);
  }

  lemma ReceiveSnapshots(s: State)
    requires Addressed(s) && Snapshots(s) && MayWork(s, Receive)
    ensures Addressed(WorkNext(s, Receive)) && Snapshots(WorkNext(s, Receive))
  {
    WorkAddressed(s, Receive);
  }

  lemma BeginSnapshots(s: State)
    requires Addressed(s) && Snapshots(s) && MayWork(s, Begin)
    ensures Addressed(WorkNext(s, Begin)) && Snapshots(WorkNext(s, Begin))
  {
    WorkAddressed(s, Begin);
  }

  lemma FinishSnapshots(s: State, outcome: Outcome)
    requires Addressed(s) && Snapshots(s) && MayWork(s, Finish(outcome))
    ensures Addressed(WorkNext(s, Finish(outcome))) && Snapshots(WorkNext(s, Finish(outcome)))
  {
    WorkAddressed(s, Finish(outcome));
  }

  lemma PublishSnapshots(s: State)
    requires Addressed(s) && Snapshots(s) && MayWork(s, Publish)
    ensures Addressed(WorkNext(s, Publish)) && Snapshots(WorkNext(s, Publish))
  {
    WorkAddressed(s, Publish);
  }

  /** The steps that neither write a record nor publish one. */
  lemma QuietSnapshots(s: State, w: WorkStep)
    requires Addressed(s) && Snapshots(s) && MayWork(s, w) && (w.Dequeue? || w.ReleaseSlot? || w.Stop?)
    ensures Addressed(WorkNext(s, w)) && Snapshots(WorkNext(s, w))
  {
    WorkAddressed(s, w);
  }

  lemma WorkSnapshots(s: State, w: WorkStep)
    requires Addressed(s) && Snapshots(s) && MayWork(s, w)
    ensures Addressed(WorkNext(s, w)) && Snapshots(WorkNext(s, w))
  {
    hide Snapshots;
    match w
    case Receive => ReceiveSnapshots(s);
    case Begin => BeginSnapshots(s);
    case Finish(outcome) => FinishSnapshots(s, outcome);
    case Publish => PublishSnapshots(s);
    case _ => QuietSnapshots(s, w);
  }

  lemma StepSnapshots(c: Config, s: State, e: Event)
    requires Addressed(s) && Snapshots(s) && Enabled(c, s, e)
    ensures Addressed(Next(c, s, e)) && Snapshots(Next(c, s, e))
  {
    match e
    case Tick(_) =>
    case Submit(a) => SubmitSnapshots(c, s, a);
    case Work(w) => WorkSnapshots(s, w);
    case Client(x) => ClientFrame(c, s, x);
  }

  // First in, first out

  lemma SubmitFifo(c: Config, s: State, a: SubmitStep)
    requires Addressed(s) && Fifo(s) && MaySubmit(c, s, a)
    ensures var t := SubmitNext(c, s, a);
            && Addressed(t) && Fifo(t) && InHand(t) == InHand(s)
            && Ahead(t) == if a.List? then Ahead(s) + [s.heap[s.submitter.job].id] else Ahead(s)
  {
    SubmitNames(c, s, a);
    var t := SubmitNext(c, s, a);
    if a.Send? {
      assert Ids(t.heap, t.chan) == Ids(s.heap, s.chan) + Unsent(s);
    } else {
      assert Ids(t.heap, t.chan) == Ids(s.heap, s.chan);
    }
  }

  lemma ReceiveAhead(s: State)
    requires Addressed(s) && MayWork(s, Receive)
    ensures var t := WorkNext(s, Receive);
            && Addressed(t) && Ahead(s) == [s.heap[s.chan[0]].id] + Ahead(t)
            && InHand(s) == [] && InHand(t) == [s.heap[s.chan[0]].id]
  {
    WorkNames(s, Receive);
    var t := WorkNext(s, Receive);
    assert Ids(s.heap, s.chan) == [s.heap[s.chan[0]].id] + Ids(t.heap, t.chan);
  }

  lemma OtherAhead(s: State, w: WorkStep)
    requires Addressed(s) && MayWork(s, w) && !w.Receive?
    ensures var t := WorkNext(s, w);
            && Addressed(t) && Ahead(s) == Ahead(t)
            && (w.Dequeue? ==> InHand(s) == [s.heap[s.worker.local].id] && InHand(t) == [])
            && (!w.Dequeue? ==> InHand(t) == InHand(s))
  {
    WorkNames(s, w);
    var t := WorkNext(s, w);
    assert Ids(t.heap, t.chan) == Ids(s.heap, s.chan);
  }

  lemma WorkAhead(s: State, w: WorkStep)
    requires Addressed(s) && MayWork(s, w)
    ensures var t := WorkNext(s, w);
            && Addressed(t)
            && Ahead(s) == (if w.Receive? then [s.heap[s.chan[0]].id] else []) + Ahead(t)
            && (w.Receive? ==> InHand(s) == [] && InHand(t) == [s.heap[s.chan[0]].id])
            && (w.Dequeue? ==> InHand(s) == [s.heap[s.worker.local].id] && InHand(t) == [])
            && (!w.Receive? && !w.Dequeue? ==> InHand(t) == InHand(s))
  {
    hide Ahead, InHand, Addressed, WorkNext;
    if w.Receive? {
      ReceiveAhead(s);
    } else {
      OtherAhead(s, w);
      assert [] + Ahead(WorkNext(s, w)) == Ahead(WorkNext(s, w));
    }
  }

  lemma ReceiveFifo(s: State)
    requires Addressed(s) && Fifo(s) && MayWork(s, Receive)
    ensures Addressed(WorkNext(s, Receive)) && Fifo(WorkNext(s, Receive))
  {
    hide Ids;
    WorkNames(s, Receive);
    WorkAhead(s, Receive);
    var t := WorkNext(s, Receive);
    var id := s.heap[s.chan[0]].id;
    assert t.started == s.started + [id];
    assert s.started + ([id] + Ahead(t)) == (s.started + [id]) + Ahead(t);
  }

  lemma WorkerStays(s: State, w: WorkStep)
    requires Addressed(s) && MayWork(s, w) && !w.Receive?
    ensures var t := WorkNext(s, w);
            && t.started == s.started
            && (Holds(t.worker) ==> Holds(s.worker) && t.worker.local == s.worker.local)
  {
  }

  lemma WorkFifo(s: State, w: WorkStep)
    requires Addressed(s) && Fifo(s) && MayWork(s, w)
    ensures Addressed(WorkNext(s, w)) && Fifo(WorkNext(s, w))
  {
    if w.Receive? {
      ReceiveFifo(s);
    } else {
      WorkNames(s, w);
      WorkAhead(s, w);
      WorkerStays(s, w);
      assert Ahead(WorkNext(s, w)) == Ahead(s);
    }
  }

  lemma StepFifo(c: Config, s: State, e: Event)
    requires Addressed(s) && Fifo(s) && Enabled(c, s, e)
    ensures Addressed(Next(c, s, e)) && Fifo(Next(c, s, e))
  {
    match e
    case Tick(_) =>
    case Submit(a) => SubmitFifo(c, s, a);
    case Work(w) => WorkFifo(s, w);
    case Client(x) => ClientFrame(c, s, x);
  }

  /** What is first in a sequence without repeats is not in the rest. */
  lemma FrontNotBehind(all: seq<string>, front: seq<string>, id: string)
    requires Distinct(all) && front <= all && id in front
    ensures id !in all[|front|..]
  {
    var i :| 0 <= i < |front| && front[i] == id;
    assert all[i] == id;
    assert forall j :: 0 <= j < |all[|front|..]| ==> all[|front|..][j] == all[|front| + j];
  }

  /** A finished job is in the order list no more, so DeleteJob finds nothing to remove there. */
  lemma PastUnlisted(s: State, id: string)
    requires Addressed(s) && Fifo(s) && id in Past(s)
    ensures id !in InHand(s) + Ahead(s)
  {
    var past, ahead := Past(s), Ahead(s);
    assert past <= s.started <= s.accepted;
    FrontNotBehind(s.accepted, past, id);
    assert s.accepted[|past|..] == s.started[|past|..] + ahead;
    InHandIsNotPast(s);
  }

  lemma InHandIsNotPast(s: State)
    requires Addressed(s) && Fifo(s)
    ensures forall id :: id in InHand(s) ==> id in s.started[|Past(s)|..]
  {
    if s.worker.Received? {
      assert s.started[|Past(s)|..][0] == s.heap[s.worker.local].id;
    }
  }

  lemma SubmitMirrors(c: Config, s: State, a: SubmitStep)
    requires Addressed(s) && Mirrors(s) && Fifo(s) && MaySubmit(c, s, a)
    ensures Addressed(SubmitNext(c, s, a)) && Mirrors(SubmitNext(c, s, a))
  {
    hide Ids, Distinct;
    SubmitFifo(c, s, a);
  }

  lemma WorkMirrors(s: State, w: WorkStep)
    requires Addressed(s) && Mirrors(s) && MayWork(s, w)
    ensures Addressed(WorkNext(s, w)) && Mirrors(WorkNext(s, w))
  {
    hide Ids, RemoveFirst;
    WorkAhead(s, w);
    if w.Dequeue? {
      FirstOccurrence(s.order, 0, s.heap[s.worker.local].id);
    }
  }

  lemma StepMirrors(c: Config, s: State, e: Event)
    requires Addressed(s) && Mirrors(s) && Fifo(s) && Ended(s) && Enabled(c, s, e)
    ensures Addressed(Next(c, s, e)) && Mirrors(Next(c, s, e))
  {
    match e
    case Tick(_) =>
    case Submit(a) => SubmitMirrors(c, s, a);
    case Work(w) => WorkMirrors(s, w);
    case Client(x) => ClientMirrors(c, s, x);
  }

  lemma ClientMirrors(c: Config, s: State, x: ClientStep)
    requires Addressed(s) && Mirrors(s) && Fifo(s) && Ended(s) && MayDo(c, s, x)
    ensures Addressed(ClientNext(c, s, x)) && Mirrors(ClientNext(c, s, x))
  {
    ClientFrame(c, s, x);
    if x.DeleteOrder? {
      PastUnlisted(s, x.id);
      RemoveAbsent(s.order, x.id);
    }
  }

  // Only finished jobs are downloaded or cleaned up

  lemma SubmitEnded(c: Config, s: State, a: SubmitStep)
    requires Addressed(s) && Ended(s) && Waiting(s) && MaySubmit(c, s, a)
    ensures Ended(SubmitNext(c, s, a))
  {
    assert Past(SubmitNext(c, s, a)) == Past(s);
  }

  lemma WorkPast(s: State, w: WorkStep)
    requires Addressed(s) && Fifo(s) && MayWork(s, w)
    ensures Past(WorkNext(s, w)) == if w.Publish? then Past(s) + [s.heap[s.worker.local].id] else Past(s)
  {
  }

  lemma WorkEnded(s: State, w: WorkStep)
    requires Addressed(s) && Fifo(s) && Ended(s) && Staged(s) && MayWork(s, w)
    ensures Ended(WorkNext(s, w))
  {
    WorkPast(s, w);
  }

  lemma ClientEnded(c: Config, s: State, x: ClientStep)
    requires Addressed(s) && Ended(s) && Frozen(s.heap, s.log) && MayDo(c, s, x)
    ensures Ended(ClientNext(c, s, x))
  {
    ClientFrame(c, s, x);
  }

  lemma StepEnded(c: Config, s: State, e: Event)
    requires Addressed(s) && Fifo(s) && Ended(s) && Snapshots(s) && Enabled(c, s, e)
    ensures Ended(Next(c, s, e))
  {
    match e
    case Tick(_) =>
    case Submit(a) => SubmitEnded(c, s, a);
    case Work(w) => WorkEnded(s, w);
    case Client(x) => ClientEnded(c, s, x);
  }
}
