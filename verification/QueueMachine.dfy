/**
 The queue, its clients and its worker as one state machine. Every event is one atomic step:
 a critical section under `mu` is cut at each access that others can see without `mu` (the
 job table, the channel), so submitters, the worker, downloaders and the cleaner interleave
 as freely as they do in the program.
 */
module QueueMachine {
  import opened Wrappers
  import opened JobQueue

  datatype Config = Config(maxSize: nat, maxAge: int)

  /** A Job in memory. `downloaded` is the address of the flag that its copies share. */
  datatype Record = Record(
    id: string,
    ownerIP: string,
    request: Request,
    status: Status,
    files: JobFiles,
    completedAt: Option<int>,
    error: string,
    downloaded: nat)

  /** Where the worker stands; `local` is the address of the copy it works on. */
  datatype Worker =
    | Idle
    | Received(local: nat)   // taken from the channel, still in the order list
    | Removed(local: nat)    // out of the order list
    | Running(local: nat)    // processing snapshot published, inside processFunc
    | Finished(local: nat)   // judged, not yet published
    | Published(local: nat)  // terminal snapshot published, slot still taken
    | Stopped

  /** Whoever holds `mu` inside Submit; `job` is the address of the record it made. */
  datatype Submitter =
    | Free
    | Admitted(job: nat)  // checks passed
    | Stored(job: nat)    // in the job table
    | Listed(job: nat)    // in the order list
    | Counted(job: nat)   // slot taken; only the send is left

  /** One call of jobs.Store: the address, and the record as it was at that moment. */
  datatype Publication = Publication(addr: nat, job: Record)

  datatype State = State(
    // memory
    heap: seq<Record>,
    marks: seq<bool>,
    jobs: map<string, nat>,
    chan: seq<nat>,
    order: seq<string>,
    inflight: map<string, int>,
    removedDirs: set<string>,
    // threads
    worker: Worker,
    submitter: Submitter,
    serving: set<string>,    // downloads won and not yet served to the end
    served: set<string>,     // downloads served to the end: record and directory go
    deleting: set<string>,   // DeleteJob has taken the record, the order list may be next
    processed: nat,          // IncrementProcessed calls
    now: int,
    // what has happened so far
    log: seq<Publication>,
    accepted: seq<string>,   // in the order of Submit
    started: seq<string>,    // in the order the worker received them
    wins: seq<string>)       // MarkDownloaded returned true

  /** Why a directory and a record may go. */
  datatype Cause = Expired(at: int) | Downloaded

  /** The atomic steps of Submit. */
  datatype SubmitStep =
    | Refuse(ip: string)
    | Admit(id: string, ip: string, upload: Upload)
    | StoreQueued
    | List
    | Count
    | Send

  /** The atomic steps of the worker's loop. */
  datatype WorkStep =
    | Receive
    | Dequeue
    | Begin
    | Finish(outcome: Outcome)
    | Publish
    | ReleaseSlot
    | Stop

  /**
   The steps of the download handlers and of the cleaner that change something; `k` names the
   k-th publication, the snapshot the client has in its hand, however old.
   */
  datatype ClientStep =
    | Mark(k: nat)
    | Serve(id: string, complete: bool, internal: bool)
    | RemoveDir(k: nat, cause: Cause)
    | DeleteRecord(k: nat, cause: Cause)
    | DeleteOrder(id: string)

  datatype Event = Tick(to: int) | Submit(a: SubmitStep) | Work(w: WorkStep) | Client(x: ClientStep)

  function Init(now: int): State {
    State([], [], map[], [], [], map[], {}, Idle, Free, {}, {}, {}, 0, now, [], [], [], [])
  }

  predicate Valid(h: seq<Record>, a: nat) {
    a < |h|
  }

  /** The cleaner's test on a snapshot it may have read long ago. A zero CompletedAt is ancient. */
  predicate MayGo(c: Config, s: State, job: Record, cause: Cause) {
    match cause
    case Expired(at) =>
      && at <= s.now
      && job.status.Terminal()
      && (job.completedAt.Some? ==> at - job.completedAt.value >= c.maxAge)
    case Downloaded =>
      job.id in s.served
  }

  /** Addresses held by the threads and the log are allocated, flags too. */
  predicate Addressed(s: State) {
    && (forall i :: 0 <= i < |s.chan| ==> Valid(s.heap, s.chan[i]))
    && (forall k :: 0 <= k < |s.log| ==> Valid(s.heap, s.log[k].addr))
    && (forall a :: 0 <= a < |s.heap| ==> s.heap[a].downloaded < |s.marks|)
    && (s.worker.Idle? || s.worker.Stopped? || Valid(s.heap, s.worker.local))
    && (s.submitter.Free? || Valid(s.heap, s.submitter.job))
  }

  /** IDs are random UUIDs, taken never to repeat. */
  predicate Unused(s: State, id: string) {
    id !in s.accepted && forall a :: 0 <= a < |s.heap| ==> s.heap[a].id != id
  }

  predicate MaySubmit(c: Config, s: State, a: SubmitStep)
    requires Addressed(s)
  {
    match a
    case Refuse(ip) => s.submitter.Free? && !Admits(c.maxSize, |s.chan|, s.inflight, ip)
    case Admit(id, ip, _) =>
      s.submitter.Free? && Admits(c.maxSize, |s.chan|, s.inflight, ip) && Unused(s, id)
    case StoreQueued => s.submitter.Admitted?
    case List => s.submitter.Stored?
    case Count => s.submitter.Listed?
    case Send => s.submitter.Counted? && |s.chan| < c.maxSize
  }

  predicate MayWork(s: State, w: WorkStep)
    requires Addressed(s)
  {
    match w
    case Receive => s.worker.Idle? && s.chan != []
    case Dequeue => s.worker.Received? && s.submitter.Free?
    case Begin => s.worker.Removed?
    case Finish(_) => s.worker.Running?
    case Publish => s.worker.Finished?
    case ReleaseSlot =>
      s.worker.Published? && (s.heap[s.worker.local].ownerIP == "" || s.submitter.Free?)
    case Stop => s.worker.Idle?
  }

  predicate MayDo(c: Config, s: State, x: ClientStep)
    requires Addressed(s)
  {
    match x
    case Mark(k) => k < |s.log| && s.heap[s.log[k].addr].status.Done?
    case Serve(id, _, _) => id in s.serving
    case RemoveDir(k, cause) => k < |s.log| && MayGo(c, s, s.heap[s.log[k].addr], cause)
    case DeleteRecord(k, cause) =>
      && k < |s.log| && MayGo(c, s, s.heap[s.log[k].addr], cause)
      && (cause.Expired? ==> s.heap[s.log[k].addr].id in s.removedDirs)
    case DeleteOrder(id) => id in s.deleting && s.submitter.Free?
  }

  predicate Enabled(c: Config, s: State, e: Event)
    requires Addressed(s)
  {
    match e
    case Tick(to) => s.now <= to
    case Submit(a) => MaySubmit(c, s, a)
    case Work(w) => MayWork(s, w)
    case Client(x) => MayDo(c, s, x)
  }

  /** jobs.Store(job.ID, job). */
  function Store(s: State, a: nat): State
    requires a < |s.heap|
  {
    s.(jobs := s.jobs[s.heap[a].id := a], log := s.log + [Publication(a, s.heap[a])])
  }

  function SubmitNext(c: Config, s: State, a: SubmitStep): State
    requires Addressed(s) && MaySubmit(c, s, a)
  {
    match a
    case Refuse(_) => s
    case Admit(id, ip, upload) =>
      var job := Record(id, ip, upload.request, Queued, upload.Stored(), None, "", |s.marks|);
      s.(heap := s.heap + [job], marks := s.marks + [false], submitter := Admitted(|s.heap|))
    case StoreQueued =>
      Store(s, s.submitter.job).(submitter := Stored(s.submitter.job))
    case List =>
      var id := s.heap[s.submitter.job].id;
      s.(order := s.order + [id], accepted := s.accepted + [id], submitter := Listed(s.submitter.job))
    case Count =>
      s.(inflight := Take(s.inflight, s.heap[s.submitter.job].ownerIP), submitter := Counted(s.submitter.job))
    case Send =>
      s.(chan := s.chan + [s.submitter.job], submitter := Free)
  }

  function WorkNext(s: State, w: WorkStep): State
    requires Addressed(s) && MayWork(s, w)
  {
    match w
    case Receive =>
      var queued := s.heap[s.chan[0]];
      s.(chan := s.chan[1..], heap := s.heap + [queued], worker := Received(|s.heap|),
         started := s.started + [queued.id])
    case Dequeue =>
      s.(order := RemoveFirst(s.order, s.heap[s.worker.local].id), worker := Removed(s.worker.local))
    case Begin =>
      var a := s.worker.local;
      var job := s.heap[a].(status := Processing);
      Store(s.(heap := s.heap[a := job] + [job]), |s.heap|).(worker := Running(a))
    case Finish(outcome) =>
      var a := s.worker.local;
      var (status, error) := Verdict(outcome, s.heap[a].error);
      var job := s.heap[a].(status := status, error := error, completedAt := Some(s.now),
                            files := outcome.files);
      s.(heap := s.heap[a := job], worker := Finished(a))
    case Publish =>
      Store(s, s.worker.local).(worker := Published(s.worker.local))
    case ReleaseSlot =>
      s.(inflight := Release(s.inflight, s.heap[s.worker.local].ownerIP), worker := Idle)
    case Stop => s.(worker := Stopped)
  }

  function ClientNext(c: Config, s: State, x: ClientStep): State
    requires Addressed(s) && MayDo(c, s, x)
  {
    match x
    case Mark(k) =>
      var job := s.heap[s.log[k].addr];
      if s.marks[job.downloaded] then s
      else
        s.(marks := s.marks[job.downloaded := true], wins := s.wins + [job.id],
           serving := s.serving + {job.id})
    case Serve(id, complete, internal) =>
      var t := s.(serving := s.serving - {id});
      if !complete then t
      else t.(processed := s.processed + (if internal then 0 else 1), served := s.served + {id})
    case RemoveDir(k, _) =>
      s.(removedDirs := s.removedDirs + {s.heap[s.log[k].addr].id})
    case DeleteRecord(k, _) =>
      var id := s.heap[s.log[k].addr].id;
      s.(jobs := s.jobs - {id}, deleting := s.deleting + {id})
    case DeleteOrder(id) => s.(order := RemoveFirst(s.order, id))
  }

  function Next(c: Config, s: State, e: Event): State
    requires Addressed(s) && Enabled(c, s, e)
  {
    match e
    case Tick(to) => s.(now := to)
    case Submit(a) => SubmitNext(c, s, a)
    case Work(w) => WorkNext(s, w)
    case Client(x) => ClientNext(c, s, x)
  }

  lemma SubmitAddressed(c: Config, s: State, a: SubmitStep)
    requires Addressed(s) && MaySubmit(c, s, a)
    ensures Addressed(SubmitNext(c, s, a))
  {
  }

  lemma WorkAddressed(s: State, w: WorkStep)
    requires Addressed(s) && MayWork(s, w)
    ensures Addressed(WorkNext(s, w))
  {
  }

  /** Clients never write a record and never touch the channel, the threads or the in-flight table. */
  lemma ClientFrame(c: Config, s: State, x: ClientStep)
    requires Addressed(s) && MayDo(c, s, x)
    ensures var t := ClientNext(c, s, x);
            && t.heap == s.heap && t.log == s.log && |t.marks| == |s.marks|
            && t.chan == s.chan && t.inflight == s.inflight
            && t.worker == s.worker && t.submitter == s.submitter
            && t.accepted == s.accepted && t.started == s.started && t.now == s.now
            && Addressed(t)
  {
  }

  lemma StepAddressed(c: Config, s: State, e: Event)
    requires Addressed(s) && Enabled(c, s, e)
    ensures Addressed(Next(c, s, e))
  {
    match e
    case Tick(_) =>
    case Submit(a) => SubmitAddressed(c, s, a);
    case Work(w) => WorkAddressed(s, w);
    case Client(x) => ClientFrame(c, s, x);
  }

  /** A run: every event is enabled where it happens. */
  ghost predicate Runs(c: Config, s: State, es: seq<Event>)
    requires Addressed(s)
    decreases |es|
  {
    es == [] || (Enabled(c, s, es[0]) && (StepAddressed(c, s, es[0]); Runs(c, Next(c, s, es[0]), es[1..])))
  }

  ghost function After(c: Config, s: State, es: seq<Event>): (t: State)
    requires Addressed(s) && Runs(c, s, es)
    ensures Addressed(t)
    decreases |es|
  {
    if es == [] then s
    else
      StepAddressed(c, s, es[0]);
      After(c, Next(c, s, es[0]), es[1..])
  }
}
