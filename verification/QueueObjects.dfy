/**
 The objects of JobQueue and Handlers beside the state of the machine: every call, starting from
 an object that shows a state, ends with the object showing the state that the machine's run of
 the same steps ends in.
 */
module QueueObjects {
  import opened Wrappers
  import opened JobQueue
  import opened QueueMachine
  import opened QueueLifeCycle
  import opened QueueTheorems
  import opened QueueRefinement
  import Handlers
  import KvLedger

  /** Which object is which record, and which cell which flag. */
  datatype Places = Places(at: map<Job, nat>, flags: map<AtomicBool, nat>)

  function Look(job: Job, flag: nat): Record
    reads job
  {
    Record(job.id, job.ownerIP, job.request, job.status, job.files, job.completedAt, job.error, flag)
  }

  /** Jobs at different addresses are different objects; each reads as its record. */
  ghost predicate JobsAt(h: seq<Record>, p: Places)
    reads p.at.Keys
  {
    && (forall job :: job in p.at ==>
          p.at[job] < |h| && job.downloaded in p.flags && h[p.at[job]] == Look(job, p.flags[job.downloaded]))
    && (forall x, y :: x in p.at && y in p.at && x != y ==> p.at[x] != p.at[y])
  }

  ghost predicate FlagsAt(marks: seq<bool>, p: Places)
    reads p.flags.Keys
  {
    && (forall f :: f in p.flags ==> p.flags[f] < |marks| && marks[p.flags[f]] == f.marked)
    && (forall x, y :: x in p.flags && y in p.flags && x != y ==> p.flags[x] != p.flags[y])
  }

  ghost predicate TableAt(jobs: map<string, Job>, table: map<string, nat>, p: Places) {
    jobs.Keys == table.Keys && forall id :: id in jobs ==> jobs[id] in p.at && p.at[jobs[id]] == table[id]
  }

  ghost predicate ChannelAt(q: seq<Job>, chan: seq<nat>, p: Places) {
    |q| == |chan| && forall i :: 0 <= i < |q| ==> q[i] in p.at && p.at[q[i]] == chan[i]
  }

  /** The queue object and its jobs show the state s. */
  ghost predicate Shows(q: Queue, c: Config, s: State, p: Places)
    reads q, p.at.Keys, p.flags.Keys
  {
    && q.maxSize == c.maxSize && q.perClientLimit == PerClientLimit(c.maxSize)
    && JobsAt(s.heap, p) && FlagsAt(s.marks, p)
    && TableAt(q.jobs, s.jobs, p) && ChannelAt(q.jobChan, s.chan, p)
    && q.queueOrder == s.order && q.inflight == s.inflight
  }

  /** Objects keep their addresses. */
  ghost predicate Extends(p: Places, r: Places) {
    (forall job :: job in p.at ==> job in r.at && r.at[job] == p.at[job])
    && (forall f :: f in p.flags ==> f in r.flags && r.flags[f] == p.flags[f])
  }

  lemma AddFlag(h: seq<Record>, marks: seq<bool>, p: Places, f: AtomicBool)
    requires JobsAt(h, p) && FlagsAt(marks, p) && f !in p.flags
    ensures var r := p.(flags := p.flags[f := |marks|]);
            JobsAt(h, r) && FlagsAt(marks + [f.marked], r)
  {
  }

  lemma AddJob(h: seq<Record>, p: Places, job: Job, n: nat)
    requires JobsAt(h, p) && job !in p.at && job.downloaded in p.flags && n == p.flags[job.downloaded]
    ensures JobsAt(h + [Look(job, n)], p.(at := p.at[job := |h|]))
  {
  }

  /** All but this job read as their records. */
  ghost predicate OthersAt(h: seq<Record>, p: Places, job: Job)
    reads p.at.Keys - {job}
  {
    && (forall x :: x in p.at ==> p.at[x] < |h|)
    && (forall x :: x in p.at && x != job ==> x.downloaded in p.flags && h[p.at[x]] == Look(x, p.flags[x.downloaded]))
    && (forall x, y :: x in p.at && y in p.at && x != y ==> p.at[x] != p.at[y])
  }

  lemma OthersToo(h: seq<Record>, p: Places, job: Job)
    requires JobsAt(h, p)
    ensures OthersAt(h, p, job)
  {
  }

  lemma UpdateJob(h: seq<Record>, p: Places, job: Job, look: Record)
    requires OthersAt(h, p, job) && job in p.at && job.downloaded in p.flags
    requires look == Look(job, p.flags[job.downloaded])
    ensures JobsAt(h[p.at[job] := look], p)
  {
  }

  lemma StoreJob(jobs: map<string, Job>, table: map<string, nat>, p: Places, id: string, job: Job)
    requires TableAt(jobs, table, p) && job in p.at
    ensures TableAt(jobs[id := job], table[id := p.at[job]], p)
  {
  }

  lemma RemoveJob(jobs: map<string, Job>, table: map<string, nat>, p: Places, id: string)
    requires TableAt(jobs, table, p)
    ensures TableAt(jobs - {id}, table - {id}, p)
  {
  }

  /** Naming a new job takes nothing from what was named before. */
  lemma MoreJobs(jobs: map<string, Job>, table: map<string, nat>, q: seq<Job>, chan: seq<nat>,
                 p: Places, job: Job, a: nat)
    requires TableAt(jobs, table, p) && ChannelAt(q, chan, p) && job !in p.at
    ensures var r := p.(at := p.at[job := a]);
            TableAt(jobs, table, r) && ChannelAt(q, chan, r)
  {
  }

  lemma SendJob(q: seq<Job>, chan: seq<nat>, p: Places, job: Job)
    requires ChannelAt(q, chan, p) && job in p.at
    ensures ChannelAt(q + [job], chan + [p.at[job]], p)
  {
  }

  lemma ReceiveJob(q: seq<Job>, chan: seq<nat>, p: Places)
    requires ChannelAt(q, chan, p) && q != []
    ensures chan != [] && q[0] in p.at && p.at[q[0]] == chan[0]
    ensures ChannelAt(q[1..], chan[1..], p)
  {
  }

  lemma LooksAs(h: seq<Record>, p: Places, job: Job)
    requires JobsAt(h, p) && job in p.at
    ensures p.at[job] < |h| && job.downloaded in p.flags && h[p.at[job]] == Look(job, p.flags[job.downloaded])
  {
  }

  lemma ChannelSize(q: seq<Job>, chan: seq<nat>, p: Places)
    requires ChannelAt(q, chan, p)
    ensures |q| == |chan|
  {
  }

  /** Flags are no matter of the table and the channel. */
  lemma SameTable(jobs: map<string, Job>, table: map<string, nat>, q: seq<Job>, chan: seq<nat>, p: Places, r: Places)
    requires TableAt(jobs, table, p) && ChannelAt(q, chan, p) && r.at == p.at
    ensures TableAt(jobs, table, r) && ChannelAt(q, chan, r)
  {
  }

  lemma SameFlags(marks: seq<bool>, p: Places, r: Places)
    requires FlagsAt(marks, p) && r.flags == p.flags
    ensures FlagsAt(marks, r)
  {
  }

  ghost predicate OtherFlagsAt(marks: seq<bool>, p: Places, f: AtomicBool)
    reads p.flags.Keys - {f}
  {
    && (forall x :: x in p.flags ==> p.flags[x] < |marks|)
    && (forall x :: x in p.flags && x != f ==> marks[p.flags[x]] == x.marked)
    && (forall x, y :: x in p.flags && y in p.flags && x != y ==> p.flags[x] != p.flags[y])
  }

  lemma OtherFlagsToo(marks: seq<bool>, p: Places, f: AtomicBool)
    requires FlagsAt(marks, p)
    ensures OtherFlagsAt(marks, p, f)
  {
  }

  lemma UpdateFlag(marks: seq<bool>, p: Places, f: AtomicBool)
    requires OtherFlagsAt(marks, p, f) && f in p.flags && p.flags[f] < |marks|
    ensures FlagsAt(marks[p.flags[f] := f.marked], p)
  {
  }

  lemma FlagHas(marks: seq<bool>, p: Places, f: AtomicBool)
    requires FlagsAt(marks, p) && f in p.flags
    ensures p.flags[f] < |marks| && marks[p.flags[f]] == f.marked
  {
  }

  lemma TableHas(jobs: map<string, Job>, table: map<string, nat>, p: Places, id: string)
    requires TableAt(jobs, table, p) && id in jobs
    ensures id in table && jobs[id] in p.at && p.at[jobs[id]] == table[id]
  {
  }

  lemma SoundIsAddressed(c: Config, s: State)
    requires Sound(c, s)
    ensures Addressed(s)
  {
  }

  lemma NoSteps(c: Config, s: State)
    requires Addressed(s)
    ensures Runs(c, s, []) && After(c, s, []) == s
  {
  }

  /** Every record in the table has been published. */
  lemma IsPublished(c: Config, s: State, id: string) returns (k: nat)
    requires Sound(c, s) && id in s.jobs
    ensures k < |s.log| && s.log[k].addr == s.jobs[id] < |s.heap| && s.heap[s.log[k].addr].id == id
  {
    LatestIsPublished(s.log, id);
    k :| 0 <= k < |s.log| && s.log[k].addr == Latest(s.log, id).value && s.log[k].job.id == id;
  }

  // The calls

  /** A new queue shows the machine's first state. */
  method New(maxSize: nat, ghost maxAge: int, ghost now: int) returns (q: Queue)
    ensures fresh(q) && Shows(q, Config(maxSize, maxAge), Init(now), Places(map[], map[]))
  {
    q := new Queue(maxSize);
  }

  method Submit(q: Queue, ghost c: Config, ghost s: State, ghost p: Places,
                jobID: string, ownerIP: string, upload: Upload, now: int)
    returns (accepted: Option<Job>, ghost es: seq<Event>, ghost r: Places)
    requires Addressed(s) && Shows(q, c, s, p) && s.submitter.Free? && Unused(s, jobID)
    modifies q
    ensures es == if accepted.Some? then SubmitEvents(jobID, ownerIP, upload)
                  else [QueueMachine.Submit(Refuse(ownerIP))]
    ensures Runs(c, s, es) && Shows(q, c, After(c, s, es), r) && Extends(p, r)
  {
    hide Runs, After, Next, SubmitEvents, JobsAt, FlagsAt, TableAt, ChannelAt, Addressed;
    ghost var jobs, chan := q.jobs, q.jobChan;
    assert |q.jobChan| == |s.chan| by { ChannelSize(q.jobChan, s.chan, p); }
    var position;
    accepted, position := q.Submit(jobID, ownerIP, upload, now);
    if accepted.None? {
      es, r := [QueueMachine.Submit(Refuse(ownerIP))], p;
      RefuseAtOnce(c, s, ownerIP);
      return;
    }
    var job := accepted.value;
    es := SubmitEvents(jobID, ownerIP, upload);
    SubmitAtOnce(c, s, jobID, ownerIP, upload);
    AddFlag(s.heap, s.marks, p, job.downloaded);
    ghost var f := p.(flags := p.flags[job.downloaded := |s.marks|]);
    AddJob(s.heap, f, job, |s.marks|);
    SameTable(jobs, s.jobs, chan, s.chan, p, f);
    MoreJobs(jobs, s.jobs, chan, s.chan, f, job, |s.heap|);
    r := f.(at := f.at[job := |s.heap|]);
    StoreJob(jobs, s.jobs, r, jobID, job);
    SendJob(chan, s.chan, r, job);
    SameFlags(s.marks + [false], f, r);
  }

  method Begin(q: Queue, ghost c: Config, ghost s: State, ghost p: Places)
    returns (job: Job, ghost r: Places)
    requires Addressed(s) && Shows(q, c, s, p) && s.worker.Idle? && s.submitter.Free? && q.jobChan != []
    modifies q
    ensures Runs(c, s, BEGIN_EVENTS)
    ensures var t := After(c, s, BEGIN_EVENTS);
            Shows(q, c, t, r) && Extends(p, r) && t.worker.Running? && job in r.at && r.at[job] == t.worker.local
  {
    hide Runs, After, Next, JobsAt, FlagsAt, TableAt, ChannelAt, Addressed;
    ghost var jobs, chan := q.jobs, q.jobChan;
    ReceiveJob(chan, s.chan, p);
    LooksAs(s.heap, p, chan[0]);
    ghost var n := p.flags[chan[0].downloaded];
    var processing;
    job, processing := q.Begin();
    BeginAtOnce(c, s);
    AddJob(s.heap, p, job, n);
    MoreJobs(jobs, s.jobs, chan[1..], s.chan[1..], p, job, |s.heap|);
    ghost var m := p.(at := p.at[job := |s.heap|]);
    ghost var h := s.heap + [Look(job, n)];
    AddJob(h, m, processing, n);
    MoreJobs(jobs, s.jobs, chan[1..], s.chan[1..], m, processing, |h|);
    r := m.(at := m.at[processing := |h|]);
    StoreJob(jobs, s.jobs, r, job.id, processing);
    assert Begun(s).heap == h + [Look(processing, n)];
    assert Begun(s).marks == s.marks;
    SameFlags(s.marks, p, r);
  }

  method Complete(q: Queue, ghost c: Config, ghost s: State, ghost p: Places, job: Job, outcome: Outcome, now: int)
    returns (ghost es: seq<Event>)
    requires Addressed(s) && Shows(q, c, s, p) && s.submitter.Free? && s.now <= now
    requires s.worker.Running? && job in p.at && p.at[job] == s.worker.local
    modifies q, job
    ensures es == [Tick(now)] + CompleteEvents(outcome)
    ensures Runs(c, s, es) && Shows(q, c, After(c, s, es), p)
  {
    hide Runs, After, JobsAt, FlagsAt, OthersAt, TableAt, ChannelAt, CompleteEvents;
    LooksAs(s.heap, p, job);
    OthersToo(s.heap, p, job);
    ghost var jobs := q.jobs;
    q.Complete(job, outcome, now);
    es := [Tick(now)] + CompleteEvents(outcome);
    ghost var t := s.(now := now);
    CompleteAtOnce(c, t, outcome);
    RunFirst(c, s, Tick(now), CompleteEvents(outcome));
    UpdateJob(s.heap, p, job, Completed(t, outcome).heap[s.worker.local]);
    StoreJob(jobs, s.jobs, p, job.id, job);
  }

  /** The end of a download, or one job of the cleaner, on a snapshot of any age. */
  method DeleteJob(q: Queue, ghost c: Config, ghost s: State, ghost p: Places,
                   jobID: string, ghost k: nat, ghost cause: Cause)
    requires Addressed(s) && Shows(q, c, s, p) && s.submitter.Free?
    requires k < |s.log| && s.heap[s.log[k].addr].id == jobID && MayGo(c, s, s.heap[s.log[k].addr], cause)
    modifies q
    ensures Runs(c, s, DeleteEvents(k, jobID, cause)) && Shows(q, c, After(c, s, DeleteEvents(k, jobID, cause)), p)
  {
    hide Runs, After, Next, JobsAt, FlagsAt, TableAt, ChannelAt, DeleteEvents;
    RemoveJob(q.jobs, s.jobs, p, jobID);
    q.DeleteJob(jobID);
    DeleteAtOnce(c, s, k, cause);
  }

  /** What a call of Download does in the machine; k is the publication that it finds. */
  function DownloadEvents(k: nat, id: string, internal: bool, reply: Handlers.Reply): seq<Event> {
    match reply
    case Served => DeliverEvents(k, id, internal)
    case CutShort => CutShortEvents(k, id, internal)
    case Gone => [Client(Mark(k))]
    case _ => []
  }

  /** The state it leads to, from one in which `job` is what it finds. */
  function AfterDownload(s: State, job: Record, internal: bool, reply: Handlers.Reply): State
    requires job.downloaded < |s.marks|
  {
    match reply
    case Served => Deleted(Delivered(s, job, internal), job.id)
    case CutShort => Taken(s, job)
    case _ => s
  }

  /** The steps of a download that found the k-th publication, as it answered. */
  lemma DownloadAtOnce(c: Config, s: State, k: nat, internal: bool, reply: Handlers.Reply)
    requires Addressed(s) && s.submitter.Free? && k < |s.log|
    requires reply.Gone? || reply.Served? || reply.CutShort? ==>
               var job := s.heap[s.log[k].addr];
               job.status.Done? && (reply.Gone? <==> s.marks[job.downloaded])
    ensures var job := s.heap[s.log[k].addr];
            var es := DownloadEvents(k, job.id, internal, reply);
            Runs(c, s, es) && After(c, s, es) == AfterDownload(s, job, internal, reply)
  {
    match reply
    case Served => DeliverAtOnce(c, s, k, internal);
    case CutShort => CutShortAtOnce(c, s, k, internal);
    case Gone => GoneAtOnce(c, s, k);
    case _ =>
  }

  lemma AfterDownloadParts(s: State, job: Record, internal: bool, reply: Handlers.Reply)
    requires job.downloaded < |s.marks|
    ensures var t := AfterDownload(s, job, internal, reply);
            && t.heap == s.heap && t.chan == s.chan && t.inflight == s.inflight
            && t.marks == (if Handlers.Takes(reply) then s.marks[job.downloaded := true] else s.marks)
            && t.jobs == (if reply.Served? then s.jobs - {job.id} else s.jobs)
            && t.order == (if reply.Served? then RemoveFirst(s.order, job.id) else s.order)
            && t.processed == (if reply.Served? && !internal then s.processed + 1 else s.processed)
  {
  }

  /** After a call that took the flag f or left it, the queue shows the state the steps lead to. */
  lemma DownloadShows(q: Queue, c: Config, s: State, p: Places, k: nat,
                      f: AtomicBool, internal: bool, reply: Handlers.Reply)
    requires Addressed(s) && s.submitter.Free? && k < |s.log|
    requires f in p.flags && p.flags[f] == s.heap[s.log[k].addr].downloaded
    requires JobsAt(s.heap, p) && OtherFlagsAt(s.marks, p, f) && ChannelAt(q.jobChan, s.chan, p)
    requires f.marked == (s.marks[p.flags[f]] || Handlers.Takes(reply))
    requires reply.Gone? || reply.Served? || reply.CutShort? ==>
               s.heap[s.log[k].addr].status.Done? && (reply.Gone? <==> s.marks[p.flags[f]])
    requires var id := s.heap[s.log[k].addr].id;
             && TableAt(q.jobs, if reply.Served? then s.jobs - {id} else s.jobs, p)
             && q.queueOrder == if reply.Served? then RemoveFirst(s.order, id) else s.order
    requires q.maxSize == c.maxSize && q.perClientLimit == PerClientLimit(c.maxSize) && q.inflight == s.inflight
    ensures var es := DownloadEvents(k, s.heap[s.log[k].addr].id, internal, reply);
            && Runs(c, s, es) && Shows(q, c, After(c, s, es), p)
            && After(c, s, es).processed == if reply.Served? && !internal then s.processed + 1 else s.processed
  {
    hide Runs, After, JobsAt, FlagsAt, OtherFlagsAt, TableAt, ChannelAt, DownloadEvents, AfterDownload, RemoveFirst;
    DownloadAtOnce(c, s, k, internal, reply);
    AfterDownloadParts(s, s.heap[s.log[k].addr], internal, reply);
    UpdateFlag(s.marks, p, f);
    var marks := s.marks[p.flags[f] := f.marked];
    assert marks == if Handlers.Takes(reply) then s.marks[p.flags[f] := true] else s.marks;
  }

  method Download(q: Queue, stats: KvLedger.Store, ghost c: Config, ghost s: State, ghost p: Places,
                  jobID: string, opens: bool, copies: bool, internal: bool)
    returns (reply: Handlers.Reply, ghost es: seq<Event>)
    requires Sound(c, s) && Shows(q, c, s, p) && s.submitter.Free?
    modifies q, stats, Handlers.FlagOf(q, jobID)
    ensures reply.NotFound? ==> es == []
    ensures !reply.NotFound? ==>
              && jobID in s.jobs
              && exists k :: 0 <= k < |s.log| && s.log[k].addr == s.jobs[jobID]
                        && es == DownloadEvents(k, jobID, internal, reply)
    ensures Runs(c, s, es) && Shows(q, c, After(c, s, es), p)
    ensures stats.pendingProcessed ==
              Handlers.Counted(stats, old(stats.pendingProcessed), After(c, s, es).processed == s.processed)
  {
    hide Sound, Addressed, Runs, After, JobsAt, FlagsAt, OtherFlagsAt, TableAt, ChannelAt, DownloadEvents, RemoveFirst;
    SoundIsAddressed(c, s);
    if jobID !in q.jobs {
      reply := Handlers.Download(q, stats, jobID, opens, copies, internal);
      es := [];
      NoSteps(c, s);
      return;
    }
    ghost var job, f := q.jobs[jobID], q.jobs[jobID].downloaded;
    TableHas(q.jobs, s.jobs, p, jobID);
    LooksAs(s.heap, p, job);
    ghost var k := IsPublished(c, s, jobID);
    FlagHas(s.marks, p, f);
    OtherFlagsToo(s.marks, p, f);
    RemoveJob(q.jobs, s.jobs, p, jobID);
    assert Handlers.FlagOf(q, jobID) == {f};
    reply := Handlers.Download(q, stats, jobID, opens, copies, internal);
    es := DownloadEvents(k, jobID, internal, reply);
    DownloadShows(q, c, s, p, k, f, internal, reply);
  }

  /** The cleaner on one snapshot, however old: k is its publication. */
  method CleanUp(q: Queue, ghost c: Config, ghost s: State, ghost p: Places,
                 job: Job, now: int, removable: set<string>, maxAge: int, ghost k: nat)
    returns (removed: bool, ghost es: seq<Event>)
    requires Addressed(s) && Shows(q, c, s, p) && s.submitter.Free?
    requires now <= s.now && maxAge == c.maxAge
    requires job in p.at && k < |s.log| && s.log[k].addr == p.at[job]
    modifies q
    ensures es == if removed then DeleteEvents(k, job.id, QueueMachine.Expired(now)) else []
    ensures Runs(c, s, es) && Shows(q, c, After(c, s, es), p)
  {
    hide Runs, After, Next, JobsAt, FlagsAt, TableAt, ChannelAt, DeleteEvents, Addressed;
    LooksAs(s.heap, p, job);
    RemoveJob(q.jobs, s.jobs, p, job.id);
    removed := Handlers.CleanUp(q, job, now, maxAge, removable);
    if removed {
      DeleteAtOnce(c, s, k, QueueMachine.Expired(now));
      es := DeleteEvents(k, job.id, QueueMachine.Expired(now));
    } else {
      NoSteps(c, s);
      es := [];
    }
  }
}
