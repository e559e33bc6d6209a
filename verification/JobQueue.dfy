/**
 The bounded job queue of internal/queue/queue.go: its data, the pure functions that say
 what each critical section does, and the Queue object itself.

 QueueMachine takes the same functions apart into the atomic steps that submitters, the
 worker, downloaders and the cleaner interleave.
 */
module JobQueue {
  import opened Wrappers

  datatype Status = Queued | Processing | Done | Error {
    predicate Terminal() {
      Done? || Error?
    }
  }

  /** What the client asked for; neither the queue nor a conversion changes it. */
  datatype Request = Request(conversion: string, originalName: string)

  /** The files of a job. A conversion writes the output, and may replace the input as well. */
  datatype JobFiles = JobFiles(inputPath: string, inputSize: int, outputPath: string, outputSize: int)

  /** What the client sent. */
  datatype Upload = Upload(request: Request, inputPath: string, inputSize: int) {
    function Stored(): JobFiles {
      JobFiles(inputPath, inputSize, "", 0)
    }
  }

  /** What processFunc leaves behind in the worker's copy, with its error if it failed. */
  datatype Outcome = Outcome(error: Option<string>, files: JobFiles)

  const MAX_OUTPUT_SIZE: int := 104857600

  /** The verdict of the worker on a finished conversion: status and error text. */
  function Verdict(o: Outcome, kept: string): (Status, string) {
    if o.error.Some? then (Error, o.error.value)
    else if o.files.outputSize > MAX_OUTPUT_SIZE then (Error, "output file exceeds maximum allowed size")
    else (Done, kept)
  }

  /** Every verdict is done or error, and only an error has a new text. */
  lemma VerdictExactlyWhen(o: Outcome, kept: string)
    ensures var (status, text) := Verdict(o, kept);
            && (status == Done || status == Error)
            && (status == Done <==> o.error.None? && o.files.outputSize <= 100 * 1024 * 1024)
            && text == if status == Done then kept
                       else if o.error.Some? then o.error.value
                       else "output file exceeds maximum allowed size"
  {
  }

  function PerClientLimit(maxSize: nat): nat {
    if maxSize / 3 < 2 then 2 else maxSize / 3
  }

  // The in-flight table

  function InFlight(inflight: map<string, int>, ip: string): int {
    if ip in inflight then inflight[ip] else 0
  }

  function Take(inflight: map<string, int>, ip: string): map<string, int> {
    if ip == "" then inflight else inflight[ip := InFlight(inflight, ip) + 1]
  }

  function Release(inflight: map<string, int>, ip: string): map<string, int> {
    if ip == "" then inflight
    else if InFlight(inflight, ip) <= 1 then inflight - {ip}
    else inflight[ip := InFlight(inflight, ip) - 1]
  }

  /** Submit's two checks. */
  predicate Admits(maxSize: nat, waiting: nat, inflight: map<string, int>, ip: string) {
    && waiting < maxSize
    && (ip == "" || InFlight(inflight, ip) < PerClientLimit(maxSize))
  }

  /** Every count in the table is of at least one job. */
  predicate NoZeroEntries(inflight: map<string, int>) {
    forall ip :: ip in inflight ==> inflight[ip] >= 1
  }

  /** Releasing undoes taking, provided the table keeps no zero entries. */
  lemma ReleaseUndoesTake(inflight: map<string, int>, ip: string)
    requires NoZeroEntries(inflight)
    ensures NoZeroEntries(Take(inflight, ip))
    ensures Release(Take(inflight, ip), ip) == inflight
  {
    if ip != "" && ip !in inflight {
      assert inflight[ip := 1] - {ip} == inflight;
    }
  }

  // The order list

  function RemoveFirst(order: seq<string>, id: string): seq<string> {
    if order == [] then []
    else if order[0] == id then order[1..]
    else [order[0]] + RemoveFirst(order[1..], id)
  }

  /** 1-based place of id, 0 when it is not listed. */
  function Position(order: seq<string>, id: string): nat {
    if order == [] then 0
    else if order[0] == id then 1
    else
      var p := Position(order[1..], id);
      if p == 0 then 0 else p + 1
  }

  lemma {:induction false} PositionFinds(order: seq<string>, id: string)
    ensures Position(order, id) == 0 <==> id !in order
    ensures var p := Position(order, id);
            p > 0 ==> p <= |order| && order[p - 1] == id && id !in order[..p - 1]
  {
    if order != [] && order[0] != id {
      PositionFinds(order[1..], id);
      var p := Position(order[1..], id);
      if p > 0 {
        assert order[..p] == [order[0]] + order[1..][..p - 1];
      }
    }
  }

  /** Where a prefix without id ends in id, Position and RemoveFirst act at that place. */
  lemma {:induction false} FirstOccurrence(order: seq<string>, k: nat, id: string)
    requires k < |order| && order[k] == id && id !in order[..k]
    ensures Position(order, id) == k + 1
    ensures RemoveFirst(order, id) == order[..k] + order[k + 1..]
  {
    if k > 0 {
      assert order[0] in order[..k];
      assert order[1..][..k - 1] == order[..k][1..];
      FirstOccurrence(order[1..], k - 1, id);
      assert order[..k] == [order[0]] + order[1..][..k - 1];
      assert order[1..][k..] == order[k + 1..];
    }
  }

  lemma {:induction false} RemoveAbsent(order: seq<string>, id: string)
    requires id !in order
    ensures RemoveFirst(order, id) == order
    ensures Position(order, id) == 0
  {
    if order != [] {
      RemoveAbsent(order[1..], id);
    }
  }

  // The objects

  class AtomicBool {
    var marked: bool

    constructor ()
      ensures !marked
    {
      marked := false;
    }

    /** CompareAndSwap(false, true). */
    method Mark() returns (first: bool)
      modifies this
      ensures marked && first == !old(marked)
    {
      first := !marked;
      marked := true;
    }
  }

  class Job {
    const id: string
    const ownerIP: string
    const request: Request
    const createdAt: int
    const downloaded: AtomicBool
    var status: Status
    var files: JobFiles
    var completedAt: Option<int>
    var error: string

    constructor (id: string, ownerIP: string, upload: Upload, now: int, flag: AtomicBool)
      ensures this.id == id && this.ownerIP == ownerIP && request == upload.request
      ensures createdAt == now && downloaded == flag
      ensures status == Queued && files == upload.Stored() && completedAt == None && error == ""
    {
      this.id, this.ownerIP, request, createdAt, downloaded := id, ownerIP, upload.request, now, flag;
      status, files, completedAt, error := Queued, upload.Stored(), None, "";
    }

    /** Go's `copy := *job`: a new record, the same downloaded cell. */
    constructor Copy(job: Job)
      ensures SameAs(job)
    {
      id, ownerIP, request, createdAt, downloaded := job.id, job.ownerIP, job.request, job.createdAt, job.downloaded;
      status, files, completedAt, error := job.status, job.files, job.completedAt, job.error;
    }

    ghost predicate SameAs(job: Job)
      reads this, job
    {
      && SameJob(job)
      && status == job.status && files == job.files && completedAt == job.completedAt && error == job.error
    }

    /** Copies of one submission: equal in all that is never written, sharing one cell. */
    ghost predicate SameJob(job: Job) {
      && id == job.id && ownerIP == job.ownerIP && request == job.request && createdAt == job.createdAt
      && downloaded == job.downloaded
    }

    method MarkDownloaded() returns (first: bool)
      modifies downloaded
      ensures downloaded.marked && first == !old(downloaded.marked)
    {
      first := downloaded.Mark();
    }
  }

  class Queue {
    const maxSize: nat
    const perClientLimit: nat
    var jobs: map<string, Job>
    var jobChan: seq<Job>
    var queueOrder: seq<string>
    var inflight: map<string, int>

    constructor (maxSize: nat)
      ensures this.maxSize == maxSize && perClientLimit == PerClientLimit(maxSize)
      ensures jobs == map[] && jobChan == [] && queueOrder == [] && inflight == map[]
    {
      var limit := maxSize / 3;
      if limit < 2 {
        limit := 2;
      }
      this.maxSize, perClientLimit := maxSize, limit;
      jobs, jobChan, queueOrder, inflight := map[], [], [], map[];
    }

    method Submit(jobID: string, ownerIP: string, upload: Upload, now: int)
      returns (accepted: Option<Job>, position: int)
      requires perClientLimit == PerClientLimit(maxSize)
      modifies this
      ensures accepted.Some? <==> Admits(maxSize, |old(jobChan)|, old(inflight), ownerIP)
      ensures accepted.Some? <==>
                && |old(jobChan)| < maxSize
                && (ownerIP == "" || ownerIP !in old(inflight)
                    || old(inflight)[ownerIP] < 2 || 3 * (old(inflight)[ownerIP] + 1) <= maxSize)
      ensures accepted.None? ==>
                && position == 0 && jobs == old(jobs) && jobChan == old(jobChan)
                && queueOrder == old(queueOrder) && inflight == old(inflight)
      ensures accepted.Some? ==>
                var job := accepted.value;
                && fresh(job) && fresh(job.downloaded) && !job.downloaded.marked
                && job.id == jobID && job.ownerIP == ownerIP && job.request == upload.request
                && job.status == Queued && job.files == upload.Stored() && job.completedAt == None && job.error == ""
                && jobs == old(jobs)[jobID := job] && jobChan == old(jobChan) + [job]
                && queueOrder == old(queueOrder) + [jobID]
                && inflight == Take(old(inflight), ownerIP)
                && position == |queueOrder|
      ensures accepted.Some? ==>
                && accepted.value.files == JobFiles(upload.inputPath, upload.inputSize, "", 0)
                && accepted.value.createdAt == now
    {
      if |jobChan| >= maxSize {
        return None, 0;
      }
      if ownerIP != "" && perClientLimit > 0 && InFlight(inflight, ownerIP) >= perClientLimit {
        return None, 0;
      }
      var flag := new AtomicBool();
      var job := new Job(jobID, ownerIP, upload, now, flag);
      jobs := jobs[jobID := job];
      queueOrder := queueOrder + [jobID];
      if ownerIP != "" {
        inflight := inflight[ownerIP := InFlight(inflight, ownerIP) + 1];
      }
      jobChan := jobChan + [job];
      return Some(job), |queueOrder|;
    }

    method ReleaseSlot(ownerIP: string)
      modifies `inflight
      ensures inflight == Release(old(inflight), ownerIP)
    {
      if ownerIP == "" {
        return;
      }
      if InFlight(inflight, ownerIP) <= 1 {
        inflight := inflight - {ownerIP};
      } else {
        inflight := inflight[ownerIP := inflight[ownerIP] - 1];
      }
    }

    method GetJob(jobID: string) returns (r: Option<Job>)
      ensures r == if jobID in jobs then Some(jobs[jobID]) else None
    {
      if jobID !in jobs {
        return None;
      }
      return Some(jobs[jobID]);
    }

    method GetPosition(jobID: string) returns (position: int)
      ensures position == Position(queueOrder, jobID)
    {
      for i := 0 to |queueOrder|
        invariant jobID !in queueOrder[..i]
      {
        if queueOrder[i] == jobID {
          FirstOccurrence(queueOrder, i, jobID);
          return i + 1;
        }
      }
      RemoveAbsent(queueOrder, jobID);
      return 0;
    }

    method RemoveFromOrder(jobID: string)
      modifies `queueOrder
      ensures queueOrder == RemoveFirst(old(queueOrder), jobID)
    {
      for i := 0 to |queueOrder|
        invariant queueOrder == old(queueOrder) && jobID !in queueOrder[..i]
      {
        if queueOrder[i] == jobID {
          FirstOccurrence(queueOrder, i, jobID);
          queueOrder := queueOrder[..i] + queueOrder[i + 1..];
          return;
        }
      }
      RemoveAbsent(queueOrder, jobID);
    }

    method DeleteJob(jobID: string)
      modifies `jobs, `queueOrder
      ensures jobs == old(jobs) - {jobID}
      ensures queueOrder == RemoveFirst(old(queueOrder), jobID)
    {
      jobs := jobs - {jobID};
      RemoveFromOrder(jobID);
    }

    /** Up to the call of processFunc: the worker's copy and the snapshot it publishes. */
    method Begin() returns (job: Job, processing: Job)
      requires jobChan != []
      modifies this
      ensures var queued := old(jobChan[0]);
              && fresh(job) && fresh(processing) && processing != job
              && job.SameJob(queued) && processing.SameAs(job)
              && job.status == Processing && job.completedAt == old(queued.completedAt)
              && job.error == old(queued.error) && job.files == old(queued.files)
              && jobs == old(jobs)[queued.id := processing]
              && jobChan == old(jobChan)[1..]
              && queueOrder == RemoveFirst(old(queueOrder), queued.id)
              && inflight == old(inflight)
    {
      var queued := jobChan[0];
      jobChan := jobChan[1..];
      job := new Job.Copy(queued);
      RemoveFromOrder(job.id);
      job.status := Processing;
      processing := new Job.Copy(job);
      jobs := jobs[job.id := processing];
    }

    /** After processFunc: judge the outcome, publish the worker's copy, free its slot. */
    method Complete(job: Job, outcome: Outcome, now: int)
      modifies job, `jobs, `inflight
      ensures (job.status, job.error) == Verdict(outcome, old(job.error))
      ensures job.files == outcome.files
      ensures job.status == Done <==> outcome.error.None? && outcome.files.outputSize <= 100 * 1024 * 1024
      ensures job.status == Error && outcome.error.Some? ==> job.error == outcome.error.value
      ensures job.completedAt == Some(now)
      ensures jobs == old(jobs)[job.id := job]
      ensures inflight == Release(old(inflight), job.ownerIP)
    {
      job.files := outcome.files;
      if outcome.error.Some? {
        job.status, job.error := Error, outcome.error.value;
      } else if job.files.outputSize > MAX_OUTPUT_SIZE {
        job.status, job.error := Error, "output file exceeds maximum allowed size";
      } else {
        job.status := Done;
      }
      job.completedAt := Some(now);
      jobs := jobs[job.id := job];
      ReleaseSlot(job.ownerIP);
    }

    /**
     One turn of the worker's loop. The record that was queued and the processing snapshot
     are other objects than the one the worker writes, so what was published keeps its fields.
     */
    method Work(outcome: Outcome, now: int) returns (processing: Job, final: Job)
      requires jobChan != []
      modifies this
      ensures var queued := old(jobChan[0]);
              && fresh(processing) && fresh(final) && processing != final
              && processing.SameJob(queued) && final.SameJob(queued)
              && processing.status == Processing && processing.completedAt == old(queued.completedAt)
              && (final.status, final.error) == Verdict(outcome, old(queued.error))
              && (final.status == Done <==> outcome.error.None? && outcome.files.outputSize <= 100 * 1024 * 1024)
              && final.files == outcome.files && processing.files == old(queued.files)
              && final.completedAt == Some(now)
              && jobs == old(jobs)[queued.id := final]
              && jobChan == old(jobChan)[1..]
              && queueOrder == RemoveFirst(old(queueOrder), queued.id)
              && inflight == Release(old(inflight), queued.ownerIP)
    {
      final, processing := Begin();
      Complete(final, outcome, now);
    }
  }
}
