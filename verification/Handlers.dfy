/**
 The clients of the queue, each undisturbed: the download handlers of
 internal/api/handlers/convert.go and the expired-job pass of internal/cleanup/cleanup.go.
 QueueMachine interleaves the same clients, step by step, with everything else.
 */
module Handlers {
  import opened Int64
  import opened JobQueue
  import opened KvLedger
  import opened Manifest
  import opened Paths
  import opened Text
  import opened Wrappers

  /** Why the files of a finished job cannot be served. */
  datatype Problem = NoManifest | InvalidPath | CannotOpen

  datatype Reply = NotFound | NotReady | Unservable(problem: Problem) | Gone | CutShort | Served

  function JobOf(q: Queue, jobID: string): set<Job>
    reads q
  {
    if jobID in q.jobs then {q.jobs[jobID]} else {}
  }

  function FlagOf(q: Queue, jobID: string): set<AtomicBool>
    reads q
  {
    set job | job in JobOf(q, jobID) :: job.downloaded
  }

  /** A job as a download finds it. */
  datatype Standing = Absent | Unfinished | Available | Taken

  function StandingOf(q: Queue, jobID: string): Standing
    reads q, JobOf(q, jobID), FlagOf(q, jobID)
  {
    if jobID !in q.jobs then Absent
    else
      var job := q.jobs[jobID];
      assert job in JobOf(q, jobID) && job.downloaded in FlagOf(q, jobID);
      if !job.status.Done? then Unfinished
      else if job.downloaded.marked then Taken else Available
  }

  /** What a download answers; `problem` is what it finds wrong with the files. */
  function Answer(found: Standing, problem: Option<Problem>, copies: bool): Reply {
    if found == Absent then NotFound
    else if found == Unfinished then NotReady
    else if problem.Some? then Unservable(problem.value)
    else if found == Taken then Gone
    else if copies then Served else CutShort
  }

  /** The result has been taken: by this answer nobody else gets it any more. */
  predicate Takes(reply: Reply) {
    reply == CutShort || reply == Served
  }

  /** After the last byte: count the download and delete the job. */
  method Finish(q: Queue, stats: Store, jobID: string, internal: bool)
    modifies q`jobs, q`queueOrder, stats`pendingProcessed
    ensures q.jobs == old(q.jobs) - {jobID} && q.queueOrder == RemoveFirst(old(q.queueOrder), jobID)
    ensures stats.pendingProcessed == Counted(stats, old(stats.pendingProcessed), internal)
  {
    if !internal {
      stats.IncrementProcessed();
    }
    q.DeleteJob(jobID);
  }

  function Counted(stats: Store, pending: int, internal: bool): int {
    if internal || !stats.enabled then pending else Add64(pending, 1)
  }

  /**
   One file. A download that is refused changes nothing; one cut short takes the result and
   keeps the job; only one served to the end is counted and deletes the job.
   */
  method Download(q: Queue, stats: Store, jobID: string, opens: bool, copies: bool, internal: bool)
    returns (reply: Reply)
    modifies q`jobs, q`queueOrder, stats`pendingProcessed, FlagOf(q, jobID)
    ensures reply == Answer(old(StandingOf(q, jobID)), if opens then None else Some(CannotOpen), copies)
    ensures reply == NotFound <==> jobID !in old(q.jobs)
    ensures reply == NotReady <==> jobID in old(q.jobs) && old(q.jobs[jobID].status) != Done
    ensures jobID in old(q.jobs) && old(q.jobs[jobID].status) == Done ==>
              && (reply == Unservable(CannotOpen) <==> !opens)
              && (reply == Gone <==> opens && old(q.jobs[jobID].downloaded.marked))
              && (reply == CutShort <==> opens && !old(q.jobs[jobID].downloaded.marked) && !copies)
              && (reply == Served <==> opens && !old(q.jobs[jobID].downloaded.marked) && copies)
    ensures jobID in old(q.jobs) ==>
              old(q.jobs[jobID]).downloaded.marked ==
              (old(q.jobs[jobID].downloaded.marked) || reply == CutShort || reply == Served)
    ensures q.jobs == if reply == Served then old(q.jobs) - {jobID} else old(q.jobs)
    ensures q.queueOrder == if reply == Served then RemoveFirst(old(q.queueOrder), jobID) else old(q.queueOrder)
    ensures stats.pendingProcessed ==
              if reply == Served then Counted(stats, old(stats.pendingProcessed), internal)
              else old(stats.pendingProcessed)
    ensures stats.pendingProcessed ==
              if reply == Served && !internal && stats.enabled then Add64(old(stats.pendingProcessed), 1)
              else old(stats.pendingProcessed)
  {
    var found := q.GetJob(jobID);
    if found.None? {
      return NotFound;
    }
    var job := found.value;
    if !job.status.Done? {
      return NotReady;
    }
    if !opens {
      return Unservable(CannotOpen);
    }
    assert job in JobOf(q, jobID) && job.downloaded in FlagOf(q, jobID);
    var first := job.MarkDownloaded();
    if !first {
      return Gone;
    }
    if !copies {
      return CutShort;
    }
    Finish(q, stats, jobID, internal);
    return Served;
  }

  // The archive of all files

  /** What opening one name of the manifest comes to, and the name it has in the archive. */
  datatype Opening = Opening(problem: Option<Problem>, entry: string)

  /** `files` is what is on disk. */
  function Open(base: seq<string>, name: string, files: set<seq<string>>): Opening {
    if name == "" then Opening(Some(NoManifest), "")
    else
      var path := OpenUnder(base, name);
      Opening(if path.None? then Some(InvalidPath) else if path.value !in files then Some(CannotOpen) else None,
              Clean(name))
  }

  function OpenAll(base: seq<string>, names: seq<string>, files: set<seq<string>>): (r: seq<Opening>)
    ensures |r| == |names| && forall i :: 0 <= i < |names| ==> r[i] == Open(base, names[i], files)
  {
    seq(|names|, i requires 0 <= i < |names| => Open(base, names[i], files))
  }

  function FirstProblem(openings: seq<Opening>): Option<Problem> {
    if openings == [] then None
    else if openings[0].problem.Some? then openings[0].problem
    else FirstProblem(openings[1..])
  }

  /** No manifest at all, or the problem of its first bad name. */
  function ManifestProblem(openings: seq<Opening>): Option<Problem> {
    if openings == [] then Some(NoManifest) else FirstProblem(openings)
  }

  /** The entries written before the first file that is gone; an entry that cannot be made is left out. */
  function Entries(openings: seq<Opening>, refused: set<string>): seq<string> {
    if openings == [] || openings[0].problem.Some? then []
    else (if openings[0].entry in refused then [] else [openings[0].entry]) + Entries(openings[1..], refused)
  }

  predicate AllOpen(openings: seq<Opening>) {
    forall i :: 0 <= i < |openings| ==> openings[i].problem.None?
  }

  /** After n names without a problem, the next one decides. */
  lemma {:induction false} AfterOpen(openings: seq<Opening>, refused: set<string>, n: nat)
    requires n <= |openings| && AllOpen(openings[..n])
    ensures n == |openings| ==> FirstProblem(openings).None?
    ensures n < |openings| && openings[n].problem.Some? ==>
              FirstProblem(openings) == openings[n].problem
              && Entries(openings, refused) == Entries(openings[..n], refused)
    ensures n < |openings| && openings[n].problem.None? ==>
              Entries(openings[..n + 1], refused) ==
              Entries(openings[..n], refused) + if openings[n].entry in refused then [] else [openings[n].entry]
    decreases n
  {
    if n > 0 {
      assert openings[0] == openings[..n][0];
      assert openings[1..][..n - 1] == openings[..n][1..];
      if n < |openings| {
        assert openings[1..][..n] == openings[..n + 1][1..];
      }
      AfterOpen(openings[1..], refused, n - 1);
    }
  }

  /** What a name opens, and what it is refused for. */
  lemma OpenExactlyWhen(base: seq<string>, name: string, files: set<seq<string>>)
    requires Names(base)
    ensures var unsafe := name != "" && (name[0] == '/' || '\0' in name || '\\' in name
                                         || "." in Split(name) || ".." in Split(name));
            var opening := Open(base, name, files);
            && (opening.problem == Some(NoManifest) <==> name == "")
            && (opening.problem == Some(InvalidPath) <==> unsafe)
            && (name != "" && !unsafe ==>
                  && opening.problem == (if base + NonEmpty(Split(name)) in files then None else Some(CannotOpen))
                  && opening.entry == Join(NonEmpty(Split(name))))
  {
    FirstTestDecides(base, name);
    if !UnsafeName(name) {
      CleanOfSafeName(name);
    }
  }

  /** No problem exactly when there are names and all of them open; else the first that does not. */
  lemma ProblemExactlyWhen(openings: seq<Opening>, n: nat)
    requires n <= |openings| && AllOpen(openings[..n])
    ensures n == |openings| ==> ManifestProblem(openings) == if n == 0 then Some(NoManifest) else None
    ensures n < |openings| && openings[n].problem.Some? ==> ManifestProblem(openings) == openings[n].problem
  {
    AfterOpen(openings, {}, n);
  }

  /**
   All files in one archive. `names` is the manifest of the job, `present` what can be opened
   when it is checked, `later` what can be opened when it is written.
   */
  method DownloadZip(q: Queue, stats: Store, jobID: string, base: seq<string>, names: seq<string>,
                     present: set<seq<string>>, later: set<seq<string>>, refused: set<string>, internal: bool)
    returns (reply: Reply, entries: seq<string>)
    modifies q`jobs, q`queueOrder, stats`pendingProcessed, FlagOf(q, jobID)
    ensures var problem := ManifestProblem(OpenAll(base, names, present));
            var copies := FirstProblem(OpenAll(base, names, later)).None?;
            reply == Answer(old(StandingOf(q, jobID)), problem, copies)
    ensures reply == NotFound <==> jobID !in old(q.jobs)
    ensures reply == NotReady <==> jobID in old(q.jobs) && old(q.jobs[jobID].status) != Done
    ensures jobID in old(q.jobs) && old(q.jobs[jobID].status) == Done ==>
              var problem := ManifestProblem(OpenAll(base, names, present));
              var complete := AllOpen(OpenAll(base, names, later));
              if problem.Some? then reply == Unservable(problem.value)
              else if old(q.jobs[jobID].downloaded.marked) then reply == Gone
              else if complete then reply == Served else reply == CutShort
    ensures entries ==
              if reply == CutShort || reply == Served then Entries(OpenAll(base, names, later), refused) else []
    ensures jobID in old(q.jobs) ==>
              old(q.jobs[jobID]).downloaded.marked ==
              (old(q.jobs[jobID].downloaded.marked) || reply == CutShort || reply == Served)
    ensures q.jobs == if reply == Served then old(q.jobs) - {jobID} else old(q.jobs)
    ensures q.queueOrder == if reply == Served then RemoveFirst(old(q.queueOrder), jobID) else old(q.queueOrder)
    ensures stats.pendingProcessed ==
              if reply == Served then Counted(stats, old(stats.pendingProcessed), internal)
              else old(stats.pendingProcessed)
    ensures stats.pendingProcessed ==
              if reply == Served && !internal && stats.enabled then Add64(old(stats.pendingProcessed), 1)
              else old(stats.pendingProcessed)
  {
    entries := [];
    var found := q.GetJob(jobID);
    if found.None? {
      return NotFound, [];
    }
    var job := found.value;
    if !job.status.Done? {
      return NotReady, [];
    }
    var problem := CheckNames(OpenAll(base, names, present));
    if problem.Some? {
      return Unservable(problem.value), [];
    }
    assert job in JobOf(q, jobID) && job.downloaded in FlagOf(q, jobID);
    var first := job.MarkDownloaded();
    if !first {
      return Gone, [];
    }
    var complete;
    entries, complete := WriteEntries(OpenAll(base, names, later), refused);
    if !complete {
      return CutShort, entries;
    }
    Finish(q, stats, jobID, internal);
    return Served, entries;
  }

  /** The first loop: every name must open before the result is taken. */
  method CheckNames(openings: seq<Opening>) returns (problem: Option<Problem>)
    ensures problem == ManifestProblem(openings)
  {
    if |openings| == 0 {
      return Some(NoManifest);
    }
    for i := 0 to |openings|
      invariant AllOpen(openings[..i])
    {
      AfterOpen(openings, {}, i);
      if openings[i].problem.Some? {
        return openings[i].problem;
      }
    }
    AfterOpen(openings, {}, |openings|);
    return None;
  }

  /** The second loop. The names have been checked, but a file may be gone by now. */
  method WriteEntries(openings: seq<Opening>, refused: set<string>) returns (entries: seq<string>, complete: bool)
    ensures entries == Entries(openings, refused)
    ensures complete <==> FirstProblem(openings).None?
    ensures complete <==> AllOpen(openings)
  {
    entries := [];
    for i := 0 to |openings|
      invariant AllOpen(openings[..i])
      invariant entries == Entries(openings[..i], refused)
    {
      AfterOpen(openings, refused, i);
      if openings[i].problem.Some? {
        return entries, false;
      }
      if openings[i].entry in refused {
        continue;
      }
      entries := entries + [openings[i].entry];
    }
    AfterOpen(openings, refused, |openings|);
    assert openings[..|openings|] == openings;
    return entries, true;
  }

  // The archive made from a manifest

  function ItemNames(items: seq<Item>): (names: seq<string>)
    ensures |names| == |items| && forall i :: 0 <= i < |items| ==> names[i] == items[i].name
  {
    seq(|items|, i requires 0 <= i < |items| => items[i].name)
  }

  function Places(base: seq<string>, fs: seq<Visit>): set<seq<string>> {
    set i | 0 <= i < |fs| :: base + fs[i].rel
  }

  lemma CleanOfNames(cs: seq<string>)
    requires cs != [] && Names(cs)
    ensures Clean(Join(cs)) == Join(cs)
  {
    SplitJoin(cs, '/');
    assert Name(cs[0]);
    assert Join(cs)[0] == cs[0][0];
    CleanPartsKeeps(false, [], cs);
    assert [] + cs == cs;
  }

  lemma {:induction false} AllEntries(openings: seq<Opening>, names: seq<string>)
    requires AllOpen(openings) && |openings| == |names|
    requires forall i :: 0 <= i < |names| ==> openings[i].entry == names[i]
    ensures FirstProblem(openings).None? && Entries(openings, {}) == names
  {
    if names != [] {
      AllEntries(openings[1..], names[1..]);
    }
  }

  /**
   From the walk to the archive: while the files that the walk listed are there, the manifest
   has no problem, and the archive holds each of them once, under its relative path, in order.
   */
  lemma ArchiveHoldsTheManifest(base: seq<string>, visits: seq<Visit>, files: set<seq<string>>)
    requires base != [] && Names(base)
    requires forall i :: 0 <= i < |visits| ==>
               && Plausible(visits[i])
               && forall j :: 0 <= j < |visits[i].rel| ==> '\0' !in visits[i].rel[j]
    requires TakeAll(base, Listed([], 0), visits).Ok? && Files(visits) != []
    requires Places(base, Files(visits)) <= files
    ensures var names := ItemNames(TakeAll(base, Listed([], 0), visits).value.files);
            && ManifestProblem(OpenAll(base, names, files)).None?
            && |names| == |Files(visits)|
            && (forall k :: 0 <= k < |names| ==> names[k] == Join(Files(visits)[k].rel))
            && Entries(OpenAll(base, names, files), {}) == names
  {
    WalkIsFaithful(base, Listed([], 0), visits);
    FilesPlausible(visits);
    var names := ItemNames(TakeAll(base, Listed([], 0), visits).value.files);
    var openings := OpenAll(base, names, files);
    forall k | 0 <= k < |names| ensures openings[k] == Opening(None, names[k]) {
      ManifestOpens(base, visits, k);
      CleanOfNames(Files(visits)[k].rel);
      assert base + Files(visits)[k].rel in Places(base, Files(visits));
    }
    AllEntries(openings, names);
  }

  // Clean-up

  /** The table keeps every job under its own ID. */
  ghost predicate Keyed(q: Queue)
    reads q
  {
    forall id :: id in q.jobs ==> q.jobs[id].id == id
  }

  /** A job without a completion time counts as ancient. */
  predicate Expired(job: Job, now: int, maxAge: int)
    reads job
  {
    job.status.Terminal() && (job.completedAt.Some? ==> now - job.completedAt.value >= maxAge)
  }

  /** The jobs that a pass removes. */
  function Doomed(jobs: map<string, Job>, now: int, maxAge: int, removable: set<string>): set<string>
    reads jobs.Values
  {
    set id | id in jobs && id in removable && Expired(jobs[id], now, maxAge)
  }

  /** The list without the first occurrence of each of these IDs. */
  function RemoveEach(order: seq<string>, ids: set<string>): seq<string> {
    if order == [] then []
    else if order[0] in ids then RemoveEach(order[1..], ids - {order[0]})
    else [order[0]] + RemoveEach(order[1..], ids)
  }

  /** In whatever order they are removed. */
  lemma {:induction false} RemoveOneMore(order: seq<string>, ids: set<string>, id: string)
    requires id !in ids
    ensures RemoveFirst(RemoveEach(order, ids), id) == RemoveEach(order, ids + {id})
  {
    if order != [] {
      if order[0] in ids {
        RemoveOneMore(order[1..], ids - {order[0]}, id);
        assert ids - {order[0]} + {id} == ids + {id} - {order[0]};
      } else if order[0] == id {
        assert ids + {id} - {id} == ids;
      } else {
        RemoveOneMore(order[1..], ids, id);
      }
    }
  }

  lemma {:induction false} RemoveUnlisted(order: seq<string>, ids: set<string>)
    requires forall id :: id in ids ==> id !in order
    ensures RemoveEach(order, ids) == order
  {
    if order != [] {
      assert order[0] in order;
      RemoveUnlisted(order[1..], ids);
    }
  }

  /** The body of the loop, for one snapshot. */
  method CleanUp(q: Queue, job: Job, now: int, maxAge: int, removable: set<string>) returns (removed: bool)
    modifies q`jobs, q`queueOrder
    ensures removed <==> job.id in removable && Expired(job, now, maxAge)
    ensures removed <==>
              && job.id in removable && (job.status == Done || job.status == Error)
              && (job.completedAt.None? || now - job.completedAt.value >= maxAge)
    ensures q.jobs == if removed then old(q.jobs) - {job.id} else old(q.jobs)
    ensures q.queueOrder == if removed then RemoveFirst(old(q.queueOrder), job.id) else old(q.queueOrder)
  {
    if job.status != Done && job.status != Error {
      return false;
    }
    if job.completedAt.Some? && now - job.completedAt.value < maxAge {
      return false;
    }
    if job.id !in removable {
      return false;
    }
    q.DeleteJob(job.id);
    return true;
  }

  lemma RemoveFromTable(jobs: map<string, Job>, gone: set<string>, id: string)
    ensures jobs - gone - {id} == jobs - (gone + {id})
  {
  }

  /** The loop over all snapshots, in any order. */
  method CleanUpEach(q: Queue, now: int, maxAge: int, removable: set<string>, ghost doomed: set<string>)
    requires Keyed(q) && doomed == Doomed(q.jobs, now, maxAge, removable)
    modifies q`jobs, q`queueOrder
    ensures q.jobs == old(q.jobs) - doomed && q.queueOrder == RemoveEach(old(q.queueOrder), doomed)
  {
    hide RemoveEach, RemoveFirst;
    var snapshots := q.jobs;
    var todo := snapshots.Keys;
    RemoveUnlisted(q.queueOrder, {});
    ghost var gone: set<string> := {};
    while todo != {}
      invariant todo <= snapshots.Keys
      invariant forall id :: id in gone ==> id in doomed && id !in todo
      invariant forall id :: id in doomed && id !in gone ==> id in todo
      invariant forall id :: id in todo ==> (id in doomed <==> id in removable && Expired(snapshots[id], now, maxAge))
      invariant q.jobs == snapshots - gone && q.queueOrder == RemoveEach(old(q.queueOrder), gone)
      decreases |todo|
    {
      var id :| id in todo;
      RemoveFromTable(snapshots, gone, id);
      RemoveOneMore(old(q.queueOrder), gone, id);
      var removed := CleanUp(q, snapshots[id], now, maxAge, removable);
      todo := todo - {id};
      if removed {
        gone := gone + {id};
      }
    }
    assert gone == doomed;
  }

  /**
   One pass. Exactly the expired jobs whose directory could be removed are gone, from the table and
   from the order list; where none of them was listed any more, nobody loses a place.
   */
  method CleanupExpiredJobs(q: Queue, now: int, maxAge: int, removable: set<string>)
    requires Keyed(q)
    modifies q`jobs, q`queueOrder
    ensures var doomed := old(Doomed(q.jobs, now, maxAge, removable));
            && q.jobs == old(q.jobs) - doomed
            && q.queueOrder == RemoveEach(old(q.queueOrder), doomed)
            && ((forall id :: id in doomed ==> id !in old(q.queueOrder)) ==> q.queueOrder == old(q.queueOrder))
    ensures forall id :: id in q.jobs <==>
              && id in old(q.jobs)
              && !(&& id in removable
                   && (old(q.jobs[id].status) == Done || old(q.jobs[id].status) == Error)
                   && (old(q.jobs[id].completedAt) == None || now - old(q.jobs[id].completedAt).value >= maxAge))
    ensures forall id :: id in q.jobs ==> q.jobs[id] == old(q.jobs[id])
  {
    ghost var doomed := Doomed(q.jobs, now, maxAge, removable);
    CleanUpEach(q, now, maxAge, removable, doomed);
    if forall id :: id in doomed ==> id !in old(q.queueOrder) {
      RemoveUnlisted(old(q.queueOrder), doomed);
    }
  }
}
