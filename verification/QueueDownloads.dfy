/** When a result can be downloaded, and when it is lost although it is kept. */
module QueueDownloads {
  import opened Wrappers
  import opened JobQueue
  import opened QueueMachine
  import opened QueueInvariant
  import opened QueueLifeCycle
  import opened QueueDelivery
  import opened QueueRefinement
  import opened QueueTheorems

  /**
   Whatever snapshot a handler holds of a done job, however old: it wins the download exactly
   when nobody has won it before, and otherwise nothing happens at all.
   */
  lemma MarkWinsExactlyWhen(c: Config, s: State, k: nat)
    requires Reachable(c, s) && k < |s.log| && s.log[k].job.status.Done?
    ensures Addressed(s) && Enabled(c, s, Client(Mark(k)))
    ensures var id, t := s.log[k].job.id, Next(c, s, Client(Mark(k)));
            && (t.wins == s.wins + [id] <==> id !in s.wins)
            && (t == s <==> id in s.wins)
  {
    ReachableSound(c, s);
    WinsByFlag(c, s, k);
  }

  lemma WinsByFlag(c: Config, s: State, k: nat)
    requires Addressed(s) && Frozen(s.heap, s.log) && Marked(s) && k < |s.log| && s.log[k].job.status.Done?
    ensures MayDo(c, s, Mark(k))
    ensures var id, t := s.log[k].job.id, ClientNext(c, s, Mark(k));
            if id in s.wins then t == s && t.wins != s.wins + [id] else t.wins == s.wins + [id] && t != s
  {
    var id := s.log[k].job.id;
    assert |s.wins + [id]| != |s.wins|;
  }

  /** Won, and not served: no download of it is under way, and none has come to its end. */
  predicate Lost(s: State, id: string) {
    id in s.wins && id !in s.serving && id !in s.served
  }

  lemma StepLost(c: Config, s: State, e: Event, id: string)
    requires Addressed(s) && Frozen(s.heap, s.log) && Marked(s) && Lost(s, id) && Enabled(c, s, e)
    ensures Lost(Next(c, s, e), id)
  {
    match e
    case Tick(_) =>
    case Submit(_) =>
    case Work(_) =>
    case Client(x) =>
      if x.Mark? {
        WinsByFlag(c, s, x.k);
      }
  }

  /** A result lost in this way is never served, however the run goes on. */
  lemma {:induction false} LostForGood(c: Config, s: State, es: seq<Event>, id: string)
    requires Sound(c, s) && Runs(c, s, es) && Lost(s, id)
    ensures Lost(After(c, s, es), id)
    decreases |es|
  {
    if es != [] {
      StepSound(c, s, es[0]);
      StepLost(c, s, es[0], id);
      LostForGood(c, Next(c, s, es[0]), es[1..], id);
    }
  }

  /** One job, submitted and converted. */
  lemma OneJobDone(c: Config, now: int, id: string) returns (es: seq<Event>, s: State)
    requires c.maxSize >= 1
    ensures Runs(c, Init(now), es) && s == After(c, Init(now), es)
    ensures s.submitter.Free? && id in s.jobs && s.wins == [] && s.serving == s.served == s.removedDirs == {}
    ensures |s.log| == 3 && s.log[2].addr < |s.heap|
    ensures var job := s.heap[s.log[2].addr];
            job.id == id && job.status.Done? && job.downloaded < |s.marks| && !s.marks[job.downloaded]
  {
    hide Runs, After, SubmitEvents, CompleteEvents;
    var s0, upload := Init(now), Upload(Request("", ""), "", 0);
    var outcome := Outcome(None, JobFiles("", 0, "", 0));
    var es1, es2 := SubmitEvents(id, "", upload), CompleteEvents(outcome);
    SubmitAtOnce(c, s0, id, "", upload);
    var s1 := Submitted(s0, id, "", upload);
    BeginAtOnce(c, s1);
    var s2 := Begun(s1);
    CompleteAtOnce(c, s2, outcome);
    RunAppend(c, s0, es1, BEGIN_EVENTS);
    RunAppend(c, s0, es1 + BEGIN_EVENTS, es2);
    es := es1 + BEGIN_EVENTS + es2;
    s := Completed(s2, outcome);
  }

  /** Its only download cut short: the job is kept, and its result is lost for good. */
  lemma CutShortLosesTheResult(c: Config, now: int, id: string) returns (es: seq<Event>)
    requires c.maxSize >= 1
    ensures Runs(c, Init(now), es)
    ensures var t := After(c, Init(now), es);
            && id in t.jobs && id !in t.removedDirs && Lost(t, id)
            && forall fs :: Runs(c, t, fs) ==> id !in After(c, t, fs).served
  {
    hide Runs, After, CutShortEvents, Sound;
    var done, s := OneJobDone(c, now, id);
    CutShortAtOnce(c, s, 2, false);
    RunAppend(c, Init(now), done, CutShortEvents(2, id, false));
    es := done + CutShortEvents(2, id, false);
    InitSound(c, now);
    RunSound(c, Init(now), es);
    var t := After(c, Init(now), es);
    forall fs | Runs(c, t, fs) ensures id !in After(c, t, fs).served {
      LostForGood(c, t, fs, id);
    }
  }
}
