/**
 The steps of the machine, run undisturbed, are the methods of the program: what JobQueue.Queue
 and Handlers promise of one call is what a run of atomic steps adds up to.
 */
module QueueRefinement {
  import opened Wrappers
  import opened JobQueue
  import opened QueueMachine

  // Runs

  lemma RunFirst(c: Config, s: State, e: Event, es: seq<Event>)
    requires Addressed(s) && Enabled(c, s, e)
    requires Addressed(Next(c, s, e)) && Runs(c, Next(c, s, e), es)
    ensures Runs(c, s, [e] + es)
    ensures After(c, s, [e] + es) == After(c, Next(c, s, e), es)
  {
    assert ([e] + es)[1..] == es;
  }

  lemma {:induction false} RunAppend(c: Config, s: State, es: seq<Event>, fs: seq<Event>)
    requires Addressed(s) && Runs(c, s, es) && Runs(c, After(c, s, es), fs)
    ensures Runs(c, s, es + fs)
    ensures After(c, s, es + fs) == After(c, After(c, s, es), fs)
    decreases |es|
  {
    if es == [] {
      assert es + fs == fs;
    } else {
      StepAddressed(c, s, es[0]);
      RunAppend(c, Next(c, s, es[0]), es[1..], fs);
      RunFirst(c, s, es[0], es[1..] + fs);
      assert es + fs == [es[0]] + (es[1..] + fs);
    }
  }

  // Submission

  function SubmitEvents(id: string, ip: string, upload: Upload): seq<Event> {
    [Submit(Admit(id, ip, upload))] + ([Submit(StoreQueued)] + ([Submit(List)] + ([Submit(Count)] + [Submit(Send)])))
  }

  /** What Submit leaves behind, as Queue.Submit promises it. */
  function Submitted(s: State, id: string, ip: string, upload: Upload): State {
    var a := |s.heap|;
    var job := Record(id, ip, upload.request, Queued, upload.Stored(), None, "", |s.marks|);
    s.(heap := s.heap + [job], marks := s.marks + [false], jobs := s.jobs[id := a], chan := s.chan + [a],
       order := s.order + [id], inflight := Take(s.inflight, ip), log := s.log + [Publication(a, job)],
       accepted := s.accepted + [id])
  }

  /** The atomic steps of Submit, undisturbed, add up to the one that Queue.Submit specifies. */
  lemma SubmitAtOnce(c: Config, s: State, id: string, ip: string, upload: Upload)
    requires Addressed(s) && Enabled(c, s, Submit(Admit(id, ip, upload)))
    ensures var es := SubmitEvents(id, ip, upload);
            Runs(c, s, es) && After(c, s, es) == Submitted(s, id, ip, upload)
  {
    var s1 := Next(c, s, Submit(Admit(id, ip, upload)));
    SubmitAddressed(c, s, Admit(id, ip, upload));
    var s2 := Next(c, s1, Submit(StoreQueued));
    SubmitAddressed(c, s1, StoreQueued);
    var s3 := Next(c, s2, Submit(List));
    SubmitAddressed(c, s2, List);
    var s4 := Next(c, s3, Submit(Count));
    SubmitAddressed(c, s3, Count);
    var s5 := Next(c, s4, Submit(Send));
    SubmitAddressed(c, s4, Send);
    assert s5 == Submitted(s, id, ip, upload);
    assert [Submit(Send)] + [] == [Submit(Send)];
    RunFirst(c, s4, Submit(Send), []);
    RunFirst(c, s3, Submit(Count), [Submit(Send)]);
    RunFirst(c, s2, Submit(List), [Submit(Count)] + [Submit(Send)]);
    RunFirst(c, s1, Submit(StoreQueued), [Submit(List)] + ([Submit(Count)] + [Submit(Send)]));
    RunFirst(c, s, Submit(Admit(id, ip, upload)),
             [Submit(StoreQueued)] + ([Submit(List)] + ([Submit(Count)] + [Submit(Send)])));
  }

  /** A refused submission is one step that changes nothing. */
  lemma RefuseAtOnce(c: Config, s: State, ip: string)
    requires Addressed(s) && Enabled(c, s, Submit(Refuse(ip)))
    ensures Runs(c, s, [Submit(Refuse(ip))]) && After(c, s, [Submit(Refuse(ip))]) == s
  {
    assert [Submit(Refuse(ip))] + [] == [Submit(Refuse(ip))];
    RunFirst(c, s, Submit(Refuse(ip)), []);
  }

  // The worker

  const BEGIN_EVENTS: seq<Event> := [Work(Receive)] + ([Work(Dequeue)] + [Work(Begin)])

  function CompleteEvents(outcome: Outcome): seq<Event> {
    [Work(Finish(outcome))] + ([Work(Publish)] + [Work(ReleaseSlot)])
  }

  /** Up to the call of processFunc, as Queue.Begin promises it. */
  function Begun(s: State): State
    requires Addressed(s) && s.chan != []
  {
    var processing := s.heap[s.chan[0]].(status := Processing);
    var a := |s.heap|;
    s.(heap := s.heap + [processing, processing], chan := s.chan[1..], order := RemoveFirst(s.order, processing.id),
       jobs := s.jobs[processing.id := a + 1], log := s.log + [Publication(a + 1, processing)],
       started := s.started + [processing.id], worker := Running(a))
  }

  /** After processFunc, as Queue.Complete promises it. */
  function Completed(s: State, outcome: Outcome): State
    requires Addressed(s) && s.worker.Running?
  {
    var a := s.worker.local;
    var (status, error) := Verdict(outcome, s.heap[a].error);
    var final := s.heap[a].(status := status, error := error, completedAt := Some(s.now),
                            files := outcome.files);
    s.(heap := s.heap[a := final], jobs := s.jobs[final.id := a], inflight := Release(s.inflight, final.ownerIP),
       log := s.log + [Publication(a, final)], worker := Idle)
  }

  lemma BeginAtOnce(c: Config, s: State)
    requires Addressed(s) && s.worker.Idle? && s.submitter.Free? && s.chan != []
    ensures Runs(c, s, BEGIN_EVENTS) && After(c, s, BEGIN_EVENTS) == Begun(s)
  {
    hide RemoveFirst;
    var s1 := Next(c, s, Work(Receive));
    WorkAddressed(s, Receive);
    var s2 := Next(c, s1, Work(Dequeue));
    WorkAddressed(s1, Dequeue);
    var s3 := Next(c, s2, Work(Begin));
    WorkAddressed(s2, Begin);
    assert s3.heap == Begun(s).heap;
    assert [Work(Begin)] + [] == [Work(Begin)];
    RunFirst(c, s2, Work(Begin), []);
    RunFirst(c, s1, Work(Dequeue), [Work(Begin)]);
    RunFirst(c, s, Work(Receive), [Work(Dequeue)] + [Work(Begin)]);
  }

  lemma CompleteAtOnce(c: Config, s: State, outcome: Outcome)
    requires Addressed(s) && s.worker.Running? && s.submitter.Free?
    ensures Runs(c, s, CompleteEvents(outcome)) && After(c, s, CompleteEvents(outcome)) == Completed(s, outcome)
  {
    var s1 := Next(c, s, Work(Finish(outcome)));
    WorkAddressed(s, Finish(outcome));
    var s2 := Next(c, s1, Work(Publish));
    WorkAddressed(s1, Publish);
    var s3 := Next(c, s2, Work(ReleaseSlot));
    WorkAddressed(s2, ReleaseSlot);
    assert [Work(ReleaseSlot)] + [] == [Work(ReleaseSlot)];
    RunFirst(c, s2, Work(ReleaseSlot), []);
    RunFirst(c, s1, Work(Publish), [Work(ReleaseSlot)]);
    RunFirst(c, s, Work(Finish(outcome)), [Work(Publish)] + [Work(ReleaseSlot)]);
  }

  // Clients

  function DeliverEvents(k: nat, id: string, internal: bool): seq<Event> {
    [Client(Mark(k))] + ([Client(Serve(id, true, internal))] + DeleteEvents(k, id, Downloaded))
  }

  function DeleteEvents(k: nat, id: string, cause: Cause): seq<Event> {
    [Client(RemoveDir(k, cause))] + ([Client(DeleteRecord(k, cause))] + [Client(DeleteOrder(id))])
  }

  /** The directory is gone, then the record, then the place in the order list. */
  function Deleted(s: State, id: string): State {
    s.(removedDirs := s.removedDirs + {id}, jobs := s.jobs - {id}, deleting := s.deleting + {id},
       order := RemoveFirst(s.order, id))
  }

  /** One turn of the cleaner's loop, and the end of a download, as Queue.DeleteJob promises it. */
  lemma DeleteAtOnce(c: Config, s: State, k: nat, cause: Cause)
    requires Addressed(s) && s.submitter.Free? && k < |s.log| && MayGo(c, s, s.heap[s.log[k].addr], cause)
    ensures var id := s.heap[s.log[k].addr].id;
            Runs(c, s, DeleteEvents(k, id, cause)) && After(c, s, DeleteEvents(k, id, cause)) == Deleted(s, id)
  {
    var id := s.heap[s.log[k].addr].id;
    var s1 := Next(c, s, Client(RemoveDir(k, cause)));
    ClientFrame(c, s, RemoveDir(k, cause));
    var s2 := Next(c, s1, Client(DeleteRecord(k, cause)));
    ClientFrame(c, s1, DeleteRecord(k, cause));
    var s3 := Next(c, s2, Client(DeleteOrder(id)));
    ClientFrame(c, s2, DeleteOrder(id));
    assert [Client(DeleteOrder(id))] + [] == [Client(DeleteOrder(id))];
    RunFirst(c, s2, Client(DeleteOrder(id)), []);
    RunFirst(c, s1, Client(DeleteRecord(k, cause)), [Client(DeleteOrder(id))]);
    RunFirst(c, s, Client(RemoveDir(k, cause)), [Client(DeleteRecord(k, cause))] + [Client(DeleteOrder(id))]);
  }

  /** The result is taken and counted. */
  function Delivered(s: State, job: Record, internal: bool): State
    requires job.downloaded < |s.marks|
  {
    s.(marks := s.marks[job.downloaded := true], wins := s.wins + [job.id], serving := s.serving + {job.id} - {job.id},
       served := s.served + {job.id}, processed := s.processed + (if internal then 0 else 1))
  }

  /** The atomic steps of a download served to the end, undisturbed, add up to what Handlers.Download promises. */
  lemma DeliverAtOnce(c: Config, s: State, k: nat, internal: bool)
    requires Addressed(s) && s.submitter.Free? && k < |s.log|
    requires s.heap[s.log[k].addr].status.Done? && !s.marks[s.heap[s.log[k].addr].downloaded]
    ensures var job := s.heap[s.log[k].addr];
            var es := DeliverEvents(k, job.id, internal);
            Runs(c, s, es) && After(c, s, es) == Deleted(Delivered(s, job, internal), job.id)
  {
    var job := s.heap[s.log[k].addr];
    var s1 := Next(c, s, Client(Mark(k)));
    ClientFrame(c, s, Mark(k));
    var s2 := Next(c, s1, Client(Serve(job.id, true, internal)));
    ClientFrame(c, s1, Serve(job.id, true, internal));
    assert s2 == Delivered(s, job, internal);
    DeleteAtOnce(c, s2, k, Downloaded);
    RunFirst(c, s1, Client(Serve(job.id, true, internal)), DeleteEvents(k, job.id, Downloaded));
    RunFirst(c, s, Client(Mark(k)), [Client(Serve(job.id, true, internal))] + DeleteEvents(k, job.id, Downloaded));
  }

  /** A download of a result that is taken changes nothing. */
  lemma GoneAtOnce(c: Config, s: State, k: nat)
    requires Addressed(s) && k < |s.log|
    requires s.heap[s.log[k].addr].status.Done? && s.marks[s.heap[s.log[k].addr].downloaded]
    ensures Runs(c, s, [Client(Mark(k))]) && After(c, s, [Client(Mark(k))]) == s
  {
    assert [Client(Mark(k))] + [] == [Client(Mark(k))];
    RunFirst(c, s, Client(Mark(k)), []);
  }

  function CutShortEvents(k: nat, id: string, internal: bool): seq<Event> {
    [Client(Mark(k))] + [Client(Serve(id, false, internal))]
  }

  /** The result is taken, and that is all. */
  function Taken(s: State, job: Record): State
    requires job.downloaded < |s.marks|
  {
    s.(marks := s.marks[job.downloaded := true], wins := s.wins + [job.id], serving := s.serving + {job.id} - {job.id})
  }

  lemma CutShortAtOnce(c: Config, s: State, k: nat, internal: bool)
    requires Addressed(s) && k < |s.log|
    requires s.heap[s.log[k].addr].status.Done? && !s.marks[s.heap[s.log[k].addr].downloaded]
    ensures var job := s.heap[s.log[k].addr];
            var es := CutShortEvents(k, job.id, internal);
            Runs(c, s, es) && After(c, s, es) == Taken(s, job)
  {
    var job := s.heap[s.log[k].addr];
    var s1 := Next(c, s, Client(Mark(k)));
    ClientFrame(c, s, Mark(k));
    var s2 := Next(c, s1, Client(Serve(job.id, false, internal)));
    ClientFrame(c, s1, Serve(job.id, false, internal));
    assert [Client(Serve(job.id, false, internal))] + [] == [Client(Serve(job.id, false, internal))];
    RunFirst(c, s1, Client(Serve(job.id, false, internal)), []);
    RunFirst(c, s, Client(Mark(k)), [Client(Serve(job.id, false, internal))]);
  }
}
