/** The per-client slots: what they count, what they bound, and why no client can fill the queue. */
module QueueFairness {
  import opened JobQueue
  import opened QueueMachine
  import opened QueueInvariant

  function Owners(h: seq<Record>, q: seq<nat>): (r: seq<string>)
    requires forall i :: 0 <= i < |q| ==> q[i] < |h|
    ensures |r| == |q| && forall i :: 0 <= i < |q| ==> r[i] == h[q[i]].ownerIP
  {
    seq(|q|, i requires 0 <= i < |q| => h[q[i]].ownerIP)
  }

  /** The owner whose job the worker has not released, the one whose job is counted and unsent. */
  function HeldBy(s: State): multiset<string>
    requires Addressed(s)
  {
    if Holds(s.worker) then multiset{s.heap[s.worker.local].ownerIP} else multiset{}
  }

  function CountedFor(s: State): multiset<string>
    requires Addressed(s)
  {
    if s.submitter.Counted? then multiset{s.heap[s.submitter.job].ownerIP} else multiset{}
  }

  /** How many unfinished jobs each client has past the counting in Submit. */
  function Load(s: State): multiset<string>
    requires Addressed(s)
  {
    multiset(Owners(s.heap, s.chan)) + HeldBy(s) + CountedFor(s)
  }

  /** The table counts exactly the load of the clients that are not exempt, within the limit. */
  ghost predicate Tally(inflight: map<string, int>, load: multiset<string>, limit: nat) {
    && (forall ip :: ip != "" ==> InFlight(inflight, ip) == load[ip])
    && NoZeroEntries(inflight)
    && "" !in inflight
    && (forall ip :: ip in inflight ==> inflight[ip] <= limit)
  }

  lemma TallyTake(inflight: map<string, int>, load: multiset<string>, limit: nat, ip: string)
    requires Tally(inflight, load, limit)
    requires ip == "" || InFlight(inflight, ip) < limit
    ensures Tally(Take(inflight, ip), load + multiset{ip}, limit)
  {
  }

  /** The slot given back is one that was taken: the count is of at least this job. */
  lemma TallyRelease(inflight: map<string, int>, load: multiset<string>, limit: nat, ip: string)
    requires Tally(inflight, load + multiset{ip}, limit)
    ensures ip != "" ==> InFlight(inflight, ip) >= 1
    ensures Tally(Release(inflight, ip), load, limit)
  {
    var m := load + multiset{ip};
    assert forall x :: x != ip ==> m[x] == load[x];
  }

  ghost predicate Accounts(c: Config, s: State)
    requires Addressed(s)
  {
    Tally(s.inflight, Load(s), PerClientLimit(c.maxSize))
  }

  /** The room that Submit's checks found is still there when it takes it. */
  ghost predicate Room(c: Config, s: State)
    requires Addressed(s)
  {
    && |s.chan| <= c.maxSize
    && (!s.submitter.Free? ==> |s.chan| < c.maxSize)
    && (s.submitter.Admitted? || s.submitter.Stored? || s.submitter.Listed? ==>
          var ip := s.heap[s.submitter.job].ownerIP;
          ip == "" || InFlight(s.inflight, ip) < PerClientLimit(c.maxSize))
  }

  lemma SubmitOwners(c: Config, s: State, a: SubmitStep)
    requires Addressed(s) && MaySubmit(c, s, a)
    ensures var t := SubmitNext(c, s, a);
            && Addressed(t)
            && Owners(t.heap, t.chan) == Owners(s.heap, s.chan)
               + if a.Send? then [s.heap[s.submitter.job].ownerIP] else []
  {
    SubmitNames(c, s, a);
  }

  lemma SubmitCounted(c: Config, s: State, a: SubmitStep)
    requires Addressed(s) && MaySubmit(c, s, a)
    ensures var t := SubmitNext(c, s, a);
            && Addressed(t) && HeldBy(t) == HeldBy(s)
            && CountedFor(t) == match a
                                case Count => multiset{s.heap[s.submitter.job].ownerIP}
                                case Send => multiset{}
                                case _ => CountedFor(s)
  {
    SubmitNames(c, s, a);
  }

  lemma SubmitLoad(c: Config, s: State, a: SubmitStep)
    requires Addressed(s) && MaySubmit(c, s, a)
    ensures var t := SubmitNext(c, s, a);
            && Addressed(t)
            && Load(t) == Load(s) + if a.Count? then multiset{s.heap[s.submitter.job].ownerIP} else multiset{}
  {
    SubmitOwners(c, s, a);
    SubmitCounted(c, s, a);
  }

  lemma WorkOwners(s: State, w: WorkStep)
    requires Addressed(s) && MayWork(s, w)
    ensures var t := WorkNext(s, w);
            && Addressed(t)
            && Owners(s.heap, s.chan) == (if w.Receive? then [s.heap[s.chan[0]].ownerIP] else [])
               + Owners(t.heap, t.chan)
  {
    WorkNames(s, w);
  }

  lemma WorkWaiting(s: State, w: WorkStep)
    requires Addressed(s) && MayWork(s, w)
    ensures var t := WorkNext(s, w);
            && Addressed(t)
            && multiset(Owners(s.heap, s.chan))
               == (if w.Receive? then multiset{s.heap[s.chan[0]].ownerIP} else multiset{})
                  + multiset(Owners(t.heap, t.chan))
  {
    WorkOwners(s, w);
    if !w.Receive? {
      assert [] + Owners(WorkNext(s, w).heap, WorkNext(s, w).chan) == Owners(s.heap, s.chan);
    }
  }

  lemma WorkHeld(s: State, w: WorkStep)
    requires Addressed(s) && MayWork(s, w)
    ensures var t := WorkNext(s, w);
            && Addressed(t)
            && HeldBy(t) == match w
                            case Receive => multiset{s.heap[s.chan[0]].ownerIP}
                            case ReleaseSlot => multiset{}
                            case _ => HeldBy(s)
  {
    WorkNames(s, w);
  }

  lemma WorkCounted(s: State, w: WorkStep)
    requires Addressed(s) && MayWork(s, w)
    ensures Addressed(WorkNext(s, w)) && CountedFor(WorkNext(s, w)) == CountedFor(s)
  {
    WorkNames(s, w);
  }

  lemma WorkLoad(s: State, w: WorkStep)
    requires Addressed(s) && MayWork(s, w)
    ensures var t := WorkNext(s, w);
            && Addressed(t)
            && Load(s) == Load(t) + if w.ReleaseSlot? then multiset{s.heap[s.worker.local].ownerIP} else multiset{}
  {
    WorkWaiting(s, w);
    WorkHeld(s, w);
    WorkCounted(s, w);
  }

  lemma WorkAccounts(c: Config, s: State, w: WorkStep)
    requires Addressed(s) && Accounts(c, s) && MayWork(s, w)
    ensures Addressed(WorkNext(s, w)) && Accounts(c, WorkNext(s, w))
  {
    hide Load, Tally;
    WorkLoad(s, w);
    var t := WorkNext(s, w);
    if w.ReleaseSlot? {
      TallyRelease(s.inflight, Load(t), PerClientLimit(c.maxSize), s.heap[s.worker.local].ownerIP);
    } else {
      assert Load(t) + multiset{} == Load(t);
      assert Load(t) == Load(s) && t.inflight == s.inflight;
    }
  }

  lemma WorkRoom(c: Config, s: State, w: WorkStep)
    requires Addressed(s) && Room(c, s) && MayWork(s, w)
    ensures Addressed(WorkNext(s, w)) && Room(c, WorkNext(s, w))
  {
    WorkNames(s, w);
  }

  lemma SubmitAccounts(c: Config, s: State, a: SubmitStep)
    requires Addressed(s) && Accounts(c, s) && Room(c, s) && MaySubmit(c, s, a)
    ensures Addressed(SubmitNext(c, s, a)) && Accounts(c, SubmitNext(c, s, a))
  {
    hide Load, Tally;
    SubmitLoad(c, s, a);
    var t := SubmitNext(c, s, a);
    if a.Count? {
      TallyTake(s.inflight, Load(s), PerClientLimit(c.maxSize), s.heap[s.submitter.job].ownerIP);
    } else {
      assert Load(s) + multiset{} == Load(s);
      assert Load(t) == Load(s) && t.inflight == s.inflight;
    }
  }

  lemma SubmitRoom(c: Config, s: State, a: SubmitStep)
    requires Addressed(s) && Room(c, s) && MaySubmit(c, s, a)
    ensures Addressed(SubmitNext(c, s, a)) && Room(c, SubmitNext(c, s, a))
  {
    SubmitAddressed(c, s, a);
  }

  /** Every step keeps the accounts, and the room that Submit has found. */
  lemma StepFairness(c: Config, s: State, e: Event)
    requires Addressed(s) && Accounts(c, s) && Room(c, s) && Enabled(c, s, e)
    ensures Addressed(Next(c, s, e)) && Accounts(c, Next(c, s, e)) && Room(c, Next(c, s, e))
  {
    match e
    case Tick(_) =>
    case Submit(a) =>
      SubmitAccounts(c, s, a);
      SubmitRoom(c, s, a);
    case Work(w) =>
      WorkAccounts(c, s, w);
      WorkRoom(c, s, w);
    case Client(x) => ClientFrame(c, s, x);
  }
}
