/** How a full queue is shared among clients. */
module QueueSharing {
  import opened JobQueue
  import opened QueueMachine
  import opened QueueFairness
  import opened QueueRefinement
  import opened QueueTheorems

  // Pigeonholes

  lemma {:induction false} MultisetBound(m: multiset<string>, keys: set<string>, limit: nat)
    requires forall x :: x in m ==> x in keys && m[x] <= limit
    ensures |m| <= |keys| * limit
  {
    if keys == {} {
      assert m == multiset{};
    } else {
      var x :| x in keys;
      MultisetBound(m[x := 0], keys - {x}, limit);
      assert |keys| * limit == |keys - {x}| * limit + limit;
    }
  }

  function Clients(s: State): set<string>
    requires Addressed(s)
  {
    set ip | ip in Owners(s.heap, s.chan)
  }

  /** The jobs in a channel without exempt ones are at most as many as its clients' slots. */
  lemma SlotsBound(c: Config, s: State)
    requires Reachable(c, s) && Addressed(s) && "" !in Clients(s)
    ensures |s.chan| <= |Clients(s)| * PerClientLimit(c.maxSize)
  {
    hide Reachable, PerClientLimit;
    var m := multiset(Owners(s.heap, s.chan));
    forall x | x in m ensures x in Clients(s) && m[x] <= PerClientLimit(c.maxSize) {
      SlotsAreExact(c, s, x);
      assert Load(s)[x] >= m[x];
    }
    MultisetBound(m, Clients(s), PerClientLimit(c.maxSize));
    assert |m| == |s.chan|;
  }

  lemma EnoughClients(maxSize: nat, clients: nat)
    requires maxSize <= clients * PerClientLimit(maxSize)
    ensures maxSize >= 3 ==> clients >= 2
    ensures maxSize >= 5 ==> clients >= 3
  {
    if clients <= 2 {
      assert clients * PerClientLimit(maxSize) <= 2 * PerClientLimit(maxSize);
    }
    if clients <= 1 {
      assert clients * PerClientLimit(maxSize) <= PerClientLimit(maxSize);
    }
  }

  /**
   A full channel without exempt jobs belongs to enough clients that none of them holds more
   than its limit: to two at least from three places on, to three at least from five.
   */
  lemma FullQueueIsShared(c: Config, s: State)
    requires Reachable(c, s) && Addressed(s) && |s.chan| == c.maxSize
    requires "" !in Clients(s)
    ensures c.maxSize <= |Clients(s)| * PerClientLimit(c.maxSize)
    ensures c.maxSize >= 3 ==> |Clients(s)| >= 2
    ensures c.maxSize >= 5 ==> |Clients(s)| >= 3
  {
    hide Reachable, Clients, PerClientLimit;
    SlotsBound(c, s);
    EnoughClients(c.maxSize, |Clients(s)|);
  }

  // Which mixes of owners can wait in the channel

  /** At most maxSize jobs, and of every client that is not exempt at most its limit. */
  ghost predicate FairMix(c: Config, owners: seq<string>) {
    |owners| <= c.maxSize && forall ip :: ip != "" ==> multiset(owners)[ip] <= PerClientLimit(c.maxSize)
  }

  ghost predicate CanWait(c: Config, owners: seq<string>) {
    exists s :: Reachable(c, s) && Addressed(s) && Owners(s.heap, s.chan) == owners
  }

  /** A name of its own for the n-th submission. */
  function Name(n: nat): (id: string)
    ensures |id| == n
  {
    seq(n, _ => 'x')
  }

  /** An idle queue holding jobs of these owners, with names shorter than their number. */
  ghost predicate Filled(s: State, owners: seq<string>)
    requires Addressed(s)
  {
    && s.submitter.Free? && s.worker.Idle?
    && Owners(s.heap, s.chan) == owners
    && (forall a :: 0 <= a < |s.heap| ==> |s.heap[a].id| < |owners|)
    && (forall i :: 0 <= i < |s.accepted| ==> |s.accepted[i]| < |owners|)
  }

  lemma FairFront(c: Config, front: seq<string>, ip: string)
    requires FairMix(c, front + [ip])
    ensures FairMix(c, front)
    ensures ip != "" ==> multiset(front)[ip] < PerClientLimit(c.maxSize)
  {
    var m := multiset(front + [ip]);
    assert m == multiset(front) + multiset{ip};
    forall x | x != "" ensures multiset(front)[x] <= PerClientLimit(c.maxSize) {
      assert m[x] >= multiset(front)[x];
    }
    assert m[ip] == multiset(front)[ip] + 1;
  }

  lemma NextIsAdmitted(c: Config, s: State, front: seq<string>, ip: string, upload: Upload)
    requires Addressed(s) && Accounts(c, s) && Filled(s, front) && FairMix(c, front + [ip])
    ensures Enabled(c, s, Submit(Admit(Name(|front|), ip, upload)))
  {
    FairFront(c, front, ip);
    if ip != "" {
      assert InFlight(s.inflight, ip) == Load(s)[ip] == multiset(front)[ip];
    }
  }

  /** One more fair submission. */
  lemma FillOne(c: Config, s: State, front: seq<string>, ip: string) returns (es: seq<Event>)
    requires Addressed(s) && Accounts(c, s) && Filled(s, front) && FairMix(c, front + [ip])
    ensures Runs(c, s, es) && Filled(After(c, s, es), front + [ip])
  {
    var id, upload := Name(|front|), Upload(Request("", ""), "", 0);
    es := SubmitEvents(id, ip, upload);
    NextIsAdmitted(c, s, front, ip, upload);
    SubmitAtOnce(c, s, id, ip, upload);
    var t := Submitted(s, id, ip, upload);
    assert Owners(t.heap, t.chan) == Owners(s.heap, s.chan) + [ip];
  }

  lemma {:induction false} Fill(c: Config, owners: seq<string>) returns (es: seq<Event>)
    requires FairMix(c, owners)
    ensures Runs(c, Init(0), es) && Filled(After(c, Init(0), es), owners)
  {
    if owners == [] {
      es := [];
    } else {
      var front, ip := owners[..|owners| - 1], owners[|owners| - 1];
      assert owners == front + [ip];
      FairFront(c, front, ip);
      var fs := Fill(c, front);
      InitSound(c, 0);
      RunSound(c, Init(0), fs);
      var gs := FillOne(c, After(c, Init(0), fs), front, ip);
      RunAppend(c, Init(0), fs, gs);
      es := fs + gs;
    }
  }

  /** The two checks of Submit let in exactly the fair mixes. */
  lemma FairMixesCanWait(c: Config, owners: seq<string>)
    ensures CanWait(c, owners) <==> FairMix(c, owners)
  {
    if FairMix(c, owners) {
      var es := Fill(c, owners);
      var s := After(c, Init(0), es);
      assert Reachable(c, s);
    }
    if CanWait(c, owners) {
      var s :| Reachable(c, s) && Addressed(s) && Owners(s.heap, s.chan) == owners;
      ReachableSound(c, s);
      forall ip | ip != "" ensures multiset(owners)[ip] <= PerClientLimit(c.maxSize) {
        SlotsAreExact(c, s, ip);
        assert Load(s)[ip] >= multiset(owners)[ip];
      }
    }
  }

  /**
   How many places one client can hold: as many as a third of the queue, at least two where there
   is room. Exempt jobs can have them all.
   */
  lemma OneClientHolds(c: Config, ip: string, n: nat)
    ensures ip != "" ==> (CanWait(c, seq(n, _ => ip)) <==> n <= c.maxSize && (n <= 2 || 3 * n <= c.maxSize))
    ensures ip == "" ==> (CanWait(c, seq(n, _ => ip)) <==> n <= c.maxSize)
  {
    var owners := seq(n, _ => ip);
    FairMixesCanWait(c, owners);
    CountAll(owners, ip);
    forall x | x != ip ensures multiset(owners)[x] == 0 {
      assert x !in owners;
    }
  }

  /** A single client can fill the channel exactly when it has at most two places. */
  lemma OneClientFills(c: Config, ip: string)
    requires ip != ""
    ensures CanWait(c, seq(c.maxSize, _ => ip)) <==> c.maxSize <= 2
  {
    OneClientHolds(c, ip, c.maxSize);
  }

  lemma {:induction false} CountAll(q: seq<string>, ip: string)
    requires forall i :: 0 <= i < |q| ==> q[i] == ip
    ensures multiset(q)[ip] == |q|
  {
    if q != [] {
      assert q == q[..|q| - 1] + [ip];
      CountAll(q[..|q| - 1], ip);
    }
  }
}
