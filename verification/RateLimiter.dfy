/** The per-client request limiter of internal/api/middleware.go. Times are nanoseconds. */
module RateLimiter {
  import opened Wrappers

  const MINUTE: int := 60_000_000_000
  const HOUR: int := 3_600_000_000_000

  /** The value of a client's record. */
  datatype Rate = Rate(minuteCount: int, hourCount: int, minuteReset: int, hourReset: int)

  datatype Limits = Limits(rpm: int, rph: int)

  /** The record that decides a request: made when there is none, its windows renewed when over. */
  function Refresh(r: Option<Rate>, now: int): Rate {
    if r.None? then Rate(0, 0, now + MINUTE, now + HOUR)
    else
      var r1 := if now > r.value.minuteReset
                then r.value.(minuteCount := 0, minuteReset := now + MINUTE) else r.value;
      if now > r1.hourReset then r1.(hourCount := 0, hourReset := now + HOUR) else r1
  }

  lemma NewIsRefreshed(now: int)
    ensures Refresh(Some(Rate(0, 0, now + MINUTE, now + HOUR)), now) == Refresh(None, now)
  {
  }

  predicate Admits(l: Limits, r: Rate) {
    r.minuteCount < l.rpm && r.hourCount < l.rph
  }

  function Charged(l: Limits, r: Rate): Rate {
    if Admits(l, r) then r.(minuteCount := r.minuteCount + 1, hourCount := r.hourCount + 1) else r
  }

  function Look(m: map<string, Rate>, ip: string): Option<Rate> {
    if ip in m then Some(m[ip]) else None
  }

  /** The clients that a clean-up at `now` keeps. */
  function Kept(m: map<string, Rate>, now: int): map<string, Rate> {
    map ip | ip in m && now <= m[ip].hourReset :: m[ip]
  }

  class ClientRate {
    var minuteCount: int
    var hourCount: int
    var minuteReset: int
    var hourReset: int

    constructor (now: int)
      ensures Value() == Rate(0, 0, now + MINUTE, now + HOUR)
    {
      minuteCount, hourCount, minuteReset, hourReset := 0, 0, now + MINUTE, now + HOUR;
    }

    function Value(): Rate
      reads this
    {
      Rate(minuteCount, hourCount, minuteReset, hourReset)
    }

    /** The part of Allow that works on the client's record. */
    method Charge(limits: Limits, now: int) returns (ok: bool)
      modifies this
      ensures var r := Refresh(Some(old(Value())), now);
              ok == Admits(limits, r) && Value() == Charged(limits, r)
    {
      if now > minuteReset {
        minuteCount, minuteReset := 0, now + MINUTE;
      }
      if now > hourReset {
        hourCount, hourReset := 0, now + HOUR;
      }
      if minuteCount >= limits.rpm || hourCount >= limits.rph {
        return false;
      }
      minuteCount, hourCount := minuteCount + 1, hourCount + 1;
      return true;
    }
  }

  class RateLimiter {
    const limits: Limits
    var clients: map<string, ClientRate>

    ghost predicate Valid()
      reads this
    {
      forall a, b :: a in clients && b in clients && a != b ==> clients[a] != clients[b]
    }

    function Records(): set<ClientRate>
      reads this
    {
      set ip | ip in clients :: clients[ip]
    }

    function Values(): map<string, Rate>
      reads this, Records()
    {
      map ip | ip in clients :: clients[ip].Value()
    }

    constructor (limits: Limits)
      ensures Valid() && this.limits == limits && Values() == map[]
    {
      this.limits, clients := limits, map[];
    }

    method Allow(ip: string, now: int) returns (ok: bool)
      requires Valid()
      modifies this, Records()
      ensures Valid() && fresh(Records() - old(Records()))
      ensures var r := Refresh(Look(old(Values()), ip), now);
              ok == Admits(limits, r) && Values() == old(Values())[ip := Charged(limits, r)]
    {
      hide Refresh, Admits, Charged;
      NewIsRefreshed(now);
      if ip !in clients {
        var client := new ClientRate(now);
        clients := clients[ip := client];
      }
      var client := clients[ip];
      assert client in Records();
      ghost var before := Values();
      ok := client.Charge(limits, now);
      assert Values() == before[ip := client.Value()];
    }

    /** One pass of the clean-up loop; the map is walked in any order. */
    method Cleanup(now: int)
      requires Valid()
      modifies this
      ensures Valid() && Records() <= old(Records())
      ensures Values() == Kept(old(Values()), now)
    {
      var todo := clients.Keys;
      while todo != {}
        invariant Valid() && clients.Keys <= old(clients.Keys) && todo <= clients.Keys
        invariant forall ip :: ip in clients ==> clients[ip] == old(clients)[ip]
        invariant forall ip :: ip in old(clients) && ip !in todo ==>
                                 (ip in clients <==> now <= old(clients)[ip].hourReset)
        decreases |todo|
      {
        var ip :| ip in todo;
        if now > clients[ip].hourReset {
          clients := clients - {ip};
        }
        todo := todo - {ip};
      }
    }
  }
}
