/**
 The counters of internal/stats/cloudflare_kv.go: pending increments in memory, flushed to a
 remote store whose reads may be stale and whose writes may fail, or apply without saying so.
 */
module KvLedger {
  import opened Int64
  import opened Wrappers

  // One key, on this side

  /** What the store keeps for a key; an absent `confirmed` reads as 0. */
  datatype Entry = Entry(pending: int, write: Option<int>, confirmed: Option<int>) {
    function Confirmed(): int {
      if confirmed.Some? then confirmed.value else 0
    }

    /** The pending increments move into an absolute value to be written. */
    function Prepare(current: int): Entry {
      this.(pending := 0, write := Some(Add64(Max(current, Confirmed()), pending)))
    }

    function Acknowledge(): Entry
      requires write.Some?
    {
      this.(confirmed := write, write := None)
    }
  }

  /** One key's turn in flush, given what GET and PUT answer. */
  function FlushKey(e: Entry, get: Option<int>, put: bool): Entry {
    if e.write.None? && (e.pending == 0 || get.None?) then e
    else
      var ready := if e.write.Some? then e else e.Prepare(get.value);
      if put then ready.Acknowledge() else ready
  }

  datatype Key = FilesProcessed | Thanks

  class Store {
    const enabled: bool
    var pendingProcessed: int
    var pendingThanks: int
    var writes: map<Key, int>
    var confirmed: map<Key, int>
    var cachedAt: Option<int>

    constructor (enabled: bool)
      ensures this.enabled == enabled
      ensures forall k :: EntryOf(k) == Entry(0, None, None)
      ensures cachedAt == None
    {
      this.enabled := enabled;
      pendingProcessed, pendingThanks, writes, confirmed, cachedAt := 0, 0, map[], map[], None;
    }

    function Lookup(m: map<Key, int>, k: Key): Option<int> {
      if k in m then Some(m[k]) else None
    }

    function EntryOf(k: Key): Entry
      reads this
    {
      Entry(if k == FilesProcessed then pendingProcessed else pendingThanks, Lookup(writes, k), Lookup(confirmed, k))
    }

    method IncrementProcessed()
      modifies `pendingProcessed
      ensures pendingProcessed == if enabled then Add64(old(pendingProcessed), 1) else old(pendingProcessed)
      ensures EntryOf(FilesProcessed).pending ==
                if enabled then Add64(old(EntryOf(FilesProcessed).pending), 1) else old(EntryOf(FilesProcessed).pending)
      ensures EntryOf(FilesProcessed).write == old(EntryOf(FilesProcessed).write)
      ensures EntryOf(FilesProcessed).confirmed == old(EntryOf(FilesProcessed).confirmed)
      ensures EntryOf(Thanks) == old(EntryOf(Thanks))
    {
      if !enabled {
        return;
      }
      pendingProcessed := Add64(pendingProcessed, 1);
    }

    method IncrementThanks()
      modifies `pendingThanks
      ensures pendingThanks == if enabled then Add64(old(pendingThanks), 1) else old(pendingThanks)
      ensures EntryOf(Thanks).pending ==
                if enabled then Add64(old(EntryOf(Thanks).pending), 1) else old(EntryOf(Thanks).pending)
      ensures EntryOf(Thanks).write == old(EntryOf(Thanks).write)
      ensures EntryOf(Thanks).confirmed == old(EntryOf(Thanks).confirmed)
      ensures EntryOf(FilesProcessed) == old(EntryOf(FilesProcessed))
    {
      if !enabled {
        return;
      }
      pendingThanks := Add64(pendingThanks, 1);
    }

    /** flush, with the remote answers as parameters; the keys come in any order. */
    method Flush(get: map<Key, Option<int>>, put: map<Key, bool>)
      requires get.Keys == put.Keys == {FilesProcessed, Thanks}
      modifies this
      ensures forall k :: EntryOf(k) == FlushKey(old(EntryOf(k)), get[k], put[k])
      ensures cachedAt == if exists k: Key :: Acked(old(EntryOf(k)), get[k], put[k]) then None else old(cachedAt)
    {
      hide FlushKey, Acked;
      var todo := {FilesProcessed, Thanks};
      ghost var acked := false;
      while todo != {}
        invariant todo <= {FilesProcessed, Thanks}
        invariant forall k :: EntryOf(k)
                    == if k in todo then old(EntryOf(k)) else FlushKey(old(EntryOf(k)), get[k], put[k])
        invariant acked <==> exists k :: k !in todo && Acked(old(EntryOf(k)), get[k], put[k])
        invariant cachedAt == if acked then None else old(cachedAt)
        decreases |todo|
      {
        var key :| key in todo;
        acked := acked || Acked(EntryOf(key), get[key], put[key]);
        FlushOne(key, get[key], put[key]);
        todo := todo - {key};
      }
    }

    /** The body of flush's loop. */
    method FlushOne(key: Key, get: Option<int>, put: bool)
      modifies this
      ensures EntryOf(key) == FlushKey(old(EntryOf(key)), get, put)
      ensures forall k :: k != key ==> EntryOf(k) == old(EntryOf(k))
      ensures cachedAt == if Acked(old(EntryOf(key)), get, put) then None else old(cachedAt)
    {
      var value;
      if key in writes {
        value := writes[key];
      } else {
        var pending := if key == FilesProcessed then pendingProcessed else pendingThanks;
        if pending == 0 {
          return;
        }
        if get.None? {
          return;
        }
        var current := Max(get.value, if key in confirmed then confirmed[key] else 0);
        value := Add64(current, pending);
        if key == FilesProcessed {
          pendingProcessed := 0;
        } else {
          pendingThanks := 0;
        }
        writes := writes[key := value];
      }
      if !put {
        return;
      }
      confirmed := confirmed[key := value];
      writes := writes - {key};
      cachedAt := None;
    }
  }

  /** A PUT was made and acknowledged in this turn. */
  predicate Acked(e: Entry, get: Option<int>, put: bool) {
    put && (e.write.Some? || (e.pending != 0 && get.Some?))
  }

  /** A turn acknowledges exactly when it would leave a write behind if the PUT failed; that write is then confirmed. */
  lemma AckedConfirms(e: Entry, get: Option<int>, put: bool)
    ensures Acked(e, get, put) <==> put && FlushKey(e, get, false).write.Some?
    ensures Acked(e, get, put) ==> FlushKey(e, get, put).confirmed == FlushKey(e, get, false).write
    ensures Acked(e, get, put) ==> FlushKey(e, get, put).write.None?
  {
  }

  /**
   A turn whose PUT failed is made good by the next one, whatever that reads: together they do what
   one turn would have done. A turn that sends nothing, for want of increments or of an answer to
   GET, leaves everything to the next.
   */
  lemma NextTurnMakesGood(e: Entry, get: Option<int>, later: Option<int>, put: bool)
    ensures FlushKey(e, get, false).write.Some? ==>
              FlushKey(FlushKey(e, get, false), later, put) == FlushKey(e, get, put)
    ensures FlushKey(e, get, false).write.None? <==> e.write.None? && (e.pending == 0 || get.None?)
    ensures FlushKey(e, get, false).write.None? ==> FlushKey(e, get, put) == e
  {
  }

  /** The value to be sent adds what is pending to the larger of what was read and what was confirmed last. */
  lemma ValueSent(e: Entry, current: int)
    requires e.write.None? && e.pending != 0
    requires 0 <= current + e.pending <= MAX_INT64 && 0 <= e.Confirmed() + e.pending <= MAX_INT64
    ensures var ready := FlushKey(e, Some(current), false);
            var confirmed := if e.confirmed.Some? then e.confirmed.value else 0;
            && ready.pending == 0 && ready.confirmed == e.confirmed && ready.write.Some?
            && ready.write.value >= current + e.pending && ready.write.value >= confirmed + e.pending
            && ready.write.value in {current + e.pending, confirmed + e.pending}
  {
  }
}

/** One key of the store and its remote value, as a state machine over atomic steps. */
module KvMachine {
  import opened Int64
  import opened Wrappers
  import opened KvLedger

  /** Where flush stands with this key. */
  datatype Pc = Resting | Loaded | Got(current: int) | Ready

  /** One PUT that was sent. */
  datatype Put = Put(value: int, acked: bool)

  datatype State = State(
    entry: Entry,
    pc: Pc,
    remote: int,
    held: seq<int>,   // all values of the remote key since the start; a read may return any
    late: multiset<int>, // failed PUTs that may still land, one by one
    base: int,        // the remote value at the start
    incs: nat,        // increments so far
    puts: seq<Put>)   // PUTs so far

  /** A failed PUT may have been lost, may have applied, or may land later. */
  datatype PutOutcome = Acknowledged | Lost | AppliedUnseen | Delayed

  datatype Event =
    | Increment
    | Turn                          // flush comes to this key
    | Read(answer: Option<int>)     // GET
    | Swap                          // pending.Swap(0), and the write is retained
    | Send(outcome: PutOutcome)     // PUT
    | Land(value: int)              // a delayed PUT arrives

  function Init(base: int): State {
    State(Entry(0, None, None), Resting, base, [base], multiset{}, base, 0, [])
  }

  predicate Enabled(s: State, e: Event) {
    match e
    case Increment => true
    case Turn => s.pc.Resting?
    case Read(answer) => s.pc.Loaded? && (answer.Some? ==> answer.value in s.held)
    case Swap => s.pc.Got?
    case Send(_) => s.pc.Ready? && s.entry.write.Some?
    case Land(value) => value in s.late
  }

  function Apply(s: State, value: int): State {
    s.(remote := value, held := s.held + [value])
  }

  function Next(s: State, e: Event): State
    requires Enabled(s, e)
  {
    match e
    case Increment => s.(entry := s.entry.(pending := Add64(s.entry.pending, 1)), incs := s.incs + 1)
    case Turn =>
      if s.entry.write.Some? then s.(pc := Ready)
      else if s.entry.pending == 0 then s
      else s.(pc := Loaded)
    case Read(answer) => s.(pc := if answer.Some? then Got(answer.value) else Resting)
    case Swap => s.(entry := s.entry.Prepare(s.pc.current), pc := Ready)
    case Send(outcome) =>
      var value := s.entry.write.value;
      var t := s.(pc := Resting, puts := s.puts + [Put(value, outcome.Acknowledged?)]);
      (match outcome
       case Acknowledged => Apply(t, value).(entry := s.entry.Acknowledge())
       case Lost => t
       case AppliedUnseen => Apply(t, value)
       case Delayed => t.(late := s.late + multiset{value}))
    case Land(value) => Apply(s, value).(late := s.late - multiset{value})
  }

  ghost predicate Runs(s: State, es: seq<Event>)
    decreases |es|
  {
    es == [] || (Enabled(s, es[0]) && Runs(Next(s, es[0]), es[1..]))
  }

  ghost function After(s: State, es: seq<Event>): State
    requires Runs(s, es)
    decreases |es|
  {
    if es == [] then s else After(Next(s, es[0]), es[1..])
  }

  // The ledger

  /** The value the ledger has reached: the retained write, else the confirmed value, else the base. */
  function Booked(s: State): int {
    if s.entry.write.Some? then s.entry.write.value
    else if s.entry.confirmed.Some? then s.entry.confirmed.value
    else s.base
  }

  /** Nothing is lost and nothing is counted twice. */
  ghost predicate Conserved(s: State) {
    s.base + s.incs == s.entry.pending + Booked(s)
  }

  /** All that was ever remote, or may yet land, is booked. */
  ghost predicate Bounded(s: State) {
    && (forall v :: v in s.held || v in s.late ==> v <= Booked(s))
    && s.base in s.held && s.remote in s.held
    && (s.entry.write.None? && s.entry.confirmed.None? ==>
          s.late == multiset{} && forall v :: v in s.held ==> v == s.base)
  }

  ghost predicate Placed(s: State) {
    && s.entry.pending >= 0
    && (s.pc.Loaded? || s.pc.Got? ==> s.entry.write.None? && s.entry.pending > 0)
    && (s.pc.Got? ==> s.pc.current in s.held)
    && (s.pc.Ready? ==> s.entry.write.Some?)
    && (s.entry.confirmed.Some? ==> s.base <= s.entry.confirmed.value)
  }

  /** A PUT repeats the one before it until that is acknowledged, and then exceeds it. */
  predicate Follows(p: Put, q: Put) {
    if p.acked then p.value < q.value else p.value == q.value
  }

  /** The PUTs so far, and what they say of the retained and the confirmed value. */
  ghost predicate InSequence(puts: seq<Put>, write: Option<int>, confirmed: Option<int>) {
    && (forall i :: 0 < i < |puts| ==> Follows(puts[i - 1], puts[i]))
    && (puts == [] ==> confirmed.None?)
    && (puts != [] ==>
          var last := puts[|puts| - 1];
          if last.acked then confirmed == Some(last.value) && (write.Some? ==> last.value < write.value)
          else write == Some(last.value))
  }

  ghost predicate Sequenced(s: State) {
    InSequence(s.puts, s.entry.write, s.entry.confirmed)
  }

  ghost predicate Inv(s: State) {
    s.base >= 0 && Conserved(s) && Bounded(s) && Placed(s) && Sequenced(s)
  }

  /** The counts are far from the end of int64. */
  predicate Fits(s: State) {
    s.base + s.incs <= MAX_INT64
  }

  lemma IncrementInv(s: State)
    requires Inv(s) && Fits(Next(s, Increment))
    ensures Inv(Next(s, Increment))
  {
    hide Add64, InSequence;
    AddKeeps(s.entry.pending, 1);
  }

  lemma TurnInv(s: State)
    requires Inv(s) && Enabled(s, Turn)
    ensures Inv(Next(s, Turn))
  {
    hide InSequence;
  }

  lemma ReadInv(s: State, answer: Option<int>)
    requires Inv(s) && Enabled(s, Read(answer))
    ensures Inv(Next(s, Read(answer)))
  {
    hide InSequence;
  }

  lemma SwapInv(s: State)
    requires Inv(s) && Enabled(s, Swap) && Fits(s)
    ensures Inv(Next(s, Swap))
  {
    hide Add64;
    AddKeeps(Max(s.pc.current, s.entry.Confirmed()), s.entry.pending);
    assert Next(s, Swap).entry.write.value == Booked(s) + s.entry.pending;
  }

  lemma SendInv(s: State, outcome: PutOutcome)
    requires Inv(s) && Enabled(s, Send(outcome)) && Fits(s)
    ensures Inv(Next(s, Send(outcome)))
  {
    hide InSequence;
    SendSequenced(s, outcome);
    var t := Next(s, Send(outcome));
    assert forall v :: v in t.held ==> v in s.held || v == s.entry.write.value;
    assert forall v :: v in t.late ==> v in s.late || v == s.entry.write.value;
  }

  lemma SendSequenced(s: State, outcome: PutOutcome)
    requires Placed(s) && Sequenced(s) && Enabled(s, Send(outcome))
    ensures Sequenced(Next(s, Send(outcome)))
  {
  }

  lemma LandInv(s: State, value: int)
    requires Inv(s) && Enabled(s, Land(value))
    ensures Inv(Next(s, Land(value)))
  {
    hide InSequence;
    var t := Next(s, Land(value));
    assert forall v :: v in t.held ==> v in s.held || v == value;
    assert forall v :: v in t.late ==> v in s.late;
  }

  lemma StepInv(s: State, e: Event)
    requires Inv(s) && Enabled(s, e) && Fits(Next(s, e))
    ensures Inv(Next(s, e))
  {
    hide Inv;
    match e
    case Increment => IncrementInv(s);
    case Turn => TurnInv(s);
    case Read(answer) => ReadInv(s, answer);
    case Swap => SwapInv(s);
    case Send(outcome) => SendInv(s, outcome);
    case Land(value) => LandInv(s, value);
  }

  lemma {:induction false} IncsGrow(s: State, es: seq<Event>)
    requires Runs(s, es)
    ensures s.incs <= After(s, es).incs && After(s, es).base == s.base
    decreases |es|
  {
    if es != [] {
      IncsGrow(Next(s, es[0]), es[1..]);
    }
  }

  lemma {:induction false} RunInv(s: State, es: seq<Event>)
    requires Inv(s) && Runs(s, es) && Fits(After(s, es))
    ensures Inv(After(s, es))
    decreases |es|
  {
    if es != [] {
      IncsGrow(Next(s, es[0]), es[1..]);
      StepInv(s, es[0]);
      RunInv(Next(s, es[0]), es[1..]);
    }
  }

  // Theorems over whole runs

  lemma InitInv(base: int)
    requires base >= 0
    ensures Inv(Init(base))
  {
  }

  /**
   Whatever the remote side does: all increments are either pending or booked, exactly once,
   and the remote value never exceeds the base plus the increments.
   */
  lemma LedgerIsExact(base: int, es: seq<Event>)
    requires base >= 0 && Runs(Init(base), es) && Fits(After(Init(base), es))
    ensures var s := After(Init(base), es);
            && s.base == base
            && base + s.incs == s.entry.pending + Booked(s) && s.entry.pending >= 0
            && (forall v :: v in s.held ==> v <= base + s.incs) && s.remote in s.held
  {
    InitInv(base);
    RunInv(Init(base), es);
    IncsGrow(Init(base), es);
  }

  /** An absent confirmed value reads as 0, so a negative base is counted away by the first flush. */
  lemma NegativeBaseLosesCount(base: int) returns (es: seq<Event>)
    requires base < 0
    ensures Runs(Init(base), es) && After(Init(base), es).incs == 1
    ensures !Conserved(After(Init(base), es))
  {
    var s0 := Init(base);
    var s1 := Next(s0, Increment);
    var s2 := Next(s1, Turn);
    var s3 := Next(s2, Read(Some(base)));
    var s4 := Next(s3, Swap);
    assert Runs(s4, []);
    Chain(s3, Swap, []);
    Chain(s2, Read(Some(base)), [Swap]);
    Chain(s1, Turn, [Read(Some(base))] + [Swap]);
    Chain(s0, Increment, [Turn] + ([Read(Some(base))] + [Swap]));
    assert [Swap] + [] == [Swap];
    assert s4.entry.write == Some(1) && s4.incs == 1 && s4.entry.pending == 0;
    es := [Increment] + ([Turn] + ([Read(Some(base))] + [Swap]));
  }

  /** The ledger is exact over all runs from exactly the bases that are not negative. */
  lemma ExactFromNonNegativeBase(base: int)
    requires base < MAX_INT64
    ensures (forall es :: Runs(Init(base), es) && Fits(After(Init(base), es)) ==> Conserved(After(Init(base), es)))
            <==> base >= 0
  {
    if base >= 0 {
      forall es | Runs(Init(base), es) && Fits(After(Init(base), es)) ensures Conserved(After(Init(base), es)) {
        LedgerIsExact(base, es);
      }
    } else {
      var es := NegativeBaseLosesCount(base);
      IncsGrow(Init(base), es);
    }
  }

  lemma Chain(s: State, e: Event, es: seq<Event>)
    requires Enabled(s, e) && Runs(Next(s, e), es)
    ensures Runs(s, [e] + es) && After(s, [e] + es) == After(Next(s, e), es)
  {
    assert ([e] + es)[1..] == es;
  }

  /** Values sent never decrease; an acknowledged value is exceeded by every later one. */
  lemma {:induction false} PutsAreMonotone(s: State, i: nat, j: nat)
    requires Sequenced(s) && i < j < |s.puts|
    ensures if s.puts[i].acked then s.puts[i].value < s.puts[j].value else s.puts[i].value <= s.puts[j].value
    decreases j
  {
    assert Follows(s.puts[j - 1], s.puts[j]);
    if i < j - 1 {
      PutsAreMonotone(s, i, j - 1);
    }
  }

  lemma PutsNeverDecrease(base: int, es: seq<Event>, i: nat, j: nat)
    requires base >= 0 && Runs(Init(base), es) && Fits(After(Init(base), es))
    requires i < j < |After(Init(base), es).puts|
    ensures var puts := After(Init(base), es).puts;
            && puts[i].value <= puts[j].value
            && (puts[i].acked ==> puts[i].value < puts[j].value)
            && (!puts[i].acked ==> puts[i + 1].value == puts[i].value)
  {
    InitInv(base);
    RunInv(Init(base), es);
    var s := After(Init(base), es);
    PutsAreMonotone(s, i, j);
    assert Follows(s.puts[i], s.puts[i + 1]);
  }

  // One turn of flush

  /** The steps of an undisturbed turn. */
  function TurnEvents(s: State, get: Option<int>, outcome: PutOutcome): seq<Event> {
    if s.entry.write.Some? then [Turn] + [Send(outcome)]
    else if s.entry.pending == 0 then [Turn]
    else if get.None? then [Turn] + [Read(None)]
    else [Turn] + ([Read(get)] + ([Swap] + [Send(outcome)]))
  }

  /** Undisturbed, the steps of the machine are the turn that Store.Flush gives this key. */
  lemma TurnIsFlushKey(s: State, get: Option<int>, outcome: PutOutcome)
    requires s.pc.Resting? && (get.Some? ==> get.value in s.held)
    ensures var es := TurnEvents(s, get, outcome);
            && Runs(s, es)
            && After(s, es).entry == FlushKey(s.entry, get, outcome.Acknowledged?)
            && After(s, es).pc.Resting? && After(s, es).incs == s.incs && After(s, es).base == s.base
            && (Acked(s.entry, get, outcome.Acknowledged?) ==>
                  After(s, es).entry.confirmed == Some(After(s, es).remote))
            && (!Acked(s.entry, get, true) ==> After(s, es).remote == s.remote)
  {
    var s1 := Next(s, Turn);
    if s.entry.write.Some? {
      var s2 := Next(s1, Send(outcome));
      Chain(s1, Send(outcome), []);
      assert [Send(outcome)] + [] == [Send(outcome)];
      Chain(s, Turn, [Send(outcome)]);
    } else if s.entry.pending == 0 {
      Chain(s, Turn, []);
      assert [Turn] + [] == [Turn];
    } else if get.None? {
      Chain(s1, Read(None), []);
      assert [Read(None)] + [] == [Read(None)];
      Chain(s, Turn, [Read(None)]);
    } else {
      var s2 := Next(s1, Read(get));
      var s3 := Next(s2, Swap);
      Chain(s3, Send(outcome), []);
      assert [Send(outcome)] + [] == [Send(outcome)];
      Chain(s2, Swap, [Send(outcome)]);
      Chain(s1, Read(get), [Swap] + [Send(outcome)]);
      Chain(s, Turn, [Read(get)] + ([Swap] + [Send(outcome)]));
    }
  }

  // Recovery

  ghost function Flushed(s: State, v: int): State
    requires s.pc.Resting? && v in s.held
  {
    TurnIsFlushKey(s, Some(v), Acknowledged);
    After(s, TurnEvents(s, Some(v), Acknowledged))
  }

  lemma FlushedInv(s: State, v: int)
    requires Inv(s) && Fits(s) && s.pc.Resting? && v in s.held
    ensures Inv(Flushed(s, v)) && Flushed(s, v).pc.Resting?
            && Flushed(s, v).incs == s.incs && Flushed(s, v).base == s.base
  {
    TurnIsFlushKey(s, Some(v), Acknowledged);
    RunInv(s, TurnEvents(s, Some(v), Acknowledged));
  }

  /**
   After two turns in which every request succeeds nothing is pending and everything is booked.
   The remote value is then right exactly when it was right before or there was something to send.
   */
  lemma TwoFlushesDrain(s: State, v: int, w: int)
    requires Inv(s) && Fits(s) && s.pc.Resting? && v in s.held
    requires w in Flushed(s, v).held && Flushed(s, v).pc.Resting?
    ensures var t := Flushed(Flushed(s, v), w);
            && t.entry.pending == 0 && t.entry.write.None? && Booked(t) == s.base + s.incs
            && (t.remote == s.base + s.incs <==>
                  s.remote == Booked(s) || s.entry.write.Some? || s.entry.pending > 0)
  {
    FlushedInv(s, v);
    TurnIsFlushKey(s, Some(v), Acknowledged);
    var m := Flushed(s, v);
    FlushedInv(m, w);
    TurnIsFlushKey(m, Some(w), Acknowledged);
  }

  /** With no write retained, the remote value is the booked one. */
  predicate Current(s: State) {
    s.entry.write.None? ==> s.remote == Booked(s)
  }

  lemma {:induction false} CurrentWithoutLanding(s: State, es: seq<Event>)
    requires Current(s) && Runs(s, es)
    requires forall i :: 0 <= i < |es| ==> !es[i].Land?
    ensures Current(After(s, es))
    decreases |es|
  {
    if es != [] {
      assert !es[0].Land?;
      CurrentWithoutLanding(Next(s, es[0]), es[1..]);
    }
  }

  /** When no failed PUT lands late, two clean flushes bring the remote value up to date. */
  lemma TwoFlushesRecover(base: int, es: seq<Event>, v: int, w: int)
    requires base >= 0 && Runs(Init(base), es)
    requires forall i :: 0 <= i < |es| ==> !es[i].Land?
    requires var s := After(Init(base), es);
             && Fits(s) && s.pc.Resting? && v in s.held
             && Flushed(s, v).pc.Resting? && w in Flushed(s, v).held
    ensures var s := After(Init(base), es);
            var t := Flushed(Flushed(s, v), w);
            t.remote == base + s.incs && t.entry.pending == 0
  {
    InitInv(base);
    RunInv(Init(base), es);
    IncsGrow(Init(base), es);
    CurrentWithoutLanding(Init(base), es);
    TwoFlushesDrain(After(Init(base), es), v, w);
  }

  /** One clean flush is not enough when a write is retained and more has come in meanwhile. */
  lemma OneFlushMayNotDrain(s: State, v: int)
    requires s.pc.Resting? && v in s.held
    ensures Flushed(s, v).entry.pending == 0 <==> s.entry.write.None? || s.entry.pending == 0
  {
    TurnIsFlushKey(s, Some(v), Acknowledged);
  }

  /** A PUT that lands after a later one was acknowledged leaves the remote value behind for good. */
  lemma LateLandingStaysBehind(s: State, value: int, v: int)
    requires Inv(s) && Fits(s) && s.pc.Resting? && value in s.late && value < Booked(s)
    requires s.entry.write.None? && s.entry.pending == 0
    requires v in s.held
    ensures var t := Next(s, Land(value));
            Flushed(t, v) == t && t.remote < t.base + t.incs
  {
    var t := Next(s, Land(value));
    TurnIsFlushKey(t, Some(v), Acknowledged);
    assert Runs(t, [Turn]) && After(t, [Turn]) == t by {
      Chain(t, Turn, []);
      assert [Turn] + [] == [Turn];
    }
  }

  // Both failures do happen

  /** A run from Init(0) that ends in s. */
  ghost predicate Reaches(es: seq<Event>, s: State) {
    Runs(Init(0), es) && After(Init(0), es) == s
  }

  lemma {:induction false} RunsAppend(s: State, es: seq<Event>, fs: seq<Event>)
    requires Runs(s, es) && Runs(After(s, es), fs)
    ensures Runs(s, es + fs) && After(s, es + fs) == After(After(s, es), fs)
    decreases |es|
  {
    hide Enabled, Next;
    if es == [] {
      assert es + fs == fs;
    } else {
      var e, rest := es[0], es[1..];
      RunsAppend(Next(s, e), rest, fs);
      Chain(s, e, rest + fs);
      assert es + fs == [e] + (rest + fs);
    }
  }

  lemma ReachesInit()
    ensures Reaches([], Init(0))
  {
  }

  lemma ReachesNext(es: seq<Event>, s: State, e: Event)
    requires Reaches(es, s) && Enabled(s, e)
    ensures Reaches(es + [e], Next(s, e))
  {
    assert [e][1..] == [];
    RunsAppend(Init(0), es, [e]);
  }

  lemma ReachesInv(es: seq<Event>, s: State)
    requires Reaches(es, s) && Fits(s)
    ensures Inv(s)
  {
    InitInv(0);
    RunInv(Init(0), es);
  }

  /** One increment is swapped into a write. */
  lemma FirstWriteIsReady() returns (es: seq<Event>, s: State)
    ensures Reaches(es, s)
    ensures s == State(Entry(0, Some(1), None), Ready, 0, [0], multiset{}, 0, 1, [])
  {
    hide Runs, After, Reaches, Add64;
    ReachesInit();
    AddKeeps(0, 1);
    es, s := [], Init(0);
    ReachesNext(es, s, Increment);
    es, s := es + [Increment], Next(s, Increment);
    ReachesNext(es, s, Turn);
    es, s := es + [Turn], Next(s, Turn);
    ReachesNext(es, s, Read(Some(0)));
    es, s := es + [Read(Some(0))], Next(s, Read(Some(0)));
    ReachesNext(es, s, Swap);
    es, s := es + [Swap], Next(s, Swap);
  }

  /** It is sent and delayed: it is retained, and may land at any time. */
  lemma FirstPutIsDelayed() returns (es: seq<Event>, s: State)
    ensures Reaches(es, s)
    ensures s == State(Entry(0, Some(1), None), Resting, 0, [0], multiset{1}, 0, 1, [Put(1, false)])
  {
    hide Runs, After, Reaches;
    es, s := FirstWriteIsReady();
    ReachesNext(es, s, Send(Delayed));
    es, s := es + [Send(Delayed)], Next(s, Send(Delayed));
  }

  /** With a write retained and one more increment, a clean flush leaves that increment pending. */
  lemma OneFlushDoesNotDrain() returns (es: seq<Event>, s: State)
    ensures Reaches(es, s) && Inv(s) && s.pc.Resting? && 0 in s.held
    ensures Flushed(s, 0).entry.pending == 1
  {
    hide Runs, After, Reaches;
    es, s := FirstPutIsDelayed();
    ReachesNext(es, s, Increment);
    es, s := es + [Increment], Next(s, Increment);
    ReachesInv(es, s);
    TurnIsFlushKey(s, Some(0), Acknowledged);
  }

  /** The retained write is acknowledged when it is sent again, and a second increment comes in. */
  lemma SecondIncrement() returns (es: seq<Event>, s: State)
    ensures Reaches(es, s)
    ensures s == State(Entry(1, None, Some(1)), Resting, 1, [0, 1], multiset{1}, 0, 2, [Put(1, false), Put(1, true)])
  {
    hide Runs, After, Reaches, Add64;
    AddKeeps(0, 1);
    es, s := FirstPutIsDelayed();
    ReachesNext(es, s, Turn);
    es, s := es + [Turn], Next(s, Turn);
    ReachesNext(es, s, Send(Acknowledged));
    es, s := es + [Send(Acknowledged)], Next(s, Send(Acknowledged));
    ReachesNext(es, s, Increment);
    es, s := es + [Increment], Next(s, Increment);
  }

  /** That is acknowledged as well, while the delayed write is still out. */
  lemma SecondPutIsAcknowledged() returns (es: seq<Event>, s: State)
    ensures Reaches(es, s)
    ensures s == State(Entry(0, None, Some(2)), Resting, 2, [0, 1, 2], multiset{1}, 0, 2,
                       [Put(1, false), Put(1, true), Put(2, true)])
  {
    hide Runs, After, Reaches, Add64;
    AddKeeps(1, 1);
    es, s := SecondIncrement();
    ReachesNext(es, s, Turn);
    es, s := es + [Turn], Next(s, Turn);
    ReachesNext(es, s, Read(Some(1)));
    es, s := es + [Read(Some(1))], Next(s, Read(Some(1)));
    ReachesNext(es, s, Swap);
    es, s := es + [Swap], Next(s, Swap);
    ReachesNext(es, s, Send(Acknowledged));
    es, s := es + [Send(Acknowledged)], Next(s, Send(Acknowledged));
  }

  /** Then the delayed write lands: the remote value is 1 after two increments, and clean turns leave it so. */
  lemma LateLandingHappens() returns (es: seq<Event>, t: State)
    ensures Reaches(es, t) && t.pc.Resting?
    ensures t.remote == 1 && t.base + t.incs == 2
    ensures forall v :: v in t.held ==> Flushed(t, v) == t
  {
    hide Runs, After, Flushed, Reaches;
    var s;
    es, s := SecondPutIsAcknowledged();
    ReachesInv(es, s);
    ReachesNext(es, s, Land(1));
    t := Next(s, Land(1));
    es := es + [Land(1)];
    forall v | v in t.held ensures Flushed(t, v) == t {
      assert v in s.held;
      LateLandingStaysBehind(s, 1, v);
    }
  }
}
