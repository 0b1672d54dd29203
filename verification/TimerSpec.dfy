/** The timer manager on values: timers by address, the set ordered by deadline
    (ties broken by address), the notification flag, and what each operation does. */
module TimerSpec {
  import opened Wrappers

  const U64: nat := 0x1_0000_0000_0000_0000
  const NO_TIMER: nat := 0xFFFF_FFFF_FFFF_FFFF
  const ROLLOVER_MS: nat := 60 * 60 * 1000

  /** uint64_t arithmetic. */
  function Plus(a: nat, b: nat): nat {
    (a + b) % U64
  }

  function Minus(a: nat, b: nat): nat
    requires b < U64
  {
    (a + U64 - b) % U64
  }

  lemma PlusExact(a: nat, b: nat)
    requires a + b < U64
    ensures Plus(a, b) == a + b
  {
  }

  lemma MinusExact(a: nat, b: nat)
    requires b <= a < U64
    ensures Minus(a, b) == a - b
  {
  }

  /** A callback is a token; None is the null std::function. */
  datatype Timer = Timer(recurring: bool, ms: nat, next: nat, cb: Option<nat>)

  /** `queue` lists the addresses in the ordered set, first to last. */
  datatype Manager = Manager(timers: map<nat, Timer>, queue: seq<nat>, tickled: bool, last: nat)

  // ---------- The ordered set ----------

  /** The comparator on keys: deadline first, then address. */
  predicate Before(next1: nat, addr1: nat, next2: nat, addr2: nat) {
    next1 < next2 || (next1 == next2 && addr1 < addr2)
  }

  predicate Known(m: map<nat, Timer>, q: seq<nat>) {
    forall i | 0 <= i < |q| :: q[i] in m
  }

  ghost predicate Sorted(m: map<nat, Timer>, q: seq<nat>) {
    Known(m, q) && forall i, j | 0 <= i < j < |q| :: Before(m[q[i]].next, q[i], m[q[j]].next, q[j])
  }

  /** lower_bound: how many leading elements order before the key. */
  function LowerBound(m: map<nat, Timer>, q: seq<nat>, next: nat, addr: nat): (p: nat)
    requires Known(m, q)
    ensures p <= |q|
    ensures forall i | 0 <= i < p :: Before(m[q[i]].next, q[i], next, addr)
    ensures p < |q| ==> !Before(m[q[p]].next, q[p], next, addr)
  {
    if q != [] && Before(m[q[0]].next, q[0], next, addr)
    then 1 + LowerBound(m, q[1..], next, addr) else 0
  }

  lemma LowerBoundUnique(m: map<nat, Timer>, q: seq<nat>, next: nat, addr: nat, p: nat)
    requires Known(m, q) && p <= |q|
    requires forall i | 0 <= i < p :: Before(m[q[i]].next, q[i], next, addr)
    requires p < |q| ==> !Before(m[q[p]].next, q[p], next, addr)
    ensures p == LowerBound(m, q, next, addr)
  {
  }

  function Found(m: map<nat, Timer>, q: seq<nat>, addr: nat): bool
    requires Known(m, q) && addr in m
  {
    var p := LowerBound(m, q, m[addr].next, addr);
    p < |q| && !Before(m[addr].next, addr, m[q[p]].next, q[p])
  }

  function Erase(m: map<nat, Timer>, q: seq<nat>, addr: nat): seq<nat>
    requires Known(m, q) && addr in m
  {
    if Found(m, q, addr) then
      var p := LowerBound(m, q, m[addr].next, addr); q[..p] + q[p + 1..]
    else q
  }

  function Insert(m: map<nat, Timer>, q: seq<nat>, addr: nat): seq<nat>
    requires Known(m, q) && addr in m
  {
    if Found(m, q, addr) then q else
    var p := LowerBound(m, q, m[addr].next, addr); q[..p] + [addr] + q[p..]
  }

  /** find finds exactly the members, because the set is sorted. */
  lemma FoundIsMember(m: map<nat, Timer>, q: seq<nat>, addr: nat)
    requires Sorted(m, q) && addr in m
    ensures Found(m, q, addr) <==> addr in q
    ensures addr in q ==> q[LowerBound(m, q, m[addr].next, addr)] == addr
  {
    var p := LowerBound(m, q, m[addr].next, addr);
    if addr in q {
      var i :| 0 <= i < |q| && q[i] == addr;
      assert i >= p && p >= i;
    }
  }

  lemma EraseRemoves(m: map<nat, Timer>, q: seq<nat>, addr: nat)
    requires Sorted(m, q) && addr in m
    ensures Sorted(m, Erase(m, q, addr)) && addr !in Erase(m, q, addr)
    ensures forall x :: x in Erase(m, q, addr) <==> x in q && x != addr
  {
    FoundIsMember(m, q, addr);
    if addr in q {
      var p := LowerBound(m, q, m[addr].next, addr);
      CutMembers(m, q, p);
    }
    hide LowerBound, Before;
  }

  /** Without the entry at p: the others, still in order. */
  lemma CutMembers(m: map<nat, Timer>, q: seq<nat>, p: nat)
    requires Sorted(m, q) && p < |q|
    ensures Sorted(m, q[..p] + q[p + 1..])
    ensures forall x :: x in q[..p] + q[p + 1..] <==> x in q && x != q[p]
  {
    var r := q[..p] + q[p + 1..];
    forall i | 0 <= i < |q| && i != p
      ensures q[i] != q[p] && q[i] in r
    {
      Distinct(m, q, if i < p then i else p, if i < p then p else i);
      assert q[i] == r[if i < p then i else i - 1];
    }
    forall i | 0 <= i < |r|
      ensures r[i] == q[if i < p then i else i + 1]
    {
    }
  }

  lemma SpliceMembers(q: seq<nat>, p: nat, addr: nat)
    requires p <= |q|
    ensures forall x :: x in q[..p] + [addr] + q[p..] <==> x in q || x == addr
  {
    assert q == q[..p] + q[p..];
  }

  lemma SpliceSorted(m: map<nat, Timer>, q: seq<nat>, p: nat, addr: nat)
    requires Sorted(m, q) && addr in m && p <= |q|
    requires forall i | 0 <= i < p :: Before(m[q[i]].next, q[i], m[addr].next, addr)
    requires forall i | p <= i < |q| :: Before(m[addr].next, addr, m[q[i]].next, q[i])
    ensures Sorted(m, q[..p] + [addr] + q[p..])
  {
    var q' := q[..p] + [addr] + q[p..];
    forall i | 0 <= i < |q'|
      ensures q'[i] == if i < p then q[i] else if i == p then addr else q[i - 1]
    {
    }
  }

  lemma InsertAdds(m: map<nat, Timer>, q: seq<nat>, addr: nat)
    requires Sorted(m, q) && addr in m && addr !in q
    ensures Sorted(m, Insert(m, q, addr))
    ensures forall x :: x in Insert(m, q, addr) <==> x in q || x == addr
  {
    FoundIsMember(m, q, addr);
    var p := LowerBound(m, q, m[addr].next, addr);
    SpliceMembers(q, p, addr);
    forall i | p <= i < |q|
      ensures Before(m[addr].next, addr, m[q[i]].next, q[i])
    {
      assert q[i] != addr;
    }
    SpliceSorted(m, q, p, addr);
  }

  /** The timer lands first exactly when it sorts before every other. */
  lemma InsertFirst(m: map<nat, Timer>, q: seq<nat>, addr: nat)
    requires Sorted(m, q) && addr in m && addr !in q
    ensures Insert(m, q, addr)[0] == addr <==> forall x | x in q :: Before(m[addr].next, addr, m[x].next, x)
  {
    InsertAdds(m, q, addr);
    var q' := Insert(m, q, addr);
    hide Insert;
    if q'[0] == addr {
      forall x | x in q
        ensures Before(m[addr].next, addr, m[x].next, x)
      {
        var i :| 0 <= i < |q'| && q'[i] == x;
      }
    } else {
      var i :| 0 <= i < |q'| && q'[i] == addr;
      assert q'[0] in q && Before(m[q'[0]].next, q'[0], m[addr].next, addr);
    }
  }

  /** Changing the deadline of a timer outside the set leaves the order alone. */
  lemma ChangeOutside(m: map<nat, Timer>, q: seq<nat>, addr: nat, t: Timer)
    requires Sorted(m, q) && addr !in q
    ensures Sorted(m[addr := t], q)
  {
    forall i | 0 <= i < |q| ensures q[i] != addr {}
  }

  // ---------- The operations ----------

  /** Every queued timer is known; the ordered set really is ordered; a timer that
      still has its callback is queued. */
  ghost predicate Inv(s: Manager) {
    && Sorted(s.timers, s.queue)
    && s.last < U64
    && (forall id | id in s.timers :: s.timers[id].next < U64 && s.timers[id].ms < U64)
    && (forall id | id in s.timers && s.timers[id].cb.Some? :: id in s.queue)
  }

  /** FiberTimerManager::addTimer(timer, lock): insert, and raise the flag at the front. */
  function AddToSet(s: Manager, id: nat): Manager
    requires Known(s.timers, s.queue) && id in s.timers
  {
    var q := Insert(s.timers, s.queue, id);
    s.(queue := q, tickled := s.tickled || q[0] == id)
  }

  function Add(s: Manager, id: nat, t: Timer): Manager
    requires Known(s.timers, s.queue) && id !in s.timers
  {
    AddToSet(s.(timers := s.timers[id := t]), id)
  }

  function Cancel(s: Manager, id: nat): (Manager, bool)
    requires Known(s.timers, s.queue) && id in s.timers
  {
    if s.timers[id].cb.None? then (s, false) else
    var m := s.timers[id := s.timers[id].(cb := None)];
    (s.(timers := m, queue := Erase(m, s.queue, id)), true)
  }

  /** Take the timer out of the set and give it a new period and deadline. */
  function Retimed(s: Manager, id: nat, ms: nat, next: nat): Manager
    requires Known(s.timers, s.queue) && id in s.timers
  {
    s.(timers := s.timers[id := s.timers[id].(ms := ms, next := next)], queue := Erase(s.timers, s.queue, id))
  }

  function Refresh(s: Manager, id: nat, now: nat): (Manager, bool)
    requires Known(s.timers, s.queue) && id in s.timers
  {
    if s.timers[id].cb.None? then (s, false)
    else if !Found(s.timers, s.queue, id) then (s, false)
    else
      var s1 := Retimed(s, id, s.timers[id].ms, Plus(now, s.timers[id].ms));
      (s1.(queue := Insert(s1.timers, s1.queue, id)), true)
  }

  function ResetStart(t: Timer, fromNow: bool, now: nat): nat
    requires t.ms < U64
  {
    if fromNow then now else Minus(t.next, t.ms)
  }

  function Reset(s: Manager, id: nat, ms: nat, fromNow: bool, now: nat): (Manager, bool)
    requires Known(s.timers, s.queue) && id in s.timers && s.timers[id].ms < U64
  {
    if ms == s.timers[id].ms && !fromNow then (s, true)
    else if s.timers[id].cb.None? then (s, false)
    else if !Found(s.timers, s.queue, id) then (s, false)
    else (AddToSet(Retimed(s, id, ms, Plus(ResetStart(s.timers[id], fromNow, now), ms)), id), true)
  }

  /** getNextTimer: lower the flag and tell how long to wait. */
  function GetNext(s: Manager, now: nat): (Manager, nat)
    requires Known(s.timers, s.queue)
  {
    (s.(tickled := false),
     if s.queue == [] then NO_TIMER
     else if now >= s.timers[s.queue[0]].next then 0
     else s.timers[s.queue[0]].next - now)
  }

  /** What getNextTimer returns: the largest number without timers, 0 exactly when
      some timer is due, and else the time to the earliest deadline. */
  lemma GetNextExact(s: Manager, now: nat)
    requires Sorted(s.timers, s.queue)
    ensures var w := GetNext(s, now).1;
      && (s.queue == [] ==> w == NO_TIMER)
      && (s.queue != [] ==> (w == 0 <==> exists x | x in s.queue :: s.timers[x].next <= now))
      && (s.queue != [] && w > 0 ==>
            && (forall x | x in s.queue :: s.timers[x].next >= now + w)
            && (exists x | x in s.queue :: s.timers[x].next == now + w))
  {
    FirstIsEarliest(s.timers, s.queue);
  }

  lemma FirstIsEarliest(m: map<nat, Timer>, q: seq<nat>)
    requires Sorted(m, q)
    ensures q != [] ==> q[0] in q && forall x | x in q :: m[q[0]].next <= m[x].next
  {
    forall x | x in q
      ensures m[q[0]].next <= m[x].next
    {
      var i :| 0 <= i < |q| && q[i] == x;
      assert i > 0 ==> Before(m[q[0]].next, q[0], m[q[i]].next, q[i]);
    }
  }

  predicate Rollover(s: Manager, now: nat) {
    now < s.last && now < Minus(s.last, ROLLOVER_MS)
  }

  /** What the wrapping subtraction means: a clock set back by more than an hour,
      and during the first hour of the clock any step back. */
  lemma RolloverExact(s: Manager, now: nat)
    requires s.last < U64 && now < U64
    ensures Rollover(s, now) <==> now < s.last && (s.last < ROLLOVER_MS || now + ROLLOVER_MS < s.last)
  {
    if s.last >= ROLLOVER_MS {
      MinusExact(s.last, ROLLOVER_MS);
    }
  }

  /** The loop that passes the timers due exactly now. */
  function SkipDue(m: map<nat, Timer>, q: seq<nat>, p: nat, now: nat): (n: nat)
    requires Known(m, q) && p <= |q|
    ensures p <= n <= |q|
    ensures forall i | p <= i < n :: m[q[i]].next == now
    ensures n < |q| ==> m[q[n]].next != now
    decreases |q| - p
  {
    if p < |q| && m[q[p]].next == now then SkipDue(m, q, p + 1, now) else p
  }

  /** How many leading timers listExpiredCb takes; `probe` is the address of its search key. */
  function Due(s: Manager, now: nat, probe: nat): (n: nat)
    requires Known(s.timers, s.queue)
    ensures n <= |s.queue|
  {
    if s.queue == [] then 0
    else if Rollover(s, now) then |s.queue|
    else if s.timers[s.queue[0]].next > now then 0
    else SkipDue(s.timers, s.queue, LowerBound(s.timers, s.queue, now, probe), now)
  }

  /** A timer after its callback was collected. */
  function Collected(t: Timer, now: nat): Timer {
    if t.recurring then t.(next := Plus(now, t.ms)) else t.(cb := None)
  }

  /** The loop over the expired timers, re-arming the recurring ones. */
  function Rearm(m: map<nat, Timer>, q: seq<nat>, expired: seq<nat>, now: nat): (map<nat, Timer>, seq<nat>)
    requires Known(m, q) && Known(m, expired)
    decreases expired
  {
    if expired == [] then (m, q) else
    var e := expired[0];
    var m' := m[e := Collected(m[e], now)];
    Rearm(m', if m[e].recurring then Insert(m', q, e) else q, expired[1..], now)
  }

  lemma RearmStep(m: map<nat, Timer>, q: seq<nat>, expired: seq<nat>, now: nat)
    requires Known(m, q) && Known(m, expired) && expired != []
    ensures var m' := m[expired[0] := Collected(m[expired[0]], now)];
            var q' := if m[expired[0]].recurring then Insert(m', q, expired[0]) else q;
            Rearm(m, q, expired, now) == Rearm(m', q', expired[1..], now)
  {
  }

  lemma RearmNothing(m: map<nat, Timer>, q: seq<nat>, now: nat)
    requires Known(m, q)
    ensures Rearm(m, q, [], now) == (m, q)
  {
  }

  /** Take the first n timers out of the set and collect them. */
  function Taken(s: Manager, n: nat, now: nat): Manager
    requires Known(s.timers, s.queue) && n <= |s.queue|
  {
    var (m, q) := Rearm(s.timers, s.queue[n..], s.queue[..n], now);
    Manager(m, q, s.tickled, now)
  }

  lemma TakeNone(s: Manager, now: nat)
    requires Known(s.timers, s.queue)
    ensures Taken(s, 0, now) == s.(last := now)
  {
    assert s.queue[0..] == s.queue;
  }

  function ListExpired(s: Manager, now: nat, probe: nat): Manager
    requires Known(s.timers, s.queue)
  {
    if s.queue == [] then s else Taken(s, Due(s, now, probe), now)
  }

  /** The branches of listExpiredCb. */
  lemma ListExpiredBranches(s: Manager, now: nat, probe: nat)
    requires Known(s.timers, s.queue)
    ensures s.queue == [] ==> ListExpired(s, now, probe) == s && Due(s, now, probe) == 0
    ensures s.queue != [] && !Rollover(s, now) && s.timers[s.queue[0]].next > now ==>
      ListExpired(s, now, probe) == s.(last := now) && Due(s, now, probe) == 0
    ensures s.queue != [] && (Rollover(s, now) || s.timers[s.queue[0]].next <= now) ==>
      var n := if Rollover(s, now) then |s.queue|
               else SkipDue(s.timers, s.queue, LowerBound(s.timers, s.queue, now, probe), now);
      ListExpired(s, now, probe) == Taken(s, n, now) && Due(s, now, probe) == n
  {
    TakeNone(s, now);
    hide Taken;
  }

  // ---------- What the operations do to the set ----------

  lemma AddToSetAdds(s: Manager, id: nat)
    requires Sorted(s.timers, s.queue) && id in s.timers && id !in s.queue
    ensures Sorted(s.timers, AddToSet(s, id).queue)
    ensures forall x :: x in AddToSet(s, id).queue <==> x in s.queue || x == id
    ensures !AddToSet(s, id).tickled ==> exists x | x in s.queue :: s.timers[x].next <= s.timers[id].next
  {
    InsertAdds(s.timers, s.queue, id);
    var q := Insert(s.timers, s.queue, id);
    if q[0] != id {
      var i :| 0 <= i < |q| && q[i] == id;
      assert Before(s.timers[q[0]].next, q[0], s.timers[q[i]].next, q[i]);
      assert q[0] in s.queue;
    }
  }

  lemma RetimedRemoves(s: Manager, id: nat, ms: nat, next: nat)
    requires Sorted(s.timers, s.queue) && id in s.timers
    ensures var s' := Retimed(s, id, ms, next);
            Sorted(s'.timers, s'.queue) && id !in s'.queue && forall x :: x in s'.queue <==> x in s.queue && x != id
  {
    EraseRemoves(s.timers, s.queue, id);
    ChangeOutside(s.timers, Erase(s.timers, s.queue, id), id, s.timers[id].(ms := ms, next := next));
  }

  lemma Distinct(m: map<nat, Timer>, q: seq<nat>, i: nat, j: nat)
    requires Sorted(m, q) && i < j < |q|
    ensures q[i] != q[j]
  {
  }

  /** A set without repetitions, apart from another. */
  ghost predicate Apart(expired: seq<nat>, q: seq<nat>) {
    && (forall i, j | 0 <= i < j < |expired| :: expired[i] != expired[j])
    && (forall i | 0 <= i < |expired| :: expired[i] !in q)
  }

  /** The loop of listExpiredCb collects each expired timer once, keeps the set
      ordered although deadlines change, and re-inserts exactly the recurring ones. */
  lemma {:induction false} RearmEffect(m: map<nat, Timer>, q: seq<nat>, expired: seq<nat>, now: nat)
    requires Sorted(m, q) && Known(m, expired) && Apart(expired, q)
    ensures var (m', q') := Rearm(m, q, expired, now);
            && Sorted(m', q') && m'.Keys == m.Keys
            && (forall x | x in m :: m'[x] == if x in expired then Collected(m[x], now) else m[x])
            && (forall x :: x in q' <==> x in q || (x in expired && m[x].recurring))
    decreases expired
  {
    hide Insert, Found, LowerBound, Collected, Before;
    if expired != [] {
      var e, rest := expired[0], expired[1..];
      var m1 := m[e := Collected(m[e], now)];
      ChangeOutside(m, q, e, Collected(m[e], now));
      InsertAdds(m1, q, e);
      var q1 := if m[e].recurring then Insert(m1, q, e) else q;
      assert expired == [e] + rest;
      assert Apart(rest, q1) by {
        forall i | 0 <= i < |rest| ensures rest[i] == expired[i + 1] && rest[i] != e {}
      }
      RearmEffect(m1, q1, rest, now);
    }
  }

  /** Without a rollover the timers taken are those whose deadline has come,
      whatever the address of the search key. */
  lemma DueExact(s: Manager, now: nat, probe: nat)
    requires Sorted(s.timers, s.queue) && !Rollover(s, now)
    ensures var n := Due(s, now, probe);
            && (forall i | 0 <= i < n :: s.timers[s.queue[i]].next <= now)
            && (forall i | n <= i < |s.queue| :: s.timers[s.queue[i]].next > now)
  {
    var m, q, n := s.timers, s.queue, Due(s, now, probe);
    if q != [] && m[q[0]].next <= now {
      var p := LowerBound(m, q, now, probe);
      assert forall i | 0 <= i < p :: Before(m[q[i]].next, q[i], now, probe);
      if n < |q| {
        assert m[q[n]].next > now by {
          if n == p {
            assert !Before(m[q[p]].next, q[p], now, probe);
          } else {
            assert m[q[n - 1]].next == now && Before(m[q[n - 1]].next, q[n - 1], m[q[n]].next, q[n]);
          }
        }
      }
    }
  }

  /** After a rollover every queued timer is taken. */
  lemma RolloverTakesAll(s: Manager, now: nat, probe: nat)
    requires Sorted(s.timers, s.queue) && Rollover(s, now)
    ensures Due(s, now, probe) == |s.queue|
  {
  }

  /** listExpiredCb: which timers fire, in which order, and what becomes of every timer. */
  lemma ListExpiredExact(s: Manager, now: nat, probe: nat)
    requires Inv(s) && !Rollover(s, now)
    ensures var expired, s' := s.queue[..Due(s, now, probe)], ListExpired(s, now, probe);
            && (forall x :: x in expired <==> x in s.queue && s.timers[x].next <= now)
            && (forall i, j | 0 <= i < j < |expired| :: s.timers[expired[i]].next <= s.timers[expired[j]].next)
            && s'.timers.Keys == s.timers.Keys && Sorted(s'.timers, s'.queue)
            && (forall x | x in s.timers :: s'.timers[x] == if x in expired then Collected(s.timers[x], now) else s.timers[x])
            && (forall x :: x in s'.queue <==> x in s.queue && (x in expired ==> s.timers[x].recurring))
  {
    var n := Due(s, now, probe);
    DueExact(s, now, probe);
    TakeEffect(s, n, now);
    assert forall x :: x in s.queue[..n] <==> x in s.queue && s.timers[x].next <= now by {
      forall x | x in s.queue && s.timers[x].next <= now
        ensures x in s.queue[..n]
      {
        var i :| 0 <= i < |s.queue| && s.queue[i] == x;
        assert i < n && s.queue[..n][i] == x;
      }
    }
  }

  lemma TakeEffect(s: Manager, n: nat, now: nat)
    requires Sorted(s.timers, s.queue) && n <= |s.queue|
    ensures var expired, s' := s.queue[..n], Taken(s, n, now);
            && Sorted(s'.timers, s'.queue) && s'.timers.Keys == s.timers.Keys
            && (forall x | x in s.timers :: s'.timers[x] == if x in expired then Collected(s.timers[x], now) else s.timers[x])
            && (forall x :: x in s'.queue <==> x in s.queue && (x in expired ==> s.timers[x].recurring))
  {
    var expired, rest := s.queue[..n], s.queue[n..];
    assert s.queue == expired + rest;
    assert Apart(expired, rest) by {
      forall i, j | 0 <= i < |expired| && 0 <= j < |rest| ensures expired[i] != rest[j] {
        Distinct(s.timers, s.queue, i, n + j);
      }
      forall i, j | 0 <= i < j < |expired| ensures expired[i] != expired[j] {
        Distinct(s.timers, s.queue, i, j);
      }
    }
    RearmEffect(s.timers, rest, expired, now);
  }

  /** The timers taken, one by one. */
  lemma ExpiredOneByOne(s: Manager, now: nat, probe: nat)
    requires Inv(s) && now < U64
    ensures Inv(ListExpired(s, now, probe))
    ensures forall i | 0 <= i < Due(s, now, probe) ::
      && s.queue[i] in ListExpired(s, now, probe).timers
      && ListExpired(s, now, probe).timers[s.queue[i]] == Collected(s.timers[s.queue[i]], now)
  {
    var n := Due(s, now, probe);
    TakeEffect(s, n, now);
    forall i | 0 <= i < n
      ensures s.queue[i] in s.queue[..n]
    {
      assert s.queue[..n][i] == s.queue[i];
    }
    hide Due, Before;
  }

  lemma CollectedIs(t: Timer, now: nat)
    ensures t.recurring ==> Collected(t, now) == t.(next := (now + t.ms) % U64)
    ensures !t.recurring ==> Collected(t, now) == t.(cb := None)
  {
  }
}
