/** The timer classes, whose methods move shared timer objects in and out of the
    ordered set and change their deadlines in place. */
module FiberTimers {
  import opened Wrappers
  import T = TimerSpec
  import R = TimerRuns

  class FiberTimer {
    const addr: nat
    const recurring: bool
    var ms: nat
    var next: nat
    var cb: Option<nat>
    const manager: FiberTimerManager

    ghost function Value(): T.Timer
      reads this
    {
      T.Timer(recurring, ms, next, cb)
    }

    constructor (addr: nat, ms: nat, cb: Option<nat>, recurring: bool, manager: FiberTimerManager, now: nat)
      ensures this.addr == addr && this.manager == manager
      ensures Value() == T.Timer(recurring, ms, T.Plus(now, ms), cb)
    {
      this.addr, this.recurring, this.manager := addr, recurring, manager;
      this.ms, this.next, this.cb := ms, T.Plus(now, ms), cb;
    }

    ghost predicate Managed()
      reads this, manager, manager.known.Values
    {
      manager.Valid() && addr in manager.known && manager.known[addr] == this
    }

    method Cancel() returns (ok: bool)
      requires Managed()
      modifies this`cb, manager`timers
      ensures manager.known == old(manager.known) && Managed()
      ensures (manager.View(), ok) == T.Cancel(old(manager.View()), addr)
    {
      hide T.Insert, T.Erase, T.Found, T.LowerBound, T.Inv, T.Sorted, T.Plus, T.Minus;
      R.CancelEffect(manager.View(), addr);
      if cb.None? {
        return false;
      }
      cb := None;
      manager.ChangedOne(this);
      manager.Erase(this);
      ok := true;
    }

    /** Leave the set, then change period and deadline. */
    method Retime(ms: nat, next: nat)
      requires manager.Linked() && addr in manager.known && manager.known[addr] == this
      modifies this`ms, this`next, manager`timers
      ensures manager.known == old(manager.known) && manager.Linked()
      ensures T.Known(old(manager.Values()), old(manager.Addresses()))
      ensures manager.View() == T.Retimed(old(manager.View()), addr, ms, next)
    {
      hide T.Erase, T.Found, T.LowerBound;
      manager.Erase(this);
      label erased:
      this.ms, this.next := ms, next;
      manager.ChangedOne@erased(this);
    }

    method Refresh(now: nat) returns (ok: bool)
      requires Managed()
      modifies this`ms, this`next, manager`timers
      ensures manager.known == old(manager.known) && Managed()
      ensures (manager.View(), ok) == T.Refresh(old(manager.View()), addr, now)
    {
      hide T.Insert, T.Erase, T.Found, T.LowerBound, T.Inv, T.Sorted, T.Plus, T.Minus, T.Retimed;
      R.RefreshEffect(manager.View(), addr, now);
      if cb.None? {
        return false;
      }
      var found := manager.Find(this);
      if !found {
        return false;
      }
      Retime(ms, T.Plus(now, ms));
      manager.Insert(this);
      ok := true;
    }

    /** `announced` tells whether onTimerInsertedAtFront is called. */
    method Reset(ms: nat, fromNow: bool, now: nat) returns (ok: bool, announced: bool)
      requires Managed() && ms < T.U64
      modifies this`ms, this`next, manager`timers, manager`tickled
      ensures manager.known == old(manager.known) && Managed()
      ensures (manager.View(), ok) == T.Reset(old(manager.View()), addr, ms, fromNow, now)
      ensures announced <==> R.Notifies(old(manager.View()), R.ResetTimer(addr, ms, fromNow, now))
    {
      assert manager.Values()[addr] == Value() && Value().ms < T.U64 && T.Inv(manager.View());
      hide R.Notifies, T.Reset, T.Sorted;
      R.ResetNotifies(manager.View(), addr, ms, fromNow, now);
      ok, announced := ResetLinked(ms, fromNow, now);
    }

    /** The body of reset. */
    method ResetLinked(ms: nat, fromNow: bool, now: nat) returns (ok: bool, announced: bool)
      requires manager.Linked() && addr in manager.known && manager.known[addr] == this
      requires T.Known(manager.Values(), manager.Addresses()) && this.ms < T.U64
      modifies this`ms, this`next, manager`timers, manager`tickled
      ensures manager.known == old(manager.known) && manager.Linked()
      ensures (manager.View(), ok) == T.Reset(old(manager.View()), addr, ms, fromNow, now)
      ensures announced <==> manager.tickled && !old(manager.tickled)
    {
      assert manager.Values()[addr] == Value();
      hide T.Insert, T.Erase, T.Found, T.LowerBound, T.Plus, T.Minus, T.AddToSet, T.Retimed;
      if ms == this.ms && !fromNow {
        return true, false;
      }
      if cb.None? {
        return false, false;
      }
      var found := manager.Find(this);
      if !found {
        return false, false;
      }
      var start := if fromNow then now else T.Minus(next, this.ms);
      announced := Move(ms, T.Plus(start, ms));
      ok := true;
    }

    /** Re-enter the set under a new deadline, announcing it at the front. */
    method Move(ms: nat, next: nat) returns (announced: bool)
      requires manager.Linked() && addr in manager.known && manager.known[addr] == this
      modifies this`ms, this`next, manager`timers, manager`tickled
      ensures manager.known == old(manager.known) && manager.Linked()
      ensures T.Known(old(manager.Values()), old(manager.Addresses()))
      ensures var s := T.Retimed(old(manager.View()), addr, ms, next);
              T.Known(s.timers, s.queue) && manager.View() == T.AddToSet(s, addr)
      ensures announced <==> manager.tickled && !old(manager.tickled)
    {
      hide T.Erase, T.Insert, T.AddToSet, T.Retimed;
      Retime(ms, next);
      announced := manager.AddToSet(this);
    }
  }

  /** A clock set back by more than an hour, or by anything during its first hour. */
  predicate RolledOver(last: nat, now: nat) {
    now < last && (last < T.ROLLOVER_MS || now + T.ROLLOVER_MS < last)
  }

  class FiberTimerManager {
    var timers: seq<FiberTimer>
    var tickled: bool
    var lastExecuteTime: nat
    ghost var known: map<nat, FiberTimer>

    ghost function Values(): map<nat, T.Timer>
      reads this`known, known.Values
    {
      map a | a in known :: known[a].Value()
    }

    static function AddressesOf(ts: seq<FiberTimer>): seq<nat> {
      seq(|ts|, i requires 0 <= i < |ts| => ts[i].addr)
    }

    ghost function Addresses(): seq<nat>
      reads this`timers
    {
      AddressesOf(timers)
    }

    ghost function View(): T.Manager
      reads this, known.Values
    {
      T.Manager(Values(), Addresses(), tickled, lastExecuteTime)
    }

    /** Every timer in the set is one of the known timers, under its own address. */
    ghost predicate Linked()
      reads this, known.Values
    {
      && (forall a | a in known :: known[a].addr == a && known[a].manager == this)
      && (forall i | 0 <= i < |timers| :: timers[i].addr in known && known[timers[i].addr] == timers[i])
    }

    ghost predicate Valid()
      reads this, known.Values
    {
      Linked() && T.Inv(View())
    }

    twostate lemma ChangedOne(t: FiberTimer)
      requires Linked() && t.addr in known && known[t.addr] == t
      requires unchanged(this) && forall a | a in known && a != t.addr :: unchanged(known[a])
      ensures Values() == old(Values())[t.addr := t.Value()]
    {
    }

    /** lower_bound of the ordered set. */
    method LowerBound(next: nat, addr: nat) returns (p: nat)
      requires Linked()
      ensures T.Known(Values(), Addresses()) && p == T.LowerBound(Values(), Addresses(), next, addr)
    {
      p := 0;
      while p < |timers| && T.Before(timers[p].next, timers[p].addr, next, addr)
        invariant p <= |timers|
        invariant forall i | 0 <= i < p :: T.Before(timers[i].next, timers[i].addr, next, addr)
      {
        p := p + 1;
      }
      var m, q := Values(), Addresses();
      assert forall i | 0 <= i < |q| :: m[q[i]] == timers[i].Value();
      T.LowerBoundUnique(m, q, next, addr, p);
    }

    method Find(t: FiberTimer) returns (found: bool)
      requires Linked() && t.addr in known && known[t.addr] == t
      ensures T.Known(Values(), Addresses()) && found == T.Found(Values(), Addresses(), t.addr)
    {
      var p := LowerBound(t.next, t.addr);
      found := p < |timers| && !T.Before(t.next, t.addr, timers[p].next, timers[p].addr);
    }

    method Erase(t: FiberTimer)
      requires Linked() && t.addr in known && known[t.addr] == t
      modifies this`timers
      ensures Linked() && T.Known(Values(), old(Addresses()))
      ensures Addresses() == T.Erase(Values(), old(Addresses()), t.addr)
    {
      var p := LowerBound(t.next, t.addr);
      if p < |timers| && !T.Before(t.next, t.addr, timers[p].next, timers[p].addr) {
        timers := timers[..p] + timers[p + 1..];
      }
    }

    method Insert(t: FiberTimer)
      requires Linked() && t.addr in known && known[t.addr] == t
      modifies this`timers
      ensures Linked() && T.Known(Values(), old(Addresses()))
      ensures Addresses() == T.Insert(Values(), old(Addresses()), t.addr)
    {
      var p := LowerBound(t.next, t.addr);
      if p == |timers| || T.Before(t.next, t.addr, timers[p].next, timers[p].addr) {
        timers := timers[..p] + [t] + timers[p..];
      }
    }

    /** addTimer(timer, lock): insert, and note whether the front must be announced. */
    method AddToSet(t: FiberTimer) returns (announce: bool)
      requires Linked() && t.addr in known && known[t.addr] == t
      modifies this`timers, this`tickled
      ensures Linked() && T.Known(old(Values()), old(Addresses())) && View() == T.AddToSet(old(View()), t.addr)
      ensures announce <==> tickled && !old(tickled)
    {
      Insert(t);
      announce := timers[0] == t && !tickled;
      if announce {
        tickled := true;
      }
    }

    constructor (now: nat)
      requires now < T.U64
      ensures Valid() && known == map[] && View() == T.Manager(map[], [], false, now)
    {
      timers, tickled, lastExecuteTime, known := [], false, now, map[];
    }

    /** addTimer(ms, cb, recurring); the new object lies at a fresh address, and
        `announced` tells whether onTimerInsertedAtFront is called. */
    method AddTimer(addr: nat, ms: nat, cb: Option<nat>, recurring: bool, now: nat)
      returns (t: FiberTimer, announced: bool)
      requires Valid() && addr !in known && ms < T.U64
      modifies this`timers, this`tickled, this`known
      ensures fresh(t) && known == old(known)[addr := t] && t.Managed()
      ensures View() == T.Add(old(View()), addr, T.Timer(recurring, ms, T.Plus(now, ms), cb))
      ensures announced <==> R.Notifies(old(View()), R.AddTimer(addr, ms, cb, recurring, now))
    {
      hide R.Notifies, T.Sorted, T.Plus, T.Add;
      R.AddNotifies(View(), addr, ms, cb, recurring, now);
      t := new FiberTimer(addr, ms, cb, recurring, this, now);
      announced := Enter(t);
    }

    /** A timer just constructed enters the set. */
    method Enter(t: FiberTimer) returns (announced: bool)
      requires Linked() && t.addr !in known && t.manager == this
      modifies this`timers, this`tickled, this`known
      ensures Linked() && known == old(known)[t.addr := t] && T.Known(old(Values()), old(Addresses()))
      ensures View() == T.Add(old(View()), t.addr, t.Value())
      ensures announced <==> tickled && !old(tickled)
    {
      hide T.AddToSet;
      Admit(t);
      announced := AddToSet(t);
    }

    ghost method Admit(t: FiberTimer)
      requires Linked() && t.addr !in known && t.manager == this
      modifies this`known
      ensures Linked() && known == old(known)[t.addr := t]
      ensures Values() == old(Values())[t.addr := t.Value()]
    {
      known := known[t.addr := t];
    }

    /** getNextTimer: how long the caller may sleep. */
    method GetNextTimer(now: nat) returns (wait: nat)
      requires Valid()
      modifies this`tickled
      ensures Valid() && (View(), wait) == T.GetNext(old(View()), now)
      ensures timers == [] ==> wait == T.NO_TIMER
      ensures timers != [] ==> (wait == 0 <==> exists i :: 0 <= i < |timers| && timers[i].next <= now)
      ensures timers != [] && wait > 0 ==>
        && (forall i | 0 <= i < |timers| :: timers[i].next >= now + wait)
        && (exists i :: 0 <= i < |timers| && timers[i].next == now + wait)
    {
      FirstIsEarliest();
      tickled := false;
      if |timers| == 0 {
        return T.NO_TIMER;
      }
      assert Values()[Addresses()[0]] == timers[0].Value();
      if now >= timers[0].next {
        return 0;
      }
      wait := timers[0].next - now;
    }

    lemma FirstIsEarliest()
      requires Valid()
      ensures forall i | 0 <= i < |timers| :: timers[0].next <= timers[i].next
    {
      forall i | 0 <= i < |timers|
        ensures timers[0].next <= timers[i].next
      {
        assert Values()[Addresses()[0]] == timers[0].Value() && Values()[Addresses()[i]] == timers[i].Value();
        assert i > 0 ==> T.Before(timers[0].next, timers[0].addr, timers[i].next, timers[i].addr);
      }
    }

    method DetectClockRollover(now: nat) returns (rollover: bool)
      requires Valid() && now < T.U64
      modifies this`lastExecuteTime
      ensures rollover <==> RolledOver(old(lastExecuteTime), now)
      ensures rollover == T.Rollover(old(View()), now) && lastExecuteTime == now
    {
      T.RolloverExact(View(), now);
      rollover := now < lastExecuteTime && now < T.Minus(lastExecuteTime, T.ROLLOVER_MS);
      lastExecuteTime := now;
    }

    /** The iterator loop: how many leading timers are due. */
    method CountDue(now: nat, probe: nat, rollover: bool) returns (n: nat)
      requires Linked() && |timers| > 0
      requires rollover || timers[0].next <= now
      ensures T.Known(Values(), Addresses()) && n <= |timers|
      ensures n == if rollover then |timers|
                   else T.SkipDue(Values(), Addresses(), T.LowerBound(Values(), Addresses(), now, probe), now)
    {
      if rollover {
        n := |timers|;
      } else {
        n := LowerBound(now, probe);
      }
      ghost var m, q, p := Values(), Addresses(), n;
      assert forall i | 0 <= i < |q| :: m[q[i]] == timers[i].Value();
      while n < |timers| && timers[n].next == now
        invariant p <= n <= |timers|
        invariant T.SkipDue(m, q, p, now) == T.SkipDue(m, q, n, now)
      {
        n := n + 1;
      }
    }

    /** listExpiredCb: the callbacks of the timers due, or of all after a rollover, as
        they were, in deadline order; the recurring ones are due again after their
        period, the others have lost their callback. */
    method ListExpiredCb(cbs: seq<Option<nat>>, now: nat, probe: nat) returns (cbs': seq<Option<nat>>)
      requires Valid() && now < T.U64
      modifies this`timers, this`lastExecuteTime, known.Values`next, known.Values`cb
      ensures Valid() && known == old(known) && View() == T.ListExpired(old(View()), now, probe)
      ensures cbs <= cbs' && |cbs'| - |cbs| <= |old(timers)|
      ensures forall i | 0 <= i < |cbs'| - |cbs| :: cbs'[|cbs| + i] == old(timers[i].cb)
      ensures forall i | 0 <= i < |old(timers)| ::
        i < |cbs'| - |cbs| <==> RolledOver(old(lastExecuteTime), now) || old(timers[i].next) <= now
      ensures forall i | 0 <= i < |cbs'| - |cbs| ::
        if old(timers)[i].recurring
        then old(timers)[i].next == (now + old(timers)[i].ms) % T.U64 && old(timers)[i].cb == old(timers[i].cb)
        else old(timers)[i].cb == None
      ensures var handed := R.Handed(old(View()), R.ListExpiredCb(now, probe));
              |handed| == |cbs'| - |cbs|
              && forall i | 0 <= i < |handed| :: handed[i] == (old(timers)[i].addr, cbs'[|cbs| + i])
    {
      hide T.Inv, T.Sorted, T.ListExpired, T.Due, T.Rollover, T.Before, T.Collected, R.Handed;
      ghost var s, ts := View(), timers;
      ghost var n := T.Due(s, now, probe);
      DueOnes(now, probe, n);
      T.ExpiredOneByOne(s, now, probe);
      R.HandedOne(s, now, probe);
      AtPlace();
      cbs' := ListExpired(cbs, now, probe);
      forall i | 0 <= i < n
        ensures ts[i].Value() == T.Collected(old(ts[i].Value()), now)
      {
        assert Values()[ts[i].addr] == ts[i].Value();
      }
      forall i | 0 <= i < n
        ensures ts[i].recurring ==> ts[i].next == (now + ts[i].ms) % T.U64
        ensures ts[i].recurring ==> ts[i].cb == old(ts[i].cb)
        ensures !ts[i].recurring ==> ts[i].cb == None
      {
        T.CollectedIs(old(ts[i].Value()), now);
      }
    }

    lemma SortedNow()
      requires Valid()
      ensures T.Sorted(Values(), Addresses())
    {
    }

    lemma AtPlace()
      requires Linked()
      ensures forall i | 0 <= i < |timers| ::
        timers[i].addr in Values() && Values()[timers[i].addr] == timers[i].Value() && Addresses()[i] == timers[i].addr
    {
    }

    /** Which timers are due. */
    lemma DueOnes(now: nat, probe: nat, n: nat)
      requires Valid() && now < T.U64 && n == T.Due(View(), now, probe)
      ensures n <= |timers|
      ensures forall i | 0 <= i < |timers| :: i < n <==> RolledOver(lastExecuteTime, now) || timers[i].next <= now
    {
      var s := View();
      T.RolloverExact(s, now);
      if T.Rollover(s, now) {
        T.RolloverTakesAll(s, now, probe);
      } else {
        T.DueExact(s, now, probe);
        assert forall i | 0 <= i < |timers| :: s.timers[s.queue[i]] == timers[i].Value();
      }
    }

    /** The body of listExpiredCb. */
    method ListExpired(cbs: seq<Option<nat>>, now: nat, probe: nat) returns (cbs': seq<Option<nat>>)
      requires Valid() && now < T.U64
      modifies this`timers, this`lastExecuteTime, known.Values`next, known.Values`cb
      ensures Linked() && known == old(known) && View() == T.ListExpired(old(View()), now, probe)
      ensures cbs <= cbs' && |cbs'| - |cbs| == T.Due(old(View()), now, probe)
      ensures forall i | 0 <= i < |cbs'| - |cbs| :: cbs'[|cbs| + i] == old(timers[i].cb)
    {
      hide T.Inv, T.Sorted, T.Rollover, T.LowerBound, T.SkipDue, T.ListExpired, T.Due, T.Rearm;
      ghost var s := View();
      SortedNow();
      AtPlace();
      T.ListExpiredBranches(s, now, probe);
      if |timers| == 0 {
        return cbs;
      }
      var rollover := DetectClockRollover(now);
      if !rollover && timers[0].next > now {
        return cbs;
      }
      var n := CountDue(now, probe, rollover);
      var fired := TakeExpired(n, now);
      cbs' := cbs + fired;
    }

    /** Move the first n timers out of the set and collect them. */
    method TakeExpired(n: nat, now: nat) returns (fired: seq<Option<nat>>)
      requires Linked() && T.Sorted(Values(), Addresses()) && n <= |timers| && lastExecuteTime == now
      modifies this`timers, known.Values`next, known.Values`cb
      ensures Linked() && known == old(known)
      ensures T.Known(old(Values()), old(Addresses())) && View() == T.Taken(old(View()), n, now)
      ensures |fired| == n && forall i | 0 <= i < n :: fired[i] == old(timers[i].cb)
    {
      forall i, j | 0 <= i < j < |timers|
        ensures timers[i].addr != timers[j].addr
      {
        T.Distinct(Values(), Addresses(), i, j);
      }
      hide T.Sorted, T.Rearm;
      var expired := timers[..n];
      ghost var q := Addresses();
      timers := timers[n..];
      assert AddressesOf(expired) == q[..n] && Addresses() == q[n..];
      fired := Collect(expired, now);
    }

    /** The loop over the expired timers. */
    method Collect(expired: seq<FiberTimer>, now: nat) returns (cbs: seq<Option<nat>>)
      requires Linked()
      requires forall i | 0 <= i < |expired| :: expired[i].addr in known && known[expired[i].addr] == expired[i]
      requires forall i, j | 0 <= i < j < |expired| :: expired[i] != expired[j]
      modifies this`timers, known.Values`next, known.Values`cb
      ensures Linked() && known == old(known)
      ensures T.Known(old(Values()), old(Addresses())) && T.Known(old(Values()), AddressesOf(expired))
      ensures (Values(), Addresses()) == T.Rearm(old(Values()), old(Addresses()), AddressesOf(expired), now)
      ensures |cbs| == |expired| && forall i | 0 <= i < |expired| :: cbs[i] == old(expired[i].cb)
    {
      cbs := [];
      hide T.Insert, T.Collected, T.Rearm;
      ghost var m, q, a := Values(), Addresses(), AddressesOf(expired);
      assert a[0..] == a;
      for i := 0 to |expired|
        invariant Linked() && known == old(known)
        invariant |cbs| == i && forall j | 0 <= j < i :: cbs[j] == old(expired[j].cb)
        invariant forall j | i <= j < |expired| :: expired[j].Value() == m[a[j]]
        invariant T.Rearm(m, q, a, now) == T.Rearm(Values(), Addresses(), a[i..], now)
      {
        cbs := cbs + [expired[i].cb];
        T.RearmStep(Values(), Addresses(), a[i..], now);
        assert a[i..][1..] == a[i + 1..] && a[i..][0] == expired[i].addr;
        CollectOne(expired[i], now);
      }
      T.RearmNothing(Values(), Addresses(), now);
      assert a[|expired|..] == [];
    }

    /** One expired timer: re-armed when recurring, else stripped of its callback. */
    method CollectOne(t: FiberTimer, now: nat)
      requires Linked() && t.addr in known && known[t.addr] == t
      modifies this`timers, t`next, t`cb
      ensures Linked() && known == old(known) && T.Known(Values(), old(Addresses()))
      ensures Values() == old(Values())[t.addr := T.Collected(old(t.Value()), now)]
      ensures Addresses() == if t.recurring then T.Insert(Values(), old(Addresses()), t.addr) else old(Addresses())
    {
      hide T.Insert, T.Plus;
      if t.recurring {
        t.next := T.Plus(now, t.ms);
        ChangedOne(t);
        Insert(t);
      } else {
        t.cb := None;
        ChangedOne(t);
      }
    }
  }
}
