/** Whole runs of the timer manager: every sequence of operations, each atomic
    under the manager's lock, with the clock readings they used. */
module TimerRuns {
  import opened Wrappers
  import opened TimerSpec

  /** `now` is the clock reading the operation used.  Timers are named by address. */
  datatype Action =
    | AddTimer(id: nat, ms: nat, cb: Option<nat>, recurring: bool, now: nat)
    | CancelTimer(id: nat)
    | RefreshTimer(id: nat, now: nat)
    | ResetTimer(id: nat, ms: nat, fromNow: bool, now: nat)
    | GetNextTimer(now: nat)
    | ListExpiredCb(now: nat, probe: nat)

  predicate Enabled(s: Manager, a: Action) {
    match a
    case AddTimer(id, ms, _, _, _) => id !in s.timers && ms < U64
    case CancelTimer(id) => id in s.timers
    case RefreshTimer(id, _) => id in s.timers
    case ResetTimer(id, ms, _, _) => id in s.timers && ms < U64
    case GetNextTimer(_) => true
    case ListExpiredCb(now, _) => now < U64
  }

  ghost function Next(s: Manager, a: Action): Manager
    requires Inv(s) && Enabled(s, a)
  {
    match a
    case AddTimer(id, ms, cb, recurring, now) => Add(s, id, Timer(recurring, ms, Plus(now, ms), cb))
    case CancelTimer(id) => Cancel(s, id).0
    case RefreshTimer(id, now) => Refresh(s, id, now).0
    case ResetTimer(id, ms, fromNow, now) => Reset(s, id, ms, fromNow, now).0
    case GetNextTimer(now) => GetNext(s, now).0
    case ListExpiredCb(now, probe) => ListExpired(s, now, probe)
  }

  /** The timers whose callbacks the operation hands out. */
  ghost function Fired(s: Manager, a: Action): seq<nat>
    requires Inv(s) && Enabled(s, a)
  {
    if a.ListExpiredCb? then s.queue[..Due(s, a.now, a.probe)] else []
  }

  /** cancel succeeds exactly with a callback, and else changes nothing. */
  lemma CancelEffect(s: Manager, id: nat)
    requires Inv(s) && id in s.timers
    ensures Inv(Cancel(s, id).0) && Cancel(s, id).0.tickled == s.tickled
    ensures Cancel(s, id).1 <==> s.timers[id].cb.Some?
    ensures !Cancel(s, id).1 ==> Cancel(s, id).0 == s
    ensures s.timers[id].cb.Some? ==> Cancel(s, id).0.timers == s.timers[id := s.timers[id].(cb := None)]
    ensures Cancel(s, id).1 ==> Retired(Cancel(s, id).0, id)
    ensures forall x :: x in Cancel(s, id).0.queue <==> x in s.queue && (Cancel(s, id).1 ==> x != id)
  {
    var m := s.timers[id := s.timers[id].(cb := None)];
    assert Sorted(m, s.queue);
    EraseRemoves(m, s.queue, id);
    hide Erase, Found, LowerBound;
  }

  /** refresh keeps the members and changes one deadline. */
  lemma RefreshEffect(s: Manager, id: nat, now: nat)
    requires Inv(s) && id in s.timers
    ensures var (s', ok) := Refresh(s, id, now);
            && Inv(s') && s'.tickled == s.tickled
            && (ok <==> s.timers[id].cb.Some?) && (!ok ==> s' == s) && (ok ==> id in s.queue)
            && (ok ==> s'.timers == s.timers[id := s.timers[id].(next := Plus(now, s.timers[id].ms))])
            && (forall x :: x in s'.queue <==> x in s.queue)
  {
    FoundIsMember(s.timers, s.queue, id);
    var ms := s.timers[id].ms;
    var s1 := Retimed(s, id, ms, Plus(now, ms));
    RetimedRemoves(s, id, ms, Plus(now, ms));
    InsertAdds(s1.timers, s1.queue, id);
    hide Insert, Erase, Found, LowerBound;
  }

  /** reset acts exactly on a timer with a callback whose period or start changes:
      it keeps the members, changes one period and deadline, and raises the flag
      unless another timer is due no later. */
  lemma ResetEffect(s: Manager, id: nat, ms: nat, fromNow: bool, now: nat)
    requires Inv(s) && id in s.timers && ms < U64
    ensures var next := Plus(ResetStart(s.timers[id], fromNow, now), ms);
            var (s', ok) := Reset(s, id, ms, fromNow, now);
            var same := ms == s.timers[id].ms && !fromNow;
            && Inv(s') && (s.tickled ==> s'.tickled)
            && (ok <==> same || s.timers[id].cb.Some?)
            && (if same || s.timers[id].cb.None? then s' == s
                else
                  && id in s.queue && s'.timers == s.timers[id := s.timers[id].(ms := ms, next := next)]
                  && (s'.tickled || exists x | x in s.queue :: x != id && s.timers[x].next <= next))
            && (forall x :: x in s'.queue <==> x in s.queue)
  {
    hide Insert, Erase, Found, LowerBound, ResetStart, Before;
    FoundIsMember(s.timers, s.queue, id);
    var next := Plus(ResetStart(s.timers[id], fromNow, now), ms);
    assert next < U64;
    hide Plus;
    var s1 := Retimed(s, id, ms, next);
    RetimedRemoves(s, id, ms, next);
    AddToSetAdds(s1, id);
    if !AddToSet(s1, id).tickled {
      var x :| x in s1.queue && s1.timers[x].next <= s1.timers[id].next;
      assert x in s.queue && x != id && s.timers[x].next <= next;
    }
  }

  /** `next` lies ms after now, or ms minus the old period after the old deadline. */
  predicate Moved(t: Timer, next: nat, ms: nat, fromNow: bool, now: nat) {
    && (fromNow ==> next == (now + ms) % U64)
    && (!fromNow && t.ms <= t.next ==> next == (t.next - t.ms + ms) % U64)
    && (!fromNow ==> (next + t.ms) % U64 == (t.next + ms) % U64)
  }

  /** Where reset moves a deadline. */
  lemma ResetDeadline(s: Manager, id: nat, ms: nat, fromNow: bool, now: nat)
    requires Inv(s) && id in s.timers && ms < U64 && s.timers[id].cb.Some? && (fromNow || ms != s.timers[id].ms)
    ensures Reset(s, id, ms, fromNow, now).0.timers[id].ms == ms
    ensures Moved(s.timers[id], Reset(s, id, ms, fromNow, now).0.timers[id].next, ms, fromNow, now)
  {
    ResetEffect(s, id, ms, fromNow, now);
    hide Moved, Reset, Plus, ResetStart, Sorted, Before;
    NextOfReset(s.timers[id], ms, fromNow, now);
  }

  lemma NextOfReset(t: Timer, ms: nat, fromNow: bool, now: nat)
    requires t.next < U64 && t.ms < U64 && ms < U64
    ensures Moved(t, Plus(ResetStart(t, fromNow, now), ms), ms, fromNow, now)
  {
    if !fromNow {
      if t.ms <= t.next {
        MinusExact(t.next, t.ms);
      }
      MinusPlus(t.next, t.ms, ms);
      hide Minus;
    }
  }

  lemma MinusPlus(next: nat, old': nat, ms: nat)
    requires next < U64 && old' < U64 && ms < U64
    ensures (Plus(Minus(next, old'), ms) + old') % U64 == (next + ms) % U64
  {
  }

  /** A timer without callback outside the set. */
  ghost predicate Retired(s: Manager, id: nat) {
    id in s.timers && s.timers[id].cb.None? && id !in s.queue
  }

  lemma AddEffect(s: Manager, id: nat, t: Timer)
    requires Inv(s) && id !in s.timers && t.ms < U64 && t.next < U64
    ensures Inv(Add(s, id, t)) && Add(s, id, t).timers == s.timers[id := t]
    ensures s.tickled ==> Add(s, id, t).tickled
    ensures Add(s, id, t).tickled || exists x | x in s.queue :: s.timers[x].next <= t.next
    ensures forall x :: x in Add(s, id, t).queue <==> x in s.queue || x == id
  {
    var s1 := s.(timers := s.timers[id := t]);
    ChangeOutside(s.timers, s.queue, id, t);
    AddToSetAdds(s1, id);
    hide Insert;
    if !AddToSet(s1, id).tickled {
      var x :| x in s1.queue && s1.timers[x].next <= s1.timers[id].next;
      assert x in s.queue && s.timers[x].next <= t.next;
    }
  }

  lemma NextKeepsInv(s: Manager, a: Action)
    requires Inv(s) && Enabled(s, a)
    ensures Inv(Next(s, a))
  {
    hide Add, Cancel, Refresh, Reset, Insert;
    match a
    case AddTimer(id, ms, cb, recurring, now) => AddEffect(s, id, Timer(recurring, ms, Plus(now, ms), cb));
    case CancelTimer(id) => CancelEffect(s, id);
    case RefreshTimer(id, now) => RefreshEffect(s, id, now);
    case ResetTimer(id, ms, fromNow, now) => ResetEffect(s, id, ms, fromNow, now);
    case GetNextTimer(_) =>
    case ListExpiredCb(now, probe) => TakeEffect(s, Due(s, now, probe), now);
  }

  ghost predicate IsRun(s: Manager, acts: seq<Action>)
    requires Inv(s)
    decreases acts
  {
    acts == [] || (Enabled(s, acts[0]) && (NextKeepsInv(s, acts[0]); IsRun(Next(s, acts[0]), acts[1..])))
  }

  ghost function Exec(s: Manager, acts: seq<Action>): (s': Manager)
    requires Inv(s) && IsRun(s, acts)
    ensures Inv(s')
    decreases acts
  {
    if acts == [] then s else NextKeepsInv(s, acts[0]); Exec(Next(s, acts[0]), acts[1..])
  }

  /** All callbacks handed out in a run, as the timers they belong to. */
  ghost function Firings(s: Manager, acts: seq<Action>): seq<nat>
    requires Inv(s) && IsRun(s, acts)
    decreases acts
  {
    if acts == [] then [] else
    NextKeepsInv(s, acts[0]); Fired(s, acts[0]) + Firings(Next(s, acts[0]), acts[1..])
  }

  /** What the operation appends to the caller's vector: each callback with the
      timer it belongs to. */
  ghost function Handed(s: Manager, a: Action): seq<(nat, Option<nat>)>
    requires Inv(s) && Enabled(s, a)
  {
    var fired := Fired(s, a);
    seq(|fired|, i requires 0 <= i < |fired| => (fired[i], s.timers[fired[i]].cb))
  }

  lemma HandedOne(s: Manager, now: nat, probe: nat)
    requires Inv(s) && now < U64
    ensures var h := Handed(s, ListExpiredCb(now, probe));
      |h| == Due(s, now, probe) && forall i | 0 <= i < |h| :: h[i] == (s.queue[i], s.timers[s.queue[i]].cb)
  {
    hide Due;
  }

  ghost function AllHanded(s: Manager, acts: seq<Action>): seq<(nat, Option<nat>)>
    requires Inv(s) && IsRun(s, acts)
    decreases acts
  {
    if acts == [] then [] else
    NextKeepsInv(s, acts[0]); Handed(s, acts[0]) + AllHanded(Next(s, acts[0]), acts[1..])
  }

  // ---------- Cancelled and one-shot timers ----------

  lemma StepKeepsRetired(s: Manager, a: Action, id: nat)
    requires Inv(s) && Enabled(s, a) && Retired(s, id)
    ensures Inv(Next(s, a)) && Retired(Next(s, a), id) && id !in Fired(s, a)
  {
    NextKeepsInv(s, a);
    hide Add, Cancel, Refresh, Reset, Insert;
    match a
    case AddTimer(i, ms, cb, recurring, now) => AddEffect(s, i, Timer(recurring, ms, Plus(now, ms), cb));
    case CancelTimer(i) => CancelEffect(s, i);
    case RefreshTimer(i, now) => RefreshEffect(s, i, now);
    case ResetTimer(i, ms, fromNow, now) => ResetEffect(s, i, ms, fromNow, now);
    case GetNextTimer(_) =>
    case ListExpiredCb(now, probe) => TakeEffect(s, Due(s, now, probe), now);
  }

  /** Once retired, a timer never fires again, whatever is done to it. */
  lemma {:induction false} RetiredForever(s: Manager, acts: seq<Action>, id: nat)
    requires Inv(s) && IsRun(s, acts) && Retired(s, id)
    ensures Retired(Exec(s, acts), id) && id !in Firings(s, acts)
    decreases acts
  {
    if acts != [] {
      StepKeepsRetired(s, acts[0], id);
      hide Fired, Next, Inv, Enabled, Retired;
      RetiredForever(Next(s, acts[0]), acts[1..], id);
    }
  }

  /** A cancel that reports success is final. */
  lemma CancelIsFinal(s: Manager, id: nat, acts: seq<Action>)
    requires Inv(s) && id in s.timers && Cancel(s, id).1
    ensures Inv(Cancel(s, id).0)
    ensures IsRun(Cancel(s, id).0, acts) ==> id !in Firings(Cancel(s, id).0, acts)
  {
    CancelEffect(s, id);
    if IsRun(Cancel(s, id).0, acts) {
      RetiredForever(Cancel(s, id).0, acts, id);
    }
  }

  ghost function Count(q: seq<nat>, id: nat): nat {
    multiset(q)[id]
  }

  lemma CountDistinct(f: seq<nat>, id: nat)
    requires forall i, j | 0 <= i < j < |f| :: f[i] != f[j]
    ensures Count(f, id) <= 1
  {
    if id in f {
      var i :| 0 <= i < |f| && f[i] == id;
      assert f == f[..i] + [id] + f[i + 1..];
      assert id !in f[..i] && id !in f[i + 1..];
    }
  }

  lemma FiredOnce(s: Manager, a: Action, id: nat)
    requires Inv(s) && Enabled(s, a)
    ensures Count(Fired(s, a), id) <= 1
  {
    hide Due, Count;
    CountDistinct(Fired(s, a), id);
  }

  lemma StepKeepsKind(s: Manager, a: Action, id: nat)
    requires Inv(s) && Enabled(s, a) && id in s.timers
    ensures id in Next(s, a).timers && Next(s, a).timers[id].recurring == s.timers[id].recurring
    ensures id in Fired(s, a) && !s.timers[id].recurring ==> Retired(Next(s, a), id)
  {
    if a.ListExpiredCb? {
      TakeEffect(s, Due(s, a.now, a.probe), a.now);
    }
    hide Insert, Erase, Found, LowerBound, Due;
  }

  /** Over any run a one-shot timer fires at most once. */
  lemma {:induction false} OneShotFiresOnce(s: Manager, acts: seq<Action>, id: nat)
    requires Inv(s) && IsRun(s, acts) && id in s.timers && !s.timers[id].recurring
    ensures Count(Firings(s, acts), id) <= 1
    decreases acts
  {
    if acts != [] {
      var s' := Next(s, acts[0]);
      FiredOnce(s, acts[0], id);
      NextKeepsInv(s, acts[0]);
      StepKeepsKind(s, acts[0], id);
      if id in Fired(s, acts[0]) {
        RetiredForever(s', acts[1..], id);
      } else {
        OneShotFiresOnce(s', acts[1..], id);
      }
    }
  }

  // ---------- The callbacks handed out ----------

  /** The timer still has the callback it had, or can never fire again. */
  ghost predicate Keeps(s: Manager, id: nat, cb: Option<nat>) {
    id in s.timers && (s.timers[id].cb == cb || Retired(s, id))
  }

  lemma StepKeepsCallback(s: Manager, a: Action, id: nat, cb: Option<nat>)
    requires Inv(s) && Enabled(s, a) && Keeps(s, id, cb)
    ensures Inv(Next(s, a)) && Keeps(Next(s, a), id, cb)
    ensures forall p | p in Handed(s, a) && p.0 == id :: p.1 == cb
  {
    NextKeepsInv(s, a);
    HandedFrom(s, a);
    if Retired(s, id) {
      StepKeepsRetired(s, a, id);
    } else {
      StepKeepsOwnCallback(s, a, id);
    }
    hide Next, Handed, Fired, Inv, Enabled, Retired;
  }

  lemma HandedFrom(s: Manager, a: Action)
    requires Inv(s) && Enabled(s, a)
    ensures forall p | p in Handed(s, a) :: p.0 in Fired(s, a) && p.0 in s.queue && p.1 == s.timers[p.0].cb
  {
    hide Due;
  }

  lemma ListExpiredKeepsCallback(s: Manager, now: nat, probe: nat, id: nat)
    requires Inv(s) && now < U64 && id in s.timers && Inv(ListExpired(s, now, probe))
    ensures Keeps(ListExpired(s, now, probe), id, s.timers[id].cb)
  {
    TakeEffect(s, Due(s, now, probe), now);
    hide Due, Sorted, Plus;
  }

  lemma CancelKeepsCallback(s: Manager, i: nat, id: nat)
    requires Inv(s) && i in s.timers && id in s.timers
    ensures Keeps(Cancel(s, i).0, id, s.timers[id].cb)
  {
    CancelEffect(s, i);
    hide Cancel, Sorted;
  }

  lemma ChangeKeepsCallback(s: Manager, a: Action, id: nat)
    requires Inv(s) && Enabled(s, a) && id in s.timers && (a.AddTimer? || a.RefreshTimer? || a.ResetTimer? || a.GetNextTimer?)
    ensures id in Next(s, a).timers && Next(s, a).timers[id].cb == s.timers[id].cb
  {
    hide Add, Refresh, Reset, Sorted;
    match a
    case AddTimer(i, ms, cb, recurring, now) => AddEffect(s, i, Timer(recurring, ms, Plus(now, ms), cb));
    case RefreshTimer(i, now) => RefreshEffect(s, i, now);
    case ResetTimer(i, ms, fromNow, now) => ResetEffect(s, i, ms, fromNow, now);
    case GetNextTimer(_) =>
  }

  lemma StepKeepsOwnCallback(s: Manager, a: Action, id: nat)
    requires Inv(s) && Enabled(s, a) && id in s.timers
    ensures Inv(Next(s, a)) && Keeps(Next(s, a), id, s.timers[id].cb)
  {
    NextKeepsInv(s, a);
    if a.CancelTimer? {
      CancelKeepsCallback(s, a.id, id);
    } else if a.ListExpiredCb? {
      ListExpiredKeepsCallback(s, a.now, a.probe, id);
    } else {
      ChangeKeepsCallback(s, a, id);
    }
    hide Cancel, ListExpired, Inv;
  }

  /** Whatever is done, the callbacks handed out for a timer are the callback it has
      now: a callback is never lost, exchanged or nulled on its way out. */
  lemma {:induction false} HandedIsItsOwn(s: Manager, acts: seq<Action>, id: nat, cb: Option<nat>)
    requires Inv(s) && IsRun(s, acts) && Keeps(s, id, cb)
    ensures forall p | p in AllHanded(s, acts) && p.0 == id :: p.1 == cb
    decreases acts
  {
    if acts != [] {
      StepKeepsCallback(s, acts[0], id, cb);
      hide Next, Handed, Inv, Enabled, Keeps;
      HandedIsItsOwn(Next(s, acts[0]), acts[1..], id, cb);
    }
  }

  /** How often timer id is among the pairs. */
  ghost function CountOf(pairs: seq<(nat, Option<nat>)>, id: nat): nat {
    if pairs == [] then 0 else (if pairs[0].0 == id then 1 else 0) + CountOf(pairs[1..], id)
  }

  lemma {:induction false} CountOfSum(p: seq<(nat, Option<nat>)>, q: seq<(nat, Option<nat>)>, id: nat)
    ensures CountOf(p + q, id) == CountOf(p, id) + CountOf(q, id)
  {
    if p == [] {
      assert p + q == q;
    } else {
      assert (p + q)[1..] == p[1..] + q;
      CountOfSum(p[1..], q, id);
    }
  }

  lemma {:induction false} CountOfDistinct(p: seq<(nat, Option<nat>)>, id: nat)
    requires forall i, j | 0 <= i < j < |p| :: p[i].0 != p[j].0
    ensures CountOf(p, id) <= 1
    ensures CountOf(p, id) == 0 <==> forall i | 0 <= i < |p| :: p[i].0 != id
  {
    if p != [] {
      assert forall i | 0 <= i < |p| - 1 :: p[1..][i] == p[i + 1];
      CountOfDistinct(p[1..], id);
      if p[0].0 != id && exists i :: 0 <= i < |p| && p[i].0 == id {
        var i :| 0 <= i < |p| && p[i].0 == id;
        assert p[1..][i - 1].0 == id;
      }
    }
  }

  lemma HandedDistinct(s: Manager, a: Action)
    requires Inv(s) && Enabled(s, a)
    ensures forall i, j | 0 <= i < j < |Handed(s, a)| :: Handed(s, a)[i].0 != Handed(s, a)[j].0
  {
    hide Due;
    if a.ListExpiredCb? {
      forall i, j | 0 <= i < j < |s.queue|
        ensures s.queue[i] != s.queue[j]
      {
        Distinct(s.timers, s.queue, i, j);
      }
    }
  }

  lemma {:induction false} RetiredHandsNothing(s: Manager, acts: seq<Action>, id: nat)
    requires Inv(s) && IsRun(s, acts) && Retired(s, id)
    ensures CountOf(AllHanded(s, acts), id) == 0
    decreases acts
  {
    if acts != [] {
      StepKeepsRetired(s, acts[0], id);
      HandedDistinct(s, acts[0]);
      HandedFrom(s, acts[0]);
      CountOfDistinct(Handed(s, acts[0]), id);
      hide Next, Handed, Inv, Enabled, Retired, Fired;
      RetiredHandsNothing(Next(s, acts[0]), acts[1..], id);
      CountOfSum(Handed(s, acts[0]), AllHanded(Next(s, acts[0]), acts[1..]), id);
    }
  }

  /** The callback of a one-shot timer is handed out at most once, and it is that
      callback; that of a timer cancelled with success never. */
  lemma {:induction false} OneShotHandedOnce(s: Manager, acts: seq<Action>, id: nat)
    requires Inv(s) && IsRun(s, acts) && id in s.timers && !s.timers[id].recurring
    ensures CountOf(AllHanded(s, acts), id) <= 1
    ensures forall p | p in AllHanded(s, acts) && p.0 == id :: p.1 == s.timers[id].cb
    decreases acts
  {
    HandedIsItsOwn(s, acts, id, s.timers[id].cb);
    if acts != [] {
      var s' := Next(s, acts[0]);
      NextKeepsInv(s, acts[0]);
      StepKeepsKind(s, acts[0], id);
      HandedDistinct(s, acts[0]);
      HandedFrom(s, acts[0]);
      CountOfDistinct(Handed(s, acts[0]), id);
      hide Next, Handed, Inv, Enabled, Retired, Fired;
      if id in Fired(s, acts[0]) {
        RetiredHandsNothing(s', acts[1..], id);
      } else {
        OneShotHandedOnce(s', acts[1..], id);
      }
      CountOfSum(Handed(s, acts[0]), AllHanded(s', acts[1..]), id);
    }
  }

  lemma CancelledHandsNothing(s: Manager, id: nat, acts: seq<Action>)
    requires Inv(s) && id in s.timers && Cancel(s, id).1
    ensures Inv(Cancel(s, id).0)
    ensures IsRun(Cancel(s, id).0, acts) ==> CountOf(AllHanded(Cancel(s, id).0, acts), id) == 0
  {
    CancelEffect(s, id);
    if IsRun(Cancel(s, id).0, acts) {
      RetiredHandsNothing(Cancel(s, id).0, acts, id);
    }
  }

  /** Every callback handed out is a real one, unless a timer was added without. */
  ghost predicate Armed(s: Manager) {
    forall id | id in s.queue && id in s.timers :: s.timers[id].cb.Some?
  }

  lemma StepKeepsArmed(s: Manager, a: Action)
    requires Inv(s) && Enabled(s, a) && Armed(s) && (a.AddTimer? ==> a.cb.Some?)
    ensures Inv(Next(s, a)) && Armed(Next(s, a))
    ensures forall p | p in Handed(s, a) :: p.1.Some?
  {
    NextKeepsInv(s, a);
    HandedFrom(s, a);
    hide Add, Cancel, Refresh, Reset, Insert, Handed, Fired;
    match a
    case AddTimer(i, ms, cb, recurring, now) => AddEffect(s, i, Timer(recurring, ms, Plus(now, ms), cb));
    case CancelTimer(i) => CancelEffect(s, i);
    case RefreshTimer(i, now) => RefreshEffect(s, i, now);
    case ResetTimer(i, ms, fromNow, now) => ResetEffect(s, i, ms, fromNow, now);
    case GetNextTimer(_) =>
    case ListExpiredCb(now, probe) => TakeEffect(s, Due(s, now, probe), now);
  }

  lemma {:induction false} NoNullHanded(s: Manager, acts: seq<Action>)
    requires Inv(s) && IsRun(s, acts) && Armed(s) && forall a | a in acts && a.AddTimer? :: a.cb.Some?
    ensures forall p | p in AllHanded(s, acts) :: p.1.Some?
    decreases acts
  {
    if acts != [] {
      assert acts[0].AddTimer? ==> acts[0].cb.Some?;
      StepKeepsArmed(s, acts[0]);
      hide Next, Handed, Inv, Enabled, Armed;
      NoNullHanded(Next(s, acts[0]), acts[1..]);
    }
  }

  // ---------- No earlier deadline goes unannounced ----------

  /** What the last getNextTimer told its caller. */
  datatype Report = NothingAsked | Earliest(deadline: nat)

  /** Either the flag is up, or nothing queued is due before what was reported. */
  ghost predicate Promise(s: Manager, r: Report)
    requires Inv(s)
  {
    s.tickled ||
    match r
    case NothingAsked => true
    case Earliest(d) => forall id | id in s.queue :: s.timers[id].next >= d
  }

  /** Every queued timer was started at or before `clock`. */
  ghost predicate Started(s: Manager, clock: nat)
    requires Inv(s)
  {
    forall id | id in s.queue :: s.timers[id].ms <= s.timers[id].next <= clock + s.timers[id].ms
  }

  /** The clock reads `clock` when the operation runs.  refresh, reset and getNextTimer
      read it under the lock; addTimer and listExpiredCb may have read it earlier.
      No deadline overflows and no clock rollover is detected. */
  ghost predicate Timely(s: Manager, a: Action, clock: nat)
    requires Inv(s) && Enabled(s, a)
  {
    match a
    case AddTimer(_, ms, _, _, now) => now <= clock && now + ms < U64
    case CancelTimer(_) => true
    case RefreshTimer(id, now) => now == clock && now + s.timers[id].ms < U64
    case ResetTimer(id, ms, fromNow, now) =>
      now == clock && (if fromNow then now else s.timers[id].next) + ms < U64
    case GetNextTimer(now) => now == clock
    case ListExpiredCb(now, _) =>
      now <= clock && !Rollover(s, now) && forall id | id in s.queue :: now + s.timers[id].ms < U64
  }

  /** What the caller of getNextTimer knows from the value w that it returned at
      time now: nothing before now + w; when w is 0, nothing before the timer that
      is due. */
  ghost function Reported(s: Manager, a: Action, r: Report): Report
    requires Inv(s)
  {
    match a
    case GetNextTimer(now) =>
      var w := GetNext(s, now).1;
      if w == 0 then Earliest(s.timers[s.queue[0]].next) else Earliest(now + w)
    case _ => r
  }

  lemma ReportedHolds(s: Manager, now: nat, r: Report)
    requires Inv(s)
    ensures Inv(GetNext(s, now).0) && Promise(GetNext(s, now).0, Reported(s, GetNextTimer(now), r))
  {
    GetNextExact(s, now);
    FirstIsEarliest(s.timers, s.queue);
  }

  lemma RefreshKeepsPromise(s: Manager, id: nat, clock: nat, r: Report)
    requires Inv(s) && id in s.timers && clock + s.timers[id].ms < U64
    requires Started(s, clock) && Promise(s, r)
    ensures Inv(Refresh(s, id, clock).0)
    ensures Started(Refresh(s, id, clock).0, clock) && Promise(Refresh(s, id, clock).0, r)
  {
    PlusExact(clock, s.timers[id].ms);
    hide Refresh, Sorted, Plus;
    RefreshEffect(s, id, clock);
  }

  lemma ResetKeepsPromise(s: Manager, id: nat, ms: nat, fromNow: bool, clock: nat, r: Report)
    requires Inv(s) && id in s.timers && ms < U64
    requires (if fromNow then clock else s.timers[id].next) + ms < U64
    requires Started(s, clock) && Promise(s, r)
    ensures Inv(Reset(s, id, ms, fromNow, clock).0)
    ensures Started(Reset(s, id, ms, fromNow, clock).0, clock) && Promise(Reset(s, id, ms, fromNow, clock).0, r)
  {
    var t := s.timers[id];
    hide Reset, Sorted, Plus, Minus;
    ResetEffect(s, id, ms, fromNow, clock);
    if Reset(s, id, ms, fromNow, clock).0 != s {
      var start := ResetStart(t, fromNow, clock);
      MinusExact(t.next, t.ms);
      PlusExact(start, ms);
    }
  }

  lemma AddKeepsPromise(s: Manager, id: nat, t: Timer, clock: nat, r: Report)
    requires Inv(s) && id !in s.timers && t.ms <= t.next <= clock + t.ms && t.next < U64
    requires Started(s, clock) && Promise(s, r)
    ensures Inv(Add(s, id, t)) && Started(Add(s, id, t), clock) && Promise(Add(s, id, t), r)
  {
    AddEffect(s, id, t);
    hide Add, Sorted;
  }

  lemma ListExpiredKeepsPromise(s: Manager, now: nat, probe: nat, clock: nat, r: Report)
    requires Inv(s) && now <= clock && now < U64 && !Rollover(s, now)
    requires forall id | id in s.queue :: now + s.timers[id].ms < U64
    requires Started(s, clock) && Promise(s, r)
    ensures Inv(ListExpired(s, now, probe))
    ensures Started(ListExpired(s, now, probe), clock) && Promise(ListExpired(s, now, probe), r)
  {
    NextKeepsInv(s, ListExpiredCb(now, probe));
    ListExpiredExact(s, now, probe);
    assert ListExpired(s, now, probe).tickled == s.tickled;
    hide ListExpired, Due, Rearm, Sorted, Plus, Rollover;
    forall id | id in s.queue
      ensures Plus(now, s.timers[id].ms) == now + s.timers[id].ms
    {
      PlusExact(now, s.timers[id].ms);
    }
  }

  lemma StepKeepsPromise(s: Manager, a: Action, clock: nat, r: Report)
    requires Inv(s) && Enabled(s, a) && Timely(s, a, clock)
    requires Started(s, clock) && Promise(s, r)
    ensures Inv(Next(s, a)) && Started(Next(s, a), clock) && Promise(Next(s, a), Reported(s, a, r))
  {
    if a.GetNextTimer? {
      ReportedHolds(s, a.now, r);
    }
    NextKeepsInv(s, a);
    hide Add, Cancel, Refresh, Reset, Insert, ListExpired, Plus, Rollover;
    match a
    case AddTimer(id, ms, cb, recurring, now) =>
      PlusExact(now, ms);
      AddKeepsPromise(s, id, Timer(recurring, ms, Plus(now, ms), cb), clock, r);
    case CancelTimer(id) => CancelEffect(s, id);
    case RefreshTimer(id, now) => RefreshKeepsPromise(s, id, clock, r);
    case ResetTimer(id, ms, fromNow, now) => ResetKeepsPromise(s, id, ms, fromNow, clock, r);
    case GetNextTimer(_) =>
    case ListExpiredCb(now, probe) => ListExpiredKeepsPromise(s, now, probe, clock, r);
  }

  /** Every operation of the run is timely, and the clock never goes back. */
  ghost predicate AllTimely(s: Manager, acts: seq<Action>, clock: nat, clocks: seq<nat>)
    requires Inv(s) && IsRun(s, acts) && |clocks| == |acts|
    decreases acts
  {
    acts == [] ||
    (&& clock <= clocks[0] && Timely(s, acts[0], clocks[0])
     && (NextKeepsInv(s, acts[0]); AllTimely(Next(s, acts[0]), acts[1..], clocks[0], clocks[1..])))
  }

  ghost function LastReport(s: Manager, acts: seq<Action>, r: Report): Report
    requires Inv(s) && IsRun(s, acts)
    decreases acts
  {
    if acts == [] then r else
    NextKeepsInv(s, acts[0]); LastReport(Next(s, acts[0]), acts[1..], Reported(s, acts[0], r))
  }

  /** In every reachable state the flag is up or nothing queued is due before the
      deadline that the last getNextTimer reported. */
  lemma {:induction false} NoMissedDeadline(s: Manager, acts: seq<Action>, clock: nat, clocks: seq<nat>, r: Report)
    requires Inv(s) && IsRun(s, acts) && |clocks| == |acts| && AllTimely(s, acts, clock, clocks)
    requires Started(s, clock) && Promise(s, r)
    ensures Promise(Exec(s, acts), LastReport(s, acts, r))
    decreases acts
  {
    if acts != [] {
      var a, s' := acts[0], Next(s, acts[0]);
      assert Started(s, clocks[0]);
      StepKeepsPromise(s, a, clocks[0], r);
      hide Inv, Next, Enabled, Timely, Started, Promise, Reported;
      NoMissedDeadline(s', acts[1..], clocks[0], clocks[1..], Reported(s, a, r));
    }
  }

  /** The manager that the constructor leaves. */
  function Constructed(last: nat): Manager {
    Manager(map[], [], false, last)
  }

  lemma FreshManager(last: nat, clock: nat)
    requires last < U64
    ensures Inv(Constructed(last))
    ensures Started(Constructed(last), clock) && Promise(Constructed(last), NothingAsked)
  {
  }

  /** From construction on, with a clock that never goes back, no overflow and no
      rollover: no reachable state hides a deadline from the last caller of getNextTimer. */
  lemma ReachableStatesMissNothing(last: nat, acts: seq<Action>, clock: nat, clocks: seq<nat>)
    requires last < U64 && Inv(Constructed(last)) && IsRun(Constructed(last), acts) && |clocks| == |acts|
    requires AllTimely(Constructed(last), acts, clock, clocks)
    ensures Promise(Exec(Constructed(last), acts), LastReport(Constructed(last), acts, NothingAsked))
  {
    FreshManager(last, clock);
    NoMissedDeadline(Constructed(last), acts, clock, clocks, NothingAsked);
  }

  /** The caller that was told to wait w at time now: as long as it does not ask
      again, either the flag goes up or no timer is due before now + w. */
  lemma CallerSleepsSafely(s: Manager, now: nat, acts: seq<Action>, clocks: seq<nat>)
    requires Inv(s) && Started(s, now) && Inv(GetNext(s, now).0) && GetNext(s, now).1 > 0
    requires IsRun(GetNext(s, now).0, acts) && |clocks| == |acts| && forall a | a in acts :: !a.GetNextTimer?
    requires AllTimely(GetNext(s, now).0, acts, now, clocks)
    ensures var end := Exec(GetNext(s, now).0, acts);
            end.tickled || forall id | id in end.queue :: end.timers[id].next >= now + GetNext(s, now).1
  {
    var s', r := GetNext(s, now).0, Earliest(now + GetNext(s, now).1);
    ReportedHolds(s, now, NothingAsked);
    NoMissedDeadline(s', acts, now, clocks, r);
    ReportStays(s', acts, r);
  }

  lemma {:induction false} ReportStays(s: Manager, acts: seq<Action>, r: Report)
    requires Inv(s) && IsRun(s, acts) && forall a | a in acts :: !a.GetNextTimer?
    ensures LastReport(s, acts, r) == r
    decreases acts
  {
    if acts != [] {
      NextKeepsInv(s, acts[0]);
      assert !acts[0].GetNextTimer?;
      hide Inv, Next, Enabled;
      ReportStays(Next(s, acts[0]), acts[1..], r);
    }
  }

  // ---------- Exactly when the promise holds, whatever the clock does ----------

  /** refresh and listExpiredCb put timers into the set without the front check; they
      keep a reported deadline true when no new deadline is before it. The other
      operations always do. */
  ghost predicate KeepsReport(s: Manager, a: Action, r: Report)
    requires Inv(s) && Enabled(s, a)
  {
    s.tickled || !r.Earliest? ||
    match a
    case RefreshTimer(id, now) => s.timers[id].cb.None? || Plus(now, s.timers[id].ms) >= r.deadline
    case ListExpiredCb(now, probe) =>
      forall x | x in s.queue[..Due(s, now, probe)] && s.timers[x].recurring :: Plus(now, s.timers[x].ms) >= r.deadline
    case _ => true
  }

  lemma RefreshKeepsExactly(s: Manager, id: nat, now: nat, r: Report)
    requires Inv(s) && id in s.timers && Promise(s, r)
    ensures Inv(Refresh(s, id, now).0)
    ensures Promise(Refresh(s, id, now).0, r) <==> KeepsReport(s, RefreshTimer(id, now), r)
  {
    hide Refresh, Plus, Sorted;
    RefreshEffect(s, id, now);
  }

  lemma ListExpiredKeepsExactly(s: Manager, now: nat, probe: nat, r: Report)
    requires Inv(s) && now < U64 && Promise(s, r)
    ensures Inv(ListExpired(s, now, probe)) && ListExpired(s, now, probe).tickled == s.tickled
    ensures Promise(ListExpired(s, now, probe), r) <==> KeepsReport(s, ListExpiredCb(now, probe), r)
  {
    NextKeepsInv(s, ListExpiredCb(now, probe));
    TakeEffect(s, Due(s, now, probe), now);
    var s' := ListExpired(s, now, probe);
    var expired := s.queue[..Due(s, now, probe)];
    assert forall x | x in s.timers :: s'.timers[x] == if x in expired then Collected(s.timers[x], now) else s.timers[x];
    assert forall x | x in expired :: x in s.queue;
    assert forall x :: x in s'.queue <==> x in s.queue && (x in expired ==> s.timers[x].recurring);
    hide ListExpired, Due, Sorted, Plus;
  }

  /** For every operation, with any clock reading, overflow and rollover included:
      what getNextTimer last reported stays true exactly under that condition. */
  lemma StepPromiseExact(s: Manager, a: Action, r: Report)
    requires Inv(s) && Enabled(s, a) && Promise(s, r)
    ensures Inv(Next(s, a))
    ensures Promise(Next(s, a), Reported(s, a, r)) <==> KeepsReport(s, a, r)
  {
    NextKeepsInv(s, a);
    match a
    case AddTimer(id, ms, cb, recurring, now) =>
      AddEffect(s, id, Timer(recurring, ms, Plus(now, ms), cb));
      hide Add, Sorted, Plus;
    case CancelTimer(id) =>
      CancelEffect(s, id);
      hide Cancel, Sorted;
    case RefreshTimer(id, now) => RefreshKeepsExactly(s, id, now, r);
    case ResetTimer(id, ms, fromNow, now) =>
      ResetEffect(s, id, ms, fromNow, now);
      hide Reset, Sorted, Plus;
    case GetNextTimer(now) => ReportedHolds(s, now, r);
    case ListExpiredCb(now, probe) => ListExpiredKeepsExactly(s, now, probe, r);
  }

  /** The promise holds after the first n operations. */
  ghost predicate PromisedAt(s: Manager, acts: seq<Action>, r: Report, n: nat)
    requires Inv(s) && n <= |acts|
  {
    IsRun(s, acts[..n]) && Promise(Exec(s, acts[..n]), LastReport(s, acts[..n], r))
  }

  ghost predicate AllKeepReport(s: Manager, acts: seq<Action>, r: Report)
    requires Inv(s) && IsRun(s, acts)
    decreases acts
  {
    acts == [] ||
    (&& KeepsReport(s, acts[0], r)
     && (NextKeepsInv(s, acts[0]); AllKeepReport(Next(s, acts[0]), acts[1..], Reported(s, acts[0], r))))
  }

  lemma PromisedLater(s: Manager, acts: seq<Action>, r: Report, n: nat)
    requires Inv(s) && acts != [] && Enabled(s, acts[0]) && n < |acts|
    ensures Inv(Next(s, acts[0]))
    ensures PromisedAt(s, acts, r, n + 1) <==> PromisedAt(Next(s, acts[0]), acts[1..], Reported(s, acts[0], r), n)
  {
    NextKeepsInv(s, acts[0]);
    var p := acts[..n + 1];
    assert p[0] == acts[0] && p[1..] == acts[1..][..n];
    hide Next, Inv, Enabled, Promise, Reported;
  }

  /** Over whole runs with any clock: the promise holds after every operation if and
      only if every step meets its condition. */
  lemma {:induction false} PromiseExactlyWhenStepsKeep(s: Manager, acts: seq<Action>, r: Report)
    requires Inv(s) && IsRun(s, acts) && Promise(s, r)
    ensures (forall n: nat | n <= |acts| :: PromisedAt(s, acts, r, n)) <==> AllKeepReport(s, acts, r)
    decreases acts
  {
    assert acts[..0] == [] && PromisedAt(s, acts, r, 0);
    if acts != [] {
      var a, s', rest := acts[0], Next(s, acts[0]), acts[1..];
      var r' := Reported(s, a, r);
      StepPromiseExact(s, a, r);
      forall n: nat | n < |acts|
        ensures PromisedAt(s, acts, r, n + 1) <==> PromisedAt(s', rest, r', n)
      {
        PromisedLater(s, acts, r, n);
      }
      assert rest[..0] == [];
      assert PromisedAt(s', rest, r', 0) <==> KeepsReport(s, a, r);
      hide Next, Inv, Enabled, Promise, Reported, KeepsReport, PromisedAt;
      if Promise(s', r') {
        PromiseExactlyWhenStepsKeep(s', rest, r');
      }
      AllPromisedShift(s, acts, r, s', rest, r');
    }
  }

  lemma AllPromisedShift(s: Manager, acts: seq<Action>, r: Report, s': Manager, rest: seq<Action>, r': Report)
    requires Inv(s) && Inv(s') && |acts| == |rest| + 1 && PromisedAt(s, acts, r, 0)
    requires forall n: nat | n < |acts| :: PromisedAt(s, acts, r, n + 1) <==> PromisedAt(s', rest, r', n)
    ensures (forall n: nat | n <= |acts| :: PromisedAt(s, acts, r, n))
       <==> (forall n: nat | n <= |rest| :: PromisedAt(s', rest, r', n))
  {
    hide PromisedAt, Inv;
    if forall n: nat | n <= |acts| :: PromisedAt(s, acts, r, n) {
      forall n: nat | n <= |rest|
        ensures PromisedAt(s', rest, r', n)
      {
        assert PromisedAt(s, acts, r, n + 1);
      }
    }
    if forall n: nat | n <= |rest| :: PromisedAt(s', rest, r', n) {
      forall n: nat | n <= |acts|
        ensures PromisedAt(s, acts, r, n)
      {
        if n > 0 {
          assert PromisedAt(s', rest, r', n - 1);
          assert PromisedAt(s, acts, r, (n - 1) + 1);
        }
      }
    }
  }

  /** The same from construction on. */
  lemma ReachablePromiseExact(last: nat, acts: seq<Action>)
    requires last < U64 && Inv(Constructed(last)) && IsRun(Constructed(last), acts)
    ensures (forall n: nat | n <= |acts| :: PromisedAt(Constructed(last), acts, NothingAsked, n))
       <==> AllKeepReport(Constructed(last), acts, NothingAsked)
  {
    FreshManager(last, 0);
    PromiseExactlyWhenStepsKeep(Constructed(last), acts, NothingAsked);
  }

  /** What refresh can break: with a clock that may have been set back it keeps the
      report true exactly when the new deadline is not before the one reported. */
  lemma RefreshExact(s: Manager, id: nat, now: nat, d: nat)
    requires Inv(s) && id in s.timers && s.timers[id].cb.Some? && !s.tickled && Promise(s, Earliest(d))
    ensures Inv(Refresh(s, id, now).0)
    ensures Promise(Refresh(s, id, now).0, Earliest(d)) <==> Plus(now, s.timers[id].ms) >= d
  {
    hide Refresh, Plus, Sorted;
    RefreshKeepsExactly(s, id, now, Earliest(d));
  }

  // ---------- Runs that break the promise ----------

  lemma RunCons(s: Manager, a: Action, rest: seq<Action>, r: Report)
    requires Inv(s) && Enabled(s, a) && Inv(Next(s, a)) && IsRun(Next(s, a), rest)
    ensures IsRun(s, [a] + rest) && Exec(s, [a] + rest) == Exec(Next(s, a), rest)
    ensures LastReport(s, [a] + rest, r) == LastReport(Next(s, a), rest, Reported(s, a, r))
  {
    assert ([a] + rest)[1..] == rest;
  }

  function OnlyTimer(t: Timer, last: nat): Manager {
    Manager(map[7 := t], [7], false, last)
  }

  /** A timer of 50 ms, added and reported at once. */
  function AddAndAsk(recurring: bool, now: nat): seq<Action> {
    [AddTimer(7, 50, Some(0), recurring, now)] + [GetNextTimer(now)]
  }

  /** A manager with one timer is reached from construction, and has reported it. */
  lemma OneTimerReported(recurring: bool, now: nat, a: Action)
    requires now + 50 < U64
    ensures var s := OnlyTimer(Timer(recurring, 50, now + 50, Some(0)), now);
      && Inv(s) && Inv(Constructed(now))
      && (Enabled(s, a) ==>
            && IsRun(Constructed(now), AddAndAsk(recurring, now) + [a])
            && Exec(Constructed(now), AddAndAsk(recurring, now) + [a]) == Next(s, a)
            && LastReport(Constructed(now), AddAndAsk(recurring, now) + [a], NothingAsked)
            == Reported(s, a, Earliest(now + 50)))
  {
    var s0, t := Constructed(now), Timer(recurring, 50, now + 50, Some(0));
    var s2 := OnlyTimer(t, now);
    var s1 := s2.(tickled := true);
    var add, ask := AddTimer(7, 50, Some(0), recurring, now), GetNextTimer(now);
    PlusExact(now, 50);
    assert 7 in s2.queue;
    assert Next(s0, add) == s1 && Next(s1, ask) == s2;
    assert Reported(s1, ask, NothingAsked) == Earliest(now + 50);
    if Enabled(s2, a) {
      NextKeepsInv(s2, a);
      hide Inv, Next, Enabled, Reported;
      assert [a] + [] == [a];
      RunCons(s2, a, [], Earliest(now + 50));
      RunCons(s1, ask, [a], NothingAsked);
      RunCons(s0, add, [ask] + [a], NothingAsked);
      assert AddAndAsk(recurring, now) + [a] == [add] + ([ask] + [a]);
    }
  }

  /** A clock set back does break it: a run from construction after which the caller
      still sleeps until 100 and the timer is due at 60. */
  lemma ClockSetBackHidesDeadline() returns (acts: seq<Action>)
    ensures Inv(Constructed(50)) && IsRun(Constructed(50), acts)
    ensures LastReport(Constructed(50), acts, NothingAsked) == Earliest(100)
    ensures var s := Exec(Constructed(50), acts);
            7 in s.queue && s.timers[7].next == 60 && !s.tickled && !Promise(s, Earliest(100))
  {
    var a, s := RefreshTimer(7, 10), OnlyTimer(Timer(false, 50, 100, Some(0)), 50);
    acts := AddAndAsk(false, 50) + [a];
    assert 7 in s.queue;
    OneTimerReported(false, 50, a);
    hide Exec, LastReport, IsRun, Sorted, Refresh, AddAndAsk;
    PlusExact(10, 50);
    RefreshEffect(s, 7, 10);
    RefreshExact(s, 7, 10, 100);
  }

  /** So does a rollover without any refresh: listExpiredCb re-arms a recurring timer
      before the deadline that was reported. */
  lemma RolloverHidesDeadline() returns (acts: seq<Action>)
    ensures Inv(Constructed(10_000_050)) && IsRun(Constructed(10_000_050), acts)
    ensures forall a | a in acts :: !a.RefreshTimer?
    ensures LastReport(Constructed(10_000_050), acts, NothingAsked) == Earliest(10_000_100)
    ensures var s := Exec(Constructed(10_000_050), acts);
            7 in s.queue && s.timers[7].next == 2_800_100 && !s.tickled && !Promise(s, Earliest(10_000_100))
  {
    var a := ListExpiredCb(2_800_050, 0);
    var s := OnlyTimer(Timer(true, 50, 10_000_100, Some(0)), 10_000_050);
    acts := AddAndAsk(true, 10_000_050) + [a];
    OneTimerReported(true, 10_000_050, a);
    RolloverExact(s, 2_800_050);
    PlusExact(2_800_050, 50);
    assert Due(s, 2_800_050, 0) == 1 && s.queue[..1] == [7];
    hide Exec, LastReport, IsRun, AddAndAsk;
    ListExpiredKeepsExactly(s, 2_800_050, 0, Earliest(10_000_100));
    TakeEffect(s, 1, 2_800_050);
  }

  // ---------- The front notification ----------

  /** onTimerInsertedAtFront is called: the timer landed first and the flag was down. */
  ghost predicate Notifies(s: Manager, a: Action)
    requires Inv(s) && Enabled(s, a)
  {
    match a
    case AddTimer(id, ms, cb, recurring, now) =>
      var m := s.timers[id := Timer(recurring, ms, Plus(now, ms), cb)];
      Insert(m, s.queue, id)[0] == id && !s.tickled
    case ResetTimer(id, ms, fromNow, now) =>
      var t := s.timers[id];
      var s1 := Retimed(s, id, ms, Plus(ResetStart(t, fromNow, now), ms));
      && (ms != t.ms || fromNow) && t.cb.Some? && Found(s.timers, s.queue, id)
      && Insert(s1.timers, s1.queue, id)[0] == id && !s.tickled
    case _ => false
  }

  ghost function Notifications(s: Manager, acts: seq<Action>): nat
    requires Inv(s) && IsRun(s, acts)
    decreases acts
  {
    if acts == [] then 0 else
    NextKeepsInv(s, acts[0]);
    (if Notifies(s, acts[0]) then 1 else 0) + Notifications(Next(s, acts[0]), acts[1..])
  }

  lemma NotifiesRaisesFlag(s: Manager, a: Action)
    requires Inv(s) && Enabled(s, a) && !a.GetNextTimer?
    ensures Inv(Next(s, a)) && (s.tickled ==> Next(s, a).tickled)
    ensures Notifies(s, a) <==> !s.tickled && Next(s, a).tickled
  {
    NextKeepsInv(s, a);
    hide Insert, Found, Erase, Plus, Rearm, Due;
  }

  lemma ResetNotifies(s: Manager, id: nat, ms: nat, fromNow: bool, now: nat)
    requires Inv(s) && id in s.timers && ms < U64
    ensures Enabled(s, ResetTimer(id, ms, fromNow, now))
    ensures Notifies(s, ResetTimer(id, ms, fromNow, now)) <==> !s.tickled && Reset(s, id, ms, fromNow, now).0.tickled
    ensures Inv(Reset(s, id, ms, fromNow, now).0)
  {
    NotifiesRaisesFlag(s, ResetTimer(id, ms, fromNow, now));
    hide Notifies, Reset, Inv;
  }

  lemma AddNotifies(s: Manager, id: nat, ms: nat, cb: Option<nat>, recurring: bool, now: nat)
    requires Inv(s) && id !in s.timers && ms < U64
    ensures Enabled(s, AddTimer(id, ms, cb, recurring, now))
    ensures Notifies(s, AddTimer(id, ms, cb, recurring, now))
       <==> !s.tickled && Add(s, id, Timer(recurring, ms, Plus(now, ms), cb)).tickled
    ensures Inv(Add(s, id, Timer(recurring, ms, Plus(now, ms), cb)))
  {
    NotifiesRaisesFlag(s, AddTimer(id, ms, cb, recurring, now));
    hide Notifies, Add, Inv;
  }

  /** Between two calls of getNextTimer the front is announced at most once. */
  lemma {:induction false} NotifiedAtMostOnce(s: Manager, acts: seq<Action>)
    requires Inv(s) && IsRun(s, acts) && forall a | a in acts :: !a.GetNextTimer?
    ensures Notifications(s, acts) <= 1
    ensures Notifications(s, acts) == 1 <==> !s.tickled && Exec(s, acts).tickled
    ensures s.tickled ==> Exec(s, acts).tickled
    decreases acts
  {
    if acts != [] {
      NotifiesRaisesFlag(s, acts[0]);
      hide Inv, Next, Enabled, Notifies;
      NotifiedAtMostOnce(Next(s, acts[0]), acts[1..]);
    }
  }
}
