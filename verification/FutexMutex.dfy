/** The futex mutex: a lock word that is 0, 1 or 257, exchanged byte-wide by `lock`
    and `try_lock` and word-wide by the contended path and by `unlock`, and the
    set of threads asleep in the kernel.  Every exchange and every futex call is
    one step; any number of threads take part. */
module FutexMutex {

  const LOCKED: nat := 1
  const CONTENDED: nat := 257

  /** Where a thread stands.  Threads missing from the state are Outside. */
  datatype Pc =
    | Outside
    | LockByte       // lock: about to exchange the low byte
    | TryByte        // try_lock: about to exchange the low byte
    | LockWord       // lock_contended: about to exchange the word
    | CallWait       // lock_contended: about to call futex_wait
    | Asleep         // inside futex_wait
    | Holding        // lock or try_lock has reported success
    | UnlockWord     // unlock: about to exchange the word
    | CallWake       // unlock: about to call futex_wake

  datatype State = State(word: nat, pcs: map<nat, Pc>)

  datatype Action =
    | Lock(t: nat)
    | TryLock(t: nat)
    | Unlock(t: nat)
    | Step(t: nat)                 // the next exchange, or futex_wait, of thread t
    | Wake(t: nat, chosen: nat)    // futex_wake of thread t; the kernel chooses
    | Spurious(t: nat)             // futex_wait returns 0 without a wake
    | Interrupt(t: nat)            // futex_wait fails with an error other than EWOULDBLOCK

  const Start := State(0, map[])

  function At(s: State, t: nat): Pc {
    if t in s.pcs then s.pcs[t] else Outside
  }

  predicate Sleeps(s: State, t: nat) {
    At(s, t).Asleep?
  }

  /** Threads that were told they have the lock and have not given it back. */
  predicate Owns(s: State, t: nat) {
    At(s, t).Holding? || At(s, t).UnlockWord?
  }

  ghost predicate Enabled(s: State, a: Action) {
    match a
    case Lock(t) => At(s, t).Outside?
    case TryLock(t) => At(s, t).Outside?
    case Unlock(t) => At(s, t).Holding?
    case Step(t) => At(s, t) in {LockByte, TryByte, LockWord, CallWait, UnlockWord}
    case Wake(t, c) => At(s, t).CallWake? && (Sleeps(s, c) || forall u :: !Sleeps(s, u))
    case Spurious(t) => Sleeps(s, t)
    case Interrupt(t) => Sleeps(s, t)
  }

  /** The word after its low byte is exchanged for 1. */
  function LowByteSet(word: nat): nat {
    word / 256 * 256 + 1
  }

  function Move(s: State, t: nat, pc: Pc): State {
    s.(pcs := s.pcs[t := pc])
  }

  function Advance(s: State, t: nat): State {
    match At(s, t)
    case LockByte =>
      Move(s, t, if s.word % 256 != 0 then LockWord else Holding).(word := LowByteSet(s.word))
    case TryByte =>
      Move(s, t, if s.word % 256 != 0 then Outside else Holding).(word := LowByteSet(s.word))
    case LockWord =>
      Move(s, t, if s.word % 2 == LOCKED then CallWait else Holding).(word := CONTENDED)
    case CallWait =>
      Move(s, t, if s.word == CONTENDED then Asleep else LockWord)
    case UnlockWord =>
      Move(s, t, if s.word != LOCKED then CallWake else Outside).(word := 0)
    case _ => s
  }

  function Next(s: State, a: Action): State {
    match a
    case Lock(t) => Move(s, t, LockByte)
    case TryLock(t) => Move(s, t, TryByte)
    case Unlock(t) => Move(s, t, UnlockWord)
    case Step(t) => Advance(s, t)
    case Wake(t, c) => Move(if Sleeps(s, c) then Move(s, c, LockWord) else s, t, Outside)
    case Spurious(t) => Move(s, t, LockWord)
    // lock ignores the error and returns as if it had acquired the lock
    case Interrupt(t) => Move(s, t, Holding)
  }

  // ---------- The invariant ----------

  ghost predicate MutualExclusion(s: State) {
    forall t, u :: Owns(s, t) && Owns(s, u) ==> t == u
  }

  /** The word says whether the lock is held. */
  ghost predicate WordOk(s: State) {
    && s.word in {0, LOCKED, CONTENDED}
    && (s.word != 0 <==> exists t :: Owns(s, t))
  }

  /** Someone awake is bound to put 257 in the word or to wake a sleeper. */
  predicate Covers(s: State, t: nat) {
    At(s, t).LockWord? || At(s, t).CallWake?
  }

  ghost predicate NoLostWakeUp(s: State) {
    (exists t :: Sleeps(s, t)) ==> s.word == CONTENDED || exists t :: Covers(s, t)
  }

  ghost predicate Inv(s: State) {
    MutualExclusion(s) && WordOk(s) && NoLostWakeUp(s)
  }

  lemma StartInv()
    ensures Inv(Start)
  {
  }

  /** What an action changes: one thread, or the waker and the woken thread. */
  lemma NextAt(s: State, a: Action)
    ensures forall u :: u != a.t && !(a.Wake? && u == a.chosen && Sleeps(s, u)) ==> At(Next(s, a), u) == At(s, u)
    ensures a.Wake? && Enabled(s, a) && Sleeps(s, a.chosen) ==> At(Next(s, a), a.chosen) == LockWord
  {
  }

  lemma KeepsWord(s: State, a: Action)
    requires Inv(s) && Enabled(s, a) && !a.Interrupt?
    ensures MutualExclusion(Next(s, a)) && WordOk(Next(s, a))
  {
    NextAt(s, a);
    var s' := Next(s, a);
    forall u | u != a.t
      ensures Owns(s', u) == Owns(s, u)
    {
    }
    assert Owns(s', a.t) && !Owns(s, a.t) ==> s.word == 0 && s'.word != 0;
    assert Owns(s, a.t) && !Owns(s', a.t) ==> s'.word == 0;
    if s'.word != 0 && !Owns(s', a.t) {
      var t :| Owns(s, t);
      assert Owns(s', t);
    }
    if s'.word == 0 && s.word != 0 {
      assert Owns(s, a.t);
    }
  }

  lemma KeepsWakeUps(s: State, a: Action)
    requires Inv(s) && Enabled(s, a) && !a.Interrupt?
    ensures NoLostWakeUp(Next(s, a))
  {
    NextAt(s, a);
    var s' := Next(s, a);
    if u :| Sleeps(s', u) {
      assert u != a.t ==> Sleeps(s, u);
      if a.Wake? {
        assert Covers(s', a.chosen);
      } else if c :| Covers(s, c) {
        assert Covers(s', c) || Covers(s', a.t) || s'.word == CONTENDED;
      } else {
        assert s'.word == CONTENDED || Covers(s', a.t);
      }
    }
  }

  lemma NextKeepsInv(s: State, a: Action)
    requires Inv(s) && Enabled(s, a) && !a.Interrupt?
    ensures Inv(Next(s, a))
  {
    KeepsWord(s, a);
    KeepsWakeUps(s, a);
  }

  // ---------- Whole runs ----------

  ghost predicate IsRun(s: State, acts: seq<Action>)
    decreases acts
  {
    acts == [] || (Enabled(s, acts[0]) && IsRun(Next(s, acts[0]), acts[1..]))
  }

  ghost function Exec(s: State, acts: seq<Action>): State
    decreases acts
  {
    if acts == [] then s else Exec(Next(s, acts[0]), acts[1..])
  }

  ghost predicate NoInterrupt(acts: seq<Action>) {
    forall a | a in acts :: !a.Interrupt?
  }

  lemma {:induction false} RunKeepsInv(s: State, acts: seq<Action>)
    requires Inv(s) && IsRun(s, acts) && NoInterrupt(acts)
    ensures Inv(Exec(s, acts))
    decreases acts
  {
    if acts != [] {
      NextKeepsInv(s, acts[0]);
      RunKeepsInv(Next(s, acts[0]), acts[1..]);
    }
  }

  /** Two owners, because one of them was interrupted while asleep. */
  lemma InterruptBreaksExclusion() returns (acts: seq<Action>)
    ensures IsRun(Start, acts) && !MutualExclusion(Exec(Start, acts))
  {
    acts := [Lock(0), Step(0), Lock(1), Step(1), Step(1), Step(1), Interrupt(1)];
    var s1 := Next(Start, acts[0]);
    var s2 := Next(s1, acts[1]);
    var s3 := Next(s2, acts[2]);
    var s4 := Next(s3, acts[3]);
    var s5 := Next(s4, acts[4]);
    var s6 := Next(s5, acts[5]);
    var s7 := Next(s6, acts[6]);
    assert Sleeps(s6, 1) && At(s6, 0) == Holding;
    RunStep(s6, acts[6..]);
    RunStep(s5, acts[5..]);
    RunStep(s4, acts[4..]);
    RunStep(s3, acts[3..]);
    RunStep(s2, acts[2..]);
    RunStep(s1, acts[1..]);
    assert Owns(s7, 0) && Owns(s7, 1);
  }

  lemma RunStep(s: State, acts: seq<Action>)
    requires acts != []
    ensures IsRun(s, acts) <==> Enabled(s, acts[0]) && IsRun(Next(s, acts[0]), acts[1..])
    ensures Exec(s, acts) == Exec(Next(s, acts[0]), acts[1..])
  {
  }

  /** The failing step: an interrupted sleeper is told that it has the lock, which
      keeps exclusion exactly when the lock is free at that moment. */
  lemma InterruptExact(s: State, t: nat)
    requires Inv(s) && Sleeps(s, t)
    ensures MutualExclusion(Next(s, Interrupt(t))) <==> s.word == 0
  {
    NextAt(s, Interrupt(t));
    var s' := Next(s, Interrupt(t));
    assert Owns(s', t) && !Owns(s, t);
    if s.word != 0 {
      var u :| Owns(s, u);
      assert Owns(s', u);
    } else {
      forall u | Owns(s', u)
        ensures u == t
      {
        assert !Owns(s, u);
      }
    }
  }

  /** Even then the word does not show the new owner, and any other thread's
      try_lock makes two owners. */
  lemma InterruptOnFreeLockLeavesItOpen(s: State, t: nat, u: nat)
    requires Inv(s) && Sleeps(s, t) && s.word == 0 && At(s, u).Outside?
    ensures IsRun(Next(s, Interrupt(t)), [TryLock(u), Step(u)])
    ensures !MutualExclusion(Exec(Next(s, Interrupt(t)), [TryLock(u), Step(u)]))
  {
    var acts := [TryLock(u), Step(u)];
    var s1 := Next(s, Interrupt(t));
    var s2 := Next(s1, TryLock(u));
    var s3 := Next(s2, Step(u));
    RunStep(s1, acts);
    RunStep(s2, acts[1..]);
    assert Owns(s3, t) && Owns(s3, u);
  }

  /** The interrupted thread repairs it by unlocking before anyone else enters. */
  lemma InterruptOnFreeLockUndone(s: State, t: nat)
    requires Inv(s) && Sleeps(s, t) && s.word == 0
    ensures IsRun(s, [Interrupt(t), Unlock(t), Step(t)]) && Inv(Exec(s, [Interrupt(t), Unlock(t), Step(t)]))
  {
    var acts := [Interrupt(t), Unlock(t), Step(t)];
    var s1 := Next(s, acts[0]);
    var s2 := Next(s1, acts[1]);
    var s3 := Next(s2, acts[2]);
    RunStep(s, acts);
    RunStep(s1, acts[1..]);
    RunStep(s2, acts[2..]);
    assert At(s3, t) == CallWake && s3.word == 0;
    forall u
      ensures !Owns(s3, u)
    {
      assert !Owns(s, u) && (u != t ==> At(s3, u) == At(s, u));
    }
    assert Covers(s3, t);
  }

  /** The mutex excludes in all runs exactly when futex_wait is never interrupted. */
  lemma ExclusionExactlyWithoutInterrupts(interruptible: bool)
    ensures (forall acts | IsRun(Start, acts) && (interruptible || NoInterrupt(acts)) ::
               MutualExclusion(Exec(Start, acts)))
            <==> !interruptible
  {
    if interruptible {
      var acts := InterruptBreaksExclusion();
    } else {
      forall acts | IsRun(Start, acts) && NoInterrupt(acts)
        ensures MutualExclusion(Exec(Start, acts))
      {
        StartInv();
        RunKeepsInv(Start, acts);
      }
    }
  }

  // ---------- Critical sections are serial ----------

  datatype Event = Acquired(t: nat) | Released(t: nat)

  ghost function EventsOf(s: State, a: Action): seq<Event> {
    if !Owns(s, a.t) && Owns(Next(s, a), a.t) then [Acquired(a.t)]
    else if Owns(s, a.t) && !Owns(Next(s, a), a.t) then [Released(a.t)]
    else []
  }

  ghost function History(s: State, acts: seq<Action>): seq<Event>
    decreases acts
  {
    if acts == [] then [] else EventsOf(s, acts[0]) + History(Next(s, acts[0]), acts[1..])
  }

  /** Acquisitions and releases alternate, and each release is by the thread that acquired. */
  ghost predicate Serial(held: bool, who: nat, events: seq<Event>)
    decreases events
  {
    events == [] ||
    match events[0]
    case Acquired(t) => !held && Serial(true, t, events[1..])
    case Released(t) => held && t == who && Serial(false, who, events[1..])
  }

  ghost predicate HeldBy(s: State, held: bool, who: nat) {
    if held then Owns(s, who) else forall t :: !Owns(s, t)
  }

  lemma StepSerial(s: State, a: Action, held: bool, who: nat)
    requires Inv(s) && HeldBy(s, held, who) && Enabled(s, a) && !a.Interrupt?
    ensures EventsOf(s, a) == [] ==> HeldBy(Next(s, a), held, who)
    ensures EventsOf(s, a) == [Acquired(a.t)] ==> !held && HeldBy(Next(s, a), true, a.t)
    ensures EventsOf(s, a) == [Released(a.t)] ==> held && a.t == who && HeldBy(Next(s, a), false, who)
  {
    NextKeepsInv(s, a);
    NextAt(s, a);
  }

  lemma {:induction false} RunSerial(s: State, acts: seq<Action>, held: bool, who: nat)
    requires Inv(s) && HeldBy(s, held, who) && IsRun(s, acts) && NoInterrupt(acts)
    ensures Serial(held, who, History(s, acts))
    decreases acts
  {
    if acts != [] {
      var a := acts[0];
      var s', rest := Next(s, a), History(Next(s, a), acts[1..]);
      StepSerial(s, a, held, who);
      NextKeepsInv(s, a);
      hide Owns, Next, Enabled, Inv, HeldBy;
      if EventsOf(s, a) == [] {
        RunSerial(s', acts[1..], held, who);
        assert History(s, acts) == rest;
      } else if EventsOf(s, a) == [Acquired(a.t)] {
        RunSerial(s', acts[1..], true, a.t);
        assert History(s, acts)[1..] == rest;
      } else {
        RunSerial(s', acts[1..], false, who);
        assert History(s, acts)[1..] == rest;
      }
    }
  }

  /** try_lock succeeds exactly when nobody owns the lock at its exchange. */
  lemma TryLockExact(s: State, t: nat)
    requires Inv(s) && At(s, t).TryByte?
    ensures Owns(Next(s, Step(t)), t) <==> forall u :: !Owns(s, u)
  {
  }

  // ---------- Progress ----------

  predicate IsProgress(a: Action) {
    a.Step? || a.Wake? || a.Unlock?
  }

  /** While anyone sleeps, some thread that is awake can move. */
  lemma NeverStuck(s: State, sleeper: nat) returns (a: Action)
    requires Inv(s) && Sleeps(s, sleeper)
    ensures IsProgress(a) && Enabled(s, a) && !Sleeps(s, a.t)
  {
    if s.word == CONTENDED {
      var t :| Owns(s, t);
      a := if At(s, t).Holding? then Unlock(t) else Step(t);
    } else {
      var t :| Covers(s, t);
      a := if At(s, t).LockWord? then Step(t) else Wake(t, sleeper);
    }
  }

  /** With the lock free and someone asleep, at most two steps of threads already
      inside lock or unlock give the lock to one of them. */
  lemma FreeLockIsHandedOver(s: State, sleeper: nat) returns (acts: seq<Action>)
    requires Inv(s) && Sleeps(s, sleeper) && forall t :: !Owns(s, t)
    ensures 1 <= |acts| <= 2 && IsRun(s, acts)
    ensures forall a | a in acts :: (a.Step? || a.Wake?) && !At(s, a.t).Outside?
    ensures exists t :: Owns(Exec(s, acts), t) && !At(s, t).Outside?
  {
    var t :| Covers(s, t);
    if At(s, t).LockWord? {
      acts := [Step(t)];
      RunStep(s, acts);
      assert Owns(Next(s, Step(t)), t);
    } else {
      acts := [Wake(t, sleeper), Step(sleeper)];
      var s' := Next(s, acts[0]);
      RunStep(s, acts);
      RunStep(s', acts[1..]);
      assert Owns(Next(s', acts[1]), sleeper);
    }
  }

  /** While the others stand still, a thread inside lock has the lock after at most
      two steps if nobody owns it, and otherwise is asleep, with the word that makes
      the owner wake somebody, after at most three. */
  lemma LockEnds(s: State, t: nat) returns (acts: seq<Action>)
    requires Inv(s) && At(s, t) in {LockByte, LockWord, CallWait}
    ensures 1 <= |acts| <= 3 && IsRun(s, acts) && forall a | a in acts :: a == Step(t)
    ensures (forall u :: !Owns(s, u)) ==> |acts| <= 2 && Owns(Exec(s, acts), t)
    ensures (exists u :: Owns(s, u)) ==> Sleeps(Exec(s, acts), t) && Exec(s, acts).word == 257
  {
    var s1 := Next(s, Step(t));
    var s2 := Next(s1, Step(t));
    acts := [Step(t)];
    if At(s1, t).LockWord? || At(s1, t).CallWait? {
      acts := [Step(t), Step(t)];
      if At(s2, t).LockWord? || At(s2, t).CallWait? {
        acts := [Step(t), Step(t), Step(t)];
        RunStep(s2, acts[2..]);
      }
      RunStep(s1, acts[1..]);
    }
    RunStep(s, acts);
  }

  /** An unlock ends after its exchange, and after one wake exactly when the word said
      that somebody may sleep; then one sleeper, if there is any, is inside lock. */
  lemma UnlockEnds(s: State, t: nat, sleeper: nat) returns (acts: seq<Action>)
    requires Inv(s) && At(s, t).UnlockWord?
    requires Sleeps(s, sleeper) || forall u :: !Sleeps(s, u)
    ensures acts == if s.word == 257 then [Step(t), Wake(t, sleeper)] else [Step(t)]
    ensures IsRun(s, acts) && At(Exec(s, acts), t).Outside? && Exec(s, acts).word == 0
    ensures forall u :: !Owns(Exec(s, acts), u)
    ensures s.word == 257 && Sleeps(s, sleeper) ==> At(Exec(s, acts), sleeper) in {LockByte, LockWord, CallWait}
  {
    var s1 := Next(s, Step(t));
    acts := if s.word == 257 then [Step(t), Wake(t, sleeper)] else [Step(t)];
    NextAt(s, Step(t));
    assert Owns(s, t) && !Owns(s1, t);
    forall u
      ensures !Owns(s1, u)
    {
      assert u != t ==> At(s1, u) == At(s, u) && !Owns(s, u);
    }
    RunStep(s, acts);
    if s.word == 257 {
      NextAt(s1, acts[1]);
      RunStep(s1, acts[1..]);
      assert forall u :: Sleeps(s1, u) ==> Sleeps(s, u);
      forall u
        ensures !Owns(Next(s1, acts[1]), u)
      {
        assert !Owns(s1, u);
      }
    }
  }

  // ---------- The object itself ----------

  /** The mutex as an object whose word is exchanged in place; `pcs` holds where
      each thread stands in its call. */
  class FastPthreadMutex {
    var futex: nat
    var pcs: map<nat, Pc>

    ghost function Now(): State
      reads this
    {
      State(futex, pcs)
    }

    constructor ()
      ensures Now() == Start && Inv(Now())
    {
      futex, pcs := 0, map[];
      StartInv();
    }

    method ExchangeByte() returns (prev: nat)
      modifies this`futex
      ensures prev == old(futex) % 256 && futex == LowByteSet(old(futex))
    {
      prev := futex % 256;
      futex := futex - prev + 1;
    }

    method ExchangeWord(value: nat) returns (prev: nat)
      modifies this`futex
      ensures prev == old(futex) && futex == value
    {
      prev := futex;
      futex := value;
    }

    /** Thread t enters lock (`blocking`) or try_lock. */
    method Enter(t: nat, blocking: bool)
      requires Inv(Now()) && At(Now(), t).Outside?
      modifies this`pcs
      ensures Now() == Next(old(Now()), if blocking then Lock(t) else TryLock(t)) && Inv(Now())
    {
      NextKeepsInv(Now(), if blocking then Lock(t) else TryLock(t));
      pcs := pcs[t := if blocking then LockByte else TryByte];
    }

    method EnterUnlock(t: nat)
      requires Inv(Now()) && At(Now(), t).Holding?
      modifies this`pcs
      ensures Now() == Next(old(Now()), Unlock(t)) && Inv(Now())
    {
      NextKeepsInv(Now(), Unlock(t));
      pcs := pcs[t := UnlockWord];
    }

    /** Thread t's next exchange, or its futex_wait. */
    method Continue(t: nat)
      requires Inv(Now()) && Enabled(Now(), Step(t))
      modifies this
      ensures Now() == Next(old(Now()), Step(t)) && Inv(Now())
    {
      NextKeepsInv(Now(), Step(t));
      match pcs[t] {
        case LockByte =>
          var prev := ExchangeByte();
          pcs := pcs[t := if prev != 0 then LockWord else Holding];
        case TryByte =>
          var prev := ExchangeByte();
          pcs := pcs[t := if prev != 0 then Outside else Holding];
        case LockWord =>
          var prev := ExchangeWord(CONTENDED);
          pcs := pcs[t := if prev % 2 == LOCKED then CallWait else Holding];
        case CallWait =>
          pcs := pcs[t := if futex == CONTENDED then Asleep else LockWord];
        case UnlockWord =>
          var prev := ExchangeWord(0);
          pcs := pcs[t := if prev != LOCKED then CallWake else Outside];
      }
    }

    /** futex_wake(1): the kernel wakes the sleeper it chooses, if there is one. */
    method FutexWake(t: nat, chosen: nat)
      requires Inv(Now()) && Enabled(Now(), Wake(t, chosen))
      modifies this`pcs
      ensures Now() == Next(old(Now()), Wake(t, chosen)) && Inv(Now())
    {
      NextKeepsInv(Now(), Wake(t, chosen));
      if chosen in pcs && pcs[chosen].Asleep? {
        pcs := pcs[chosen := LockWord];
      }
      pcs := pcs[t := Outside];
    }
  }
}
