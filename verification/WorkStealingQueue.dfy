/** The work-stealing deque: one owner pushes and pops at the bottom while any
    number of thieves compare-and-swap the top.  Every load, store, CAS and buffer
    access is one step of a machine; the machine refines a bounded deque. */
module WorkStealingQueue {
  import opened Masks
  import opened Wrappers

  // ---------- The machine ----------

  /** Where the owner stands; `b` is its local copy of `_bottom`. */
  datatype Owner<+T> =
    | Idle
    | PushLoadTop(value: T, b: nat)
    | PushWrite(value: T, b: nat)
    | PushPublish(value: T, b: nat)
    | PopLoadTop(b: nat)
    | PopLower(b: nat)
    | PopReload(b: nat)
    | PopTake(b: nat)
    | PopReadLast(b: nat)
    | PopCas(b: nat, value: T)
    | PopRestore(b: nat, result: Option<T>)

  /** Where a thief inside `steal` stands; `t` is its local copy of `_top`. */
  datatype Thief<+T> =
    | FirstCheck(t: nat)
    | LoopCheck(t: nat)
    | Read(t: nat)
    | Cas(t: nat, value: T)

  /** Thieves missing from the map are outside `steal`. */
  datatype State<+T> = State(
    bottom: nat,
    top: nat,
    capacity: nat,
    buffer: seq<T>,
    owner: Owner<T>,
    thieves: map<nat, Thief<T>>)

  datatype Action<+T> =
    | Init(wanted: nat, memory: Option<seq<T>>)
    | Push(value: T)
    | Pop
    | OwnerStep
    | Steal(i: nat)
    | ThiefStep(i: nat)

  function Constructed<T>(): State<T> {
    State(1, 1, 0, [], Idle, map[])
  }

  /** `init` returns 0 exactly when this holds; `memory` is what `new` returned. */
  predicate InitAccepts<T>(s: State<T>, wanted: nat, memory: Option<seq<T>>) {
    s.capacity == 0 && wanted != 0 && And(wanted, wanted - 1) == 0 && memory.Some?
  }

  /** `init` runs before the queue is shared; push and pop never overlap each other. */
  predicate Enabled<T>(s: State<T>, a: Action<T>) {
    match a
    case Init(wanted, memory) =>
      s.owner.Idle? && s.thieves == map[] && (memory.Some? ==> |memory.value| == wanted)
    case Push(_) => s.owner.Idle?
    case Pop => s.owner.Idle?
    case OwnerStep => !s.owner.Idle?
    case Steal(i) => i !in s.thieves
    case ThiefStep(i) => i in s.thieves
  }

  function Slot<T>(s: State<T>, i: nat): nat
    requires s.capacity > 0
  {
    And(i, s.capacity - 1)
  }

  function At<T>(s: State<T>, i: nat): T
    requires s.capacity > 0 && |s.buffer| == s.capacity
  {
    s.buffer[Slot(s, i)]
  }

  function OwnerNext<T>(s: State<T>): State<T>
    requires OwnerReady(s)
  {
    match s.owner
    case PushLoadTop(v, b) =>
      s.(owner := if b >= s.top + s.capacity then Idle else PushWrite(v, b))
    case PushWrite(v, b) =>
      s.(buffer := s.buffer[Slot(s, b) := v], owner := PushPublish(v, b))
    case PushPublish(v, b) =>
      s.(bottom := b + 1, owner := Idle)
    case PopLoadTop(b) =>
      s.(owner := if s.top >= b then Idle else PopLower(b))
    case PopLower(b) =>
      s.(bottom := b - 1, owner := PopReload(b))
    case PopReload(b) =>
      s.(owner := if s.top > b - 1 then PopRestore(b, None)
                  else if s.top != b - 1 then PopTake(b) else PopReadLast(b))
    case PopTake(b) =>
      s.(owner := Idle)
    case PopReadLast(b) =>
      s.(owner := PopCas(b, At(s, b - 1)))
    case PopCas(b, v) =>
      if s.top == b - 1 then s.(top := b, owner := PopRestore(b, Some(v)))
      else s.(owner := PopRestore(b, None))
    case PopRestore(b, _) =>
      s.(bottom := b, owner := Idle)
  }

  function ThiefNext<T>(s: State<T>, i: nat): State<T>
    requires ThiefReady(s, i)
  {
    match s.thieves[i]
    case FirstCheck(t) =>
      s.(thieves := if t >= s.bottom then s.thieves - {i} else s.thieves[i := LoopCheck(t)])
    case LoopCheck(t) =>
      s.(thieves := if t >= s.bottom then s.thieves - {i} else s.thieves[i := Read(t)])
    case Read(t) =>
      s.(thieves := s.thieves[i := Cas(t, At(s, t))])
    case Cas(t, v) =>
      if s.top == t then s.(top := t + 1, thieves := s.thieves - {i})
      else s.(thieves := s.thieves[i := LoopCheck(s.top)])
  }

  function Next<T>(s: State<T>, a: Action<T>): State<T>
    requires Inv(s) && Enabled(s, a)
  {
    match a
    case Init(wanted, memory) =>
      if InitAccepts(s, wanted, memory) then s.(capacity := wanted, buffer := memory.value) else s
    case Push(v) => s.(owner := PushLoadTop(v, s.bottom))
    case Pop => s.(owner := PopLoadTop(s.bottom))
    case OwnerStep => OwnerNext(s)
    case Steal(i) => s.(thieves := s.thieves[i := FirstCheck(s.top)])
    case ThiefStep(i) => ThiefNext(s, i)
  }

  // ---------- What callers see ----------

  datatype Return<+T> =
    | Silent
    | InitReturn(code: int)
    | PushReturn(value: T, pushed: bool)
    | PopReturn(popped: Option<T>)
    | StealReturn(i: nat, stolen: Option<T>)

  function OwnerReturned<T>(s: State<T>): Return<T>
    requires OwnerReady(s)
  {
    match s.owner
    case PushLoadTop(v, b) => if b >= s.top + s.capacity then PushReturn(v, false) else Silent
    case PushPublish(v, _) => PushReturn(v, true)
    case PopLoadTop(b) => if s.top >= b then PopReturn(None) else Silent
    case PopTake(b) => PopReturn(Some(At(s, b - 1)))
    case PopRestore(_, r) => PopReturn(r)
    case _ => Silent
  }

  function ThiefReturned<T>(s: State<T>, i: nat): Return<T>
    requires ThiefReady(s, i)
  {
    match s.thieves[i]
    case FirstCheck(t) => if t >= s.bottom then StealReturn(i, None) else Silent
    case LoopCheck(t) => if t >= s.bottom then StealReturn(i, None) else Silent
    case Read(_) => Silent
    case Cas(t, v) => if s.top == t then StealReturn(i, Some(v)) else Silent
  }

  /** What the step hands back to its caller, when it is the last of its operation. */
  function Returned<T>(s: State<T>, a: Action<T>): Return<T>
    requires Inv(s) && Enabled(s, a)
  {
    match a
    case Init(wanted, memory) => InitReturn(if InitAccepts(s, wanted, memory) then 0 else -1)
    case OwnerStep => OwnerReturned(s)
    case ThiefStep(i) => ThiefReturned(s, i)
    case _ => Silent
  }

  // ---------- The specification: a bounded deque ----------

  datatype Deque<+T> = Deque(capacity: nat, items: seq<T>)

  datatype Op<+T> =
    | Nothing
    | SetCapacity(c: nat)
    | PushBack(value: T)
    | RefuseFull(value: T)
    | PopBack(value: T)
    | RefuseEmpty
    | PopFront(i: nat, value: T)

  /** The deque after `op`; None when `op` with that outcome is not allowed there. */
  function Apply<T(==)>(d: Deque<T>, op: Op<T>): Option<Deque<T>> {
    match op
    case Nothing => Some(d)
    case SetCapacity(c) => if d.capacity == 0 && d.items == [] then Some(Deque(c, [])) else None
    case PushBack(v) =>
      if |d.items| < d.capacity then Some(d.(items := d.items + [v])) else None
    case RefuseFull(_) => if |d.items| == d.capacity then Some(d) else None
    case PopBack(v) =>
      if d.items != [] && d.items[|d.items| - 1] == v
      then Some(d.(items := d.items[..|d.items| - 1])) else None
    case RefuseEmpty => if d.items == [] then Some(d) else None
    case PopFront(_, v) =>
      if d.items != [] && d.items[0] == v then Some(d.(items := d.items[1..])) else None
  }

  /** The instant at which each operation of the owner takes effect. */
  function OwnerOp<T>(s: State<T>): Op<T>
    requires OwnerReady(s)
  {
    match s.owner
    case PushLoadTop(v, b) => if b >= s.top + s.capacity then RefuseFull(v) else Nothing
    case PushPublish(v, _) => PushBack(v)
    case PopLoadTop(b) => if s.top >= b then RefuseEmpty else Nothing
    case PopReload(b) =>
      if s.top > b - 1 then RefuseEmpty else if s.top != b - 1 then PopBack(At(s, b - 1)) else Nothing
    case PopCas(b, v) => if s.top == b - 1 then PopBack(v) else RefuseEmpty
    case _ => Nothing
  }

  /** A steal takes effect at its successful CAS. */
  function ThiefOp<T>(s: State<T>, i: nat): Op<T>
    requires ThiefReady(s, i)
  {
    match s.thieves[i]
    case Cas(t, v) => if s.top == t then PopFront(i, v) else Nothing
    case _ => Nothing
  }

  function Linearized<T>(s: State<T>, a: Action<T>): Op<T>
    requires Inv(s) && Enabled(s, a)
  {
    match a
    case Init(wanted, memory) => if InitAccepts(s, wanted, memory) then SetCapacity(wanted) else Nothing
    case OwnerStep => OwnerOp(s)
    case ThiefStep(i) => ThiefOp(s, i)
    case _ => Nothing
  }

  // ---------- The invariant ----------

  /** One past the last item still in the queue: while a pop is undecided the
      lowered `_bottom` hides an item that is still there. */
  function End<T>(s: State<T>): nat {
    match s.owner
    case PopReload(b) => b
    case PopReadLast(b) => b
    case PopCas(b, _) => b
    case PopRestore(b, _) => b
    case _ => s.bottom
  }

  ghost predicate Shape<T>(s: State<T>) {
    && |s.buffer| == s.capacity
    && (s.capacity > 0 ==> And(s.capacity, s.capacity - 1) == 0)
    && 1 <= s.top <= End(s) <= s.top + s.capacity
    && (s.capacity == 0 ==> s.top == 1)
  }

  ghost predicate OwnerOk<T>(s: State<T>)
    requires Shape(s)
  {
    match s.owner
    case Idle => true
    case PushLoadTop(_, b) => b == s.bottom
    case PushWrite(_, b) => b == s.bottom && b < s.top + s.capacity
    case PushPublish(v, b) => b == s.bottom && b < s.top + s.capacity && At(s, b) == v
    case PopLoadTop(b) => b == s.bottom
    case PopLower(b) => b == s.bottom && b > 1
    case PopReload(b) => b == s.bottom + 1
    case PopTake(b) => b == s.bottom + 1 && s.capacity > 0
    case PopReadLast(b) => b == s.bottom + 1 && s.capacity > 0 && b <= s.top + 1
    case PopCas(b, v) =>
      b == s.bottom + 1 && s.capacity > 0 && b <= s.top + 1 && (s.top == b - 1 ==> v == At(s, b - 1))
    case PopRestore(b, _) => b == s.bottom + 1 && s.top == b
  }

  /** A thief whose top is current still points at a queued item, and has read
      it correctly, although slots are reused and pops come and go. */
  ghost predicate ThiefOk<T>(s: State<T>, th: Thief<T>)
    requires Shape(s)
  {
    match th
    case FirstCheck(t) => 1 <= t <= s.top
    case LoopCheck(t) => 1 <= t <= s.top
    case Read(t) => 1 <= t <= s.top && s.capacity > 0 && (t == s.top ==> t < End(s))
    case Cas(t, v) =>
      1 <= t <= s.top && s.capacity > 0 && (t == s.top ==> t < End(s) && v == At(s, t))
  }

  ghost predicate Inv<T>(s: State<T>) {
    Shape(s) && OwnerOk(s) && forall i | i in s.thieves :: ThiefOk(s, s.thieves[i])
  }

  ghost predicate OwnerReady<T>(s: State<T>) {
    !s.owner.Idle? && Shape(s) && OwnerOk(s)
  }

  ghost predicate ThiefReady<T>(s: State<T>, i: nat) {
    i in s.thieves && Shape(s) && ThiefOk(s, s.thieves[i])
  }

  // ---------- Every step keeps the invariant ----------

  lemma OwnerStepKeepsOwner<T>(s: State<T>)
    requires OwnerReady(s)
    ensures Shape(OwnerNext(s)) && OwnerOk(OwnerNext(s))
  {
    hide And;
  }

  /** The owner may overwrite a slot under a thief's feet only when the thief is already late. */
  lemma OwnerStepKeepsThief<T>(s: State<T>, i: nat)
    requires OwnerReady(s) && ThiefReady(s, i)
    ensures Shape(OwnerNext(s)) && ThiefOk(OwnerNext(s), s.thieves[i])
  {
    OwnerStepKeepsOwner(s);
    var th := s.thieves[i];
    if s.owner.PushWrite? && th.Cas? && th.t == s.top {
      SlotsDiffer(th.t, s.owner.b, s.capacity);
    }
  }

  lemma ThiefStepKeepsOwner<T>(s: State<T>, i: nat)
    requires ThiefReady(s, i) && OwnerOk(s)
    ensures Shape(ThiefNext(s, i)) && OwnerOk(ThiefNext(s, i))
    ensures i in ThiefNext(s, i).thieves ==> ThiefOk(ThiefNext(s, i), ThiefNext(s, i).thieves[i])
  {
    hide And;
  }

  lemma ThiefStepKeepsThief<T>(s: State<T>, i: nat, j: nat)
    requires ThiefReady(s, i) && OwnerOk(s) && ThiefReady(s, j)
    ensures Shape(ThiefNext(s, i)) && ThiefOk(ThiefNext(s, i), s.thieves[j])
  {
    hide And;
  }

  lemma OwnerStepKeepsInv<T>(s: State<T>)
    requires Inv(s) && !s.owner.Idle?
    ensures Inv(OwnerNext(s))
  {
    hide And;
    OwnerStepKeepsOwner(s);
    forall i | i in s.thieves
      ensures ThiefOk(OwnerNext(s), s.thieves[i])
    {
      OwnerStepKeepsThief(s, i);
    }
  }

  lemma ThiefStepKeepsInv<T>(s: State<T>, i: nat)
    requires Inv(s) && i in s.thieves
    ensures Inv(ThiefNext(s, i))
  {
    hide And;
    ThiefStepKeepsOwner(s, i);
    forall j | j in ThiefNext(s, i).thieves && j != i
      ensures ThiefOk(ThiefNext(s, i), s.thieves[j])
    {
      ThiefStepKeepsThief(s, i, j);
    }
  }

  lemma NextKeepsInv<T>(s: State<T>, a: Action<T>)
    requires Inv(s) && Enabled(s, a)
    ensures Inv(Next(s, a))
  {
    hide And;
    if a.OwnerStep? {
      OwnerStepKeepsInv(s);
    } else if a.ThiefStep? {
      ThiefStepKeepsInv(s, a.i);
    }
  }

  lemma ConstructedInv<T>()
    ensures Inv(Constructed<T>()) && View(Constructed<T>()) == Deque(0, [])
  {
  }

  // ---------- Every step refines the deque ----------

  /** The items at indices `i` up to `j` of a circular buffer. */
  ghost function Items<T>(buffer: seq<T>, i: nat, j: nat): (q: seq<T>)
    requires i < j ==> |buffer| > 0
    ensures |q| == if j <= i then 0 else j - i
    ensures forall k | 0 <= k < |q| :: q[k] == buffer[And(i + k, |buffer| - 1)]
  {
    if j <= i then [] else Items(buffer, i, j - 1) + [buffer[And(j - 1, |buffer| - 1)]]
  }

  /** The deque the machine stands for. */
  ghost function View<T>(s: State<T>): Deque<T>
    requires Shape(s)
  {
    Deque(s.capacity, Items(s.buffer, s.top, End(s)))
  }

  lemma DropFirst<T>(buffer: seq<T>, i: nat, j: nat)
    requires |buffer| > 0 && i < j
    ensures Items(buffer, i + 1, j) == Items(buffer, i, j)[1..]
    ensures Items(buffer, i, j)[0] == buffer[And(i, |buffer| - 1)]
  {
    hide And;
    var q, q' := Items(buffer, i, j), Items(buffer, i + 1, j);
    assert q[0] == buffer[And(i + 0, |buffer| - 1)];
    forall k | 0 <= k < |q'|
      ensures q'[k] == q[k + 1]
    {
      assert i + 1 + k == i + (k + 1);
    }
  }

  lemma DropLast<T>(buffer: seq<T>, i: nat, j: nat)
    requires |buffer| > 0 && i < j
    ensures |Items(buffer, i, j)| == j - i
    ensures Items(buffer, i, j - 1) == Items(buffer, i, j)[..j - 1 - i]
    ensures Items(buffer, i, j)[j - 1 - i] == buffer[And(j - 1, |buffer| - 1)]
    ensures Items(buffer, j, j) == []
  {
    hide And;
  }

  /** A write outside a window of the circular buffer leaves its items alone. */
  lemma WriteOutside<T>(buffer: seq<T>, i: nat, j: nat, b: nat, v: T)
    requires |buffer| > 0 && And(|buffer|, |buffer| - 1) == 0 && i <= j <= b < i + |buffer|
    ensures Items(buffer[And(b, |buffer| - 1) := v], i, j) == Items(buffer, i, j)
  {
    var q, q' := Items(buffer, i, j), Items(buffer[And(b, |buffer| - 1) := v], i, j);
    forall k | 0 <= k < |q|
      ensures q'[k] == q[k]
    {
      SlotsDiffer(i + k, b, |buffer|);
    }
  }

  lemma PushStepRefines<T>(s: State<T>)
    requires OwnerReady(s) && (s.owner.PushLoadTop? || s.owner.PushWrite? || s.owner.PushPublish?)
    ensures Shape(OwnerNext(s)) && Apply(View(s), OwnerOp(s)) == Some(View(OwnerNext(s)))
  {
    hide And;
    OwnerStepKeepsOwner(s);
    if s.owner.PushWrite? {
      WriteOutside(s.buffer, s.top, s.bottom, s.owner.b, s.owner.value);
    }
  }

  /** The reload of `_top`, at which a pop learns whether it must race for its item. */
  lemma PopReloadRefines<T>(s: State<T>)
    requires OwnerReady(s) && s.owner.PopReload?
    ensures Shape(OwnerNext(s)) && Apply(View(s), OwnerOp(s)) == Some(View(OwnerNext(s)))
  {
    hide And, Items;
    OwnerStepKeepsOwner(s);
    if s.top < s.owner.b {
      DropLast(s.buffer, s.top, s.owner.b);
    }
  }

  /** The race for the last item. */
  lemma PopCasRefines<T>(s: State<T>)
    requires OwnerReady(s) && s.owner.PopCas?
    ensures Shape(OwnerNext(s)) && Apply(View(s), OwnerOp(s)) == Some(View(OwnerNext(s)))
  {
    hide And, Items;
    OwnerStepKeepsOwner(s);
    assert View(OwnerNext(s)) == Deque(s.capacity, []);
    assert View(s) == Deque(s.capacity, if s.top == s.owner.b - 1 then [s.owner.value] else []);
  }

  lemma OwnerStepRefines<T>(s: State<T>)
    requires OwnerReady(s)
    ensures Shape(OwnerNext(s)) && Apply(View(s), OwnerOp(s)) == Some(View(OwnerNext(s)))
  {
    hide And, Items;
    OwnerStepKeepsOwner(s);
    if s.owner.PushLoadTop? || s.owner.PushWrite? || s.owner.PushPublish? {
      PushStepRefines(s);
    } else if s.owner.PopReload? {
      PopReloadRefines(s);
    } else if s.owner.PopCas? {
      PopCasRefines(s);
    }
  }

  lemma ThiefStepRefines<T>(s: State<T>, i: nat)
    requires ThiefReady(s, i) && OwnerOk(s)
    ensures Shape(ThiefNext(s, i)) && Apply(View(s), ThiefOp(s, i)) == Some(View(ThiefNext(s, i)))
  {
    hide And;
    ThiefStepKeepsOwner(s, i);
    if s.top < End(s) {
      DropFirst(s.buffer, s.top, End(s));
    }
  }

  lemma StepRefines<T>(s: State<T>, a: Action<T>)
    requires Inv(s) && Enabled(s, a)
    ensures Inv(Next(s, a))
    ensures Apply(View(s), Linearized(s, a)) == Some(View(Next(s, a)))
  {
    hide And;
    NextKeepsInv(s, a);
    match a
    case OwnerStep => OwnerStepRefines(s);
    case ThiefStep(i) => ThiefStepRefines(s, i);
    case _ =>
  }

  // ---------- Whole runs ----------

  ghost predicate IsRun<T>(s: State<T>, acts: seq<Action<T>>)
    requires Inv(s)
    decreases acts
  {
    acts == [] || (Enabled(s, acts[0]) && (NextKeepsInv(s, acts[0]); IsRun(Next(s, acts[0]), acts[1..])))
  }

  ghost function Exec<T>(s: State<T>, acts: seq<Action<T>>): (s': State<T>)
    requires Inv(s) && IsRun(s, acts)
    ensures Inv(s')
    decreases acts
  {
    if acts == [] then s else
    NextKeepsInv(s, acts[0]); Exec(Next(s, acts[0]), acts[1..])
  }

  ghost function Ops<T>(s: State<T>, acts: seq<Action<T>>): seq<Op<T>>
    requires Inv(s) && IsRun(s, acts)
    decreases acts
  {
    if acts == [] then [] else
    NextKeepsInv(s, acts[0]); [Linearized(s, acts[0])] + Ops(Next(s, acts[0]), acts[1..])
  }

  ghost function Returns<T>(s: State<T>, acts: seq<Action<T>>): seq<Return<T>>
    requires Inv(s) && IsRun(s, acts)
    decreases acts
  {
    if acts == [] then [] else
    NextKeepsInv(s, acts[0]); [Returned(s, acts[0])] + Returns(Next(s, acts[0]), acts[1..])
  }

  ghost function ApplyAll<T>(d: Deque<T>, ops: seq<Op<T>>): Option<Deque<T>>
    decreases ops
  {
    if ops == [] then Some(d) else
    match Apply(d, ops[0])
    case None => None
    case Some(d') => ApplyAll(d', ops[1..])
  }

  /** Every run, whatever the interleaving, is a legal history of the bounded deque. */
  lemma {:induction false} RunRefines<T>(s: State<T>, acts: seq<Action<T>>)
    requires Inv(s) && IsRun(s, acts)
    ensures ApplyAll(View(s), Ops(s, acts)) == Some(View(Exec(s, acts)))
    decreases acts
  {
    if acts != [] {
      StepRefines(s, acts[0]);
      var s' := Next(s, acts[0]);
      RunRefines(s', acts[1..]);
      assert Ops(s, acts)[1..] == Ops(s', acts[1..]);
    }
  }

  // ---------- The values returned are the values of the history ----------

  /** The result the owner must be given for an operation of the history. */
  ghost function ResultOf<T>(op: Op<T>): seq<Return<T>> {
    match op
    case PushBack(v) => [PushReturn(v, true)]
    case RefuseFull(v) => [PushReturn(v, false)]
    case PopBack(v) => [PopReturn(Some(v))]
    case RefuseEmpty => [PopReturn(None)]
    case _ => []
  }

  ghost function OwnerResult<T>(r: Return<T>): seq<Return<T>> {
    if r.PushReturn? || r.PopReturn? then [r] else []
  }

  /** A result already decided but not yet returned to the owner. */
  ghost function Pending<T>(s: State<T>): seq<Return<T>>
    requires Inv(s)
  {
    match s.owner
    case PopTake(b) => [PopReturn(Some(At(s, b - 1)))]
    case PopRestore(_, r) => [PopReturn(r)]
    case _ => []
  }

  ghost function OwnerHistory<T>(ops: seq<Op<T>>): seq<Return<T>> {
    if ops == [] then [] else ResultOf(ops[0]) + OwnerHistory(ops[1..])
  }

  ghost function OwnerResults<T>(rets: seq<Return<T>>): seq<Return<T>> {
    if rets == [] then [] else OwnerResult(rets[0]) + OwnerResults(rets[1..])
  }

  ghost function StealOf<T>(op: Op<T>): seq<(nat, T)> {
    if op.PopFront? then [(op.i, op.value)] else []
  }

  ghost function StealResult<T>(r: Return<T>): seq<(nat, T)> {
    if r.StealReturn? && r.stolen.Some? then [(r.i, r.stolen.value)] else []
  }

  ghost function StealHistory<T>(ops: seq<Op<T>>): seq<(nat, T)> {
    if ops == [] then [] else StealOf(ops[0]) + StealHistory(ops[1..])
  }

  ghost function StealResults<T>(rets: seq<Return<T>>): seq<(nat, T)> {
    if rets == [] then [] else StealResult(rets[0]) + StealResults(rets[1..])
  }

  lemma StepReturns<T>(s: State<T>, a: Action<T>)
    requires Inv(s) && Enabled(s, a)
    ensures Inv(Next(s, a))
    ensures Pending(s) + ResultOf(Linearized(s, a)) == OwnerResult(Returned(s, a)) + Pending(Next(s, a))
    ensures StealOf(Linearized(s, a)) == StealResult(Returned(s, a))
  {
    hide And;
    NextKeepsInv(s, a);
  }

  /** The owner and the thieves are told exactly what the history of the deque
      says, in its order; one result of the owner may still be on its way. */
  lemma {:induction false} RunReturns<T>(s: State<T>, acts: seq<Action<T>>)
    requires Inv(s) && IsRun(s, acts)
    ensures Pending(s) + OwnerHistory(Ops(s, acts)) == OwnerResults(Returns(s, acts)) + Pending(Exec(s, acts))
    ensures StealHistory(Ops(s, acts)) == StealResults(Returns(s, acts))
    decreases acts
  {
    hide And, Inv, Enabled, Next, Linearized, Returned, Pending, ResultOf, OwnerResult, StealOf, StealResult;
    if acts != [] {
      var a := acts[0];
      StepReturns(s, a);
      var s' := Next(s, a);
      var ops, rets := Ops(s', acts[1..]), Returns(s', acts[1..]);
      assert Ops(s, acts) == [Linearized(s, a)] + ops && Returns(s, acts) == [Returned(s, a)] + rets;
      assert Ops(s, acts)[1..] == ops && Returns(s, acts)[1..] == rets;
      RunReturns(s', acts[1..]);
      calc {
        Pending(s) + (ResultOf(Linearized(s, a)) + OwnerHistory(ops));
        (Pending(s) + ResultOf(Linearized(s, a))) + OwnerHistory(ops);
        OwnerResult(Returned(s, a)) + (Pending(s') + OwnerHistory(ops));
        OwnerResult(Returned(s, a)) + OwnerResults(rets) + Pending(Exec(s, acts));
      }
    }
  }

  // ---------- Conservation ----------

  ghost function One(b: bool): nat {
    if b then 1 else 0
  }

  /** How often `x` was pushed successfully among these results. */
  ghost function Pushed<T>(rets: seq<Return<T>>, x: T): nat {
    if rets == [] then 0 else One(rets[0] == PushReturn(x, true)) + Pushed(rets[1..], x)
  }

  ghost function Popped<T>(rets: seq<Return<T>>, x: T): nat {
    if rets == [] then 0 else One(rets[0] == PopReturn(Some(x))) + Popped(rets[1..], x)
  }

  ghost function Stolen<T>(steals: seq<(nat, T)>, x: T): nat {
    if steals == [] then 0 else One(steals[0].1 == x) + Stolen(steals[1..], x)
  }

  ghost function Queued<T>(q: seq<T>, x: T): nat {
    multiset(q)[x]
  }

  lemma QueuedSplits<T>(q: seq<T>, x: T)
    requires q != []
    ensures Queued(q, x) == One(q[0] == x) + Queued(q[1..], x)
    ensures Queued(q, x) == Queued(q[..|q| - 1], x) + One(q[|q| - 1] == x)
  {
    assert q == [q[0]] + q[1..] && q == q[..|q| - 1] + [q[|q| - 1]];
  }

  lemma OpBalances<T>(d: Deque<T>, op: Op<T>, d': Deque<T>, x: T)
    requires Apply(d, op) == Some(d')
    ensures Queued(d.items, x) + Pushed(ResultOf(op), x)
         == Queued(d'.items, x) + Popped(ResultOf(op), x) + Stolen(StealOf(op), x)
  {
    hide Queued;
    if op.PushBack? {
      QueuedSplits(d'.items, x);
      assert d'.items[..|d'.items| - 1] == d.items;
    } else if op.PopBack? || op.PopFront? {
      QueuedSplits(d.items, x);
    }
  }

  lemma {:induction false} CountConcat<T>(a: seq<Return<T>>, b: seq<Return<T>>, x: T)
    ensures Pushed(a + b, x) == Pushed(a, x) + Pushed(b, x)
    ensures Popped(a + b, x) == Popped(a, x) + Popped(b, x)
  {
    if a == [] {
      assert a + b == b;
    } else {
      CountConcat(a[1..], b, x);
      assert (a + b)[1..] == a[1..] + b;
    }
  }

  lemma StolenStep<T>(a: seq<(nat, T)>, b: seq<(nat, T)>, x: T)
    requires |a| <= 1
    ensures Stolen(a + b, x) == Stolen(a, x) + Stolen(b, x)
  {
    if a == [] {
      assert a + b == b;
    } else {
      assert (a + b)[1..] == b && a[1..] == [];
    }
  }

  /** The bounded deque itself conserves items. */
  lemma {:induction false} DequeConserves<T>(d: Deque<T>, ops: seq<Op<T>>, d': Deque<T>, x: T)
    requires ApplyAll(d, ops) == Some(d')
    ensures Queued(d.items, x) + Pushed(OwnerHistory(ops), x)
         == Queued(d'.items, x) + Popped(OwnerHistory(ops), x) + Stolen(StealHistory(ops), x)
    decreases ops
  {
    if ops != [] {
      var m := Apply(d, ops[0]).value;
      OpBalances(d, ops[0], m, x);
      DequeConserves(m, ops[1..], d', x);
      CountConcat(ResultOf(ops[0]), OwnerHistory(ops[1..]), x);
      StolenStep(StealOf(ops[0]), StealHistory(ops[1..]), x);
    }
  }

  /** No item is lost and none is handed out twice: in every run of the fresh queue
      each item was pushed exactly as often as it was popped, was stolen, is queued,
      or is the one whose pop is decided but has not returned. */
  lemma Conservation<T>(acts: seq<Action<T>>, x: T)
    requires Inv(Constructed<T>()) && IsRun(Constructed<T>(), acts)
    ensures var end, rets := Exec(Constructed<T>(), acts), Returns(Constructed<T>(), acts);
            Pushed(OwnerResults(rets), x) ==
            Popped(OwnerResults(rets), x) + Popped(Pending(end), x) + Stolen(StealResults(rets), x)
              + Queued(View(end).items, x)
  {
    var s := Constructed<T>();
    ConstructedInv<T>();
    RunRefines(s, acts);
    RunReturns(s, acts);
    hide And, Inv, View, Next, Enabled, IsRun, Exec, Ops, Returns, ApplyAll;
    var ops, rets, end := Ops(s, acts), Returns(s, acts), Exec(s, acts);
    DequeConserves(View(s), ops, View(end), x);
    CountConcat(OwnerResults(rets), Pending(end), x);
    assert Pending(s) + OwnerHistory(ops) == OwnerHistory(ops);
  }

  /** A steal that reports nothing found an empty queue, or a last item that the
      owner was already popping. */
  lemma StealMisses<T>(s: State<T>, i: nat)
    requires Inv(s) && i in s.thieves && Returned(s, ThiefStep(i)) == StealReturn(i, None)
    ensures |View(s).items| == 0 || (|View(s).items| == 1 && s.bottom < End(s))
  {
    hide And;
    assert ThiefOk(s, s.thieves[i]);
  }

  // ---------- Every operation ends ----------

  /** The same action n times in a row, nobody else moving. */
  function Alone<T>(a: Action<T>, n: nat): seq<Action<T>> {
    if n == 0 then [] else [a] + Alone(a, n - 1)
  }

  /** A thief that has passed its last check with the current top wins even over a
      pop that has meanwhile lowered the bottom. */
  predicate PastChecks<T>(s: State<T>, i: nat) {
    i in s.thieves && (s.thieves[i].Read? || s.thieves[i].Cas?) && s.thieves[i].t == s.top
  }

  ghost function ThiefRank<T>(s: State<T>, th: Thief<T>): (n: nat)
    ensures n <= 7
  {
    match th
    case FirstCheck(t) => if t >= s.bottom then 1 else if t == s.top then 4 else if s.top < s.bottom then 7 else 5
    case LoopCheck(t) => if t >= s.bottom then 1 else if t == s.top then 3 else if s.top < s.bottom then 6 else 4
    case Read(t) => if t == s.top then 2 else if s.top < s.bottom then 5 else 3
    case Cas(t, _) => if t == s.top then 1 else if s.top < s.bottom then 4 else 2
  }

  ghost predicate WillWin<T>(s: State<T>, i: nat) {
    s.top < s.bottom || PastChecks(s, i)
  }

  lemma WinnerHasItem<T>(s: State<T>, i: nat)
    requires Inv(s) && WillWin(s, i)
    ensures s.top < End(s) && s.capacity > 0 && View(s).items != [] && View(s).items[0] == At(s, s.top)
  {
    hide And;
    assert i in s.thieves ==> ThiefOk(s, s.thieves[i]);
    DropFirst(s.buffer, s.top, End(s));
  }

  lemma ThiefStepTowardsEnd<T>(s: State<T>, i: nat)
    requires ThiefReady(s, i) && OwnerOk(s) && ThiefRank(s, s.thieves[i]) > 1
    ensures var s' := ThiefNext(s, i);
      && i in s'.thieves && ThiefRank(s', s'.thieves[i]) == ThiefRank(s, s.thieves[i]) - 1
      && ThiefReturned(s, i) == Silent && WillWin(s', i) == WillWin(s, i)
      && s'.top == s.top && s'.buffer == s.buffer && s'.capacity == s.capacity
  {
    hide And;
  }

  lemma ThiefStepEnds<T>(s: State<T>, i: nat)
    requires ThiefReady(s, i) && OwnerOk(s) && ThiefRank(s, s.thieves[i]) == 1
    ensures i !in ThiefNext(s, i).thieves
    ensures WillWin(s, i) ==> s.capacity > 0 && ThiefReturned(s, i) == StealReturn(i, Some(At(s, s.top)))
    ensures !WillWin(s, i) ==> ThiefReturned(s, i) == StealReturn(i, None)
  {
    hide And;
  }

  /** Left to itself a thief returns after at most seven accesses: with the front
      item when there is one above the bottom, or when it had passed its checks with
      the current top; with nothing otherwise. */
  lemma {:induction false} StealEnds<T>(s: State<T>, i: nat) returns (n: nat)
    requires Inv(s) && i in s.thieves
    ensures 1 <= n <= 7 && n == ThiefRank(s, s.thieves[i])
    ensures IsRun(s, Alone(ThiefStep(i), n)) && i !in Exec(s, Alone(ThiefStep(i), n)).thieves
    ensures var rets := Returns(s, Alone(ThiefStep(i), n));
      && |rets| == n
      && (forall k | 0 <= k < n - 1 :: rets[k] == Silent)
      && (s.top < s.bottom || PastChecks(s, i) ==>
            View(s).items != [] && rets[n - 1] == StealReturn(i, Some(View(s).items[0])))
      && (!(s.top < s.bottom || PastChecks(s, i)) ==> rets[n - 1] == StealReturn(i, None))
    decreases ThiefRank(s, s.thieves[i])
  {
    var a: Action<T> := ThiefStep(i);
    var s' := Next(s, a);
    NextKeepsInv(s, a);
    if WillWin(s, i) {
      WinnerHasItem(s, i);
    }
    if ThiefRank(s, s.thieves[i]) == 1 {
      ThiefStepEnds(s, i);
      hide Inv, Next, View, Returned, ThiefRank, At;
      n := 1;
      AloneStep(s, a, 0);
    } else {
      ThiefStepTowardsEnd(s, i);
      var m := StealEnds(s', i);
      if WillWin(s', i) {
        WinnerHasItem(s', i);
      }
      n := m + 1;
      hide Inv, Next, View, Returned, ThiefRank;
      AloneStep(s, a, m);
    }
  }

  lemma AloneStep<T>(s: State<T>, a: Action<T>, n: nat)
    requires Inv(s) && Enabled(s, a) && Inv(Next(s, a)) && IsRun(Next(s, a), Alone(a, n))
    ensures IsRun(s, Alone(a, n + 1)) && Exec(s, Alone(a, n + 1)) == Exec(Next(s, a), Alone(a, n))
    ensures Returns(s, Alone(a, n + 1)) == [Returned(s, a)] + Returns(Next(s, a), Alone(a, n))
  {
    var acts := Alone(a, n + 1);
    assert acts[0] == a && acts[1..] == Alone(a, n);
    hide Inv, Next, Enabled, Returned;
  }

  ghost function OwnerRank<T>(s: State<T>): (n: nat)
    requires Inv(s)
    ensures n <= 6
  {
    match s.owner
    case Idle => 0
    case PushLoadTop(_, b) => if b >= s.top + s.capacity then 1 else 3
    case PushWrite(_, _) => 2
    case PushPublish(_, _) => 1
    case PopLoadTop(b) => if s.top >= b then 1 else if s.top < b - 1 then 4 else 6
    case PopLower(b) => if s.top > b - 1 then 3 else if s.top < b - 1 then 3 else 5
    case PopReload(b) => if s.top > b - 1 then 2 else if s.top < b - 1 then 2 else 4
    case PopTake(_) => 1
    case PopReadLast(_) => 3
    case PopCas(_, _) => 2
    case PopRestore(_, _) => 1
  }

  /** What the operation of the owner returns if nobody interferes: the last item of
      the deque, or the answer already decided. */
  ghost function OwnerOutcome<T>(s: State<T>): Return<T>
    requires Inv(s)
  {
    match s.owner
    case Idle => Silent
    case PushLoadTop(v, _) => PushReturn(v, |View(s).items| < s.capacity)
    case PushWrite(v, _) => PushReturn(v, true)
    case PushPublish(v, _) => PushReturn(v, true)
    case PopTake(b) => PopReturn(Some(At(s, b - 1)))
    case PopRestore(_, r) => PopReturn(r)
    case _ => PopReturn(LastItem(s))
  }

  ghost function LastItem<T>(s: State<T>): Option<T>
    requires Inv(s)
  {
    var q := View(s).items;
    if q == [] then None else Some(q[|q| - 1])
  }

  lemma LastItemAt<T>(s: State<T>)
    requires Inv(s)
    ensures View(s).items == [] <==> s.top == End(s)
    ensures s.top < End(s) ==> s.capacity > 0 && LastItem(s) == Some(At(s, End(s) - 1))
    ensures |View(s).items| == End(s) - s.top
  {
    hide And;
    if s.top < End(s) {
      DropLast(s.buffer, s.top, End(s));
    }
  }

  predicate Pushing<T>(o: Owner<T>) {
    o.PushLoadTop? || o.PushWrite? || o.PushPublish?
  }

  ghost predicate TowardsEnd<T>(s: State<T>)
    requires Inv(s) && !s.owner.Idle? && Inv(OwnerNext(s))
  {
    && OwnerRank(s) >= 1
    && (OwnerRank(s) > 1 ==>
          && !OwnerNext(s).owner.Idle? && OwnerRank(OwnerNext(s)) == OwnerRank(s) - 1
          && OwnerReturned(s) == Silent && OwnerOutcome(OwnerNext(s)) == OwnerOutcome(s))
    && (OwnerRank(s) == 1 ==> OwnerNext(s).owner.Idle? && OwnerReturned(s) == OwnerOutcome(s))
  }

  lemma PushTowardsEnd<T>(s: State<T>)
    requires Inv(s) && Pushing(s.owner) && Inv(OwnerNext(s))
    ensures TowardsEnd(s)
  {
    hide And, ThiefOk, Items;
    LastItemAt(s);
    hide View, LastItem;
  }

  lemma PopTowardsEnd<T>(s: State<T>)
    requires Inv(s) && !s.owner.Idle? && !Pushing(s.owner) && Inv(OwnerNext(s))
    ensures TowardsEnd(s)
  {
    hide And, ThiefOk, Items;
    LastItemAt(s);
    LastItemAt(OwnerNext(s));
    hide View, LastItem;
  }

  lemma OwnerStepTowardsEnd<T>(s: State<T>)
    requires Inv(s) && !s.owner.Idle?
    ensures Inv(OwnerNext(s)) && TowardsEnd(s)
  {
    OwnerStepKeepsInv(s);
    hide Inv, OwnerNext, TowardsEnd;
    if Pushing(s.owner) {
      PushTowardsEnd(s);
    } else {
      PopTowardsEnd(s);
    }
  }

  /** Left to itself the owner returns after at most six accesses: a push that has not
      yet loaded the top succeeds exactly below capacity, and an undecided pop gives
      the back item, or nothing from an empty deque. */
  lemma {:induction false} OwnerEnds<T>(s: State<T>) returns (n: nat)
    requires Inv(s) && !s.owner.Idle?
    ensures 1 <= n <= 6 && n == OwnerRank(s)
    ensures IsRun(s, Alone(OwnerStep, n)) && Exec(s, Alone(OwnerStep, n)).owner.Idle?
    ensures var rets := Returns(s, Alone(OwnerStep, n));
      && |rets| == n
      && (forall k | 0 <= k < n - 1 :: rets[k] == Silent)
      && rets[n - 1] == OwnerOutcome(s)
    decreases OwnerRank(s)
  {
    var a: Action<T> := OwnerStep;
    var s' := Next(s, a);
    OwnerStepTowardsEnd(s);
    if OwnerRank(s) == 1 {
      n := 1;
      hide Inv, Next, View, Returned, OwnerRank, OwnerOutcome;
      AloneStep(s, a, 0);
    } else {
      hide View, OwnerRank, OwnerOutcome;
      var m := OwnerEnds(s');
      n := m + 1;
      hide Inv, Next, Returned;
      AloneStep(s, a, m);
    }
  }

  /** A steal, a push and a pop from their calls on, nobody else moving: the front
      item, room at the back, and the back item. */
  lemma StealAlone<T>(s: State<T>, i: nat) returns (n: nat)
    requires Inv(s) && i !in s.thieves
    ensures var s1 := Next(s, Steal(i));
      && Inv(s1) && 1 <= n <= 4 && IsRun(s1, Alone(ThiefStep(i), n)) && i !in Exec(s1, Alone(ThiefStep(i), n)).thieves
      && var rets := Returns(s1, Alone(ThiefStep(i), n));
         |rets| == n && (if s.top < s.bottom
                         then View(s).items != [] && rets[n - 1] == StealReturn(i, Some(View(s).items[0]))
                         else rets[n - 1] == StealReturn(i, None))
  {
    NextKeepsInv(s, Steal(i));
    var s1 := Next(s, Steal(i));
    assert View(s1) == View(s);
    n := StealEnds(s1, i);
    hide View, Inv, Returns, IsRun, Exec;
  }

  lemma PushAlone<T>(s: State<T>, v: T) returns (n: nat)
    requires Inv(s) && s.owner.Idle?
    ensures var s1 := Next(s, Push(v));
      && Inv(s1) && 1 <= n <= 3 && IsRun(s1, Alone(OwnerStep, n)) && Exec(s1, Alone(OwnerStep, n)).owner.Idle?
      && var rets := Returns(s1, Alone(OwnerStep, n));
         |rets| == n && rets[n - 1] == PushReturn(v, |View(s).items| < s.capacity)
  {
    NextKeepsInv(s, Push(v));
    var s1 := Next(s, Push(v));
    assert View(s1) == View(s);
    n := OwnerEnds(s1);
    hide View, Inv, Returns, IsRun, Exec;
  }

  lemma PopAlone<T>(s: State<T>) returns (n: nat)
    requires Inv(s) && s.owner.Idle?
    ensures var s1 := Next(s, Pop);
      && Inv(s1) && 1 <= n <= 6 && IsRun(s1, Alone(OwnerStep, n)) && Exec(s1, Alone(OwnerStep, n)).owner.Idle?
      && var rets, q := Returns(s1, Alone(OwnerStep, n)), View(s).items;
         |rets| == n && rets[n - 1] == PopReturn(if q == [] then None else Some(q[|q| - 1]))
  {
    NextKeepsInv(s, Pop);
    var s1 := Next(s, Pop);
    assert View(s1) == View(s);
    n := OwnerEnds(s1);
    hide View, Inv, Returns, IsRun, Exec;
  }

  // ---------- The object itself ----------

  /** The queue as an object updated in place, one shared access per call.  The
      local variables of the operations under way are kept in `owner` and `thieves`. */
  class Queue<T(0)> {
    var bottom: nat
    var top: nat
    var capacity: nat
    var buffer: array<T>
    var owner: Owner<T>
    var thieves: map<nat, Thief<T>>

    ghost function Now(): State<T>
      reads this, buffer
    {
      State(bottom, top, capacity, buffer[..], owner, thieves)
    }

    ghost predicate Valid()
      reads this, buffer
    {
      Inv(Now())
    }

    constructor ()
      ensures Valid() && Now() == Constructed() && fresh(buffer)
    {
      bottom, top, capacity, owner, thieves := 1, 1, 0, Idle, map[];
      buffer := new T[0];
      new;
      ConstructedInv<T>();
    }

    /** `allocates` tells whether `new (std::nothrow)` found memory. */
    method Init(wanted: nat, allocates: bool) returns (code: int)
      requires Valid() && owner.Idle? && thieves == map[]
      modifies this`capacity, this`buffer
      ensures Valid() && (buffer == old(buffer) || fresh(buffer))
      ensures code == 0 ==> (
          var a := Action.Init(wanted, Some(buffer[..]));
          Enabled(old(Now()), a) && Now() == Next(old(Now()), a))
      ensures code != 0 ==> code == -1 && Now() == old(Now())
      ensures code == 0 <==> old(capacity) == 0 && wanted != 0 && And(wanted, wanted - 1) == 0 && allocates
    {
      if capacity != 0 { return -1; }
      if wanted == 0 { return -1; }
      if And(wanted, wanted - 1) != 0 { return -1; }
      if !allocates { return -1; }
      buffer := new T[wanted];
      capacity := wanted;
      NextKeepsInv(old(Now()), Action.Init(wanted, Some(buffer[..])));
      return 0;
    }

    method StartPush(value: T)
      requires Valid() && owner.Idle?
      modifies this`owner
      ensures Valid() && Now() == Next(old(Now()), Push(value))
    {
      NextKeepsInv(Now(), Push(value));
      owner := PushLoadTop(value, bottom);
    }

    method StartPop()
      requires Valid() && owner.Idle?
      modifies this`owner
      ensures Valid() && Now() == Next(old(Now()), Pop)
    {
      NextKeepsInv(Now(), Pop);
      owner := PopLoadTop(bottom);
    }

    /** The next access of the push under way. */
    method StepPush() returns (r: Return<T>)
      requires Valid() && (owner.PushLoadTop? || owner.PushWrite? || owner.PushPublish?)
      modifies this`bottom, this`owner, buffer
      ensures Valid() && Now() == Next(old(Now()), OwnerStep) && r == Returned(old(Now()), OwnerStep)
    {
      NextKeepsInv(Now(), OwnerStep);
      hide And;
      r := Silent;
      if owner.PushLoadTop? {
        var b, t := owner.b, top;
        if b >= t + capacity {
          owner, r := Idle, PushReturn(owner.value, false);
        } else {
          owner := PushWrite(owner.value, b);
        }
      } else if owner.PushWrite? {
        buffer[And(owner.b, capacity - 1)] := owner.value;
        owner := PushPublish(owner.value, owner.b);
      } else {
        bottom := owner.b + 1;
        owner, r := Idle, PushReturn(owner.value, true);
      }
    }

    /** The next access of the pop under way. */
    method StepPop() returns (r: Return<T>)
      requires Valid() && !owner.Idle? && !owner.PushLoadTop? && !owner.PushWrite? && !owner.PushPublish?
      modifies this`bottom, this`top, this`owner
      ensures Valid() && Now() == Next(old(Now()), OwnerStep) && r == Returned(old(Now()), OwnerStep)
    {
      NextKeepsInv(Now(), OwnerStep);
      hide And, ThiefOk;
      r := Silent;
      var b := owner.b;
      if owner.PopLoadTop? {
        if top >= b {
          owner, r := Idle, PopReturn(None);
        } else {
          owner := PopLower(b);
        }
      } else if owner.PopLower? {
        bottom := b - 1;
        owner := PopReload(b);
      } else if owner.PopReload? {
        var t, newb := top, b - 1;
        if t > newb {
          owner := PopRestore(b, None);
        } else if t != newb {
          owner := PopTake(b);
        } else {
          owner := PopReadLast(b);
        }
      } else if owner.PopTake? {
        r := PopReturn(Some(buffer[And(b - 1, capacity - 1)]));
        owner := Idle;
      } else if owner.PopReadLast? {
        owner := PopCas(b, buffer[And(b - 1, capacity - 1)]);
      } else if owner.PopCas? {
        var v, popped := owner.value, top == b - 1;
        if popped {
          top := b;
        }
        owner := PopRestore(b, if popped then Some(v) else None);
      } else {
        bottom := b;
        owner, r := Idle, PopReturn(owner.result);
      }
    }

    method StartSteal(i: nat)
      requires Valid() && i !in thieves
      modifies this`thieves
      ensures Valid() && Now() == Next(old(Now()), Steal(i))
    {
      NextKeepsInv(Now(), Steal(i));
      thieves := thieves[i := FirstCheck(top)];
    }

    /** Thief i's next access to `_bottom`, `_buffer` or `_top`. */
    method StepThief(i: nat) returns (r: Return<T>)
      requires Valid() && i in thieves
      modifies this`top, this`thieves
      ensures Valid() && Now() == Next(old(Now()), ThiefStep(i)) && r == Returned(old(Now()), ThiefStep(i))
    {
      NextKeepsInv(Now(), ThiefStep(i));
      hide And;
      r := Silent;
      match thieves[i] {
        case FirstCheck(t) =>
          if t >= bottom {
            thieves, r := thieves - {i}, StealReturn(i, None);
          } else {
            thieves := thieves[i := LoopCheck(t)];
          }
        case LoopCheck(t) =>
          if t >= bottom {
            thieves, r := thieves - {i}, StealReturn(i, None);
          } else {
            thieves := thieves[i := Read(t)];
          }
        case Read(t) =>
          thieves := thieves[i := Cas(t, buffer[And(t, capacity - 1)])];
        case Cas(t, v) =>
          if top == t {
            top := t + 1;
            thieves, r := thieves - {i}, StealReturn(i, Some(v));
          } else {
            thieves := thieves[i := LoopCheck(top)];
          }
      }
    }
  }
}
