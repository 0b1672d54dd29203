/** The single-producer single-consumer ring.  Every load and store of the indices
    and every access to the data is one step; the machine refines a FIFO queue of
    N - 1 places. */
module SpscQueue {
  /** Where `push` stands, with its local copies of the write index. */
  datatype Producer<+T> =
    | NotPushing
    | LoadRead(value: T, w: nat, wNext: nat)
    | Write(value: T, w: nat, wNext: nat)
    | Publish(value: T, w: nat, wNext: nat)

  /** Where `pop` stands, with its local copy of the read index. */
  datatype Consumer<+T> =
    | NotPopping
    | LoadWrite(r: nat)
    | Read(r: nat)
    | Release(r: nat, value: T)

  datatype State<+T> = State(data: seq<T>, r: nat, w: nat, producer: Producer<T>, consumer: Consumer<T>)

  datatype Action<+T> = Push(value: T) | Pop | ProducerStep | ConsumerStep

  datatype Return<+T> = Silent | Pushed(value: T) | PushFailed | Popped(value: T) | PopFailed

  predicate Enabled<T>(s: State<T>, a: Action<T>) {
    match a
    case Push(_) => s.producer.NotPushing?
    case Pop => s.consumer.NotPopping?
    case ProducerStep => !s.producer.NotPushing?
    case ConsumerStep => !s.consumer.NotPopping?
  }

  function Succ(i: nat, n: nat): nat {
    if i + 1 == n then 0 else i + 1
  }

  /** One step of either side, with what it returns to its caller. */
  function Next<T>(s: State<T>, a: Action<T>): (State<T>, Return<T>)
    requires Inv(s) && Enabled(s, a)
  {
    match a
    case Push(v) => (s.(producer := LoadRead(v, s.w, Succ(s.w, |s.data|))), Silent)
    case Pop => (s.(consumer := LoadWrite(s.r)), Silent)
    case ProducerStep => (
      match s.producer
      case LoadRead(v, w, wNext) =>
        if wNext == s.r then (s.(producer := NotPushing), PushFailed)
        else (s.(producer := Write(v, w, wNext)), Silent)
      case Write(v, w, wNext) => (s.(data := s.data[w := v], producer := Publish(v, w, wNext)), Silent)
      case Publish(v, _, wNext) => (s.(w := wNext, producer := NotPushing), Pushed(v))
    )
    case ConsumerStep => (
      match s.consumer
      case LoadWrite(r) =>
        if r == s.w then (s.(consumer := NotPopping), PopFailed)
        else (s.(consumer := Read(r)), Silent)
      case Read(r) => (s.(consumer := Release(r, s.data[r])), Silent)
      case Release(r, v) => (s.(r := Succ(r, |s.data|), consumer := NotPopping), Popped(v))
    )
  }

  // ---------- The invariant ----------

  /** How many slots lie from r up to w around the ring. */
  function Used(r: nat, w: nat, n: nat): nat
    requires r < n && w < n
  {
    if r <= w then w - r else w + n - r
  }

  ghost predicate Shape<T>(s: State<T>) {
    |s.data| > 2 && s.r < |s.data| && s.w < |s.data|
  }

  ghost predicate ProducerOk<T>(s: State<T>)
    requires Shape(s)
  {
    match s.producer
    case NotPushing => true
    case LoadRead(_, w, wNext) => w == s.w && wNext == Succ(w, |s.data|)
    case Write(_, w, wNext) => w == s.w && wNext == Succ(w, |s.data|) && Used(s.r, s.w, |s.data|) < |s.data| - 1
    case Publish(v, w, wNext) =>
      w == s.w && wNext == Succ(w, |s.data|) && Used(s.r, s.w, |s.data|) < |s.data| - 1 && s.data[w] == v
  }

  ghost predicate ConsumerOk<T>(s: State<T>)
    requires Shape(s)
  {
    match s.consumer
    case NotPopping => true
    case LoadWrite(r) => r == s.r
    case Read(r) => r == s.r && s.r != s.w
    case Release(r, v) => r == s.r && s.r != s.w && v == s.data[r]
  }

  ghost predicate Inv<T>(s: State<T>) {
    Shape(s) && ProducerOk(s) && ConsumerOk(s)
  }

  lemma NextKeepsInv<T>(s: State<T>, a: Action<T>)
    requires Inv(s) && Enabled(s, a)
    ensures Inv(Next(s, a).0)
  {
  }

  /** The producer never writes the slot that the consumer is reading. */
  lemma SlotsExclusive<T>(s: State<T>)
    requires Inv(s) && s.producer.Write? && s.consumer.Read?
    ensures s.producer.w != s.consumer.r
  {
  }

  // ---------- The FIFO it stands for ----------

  /** The items from slot r up to slot w around the ring. */
  ghost function Items<T>(data: seq<T>, r: nat, w: nat): (q: seq<T>)
    requires r < |data| && w < |data|
    ensures |q| == Used(r, w, |data|)
    decreases Used(r, w, |data|)
  {
    if r == w then [] else [data[r]] + Items(data, Succ(r, |data|), w)
  }

  ghost function View<T>(s: State<T>): seq<T>
    requires Shape(s)
  {
    Items(s.data, s.r, s.w)
  }

  lemma {:induction false} ItemsExtend<T>(data: seq<T>, r: nat, w: nat)
    requires r < |data| && w < |data| && Used(r, w, |data|) < |data| - 1
    ensures Items(data, r, Succ(w, |data|)) == Items(data, r, w) + [data[w]]
    decreases Used(r, w, |data|)
  {
    if r != w {
      ItemsExtend(data, Succ(r, |data|), w);
    }
  }

  lemma {:induction false} WriteKeepsItems<T>(data: seq<T>, r: nat, w: nat, v: T)
    requires r < |data| && w < |data|
    ensures Items(data[w := v], r, w) == Items(data, r, w)
    decreases Used(r, w, |data|)
  {
    if r != w {
      WriteKeepsItems(data, Succ(r, |data|), w, v);
    }
  }

  /** Each step does to the FIFO what its result says, and nothing else: a push adds
      at the back with room for it, a pop removes the front, a failed push saw
      N - 1 items and a failed pop saw none. */
  lemma StepRefines<T>(s: State<T>, a: Action<T>)
    requires Inv(s) && Enabled(s, a)
    ensures Inv(Next(s, a).0)
    ensures var (s', ret) := Next(s, a);
            match ret
            case Silent => View(s') == View(s)
            case Pushed(v) => View(s') == View(s) + [v] && |View(s')| <= |s.data| - 1
            case PushFailed => View(s') == View(s) && |View(s)| == |s.data| - 1
            case Popped(v) => View(s) == [v] + View(s')
            case PopFailed => View(s') == View(s) == []
  {
    NextKeepsInv(s, a);
    if a.ProducerStep? {
      if s.producer.Write? {
        WriteKeepsItems(s.data, s.r, s.w, s.producer.value);
      } else if s.producer.Publish? {
        ItemsExtend(s.data, s.r, s.w);
      }
    }
  }

  // ---------- Whole runs ----------

  ghost predicate IsRun<T>(s: State<T>, acts: seq<Action<T>>)
    requires Inv(s)
    decreases acts
  {
    acts == [] || (Enabled(s, acts[0]) && (NextKeepsInv(s, acts[0]); IsRun(Next(s, acts[0]).0, acts[1..])))
  }

  ghost function Exec<T>(s: State<T>, acts: seq<Action<T>>): (s': State<T>)
    requires Inv(s) && IsRun(s, acts)
    ensures Inv(s')
    decreases acts
  {
    if acts == [] then s else NextKeepsInv(s, acts[0]); Exec(Next(s, acts[0]).0, acts[1..])
  }

  /** The items whose push returned true, in order. */
  ghost function Produced<T>(s: State<T>, acts: seq<Action<T>>): seq<T>
    requires Inv(s) && IsRun(s, acts)
    decreases acts
  {
    if acts == [] then [] else
    NextKeepsInv(s, acts[0]);
    var (s', ret) := Next(s, acts[0]);
    (if ret.Pushed? then [ret.value] else []) + Produced(s', acts[1..])
  }

  /** The items that pop handed out, in order. */
  ghost function Consumed<T>(s: State<T>, acts: seq<Action<T>>): seq<T>
    requires Inv(s) && IsRun(s, acts)
    decreases acts
  {
    if acts == [] then [] else
    NextKeepsInv(s, acts[0]);
    var (s', ret) := Next(s, acts[0]);
    (if ret.Popped? then [ret.value] else []) + Consumed(s', acts[1..])
  }

  /** First in, first out, in every interleaving: what was in the queue followed by
      what was pushed is what was popped followed by what is left. */
  lemma {:induction false} RunIsFifo<T>(s: State<T>, acts: seq<Action<T>>)
    requires Inv(s) && IsRun(s, acts)
    ensures View(s) + Produced(s, acts) == Consumed(s, acts) + View(Exec(s, acts))
    decreases acts
  {
    if acts != [] {
      StepRefines(s, acts[0]);
      hide Inv, Enabled, Next, Items, View;
      var (s', ret) := Next(s, acts[0]);
      RunIsFifo(s', acts[1..]);
      Chain(View(s), if ret.Pushed? then [ret.value] else [], if ret.Popped? then [ret.value] else [], View(s'),
            Produced(s', acts[1..]), Consumed(s', acts[1..]), View(Exec(s', acts[1..])));
    }
  }

  lemma Chain<T>(q: seq<T>, p: seq<T>, c: seq<T>, q': seq<T>, ps: seq<T>, cs: seq<T>, end: seq<T>)
    requires q + p == c + q' && q' + ps == cs + end
    ensures q + (p + ps) == (c + cs) + end
  {
    calc {
      q + (p + ps);
      (q + p) + ps;
      c + (q' + ps);
      (c + cs) + end;
    }
  }

  // ---------- Every operation ends ----------

  ghost function Count<T>(acts: seq<Action<T>>, a: Action<T>): nat {
    if acts == [] then 0 else (if acts[0] == a then 1 else 0) + Count(acts[1..], a)
  }

  function ProducerLeft<T>(s: State<T>): (n: nat)
    ensures n <= 3 && (n == 0 <==> s.producer.NotPushing?)
  {
    match s.producer
    case NotPushing => 0
    case LoadRead(_, _, _) => 3
    case Write(_, _, _) => 2
    case Publish(_, _, _) => 1
  }

  function ConsumerLeft<T>(s: State<T>): (n: nat)
    ensures n <= 3 && (n == 0 <==> s.consumer.NotPopping?)
  {
    match s.consumer
    case NotPopping => 0
    case LoadWrite(_) => 3
    case Read(_) => 2
    case Release(_, _) => 1
  }

  /** Whatever the other side does meanwhile, at most three steps end a push, and at
      most three end a pop. */
  lemma {:induction false} WaitFree<T>(s: State<T>, acts: seq<Action<T>>)
    requires Inv(s) && IsRun(s, acts)
    ensures (forall a | a in acts :: !a.Push?) ==> Count(acts, ProducerStep) <= 3
    ensures (forall a | a in acts :: !a.Pop?) ==> Count(acts, ConsumerStep) <= 3
    ensures (forall a | a in acts :: !a.Push?) ==> Count(acts, ProducerStep) <= ProducerLeft(s)
    ensures (forall a | a in acts :: !a.Pop?) ==> Count(acts, ConsumerStep) <= ConsumerLeft(s)
    decreases acts
  {
    if acts != [] {
      NextKeepsInv(s, acts[0]);
      assert acts[0] in acts;
      WaitFree(Next(s, acts[0]).0, acts[1..]);
    }
  }

  lemma RunStep<T>(s: State<T>, acts: seq<Action<T>>)
    requires Inv(s) && acts != [] && Enabled(s, acts[0])
    ensures Inv(Next(s, acts[0]).0)
    ensures IsRun(s, acts) <==> IsRun(Next(s, acts[0]).0, acts[1..])
    ensures IsRun(s, acts) ==>
      && Exec(s, acts) == Exec(Next(s, acts[0]).0, acts[1..])
      && Produced(s, acts) == (var ret := Next(s, acts[0]).1; if ret.Pushed? then [ret.value] else [])
                              + Produced(Next(s, acts[0]).0, acts[1..])
      && Consumed(s, acts) == (var ret := Next(s, acts[0]).1; if ret.Popped? then [ret.value] else [])
                              + Consumed(Next(s, acts[0]).0, acts[1..])
  {
    NextKeepsInv(s, acts[0]);
  }

  /** With the consumer out of the way, a push of v ends with v at the back exactly
      when fewer than N - 1 items are queued, and changes nothing otherwise. */
  lemma PushAlone<T>(s: State<T>, v: T) returns (acts: seq<Action<T>>)
    requires Inv(s) && s.producer.NotPushing? && s.consumer.NotPopping?
    ensures 2 <= |acts| <= 4 && acts[0] == Push(v) && forall a | a in acts[1..] :: a == ProducerStep
    ensures IsRun(s, acts) && Exec(s, acts).producer.NotPushing? && Exec(s, acts).consumer.NotPopping?
    ensures Produced(s, acts) == if |View(s)| < |s.data| - 1 then [v] else []
    ensures View(Exec(s, acts)) == View(s) + if |View(s)| < |s.data| - 1 then [v] else []
  {
    hide Items;
    var s1 := Next(s, Push(v)).0;
    var s2 := Next(s1, ProducerStep).0;
    acts := [Push(v), ProducerStep];
    if |View(s)| < |s.data| - 1 {
      var s3 := Next(s2, ProducerStep).0;
      acts := acts + [ProducerStep, ProducerStep];
      assert acts[2..][1..] == [ProducerStep];
      RunStep(s3, [ProducerStep]);
      RunStep(s2, acts[2..]);
    }
    RunStep(s1, acts[1..]);
    RunStep(s, acts);
    RunIsFifo(s, acts);
  }

  /** With the producer out of the way, a pop ends with the front item exactly when
      there is one. */
  lemma PopAlone<T>(s: State<T>) returns (acts: seq<Action<T>>)
    requires Inv(s) && s.producer.NotPushing? && s.consumer.NotPopping?
    ensures 2 <= |acts| <= 4 && acts[0] == Pop && forall a | a in acts[1..] :: a == ConsumerStep
    ensures IsRun(s, acts) && Exec(s, acts).producer.NotPushing? && Exec(s, acts).consumer.NotPopping?
    ensures Consumed(s, acts) == if View(s) != [] then [View(s)[0]] else []
    ensures View(s) == Consumed(s, acts) + View(Exec(s, acts))
  {
    hide Items;
    var s1 := Next(s, Pop).0;
    var s2 := Next(s1, ConsumerStep).0;
    acts := [Pop, ConsumerStep];
    if View(s) != [] {
      var s3 := Next(s2, ConsumerStep).0;
      acts := acts + [ConsumerStep, ConsumerStep];
      assert acts[2..][1..] == [ConsumerStep];
      RunStep(s3, [ConsumerStep]);
      RunStep(s2, acts[2..]);
    }
    RunStep(s1, acts[1..]);
    RunStep(s, acts);
    RunIsFifo(s, acts);
    assert |Consumed(s, acts)| == if View(s) != [] then 1 else 0;
    assert View(s) == Consumed(s, acts) + View(Exec(s, acts));
    assert View(s) != [] ==> View(s)[0] == Consumed(s, acts)[0];
  }

  // ---------- The object itself ----------

  class Ring<T(0)> {
    const data: array<T>
    var r: nat
    var w: nat
    var producer: Producer<T>
    var consumer: Consumer<T>

    ghost function Now(): State<T>
      reads this, data
    {
      State(data[..], r, w, producer, consumer)
    }

    constructor (n: nat)
      requires n > 2
      ensures Inv(Now()) && View(Now()) == [] && data.Length == n && fresh(data)
    {
      data := new T[n];
      r, w, producer, consumer := 0, 0, NotPushing, NotPopping;
    }

    method StartPush(value: T)
      requires Inv(Now()) && producer.NotPushing?
      modifies this`producer
      ensures Inv(Now()) && Now() == Next(old(Now()), Push(value)).0
    {
      var wNext := w + 1;
      if wNext == data.Length {
        wNext := 0;
      }
      producer := LoadRead(value, w, wNext);
    }

    /** The next access of the push under way. */
    method StepPush() returns (ret: Return<T>)
      requires Inv(Now()) && !producer.NotPushing?
      modifies this`producer, this`w, data
      ensures Inv(Now()) && (Now(), ret) == Next(old(Now()), ProducerStep)
    {
      NextKeepsInv(Now(), ProducerStep);
      ret := Silent;
      match producer {
        case LoadRead(v, w0, wNext) =>
          if wNext == r {
            producer, ret := NotPushing, PushFailed;
          } else {
            producer := Write(v, w0, wNext);
          }
        case Write(v, w0, wNext) =>
          data[w0] := v;
          producer := Publish(v, w0, wNext);
        case Publish(v, _, wNext) =>
          w := wNext;
          producer, ret := NotPushing, Pushed(v);
      }
    }

    method StartPop()
      requires Inv(Now()) && consumer.NotPopping?
      modifies this`consumer
      ensures Inv(Now()) && Now() == Next(old(Now()), Pop).0
    {
      consumer := LoadWrite(r);
    }

    /** The next access of the pop under way. */
    method StepPop() returns (ret: Return<T>)
      requires Inv(Now()) && !consumer.NotPopping?
      modifies this`consumer, this`r
      ensures Inv(Now()) && (Now(), ret) == Next(old(Now()), ConsumerStep)
    {
      NextKeepsInv(Now(), ConsumerStep);
      ret := Silent;
      match consumer {
        case LoadWrite(r0) =>
          if r0 == w {
            consumer, ret := NotPopping, PopFailed;
          } else {
            consumer := Read(r0);
          }
        case Read(r0) =>
          consumer := Release(r0, data[r0]);
        case Release(r0, v) =>
          var next := r0 + 1;
          if next == data.Length {
            next := 0;
          }
          r := next;
          consumer, ret := NotPopping, Popped(v);
      }
    }
  }
}
