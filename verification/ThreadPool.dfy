/** The Toft thread pool: one task list per worker, swapped out and run in batches,
    and a Terminate that flags every worker and waits for all of them to leave.
    Each critical section and each task is one step; any threads may add tasks. */
module ThreadPool {
  import opened Arith

  /** Where a worker stands in WorkRoutine. */
  datatype Worker =
    | Waiting                             // in GetPendingTask
    | Running(done: nat, goOn: bool)      // `done` tasks of the batch have run
    | Leaving                             // out of the loop, not yet counted
    | Gone

  datatype Context<+T> = Context(pending: seq<T>, working: seq<T>, exit: bool, worker: Worker)

  /** Where the thread that calls Terminate stands; it holds the exit lock while marking. */
  datatype Terminator = Idle | Marking(i: nat) | Draining | Finished

  /** `adding` holds the threads in AddTaskInternal that have seen `m_exit` unset. */
  datatype State<+T> = State(
    contexts: seq<Context<T>>,
    busy: nat,
    exit: bool,
    terminator: Terminator,
    adding: map<nat, (T, nat)>)

  datatype Action<+T> =
    | AddTask(i: nat, task: T, key: nat)   // the test of m_exit
    | PushTask(i: nat)                     // the locked push onto the chosen list
    | TakeBatch(c: nat)
    | RunTask(c: nat)
    | EndBatch(c: nat)
    | Leave(c: nat)
    | Terminate
    | MarkNext
    | PassWait

  function Start<T>(n: nat): State<T> {
    State(seq(n, i => Context([], [], false, Waiting)), n, false, Idle, map[])
  }

  predicate Enabled<T>(s: State<T>, a: Action<T>) {
    match a
    case AddTask(i, _, _) => i !in s.adding
    // Terminate deletes the contexts once it has passed its wait
    case PushTask(i) => i in s.adding && !s.terminator.Finished?
    case TakeBatch(c) =>
      c < |s.contexts| && s.contexts[c].worker.Waiting? && (s.contexts[c].pending != [] || s.contexts[c].exit)
    case RunTask(c) =>
      c < |s.contexts| && s.contexts[c].worker.Running? && s.contexts[c].worker.done < |s.contexts[c].working|
    case EndBatch(c) =>
      c < |s.contexts| && s.contexts[c].worker.Running? && s.contexts[c].worker.done == |s.contexts[c].working|
    case Leave(c) => c < |s.contexts| && s.contexts[c].worker.Leaving? && !s.terminator.Marking?
    case Terminate => !s.terminator.Marking?
    case MarkNext => s.terminator.Marking?
    case PassWait => s.terminator.Draining? && s.busy == 0
  }

  function Pick<T>(s: State<T>, key: nat): (c: nat)
    requires s.contexts != []
    ensures c < |s.contexts|
  {
    key % |s.contexts|
  }

  function Update<T>(s: State<T>, c: nat, x: Context<T>): State<T>
    requires c < |s.contexts|
  {
    s.(contexts := s.contexts[c := x])
  }

  function Next<T>(s: State<T>, a: Action<T>): State<T>
    requires Inv(s) && Enabled(s, a)
  {
    match a
    case AddTask(i, t, key) => if s.exit then s else s.(adding := s.adding[i := (t, key)])
    case PushTask(i) =>
      var c := Pick(s, s.adding[i].1);
      var x := s.contexts[c];
      Update(s, c, x.(pending := x.pending + [s.adding[i].0])).(adding := s.adding - {i})
    case TakeBatch(c) =>
      var x := s.contexts[c];
      Update(s, c, Context(x.working, x.pending, x.exit, Running(0, !x.exit)))
    case RunTask(c) =>
      var x := s.contexts[c];
      Update(s, c, x.(worker := Running(x.worker.done + 1, x.worker.goOn)))
    case EndBatch(c) =>
      var x := s.contexts[c];
      Update(s, c, x.(working := [], worker := if x.worker.goOn then Waiting else Leaving))
    case Leave(c) =>
      LeaveCounts(s.contexts, c);
      Update(s, c, s.contexts[c].(worker := Gone)).(busy := s.busy - 1)
    case Terminate => if s.exit then s else s.(exit := true, terminator := Marking(0))
    case MarkNext =>
      var i := s.terminator.i;
      if i < |s.contexts| then Update(s, i, s.contexts[i].(exit := true)).(terminator := Marking(i + 1))
      else s.(terminator := Draining)
    case PassWait => s.(terminator := Finished)
  }

  // ---------- The invariant ----------

  ghost predicate ContextOk<T>(x: Context<T>) {
    match x.worker
    case Waiting => x.working == []
    case Running(k, goOn) => k <= |x.working| && (!goOn ==> x.exit)
    case Leaving => x.working == [] && x.exit
    case Gone => x.working == [] && x.exit
  }

  ghost function Present<T>(xs: seq<Context<T>>): nat {
    if xs == [] then 0 else Present(xs[..|xs| - 1]) + (if xs[|xs| - 1].worker.Gone? then 0 else 1)
  }

  /** Which contexts Terminate has marked so far. */
  ghost predicate Marked<T>(s: State<T>) {
    match s.terminator
    case Idle => !s.exit && forall c | 0 <= c < |s.contexts| :: !s.contexts[c].exit
    case Marking(i) => s.exit && i <= |s.contexts| && forall c | 0 <= c < |s.contexts| :: s.contexts[c].exit <==> c < i
    case Draining => s.exit && forall c | 0 <= c < |s.contexts| :: s.contexts[c].exit
    case Finished => s.exit && forall c | 0 <= c < |s.contexts| :: s.contexts[c].worker.Gone?
  }

  ghost predicate Inv<T>(s: State<T>) {
    && s.contexts != []
    && (forall c | 0 <= c < |s.contexts| :: ContextOk(s.contexts[c]))
    && s.busy == Present(s.contexts)
    && Marked(s)
  }

  lemma {:induction false} UpdateCounts<T>(xs: seq<Context<T>>, c: nat, x: Context<T>)
    requires c < |xs|
    ensures Present(xs[c := x]) == Present(xs) - (if xs[c].worker.Gone? then 0 else 1) + (if x.worker.Gone? then 0 else 1)
  {
    var last := |xs| - 1;
    if c < last {
      UpdateCounts(xs[..last], c, x);
      assert xs[c := x][..last] == xs[..last][c := x];
    } else {
      assert xs[c := x][..last] == xs[..last];
    }
  }

  lemma LeaveCounts<T>(xs: seq<Context<T>>, c: nat)
    requires c < |xs| && !xs[c].worker.Gone?
    ensures Present(xs) > 0
  {
    UpdateCounts(xs, c, xs[c].(worker := Gone));
  }

  lemma {:induction false} NonePresent<T>(xs: seq<Context<T>>)
    ensures Present(xs) == 0 <==> forall c | 0 <= c < |xs| :: xs[c].worker.Gone?
  {
    if xs != [] {
      var last := |xs| - 1;
      NonePresent(xs[..last]);
      if forall c | 0 <= c < |xs| :: xs[c].worker.Gone? {
        forall c | 0 <= c < last ensures xs[..last][c].worker.Gone? {}
      } else if xs[last].worker.Gone? {
        var c :| 0 <= c < |xs| && !xs[c].worker.Gone?;
        assert xs[..last][c] == xs[c];
      }
    }
  }

  lemma UpdateKeepsInv<T>(s: State<T>, c: nat, x: Context<T>)
    requires Inv(s) && c < |s.contexts| && ContextOk(x)
    requires x.exit == s.contexts[c].exit && x.worker.Gone? == s.contexts[c].worker.Gone?
    ensures Inv(Update(s, c, x))
  {
    UpdateCounts(s.contexts, c, x);
    hide ContextOk;
  }

  lemma NextKeepsInv<T>(s: State<T>, a: Action<T>)
    requires Inv(s) && Enabled(s, a)
    ensures Inv(Next(s, a))
  {
    hide Present;
    match a
    case PushTask(i) =>
      var c := Pick(s, s.adding[i].1);
      UpdateKeepsInv(s, c, Next(s, a).contexts[c]);
    case TakeBatch(c) => UpdateKeepsInv(s, c, Next(s, a).contexts[c]);
    case RunTask(c) => UpdateKeepsInv(s, c, Next(s, a).contexts[c]);
    case EndBatch(c) => UpdateKeepsInv(s, c, Next(s, a).contexts[c]);
    case Leave(c) => UpdateCounts(s.contexts, c, Next(s, a).contexts[c]);
    case MarkNext =>
      var i := s.terminator.i;
      if i < |s.contexts| {
        UpdateCounts(s.contexts, i, Next(s, a).contexts[i]);
      }
    case PassWait => NonePresent(s.contexts);
    case _ =>
  }

  lemma {:induction false} StartInv<T>(n: nat)
    requires n > 0
    ensures Inv(Start<T>(n))
  {
    StartCount<T>(n);
  }

  lemma {:induction false} StartCount<T>(n: nat)
    ensures Present(Start<T>(n).contexts) == n
  {
    if n > 0 {
      assert Start<T>(n).contexts[..n - 1] == Start<T>(n - 1).contexts;
      StartCount<T>(n - 1);
    }
  }

  // ---------- Dispatch by key ----------

  /** Of n lists, key selects list c: the key is a multiple of n away from c. */
  ghost predicate Selects(key: nat, n: nat, c: nat) {
    c < n && exists q: nat :: key == Times(n, q) + c
  }

  /** Every key selects exactly one list, a key below n its own, and two keys share a
      list exactly when they differ by a multiple of n. */
  lemma SelectsOne(key: nat, n: nat, c: nat, key': nat, c': nat)
    requires n > 0 && Selects(key, n, c) && Selects(key', n, c')
    ensures key < n ==> c == key
    ensures c == c' <==> exists q: nat :: key == key' + Times(n, q) || key' == key + Times(n, q)
  {
    var q: nat :| key == Times(n, q) + c;
    var q': nat :| key' == Times(n, q') + c';
    TimesMonotone(n, 1, q);
    assert Times(n, 1) == n;
    if c == c' {
      var d := if q >= q' then q - q' else q' - q;
      TimesAdd(n, if q >= q' then q' else q, d);
      assert key == key' + Times(n, d) || key' == key + Times(n, d);
    }
    if d: nat :| key == key' + Times(n, d) || key' == key + Times(n, d) {
      if key == key' + Times(n, d) {
        TimesAdd(n, q', d);
        BlocksUnique(n, q, c, q' + d, c');
      } else {
        TimesAdd(n, q, d);
        BlocksUnique(n, q', c', q + d, c);
      }
    }
  }

  lemma BlocksUnique(n: nat, q: nat, r: nat, q': nat, r': nat)
    requires r < n && r' < n && Times(n, q) + r == Times(n, q') + r'
    ensures q == q' && r == r'
  {
    TimesMonotone(n, q, q');
    TimesMonotone(n, q', q);
    hide Times;
  }

  lemma PickSelects(key: nat, n: nat)
    requires n > 0
    ensures Selects(key, n, key % n)
  {
    var q := key / n;
    assert key == Times(n, q) + key % n;
  }

  /** A push appends its task to the list that its key selects, and changes no other. */
  lemma PushGoesByKey<T>(s: State<T>, i: nat) returns (c: nat)
    requires Inv(s) && Enabled(s, PushTask(i))
    ensures Selects(s.adding[i].1, |s.contexts|, c)
    ensures Next(s, PushTask(i)).contexts
         == s.contexts[c := s.contexts[c].(pending := s.contexts[c].pending + [s.adding[i].0])]
    ensures Next(s, PushTask(i)).adding == s.adding - {i}
  {
    c := Pick(s, s.adding[i].1);
    PickSelects(s.adding[i].1, |s.contexts|);
  }

  // ---------- First in, first out, once each ----------

  /** What a worker still has to run of its batch, and all that is queued behind it. */
  ghost function Batch<T>(x: Context<T>): seq<T>
    requires ContextOk(x)
  {
    if x.worker.Running? then x.working[x.worker.done..] else []
  }

  ghost function Backlog<T>(x: Context<T>): seq<T>
    requires ContextOk(x)
  {
    Batch(x) + x.pending
  }

  /** The task the step pushes onto list c, and the task it runs there. */
  ghost function PushedBy<T>(s: State<T>, a: Action<T>, c: nat): seq<T>
    requires Inv(s) && Enabled(s, a)
  {
    if a.PushTask? && Pick(s, s.adding[a.i].1) == c then [s.adding[a.i].0] else []
  }

  ghost function RunBy<T>(s: State<T>, a: Action<T>, c: nat): seq<T>
    requires Inv(s) && Enabled(s, a)
  {
    if a.RunTask? && a.c == c then [s.contexts[c].working[s.contexts[c].worker.done]] else []
  }

  predicate ByWorker<T>(a: Action<T>) {
    a.TakeBatch? || a.RunTask? || a.EndBatch? || a.Leave?
  }

  /** The worker will swap its lists once more. */
  predicate SwapsAgain<T>(x: Context<T>) {
    x.worker.Waiting? || (x.worker.Running? && x.worker.goOn)
  }

  /** What one step does to list c: a swap makes the pending tasks the batch, any
      other step runs from the front of the batch and pushes at the end. */
  ghost predicate OnList<T>(s: State<T>, a: Action<T>, c: nat)
    requires Inv(s) && Enabled(s, a) && Inv(Next(s, a))
    requires c < |s.contexts| == |Next(s, a).contexts|
  {
    var x, x' := s.contexts[c], Next(s, a).contexts[c];
    if a.TakeBatch? && a.c == c then
      && Batch(x) == [] && Batch(x') == x.pending && x'.pending == [] && SwapsAgain(x)
      && PushedBy(s, a, c) == [] && RunBy(s, a, c) == []
    else
      && Batch(x) == RunBy(s, a, c) + Batch(x') && x'.pending == x.pending + PushedBy(s, a, c)
      && SwapsAgain(x') == SwapsAgain(x)
  }

  lemma PushOnList<T>(s: State<T>, i: nat, c: nat)
    requires Inv(s) && Enabled(s, PushTask(i)) && Inv(Next(s, PushTask(i))) && c < |s.contexts|
    ensures OnList(s, PushTask(i), c)
  {
    hide Present, Marked;
  }

  lemma OwnWorkerOnList<T>(s: State<T>, a: Action<T>)
    requires ByWorker(a) && Inv(s) && Enabled(s, a) && Inv(Next(s, a))
    ensures OnList(s, a, a.c)
  {
    hide Present, Marked;
    var x, x' := s.contexts[a.c], Next(s, a).contexts[a.c];
    assert ContextOk(x);
    if a.TakeBatch? {
      assert x' == Context([], x.pending, x.exit, Running(0, !x.exit));
    } else if a.RunTask? {
      assert x' == x.(worker := Running(x.worker.done + 1, x.worker.goOn));
    }
  }

  lemma OtherWorkerOnList<T>(s: State<T>, a: Action<T>, c: nat)
    requires ByWorker(a) && a.c != c && Inv(s) && Enabled(s, a) && Inv(Next(s, a)) && c < |s.contexts|
    ensures |Next(s, a).contexts| == |s.contexts| && OnList(s, a, c)
  {
    hide Present, Marked;
    assert Next(s, a).contexts[c] == s.contexts[c];
  }

  lemma ElseOnList<T>(s: State<T>, a: Action<T>, c: nat)
    requires !ByWorker(a) && !a.PushTask? && Inv(s) && Enabled(s, a) && Inv(Next(s, a)) && c < |s.contexts|
    ensures |Next(s, a).contexts| == |s.contexts| && OnList(s, a, c)
  {
    hide Present, Marked;
    var x, x' := s.contexts[c], Next(s, a).contexts[c];
    assert x'.pending == x.pending && x'.working == x.working && x'.worker == x.worker;
  }

  lemma StepOnList<T>(s: State<T>, a: Action<T>, c: nat)
    requires Inv(s) && Enabled(s, a) && c < |s.contexts|
    ensures Inv(Next(s, a)) && |Next(s, a).contexts| == |s.contexts|
    ensures OnList(s, a, c)
  {
    NextKeepsInv(s, a);
    if a.PushTask? {
      PushOnList(s, a.i, c);
    } else if ByWorker(a) && a.c == c {
      OwnWorkerOnList(s, a);
    } else if ByWorker(a) {
      OtherWorkerOnList(s, a, c);
    } else {
      ElseOnList(s, a, c);
    }
    hide OnList, Inv;
  }

  lemma Rotates<T>(b: seq<T>, p: seq<T>, b': seq<T>, p': seq<T>, ran: seq<T>, pushed: seq<T>)
    requires (b == ran + b' && p' == p + pushed) || (b == ran == pushed == p' == [] && b' == p)
    ensures (b + p) + pushed == ran + (b' + p')
    ensures b == ran + b' && p' == p + pushed ==> b + p <= ran + (b' + p')
  {
  }

  lemma StepIsFifo<T>(s: State<T>, a: Action<T>, c: nat)
    requires Inv(s) && Enabled(s, a) && c < |s.contexts|
    ensures Inv(Next(s, a)) && |Next(s, a).contexts| == |s.contexts|
    ensures Backlog(s.contexts[c]) + PushedBy(s, a, c) == RunBy(s, a, c) + Backlog(Next(s, a).contexts[c])
  {
    StepOnList(s, a, c);
    var x, x' := s.contexts[c], Next(s, a).contexts[c];
    assert ContextOk(x) && ContextOk(x');
    hide Inv, Next, Enabled, Batch, PushedBy, RunBy, SwapsAgain, ContextOk;
    Rotates(Batch(x), x.pending, Batch(x'), x'.pending, RunBy(s, a, c), PushedBy(s, a, c));
  }

  ghost predicate IsRun<T>(s: State<T>, acts: seq<Action<T>>)
    requires Inv(s)
    decreases acts
  {
    acts == [] || (Enabled(s, acts[0]) && (NextKeepsInv(s, acts[0]); IsRun(Next(s, acts[0]), acts[1..])))
  }

  ghost function Exec<T>(s: State<T>, acts: seq<Action<T>>): (s': State<T>)
    requires Inv(s) && IsRun(s, acts)
    ensures Inv(s')
    decreases acts
  {
    if acts == [] then s else NextKeepsInv(s, acts[0]); Exec(Next(s, acts[0]), acts[1..])
  }

  ghost function Pushed<T>(s: State<T>, acts: seq<Action<T>>, c: nat): seq<T>
    requires Inv(s) && IsRun(s, acts)
    decreases acts
  {
    if acts == [] then [] else
    NextKeepsInv(s, acts[0]); PushedBy(s, acts[0], c) + Pushed(Next(s, acts[0]), acts[1..], c)
  }

  ghost function Executed<T>(s: State<T>, acts: seq<Action<T>>, c: nat): seq<T>
    requires Inv(s) && IsRun(s, acts)
    decreases acts
  {
    if acts == [] then [] else
    NextKeepsInv(s, acts[0]); RunBy(s, acts[0], c) + Executed(Next(s, acts[0]), acts[1..], c)
  }

  lemma Chain<T>(q: seq<T>, p: seq<T>, r: seq<T>, q': seq<T>, ps: seq<T>, rs: seq<T>, end: seq<T>)
    requires q + p == r + q' && q' + ps == rs + end
    ensures q + (p + ps) == (r + rs) + end
  {
    calc {
      q + (p + ps);
      (q + p) + ps;
      r + (q' + ps);
      (r + rs) + end;
    }
  }

  /** In every interleaving each list conserves its tasks in order: what it held
      followed by what was pushed is what ran followed by what it holds. */
  lemma {:induction false} RunIsFifo<T>(s: State<T>, acts: seq<Action<T>>, c: nat)
    requires Inv(s) && IsRun(s, acts) && c < |s.contexts|
    ensures |Exec(s, acts).contexts| == |s.contexts|
    ensures Backlog(s.contexts[c]) + Pushed(s, acts, c) == Executed(s, acts, c) + Backlog(Exec(s, acts).contexts[c])
    decreases acts
  {
    if acts != [] {
      var a, s', rest := acts[0], Next(s, acts[0]), acts[1..];
      StepIsFifo(s, a, c);
      hide Enabled, Next, Backlog, PushedBy, RunBy, ContextOk, Present, Marked;
      RunIsFifo(s', rest, c);
      Chain(Backlog(s.contexts[c]), PushedBy(s, a, c), RunBy(s, a, c), Backlog(s'.contexts[c]),
            Pushed(s', rest, c), Executed(s', rest, c), Backlog(Exec(s', rest).contexts[c]));
    }
  }

  // ---------- Terminate drains ----------

  /** What a worker is bound to run before it leaves: everything it can still swap
      out, or what is left of its last batch. */
  ghost function Due<T>(x: Context<T>): seq<T>
    requires ContextOk(x)
  {
    if SwapsAgain(x) then Backlog(x) else Batch(x)
  }

  lemma StepDue<T>(s: State<T>, a: Action<T>, c: nat)
    requires Inv(s) && Enabled(s, a) && c < |s.contexts|
    ensures Inv(Next(s, a)) && |Next(s, a).contexts| == |s.contexts|
    ensures Due(s.contexts[c]) <= RunBy(s, a, c) + Due(Next(s, a).contexts[c])
  {
    StepOnList(s, a, c);
    var x, x' := s.contexts[c], Next(s, a).contexts[c];
    assert ContextOk(x) && ContextOk(x');
    hide Inv, Next, Enabled, Batch, PushedBy, RunBy, SwapsAgain, ContextOk;
    Rotates(Batch(x), x.pending, Batch(x'), x'.pending, RunBy(s, a, c), PushedBy(s, a, c));
  }

  /** A worker that has left has run all that was due. */
  lemma {:induction false} LeavesNothingDue<T>(s: State<T>, acts: seq<Action<T>>, c: nat)
    requires Inv(s) && IsRun(s, acts) && c < |s.contexts|
    requires |Exec(s, acts).contexts| == |s.contexts| && Exec(s, acts).contexts[c].worker.Gone?
    ensures Due(s.contexts[c]) <= Executed(s, acts, c)
    decreases acts
  {
    if acts != [] {
      var a, s', rest := acts[0], Next(s, acts[0]), acts[1..];
      StepDue(s, a, c);
      hide Enabled, Next, Due, RunBy, ContextOk, Present, Marked;
      LeavesNothingDue(s', rest, c);
    }
  }

  /** Terminate drains.  Let `before` be the run up to the instant Terminate marks
      worker c, and `after` what follows until Terminate passes its wait.  Then worker c
      has left its loop, every task pushed before the mark has run, and what has run
      on list c is what was pushed there: each task once, in push order. */
  lemma TerminateDrains<T>(n: nat, before: seq<Action<T>>, after: seq<Action<T>>, c: nat)
    requires c < n && Inv(Start<T>(n)) && IsRun(Start<T>(n), before)
    requires Exec(Start<T>(n), before).terminator == Marking(c)
    requires var marked := Next(Exec(Start<T>(n), before), MarkNext);
             Inv(marked) && IsRun(marked, after) && Exec(marked, after).terminator.Finished?
    ensures var s, marked := Start<T>(n), Next(Exec(Start<T>(n), before), MarkNext);
            var ran := Executed(s, before, c) + Executed(marked, after, c);
            && Pushed(s, before, c) <= ran <= Pushed(s, before, c) + Pushed(marked, after, c)
            && c < |Exec(marked, after).contexts| && Exec(marked, after).contexts[c].worker.Gone?
  {
    var s := Start<T>(n);
    RunIsFifo(s, before, c);
    var held := Exec(s, before);
    StepIsFifo(held, MarkNext, c);
    var marked := Next(held, MarkNext);
    RunIsFifo(marked, after, c);
    var end := Exec(marked, after);
    assert end.contexts[c].worker.Gone?;
    LeavesNothingDue(marked, after, c);
    DueIsBacklog(held, c);
    hide Inv, Enabled, Next, Backlog, Due, PushedBy, RunBy, ContextOk;
    assert Backlog(s.contexts[c]) == [];
    PrefixChain(Pushed(s, before, c), Executed(s, before, c), Backlog(held.contexts[c]),
                Pushed(marked, after, c), Executed(marked, after, c), Backlog(end.contexts[c]));
  }

  lemma DueIsBacklog<T>(s: State<T>, c: nat)
    requires Inv(s) && s.terminator == Marking(c) && c < |s.contexts|
    ensures Inv(Next(s, MarkNext)) && Next(s, MarkNext).contexts[c].exit
    ensures Due(Next(s, MarkNext).contexts[c]) == Backlog(s.contexts[c])
  {
    NextKeepsInv(s, MarkNext);
  }

  lemma PrefixChain<T>(p1: seq<T>, r1: seq<T>, held: seq<T>, p2: seq<T>, r2: seq<T>, left: seq<T>)
    requires p1 == r1 + held && held <= r2 && held + p2 == r2 + left
    ensures p1 <= r1 + r2 <= p1 + p2
  {
    assert p1 + p2 == r1 + (held + p2) == (r1 + r2) + left;
  }

  /** While Terminate waits, some worker can move. */
  lemma DrainNeverStuck<T>(s: State<T>) returns (a: Action<T>)
    requires Inv(s) && s.terminator.Draining? && s.busy > 0
    ensures Enabled(s, a) && (a.TakeBatch? || a.RunTask? || a.EndBatch? || a.Leave?)
  {
    NonePresent(s.contexts);
    hide Present;
    var c: nat :| c < |s.contexts| && !s.contexts[c].worker.Gone?;
    var x := s.contexts[c];
    assert ContextOk(x) && x.exit;
    a := match x.worker
         case Waiting => TakeBatch(c)
         case Running(k, _) => if k < |x.working| then RunTask(c) else EndBatch(c)
         case _ => Leave(c);
  }

  lemma Prepend<T>(s: State<T>, a: Action<T>, rest: seq<Action<T>>, c: nat)
    requires Inv(s) && Enabled(s, a) && Inv(Next(s, a)) && IsRun(Next(s, a), rest)
    ensures IsRun(s, [a] + rest) && Exec(s, [a] + rest) == Exec(Next(s, a), rest)
    ensures Pushed(s, [a] + rest, c) == PushedBy(s, a, c) + Pushed(Next(s, a), rest, c)
    ensures Executed(s, [a] + rest, c) == RunBy(s, a, c) + Executed(Next(s, a), rest, c)
  {
    assert ([a] + rest)[1..] == rest;
  }

  /** How many steps a worker marked by Terminate still has to take. */
  ghost function Left<T>(x: Context<T>): nat
    requires ContextOk(x)
  {
    match x.worker
    case Waiting => 3 + |x.pending|
    case Running(k, goOn) => (if goOn then 4 + |x.pending| else 2) + (|x.working| - k)
    case Leaving => 1
    case Gone => 0
  }

  ghost function AllLeft<T>(xs: seq<Context<T>>): nat
    requires forall c | 0 <= c < |xs| :: ContextOk(xs[c])
  {
    if xs == [] then 0 else AllLeft(xs[..|xs| - 1]) + Left(xs[|xs| - 1])
  }

  lemma {:induction false} AllLeftUpdate<T>(xs: seq<Context<T>>, c: nat, x: Context<T>)
    requires c < |xs| && ContextOk(x) && forall c | 0 <= c < |xs| :: ContextOk(xs[c])
    ensures AllLeft(xs[c := x]) == AllLeft(xs) - Left(xs[c]) + Left(x)
  {
    var last := |xs| - 1;
    hide Left, ContextOk;
    if c < last {
      AllLeftUpdate(xs[..last], c, x);
      assert xs[c := x][..last] == xs[..last][c := x];
    } else {
      assert xs[c := x][..last] == xs[..last];
    }
  }

  /** While Terminate waits every step of a worker brings the pool one step nearer
      to the end of the wait, whichever worker moves. */
  lemma DrainStepCounts<T>(s: State<T>, a: Action<T>)
    requires Inv(s) && Enabled(s, a) && s.terminator.Draining? && ByWorker(a)
    ensures Inv(Next(s, a)) && Next(s, a).terminator.Draining?
    ensures AllLeft(Next(s, a).contexts) == AllLeft(s.contexts) - 1
  {
    NextKeepsInv(s, a);
    hide Present;
    var c := a.c;
    assert s.contexts[c].exit;
    AllLeftUpdate(s.contexts, c, Next(s, a).contexts[c]);
    hide AllLeft;
    assert Next(s, a).contexts == s.contexts[c := Next(s, a).contexts[c]];
  }

  /** With no further push, any way of letting the workers step ends the wait: after
      exactly as many steps as are left Terminate passes it. */
  lemma {:induction false} TerminateEnds<T>(s: State<T>) returns (acts: seq<Action<T>>)
    requires Inv(s) && s.terminator.Draining?
    ensures |acts| == AllLeft(s.contexts) + 1
    ensures forall k | 0 <= k < |acts| :: if k < |acts| - 1 then ByWorker(acts[k]) else acts[k].PassWait?
    ensures IsRun(s, acts) && Exec(s, acts).terminator.Finished?
    decreases AllLeft(s.contexts)
  {
    if s.busy == 0 {
      NothingLeft(s);
      NextKeepsInv(s, PassWait);
      acts := [PassWait] + [];
      Prepend(s, PassWait, [], 0);
    } else {
      var a := DrainNeverStuck(s);
      DrainStepCounts(s, a);
      hide Present, Marked, ContextOk, Left, AllLeft;
      var rest := TerminateEnds(Next(s, a));
      acts := [a] + rest;
      Prepend(s, a, rest, 0);
    }
  }

  lemma NothingLeft<T>(s: State<T>)
    requires Inv(s) && s.busy == 0
    ensures AllLeft(s.contexts) == 0
  {
    NonePresent(s.contexts);
    AllGone(s.contexts);
  }

  lemma {:induction false} AllGone<T>(xs: seq<Context<T>>)
    requires forall c | 0 <= c < |xs| :: ContextOk(xs[c]) && xs[c].worker.Gone?
    ensures AllLeft(xs) == 0
  {
    if xs != [] {
      AllGone(xs[..|xs| - 1]);
    }
  }

  /** After its last swap a worker runs no more than the rest of its batch. */
  lemma StepOfLastBatch<T>(s: State<T>, a: Action<T>, c: nat)
    requires Inv(s) && Enabled(s, a) && c < |s.contexts| && !SwapsAgain(s.contexts[c])
    ensures Inv(Next(s, a)) && |Next(s, a).contexts| == |s.contexts| && !SwapsAgain(Next(s, a).contexts[c])
    ensures |RunBy(s, a, c)| + |Batch(Next(s, a).contexts[c])| <= |Batch(s.contexts[c])|
  {
    StepOnList(s, a, c);
    hide Inv, Next, Enabled, Batch, PushedBy, RunBy;
  }

  lemma {:induction false} LastBatchIsLast<T>(s: State<T>, acts: seq<Action<T>>, c: nat)
    requires Inv(s) && IsRun(s, acts) && c < |s.contexts| && !SwapsAgain(s.contexts[c])
    ensures |Executed(s, acts, c)| <= |Batch(s.contexts[c])|
    decreases acts
  {
    if acts != [] {
      StepOfLastBatch(s, acts[0], c);
      hide Enabled, Next, RunBy, Batch, SwapsAgain, ContextOk, Present, Marked;
      LastBatchIsLast(Next(s, acts[0]), acts[1..], c);
    }
  }

  /** Exactly which pushes Terminate serves: the task that thread i pushes, and all
      before it on its list, have run when Terminate passes its wait if and only if
      the worker had not swapped its lists for the last time at the push. */
  lemma PushedTaskRunsExactly<T>(s: State<T>, i: nat, rest: seq<Action<T>>)
    requires Inv(s) && Enabled(s, PushTask(i))
    requires Inv(Next(s, PushTask(i))) && IsRun(Next(s, PushTask(i)), rest)
    requires Exec(Next(s, PushTask(i)), rest).terminator.Finished?
    ensures var c, s' := Pick(s, s.adding[i].1), Next(s, PushTask(i));
            && c < |s'.contexts| && Backlog(s'.contexts[c]) == Backlog(s.contexts[c]) + [s.adding[i].0]
            && (Backlog(s'.contexts[c]) <= Executed(s', rest, c) <==> SwapsAgain(s.contexts[c]))
  {
    var c, s' := Pick(s, s.adding[i].1), Next(s, PushTask(i));
    StepIsFifo(s, PushTask(i), c);
    assert SwapsAgain(s'.contexts[c]) == SwapsAgain(s.contexts[c]) && s'.contexts[c].pending != [];
    if SwapsAgain(s.contexts[c]) {
      RunIsFifo(s', rest, c);
      LeavesNothingDue(s', rest, c);
    } else {
      LastBatchIsLast(s', rest, c);
    }
  }

  /** The pool of one worker, one task about to be pushed, after the worker's last batch. */
  function LastBatchTaken<T>(task: T): State<T> {
    State([Context([], [], true, Running(0, false))], 1, true, Draining, map[0 := (task, 0)])
  }

  lemma LastBatchTakenReachable<T>(task: T) returns (acts: seq<Action<T>>)
    ensures Inv(Start<T>(1)) && IsRun(Start<T>(1), acts) && Exec(Start<T>(1), acts) == LastBatchTaken(task)
  {
    StartInv<T>(1);
    hide Present;
    var idle: Context<T> := Context([], [], false, Waiting);
    var t0 := Start<T>(1);
    var t1 := t0.(adding := map[0 := (task, 0)]);
    var t2 := t1.(exit := true, terminator := Marking(0));
    var t3 := t2.(contexts := [idle.(exit := true)], terminator := Marking(1));
    var t4 := t3.(terminator := Draining);
    assert t0.contexts == [idle];
    NextKeepsInv(t0, AddTask(0, task, 0));
    NextKeepsInv(t1, Terminate);
    NextKeepsInv(t2, MarkNext);
    NextKeepsInv(t3, MarkNext);
    NextKeepsInv(t4, TakeBatch(0));
    assert t1 == Next(t0, AddTask(0, task, 0)) && t2 == Next(t1, Terminate);
    assert t3 == Next(t2, MarkNext) && t4 == Next(t3, MarkNext) && LastBatchTaken(task) == Next(t4, TakeBatch(0));
    hide Next, Inv, PushedBy, RunBy;
    Prepend(t4, TakeBatch(0), [], 0);
    Prepend(t3, MarkNext, [TakeBatch(0)], 0);
    Prepend(t2, MarkNext, [MarkNext] + [TakeBatch(0)], 0);
    Prepend(t1, Terminate, [MarkNext] + ([MarkNext] + [TakeBatch(0)]), 0);
    Prepend(t0, AddTask(0, task, 0), [Terminate] + ([MarkNext] + ([MarkNext] + [TakeBatch(0)])), 0);
    acts := [AddTask(0, task, 0)] + ([Terminate] + ([MarkNext] + ([MarkNext] + [TakeBatch(0)])));
    var last: seq<Action<T>> := [TakeBatch(0)];
    assert last + [] == last;
  }

  lemma LatePush<T>(task: T)
    ensures var s := LastBatchTaken(task).(contexts := [Context([], [], true, Leaving)]);
            && Inv(s)
            && Next(s, PushTask(0)) == s.(contexts := [Context([task], [], true, Leaving)], adding := map[])
  {
    var s := LastBatchTaken(task).(contexts := [Context([], [], true, Leaving)]);
    UpdateCounts(s.contexts, 0, s.contexts[0]);
    assert s.adding[0] == (task, 0) && s.adding - {0} == map[] && Pick(s, 0) == 0;
    assert Next(s, PushTask(0)).contexts[0].pending == [task];
  }

  /** AddTask can lose a task: the adding thread saw m_exit unset, and pushed when the
      worker of that list had already taken its last batch. */
  lemma LateTaskIsLost<T>(task: T) returns (acts: seq<Action<T>>)
    ensures Inv(LastBatchTaken(task)) && IsRun(LastBatchTaken(task), acts)
    ensures Exec(LastBatchTaken(task), acts).terminator.Finished?
    ensures Pushed(LastBatchTaken(task), acts, 0) == [task] && Executed(LastBatchTaken(task), acts, 0) == []
  {
    var t5 := LastBatchTaken(task);
    var t6 := t5.(contexts := [Context([], [], true, Leaving)]);
    var t7 := t6.(contexts := [Context([task], [], true, Leaving)], adding := map[]);
    var t8 := t7.(contexts := [Context([task], [], true, Gone)], busy := 0);
    assert Inv(t5) by {
      UpdateCounts(t5.contexts, 0, t5.contexts[0]);
    }
    hide Present;
    NextKeepsInv(t5, EndBatch(0));
    NextKeepsInv(t6, PushTask(0));
    NextKeepsInv(t7, Leave(0));
    NextKeepsInv(t8, PassWait);
    assert t7 == Next(t6, PushTask(0)) by {
      LatePush(task);
    }
    assert t6 == Next(t5, EndBatch(0)) && t8 == Next(t7, Leave(0));
    assert PushedBy(t6, PushTask(0), 0) == [task];
    assert Next(t8, PassWait).terminator.Finished?;
    hide Next, Inv;
    Prepend(t8, PassWait, [], 0);
    Prepend(t7, Leave(0), [PassWait], 0);
    Prepend(t6, PushTask(0), [Leave(0)] + [PassWait], 0);
    Prepend(t5, EndBatch(0), [PushTask(0)] + ([Leave(0)] + [PassWait]), 0);
    acts := [EndBatch(0)] + ([PushTask(0)] + ([Leave(0)] + [PassWait]));
    var last: seq<Action<T>> := [PassWait];
    assert last + [] == last;
  }

  // ---------- The object itself ----------

  /** The pool as an object: each context is an element of an array updated in place. */
  class ToftThreadPool<T(0)> {
    const contexts: array<Context<T>>
    var busy: nat
    var exit: bool
    var terminator: Terminator
    var adding: map<nat, (T, nat)>

    ghost function Now(): State<T>
      reads this, contexts
    {
      State(contexts[..], busy, exit, terminator, adding)
    }

    constructor (n: nat)
      requires n > 0
      ensures Now() == Start(n) && Inv(Now()) && fresh(contexts)
    {
      contexts := new Context<T>[n](_ => Context([], [], false, Waiting));
      busy, exit, terminator, adding := n, false, Idle, map[];
      new;
      StartInv<T>(n);
      assert contexts[..] == Start<T>(n).contexts;
    }

    /** AddTaskInternal up to its test of m_exit; a task added after that is dropped. */
    method BeginAdd(i: nat, task: T, key: nat) returns (accepted: bool)
      requires Inv(Now()) && i !in adding
      modifies this`adding
      ensures Now() == Next(old(Now()), AddTask(i, task, key)) && accepted == !exit
    {
      accepted := !exit;
      if accepted {
        adding := adding[i := (task, key)];
      }
    }

    /** The locked part of AddTaskInternal. */
    method EndAdd(i: nat)
      requires Inv(Now()) && Enabled(Now(), PushTask(i))
      modifies this`adding, contexts
      ensures Now() == Next(old(Now()), PushTask(i)) && Inv(Now())
      ensures exists c: nat :: Selects(old(adding)[i].1, contexts.Length, c)
                && contexts[c].pending == old(contexts[..])[c].pending + [old(adding)[i].0]
                && forall d | 0 <= d < contexts.Length && d != c :: contexts[d] == old(contexts[..])[d]
    {
      NextKeepsInv(Now(), PushTask(i));
      PickSelects(adding[i].1, contexts.Length);
      hide Inv, Selects;
      var c := adding[i].1 % contexts.Length;
      var x := contexts[c];
      contexts[c] := x.(pending := x.pending + [adding[i].0]);
      adding := adding - {i};
    }

    /** GetPendingTask of worker c, from the end of its wait. */
    method GetPendingTask(c: nat) returns (continued: bool)
      requires Inv(Now()) && Enabled(Now(), TakeBatch(c))
      modifies contexts
      ensures Now() == Next(old(Now()), TakeBatch(c)) && Inv(Now())
      ensures continued == !contexts[c].exit
    {
      NextKeepsInv(Now(), TakeBatch(c));
      hide Inv;
      var x := contexts[c];
      continued := !x.exit;
      contexts[c] := Context(x.working, x.pending, x.exit, Running(0, continued));
    }

    /** One turn of the loop over working_tasks: the task that is called. */
    method RunOne(c: nat) returns (task: T)
      requires Inv(Now()) && Enabled(Now(), RunTask(c))
      modifies contexts
      ensures Now() == Next(old(Now()), RunTask(c)) && Inv(Now()) && [task] == RunBy(old(Now()), RunTask(c), c)
    {
      NextKeepsInv(Now(), RunTask(c));
      var x := contexts[c];
      task := x.working[x.worker.done];
      contexts[c] := x.(worker := Running(x.worker.done + 1, x.worker.goOn));
    }

    /** The end of a batch: clear it, and leave the loop after the last one. */
    method FinishBatch(c: nat)
      requires Inv(Now()) && Enabled(Now(), EndBatch(c))
      modifies contexts
      ensures Now() == Next(old(Now()), EndBatch(c)) && Inv(Now())
    {
      NextKeepsInv(Now(), EndBatch(c));
      hide Inv;
      var x := contexts[c];
      contexts[c] := x.(working := [], worker := if x.worker.goOn then Waiting else Leaving);
    }

    /** The end of WorkRoutine, under the exit lock. */
    method LeavePool(c: nat)
      requires Inv(Now()) && Enabled(Now(), Leave(c))
      modifies this`busy, contexts
      ensures Now() == Next(old(Now()), Leave(c)) && Inv(Now())
    {
      NextKeepsInv(Now(), Leave(c));
      LeaveCounts(contexts[..], c);
      busy := busy - 1;
      contexts[c] := contexts[c].(worker := Gone);
    }

    /** The steps of Terminate: raise m_exit, mark the workers one by one, pass the wait. */
    method StepTerminate()
      requires Inv(Now()) && (terminator.Idle? || terminator.Marking? || (terminator.Draining? && busy == 0))
      modifies this`exit, this`terminator, contexts
      ensures Inv(Now())
      ensures Now() == Next(old(Now()), if old(terminator).Idle? then Terminate
                                        else if old(terminator).Marking? then MarkNext else PassWait)
    {
      var a: Action<T> := if terminator.Idle? then Terminate else if terminator.Marking? then MarkNext else PassWait;
      NextKeepsInv(Now(), a);
      if terminator.Idle? {
        exit := true;
        terminator := Marking(0);
      } else if terminator.Marking? {
        var i := terminator.i;
        if i < contexts.Length {
          contexts[i] := contexts[i].(exit := true);
          terminator := Marking(i + 1);
        } else {
          terminator := Draining;
        }
      } else {
        terminator := Finished;
      }
    }
  }
}
