/** The concurrent check queue: one master adds checks and then joins the workers until all are done.
    Threads interleave at the granularity of their critical sections. */
module CheckQueue {
  import opened Base

  /** A verification job and what evaluating it yields. */
  datatype Check = Check(id: nat, passes: bool)

  /** Where a thread is. Thread 0 is the master; only the master is ever Outside or Adding.
      Deciding is the part of a critical section after the clean-up of the previous batch. */
  datatype Pc =
    | Outside
    | Adding
    | Fresh
    | Deciding
    | Working(batch: seq<Check>, ok: bool)
    | Asleep
    | Woken

  /** The shared variables, the threads, the checks added since the last verdict, and that verdict. */
  datatype State = State(
    queue: seq<Check>,
    nIdle: int,
    nTotal: int,
    allOk: bool,
    nTodo: int,
    batchSize: nat,
    threads: seq<Pc>,
    session: seq<Check>,
    verdict: Option<bool>)

  ghost predicate AllPass(checks: seq<Check>) {
    forall i :: 0 <= i < |checks| ==> checks[i].passes
  }

  // ---------- sums over threads ----------

  ghost function Sum(threads: seq<Pc>, weight: Pc -> nat): nat {
    if threads == [] then 0 else weight(threads[0]) + Sum(threads[1..], weight)
  }

  function InHand(pc: Pc): nat {
    if pc.Working? then |pc.batch| else 0
  }

  function IsIdle(pc: Pc): nat {
    if pc.Asleep? || pc.Woken? then 1 else 0
  }

  function IsPresent(pc: Pc): nat {
    if pc.Working? || pc.Deciding? || pc.Asleep? || pc.Woken? then 1 else 0
  }

  lemma {:induction false} SumUpdate(threads: seq<Pc>, weight: Pc -> nat, i: nat, pc: Pc)
    requires i < |threads|
    ensures Sum(threads[i := pc], weight) == Sum(threads, weight) - weight(threads[i]) + weight(pc)
  {
    if i == 0 {
      assert threads[i := pc][1..] == threads[1..];
    } else {
      assert threads[i := pc][1..] == threads[1..][i - 1 := pc];
      SumUpdate(threads[1..], weight, i - 1, pc);
    }
  }

  /** Sums that agree, or are ordered, thread by thread agree or are ordered in total. */
  lemma {:induction false} SumCompare(a: seq<Pc>, b: seq<Pc>, va: Pc -> nat, vb: Pc -> nat)
    requires |a| == |b| && forall i :: 0 <= i < |a| ==> va(a[i]) <= vb(b[i])
    ensures Sum(a, va) <= Sum(b, vb)
    ensures (forall i :: 0 <= i < |a| ==> va(a[i]) == vb(b[i])) ==> Sum(a, va) == Sum(b, vb)
  {
    if a != [] {
      SumCompare(a[1..], b[1..], va, vb);
    }
  }

  lemma {:induction false} SumAtLeast(threads: seq<Pc>, weight: Pc -> nat, i: nat)
    requires i < |threads|
    ensures weight(threads[i]) <= Sum(threads, weight)
  {
    if i > 0 {
      SumAtLeast(threads[1..], weight, i - 1);
    }
  }

  lemma {:induction false} SumPositive(threads: seq<Pc>, weight: Pc -> nat) returns (i: nat)
    requires Sum(threads, weight) > 0
    ensures i < |threads| && weight(threads[i]) > 0
  {
    if weight(threads[0]) > 0 {
      i := 0;
    } else {
      i := SumPositive(threads[1..], weight);
      i := i + 1;
    }
  }

  // ---------- running a batch ----------

  /** Once a check has failed, or a failure was known before, the rest of the batch is skipped. */
  method RunBatch(batch: seq<Check>, ok: bool) returns (r: bool, ran: nat)
    ensures r <==> ok && AllPass(batch)
    ensures ran <= |batch| && AllPass(batch[..(if ran == 0 then 0 else ran - 1)])
    ensures !r ==> (ran == 0 && !ok) || (ran > 0 && !batch[ran - 1].passes)
    ensures r ==> ran == |batch|
  {
    r, ran := ok, 0;
    var i := 0;
    while i < |batch|
      invariant 0 <= ran <= i <= |batch|
      invariant r ==> ok && ran == i && AllPass(batch[..i])
      invariant !r ==> (ran == 0 && !ok) || (ran > 0 && !batch[ran - 1].passes && AllPass(batch[..ran - 1]))
    {
      if r {
        r, ran := batch[i].passes, ran + 1;
      }
      i := i + 1;
    }
    assert r ==> batch[..|batch|] == batch;
  }

  // ---------- the critical sections ----------

  /** How many checks a thread takes at once: fewer the more helpers there are, at least one. */
  function BatchCount(s: State): (n: nat)
    requires s.queue != [] && s.nTotal >= 0 && s.nIdle >= 0
    ensures 1 <= n <= |s.queue|
    ensures n > 1 ==> n <= s.batchSize && n * (s.nTotal + s.nIdle + 1) <= |s.queue|
  {
    var share := |s.queue| / (s.nTotal + s.nIdle + 1);
    ShareFits(|s.queue|, s.nTotal + s.nIdle + 1);
    var most := if s.batchSize < share then s.batchSize else share;
    assert most * (s.nTotal + s.nIdle + 1) <= share * (s.nTotal + s.nIdle + 1) by {
      MulMono(most, share, s.nTotal + s.nIdle + 1);
    }
    if most > 1 then most else 1
  }

  lemma ShareFits(n: nat, d: nat)
    requires d > 0
    ensures 0 <= n / d <= n && n / d * d <= n
  {
    assert n == n / d * d + n % d;
    MulMono(1, d, n / d);
  }

  lemma MulMono(a: nat, b: nat, c: nat)
    requires a <= b
    ensures a * c <= b * c
  {
  }

  /** The last n elements, last first: the order in which they are popped. */
  function Popped(queue: seq<Check>, n: nat): (batch: seq<Check>)
    requires n <= |queue|
    ensures |batch| == n
  {
    seq(n, i requires 0 <= i < n => queue[|queue| - 1 - i])
  }

  method PopBatch(queue: seq<Check>, n: nat) returns (rest: seq<Check>, batch: seq<Check>)
    requires n <= |queue|
    ensures rest == queue[..|queue| - n] && batch == Popped(queue, n)
  {
    rest, batch := queue, [];
    var i := 0;
    while i < n
      invariant 0 <= i <= n && rest == queue[..|queue| - i] && |batch| == i
      invariant forall j :: 0 <= j < i ==> batch[j] == queue[|queue| - 1 - j]
    {
      batch := batch + [rest[|rest| - 1]];
      rest := rest[..|rest| - 1];
      i := i + 1;
    }
  }

  /** The rest of a critical section: take a batch, or go to sleep, or, for the master when nothing is
      left to do, return the verdict and reset it. */
  function Decide(s: State, i: nat): State
    requires i < |s.threads| && s.nTotal >= 0 && s.nIdle >= 0
  {
    if s.queue != [] then
      var n := BatchCount(s);
      s.(queue := s.queue[..|s.queue| - n],
         threads := s.threads[i := Working(Popped(s.queue, n), s.allOk)])
    else if i == 0 && s.nTodo == 0 then
      s.(nTotal := s.nTotal - 1, allOk := true, threads := s.threads[0 := Outside],
         session := [], verdict := Some(s.allOk))
    else
      s.(nIdle := s.nIdle + 1, threads := s.threads[i := Asleep])
  }

  /** A thread's first critical section. */
  function Enter(s: State, i: nat): State
    requires i < |s.threads|
  {
    s.(nTotal := s.nTotal + 1, threads := s.threads[i := Deciding])
  }

  /** Accounting for a finished batch; the worker that finishes the last check wakes the master. */
  function Finish(s: State, i: nat, ok: bool): State
    requires i < |s.threads| && s.threads[i].Working?
  {
    var s1 := s.(allOk := s.allOk && ok, nTodo := s.nTodo - |s.threads[i].batch|, threads := s.threads[i := Deciding]);
    if s1.nTodo == 0 && i != 0 && s1.threads[0].Asleep? then
      s1.(threads := s1.threads[0 := Woken])
    else
      s1
  }

  /** Coming back from a wait. */
  function Resume(s: State, i: nat): State
    requires i < |s.threads|
  {
    s.(nIdle := s.nIdle - 1, threads := s.threads[i := Deciding])
  }

  /** What may happen next. Add names the worker a single notification reaches, if one is asleep. */
  datatype Label =
    | Open
    | Add(checks: seq<Check>, woken: nat)
    | BeginWait
    | EnterLoop(thread: nat)
    | FinishBatch(thread: nat)
    | ResumeWait(thread: nat)
    | Spurious(thread: nat)

  function WakeAll(threads: seq<Pc>): (r: seq<Pc>)
    requires threads != []
    ensures |r| == |threads| && r[0] == threads[0]
    ensures forall i :: 0 < i < |threads| ==> r[i] == (if threads[i].Asleep? then Woken else threads[i])
  {
    [threads[0]] + seq(|threads| - 1, i requires 0 <= i < |threads| - 1 =>
      if threads[i + 1].Asleep? then Woken else threads[i + 1])
  }

  /** Adding checks wakes one sleeping worker for one check and all of them for more. */
  ghost predicate AddWakes(threads: seq<Pc>, count: nat, woken: nat, threads': seq<Pc>)
    requires threads != []
  {
    if count == 1 then
      if exists i :: 0 < i < |threads| && threads[i].Asleep? then
        0 < woken < |threads| && threads[woken].Asleep? && threads' == threads[woken := Woken]
      else
        threads' == threads
    else if count > 1 then
      threads' == WakeAll(threads)
    else
      threads' == threads
  }

  ghost predicate Step(s: State, l: Label, s': State) {
    s.threads != [] && s.nTotal >= 0 && s.nIdle >= 0 &&
    match l
    case Open =>
      s.threads[0].Outside? && s' == s.(threads := s.threads[0 := Adding])
    case Add(checks, woken) =>
      && s.threads[0].Adding?
      && AddWakes(s.threads, |checks|, woken, s'.threads)
      && s' == s.(queue := s.queue + checks, nTodo := s.nTodo + |checks|, session := s.session + checks, threads := s'.threads)
    case BeginWait =>
      s.threads[0].Adding? && s' == s.(threads := s.threads[0 := Fresh])
    case EnterLoop(i) =>
      i < |s.threads| && s.threads[i].Fresh? && s' == Decide(Enter(s, i), i)
    case FinishBatch(i) =>
      i < |s.threads| && s.threads[i].Working? &&
      var s1 := Finish(s, i, s.threads[i].ok && AllPass(s.threads[i].batch));
      s' == Decide(s1, i)
    case ResumeWait(i) =>
      i < |s.threads| && s.threads[i].Woken? && s.nIdle > 0 && s' == Decide(Resume(s, i), i)
    case Spurious(i) =>
      i < |s.threads| && s.threads[i].Asleep? && s' == s.(threads := s.threads[i := Woken])
  }

  ghost predicate Init(s: State) {
    && s.queue == [] && s.nIdle == 0 && s.nTotal == 0 && s.allOk && s.nTodo == 0
    && s.threads != [] && s.threads[0] == Outside
    && (forall i :: 0 < i < |s.threads| ==> s.threads[i] == Fresh)
    && s.session == [] && s.verdict == None
  }

  // ---------- the invariant ----------

  /** Counters are exact. */
  ghost predicate Counts(s: State) {
    && s.nTodo == |s.queue| + Sum(s.threads, InHand)
    && s.nIdle == Sum(s.threads, IsIdle)
    && s.nTotal == Sum(s.threads, IsPresent)
  }

  ghost predicate PcOk(s: State, i: nat)
    requires i < |s.threads|
  {
    && (i > 0 ==> !s.threads[i].Outside? && !s.threads[i].Adding?)
    && (s.threads[i].Working? ==> s.threads[i].batch != [])
    && (s.threads[i].Working? && !s.threads[i].ok ==> !s.allOk)
  }

  /** No failure has been recorded, is queued or is in a thread's hands. */
  ghost predicate NothingWrong(s: State) {
    && s.allOk
    && AllPass(s.queue)
    && forall i :: 0 <= i < |s.threads| && s.threads[i].Working? ==> AllPass(s.threads[i].batch)
  }

  /** All checks of the session pass iff nothing recorded, queued or in hand says otherwise. */
  ghost predicate VerdictOk(s: State) {
    AllPass(s.session) <==> NothingWrong(s)
  }

  /** The master: outside, everything is settled; asleep, there is still work in other threads' hands. */
  ghost predicate MasterOk(s: State)
    requires s.threads != []
  {
    && (s.threads[0].Outside? ==> s.session == [] && s.queue == [] && s.nTodo == 0 && s.allOk)
    && (s.threads[0].Asleep? ==> s.queue == [] && s.nTodo > 0)
  }

  ghost predicate Inv(s: State) {
    && s.threads != []
    && Counts(s)
    && (forall i :: 0 <= i < |s.threads| ==> PcOk(s, i))
    && VerdictOk(s)
    && MasterOk(s)
  }

  lemma InitInv(s: State)
    requires Init(s)
    ensures Inv(s)
  {
    SumZero(s.threads, InHand);
    SumZero(s.threads, IsIdle);
    SumZero(s.threads, IsPresent);
  }

  lemma {:induction false} SumZero(threads: seq<Pc>, weight: Pc -> nat)
    requires forall i :: 0 <= i < |threads| ==> weight(threads[i]) == 0
    ensures Sum(threads, weight) == 0
  {
    if threads != [] {
      SumZero(threads[1..], weight);
    }
  }

  lemma CountsUpdate(s: State, s': State, i: nat, pc: Pc)
    requires Counts(s) && i < |s.threads| && s'.threads == s.threads[i := pc]
    requires s'.nTodo - |s'.queue| == s.nTodo - |s.queue| - InHand(s.threads[i]) + InHand(pc)
    requires s'.nIdle == s.nIdle - IsIdle(s.threads[i]) + IsIdle(pc)
    requires s'.nTotal == s.nTotal - IsPresent(s.threads[i]) + IsPresent(pc)
    ensures Counts(s')
  {
    SumUpdate(s.threads, InHand, i, pc);
    SumUpdate(s.threads, IsIdle, i, pc);
    SumUpdate(s.threads, IsPresent, i, pc);
  }

  /** A step that moves one thread without touching work keeps the verdict and the other threads. */
  lemma QuietMove(s: State, s': State, i: nat, pc: Pc)
    requires VerdictOk(s) && i < |s.threads| && s'.threads == s.threads[i := pc]
    requires !s.threads[i].Working? && !pc.Working? && (i > 0 ==> !pc.Outside? && !pc.Adding?)
    requires s'.queue == s.queue && s'.allOk == s.allOk && s'.session == s.session
    requires forall j :: 0 <= j < |s.threads| ==> PcOk(s, j)
    ensures VerdictOk(s') && forall j :: 0 <= j < |s'.threads| ==> PcOk(s', j)
  {
    forall j | 0 <= j < |s'.threads| ensures PcOk(s', j) {
      assert PcOk(s, j);
    }
    if NothingWrong(s') {
      forall j | 0 <= j < |s.threads| && s.threads[j].Working? ensures AllPass(s.threads[j].batch) {
        assert s'.threads[j] == s.threads[j];
      }
    }
  }

  lemma EnterKeepsInv(s: State, i: nat)
    requires Inv(s) && i < |s.threads| && s.threads[i].Fresh?
    ensures Inv(Enter(s, i)) && Enter(s, i).threads[i].Deciding?
  {
    CountsUpdate(s, Enter(s, i), i, Deciding);
    QuietMove(s, Enter(s, i), i, Deciding);
  }

  lemma ResumeKeepsInv(s: State, i: nat)
    requires Inv(s) && i < |s.threads| && s.threads[i].Woken?
    ensures Inv(Resume(s, i)) && Resume(s, i).threads[i].Deciding?
  {
    CountsUpdate(s, Resume(s, i), i, Deciding);
    QuietMove(s, Resume(s, i), i, Deciding);
  }

  /** Accounting for a batch keeps the verdict exact although a batch taken after a failure was skipped. */
  lemma FinishKeepsInv(s: State, i: nat, ok: bool)
    requires Inv(s) && i < |s.threads| && s.threads[i].Working?
    requires ok <==> s.threads[i].ok && AllPass(s.threads[i].batch)
    ensures Inv(Finish(s, i, ok)) && Finish(s, i, ok).threads[i].Deciding?
  {
    var b := s.threads[i].batch;
    var s1 := s.(allOk := s.allOk && ok, nTodo := s.nTodo - |b|, threads := s.threads[i := Deciding]);
    CountsUpdate(s, s1, i, Deciding);
    assert PcOk(s, i);
    assert VerdictOk(s1) by {
      if AllPass(s.session) {
        assert AllPass(b);
      }
      if NothingWrong(s1) {
        assert forall j :: 0 <= j < |s.threads| && s.threads[j].Working? ==>
            AllPass(s.threads[j].batch) by {
          forall j | 0 <= j < |s.threads| && s.threads[j].Working? ensures AllPass(s.threads[j].batch) {
            if j != i {
              assert s1.threads[j] == s.threads[j];
            }
          }
        }
      }
    }
    forall j | 0 <= j < |s1.threads| ensures PcOk(s1, j) {
      assert PcOk(s, j);
    }
    var s2 := Finish(s, i, ok);
    if s2 != s1 {
      CountsUpdate(s1, s2, 0, Woken);
      QuietMove(s1, s2, 0, Woken);
    }
  }

  lemma PoppedPasses(queue: seq<Check>, n: nat)
    requires n <= |queue|
    ensures AllPass(queue) <==> AllPass(queue[..|queue| - n]) && AllPass(Popped(queue, n))
  {
    var rest, batch := queue[..|queue| - n], Popped(queue, n);
    if AllPass(rest) && AllPass(batch) {
      forall i | 0 <= i < |queue| ensures queue[i].passes {
        if i < |queue| - n {
          assert rest[i] == queue[i];
        } else {
          assert batch[|queue| - 1 - i] == queue[i];
        }
      }
    }
  }

  lemma TakeKeepsInv(s: State, i: nat)
    requires Inv(s) && i < |s.threads| && s.threads[i].Deciding? && s.queue != []
    ensures s.nTotal >= 0 && s.nIdle >= 0 && Inv(Decide(s, i))
  {
    var n := BatchCount(s);
    var s' := Decide(s, i);
    var batch := Popped(s.queue, n);
    CountsUpdate(s, s', i, Working(batch, s.allOk));
    PoppedPasses(s.queue, n);
    forall j | 0 <= j < |s'.threads| ensures PcOk(s', j) {
      assert PcOk(s, j);
    }
    assert VerdictOk(s') by {
      if NothingWrong(s') {
        assert AllPass(s'.threads[i].batch);
        forall j | 0 <= j < |s.threads| && s.threads[j].Working? ensures AllPass(s.threads[j].batch) {
          assert s'.threads[j] == s.threads[j];
        }
      }
    }
  }

  lemma SettledIsIdle(s: State)
    requires Counts(s) && s.nTodo == 0 && (forall i :: 0 <= i < |s.threads| ==> PcOk(s, i))
    ensures forall i :: 0 <= i < |s.threads| ==> !s.threads[i].Working?
  {
    forall i | 0 <= i < |s.threads| ensures !s.threads[i].Working? {
      SumAtLeast(s.threads, InHand, i);
      assert PcOk(s, i);
    }
  }

  /** The heart of the matter: when the master returns, what it returns is the verdict on exactly the
      checks added since the previous return, and nothing of it is left behind. */
  lemma ReturnIsVerdict(s: State)
    requires Inv(s) && s.threads[0].Deciding? && s.queue == [] && s.nTodo == 0
    ensures s.nTotal >= 0 && s.nIdle >= 0
    ensures Decide(s, 0).verdict == Some(s.allOk) && (s.allOk <==> AllPass(s.session))
    ensures Inv(Decide(s, 0))
  {
    SettledIsIdle(s);
    var s' := Decide(s, 0);
    CountsUpdate(s, s', 0, Outside);
    forall j | 0 <= j < |s'.threads| ensures PcOk(s', j) {
      assert PcOk(s, j);
    }
  }

  lemma DecideKeepsInv(s: State, i: nat)
    requires Inv(s) && i < |s.threads| && s.threads[i].Deciding?
    ensures s.nTotal >= 0 && s.nIdle >= 0 && Inv(Decide(s, i))
  {
    if s.queue != [] {
      TakeKeepsInv(s, i);
    } else if i == 0 && s.nTodo == 0 {
      ReturnIsVerdict(s);
    } else {
      var s' := Decide(s, i);
      CountsUpdate(s, s', i, Asleep);
      QuietMove(s, s', i, Asleep);
    }
  }

  lemma AddMoves(threads: seq<Pc>, count: nat, woken: nat, threads': seq<Pc>)
    requires threads != [] && AddWakes(threads, count, woken, threads')
    ensures |threads'| == |threads| && threads'[0] == threads[0]
    ensures forall i :: 0 <= i < |threads| ==>
              threads'[i] == threads[i] || (threads[i] == Asleep && threads'[i] == Woken)
    ensures Sum(threads', InHand) == Sum(threads, InHand)
    ensures Sum(threads', IsIdle) == Sum(threads, IsIdle)
    ensures Sum(threads', IsPresent) == Sum(threads, IsPresent)
  {
    SumCompare(threads, threads', InHand, InHand);
    SumCompare(threads, threads', IsIdle, IsIdle);
    SumCompare(threads, threads', IsPresent, IsPresent);
  }

  lemma AddKeepsInv(s: State, checks: seq<Check>, woken: nat, s': State)
    requires Inv(s) && Step(s, Add(checks, woken), s')
    ensures Inv(s')
  {
    hide AddWakes, Sum;
    AddMoves(s.threads, |checks|, woken, s'.threads);
    forall j | 0 <= j < |s'.threads| ensures PcOk(s', j) {
      assert PcOk(s, j);
    }
    AllPassAppend(s.queue, checks);
    AllPassAppend(s.session, checks);
    assert VerdictOk(s') by {
      assert NothingWrong(s') <==> NothingWrong(s) && AllPass(checks) by {
        forall j | 0 <= j < |s.threads|
          ensures s'.threads[j].Working? <==> s.threads[j].Working?
          ensures s.threads[j].Working? ==> s'.threads[j] == s.threads[j] {}
      }
    }
  }

  lemma AllPassAppend(a: seq<Check>, b: seq<Check>)
    ensures AllPass(a + b) <==> AllPass(a) && AllPass(b)
  {
    if AllPass(a + b) {
      assert forall i :: 0 <= i < |a| ==> (a + b)[i] == a[i];
      assert forall i :: 0 <= i < |b| ==> (a + b)[|a| + i] == b[i];
    }
  }

  /** Every step of every thread keeps the invariant. */
  lemma StepKeepsInv(s: State, l: Label, s': State)
    requires Inv(s) && Step(s, l, s')
    ensures Inv(s')
  {
    match l
    case Open =>
      CountsUpdate(s, s', 0, Adding);
      QuietMove(s, s', 0, Adding);
    case Add(checks, woken) =>
      AddKeepsInv(s, checks, woken, s');
    case BeginWait =>
      CountsUpdate(s, s', 0, Fresh);
      QuietMove(s, s', 0, Fresh);
    case EnterLoop(i) =>
      EnterKeepsInv(s, i);
      DecideKeepsInv(Enter(s, i), i);
    case FinishBatch(i) =>
      FinishKeepsInv(s, i, s.threads[i].ok && AllPass(s.threads[i].batch));
      DecideKeepsInv(Finish(s, i, s.threads[i].ok && AllPass(s.threads[i].batch)), i);
    case ResumeWait(i) =>
      ResumeKeepsInv(s, i);
      DecideKeepsInv(Resume(s, i), i);
    case Spurious(i) =>
      CountsUpdate(s, s', i, Woken);
      QuietMove(s, s', i, Woken);
  }

  // ---------- whole runs ----------

  ghost predicate IsRun(states: seq<State>, labels: seq<Label>) {
    && |states| == |labels| + 1
    && Init(states[0])
    && forall k, k' :: 0 <= k < |labels| && k' == k + 1 ==> Step(states[k], labels[k], states[k'])
  }

  lemma {:induction false} RunKeepsInv(states: seq<State>, labels: seq<Label>, k: nat)
    requires IsRun(states, labels) && k < |states|
    ensures Inv(states[k])
  {
    if k == 0 {
      InitInv(states[0]);
    } else {
      RunKeepsInv(states, labels, k - 1);
      StepKeepsInv(states[k - 1], labels[k - 1], states[k]);
    }
  }

  /** The mutex is free between steps. */
  ghost predicate MutexFree(s: State) {
    forall i :: 0 <= i < |s.threads| ==> !s.threads[i].Deciding?
  }

  lemma StepFreesMutex(s: State, l: Label, s': State)
    requires Step(s, l, s') && MutexFree(s)
    ensures MutexFree(s')
  {
  }

  lemma {:induction false} RunFreesMutex(states: seq<State>, labels: seq<Label>, k: nat)
    requires IsRun(states, labels) && k < |states|
    ensures MutexFree(states[k])
  {
    if k > 0 {
      RunFreesMutex(states, labels, k - 1);
      StepFreesMutex(states[k - 1], labels[k - 1], states[k]);
    }
  }

  /** Whether the master leaves Wait in step k. */
  ghost predicate Returns(states: seq<State>, k: nat)
    requires k + 1 < |states|
  {
    states[k].threads != [] && states[k + 1].threads != [] &&
    !states[k].threads[0].Outside? && states[k + 1].threads[0].Outside?
  }

  /** The checks handed to Add after the last return before step k, read off the labels alone. */
  ghost function AddedSince(states: seq<State>, labels: seq<Label>, k: nat): seq<Check>
    requires |states| == |labels| + 1 && k < |states|
  {
    if k == 0 then []
    else if labels[k - 1].Add? then AddedSince(states, labels, k - 1) + labels[k - 1].checks
    else if Returns(states, k - 1) then []
    else AddedSince(states, labels, k - 1)
  }

  lemma {:induction false} SessionIsAdded(states: seq<State>, labels: seq<Label>, k: nat)
    requires IsRun(states, labels) && k < |states|
    ensures states[k].session == AddedSince(states, labels, k)
  {
    if k > 0 {
      SessionIsAdded(states, labels, k - 1);
      RunKeepsInv(states, labels, k - 1);
      StepSession(states[k - 1], labels[k - 1], states[k]);
    }
  }

  lemma StepSession(s: State, l: Label, s': State)
    requires Inv(s) && Step(s, l, s')
    ensures s'.threads != []
    ensures s'.session == (if l.Add? then s.session + l.checks
                           else if !s.threads[0].Outside? && s'.threads[0].Outside? then []
                           else s.session)
    ensures !s.threads[0].Outside? && s'.threads[0].Outside? ==> s'.verdict == Some(AllPass(s.session))
  {
    match l
    case Open =>
    case Add(checks, woken) =>
    case BeginWait =>
    case EnterLoop(i) =>
      EnterKeepsInv(s, i);
      if i == 0 && s.queue == [] && s.nTodo == 0 { ReturnIsVerdict(Enter(s, 0)); }
      DecideKeepsInv(Enter(s, i), i);
    case FinishBatch(i) =>
      var s1 := Finish(s, i, s.threads[i].ok && AllPass(s.threads[i].batch));
      FinishKeepsInv(s, i, s.threads[i].ok && AllPass(s.threads[i].batch));
      if i == 0 && s1.queue == [] && s1.nTodo == 0 { ReturnIsVerdict(s1); }
      DecideKeepsInv(s1, i);
    case ResumeWait(i) =>
      ResumeKeepsInv(s, i);
      if i == 0 && s.queue == [] && s.nTodo == 0 { ReturnIsVerdict(Resume(s, 0)); }
      DecideKeepsInv(Resume(s, i), i);
    case Spurious(i) =>
  }

  /** In every interleaving, Wait returns true iff every check added since the previous Wait passes. */
  lemma WaitIsExact(states: seq<State>, labels: seq<Label>, k: nat)
    requires IsRun(states, labels) && k + 1 < |states| && Returns(states, k)
    ensures states[k + 1].verdict == Some(AllPass(AddedSince(states, labels, k)))
  {
    RunKeepsInv(states, labels, k);
    SessionIsAdded(states, labels, k);
    assert Step(states[k], labels[k], states[k + 1]);
    StepSession(states[k], labels[k], states[k + 1]);
  }

  /** A new controller always finds the queue idle: its assertion cannot fail. */
  lemma ControllerFindsIdle(states: seq<State>, labels: seq<Label>, k: nat)
    requires IsRun(states, labels) && k < |states| && states[k].threads != [] && states[k].threads[0].Outside?
    ensures states[k].nTotal == states[k].nIdle && states[k].nTodo == 0 && states[k].allOk
  {
    var s := states[k];
    RunKeepsInv(states, labels, k);
    RunFreesMutex(states, labels, k);
    SettledIsIdle(s);
    IdleOnly(s);
  }

  /** With no work left and the mutex free, everyone present is idle. */
  lemma IdleOnly(s: State)
    requires Counts(s) && forall i :: 0 <= i < |s.threads| ==> !s.threads[i].Working? && !s.threads[i].Deciding?
    ensures s.nTotal == s.nIdle
  {
    SumCompare(s.threads, s.threads, IsIdle, IsPresent);
  }

  // ---------- progress ----------

  /** Work still to be moved: bounds the steps that threads can take without new work or spurious wake-ups. */
  function Effort(pc: Pc): nat {
    match pc
    case Outside => 0
    case Adding => 0
    case Fresh => 1
    case Deciding => 1
    case Working(_, _) => 2
    case Asleep => 0
    case Woken => 1
  }

  ghost function Measure(s: State): nat {
    3 * |s.queue| + Sum(s.threads, Effort)
  }

  ghost predicate IsThreadStep(l: Label) {
    l.EnterLoop? || l.FinishBatch? || l.ResumeWait?
  }

  lemma DecideDecreases(s: State, i: nat)
    requires i < |s.threads| && s.threads[i].Deciding? && s.nTotal >= 0 && s.nIdle >= 0
    ensures Measure(Decide(s, i)) < Measure(s)
  {
    var s' := Decide(s, i);
    SumUpdate(s.threads, Effort, i, s'.threads[i]);
    if s.queue != [] {
      assert s'.threads == s.threads[i := s'.threads[i]];
    }
  }

  /** Every critical section a thread executes uses up effort, also the one that wakes the master. */
  lemma ThreadStepDecreases(s: State, l: Label, s': State)
    requires Inv(s) && Step(s, l, s') && IsThreadStep(l)
    ensures Measure(s') < Measure(s)
  {
    match l
    case EnterLoop(i) =>
      SumUpdate(s.threads, Effort, i, Deciding);
      EnterKeepsInv(s, i);
      DecideDecreases(Enter(s, i), i);
    case ResumeWait(i) =>
      SumUpdate(s.threads, Effort, i, Deciding);
      ResumeKeepsInv(s, i);
      DecideDecreases(Resume(s, i), i);
    case FinishBatch(i) =>
      var ok := s.threads[i].ok && AllPass(s.threads[i].batch);
      var s1 := Finish(s, i, ok);
      SumUpdate(s.threads, Effort, i, Deciding);
      FinishKeepsInv(s, i, ok);
      if s1.threads != s.threads[i := Deciding] {
        SumUpdate(s.threads[i := Deciding], Effort, 0, Woken);
      }
      DecideDecreases(s1, i);
  }

  /** The step a thread that is not asleep can take now, carried out with the loops of the program. */
  method Turn(s: State, i: nat) returns (l: Label, s': State)
    requires Inv(s) && i < |s.threads| && (s.threads[i].Fresh? || s.threads[i].Working? || s.threads[i].Woken?)
    ensures IsThreadStep(l) && l.thread == i && Step(s, l, s')
  {
    hide Inv, Step;
    var s1;
    InvNonneg(s);
    match s.threads[i] {
      case Fresh =>
        l, s1 := EnterLoop(i), Enter(s, i);
        EnterKeepsInv(s, i);
      case Working(batch, ok) =>
        var r, _ := RunBatch(batch, ok);
        l, s1 := FinishBatch(i), Finish(s, i, r);
        FinishKeepsInv(s, i, r);
      case Woken =>
        l, s1 := ResumeWait(i), Resume(s, i);
        WokenIsIdle(s, i);
        ResumeKeepsInv(s, i);
    }
    InvNonneg(s1);
    if s1.queue != [] {
      var n := BatchCount(s1);
      var rest, batch := PopBatch(s1.queue, n);
      s' := s1.(queue := rest, threads := s1.threads[i := Working(batch, s1.allOk)]);
    } else {
      s' := Decide(s1, i);
    }
    StepIs(s, l, s1, s', i);
  }

  lemma StepIs(s: State, l: Label, s1: State, s': State, i: nat)
    requires s.threads != [] && s.nTotal >= 0 && s.nIdle >= 0 && s1.nTotal >= 0 && s1.nIdle >= 0
    requires i < |s.threads| && i < |s1.threads| && s' == Decide(s1, i)
    requires || (l == EnterLoop(i) && s.threads[i].Fresh? && s1 == Enter(s, i))
             || (l == FinishBatch(i) && s.threads[i].Working? &&
                 s1 == Finish(s, i, s.threads[i].ok && AllPass(s.threads[i].batch)))
             || (l == ResumeWait(i) && s.threads[i].Woken? && s.nIdle > 0 && s1 == Resume(s, i))
    ensures Step(s, l, s')
  {
  }

  lemma InvNonneg(s: State)
    requires Inv(s)
    ensures s.nTotal >= 0 && s.nIdle >= 0 && s.threads != []
  {
  }

  lemma WokenIsIdle(s: State, i: nat)
    requires Inv(s) && i < |s.threads| && s.threads[i].Woken?
    ensures s.nIdle > 0
  {
    SumAtLeast(s.threads, IsIdle, i);
  }

  /** No wake-up is lost: while the master is in Wait, itself or some other thread can take a step. */
  lemma NoDeadlock(s: State) returns (i: nat)
    requires Inv(s) && MutexFree(s) && !s.threads[0].Outside? && !s.threads[0].Adding?
    ensures i < |s.threads| && (s.threads[i].Fresh? || s.threads[i].Working? || s.threads[i].Woken?)
  {
    if s.threads[0].Asleep? {
      i := SumPositive(s.threads, InHand);
    } else {
      i := 0;
    }
  }

  /** So Wait ends after at most Measure critical sections, however the threads are scheduled. */
  lemma {:induction false} WaitTerminates(states: seq<State>, labels: seq<Label>)
    requires |states| == |labels| + 1 && Inv(states[0])
    requires forall k :: 0 <= k < |labels| ==> IsThreadStep(labels[k])
    requires forall k, k' :: 0 <= k < |labels| && k' == k + 1 ==> Step(states[k], labels[k], states[k'])
    ensures |labels| <= Measure(states[0])
    decreases |labels|
  {
    if labels != [] {
      assert Step(states[0], labels[0], states[1]);
      ThreadStepDecreases(states[0], labels[0], states[1]);
      StepKeepsInv(states[0], labels[0], states[1]);
      forall k, k' | 0 <= k < |labels[1..]| && k' == k + 1
        ensures Step(states[1..][k], labels[1..][k], states[1..][k'])
      {
        assert Step(states[k + 1], labels[k + 1], states[k' + 1]);
      }
      WaitTerminates(states[1..], labels[1..]);
    }
  }

  /** Nothing is left for any thread to do, apart from spurious wake-ups and new work. */
  ghost predicate Quiet(s: State) {
    forall l, s' :: Step(s, l, s') ==> !IsThreadStep(l)
  }

  lemma RunnableSteps(s: State, i: nat)
    requires Inv(s) && i < |s.threads| && (s.threads[i].Fresh? || s.threads[i].Working? || s.threads[i].Woken?)
    ensures !Quiet(s)
  {
    InvNonneg(s);
    match s.threads[i]
    case Fresh =>
      assert Step(s, EnterLoop(i), Decide(Enter(s, i), i));
    case Working(batch, ok) =>
      FinishKeepsInv(s, i, ok && AllPass(batch));
      assert Step(s, FinishBatch(i), Decide(Finish(s, i, ok && AllPass(batch)), i));
    case Woken =>
      WokenIsIdle(s, i);
      assert Step(s, ResumeWait(i), Decide(Resume(s, i), i));
  }

  lemma MasterStays(s: State, l: Label, s': State)
    requires Inv(s) && Step(s, l, s') && IsThreadStep(l) && !s.threads[0].Adding?
    ensures s'.threads != [] && !s'.threads[0].Adding?
  {
  }

  /** Wait returns: once the master is in it, threads can only take boundedly many steps, and when none can take
      another one, however they were scheduled, the master is out of it again. */
  lemma {:induction false} WaitReturns(states: seq<State>, labels: seq<Label>)
    requires |states| == |labels| + 1 && Inv(states[0]) && MutexFree(states[0]) && !states[0].threads[0].Adding?
    requires forall k :: 0 <= k < |labels| ==> IsThreadStep(labels[k])
    requires forall k, k' :: 0 <= k < |labels| && k' == k + 1 ==> Step(states[k], labels[k], states[k'])
    ensures |labels| <= Measure(states[0])
    ensures Quiet(states[|labels|]) ==> states[|labels|].threads != [] && states[|labels|].threads[0].Outside?
    decreases |labels|
  {
    hide Inv, MutexFree, Quiet;
    WaitTerminates(states, labels);
    var s := states[0];
    if labels == [] {
      InvNonneg(s);
      if !s.threads[0].Outside? {
        var i := NoDeadlock(s);
        RunnableSteps(s, i);
      }
    } else {
      assert Step(s, labels[0], states[1]);
      StepKeepsInv(s, labels[0], states[1]);
      StepFreesMutex(s, labels[0], states[1]);
      MasterStays(s, labels[0], states[1]);
      forall k, k' | 0 <= k < |labels[1..]| && k' == k + 1
        ensures Step(states[1..][k], labels[1..][k], states[1..][k'])
      {
        assert Step(states[k + 1], labels[k + 1], states[k' + 1]);
      }
      WaitReturns(states[1..], labels[1..]);
      assert states[1..][|labels| - 1] == states[|labels|];
    }
  }

  // ---------- workers are woken ----------

  ghost function AsleepWorkers(threads: seq<Pc>): set<nat> {
    set i: nat | 0 < i < |threads| && threads[i].Asleep?
  }

  /** Checks in the queue have a worker that will come for them, if there are workers. */
  ghost predicate SomeWorkerUp(s: State) {
    s.queue != [] && |s.threads| > 1 ==> exists i :: 0 < i < |s.threads| && !s.threads[i].Asleep?
  }

  lemma DecideKeepsWorkersUp(s: State, i: nat)
    requires i < |s.threads| && s.nTotal >= 0 && s.nIdle >= 0 && SomeWorkerUp(s)
    ensures SomeWorkerUp(Decide(s, i))
  {
    if s.queue != [] && |s.threads| > 1 {
      var j :| 0 < j < |s.threads| && !s.threads[j].Asleep?;
      assert !Decide(s, i).threads[j].Asleep?;
    }
  }

  lemma StepKeepsWorkersUp(s: State, l: Label, s': State)
    requires Inv(s) && Step(s, l, s') && SomeWorkerUp(s)
    ensures SomeWorkerUp(s')
  {
    hide Decide, Inv, WakeAll;
    if l.Add? {
      AddWakesWorkers(s, l.checks, l.woken, s');
    } else if s.queue != [] && |s.threads| > 1 {
      var j :| 0 < j < |s.threads| && !s.threads[j].Asleep?;
      match l
      case EnterLoop(i) =>
        assert !Enter(s, i).threads[j].Asleep?;
        DecideKeepsWorkersUp(Enter(s, i), i);
      case FinishBatch(i) =>
        var s1 := Finish(s, i, s.threads[i].ok && AllPass(s.threads[i].batch));
        assert !s1.threads[j].Asleep?;
        FinishKeepsInv(s, i, s.threads[i].ok && AllPass(s.threads[i].batch));
        DecideKeepsInv(s1, i);
        DecideKeepsWorkersUp(s1, i);
      case ResumeWait(i) =>
        assert !Resume(s, i).threads[j].Asleep?;
        DecideKeepsWorkersUp(Resume(s, i), i);
      case Open =>
        assert !s'.threads[j].Asleep?;
      case BeginWait =>
        assert !s'.threads[j].Asleep?;
      case Spurious(i) =>
        assert !s'.threads[j].Asleep?;
      case Add(_, _) =>
    } else {
      NoQueueNoNeed(s, l, s');
    }
  }

  /** Only Add puts anything into the queue. */
  lemma NoQueueNoNeed(s: State, l: Label, s': State)
    requires Step(s, l, s') && !l.Add? && (s.queue == [] || |s.threads| <= 1)
    ensures s'.queue == [] || |s'.threads| <= 1
  {
  }

  /** Adding several checks leaves no worker asleep; adding one wakes one worker, if any is asleep, and no other. */
  lemma AddWakesWorkers(s: State, checks: seq<Check>, woken: nat, s': State)
    requires Step(s, Add(checks, woken), s')
    ensures |checks| >= 2 ==> AsleepWorkers(s'.threads) == {}
    ensures |checks| == 1 ==>
              && AsleepWorkers(s'.threads) <= AsleepWorkers(s.threads)
              && |AsleepWorkers(s'.threads)| == (if AsleepWorkers(s.threads) == {} then 0 else |AsleepWorkers(s.threads)| - 1)
    ensures checks == [] ==> s'.threads == s.threads
    ensures |s'.threads| == |s.threads| && forall i :: 0 <= i < |s.threads| && !s.threads[i].Asleep? ==> s'.threads[i] == s.threads[i]
    ensures SomeWorkerUp(s) ==> SomeWorkerUp(s')
  {
    var a, a' := AsleepWorkers(s.threads), AsleepWorkers(s'.threads);
    if |checks| == 1 {
      if a != {} {
        var j: nat :| j in a;
        assert a' == a - {woken} && woken in a;
        assert !s'.threads[woken].Asleep?;
      } else {
        assert s'.threads == s.threads;
      }
    }
    if |s.threads| > 1 && checks != [] {
      if a == {} {
        assert 1 !in a && !s'.threads[1].Asleep?;
      } else if |checks| > 1 {
        assert !s'.threads[1].Asleep?;
      }
    }
  }

  /** In every run: while checks are queued and there are workers, some worker is up, so no wake-up of a worker
      is lost either. */
  lemma {:induction false} QueuedChecksHaveWorkers(states: seq<State>, labels: seq<Label>, k: nat)
    requires IsRun(states, labels) && k < |states|
    ensures states[k].queue != [] && |states[k].threads| > 1 ==>
              exists i :: 0 < i < |states[k].threads| && !states[k].threads[i].Asleep?
    ensures k > 0 && labels[k - 1].Add? && |labels[k - 1].checks| >= 2 ==>
              forall i :: 0 < i < |states[k].threads| ==> !states[k].threads[i].Asleep?
  {
    hide Step, Init;
    if k == 0 {
      assert states[0].queue == [] by { StartsEmpty(states[0]); }
    } else {
      QueuedChecksHaveWorkers(states, labels, k - 1);
      RunKeepsInv(states, labels, k - 1);
      var s, l, s' := states[k - 1], labels[k - 1], states[k];
      assert Step(s, l, s');
      StepKeepsWorkersUp(s, l, s');
      if l.Add? {
        AddWakesWorkers(s, l.checks, l.woken, s');
        assert forall i: nat :: 0 < i < |s'.threads| && s'.threads[i].Asleep? ==> i in AsleepWorkers(s'.threads);
      }
    }
  }

  lemma StartsEmpty(s: State)
    requires Init(s)
    ensures s.queue == []
  {
  }

  /** The batch is as large as it may be: any number of checks up to the batch size that leaves an equal share for
      every thread and idle one is at most what is taken. */
  lemma BatchIsLargest(s: State, k: nat)
    requires s.queue != [] && s.nTotal >= 0 && s.nIdle >= 0
    requires k <= s.batchSize && k * (s.nTotal + s.nIdle + 1) <= |s.queue|
    ensures k <= BatchCount(s)
  {
    var d := s.nTotal + s.nIdle + 1;
    var share := |s.queue| / d;
    if k > share {
      MulMono(share + 1, k, d);
      ShareIsFloor(|s.queue|, d);
    }
  }

  lemma ShareIsFloor(n: nat, d: nat)
    requires d > 0
    ensures n < (n / d + 1) * d
  {
    assert n == n / d * d + n % d;
  }
}
