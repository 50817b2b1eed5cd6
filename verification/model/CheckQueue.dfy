/** The parallel check queue: a master and its workers as one transition system, every step of which is a
    critical section or the execution of one check. */
module CheckQueues {
  datatype Option<T> = None | Some(value: T)

  /** What a failing check reports. */
  type Failure = nat

  /** A check and what executing it yields. */
  datatype Check = Check(id: nat, outcome: Option<Failure>)

  /** Where a thread is in its loop. */
  datatype Thread =
    | Outside
    | Starting
    | Running(local: Option<Failure>)
    | Working(batch: seq<Check>, doWork: bool, executed: nat, local: Option<Failure>)
    | Waiting(local: Option<Failure>, notified: bool)

  /** A finished round: what was added, what became of it, and what the master returned. */
  datatype Round = Round(added: multiset<Check>, executed: multiset<Check>, skipped: multiset<Check>, result: Option<Failure>)

  /** The shared fields, the threads (the master first), and the history. */
  datatype State = State(
    queue: seq<Check>, idle: int, total: int, result: Option<Failure>, todo: int, batchSize: nat,
    threads: seq<Thread>,
    added: multiset<Check>, executed: multiset<Check>, skipped: multiset<Check>, rounds: seq<Round>)

  const MASTER: nat := 0

  datatype Step =
    | Launch(thread: nat)
    | Add(checks: seq<Check>)
    | Complete
    | Execute(thread: nat)
    | Lock(thread: nat)
    | Wake(thread: nat)

  // ----- the code

  function Min(a: int, b: int): int {
    if a < b then a else b
  }

  function Max(a: int, b: int): int {
    if a < b then b else a
  }

  /** How many checks to take from a queue of the given size. */
  function BatchSize(size: nat, limit: nat, total: int, idle: int): (n: int)
    requires size > 0 && total + idle >= 0
    ensures 1 <= n <= size && n <= Max(1, limit)
  {
    Shrinks(size, total + idle + 1);
    Max(1, Min(limit, size / (total + idle + 1)))
  }

  /** A batch is as large as the limit and an equal share for all threads, idle ones counted twice, allow. */
  lemma BatchIsShare(size: nat, limit: nat, total: int, idle: int)
    requires size > 0 && total + idle >= 0
    ensures var n, share := BatchSize(size, limit, total, idle), total + idle + 1;
            (n > 1 ==> n * share <= size) && (n < limit ==> (n + 1) * share > size)
  {
    var n, share := BatchSize(size, limit, total, idle), total + idle + 1;
    var q := size / share;
    Shares(size, share);
    ShareMonotone(n, q, share);
    ShareMonotone(q + 1, n + 1, share);
  }

  lemma Shares(size: nat, share: int)
    requires share > 0
    ensures size / share * share <= size < (size / share + 1) * share
  {
    var q := size / share;
    assert size == q * share + size % share;
    assert (q + 1) * share == q * share + share;
  }

  lemma ShareMonotone(a: int, b: int, share: int)
    requires share > 0
    ensures a <= b ==> a * share <= b * share
  {
    if a <= b {
      assert (b - a) * share >= 0;
    }
  }

  lemma Shrinks(a: nat, b: int)
    requires b > 0
    ensures 0 <= a / b <= a
  {
    NotSmaller(a / b, b);
  }

  lemma NotSmaller(q: nat, b: int)
    requires b > 0
    ensures q * b >= q
  {
  }

  /** All checks of the batch that will be executed were executed. */
  predicate Finished(w: Thread)
    requires w.Working?
  {
    !w.doWork || w.executed >= |w.batch| || (w.executed > 0 && w.local.Some?)
  }

  function SetThread(s: State, t: nat, th: Thread): State
    requires t < |s.threads|
  {
    s.(threads := s.threads[t := th])
  }

  /** Subtracting a batch does not wrap around below zero. */
  predicate CanAccount(s: State, t: nat)
    requires t < |s.threads|
  {
    s.threads[t].Working? ==> s.threads[t].executed <= |s.threads[t].batch| <= s.todo
  }

  /** On getting the lock, account for the finished batch, or for joining the loop. */
  function CleanUp(s: State, t: nat): (r: State)
    requires t < |s.threads| && CanAccount(s, t)
    ensures t < |r.threads| && r.threads[t].Running?
  {
    match s.threads[t]
    case Working(batch, _, executed, local) =>
      var took := local.Some? && s.result.None?;
      var todo := s.todo - |batch|;
      var s1 := SetThread(s, t, Running(if took then None else local)).(
        result := if took then local else s.result,
        todo := todo,
        executed := s.executed + multiset(batch[..executed]),
        skipped := s.skipped + multiset(batch[executed..]));
      if todo == 0 && t != MASTER then NotifyMaster(s1) else s1
    case _ => SetThread(s, t, Running(None)).(total := s.total + 1)
  }

  function NotifyMaster(s: State): State {
    if s.threads != [] && s.threads[MASTER].Waiting?
    then SetThread(s, MASTER, s.threads[MASTER].(notified := true))
    else s
  }

  /** With the lock held, return, wait, or take a batch. */
  function Head(s: State, t: nat): State
    requires t < |s.threads| && s.threads[t].Running? && s.total + s.idle >= 0
  {
    var local := s.threads[t].local;
    if s.queue == [] then
      if t == MASTER && s.todo == 0 then
        var round := Round(s.added, s.executed, s.skipped, s.result);
        SetThread(s, t, Outside).(total := s.total - 1, result := None,
          added := multiset{}, executed := multiset{}, skipped := multiset{}, rounds := s.rounds + [round])
      else SetThread(s, t, Waiting(local, false)).(idle := s.idle + 1)
    else
      var n := BatchSize(|s.queue|, s.batchSize, s.total, s.idle);
      var rest := |s.queue| - n;
      SetThread(s, t, Working(s.queue[rest..], s.result.None?, 0, local)).(queue := s.queue[..rest])
  }

  /** Execute the next check of a batch. */
  function ExecuteNext(s: State, t: nat): State
    requires t < |s.threads| && s.threads[t].Working? && !Finished(s.threads[t])
  {
    var w := s.threads[t];
    SetThread(s, t, w.(executed := w.executed + 1, local := w.batch[w.executed].outcome))
  }

  predicate Enabled(s: State, step: Step) {
    && s.threads != []
    && match step
       case Launch(t) => 0 < t < |s.threads| && s.threads[t].Outside?
       case Add(_) => s.threads[MASTER].Outside?
       case Complete => s.threads[MASTER].Outside?
       case Execute(t) => t < |s.threads| && s.threads[t].Working? && !Finished(s.threads[t])
       case Lock(t) => t < |s.threads| && (s.threads[t].Starting? || (s.threads[t].Working? && Finished(s.threads[t])))
       case Wake(t) => t < |s.threads| && s.threads[t].Waiting?
  }

  /** The state after a step; none if a counter would wrap around or a divisor would not be positive. */
  function Next(s: State, step: Step): Option<State>
    requires Enabled(s, step)
  {
    match step
    case Launch(t) => Some(SetThread(s, t, Starting))
    case Add(checks) =>
      Some(s.(queue := s.queue + checks, todo := s.todo + |checks|, added := s.added + multiset(checks)))
    case Complete => Some(SetThread(s, MASTER, Starting))
    case Execute(t) => Some(ExecuteNext(s, t))
    case Lock(t) =>
      if !CanAccount(s, t) then None
      else var m := CleanUp(s, t); if m.total + m.idle < 0 then None else Some(Head(m, t))
    case Wake(t) =>
      var m := SetThread(s, t, Running(s.threads[t].local)).(idle := s.idle - 1);
      if m.total + m.idle < 0 then None else Some(Head(m, t))
  }

  // ----- sums over the threads

  datatype Kind = Idlers | Members | WorkLeft | Phases

  function Weight(th: Thread, k: Kind): nat {
    match k
    case Idlers => if th.Waiting? then 1 else 0
    case Members => if th.Outside? || th.Starting? then 0 else 1
    case WorkLeft => if th.Working? && th.executed <= |th.batch| then 2 * |th.batch| - th.executed else 0
    case Phases =>
      match th
      case Outside => 3
      case Starting => 2
      case Working(_, _, _, _) => 1
      case Waiting(_, notified) => if notified then 1 else 0
      case Running(_) => 0
  }

  function Sum(threads: seq<Thread>, k: Kind): nat {
    if threads == [] then 0 else Weight(threads[0], k) + Sum(threads[1..], k)
  }

  function Holding(th: Thread): multiset<Check> {
    if th.Working? then multiset(th.batch) else multiset{}
  }

  /** The checks in the threads' batches. */
  function Held(threads: seq<Thread>): multiset<Check> {
    if threads == [] then multiset{} else Holding(threads[0]) + Held(threads[1..])
  }

  lemma {:induction false} SumUpdate(threads: seq<Thread>, t: nat, th: Thread, k: Kind)
    requires t < |threads|
    ensures Sum(threads[t := th], k) == Sum(threads, k) - Weight(threads[t], k) + Weight(th, k)
  {
    var new_ := threads[t := th];
    assert Sum(new_, k) == Weight(new_[0], k) + Sum(new_[1..], k);
    assert Sum(threads, k) == Weight(threads[0], k) + Sum(threads[1..], k);
    if t > 0 {
      SumUpdate(threads[1..], t - 1, th, k);
      assert new_[1..] == threads[1..][t - 1 := th];
    } else {
      assert new_[1..] == threads[1..];
    }
  }

  lemma {:induction false} HeldUpdate(threads: seq<Thread>, t: nat, th: Thread)
    requires t < |threads|
    ensures Holding(threads[t]) <= Held(threads)
    ensures Held(threads[t := th]) == Held(threads) - Holding(threads[t]) + Holding(th)
  {
    hide Holding;
    var new_ := threads[t := th];
    assert Held(new_) == Holding(new_[0]) + Held(new_[1..]);
    if t > 0 {
      HeldUpdate(threads[1..], t - 1, th);
      assert new_[1..] == threads[1..][t - 1 := th];
      Rearranged(Holding(threads[0]), Held(threads[1..]), Holding(threads[t]), Holding(th));
    } else {
      assert new_[1..] == threads[1..];
      Rearranged(multiset{}, Holding(threads[0]) + Held(threads[1..]), Holding(threads[0]), Holding(th));
    }
  }

  lemma Rearranged(a: multiset<Check>, b: multiset<Check>, c: multiset<Check>, d: multiset<Check>)
    requires c <= b
    ensures c <= a + b && a + (b - c + d) == a + b - c + d
  {
  }

  lemma HeldSame(threads: seq<Thread>, t: nat, th: Thread)
    requires t < |threads| && Holding(threads[t]) == Holding(th)
    ensures Held(threads[t := th]) == Held(threads)
  {
    hide Holding, Held;
    HeldUpdate(threads, t, th);
  }

  // ----- the invariant

  /** What a batch looks like while it is worked on. */
  ghost predicate BatchOk(s: State, w: Thread)
    requires w.Working?
  {
    && 1 <= |w.batch| <= Max(1, s.batchSize)
    && w.executed <= |w.batch|
    && (!w.doWork ==> w.executed == 0 && s.result.Some?)
    && (w.executed > 0 ==> w.local == w.batch[w.executed - 1].outcome)
    && (forall k | 0 <= k < w.executed - 1 :: w.batch[k].outcome.None?)
  }

  ghost predicate AllPass(checks: multiset<Check>) {
    forall c | c in checks :: c.outcome.None?
  }

  ghost predicate Reports(checks: multiset<Check>, f: Failure) {
    exists c :: c in checks && c.outcome == Some(f)
  }

  /** Every added check was executed, or skipped because another one failed; the result is a failure of one
      of them, or none exactly if all pass. */
  ghost predicate RoundOk(r: Round) {
    && r.executed + r.skipped == r.added
    && (r.skipped != multiset{} ==> r.result.Some?)
    && (r.result.None? <==> AllPass(r.added))
    && (r.result.Some? ==> Reports(r.added, r.result.value))
  }

  /** Every check is queued, in a batch, or accounted for. */
  ghost predicate Conserved(s: State) {
    && s.todo == |s.queue| + |Held(s.threads)|
    && s.added == multiset(s.queue) + Held(s.threads) + s.executed + s.skipped
  }

  ghost predicate Counted(s: State) {
    s.idle == Sum(s.threads, Idlers) && s.total == Sum(s.threads, Members)
  }

  ghost predicate ResultOk(s: State) {
    match s.result
    case None => AllPass(s.executed) && s.skipped == multiset{}
    case Some(f) => Reports(s.added, f)
  }

  /** A waiting master has nothing to take, and was notified unless something is still to come. */
  ghost predicate MasterOk(s: State)
    requires s.threads != []
  {
    s.threads[MASTER].Waiting? ==> s.queue == [] && (s.threads[MASTER].notified || s.todo > 0)
  }

  ghost predicate Inside(s: State) {
    && s.threads != [] && Conserved(s) && Counted(s) && ResultOk(s)
    && (forall t | 0 <= t < |s.threads| && s.threads[t].Working? :: BatchOk(s, s.threads[t]))
    && (forall r | r in s.rounds :: RoundOk(r))
  }

  ghost predicate Inv(s: State) {
    && Inside(s) && MasterOk(s)
    && (forall t | 0 <= t < |s.threads| :: !s.threads[t].Running?)
  }

  // ----- every step keeps it

  /** A thread that holds nothing, before and after, changes place. */
  function Moved(s: State, t: nat, th: Thread): State
    requires t < |s.threads|
  {
    SetThread(s, t, th).(
      idle := s.idle - Weight(s.threads[t], Idlers) + Weight(th, Idlers),
      total := s.total - Weight(s.threads[t], Members) + Weight(th, Members))
  }

  lemma KeepsMoved(s: State, t: nat, th: Thread)
    requires Inside(s) && t < |s.threads| && !s.threads[t].Working? && !th.Working?
    ensures Inside(Moved(s, t, th))
  {
    hide Sum, Held;
    HeldSame(s.threads, t, th);
    SumUpdate(s.threads, t, th, Idlers);
    SumUpdate(s.threads, t, th, Members);
    var n := Moved(s, t, th);
    forall u | 0 <= u < |n.threads| && n.threads[u].Working? ensures BatchOk(n, n.threads[u]) {
      assert BatchOk(s, s.threads[u]);
    }
  }

  lemma KeepsOutside(s: State, t: nat)
    requires Inv(s) && t < |s.threads| && s.threads[t].Outside?
    ensures Inv(SetThread(s, t, Starting))
  {
    KeepsMoved(s, t, Starting);
    assert Moved(s, t, Starting) == SetThread(s, t, Starting);
  }

  lemma KeepsAdd(s: State, checks: seq<Check>)
    requires Inv(s) && s.threads[MASTER].Outside?
    ensures Inv(s.(queue := s.queue + checks, todo := s.todo + |checks|, added := s.added + multiset(checks)))
  {
    hide Sum, Held;
    var n := s.(queue := s.queue + checks, todo := s.todo + |checks|, added := s.added + multiset(checks));
    if s.result.Some? {
      ReportsMore(s.added, multiset(checks), s.result.value);
    }
    assert multiset(s.queue + checks) == multiset(s.queue) + multiset(checks);
    forall t | 0 <= t < |n.threads| && n.threads[t].Working? ensures BatchOk(n, n.threads[t]) {
      assert BatchOk(s, s.threads[t]);
    }
  }

  lemma ReportsMore(a: multiset<Check>, b: multiset<Check>, f: Failure)
    requires Reports(a, f)
    ensures Reports(a + b, f)
  {
    var c :| c in a && c.outcome == Some(f);
    assert c in a + b;
  }

  lemma KeepsExecute(s: State, t: nat)
    requires Inv(s) && t < |s.threads| && s.threads[t].Working? && !Finished(s.threads[t])
    ensures Inv(ExecuteNext(s, t))
  {
    hide Sum, Held, ResultOk, BatchOk;
    var n := ExecuteNext(s, t);
    assert Conserved(n) && Counted(n) by {
      HeldSame(s.threads, t, n.threads[t]);
      SumUpdate(s.threads, t, n.threads[t], Idlers);
      SumUpdate(s.threads, t, n.threads[t], Members);
    }
    assert ResultOk(n) by {
      SameResult(s, n);
    }
    ExecutedBatch(s, s.threads[t]);
    forall u | 0 <= u < |n.threads| && n.threads[u].Working? ensures BatchOk(n, n.threads[u]) {
      assert u != t ==> BatchOk(s, s.threads[u]);
      SameBatch(s, n, n.threads[u]);
    }
  }

  lemma ExecutedBatch(s: State, w: Thread)
    requires w.Working? && BatchOk(s, w) && !Finished(w)
    ensures BatchOk(s, w.(executed := w.executed + 1, local := w.batch[w.executed].outcome))
  {
  }

  lemma SameBatch(s: State, n: State, w: Thread)
    requires w.Working? && n.result == s.result && n.batchSize == s.batchSize
    ensures BatchOk(n, w) <==> BatchOk(s, w)
  {
  }

  lemma SameResult(s: State, n: State)
    requires ResultOk(s) && n.result == s.result && n.added == s.added && n.executed == s.executed && n.skipped == s.skipped
    ensures ResultOk(n)
  {
  }

  /** In the critical section, the thread that holds the lock is excepted. */
  ghost predicate Mid(s: State, t: nat) {
    && Inside(s) && t < |s.threads| && s.threads[t].Running?
    && (t != MASTER ==> MasterOk(s))
    && (forall u | 0 <= u < |s.threads| && u != t :: !s.threads[u].Running?)
  }

  lemma KeepsStarting(s: State, t: nat)
    requires Inv(s) && t < |s.threads| && s.threads[t].Starting?
    ensures Mid(CleanUp(s, t), t)
  {
    hide Inside;
    KeepsMoved(s, t, Running(None));
    assert Moved(s, t, Running(None)) == CleanUp(s, t);
  }

  lemma KeepsWaking(s: State, t: nat)
    requires Inv(s) && t < |s.threads| && s.threads[t].Waiting?
    ensures Mid(SetThread(s, t, Running(s.threads[t].local)).(idle := s.idle - 1), t)
  {
    hide Inside;
    var th := Running(s.threads[t].local);
    KeepsMoved(s, t, th);
    assert Moved(s, t, th) == SetThread(s, t, th).(idle := s.idle - 1);
  }

  /** A finished batch: every check of it passed, or one of them failed and is reported. */
  lemma FinishedBatch(s: State, w: Thread)
    requires w.Working? && BatchOk(s, w) && Finished(w) && s.result.None?
    ensures w.local.None? ==> w.executed == |w.batch| && AllPass(multiset(w.batch))
    ensures w.local.Some? ==> Reports(multiset(w.batch), w.local.value)
  {
    assert w.executed > 0;
    var last := w.batch[w.executed - 1];
    assert last in w.batch && last in multiset(w.batch);
    if w.local.None? {
      forall c | c in multiset(w.batch) ensures c.outcome.None? {
        var k :| 0 <= k < |w.batch| && w.batch[k] == c;
      }
    }
  }

  /** The state after accounting for a finished batch, but for the notification. */
  function Accounted(s: State, t: nat): State
    requires t < |s.threads| && s.threads[t].Working? && s.threads[t].executed <= |s.threads[t].batch|
  {
    var w := s.threads[t];
    var took := w.local.Some? && s.result.None?;
    SetThread(s, t, Running(if took then None else w.local)).(
      result := if took then w.local else s.result,
      todo := s.todo - |w.batch|,
      executed := s.executed + multiset(w.batch[..w.executed]),
      skipped := s.skipped + multiset(w.batch[w.executed..]))
  }

  lemma AccountedConserves(s: State, t: nat)
    requires Inv(s) && t < |s.threads| && s.threads[t].Working? && s.threads[t].executed <= |s.threads[t].batch|
    ensures Conserved(Accounted(s, t)) && Counted(Accounted(s, t))
  {
    hide Sum, Held, ResultOk, BatchOk, MasterOk;
    var n, w := Accounted(s, t), s.threads[t];
    assert n.threads == s.threads[t := n.threads[t]];
    HeldUpdate(s.threads, t, n.threads[t]);
    SumUpdate(s.threads, t, n.threads[t], Idlers);
    SumUpdate(s.threads, t, n.threads[t], Members);
    BatchParts(w.batch, w.executed);
    MovesOver(multiset(s.queue), Held(s.threads), s.executed, s.skipped, multiset(w.batch[..w.executed]), multiset(w.batch[w.executed..]));
  }

  lemma BatchParts(batch: seq<Check>, k: nat)
    requires k <= |batch|
    ensures multiset(batch) == multiset(batch[..k]) + multiset(batch[k..])
  {
    assert batch == batch[..k] + batch[k..];
  }

  lemma MovesOver(queue: multiset<Check>, held: multiset<Check>, executed: multiset<Check>, skipped: multiset<Check>,
                  a: multiset<Check>, b: multiset<Check>)
    requires a + b <= held
    ensures queue + held + executed + skipped == queue + (held - (a + b) + multiset{}) + (executed + a) + (skipped + b)
    ensures |held - (a + b) + multiset{}| == |held| - |a| - |b|
  {
  }

  lemma MovesIn(queue: multiset<Check>, batch: multiset<Check>, held: multiset<Check>, executed: multiset<Check>, skipped: multiset<Check>)
    ensures queue + batch + held + executed + skipped == queue + (held - multiset{} + batch) + executed + skipped
    ensures |held - multiset{} + batch| == |held| + |batch|
  {
  }

  lemma AccountedResult(s: State, t: nat)
    requires Inv(s) && t < |s.threads| && s.threads[t].Working? && Finished(s.threads[t])
    ensures s.threads[t].executed <= |s.threads[t].batch| && ResultOk(Accounted(s, t))
  {
    hide Sum, Held;
    var w := s.threads[t];
    assert BatchOk(s, w);
    if s.result.None? {
      FinishedBatch(s, w);
      if w.local.Some? {
        HeldUpdate(s.threads, t, Outside);
        var c :| c in multiset(w.batch) && c.outcome == w.local;
        assert c in s.added;
      } else {
        assert w.batch[..w.executed] == w.batch && w.batch[w.executed..] == [];
      }
    }
  }

  lemma Accountable(s: State, t: nat)
    requires Inv(s) && t < |s.threads| && s.threads[t].Working?
    ensures CanAccount(s, t)
  {
    hide Sum, Held;
    assert BatchOk(s, s.threads[t]);
    HeldUpdate(s.threads, t, Outside);
    Smaller(Holding(s.threads[t]), Held(s.threads));
  }

  lemma Smaller(a: multiset<Check>, b: multiset<Check>)
    requires a <= b
    ensures |a| <= |b|
  {
    assert b == a + (b - a);
  }

  lemma KeepsWorking(s: State, t: nat)
    requires Inv(s) && t < |s.threads| && s.threads[t].Working? && Finished(s.threads[t])
    ensures CanAccount(s, t) && Mid(CleanUp(s, t), t)
  {
    hide Conserved, Counted, ResultOk;
    Accountable(s, t);
    AccountedResult(s, t);
    AccountedConserves(s, t);
    var n := Accounted(s, t);
    forall u | 0 <= u < |n.threads| && n.threads[u].Working? ensures BatchOk(n, n.threads[u]) {
      assert BatchOk(s, s.threads[u]);
    }
    assert Inside(n);
    if n.todo == 0 && t != MASTER && n.threads[MASTER].Waiting? {
      var th := n.threads[MASTER].(notified := true);
      KeepsMoved(n, MASTER, th);
      assert Moved(n, MASTER, th) == CleanUp(s, t);
    } else {
      assert n == CleanUp(s, t);
    }
  }

  lemma KeepsReturn(s: State)
    requires Mid(s, MASTER) && s.queue == [] && s.todo == 0
    ensures Inv(Head(s, MASTER))
  {
    hide Sum, Held;
    var n := Head(s, MASTER);
    KeepsMoved(s, MASTER, Outside);
    assert Held(s.threads) == multiset{};
    assert n.threads == Moved(s, MASTER, Outside).threads && n.idle == s.idle && n.total == Moved(s, MASTER, Outside).total;
    RoundEnds(s);
    forall u | 0 <= u < |n.threads| ensures !n.threads[u].Working? {
      if u != MASTER && s.threads[u].Working? {
        assert BatchOk(s, s.threads[u]);
        HeldUpdate(s.threads, u, Outside);
        assert false;
      }
    }
    assert Held(n.threads) == multiset{} by {
      HeldSame(s.threads, MASTER, Outside);
    }
  }

  lemma RoundEnds(s: State)
    requires ResultOk(s) && s.added == s.executed + s.skipped
    ensures RoundOk(Round(s.added, s.executed, s.skipped, s.result))
  {
    if s.result.None? {
      assert s.added == s.executed;
    }
  }

  lemma TakeConserves(s: State, t: nat)
    requires Mid(s, t) && s.queue != [] && s.total + s.idle >= 0
    ensures Conserved(Head(s, t)) && Counted(Head(s, t))
  {
    hide Sum, Held, ResultOk, BatchOk, MasterOk;
    var n := Head(s, t);
    var th := n.threads[t];
    assert n.threads == s.threads[t := th];
    HeldUpdate(s.threads, t, th);
    SumUpdate(s.threads, t, th, Idlers);
    SumUpdate(s.threads, t, th, Members);
    BatchParts(s.queue, |n.queue|);
    assert n.queue == s.queue[..|n.queue|] && th.batch == s.queue[|n.queue|..];
    MovesIn(multiset(n.queue), multiset(th.batch), Held(s.threads), s.executed, s.skipped);
  }

  lemma KeepsTake(s: State, t: nat)
    requires Mid(s, t) && s.queue != [] && s.total + s.idle >= 0
    ensures Inv(Head(s, t))
  {
    hide Conserved, Counted;
    TakeConserves(s, t);
    var n := Head(s, t);
    forall u | 0 <= u < |n.threads| && n.threads[u].Working? ensures BatchOk(n, n.threads[u]) {
      assert u != t ==> BatchOk(s, s.threads[u]);
    }
  }

  lemma KeepsHead(s: State, t: nat)
    requires Mid(s, t) && s.total + s.idle >= 0
    ensures Inv(Head(s, t))
  {
    hide Sum, Held;
    if s.queue != [] {
      KeepsTake(s, t);
    } else if t == MASTER && s.todo == 0 {
      KeepsReturn(s);
    } else {
      var th := Waiting(s.threads[t].local, false);
      KeepsMoved(s, t, th);
      assert Moved(s, t, th) == Head(s, t);
    }
  }

  lemma Positive(s: State)
    requires Counted(s)
    ensures s.total + s.idle >= 0
  {
  }

  /** Every step of every thread is defined and keeps the invariant. */
  lemma StepKeeps(s: State, step: Step)
    requires Inv(s) && Enabled(s, step)
    ensures Next(s, step).Some? && Inv(Next(s, step).value)
  {
    hide Sum, Held, CleanUp, Head, BatchOk, Conserved, ResultOk;
    match step
    case Launch(t) => KeepsOutside(s, t);
    case Add(checks) => KeepsAdd(s, checks);
    case Complete => KeepsOutside(s, MASTER);
    case Execute(t) => KeepsExecute(s, t);
    case Lock(t) =>
      if s.threads[t].Starting? {
        KeepsStarting(s, t);
      } else {
        KeepsWorking(s, t);
      }
      Positive(CleanUp(s, t));
      KeepsHead(CleanUp(s, t), t);
    case Wake(t) =>
      KeepsWaking(s, t);
      var m := SetThread(s, t, Running(s.threads[t].local)).(idle := s.idle - 1);
      Positive(m);
      KeepsHead(m, t);
  }

  /** A batch that was just taken is worked on exactly if no failure is recorded: else it is skipped whole. */
  lemma SkippedAfterFailure(s: State, step: Step, t: nat)
    requires Inv(s) && Enabled(s, step) && (step == Lock(t) || step == Wake(t))
    ensures Next(s, step).Some?
    ensures var n := Next(s, step).value;
            t < |n.threads| && (n.threads[t].Working? ==> (Enabled(n, Execute(t)) <==> n.result.None?))
  {
    hide Sum, Held, Conserved, ResultOk;
    StepKeeps(s, step);
  }

  // ----- whole runs

  datatype Outcome = Reached(state: State) | NotEnabled | Undefined

  function Run(s: State, steps: seq<Step>): Outcome
    decreases |steps|
  {
    if steps == [] then Reached(s)
    else if !Enabled(s, steps[0]) then NotEnabled
    else match Next(s, steps[0])
      case Some(n) => Run(n, steps[1..])
      case None => Undefined
  }

  /** A queue with its master and worker threads, before any of them started. */
  function Init(batchSize: nat, workers: nat): State {
    State([], 0, 0, None, 0, batchSize, seq(workers + 1, _ => Outside), multiset{}, multiset{}, multiset{}, [])
  }

  lemma InitOk(batchSize: nat, workers: nat)
    ensures Inv(Init(batchSize, workers))
  {
    AllOutside(Init(batchSize, workers).threads);
  }

  lemma {:induction false} AllOutside(threads: seq<Thread>)
    requires forall t | 0 <= t < |threads| :: threads[t].Outside?
    ensures Held(threads) == multiset{} && Sum(threads, Idlers) == 0 && Sum(threads, Members) == 0
  {
    if threads != [] {
      AllOutside(threads[1..]);
    }
  }

  lemma {:induction false} RunKeeps(s: State, steps: seq<Step>)
    requires Inv(s)
    ensures !Run(s, steps).Undefined?
    ensures Run(s, steps).Reached? ==> Inv(Run(s, steps).state)
    decreases |steps|
  {
    if steps != [] && Enabled(s, steps[0]) {
      StepKeeps(s, steps[0]);
      RunKeeps(Next(s, steps[0]).value, steps[1..]);
    }
  }

  /** In every interleaving, the counter of unfinished checks is exact, and every finished round returned no
      failure exactly if every check added in it passes, and else the failure of one of them. */
  lemma EveryRunIsCorrect(batchSize: nat, workers: nat, steps: seq<Step>)
    ensures var o := Run(Init(batchSize, workers), steps);
            && !o.Undefined?
            && (o.Reached? ==> o.state.todo == |o.state.queue| + |Held(o.state.threads)|)
            && (o.Reached? ==> forall r | r in o.state.rounds :: RoundOk(r))
            && (o.Reached? ==> forall t | 0 <= t < |o.state.threads| && o.state.threads[t].Working? ::
                  1 <= |o.state.threads[t].batch| <= Max(1, batchSize))
  {
    InitOk(batchSize, workers);
    RunKeeps(Init(batchSize, workers), steps);
    SameLimit(Init(batchSize, workers), steps);
    var o := Run(Init(batchSize, workers), steps);
    if o.Reached? {
      forall t | 0 <= t < |o.state.threads| && o.state.threads[t].Working? ensures 1 <= |o.state.threads[t].batch| <= Max(1, batchSize) {
        assert BatchOk(o.state, o.state.threads[t]);
      }
    }
  }

  lemma {:induction false} SameLimit(s: State, steps: seq<Step>)
    ensures Run(s, steps).Reached? ==> Run(s, steps).state.batchSize == s.batchSize
    decreases |steps|
  {
    if steps != [] && Enabled(s, steps[0]) && Next(s, steps[0]).Some? {
      SameLimit(Next(s, steps[0]).value, steps[1..]);
    }
  }

  // ----- no deadlock

  /** The checks still to take, to execute and to account for. */
  function Work(s: State): nat {
    3 * |s.queue| + Sum(s.threads, WorkLeft)
  }

  lemma HeadWork(s: State, t: nat)
    requires t < |s.threads| && s.threads[t].Running? && s.total + s.idle >= 0
    ensures Work(Head(s, t)) <= Work(s)
    ensures s.queue != [] ==> Work(Head(s, t)) < Work(s)
    ensures |Head(s, t).threads| == |s.threads|
    ensures Head(s, t).rounds == s.rounds || (t == MASTER && |Head(s, t).rounds| == |s.rounds| + 1 && Head(s, t).threads[MASTER].Outside?)
    ensures t != MASTER ==> Head(s, t).threads[MASTER] == s.threads[MASTER]
    ensures Head(s, t).rounds == s.rounds ==> !Head(s, t).threads[t].Outside?
  {
    hide Sum;
    SumUpdate(s.threads, t, Head(s, t).threads[t], WorkLeft);
    assert Head(s, t).threads == s.threads[t := Head(s, t).threads[t]];
  }

  lemma CleanUpWork(s: State, t: nat)
    requires t < |s.threads| && CanAccount(s, t) && s.threads[t].Working? && s.threads[t].batch != []
    ensures Work(CleanUp(s, t)) < Work(s)
    ensures |CleanUp(s, t).threads| == |s.threads| && CleanUp(s, t).rounds == s.rounds
    ensures !s.threads[MASTER].Outside? ==> !CleanUp(s, t).threads[MASTER].Outside?
  {
    hide Sum;
    var n := Accounted(s, t);
    SumUpdate(s.threads, t, n.threads[t], WorkLeft);
    if n.threads[MASTER].Waiting? {
      SumUpdate(n.threads, MASTER, n.threads[MASTER].(notified := true), WorkLeft);
    }
  }

  /** A thread that holds a batch can always do a step, which leaves less work. */
  lemma WorkerProgress(s: State, t: nat) returns (step: Step)
    requires Inv(s) && t < |s.threads| && s.threads[t].Working? && !s.threads[MASTER].Outside?
    ensures Enabled(s, step) && !step.Wake? && !step.Add? && Next(s, step).Some?
    ensures var n := Next(s, step).value;
            Work(n) < Work(s) && (if n.rounds == s.rounds then n.threads != [] && !n.threads[MASTER].Outside? else Returned(s, n))
  {
    hide Sum, Held, Conserved, ResultOk;
    assert BatchOk(s, s.threads[t]);
    if Finished(s.threads[t]) {
      step := Lock(t);
      StepKeeps(s, step);
      CleanUpWork(s, t);
      HeadWork(CleanUp(s, t), t);
    } else {
      step := Execute(t);
      StepKeeps(s, step);
      SumUpdate(s.threads, t, ExecuteNext(s, t).threads[t], WorkLeft);
    }
  }

  ghost predicate Returned(s: State, n: State) {
    |n.rounds| == |s.rounds| + 1 && n.threads != [] && n.threads[MASTER].Outside?
  }

  lemma {:induction false} NoBatches(threads: seq<Thread>)
    requires forall t | 0 <= t < |threads| :: !threads[t].Working?
    ensures Held(threads) == multiset{}
  {
    if threads != [] {
      NoBatches(threads[1..]);
    }
  }

  /** While the master waits without having been notified, some worker holds a batch. */
  lemma WaitingMasterHasWorker(s: State)
    requires Inv(s) && s.threads[MASTER].Waiting? && !s.threads[MASTER].notified
    ensures exists t | 0 < t < |s.threads| :: s.threads[t].Working?
  {
    if forall t | 0 <= t < |s.threads| :: !s.threads[t].Working? {
      NoBatches(s.threads);
    }
  }

  lemma MasterHead(s: State)
    requires s.threads != [] && s.threads[MASTER].Running? && s.total + s.idle >= 0 && (s.queue == [] ==> s.todo == 0)
    ensures var n := Head(s, MASTER);
            Returned(s, n) || (n.rounds == s.rounds && Work(n) < Work(s) && n.threads != [] && !n.threads[MASTER].Outside?)
  {
    hide Work;
    HeadWork(s, MASTER);
  }

  /** When no thread holds a batch, the master is not left waiting: it takes one, or returns. */
  lemma MasterProgress(s: State) returns (step: Step)
    requires Inv(s) && !s.threads[MASTER].Outside? && forall t | 0 <= t < |s.threads| :: !s.threads[t].Working?
    ensures Enabled(s, step) && !step.Add? && Next(s, step).Some?
    ensures step.Wake? ==> step.thread == MASTER && s.threads[MASTER].notified
    ensures var n := Next(s, step).value;
            Returned(s, n) || (n.rounds == s.rounds && Work(n) < Work(s) && n.threads != [] && !n.threads[MASTER].Outside?)
  {
    hide Sum, Held, ResultOk, Head, BatchOk, RoundOk;
    NoBatches(s.threads);
    assert s.todo == |s.queue|;
    if s.threads[MASTER].Starting? {
      step := Lock(MASTER);
      SumUpdate(s.threads, MASTER, Running(None), WorkLeft);
      StepKeeps(s, step);
      MasterHead(CleanUp(s, MASTER));
    } else {
      step := Wake(MASTER);
      SumUpdate(s.threads, MASTER, Running(s.threads[MASTER].local), WorkLeft);
      StepKeeps(s, step);
      MasterHead(SetThread(s, MASTER, Running(s.threads[MASTER].local)).(idle := s.idle - 1));
    }
  }

  /** No step of the run wakes a thread that was not notified, or adds checks. */
  ghost predicate Fair(s: State, steps: seq<Step>)
    decreases |steps|
  {
    steps != [] ==>
      && Enabled(s, steps[0]) && !steps[0].Add? && Next(s, steps[0]).Some?
      && (steps[0].Wake? ==> steps[0].thread == MASTER && s.threads[MASTER].notified)
      && Fair(Next(s, steps[0]).value, steps[1..])
  }

  /** From every state in which the master waits for completion, it can return, without any thread being
      woken that was not notified. */
  lemma {:induction false} MasterCanReturn(s: State) returns (steps: seq<Step>)
    requires Inv(s) && !s.threads[MASTER].Outside?
    ensures Fair(s, steps) && Run(s, steps).Reached? && Returned(s, Run(s, steps).state)
    decreases Work(s)
  {
    hide Work, Inv;
    var step;
    if t :| 0 <= t < |s.threads| && s.threads[t].Working? {
      step := WorkerProgress(s, t);
    } else {
      step := MasterProgress(s);
    }
    StepKeeps(s, step);
    var n := Next(s, step).value;
    if n.rounds != s.rounds {
      steps := [step];
      assert Run(n, []) == Reached(n);
      assert steps[1..] == [];
    } else {
      var rest := MasterCanReturn(n);
      steps := [step] + rest;
      assert steps[1..] == rest;
    }
  }

  // ----- every run returns

  /** The work left, and how far each thread is from waiting for it. */
  function Measure(s: State): nat {
    2 * Work(s) + Sum(s.threads, Phases)
  }

  /** A thread wakes up although it was not notified. */
  predicate Spurious(s: State, step: Step) {
    step.Wake? && step.thread < |s.threads| && s.threads[step.thread].Waiting? && !s.threads[step.thread].notified
  }

  lemma HeadMeasure(s: State, t: nat)
    requires t < |s.threads| && s.threads[t].Running? && s.total + s.idle >= 0 && !s.threads[MASTER].Outside?
    ensures var n := Head(s, t);
            if n.rounds == s.rounds then Measure(n) <= Measure(s) && n.threads != [] && !n.threads[MASTER].Outside?
            else Returned(s, n)
  {
    hide Sum;
    HeadWork(s, t);
    SumUpdate(s.threads, t, Head(s, t).threads[t], Phases);
    assert Head(s, t).threads == s.threads[t := Head(s, t).threads[t]];
  }

  lemma CleanUpMeasure(s: State, t: nat)
    requires t < |s.threads| && CanAccount(s, t) && !s.threads[MASTER].Outside?
    requires s.threads[t].Starting? || (s.threads[t].Working? && s.threads[t].batch != [])
    ensures var m := CleanUp(s, t); Measure(m) < Measure(s) && m.rounds == s.rounds && !m.threads[MASTER].Outside?
  {
    hide Sum;
    if s.threads[t].Starting? {
      SumUpdate(s.threads, t, Running(None), Phases);
      SumUpdate(s.threads, t, Running(None), WorkLeft);
    } else {
      CleanUpWork(s, t);
      var n := Accounted(s, t);
      SumUpdate(s.threads, t, n.threads[t], Phases);
      if n.threads[MASTER].Waiting? {
        SumUpdate(n.threads, MASTER, n.threads[MASTER].(notified := true), Phases);
      }
    }
  }

  lemma WakeMeasure(s: State, t: nat)
    requires t < |s.threads| && s.threads[t].Waiting? && !s.threads[MASTER].Outside?
    ensures var m := SetThread(s, t, Running(s.threads[t].local)).(idle := s.idle - 1);
            && m.rounds == s.rounds && !m.threads[MASTER].Outside?
            && (if s.threads[t].notified then Measure(m) < Measure(s) else Measure(m) == Measure(s))
  {
    hide Sum;
    SumUpdate(s.threads, t, Running(s.threads[t].local), Phases);
    SumUpdate(s.threads, t, Running(s.threads[t].local), WorkLeft);
  }

  /** While the master is inside, every step lowers the measure or makes it return; only a wake-up without a
      notification may leave the measure as it is. */
  lemma StepLowers(s: State, step: Step)
    requires Inv(s) && Enabled(s, step) && !s.threads[MASTER].Outside?
    ensures Next(s, step).Some?
    ensures var n := Next(s, step).value;
            if n.rounds == s.rounds
            then n.threads != [] && !n.threads[MASTER].Outside? && if Spurious(s, step) then Measure(n) <= Measure(s) else Measure(n) < Measure(s)
            else Returned(s, n)
  {
    hide Sum, Held, Measure, CleanUp, Head, Conserved, ResultOk;
    StepKeeps(s, step);
    match step
    case Launch(t) => MovedMeasure(s, t, Starting);
    case Execute(t) => ExecuteMeasure(s, t);
    case Lock(t) =>
      assert s.threads[t].Working? ==> BatchOk(s, s.threads[t]);
      CleanUpMeasure(s, t);
      HeadMeasure(CleanUp(s, t), t);
    case Wake(t) =>
      WakeMeasure(s, t);
      HeadMeasure(SetThread(s, t, Running(s.threads[t].local)).(idle := s.idle - 1), t);
  }

  lemma MovedMeasure(s: State, t: nat, th: Thread)
    requires t < |s.threads| && s.threads[t].Outside? && th.Starting?
    ensures Measure(SetThread(s, t, th)) < Measure(s)
  {
    hide Sum;
    SumUpdate(s.threads, t, th, Phases);
    SumUpdate(s.threads, t, th, WorkLeft);
  }

  lemma ExecuteMeasure(s: State, t: nat)
    requires t < |s.threads| && s.threads[t].Working? && !Finished(s.threads[t])
    ensures Measure(ExecuteNext(s, t)) < Measure(s)
  {
    hide Sum;
    SumUpdate(s.threads, t, ExecuteNext(s, t).threads[t], Phases);
    SumUpdate(s.threads, t, ExecuteNext(s, t).threads[t], WorkLeft);
  }

  /** How many steps of a run are not wake-ups without a notification. */
  function Productive(s: State, steps: seq<Step>): nat
    decreases |steps|
  {
    if steps == [] || !Enabled(s, steps[0]) || Next(s, steps[0]).None? then 0
    else (if Spurious(s, steps[0]) then 0 else 1) + Productive(Next(s, steps[0]).value, steps[1..])
  }

  lemma {:induction false} RoundsGrow(s: State, steps: seq<Step>)
    ensures Run(s, steps).Reached? ==> |s.rounds| <= |Run(s, steps).state.rounds|
    decreases |steps|
  {
    if steps != [] && Enabled(s, steps[0]) && Next(s, steps[0]).Some? {
      RoundsGrow(Next(s, steps[0]).value, steps[1..]);
    }
  }

  /** In every interleaving with the master inside, wake-ups without a notification included, the master has
      returned once more other steps were done than the measure allows. */
  lemma {:induction false} EveryRunReturns(s: State, steps: seq<Step>)
    requires Inv(s) && !s.threads[MASTER].Outside? && Run(s, steps).Reached?
    ensures Productive(s, steps) > Measure(s) ==> |Run(s, steps).state.rounds| > |s.rounds|
    decreases |steps|
  {
    hide Measure, Inv, Spurious;
    if steps != [] {
      StepKeeps(s, steps[0]);
      StepLowers(s, steps[0]);
      var n := Next(s, steps[0]).value;
      if n.rounds == s.rounds {
        EveryRunReturns(n, steps[1..]);
      } else {
        RoundsGrow(n, steps[1..]);
      }
    }
  }

  /** As long as the master has not returned, such a step is possible: no run gets stuck before that. */
  lemma NeverStuck(s: State) returns (step: Step)
    requires Inv(s) && !s.threads[MASTER].Outside?
    ensures Enabled(s, step) && !Spurious(s, step)
  {
    hide Inv, Work;
    if t :| 0 <= t < |s.threads| && s.threads[t].Working? {
      step := WorkerProgress(s, t);
    } else {
      step := MasterProgress(s);
    }
  }
}
