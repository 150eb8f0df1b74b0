/**
 The workers behind the task queue. Several of them take tasks off one queue; each
 replies when it is done. What that does to the order of the replies, and to which
 requests are replied to at all.
 */
module Workers {
  import opened Options

  /**
   Tasks by the order in which they came, from all connections: those in the queue, those
   that a worker has, those replied to in the order of the replies, those taken off an
   overfull queue, and those whose reply found no connection.
   */
  datatype Pool = Pool(
    waiting: seq<nat>,
    running: seq<nat>,
    replied: seq<nat>,
    busy: seq<nat>,
    unlinked: seq<nat>,
    arrived: nat)

  /**
   The next task is queued; a worker takes the first one, and turns it into a busy notice if
   it found the queue too long, which a worker that had to wait does not look at; or a worker
   is done, and its reply is written if there is a connection for it.
   */
  datatype Step = Arrive | Take(full: bool) | Finish(at: nat, linked: bool)

  const EMPTY: Pool := Pool([], [], [], [], [], 0)

  predicate Possible(p: Pool, s: Step, workers: nat, queueMax: nat) {
    match s
    case Arrive => true
    case Take(full) => p.waiting != [] && |p.running| < workers && (full ==> |p.waiting| > queueMax)
    case Finish(at, _) => at < |p.running|
  }

  function Next(p: Pool, s: Step, workers: nat, queueMax: nat): Pool
    requires Possible(p, s, workers, queueMax)
  {
    match s
    case Arrive => p.(waiting := p.waiting + [p.arrived], arrived := p.arrived + 1)
    case Take(full) =>
      if full then p.(waiting := p.waiting[1..], busy := p.busy + [p.waiting[0]])
      else p.(waiting := p.waiting[1..], running := p.running + [p.waiting[0]])
    case Finish(at, linked) =>
      var rest := p.running[..at] + p.running[at + 1..];
      if linked then p.(running := rest, replied := p.replied + [p.running[at]])
      else p.(running := rest, unlinked := p.unlinked + [p.running[at]])
  }

  /** Where a run of steps leads, if each of them is possible in its turn. */
  ghost predicate Leads(p: Pool, steps: seq<Step>, q: Pool, workers: nat, queueMax: nat)
    decreases |steps|
  {
    if steps == [] then p == q
    else Possible(p, steps[0], workers, queueMax) && Leads(Next(p, steps[0], workers, queueMax), steps[1..], q, workers, queueMax)
  }

  // ----- Every task is accounted for -----

  /** How often a task is in a list. */
  function Times(s: seq<nat>, x: nat): nat {
    multiset(s)[x]
  }

  lemma TimesAdded(s: seq<nat>, y: nat, x: nat)
    ensures Times(s + [y], x) == Times(s, x) + if x == y then 1 else 0
    ensures Times([], x) == 0
  {
  }

  lemma TimesRemoved(s: seq<nat>, i: nat, x: nat)
    requires i < |s|
    ensures Times(s[..i] + s[i + 1..], x) + (if x == s[i] then 1 else 0) == Times(s, x)
    ensures i == 0 ==> Times(s[1..], x) + (if x == s[0] then 1 else 0) == Times(s, x)
  {
    assert s == s[..i] + ([s[i]] + s[i + 1..]);
    if i == 0 { assert s[..i] + s[i + 1..] == s[1..]; }
  }

  lemma InTimes(s: seq<nat>, x: nat)
    ensures x in s <==> Times(s, x) > 0
  {
  }

  function Places(p: Pool, x: nat): nat {
    Times(p.waiting, x) + Times(p.running, x) + Times(p.replied, x) + Times(p.busy, x) + Times(p.unlinked, x)
  }

  /** Each task that has arrived is in exactly one place, and no other is anywhere. */
  ghost predicate Accounted(p: Pool) {
    forall x: nat :: Places(p, x) == if x < p.arrived then 1 else 0
  }

  lemma StepPlaces(p: Pool, s: Step, workers: nat, queueMax: nat, x: nat)
    requires Possible(p, s, workers, queueMax)
    ensures Places(Next(p, s, workers, queueMax), x) == Places(p, x) + if s.Arrive? && x == p.arrived then 1 else 0
  {
    hide Times;
    match s
    case Arrive =>
      TimesAdded(p.waiting, p.arrived, x);
    case Take(full) =>
      TimesRemoved(p.waiting, 0, x);
      TimesAdded(p.busy, p.waiting[0], x);
      TimesAdded(p.running, p.waiting[0], x);
    case Finish(at, linked) =>
      TimesRemoved(p.running, at, x);
      TimesAdded(p.replied, p.running[at], x);
      TimesAdded(p.unlinked, p.running[at], x);
  }

  lemma StepAccounts(p: Pool, s: Step, workers: nat, queueMax: nat)
    requires Possible(p, s, workers, queueMax) && Accounted(p)
    ensures Accounted(Next(p, s, workers, queueMax))
  {
    hide Places;
    var q := Next(p, s, workers, queueMax);
    forall x: nat ensures Places(q, x) == if x < q.arrived then 1 else 0 {
      StepPlaces(p, s, workers, queueMax, x);
    }
  }

  lemma {:induction false} RunAccounts(p: Pool, steps: seq<Step>, q: Pool, workers: nat, queueMax: nat)
    requires Leads(p, steps, q, workers, queueMax) && Accounted(p)
    ensures Accounted(q)
    decreases |steps|
  {
    hide Accounted, Possible, Next;
    if steps != [] {
      StepAccounts(p, steps[0], workers, queueMax);
      RunAccounts(Next(p, steps[0], workers, queueMax), steps[1..], q, workers, queueMax);
    }
  }

  lemma NothingYet()
    ensures Accounted(EMPTY)
  {
  }

  predicate Distinct(s: seq<nat>) {
    forall i, j | 0 <= i < j < |s| :: s[i] != s[j]
  }

  lemma OnceOnly(s: seq<nat>)
    requires forall x: nat :: Times(s, x) <= 1
    ensures Distinct(s)
  {
    hide Times;
    forall i, j | 0 <= i < j < |s| ensures s[i] != s[j] {
      TimesRemoved(s, i, s[j]);
      assert (s[..i] + s[i + 1..])[j - 1] == s[j];
      InTimes(s[..i] + s[i + 1..], s[j]);
    }
  }

  /**
   After any run, no task has two replies, and none is replied to that did not arrive or that
   is in another place. Once the pool is idle, every task has its one reply, or was taken off
   an overfull queue, or found no connection for its reply.
   */
  lemma RepliesOnce(steps: seq<Step>, p: Pool, workers: nat, queueMax: nat)
    requires Leads(EMPTY, steps, p, workers, queueMax)
    ensures Distinct(p.replied) && forall k | k in p.replied :: k < p.arrived && k !in p.busy && k !in p.unlinked
    ensures forall k | k in p.busy :: k < p.arrived
    ensures p.waiting == [] && p.running == [] ==>
              forall k: nat | k < p.arrived :: k in p.replied || k in p.busy || k in p.unlinked
  {
    hide Times, Leads;
    NothingYet();
    RunAccounts(EMPTY, steps, p, workers, queueMax);
    forall x: nat
      ensures Times(p.replied, x) <= 1 && (x in p.replied ==> x < p.arrived && x !in p.busy && x !in p.unlinked)
      ensures x in p.busy ==> x < p.arrived
      ensures p.waiting == [] && p.running == [] && x < p.arrived ==> x in p.replied || x in p.busy || x in p.unlinked
    {
      assert Places(p, x) <= 1;
      InTimes(p.replied, x);
      InTimes(p.busy, x);
      InTimes(p.unlinked, x);
      TimesAdded([], x, x);
    }
    OnceOnly(p.replied);
  }

  /** The queue never holds more tasks than have come. */
  predicate Held(p: Pool) {
    |p.waiting| <= p.arrived
  }

  /** While no more tasks have come than the queue may hold, none becomes a busy notice. */
  lemma {:induction false} NoneBusy(p: Pool, steps: seq<Step>, q: Pool, workers: nat, queueMax: nat)
    requires Leads(p, steps, q, workers, queueMax) && Held(p) && q.arrived <= queueMax
    ensures p.arrived <= q.arrived && q.busy == p.busy
    decreases |steps|
  {
    if steps != [] { NoneBusy(Next(p, steps[0], workers, queueMax), steps[1..], q, workers, queueMax); }
  }

  lemma {:induction false} NobodyTakes(p: Pool, steps: seq<Step>, q: Pool, queueMax: nat)
    requires Leads(p, steps, q, 0, queueMax)
    ensures q.busy == p.busy
    decreases |steps|
  {
    if steps != [] { NobodyTakes(Next(p, steps[0], 0, queueMax), steps[1..], q, queueMax); }
  }

  /** The first k tasks have come, and wait. */
  function Waiting(k: nat): Pool {
    Pool(seq(k, i => i), [], [], [], [], k)
  }

  lemma {:induction false} Arrivals(k: nat, n: nat, steps: seq<Step>, q: Pool, workers: nat, queueMax: nat)
    requires k <= n && Leads(Waiting(n), steps, q, workers, queueMax)
    ensures exists all :: Leads(Waiting(k), all, q, workers, queueMax)
    decreases n - k
  {
    hide Leads;
    if k < n {
      Arrivals(k + 1, n, steps, q, workers, queueMax);
      var all :| Leads(Waiting(k + 1), all, q, workers, queueMax);
      assert Next(Waiting(k), Arrive, workers, queueMax).waiting == Waiting(k + 1).waiting;
      LeadsFrom(Waiting(k), Arrive, Waiting(k + 1), all, q, workers, queueMax);
    }
  }

  /** With n tasks that have come, some may be a busy notice exactly when they are more than the queue may hold and somebody takes them. */
  lemma BusyIffOverfull(workers: nat, queueMax: nat, n: nat)
    ensures (exists steps, p :: Leads(EMPTY, steps, p, workers, queueMax) && p.arrived == n && p.busy != [])
            <==> n > queueMax && workers >= 1
  {
    hide Leads;
    if n > queueMax && workers >= 1 {
      var q := Pool(seq(n, i => i)[1..], [], [], [0], [], n);
      NoStep(q, workers, queueMax);
      LeadsFrom(Waiting(n), Take(true), q, [], q, workers, queueMax);
      Arrivals(0, n, [Take(true)] + [], q, workers, queueMax);
      assert Waiting(0) == EMPTY;
      var steps :| Leads(Waiting(0), steps, q, workers, queueMax);
      assert Leads(EMPTY, steps, q, workers, queueMax) && q.busy != [];
    }
    forall steps, p | Leads(EMPTY, steps, p, workers, queueMax) && p.arrived == n && p.busy != [] ensures n > queueMax && workers >= 1 {
      if n <= queueMax { NoneBusy(EMPTY, steps, p, workers, queueMax); }
      if workers == 0 { NobodyTakes(EMPTY, steps, p, queueMax); }
    }
  }

  // ----- The order of the replies -----

  predicate Increasing(s: seq<nat>) {
    forall i, j | 0 <= i < j < |s| :: s[i] < s[j]
  }

  /** What was replied to, what the workers have, and what waits. */
  function Line(p: Pool): seq<nat> {
    p.replied + p.running + p.waiting
  }

  /** With one worker, all of that is in the order of arrival. */
  ghost predicate InLine(p: Pool) {
    |p.running| <= 1 && Increasing(Line(p)) && forall i | 0 <= i < |Line(p)| :: Line(p)[i] < p.arrived
  }

  lemma Appended(s: seq<nat>, n: nat)
    requires Increasing(s) && forall i | 0 <= i < |s| :: s[i] < n
    ensures Increasing(s + [n]) && forall i | 0 <= i < |s + [n]| :: (s + [n])[i] < n + 1
  {
  }

  /** A step of one worker leaves the line as it is, adds the newest task at its end, or takes one out of it. */
  lemma StepLine(p: Pool, s: Step, queueMax: nat)
    requires Possible(p, s, 1, queueMax) && |p.running| <= 1
    ensures var q, n := Next(p, s, 1, queueMax), |p.replied|;
            && |q.running| <= 1 && p.arrived <= q.arrived
            && (s.Arrive? ==> q.arrived == p.arrived + 1 && Line(q) == Line(p) + [p.arrived])
            && (!s.Arrive? ==> Line(q) == Line(p) || (n < |Line(p)| && Line(q) == Line(p)[..n] + Line(p)[n + 1..]))
  {
    var q := Next(p, s, 1, queueMax);
    match s
    case Arrive =>
      assert Line(q) == Line(p) + [p.arrived];
    case Take(full) =>
      assert p.running == [];
      if full { assert Line(q) == Line(p)[..|p.replied|] + Line(p)[|p.replied| + 1..]; } else { assert Line(q) == Line(p); }
    case Finish(at, linked) =>
      assert p.running == [p.running[0]] && p.running[..at] + p.running[at + 1..] == [];
      if linked { assert Line(q) == Line(p); } else { assert Line(q) == Line(p)[..|p.replied|] + Line(p)[|p.replied| + 1..]; }
  }

  lemma StepInLine(p: Pool, s: Step, queueMax: nat)
    requires Possible(p, s, 1, queueMax) && InLine(p)
    ensures InLine(Next(p, s, 1, queueMax))
  {
    hide Line, Next, Possible;
    StepLine(p, s, queueMax);
    if s.Arrive? { Appended(Line(p), p.arrived); }
  }

  lemma {:induction false} RunInLine(p: Pool, steps: seq<Step>, q: Pool, queueMax: nat)
    requires Leads(p, steps, q, 1, queueMax) && InLine(p)
    ensures InLine(q)
    decreases |steps|
  {
    hide InLine, Possible, Next;
    if steps != [] {
      StepInLine(p, steps[0], queueMax);
      RunInLine(Next(p, steps[0], 1, queueMax), steps[1..], q, queueMax);
    }
  }

  lemma SecondDone(workers: nat, queueMax: nat)
    ensures var d := Pool([], [0, 1], [], [], [], 2);
            Possible(d, Finish(1, true), workers, queueMax) && Next(d, Finish(1, true), workers, queueMax) == Pool([], [0], [1], [], [], 2)
  {
  }

  lemma FirstDone(workers: nat, queueMax: nat)
    ensures var e := Pool([], [0], [1], [], [], 2);
            Possible(e, Finish(0, true), workers, queueMax) && Next(e, Finish(0, true), workers, queueMax) == Pool([], [], [1, 0], [], [], 2)
  {
  }

  /** Both workers have a task, and the second is done first. */
  lemma Overtaking(workers: nat, queueMax: nat)
    ensures Leads(Pool([], [0, 1], [], [], [], 2), [Finish(1, true), Finish(0, true)],
                  Pool([], [], [1, 0], [], [], 2), workers, queueMax)
  {
    hide Leads, Next, Possible;
    var d, e, f := Pool([], [0, 1], [], [], [], 2), Pool([], [0], [1], [], [], 2), Pool([], [], [1, 0], [], [], 2);
    SecondDone(workers, queueMax);
    FirstDone(workers, queueMax);
    NoStep(f, workers, queueMax);
    LeadsFrom(e, Finish(0, true), f, [], f, workers, queueMax);
    assert [Finish(0, true)] + [] == [Finish(0, true)];
    LeadsFrom(d, Finish(1, true), e, [Finish(0, true)], f, workers, queueMax);
    assert [Finish(1, true)] + [Finish(0, true)] == [Finish(1, true), Finish(0, true)];
  }

  lemma BothTake(workers: nat, queueMax: nat, steps: seq<Step>, q: Pool)
    requires workers >= 2 && Leads(Pool([], [0, 1], [], [], [], 2), steps, q, workers, queueMax)
    ensures Leads(Pool([0, 1], [], [], [], [], 2), [Take(false)] + ([Take(false)] + steps), q, workers, queueMax)
  {
    var c, d := Pool([1], [0], [], [], [], 2), Pool([], [0, 1], [], [], [], 2);
    hide Leads;
    LeadsFrom(c, Take(false), d, steps, q, workers, queueMax);
    LeadsFrom(Pool([0, 1], [], [], [], [], 2), Take(false), c, [Take(false)] + steps, q, workers, queueMax);
  }

  lemma BothArrive(workers: nat, queueMax: nat, steps: seq<Step>, q: Pool)
    requires Leads(Pool([0, 1], [], [], [], [], 2), steps, q, workers, queueMax)
    ensures Leads(EMPTY, [Arrive] + ([Arrive] + steps), q, workers, queueMax)
  {
    var a, b := Pool([0], [], [], [], [], 1), Pool([0, 1], [], [], [], [], 2);
    hide Leads;
    LeadsFrom(a, Arrive, b, steps, q, workers, queueMax);
    LeadsFrom(EMPTY, Arrive, a, [Arrive] + steps, q, workers, queueMax);
  }

  const OVERTAKING: seq<Step> := [Arrive, Arrive, Take(false), Take(false), Finish(1, true), Finish(0, true)]

  /** Two workers: the second task is replied to before the first. */
  lemma Overtaken(workers: nat, queueMax: nat)
    requires workers >= 2
    ensures Leads(EMPTY, OVERTAKING, Pool([], [], [1, 0], [], [], 2), workers, queueMax)
  {
    hide Leads;
    var steps, last := [Finish(1, true), Finish(0, true)], Pool([], [], [1, 0], [], [], 2);
    Overtaking(workers, queueMax);
    BothTake(workers, queueMax, steps, last);
    BothArrive(workers, queueMax, [Take(false)] + ([Take(false)] + steps), last);
    assert OVERTAKING == [Arrive] + ([Arrive] + ([Take(false)] + ([Take(false)] + steps)));
  }

  lemma NoStep(p: Pool, workers: nat, queueMax: nat)
    ensures Leads(p, [], p, workers, queueMax)
  {
  }

  lemma LeadsFrom(p: Pool, s: Step, q: Pool, steps: seq<Step>, r: Pool, workers: nat, queueMax: nat)
    requires Possible(p, s, workers, queueMax) && Next(p, s, workers, queueMax) == q && Leads(q, steps, r, workers, queueMax)
    ensures Leads(p, [s] + steps, r, workers, queueMax)
  {
    assert ([s] + steps)[1..] == steps;
  }

  lemma {:induction false} NoWorkers(p: Pool, steps: seq<Step>, q: Pool, queueMax: nat)
    requires Leads(p, steps, q, 0, queueMax) && p.running == []
    ensures q.replied == p.replied
    decreases |steps|
  {
    if steps != [] { NoWorkers(Next(p, steps[0], 0, queueMax), steps[1..], q, queueMax); }
  }

  lemma InOrder(steps: seq<Step>, p: Pool, queueMax: nat)
    requires Leads(EMPTY, steps, p, 1, queueMax)
    ensures Increasing(p.replied)
  {
    hide Leads;
    RunInLine(EMPTY, steps, p, queueMax);
    assert forall i | 0 <= i < |p.replied| :: p.replied[i] == Line(p)[i];
  }

  /** Replies are certain to come in the order of the tasks exactly when there is at most one worker. */
  lemma InOrderIffOneWorker(workers: nat, queueMax: nat)
    ensures (forall steps, p | Leads(EMPTY, steps, p, workers, queueMax) :: Increasing(p.replied)) <==> workers <= 1
  {
    hide Leads;
    if workers >= 2 {
      Overtaken(workers, queueMax);
      var p := Pool([], [], [1, 0], [], [], 2);
      assert Leads(EMPTY, OVERTAKING, p, workers, queueMax);
      assert p.replied[0] == 1 && p.replied[1] == 0;
      assert !Increasing(p.replied);
    } else {
      forall steps, p | Leads(EMPTY, steps, p, workers, queueMax) ensures Increasing(p.replied) {
        if workers == 1 { InOrder(steps, p, queueMax); } else { NoWorkers(EMPTY, steps, p, queueMax); }
      }
    }
  }

  // ----- The replies of one connection -----

  function Place(mine: seq<nat>, x: nat): (k: Option<nat>)
    ensures k.Some? ==> k.value < |mine| && mine[k.value] == x
    ensures k.None? ==> x !in mine
  {
    if mine == [] then None
    else if mine[0] == x then Some(0)
    else
      match Place(mine[1..], x)
      case None => None
      case Some(k) => Some(k + 1)
  }

  /** The replies that are this connection's, by the place of their tasks in its own stream. */
  function Own(replied: seq<nat>, mine: seq<nat>): (order: seq<nat>)
    ensures forall j | 0 <= j < |order| :: order[j] < |mine| && mine[order[j]] in replied
  {
    if replied == [] then []
    else (if Place(mine, replied[0]).Some? then [Place(mine, replied[0]).value] else []) + Own(replied[1..], mine)
  }

  lemma {:induction false} OwnAll(replied: seq<nat>, mine: seq<nat>, k: nat)
    requires Distinct(mine) && k < |mine| && mine[k] in replied
    ensures k in Own(replied, mine)
  {
    if replied[0] != mine[k] { OwnAll(replied[1..], mine, k); }
  }

  lemma {:induction false} OwnDistinct(replied: seq<nat>, mine: seq<nat>)
    requires Distinct(replied)
    ensures Distinct(Own(replied, mine))
  {
    if replied != [] {
      OwnDistinct(replied[1..], mine);
      var rest := Own(replied[1..], mine);
      assert replied[0] !in replied[1..];
      assert Place(mine, replied[0]).Some? ==> forall j | 0 <= j < |rest| :: rest[j] != Place(mine, replied[0]).value;
    }
  }

  lemma Before(replied: seq<nat>, mine: seq<nat>, k: nat, i: nat)
    requires Increasing(replied) && Increasing(mine) && replied != []
    requires k < |mine| && mine[k] == replied[0] && i < |mine| && mine[i] in replied[1..]
    ensures k < i
  {
    var n :| 0 <= n < |replied[1..]| && replied[1..][n] == mine[i];
    assert replied[0] < replied[n + 1];
  }

  /** Replies in the order of the tasks are in the order of each connection's own requests. */
  lemma {:induction false} OwnIncreasing(replied: seq<nat>, mine: seq<nat>)
    requires Increasing(replied) && Increasing(mine)
    ensures Increasing(Own(replied, mine))
  {
    hide Place;
    if replied != [] {
      OwnIncreasing(replied[1..], mine);
      var rest, place := Own(replied[1..], mine), Place(mine, replied[0]);
      if place.Some? {
        forall j | 0 <= j < |rest| ensures place.value < rest[j] { Before(replied, mine, place.value, rest[j]); }
        assert Own(replied, mine) == [place.value] + rest;
      } else {
        assert Own(replied, mine) == rest;
      }
    }
  }
}
