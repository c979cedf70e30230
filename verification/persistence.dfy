// Models src/app/persistence.rs: one writer thread behind a mutex and a
// condition variable. Each step below is one critical section, one write run
// outside the lock, or one wake-up; submissions are numbered in order.
module Persistence {
  import opened Options

  /** Where the writer thread stands between two atomic steps. */
  datatype Worker =
    | Checking
    | Sleeping(woken: bool)
    | Running(key: string, write: nat)
    | Settling(key: string, failed: bool)
    | Done

  datatype State = State(
    pending: map<string, nat>,
    active: Option<string>,
    errors: seq<string>,
    stop: bool,
    notified: bool,
    worker: Worker,
    // History: the key of every submission, the writes run, the keys of failed
    // writes, and the errors handed out.
    submitted: seq<string>,
    executed: seq<nat>,
    failures: seq<string>,
    taken: seq<string>
  )

  datatype Step =
    | Submit(key: string)
    | TakeErrors
    | SetStop
    | Notify
    | Wake
    | Check(first: string)
    | Execute(ok: bool)
    | Settle

  // ---------------------------------------------------------------------
  // Key order: the map hands out its least key
  // ---------------------------------------------------------------------

  predicate Less(a: string, b: string) {
    if b == [] then false
    else if a == [] then true
    else a[0] < b[0] || (a[0] == b[0] && Less(a[1..], b[1..]))
  }

  lemma {:induction false} LessTotal(a: string, b: string)
    ensures !Less(a, a)
    ensures a == b || Less(a, b) || Less(b, a)
    ensures !(Less(a, b) && Less(b, a))
  {
    if a != [] {
      LessTotal(a[1..], if b == [] then [] else b[1..]);
      if b != [] && a[0] == b[0] && a[1..] == b[1..] {
        assert a == [a[0]] + a[1..] && b == [b[0]] + b[1..];
      }
    }
  }

  lemma {:induction false} LessTransitive(a: string, b: string, c: string)
    requires Less(a, b) && Less(b, c)
    ensures Less(a, c)
  {
    if a != [] && a[0] == b[0] && b[0] == c[0] {
      LessTransitive(a[1..], b[1..], c[1..]);
    }
  }

  predicate IsFirst(pending: map<string, nat>, key: string) {
    key in pending && forall k :: k in pending ==> k == key || Less(key, k)
  }

  /** The least key, found by a scan. */
  method LeastKey(pending: map<string, nat>) returns (key: string)
    requires pending != map[]
    ensures IsFirst(pending, key)
  {
    var rest := pending.Keys;
    key :| key in rest;
    rest := rest - {key};
    while rest != {}
      invariant rest <= pending.Keys && key in pending
      invariant forall k :: k in pending && k !in rest ==> k == key || Less(key, k)
      decreases |rest|
    {
      var k :| k in rest;
      LessTotal(k, key);
      if Less(k, key) {
        forall j | j in pending && j !in rest && j != key
          ensures Less(k, j)
        {
          LessTransitive(k, key, j);
        }
        key := k;
      }
      rest := rest - {k};
    }
  }

  ghost predicate LeastOf(keys: set<string>, key: string) {
    key in keys && forall k :: k in keys ==> k == key || Less(key, k)
  }

  lemma FirstExists(pending: map<string, nat>)
    requires pending != map[]
    ensures exists key :: IsFirst(pending, key)
  {
    var key := LeastExists(pending.Keys);
    assert IsFirst(pending, key);
  }

  lemma {:induction false} LeastExists(keys: set<string>) returns (key: string)
    requires keys != {}
    ensures LeastOf(keys, key)
    decreases |keys|
  {
    key :| key in keys;
    if keys == {key} {
    } else {
      var rest := LeastExists(keys - {key});
      LessTotal(key, rest);
      if Less(key, rest) {
        StillLeast(keys - {key}, rest, key);
      } else {
        key := rest;
      }
    }
  }

  lemma StillLeast(keys: set<string>, least: string, key: string)
    requires LeastOf(keys, least) && Less(key, least)
    ensures forall k :: k in keys ==> Less(key, k)
  {
    forall k | k in keys
      ensures Less(key, k)
    {
      if k != least {
        LessTransitive(key, least, k);
      }
    }
  }

  // ---------------------------------------------------------------------
  // The steps
  // ---------------------------------------------------------------------

  function Initial(): State {
    State(map[], None, [], false, false, Checking, [], [], [], [])
  }

  /** Dropping the handle ends submissions; only then may the stop flag be announced. */
  predicate Enabled(s: State, step: Step) {
    match step
    case Submit(_) => !s.stop
    case TakeErrors => !s.stop
    case SetStop => !s.stop
    case Notify => s.stop && !s.notified
    case Wake => s.worker.Sleeping?
    case Check(first) => s.worker.Checking? && (s.pending != map[] ==> IsFirst(s.pending, first))
    case Execute(_) => s.worker.Running?
    case Settle => s.worker.Settling?
  }

  function Woken(w: Worker): Worker {
    if w.Sleeping? then Sleeping(true) else w
  }

  function Next(s: State, step: Step): State
    requires Enabled(s, step)
  {
    match step
    case Submit(key) =>
      s.(pending := s.pending[key := |s.submitted|], submitted := s.submitted + [key], worker := Woken(s.worker))
    case TakeErrors => s.(errors := [], taken := s.taken + s.errors)
    case SetStop => s.(stop := true)
    case Notify => s.(notified := true, worker := Woken(s.worker))
    case Wake => s.(worker := Checking)
    case Check(first) =>
      if s.pending == map[] then s.(worker := if s.stop then Done else Sleeping(false))
      else s.(worker := Running(first, s.pending[first]), active := Some(first), pending := s.pending - {first})
    case Execute(ok) =>
      s.(worker := Settling(s.worker.key, !ok), executed := s.executed + [s.worker.write],
         failures := if ok then s.failures else s.failures + [s.worker.key])
    case Settle =>
      s.(worker := Checking, active := None,
         errors := if s.worker.failed then s.errors + [s.worker.key] else s.errors)
  }

  ghost predicate Legal(s: State, steps: seq<Step>)
    decreases |steps|, 0
  {
    steps == [] || (Legal(s, steps[..|steps| - 1]) && Enabled(Run(s, steps[..|steps| - 1]), steps[|steps| - 1]))
  }

  ghost function Run(s: State, steps: seq<Step>): State
    requires Legal(s, steps)
    decreases |steps|, 1
  {
    if steps == [] then s else Next(Run(s, steps[..|steps| - 1]), steps[|steps| - 1])
  }

  ghost predicate Reachable(s: State) {
    exists steps :: Legal(Initial(), steps) && Run(Initial(), steps) == s
  }

  // ---------------------------------------------------------------------
  // The critical sections in place
  // ---------------------------------------------------------------------

  /** The shared queue; `worker` is the thread's position and the ghost fields are its history. */
  class Writer {
    var pending: map<string, nat>
    var active: Option<string>
    var errors: seq<string>
    var stop: bool
    var worker: Worker
    ghost var notified: bool
    ghost var submitted: seq<string>
    ghost var executed: seq<nat>
    ghost var failures: seq<string>
    ghost var taken: seq<string>
    var ticket: nat

    ghost function Now(): State
      reads this
    {
      State(pending, active, errors, stop, notified, worker, submitted, executed, failures, taken)
    }

    ghost predicate Valid()
      reads this
    {
      Inv(Now()) && ticket == |submitted|
    }

    constructor ()
      ensures Valid() && Now() == Initial()
    {
      pending, active, errors, stop, worker := map[], None, [], false, Checking;
      notified, submitted, executed, failures, taken := false, [], [], [], [];
      ticket := 0;
    }

    method WakeOne()
      modifies this`worker
      ensures worker == Woken(old(worker))
    {
      if worker.Sleeping? {
        worker := Sleeping(true);
      }
    }

    method SubmitWrite(key: string)
      requires Valid() && !stop
      modifies this
      ensures Valid() && Now() == Next(old(Now()), Submit(key))
      ensures pending == old(pending)[key := |old(submitted)|] && submitted == old(submitted) + [key]
      ensures active == old(active) && errors == old(errors) && !stop && executed == old(executed)
      ensures worker == if old(worker).Sleeping? then Sleeping(true) else old(worker)
    {
      StepKeepsInv(Now(), Submit(key));
      pending := pending[key := ticket];
      submitted, ticket := submitted + [key], ticket + 1;
      WakeOne();
    }

    method Idle() returns (idle: bool)
      requires Valid()
      ensures idle ==> forall t :: IsLatest(submitted, t) ==> LastForKey(Now(), t)
      ensures idle <==> pending == map[] && !worker.Running? && !worker.Settling?
    {
      idle := pending == map[] && active.None?;
      if idle {
        IdleMeansSaved(Now());
      }
    }

    method CollectErrors() returns (out: seq<string>)
      requires Valid() && !stop
      modifies this
      ensures Valid() && Now() == Next(old(Now()), TakeErrors) && out == old(errors)
      ensures errors == [] && taken == old(taken) + out
      ensures pending == old(pending) && active == old(active) && !stop && worker == old(worker)
    {
      StepKeepsInv(Now(), TakeErrors);
      out := errors;
      errors, taken := [], taken + errors;
    }

    /** Dropping the handle: raise the flag under the lock, then signal outside it. */
    method Drop()
      requires Valid() && !stop
      modifies this
      ensures Valid() && Now() == Next(Next(old(Now()), SetStop), Notify)
      ensures stop && notified && worker == if old(worker).Sleeping? then Sleeping(true) else old(worker)
      ensures pending == old(pending) && active == old(active) && errors == old(errors)
    {
      StepKeepsInv(Now(), SetStop);
      stop := true;
      StepKeepsInv(Now(), Notify);
      notified := true;
      WakeOne();
    }

    method Awake()
      requires Valid() && worker.Sleeping?
      modifies this
      ensures Valid() && Now() == Next(old(Now()), Wake) && Now() == old(Now()).(worker := Checking)
    {
      StepKeepsInv(Now(), Wake);
      worker := Checking;
    }

    /** The worker's critical section before a write. */
    method Inspect() returns (ghost first: string)
      requires Valid() && worker.Checking?
      modifies this
      ensures old(Enabled(Now(), Check(first))) && Valid() && Now() == Next(old(Now()), Check(first))
      ensures old(pending) == map[] ==> Now() == old(Now()).(worker := if stop then Done else Sleeping(false))
      ensures old(pending) != map[] ==>
                && first in old(pending) && (forall k :: k in old(pending) ==> k == first || Less(first, k))
                && worker == Running(first, old(pending)[first]) && active == Some(first)
                && pending == old(pending) - {first} && errors == old(errors) && stop == old(stop)
                && executed == old(executed) && submitted == old(submitted)
    {
      first := "";
      if pending == map[] {
        StepKeepsInv(Now(), Check(first));
        worker := if stop then Done else Sleeping(false);
      } else {
        var key := LeastKey(pending);
        first := key;
        StepKeepsInv(Now(), Check(first));
        worker, active, pending := Running(key, pending[key]), Some(key), pending - {key};
      }
    }

    /** The write itself, with no lock held. */
    method RunWrite(ok: bool)
      requires Valid() && worker.Running?
      modifies this
      ensures Valid() && Now() == Next(old(Now()), Execute(ok))
      ensures executed == old(executed) + [old(worker).write] && worker == Settling(old(worker).key, !ok)
      ensures failures == (if ok then old(failures) else old(failures) + [old(worker).key])
      ensures pending == old(pending) && active == old(active) && errors == old(errors) && stop == old(stop)
    {
      StepKeepsInv(Now(), Execute(ok));
      executed := executed + [worker.write];
      failures := if ok then failures else failures + [worker.key];
      worker := Settling(worker.key, !ok);
    }

    /** The worker's critical section after a write. */
    method Finish()
      requires Valid() && worker.Settling?
      modifies this
      ensures Valid() && Now() == Next(old(Now()), Settle)
      ensures worker == Checking && active == None
      ensures errors == (if old(worker).failed then old(errors) + [old(worker).key] else old(errors))
      ensures pending == old(pending) && stop == old(stop) && executed == old(executed)
    {
      StepKeepsInv(Now(), Settle);
      active := None;
      if worker.failed {
        errors := errors + [worker.key];
      }
      worker := Checking;
    }

    /** The thread's loop once stop is announced: everything queued is written, in key order, and it ends. */
    method Drain(succeeds: nat -> bool)
      requires Valid() && stop && notified
      modifies this
      ensures Valid() && worker.Done? && pending == map[] && active.None?
      ensures executed == old(Future(Now())) && submitted == old(submitted)
      ensures Increasing(executed) <==> old(InOrderSoFar(Now()))
      ensures forall t :: IsLatest(submitted, t) ==> LastForKey(Now(), t)
    {
      ghost var future := Future(Now());
      FutureInOrderIff(Now());
      hide Inv, Future, Measure, Increasing, InOrderSoFar;
      while !worker.Done?
        invariant Valid() && stop && notified && submitted == old(submitted)
        invariant Future(Now()) == future
        decreases Measure(Now())
      {
        ghost var was, step := Now(), Settle;
        match worker {
          case Sleeping(_) =>
            Awake();
            step := Wake;
          case Checking =>
            ghost var first := Inspect();
            step := Check(first);
          case Running(_, write) =>
            RunWrite(succeeds(write));
            step := Execute(succeeds(write));
          case Settling(_, _) =>
            Finish();
        }
        assert Now() == Next(was, step);
        StopDrains(was, step);
        WorkKeepsFuture(was, step);
      }
      DoneMeansSaved(Now());
    }
  }

  // ---------------------------------------------------------------------
  // What every run keeps
  // ---------------------------------------------------------------------

  ghost predicate IsLatest(submitted: seq<string>, t: nat) {
    t < |submitted| && forall j :: t < j < |submitted| ==> submitted[j] != submitted[t]
  }

  /** Every write begun, in order. */
  function Started(s: State): seq<nat> {
    if s.worker.Running? then s.executed + [s.worker.write] else s.executed
  }

  /** Submissions a and b may begin in this order: if they share a key, a is the earlier. */
  predicate InOrder(submitted: seq<string>, a: nat, b: nat) {
    a < |submitted| && b < |submitted| && (submitted[a] == submitted[b] ==> a < b)
  }

  /** The key's queued write, if there is one, was submitted after t. */
  predicate QueuedLater(s: State, t: nat) {
    t < |s.submitted| && (s.submitted[t] in s.pending ==> t < s.pending[s.submitted[t]])
  }

  ghost predicate QueuedIsLatest(s: State, key: string)
    requires key in s.pending
  {
    IsLatest(s.submitted, s.pending[key]) && s.submitted[s.pending[key]] == key
  }

  ghost predicate Tickets(s: State) {
    && (s.worker.Running? ==> s.worker.write < |s.submitted| && s.submitted[s.worker.write] == s.worker.key)
    && (forall k :: k in s.pending ==> QueuedIsLatest(s, k))
  }

  /** Writes of one key begin in submission order, each at most once, and the queued one is still to come. */
  ghost predicate PerKeyOrder(s: State) {
    && (forall i, j :: 0 <= i < j < |Started(s)| ==> InOrder(s.submitted, Started(s)[i], Started(s)[j]))
    && (forall t :: t in Started(s) ==> QueuedLater(s, t))
  }

  ghost predicate Handled(s: State, t: nat)
    requires t < |s.submitted|
  {
    (s.submitted[t] in s.pending && s.pending[s.submitted[t]] == t) || t in Started(s)
  }

  ghost predicate LatestHandled(s: State) {
    forall t :: IsLatest(s.submitted, t) ==> Handled(s, t)
  }

  /** At most one write is under way, and `active` names it. */
  ghost predicate OneActive(s: State) {
    s.active == if s.worker.Running? || s.worker.Settling? then Some(s.worker.key) else None
  }

  /** The worker never sleeps with work queued or stop announced unless a wake-up is on its way. */
  ghost predicate NoLostWakeup(s: State) {
    && (s.worker == Sleeping(false) ==> s.pending == map[] && !s.notified)
    && (s.notified ==> s.stop)
    && (s.worker.Done? ==> s.stop && s.pending == map[])
  }

  /** Every failed write is reported once, in order. */
  ghost predicate ErrorsKept(s: State) {
    s.failures ==
    s.taken + s.errors + if s.worker.Settling? && s.worker.failed then [s.worker.key] else []
  }

  ghost predicate Inv(s: State) {
    Tickets(s) && PerKeyOrder(s) && LatestHandled(s) && OneActive(s) && NoLostWakeup(s) && ErrorsKept(s)
  }

  lemma SubmitKeepsInv(s: State, key: string)
    requires Inv(s) && !s.stop
    ensures Inv(Next(s, Submit(key)))
  {
    var n := Next(s, Submit(key));
    assert Started(n) == Started(s);
    assert forall t :: 0 <= t < |s.submitted| ==> n.submitted[t] == s.submitted[t];
    assert Tickets(n) by {
      forall k | k in n.pending
        ensures QueuedIsLatest(n, k)
      {
        assert k != key ==> QueuedIsLatest(s, k);
      }
    }
    assert PerKeyOrder(n) by {
      forall i, j | 0 <= i < j < |Started(n)|
        ensures InOrder(n.submitted, Started(n)[i], Started(n)[j])
      {
        assert InOrder(s.submitted, Started(s)[i], Started(s)[j]);
      }
      forall t | t in Started(n)
        ensures QueuedLater(n, t)
      {
        assert QueuedLater(s, t);
      }
    }
    assert LatestHandled(n) by {
      forall t: nat | IsLatest(n.submitted, t)
        ensures Handled(n, t)
      {
        if t < |s.submitted| {
          assert n.submitted[|s.submitted|] == key;
          assert IsLatest(s.submitted, t) && Handled(s, t);
        }
      }
    }
  }

  lemma CheckKeepsInv(s: State, first: string)
    requires Inv(s) && Enabled(s, Check(first))
    ensures Inv(Next(s, Check(first)))
  {
    var n := Next(s, Check(first));
    if s.pending == map[] {
      assert Started(n) == Started(s);
      assert LatestHandled(n) by {
        assert forall t :: IsLatest(s.submitted, t) ==> Handled(s, t) && Handled(n, t);
      }
    } else {
      var next := s.pending[first];
      assert Started(n) == Started(s) + [next];
      assert QueuedIsLatest(s, first);
      assert Tickets(n) by {
        assert forall k :: k in n.pending ==> QueuedIsLatest(s, k) && QueuedIsLatest(n, k);
      }
      assert PerKeyOrder(n) by {
        forall i, j | 0 <= i < j < |Started(n)|
          ensures InOrder(n.submitted, Started(n)[i], Started(n)[j])
        {
          assert Started(n)[i] == Started(s)[i] && Started(s)[i] in Started(s);
          assert QueuedLater(s, Started(s)[i]);
        }
        forall t | t in Started(n)
          ensures QueuedLater(n, t)
        {
          assert t in Started(s) ==> QueuedLater(s, t);
        }
      }
      assert LatestHandled(n) by {
        forall t: nat | IsLatest(n.submitted, t)
          ensures Handled(n, t)
        {
          assert Handled(s, t);
        }
      }
    }
  }

  lemma StepKeepsInv(s: State, step: Step)
    requires Inv(s) && Enabled(s, step)
    ensures Inv(Next(s, step))
  {
    match step
    case Submit(key) => SubmitKeepsInv(s, key);
    case Check(first) => CheckKeepsInv(s, first);
    case TakeErrors => QuietKeepsInv(s, step);
    case SetStop => QuietKeepsInv(s, step);
    case Notify => QuietKeepsInv(s, step);
    case Wake => QuietKeepsInv(s, step);
    case Execute(_) => QuietKeepsInv(s, step);
    case Settle => QuietKeepsInv(s, step);
  }

  lemma QuietKeepsInv(s: State, step: Step)
    requires Inv(s) && Enabled(s, step) && !step.Submit? && !step.Check?
    ensures Inv(Next(s, step))
  {
    var n := Next(s, step);
    assert Started(n) == Started(s);
    assert n.pending == s.pending && n.submitted == s.submitted;
    assert LatestHandled(n) by {
      forall t: nat | IsLatest(n.submitted, t)
        ensures Handled(n, t)
      {
        assert Handled(s, t);
      }
    }
  }

  lemma {:induction false} RunKeepsInv(s: State, steps: seq<Step>)
    requires Inv(s) && Legal(s, steps)
    ensures Inv(Run(s, steps))
  {
    if steps != [] {
      RunKeepsInv(s, steps[..|steps| - 1]);
      hide Inv;
      StepKeepsInv(Run(s, steps[..|steps| - 1]), steps[|steps| - 1]);
    }
  }

  /** In every interleaving of submitters, the dropper, wake-ups and the worker. */
  lemma ReachableInv(s: State)
    requires Reachable(s)
    ensures Inv(s)
  {
    var steps :| Legal(Initial(), steps) && Run(Initial(), steps) == s;
    RunKeepsInv(Initial(), steps);
  }

  // ---------------------------------------------------------------------
  // What a caller can rely on
  // ---------------------------------------------------------------------

  predicate OtherKey(submitted: seq<string>, a: nat, b: nat) {
    a < |submitted| && b < |submitted| && submitted[a] != submitted[b]
  }

  /** Write t has run, and no write of its key has run since. */
  ghost predicate LastForKey(s: State, t: nat) {
    exists i :: 0 <= i < |s.executed| && s.executed[i] == t
                && forall j :: i < j < |s.executed| ==> OtherKey(s.submitted, s.executed[j], t)
  }

  /** A key's latest submission is queued, running, or the last one run for that key. */
  lemma LatestIsSomewhere(s: State, t: nat)
    requires Inv(s) && IsLatest(s.submitted, t)
    ensures (s.submitted[t] in s.pending && s.pending[s.submitted[t]] == t)
            || s.worker == Running(s.submitted[t], t)
            || LastForKey(s, t)
  {
    assert Handled(s, t);
    if t in s.executed {
      var i :| 0 <= i < |s.executed| && s.executed[i] == t;
      forall j | i < j < |s.executed|
        ensures OtherKey(s.submitted, s.executed[j], t)
      {
        assert InOrder(s.submitted, Started(s)[i], Started(s)[j]);
        LatestIsGreatest(s.submitted, t, s.executed[j]);
      }
    }
  }

  lemma LatestIsGreatest(submitted: seq<string>, t: nat, u: nat)
    requires IsLatest(submitted, t) && u < |submitted|
    ensures submitted[u] == submitted[t] ==> u <= t
  {
  }

  /** Idle: nothing queued, nothing running, and every key's latest value is on disk. */
  lemma IdleMeansSaved(s: State)
    requires Inv(s) && s.pending == map[] && s.active.None?
    ensures forall t :: IsLatest(s.submitted, t) ==> LastForKey(s, t)
  {
    forall t: nat | IsLatest(s.submitted, t)
      ensures LastForKey(s, t)
    {
      LatestIsSomewhere(s, t);
    }
  }

  lemma DoneMeansSaved(s: State)
    requires Inv(s) && s.worker.Done?
    ensures s.pending == map[] && s.active.None? && Future(s) == s.executed
    ensures forall t :: IsLatest(s.submitted, t) ==> LastForKey(s, t)
  {
    IdleMeansSaved(s);
  }

  /** A submission is run at most once, and skipped only for a later one of the same key. */
  lemma RunOnceOrSuperseded(s: State, t: nat)
    requires Inv(s) && t < |s.submitted|
    ensures forall i, j :: 0 <= i < |s.executed| && 0 <= j < |s.executed| && s.executed[i] == t && s.executed[j] == t ==>
              i == j
    ensures Handled(s, t) || exists later :: t < later < |s.submitted| && s.submitted[later] == s.submitted[t]
  {
    forall i, j | 0 <= i < |s.executed| && 0 <= j < |s.executed| && s.executed[i] == t && s.executed[j] == t
      ensures i == j
    {
      assert i < j ==> InOrder(s.submitted, Started(s)[i], Started(s)[j]);
      assert j < i ==> InOrder(s.submitted, Started(s)[j], Started(s)[i]);
    }
    if IsLatest(s.submitted, t) {
      assert Handled(s, t);
    }
  }

  // ---------------------------------------------------------------------
  // Stopping
  // ---------------------------------------------------------------------

  predicate IsWork(step: Step) {
    step.Wake? || step.Check? || step.Execute? || step.Settle?
  }

  function Measure(s: State): nat {
    match s.worker
    case Done => 0
    case Checking => 3 * |s.pending| + 1
    case Sleeping(_) => 3 * |s.pending| + 2
    case Settling(_, _) => 3 * |s.pending| + 2
    case Running(_, _) => 3 * |s.pending| + 3
  }

  lemma RemovedOne(pending: map<string, nat>, key: string)
    requires key in pending
    ensures |pending - {key}| == |pending| - 1
  {
    assert (pending - {key}).Keys == pending.Keys - {key};
  }

  /** Once stop is announced only the worker can move, and each of its steps uses up some of what is left. */
  lemma StopDrains(s: State, step: Step)
    requires Inv(s) && s.notified && Enabled(s, step)
    ensures IsWork(step) && Measure(Next(s, step)) < Measure(s) && Next(s, step).notified
  {
    assert s.stop && !(s.worker == Sleeping(false));
    hide Inv, IsFirst;
    if step.Check? {
      CheckDrains(s, step.first);
      hide Next, Measure;
    }
  }

  lemma CheckDrains(s: State, first: string)
    requires s.stop && s.notified && Enabled(s, Check(first))
    ensures var n := Next(s, Check(first)); Measure(n) < Measure(s) && n.notified
  {
    if s.pending != map[] {
      RemovedOne(s.pending, first);
    }
    hide IsFirst;
  }

  /** It is never stuck: until it is done, it has a step to take. */
  lemma WorkerCanMove(s: State)
    requires Inv(s) && s.notified && !s.worker.Done?
    ensures exists step :: Enabled(s, step)
  {
    match s.worker
    case Checking =>
      if s.pending == map[] {
        assert Enabled(s, Check(""));
      } else {
        FirstExists(s.pending);
        var key :| IsFirst(s.pending, key);
        assert Enabled(s, Check(key));
      }
    case Sleeping(_) => assert Enabled(s, Wake);
    case Running(_, _) => assert Enabled(s, Execute(true));
    case Settling(_, _) => assert Enabled(s, Settle);
  }

  /** After the drop every run is short, and one that can go no further has saved every latest value. */
  lemma {:induction false} StopTerminates(s: State, steps: seq<Step>)
    requires Inv(s) && s.notified && Legal(s, steps)
    ensures |steps| <= Measure(s) - Measure(Run(s, steps))
    ensures Run(s, steps).notified && Inv(Run(s, steps)) && Run(s, steps).submitted == s.submitted
    ensures (forall step :: !Enabled(Run(s, steps), step)) ==>
              Run(s, steps).worker.Done? && forall t :: IsLatest(s.submitted, t) ==> LastForKey(Run(s, steps), t)
  {
    var n := Run(s, steps);
    if steps != [] {
      var before := steps[..|steps| - 1];
      StopTerminates(s, before);
      StepKeepsInv(Run(s, before), steps[|steps| - 1]);
      StopDrains(Run(s, before), steps[|steps| - 1]);
    }
    if forall step :: !Enabled(n, step) {
      if !n.worker.Done? {
        WorkerCanMove(n);
      }
      IdleMeansSaved(n);
    }
  }

  // ---------------------------------------------------------------------
  // Order across keys
  // ---------------------------------------------------------------------

  ghost function First(pending: map<string, nat>): (key: string)
    requires pending != map[]
    ensures IsFirst(pending, key)
  {
    FirstExists(pending);
    var key :| IsFirst(pending, key);
    key
  }

  /** The queue in the order the worker takes it. */
  ghost function Queued(pending: map<string, nat>): seq<nat>
    decreases |pending|
  {
    if pending == map[] then []
    else
      RemovedOne(pending, First(pending));
      [pending[First(pending)]] + Queued(pending - {First(pending)})
  }

  /** Every write begun or still to run if nobody submits again. */
  ghost function Future(s: State): seq<nat> {
    Started(s) + Queued(s.pending)
  }

  lemma FirstIsUnique(pending: map<string, nat>, key: string)
    requires IsFirst(pending, key)
    ensures First(pending) == key
  {
    LessTotal(First(pending), key);
  }

  lemma WorkKeepsFuture(s: State, step: Step)
    requires Enabled(s, step) && IsWork(step)
    ensures Future(Next(s, step)) == Future(s)
  {
    var n := Next(s, step);
    if step.Check? && s.pending != map[] {
      FirstIsUnique(s.pending, step.first);
      var next := s.pending[step.first];
      assert Queued(s.pending) == [next] + Queued(n.pending);
      hide Queued, First, IsFirst;
      assert Started(n) == Started(s) + [next];
    } else {
      hide Queued, First, IsFirst;
      assert Started(n) == Started(s);
    }
  }

  ghost predicate Increasing(q: seq<nat>) {
    forall i, j :: 0 <= i < j < |q| ==> q[i] < q[j]
  }

  /** Queued writes leave in submission order exactly when submission order agrees with key order. */
  ghost predicate KeysAgree(pending: map<string, nat>) {
    forall a, b :: a in pending && b in pending && Less(a, b) ==> pending[a] < pending[b]
  }

  lemma {:induction false} QueuedHolds(pending: map<string, nat>)
    ensures forall x :: x in Queued(pending) <==> exists k :: k in pending && pending[k] == x
    decreases |pending|
  {
    if pending != map[] {
      var f := First(pending);
      RemovedOne(pending, f);
      QueuedHolds(pending - {f});
      forall x
        ensures x in Queued(pending) <==> exists k :: k in pending && pending[k] == x
      {
        if k :| k in pending && pending[k] == x {
          assert k == f || k in pending - {f};
        }
      }
    }
  }

  lemma {:induction false} InOrderIff(pending: map<string, nat>)
    ensures Increasing(Queued(pending)) <==> KeysAgree(pending)
    decreases |pending|
  {
    if pending != map[] {
      var f := First(pending);
      var rest := pending - {f};
      RemovedOne(pending, f);
      InOrderIff(rest);
      QueuedHolds(rest);
      SplitIncreasing(pending[f], Queued(rest));
      SplitAgree(pending, f);
      hide Increasing, KeysAgree;
      forall k | k in rest
        ensures rest[k] in Queued(rest) && rest[k] == pending[k]
      {
      }
    }
  }

  lemma SplitIncreasing(x: nat, q: seq<nat>)
    ensures Increasing([x] + q) <==> Increasing(q) && forall y :: y in q ==> x < y
  {
    JoinIncreasing([x], q);
    hide Increasing;
    assert x in [x];
    assert Increasing([x]) by {
      OneIncreases(x);
    }
  }

  lemma OneIncreases(x: nat)
    ensures Increasing([x])
  {
  }

  lemma SplitAgree(pending: map<string, nat>, f: string)
    requires IsFirst(pending, f)
    ensures KeysAgree(pending) <==>
            KeysAgree(pending - {f}) && forall k :: k in pending - {f} ==> pending[f] < pending[k]
  {
    var rest := pending - {f};
    if KeysAgree(rest) && forall k :: k in rest ==> pending[f] < pending[k] {
      forall a, b | a in pending && b in pending && Less(a, b)
        ensures pending[a] < pending[b]
      {
        LessTotal(a, f);
        LessTotal(f, b);
        assert b in rest && (a == f || a in rest);
      }
    }
  }

  /** Everything begun was begun in submission order and before everything queued, and the queue agrees with key order. */
  ghost predicate InOrderSoFar(s: State) {
    && Increasing(Started(s)) && KeysAgree(s.pending)
    && forall t, k :: t in Started(s) && k in s.pending ==> t < s.pending[k]
  }

  /**
   * What has been and will be written, if nobody submits again, is in submission
   * order exactly when it is so far, and no step of the worker changes that.
   */
  lemma FutureInOrderIff(s: State)
    ensures Increasing(Future(s)) <==> InOrderSoFar(s)
  {
    InOrderIff(s.pending);
    QueuedHolds(s.pending);
    hide Queued, KeysAgree, Increasing;
    JoinIncreasing(Started(s), Queued(s.pending));
    if forall x, y :: x in Started(s) && y in Queued(s.pending) ==> x < y {
      forall t, k | t in Started(s) && k in s.pending
        ensures t < s.pending[k]
      {
        assert s.pending[k] in Queued(s.pending);
      }
    }
  }

  /** No step of the worker changes whether the writes come out in order. */
  lemma WorkKeepsOrder(s: State, step: Step)
    requires Enabled(s, step) && IsWork(step)
    ensures InOrderSoFar(Next(s, step)) <==> InOrderSoFar(s)
  {
    WorkKeepsFuture(s, step);
    FutureInOrderIff(s);
    FutureInOrderIff(Next(s, step));
    hide *;
  }

  /**
   * After a submission the writes are in order exactly when all but what it
   * replaces were, and nothing is queued under a greater key.
   */
  lemma OrderAfterSubmitIff(s: State, key: string)
    requires Inv(s) && !s.stop
    ensures InOrderSoFar(Next(s, Submit(key))) <==>
            && Increasing(Started(s)) && KeysAgree(s.pending - {key})
            && (forall t, k :: t in Started(s) && k in s.pending - {key} ==> t < s.pending[k])
            && forall k :: k in s.pending ==> !Less(key, k)
  {
    var n := Next(s, Submit(key));
    assert Started(n) == Started(s);
    StartedAreOlder(s);
    LessTotal(key, key);
    hide Inv, Started, Less, Increasing;
    var rest := s.pending - {key};
    assert n.pending.Keys == rest.Keys + {key} && n.pending[key] == |s.submitted|;
    assert forall k :: k in rest ==> n.pending[k] == rest[k] == s.pending[k];
    if k :| k in s.pending && Less(key, k) {
      assert n.pending[key] > n.pending[k];
    }
  }

  /** So a submission can put right what another put wrong: "b", "a", then "b" again. */
  lemma ResubmittingRestoresOrder()
    ensures var s := Next(Next(Initial(), Submit("b")), Submit("a"));
            Reachable(s) && !InOrderSoFar(s) && InOrderSoFar(Next(s, Submit("b")))
  {
    var s1 := Next(Initial(), Submit("b"));
    var s2 := Next(s1, Submit("a"));
    ReachStep(Initial(), Submit("b"));
    ReachStep(s1, Submit("a"));
    hide Reachable;
    assert Less("a", "b") && !Less("b", "a");
    assert s2.pending["a"] == 1 && s2.pending["b"] == 0 && s2.pending.Keys == {"a", "b"};
    hide Less;
    var n := Next(s2, Submit("b"));
    assert n.pending["a"] == 1 && n.pending["b"] == 2 && n.pending.Keys == {"a", "b"};
    assert Started(s2) == [] && Started(n) == [];
    hide Next;
  }

  lemma StartedAreOlder(s: State)
    requires Inv(s)
    ensures forall t :: t in Started(s) ==> t < |s.submitted|
    ensures forall k :: k in s.pending ==> s.pending[k] < |s.submitted|
  {
    forall t | t in Started(s)
      ensures t < |s.submitted|
    {
      assert QueuedLater(s, t);
    }
    forall k | k in s.pending
      ensures s.pending[k] < |s.submitted|
    {
      assert QueuedIsLatest(s, k);
    }
  }

  lemma JoinIncreasing(a: seq<nat>, b: seq<nat>)
    ensures Increasing(a + b) <==> Increasing(a) && Increasing(b) && forall x, y :: x in a && y in b ==> x < y
  {
    if Increasing(a + b) {
      PartsIncrease(a, b);
    }
    if Increasing(a) && Increasing(b) && forall x, y :: x in a && y in b ==> x < y {
      JoinedIncreases(a, b);
    }
  }

  lemma PartsIncrease(a: seq<nat>, b: seq<nat>)
    requires Increasing(a + b)
    ensures Increasing(a) && Increasing(b) && forall x, y :: x in a && y in b ==> x < y
  {
    var all := a + b;
    IncreasingAfter(all, |a|);
    assert all[|a|..] == b;
    forall i, j | 0 <= i < j < |a|
      ensures a[i] < a[j]
    {
      assert all[i] < all[j];
    }
    forall x, y | x in a && y in b
      ensures x < y
    {
      var i :| 0 <= i < |a| && a[i] == x;
      var j :| 0 <= j < |b| && b[j] == y;
      assert all[i] < all[|a| + j];
    }
  }

  lemma JoinedIncreases(a: seq<nat>, b: seq<nat>)
    requires Increasing(a) && Increasing(b) && forall x, y :: x in a && y in b ==> x < y
    ensures Increasing(a + b)
  {
    var all := a + b;
    forall i, j | 0 <= i < j < |all|
      ensures all[i] < all[j]
    {
      if j < |a| {
        assert a[i] < a[j];
      } else if i < |a| {
        assert a[i] in a && b[j - |a|] in b;
      } else {
        assert b[i - |a|] < b[j - |a|];
      }
    }
  }

  lemma IncreasingAfter(q: seq<nat>, n: nat)
    requires Increasing(q) && n <= |q|
    ensures Increasing(q[n..])
  {
    forall i, j | 0 <= i < j < |q[n..]|
      ensures q[n..][i] < q[n..][j]
    {
      assert q[n + i] < q[n + j];
    }
  }

  /**
   * The writer is ordered per key, not across keys: the map hands out its least
   * key first, so "b" then "a" are written "a" then "b".
   */
  lemma AcrossKeysOrderIsKeyOrder()
    ensures exists s :: Reachable(s) && s.executed == [1, 0]
  {
    var s2 := Next(Next(Initial(), Submit("b")), Submit("a"));
    ReachStep(Initial(), Submit("b"));
    ReachStep(Next(Initial(), Submit("b")), Submit("a"));
    assert Less("a", "b") && !Less("b", "a");
    assert s2.pending == map["b" := 0, "a" := 1];
    var s3 := WriteOne(s2, "a");
    assert s3.pending == map["b" := 0];
    var s4 := WriteOne(s3, "b");
  }

  lemma WriteOne(s: State, first: string) returns (n: State)
    requires Reachable(s) && s.worker.Checking? && IsFirst(s.pending, first)
    ensures Reachable(n) && n.worker.Checking?
    ensures n.pending == s.pending - {first} && n.executed == s.executed + [s.pending[first]]
  {
    assert first in s.pending;
    hide Reachable, IsFirst;
    var a := Next(s, Check(first));
    var b := Next(a, Execute(true));
    n := Next(b, Settle);
    ReachStep(s, Check(first));
    ReachStep(a, Execute(true));
    ReachStep(b, Settle);
  }

  lemma ReachStart()
    ensures Reachable(Initial())
  {
    assert Legal(Initial(), []) && Run(Initial(), []) == Initial();
  }

  lemma ReachStep(s: State, step: Step)
    requires s == Initial() || Reachable(s)
    requires Enabled(s, step)
    ensures Reachable(Next(s, step))
  {
    ReachStart();
    hide Enabled, Next;
    var steps :| Legal(Initial(), steps) && Run(Initial(), steps) == s;
    assert (steps + [step])[..|steps|] == steps;
    assert Legal(Initial(), steps + [step]);
    assert Run(Initial(), steps + [step]) == Next(s, step);
  }
}
