// Models src/app/bindings.rs: which local window the dashboard holds for which
// session, and the two detectors that notice a window is gone.
module Bindings {
  import opened Common
  import opened Options

  datatype HostId = HostId(name: string) {
    predicate IsLocal() {
      name == "local"
    }
  }

  datatype BindingKey = BindingKey(host: HostId, token: string)

  type WindowId = string

  /** A monotonic clock reading in nanoseconds. */
  type Instant = nat

  const PRUNE_REPORT_GRACE: nat := 10_000_000_000

  datatype RetiredBinding = RetiredBinding(window: WindowId, heldFor: nat)

  datatype Bound = Bound(window: WindowId, since: Instant) {
    function Retire(now: Instant): RetiredBinding {
      RetiredBinding(window, Elapsed(since, now))
    }
  }

  // ---------------------------------------------------------------------
  // The flat memory the nested maps stand for
  // ---------------------------------------------------------------------

  datatype Memory = Memory(live: map<BindingKey, Bound>,
                           expected: set<BindingKey>,
                           grace: map<BindingKey, (RetiredBinding, Instant)>)

  const EMPTY := Memory(map[], {}, map[])

  function DeadKeys(live: map<BindingKey, Bound>, windows: set<WindowId>): set<BindingKey> {
    set k | k in live && live[k].window !in windows
  }

  /** The grace entries of the bindings a snapshot retired. */
  function Stamped(live: map<BindingKey, Bound>, dead: set<BindingKey>, at: Instant)
    : map<BindingKey, (RetiredBinding, Instant)>
  {
    map k | k in dead && k in live :: (live[k].Retire(at), at)
  }

  lemma RetireOneMore(live: map<BindingKey, Bound>, done: set<BindingKey>, k: BindingKey, at: Instant,
                      kept: map<BindingKey, (RetiredBinding, Instant)>)
    requires k in live && k !in done
    ensures live - (done + {k}) == (live - done) - {k}
    ensures kept + Stamped(live, done + {k}, at) == (kept + Stamped(live, done, at))[k := (live[k].Retire(at), at)]
  {
  }

  lemma StampedNone(live: map<BindingKey, Bound>, at: Instant)
    ensures live - {} == live && Stamped(live, {}, at) == map[]
  {
  }

  datatype Op =
    | Record(key: BindingKey, window: WindowId, at: Instant)
    | Remove(key: BindingKey)
    | PruneToken(key: BindingKey, at: Instant)
    | PruneDead(windows: set<WindowId>, at: Instant)
    | RetainExpected(rows: set<BindingKey>)

  function Step(m: Memory, op: Op): Memory {
    match op
    case Record(k, w, at) => Memory(m.live[k := Bound(w, at)], m.expected + {k}, m.grace - {k})
    case Remove(k) => Memory(m.live - {k}, m.expected - {k}, m.grace - {k})
    case PruneToken(k, at) => if k in m.live then m.(live := m.live - {k}) else m.(grace := m.grace - {k})
    case PruneDead(windows, at) =>
      var dead := DeadKeys(m.live, windows);
      var kept := map k | k in m.grace && Elapsed(m.grace[k].1, at) < PRUNE_REPORT_GRACE :: m.grace[k];
      m.(live := m.live - dead, grace := kept + Stamped(m.live, dead, at))
    case RetainExpected(rows) => m.(expected := m.expected * rows)
  }

  /** What a detach report is told. */
  function ReportAnswer(m: Memory, k: BindingKey, at: Instant): Option<RetiredBinding> {
    if k in m.live then Some(m.live[k].Retire(at))
    else if k in m.grace && Elapsed(m.grace[k].1, at) < PRUNE_REPORT_GRACE then Some(m.grace[k].0)
    else None
  }

  /** What a deliberate detach is told. */
  function RemoveAnswer(m: Memory, k: BindingKey): Option<WindowId> {
    if k in m.live then Some(m.live[k].window) else None
  }

  /** The window that was bound, and how long it was held. */
  predicate IsHeld(retired: Option<RetiredBinding>, bound: Bound, now: Instant) {
    && retired.Some? && retired.value.window == bound.window
    && if now < bound.since then retired.value.heldFor == 0 else bound.since + retired.value.heldFor == now
  }

  /**
   * What a snapshot does: a binding whose window is gone becomes answerable late
   * from now on, one still answerable is forgotten once past the grace, and
   * nothing else changes.
   */
  ghost predicate Snapped(was: Memory, windows: set<WindowId>, now: Instant, m: Memory) {
    && m.expected == was.expected
    && (forall k :: k in m.live <==> k in was.live && was.live[k].window in windows)
    && (forall k :: k in m.live ==> m.live[k] == was.live[k])
    && (forall k :: k in was.live && was.live[k].window !in windows ==>
          k in m.grace && m.grace[k].1 == now && IsHeld(Some(m.grace[k].0), was.live[k], now))
    && (forall k :: k !in was.live || was.live[k].window in windows ==>
          && (k in m.grace <==> k in was.grace && now < was.grace[k].1 + PRUNE_REPORT_GRACE)
          && (k in m.grace ==> m.grace[k] == was.grace[k]))
  }

  lemma StepSnaps(m: Memory, windows: set<WindowId>, at: Instant)
    ensures Snapped(m, windows, at, Step(m, Op.PruneDead(windows, at)))
  {
    var n := Step(m, Op.PruneDead(windows, at));
    var dead := DeadKeys(m.live, windows);
    assert forall k :: k in Stamped(m.live, dead, at) <==> k in dead;
    assert forall k :: k in dead ==> n.grace[k] == (m.live[k].Retire(at), at);
    hide Stamped;
  }

  // ---------------------------------------------------------------------
  // The two-level map
  // ---------------------------------------------------------------------

  type HostMap = map<HostId, map<string, Bound>>

  ghost function Flat(byHost: HostMap): (f: map<BindingKey, Bound>)
    ensures forall k :: k in f <==> k.host in byHost && k.token in byHost[k.host]
    ensures forall k :: k in f ==> f[k] == byHost[k.host][k.token]
  {
    map h, t | h in byHost && t in byHost[h] :: BindingKey(h, t) := byHost[h][t]
  }

  function Put(byHost: HostMap, k: BindingKey, bound: Bound): HostMap {
    var inner := if k.host in byHost then byHost[k.host] else map[];
    byHost[k.host := inner[k.token := bound]]
  }

  function Drop(byHost: HostMap, k: BindingKey): HostMap
    requires k.host in byHost
  {
    var inner := byHost[k.host] - {k.token};
    if inner == map[] then byHost - {k.host} else byHost[k.host := inner]
  }

  lemma FlatPut(byHost: HostMap, k: BindingKey, bound: Bound)
    ensures Flat(Put(byHost, k, bound)) == Flat(byHost)[k := bound]
  {
    hide Flat;
    forall j: BindingKey
      ensures j in Flat(Put(byHost, k, bound)) <==> j == k || j in Flat(byHost)
    {
    }
  }

  lemma FlatDrop(byHost: HostMap, k: BindingKey)
    requires k.host in byHost
    ensures Flat(Drop(byHost, k)) == Flat(byHost) - {k}
  {
    hide Flat;
    var inner := byHost[k.host] - {k.token};
    forall j: BindingKey
      ensures j in Flat(Drop(byHost, k)) <==> j != k && j in Flat(byHost)
    {
      if j.host == k.host {
        assert j in Flat(byHost) && j != k <==> j.token in inner;
      }
    }
  }

  class WindowBindings {
    var byHost: map<HostId, map<string, Bound>>
    var expected: set<BindingKey>
    var recentlyPruned: map<BindingKey, (RetiredBinding, Instant)>

    /** Every host listed has a window. */
    ghost predicate Valid()
      reads this
    {
      forall h :: h in byHost ==> byHost[h] != map[]
    }

    ghost function Abs(): Memory
      reads this
    {
      Memory(Flat(byHost), expected, recentlyPruned)
    }

    constructor ()
      ensures Valid() && Abs() == EMPTY
    {
      byHost := map[];
      expected := {};
      recentlyPruned := map[];
    }

    method Take(host: HostId, token: string) returns (taken: Option<Bound>)
      requires Valid()
      modifies this`byHost
      ensures Valid()
      ensures var k := BindingKey(host, token); var was := old(Abs()).live;
              && Abs().live == was - {k}
              && taken == if k in was then Some(was[k]) else None
    {
      hide Flat, DeadKeys;
      if host !in byHost {
        return None;
      }
      FlatDrop(byHost, BindingKey(host, token));
      var inner := byHost[host];
      taken := if token in inner then Some(inner[token]) else None;
      inner := inner - {token};
      if inner == map[] {
        byHost := byHost - {host};
      } else {
        byHost := byHost[host := inner];
      }
    }

    method Record(host: HostId, token: string, window: WindowId, now: Instant)
      requires Valid()
      modifies this
      ensures Valid()
      ensures Abs() == Step(old(Abs()), Op.Record(BindingKey(host, token), window, now))
      ensures var k, was := BindingKey(host, token), old(Abs());
              Abs() == Memory(was.live[k := Bound(window, now)], was.expected + {k}, was.grace - {k})
    {
      var key := BindingKey(host, token);
      recentlyPruned := recentlyPruned - {key};
      expected := expected + {key};
      hide Flat, DeadKeys;
      FlatPut(byHost, key, Bound(window, now));
      var inner := if host in byHost then byHost[host] else map[];
      assert token in inner[token := Bound(window, now)];
      byHost := byHost[host := inner[token := Bound(window, now)]];
    }

    method Remove(host: HostId, token: string) returns (window: Option<WindowId>)
      requires Valid()
      modifies this
      ensures Valid()
      ensures Abs() == Step(old(Abs()), Op.Remove(BindingKey(host, token)))
      ensures window == RemoveAnswer(old(Abs()), BindingKey(host, token))
      ensures var k, was := BindingKey(host, token), old(Abs());
              && Abs() == Memory(was.live - {k}, was.expected - {k}, was.grace - {k})
              && window == if k in was.live then Some(was.live[k].window) else None
    {
      var key := BindingKey(host, token);
      expected := expected - {key};
      recentlyPruned := recentlyPruned - {key};
      var taken := Take(host, token);
      window := if taken.Some? then Some(taken.value.window) else None;
    }

    method PruneToken(host: HostId, token: string, now: Instant) returns (retired: Option<RetiredBinding>)
      requires Valid()
      modifies this
      ensures Valid()
      ensures Abs() == Step(old(Abs()), Op.PruneToken(BindingKey(host, token), now))
      ensures retired == ReportAnswer(old(Abs()), BindingKey(host, token), now)
      ensures var k, was := BindingKey(host, token), old(Abs());
              && Abs().live == was.live - {k} && Abs().expected == was.expected
              && Abs().grace == (if k in was.live then was.grace else was.grace - {k})
              && (k in was.live ==> IsHeld(retired, was.live[k], now))
              && (k !in was.live && k in was.grace ==>
                    retired == if now < was.grace[k].1 + PRUNE_REPORT_GRACE then Some(was.grace[k].0) else None)
              && (k !in was.live && k !in was.grace ==> retired == None)
    {
      hide Flat, DeadKeys;
      var taken := Take(host, token);
      if taken.Some? {
        return Some(taken.value.Retire(now));
      }
      var key := BindingKey(host, token);
      assert Abs().live == old(Abs().live);
      if key !in recentlyPruned {
        assert recentlyPruned - {key} == recentlyPruned;
        return None;
      }
      var (kept, at) := recentlyPruned[key];
      recentlyPruned := recentlyPruned - {key};
      retired := if Elapsed(at, now) < PRUNE_REPORT_GRACE then Some(kept) else None;
    }

    method WindowFor(host: HostId, token: string) returns (window: Option<WindowId>)
      ensures window == RemoveAnswer(Abs(), BindingKey(host, token))
      ensures var k := BindingKey(host, token);
              if k in Abs().live then window == Some(Abs().live[k].window) else window == None
    {
      window := if host in byHost && token in byHost[host] then Some(byHost[host][token].window) else None;
    }

    /** Each expected, windowless token of the host exactly once, in no particular order. */
    method ExpectedWithoutWindow(host: HostId) returns (tokens: seq<string>)
      ensures forall t :: t in tokens <==>
                BindingKey(host, t) in expected && BindingKey(host, t) !in Abs().live
      ensures forall i, j :: 0 <= i < j < |tokens| ==> tokens[i] != tokens[j]
    {
      ghost var live := Abs().live;
      hide Flat;
      tokens := [];
      var todo := expected;
      while todo != {}
        invariant todo <= expected
        invariant forall t :: t in tokens <==>
                    BindingKey(host, t) in expected && BindingKey(host, t) !in todo && BindingKey(host, t) !in live
        invariant forall i, j :: 0 <= i < j < |tokens| ==> tokens[i] != tokens[j]
        decreases todo
      {
        var k :| k in todo;
        var window := WindowFor(k.host, k.token);
        if k.host == host && window.None? {
          tokens := tokens + [k.token];
        }
        todo := todo - {k};
      }
    }

    method RetainExpected(rows: set<BindingKey>)
      modifies this`expected
      ensures Abs() == Step(old(Abs()), Op.RetainExpected(rows))
      ensures forall k :: k in expected <==> k in old(expected) && k in rows
    {
      expected := set k | k in expected && k in rows;
    }

    method RetireOne(k: BindingKey, now: Instant)
      requires Valid() && k in Abs().live
      modifies this`byHost, this`recentlyPruned
      ensures Valid()
      ensures Abs().live == old(Abs()).live - {k}
      ensures recentlyPruned == old(recentlyPruned)[k := (old(Abs()).live[k].Retire(now), now)]
    {
      hide Flat;
      var taken := Take(k.host, k.token);
      if taken.Some? {
        recentlyPruned := recentlyPruned[k := (taken.value.Retire(now), now)];
      }
    }

    /** Moves each of the keys from the live map to the grace map. */
    method RetireAll(keys: set<BindingKey>, now: Instant)
      requires Valid() && keys <= Abs().live.Keys
      modifies this`byHost, this`recentlyPruned
      ensures Valid()
      ensures Abs().live == old(Abs()).live - keys
      ensures recentlyPruned == old(recentlyPruned) + Stamped(old(Abs()).live, keys, now)
    {
      hide *;
      ghost var live := Abs().live;
      ghost var grace := recentlyPruned;
      ghost var done: set<BindingKey> := {};
      var todo := keys;
      StampedNone(live, now);
      while todo != {}
        invariant Valid()
        invariant done <= keys && todo == keys - done
        invariant Abs().live == live - done
        invariant recentlyPruned == grace + Stamped(live, done, now)
        decreases todo
      {
        var k :| k in todo;
        RetireOneMore(live, done, k, now, grace);
        RetireOne(k, now);
        done, todo := done + {k}, todo - {k};
      }
      assert done == keys;
    }

    method List(keys: set<BindingKey>) returns (listed: seq<BindingKey>)
      ensures forall k :: k in listed <==> k in keys
      ensures forall i, j :: 0 <= i < j < |listed| ==> listed[i] != listed[j]
    {
      listed := [];
      var todo := keys;
      while todo != {}
        invariant todo <= keys
        invariant forall k :: k in listed <==> k in keys - todo
        invariant forall i, j :: 0 <= i < j < |listed| ==> listed[i] != listed[j]
        decreases todo
      {
        var k :| k in todo;
        assert k !in listed;
        listed := listed + [k];
        todo := todo - {k};
      }
    }

    /** Retires every binding whose window is gone, and hands the keys back once each. */
    method PruneDead(windows: set<WindowId>, now: Instant) returns (dead: seq<BindingKey>)
      requires Valid()
      modifies this
      ensures Valid()
      ensures Abs() == Step(old(Abs()), Op.PruneDead(windows, now))
      ensures forall k :: k in dead <==> k in DeadKeys(old(Abs().live), windows)
      ensures forall k :: k in dead <==> k in old(Abs().live) && old(Abs().live)[k].window !in windows
      ensures Snapped(old(Abs()), windows, now, Abs())
      ensures forall i, j :: 0 <= i < j < |dead| ==> dead[i] != dead[j]
    {
      hide Flat;
      var keys := set h, t | h in byHost && t in byHost[h] && byHost[h][t].window !in windows :: BindingKey(h, t);
      assert keys == DeadKeys(Abs().live, windows);
      recentlyPruned := map k | k in recentlyPruned && Elapsed(recentlyPruned[k].1, now) < PRUNE_REPORT_GRACE
                          :: recentlyPruned[k];
      dead := List(keys);
      RetireAll(keys, now);
      StepSnaps(old(Abs()), windows, now);
      hide Snapped;
    }

    /** Looking at the outer map alone is enough. */
    method IsEmpty() returns (empty: bool)
      requires Valid()
      ensures empty <==> Abs().live == map[]
    {
      empty := byHost == map[];
      if !empty {
        ghost var h :| h in byHost;
        ghost var t :| t in byHost[h];
        assert BindingKey(h, t) in Abs().live;
      }
    }

    method HasRemote() returns (remote: bool)
      requires Valid()
      ensures remote <==> exists k :: k in Abs().live && k.host.name != "local"
    {
      remote := exists h :: h in byHost && !h.IsLocal();
      if remote {
        ghost var h :| h in byHost && !h.IsLocal();
        ghost var t :| t in byHost[h];
        assert BindingKey(h, t) in Abs().live;
      }
    }
  }

  // ---------------------------------------------------------------------
  // Over every run
  // ---------------------------------------------------------------------

  function Run(ops: seq<Op>): Memory {
    if ops == [] then EMPTY else Step(Run(ops[..|ops| - 1]), ops[|ops| - 1])
  }

  lemma RunUnrolled(ops: seq<Op>)
    requires |ops| > 0
    ensures Run(ops) == Step(Run(ops[..|ops| - 1]), ops[|ops| - 1])
  {
  }

  /** A binding is live or answerable late, never both. */
  lemma {:induction false} LiveAndGraceDisjoint(ops: seq<Op>)
    ensures Run(ops).live.Keys !! Run(ops).grace.Keys
  {
    if ops != [] {
      LiveAndGraceDisjoint(ops[..|ops| - 1]);
    }
  }

  function Count(b: bool): nat {
    if b then 1 else 0
  }

  function Recorded(op: Op, k: BindingKey, w: WindowId): nat {
    Count(op.Record? && op.key == k && op.window == w)
  }

  /** Whether the operation hands window w of k to its caller. */
  function HandedBack(m: Memory, op: Op, k: BindingKey, w: WindowId): nat {
    match op
    case Remove(j) => Count(j == k && RemoveAnswer(m, k) == Some(w))
    case PruneToken(j, at) => Count(j == k && ReportAnswer(m, k, at).Some? && ReportAnswer(m, k, at).value.window == w)
    case _ => 0
  }

  function Held(m: Memory, k: BindingKey, w: WindowId): nat {
    Count(k in m.live && m.live[k].window == w) + Count(k in m.grace && m.grace[k].0.window == w)
  }

  function TimesRecorded(ops: seq<Op>, k: BindingKey, w: WindowId): nat {
    if ops == [] then 0
    else TimesRecorded(ops[..|ops| - 1], k, w) + Recorded(ops[|ops| - 1], k, w)
  }

  function TimesHandedBack(ops: seq<Op>, k: BindingKey, w: WindowId): nat {
    if ops == [] then 0
    else
      var before := ops[..|ops| - 1];
      TimesHandedBack(before, k, w) + HandedBack(Run(before), ops[|ops| - 1], k, w)
  }

  lemma OneStepConserves(m: Memory, op: Op, k: BindingKey, w: WindowId)
    requires m.live.Keys !! m.grace.Keys
    ensures HandedBack(m, op, k, w) + Held(Step(m, op), k, w) <= Held(m, k, w) + Recorded(op, k, w)
  {
    match op
    case PruneDead(windows, at) =>
      var after := Step(m, op);
      if k in DeadKeys(m.live, windows) {
        assert k in Stamped(m.live, DeadKeys(m.live, windows), at);
        assert k !in after.live && after.grace[k].0.window == m.live[k].window;
      } else {
        assert k !in Stamped(m.live, DeadKeys(m.live, windows), at);
      }
    case _ =>
  }

  /** No window is handed back, or still answerable, more often than it was recorded. */
  lemma {:induction false} WindowsAreConserved(ops: seq<Op>, k: BindingKey, w: WindowId)
    ensures TimesHandedBack(ops, k, w) + Held(Run(ops), k, w) <= TimesRecorded(ops, k, w)
  {
    if ops != [] {
      var before := ops[..|ops| - 1];
      WindowsAreConserved(before, k, w);
      LiveAndGraceDisjoint(before);
      OneStepConserves(Run(before), ops[|ops| - 1], k, w);
    }
  }

  /** Something in the run started it, and nothing since has stopped it. */
  ghost predicate Since(ops: seq<Op>, start: Op -> bool, stop: Op -> bool) {
    exists i :: 0 <= i < |ops| && start(ops[i]) && forall j :: i < j < |ops| ==> !stop(ops[j])
  }

  lemma SinceStep(ops: seq<Op>, start: Op -> bool, stop: Op -> bool)
    requires ops != []
    ensures var before := ops[..|ops| - 1]; var last := ops[|ops| - 1];
            Since(ops, start, stop) <==> start(last) || (Since(before, start, stop) && !stop(last))
  {
    var before := ops[..|ops| - 1];
    if start(ops[|ops| - 1]) {
    } else if Since(ops, start, stop) {
      var i :| 0 <= i < |ops| && start(ops[i]) && forall j :: i < j < |ops| ==> !stop(ops[j]);
      assert before[i] == ops[i] && forall j :: i < j < |before| ==> before[j] == ops[j];
    } else if Since(before, start, stop) && !stop(ops[|ops| - 1]) {
      var i :| 0 <= i < |before| && start(before[i]) && forall j :: i < j < |before| ==> !stop(before[j]);
      assert ops[i] == before[i];
      assert forall j :: i < j < |ops| ==> !stop(ops[j]) by {
        assert forall j :: i < j < |before| ==> ops[j] == before[j];
      }
      assert false;
    }
  }

  predicate Records(op: Op, k: BindingKey) {
    op.Record? && op.key == k
  }

  predicate Binds(op: Op, k: BindingKey, w: WindowId) {
    Records(op, k) && op.window == w
  }

  /** Operations that end the expectation that k stays attached. */
  predicate Forgets(op: Op, k: BindingKey) {
    op == Op.Remove(k) || (op.RetainExpected? && k !in op.rows)
  }

  /** Operations after which window w is no longer bound to k. */
  predicate Unbinds(op: Op, k: BindingKey, w: WindowId) {
    match op
    case Record(j, _, _) => j == k
    case Remove(j) => j == k
    case PruneToken(j, _) => j == k
    case PruneDead(windows, _) => w !in windows
    case RetainExpected(_) => false
  }

  predicate BoundTo(m: Memory, k: BindingKey, w: WindowId) {
    k in m.live && m.live[k].window == w
  }

  lemma StepBound(m: Memory, op: Op, k: BindingKey, w: WindowId)
    ensures BoundTo(Step(m, op), k, w) <==> Binds(op, k, w) || (BoundTo(m, k, w) && !Unbinds(op, k, w))
  {
  }

  lemma StepExpected(m: Memory, op: Op, k: BindingKey)
    ensures k in Step(m, op).expected <==> Records(op, k) || (k in m.expected && !Forgets(op, k))
  {
  }

  /** k is expected exactly when it has been recorded and not forgotten since. */
  lemma {:induction false} ExpectedIff(ops: seq<Op>, k: BindingKey)
    ensures k in Run(ops).expected <==> Since(ops, op => Records(op, k), op => Forgets(op, k))
  {
    if ops != [] {
      ExpectedIff(ops[..|ops| - 1], k);
      RunUnrolled(ops);
      hide Run, Step;
      StepExpected(Run(ops[..|ops| - 1]), ops[|ops| - 1], k);
      SinceStep(ops, op => Records(op, k), op => Forgets(op, k));
    }
  }

  /** w is bound to k exactly when it has been recorded for k and nothing since unbinds it. */
  lemma {:induction false} LiveIff(ops: seq<Op>, k: BindingKey, w: WindowId)
    ensures BoundTo(Run(ops), k, w) <==> Since(ops, op => Binds(op, k, w), op => Unbinds(op, k, w))
  {
    if ops != [] {
      LiveIff(ops[..|ops| - 1], k, w);
      RunUnrolled(ops);
      hide Run, Step;
      StepBound(Run(ops[..|ops| - 1]), ops[|ops| - 1], k, w);
      SinceStep(ops, op => Binds(op, k, w), op => Unbinds(op, k, w));
    }
  }

  /** After a deliberate detach nothing answers for k until it is recorded again. */
  lemma {:induction false} SilentAfterRemove(ops: seq<Op>, i: nat, k: BindingKey, at: Instant)
    requires i < |ops| && ops[i] == Op.Remove(k)
    requires forall j :: i < j < |ops| ==> !(ops[j].Record? && ops[j].key == k)
    ensures RemoveAnswer(Run(ops), k).None? && ReportAnswer(Run(ops), k, at).None?
    ensures k !in Run(ops).live && k !in Run(ops).grace
  {
    if i < |ops| - 1 {
      SilentAfterRemove(ops[..|ops| - 1], i, k, at);
      RunUnrolled(ops);
      hide Run;
    }
  }

  /** A suffix of the run, from any state. */
  function After(m: Memory, ops: seq<Op>): Memory {
    if ops == [] then m else Step(After(m, ops[..|ops| - 1]), ops[|ops| - 1])
  }

  predicate Settles(op: Op, k: BindingKey) {
    match op
    case Record(j, _, _) => j == k
    case Remove(j) => j == k
    case PruneToken(j, _) => j == k
    case _ => false
  }

  lemma {:induction false} GraceLasts(m: Memory, ops: seq<Op>, k: BindingKey, at: Instant)
    requires k in m.grace && k !in m.live
    requires forall op :: op in ops ==> !Settles(op, k) && (op.PruneDead? ==> op.at <= at)
    ensures var s := After(m, ops);
            && k !in s.live
            && if k in s.grace then s.grace[k] == m.grace[k]
               else Elapsed(m.grace[k].1, at) >= PRUNE_REPORT_GRACE
  {
    if ops != [] {
      GraceLasts(m, ops[..|ops| - 1], k, at);
      assert ops[|ops| - 1] in ops;
      hide After;
      assert After(m, ops) == Step(After(m, ops[..|ops| - 1]), ops[|ops| - 1]) by {
        AfterUnrolled(m, ops);
      }
    }
  }

  lemma AfterUnrolled(m: Memory, ops: seq<Op>)
    requires ops != []
    ensures After(m, ops) == Step(After(m, ops[..|ops| - 1]), ops[|ops| - 1])
  {
  }

  /**
   * A report that lost the race to the snapshot is answered with the window the
   * snapshot retired exactly while the grace lasts, whatever else happens in
   * between to other sessions and however often the grace map is swept.
   */
  lemma LateReportAnsweredIffInGrace(m: Memory, windows: set<WindowId>, prunedAt: Instant,
                                     ops: seq<Op>, k: BindingKey, reportAt: Instant)
    requires k in DeadKeys(m.live, windows)
    requires forall op :: op in ops ==> !Settles(op, k) && (op.PruneDead? ==> op.at <= reportAt)
    ensures var answer := ReportAnswer(After(Step(m, Op.PruneDead(windows, prunedAt)), ops), k, reportAt);
            if reportAt < prunedAt + PRUNE_REPORT_GRACE then IsHeld(answer, m.live[k], prunedAt) else answer.None?
  {
    var pruned := Step(m, Op.PruneDead(windows, prunedAt));
    assert k in Stamped(m.live, DeadKeys(m.live, windows), prunedAt);
    hide Step, After;
    GraceLasts(pruned, ops, k, reportAt);
  }

  /**
   * The two detectors commute: a dead window's report gets the same window and
   * leaves the same memory whether it comes before or after the snapshot, if
   * and only if the later report is within the grace.
   */
  lemma DetectorsCommute(m: Memory, windows: set<WindowId>, k: BindingKey,
                         prunedAt: Instant, early: Instant, late: Instant)
    requires m.live.Keys !! m.grace.Keys
    requires k in DeadKeys(m.live, windows)
    ensures var snapshotFirst := Step(m, Op.PruneDead(windows, prunedAt));
            var reportFirst := Step(m, Op.PruneToken(k, early));
            && Step(snapshotFirst, Op.PruneToken(k, late)) == Step(reportFirst, Op.PruneDead(windows, prunedAt))
            && ReportAnswer(m, k, early).Some?
            && (ReportAnswer(snapshotFirst, k, late).Some? <==> late < prunedAt + PRUNE_REPORT_GRACE)
            && (ReportAnswer(snapshotFirst, k, late).Some? ==>
                  ReportAnswer(snapshotFirst, k, late).value.window == ReportAnswer(m, k, early).value.window)
  {
    var dead := DeadKeys(m.live, windows);
    assert k in Stamped(m.live, dead, prunedAt);
    PruneWithout(m, windows, k, prunedAt);
  }

  /** Forgetting k before the snapshot or after it makes no difference to the rest. */
  lemma PruneWithout(m: Memory, windows: set<WindowId>, k: BindingKey, at: Instant)
    requires m.live.Keys !! m.grace.Keys
    requires k in DeadKeys(m.live, windows)
    ensures var pruned := Step(m, Op.PruneDead(windows, at));
            pruned.(grace := pruned.grace - {k}) == Step(m.(live := m.live - {k}), Op.PruneDead(windows, at))
  {
    var dead := DeadKeys(m.live, windows);
    var rest := m.live - {k};
    assert DeadKeys(rest, windows) == dead - {k};
    assert rest - (dead - {k}) == m.live - dead;
    hide DeadKeys;
    assert Stamped(m.live, dead, at) - {k} == Stamped(rest, dead - {k}, at);
    assert k !in m.grace;
  }
}
