// Models src/app/launch.rs: dashboard-owned launches, from the placeholder to
// the host-owned row, over every interleaving of workers, rows, reports, input
// and the confirmation timeout.
module Launch {
  import opened Common
  import opened Options
  import Bindings

  type HostId = Bindings.HostId
  type WindowId = Bindings.WindowId
  type Instant = Bindings.Instant

  const CONFIRM_TIMEOUT: nat := 30_000_000_000

  /** What a one-shot worker channel holds; `Broken` is an error or a lost worker. */
  datatype Reply<+T> = Empty | Ready(value: T) | Broken

  datatype Plan = SpawnLocal | AttachRemote(session: string)

  datatype Phase =
    | Opening(plan: Reply<Plan>)
    | Spawning(window: Reply<Option<WindowId>>)
    | Waiting(since: Instant)
    | Failed

  datatype DetachReport = DetachReport(host: string, token: string, status: Option<int>, heldSecs: Option<nat>)

  /** A session row; `pid` with the host is the key the cursor follows. */
  datatype Row = Row(host: HostId, token: Option<string>, pid: nat)

  type FlagKey = (HostId, nat)

  function KeyOf(row: Row): FlagKey {
    (row.host, row.pid)
  }

  datatype Pending = Pending(id: string, host: HostId, token: Option<string>, phase: Phase,
                             selected: bool, activate: bool, reports: seq<DetachReport>)
  {
    predicate Matches(row: Row) {
      row.host == host && token.Some? && row.token == token
    }

    predicate Reported(report: DetachReport) {
      host.name == report.host && token == Some(report.token)
    }
  }

  /** What a launch shows the outside: its window spawned, a report kept, its outcome. */
  datatype Event =
    | Spawned(id: string, host: HostId, token: string)
    | Deferred(id: string, report: DetachReport)
    | Finished(id: string, host: HostId, bound: Option<string>, window: Option<WindowId>, reports: seq<DetachReport>)

  datatype Answer = Kept | Closed | Other

  // ---------------------------------------------------------------------
  // Specification of one entry
  // ---------------------------------------------------------------------

  /** The binding token: the pool session's name, or our own launch id. */
  function Prepare(p: Pending, plan: Plan): string {
    match plan
    case SpawnLocal => p.id
    case AttachRemote(session) => session
  }

  function Finish(p: Pending, window: Option<WindowId>): Event {
    Finished(p.id, p.host, p.token, window, p.reports)
  }

  function PollEntry(p: Pending, canSpawn: Pending -> bool, now: Instant): Pending {
    match p.phase
    case Opening(Empty) => p
    case Opening(Ready(plan)) =>
      if canSpawn(p) then p.(token := Some(Prepare(p, plan)), phase := Spawning(Empty))
      else p.(phase := Failed, reports := [])
    case Opening(Broken) => p.(phase := Failed, reports := [])
    case Spawning(Empty) => p
    case Spawning(Ready(Some(w))) => p.(phase := Waiting(now), reports := [])
    case Spawning(_) => p.(phase := Failed, reports := [])
    case _ => p
  }

  function PollEvent(p: Pending, canSpawn: Pending -> bool): Option<Event> {
    match p.phase
    case Opening(Ready(plan)) =>
      if canSpawn(p) then Some(Spawned(p.id, p.host, Prepare(p, plan))) else Some(Finish(p, None))
    case Opening(Broken) => Some(Finish(p, None))
    case Spawning(Ready(window)) => Some(Finish(p, window))
    case Spawning(Broken) => Some(Finish(p, None))
    case _ => None
  }

  function Unfailed(p: Pending): Option<Pending> {
    if p.phase.Failed? then None else Some(p)
  }

  predicate Expired(p: Pending, now: Instant) {
    p.phase.Waiting? && Elapsed(p.phase.since, now) >= CONFIRM_TIMEOUT
  }

  function MatchedRow(p: Pending, rows: seq<Row>): (r: Option<Row>)
    ensures r.Some? <==> exists row :: row in rows && p.Matches(row)
    ensures r.Some? ==> r.value in rows && p.Matches(r.value)
  {
    if rows == [] then None
    else if p.Matches(rows[0]) then Some(rows[0])
    else
      assert forall row :: row in rows <==> row == rows[0] || row in rows[1..];
      MatchedRow(p, rows[1..])
  }

  /** It is the first of them. */
  lemma {:induction false} MatchedFirst(p: Pending, rows: seq<Row>, i: nat)
    requires i < |rows| && p.Matches(rows[i]) && forall j :: 0 <= j < i ==> !p.Matches(rows[j])
    ensures MatchedRow(p, rows) == Some(rows[i])
  {
    if i > 0 {
      assert rows[1..][i - 1] == rows[i] && forall j :: 0 <= j < i - 1 ==> rows[1..][j] == rows[j + 1];
      MatchedFirst(p, rows[1..], i - 1);
    }
  }

  predicate Confirmed(p: Pending, rows: seq<Row>) {
    p.phase.Waiting? && MatchedRow(p, rows).Some?
  }

  function ReconcileEntry(p: Pending, rows: seq<Row>, now: Instant): Option<Pending> {
    if Confirmed(p, rows) || Expired(p, now) then None else Some(p)
  }

  // ---------------------------------------------------------------------
  // Lists of entries
  // ---------------------------------------------------------------------

  /** Rewrite every entry, dropping those that become None. */
  function Transform(ps: seq<Pending>, f: Pending -> Option<Pending>): seq<Pending> {
    if ps == [] then [] else Transform(ps[..|ps| - 1], f) + Opt(f(ps[|ps| - 1]))
  }

  function Events(ps: seq<Pending>, g: Pending -> Option<Event>): seq<Event> {
    if ps == [] then [] else Events(ps[..|ps| - 1], g) + Opt(g(ps[|ps| - 1]))
  }

  predicate DistinctIds(ps: seq<Pending>) {
    forall i, j :: 0 <= i < j < |ps| ==> ps[i].id != ps[j].id
  }

  /** No two launches share a host and a token. */
  predicate DistinctPairs(ps: seq<Pending>) {
    forall i, j :: 0 <= i < j < |ps| && ps[i].token.Some? && ps[i].host == ps[j].host
                   ==> ps[i].token != ps[j].token
  }

  predicate AtMostOneSelected(ps: seq<Pending>) {
    && (forall i, j :: 0 <= i < j < |ps| ==> !(ps[i].selected && ps[j].selected))
    && (forall i :: 0 <= i < |ps| && ps[i].activate ==> ps[i].selected)
  }

  predicate Visible(p: Pending, rows: seq<Row>) {
    !Confirmed(p, rows)
  }

  predicate AwaitingWindow(ps: seq<Pending>, row: Row) {
    exists i :: 0 <= i < |ps| && ps[i].phase.Spawning? && ps[i].Matches(row)
  }

  function FirstIndex(ps: seq<Pending>, f: Pending -> bool): (n: nat)
    ensures n <= |ps|
    ensures forall i :: 0 <= i < n ==> !f(ps[i])
    ensures n < |ps| ==> f(ps[n])
  {
    if ps == [] then 0
    else if f(ps[0]) then 0
    else
      var m := FirstIndex(ps[1..], f);
      assert forall i :: 1 <= i < |ps| ==> ps[1..][i - 1] == ps[i];
      1 + m
  }

  /** The row a confirmed placeholder hands the cursor, or the queued Enter, to. */
  function LastHandover(ps: seq<Pending>, rows: seq<Row>, wanted: Pending -> bool): Option<FlagKey> {
    if ps == [] then None
    else
      var p := ps[|ps| - 1];
      if Confirmed(p, rows) && wanted(p) then Some(KeyOf(MatchedRow(p, rows).value))
      else LastHandover(ps[..|ps| - 1], rows, wanted)
  }

  function ExpiredHosts(ps: seq<Pending>, rows: seq<Row>, now: Instant): seq<HostId> {
    if ps == [] then []
    else
      var p := ps[|ps| - 1];
      ExpiredHosts(ps[..|ps| - 1], rows, now) + if !Confirmed(p, rows) && Expired(p, now) then [p.host] else []
  }

  /** A detach report that names a launch is kept, or closes it, as its phase says. */
  function AfterReport(ps: seq<Pending>, report: DetachReport): seq<Pending> {
    var n := FirstIndex(ps, Names(report));
    if n == |ps| then ps
    else if ps[n].phase.Spawning? then ps[n := ps[n].(reports := ps[n].reports + [report])]
    else Transform(ps, CloseStep(report))
  }

  function ReportAnswer(ps: seq<Pending>, report: DetachReport): Answer {
    var n := FirstIndex(ps, Names(report));
    if n == |ps| then Other else if ps[n].phase.Spawning? then Kept else Closed
  }

  function PollStep(canSpawn: Pending -> bool, now: Instant): Pending -> Option<Pending> {
    p => Unfailed(PollEntry(p, canSpawn, now))
  }

  function PollNote(canSpawn: Pending -> bool): Pending -> Option<Event> {
    p => PollEvent(p, canSpawn)
  }

  function ReconcileStep(rows: seq<Row>, now: Instant): Pending -> Option<Pending> {
    p => ReconcileEntry(p, rows, now)
  }

  function SelectStep(id: string): Pending -> Option<Pending> {
    (p: Pending) => Some(p.(selected := p.id == id, activate := false))
  }

  function CloseStep(report: DetachReport): Pending -> Option<Pending> {
    (p: Pending) => if p.Reported(report) then None else Some(p)
  }

  function Names(report: DetachReport): Pending -> bool {
    (p: Pending) => p.Reported(report)
  }

  function HasId(id: string): Pending -> bool {
    (p: Pending) => p.id == id
  }

  predicate IsSelected(p: Pending) {
    p.selected
  }

  predicate IsQueued(p: Pending) {
    p.selected && p.activate
  }

  function ActivateStep(p: Pending): Option<Pending> {
    Some(p.(activate := p.activate || p.selected))
  }

  function Deselected(p: Pending): Option<Pending> {
    Some(p.(selected := false, activate := false))
  }

  function Calmed(p: Pending): Option<Pending> {
    Some(p.(activate := false))
  }

  function Placeholder(id: string, host: HostId): Pending {
    Pending(id, host, None, Opening(Empty), true, false, [])
  }

  /** Transform entry i onwards has been done to a prefix. */
  lemma TransformNext(ps: seq<Pending>, i: nat, f: Pending -> Option<Pending>)
    requires i < |ps|
    ensures Transform(ps[..i + 1], f) == Transform(ps[..i], f) + Opt(f(ps[i]))
  {
    assert ps[..i + 1][..i] == ps[..i];
  }

  lemma EventsNext(ps: seq<Pending>, i: nat, g: Pending -> Option<Event>)
    requires i < |ps|
    ensures Events(ps[..i + 1], g) == Events(ps[..i], g) + Opt(g(ps[i]))
  {
    assert ps[..i + 1][..i] == ps[..i];
  }

  lemma {:induction false} TransformAll(ps: seq<Pending>, f: Pending -> Option<Pending>, qs: seq<Pending>)
    requires |qs| == |ps| && forall i :: 0 <= i < |ps| ==> f(ps[i]) == Some(qs[i])
    ensures Transform(ps, f) == qs
  {
    if ps != [] {
      var n := |ps| - 1;
      TransformAll(ps[..n], f, qs[..n]);
      assert qs == qs[..n] + [qs[n]];
    }
  }

  lemma {:induction false} PolledThenRetained(ps: seq<Pending>, qs: seq<Pending>, canSpawn: Pending -> bool, now: Instant)
    requires |qs| == |ps| && forall i :: 0 <= i < |ps| ==> qs[i] == PollEntry(ps[i], canSpawn, now)
    ensures Transform(qs, Unfailed) == Transform(ps, PollStep(canSpawn, now))
  {
    if ps != [] {
      PolledThenRetained(ps[..|ps| - 1], qs[..|ps| - 1], canSpawn, now);
    }
  }

  lemma StaysValid(ps: seq<Pending>, f: Pending -> Option<Pending>)
    requires DistinctIds(ps) && AtMostOneSelected(ps)
    requires forall p: Pending :: KeepsId(f, p) && ((p.activate ==> p.selected) ==> Demotes(f, p))
    ensures DistinctIds(Transform(ps, f)) && AtMostOneSelected(Transform(ps, f))
  {
    TransformIds(ps, f);
    TransformSelected(ps, f);
  }

  // ---------------------------------------------------------------------
  // What the operations do, launch by launch
  // ---------------------------------------------------------------------

  /**
   * What a poll makes of launch p: a reserved one goes on under the session's
   * name or its own id, one whose terminal named a window is bound to it, any
   * other reply ends it without a window, and no reply leaves it alone. It is q
   * afterwards, if still there, and `own` are its events.
   */
  predicate Advances(p: Pending, canSpawn: Pending -> bool, now: Instant, q: Option<Pending>, own: seq<Event>) {
    match p.phase
    case Opening(Ready(plan)) =>
      if canSpawn(p) then
        var token := if plan.AttachRemote? then plan.session else p.id;
        && q == Some(p.(token := Some(token), phase := Spawning(Empty)))
        && own == [Spawned(p.id, p.host, token)]
      else q.None? && own == [Finished(p.id, p.host, p.token, None, p.reports)]
    case Spawning(Ready(Some(w))) =>
      && q == Some(p.(phase := Waiting(now), reports := []))
      && own == [Finished(p.id, p.host, p.token, Some(w), p.reports)]
    case Opening(Broken) => q.None? && own == [Finished(p.id, p.host, p.token, None, p.reports)]
    case Spawning(Broken) => q.None? && own == [Finished(p.id, p.host, p.token, None, p.reports)]
    case Spawning(Ready(None)) => q.None? && own == [Finished(p.id, p.host, p.token, None, p.reports)]
    case Failed => q.None? && own == []
    case _ => q == Some(p) && own == []
  }

  lemma PollAdvances(ps: seq<Pending>, canSpawn: Pending -> bool, now: Instant)
    requires DistinctIds(ps)
    ensures var after := Transform(ps, PollStep(canSpawn, now));
            && (forall p :: p in ps ==>
                  Advances(p, canSpawn, now, Find(after, p.id), Trace(Events(ps, PollNote(canSpawn)), p.id)))
            && (forall q :: q in after ==> exists p :: p in ps && p.id == q.id)
  {
    hide *;
    var f, g := PollStep(canSpawn, now), PollNote(canSpawn);
    PollStepFacts(canSpawn, now);
    forall p | p in ps
      ensures Advances(p, canSpawn, now, Find(Transform(ps, f), p.id), Trace(Events(ps, g), p.id))
    {
      FindTransform(ps, f, p.id);
      TraceEvents(ps, g, p.id);
      FindMember(ps, p);
      OneAdvances(p, canSpawn, now);
    }
    forall q | q in Transform(ps, f)
      ensures exists p :: p in ps && p.id == q.id
    {
      var k := TransformFrom(ps, f, q);
      assert KeepsId(f, ps[k]);
      KeptId(f, ps[k]);
    }
  }

  lemma KeptId(f: Pending -> Option<Pending>, p: Pending)
    ensures KeepsId(f, p) && f(p).Some? ==> f(p).value.id == p.id
  {
  }

  lemma FindMember(ps: seq<Pending>, p: Pending)
    requires DistinctIds(ps) && p in ps
    ensures Find(ps, p.id) == Some(p)
  {
    var i :| 0 <= i < |ps| && ps[i] == p;
    FindByIndex(ps, i);
  }

  lemma OneAdvances(p: Pending, canSpawn: Pending -> bool, now: Instant)
    ensures Advances(p, canSpawn, now, Bind(Some(p), PollStep(canSpawn, now)), Opt(Bind(Some(p), PollNote(canSpawn))))
  {
  }

  /** Row i is the first with the host and token of p, whose window is bound. */
  predicate ShowsRow(p: Pending, rows: seq<Row>, i: int) {
    && p.phase.Waiting? && p.token.Some? && 0 <= i < |rows|
    && rows[i].host == p.host && rows[i].token == p.token
    && forall j :: 0 <= j < i ==> rows[j].host != p.host || rows[j].token != p.token
  }

  /** What a reconcile makes of launch p: its row or the deadline takes it away, and nothing else does. */
  ghost predicate Settles(p: Pending, rows: seq<Row>, now: Instant, after: seq<Pending>, expired: seq<HostId>) {
    var shown := exists i :: ShowsRow(p, rows, i);
    var late := p.phase.Waiting? && now >= p.phase.since + CONFIRM_TIMEOUT;
    (p in after <==> !shown && !late) && (late && !shown ==> p.host in expired)
  }

  lemma ShownIffConfirmed(p: Pending, rows: seq<Row>)
    ensures Confirmed(p, rows) <==> exists i :: ShowsRow(p, rows, i)
    ensures forall i :: ShowsRow(p, rows, i) ==> MatchedRow(p, rows) == Some(rows[i])
  {
    forall i | ShowsRow(p, rows, i)
      ensures MatchedRow(p, rows) == Some(rows[i])
    {
      MatchedFirst(p, rows, i);
    }
    if Confirmed(p, rows) {
      var i := FirstMatch(p, rows);
      assert ShowsRow(p, rows, i);
    }
  }

  lemma {:induction false} FirstMatch(p: Pending, rows: seq<Row>) returns (i: nat)
    requires MatchedRow(p, rows).Some?
    ensures i < |rows| && p.Matches(rows[i]) && forall j :: 0 <= j < i ==> !p.Matches(rows[j])
  {
    i := 0;
    if !p.Matches(rows[0]) {
      var k := FirstMatch(p, rows[1..]);
      i := k + 1;
      assert forall j :: 1 <= j < i ==> rows[j] == rows[1..][j - 1];
    }
  }

  lemma ReconcileSettles(ps: seq<Pending>, rows: seq<Row>, now: Instant)
    requires DistinctIds(ps)
    ensures var after := Transform(ps, ReconcileStep(rows, now));
            && (forall p :: p in ps ==> Settles(p, rows, now, after, ExpiredHosts(ps, rows, now)))
            && (forall q :: q in after ==> q in ps)
  {
    hide *;
    var f := ReconcileStep(rows, now);
    ReconcileKeepsIds(rows, now);
    forall p | p in ps
      ensures Settles(p, rows, now, Transform(ps, f), ExpiredHosts(ps, rows, now))
    {
      FindTransform(ps, f, p.id);
      FindMember(ps, p);
      OneSettles(ps, p, rows, now);
    }
    forall q | q in Transform(ps, f)
      ensures q in ps
    {
      var k := TransformFrom(ps, f, q);
      ReconcileKeeps(rows, now, ps[k]);
    }
  }

  lemma ReconcileKeeps(rows: seq<Row>, now: Instant, p: Pending)
    ensures ReconcileStep(rows, now)(p).Some? ==> ReconcileStep(rows, now)(p).value == p
  {
  }

  lemma ReconcileKeepsIds(rows: seq<Row>, now: Instant)
    ensures forall p :: KeepsId(ReconcileStep(rows, now), p)
  {
  }

  lemma OneSettles(ps: seq<Pending>, p: Pending, rows: seq<Row>, now: Instant)
    requires DistinctIds(ps) && p in ps
    requires Find(Transform(ps, ReconcileStep(rows, now)), p.id) == Bind(Some(p), ReconcileStep(rows, now))
    ensures Settles(p, rows, now, Transform(ps, ReconcileStep(rows, now)), ExpiredHosts(ps, rows, now))
  {
    ShownIffConfirmed(p, rows);
    if !Confirmed(p, rows) && Expired(p, now) {
      HostExpires(ps, rows, now, p);
    }
    hide Find, Transform, ExpiredHosts, ShowsRow, Confirmed;
  }

  lemma {:induction false} HostExpires(ps: seq<Pending>, rows: seq<Row>, now: Instant, p: Pending)
    requires p in ps && !Confirmed(p, rows) && Expired(p, now)
    ensures p.host in ExpiredHosts(ps, rows, now)
  {
    hide Confirmed, Expired;
    if p in ps[..|ps| - 1] {
      HostExpires(ps[..|ps| - 1], rows, now, p);
    }
  }

  /** The cursor, and a queued Enter, go to the row of the selected launch, or nowhere. */
  lemma FocusGoesTo(ps: seq<Pending>, rows: seq<Row>)
    requires AtMostOneSelected(ps)
    ensures var focus, queued := LastHandover(ps, rows, IsSelected), LastHandover(ps, rows, IsQueued);
            && (forall p, i :: p in ps && p.selected && ShowsRow(p, rows, i) ==>
                  focus == Some((rows[i].host, rows[i].pid)) && queued == if p.activate then focus else None)
            && ((forall p, i :: p in ps && p.selected ==> !ShowsRow(p, rows, i)) ==> focus == None && queued == None)
  {
    forall p, i | p in ps && p.selected && ShowsRow(p, rows, i)
      ensures LastHandover(ps, rows, IsSelected) == Some((rows[i].host, rows[i].pid))
      ensures LastHandover(ps, rows, IsQueued) == if p.activate then LastHandover(ps, rows, IsSelected) else None
    {
      var k :| 0 <= k < |ps| && ps[k] == p;
      ShownIffConfirmed(p, rows);
      hide ShowsRow, Confirmed;
      CursorFollowsTheSelected(ps, rows, k);
      QueuedFollowsToo(ps, rows, k);
    }
    if forall p, i :: p in ps && p.selected ==> !ShowsRow(p, rows, i) {
      forall p | p in ps && p.selected
        ensures !Confirmed(p, rows)
      {
        ShownIffConfirmed(p, rows);
      }
      hide ShowsRow, Confirmed;
      NoHandover(ps, rows);
    }
  }

  lemma {:induction false} QueuedFollowsToo(ps: seq<Pending>, rows: seq<Row>, k: nat)
    requires AtMostOneSelected(ps) && k < |ps| && ps[k].selected
    ensures LastHandover(ps, rows, IsQueued) == if ps[k].activate then LastHandover(ps, rows, IsSelected) else None
  {
    hide Confirmed, MatchedRow;
    var n := |ps| - 1;
    if k < n {
      assert !ps[n].selected;
      QueuedFollowsToo(ps[..n], rows, k);
    } else {
      NobodyToFollow(ps[..n], rows);
    }
  }

  lemma {:induction false} NoHandover(ps: seq<Pending>, rows: seq<Row>)
    requires forall p :: p in ps && p.selected ==> !Confirmed(p, rows)
    ensures LastHandover(ps, rows, IsSelected).None? && LastHandover(ps, rows, IsQueued).None?
  {
    hide Confirmed, MatchedRow;
    if ps != [] {
      NoHandover(ps[..|ps| - 1], rows);
      assert ps[|ps| - 1] in ps;
    }
  }

  predicate IsFor(report: DetachReport, p: Pending) {
    p.host.name == report.host && p.token == Some(report.token)
  }

  /** Entry n is the first the report is for. */
  predicate FirstFor(report: DetachReport, ps: seq<Pending>, n: nat)
    requires n < |ps|
  {
    IsFor(report, ps[n]) && forall i :: 0 <= i < n ==> !IsFor(report, ps[i])
  }

  lemma FirstNamed(ps: seq<Pending>, report: DetachReport)
    ensures var n := FirstIndex(ps, Names(report));
            if n < |ps| then FirstFor(report, ps, n) else forall p :: p in ps ==> !IsFor(report, p)
  {
  }

  lemma {:induction false} ClosedAre(ps: seq<Pending>, report: DetachReport)
    ensures forall p :: p in Transform(ps, CloseStep(report)) <==> p in ps && !IsFor(report, p)
  {
    if ps != [] {
      ClosedAre(ps[..|ps| - 1], report);
      assert ps == ps[..|ps| - 1] + [ps[|ps| - 1]];
      assert forall p :: IsFor(report, p) <==> p.Reported(report);
      hide IsFor;
    }
  }

  class Launches {
    var pending: seq<Pending>
    var activation: Option<FlagKey>

    ghost predicate Valid()
      reads this
    {
      DistinctIds(pending) && AtMostOneSelected(pending)
    }

    constructor ()
      ensures Valid() && pending == [] && activation == None
    {
      pending := [];
      activation := None;
    }

    method CancelActivation()
      requires Valid()
      modifies this
      ensures Valid()
      ensures activation == None
      ensures pending == Transform(old(pending), Calmed)
      ensures |pending| == |old(pending)|
      ensures forall i :: 0 <= i < |pending| ==> pending[i] == old(pending)[i].(activate := false)
    {
      activation := None;
      ghost var was := pending;
      for i := 0 to |pending|
        invariant |pending| == |was| && activation == None
        invariant forall j :: 0 <= j < |was| ==>
                    pending[j] == if j < i then was[j].(activate := false) else was[j]
      {
        pending := pending[i := pending[i].(activate := false)];
      }
      TransformAll(was, Calmed, pending);
      StaysValid(was, Calmed);
    }

    method ClearSelection()
      requires Valid()
      modifies this
      ensures Valid()
      ensures activation == None
      ensures pending == Transform(old(pending), Deselected)
      ensures |pending| == |old(pending)|
      ensures forall i :: 0 <= i < |pending| ==> pending[i] == old(pending)[i].(selected := false, activate := false)
    {
      ghost var was := pending;
      CancelActivation();
      ghost var calm := pending;
      CalmedEntries(was);
      for i := 0 to |pending|
        invariant |pending| == |was| && activation == None
        invariant forall j :: 0 <= j < |was| ==>
                    pending[j] == if j < i then calm[j].(selected := false) else calm[j]
      {
        pending := pending[i := pending[i].(selected := false)];
      }
      TransformAll(was, Deselected, pending);
      StaysValid(was, Deselected);
    }

    method Start(id: string, host: HostId)
      requires Valid() && forall i :: 0 <= i < |pending| ==> pending[i].id != id
      modifies this
      ensures Valid()
      ensures activation == None
      ensures pending == Transform(old(pending), Deselected) + [Placeholder(id, host)]
      ensures |pending| == |old(pending)| + 1
      ensures forall i :: 0 <= i < |old(pending)| ==>
                pending[i] == old(pending)[i].(selected := false, activate := false)
      ensures var p := pending[|old(pending)|];
              && p.id == id && p.host == host && p.token.None? && p.phase == Opening(Empty)
              && p.selected && !p.activate && p.reports == []
    {
      DeselectedEntries(pending);
      ClearSelection();
      pending := pending + [Pending(id, host, None, Opening(Empty), true, false, [])];
    }

    /** Advance one launch as far as its worker's reply allows. */
    static method PollOne(p: Pending, canSpawn: Pending -> bool, now: Instant)
      returns (q: Pending, event: Option<Event>)
      ensures q == PollEntry(p, canSpawn, now) && event == PollEvent(p, canSpawn)
    {
      var window: Option<WindowId>;
      match p.phase {
        case Opening(Empty) => return p, None;
        case Opening(Ready(plan)) =>
          if canSpawn(p) {
            var token := Prepare(p, plan);
            return p.(token := Some(token), phase := Spawning(Empty)), Some(Spawned(p.id, p.host, token));
          }
          window := None;
        case Opening(Broken) => window := None;
        case Spawning(Empty) => return p, None;
        case Spawning(Ready(reply)) => window := reply;
        case Spawning(Broken) => window := None;
        case _ => return p, None;
      }
      q := p.(phase := if window.Some? then Waiting(now) else Failed, reports := []);
      event := Some(Finished(p.id, p.host, p.token, window, p.reports));
    }

    method RetainUnfailed()
      modifies this`pending
      ensures pending == Transform(old(pending), Unfailed)
    {
      var was := pending;
      pending := [];
      for i := 0 to |was|
        invariant pending == Transform(was[..i], Unfailed)
      {
        TransformNext(was, i, Unfailed);
        if !was[i].phase.Failed? {
          pending := pending + [was[i]];
        }
      }
      assert was[..|was|] == was;
    }

    method Poll(canSpawn: Pending -> bool, now: Instant) returns (events: seq<Event>, changed: bool)
      requires Valid()
      modifies this`pending
      ensures Valid()
      ensures pending == Transform(old(pending), PollStep(canSpawn, now))
      ensures events == Events(old(pending), PollNote(canSpawn))
      ensures forall p :: p in old(pending) ==>
                Advances(p, canSpawn, now, Find(pending, p.id), Trace(events, p.id))
      ensures forall q :: q in pending ==> exists p :: p in old(pending) && p.id == q.id
      ensures changed <==> events != []
    {
      hide PollEntry, PollEvent;
      ghost var was := pending;
      events := [];
      changed := false;
      for i := 0 to |pending|
        invariant |pending| == |was|
        invariant forall j :: 0 <= j < |was| ==>
                    pending[j] == if j < i then PollEntry(was[j], canSpawn, now) else was[j]
        invariant events == Events(was[..i], PollNote(canSpawn))
        invariant changed <==> events != []
      {
        EventsNext(was, i, PollNote(canSpawn));
        var q, event := PollOne(pending[i], canSpawn, now);
        pending := pending[i := q];
        if event.Some? {
          events := events + [event.value];
          changed := true;
        }
      }
      assert was[..|was|] == was;
      PolledThenRetained(was, pending, canSpawn, now);
      RetainUnfailed();
      PollStepFacts(canSpawn, now);
      StaysValid(was, PollStep(canSpawn, now));
      PollAdvances(was, canSpawn, now);
      hide Advances;
    }

    /** Rows that confirm a bound window, and the deadline, take placeholders away. */
    method Reconcile(rows: seq<Row>, now: Instant) returns (focus: Option<FlagKey>, expired: seq<HostId>)
      requires Valid()
      modifies this
      ensures Valid()
      ensures pending == Transform(old(pending), ReconcileStep(rows, now))
      ensures focus == LastHandover(old(pending), rows, IsSelected)
      ensures expired == ExpiredHosts(old(pending), rows, now)
      ensures var queued := LastHandover(old(pending), rows, IsQueued);
              activation == if queued.Some? then queued else old(activation)
      ensures forall p :: p in old(pending) ==> Settles(p, rows, now, pending, expired)
      ensures forall q :: q in pending ==> q in old(pending)
      ensures forall p, i :: p in old(pending) && p.selected && ShowsRow(p, rows, i) ==>
                focus == Some((rows[i].host, rows[i].pid)) && activation == if p.activate then focus else old(activation)
      ensures (forall p, i :: p in old(pending) && p.selected ==> !ShowsRow(p, rows, i)) ==>
                focus == None && activation == old(activation)
    {
      var was := pending;
      var queued: Option<FlagKey> := None;
      focus := None;
      expired := [];
      pending := [];
      for i := 0 to |was|
        invariant activation == old(activation)
        invariant pending == Transform(was[..i], ReconcileStep(rows, now))
        invariant focus == LastHandover(was[..i], rows, IsSelected)
        invariant queued == LastHandover(was[..i], rows, IsQueued)
        invariant expired == ExpiredHosts(was[..i], rows, now)
      {
        var p := was[i];
        TransformNext(was, i, ReconcileStep(rows, now));
        assert was[..i + 1][..i] == was[..i];
        if !p.phase.Waiting? {
          pending := pending + [p];
        } else {
          var row := MatchedRow(p, rows);
          if row.Some? {
            if p.selected {
              focus := Some(KeyOf(row.value));
              if p.activate {
                queued := focus;
              }
            }
          } else if Elapsed(p.phase.since, now) >= CONFIRM_TIMEOUT {
            expired := expired + [p.host];
          } else {
            pending := pending + [p];
          }
        }
      }
      assert was[..|was|] == was;
      StaysValid(was, ReconcileStep(rows, now));
      if queued.Some? {
        activation := queued;
      }
      ReconcileSettles(was, rows, now);
      FocusGoesTo(was, rows);
      hide *;
    }

    method Select(id: string)
      requires Valid()
      modifies this
      ensures Valid()
      ensures activation == None
      ensures pending == Transform(old(pending), SelectStep(id))
      ensures |pending| == |old(pending)|
      ensures forall i :: 0 <= i < |pending| ==>
                pending[i] == old(pending)[i].(selected := old(pending)[i].id == id, activate := false)
    {
      ghost var was := pending;
      ClearSelection();
      DeselectedEntries(was);
      var i := FirstIndex(pending, HasId(id));
      if i < |pending| {
        pending := pending[i := pending[i].(selected := true)];
      }
      TransformAll(was, SelectStep(id), pending);
      TransformIds(was, SelectStep(id));
      SelectKeepsOne(was, id);
    }

    method RequestActivation()
      requires Valid()
      modifies this`pending
      ensures Valid()
      ensures pending == Transform(old(pending), ActivateStep)
      ensures |pending| == |old(pending)|
      ensures forall i :: 0 <= i < |pending| ==> pending[i] == old(pending)[i].(activate := old(pending)[i].selected)
    {
      ghost var was := pending;
      var i := FirstIndex(pending, IsSelected);
      if i < |pending| {
        pending := pending[i := pending[i].(activate := true)];
      }
      TransformAll(was, ActivateStep, pending);
      StaysValid(was, ActivateStep);
    }

    method DeferReport(report: DetachReport) returns (answer: Answer)
      requires Valid()
      modifies this`pending
      ensures Valid()
      ensures pending == AfterReport(old(pending), report)
      ensures answer == ReportAnswer(old(pending), report)
      ensures answer.Other? ==> pending == old(pending) && forall p :: p in pending ==> !IsFor(report, p)
      ensures answer.Kept? ==>
                exists n :: 0 <= n < |old(pending)| && FirstFor(report, old(pending), n) && old(pending)[n].phase.Spawning?
                            && pending == old(pending)[n := old(pending)[n].(reports := old(pending)[n].reports + [report])]
      ensures answer.Closed? ==>
                && (exists n :: 0 <= n < |old(pending)| && FirstFor(report, old(pending), n)
                                && !old(pending)[n].phase.Spawning?)
                && forall p :: p in pending <==> p in old(pending) && !IsFor(report, p)
    {
      var was := pending;
      var n := FirstIndex(pending, Names(report));
      FirstNamed(was, report);
      ClosedAre(was, report);
      hide IsFor, FirstFor;
      if n == |pending| {
        return Other;
      }
      if pending[n].phase.Spawning? {
        pending := pending[n := pending[n].(reports := pending[n].reports + [report])];
        return Kept;
      }
      pending := [];
      for i := 0 to |was|
        invariant pending == Transform(was[..i], CloseStep(report))
      {
        TransformNext(was, i, CloseStep(report));
        if !was[i].Reported(report) {
          pending := pending + [was[i]];
        }
      }
      assert was[..|was|] == was;
      StaysValid(was, CloseStep(report));
      return Closed;
    }

    /** Uses up the queued focus; it goes through where the pointed row is the one it was queued for. */
    method TakeFocus(attentive: bool, pointed: Option<FlagKey>) returns (focus: Option<FlagKey>)
      requires Valid()
      modifies this`activation
      ensures Valid()
      ensures activation == None
      ensures focus == if attentive && old(activation).Some? && pointed == old(activation) then pointed else None
    {
      focus := activation;
      activation := None;
      if focus.Some? && (!attentive || pointed != focus) {
        focus := None;
      }
    }
  }

  lemma {:induction false} CalmedEntries(ps: seq<Pending>)
    ensures |Transform(ps, Calmed)| == |ps|
    ensures forall i :: 0 <= i < |ps| ==> Transform(ps, Calmed)[i] == ps[i].(activate := false)
  {
    TransformAll(ps, Calmed, seq(|ps|, i requires 0 <= i < |ps| => ps[i].(activate := false)));
  }

  lemma {:induction false} DeselectedEntries(ps: seq<Pending>)
    ensures |Transform(ps, Deselected)| == |ps|
    ensures forall i :: 0 <= i < |ps| ==>
              Transform(ps, Deselected)[i] == ps[i].(selected := false, activate := false)
  {
    TransformAll(ps, Deselected,
                 seq(|ps|, i requires 0 <= i < |ps| => ps[i].(selected := false, activate := false)));
  }

  // ---------------------------------------------------------------------
  // Runs
  // ---------------------------------------------------------------------

  /**
   * The list and its history: the launches started, the events, and, of queued
   * Enters, the launches they were pressed on, the launch the queued focus came
   * from, and the launches that handed theirs to a row and had it delivered.
   */
  datatype World = World(pending: seq<Pending>, activation: Option<FlagKey>, started: set<string>, log: seq<Event>,
                         requested: set<string>, owner: Option<string>, handed: seq<string>, delivered: seq<string>)

  const START := World([], None, {}, [], {}, None, [], [])

  /** Everything that can happen next: workers, input, rows, reports and clocks in any order. */
  datatype Step =
    | Start(id: string, host: HostId)
    | OpenReply(id: string, plan: Reply<Plan>)
    | SpawnReply(id: string, window: Reply<Option<WindowId>>)
    | Poll(canSpawn: Pending -> bool, now: Instant)
    | Reconcile(rows: seq<Row>, now: Instant)
    | Select(id: string)
    | ClearSelection
    | RequestActivation
    | CancelActivation
    | Report(report: DetachReport)
    | TakeFocus(attentive: bool, pointed: Option<FlagKey>)

  /** A worker sends at most one reply. */
  function OpenStep(id: string, reply: Reply<Plan>): Pending -> Option<Pending> {
    (p: Pending) => Some(if p.id == id && p.phase == Opening(Empty) then p.(phase := Opening(reply)) else p)
  }

  function SpawnStep(id: string, reply: Reply<Option<WindowId>>): Pending -> Option<Pending> {
    (p: Pending) => Some(if p.id == id && p.phase == Spawning(Empty) then p.(phase := Spawning(reply)) else p)
  }

  function Queued(w: World, rows: seq<Row>): Option<FlagKey> {
    LastHandover(w.pending, rows, IsQueued)
  }

  /** The launch behind `LastHandover`. */
  function HandedOver(ps: seq<Pending>, rows: seq<Row>, wanted: Pending -> bool): Option<string> {
    if ps == [] then None
    else
      var p := ps[|ps| - 1];
      if Confirmed(p, rows) && wanted(p) then Some(p.id) else HandedOver(ps[..|ps| - 1], rows, wanted)
  }

  ghost function SelectedIds(ps: seq<Pending>): set<string> {
    set i | 0 <= i < |ps| && ps[i].selected :: ps[i].id
  }

  ghost function Next(w: World, s: Step): World {
    match s
    case Start(id, host) =>
      w.(pending := Transform(w.pending, Deselected) + [Placeholder(id, host)], activation := None, owner := None,
         started := w.started + {id})
    case OpenReply(id, reply) => w.(pending := Transform(w.pending, OpenStep(id, reply)))
    case SpawnReply(id, reply) => w.(pending := Transform(w.pending, SpawnStep(id, reply)))
    case Poll(canSpawn, now) =>
      w.(pending := Transform(w.pending, PollStep(canSpawn, now)),
         log := w.log + Events(w.pending, PollNote(canSpawn)))
    case Reconcile(rows, now) =>
      var from := HandedOver(w.pending, rows, IsQueued);
      w.(pending := Transform(w.pending, ReconcileStep(rows, now)),
         activation := if Queued(w, rows).Some? then Queued(w, rows) else w.activation,
         owner := if from.Some? then from else w.owner, handed := w.handed + Opt(from))
    case Select(id) => w.(pending := Transform(w.pending, SelectStep(id)), activation := None, owner := None)
    case ClearSelection => w.(pending := Transform(w.pending, Deselected), activation := None, owner := None)
    case RequestActivation =>
      w.(pending := Transform(w.pending, ActivateStep), requested := w.requested + SelectedIds(w.pending))
    case CancelActivation => w.(pending := Transform(w.pending, Calmed), activation := None, owner := None)
    case Report(report) =>
      w.(pending := AfterReport(w.pending, report),
         log := w.log + if ReportAnswer(w.pending, report).Kept?
                        then [Deferred(w.pending[FirstIndex(w.pending, Names(report))].id, report)] else [])
    case TakeFocus(attentive, pointed) =>
      w.(activation := None, owner := None,
         delivered := w.delivered + if attentive && w.activation.Some? && pointed == w.activation then Opt(w.owner) else [])
  }

  /** Launch ids are minted fresh, and a reserved token is not one a live launch already has. */
  ghost predicate Legal(w: World, s: Step) {
    && (s.Start? ==> s.id !in w.started)
    && (s.Poll? ==> DistinctPairs(Transform(w.pending, PollStep(s.canSpawn, s.now))))
  }

  ghost function Run(steps: seq<Step>): World {
    if steps == [] then START else Next(Run(steps[..|steps| - 1]), steps[|steps| - 1])
  }

  ghost predicate LegalRun(steps: seq<Step>) {
    steps != [] ==> LegalRun(steps[..|steps| - 1]) && Legal(Run(steps[..|steps| - 1]), steps[|steps| - 1])
  }

  // ---------------------------------------------------------------------
  // Lists keep their entries apart
  // ---------------------------------------------------------------------

  predicate KeepsId(f: Pending -> Option<Pending>, p: Pending) {
    f(p).Some? ==> f(p).value.id == p.id
  }

  predicate KeepsPair(f: Pending -> Option<Pending>, p: Pending) {
    f(p).Some? ==> f(p).value.host == p.host && f(p).value.token == p.token
  }

  lemma {:induction false} TransformFrom(ps: seq<Pending>, f: Pending -> Option<Pending>, q: Pending)
    returns (k: nat)
    requires q in Transform(ps, f)
    ensures k < |ps| && f(ps[k]) == Some(q)
  {
    var n := |ps| - 1;
    if f(ps[n]) == Some(q) {
      k := n;
    } else {
      k := TransformFrom(ps[..n], f, q);
    }
  }

  lemma {:induction false} TransformIds(ps: seq<Pending>, f: Pending -> Option<Pending>)
    requires DistinctIds(ps) && forall p :: KeepsId(f, p)
    ensures DistinctIds(Transform(ps, f))
  {
    if ps != [] {
      var n := |ps| - 1;
      var before := Transform(ps[..n], f);
      TransformIds(ps[..n], f);
      forall i | 0 <= i < |before|
        ensures before[i].id != ps[n].id
      {
        var k := TransformFrom(ps[..n], f, before[i]);
        assert KeepsId(f, ps[k]);
      }
      assert KeepsId(f, ps[n]);
    }
  }

  lemma {:induction false} TransformPairs(ps: seq<Pending>, f: Pending -> Option<Pending>)
    requires DistinctPairs(ps) && forall p :: KeepsPair(f, p)
    ensures DistinctPairs(Transform(ps, f))
  {
    if ps != [] {
      var n := |ps| - 1;
      var before := Transform(ps[..n], f);
      TransformPairs(ps[..n], f);
      forall i | 0 <= i < |before|
        ensures before[i].token.Some? && before[i].host == ps[n].host ==> before[i].token != ps[n].token
      {
        var k := TransformFrom(ps[..n], f, before[i]);
        assert KeepsPair(f, ps[k]);
      }
      assert KeepsPair(f, ps[n]);
    }
  }

  /** A step never selects a second launch, nor activates an unselected one. */
  predicate Demotes(f: Pending -> Option<Pending>, p: Pending) {
    f(p).Some? ==> (f(p).value.selected ==> p.selected) && (f(p).value.activate ==> f(p).value.selected)
  }

  lemma {:induction false} TransformSelected(ps: seq<Pending>, f: Pending -> Option<Pending>)
    requires AtMostOneSelected(ps)
    requires forall p: Pending :: (p.activate ==> p.selected) ==> Demotes(f, p)
    ensures AtMostOneSelected(Transform(ps, f))
  {
    if ps != [] {
      var n := |ps| - 1;
      var before := Transform(ps[..n], f);
      TransformSelected(ps[..n], f);
      forall i | 0 <= i < |before|
        ensures !(before[i].selected && ps[n].selected)
      {
        var k := TransformFrom(ps[..n], f, before[i]);
        assert Demotes(f, ps[k]);
      }
      assert Demotes(f, ps[n]);
    }
  }

  lemma {:induction false} SelectKeepsOne(ps: seq<Pending>, id: string)
    requires DistinctIds(ps)
    ensures AtMostOneSelected(Transform(ps, SelectStep(id)))
  {
    if ps != [] {
      var n := |ps| - 1;
      var before := Transform(ps[..n], SelectStep(id));
      SelectKeepsOne(ps[..n], id);
      forall i | 0 <= i < |before|
        ensures before[i].selected ==> ps[n].id != id
      {
        var k := TransformFrom(ps[..n], SelectStep(id), before[i]);
      }
    }
  }

  // ---------------------------------------------------------------------
  // One launch's part of a list and of the log
  // ---------------------------------------------------------------------

  function Find(ps: seq<Pending>, id: string): (r: Option<Pending>)
    ensures r.None? <==> forall i :: 0 <= i < |ps| ==> ps[i].id != id
    ensures r.Some? ==> r.value.id == id && r.value in ps
  {
    if ps == [] then None
    else if ps[|ps| - 1].id == id then Some(ps[|ps| - 1])
    else Find(ps[..|ps| - 1], id)
  }

  function Bind<T, U>(o: Option<T>, f: T -> Option<U>): Option<U> {
    if o.Some? then f(o.value) else None
  }

  lemma FindAppend(ps: seq<Pending>, p: Pending, id: string)
    ensures Find(ps + [p], id) == if p.id == id then Some(p) else Find(ps, id)
  {
    assert (ps + [p])[..|ps|] == ps;
  }

  /** Looking an entry up in a list with distinct ids: the last one has it or the others do. */
  lemma FindLast(ps: seq<Pending>, id: string)
    requires ps != [] && DistinctIds(ps)
    ensures var p := ps[|ps| - 1];
            Find(ps, id) == if p.id == id then Some(p) else Find(ps[..|ps| - 1], id)
    ensures ps[|ps| - 1].id == id ==> Find(ps[..|ps| - 1], id).None?
  {
  }

  lemma {:induction false} FindTransform(ps: seq<Pending>, f: Pending -> Option<Pending>, id: string)
    requires DistinctIds(ps) && forall p :: KeepsId(f, p)
    ensures Find(Transform(ps, f), id) == Bind(Find(ps, id), f)
  {
    if ps != [] {
      var n := |ps| - 1;
      FindTransform(ps[..n], f, id);
      FindLast(ps, id);
      hide Find;
      assert KeepsId(f, ps[n]);
      if f(ps[n]).Some? {
        FindAppend(Transform(ps[..n], f), f(ps[n]).value, id);
      } else {
        assert Transform(ps, f) == Transform(ps[..n], f);
      }
    }
  }

  function Trace(log: seq<Event>, id: string): seq<Event> {
    if log == [] then []
    else Trace(log[..|log| - 1], id) + if log[|log| - 1].id == id then [log[|log| - 1]] else []
  }

  lemma TraceAppend(log: seq<Event>, e: Event, id: string)
    ensures Trace(log + [e], id) == Trace(log, id) + if e.id == id then [e] else []
  {
    assert (log + [e])[..|log|] == log;
  }

  predicate NotesOwnId(g: Pending -> Option<Event>, p: Pending) {
    g(p).Some? ==> g(p).value.id == p.id
  }

  lemma {:induction false} TraceConcat(log: seq<Event>, more: seq<Event>, id: string)
    ensures Trace(log + more, id) == Trace(log, id) + Trace(more, id)
  {
    if more == [] {
      assert log + more == log;
    } else {
      var n := |more| - 1;
      assert log + more == (log + more[..n]) + [more[n]];
      TraceAppend(log + more[..n], more[n], id);
      TraceConcat(log, more[..n], id);
    }
  }

  /** One pass over the list notes at most one event of a launch: its own. */
  lemma {:induction false} TraceEvents(ps: seq<Pending>, g: Pending -> Option<Event>, id: string)
    requires DistinctIds(ps) && forall p :: NotesOwnId(g, p)
    ensures Trace(Events(ps, g), id) == Opt(Bind(Find(ps, id), g))
  {
    if ps != [] {
      var n := |ps| - 1;
      TraceEvents(ps[..n], g, id);
      FindLast(ps, id);
      assert NotesOwnId(g, ps[n]);
      hide Find, Trace;
      if g(ps[n]).Some? {
        TraceAppend(Events(ps[..n], g), g(ps[n]).value, id);
      } else {
        assert Events(ps, g) == Events(ps[..n], g);
      }
    }
  }

  // ---------------------------------------------------------------------
  // What every launch's history looks like
  // ---------------------------------------------------------------------

  function Deferrals(id: string, reports: seq<DetachReport>): seq<Event> {
    seq(|reports|, i requires 0 <= i < |reports| => Deferred(id, reports[i]))
  }

  /** Spawning: one window asked for, under the token already recorded, and the reports kept since. */
  predicate UnderWay(t: seq<Event>, p: Pending) {
    p.token.Some? && t == [Spawned(p.id, p.host, p.token.value)] + Deferrals(p.id, p.reports)
  }

  /** Over: exactly one `Finished`, last, carrying every kept report once and in order. */
  predicate Complete(t: seq<Event>, id: string) {
    && t != []
    && var end := t[|t| - 1];
       && end.Finished? && end.id == id
       && if |t| == 1 then end.bound.None? && end.window.None? && end.reports == []
          else
            && t[0].Spawned? && end.host == t[0].host && end.bound == Some(t[0].token)
            && t == [Spawned(id, t[0].host, t[0].token)] + Deferrals(id, end.reports) + [end]
  }

  /** It ended well: with a window, under the launch's own token. */
  predicate BoundTo(t: seq<Event>, p: Pending) {
    && t != []
    && var end := t[|t| - 1]; end.Finished? && end.window.Some? && end.host == p.host && end.bound == p.token
  }

  ghost predicate Story(w: World, id: string) {
    var t := Trace(w.log, id);
    match Find(w.pending, id)
    case None => if id in w.started then Complete(t, id) else t == []
    case Some(p) =>
      match p.phase
      case Opening(_) => p.token.None? && p.reports == [] && t == []
      case Spawning(_) => UnderWay(t, p)
      case Waiting(_) => p.token.Some? && p.reports == [] && Complete(t, id) && BoundTo(t, p)
      case Failed => false
  }

  ghost predicate Apart(w: World) {
    && DistinctIds(w.pending) && DistinctPairs(w.pending) && AtMostOneSelected(w.pending)
    && (forall i :: 0 <= i < |w.pending| ==> w.pending[i].id in w.started)
  }

  ghost predicate Inv(w: World) {
    Apart(w) && forall id :: Story(w, id)
  }

  lemma TransformStarted(w: World, f: Pending -> Option<Pending>)
    requires Apart(w) && forall p :: KeepsId(f, p)
    ensures var ps := Transform(w.pending, f); forall i :: 0 <= i < |ps| ==> ps[i].id in w.started
  {
    var ps := Transform(w.pending, f);
    forall i | 0 <= i < |ps|
      ensures ps[i].id in w.started
    {
      var k := TransformFrom(w.pending, f, ps[i]);
      assert KeepsId(f, w.pending[k]);
    }
  }

  /** Rewrites that change neither identities nor, except to clear them, the selection flags. */
  ghost predicate Tame(f: Pending -> Option<Pending>) {
    forall p: Pending :: KeepsId(f, p) && KeepsPair(f, p) && ((p.activate ==> p.selected) ==> Demotes(f, p))
  }

  lemma TameApart(w: World, f: Pending -> Option<Pending>)
    requires Apart(w) && Tame(f)
    ensures Apart(w.(pending := Transform(w.pending, f)))
  {
    TransformIds(w.pending, f);
    TransformPairs(w.pending, f);
    TransformSelected(w.pending, f);
    TransformStarted(w, f);
  }

  lemma PollEntryKeeps(p: Pending, canSpawn: Pending -> bool, now: Instant)
    ensures var q := PollEntry(p, canSpawn, now);
            q.id == p.id && q.selected == p.selected && q.activate == p.activate
  {
  }

  lemma PollOneFacts(p: Pending, canSpawn: Pending -> bool, now: Instant)
    ensures KeepsId(PollStep(canSpawn, now), p)
    ensures (p.activate ==> p.selected) ==> Demotes(PollStep(canSpawn, now), p)
  {
    PollEntryKeeps(p, canSpawn, now);
    hide PollNote, PollEntry;
  }

  lemma PollNotesOwn(p: Pending, canSpawn: Pending -> bool)
    ensures NotesOwnId(PollNote(canSpawn), p)
  {
    hide PollStep, PollEntry;
  }

  lemma PollStepFacts(canSpawn: Pending -> bool, now: Instant)
    ensures forall p :: KeepsId(PollStep(canSpawn, now), p)
    ensures forall p :: NotesOwnId(PollNote(canSpawn), p)
    ensures forall p: Pending :: (p.activate ==> p.selected) ==> Demotes(PollStep(canSpawn, now), p)
  {
    hide *;
    forall p: Pending
      ensures KeepsId(PollStep(canSpawn, now), p) && NotesOwnId(PollNote(canSpawn), p)
      ensures (p.activate ==> p.selected) ==> Demotes(PollStep(canSpawn, now), p)
    {
      PollOneFacts(p, canSpawn, now);
      PollNotesOwn(p, canSpawn);
    }
  }

  lemma PollApart(w: World, canSpawn: Pending -> bool, now: Instant)
    requires Apart(w) && DistinctPairs(Transform(w.pending, PollStep(canSpawn, now)))
    ensures Apart(w.(pending := Transform(w.pending, PollStep(canSpawn, now))))
  {
    hide PollEntry;
    PollStepFacts(canSpawn, now);
    var f := PollStep(canSpawn, now);
    TransformIds(w.pending, f);
    TransformSelected(w.pending, f);
    TransformStarted(w, f);
  }

  lemma SelectApart(w: World, id: string)
    requires Apart(w)
    ensures Apart(w.(pending := Transform(w.pending, SelectStep(id))))
  {
    var f := SelectStep(id);
    assert forall p :: KeepsId(f, p) && KeepsPair(f, p);
    TransformIds(w.pending, f);
    TransformPairs(w.pending, f);
    SelectKeepsOne(w.pending, id);
    TransformStarted(w, f);
  }

  lemma DeselectedIsTame()
    ensures Tame(Deselected)
  {
  }

  lemma StartApart(w: World, id: string, host: HostId)
    requires Apart(w) && id !in w.started
    ensures Apart(Next(w, Start(id, host)))
  {
    DeselectedIsTame();
    TameApart(w, Deselected);
    DeselectedEntries(w.pending);
    hide Transform, Tame, Deselected;
  }

  /** Under distinct pairs a report names at most one launch. */
  lemma ReportNamesOne(ps: seq<Pending>, report: DetachReport, i: nat)
    requires DistinctPairs(ps) && i < |ps| && ps[i].Reported(report)
    ensures i == FirstIndex(ps, Names(report))
  {
    assert Names(report)(ps[i]);
  }

  function KeepStep(report: DetachReport): Pending -> Option<Pending> {
    (p: Pending) => Some(if p.Reported(report) then p.(reports := p.reports + [report]) else p)
  }

  function NoStep(p: Pending): Option<Pending> {
    Some(p)
  }

  /** A report rewrites the list entry by entry. */
  function ReportStep(ps: seq<Pending>, report: DetachReport): Pending -> Option<Pending> {
    match ReportAnswer(ps, report)
    case Kept => KeepStep(report)
    case Closed => CloseStep(report)
    case Other => NoStep
  }

  lemma ReportRewrites(ps: seq<Pending>, report: DetachReport)
    requires DistinctPairs(ps)
    ensures AfterReport(ps, report) == Transform(ps, ReportStep(ps, report))
  {
    match ReportAnswer(ps, report)
    case Closed =>
    case Other => TransformAll(ps, NoStep, ps);
    case Kept =>
      var n := FirstIndex(ps, Names(report));
      var qs := ps[n := ps[n].(reports := ps[n].reports + [report])];
      forall i | 0 <= i < |ps|
        ensures KeepStep(report)(ps[i]) == Some(qs[i])
      {
        if ps[i].Reported(report) {
          ReportNamesOne(ps, report, i);
        }
      }
      TransformAll(ps, KeepStep(report), qs);
  }

  lemma ReportIsTame(ps: seq<Pending>, report: DetachReport)
    ensures Tame(ReportStep(ps, report))
  {
    hide FirstIndex;
  }

  lemma ApartStep(w: World, s: Step)
    requires Apart(w) && Legal(w, s)
    ensures Apart(Next(w, s))
  {
    hide Transform, LastHandover, Events, AfterReport, ReportAnswer;
    match s
    case Start(id, host) => StartApart(w, id, host);
    case OpenReply(id, reply) => TameApart(w, OpenStep(id, reply));
    case SpawnReply(id, reply) => TameApart(w, SpawnStep(id, reply));
    case Poll(canSpawn, now) => PollApart(w, canSpawn, now);
    case Reconcile(rows, now) => TameApart(w, ReconcileStep(rows, now));
    case Select(id) => SelectApart(w, id);
    case ClearSelection => TameApart(w, Deselected);
    case RequestActivation => TameApart(w, ActivateStep);
    case CancelActivation => TameApart(w, Calmed);
    case Report(report) =>
      ReportRewrites(w.pending, report);
      ReportIsTame(w.pending, report);
      TameApart(w, ReportStep(w.pending, report));
    case TakeFocus(_, _) =>
  }

  /** A rewrite that leaves a launch's token, phase kind and reports alone leaves its story alone. */
  predicate Cosmetic(f: Pending -> Option<Pending>, p: Pending) {
    f(p).Some? && (var q := f(p).value;
      && q.id == p.id && q.host == p.host && q.token == p.token && q.reports == p.reports
      && (q.phase.Opening? <==> p.phase.Opening?) && (q.phase.Spawning? <==> p.phase.Spawning?)
      && (q.phase.Waiting? <==> p.phase.Waiting?))
  }

  lemma CosmeticStory(w: World, f: Pending -> Option<Pending>, v: World, id: string)
    requires DistinctIds(w.pending) && v.pending == Transform(w.pending, f) && v.log == w.log
    requires v.started == w.started && forall p :: Cosmetic(f, p)
    requires Story(w, id)
    ensures Story(v, id)
  {
    assert forall p :: Cosmetic(f, p) ==> KeepsId(f, p);
    FindTransform(w.pending, f, id);
    var e := Find(w.pending, id);
    assert e.Some? ==> Cosmetic(f, e.value);
    hide Find, Trace;
  }

  lemma KeptIsUnderWay(t: seq<Event>, p: Pending, report: DetachReport)
    requires UnderWay(t, p)
    ensures UnderWay(t + [Deferred(p.id, report)], p.(reports := p.reports + [report]))
  {
    assert Deferrals(p.id, p.reports + [report]) == Deferrals(p.id, p.reports) + [Deferred(p.id, report)];
  }

  /** How one launch's own step and its own event carry its story on. */
  lemma PollOneStory(p: Pending, t: seq<Event>, canSpawn: Pending -> bool, now: Instant)
    requires match p.phase
             case Opening(_) => p.token.None? && p.reports == [] && t == []
             case Spawning(_) => UnderWay(t, p)
             case Waiting(_) => p.token.Some? && p.reports == [] && Complete(t, p.id) && BoundTo(t, p)
             case Failed => false
    ensures var q := PollEntry(p, canSpawn, now);
            var u := t + Opt(PollEvent(p, canSpawn));
            q.id == p.id &&
            match q.phase
            case Opening(_) => q.token.None? && q.reports == [] && u == []
            case Spawning(_) => UnderWay(u, q)
            case Waiting(_) => q.token.Some? && q.reports == [] && Complete(u, q.id) && BoundTo(u, q)
            case Failed => Complete(u, q.id)
  {
    assert Deferrals(p.id, []) == [];
    match p.phase
    case Opening(_) =>
    case Waiting(_) =>
    case Spawning(Empty) =>
    case Spawning(reply) =>
      var end := PollEvent(p, canSpawn).value;
      assert |t + [end]| >= 2 && (t + [end])[0] == t[0];
  }

  lemma PollStory(w: World, canSpawn: Pending -> bool, now: Instant, id: string)
    requires Apart(w) && Story(w, id)
    ensures Story(Next(w, Poll(canSpawn, now)), id)
  {
    hide Find, Trace, Transform, Events, PollEntry, PollEvent, UnderWay, Complete;
    var f, g := PollStep(canSpawn, now), PollNote(canSpawn);
    PollStepFacts(canSpawn, now);
    FindTransform(w.pending, f, id);
    TraceEvents(w.pending, g, id);
    TraceConcat(w.log, Events(w.pending, g), id);
    if Find(w.pending, id).Some? {
      var p := Find(w.pending, id).value;
      assert p.id in w.started;
      PollOneStory(p, Trace(w.log, id), canSpawn, now);
    } else {
      assert Trace(w.log, id) + [] == Trace(w.log, id);
    }
  }

  lemma FindByIndex(ps: seq<Pending>, n: nat)
    requires DistinctIds(ps) && n < |ps|
    ensures Find(ps, ps[n].id) == Some(ps[n])
  {
    var p := Find(ps, ps[n].id).value;
    var i :| 0 <= i < |ps| && ps[i] == p;
  }

  /** The only launch a report can touch is the first it names. */
  lemma ReportTouchesOne(ps: seq<Pending>, report: DetachReport, id: string)
    requires DistinctIds(ps) && DistinctPairs(ps)
    ensures var n := FirstIndex(ps, Names(report));
            Find(ps, id).Some? && Find(ps, id).value.Reported(report) <==> n < |ps| && ps[n].id == id
    ensures var n := FirstIndex(ps, Names(report));
            n < |ps| && ps[n].id == id ==> Find(ps, id) == Some(ps[n])
  {
    var n := FirstIndex(ps, Names(report));
    if n < |ps| {
      FindByIndex(ps, n);
    }
    if Find(ps, id).Some? && Find(ps, id).value.Reported(report) {
      var i :| 0 <= i < |ps| && ps[i] == Find(ps, id).value;
      ReportNamesOne(ps, report, i);
    }
  }

  lemma ReportStory(w: World, report: DetachReport, id: string)
    requires Apart(w) && forall id :: Story(w, id)
    ensures Story(Next(w, Report(report)), id)
  {
    hide Find, Trace, Transform, FirstIndex, AfterReport, Complete, UnderWay;
    var ps := w.pending;
    var n := FirstIndex(ps, Names(report));
    assert Story(w, id);
    ReportRewrites(ps, report);
    ReportIsTame(ps, report);
    FindTransform(ps, ReportStep(ps, report), id);
    ReportTouchesOne(ps, report, id);
    if n < |ps| {
      FindByIndex(ps, n);
      assert ps[n].id in w.started && Story(w, ps[n].id);
    }
    if ReportAnswer(ps, report).Kept? {
      TraceAppend(w.log, Deferred(ps[n].id, report), id);
      KeptIsUnderWay(Trace(w.log, ps[n].id), ps[n], report);
      assert Trace(w.log, id) + [] == Trace(w.log, id);
    } else {
      assert w.log + [] == w.log;
    }
  }

  lemma StartStory(w: World, other: string, host: HostId, id: string)
    requires Apart(w) && Story(w, id) && Story(w, other) && other !in w.started
    ensures Story(Next(w, Start(other, host)), id)
  {
    hide Find, Trace, Transform, Complete, UnderWay;
    assert forall p :: Cosmetic(Deselected, p);
    var quiet := w.(pending := Transform(w.pending, Deselected));
    CosmeticStory(w, Deselected, quiet, id);
    CosmeticStory(w, Deselected, quiet, other);
    FindAppend(quiet.pending, Placeholder(other, host), id);
    assert Tame(Deselected);
    TransformStarted(w, Deselected);
    assert Find(quiet.pending, other).None?;
  }

  lemma ReconcileStory(w: World, rows: seq<Row>, now: Instant, id: string)
    requires Apart(w) && Story(w, id)
    ensures Story(Next(w, Reconcile(rows, now)), id)
  {
    hide Find, Trace, Transform, Complete, LastHandover;
    assert Tame(ReconcileStep(rows, now));
    FindTransform(w.pending, ReconcileStep(rows, now), id);
    assert Find(w.pending, id).Some? ==> Find(w.pending, id).value.id in w.started;
  }

  lemma StoryStep(w: World, s: Step, id: string)
    requires Inv(w) && Legal(w, s)
    ensures Story(Next(w, s), id)
  {
    hide Find, Trace, Transform, Complete, UnderWay, Story, LastHandover, Events;
    var v := Next(w, s);
    assert Story(w, id);
    match s
    case Start(other, host) =>
      assert Story(w, other);
      StartStory(w, other, host, id);
    case OpenReply(other, reply) => CosmeticStory(w, OpenStep(other, reply), v, id);
    case SpawnReply(other, reply) => CosmeticStory(w, SpawnStep(other, reply), v, id);
    case Poll(canSpawn, now) => PollStory(w, canSpawn, now, id);
    case Reconcile(rows, now) => ReconcileStory(w, rows, now, id);
    case Select(other) => CosmeticStory(w, SelectStep(other), v, id);
    case ClearSelection => CosmeticStory(w, Deselected, v, id);
    case RequestActivation => CosmeticStory(w, ActivateStep, v, id);
    case CancelActivation => CosmeticStory(w, Calmed, v, id);
    case Report(report) => ReportStory(w, report, id);
    case TakeFocus(_, _) => SameStory(w, v, id);
  }

  lemma SameStory(w: World, v: World, id: string)
    requires Story(w, id) && v.pending == w.pending && v.log == w.log && v.started == w.started
    ensures Story(v, id)
  {
  }

  /** Every launch tells its story in every interleaving. */
  lemma {:induction false} EveryRunKeepsStories(steps: seq<Step>)
    requires LegalRun(steps)
    ensures Inv(Run(steps))
  {
    if steps != [] {
      var w, s := Run(steps[..|steps| - 1]), steps[|steps| - 1];
      EveryRunKeepsStories(steps[..|steps| - 1]);
      ApartStep(w, s);
      forall id
        ensures Story(Next(w, s), id)
      {
        StoryStep(w, s, id);
      }
    }
  }

  function Windows(log: seq<Event>, id: string): nat {
    if log == [] then 0
    else Windows(log[..|log| - 1], id) + if log[|log| - 1].Spawned? && log[|log| - 1].id == id then 1 else 0
  }

  function Outcomes(log: seq<Event>, id: string): nat {
    if log == [] then 0
    else Outcomes(log[..|log| - 1], id) + if log[|log| - 1].Finished? && log[|log| - 1].id == id then 1 else 0
  }

  lemma CountAppend(log: seq<Event>, e: Event, id: string)
    ensures Windows(log + [e], id) == Windows(log, id) + if e.Spawned? && e.id == id then 1 else 0
    ensures Outcomes(log + [e], id) == Outcomes(log, id) + if e.Finished? && e.id == id then 1 else 0
  {
    assert (log + [e])[..|log|] == log;
  }

  lemma {:induction false} CountInTrace(log: seq<Event>, id: string)
    ensures Windows(Trace(log, id), id) == Windows(log, id) && Outcomes(Trace(log, id), id) == Outcomes(log, id)
  {
    if log != [] {
      var n := |log| - 1;
      CountInTrace(log[..n], id);
      if log[n].id == id {
        CountAppend(Trace(log[..n], id), log[n], id);
      } else {
        assert Trace(log, id) == Trace(log[..n], id);
      }
    }
  }

  lemma {:induction false} CountUnderWay(id: string, host: HostId, token: string, reports: seq<DetachReport>)
    ensures var t := [Spawned(id, host, token)] + Deferrals(id, reports);
            Windows(t, id) == 1 && Outcomes(t, id) == 0
  {
    if reports == [] {
      assert [Spawned(id, host, token)] + Deferrals(id, reports) == [] + [Spawned(id, host, token)];
      CountAppend([], Spawned(id, host, token), id);
    } else {
      var n := |reports| - 1;
      CountUnderWay(id, host, token, reports[..n]);
      var before := [Spawned(id, host, token)] + Deferrals(id, reports[..n]);
      assert [Spawned(id, host, token)] + Deferrals(id, reports) == before + [Deferred(id, reports[n])];
      CountAppend(before, Deferred(id, reports[n]), id);
    }
  }

  lemma CountComplete(t: seq<Event>, id: string)
    requires Complete(t, id)
    ensures Windows(t, id) <= 1 && Outcomes(t, id) == 1
  {
    var end := t[|t| - 1];
    if |t| == 1 {
      assert t == [] + [end];
      CountAppend([], end, id);
    } else {
      CountUnderWay(id, t[0].host, t[0].token, end.reports);
      CountAppend([Spawned(id, t[0].host, t[0].token)] + Deferrals(id, end.reports), end, id);
    }
  }

  /** A launch opens at most one window, and has had its one outcome exactly when it is bound or gone. */
  lemma OneWindowOneOutcome(steps: seq<Step>, id: string)
    requires LegalRun(steps)
    ensures var w := Run(steps);
            && Windows(w.log, id) <= 1
            && Outcomes(w.log, id) ==
               if id in w.started && (Find(w.pending, id).None? || Find(w.pending, id).value.phase.Waiting?) then 1 else 0
  {
    EveryRunKeepsStories(steps);
    var w := Run(steps);
    assert Story(w, id);
    CountInTrace(w.log, id);
    hide Find, Trace, Run, Complete;
    var t := Trace(w.log, id);
    if Find(w.pending, id).Some? {
      var p := Find(w.pending, id).value;
      assert p.id in w.started;
      match p.phase
      case Spawning(_) => CountUnderWay(id, p.host, p.token.value, p.reports);
      case Waiting(_) => CountComplete(t, id);
      case _ =>
    } else if id in w.started {
      CountComplete(t, id);
    }
  }

  // ---------------------------------------------------------------------
  // Every event answers for something that happened
  // ---------------------------------------------------------------------

  /** The worker of launch id sent this reply in the run. */
  ghost predicate Planned(steps: seq<Step>, id: string, reply: Reply<Plan>) {
    exists i :: 0 <= i < |steps| && steps[i].OpenReply? && steps[i].id == id && steps[i].plan == reply
  }

  ghost predicate Answered(steps: seq<Step>, id: string, reply: Reply<Option<WindowId>>) {
    exists i :: 0 <= i < |steps| && steps[i].SpawnReply? && steps[i].id == id && steps[i].window == reply
  }

  /**
   * A launch is spawned under the session its backend reserved, or its own id;
   * an outcome carries the window the terminal named for it, and one without a
   * window follows a reply that named none.
   */
  ghost predicate Accounted(steps: seq<Step>, e: Event) {
    match e
    case Spawned(id, _, token) =>
      Planned(steps, id, Ready(AttachRemote(token))) || (token == id && Planned(steps, id, Ready(SpawnLocal)))
    case Deferred(_, report) => exists i :: 0 <= i < |steps| && steps[i].Report? && steps[i].report == report
    case Finished(id, _, _, Some(w), _) => Answered(steps, id, Ready(Some(w)))
    case Finished(id, _, Some(_), None, _) => Answered(steps, id, Broken) || Answered(steps, id, Ready(None))
    case Finished(id, _, None, None, _) => exists reply :: reply != Empty && Planned(steps, id, reply)
  }

  /** A reply a launch holds was sent to it. */
  ghost predicate Holds(steps: seq<Step>, p: Pending) {
    match p.phase
    case Opening(reply) => p.token.None? && (reply != Empty ==> Planned(steps, p.id, reply))
    case Spawning(reply) => p.token.Some? && (reply != Empty ==> Answered(steps, p.id, reply))
    case _ => true
  }

  lemma LongerRun(steps: seq<Step>, s: Step)
    ensures forall p :: Holds(steps, p) ==> Holds(steps + [s], p)
    ensures forall e :: Accounted(steps, e) ==> Accounted(steps + [s], e)
  {
    var more := steps + [s];
    assert more[|steps|] == s && forall i :: 0 <= i < |steps| ==> more[i] == steps[i];
    forall id, reply | Planned(steps, id, reply)
      ensures Planned(more, id, reply)
    {
      var i :| 0 <= i < |steps| && steps[i].OpenReply? && steps[i].id == id && steps[i].plan == reply;
      assert more[i] == steps[i];
    }
    forall id, reply | Answered(steps, id, reply)
      ensures Answered(more, id, reply)
    {
      var i :| 0 <= i < |steps| && steps[i].SpawnReply? && steps[i].id == id && steps[i].window == reply;
      assert more[i] == steps[i];
    }
    hide Planned, Answered;
  }

  /** A rewrite that leaves id, token and phase alone. */
  ghost predicate Still(f: Pending -> Option<Pending>) {
    forall p :: f(p).Some? ==> f(p).value.id == p.id && f(p).value.token == p.token && f(p).value.phase == p.phase
  }

  lemma StillHolds(steps: seq<Step>, ps: seq<Pending>, f: Pending -> Option<Pending>)
    requires Still(f) && forall p :: p in ps ==> Holds(steps, p)
    ensures forall q :: q in Transform(ps, f) ==> Holds(steps, q)
  {
    hide Planned, Answered;
    forall q | q in Transform(ps, f)
      ensures Holds(steps, q)
    {
      var k := TransformFrom(ps, f, q);
      assert ps[k] in ps;
    }
  }

  lemma ReplyHolds(steps: seq<Step>, ps: seq<Pending>, s: Step)
    requires s.OpenReply? || s.SpawnReply?
    requires forall p :: p in ps ==> Holds(steps + [s], p)
    ensures s.OpenReply? ==> forall q :: q in Transform(ps, OpenStep(s.id, s.plan)) ==> Holds(steps + [s], q)
    ensures s.SpawnReply? ==> forall q :: q in Transform(ps, SpawnStep(s.id, s.window)) ==> Holds(steps + [s], q)
  {
    var more := steps + [s];
    assert more[|steps|] == s;
    if s.OpenReply? {
      assert Planned(more, s.id, s.plan);
      hide Planned, Answered;
      forall q | q in Transform(ps, OpenStep(s.id, s.plan))
        ensures Holds(more, q)
      {
        var k := TransformFrom(ps, OpenStep(s.id, s.plan), q);
        assert ps[k] in ps;
      }
    } else {
      assert Answered(more, s.id, s.window);
      hide Planned, Answered;
      forall q | q in Transform(ps, SpawnStep(s.id, s.window))
        ensures Holds(more, q)
      {
        var k := TransformFrom(ps, SpawnStep(s.id, s.window), q);
        assert ps[k] in ps;
      }
    }
  }

  lemma PollHolds(steps: seq<Step>, ps: seq<Pending>, canSpawn: Pending -> bool, now: Instant)
    requires forall p :: p in ps ==> Holds(steps, p)
    ensures forall q :: q in Transform(ps, PollStep(canSpawn, now)) ==> Holds(steps, q)
    ensures forall e :: e in Events(ps, PollNote(canSpawn)) ==> Accounted(steps, e)
  {
    hide *;
    forall q | q in Transform(ps, PollStep(canSpawn, now))
      ensures Holds(steps, q)
    {
      var k := TransformFrom(ps, PollStep(canSpawn, now), q);
      assert ps[k] in ps;
      OneHolds(steps, ps[k], canSpawn, now);
    }
    forall e | e in Events(ps, PollNote(canSpawn))
      ensures Accounted(steps, e)
    {
      var k := EventFrom(ps, PollNote(canSpawn), e);
      OneAccounted(steps, ps[k], canSpawn, e);
    }
  }

  lemma OneHolds(steps: seq<Step>, p: Pending, canSpawn: Pending -> bool, now: Instant)
    requires Holds(steps, p)
    ensures PollStep(canSpawn, now)(p).Some? ==> Holds(steps, PollStep(canSpawn, now)(p).value)
  {
    hide Planned, Answered;
  }

  lemma OneAccounted(steps: seq<Step>, p: Pending, canSpawn: Pending -> bool, e: Event)
    requires Holds(steps, p) && PollNote(canSpawn)(p) == Some(e)
    ensures Accounted(steps, e)
  {
    hide Planned, Answered;
    if p.phase.Opening? && e.Finished? {
      assert p.phase.plan != Empty && Planned(steps, p.id, p.phase.plan);
    }
  }

  /** Whatever happens, nothing is spawned, bound or kept that no worker or report has asked for. */
  lemma {:induction false} EveryEventIsAccounted(steps: seq<Step>)
    requires LegalRun(steps)
    ensures forall e :: e in Run(steps).log ==> Accounted(steps, e)
    ensures forall p :: p in Run(steps).pending ==> Holds(steps, p)
  {
    if steps != [] {
      var n := |steps| - 1;
      EveryEventIsAccounted(steps[..n]);
      EveryRunKeepsStories(steps[..n]);
      LongerRun(steps[..n], steps[n]);
      assert steps[..n] + [steps[n]] == steps;
      hide Accounted, Holds, Run;
      AccountedStep(steps[..n], Run(steps[..n]), steps[n]);
      RunStep(steps);
    }
  }

  lemma RunStep(steps: seq<Step>)
    requires steps != []
    ensures Run(steps) == Next(Run(steps[..|steps| - 1]), steps[|steps| - 1])
  {
  }

  lemma AccountedStep(steps: seq<Step>, w: World, s: Step)
    requires Apart(w)
    requires forall e :: e in w.log ==> Accounted(steps + [s], e)
    requires forall p :: p in w.pending ==> Holds(steps + [s], p)
    ensures forall e :: e in Next(w, s).log ==> Accounted(steps + [s], e)
    ensures forall p :: p in Next(w, s).pending ==> Holds(steps + [s], p)
  {
    var more := steps + [s];
    assert more[|steps|] == s;
    hide Transform, Events, LastHandover, HandedOver, AfterReport, ReportAnswer, FirstIndex, Planned, Answered;
    match s
    case OpenReply(_, _) => ReplyHolds(steps, w.pending, s);
    case SpawnReply(_, _) => ReplyHolds(steps, w.pending, s);
    case Poll(canSpawn, now) => PollHolds(more, w.pending, canSpawn, now);
    case Start(id, host) => StillHolds(more, w.pending, Deselected);
    case Reconcile(rows, now) => StillHolds(more, w.pending, ReconcileStep(rows, now));
    case Select(id) => StillHolds(more, w.pending, SelectStep(id));
    case ClearSelection => StillHolds(more, w.pending, Deselected);
    case RequestActivation => StillHolds(more, w.pending, ActivateStep);
    case CancelActivation => StillHolds(more, w.pending, Calmed);
    case Report(report) =>
      ReportRewrites(w.pending, report);
      ReportIsStill(w.pending, report);
      StillHolds(more, w.pending, ReportStep(w.pending, report));
    case TakeFocus(_, _) =>
  }

  lemma ReportIsStill(ps: seq<Pending>, report: DetachReport)
    ensures Still(ReportStep(ps, report))
  {
    hide FirstIndex;
  }

  // ---------------------------------------------------------------------
  // One line per launch
  // ---------------------------------------------------------------------

  /** The table lines that stand for launch p: its placeholder (None), or a row not held back. */
  ghost function Lines(ps: seq<Pending>, rows: seq<Row>, p: Pending): set<Option<nat>> {
    (if Visible(p, rows) then {None} else {})
    + set i | 0 <= i < |rows| && p.Matches(rows[i]) && !AwaitingWindow(ps, rows[i]) :: Some(i)
  }

  lemma OnlyOneMatches(ps: seq<Pending>, rows: seq<Row>, k: nat, i: nat)
    requires DistinctPairs(ps) && k < |ps| && i < |rows| && ps[k].Matches(rows[i])
    ensures AwaitingWindow(ps, rows[i]) <==> ps[k].phase.Spawning?
  {
    if AwaitingWindow(ps, rows[i]) {
      var j :| 0 <= j < |ps| && ps[j].phase.Spawning? && ps[j].Matches(rows[i]);
      assert ps[j].token == ps[k].token && ps[j].host == ps[k].host;
    }
  }

  /** The rows that show launch p. */
  ghost function RowsOf(rows: seq<Row>, p: Pending): set<Option<nat>> {
    set i | 0 <= i < |rows| && p.Matches(rows[i]) :: Some(i)
  }

  /** A live launch's lines: its placeholder, or exactly its real rows and never both. */
  lemma LinesOf(ps: seq<Pending>, rows: seq<Row>, k: nat)
    requires DistinctPairs(ps) && k < |ps|
    requires ps[k].phase.Opening? ==> ps[k].token.None?
    requires !ps[k].phase.Failed?
    ensures Lines(ps, rows, ps[k]) == if Confirmed(ps[k], rows) then RowsOf(rows, ps[k]) else {None}
    ensures Confirmed(ps[k], rows) ==> RowsOf(rows, ps[k]) != {}
  {
    var p := ps[k];
    forall i | 0 <= i < |rows| && p.Matches(rows[i])
      ensures AwaitingWindow(ps, rows[i]) <==> p.phase.Spawning?
    {
      OnlyOneMatches(ps, rows, k, i);
    }
    if Confirmed(p, rows) {
      var row := MatchedRow(p, rows).value;
      var i :| 0 <= i < |rows| && rows[i] == row;
      assert Some(i) in RowsOf(rows, p);
    }
  }

  /** Two pushed rows show the launch. */
  ghost predicate ShownTwice(rows: seq<Row>, p: Pending) {
    exists i, j :: 0 <= i < j < |rows| && p.Matches(rows[i]) && p.Matches(rows[j])
  }

  /** It is one line exactly when it is not bound, or no two pushed rows carry its host and token. */
  lemma OneLineIff(ps: seq<Pending>, rows: seq<Row>, k: nat)
    requires DistinctPairs(ps) && k < |ps|
    requires ps[k].phase.Opening? ==> ps[k].token.None?
    requires !ps[k].phase.Failed?
    ensures (exists line :: Lines(ps, rows, ps[k]) == {line}) <==> !ps[k].phase.Waiting? || !ShownTwice(rows, ps[k])
  {
    var p := ps[k];
    LinesOf(ps, rows, k);
    var lines := Lines(ps, rows, p);
    if !Confirmed(p, rows) {
      assert lines == {None};
      if i, j :| 0 <= i < j < |rows| && p.Matches(rows[i]) && p.Matches(rows[j]) {
        assert rows[i] in rows;
      }
    } else if i, j :| 0 <= i < j < |rows| && p.Matches(rows[i]) && p.Matches(rows[j]) {
      assert Some(i) in lines && Some(j) in lines;
    } else {
      var line :| line in lines;
      assert lines == {line};
    }
  }

  lemma OneLineInEveryRun(steps: seq<Step>, rows: seq<Row>, k: nat)
    requires LegalRun(steps) && k < |Run(steps).pending|
    ensures var ps := Run(steps).pending;
            (exists line :: Lines(ps, rows, ps[k]) == {line}) <==> !ps[k].phase.Waiting? || !ShownTwice(rows, ps[k])
    ensures AtMostOneSelected(Run(steps).pending)
  {
    EveryRunKeepsStories(steps);
    var w := Run(steps);
    FindByIndex(w.pending, k);
    assert Story(w, w.pending[k].id);
    hide Run, Find, Trace;
    OneLineIff(w.pending, rows, k);
  }

  // ---------------------------------------------------------------------
  // The queued Enter
  // ---------------------------------------------------------------------

  ghost predicate Activating(ps: seq<Pending>) {
    exists i :: 0 <= i < |ps| && ps[i].activate
  }

  lemma {:induction false} HandoverIndex(ps: seq<Pending>, rows: seq<Row>) returns (k: nat)
    requires LastHandover(ps, rows, IsQueued).Some?
    ensures k < |ps| && Confirmed(ps[k], rows) && IsQueued(ps[k])
  {
    var p := ps[|ps| - 1];
    if Confirmed(p, rows) && IsQueued(p) {
      k := |ps| - 1;
    } else {
      k := HandoverIndex(ps[..|ps| - 1], rows);
    }
  }

  /** p became q without a new queued Enter. */
  predicate CalmlyFrom(q: Pending, p: Pending) {
    q.id == p.id && (q.activate ==> p.activate)
  }

  ghost predicate CameFrom(ps: seq<Pending>, q: Pending) {
    exists p :: p in ps && CalmlyFrom(q, p)
  }

  lemma {:induction false} TransformCalmly(ps: seq<Pending>, f: Pending -> Option<Pending>)
    requires forall p :: f(p).Some? ==> CalmlyFrom(f(p).value, p)
    ensures forall q :: q in Transform(ps, f) ==> CameFrom(ps, q)
  {
    forall q | q in Transform(ps, f)
      ensures CameFrom(ps, q)
    {
      var k := TransformFrom(ps, f, q);
      assert CalmlyFrom(q, ps[k]);
    }
  }

  /** Every launch in the list was there before the step or has just started; only an Enter queues, only the selected. */
  ghost predicate Traced(w: World, s: Step, q: Pending) {
    || CameFrom(w.pending, q)
    || (s.Start? && q == Placeholder(s.id, s.host))
    || (s.RequestActivation? && exists p :: p in w.pending && q.id == p.id && (q.activate ==> p.activate || p.selected))
  }

  lemma ListStep(w: World, s: Step)
    requires DistinctPairs(w.pending)
    ensures forall q :: q in Next(w, s).pending ==> Traced(w, s, q)
  {
    match s
    case OpenReply(_, _) => WorkerListStep(w, s);
    case SpawnReply(_, _) => WorkerListStep(w, s);
    case Poll(_, _) => WorkerListStep(w, s);
    case Reconcile(_, _) => WorkerListStep(w, s);
    case Report(report) =>
      ReportRewrites(w.pending, report);
      ReportIsCalm(w.pending, report);
      hide Transform, FirstIndex, AfterReport, ReportAnswer, ReportStep;
      TransformCalmly(w.pending, ReportStep(w.pending, report));
    case TakeFocus(_, _) =>
      forall q | q in w.pending
        ensures CameFrom(w.pending, q)
      {
        assert CalmlyFrom(q, q);
      }
    case _ => InputListStep(w, s);
  }

  lemma PollOneIsCalm(p: Pending, canSpawn: Pending -> bool, now: Instant)
    ensures PollStep(canSpawn, now)(p).Some? ==> CalmlyFrom(PollStep(canSpawn, now)(p).value, p)
  {
    PollEntryKeeps(p, canSpawn, now);
    hide PollEntry;
  }

  lemma PollIsCalm(canSpawn: Pending -> bool, now: Instant)
    ensures forall p :: PollStep(canSpawn, now)(p).Some? ==> CalmlyFrom(PollStep(canSpawn, now)(p).value, p)
  {
    hide PollEntry, PollStep;
    forall p
      ensures PollStep(canSpawn, now)(p).Some? ==> CalmlyFrom(PollStep(canSpawn, now)(p).value, p)
    {
      PollOneIsCalm(p, canSpawn, now);
    }
  }

  lemma WorkerListStep(w: World, s: Step)
    requires s.OpenReply? || s.SpawnReply? || s.Poll? || s.Reconcile?
    ensures forall q :: q in Next(w, s).pending ==> Traced(w, s, q)
  {
    hide Transform, LastHandover, HandedOver, Events, CameFrom, MatchedRow, PollEntry;
    match s
    case OpenReply(id, reply) => TransformCalmly(w.pending, OpenStep(id, reply));
    case SpawnReply(id, reply) => TransformCalmly(w.pending, SpawnStep(id, reply));
    case Poll(canSpawn, now) =>
      PollIsCalm(canSpawn, now);
      hide PollStep;
      TransformCalmly(w.pending, PollStep(canSpawn, now));
    case Reconcile(rows, now) => TransformCalmly(w.pending, ReconcileStep(rows, now));
  }

  lemma InputListStep(w: World, s: Step)
    requires s.Start? || s.Select? || s.ClearSelection? || s.CancelActivation? || s.RequestActivation?
    ensures forall q :: q in Next(w, s).pending ==> Traced(w, s, q)
  {
    hide Transform, CameFrom;
    match s
    case Start(id, host) => TransformCalmly(w.pending, Deselected);
    case Select(id) => TransformCalmly(w.pending, SelectStep(id));
    case ClearSelection => TransformCalmly(w.pending, Deselected);
    case CancelActivation => TransformCalmly(w.pending, Calmed);
    case RequestActivation =>
      forall q | q in Next(w, s).pending
        ensures Traced(w, s, q)
      {
        var k := TransformFrom(w.pending, ActivateStep, q);
        assert w.pending[k] in w.pending;
      }
  }

  /** No step but an Enter queues an activation. */
  lemma OnlyRequestsActivate(w: World, s: Step)
    requires DistinctPairs(w.pending) && !s.RequestActivation?
    ensures Activating(Next(w, s).pending) ==> Activating(w.pending)
  {
    ListStep(w, s);
    hide *;
    var qs := Next(w, s).pending;
    forall q | q in qs && q.activate
      ensures exists p :: p in w.pending && p.activate
    {
      TracedActivation(w, s, q);
    }
    ActivatingIff(qs);
    ActivatingIff(w.pending);
  }

  lemma TracedActivation(w: World, s: Step, q: Pending)
    requires Traced(w, s, q) && !s.RequestActivation? && q.activate
    ensures exists p :: p in w.pending && p.activate
  {
    var p :| p in w.pending && CalmlyFrom(q, p);
  }

  lemma ActivatingIff(ps: seq<Pending>)
    ensures Activating(ps) <==> exists p :: p in ps && p.activate
  {
    if p :| p in ps && p.activate {
      var i :| 0 <= i < |ps| && ps[i] == p;
    }
  }

  ghost predicate NoTwice(ids: seq<string>) {
    forall i, j :: 0 <= i < j < |ids| ==> ids[i] != ids[j]
  }

  /** Enter was pressed on it, and it has left the list. */
  ghost predicate HandedOk(w: World, id: string) {
    id in w.requested && id in w.started && forall p :: p in w.pending ==> p.id != id
  }

  /**
   * Each launch hands over at most one queued Enter, on leaving the list after
   * Enter was pressed on it, and has at most that one delivered; the one still
   * queued is not delivered yet.
   */
  ghost predicate FocusOk(w: World) {
    && (w.activation.Some? <==> w.owner.Some?)
    && NoTwice(w.handed) && NoTwice(w.delivered)
    && (forall id :: id in w.handed ==> HandedOk(w, id))
    && (forall id :: id in w.delivered ==> id in w.handed)
    && (w.owner.Some? ==> w.owner.value in w.handed && w.owner.value !in w.delivered)
    && (forall p :: p in w.pending && p.activate ==> p.id in w.requested)
  }

  /** The launch that hands over is the one whose row gets the focus, and it leaves the list. */
  lemma {:induction false} HandoverBelongs(ps: seq<Pending>, rows: seq<Row>, now: Instant, wanted: Pending -> bool)
    requires DistinctIds(ps)
    ensures LastHandover(ps, rows, wanted).Some? <==> HandedOver(ps, rows, wanted).Some?
    ensures HandedOver(ps, rows, wanted).Some? ==>
              exists p :: p in ps && wanted(p) && Confirmed(p, rows) && p.id == HandedOver(ps, rows, wanted).value
                          && LastHandover(ps, rows, wanted) == Some(KeyOf(MatchedRow(p, rows).value))
    ensures HandedOver(ps, rows, wanted).Some? ==>
              forall q :: q in Transform(ps, ReconcileStep(rows, now)) ==> q.id != HandedOver(ps, rows, wanted).value
  {
    HandoverOf(ps, rows, wanted);
    hide LastHandover, HandedOver, MatchedRow;
    if HandedOver(ps, rows, wanted).Some? {
      var p :| p in ps && Confirmed(p, rows) && p.id == HandedOver(ps, rows, wanted).value;
      forall q | q in Transform(ps, ReconcileStep(rows, now))
        ensures q.id != p.id
      {
        var k := TransformFrom(ps, ReconcileStep(rows, now), q);
        assert ps[k] != p;
      }
    }
  }

  lemma {:induction false} HandoverOf(ps: seq<Pending>, rows: seq<Row>, wanted: Pending -> bool)
    ensures LastHandover(ps, rows, wanted).Some? <==> HandedOver(ps, rows, wanted).Some?
    ensures HandedOver(ps, rows, wanted).Some? ==>
              exists p :: p in ps && wanted(p) && Confirmed(p, rows) && p.id == HandedOver(ps, rows, wanted).value
                          && LastHandover(ps, rows, wanted) == Some(KeyOf(MatchedRow(p, rows).value))
  {
    if ps != [] {
      HandoverOf(ps[..|ps| - 1], rows, wanted);
      hide MatchedRow;
      assert forall p :: p in ps[..|ps| - 1] ==> p in ps;
      assert ps[|ps| - 1] in ps;
    }
  }

  lemma NoTwiceOneMore(ids: seq<string>, id: string)
    requires NoTwice(ids) && id !in ids
    ensures NoTwice(ids + [id])
  {
  }

  lemma TracedKeepsFocus(w: World, s: Step, q: Pending)
    requires FocusOk(w) && Legal(w, s) && Traced(w, s, q)
    ensures q.id !in w.handed
    ensures q.activate ==> q.id in w.requested || (s.RequestActivation? && q.id in SelectedIds(w.pending))
  {
    hide SelectedIds, Legal;
    HandedAreGone(w, q.id);
    StartsFresh(w, s);
    SelectedAreListed(w.pending);
  }

  lemma HandedAreGone(w: World, id: string)
    requires FocusOk(w)
    ensures id in w.handed ==> HandedOk(w, id)
  {
  }

  lemma StartsFresh(w: World, s: Step)
    requires Legal(w, s)
    ensures s.Start? ==> s.id !in w.started
  {
  }

  lemma SelectedAreListed(ps: seq<Pending>)
    ensures forall p :: p in ps && p.selected ==> p.id in SelectedIds(ps)
  {
    forall p | p in ps && p.selected
      ensures p.id in SelectedIds(ps)
    {
      var i :| 0 <= i < |ps| && ps[i] == p;
    }
  }

  lemma ListFocusStep(w: World, s: Step)
    requires Apart(w) && FocusOk(w) && Legal(w, s)
    ensures var n := Next(w, s);
            && (forall id :: id in w.handed ==> HandedOk(n, id))
            && (forall p :: p in n.pending && p.activate ==> p.id in n.requested)
  {
    ListStep(w, s);
    var n := Next(w, s);
    assert w.started <= n.started && w.requested <= n.requested;
    assert s.RequestActivation? ==> SelectedIds(w.pending) <= n.requested;
    forall q | q in n.pending
      ensures q.id !in w.handed && (q.activate ==> q.id in n.requested)
    {
      hide Next, Traced;
      TracedKeepsFocus(w, s, q);
    }
    hide Next;
  }

  lemma FocusStep(w: World, s: Step)
    requires Apart(w) && FocusOk(w) && Legal(w, s)
    ensures FocusOk(Next(w, s))
  {
    ListFocusStep(w, s);
    if s.Reconcile? {
      FocusReconcile(w, s);
    } else if s.TakeFocus? {
      FocusTaken(w, s);
    }
    hide Transform, LastHandover, HandedOver, Events, FirstIndex, AfterReport, ReportAnswer, HandedOk, Legal, NoTwice;
  }

  lemma FocusReconcile(w: World, s: Step)
    requires Apart(w) && FocusOk(w) && s.Reconcile?
    ensures var n := Next(w, s);
            && NoTwice(n.handed) && n.delivered == w.delivered
            && (n.activation.Some? <==> n.owner.Some?)
            && (forall id :: id in n.handed ==> id in w.handed || HandedOk(n, id))
            && (forall id :: id in w.handed ==> id in n.handed)
            && (n.owner.Some? ==> n.owner.value in n.handed && n.owner.value !in n.delivered)
  {
    HandoverBelongs(w.pending, s.rows, s.now, IsQueued);
    var from := HandedOver(w.pending, s.rows, IsQueued);
    if from.Some? {
      HandoverIsNew(w, s, from.value);
      hide NoTwice;
      NoTwiceOneMore(w.handed, from.value);
    }
    hide Transform, LastHandover, HandedOver, HandedOk, NoTwice;
  }

  lemma FocusTaken(w: World, s: Step)
    requires FocusOk(w) && s.TakeFocus?
    ensures NoTwice(Next(w, s).delivered)
  {
    if s.attentive && w.activation.Some? && s.pointed == w.activation {
      NoTwiceOneMore(w.delivered, w.owner.value);
    }
  }

  /** A queued focus is delivered exactly when the user attends and still points at its row; either way it is used up. */
  lemma DeliveredIffPointedAt(w: World, attentive: bool, pointed: Option<FlagKey>)
    requires FocusOk(w)
    ensures var n := Next(w, TakeFocus(attentive, pointed));
            && n.activation.None? && n.owner.None?
            && if attentive && w.activation.Some? && pointed == w.activation
               then w.owner.Some? && n.delivered == w.delivered + [w.owner.value]
               else n.delivered == w.delivered
  {
    hide NoTwice, HandedOk;
  }

  lemma HandoverIsNew(w: World, s: Step, id: string)
    requires Apart(w) && FocusOk(w) && s.Reconcile?
    requires HandedOver(w.pending, s.rows, IsQueued) == Some(id)
    ensures id !in w.handed && HandedOk(Next(w, s), id)
  {
    HandoverBelongs(w.pending, s.rows, s.now, IsQueued);
    hide Transform, LastHandover, HandedOver, MatchedRow, Confirmed;
    var p :| p in w.pending && IsQueued(p) && p.id == id;
    HandedAreGone(w, id);
  }

  lemma ReportIsCalm(ps: seq<Pending>, report: DetachReport)
    ensures forall p :: ReportStep(ps, report)(p).Some? ==> CalmlyFrom(ReportStep(ps, report)(p).value, p)
  {
    hide FirstIndex;
  }

  /** In every legal run each launch has its queued Enter delivered at most once, and only after Enter was pressed on it. */
  lemma {:induction false} FocusDeliveredAtMostOnce(steps: seq<Step>)
    requires LegalRun(steps)
    ensures FocusOk(Run(steps))
  {
    if steps == [] {
    } else {
      FocusDeliveredAtMostOnce(steps[..|steps| - 1]);
      EveryRunKeepsStories(steps[..|steps| - 1]);
      hide FocusOk;
      FocusStep(Run(steps[..|steps| - 1]), steps[|steps| - 1]);
    }
  }

  lemma CalmStep(w: World, s: Step)
    requires DistinctPairs(w.pending) && w.activation.None? && !Activating(w.pending) && !s.RequestActivation?
    ensures Next(w, s).activation.None? && !Activating(Next(w, s).pending) && Next(w, s).delivered == w.delivered
  {
    OnlyRequestsActivate(w, s);
    if s.Reconcile? && Queued(w, s.rows).Some? {
      var k := HandoverIndex(w.pending, s.rows);
      assert false;
    }
  }

  /** Further input cancels a queued Enter for good: nothing is delivered until Enter is pressed again. */
  lemma {:induction false} NothingDeliveredAfterInput(steps: seq<Step>, cancel: nat)
    requires LegalRun(steps) && cancel < |steps| && steps[cancel].CancelActivation?
    requires forall i :: cancel < i < |steps| ==> !steps[i].RequestActivation?
    ensures Run(steps).delivered == Run(steps[..cancel]).delivered
    ensures Run(steps).activation.None? && !Activating(Run(steps).pending)
  {
    var n := |steps| - 1;
    var w := Run(steps[..n]);
    EveryRunKeepsStories(steps[..n]);
    if cancel == n {
      TransformCalmed(w.pending);
    } else {
      NothingDeliveredAfterInput(steps[..n], cancel);
      assert steps[..n][..cancel] == steps[..cancel];
      CalmStep(w, steps[n]);
    }
  }

  lemma TransformCalmed(ps: seq<Pending>)
    ensures !Activating(Transform(ps, Calmed))
  {
    CalmedEntries(ps);
  }

  // ---------------------------------------------------------------------
  // The deadline, and where the pair assumption matters
  // ---------------------------------------------------------------------

  /** No waiting launch survives a reconcile at or past its deadline, or one that shows its row. */
  lemma NoStaleWaiting(w: World, rows: seq<Row>, now: Instant)
    ensures var ps := Next(w, Reconcile(rows, now)).pending;
            forall i :: 0 <= i < |ps| && ps[i].phase.Waiting? ==>
              now < ps[i].phase.since + CONFIRM_TIMEOUT && forall row :: row in rows ==> !ps[i].Matches(row)
  {
    var ps := Transform(w.pending, ReconcileStep(rows, now));
    forall i | 0 <= i < |ps| && ps[i].phase.Waiting?
      ensures now < ps[i].phase.since + CONFIRM_TIMEOUT && forall row :: row in rows ==> !ps[i].Matches(row)
    {
      var k := TransformFrom(w.pending, ReconcileStep(rows, now), ps[i]);
    }
  }

  lemma {:induction false} EventFrom(ps: seq<Pending>, g: Pending -> Option<Event>, e: Event) returns (k: nat)
    requires e in Events(ps, g)
    ensures k < |ps| && g(ps[k]) == Some(e)
  {
    var n := |ps| - 1;
    if e in Events(ps[..n], g) {
      k := EventFrom(ps[..n], g, e);
    } else {
      k := n;
    }
  }

  /** What entitles launch p to an event: an allowed reservation to a window, a window the terminal named to a binding. */
  predicate Justifies(p: Pending, canSpawn: Pending -> bool, e: Event) {
    && p.id == e.id
    && match e
       case Spawned(_, _, _) => p.phase.Opening? && p.phase.plan.Ready? && canSpawn(p)
       case Finished(_, _, _, Some(w), _) => p.phase == Spawning(Ready(Some(w)))
       case Finished(_, _, _, None, _) => p.phase.Opening? || p.phase.Spawning?
       case Deferred(_, _) => false
  }

  lemma NoteIsJustified(p: Pending, canSpawn: Pending -> bool)
    requires PollEvent(p, canSpawn).Some?
    ensures Justifies(p, canSpawn, PollEvent(p, canSpawn).value)
  {
  }

  /** A window opens only for a reserved launch its backend still allows, and binds only if the terminal named it. */
  lemma PollIsCareful(ps: seq<Pending>, canSpawn: Pending -> bool, e: Event)
    requires e in Events(ps, PollNote(canSpawn))
    ensures exists p :: p in ps && Justifies(p, canSpawn, e)
  {
    var k := EventFrom(ps, PollNote(canSpawn), e);
    NoteIsJustified(ps[k], canSpawn);
    hide Justifies, PollEvent, Events;
    assert Justifies(ps[k], canSpawn, e);
  }

  /** The cursor goes to the row of the selected launch exactly when that launch is confirmed. */
  lemma {:induction false} CursorFollowsTheSelected(ps: seq<Pending>, rows: seq<Row>, k: nat)
    requires AtMostOneSelected(ps) && k < |ps| && ps[k].selected
    ensures LastHandover(ps, rows, IsSelected) ==
            if Confirmed(ps[k], rows) then Some(KeyOf(MatchedRow(ps[k], rows).value)) else None
  {
    hide Confirmed, MatchedRow;
    var n := |ps| - 1;
    if k < n {
      assert !ps[n].selected;
      CursorFollowsTheSelected(ps[..n], rows, k);
    } else {
      NobodyToFollow(ps[..n], rows);
    }
  }

  lemma {:induction false} NobodyToFollow(ps: seq<Pending>, rows: seq<Row>)
    requires forall i :: 0 <= i < |ps| ==> !ps[i].selected
    ensures LastHandover(ps, rows, IsSelected).None? && LastHandover(ps, rows, IsQueued).None?
  {
    if ps != [] {
      NobodyToFollow(ps[..|ps| - 1], rows);
    }
  }

  lemma KeptReportRemovesNothing(ps: seq<Pending>, report: DetachReport, k: nat)
    requires k < |ps| && ReportAnswer(ps, report) != Closed
    ensures Find(AfterReport(ps, report), ps[k].id).Some?
  {
    hide FirstIndex;
    assert AfterReport(ps, report)[k].id == ps[k].id;
  }

  lemma ClosingReportRemovesEveryMatch(ps: seq<Pending>, report: DetachReport, k: nat)
    requires DistinctIds(ps) && k < |ps| && ReportAnswer(ps, report) == Closed
    ensures Find(AfterReport(ps, report), ps[k].id).None? <==> ps[k].Reported(report)
  {
    FindByIndex(ps, k);
    hide Find, FirstIndex;
    assert forall p :: KeepsId(CloseStep(report), p);
    FindTransform(ps, CloseStep(report), ps[k].id);
  }

  /**
   * A report closes a launch whose window is still being opened exactly when an
   * earlier launch, already past that point, carries the same host and token.
   * Unique pairs are what rule this out.
   */
  lemma ReportLosesUnfinishedIff(ps: seq<Pending>, report: DetachReport, k: nat)
    requires DistinctIds(ps) && k < |ps| && ps[k].phase.Spawning?
    ensures Find(AfterReport(ps, report), ps[k].id).None? <==>
            ps[k].Reported(report) && !ps[FirstIndex(ps, Names(report))].phase.Spawning?
  {
    assert Names(report)(ps[k]) ==> FirstIndex(ps, Names(report)) <= k;
    if ReportAnswer(ps, report) == Closed {
      ClosingReportRemovesEveryMatch(ps, report, k);
    } else {
      KeptReportRemovesNothing(ps, report, k);
    }
  }
}
