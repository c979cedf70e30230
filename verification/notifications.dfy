// Models src/app/notifications.rs: popups with a lifetime, a fade and a spinner,
// and the timer that decides when to draw them again. Times are nanoseconds on
// one clock.
module Notifications {
  import opened Common
  import opened Options

  type Time = nat

  const MS: nat := 1_000_000
  const LIFETIME: nat := 5_000 * MS
  const PROGRESS_DELAY: nat := 800 * MS
  const FADE_IN: nat := 180 * MS
  const SPINNER_STEP: nat := 100 * MS
  const FRAMES: nat := 10
  const U64: nat := 0x1_0000_0000_0000_0000

  type Id = i: nat | i < U64

  datatype Level = Info | Progress | Success | Warning | Error {
    predicate Expires() {
      Info? || Success?
    }
  }

  datatype Notification = Notification(
    id: Id,
    level: Level,
    title: string,
    text: string,
    created: Time,
    updated: Time
  ) {
    function VisibleAt(): Time {
      created + if level.Progress? then PROGRESS_DELAY else 0
    }

    predicate Visible(now: Time) {
      now >= VisibleAt()
    }

    predicate Dim(now: Time) {
      Visible(now) && Elapsed(VisibleAt(), now) < FADE_IN
    }

    predicate Spins(now: Time) {
      level.Progress? && Visible(now)
    }

    function Frame(now: Time): nat {
      Elapsed(created, now) / MS / (SPINNER_STEP / MS) % FRAMES
    }

    predicate Expired(now: Time) {
      level.Expires() && Elapsed(updated, now) >= LIFETIME
    }
  }

  // ---------------------------------------------------------------------
  // What the timer looks at
  // ---------------------------------------------------------------------

  function Kept(es: seq<Notification>, now: Time): seq<Notification> {
    if es == [] then []
    else (if es[0].Expired(now) then [] else [es[0]]) + Kept(es[1..], now)
  }

  predicate Fading(es: seq<Notification>, now: Time) {
    exists i :: 0 <= i < |es| && es[i].Dim(now)
  }

  /** The spinner frame of the first visible progress notice. */
  function Phase(es: seq<Notification>, now: Time): Option<nat> {
    if es == [] then None
    else if es[0].Spins(now) then Some(es[0].Frame(now))
    else Phase(es[1..], now)
  }

  predicate AnySpins(es: seq<Notification>, now: Time) {
    exists i :: 0 <= i < |es| && es[i].Spins(now)
  }

  /** What `tick` reports, given what the tick before it saw. */
  predicate Changes(es: seq<Notification>, wasFading: bool, phase: Option<nat>, now: Time) {
    || |Kept(es, now)| != |es|
    || Fading(Kept(es, now), now) != wasFading
    || Phase(Kept(es, now), now) != phase
  }

  /** The delays after which one notice next needs the timer. */
  predicate Due(n: Notification, now: Time, wait: nat) {
    || (n.VisibleAt() > now && wait == n.VisibleAt() - now)
    || (n.VisibleAt() + FADE_IN > now && wait == n.VisibleAt() + FADE_IN - now)
    || (n.level.Expires() && wait == Elapsed(now, n.updated + LIFETIME))
    || (n.Spins(now) && wait == SPINNER_STEP)
  }

  function Delays(n: Notification, now: Time): (all: seq<nat>)
    ensures forall wait: nat :: wait in all <==> Due(n, now, wait)
  {
    (if n.VisibleAt() > now then [n.VisibleAt() - now] else [])
    + (if n.VisibleAt() + FADE_IN > now then [n.VisibleAt() + FADE_IN - now] else [])
    + (if n.level.Expires() then [Elapsed(now, n.updated + LIFETIME)] else [])
    + (if n.Spins(now) then [SPINNER_STEP] else [])
  }

  ghost predicate AnyDue(es: seq<Notification>, now: Time, wait: nat) {
    exists i :: 0 <= i < |es| && Due(es[i], now, wait)
  }

  /** The earliest delay any notice asks for. */
  ghost predicate IsWakeup(es: seq<Notification>, now: Time, wake: Option<nat>) {
    match wake
    case None => forall wait: nat :: !AnyDue(es, now, wait)
    case Some(w) => AnyDue(es, now, w) && forall wait: nat :: AnyDue(es, now, wait) ==> w <= wait
  }

  // ---------------------------------------------------------------------
  // The list
  // ---------------------------------------------------------------------

  function IndexOf(es: seq<Notification>, id: Id): (n: nat)
    ensures n <= |es|
    ensures n < |es| ==> es[n].id == id
    ensures forall i :: 0 <= i < n ==> es[i].id != id
  {
    if es == [] || es[0].id == id then 0
    else
      assert forall i :: 1 <= i < |es| ==> es[1..][i - 1] == es[i];
      1 + IndexOf(es[1..], id)
  }

  function SameIndex(es: seq<Notification>, level: Level, text: string): (n: nat)
    ensures n <= |es|
    ensures n < |es| ==> es[n].level == level && es[n].text == text
    ensures forall i :: 0 <= i < n ==> !(es[i].level == level && es[i].text == text)
  {
    if es == [] || (es[0].level == level && es[0].text == text) then 0
    else
      assert forall i :: 1 <= i < |es| ==> es[1..][i - 1] == es[i];
      1 + SameIndex(es[1..], level, text)
  }

  /** A notice keeps its birth unless a finished operation starts over. */
  function Rewritten(n: Notification, level: Level, text: string, now: Time): Notification {
    n.(level := level, text := text, updated := now,
       created := if !n.level.Progress? && level.Progress? then now else n.created)
  }

  function Updated(es: seq<Notification>, id: Id, level: Level, text: string, now: Time): seq<Notification> {
    var n := IndexOf(es, id);
    if n < |es| then es[n := Rewritten(es[n], level, text, now)]
    else es + [Notification(id, level, "Working", text, now, now)]
  }

  function Without(es: seq<Notification>, id: Id): seq<Notification> {
    if es == [] then []
    else (if es[0].id == id then [] else [es[0]]) + Without(es[1..], id)
  }

  ghost predicate DistinctIds(es: seq<Notification>) {
    forall i, j :: 0 <= i < j < |es| ==> es[i].id != es[j].id
  }

  class Notifications {
    var entries: seq<Notification>
    var nextId: Id
    var wasFading: bool
    var spinnerPhase: Option<nat>

    ghost predicate Valid()
      reads this
    {
      DistinctIds(entries)
    }

    constructor ()
      ensures Valid() && entries == [] && nextId == 0 && !wasFading && spinnerPhase.None?
    {
      entries, nextId, wasFading, spinnerPhase := [], 0, false, None;
    }

    method Remove(id: Id)
      requires Valid()
      modifies this`entries
      ensures Valid() && entries == Without(old(entries), id)
      ensures forall n :: n in entries <==> n in old(entries) && n.id != id
    {
      WithoutHolds(entries, id);
      entries := Without(entries, id);
    }

    /** Only a repeated result coalesces; the id may wrap, and then replaces the notice that still holds it. */
    method Push(level: Level, text: string, now: Time) returns (id: Id)
      requires Valid()
      modifies this`entries, this`nextId
      ensures Valid()
      ensures var n := SameIndex(old(entries), level, text);
              if level != Progress && n < |old(entries)|
              then entries == old(entries)[n := old(entries)[n].(updated := now)]
                   && id == old(entries)[n].id && nextId == old(nextId)
              else entries == Updated(old(entries), old(nextId), level, text, now)
                   && id == old(nextId) && nextId == (old(nextId) + 1) % U64
      ensures exists k :: 0 <= k < |entries| && entries[k].id == id && entries[k].level == level
                          && entries[k].text == text && entries[k].updated == now
    {
      var n := SameIndex(entries, level, text);
      if level != Progress && n < |entries| {
        entries := entries[n := entries[n].(updated := now)];
        assert entries[n].text == text;
        return entries[n].id;
      }
      id := nextId;
      nextId := (nextId + 1) % U64;
      Update(id, level, text, now);
    }

    method Update(id: Id, level: Level, text: string, now: Time)
      requires Valid()
      modifies this`entries
      ensures Valid() && entries == Updated(old(entries), id, level, text, now)
      ensures var k := IndexOf(old(entries), id);
              k < |entries| && entries[k].id == id && entries[k].level == level && entries[k].text == text
              && entries[k].updated == now
      ensures (forall i :: 0 <= i < |old(entries)| ==> old(entries)[i].id != id) ==>
                entries == old(entries) + [Notification(id, level, "Working", text, now, now)]
      ensures (exists i :: 0 <= i < |old(entries)| && old(entries)[i].id == id) ==> |entries| == |old(entries)|
      ensures forall i :: 0 <= i < |old(entries)| ==>
                var was, n := old(entries)[i], entries[i];
                if was.id != id then n == was
                else n.title == was.title
                     && n.created == if level.Progress? && !was.level.Progress? then now else was.created
    {
      var n := IndexOf(entries, id);
      if n < |entries| {
        var e := entries[n];
        if e.level != Progress && level == Progress {
          e := e.(created := now);
        }
        entries := entries[n := e.(level := level, text := text, updated := now)];
      } else {
        entries := entries + [Notification(id, level, "Working", text, now, now)];
      }
    }

    /** The oldest notice on screen goes; hidden ones do not count. */
    method DismissOldest(now: Time)
      requires Valid()
      modifies this`entries
      ensures Valid()
      ensures |entries| == |old(entries)| -
                           if exists i :: 0 <= i < |old(entries)| && old(entries)[i].Visible(now) then 1 else 0
      ensures forall k :: 0 <= k < |old(entries)| && old(entries)[k].Visible(now)
                          && (forall i :: 0 <= i < k ==> !old(entries)[i].Visible(now)) ==>
                entries == old(entries)[..k] + old(entries)[k + 1..]
    {
      var i := 0;
      while i < |entries| && !entries[i].Visible(now)
        invariant i <= |entries|
        invariant forall j :: 0 <= j < i ==> !entries[j].Visible(now)
      {
        i := i + 1;
      }
      if i < |entries| {
        WithoutOne(entries, i);
        Remove(entries[i].id);
      }
    }

    /** Drop what has expired, and say whether the timers need a frame. */
    method Tick(now: Time) returns (changed: bool)
      requires Valid()
      modifies this`entries, this`wasFading, this`spinnerPhase
      ensures Valid() && entries == Kept(old(entries), now)
      ensures forall n :: n in entries <==>
                n in old(entries) && !((n.level.Info? || n.level.Success?) && now >= n.updated + LIFETIME)
      ensures wasFading == Fading(entries, now) && spinnerPhase == Phase(entries, now)
      ensures changed <==> Changes(old(entries), old(wasFading), old(spinnerPhase), now)
    {
      KeptHolds(entries, now);
      KeptDistinct(entries, now);
      var len := |entries|;
      entries := Kept(entries, now);
      var fading := Fading(entries, now);
      var phase := Phase(entries, now);
      changed := len != |entries| || fading != wasFading || phase != spinnerPhase;
      wasFading, spinnerPhase := fading, phase;
    }

    method NextWakeup(now: Time) returns (wake: Option<nat>)
      ensures IsWakeup(entries, now, wake)
    {
      wake := None;
      for i := 0 to |entries|
        invariant IsWakeup(entries[..i], now, wake)
      {
        hide IsWakeup, Due;
        var n := entries[i];
        var all := Delays(n, now);
        WakeupOneMore(entries[..i], n, now, wake, all);
        wake := Earliest(wake, all);
        assert entries[..i + 1] == entries[..i] + [n];
      }
      assert entries[..|entries|] == entries;
    }
  }

  method Earliest(start: Option<nat>, all: seq<nat>) returns (wake: Option<nat>)
    ensures wake == Least(start, all)
  {
    wake := start;
    for j := 0 to |all|
      invariant wake == Least(start, all[..j])
    {
      assert all[..j + 1] == all[..j] + [all[j]];
      LeastOneMore(start, all[..j], all[j]);
      wake := if wake.None? || all[j] < wake.value then Some(all[j]) else wake;
    }
    assert all[..|all|] == all;
  }

  function Least(start: Option<nat>, all: seq<nat>): Option<nat> {
    if all == [] then start
    else
      var m := Least(start, all[..|all| - 1]);
      if m.None? || all[|all| - 1] < m.value then Some(all[|all| - 1]) else m
  }

  lemma LeastOneMore(start: Option<nat>, all: seq<nat>, x: nat)
    ensures var m := Least(start, all);
            Least(start, all + [x]) == if m.None? || x < m.value then Some(x) else m
  {
    assert (all + [x])[..|all|] == all;
  }

  lemma {:induction false} LeastHolds(start: Option<nat>, all: seq<nat>)
    ensures Least(start, all).None? <==> start.None? && all == []
    ensures Least(start, all).Some? ==>
              && (Least(start, all) == start || Least(start, all).value in all)
              && (start.Some? ==> Least(start, all).value <= start.value)
              && forall x :: x in all ==> Least(start, all).value <= x
  {
    if all != [] {
      LeastHolds(start, all[..|all| - 1]);
      assert all == all[..|all| - 1] + [all[|all| - 1]];
    }
  }

  lemma WakeupOneMore(es: seq<Notification>, n: Notification, now: Time, wake: Option<nat>, all: seq<nat>)
    requires IsWakeup(es, now, wake) && forall wait: nat :: wait in all <==> Due(n, now, wait)
    ensures IsWakeup(es + [n], now, Least(wake, all))
  {
    LeastHolds(wake, all);
    forall wait: nat
      ensures AnyDue(es + [n], now, wait) <==> AnyDue(es, now, wait) || Due(n, now, wait)
    {
      hide Due;
      var more := es + [n];
      if i :| 0 <= i < |es| && Due(es[i], now, wait) {
        assert Due(more[i], now, wait);
      }
      if Due(n, now, wait) {
        assert Due(more[|es|], now, wait);
      }
    }
    hide AnyDue, Due;
    if all != [] {
      assert Due(n, now, all[0]) by {
        assert all[0] in all;
      }
    }
  }

  lemma {:induction false} WithoutHolds(es: seq<Notification>, id: Id)
    ensures forall n :: n in Without(es, id) <==> n in es && n.id != id
    ensures DistinctIds(es) ==> DistinctIds(Without(es, id))
  {
    if es != [] {
      assert es == [es[0]] + es[1..];
      DistinctCons(es[0], es[1..]);
      hide DistinctIds;
      WithoutHolds(es[1..], id);
      DistinctCons(es[0], Without(es[1..], id));
      assert [] + Without(es[1..], id) == Without(es[1..], id);
    }
  }

  lemma {:induction false} WithoutOne(es: seq<Notification>, k: nat)
    requires DistinctIds(es) && k < |es|
    ensures Without(es, es[k].id) == es[..k] + es[k + 1..]
  {
    if k == 0 {
      WithoutNone(es[1..], es[0].id);
    } else {
      WithoutOne(es[1..], k - 1);
      assert es[1..][..k - 1] == es[1..k] && es[1..][k..] == es[k + 1..];
      assert [es[0]] + es[1..k] == es[..k];
    }
  }

  lemma {:induction false} WithoutNone(es: seq<Notification>, id: Id)
    requires forall i :: 0 <= i < |es| ==> es[i].id != id
    ensures Without(es, id) == es
  {
    if es != [] {
      WithoutNone(es[1..], id);
    }
  }

  lemma {:induction false} KeptHolds(es: seq<Notification>, now: Time)
    ensures forall n :: n in Kept(es, now) <==> n in es && !n.Expired(now)
    ensures |Kept(es, now)| <= |es|
    ensures |Kept(es, now)| == |es| ==> Kept(es, now) == es
  {
    if es != [] {
      KeptHolds(es[1..], now);
      assert es == [es[0]] + es[1..];
    }
  }

  lemma DistinctCons(x: Notification, rest: seq<Notification>)
    ensures DistinctIds([x] + rest) <==> DistinctIds(rest) && forall n :: n in rest ==> n.id != x.id
  {
    var all := [x] + rest;
    assert all[0] == x && forall i :: 0 <= i < |rest| ==> all[i + 1] == rest[i];
    if DistinctIds(all) {
      forall i, j | 0 <= i < j < |rest|
        ensures rest[i].id != rest[j].id
      {
        assert all[i + 1].id != all[j + 1].id;
      }
    }
  }

  lemma {:induction false} KeptDistinct(es: seq<Notification>, now: Time)
    requires DistinctIds(es)
    ensures DistinctIds(Kept(es, now))
  {
    if es != [] {
      assert es == [es[0]] + es[1..];
      DistinctCons(es[0], es[1..]);
      hide DistinctIds;
      KeptDistinct(es[1..], now);
      KeptHolds(es[1..], now);
      DistinctCons(es[0], Kept(es[1..], now));
      assert [] + Kept(es[1..], now) == Kept(es[1..], now);
    }
  }

  // ---------------------------------------------------------------------
  // The timer is sound
  // ---------------------------------------------------------------------

  ghost predicate NoneExpired(es: seq<Notification>, now: Time) {
    forall i :: 0 <= i < |es| ==> !es[i].Expired(now)
  }

  lemma {:induction false} KeptAll(es: seq<Notification>, now: Time)
    ensures Kept(es, now) == es <==> NoneExpired(es, now)
  {
    KeptHolds(es, now);
    if es != [] {
      KeptAll(es[1..], now);
      if NoneExpired(es, now) {
        assert forall i :: 0 <= i < |es[1..]| ==> es[1..][i] == es[i + 1];
      } else {
        var i :| 0 <= i < |es| && es[i].Expired(now);
        assert es[i] in es;
      }
    }
  }

  /** After a tick at `now` nothing has expired yet. */
  lemma TickSettles(es: seq<Notification>, now: Time)
    ensures NoneExpired(Kept(es, now), now)
  {
    KeptHolds(es, now);
    forall i | 0 <= i < |Kept(es, now)|
      ensures !Kept(es, now)[i].Expired(now)
    {
      assert Kept(es, now)[i] in Kept(es, now);
    }
  }

  /** Before the wake-up it asked for, a notice looks the same apart from its spinner. */
  lemma NoticeHolds(n: Notification, now: Time, t: Time, wake: Option<nat>)
    requires !n.Expired(now) && now <= t
    requires forall wait: nat :: Due(n, now, wait) ==> wake.Some? && wake.value <= wait
    requires wake.Some? ==> t < now + wake.value
    ensures !n.Expired(t) && (n.Visible(t) <==> n.Visible(now)) && (n.Dim(t) <==> n.Dim(now))
  {
    var hidden, fade, end := n.VisibleAt() - now, n.VisibleAt() + FADE_IN - now, Elapsed(now, n.updated + LIFETIME);
    assert n.VisibleAt() > now ==> Due(n, now, hidden);
    assert n.VisibleAt() + FADE_IN > now ==> Due(n, now, fade);
    assert n.level.Expires() ==> Due(n, now, end);
  }

  lemma {:induction false} PhaseNone(es: seq<Notification>, now: Time)
    ensures Phase(es, now).None? <==> !AnySpins(es, now)
  {
    if es != [] {
      PhaseNone(es[1..], now);
      if AnySpins(es[1..], now) {
        var i :| 0 <= i < |es[1..]| && es[1..][i].Spins(now);
        assert es[i + 1].Spins(now);
      }
      if i :| 0 <= i < |es| && es[i].Spins(now) {
        assert i > 0 ==> es[1..][i - 1].Spins(now);
      }
    }
  }

  /**
   * After a tick at `now`, no tick before the wake-up reports a change except
   * for a spinner frame; with no spinner on screen it reports none at all, ever
   * if no wake-up is asked for.
   */
  lemma NothingBeforeWakeup(es: seq<Notification>, now: Time, wake: Option<nat>, t: Time)
    requires NoneExpired(es, now) && IsWakeup(es, now, wake)
    requires now <= t && (wake.Some? ==> t < now + wake.value)
    ensures Changes(es, Fading(es, now), Phase(es, now), t) <==> Phase(es, t) != Phase(es, now)
    ensures AnySpins(es, t) <==> AnySpins(es, now)
    ensures !AnySpins(es, now) ==> !Changes(es, Fading(es, now), Phase(es, now), t)
  {
    forall i | 0 <= i < |es|
      ensures !es[i].Expired(t) && (es[i].Visible(t) <==> es[i].Visible(now)) && (es[i].Dim(t) <==> es[i].Dim(now))
    {
      assert forall wait: nat :: Due(es[i], now, wait) ==> AnyDue(es, now, wait);
      hide Due;
      NoticeHolds(es[i], now, t, wake);
    }
    KeptAll(es, t);
    PhaseNone(es, now);
    PhaseNone(es, t);
    hide IsWakeup, AnyDue, Due, Kept, Phase;
    assert forall i :: 0 <= i < |es| ==> es[i].Spins(t) == es[i].Spins(now);
  }

  /** With a spinner on screen the wake-up is at most one spinner step away, so no frame is skipped. */
  lemma SpinnerWakesEveryStep(es: seq<Notification>, now: Time, wake: Option<nat>, i: nat)
    requires IsWakeup(es, now, wake) && i < |es| && es[i].Spins(now)
    ensures wake.Some? && wake.value <= SPINNER_STEP
    ensures es[i].created <= now
    ensures (now + wake.value - es[i].created) / MS / (SPINNER_STEP / MS) <=
            (now - es[i].created) / MS / (SPINNER_STEP / MS) + 1
  {
    assert Due(es[i], now, SPINNER_STEP);
    assert AnyDue(es, now, SPINNER_STEP);
    StepAdvancesOne(now - es[i].created, wake.value);
  }

  lemma StepAdvancesOne(age: nat, wait: nat)
    requires wait <= SPINNER_STEP
    ensures (age + wait) / MS / (SPINNER_STEP / MS) <= age / MS / (SPINNER_STEP / MS) + 1
  {
    assert SPINNER_STEP / MS == 100;
  }

  // ---------------------------------------------------------------------
  // What a tick can miss
  // ---------------------------------------------------------------------

  /** What one notice looks like: absent, or shown with its text, dimmed or not, at a spinner frame. */
  datatype View = Hidden | Shown(id: Id, level: Level, title: string, text: string, dim: bool, frame: nat)

  function Look(n: Notification, now: Time): View {
    if n.Expired(now) || !n.Visible(now) then Hidden
    else Shown(n.id, n.level, n.title, n.text, n.Dim(now), if n.level.Progress? then n.Frame(now) else 0)
  }

  /** The popup stack looks the same at both times. */
  ghost predicate SameLook(es: seq<Notification>, prev: Time, now: Time) {
    forall i :: 0 <= i < |es| ==> Look(es[i], prev) == Look(es[i], now)
  }

  ghost predicate AllBorn(es: seq<Notification>, now: Time) {
    forall i :: 0 <= i < |es| ==> es[i].created <= now
  }

  lemma {:induction false} PhaseSame(es: seq<Notification>, prev: Time, now: Time)
    requires SameLook(es, prev, now) && NoneExpired(es, prev) && NoneExpired(es, now)
    ensures Phase(es, prev) == Phase(es, now)
  {
    if es != [] {
      assert Look(es[0], prev) == Look(es[0], now);
      assert forall i :: 0 <= i < |es[1..]| ==> es[1..][i] == es[i + 1];
      PhaseSame(es[1..], prev, now);
    }
  }

  lemma SameLookFades(es: seq<Notification>, prev: Time, now: Time)
    requires SameLook(es, prev, now) && NoneExpired(es, prev) && NoneExpired(es, now)
    ensures Fading(es, prev) == Fading(es, now)
  {
    forall i | 0 <= i < |es|
      ensures es[i].Dim(prev) == es[i].Dim(now)
    {
      assert Look(es[i], prev) == Look(es[i], now);
    }
  }

  /** A tick never asks for a needless frame: when it reports a change, the stack looks different. */
  lemma ReportedChangeIsReal(es: seq<Notification>, prev: Time, now: Time)
    requires NoneExpired(es, prev) && AllBorn(es, prev) && prev <= now
    requires Changes(es, Fading(es, prev), Phase(es, prev), now)
    ensures !SameLook(es, prev, now)
  {
    KeptAll(es, now);
    KeptHolds(es, now);
    if !NoneExpired(es, now) {
      var i :| 0 <= i < |es| && es[i].Expired(now);
      assert Look(es[i], prev).Shown? && Look(es[i], now).Hidden?;
    } else if SameLook(es, prev, now) {
      PhaseSame(es, prev, now);
      SameLookFades(es, prev, now);
    }
  }

  // The converse fails. The loop ticks again by the wake-up it asked for, and by
  // then only these things can have happened to a notice, each at a set time.

  /** It appears, and starts to fade in. */
  predicate Begins(n: Notification, t: Time) {
    n.VisibleAt() == t
  }

  /** It stops fading. */
  predicate Ends(n: Notification, t: Time) {
    n.VisibleAt() + FADE_IN == t
  }

  /** It is fading all along. */
  predicate Across(n: Notification, prev: Time, now: Time) {
    n.VisibleAt() <= prev && now < n.VisibleAt() + FADE_IN
  }

  /** Its lifetime is over. */
  predicate Lapses(n: Notification, t: Time) {
    n.level.Expires() && n.updated + LIFETIME == t
  }

  /** Its spinner, already on screen, turns. */
  predicate Turns(n: Notification, prev: Time, now: Time) {
    n.Spins(prev) && Steps(n, now) != Steps(n, prev)
  }

  /** Whole spinner steps since its birth. */
  function Steps(n: Notification, t: Time): nat {
    Elapsed(n.created, t) / SPINNER_STEP
  }

  /** The first notice whose spinner is on screen, if any. */
  function Lead(es: seq<Notification>, t: Time): (k: nat)
    ensures k <= |es|
    ensures k < |es| ==> es[k].Spins(t)
    ensures forall i :: 0 <= i < k ==> !es[i].Spins(t)
  {
    if es == [] || es[0].Spins(t) then 0
    else
      assert forall i :: 1 <= i < |es| ==> es[1..][i - 1] == es[i];
      1 + Lead(es[1..], t)
  }

  lemma {:induction false} PhaseIsLead(es: seq<Notification>, t: Time)
    ensures Phase(es, t) == if Lead(es, t) < |es| then Some(es[Lead(es, t)].Frame(t)) else None
  {
    if es != [] && !es[0].Spins(t) {
      PhaseIsLead(es[1..], t);
    }
  }

  /** `now` is a tick the loop can make after the one at `prev`: later, and no later than the wake-up. */
  ghost predicate NextTick(es: seq<Notification>, prev: Time, now: Time, wake: Option<nat>) {
    IsWakeup(es, prev, wake) && prev < now && (wake.Some? ==> now <= prev + wake.value)
  }

  lemma StepsAndFrames(age: nat, wait: nat)
    requires wait <= SPINNER_STEP
    ensures (age + wait) / MS / (SPINNER_STEP / MS) % FRAMES != age / MS / (SPINNER_STEP / MS) % FRAMES <==>
            (age + wait) / SPINNER_STEP != age / SPINNER_STEP
  {
    MsSteps(age);
    MsSteps(age + wait);
    StepAdvancesOne(age, wait);
  }

  lemma MsSteps(age: nat)
    ensures age / MS / (SPINNER_STEP / MS) == age / SPINNER_STEP
  {
    assert SPINNER_STEP == 100_000_000 && MS == 1_000_000 && SPINNER_STEP / MS == 100;
  }

  lemma NoticeByNextTick(n: Notification, prev: Time, now: Time, wake: Option<nat>)
    requires !n.Expired(prev) && n.created <= prev < now
    requires forall wait: nat :: Due(n, prev, wait) ==> wake.Some? && wake.value <= wait
    requires wake.Some? ==> now <= prev + wake.value
    ensures n.Expired(now) <==> Lapses(n, now)
    ensures n.Visible(now) <==> n.Visible(prev) || Begins(n, now)
    ensures n.Dim(prev) <==> Across(n, prev, now) || Ends(n, now)
    ensures n.Dim(now) <==> Across(n, prev, now) || Begins(n, now)
    ensures Begins(n, now) ==> !n.Visible(prev)
    ensures n.Spins(prev) ==> now - prev <= SPINNER_STEP
  {
    var hidden, fade, end := n.VisibleAt() - prev, n.VisibleAt() + FADE_IN - prev, Elapsed(prev, n.updated + LIFETIME);
    assert n.VisibleAt() > prev ==> Due(n, prev, hidden);
    assert n.VisibleAt() + FADE_IN > prev ==> Due(n, prev, fade);
    assert n.level.Expires() ==> Due(n, prev, end);
    assert n.Spins(prev) ==> Due(n, prev, SPINNER_STEP);
  }

  /** A spinner that has just appeared shows its ninth frame. */
  lemma FirstFrame(n: Notification, now: Time)
    requires Begins(n, now) && n.level.Progress?
    ensures n.Frame(now) == 8
  {
    assert n.VisibleAt() - n.created == 800 * MS && 800 * MS / MS == 800;
  }

  lemma FrameTurnsIff(n: Notification, prev: Time, now: Time)
    requires n.created <= prev < now <= prev + SPINNER_STEP
    ensures n.Frame(now) != n.Frame(prev) <==> Steps(n, now) != Steps(n, prev)
  {
    StepsAndFrames(prev - n.created, now - prev);
  }

  /** A notice looks different by the next tick exactly when one of those things happened to it. */
  lemma LookChangesIff(n: Notification, prev: Time, now: Time, wake: Option<nat>)
    requires !n.Expired(prev) && n.created <= prev < now && !n.Expired(now)
    requires forall wait: nat :: Due(n, prev, wait) ==> wake.Some? && wake.value <= wait
    requires wake.Some? ==> now <= prev + wake.value
    ensures Look(n, prev) != Look(n, now) <==> Begins(n, now) || Ends(n, now) || Turns(n, prev, now)
  {
    NoticeByNextTick(n, prev, now, wake);
    if n.Spins(prev) {
      FrameTurnsIff(n, prev, now);
    }
  }

  ghost predicate SomeBegins(es: seq<Notification>, t: Time) {
    exists i :: 0 <= i < |es| && Begins(es[i], t)
  }

  ghost predicate SomeEnds(es: seq<Notification>, t: Time) {
    exists i :: 0 <= i < |es| && Ends(es[i], t)
  }

  ghost predicate SomeAcross(es: seq<Notification>, prev: Time, now: Time) {
    exists i :: 0 <= i < |es| && Across(es[i], prev, now)
  }

  ghost predicate SomeTurns(es: seq<Notification>, prev: Time, now: Time) {
    exists i :: 0 <= i < |es| && Turns(es[i], prev, now)
  }

  ghost predicate SomeLapses(es: seq<Notification>, t: Time) {
    exists i :: 0 <= i < |es| && Lapses(es[i], t)
  }

  /** What each notice of the list asks for bounds the wake-up. */
  lemma DueBounds(es: seq<Notification>, prev: Time, wake: Option<nat>, i: nat)
    requires IsWakeup(es, prev, wake) && i < |es|
    ensures forall wait: nat :: Due(es[i], prev, wait) ==> wake.Some? && wake.value <= wait
  {
    assert forall wait: nat :: Due(es[i], prev, wait) ==> AnyDue(es, prev, wait);
  }

  ghost predicate ListByNextTick(es: seq<Notification>, prev: Time, now: Time, i: nat)
    requires i < |es|
  {
    var n := es[i];
    && (n.Expired(now) <==> Lapses(n, now))
    && (n.Visible(now) <==> n.Visible(prev) || Begins(n, now))
    && (Begins(n, now) ==> !n.Visible(prev))
    && (n.Dim(prev) <==> Across(n, prev, now) || Ends(n, now))
    && (n.Dim(now) <==> Across(n, prev, now) || Begins(n, now))
    && (n.Spins(prev) ==> now - prev <= SPINNER_STEP)
    && (!n.Expired(now) ==>
          (Look(n, prev) != Look(n, now) <==> Begins(n, now) || Ends(n, now) || Turns(n, prev, now)))
  }

  lemma EveryNoticeByNextTick(es: seq<Notification>, prev: Time, now: Time, wake: Option<nat>)
    requires NoneExpired(es, prev) && AllBorn(es, prev) && NextTick(es, prev, now, wake)
    ensures forall i :: 0 <= i < |es| ==> ListByNextTick(es, prev, now, i)
  {
    forall i | 0 <= i < |es|
      ensures ListByNextTick(es, prev, now, i)
    {
      DueBounds(es, prev, wake, i);
      hide Due, Look, Turns, IsWakeup;
      NoticeByNextTick(es[i], prev, now, wake);
      if !es[i].Expired(now) {
        LookChangesIff(es[i], prev, now, wake);
      }
    }
  }

  lemma FadingBefore(es: seq<Notification>, prev: Time, now: Time)
    requires forall i :: 0 <= i < |es| ==> ListByNextTick(es, prev, now, i)
    ensures Fading(es, prev) <==> SomeAcross(es, prev, now) || SomeEnds(es, now)
  {
    if i :| 0 <= i < |es| && es[i].Dim(prev) {
      assert ListByNextTick(es, prev, now, i);
    }
    if i :| 0 <= i < |es| && Across(es[i], prev, now) {
      assert ListByNextTick(es, prev, now, i);
      assert es[i].Dim(prev);
    }
    if i :| 0 <= i < |es| && Ends(es[i], now) {
      assert ListByNextTick(es, prev, now, i);
      assert es[i].Dim(prev);
    }
  }

  lemma FadingAfter(es: seq<Notification>, prev: Time, now: Time)
    requires forall i :: 0 <= i < |es| ==> ListByNextTick(es, prev, now, i)
    ensures Fading(es, now) <==> SomeAcross(es, prev, now) || SomeBegins(es, now)
  {
    if i :| 0 <= i < |es| && es[i].Dim(now) {
      assert ListByNextTick(es, prev, now, i);
    }
    if i :| 0 <= i < |es| && Across(es[i], prev, now) {
      assert ListByNextTick(es, prev, now, i);
      assert es[i].Dim(now);
    }
    if i :| 0 <= i < |es| && Begins(es[i], now) {
      assert es[i].Dim(now);
    }
  }

  /** The stack is fading as before exactly when some notice fades throughout, or one starts as another stops. */
  lemma FadingKeptIff(es: seq<Notification>, prev: Time, now: Time, wake: Option<nat>)
    requires NoneExpired(es, prev) && AllBorn(es, prev) && NextTick(es, prev, now, wake)
    ensures Fading(es, now) == Fading(es, prev) <==>
            SomeAcross(es, prev, now) || (SomeBegins(es, now) <==> SomeEnds(es, now))
  {
    EveryNoticeByNextTick(es, prev, now, wake);
    hide *;
    FadingBefore(es, prev, now);
    FadingAfter(es, prev, now);
  }

  lemma LapsesAreExpiries(es: seq<Notification>, prev: Time, now: Time)
    requires forall i :: 0 <= i < |es| ==> ListByNextTick(es, prev, now, i)
    ensures NoneExpired(es, now) <==> !SomeLapses(es, now)
  {
    hide Lapses, Begins, Ends, Across, Turns, Look;
    if i :| 0 <= i < |es| && es[i].Expired(now) {
      assert ListByNextTick(es, prev, now, i);
    }
    if i :| 0 <= i < |es| && Lapses(es[i], now) {
      assert ListByNextTick(es, prev, now, i);
    }
  }

  lemma LookKeptIff(es: seq<Notification>, prev: Time, now: Time)
    requires forall i :: 0 <= i < |es| ==> ListByNextTick(es, prev, now, i)
    requires NoneExpired(es, now)
    ensures SameLook(es, prev, now) <==> !(SomeBegins(es, now) || SomeEnds(es, now) || SomeTurns(es, prev, now))
  {
    hide Lapses, Begins, Ends, Across, Turns, Look;
    forall i | 0 <= i < |es|
      ensures Look(es[i], prev) != Look(es[i], now) <==>
              Begins(es[i], now) || Ends(es[i], now) || Turns(es[i], prev, now)
    {
      assert ListByNextTick(es, prev, now, i) && !es[i].Expired(now);
    }
  }

  /**
   * The first spinner shows the frame that was shown: it is the same one and has
   * not turned, or a new one has appeared before it while it showed frame 8, the
   * frame every spinner appears with.
   */
  predicate LeadKept(es: seq<Notification>, prev: Time, now: Time) {
    var before, lead := Lead(es, prev), Lead(es, now);
    if lead == before then before == |es| || !Turns(es[before], prev, now)
    else before < |es| && Steps(es[before], prev) % FRAMES == 8
  }

  lemma PhaseKeptIff(es: seq<Notification>, prev: Time, now: Time, wake: Option<nat>)
    requires NoneExpired(es, prev) && AllBorn(es, prev) && NextTick(es, prev, now, wake)
    ensures Phase(es, now) == Phase(es, prev) <==> LeadKept(es, prev, now)
  {
    PhaseIsLead(es, prev);
    PhaseIsLead(es, now);
    EveryNoticeByNextTick(es, prev, now, wake);
    var before, lead := Lead(es, prev), Lead(es, now);
    hide IsWakeup, Phase, Lead, Look, Across, Ends;
    if before < |es| {
      assert ListByNextTick(es, prev, now, before);
      assert es[before].Spins(now) && es[before].created <= prev;
      FrameTurnsIff(es[before], prev, now);
      MsSteps(prev - es[before].created);
    }
    assert lead <= before;
    if lead < before {
      assert ListByNextTick(es, prev, now, lead);
      assert !es[lead].Spins(prev);
      FirstFrame(es[lead], now);
    }
  }

  /**
   * The frames that are missed, by the schedule: nothing lapses, the first
   * spinner keeps its frame, and something appears, stops fading or turns which
   * the fading of the stack as a whole does not give away, because some notice
   * fades throughout, or one appears just as another stops, or none does either.
   */
  lemma ChangeIsMissedIff(es: seq<Notification>, prev: Time, now: Time, wake: Option<nat>)
    requires NoneExpired(es, prev) && AllBorn(es, prev) && NextTick(es, prev, now, wake)
    ensures !SameLook(es, prev, now) && !Changes(es, Fading(es, prev), Phase(es, prev), now) <==>
            && !SomeLapses(es, now)
            && LeadKept(es, prev, now)
            && (SomeBegins(es, now) || SomeEnds(es, now) || SomeTurns(es, prev, now))
            && (SomeAcross(es, prev, now) || (SomeBegins(es, now) <==> SomeEnds(es, now)))
  {
    EveryNoticeByNextTick(es, prev, now, wake);
    FadingKeptIff(es, prev, now, wake);
    PhaseKeptIff(es, prev, now, wake);
    KeptAll(es, now);
    KeptHolds(es, now);
    hide Kept, Fading, Phase, LeadKept, SameLook, NextTick, NoneExpired, AllBorn;
    LapsesAreExpiries(es, prev, now);
    if NoneExpired(es, now) {
      LookKeptIff(es, prev, now);
    }
    hide *;
  }

  function Progressing(id: Id, at: Time): Notification {
    Notification(id, Progress, "Working", "", at, at)
  }

  /** Two notices 50 ms apart: the second appears while the first still fades, and no frame is asked for. */
  lemma SecondNoticeIsMissed()
    ensures var es := [Progressing(0, 0), Progressing(1, 50 * MS)];
            var prev, now := 849 * MS, 850 * MS;
            && NextTick(es, prev, now, Some(MS))
            && !es[1].Visible(prev) && es[1].Visible(now)
            && !Changes(es, Fading(es, prev), Phase(es, prev), now)
  {
    var es := [Progressing(0, 0), Progressing(1, 50 * MS)];
    var prev, now := 849 * MS, 850 * MS;
    assert es[0].Dim(prev) && es[0].Dim(now);
    assert !es[0].Expired(now) && !es[1].Expired(now);
    assert NoneExpired(es, now);
    KeptAll(es, now);
    assert Phase(es, prev) == Some(es[0].Frame(prev)) && Phase(es, now) == Some(es[0].Frame(now));
    MsSteps(prev);
    MsSteps(now);
    assert AnyDue(es, prev, MS) by {
      assert Due(es[1], prev, MS);
    }
    hide Kept, Phase;
    assert prev / SPINNER_STEP == 8 && now / SPINNER_STEP == 8;
  }

  /** A single notice is never missed. */
  lemma SingleNoticeIsExact(n: Notification, prev: Time, now: Time)
    requires !n.Expired(prev) && n.created <= prev <= now
    ensures Changes([n], Fading([n], prev), Phase([n], prev), now) <==> Look(n, prev) != Look(n, now)
  {
    var es := [n];
    assert Kept(es[1..], now) == [];
    assert Phase(es[1..], now) == None && Phase(es[1..], prev) == None;
    assert Fading(es, prev) == es[0].Dim(prev) && Fading(es, now) == es[0].Dim(now);
  }
}
