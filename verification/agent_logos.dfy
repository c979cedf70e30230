// Models src/app/agent_logos.rs: a client-side cache of which images and
// placements a graphics terminal holds, kept right while any write may fail
// part-way and a resize may free images.
module AgentLogos {
  import opened Common
  import opened Options

  const ICONS: nat := 18
  const FIRST_IMAGE: nat := 7200

  datatype Position = Position(x: nat, y: nat)

  /** What is drawn for an icon: which agent's art, dimmed or not, for which cell size. */
  datatype Picture = Picture(art: nat, dim: bool, cell: CellSize)

  function Artwork(icon: nat, cell: CellSize): Picture {
    Picture(icon / 2, icon % 2 == 1, cell)
  }

  datatype Target = Target(icon: nat, pos: Position) {
    function Image(): nat {
      FIRST_IMAGE + icon
    }

    function Placement(): nat {
      pos.y + 1
    }
  }

  // ---------------------------------------------------------------------
  // The terminal
  // ---------------------------------------------------------------------

  datatype Command =
    | SaveCursor
    | RestoreCursor
    | Transmit(image: nat, picture: Picture)
    | Place(image: nat, placement: nat, pos: Position)
    | DeletePlacement(image: nat, placement: nat)
    | FreeImage(image: nat)

  type Key = (nat, nat)

  /** Stored images and where they are placed. */
  datatype Terminal = Terminal(images: map<nat, Picture>, placements: map<Key, Position>)

  function WithoutImage(placements: map<Key, Position>, image: nat): map<Key, Position> {
    map k | k in placements && k.0 != image :: placements[k]
  }

  function Apply(t: Terminal, c: Command): Terminal {
    match c
    case SaveCursor => t
    case RestoreCursor => t
    case Transmit(i, picture) => Terminal(t.images[i := picture], WithoutImage(t.placements, i))
    case Place(i, p, pos) => if i in t.images then t.(placements := t.placements[(i, p) := pos]) else t
    case DeletePlacement(i, p) => t.(placements := t.placements - {(i, p)})
    case FreeImage(i) => Terminal(t.images - {i}, WithoutImage(t.placements, i))
  }

  predicate IsOurs(image: nat) {
    FIRST_IMAGE <= image < FIRST_IMAGE + ICONS
  }

  /** Images and placements that are not this module's are as they were. */
  ghost predicate SameOthers(a: Terminal, b: Terminal) {
    && (forall i :: !IsOurs(i) ==> (i in a.images <==> i in b.images) && (i in a.images ==> a.images[i] == b.images[i]))
    && (forall k: Key :: !IsOurs(k.0) ==>
          (k in a.placements <==> k in b.placements)
          && (k in a.placements ==> a.placements[k] == b.placements[k]))
  }

  /** How one attempted write ends: done, lost, or done but reported as failed. */
  datatype Outcome = Done | Lost | Torn

  class Wire {
    var term: Terminal
    var log: seq<Command>
    var outcomes: seq<Outcome>
    ghost var failures: nat

    constructor (term: Terminal, outcomes: seq<Outcome>)
      ensures this.term == term && this.outcomes == outcomes && log == [] && failures == 0
    {
      this.term := term;
      this.outcomes := outcomes;
      log := [];
      failures := 0;
    }

    /** Nothing is going to fail. */
    predicate Reliable()
      reads this
    {
      outcomes == []
    }

    /** The next outcome; writes succeed when none is scripted. */
    method Attempt() returns (o: Outcome)
      modifies this`outcomes, this`failures
      ensures o == if old(outcomes) == [] then Done else old(outcomes)[0]
      ensures outcomes == if old(outcomes) == [] then [] else old(outcomes)[1..]
      ensures failures == old(failures) + if o.Done? then 0 else 1
    {
      o := Done;
      if outcomes != [] {
        o := outcomes[0];
        outcomes := outcomes[1..];
      }
      if !o.Done? {
        failures := failures + 1;
      }
    }

    method Write(c: Command) returns (ok: bool)
      modifies this
      ensures log == old(log) + [c]
      ensures term == Apply(old(term), c) || (!ok && term == old(term))
      ensures failures == old(failures) + if ok then 0 else 1
      ensures old(Reliable()) ==> ok && Reliable()
    {
      var o := Attempt();
      log := log + [c];
      ok := o.Done?;
      if !o.Lost? {
        term := Apply(term, c);
      }
    }

    method Flush() returns (ok: bool)
      modifies this
      ensures log == old(log) && term == old(term)
      ensures failures == old(failures) + if ok then 0 else 1
      ensures old(Reliable()) ==> ok && Reliable()
    {
      var o := Attempt();
      ok := o.Done?;
    }
  }

  // ---------------------------------------------------------------------
  // What the terminal shows of ours
  // ---------------------------------------------------------------------

  function KeyOf(t: Target): Key {
    (t.Image(), t.Placement())
  }

  ghost function SetOf(ts: seq<Target>): set<Target> {
    set t | t in ts
  }

  /** At most one logo per row, each of a known icon. */
  ghost predicate OnePerRow(ts: set<Target>) {
    && (forall t :: t in ts ==> t.icon < ICONS)
    && (forall s, t :: s in ts && t in ts && s.pos.y == t.pos.y ==> s == t)
  }

  ghost predicate Rows(ts: seq<Target>) {
    && (forall i :: 0 <= i < |ts| ==> ts[i].icon < ICONS)
    && (forall i, j :: 0 <= i < j < |ts| ==> ts[i].pos.y != ts[j].pos.y)
  }

  lemma RowsAreOnePerRow(ts: seq<Target>)
    requires Rows(ts)
    ensures OnePerRow(SetOf(ts))
  {
  }

  /** Our placements are exactly these targets, each under its icon's image and its row. */
  ghost predicate Displays(term: Terminal, ts: set<Target>) {
    && (forall t :: t in ts ==>
          KeyOf(t) == (7200 + t.icon, t.pos.y + 1) && KeyOf(t) in term.placements && term.placements[KeyOf(t)] == t.pos)
    && (forall k :: k in term.placements && IsOurs(k.0) ==> exists t :: t in ts && KeyOf(t) == k)
  }

  /** Our images are exactly the uploaded ones, each of its agent's art, the odd ones dim, for this cell size. */
  ghost predicate Stores(term: Terminal, uploaded: seq<bool>, size: Option<CellSize>) {
    && |uploaded| == ICONS
    && (forall i :: 0 <= i < ICONS && uploaded[i] ==>
          size.Some? && FIRST_IMAGE + i in term.images
          && term.images[FIRST_IMAGE + i] == Picture(i / 2, i % 2 == 1, size.value))
    && (forall i :: 0 <= i < ICONS && !uploaded[i] ==> FIRST_IMAGE + i !in term.images)
  }

  ghost predicate Uploaded(ts: set<Target>, uploaded: seq<bool>)
    requires |uploaded| == ICONS
  {
    forall t :: t in ts ==> t.icon < ICONS && uploaded[t.icon]
  }

  lemma DeleteOne(term: Terminal, ts: set<Target>, t: Target)
    requires Displays(term, ts) && OnePerRow(ts) && t in ts
    ensures Displays(Apply(term, DeletePlacement(t.Image(), t.Placement())), ts - {t})
  {
    var after := Apply(term, DeletePlacement(t.Image(), t.Placement()));
    forall k | k in after.placements && IsOurs(k.0)
      ensures exists s :: s in ts - {t} && KeyOf(s) == k
    {
      var s :| s in ts && KeyOf(s) == k;
      assert s in ts - {t};
    }
  }

  lemma PlaceOne(term: Terminal, ts: set<Target>, t: Target)
    requires Displays(term, ts) && OnePerRow(ts + {t}) && t.Image() in term.images
    ensures Displays(Apply(term, Place(t.Image(), t.Placement(), t.pos)), ts + {t})
  {
    var after := Apply(term, Place(t.Image(), t.Placement(), t.pos));
    forall k | k in after.placements && IsOurs(k.0)
      ensures exists s :: s in ts + {t} && KeyOf(s) == k
    {
      if k == KeyOf(t) {
        assert t in ts + {t};
      } else {
        var s :| s in ts && KeyOf(s) == k;
        assert s in ts + {t};
      }
    }
  }

  lemma TransmitOne(term: Terminal, ts: set<Target>, uploaded: seq<bool>, size: CellSize, icon: nat)
    requires Displays(term, ts) && Stores(term, uploaded, Some(size)) && Uploaded(ts, uploaded)
    requires icon < ICONS && !uploaded[icon]
    ensures var after := Apply(term, Transmit(FIRST_IMAGE + icon, Artwork(icon, size)));
            Displays(after, ts) && Stores(after, uploaded[icon := true], Some(size)) && Uploaded(ts, uploaded[icon := true])
  {
  }

  /** Once every image of ours is freed, nothing of ours is stored or shown. */
  ghost predicate Freed(term: Terminal, n: nat) {
    && (forall i :: i in term.images ==> !(FIRST_IMAGE <= i < FIRST_IMAGE + n))
    && (forall k :: k in term.placements ==> !(FIRST_IMAGE <= k.0 < FIRST_IMAGE + n))
  }

  lemma FreedIsEmpty(term: Terminal, size: Option<CellSize>)
    requires Freed(term, ICONS)
    ensures Displays(term, {}) && Stores(term, seq(ICONS, i => false), size)
  {
  }

  // ---------------------------------------------------------------------
  // The cache
  // ---------------------------------------------------------------------

  /** Places are only ever written between a cursor save and an attempted restore. */
  predicate Bracketed(cs: seq<Command>) {
    (exists i :: 0 <= i < |cs| && cs[i].Place?) ==>
      |cs| >= 2 && cs[0].SaveCursor? && cs[|cs| - 1].RestoreCursor?
  }

  /** b is a with some commands appended. */
  predicate Extends(a: seq<Command>, b: seq<Command>) {
    |a| <= |b| && b[..|a|] == a
  }

  /** None of the appended commands is a placement or a cursor save. */
  predicate Quietly(a: seq<Command>, b: seq<Command>) {
    Extends(a, b) && forall i :: |a| <= i < |b| ==> !b[i].Place? && !b[i].SaveCursor?
  }

  lemma QuietlyOneMore(a: seq<Command>, b: seq<Command>, c: Command)
    requires Quietly(a, b) && !c.Place? && !c.SaveCursor?
    ensures Quietly(a, b + [c]) && |a| < |b + [c]|
  {
  }

  lemma ExtendsOneMore(a: seq<Command>, b: seq<Command>, c: Command)
    requires Extends(a, b)
    ensures Extends(a, b + [c]) && |a| < |b + [c]|
  {
  }

  lemma ExtendsTrans(a: seq<Command>, b: seq<Command>, c: seq<Command>)
    requires Extends(a, b) && Extends(b, c)
    ensures Extends(a, c)
    ensures Quietly(a, b) && Quietly(b, c) ==> Quietly(a, c)
    ensures c == a <==> b == a && c == b
  {
  }

  lemma ExtendsNothing(a: seq<Command>)
    ensures Extends(a, a) && Quietly(a, a)
  {
  }

  lemma QuietlyExtends(a: seq<Command>, b: seq<Command>)
    requires Quietly(a, b)
    ensures Extends(a, b) && |a| <= |b| && (a == b <==> |a| == |b|)
  {
  }

  /** What is still shown when the first k stale placements have been deleted. */
  ghost function Left(placed: seq<Target>, desired: seq<Target>, k: nat): set<Target>
    requires k <= |placed|
  {
    set t | t in placed && (t in desired || t in placed[k..])
  }

  lemma LeftNext(placed: seq<Target>, desired: seq<Target>, k: nat)
    requires Rows(placed) && k < |placed|
    ensures placed[k] in Left(placed, desired, k)
    ensures Left(placed, desired, k + 1) ==
            if placed[k] in desired then Left(placed, desired, k) else Left(placed, desired, k) - {placed[k]}
    ensures OnePerRow(Left(placed, desired, k))
  {
    assert placed[k..] == [placed[k]] + placed[k + 1..];
    forall j | k < j < |placed|
      ensures placed[j] != placed[k]
    {
    }
    RowsAreOnePerRow(placed);
  }

  lemma LeftEnds(placed: seq<Target>, desired: seq<Target>)
    ensures Left(placed, desired, 0) == SetOf(placed)
    ensures Left(placed, desired, |placed|) == SetOf(placed) * SetOf(desired)
  {
  }

  lemma DeleteKeeps(term: Terminal, t: Target, uploaded: seq<bool>, size: Option<CellSize>)
    requires t.icon < ICONS
    ensures var after := Apply(term, DeletePlacement(t.Image(), t.Placement()));
            SameOthers(term, after) && (Stores(term, uploaded, size) ==> Stores(after, uploaded, size))
  {
  }

  /** What is shown when the first k wanted placements are in place. */
  ghost function Shown(placed: seq<Target>, desired: seq<Target>, k: nat): set<Target>
    requires k <= |desired|
  {
    SetOf(placed) * SetOf(desired) + SetOf(desired[..k])
  }

  lemma ShownEnds(placed: seq<Target>, desired: seq<Target>)
    ensures Shown(placed, desired, 0) == SetOf(placed) * SetOf(desired)
    ensures Shown(placed, desired, |desired|) == SetOf(desired)
  {
    assert desired[..|desired|] == desired;
  }

  lemma ShownNext(placed: seq<Target>, desired: seq<Target>, k: nat, uploaded: seq<bool>)
    requires k < |desired| && Rows(desired) && |uploaded| == ICONS
    requires Uploaded(SetOf(placed), uploaded) && Uploaded(SetOf(desired[..k]), uploaded)
    ensures desired[k].icon < ICONS && Uploaded(Shown(placed, desired, k), uploaded)
    ensures Shown(placed, desired, k + 1) ==
            if desired[k] in placed then Shown(placed, desired, k) else Shown(placed, desired, k) + {desired[k]}
    ensures OnePerRow(Shown(placed, desired, k) + {desired[k]})
    ensures SetOf(desired[..k + 1]) == SetOf(desired[..k]) + {desired[k]}
  {
    RowsAreOnePerRow(desired);
    assert desired[..k + 1] == desired[..k] + [desired[k]];
    assert Shown(placed, desired, k) + {desired[k]} <= SetOf(desired);
  }

  lemma StoredImage(term: Terminal, uploaded: seq<bool>, size: Option<CellSize>, t: Target)
    requires Stores(term, uploaded, size) && t.icon < ICONS && uploaded[t.icon]
    ensures t.Image() in term.images
  {
  }

  lemma TransmitKeeps(term: Terminal, t: Target, cell: CellSize)
    requires t.icon < ICONS
    ensures SameOthers(term, Apply(term, Transmit(t.Image(), Artwork(t.icon, cell))))
  {
  }

  lemma PlaceKeeps(term: Terminal, t: Target, uploaded: seq<bool>, size: Option<CellSize>)
    requires t.icon < ICONS
    ensures var after := Apply(term, Place(t.Image(), t.Placement(), t.pos));
            SameOthers(term, after) && (Stores(term, uploaded, size) ==> Stores(after, uploaded, size))
  {
  }

  /** Before the first cell size is known nothing of ours has reached the terminal. */
  lemma NothingBeforeFirstSize(term: Terminal, uploaded: seq<bool>)
    requires Stores(term, uploaded, None) && Displays(term, {})
    ensures Freed(term, ICONS)
  {
    forall i: nat | IsOurs(i)
      ensures i !in term.images
    {
      assert !uploaded[i - FIRST_IMAGE];
      assert FIRST_IMAGE + (i - FIRST_IMAGE) == i;
    }
  }

  predicate IsPositive(size: Option<CellSize>) {
    size.Some? && size.value.Positive()
  }

  /** The logos a frame leaves on screen: none without a positive cell size. */
  function Shows(size: Option<CellSize>, desired: seq<Target>): seq<Target> {
    if IsPositive(size) then desired else []
  }

  class AgentLogos {
    var desired: seq<Target>
    var placed: seq<Target>
    var uploaded: seq<bool>
    var size: Option<CellSize>
    var reset: bool

    /** The cache agrees with the terminal, or knows that it may not. */
    ghost predicate InSync(term: Terminal)
      reads this
    {
      && |uploaded| == ICONS && Rows(desired) && Rows(placed)
      && (reset ==> size.Some?)
      && (!reset ==> Displays(term, SetOf(placed)) && Stores(term, uploaded, size) && Uploaded(SetOf(placed), uploaded))
      && (!reset && !(size.Some? && size.value.Positive()) ==> placed == [])
    }

    constructor (term: Terminal)
      requires Freed(term, ICONS)
      ensures InSync(term) && desired == [] && placed == [] && size == None && !reset
    {
      desired := [];
      placed := [];
      uploaded := seq(ICONS, i => false);
      size := None;
      reset := false;
      new;
      FreedIsEmpty(term, None);
      assert SetOf([]) == {};
    }

    /** A resize may make the terminal drop images, so what it holds is in doubt. */
    method Invalidate()
      modifies this`reset
      ensures reset == (old(reset) || size.Some?)
    {
      reset := reset || size.Some?;
    }

    method Clear(out: Wire) returns (ok: bool)
      requires |uploaded| == ICONS && (reset ==> size.Some?)
      requires size.None? ==> Freed(out.term, ICONS)
      modifies this`uploaded, this`placed, this`reset, out
      ensures ok <==> out.failures == old(out.failures)
      ensures out.failures >= old(out.failures) && (old(out.Reliable()) ==> ok && out.Reliable())
      ensures SameOthers(old(out.term), out.term)
      ensures Quietly(old(out.log), out.log)
      ensures size.Some? ==> |out.log| > |old(out.log)|
      ensures size.None? ==> ok && out.log == old(out.log) && out.term == old(out.term)
      ensures ok ==> Freed(out.term, ICONS) && placed == [] && uploaded == seq(ICONS, i => false) && !reset
      ensures !ok ==> uploaded == old(uploaded) && placed == old(placed) && reset == old(reset)
    {
      if size.Some? || reset {
        for i := 0 to ICONS
          invariant SameOthers(old(out.term), out.term) && Freed(out.term, i)
          invariant out.failures == old(out.failures) && (old(out.Reliable()) ==> out.Reliable())
          invariant |out.log| == |old(out.log)| + i && Quietly(old(out.log), out.log)
          modifies out
        {
          QuietlyOneMore(old(out.log), out.log, FreeImage(FIRST_IMAGE + i));
          ok := out.Write(FreeImage(FIRST_IMAGE + i));
          if !ok {
            return;
          }
        }
        ok := out.Flush();
        if !ok {
          return;
        }
      }
      uploaded := seq(ICONS, i => false);
      placed := [];
      reset := false;
      ok := true;
    }

    /** Removes every placement the next frame does not want. */
    method DeleteStale(out: Wire) returns (ok: bool)
      requires InSync(out.term) && !reset
      modifies out
      ensures ok <==> out.failures == old(out.failures)
      ensures out.failures >= old(out.failures) && (old(out.Reliable()) ==> ok && out.Reliable())
      ensures SameOthers(old(out.term), out.term)
      ensures Quietly(old(out.log), out.log)
      ensures !ok ==> out.log != old(out.log)
      ensures ok ==> Stores(out.term, uploaded, size) && Displays(out.term, SetOf(placed) * SetOf(desired))
      ensures out.log == old(out.log) <==> forall t :: t in placed ==> t in desired
    {
      hide Displays, Stores, Left, OnePerRow, Quietly;
      LeftEnds(placed, desired);
      ExtendsNothing(out.log);
      ok := true;
      for k := 0 to |placed|
        invariant out.failures == old(out.failures) && (old(out.Reliable()) ==> out.Reliable())
        invariant SameOthers(old(out.term), out.term) && Quietly(old(out.log), out.log)
        invariant |old(out.log)| <= |out.log|
        invariant |old(out.log)| == |out.log| <==> forall j :: 0 <= j < k ==> placed[j] in desired
        invariant out.log == old(out.log) || |out.log| > |old(out.log)|
        invariant Displays(out.term, Left(placed, desired, k)) && Stores(out.term, uploaded, size)
        modifies out
      {
        var t := placed[k];
        LeftNext(placed, desired, k);
        if t !in desired {
          var c := DeletePlacement(t.Image(), t.Placement());
          DeleteOne(out.term, Left(placed, desired, k), t);
          DeleteKeeps(out.term, t, uploaded, size);
          QuietlyOneMore(old(out.log), out.log, c);
          ok := out.Write(c);
          if !ok {
            return;
          }
        }
      }
    }

    /** Uploads one target's image if it is not stored yet. */
    method StoreImage(out: Wire, cell: CellSize, t: Target, ghost shown: set<Target>) returns (ok: bool)
      requires |uploaded| == ICONS && size == Some(cell) && t.icon < ICONS
      requires Displays(out.term, shown) && Stores(out.term, uploaded, size) && Uploaded(shown, uploaded)
      modifies this`uploaded, out
      ensures ok <==> out.failures == old(out.failures)
      ensures out.failures >= old(out.failures) && (old(out.Reliable()) ==> ok && out.Reliable())
      ensures |uploaded| == ICONS && SameOthers(old(out.term), out.term)
      ensures Extends(old(out.log), out.log)
      ensures if old(uploaded)[t.icon] then ok && out.log == old(out.log)
              else out.log == old(out.log) + [Transmit(7200 + t.icon, Picture(t.icon / 2, t.icon % 2 == 1, cell))]
      ensures ok ==> Displays(out.term, shown) && Stores(out.term, uploaded, size)
      ensures ok ==> uploaded == old(uploaded)[t.icon := true]
    {
      hide Displays, Stores, Extends;
      ExtendsNothing(out.log);
      ok := true;
      if !uploaded[t.icon] {
        TransmitOne(out.term, shown, uploaded, cell, t.icon);
        TransmitKeeps(out.term, t, cell);
        var c := Transmit(t.Image(), Artwork(t.icon, cell));
        ExtendsOneMore(out.log, out.log, c);
        ok := out.Write(c);
        if ok {
          uploaded := uploaded[t.icon := true];
        }
      }
    }

    /** Uploads one target's image if it is not stored yet, and places it if it is not shown yet. */
    method PlaceTarget(out: Wire, cell: CellSize, t: Target, ghost shown: set<Target>) returns (ok: bool)
      requires |uploaded| == ICONS && size == Some(cell) && t.icon < ICONS && OnePerRow(shown + {t})
      requires Displays(out.term, shown) && Stores(out.term, uploaded, size) && Uploaded(shown, uploaded)
      modifies this`uploaded, out
      ensures ok <==> out.failures == old(out.failures)
      ensures out.failures >= old(out.failures) && (old(out.Reliable()) ==> ok && out.Reliable())
      ensures |uploaded| == ICONS && SameOthers(old(out.term), out.term)
      ensures Extends(old(out.log), out.log)
      ensures out.log == old(out.log) <==> old(uploaded)[t.icon] && t in placed
      ensures !ok ==> out.log != old(out.log)
      ensures ok ==> Stores(out.term, uploaded, size) && uploaded == old(uploaded)[t.icon := true]
      ensures ok ==> Displays(out.term, if t in placed then shown else shown + {t})
      ensures ok ==>
                out.log == old(out.log)
                + (if old(uploaded)[t.icon] then []
                   else [Transmit(7200 + t.icon, Picture(t.icon / 2, t.icon % 2 == 1, cell))])
                + (if t in placed then [] else [Place(7200 + t.icon, t.pos.y + 1, t.pos)])
    {
      hide Displays, Stores, OnePerRow, Extends, Uploaded;
      ok := StoreImage(out, cell, t, shown);
      if ok && t !in placed {
        StoredImage(out.term, uploaded, size, t);
        PlaceOne(out.term, shown, t);
        PlaceKeeps(out.term, t, uploaded, size);
        ExtendsOneMore(old(out.log), out.log, Place(t.Image(), t.Placement(), t.pos));
        ok := out.Write(Place(t.Image(), t.Placement(), t.pos));
      }
    }

    /** Uploads and places what the next frame wants and does not have. */
    method PlaceMissing(out: Wire, cell: CellSize) returns (ok: bool)
      requires |uploaded| == ICONS && size == Some(cell) && Rows(desired) && Rows(placed)
      requires Displays(out.term, SetOf(placed) * SetOf(desired)) && Stores(out.term, uploaded, size)
      requires Uploaded(SetOf(placed), uploaded)
      modifies this`uploaded, out
      ensures ok <==> out.failures == old(out.failures)
      ensures out.failures >= old(out.failures) && (old(out.Reliable()) ==> ok && out.Reliable())
      ensures |uploaded| == ICONS && SameOthers(old(out.term), out.term)
      ensures Extends(old(out.log), out.log)
      ensures out.log == old(out.log) <==> forall t :: t in desired ==> t in placed
      ensures !ok ==> out.log != old(out.log)
      ensures ok ==> Displays(out.term, SetOf(desired)) && Stores(out.term, uploaded, size)
                     && Uploaded(SetOf(desired), uploaded)
    {
      hide Displays, Stores, Shown, OnePerRow, Extends;
      ShownEnds(placed, desired);
      ExtendsNothing(out.log);
      ok := true;
      for k := 0 to |desired|
        invariant out.failures == old(out.failures) && (old(out.Reliable()) ==> out.Reliable())
        invariant |uploaded| == ICONS && SameOthers(old(out.term), out.term)
        invariant Extends(old(out.log), out.log)
        invariant out.log == old(out.log) <==> forall j :: 0 <= j < k ==> desired[j] in placed
        invariant Displays(out.term, Shown(placed, desired, k)) && Stores(out.term, uploaded, size)
        invariant Uploaded(SetOf(placed), uploaded) && Uploaded(SetOf(desired[..k]), uploaded)
        modifies this`uploaded, out
      {
        ShownNext(placed, desired, k, uploaded);
        assert desired[k] in placed ==> desired[k] in SetOf(placed) && uploaded[desired[k].icon];
        ghost var log := out.log;
        ok := PlaceTarget(out, cell, desired[k], Shown(placed, desired, k));
        ExtendsTrans(old(out.log), log, out.log);
        if !ok {
          assert desired[k] !in placed;
          return;
        }
      }
      assert desired[..|desired|] == desired;
    }

    predicate MovesCursor(newSize: Option<CellSize>)
      reads this
    {
      newSize.Some? && desired != [] && (reset || size != newSize || desired != placed)
    }

    function Remembers(): Memory
      reads this
    {
      Memory(reset, size, placed)
    }

    predicate Unchanged(newSize: Option<CellSize>)
      reads this
    {
      Nothing(Remembers(), newSize, desired)
    }

    /** Starts over on new or doubtful terminal contents. */
    method StartOver(out: Wire, newSize: Option<CellSize>) returns (ok: bool)
      requires InSync(out.term)
      modifies this`placed, this`uploaded, this`size, this`reset, out
      ensures ok <==> out.failures == old(out.failures)
      ensures out.failures >= old(out.failures) && (old(out.Reliable()) ==> ok && out.Reliable())
      ensures SameOthers(old(out.term), out.term) && Quietly(old(out.log), out.log)
      ensures out.log == old(out.log) <==> old(!reset && (size == newSize || size.None?))
      ensures ok ==> InSync(out.term) && size == newSize && !reset
      ensures ok ==> placed == if old(reset || size != newSize) then [] else old(placed)
      ensures !ok ==> size.Some? && |uploaded| == ICONS && Rows(placed) && out.log != old(out.log)
    {
      hide Displays, Stores, Freed, Quietly;
      ExtendsNothing(out.log);
      ok := true;
      if reset || size != newSize {
        assert SetOf([]) == {};
        if size.None? {
          NothingBeforeFirstSize(out.term, uploaded);
        }
        ok := Clear(out);
        if ok {
          FreedIsEmpty(out.term, newSize);
          size := newSize;
        }
      }
    }

    /** Brings the placements up to date on a terminal whose contents are known. */
    method PlaceFrame(out: Wire, cell: CellSize) returns (ok: bool)
      requires InSync(out.term) && !reset && size == Some(cell) && cell.Positive()
      modifies this`placed, this`uploaded, out
      ensures ok <==> out.failures == old(out.failures)
      ensures out.failures >= old(out.failures) && (old(out.Reliable()) ==> ok && out.Reliable())
      ensures SameOthers(old(out.term), out.term) && Extends(old(out.log), out.log)
      ensures desired == [] || desired == old(placed) ==> Quietly(old(out.log), out.log)
      ensures desired == [] || desired == old(placed) ==> (out.log == old(out.log) <==> desired == old(placed))
      ensures ok ==> InSync(out.term) && placed == desired
      ensures !ok ==> |uploaded| == ICONS && Rows(placed)
    {
      hide Displays, Stores, Extends, Quietly;
      assert desired == [] && placed != [] ==> placed[0] in placed && placed[0] !in desired;
      ok := DeleteStale(out);
      ghost var log := out.log;
      QuietlyExtends(old(out.log), log);
      if !ok {
        assert desired != placed;
        return;
      }
      ok := PlaceMissing(out, cell);
      ExtendsTrans(old(out.log), log, out.log);
      if !ok {
        assert desired != placed;
        return;
      }
      ok := out.Flush();
      if ok {
        placed := desired;
      }
    }

    method RenderInner(out: Wire, newSize: Option<CellSize>) returns (ok: bool)
      requires InSync(out.term)
      modifies this`placed, this`uploaded, this`size, this`reset, out
      ensures ok <==> out.failures == old(out.failures)
      ensures out.failures >= old(out.failures) && (old(out.Reliable()) ==> ok && out.Reliable())
      ensures SameOthers(old(out.term), out.term)
      ensures Extends(old(out.log), out.log)
      ensures !old(MovesCursor(newSize)) ==> Quietly(old(out.log), out.log)
      ensures !old(MovesCursor(newSize)) ==> (out.log == old(out.log) <==> old(Unchanged(newSize)))
      ensures ok ==> InSync(out.term) && size == newSize && !reset
      ensures ok ==> placed == Shows(newSize, desired)
      ensures !IsPositive(newSize) ==> (out.log == old(out.log) <==> old(!reset && (size == newSize || size.None?)))
      ensures !ok ==> size.Some? && |uploaded| == ICONS && Rows(placed)
    {
      hide Displays, Stores, Extends, Quietly;
      ok := StartOver(out, newSize);
      ghost var log := out.log;
      QuietlyExtends(old(out.log), log);
      if !ok || !IsPositive(newSize) {
        return;
      }
      ok := PlaceFrame(out, newSize.value);
      ExtendsTrans(old(out.log), log, out.log);
    }

    /** A frame's graphics; after an error the next frame starts over. */
    method Render(out: Wire, newSize: Option<CellSize>) returns (ok: bool)
      requires InSync(out.term)
      modifies this`placed, this`uploaded, this`size, this`reset, out
      ensures ok <==> out.failures == old(out.failures)
      ensures out.failures >= old(out.failures) && (old(out.Reliable()) ==> ok && out.Reliable())
      ensures InSync(out.term) && SameOthers(old(out.term), out.term)
      ensures ok ==> Displays(out.term, SetOf(Shows(newSize, desired))) && placed == Shows(newSize, desired)
      ensures ok ==> Stores(out.term, uploaded, newSize) && !reset && size == newSize
      ensures ok ==> Uploaded(SetOf(placed), uploaded)
      ensures Extends(old(out.log), out.log) && Bracketed(out.log[|old(out.log)|..])
      ensures out.log == old(out.log) <==> old(Unchanged(newSize))
      ensures newSize.Some? && desired != [] && old(reset || size != newSize || desired != placed) <==>
                |out.log| > |old(out.log)| && out.log[|old(out.log)|] == SaveCursor
      ensures ok && old(!reset && size == newSize && desired != []) && newSize.Some? && !IsPositive(newSize) ==>
                out.log == old(out.log) + [SaveCursor, RestoreCursor]
    {
      hide Displays, Stores;
      ghost var log0 := out.log;
      var moves := MovesCursor(newSize);
      if moves {
        ok := out.Write(SaveCursor);
        if !ok {
          return;
        }
      }
      ghost var log1 := out.log;
      ok := RenderInner(out, newSize);
      ghost var log2 := out.log;
      var restored := true;
      if moves {
        restored := out.Write(RestoreCursor);
        if restored {
          restored := out.Flush();
        }
      }
      assert SetOf([]) == {};
      ok := ok && restored;
      if !ok {
        Invalidate();
      }
    }
  }

  // ---------------------------------------------------------------------
  // Any run of frames and resizes
  // ---------------------------------------------------------------------

  datatype Event =
    | Collect(desired: seq<Target>)
    | Resize(images: set<nat>, placements: set<Key>)
    | Frame(size: Option<CellSize>, outcomes: seq<Outcome>)

  /** The logos wanted after n events: those collected last. */
  function Wanted(events: seq<Event>, n: nat, start: seq<Target>): seq<Target>
    requires n <= |events|
  {
    if n == 0 then start
    else if events[n - 1].Collect? then events[n - 1].desired
    else Wanted(events, n - 1, start)
  }

  /** A resize keeps only some of the images and placements. */
  function Shrunk(t: Terminal, images: set<nat>, placements: set<Key>): Terminal {
    Terminal(map i | i in t.images && i in images :: t.images[i],
             map k | k in t.placements && k in placements :: t.placements[k])
  }

  /** What one event of a run did: the commands it sent, what the terminal held after it, and the logos then wanted. */
  datatype Shot = Shot(ok: bool, sent: seq<Command>, term: Terminal, desired: seq<Target>)

  /** Frame k comes after frame j with only changes of the wanted logos between them. */
  ghost predicate NextFrame(events: seq<Event>, j: nat, k: nat) {
    && j < k < |events| && events[j].Frame? && events[k].Frame?
    && forall i :: j < i < k ==> events[i].Collect?
  }

  /**
   * A frame after a successful one is silent exactly when the cell size is the
   * same, or was unknown, and, if it is known now, the logos wanted are those on
   * screen.
   */
  predicate Silent(before: Option<CellSize>, had: seq<Target>, after: Option<CellSize>, wants: seq<Target>) {
    (after == before || before.None?) && (after.None? || wants == Shows(before, had))
  }

  /** So an unchanged frame sends nothing, unless the cell size is zero and logos are wanted. */
  lemma UnchangedIsSilentIff(size: Option<CellSize>, desired: seq<Target>)
    ensures Silent(size, desired, size, desired) <==> size.None? || IsPositive(size) || desired == []
  {
  }

  /** The frames of a run: each successful one shows its logos, and the next one is silent as told above. */
  ghost predicate FramesSound(events: seq<Event>, shots: seq<Shot>)
    requires |shots| <= |events|
  {
    && (forall k :: 0 <= k < |shots| && events[k].Frame? && shots[k].ok ==>
          Displays(shots[k].term, SetOf(Shows(events[k].size, shots[k].desired))))
    && (forall j, k :: 0 <= j < k < |shots| && NextFrame(events, j, k) && shots[j].ok ==>
          (shots[k].sent == [] <==> Silent(events[j].size, shots[j].desired, events[k].size, shots[k].desired)))
  }

  /** What the cache remembers between events. */
  datatype Memory = Memory(reset: bool, size: Option<CellSize>, placed: seq<Target>)

  /** Frame j went well and only changes of the wanted logos have followed: the cache still tells what it showed. */
  ghost predicate Settled(m: Memory, events: seq<Event>, shots: seq<Shot>, j: nat)
    requires j < |shots| <= |events|
  {
    events[j].Frame? && shots[j].ok && (forall i :: j < i < |shots| ==> events[i].Collect?) ==>
      m == Memory(false, events[j].size, Shows(events[j].size, shots[j].desired))
  }

  ghost predicate AllSettled(m: Memory, events: seq<Event>, shots: seq<Shot>)
    requires |shots| <= |events|
  {
    forall j :: 0 <= j < |shots| ==> Settled(m, events, shots, j)
  }

  /** The frame needs no bytes at all. */
  predicate Nothing(m: Memory, size: Option<CellSize>, desired: seq<Target>) {
    !m.reset && (m.size == size || m.size.None?) && (size.None? || desired == m.placed)
  }

  lemma NextShot(was: Memory, now: Memory, events: seq<Event>, shots: seq<Shot>, shot: Shot)
    requires |shots| < |events| && FramesSound(events, shots) && AllSettled(was, events, shots)
    requires var e := events[|shots|];
             && (e.Collect? ==> now == was)
             && (e.Frame? ==> (shot.sent == [] <==> Nothing(was, e.size, shot.desired)))
             && (e.Frame? && shot.ok ==> Displays(shot.term, SetOf(Shows(e.size, shot.desired)))
                                         && now == Memory(false, e.size, Shows(e.size, shot.desired)))
    ensures FramesSound(events, shots + [shot]) && AllSettled(now, events, shots + [shot])
  {
    hide Displays, Shows, SetOf;
    var k, more := |shots|, shots + [shot];
    forall j | 0 <= j < k && NextFrame(events, j, k) && shots[j].ok
      ensures shot.sent == [] <==> Silent(events[j].size, shots[j].desired, events[k].size, shot.desired)
    {
      assert Settled(was, events, shots, j);
    }
    hide Silent, NextFrame, Nothing;
    forall j | 0 <= j < |more|
      ensures Settled(now, events, more, j)
    {
      if j < k && events[k].Collect? {
        assert Settled(was, events, shots, j);
      }
    }
  }

  method PlayOne(logos: AgentLogos, out: Wire, event: Event) returns (shot: Shot)
    requires logos.InSync(out.term) && (event.Collect? ==> Rows(event.desired))
    modifies logos, out
    ensures logos.InSync(out.term) && shot.desired == logos.desired && shot.term == out.term
    ensures logos.desired == if event.Collect? then event.desired else old(logos.desired)
    ensures shot.ok <==> out.failures == old(out.failures)
    ensures event.Frame? && event.outcomes == [] ==> shot.ok
    ensures event.Resize? ==> out.term == Shrunk(old(out.term), event.images, event.placements)
    ensures event.Resize? ==> logos.reset == (old(logos.reset) || old(logos.size).Some?)
    ensures event.Collect? ==> logos.Remembers() == old(logos.Remembers())
    ensures event.Frame? ==> (shot.sent == [] <==> Nothing(old(logos.Remembers()), event.size, shot.desired))
    ensures event.Frame? && shot.ok ==>
              && Displays(shot.term, SetOf(Shows(event.size, shot.desired)))
              && logos.Remembers() == Memory(false, event.size, Shows(event.size, shot.desired))
  {
    var ok, sent := true, [];
    match event {
      case Collect(desired) =>
        logos.desired := desired;
      case Resize(images, placements) =>
        out.term := Shrunk(out.term, images, placements);
        logos.Invalidate();
      case Frame(size, outcomes) =>
        var before := out.log;
        out.outcomes := outcomes;
        ok := logos.Render(out, size);
        sent := out.log[|before|..];
        SentNothing(before, out.log);
    }
    shot := Shot(ok, sent, out.term, logos.desired);
  }

  lemma SentNothing(before: seq<Command>, after: seq<Command>)
    requires Extends(before, after)
    ensures after[|before|..] == [] <==> after == before
  {
  }

  /** Whatever fails and whatever a resize drops, the cache stays sound, and so does every frame. */
  method Play(logos: AgentLogos, out: Wire, events: seq<Event>) returns (shots: seq<Shot>)
    requires logos.InSync(out.term)
    requires forall e :: e in events && e.Collect? ==> Rows(e.desired)
    modifies logos, out
    ensures logos.InSync(out.term)
    ensures |shots| == |events| && FramesSound(events, shots)
    ensures forall k :: 0 <= k < |shots| ==> shots[k].desired == Wanted(events, k + 1, old(logos.desired))
    ensures forall k :: 0 <= k < |shots| && events[k].Frame? && events[k].outcomes == [] ==> shots[k].ok
  {
    hide FramesSound, AllSettled, Displays;
    shots := [];
    NoShots(logos.Remembers(), events);
    for k := 0 to |events|
      invariant logos.InSync(out.term) && |shots| == k
      invariant FramesSound(events, shots) && AllSettled(logos.Remembers(), events, shots)
      invariant logos.desired == Wanted(events, k, old(logos.desired))
      invariant forall i :: 0 <= i < k ==> shots[i].desired == Wanted(events, i + 1, old(logos.desired))
      invariant forall i :: 0 <= i < k && events[i].Frame? && events[i].outcomes == [] ==> shots[i].ok
    {
      ghost var was := logos.Remembers();
      var shot := PlayOne(logos, out, events[k]);
      NextShot(was, logos.Remembers(), events, shots, shot);
      shots := shots + [shot];
    }
  }

  lemma NoShots(m: Memory, events: seq<Event>)
    ensures FramesSound(events, []) && AllSettled(m, events, [])
  {
  }

  /** With a cell of no height, a frame that changes nothing still saves and restores the cursor. */
  method ZeroCellIsNotSilent(term: Terminal, logo: Target) returns (first: bool, sent: seq<Command>)
    requires Freed(term, ICONS) && logo.icon < ICONS
    ensures first && sent == [SaveCursor, RestoreCursor]
  {
    var out := new Wire(term, []);
    var logos := new AgentLogos(term);
    logos.desired := [logo];
    first := logos.Render(out, Some(CellSize(8, 0)));
    out.outcomes := [];
    var before := out.log;
    var second := logos.Render(out, Some(CellSize(8, 0)));
    sent := out.log[|before|..];
  }
}
