// Models src/app/keymap.rs (the overlay and the prefix table) and the key
// dispatcher of src/app/keys.rs. Commands are named by their configuration ids.
module Keymap {
  import opened Options

  /** One normalised key press. */
  datatype Chord = Chord(key: string, ctrl: bool, alt: bool, shift: bool) {
    predicate Plain() {
      !ctrl && !alt && !shift
    }
  }

  const G: Chord := Chord("g", false, false, false)
  const CTRL_C: Chord := Chord("c", true, false, false)
  const QUIT: Command := "quit"
  const CLOSE_SESSION: Command := "close_session"
  const KILL: string := "kill"

  type Command = string

  predicate IsKeySeq(chords: seq<Chord>) {
    1 <= |chords| <= 3
  }

  /** One, two or three chords. */
  type KeySeq = s: seq<Chord> | IsKeySeq(s) witness [G]

  /** A command with its sequences. */
  datatype Entry = Entry(cmd: Command, seqs: seq<KeySeq>)

  datatype Pair = Pair(keys: KeySeq, cmd: Command)

  predicate ProperPrefix(p: seq<Chord>, s: seq<Chord>) {
    |p| < |s| && s[..|p|] == p
  }

  datatype Keymap = Keymap(bySeq: map<KeySeq, Command>, prefixes: set<KeySeq>, ordered: seq<Pair>) {
    function Lookup(chords: seq<Chord>): Option<Command> {
      if IsKeySeq(chords) && chords in bySeq then Some(bySeq[chords]) else None
    }

    predicate IsPrefix(chords: seq<Chord>) {
      IsKeySeq(chords) && chords in prefixes
    }

    /** The prefixes are exactly the proper prefixes of bound sequences. */
    ghost predicate PrefixesExact() {
      forall p: KeySeq :: p in prefixes <==> Continued(p)
    }

    ghost predicate Continued(p: seq<Chord>) {
      exists s :: s in bySeq && ProperPrefix(p, s)
    }
  }

  // ---------------------------------------------------------------------
  // Building the table
  // ---------------------------------------------------------------------

  function PairsOf(cmd: Command, seqs: seq<KeySeq>): seq<Pair> {
    if seqs == [] then [] else PairsOf(cmd, seqs[..|seqs| - 1]) + [Pair(seqs[|seqs| - 1], cmd)]
  }

  /** Every binding, in table order. */
  function Pairs(entries: seq<Entry>): seq<Pair> {
    if entries == [] then []
    else Pairs(entries[..|entries| - 1]) + PairsOf(entries[|entries| - 1].cmd, entries[|entries| - 1].seqs)
  }

  /** The last command to claim a sequence. */
  function Owner(ps: seq<Pair>, s: KeySeq): Option<Command> {
    if ps == [] then None
    else if ps[|ps| - 1].keys == s then Some(ps[|ps| - 1].cmd)
    else Owner(ps[..|ps| - 1], s)
  }

  ghost predicate Owns(bySeq: map<KeySeq, Command>, ps: seq<Pair>) {
    forall s: KeySeq :: Owner(ps, s) == if s in bySeq then Some(bySeq[s]) else None
  }

  ghost predicate Heads(prefixes: set<KeySeq>, ps: seq<Pair>) {
    forall p: KeySeq :: p in prefixes <==> exists i :: 0 <= i < |ps| && ProperPrefix(p, ps[i].keys)
  }

  /** The bindings that won, in table order. */
  function Winners(ps: seq<Pair>, bySeq: map<KeySeq, Command>): seq<Pair> {
    if ps == [] then []
    else
      var p := ps[|ps| - 1];
      Winners(ps[..|ps| - 1], bySeq) + if p.keys in bySeq && bySeq[p.keys] == p.cmd then [p] else []
  }

  lemma OwnsOneMore(bySeq: map<KeySeq, Command>, ps: seq<Pair>, p: Pair)
    requires Owns(bySeq, ps)
    ensures Owns(bySeq[p.keys := p.cmd], ps + [p])
  {
    assert (ps + [p])[..|ps|] == ps;
  }

  lemma HeadsOneMore(prefixes: set<KeySeq>, ps: seq<Pair>, p: Pair)
    requires Heads(prefixes, ps)
    ensures var one := if |p.keys| >= 2 then {p.keys[..1]} else {};
            var two := if |p.keys| == 3 then {p.keys[..2]} else {};
            Heads(prefixes + one + two, ps + [p])
  {
    var one: set<KeySeq> := if |p.keys| >= 2 then {p.keys[..1]} else {};
    var two: set<KeySeq> := if |p.keys| == 3 then {p.keys[..2]} else {};
    var all := ps + [p];
    forall q: KeySeq
      ensures q in prefixes + one + two <==> exists i :: 0 <= i < |all| && ProperPrefix(q, all[i].keys)
    {
      assert ProperPrefix(q, p.keys) <==> q in one + two;
      if i :| 0 <= i < |ps| && ProperPrefix(q, ps[i].keys) {
        assert ProperPrefix(q, all[i].keys);
      }
      if ProperPrefix(q, p.keys) {
        assert all[|ps|] == p;
      }
    }
  }

  lemma OneMorePair(cmd: Command, seqs: seq<KeySeq>, j: nat)
    requires j < |seqs|
    ensures PairsOf(cmd, seqs[..j + 1]) == PairsOf(cmd, seqs[..j]) + [Pair(seqs[j], cmd)]
  {
    assert seqs[..j + 1][..j] == seqs[..j];
  }

  lemma OneMoreEntry(entries: seq<Entry>, i: nat)
    requires i < |entries|
    ensures Pairs(entries[..i + 1]) == Pairs(entries[..i]) + PairsOf(entries[i].cmd, entries[i].seqs)
  {
    assert entries[..i + 1][..i] == entries[..i];
  }

  lemma {:induction false} OwnedIsListed(ps: seq<Pair>, s: KeySeq)
    ensures Owner(ps, s).Some? ==> Pair(s, Owner(ps, s).value) in ps
    ensures Owner(ps, s).None? ==> forall p :: p in ps ==> p.keys != s
  {
    if ps != [] {
      OwnedIsListed(ps[..|ps| - 1], s);
      assert ps == ps[..|ps| - 1] + [ps[|ps| - 1]];
    }
  }

  lemma HeadsAreExact(km: Keymap, ps: seq<Pair>)
    requires Owns(km.bySeq, ps) && Heads(km.prefixes, ps)
    ensures km.PrefixesExact()
  {
    forall p: KeySeq
      ensures p in km.prefixes <==> km.Continued(p)
    {
      if i :| 0 <= i < |ps| && ProperPrefix(p, ps[i].keys) {
        OwnedIsListed(ps, ps[i].keys);
        assert ps[i] in ps;
        assert ps[i].keys in km.bySeq;
      }
      if s :| s in km.bySeq && ProperPrefix(p, s) {
        OwnedIsListed(ps, s);
        var i :| 0 <= i < |ps| && ps[i] == Pair(s, km.bySeq[s]);
        assert ProperPrefix(p, ps[i].keys);
      }
    }
  }

  lemma WinnersOneMore(ps: seq<Pair>, p: Pair, bySeq: map<KeySeq, Command>)
    ensures Winners(ps + [p], bySeq) ==
            Winners(ps, bySeq) + if p.keys in bySeq && bySeq[p.keys] == p.cmd then [p] else []
  {
    assert (ps + [p])[..|ps|] == ps;
  }

  method Build(entries: seq<Entry>) returns (km: Keymap)
    ensures Owns(km.bySeq, Pairs(entries))
    ensures km.PrefixesExact()
    ensures km.ordered == Winners(Pairs(entries), km.bySeq)
  {
    // First pass: who holds each sequence, and the prefixes.
    var bySeq: map<KeySeq, Command>, prefixes: set<KeySeq> := map[], {};
    for i := 0 to |entries|
      invariant Owns(bySeq, Pairs(entries[..i])) && Heads(prefixes, Pairs(entries[..i]))
    {
      hide Owns, Heads;
      OneMoreEntry(entries, i);
      bySeq, prefixes := IndexEntry(entries[i], bySeq, prefixes, Pairs(entries[..i]));
    }
    assert entries[..|entries|] == entries;
    // Second pass: the list to show.
    var ordered := [];
    for i := 0 to |entries|
      invariant ordered == Winners(Pairs(entries[..i]), bySeq)
    {
      hide Winners, Pairs;
      OneMoreEntry(entries, i);
      ordered := OrderEntry(entries[i], bySeq, ordered, Pairs(entries[..i]));
    }
    km := Keymap(bySeq, prefixes, ordered);
    HeadsAreExact(km, Pairs(entries));
  }

  method IndexEntry(entry: Entry, bySeq0: map<KeySeq, Command>, prefixes0: set<KeySeq>, ghost ps: seq<Pair>)
    returns (bySeq: map<KeySeq, Command>, prefixes: set<KeySeq>)
    requires Owns(bySeq0, ps) && Heads(prefixes0, ps)
    ensures Owns(bySeq, ps + PairsOf(entry.cmd, entry.seqs)) && Heads(prefixes, ps + PairsOf(entry.cmd, entry.seqs))
  {
    hide Owns, Heads;
    bySeq, prefixes := bySeq0, prefixes0;
    ghost var done := ps;
    assert ps + [] == ps;
    for j := 0 to |entry.seqs|
      invariant done == ps + PairsOf(entry.cmd, entry.seqs[..j])
      invariant Owns(bySeq, done) && Heads(prefixes, done)
    {
      var s := entry.seqs[j];
      OneMorePair(entry.cmd, entry.seqs, j);
      OwnsOneMore(bySeq, done, Pair(s, entry.cmd));
      HeadsOneMore(prefixes, done, Pair(s, entry.cmd));
      done := done + [Pair(s, entry.cmd)];
      bySeq := bySeq[s := entry.cmd];
      ghost var was := prefixes;
      if |s| >= 2 {
        prefixes := prefixes + {s[..1]};
      }
      if |s| == 3 {
        prefixes := prefixes + {s[..2]};
      }
      assert prefixes == was + (if |s| >= 2 then {s[..1]} else {}) + (if |s| == 3 then {s[..2]} else {});
    }
    assert entry.seqs[..|entry.seqs|] == entry.seqs;
  }

  method OrderEntry(entry: Entry, bySeq: map<KeySeq, Command>, ordered0: seq<Pair>, ghost ps: seq<Pair>)
    returns (ordered: seq<Pair>)
    requires ordered0 == Winners(ps, bySeq)
    ensures ordered == Winners(ps + PairsOf(entry.cmd, entry.seqs), bySeq)
  {
    hide Winners;
    ordered := ordered0;
    ghost var done := ps;
    assert ps + [] == ps;
    for j := 0 to |entry.seqs|
      invariant done == ps + PairsOf(entry.cmd, entry.seqs[..j])
      invariant ordered == Winners(done, bySeq)
    {
      var s := entry.seqs[j];
      OneMorePair(entry.cmd, entry.seqs, j);
      WinnersOneMore(done, Pair(s, entry.cmd), bySeq);
      done := done + [Pair(s, entry.cmd)];
      if s in bySeq && bySeq[s] == entry.cmd {
        ordered := ordered + [Pair(s, entry.cmd)];
      }
    }
    assert entry.seqs[..|entry.seqs|] == entry.seqs;
  }

  // ---------------------------------------------------------------------
  // Dispatch
  // ---------------------------------------------------------------------

  datatype Outcome =
    | Waits
    | Runs(cmd: Command)
    | Top
    | Row(index: nat, focus: bool)
    | Nothing

  /** The half-typed sequence, or a lone `g` waiting for its second. */
  datatype Half = Half(prefix: seq<Chord>, g: bool)

  const IDLE: Half := Half([], false)

  /** The fixed digit fallback. */
  function Digit(chord: Chord): Outcome {
    if |chord.key| == 1 && '1' <= chord.key[0] <= '9' && !chord.alt && !chord.shift
    then Row((chord.key[0] - '1') as nat, chord.ctrl) else Nothing
  }

  /** The d-th digit key, with or without Ctrl. */
  predicate Spells(chord: Chord, d: int) {
    1 <= d <= 9 && |chord.key| == 1 && chord.key[0] as int == '0' as int + d && !chord.alt && !chord.shift
  }

  /** The key is not bound and begins no binding. */
  predicate Unused(km: Keymap, chord: Chord) {
    [chord] !in km.bySeq && [chord] !in km.prefixes
  }

  lemma DigitIs(chord: Chord)
    ensures forall d :: Spells(chord, d) ==> Digit(chord) == Row(d - 1, chord.ctrl)
    ensures (forall d :: !Spells(chord, d)) ==> Digit(chord) == Nothing
    ensures chord.key == "g" ==> forall d :: !Spells(chord, d)
  {
    forall d | Spells(chord, d)
      ensures Digit(chord) == Row(d - 1, chord.ctrl) && chord.key != "g"
    {
      SpelledDigit(chord, d);
    }
    if Digit(chord) != Nothing {
      assert Spells(chord, chord.key[0] as int - '0' as int);
    }
  }

  lemma SpelledDigit(chord: Chord, d: int)
    requires Spells(chord, d)
    ensures Digit(chord) == Row(d - 1, chord.ctrl) && chord.key != "g"
  {
  }

  /** What the commands and fallbacks say of a key typed with nothing pending. */
  function Fresh(km: Keymap, chord: Chord): (Half, Outcome) {
    if km.IsPrefix([chord]) then (Half([chord], false), Waits)
    else
      match km.Lookup([chord])
      case Some(cmd) => (IDLE, Runs(cmd))
      case None => if chord == G then (Half([], true), Waits) else (IDLE, Digit(chord))
  }

  function Press(km: Keymap, h: Half, chord: Chord): (Half, Outcome) {
    if h.prefix != [] then
      var typed := h.prefix + [chord];
      if km.IsPrefix(typed) then (Half(typed, false), Waits)
      else (IDLE, match km.Lookup(typed) case Some(cmd) => Runs(cmd) case None => Nothing)
    else if h.g then (IDLE, if chord == G then Top else Nothing)
    else Fresh(km, chord)
  }

  class Dispatcher {
    const keymap: Keymap
    var pendingPrefix: seq<Chord>
    var pendingG: bool

    constructor (keymap: Keymap)
      ensures this.keymap == keymap && State() == IDLE
    {
      this.keymap := keymap;
      pendingPrefix, pendingG := [], false;
    }

    function State(): Half
      reads this
    {
      Half(pendingPrefix, pendingG)
    }

    method HandleNormalKey(chord: Chord) returns (outcome: Outcome)
      modifies this
      ensures (State(), outcome) == Press(keymap, old(State()), chord)
      ensures var typed := old(pendingPrefix) + [chord];
              old(pendingPrefix) != [] || !old(pendingG) ==>
                && (keymap.IsPrefix(typed) ==> outcome == Waits && pendingPrefix == typed && !pendingG)
                && (!keymap.IsPrefix(typed) && IsKeySeq(typed) && typed in keymap.bySeq ==>
                      outcome == Runs(keymap.bySeq[typed]) && pendingPrefix == [] && !pendingG)
                && (old(pendingPrefix) != [] && !keymap.IsPrefix(typed) && keymap.Lookup(typed).None? ==>
                      outcome == Nothing && pendingPrefix == [] && !pendingG)
      ensures old(pendingPrefix) == [] && old(pendingG) ==>
                pendingPrefix == [] && !pendingG && outcome == if chord.key == "g" && chord.Plain() then Top else Nothing
      ensures old(pendingPrefix) == [] && !old(pendingG) && Unused(keymap, chord) ==>
                && pendingPrefix == [] && (pendingG <==> chord.key == "g" && chord.Plain())
                && (chord.key == "g" && chord.Plain() ==> outcome == Waits)
                && (forall d :: Spells(chord, d) ==> outcome == Row(d - 1, chord.ctrl))
                && ((forall d :: !Spells(chord, d)) && !(chord.key == "g" && chord.Plain()) ==>
                      outcome == Nothing)
    {
      if Unused(keymap, chord) {
        DigitIs(chord);
      }
      hide Digit, Spells;
      assert pendingPrefix == [] ==> pendingPrefix + [chord] == [chord];
      var prefix, wasG := pendingPrefix, pendingG;
      pendingPrefix, pendingG := [], false;
      if prefix != [] {
        var typed := prefix + [chord];
        if keymap.IsPrefix(typed) {
          pendingPrefix := typed;
          return Waits;
        }
        match keymap.Lookup(typed)
        case Some(cmd) => return Runs(cmd);
        case None => return Nothing;
      }
      if wasG {
        if chord == G {
          return Top;
        }
        return Nothing;
      }
      if keymap.IsPrefix([chord]) {
        pendingPrefix := [chord];
        return Waits;
      }
      if chord == G && keymap.Lookup([chord]).None? {
        pendingG := true;
        return Waits;
      }
      match keymap.Lookup([chord])
      case Some(cmd) => return Runs(cmd);
      case None => return Digit(chord);
    }
  }

  /** The dispatcher after a run of keys from idle. */
  function Typed(km: Keymap, keys: seq<Chord>): Half {
    if keys == [] then IDLE else Press(km, Typed(km, keys[..|keys| - 1]), keys[|keys| - 1]).0
  }

  /** What the last key of a run did. */
  function Effect(km: Keymap, keys: seq<Chord>): Outcome
    requires keys != []
  {
    Press(km, Typed(km, keys[..|keys| - 1]), keys[|keys| - 1]).1
  }

  predicate IsSuffix(tail: seq<Chord>, keys: seq<Chord>) {
    |tail| <= |keys| && keys[|keys| - |tail|..] == tail
  }

  /**
   * Whatever is typed, the pending prefix is empty or a proper prefix of a bound
   * sequence, and it is what was typed last; the lone `g` waits only when it is
   * neither bound nor a prefix, and never beside a pending prefix.
   */
  ghost predicate Pends(km: Keymap, h: Half, keys: seq<Chord>) {
    && (h.prefix != [] ==> km.IsPrefix(h.prefix) && km.Continued(h.prefix) && IsSuffix(h.prefix, keys) && !h.g)
    && (h.g ==> IsSuffix([G], keys) && km.Lookup([G]).None? && !km.IsPrefix([G]))
  }

  lemma SuffixGrows(tail: seq<Chord>, keys: seq<Chord>, chord: Chord)
    requires IsSuffix(tail, keys)
    ensures IsSuffix(tail + [chord], keys + [chord])
  {
  }

  lemma PressPends(km: Keymap, h: Half, keys: seq<Chord>, chord: Chord)
    requires km.PrefixesExact() && Pends(km, h, keys)
    ensures Pends(km, Press(km, h, chord).0, keys + [chord])
  {
    var n := Press(km, h, chord).0;
    assert n.prefix != [] ==> km.IsPrefix(n.prefix);
    SuffixGrows([], keys, chord);
    assert [] + [chord] == [chord];
    if h.prefix != [] {
      SuffixGrows(h.prefix, keys, chord);
    }
    hide IsSuffix;
  }

  lemma {:induction false} PendingIsPrefix(km: Keymap, keys: seq<Chord>)
    requires km.PrefixesExact()
    ensures Pends(km, Typed(km, keys), keys)
  {
    if keys != [] {
      var before := keys[..|keys| - 1];
      PendingIsPrefix(km, before);
      hide Press, Pends;
      PressPends(km, Typed(km, before), before, keys[|keys| - 1]);
      assert keys == before + [keys[|keys| - 1]];
    }
  }

  lemma Snoc(km: Keymap, keys: seq<Chord>, chord: Chord)
    ensures Typed(km, keys + [chord]) == Press(km, Typed(km, keys), chord).0
    ensures Effect(km, keys + [chord]) == Press(km, Typed(km, keys), chord).1
  {
    assert (keys + [chord])[..|keys|] == keys;
  }

  lemma PressRuns(km: Keymap, h: Half, chord: Chord)
    requires Press(km, h, chord).1.Runs?
    ensures km.Lookup(h.prefix + [chord]) == Some(Press(km, h, chord).1.cmd) && !km.IsPrefix(h.prefix + [chord])
  {
    assert h.prefix == [] ==> h.prefix + [chord] == [chord];
  }

  /** Commands run only on a whole bound sequence, just typed, that no longer one continues. */
  lemma RunsOnlyWhatWasTyped(km: Keymap, keys: seq<Chord>, chord: Chord)
    requires km.PrefixesExact() && Effect(km, keys + [chord]).Runs?
    ensures exists s: KeySeq :: s in km.bySeq && IsSuffix(s, keys + [chord])
                                && km.bySeq[s] == Effect(km, keys + [chord]).cmd && s !in km.prefixes
  {
    var h := Typed(km, keys);
    PendingIsPrefix(km, keys);
    Snoc(km, keys, chord);
    PressRuns(km, h, chord);
    hide Typed, Effect, Press;
    SuffixGrows(h.prefix, keys, chord);
    assert h.prefix + [chord] in km.bySeq;
  }

  lemma ContinuedInit(km: Keymap, p: seq<Chord>)
    requires |p| >= 2 && (km.Continued(p) || (IsKeySeq(p) && p in km.bySeq))
    ensures km.Continued(p[..|p| - 1])
  {
    var init := p[..|p| - 1];
    if km.Continued(p) {
      var s :| s in km.bySeq && ProperPrefix(p, s);
      assert ProperPrefix(init, s);
    } else {
      assert ProperPrefix(init, p);
    }
  }

  lemma ContinuedIsPrefix(km: Keymap, p: seq<Chord>)
    requires km.PrefixesExact() && |p| >= 1
    ensures km.IsPrefix(p) <==> km.Continued(p)
  {
  }

  /** Typing a proper prefix of a bound sequence with nothing pending waits. */
  lemma {:induction false} PrefixWaits(km: Keymap, keys: seq<Chord>, p: seq<Chord>)
    requires km.PrefixesExact() && Typed(km, keys) == IDLE && |p| >= 1 && km.Continued(p)
    ensures Typed(km, keys + p) == Half(p, false) && Effect(km, keys + p) == Waits
  {
    ContinuedIsPrefix(km, p);
    if |p| > 1 {
      ContinuedInit(km, p);
    }
    hide *;
    var init, last := p[..|p| - 1], p[|p| - 1];
    if |p| > 1 {
      PrefixWaits(km, keys, init);
    } else {
      NothingTyped(km, keys);
    }
    SplitLast(keys, p);
    Snoc(km, keys + init, last);
    PressExtends(km, init, last);
  }

  lemma NothingTyped(km: Keymap, keys: seq<Chord>)
    requires Typed(km, keys) == IDLE
    ensures Typed(km, keys + []) == Half([], false)
  {
    assert keys + [] == keys;
  }

  lemma PressExtends(km: Keymap, init: seq<Chord>, last: Chord)
    requires km.IsPrefix(init + [last])
    ensures Press(km, Half(init, false), last) == (Half(init + [last], false), Waits)
  {
    assert init == [] ==> init + [last] == [last];
  }

  /** With nothing pending, typing a bound sequence runs its command iff it is not itself a prefix. */
  lemma TypingRunsUnlessPrefix(km: Keymap, keys: seq<Chord>, s: KeySeq)
    requires km.PrefixesExact() && Typed(km, keys) == IDLE && s in km.bySeq
    ensures Effect(km, keys + s) == Runs(km.bySeq[s]) <==> s !in km.prefixes
    ensures s in km.prefixes ==> Effect(km, keys + s) == Waits
    ensures s !in km.prefixes ==> Typed(km, keys + s) == IDLE
  {
    ContinuedIsPrefix(km, s);
    assert km.IsPrefix(s) <==> s in km.prefixes;
    hide *;
    if s in km.prefixes {
      PrefixWaits(km, keys, s);
    } else {
      AllButLast(km, keys, s);
      LastKeyRuns(km, keys, s);
    }
  }

  lemma LastKeyRuns(km: Keymap, keys: seq<Chord>, s: KeySeq)
    requires s in km.bySeq && s !in km.prefixes
    requires Typed(km, keys + s[..|s| - 1]) == Half(s[..|s| - 1], false)
    ensures Typed(km, keys + s) == IDLE && Effect(km, keys + s) == Runs(km.bySeq[s])
  {
    var init, last := s[..|s| - 1], s[|s| - 1];
    hide *;
    SplitLast(keys, s);
    Snoc(km, keys + init, last);
    PressCompletes(km, init, last);
  }

  lemma SplitLast(keys: seq<Chord>, s: seq<Chord>)
    requires s != []
    ensures s[..|s| - 1] + [s[|s| - 1]] == s && keys + s == keys + s[..|s| - 1] + [s[|s| - 1]]
  {
  }

  /** All but the last key of a bound sequence is pending once typed. */
  lemma AllButLast(km: Keymap, keys: seq<Chord>, s: KeySeq)
    requires km.PrefixesExact() && Typed(km, keys) == IDLE && s in km.bySeq
    ensures Typed(km, keys + s[..|s| - 1]) == Half(s[..|s| - 1], false)
  {
    if |s| > 1 {
      ContinuedInit(km, s);
      PrefixWaits(km, keys, s[..|s| - 1]);
    } else {
      assert keys + s[..0] == keys;
    }
  }

  lemma PressCompletes(km: Keymap, init: seq<Chord>, last: Chord)
    requires IsKeySeq(init + [last]) && init + [last] in km.bySeq && init + [last] !in km.prefixes
    ensures Press(km, Half(init, false), last) == (IDLE, Runs(km.bySeq[init + [last]]))
  {
    assert init == [] ==> init + [last] == [last];
  }

  /** With nothing pending, an unused digit picks its row, or with Ctrl focuses it. */
  lemma DigitPicksRow(km: Keymap, keys: seq<Chord>, chord: Chord, d: int)
    requires Typed(km, keys) == IDLE && Unused(km, chord) && Spells(chord, d)
    ensures Effect(km, keys + [chord]) == Row(d - 1, chord.ctrl) && Typed(km, keys + [chord]) == IDLE
  {
    Snoc(km, keys, chord);
    DigitIs(chord);
    hide Digit, Spells, Typed, Effect;
  }

  /** Any other unused key but a plain `g` does nothing. */
  lemma UnusedDoesNothing(km: Keymap, keys: seq<Chord>, chord: Chord)
    requires Typed(km, keys) == IDLE && Unused(km, chord)
    requires !(chord.key == "g" && chord.Plain()) && forall d :: !Spells(chord, d)
    ensures Effect(km, keys + [chord]) == Nothing && Typed(km, keys + [chord]) == IDLE
  {
    Snoc(km, keys, chord);
    DigitIs(chord);
    hide Digit, Spells, Typed, Effect;
  }

  lemma NothingYet(km: Keymap)
    ensures Typed(km, []) == IDLE
  {
  }

  /** "1" picks the first row and Ctrl-"9" focuses the ninth; Alt-"1" does nothing. */
  lemma OneAndNine(km: Keymap)
    requires km.bySeq == map[] && km.prefixes == {}
    ensures Effect(km, [Chord("1", false, false, false)]) == Row(0, false)
    ensures Effect(km, [Chord("9", true, false, false)]) == Row(8, true)
    ensures Effect(km, [Chord("1", false, true, false)]) == Nothing
  {
    var one, nine, alt := Chord("1", false, false, false), Chord("9", true, false, false), Chord("1", false, true, false);
    assert Spells(one, 1) && Spells(nine, 9);
    assert forall d :: !Spells(alt, d);
    hide Spells, Effect;
    assert [] + [one] == [one] && [] + [nine] == [nine] && [] + [alt] == [alt];
    hide Typed;
    NothingYet(km);
    DigitPicksRow(km, [], one, 1);
    DigitPicksRow(km, [], nine, 9);
    UnusedDoesNothing(km, [], alt);
  }

  /** A key that neither extends nor completes a pending prefix, or follows a lone `g`, does nothing else. */
  lemma MissRunsNothing(km: Keymap, keys: seq<Chord>, chord: Chord)
    requires km.PrefixesExact()
    requires var h := Typed(km, keys);
             || (h.prefix != [] && !km.Continued(h.prefix + [chord]) && h.prefix + [chord] !in km.bySeq)
             || (h.g && chord != G)
    ensures Effect(km, keys + [chord]) == Nothing && Typed(km, keys + [chord]) == IDLE
  {
    PendingIsPrefix(km, keys);
    Snoc(km, keys, chord);
    ContinuedIsPrefix(km, Typed(km, keys).prefix + [chord]);
    hide Typed, Effect;
  }

  /** `g g` jumps to the top exactly when `g` is neither bound nor begins a binding. */
  lemma DoubleGJumpsIff(km: Keymap, keys: seq<Chord>)
    requires Typed(km, keys) == IDLE
    ensures Effect(km, keys + [G] + [G]) == Top <==> km.Lookup([G]).None? && !km.IsPrefix([G])
  {
    Snoc(km, keys, G);
    Snoc(km, keys + [G], G);
    hide Typed, Effect;
    assert Digit(G) == Nothing;
  }

  // ---------------------------------------------------------------------
  // Overlaying a configuration
  // ---------------------------------------------------------------------

  /** A configured key, token by token; None is a token that names no key. */
  type Key = seq<Option<Chord>>

  datatype Warning =
    | UnknownCommand(id: string)
    | Reserved(id: string, key: Key)
    | Unparseable(id: string, key: Key)
    | Collision(keys: KeySeq, prev: Command, winner: Command)
    | Unreachable(keys: KeySeq, cmd: Command)

  predicate Parses(key: Key) {
    1 <= |key| <= 3 && forall i :: 0 <= i < |key| ==> key[i].Some?
  }

  function Parsed(key: Key): (s: KeySeq)
    requires Parses(key)
    ensures |s| == |key| && forall i :: 0 <= i < |key| ==> Some(s[i]) == key[i]
  {
    seq(|key|, i requires 0 <= i < |key| => key[i].value)
  }

  method ParseKey(key: Key) returns (r: Option<KeySeq>)
    ensures r == if Parses(key) then Some(Parsed(key)) else None
  {
    var chords: seq<Chord> := [];
    for i := 0 to |key|
      invariant |chords| == i <= 3
      invariant forall j :: 0 <= j < i ==> key[j] == Some(chords[j])
    {
      if |chords| == 3 || key[i].None? {
        return None;
      }
      chords := chords + [key[i].value];
    }
    if IsKeySeq(chords) {
      assert chords == Parsed(key);
      return Some(chords);
    }
    return None;
  }

  /** Ctrl-c may only be bound alone, and only to quit. */
  predicate UsesReserved(cmd: Command, s: KeySeq) {
    CTRL_C in s && !(cmd == QUIT && |s| == 1)
  }

  function Accepted(cmd: Command, keys: seq<Key>): seq<KeySeq> {
    if keys == [] then []
    else
      var k := keys[|keys| - 1];
      Accepted(cmd, keys[..|keys| - 1]) + if Parses(k) && !UsesReserved(cmd, Parsed(k)) then [Parsed(k)] else []
  }

  predicate Known(table: seq<Entry>, cmd: Command) {
    exists i :: 0 <= i < |table| && table[i].cmd == cmd
  }

  function FromId(table: seq<Entry>, id: string): Option<Command> {
    if id == KILL then Some(CLOSE_SESSION)
    else if Known(table, id) then Some(id)
    else None
  }

  type Config = map<string, seq<Key>>

  /** The legacy name yields to the canonical one. */
  predicate Skipped(cfg: Config, id: string) {
    id == KILL && CLOSE_SESSION in cfg
  }

  /** The configuration entry that decides a command, if any: the canonical name, else its legacy alias. */
  function Decider(cfg: Config, cmd: Command): Option<string> {
    if cmd != KILL && cmd in cfg then Some(cmd)
    else if cmd == CLOSE_SESSION && KILL in cfg then Some(KILL)
    else None
  }

  /** The configuration decides these commands, each with the accepted keys of its entry. */
  ghost predicate Overrides(table: seq<Entry>, cfg: Config, ids: set<string>, overrides: map<Command, seq<KeySeq>>) {
    forall cmd: Command ::
      if Known(table, cmd) && Decider(cfg, cmd).Some? && Decider(cfg, cmd).value in ids
      then cmd in overrides && overrides[cmd] == Accepted(cmd, cfg[Decider(cfg, cmd).value])
      else cmd !in overrides
  }

  predicate Complaint(table: seq<Entry>, cfg: Config, ids: set<string>, w: Warning) {
    match w
    case UnknownCommand(id) => id in ids && FromId(table, id).None?
    case Unparseable(id, key) =>
      id in ids && id in cfg && !Skipped(cfg, id) && FromId(table, id).Some? && key in cfg[id] && !Parses(key)
    case Reserved(id, key) =>
      id in ids && id in cfg && !Skipped(cfg, id) && FromId(table, id).Some? && key in cfg[id]
      && Parses(key) && UsesReserved(FromId(table, id).value, Parsed(key))
    case _ => false
  }

  /** One configuration entry's keys. */
  method ReadKeys(id: string, cmd: Command, keys: seq<Key>) returns (seqs: seq<KeySeq>, warnings: seq<Warning>)
    ensures seqs == Accepted(cmd, keys)
    ensures forall w :: w in warnings <==>
              || (w.Unparseable? && w.id == id && w.key in keys && !Parses(w.key))
              || (w.Reserved? && w.id == id && w.key in keys && Parses(w.key) && UsesReserved(cmd, Parsed(w.key)))
  {
    seqs, warnings := [], [];
    for i := 0 to |keys|
      invariant seqs == Accepted(cmd, keys[..i])
      invariant forall w :: w in warnings <==>
                  || (w.Unparseable? && w.id == id && w.key in keys[..i] && !Parses(w.key))
                  || (w.Reserved? && w.id == id && w.key in keys[..i] && Parses(w.key) && UsesReserved(cmd, Parsed(w.key)))
    {
      assert keys[..i + 1] == keys[..i] + [keys[i]];
      var parsed := ParseKey(keys[i]);
      match parsed
      case Some(s) =>
        if UsesReserved(cmd, s) {
          warnings := warnings + [Reserved(id, keys[i])];
        } else {
          seqs := seqs + [s];
        }
      case None => warnings := warnings + [Unparseable(id, keys[i])];
    }
    assert keys[..|keys|] == keys;
  }

  ghost predicate Distinct<T(!new)>(xs: seq<T>) {
    forall i, j :: 0 <= i < j < |xs| ==> xs[i] != xs[j]
  }

  function Elems<T>(xs: seq<T>): set<T> {
    set x | x in xs
  }

  lemma OverrideOneMore(table: seq<Entry>, cfg: Config, ids: set<string>, overrides: map<Command, seq<KeySeq>>,
                        id: string)
    requires Overrides(table, cfg, ids, overrides) && id in cfg && id !in ids && Known(table, CLOSE_SESSION)
    ensures Skipped(cfg, id) || FromId(table, id).None? ==> Overrides(table, cfg, ids + {id}, overrides)
    ensures !Skipped(cfg, id) && FromId(table, id).Some? ==>
              var cmd := FromId(table, id).value;
              Overrides(table, cfg, ids + {id}, overrides[cmd := Accepted(cmd, cfg[id])])
  {
  }

  /** The key uses Ctrl-c for something other than quitting, alone. */
  predicate Misuses(cmd: Command, key: Key) {
    (exists i :: 0 <= i < |key| && key[i] == Some(Chord("c", true, false, false))) && !(cmd == "quit" && |key| == 1)
  }

  predicate Spelled(s: KeySeq, key: Key) {
    |s| == |key| && forall i :: 0 <= i < |key| ==> Some(s[i]) == key[i]
  }

  /** The command an entry of the configuration is for. */
  function Meant(id: string): Command {
    if id == "kill" then "close_session" else id
  }

  lemma {:induction false} AcceptedKeys(cmd: Command, keys: seq<Key>, s: KeySeq)
    ensures s in Accepted(cmd, keys) <==> exists key :: key in keys && Parses(key) && !Misuses(cmd, key) && Spelled(s, key)
  {
    if keys != [] {
      var rest, last := keys[..|keys| - 1], keys[|keys| - 1];
      AcceptedKeys(cmd, rest, s);
      assert keys == rest + [last];
      assert forall key :: key in keys <==> key in rest || key == last;
      if Parses(last) {
        MisusesIff(cmd, last);
        assert Spelled(s, last) <==> s == Parsed(last);
      }
      hide Misuses, UsesReserved, Parses, Spelled, Parsed;
    }
  }

  lemma MisusesIff(cmd: Command, key: Key)
    requires Parses(key)
    ensures UsesReserved(cmd, Parsed(key)) <==> Misuses(cmd, key)
  {
    var s := Parsed(key);
    if Misuses(cmd, key) {
      var i :| 0 <= i < |key| && key[i] == Some(Chord("c", true, false, false));
      assert s[i] == CTRL_C;
    }
    if CTRL_C in s {
      var i :| 0 <= i < |s| && s[i] == CTRL_C;
      assert key[i] == Some(CTRL_C);
    }
  }

  /**
   * Every key of an entry that counts is bound to its command, or warned about:
   * as unreadable unless it is one to three chords, as reserved if it misuses
   * Ctrl-c. And nothing else is bound: an empty entry unbinds its command.
   */
  lemma EveryKeyIsAccounted(table: seq<Entry>, cfg: Config, overrides: map<Command, seq<KeySeq>>, id: string)
    requires Overrides(table, cfg, cfg.Keys, overrides) && id in cfg && Known(table, Meant(id))
    requires id == "kill" ==> "close_session" !in cfg
    ensures Meant(id) in overrides
    ensures forall s: KeySeq :: s in overrides[Meant(id)] <==>
              exists key :: key in cfg[id] && Parses(key) && !Misuses(Meant(id), key) && Spelled(s, key)
    ensures forall key :: key in cfg[id] ==>
              && (Complaint(table, cfg, cfg.Keys, Unparseable(id, key)) <==>
                  !(1 <= |key| <= 3) || exists i :: 0 <= i < |key| && key[i] == None)
              && (Complaint(table, cfg, cfg.Keys, Reserved(id, key)) <==> Parses(key) && Misuses(Meant(id), key))
  {
    var cmd := Meant(id);
    assert id != "kill" ==> Decider(cfg, cmd) == Some(id);
    assert id == "kill" ==> Decider(cfg, cmd) == Some("kill");
    forall s: KeySeq
      ensures s in overrides[cmd] <==>
              exists key :: key in cfg[id] && Parses(key) && !Misuses(cmd, key) && Spelled(s, key)
    {
      AcceptedKeys(cmd, cfg[id], s);
    }
    forall key | key in cfg[id] && Parses(key)
      ensures UsesReserved(cmd, Parsed(key)) <==> Misuses(cmd, key)
    {
      MisusesIff(cmd, key);
    }
    hide Misuses, UsesReserved, Spelled, Parsed, Known, Accepted;
  }

  /** The legacy name counts only without the canonical one, and says nothing then; an unknown name is told. */
  lemma NamesMean(table: seq<Entry>, cfg: Config, overrides: map<Command, seq<KeySeq>>, w: Warning)
    requires Overrides(table, cfg, cfg.Keys, overrides) && Known(table, "close_session")
    ensures "close_session" in cfg ==>
              && overrides["close_session"] == Accepted("close_session", cfg["close_session"])
              && (w.Unparseable? || w.Reserved? || w.UnknownCommand? ==>
                    w.id == "kill" ==> !Complaint(table, cfg, cfg.Keys, w))
    ensures "close_session" !in cfg && "kill" in cfg ==>
              overrides["close_session"] == Accepted("close_session", cfg["kill"])
    ensures w.UnknownCommand? ==>
              (Complaint(table, cfg, cfg.Keys, w) <==> w.id in cfg && w.id != "kill" && !Known(table, w.id))
    ensures forall cmd :: cmd in overrides ==>
              Known(table, cmd) && (cmd in cfg || (cmd == "close_session" && "kill" in cfg))
  {
    hide Known, Accepted;
  }

  ghost predicate Complaints(table: seq<Entry>, cfg: Config, ids: set<string>, ws: seq<Warning>) {
    forall w :: w in ws <==> Complaint(table, cfg, ids, w)
  }

  lemma ComplainOneMore(table: seq<Entry>, cfg: Config, ids: set<string>, ws: seq<Warning>, id: string, more: seq<Warning>)
    requires Complaints(table, cfg, ids, ws) && id in cfg
    requires forall w :: w in more <==> Complaint(table, cfg, {id}, w)
    ensures Complaints(table, cfg, ids + {id}, ws + more)
  {
    hide FromId;
    assert forall w :: Complaint(table, cfg, ids + {id}, w) <==>
                       Complaint(table, cfg, ids, w) || Complaint(table, cfg, {id}, w);
  }

  /** The overrides do not depend on the order in which the configuration is read. */
  method ReadConfig(table: seq<Entry>, cfg: Config, ids: seq<string>)
    returns (overrides: map<Command, seq<KeySeq>>, warnings: seq<Warning>)
    requires Elems(ids) == cfg.Keys && Distinct(ids) && Known(table, CLOSE_SESSION)
    ensures Overrides(table, cfg, cfg.Keys, overrides)
    ensures forall w :: w in warnings <==> Complaint(table, cfg, cfg.Keys, w)
  {
    overrides, warnings := map[], [];
    for i := 0 to |ids|
      invariant Overrides(table, cfg, Elems(ids[..i]), overrides)
      invariant Complaints(table, cfg, Elems(ids[..i]), warnings)
    {
      hide Overrides, Known, Complaints;
      var id := ids[i];
      assert id in Elems(ids);
      assert Elems(ids[..i + 1]) == Elems(ids[..i]) + {id};
      OverrideOneMore(table, cfg, Elems(ids[..i]), overrides, id);
      var complaints := [];
      if id == KILL && CLOSE_SESSION in cfg {
      } else {
        match FromId(table, id)
        case None => complaints := [UnknownCommand(id)];
        case Some(cmd) =>
          var seqs: seq<KeySeq>;
          seqs, complaints := ReadKeys(id, cmd, cfg[id]);
          overrides := overrides[cmd := seqs];
      }
      ComplainOneMore(table, cfg, Elems(ids[..i]), warnings, id, complaints);
      warnings := warnings + complaints;
    }
    assert ids[..|ids|] == ids;
  }

  lemma {:induction false} AcceptedHolds(cmd: Command, keys: seq<Key>, s: KeySeq)
    ensures s in Accepted(cmd, keys) <==>
            exists k :: k in keys && Parses(k) && Parsed(k) == s && !UsesReserved(cmd, s)
  {
    if keys != [] {
      AcceptedHolds(cmd, keys[..|keys| - 1], s);
      assert keys == keys[..|keys| - 1] + [keys[|keys| - 1]];
    }
  }

  /** No configuration can bind Ctrl-c to anything but quitting, alone. */
  lemma CtrlCOnlyQuits(table: seq<Entry>, cfg: Config, overrides: map<Command, seq<KeySeq>>, cmd: Command, s: KeySeq)
    requires Overrides(table, cfg, cfg.Keys, overrides)
    requires cmd in overrides && s in overrides[cmd] && CTRL_C in s
    ensures cmd == QUIT && s == [CTRL_C]
  {
    AcceptedHolds(cmd, cfg[Decider(cfg, cmd).value], s);
  }

  // ---------------------------------------------------------------------
  // The overlaid table
  // ---------------------------------------------------------------------

  ghost predicate IsClaimed(overrides: map<Command, seq<KeySeq>>, s: KeySeq) {
    exists cmd :: cmd in overrides && s in overrides[cmd]
  }

  function Unclaimed(seqs: seq<KeySeq>, claimed: set<KeySeq>): seq<KeySeq> {
    if seqs == [] then []
    else Unclaimed(seqs[..|seqs| - 1], claimed)
         + if seqs[|seqs| - 1] in claimed then [] else [seqs[|seqs| - 1]]
  }

  /** An overridden command's row is its override; any other keeps its defaults less the claimed ones. */
  function Overlay(table: seq<Entry>, overrides: map<Command, seq<KeySeq>>, claimed: set<KeySeq>): seq<Entry> {
    seq(|table|, i requires 0 <= i < |table| => OverlayEntry(table[i], overrides, claimed))
  }

  function OverlayEntry(e: Entry, overrides: map<Command, seq<KeySeq>>, claimed: set<KeySeq>): Entry {
    Entry(e.cmd, if e.cmd in overrides then overrides[e.cmd] else Unclaimed(e.seqs, claimed))
  }

  lemma {:induction false} UnclaimedHolds(seqs: seq<KeySeq>, claimed: set<KeySeq>, s: KeySeq)
    ensures s in Unclaimed(seqs, claimed) <==> s in seqs && s !in claimed
  {
    if seqs != [] {
      UnclaimedHolds(seqs[..|seqs| - 1], claimed, s);
      assert seqs == seqs[..|seqs| - 1] + [seqs[|seqs| - 1]];
    }
  }

  lemma {:induction false} PairsOfHolds(cmd: Command, seqs: seq<KeySeq>, p: Pair)
    ensures p in PairsOf(cmd, seqs) <==> p.cmd == cmd && p.keys in seqs
  {
    if seqs != [] {
      PairsOfHolds(cmd, seqs[..|seqs| - 1], p);
      assert seqs == seqs[..|seqs| - 1] + [seqs[|seqs| - 1]];
    }
  }

  ghost predicate Lists(e: Entry, p: Pair) {
    e.cmd == p.cmd && p.keys in e.seqs
  }

  ghost predicate SomeLists(entries: seq<Entry>, p: Pair) {
    exists i :: 0 <= i < |entries| && Lists(entries[i], p)
  }

  lemma SomeListsOneMore(entries: seq<Entry>, e: Entry, p: Pair)
    ensures SomeLists(entries + [e], p) <==> SomeLists(entries, p) || Lists(e, p)
  {
    hide Lists;
    var all := entries + [e];
    assert all[|entries|] == e && forall i :: 0 <= i < |entries| ==> all[i] == entries[i];
    if SomeLists(entries, p) {
      var i :| 0 <= i < |entries| && Lists(entries[i], p);
      assert Lists(all[i], p);
    }
    if Lists(e, p) {
      assert Lists(all[|entries|], p);
    }
  }

  lemma {:induction false} PairsHold(entries: seq<Entry>, p: Pair)
    ensures p in Pairs(entries) <==> SomeLists(entries, p)
  {
    if entries != [] {
      var rest, last := entries[..|entries| - 1], entries[|entries| - 1];
      PairsHold(rest, p);
      PairsOfHolds(last.cmd, last.seqs, p);
      SomeListsOneMore(rest, last, p);
      assert entries == rest + [last];
      hide PairsOf, SomeLists;
    }
  }

  ghost predicate DistinctCommands(table: seq<Entry>) {
    forall i, j :: 0 <= i < j < |table| ==> table[i].cmd != table[j].cmd
  }

  /** A sequence an override claims belongs to an overridden command that lists it. */
  lemma ClaimedStaysClaimed(table: seq<Entry>, overrides: map<Command, seq<KeySeq>>, claimed: set<KeySeq>,
                            bySeq: map<KeySeq, Command>, s: KeySeq)
    requires Owns(bySeq, Pairs(Overlay(table, overrides, claimed)))
    requires s in bySeq && s in claimed
    ensures bySeq[s] in overrides && s in overrides[bySeq[s]]
  {
    var entries := Overlay(table, overrides, claimed);
    OwnedIsListed(Pairs(entries), s);
    PairsHold(entries, Pair(s, bySeq[s]));
    var i :| 0 <= i < |entries| && Lists(entries[i], Pair(s, bySeq[s]));
    UnclaimedHolds(table[i].seqs, claimed, s);
  }

  /** Every override of a known command takes effect: its sequences are all bound, to overridden commands. */
  lemma OverridesAreBound(table: seq<Entry>, overrides: map<Command, seq<KeySeq>>, claimed: set<KeySeq>,
                          bySeq: map<KeySeq, Command>, i: nat, s: KeySeq)
    requires Owns(bySeq, Pairs(Overlay(table, overrides, claimed)))
    requires i < |table| && table[i].cmd in overrides && s in overrides[table[i].cmd]
    ensures s in bySeq
  {
    var entries := Overlay(table, overrides, claimed);
    assert Lists(entries[i], Pair(s, table[i].cmd));
    PairsHold(entries, Pair(s, table[i].cmd));
    OwnedIsListed(Pairs(entries), s);
  }

  /** No two rows of the default table share a sequence. */
  ghost predicate DistinctDefaults(table: seq<Entry>) {
    forall i, j, s :: 0 <= i < |table| && 0 <= j < |table| && s in table[i].seqs && s in table[j].seqs ==> i == j
  }

  lemma UnclaimedHolder(table: seq<Entry>, overrides: map<Command, seq<KeySeq>>, claimed: set<KeySeq>,
                        bySeq: map<KeySeq, Command>, s: KeySeq) returns (k: nat)
    requires forall t: KeySeq :: t in claimed <==> IsClaimed(overrides, t)
    requires Owns(bySeq, Pairs(Overlay(table, overrides, claimed))) && s in bySeq
    ensures k < |table| && table[k].cmd == bySeq[s]
    ensures bySeq[s] !in overrides ==> s in table[k].seqs && s !in claimed
    ensures s !in claimed ==> s in table[k].seqs
  {
    var entries := Overlay(table, overrides, claimed);
    OwnedIsListed(Pairs(entries), s);
    PairsHold(entries, Pair(s, bySeq[s]));
    k :| 0 <= k < |entries| && Lists(entries[k], Pair(s, bySeq[s]));
    UnclaimedHolds(table[k].seqs, claimed, s);
    assert table[k].cmd in overrides ==> IsClaimed(overrides, s);
  }

  /** A command nobody overrides keeps exactly its unclaimed default sequences. */
  lemma OthersKeepTheRest(table: seq<Entry>, overrides: map<Command, seq<KeySeq>>, claimed: set<KeySeq>,
                          bySeq: map<KeySeq, Command>, i: nat, s: KeySeq)
    requires DistinctCommands(table) && DistinctDefaults(table)
    requires forall t: KeySeq :: t in claimed <==> IsClaimed(overrides, t)
    requires Owns(bySeq, Pairs(Overlay(table, overrides, claimed)))
    requires i < |table| && table[i].cmd !in overrides
    ensures s in bySeq && bySeq[s] == table[i].cmd <==> s in table[i].seqs && s !in claimed
  {
    if s in table[i].seqs && s !in claimed {
      UnclaimedIsBound(table, overrides, claimed, bySeq, i, s);
    }
    hide *;
    if s in bySeq {
      var k := UnclaimedHolder(table, overrides, claimed, bySeq, s);
      DistinctRows(table, i, k, s);
    }
  }

  lemma DistinctRows(table: seq<Entry>, i: nat, k: nat, s: KeySeq)
    requires DistinctCommands(table) && DistinctDefaults(table) && i < |table| && k < |table|
    ensures table[i].cmd == table[k].cmd || (s in table[i].seqs && s in table[k].seqs) ==> i == k
  {
  }

  lemma UnclaimedIsBound(table: seq<Entry>, overrides: map<Command, seq<KeySeq>>, claimed: set<KeySeq>,
                         bySeq: map<KeySeq, Command>, i: nat, s: KeySeq)
    requires Owns(bySeq, Pairs(Overlay(table, overrides, claimed)))
    requires i < |table| && table[i].cmd !in overrides && s in table[i].seqs && s !in claimed
    ensures s in bySeq
  {
    var entries := Overlay(table, overrides, claimed);
    UnclaimedHolds(table[i].seqs, claimed, s);
    assert Lists(entries[i], Pair(s, table[i].cmd));
    PairsHold(entries, Pair(s, table[i].cmd));
    OwnedIsListed(Pairs(entries), s);
  }

  // ---------------------------------------------------------------------
  // Warnings about the table
  // ---------------------------------------------------------------------

  /** One collision per binding that takes a sequence from a different command. */
  function Collisions(ps: seq<Pair>): seq<Warning> {
    if ps == [] then []
    else
      var rest, p := ps[..|ps| - 1], ps[|ps| - 1];
      Collisions(rest) +
      match Owner(rest, p.keys)
      case Some(prev) => if prev != p.cmd then [Collision(p.keys, prev, p.cmd)] else []
      case None => []
  }

  lemma CollisionsOneMore(ps: seq<Pair>, p: Pair)
    ensures Collisions(ps + [p]) == Collisions(ps) + Taken(ps, p)
  {
    assert (ps + [p])[..|ps|] == ps;
  }

  method FindCollisions(entries: seq<Entry>) returns (warnings: seq<Warning>)
    ensures warnings == Collisions(Pairs(entries))
  {
    hide *;
    var seen: map<KeySeq, Command> := map[];
    warnings := [];
    NothingSeen(entries);
    for i := 0 to |entries|
      invariant Owns(seen, Pairs(entries[..i])) && warnings == Collisions(Pairs(entries[..i]))
    {
      var entry := entries[i];
      RowEnds(entries, i);
      for j := 0 to |entry.seqs|
        invariant Owns(seen, Upto(entries, i, j)) && warnings == Collisions(Upto(entries, i, j))
      {
        var s := entry.seqs[j];
        OneMoreUpto(entries, i, j);
        SeePair(seen, Upto(entries, i, j), Pair(s, entry.cmd));
        if s in seen && seen[s] != entry.cmd {
          warnings := warnings + [Collision(s, seen[s], entry.cmd)];
        }
        seen := seen[s := entry.cmd];
      }
    }
    assert entries[..|entries|] == entries;
  }

  /** The bindings before the j-th sequence of row i. */
  ghost function Upto(entries: seq<Entry>, i: nat, j: nat): seq<Pair>
    requires i < |entries| && j <= |entries[i].seqs|
  {
    Pairs(entries[..i]) + PairsOf(entries[i].cmd, entries[i].seqs[..j])
  }

  lemma NothingSeen(entries: seq<Entry>)
    ensures Owns(map[], Pairs(entries[..0])) && Collisions(Pairs(entries[..0])) == []
  {
  }

  lemma RowEnds(entries: seq<Entry>, i: nat)
    requires i < |entries|
    ensures Upto(entries, i, 0) == Pairs(entries[..i])
    ensures Upto(entries, i, |entries[i].seqs|) == Pairs(entries[..i + 1])
  {
    OneMoreEntry(entries, i);
    var e := entries[i];
    assert e.seqs[..0] == [] && e.seqs[..|e.seqs|] == e.seqs;
    assert PairsOf(e.cmd, []) == [];
  }

  lemma OneMoreUpto(entries: seq<Entry>, i: nat, j: nat)
    requires i < |entries| && j < |entries[i].seqs|
    ensures Upto(entries, i, j + 1) == Upto(entries, i, j) + [Pair(entries[i].seqs[j], entries[i].cmd)]
  {
    OneMorePair(entries[i].cmd, entries[i].seqs, j);
  }

  /** What one more binding does to the map and to the warnings. */
  lemma SeePair(seen: map<KeySeq, Command>, ps: seq<Pair>, p: Pair)
    requires Owns(seen, ps)
    ensures Owns(seen[p.keys := p.cmd], ps + [p])
    ensures Collisions(ps + [p]) ==
            if p.keys in seen && seen[p.keys] != p.cmd then Collisions(ps) + [Collision(p.keys, seen[p.keys], p.cmd)]
            else Collisions(ps)
  {
    hide Owns, Collisions, Owner;
    OwnsOneMore(seen, ps, p);
    CollisionsOneMore(ps, p);
    SeenIsOwner(seen, ps, p.keys);
  }

  lemma SeenIsOwner(seen: map<KeySeq, Command>, ps: seq<Pair>, s: KeySeq)
    requires Owns(seen, ps)
    ensures Owner(ps, s) == if s in seen then Some(seen[s]) else None
  {
  }

  ghost predicate Warned(ws: seq<Warning>, s: KeySeq) {
    exists w :: w in ws && w.Collision? && w.keys == s
  }

  /** A sequence draws a collision warning exactly when two different commands list it. */
  lemma {:induction false} WarnedIffShared(ps: seq<Pair>, s: KeySeq)
    ensures Warned(Collisions(ps), s) <==> exists p, q :: p in ps && q in ps && p.keys == s && q.keys == s && p.cmd != q.cmd
  {
    if ps != [] {
      var rest, last := ps[..|ps| - 1], ps[|ps| - 1];
      WarnedIffShared(rest, s);
      OwnedIsListed(rest, s);
      CollisionsOneMore(rest, last);
      assert ps == rest + [last];
      hide Collisions, Owner;
      var o := Owner(rest, last.keys);
      if last.keys == s && o.Some? && o.value != last.cmd {
        assert Collision(s, o.value, last.cmd) in Collisions(ps);
        assert Pair(s, o.value) in ps && last in ps;
      }
      assert forall w :: w in Collisions(rest) ==> w in Collisions(ps);
      assert forall w :: w in Collisions(ps) && w !in Collisions(rest) ==>
               o.Some? && o.value != last.cmd && w == Collision(last.keys, o.value, last.cmd);
    }
  }

  // Which of the warnings about one sequence are right.

  /** The collision warnings about one sequence. */
  function About(ws: seq<Warning>, s: KeySeq): (r: seq<Warning>)
    ensures forall w :: w in r ==> w.Collision? && w.keys == s
  {
    if ws == [] then []
    else
      var w := ws[|ws| - 1];
      About(ws[..|ws| - 1], s) + if w.Collision? && w.keys == s then [w] else []
  }

  lemma AboutOneMore(ws: seq<Warning>, w: Warning, s: KeySeq)
    ensures About(ws + [w], s) == About(ws, s) + if w.Collision? && w.keys == s then [w] else []
  {
    assert (ws + [w])[..|ws|] == ws;
  }

  lemma {:induction false} AboutHolds(ws: seq<Warning>, s: KeySeq, w: Warning)
    ensures w in About(ws, s) <==> w in ws && w.Collision? && w.keys == s
  {
    if ws != [] {
      AboutHolds(ws[..|ws| - 1], s, w);
      assert ws == ws[..|ws| - 1] + [ws[|ws| - 1]];
    }
  }

  /** The commands that list a sequence, in table order. */
  function Claimants(entries: seq<Entry>, s: KeySeq): seq<Command> {
    if entries == [] then []
    else
      var e := entries[|entries| - 1];
      Claimants(entries[..|entries| - 1], s) + if s in e.seqs then [e.cmd] else []
  }

  lemma {:induction false} ClaimantsList(entries: seq<Entry>, s: KeySeq, c: Command)
    ensures c in Claimants(entries, s) <==> exists i :: 0 <= i < |entries| && Lists(entries[i], Pair(s, c))
  {
    if entries != [] {
      var rest, last := entries[..|entries| - 1], entries[|entries| - 1];
      ClaimantsList(rest, s, c);
      SomeListsOneMore(rest, last, Pair(s, c));
      assert entries == rest + [last];
      assert SomeLists(entries, Pair(s, c)) <==> c in Claimants(entries, s);
    }
  }

  lemma {:induction false} ClaimantsDistinct(entries: seq<Entry>, s: KeySeq)
    requires DistinctCommands(entries)
    ensures Distinct(Claimants(entries, s))
  {
    if entries != [] {
      var n := |entries| - 1;
      ClaimantsDistinct(entries[..n], s);
      ClaimantsList(entries[..n], s, entries[n].cmd);
    }
  }

  /** One warning for each claimant after the first: it takes the sequence from the one before. */
  function Takeovers(cs: seq<Command>, s: KeySeq): seq<Warning> {
    if |cs| <= 1 then [] else Takeovers(cs[..|cs| - 1], s) + [Collision(s, cs[|cs| - 2], cs[|cs| - 1])]
  }

  lemma TakeoversOneMore(cs: seq<Command>, c: Command, s: KeySeq)
    ensures Takeovers(cs + [c], s) == if cs == [] then [] else Takeovers(cs, s) + [Collision(s, cs[|cs| - 1], c)]
  {
    assert (cs + [c])[..|cs|] == cs;
  }

  lemma {:induction false} TakeoverAt(cs: seq<Command>, s: KeySeq, k: nat)
    requires k + 1 < |cs|
    ensures |Takeovers(cs, s)| == |cs| - 1 && Takeovers(cs, s)[k] == Collision(s, cs[k], cs[k + 1])
  {
    if |cs| > 2 {
      TakeoverAt(cs[..|cs| - 1], s, if k + 2 < |cs| then k else k - 1);
    }
  }

  function LastOf(cs: seq<Command>): Option<Command> {
    if cs == [] then None else Some(cs[|cs| - 1])
  }

  /** After these bindings the claimants hold, and were warned about, as told. */
  predicate Told(ps: seq<Pair>, cs: seq<Command>, s: KeySeq) {
    Owner(ps, s) == LastOf(cs) && About(Collisions(ps), s) == Takeovers(cs, s)
  }

  lemma PairTakesOver(ps: seq<Pair>, cs: seq<Command>, p: Pair, s: KeySeq)
    requires Told(ps, cs, s)
    ensures Told(ps + [p], if p.keys == s && LastOf(cs) != Some(p.cmd) then cs + [p.cmd] else cs, s)
  {
    hide *;
    UnfoldTold(ps, cs, s);
    OwnerOneMore(ps, p, s);
    OneMoreAbout(ps, p, s);
    var more := if p.keys == s && LastOf(cs) != Some(p.cmd) then cs + [p.cmd] else cs;
    if p.keys == s {
      TakenFrom(ps, p);
      ClaimOneMore(cs, p.cmd, s);
    }
    UnfoldTold(ps + [p], more, s);
  }

  lemma UnfoldTold(ps: seq<Pair>, cs: seq<Command>, s: KeySeq)
    ensures Told(ps, cs, s) <==> Owner(ps, s) == LastOf(cs) && About(Collisions(ps), s) == Takeovers(cs, s)
  {
  }

  /** A claimant more is told of, and holds, as defined. */
  lemma ClaimOneMore(cs: seq<Command>, c: Command, s: KeySeq)
    ensures LastOf(cs + [c]) == Some(c)
    ensures Takeovers(cs + [c], s) ==
            Takeovers(cs, s) + if LastOf(cs).Some? then [Collision(s, LastOf(cs).value, c)] else []
  {
    TakeoversOneMore(cs, c, s);
  }

  /** The warning that one more binding gives rise to. */
  function Taken(ps: seq<Pair>, p: Pair): seq<Warning> {
    match Owner(ps, p.keys)
    case Some(prev) => if prev != p.cmd then [Collision(p.keys, prev, p.cmd)] else []
    case None => []
  }

  lemma TakenFrom(ps: seq<Pair>, p: Pair)
    ensures var o := Owner(ps, p.keys);
            Taken(ps, p) == if o.Some? && o != Some(p.cmd) then [Collision(p.keys, o.value, p.cmd)] else []
  {
  }

  lemma OneMoreAbout(ps: seq<Pair>, p: Pair, s: KeySeq)
    ensures About(Collisions(ps + [p]), s) == About(Collisions(ps), s) + if p.keys == s then Taken(ps, p) else []
  {
    CollisionsOneMore(ps, p);
    AboutNothing(Collisions(ps), s);
    if Taken(ps, p) != [] {
      AboutOneMore(Collisions(ps), Taken(ps, p)[0], s);
    }
    hide Owner, About, Collisions;
  }

  /** One row of the table: its command claims the sequence once, however often it lists it. */
  lemma {:induction false} RowTakesOver(ps: seq<Pair>, cs: seq<Command>, cmd: Command, seqs: seq<KeySeq>, s: KeySeq)
    requires Told(ps, cs, s) && cmd !in cs
    ensures Told(ps + PairsOf(cmd, seqs), if s in seqs then cs + [cmd] else cs, s)
  {
    if seqs == [] {
      assert ps + [] == ps;
    } else {
      hide Told, PairsOf;
      var init, last := seqs[..|seqs| - 1], seqs[|seqs| - 1];
      RowTakesOver(ps, cs, cmd, init, s);
      LastPairOf(ps, cmd, seqs, s);
      LastOfNew(cs, cmd);
      PairTakesOver(ps + PairsOf(cmd, init), if s in init then cs + [cmd] else cs, Pair(last, cmd), s);
    }
  }

  lemma LastPairOf(ps: seq<Pair>, cmd: Command, seqs: seq<KeySeq>, s: KeySeq)
    requires seqs != []
    ensures var init, last := seqs[..|seqs| - 1], seqs[|seqs| - 1];
            && ps + PairsOf(cmd, seqs) == ps + PairsOf(cmd, init) + [Pair(last, cmd)]
            && (s in seqs <==> s in init || s == last)
  {
    assert seqs == seqs[..|seqs| - 1] + [seqs[|seqs| - 1]];
  }

  lemma LastOfNew(cs: seq<Command>, cmd: Command)
    ensures LastOf(cs + [cmd]) == Some(cmd) && (cmd !in cs ==> LastOf(cs) != Some(cmd))
  {
  }

  lemma AboutNothing(ws: seq<Warning>, s: KeySeq)
    ensures ws + [] == ws && About(ws + [], s) == About(ws, s)
  {
    assert ws + [] == ws;
  }

  lemma OwnerOneMore(ps: seq<Pair>, p: Pair, s: KeySeq)
    ensures Owner(ps + [p], s) == if p.keys == s then Some(p.cmd) else Owner(ps, s)
  {
    assert (ps + [p])[..|ps|] == ps;
  }

  /** The warnings about a sequence are exactly the takeovers among its claimants, and the last of them holds it. */
  lemma {:induction false} WarningsAreTakeovers(entries: seq<Entry>, s: KeySeq)
    requires DistinctCommands(entries)
    ensures Told(Pairs(entries), Claimants(entries, s), s)
  {
    if entries != [] {
      var rest, last := entries[..|entries| - 1], entries[|entries| - 1];
      WarningsAreTakeovers(rest, s);
      ClaimantsList(rest, s, last.cmd);
      hide Told;
      RowTakesOver(Pairs(rest), Claimants(rest, s), last.cmd, last.seqs, s);
      assert Claimants(rest, s) + [] == Claimants(rest, s);
    }
  }

  /** Whatever the list, the last warning about a sequence names the command that holds it. */
  lemma {:induction false} LastWarningNamesTheOwner(ps: seq<Pair>, s: KeySeq)
    ensures var ws := About(Collisions(ps), s); ws != [] ==> Owner(ps, s) == Some(ws[|ws| - 1].winner)
  {
    if ps != [] {
      var rest, last := ps[..|ps| - 1], ps[|ps| - 1];
      LastWarningNamesTheOwner(rest, s);
      assert ps == rest + [last];
      CollisionsOneMore(rest, last);
      AboutNothing(Collisions(rest), s);
      match Owner(rest, last.keys)
      case Some(prev) => AboutOneMore(Collisions(rest), Collision(last.keys, prev, last.cmd), s);
      case None =>
    }
  }

  /** A collision warning tells the truth when the winner it names holds the sequence. */
  predicate TellsTheTruth(entries: seq<Entry>, w: Warning) {
    w.Collision? && Owner(Pairs(entries), w.keys) == Some(w.winner)
  }

  /** Of the warnings about one sequence, the last names its holder and every earlier one names a loser. */
  lemma OnlyTheLastWarningIsRight(entries: seq<Entry>, s: KeySeq, k: nat)
    requires DistinctCommands(entries) && k < |About(Collisions(Pairs(entries)), s)|
    ensures var ws := About(Collisions(Pairs(entries)), s);
            TellsTheTruth(entries, ws[k]) <==> k == |ws| - 1
  {
    var cs := Claimants(entries, s);
    WarningsAreTakeovers(entries, s);
    ClaimantsDistinct(entries, s);
    hide Claimants, About, Collisions, Owner, Pairs;
    if |cs| > 1 {
      TakeoverAt(cs, s, 0);
      if k + 1 < |cs| {
        TakeoverAt(cs, s, k);
      }
    }
  }

  /** Every warning about a sequence is right exactly when at most two commands list it. */
  lemma WarningsRightIff(entries: seq<Entry>, s: KeySeq)
    requires DistinctCommands(entries)
    ensures (forall w :: w in Collisions(Pairs(entries)) && w.Collision? && w.keys == s ==> TellsTheTruth(entries, w)) <==>
            |Claimants(entries, s)| <= 2
  {
    var ws, cs := About(Collisions(Pairs(entries)), s), Claimants(entries, s);
    WarningsAreTakeovers(entries, s);
    forall w
      ensures w in ws <==> w in Collisions(Pairs(entries)) && w.Collision? && w.keys == s
    {
      AboutHolds(Collisions(Pairs(entries)), s, w);
    }
    if |cs| > 1 {
      TakeoverAt(cs, s, 0);
    }
    hide Claimants, About, Collisions, Owner, Pairs, TellsTheTruth;
    if |cs| > 2 {
      OnlyTheLastWarningIsRight(entries, s, 0);
      assert ws[0] in ws;
    } else {
      forall w | w in ws
        ensures TellsTheTruth(entries, w)
      {
        var k :| 0 <= k < |ws| && ws[k] == w;
        assert |ws| == 1;
        OnlyTheLastWarningIsRight(entries, s, k);
      }
    }
  }

  lemma {:induction false} WinnersHold(ps: seq<Pair>, bySeq: map<KeySeq, Command>, p: Pair)
    ensures p in Winners(ps, bySeq) <==> p in ps && p.keys in bySeq && bySeq[p.keys] == p.cmd
  {
    if ps != [] {
      WinnersHold(ps[..|ps| - 1], bySeq, p);
      assert ps == ps[..|ps| - 1] + [ps[|ps| - 1]];
    }
  }

  /** A binding is warned unreachable exactly when it is bound and some longer binding continues it. */
  method FindUnreachable(km: Keymap, ghost ps: seq<Pair>) returns (warnings: seq<Warning>)
    requires Owns(km.bySeq, ps) && km.PrefixesExact() && km.ordered == Winners(ps, km.bySeq)
    ensures forall w :: w in warnings <==>
              w.Unreachable? && w.keys in km.bySeq && km.bySeq[w.keys] == w.cmd && km.Continued(w.keys)
  {
    warnings := [];
    for i := 0 to |km.ordered|
      invariant forall w :: w in warnings <==>
                  w.Unreachable? && Pair(w.keys, w.cmd) in km.ordered[..i] && w.keys in km.prefixes
    {
      var p := km.ordered[i];
      assert km.ordered[..i + 1] == km.ordered[..i] + [p];
      if |p.keys| < 3 && p.keys in km.prefixes {
        warnings := warnings + [Unreachable(p.keys, p.cmd)];
      }
      assert p.keys in km.prefixes ==> |p.keys| < 3;
    }
    assert km.ordered[..|km.ordered|] == km.ordered;
    forall w: Warning | w.Unreachable?
      ensures Pair(w.keys, w.cmd) in km.ordered <==> w.keys in km.bySeq && km.bySeq[w.keys] == w.cmd
    {
      WinnersHold(ps, km.bySeq, Pair(w.keys, w.cmd));
      OwnedIsListed(ps, w.keys);
    }
  }

  function AllKeys(overrides: map<Command, seq<KeySeq>>): (claimed: set<KeySeq>)
    ensures forall s: KeySeq :: s in claimed <==> IsClaimed(overrides, s)
  {
    set cmd, s | cmd in overrides && s in overrides[cmd] :: s
  }

  /** The whole of `from_config`; `ids` is the order in which the hash map happens to be walked. */
  method FromConfig(table: seq<Entry>, cfg: Config, ids: seq<string>)
    returns (km: Keymap, warnings: seq<Warning>, ghost overrides: map<Command, seq<KeySeq>>)
    requires Elems(ids) == cfg.Keys && Distinct(ids) && Known(table, CLOSE_SESSION)
    ensures Overrides(table, cfg, cfg.Keys, overrides)
    ensures Owns(km.bySeq, Pairs(Overlay(table, overrides, AllKeys(overrides)))) && km.PrefixesExact()
    ensures km.ordered == Winners(Pairs(Overlay(table, overrides, AllKeys(overrides))), km.bySeq)
    ensures forall w: Warning :: w in warnings <==>
              || Complaint(table, cfg, cfg.Keys, w)
              || w in Collisions(Pairs(Overlay(table, overrides, AllKeys(overrides))))
              || (w.Unreachable? && w.keys in km.bySeq && km.bySeq[w.keys] == w.cmd && km.Continued(w.keys))
  {
    var chosen, complaints := ReadConfig(table, cfg, ids);
    overrides := chosen;
    var claimed := AllKeys(chosen);
    var entries := OverlayTable(table, chosen, claimed);
    hide *;
    var collisions := FindCollisions(entries);
    km := Build(entries);
    var unreachable := FindUnreachable(km, Pairs(entries));
    warnings := complaints + collisions + unreachable;
    assert forall w :: w in warnings <==> w in complaints || w in collisions || w in unreachable;
  }

  method OverlayTable(table: seq<Entry>, overrides: map<Command, seq<KeySeq>>, claimed: set<KeySeq>)
    returns (entries: seq<Entry>)
    ensures entries == Overlay(table, overrides, claimed)
  {
    entries := [];
    for i := 0 to |table|
      invariant |entries| == i && forall j :: 0 <= j < i ==> entries[j] == OverlayEntry(table[j], overrides, claimed)
    {
      hide Unclaimed;
      var cmd := table[i].cmd;
      if cmd in overrides {
        entries := entries + [Entry(cmd, overrides[cmd])];
      } else {
        var kept := KeepUnclaimed(table[i].seqs, claimed);
        entries := entries + [Entry(cmd, kept)];
      }
    }
  }

  method KeepUnclaimed(seqs: seq<KeySeq>, claimed: set<KeySeq>) returns (kept: seq<KeySeq>)
    ensures kept == Unclaimed(seqs, claimed)
  {
    kept := [];
    for i := 0 to |seqs|
      invariant kept == Unclaimed(seqs[..i], claimed)
    {
      assert seqs[..i + 1][..i] == seqs[..i];
      if seqs[i] !in claimed {
        kept := kept + [seqs[i]];
      }
    }
    assert seqs[..|seqs|] == seqs;
  }

  const THREE: seq<Entry> := [Entry(CLOSE_SESSION, []), Entry("next", []), Entry("prev", [])]

  /** A configuration that binds three commands to one key draws a warning whose winner does not get it. */
  method ThreeClaimants(s: KeySeq) returns (km: Keymap, warnings: seq<Warning>)
    requires CTRL_C !in s
    ensures Collision(s, CLOSE_SESSION, "next") in warnings && km.Lookup(s) == Some("prev")
  {
    var key: Key := seq(|s|, i requires 0 <= i < |s| => Some(s[i]));
    var cfg: Config := map[CLOSE_SESSION := [key], "next" := [key], "prev" := [key]];
    var ids := [CLOSE_SESSION, "next", "prev"];
    assert Elems(ids) == cfg.Keys;
    assert THREE[0].cmd == CLOSE_SESSION;
    hide Overrides, Owns, Overlay, Pairs, AllKeys, Collisions, Complaint;
    ghost var overrides: map<Command, seq<KeySeq>>;
    km, warnings, overrides := FromConfig(THREE, cfg, ids);
    ThreeOverrides(cfg, overrides, s, key);
    ThreeClaim(overrides, s);
    SeenIsOwner(km.bySeq, Pairs(Overlay(THREE, overrides, AllKeys(overrides))), s);
  }

  lemma ThreeOverrides(cfg: Config, overrides: map<Command, seq<KeySeq>>, s: KeySeq, key: Key)
    requires cfg == map[CLOSE_SESSION := [key], "next" := [key], "prev" := [key]]
    requires |key| == |s| && forall i :: 0 <= i < |s| ==> key[i] == Some(s[i])
    requires CTRL_C !in s && Overrides(THREE, cfg, cfg.Keys, overrides)
    ensures forall i :: 0 <= i < 3 ==> THREE[i].cmd in overrides && overrides[THREE[i].cmd] == [s]
  {
    assert Parsed(key) == s;
    forall i | 0 <= i < 3
      ensures THREE[i].cmd in overrides && overrides[THREE[i].cmd] == [s]
    {
      var cmd := THREE[i].cmd;
      assert Known(THREE, cmd) && Decider(cfg, cmd) == Some(cmd);
      assert [key][..0] == [];
      assert Accepted(cmd, [key]) == [s];
    }
  }

  lemma ThreeClaim(overrides: map<Command, seq<KeySeq>>, s: KeySeq)
    requires forall i :: 0 <= i < 3 ==> THREE[i].cmd in overrides && overrides[THREE[i].cmd] == [s]
    ensures var entries := Overlay(THREE, overrides, AllKeys(overrides));
            Collision(s, CLOSE_SESSION, "next") in Collisions(Pairs(entries)) && Owner(Pairs(entries), s) == Some("prev")
  {
    var entries := Overlay(THREE, overrides, AllKeys(overrides));
    assert |entries| == 3 && forall i :: 0 <= i < 3 ==> entries[i] == Entry(THREE[i].cmd, [s]) by {
      hide AllKeys;
    }
    hide Overlay, AllKeys, Pairs, Collisions, Owner;
    ThreeListed(entries, s);
    WarningsAreTakeovers(entries, s);
    TakeoverAt(Claimants(entries, s), s, 0);
    AboutHolds(Collisions(Pairs(entries)), s, Collision(s, CLOSE_SESSION, "next"));
  }

  lemma ThreeListed(entries: seq<Entry>, s: KeySeq)
    requires |entries| == 3 && forall i :: 0 <= i < 3 ==> entries[i] == Entry(THREE[i].cmd, [s])
    ensures Claimants(entries, s) == [CLOSE_SESSION, "next", "prev"]
  {
    assert entries[..2][..1] == [entries[0]] && entries[..1][..0] == [];
    assert Claimants(entries[..1], s) == [CLOSE_SESSION] by {
      assert THREE[0].cmd == CLOSE_SESSION;
    }
    assert entries[..2][..1] == entries[..1];
    assert Claimants(entries[..2], s) == [CLOSE_SESSION, "next"];
  }
}
