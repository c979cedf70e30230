// Models src/ssh_forward.rs and HostConfig::migrate_forwards of
// src/app/hosts.rs: SSH forwarding switches, specs and rules. Arguments arrive
// as token lists; quoting belongs to the shell-words library.
module SshForward {
  import opened Common
  import opened Options

  datatype Forward = Forward(flag: string, spec: string)

  datatype Rule = Rule(name: string, disabled: bool, forward: Forward)

  datatype TcpForward = TcpForward(bind: string, port: string, destination: string, destinationPort: string)

  datatype Problem =
    | ListenPort
    | BindAddress
    | DestinationPort
    | DestinationAddress
    | UnknownFlag
    | BadSpec
    | AutomaticPort
    | ListenerTaken(forward: Forward)
    | NotForwarding(rest: seq<string>)
    | NothingToImport

  function FromForward(f: Forward): Rule {
    Rule("", false, f)
  }

  // ---------------------------------------------------------------------
  // Switches among other options
  // ---------------------------------------------------------------------

  predicate IsForwardFlag(arg: string) {
    arg == "-L" || arg == "-R" || arg == "-D"
  }

  predicate TakesOperand(arg: string) {
    arg in ["-B", "-b", "-c", "-E", "-e", "-F", "-I", "-i", "-J", "-l", "-m", "-O", "-o", "-p", "-Q", "-S", "-W", "-w"]
  }

  predicate IsGlued(arg: string)
    ensures IsGlued(arg) ==> |arg| > 2
  {
    |arg| > 2 && IsForwardFlag(arg[..2])
  }

  /** How ssh reads its arguments: a forward in two tokens or one, or an option with its operand. */
  datatype Piece = Split(forward: Forward) | Glued(forward: Forward) | Plain(tokens: seq<string>)

  function Tokens(p: Piece): seq<string> {
    match p
    case Split(f) => [f.flag, f.spec]
    case Glued(f) => [f.flag + f.spec]
    case Plain(tokens) => tokens
  }

  /** The first piece of a nonempty argument list. */
  function Head(args: seq<string>): (p: Piece)
    requires args != []
    ensures Tokens(p) <= args && |Tokens(p)| > 0
  {
    var arg := args[0];
    if IsForwardFlag(arg) then if |args| > 1 then Split(Forward(arg, args[1])) else Plain([arg])
    else if IsGlued(arg) then
      assert arg[..2] + arg[2..] == arg;
      Glued(Forward(arg[..2], arg[2..]))
    else if TakesOperand(arg) && |args| > 1 then Plain([arg, args[1]])
    else Plain([arg])
  }

  function Pieces(args: seq<string>): seq<Piece>
    decreases |args|
  {
    if args == [] then [] else [Head(args)] + Pieces(args[|Tokens(Head(args))|..])
  }

  function AllTokens(ps: seq<Piece>): seq<string> {
    if ps == [] then [] else Tokens(ps[0]) + AllTokens(ps[1..])
  }

  function OptionsOf(ps: seq<Piece>): seq<string> {
    if ps == [] then [] else (if ps[0].Plain? then ps[0].tokens else []) + OptionsOf(ps[1..])
  }

  function ForwardsOf(ps: seq<Piece>): seq<Forward> {
    if ps == [] then [] else (if ps[0].Plain? then [] else [ps[0].forward]) + ForwardsOf(ps[1..])
  }

  lemma FirstPiece(args: seq<string>)
    requires args != []
    ensures Pieces(args) == [Head(args)] + Pieces(args[|Tokens(Head(args))|..])
  {
  }

  method SplitOptions(args: seq<string>) returns (options: seq<string>, forwards: seq<Forward>)
    ensures options == OptionsOf(Pieces(args)) && forwards == ForwardsOf(Pieces(args))
  {
    hide *;
    options, forwards := [], [];
    var rest := args;
    NoPieces();
    while rest != []
      invariant OptionsOf(Pieces(args)) == options + OptionsOf(Pieces(rest))
      invariant ForwardsOf(Pieces(args)) == forwards + ForwardsOf(Pieces(rest))
      decreases |rest|
    {
      StepOver(options, forwards, rest);
      var arg := rest[0];
      HeadIs(rest);
      if IsForwardFlag(arg) {
        if |rest| > 1 {
          forwards := forwards + [Forward(arg, rest[1])];
          rest := rest[2..];
        } else {
          options := options + [arg];
          rest := rest[1..];
        }
      } else if IsGlued(arg) {
        forwards := forwards + [Forward(arg[..2], arg[2..])];
        rest := rest[1..];
      } else if TakesOperand(arg) && |rest| > 1 {
        options := options + [arg, rest[1]];
        rest := rest[2..];
      } else {
        options := options + [arg];
        rest := rest[1..];
      }
    }
  }

  /** The letters of ssh's switches that take a value, the forwarding ones aside. */
  const VALUED := "BbcEeFIiJlmOopQSWw"

  predicate Valued(arg: string) {
    |arg| == 2 && arg[0] == '-' && exists i :: 0 <= i < |VALUED| && VALUED[i] == arg[1]
  }

  lemma ValuedIs(arg: string)
    ensures TakesOperand(arg) <==> Valued(arg)
    ensures TakesOperand(arg) ==> !IsForwardFlag(arg) && !IsGlued(arg)
  {
    var all := ["-B", "-b", "-c", "-E", "-e", "-F", "-I", "-i", "-J", "-l", "-m", "-O", "-o", "-p", "-Q", "-S", "-W", "-w"];
    LettersOf(all);
    assert TakesOperand(arg) <==> arg in all;
    hide TakesOperand;
    if arg in all {
      var i :| 0 <= i < |all| && all[i] == arg;
      assert VALUED[i] == arg[1];
    }
    if Valued(arg) {
      var i :| 0 <= i < |VALUED| && VALUED[i] == arg[1];
      assert arg == all[i];
    }
    OtherLetters();
  }

  lemma LettersOf(all: seq<string>)
    requires all == ["-B", "-b", "-c", "-E", "-e", "-F", "-I", "-i", "-J",
                     "-l", "-m", "-O", "-o", "-p", "-Q", "-S", "-W", "-w"]
    ensures |all| == |VALUED| && forall i :: 0 <= i < |all| ==> all[i] == ['-', VALUED[i]]
  {
    assert forall i :: 0 <= i < 6 ==> all[i] == ['-', VALUED[i]];
    assert forall i :: 6 <= i < 12 ==> all[i] == ['-', VALUED[i]];
    assert forall i :: 12 <= i < 18 ==> all[i] == ['-', VALUED[i]];
  }

  lemma OtherLetters()
    ensures forall i :: 0 <= i < |VALUED| ==> VALUED[i] != 'L' && VALUED[i] != 'R' && VALUED[i] != 'D'
  {
  }

  /** A forwarding switch takes the next token or what is glued to it; a valued one keeps its value from being read. */
  lemma SwitchesMean(arg: string, value: string, rest: seq<string>)
    ensures var args := [arg, value] + rest;
            var taken := Forward(arg, value);
            if arg in {"-L", "-R", "-D"} then
              && OptionsOf(Pieces(args)) == OptionsOf(Pieces(rest))
              && ForwardsOf(Pieces(args)) == [taken] + ForwardsOf(Pieces(rest))
            else if Valued(arg) then
              && OptionsOf(Pieces(args)) == [arg, value] + OptionsOf(Pieces(rest))
              && ForwardsOf(Pieces(args)) == ForwardsOf(Pieces(rest))
            else if |arg| > 2 && arg[..2] in {"-L", "-R", "-D"} then
              && OptionsOf(Pieces(args)) == OptionsOf(Pieces([value] + rest))
              && ForwardsOf(Pieces(args)) == [Forward(arg[..2], arg[2..])] + ForwardsOf(Pieces([value] + rest))
            else
              && OptionsOf(Pieces(args)) == [arg] + OptionsOf(Pieces([value] + rest))
              && ForwardsOf(Pieces(args)) == ForwardsOf(Pieces([value] + rest))
  {
    hide Pieces, OptionsOf, ForwardsOf, Head, Tokens, Valued, TakesOperand;
    var args := [arg, value] + rest;
    ValuedIs(arg);
    assert args[0] == arg && args[1] == value && args[2..] == rest && args[1..] == [value] + rest;
    HeadIs(args);
    FirstPieceMeans(args);
  }

  lemma FirstPieceMeans(args: seq<string>)
    requires args != []
    ensures var p := Head(args); var after := Pieces(args[|Tokens(p)|..]);
            && OptionsOf(Pieces(args)) == (if p.Plain? then p.tokens + OptionsOf(after) else OptionsOf(after))
            && ForwardsOf(Pieces(args)) == (if p.Plain? then ForwardsOf(after) else [p.forward] + ForwardsOf(after))
  {
    FirstPiece(args);
    OnePiece(Head(args), Pieces(args[|Tokens(Head(args))|..]));
    hide Pieces, OptionsOf, ForwardsOf, Head, Tokens;
  }

  /** The last token: a forwarding switch without its value stays an option. */
  lemma LastTokenMeans(arg: string)
    ensures if |arg| > 2 && arg[..2] in {"-L", "-R", "-D"} then
              OptionsOf(Pieces([arg])) == [] && ForwardsOf(Pieces([arg])) == [Forward(arg[..2], arg[2..])]
            else OptionsOf(Pieces([arg])) == [arg] && ForwardsOf(Pieces([arg])) == []
  {
    var args := [arg];
    HeadIs(args);
    StepOver([], [], args);
    NoPieces();
    assert args[1..] == [];
    hide Pieces, OptionsOf, ForwardsOf, Head, Tokens;
  }

  /** A key file named "-Local" is not a forward. */
  lemma KeyFileIsNotAForward()
    ensures OptionsOf(Pieces(["-i", "-Local"])) == ["-i", "-Local"] && ForwardsOf(Pieces(["-i", "-Local"])) == []
  {
    assert VALUED[7] == 'i';
    SwitchesMean("-i", "-Local", []);
    NoPieces();
    assert ["-i", "-Local"] + [] == ["-i", "-Local"];
  }

  lemma NoPieces()
    ensures OptionsOf(Pieces([])) == [] && ForwardsOf(Pieces([])) == []
  {
  }

  /** The first piece, by the branch that finds it. */
  lemma HeadIs(rest: seq<string>)
    requires rest != []
    ensures var arg := rest[0]; var p := Head(rest);
            if IsForwardFlag(arg) then
              if |rest| > 1 then p == Split(Forward(arg, rest[1])) && |Tokens(p)| == 2
              else p == Plain([arg]) && |Tokens(p)| == 1
            else if IsGlued(arg) then |arg| > 2 && p == Glued(Forward(arg[..2], arg[2..])) && |Tokens(p)| == 1
            else if TakesOperand(arg) && |rest| > 1 then p == Plain([arg, rest[1]]) && |Tokens(p)| == 2
            else p == Plain([arg]) && |Tokens(p)| == 1
  {
  }

  lemma StepOver(options: seq<string>, forwards: seq<Forward>, rest: seq<string>)
    requires rest != []
    ensures var p := Head(rest); var after := Pieces(rest[|Tokens(p)|..]);
            && options + OptionsOf(Pieces(rest)) == (if p.Plain? then options + p.tokens else options) + OptionsOf(after)
            && forwards + ForwardsOf(Pieces(rest)) ==
               (if p.Plain? then forwards else forwards + [p.forward]) + ForwardsOf(after)
  {
    var p := Head(rest);
    var after := Pieces(rest[|Tokens(p)|..]);
    FirstPiece(rest);
    OnePiece(p, after);
    hide Head, Tokens, Pieces, OptionsOf, ForwardsOf;
    Regroup(options, if p.Plain? then p.tokens else [], OptionsOf(after));
    Regroup(forwards, if p.Plain? then [] else [p.forward], ForwardsOf(after));
  }

  lemma Regroup<T>(a: seq<T>, b: seq<T>, c: seq<T>)
    ensures a + (b + c) == (a + b) + c
    ensures b == [] ==> a + b == a
  {
  }

  lemma OnePiece(p: Piece, rest: seq<Piece>)
    ensures OptionsOf([p] + rest) == (if p.Plain? then p.tokens else []) + OptionsOf(rest)
    ensures ForwardsOf([p] + rest) == (if p.Plain? then [] else [p.forward]) + ForwardsOf(rest)
    ensures AllTokens([p] + rest) == Tokens(p) + AllTokens(rest)
  {
    assert ([p] + rest)[1..] == rest;
  }

  lemma HeadThenRest(args: seq<string>)
    requires args != []
    ensures Tokens(Head(args)) + args[|Tokens(Head(args))|..] == args
  {
    hide Head, Tokens;
  }

  /** Nothing is lost or reordered: the pieces, written out, are the arguments. */
  lemma {:induction false} NothingIsLost(args: seq<string>)
    ensures AllTokens(Pieces(args)) == args
    decreases |args|
  {
    if args != [] {
      FirstPiece(args);
      HeadThenRest(args);
      hide Pieces, Head, Tokens, AllTokens;
      var rest := args[|Tokens(Head(args))|..];
      NothingIsLost(rest);
      OnePiece(Head(args), Pieces(rest));
    }
  }

  /** The options that are left contain no forward, and splitting them again changes nothing. */
  lemma {:induction false} SplittingOptionsAgain(args: seq<string>)
    ensures OptionsOf(Pieces(OptionsOf(Pieces(args)))) == OptionsOf(Pieces(args))
    ensures ForwardsOf(Pieces(OptionsOf(Pieces(args)))) == []
    decreases |args|
  {
    if args != [] {
      var p := Head(args);
      var rest := args[|Tokens(p)|..];
      SplittingOptionsAgain(rest);
      FirstPiece(args);
      OnePiece(p, Pieces(rest));
      var left := OptionsOf(Pieces(rest));
      var all := OptionsOf(Pieces(args));
      if p.Plain? {
        assert all == p.tokens + left;
        SameHead(args, left);
        FirstPiece(all);
        assert all[|p.tokens|..] == left;
        hide Head, Tokens, OptionsOf, ForwardsOf, Pieces;
        OnePiece(p, Pieces(left));
      } else {
        assert [] + left == left;
      }
    }
  }

  /** An option keeps its operand whatever follows; one without an operand ends the list. */
  lemma SameHead(args: seq<string>, left: seq<string>)
    requires args != [] && Head(args).Plain?
    requires |args| == |Head(args).tokens| ==> left == []
    ensures Head(Head(args).tokens + left) == Head(args)
  {
    hide IsForwardFlag, IsGlued, TakesOperand;
    assert (Head(args).tokens + left)[0] == args[0];
  }

  /** The switches of a list of forwards, each as two tokens. */
  function Switches(fs: seq<Forward>): seq<string> {
    if fs == [] then [] else [fs[0].flag, fs[0].spec] + Switches(fs[1..])
  }

  /** Written out and split again, a list of forwards comes back whole, whatever the specs say. */
  lemma {:induction false} SwitchesRoundTrip(fs: seq<Forward>)
    requires forall i :: 0 <= i < |fs| ==> IsForwardFlag(fs[i].flag)
    ensures OptionsOf(Pieces(Switches(fs))) == [] && ForwardsOf(Pieces(Switches(fs))) == fs
  {
    if fs != [] {
      SwitchesRoundTrip(fs[1..]);
      var args := Switches(fs);
      assert Head(args) == Split(fs[0]);
      assert args[2..] == Switches(fs[1..]);
      OnePiece(Split(fs[0]), Pieces(args[2..]));
    }
  }

  // ---------------------------------------------------------------------
  // Migrating a host
  // ---------------------------------------------------------------------

  predicate Has(rules: seq<Rule>, f: Forward) {
    exists i :: 0 <= i < |rules| && rules[i].forward == f
  }

  /** The rules after adding each missing forward. */
  function Added(rules: seq<Rule>, fs: seq<Forward>): seq<Rule> {
    if fs == [] then rules
    else
      var before := Added(rules, fs[..|fs| - 1]);
      if Has(before, fs[|fs| - 1]) then before else before + [FromForward(fs[|fs| - 1])]
  }

  class HostConfig {
    var options: seq<string>
    var forwards: seq<Rule>

    constructor (options: seq<string>, forwards: seq<Rule>)
      ensures this.options == options && this.forwards == forwards
    {
      this.options, this.forwards := options, forwards;
    }

    method MigrateForwards()
      modifies this
      ensures options == OptionsOf(Pieces(old(options)))
      ensures forwards == Added(old(forwards), ForwardsOf(Pieces(old(options))))
      ensures old(forwards) <= forwards
      ensures forall f :: Has(forwards, f) <==> Has(old(forwards), f) || f in ForwardsOf(Pieces(old(options)))
      ensures forall i :: |old(forwards)| <= i < |forwards| ==> forwards[i] == FromForward(forwards[i].forward)
      ensures forall i, j :: 0 <= i < j < |forwards| && |old(forwards)| <= j ==> forwards[i].forward != forwards[j].forward
    {
      var left, found := SplitOptions(options);
      options := left;
      for i := 0 to |found|
        invariant options == left && forwards == Added(old(forwards), found[..i])
      {
        assert found[..i + 1][..i] == found[..i];
        if !Has(forwards, found[i]) {
          forwards := forwards + [FromForward(found[i])];
        }
      }
      assert found[..|found|] == found;
      AddedHolds(old(forwards), found);
    }
  }

  lemma {:induction false} AddedHolds(rules: seq<Rule>, fs: seq<Forward>)
    ensures rules <= Added(rules, fs)
    ensures forall f :: Has(Added(rules, fs), f) <==> Has(rules, f) || f in fs
    ensures forall i :: |rules| <= i < |Added(rules, fs)| ==>
              Added(rules, fs)[i] == FromForward(Added(rules, fs)[i].forward)
    ensures forall i, j :: 0 <= i < j < |Added(rules, fs)| && |rules| <= j ==>
              Added(rules, fs)[i].forward != Added(rules, fs)[j].forward
  {
    if fs != [] {
      var init, last := fs[..|fs| - 1], fs[|fs| - 1];
      AddedHolds(rules, init);
      assert fs == init + [last];
      var before := Added(rules, init);
      forall f
        ensures Has(before + [FromForward(last)], f) <==> Has(before, f) || f == last
      {
        HasOneMore(before, FromForward(last), f);
      }
    }
  }

  lemma HasOneMore(rules: seq<Rule>, r: Rule, f: Forward)
    ensures Has(rules + [r], f) <==> Has(rules, f) || r.forward == f
  {
    var all := rules + [r];
    if i :| 0 <= i < |rules| && rules[i].forward == f {
      assert all[i].forward == f;
    }
    if r.forward == f {
      assert all[|rules|].forward == f;
    }
  }

  /** Migrating twice is migrating once. */
  lemma MigrateIsIdempotent(options: seq<string>, rules: seq<Rule>)
    ensures var left := OptionsOf(Pieces(options)); var now := Added(rules, ForwardsOf(Pieces(options)));
            OptionsOf(Pieces(left)) == left && Added(now, ForwardsOf(Pieces(left))) == now
  {
    SplittingOptionsAgain(options);
  }

  // ---------------------------------------------------------------------
  // The parts of a spec
  // ---------------------------------------------------------------------

  function Prepend(c: char, ps: seq<string>): seq<string>
    requires ps != []
  {
    [[c] + ps[0]] + ps[1..]
  }

  /** Whether we are inside brackets after reading c. */
  function Inner(c: char, bracket: bool): bool {
    if c == '[' then true else if c == ']' then false else bracket
  }

  /** Split at the colons outside brackets; unmatched or nested brackets are refused. */
  function Scan(s: string, bracket: bool): (r: Option<seq<string>>)
    ensures r.Some? ==> r.value != []
  {
    if s == [] then if bracket then None else Some([""])
    else if s[0] == ':' && !bracket then
      match Scan(s[1..], false)
      case Some(ps) => Some([""] + ps)
      case None => None
    else if (s[0] == '[' && bracket) || (s[0] == ']' && !bracket) then None
    else
      match Scan(s[1..], Inner(s[0], bracket))
      case Some(ps) => Some(Prepend(s[0], ps))
      case None => None
  }

  function PartsOf(spec: string): Option<seq<string>> {
    Scan(spec, false)
  }

  /** What the scan of the rest means for parts already cut and the one being read. */
  function Resume(done: seq<string>, current: string, rest: Option<seq<string>>): Option<seq<string>>
    requires rest.Some? ==> rest.value != []
  {
    match rest
    case None => None
    case Some(ps) => Some(done + [current + ps[0]] + ps[1..])
  }

  method Parts(spec: string) returns (r: Option<seq<string>>)
    ensures r == PartsOf(spec)
  {
    var bracket, start := false, 0;
    var parts: seq<string> := [];
    ResumeStart(spec);
    for i := 0 to |spec|
      invariant 0 <= start <= i
      invariant PartsOf(spec) == Resume(parts, spec[start..i], Scan(spec[i..], bracket))
    {
      var c := spec[i];
      ResumeStep(parts, spec, start, i, bracket);
      if c == '[' && !bracket {
        bracket := true;
      } else if c == ']' && bracket {
        bracket := false;
      } else if c == ':' && !bracket {
        parts := parts + [spec[start..i]];
        start := i + 1;
      } else if c == '[' || c == ']' {
        return None;
      }
    }
    if bracket {
      return None;
    }
    assert spec[|spec|..] == "" && spec[start..|spec|] == spec[start..] && spec[start..] + "" == spec[start..];
    parts := parts + [spec[start..]];
    assert parts + [""][1..] == parts;
    return Some(parts);
  }

  lemma ResumeStart(spec: string)
    ensures PartsOf(spec) == Resume([], spec[0..0], Scan(spec[0..], false))
  {
    assert spec[0..] == spec;
    if PartsOf(spec).Some? {
      var ps := PartsOf(spec).value;
      assert spec[0..0] + ps[0] == ps[0] && [] + [ps[0]] + ps[1..] == ps;
    }
  }

  lemma ResumeStep(done: seq<string>, spec: string, start: nat, i: nat, bracket: bool)
    requires start <= i < |spec|
    ensures var c := spec[i]; var now := Resume(done, spec[start..i], Scan(spec[i..], bracket));
            if c == ':' && !bracket
            then now == Resume(done + [spec[start..i]], spec[i + 1..i + 1], Scan(spec[i + 1..], false))
            else if (c == '[' && bracket) || (c == ']' && !bracket) then now.None?
            else now == Resume(done, spec[start..i + 1],
                               Scan(spec[i + 1..], Inner(c, bracket)))
  {
    var c := spec[i];
    assert spec[i..][1..] == spec[i + 1..];
    assert spec[start..i + 1] == spec[start..i] + [c];
    if c == ':' && !bracket {
      var r := Scan(spec[i + 1..], false);
      if r.Some? {
        assert spec[start..i] + "" == spec[start..i] && spec[i + 1..i + 1] + r.value[0] == r.value[0];
        assert ([""] + r.value)[1..] == r.value;
        assert done + [spec[start..i]] + r.value == done + [spec[start..i]] + [r.value[0]] + r.value[1..];
      }
    } else if !((c == '[' && bracket) || (c == ']' && !bracket)) {
      var r := Scan(spec[i + 1..], Inner(c, bracket));
      if r.Some? {
        assert spec[start..i] + ([c] + r.value[0]) == spec[start..i + 1] + r.value[0];
      }
    }
  }

  function Join(ps: seq<string>): string
    requires ps != []
  {
    if |ps| == 1 then ps[0] else ps[0] + ":" + Join(ps[1..])
  }

  /** Joining the parts with ':' restores the spec. */
  lemma {:induction false} JoinRestores(s: string, bracket: bool)
    requires Scan(s, bracket).Some?
    ensures Join(Scan(s, bracket).value) == s
  {
    if s != [] {
      var ps := Scan(s, bracket).value;
      if s[0] == ':' && !bracket {
        JoinRestores(s[1..], false);
        assert ps[1..] == Scan(s[1..], false).value;
        assert s == ":" + s[1..];
      } else {
        var inner := Inner(s[0], bracket);
        JoinRestores(s[1..], inner);
        var qs := Scan(s[1..], inner).value;
        assert ps[1..] == qs[1..];
        assert s == [s[0]] + s[1..];
      }
    }
  }

  /** A piece whose brackets close and that has no colon outside them. */
  predicate Closed(p: string) {
    PartsOf(p) == Some([p])
  }

  /** A nonempty closed piece stays closed, from inside its brackets if need be, once its first character is read. */
  lemma ClosedTail(p: string, bracket: bool)
    requires p != [] && Scan(p, bracket) == Some([p])
    ensures !(p[0] == ':' && !bracket) && !(p[0] == '[' && bracket) && !(p[0] == ']' && !bracket)
    ensures Scan(p[1..], Inner(p[0], bracket)) == Some([p[1..]])
  {
    assert !(p[0] == ':' && !bracket);
    var qs := Scan(p[1..], Inner(p[0], bracket)).value;
    assert Prepend(p[0], qs) == [p] && |Prepend(p[0], qs)| == |qs| == 1;
    assert Prepend(p[0], qs)[0] == [p[0]] + qs[0] == p;
    assert ([p[0]] + qs[0])[1..] == qs[0];
    assert qs == [p[1..]];
  }

  /** A cut piece goes in front of the first of the rest. */
  function Glue(p: string, rest: Option<seq<string>>): Option<seq<string>>
    requires rest.Some? ==> rest.value != []
  {
    match rest
    case Some(ps) => Some([p + ps[0]] + ps[1..])
    case None => None
  }

  lemma GlueCons(c: char, p: string, rest: Option<seq<string>>)
    requires rest.Some? ==> rest.value != []
    ensures rest.Some? ==> Some(Prepend(c, Glue(p, rest).value)) == Glue([c] + p, rest)
  {
    if rest.Some? {
      assert [c] + (p + rest.value[0]) == [c] + p + rest.value[0];
    }
  }

  /** Scanning a closed piece and then the rest. */
  lemma {:induction false} ScanAppend(p: string, bracket: bool, rest: string)
    requires Scan(p, bracket) == Some([p])
    ensures Scan(p + rest, bracket) == Glue(p, Scan(rest, false))
  {
    if p == [] {
      assert p + rest == rest;
      if Scan(rest, false).Some? {
        var ps := Scan(rest, false).value;
        assert "" + ps[0] == ps[0] && [ps[0]] + ps[1..] == ps;
      }
    } else {
      ClosedTail(p, bracket);
      ScanAppend(p[1..], Inner(p[0], bracket), rest);
      GlueCons(p[0], p[1..], Scan(rest, false));
      assert (p + rest)[0] == p[0] && (p + rest)[1..] == p[1..] + rest && [p[0]] + p[1..] == p;
      hide Prepend, Glue;
    }
  }

  /** Splitting inverts joining: any list of closed pieces comes back. */
  lemma {:induction false} PartsOfJoin(ps: seq<string>)
    requires ps != [] && forall i :: 0 <= i < |ps| ==> Closed(ps[i])
    ensures PartsOf(Join(ps)) == Some(ps)
  {
    if |ps| > 1 {
      PartsOfJoin(ps[1..]);
      var rest := ":" + Join(ps[1..]);
      assert rest[1..] == Join(ps[1..]);
      assert Scan(rest, false) == Some([""] + ps[1..]);
      ScanAppend(ps[0], false, rest);
      assert ps[0] + ":" + Join(ps[1..]) == ps[0] + rest;
      assert ([""] + ps[1..])[1..] == ps[1..] && ps[0] + "" == ps[0] && [ps[0]] + ps[1..] == ps;
    } else {
      assert ps == [ps[0]];
    }
  }

  predicate NoSpecial(s: string) {
    ':' !in s && '[' !in s && ']' !in s
  }

  lemma PrependOne(c: char, t: string)
    ensures Prepend(c, [t]) == [[c] + t]
  {
  }

  lemma {:induction false} PlainIsClosed(s: string)
    requires NoSpecial(s)
    ensures Closed(s)
  {
    if s != [] {
      assert s[0] in s && forall c :: c in s[1..] ==> c in s;
      PlainIsClosed(s[1..]);
      PrependOne(s[0], s[1..]);
      assert s == [s[0]] + s[1..];
    }
  }

  lemma {:induction false} InsideBrackets(s: string)
    requires '[' !in s && ']' !in s
    ensures Scan(s + "]", true) == Some([s + "]"])
  {
    var all := s + "]";
    if s == [] {
      assert all[0] == ']' && all[1..] == "";
      PrependOne(']', "");
    } else {
      assert s[0] in s && forall c :: c in s[1..] ==> c in s;
      InsideBrackets(s[1..]);
      assert all[0] == s[0] && all[1..] == s[1..] + "]";
      PrependOne(s[0], all[1..]);
    }
    assert all == [all[0]] + all[1..];
  }

  // ---------------------------------------------------------------------
  // Ports and addresses
  // ---------------------------------------------------------------------

  predicate IsDigit(c: char) {
    '0' <= c <= '9'
  }

  function Digit(c: char): nat {
    if IsDigit(c) then c as int - '0' as int else 0
  }

  function Value(digits: string): nat {
    if digits == [] then 0 else Value(digits[..|digits| - 1]) * 10 + Digit(digits[|digits| - 1])
  }

  /** An unsigned 16-bit number other than zero, with the sign and leading zeros the parser allows. */
  predicate IsPort(text: string) {
    Digits(text) != [] && AllDigits(Digits(text)) && 0 < Value(Digits(text)) < 0x1_0000
  }

  /** A number in decimal. */
  function Decimal(n: nat): string {
    if n < 10 then [('0' as int + n) as char] else Decimal(n / 10) + [('0' as int + n % 10) as char]
  }

  lemma {:induction false} DecimalReadsBack(n: nat)
    ensures Decimal(n) != "" && AllDigits(Decimal(n)) && Value(Decimal(n)) == n
  {
    if n < 10 {
      assert Decimal(n)[..0] == "";
      assert Value("") == 0;
    } else {
      DecimalReadsBack(n / 10);
      var d := Decimal(n / 10);
      assert Decimal(n)[..|d|] == d;
    }
  }

  /** Exactly the numbers from 1 to 65535 are ports, with or without a plus sign. */
  lemma PortNumbers(n: nat)
    ensures IsPort(Decimal(n)) <==> 1 <= n <= 65535
    ensures IsPort("+" + Decimal(n)) <==> 1 <= n <= 65535
    ensures !IsPort("") && !IsPort("+") && !IsPort("-" + Decimal(n))
  {
    DecimalReadsBack(n);
    var d := Decimal(n);
    assert ("+" + d)[1..] == d && IsDigit(d[0]);
    assert ("-" + d)[0] == '-';
    hide Value, Decimal;
  }

  function Digits(text: string): string {
    if |text| > 0 && text[0] == '+' then text[1..] else text
  }

  predicate AllDigits(digits: string) {
    forall i :: 0 <= i < |digits| ==> IsDigit(digits[i])
  }

  predicate IsControl(c: char) {
    var n := c as int;
    n <= 0x1F || 0x7F <= n <= 0x9F
  }

  predicate IsAddress(text: string) {
    text != [] && forall i :: 0 <= i < |text| ==>
      !IsWhitespace(text[i] as int) && text[i] != '\0' && text[i] != '/' && text[i] != '[' && text[i] != ']'
  }

  function Bracket(text: string): string {
    if ':' in text then "[" + text + "]" else text
  }

  function TrimLeft(s: string): string {
    if s != [] && (s[0] == '[' || s[0] == ']') then TrimLeft(s[1..]) else s
  }

  function TrimRight(s: string): string {
    if s != [] && (s[|s| - 1] == '[' || s[|s| - 1] == ']') then TrimRight(s[..|s| - 1]) else s
  }

  /** Strip brackets from both ends. */
  function Trim(s: string): string {
    TrimRight(TrimLeft(s))
  }

  lemma AddressIsPlain(text: string)
    requires IsAddress(text)
    ensures '[' !in text && ']' !in text
  {
    forall c | c in text
      ensures c != '[' && c != ']'
    {
      var i :| 0 <= i < |text| && text[i] == c;
    }
  }

  lemma BracketedIsClosed(text: string)
    requires '[' !in text && ']' !in text
    ensures Closed("[" + text + "]")
  {
    var b := "[" + text + "]";
    InsideBrackets(text);
    assert b[0] == '[' && b[1..] == text + "]";
    PrependOne('[', text + "]");
    assert ['['] + (text + "]") == b;
  }

  lemma BracketedTrims(text: string)
    requires text != [] && '[' !in text && ']' !in text
    ensures Trim("[" + text + "]") == text && Trim(text) == text
  {
    assert text[0] in text && text[|text| - 1] in text;
    var b, t := "[" + text + "]", text + "]";
    assert b[0] == '[' && b[1..] == t && t[0] == text[0] && t[|text|] == ']' && t[..|text|] == text;
    assert TrimLeft(b) == TrimLeft(t) == t;
    assert TrimRight(t) == TrimRight(text) == text;
  }

  lemma AddressIsClosed(text: string)
    requires IsAddress(text)
    ensures Closed(Bracket(text)) && Trim(Bracket(text)) == text
  {
    AddressIsPlain(text);
    hide IsAddress, Closed, Trim;
    BracketedTrims(text);
    if ':' in text {
      BracketedIsClosed(text);
    } else {
      PlainIsClosed(text);
    }
  }

  lemma PortIsClosed(text: string)
    requires IsPort(text)
    ensures Closed(text) && text != "0" && NoControl(text)
  {
    PortChars(text);
    forall c | c in text
      ensures c != ':' && c != '[' && c != ']'
    {
      var i :| 0 <= i < |text| && text[i] == c;
    }
    PlainIsClosed(text);
    assert Value("0"[..0]) == 0 && Value("0") == 0;
  }

  lemma PortChars(text: string)
    requires IsPort(text)
    ensures forall i :: 0 <= i < |text| ==> IsDigit(text[i]) || text[i] == '+'
  {
    forall i | 0 <= i < |text|
      ensures IsDigit(text[i]) || text[i] == '+'
    {
      if text[0] == '+' && i > 0 {
        assert IsDigit(text[1..][i - 1]);
      }
    }
  }

  predicate NoControl(s: string) {
    forall i :: 0 <= i < |s| ==> !IsControl(s[i])
  }

  // ---------------------------------------------------------------------
  // The structured TCP form
  // ---------------------------------------------------------------------

  function Tcp(f: Forward): Option<TcpForward> {
    match PartsOf(f.spec)
    case None => None
    case Some(p) =>
      if f.flag == "-D" && |p| == 1 then Checked(f.flag, "localhost", p[0], "", "")
      else if f.flag == "-D" && |p| == 2 then Checked(f.flag, p[0], p[1], "", "")
      else if (f.flag == "-L" || f.flag == "-R") && |p| == 3 then Checked(f.flag, "localhost", p[0], p[1], p[2])
      else if (f.flag == "-L" || f.flag == "-R") && |p| == 4 then Checked(f.flag, p[0], p[1], p[2], p[3])
      else None
  }

  function Checked(flag: string, bind: string, listen: string, dest: string, destPort: string): Option<TcpForward> {
    if !IsPort(listen) || (flag != "-D" && !IsPort(destPort)) then None
    else Some(TcpForward(Trim(bind), listen, Trim(dest), destPort))
  }

  function Listen(p: seq<string>): string {
    if |p| == 1 || |p| == 3 then p[0] else if |p| == 2 || |p| == 4 then p[1] else ""
  }

  function Validate(f: Forward): Option<Problem> {
    if !IsForwardFlag(f.flag) then Some(UnknownFlag)
    else if f.spec == [] || exists i :: 0 <= i < |f.spec| && IsControl(f.spec[i]) then Some(BadSpec)
    else if f.flag == "-R" && PartsOf(f.spec).Some? && Listen(PartsOf(f.spec).value) == "0" then Some(AutomaticPort)
    else None
  }

  function Spec(flag: string, tcp: TcpForward): string {
    if flag == "-D" then Bracket(tcp.bind) + ":" + tcp.port
    else Bracket(tcp.bind) + ":" + tcp.port + ":" + Bracket(tcp.destination) + ":" + tcp.destinationPort
  }

  function FromTcp(flag: string, tcp: TcpForward): Result<Forward, Problem> {
    if !IsPort(tcp.port) then Err(ListenPort)
    else if !IsAddress(tcp.bind) then Err(BindAddress)
    else if flag != "-D" && !IsPort(tcp.destinationPort) then Err(DestinationPort)
    else if flag != "-D" && !IsAddress(tcp.destination) then Err(DestinationAddress)
    else
      var forward := Forward(flag, Spec(flag, tcp));
      match Validate(forward)
      case Some(problem) => Err(problem)
      case None => Ok(forward)
  }

  /** The form's fields as the pieces of the spec. */
  function Fields(flag: string, tcp: TcpForward): seq<string> {
    if flag == "-D" then [Bracket(tcp.bind), tcp.port]
    else [Bracket(tcp.bind), tcp.port, Bracket(tcp.destination), tcp.destinationPort]
  }

  lemma SpecIsJoin(flag: string, tcp: TcpForward)
    ensures Spec(flag, tcp) == Join(Fields(flag, tcp))
  {
    var fs := Fields(flag, tcp);
    assert Join(fs[|fs| - 1..]) == fs[|fs| - 1];
    if flag != "-D" {
      assert fs[1..][1..] == fs[2..] && fs[2..][1..] == fs[3..];
      assert Join(fs[2..]) == fs[2] + ":" + fs[3];
      assert Join(fs[1..]) == fs[1] + ":" + Join(fs[2..]);
      assert Join(fs) == fs[0] + ":" + Join(fs[1..]);
    }
  }

  /** What the form can be saved as reads back as the same form; a SOCKS rule has no destination. */
  lemma TcpRoundTrip(flag: string, tcp: TcpForward)
    requires FromTcp(flag, tcp).Ok?
    ensures Tcp(FromTcp(flag, tcp).value) ==
            Some(if flag == "-D" then TcpForward(tcp.bind, tcp.port, "", "") else tcp)
    ensures PartsOf(FromTcp(flag, tcp).value.spec) == Some(Fields(flag, tcp))
  {
    var fs := Fields(flag, tcp);
    SpecParts(flag, tcp);
    AddressIsClosed(tcp.bind);
    if flag != "-D" {
      AddressIsClosed(tcp.destination);
    }
    TrimNothing();
    hide Bracket, IsPort, IsAddress, Trim, Spec, PartsOf, Closed;
  }

  lemma TrimNothing()
    ensures Trim("") == ""
  {
  }

  lemma {:induction false} JoinNoControl(ps: seq<string>)
    requires ps != []
    ensures NoControl(Join(ps)) <==> forall i :: 0 <= i < |ps| ==> NoControl(ps[i])
  {
    if |ps| > 1 {
      JoinNoControl(ps[1..]);
      NoControlAppend(ps[0], ":");
      NoControlAppend(ps[0] + ":", Join(ps[1..]));
      assert NoControl(":");
      hide NoControl;
      assert forall i :: 0 <= i < |ps[1..]| ==> ps[1..][i] == ps[i + 1];
      assert forall i :: 0 < i < |ps| ==> ps[i] == ps[1..][i - 1];
    }
  }

  lemma NoControlAppend(a: string, b: string)
    ensures NoControl(a + b) <==> NoControl(a) && NoControl(b)
  {
    var c := a + b;
    assert forall i :: 0 <= i < |a| ==> c[i] == a[i];
    assert forall i :: 0 <= i < |b| ==> c[|a| + i] == b[i];
  }

  predicate Typed(flag: string, tcp: TcpForward) {
    IsPort(tcp.port) && IsAddress(tcp.bind) && (flag != "-D" ==> IsPort(tcp.destinationPort) && IsAddress(tcp.destination))
  }

  lemma SpecParts(flag: string, tcp: TcpForward)
    requires Typed(flag, tcp)
    ensures PartsOf(Spec(flag, tcp)) == Some(Fields(flag, tcp)) && Listen(Fields(flag, tcp)) != "0"
  {
    AddressIsClosed(tcp.bind);
    PortIsClosed(tcp.port);
    if flag != "-D" {
      AddressIsClosed(tcp.destination);
      PortIsClosed(tcp.destinationPort);
    }
    SpecIsJoin(flag, tcp);
    hide Bracket, IsPort, IsAddress, Spec, Join, PartsOf, Closed;
    PartsOfJoin(Fields(flag, tcp));
  }

  lemma SpecControls(flag: string, tcp: TcpForward)
    requires Typed(flag, tcp)
    ensures Spec(flag, tcp) != []
    ensures NoControl(Spec(flag, tcp)) <==> NoControl(tcp.bind) && (flag != "-D" ==> NoControl(tcp.destination))
  {
    PortIsClosed(tcp.port);
    BracketNoControl(tcp.bind);
    if flag != "-D" {
      PortIsClosed(tcp.destinationPort);
      BracketNoControl(tcp.destination);
    }
    assert ':' in Spec(flag, tcp);
    var fs := Fields(flag, tcp);
    SpecIsJoin(flag, tcp);
    JoinNoControl(fs);
    hide NoControl, Bracket, IsPort, IsAddress, Spec, Join;
    if flag == "-D" {
      assert fs[0] == Bracket(tcp.bind) && fs[1] == tcp.port;
    } else {
      assert fs[0] == Bracket(tcp.bind) && fs[1] == tcp.port;
      assert fs[2] == Bracket(tcp.destination) && fs[3] == tcp.destinationPort;
    }
  }

  /** Exactly the forms that can be saved. */
  lemma SavedIff(flag: string, tcp: TcpForward)
    ensures FromTcp(flag, tcp).Ok? <==>
            && IsForwardFlag(flag) && Typed(flag, tcp) && NoControl(tcp.bind)
            && (flag != "-D" ==> NoControl(tcp.destination))
  {
    if Typed(flag, tcp) {
      SpecParts(flag, tcp);
      SpecControls(flag, tcp);
      assert NoControl(Spec(flag, tcp)) <==> !exists i :: 0 <= i < |Spec(flag, tcp)| && IsControl(Spec(flag, tcp)[i]);
      hide PartsOf, Spec, Fields, Listen, IsControl;
    }
  }

  /** What may be typed as an address: no white space, control character, slash or bracket, and not nothing. */
  predicate PlainAddress(text: string) {
    text != "" && forall i :: 0 <= i < |text| ==>
      && !IsWhitespace(text[i] as int) && !ControlCode(text[i] as int)
      && text[i] != '/' && text[i] != '[' && text[i] != ']'
  }

  /** A form is saved exactly when its ports are ports and its addresses plain; a SOCKS rule needs no destination. */
  lemma SavedWhenPlain(flag: string, tcp: TcpForward)
    ensures FromTcp(flag, tcp).Ok? <==>
            && (flag == "-L" || flag == "-R" || flag == "-D")
            && IsPort(tcp.port) && PlainAddress(tcp.bind)
            && (flag != "-D" ==> IsPort(tcp.destinationPort) && PlainAddress(tcp.destination))
  {
    SavedIff(flag, tcp);
    hide FromTcp, IsPort, IsWhitespace;
  }

  lemma BracketNoControl(text: string)
    ensures NoControl(Bracket(text)) <==> NoControl(text)
  {
    NoControlAppend("[", text);
    NoControlAppend("[" + text, "]");
  }

  /** The port a spec asks to listen on is spelled "0". */
  predicate AsksForZero(spec: string) {
    match PartsOf(spec)
    case None => false
    case Some(p) => ((|p| == 1 || |p| == 3) && p[0] == "0") || ((|p| == 2 || |p| == 4) && p[1] == "0")
  }

  /** C0, delete and C1. */
  predicate ControlCode(code: int) {
    0 <= code < 32 || 127 <= code < 160
  }

  /** What makes a rule invalid, and which problem is told first. */
  lemma ValidIff(f: Forward)
    ensures Validate(f) ==
            if f.flag != "-L" && f.flag != "-R" && f.flag != "-D" then Some(UnknownFlag)
            else if f.spec == "" || exists i :: 0 <= i < |f.spec| && ControlCode(f.spec[i] as int) then Some(BadSpec)
            else if f.flag == "-R" && AsksForZero(f.spec) then Some(AutomaticPort)
            else None
  {
    hide Scan;
  }

  /** A remote listen port of zero is refused exactly when it is spelled "0": "00" asks for the same and passes. */
  lemma RemoteZeroRefusedIff(f: Forward)
    requires f.flag == "-R" && f.spec != [] && NoControl(f.spec) && PartsOf(f.spec).Some?
    requires var digits := Digits(Listen(PartsOf(f.spec).value)); AllDigits(digits) && Value(digits) == 0
    ensures Validate(f).Some? <==> Listen(PartsOf(f.spec).value) == "0"
    ensures Validate(Forward("-R", "00")).None? && AllDigits("00") && Value("00") == 0
  {
    PlainIsClosed("00");
    assert NoControl("00");
    assert "00"[..1] == "0" && "0"[..0] == "" && Value("0") == 0;
    hide Scan;
  }

  /** The port that validation looks at is the one the form shows. */
  lemma ListenIsTheFormsPort(f: Forward)
    requires Tcp(f).Some?
    ensures PartsOf(f.spec).Some? && Listen(PartsOf(f.spec).value) == Tcp(f).value.port
  {
    hide IsPort, Trim, Scan;
  }

  // ---------------------------------------------------------------------
  // Conflicts
  // ---------------------------------------------------------------------

  predicate IsAny(bind: string) {
    bind in ["", "*", "0.0.0.0", "::"]
  }

  predicate IsLoopback(bind: string) {
    bind in ["127.0.0.1", "::1"]
  }

  predicate Overlap(a: string, b: string) {
    || a == b || IsAny(a) || IsAny(b)
    || (a == "localhost" && IsLoopback(b)) || (b == "localhost" && IsLoopback(a))
  }

  predicate Conflicts(f: Forward, g: Forward) {
    if (f.flag == "-R") != (g.flag == "-R") then false
    else if f == g then true
    else
      match (Tcp(f), Tcp(g))
      case (Some(a), Some(b)) => a.port == b.port && Overlap(a.bind, b.bind)
      case _ => false
  }

  lemma ConflictsSymmetric(f: Forward, g: Forward)
    ensures Conflicts(f, g) <==> Conflicts(g, f)
    ensures Conflicts(f, f)
  {
  }

  /** The addresses a bind text stands for: all of them, the loopbacks under `localhost`, or the one it names. */
  predicate ListensOn(bind: string, address: string) {
    || bind == "" || bind == "*" || bind == "0.0.0.0" || bind == "::" || bind == address
    || (bind == "localhost" && (address == "127.0.0.1" || address == "::1"))
  }

  /** Binds overlap exactly when there is an address both listen on. */
  lemma OverlapIsSharedAddress(a: string, b: string)
    ensures Overlap(a, b) <==> exists address: string :: ListensOn(a, address) && ListensOn(b, address)
  {
    if Overlap(a, b) {
      var address := if IsAny(a) || (a == "localhost" && IsLoopback(b)) then b else a;
      assert ListensOn(a, address) && ListensOn(b, address);
    }
  }

  /** Rules that are not TCP forms conflict only with themselves. */
  lemma OtherFormsConflictIff(f: Forward, g: Forward)
    requires Tcp(f).None? || Tcp(g).None?
    ensures Conflicts(f, g) <==> f == g
  {
  }

  /** Accepted: every enabled rule is valid and no two enabled rules want one listener. */
  ghost predicate Accepted(rules: seq<Rule>) {
    && (forall i :: 0 <= i < |rules| && !rules[i].disabled ==> Validate(rules[i].forward).None?)
    && (forall i, j :: 0 <= i < j < |rules| && !rules[i].disabled && !rules[j].disabled ==>
          !Conflicts(rules[i].forward, rules[j].forward))
  }

  /** Some enabled rule before n wants r's listener. */
  predicate Taken(rules: seq<Rule>, n: nat, r: Rule)
    requires n <= |rules|
  {
    exists i :: 0 <= i < n && !rules[i].disabled && Conflicts(rules[i].forward, r.forward)
  }

  /** The first rule that is not accepted beside those before it. */
  ghost predicate FirstBad(rules: seq<Rule>, n: nat)
    requires n < |rules|
  {
    Accepted(rules[..n]) && !rules[n].disabled && !Accepted(rules[..n + 1])
  }

  method ValidateRules(rules: seq<Rule>) returns (problem: Option<Problem>)
    ensures problem.None? <==> Accepted(rules)
    ensures problem.Some? ==>
              exists n :: 0 <= n < |rules| && FirstBad(rules, n) && problem.value == Complaint(rules[n].forward)
  {
    for n := 0 to |rules|
      invariant Accepted(rules[..n])
    {
      hide Accepted, Validate, Taken;
      var rule := rules[n];
      AcceptedOneMore(rules, n);
      if !rule.disabled {
        var problem := Validate(rule.forward);
        if problem.Some? || Taken(rules, n, rule) {
          AcceptedPrefix(rules, n + 1);
          assert FirstBad(rules, n);
          return Some(if problem.Some? then problem.value else ListenerTaken(rule.forward));
        }
      }
    }
    assert rules[..|rules|] == rules;
    return None;
  }

  function Complaint(f: Forward): Problem {
    match Validate(f)
    case Some(p) => p
    case None => ListenerTaken(f)
  }

  lemma AcceptedOneMore(rules: seq<Rule>, n: nat)
    requires n < |rules| && Accepted(rules[..n])
    ensures Accepted(rules[..n + 1]) <==>
            rules[n].disabled || (Validate(rules[n].forward).None? && !Taken(rules, n, rules[n]))
  {
    hide Conflicts, Validate;
    var all := rules[..n + 1];
    assert all[n] == rules[n] && forall i :: 0 <= i < n ==> all[i] == rules[i] == rules[..n][i];
    if Accepted(all) && !rules[n].disabled {
      forall i | 0 <= i < n && !rules[i].disabled
        ensures !Conflicts(rules[i].forward, rules[n].forward)
      {
        assert !Conflicts(all[i].forward, all[n].forward);
      }
    }
  }

  lemma AcceptedPrefix(rules: seq<Rule>, n: nat)
    requires n <= |rules|
    ensures Accepted(rules) ==> Accepted(rules[..n])
  {
    hide Conflicts, Validate;
  }

  /** Acceptance in terms of which rules there are, not where. */
  ghost predicate AcceptedBag(rules: multiset<Rule>) {
    && (forall r :: r in rules && !r.disabled ==> Validate(r.forward).None? && rules[r] == 1)
    && (forall r, q :: r in rules && q in rules && r != q && !r.disabled && !q.disabled ==>
          !Conflicts(r.forward, q.forward))
  }

  lemma {:induction false} RepeatedRule(rules: seq<Rule>, r: Rule)
    ensures multiset(rules)[r] <= 1 <==> forall i, j :: 0 <= i < j < |rules| ==> !(rules[i] == r && rules[j] == r)
  {
    if rules != [] {
      var init, last := rules[..|rules| - 1], rules[|rules| - 1];
      RepeatedRule(init, r);
      assert rules == init + [last];
      assert multiset(rules)[r] == multiset(init)[r] + if last == r then 1 else 0;
      assert r in multiset(init) <==> r in init;
      if last == r && r in init {
        var i :| 0 <= i < |init| && init[i] == r;
        assert rules[i] == r && rules[|rules| - 1] == r;
      }
      if i, j :| 0 <= i < j < |init| && init[i] == r && init[j] == r {
        assert rules[i] == r && rules[j] == r;
      }
    }
  }

  lemma BagOfAccepted(rules: seq<Rule>)
    requires Accepted(rules)
    ensures AcceptedBag(multiset(rules))
  {
    var bag := multiset(rules);
    assert forall r :: r in bag <==> r in rules;
    forall r | r in bag && !r.disabled
      ensures Validate(r.forward).None? && bag[r] == 1
    {
      var i :| 0 <= i < |rules| && rules[i] == r;
      RepeatedRule(rules, r);
      ConflictsSymmetric(r.forward, r.forward);
      hide Validate, Conflicts;
      assert forall i, j :: 0 <= i < j < |rules| ==> !(rules[i] == r && rules[j] == r);
    }
    forall r, q | r in bag && q in bag && r != q && !r.disabled && !q.disabled
      ensures !Conflicts(r.forward, q.forward)
    {
      var i :| 0 <= i < |rules| && rules[i] == r;
      var j :| 0 <= j < |rules| && rules[j] == q;
      ConflictsSymmetric(r.forward, q.forward);
      hide Validate, Conflicts;
      assert i < j || j < i;
    }
  }

  lemma AcceptedOfBag(rules: seq<Rule>)
    requires AcceptedBag(multiset(rules))
    ensures Accepted(rules)
  {
    hide Validate, Conflicts;
    var bag := multiset(rules);
    assert forall i :: 0 <= i < |rules| ==> rules[i] in bag;
    forall i, j | 0 <= i < j < |rules| && !rules[i].disabled && !rules[j].disabled
      ensures !Conflicts(rules[i].forward, rules[j].forward)
    {
      RepeatedRule(rules, rules[i]);
      assert rules[i] != rules[j];
    }
  }

  lemma AcceptedIsBag(rules: seq<Rule>)
    ensures Accepted(rules) <==> AcceptedBag(multiset(rules))
  {
    if Accepted(rules) {
      BagOfAccepted(rules);
    }
    if AcceptedBag(multiset(rules)) {
      AcceptedOfBag(rules);
    }
  }

  /** Whether a rule set is accepted does not depend on its order. */
  lemma AcceptanceIgnoresOrder(rules: seq<Rule>, other: seq<Rule>)
    requires multiset(rules) == multiset(other)
    ensures Accepted(rules) <==> Accepted(other)
  {
    AcceptedIsBag(rules);
    AcceptedIsBag(other);
  }

  lemma LocalhostIsPlain()
    ensures Closed("localhost") && Trim("localhost") == "localhost"
  {
    PlainIsClosed("localhost");
    hide Scan;
    var s := "localhost";
    assert s[0] == 'l' && s[|s| - 1] == 't';
  }

  lemma FourJoined(a: string, b: string, c: string, d: string)
    ensures Join([a, b, c, d]) == a + ":" + (b + ":" + (c + ":" + d))
  {
    assert [a, b, c, d][1..] == [b, c, d] && [b, c, d][1..] == [c, d] && [c, d][1..] == [d];
    assert Join([c, d]) == c + ":" + Join([d]);
    assert Join([b, c, d]) == b + ":" + Join([c, d]);
  }

  /** Without an address to listen on, a rule listens on the local host. */
  lemma ThreePartsListenLocally(flag: string, port: string, host: string, hostPort: string)
    requires flag in {"-L", "-R"} && IsPort(port) && Closed(host) && IsPort(hostPort)
    ensures Tcp(Forward(flag, port + ":" + (host + ":" + hostPort))) ==
            Some(TcpForward("localhost", port, Trim(host), hostPort))
  {
    LocalhostIsPlain();
    PortIsClosed(port);
    PortIsClosed(hostPort);
    assert [port, host, hostPort][1..] == [host, hostPort] && [host, hostPort][1..] == [hostPort];
    assert Join([host, hostPort]) == host + ":" + Join([hostPort]);
    hide Scan, IsPort, Trim;
    PartsOfJoin([port, host, hostPort]);
  }

  /**
   * Two rules that listen on one port at overlapping addresses are seen to
   * conflict exactly when the port is spelled the same way in both.
   */
  lemma ClashSeenIff(f: Forward, g: Forward)
    requires (f.flag == "-R") == (g.flag == "-R") && f != g && Tcp(f).Some? && Tcp(g).Some?
    requires Overlap(Tcp(f).value.bind, Tcp(g).value.bind)
    requires Value(Digits(Tcp(f).value.port)) == Value(Digits(Tcp(g).value.port))
    ensures Conflicts(f, g) <==> Tcp(f).value.port == Tcp(g).value.port
  {
  }

  lemma OnePortTwoSpellings()
    ensures var a, b := Forward("-D", "80"), Forward("-D", "080");
            && Tcp(a).Some? && Tcp(b).Some? && Overlap(Tcp(a).value.bind, Tcp(b).value.bind)
            && Value(Digits(Tcp(a).value.port)) == Value(Digits(Tcp(b).value.port))
            && !Conflicts(a, b)
  {
    TwoSpellings();
    hide Value, IsPort, Overlap, Trim;
    SocksOnPort("80");
    SocksOnPort("080");
    SameOverlaps("localhost");
  }

  lemma TwoSpellings()
    ensures IsPort("80") && IsPort("080") && "80" != "080"
    ensures Digits("80") == "80" && Digits("080") == "080" && Value("80") == Value("080")
  {
    assert "80"[..1] == "8" && "8"[..0] == "";
    assert "080"[..2] == "08" && "08"[..1] == "0" && "0"[..0] == "";
    assert Value("8") == 8 && Value("80") == 80;
    assert Value("0") == 0 && Value("08") == 8 && Value("080") == 80;
    hide Value;
  }

  /** A SOCKS rule written as a port alone listens on the local host. */
  lemma SocksOnPort(port: string)
    requires IsPort(port)
    ensures Tcp(Forward("-D", port)) == Some(TcpForward("localhost", port, "", ""))
  {
    LocalhostIsPlain();
    TrimNothing();
    PortIsClosed(port);
    hide Scan, IsPort, Trim;
  }

  lemma SameOverlaps(a: string)
    ensures Overlap(a, a)
  {
  }

  // ---------------------------------------------------------------------
  // Bulk import
  // ---------------------------------------------------------------------

  function PortRule(p: string): Rule {
    FromForward(Forward("-L", "localhost:" + p + ":localhost:" + p))
  }

  /** A port alone forwards itself, from the local host to the local host of the other side. */
  lemma PortForwardsItself(p: string)
    requires IsPort(p)
    ensures Tcp(PortRule(p).forward) == Some(TcpForward("localhost", p, "localhost", p))
  {
    LocalhostIsPlain();
    PortIsClosed(p);
    var parts := ["localhost", p, "localhost", p];
    PortSpec(p);
    hide Scan, IsPort, Trim, Join;
    PartsOfJoin(parts);
  }

  lemma PortSpec(p: string)
    ensures PortRule(p) == Rule("", false, Forward("-L", Join(["localhost", p, "localhost", p])))
  {
    var h := "localhost";
    assert "localhost:" == h + ":" && ":localhost:" == ":" + h + ":";
    hide Join;
    FourJoined(h, p, h, p);
    Reassociate(h, p, h, p);
  }

  lemma Reassociate(a: string, b: string, c: string, d: string)
    ensures (a + ":") + b + (":" + c + ":") + d == a + ":" + (b + ":" + (c + ":" + d))
  {
  }

  predicate AllPorts(args: seq<string>) {
    forall i :: 0 <= i < |args| ==> IsPort(args[i])
  }

  /** The rules the arguments ask for: a port each, or the forwards among them. */
  function Meant(args: seq<string>): seq<Rule> {
    if AllPorts(args) then seq(|args|, i requires 0 <= i < |args| => PortRule(args[i]))
    else
      var forwards := ForwardsOf(Pieces(args));
      seq(|forwards|, i requires 0 <= i < |forwards| => FromForward(forwards[i]))
  }

  /** All or nothing: accepted tokens are all accounted for, in order, by the rules. */
  method Import(args: seq<string>) returns (r: Result<seq<Rule>, Problem>)
    ensures args == [] ==> r == Err(NothingToImport)
    ensures args != [] && !AllPorts(args) && OptionsOf(Pieces(args)) != [] ==>
              r == Err(NotForwarding(OptionsOf(Pieces(args))))
    ensures r.Ok? <==> args != [] && (AllPorts(args) || OptionsOf(Pieces(args)) == []) && Accepted(Meant(args))
    ensures args != [] && (AllPorts(args) || OptionsOf(Pieces(args)) == []) && r.Err? ==>
              var rules := Meant(args);
              exists n :: 0 <= n < |rules| && FirstBad(rules, n) && r.error == Complaint(rules[n].forward)
    ensures r.Ok? && AllPorts(args) ==>
              && |r.value| == |args|
              && forall i :: 0 <= i < |args| ==>
                   && r.value[i].name == "" && !r.value[i].disabled && r.value[i].forward.flag == "-L"
                   && Tcp(r.value[i].forward) == Some(TcpForward("localhost", args[i], "localhost", args[i]))
    ensures r.Ok? && !AllPorts(args) ==>
              && |r.value| == |Pieces(args)|
              && forall i :: 0 <= i < |r.value| ==>
                   && r.value[i].name == "" && !r.value[i].disabled
                   && !Pieces(args)[i].Plain? && r.value[i].forward == Pieces(args)[i].forward
    ensures r.Ok? ==>
              && r.value == Meant(args)
              && (forall i :: 0 <= i < |r.value| ==> !r.value[i].disabled)
              && if AllPorts(args)
                 then |r.value| == |args| && forall i :: 0 <= i < |args| ==> r.value[i] == PortRule(args[i])
                 else
                   && |r.value| == |Pieces(args)| && AllTokens(Pieces(args)) == args
                   && forall i :: 0 <= i < |r.value| ==>
                        !Pieces(args)[i].Plain? && r.value[i] == FromForward(Pieces(args)[i].forward)
  {
    if args == [] {
      return Err(NothingToImport);
    }
    var rules: seq<Rule>;
    if AllPorts(args) {
      rules := seq(|args|, i requires 0 <= i < |args| => PortRule(args[i]));
      forall i | 0 <= i < |args|
        ensures Tcp(PortRule(args[i]).forward) == Some(TcpForward("localhost", args[i], "localhost", args[i]))
      {
        PortForwardsItself(args[i]);
      }
    } else {
      var rest, forwards := SplitOptions(args);
      if rest != [] {
        return Err(NotForwarding(rest));
      }
      rules := seq(|forwards|, i requires 0 <= i < |forwards| => FromForward(forwards[i]));
      NothingIsLost(args);
      PlainNonempty(args);
      OnlyForwards(Pieces(args));
    }
    var problem := ValidateRules(rules);
    if problem.Some? {
      return Err(problem.value);
    }
    return Ok(rules);
  }

  lemma {:induction false} PlainNonempty(args: seq<string>)
    ensures forall i :: 0 <= i < |Pieces(args)| && Pieces(args)[i].Plain? ==> Pieces(args)[i].tokens != []
    decreases |args|
  {
    if args != [] {
      PlainNonempty(args[|Tokens(Head(args))|..]);
    }
  }

  lemma {:induction false} OnlyForwards(ps: seq<Piece>)
    requires OptionsOf(ps) == [] && forall i :: 0 <= i < |ps| && ps[i].Plain? ==> ps[i].tokens != []
    ensures |ForwardsOf(ps)| == |ps|
    ensures forall i :: 0 <= i < |ps| ==> !ps[i].Plain? && ForwardsOf(ps)[i] == ps[i].forward
  {
    if ps != [] {
      assert forall i :: 0 <= i < |ps[1..]| ==> ps[1..][i] == ps[i + 1];
      OnlyForwards(ps[1..]);
    }
  }
}
