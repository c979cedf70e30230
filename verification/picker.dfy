// Models `TextInput` of src/app/picker.rs: a line editor over a UTF-8 buffer
// (section 3 of RFC 3629) with a byte cursor.
module Picker {
  import opened Common

  // ---------------------------------------------------------------------
  // UTF-8
  // ---------------------------------------------------------------------

  type Byte = b: int | 0 <= b < 0x100

  type Scalar = c: int | 0 <= c < 0x11_0000 && !(0xD800 <= c < 0xE000)

  function Encode(c: Scalar): (e: seq<Byte>)
    ensures 1 <= |e| <= 4
  {
    if c < 0x80 then [c]
    else if c < 0x800 then [0xC0 + c / 64, 0x80 + c % 64]
    else if c < 0x1_0000 then [0xE0 + c / 4096, 0x80 + c / 64 % 64, 0x80 + c % 64]
    else [0xF0 + c / 262144, 0x80 + c / 4096 % 64, 0x80 + c / 64 % 64, 0x80 + c % 64]
  }

  function EncodeAll(cs: seq<Scalar>): seq<Byte> {
    if cs == [] then [] else Encode(cs[0]) + EncodeAll(cs[1..])
  }

  predicate IsContinuation(b: Byte) {
    0x80 <= b < 0xC0
  }

  /** Only the first byte of a character is not a continuation byte. */
  lemma EncodeShape(c: Scalar)
    ensures !IsContinuation(Encode(c)[0])
    ensures forall i :: 0 < i < |Encode(c)| ==> IsContinuation(Encode(c)[i])
    ensures c < 0x80 ==> Encode(c)[0] == c
    ensures c >= 0x80 ==> Encode(c)[0] >= 0xC0
  {
  }

  /** The character a sequence of bytes starts with. */
  function DecodeFirst(bytes: seq<int>): int
    requires bytes != []
  {
    var b := bytes[0];
    if b < 0x80 then b
    else if b < 0xE0 then if |bytes| < 2 then -1 else (b - 0xC0) * 64 + (bytes[1] - 0x80)
    else if b < 0xF0 then if |bytes| < 3 then -1 else (b - 0xE0) * 4096 + (bytes[1] - 0x80) * 64 + (bytes[2] - 0x80)
    else if |bytes| < 4 then -1
    else (b - 0xF0) * 262144 + (bytes[1] - 0x80) * 4096 + (bytes[2] - 0x80) * 64 + (bytes[3] - 0x80)
  }

  lemma DecodeEncode(c: Scalar, rest: seq<Byte>)
    ensures DecodeFirst(Encode(c) + rest) == c
  {
    assert c / 64 / 64 == c / 4096 && c / 4096 / 64 == c / 262144;
    var e, all := Encode(c), Encode(c) + rest;
    assert forall i :: 0 <= i < |e| ==> all[i] == e[i];
  }

  /** Two texts with the same bytes are the same text. */
  lemma {:induction false} EncodingIsInjective(a: seq<Scalar>, b: seq<Scalar>)
    requires EncodeAll(a) == EncodeAll(b)
    ensures a == b
  {
    if a == [] || b == [] {
    } else {
      DecodeEncode(a[0], EncodeAll(a[1..]));
      DecodeEncode(b[0], EncodeAll(b[1..]));
      assert a[0] == b[0];
      var n := |Encode(a[0])|;
      assert EncodeAll(a)[n..] == EncodeAll(a[1..]) && EncodeAll(b)[n..] == EncodeAll(b[1..]);
      EncodingIsInjective(a[1..], b[1..]);
      assert a == [a[0]] + a[1..] && b == [b[0]] + b[1..];
    }
  }

  lemma {:induction false} EncodeAppend(a: seq<Scalar>, b: seq<Scalar>)
    ensures EncodeAll(a + b) == EncodeAll(a) + EncodeAll(b)
  {
    hide Encode;
    if a == [] {
      assert a + b == b;
    } else {
      EncodeAppend(a[1..], b);
      assert (a + b)[0] == a[0] && (a + b)[1..] == a[1..] + b;
    }
  }

  lemma EncodeCons(c: Scalar, r: seq<Scalar>)
    ensures EncodeAll([c] + r) == Encode(c) + EncodeAll(r)
  {
    assert ([c] + r)[1..] == r;
  }

  lemma EncodeSnoc(l: seq<Scalar>, c: Scalar)
    ensures EncodeAll(l + [c]) == EncodeAll(l) + Encode(c)
  {
    hide Encode;
    EncodeAppend(l, [c]);
    EncodeCons(c, []);
    assert [c] + [] == [c];
    assert Encode(c) + EncodeAll([]) == Encode(c);
  }

  lemma At<T>(b: seq<T>, lo: nat, e: seq<T>)
    requires lo + |e| <= |b| && b[lo..lo + |e|] == e
    ensures forall j :: lo <= j < lo + |e| ==> b[j] == e[j - lo]
  {
    forall j | lo <= j < lo + |e|
      ensures b[j] == e[j - lo]
    {
      assert b[j] == b[lo..lo + |e|][j - lo];
    }
  }

  lemma Thirds<T>(all: seq<T>, a: seq<T>, b: seq<T>, c: seq<T>)
    requires all == (a + b) + c || all == a + (b + c)
    ensures all == (a + b) + c == a + (b + c) && all[|a|..|a| + |b|] == b
  {
  }

  predicate IsBoundary(buf: seq<Byte>, i: nat) {
    i == 0 || i == |buf| || (i < |buf| && !IsContinuation(buf[i]))
  }

  /** How the buffer divides at the cursor. */
  ghost predicate Divides(buf: seq<Byte>, i: nat, l: seq<Scalar>, r: seq<Scalar>) {
    buf == EncodeAll(l) + EncodeAll(r) && i == |EncodeAll(l)|
  }

  /** The bytes of the character before a boundary. */
  lemma LastBytes(buf: seq<Byte>, i: nat, l: seq<Scalar>, r: seq<Scalar>)
    requires Divides(buf, i, l, r) && l != []
    ensures var init, c := l[..|l| - 1], l[|l| - 1];
            var base := |EncodeAll(init)|;
            && Divides(buf, base, init, [c] + r) && base + |Encode(c)| == i <= |buf|
            && buf[base..i] == Encode(c)
  {
    var init, c := l[..|l| - 1], l[|l| - 1];
    EncodeSnoc(init, c);
    EncodeCons(c, r);
    assert l == init + [c];
    hide Encode, EncodeAll;
    Thirds(buf, EncodeAll(init), Encode(c), EncodeAll(r));
  }

  /** The bytes of the character after a boundary. */
  lemma FirstBytes(buf: seq<Byte>, i: nat, l: seq<Scalar>, r: seq<Scalar>)
    requires Divides(buf, i, l, r) && r != []
    ensures var c := r[0]; var end := i + |Encode(c)|;
            && Divides(buf, end, l + [c], r[1..]) && end <= |buf| && buf[i..end] == Encode(c)
  {
    var c := r[0];
    EncodeSnoc(l, c);
    EncodeCons(c, r[1..]);
    assert r == [c] + r[1..];
    hide Encode, EncodeAll;
    Thirds(buf, EncodeAll(l), Encode(c), EncodeAll(r[1..]));
  }

  lemma DividesEnds(buf: seq<Byte>, i: nat, l: seq<Scalar>, r: seq<Scalar>)
    requires Divides(buf, i, l, r)
    ensures i <= |buf| && (i == 0 <==> l == []) && (i == |buf| <==> r == [])
  {
    hide Encode;
    if l != [] {
      assert |EncodeAll(l)| >= |Encode(l[0])|;
    }
    if r != [] {
      assert |EncodeAll(r)| >= |Encode(r[0])|;
    }
  }

  /** Byte offsets on a boundary are exactly the ends of whole characters. */
  lemma {:induction false} BoundaryIff(buf: seq<Byte>, at: nat, l: seq<Scalar>, r: seq<Scalar>, i: nat)
    requires Divides(buf, at, l, r) && at <= i <= |buf|
    ensures IsBoundary(buf, i) <==> i == 0 || Ends(l, r, i)
    decreases |r|
  {
    DividesEnds(buf, at, l, r);
    EndsStep(l, r, i);
    if r != [] {
      FirstBytes(buf, at, l, r);
      EncodeShape(r[0]);
      var end := at + |Encode(r[0])|;
      At(buf, at, Encode(r[0]));
      if i < end {
        hide Encode, Ends;
        if at < i {
          NoEndBefore(l + [r[0]], r[1..], i);
        }
      } else {
        hide Encode, Ends;
        BoundaryIff(buf, end, l + [r[0]], r[1..], i);
      }
    }
  }

  /** Offset i is where some number of the characters of r end after l. */
  ghost predicate Ends(l: seq<Scalar>, r: seq<Scalar>, i: nat) {
    exists k :: 0 <= k <= |r| && EndsAt(l, r, i, k)
  }

  predicate EndsAt(l: seq<Scalar>, r: seq<Scalar>, i: nat, k: nat)
    requires k <= |r|
  {
    i == |EncodeAll(l + r[..k])|
  }

  lemma EndsStep(l: seq<Scalar>, r: seq<Scalar>, i: nat)
    ensures Ends(l, r, i) <==> i == |EncodeAll(l)| || (r != [] && Ends(l + [r[0]], r[1..], i))
  {
    hide EncodeAll;
    assert l + r[..0] == l;
    assert EndsAt(l, r, i, 0) <==> i == |EncodeAll(l)|;
    if r != [] {
      forall k: nat | k < |r|
        ensures EndsAt(l + [r[0]], r[1..], i, k) <==> EndsAt(l, r, i, k + 1)
      {
        assert l + [r[0]] + r[1..][..k] == l + r[..k + 1];
      }
      if k: nat :| k <= |r| && EndsAt(l, r, i, k) {
        assert k > 0 ==> EndsAt(l + [r[0]], r[1..], i, k - 1);
      }
      if k: nat :| k <= |r[1..]| && EndsAt(l + [r[0]], r[1..], i, k) {
        assert EndsAt(l, r, i, k + 1);
      }
    }
  }

  lemma {:induction false} NoEndBefore(l: seq<Scalar>, r: seq<Scalar>, i: nat)
    requires i < |EncodeAll(l)|
    ensures !Ends(l, r, i)
    decreases |r|
  {
    EndsStep(l, r, i);
    if r != [] {
      EncodeSnoc(l, r[0]);
      hide EncodeAll, Ends, Encode;
      NoEndBefore(l + [r[0]], r[1..], i);
    }
  }

  // ---------------------------------------------------------------------
  // Words
  // ---------------------------------------------------------------------

  /** The byte test the scans use: a Latin-1 whitespace byte or '/'. */
  predicate SeparatorByte(b: Byte) {
    9 <= b <= 13 || b == 32 || b == 0x85 || b == 0xA0 || b == 0x2F
  }

  /** Characters that separate words. */
  predicate Separates(c: Scalar) {
    9 <= c <= 13 || c == 32 || c == 0x2F
  }

  /** Read off its first byte, a character separates words exactly when it is ASCII whitespace or '/'. */
  lemma FirstByteSeparates(c: Scalar)
    ensures SeparatorByte(Encode(c)[0]) <==> Separates(c)
  {
    EncodeShape(c);
    hide Encode;
  }

  /** That is "whitespace or '/'" except for whitespace outside ASCII, which counts as part of a word. */
  lemma SeparatorsMatchIff(c: Scalar)
    ensures (SeparatorByte(Encode(c)[0]) <==> IsWhitespace(c) || c == 0x2F) <==> c < 0x80 || !IsWhitespace(c)
  {
    FirstByteSeparates(c);
    hide Encode, SeparatorByte;
  }

  function DropSeparatorsBack(l: seq<Scalar>): seq<Scalar> {
    if l != [] && Separates(l[|l| - 1]) then DropSeparatorsBack(l[..|l| - 1]) else l
  }

  function DropWordBack(l: seq<Scalar>): seq<Scalar> {
    if l != [] && !Separates(l[|l| - 1]) then DropWordBack(l[..|l| - 1]) else l
  }

  /** What is left of the cursor after moving back over separators and then a word. */
  function WordStart(l: seq<Scalar>): seq<Scalar> {
    DropWordBack(DropSeparatorsBack(l))
  }

  function CountSeparators(r: seq<Scalar>): (n: nat)
    ensures n <= |r|
  {
    if r != [] && Separates(r[0]) then 1 + CountSeparators(r[1..]) else 0
  }

  function CountWord(r: seq<Scalar>): (n: nat)
    ensures n <= |r|
  {
    if r != [] && !Separates(r[0]) then 1 + CountWord(r[1..]) else 0
  }

  /** How many characters a forward word motion crosses. */
  function WordEnd(r: seq<Scalar>): (n: nat)
    ensures n <= |r|
  {
    var s := CountSeparators(r);
    s + CountWord(r[s..])
  }

  ghost predicate AllSeparate(cs: seq<Scalar>, from: nat, to: nat)
    requires to <= |cs|
  {
    forall i :: from <= i < to ==> Separates(cs[i])
  }

  ghost predicate NoneSeparates(cs: seq<Scalar>, from: nat, to: nat)
    requires to <= |cs|
  {
    forall i :: from <= i < to ==> !Separates(cs[i])
  }

  lemma {:induction false} DropSeparatorsIs(l: seq<Scalar>)
    ensures DropSeparatorsBack(l) <= l && AllSeparate(l, |DropSeparatorsBack(l)|, |l|)
    ensures var d := DropSeparatorsBack(l); d == [] || !Separates(d[|d| - 1])
  {
    if l != [] && Separates(l[|l| - 1]) {
      var init := l[..|l| - 1];
      DropSeparatorsIs(init);
      hide Separates;
      assert forall i :: 0 <= i < |init| ==> l[i] == init[i];
    }
  }

  lemma {:induction false} DropWordIs(l: seq<Scalar>)
    ensures DropWordBack(l) <= l && NoneSeparates(l, |DropWordBack(l)|, |l|)
    ensures var d := DropWordBack(l); d == [] || Separates(d[|d| - 1])
  {
    if l != [] && !Separates(l[|l| - 1]) {
      var init := l[..|l| - 1];
      DropWordIs(init);
      hide Separates;
      assert forall i :: 0 <= i < |init| ==> l[i] == init[i];
    }
  }

  /** Back one word: to the start of the text or just past a separator, over one word and what follows it. */
  lemma WordStartIs(l: seq<Scalar>)
    ensures WordStart(l) <= DropSeparatorsBack(l) <= l
    ensures var s, d := WordStart(l), DropSeparatorsBack(l);
            && NoneSeparates(d, |s|, |d|) && AllSeparate(l, |d|, |l|)
            && (s == [] || Separates(s[|s| - 1]))
            && (l != [] ==> |s| < |l|)
            && (d != [] ==> |s| < |d|)
  {
    DropSeparatorsIs(l);
    DropWordIs(DropSeparatorsBack(l));
  }

  lemma {:induction false} CountSeparatorsIs(r: seq<Scalar>)
    ensures AllSeparate(r, 0, CountSeparators(r))
    ensures CountSeparators(r) == |r| || !Separates(r[CountSeparators(r)])
  {
    if r != [] && Separates(r[0]) {
      CountSeparatorsIs(r[1..]);
      hide Separates;
      assert forall i :: 0 < i < |r| ==> r[i] == r[1..][i - 1];
    }
  }

  lemma {:induction false} CountWordIs(r: seq<Scalar>)
    ensures NoneSeparates(r, 0, CountWord(r))
    ensures CountWord(r) == |r| || Separates(r[CountWord(r)])
  {
    if r != [] && !Separates(r[0]) {
      CountWordIs(r[1..]);
      hide Separates;
      assert forall i :: 0 < i < |r| ==> r[i] == r[1..][i - 1];
    }
  }

  /** Forward one word: over separators and then one word, to the end of the text or a separator. */
  lemma WordEndIs(r: seq<Scalar>)
    ensures var s, n := CountSeparators(r), WordEnd(r);
            && s <= n <= |r| && AllSeparate(r, 0, s) && NoneSeparates(r, s, n)
            && (n == |r| || Separates(r[n])) && (s < |r| ==> s < n)
  {
    var s := CountSeparators(r);
    CountSeparatorsIs(r);
    CountWordIs(r[s..]);
    hide CountSeparators, CountWord;
    Beyond(r, s, CountWord(r[s..]));
  }

  /** A word counted from s on, in the whole text. */
  lemma Beyond(r: seq<Scalar>, s: nat, c: nat)
    requires s <= |r| && c <= |r| - s && NoneSeparates(r[s..], 0, c)
    requires (c == |r| - s || Separates(r[s..][c])) && (s < |r| ==> !Separates(r[s]))
    ensures NoneSeparates(r, s, s + c) && (s + c == |r| || Separates(r[s + c])) && (s < |r| ==> c > 0)
  {
    hide Separates;
    assert forall i :: s <= i < |r| ==> r[i] == r[s..][i - s];
  }

  // ---------------------------------------------------------------------
  // The motion as documented
  // ---------------------------------------------------------------------

  /** Documented to part words: any whitespace, or '/'. */
  predicate Parts(c: Scalar) {
    IsWhitespace(c) || c == 0x2F
  }

  predicate InWord(c: Scalar) {
    !Parts(c)
  }

  /** How much is left after dropping trailing characters of a kind. */
  function DropBack(l: seq<Scalar>, f: Scalar -> bool): (n: nat)
    ensures n <= |l|
  {
    if l != [] && f(l[|l| - 1]) then DropBack(l[..|l| - 1], f) else |l|
  }

  /** How many leading characters are of a kind. */
  function RunOf(r: seq<Scalar>, f: Scalar -> bool): (n: nat)
    ensures n <= |r|
  {
    if r != [] && f(r[0]) then 1 + RunOf(r[1..], f) else 0
  }

  /** Where a backward motion stops by the documentation, as a number of characters. */
  function DocumentedStart(l: seq<Scalar>): nat {
    DropBack(l[..DropBack(l, Parts)], InWord)
  }

  /** How many characters a forward motion crosses by the documentation. */
  function DocumentedEnd(r: seq<Scalar>): nat {
    var n := RunOf(r, Parts);
    n + RunOf(r[n..], InWord)
  }

  /** Characters from lo up to hi part words, or none does. */
  ghost predicate AllPart(cs: seq<Scalar>, lo: nat, hi: nat)
    requires hi <= |cs|
  {
    forall i :: lo <= i < hi ==> Parts(cs[i])
  }

  ghost predicate NonePart(cs: seq<Scalar>, lo: nat, hi: nat)
    requires hi <= |cs|
  {
    forall i :: lo <= i < hi ==> !Parts(cs[i])
  }

  lemma {:induction false} DropBackIs(l: seq<Scalar>, f: Scalar -> bool)
    ensures var n := DropBack(l, f);
            && (forall i :: n <= i < |l| ==> f(l[i]))
            && (n > 0 ==> !f(l[n - 1]))
  {
    if l != [] && f(l[|l| - 1]) {
      var init := l[..|l| - 1];
      DropBackIs(init, f);
      assert forall i :: 0 <= i < |init| ==> l[i] == init[i];
    }
  }

  lemma {:induction false} RunOfIs(r: seq<Scalar>, f: Scalar -> bool)
    ensures var n := RunOf(r, f);
            && (forall i :: 0 <= i < n ==> f(r[i]))
            && (n < |r| ==> !f(r[n]))
  {
    if r != [] && f(r[0]) {
      RunOfIs(r[1..], f);
      assert forall i :: 0 < i < |r| ==> r[i] == r[1..][i - 1];
    }
  }

  /** The documented backward motion: over what parts words, then over one word. */
  lemma DocumentedStartIs(l: seq<Scalar>) returns (d: nat)
    ensures var s := DocumentedStart(l);
            && s <= d <= |l| && AllPart(l, d, |l|) && NonePart(l, s, d)
            && (d > 0 ==> !Parts(l[d - 1]) && s < d) && (s > 0 ==> Parts(l[s - 1]))
  {
    d := DropBack(l, Parts);
    DropBackIs(l, Parts);
    DropBackIs(l[..d], InWord);
    hide IsWhitespace, DropBack;
    assert forall i :: 0 <= i < d ==> l[..d][i] == l[i];
  }

  lemma DocumentedEndIs(r: seq<Scalar>) returns (d: nat)
    ensures var e := DocumentedEnd(r);
            && d <= e <= |r| && AllPart(r, 0, d) && NonePart(r, d, e)
            && (d < |r| ==> !Parts(r[d]) && d < e) && (e < |r| ==> Parts(r[e]))
  {
    d := RunOf(r, Parts);
    RunOfIs(r, Parts);
    RunOfIs(r[d..], InWord);
    hide IsWhitespace, RunOf;
    assert forall i :: d <= i < |r| ==> r[d..][i - d] == r[i];
  }

  /** Character i is in the last run of characters that do not separate words. */
  predicate InLastRun(l: seq<Scalar>, i: nat)
    requires i < |l|
  {
    !Separates(l[i]) && forall j, k :: i < j < k < |l| && Separates(l[j]) ==> Separates(l[k])
  }

  /** Character i is in the first run of characters that do not separate words. */
  predicate InFirstRun(r: seq<Scalar>, i: nat)
    requires i < |r|
  {
    !Separates(r[i]) && forall j, k :: 0 <= k < j < i && Separates(r[j]) ==> Separates(r[k])
  }

  /**
   * The texts before the cursor where a backward motion stops as documented: in
   * their last run a blank outside ASCII neither follows a separator nor comes
   * before a character of a word.
   */
  predicate BackAsDocumented(l: seq<Scalar>) {
    forall i :: 0 <= i < |l| && InLastRun(l, i) && IsWhitespace(l[i]) ==>
      && (i > 0 ==> !Separates(l[i - 1]))
      && forall j :: i < j < |l| && InLastRun(l, j) ==> IsWhitespace(l[j])
  }

  /** And, mirrored, the texts after the cursor where a forward one does. */
  predicate ForwardAsDocumented(r: seq<Scalar>) {
    forall i :: 0 <= i < |r| && InFirstRun(r, i) && IsWhitespace(r[i]) ==>
      && (i + 1 < |r| ==> !Separates(r[i + 1]))
      && forall j :: 0 <= j < i && InFirstRun(r, j) ==> IsWhitespace(r[j])
  }

  lemma LastRunIs(l: seq<Scalar>, i: nat)
    requires i < |l|
    ensures InLastRun(l, i) <==> |WordStart(l)| <= i < |DropSeparatorsBack(l)|
  {
    WordStartIs(l);
    var s, d := |WordStart(l)|, |DropSeparatorsBack(l)|;
    assert NoneSeparates(l, s, d) by {
      assert forall j :: 0 <= j < d ==> DropSeparatorsBack(l)[j] == l[j];
    }
    hide WordStart, DropSeparatorsBack;
    LastRunBetween(l, i, s, d);
  }

  lemma LastRunBetween(l: seq<Scalar>, i: nat, s: nat, d: nat)
    requires i < |l| && s <= d <= |l| && AllSeparate(l, d, |l|) && NoneSeparates(l, s, d)
    requires (s > 0 ==> Separates(l[s - 1])) && (d > 0 ==> s < d)
    ensures InLastRun(l, i) <==> s <= i < d
  {
    hide Separates;
    if i < s && !Separates(l[i]) {
      assert i < s - 1 < d - 1 && Separates(l[s - 1]) && !Separates(l[d - 1]);
    }
  }

  lemma FirstRunIs(r: seq<Scalar>, i: nat)
    requires i < |r|
    ensures InFirstRun(r, i) <==> CountSeparators(r) <= i < WordEnd(r)
  {
    WordEndIs(r);
    var s, n := CountSeparators(r), WordEnd(r);
    hide WordEnd, CountSeparators;
    FirstRunBetween(r, i, s, n);
  }

  lemma FirstRunBetween(r: seq<Scalar>, i: nat, s: nat, n: nat)
    requires i < |r| && s <= n <= |r| && AllSeparate(r, 0, s) && NoneSeparates(r, s, n)
    requires (n < |r| ==> Separates(r[n])) && (s < |r| ==> s < n)
    ensures InFirstRun(r, i) <==> s <= i < n
  {
    hide Separates;
    if i >= n && !Separates(r[i]) {
      assert s < n < i && Separates(r[n]) && !Separates(r[s]);
    }
  }

  lemma SeparatorsPart(c: Scalar)
    ensures Parts(c) <==> Separates(c) || IsWhitespace(c)
  {
  }

  /** The two motions by index: the code's run is [s, d), the documented word [s2, d2). */
  lemma BackStopsMeet(l: seq<Scalar>, s: nat, d: nat, s2: nat, d2: nat)
    requires s <= d <= |l| && AllSeparate(l, d, |l|) && NoneSeparates(l, s, d)
    requires (s > 0 ==> Separates(l[s - 1])) && (d > 0 ==> s < d)
    requires s2 <= d2 <= |l| && AllPart(l, d2, |l|) && NonePart(l, s2, d2)
    requires (d2 > 0 ==> !Parts(l[d2 - 1]) && s2 < d2) && (s2 > 0 ==> Parts(l[s2 - 1]))
    ensures s2 == s <==>
            forall i :: s <= i < d && IsWhitespace(l[i]) ==>
              (i == s ==> s == 0) && forall j :: i < j < d ==> IsWhitespace(l[j])
  {
    forall i | 0 <= i < |l|
      ensures Parts(l[i]) <==> Separates(l[i]) || IsWhitespace(l[i])
    {
      SeparatorsPart(l[i]);
    }
    hide Parts, Separates, IsWhitespace;
    assert d2 <= d;
    if s2 == s {
      forall i | s <= i < d && IsWhitespace(l[i])
        ensures (i == s ==> s == 0) && forall j :: i < j < d ==> IsWhitespace(l[j])
      {
        assert d2 <= i;
      }
    }
    if forall i :: s <= i < d && IsWhitespace(l[i]) ==>
         (i == s ==> s == 0) && forall j :: i < j < d ==> IsWhitespace(l[j]) {
      if d2 <= s {
        assert s < d ==> IsWhitespace(l[s]);
        assert s == 0;
      } else {
        assert !IsWhitespace(l[d2 - 1]);
        assert forall i :: s <= i < d2 ==> !IsWhitespace(l[i]);
      }
    }
  }

  lemma ForwardStopsMeet(r: seq<Scalar>, s: nat, n: nat, d: nat, e: nat)
    requires s <= n <= |r| && AllSeparate(r, 0, s) && NoneSeparates(r, s, n)
    requires (n < |r| ==> Separates(r[n])) && (s < |r| ==> s < n)
    requires d <= e <= |r| && AllPart(r, 0, d) && NonePart(r, d, e)
    requires (d < |r| ==> !Parts(r[d]) && d < e) && (e < |r| ==> Parts(r[e]))
    ensures e == n <==>
            forall i :: s <= i < n && IsWhitespace(r[i]) ==>
              (i + 1 == n ==> n == |r|) && forall j :: s <= j < i ==> IsWhitespace(r[j])
  {
    forall i | 0 <= i < |r|
      ensures Parts(r[i]) <==> Separates(r[i]) || IsWhitespace(r[i])
    {
      SeparatorsPart(r[i]);
    }
    hide Parts, Separates, IsWhitespace;
    assert s <= d;
    if e == n {
      forall i | s <= i < n && IsWhitespace(r[i])
        ensures (i + 1 == n ==> n == |r|) && forall j :: s <= j < i ==> IsWhitespace(r[j])
      {
        assert i < d;
      }
    }
    if forall i :: s <= i < n && IsWhitespace(r[i]) ==>
         (i + 1 == n ==> n == |r|) && forall j :: s <= j < i ==> IsWhitespace(r[j]) {
      if n <= d {
        assert s < n ==> IsWhitespace(r[n - 1]);
        assert n == |r|;
      } else {
        assert !IsWhitespace(r[d]);
        assert forall i :: d <= i < n ==> !IsWhitespace(r[i]);
      }
    }
  }

  /** The backward motion stops where the documentation says for exactly these texts. */
  lemma BackAsDocumentedIff(l: seq<Scalar>)
    ensures |WordStart(l)| == DocumentedStart(l) <==> BackAsDocumented(l)
  {
    var s, d := |WordStart(l)|, |DropSeparatorsBack(l)|;
    WordStartIs(l);
    assert NoneSeparates(l, s, d) by {
      assert forall j :: 0 <= j < d ==> DropSeparatorsBack(l)[j] == l[j];
    }
    var d2 := DocumentedStartIs(l);
    BackStopsMeet(l, s, d, DocumentedStart(l), d2);
    forall i: nat | i < |l|
      ensures InLastRun(l, i) <==> s <= i < d
    {
      LastRunIs(l, i);
    }
    hide WordStart, DocumentedStart, DropSeparatorsBack, InLastRun, IsWhitespace;
    forall i | 0 <= i < |l| && InLastRun(l, i) && i > 0
      ensures Separates(l[i - 1]) <==> i == s
    {
    }
    hide Separates;
  }

  /** So does the forward one. */
  lemma ForwardAsDocumentedIff(r: seq<Scalar>)
    ensures WordEnd(r) == DocumentedEnd(r) <==> ForwardAsDocumented(r)
  {
    var s, n := CountSeparators(r), WordEnd(r);
    WordEndIs(r);
    var d := DocumentedEndIs(r);
    ForwardStopsMeet(r, s, n, d, DocumentedEnd(r));
    forall i: nat | i < |r|
      ensures InFirstRun(r, i) <==> s <= i < n
    {
      FirstRunIs(r, i);
    }
    hide WordEnd, DocumentedEnd, CountSeparators, InFirstRun, IsWhitespace;
    forall i | 0 <= i < |r| && InFirstRun(r, i) && i + 1 < |r|
      ensures Separates(r[i + 1]) <==> i + 1 == n
    {
    }
    hide Separates;
  }

  const IDEOGRAPHIC_SPACE: Scalar := 0x3000

  /** "a", an ideographic space, "b": both motions cross the blank, and the documentation says they stop at it. */
  lemma IdeographicSpaceIsCrossed()
    ensures var text: seq<Scalar> := ['a' as int, IDEOGRAPHIC_SPACE, 'b' as int];
            && |WordStart(text)| == 0 && DocumentedStart(text) == 2
            && WordEnd(text) == 3 && DocumentedEnd(text) == 1
  {
    var text: seq<Scalar> := ['a' as int, IDEOGRAPHIC_SPACE, 'b' as int];
    assert NoneSeparates(text, 0, 3);
    assert Parts(text[1]) && !Parts(text[0]) && !Parts(text[2]);
    hide *;
    OneRun(text);
    OneBlank(text);
  }

  lemma OneRun(text: seq<Scalar>)
    requires NoneSeparates(text, 0, |text|)
    ensures WordStart(text) == [] && WordEnd(text) == |text|
  {
    WordStartIs(text);
    WordEndIs(text);
    hide WordStart, WordEnd, DropSeparatorsBack, CountSeparators, Separates;
  }

  lemma OneBlank(text: seq<Scalar>)
    requires |text| == 3 && Parts(text[1]) && !Parts(text[0]) && !Parts(text[2])
    ensures DocumentedStart(text) == 2 && DocumentedEnd(text) == 1
  {
    var d2 := DocumentedStartIs(text);
    var d := DocumentedEndIs(text);
    hide DocumentedStart, DocumentedEnd, Parts;
  }

  // ---------------------------------------------------------------------
  // The field as a reader sees it
  // ---------------------------------------------------------------------

  /** Characters before and after the cursor. */
  datatype Field = Field(left: seq<Scalar>, right: seq<Scalar>) {
    function Text(): seq<Scalar> {
      left + right
    }
  }

  datatype Code = Char(c: Scalar) | Left | Right | Home | End | Backspace | Delete | OtherKey

  datatype Key = Key(code: Code, ctrl: bool, alt: bool)

  datatype Event = Changed | Moved | Noop | Unhandled

  datatype Action =
    | Start | Finish | Back | Forward | WordBack | WordForward
    | EraseBack | EraseForward | EraseWordBack | EraseWordForward | EraseToStart | EraseToEnd
    | Insert(c: Scalar) | Ignore

  /** What a key asks for; Ctrl is looked at first, then Alt, and what neither knows falls through. */
  function Meaning(key: Key): Action {
    if key.ctrl && key.code == Char('a' as int) then Start
    else if key.ctrl && key.code == Char('e' as int) then Finish
    else if key.ctrl && key.code == Char('b' as int) then Back
    else if key.ctrl && key.code == Char('f' as int) then Forward
    else if key.ctrl && key.code == Char('d' as int) then EraseForward
    else if key.ctrl && key.code == Char('h' as int) then EraseBack
    else if key.ctrl && key.code == Char('w' as int) then EraseWordBack
    else if key.ctrl && key.code == Char('u' as int) then EraseToStart
    else if key.ctrl && key.code == Char('k' as int) then EraseToEnd
    else if key.alt && key.code == Char('b' as int) then WordBack
    else if key.alt && key.code == Char('f' as int) then WordForward
    else if key.alt && key.code == Char('d' as int) then EraseWordForward
    else if key.alt && key.code == Backspace then EraseWordBack
    else
      match key.code
      case Left => Back
      case Right => Forward
      case Home => Start
      case End => Finish
      case Backspace => EraseBack
      case Delete => EraseForward
      case Char(c) => if !key.ctrl && !key.alt then Insert(c) else Ignore
      case OtherKey => Ignore
  }

  /** The field after an action, by characters and words. */
  function Apply(f: Field, a: Action): Field {
    var l, r := f.left, f.right;
    match a
    case Start => Field([], l + r)
    case Finish => Field(l + r, [])
    case Back => if l == [] then f else Field(l[..|l| - 1], [l[|l| - 1]] + r)
    case Forward => if r == [] then f else Field(l + [r[0]], r[1..])
    case WordBack =>
      WordStartIs(l);
      var s := WordStart(l); Field(s, l[|s|..] + r)
    case WordForward => Field(l + r[..WordEnd(r)], r[WordEnd(r)..])
    case EraseBack => if l == [] then f else Field(l[..|l| - 1], r)
    case EraseForward => if r == [] then f else Field(l, r[1..])
    case EraseWordBack => Field(WordStart(l), r)
    case EraseWordForward => Field(l, r[WordEnd(r)..])
    case EraseToStart => Field([], r)
    case EraseToEnd => Field(l, [])
    case Insert(c) => Field(l + [c], r)
    case Ignore => f
  }

  /** The event says exactly what happened to the text and the cursor. */
  function Happened(before: Field, after: Field, a: Action): Event {
    if a.Ignore? then Unhandled
    else if after.Text() != before.Text() then Changed
    else if |after.left| != |before.left| then Moved
    else Noop
  }

  // ---------------------------------------------------------------------
  // What each key does
  // ---------------------------------------------------------------------

  /** The key is a letter with Ctrl held. */
  predicate Ctrl(key: Key, c: char) {
    key.ctrl && key.code == Char(c as int)
  }

  /** The key is a letter with Alt held, and not Ctrl. */
  predicate Alt(key: Key, c: char) {
    key.alt && !key.ctrl && key.code == Char(c as int)
  }

  /** Back from the cursor over a run of separators and then one word leaves k characters. */
  ghost predicate WordBehind(l: seq<Scalar>, k: nat) {
    exists m: nat :: k <= m <= |l| && AllSeparate(l, m, |l|) && NoneSeparates(l, k, m)
                     && (k == 0 || Separates(l[k - 1])) && (k == m ==> k == 0)
  }

  /** On from the cursor over a run of separators and then one word is n characters. */
  ghost predicate WordAhead(r: seq<Scalar>, n: nat) {
    exists m: nat :: m <= n <= |r| && AllSeparate(r, 0, m) && NoneSeparates(r, m, n)
                     && (n == |r| || Separates(r[n])) && (m == n ==> n == |r|)
  }

  /** The character is one of these letters. */
  predicate Letter(c: Scalar, letters: string) {
    exists i :: 0 <= i < |letters| && letters[i] as int == c
  }

  /** The editor has a use for the key. */
  predicate Uses(key: Key) {
    match key.code
    case Char(c) =>
      || (key.ctrl && Letter(c, "aebfdhwuk"))
      || (key.alt && Letter(c, "bfd"))
      || (!key.ctrl && !key.alt)
    case OtherKey => false
    case _ => true
  }

  /** Moves of the cursor through text that stays the same. */
  ghost predicate MovesAs(key: Key, f: Field, g: Field) {
    var l, r := f.left, f.right;
    && (Ctrl(key, 'a') || key.code.Home? ==> g == Field([], l + r))
    && (Ctrl(key, 'e') || key.code.End? ==> g == Field(l + r, []))
    && (Ctrl(key, 'b') || key.code.Left? ==>
          g.Text() == f.Text() && |g.left| == if l == [] then 0 else |l| - 1)
    && (Ctrl(key, 'f') || key.code.Right? ==>
          g.Text() == f.Text() && |g.left| == if r == [] then |l| else |l| + 1)
    && (Alt(key, 'b') ==> g.Text() == f.Text() && WordBehind(l, |g.left|))
    && (Alt(key, 'f') ==> g.Text() == f.Text() && |g.left| >= |l| && WordAhead(r, |g.left| - |l|))
  }

  /** Changes to the text on one side of the cursor, by a character or all of it. */
  predicate EditsAs(key: Key, f: Field, g: Field) {
    var l, r := f.left, f.right;
    && (Ctrl(key, 'u') ==> g == Field([], r))
    && (Ctrl(key, 'k') ==> g == Field(l, []))
    && (Ctrl(key, 'h') || (key.code.Backspace? && !key.alt) ==> g == Field(if l == [] then [] else l[..|l| - 1], r))
    && (Ctrl(key, 'd') || key.code.Delete? ==> g == Field(l, if r == [] then [] else r[1..]))
    && (key.code.Char? && !key.ctrl && !key.alt ==> g == Field(l + [key.code.c], r))
    && (!Uses(key) ==> g == f)
  }

  /** Changes by a word. */
  ghost predicate CutsAs(key: Key, f: Field, g: Field) {
    var l, r := f.left, f.right;
    && (Ctrl(key, 'w') || (key.code.Backspace? && key.alt) ==>
          g.right == r && g.left <= l && WordBehind(l, |g.left|))
    && (Alt(key, 'd') ==> g.left == l && exists n :: 0 <= n <= |r| && WordAhead(r, n) && g.right == r[n..])
  }

  lemma WordStartBehind(l: seq<Scalar>)
    ensures WordStart(l) <= l && WordBehind(l, |WordStart(l)|)
  {
    WordStartIs(l);
    var s, d := WordStart(l), DropSeparatorsBack(l);
    assert forall i :: 0 <= i < |d| ==> d[i] == l[i];
    hide WordStart, DropSeparatorsBack, Separates;
    assert NoneSeparates(l, |s|, |d|);
    assert s != [] ==> l[|s| - 1] == s[|s| - 1];
  }

  lemma WordEndAhead(r: seq<Scalar>)
    ensures WordAhead(r, WordEnd(r))
  {
    WordEndIs(r);
    hide WordEnd, CountSeparators, Separates;
  }

  lemma KeyMoves(f: Field, key: Key)
    ensures MovesAs(key, f, Apply(f, Meaning(key)))
  {
    var a := Meaning(key);
    WordStartBehind(f.left);
    WordEndAhead(f.right);
    if !Erases(a) && !a.Insert? && !a.Ignore? {
      MovesKeepText(f, a);
    }
    hide *;
    KeyMovesBy(f, key);
  }

  lemma KeyMovesBy(f: Field, key: Key)
    requires WordStart(f.left) <= f.left && WordBehind(f.left, |WordStart(f.left)|)
    requires WordAhead(f.right, WordEnd(f.right))
    requires var a := Meaning(key); Erases(a) || a.Insert? || a.Ignore? || Apply(f, a).Text() == f.Text()
    ensures MovesAs(key, f, Apply(f, Meaning(key)))
  {
    hide WordStart, WordEnd, WordBehind, WordAhead;
  }

  lemma KeyEdits(f: Field, key: Key)
    ensures EditsAs(key, f, Apply(f, Meaning(key)))
  {
    UsesIff(key);
    hide Uses, WordStart, WordEnd;
  }

  lemma KeyCuts(f: Field, key: Key)
    ensures CutsAs(key, f, Apply(f, Meaning(key)))
  {
    WordStartBehind(f.left);
    WordEndAhead(f.right);
    hide WordStart, WordEnd, WordBehind, WordAhead;
  }

  lemma HappenedIs(f: Field, g: Field, key: Key)
    ensures Happened(f, g, Meaning(key)) ==
            if !Uses(key) then Unhandled
            else if g.Text() != f.Text() then Changed
            else if |g.left| != |f.left| then Moved
            else Noop
  {
    UsesIff(key);
    hide Meaning, Uses;
  }

  lemma UsesIff(key: Key)
    ensures Uses(key) <==> !Meaning(key).Ignore?
  {
    if key.code.Char? {
      NineLetters(key.code.c);
      ThreeLetters(key.code.c);
    }
    hide Letter;
  }

  lemma NineLetters(c: Scalar)
    ensures Letter(c, "aebfdhwuk") <==>
            || c == 'a' as int || c == 'e' as int || c == 'b' as int || c == 'f' as int || c == 'd' as int
            || c == 'h' as int || c == 'w' as int || c == 'u' as int || c == 'k' as int
  {
    var s := "aebfdhwuk";
    assert s[0] == 'a' && s[1] == 'e' && s[2] == 'b' && s[3] == 'f' && s[4] == 'd';
    assert s[5] == 'h' && s[6] == 'w' && s[7] == 'u' && s[8] == 'k';
  }

  lemma ThreeLetters(c: Scalar)
    ensures Letter(c, "bfd") <==> c == 'b' as int || c == 'f' as int || c == 'd' as int
  {
    var s := "bfd";
    assert s[0] == 'b' && s[1] == 'f' && s[2] == 'd';
  }

  lemma SplitWord(l: seq<Scalar>, k: seq<Scalar>)
    requires k <= l
    ensures k + l[|k|..] == l
  {
  }

  // ---------------------------------------------------------------------
  // The editor
  // ---------------------------------------------------------------------

  class TextInput {
    var buf: seq<Byte>
    var cursor: nat
    ghost var field: Field

    /** The buffer is valid UTF-8 and the cursor is between two characters. */
    ghost predicate Valid()
      reads this
    {
      Divides(buf, cursor, field.left, field.right)
    }

    constructor ()
      ensures Valid() && field == Field([], [])
    {
      buf, cursor, field := [], 0, Field([], []);
    }

    /** A field filled in beforehand, with the cursor at its end. */
    constructor WithText(text: seq<Byte>, ghost cs: seq<Scalar>)
      requires text == EncodeAll(cs)
      ensures Valid() && field == Field(cs, []) && buf == text
    {
      buf, cursor, field := [], 0, Field([], []);
      new;
      SetText(text, cs);
    }

    method SetText(text: seq<Byte>, ghost cs: seq<Scalar>)
      requires text == EncodeAll(cs)
      modifies this
      ensures Valid() && field == Field(cs, []) && buf == text
    {
      buf, cursor, field := text, |text|, Field(cs, []);
      assert text + [] == text;
    }

    method Clear()
      modifies this
      ensures Valid() && field == Field([], [])
    {
      buf, cursor, field := [], 0, Field([], []);
    }

    method PrevCharBoundary(idx: nat, ghost l: seq<Scalar>, ghost r: seq<Scalar>) returns (i: nat)
      requires Divides(buf, idx, l, r)
      ensures l == [] ==> i == 0 == idx
      ensures l != [] ==> i < idx <= |buf| && Divides(buf, i, l[..|l| - 1], [l[|l| - 1]] + r)
      ensures l != [] ==> buf[i] == Encode(l[|l| - 1])[0]
    {
      DividesEnds(buf, idx, l, r);
      hide *;
      if idx == 0 {
        return 0;
      }
      ghost var base := CharBefore(buf, idx, l, r);
      i := idx - 1;
      while i > 0 && !IsBoundary(buf, i)
        invariant base <= i < idx
      {
        i := i - 1;
      }
    }

    method NextCharBoundary(idx: nat, ghost l: seq<Scalar>, ghost r: seq<Scalar>) returns (i: nat)
      requires Divides(buf, idx, l, r)
      ensures r == [] ==> i == |buf| == idx
      ensures r != [] ==> idx < i <= |buf| && Divides(buf, i, l + [r[0]], r[1..])
    {
      DividesEnds(buf, idx, l, r);
      hide *;
      if idx >= |buf| {
        return |buf|;
      }
      ghost var end := CharAfter(buf, idx, l, r);
      i := idx + 1;
      while i < |buf| && !IsBoundary(buf, i)
        invariant idx < i <= end
      {
        i := i + 1;
      }
    }

    method PrevWordBoundary(idx: nat, ghost l: seq<Scalar>, ghost r: seq<Scalar>) returns (i: nat)
      requires Divides(buf, idx, l, r)
      ensures WordStart(l) <= l && Divides(buf, i, WordStart(l), l[|WordStart(l)|..] + r) && i <= idx
    {
      WordStartIs(l);
      StartBefore(buf, idx, l, r);
      FinishBefore(buf, l, r, WordStart(l));
      hide *;
      i := idx;
      ghost var k := l;
      // Over the separators next to the cursor,
      while i > 0
        invariant Before(buf, i, l, r, k) && i <= idx && DropSeparatorsBack(l) == DropSeparatorsBack(k)
      {
        BeforeEnds(buf, i, l, r, k);
        DropStep(k);
        var prev := PrevCharBoundary(i, k, l[|k|..] + r);
        FirstByteSeparates(k[|k| - 1]);
        if !SeparatorByte(buf[prev]) {
          break;
        }
        StepBefore(buf, prev, l, r, k);
        i := prev;
        k := k[..|k| - 1];
      }
      BeforeEnds(buf, i, l, r, k);
      DropStep(k);
      assert WordStart(l) == DropWordBack(k) by {
        WordStartFrom(l);
      }
      // then over the word beyond them.
      while i > 0
        invariant Before(buf, i, l, r, k) && i <= idx && WordStart(l) == DropWordBack(k)
      {
        BeforeEnds(buf, i, l, r, k);
        DropStep(k);
        var prev := PrevCharBoundary(i, k, l[|k|..] + r);
        FirstByteSeparates(k[|k| - 1]);
        if SeparatorByte(buf[prev]) {
          break;
        }
        StepBefore(buf, prev, l, r, k);
        i := prev;
        k := k[..|k| - 1];
      }
      BeforeEnds(buf, i, l, r, k);
      DropStep(k);
    }

    /** Over one character of a forward scan, if it separates words as wanted. */
    method StepForward(i: nat, ghost l: seq<Scalar>, ghost r: seq<Scalar>, ghost n: nat, separator: bool)
      returns (next: nat, stepped: bool)
      requires After(buf, i, l, r, n) && i < |buf|
      ensures n < |r| && (stepped <==> Separates(r[n]) == separator)
      ensures if stepped then After(buf, next, l, r, n + 1) else next == i
      ensures i <= next
    {
      AfterEnds(buf, i, l, r, n);
      hide *;
      FirstByteSeparates(r[n]);
      next := i;
      stepped := SeparatorByte(buf[i]) == separator;
      if stepped {
        next := NextCharBoundary(i, l + r[..n], r[n..]);
        StepAfter(buf, next, l, r, n);
      }
    }

    method SkipSeparators(start: nat, ghost l: seq<Scalar>, ghost r: seq<Scalar>) returns (i: nat)
      requires After(buf, start, l, r, 0)
      ensures After(buf, i, l, r, CountSeparators(r)) && start <= i
    {
      hide *;
      i := start;
      ghost var n := 0;
      var more := true;
      CountAll(r);
      while i < |buf| && more
        invariant After(buf, i, l, r, n) && start <= i && n <= |r| && SeparatorsLeft(r, n) + n == CountSeparators(r)
        invariant !more ==> SeparatorsLeft(r, n) == 0
        decreases |r| - n, more
      {
        i, more := StepForward(i, l, r, n, true);
        CountStep(r, n);
        if more {
          n := n + 1;
        }
      }
      AfterEnds(buf, i, l, r, n);
      CountStep(r, n);
    }

    method SkipWord(start: nat, ghost l: seq<Scalar>, ghost r: seq<Scalar>, ghost s: nat) returns (i: nat)
      requires s <= |r| && After(buf, start, l, r, s)
      ensures After(buf, i, l, r, s + CountWord(r[s..])) && start <= i
    {
      hide *;
      i := start;
      ghost var n := s;
      var more := true;
      ghost var end := s + WordLeft(r, s);
      while i < |buf| && more
        invariant After(buf, i, l, r, n) && start <= i && n <= |r| && WordLeft(r, n) + n == end
        invariant !more ==> WordLeft(r, n) == 0
        decreases |r| - n, more
      {
        i, more := StepForward(i, l, r, n, false);
        CountStep(r, n);
        if more {
          n := n + 1;
        }
      }
      AfterEnds(buf, i, l, r, n);
      CountStep(r, n);
      WordLeftIs(r, s);
    }

    /** The source's two scans, one after the other. */
    method NextWordBoundary(idx: nat, ghost l: seq<Scalar>, ghost r: seq<Scalar>) returns (i: nat)
      requires Divides(buf, idx, l, r)
      ensures Divides(buf, i, l + r[..WordEnd(r)], r[WordEnd(r)..]) && idx <= i
    {
      StartAfter(buf, idx, l, r);
      FinishAfter(buf, l, r, WordEnd(r));
      WordEndFrom(r);
      hide *;
      i := SkipSeparators(idx, l, r);
      i := SkipWord(i, l, r, CountSeparators(r));
    }

    method InsertChar(c: Scalar)
      requires Valid()
      modifies this
      ensures Valid() && field == Apply(old(field), Insert(c))
    {
      DividesEnds(buf, cursor, field.left, field.right);
      Inserted(buf, cursor, field.left, c, field.right);
      buf := buf[..cursor] + Encode(c) + buf[cursor..];
      cursor := cursor + |Encode(c)|;
      field := Field(field.left + [c], field.right);
    }

    method EraseCharBack() returns (changed: bool)
      requires Valid()
      modifies this
      ensures Valid() && field == Apply(old(field), EraseBack) && (changed <==> old(field.left) != [])
    {
      DividesEnds(buf, cursor, field.left, field.right);
      if cursor == 0 {
        return false;
      }
      ghost var l, r := field.left, field.right;
      ghost var init, c := l[..|l| - 1], l[|l| - 1];
      var prev := PrevCharBoundary(cursor, l, r);
      assert init + [c] == l;
      Erased(buf, prev, cursor, init, [c], r);
      buf, cursor, field := buf[..prev] + buf[cursor..], prev, Field(init, r);
      return true;
    }

    method EraseCharForward() returns (changed: bool)
      requires Valid()
      modifies this
      ensures Valid() && field == Apply(old(field), EraseForward) && (changed <==> old(field.right) != [])
    {
      DividesEnds(buf, cursor, field.left, field.right);
      if cursor >= |buf| {
        return false;
      }
      ghost var l, r := field.left, field.right;
      var next := NextCharBoundary(cursor, l, r);
      assert [r[0]] + r[1..] == r;
      Erased(buf, cursor, next, l, [r[0]], r[1..]);
      buf, field := buf[..cursor] + buf[next..], Field(l, r[1..]);
      return true;
    }

    method DeleteWordBack() returns (changed: bool)
      requires Valid()
      modifies this
      ensures Valid() && field == Apply(old(field), EraseWordBack) && (changed <==> old(field.left) != [])
    {
      DividesEnds(buf, cursor, field.left, field.right);
      if cursor == 0 {
        return false;
      }
      ghost var l, r := field.left, field.right;
      ghost var s := WordStart(l);
      var start := PrevWordBoundary(cursor, l, r);
      SplitWord(l, s);
      Erased(buf, start, cursor, s, l[|s|..], r);
      buf, cursor, field := buf[..start] + buf[cursor..], start, Field(s, r);
      return true;
    }

    method DeleteWordForward() returns (changed: bool)
      requires Valid()
      modifies this
      ensures Valid() && field == Apply(old(field), EraseWordForward) && (changed <==> old(field.right) != [])
    {
      DividesEnds(buf, cursor, field.left, field.right);
      if cursor >= |buf| {
        return false;
      }
      ghost var l, r := field.left, field.right;
      ghost var n := WordEnd(r);
      var end := NextWordBoundary(cursor, l, r);
      assert r[..n] + r[n..] == r;
      Erased(buf, cursor, end, l, r[..n], r[n..]);
      buf, field := buf[..cursor] + buf[end..], Field(l, r[n..]);
      return true;
    }

    method KillToStart() returns (changed: bool)
      requires Valid()
      modifies this
      ensures Valid() && field == Apply(old(field), EraseToStart) && (changed <==> old(field.left) != [])
    {
      DividesEnds(buf, cursor, field.left, field.right);
      if cursor == 0 {
        return false;
      }
      assert buf[cursor..] == EncodeAll(field.right);
      buf, cursor, field := buf[cursor..], 0, Field([], field.right);
      return true;
    }

    method KillToEnd() returns (changed: bool)
      requires Valid()
      modifies this
      ensures Valid() && field == Apply(old(field), EraseToEnd) && (changed <==> old(field.right) != [])
    {
      DividesEnds(buf, cursor, field.left, field.right);
      if cursor >= |buf| {
        return false;
      }
      assert buf[..cursor] == EncodeAll(field.left) + EncodeAll([]);
      buf, field := buf[..cursor], Field(field.left, []);
      return true;
    }

    /** Move the cursor to an offset that divides the same text. */
    method MoveTo(offset: nat, ghost to: Field) returns (event: Event)
      requires Valid() && Divides(buf, offset, to.left, to.right)
      modifies this
      ensures Valid() && buf == old(buf) && field == to && (event == Noop <==> offset == old(cursor))
      ensures event == Noop || event == Moved
    {
      event := if offset == cursor then Noop else Moved;
      cursor, field := offset, to;
    }

    method CursorStart() returns (event: Event)
      requires Valid()
      modifies this
      ensures Valid() && field == Apply(old(field), Start) && event == if old(field.left) == [] then Noop else Moved
    {
      DividesEnds(buf, cursor, field.left, field.right);
      EncodeAppend(field.left, field.right);
      event := MoveTo(0, Field([], field.left + field.right));
    }

    method CursorEnd() returns (event: Event)
      requires Valid()
      modifies this
      ensures Valid() && field == Apply(old(field), Finish) && event == if old(field.right) == [] then Noop else Moved
    {
      DividesEnds(buf, cursor, field.left, field.right);
      EncodeAppend(field.left, field.right);
      assert EncodeAll([]) == [] && buf + [] == buf;
      event := MoveTo(|buf|, Field(field.left + field.right, []));
    }

    method CursorBack() returns (event: Event)
      requires Valid()
      modifies this
      ensures Valid() && field == Apply(old(field), Back) && event == if old(field.left) == [] then Noop else Moved
    {
      DividesEnds(buf, cursor, field.left, field.right);
      if cursor == 0 {
        return Noop;
      }
      var prev := PrevCharBoundary(cursor, field.left, field.right);
      event := MoveTo(prev, Apply(field, Back));
    }

    method CursorForward() returns (event: Event)
      requires Valid()
      modifies this
      ensures Valid() && field == Apply(old(field), Forward) && event == if old(field.right) == [] then Noop else Moved
    {
      DividesEnds(buf, cursor, field.left, field.right);
      if cursor >= |buf| {
        return Noop;
      }
      var next := NextCharBoundary(cursor, field.left, field.right);
      event := MoveTo(next, Apply(field, Forward));
    }

    method CursorWordBack() returns (event: Event)
      requires Valid()
      modifies this
      ensures Valid() && field == Apply(old(field), WordBack) && event == if old(field.left) == [] then Noop else Moved
    {
      ghost var l := field.left;
      WordStartIs(l);
      DividesEnds(buf, cursor, l, field.right);
      var start := PrevWordBoundary(cursor, l, field.right);
      ShorterIsSmaller(WordStart(l), l);
      event := MoveTo(start, Apply(field, WordBack));
    }

    method CursorWordForward() returns (event: Event)
      requires Valid()
      modifies this
      ensures Valid() && field == Apply(old(field), WordForward) && event == if old(field.right) == [] then Noop else Moved
    {
      ghost var l, r := field.left, field.right;
      WordEndIs(r);
      DividesEnds(buf, cursor, l, r);
      var end := NextWordBoundary(cursor, l, r);
      ShorterIsSmaller(l, l + r[..WordEnd(r)]);
      event := MoveTo(end, Apply(field, WordForward));
    }

    /** For every key the buffer stays valid, the field moves as the action says, and the event says what happened. */
    method HandleKey(key: Key) returns (event: Event)
      requires Valid()
      modifies this
      ensures Valid() && field == Apply(old(field), Meaning(key))
      ensures event == Happened(old(field), field, Meaning(key))
      ensures MovesAs(key, old(field), field) && EditsAs(key, old(field), field) && CutsAs(key, old(field), field)
      ensures event == if !Uses(key) then Unhandled
                       else if field.Text() != old(field).Text() then Changed
                       else if |field.left| != |old(field).left| then Moved
                       else Noop
    {
      EventOf(field, Meaning(key));
      KeyMoves(field, key);
      KeyEdits(field, key);
      KeyCuts(field, key);
      HappenedIs(field, Apply(field, Meaning(key)), key);
      hide Apply, Happened, Valid, MovesAs, EditsAs, CutsAs, Uses;
      var changed := false;
      if key.ctrl {
        if key.code == Char('a' as int) { event := CursorStart(); return; }
        if key.code == Char('e' as int) { event := CursorEnd(); return; }
        if key.code == Char('b' as int) { event := CursorBack(); return; }
        if key.code == Char('f' as int) { event := CursorForward(); return; }
        if key.code == Char('d' as int) { changed := EraseCharForward(); return if changed then Changed else Noop; }
        if key.code == Char('h' as int) { changed := EraseCharBack(); return if changed then Changed else Noop; }
        if key.code == Char('w' as int) { changed := DeleteWordBack(); return if changed then Changed else Noop; }
        if key.code == Char('u' as int) { changed := KillToStart(); return if changed then Changed else Noop; }
        if key.code == Char('k' as int) { changed := KillToEnd(); return if changed then Changed else Noop; }
      }
      if key.alt {
        if key.code == Char('b' as int) { event := CursorWordBack(); return; }
        if key.code == Char('f' as int) { event := CursorWordForward(); return; }
        if key.code == Char('d' as int) { changed := DeleteWordForward(); return if changed then Changed else Noop; }
        if key.code == Backspace { changed := DeleteWordBack(); return if changed then Changed else Noop; }
      }
      match key.code {
        case Left => event := CursorBack();
        case Right => event := CursorForward();
        case Home => event := CursorStart();
        case End => event := CursorEnd();
        case Backspace =>
          changed := EraseCharBack();
          event := if changed then Changed else Noop;
        case Delete =>
          changed := EraseCharForward();
          event := if changed then Changed else Noop;
        case Char(c) =>
          if !key.ctrl && !key.alt {
            InsertChar(c);
            event := Changed;
          } else {
            event := Unhandled;
            IgnoreKeeps(field);
          }
        case OtherKey =>
          event := Unhandled;
          IgnoreKeeps(field);
      }
    }
  }

  lemma IgnoreKeeps(f: Field)
    ensures Apply(f, Ignore) == f
  {
  }

  lemma ShorterIsSmaller(a: seq<Scalar>, b: seq<Scalar>)
    requires a <= b
    ensures |EncodeAll(a)| == |EncodeAll(b)| <==> a == b
  {
    hide Encode;
    EncodeAppend(a, b[|a|..]);
    assert a + b[|a|..] == b;
    if a != b {
      assert |EncodeAll(b[|a|..])| >= |Encode(b[|a|..][0])|;
    }
  }

  /** Cut out the bytes of some characters. */
  lemma Erased(buf: seq<Byte>, a: nat, b: nat, l: seq<Scalar>, mid: seq<Scalar>, r: seq<Scalar>)
    requires Divides(buf, a, l, mid + r) && Divides(buf, b, l + mid, r)
    ensures a <= b <= |buf| && Divides(buf[..a] + buf[b..], a, l, r)
  {
    EncodeAppend(l, mid);
    hide EncodeAll;
    assert buf[..a] == EncodeAll(l) && buf[b..] == EncodeAll(r);
  }

  /** Put in the bytes of one. */
  lemma Inserted(buf: seq<Byte>, i: nat, l: seq<Scalar>, c: Scalar, r: seq<Scalar>)
    requires Divides(buf, i, l, r)
    ensures i <= |buf| && Divides(buf[..i] + Encode(c) + buf[i..], i + |Encode(c)|, l + [c], r)
  {
    EncodeSnoc(l, c);
    hide EncodeAll, Encode;
    assert buf[..i] == EncodeAll(l) && buf[i..] == EncodeAll(r);
  }

  predicate LooksBack(a: Action) {
    a.Start? || a.Back? || a.WordBack? || a.EraseBack? || a.EraseWordBack? || a.EraseToStart?
  }

  predicate Erases(a: Action) {
    a.EraseBack? || a.EraseForward? || a.EraseWordBack? || a.EraseWordForward? || a.EraseToStart? || a.EraseToEnd?
  }

  lemma MovesKeepText(f: Field, a: Action)
    requires !Erases(a) && !a.Insert? && !a.Ignore?
    ensures Apply(f, a).Text() == f.Text()
    ensures |Apply(f, a).left| == |f.left| <==> if LooksBack(a) then f.left == [] else f.right == []
  {
    if LooksBack(a) {
      BackMovesKeepText(f, a);
    } else {
      ForwardMovesKeepText(f, a);
    }
  }

  lemma BackMovesKeepText(f: Field, a: Action)
    requires a.Start? || a.Back? || a.WordBack?
    ensures Apply(f, a).Text() == f.Text()
    ensures |Apply(f, a).left| == |f.left| <==> f.left == []
  {
    var l, r := f.left, f.right;
    WordStartIs(l);
    hide WordStart, WordEnd, DropSeparatorsBack, AllSeparate, NoneSeparates;
    if a.Back? && l != [] {
      Rejoin(l, l[..|l| - 1], r);
      assert l[|l| - 1..] == [l[|l| - 1]];
    } else if a.WordBack? {
      Rejoin(l, WordStart(l), r);
    }
  }

  lemma ForwardMovesKeepText(f: Field, a: Action)
    requires a.Finish? || a.Forward? || a.WordForward?
    ensures Apply(f, a).Text() == f.Text()
    ensures |Apply(f, a).left| == |f.left| <==> f.right == []
  {
    var l, r := f.left, f.right;
    WordEndIs(r);
    hide WordStart, WordEnd, CountSeparators, AllSeparate, NoneSeparates;
    if a.Finish? {
      RejoinRight(l, r, |r|);
    } else if a.Forward? && r != [] {
      RejoinRight(l, r, 1);
      assert r[..1] == [r[0]];
    } else if a.WordForward? {
      RejoinRight(l, r, WordEnd(r));
    }
  }

  lemma Rejoin(l: seq<Scalar>, k: seq<Scalar>, r: seq<Scalar>)
    requires k <= l
    ensures k + (l[|k|..] + r) == l + r
  {
    assert k + l[|k|..] == l;
  }

  lemma RejoinRight(l: seq<Scalar>, r: seq<Scalar>, n: nat)
    requires n <= |r|
    ensures l + r[..n] + r[n..] == l + r
    ensures n == |r| ==> r[..n] == r
  {
    assert r[..n] + r[n..] == r;
  }

  lemma ErasesShrinkText(f: Field, a: Action)
    requires Erases(a)
    ensures if (if LooksBack(a) then f.left == [] else f.right == []) then Apply(f, a) == f
            else |Apply(f, a).Text()| < |f.Text()|
  {
    WordStartIs(f.left);
    WordEndIs(f.right);
    hide WordStart, WordEnd;
  }

  /** What each action does to the text and the cursor: nothing when there is nothing on its side. */
  lemma EventOf(f: Field, a: Action)
    ensures Happened(f, Apply(f, a), a) ==
            if a.Ignore? then Unhandled
            else if a.Insert? then Changed
            else if (if LooksBack(a) then f.left == [] else f.right == []) then Noop
            else if Erases(a) then Changed
            else Moved
  {
    if Erases(a) {
      ErasesShrinkText(f, a);
    } else if a.Insert? {
      assert |Apply(f, a).Text()| == |f.Text()| + 1;
    } else if !a.Ignore? {
      MovesKeepText(f, a);
    }
    hide Apply;
  }

  /** Where the character before a boundary starts; a boundary again, with only continuation bytes between. */
  lemma CharBefore(buf: seq<Byte>, idx: nat, l: seq<Scalar>, r: seq<Scalar>) returns (base: nat)
    requires Divides(buf, idx, l, r) && l != []
    ensures base < idx <= |buf| && Divides(buf, base, l[..|l| - 1], [l[|l| - 1]] + r)
    ensures buf[base] == Encode(l[|l| - 1])[0] && IsBoundary(buf, base)
    ensures forall j :: base < j < idx ==> !IsBoundary(buf, j)
  {
    LastBytes(buf, idx, l, r);
    EncodeShape(l[|l| - 1]);
    base := |EncodeAll(l[..|l| - 1])|;
    hide Encode, EncodeAll, Divides;
    At(buf, base, Encode(l[|l| - 1]));
  }

  lemma CharAfter(buf: seq<Byte>, idx: nat, l: seq<Scalar>, r: seq<Scalar>) returns (end: nat)
    requires Divides(buf, idx, l, r) && r != []
    ensures idx < end <= |buf| && Divides(buf, end, l + [r[0]], r[1..])
    ensures buf[idx] == Encode(r[0])[0] && IsBoundary(buf, end)
    ensures forall j :: idx < j < end ==> !IsBoundary(buf, j)
  {
    FirstBytes(buf, idx, l, r);
    EncodeShape(r[0]);
    end := idx + |Encode(r[0])|;
    StartsOnBoundary(buf, end, l + [r[0]], r[1..]);
    hide Encode, EncodeAll, Divides;
    At(buf, idx, Encode(r[0]));
  }

  lemma StartsOnBoundary(buf: seq<Byte>, idx: nat, l: seq<Scalar>, r: seq<Scalar>)
    requires Divides(buf, idx, l, r)
    ensures IsBoundary(buf, idx)
  {
    DividesEnds(buf, idx, l, r);
    if r != [] {
      FirstBytes(buf, idx, l, r);
      EncodeShape(r[0]);
      hide Encode, EncodeAll, Divides;
      assert buf[idx] == buf[idx..idx + |Encode(r[0])|][0];
    }
  }

  /** A backward scan of l | r has reached i, with k to its left. */
  ghost predicate Before(buf: seq<Byte>, i: nat, l: seq<Scalar>, r: seq<Scalar>, k: seq<Scalar>) {
    k <= l && Divides(buf, i, k, l[|k|..] + r)
  }

  lemma StartBefore(buf: seq<Byte>, i: nat, l: seq<Scalar>, r: seq<Scalar>)
    requires Divides(buf, i, l, r)
    ensures Before(buf, i, l, r, l)
  {
    assert l[|l|..] + r == r;
  }

  lemma FinishBefore(buf: seq<Byte>, l: seq<Scalar>, r: seq<Scalar>, k: seq<Scalar>)
    ensures forall i: nat :: Before(buf, i, l, r, k) ==> k <= l && Divides(buf, i, k, l[|k|..] + r)
  {
  }

  lemma BeforeEnds(buf: seq<Byte>, i: nat, l: seq<Scalar>, r: seq<Scalar>, k: seq<Scalar>)
    requires Before(buf, i, l, r, k)
    ensures |k| <= |l| && Divides(buf, i, k, l[|k|..] + r) && (i == 0 <==> k == [])
  {
    DividesEnds(buf, i, k, l[|k|..] + r);
  }

  lemma StepBefore(buf: seq<Byte>, prev: nat, l: seq<Scalar>, r: seq<Scalar>, k: seq<Scalar>)
    requires |k| <= |l| && k != [] && (exists i :: Before(buf, i, l, r, k))
    requires Divides(buf, prev, k[..|k| - 1], [k[|k| - 1]] + (l[|k|..] + r))
    ensures Before(buf, prev, l, r, k[..|k| - 1])
  {
    hide Divides;
    assert [k[|k| - 1]] + (l[|k|..] + r) == l[|k| - 1..] + r;
  }

  lemma DropStep(k: seq<Scalar>)
    ensures k == [] ==> DropSeparatorsBack(k) == k && DropWordBack(k) == k
    ensures k != [] ==> DropSeparatorsBack(k) == if Separates(k[|k| - 1]) then DropSeparatorsBack(k[..|k| - 1]) else k
    ensures k != [] ==> DropWordBack(k) == if !Separates(k[|k| - 1]) then DropWordBack(k[..|k| - 1]) else k
  {
  }

  lemma WordStartFrom(l: seq<Scalar>)
    ensures WordStart(l) == DropWordBack(DropSeparatorsBack(l))
  {
  }

  /** A forward scan of l | r has reached i, past n characters of r. */
  ghost predicate After(buf: seq<Byte>, i: nat, l: seq<Scalar>, r: seq<Scalar>, n: nat) {
    n <= |r| && Divides(buf, i, l + r[..n], r[n..])
  }

  lemma StartAfter(buf: seq<Byte>, i: nat, l: seq<Scalar>, r: seq<Scalar>)
    requires Divides(buf, i, l, r)
    ensures After(buf, i, l, r, 0) && r[0..] == r
  {
    assert l + r[..0] == l && r[0..] == r;
  }

  lemma FinishAfter(buf: seq<Byte>, l: seq<Scalar>, r: seq<Scalar>, n: nat)
    requires n <= |r|
    ensures forall i: nat :: After(buf, i, l, r, n) ==> Divides(buf, i, l + r[..n], r[n..])
  {
  }

  lemma AfterEnds(buf: seq<Byte>, i: nat, l: seq<Scalar>, r: seq<Scalar>, n: nat)
    requires After(buf, i, l, r, n)
    ensures n <= |r| && Divides(buf, i, l + r[..n], r[n..]) && i <= |buf| && (i == |buf| <==> n == |r|)
    ensures n < |r| ==> buf[i] == Encode(r[n])[0]
  {
    DividesEnds(buf, i, l + r[..n], r[n..]);
    if n < |r| {
      FirstBytes(buf, i, l + r[..n], r[n..]);
      hide Encode, EncodeAll, Divides;
      assert buf[i] == buf[i..i + |Encode(r[n])|][0];
    }
  }

  lemma StepAfter(buf: seq<Byte>, i: nat, l: seq<Scalar>, r: seq<Scalar>, n: nat)
    requires n < |r| && Divides(buf, i, l + r[..n] + [r[n..][0]], r[n..][1..])
    ensures After(buf, i, l, r, n + 1)
  {
    hide Divides;
    assert l + r[..n] + [r[n..][0]] == l + r[..n + 1] && r[n..][1..] == r[n + 1..];
  }

  function SeparatorsLeft(r: seq<Scalar>, n: nat): nat
    requires n <= |r|
  {
    CountSeparators(r[n..])
  }

  function WordLeft(r: seq<Scalar>, n: nat): nat
    requires n <= |r|
  {
    CountWord(r[n..])
  }

  lemma CountStep(r: seq<Scalar>, n: nat)
    requires n <= |r|
    ensures n == |r| ==> SeparatorsLeft(r, n) == 0 && WordLeft(r, n) == 0
    ensures n < |r| ==> SeparatorsLeft(r, n) == if Separates(r[n]) then 1 + SeparatorsLeft(r, n + 1) else 0
    ensures n < |r| ==> WordLeft(r, n) == if !Separates(r[n]) then 1 + WordLeft(r, n + 1) else 0
  {
    if n < |r| {
      assert r[n..][1..] == r[n + 1..];
    }
  }

  lemma CountAll(r: seq<Scalar>)
    ensures SeparatorsLeft(r, 0) == CountSeparators(r)
  {
    assert r[0..] == r;
  }

  lemma WordLeftIs(r: seq<Scalar>, n: nat)
    requires n <= |r|
    ensures WordLeft(r, n) == CountWord(r[n..])
  {
  }

  lemma WordEndFrom(r: seq<Scalar>)
    ensures WordEnd(r) == CountSeparators(r) + CountWord(r[CountSeparators(r)..])
  {
  }
}
