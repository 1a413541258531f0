/** The pattern `parse` matches, stated as a grammar. A text matches when it
    can be cut into `\s*`, then, for the weeks, days, hours, minutes and
    seconds in that order, an optional group `(\d+)\s*<unit>` followed by
    `\s*`. A parse tree records such a cut. The theorems say that `Parse`
    accepts a non-blank text exactly when it has a parse tree, that the
    duration is the sum of the tree's groups, and that a text has only one
    reading. */
module DurationGrammar {
  import opened Wrappers
  import opened Decimal
  import opened DurationCodec

  /** A group `(\d+)\s*` in front of its unit letter. */
  datatype Group = Group(digits: string, gap: string)

  /** The `\s*` in front of a unit's place, and the group there, if any. */
  datatype Piece = Piece(lead: string, group: Option<Group>)

  /** A parse tree: one piece per unit, in unit order, and the closing `\s*`. */
  datatype Tree = Tree(pieces: seq<Piece>, trail: string)

  predicate GroupOk(g: Group) {
    |g.digits| > 0 && AllDigits(g.digits) && AllSpace(g.gap)
  }

  predicate PieceOk(p: Piece) {
    AllSpace(p.lead) && (p.group.Some? ==> GroupOk(p.group.value))
  }

  predicate PiecesOk(ps: seq<Piece>) {
    forall i :: 0 <= i < |ps| ==> PieceOk(ps[i])
  }

  predicate WellFormed(t: Tree) {
    |t.pieces| == 5 && PiecesOk(t.pieces) && AllSpace(t.trail)
  }

  function GroupText(g: Option<Group>, unit: char): string {
    if g.Some? then g.value.digits + g.value.gap + [unit] else ""
  }

  /** The text of the pieces of units `u` on, followed by `trail`. */
  function Spell(ps: seq<Piece>, u: nat, trail: string): string
    requires u + |ps| == 5
    decreases |ps|
  {
    if |ps| == 0 then trail
    else ps[0].lead + GroupText(ps[0].group, Units[u]) + Spell(ps[1..], u + 1, trail)
  }

  /** The text a parse tree spells. */
  function Text(t: Tree): string
    requires |t.pieces| == 5
  {
    Spell(t.pieces, 0, t.trail)
  }

  /** The value of each group, as `Integer.parseInt` reads its digits. */
  function Values(ps: seq<Piece>): (fs: seq<Option<nat>>)
    requires PiecesOk(ps)
    ensures |fs| == |ps|
    ensures forall i :: 0 <= i < |ps| ==> (fs[i].Some? <==> ps[i].group.Some?)
  {
    if |ps| == 0 then []
    else
      assert PieceOk(ps[0]);
      [if ps[0].group.Some? then Some(DigitsValue(ps[0].group.value.digits)) else None] + Values(ps[1..])
  }

  /** The five optional fields a parse tree gives `parse`. */
  function Groups(t: Tree): (fs: seq<Option<nat>>)
    requires WellFormed(t)
    ensures |fs| == 5
  {
    Values(t.pieces)
  }

  /** `s` matches the pattern of `parse`. */
  ghost predicate Matches(s: string) {
    exists t :: WellFormed(t) && Text(t) == s
  }

  // ------------------------------------------------------------ properties

  /** Every text with a parse tree parses, to the sum of its groups in
      seconds. A blank text has no groups and parses as zero without the
      pattern being consulted. */
  lemma ParseTree(t: Tree)
    requires WellFormed(t)
    ensures Parse(Some(Text(t))) == Success(Duration(FieldSeconds(Groups(t), 0), 0))
  {
    assert Scan(Text(t), 0) == Some(Groups(t)) by {
      SpellScans(t.pieces, 0, t.trail);
    }
    BlankTree(t);
  }

  /** A blank parse tree has no groups, so it adds up to no seconds. */
  lemma BlankTree(t: Tree)
    requires WellFormed(t)
    ensures IsBlank(Text(t)) ==> FieldSeconds(Groups(t), 0) == 0
  {
    var s := Text(t);
    var v, tail := FirstGroup(t.pieces, 0, t.trail);
    if v < 5 {
      var k := SpaceRun(s);
      var g := t.pieces[v].group.value;
      assert s[k..][0] == g.digits[0];
      assert s[k] == g.digits[0] && IsDigit(s[k]);
    } else {
      SecondsOfNone(Groups(t), 0);
    }
  }

  /** A non-blank text parses exactly when it has a parse tree; without one
      it is rejected with the message that quotes it. */
  lemma ParseMatches(s: string)
    requires !IsBlank(s)
    ensures Parse(Some(s)).Success? <==> Matches(s)
    ensures !Matches(s) ==> Parse(Some(s)) == Failure(IllegalFormat(FormatMessage(s)))
  {
    if Parse(Some(s)).Success? {
      var ps, trail := ScanTree(s, 0);
      assert SpellsAs(ps, 0, trail, s);
      assert WellFormed(Tree(ps, trail)) && Text(Tree(ps, trail)) == s;
    }
    if Matches(s) {
      var t :| WellFormed(t) && Text(t) == s;
      ParseTree(t);
    }
  }

  /** The pattern reads a text in one way only: two parse trees of the same
      text have the same groups. */
  lemma TreeUnique(t1: Tree, t2: Tree)
    requires WellFormed(t1) && WellFormed(t2) && Text(t1) == Text(t2)
    ensures Groups(t1) == Groups(t2)
  {
    SpellScans(t1.pieces, 0, t1.trail);
    SpellScans(t2.pieces, 0, t2.trail);
  }

  // ----------------------------------------------------------- soundness

  /** The scan reads the text of the pieces of units `u` on back as their
      values. */
  predicate ScansBack(ps: seq<Piece>, u: nat, trail: string)
    requires u + |ps| == 5 && PiecesOk(ps)
  {
    Scan(Spell(ps, u, trail), u) == Some(Values(ps))
  }

  /** The scan reads the text of well-formed pieces back as their values. */
  lemma {:induction false} SpellScans(ps: seq<Piece>, u: nat, trail: string)
    requires u + |ps| == 5 && PiecesOk(ps) && AllSpace(trail)
    ensures ScansBack(ps, u, trail)
    decreases |ps|
  {
    if |ps| == 0 {
      ScansEnd(ps, u, trail);
    } else {
      SpellScans(ps[1..], u + 1, trail);
      ScansStep(ps, u, trail);
    }
  }

  lemma ScansEnd(ps: seq<Piece>, u: nat, trail: string)
    requires u + |ps| == 5 && |ps| == 0 && AllSpace(trail)
    ensures ScansBack(ps, u, trail)
  {
    AllSpaceRun(trail);
    assert trail[SpaceRun(trail)..] == [];
  }

  lemma ScansStep(ps: seq<Piece>, u: nat, trail: string)
    requires u + |ps| == 5 && |ps| > 0 && PiecesOk(ps) && AllSpace(trail)
    requires ScansBack(ps[1..], u + 1, trail)
    ensures ScansBack(ps, u, trail)
  {
    var p := ps[0];
    assert PieceOk(p);
    var rest := Spell(ps[1..], u + 1, trail);
    var g := GroupText(p.group, Units[u]);
    assert Scan(Spell(ps, u, trail), u) == Scan(g + rest, u) by {
      SpellHead(ps, u, trail);
      ScanSkipsSpace(p.lead, g + rest, u);
    }
    if p.group.Some? {
      PresentGroupScans(p.group.value, u, rest);
    } else {
      assert g + rest == rest;
      AbsentGroupScans(ps[1..], u, trail);
    }
  }

  /** A present group is read as the field of its unit, and the scan goes on
      after the unit letter. */
  lemma PresentGroupScans(g: Group, u: nat, rest: string)
    requires GroupOk(g) && u < 5 && Scan(rest, u + 1).Some?
    ensures Scan(GroupText(Some(g), Units[u]) + rest, u)
         == Some([Some(DigitsValue(g.digits))] + Scan(rest, u + 1).value)
  {
    var x := GroupText(Some(g), Units[u]) + rest;
    UnitLetters(u, u);
    assert x == g.digits + g.gap + [Units[u]] + rest;
    GroupRead(g.digits, g.gap, Units[u], rest, Units[u]);
    assert x[0] == g.digits[0];
    ScanToken(x, u);
  }

  /** The text of the first of several pieces, then the rest. */
  lemma SpellHead(ps: seq<Piece>, u: nat, trail: string)
    requires u + |ps| == 5 && |ps| > 0
    ensures Spell(ps, u, trail) == ps[0].lead + (GroupText(ps[0].group, Units[u]) + Spell(ps[1..], u + 1, trail))
  {
  }

  /** A text that starts with a group of unit `u` is scanned by reading it and
      going on after it. */
  lemma ScanToken(x: string, u: nat)
    requires u < 5 && |x| > 0 && !IsSpace(x[0]) && Token(x, Units[u]).Some?
    ensures Scan(x, u) == (var more := Scan(Token(x, Units[u]).value.1, u + 1);
      if more.Some? then Some([Some(Token(x, Units[u]).value.0)] + more.value) else None)
  {
    assert SpaceRun(x) == 0;
    assert x[SpaceRun(x)..] == x;
  }

  /** With the group of unit `u` absent, the scan finds no group of unit `u`
      and reads the later pieces. */
  lemma AbsentGroupScans(ps: seq<Piece>, u: nat, trail: string)
    requires u < 5 && u + 1 + |ps| == 5 && PiecesOk(ps) && AllSpace(trail)
    requires Scan(Spell(ps, u + 1, trail), u + 1) == Some(Values(ps))
    ensures Scan(Spell(ps, u + 1, trail), u) == Some([None] + Values(ps))
  {
    var rest := Spell(ps, u + 1, trail);
    var t := rest[SpaceRun(rest)..];
    assert Token(t, Units[u]).None? by {
      var v, tail := FirstGroup(ps, u + 1, trail);
      if v < 5 {
        var g := ps[v - u - 1].group.value;
        assert PieceOk(ps[v - u - 1]);
        UnitLetters(v, u);
        GroupRead(g.digits, g.gap, Units[v], tail, Units[u]);
      }
    }
    ScanSkip(rest, u);
    ScanStripped(rest, u + 1);
  }

  /** A text that does not start with a group of unit `u` is scanned by
      leaving that unit out. */
  lemma ScanSkip(x: string, u: nat)
    requires u < 5 && Token(x[SpaceRun(x)..], Units[u]).None?
    ensures Scan(x, u) == (var more := Scan(x[SpaceRun(x)..], u + 1);
      if more.Some? then Some([None] + more.value) else None)
  {
  }

  /** What the scan sees of the text of the pieces of units `u` on once
      leading `\s` is skipped: the first present group, of a unit `v` at or
      after `u`, or nothing at all when `v` is 5 and no group is present. */
  predicate FirstIs(ps: seq<Piece>, u: nat, trail: string, v: nat, tail: string)
    requires u + |ps| == 5
  {
    var s := Spell(ps, u, trail);
    u <= v <= 5
    && if v < 5 then
         ps[v - u].group.Some? && s[SpaceRun(s)..] == GroupText(ps[v - u].group, Units[v]) + tail
       else
         s[SpaceRun(s)..] == [] && forall i :: 0 <= i < |ps| ==> ps[i].group.None?
  }

  lemma {:induction false} FirstGroup(ps: seq<Piece>, u: nat, trail: string) returns (v: nat, tail: string)
    requires u + |ps| == 5 && PiecesOk(ps) && AllSpace(trail)
    ensures FirstIs(ps, u, trail, v, tail)
    decreases |ps|
  {
    if |ps| == 0 {
      AllSpaceRun(trail);
      v, tail := 5, [];
    } else if ps[0].group.Some? {
      v, tail := u, Spell(ps[1..], u + 1, trail);
      FirstHere(ps, u, trail);
    } else {
      v, tail := FirstGroup(ps[1..], u + 1, trail);
      FirstLater(ps, u, trail, v, tail);
    }
  }

  lemma FirstHere(ps: seq<Piece>, u: nat, trail: string)
    requires u + |ps| == 5 && |ps| > 0 && PiecesOk(ps) && ps[0].group.Some?
    ensures FirstIs(ps, u, trail, u, Spell(ps[1..], u + 1, trail))
  {
    var p := ps[0];
    assert PieceOk(p);
    var rest := Spell(ps[1..], u + 1, trail);
    var g := GroupText(p.group, Units[u]);
    SpellHead(ps, u, trail);
    SpaceRunAppend(p.lead, g + rest);
    assert (g + rest)[0] == p.group.value.digits[0];
    assert (g + rest)[SpaceRun(g + rest)..] == g + rest;
  }

  lemma FirstLater(ps: seq<Piece>, u: nat, trail: string, v: nat, tail: string)
    requires u + |ps| == 5 && |ps| > 0 && PiecesOk(ps) && ps[0].group.None?
    requires FirstIs(ps[1..], u + 1, trail, v, tail)
    ensures FirstIs(ps, u, trail, v, tail)
  {
    var p := ps[0];
    assert PieceOk(p);
    var rest := Spell(ps[1..], u + 1, trail);
    SpellHead(ps, u, trail);
    assert GroupText(p.group, Units[u]) + rest == rest;
    SpaceRunAppend(p.lead, rest);
    if v < 5 {
      assert ps[1..][v - u - 1] == ps[v - u];
    } else {
      assert forall i :: 1 <= i < |ps| ==> ps[i] == ps[1..][i - 1];
    }
  }

  /** A group `<digits>\s*<c>` is read as a field of unit `c` and of no other
      unit. */
  lemma GroupRead(digits: string, gap: string, c: char, tail: string, unit: char)
    requires |digits| > 0 && AllDigits(digits) && AllSpace(gap) && !IsDigit(c) && !IsSpace(c)
    ensures Token(digits + gap + [c] + tail, unit) == if c == unit then Some((DigitsValue(digits), tail)) else None
  {
    var x := digits + gap + [c] + tail;
    var r := gap + ([c] + tail);
    DigitsBeforeGap(digits, gap, c, tail);
    GapSkipped(gap, c, tail);
    assert x[DigitRun(x)..] == r;
  }

  /** The digit run of a group is its digits, followed by the rest. */
  lemma DigitsBeforeGap(digits: string, gap: string, c: char, tail: string)
    requires AllDigits(digits) && AllSpace(gap) && !IsDigit(c)
    ensures var x := digits + gap + [c] + tail;
      DigitRun(x) == |digits| && x[..|digits|] == digits && x[|digits|..] == gap + ([c] + tail)
  {
    var x := digits + gap + [c] + tail;
    var r := gap + ([c] + tail);
    assert x == digits + r;
    if |gap| > 0 {
      assert r[0] == gap[0];
    } else {
      assert r[0] == c;
    }
    DigitRunStops(digits, r);
  }

  /** The `\s` gap of a group is skipped up to the unit letter. */
  lemma GapSkipped(gap: string, c: char, tail: string)
    requires AllSpace(gap) && !IsSpace(c)
    ensures var r := gap + ([c] + tail); r[SpaceRun(r)..] == [c] + tail
  {
    SpaceRunAppend(gap, [c] + tail);
    NoLeadingSpace(c, tail);
  }

  /** The digit run of a text stops at its first non-digit. */
  lemma {:induction false} DigitRunStops(digits: string, r: string)
    requires AllDigits(digits) && |r| > 0 && !IsDigit(r[0])
    ensures DigitRun(digits + r) == |digits|
    decreases |digits|
  {
    if |digits| > 0 {
      assert (digits + r)[1..] == digits[1..] + r;
      DigitRunStops(digits[1..], r);
    } else {
      assert digits + r == r;
    }
  }

  /** A text of `\s` characters only is skipped entirely. */
  lemma AllSpaceRun(w: string)
    requires AllSpace(w)
    ensures SpaceRun(w) == |w|
  {
    SpaceRunAppend(w, []);
    assert w + [] == w;
  }

  /** The scan only sees the text after its leading `\s`. */
  lemma ScanStripped(x: string, u: nat)
    requires u <= 5
    ensures Scan(x, u) == Scan(x[SpaceRun(x)..], u)
  {
    var k := SpaceRun(x);
    assert x == x[..k] + x[k..];
    ScanSkipsSpace(x[..k], x[k..], u);
  }

  /** Fields that are all absent add up to no seconds. */
  lemma {:induction false} SecondsOfNone(fs: seq<Option<nat>>, u: nat)
    requires |fs| == 5 && u <= 5
    requires forall w :: u <= w < 5 ==> fs[w].None?
    ensures FieldSeconds(fs, u) == 0
    decreases 5 - u
  {
    if u < 5 {
      SecondsOfNone(fs, u + 1);
    }
  }

  // -------------------------------------------------------- completeness

  /** `ps` and `trail` are well-formed pieces of units `u` on spelling `s`. */
  predicate SpellsAs(ps: seq<Piece>, u: nat, trail: string, s: string) {
    u + |ps| == 5 && PiecesOk(ps) && AllSpace(trail) && Spell(ps, u, trail) == s
  }

  /** A text the scan accepts has a parse tree. */
  lemma {:induction false} ScanTree(s: string, u: nat) returns (ps: seq<Piece>, trail: string)
    requires u <= 5 && Scan(s, u).Some?
    ensures SpellsAs(ps, u, trail, s)
    decreases 5 - u
  {
    var k := SpaceRun(s);
    if u == 5 {
      ps, trail := [], s;
      assert s[k..] == [];
      assert s == s[..k] + s[k..];
    } else {
      var g, rest := HeadPiece(s, u);
      var later;
      later, trail := ScanTree(rest, u + 1);
      ps := [Piece(s[..k], g)] + later;
      ConsPiece(s, u, g, rest, later, trail);
    }
  }

  /** One more piece in front of a parse of the rest of the text. */
  lemma ConsPiece(s: string, u: nat, g: Option<Group>, rest: string, later: seq<Piece>, trail: string)
    requires u < 5 && (g.Some? ==> GroupOk(g.value))
    requires GroupText(g, Units[u]) + rest == s[SpaceRun(s)..]
    requires SpellsAs(later, u + 1, trail, rest)
    ensures SpellsAs([Piece(s[..SpaceRun(s)], g)] + later, u, trail, s)
  {
    var lead := s[..SpaceRun(s)];
    ConsOk(Piece(lead, g), later);
    ConsSpell(s, u, g, rest, later, trail);
  }

  lemma ConsSpell(s: string, u: nat, g: Option<Group>, rest: string, later: seq<Piece>, trail: string)
    requires u < 5 && u + 1 + |later| == 5
    requires GroupText(g, Units[u]) + rest == s[SpaceRun(s)..]
    requires Spell(later, u + 1, trail) == rest
    ensures Spell([Piece(s[..SpaceRun(s)], g)] + later, u, trail) == s
  {
    SpellCons(s[..SpaceRun(s)], g, later, u, trail);
    Glue(s, SpaceRun(s), GroupText(g, Units[u]), rest);
  }

  /** The text of one more piece in front of later ones. */
  lemma SpellCons(lead: string, g: Option<Group>, later: seq<Piece>, u: nat, trail: string)
    requires u < 5 && u + 1 + |later| == 5
    ensures Spell([Piece(lead, g)] + later, u, trail) == lead + GroupText(g, Units[u]) + Spell(later, u + 1, trail)
  {
    var ps := [Piece(lead, g)] + later;
    assert ps[0] == Piece(lead, g) && ps[1..] == later;
  }

  /** A text is its prefix followed by the two parts of the rest. */
  lemma Glue(s: string, k: nat, mid: string, rest: string)
    requires k <= |s| && mid + rest == s[k..]
    ensures s[..k] + mid + rest == s
  {
    assert s[..k] + mid + rest == s[..k] + (mid + rest);
    assert s == s[..k] + s[k..];
  }

  lemma ConsOk(p: Piece, later: seq<Piece>)
    requires PieceOk(p) && PiecesOk(later)
    ensures PiecesOk([p] + later)
  {
    var ps := [p] + later;
    assert forall i :: 1 <= i < |ps| ==> ps[i] == later[i - 1];
  }

  /** How the scan reads the place of unit `u`: the group it takes there, if
      any, and the text it goes on with. */
  lemma HeadPiece(s: string, u: nat) returns (g: Option<Group>, rest: string)
    requires u < 5 && Scan(s, u).Some?
    ensures g.Some? ==> GroupOk(g.value)
    ensures GroupText(g, Units[u]) + rest == s[SpaceRun(s)..]
    ensures Scan(rest, u + 1).Some?
  {
    var t := s[SpaceRun(s)..];
    var token := Token(t, Units[u]);
    if token.Some? {
      rest := token.value.1;
      var digits, gap := TokenParts(t, Units[u]);
      g := Some(Group(digits, gap));
    } else {
      g, rest := None, t;
      assert GroupText(g, Units[u]) + rest == t;
    }
  }

  /** The parts of a group the scan took: digits, `\s` gap, unit letter. */
  lemma TokenParts(t: string, unit: char) returns (digits: string, gap: string)
    requires Token(t, unit).Some?
    ensures GroupOk(Group(digits, gap))
    ensures t == digits + gap + [unit] + Token(t, unit).value.1
  {
    TokenSome(t, unit);
    var n := DigitRun(t);
    var m := SpaceRun(t[n..]);
    digits, gap := t[..n], t[n..][..m];
    CutThree(t, n, m);
  }

  /** A sequence cut before and after its element at `n + m`. */
  lemma CutThree<T>(t: seq<T>, n: nat, m: nat)
    requires n + m < |t|
    ensures t == t[..n] + t[n..][..m] + [t[n + m]] + t[n + m + 1..]
  {
    assert t[n..][..m] == t[n..n + m];
  }

  /** Where a group the scan took ends: the unit letter after the digit run
      and its `\s` gap. */
  lemma TokenSome(t: string, unit: char)
    requires Token(t, unit).Some?
    ensures var n := DigitRun(t); var m := SpaceRun(t[n..]);
      n > 0 && n + m < |t| && t[n + m] == unit && Token(t, unit).value.1 == t[n + m + 1..]
  {
    var n := DigitRun(t);
    TokenAfter(t, unit);
    SliceOfSlice(t, n, SpaceRun(t[n..]));
  }

  /** What `Token` requires of the text after the digits and the gap. */
  lemma TokenAfter(t: string, unit: char)
    requires Token(t, unit).Some?
    ensures var after := t[DigitRun(t)..][SpaceRun(t[DigitRun(t)..])..];
      DigitRun(t) > 0 && |after| > 0 && after[0] == unit && Token(t, unit).value.1 == after[1..]
  {
  }

  lemma SliceOfSlice<T>(t: seq<T>, n: nat, m: nat)
    requires n + m <= |t|
    ensures t[n..][m..] == t[n + m..]
  {
  }

  // ----------------------------------------------------------- rejection

  /** Only `\s`, digits and the letters of units `u` on occur in a text the
      scan accepts from unit `u`. */
  lemma {:induction false} LettersFrom(s: string, u: nat, i: nat)
    requires u <= 5 && Scan(s, u).Some? && i < |s|
    ensures IsSpace(s[i]) || IsDigit(s[i]) || exists v :: u <= v < 5 && s[i] == Units[v]
    decreases 5 - u
  {
    var k := SpaceRun(s);
    var t := s[k..];
    if i < k {
      assert s[..k][i] == s[i];
    } else if u < 5 {
      var p := i - k;
      assert t[p] == s[i];
      if Token(t, Units[u]).Some? {
        var rest := Token(t, Units[u]).value.1;
        var a := |t| - |rest|;
        if p >= a {
          LettersFrom(rest, u + 1, p - a);
          assert rest[p - a] == t[p];
        } else {
          TokenAlphabet(t, Units[u], p);
        }
      } else {
        LettersFrom(t, u + 1, p);
      }
    }
  }

  /** After the letter of unit `a` in accepted text, the rest of the text is
      accepted from the next unit on. */
  lemma {:induction false} AfterLetter(s: string, u: nat, i: nat, a: nat)
    requires u <= 5 && a < 5 && Scan(s, u).Some? && i < |s|
    ensures s[i] == Units[a] ==> u <= a && Scan(s[i + 1..], a + 1).Some?
    decreases 5 - u, 1
  {
    UnitLetters(a, a);
    var k := SpaceRun(s);
    var t := s[k..];
    if i < k {
      assert s[..k][i] == s[i];
    } else if u < 5 {
      var p := i - k;
      assert t[p] == s[i] && s[i + 1..] == t[p + 1..];
      ScanStripped(s, u);
      NoLeadingSpaceLeft(s);
      AfterLetterStripped(t, u, p, a);
    }
  }

  /** After the leading `\s` run nothing is left to skip. */
  lemma NoLeadingSpaceLeft(s: string)
    ensures SpaceRun(s[SpaceRun(s)..]) == 0
  {
    var k := SpaceRun(s);
    if k < |s| {
      assert s[k..][0] == s[k];
    }
  }

  /** `AfterLetter` for a text with no leading `\s`. */
  lemma {:induction false} AfterLetterStripped(t: string, u: nat, p: nat, a: nat)
    requires u < 5 && a < 5 && Scan(t, u).Some? && SpaceRun(t) == 0 && p < |t|
    ensures t[p] == Units[a] ==> u <= a && Scan(t[p + 1..], a + 1).Some?
    decreases 5 - u, 0
  {
    assert t[SpaceRun(t)..] == t;
    if Token(t, Units[u]).Some? {
      var rest := Token(t, Units[u]).value.1;
      var m := |t| - |rest|;
      ScanToken(t, u);
      assert Scan(rest, u + 1).Some?;
      if p < m {
        GroupLetter(t, u, p, a);
      } else {
        AfterLetter(rest, u + 1, p - m, a);
        assert rest == t[m..];
        SliceOfSlice(t, m, p - m + 1);
        assert rest[p - m] == t[p];
      }
    } else {
      ScanSkip(t, u);
      assert Scan(t, u + 1).Some?;
      AfterLetter(t, u + 1, p, a);
    }
  }

  /** Inside a group the scan took, the only unit letter is the group's own,
      and the scan goes on right after it. */
  lemma GroupLetter(t: string, u: nat, p: nat, a: nat)
    requires u < 5 && a < 5 && Token(t, Units[u]).Some?
    requires p < |t| - |Token(t, Units[u]).value.1|
    requires Scan(Token(t, Units[u]).value.1, u + 1).Some?
    ensures t[p] == Units[a] ==> u <= a && Scan(t[p + 1..], a + 1).Some?
  {
    GroupLetterAt(t, u, p, a);
    if t[p] == Units[a] {
      ScanSame(t[p + 1..], Token(t, Units[u]).value.1, a + 1, u + 1);
    }
  }

  lemma ScanSame(x: string, y: string, u: nat, v: nat)
    requires x == y && u == v && v <= 5 && Scan(y, v).Some?
    ensures Scan(x, u).Some?
  {
  }

  lemma GroupLetterAt(t: string, u: nat, p: nat, a: nat)
    requires u < 5 && a < 5 && Token(t, Units[u]).Some?
    requires p < |t| - |Token(t, Units[u]).value.1|
    ensures t[p] == Units[a] ==> a == u && t[p + 1..] == Token(t, Units[u]).value.1
  {
    var digits, gap := TokenParts(t, Units[u]);
    var rest := Token(t, Units[u]).value.1;
    var n := |digits| + |gap|;
    UnitLetters(a, u);
    if p < |digits| {
      assert t[p] == digits[p];
    } else if p < n {
      assert t[p] == gap[p - |digits|];
    } else {
      assert t[p] == Units[u] && t[p + 1..] == rest;
    }
  }

  /** The unit letters of accepted text occur in strictly increasing unit
      order: no unit twice, none after a smaller one. */
  lemma UnitsInOrder(s: string, i: nat, j: nat, a: nat, b: nat)
    requires Scan(s, 0).Some? && i < j < |s| && a < 5 && b < 5
    requires s[i] == Units[a] && s[j] == Units[b]
    ensures a < b
  {
    AfterLetter(s, 0, i, a);
    var rest := s[i + 1..];
    assert rest[j - i - 1] == s[j];
    LettersFrom(rest, a + 1, j - i - 1);
    UnitLetters(b, b);
    var v :| a + 1 <= v < 5 && s[j] == Units[v];
    UnitLetters(v, b);
  }

  /** A text with a unit letter repeated or after a later unit's letter is
      rejected with the message that quotes it. */
  lemma ParseRejectsDisorder(s: string, i: nat, j: nat, a: nat, b: nat)
    requires i < j < |s| && a < 5 && b <= a
    requires s[i] == Units[a] && s[j] == Units[b]
    ensures Parse(Some(s)) == Failure(IllegalFormat(FormatMessage(s)))
  {
    assert Units == ['w', 'd', 'h', 'm', 's'];
    assert !IsBlank(s) by {
      assert ' ' < s[i];
    }
    if Scan(s, 0).Some? {
      UnitsInOrder(s, i, j, a, b);
    }
  }

  /** Accepted text does not end in a digit: every group is closed by its
      unit letter. */
  lemma {:induction false} NoTrailingDigit(s: string, u: nat)
    requires u <= 5 && Scan(s, u).Some?
    ensures |s| > 0 ==> !IsDigit(s[|s| - 1])
    decreases 5 - u
  {
    var k := SpaceRun(s);
    var t := s[k..];
    if |s| > 0 {
      if t == [] {
        assert s == s[..k] + t;
        assert s[..k][|s| - 1] == s[|s| - 1];
      } else if u < 5 {
        assert t[|t| - 1] == s[|s| - 1];
        if Token(t, Units[u]).Some? {
          var digits, gap := TokenParts(t, Units[u]);
          var rest := Token(t, Units[u]).value.1;
          UnitLetters(u, u);
          if rest == [] {
            assert t[|t| - 1] == Units[u];
          } else {
            NoTrailingDigit(rest, u + 1);
            assert rest[|rest| - 1] == t[|t| - 1];
          }
        } else {
          NoTrailingDigit(t, u + 1);
        }
      }
    }
  }

  /** Accepted text starts, after its leading `\s`, with a digit. */
  lemma {:induction false} LeadingDigit(s: string, u: nat)
    requires u <= 5 && Scan(s, u).Some?
    ensures SpaceRun(s) < |s| ==> IsDigit(s[SpaceRun(s)])
    decreases 5 - u
  {
    var k := SpaceRun(s);
    var t := s[k..];
    if u < 5 && t != [] {
      assert t[0] == s[k];
      if Token(t, Units[u]).Some? {
        var digits, gap := TokenParts(t, Units[u]);
        assert t[0] == digits[0];
      } else {
        LeadingDigit(t, u + 1);
        assert SpaceRun(t) == 0;
      }
    }
  }

  /** A non-blank text that ends in a digit, or whose first visible
      character is not a digit, is rejected with the message that quotes
      it. */
  lemma ParseRejectsUnclosed(s: string)
    requires |s| > 0 && !IsBlank(s)
    requires IsDigit(s[|s| - 1]) || (SpaceRun(s) < |s| && !IsDigit(s[SpaceRun(s)]))
    ensures Parse(Some(s)) == Failure(IllegalFormat(FormatMessage(s)))
  {
    ScanRejectsUnclosed(s);
    ParseOfRejected(s);
  }

  /** A non-blank text the scan rejects fails with the quoting message. */
  lemma ParseOfRejected(s: string)
    requires !IsBlank(s) && Scan(s, 0).None?
    ensures Parse(Some(s)) == Failure(IllegalFormat(FormatMessage(s)))
  {
  }

  lemma ScanRejectsUnclosed(s: string)
    requires |s| > 0
    requires IsDigit(s[|s| - 1]) || (SpaceRun(s) < |s| && !IsDigit(s[SpaceRun(s)]))
    ensures Scan(s, 0).None?
  {
    if Scan(s, 0).Some? {
      NoTrailingDigit(s, 0);
      LeadingDigit(s, 0);
    }
  }
}
