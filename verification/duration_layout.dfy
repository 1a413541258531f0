/** The shape of the text `format` writes, stated as a parse tree of the
    grammar: the non-zero components in week, day, hour, minute and second
    order, each as its shortest digits right before its unit letter, one
    space between consecutive tokens and no other blank. Since a text has
    only one reading (`TreeUnique`), the tree fixes how the text reads. */
module DurationLayout {
  import opened Wrappers
  import opened Decimal
  import opened DurationCodec
  import opened DurationGrammar

  /** Component `u` of a breakdown, in unit order. */
  function Component(b: Breakdown, u: nat): nat
    requires u < 5
  {
    [b.weeks, b.days, b.hours, b.minutes, b.seconds][u]
  }

  /** Some field before unit `u` is present. */
  predicate Started(fs: seq<Option<nat>>, u: nat)
    requires |fs| == 5 && u <= 5
  {
    exists v :: 0 <= v < u && fs[v].Some?
  }

  /** The pieces of the fields written with single spaces: each present
      field as its shortest digits with no gap before the letter, a space in
      front of every group but the first, no blank anywhere else. */
  function Layout(fs: seq<Option<nat>>): (ps: seq<Piece>)
    requires |fs| == 5
    ensures |ps| == 5
  {
    seq(5, u requires 0 <= u < 5 =>
      Piece(if fs[u].Some? && Started(fs, u) then " " else "",
            if fs[u].Some? then Some(Group(NatToString(fs[u].value), "")) else None))
  }

  // ------------------------------------------------------------ properties

  /** `format` writes the text of a parse tree whose groups are the non-zero
      components of the normal breakdown (the seconds also when the whole
      duration is zero), each in its shortest digits, with a single space
      before every group but the first and no other blank. */
  lemma FormatTree(d: Duration) returns (t: Tree)
    ensures WellFormed(t) && Text(t) == Format(Some(d))
    ensures t.trail == ""
    ensures forall u :: 0 <= u < 5 && t.pieces[u].group.None? ==> t.pieces[u].lead == ""
    ensures forall u :: 0 <= u < 5 && t.pieces[u].group.Some? ==>
              t.pieces[u].group.value.gap == ""
              && t.pieces[u].lead == (if exists v :: 0 <= v < u && t.pieces[v].group.Some? then " " else "")
    ensures forall u :: 0 <= u < 5 ==>
              var c := Component(Decompose(d.seconds), u);
              (Groups(t)[u].Some? <==> c > 0 || (u == 4 && d.seconds == 0))
              && (Groups(t)[u].Some? ==> Groups(t)[u].value == c
                                         && t.pieces[u].group.value.digits == NatToString(c))
  {
    var b := Decompose(d.seconds);
    var fs := Present(b);
    t := Tree(Layout(fs), "");
    LayoutOk(fs);
    assert Text(t) == Format(Some(d)) by {
      LayoutSpells(fs, 0);
      assert Layout(fs)[0..] == Layout(fs);
      assert !Started(fs, 0);
    }
    assert Groups(t) == fs by {
      LayoutValues(fs, 0);
      assert Layout(fs)[0..] == Layout(fs);
      assert fs[0..] == fs;
    }
    LayoutLeads(fs);
    PresentComponents(d);
  }

  /** A field of `format` is written exactly when its component is non-zero,
      or for the seconds of a zero duration. */
  lemma PresentComponents(d: Duration)
    ensures forall u :: 0 <= u < 5 ==>
              var c := Component(Decompose(d.seconds), u);
              Present(Decompose(d.seconds))[u] == if c > 0 || (u == 4 && d.seconds == 0) then Some(c) else None
  {
    var b := Decompose(d.seconds);
    assert TotalSeconds(b) == d.seconds;
  }

  /** The leads of the layout: a space exactly before a group that has an
      earlier one. */
  lemma LayoutLeads(fs: seq<Option<nat>>)
    requires |fs| == 5
    ensures forall u :: 0 <= u < 5 && Layout(fs)[u].group.None? ==> Layout(fs)[u].lead == ""
    ensures forall u :: 0 <= u < 5 && Layout(fs)[u].group.Some? ==>
              Layout(fs)[u].group.value.gap == ""
              && Layout(fs)[u].lead == (if exists v :: 0 <= v < u && Layout(fs)[v].group.Some? then " " else "")
              && Layout(fs)[u].group.value.digits == NatToString(fs[u].value)
  {
    var ps := Layout(fs);
    forall u | 0 <= u < 5 && ps[u].group.Some?
      ensures ps[u].lead == (if exists v :: 0 <= v < u && ps[v].group.Some? then " " else "")
    {
      if Started(fs, u) {
        var v :| 0 <= v < u && fs[v].Some?;
        assert ps[v].group.Some?;
      }
    }
  }

  lemma LayoutOk(fs: seq<Option<nat>>)
    requires |fs| == 5
    ensures PiecesOk(Layout(fs))
  {
    var ps := Layout(fs);
    forall u | 0 <= u < 5
      ensures PieceOk(ps[u])
    {
      assert AllSpace(" ");
    }
  }

  /** A field before `u + 1` is present when one before `u` is or the field
      of `u` is. */
  lemma StartedStep(fs: seq<Option<nat>>, u: nat)
    requires |fs| == 5 && u < 5
    ensures Started(fs, u + 1) <==> Started(fs, u) || fs[u].Some?
  {
    if Started(fs, u + 1) && !fs[u].Some? {
      var v :| 0 <= v < u + 1 && fs[v].Some?;
      assert v < u;
    }
    if Started(fs, u) {
      var v :| 0 <= v < u && fs[v].Some?;
      assert 0 <= v < u + 1 && fs[v].Some?;
    }
  }

  /** The layout from unit `u` on spells the tokens from `u` on joined by
      single spaces, after one more space when an earlier token was
      written. */
  lemma {:induction false} LayoutSpells(fs: seq<Option<nat>>, u: nat)
    requires |fs| == 5 && u <= 5
    ensures Spell(Layout(fs)[u..], u, "")
         == (if Started(fs, u) && |Tokens(fs, u)| > 0 then " " else "") + Join(Tokens(fs, u), " ")
    decreases 5 - u
  {
    if u < 5 {
      var ps := Layout(fs)[u..];
      assert ps[1..] == Layout(fs)[u + 1..];
      LayoutSpells(fs, u + 1);
      StartedStep(fs, u);
      if fs[u].Some? {
        LayoutSpellsPresent(fs, u);
      }
    }
  }

  lemma LayoutSpellsPresent(fs: seq<Option<nat>>, u: nat)
    requires |fs| == 5 && u < 5 && fs[u].Some?
    requires Spell(Layout(fs)[u + 1..], u + 1, "")
          == (if |Tokens(fs, u + 1)| > 0 then " " else "") + Join(Tokens(fs, u + 1), " ")
    ensures Spell(Layout(fs)[u..], u, "")
         == (if Started(fs, u) then " " else "") + Join(Tokens(fs, u), " ")
  {
    var ps := Layout(fs)[u..];
    var tok := NatToString(fs[u].value) + [Units[u]];
    var rest := Tokens(fs, u + 1);
    var lead := if Started(fs, u) then " " else "";
    assert ps[0].lead == lead && GroupText(ps[0].group, Units[u]) == tok by {
      assert ps[0] == Layout(fs)[u];
    }
    assert Spell(ps, u, "") == lead + (tok + Spell(Layout(fs)[u + 1..], u + 1, "")) by {
      SpellHead(ps, u, "");
      assert ps[1..] == Layout(fs)[u + 1..];
    }
    assert Join(Tokens(fs, u), " ") == tok + (if |rest| == 0 then "" else " ") + Join(rest, " ") by {
      JoinCons(tok, rest, " ");
      assert Tokens(fs, u) == [tok] + rest;
    }
    Regroup(lead, tok, if |rest| == 0 then "" else " ", Join(rest, " "));
  }

  lemma Regroup(a: string, b: string, c: string, d: string)
    ensures a + (b + (c + d)) == a + (b + c + d)
  {
  }

  /** The layout from unit `u` on holds the fields from `u` on. */
  lemma {:induction false} LayoutValues(fs: seq<Option<nat>>, u: nat)
    requires |fs| == 5 && u <= 5
    ensures PiecesOk(Layout(fs)[u..]) && Values(Layout(fs)[u..]) == fs[u..]
    decreases 5 - u
  {
    LayoutOk(fs);
    if u < 5 {
      var ps := Layout(fs)[u..];
      assert ps[1..] == Layout(fs)[u + 1..];
      LayoutValues(fs, u + 1);
      if fs[u].Some? {
        NatToStringRoundTrip(fs[u].value);
      }
      assert fs[u..] == [fs[u]] + fs[u + 1..];
    }
  }
}
