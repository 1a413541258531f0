/** The examples of the duration converter's test, as consequences of the
    general lemmas: each text is the rendering of its fields, so it parses
    to their sum with or without spaces, and each duration formats to it. */
module DurationExamples {
  import opened Wrappers
  import opened Decimal
  import opened DurationCodec
  import opened DurationGrammar

  // 12345 seconds: 3 hours, 25 minutes, 45 seconds.

  const ShortFields: seq<Option<nat>> := [None, None, Some(3), Some(25), Some(45)]

  lemma ShortTokens()
    ensures Tokens(ShortFields, 0) == ["3h", "25m", "45s"]
  {
    assert NatToString(25) == "25" && NatToString(45) == "45" && NatToString(3) == "3";
    assert Units[2] == 'h' && Units[3] == 'm' && Units[4] == 's';
    assert "45" + ['s'] == "45s" && "25" + ['m'] == "25m" && "3" + ['h'] == "3h";
    assert Tokens(ShortFields, 5) == [];
    assert Tokens(ShortFields, 4) == ["45s"];
    assert Tokens(ShortFields, 3) == ["25m", "45s"];
  }

  lemma ShortTexts()
    ensures Render(ShortFields, " ") == "3h 25m 45s"
    ensures Render(ShortFields, "") == "3h25m45s"
  {
    ShortTokens();
  }

  lemma ShortFormat()
    ensures Format(Some(Duration(12345, 0))) == "3h 25m 45s"
  {
    assert Decompose(12345) == Breakdown(0, 0, 3, 25, 45);
    assert Present(Breakdown(0, 0, 3, 25, 45)) == ShortFields;
    ShortTexts();
  }

  lemma ShortParse()
    ensures Parse(Some("3h 25m 45s")) == Success(Duration(12345, 0))
    ensures Parse(Some("3h25m45s")) == Success(Duration(12345, 0))
  {
    ShortTexts();
    var total := FieldSeconds(ShortFields, 0);
    assert total == 12345;
    ParsesTo(ShortFields, " ", total);
    ParsesTo(ShortFields, "", total);
  }

  // Nine days, 3 hours, 4 minutes and 5 seconds: 788645 seconds.

  const FullFields: seq<Option<nat>> := [Some(1), Some(2), Some(3), Some(4), Some(5)]

  lemma FullTokens()
    ensures Tokens(FullFields, 0) == ["1w", "2d", "3h", "4m", "5s"]
  {
    assert Units[0] == 'w' && Units[1] == 'd' && Units[2] == 'h' && Units[3] == 'm' && Units[4] == 's';
    assert NatToString(1) == "1" && NatToString(2) == "2" && NatToString(3) == "3";
    assert NatToString(4) == "4" && NatToString(5) == "5";
    assert "5" + ['s'] == "5s" && "4" + ['m'] == "4m" && "3" + ['h'] == "3h";
    assert "2" + ['d'] == "2d" && "1" + ['w'] == "1w";
    assert Tokens(FullFields, 5) == [];
    assert Tokens(FullFields, 4) == ["5s"];
    assert Tokens(FullFields, 3) == ["4m", "5s"];
    assert Tokens(FullFields, 2) == ["3h", "4m", "5s"];
    assert Tokens(FullFields, 1) == ["2d", "3h", "4m", "5s"];
  }

  lemma FullTexts()
    ensures Render(FullFields, " ") == "1w 2d 3h 4m 5s"
    ensures Render(FullFields, "") == "1w2d3h4m5s"
  {
    FullTokens();
    FullSpaced();
    FullUnspaced();
  }

  lemma FullSpaced()
    ensures Join(["1w", "2d", "3h", "4m", "5s"], " ") == "1w 2d 3h 4m 5s"
  {
    JoinFive("1w", "2d", "3h", "4m", "5s", " ");
    assert "1w" + " " + "2d" + " " + "3h" + " " + "4m" + " " + "5s" == "1w 2d 3h 4m 5s";
  }

  lemma FullUnspaced()
    ensures Join(["1w", "2d", "3h", "4m", "5s"], "") == "1w2d3h4m5s"
  {
    JoinFive("1w", "2d", "3h", "4m", "5s", "");
    assert "1w" + "" + "2d" + "" + "3h" + "" + "4m" + "" + "5s" == "1w2d3h4m5s";
  }

  lemma JoinFive(a: string, b: string, c: string, d: string, e: string, sep: string)
    ensures Join([a, b, c, d, e], sep) == a + sep + b + sep + c + sep + d + sep + e
  {
    assert [a, b, c, d, e][1..] == [b, c, d, e];
    assert [b, c, d, e][1..] == [c, d, e];
    assert [c, d, e][1..] == [d, e];
    assert [d, e][1..] == [e];
    assert Join([d, e], sep) == d + sep + e;
    assert Join([c, d, e], sep) == c + sep + (d + sep + e);
    assert Join([b, c, d, e], sep) == b + sep + (c + sep + (d + sep + e));
  }

  lemma FullFormat()
    ensures Format(Some(Duration(9 * 86400 + 3 * 3600 + 4 * 60 + 5, 0))) == "1w 2d 3h 4m 5s"
  {
    assert Decompose(788645) == Breakdown(1, 2, 3, 4, 5);
    FullTexts();
  }

  lemma FullParse()
    ensures Parse(Some("1w 2d 3h 4m 5s")) == Success(Duration(9 * 86400 + 3 * 3600 + 4 * 60 + 5, 0))
    ensures Parse(Some("1w2d3h4m5s")) == Success(Duration(9 * 86400 + 3 * 3600 + 4 * 60 + 5, 0))
  {
    FullTexts();
    var total := FieldSeconds(FullFields, 0);
    assert total == 788645;
    ParsesTo(FullFields, " ", total);
    ParsesTo(FullFields, "", total);
  }

  // 21 days and 789 minutes: 3 weeks, 13 hours, 9 minutes.

  const WeeksFields: seq<Option<nat>> := [Some(3), None, Some(13), Some(9), None]

  lemma WeeksTokens()
    ensures Tokens(WeeksFields, 0) == ["3w", "13h", "9m"]
  {
    assert Units[0] == 'w' && Units[2] == 'h' && Units[3] == 'm';
    assert NatToString(13) == "13" && NatToString(3) == "3" && NatToString(9) == "9";
    assert "9" + ['m'] == "9m" && "13" + ['h'] == "13h" && "3" + ['w'] == "3w";
    assert Tokens(WeeksFields, 5) == [];
    assert Tokens(WeeksFields, 4) == [];
    assert Tokens(WeeksFields, 3) == ["9m"];
    assert Tokens(WeeksFields, 2) == ["13h", "9m"];
  }

  lemma WeeksTexts()
    ensures Render(WeeksFields, " ") == "3w 13h 9m"
    ensures Render(WeeksFields, "") == "3w13h9m"
  {
    WeeksTokens();
  }

  lemma WeeksFormat()
    ensures Format(Some(Duration(21 * 86400 + 789 * 60, 0))) == "3w 13h 9m"
  {
    assert Decompose(1861740) == Breakdown(3, 0, 13, 9, 0);
    WeeksTexts();
  }

  lemma WeeksParse()
    ensures Parse(Some("3w 13h 9m")) == Success(Duration(21 * 86400 + 789 * 60, 0))
    ensures Parse(Some("3w13h9m")) == Success(Duration(21 * 86400 + 789 * 60, 0))
  {
    WeeksTexts();
    var total := FieldSeconds(WeeksFields, 0);
    assert total == 1861740;
    ParsesTo(WeeksFields, " ", total);
    ParsesTo(WeeksFields, "", total);
  }

  // One day less one second.

  const DayFields: seq<Option<nat>> := [None, None, Some(23), Some(59), Some(59)]

  lemma DayTokens()
    ensures Tokens(DayFields, 0) == ["23h", "59m", "59s"]
  {
    assert NatToString(23) == "23" && NatToString(59) == "59";
    assert Units[2] == 'h' && Units[3] == 'm' && Units[4] == 's';
    assert "59" + ['s'] == "59s" && "59" + ['m'] == "59m" && "23" + ['h'] == "23h";
    assert Tokens(DayFields, 5) == [];
    assert Tokens(DayFields, 4) == ["59s"];
    assert Tokens(DayFields, 3) == ["59m", "59s"];
  }

  lemma DayTexts()
    ensures Render(DayFields, " ") == "23h 59m 59s"
    ensures Render(DayFields, "") == "23h59m59s"
  {
    DayTokens();
  }

  lemma DayFormat()
    ensures Format(Some(Duration(86400 - 1, 0))) == "23h 59m 59s"
  {
    assert Decompose(86399) == Breakdown(0, 0, 23, 59, 59);
    DayTexts();
  }

  lemma DayParse()
    ensures Parse(Some("23h 59m 59s")) == Success(Duration(86400 - 1, 0))
    ensures Parse(Some("23h59m59s")) == Success(Duration(86400 - 1, 0))
  {
    DayTexts();
    var total := FieldSeconds(DayFields, 0);
    assert total == 86399;
    ParsesTo(DayFields, " ", total);
    ParsesTo(DayFields, "", total);
  }

  // Zero in every unit, and the empty text.

  /** The single token `0<unit>` parses to a zero duration. */
  lemma ZeroIn(u: nat)
    requires u < 5
    ensures Parse(Some(['0', Units[u]])) == Success(Zero)
  {
    var fs: seq<Option<nat>> := [None, None, None, None, None][u := Some(0)];
    assert Tokens(fs, 0) == ["0" + [Units[u]]] by {
      TokensOfZero(fs, u, 0);
    }
    assert FieldSeconds(fs, 0) == 0 by {
      SecondsOfZero(fs, 0);
    }
    var text := Render(fs, "");
    assert text == ['0', Units[u]];
    ParsesTo(fs, "", 0);
  }

  lemma {:induction false} TokensOfZero(fs: seq<Option<nat>>, u: nat, v: nat)
    requires |fs| == 5 && u < 5 && v <= u
    requires forall w :: 0 <= w < 5 ==> fs[w] == if w == u then Some(0) else None
    ensures Tokens(fs, v) == ["0" + [Units[u]]]
    decreases 5 - v
  {
    if v == u {
      assert NatToString(0) == "0";
      assert Tokens(fs, u + 1) == [] by {
        NoLaterTokens(fs, u, u + 1);
      }
    } else {
      TokensOfZero(fs, u, v + 1);
    }
  }

  lemma {:induction false} NoLaterTokens(fs: seq<Option<nat>>, u: nat, v: nat)
    requires |fs| == 5 && u < v <= 5
    requires forall w :: 0 <= w < 5 ==> fs[w] == if w == u then Some(0) else None
    ensures Tokens(fs, v) == []
    decreases 5 - v
  {
    if v < 5 {
      NoLaterTokens(fs, u, v + 1);
    }
  }

  lemma {:induction false} SecondsOfZero(fs: seq<Option<nat>>, v: nat)
    requires |fs| == 5 && v <= 5
    requires forall w :: 0 <= w < 5 ==> fs[w].GetOr(0) == 0
    ensures FieldSeconds(fs, v) == 0
    decreases 5 - v
  {
    if v < 5 {
      SecondsOfZero(fs, v + 1);
    }
  }

  lemma ZeroInEveryUnit()
    ensures Parse(Some("0w")) == Success(Zero) && Parse(Some("0d")) == Success(Zero)
    ensures Parse(Some("0h")) == Success(Zero) && Parse(Some("0m")) == Success(Zero)
    ensures Parse(Some("0s")) == Success(Zero)
  {
    ZeroIn(0);
    ZeroIn(1);
    ZeroIn(2);
    ZeroIn(3);
    ZeroIn(4);
    assert Units == ['w', 'd', 'h', 'm', 's'];
  }

  /** Routes the general round trip through variables, so that the
      literal texts of the examples are never unfolded. */
  lemma ParsesTo(fs: seq<Option<nat>>, sep: string, total: nat)
    requires |fs| == 5 && AllSpace(sep) && FieldSeconds(fs, 0) == total
    ensures Parse(Some(Render(fs, sep))) == Success(Duration(total, 0))
  {
    ParseRendered(fs, sep);
  }

  lemma UnknownUnit()
    ensures Parse(Some("1x")) == Failure(IllegalFormat(FormatMessage("1x")))
    ensures Deserialize(Some("1x")).Failure?
  {
    assert "1x"[1] == 'x';
    ParseRejectsForeign("1x", 1);
  }

  lemma EmptyText()
    ensures Deserialize(Some("")) == Success(None)
    ensures Parse(Some("")) == Success(Zero)
  {
  }

  // Texts outside the renderings: mixed gaps, a gap before the unit letter,
  // leading zeros, trailing blanks. Each is the text of a parse tree.

  /** "1w 2d\t3h": one week, two days, three hours. */
  const MixedTree := Tree([Piece("", Some(Group("1", ""))), Piece(" ", Some(Group("2", ""))),
                           Piece("\t", Some(Group("3", ""))), Piece("", None), Piece("", None)], "")

  lemma MixedGaps()
    ensures Parse(Some("1w 2d\t3h")) == Success(Duration(788400, 0))
  {
    MixedShape();
    MixedText();
    TreeSeconds(MixedTree, 788400);
  }

  lemma MixedShape()
    ensures WellFormed(MixedTree)
    ensures FieldSeconds(Groups(MixedTree), 0) == 788400
  {
    MixedForm();
    MixedGroups();
  }

  lemma MixedForm()
    ensures WellFormed(MixedTree)
  {
    assert forall i :: 0 <= i < 5 ==> PieceOk(MixedTree.pieces[i]);
  }

  lemma MixedGroups()
    requires WellFormed(MixedTree)
    ensures FieldSeconds(Groups(MixedTree), 0) == 788400
  {
    assert Groups(MixedTree) == [Some(1), Some(2), Some(3), None, None];
  }

  lemma MixedText()
    ensures |MixedTree.pieces| == 5 && Text(MixedTree) == "1w 2d\t3h"
  {
    assert Units == ['w', 'd', 'h', 'm', 's'];
  }

  /** "007 s ": seven seconds, read through zeros and blanks. */
  const PaddedTree := Tree([Piece("", None), Piece("", None), Piece("", None), Piece("", None),
                            Piece("", Some(Group("007", " ")))], " ")

  lemma PaddedSeconds()
    ensures Parse(Some("007 s ")) == Success(Duration(7, 0))
  {
    PaddedShape();
    PaddedText();
    TreeSeconds(PaddedTree, 7);
  }

  lemma PaddedShape()
    ensures WellFormed(PaddedTree)
    ensures FieldSeconds(Groups(PaddedTree), 0) == 7
  {
    PaddedForm();
    PaddedGroups();
  }

  lemma PaddedForm()
    ensures WellFormed(PaddedTree)
  {
    assert forall i :: 0 <= i < 5 ==> PieceOk(PaddedTree.pieces[i]);
  }

  lemma PaddedGroups()
    requires WellFormed(PaddedTree)
    ensures FieldSeconds(Groups(PaddedTree), 0) == 7
  {
    assert DigitsValue("007") == 7 by {
      assert "007"[..2] == "00" && "00"[..1] == "0" && "0"[..0] == "";
    }
    assert Groups(PaddedTree) == [None, None, None, None, Some(7)];
  }

  lemma PaddedText()
    ensures |PaddedTree.pieces| == 5 && Text(PaddedTree) == "007 s "
  {
    assert Units[4] == 's';
  }

  // Texts the pattern rejects though every character is a digit, a blank
  // or a unit letter.

  /** "1w1w": a unit twice. */
  lemma RepeatedUnit()
    ensures Parse(Some("1w1w")) == Failure(IllegalFormat(FormatMessage("1w1w")))
  {
    var s := "1w1w";
    assert s[1] == 'w' && s[3] == 'w' && Units[0] == 'w';
    ParseRejectsDisorder(s, 1, 3, 0, 0);
  }

  /** "1s 2m": minutes after seconds. */
  lemma UnitsOutOfOrder()
    ensures Parse(Some("1s 2m")) == Failure(IllegalFormat(FormatMessage("1s 2m")))
  {
    var s := "1s 2m";
    assert s[1] == 's' && s[4] == 'm' && Units[4] == 's' && Units[3] == 'm';
    ParseRejectsDisorder(s, 1, 4, 4, 3);
  }

  /** "5": digits without a unit. */
  lemma MissingUnit()
    ensures Parse(Some("5")) == Failure(IllegalFormat(FormatMessage("5")))
  {
    var s := "5";
    assert s[0] == '5' && ' ' < s[0];
    ParseRejectsUnclosed(s);
  }

  /** "w": a unit without digits. */
  lemma MissingDigits()
    ensures Parse(Some("w")) == Failure(IllegalFormat(FormatMessage("w")))
  {
    var s := "w";
    assert s[0] == 'w' && ' ' < s[0] && !IsSpace(s[0]);
    assert SpaceRun(s) == 0;
    ParseRejectsUnclosed(s);
  }

  /** Routes the parse of a tree's text through variables. */
  lemma TreeSeconds(t: Tree, total: nat)
    requires WellFormed(t) && FieldSeconds(Groups(t), 0) == total
    ensures Parse(Some(Text(t))) == Success(Duration(total, 0))
  {
    ParseTree(t);
  }
}
