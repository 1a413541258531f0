/** The duration text codec of `DurationConverter`: `format` writes a
    duration as non-zero week, day, hour, minute and second tokens such as
    `1w 2d 3h 4m 5s`, and `parse` reads the fixed-order token grammar back. */
module DurationCodec {
  import opened Wrappers
  import opened Decimal

  /** A `java.time.Duration` that is not negative: whole seconds and the
      nanoseconds of the last second. Java keeps `nanos` below 1000000000;
      `parse` only produces 0 there and `format` ignores it, so no member
      needs the bound. */
  datatype Duration = Duration(seconds: nat, nanos: nat)

  const Zero := Duration(0, 0)

  const SecondsPerMinute := 60
  const SecondsPerHour := 3600
  const SecondsPerDay := 86400
  const SecondsPerWeek := 604800

  /** The unit letters in the order the grammar and the formatter use. */
  const Units: seq<char> := ['w', 'd', 'h', 'm', 's']

  /** The unit letters are neither digits nor `\s`, and no two are equal. */
  lemma UnitLetters(u: nat, v: nat)
    requires u < 5 && v < 5
    ensures !IsDigit(Units[u]) && !IsSpace(Units[u])
    ensures Units[u] == Units[v] <==> u == v
  {
    assert Units[0] == 'w' && Units[1] == 'd' && Units[2] == 'h' && Units[3] == 'm' && Units[4] == 's';
  }

  /** The length in seconds of one of each unit, in the same order. */
  const UnitSeconds: seq<nat> := [SecondsPerWeek, SecondsPerDay, SecondsPerHour, SecondsPerMinute, 1]

  // ---------------------------------------------------------------- format

  /** The five components `format` computes. */
  datatype Breakdown = Breakdown(weeks: nat, days: nat, hours: nat, minutes: nat, seconds: nat)

  function TotalSeconds(b: Breakdown): nat {
    SecondsPerWeek * b.weeks + SecondsPerDay * b.days + SecondsPerHour * b.hours
      + SecondsPerMinute * b.minutes + b.seconds
  }

  /** Every component but the weeks is below the next unit. */
  predicate Normal(b: Breakdown) {
    b.seconds < 60 && b.minutes < 60 && b.hours < 24 && b.days < 7
  }

  /** The successive divisions and remainders of `format`. */
  function Decompose(total: nat): (b: Breakdown)
    ensures Normal(b)
    ensures TotalSeconds(b) == total
  {
    var minutes := total / 60;
    var hours := minutes / 60;
    var days := hours / 24;
    var weeks := days / 7;
    Breakdown(weeks, days % 7, hours % 24, minutes % 60, total % 60)
  }

  /** A normal breakdown is determined by its total, so `Decompose` is the
      only one. */
  lemma DecomposeUnique(b: Breakdown)
    requires Normal(b)
    ensures Decompose(TotalSeconds(b)) == b
  {
    var t := TotalSeconds(b);
    var mins := 10080 * b.weeks + 1440 * b.days + 60 * b.hours + b.minutes;
    assert t == 60 * mins + b.seconds;
    assert t / 60 == mins && t % 60 == b.seconds;
    var hrs := 168 * b.weeks + 24 * b.days + b.hours;
    assert mins == 60 * hrs + b.minutes;
    assert mins / 60 == hrs && mins % 60 == b.minutes;
    var dys := 7 * b.weeks + b.days;
    assert hrs == 24 * dys + b.hours;
    assert hrs / 24 == dys && hrs % 24 == b.hours;
    assert dys / 7 == b.weeks && dys % 7 == b.days;
  }

  /** The components as the five optional fields of the grammar: a field is
      present when its token is written. The seconds token is written when
      it is non-zero or when nothing else is. */
  function Present(b: Breakdown): (fs: seq<Option<nat>>)
    ensures |fs| == 5
  {
    var w := if b.weeks > 0 then Some(b.weeks) else None;
    var d := if b.days > 0 then Some(b.days) else None;
    var h := if b.hours > 0 then Some(b.hours) else None;
    var m := if b.minutes > 0 then Some(b.minutes) else None;
    var none := b.weeks == 0 && b.days == 0 && b.hours == 0 && b.minutes == 0;
    var s := if b.seconds > 0 || none then Some(b.seconds) else None;
    [w, d, h, m, s]
  }

  /** The tokens `<digits><unit>` of the present fields from index `u` on. */
  function Tokens(fs: seq<Option<nat>>, u: nat): seq<string>
    requires |fs| == 5 && u <= 5
    decreases 5 - u
  {
    if u == 5 then []
    else
      var rest := Tokens(fs, u + 1);
      match fs[u]
      case Some(n) => [NatToString(n) + [Units[u]]] + rest
      case None => rest
  }

  /** The tokens joined with `sep` between consecutive ones. */
  function Join(tokens: seq<string>, sep: string): string {
    if |tokens| == 0 then ""
    else if |tokens| == 1 then tokens[0]
    else tokens[0] + sep + Join(tokens[1..], sep)
  }

  /** The text of the present fields with `sep` between tokens. */
  function Render(fs: seq<Option<nat>>, sep: string): string
    requires |fs| == 5
  {
    Join(Tokens(fs, 0), sep)
  }

  /** `format`: `"0s"` for a missing duration, otherwise the tokens of its
      whole seconds joined by single spaces; nanoseconds are dropped. */
  function Format(d: Option<Duration>): (text: string)
    ensures d.None? ==> text == "0s"
  {
    match d
    case None => "0s"
    case Some(v) => Render(Present(Decompose(v.seconds)), " ")
  }

  // ----------------------------------------------------------------- parse

  /** The characters of the regular-expression class `\s`. */
  predicate IsSpace(c: char) {
    c == ' ' || c == '\t' || c == '\n' || c == '\U{000B}' || c == '\U{000C}' || c == '\r'
  }

  predicate AllSpace(s: string) {
    forall i :: 0 <= i < |s| ==> IsSpace(s[i])
  }

  /** What `String.trim` removes: every character up to U+0020. A text made
      only of those is blank. */
  predicate IsBlank(s: string) {
    forall i :: 0 <= i < |s| ==> s[i] <= ' '
  }

  /** The length of the leading `\s` run. */
  function SpaceRun(s: string): (n: nat)
    ensures n <= |s|
    ensures AllSpace(s[..n])
    ensures n < |s| ==> !IsSpace(s[n])
  {
    if |s| > 0 && IsSpace(s[0]) then 1 + SpaceRun(s[1..]) else 0
  }

  /** The length of the leading `\d` run (ASCII digits only). */
  function DigitRun(s: string): (n: nat)
    ensures n <= |s|
    ensures AllDigits(s[..n])
    ensures n < |s| ==> !IsDigit(s[n])
  {
    if |s| > 0 && IsDigit(s[0]) then 1 + DigitRun(s[1..]) else 0
  }

  /** The match of `\s* (?:(\d+)\s*<unit>)? ... \s*$` on `s`, for the
      groups from index `u` on: the value of each group that took part, or
      `None` when the text does not match.

      The regular expression cannot match in more than one way: a group
      that can match must, because its digits could be read by no later
      group (each wants its own unit letter right after them), so taking
      every group that fits, as done here, is exact. */
  function Scan(s: string, u: nat): (r: Option<seq<Option<nat>>>)
    requires u <= 5
    ensures r.Some? ==> |r.value| == 5 - u
    decreases 5 - u
  {
    var t := s[SpaceRun(s)..];
    if u == 5 then
      if t == [] then Some([]) else None
    else
      var token := Token(t, Units[u]);
      if token.Some? then
        var more := Scan(token.value.1, u + 1);
        if more.Some? then Some([Some(token.value.0)] + more.value) else None
      else
        var more := Scan(t, u + 1);
        if more.Some? then Some([None] + more.value) else None
  }

  /** The group `(\d+)\s*<unit>` at the start of `t`: its value and the
      text after the unit letter. */
  function Token(t: string, unit: char): (r: Option<(nat, string)>)
    ensures r.Some? ==> |r.value.1| < |t| && r.value.1 == t[|t| - |r.value.1|..]
  {
    var n := DigitRun(t);
    var after := t[n..][SpaceRun(t[n..])..];
    if n > 0 && |after| > 0 && after[0] == unit then Some((DigitsValue(t[..n]), after[1..])) else None
  }

  /** A group consists of digits, `\s` and its unit letter only. */
  lemma TokenAlphabet(t: string, unit: char, i: nat)
    requires Token(t, unit).Some? && i < |t| - |Token(t, unit).value.1|
    ensures IsDigit(t[i]) || IsSpace(t[i]) || t[i] == unit
  {
    var n := DigitRun(t);
    var w := t[n..];
    if i >= n {
      assert w[i - n] == t[i];
      if i - n < SpaceRun(w) {
        assert w[..SpaceRun(w)][i - n] == w[i - n];
      }
    }
  }

  /** The seconds of the present fields, absent ones counting zero. */
  function FieldSeconds(fs: seq<Option<nat>>, u: nat): nat
    requires |fs| == 5 && u <= 5
    decreases 5 - u
  {
    if u == 5 then 0 else fs[u].GetOr(0) * UnitSeconds[u] + FieldSeconds(fs, u + 1)
  }

  datatype FormatError = IllegalFormat(message: string)

  function FormatMessage(value: string): string {
    "Illegal duration format '" + value
      + "', expected '1w2d3h4m5s' or '1w 2d 3h 4m 5s' format (w=weeks,d=days,h=hours,m=minutes,s=seconds)"
  }

  /** `parse`: a missing or blank text is the zero duration; a text the
      grammar rejects is an error; otherwise the sum of the fields. */
  function Parse(value: Option<string>): (r: Result<Duration, FormatError>)
    ensures (value.None? || IsBlank(value.value)) ==> r == Success(Zero)
    ensures r.Success? ==> r.value.nanos == 0
    ensures r.Failure? ==> value.Some? && r.error == IllegalFormat(FormatMessage(value.value))
  {
    match value
    case None => Success(Zero)
    case Some(s) =>
      if IsBlank(s) then Success(Zero)
      else
        match Scan(s, 0)
        case None => Failure(IllegalFormat(FormatMessage(s)))
        case Some(fs) => Success(Duration(FieldSeconds(fs, 0), 0))
  }

  /** The `Deserializer`: a missing or blank text is no duration at all;
      anything else is parsed. */
  function Deserialize(value: Option<string>): (r: Result<Option<Duration>, FormatError>)
    ensures (value.None? || IsBlank(value.value)) ==> r == Success(None)
    ensures value.Some? && !IsBlank(value.value) ==>
              (r.Success? <==> Parse(value).Success?)
              && (r.Success? ==> r.value == Some(Parse(value).value))
  {
    match value
    case None => Success(None)
    case Some(s) =>
      if IsBlank(s) then Success(None)
      else
        match Parse(value)
        case Success(d) => Success(Some(d))
        case Failure(e) => Failure(e)
  }

  // ------------------------------------------------------------ properties

  /** Only the units of the grammar, digits and `\s` characters can occur in
      accepted text. */
  lemma {:induction false} ScanAlphabet(s: string, u: nat, i: nat)
    requires u <= 5 && Scan(s, u).Some? && i < |s|
    ensures IsSpace(s[i]) || IsDigit(s[i]) || s[i] in Units
    decreases 5 - u
  {
    var k := SpaceRun(s);
    var t := s[k..];
    if i < k {
      assert s[..k][i] == s[i];
    } else if u < 5 {
      var j := i - k;
      assert t[j] == s[i];

      var token := Token(t, Units[u]);
      if token.Some? {
        var rest := token.value.1;
        assert Scan(rest, u + 1).Some?;
        var a := |t| - |rest|;
        if j >= a {
          ScanAlphabet(rest, u + 1, j - a);
          assert rest[j - a] == t[j];
        } else {
          TokenAlphabet(t, Units[u], j);
        }
      } else {
        assert Scan(t, u + 1).Some?;
        ScanAlphabet(t, u + 1, j);
      }
    }
  }

  /** A printable character that is neither a digit nor a unit letter makes
      the text illegal, and the error repeats the text. */
  lemma ParseRejectsForeign(s: string, i: nat)
    requires i < |s| && ' ' < s[i] && !IsDigit(s[i]) && s[i] !in Units
    ensures Parse(Some(s)) == Failure(IllegalFormat(FormatMessage(s)))
  {
    assert !IsBlank(s);
    ScanRejectsForeign(s, i);
  }

  lemma ScanRejectsForeign(s: string, i: nat)
    requires i < |s| && !IsSpace(s[i]) && !IsDigit(s[i]) && s[i] !in Units
    ensures Scan(s, 0).None?
  {
    if Scan(s, 0).Some? {
      ScanAlphabet(s, 0, i);
    }
  }

  /** Leading `\s` does not change the match. */
  lemma {:induction false} SpaceRunAppend(w: string, s: string)
    requires AllSpace(w)
    ensures SpaceRun(w + s) == |w| + SpaceRun(s)
    ensures (w + s)[SpaceRun(w + s)..] == s[SpaceRun(s)..]
    decreases |w|
  {
    if |w| > 0 {
      assert (w + s)[1..] == w[1..] + s;
      SpaceRunAppend(w[1..], s);
    } else {
      assert w + s == s;
    }
  }

  /** The tokens from `u` on render to text that is empty or starts with a
      digit. */
  lemma {:induction false} TokensStartWithDigit(fs: seq<Option<nat>>, u: nat, sep: string)
    requires |fs| == 5 && u <= 5
    ensures var text := Join(Tokens(fs, u), sep); |text| == 0 || IsDigit(text[0])
    decreases 5 - u
  {
    var ts := Tokens(fs, u);
    if |ts| > 0 {
      var v := FirstToken(fs, u);
      assert IsDigit(ts[0][0]);
      JoinCons(ts[0], ts[1..], sep);
      assert [ts[0]] + ts[1..] == ts;
    }
  }

  lemma JoinCons(t: string, rest: seq<string>, sep: string)
    ensures Join([t] + rest, sep) == t + (if |rest| == 0 then "" else sep) + Join(rest, sep)
  {
    if |rest| == 0 {
      assert [t] + rest == [t];
    } else {
      assert ([t] + rest)[1..] == rest;
    }
  }

  /** The digit run of a token stops at its unit letter. */
  lemma {:induction false} DigitRunToken(digits: string, c: char, tail: string)
    requires AllDigits(digits) && !IsDigit(c)
    ensures DigitRun(digits + [c] + tail) == |digits|
    decreases |digits|
  {
    if |digits| > 0 {
      assert (digits + [c] + tail)[1..] == digits[1..] + [c] + tail;
      DigitRunToken(digits[1..], c, tail);
    } else {
      assert (digits + [c] + tail)[0] == c;
    }
  }

  /** The first token from `u` on belongs to the first present field. */
  lemma {:induction false} FirstToken(fs: seq<Option<nat>>, u: nat) returns (v: nat)
    requires |fs| == 5 && u <= 5 && |Tokens(fs, u)| > 0
    ensures u <= v < 5 && fs[v].Some?
    ensures Tokens(fs, u)[0] == NatToString(fs[v].value) + [Units[v]]
    decreases 5 - u
  {
    if fs[u].Some? {
      v := u;
    } else {
      v := FirstToken(fs, u + 1);
    }
  }

  /** A token `<digits><c>` is read as a group of unit `c` and of no other
      unit. */
  lemma TokenRead(digits: string, c: char, tail: string, unit: char)
    requires |digits| > 0 && AllDigits(digits) && !IsDigit(c) && !IsSpace(c)
    ensures Token(digits + [c] + tail, unit) == if c == unit then Some((DigitsValue(digits), tail)) else None
  {
    DigitRunToken(digits, c, tail);
    NoLeadingSpace(c, tail);
    TokenSplit(digits, c, tail, unit);
  }

  lemma NoLeadingSpace(c: char, tail: string)
    requires !IsSpace(c)
    ensures SpaceRun([c] + tail) == 0
  {
  }

  lemma TokenSplit(digits: string, c: char, tail: string, unit: char)
    requires |digits| > 0 && AllDigits(digits)
    requires DigitRun(digits + [c] + tail) == |digits|
    requires SpaceRun([c] + tail) == 0
    ensures Token(digits + [c] + tail, unit) == if c == unit then Some((DigitsValue(digits), tail)) else None
  {
    var t := digits + [c] + tail;
    assert t[|digits|..] == [c] + tail;
    assert t[..|digits|] == digits;
  }

  lemma SliceCons<T>(s: seq<T>, i: nat)
    requires i < |s|
    ensures s[i..] == [s[i]] + s[i + 1..]
  {
  }

  /** Leading `\s` does not change the match. */
  lemma ScanSkipsSpace(w: string, s: string, u: nat)
    requires AllSpace(w) && u <= 5
    ensures Scan(w + s, u) == Scan(s, u)
  {
    SpaceRunAppend(w, s);
    assert (w + s)[SpaceRun(w + s)..] == s[SpaceRun(s)..];
  }

  /** With field `u` absent, the text holds no group of unit `u`. */
  lemma AbsentText(fs: seq<Option<nat>>, u: nat, sep: string)
    requires |fs| == 5 && u < 5 && fs[u].None?
    ensures var text := Join(Tokens(fs, u), sep);
      text == Join(Tokens(fs, u + 1), sep) && SpaceRun(text) == 0 && Token(text, Units[u]).None?
  {
    var text := Join(Tokens(fs, u), sep);
    assert text == Join(Tokens(fs, u + 1), sep);
    TokensStartWithDigit(fs, u, sep);
    if |Tokens(fs, u + 1)| > 0 {
      LaterToken(fs, u, sep);
    } else {
      assert text == [];
    }
  }

  /** Text that starts with a later field's group holds no group of unit
      `u` at its start. */
  lemma LaterToken(fs: seq<Option<nat>>, u: nat, sep: string)
    requires |fs| == 5 && u < 5 && |Tokens(fs, u + 1)| > 0
    ensures Token(Join(Tokens(fs, u + 1), sep), Units[u]).None?
  {
    var v, tail := HeadToken(fs, u + 1, sep);
    UnitLetters(v, u);
    TokenRead(NatToString(fs[v].value), Units[v], tail, Units[u]);
  }

  /** Non-empty text of the fields from `u` on starts with the token of the
      first present field. */
  lemma HeadToken(fs: seq<Option<nat>>, u: nat, sep: string) returns (v: nat, tail: string)
    requires |fs| == 5 && u <= 5 && |Tokens(fs, u)| > 0
    ensures u <= v < 5 && fs[v].Some?
    ensures Join(Tokens(fs, u), sep) == NatToString(fs[v].value) + [Units[v]] + tail
  {
    var ts := Tokens(fs, u);
    v := FirstToken(fs, u);
    JoinCons(ts[0], ts[1..], sep);
    assert [ts[0]] + ts[1..] == ts;
    tail := (if |ts[1..]| == 0 then "" else sep) + Join(ts[1..], sep);
  }

  /** The text of the fields from `u` on scans back to exactly those fields. */
  predicate ReadsBack(fs: seq<Option<nat>>, u: nat, sep: string)
    requires |fs| == 5 && u <= 5
  {
    Scan(Join(Tokens(fs, u), sep), u) == Some(fs[u..])
  }

  /** An absent field adds nothing to the text and is skipped by the scan. */
  lemma AbsentStep(fs: seq<Option<nat>>, u: nat, sep: string)
    requires |fs| == 5 && u < 5 && fs[u].None?
    requires ReadsBack(fs, u + 1, sep)
    ensures ReadsBack(fs, u, sep)
  {
    var text := Join(Tokens(fs, u), sep);
    AbsentText(fs, u, sep);
    assert text[SpaceRun(text)..] == text;
    SliceCons(fs, u);
  }

  /** With field `u` present, the text starts with its group, followed by
      a `\s` gap and the text of the later fields. */
  lemma PresentText(fs: seq<Option<nat>>, u: nat, sep: string) returns (gap: string)
    requires |fs| == 5 && u < 5 && fs[u].Some? && AllSpace(sep)
    ensures AllSpace(gap)
    ensures var text := Join(Tokens(fs, u), sep);
      SpaceRun(text) == 0 && Token(text, Units[u]) == Some((fs[u].value, gap + Join(Tokens(fs, u + 1), sep)))
  {
    var text := Join(Tokens(fs, u), sep);
    var rest := Join(Tokens(fs, u + 1), sep);
    var k := fs[u].value;
    var digits := NatToString(k);
    JoinCons(digits + [Units[u]], Tokens(fs, u + 1), sep);
    gap := if |Tokens(fs, u + 1)| == 0 then "" else sep;
    assert text == digits + [Units[u]] + (gap + rest);
    UnitLetters(u, u);
    TokenRead(digits, Units[u], gap + rest, Units[u]);
    NatToStringRoundTrip(k);
  }

  /** A present field is read as the first group, and the scan goes on after
      the gap. */
  lemma PresentStep(fs: seq<Option<nat>>, u: nat, sep: string)
    requires |fs| == 5 && u < 5 && fs[u].Some? && AllSpace(sep)
    requires ReadsBack(fs, u + 1, sep)
    ensures ReadsBack(fs, u, sep)
  {
    var text := Join(Tokens(fs, u), sep);
    var gap := PresentText(fs, u, sep);
    assert text[SpaceRun(text)..] == text;
    ScanSkipsSpace(gap, Join(Tokens(fs, u + 1), sep), u + 1);
    SliceCons(fs, u);
  }

  /** Rendered tokens are read back: the text of the fields from `u` on
      scans to exactly those fields, whatever `\s` separator is placed
      between the tokens. */
  lemma {:induction false} ScanRendered(fs: seq<Option<nat>>, u: nat, sep: string)
    requires |fs| == 5 && u <= 5 && AllSpace(sep)
    ensures ReadsBack(fs, u, sep)
    decreases 5 - u
  {
    if u == 5 {
      ScanEnd(fs, sep);
    } else {
      ScanRendered(fs, u + 1, sep);
      ScanStep(fs, u, sep);
    }
  }

  lemma ScanStep(fs: seq<Option<nat>>, u: nat, sep: string)
    requires |fs| == 5 && u < 5 && AllSpace(sep)
    requires ReadsBack(fs, u + 1, sep)
    ensures ReadsBack(fs, u, sep)
  {
    if fs[u].Some? {
      PresentStep(fs, u, sep);
    } else {
      AbsentStep(fs, u, sep);
    }
  }

  /** After the last unit nothing is rendered and nothing is left to scan. */
  lemma ScanEnd(fs: seq<Option<nat>>, sep: string)
    requires |fs| == 5
    ensures ReadsBack(fs, 5, sep)
  {
    assert Join(Tokens(fs, 5), sep) == [];
    assert SpaceRun([]) == 0;
    assert Scan([], 5) == Some([]);
    assert fs[5..] == [];
  }

  /** A text without tokens is empty, and then every field is absent. */
  lemma {:induction false} NoTokens(fs: seq<Option<nat>>, u: nat)
    requires |fs| == 5 && u <= 5 && |Tokens(fs, u)| == 0
    ensures forall v :: u <= v < 5 ==> fs[v].None?
    ensures FieldSeconds(fs, u) == 0
    decreases 5 - u
  {
    if u < 5 {
      NoTokens(fs, u + 1);
    }
  }

  /** Any rendering of the fields, with any `\s` separator, parses to the
      sum of the fields: spaced and unspaced forms agree. */
  lemma ParseRendered(fs: seq<Option<nat>>, sep: string)
    requires |fs| == 5 && AllSpace(sep)
    ensures Parse(Some(Render(fs, sep))) == Success(Duration(FieldSeconds(fs, 0), 0))
  {
    var text := Render(fs, sep);
    if |Tokens(fs, 0)| == 0 {
      NoTokens(fs, 0);
      assert text == [];
    } else {
      RenderedNotBlank(fs, sep);
      ScanRendered(fs, 0, sep);
      assert Scan(Join(Tokens(fs, 0), sep), 0) == Some(fs[0..]);
      assert fs[0..] == fs;
    }
  }

  lemma RenderedNotBlank(fs: seq<Option<nat>>, sep: string)
    requires |fs| == 5 && |Tokens(fs, 0)| > 0
    ensures !IsBlank(Render(fs, sep))
  {
    var ts := Tokens(fs, 0);
    TokensStartWithDigit(fs, 0, sep);
    JoinCons(ts[0], ts[1..], sep);
    assert [ts[0]] + ts[1..] == ts;
    assert |ts[0]| > 0 by {
      var v := FirstToken(fs, 0);
    }
    assert |Render(fs, sep)| > 0;
  }

  /** The fields `format` writes add up to the total it started from. */
  lemma PresentSeconds(b: Breakdown)
    ensures FieldSeconds(Present(b), 0) == TotalSeconds(b)
  {
    var fs := Present(b);
    assert FieldSeconds(fs, 5) == 0;
    assert FieldSeconds(fs, 4) == b.seconds;
    assert FieldSeconds(fs, 3) == SecondsPerMinute * b.minutes + b.seconds;
    assert FieldSeconds(fs, 2) == SecondsPerHour * b.hours + SecondsPerMinute * b.minutes + b.seconds;
    assert FieldSeconds(fs, 1) == SecondsPerDay * b.days + SecondsPerHour * b.hours + SecondsPerMinute * b.minutes + b.seconds;
  }

  /** Parsing what `format` writes gives back the whole seconds of the
      duration; the nanoseconds are lost. */
  lemma ParseFormat(d: Duration)
    ensures Parse(Some(Format(Some(d)))) == Success(Duration(d.seconds, 0))
  {
    var b := Decompose(d.seconds);
    ParseRendered(Present(b), " ");
    PresentSeconds(b);
  }

  /** Different whole-second counts are written differently. */
  lemma FormatInjective(a: Duration, b: Duration)
    requires Format(Some(a)) == Format(Some(b))
    ensures a.seconds == b.seconds
  {
    ParseFormat(a);
    ParseFormat(b);
  }

  /** `format` writes `"0s"` exactly for a missing duration or one shorter
      than a second. */
  lemma FormatZero(d: Option<Duration>)
    ensures Format(d) == "0s" <==> d.None? || d.value.seconds == 0
  {
    if d.Some? {
      FormatOfZero();
      if Format(d) == "0s" {
        FormatInjective(d.value, Zero);
      }
    }
  }

  lemma FormatOfZero()
    ensures Format(Some(Zero)) == "0s"
  {
    var fs := Present(Decompose(0));
    assert fs == [None, None, None, None, Some(0)];
    assert NatToString(0) == "0";
    assert Tokens(fs, 5) == [];
    assert Units[4] == 's';
    assert "0" + ['s'] == "0s";
    assert Tokens(fs, 4) == ["0s"];
    assert Tokens(fs, 0) == ["0s"];
  }
}
