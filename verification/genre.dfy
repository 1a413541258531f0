/** The movie genres: a fixed table of constants with their identifiers,
    and the case-insensitive reverse lookup that reads a genre back. */
module Genres {
  import opened Wrappers

  datatype Genre = SciFi | Thriller | Action | Comedy | Adventure | Fantasy

  /** The constants in declaration order, as `values()` lists them. */
  const Values: seq<Genre> := [SciFi, Thriller, Action, Comedy, Adventure, Fantasy]

  /** `getIdentifier`: the identifier each constant is declared with (the
      science-fiction one is spelled `Scii-Fi`). */
  function Identifier(g: Genre): string {
    match g
    case SciFi => "Scii-Fi"
    case Thriller => "Thriller"
    case Action => "Action"
    case Comedy => "Comedy"
    case Adventure => "Adventure"
    case Fantasy => "Fantasy"
  }

  /** The serialised form of a genre is its identifier, not its constant
      name. */
  function Serialize(g: Genre): (text: string)
    ensures |text| > 0 && IsAscii(text)
    ensures forall h :: SameIgnoringCase(text, Identifier(h)) <==> h == g
  {
    AsciiIdentifiers(g);
    forall h
      ensures SameIgnoringCase(Identifier(g), Identifier(h)) <==> h == g
    {
      IdentifiersDistinct(g, h);
    }
    Identifier(g)
  }

  // ------------------------------------------------------ ignoring case

  predicate IsAscii(s: string) {
    forall i :: 0 <= i < |s| ==> s[i] < '\U{0080}'
  }

  /** What a character is compared as when the other side is ASCII:
      `String.equalsIgnoreCase` matches two characters when their upper
      cases, or the lower cases of their upper cases, agree. Against an
      ASCII character that holds for the character itself, its other
      ASCII case, and four non-ASCII characters whose case mapping lands
      in ASCII: dotted capital I and dotless small i (both matching `i`),
      long s (matching `s`) and the Kelvin sign (matching `k`). */
  function Fold(c: char): char {
    if 'A' <= c <= 'Z' then (c as int + 32) as char
    else if c == '\U{0130}' || c == '\U{0131}' then 'i'
    else if c == '\U{017F}' then 's'
    else if c == '\U{212A}' then 'k'
    else c
  }

  /** `equalsIgnoreCase` between two texts, exact whenever one of them is
      ASCII, as every identifier is. */
  predicate SameIgnoringCase(a: string, b: string) {
    |a| == |b| && forall i :: 0 <= i < |a| ==> Fold(a[i]) == Fold(b[i])
  }

  /** The upper-case form of ASCII text, used for examples. */
  function AsciiUpper(s: string): (u: string)
    ensures |u| == |s|
    ensures forall i :: 0 <= i < |s| ==> Fold(u[i]) == Fold(s[i])
  {
    seq(|s|, i requires 0 <= i < |s| => if 'a' <= s[i] <= 'z' then (s[i] as int - 32) as char else s[i])
  }

  // --------------------------------------------------------------- lookup

  /** The `NoSuchElementException` of the lookup. */
  datatype LookupError = NoSuchElement(message: string)

  /** The text the exception carries: the identifier as Java prints it,
      `null` for a missing one. */
  function NoSuchValue(identifier: Option<string>): string {
    "No such value: " + (if identifier.Some? then identifier.value else "null")
  }

  /** The first of `gs` whose identifier matches `id`. */
  function FirstMatch(gs: seq<Genre>, id: string): (r: Option<Genre>)
    ensures r.Some? ==> r.value in gs && SameIgnoringCase(Identifier(r.value), id)
    ensures r.None? ==> forall g :: g in gs ==> !SameIgnoringCase(Identifier(g), id)
  {
    if |gs| == 0 then None
    else if SameIgnoringCase(Identifier(gs[0]), id) then Some(gs[0])
    else FirstMatch(gs[1..], id)
  }

  /** `byIdentifier`: the first constant, in declaration order, whose
      identifier equals `identifier` ignoring case; a missing or unknown
      identifier is an error. */
  function ByIdentifier(identifier: Option<string>): (r: Result<Genre, LookupError>)
    ensures r.Success? <==> identifier.Some? && exists g :: SameIgnoringCase(Identifier(g), identifier.value)
    ensures r.Success? ==> SameIgnoringCase(Identifier(r.value), identifier.value)
    ensures r.Failure? ==> r.error == NoSuchElement(NoSuchValue(identifier))
  {
    if identifier.None? then Failure(NoSuchElement(NoSuchValue(identifier)))
    else
      match FirstMatch(Values, identifier.value)
      case Some(g) => Success(g)
      case None =>
        EveryGenreListed();
        Failure(NoSuchElement(NoSuchValue(identifier)))
  }

  // ------------------------------------------------------------ properties

  lemma EveryGenreListed()
    ensures forall g :: g in Values
  {
    forall g
      ensures g in Values
    {
      match g
      case SciFi => assert Values[0] == g;
      case Thriller => assert Values[1] == g;
      case Action => assert Values[2] == g;
      case Comedy => assert Values[3] == g;
      case Adventure => assert Values[4] == g;
      case Fantasy => assert Values[5] == g;
    }
  }

  lemma AsciiIdentifiers(g: Genre)
    ensures |Identifier(g)| > 0 && IsAscii(Identifier(g))
  {
  }

  /** No two constants' identifiers match each other ignoring case, so the
      first match is the only one. */
  lemma IdentifiersDistinct(g: Genre, h: Genre)
    ensures SameIgnoringCase(Identifier(g), Identifier(h)) <==> g == h
  {
    if g != h && |Identifier(g)| == |Identifier(h)| {
      assert Fold(Identifier(g)[0]) != Fold(Identifier(h)[0]);
    }
  }

  /** Reading a genre back from its identifier gives the genre. */
  lemma {:induction false} ByIdentifierRoundTrip(g: Genre)
    ensures ByIdentifier(Some(Identifier(g))) == Success(g)
  {
    var r := ByIdentifier(Some(Identifier(g)));
    assert SameIgnoringCase(Identifier(g), Identifier(g));
    IdentifiersDistinct(r.value, g);
  }

  /** The deserialised serialisation is the genre itself. */
  lemma SerializeRoundTrip(g: Genre)
    ensures ByIdentifier(Some(Serialize(g))) == Success(g)
  {
    ByIdentifierRoundTrip(g);
  }

  /** Texts equal ignoring case read as the same genre, or both fail. */
  lemma ByIdentifierIgnoresCase(s: string, t: string)
    requires SameIgnoringCase(s, t)
    ensures ByIdentifier(Some(s)).Success? <==> ByIdentifier(Some(t)).Success?
    ensures ByIdentifier(Some(s)).Success? ==> ByIdentifier(Some(s)).value == ByIdentifier(Some(t)).value
  {
    var rs, rt := ByIdentifier(Some(s)), ByIdentifier(Some(t));
    if rs.Success? {
      assert SameIgnoringCase(Identifier(rs.value), t);
      IdentifiersDistinct(rs.value, rt.value);
    }
  }

  /** A genre is found from its identifier in any letter case. */
  lemma ByIdentifierUpperCase(g: Genre)
    ensures ByIdentifier(Some(AsciiUpper(Identifier(g)))) == Success(g)
  {
    ByIdentifierRoundTrip(g);
    ByIdentifierIgnoresCase(Identifier(g), AsciiUpper(Identifier(g)));
  }

  /** A missing identifier is an error that prints it as `null`. */
  lemma NullIdentifier()
    ensures ByIdentifier(None) == Failure(NoSuchElement("No such value: null"))
  {
    var text := NoSuchValue(None);
    assert text == "No such value: " + "null";
    assert text == "No such value: null";
  }

  /** A text equal ignoring case to a genre's identifier reads as that
      genre. */
  lemma Found(t: string, g: Genre)
    requires SameIgnoringCase(Identifier(g), t)
    ensures ByIdentifier(Some(t)) == Success(g)
  {
    var r := ByIdentifier(Some(t));
    assert r.Success?;
    assert SameIgnoringCase(Identifier(r.value), Identifier(g));
    IdentifiersDistinct(r.value, g);
  }

  /** `THRILLER` reads as the thriller genre. */
  lemma ThrillerUpper()
    ensures ByIdentifier(Some("THRILLER")) == Success(Thriller)
  {
    Found("THRILLER", Thriller);
  }

  /** `thriller` reads as the thriller genre. */
  lemma ThrillerLower()
    ensures ByIdentifier(Some("thriller")) == Success(Thriller)
  {
    Found("thriller", Thriller);
  }

  /** The spelling with a long s, `Fantaſy`, reads as fantasy. */
  lemma LongS()
    ensures ByIdentifier(Some("Fanta\U{017F}y")) == Success(Fantasy)
  {
    Found("Fanta\U{017F}y", Fantasy);
  }

  /** `Sci-Fi`, which lacks the declared identifier's second `i`, is
      unknown. */
  lemma MisspelledSciFi()
    ensures ByIdentifier(Some("Sci-Fi")).Failure?
  {
    NotFound("Sci-Fi");
  }

  /** A text of six characters starting with `S` or `s` matches no
      identifier: the only one starting with that letter has seven. */
  lemma NotFound(t: string)
    requires |t| == 6 && Fold(t[0]) == 's'
    ensures ByIdentifier(Some(t)).Failure?
  {
    forall g
      ensures !SameIgnoringCase(Identifier(g), t)
    {
      if |Identifier(g)| == 6 {
        assert Fold(Identifier(g)[0]) != 's';
      }
    }
  }
}
