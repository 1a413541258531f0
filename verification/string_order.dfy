/** The natural ordering of Java strings (`String.compareTo`), which is the
    ordering every `TreeMap<String, _>` and `TreeSet<String>` of the program
    iterates in, and the ascending sequence of a finite set of strings. */
module StringOrder {

  /** Java compares strings by UTF-16 code units. A character outside the
      Basic Multilingual Plane is the surrogate pair (HighUnit, LowUnit); a
      character inside it is the single unit HighUnit, and LowUnit is -1 so
      that it compares below any unit that could follow. */
  function HighUnit(c: char): int {
    if c as int < 0x1_0000 then c as int else 0xD800 + (c as int - 0x1_0000) / 0x400
  }

  function LowUnit(c: char): int {
    if c as int < 0x1_0000 then -1 else 0xDC00 + (c as int - 0x1_0000) % 0x400
  }

  /** `a` sorts before `b` when its UTF-16 encoding does. */
  predicate CharLess(a: char, b: char) {
    HighUnit(a) < HighUnit(b) || (HighUnit(a) == HighUnit(b) && LowUnit(a) < LowUnit(b))
  }

  /** Distinct characters have distinct UTF-16 encodings. */
  lemma UnitsInjective(a: char, b: char)
    requires HighUnit(a) == HighUnit(b) && LowUnit(a) == LowUnit(b)
    ensures a == b
  {
    if a as int >= 0x1_0000 && b as int >= 0x1_0000 {
      var va, vb := a as int - 0x1_0000, b as int - 0x1_0000;
      assert va == 0x400 * (va / 0x400) + va % 0x400;
      assert vb == 0x400 * (vb / 0x400) + vb % 0x400;
    }
  }

  /** `a` sorts strictly before `b` under `String.compareTo`: at the first
      position where they differ the code units decide, and a proper prefix
      comes first. */
  predicate Less(a: string, b: string)
    decreases |a|
  {
    if |a| == 0 then |b| > 0
    else if |b| == 0 then false
    else if a[0] == b[0] then Less(a[1..], b[1..])
    else CharLess(a[0], b[0])
  }

  lemma {:induction false} LessIrreflexive(a: string)
    ensures !Less(a, a)
    decreases |a|
  {
    if |a| > 0 {
      LessIrreflexive(a[1..]);
    }
  }

  lemma {:induction false} LessTransitive(a: string, b: string, c: string)
    requires Less(a, b) && Less(b, c)
    ensures Less(a, c)
    decreases |a|
  {
    if |a| > 0 && a[0] == b[0] && b[0] == c[0] {
      LessTransitive(a[1..], b[1..], c[1..]);
    }
  }

  /** Two different strings are always ordered one way or the other. */
  lemma {:induction false} LessTotal(a: string, b: string)
    requires a != b
    ensures Less(a, b) || Less(b, a)
    decreases |a|
  {
    if |a| > 0 && |b| > 0 {
      if a[0] == b[0] {
        assert a == [a[0]] + a[1..] && b == [b[0]] + b[1..];
        LessTotal(a[1..], b[1..]);
      } else if !CharLess(a[0], b[0]) && !CharLess(b[0], a[0]) {
        UnitsInjective(a[0], b[0]);
      }
    }
  }

  lemma {:induction false} LessAsymmetric(a: string, b: string)
    requires Less(a, b)
    ensures !Less(b, a)
  {
    if Less(b, a) {
      LessTransitive(a, b, a);
      LessIrreflexive(a);
    }
  }

  /** A common prefix does not change the order of two strings. */
  lemma {:induction false} LessCommonPrefix(p: string, a: string, b: string)
    requires Less(a, b)
    ensures Less(p + a, p + b)
    decreases |p|
  {
    if |p| == 0 {
      assert p + a == a && p + b == b;
    } else {
      assert (p + a)[0] == (p + b)[0];
      assert (p + a)[1..] == p[1..] + a;
      assert (p + b)[1..] == p[1..] + b;
      LessCommonPrefix(p[1..], a, b);
    }
  }

  /** Strictly ascending: what iterating a `TreeSet<String>` yields. */
  ghost predicate StrictlySorted(s: seq<string>) {
    forall i, j :: 0 <= i < j < |s| ==> Less(s[i], s[j])
  }

  /** A string below the first element of an ascending sequence extends it. */
  lemma SortedCons(a: string, s: seq<string>)
    requires StrictlySorted(s)
    requires |s| > 0 ==> Less(a, s[0])
    ensures StrictlySorted([a] + s)
  {
    forall j | 0 < j < |s|
      ensures Less(a, s[j])
    {
      LessTransitive(a, s[0], s[j]);
    }
  }

  predicate IsLeast(m: string, s: set<string>) {
    m in s && forall x :: x in s && x != m ==> Less(m, x)
  }

  lemma {:induction false} LeastExists(s: set<string>)
    requires s != {}
    ensures exists m :: IsLeast(m, s)
    decreases s
  {
    var x :| x in s;
    if s != {x} {
      LeastExists(s - {x});
      var m :| IsLeast(m, s - {x});
      if Less(x, m) {
        forall y | y in s && y != x
          ensures Less(x, y)
        {
          if y != m {
            LessTransitive(x, m, y);
          }
        }
        assert IsLeast(x, s);
      } else {
        LessTotal(x, m);
        assert IsLeast(m, s);
      }
    } else {
      assert IsLeast(x, s);
    }
  }

  lemma LeastUnique(s: set<string>, m1: string, m2: string)
    requires IsLeast(m1, s) && IsLeast(m2, s)
    ensures m1 == m2
  {
    if m1 != m2 {
      LessAsymmetric(m1, m2);
    }
  }

  /** The smallest element of a non-empty set: the first one a `TreeSet`
      iterates. */
  function Least(s: set<string>): (m: string)
    requires s != {}
    ensures m in s
    ensures forall x :: x in s && x != m ==> Less(m, x)
  {
    LeastExists(s);
    forall m1, m2 | IsLeast(m1, s) && IsLeast(m2, s)
      ensures m1 == m2
    {
      LeastUnique(s, m1, m2);
    }
    var m :| IsLeast(m, s);
    m
  }

  /** The elements of `s` in ascending order: the iteration order of a
      `TreeSet<String>` or of the key set of a `TreeMap<String, _>`. */
  function Sorted(s: set<string>): (r: seq<string>)
    ensures StrictlySorted(r)
    ensures forall x :: x in r <==> x in s
    ensures |r| == |s|
    decreases s
  {
    if s == {} then []
    else
      var m := Least(s);
      [m] + Sorted(s - {m})
  }

  lemma SameElementsNonEmpty(a: seq<string>, b: seq<string>)
    requires forall x :: x in a <==> x in b
    requires |a| > 0
    ensures |b| > 0
  {
    assert a[0] in b;
  }

  /** A strictly ascending sequence is determined by its elements, so any
      sequence with the two properties of `Sorted` is the one it returns. */
  lemma {:induction false} SortedUnique(a: seq<string>, b: seq<string>)
    requires StrictlySorted(a) && StrictlySorted(b)
    requires forall x :: x in a <==> x in b
    ensures a == b
    decreases |a|
  {
    if |a| > 0 {
      SameElementsNonEmpty(a, b);
    }
    if |b| > 0 {
      SameElementsNonEmpty(b, a);
    }
    if |a| > 0 {
      if a[0] != b[0] {
        assert b[0] in a;
        assert a[0] in b;
        var i :| 0 <= i < |a| && a[i] == b[0];
        var j :| 0 <= j < |b| && b[j] == a[0];
        assert Less(a[0], a[i]);
        assert Less(b[0], b[j]);
        LessAsymmetric(a[0], b[0]);
      }
      assert a == [a[0]] + a[1..] && b == [b[0]] + b[1..];
      forall x
        ensures x in a[1..] <==> x in b[1..]
      {
        if x in a[1..] {
          var i :| 1 <= i < |a| && a[i] == x;
          assert Less(a[0], x);
          LessIrreflexive(x);
          assert x in b && x != b[0];
        }
        if x in b[1..] {
          var j :| 1 <= j < |b| && b[j] == x;
          assert Less(b[0], x);
          LessIrreflexive(x);
          assert x in a && x != a[0];
        }
      }
      SortedUnique(a[1..], b[1..]);
    }
  }

  /** The ascending sequence of a set is exactly the given literal when the
      literal is strictly ascending and holds the same elements. */
  lemma SortedIs(s: set<string>, r: seq<string>)
    requires StrictlySorted(r)
    requires forall x :: x in r <==> x in s
    ensures Sorted(s) == r
  {
    SortedUnique(Sorted(s), r);
  }
}
