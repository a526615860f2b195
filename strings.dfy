/** The order of java.lang.String.compareTo (UTF-16 code unit by code unit, then by length), the
    order in which a TreeMap keyed by strings iterates, and an ascending listing of a set of
    strings. */
module Strings {

  /** The UTF-16 code units of one character: itself below U+10000, otherwise a high and a low
      surrogate. */
  function Units(c: char): (r: seq<int>)
    ensures |r| == 1 <==> (c as int) < 0x10000
    ensures |r| == 1 || |r| == 2
  {
    var v := c as int;
    if v < 0x10000 then [v] else [0xD800 + (v - 0x10000) / 0x400, 0xDC00 + (v - 0x10000) % 0x400]
  }

  /** The UTF-16 encoding of a string, the sequence of chars a Java String holds. */
  function Utf16(s: string): (r: seq<int>)
    ensures |r| >= |s|
  {
    if s == [] then [] else Units(s[0]) + Utf16(s[1..])
  }

  /** a sorts strictly before b, unit by unit. */
  predicate UnitsLess(a: seq<int>, b: seq<int>)
    decreases |a|
  {
    if |a| == 0 then |b| > 0
    else if |b| == 0 then false
    else if a[0] < b[0] then true
    else if a[0] == b[0] then UnitsLess(a[1..], b[1..])
    else false
  }

  /** a sorts strictly before b in String.compareTo. */
  predicate LexLess(a: string, b: string)
  {
    UnitsLess(Utf16(a), Utf16(b))
  }

  lemma {:induction false} UnitsLessIrreflexive(a: seq<int>)
    ensures !UnitsLess(a, a)
  {
    if |a| > 0 {
      UnitsLessIrreflexive(a[1..]);
    }
  }

  lemma {:induction false} UnitsLessTransitive(a: seq<int>, b: seq<int>, c: seq<int>)
    requires UnitsLess(a, b) && UnitsLess(b, c)
    ensures UnitsLess(a, c)
    decreases |a|
  {
    if |a| > 0 && |b| > 0 && |c| > 0 && a[0] == b[0] && b[0] == c[0] {
      UnitsLessTransitive(a[1..], b[1..], c[1..]);
    }
  }

  lemma {:induction false} UnitsLessTotal(a: seq<int>, b: seq<int>)
    requires a != b
    ensures UnitsLess(a, b) || UnitsLess(b, a)
    decreases |a|
  {
    if |a| > 0 && |b| > 0 && a[0] == b[0] {
      assert a == [a[0]] + a[1..] && b == [b[0]] + b[1..];
      UnitsLessTotal(a[1..], b[1..]);
    }
  }

  /** Two different characters followed by anything never encode alike: a surrogate pair
      starts with a high surrogate, which no character below U+10000 is. */
  lemma UnitsDiffer(c: char, d: char, x: seq<int>, y: seq<int>)
    requires c != d
    ensures Units(c) + x != Units(d) + y
  {
    var u, w := Units(c) + x, Units(d) + y;
    assert u[0] == Units(c)[0] && w[0] == Units(d)[0];
    if |Units(c)| == 2 && |Units(d)| == 2 {
      assert u[1] == Units(c)[1] && w[1] == Units(d)[1];
      var v, e := c as int - 0x10000, d as int - 0x10000;
      assert v == (Units(c)[0] - 0xD800) * 0x400 + (Units(c)[1] - 0xDC00);
      assert e == (Units(d)[0] - 0xD800) * 0x400 + (Units(d)[1] - 0xDC00);
    }
  }

  /** Different strings have different encodings. */
  lemma {:induction false} Utf16Injective(a: string, b: string)
    requires a != b
    ensures Utf16(a) != Utf16(b)
    decreases |a|
  {
    if a != [] && b != [] {
      if a[0] == b[0] {
        Utf16Injective(a[1..], b[1..]);
        var u := Units(a[0]);
        assert Utf16(a)[|u|..] == Utf16(a[1..]) && Utf16(b)[|u|..] == Utf16(b[1..]);
      } else {
        UnitsDiffer(a[0], b[0], Utf16(a[1..]), Utf16(b[1..]));
      }
    }
  }

  /** As in Java, a character above U+FFFF sorts by its high surrogate: U+10000 comes before
      U+E000, although its code point is larger. */
  lemma SurrogatesSortLow()
    ensures LexLess(['\U{10000}'], ['\U{E000}'])
    ensures LexLess(['\U{E000}'], ['\U{FFFF}'])
  {
    var a, b := ['\U{10000}'], ['\U{E000}'];
    assert a[1..] == [] && b[1..] == [];
    assert Utf16(a) == [0xD800, 0xDC00];
    assert Utf16(b) == [0xE000];
  }

  lemma LexLessIrreflexive(a: string)
    ensures !LexLess(a, a)
  {
    UnitsLessIrreflexive(Utf16(a));
  }

  lemma LexLessTransitive(a: string, b: string, c: string)
    requires LexLess(a, b) && LexLess(b, c)
    ensures LexLess(a, c)
  {
    UnitsLessTransitive(Utf16(a), Utf16(b), Utf16(c));
  }

  lemma LexLessTotal(a: string, b: string)
    requires a != b
    ensures LexLess(a, b) || LexLess(b, a)
  {
    Utf16Injective(a, b);
    UnitsLessTotal(Utf16(a), Utf16(b));
  }

  lemma LexLessAsymmetric(a: string, b: string)
    requires LexLess(a, b)
    ensures !LexLess(b, a)
  {
    if LexLess(b, a) {
      LexLessTransitive(a, b, a);
      LexLessIrreflexive(a);
    }
  }

  /** Sorted strictly ascending, hence without duplicates. */
  predicate StrictlyAscending(s: seq<string>)
  {
    forall i, j :: 0 <= i < j < |s| ==> LexLess(s[i], s[j])
  }

  predicate IsLeast(m: string, s: set<string>)
  {
    m in s && forall x :: x in s && x != m ==> LexLess(m, x)
  }

  /** Every finite non-empty set of strings has a least element. */
  lemma {:induction false} LeastExists(s: set<string>)
    requires s != {}
    ensures exists m :: IsLeast(m, s)
    decreases |s|
  {
    var x :| x in s;
    if s == {x} {
      assert IsLeast(x, s);
    } else {
      var rest := s - {x};
      LeastExists(rest);
      var m :| IsLeast(m, rest);
      if LexLess(m, x) {
        assert IsLeast(m, s);
      } else {
        LexLessTotal(m, x);
        forall y | y in s && y != x
          ensures LexLess(x, y)
        {
          if y != m {
            LexLessTransitive(x, m, y);
          }
        }
        assert IsLeast(x, s);
      }
    }
  }

  /** The keys of a set in ascending order, as a TreeMap's keySet() lists them. */
  method SortedKeys(keys: set<string>) returns (r: seq<string>)
    ensures StrictlyAscending(r)
    ensures |r| == |keys|
    ensures forall x :: x in r <==> x in keys
  {
    r := [];
    var rest := keys;
    while rest != {}
      invariant StrictlyAscending(r)
      invariant forall x :: x in r ==> x in keys && x !in rest
      invariant forall x :: x in keys ==> x in r || x in rest
      invariant rest <= keys
      invariant forall i, y :: 0 <= i < |r| && y in rest ==> LexLess(r[i], y)
      invariant |r| + |rest| == |keys|
      decreases |rest|
    {
      LeastExists(rest);
      var m :| IsLeast(m, rest);
      rest := rest - {m};
      r := r + [m];
    }
  }
}
