/**
  Python's ordering of `str` values (code point by code point, a proper prefix
  first) and the sorted listing `sorted(names)` of a set of distinct names.
 */
module Ordering {

  /**
    `a <= b` on Python strings. A prefix comes first; otherwise the first
    characters are in order.
   */
  function Below(a: string, b: string): (r: bool)
    ensures |a| <= |b| && b[..|a|] == a ==> r
    ensures r ==> |a| == 0 || (|b| > 0 && a[0] <= b[0])
    decreases |a|
  {
    if |a| == 0 then true
    else if |b| == 0 then false
    else a[0] < b[0] || (a[0] == b[0] && Below(a[1..], b[1..]))
  }

  /**
    `Below` is the lexicographic order on code points: `a` is a prefix of `b`,
    or at the first position where they differ `a` has the smaller character.
   */
  lemma {:induction false} BelowLexicographic(a: string, b: string)
    ensures Below(a, b) <==>
      (|a| <= |b| && b[..|a|] == a) ||
      (exists k :: 0 <= k < |a| && k < |b| && a[..k] == b[..k] && a[k] < b[k])
    decreases |a|
  {
    if |a| > 0 && |b| > 0 {
      var a', b' := a[1..], b[1..];
      BelowLexicographic(a', b');
      if a[0] < b[0] {
        assert a[..0] == b[..0];
      } else if a[0] == b[0] {
        if |a'| <= |b'| && b'[..|a'|] == a' {
          assert b[..|a|] == [b[0]] + b'[..|a'|];
          assert a == [a[0]] + a';
        }
        if k' :| 0 <= k' < |a'| && k' < |b'| && a'[..k'] == b'[..k'] && a'[k'] < b'[k'] {
          assert a[..k' + 1] == [a[0]] + a'[..k'];
          assert b[..k' + 1] == [b[0]] + b'[..k'];
        }
        if |a| <= |b| && b[..|a|] == a {
          assert b'[..|a'|] == b[..|a|][1..];
        }
        if k :| 0 <= k < |a| && k < |b| && a[..k] == b[..k] && a[k] < b[k] {
          if k > 0 {
            assert a'[..k - 1] == a[..k][1..];
            assert b'[..k - 1] == b[..k][1..];
          }
        }
      } else {
        if k :| 0 <= k < |a| && k < |b| && a[..k] == b[..k] && a[k] < b[k] {
          assert k == 0 || a[..k][0] == b[..k][0];
        }
      }
    }
  }

  lemma {:induction false} BelowReflexive(a: string)
    ensures Below(a, a)
    decreases |a|
  {
    if |a| > 0 {
      BelowReflexive(a[1..]);
    }
  }

  lemma {:induction false} BelowTotal(a: string, b: string)
    ensures Below(a, b) || Below(b, a)
    decreases |a|
  {
    if |a| > 0 && |b| > 0 && a[0] == b[0] {
      BelowTotal(a[1..], b[1..]);
    }
  }

  lemma {:induction false} BelowAntisymmetric(a: string, b: string)
    requires Below(a, b) && Below(b, a)
    ensures a == b
    decreases |a|
  {
    if |a| > 0 {
      BelowAntisymmetric(a[1..], b[1..]);
      assert a == [a[0]] + a[1..];
      assert b == [b[0]] + b[1..];
    }
  }

  lemma {:induction false} BelowTransitive(a: string, b: string, c: string)
    requires Below(a, b) && Below(b, c)
    ensures Below(a, c)
    decreases |a|
  {
    if |a| > 0 && a[0] == b[0] && b[0] == c[0] {
      BelowTransitive(a[1..], b[1..], c[1..]);
    }
  }

  /** Strictly ascending: the shape of a sorted list of distinct names. */
  predicate Ascending(s: seq<string>) {
    forall i, j :: 0 <= i < j < |s| ==> Below(s[i], s[j]) && s[i] != s[j]
  }

  predicate IsLeast(m: string, s: set<string>) {
    m in s && forall y :: y in s ==> Below(m, y)
  }

  /** Every non-empty finite set of names has a least element. */
  lemma {:induction false} LeastExists(s: set<string>)
    requires s != {}
    ensures exists m :: IsLeast(m, s)
    decreases |s|
  {
    var x :| x in s;
    if s == {x} {
      BelowReflexive(x);
      assert IsLeast(x, s);
    } else {
      LeastExists(s - {x});
      var m :| IsLeast(m, s - {x});
      BelowTotal(m, x);
      if Below(m, x) {
        assert IsLeast(m, s);
      } else {
        forall y | y in s
          ensures Below(x, y)
        {
          if y == x {
            BelowReflexive(x);
          } else {
            BelowTransitive(x, m, y);
          }
        }
        assert IsLeast(x, s);
      }
    }
  }

  lemma LeastUnique(m: string, m': string, s: set<string>)
    requires IsLeast(m, s) && IsLeast(m', s)
    ensures m == m'
  {
    BelowAntisymmetric(m, m');
  }

  /** `sorted(s)`: the names of `s`, each once, in ascending order. */
  function SortedNames(s: set<string>): (r: seq<string>)
    ensures Ascending(r)
    ensures forall x :: x in r <==> x in s
    ensures |r| == |s|
    decreases |s|
  {
    if s == {} then []
    else
      LeastExists(s);
      assert forall m, m' :: IsLeast(m, s) && IsLeast(m', s) ==> m == m' by {
        forall m, m' | IsLeast(m, s) && IsLeast(m', s) ensures m == m' {
          LeastUnique(m, m', s);
        }
      }
      var m :| IsLeast(m, s);
      var rest := SortedNames(s - {m});
      assert forall j :: 0 <= j < |rest| ==> rest[j] in s - {m};
      AscendingCons(m, rest);
      [m] + rest
  }

  /** A name strictly below every name of an ascending list can go in front of it. */
  lemma AscendingCons(m: string, rest: seq<string>)
    requires Ascending(rest)
    requires forall j :: 0 <= j < |rest| ==> Below(m, rest[j]) && m != rest[j]
    ensures Ascending([m] + rest)
  {
    var r := [m] + rest;
    forall i, j | 0 <= i < j < |r| ensures Below(r[i], r[j]) && r[i] != r[j] {
      assert r[j] == rest[j - 1];
      if i > 0 {
        assert r[i] == rest[i - 1];
      }
    }
  }

  /**
    Two ascending lists holding the same names are the same list: the
    numbering a folder's images receive depends only on which names it holds,
    not on the order the listing returned them in.
   */
  lemma {:induction false} AscendingUnique(a: seq<string>, b: seq<string>)
    requires Ascending(a) && Ascending(b)
    requires forall x :: x in a <==> x in b
    ensures a == b
    decreases |a|
  {
    assert b != [] ==> b[0] in a;
    if a != [] {
      assert a[0] in b;
      assert b != [];
      assert b[0] in a;
      if a[0] != b[0] {
        var i :| 0 <= i < |a| && a[i] == b[0];
        var j :| 0 <= j < |b| && b[j] == a[0];
        assert Below(a[0], b[0]);
        assert Below(b[0], a[0]);
        BelowAntisymmetric(a[0], b[0]);
      }
      forall x
        ensures x in a[1..] <==> x in b[1..]
      {
        if x in a[1..] {
          var i :| 0 <= i < |a[1..]| && a[1..][i] == x;
          assert a[i + 1] == x && x != a[0];
          assert x in a;
          var j :| 0 <= j < |b| && b[j] == x;
          assert j != 0;
          assert b[1..][j - 1] == x;
        }
        if x in b[1..] {
          var j :| 0 <= j < |b[1..]| && b[1..][j] == x;
          assert b[j + 1] == x && x != b[0];
          assert x in b;
          var i :| 0 <= i < |a| && a[i] == x;
          assert i != 0;
          assert a[1..][i - 1] == x;
        }
      }
      AscendingUnique(a[1..], b[1..]);
      assert a == [a[0]] + a[1..];
      assert b == [b[0]] + b[1..];
    }
  }
}
