/** The order sort.Strings sorts by: code point by code point, a prefix first. */
module StringOrder {

  predicate Le(a: string, b: string)
  {
    a == [] || (b != [] && (a[0] < b[0] || (a[0] == b[0] && Le(a[1..], b[1..]))))
  }

  predicate Lt(a: string, b: string)
  {
    a != b && Le(a, b)
  }

  /** At place i the two strings part, and a has the smaller character. */
  ghost predicate PartsAt(a: string, b: string, i: int)
  {
    0 <= i < |a| && i < |b| && a[..i] == b[..i] && a[i] < b[i]
  }

  /** The order without recursion: a is a prefix of b, or smaller at the first place they differ. */
  lemma {:induction false} LeIs(a: string, b: string)
    ensures Le(a, b) <==> a <= b || exists i :: PartsAt(a, b, i)
  {
    forall i ensures PartsAt(a, b, i) ==> a != [] && b != [] && a[0] <= b[0] {
      if PartsAt(a, b, i) { FirstNotGreater(a, b, i); }
    }
    if a == [] {
      assert a <= b;
    } else if b == [] || a[0] > b[0] {
    } else if a[0] < b[0] {
      assert PartsAt(a, b, 0);
    } else {
      LeIs(a[1..], b[1..]);
      assert a == [a[0]] + a[1..] && b == [b[0]] + b[1..];
      forall i | PartsAt(a[1..], b[1..], i) ensures PartsAt(a, b, i + 1) { PartsLater(a, b, i); }
      forall i | PartsAt(a, b, i) ensures PartsAt(a[1..], b[1..], i - 1) { PartsSooner(a, b, i); }
    }
  }

  /** The strict order: a proper prefix, or smaller at the first place they differ. So of two strings
      that differ exactly one is smaller. */
  lemma LtIs(a: string, b: string)
    ensures Lt(a, b) <==> a < b || exists i :: PartsAt(a, b, i)
    ensures a != b ==> (Lt(a, b) <==> !Lt(b, a))
  {
    LeIs(a, b);
    LeTotal(a, b);
    forall i ensures PartsAt(a, b, i) ==> a != b { if PartsAt(a, b, i) { assert a[i] != b[i]; } }
    if Le(a, b) && Le(b, a) { LeAntisymmetric(a, b); }
  }

  lemma FirstNotGreater(a: string, b: string, i: int)
    requires PartsAt(a, b, i)
    ensures a[0] <= b[0]
  {
    if i > 0 { assert a[0] == a[..i][0] && b[0] == b[..i][0]; }
  }

  lemma PartsLater(a: string, b: string, i: int)
    requires a != [] && b != [] && a[0] == b[0] && PartsAt(a[1..], b[1..], i)
    ensures PartsAt(a, b, i + 1)
  {
    assert a[..i + 1] == [a[0]] + a[1..][..i] && b[..i + 1] == [b[0]] + b[1..][..i];
  }

  lemma PartsSooner(a: string, b: string, i: int)
    requires a != [] && b != [] && a[0] == b[0] && PartsAt(a, b, i)
    ensures PartsAt(a[1..], b[1..], i - 1)
  {
    assert i > 0 && a[1..][..i - 1] == a[..i][1..] && b[1..][..i - 1] == b[..i][1..];
  }

  lemma LeTotal(a: string, b: string)
    ensures Le(a, b) || Le(b, a)
  {
  }

  lemma {:induction false} LeAntisymmetric(a: string, b: string)
    requires Le(a, b) && Le(b, a)
    ensures a == b
  {
    if a != [] {
      LeAntisymmetric(a[1..], b[1..]);
      assert a == [a[0]] + a[1..] && b == [b[0]] + b[1..];
    }
  }

  lemma {:induction false} LeTransitive(a: string, b: string, c: string)
    requires Le(a, b) && Le(b, c)
    ensures Le(a, c)
  {
    if a != [] && a[0] == b[0] == c[0] { LeTransitive(a[1..], b[1..], c[1..]); }
  }

  // ---- sorting ---------------------------------------------------------------------

  predicate Sorted(s: seq<string>)
  {
    forall i, j :: 0 <= i < j < |s| ==> Le(s[i], s[j])
  }

  function Insert(x: string, s: seq<string>): seq<string>
  {
    if s == [] || Le(x, s[0]) then [x] + s else [s[0]] + Insert(x, s[1..])
  }

  /** What sort.Strings leaves in the slice. */
  function Sort(s: seq<string>): seq<string>
  {
    if s == [] then [] else Insert(s[0], Sort(s[1..]))
  }

  lemma {:induction false} InsertSorts(x: string, s: seq<string>)
    requires Sorted(s)
    ensures Sorted(Insert(x, s)) && multiset(Insert(x, s)) == multiset(s) + multiset{x}
  {
    if s == [] {
    } else if Le(x, s[0]) {
      forall j | 0 <= j < |s| ensures Le(x, s[j]) { if j > 0 { LeTransitive(x, s[0], s[j]); } }
    } else {
      InsertSorts(x, s[1..]);
      LeTotal(x, s[0]);
      var t := Insert(x, s[1..]);
      assert s == [s[0]] + s[1..];
      forall j | 0 <= j < |t| ensures Le(s[0], t[j]) {
        assert t[j] in multiset(t);
        if t[j] != x { assert t[j] in s[1..]; }
      }
    }
  }

  lemma {:induction false} SortSorts(s: seq<string>)
    ensures Sorted(Sort(s)) && multiset(Sort(s)) == multiset(s)
  {
    if s != [] {
      SortSorts(s[1..]);
      InsertSorts(s[0], Sort(s[1..]));
      assert s == [s[0]] + s[1..];
    }
  }

  // ---- least elements --------------------------------------------------------------

  ghost predicate IsLeast(m: string, s: set<string>)
  {
    m in s && forall x :: x in s ==> Le(m, x)
  }

  lemma {:induction false} LeastExists(s: set<string>)
    requires s != {}
    ensures exists m :: IsLeast(m, s)
  {
    var x :| x in s;
    LeTotal(x, x);
    if s == {x} {
      assert IsLeast(x, s);
    } else {
      LeastExists(s - {x});
      var m :| IsLeast(m, s - {x});
      LeTotal(m, x);
      if Le(m, x) {
        assert IsLeast(m, s);
      } else {
        forall y | y in s ensures Le(x, y) { if y != x { LeTransitive(x, m, y); } }
        assert IsLeast(x, s);
      }
    }
  }

  ghost function Least(s: set<string>): (m: string)
    requires s != {}
    ensures IsLeast(m, s)
  {
    LeastExists(s);
    var m :| IsLeast(m, s); m
  }

  lemma LeastUnique(m: string, s: set<string>)
    requires IsLeast(m, s)
    ensures m == Least(s)
  {
    LeAntisymmetric(m, Least(s));
  }
}
