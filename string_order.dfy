/** Python's ordering of `str` values and `sorted(list(set(xs)))` on lists of
    strings, which the deduplicator uses for plain names and grouped lists. */
module StringOrder {

  /** Python's `a < b` on `str`: lexicographic by code point, a proper
      prefix coming first. */
  predicate Less(a: string, b: string)
    decreases |a|
  {
    if |a| == 0 then |b| > 0
    else if |b| == 0 then false
    else if a[0] == b[0] then Less(a[1..], b[1..])
    else a[0] < b[0]
  }

  lemma {:induction false} LessIrreflexive(a: string)
    ensures !Less(a, a)
    decreases |a|
  {
    if |a| > 0 {
      LessIrreflexive(a[1..]);
    }
  }

  lemma {:induction false} LessAsymmetric(a: string, b: string)
    requires Less(a, b)
    ensures !Less(b, a)
    decreases |a|
  {
    if |a| > 0 && |b| > 0 && a[0] == b[0] {
      LessAsymmetric(a[1..], b[1..]);
    }
  }

  lemma {:induction false} LessTransitive(a: string, b: string, c: string)
    requires Less(a, b) && Less(b, c)
    ensures Less(a, c)
    decreases |a|
  {
    if |a| > 0 && |b| > 0 && |c| > 0 && a[0] == b[0] && b[0] == c[0] {
      LessTransitive(a[1..], b[1..], c[1..]);
    }
  }

  lemma {:induction false} LessTotal(a: string, b: string)
    requires a != b
    ensures Less(a, b) || Less(b, a)
    decreases |a|
  {
    if |a| > 0 && |b| > 0 && a[0] == b[0] {
      assert a == [a[0]] + a[1..] && b == [b[0]] + b[1..];
      LessTotal(a[1..], b[1..]);
    }
  }

  /** Sorted ascending with no element repeated. */
  predicate StrictlySorted(s: seq<string>)
  {
    forall i, j :: 0 <= i < j < |s| ==> Less(s[i], s[j])
  }

  function Elems(s: seq<string>): set<string>
  {
    set x | x in s
  }

  /** Two strictly sorted lists with the same elements are equal: the sorted,
      duplicate-free form of a set is unique. */
  lemma {:induction false} StrictlySortedUnique(a: seq<string>, b: seq<string>)
    requires StrictlySorted(a) && StrictlySorted(b) && Elems(a) == Elems(b)
    ensures a == b
    decreases |a|
  {
    assert |a| > 0 ==> a[0] in Elems(a);
    assert |b| > 0 ==> b[0] in Elems(b);
    if |a| > 0 && |b| > 0 {
      assert b[0] in Elems(a) && a[0] in Elems(b);
      var m :| 0 <= m < |a| && a[m] == b[0];
      var k :| 0 <= k < |b| && b[k] == a[0];
      if m > 0 {
        LessAsymmetric(a[0], a[m]);
      }
      assert a[0] == b[0];
      forall x | x in a[1..] ensures x in b[1..] {
        var i :| 0 <= i < |a[1..]| && a[1..][i] == x;
        LessIrreflexive(a[0]);
        assert x in Elems(b);
        var j :| 0 <= j < |b| && b[j] == x;
        assert j != 0;
        assert b[1..][j - 1] == x;
      }
      forall x | x in b[1..] ensures x in a[1..] {
        var i :| 0 <= i < |b[1..]| && b[1..][i] == x;
        LessIrreflexive(b[0]);
        assert x in Elems(a);
        var j :| 0 <= j < |a| && a[j] == x;
        assert j != 0;
        assert a[1..][j - 1] == x;
      }
      assert Elems(a[1..]) == Elems(b[1..]);
      StrictlySortedUnique(a[1..], b[1..]);
      assert a == [a[0]] + a[1..] && b == [b[0]] + b[1..];
    }
  }

  /** `m` is the least element of `s`. */
  ghost predicate IsLeast(m: string, s: set<string>)
  {
    m in s && forall y :: y in s && y != m ==> Less(m, y)
  }

  /** Every non-empty finite set of strings has a least element. */
  lemma {:induction false} LeastExists(s: set<string>)
    requires s != {}
    ensures exists m :: IsLeast(m, s)
    decreases |s|
  {
    var x :| x in s;
    if s == {x} {
      assert IsLeast(x, s);
    } else {
      LeastExists(s - {x});
      var m :| IsLeast(m, s - {x});
      if Less(x, m) {
        forall y | y in s && y != x ensures Less(x, y) {
          if y != m {
            LessTransitive(x, m, y);
          }
        }
        assert IsLeast(x, s);
      } else {
        LessTotal(x, m);
        assert IsLeast(m, s);
      }
    }
  }

  /** Putting a value below every element in front keeps a list strictly sorted. */
  lemma ConsSorted(m: string, rest: seq<string>)
    requires StrictlySorted(rest)
    requires forall y :: y in rest ==> Less(m, y)
    ensures StrictlySorted([m] + rest) && Elems([m] + rest) == {m} + Elems(rest)
  {
    var r := [m] + rest;
    forall i, j | 0 <= i < j < |r| ensures Less(r[i], r[j]) {
      if i > 0 {
        assert r[i] == rest[i - 1] && r[j] == rest[j - 1];
      } else {
        assert r[j] == rest[j - 1];
      }
    }
  }

  /** `sorted(set)`: the elements of `s` in ascending order. */
  ghost function SortedList(s: set<string>): (r: seq<string>)
    ensures StrictlySorted(r) && Elems(r) == s
    decreases |s|
  {
    if s == {} then []
    else
      LeastExists(s);
      var m :| IsLeast(m, s);
      var rest := SortedList(s - {m});
      assert forall y :: y in rest ==> y in Elems(rest);
      ConsSorted(m, rest);
      [m] + rest
  }

  /** Inserts `x` into a strictly sorted list, unless it is already there. */
  method Insert(s: seq<string>, x: string) returns (r: seq<string>)
    requires StrictlySorted(s)
    ensures StrictlySorted(r) && Elems(r) == Elems(s) + {x}
  {
    var j := 0;
    while j < |s| && Less(s[j], x)
      invariant 0 <= j <= |s|
      invariant forall k :: 0 <= k < j ==> Less(s[k], x)
    {
      j := j + 1;
    }
    if j < |s| && s[j] == x {
      r := s;
    } else {
      if j < |s| {
        LessTotal(s[j], x);
      }
      r := s[..j] + [x] + s[j..];
      forall p, q | 0 <= p < q < |r| ensures Less(r[p], r[q]) {
        if p == j && q - 1 > j {
          LessTransitive(x, s[j], s[q - 1]);
        }
      }
      assert s == s[..j] + s[j..];
    }
  }

  /** `sorted(list(set(xs)))`: the distinct elements of `xs`, ascending. */
  method SortUnique(xs: seq<string>) returns (r: seq<string>)
    ensures r == SortedList(Elems(xs))
  {
    r := [];
    for i := 0 to |xs|
      invariant StrictlySorted(r) && Elems(r) == Elems(xs[..i])
    {
      assert xs[..i + 1] == xs[..i] + [xs[i]];
      r := Insert(r, xs[i]);
    }
    assert xs[..|xs|] == xs;
    StrictlySortedUnique(r, SortedList(Elems(xs)));
  }
}
