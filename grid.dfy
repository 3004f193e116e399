/** `grid`: the Cartesian product of a matrix specification, one combination
    per choice of a value for every dimension. */
module Grid {
  import opened Types

  /** The number of combinations: the product of the value-list lengths. */
  function Product(spec: GridSpec): nat
  {
    if spec == [] then 1 else |spec[0].1| * Product(spec[1..])
  }

  /** `combo` names every dimension of `spec`, in order, with one of its values. */
  ghost predicate Fits(combo: Combo, spec: GridSpec)
  {
    |combo| == |spec| && forall i :: 0 <= i < |combo| ==> combo[i].0 == spec[i].0 && combo[i].1 in spec[i].1
  }

  /** Every combination of `tails` with `key: value` put in front. */
  function Prepend(key: string, value: string, tails: seq<Combo>): (r: seq<Combo>)
    ensures |r| == |tails|
  {
    seq(|tails|, i requires 0 <= i < |tails| => [(key, value)] + tails[i])
  }

  lemma PrependMembers(key: string, value: string, tails: seq<Combo>, c: Combo)
    ensures c in Prepend(key, value, tails) <==> |c| > 0 && c[0] == (key, value) && c[1..] in tails
  {
    var r := Prepend(key, value, tails);
    if c in r {
      var i :| 0 <= i < |r| && r[i] == c;
      assert c[1..] == tails[i];
    }
    if |c| > 0 && c[0] == (key, value) && c[1..] in tails {
      var i :| 0 <= i < |tails| && tails[i] == c[1..];
      assert c == [c[0]] + c[1..] == r[i];
    }
  }

  /** One level of `itertools.product`: each value of `key` in declared
      order, each followed by every combination of the remaining dimensions. */
  function Expand(key: string, values: seq<string>, tails: seq<Combo>): (r: seq<Combo>)
    ensures |r| == |values| * |tails|
  {
    if values == [] then []
    else
      var r := Prepend(key, values[0], tails) + Expand(key, values[1..], tails);
      assert |r| == |tails| + (|values| - 1) * |tails|;
      r
  }

  lemma {:induction false} ExpandMembers(key: string, values: seq<string>, tails: seq<Combo>, c: Combo)
    ensures c in Expand(key, values, tails) <==> |c| > 0 && c[0].0 == key && c[0].1 in values && c[1..] in tails
  {
    if values != [] {
      PrependMembers(key, values[0], tails, c);
      ExpandMembers(key, values[1..], tails, c);
      assert values == [values[0]] + values[1..];
    }
  }

  /** The position of each combination in one level of the product: the
      `i`-th value of `key` followed by the `j`-th tail is at `i * |tails| + j`,
      so the values keep their declared order and each runs through all tails. */
  lemma {:induction false} ExpandAt(key: string, values: seq<string>, tails: seq<Combo>, i: nat, j: nat)
    requires i < |values| && j < |tails|
    ensures i * |tails| + j < |Expand(key, values, tails)|
    ensures Expand(key, values, tails)[i * |tails| + j] == [(key, values[i])] + tails[j]
  {
    var n := |tails|;
    if i == 0 {
      assert 0 * n == 0;
    } else {
      ExpandAt(key, values[1..], tails, i - 1, j);
      assert i * n == (i - 1) * n + n;
      assert values[1..][i - 1] == values[i];
    }
  }

  lemma FitsCons(c: Combo, spec: GridSpec)
    requires spec != []
    ensures Fits(c, spec) <==> |c| > 0 && c[0].0 == spec[0].0 && c[0].1 in spec[0].1 && Fits(c[1..], spec[1..])
  {
    if |c| > 0 && Fits(c[1..], spec[1..]) {
      assert forall i :: 1 <= i < |c| ==> c[i] == c[1..][i - 1];
    }
  }

  /** `grid(gridspec)`: the combinations in the order `itertools.product`
      yields them (the first dimension varies slowest); there are as many as
      the product of the value-list lengths, and they are exactly the
      combinations that give every dimension one of its values. */
  function Grid(spec: GridSpec): (r: seq<Combo>)
    ensures |r| == Product(spec)
    ensures forall c :: c in r <==> Fits(c, spec)
  {
    if spec == [] then [[]]
    else
      var tails := Grid(spec[1..]);
      var r := Expand(spec[0].0, spec[0].1, tails);
      assert forall c :: c in r <==> Fits(c, spec) by {
        forall c: Combo ensures c in r <==> Fits(c, spec) {
          ExpandMembers(spec[0].0, spec[0].1, tails, c);
          FitsCons(c, spec);
        }
      }
      r
  }

  /** The order of `itertools.product`: the first dimension varies slowest.
      Its `i`-th value, followed by the `j`-th combination of the remaining
      dimensions, is combination number `i * Product(spec[1..]) + j`. */
  lemma GridAt(spec: GridSpec, i: nat, j: nat)
    requires spec != [] && i < |spec[0].1| && j < Product(spec[1..])
    ensures i * Product(spec[1..]) + j < |Grid(spec)|
    ensures Grid(spec)[i * Product(spec[1..]) + j] == [(spec[0].0, spec[0].1[i])] + Grid(spec[1..])[j]
  {
    ExpandAt(spec[0].0, spec[0].1, Grid(spec[1..]), i, j);
  }

  /** An empty matrix yields exactly one, empty, combination. */
  lemma EmptyGrid()
    ensures Grid([]) == [[]]
  {
  }

  /** The example of a two-by-two matrix: four combinations, every pairing. */
  lemma TwoByTwoGrid()
    ensures var g := Grid([("a", ["1", "2"]), ("b", ["x", "y"])]);
      && |g| == 4
      && [("a", "1"), ("b", "x")] in g && [("a", "1"), ("b", "y")] in g
      && [("a", "2"), ("b", "x")] in g && [("a", "2"), ("b", "y")] in g
  {
    var spec := [("a", ["1", "2"]), ("b", ["x", "y"])];
    assert spec[1..] == [("b", ["x", "y"])];
    assert Fits([("a", "1"), ("b", "x")], spec) && Fits([("a", "1"), ("b", "y")], spec);
    assert Fits([("a", "2"), ("b", "x")], spec) && Fits([("a", "2"), ("b", "y")], spec);
  }

  /** The same matrix in full: the first dimension varies slowest, and both
      follow their declared value order. */
  lemma TwoByTwoGridOrder()
    ensures Grid([("a", ["1", "2"]), ("b", ["x", "y"])])
      == [[("a", "1"), ("b", "x")], [("a", "1"), ("b", "y")], [("a", "2"), ("b", "x")], [("a", "2"), ("b", "y")]]
  {
    var spec := [("a", ["1", "2"]), ("b", ["x", "y"])];
    var tail := [("b", ["x", "y"])];
    assert spec[1..] == tail && tail[1..] == [];
    assert Product(tail) == 2;
    GridAt(tail, 0, 0);
    GridAt(tail, 1, 0);
    var tails := Grid(tail);
    assert tails[0] == [("b", "x")] && tails[1] == [("b", "y")];
    GridAt(spec, 0, 0);
    GridAt(spec, 0, 1);
    GridAt(spec, 1, 0);
    GridAt(spec, 1, 1);
    var g := Grid(spec);
    assert |g| == 4;
    assert g[0] == [("a", "1"), ("b", "x")] && g[1] == [("a", "1"), ("b", "y")];
    assert g[2] == [("a", "2"), ("b", "x")] && g[3] == [("a", "2"), ("b", "y")];
  }
}
