/**
 * `simcache/iterations.py`: `expand_grid`, the Cartesian product of a
 * parameter grid as a list of dicts, and `iter_sweep`, which pairs every
 * combination with every seed. Grids are JSON objects, as
 * `load_params_file` reads them.
 */
module Sweep {
  import opened Wrappers
  import opened Json

  // ---------------------------------------------------------------------
  // Arithmetic used by the index lemmas
  // ---------------------------------------------------------------------

  lemma {:induction false} MulAtLeast(a: int, n: int)
    requires a >= 1 && n > 0
    ensures a * n >= n
  {
    assert a * n == (a - 1) * n + n;
    if a > 1 {
      MulAtLeast(a - 1, n);
    }
  }

  lemma MulNat(a: nat, b: nat)
    ensures a * b >= 0
  {
  }

  lemma MulPositive(a: nat, b: nat)
    requires a * b > 0
    ensures a > 0 && b > 0
  {
  }

  /** Euclidean division has one quotient and one remainder. */
  lemma DivModUnique(k: int, q: int, r: int, n: int)
    requires n > 0 && 0 <= r < n && k == q * n + r
    ensures k / n == q && k % n == r
  {
    var d, m := k / n, k % n;
    assert k == d * n + m && 0 <= m < n;
    assert (q - d) * n == m - r;
    if q > d {
      MulAtLeast(q - d, n);
    } else if d > q {
      MulAtLeast(d - q, n);
    }
  }

  // ---------------------------------------------------------------------
  // list(x) and truth values
  // ---------------------------------------------------------------------

  function TypeName(j: Json): string
  {
    match j
    case JNull => "NoneType"
    case JBool(_) => "bool"
    case JInt(_) => "int"
    case JStr(_) => "str"
    case JArr(_) => "list"
    case JObj(_) => "dict"
  }

  /** `list(x)`: the items of a list, the characters of a str, the keys of a dict; TypeError otherwise. */
  function AsList(j: Json): (r: Result<seq<Json>>)
    ensures r.Ok? <==> j.JArr? || j.JStr? || j.JObj?
    ensures j.JArr? ==> r == Ok(j.items)
    ensures j.JStr? ==> r.Ok? && |r.value| == |j.s| && forall i :: 0 <= i < |j.s| ==> r.value[i] == JStr([j.s[i]])
    ensures j.JObj? ==> r.Ok? && |r.value| == |j.fields| && forall i :: 0 <= i < |j.fields| ==> r.value[i] == JStr(j.fields[i].key)
  {
    match j
    case JArr(items) => Ok(items)
    case JStr(s) => Ok(seq(|s|, i requires 0 <= i < |s| => JStr([s[i]])))
    case JObj(fs) => Ok(seq(|fs|, i requires 0 <= i < |fs| => JStr(fs[i].key)))
    case _ => Err(TypeError("'" + TypeName(j) + "' object is not iterable"))
  }

  /** Python truthiness: None, False, 0 and empty containers are false. */
  predicate Truthy(j: Json)
  {
    match j
    case JNull => false
    case JBool(b) => b
    case JInt(i) => i != 0
    case JStr(s) => |s| > 0
    case JArr(items) => |items| > 0
    case JObj(fs) => |fs| > 0
  }

  /** `d.get(key)`. */
  function Get(fs: seq<Field>, key: string): (r: Option<Json>)
    ensures r.None? <==> forall i :: 0 <= i < |fs| ==> fs[i].key != key
    ensures r.Some? ==> exists i :: 0 <= i < |fs| && fs[i].key == key && fs[i].value == r.value
  {
    if |fs| == 0 then None
    else if fs[0].key == key then Some(fs[0].value)
    else
      assert forall i :: 1 <= i < |fs| ==> fs[i] == fs[1..][i - 1];
      Get(fs[1..], key)
  }

  // ---------------------------------------------------------------------
  // itertools.product
  // ---------------------------------------------------------------------

  /** Every tuple of `ts` with `x` in front. */
  function Prepend(x: Json, ts: seq<seq<Json>>): (r: seq<seq<Json>>)
    ensures |r| == |ts| && forall k :: 0 <= k < |ts| ==> r[k] == [x] + ts[k]
  {
    seq(|ts|, k requires 0 <= k < |ts| => [x] + ts[k])
  }

  /** `product(xs, ts)` flattened: for each `x`, in order, every tuple of `ts`. */
  function Cross(xs: seq<Json>, ts: seq<seq<Json>>): (r: seq<seq<Json>>)
    ensures |r| == |xs| * |ts|
  {
    if |xs| == 0 then []
    else
      assert |xs| * |ts| == |ts| + (|xs| - 1) * |ts|;
      Prepend(xs[0], ts) + Cross(xs[1..], ts)
  }

  /** The number of combinations: the product of the axis lengths. */
  function Count(vs: seq<seq<Json>>): nat
  {
    if |vs| == 0 then 1 else |vs[0]| * Count(vs[1..])
  }

  /** `list(product(*vs))`: the first axis changes slowest, the last fastest. */
  function Product(vs: seq<seq<Json>>): (r: seq<seq<Json>>)
    ensures |r| == Count(vs)
    ensures forall k :: 0 <= k < |r| ==> |r[k]| == |vs|
  {
    if |vs| == 0 then [[]]
    else
      var rest := Product(vs[1..]);
      var r := Cross(vs[0], rest);
      assert forall t :: t in r ==> |t| == |vs| by {
        CrossMember(vs[0], rest);
      }
      r
  }

  lemma {:induction false} CrossMember(xs: seq<Json>, ts: seq<seq<Json>>)
    ensures forall t :: t in Cross(xs, ts) <==> |t| > 0 && t[0] in xs && t[1..] in ts
    decreases |xs|
  {
    if |xs| > 0 {
      CrossMember(xs[1..], ts);
      var p := Prepend(xs[0], ts);
      forall t ensures t in p <==> |t| > 0 && t[0] == xs[0] && t[1..] in ts {
        if |t| > 0 && t[0] == xs[0] && t[1..] in ts {
          var k :| 0 <= k < |ts| && ts[k] == t[1..];
          assert p[k] == t;
        }
      }
      assert xs == [xs[0]] + xs[1..];
    }
  }

  /** A tuple is produced exactly when it has one entry per axis, each taken from its axis. */
  lemma {:induction false} ProductMember(vs: seq<seq<Json>>, t: seq<Json>)
    ensures t in Product(vs) <==> |t| == |vs| && forall i :: 0 <= i < |vs| ==> t[i] in vs[i]
    decreases |vs|
  {
    if |vs| == 0 {
      assert Product(vs) == [[]];
    } else {
      var rest := Product(vs[1..]);
      CrossMember(vs[0], rest);
      if |t| > 0 {
        ProductMember(vs[1..], t[1..]);
        if |t| == |vs| && forall i :: 0 <= i < |vs| ==> t[i] in vs[i] {
          assert forall i :: 0 <= i < |vs| - 1 ==> t[1..][i] in vs[1..][i] by {
            forall i | 0 <= i < |vs| - 1 ensures t[1..][i] in vs[1..][i] {
              assert t[1..][i] == t[i + 1];
            }
          }
        }
        if t in Product(vs) {
          forall i | 0 <= i < |vs| ensures t[i] in vs[i] {
            if i > 0 {
              assert t[i] == t[1..][i - 1];
            }
          }
        }
      }
    }
  }

  lemma {:induction false} CrossIndex(xs: seq<Json>, ts: seq<seq<Json>>, i: nat, j: nat)
    requires i < |xs| && j < |ts|
    ensures i * |ts| + j < |Cross(xs, ts)| && Cross(xs, ts)[i * |ts| + j] == [xs[i]] + ts[j]
    decreases i
  {
    var n := |ts|;
    var r := Cross(xs, ts);
    assert r == Prepend(xs[0], ts) + Cross(xs[1..], ts);
    if i > 0 {
      CrossIndex(xs[1..], ts, i - 1, j);
      var k' := (i - 1) * n + j;
      assert i * n + j == n + k';
      assert r[n + k'] == Cross(xs[1..], ts)[k'];
    }
  }

  /**
   * Lexicographic order: with `n` combinations of the other axes,
   * combination `i * n + j` is the first axis's `i`-th value followed by
   * combination `j` of the other axes.
   */
  lemma ProductIndex(vs: seq<seq<Json>>, i: nat, j: nat)
    requires |vs| > 0 && i < |vs[0]| && j < Count(vs[1..])
    ensures i * Count(vs[1..]) + j < Count(vs)
    ensures Product(vs)[i * Count(vs[1..]) + j] == [vs[0][i]] + Product(vs[1..])[j]
  {
    CrossIndex(vs[0], Product(vs[1..]), i, j);
  }

  /** There are no combinations exactly when some axis is empty. */
  lemma {:induction false} ProductEmpty(vs: seq<seq<Json>>)
    ensures Count(vs) == 0 <==> exists i :: 0 <= i < |vs| && |vs[i]| == 0
    decreases |vs|
  {
    if |vs| > 0 {
      ProductEmpty(vs[1..]);
      if exists i :: 0 <= i < |vs| - 1 && |vs[1..][i]| == 0 {
        var i :| 0 <= i < |vs| - 1 && |vs[1..][i]| == 0;
        assert |vs[i + 1]| == 0;
      }
      if exists i :: 0 <= i < |vs| && |vs[i]| == 0 {
        var i :| 0 <= i < |vs| && |vs[i]| == 0;
        if i > 0 {
          assert |vs[1..][i - 1]| == 0;
        }
      }
    }
  }

  // ---------------------------------------------------------------------
  // expand_grid
  // ---------------------------------------------------------------------

  /** `list(params_grid.keys())`. */
  function Keys(grid: seq<Field>): (ks: seq<string>)
    ensures |ks| == |grid| && forall i :: 0 <= i < |grid| ==> ks[i] == grid[i].key
  {
    seq(|grid|, i requires 0 <= i < |grid| => grid[i].key)
  }

  /** `[list(params_grid[key]) for key in keys]`, stopping at the first value that is not iterable. */
  function AxisValues(grid: seq<Field>): (r: Result<seq<seq<Json>>>)
    ensures r.Ok? ==> |r.value| == |grid| && forall i :: 0 <= i < |grid| ==> AsList(grid[i].value) == Ok(r.value[i])
    ensures r.Err? <==> exists i :: 0 <= i < |grid| && AsList(grid[i].value).Err?
    ensures r.Err? ==> r.error.TypeError?
  {
    if |grid| == 0 then Ok([])
    else
      var h := AsList(grid[0].value);
      assert forall i :: 1 <= i < |grid| ==> grid[i] == grid[1..][i - 1];
      if h.Err? then Err(h.error)
      else
        var t := AxisValues(grid[1..]);
        if t.Err? then Err(t.error) else Ok([h.value] + t.value)
  }

  /** The error reported is the one of the first axis that is not iterable. */
  lemma {:induction false} AxisValuesFirstError(grid: seq<Field>, i: nat)
    requires i < |grid| && AxisValues(grid[..i]).Ok? && AsList(grid[i].value).Err?
    ensures AxisValues(grid) == Err(AsList(grid[i].value).error)
    decreases i
  {
    if i > 0 {
      assert grid[..i][0] == grid[0];
      assert grid[..i][1..] == grid[1..][..i - 1];
      assert grid[1..][i - 1] == grid[i];
      AxisValuesFirstError(grid[1..], i - 1);
    }
  }

  /** `dict(zip(keys, combo))` for keys that are already distinct. */
  function Zip(keys: seq<string>, combo: seq<Json>): (d: seq<Field>)
    requires |keys| == |combo|
    ensures |d| == |keys| && forall i :: 0 <= i < |keys| ==> d[i] == Field(keys[i], combo[i])
  {
    seq(|keys|, i requires 0 <= i < |keys| => Field(keys[i], combo[i]))
  }

  /**
   * What `expand_grid(params_grid)` returns. An axis whose value is not
   * iterable (a number, a bool, None) makes it a TypeError.
   */
  function ExpandGridSpec(grid: seq<Field>): (r: Result<seq<seq<Field>>>)
    ensures r.Err? <==> exists i :: 0 <= i < |grid| && AsList(grid[i].value).Err?
    ensures r.Err? ==> r.error.TypeError?
  {
    var vs := AxisValues(grid);
    if vs.Err? then Err(vs.error)
    else
      var ts := Product(vs.value);
      Ok(seq(|ts|, k requires 0 <= k < |ts| => Zip(Keys(grid), ts[k])))
  }

  /** `expand_grid`: the values of each axis, then one dict per tuple of `itertools.product`. */
  method ExpandGrid(grid: seq<Field>) returns (r: Result<seq<seq<Field>>>)
    ensures r == ExpandGridSpec(grid)
  {
    var keys := Keys(grid);
    var values := AxisValues(grid);
    if values.Err? {
      return Err(values.error);
    }
    var tuples := Product(values.value);
    var combinations: seq<seq<Field>> := [];
    for k := 0 to |tuples|
      invariant |combinations| == k
      invariant forall j :: 0 <= j < k ==> combinations[j] == Zip(keys, tuples[j])
    {
      combinations := combinations + [Zip(keys, tuples[k])];
    }
    assert combinations == seq(|tuples|, k requires 0 <= k < |tuples| => Zip(keys, tuples[k]));
    r := Ok(combinations);
  }

  /**
   * There are as many combinations as the product of the axis lengths,
   * and none exactly when some axis is empty.
   */
  lemma ExpandGridCount(grid: seq<Field>)
    requires ExpandGridSpec(grid).Ok?
    ensures var vs := AxisValues(grid).value;
      |ExpandGridSpec(grid).value| == Count(vs)
      && (|ExpandGridSpec(grid).value| == 0 <==> exists i :: 0 <= i < |grid| && |vs[i]| == 0)
  {
    ProductEmpty(AxisValues(grid).value);
  }

  /** Every combination has exactly the grid's keys, in order, each with a value from its axis. */
  lemma ExpandGridShape(grid: seq<Field>, k: nat)
    requires ExpandGridSpec(grid).Ok? && k < |ExpandGridSpec(grid).value|
    ensures var d, vs := ExpandGridSpec(grid).value[k], AxisValues(grid).value;
      |d| == |grid| && forall i :: 0 <= i < |grid| ==> d[i].key == grid[i].key && d[i].value in vs[i]
  {
    var vs := AxisValues(grid).value;
    var ts := Product(vs);
    assert ts[k] in ts;
    ProductMember(vs, ts[k]);
  }

  /** Every choice of one value per axis appears among the combinations. */
  lemma ExpandGridComplete(grid: seq<Field>, combo: seq<Json>)
    requires ExpandGridSpec(grid).Ok?
    requires |combo| == |grid| && forall i :: 0 <= i < |grid| ==> combo[i] in AxisValues(grid).value[i]
    ensures Zip(Keys(grid), combo) in ExpandGridSpec(grid).value
  {
    var vs := AxisValues(grid).value;
    var ts := Product(vs);
    ProductMember(vs, combo);
    var k :| 0 <= k < |ts| && ts[k] == combo;
    assert ExpandGridSpec(grid).value[k] == Zip(Keys(grid), combo);
  }

  /**
   * Combination `k` pairs the grid's keys with the `k`-th tuple of the
   * product, so the combinations come in the lexicographic order
   * `ProductIndex` states.
   */
  lemma ExpandGridAt(grid: seq<Field>, k: nat)
    requires AxisValues(grid).Ok? && k < Count(AxisValues(grid).value)
    ensures ExpandGridSpec(grid).Ok? && |ExpandGridSpec(grid).value| == Count(AxisValues(grid).value)
    ensures ExpandGridSpec(grid).value[k] == Zip(Keys(grid), Product(AxisValues(grid).value)[k])
  {
  }

  /** A grid with no keys has one combination, the empty dict. */
  lemma ExpandGridNoKeys()
    ensures ExpandGridSpec([]) == Ok([[]])
  {
    var r := ExpandGridSpec([]);
    assert AxisValues([]) == Ok([]);
    assert Product([]) == [[]];
    assert |r.value| == 1 && |r.value[0]| == 0;
    assert r.value == [[]];
  }

  // ---------------------------------------------------------------------
  // iter_sweep
  // ---------------------------------------------------------------------

  /** One run of a sweep: the parameter dict and the seed. */
  type Pair = (seq<Field>, Json)

  /**
   * The combinations `iter_sweep` walks: `grid.get("params", {})` expanded
   * when truthy, the single empty dict otherwise. A truthy value that is
   * not a dict fails where `expand_grid` calls `.keys()` on it.
   */
  function SweepCombos(grid: seq<Field>): (r: Result<seq<seq<Field>>>)
    ensures var p := Get(grid, "params");
      (p.None? || !Truthy(p.value)) ==> r == Ok([[]])
    ensures var p := Get(grid, "params");
      p.Some? && p.value.JObj? && Truthy(p.value) ==> r == ExpandGridSpec(p.value.fields)
    ensures r.Err? ==> r.error.TypeError? || r.error.AttributeError?
  {
    var params := match Get(grid, "params") case Some(v) => v case None => JObj([]);
    if !Truthy(params) then Ok([[]])
    else if !params.JObj? then Err(AttributeError("'" + TypeName(params) + "' object has no attribute 'keys'"))
    else ExpandGridSpec(params.fields)
  }

  /** The seeds: `list(grid["seeds"])`, else `[grid["seed"]]`, else `[0]`. */
  function SweepSeeds(grid: seq<Field>): (r: Result<seq<Json>>)
    ensures Get(grid, "seeds").Some? ==> r == AsList(Get(grid, "seeds").value)
    ensures Get(grid, "seeds").None? && Get(grid, "seed").Some? ==> r == Ok([Get(grid, "seed").value])
    ensures Get(grid, "seeds").None? && Get(grid, "seed").None? ==> r == Ok([JInt(0)])
  {
    match Get(grid, "seeds")
    case Some(v) => AsList(v)
    case None =>
      match Get(grid, "seed")
      case Some(v) => Ok([v])
      case None => Ok([JInt(0)])
  }

  /** `params` with every seed, in seed order. */
  function Row(params: seq<Field>, ss: seq<Json>): (r: seq<Pair>)
    ensures |r| == |ss| && forall j :: 0 <= j < |ss| ==> r[j] == (params, ss[j])
  {
    seq(|ss|, j requires 0 <= j < |ss| => (params, ss[j]))
  }

  /** The nested loop: every combination, in order, with every seed. */
  function Pairs(cs: seq<seq<Field>>, ss: seq<Json>): (r: seq<Pair>)
    ensures |r| == |cs| * |ss|
  {
    if |cs| == 0 then []
    else
      assert |cs| * |ss| == (|cs| - 1) * |ss| + |ss|;
      Pairs(cs[..|cs| - 1], ss) + Row(cs[|cs| - 1], ss)
  }

  /** Everything `iter_sweep(grid)` yields; a failure in the combinations is raised before the seeds are read. */
  function SweepSpec(grid: seq<Field>): Result<seq<Pair>>
  {
    var cs := SweepCombos(grid);
    if cs.Err? then Err(cs.error)
    else
      var ss := SweepSeeds(grid);
      if ss.Err? then Err(ss.error) else Ok(Pairs(cs.value, ss.value))
  }

  /** `iter_sweep` with its generator drained into a list. */
  method IterSweep(grid: seq<Field>) returns (r: Result<seq<Pair>>)
    ensures r == SweepSpec(grid)
  {
    var params := match Get(grid, "params") case Some(v) => v case None => JObj([]);
    var combinations: seq<seq<Field>>;
    if Truthy(params) {
      if !params.JObj? {
        return Err(AttributeError("'" + TypeName(params) + "' object has no attribute 'keys'"));
      }
      var e := ExpandGrid(params.fields);
      if e.Err? {
        return Err(e.error);
      }
      combinations := e.value;
    } else {
      combinations := [[]];
    }
    var seeds: seq<Json>;
    var s := Get(grid, "seeds");
    if s.Some? {
      var l := AsList(s.value);
      if l.Err? {
        return Err(l.error);
      }
      seeds := l.value;
    } else {
      var one := Get(grid, "seed");
      seeds := if one.Some? then [one.value] else [JInt(0)];
    }
    var pairs := PairUp(combinations, seeds);
    r := Ok(pairs);
  }

  /** The two nested `for` loops of `iter_sweep`, collecting what they yield. */
  method PairUp(cs: seq<seq<Field>>, ss: seq<Json>) returns (pairs: seq<Pair>)
    ensures pairs == Pairs(cs, ss)
  {
    pairs := [];
    for i := 0 to |cs|
      invariant pairs == Pairs(cs[..i], ss)
    {
      var params := cs[i];
      for j := 0 to |ss|
        invariant pairs == Pairs(cs[..i], ss) + Row(params, ss[..j])
      {
        pairs := pairs + [(params, ss[j])];
      }
      assert cs[..i + 1][..i] == cs[..i];
      assert ss[..|ss|] == ss;
    }
    assert cs[..|cs|] == cs;
  }

  /**
   * Pair `k` of the sweep is combination `k / |ss|` with seed `k % |ss|`:
   * the seeds vary fastest.
   */
  lemma {:induction false} PairsIndex(cs: seq<seq<Field>>, ss: seq<Json>, k: nat)
    requires k < |cs| * |ss|
    ensures |ss| > 0 && k / |ss| < |cs|
    ensures Pairs(cs, ss)[k] == (cs[k / |ss|], ss[k % |ss|])
    decreases |cs|
  {
    var n, m := |cs|, |ss|;
    MulPositive(n, m);
    MulNat(n - 1, m);
    var last := (n - 1) * m;
    assert n * m == last + m;
    if k < last {
      PairsIndex(cs[..n - 1], ss, k);
      assert Pairs(cs, ss)[k] == Pairs(cs[..n - 1], ss)[k];
    } else {
      DivModUnique(k, n - 1, k - last, m);
      assert Pairs(cs, ss)[k] == Row(cs[n - 1], ss)[k - last];
    }
  }

  /** A sweep yields one pair per combination and seed. */
  lemma SweepCount(grid: seq<Field>)
    requires SweepSpec(grid).Ok?
    ensures SweepCombos(grid).Ok? && SweepSeeds(grid).Ok?
    ensures |SweepSpec(grid).value| == |SweepCombos(grid).value| * |SweepSeeds(grid).value|
  {
  }

  /** A pair is yielded exactly when its params are one of the combinations and its seed one of the seeds. */
  lemma {:induction false} PairsMember(cs: seq<seq<Field>>, ss: seq<Json>, params: seq<Field>, seed: Json)
    ensures (params, seed) in Pairs(cs, ss) <==> params in cs && seed in ss
    decreases |cs|
  {
    if |cs| > 0 {
      var init := cs[..|cs| - 1];
      PairsMember(init, ss, params, seed);
      assert cs == init + [cs[|cs| - 1]];
      if (params, seed) in Row(cs[|cs| - 1], ss) {
        var j :| 0 <= j < |ss| && Row(cs[|cs| - 1], ss)[j] == (params, seed);
      }
      if params == cs[|cs| - 1] && seed in ss {
        var j :| 0 <= j < |ss| && ss[j] == seed;
        assert Row(cs[|cs| - 1], ss)[j] == (params, seed);
      }
    }
  }

  /** Every combination meets every seed, and nothing else is yielded. */
  lemma SweepMembers(grid: seq<Field>, params: seq<Field>, seed: Json)
    requires SweepSpec(grid).Ok?
    ensures (params, seed) in SweepSpec(grid).value
        <==> params in SweepCombos(grid).value && seed in SweepSeeds(grid).value
  {
    PairsMember(SweepCombos(grid).value, SweepSeeds(grid).value, params, seed);
  }

  /** Without params (absent, None or empty) every seed runs once, with the empty dict. */
  lemma SweepNoParams(grid: seq<Field>)
    requires Get(grid, "params").None? || !Truthy(Get(grid, "params").value)
    requires SweepSeeds(grid).Ok?
    ensures SweepSpec(grid) == Ok(Row([], SweepSeeds(grid).value))
  {
    var ss := SweepSeeds(grid).value;
    assert SweepCombos(grid) == Ok([[]]);
    var single: seq<seq<Field>> := [[]];
    assert single[..0] == [];
    assert Pairs([], ss) == [];
    assert Pairs(single, ss) == Pairs([], ss) + Row([], ss);
    assert SweepSpec(grid) == Ok(Pairs(single, ss));
    assert Pairs(single, ss) == Row([], ss);
  }
}
