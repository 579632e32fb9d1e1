/**
 * The run-identity layer of `simcache/core.py`: `_normalize`, which turns
 * a parameter tree into plain JSON data, `hash_spec` over its sorted-key
 * payload, and the older `make_run_id` / `RunSpec.to_dict` pair.
 *
 * Python values are the `PyValue` datatype. SHA-256 itself is not
 * modelled: it is a parameter `sha` of type `Digest`, any function from
 * bytes to 64 lower-case hex digits.
 */
module Canonical {
  import opened Wrappers
  import opened Strings
  import opened Json
  import Sorting
  import Utf8

  // ---------------------------------------------------------------------
  // Python values
  // ---------------------------------------------------------------------

  /** The dict keys the model distinguishes, each with the text `str(key)` gives. */
  datatype Key =
    | KStr(s: string)
    | KInt(i: int)
    | KBool(b: bool)
    | KNone
    | KPath(path: string)
    | KOther(text: string)   // a tuple, bytes or other hashable object, by its str()

  /** A Python value as `_normalize` sees it (floats and numpy values are not modelled). */
  datatype PyValue =
    | PNone
    | PBool(b: bool)
    | PInt(i: int)
    | PStr(s: string)
    | PList(items: seq<PyValue>)
    | PTuple(items: seq<PyValue>)
    | PSet(items: seq<PyValue>)      // in the set's iteration order
    | PDict(entries: seq<Entry>)     // in insertion order
    | PPath(path: string)
    | PBytes(bytes: seq<Utf8.byte>)
    | PObject(text: string)          // any other object, by its str()

  datatype Entry = Entry(key: Key, value: PyValue)

  /** `str(key)`. */
  function KeyText(k: Key): string
  {
    match k
    case KStr(s) => s
    case KInt(i) => IntToString(i)
    case KBool(b) => if b then "True" else "False"
    case KNone => "None"
    case KPath(p) => p
    case KOther(t) => t
  }

  // ---------------------------------------------------------------------
  // Dict building: `{k: v for ...}` keeps the first position and the last value
  // ---------------------------------------------------------------------

  predicate HasKey(fs: seq<Field>, k: string)
  {
    exists i :: 0 <= i < |fs| && fs[i].key == k
  }

  /** The position of key `k` in `fs`, or -1. */
  function Find(fs: seq<Field>, k: string): (r: int)
    ensures -1 <= r < |fs|
    ensures r == -1 <==> !HasKey(fs, k)
    ensures r >= 0 ==> fs[r].key == k && forall i :: 0 <= i < r ==> fs[i].key != k
  {
    if |fs| == 0 then -1
    else if fs[0].key == k then 0
    else
      var r := Find(fs[1..], k);
      assert forall i :: 1 <= i < |fs| ==> fs[i] == fs[1..][i - 1];
      if r == -1 then -1 else r + 1
  }

  /** `d[f.key] = f.value`: overwrite in place, or append a new key. */
  function Put(fs: seq<Field>, f: Field): seq<Field>
  {
    var i := Find(fs, f.key);
    if i == -1 then fs + [f] else fs[i := f]
  }

  /** The dict built by assigning the pairs `ps` one after another. */
  function Collect(ps: seq<Field>): seq<Field>
  {
    if |ps| == 0 then [] else Put(Collect(ps[..|ps| - 1]), ps[|ps| - 1])
  }

  /** `ps[i]` is the last pair with its key. */
  predicate LastOf(ps: seq<Field>, i: int)
    requires 0 <= i < |ps|
  {
    forall j :: i < j < |ps| ==> ps[j].key != ps[i].key
  }

  lemma {:induction false} FindAppend(ps: seq<Field>, f: Field, k: string)
    ensures Find(ps + [f], k) ==
      if Find(ps, k) >= 0 then Find(ps, k) else if f.key == k then |ps| else -1
  {
    var qs := ps + [f];
    if Find(ps, k) >= 0 {
      assert qs[Find(ps, k)] == ps[Find(ps, k)];
    } else if f.key == k {
      assert qs[|ps|] == f;
    } else {
      assert forall i :: 0 <= i < |qs| ==> qs[i].key != k by {
        forall i | 0 <= i < |qs| ensures qs[i].key != k {
          if i < |ps| {
            assert qs[i] == ps[i];
          }
        }
      }
    }
  }

  /** One assignment: the keys already present stay where they are, `f.key` ends up holding `f.value`. */
  lemma PutEntries(fs: seq<Field>, f: Field)
    ensures var r := Put(fs, f);
      (UniqueKeys(fs) ==> UniqueKeys(r))
      && (forall p :: 0 <= p < |r| ==> r[p] == f || r[p] in fs)
      && HasKey(r, f.key)
      && (forall k :: HasKey(fs, k) ==> HasKey(r, k))
  {
    var i := Find(fs, f.key);
    var r := Put(fs, f);
    if i == -1 {
      assert r[|fs|] == f;
      forall k | HasKey(fs, k) ensures HasKey(r, k) {
        var p :| 0 <= p < |fs| && fs[p].key == k;
        assert r[p] == fs[p];
      }
    } else {
      assert r[i] == f;
      forall k | HasKey(fs, k) ensures HasKey(r, k) {
        var p :| 0 <= p < |fs| && fs[p].key == k;
        assert r[p].key == k;
      }
    }
  }

  /** The assigned dict has each key once, each entry is one of the pairs, and each pair's key is in it. */
  lemma {:induction false} CollectEntries(ps: seq<Field>)
    ensures var r := Collect(ps);
      UniqueKeys(r)
      && (forall p :: 0 <= p < |r| ==> r[p] in ps)
      && (forall i :: 0 <= i < |ps| ==> HasKey(r, ps[i].key))
    decreases |ps|
  {
    if |ps| > 0 {
      var ps', f := ps[..|ps| - 1], ps[|ps| - 1];
      assert ps == ps' + [f];
      CollectEntries(ps');
      PutEntries(Collect(ps'), f);
      var r := Collect(ps);
      forall q | 0 <= q < |ps| ensures HasKey(r, ps[q].key) {
        if q < |ps'| {
          assert ps[q] == ps'[q];
        }
      }
    }
  }

  lemma PutShape(fs: seq<Field>, f: Field)
    ensures var r := Put(fs, f);
      |r| == (if HasKey(fs, f.key) then |fs| else |fs| + 1)
      && (forall p :: 0 <= p < |fs| ==> r[p].key == fs[p].key && (r[p].key != f.key ==> r[p] == fs[p]))
      && (|r| > |fs| ==> r[|fs|] == f)
      && (UniqueKeys(fs) ==> forall p :: 0 <= p < |r| && r[p].key == f.key ==> r[p] == f)
  {
  }

  /** After assigning all pairs, a key holds the value of its last pair. */
  lemma {:induction false} CollectLastWins(ps: seq<Field>)
    ensures var r := Collect(ps);
      forall i, p :: 0 <= i < |ps| && 0 <= p < |r| && LastOf(ps, i) && r[p].key == ps[i].key ==> r[p] == ps[i]
    decreases |ps|
  {
    if |ps| > 0 {
      var ps', f := ps[..|ps| - 1], ps[|ps| - 1];
      assert ps == ps' + [f];
      CollectLastWins(ps');
      CollectEntries(ps');
      var r', r := Collect(ps'), Collect(ps);
      PutShape(r', f);
      forall i, p | 0 <= i < |ps| && 0 <= p < |r| && LastOf(ps, i) && r[p].key == ps[i].key
        ensures r[p] == ps[i]
      {
        if i < |ps'| {
          assert ps[i] == ps'[i] && f.key != ps[i].key;
          assert LastOf(ps', i) by {
            forall j | i < j < |ps'| ensures ps'[j].key != ps'[i].key {
              assert ps'[j] == ps[j];
            }
          }
          assert p < |r'| && r[p] == r'[p];
        }
      }
    }
  }

  lemma CollectLastWinsAt(ps: seq<Field>, i: nat, p: nat)
    requires i < |ps| && p < |Collect(ps)| && LastOf(ps, i) && Collect(ps)[p].key == ps[i].key
    ensures Collect(ps)[p] == ps[i]
  {
    CollectLastWins(ps);
  }

  /** Keys keep the order of their first assignment. */
  lemma {:induction false} CollectOrder(ps: seq<Field>)
    ensures var r := Collect(ps);
      forall p, q :: 0 <= p < q < |r| ==> 0 <= Find(ps, r[p].key) < Find(ps, r[q].key)
    decreases |ps|
  {
    if |ps| > 0 {
      var ps', f := ps[..|ps| - 1], ps[|ps| - 1];
      assert ps == ps' + [f];
      CollectOrder(ps');
      CollectEntries(ps');
      var r', r := Collect(ps'), Collect(ps);
      PutShape(r', f);
      forall p | 0 <= p < |r'| ensures Find(ps, r[p].key) == Find(ps', r'[p].key) >= 0 {
        assert r'[p] in ps';
        FindAppend(ps', f, r'[p].key);
      }
      if |r| > |r'| {
        NewKeyLast(ps', f);
      }
      forall p, q | 0 <= p < q < |r| ensures 0 <= Find(ps, r[p].key) < Find(ps, r[q].key) {
        if q < |r'| {
          assert Find(ps', r'[p].key) < Find(ps', r'[q].key);
        } else {
          assert r[q] == f;
          assert Find(ps', r'[p].key) < |ps'|;
        }
      }
    }
  }

  lemma NewKeyLast(ps': seq<Field>, f: Field)
    requires !HasKey(Collect(ps'), f.key)
    ensures Find(ps' + [f], f.key) == |ps'|
  {
    CollectEntries(ps');
    FindAppend(ps', f, f.key);
  }

  lemma CollectOrderAt(ps: seq<Field>, p: nat, q: nat)
    requires p < q < |Collect(ps)|
    ensures 0 <= Find(ps, Collect(ps)[p].key) < Find(ps, Collect(ps)[q].key)
  {
    CollectOrder(ps);
  }

  /** A dict whose pairs have distinct keys is the pairs themselves, in order. */
  lemma {:induction false} CollectDistinct(ps: seq<Field>)
    requires UniqueKeys(ps)
    ensures Collect(ps) == ps
    decreases |ps|
  {
    if |ps| > 0 {
      var ps', f := ps[..|ps| - 1], ps[|ps| - 1];
      assert ps == ps' + [f];
      CollectDistinct(ps');
      assert !HasKey(ps', f.key) by {
        forall i | 0 <= i < |ps'| ensures ps'[i].key != f.key {
          assert ps'[i] == ps[i];
        }
      }
    }
  }

  // ---------------------------------------------------------------------
  // sorted(...) over normalised set elements
  // ---------------------------------------------------------------------

  /** What a set whose elements Python cannot order with `<` raises. */
  const SortError: Error := TypeError("'<' not supported between instances")

  /** 0 for a number (bool or int), 1 for a str, 2 for anything else. */
  function Kind(j: Json): nat
  {
    match j
    case JBool(_) => 0
    case JInt(_) => 0
    case JStr(_) => 1
    case _ => 2
  }

  /** The numeric value Python compares a bool or an int by. */
  function Num(j: Json): int
    requires Kind(j) == 0
  {
    match j
    case JBool(b) => if b then 1 else 0
    case JInt(i) => i
  }

  /**
   * `a <= b` as `sorted` sees it: numbers by value and str by code points.
   * Values of different kinds are ordered by kind only so that the relation
   * is total; `sorted` never gets to compare them (see `Homogeneous`).
   */
  predicate SortLe(a: Json, b: Json)
  {
    if Kind(a) != Kind(b) then Kind(a) < Kind(b)
    else if Kind(a) == 0 then Num(a) <= Num(b)
    else if Kind(a) == 1 then LessEq(a.s, b.s)
    else true
  }

  lemma SortLeTotalPreorder()
    ensures Sorting.TotalPreorder(SortLe)
  {
    LessEqTotalPreorder();
  }

  /**
   * `sorted` succeeds: at most one element (nothing is compared), or all
   * numbers, or all str. Any other mix makes some `<` raise TypeError.
   */
  predicate Homogeneous(js: seq<Json>)
  {
    |js| <= 1 || (forall x :: x in js ==> Kind(x) == 0) || (forall x :: x in js ==> Kind(x) == 1)
  }

  /** `sorted(js)`: the stable sort, or TypeError. */
  function SortValues(js: seq<Json>): (r: Result<seq<Json>>)
  {
    if Homogeneous(js) then Ok(Sorting.Sort(js, SortLe)) else Err(SortError)
  }

  // ---------------------------------------------------------------------
  // _normalize
  // ---------------------------------------------------------------------

  /** `_normalize(obj)`: the only failure is sorting a set whose elements do not compare. */
  function Normalize(v: PyValue): (r: Result<Json>)
    ensures r.Err? ==> r.error == SortError
    decreases v, 1
  {
    match v
    case PDict(es) =>
      var ps := NormalizeEntries(es);
      if ps.Err? then Err(ps.error) else Ok(JObj(Collect(ps.value)))
    case PList(items) =>
      var js := NormalizeItems(items);
      if js.Err? then Err(js.error) else Ok(JArr(js.value))
    case PTuple(items) =>
      var js := NormalizeItems(items);
      if js.Err? then Err(js.error) else Ok(JArr(js.value))
    case PSet(items) =>
      var js := NormalizeItems(items);
      if js.Err? then Err(js.error)
      else
        var sorted := SortValues(js.value);
        if sorted.Err? then Err(sorted.error) else Ok(JArr(sorted.value))
    case PPath(p) => Ok(JStr(p))
    case PBytes(bs) => Ok(JStr(Utf8.Decode(bs)))
    case PStr(s) => Ok(JStr(s))
    case PInt(i) => Ok(JInt(i))
    case PBool(b) => Ok(JBool(b))
    case PNone => Ok(JNull)
    case PObject(t) => Ok(JStr(t))
  }

  /** `[_normalize(value) for value in items]`, stopping at the first failure. */
  function NormalizeItems(items: seq<PyValue>): (r: Result<seq<Json>>)
    ensures r.Ok? ==> |r.value| == |items| && forall i :: 0 <= i < |items| ==> Normalize(items[i]) == Ok(r.value[i])
    ensures r.Err? <==> exists i :: 0 <= i < |items| && Normalize(items[i]).Err?
    ensures r.Err? ==> r.error == SortError
    decreases items, 0
  {
    if |items| == 0 then Ok([])
    else
      var h := Normalize(items[0]);
      if h.Err? then Err(h.error)
      else
        var t := NormalizeItems(items[1..]);
        assert forall i :: 1 <= i < |items| ==> items[i] == items[1..][i - 1];
        if t.Err? then Err(t.error) else Ok([h.value] + t.value)
  }

  /** One `str(key): _normalize(value)` pair. */
  function NormalizeEntry(e: Entry): (r: Result<Field>)
    ensures r.Ok? ==> r.value.key == KeyText(e.key) && Normalize(e.value) == Ok(r.value.value)
    ensures r.Err? <==> Normalize(e.value).Err?
    ensures r.Err? ==> r.error == SortError
    decreases e, 2
  {
    var v := Normalize(e.value);
    if v.Err? then Err(v.error) else Ok(Field(KeyText(e.key), v.value))
  }

  /** The pairs of the dict comprehension, in the order it produces them. */
  function NormalizeEntries(es: seq<Entry>): (r: Result<seq<Field>>)
    ensures r.Ok? ==> |r.value| == |es| && forall i :: 0 <= i < |es| ==> NormalizeEntry(es[i]) == Ok(r.value[i])
    ensures r.Err? <==> exists i :: 0 <= i < |es| && NormalizeEntry(es[i]).Err?
    ensures r.Err? ==> r.error == SortError
    decreases es, 0
  {
    if |es| == 0 then Ok([])
    else
      var h := NormalizeEntry(es[0]);
      if h.Err? then Err(h.error)
      else
        var t := NormalizeEntries(es[1..]);
        assert forall i :: 1 <= i < |es| ==> es[i] == es[1..][i - 1];
        if t.Err? then Err(t.error) else Ok([h.value] + t.value)
  }

  // ---------------------------------------------------------------------
  // What _normalize does to dicts, lists, tuples and sets
  // ---------------------------------------------------------------------

  /** The i-th pair of the comprehension is `str(key)` with the normalised value. */
  lemma EntryPairs(es: seq<Entry>)
    requires NormalizeEntries(es).Ok?
    ensures var ps := NormalizeEntries(es).value;
      forall i :: 0 <= i < |es| ==>
        ps[i].key == KeyText(es[i].key) && Normalize(es[i].value) == Ok(ps[i].value)
  {
    var ps := NormalizeEntries(es).value;
    forall i | 0 <= i < |es|
      ensures ps[i].key == KeyText(es[i].key) && Normalize(es[i].value) == Ok(ps[i].value)
    {
      assert NormalizeEntry(es[i]) == Ok(ps[i]);
    }
  }

  /**
   * A dict becomes an object keyed by `str(key)`: each key once, exactly the
   * texts of the original keys, and it fails only if a value fails.
   */
  lemma NormalizeDictKeys(es: seq<Entry>)
    ensures Normalize(PDict(es)).Err? <==> exists i :: 0 <= i < |es| && Normalize(es[i].value).Err?
    ensures Normalize(PDict(es)).Ok? ==>
      Normalize(PDict(es)).value.JObj? &&
      var fs := Normalize(PDict(es)).value.fields;
      UniqueKeys(fs)
      && (forall p :: 0 <= p < |fs| ==> exists i :: 0 <= i < |es| && fs[p].key == KeyText(es[i].key))
      && (forall i :: 0 <= i < |es| ==> HasKey(fs, KeyText(es[i].key)))
  {
    var r := NormalizeEntries(es);
    if r.Err? {
      assert Normalize(PDict(es)) == Err(SortError);
      var i :| 0 <= i < |es| && NormalizeEntry(es[i]).Err?;
      assert Normalize(es[i].value).Err?;
    } else {
      var ps := r.value;
      var fs := Collect(ps);
      assert Normalize(PDict(es)) == Ok(JObj(fs));
      EntryPairs(es);
      CollectEntries(ps);
      forall p | 0 <= p < |fs| ensures exists i :: 0 <= i < |es| && fs[p].key == KeyText(es[i].key) {
        var i :| 0 <= i < |ps| && ps[i] == fs[p];
        assert fs[p].key == KeyText(es[i].key);
      }
      forall i | 0 <= i < |es| ensures HasKey(fs, KeyText(es[i].key)) {
        assert HasKey(fs, ps[i].key);
      }
    }
  }

  /** When a key text repeats (`1` and `"1"`), the value of the later entry wins. */
  lemma NormalizeDictLastWins(es: seq<Entry>, i: nat, p: nat)
    requires Normalize(PDict(es)).Ok?
    requires i < |es| && forall j :: i < j < |es| ==> KeyText(es[j].key) != KeyText(es[i].key)
    requires var fs := Normalize(PDict(es)).value.fields;
      p < |fs| && fs[p].key == KeyText(es[i].key)
    ensures Normalize(es[i].value) == Ok(Normalize(PDict(es)).value.fields[p].value)
  {
    var ps := NormalizeEntries(es).value;
    var fs := Collect(ps);
    assert Normalize(PDict(es)) == Ok(JObj(fs));
    EntryPairs(es);
    assert ps[i].key == fs[p].key;
    assert LastOf(ps, i);
    CollectLastWinsAt(ps, i, p);
  }

  /**
   * Keys appear in the order of their first entry: the first entry giving
   * `fs[p]`'s key comes before every entry giving `fs[q]`'s key.
   */
  lemma NormalizeDictOrder(es: seq<Entry>, p: nat, q: nat)
    requires Normalize(PDict(es)).Ok?
    requires p < q < |Normalize(PDict(es)).value.fields|
    ensures var fs := Normalize(PDict(es)).value.fields;
      exists i :: 0 <= i < |es| && KeyText(es[i].key) == fs[p].key
        && forall j :: 0 <= j <= i ==> KeyText(es[j].key) != fs[q].key
  {
    var ps := NormalizeEntries(es).value;
    var fs := Collect(ps);
    assert Normalize(PDict(es)) == Ok(JObj(fs));
    EntryPairs(es);
    CollectOrderAt(ps, p, q);
    var i := Find(ps, fs[p].key);
    var k := Find(ps, fs[q].key);
    assert 0 <= i < k;
    assert KeyText(es[i].key) == fs[p].key;
    forall j | 0 <= j <= i ensures KeyText(es[j].key) != fs[q].key {
      assert ps[j].key != fs[q].key;
    }
  }

  /** Lists and tuples become arrays of the same length, element by element, in order. */
  lemma NormalizeSequence(items: seq<PyValue>)
    ensures Normalize(PList(items)) == Normalize(PTuple(items))
    ensures Normalize(PList(items)).Err? <==> exists i :: 0 <= i < |items| && Normalize(items[i]).Err?
    ensures Normalize(PList(items)).Ok? ==>
      Normalize(PList(items)).value.JArr? &&
      var js := Normalize(PList(items)).value.items;
      |js| == |items| && forall i :: 0 <= i < |items| ==> Normalize(items[i]) == Ok(js[i])
  {
  }

  /**
   * A set becomes the sorted list of its normalised elements, and fails if
   * an element fails or if two of them cannot be compared with `<`.
   */
  lemma NormalizeSet(items: seq<PyValue>)
    ensures var r, n := Normalize(PSet(items)), NormalizeItems(items);
      (r.Err? <==> (exists i :: 0 <= i < |items| && Normalize(items[i]).Err?) || (n.Ok? && !Homogeneous(n.value)))
      && (r.Ok? ==>
            r.value.JArr? && Sorting.SortedBy(r.value.items, SortLe)
            && multiset(r.value.items) == multiset(n.value))
  {
    var n := NormalizeItems(items);
    if n.Ok? && Homogeneous(n.value) {
      SortLeTotalPreorder();
      Sorting.SortSorted(n.value, SortLe);
    }
  }

  /** Normalising with failures replaced by null, for stating facts about whole sequences. */
  function NormalizedOrNull(v: PyValue): Json
  {
    var r := Normalize(v);
    if r.Ok? then r.value else JNull
  }

  /** Only `int` normalises to an int and only `bool` to a bool. */
  lemma NumberSource(v: PyValue)
    requires Normalize(v).Ok? && Kind(Normalize(v).value) == 0
    ensures Normalize(v).value.JInt? ==> v == PInt(Normalize(v).value.i)
    ensures Normalize(v).value.JBool? ==> v == PBool(Normalize(v).value.b)
  {
  }

  /**
   * The elements of a Python set: `True` and `1` (or `False` and `0`) are
   * equal in Python, so a set never holds both.
   */
  predicate NoNumberClash(items: seq<PyValue>)
  {
    forall i, k :: 0 <= i < |items| && 0 <= k < |items| && items[i].PBool? && items[k].PInt? ==>
      items[k].i != (if items[i].b then 1 else 0)
  }

  lemma SetNoTies(items: seq<PyValue>)
    requires NoNumberClash(items)
    requires NormalizeItems(items).Ok? && Homogeneous(NormalizeItems(items).value)
    ensures Sorting.NoTies(NormalizeItems(items).value, SortLe)
  {
    var js := NormalizeItems(items).value;
    forall a, b | a in js && b in js && SortLe(a, b) && SortLe(b, a) ensures a == b {
      var i :| 0 <= i < |js| && js[i] == a;
      var k :| 0 <= k < |js| && js[k] == b;
      if Kind(a) == 1 {
        LessEqTotalPreorder();
      } else if Kind(a) == 0 {
        NumberSource(items[i]);
        NumberSource(items[k]);
      } else {
        assert |js| <= 1;
      }
    }
  }

  lemma ItemsErrTransfer(items: seq<PyValue>, others: seq<PyValue>)
    requires multiset(items) == multiset(others)
    requires NormalizeItems(items).Err?
    ensures NormalizeItems(others).Err?
  {
    var i :| 0 <= i < |items| && Normalize(items[i]).Err?;
    assert items[i] in multiset(others);
    var k :| 0 <= k < |others| && others[k] == items[i];
  }

  lemma ItemsPermutation(items: seq<PyValue>, others: seq<PyValue>)
    requires multiset(items) == multiset(others)
    requires NormalizeItems(items).Ok? && NormalizeItems(others).Ok?
    ensures multiset(NormalizeItems(items).value) == multiset(NormalizeItems(others).value)
  {
    assert NormalizeItems(items).value == Sorting.Map(items, NormalizedOrNull);
    assert NormalizeItems(others).value == Sorting.Map(others, NormalizedOrNull);
    Sorting.MapPermutation(items, others, NormalizedOrNull);
  }

  lemma HomogeneousPermutation(js: seq<Json>, ks: seq<Json>)
    requires multiset(js) == multiset(ks)
    ensures Homogeneous(js) == Homogeneous(ks)
  {
    assert |js| == |multiset(js)| == |ks|;
    forall x ensures x in js <==> x in ks {
      assert x in js <==> x in multiset(js);
      assert x in ks <==> x in multiset(ks);
    }
  }

  /** The iteration order of a set does not show in its normalised form. */
  lemma SetOrderIrrelevant(items: seq<PyValue>, others: seq<PyValue>)
    requires multiset(items) == multiset(others)
    requires NoNumberClash(items)
    ensures Normalize(PSet(items)) == Normalize(PSet(others))
  {
    var n, m := NormalizeItems(items), NormalizeItems(others);
    if n.Err? {
      ItemsErrTransfer(items, others);
    } else if m.Err? {
      ItemsErrTransfer(others, items);
    } else {
      var js, ks := n.value, m.value;
      ItemsPermutation(items, others);
      HomogeneousPermutation(js, ks);
      if Homogeneous(js) {
        SortLeTotalPreorder();
        SetNoTies(items);
        Sorting.SortPermutationInvariant(js, ks, SortLe);
      }
    }
  }

  // ---------------------------------------------------------------------
  // Leaves and idempotence
  // ---------------------------------------------------------------------

  /** A `Path`, a str and an object whose str() is the same text all become that text. */
  lemma NormalizeText(t: string)
    ensures Normalize(PPath(t)) == Normalize(PStr(t)) == Normalize(PObject(t)) == Ok(JStr(t))
  {
  }

  /** Bytes are decoded as UTF-8, so the UTF-8 encoding of a str normalises to that str. */
  lemma NormalizeBytes(t: string)
    ensures Normalize(PBytes(Utf8.Encode(t))) == Ok(JStr(t))
  {
    Utf8.DecodeEncode(t);
  }

  /** The Python value a JSON value stands for: dicts with str keys, lists, str, int, bool, None. */
  function FromJson(j: Json): PyValue
    decreases j, 1
  {
    match j
    case JNull => PNone
    case JBool(b) => PBool(b)
    case JInt(i) => PInt(i)
    case JStr(t) => PStr(t)
    case JArr(items) => PList(FromJsonItems(items))
    case JObj(fs) => PDict(FromJsonFields(fs))
  }

  function FromJsonItems(items: seq<Json>): (r: seq<PyValue>)
    ensures |r| == |items| && forall i :: 0 <= i < |items| ==> r[i] == FromJson(items[i])
    decreases items, 0
  {
    seq(|items|, i requires 0 <= i < |items| => FromJson(items[i]))
  }

  function FromJsonField(f: Field): Entry
    decreases f, 2
  {
    Entry(KStr(f.key), FromJson(f.value))
  }

  function FromJsonFields(fs: seq<Field>): (r: seq<Entry>)
    ensures |r| == |fs| && forall i :: 0 <= i < |fs| ==> r[i] == FromJsonField(fs[i])
    decreases fs, 0
  {
    seq(|fs|, i requires 0 <= i < |fs| => FromJsonField(fs[i]))
  }

  /** Every object, at every depth, has each key once: a value Python's dicts can hold. */
  ghost predicate DeepUnique(j: Json)
    decreases j
  {
    match j
    case JArr(items) => forall i :: 0 <= i < |items| ==> DeepUnique(items[i])
    case JObj(fs) => UniqueKeys(fs) && forall i :: 0 <= i < |fs| ==> DeepUnique(fs[i].value)
    case _ => true
  }

  /** Plain JSON data is a fixed point of `_normalize`. */
  lemma {:induction false} NormalizeFromJson(j: Json)
    requires DeepUnique(j)
    ensures Normalize(FromJson(j)) == Ok(j)
    decreases j, 1
  {
    match j
    case JArr(items) =>
      NormalizeFromJsonItems(items);
    case JObj(fs) =>
      NormalizeFromJsonFields(fs);
    case _ =>
  }

  lemma {:induction false} NormalizeFromJsonItems(items: seq<Json>)
    requires forall i :: 0 <= i < |items| ==> DeepUnique(items[i])
    ensures Normalize(PList(FromJsonItems(items))) == Ok(JArr(items))
    decreases items, 0
  {
    var xs := FromJsonItems(items);
    forall i | 0 <= i < |items| ensures Normalize(xs[i]) == Ok(items[i]) {
      NormalizeFromJson(items[i]);
    }
    assert NormalizeItems(xs).Ok?;
    assert NormalizeItems(xs).value == items;
  }

  lemma {:induction false} NormalizeFromJsonFields(fs: seq<Field>)
    requires UniqueKeys(fs) && forall i :: 0 <= i < |fs| ==> DeepUnique(fs[i].value)
    ensures Normalize(PDict(FromJsonFields(fs))) == Ok(JObj(fs))
    decreases fs, 1
  {
    NormalizeFromJsonEntries(fs);
    CollectDistinct(fs);
  }

  lemma {:induction false} NormalizeFromJsonEntries(fs: seq<Field>)
    requires forall i :: 0 <= i < |fs| ==> DeepUnique(fs[i].value)
    ensures NormalizeEntries(FromJsonFields(fs)) == Ok(fs)
    decreases fs, 0
  {
    var es := FromJsonFields(fs);
    forall i | 0 <= i < |fs| ensures NormalizeEntry(es[i]) == Ok(fs[i]) {
      NormalizeFromJson(fs[i].value);
    }
    assert NormalizeEntries(es).Ok?;
    assert NormalizeEntries(es).value == fs;
  }

  /** `_normalize` never fails on JSON data: it holds no set. */
  lemma {:induction false} NormalizeJsonOk(j: Json)
    ensures Normalize(FromJson(j)).Ok?
    decreases j
  {
    match j
    case JArr(items) =>
      var xs := FromJsonItems(items);
      forall i | 0 <= i < |items| ensures Normalize(xs[i]).Ok? {
        NormalizeJsonOk(items[i]);
      }
      assert NormalizeItems(xs).Ok?;
    case JObj(fs) =>
      var es := FromJsonFields(fs);
      forall i | 0 <= i < |fs| ensures NormalizeEntry(es[i]).Ok? {
        NormalizeJsonOk(fs[i].value);
      }
      assert NormalizeEntries(es).Ok?;
    case _ =>
  }

  /** Whatever `_normalize` returns has each key once in every object. */
  lemma {:induction false} NormalizeDeepUnique(v: PyValue)
    ensures Normalize(v).Ok? ==> DeepUnique(Normalize(v).value)
    decreases v, 1
  {
    if Normalize(v).Ok? {
      match v
      case PList(items) => ItemsDeepUnique(items);
      case PTuple(items) => ItemsDeepUnique(items);
      case PSet(items) =>
        ItemsDeepUnique(items);
        var js := NormalizeItems(items).value;
        var r := Sorting.Sort(js, SortLe);
        forall p | 0 <= p < |r| ensures DeepUnique(r[p]) {
          assert r[p] in multiset(js);
        }
      case PDict(es) =>
        var ps := NormalizeEntries(es).value;
        var fs := Collect(ps);
        CollectEntries(ps);
        forall p | 0 <= p < |fs| ensures DeepUnique(fs[p].value) {
          var i :| 0 <= i < |ps| && ps[i] == fs[p];
          assert NormalizeEntry(es[i]) == Ok(ps[i]);
          EntryDeepUnique(es[i]);
        }
      case _ =>
    }
  }

  lemma {:induction false} ItemsDeepUnique(items: seq<PyValue>)
    requires NormalizeItems(items).Ok?
    ensures forall i :: 0 <= i < |items| ==> DeepUnique(NormalizeItems(items).value[i])
    decreases items, 0
  {
    forall i | 0 <= i < |items| ensures DeepUnique(NormalizeItems(items).value[i]) {
      NormalizeDeepUnique(items[i]);
    }
  }

  lemma {:induction false} EntryDeepUnique(e: Entry)
    requires NormalizeEntry(e).Ok?
    ensures DeepUnique(NormalizeEntry(e).value.value)
    decreases e, 2
  {
    NormalizeDeepUnique(e.value);
  }

  /** `_normalize(_normalize(x)) == _normalize(x)`. */
  lemma NormalizeIdempotent(v: PyValue)
    requires Normalize(v).Ok?
    ensures Normalize(FromJson(Normalize(v).value)) == Normalize(v)
  {
    NormalizeDeepUnique(v);
    NormalizeFromJson(Normalize(v).value);
  }

  // ---------------------------------------------------------------------
  // hash_spec
  // ---------------------------------------------------------------------

  function ZeroDigest(bs: seq<Utf8.byte>): string
  {
    seq(64, _ => '0')
  }

  /** `hashlib.sha256(data).hexdigest()`: some function into 64 lower-case hex digits. */
  type Digest = f: seq<Utf8.byte> -> string | forall bs :: IsHexDigest(f(bs)) witness ZeroDigest

  /** `json.dumps(_normalize(spec), sort_keys=True, separators=(",", ":")).encode("utf-8")`. */
  function HashPayload(spec: PyValue): Result<seq<Utf8.byte>>
  {
    var n := Normalize(spec);
    if n.Err? then Err(n.error) else Ok(Utf8.Encode(Dumps(n.value, true)))
  }

  /** `hash_spec(spec)`: the full hex digest of the payload, or the TypeError `_normalize` raised. */
  function HashSpec(sha: Digest, spec: PyValue): (r: Result<string>)
    ensures r.Ok? <==> Normalize(spec).Ok?
    ensures r.Ok? ==> IsHexDigest(r.value)
    ensures r.Err? ==> r.error == SortError
  {
    var p := HashPayload(spec);
    if p.Err? then Err(p.error) else Ok(sha(p.value))
  }

  /**
   * The payload is written with `ensure_ascii=True`: printable ASCII only,
   * so its UTF-8 bytes are its characters one for one, and it reads back as
   * the normalised tree with every object's keys in sorted order.
   */
  lemma PayloadShape(spec: PyValue)
    requires Normalize(spec).Ok?
    ensures var j := Normalize(spec).value;
      var t := Dumps(j, true);
      var bs := HashPayload(spec).value;
      |bs| == |t| && (forall i :: 0 <= i < |t| ==> bs[i] as int == t[i] as int && 0x20 <= t[i] as int <= 0x7E)
      && Parse(t) == Some(Canon(j)) && SortedKeys(Canon(j))
  {
    var j := Normalize(spec).value;
    var t := Dumps(j, true);
    WriteAscii(Canon(j));
    Utf8.EncodeAscii(t);
    RoundTrip(Canon(j), true);
    CanonSortsKeys(j);
  }

  /** Two specs give the same payload exactly when their normalised trees agree up to key order. */
  lemma PayloadInjective(a: PyValue, b: PyValue)
    requires Normalize(a).Ok? && Normalize(b).Ok?
    ensures HashPayload(a) == HashPayload(b) <==> Canon(Normalize(a).value) == Canon(Normalize(b).value)
  {
    if HashPayload(a) == HashPayload(b) {
      Utf8.EncodeInjective(Dumps(Normalize(a).value, true), Dumps(Normalize(b).value, true));
      WriteInjective(Canon(Normalize(a).value), Canon(Normalize(b).value), true);
    }
  }

  /** No two entries of the dict have the same `str(key)`. */
  predicate KeysDistinct(es: seq<Entry>)
  {
    forall i, k :: 0 <= i < k < |es| ==> KeyText(es[i].key) != KeyText(es[k].key)
  }

  function EntryOrNull(e: Entry): Field
  {
    var r := NormalizeEntry(e);
    if r.Ok? then r.value else Field("", JNull)
  }

  lemma EntriesErrTransfer(es: seq<Entry>, gs: seq<Entry>)
    requires multiset(es) == multiset(gs)
    requires NormalizeEntries(es).Err?
    ensures NormalizeEntries(gs).Err?
  {
    var i :| 0 <= i < |es| && NormalizeEntry(es[i]).Err?;
    assert es[i] in multiset(gs);
    var k :| 0 <= k < |gs| && gs[k] == es[i];
  }

  /** With distinct key texts, the normalised dict is the pairs in insertion order. */
  lemma DistinctDict(es: seq<Entry>)
    requires KeysDistinct(es) && NormalizeEntries(es).Ok?
    ensures UniqueKeys(NormalizeEntries(es).value)
    ensures Normalize(PDict(es)) == Ok(JObj(NormalizeEntries(es).value))
  {
    var ps := NormalizeEntries(es).value;
    EntryPairs(es);
    CollectDistinct(ps);
  }

  /** The insertion order of the spec dict does not change the payload. */
  lemma PayloadIgnoresInsertionOrder(es: seq<Entry>, gs: seq<Entry>)
    requires multiset(es) == multiset(gs)
    requires KeysDistinct(es) && KeysDistinct(gs)
    ensures HashPayload(PDict(es)) == HashPayload(PDict(gs))
  {
    var n, m := NormalizeEntries(es), NormalizeEntries(gs);
    if n.Err? {
      EntriesErrTransfer(es, gs);
    } else if m.Err? {
      EntriesErrTransfer(gs, es);
    } else {
      assert n.value == Sorting.Map(es, EntryOrNull);
      assert m.value == Sorting.Map(gs, EntryOrNull);
      Sorting.MapPermutation(es, gs, EntryOrNull);
      DistinctDict(es);
      DistinctDict(gs);
      DumpsIgnoresOrder(n.value, m.value, true);
    }
  }

  /** `hash_spec` of the same entries in another insertion order is the same digest. */
  lemma HashIgnoresInsertionOrder(sha: Digest, es: seq<Entry>, gs: seq<Entry>)
    requires multiset(es) == multiset(gs)
    requires KeysDistinct(es) && KeysDistinct(gs)
    ensures HashSpec(sha, PDict(es)) == HashSpec(sha, PDict(gs))
  {
    PayloadIgnoresInsertionOrder(es, gs);
  }

  /**
   * Two spec dicts with the same payload agree, under every key they share,
   * on the normalised value (up to key order): changing a value changes
   * the payload.
   */
  lemma PayloadDeterminesValues(es: seq<Entry>, gs: seq<Entry>, i: nat, k: nat)
    requires Normalize(PDict(es)).Ok? && Normalize(PDict(gs)).Ok?
    requires HashPayload(PDict(es)) == HashPayload(PDict(gs))
    requires i < |es| && forall j :: i < j < |es| ==> KeyText(es[j].key) != KeyText(es[i].key)
    requires k < |gs| && forall j :: k < j < |gs| ==> KeyText(gs[j].key) != KeyText(gs[k].key)
    requires KeyText(es[i].key) == KeyText(gs[k].key)
    ensures Normalize(es[i].value).Ok? && Normalize(gs[k].value).Ok?
    ensures Canon(Normalize(es[i].value).value) == Canon(Normalize(gs[k].value).value)
  {
    NormalizeDictKeys(es);
    NormalizeDictKeys(gs);
    var fs, hs := Normalize(PDict(es)).value.fields, Normalize(PDict(gs)).value.fields;
    var key := KeyText(es[i].key);
    var p, q := Find(fs, key), Find(hs, key);
    NormalizeDictLastWins(es, i, p);
    NormalizeDictLastWins(gs, k, q);
    Utf8.EncodeInjective(Dumps(JObj(fs), true), Dumps(JObj(hs), true));
    DumpsDeterminesValues(fs, hs, true, p, q);
  }

  // ---------------------------------------------------------------------
  // make_run_id and RunSpec
  // ---------------------------------------------------------------------

  /** `_canonical_json(obj)`: sorted keys, compact separators, `ensure_ascii=False`, UTF-8. */
  function CanonicalJson(j: Json): seq<Utf8.byte>
  {
    Utf8.Encode(Dumps(j, false))
  }

  /** Two values have the same canonical bytes exactly when they agree up to key order. */
  lemma CanonicalJsonInjective(a: Json, b: Json)
    ensures CanonicalJson(a) == CanonicalJson(b) <==> Canon(a) == Canon(b)
  {
    if CanonicalJson(a) == CanonicalJson(b) {
      Utf8.EncodeInjective(Dumps(a, false), Dumps(b, false));
      WriteInjective(Canon(a), Canon(b), false);
    }
  }

  /** `make_run_id(spec)`: the first 12 hex digits of the digest of the canonical bytes. */
  function MakeRunId(sha: Digest, spec: Json): (r: string)
    ensures |r| == 12 && forall i :: 0 <= i < 12 ==> IsLowerHex(r[i])
    ensures r == sha(CanonicalJson(spec))[..12]
  {
    sha(CanonicalJson(spec))[..12]
  }

  /** The insertion order of the spec dict does not change the run id. */
  lemma RunIdIgnoresInsertionOrder(sha: Digest, fs: seq<Field>, gs: seq<Field>)
    requires multiset(fs) == multiset(gs) && UniqueKeys(fs)
    ensures MakeRunId(sha, JObj(fs)) == MakeRunId(sha, JObj(gs))
  {
    DumpsIgnoresOrder(fs, gs, false);
  }

  /** `RunSpec`: a frozen record. */
  datatype RunSpec = RunSpec(name: string, params: seq<Field>, seed: int, gitCommit: Option<string>, gitDirty: bool)

  function CommitJson(c: Option<string>): Json
  {
    match c
    case None => JNull
    case Some(t) => JStr(t)
  }

  /** `RunSpec.to_dict()`: name, params, seed and a nested git record, in that order. */
  function ToDict(r: RunSpec): (d: Json)
    ensures d.JObj? && UniqueKeys(d.fields)
    ensures |d.fields| == 4 && d.fields[0].key == "name" && d.fields[1].key == "params"
      && d.fields[2].key == "seed" && d.fields[3].key == "git"
  {
    JObj([
      Field("name", JStr(r.name)),
      Field("params", JObj(r.params)),
      Field("seed", JInt(r.seed)),
      Field("git", JObj([Field("commit", CommitJson(r.gitCommit)), Field("dirty", JBool(r.gitDirty))]))
    ])
  }

  lemma GitDetermined(a: RunSpec, b: RunSpec)
    requires Canon(ToDict(a).fields[3].value) == Canon(ToDict(b).fields[3].value)
    ensures a.gitCommit == b.gitCommit && a.gitDirty == b.gitDirty
  {
    var ga, gb := ToDict(a).fields[3].value.fields, ToDict(b).fields[3].value.fields;
    assert UniqueKeys(ga);
    CanonDeterminesValues(ga, gb, 0, 0);
    CanonDeterminesValues(ga, gb, 1, 1);
    assert CommitJson(a.gitCommit) == CommitJson(b.gitCommit);
  }

  lemma SameCanonRunSpec(a: RunSpec, b: RunSpec)
    requires Canon(ToDict(a)) == Canon(ToDict(b))
    ensures a.name == b.name && a.seed == b.seed && a.gitCommit == b.gitCommit && a.gitDirty == b.gitDirty
      && Canon(JObj(a.params)) == Canon(JObj(b.params))
  {
    var fa, fb := ToDict(a).fields, ToDict(b).fields;
    CanonDeterminesValues(fa, fb, 0, 0);
    CanonDeterminesValues(fa, fb, 1, 1);
    CanonDeterminesValues(fa, fb, 2, 2);
    CanonDeterminesValues(fa, fb, 3, 3);
    GitDetermined(a, b);
  }

  lemma RunSpecSameCanon(a: RunSpec, b: RunSpec)
    requires a.name == b.name && a.seed == b.seed && a.gitCommit == b.gitCommit && a.gitDirty == b.gitDirty
    requires Canon(JObj(a.params)) == Canon(JObj(b.params))
    ensures Canon(ToDict(a)) == Canon(ToDict(b))
  {
    var fa, fb := ToDict(a).fields, ToDict(b).fields;
    assert CanonFields(fa) == CanonFields(fb);
  }

  /**
   * Two run specs have the same canonical bytes exactly when they agree on
   * name, seed and git state and their params agree up to key order.
   */
  lemma RunSpecIdentity(a: RunSpec, b: RunSpec)
    ensures CanonicalJson(ToDict(a)) == CanonicalJson(ToDict(b)) <==>
      a.name == b.name && a.seed == b.seed && a.gitCommit == b.gitCommit && a.gitDirty == b.gitDirty
      && Canon(JObj(a.params)) == Canon(JObj(b.params))
  {
    CanonicalJsonInjective(ToDict(a), ToDict(b));
    if Canon(ToDict(a)) == Canon(ToDict(b)) {
      SameCanonRunSpec(a, b);
    }
    if a.name == b.name && a.seed == b.seed && a.gitCommit == b.gitCommit && a.gitDirty == b.gitDirty
      && Canon(JObj(a.params)) == Canon(JObj(b.params))
    {
      RunSpecSameCanon(a, b);
    }
  }
}
