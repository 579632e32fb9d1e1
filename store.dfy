/**
 * `simcache/store.py`: the run store. A store root holds `runs/<run_id>/`
 * directories, each with a `metadata.json` document and an arrays file
 * written by one of three codecs, and a `manifest.json` index mapping run
 * ids to their timestamp and tags.
 *
 * The file system is the `Disk` value: the set of run directories, the
 * metadata document of each run, the arrays files of each run (a codec
 * reads back exactly what it wrote) and the manifest, if one was written.
 * JSON documents are kept as they read back: `json.dump(..., sort_keys=True)`
 * followed by `json.load` yields objects whose keys are sorted at every
 * level, which is `Canon`.
 */
module Store {
  import opened Wrappers
  import opened Strings
  import opened Json
  import Sorting
  import Sweep
  import Canonical

  // ---------------------------------------------------------------------
  // Run ids: build_spec and compute_run_id
  // ---------------------------------------------------------------------

  /** `build_spec`: the dict the run id is the hash of. */
  function BuildSpec(params: Canonical.PyValue, seed: Canonical.PyValue, codeVersion: Option<string>,
                     env: Canonical.PyValue): (spec: Canonical.PyValue)
    ensures spec.PDict? && |spec.entries| == 4
    ensures spec.entries[2] == Canonical.Entry(Canonical.KStr("params"), params)
    ensures spec.entries[3] == Canonical.Entry(Canonical.KStr("seed"), seed)
  {
    var cv := match codeVersion case Some(c) => Canonical.PStr(c) case None => Canonical.PNone;
    Canonical.PDict([
      Canonical.Entry(Canonical.KStr("code_version"), cv),
      Canonical.Entry(Canonical.KStr("env"), env),
      Canonical.Entry(Canonical.KStr("params"), params),
      Canonical.Entry(Canonical.KStr("seed"), seed)])
  }

  /** `compute_run_id` with the environment supplied: `hash_spec(build_spec(...))`. */
  function ComputeRunId(sha: Canonical.Digest, params: Canonical.PyValue, seed: Canonical.PyValue,
                        codeVersion: Option<string>, env: Canonical.PyValue): (r: Result<string>)
    ensures r == Canonical.HashSpec(sha, BuildSpec(params, seed, codeVersion, env))
    ensures r.Ok? ==> IsHexDigest(r.value)
  {
    Canonical.HashSpec(sha, BuildSpec(params, seed, codeVersion, env))
  }

  /** Parameters, seed and environment read from JSON or YAML always hash: they hold no set. */
  lemma ComputeRunIdJson(sha: Canonical.Digest, params: Json, seed: Json, codeVersion: Option<string>, env: Json)
    ensures ComputeRunId(sha, Canonical.FromJson(params), Canonical.FromJson(seed), codeVersion,
                         Canonical.FromJson(env)).Ok?
  {
    BuildSpecJsonOk(Canonical.FromJson(params), Canonical.FromJson(seed), codeVersion, Canonical.FromJson(env),
                    params, seed, env);
  }

  lemma BuildSpecJsonOk(p: Canonical.PyValue, s: Canonical.PyValue, codeVersion: Option<string>, e: Canonical.PyValue,
                        params: Json, seed: Json, env: Json)
    requires p == Canonical.FromJson(params) && s == Canonical.FromJson(seed) && e == Canonical.FromJson(env)
    ensures Canonical.Normalize(BuildSpec(p, s, codeVersion, e)).Ok?
  {
    var es := BuildSpec(p, s, codeVersion, e).entries;
    forall i | 0 <= i < |es| ensures Canonical.Normalize(es[i].value).Ok? {
      if i == 0 {
        assert es[0].value == if codeVersion.Some? then Canonical.PStr(codeVersion.value) else Canonical.PNone;
      } else if i == 1 {
        Canonical.NormalizeJsonOk(env);
      } else if i == 2 {
        Canonical.NormalizeJsonOk(params);
      } else {
        Canonical.NormalizeJsonOk(seed);
      }
    }
    Canonical.NormalizeDictKeys(es);
  }

  /**
   * Two specs that hash the same payload have the same parameters and the
   * same seed, up to the key order of their dicts: changing either changes
   * the hash input.
   */
  lemma ComputeRunIdDistinguishes(p1: Canonical.PyValue, s1: Canonical.PyValue, c1: Option<string>, e1: Canonical.PyValue,
                                  p2: Canonical.PyValue, s2: Canonical.PyValue, c2: Option<string>, e2: Canonical.PyValue)
    requires Canonical.Normalize(BuildSpec(p1, s1, c1, e1)).Ok? && Canonical.Normalize(BuildSpec(p2, s2, c2, e2)).Ok?
    requires Canonical.HashPayload(BuildSpec(p1, s1, c1, e1)) == Canonical.HashPayload(BuildSpec(p2, s2, c2, e2))
    ensures Canonical.Normalize(p1).Ok? && Canonical.Normalize(p2).Ok?
    ensures Canon(Canonical.Normalize(p1).value) == Canon(Canonical.Normalize(p2).value)
    ensures Canonical.Normalize(s1).Ok? && Canonical.Normalize(s2).Ok?
    ensures Canon(Canonical.Normalize(s1).value) == Canon(Canonical.Normalize(s2).value)
  {
    var es, gs := BuildSpec(p1, s1, c1, e1).entries, BuildSpec(p2, s2, c2, e2).entries;
    Canonical.PayloadDeterminesValues(es, gs, 2, 2);
    Canonical.PayloadDeterminesValues(es, gs, 3, 3);
  }

  // ---------------------------------------------------------------------
  // build_metadata
  // ---------------------------------------------------------------------

  /** A JSON document as a dict: each key once. */
  type Meta = map<string, Json>

  /** `d.get(key, default)`. */
  function MetaGet(md: Meta, key: string, default: Json): (r: Json)
    ensures key in md ==> r == md[key]
    ensures key !in md ==> r == default
  {
    if key in md then md[key] else default
  }

  /** A set element: lists and dicts are unhashable. */
  predicate Hashable(j: Json)
  {
    !j.JArr? && !j.JObj?
  }

  /** Python's `==` on hashable JSON values: numbers by value, str by content, None with None. */
  predicate SameElement(a: Json, b: Json)
  {
    Canonical.SortLe(a, b) && Canonical.SortLe(b, a)
  }

  /** `x` equals some element of `d`. */
  predicate HasSame(d: seq<Json>, x: Json)
  {
    exists i :: 0 <= i < |d| && SameElement(x, d[i])
  }

  /** The elements `set(xs)` keeps: the first of each group of equal ones, in input order. */
  function Dedupe(xs: seq<Json>): (r: seq<Json>)
    decreases |xs|
  {
    if |xs| == 0 then []
    else
      var d := Dedupe(xs[..|xs| - 1]);
      var x := xs[|xs| - 1];
      if HasSame(d, x) then d else d + [x]
  }

  /** The first list or dict among `xs`, which `set(xs)` cannot hash. */
  function FirstUnhashable(xs: seq<Json>): (r: Option<Json>)
    ensures r.None? <==> forall i :: 0 <= i < |xs| ==> Hashable(xs[i])
  {
    if |xs| == 0 then None
    else if !Hashable(xs[0]) then Some(xs[0])
    else
      assert forall i :: 1 <= i < |xs| ==> xs[i] == xs[1..][i - 1];
      FirstUnhashable(xs[1..])
  }

  /** `sorted(set(xs))`: TypeError for an unhashable element, or for elements `<` cannot compare. */
  function SortedUnique(xs: seq<Json>): Result<seq<Json>>
  {
    var bad := FirstUnhashable(xs);
    if bad.Some? then
      Err(TypeError("unhashable type: '" + Sweep.TypeName(bad.value) + "'"))
    else
      var u := Dedupe(xs);
      if Canonical.Homogeneous(u) then Ok(Sorting.Sort(u, Canonical.SortLe)) else Err(Canonical.SortError)
  }

  /** What `set(xs)` keeps comes from `xs`, covers every element of `xs`, and holds no two equal elements. */
  lemma {:induction false} DedupeSet(xs: seq<Json>)
    ensures forall y :: y in Dedupe(xs) ==> y in xs
    ensures forall i :: 0 <= i < |xs| ==> HasSame(Dedupe(xs), xs[i])
    ensures forall i, j :: 0 <= i < j < |Dedupe(xs)| ==> !SameElement(Dedupe(xs)[i], Dedupe(xs)[j])
    decreases |xs|
  {
    if |xs| > 0 {
      var init := xs[..|xs| - 1];
      var d := Dedupe(init);
      var x := xs[|xs| - 1];
      DedupeSet(init);
      assert forall i :: 0 <= i < |init| ==> init[i] == xs[i];
      var r := Dedupe(xs);
      if HasSame(d, x) {
        assert r == d;
      } else {
        assert r == d + [x];
        forall i | 0 <= i < |xs| ensures HasSame(r, xs[i]) {
          if i < |init| {
            var k :| 0 <= k < |d| && SameElement(init[i], d[k]);
            assert r[k] == d[k];
          } else {
            assert r[|d|] == x;
            Canonical.SortLeTotalPreorder();
            assert SameElement(x, x);
          }
        }
      }
    }
  }

  /**
   * `sorted(set(xs))` is sorted, holds no two equal elements, takes its
   * elements from `xs` and has an equal one for every element of `xs`.
   */
  lemma SortedUniqueSpec(xs: seq<Json>)
    requires SortedUnique(xs).Ok?
    ensures var r := SortedUnique(xs).value;
      && Sorting.SortedBy(r, Canonical.SortLe)
      && (forall i, j :: 0 <= i < j < |r| ==> !SameElement(r[i], r[j]))
      && (forall y :: y in r ==> y in xs)
      && (forall i :: 0 <= i < |xs| ==> HasSame(r, xs[i]))
  {
    var u := Dedupe(xs);
    DedupeSet(xs);
    Canonical.SortLeTotalPreorder();
    Sorting.SortSorted(u, Canonical.SortLe);
    SortKeepsUnequal(u);
    SortKeepsElements(u, xs);
  }

  /** Sorting elements no two of which are equal keeps them so. */
  lemma SortKeepsUnequal(u: seq<Json>)
    requires forall i, j :: 0 <= i < j < |u| ==> !SameElement(u[i], u[j])
    ensures var r := Sorting.Sort(u, Canonical.SortLe);
      forall i, j :: 0 <= i < j < |r| ==> !SameElement(r[i], r[j])
  {
    var r := Sorting.Sort(u, Canonical.SortLe);
    assert Sorting.Distinct(u) by {
      Canonical.SortLeTotalPreorder();
      forall i, j | 0 <= i < j < |u| ensures u[i] != u[j] {
        assert SameElement(u[i], u[i]);
      }
    }
    Sorting.SortDistinct(u, Canonical.SortLe);
    forall i, j | 0 <= i < j < |r| ensures !SameElement(r[i], r[j]) {
      assert r[i] in multiset(u) && r[j] in multiset(u);
      var p :| 0 <= p < |u| && u[p] == r[i];
      var q :| 0 <= q < |u| && u[q] == r[j];
    }
  }

  /** Sorting the de-duplicated elements keeps where they come from and whom they stand for. */
  lemma SortKeepsElements(u: seq<Json>, xs: seq<Json>)
    requires forall y :: y in u ==> y in xs
    requires forall i :: 0 <= i < |xs| ==> HasSame(u, xs[i])
    ensures var r := Sorting.Sort(u, Canonical.SortLe);
      (forall y :: y in r ==> y in xs) && (forall i :: 0 <= i < |xs| ==> HasSame(r, xs[i]))
  {
    var r := Sorting.Sort(u, Canonical.SortLe);
    forall y | y in r ensures y in xs {
      assert y in multiset(r);
    }
    forall i | 0 <= i < |xs| ensures HasSame(r, xs[i]) {
      var k :| 0 <= k < |u| && SameElement(xs[i], u[k]);
      assert u[k] in multiset(r);
      var p :| 0 <= p < |r| && r[p] == u[k];
    }
  }

  /** The tag list `build_metadata` stores: a str is one tag; None and other false values are none. */
  function StoredTags(tags: Json): (r: Result<seq<Json>>)
  {
    var t := if tags.JStr? then JArr([tags]) else tags;
    if !Sweep.Truthy(t) then Ok([])
    else
      var items := Sweep.AsList(t);
      if items.Err? then Err(items.error) else SortedUnique(items.value)
  }

  /** The dict `build_metadata` starts from. */
  function BaseMetadata(params: Json, seed: Json, codeVersion: Option<string>, env: Json,
                        stored: seq<Json>, timestamp: string): Meta
  {
    var cv := match codeVersion case Some(c) => JStr(c) case None => JNull;
    map["params" := params, "seed" := seed, "code_version" := cv, "env" := env,
        "timestamp" := JStr(timestamp), "tags" := JArr(stored)]
  }

  /**
   * `build_metadata`: parameters, seed, code version, environment, the
   * creation timestamp and the sorted unique tags; `plot_config` when it is
   * not None; then every key of a non-empty `extra`, which wins.
   */
  function BuildMetadata(params: Json, seed: Json, codeVersion: Option<string>, env: Json,
                         tags: Json, plotConfig: Json, extra: Meta, timestamp: string): (r: Result<Meta>)
    ensures r.Ok? <==> StoredTags(tags).Ok?
    ensures r.Ok? ==> forall k :: k in extra ==> k in r.value && r.value[k] == extra[k]
  {
    var stored := StoredTags(tags);
    if stored.Err? then Err(stored.error)
    else
      var base := BaseMetadata(params, seed, codeVersion, env, stored.value, timestamp);
      var withPlot := if plotConfig.JNull? then base else base["plot_config" := plotConfig];
      Ok(if |extra| > 0 then withPlot + extra else withPlot)
  }

  /** The keys `build_metadata` sets itself keep their values unless `extra` has them. */
  lemma BuildMetadataBase(params: Json, seed: Json, codeVersion: Option<string>, env: Json,
                          tags: Json, plotConfig: Json, extra: Meta, timestamp: string)
    requires BuildMetadata(params, seed, codeVersion, env, tags, plotConfig, extra, timestamp).Ok?
    ensures var md := BuildMetadata(params, seed, codeVersion, env, tags, plotConfig, extra, timestamp).value;
      && ("params" !in extra ==> "params" in md && md["params"] == params)
      && ("seed" !in extra ==> "seed" in md && md["seed"] == seed)
      && ("code_version" !in extra ==> "code_version" in md && md["code_version"] == (if codeVersion.Some? then JStr(codeVersion.value) else JNull))
      && ("env" !in extra ==> "env" in md && md["env"] == env)
      && ("timestamp" !in extra ==> "timestamp" in md && md["timestamp"] == JStr(timestamp))
      && ("tags" !in extra ==> "tags" in md && md["tags"] == JArr(StoredTags(tags).value))
  {
    var base := BaseMetadata(params, seed, codeVersion, env, StoredTags(tags).value, timestamp);
    var withPlot := if plotConfig.JNull? then base else base["plot_config" := plotConfig];
    var md := BuildMetadata(params, seed, codeVersion, env, tags, plotConfig, extra, timestamp).value;
    assert md == if |extra| > 0 then withPlot + extra else withPlot;
  }

  /** `plot_config` is stored exactly when it is not None, unless `extra` sets it. */
  lemma BuildMetadataPlotConfig(params: Json, seed: Json, codeVersion: Option<string>, env: Json,
                                tags: Json, plotConfig: Json, extra: Meta, timestamp: string)
    requires BuildMetadata(params, seed, codeVersion, env, tags, plotConfig, extra, timestamp).Ok?
    requires "plot_config" !in extra
    ensures var md := BuildMetadata(params, seed, codeVersion, env, tags, plotConfig, extra, timestamp).value;
      && ("plot_config" in md <==> !plotConfig.JNull?)
      && (!plotConfig.JNull? ==> "plot_config" in md && md["plot_config"] == plotConfig)
  {
    var base := BaseMetadata(params, seed, codeVersion, env, StoredTags(tags).value, timestamp);
    var withPlot := if plotConfig.JNull? then base else base["plot_config" := plotConfig];
    var md := BuildMetadata(params, seed, codeVersion, env, tags, plotConfig, extra, timestamp).value;
    assert md == if |extra| > 0 then withPlot + extra else withPlot;
    assert "plot_config" !in base;
  }

  /** The stored keys are those of `extra`, the six `build_metadata` sets, and `plot_config` when given. */
  lemma BuildMetadataKeys(params: Json, seed: Json, codeVersion: Option<string>, env: Json,
                          tags: Json, plotConfig: Json, extra: Meta, timestamp: string)
    requires BuildMetadata(params, seed, codeVersion, env, tags, plotConfig, extra, timestamp).Ok?
    ensures var md := BuildMetadata(params, seed, codeVersion, env, tags, plotConfig, extra, timestamp).value;
      forall k :: k in md <==>
        || k in extra || k == "params" || k == "seed" || k == "code_version" || k == "env"
        || k == "timestamp" || k == "tags" || (k == "plot_config" && !plotConfig.JNull?)
  {
    var base := BaseMetadata(params, seed, codeVersion, env, StoredTags(tags).value, timestamp);
    var withPlot := if plotConfig.JNull? then base else base["plot_config" := plotConfig];
    var md := BuildMetadata(params, seed, codeVersion, env, tags, plotConfig, extra, timestamp).value;
    assert md == if |extra| > 0 then withPlot + extra else withPlot;
    forall k ensures k in withPlot <==>
        || k == "params" || k == "seed" || k == "code_version" || k == "env"
        || k == "timestamp" || k == "tags" || (k == "plot_config" && !plotConfig.JNull?)
    {
    }
  }

  /** A single str tag is stored as the one-element tag list. */
  lemma StoredTagsString(t: string)
    ensures StoredTags(JStr(t)) == Ok([JStr(t)])
  {
    var xs := [JStr(t)];
    assert Sweep.AsList(JArr(xs)) == Ok(xs);
    assert Dedupe(xs) == xs by {
      assert xs[..0] == [];
    }
    assert Sorting.Sort(xs, Canonical.SortLe) == xs by {
      assert xs[1..] == [];
    }
  }

  /**
   * The stored tags are sorted and de-duplicated: every given tag has an
   * equal stored one, every stored one was given, and no two are equal.
   */
  lemma StoredTagsSortedUnique(tags: Json)
    requires StoredTags(tags).Ok? && Sweep.Truthy(tags) && !tags.JStr?
    ensures var r, xs := StoredTags(tags).value, Sweep.AsList(tags).value;
      && Sorting.SortedBy(r, Canonical.SortLe)
      && (forall i, j :: 0 <= i < j < |r| ==> !SameElement(r[i], r[j]))
      && (forall y :: y in r ==> y in xs)
      && (forall i :: 0 <= i < |xs| ==> HasSame(r, xs[i]))
  {
    SortedUniqueSpec(Sweep.AsList(tags).value);
  }

  // ---------------------------------------------------------------------
  // Arrays files: the format dispatch of _save_arrays and _load_arrays
  // ---------------------------------------------------------------------

  /** Which optional codec packages can be imported. */
  datatype Capabilities = Capabilities(zarr: bool, h5py: bool)

  /** Named arrays, each flattened to its elements. */
  type Arrays = map<string, seq<int>>

  /** An arrays file under a run directory: the format whose codec wrote it, and what it holds. */
  datatype ArraysFile = ArraysFile(format: Json, arrays: Arrays)

  /**
   * The file name `_save_arrays` writes for a format, or the exception it
   * raises before writing anything; `_load_arrays` dispatches the same way.
   * A format is compared with `==`, so only the three str names match.
   */
  function ArraysFileName(caps: Capabilities, format: Json): (r: Result<string>)
    ensures r.Ok? <==> format == JStr("npz") || (format == JStr("zarr") && caps.zarr) || (format == JStr("hdf5") && caps.h5py)
    ensures r.Err? ==> (r.error.ValueError? <==> format != JStr("npz") && format != JStr("zarr") && format != JStr("hdf5"))
  {
    if format == JStr("npz") then Ok("arrays.npz")
    else if format == JStr("zarr") then
      if caps.zarr then Ok("arrays.zarr") else Err(RuntimeError("zarr support requires installing the zarr package"))
    else if format == JStr("hdf5") then
      if caps.h5py then Ok("arrays.h5") else Err(RuntimeError("hdf5 support requires installing h5py"))
    else Err(ValueError("Unsupported arrays format: " + PyStr(format)))
  }

  /** Different formats never share an arrays file name. */
  lemma ArraysFileNameInjective(caps: Capabilities, f1: Json, f2: Json)
    requires ArraysFileName(caps, f1).Ok? && ArraysFileName(caps, f2).Ok?
    requires ArraysFileName(caps, f1).value == ArraysFileName(caps, f2).value
    ensures f1 == f2
  {
    var n1, n2 := ArraysFileName(caps, f1).value, ArraysFileName(caps, f2).value;
    assert n1[7..] == n2[7..];
    if f1 == JStr("npz") {
      assert n1[7..] == "npz";
    } else if f1 == JStr("zarr") {
      assert n1[7..] == "zarr";
    } else {
      assert n1[7..] == "h5";
    }
  }

  /** `str(x)` of a JSON scalar, as an f-string shows it. */
  function PyStr(j: Json): string
  {
    match j
    case JNull => "None"
    case JBool(b) => if b then "True" else "False"
    case JInt(i) => IntToString(i)
    case JStr(t) => t
    case _ => "<" + Sweep.TypeName(j) + ">"
  }

  /**
   * `_load_arrays(fmt, path)` on the file found at `path`, if any: the same
   * dispatch as `_save_arrays`, then the codec reads the file.
   */
  function LoadArrays(caps: Capabilities, format: Json, file: Option<ArraysFile>, path: string): (r: Result<Arrays>)
    ensures r.Ok? <==> ArraysFileName(caps, format).Ok? && file.Some? && file.value.format == format
    ensures r.Ok? ==> r.value == file.value.arrays
  {
    var name := ArraysFileName(caps, format);
    if name.Err? then Err(name.error)
    else if file.None? then Err(FileNotFound(path))
    else if file.value.format != format then Err(ValueError(path + " was not written by the " + PyStr(format) + " codec"))
    else Ok(file.value.arrays)
  }

  // ---------------------------------------------------------------------
  // The store on disk
  // ---------------------------------------------------------------------

  /** One value of the manifest's `runs` dict. */
  datatype ManifestEntry = ManifestEntry(timestamp: Json, tags: Json)

  /** The manifest's `runs` dict. */
  type Manifest = map<string, ManifestEntry>

  /**
   * Everything under the store root: the run directories under `runs/`,
   * each run's `metadata.json` as it reads back, the arrays files in each
   * run directory by name, and `manifest.json` if it has been written.
   */
  datatype Disk = Disk(
    runs: set<string>,
    metadata: map<string, Meta>,
    files: map<string, map<string, ArraysFile>>,
    manifest: Option<Manifest>)

  /** A dict written with `json.dump(..., sort_keys=True)` as `json.load` gives it back. */
  function Written(md: Meta): (r: Meta)
    ensures r.Keys == md.Keys
    ensures forall k :: k in r ==> r[k] == Canon(md[k])
  {
    map k | k in md :: Canon(md[k])
  }

  /** `runs/<run_id>`, relative to the store root. */
  function RunDir(runId: string): string
  {
    "runs/" + runId
  }

  /** The arrays file `name` of a run, if it is there. */
  function FileAt(d: Disk, runId: string, name: string): Option<ArraysFile>
  {
    if runId in d.files && name in d.files[runId] then Some(d.files[runId][name]) else None
  }

  /** `_load_manifest()["runs"]`: a missing manifest reads as no runs. */
  function ManifestOf(d: Disk): (m: Manifest)
    ensures d.manifest.None? ==> m == map[]
    ensures d.manifest.Some? ==> m == d.manifest.value
  {
    if d.manifest.Some? then d.manifest.value else map[]
  }

  /** The manifest entry `_update_manifest` writes for a run's metadata: its timestamp, and its tags or `[]`. */
  function ManifestEntryOf(md: Meta): ManifestEntry
  {
    var tags := MetaGet(md, "tags", JNull);
    ManifestEntry(Canon(MetaGet(md, "timestamp", JNull)), Canon(if Sweep.Truthy(tags) then tags else JArr([])))
  }

  /** `_update_manifest(run_id, metadata)`: read the manifest, set one entry, write it back. */
  function UpdateManifestSpec(d: Disk, runId: string, md: Meta): (d': Disk)
  {
    d.(manifest := Some(ManifestOf(d)[runId := ManifestEntryOf(md)]))
  }

  /** Updating the manifest sets `run_id`'s entry, keeps every other entry and touches nothing else. */
  lemma UpdateManifestFrame(d: Disk, runId: string, md: Meta)
    ensures var d' := UpdateManifestSpec(d, runId, md);
      && d'.runs == d.runs && d'.metadata == d.metadata && d'.files == d.files
      && ManifestOf(d').Keys == ManifestOf(d).Keys + {runId}
      && ManifestOf(d')[runId] == ManifestEntryOf(md)
      && (forall k :: k in ManifestOf(d) && k != runId ==> ManifestOf(d')[k] == ManifestOf(d)[k])
  {
  }

  /** The metadata `save` writes: the caller's, with the run id, the format and the arrays file name set. */
  function Enrich(md: Meta, runId: string, format: Json, name: string): (r: Meta)
  {
    md["run_id" := JStr(runId)]["arrays_format" := format]["arrays_path" := JStr(name)]
  }

  /** `run_exists`: the run directory is there. */
  predicate RunExistsSpec(d: Disk, runId: string)
  {
    runId in d.runs
  }

  /**
   * `save(run_id, arrays, metadata, arrays_format)`: create the run
   * directory, write the arrays file, write the enriched metadata, update the
   * manifest. A format that cannot be written fails after the directory is
   * created and before anything else is written.
   */
  function SaveSpec(d: Disk, caps: Capabilities, runId: string, arrays: Arrays, md: Meta, format: Json): (Disk, Result<string>)
  {
    var d1 := d.(runs := d.runs + {runId});
    var name := ArraysFileName(caps, format);
    if name.Err? then (d1, Err(name.error))
    else
      var dir := if runId in d.files then d.files[runId] else map[];
      var d2 := d1.(files := d.files[runId := dir[name.value := ArraysFile(format, arrays)]]);
      var full := Enrich(md, runId, format, name.value);
      var d3 := d2.(metadata := d.metadata[runId := Written(full)]);
      (UpdateManifestSpec(d3, runId, full), Ok(RunDir(runId)))
  }

  /** The result of `load`: the arrays and the metadata. */
  datatype Loaded = Loaded(arrays: Arrays, metadata: Meta)

  /** `info(run_id)`: the run's metadata, or FileNotFoundError. */
  function InfoSpec(d: Disk, runId: string): (r: Result<Meta>)
    ensures r.Ok? <==> runId in d.metadata
    ensures r.Ok? ==> r.value == d.metadata[runId]
  {
    if runId in d.metadata then Ok(d.metadata[runId]) else Err(FileNotFound(RunDir(runId) + "/metadata.json"))
  }

  /**
   * `load(run_id)`: read the metadata, join `arrays_path` to the run
   * directory, and read the arrays with the codec `arrays_format` names.
   */
  function LoadSpec(d: Disk, caps: Capabilities, runId: string): (r: Result<Loaded>)
    ensures r.Ok? ==> runId in d.metadata && r.value.metadata == d.metadata[runId]
  {
    var info := InfoSpec(d, runId);
    if info.Err? then Err(info.error)
    else
      var md := info.value;
      if "arrays_path" !in md then Err(KeyError("arrays_path"))
      else if !md["arrays_path"].JStr? then
        Err(TypeError("unsupported operand type(s) for /: 'PosixPath' and '" + Sweep.TypeName(md["arrays_path"]) + "'"))
      else if "arrays_format" !in md then Err(KeyError("arrays_format"))
      else
        var name := md["arrays_path"].s;
        var arrays := LoadArrays(caps, md["arrays_format"], FileAt(d, runId, name), RunDir(runId) + "/" + name);
        if arrays.Err? then Err(arrays.error) else Ok(Loaded(arrays.value, md))
  }

  /** After `save`, whatever its outcome, the run directory exists. */
  lemma SaveThenExists(d: Disk, caps: Capabilities, runId: string, arrays: Arrays, md: Meta, format: Json)
    ensures RunExistsSpec(SaveSpec(d, caps, runId, arrays, md, format).0, runId)
  {
  }

  /**
   * A format that cannot be written raises its exception after the run
   * directory is created, and leaves the metadata, the arrays files and the
   * manifest as they were.
   */
  lemma SaveFailure(d: Disk, caps: Capabilities, runId: string, arrays: Arrays, md: Meta, format: Json)
    requires ArraysFileName(caps, format).Err?
    ensures var (d', r) := SaveSpec(d, caps, runId, arrays, md, format);
      && r == Err(ArraysFileName(caps, format).error)
      && d'.runs == d.runs + {runId}
      && d'.metadata == d.metadata && d'.files == d.files && d'.manifest == d.manifest
  {
  }

  /**
   * A successful `save` stores the caller's metadata with `run_id`,
   * `arrays_format` and the arrays file's name (not its full path) set, and
   * indexes the run in the manifest under that metadata's timestamp and tags.
   */
  lemma SaveEnrich(d: Disk, caps: Capabilities, runId: string, arrays: Arrays, md: Meta, format: Json)
    requires SaveSpec(d, caps, runId, arrays, md, format).1.Ok?
    ensures var d' := SaveSpec(d, caps, runId, arrays, md, format).0;
      var name := ArraysFileName(caps, format).value;
      && runId in d'.metadata
      && d'.metadata[runId].Keys == md.Keys + {"run_id", "arrays_format", "arrays_path"}
      && d'.metadata[runId]["run_id"] == JStr(runId)
      && d'.metadata[runId]["arrays_format"] == format
      && d'.metadata[runId]["arrays_path"] == JStr(name)
      && (forall k :: k in md && k != "run_id" && k != "arrays_format" && k != "arrays_path" ==>
            d'.metadata[runId][k] == Canon(md[k]))
      && ManifestOf(d')[runId] == ManifestEntryOf(Enrich(md, runId, format, name))
  {
    var name := ArraysFileName(caps, format).value;
    var full := Enrich(md, runId, format, name);
    assert full.Keys == md.Keys + {"run_id", "arrays_format", "arrays_path"};
  }

  /** `load` after a successful `save` gives back the arrays and the metadata as written. */
  lemma SaveThenLoad(d: Disk, caps: Capabilities, runId: string, arrays: Arrays, md: Meta, format: Json)
    requires SaveSpec(d, caps, runId, arrays, md, format).1.Ok?
    ensures var d' := SaveSpec(d, caps, runId, arrays, md, format).0;
      LoadSpec(d', caps, runId) == Ok(Loaded(arrays, Written(Enrich(md, runId, format, ArraysFileName(caps, format).value))))
  {
    var d' := SaveSpec(d, caps, runId, arrays, md, format).0;
    var name := ArraysFileName(caps, format).value;
    var written := Written(Enrich(md, runId, format, name));
    assert d'.metadata[runId] == written;
    assert written["arrays_path"] == JStr(name);
    assert written["arrays_format"] == format;
    assert FileAt(d', runId, name) == Some(ArraysFile(format, arrays));
  }

  /** `save` touches no other run: its directory, metadata, files and manifest entry stay as they were. */
  lemma SaveFrame(d: Disk, caps: Capabilities, runId: string, arrays: Arrays, md: Meta, format: Json, other: string)
    requires other != runId
    ensures var d' := SaveSpec(d, caps, runId, arrays, md, format).0;
      && (other in d'.runs <==> other in d.runs)
      && (other in d'.metadata <==> other in d.metadata)
      && (other in d.metadata ==> d'.metadata[other] == d.metadata[other])
      && (other in d'.files <==> other in d.files)
      && (other in d.files ==> d'.files[other] == d.files[other])
      && (other in ManifestOf(d') <==> other in ManifestOf(d))
      && (other in ManifestOf(d) ==> ManifestOf(d')[other] == ManifestOf(d)[other])
  {
  }

  /** Saving the same run twice leaves the store as saving it once. */
  lemma SaveIdempotent(d: Disk, caps: Capabilities, runId: string, arrays: Arrays, md: Meta, format: Json)
    ensures var (d1, r1) := SaveSpec(d, caps, runId, arrays, md, format);
      SaveSpec(d1, caps, runId, arrays, md, format) == (d1, r1)
  {
    var (d1, r1) := SaveSpec(d, caps, runId, arrays, md, format);
    var name := ArraysFileName(caps, format);
    if name.Ok? {
      var f := ArraysFile(format, arrays);
      var full := Enrich(md, runId, format, name.value);
      var dir1 := d1.files[runId];
      var m1 := ManifestOf(d1);
      var e := ManifestEntryOf(full);
      assert d1.files == d1.files[runId := dir1[name.value := f]] by {
        assert dir1[name.value := f] == dir1;
      }
      assert d1.metadata == d1.metadata[runId := Written(full)];
      assert d1.manifest == Some(m1[runId := e]) by {
        assert m1[runId := e] == m1;
      }
      assert d1.runs == d1.runs + {runId};
    }
  }

  /**
   * The store invariant `save` keeps: every run with metadata has its
   * directory, an `arrays_path` and `arrays_format` that name each other,
   * and the arrays file that codec wrote; every manifest entry has a run.
   */
  predicate Consistent(d: Disk, caps: Capabilities)
  {
    && (forall id :: id in d.metadata ==> id in d.runs && Loadable(d, caps, id))
    && (forall id :: id in ManifestOf(d) ==> id in d.metadata)
  }

  /** Run `id`'s metadata points at an arrays file its codec wrote. */
  predicate Loadable(d: Disk, caps: Capabilities, id: string)
    requires id in d.metadata
  {
    var md := d.metadata[id];
    && "arrays_path" in md && md["arrays_path"].JStr?
    && "arrays_format" in md
    && ArraysFileName(caps, md["arrays_format"]) == Ok(md["arrays_path"].s)
    && FileAt(d, id, md["arrays_path"].s).Some?
    && FileAt(d, id, md["arrays_path"].s).value.format == md["arrays_format"]
  }

  /** The run a successful `save` wrote points at the arrays file it wrote. */
  lemma SavedLoadable(d: Disk, caps: Capabilities, runId: string, arrays: Arrays, md: Meta, format: Json)
    requires SaveSpec(d, caps, runId, arrays, md, format).1.Ok?
    ensures var d' := SaveSpec(d, caps, runId, arrays, md, format).0;
      runId in d'.runs && runId in d'.metadata && Loadable(d', caps, runId)
  {
    var d' := SaveSpec(d, caps, runId, arrays, md, format).0;
    var name := ArraysFileName(caps, format).value;
    var written := Written(Enrich(md, runId, format, name));
    assert d'.metadata[runId] == written;
    assert written["arrays_path"] == JStr(name);
    assert written["arrays_format"] == format;
    assert FileAt(d', runId, name) == Some(ArraysFile(format, arrays));
  }

  /** In a consistent store every run with metadata loads. */
  lemma ConsistentLoad(d: Disk, caps: Capabilities, id: string)
    requires Consistent(d, caps) && id in d.metadata
    ensures LoadSpec(d, caps, id).Ok?
    ensures LoadSpec(d, caps, id).value.arrays == FileAt(d, id, d.metadata[id]["arrays_path"].s).value.arrays
  {
    assert Loadable(d, caps, id);
  }

  /** `save` keeps the store consistent, whether it succeeds or fails. */
  lemma SaveConsistent(d: Disk, caps: Capabilities, runId: string, arrays: Arrays, md: Meta, format: Json)
    requires Consistent(d, caps)
    ensures Consistent(SaveSpec(d, caps, runId, arrays, md, format).0, caps)
  {
    var d' := SaveSpec(d, caps, runId, arrays, md, format).0;
    if ArraysFileName(caps, format).Ok? {
      var name := ArraysFileName(caps, format).value;
      forall id | id in d'.metadata ensures id in d'.runs && Loadable(d', caps, id) {
        if id == runId {
          SavedLoadable(d, caps, runId, arrays, md, format);
        } else {
          assert Loadable(d, caps, id);
          SaveFrame(d, caps, runId, arrays, md, format, id);
        }
      }
    }
  }

  // ---------------------------------------------------------------------
  // list_runs and load_latest
  // ---------------------------------------------------------------------

  /** One entry of `list_runs()`: `{"run_id": ..., "timestamp": ..., "tags": ...}`. */
  datatype Record = Record(runId: string, timestamp: Json, tags: Json)

  /** The manifest's runs in the order `json.load` gives them back: keys sorted. */
  function ManifestRecords(m: Manifest): (r: seq<Record>)
    ensures |r| == |m|
    ensures forall i :: 0 <= i < |r| ==> r[i].runId in m && r[i] == ManifestRecord(m, r[i].runId)
    ensures StrictlySorted(RunIds(r))
    ensures forall id :: id in m ==> id in RunIds(r)
  {
    var ids := SortedSet(m.Keys);
    var r := seq(|ids|, i requires 0 <= i < |ids| => ManifestRecord(m, ids[i]));
    assert RunIds(r) == ids;
    r
  }

  /** `{"run_id": run_id, **entry}`. */
  function ManifestRecord(m: Manifest, id: string): Record
    requires id in m
  {
    Record(id, m[id].timestamp, m[id].tags)
  }

  /** The sort key of `list_runs`: `item.get("timestamp", "")`; every record has a timestamp. */
  function Timestamp(r: Record): Json
  {
    r.timestamp
  }

  /** `<=` on the `list_runs` sort key. */
  predicate TimestampLe(a: Record, b: Record)
  {
    Canonical.SortLe(a.timestamp, b.timestamp)
  }

  lemma TimestampLeTotalPreorder()
    ensures Sorting.TotalPreorder(TimestampLe)
  {
    Canonical.SortLeTotalPreorder();
  }

  /** The record the manifest fallback builds for a run directory. */
  function FallbackRecord(d: Disk, id: string): Record
  {
    if id in d.metadata then
      Record(id, MetaGet(d.metadata[id], "timestamp", JNull), MetaGet(d.metadata[id], "tags", JArr([])))
    else Record(id, JNull, JArr([]))
  }

  /** One record per run directory, in sorted order. */
  function FallbackRecords(d: Disk): (r: seq<Record>)
    ensures |r| == |d.runs|
    ensures forall i :: 0 <= i < |r| ==> r[i].runId in d.runs && r[i] == FallbackRecord(d, r[i].runId)
    ensures StrictlySorted(RunIds(r))
    ensures forall id :: id in d.runs ==> id in RunIds(r)
  {
    var ids := SortedSet(d.runs);
    var r := seq(|ids|, i requires 0 <= i < |ids| => FallbackRecord(d, ids[i]));
    assert RunIds(r) == ids;
    r
  }

  /**
   * `list_runs()`: the manifest's runs stably sorted by timestamp, or, when
   * the manifest lists none, a record per run directory built from its
   * metadata.
   */
  function ListRunsSpec(d: Disk): (r: Result<seq<Record>>)
  {
    var recs := ManifestRecords(ManifestOf(d));
    if |recs| > 0 then
      if Canonical.Homogeneous(Sorting.Map(recs, Timestamp)) then Ok(Sorting.Sort(recs, TimestampLe))
      else Err(Canonical.SortError)
    else Ok(FallbackRecords(d))
  }

  /** The run ids of a listing, in order. */
  function RunIds(recs: seq<Record>): (ids: seq<string>)
    ensures |ids| == |recs| && forall i :: 0 <= i < |recs| ==> ids[i] == recs[i].runId
  {
    seq(|recs|, i requires 0 <= i < |recs| => recs[i].runId)
  }

  /**
   * With a manifest that lists runs, `list_runs` sorts them by timestamp;
   * timestamps `<` cannot compare (two None, a None and a str) raise
   * TypeError.
   */
  lemma ListRunsManifestOk(d: Disk)
    requires |ManifestOf(d)| > 0
    ensures var recs := ManifestRecords(ManifestOf(d));
      ListRunsSpec(d).Ok? <==> Canonical.Homogeneous(Sorting.Map(recs, Timestamp))
    ensures ListRunsSpec(d).Ok? ==> ListRunsSpec(d).value == Sorting.Sort(ManifestRecords(ManifestOf(d)), TimestampLe)
  {
  }

  /**
   * The manifest listing is ordered by timestamp, and runs with equal
   * timestamps keep the manifest's run id order: the sort is stable.
   */
  lemma ListRunsManifestOrder(d: Disk)
    requires |ManifestOf(d)| > 0 && ListRunsSpec(d).Ok?
    ensures var r, recs := ListRunsSpec(d).value, ManifestRecords(ManifestOf(d));
      && multiset(r) == multiset(recs)
      && Sorting.SortedBy(r, TimestampLe)
      && (forall k :: Sorting.Ties(r, k, TimestampLe) == Sorting.Ties(recs, k, TimestampLe))
  {
    var recs := ManifestRecords(ManifestOf(d));
    var r := Sorting.Sort(recs, TimestampLe);
    ListRunsManifestOk(d);
    assert ListRunsSpec(d).value == r;
    TimestampLeTotalPreorder();
    Sorting.SortSorted(recs, TimestampLe);
    forall k ensures Sorting.Ties(r, k, TimestampLe) == Sorting.Ties(recs, k, TimestampLe) {
      Sorting.SortStable(recs, k, TimestampLe);
    }
  }

  /**
   * The manifest listing holds exactly the runs the manifest has: a run
   * directory the manifest does not mention is not listed.
   */
  lemma ListRunsManifestMembers(d: Disk)
    requires |ManifestOf(d)| > 0 && ListRunsSpec(d).Ok?
    ensures var r := ListRunsSpec(d).value;
      && (forall i :: 0 <= i < |r| ==> r[i].runId in ManifestOf(d))
      && (forall id :: id in ManifestOf(d) ==> id in RunIds(r))
  {
    var m := ManifestOf(d);
    var recs := ManifestRecords(m);
    var r := Sorting.Sort(recs, TimestampLe);
    ListRunsManifestOk(d);
    assert ListRunsSpec(d).value == r;
    forall i | 0 <= i < |r| ensures r[i].runId in m {
      assert r[i] in multiset(recs);
    }
    forall id | id in m ensures id in RunIds(r) {
      var ids := RunIds(recs);
      var p :| 0 <= p < |ids| && ids[p] == id;
      assert recs[p] in multiset(r);
      var q :| 0 <= q < |r| && r[q] == recs[p];
      assert RunIds(r)[q] == id;
    }
  }

  /** The manifest listing lists each run once. */
  lemma ListRunsManifestDistinct(d: Disk)
    requires |ManifestOf(d)| > 0 && ListRunsSpec(d).Ok?
    ensures Sorting.Distinct(RunIds(ListRunsSpec(d).value))
  {
    var m := ManifestOf(d);
    var recs := ManifestRecords(m);
    var r := Sorting.Sort(recs, TimestampLe);
    ListRunsManifestOk(d);
    assert ListRunsSpec(d).value == r;
    forall i | 0 <= i < |r| ensures r[i].runId in m && r[i] == ManifestRecord(m, r[i].runId) {
      assert r[i] in multiset(recs);
    }
    RecordsDistinct(recs);
    Sorting.SortDistinct(recs, TimestampLe);
    SameRecordSameId(r, m);
  }

  /** Records with strictly sorted run ids are distinct. */
  lemma RecordsDistinct(recs: seq<Record>)
    requires StrictlySorted(RunIds(recs))
    ensures Sorting.Distinct(recs)
  {
    forall i, j | 0 <= i < j < |recs| ensures recs[i] != recs[j] {
      assert Less(RunIds(recs)[i], RunIds(recs)[j]);
      LessIrreflexive(recs[i].runId);
    }
  }

  /** Distinct manifest records have distinct run ids: each id has one record. */
  lemma SameRecordSameId(r: seq<Record>, m: Manifest)
    requires Sorting.Distinct(r)
    requires forall i :: 0 <= i < |r| ==> r[i].runId in m && r[i] == ManifestRecord(m, r[i].runId)
    ensures Sorting.Distinct(RunIds(r))
  {
  }

  /**
   * With no manifest entries (no manifest, or an empty one) `list_runs`
   * lists every run directory once, in sorted order, with the timestamp and
   * tags of its metadata, or None and no tags when it has no metadata.
   */
  lemma ListRunsFallback(d: Disk)
    requires |ManifestOf(d)| == 0
    ensures ListRunsSpec(d).Ok?
    ensures var r := ListRunsSpec(d).value;
      && |r| == |d.runs|
      && StrictlySorted(RunIds(r))
      && (forall id :: id in d.runs <==> id in RunIds(r))
      && (forall i :: 0 <= i < |r| && r[i].runId in d.metadata ==>
            r[i].timestamp == MetaGet(d.metadata[r[i].runId], "timestamp", JNull)
            && r[i].tags == MetaGet(d.metadata[r[i].runId], "tags", JArr([])))
      && (forall i :: 0 <= i < |r| && r[i].runId !in d.metadata ==> r[i].timestamp == JNull && r[i].tags == JArr([]))
  {
    var r := ListRunsSpec(d).value;
    assert r == FallbackRecords(d);
    forall id | id in RunIds(r) ensures id in d.runs {
      var i :| 0 <= i < |r| && RunIds(r)[i] == id;
    }
  }

  /**
   * `tag in (tags or [])`: membership in a list, a substring of a str, a
   * key of a dict; other true values are not iterable.
   */
  function HasTag(tags: Json, tag: string): (r: Result<bool>)
    ensures tags.JArr? ==> r == Ok(JStr(tag) in tags.items)
    ensures r.Err? <==> Sweep.Truthy(tags) && !tags.JArr? && !tags.JStr? && !tags.JObj?
  {
    if !Sweep.Truthy(tags) then Ok(false)
    else
      match tags
      case JArr(items) => Ok(JStr(tag) in items)
      case JStr(t) => Ok(IsSubstring(tag, t))
      case JObj(fs) => Ok(exists i :: 0 <= i < |fs| && fs[i].key == tag)
      case _ => Err(TypeError("argument of type '" + Sweep.TypeName(tags) + "' is not iterable"))
  }

  /** The records carrying `tag`, in listing order; the first record whose tags cannot be searched raises. */
  function Candidates(recs: seq<Record>, tag: string): (r: Result<seq<Record>>)
    decreases |recs|
  {
    if |recs| == 0 then Ok([])
    else
      var init := Candidates(recs[..|recs| - 1], tag);
      var last := recs[|recs| - 1];
      var has := HasTag(last.tags, tag);
      if init.Err? then init
      else if has.Err? then Err(has.error)
      else Ok(init.value + if has.value then [last] else [])
  }

  /** The sort key of `load_latest`: `item.get("timestamp") or ""`. */
  function LatestKey(r: Record): Json
  {
    if Sweep.Truthy(r.timestamp) then r.timestamp else JStr("")
  }

  /** `<=` on the `load_latest` sort key. */
  predicate LatestLe(a: Record, b: Record)
  {
    Canonical.SortLe(LatestKey(a), LatestKey(b))
  }

  lemma LatestLeTotalPreorder()
    ensures Sorting.TotalPreorder(LatestLe)
  {
    Canonical.SortLeTotalPreorder();
  }

  /** The candidate `load_latest` loads: the last after a stable sort by timestamp, or TypeError. */
  function Latest(cs: seq<Record>): (r: Result<Record>)
    requires |cs| > 0
  {
    if Canonical.Homogeneous(Sorting.Map(cs, LatestKey)) then Ok(Sorting.Sort(cs, LatestLe)[|cs| - 1])
    else Err(Canonical.SortError)
  }

  /**
   * `load_latest(tag)`: None when no listed run carries the tag, otherwise
   * the run with the greatest timestamp loaded.
   */
  function LoadLatestSpec(d: Disk, caps: Capabilities, tag: string): (r: Result<Option<Loaded>>)
  {
    var runs := ListRunsSpec(d);
    if runs.Err? then Err(runs.error)
    else
      var cs := Candidates(runs.value, tag);
      if cs.Err? then Err(cs.error)
      else if |cs.value| == 0 then Ok(None)
      else
        var best := Latest(cs.value);
        if best.Err? then Err(best.error)
        else
          var loaded := LoadSpec(d, caps, best.value.runId);
          if loaded.Err? then Err(loaded.error) else Ok(Some(loaded.value))
  }

  /**
   * `cs` is `recs` filtered by `tag` in listing order: `cs[k]` is the record
   * at index `idx[k]`, the indices increase, and they are exactly the indices
   * of the records carrying the tag.
   */
  ghost predicate SelectsInOrder(recs: seq<Record>, tag: string, idx: seq<nat>, cs: seq<Record>)
  {
    && |idx| == |cs|
    && (forall k :: 0 <= k < |idx| ==> idx[k] < |recs| && cs[k] == recs[idx[k]] && HasTag(recs[idx[k]].tags, tag) == Ok(true))
    && (forall k, l :: 0 <= k < l < |idx| ==> idx[k] < idx[l])
    && (forall i :: 0 <= i < |recs| && HasTag(recs[i].tags, tag) == Ok(true) ==> i in idx)
  }

  /** The candidates are exactly the listed records whose tags hold `tag`, in listing order. */
  lemma {:induction false} CandidatesSpec(recs: seq<Record>, tag: string)
    requires Candidates(recs, tag).Ok?
    ensures forall i :: 0 <= i < |recs| ==> HasTag(recs[i].tags, tag).Ok?
    ensures forall x :: x in Candidates(recs, tag).value <==> x in recs && HasTag(x.tags, tag) == Ok(true)
    ensures exists idx :: SelectsInOrder(recs, tag, idx, Candidates(recs, tag).value)
  {
    CandidatesMembers(recs, tag);
    CandidatesInOrder(recs, tag);
  }

  lemma {:induction false} CandidatesMembers(recs: seq<Record>, tag: string)
    requires Candidates(recs, tag).Ok?
    ensures forall i :: 0 <= i < |recs| ==> HasTag(recs[i].tags, tag).Ok?
    ensures forall x :: x in Candidates(recs, tag).value <==> x in recs && HasTag(x.tags, tag) == Ok(true)
    decreases |recs|
  {
    if |recs| > 0 {
      var init := recs[..|recs| - 1];
      CandidatesMembers(init, tag);
      assert recs == init + [recs[|recs| - 1]];
    }
  }

  lemma {:induction false} CandidatesInOrder(recs: seq<Record>, tag: string)
    requires Candidates(recs, tag).Ok?
    ensures exists idx :: SelectsInOrder(recs, tag, idx, Candidates(recs, tag).value)
    decreases |recs|
  {
    if |recs| == 0 {
      assert SelectsInOrder(recs, tag, [], []);
    } else {
      var n := |recs| - 1;
      var init, last := recs[..n], recs[n];
      CandidatesInOrder(init, tag);
      assert recs == init + [last];
      var cs := Candidates(init, tag).value;
      var idx :| SelectsInOrder(init, tag, idx, cs);
      SelectsAppend(init, last, tag, idx, cs);
      if HasTag(last.tags, tag) == Ok(true) {
        assert Candidates(recs, tag).value == cs + [last];
        assert SelectsInOrder(recs, tag, idx + [n], Candidates(recs, tag).value);
      } else {
        assert Candidates(recs, tag).value == cs;
        assert SelectsInOrder(recs, tag, idx, Candidates(recs, tag).value);
      }
    }
  }

  /** Filtering one more record in listing order extends the selection by its index, if it carries the tag. */
  lemma SelectsAppend(init: seq<Record>, last: Record, tag: string, idx: seq<nat>, cs: seq<Record>)
    requires SelectsInOrder(init, tag, idx, cs)
    ensures HasTag(last.tags, tag) == Ok(true) ==> SelectsInOrder(init + [last], tag, idx + [|init|], cs + [last])
    ensures HasTag(last.tags, tag) != Ok(true) ==> SelectsInOrder(init + [last], tag, idx, cs)
  {
    var recs := init + [last];
    var n := |init|;
    if HasTag(last.tags, tag) == Ok(true) {
      var idx', cs' := idx + [n], cs + [last];
      forall k | 0 <= k < |idx'|
        ensures idx'[k] < |recs| && cs'[k] == recs[idx'[k]] && HasTag(recs[idx'[k]].tags, tag) == Ok(true)
      {
        if k < |idx| {
          assert idx'[k] == idx[k] && cs'[k] == cs[k] && recs[idx[k]] == init[idx[k]];
        }
      }
      forall i | 0 <= i < |recs| && HasTag(recs[i].tags, tag) == Ok(true)
        ensures i in idx'
      {
        if i < n {
          assert recs[i] == init[i];
          assert i in idx;
        } else {
          assert idx'[|idx|] == i;
        }
      }
      assert SelectsInOrder(recs, tag, idx', cs');
    } else {
      forall k | 0 <= k < |idx|
        ensures idx[k] < |recs| && cs[k] == recs[idx[k]] && HasTag(recs[idx[k]].tags, tag) == Ok(true)
      {
        assert recs[idx[k]] == init[idx[k]];
      }
      forall i | 0 <= i < |recs| && HasTag(recs[i].tags, tag) == Ok(true)
        ensures i in idx
      {
        assert i < n && recs[i] == init[i];
      }
    }
  }

  /**
   * `load_latest` loads the candidate whose timestamp is greatest, and of
   * several with that timestamp the one listed last.
   */
  lemma LatestGreatest(cs: seq<Record>)
    requires |cs| > 0 && Latest(cs).Ok?
    ensures var m := Latest(cs).value;
      && (forall x :: x in cs ==> LatestLe(x, m))
      && exists i :: 0 <= i < |cs| && cs[i] == m && forall j :: i < j < |cs| ==> !LatestLe(m, cs[j])
  {
    LatestLeTotalPreorder();
    Sorting.SortLastGreatest(cs, LatestLe);
    Sorting.SortLastLatest(cs, LatestLe);
  }

  /** No listed run with the tag: `load_latest` returns None. */
  lemma LoadLatestNone(d: Disk, caps: Capabilities, tag: string)
    requires ListRunsSpec(d).Ok?
    requires forall i :: 0 <= i < |ListRunsSpec(d).value| ==> HasTag(ListRunsSpec(d).value[i].tags, tag) == Ok(false)
    ensures LoadLatestSpec(d, caps, tag) == Ok(None)
  {
    var recs := ListRunsSpec(d).value;
    NoCandidates(recs, tag);
  }

  lemma {:induction false} NoCandidates(recs: seq<Record>, tag: string)
    requires forall i :: 0 <= i < |recs| ==> HasTag(recs[i].tags, tag) == Ok(false)
    ensures Candidates(recs, tag) == Ok([])
    decreases |recs|
  {
    if |recs| > 0 {
      var init := recs[..|recs| - 1];
      assert forall i :: 0 <= i < |init| ==> init[i] == recs[i];
      NoCandidates(init, tag);
      assert HasTag(recs[|recs| - 1].tags, tag) == Ok(false);
      var none: seq<Record> := [];
      assert none + none == none;
    }
  }

  /**
   * A run `load_latest` returns is a listed run carrying the tag, loaded,
   * and no listed run with the tag has a later timestamp.
   */
  lemma LoadLatestFound(d: Disk, caps: Capabilities, tag: string)
    requires LoadLatestSpec(d, caps, tag).Ok? && LoadLatestSpec(d, caps, tag).value.Some?
    ensures var recs := ListRunsSpec(d).value;
      exists m :: m in recs && HasTag(m.tags, tag) == Ok(true)
        && LoadSpec(d, caps, m.runId) == Ok(LoadLatestSpec(d, caps, tag).value.value)
        && forall x :: x in recs && HasTag(x.tags, tag) == Ok(true) ==> LatestLe(x, m)
    ensures var recs := ListRunsSpec(d).value;
      exists i :: LastTaggedAt(recs, tag, i)
        && LoadSpec(d, caps, recs[i].runId) == Ok(LoadLatestSpec(d, caps, tag).value.value)
  {
    var recs := ListRunsSpec(d).value;
    var cs := Candidates(recs, tag).value;
    var m := Latest(cs).value;
    LatestInListing(recs, tag);
    var i :| LastTaggedAt(recs, tag, i) && recs[i] == m;
    assert LoadSpec(d, caps, m.runId) == Ok(LoadLatestSpec(d, caps, tag).value.value);
  }

  /**
   * The record `load_latest` picks is a tagged record of the listing: no
   * tagged record has a greater timestamp, and none listed after it an equal one.
   */
  lemma LatestInListing(recs: seq<Record>, tag: string)
    requires Candidates(recs, tag).Ok? && |Candidates(recs, tag).value| > 0
    requires Latest(Candidates(recs, tag).value).Ok?
    ensures var m := Latest(Candidates(recs, tag).value).value;
      && m in recs && HasTag(m.tags, tag) == Ok(true)
      && (forall x :: x in recs && HasTag(x.tags, tag) == Ok(true) ==> LatestLe(x, m))
      && exists i :: LastTaggedAt(recs, tag, i) && recs[i] == m
  {
    var cs := Candidates(recs, tag).value;
    var m := Latest(cs).value;
    CandidatesSpec(recs, tag);
    LatestGreatest(cs);
    var c :| 0 <= c < |cs| && cs[c] == m && forall j :: c < j < |cs| ==> !LatestLe(m, cs[j]);
    var idx :| SelectsInOrder(recs, tag, idx, cs);
    CandidateLastInListing(recs, tag, idx, cs, c);
  }

  /**
   * A candidate that no later candidate matches is, in the listing itself,
   * a tagged record that no later tagged record matches.
   */
  lemma CandidateLastInListing(recs: seq<Record>, tag: string, idx: seq<nat>, cs: seq<Record>, c: nat)
    requires SelectsInOrder(recs, tag, idx, cs) && c < |cs|
    requires forall j :: c < j < |cs| ==> !LatestLe(cs[c], cs[j])
    ensures exists i :: LastTaggedAt(recs, tag, i) && recs[i] == cs[c]
  {
    var i := idx[c];
    forall j | i < j < |recs| && HasTag(recs[j].tags, tag) == Ok(true)
      ensures !LatestLe(recs[i], recs[j])
    {
      assert j in idx;
      var l :| 0 <= l < |idx| && idx[l] == j;
      assert idx[c] < idx[l];
      assert c < l;
      assert cs[l] == recs[j];
    }
    assert LastTaggedAt(recs, tag, i);
  }

  /** `recs[i]` carries the tag and no later record carrying it has a timestamp as great. */
  ghost predicate LastTaggedAt(recs: seq<Record>, tag: string, i: int)
  {
    && 0 <= i < |recs| && HasTag(recs[i].tags, tag) == Ok(true)
    && forall j :: i < j < |recs| && HasTag(recs[j].tags, tag) == Ok(true) ==> !LatestLe(recs[i], recs[j])
  }

  /** A candidate search that failed on a prefix fails the same way on the whole listing. */
  lemma {:induction false} CandidatesErrPrefix(recs: seq<Record>, tag: string, i: nat)
    requires i <= |recs| && Candidates(recs[..i], tag).Err?
    ensures Candidates(recs, tag) == Candidates(recs[..i], tag)
    decreases |recs|
  {
    if i < |recs| {
      var init := recs[..|recs| - 1];
      assert init[..i] == recs[..i];
      CandidatesErrPrefix(init, tag, i);
    } else {
      assert recs[..i] == recs;
    }
  }

  // ---------------------------------------------------------------------
  // SimCache
  // ---------------------------------------------------------------------

  /**
   * `SimCache(root)`: a store whose fields are what lies under its root
   * directory. `caps` says which optional codec packages import.
   */
  class SimCache {
    const caps: Capabilities
    var runs: set<string>
    var metadata: map<string, Meta>
    var files: map<string, map<string, ArraysFile>>
    var manifest: Option<Manifest>

    /** The store's contents as a value. */
    function State(): Disk
      reads this
    {
      Disk(runs, metadata, files, manifest)
    }

    /** Open the store over what its root already holds (creating `runs/` changes nothing modelled). */
    constructor (caps: Capabilities, disk: Disk)
      ensures this.caps == caps && State() == disk
    {
      this.caps := caps;
      runs := disk.runs;
      metadata := disk.metadata;
      files := disk.files;
      manifest := disk.manifest;
    }

    /** `run_exists(run_id)`. */
    method RunExists(runId: string) returns (b: bool)
      ensures b == RunExistsSpec(State(), runId)
    {
      b := runId in runs;
    }

    /** `_save_arrays(arrays_format, arrays, run_dir)`: write the arrays file, or raise before writing. */
    method SaveArrays(format: Json, arrays: Arrays, runId: string) returns (r: Result<string>)
      modifies this
      ensures r == ArraysFileName(caps, format)
      ensures r.Ok? ==> files == old(files)[runId := (if runId in old(files) then old(files)[runId] else map[])[r.value := ArraysFile(format, arrays)]]
      ensures r.Err? ==> files == old(files)
      ensures runs == old(runs) && metadata == old(metadata) && manifest == old(manifest)
    {
      r := ArraysFileName(caps, format);
      if r.Ok? {
        var dir := if runId in files then files[runId] else map[];
        files := files[runId := dir[r.value := ArraysFile(format, arrays)]];
      }
    }

    /** `save(run_id, arrays, metadata, arrays_format)`: returns the run directory. */
    method Save(runId: string, arrays: Arrays, md: Meta, format: Json) returns (r: Result<string>)
      modifies this
      ensures (State(), r) == SaveSpec(old(State()), caps, runId, arrays, md, format)
    {
      runs := runs + {runId};
      var name := SaveArrays(format, arrays, runId);
      if name.Err? {
        return Err(name.error);
      }
      var full := Enrich(md, runId, format, name.value);
      metadata := metadata[runId := Written(full)];
      UpdateManifest(runId, full);
      r := Ok(RunDir(runId));
    }

    /** `info(run_id)`. */
    method Info(runId: string) returns (r: Result<Meta>)
      ensures r == InfoSpec(State(), runId)
    {
      if runId !in metadata {
        return Err(FileNotFound(RunDir(runId) + "/metadata.json"));
      }
      r := Ok(metadata[runId]);
    }

    /** `load(run_id)`. */
    method Load(runId: string) returns (r: Result<Loaded>)
      ensures r == LoadSpec(State(), caps, runId)
    {
      var info := Info(runId);
      if info.Err? {
        return Err(info.error);
      }
      var md := info.value;
      if "arrays_path" !in md {
        return Err(KeyError("arrays_path"));
      }
      if !md["arrays_path"].JStr? {
        return Err(TypeError("unsupported operand type(s) for /: 'PosixPath' and '" + Sweep.TypeName(md["arrays_path"]) + "'"));
      }
      if "arrays_format" !in md {
        return Err(KeyError("arrays_format"));
      }
      var name := md["arrays_path"].s;
      var arrays := LoadArrays(caps, md["arrays_format"], FileAt(State(), runId, name), RunDir(runId) + "/" + name);
      if arrays.Err? {
        return Err(arrays.error);
      }
      r := Ok(Loaded(arrays.value, md));
    }

    /** `_load_manifest()["runs"]`. */
    method LoadManifest() returns (m: Manifest)
      ensures m == ManifestOf(State())
    {
      if manifest.None? {
        return map[];
      }
      m := manifest.value;
    }

    /** `_update_manifest(run_id, metadata)`. */
    method UpdateManifest(runId: string, md: Meta)
      modifies this
      ensures State() == UpdateManifestSpec(old(State()), runId, md)
    {
      var m := LoadManifest();
      m := m[runId := ManifestEntryOf(md)];
      manifest := Some(m);
    }

    /** `list_runs()`. */
    method ListRuns() returns (r: Result<seq<Record>>)
      ensures r == ListRunsSpec(State())
    {
      var m := LoadManifest();
      var recs := ManifestListing(m);
      if |recs| > 0 {
        if !Canonical.Homogeneous(Sorting.Map(recs, Timestamp)) {
          return Err(Canonical.SortError);
        }
        return Ok(Sorting.Sort(recs, TimestampLe));
      }
      var fallback := FallbackListing();
      r := Ok(fallback);
    }

    /** The first loop of `list_runs`: one record per manifest entry. */
    method ManifestListing(m: Manifest) returns (recs: seq<Record>)
      ensures recs == ManifestRecords(m)
    {
      var ids := SortedSet(m.Keys);
      recs := [];
      for i := 0 to |ids|
        invariant |recs| == i
        invariant forall k :: 0 <= k < i ==> recs[k] == ManifestRecord(m, ids[k])
      {
        recs := recs + [ManifestRecord(m, ids[i])];
      }
    }

    /** The fallback loop of `list_runs`: one record per run directory, in sorted order. */
    method FallbackListing() returns (recs: seq<Record>)
      ensures recs == FallbackRecords(State())
    {
      var dirs := SortedSet(runs);
      recs := [];
      for i := 0 to |dirs|
        invariant |recs| == i
        invariant forall k :: 0 <= k < i ==> recs[k] == FallbackRecord(State(), dirs[k])
      {
        var id := dirs[i];
        if id in metadata {
          var md := metadata[id];
          recs := recs + [Record(id, MetaGet(md, "timestamp", JNull), MetaGet(md, "tags", JArr([])))];
        } else {
          recs := recs + [Record(id, JNull, JArr([]))];
        }
      }
    }

    /** `load_latest(tag)`. */
    method LoadLatest(tag: string) returns (r: Result<Option<Loaded>>)
      ensures r == LoadLatestSpec(State(), caps, tag)
    {
      var listed := ListRuns();
      if listed.Err? {
        return Err(listed.error);
      }
      var candidates := FilterTagged(listed.value, tag);
      if candidates.Err? {
        return Err(candidates.error);
      }
      if |candidates.value| == 0 {
        return Ok(None);
      }
      var best := Latest(candidates.value);
      if best.Err? {
        return Err(best.error);
      }
      var loaded := Load(best.value.runId);
      if loaded.Err? {
        return Err(loaded.error);
      }
      r := Ok(Some(loaded.value));
    }

    /** The loop of `load_latest` that keeps the runs carrying `tag`. */
    method FilterTagged(recs: seq<Record>, tag: string) returns (r: Result<seq<Record>>)
      ensures r == Candidates(recs, tag)
    {
      var candidates: seq<Record> := [];
      for i := 0 to |recs|
        invariant Candidates(recs[..i], tag) == Ok(candidates)
      {
        var pre := recs[..i + 1];
        assert pre[..|pre| - 1] == recs[..i] && pre[|pre| - 1] == recs[i];
        var has := HasTag(recs[i].tags, tag);
        if has.Err? {
          assert Candidates(pre, tag) == Err(has.error);
          CandidatesErrPrefix(recs, tag, i + 1);
          return Err(has.error);
        }
        if has.value {
          candidates := candidates + [recs[i]];
        } else {
          assert candidates + [] == candidates;
        }
      }
      assert recs[..|recs|] == recs;
      r := Ok(candidates);
    }
  }
}
