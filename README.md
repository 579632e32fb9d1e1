# simcache in Dafny

simcache is a content-addressed cache for simulation runs. A run is identified
by the SHA-256 of its normalised specification (parameters, seed, code version,
environment). The store keeps each run in `runs/<run_id>/`, with a
`metadata.json` and an arrays file in one of three codecs (npz, zarr, hdf5).
It also keeps a `manifest.json` index of timestamps and tags. The command
line runs a simulation script once per id (`run`), over a parameter grid
(`sweep`), and lists what is stored (`ls`).

This project models that core and proves properties about the model:

- `wrappers.dfy`: `Option`, `Result` and the Python exceptions the core raises.
- `strings.dfy`: code-point order on `str`, sorted sets, decimal and hex digits, `str.join`, substring search.
- `sorting.dfy`: Python's `sorted` as a stable insertion sort over a total preorder, with its properties.
- `utf8.dfy`: `str.encode("utf-8")` and `bytes.decode("utf-8", errors="replace")`.
- `json.dfy`:
  - JSON values without floats;
  - `json.dumps` with compact separators and either `ensure_ascii` setting;
  - the `sort_keys=True` reordering (`Canon`);
  - a reader that inverts the writer.
- `canonical.dfy` (`core.py`):
  - `_normalize`, over a `PyValue` datatype of the Python values it handles;
  - `hash_spec`;
  - `_canonical_json`, `make_run_id` and `RunSpec.to_dict`.
- `sweep.dfy` (`iterations.py`): `expand_grid` and `iter_sweep`, each as a specification function plus a method with the source's loops.
- `store.dfy` (`store.py`):
  - `build_spec`, `compute_run_id` and `build_metadata`;
  - the codec dispatch;
  - the store as a value (`Disk`), with specification functions for every `SimCache` operation;
  - a `SimCache` class whose fields are the store's contents, whose methods update them in place, and whose every method is proved equal to its specification function.
- `cli.dfy` (`cli.py`):
  - `_normalize_result`;
  - `cmd_run`'s run/skip logic;
  - `cmd_sweep`'s loop with its counters;
  - `cmd_ls`'s lines.
  Each command is a specification function plus a method on an open `SimCache`.

SHA-256 is the parameter `sha: Digest`, which stands for any function from bytes to 64 lower-case hex digits. The environment fingerprint, the git commit, the clock and the simulation function are also parameters.

## Model

| member | source | states |
|---|---|---|
| Canonical.Normalize | src/simcache/core.py:56-78 | `_normalize` fails only with the TypeError of `sorted` on a set |
| Canonical.NormalizeItems | src/simcache/core.py:59-60 | a list comprehension: the same length; element i is the normalised item i; it fails exactly when some item fails |
| Canonical.NormalizeEntries | src/simcache/core.py:57-58 | the dict comprehension's pairs, one per entry, each `str(key)` with the normalised value; it fails exactly when a value fails |
| Canonical.NormalizeDictKeys | src/simcache/core.py:57-58 | a dict becomes an object; each key appears once; the keys are exactly the `str(key)` texts of the entries; it fails exactly when a value fails |
| Canonical.NormalizeDictLastWins | src/simcache/core.py:57-58 | when two keys have the same `str()` (`1` and `"1"`), the later entry's value wins |
| Canonical.NormalizeDictOrder | src/simcache/core.py:57-58 | keys keep the order of their first entry |
| Canonical.CollectLastWins | src/simcache/core.py:58 | after dict assignments, a key holds the value of its last pair |
| Canonical.CollectOrder | src/simcache/core.py:58 | dict assignment keeps keys in first-insertion order |
| Canonical.NormalizeSequence | src/simcache/core.py:59-60 | lists and tuples give the same array: the same length, element by element, in order |
| Canonical.NormalizeSet | src/simcache/core.py:61-62 | a set gives the sorted list of its normalised elements, a permutation of them; it fails exactly when an element fails or the elements do not compare |
| Canonical.SetOrderIrrelevant | src/simcache/core.py:61-62 | the set's iteration order does not show in the result |
| Canonical.NumberSource | src/simcache/core.py:76-77 | only an int normalises to an int, and only a bool to a bool |
| Canonical.NormalizeText | src/simcache/core.py:63-78 | a `Path`, a str and an object whose `str()` is the same text all give that text |
| Canonical.NormalizeBytes | src/simcache/core.py:65-66 | bytes are decoded as UTF-8: the encoding of a str gives that str back |
| Canonical.NormalizeFromJson | src/simcache/core.py:56-78 | plain JSON data (each key once) is a fixed point of `_normalize` |
| Canonical.NormalizeJsonOk | src/simcache/core.py:56-78 | `_normalize` never fails on JSON data |
| Canonical.NormalizeDeepUnique | src/simcache/core.py:57-58 | every object in the result, at every depth, has each key once |
| Canonical.NormalizeIdempotent | src/simcache/core.py:56-78 | `_normalize(_normalize(x)) == _normalize(x)` |
| Canonical.HashSpec | src/simcache/core.py:81-84 | `hash_spec` succeeds exactly when `_normalize` does, and then returns 64 lower-case hex digits; otherwise it raises the sort TypeError |
| Canonical.PayloadShape | src/simcache/core.py:82-83 | the payload is printable ASCII, byte for character, and reads back as the normalised tree with every object's keys sorted |
| Canonical.PayloadInjective | src/simcache/core.py:82-84 | two specs give the same payload exactly when their normalised trees agree up to key order |
| Canonical.PayloadIgnoresInsertionOrder | src/simcache/core.py:83 | the insertion order of the spec dict does not change the payload |
| Canonical.HashIgnoresInsertionOrder | src/simcache/core.py:81-84 | the insertion order of the spec dict does not change `hash_spec` |
| Canonical.PayloadDeterminesValues | src/simcache/core.py:82-84 | two specs with the same payload have the same normalised value under every key they share |
| Canonical.CanonicalJsonInjective | src/simcache/core.py:8-9 | two values have the same canonical bytes exactly when they agree up to key order |
| Canonical.MakeRunId | src/simcache/core.py:23-25 | the run id is the first 12 characters of the digest of the canonical bytes: 12 lower-case hex digits |
| Canonical.RunIdIgnoresInsertionOrder | src/simcache/core.py:23-25 | the insertion order of the spec dict does not change the run id |
| Canonical.ToDict | src/simcache/core.py:35-41 | `to_dict` has the keys name, params, seed and git, each once and in that order |
| Canonical.RunSpecIdentity | src/simcache/core.py:35-41 | two run specs have the same canonical bytes exactly when they agree on name, seed and git state, and their params agree up to key order |
| Json.RoundTrip | src/simcache/core.py:83 | reading the `json.dumps` text gives the value back |
| Json.CanonSortsKeys | src/simcache/core.py:83 | after `sort_keys`, every object's keys are in strictly ascending order at every depth |
| Json.DumpsIgnoresOrder | src/simcache/core.py:9 | with `sort_keys`, the text does not depend on insertion order |
| Utf8.DecodeEncode | src/simcache/core.py:65-66 | decoding the UTF-8 encoding of a str gives the str back |
| Utf8.EncodeInjective | src/simcache/core.py:9 | different strs have different UTF-8 bytes |
| Sweep.AsList | src/simcache/iterations.py:27 | `list(x)`: the items of a list, the characters of a str, the keys of a dict; any other value raises TypeError |
| Sweep.AxisValues | src/simcache/iterations.py:26-27 | one value list per key, in key order; it fails exactly when some axis is not iterable |
| Sweep.AxisValuesFirstError | src/simcache/iterations.py:27 | the error raised is the one of the first axis that is not iterable |
| Sweep.ExpandGridSpec | src/simcache/iterations.py:25-31 | `expand_grid` fails, with TypeError, exactly when some axis is not iterable |
| Sweep.ExpandGrid | src/simcache/iterations.py:25-31 | the method with the source's loop computes `ExpandGridSpec` |
| Sweep.ProductMember | src/simcache/iterations.py:29 | `product` yields a tuple exactly when it has one entry per axis, each taken from that axis |
| Sweep.ProductIndex | src/simcache/iterations.py:29 | lexicographic order, last axis fastest: tuple `i*n+j` is the first axis's value i followed by tuple j of the other axes |
| Sweep.ProductEmpty | src/simcache/iterations.py:29 | there are no tuples exactly when some axis is empty |
| Sweep.ExpandGridCount | src/simcache/iterations.py:25-31 | the number of combinations is the product of the axis lengths; it is zero exactly when some axis is empty |
| Sweep.ExpandGridShape | src/simcache/iterations.py:26-30 | every combination has exactly the grid's keys, in order, each with a value from its axis |
| Sweep.ExpandGridComplete | src/simcache/iterations.py:29-30 | every choice of one value per axis appears as a combination |
| Sweep.ExpandGridAt | src/simcache/iterations.py:29-30 | combination k zips the grid's keys with product tuple k |
| Sweep.ExpandGridNoKeys | src/simcache/iterations.py:25-31 | an empty grid gives `[{}]` |
| Sweep.SweepCombos | src/simcache/iterations.py:35-36 | absent or false params give `[{}]`; a non-empty dict gives its expanded grid; any other value raises |
| Sweep.SweepSeeds | src/simcache/iterations.py:37-42 | seeds are `list(grid["seeds"])`, else `[grid["seed"]]`, else `[0]` |
| Sweep.IterSweep | src/simcache/iterations.py:34-45 | the generator, drained, yields exactly `SweepSpec` |
| Sweep.PairUp | src/simcache/iterations.py:43-45 | the nested loops collect exactly `Pairs(combos, seeds)` |
| Sweep.PairsIndex | src/simcache/iterations.py:43-45 | pair k is `(combos[k / |seeds|], seeds[k % |seeds|])` |
| Sweep.SweepCount | src/simcache/iterations.py:34-45 | a sweep yields `|combos| * |seeds|` pairs |
| Sweep.PairsMember | src/simcache/iterations.py:43-45 | a pair is yielded exactly when its params are a combination and its seed is a seed |
| Sweep.SweepMembers | src/simcache/iterations.py:34-45 | every combination meets every seed, and nothing else is yielded |
| Sweep.SweepNoParams | src/simcache/iterations.py:35-36 | without params, each seed runs once with `{}` |
| Store.BuildSpec | src/simcache/store.py:22-34 | the spec dict has four entries; params and seed sit under their own keys |
| Store.ComputeRunId | src/simcache/store.py:36-46 | the run id is `hash_spec(build_spec(...))`: 64 lower-case hex digits when it succeeds |
| Store.ComputeRunIdJson | src/simcache/store.py:36-46 | params, seed and env read from JSON always hash |
| Store.ComputeRunIdDistinguishes | src/simcache/store.py:36-46 | two specs with the same hash input have the same params and seed, up to key order |
| Store.DedupeSet | src/simcache/store.py:225 | `set(tags)` keeps elements taken from tags, has an equal element for each tag, and holds no two equal elements |
| Store.SortedUniqueSpec | src/simcache/store.py:225 | `sorted(set(tags))` is sorted, holds no two equal elements, takes its elements from the tags and covers every tag |
| Store.StoredTagsString | src/simcache/store.py:217-218 | a single str tag becomes a one-element list |
| Store.StoredTagsSortedUnique | src/simcache/store.py:225 | stored tags are sorted and unique, and cover exactly the given tags |
| Store.BuildMetadata | src/simcache/store.py:208-231 | `build_metadata` succeeds exactly when the tags can be stored; every key of `extra` keeps `extra`'s value |
| Store.BuildMetadataBase | src/simcache/store.py:219-226 | params, seed, code_version, env, timestamp and tags hold their values unless `extra` sets them |
| Store.BuildMetadataPlotConfig | src/simcache/store.py:227-228 | plot_config is present exactly when it is not None, and then holds the given value |
| Store.BuildMetadataKeys | src/simcache/store.py:219-230 | the keys are exactly those of `extra`, the six base keys, and plot_config when it is given |
| Store.ArraysFileName | src/simcache/store.py:130-157 | npz, zarr and hdf5 map to arrays.npz, arrays.zarr and arrays.h5 when their codec is installed. A missing codec raises RuntimeError. Every other format raises ValueError |
| Store.ArraysFileNameInjective | src/simcache/store.py:130-157 | different formats never share an arrays file name |
| Store.LoadArrays | src/simcache/store.py:159-180 | reading succeeds exactly when the format dispatches and a file written by that codec is there; it returns that file's arrays |
| Store.Written | src/simcache/store.py:196-205 | a dict read back after `json.dump(sort_keys=True)` has the same keys, each value with its keys sorted |
| Store.ManifestOf | src/simcache/store.py:182-185 | a missing manifest reads as no runs |
| Store.UpdateManifestFrame | src/simcache/store.py:187-194 | the update sets only run_id's entry, to the metadata's timestamp and its tags or `[]`; all else is unchanged |
| Store.InfoSpec | src/simcache/store.py:80-82 | `info` returns the stored metadata exactly when it exists |
| Store.LoadSpec | src/simcache/store.py:73-78 | a successful `load` returns the stored metadata |
| Store.SaveThenExists | src/simcache/store.py:58-59 | after `save`, whatever its outcome, the run directory exists |
| Store.SaveFailure | src/simcache/store.py:58-60 | a format that cannot be written raises the dispatch error. The run directory is left behind, and no metadata, file or manifest entry is written |
| Store.SaveEnrich | src/simcache/store.py:60-70 | the stored metadata is the caller's, with run_id, arrays_format and arrays_path (the file name only) overriding; the manifest entry is its timestamp and tags |
| Store.SaveThenLoad | src/simcache/store.py:51-78 | `load` after a successful `save` returns the arrays and the enriched metadata |
| Store.SaveFrame | src/simcache/store.py:51-71 | `save` leaves every other run's directory, metadata, files and manifest entry as they were |
| Store.SaveIdempotent | src/simcache/store.py:51-71 | saving the same run twice leaves the store as saving it once |
| Store.SavedLoadable | src/simcache/store.py:51-71 | a saved run's metadata names the arrays file its codec wrote |
| Store.ConsistentLoad | src/simcache/store.py:73-78 | in a consistent store, every run with metadata loads its file's arrays |
| Store.SaveConsistent | src/simcache/store.py:51-71 | `save` keeps the store consistent, whether it succeeds or fails |
| Store.ManifestRecords | src/simcache/store.py:85-88 | one record per manifest entry, `{"run_id": id, **entry}`, in sorted id order |
| Store.FallbackRecords | src/simcache/store.py:91-105 | one record per run directory, in sorted order, from its metadata or the (None, []) placeholder |
| Store.ListRunsManifestOk | src/simcache/store.py:89-90 | with manifest runs, the listing succeeds exactly when the timestamps compare, and then it is their stable sort |
| Store.ListRunsManifestOrder | src/simcache/store.py:89-90 | the listing is a permutation sorted by timestamp; ties keep run id order (stable) |
| Store.ListRunsManifestMembers | src/simcache/store.py:85-90 | exactly the manifest's runs are listed; a directory missing from the manifest is not |
| Store.ListRunsManifestDistinct | src/simcache/store.py:85-90 | each run is listed once |
| Store.ListRunsFallback | src/simcache/store.py:91-105 | with an empty manifest, every run directory is listed once, in sorted order, with the timestamp and tags of its metadata or None and `[]` |
| Store.HasTag | src/simcache/store.py:110 | `tag in (tags or [])`: list membership; a non-iterable true value raises TypeError |
| Store.CandidatesSpec | src/simcache/store.py:108-111 | the candidates are exactly the listed runs whose tags hold the tag, in listing order: they are the records at an increasing list of indices that covers every tagged record |
| Store.LatestInListing | src/simcache/store.py:108-115 | the record `load_latest` picks is a tagged record of the listing, no tagged record has a greater timestamp, and none listed after it has an equal one |
| Store.CandidateLastInListing | src/simcache/store.py:108-115 | a candidate that no later candidate matches is a tagged record of the listing that no later tagged record matches |
| Store.CandidatesErrPrefix | src/simcache/store.py:109-111 | a tag search that fails on a prefix fails the same way on the whole listing |
| Store.LatestGreatest | src/simcache/store.py:114-115 | the chosen run has the greatest timestamp (None counts as ""); of several equal ones, it is the last |
| Store.LoadLatestNone | src/simcache/store.py:112-113 | no listed run with the tag gives None |
| Store.LoadLatestFound | src/simcache/store.py:107-115 | a returned run is a listed run with the tag, loaded, and no run with the tag has a later timestamp; of several with the greatest timestamp, it is the last in `list_runs` order |
| Store.SimCache.constructor | src/simcache/store.py:15-20 | the store opens over what its root holds |
| Store.SimCache.RunExists | src/simcache/store.py:48-49 | `run_exists` is whether the run directory is there |
| Store.SimCache.SaveArrays | src/simcache/store.py:130-157 | `_save_arrays` writes only that run's arrays file, named by the dispatch, or raises before writing |
| Store.SimCache.Save | src/simcache/store.py:51-71 | the new store and the result are `SaveSpec` of the old store |
| Store.SimCache.Info | src/simcache/store.py:80-82 | returns `InfoSpec` of the store |
| Store.SimCache.Load | src/simcache/store.py:73-78 | returns `LoadSpec` of the store |
| Store.SimCache.LoadManifest | src/simcache/store.py:182-185 | returns the manifest's runs, or none when it is missing |
| Store.SimCache.UpdateManifest | src/simcache/store.py:187-194 | the new store is `UpdateManifestSpec` of the old one |
| Store.SimCache.ListRuns | src/simcache/store.py:84-105 | returns `ListRunsSpec` of the store |
| Store.SimCache.ManifestListing | src/simcache/store.py:86-88 | the loop builds `ManifestRecords` |
| Store.SimCache.FallbackListing | src/simcache/store.py:91-105 | the loop builds `FallbackRecords` |
| Store.SimCache.LoadLatest | src/simcache/store.py:107-115 | returns `LoadLatestSpec` of the store |
| Store.SimCache.FilterTagged | src/simcache/store.py:108-111 | the loop builds `Candidates` |
| Cli.NormalizeResult | src/simcache/cli.py:34-43 | `_normalize_result` raises only TypeError |
| Cli.NormalizeResultCases | src/simcache/cli.py:34-43 | a 2-tuple of dicts splits into (arrays, extra); a lone dict is (result, {}); anything else raises TypeError |
| Cli.RunIdOf | src/simcache/cli.py:51 | the run id of JSON params is `compute_run_id`'s hex digest, which never fails |
| Cli.CmdRunSkip | src/simcache/cli.py:54-56 | an existing run without `--force` prints its id; nothing runs and nothing changes |
| Cli.CmdRunBadResult | src/simcache/cli.py:58-59 | a result of the wrong type raises TypeError with the store untouched |
| Cli.CmdRunLoads | src/simcache/cli.py:58-70 | a completed run exists and loads back under the printed id with the simulation's arrays |
| Cli.CmdRun | src/simcache/cli.py:46-71 | the new store, result and call flag are `CmdRunSpec` of the old store |
| Cli.SweepSettings | src/simcache/cli.py:106-110 | a str tags entry is wrapped in a list; the grid's format overrides `--format` |
| Cli.StepEffect | src/simcache/cli.py:115-130 | a step skips an existing run (skipped+1), or calls the simulation and, on success, leaves the run saved (executed+1); it never removes a run |
| Cli.ExecuteEffect | src/simcache/cli.py:119-130 | running a pair only adds run directories; a run that raises nothing is saved |
| Cli.SweepInvariant | src/simcache/cli.py:114-131 | the loop invariant: runs are only added; executed + skipped counts the pairs; calls are sweep pairs with new, distinct run ids |
| Cli.SweepCompletes | src/simcache/cli.py:112-131 | a completed sweep has executed + skipped == number of pairs, executed == number of calls, and every pair's run exists |
| Cli.SweepCallsOnce | src/simcache/cli.py:114-131 | the simulation runs only on pairs whose run did not exist before, never twice for one run id: a duplicate pair is skipped |
| Cli.SweepingStopped | src/simcache/cli.py:114-131 | an exception ends the loop: later pairs change nothing |
| Cli.ExecutePair | src/simcache/cli.py:119-130 | the method's store and error are `Execute` of the old store |
| Cli.SweepPair | src/simcache/cli.py:115-130 | one pass of the loop body is `Step` |
| Cli.CmdSweep | src/simcache/cli.py:100-133 | the method's store, counters, calls and error are `CmdSweepSpec` of the old store |
| Cli.JoinTags | src/simcache/cli.py:76 | `",".join(tags or [])`: str items joined by commas; a false value gives ""; a non-iterable raises TypeError |
| Cli.LsLine | src/simcache/cli.py:76-81 | a line exists exactly when the tags can be joined |
| Cli.LsLines | src/simcache/cli.py:75-82 | at most one line per record, and exactly one each when nothing raises |
| Cli.LsLinesSpec | src/simcache/cli.py:75-82 | line i is record i's line, until the first record whose tags cannot be joined, which raises |
| Cli.LsLineRunId | src/simcache/cli.py:77-78 | the run id is read back as the text before the first space; `-` follows it when there is no timestamp |
| Cli.LsLineTags | src/simcache/cli.py:76-81 | the whole line is `run_id + " " + (timestamp or "-")`, followed by `" [" + joined + "]"` exactly when the joined tags are not empty; comma-free tags split back out of it |
| Cli.JoinSplit | src/simcache/cli.py:76 | `",".join(ts).split(",") == ts` for comma-free tags |
| Cli.JoinEmpty | src/simcache/cli.py:76-80 | the joined tags are empty exactly when there are no tags or a single empty one |
| Cli.CmdLs | src/simcache/cli.py:74-83 | the lines printed and the error are `CmdLsSpec` of the store |

## Left out

- Floats and numpy:
  - the model has no floats, no numpy arrays and no numpy scalars;
  - an array is a sequence of integers;
  - the `np.ndarray`/`np.generic` branch of `_normalize` (`src/simcache/core.py:67-75`) is not modelled.
- SHA-256 is the parameter `sha`; only its output shape (64 lower-case hex digits) is used.
- Fingerprint, commit and clock are parameters:
  - `git_fingerprint`, `get_git_commit` and `collect_env` are not modelled (they run subprocesses or read the platform);
  - the code version and the environment are parameters;
  - so is the clock: one timestamp string for `run`, and a function of the call count for `sweep`.
- Files and printing:
  - JSON file I/O is replaced by the `Disk` value;
  - `metadata.json` and `manifest.json` hold what `json.load` would give back, with every object's keys sorted (`Store.Written`);
  - the indentation of the files is not modelled;
  - printed output is returned instead.
- Filesystem failures are not modelled: permissions, a corrupted JSON file, concurrent writers.
- Commands and helpers not modelled: `export`, `load_params_file`, `_load_mapping`, `_load_run_fn`, `cmd_info`, `cmd_export`, argparse and `main`, the package `__init__`, and the example scripts.
- Canonical.Normalize:
  - A set whose normalised elements are lists (from tuples) raises TypeError in the model. Python would sort those lists lexicographically.
  - A str with a lone surrogate cannot be written in the model's `string` type, so `errors="replace"` decoding never produces one.
- Canonical.MakeRunId: it is defined on JSON values only. `make_run_id` does not normalise, and `json.dumps` also accepts tuples (written as arrays) and int, bool and None keys (written as strings); those inputs are not modelled.
- Store.ListRunsSpec:
  - If the manifest holds two or more runs whose timestamps are all lists, the model raises TypeError. Python would compare the lists.
  - Two None timestamps, or a None and a str, raise TypeError, as `sorted` in `src/simcache/store.py:89-90` does: it cannot compare None.
- Store.Latest: timestamps that are all lists raise TypeError here too. Python would compare them.
- Store.PyStr: a list or dict is shown as `<list>` or `<dict>` rather than its repr. It only appears in error messages and `ls` lines.
- Store.LoadArrays:
  - An arrays file written by a different codec raises a ValueError with a message of the model's own. numpy, zarr and h5py raise their own exceptions.
  - A missing zarr store is reported as FileNotFound, although zarr raises its own exception class.
- Store.RunDir: a run id is treated as a single path component. Run ids are hex digests; ids containing `/` or `..` are not modelled.
- Sweep.Get: a key present twice takes its first value. Dicts loaded from JSON or YAML hold each key once.
- Grid and simulation results:
  - `cmd_sweep`'s grid is a dict (a list of fields). A grid file holding another top-level value is not modelled.
  - A Python dict returned by the simulation (`Cli.Output`'s `ODict`) is read as arrays when it is the first item and as metadata when it is the second.
- Cli.RunFn: the simulation is a pure function of its params and seed, so the model assumes it does not mutate the params dict it is given. In Python, `cmd_run` passes the same dict to the simulation and then to `build_metadata` (`src/simcache/cli.py:59-60`), and `iter_sweep` yields one dict per combination that every seed shares (`src/simcache/iterations.py:35`, `43-45`). A simulation that mutates it would store params that differ from the hashed ones, and later seeds would hash the mutated dict. Cli.SweepCompletes and Cli.CmdRunSpec hold only for a simulation that leaves its params alone.
- Store.SaveSpec / Cli.Output: metadata is always JSON with str keys, so the TypeError that `json.dump` in `_write_json` (`src/simcache/store.py:196-200`) raises on an unserialisable `extra` value, or on a non-str key it cannot sort, is not modelled. In Python that exception comes after `_save_arrays` has written the arrays file and part of `metadata.json`, and before the manifest update (`src/simcache/store.py:60-70`). `run_exists` is then true, so `cmd_run` reports a cached run that `load` and `info` cannot read.
- Cli.RunIdOf: params, seed and env are assumed to come from JSON (as `_load_mapping` and `collect_env` give them), so the run id always exists.
