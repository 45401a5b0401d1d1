# Ceph test controllers of calamari, modelled in Dafny

calamari's integration tests drive Ceph clusters through a `CephControl`
object (`tests/ceph_ctl.py`), which has two implementations:

* `EmbeddedCephControl` builds one or more simulated clusters. Each one is a
  `MinionSim` keyed by the cluster's fsid. The controller starts them, stops
  them, takes minions off the network and flips OSDs in and out.
* `ExternalCephControl` drives one fixed real deployment (three `ubuntu@mira…`
  hosts) over ssh. Before it hands the cluster to a test, `configure` waits on
  three status checks, which parse the text of `ceph osd stat`,
  `ceph osd lspools` and `ceph pg stat`.

The model keeps the controllers' own logic and turns everything around it
into data:

* Remote execution is a function from the shell line to the text it prints.
* A simulator is an opaque handle that records how it was built and what it
  reports.
* Each call a controller makes on a simulator is an entry in a call list.
* A Python 2 dict's unspecified iteration order is an explicit parameter,
  and the properties about it are proved for every order.

Modules, one per file:

| file | module | what it holds |
|---|---|---|
| `py.dfy` | `Py` | `None`, raised exceptions (`IndexError`, `KeyError`, `AssertionError`), truthiness of a string |
| `seqs.dfy` | `Seqs` | list comprehension (`Map`), `chain` (`Flatten`), and their behaviour under reordering |
| `text.dfy` | `PyText` | `str.replace`, `str.split(sep)`, `str.split()`, `str.strip()` with their inverses |
| `decimal.dfy` | `Decimal` | `%d` rendering of integers and reading it back |
| `status.dfy` | `Status` | the three status checks, with three outcomes: `Converged`, `NotConverged`, `Crashed` |
| `targets.dfy` | `Targets` | the external target map, `_get_admin_node`, `get_server_fqdns` |
| `external.dfy` | `External` | external `configure` (shape guard and probes), `mark_osd_in`, `get_fqdns`, `get_service_fqdns` |
| `embedded.dfy` | `Embedded` | embedded `configure`, `go_dark`, `mark_osd_in`, the fqdn queries, `shutdown` |
| `backends.dfy` | `Backends` | the two implementations side by side |
| `scenarios.dfy` | `Scenarios` | concrete status lines and the checks' verdicts on them |

A status check in the source returns a bool, but it can also raise. It
catches only `ValueError`, which is the error for a wrong number of fields
when unpacking. A field with no token makes `x.split()[0]` or
`pg_stat.split()[1]` raise `IndexError`, and nothing catches that. So the
model's checks return `Converged` (True), `NotConverged` (False) or
`Crashed` (the `IndexError` escapes).

`_wait_for_state` captures the command's output once and hands
`wait_until_true` a predicate over that one string. `wait_until_true` lives
in `tests/utils.py`, which is not part of this model. The model assumes
what that structure implies:

* a `Converged` verdict ends the wait;
* `NotConverged` can never change, so the wait ends in a timeout error;
* `Crashed` lets the `IndexError` out of `configure`.

## Model

| member | source | states |
|---|---|---|
| PyText.Split | tests/ceph_ctl.py:228 | `s.split(sep)` keeps empty pieces: the pieces are never empty as a list, contain no separator, join back to `s`, and there is exactly one piece iff `s` holds no separator |
| PyText.SplitJoin | tests/ceph_ctl.py:238 | splitting recovers any list of separator-free pieces from their join, so `Split` is the unique such decomposition |
| PyText.SplitCons | tests/ceph_ctl.py:198 | a separator-free prefix followed by the separator is split off as the first piece |
| PyText.Replace | tests/ceph_ctl.py:238 | `replace` keeps the length, substitutes exactly the occurrences of the old character, and leaves none behind |
| PyText.Words | tests/ceph_ctl.py:229 | `s.split()` yields non-empty whitespace-free words, and none exactly when `s` is blank |
| PyText.WordsUnwords | tests/ceph_ctl.py:229 | `Words` undoes `" ".join` for non-empty whitespace-free words |
| PyText.WordsCons | tests/ceph_ctl.py:238 | a word after blank text is the first word, followed by the words of the rest |
| Seqs.Map | tests/ceph_ctl.py:198 | a list comprehension has one result per element, in order, each the function applied to that element |
| Seqs.Flatten | tests/ceph_ctl.py:116 | `chain` is as long as the lists it joins put together, and contains exactly their elements |
| Seqs.FlattenSingle | tests/ceph_ctl.py:116 | `chain` of one list is that list; with `FlattenConcat` this makes `chain` concatenation |
| Seqs.FlattenConcat | tests/ceph_ctl.py:116 | `chain` of two runs of lists is the `chain` of the first followed by the `chain` of the second |
| Seqs.FlattenPlaces | tests/ceph_ctl.py:116 | each list appears whole and in its own order in the `chain`, right after the lists before it |
| PyText.Strip | tests/ceph_ctl.py:216 | `strip()` returns the text between the leading and trailing whitespace, which is itself trimmed, and `""` exactly for blank input |
| PyText.StripPadded | tests/ceph_ctl.py:216 | stripping a trimmed core padded with blanks gives the core back |
| Decimal.ParseNatToString | tests/ceph_ctl.py:89 | reading back the `%d` digits of a natural number gives the number |
| Decimal.IntToStringRoundTrip | tests/ceph_ctl.py:263 | reading back the decimal rendering of `int(osd_id)` gives the integer, including negatives |
| Decimal.IntToStringInjective | tests/ceph_ctl.py:263 | distinct osd ids render as distinct text |
| Status.CheckDefaultPoolsOnly | tests/ceph_ctl.py:214-217 | the pools check never raises and refuses `None` and `""` |
| Status.DefaultPoolsExactly | tests/ceph_ctl.py:214-217 | the pools check accepts a string iff it is `0 data,1 metadata,2 rbd,` with only whitespace around it |
| Status.ExtraPoolRefused | tests/ceph_ctl.py:216 | any non-blank text after the default pools, such as a fourth pool, is refused |
| Status.DefaultPoolsPadded | tests/ceph_ctl.py:216 | the default list with any surrounding whitespace is accepted |
| Status.FirstWord | tests/ceph_ctl.py:238 | `x.split()[0]` is the non-empty run of non-whitespace that follows the leading whitespace and ends at whitespace or at the end of `x` |
| Status.FieldPieces | tests/ceph_ctl.py:238 | `s.replace(alt, ':').split(':')` (`alt` is `,` for the osd line, `;` for the pg line at :228) cuts the line at every `:` and every `alt`: no piece holds either, the pieces joined by `:` give the line with `alt` read as `:`, and there is one piece iff the line has neither |
| Status.CheckOsdUpAndIn | tests/ceph_ctl.py:235-243 | the osd check refuses empty output; it raises exactly when some `:`-piece (after `,`→`:`) is blank; it accepts exactly when there are four non-blank pieces whose 2nd, 3rd and 4th first tokens are the same text |
| Status.OsdStatVerdict | tests/ceph_ctl.py:238-239 | on a well-formed `<head>: <t> osds: <u> up, <i> in` line the check accepts iff `t`, `u` and `i` are the same text |
| Status.OsdStatCounts | tests/ceph_ctl.py:238-239 | on a line with decimal counts the check accepts iff total, up and in are equal numbers |
| Status.CheckPgsActiveAndClean | tests/ceph_ctl.py:225-233 | the pg check refuses empty output and any line not of four `:`-pieces (after `;`→`:`); it accepts exactly when the third piece's second token is `active+clean` and its first token equals the second piece's first token; it raises exactly when the third piece has fewer than two tokens, or when the state is `active+clean` but the second piece is blank |
| Status.PgStatVerdict | tests/ceph_ctl.py:228-229 | on a well-formed `<head>: <t> pgs: <n> <state>; <usage>` line the check accepts iff the state is `active+clean` and `n` is the same text as `t` |
| Status.PgStatCounts | tests/ceph_ctl.py:228-229 | on a line with decimal counts the check accepts iff every placement group is `active+clean` |
| Status.FourPieces | tests/ceph_ctl.py:228 | a four-field line whose third separator is `,` or `;` splits into exactly its fields after the replacement |
| Targets.AdminNode | tests/ceph_ctl.py:251-254 | `_get_admin_node` returns the name of a target whose roles contain `client.0`, and `None` exactly when no target has that role |
| Targets.AdminNodeOrderFree | tests/ceph_ctl.py:252 | with at most one admin target, the admin node does not depend on the dict's iteration order |
| Targets.SepiaAdmin | tests/ceph_ctl.py:153-164 | the loaded configuration has one admin target, `ubuntu@mira002.front.sepia.ceph.com` |
| Targets.Host | tests/ceph_ctl.py:198 | `name.split('@')[1]` exists iff the name contains `@`, and is free of `@` |
| Targets.HostOf | tests/ceph_ctl.py:198 | the host of a name is the text between its first and second `@`: `user@host` and `user@host@…` both give `host` |
| Targets.ServerFqdns | tests/ceph_ctl.py:197-198 | `get_server_fqdns` succeeds iff every target has an `@`, otherwise raises `IndexError`; on success it has one entry per target, that target's host |
| Targets.ServerFqdnsOrderFree | tests/ceph_ctl.py:198 | any iteration order of the same targets fails alike, or gives the same hosts in another order |
| Targets.SepiaFqdns | tests/ceph_ctl.py:153-164 | the loaded configuration yields its three hosts, which are distinct |
| External.ShellLineInjective | tests/ceph_ctl.py:221 | the command can be read back from `ssh {node} "{command}"`: for one node, distinct commands give distinct lines |
| External.NoneNodeLine | tests/ceph_ctl.py:221 | with no admin node `format` renders the node as `None`, the same line as for a target called `None` |
| External.AwaitAll | tests/ceph_ctl.py:219-223 | waiting on the probes never reports a shape error, issues at most one line per probe, and issues at least one when there is a probe |
| External.AwaitAllPrefix | tests/ceph_ctl.py:183-189 | the lines issued are the probes' ssh lines in order, up to where the run stopped |
| External.AwaitAllReady | tests/ceph_ctl.py:219-223 | a run of probes completes iff every probe's check converges on its captured output, and then every probe was issued |
| External.AwaitAllStops | tests/ceph_ctl.py:219-223 | a run that stops names the last probe issued; its check did not converge (timeout) or raised, and every earlier probe converged |
| External.Configure | tests/ceph_ctl.py:168-189 | `configure` rejects every shape but 3 servers and 1 cluster, before issuing any command; it completes iff the osd, pools and pg checks all converge on the admin node's output, after issuing exactly the three probe lines |
| External.HealthyClusterConfigures | tests/ceph_ctl.py:182-189 | a cluster with equal osd counts, only the default pools and all placement groups `active+clean` lets `configure` finish after the three probes |
| External.OsdOutStopsConfigure | tests/ceph_ctl.py:183 | one osd out makes `configure` stop with a timeout after the first probe |
| External.OsdVerb | tests/ceph_ctl.py:258-260 | the verb is `in` exactly when `osd_in` is true, `out` otherwise |
| External.MarkOsdIn | tests/ceph_ctl.py:256-263 | `mark_osd_in` sends `ceph osd in <id>` to the admin node when `osd_in` is true, and `ceph osd out <id>` otherwise, whatever the fsid |
| External.MarkOsdInInjective | tests/ceph_ctl.py:263 | two `mark_osd_in` lines are equal iff they name the same osd and the same direction |
| External.GetFqdns | tests/ceph_ctl.py:207-209 | `get_fqdns` is the target hosts, one per target, for any fsid; it fails exactly when some target has no `@`, and then with `IndexError` |
| External.GetServiceFqdns | tests/ceph_ctl.py:200-202 | `get_service_fqdns` is the target hosts, one per target, for any fsid and service type; it fails exactly when some target has no `@`, and then with `IndexError` |
| External.SepiaServiceFqdns | tests/ceph_ctl.py:200-209 | for the loaded configuration both queries give its three hosts, whatever the fsid or service type |
| Embedded.Configure | tests/ceph_ctl.py:85-95 | `configure` starts one simulator per cluster index, in order; the dicts gain exactly the reported fsids; each fsid maps to the last cluster that reported it, with its directory; other entries are untouched |
| Embedded.DomainReadBack | tests/ceph_ctl.py:89 | the domain of cluster `i` is `cluster<digits>.com` and its digits read back as `i` |
| Embedded.RegisterEntries | tests/ceph_ctl.py:93-94 | registering a simulator adds its fsid to both dicts, maps it to the simulator and its directory, and leaves every other entry alone |
| Embedded.RegisteredLast | tests/ceph_ctl.py:93-94 | after registration each fsid maps to the last simulator that reported it |
| Embedded.RegisteredKeeps | tests/ceph_ctl.py:93-94 | registration leaves entries under other fsids unchanged |
| Embedded.RegisteredKeys | tests/ceph_ctl.py:93-94 | registration adds exactly the reported fsids as keys of both dicts |
| Embedded.PortsAndDomainsDistinct | tests/ceph_ctl.py:89-91 | different cluster indices get different ports and different domains |
| Embedded.GoDark | tests/ceph_ctl.py:121-137 | `go_dark` raises `KeyError` exactly for an unknown fsid; otherwise it makes one call on that fsid's simulator, then sleeps 5 seconds; the call is a halt iff `dark`, and targets one minion, the given one, iff `minion_id` is truthy |
| Embedded.GoDarkUndo | tests/ceph_ctl.py:122-131 | going dark and coming back with the same arguments make mutually inverse calls and fail alike |
| Embedded.GoDarkKeepsFqdns | tests/ceph_ctl.py:121-140 | `go_dark` fails exactly when `get_fqdns` does: it neither adds nor drops a cluster |
| Embedded.MarkOsdIn | tests/ceph_ctl.py:118-119 | `mark_osd_in` raises `KeyError` exactly for an unknown fsid; otherwise it passes the osd id on, with flag 1 iff `osd_in` and 0 otherwise |
| Embedded.GetFqdns | tests/ceph_ctl.py:139-140 | `get_fqdns` raises `KeyError` exactly for an unknown fsid, otherwise gives that simulator's minion fqdns |
| Embedded.GetServiceFqdns | tests/ceph_ctl.py:142-143 | `get_service_fqdns` raises `KeyError` exactly for an unknown fsid, otherwise passes the cluster's own answer on |
| Embedded.GetServerFqdns | tests/ceph_ctl.py:115-116 | `get_server_fqdns` contains exactly the minion fqdns of all simulators, and is as long as their lists put together |
| Embedded.ServerFqdnsPlaces | tests/ceph_ctl.py:116 | each simulator's fqdns appear whole and in their own order, right after those of the simulators before it in iteration order |
| Embedded.ServerFqdnsOrderFree | tests/ceph_ctl.py:116 | every iteration order of the simulators gives the same fqdns in another order |
| Embedded.Shutdown | tests/ceph_ctl.py:97-113 | `shutdown` stops and then joins each simulator, sleeps 5 seconds, then removes each configuration directory, and leaves both dicts as they were |
| Embedded.StopJoin | tests/ceph_ctl.py:100-102 | each simulator gets `stop()` then `join()`, in iteration order, before the next one, and nothing else is called |
| Embedded.RemoveTrees | tests/ceph_ctl.py:112-113 | one `rmtree` per fsid in iteration order, of that fsid's configuration directory |
| Embedded.ShutdownStopsBeforeRemoving | tests/ceph_ctl.py:100-113 | every simulator is stopped and joined, and every directory removed; no directory is removed before every join |
| Backends.GoDark | tests/ceph_ctl.py:63-68 | `go_dark` on the external backend makes no call and cannot fail; only the embedded one raises, and only for an fsid it does not own |
| Backends.MarkOsdInAgrees | tests/ceph_ctl.py:118-119 | the embedded controller passes flag 1 exactly when the external one sends `ceph osd in <id>` |
| Scenarios.NewlineCrashesOsdCheck | tests/ceph_ctl.py:238 | a lone newline makes the osd check raise `IndexError` |
| Scenarios.HeadlessOsdStatRefused | tests/ceph_ctl.py:238-241 | `<t> osds: <u> up, <i> in` without the `osdmap` field is refused whatever the counts, because it has only three pieces |
| Scenarios.PaddedCountRefused | tests/ceph_ctl.py:239 | a total of `03` is not the same count as `3` |
| Scenarios.ThreeOsdsUpAndIn | tests/ceph_ctl.py:238-239 | `     osdmap e3: 3 osds: 3 up, 3 in` is accepted |
| Scenarios.OneOsdOut | tests/ceph_ctl.py:238-239 | `     osdmap e3: 3 osds: 3 up, 2 in` is refused |
| Scenarios.CustomPoolRefused | tests/ceph_ctl.py:216 | the default pools followed by `3 custom,` are refused |
| Scenarios.ReorderedPoolsRefused | tests/ceph_ctl.py:216 | the default pools in another order are refused |
| Scenarios.DefaultPoolsLine | tests/ceph_ctl.py:216 | the pools line with its trailing newline is accepted |
| Scenarios.BlankPgStateCrashes | tests/ceph_ctl.py:229 | a pg line with an empty state field makes the pg check raise `IndexError` |

## Left out

- `minion-sim/minion_sim/sim.py` and the `MinionSim`/`CephCluster` internals are not modelled. They cover argparse, the XML-RPC server, minion threads, fsid generation, OSD state and service lookup. A simulator is an opaque handle, and what it reports (fsid, minion fqdns, service answers) is a parameter.
- The base `CephControl` methods that raise `NotImplementedError` are not modelled, because neither implementation reaches them.
- `Popen` and ssh, `print proc.communicate()`, `_bootstrap` and logging are remote shell I/O and are not modelled. The model keeps only the shell line a call would run.
- `time.sleep(5)` is recorded as a `Sleep` call at its place in the order. Its timing is not modelled.
- The `psutil` listing of lingering processes is not modelled. `tempfile.mkdtemp` is a parameter: the directory returned for cluster `i` of one `configure` call. A second `configure` would get the same directories again, whereas `mkdtemp` always makes a fresh one. `shutil.rmtree` is recorded as a call. None of them touches the filesystem in the model.
- `wait_until_true` (`tests/utils.py`) is not part of this model. Its timeout is the `TimedOut` outcome. Re-polling is not modelled, because the captured output never changes.
- `yaml.load` is not modelled. The loaded map is given as data (`Targets.SepiaTargets`), with the dict's iteration order as a parameter.
- External `shutdown` and `go_dark` are `pass`, so they have no behaviour to model beyond "no call, no failure" (`Backends.GoDark`).
- Embedded.GetServerFqdns: the contract states the concatenation of the simulators' lists, not "one fqdn per requested server, all distinct", because what each simulator reports depends on `MinionSim`, which is not part of this model.
- External.MarkOsdIn: the osd id is modelled as an integer, so `int(osd_id)` is the identity. A string or float id, `int()` truncating a float, and `int()` raising `ValueError` are not modelled. Nor is the difference from the embedded backend, which passes the id on unconverted (`"07"` reaches `set_osd_state` as `"07"` but is sent as `7`).
- Embedded.MarkOsdIn: the contract states the call the controller makes. Whether the call is idempotent depends on `CephCluster.set_osd_state`, which is not part of this model.
- Embedded.Configure: `server_count` is passed through unchecked, as in the source. Failures of `mkdtemp` or of the simulator start are not modelled.
- External.Configure: `fsid = 12345` appears only in a log message and in an unused `_get_admin_node` argument, so it is not modelled.

## Notes on the source

- Parse failures. Both status checks catch `ValueError` and log that the format "may have changed" (tests/ceph_ctl.py:230-231 and :240-241), which shows they are meant to survive an unexpected format. A blank field still makes `split()[0]` or `split()[1]` raise `IndexError`, which is not caught and escapes `configure` (`Scenarios.NewlineCrashesOsdCheck`, `Scenarios.BlankPgStateCrashes`). The model follows the code: such a check ends in `Crashed`.
- Embedded `shutdown`. Its docstring (tests/ceph_ctl.py:50-53) says the cluster will not be used further and should be torn down. The code stops the simulators and removes their directories but never empties `_sims` or `_config_dirs`, so the `_sims[fsid]` lookup in `get_fqdns` still succeeds after `shutdown` (`Embedded.Shutdown` returns the state unchanged).
- Single capture. `_wait_for_state` captures the output once (tests/ceph_ctl.py:222) and polls the check on that same string (:223). A check that fails once fails on every poll, so the model ends the run with `TimedOut` at the first refusal.
- The osd check needs the leading `osdmap eN:` field: a line such as `3 osds: 3 up, 3 in` has three pieces and is refused (`Scenarios.HeadlessOsdStatRefused`), while `osdmap e3: 3 osds: 3 up, 3 in` is accepted (`Scenarios.ThreeOsdsUpAndIn`).
