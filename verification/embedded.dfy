/** `EmbeddedCephControl` (tests/ceph_ctl.py:77-143): one or more simulated
    clusters, each a `MinionSim` keyed by its cluster's fsid.  A simulator is
    an opaque handle here: the model records the arguments it was built with
    and what it reports (its fsid and minion fqdns), and every call the
    controller makes on it becomes a `SimCall` in the order it is made. */
module Embedded {
  import opened Py
  import opened Seqs
  import Decimal

  type Fsid = string

  /** Simulated OSDs per simulated server. */
  const OsdsPerHost: nat := 4

  /** Port of the first cluster's simulator; cluster `i` gets `BasePort + i`. */
  const BasePort: nat := 8761

  /** Seconds `go_dark` and `shutdown` wait for in-flight messages to drain. */
  const DrainSeconds: nat := 5

  /** `"cluster%d.com" % i`. */
  function Domain(i: nat): string
  {
    "cluster" + Decimal.NatToString(i) + ".com"
  }

  /** The cluster index can be read back from the digits of its domain. */
  lemma DomainReadBack(i: nat)
    ensures var d := Domain(i);
      11 < |d| && d[..7] == "cluster" && d[|d| - 4..] == ".com"
      && Decimal.AllDigits(d[7..|d| - 4]) && Decimal.ParseNat(d[7..|d| - 4]) == i
  {
    var d := Domain(i);
    assert d[7..|d| - 4] == Decimal.NatToString(i);
    Decimal.ParseNatToString(i);
  }

  /** The arguments of `MinionSim(config_dir, server_count, osds_per_host, port=…, domain=…)`. */
  datatype SimArgs = SimArgs(configDir: string, serverCount: int, osdsPerHost: nat, port: int, domain: string)

  /** A running simulator: how it was built, the fsid of its cluster and the
      fqdns of its minions. */
  datatype Sim = Sim(args: SimArgs, fsid: Fsid, minionFqdns: seq<string>)

  /** What the machine supplies and the controller cannot see into: the
      directory `mkdtemp` returns for cluster `i` of one `configure` call,
      and what a simulator
      built with given arguments reports. */
  datatype Machine = Machine(tempDir: nat -> string, fsidOf: SimArgs -> Fsid, minionsOf: SimArgs -> seq<string>)

  /** The controller's two dicts, `_config_dirs` and `_sims`. */
  datatype Control = Control(configDirs: map<Fsid, string>, sims: map<Fsid, Sim>)

  /** `EmbeddedCephControl()`: no clusters yet. */
  const Fresh: Control := Control(map[], map[])

  /** Every call the controller makes on a simulator, its cluster or the machine. */
  datatype SimCall =
    | StartSim(fsid: Fsid)                              // sim.start()
    | StopSim(fsid: Fsid)                               // sim.stop()
    | JoinSim(fsid: Fsid)                               // sim.join()
    | HaltMinion(fsid: Fsid, minionId: string)          // sim.halt_minion(minion_id)
    | StartMinion(fsid: Fsid, minionId: string)         // sim.start_minion(minion_id)
    | HaltMinions(fsid: Fsid)                           // sim.halt_minions()
    | StartMinions(fsid: Fsid)                          // sim.start_minions()
    | SetOsdState(fsid: Fsid, osdId: int, osdIn: int)   // sim.cluster.set_osd_state(osd_id, osd_in=…)
    | Sleep(seconds: nat)                               // time.sleep(…)
    | RemoveTree(dir: string)                           // shutil.rmtree(config_dir)

  // ---------------------------------------------------------------------
  // configure
  // ---------------------------------------------------------------------

  /** The simulator arguments for cluster `i`. */
  function ArgsFor(w: Machine, serverCount: int, i: nat): (a: SimArgs)
  {
    SimArgs(w.tempDir(i), serverCount, OsdsPerHost, BasePort + i, Domain(i))
  }

  /** The simulator built for cluster `i`. */
  function SimFor(w: Machine, serverCount: int, i: nat): (s: Sim)
  {
    var a := ArgsFor(w, serverCount, i);
    Sim(a, w.fsidOf(a), w.minionsOf(a))
  }

  /** Cluster `i` is the last of the first `n` to report its fsid, so its
      entries are the ones left in the dicts. */
  predicate LastWith(w: Machine, serverCount: int, i: nat, n: nat)
  {
    forall j :: i < j < n ==> SimFor(w, serverCount, j).fsid != SimFor(w, serverCount, i).fsid
  }

  /** How many times `range(0, cluster_count)` iterates. */
  function Clusters(clusterCount: int): (n: nat)
    ensures n == if clusterCount < 0 then 0 else clusterCount
  {
    if clusterCount < 0 then 0 else clusterCount
  }

  /** The fsids of the first `n` clusters built. */
  function NewFsids(w: Machine, serverCount: int, n: nat): set<Fsid>
  {
    set i | 0 <= i < n :: SimFor(w, serverCount, i).fsid
  }

  /** `_config_dirs[fsid] = config_dir; _sims[fsid] = sim`. */
  function Register(c: Control, sim: Sim): Control
  {
    Control(c.configDirs[sim.fsid := sim.args.configDir], c.sims[sim.fsid := sim])
  }

  /** Registering a simulator adds its fsid to both dicts, maps it to the
      simulator and its directory, and leaves every other entry alone. */
  lemma RegisterEntries(c: Control, sim: Sim)
    ensures var r := Register(c, sim);
      r.sims.Keys == c.sims.Keys + {sim.fsid} && r.configDirs.Keys == c.configDirs.Keys + {sim.fsid}
      && r.sims[sim.fsid] == sim && r.configDirs[sim.fsid] == sim.args.configDir
      && (forall f :: f in c.sims && f != sim.fsid ==> r.sims[f] == c.sims[f])
      && (forall f :: f in c.configDirs && f != sim.fsid ==> r.configDirs[f] == c.configDirs[f])
  {
  }

  /** The dicts after the first `n` clusters have been registered, in order. */
  function Registered(c: Control, w: Machine, serverCount: int, n: nat): Control
  {
    if n == 0 then c else Register(Registered(c, w, serverCount, n - 1), SimFor(w, serverCount, n - 1))
  }

  /** Registration adds exactly the new fsids as keys. */
  lemma {:induction false} RegisteredKeys(c: Control, w: Machine, serverCount: int, n: nat)
    ensures Registered(c, w, serverCount, n).sims.Keys == c.sims.Keys + NewFsids(w, serverCount, n)
    ensures Registered(c, w, serverCount, n).configDirs.Keys == c.configDirs.Keys + NewFsids(w, serverCount, n)
  {
    if n > 0 {
      RegisteredKeys(c, w, serverCount, n - 1);
      assert NewFsids(w, serverCount, n) == NewFsids(w, serverCount, n - 1) + {SimFor(w, serverCount, n - 1).fsid};
    }
  }

  /** The entry left under an fsid is the last cluster that reported it. */
  lemma {:induction false} RegisteredLast(c: Control, w: Machine, serverCount: int, n: nat, i: nat)
    requires i < n && LastWith(w, serverCount, i, n)
    ensures var s := SimFor(w, serverCount, i); var r := Registered(c, w, serverCount, n);
      s.fsid in r.sims && r.sims[s.fsid] == s && s.fsid in r.configDirs && r.configDirs[s.fsid] == s.args.configDir
  {
    if i < n - 1 {
      RegisteredLast(c, w, serverCount, n - 1, i);
    }
  }

  /** Entries under fsids no new cluster reported are left alone. */
  lemma {:induction false} RegisteredKeeps(c: Control, w: Machine, serverCount: int, n: nat, f: Fsid)
    requires f !in NewFsids(w, serverCount, n)
    ensures var r := Registered(c, w, serverCount, n);
      (f in c.sims ==> f in r.sims && r.sims[f] == c.sims[f])
      && (f in c.configDirs ==> f in r.configDirs && r.configDirs[f] == c.configDirs[f])
  {
    if n > 0 {
      assert SimFor(w, serverCount, n - 1).fsid in NewFsids(w, serverCount, n);
      assert NewFsids(w, serverCount, n - 1) <= NewFsids(w, serverCount, n);
      RegisteredKeeps(c, w, serverCount, n - 1, f);
    }
  }

  /** `configure(server_count, cluster_count)`: for each cluster index a
      fresh directory, a simulator on its own port and domain, both
      recorded under the simulator's fsid, then the simulator started. */
  method Configure(c: Control, w: Machine, serverCount: int, clusterCount: int)
    returns (c': Control, calls: seq<SimCall>)
    ensures |calls| == Clusters(clusterCount)
    ensures forall i :: 0 <= i < |calls| ==> calls[i] == StartSim(SimFor(w, serverCount, i).fsid)
    ensures c'.sims.Keys == c.sims.Keys + NewFsids(w, serverCount, Clusters(clusterCount))
    ensures c'.configDirs.Keys == c.configDirs.Keys + NewFsids(w, serverCount, Clusters(clusterCount))
    ensures forall i :: 0 <= i < Clusters(clusterCount) && LastWith(w, serverCount, i, Clusters(clusterCount)) ==>
      var s := SimFor(w, serverCount, i);
      c'.sims[s.fsid] == s && c'.configDirs[s.fsid] == s.args.configDir
    ensures forall f :: f in c.sims && f !in NewFsids(w, serverCount, Clusters(clusterCount)) ==> c'.sims[f] == c.sims[f]
    ensures forall f :: f in c.configDirs && f !in NewFsids(w, serverCount, Clusters(clusterCount)) ==>
      c'.configDirs[f] == c.configDirs[f]
  {
    var n := Clusters(clusterCount);
    c' := c;
    calls := [];
    var i := 0;
    while i < n
      invariant 0 <= i <= n
      invariant c' == Registered(c, w, serverCount, i)
      invariant |calls| == i
      invariant forall j :: 0 <= j < i ==> calls[j] == StartSim(SimFor(w, serverCount, j).fsid)
    {
      var sim := SimFor(w, serverCount, i);
      c' := Register(c', sim);
      calls := calls + [StartSim(sim.fsid)];
      i := i + 1;
    }
    RegisteredKeys(c, w, serverCount, n);
    forall i | 0 <= i < n && LastWith(w, serverCount, i, n)
      ensures var s := SimFor(w, serverCount, i); c'.sims[s.fsid] == s && c'.configDirs[s.fsid] == s.args.configDir
    {
      RegisteredLast(c, w, serverCount, n, i);
    }
    forall f | f !in NewFsids(w, serverCount, n)
      ensures f in c.sims ==> c'.sims[f] == c.sims[f]
      ensures f in c.configDirs ==> c'.configDirs[f] == c.configDirs[f]
    {
      RegisteredKeeps(c, w, serverCount, n, f);
    }
  }

  /** Different clusters get different ports and different domains. */
  lemma PortsAndDomainsDistinct(w: Machine, serverCount: int, i: nat, j: nat)
    requires i != j
    ensures ArgsFor(w, serverCount, i).port != ArgsFor(w, serverCount, j).port
    ensures ArgsFor(w, serverCount, i).domain != ArgsFor(w, serverCount, j).domain
  {
    var di, dj := Decimal.NatToString(i), Decimal.NatToString(j);
    if Domain(i) == Domain(j) {
      CancelAround("cluster", di, dj, ".com");
      Decimal.NatToStringInjective(i, j);
    }
  }

  // ---------------------------------------------------------------------
  // go_dark
  // ---------------------------------------------------------------------

  /** `go_dark(fsid, dark, minion_id)`: one halt or start call on the sim of
      `fsid` (for the one minion when `minion_id` is truthy, for all of them
      otherwise), then the drain sleep.  `KeyError` for an unknown fsid. */
  function GoDark(c: Control, fsid: Fsid, dark: bool, minionId: Option<string>): (r: Result<seq<SimCall>>)
    ensures r.Raise? <==> fsid !in c.sims
    ensures r.Raise? ==> r.exc == KeyError
    ensures r.Ok? ==> |r.value| == 2 && r.value[1] == Sleep(DrainSeconds)
    ensures r.Ok? ==>
      (r.value[0].HaltMinion? || r.value[0].StartMinion? || r.value[0].HaltMinions? || r.value[0].StartMinions?)
      && r.value[0].fsid == fsid
    ensures r.Ok? ==> (dark <==> r.value[0].HaltMinion? || r.value[0].HaltMinions?)
    ensures r.Ok? ==> (Truthy(minionId) <==> r.value[0].HaltMinion? || r.value[0].StartMinion?)
    ensures r.Ok? && Truthy(minionId) ==> r.value[0].minionId == minionId.value
  {
    if fsid !in c.sims then Raise(KeyError)
    else
      var call :=
        if Truthy(minionId) then
          (if dark then HaltMinion(fsid, minionId.value) else StartMinion(fsid, minionId.value))
        else
          (if dark then HaltMinions(fsid) else StartMinions(fsid));
      Ok([call, Sleep(DrainSeconds)])
  }

  /** The call that undoes a halt. */
  function Resume(call: SimCall): SimCall
  {
    match call
    case HaltMinion(f, m) => StartMinion(f, m)
    case HaltMinions(f) => StartMinions(f)
    case _ => call
  }

  /** Going dark and coming back with the same arguments make mutually
      inverse calls on the same simulator, and both fail alike. */
  lemma GoDarkUndo(c: Control, fsid: Fsid, minionId: Option<string>)
    ensures GoDark(c, fsid, true, minionId).Ok? == GoDark(c, fsid, false, minionId).Ok?
    ensures GoDark(c, fsid, true, minionId).Ok? ==>
      GoDark(c, fsid, false, minionId).value[0] == Resume(GoDark(c, fsid, true, minionId).value[0])
  {
  }

  /** `go_dark` never touches the dicts, so membership is unaffected. */
  lemma GoDarkKeepsFqdns(c: Control, fsid: Fsid, dark: bool, minionId: Option<string>)
    ensures GoDark(c, fsid, dark, minionId).Ok? <==> GetFqdns(c, fsid).Ok?
  {
  }

  // ---------------------------------------------------------------------
  // mark_osd_in
  // ---------------------------------------------------------------------

  /** `mark_osd_in(fsid, osd_id, osd_in)`: the membership flag is passed on
      to the cluster as `1` or `0`.  `KeyError` for an unknown fsid. */
  function MarkOsdIn(c: Control, fsid: Fsid, osdId: int, osdIn: bool): (r: Result<SimCall>)
    ensures r.Raise? <==> fsid !in c.sims
    ensures r.Raise? ==> r.exc == KeyError
    ensures r.Ok? ==> r.value.SetOsdState? && r.value.fsid == fsid && r.value.osdId == osdId
    ensures r.Ok? ==> (r.value.osdIn == 1 <==> osdIn) && (r.value.osdIn == 0 <==> !osdIn)
  {
    if fsid !in c.sims then Raise(KeyError) else Ok(SetOsdState(fsid, osdId, if osdIn then 1 else 0))
  }

  // ---------------------------------------------------------------------
  // get_fqdns / get_service_fqdns / get_server_fqdns
  // ---------------------------------------------------------------------

  /** `get_fqdns(fsid)`: the minion fqdns of that cluster's simulator. */
  function GetFqdns(c: Control, fsid: Fsid): (r: Result<seq<string>>)
    ensures r.Raise? <==> fsid !in c.sims
    ensures r.Raise? ==> r.exc == KeyError
    ensures r.Ok? ==> r.value == c.sims[fsid].minionFqdns
  {
    if fsid !in c.sims then Raise(KeyError) else Ok(c.sims[fsid].minionFqdns)
  }

  /** `get_service_fqdns(fsid, service_type)`: the answer of that cluster's
      own service lookup, `lookup`, which is not part of this model. */
  function GetServiceFqdns(c: Control, fsid: Fsid, serviceType: string, lookup: (Sim, string) -> seq<string>)
    : (r: Result<seq<string>>)
    ensures r.Raise? <==> fsid !in c.sims
    ensures r.Raise? ==> r.exc == KeyError
    ensures r.Ok? ==> r.value == lookup(c.sims[fsid], serviceType)
  {
    if fsid !in c.sims then Raise(KeyError) else Ok(lookup(c.sims[fsid], serviceType))
  }

  /** `order` is an iteration order of the keys of `m`: each key once. */
  predicate Enumerates<V>(order: seq<Fsid>, m: map<Fsid, V>)
  {
    (forall i :: 0 <= i < |order| ==> order[i] in m)
    && (forall f :: f in m ==> f in order)
    && (forall i, j :: 0 <= i < j < |order| ==> order[i] != order[j])
  }

  function MinionFqdnsOf(sims: map<Fsid, Sim>, order: seq<Fsid>): (parts: seq<seq<string>>)
    requires forall i :: 0 <= i < |order| ==> order[i] in sims
    ensures |parts| == |order| && forall i :: 0 <= i < |order| ==> parts[i] == sims[order[i]].minionFqdns
  {
    seq(|order|, i requires 0 <= i < |order| => sims[order[i]].minionFqdns)
  }

  /** `get_server_fqdns()`: the minion fqdns of every simulator, one
      simulator after another in the dict's iteration order `order`. */
  function GetServerFqdns(c: Control, order: seq<Fsid>): (r: seq<string>)
    requires Enumerates(order, c.sims)
    ensures |r| == Total(MinionFqdnsOf(c.sims, order))
    ensures forall x :: x in r <==> exists f :: f in c.sims && x in c.sims[f].minionFqdns
  {
    var parts := MinionFqdnsOf(c.sims, order);
    var r := Flatten(parts);
    assert forall x :: x in r ==> exists f :: f in c.sims && x in c.sims[f].minionFqdns by {
      forall x | x in r ensures exists f :: f in c.sims && x in c.sims[f].minionFqdns {
        var i :| 0 <= i < |parts| && x in parts[i];
        assert order[i] in c.sims;
      }
    }
    assert forall f :: f in c.sims ==> forall x :: x in c.sims[f].minionFqdns ==> x in r by {
      forall f, x | f in c.sims && x in c.sims[f].minionFqdns ensures x in r {
        var i :| 0 <= i < |order| && order[i] == f;
        assert x in parts[i];
      }
    }
    r
  }

  /** The fqdns of the `i`-th simulator in iteration order appear whole, in
      their own order, right after those of the simulators before it. */
  lemma ServerFqdnsPlaces(c: Control, order: seq<Fsid>, i: nat)
    requires Enumerates(order, c.sims) && i < |order|
    ensures var fqdns, at := c.sims[order[i]].minionFqdns, Total(MinionFqdnsOf(c.sims, order)[..i]);
      at + |fqdns| <= |GetServerFqdns(c, order)| && GetServerFqdns(c, order)[at..at + |fqdns|] == fqdns
  {
    FlattenPlaces(MinionFqdnsOf(c.sims, order), i);
  }

  /** Two iteration orders of the same keys are permutations of each other. */
  lemma EnumerationsArePermutations(o1: seq<Fsid>, o2: seq<Fsid>, sims: map<Fsid, Sim>)
    requires Enumerates(o1, sims) && Enumerates(o2, sims)
    ensures multiset(o1) == multiset(o2)
  {
    assert forall x :: x in o1 <==> x in o2;
    DistinctMultiset(o1);
    DistinctMultiset(o2);
  }

  /** A sequence without repetitions counts each of its elements once. */
  lemma {:induction false} DistinctMultiset(s: seq<Fsid>)
    requires forall i, j :: 0 <= i < j < |s| ==> s[i] != s[j]
    ensures forall x :: multiset(s)[x] == if x in s then 1 else 0
  {
    if |s| > 0 {
      DistinctMultiset(s[1..]);
      assert s == [s[0]] + s[1..];
      assert s[0] !in s[1..];
      forall x ensures multiset(s)[x] == if x in s then 1 else 0 {
        assert x in s <==> x == s[0] || x in s[1..];
      }
    }
  }

  /** The result of `get_server_fqdns` does not depend on the dict's
      iteration order beyond the order of its entries. */
  lemma ServerFqdnsOrderFree(c: Control, o1: seq<Fsid>, o2: seq<Fsid>)
    requires Enumerates(o1, c.sims) && Enumerates(o2, c.sims)
    ensures multiset(GetServerFqdns(c, o1)) == multiset(GetServerFqdns(c, o2))
  {
    EnumerationsArePermutations(o1, o2, c.sims);
    var f := (k: Fsid) => if k in c.sims then c.sims[k].minionFqdns else [];
    MapPermutation(f, o1, o2);
    assert MinionFqdnsOf(c.sims, o1) == Map(f, o1);
    assert MinionFqdnsOf(c.sims, o2) == Map(f, o2);
    FlattenPermutation(Map(f, o1), Map(f, o2));
  }

  // ---------------------------------------------------------------------
  // shutdown
  // ---------------------------------------------------------------------

  /** `shutdown()`: stop then join each simulator, in the iteration order
      `simOrder` of `_sims`; sleep; then remove each configuration directory,
      in the iteration order `dirOrder` of `_config_dirs`.  Neither dict is
      emptied: the controller's state is left as it was. */
  function Shutdown(c: Control, simOrder: seq<Fsid>, dirOrder: seq<Fsid>): (r: (Control, seq<SimCall>))
    requires forall i :: 0 <= i < |dirOrder| ==> dirOrder[i] in c.configDirs
    ensures r.0 == c
    ensures var calls := r.1; var n := 2 * |simOrder|;
      |calls| == n + 1 + |dirOrder|
      && (forall i :: 0 <= i < |simOrder| ==>
            calls[2 * i] == StopSim(simOrder[i]) && calls[2 * i + 1] == JoinSim(simOrder[i]))
      && calls[n] == Sleep(DrainSeconds)
      && (forall i :: 0 <= i < |dirOrder| ==> calls[n + 1 + i] == RemoveTree(c.configDirs[dirOrder[i]]))
  {
    (c, AroundSleep(StopJoin(simOrder), RemoveTrees(c.configDirs, dirOrder)))
  }

  /** The calls before the drain, the drain, then the calls after it. */
  function AroundSleep(before: seq<SimCall>, after: seq<SimCall>): (calls: seq<SimCall>)
    ensures |calls| == |before| + 1 + |after|
    ensures forall k :: 0 <= k < |before| ==> calls[k] == before[k]
    ensures calls[|before|] == Sleep(DrainSeconds)
    ensures forall i :: 0 <= i < |after| ==> calls[|before| + 1 + i] == after[i]
  {
    before + [Sleep(DrainSeconds)] + after
  }

  /** `sim.stop(); sim.join()` for each simulator in turn. */
  function StopJoin(order: seq<Fsid>): (calls: seq<SimCall>)
    ensures |calls| == 2 * |order|
    ensures forall i :: 0 <= i < |order| ==> calls[2 * i] == StopSim(order[i]) && calls[2 * i + 1] == JoinSim(order[i])
    ensures forall k :: 0 <= k < |calls| ==> calls[k].StopSim? || calls[k].JoinSim?
  {
    if |order| == 0 then []
    else
      var rest := StopJoin(order[1..]);
      var calls := [StopSim(order[0]), JoinSim(order[0])] + rest;
      assert forall i :: 1 <= i < |order| ==> calls[2 * i] == rest[2 * (i - 1)] && order[i] == order[1..][i - 1];
      calls
  }

  /** `shutil.rmtree(config_dir)` for each directory in turn. */
  function RemoveTrees(dirs: map<Fsid, string>, order: seq<Fsid>): (calls: seq<SimCall>)
    requires forall i :: 0 <= i < |order| ==> order[i] in dirs
    ensures |calls| == |order|
    ensures forall i :: 0 <= i < |order| ==> calls[i] == RemoveTree(dirs[order[i]])
  {
    seq(|order|, i requires 0 <= i < |order| => RemoveTree(dirs[order[i]]))
  }

  /** Every simulator is stopped and joined before any directory is removed,
      and every directory is removed. */
  lemma ShutdownStopsBeforeRemoving(c: Control, simOrder: seq<Fsid>, dirOrder: seq<Fsid>)
    requires Enumerates(simOrder, c.sims) && Enumerates(dirOrder, c.configDirs)
    ensures var calls := Shutdown(c, simOrder, dirOrder).1;
      (forall f :: f in c.sims ==> StopSim(f) in calls && JoinSim(f) in calls)
      && (forall f :: f in c.configDirs ==> RemoveTree(c.configDirs[f]) in calls)
      && (forall i, j :: 0 <= i < |calls| && 0 <= j < |calls| && calls[i].JoinSim? && calls[j].RemoveTree? ==> i < j)
  {
    var calls := Shutdown(c, simOrder, dirOrder).1;
    var stops := StopJoin(simOrder);
    var removes := RemoveTrees(c.configDirs, dirOrder);
    assert calls == AroundSleep(stops, removes);
    JoinsBeforeRemovals(stops, removes);
    StopsEverySim(c, simOrder, dirOrder);
    RemovesEveryDir(c, simOrder, dirOrder);
  }

  lemma StopsEverySim(c: Control, simOrder: seq<Fsid>, dirOrder: seq<Fsid>)
    requires forall i :: 0 <= i < |dirOrder| ==> dirOrder[i] in c.configDirs
    requires forall f :: f in c.sims ==> f in simOrder
    ensures var calls := Shutdown(c, simOrder, dirOrder).1;
      forall f :: f in c.sims ==> StopSim(f) in calls && JoinSim(f) in calls
  {
    var calls := Shutdown(c, simOrder, dirOrder).1;
    forall f | f in c.sims ensures StopSim(f) in calls && JoinSim(f) in calls {
      var i :| 0 <= i < |simOrder| && simOrder[i] == f;
      assert calls[2 * i] == StopSim(f);
      assert calls[2 * i + 1] == JoinSim(f);
    }
  }

  lemma RemovesEveryDir(c: Control, simOrder: seq<Fsid>, dirOrder: seq<Fsid>)
    requires forall i :: 0 <= i < |dirOrder| ==> dirOrder[i] in c.configDirs
    requires forall f :: f in c.configDirs ==> f in dirOrder
    ensures var calls := Shutdown(c, simOrder, dirOrder).1;
      forall f :: f in c.configDirs ==> RemoveTree(c.configDirs[f]) in calls
  {
    var calls := Shutdown(c, simOrder, dirOrder).1;
    forall f | f in c.configDirs ensures RemoveTree(c.configDirs[f]) in calls {
      var i :| 0 <= i < |dirOrder| && dirOrder[i] == f;
      assert calls[2 * |simOrder| + 1 + i] == RemoveTree(c.configDirs[f]);
    }
  }

  /** With only stops and joins before the drain and only removals after it,
      every join comes before every removal. */
  lemma JoinsBeforeRemovals(before: seq<SimCall>, after: seq<SimCall>)
    requires forall k :: 0 <= k < |before| ==> before[k].StopSim? || before[k].JoinSim?
    requires forall k :: 0 <= k < |after| ==> after[k].RemoveTree?
    ensures var calls := AroundSleep(before, after);
      forall i, j :: 0 <= i < |calls| && 0 <= j < |calls| && calls[i].JoinSim? && calls[j].RemoveTree? ==> i < j
  {
    var calls := AroundSleep(before, after);
    forall k | |before| < k < |calls| ensures calls[k].RemoveTree? {
      assert calls[k] == after[k - |before| - 1];
    }
  }
}
