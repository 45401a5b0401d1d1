/** `ExternalCephControl` (tests/ceph_ctl.py:146-265): the controller that
    drives a real cluster over ssh.  Remote execution is a parameter `run`
    from the shell line to the text the command prints; the controller's own
    logic is which lines it issues, in which order, and what it concludes. */
module External {
  import opened Py
  import opened Status
  import opened Targets
  import Decimal
  import opened Seqs

  // ---------------------------------------------------------------------
  // Shell lines
  // ---------------------------------------------------------------------

  /** `str(node)` as `format` renders it: the target name, or `None`. */
  function NodeText(node: Option<string>): string
  {
    match node
    case None => "None"
    case Some(n) => n
  }

  /** `'ssh {node} "{command}"'`. */
  function ShellLine(node: Option<string>, command: string): string
  {
    "ssh " + NodeText(node) + " \"" + command + "\""
  }

  /** The command can be read back from the line: for one node, distinct
      commands give distinct lines. */
  lemma ShellLineInjective(node: Option<string>, c1: string, c2: string)
    ensures ShellLine(node, c1) == ShellLine(node, c2) ==> c1 == c2
  {
    if ShellLine(node, c1) == ShellLine(node, c2) {
      CancelAround("ssh " + NodeText(node) + " \"", c1, c2, "\"");
    }
  }

  /** With no admin node the line names `None`, the same line as for a
      target called `None`. */
  lemma NoneNodeLine(command: string)
    ensures ShellLine(None, command) == ShellLine(Some("None"), command)
  {
  }

  /** The remote cluster as seen from the controller: the standard output of
      a shell line. */
  type Remote = string -> string

  // ---------------------------------------------------------------------
  // configure
  // ---------------------------------------------------------------------

  /** The three status probes `configure` waits on, in their order. */
  datatype Probe = OsdStat | LsPools | PgStat

  const Probes: seq<Probe> := [OsdStat, LsPools, PgStat]

  function ProbeCommand(p: Probe): string
  {
    match p
    case OsdStat => "ceph osd stat"
    case LsPools => "ceph osd lspools"
    case PgStat => "ceph pg stat"
  }

  /** The check `configure` pairs with each probe. */
  function ProbeVerdict(p: Probe, output: string): Verdict
  {
    match p
    case OsdStat => CheckOsdUpAndIn(Some(output))
    case LsPools => CheckDefaultPoolsOnly(Some(output))
    case PgStat => CheckPgsActiveAndClean(Some(output))
  }

  /** How `configure` ends. */
  datatype Outcome =
    | Ready                       // every probe converged
    | ShapeRejected               // `assert server_count == 3` / `cluster_count == 1` failed
    | TimedOut(probe: Probe)      // the captured output never satisfies the check
    | CheckRaised(probe: Probe)   // the check raised `IndexError`, which escapes

  /** The shell lines issued, in order, and the outcome. */
  datatype Configured = Configured(issued: seq<string>, outcome: Outcome)

  /** The line for each probe, sent to `node`. */
  function ProbeLines(node: Option<string>, probes: seq<Probe>): (lines: seq<string>)
    ensures |lines| == |probes|
    ensures forall i :: 0 <= i < |probes| ==> lines[i] == ShellLine(node, ProbeCommand(probes[i]))
  {
    if |probes| == 0 then [] else [ShellLine(node, ProbeCommand(probes[0]))] + ProbeLines(node, probes[1..])
  }

  /** The probe's check on the output of its line. */
  function Observe(node: Option<string>, p: Probe, run: Remote): Verdict
  {
    ProbeVerdict(p, run(ShellLine(node, ProbeCommand(p))))
  }

  /** `_wait_for_state` for each probe in turn, `observe` giving the
      verdict of the check on the probe's captured output: the output is
      captured once and judged once, and the first probe that does not
      converge ends the run. */
  function AwaitAll(node: Option<string>, probes: seq<Probe>, observe: Probe -> Verdict): (c: Configured)
    ensures c.outcome != ShapeRejected
    ensures |c.issued| <= |probes|
    ensures |probes| > 0 ==> |c.issued| > 0
  {
    if |probes| == 0 then Configured([], Ready)
    else
      var line := ShellLine(node, ProbeCommand(probes[0]));
      match observe(probes[0])
      case Converged =>
        var rest := AwaitAll(node, probes[1..], observe);
        Configured([line] + rest.issued, rest.outcome)
      case NotConverged => Configured([line], TimedOut(probes[0]))
      case Crashed => Configured([line], CheckRaised(probes[0]))
  }

  /** The lines issued are the probes' lines, in order, up to where the
      run stopped. */
  lemma {:induction false} AwaitAllPrefix(node: Option<string>, probes: seq<Probe>, observe: Probe -> Verdict)
    ensures var c := AwaitAll(node, probes, observe);
      c.issued == ProbeLines(node, probes)[..|c.issued|]
  {
    if |probes| > 0 && observe(probes[0]) == Converged {
      AwaitAllPrefix(node, probes[1..], observe);
      assert ProbeLines(node, probes) == [ShellLine(node, ProbeCommand(probes[0]))] + ProbeLines(node, probes[1..]);
    }
  }

  /** The run completes exactly when every probe converges, and then every
      probe was issued. */
  lemma {:induction false} AwaitAllReady(node: Option<string>, probes: seq<Probe>, observe: Probe -> Verdict)
    ensures var c := AwaitAll(node, probes, observe);
      (c.outcome == Ready <==> forall i :: 0 <= i < |probes| ==> observe(probes[i]) == Converged)
      && (c.outcome == Ready ==> |c.issued| == |probes|)
  {
    if |probes| > 0 {
      AwaitAllReady(node, probes[1..], observe);
      assert forall i :: 1 <= i < |probes| ==> probes[i] == probes[1..][i - 1];
    }
  }

  /** A run that stops names the last probe issued, whose check did not
      converge, after every earlier probe converged. */
  lemma {:induction false} AwaitAllStops(node: Option<string>, probes: seq<Probe>, observe: Probe -> Verdict)
    ensures var c := AwaitAll(node, probes, observe);
      var k := |c.issued| - 1;
      c.outcome != Ready ==>
        0 <= k < |probes|
        && (forall i :: 0 <= i < k ==> observe(probes[i]) == Converged)
        && (c.outcome == TimedOut(probes[k]) <==> observe(probes[k]) == NotConverged)
        && (c.outcome == CheckRaised(probes[k]) <==> observe(probes[k]) == Crashed)
  {
    if |probes| > 0 && observe(probes[0]) == Converged {
      AwaitAllStops(node, probes[1..], observe);
      assert forall i :: 1 <= i < |probes| ==> probes[i] == probes[1..][i - 1];
    }
  }

  /** The three probes of `configure` complete exactly when all three converge. */
  lemma AwaitProbes(node: Option<string>, observe: Probe -> Verdict)
    ensures var c := AwaitAll(node, Probes, observe);
      (c.outcome == Ready <==>
        observe(OsdStat) == Converged && observe(LsPools) == Converged && observe(PgStat) == Converged)
      && (c.outcome == Ready ==> c.issued == ProbeLines(node, Probes))
  {
    AwaitAllReady(node, Probes, observe);
    AwaitAllPrefix(node, Probes, observe);
    assert forall i :: 0 <= i < 3 ==> Probes[i] == OsdStat || Probes[i] == LsPools || Probes[i] == PgStat;
    assert Probes[0] == OsdStat && Probes[1] == LsPools && Probes[2] == PgStat;
  }

  /** `configure(server_count, cluster_count)`: the shape guard, then the
      three probes against the admin node. */
  function Configure(m: TargetMap, serverCount: int, clusterCount: int, run: Remote): (c: Configured)
    ensures (serverCount != 3 || clusterCount != 1) <==> c.outcome == ShapeRejected
    ensures c.outcome == ShapeRejected ==> c.issued == []
    ensures c.outcome == Ready <==>
      serverCount == 3 && clusterCount == 1
      && Observe(AdminNode(m), OsdStat, run) == Converged
      && Observe(AdminNode(m), LsPools, run) == Converged
      && Observe(AdminNode(m), PgStat, run) == Converged
    ensures c.outcome == Ready ==> c.issued == ProbeLines(AdminNode(m), Probes)
  {
    if serverCount != 3 || clusterCount != 1 then Configured([], ShapeRejected)
    else
      var node := AdminNode(m);
      var observe := p => Observe(node, p, run);
      AwaitProbes(node, observe);
      AwaitAll(node, Probes, observe)
  }

  /** A cluster that reports equal osd counts, only the default pools and
      every placement group `active+clean` lets `configure` finish, after
      exactly the three probes. */
  lemma HealthyClusterConfigures(m: TargetMap, run: Remote, epoch: nat, osds: nat,
                                 version: nat, pgs: nat, usage: string)
    requires ':' !in usage && ';' !in usage
    requires run(ShellLine(AdminNode(m), "ceph osd stat")) ==
      OsdStatText(OsdMapHead(epoch), Decimal.NatToString(osds), Decimal.NatToString(osds), Decimal.NatToString(osds))
    requires run(ShellLine(AdminNode(m), "ceph osd lspools")) == DefaultPools
    requires run(ShellLine(AdminNode(m), "ceph pg stat")) ==
      PgStatText(PgMapHead(version), Decimal.NatToString(pgs), Decimal.NatToString(pgs), ActiveClean, usage)
    ensures Configure(m, 3, 1, run) == Configured(ProbeLines(AdminNode(m), Probes), Ready)
  {
    var node := AdminNode(m);
    EqualOsdCountsConverge(node, run, epoch, osds);
    DefaultPoolsConverge(node, run);
    CleanPgsConverge(node, run, version, pgs, usage);
  }

  lemma EqualOsdCountsConverge(node: Option<string>, run: Remote, epoch: nat, osds: nat)
    requires run(ShellLine(node, "ceph osd stat")) ==
      OsdStatText(OsdMapHead(epoch), Decimal.NatToString(osds), Decimal.NatToString(osds), Decimal.NatToString(osds))
    ensures Observe(node, OsdStat, run) == Converged
  {
    OsdStatCounts(epoch, osds, osds, osds);
  }

  lemma DefaultPoolsConverge(node: Option<string>, run: Remote)
    requires run(ShellLine(node, "ceph osd lspools")) == DefaultPools
    ensures Observe(node, LsPools, run) == Converged
  {
    DefaultPoolsPadded("", "");
    assert "" + DefaultPools + "" == DefaultPools;
  }

  lemma CleanPgsConverge(node: Option<string>, run: Remote, version: nat, pgs: nat, usage: string)
    requires ':' !in usage && ';' !in usage
    requires run(ShellLine(node, "ceph pg stat")) ==
      PgStatText(PgMapHead(version), Decimal.NatToString(pgs), Decimal.NatToString(pgs), ActiveClean, usage)
    ensures Observe(node, PgStat, run) == Converged
  {
    TokenActiveClean();
    PgStatCounts(version, pgs, pgs, ActiveClean, usage);
  }

  lemma TokenActiveClean()
    ensures Token(ActiveClean)
  {
  }

  /** One osd out: `configure` gives up on the first probe and issues
      nothing further. */
  lemma OsdOutStopsConfigure(m: TargetMap, run: Remote, epoch: nat, osds: nat)
    requires run(ShellLine(AdminNode(m), "ceph osd stat")) ==
      OsdStatText(OsdMapHead(epoch), Decimal.NatToString(osds + 1), Decimal.NatToString(osds + 1), Decimal.NatToString(osds))
    ensures Configure(m, 3, 1, run) == Configured([ShellLine(AdminNode(m), "ceph osd stat")], TimedOut(OsdStat))
  {
    OsdStatCounts(epoch, osds + 1, osds + 1, osds);
  }

  // ---------------------------------------------------------------------
  // mark_osd_in
  // ---------------------------------------------------------------------

  /** `'in'`, or `'out'` when `osd_in` is false. */
  function OsdVerb(osdIn: bool): (v: string)
    ensures v == "in" || v == "out"
    ensures osdIn <==> v == "in"
  {
    if osdIn then "in" else "out"
  }

  /** The shell line `mark_osd_in(fsid, osd_id, osd_in)` runs, sent to the
      admin node; the fsid plays no part in it. */
  function MarkOsdIn(m: TargetMap, osdId: int, osdIn: bool): (line: string)
    ensures osdIn ==> line == ShellLine(AdminNode(m), "ceph osd in " + Decimal.IntToString(osdId))
    ensures !osdIn ==> line == ShellLine(AdminNode(m), "ceph osd out " + Decimal.IntToString(osdId))
  {
    ShellLine(AdminNode(m), "ceph osd " + OsdVerb(osdIn) + " " + Decimal.IntToString(osdId))
  }

  /** The verb and the argument are read back from `"<verb> <arg>"`. */
  lemma VerbArgReadBack(v1: string, d1: string, v2: string, d2: string)
    requires v1 in {"in", "out"} && v2 in {"in", "out"}
    requires v1 + " " + d1 == v2 + " " + d2
    ensures v1 == v2 && d1 == d2
  {
    var t1, t2 := v1 + " " + d1, v2 + " " + d2;
    assert t1[0] == v1[0] && t2[0] == v2[0];
    assert v1 == v2;
    var n := |v1| + 1;
    assert d1 == t1[n..];
    assert d2 == t2[n..];
  }

  /** The line names the osd and the direction unambiguously: two calls
      against the same targets send the same line only when they ask for
      the same osd in the same direction. */
  lemma MarkOsdInInjective(m: TargetMap, a: int, aIn: bool, b: int, bIn: bool)
    ensures MarkOsdIn(m, a, aIn) == MarkOsdIn(m, b, bIn) <==> a == b && aIn == bIn
  {
    if MarkOsdIn(m, a, aIn) == MarkOsdIn(m, b, bIn) {
      MarkOsdInReadBack(m, a, aIn, b, bIn);
    }
  }

  lemma MarkOsdInReadBack(m: TargetMap, a: int, aIn: bool, b: int, bIn: bool)
    requires MarkOsdIn(m, a, aIn) == MarkOsdIn(m, b, bIn)
    ensures a == b && aIn == bIn
  {
    var node := NodeText(AdminNode(m));
    var va, vb := OsdVerb(aIn), OsdVerb(bIn);
    var da, db := Decimal.IntToString(a), Decimal.IntToString(b);
    LineShape(node, va, da);
    LineShape(node, vb, db);
    CancelAround("ssh " + node + " \"ceph osd ", va + " " + da, vb + " " + db, "\"");
    VerbArgReadBack(va, da, vb, db);
    Decimal.IntToStringInjective(a, b);
  }

  /** `'ssh {node} "ceph osd {verb} {id}"'` regrouped around `"{verb} {id}"`. */
  lemma LineShape(node: string, verb: string, id: string)
    ensures "ssh " + node + " \"" + ("ceph osd " + verb + " " + id) + "\""
         == "ssh " + node + " \"ceph osd " + (verb + " " + id) + "\""
  {
  }

  // ---------------------------------------------------------------------
  // get_server_fqdns / get_fqdns / get_service_fqdns
  // ---------------------------------------------------------------------

  /** `get_fqdns(fsid)`: the hosts of all targets, whatever the fsid. */
  function GetFqdns(m: TargetMap, fsid: int): (r: Result<seq<string>>)
    ensures r.Ok? <==> forall i :: 0 <= i < |m| ==> '@' in m[i].name
    ensures r.Raise? ==> r.exc == IndexError
    ensures r.Ok? ==> |r.value| == |m| && forall i :: 0 <= i < |m| ==> Host(m[i].name) == Some(r.value[i])
  {
    ServerFqdns(m)
  }

  /** `get_service_fqdns(fsid, service_type)`: every service runs on every
      server, so the answer is the host list whatever the fsid or type. */
  function GetServiceFqdns(m: TargetMap, fsid: int, serviceType: string): (r: Result<seq<string>>)
    ensures r.Ok? <==> forall i :: 0 <= i < |m| ==> '@' in m[i].name
    ensures r.Raise? ==> r.exc == IndexError
    ensures r.Ok? ==> |r.value| == |m| && forall i :: 0 <= i < |m| ==> Host(m[i].name) == Some(r.value[i])
  {
    ServerFqdns(m)
  }

  /** The loaded configuration answers with its three hosts for any fsid and
      any service type. */
  lemma SepiaServiceFqdns(fsid: int, serviceType: string)
    ensures GetFqdns(SepiaTargets, fsid) == Ok(SepiaHosts)
    ensures GetServiceFqdns(SepiaTargets, fsid, serviceType) == Ok(SepiaHosts)
  {
    SepiaFqdns();
  }
}
