/** The two implementations of the `CephControl` interface
    (tests/ceph_ctl.py:18-74) side by side: where they must agree, and where
    the external one does nothing. */
module Backends {
  import opened Py
  import Targets
  import External
  import Embedded
  import Decimal

  /** A controller: simulated clusters, or the fixed real deployment. */
  datatype Backend = Simulated(control: Embedded.Control) | Remote(targets: Targets.TargetMap)

  /** `go_dark` on either backend.  The external controller's is `pass`: it
      makes no call and never fails; only the simulated one can raise, and
      only for an fsid it does not own. */
  function GoDark(b: Backend, fsid: Embedded.Fsid, dark: bool, minionId: Option<string>)
    : (r: Result<seq<Embedded.SimCall>>)
    ensures b.Remote? ==> r == Ok([])
    ensures r.Raise? <==> b.Simulated? && fsid !in b.control.sims
  {
    match b
    case Remote(_) => Ok([])
    case Simulated(c) => Embedded.GoDark(c, fsid, dark, minionId)
  }

  /** Both backends read `osd_in` the same way: the simulated cluster is
      told `1` exactly when the real one is sent `ceph osd in <id>`. */
  lemma MarkOsdInAgrees(m: Targets.TargetMap, c: Embedded.Control, fsid: Embedded.Fsid, osdId: int, osdIn: bool)
    requires fsid in c.sims
    ensures Embedded.MarkOsdIn(c, fsid, osdId, osdIn).value.osdIn == 1
        <==> External.MarkOsdIn(m, osdId, osdIn)
             == External.ShellLine(Targets.AdminNode(m), "ceph osd in " + Decimal.IntToString(osdId))
  {
    var inLine := External.MarkOsdIn(m, osdId, true);
    assert inLine == External.ShellLine(Targets.AdminNode(m), "ceph osd in " + Decimal.IntToString(osdId)) by {
      assert "ceph osd " + External.OsdVerb(true) + " " + Decimal.IntToString(osdId)
          == "ceph osd in " + Decimal.IntToString(osdId);
    }
    External.MarkOsdInInjective(m, osdId, osdIn, osdId, true);
  }
}
