/** The static remote-target map of `ExternalCephControl` (tests/ceph_ctl.py):
    each `user@host` target with its role tags, and the queries derived from it.
    The source keeps the map in a Python 2 dict, whose iteration order is
    unspecified; the model keeps it as a sequence in some iteration order and
    states only facts that do not depend on that order. */
module Targets {
  import opened Py
  import opened PyText
  import opened Seqs

  /** One configured target: `"<user>@<host>"` and its ordered role tags. */
  datatype Target = Target(name: string, roles: seq<string>)

  /** The dict's entries in its iteration order. */
  type TargetMap = seq<Target>

  /** The role that marks the administrative access point. */
  const AdminRole: string := "client.0"

  predicate IsAdmin(t: Target)
  {
    AdminRole in t.roles
  }

  /** The login user and hosts of the configuration `ExternalCephControl.__init__` loads. */
  const SepiaUser: string := "ubuntu"
  const SepiaHost0: string := "mira002.front.sepia.ceph.com"
  const SepiaHost1: string := "mira028.front.sepia.ceph.com"
  const SepiaHost2: string := "mira043.front.sepia.ceph.com"

  /** The configuration `ExternalCephControl.__init__` loads. */
  const SepiaTargets: TargetMap := [
    Target(SepiaUser + "@" + SepiaHost0, ["mon.0", "osd.0", "client.0"]),
    Target(SepiaUser + "@" + SepiaHost1, ["mon.1", "osd.1"]),
    Target(SepiaUser + "@" + SepiaHost2, ["mon.2", "osd.3"])
  ]

  /** At most one target name carries the admin role (the deployment invariant). */
  predicate OneAdmin(m: TargetMap)
  {
    forall t, u :: t in m && u in m && IsAdmin(t) && IsAdmin(u) ==> t.name == u.name
  }

  // ---------------------------------------------------------------------
  // _get_admin_node
  // ---------------------------------------------------------------------

  /** `_get_admin_node`: the first target in iteration order whose roles
      include `client.0`; `None` (the implicit return) when there is none. */
  function AdminNode(m: TargetMap): (r: Option<string>)
    ensures r.None? <==> forall t :: t in m ==> !IsAdmin(t)
    ensures r.Some? ==> exists t :: t in m && IsAdmin(t) && t.name == r.value
  {
    if |m| == 0 then None
    else if IsAdmin(m[0]) then Some(m[0].name)
    else
      var r := AdminNode(m[1..]);
      assert forall t :: t in m ==> t == m[0] || t in m[1..];
      r
  }

  /** Under the deployment invariant the admin node does not depend on the
      dict's iteration order. */
  lemma AdminNodeOrderFree(m1: TargetMap, m2: TargetMap)
    requires forall t :: t in m1 <==> t in m2
    requires OneAdmin(m1)
    ensures AdminNode(m1) == AdminNode(m2)
  {
    var r1, r2 := AdminNode(m1), AdminNode(m2);
    if r1.Some? && r2.Some? {
      var t :| t in m1 && IsAdmin(t) && t.name == r1.value;
      var u :| u in m2 && IsAdmin(u) && u.name == r2.value;
      assert u in m1;
    }
  }

  /** In the loaded configuration exactly one target is the admin node. */
  lemma SepiaAdmin()
    ensures OneAdmin(SepiaTargets)
    ensures AdminNode(SepiaTargets) == Some(SepiaUser + "@" + SepiaHost0)
  {
    assert !IsAdmin(SepiaTargets[1]) && !IsAdmin(SepiaTargets[2]);
    forall t | t in SepiaTargets && IsAdmin(t) ensures t == SepiaTargets[0] {
      var i :| 0 <= i < 3 && SepiaTargets[i] == t;
    }
  }

  // ---------------------------------------------------------------------
  // get_server_fqdns / get_fqdns / get_service_fqdns
  // ---------------------------------------------------------------------

  /** `target.split('@')[1]`; `None` where Python raises `IndexError`
      (a target with no `@`). */
  function Host(name: string): (r: Option<string>)
    ensures r.None? <==> '@' !in name
    ensures r.Some? ==> '@' !in r.value
  {
    var pieces := Split(name, '@');
    if |pieces| < 2 then None else Some(pieces[1])
  }

  /** The host is the text between the first and the second `@` of a
      name: `user@host`, or `user@host@…` where the rest is dropped. */
  lemma HostOf(user: string, host: string, rest: string)
    requires '@' !in user && '@' !in host
    requires rest == "" || rest[0] == '@'
    ensures Host(user + "@" + host + rest) == Some(host)
  {
    assert user + "@" + host + rest == user + ['@'] + (host + rest);
    SplitCons(user, '@', host + rest);
    FirstPiece(host, rest);
  }

  /** Text free of `@`, followed by nothing or by `@…`, is the first
      `@`-piece. */
  lemma FirstPiece(host: string, rest: string)
    requires '@' !in host
    requires rest == "" || rest[0] == '@'
    ensures |Split(host + rest, '@')| > 0 && Split(host + rest, '@')[0] == host
  {
    if rest == "" {
      assert host + rest == host;
      var one := Split(host, '@');
      assert Join(one, '@') == one[0];
    } else {
      assert host + rest == host + ['@'] + rest[1..];
      SplitCons(host, '@', rest[1..]);
    }
  }

  /** `get_server_fqdns`: the host of every target, in iteration order;
      `IndexError` as soon as a target has no `@`. */
  function ServerFqdns(m: TargetMap): (r: Result<seq<string>>)
    ensures r.Ok? <==> forall i :: 0 <= i < |m| ==> '@' in m[i].name
    ensures r.Raise? ==> r.exc == IndexError
    ensures r.Ok? ==> |r.value| == |m| && forall i :: 0 <= i < |m| ==> Host(m[i].name) == Some(r.value[i])
  {
    if |m| == 0 then Ok([])
    else match Host(m[0].name)
      case None => Raise(IndexError)
      case Some(h) =>
        match ServerFqdns(m[1..])
        case Raise(e) => Raise(e)
        case Ok(rest) => Ok([h] + rest)
  }

  /** The host list is fixed by the hosts of the targets, entry by entry. */
  lemma ServerFqdnsIs(m: TargetMap, hosts: seq<string>)
    requires |hosts| == |m|
    requires forall i :: 0 <= i < |m| ==> Host(m[i].name) == Some(hosts[i])
    ensures ServerFqdns(m) == Ok(hosts)
  {
    var r := ServerFqdns(m);
    assert r.Ok?;
    assert r.value == hosts;
  }

  /** `get_server_fqdns` succeeds exactly when every target has an `@`. */
  lemma ServerFqdnsOk(m: TargetMap)
    ensures ServerFqdns(m).Ok? <==> forall t :: t in m ==> '@' in t.name
  {
    if !ServerFqdns(m).Ok? {
      var j :| 0 <= j < |m| && '@' !in m[j].name;
      assert m[j] in m;
    }
  }

  /** The host of a target, `""` standing in where there is none. */
  function HostText(t: Target): string
  {
    if '@' in t.name then Host(t.name).value else ""
  }

  lemma ServerFqdnsIsMap(m: TargetMap)
    requires ServerFqdns(m).Ok?
    ensures ServerFqdns(m).value == Map(HostText, m)
  {
  }

  /** Any iteration order of the same entries gives a permutation of the
      same host list, or fails in both. */
  lemma ServerFqdnsOrderFree(m1: TargetMap, m2: TargetMap)
    requires multiset(m1) == multiset(m2)
    ensures ServerFqdns(m1).Ok? == ServerFqdns(m2).Ok?
    ensures ServerFqdns(m1).Ok? ==> multiset(ServerFqdns(m1).value) == multiset(ServerFqdns(m2).value)
  {
    forall t ensures t in m1 <==> t in m2 {
      assert t in m1 <==> t in multiset(m1);
    }
    ServerFqdnsOk(m1);
    ServerFqdnsOk(m2);
    if ServerFqdns(m1).Ok? {
      MapPermutation(HostText, m1, m2);
      ServerFqdnsIsMap(m1);
      ServerFqdnsIsMap(m2);
    }
  }

  /** The hosts of the loaded configuration, in order. */
  const SepiaHosts: seq<string> := [SepiaHost0, SepiaHost1, SepiaHost2]

  lemma SepiaHostOf(i: nat)
    requires i < 3
    ensures Host(SepiaTargets[i].name) == Some(SepiaHosts[i])
  {
    HostOf(SepiaUser, SepiaHosts[i], "");
    assert SepiaUser + "@" + SepiaHosts[i] + "" == SepiaUser + "@" + SepiaHosts[i];
  }

  lemma SepiaHostsDistinct()
    ensures SepiaHost0 != SepiaHost1 && SepiaHost1 != SepiaHost2 && SepiaHost0 != SepiaHost2
  {
    assert SepiaHost0[5] == '0' && SepiaHost1[5] == '2' && SepiaHost2[5] == '4';
  }

  /** The hosts of the loaded configuration, one per target, all distinct. */
  lemma SepiaFqdns()
    ensures ServerFqdns(SepiaTargets) == Ok(SepiaHosts)
    ensures SepiaHost0 != SepiaHost1 && SepiaHost1 != SepiaHost2 && SepiaHost0 != SepiaHost2
  {
    forall i | 0 <= i < 3 ensures Host(SepiaTargets[i].name) == Some(SepiaHosts[i]) {
      SepiaHostOf(i);
    }
    ServerFqdnsIs(SepiaTargets, SepiaHosts);
    SepiaHostsDistinct();
  }
}
