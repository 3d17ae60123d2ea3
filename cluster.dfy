/**
 * The Kubernetes cluster, Helm and Terraform as the deployment scripts see them:
 * a map from namespace name to its annotations, a list of Helm releases, and the
 * commands the scripts issue. A command that fails (creating a namespace that exists,
 * uninstalling a release that is not there, ...) changes nothing; `Fails` says when.
 */
module Cluster {
  import opened Wrappers
  import opened Roster

  /** The `--set key=value` arguments of a Helm command, in command-line order. */
  type Values = seq<(string, string)>

  /** A Helm release: its name, namespace, chart and the `--set` values it was installed with. */
  datatype Release = Release(name: string, namespace: string, chart: string, values: Values)

  /** One row of `helm list --all-namespaces -o json`. */
  datatype Row = Row(name: string, namespace: string)

  datatype ClusterState = ClusterState(namespaces: map<string, map<string, string>>, releases: seq<Release>)

  /** A value in a Terraform variables file. */
  datatype TfValue = TfStr(str: string) | TfBool(flag: bool) | TfList(entries: seq<TfTenant>)

  datatype Command =
    | GetCredentials(clusterName: string, region: string)
    | GetNamespace(ns: string)
    | CreateNamespace(ns: string)
    | Annotate(ns: string, key: string, value: string)
    | HelmUpgradeInstall(release: string, ns: string, chart: string, values: Values)
    | HelmList
    | HelmUninstall(release: string, ns: string)
    | DeleteNamespace(ns: string)
    | WriteVarFile(path: string, vars: map<string, TfValue>)
    | TerraformInit(dir: string)
    | TerraformPlan(dir: string, varFile: Option<string>)
    | TerraformApply(dir: string, varFile: Option<string>)

  predicate HasRelease(rels: seq<Release>, name: string, ns: string) {
    exists r :: r in rels && r.name == name && r.namespace == ns
  }

  /** No two releases share a name within one namespace. */
  predicate UniqueReleases(rels: seq<Release>) {
    rels == [] || (!HasRelease(rels[1..], rels[0].name, rels[0].namespace) && UniqueReleases(rels[1..]))
  }

  predicate NoDuplicates<T(==)>(xs: seq<T>) {
    forall i, j :: 0 <= i < j < |xs| ==> xs[i] != xs[j]
  }

  /** Every release lives in an existing namespace and release names are unique per namespace. */
  predicate WellFormed(s: ClusterState) {
    (forall r :: r in s.releases ==> r.namespace in s.namespaces) && UniqueReleases(s.releases)
  }

  /** `helm upgrade --install`: replaces the release with the same name and namespace, or adds it. */
  function Upsert(rels: seq<Release>, r: Release): (out: seq<Release>)
    ensures r in out
    ensures forall x :: x in out ==> x == r || x in rels
    ensures forall x :: x in rels && !(x.name == r.name && x.namespace == r.namespace) ==> x in out
    ensures |out| == if HasRelease(rels, r.name, r.namespace) then |rels| else |rels| + 1
  {
    if rels == [] then [r]
    else if rels[0].name == r.name && rels[0].namespace == r.namespace then [r] + rels[1..]
    else [rels[0]] + Upsert(rels[1..], r)
  }

  /** `helm uninstall`: the releases other than the named one. */
  function Uninstalled(rels: seq<Release>, name: string, ns: string): (out: seq<Release>)
    ensures forall x :: x in out <==> x in rels && !(x.name == name && x.namespace == ns)
    ensures |out| <= |rels|
  {
    if rels == [] then []
    else if rels[0].name == name && rels[0].namespace == ns then Uninstalled(rels[1..], name, ns)
    else [rels[0]] + Uninstalled(rels[1..], name, ns)
  }

  /** The releases outside namespace `ns`: deleting a namespace deletes everything in it. */
  function OutsideNamespace(rels: seq<Release>, ns: string): (out: seq<Release>)
    ensures forall x :: x in out <==> x in rels && x.namespace != ns
    ensures |out| <= |rels|
  {
    if rels == [] then []
    else if rels[0].namespace == ns then OutsideNamespace(rels[1..], ns)
    else [rels[0]] + OutsideNamespace(rels[1..], ns)
  }

  /** A command that exits non-zero on state `s`. */
  predicate Fails(s: ClusterState, c: Command) {
    match c
    case CreateNamespace(ns) => ns in s.namespaces
    case Annotate(ns, _, _) => ns !in s.namespaces
    case HelmUpgradeInstall(_, ns, _, _) => ns !in s.namespaces
    case HelmUninstall(name, ns) => !HasRelease(s.releases, name, ns)
    case DeleteNamespace(ns) => ns !in s.namespaces
    case _ => false
  }

  /** The effect of one command on the cluster; a failing command has none. */
  function Exec(s: ClusterState, c: Command): (t: ClusterState)
    ensures Fails(s, c) ==> t == s
    ensures c.CreateNamespace? || c.DeleteNamespace? || c.Annotate? || t.namespaces == s.namespaces
    ensures c.HelmUpgradeInstall? || c.HelmUninstall? || c.DeleteNamespace? || t.releases == s.releases
  {
    if Fails(s, c) then s
    else
      match c
      case CreateNamespace(ns) => s.(namespaces := s.namespaces[ns := map[]])
      case Annotate(ns, k, v) => s.(namespaces := s.namespaces[ns := s.namespaces[ns][k := v]])
      case HelmUpgradeInstall(name, ns, chart, values) =>
        s.(releases := Upsert(s.releases, Release(name, ns, chart, values)))
      case HelmUninstall(name, ns) => s.(releases := Uninstalled(s.releases, name, ns))
      case DeleteNamespace(ns) => ClusterState(s.namespaces - {ns}, OutsideNamespace(s.releases, ns))
      case _ => s
  }

  /** The effect of a command sequence, in order. */
  function ExecAll(s: ClusterState, cmds: seq<Command>): ClusterState
    decreases |cmds|
  {
    if cmds == [] then s else ExecAll(Exec(s, cmds[0]), cmds[1..])
  }

  /** No command of the sequence fails when run in order from `s`. */
  predicate NoFailure(s: ClusterState, cmds: seq<Command>)
    decreases |cmds|
  {
    cmds == [] || (!Fails(s, cmds[0]) && NoFailure(Exec(s, cmds[0]), cmds[1..]))
  }

  /** The rows `helm list --all-namespaces` prints for a state. */
  function Listing(s: ClusterState): (rows: seq<Row>)
  {
    seq(|s.releases|, i requires 0 <= i < |s.releases| => Row(s.releases[i].name, s.releases[i].namespace))
  }

  /** The listing has one row per release, in release order. */
  lemma ListingRows(s: ClusterState)
    ensures |Listing(s)| == |s.releases|
    ensures forall i :: 0 <= i < |s.releases| ==> Listing(s)[i] == Row(s.releases[i].name, s.releases[i].namespace)
    ensures forall r :: r in Listing(s) <==> HasRelease(s.releases, r.name, r.namespace)
  {
    var rows := Listing(s);
    forall r: Row | HasRelease(s.releases, r.name, r.namespace) ensures r in rows {
      var x :| x in s.releases && x.name == r.name && x.namespace == r.namespace;
      var i :| 0 <= i < |s.releases| && s.releases[i] == x;
      assert rows[i] == r;
    }
  }

  /** `helm upgrade --install` keeps each release's name and namespace in place. */
  lemma {:induction false} UpsertKeys(rels: seq<Release>, r: Release)
    ensures var out := Upsert(rels, r);
      forall i :: 0 <= i < |rels| ==> out[i].name == rels[i].name && out[i].namespace == rels[i].namespace
    decreases |rels|
  {
    var out := Upsert(rels, r);
    if rels != [] && rels[0].name == r.name && rels[0].namespace == r.namespace {
      assert out == [r] + rels[1..];
      forall i | 0 < i < |rels| ensures out[i] == rels[i] {
      }
    } else if rels != [] {
      var rest := rels[1..];
      UpsertKeys(rest, r);
      var tail := Upsert(rest, r);
      assert out == [rels[0]] + tail;
      forall i | 0 < i < |rels| ensures out[i].name == rels[i].name && out[i].namespace == rels[i].namespace {
        assert out[i] == tail[i - 1] && rels[i] == rest[i - 1];
      }
    }
  }

  /** `helm upgrade --install` of a release not yet there adds it at the end. */
  lemma {:induction false} UpsertAppends(rels: seq<Release>, r: Release)
    requires !HasRelease(rels, r.name, r.namespace)
    ensures var out := Upsert(rels, r); |out| == |rels| + 1 && out[|rels|] == r
    decreases |rels|
  {
    if rels != [] {
      var rest := rels[1..];
      assert rels[0] in rels;
      assert !HasRelease(rest, r.name, r.namespace) by {
        forall x | x in rest ensures x in rels {
        }
      }
      UpsertAppends(rest, r);
      var out := Upsert(rels, r);
      var tail := Upsert(rest, r);
      assert out == [rels[0]] + tail;
      assert out[|rels|] == tail[|rest|];
    }
  }

  /**
   * Two states whose releases agree on name and namespace as far as the first goes, the second
   * holding at most one more release, `r`, at its end: the second lists the same rows, or one more for `r`.
   */
  lemma ListingGrows(s: ClusterState, t: ClusterState, r: Release)
    requires |t.releases| == |s.releases| || (|t.releases| == |s.releases| + 1 && t.releases[|s.releases|] == r)
    requires forall i :: 0 <= i < |s.releases| ==>
      t.releases[i].name == s.releases[i].name && t.releases[i].namespace == s.releases[i].namespace
    ensures Listing(t) == Listing(s) || Listing(t) == Listing(s) + [Row(r.name, r.namespace)]
  {
    var n := |s.releases|;
    var want := Listing(s) + (if |t.releases| == n then [] else [Row(r.name, r.namespace)]);
    forall i | 0 <= i < |want| ensures Listing(t)[i] == want[i] {
      if i >= n {
        assert want[i] == Row(r.name, r.namespace);
      }
    }
  }

  /** Unique releases have pairwise different (name, namespace) keys. */
  lemma {:induction false} ReleasesDistinct(rels: seq<Release>)
    requires UniqueReleases(rels)
    ensures forall i, j :: 0 <= i < j < |rels| ==>
      rels[i].name != rels[j].name || rels[i].namespace != rels[j].namespace
  {
    if rels != [] {
      ReleasesDistinct(rels[1..]);
      forall i, j | 0 <= i < j < |rels|
        ensures rels[i].name != rels[j].name || rels[i].namespace != rels[j].namespace
      {
        if i == 0 {
          assert rels[j] in rels[1..];
        } else {
          assert rels[i] == rels[1..][i - 1] && rels[j] == rels[1..][j - 1];
        }
      }
    }
  }

  /** On a well-formed cluster no row is listed twice. */
  lemma ListingDistinct(s: ClusterState)
    requires UniqueReleases(s.releases)
    ensures NoDuplicates(Listing(s))
  {
    ReleasesDistinct(s.releases);
    ListingRows(s);
  }

  /** Running `a` then `b` is running `a + b`. */
  lemma {:induction false} ExecAllAppend(s: ClusterState, a: seq<Command>, b: seq<Command>)
    ensures ExecAll(s, a + b) == ExecAll(ExecAll(s, a), b)
    ensures NoFailure(s, a + b) <==> NoFailure(s, a) && NoFailure(ExecAll(s, a), b)
    decreases |a|
  {
    if a != [] {
      assert (a + b)[0] == a[0];
      assert (a + b)[1..] == a[1..] + b;
      ExecAllAppend(Exec(s, a[0]), a[1..], b);
    } else {
      assert a + b == b;
    }
  }

  /** Running a single command. */
  lemma ExecAllOne(s: ClusterState, a: Command)
    ensures ExecAll(s, [a]) == Exec(s, a)
    ensures NoFailure(s, [a]) <==> !Fails(s, a)
  {
    assert [a][1..] == [];
  }

  /** Running two commands. */
  lemma ExecAllTwo(s: ClusterState, a: Command, b: Command)
    ensures ExecAll(s, [a, b]) == Exec(Exec(s, a), b)
    ensures NoFailure(s, [a, b]) <==> !Fails(s, a) && !Fails(Exec(s, a), b)
  {
    assert [a, b][1..] == [b];
    ExecAllOne(Exec(s, a), b);
  }

  /** Appending one command. */
  lemma ExecAllSnoc(s: ClusterState, a: seq<Command>, c: Command)
    ensures ExecAll(s, a + [c]) == Exec(ExecAll(s, a), c)
  {
    ExecAllAppend(s, a, [c]);
  }

  /**
   * The commands a script that runs each one with `check=True` actually issues: all of them when
   * none fails, otherwise those up to and including the first failure, where the script exits.
   */
  function Issued(s: ClusterState, cmds: seq<Command>): (r: seq<Command>)
    ensures |r| <= |cmds| && r == cmds[..|r|]
    ensures NoFailure(s, cmds) ==> r == cmds
    decreases |cmds|
  {
    if cmds == [] then []
    else if Fails(s, cmds[0]) then [cmds[0]]
    else [cmds[0]] + Issued(Exec(s, cmds[0]), cmds[1..])
  }

  /** When some command fails, the issued commands run cleanly up to their last one, which fails. */
  lemma {:induction false} IssuedEndsAtFailure(s: ClusterState, cmds: seq<Command>)
    requires !NoFailure(s, cmds)
    ensures var r := Issued(s, cmds);
      r != [] && NoFailure(s, r[..|r| - 1]) && Fails(ExecAll(s, r[..|r| - 1]), r[|r| - 1])
    decreases |cmds|
  {
    var r := Issued(s, cmds);
    if Fails(s, cmds[0]) {
      assert r[..0] == [];
    } else {
      var t := Exec(s, cmds[0]);
      IssuedEndsAtFailure(t, cmds[1..]);
      var r' := Issued(t, cmds[1..]);
      var head := r[..|r| - 1];
      assert head == [cmds[0]] + r'[..|r'| - 1];
      assert head[1..] == r'[..|r'| - 1];
    }
  }

  /** Issuing `a + b`: all of `a` then what `b` issues, or only what `a` issues if it fails. */
  lemma {:induction false} IssuedAppend(s: ClusterState, a: seq<Command>, b: seq<Command>)
    ensures Issued(s, a + b) == if NoFailure(s, a) then a + Issued(ExecAll(s, a), b) else Issued(s, a)
    decreases |a|
  {
    if a != [] {
      assert (a + b)[0] == a[0];
      assert (a + b)[1..] == a[1..] + b;
      if !Fails(s, a[0]) {
        var t := Exec(s, a[0]);
        IssuedAppend(t, a[1..], b);
        assert Issued(s, a + b) == [a[0]] + Issued(t, a[1..] + b);
        if NoFailure(s, a) {
          assert ExecAll(s, a) == ExecAll(t, a[1..]);
          assert [a[0]] + (a[1..] + Issued(ExecAll(t, a[1..]), b)) == a + Issued(ExecAll(t, a[1..]), b);
        }
      }
    } else {
      assert a + b == b;
    }
  }

  lemma NoDuplicatesCons<T>(x: T, xs: seq<T>)
    ensures NoDuplicates([x] + xs) <==> x !in xs && NoDuplicates(xs)
  {
    var ys := [x] + xs;
    if x in xs {
      var k :| 0 <= k < |xs| && xs[k] == x;
      assert ys[0] == ys[k + 1];
    }
    if !NoDuplicates(xs) {
      var i, j :| 0 <= i < j < |xs| && xs[i] == xs[j];
      assert ys[i + 1] == ys[j + 1];
    }
  }

  lemma NoDuplicatesSnoc<T>(xs: seq<T>, x: T)
    ensures NoDuplicates(xs + [x]) <==> x !in xs && NoDuplicates(xs)
  {
    var ys := xs + [x];
    if x in xs {
      var k :| 0 <= k < |xs| && xs[k] == x;
      assert ys[k] == ys[|xs|];
    }
    if !NoDuplicates(xs) {
      var i, j :| 0 <= i < j < |xs| && xs[i] == xs[j];
      assert ys[i] == ys[j];
    }
  }

  /** Once a namespace is gone, a run of namespace deletions that deletes it again fails. */
  lemma {:induction false} DeletingGoneFails(s: ClusterState, cmds: seq<Command>, ns: string)
    requires forall c :: c in cmds ==> c.DeleteNamespace?
    requires ns !in s.namespaces && DeleteNamespace(ns) in cmds
    ensures !NoFailure(s, cmds)
    decreases |cmds|
  {
    if cmds[0] != DeleteNamespace(ns) && !Fails(s, cmds[0]) {
      assert cmds == [cmds[0]] + cmds[1..];
      DeletingGoneFails(Exec(s, cmds[0]), cmds[1..], ns);
    }
  }

  /** Deleting namespaces that all exist fails exactly when one of them is deleted twice. */
  lemma {:induction false} DeletionsNoFailure(s: ClusterState, cmds: seq<Command>)
    requires forall c :: c in cmds ==> c.DeleteNamespace? && c.ns in s.namespaces
    ensures NoFailure(s, cmds) <==> NoDuplicates(cmds)
    decreases |cmds|
  {
    if cmds != [] {
      var t := Exec(s, cmds[0]);
      var rest := cmds[1..];
      assert cmds == [cmds[0]] + rest;
      NoDuplicatesCons(cmds[0], rest);
      if cmds[0] in rest {
        DeletingGoneFails(t, rest, cmds[0].ns);
      } else {
        forall c | c in rest ensures c.DeleteNamespace? && c.ns in t.namespaces {
          assert c in cmds && c != cmds[0];
        }
        DeletionsNoFailure(t, rest);
      }
    }
  }

  lemma {:induction false} UpsertKeepsUnique(rels: seq<Release>, r: Release)
    requires UniqueReleases(rels)
    ensures UniqueReleases(Upsert(rels, r))
  {
    if rels != [] && !(rels[0].name == r.name && rels[0].namespace == r.namespace) {
      UpsertKeepsUnique(rels[1..], r);
      var out := Upsert(rels, r);
      assert out[1..] == Upsert(rels[1..], r);
    } else if rels != [] {
      assert ([r] + rels[1..])[1..] == rels[1..];
    }
  }

  lemma {:induction false} UninstalledKeepsUnique(rels: seq<Release>, name: string, ns: string)
    requires UniqueReleases(rels)
    ensures UniqueReleases(Uninstalled(rels, name, ns))
  {
    if rels != [] {
      UninstalledKeepsUnique(rels[1..], name, ns);
      if !(rels[0].name == name && rels[0].namespace == ns) {
        assert ([rels[0]] + Uninstalled(rels[1..], name, ns))[1..] == Uninstalled(rels[1..], name, ns);
      }
    }
  }

  lemma {:induction false} OutsideNamespaceKeepsUnique(rels: seq<Release>, ns: string)
    requires UniqueReleases(rels)
    ensures UniqueReleases(OutsideNamespace(rels, ns))
  {
    if rels != [] {
      OutsideNamespaceKeepsUnique(rels[1..], ns);
      if rels[0].namespace != ns {
        assert ([rels[0]] + OutsideNamespace(rels[1..], ns))[1..] == OutsideNamespace(rels[1..], ns);
      }
    }
  }

  /** Every command keeps the cluster well formed. */
  lemma ExecKeepsWellFormed(s: ClusterState, c: Command)
    requires WellFormed(s)
    ensures WellFormed(Exec(s, c))
  {
    if !Fails(s, c) {
      match c
      case HelmUpgradeInstall(name, ns, chart, values) => UpsertKeepsUnique(s.releases, Release(name, ns, chart, values));
      case HelmUninstall(name, ns) => UninstalledKeepsUnique(s.releases, name, ns);
      case DeleteNamespace(ns) => OutsideNamespaceKeepsUnique(s.releases, ns);
      case _ =>
    }
  }

  lemma {:induction false} ExecAllKeepsWellFormed(s: ClusterState, cmds: seq<Command>)
    requires WellFormed(s)
    ensures WellFormed(ExecAll(s, cmds))
    decreases |cmds|
  {
    if cmds != [] {
      ExecKeepsWellFormed(s, cmds[0]);
      ExecAllKeepsWellFormed(Exec(s, cmds[0]), cmds[1..]);
    }
  }

  /** `helm upgrade --install` of a release with its chart and values. */
  function UpgradeCmd(r: Release): Command {
    HelmUpgradeInstall(r.name, r.namespace, r.chart, r.values)
  }

  /** The annotation that admits a namespace to the shared gateway. */
  const GatewayAnnotation := "shared-gateway-access"

  /** create_and_annotate_namespace: create only when `kubectl get` fails, then always annotate. */
  function EnsureNamespaceCmds(s: ClusterState, ns: string): seq<Command> {
    [GetNamespace(ns)]
      + (if ns in s.namespaces then [] else [CreateNamespace(ns)])
      + [Annotate(ns, GatewayAnnotation, "true")]
  }

  /** The namespaces after ensuring `ns`: it exists and carries the gateway annotation. */
  function Ensured(namespaces: map<string, map<string, string>>, ns: string): map<string, map<string, string>> {
    namespaces[ns := (if ns in namespaces then namespaces[ns] else map[])[GatewayAnnotation := "true"]]
  }

  /** create_and_annotate_namespace never fails, creates the namespace only if missing, and leaves it annotated. */
  lemma EnsureNamespaceEffect(s: ClusterState, ns: string)
    ensures NoFailure(s, EnsureNamespaceCmds(s, ns))
    ensures ExecAll(s, EnsureNamespaceCmds(s, ns)) == s.(namespaces := Ensured(s.namespaces, ns))
  {
    var annotate := Annotate(ns, GatewayAnnotation, "true");
    assert Exec(s, GetNamespace(ns)) == s;
    if ns in s.namespaces {
      assert EnsureNamespaceCmds(s, ns) == [GetNamespace(ns), annotate];
      ExecAllTwo(s, GetNamespace(ns), annotate);
    } else {
      var cmds := [GetNamespace(ns), CreateNamespace(ns), annotate];
      assert EnsureNamespaceCmds(s, ns) == cmds;
      assert cmds[1..] == [CreateNamespace(ns), annotate];
      ExecAllTwo(s, CreateNamespace(ns), annotate);
    }
  }

  /** The namespace exists and carries the gateway annotation. */
  predicate Annotated(s: ClusterState, ns: string) {
    ns in s.namespaces && GatewayAnnotation in s.namespaces[ns] && s.namespaces[ns][GatewayAnnotation] == "true"
  }

  predicate IsDeletion(c: Command) {
    c.HelmUninstall? || c.DeleteNamespace?
  }

  /** A Helm upgrade of an environment chart (anything but the infrastructure chart). */
  predicate IsEnvUpsert(c: Command) {
    c.HelmUpgradeInstall? && c.chart != "./helm/infrastructure"
  }

  lemma NoEnvUpsertIn(a: seq<Command>, b: seq<Command>)
    requires forall c :: c in a ==> !IsEnvUpsert(c)
    requires forall c :: c in b ==> !IsEnvUpsert(c)
    ensures forall c :: c in a + b ==> !IsEnvUpsert(c)
  {
  }

  /** Two phases, the first without environment upserts and the second without deletions. */
  lemma PhaseOrder(first: seq<Command>, second: seq<Command>)
    requires forall c :: c in first ==> !IsEnvUpsert(c)
    requires forall c :: c in second ==> !IsDeletion(c)
    ensures var cmds := first + second;
      forall i, j :: 0 <= i < j < |cmds| && IsDeletion(cmds[j]) ==> !IsEnvUpsert(cmds[i])
  {
    var cmds := first + second;
    assert forall i :: 0 <= i < |first| ==> cmds[i] in first;
    assert forall j :: |first| <= j < |cmds| ==> cmds[j] in second;
  }

  /** The release is still there after upserting a release with a different key. */
  lemma UpsertKeeps(rels: seq<Release>, x: Release, r: Release)
    requires x in rels && (x.name != r.name || x.namespace != r.namespace)
    ensures x in Upsert(rels, r)
  {
  }

  /** The live cluster the scripts talk to, with the log of every command they issued. */
  class Cluster {
    var state: ClusterState
    var log: seq<Command>

    constructor(initial: ClusterState)
      ensures state == initial && log == []
    {
      state := initial;
      log := [];
    }

    /** Issue one command. */
    method Run(c: Command)
      modifies this
      ensures state == Exec(old(state), c)
      ensures log == old(log) + [c]
    {
      state := Exec(state, c);
      log := log + [c];
    }

    /** Issue one command and report whether it succeeded, where `check=True` would raise. */
    method RunChecked(c: Command) returns (ok: bool)
      modifies this
      ensures ok <==> !Fails(old(state), c)
      ensures state == Exec(old(state), c)
      ensures log == old(log) + [c]
    {
      ok := !Fails(state, c);
      Run(c);
    }

    /** Issue a sequence of commands in order. */
    method RunAll(cmds: seq<Command>)
      modifies this
      ensures state == ExecAll(old(state), cmds)
      ensures log == old(log) + cmds
    {
      for i := 0 to |cmds|
        invariant state == ExecAll(old(state), cmds[..i])
        invariant log == old(log) + cmds[..i]
      {
        ExecAllSnoc(old(state), cmds[..i], cmds[i]);
        assert cmds[..i + 1] == cmds[..i] + [cmds[i]];
        Run(cmds[i]);
      }
      assert cmds[..|cmds|] == cmds;
    }

    /** `kubectl get namespace`: succeeds exactly when the namespace exists. */
    method NamespaceExists(ns: string) returns (found: bool)
      modifies this
      ensures found <==> ns in old(state).namespaces
      ensures state == old(state)
      ensures log == old(log) + [GetNamespace(ns)]
    {
      found := ns in state.namespaces;
      Run(GetNamespace(ns));
    }

    /** `helm list --all-namespaces -o json`. */
    method HelmListRows() returns (rows: seq<Row>)
      modifies this
      ensures rows == Listing(old(state))
      ensures state == old(state)
      ensures log == old(log) + [HelmList]
    {
      rows := Listing(state);
      Run(HelmList);
    }

    /** create_and_annotate_namespace (identical in both deployment scripts): get, create if missing, annotate. */
    method EnsureNamespace(ns: string)
      modifies this
      ensures log == old(log) + EnsureNamespaceCmds(old(state), ns)
      ensures state == ExecAll(old(state), EnsureNamespaceCmds(old(state), ns))
    {
      ghost var s0 := state;
      var found := NamespaceExists(ns);
      ghost var done: seq<Command> := [GetNamespace(ns)];
      assert ExecAll(s0, done) == s0;
      if !found {
        Run(CreateNamespace(ns));
        ExecAllSnoc(s0, done, CreateNamespace(ns));
        done := done + [CreateNamespace(ns)];
      }
      Run(Annotate(ns, GatewayAnnotation, "true"));
      ExecAllSnoc(s0, done, Annotate(ns, GatewayAnnotation, "true"));
      done := done + [Annotate(ns, GatewayAnnotation, "true")];
      assert done == EnsureNamespaceCmds(s0, ns);
    }
  }
}
