/**
 * deploy.py: the earlier, Terraform-driven deployment. It writes a Terraform variables file
 * from the tenant roster, plans or applies it, and on apply records or recovers the image tag
 * and syncs Helm releases: one backend and one frontend per tenant in `tenant-<id>-ns`.
 * Namespaces hosting legacy `park-backend-*` / `park-frontend-*` releases that belong to no
 * tenant are deleted first.
 */
module TenantDeploy {
  import opened Wrappers
  import opened Text
  import opened Roster
  import opened Store
  import opened Cluster

  const TenantsFile := "tenants.json"
  const StagingDir := "./terraform/staging"
  const VarFileName := "tenants.tfvars.json"
  const VarFilePath := "terraform/staging/tenants.tfvars.json"
  const InfraNamespace := "infra-ns"
  const InfraChart := "./helm/infrastructure"

  /** `--action`, restricted by the argument parser to these two. */
  datatype Action = Plan | Apply

  datatype Args = Args(
    action: Action, bucketName: string, gcProjectId: string, isGithubActions: bool, region: string,
    createCluster: bool, repository: string, gitTag: string, identityApiKey: string,
    identityAuthDomain: string, domainName: string)

  function TenantNamespaceName(tenantId: string): string {
    "tenant-" + tenantId + "-ns"
  }

  function TenantReleaseName(service: string, tenantId: string): string {
    "park-tenant-" + tenantId + "-" + service
  }

  /** Different tenants get different namespaces. */
  lemma TenantNamespaceInjective(a: string, b: string)
    ensures TenantNamespaceName(a) == TenantNamespaceName(b) <==> a == b
  {
    var na := TenantNamespaceName(a);
    var nb := TenantNamespaceName(b);
    assert na[7..|na| - 3] == a;
    assert nb[7..|nb| - 3] == b;
  }

  /** The release names the deletion step looks for. */
  predicate IsLegacyRelease(name: string) {
    StartsWith(name, "park-backend-") || StartsWith(name, "park-frontend-")
  }

  /** No release name this script creates is ever taken for a legacy release. */
  lemma CreatedNamesNotLegacy(service: string, tenantId: string)
    ensures !IsLegacyRelease(TenantReleaseName(service, tenantId))
    ensures !IsLegacyRelease("park-infra")
  {
    var n := TenantReleaseName(service, tenantId);
    assert n[5] == 't';
    assert "park-backend-"[5] == 'b' && "park-frontend-"[5] == 'f';
    assert "park-infra"[5] == 'i';
  }

  /** generate_tfvars_json: one `{id, domain}` entry per roster entry, built by appending. */
  method TfvarsEntries(tenants: seq<TenantRecord>) returns (entries: seq<TfTenant>)
    ensures entries == TfTenants(tenants)
  {
    entries := [];
    for i := 0 to |tenants|
      invariant entries == TfTenants(tenants[..i])
    {
      entries := entries + [TfTenant(tenants[i].tenantId, tenants[i].dns)];
    }
    assert tenants[..|tenants|] == tenants;
  }

  /** The variables file: the tenant entries plus five settings copied from the arguments. */
  function TfVars(tenants: seq<TenantRecord>, args: Args): map<string, TfValue> {
    map["tenants" := TfList(TfTenants(tenants)),
        "is_github_actions" := TfBool(args.isGithubActions),
        "region" := TfStr(args.region),
        "project_id" := TfStr(args.gcProjectId),
        "domain_name" := TfStr(args.domainName),
        "create_cluster" := TfBool(args.createCluster)]
  }

  function InfraValues(args: Args): Values {
    [("repository", args.repository),
     ("gitTag", args.gitTag),
     ("identityPlatForm.apiKey", args.identityApiKey),
     ("identityPlatForm.authDomain", args.identityAuthDomain),
     ("gc_project_id", args.gcProjectId),
     ("domain", args.domainName)]
  }

  /** Where a tenant's frontend finds its backend. */
  function BackendUrl(args: Args, t: TenantRecord): string {
    "http://" + t.dns + "." + args.domainName
  }

  function BackendValues(args: Args, t: TenantRecord): Values {
    [("repository", args.repository),
     ("gitTag", args.gitTag),
     ("identityPlatForm.apiKey", args.identityApiKey),
     ("identityPlatForm.authDomain", args.identityAuthDomain),
     ("gc_project_id", args.gcProjectId),
     ("domain", args.domainName),
     ("subdomain", t.dns)]
  }

  function FrontendValues(args: Args, t: TenantRecord): Values {
    [("repository", args.repository),
     ("gitTag", args.gitTag),
     ("identityPlatForm.apiKey", args.identityApiKey),
     ("identityPlatForm.authDomain", args.identityAuthDomain),
     ("gc_project_id", args.gcProjectId),
     ("backendUrl", BackendUrl(args, t)),
     ("domain", args.domainName),
     ("subdomain", t.dns)]
  }

  function BackendOf(args: Args, t: TenantRecord): Release {
    Release(TenantReleaseName("backend", t.tenantId), TenantNamespaceName(t.tenantId), "./helm/backend", BackendValues(args, t))
  }

  function FrontendOf(args: Args, t: TenantRecord): Release {
    Release(TenantReleaseName("frontend", t.tenantId), TenantNamespaceName(t.tenantId), "./helm/frontend", FrontendValues(args, t))
  }

  /** The frontend points at the backend host of the same tenant, under the shared domain. */
  lemma FrontendPointsAtBackend(args: Args, t: TenantRecord)
    ensures ("backendUrl", "http://" + t.dns + "." + args.domainName) in FrontendOf(args, t).values
    ensures ("subdomain", t.dns) in BackendOf(args, t).values && ("subdomain", t.dns) in FrontendOf(args, t).values
    ensures BackendOf(args, t).namespace == FrontendOf(args, t).namespace
  {
    assert FrontendOf(args, t).values[5] == ("backendUrl", BackendUrl(args, t));
    assert BackendOf(args, t).values[6] == ("subdomain", t.dns);
    assert FrontendOf(args, t).values[7] == ("subdomain", t.dns);
  }

  /** The tenant namespaces, in roster order. */
  function TenantNamespaces(roster: seq<TenantRecord>): (ns: seq<string>)
    ensures |ns| == |roster|
  {
    seq(|roster|, i requires 0 <= i < |roster| => TenantNamespaceName(roster[i].tenantId))
  }

  /** The namespaces of the legacy releases of a listing, in listing order and with repeats. */
  function LegacyNamespaces(rows: seq<Row>): seq<string> {
    if rows == [] then []
    else
      var rest := LegacyNamespaces(rows[..|rows| - 1]);
      var last := rows[|rows| - 1];
      if IsLegacyRelease(last.name) then rest + [last.namespace] else rest
  }

  /** A namespace is collected exactly when it hosts a listed legacy release. */
  lemma {:induction false} LegacyNamespacesMembers(rows: seq<Row>)
    ensures forall ns :: ns in LegacyNamespaces(rows) <==> exists r :: r in rows && IsLegacyRelease(r.name) && r.namespace == ns
  {
    if rows != [] {
      var prefix := rows[..|rows| - 1];
      LegacyNamespacesMembers(prefix);
      assert rows == prefix + [rows[|rows| - 1]];
    }
  }

  /** `kubectl delete namespace` for each collected namespace that is not a tenant's, in order. */
  function NamespaceDeleteCmds(namespaces: seq<string>, tenantNamespaces: seq<string>): seq<Command> {
    if namespaces == [] then []
    else
      var rest := NamespaceDeleteCmds(namespaces[..|namespaces| - 1], tenantNamespaces);
      var last := namespaces[|namespaces| - 1];
      if last !in tenantNamespaces then rest + [DeleteNamespace(last)] else rest
  }

  /** The deletions are exactly those of the collected namespaces outside the tenant namespaces. */
  lemma {:induction false} NamespaceDeleteCmdsMembers(namespaces: seq<string>, tenantNamespaces: seq<string>)
    ensures forall c :: c in NamespaceDeleteCmds(namespaces, tenantNamespaces) ==>
      c.DeleteNamespace? && c.ns in namespaces && c.ns !in tenantNamespaces
    ensures forall ns :: ns in namespaces && ns !in tenantNamespaces ==>
      DeleteNamespace(ns) in NamespaceDeleteCmds(namespaces, tenantNamespaces)
  {
    if namespaces != [] {
      var prefix := namespaces[..|namespaces| - 1];
      NamespaceDeleteCmdsMembers(prefix, tenantNamespaces);
      assert namespaces == prefix + [namespaces[|namespaces| - 1]];
    }
  }

  /** The deletion step: list the releases, then delete each collected non-tenant namespace. */
  function DeletePhase(s: ClusterState, roster: seq<TenantRecord>): seq<Command> {
    [HelmList] + NamespaceDeleteCmds(LegacyNamespaces(Listing(s)), TenantNamespaces(roster))
  }

  /** A namespace is deleted exactly when it hosts a legacy release and is not a tenant namespace. */
  lemma DeletePhaseDeletes(s: ClusterState, roster: seq<TenantRecord>, ns: string)
    ensures DeleteNamespace(ns) in DeletePhase(s, roster) <==>
      ns !in TenantNamespaces(roster) && exists r :: r in s.releases && IsLegacyRelease(r.name) && r.namespace == ns
    ensures forall c :: c in DeletePhase(s, roster) ==> c == HelmList || c.DeleteNamespace?
  {
    var rows := Listing(s);
    ListingRows(s);
    LegacyNamespacesMembers(rows);
    NamespaceDeleteCmdsMembers(LegacyNamespaces(rows), TenantNamespaces(roster));
    if exists r :: r in s.releases && IsLegacyRelease(r.name) && r.namespace == ns {
      var r :| r in s.releases && IsLegacyRelease(r.name) && r.namespace == ns;
      assert Row(r.name, r.namespace) in rows;
    }
    if ns in LegacyNamespaces(rows) {
      var row :| row in rows && IsLegacyRelease(row.name) && row.namespace == ns;
      var x :| x in s.releases && x.name == row.name && x.namespace == row.namespace;
    }
  }

  /** Running the collecting and deleting over `a + b` is running it over `a`, then over `b`. */
  lemma {:induction false} NamespaceDeleteCmdsAppend(a: seq<string>, b: seq<string>, tenantNamespaces: seq<string>)
    ensures NamespaceDeleteCmds(a + b, tenantNamespaces)
         == NamespaceDeleteCmds(a, tenantNamespaces) + NamespaceDeleteCmds(b, tenantNamespaces)
    decreases |b|
  {
    if b == [] {
      assert a + b == a;
    } else {
      var prefix := b[..|b| - 1];
      NamespaceDeleteCmdsAppend(a, prefix, tenantNamespaces);
      assert (a + b)[..|a + b| - 1] == a + prefix;
    }
  }

  /** A listed legacy release outside the tenant namespaces: the deletion step deletes its namespace. */
  predicate IsStaleLegacy(r: Row, tenantNamespaces: seq<string>) {
    IsLegacyRelease(r.name) && r.namespace !in tenantNamespaces
  }

  /** No namespace outside the tenant namespaces hosts two of the listed legacy releases. */
  predicate LegacyAlone(rows: seq<Row>, tenantNamespaces: seq<string>) {
    forall i, j :: 0 <= i < j < |rows| && IsStaleLegacy(rows[i], tenantNamespaces) && IsStaleLegacy(rows[j], tenantNamespaces)
      ==> rows[i].namespace != rows[j].namespace
  }

  /** The deletions for a listing extended by one row. */
  lemma StaleDeletesSnoc(rows: seq<Row>, r: Row, tenantNamespaces: seq<string>)
    ensures NamespaceDeleteCmds(LegacyNamespaces(rows + [r]), tenantNamespaces)
         == NamespaceDeleteCmds(LegacyNamespaces(rows), tenantNamespaces)
            + (if IsStaleLegacy(r, tenantNamespaces) then [DeleteNamespace(r.namespace)] else [])
  {
    assert (rows + [r])[..|rows|] == rows;
    var collected := LegacyNamespaces(rows);
    if IsLegacyRelease(r.name) {
      assert (collected + [r.namespace])[..|collected|] == collected;
    }
  }

  /** A namespace is deleted exactly when some listed stale legacy release lives in it. */
  lemma StaleDeletesMembers(rows: seq<Row>, tenantNamespaces: seq<string>, ns: string)
    ensures DeleteNamespace(ns) in NamespaceDeleteCmds(LegacyNamespaces(rows), tenantNamespaces) <==>
      exists i :: 0 <= i < |rows| && IsStaleLegacy(rows[i], tenantNamespaces) && rows[i].namespace == ns
  {
    LegacyNamespacesMembers(rows);
    NamespaceDeleteCmdsMembers(LegacyNamespaces(rows), tenantNamespaces);
    if DeleteNamespace(ns) in NamespaceDeleteCmds(LegacyNamespaces(rows), tenantNamespaces) {
      var row :| row in rows && IsLegacyRelease(row.name) && row.namespace == ns;
      var i :| 0 <= i < |rows| && rows[i] == row;
    }
  }

  /** The deletion step deletes no namespace twice exactly when every stale namespace hosts one legacy release. */
  lemma {:induction false} StaleDeletesDistinct(rows: seq<Row>, tenantNamespaces: seq<string>)
    ensures NoDuplicates(NamespaceDeleteCmds(LegacyNamespaces(rows), tenantNamespaces)) <==> LegacyAlone(rows, tenantNamespaces)
    decreases |rows|
  {
    if rows != [] {
      var tn := tenantNamespaces;
      var n := |rows| - 1;
      var prefix := rows[..n];
      var r := rows[n];
      assert rows == prefix + [r];
      StaleDeletesDistinct(prefix, tn);
      StaleDeletesSnoc(prefix, r, tn);
      var d := NamespaceDeleteCmds(LegacyNamespaces(prefix), tn);
      if LegacyAlone(rows, tn) {
        assert LegacyAlone(prefix, tn) by {
          forall i, j | 0 <= i < j < |prefix| && IsStaleLegacy(prefix[i], tn) && IsStaleLegacy(prefix[j], tn)
            ensures prefix[i].namespace != prefix[j].namespace
          {
            assert prefix[i] == rows[i] && prefix[j] == rows[j];
          }
        }
        if IsStaleLegacy(r, tn) {
          NoDuplicatesSnoc(d, DeleteNamespace(r.namespace));
          StaleDeletesMembers(prefix, tn, r.namespace);
        }
      } else {
        var i, j :| 0 <= i < j < |rows| && IsStaleLegacy(rows[i], tn) && IsStaleLegacy(rows[j], tn)
          && rows[i].namespace == rows[j].namespace;
        assert rows[i] == prefix[i];
        if j == n {
          NoDuplicatesSnoc(d, DeleteNamespace(r.namespace));
          StaleDeletesMembers(prefix, tn, r.namespace);
        } else {
          assert rows[j] == prefix[j];
          assert !LegacyAlone(prefix, tn);
          if IsStaleLegacy(r, tn) {
            NoDuplicatesSnoc(d, DeleteNamespace(r.namespace));
          }
        }
      }
    }
  }

  /**
   * On a well-formed cluster the deletion step runs to its end exactly when no namespace outside
   * the tenant namespaces hosts two legacy releases; otherwise its second deletion of one fails.
   */
  lemma DeletePhaseNoFailure(s: ClusterState, roster: seq<TenantRecord>)
    requires WellFormed(s)
    ensures NoFailure(s, DeletePhase(s, roster)) <==> LegacyAlone(Listing(s), TenantNamespaces(roster))
  {
    var tn := TenantNamespaces(roster);
    var deletes := NamespaceDeleteCmds(LegacyNamespaces(Listing(s)), tn);
    assert DeletePhase(s, roster)[1..] == deletes;
    NamespaceDeleteCmdsMembers(LegacyNamespaces(Listing(s)), tn);
    forall c | c in deletes ensures c.DeleteNamespace? && c.ns in s.namespaces {
      assert c in DeletePhase(s, roster);
      DeletePhaseDeletes(s, roster, c.ns);
    }
    DeletionsNoFailure(s, deletes);
    StaleDeletesDistinct(Listing(s), tn);
  }

  /** Credentials, the infrastructure namespace and the infrastructure chart. */
  function InfraCmds(s: ClusterState, args: Args): seq<Command> {
    [GetCredentials(args.gcProjectId + "-gke", args.region)]
      + EnsureNamespaceCmds(s, InfraNamespace)
      + [HelmUpgradeInstall("park-infra", InfraNamespace, InfraChart, InfraValues(args))]
  }

  /** One tenant: its namespace, then the backend, then the frontend. */
  function TenantCmds(s: ClusterState, args: Args, t: TenantRecord): seq<Command> {
    EnsureNamespaceCmds(s, TenantNamespaceName(t.tenantId)) + [UpgradeCmd(BackendOf(args, t)), UpgradeCmd(FrontendOf(args, t))]
  }

  /** The tenants in roster order, each seeing the state its predecessors left. */
  function TenantUpsertCmds(s: ClusterState, args: Args, tenants: seq<TenantRecord>): seq<Command>
    decreases |tenants|
  {
    if tenants == [] then []
    else
      var pre := TenantUpsertCmds(s, args, tenants[..|tenants| - 1]);
      pre + TenantCmds(ExecAll(s, pre), args, tenants[|tenants| - 1])
  }

  /** sync_k8s_deployments_with_tenants: nothing without `create_cluster`; else infrastructure, deletions, tenants. */
  function SyncCmds(s: ClusterState, args: Args, roster: seq<TenantRecord>): seq<Command> {
    if !args.createCluster then []
    else
      var infra := InfraCmds(s, args);
      var s1 := ExecAll(s, infra);
      var deletions := DeletePhase(s1, roster);
      infra + deletions + TenantUpsertCmds(ExecAll(s1, deletions), args, roster)
  }

  lemma SyncCmdsSplit(s: ClusterState, args: Args, roster: seq<TenantRecord>, s1: ClusterState, s2: ClusterState)
    requires args.createCluster
    requires s1 == ExecAll(s, InfraCmds(s, args))
    requires s2 == ExecAll(s1, DeletePhase(s1, roster))
    ensures SyncCmds(s, args, roster) == InfraCmds(s, args) + DeletePhase(s1, roster) + TenantUpsertCmds(s2, args, roster)
    ensures ExecAll(s, SyncCmds(s, args, roster)) == ExecAll(s2, TenantUpsertCmds(s2, args, roster))
  {
    ExecAllAppend(s, InfraCmds(s, args), DeletePhase(s1, roster));
    ExecAllAppend(s, InfraCmds(s, args) + DeletePhase(s1, roster), TenantUpsertCmds(s2, args, roster));
  }

  lemma TenantUpsertCmdsSnoc(s: ClusterState, args: Args, tenants: seq<TenantRecord>, i: nat)
    requires i < |tenants|
    ensures TenantUpsertCmds(s, args, tenants[..i + 1])
         == TenantUpsertCmds(s, args, tenants[..i]) + TenantCmds(ExecAll(s, TenantUpsertCmds(s, args, tenants[..i])), args, tenants[i])
    ensures ExecAll(s, TenantUpsertCmds(s, args, tenants[..i + 1]))
         == ExecAll(ExecAll(s, TenantUpsertCmds(s, args, tenants[..i])), TenantCmds(ExecAll(s, TenantUpsertCmds(s, args, tenants[..i])), args, tenants[i]))
  {
    var pre := TenantUpsertCmds(s, args, tenants[..i]);
    assert tenants[..i + 1][..i] == tenants[..i];
    ExecAllAppend(s, pre, TenantCmds(ExecAll(s, pre), args, tenants[i]));
  }

  /** Without `create_cluster` a sync issues no command at all. */
  lemma NoClusterNoSync(s: ClusterState, args: Args, roster: seq<TenantRecord>)
    requires !args.createCluster
    ensures SyncCmds(s, args, roster) == []
    ensures ExecAll(s, SyncCmds(s, args, roster)) == s
  {
  }

  /** The tenant phase installs only non-legacy releases into tenant namespaces, and deletes nothing. */
  lemma {:induction false} TenantUpsertCmdsShape(s: ClusterState, args: Args, tenants: seq<TenantRecord>)
    ensures forall c :: c in TenantUpsertCmds(s, args, tenants) ==>
      !IsDeletion(c) && (c.HelmUpgradeInstall? ==> !IsLegacyRelease(c.release) && c.chart != InfraChart)
    decreases |tenants|
  {
    if tenants != [] {
      var prefix := tenants[..|tenants| - 1];
      var last := tenants[|tenants| - 1];
      TenantUpsertCmdsShape(s, args, prefix);
      TenantCmdsShape(ExecAll(s, TenantUpsertCmds(s, args, prefix)), args, last);
    }
  }

  lemma TenantCmdsShape(s: ClusterState, args: Args, t: TenantRecord)
    ensures forall c :: c in TenantCmds(s, args, t) ==>
      !IsDeletion(c) && (c.HelmUpgradeInstall? ==> !IsLegacyRelease(c.release) && c.chart != InfraChart)
  {
    CreatedNamesNotLegacy("backend", t.tenantId);
    CreatedNamesNotLegacy("frontend", t.tenantId);
  }

  /** A command that uninstalls nothing, installs no legacy release and deletes no tenant namespace. */
  predicate SparesTenants(c: Command, tenantNamespaces: seq<string>) {
    !c.HelmUninstall?
    && (c.HelmUpgradeInstall? ==> !IsLegacyRelease(c.release))
    && (c.DeleteNamespace? ==> c.ns !in tenantNamespaces)
  }

  lemma PhasesSpareTenants(infra: seq<Command>, deletions: seq<Command>, upserts: seq<Command>, tn: seq<string>)
    requires forall c :: c in infra ==> SparesTenants(c, tn)
    requires forall c :: c in deletions ==> SparesTenants(c, tn)
    requires forall c :: c in upserts ==> SparesTenants(c, tn)
    ensures forall c :: c in infra + deletions + upserts ==> SparesTenants(c, tn)
  {
  }

  /**
   * A sync pass never installs a release the deletion step would take for legacy, never deletes
   * a tenant namespace, and never uninstalls a release.
   */
  lemma SyncNeverTouchesTenants(s: ClusterState, args: Args, roster: seq<TenantRecord>)
    ensures forall c :: c in SyncCmds(s, args, roster) ==> SparesTenants(c, TenantNamespaces(roster))
  {
    if args.createCluster {
      var tn := TenantNamespaces(roster);
      var infra := InfraCmds(s, args);
      var s1 := ExecAll(s, infra);
      var deletions := DeletePhase(s1, roster);
      var s2 := ExecAll(s1, deletions);
      var upserts := TenantUpsertCmds(s2, args, roster);
      SyncCmdsSplit(s, args, roster, s1, s2);
      InfraCmdsSpare(s, args, tn);
      DeletePhaseSpares(s1, roster);
      TenantUpsertCmdsShape(s2, args, roster);
      PhasesSpareTenants(infra, deletions, upserts, tn);
    }
  }

  /** The infrastructure part installs only the infrastructure chart and deletes nothing. */
  lemma InfraCmdsSpare(s: ClusterState, args: Args, tn: seq<string>)
    ensures forall c :: c in InfraCmds(s, args) ==> SparesTenants(c, tn) && !IsEnvUpsert(c)
  {
    CreatedNamesNotLegacy("", "");
  }

  /** The deletion step lists releases and deletes only namespaces outside the tenant namespaces. */
  lemma DeletePhaseSpares(s: ClusterState, roster: seq<TenantRecord>)
    ensures forall c :: c in DeletePhase(s, roster) ==> SparesTenants(c, TenantNamespaces(roster)) && !IsEnvUpsert(c)
  {
    NamespaceDeleteCmdsMembers(LegacyNamespaces(Listing(s)), TenantNamespaces(roster));
  }

  /** In a sync pass every namespace deletion comes before every tenant upsert. */
  lemma DeletionsBeforeUpserts(s: ClusterState, args: Args, roster: seq<TenantRecord>)
    ensures var cmds := SyncCmds(s, args, roster);
      forall i, j :: 0 <= i < j < |cmds| && IsDeletion(cmds[j]) ==> !IsEnvUpsert(cmds[i])
  {
    if args.createCluster {
      var infra := InfraCmds(s, args);
      var s1 := ExecAll(s, infra);
      var deletions := DeletePhase(s1, roster);
      var s2 := ExecAll(s1, deletions);
      var upserts := TenantUpsertCmds(s2, args, roster);
      SyncCmdsSplit(s, args, roster, s1, s2);
      InfraCmdsSpare(s, args, TenantNamespaces(roster));
      DeletePhaseSpares(s1, roster);
      NoEnvUpsertIn(infra, deletions);
      TenantUpsertCmdsShape(s2, args, roster);
      PhaseOrder(infra + deletions, upserts);
    }
  }

  /**
   * The collected namespaces are not de-duplicated: a stale namespace hosting both a legacy
   * backend and a legacy frontend is deleted twice, and the second deletion fails.
   */
  function TwoLegacyReleases(): ClusterState {
    ClusterState(map["acme-ns" := map[]],
      [Release("park-backend-acme", "acme-ns", "./helm/backend", []),
       Release("park-frontend-acme", "acme-ns", "./helm/frontend", [])])
  }

  lemma TwoLegacyReleasesListing()
    ensures LegacyNamespaces(Listing(TwoLegacyReleases())) == ["acme-ns", "acme-ns"]
  {
    var s := TwoLegacyReleases();
    var rows := [Row("park-backend-acme", "acme-ns"), Row("park-frontend-acme", "acme-ns")];
    ListingRows(s);
    assert Listing(s) == rows;
    assert IsLegacyRelease(rows[0].name) && IsLegacyRelease(rows[1].name);
    assert rows[..1] == [rows[0]] && rows[..1][..0] == [];
  }

  lemma RepeatedNamespaceDelete()
    ensures DeletePhase(TwoLegacyReleases(), []) == [HelmList, DeleteNamespace("acme-ns"), DeleteNamespace("acme-ns")]
    ensures !NoFailure(TwoLegacyReleases(), DeletePhase(TwoLegacyReleases(), []))
  {
    TwoLegacyReleasesDeletePhase();
    DeletingTwiceFails(TwoLegacyReleases(), "acme-ns");
  }

  lemma TwoLegacyReleasesDeletePhase()
    ensures DeletePhase(TwoLegacyReleases(), []) == [HelmList, DeleteNamespace("acme-ns"), DeleteNamespace("acme-ns")]
  {
    TwoLegacyReleasesListing();
    var none: seq<TenantRecord> := [];
    assert TenantNamespaces(none) == [];
    var twice := ["acme-ns", "acme-ns"];
    assert twice[..1] == ["acme-ns"] && twice[..1][..0] == [];
    assert NamespaceDeleteCmds(twice, []) == [DeleteNamespace("acme-ns"), DeleteNamespace("acme-ns")];
  }

  /** Listing, then deleting one namespace twice: the second deletion finds it gone. */
  lemma DeletingTwiceFails(s: ClusterState, ns: string)
    ensures !NoFailure(s, [HelmList, DeleteNamespace(ns), DeleteNamespace(ns)])
  {
    var cmds := [HelmList, DeleteNamespace(ns), DeleteNamespace(ns)];
    var s1 := Exec(s, HelmList);
    var s2 := Exec(s1, DeleteNamespace(ns));
    assert cmds[1..] == [DeleteNamespace(ns), DeleteNamespace(ns)];
    assert cmds[1..][1..] == [DeleteNamespace(ns)];
    if ns in s1.namespaces {
      assert ns !in s2.namespaces;
      assert !NoFailure(s2, cmds[1..][1..]);
    }
    assert !NoFailure(s1, cmds[1..]);
  }

  /** That cluster stops every sync pass inside its deletion step, whatever the roster. */
  lemma TwoLegacyReleasesSyncStops(args: Args, roster: seq<TenantRecord>)
    requires args.createCluster
    ensures !NoFailure(TwoLegacyReleases(), SyncCmds(TwoLegacyReleases(), args, roster))
  {
    var s := TwoLegacyReleases();
    var tn := TenantNamespaces(roster);
    assert s.releases[1..] == [s.releases[1]];
    assert WellFormed(s);
    ListingRows(s);
    forall k | 0 <= k < |tn| ensures tn[k] != "acme-ns" {
      assert tn[k][0] == 't';
    }
    assert IsLegacyRelease(s.releases[0].name) && IsLegacyRelease(s.releases[1].name);
    assert IsStaleLegacy(Listing(s)[0], tn) && IsStaleLegacy(Listing(s)[1], tn);
    SyncRunsThrough(s, args, roster);
  }

  /** The tenant is deployed: annotated namespace, backend and frontend with its values. */
  predicate TenantDeployed(s: ClusterState, args: Args, t: TenantRecord) {
    BackendOf(args, t) in s.releases && FrontendOf(args, t) in s.releases && Annotated(s, TenantNamespaceName(t.tenantId))
  }

  /** One tenant's commands never fail and leave that tenant deployed. */
  lemma TenantCmdsEffect(s: ClusterState, args: Args, t: TenantRecord)
    ensures NoFailure(s, TenantCmds(s, args, t))
    ensures ExecAll(s, TenantCmds(s, args, t))
         == ClusterState(Ensured(s.namespaces, TenantNamespaceName(t.tenantId)),
                         Upsert(Upsert(s.releases, BackendOf(args, t)), FrontendOf(args, t)))
  {
    var ns := TenantNamespaceName(t.tenantId);
    var ensure := EnsureNamespaceCmds(s, ns);
    EnsureNamespaceEffect(s, ns);
    var s1 := ExecAll(s, ensure);
    var b := UpgradeCmd(BackendOf(args, t));
    var f := UpgradeCmd(FrontendOf(args, t));
    ExecAllAppend(s, ensure, [b, f]);
    ExecAllTwo(s1, b, f);
    assert !Fails(s1, b);
    assert !Fails(Exec(s1, b), f);
  }

  lemma BackendFrontendDistinct(args: Args, t: TenantRecord, u: TenantRecord)
    ensures BackendOf(args, t).name != FrontendOf(args, u).name
  {
    var b := BackendOf(args, t).name;
    var f := FrontendOf(args, u).name;
    assert b[|b| - 1] == 'd' && f[|f| - 1] == 'd';
    assert b[|b| - 4] == 'k' && f[|f| - 4] == 't';
  }

  lemma TenantCmdsDeploys(s: ClusterState, args: Args, t: TenantRecord)
    ensures TenantDeployed(ExecAll(s, TenantCmds(s, args, t)), args, t)
  {
    TenantCmdsEffect(s, args, t);
    BackendFrontendDistinct(args, t, t);
    UpsertKeeps(Upsert(s.releases, BackendOf(args, t)), BackendOf(args, t), FrontendOf(args, t));
  }

  lemma TenantCmdsKeepsDeployed(s: ClusterState, args: Args, t: TenantRecord, other: TenantRecord)
    requires TenantDeployed(s, args, other) && other.tenantId != t.tenantId
    ensures TenantDeployed(ExecAll(s, TenantCmds(s, args, t)), args, other)
  {
    TenantCmdsEffect(s, args, t);
    TenantNamespaceInjective(other.tenantId, t.tenantId);
    var mid := Upsert(s.releases, BackendOf(args, t));
    UpsertKeeps(s.releases, BackendOf(args, other), BackendOf(args, t));
    UpsertKeeps(mid, BackendOf(args, other), FrontendOf(args, t));
    BackendFrontendDistinct(args, t, other);
    UpsertKeeps(s.releases, FrontendOf(args, other), BackendOf(args, t));
    UpsertKeeps(mid, FrontendOf(args, other), FrontendOf(args, t));
  }

  /** After the tenant phase over a roster of distinct ids, every tenant is deployed, and nothing failed. */
  lemma {:induction false} TenantUpsertCmdsCover(s: ClusterState, args: Args, tenants: seq<TenantRecord>)
    requires UniqueIds(tenants)
    ensures NoFailure(s, TenantUpsertCmds(s, args, tenants))
    ensures forall t :: t in tenants ==> TenantDeployed(ExecAll(s, TenantUpsertCmds(s, args, tenants)), args, t)
    decreases |tenants|
  {
    if tenants != [] {
      var prefix := tenants[..|tenants| - 1];
      var last := tenants[|tenants| - 1];
      TenantUpsertCmdsCover(s, args, prefix);
      var pre := TenantUpsertCmds(s, args, prefix);
      var m := ExecAll(s, pre);
      ExecAllAppend(s, pre, TenantCmds(m, args, last));
      TenantCmdsEffect(m, args, last);
      TenantCmdsDeploys(m, args, last);
      var t := ExecAll(s, TenantUpsertCmds(s, args, tenants));
      forall x | x in tenants ensures TenantDeployed(t, args, x) {
        var k :| 0 <= k < |tenants| && tenants[k] == x;
        if k < |tenants| - 1 {
          assert x in prefix;
          TenantCmdsKeepsDeployed(m, args, last, x);
        }
      }
    }
  }

  /** The tenant step never fails. */
  lemma {:induction false} TenantUpsertCmdsNoFailure(s: ClusterState, args: Args, tenants: seq<TenantRecord>)
    ensures NoFailure(s, TenantUpsertCmds(s, args, tenants))
    decreases |tenants|
  {
    if tenants != [] {
      var prefix := tenants[..|tenants| - 1];
      TenantUpsertCmdsNoFailure(s, args, prefix);
      var pre := TenantUpsertCmds(s, args, prefix);
      ExecAllAppend(s, pre, TenantCmds(ExecAll(s, pre), args, tenants[|tenants| - 1]));
      TenantCmdsEffect(ExecAll(s, pre), args, tenants[|tenants| - 1]);
    }
  }

  /** The infrastructure step never fails: it ensures `infra-ns` and upserts the `park-infra` release. */
  lemma InfraCmdsEffect(s: ClusterState, args: Args)
    ensures NoFailure(s, InfraCmds(s, args))
    ensures ExecAll(s, InfraCmds(s, args))
         == ClusterState(Ensured(s.namespaces, InfraNamespace),
                         Upsert(s.releases, Release("park-infra", InfraNamespace, InfraChart, InfraValues(args))))
  {
    var creds := GetCredentials(args.gcProjectId + "-gke", args.region);
    var ensure := EnsureNamespaceCmds(s, InfraNamespace);
    var infra := HelmUpgradeInstall("park-infra", InfraNamespace, InfraChart, InfraValues(args));
    assert InfraCmds(s, args) == [creds] + ensure + [infra];
    ExecAllOne(s, creds);
    EnsureNamespaceEffect(s, InfraNamespace);
    ExecAllAppend(s, [creds], ensure);
    var m := ExecAll(s, [creds] + ensure);
    ExecAllOne(m, infra);
    ExecAllAppend(s, [creds] + ensure, [infra]);
  }

  /**
   * A sync pass can fail only in its deletion step. When it does, the script has issued the
   * infrastructure step and the deletions up to the failing one, and installed no tenant release.
   */
  lemma SyncIssued(s: ClusterState, args: Args, roster: seq<TenantRecord>, s1: ClusterState)
    requires args.createCluster
    requires s1 == ExecAll(s, InfraCmds(s, args))
    ensures NoFailure(s, SyncCmds(s, args, roster)) <==> NoFailure(s1, DeletePhase(s1, roster))
    ensures !NoFailure(s, SyncCmds(s, args, roster)) ==>
      Issued(s, SyncCmds(s, args, roster)) == InfraCmds(s, args) + Issued(s1, DeletePhase(s1, roster))
    ensures !NoFailure(s, SyncCmds(s, args, roster)) ==>
      forall c :: c in Issued(s, SyncCmds(s, args, roster)) ==> !IsEnvUpsert(c)
  {
    var infra := InfraCmds(s, args);
    var deletions := DeletePhase(s1, roster);
    var s2 := ExecAll(s1, deletions);
    var upserts := TenantUpsertCmds(s2, args, roster);
    SyncCmdsSplit(s, args, roster, s1, s2);
    InfraCmdsEffect(s, args);
    TenantUpsertCmdsNoFailure(s2, args, roster);
    ExecAllAppend(s, infra, deletions);
    ExecAllAppend(s, infra + deletions, upserts);
    IssuedAppend(s, infra + deletions, upserts);
    IssuedAppend(s, infra, deletions);
    if !NoFailure(s1, deletions) {
      var issued := Issued(s1, deletions);
      InfraCmdsSpare(s, args, TenantNamespaces(roster));
      DeletePhaseSpares(s1, roster);
      forall c | c in issued ensures !IsEnvUpsert(c) {
        var k :| 0 <= k < |issued| && issued[k] == c;
        assert deletions[k] == c;
      }
    }
  }

  /** A row that is not a stale legacy release changes nothing about `LegacyAlone`. */
  lemma LegacyAloneSnoc(rows: seq<Row>, r: Row, tenantNamespaces: seq<string>)
    requires !IsStaleLegacy(r, tenantNamespaces)
    ensures LegacyAlone(rows + [r], tenantNamespaces) <==> LegacyAlone(rows, tenantNamespaces)
  {
    var ext := rows + [r];
    if LegacyAlone(ext, tenantNamespaces) {
      forall i, j | 0 <= i < j < |rows| && IsStaleLegacy(rows[i], tenantNamespaces) && IsStaleLegacy(rows[j], tenantNamespaces)
        ensures rows[i].namespace != rows[j].namespace
      {
        assert ext[i] == rows[i] && ext[j] == rows[j];
      }
    }
  }

  /**
   * On a well-formed cluster a sync pass runs to its end exactly when no namespace outside the
   * tenant namespaces hosts two legacy releases.
   */
  lemma SyncRunsThrough(s: ClusterState, args: Args, roster: seq<TenantRecord>)
    requires args.createCluster && WellFormed(s)
    ensures NoFailure(s, SyncCmds(s, args, roster)) <==> LegacyAlone(Listing(s), TenantNamespaces(roster))
  {
    var tn := TenantNamespaces(roster);
    var s1 := ExecAll(s, InfraCmds(s, args));
    var infra := Release("park-infra", InfraNamespace, InfraChart, InfraValues(args));
    InfraCmdsEffect(s, args);
    ExecAllKeepsWellFormed(s, InfraCmds(s, args));
    SyncIssued(s, args, roster, s1);
    DeletePhaseNoFailure(s1, roster);
    UpsertKeys(s.releases, infra);
    if HasRelease(s.releases, infra.name, infra.namespace) {
      assert |s1.releases| == |s.releases|;
    } else {
      UpsertAppends(s.releases, infra);
    }
    ListingGrows(s, s1, infra);
    CreatedNamesNotLegacy("", "");
    LegacyAloneSnoc(Listing(s), Row(infra.name, infra.namespace), tn);
  }

  /** When a sync pass with `create_cluster` and distinct tenant ids runs to its end, every tenant is deployed. */
  lemma SyncCoversTenants(s: ClusterState, args: Args, roster: seq<TenantRecord>)
    requires args.createCluster && UniqueIds(roster)
    requires NoFailure(s, SyncCmds(s, args, roster))
    ensures forall t :: t in roster ==> TenantDeployed(ExecAll(s, Issued(s, SyncCmds(s, args, roster))), args, t)
  {
    var s1 := ExecAll(s, InfraCmds(s, args));
    var s2 := ExecAll(s1, DeletePhase(s1, roster));
    SyncCmdsSplit(s, args, roster, s1, s2);
    TenantUpsertCmdsCover(s2, args, roster);
  }

  /** `terraform init` then `terraform plan` with the variables file, after writing it. */
  function PlanCmds(vars: map<string, TfValue>): seq<Command> {
    [WriteVarFile(VarFilePath, vars), TerraformInit(StagingDir), TerraformPlan(StagingDir, Some(VarFileName))]
  }

  /** `terraform apply -auto-approve` with the variables file, after writing it (no init here). */
  function ApplyCmds(vars: map<string, TfValue>): seq<Command> {
    [WriteVarFile(VarFilePath, vars), TerraformApply(StagingDir, Some(VarFileName))]
  }

  /** One tenant: ensure its namespace, then upgrade its backend, then its frontend. */
  method DeployTenant(c: Cluster, args: Args, t: TenantRecord)
    modifies c
    ensures c.log == old(c.log) + TenantCmds(old(c.state), args, t)
    ensures c.state == ExecAll(old(c.state), TenantCmds(old(c.state), args, t))
  {
    ghost var s0 := c.state;
    ghost var ensure := EnsureNamespaceCmds(s0, TenantNamespaceName(t.tenantId));
    c.EnsureNamespace(TenantNamespaceName(t.tenantId));
    var b := UpgradeCmd(BackendOf(args, t));
    var f := UpgradeCmd(FrontendOf(args, t));
    c.Run(b);
    ExecAllSnoc(s0, ensure, b);
    c.Run(f);
    ExecAllSnoc(s0, ensure + [b], f);
    assert TenantCmds(s0, args, t) == ensure + [b] + [f];
  }

  /** Deploys the tenants of the roster in order. */
  method DeployTenants(c: Cluster, args: Args, roster: seq<TenantRecord>)
    modifies c
    ensures c.log == old(c.log) + TenantUpsertCmds(old(c.state), args, roster)
    ensures c.state == ExecAll(old(c.state), TenantUpsertCmds(old(c.state), args, roster))
  {
    ghost var s0 := c.state;
    for i := 0 to |roster|
      invariant c.log == old(c.log) + TenantUpsertCmds(s0, args, roster[..i])
      invariant c.state == ExecAll(s0, TenantUpsertCmds(s0, args, roster[..i]))
    {
      ghost var pre := TenantUpsertCmds(s0, args, roster[..i]);
      ghost var step := TenantCmds(c.state, args, roster[i]);
      DeployTenant(c, args, roster[i]);
      TenantUpsertCmdsSnoc(s0, args, roster, i);
      ConcatAssoc(old(c.log), pre, step);
    }
    assert roster[..|roster|] == roster;
  }

  /** The namespaces of the legacy releases of a listing, collected in one pass. */
  method CollectLegacyNamespaces(rows: seq<Row>) returns (namespaces: seq<string>)
    ensures namespaces == LegacyNamespaces(rows)
  {
    namespaces := [];
    for i := 0 to |rows|
      invariant namespaces == LegacyNamespaces(rows[..i])
    {
      assert rows[..i + 1][..i] == rows[..i];
      if IsLegacyRelease(rows[i].name) {
        namespaces := namespaces + [rows[i].namespace];
      }
    }
    assert rows[..|rows|] == rows;
  }

  /** When the deletion of the `i`-th collected namespace fails, the script has issued the plan up to it. */
  lemma DeletionStopsAt(s: ClusterState, namespaces: seq<string>, tenantNamespaces: seq<string>, i: nat)
    requires i < |namespaces| && namespaces[i] !in tenantNamespaces
    requires NoFailure(s, NamespaceDeleteCmds(namespaces[..i], tenantNamespaces))
    requires Fails(ExecAll(s, NamespaceDeleteCmds(namespaces[..i], tenantNamespaces)), DeleteNamespace(namespaces[i]))
    ensures !NoFailure(s, NamespaceDeleteCmds(namespaces, tenantNamespaces))
    ensures Issued(s, NamespaceDeleteCmds(namespaces, tenantNamespaces))
         == NamespaceDeleteCmds(namespaces[..i], tenantNamespaces) + [DeleteNamespace(namespaces[i])]
  {
    var done := NamespaceDeleteCmds(namespaces[..i], tenantNamespaces);
    var cmd := DeleteNamespace(namespaces[i]);
    var rest := NamespaceDeleteCmds(namespaces[i + 1..], tenantNamespaces);
    assert namespaces[..i + 1][..i] == namespaces[..i];
    assert namespaces == namespaces[..i + 1] + namespaces[i + 1..];
    NamespaceDeleteCmdsAppend(namespaces[..i + 1], namespaces[i + 1..], tenantNamespaces);
    assert NamespaceDeleteCmds(namespaces, tenantNamespaces) == (done + [cmd]) + rest;
    ExecAllOne(ExecAll(s, done), cmd);
    ExecAllAppend(s, done, [cmd]);
    ExecAllAppend(s, done + [cmd], rest);
    IssuedAppend(s, done + [cmd], rest);
    IssuedAppend(s, done, [cmd]);
  }

  /**
   * Deletes each collected namespace that is not a tenant namespace, stopping at the first deletion
   * that fails (`check=True` raises and nothing catches it); `ok` says whether all of them ran.
   */
  method DeleteStaleNamespaces(c: Cluster, namespaces: seq<string>, tenantNamespaces: seq<string>) returns (ok: bool)
    modifies c
    ensures ok <==> NoFailure(old(c.state), NamespaceDeleteCmds(namespaces, tenantNamespaces))
    ensures c.log == old(c.log) + Issued(old(c.state), NamespaceDeleteCmds(namespaces, tenantNamespaces))
    ensures c.state == ExecAll(old(c.state), Issued(old(c.state), NamespaceDeleteCmds(namespaces, tenantNamespaces)))
  {
    ghost var s0 := c.state;
    var i := 0;
    while i < |namespaces|
      invariant 0 <= i <= |namespaces|
      invariant NoFailure(s0, NamespaceDeleteCmds(namespaces[..i], tenantNamespaces))
      invariant c.log == old(c.log) + NamespaceDeleteCmds(namespaces[..i], tenantNamespaces)
      invariant c.state == ExecAll(s0, NamespaceDeleteCmds(namespaces[..i], tenantNamespaces))
    {
      assert namespaces[..i + 1][..i] == namespaces[..i];
      if namespaces[i] !in tenantNamespaces {
        ghost var done := NamespaceDeleteCmds(namespaces[..i], tenantNamespaces);
        var cmd := DeleteNamespace(namespaces[i]);
        ExecAllSnoc(s0, done, cmd);
        ExecAllAppend(s0, done, [cmd]);
        ExecAllOne(ExecAll(s0, done), cmd);
        var succeeded := c.RunChecked(cmd);
        if !succeeded {
          DeletionStopsAt(s0, namespaces, tenantNamespaces, i);
          return false;
        }
      }
      i := i + 1;
    }
    assert namespaces[..|namespaces|] == namespaces;
    return true;
  }

  /** Credentials, then the infrastructure namespace and chart. */
  method DeployInfrastructure(c: Cluster, args: Args)
    modifies c
    ensures c.log == old(c.log) + InfraCmds(old(c.state), args)
    ensures c.state == ExecAll(old(c.state), InfraCmds(old(c.state), args))
  {
    ghost var s0 := c.state;
    var creds := GetCredentials(args.gcProjectId + "-gke", args.region);
    c.Run(creds);
    c.EnsureNamespace(InfraNamespace);
    ghost var ensure := EnsureNamespaceCmds(s0, InfraNamespace);
    assert ExecAll(s0, [creds]) == s0;
    ExecAllAppend(s0, [creds], ensure);
    var infra := HelmUpgradeInstall("park-infra", InfraNamespace, InfraChart, InfraValues(args));
    c.Run(infra);
    ExecAllSnoc(s0, [creds] + ensure, infra);
    assert InfraCmds(s0, args) == [creds] + ensure + [infra];
  }

  /**
   * List the releases, collect the legacy namespaces, delete those that are not tenant namespaces,
   * stopping at the first deletion that fails.
   */
  method DeleteLegacyNamespaces(c: Cluster, roster: seq<TenantRecord>) returns (ok: bool)
    modifies c
    ensures ok <==> NoFailure(old(c.state), DeletePhase(old(c.state), roster))
    ensures c.log == old(c.log) + Issued(old(c.state), DeletePhase(old(c.state), roster))
    ensures c.state == ExecAll(old(c.state), Issued(old(c.state), DeletePhase(old(c.state), roster)))
  {
    var rows := c.HelmListRows();
    var namespaces := CollectLegacyNamespaces(rows);
    ok := DeleteStaleNamespaces(c, namespaces, TenantNamespaces(roster));
    ghost var deletes := NamespaceDeleteCmds(namespaces, TenantNamespaces(roster));
    ghost var issued := Issued(old(c.state), deletes);
    assert DeletePhase(old(c.state), roster) == [HelmList] + deletes;
    ExecAllOne(old(c.state), HelmList);
    ExecAllAppend(old(c.state), [HelmList], deletes);
    IssuedAppend(old(c.state), [HelmList], deletes);
    ExecAllAppend(old(c.state), [HelmList], issued);
    ConcatAssoc(old(c.log), [HelmList], issued);
  }

  /**
   * sync_k8s_deployments_with_tenants: infrastructure, deletions, tenants; the script exits at the
   * first command that fails, which can only be a deletion.
   */
  method Sync(c: Cluster, args: Args, roster: seq<TenantRecord>) returns (ok: bool)
    modifies c
    ensures ok <==> NoFailure(old(c.state), SyncCmds(old(c.state), args, roster))
    ensures c.log == old(c.log) + Issued(old(c.state), SyncCmds(old(c.state), args, roster))
    ensures c.state == ExecAll(old(c.state), Issued(old(c.state), SyncCmds(old(c.state), args, roster)))
  {
    if !args.createCluster {
      return true;
    }
    ghost var s0 := c.state;
    DeployInfrastructure(c, args);
    ghost var s1 := c.state;
    ghost var infra := InfraCmds(s0, args);
    ok := DeleteLegacyNamespaces(c, roster);
    SyncIssued(s0, args, roster, s1);
    ConcatAssoc(old(c.log), infra, Issued(s1, DeletePhase(s1, roster)));
    ExecAllAppend(s0, infra, Issued(s1, DeletePhase(s1, roster)));
    if !ok {
      return;
    }
    ghost var s2 := c.state;
    DeployTenants(c, args, roster);
    SyncCmdsSplit(s0, args, roster, s1, s2);
    ConcatAssoc(old(c.log), infra + DeletePhase(s1, roster), TenantUpsertCmds(s2, args, roster));
  }

  /** Terraform commands leave the cluster state alone. */
  lemma TerraformKeepsState(s: ClusterState, vars: map<string, TfValue>)
    ensures ExecAll(s, PlanCmds(vars)) == s && ExecAll(s, ApplyCmds(vars)) == s
    ensures forall c :: c in PlanCmds(vars) ==> !c.TerraformApply?
  {
    var plan := PlanCmds(vars);
    assert plan[1..] == [TerraformInit(StagingDir), TerraformPlan(StagingDir, Some(VarFileName))];
    ExecAllTwo(s, TerraformInit(StagingDir), TerraformPlan(StagingDir, Some(VarFileName)));
    ExecAllTwo(s, WriteVarFile(VarFilePath, vars), TerraformApply(StagingDir, Some(VarFileName)));
  }

  /** generate_tfvars_json: the variables written to the file. */
  method GenerateTfvars(tenants: seq<TenantRecord>, args: Args) returns (vars: map<string, TfValue>)
    ensures vars == TfVars(tenants, args)
  {
    var entries := TfvarsEntries(tenants);
    vars := map["tenants" := TfList(entries),
                "is_github_actions" := TfBool(args.isGithubActions),
                "region" := TfStr(args.region),
                "project_id" := TfStr(args.gcProjectId),
                "domain_name" := TfStr(args.domainName),
                "create_cluster" := TfBool(args.createCluster)];
  }

  /** After `terraform apply`: record or recover the tag, then sync with it; `ok` when both succeed. */
  method TagAndSync(bucket: BlobStore, c: Cluster, args: Args, roster: seq<TenantRecord>) returns (ok: bool)
    modifies bucket, c
    ensures var tag := TagToDeploy(args.gitTag, old(bucket.blobs));
      && bucket.blobs == RecordTag(args.gitTag, old(bucket.blobs))
      && (tag.Failure? ==> !ok && c.log == old(c.log) && c.state == old(c.state))
      && (tag.Success? ==>
            var sync := SyncCmds(old(c.state), args.(gitTag := tag.value), roster);
            && (ok <==> NoFailure(old(c.state), sync))
            && c.log == old(c.log) + Issued(old(c.state), sync)
            && c.state == ExecAll(old(c.state), Issued(old(c.state), sync)))
  {
    var tag := ResolveTag(bucket, args.gitTag);
    if tag.Failure? {
      return false;
    }
    ok := Sync(c, args.(gitTag := tag.value), roster);
  }

  /**
   * main: read the roster from tenants.json, write the variables file; on `plan` run init and
   * plan and stop; on `apply` apply, record or recover the tag, then sync with that tag.
   */
  method DeployFromBucket(bucket: BlobStore, c: Cluster, args: Args) returns (ok: bool)
    modifies bucket, c
    ensures var roster := RosterOf(Lookup(old(bucket.blobs), TenantsFile));
            var tag := TagToDeploy(args.gitTag, old(bucket.blobs));
      && (roster.Failure? ==> !ok && bucket.blobs == old(bucket.blobs) && c.log == old(c.log) && c.state == old(c.state))
      && (roster.Success? && args.action.Plan? ==>
            ok && bucket.blobs == old(bucket.blobs) && c.state == old(c.state)
            && c.log == old(c.log) + PlanCmds(TfVars(roster.value, args)))
      && (roster.Success? && args.action.Apply? && tag.Failure? ==>
            !ok && bucket.blobs == RecordTag(args.gitTag, old(bucket.blobs))
            && c.log == old(c.log) + ApplyCmds(TfVars(roster.value, args)) && c.state == old(c.state))
      && (roster.Success? && args.action.Apply? && tag.Success? ==>
            var sync := SyncCmds(old(c.state), args.(gitTag := tag.value), roster.value);
            && (ok <==> NoFailure(old(c.state), sync))
            && bucket.blobs == RecordTag(args.gitTag, old(bucket.blobs))
            && c.log == old(c.log) + ApplyCmds(TfVars(roster.value, args)) + Issued(old(c.state), sync)
            && c.state == ExecAll(old(c.state), Issued(old(c.state), sync)))
  {
    var rosterBlob := bucket.Read(TenantsFile);
    var roster := RosterOf(rosterBlob);
    if roster.Failure? {
      return false;
    }
    var vars := GenerateTfvars(roster.value, args);
    TerraformKeepsState(c.state, vars);
    if args.action.Plan? {
      c.RunAll(PlanCmds(vars));
      return true;
    }
    c.RunAll(ApplyCmds(vars));
    ok := TagAndSync(bucket, c, args, roster.value);
    ghost var tag := TagToDeploy(args.gitTag, old(bucket.blobs));
    if tag.Success? {
      ghost var sync := SyncCmds(old(c.state), args.(gitTag := tag.value), roster.value);
      ConcatAssoc(old(c.log), ApplyCmds(vars), Issued(old(c.state), sync));
    }
  }
}
