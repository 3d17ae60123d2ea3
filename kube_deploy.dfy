/**
 * deploy-kubernetes.py: reconciles the cluster with the enterprise-tenant roster.
 * One sync pass installs the infrastructure chart, deletes the park releases (and their
 * namespaces) that belong to no desired environment, then upserts backend and frontend
 * releases for `free`, `premium` and every enterprise tenant, in that order.
 */
module KubeDeploy {
  import opened Wrappers
  import opened Text
  import opened Roster
  import opened Store
  import opened Cluster

  const BackendReleaseName := "park-backend"
  const FrontendReleaseName := "park-frontend"
  const InfraNamespace := "infra-ns"
  const InfraRelease := "park-infra"
  const NotSet := "NOT_SET"
  const RosterFile := "enterprise-tenants.json"

  /** The command-line arguments the script works from. */
  datatype Args = Args(
    bucketName: string, gcProjectId: string, isGithubActions: bool, region: string,
    repository: string, gitTag: string, identityApiKey: string, identityAuthDomain: string,
    domainName: string, infraUrl: string)

  /** One deployment environment: `free`, `premium` or an enterprise tenant. */
  datatype Env = Env(name: string, subdomain: string, tenantType: string, tenantId: string)

  function NamespaceName(env: string): string {
    env + "-ns"
  }

  function DeploymentName(env: string, release: string): string {
    env + "-" + release
  }

  /** Different environments get different namespaces. */
  lemma NamespaceNameInjective(a: string, b: string)
    ensures NamespaceName(a) == NamespaceName(b) <==> a == b
  {
    if NamespaceName(a) == NamespaceName(b) {
      assert a == NamespaceName(a)[..|a|];
      assert b == NamespaceName(b)[..|b|];
    }
  }

  /** A release named by this script for a chart ends with that chart's release name. */
  lemma DeploymentNameEndsWith(env: string, release: string)
    ensures EndsWith(DeploymentName(env, release), release)
    ensures StartsWith(DeploymentName(env, release), env + "-")
  {
    var s := DeploymentName(env, release);
    assert s[|s| - |release|..] == release;
    assert s[..|env + "-"|] == env + "-";
  }

  /** free, premium, then the enterprise tenants in roster order. */
  function Environments(roster: seq<TenantRecord>): seq<Env> {
    [Env("free", "free", "free", NotSet), Env("premium", "premium", "premium", NotSet)]
      + seq(|roster|, i requires 0 <= i < |roster| =>
              Env(roster[i].tenantId, roster[i].dns, "enterprise", roster[i].tenantId))
  }

  /**
   * The deploy order: free and premium (tenant id NOT_SET), then each enterprise tenant in roster
   * order, deployed under its own id with its dns as subdomain.
   */
  lemma EnvironmentsOrder(roster: seq<TenantRecord>)
    ensures |Environments(roster)| == |roster| + 2
    ensures Environments(roster)[0] == Env("free", "free", "free", NotSet)
    ensures Environments(roster)[1] == Env("premium", "premium", "premium", NotSet)
    ensures forall i :: 0 <= i < |roster| ==>
      Environments(roster)[i + 2] == Env(roster[i].tenantId, roster[i].dns, "enterprise", roster[i].tenantId)
  {
  }

  /** The namespaces that must survive: one per enterprise tenant, plus free-ns and premium-ns. */
  function Desired(roster: seq<TenantRecord>): (ns: seq<string>)
    ensures |ns| == |roster| + 2
  {
    seq(|roster|, i requires 0 <= i < |roster| => NamespaceName(roster[i].tenantId))
      + [NamespaceName("free"), NamespaceName("premium")]
  }

  /** Every environment's namespace is desired. */
  lemma EnvironmentsDesired(roster: seq<TenantRecord>)
    ensures forall e :: e in Environments(roster) ==> NamespaceName(e.name) in Desired(roster)
  {
    var envs := Environments(roster);
    var d := Desired(roster);
    forall e | e in envs ensures NamespaceName(e.name) in d {
      var k :| 0 <= k < |envs| && envs[k] == e;
      if k == 0 {
        assert d[|roster|] == NamespaceName("free");
      } else if k == 1 {
        assert d[|roster| + 1] == NamespaceName("premium");
      } else {
        assert d[k - 2] == NamespaceName(roster[k - 2].tenantId);
      }
    }
  }

  /** A listed release is a deletion candidate: a park backend/frontend outside every desired namespace. */
  predicate IsStale(r: Row, desired: seq<string>) {
    (EndsWith(r.name, BackendReleaseName) || EndsWith(r.name, FrontendReleaseName)) && r.namespace !in desired
  }

  /** The deletion candidates of a listing, in listing order. */
  function StaleRows(rows: seq<Row>, desired: seq<string>): (out: seq<Row>)
  {
    if rows == [] then []
    else
      var rest := StaleRows(rows[..|rows| - 1], desired);
      var last := rows[|rows| - 1];
      if IsStale(last, desired) then rest + [last] else rest
  }

  /** A row is a candidate exactly when it is listed and stale. */
  lemma {:induction false} StaleRowsMembers(rows: seq<Row>, desired: seq<string>)
    ensures forall r :: r in StaleRows(rows, desired) <==> r in rows && IsStale(r, desired)
  {
    if rows != [] {
      StaleRowsMembers(rows[..|rows| - 1], desired);
      assert rows == rows[..|rows| - 1] + [rows[|rows| - 1]];
    }
  }

  /** Candidates keep their listing order, so distinct listed rows give distinct candidates. */
  lemma {:induction false} StaleRowsDistinct(rows: seq<Row>, desired: seq<string>)
    requires NoDuplicates(rows)
    ensures NoDuplicates(StaleRows(rows, desired))
  {
    if rows != [] {
      var p := rows[..|rows| - 1];
      assert NoDuplicates(p);
      StaleRowsDistinct(p, desired);
      StaleRowsMembers(p, desired);
      assert rows[|rows| - 1] !in p;
    }
  }

  function NamespacesOf(rows: seq<Row>): (ns: seq<string>)
  {
    seq(|rows|, i requires 0 <= i < |rows| => rows[i].namespace)
  }

  /** Dedup keeps exactly the elements of its input, each once. */
  lemma {:induction false} DedupMembers(xs: seq<string>)
    ensures forall x :: x in Dedup(xs) <==> x in xs
    ensures NoDuplicates(Dedup(xs))
  {
    if xs != [] {
      DedupMembers(xs[..|xs| - 1]);
      assert xs == xs[..|xs| - 1] + [xs[|xs| - 1]];
    }
  }

  /** The distinct elements of a list, each once (first occurrences, in order). */
  function Dedup(xs: seq<string>): (out: seq<string>)
  {
    if xs == [] then []
    else
      var rest := Dedup(xs[..|xs| - 1]);
      var last := xs[|xs| - 1];
      if last in rest then rest else rest + [last]
  }

  function UninstallCmds(rows: seq<Row>): (cmds: seq<Command>)
  {
    seq(|rows|, i requires 0 <= i < |rows| => HelmUninstall(rows[i].name, rows[i].namespace))
  }

  function DeleteNamespaceCmds(namespaces: seq<string>): (cmds: seq<Command>)
  {
    seq(|namespaces|, i requires 0 <= i < |namespaces| => DeleteNamespace(namespaces[i]))
  }

  /** delete_old_deployments: list, uninstall every candidate, then delete each of their namespaces once. */
  function DeleteCmds(s: ClusterState, roster: seq<TenantRecord>): seq<Command> {
    var stale := StaleRows(Listing(s), Desired(roster));
    [HelmList] + UninstallCmds(stale) + DeleteNamespaceCmds(Dedup(NamespacesOf(stale)))
  }

  function InfraValues(args: Args): Values {
    [("repository", args.repository),
     ("gitTag", args.gitTag),
     ("identityPlatForm.apiKey", args.identityApiKey),
     ("identityPlatForm.authDomain", args.identityAuthDomain),
     ("gc_project_id", args.gcProjectId),
     ("domain", args.domainName)]
  }

  function AuthUrl(args: Args): string {
    "http://" + args.domainName + "/auth"
  }

  function ServiceUrl(args: Args, env: Env, service: string): string {
    "http://" + env.subdomain + "." + args.domainName + "/" + service
  }

  function BackendValues(args: Args, env: Env): Values {
    [("repository", args.repository),
     ("gitTag", args.gitTag),
     ("identityPlatForm.apiKey", args.identityApiKey),
     ("identityPlatForm.authDomain", args.identityAuthDomain),
     ("gc_project_id", args.gcProjectId),
     ("domain", args.domainName),
     ("environment_name", env.name),
     ("subdomain", env.subdomain),
     ("authenticationService.url", AuthUrl(args)),
     ("infrastructureManagement.url", args.infraUrl)]
  }

  function FrontendValues(args: Args, env: Env): Values {
    [("repository", args.repository),
     ("gitTag", args.gitTag),
     ("identityPlatForm.apiKey", args.identityApiKey),
     ("identityPlatForm.authDomain", args.identityAuthDomain),
     ("gc_project_id", args.gcProjectId),
     ("frontend.env.authUrl", AuthUrl(args)),
     ("frontend.env.infrastructureUrl", args.infraUrl),
     ("frontend.env.propertyUrl", ServiceUrl(args, env, "property")),
     ("frontend.env.parkingUrl", ServiceUrl(args, env, "parking")),
     ("domain", args.domainName),
     ("environment_name", env.name),
     ("subdomain", env.subdomain),
     ("tenant_id", env.tenantId),
     ("tenant_type", env.tenantType)]
  }

  /** The backend release an environment should have. */
  function BackendOf(args: Args, env: Env): Release {
    Release(DeploymentName(env.name, BackendReleaseName), NamespaceName(env.name), "./helm/backend", BackendValues(args, env))
  }

  /** The frontend release an environment should have. */
  function FrontendOf(args: Args, env: Env): Release {
    Release(DeploymentName(env.name, FrontendReleaseName), NamespaceName(env.name), "./helm/frontend", FrontendValues(args, env))
  }

  function BackendCmd(args: Args, env: Env): Command {
    UpgradeCmd(BackendOf(args, env))
  }

  function FrontendCmd(args: Args, env: Env): Command {
    UpgradeCmd(FrontendOf(args, env))
  }

  /** deploy_environment: namespace, then backend, then frontend. */
  function EnvCmds(s: ClusterState, args: Args, env: Env): seq<Command> {
    EnsureNamespaceCmds(s, NamespaceName(env.name)) + [BackendCmd(args, env), FrontendCmd(args, env)]
  }

  /** The commands deploying the environments in order, each seeing the state its predecessors left. */
  function UpsertCmds(s: ClusterState, args: Args, envs: seq<Env>): seq<Command>
    decreases |envs|
  {
    if envs == [] then []
    else
      var pre := UpsertCmds(s, args, envs[..|envs| - 1]);
      pre + EnvCmds(ExecAll(s, pre), args, envs[|envs| - 1])
  }

  /** Credentials (outside GitHub Actions), the infrastructure namespace and chart. */
  function InfraCmds(s: ClusterState, args: Args): seq<Command> {
    (if args.isGithubActions then [] else [GetCredentials(args.gcProjectId + "-gke", args.region)])
      + EnsureNamespaceCmds(s, InfraNamespace)
      + [HelmUpgradeInstall(InfraRelease, InfraNamespace, "./helm/infrastructure", InfraValues(args))]
  }

  /** sync_k8s_deployments_with_tenants: infrastructure, deletions, then upserts. */
  function SyncCmds(s: ClusterState, args: Args, roster: seq<TenantRecord>): seq<Command> {
    var infra := InfraCmds(s, args);
    var s1 := ExecAll(s, infra);
    var deletions := DeleteCmds(s1, roster);
    infra + deletions + UpsertCmds(ExecAll(s1, deletions), args, Environments(roster))
  }

  /** Deploying the first `i + 1` environments extends deploying the first `i` by the next one. */
  lemma UpsertCmdsSnoc(s: ClusterState, args: Args, envs: seq<Env>, i: nat)
    requires i < |envs|
    ensures UpsertCmds(s, args, envs[..i + 1])
         == UpsertCmds(s, args, envs[..i]) + EnvCmds(ExecAll(s, UpsertCmds(s, args, envs[..i])), args, envs[i])
    ensures ExecAll(s, UpsertCmds(s, args, envs[..i + 1]))
         == ExecAll(ExecAll(s, UpsertCmds(s, args, envs[..i])), EnvCmds(ExecAll(s, UpsertCmds(s, args, envs[..i])), args, envs[i]))
  {
    assert envs[..i + 1][..i] == envs[..i];
    var pre := UpsertCmds(s, args, envs[..i]);
    ExecAllAppend(s, pre, EnvCmds(ExecAll(s, pre), args, envs[i]));
  }

  /** A sync pass is its infrastructure part, its deletions, then its upserts, each run from the state the previous left. */
  lemma SyncCmdsSplit(s: ClusterState, args: Args, roster: seq<TenantRecord>, s1: ClusterState, s2: ClusterState)
    requires s1 == ExecAll(s, InfraCmds(s, args))
    requires s2 == ExecAll(s1, DeleteCmds(s1, roster))
    ensures SyncCmds(s, args, roster) == InfraCmds(s, args) + DeleteCmds(s1, roster) + UpsertCmds(s2, args, Environments(roster))
    ensures ExecAll(s, SyncCmds(s, args, roster)) == ExecAll(s2, UpsertCmds(s2, args, Environments(roster)))
  {
    ExecAllAppend(s, InfraCmds(s, args), DeleteCmds(s1, roster));
    ExecAllAppend(s, InfraCmds(s, args) + DeleteCmds(s1, roster), UpsertCmds(s2, args, Environments(roster)));
  }


  /** deploy_environment */
  method DeployEnvironment(c: Cluster, args: Args, env: Env)
    modifies c
    ensures c.log == old(c.log) + EnvCmds(old(c.state), args, env)
    ensures c.state == ExecAll(old(c.state), EnvCmds(old(c.state), args, env))
  {
    ghost var s0, log0 := c.state, c.log;
    ghost var ensure := EnsureNamespaceCmds(s0, NamespaceName(env.name));
    var backend, frontend := BackendCmd(args, env), FrontendCmd(args, env);
    c.EnsureNamespace(NamespaceName(env.name));
    c.Run(backend);
    ExecAllSnoc(s0, ensure, backend);
    c.Run(frontend);
    ExecAllSnoc(s0, ensure + [backend], frontend);
    assert EnvCmds(s0, args, env) == ensure + [backend] + [frontend];
    ConcatAssoc(log0, ensure, [backend]);
    ConcatAssoc(log0, ensure + [backend], [frontend]);
  }

  /** Deploys `envs[i]` after the first `i` environments have been deployed from `s0`. */
  method DeployNext(c: Cluster, args: Args, ghost s0: ClusterState, envs: seq<Env>, i: nat, ghost log0: seq<Command>)
    requires i < |envs|
    requires c.log == log0 + UpsertCmds(s0, args, envs[..i])
    requires c.state == ExecAll(s0, UpsertCmds(s0, args, envs[..i]))
    modifies c
    ensures c.log == log0 + UpsertCmds(s0, args, envs[..i + 1])
    ensures c.state == ExecAll(s0, UpsertCmds(s0, args, envs[..i + 1]))
  {
    ghost var pre := UpsertCmds(s0, args, envs[..i]);
    ghost var step := EnvCmds(c.state, args, envs[i]);
    DeployEnvironment(c, args, envs[i]);
    UpsertCmdsSnoc(s0, args, envs, i);
    ConcatAssoc(log0, pre, step);
  }

  /** create_and_update_deployments */
  method CreateAndUpdateDeployments(c: Cluster, args: Args, roster: seq<TenantRecord>)
    modifies c
    ensures c.log == old(c.log) + UpsertCmds(old(c.state), args, Environments(roster))
    ensures c.state == ExecAll(old(c.state), UpsertCmds(old(c.state), args, Environments(roster)))
  {
    ghost var s0 := c.state;
    var envs := Environments(roster);
    assert envs[..0] == [];
    DeployNext(c, args, s0, envs, 0, old(c.log));
    DeployNext(c, args, s0, envs, 1, old(c.log));
    for i := 0 to |roster|
      invariant c.log == old(c.log) + UpsertCmds(s0, args, envs[..i + 2])
      invariant c.state == ExecAll(s0, UpsertCmds(s0, args, envs[..i + 2]))
    {
      DeployNext(c, args, s0, envs, i + 2, old(c.log));
    }
    assert envs[..|roster| + 2] == envs;
  }

  /** The deletion candidates of a listing and their namespaces, collected in one pass. */
  method CollectStale(rows: seq<Row>, desired: seq<string>) returns (deployments: seq<Row>, namespaces: seq<string>)
    ensures deployments == StaleRows(rows, desired)
    ensures namespaces == NamespacesOf(deployments)
  {
    deployments := [];
    namespaces := [];
    for i := 0 to |rows|
      invariant deployments == StaleRows(rows[..i], desired)
      invariant namespaces == NamespacesOf(deployments)
    {
      assert rows[..i + 1][..i] == rows[..i];
      if IsStale(rows[i], desired) {
        deployments := deployments + [rows[i]];
        namespaces := namespaces + [rows[i].namespace];
      }
    }
    assert rows[..|rows|] == rows;
  }

  /** `helm uninstall <name> -n <namespace>` for each row, in order. */
  method UninstallAll(c: Cluster, rows: seq<Row>)
    modifies c
    ensures c.log == old(c.log) + UninstallCmds(rows)
    ensures c.state == ExecAll(old(c.state), UninstallCmds(rows))
  {
    for i := 0 to |rows|
      invariant c.log == old(c.log) + UninstallCmds(rows[..i])
      invariant c.state == ExecAll(old(c.state), UninstallCmds(rows[..i]))
    {
      var cmd := HelmUninstall(rows[i].name, rows[i].namespace);
      ExecAllSnoc(old(c.state), UninstallCmds(rows[..i]), cmd);
      assert UninstallCmds(rows[..i + 1]) == UninstallCmds(rows[..i]) + [cmd];
      c.Run(cmd);
    }
    assert rows[..|rows|] == rows;
  }

  /** `kubectl delete namespace` for each namespace, in order. */
  method DeleteNamespaces(c: Cluster, namespaces: seq<string>)
    modifies c
    ensures c.log == old(c.log) + DeleteNamespaceCmds(namespaces)
    ensures c.state == ExecAll(old(c.state), DeleteNamespaceCmds(namespaces))
  {
    for i := 0 to |namespaces|
      invariant c.log == old(c.log) + DeleteNamespaceCmds(namespaces[..i])
      invariant c.state == ExecAll(old(c.state), DeleteNamespaceCmds(namespaces[..i]))
    {
      ExecAllSnoc(old(c.state), DeleteNamespaceCmds(namespaces[..i]), DeleteNamespace(namespaces[i]));
      assert DeleteNamespaceCmds(namespaces[..i + 1]) == DeleteNamespaceCmds(namespaces[..i]) + [DeleteNamespace(namespaces[i])];
      c.Run(DeleteNamespace(namespaces[i]));
    }
    assert namespaces[..|namespaces|] == namespaces;
  }

  /** Uninstalls the candidates, then deletes their namespaces. */
  method RemoveStale(c: Cluster, deployments: seq<Row>, toDelete: seq<string>)
    modifies c
    ensures c.log == old(c.log) + (UninstallCmds(deployments) + DeleteNamespaceCmds(toDelete))
    ensures c.state == ExecAll(old(c.state), UninstallCmds(deployments) + DeleteNamespaceCmds(toDelete))
  {
    UninstallAll(c, deployments);
    DeleteNamespaces(c, toDelete);
    ExecAllAppend(old(c.state), UninstallCmds(deployments), DeleteNamespaceCmds(toDelete));
    ConcatAssoc(old(c.log), UninstallCmds(deployments), DeleteNamespaceCmds(toDelete));
  }

  /** delete_old_deployments, with each candidate's own name and namespace passed to `helm uninstall`. */
  method DeleteOldDeployments(c: Cluster, roster: seq<TenantRecord>)
    modifies c
    ensures c.log == old(c.log) + DeleteCmds(old(c.state), roster)
    ensures c.state == ExecAll(old(c.state), DeleteCmds(old(c.state), roster))
  {
    var rows := c.HelmListRows();
    var deployments, namespaces := CollectStale(rows, Desired(roster));
    var toDelete := Dedup(namespaces);
    ghost var rest := UninstallCmds(deployments) + DeleteNamespaceCmds(toDelete);
    assert DeleteCmds(old(c.state), roster) == [HelmList] + rest;
    RemoveStale(c, deployments, toDelete);
    ExecAllAppend(old(c.state), [HelmList], rest);
    ConcatAssoc(old(c.log), [HelmList], rest);
  }

  /** The first part of a sync: credentials, then the infrastructure namespace and chart. */
  method DeployInfrastructure(c: Cluster, args: Args)
    modifies c
    ensures c.log == old(c.log) + InfraCmds(old(c.state), args)
    ensures c.state == ExecAll(old(c.state), InfraCmds(old(c.state), args))
  {
    ghost var s0 := c.state;
    ghost var creds: seq<Command> := [];
    if !args.isGithubActions {
      c.Run(GetCredentials(args.gcProjectId + "-gke", args.region));
      creds := [GetCredentials(args.gcProjectId + "-gke", args.region)];
    }
    assert c.state == s0 == ExecAll(s0, creds);
    c.EnsureNamespace(InfraNamespace);
    ghost var ensure := EnsureNamespaceCmds(s0, InfraNamespace);
    ExecAllAppend(s0, creds, ensure);
    var infraCmd := HelmUpgradeInstall(InfraRelease, InfraNamespace, "./helm/infrastructure", InfraValues(args));
    c.Run(infraCmd);
    ExecAllSnoc(s0, creds + ensure, infraCmd);
    assert InfraCmds(s0, args) == creds + ensure + [infraCmd];
  }

  /** sync_k8s_deployments_with_tenants */
  method Sync(c: Cluster, args: Args, roster: seq<TenantRecord>)
    modifies c
    ensures c.log == old(c.log) + SyncCmds(old(c.state), args, roster)
    ensures c.state == ExecAll(old(c.state), SyncCmds(old(c.state), args, roster))
  {
    DeployInfrastructure(c, args);
    ghost var s1 := c.state;
    DeleteOldDeployments(c, roster);
    ghost var s2 := c.state;
    SyncCmdsSplit(old(c.state), args, roster, s1, s2);
    CreateAndUpdateDeployments(c, args, roster);
    ConcatAssoc(old(c.log), InfraCmds(old(c.state), args), DeleteCmds(s1, roster));
    ConcatAssoc(old(c.log), InfraCmds(old(c.state), args) + DeleteCmds(s1, roster), UpsertCmds(s2, args, Environments(roster)));
  }

  /** No release left by the commands is a deletion candidate. */
  predicate NoStale(s: ClusterState, desired: seq<string>) {
    forall r :: r in s.releases ==> !IsStale(Row(r.name, r.namespace), desired)
  }

  /** Uninstalling a list of rows leaves only releases that were there and are not listed. */
  lemma {:induction false} UninstallsRemove(s: ClusterState, rows: seq<Row>)
    ensures ExecAll(s, UninstallCmds(rows)).namespaces == s.namespaces
    ensures forall x :: x in ExecAll(s, UninstallCmds(rows)).releases ==>
      x in s.releases && Row(x.name, x.namespace) !in rows
    decreases |rows|
  {
    if rows != [] {
      var cmds := UninstallCmds(rows);
      assert cmds[1..] == UninstallCmds(rows[1..]);
      var s' := Exec(s, cmds[0]);
      UninstallsRemove(s', rows[1..]);
      assert rows == [rows[0]] + rows[1..];
    }
  }

  /** Uninstalling distinct rows that are all installed never fails. */
  lemma {:induction false} UninstallsNoFailure(s: ClusterState, rows: seq<Row>)
    requires NoDuplicates(rows)
    requires forall r :: r in rows ==> HasRelease(s.releases, r.name, r.namespace)
    ensures NoFailure(s, UninstallCmds(rows))
    decreases |rows|
  {
    if rows != [] {
      var cmds := UninstallCmds(rows);
      assert cmds[1..] == UninstallCmds(rows[1..]);
      var s' := Exec(s, cmds[0]);
      forall r | r in rows[1..] ensures HasRelease(s'.releases, r.name, r.namespace) {
        var k :| 0 <= k < |rows[1..]| && rows[1..][k] == r;
        assert rows[k + 1] == r && rows[0] != r;
        var x :| x in s.releases && x.name == r.name && x.namespace == r.namespace;
        assert x in s'.releases;
      }
      assert NoDuplicates(rows[1..]) by {
        forall i, j | 0 <= i < j < |rows[1..]| ensures rows[1..][i] != rows[1..][j] {
          assert rows[1..][i] == rows[i + 1] && rows[1..][j] == rows[j + 1];
        }
      }
      UninstallsNoFailure(s', rows[1..]);
    }
  }

  /** Deleting namespaces never adds a release. */
  lemma {:induction false} DeletesShrink(s: ClusterState, namespaces: seq<string>)
    ensures forall x :: x in ExecAll(s, DeleteNamespaceCmds(namespaces)).releases ==> x in s.releases
    decreases |namespaces|
  {
    if namespaces != [] {
      var cmds := DeleteNamespaceCmds(namespaces);
      assert cmds[1..] == DeleteNamespaceCmds(namespaces[1..]);
      DeletesShrink(Exec(s, cmds[0]), namespaces[1..]);
    }
  }

  /** Deleting distinct existing namespaces never fails. */
  lemma {:induction false} DeletesNoFailure(s: ClusterState, namespaces: seq<string>)
    requires NoDuplicates(namespaces)
    requires forall n :: n in namespaces ==> n in s.namespaces
    ensures NoFailure(s, DeleteNamespaceCmds(namespaces))
    decreases |namespaces|
  {
    if namespaces != [] {
      var cmds := DeleteNamespaceCmds(namespaces);
      assert cmds[1..] == DeleteNamespaceCmds(namespaces[1..]);
      var s' := Exec(s, cmds[0]);
      forall n | n in namespaces[1..] ensures n in s'.namespaces {
        var k :| 0 <= k < |namespaces[1..]| && namespaces[1..][k] == n;
        assert namespaces[k + 1] == n && namespaces[0] != n;
      }
      assert NoDuplicates(namespaces[1..]) by {
        forall i, j | 0 <= i < j < |namespaces[1..]| ensures namespaces[1..][i] != namespaces[1..][j] {
          assert namespaces[1..][i] == namespaces[i + 1] && namespaces[1..][j] == namespaces[j + 1];
        }
      }
      DeletesNoFailure(s', namespaces[1..]);
    }
  }

  /** The state after the deletion phase, as uninstalls followed by namespace deletions. */
  lemma DeleteCmdsSteps(s: ClusterState, roster: seq<TenantRecord>)
    ensures var stale := StaleRows(Listing(s), Desired(roster));
            var uninstalls := UninstallCmds(stale);
            var deletes := DeleteNamespaceCmds(Dedup(NamespacesOf(stale)));
            ExecAll(s, DeleteCmds(s, roster)) == ExecAll(ExecAll(s, uninstalls), deletes)
            && (NoFailure(s, DeleteCmds(s, roster)) <==> NoFailure(s, uninstalls) && NoFailure(ExecAll(s, uninstalls), deletes))
  {
    var stale := StaleRows(Listing(s), Desired(roster));
    var uninstalls := UninstallCmds(stale);
    var deletes := DeleteNamespaceCmds(Dedup(NamespacesOf(stale)));
    assert DeleteCmds(s, roster) == [HelmList] + uninstalls + deletes;
    assert ExecAll(s, [HelmList]) == s && NoFailure(s, [HelmList]);
    ExecAllAppend(s, [HelmList], uninstalls);
    ExecAllAppend(s, [HelmList] + uninstalls, deletes);
  }

  /** After the deletion phase no deletion candidate is left. */
  lemma DeleteCmdsClean(s: ClusterState, roster: seq<TenantRecord>)
    ensures NoStale(ExecAll(s, DeleteCmds(s, roster)), Desired(roster))
  {
    var desired := Desired(roster);
    var stale := StaleRows(Listing(s), desired);
    var uninstalls := UninstallCmds(stale);
    var deletes := DeleteNamespaceCmds(Dedup(NamespacesOf(stale)));
    DeleteCmdsSteps(s, roster);
    UninstallsRemove(s, stale);
    DeletesShrink(ExecAll(s, uninstalls), Dedup(NamespacesOf(stale)));
    ListingRows(s);
    StaleRowsMembers(Listing(s), desired);
    forall r | r in ExecAll(s, DeleteCmds(s, roster)).releases
      ensures !IsStale(Row(r.name, r.namespace), desired)
    {
      assert r in s.releases;
      assert HasRelease(s.releases, r.name, r.namespace);
    }
  }

  /** On a well-formed cluster the deletion phase never fails: each candidate is installed and listed once, each namespace exists and is deleted once. */
  lemma DeleteCmdsNoFailure(s: ClusterState, roster: seq<TenantRecord>)
    requires WellFormed(s)
    ensures NoFailure(s, DeleteCmds(s, roster))
  {
    var desired := Desired(roster);
    var stale := StaleRows(Listing(s), desired);
    var uninstalls := UninstallCmds(stale);
    var namespaces := Dedup(NamespacesOf(stale));
    DeleteCmdsSteps(s, roster);
    ListingRows(s);
    ListingDistinct(s);
    StaleRowsMembers(Listing(s), desired);
    StaleRowsDistinct(Listing(s), desired);
    UninstallsNoFailure(s, stale);
    UninstallsRemove(s, stale);
    DedupMembers(NamespacesOf(stale));
    forall n | n in namespaces ensures n in ExecAll(s, uninstalls).namespaces {
      var k :| 0 <= k < |stale| && NamespacesOf(stale)[k] == n;
      assert stale[k] in Listing(s);
      var x :| x in s.releases && x.name == stale[k].name && x.namespace == stale[k].namespace;
    }
    DeletesNoFailure(ExecAll(s, uninstalls), namespaces);
  }

  /** deploy_environment never fails; it ensures the namespace and upserts backend, then frontend. */
  lemma EnvCmdsEffect(s: ClusterState, args: Args, env: Env)
    ensures NoFailure(s, EnvCmds(s, args, env))
    ensures ExecAll(s, EnvCmds(s, args, env))
         == ClusterState(Ensured(s.namespaces, NamespaceName(env.name)),
                         Upsert(Upsert(s.releases, BackendOf(args, env)), FrontendOf(args, env)))
  {
    var ns := NamespaceName(env.name);
    var ensure := EnsureNamespaceCmds(s, ns);
    EnsureNamespaceEffect(s, ns);
    var s1 := ExecAll(s, ensure);
    var b := BackendCmd(args, env);
    var f := FrontendCmd(args, env);
    ExecAllAppend(s, ensure, [b, f]);
    ExecAllTwo(s1, b, f);
    var s2 := Exec(s1, b);
    assert !Fails(s1, b);
    assert s2 == s1.(releases := Upsert(s1.releases, BackendOf(args, env)));
    assert !Fails(s2, f);
  }

  /** Deploying any list of environments never fails. */
  lemma {:induction false} UpsertCmdsNoFailure(s: ClusterState, args: Args, envs: seq<Env>)
    ensures NoFailure(s, UpsertCmds(s, args, envs))
    decreases |envs|
  {
    if envs != [] {
      var pre := UpsertCmds(s, args, envs[..|envs| - 1]);
      UpsertCmdsNoFailure(s, args, envs[..|envs| - 1]);
      EnvCmdsEffect(ExecAll(s, pre), args, envs[|envs| - 1]);
      ExecAllAppend(s, pre, EnvCmds(ExecAll(s, pre), args, envs[|envs| - 1]));
    }
  }

  /** A command that cannot create a deletion candidate. */
  predicate KeepsClean(c: Command, desired: seq<string>) {
    c.HelmUpgradeInstall? ==> !IsStale(Row(c.release, c.ns), desired)
  }

  lemma ExecKeepsNoStale(s: ClusterState, c: Command, desired: seq<string>)
    requires NoStale(s, desired) && KeepsClean(c, desired)
    ensures NoStale(Exec(s, c), desired)
  {
  }

  lemma {:induction false} ExecAllKeepsNoStale(s: ClusterState, cmds: seq<Command>, desired: seq<string>)
    requires NoStale(s, desired)
    requires forall c :: c in cmds ==> KeepsClean(c, desired)
    ensures NoStale(ExecAll(s, cmds), desired)
    decreases |cmds|
  {
    if cmds != [] {
      ExecKeepsNoStale(s, cmds[0], desired);
      ExecAllKeepsNoStale(Exec(s, cmds[0]), cmds[1..], desired);
    }
  }

  /** Deploying environments whose namespaces are desired deletes nothing and creates no candidate. */
  lemma {:induction false} UpsertCmdsClean(s: ClusterState, args: Args, envs: seq<Env>, desired: seq<string>)
    requires forall e :: e in envs ==> NamespaceName(e.name) in desired
    ensures forall c :: c in UpsertCmds(s, args, envs) ==> KeepsClean(c, desired) && !IsDeletion(c)
    decreases |envs|
  {
    if envs != [] {
      var prefix := envs[..|envs| - 1];
      assert forall e :: e in prefix ==> e in envs;
      UpsertCmdsClean(s, args, prefix, desired);
      var last := envs[|envs| - 1];
      assert last in envs;
      var pre := UpsertCmds(s, args, prefix);
      EnvCmdsClean(ExecAll(s, pre), args, last, desired);
      assert forall c :: c in pre + EnvCmds(ExecAll(s, pre), args, last) ==> c in pre || c in EnvCmds(ExecAll(s, pre), args, last);
    }
  }

  /** Deploying one environment whose namespace is desired deletes nothing and creates no candidate. */
  lemma EnvCmdsClean(s: ClusterState, args: Args, env: Env, desired: seq<string>)
    requires NamespaceName(env.name) in desired
    ensures forall c :: c in EnvCmds(s, args, env) ==> KeepsClean(c, desired) && !IsDeletion(c)
  {
  }

  /** The infrastructure part deletes nothing and creates no candidate. */
  lemma InfraCmdsClean(s: ClusterState, args: Args, desired: seq<string>)
    ensures forall c :: c in InfraCmds(s, args) ==> KeepsClean(c, desired) && !IsDeletion(c) && !IsEnvUpsert(c)
  {
    assert !EndsWith(InfraRelease, BackendReleaseName) && !EndsWith(InfraRelease, FrontendReleaseName);
  }

  /** The infrastructure part never fails: credentials, the namespace if missing, then the chart. */
  lemma InfraCmdsNoFailure(s: ClusterState, args: Args)
    ensures NoFailure(s, InfraCmds(s, args))
  {
    var creds := if args.isGithubActions then [] else [GetCredentials(args.gcProjectId + "-gke", args.region)];
    var ensure := EnsureNamespaceCmds(s, InfraNamespace);
    var chart := [HelmUpgradeInstall(InfraRelease, InfraNamespace, "./helm/infrastructure", InfraValues(args))];
    assert InfraCmds(s, args) == creds + ensure + chart;
    EnsureNamespaceEffect(s, InfraNamespace);
    assert ExecAll(s, creds) == s && NoFailure(s, creds);
    ExecAllAppend(s, creds, ensure);
    ExecAllAppend(s, creds + ensure, chart);
  }

  /** Sync never fails on a well-formed cluster. */
  lemma SyncNoFailure(s: ClusterState, args: Args, roster: seq<TenantRecord>)
    requires WellFormed(s)
    ensures NoFailure(s, SyncCmds(s, args, roster))
  {
    var infra := InfraCmds(s, args);
    var s1 := ExecAll(s, infra);
    var deletions := DeleteCmds(s1, roster);
    var s2 := ExecAll(s1, deletions);
    SyncCmdsSplit(s, args, roster, s1, s2);
    InfraCmdsNoFailure(s, args);
    ExecAllKeepsWellFormed(s, infra);
    DeleteCmdsNoFailure(s1, roster);
    UpsertCmdsNoFailure(s2, args, Environments(roster));
    ExecAllAppend(s, infra, deletions);
    ExecAllAppend(s, infra + deletions, UpsertCmds(s2, args, Environments(roster)));
  }

  /**
   * Convergence: after a sync no deletion candidate is left, so a second pass with the same roster
   * (whatever its other arguments) neither uninstalls a release nor deletes a namespace.
   */
  lemma SecondPassDeletesNothing(s: ClusterState, args: Args, roster: seq<TenantRecord>, args2: Args)
    ensures NoStale(ExecAll(s, SyncCmds(s, args, roster)), Desired(roster))
    ensures forall c :: c in SyncCmds(ExecAll(s, SyncCmds(s, args, roster)), args2, roster) ==> !IsDeletion(c)
  {
    SyncLeavesNoStale(s, args, roster);
    NoStaleSyncDeletesNothing(ExecAll(s, SyncCmds(s, args, roster)), args2, roster);
  }

  /** After a sync pass no release is a deletion candidate. */
  lemma SyncLeavesNoStale(s: ClusterState, args: Args, roster: seq<TenantRecord>)
    ensures NoStale(ExecAll(s, SyncCmds(s, args, roster)), Desired(roster))
  {
    var desired := Desired(roster);
    var s1 := ExecAll(s, InfraCmds(s, args));
    var s2 := ExecAll(s1, DeleteCmds(s1, roster));
    SyncCmdsSplit(s, args, roster, s1, s2);
    DeleteCmdsClean(s1, roster);
    EnvironmentsDesired(roster);
    UpsertCmdsClean(s2, args, Environments(roster), desired);
    ExecAllKeepsNoStale(s2, UpsertCmds(s2, args, Environments(roster)), desired);
  }

  /** A sync pass over a cluster without deletion candidates deletes nothing. */
  lemma NoStaleSyncDeletesNothing(t: ClusterState, args2: Args, roster: seq<TenantRecord>)
    requires NoStale(t, Desired(roster))
    ensures forall c :: c in SyncCmds(t, args2, roster) ==> !IsDeletion(c)
  {
    var desired := Desired(roster);
    var t1 := ExecAll(t, InfraCmds(t, args2));
    var t2 := ExecAll(t1, DeleteCmds(t1, roster));
    InfraCmdsClean(t, args2, desired);
    ExecAllKeepsNoStale(t, InfraCmds(t, args2), desired);
    NoStaleListsOnly(t1, roster);
    SyncCmdsSplit(t, args2, roster, t1, t2);
    EnvironmentsDesired(roster);
    UpsertCmdsClean(t2, args2, Environments(roster), desired);
  }

  /** Without deletion candidates no listed row is one. */
  lemma NoStaleNoCandidates(s: ClusterState, desired: seq<string>)
    requires NoStale(s, desired)
    ensures forall r :: r in Listing(s) ==> !IsStale(r, desired)
  {
    ListingRows(s);
    forall r | r in Listing(s)
      ensures !IsStale(r, desired)
    {
      var x :| x in s.releases && x.name == r.name && x.namespace == r.namespace;
      assert Row(x.name, x.namespace) == r;
    }
  }

  /** A listing without stale rows has no deletion candidates. */
  lemma {:induction false} StaleRowsNone(rows: seq<Row>, desired: seq<string>)
    requires forall r :: r in rows ==> !IsStale(r, desired)
    ensures StaleRows(rows, desired) == []
  {
    if rows != [] {
      var p := rows[..|rows| - 1];
      assert forall r :: r in p ==> r in rows;
      StaleRowsNone(p, desired);
      assert rows[|rows| - 1] in rows;
    }
  }

  /** Without deletion candidates the deletion phase only lists the releases. */
  lemma NoStaleListsOnly(s: ClusterState, roster: seq<TenantRecord>)
    requires NoStale(s, Desired(roster))
    ensures DeleteCmds(s, roster) == [HelmList]
  {
    var stale := StaleRows(Listing(s), Desired(roster));
    NoStaleNoCandidates(s, Desired(roster));
    StaleRowsNone(Listing(s), Desired(roster));
    assert Dedup(NamespacesOf(stale)) == [];
  }

  /** The deletion phase only lists, uninstalls and deletes namespaces, each outside the desired ones. */
  lemma DeleteCmdsOnlyDelete(s: ClusterState, roster: seq<TenantRecord>)
    ensures forall c :: c in DeleteCmds(s, roster) ==>
      !IsEnvUpsert(c) && (IsDeletion(c) ==> c.ns !in Desired(roster))
  {
    var desired := Desired(roster);
    var stale := StaleRows(Listing(s), desired);
    var namespaces := Dedup(NamespacesOf(stale));
    StaleRowsMembers(Listing(s), desired);
    DedupMembers(NamespacesOf(stale));
    forall c | c in DeleteCmds(s, roster)
      ensures !IsEnvUpsert(c) && (IsDeletion(c) ==> c.ns !in desired)
    {
      if c in UninstallCmds(stale) {
        var k :| 0 <= k < |stale| && UninstallCmds(stale)[k] == c;
        assert stale[k] in stale;
      } else if c in DeleteNamespaceCmds(namespaces) {
        var k :| 0 <= k < |namespaces| && DeleteNamespaceCmds(namespaces)[k] == c;
        assert namespaces[k] in NamespacesOf(stale);
        var m :| 0 <= m < |stale| && NamespacesOf(stale)[m] == namespaces[k];
        assert stale[m] in stale;
      }
    }
  }

  /** In a sync pass every uninstall and namespace deletion comes before every environment upsert. */
  lemma DeletionsBeforeUpserts(s: ClusterState, args: Args, roster: seq<TenantRecord>)
    ensures var cmds := SyncCmds(s, args, roster);
      forall i, j :: 0 <= i < j < |cmds| && IsDeletion(cmds[j]) ==> !IsEnvUpsert(cmds[i])
  {
    var infra := InfraCmds(s, args);
    var s1 := ExecAll(s, infra);
    var deletions := DeleteCmds(s1, roster);
    var s2 := ExecAll(s1, deletions);
    var upserts := UpsertCmds(s2, args, Environments(roster));
    SyncCmdsSplit(s, args, roster, s1, s2);
    InfraCmdsClean(s, args, Desired(roster));
    DeleteCmdsOnlyDelete(s1, roster);
    NoEnvUpsertIn(infra, deletions);
    EnvironmentsDesired(roster);
    UpsertCmdsClean(s2, args, Environments(roster), Desired(roster));
    PhaseOrder(infra + deletions, upserts);
  }

  /**
   * Protection: free-ns and premium-ns are always desired, and no command of a sync pass uninstalls
   * a release in, or deletes, a desired namespace.
   */
  lemma ProtectedNamespacesSurvive(s: ClusterState, args: Args, roster: seq<TenantRecord>)
    ensures NamespaceName("free") in Desired(roster) && NamespaceName("premium") in Desired(roster)
    ensures forall c :: c in SyncCmds(s, args, roster) && IsDeletion(c) ==> c.ns !in Desired(roster)
  {
    var d := Desired(roster);
    assert d[|roster|] == NamespaceName("free") && d[|roster| + 1] == NamespaceName("premium");
    var infra := InfraCmds(s, args);
    var s1 := ExecAll(s, infra);
    var s2 := ExecAll(s1, DeleteCmds(s1, roster));
    SyncCmdsSplit(s, args, roster, s1, s2);
    InfraCmdsClean(s, args, d);
    DeleteCmdsOnlyDelete(s1, roster);
    EnvironmentsDesired(roster);
    UpsertCmdsClean(s2, args, Environments(roster), d);
  }

  function EnvNames(envs: seq<Env>): (names: seq<string>)
    ensures |names| == |envs|
    ensures forall i :: 0 <= i < |envs| ==> names[i] == envs[i].name
  {
    seq(|envs|, i requires 0 <= i < |envs| => envs[i].name)
  }

  /** Backend and frontend releases never share a name. */
  lemma BackendFrontendDistinct(args: Args, e: Env, f: Env)
    ensures BackendOf(args, e).name != FrontendOf(args, f).name
  {
    DeploymentNameEndsWith(e.name, BackendReleaseName);
    DeploymentNameEndsWith(f.name, FrontendReleaseName);
    var b := BackendOf(args, e).name;
    var fr := FrontendOf(args, f).name;
    assert b[|b| - 4] == 'k';
    assert fr[|fr| - 4] == 't';
  }

  /** The environment is deployed: annotated namespace, backend and frontend with its values. */
  predicate Deployed(s: ClusterState, args: Args, e: Env) {
    BackendOf(args, e) in s.releases && FrontendOf(args, e) in s.releases && Annotated(s, NamespaceName(e.name))
  }

  /** deploy_environment leaves its own environment deployed. */
  lemma EnvCmdsDeploys(s: ClusterState, args: Args, e: Env)
    ensures Deployed(ExecAll(s, EnvCmds(s, args, e)), args, e)
  {
    EnvCmdsEffect(s, args, e);
    BackendFrontendDistinct(args, e, e);
    UpsertKeeps(Upsert(s.releases, BackendOf(args, e)), BackendOf(args, e), FrontendOf(args, e));
  }

  /** deploy_environment leaves every other environment deployed. */
  lemma EnvCmdsKeepsDeployed(s: ClusterState, args: Args, e: Env, other: Env)
    requires Deployed(s, args, other) && other.name != e.name
    ensures Deployed(ExecAll(s, EnvCmds(s, args, e)), args, other)
  {
    EnvCmdsEffect(s, args, e);
    NamespaceNameInjective(other.name, e.name);
    var mid := Upsert(s.releases, BackendOf(args, e));
    UpsertKeeps(s.releases, BackendOf(args, other), BackendOf(args, e));
    UpsertKeeps(mid, BackendOf(args, other), FrontendOf(args, e));
    BackendFrontendDistinct(args, e, other);
    UpsertKeeps(s.releases, FrontendOf(args, other), BackendOf(args, e));
    UpsertKeeps(mid, FrontendOf(args, other), FrontendOf(args, e));
  }

  /** Coverage: after deploying environments with distinct names, each of them is deployed. */
  lemma {:induction false} UpsertCmdsCover(s: ClusterState, args: Args, envs: seq<Env>)
    requires NoDuplicates(EnvNames(envs))
    ensures forall e :: e in envs ==> Deployed(ExecAll(s, UpsertCmds(s, args, envs)), args, e)
    decreases |envs|
  {
    if envs != [] {
      var prefix := envs[..|envs| - 1];
      var last := envs[|envs| - 1];
      assert NoDuplicates(EnvNames(prefix)) by {
        assert forall i :: 0 <= i < |prefix| ==> EnvNames(prefix)[i] == EnvNames(envs)[i];
      }
      UpsertCmdsCover(s, args, prefix);
      var pre := UpsertCmds(s, args, prefix);
      var m := ExecAll(s, pre);
      ExecAllAppend(s, pre, EnvCmds(m, args, last));
      var t := ExecAll(s, UpsertCmds(s, args, envs));
      assert t == ExecAll(m, EnvCmds(m, args, last));
      EnvCmdsDeploys(m, args, last);
      forall e | e in envs ensures Deployed(t, args, e) {
        var k :| 0 <= k < |envs| && envs[k] == e;
        if k < |envs| - 1 {
          assert e in prefix;
          assert EnvNames(envs)[k] == e.name && EnvNames(envs)[|envs| - 1] == last.name;
          EnvCmdsKeepsDeployed(m, args, last, e);
        }
      }
    }
  }

  /**
   * After a sync with a roster of distinct tenant ids (none named free or premium), every
   * environment has its annotated namespace and its backend and frontend releases.
   */
  lemma SyncCoversEnvironments(s: ClusterState, args: Args, roster: seq<TenantRecord>)
    requires UniqueIds(roster) && !HasTenant(roster, "free") && !HasTenant(roster, "premium")
    ensures forall e :: e in Environments(roster) ==> Deployed(ExecAll(s, SyncCmds(s, args, roster)), args, e)
  {
    var envs := Environments(roster);
    var s1 := ExecAll(s, InfraCmds(s, args));
    var s2 := ExecAll(s1, DeleteCmds(s1, roster));
    SyncCmdsSplit(s, args, roster, s1, s2);
    EnvNamesDistinct(roster);
    UpsertCmdsCover(s2, args, envs);
  }

  /** With unique tenant ids other than "free" and "premium", the environments have distinct names. */
  lemma EnvNamesDistinct(roster: seq<TenantRecord>)
    requires UniqueIds(roster) && !HasTenant(roster, "free") && !HasTenant(roster, "premium")
    ensures NoDuplicates(EnvNames(Environments(roster)))
  {
    var envs := Environments(roster);
    EnvironmentsOrder(roster);
    var names := EnvNames(envs);
    forall i, j | 0 <= i < j < |names| ensures names[i] != names[j] {
      if i >= 2 {
        assert names[i] == roster[i - 2].tenantId && names[j] == roster[j - 2].tenantId;
      } else if j >= 2 {
        assert names[j] == roster[j - 2].tenantId;
      }
    }
  }

  /**
   * delete_old_deployments as written: each candidate is a two-key dict, and unpacking a dict
   * in the `for deployment, ns in ...` loop yields its keys, so every uninstall names the
   * release "deployment" in the namespace "namespace".
   */
  function DeleteCmdsAsWritten(s: ClusterState, roster: seq<TenantRecord>): seq<Command> {
    var stale := StaleRows(Listing(s), Desired(roster));
    [HelmList]
      + seq(|stale|, i requires 0 <= i < |stale| => HelmUninstall("deployment", "namespace"))
      + DeleteNamespaceCmds(Dedup(NamespacesOf(stale)))
  }

  /**
   * As written, whenever there is a deletion candidate the first uninstall targets a release that
   * does not exist and fails, so the script exits before removing anything.
   */
  lemma AsWrittenUninstallFails(s: ClusterState, roster: seq<TenantRecord>)
    requires StaleRows(Listing(s), Desired(roster)) != []
    requires !HasRelease(s.releases, "deployment", "namespace")
    ensures var cmds := DeleteCmdsAsWritten(s, roster);
      |cmds| >= 2 && cmds[1] == HelmUninstall("deployment", "namespace")
      && Fails(Exec(s, cmds[0]), cmds[1]) && !NoFailure(s, cmds)
  {
    var cmds := DeleteCmdsAsWritten(s, roster);
    assert cmds[1..][0] == cmds[1];
  }

  /** A concrete cluster: one backend release of a tenant that is no longer in the (empty) roster. */
  function OrphanCluster(): ClusterState {
    ClusterState(map["acme-ns" := map[]], [Release("acme-park-backend", "acme-ns", "./helm/backend", [])])
  }

  lemma OrphanClusterStale()
    ensures WellFormed(OrphanCluster())
    ensures StaleRows(Listing(OrphanCluster()), Desired([])) == [Row("acme-park-backend", "acme-ns")]
  {
    var s := OrphanCluster();
    var row := Row("acme-park-backend", "acme-ns");
    ListingRows(s);
    assert Listing(s) == [row];
    OrphanRowStale();
    assert StaleRows(Listing(s), Desired([])) == [row];
  }

  lemma OrphanRowStale()
    ensures IsStale(Row("acme-park-backend", "acme-ns"), Desired([]))
  {
    var none: seq<TenantRecord> := [];
    assert Desired(none)[0] == NamespaceName("free") && Desired(none)[1] == NamespaceName("premium");
    assert NamespaceName("free")[0] == 'f' && NamespaceName("premium")[0] == 'p';
    assert "acme-ns"[0] == 'a';
    DeploymentNameEndsWith("acme", BackendReleaseName);
  }

  /** On that cluster the deletion pass as written fails, while the corrected one succeeds and removes the orphan. */
  lemma AsWrittenUninstallExample()
    ensures !NoFailure(OrphanCluster(), DeleteCmdsAsWritten(OrphanCluster(), []))
    ensures NoFailure(OrphanCluster(), DeleteCmds(OrphanCluster(), []))
    ensures NoStale(ExecAll(OrphanCluster(), DeleteCmds(OrphanCluster(), [])), Desired([]))
  {
    OrphanClusterStale();
    AsWrittenUninstallFails(OrphanCluster(), []);
    DeleteCmdsNoFailure(OrphanCluster(), []);
    DeleteCmdsClean(OrphanCluster(), []);
  }

  /**
   * main: read the roster (a missing file is an empty roster), record or recover the tag, and
   * run one sync pass with that tag. `ok` is false where the script fails. A roster object that
   * is not a list is read without complaint; the script fails only when the deletion step
   * first iterates it, after the infrastructure has been deployed.
   */
  method DeployFromBucket(bucket: BlobStore, c: Cluster, args: Args) returns (ok: bool)
    modifies bucket, c
    ensures var roster := RosterOf(Lookup(old(bucket.blobs), RosterFile));
            var tag := TagToDeploy(args.gitTag, old(bucket.blobs));
      && (ok <==> roster.Success? && tag.Success?)
      && bucket.blobs == RecordTag(args.gitTag, old(bucket.blobs))
      && (tag.Failure? ==> c.log == old(c.log) && c.state == old(c.state))
      && (tag.Success? && roster.Failure? ==>
            c.log == old(c.log) + InfraCmds(old(c.state), args.(gitTag := tag.value))
            && c.state == ExecAll(old(c.state), InfraCmds(old(c.state), args.(gitTag := tag.value))))
      && (ok ==> (c.log == old(c.log) + SyncCmds(old(c.state), args.(gitTag := tag.value), roster.value)
                  && c.state == ExecAll(old(c.state), SyncCmds(old(c.state), args.(gitTag := tag.value), roster.value))))
  {
    var rosterBlob := bucket.Read(RosterFile);
    var roster := RosterOf(rosterBlob);
    var tag := ResolveTag(bucket, args.gitTag);
    if tag.Failure? {
      return false;
    }
    if roster.Failure? {
      DeployInfrastructure(c, args.(gitTag := tag.value));
      return false;
    }
    Sync(c, args.(gitTag := tag.value), roster.value);
    ok := true;
  }
}
