/**
 * deploy-terraform.py: writes the Terraform variables for one environment from the
 * enterprise-tenant roster, then runs `terraform init` followed by `plan` or by
 * `apply -auto-approve` in that environment's directory. The script is a straight line of
 * commands, so it is modelled as the command list it issues.
 */
module TerraformDeploy {
  import opened Wrappers
  import opened Text
  import opened Roster
  import opened Store
  import opened Cluster

  const RosterFile := "enterprise-tenants.json"
  const VarFileName := "deployment.auto.tfvars.json"

  /** `--action` and `--environment`, restricted by the argument parser to these values. */
  datatype Action = Plan | Apply
  datatype Environment = Staging | Production

  datatype Args = Args(
    action: Action, bucketName: string, gcProjectId: string, isGithubActions: bool,
    region: string, createCluster: bool, domainName: string, environment: Environment)

  function EnvironmentName(e: Environment): string {
    match e
    case Staging => "staging"
    case Production => "production"
  }

  /** The Terraform working directory of the environment. */
  function WorkDir(e: Environment): string {
    "./terraform/" + EnvironmentName(e)
  }

  /** Where the variables file is written. */
  function VarFilePath(e: Environment): (path: string)
    ensures StartsWith(path, WorkDir(e) + "/") && EndsWith(path, VarFileName)
  {
    var path := WorkDir(e) + "/" + VarFileName;
    assert path[..|WorkDir(e) + "/"|] == WorkDir(e) + "/";
    assert path[|path| - |VarFileName|..] == VarFileName;
    path
  }

  /** The two environments write to different files. */
  lemma VarFilePathsDistinct()
    ensures VarFilePath(Staging) != VarFilePath(Production)
  {
    assert VarFilePath(Staging)[12] == 's' && VarFilePath(Production)[12] == 'p';
  }

  /** generate_tfvars_json: the enterprise tenants plus five settings copied from the arguments. */
  function TfVars(roster: seq<TenantRecord>, args: Args): map<string, TfValue> {
    map["enterprise_tenants" := TfList(TfTenants(roster)),
        "is_github_actions" := TfBool(args.isGithubActions),
        "region" := TfStr(args.region),
        "project_id" := TfStr(args.gcProjectId),
        "domain_name" := TfStr(args.domainName),
        "create_cluster" := TfBool(args.createCluster)]
  }

  /**
   * The variables hold one `{id, domain}` entry per roster entry, in roster order, and the
   * settings exactly as given.
   */
  lemma TfVarsContents(roster: seq<TenantRecord>, args: Args)
    ensures var vars := TfVars(roster, args);
      && vars.Keys == {"enterprise_tenants", "is_github_actions", "region", "project_id", "domain_name", "create_cluster"}
      && vars["enterprise_tenants"].TfList?
      && |vars["enterprise_tenants"].entries| == |roster|
      && (forall i :: 0 <= i < |roster| ==>
            vars["enterprise_tenants"].entries[i] == TfTenant(roster[i].tenantId, roster[i].dns))
      && vars["is_github_actions"] == TfBool(args.isGithubActions)
      && vars["region"] == TfStr(args.region)
      && vars["project_id"] == TfStr(args.gcProjectId)
      && vars["domain_name"] == TfStr(args.domainName)
      && vars["create_cluster"] == TfBool(args.createCluster)
  {
  }

  /** The commands of a run: write the variables, init, then plan or apply, all in the environment directory. */
  function RunCmds(roster: seq<TenantRecord>, args: Args): seq<Command> {
    var dir := WorkDir(args.environment);
    [WriteVarFile(VarFilePath(args.environment), TfVars(roster, args)), TerraformInit(dir)]
      + (match args.action
         case Plan => [TerraformPlan(dir, None)]
         case Apply => [TerraformApply(dir, None)])
  }

  /** main: a roster that cannot be read as a list fails the run before any command. */
  function Main(blobs: map<string, Blob>, args: Args): (r: Result<seq<Command>, string>)
    ensures r.Success? <==> RosterOf(Lookup(blobs, RosterFile)).Success?
  {
    var roster :- RosterOf(Lookup(blobs, RosterFile));
    Success(RunCmds(roster, args))
  }

  /**
   * `plan` never applies; `apply` runs `init` immediately before its single `apply`; both write
   * the variables file first.
   */
  lemma RunOrder(roster: seq<TenantRecord>, args: Args)
    ensures var cmds := RunCmds(roster, args);
      && |cmds| == 3
      && cmds[0] == WriteVarFile(VarFilePath(args.environment), TfVars(roster, args))
      && cmds[1] == TerraformInit(WorkDir(args.environment))
      && (args.action.Plan? ==> forall c :: c in cmds ==> !c.TerraformApply?)
      && (args.action.Apply? ==>
            (cmds[2] == TerraformApply(WorkDir(args.environment), None)
             && forall i :: 0 <= i < 2 ==> !cmds[i].TerraformApply?))
  {
  }

  /** A missing roster yields an empty tenant list; the settings are written all the same. */
  lemma MissingRosterIsEmpty(blobs: map<string, Blob>, args: Args)
    requires RosterFile !in blobs
    ensures Main(blobs, args).Success?
    ensures Main(blobs, args).value[0].vars["enterprise_tenants"] == TfList([])
  {
  }
}
