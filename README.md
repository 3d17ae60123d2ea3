# park — a verified model of the tenant deployment scripts and the defect, garage and parking logic

park is a multi-tenant parking-garage management system. Its free and premium tiers share one
deployment each, and every enterprise tenant gets its own Kubernetes namespace. This project models
the logic of the system that can be stated without its infrastructure and proves what that logic
promises:

- **Tenant deployment (ci-cd).**
  - The tenant roster and its add/remove operations (`roster.dfy`, `manage_tenants.dfy`).
  - The bucket that holds the roster and the deployed tag (`store.dfy`).
  - A cluster of namespaces and Helm releases with the commands the scripts run against it (`cluster.dfy`).
  - The three deployment scripts (`kube_deploy.dfy`, `tenant_deploy.dfy`, `terraform_deploy.dfy`):
    the names they derive, the stale-release diff, deletion before upsert, the ordered per-environment
    upsert and the tag fallback.
- **Defects** (`defect.dfy`, `legacy_defect.dfy`, `defect_repo.dfy`, `defect_controller.dfy`,
  `legacy_defect_controller.dfy`). The defect aggregate in both source revisions, with its state
  round trip; the in-memory repository; the controllers' request mapping and the four per-status
  counters that every create, status change and delete keeps in step.
- **Garages** (`garage.dfy`, `charging_station.dfy`, `floor.dfy`, `garages_route.dfy`,
  `garage_events.dfy`). Validating constructors and setters, and the request, response and event mappings.
- **Parking occupancy** (`parking_repo.dfy`). In-place updates of garages, tickets and sessions;
  charging-station occupancy kept in step with the station flags.
- **Users and roles** (`roles.dfy`, `user_repo.dfy`). The role codes and the JSON-file user repository.
- **Front end** (`garage_form.dfy`, `user_form.dfy`, `add_defect.dfy`, `dropzone.dfy`, `analytics.dfy`).
  - The form validators, the `H:MM` time format and the charging-station list edits.
  - The image-upload state machine, the submit gating and the cleanup rule.
  - The dropzone's duplicate-name rule.
  - The 30-day carry-forward histograms.
- **Changed-defects report** (`defects_report.dfy`). Date rendering, the one-hour filter, the page
  assembly and the file name.

`wrappers.dfy` (Option and Result), `text.dfy` (decimal numbers, joins, JavaScript number parsing)
and `lists.dfy` (first-match search over keyed lists) are shared helpers.

Input and output are modelled as state or parameters:
- the Kubernetes cluster and the storage bucket are classes the scripts change;
- the current time, generated ids and the calendar conversion of a timestamp are parameters;
- the outcome of a network call (a signed URL, a PUT, a POST) is a parameter of the method that makes it.

## Model
| member | source | states |
|---|---|---|
| Roster.AddTenant | ci-cd/manage_enterprise_tenants.py:112-129 | `add_tenant` (the same code as manage-tenants.py:52-70): the roster comes back unchanged when the id is present, and otherwise gains `{tenantId, dns}` at the end |
| Roster.RemoveTenant | ci-cd/manage_enterprise_tenants.py:132-143 | `remove_tenant`: the result is no longer than the roster, holds only entries of the roster, and has no entry with the id |
| Roster.AddedContains | ci-cd/manage_enterprise_tenants.py:119-129 | after an add the id is present, the roster grew by at most one entry, and every earlier entry is still in its place |
| Roster.AddedIdempotent | ci-cd/manage_enterprise_tenants.py:112-129 | a second add of the same id changes nothing, whatever its dns |
| Roster.AddedKeepsUnique | ci-cd/manage_enterprise_tenants.py:112-129 | adding keeps tenant ids unique |
| Roster.RemoveTenantAppend | ci-cd/manage_enterprise_tenants.py:138 | the list comprehension is an order-preserving filter: removal distributes over concatenation |
| Roster.RemoveTenantSingle | ci-cd/manage_enterprise_tenants.py:138 | one entry survives exactly when its id differs |
| Roster.RemoveAbsent | ci-cd/manage_enterprise_tenants.py:137-142 | removing an id that is not present leaves the roster unchanged (the "not found" branch) |
| Roster.RemoveKeepsOthers | ci-cd/manage_enterprise_tenants.py:138 | every entry with another id survives |
| Roster.RemoveIdempotent | ci-cd/manage_enterprise_tenants.py:138 | removing twice is removing once |
| Roster.RemoveKeepsUnique | ci-cd/manage_enterprise_tenants.py:138 | removal keeps tenant ids unique |
| Roster.AddThenRemove | ci-cd/manage_enterprise_tenants.py:112-143 | adding a new tenant and removing it again restores the roster |
| Roster.TfTenants | ci-cd/deploy-terraform.py:149-151 | one `{id, domain}` entry per roster entry, in roster order, with `id = tenantId` and `domain = dns` |
| ManageTenants.UpdatedKeepsUniqueAndSettles | ci-cd/manage_enterprise_tenants.py:156-159 | either action keeps ids unique and is idempotent; after an add the id is present, after a remove it is absent |
| ManageTenants.Update | ci-cd/manage_enterprise_tenants.py:156-159 | applies exactly the requested add or remove |
| ManageTenants.ManageEnterpriseTenants | ci-cd/manage_enterprise_tenants.py:149-162 | a missing roster reads as empty; a roster that is not a list fails the run with the bucket untouched; otherwise the bucket afterwards holds the roster with exactly one change applied |
| ManageTenants.ManageTenants | ci-cd/manage-tenants.py:119-137 | as above for the roster file named on the command line; an add without a non-empty `--tenant-dns` is rejected before any write |
| ManageTenants.RepeatedRunSettles | ci-cd/manage_enterprise_tenants.py:149-162 | running the same change a second time leaves the bucket as the first run left it |
| Store.RosterOf | ci-cd/deploy-kubernetes.py:151-176 | a missing roster object reads as the empty list; a list reads as itself; anything else is a failure, met where the script first iterates the roster |
| Store.StoredTagAsWritten | ci-cd/deploy-kubernetes.py:179-197 | the deployment info as the code reads it: a missing object gives `{}`, whose `git_tag` lookup fails, so the read succeeds only for a stored deployment info |
| Store.StoredTag | ci-cd/deploy-kubernetes.py:179-197 | the intended reading: a missing object yields the empty tag; a stored deployment info yields its tag |
| Store.TagRoundTrip | ci-cd/deploy-kubernetes.py:200-209 | writing a tag and reading it back gives that tag, in both readings |
| Store.MissingDeploymentInfo | ci-cd/deploy-kubernetes.py:192-193 | the two readings differ exactly on a missing object, where the one as written fails |
| Store.TagToDeploy | ci-cd/deploy-kubernetes.py:366-374 | a tag given on the command line wins; without one and without a stored file the tag is empty |
| Store.TagPersists | ci-cd/deploy-kubernetes.py:366-374 | after a run given a tag, a run given none deploys that same tag and writes nothing, and no other object changed |
| Store.BlobStore.Read | ci-cd/deploy-kubernetes.py:187-197 | downloads the object under the key, or nothing when it does not exist |
| Store.BlobStore.Write | ci-cd/deploy-kubernetes.py:200-209 | uploads the object, replacing what was under the key and nothing else |
| Cluster.Cluster.NamespaceExists | ci-cd/deploy-kubernetes.py:108-114 | `kubectl get namespace` succeeds exactly when the namespace exists |
| Cluster.Cluster.HelmListRows | ci-cd/deploy-kubernetes.py:267-270 | `helm list --all-namespaces` returns the listing of the current releases and changes nothing; `Cluster.ListingRows` states one row per release, in order |
| Cluster.Cluster.EnsureNamespace | ci-cd/deploy-kubernetes.py:106-127 | `create_and_annotate_namespace` (the same in deploy.py:394-421): get, create only if missing, then annotate; the log and state grow by exactly those commands |
| Cluster.EnsureNamespaceEffect | ci-cd/deploy-kubernetes.py:106-127 | those commands never fail; afterwards the namespace exists, keeps its other annotations and carries `shared-gateway-access=true` |
| Cluster.Cluster.RunChecked | ci-cd/deploy.py:346-349 | `subprocess.run(..., check=True)`: issues the command and reports whether it succeeded, where the script would raise |
| Cluster.Issued | ci-cd/deploy.py:343-350 | the commands a `check=True` script issues are a prefix of its plan, and the whole plan when no command fails |
| Cluster.IssuedEndsAtFailure | ci-cd/deploy.py:343-350 | when some command fails, everything issued before the last issued command succeeded and that last one failed: the script stops at the first failure |
| Cluster.IssuedAppend | ci-cd/deploy.py:277-392 | issuing two steps in a row: all of the first and then what the second issues, or, when the first fails, only what the first issues |
| Cluster.DeletingGoneFails | ci-cd/deploy.py:343-350 | in a run of namespace deletions, deleting a namespace that is already gone fails |
| Cluster.DeletionsNoFailure | ci-cd/deploy.py:343-350 | deleting namespaces that all exist runs to its end exactly when no namespace is deleted twice |
| Cluster.UpsertKeys | ci-cd/deploy.py:306-322 | `helm upgrade --install` leaves the name and namespace of every release at its place in the list |
| Cluster.UpsertAppends | ci-cd/deploy.py:306-322 | `helm upgrade --install` of a release not yet installed appends it at the end |
| Cluster.ListingGrows | ci-cd/deploy.py:328-334 | hence after such an upgrade `helm list` shows the same rows, or one more at the end for the new release |
| KubeDeploy.NamespaceNameInjective | ci-cd/deploy-kubernetes.py:100-101 | `<env>-ns`: different environments get different namespaces |
| KubeDeploy.DeploymentNameEndsWith | ci-cd/deploy-kubernetes.py:103-104 | `<env>-<chart>` starts with `<env>-` and ends with the chart's release name |
| KubeDeploy.EnvironmentsOrder | ci-cd/deploy-kubernetes.py:295-309 | free, then premium (both with tenant id `NOT_SET`), then each enterprise tenant in roster order under its own id, with its dns as subdomain |
| KubeDeploy.Desired | ci-cd/deploy-kubernetes.py:262-264 | one namespace per roster entry plus `free-ns` and `premium-ns` |
| KubeDeploy.EnvironmentsDesired | ci-cd/deploy-kubernetes.py:262-264 | every deployed environment's namespace is a desired one |
| KubeDeploy.StaleRowsMembers | ci-cd/deploy-kubernetes.py:274-280 | a listed release is a candidate exactly when its name ends in `park-backend` or `park-frontend` and its namespace is not desired |
| KubeDeploy.StaleRowsDistinct | ci-cd/deploy-kubernetes.py:274-280 | distinct listed releases give distinct candidates |
| KubeDeploy.DedupMembers | ci-cd/deploy-kubernetes.py:283 | removing duplicate namespaces keeps exactly the same namespaces, each once |
| KubeDeploy.SyncCmdsSplit | ci-cd/deploy-kubernetes.py:217-257 | a sync pass is the infrastructure part, then the deletions, then the upserts, each run on the state the previous part left |
| KubeDeploy.DeployEnvironment | ci-cd/deploy-kubernetes.py:309-351 | `deploy_environment`: ensure the namespace, then the backend upgrade, then the frontend upgrade |
| KubeDeploy.DeployNext | ci-cd/deploy-kubernetes.py:300-307 | one loop step: the commands of the first i + 1 environments extend those of the first i |
| KubeDeploy.CreateAndUpdateDeployments | ci-cd/deploy-kubernetes.py:295-307 | deploys the environments in deploy order, each on the state its predecessors left |
| KubeDeploy.CollectStale | ci-cd/deploy-kubernetes.py:272-280 | the loop collects exactly the candidates, in listing order, and their namespaces |
| KubeDeploy.UninstallAll | ci-cd/deploy-kubernetes.py:285-288 | one `helm uninstall <name> -n <namespace>` per candidate, in order |
| KubeDeploy.DeleteNamespaces | ci-cd/deploy-kubernetes.py:291-293 | one `kubectl delete namespace` per collected namespace, in order |
| KubeDeploy.RemoveStale | ci-cd/deploy-kubernetes.py:285-293 | all uninstalls, then all namespace deletions |
| KubeDeploy.DeleteOldDeployments | ci-cd/deploy-kubernetes.py:261-293 | `delete_old_deployments` (with the uninstall corrected, see Findings): list, uninstall the candidates, delete their namespaces once each |
| KubeDeploy.DeployInfrastructure | ci-cd/deploy-kubernetes.py:229-253 | credentials unless on GitHub Actions, then the `infra-ns` namespace, then the `park-infra` chart |
| KubeDeploy.Sync | ci-cd/deploy-kubernetes.py:217-259 | `sync_k8s_deployments_with_tenants`: infrastructure, deletions, upserts |
| KubeDeploy.UninstallsRemove | ci-cd/deploy-kubernetes.py:285-288 | uninstalling leaves the namespaces alone and only releases that were there and were not uninstalled |
| KubeDeploy.UninstallsNoFailure | ci-cd/deploy-kubernetes.py:285-288 | uninstalling distinct installed releases never fails |
| KubeDeploy.DeletesShrink | ci-cd/deploy-kubernetes.py:291-293 | deleting namespaces never adds a release |
| KubeDeploy.DeletesNoFailure | ci-cd/deploy-kubernetes.py:291-293 | deleting distinct existing namespaces never fails |
| KubeDeploy.DeleteCmdsSteps | ci-cd/deploy-kubernetes.py:285-293 | the deletion phase's effect and failure are those of the uninstalls followed by the namespace deletions |
| KubeDeploy.DeleteCmdsClean | ci-cd/deploy-kubernetes.py:261-293 | after the deletion phase no release is a deletion candidate |
| KubeDeploy.DeleteCmdsNoFailure | ci-cd/deploy-kubernetes.py:261-293 | on a well-formed cluster the deletion phase never fails |
| KubeDeploy.EnvCmdsEffect | ci-cd/deploy-kubernetes.py:309-351 | `deploy_environment` never fails; its namespace ends up annotated and its backend and frontend releases upserted |
| KubeDeploy.UpsertCmdsNoFailure | ci-cd/deploy-kubernetes.py:295-307 | deploying any list of environments never fails |
| KubeDeploy.UpsertCmdsClean | ci-cd/deploy-kubernetes.py:295-351 | deploying environments with desired namespaces deletes nothing and creates no deletion candidate |
| KubeDeploy.EnvCmdsClean | ci-cd/deploy-kubernetes.py:309-351 | the same for one environment |
| KubeDeploy.InfraCmdsClean | ci-cd/deploy-kubernetes.py:240-253 | the infrastructure part deletes nothing, creates no candidate and deploys no environment |
| KubeDeploy.InfraCmdsNoFailure | ci-cd/deploy-kubernetes.py:229-253 | the infrastructure part never fails |
| KubeDeploy.SyncNoFailure | ci-cd/deploy-kubernetes.py:217-259 | on a well-formed cluster no command of a sync pass fails, so the script never exits early |
| KubeDeploy.SyncLeavesNoStale | ci-cd/deploy-kubernetes.py:255-257 | after a sync pass no release is a deletion candidate |
| KubeDeploy.NoStaleSyncDeletesNothing | ci-cd/deploy-kubernetes.py:255-293 | a pass over a cluster without candidates uninstalls nothing and deletes no namespace |
| KubeDeploy.NoStaleNoCandidates | ci-cd/deploy-kubernetes.py:274-280 | without candidates no listed row is one |
| KubeDeploy.StaleRowsNone | ci-cd/deploy-kubernetes.py:274-280 | a listing without stale rows yields no candidates |
| KubeDeploy.NoStaleListsOnly | ci-cd/deploy-kubernetes.py:267-293 | without candidates the deletion phase is the listing alone |
| KubeDeploy.SecondPassDeletesNothing | ci-cd/deploy-kubernetes.py:255-257 | convergence: after one pass, a second pass with the same roster and any other arguments deletes nothing |
| KubeDeploy.DeleteCmdsOnlyDelete | ci-cd/deploy-kubernetes.py:261-293 | the deletion phase deploys nothing and deletes only outside the desired namespaces |
| KubeDeploy.DeletionsBeforeUpserts | ci-cd/deploy-kubernetes.py:255-257 | every uninstall and namespace deletion of a pass comes before every environment upsert |
| KubeDeploy.ProtectedNamespacesSurvive | ci-cd/deploy-kubernetes.py:262-264 | `free-ns` and `premium-ns` are always desired, and no command of a pass deletes in a desired namespace |
| KubeDeploy.BackendFrontendDistinct | ci-cd/deploy-kubernetes.py:309-332 | a backend release and a frontend release never share a name |
| KubeDeploy.EnvCmdsDeploys | ci-cd/deploy-kubernetes.py:309-351 | after `deploy_environment` its environment is deployed: namespace annotated, backend and frontend releases present with their values |
| KubeDeploy.EnvCmdsKeepsDeployed | ci-cd/deploy-kubernetes.py:309-351 | deploying one environment leaves every other deployed environment deployed |
| KubeDeploy.UpsertCmdsCover | ci-cd/deploy-kubernetes.py:295-307 | after deploying environments with distinct names, each one is deployed |
| KubeDeploy.SyncCoversEnvironments | ci-cd/deploy-kubernetes.py:217-259 | with distinct tenant ids other than free and premium, a sync leaves every environment deployed |
| KubeDeploy.EnvNamesDistinct | ci-cd/deploy-kubernetes.py:296-307 | those environments have distinct names |
| KubeDeploy.AsWrittenUninstallFails | ci-cd/deploy-kubernetes.py:285-288 | as written, whenever there is a candidate the first uninstall targets release `deployment` in namespace `namespace` and fails |
| KubeDeploy.OrphanClusterStale | ci-cd/deploy-kubernetes.py:274-280 | the example cluster is well formed and its one orphaned backend is the only candidate |
| KubeDeploy.OrphanRowStale | ci-cd/deploy-kubernetes.py:274-280 | that orphaned backend is stale for an empty roster |
| KubeDeploy.AsWrittenUninstallExample | ci-cd/deploy-kubernetes.py:285-293 | on that cluster the pass as written fails, while the corrected one succeeds and leaves no candidate |
| KubeDeploy.DeployFromBucket | ci-cd/deploy-kubernetes.py:357-380 | `main`: the bucket gains a given tag; without a usable tag the cluster is untouched; with one but a roster that is not a list, the infrastructure is deployed and the run then fails; otherwise the sync runs with that tag, and the run succeeds exactly then |
| Store.ResolveTag | ci-cd/deploy-kubernetes.py:366-374 | a given tag is written to `deployment.json` and used; otherwise the stored tag is read |
| TenantDeploy.TenantNamespaceInjective | ci-cd/deploy.py:108-109 | `tenant-<id>-ns` names: two tenants share a namespace exactly when their ids are equal |
| TenantDeploy.CreatedNamesNotLegacy | ci-cd/deploy.py:111-112 | no `park-tenant-<id>-<service>` release and not `park-infra` starts with `park-backend-` or `park-frontend-`, so the legacy sweep never picks up a namespace this script installs into |
| TenantDeploy.TfvarsEntries | ci-cd/deploy.py:198-203 | the loop appending `{id, domain}` produces exactly one entry per tenant, in roster order |
| TenantDeploy.GenerateTfvars | ci-cd/deploy.py:179-218 | the variables file holds the tenant entries under `tenants` and the five settings from the arguments |
| TenantDeploy.FrontendPointsAtBackend | ci-cd/deploy.py:353-391 | a tenant's frontend gets `backendUrl=http://<dns>.<domain>`, both charts get `subdomain=<dns>`, and both go into the same namespace |
| TenantDeploy.BackendFrontendDistinct | ci-cd/deploy.py:357-376 | a backend release name never equals any frontend release name |
| TenantDeploy.TenantNamespaces | ci-cd/deploy.py:325 | one namespace per tenant, in roster order, each the tenant's `tenant-<id>-ns` |
| TenantDeploy.LegacyNamespacesMembers | ci-cd/deploy.py:336-341 | a namespace is collected exactly when some listed release in it is named `park-backend-…` or `park-frontend-…` |
| TenantDeploy.CollectLegacyNamespaces | ci-cd/deploy.py:336-341 | the collecting loop yields those namespaces, one per legacy release, in listing order |
| TenantDeploy.NamespaceDeleteCmdsMembers | ci-cd/deploy.py:343-350 | the planned deletions, that is those issued when none fails: every one is of a collected namespace outside the tenant namespaces, and every such namespace has one |
| TenantDeploy.NamespaceDeleteCmdsAppend | ci-cd/deploy.py:343-350 | the deletions planned for a list are those for its first part followed by those for the rest |
| TenantDeploy.DeleteStaleNamespaces | ci-cd/deploy.py:343-350 | issues the planned deletions in order and stops after the first one that fails; `ok` exactly when none failed |
| TenantDeploy.DeletionStopsAt | ci-cd/deploy.py:343-350 | when the deletion of a collected namespace fails, the script has issued the planned deletions up to and including that one and the step does not run to its end |
| TenantDeploy.DeletePhaseDeletes | ci-cd/deploy.py:324-350 | the planned deletion step: after listing releases, a namespace is planned for deletion exactly when it hosts a legacy release and is not a tenant namespace; nothing else but the listing is planned |
| TenantDeploy.StaleDeletesMembers | ci-cd/deploy.py:336-350 | a namespace is planned for deletion exactly when some listed legacy release outside the tenant namespaces lives in it |
| TenantDeploy.StaleDeletesDistinct | ci-cd/deploy.py:336-350 | no namespace is planned for deletion twice exactly when no namespace outside the tenant namespaces hosts two listed legacy releases |
| TenantDeploy.DeletePhaseNoFailure | ci-cd/deploy.py:324-350 | on a well-formed cluster the deletion step runs to its end exactly when no namespace outside the tenant namespaces hosts two legacy releases |
| TenantDeploy.DeleteLegacyNamespaces | ci-cd/deploy.py:324-350 | lists the releases, then deletes the stale legacy namespaces until a deletion fails; `ok` exactly when the whole step ran |
| TenantDeploy.TwoLegacyReleasesListing | ci-cd/deploy.py:336-341 | a namespace holding both a legacy backend and a legacy frontend is collected twice (the list is not de-duplicated) |
| TenantDeploy.TwoLegacyReleasesDeletePhase | ci-cd/deploy.py:343-350 | such a namespace is then deleted twice |
| TenantDeploy.DeletingTwiceFails | ci-cd/deploy.py:343-350 | with `check=True`, deleting one namespace twice makes the second `kubectl delete` fail |
| TenantDeploy.RepeatedNamespaceDelete | ci-cd/deploy.py:336-350 | on that cluster the deletion step plans the same deletion twice and fails |
| TenantDeploy.TwoLegacyReleasesSyncStops | ci-cd/deploy.py:336-350 | on that cluster every sync with `create_cluster` fails, whatever the roster, so the tenant loop never runs |
| TenantDeploy.SyncCmdsSplit | ci-cd/deploy.py:277-392 | the planned sync, run when no command fails, is the infrastructure part, then the deletion step, then the tenant loop, each on the state the previous one left |
| TenantDeploy.InfraCmdsEffect | ci-cd/deploy.py:295-322 | the credentials and infrastructure part never fails; it ensures and annotates `infra-ns` and upserts `park-infra` |
| TenantDeploy.TenantUpsertCmdsNoFailure | ci-cd/deploy.py:353-391 | the tenant loop never fails |
| TenantDeploy.SyncIssued | ci-cd/deploy.py:277-392 | a sync fails exactly when its deletion step fails; it then has issued the infrastructure part and the deletions up to the failing one, and installed no tenant release |
| TenantDeploy.LegacyAloneSnoc | ci-cd/deploy.py:336-341 | a listed row that is not a legacy release outside the tenant namespaces cannot make a namespace host two of them |
| TenantDeploy.SyncRunsThrough | ci-cd/deploy.py:277-392 | on a well-formed cluster with `create_cluster`, a sync runs to its end exactly when no namespace outside the tenant namespaces hosts two legacy releases |
| TenantDeploy.NoClusterNoSync | ci-cd/deploy.py:291-292 | without `create_cluster` a sync issues no command and leaves the cluster unchanged |
| TenantDeploy.InfraCmdsSpare | ci-cd/deploy.py:295-322 | the credentials and infrastructure part installs only `park-infra` into `infra-ns` and deletes nothing |
| TenantDeploy.DeployInfrastructure | ci-cd/deploy.py:295-322 | fetches credentials, ensures and annotates `infra-ns`, upgrades the infrastructure chart; log and state follow those commands |
| TenantDeploy.DeletePhaseSpares | ci-cd/deploy.py:324-350 | the deletion step never deletes a tenant namespace and installs nothing |
| TenantDeploy.TenantUpsertCmdsShape | ci-cd/deploy.py:353-391 | the tenant loop installs only non-legacy releases into tenant namespaces and deletes nothing |
| TenantDeploy.SyncNeverTouchesTenants | ci-cd/deploy.py:277-392 | no command of a sync deletes a tenant namespace, uninstalls a release, or installs a release the legacy sweep would collect |
| TenantDeploy.DeletionsBeforeUpserts | ci-cd/deploy.py:343-391 | within a sync every namespace deletion precedes every tenant upgrade |
| TenantDeploy.TenantCmdsEffect | ci-cd/deploy.py:353-421 | one tenant's namespace, annotation, backend and frontend commands never fail and leave that tenant deployed |
| TenantDeploy.TenantCmdsDeploys | ci-cd/deploy.py:353-391 | after a tenant's commands its annotated namespace, backend and frontend (with their values) are present |
| TenantDeploy.TenantCmdsKeepsDeployed | ci-cd/deploy.py:353-391 | deploying one tenant leaves any other already-deployed tenant deployed |
| TenantDeploy.DeployTenant | ci-cd/deploy.py:354-391 | ensures the namespace, then upgrades backend, then frontend; log and state follow those commands |
| TenantDeploy.TenantUpsertCmdsCover | ci-cd/deploy.py:353-391 | over tenants with distinct ids the loop never fails and leaves every tenant deployed |
| TenantDeploy.DeployTenants | ci-cd/deploy.py:353-391 | deploys the tenants in roster order; log and state follow the tenant commands |
| TenantDeploy.SyncCoversTenants | ci-cd/deploy.py:277-392 | with `create_cluster` and distinct tenant ids, a sync that runs to its end leaves every tenant deployed, whatever the cluster held before; `SyncRunsThrough` says when it runs to its end |
| TenantDeploy.Sync | ci-cd/deploy.py:277-392 | issues the sync's commands until one fails, where the script exits; `ok` exactly when none failed; log and state are those of the issued commands |
| TenantDeploy.TerraformKeepsState | ci-cd/deploy.py:224-271 | `terraform` commands leave the cluster state alone, and planning never applies |
| TenantDeploy.TagAndSync | ci-cd/deploy.py:450-464 | finding the tag fails exactly when no tag is given and the stored deployment info is not an object; with neither a given nor a recorded tag the tag is empty; the bucket gains the given tag; with a tag the sync runs with it and `ok` holds exactly when the sync ran to its end; without one `ok` is false and the cluster is untouched |
| TenantDeploy.DeployFromBucket | ci-cd/deploy.py:427-464 | an unreadable roster changes nothing; `plan` writes the variables and logs init and plan only; `apply` writes the variables and logs the apply, with no init, then tags and syncs as above; `ok` exactly when a tag was found and the sync ran to its end |
| TerraformDeploy.VarFilePath | ci-cd/deploy-terraform.py:212 | the variables file lies in the environment's working directory and is `deployment.auto.tfvars.json` |
| TerraformDeploy.VarFilePathsDistinct | ci-cd/deploy-terraform.py:212 | staging and production write different files |
| TerraformDeploy.TfVarsContents | ci-cd/deploy-terraform.py:149-161 | one `{id, domain}` entry per enterprise tenant in roster order, and the settings exactly as given |
| TerraformDeploy.Main | ci-cd/deploy-terraform.py:202-225 | the run fails exactly when the roster file exists but is not a list, before any command |
| TerraformDeploy.RunOrder | ci-cd/deploy-terraform.py:171-225 | the variables file is written first; `plan` never applies; `apply` runs `init` immediately before one `apply` |
| TerraformDeploy.MissingRosterIsEmpty | ci-cd/deploy-terraform.py:115-122 | a missing roster gives an empty tenant list and the run still succeeds |
| Defects.StatusName | backend/property-management/src/defects/models/defectAggregate/Defect.ts:75 | an absent status renders as absent; a present one renders as one of the four member names |
| Defects.ParseStatus | backend/property-management/src/defects/models/defectAggregate/Defect.ts:91 | the name lookup yields a status exactly when the name is one of the member names |
| Defects.StatusRoundTrip | backend/property-management/src/defects/models/defectAggregate/Defect.ts:75-91 | rendering a status and looking the name up again gives the status back |
| Defects.NameRoundTrip | backend/property-management/src/defects/models/defectAggregate/Defect.ts:75-91 | looking a name up and rendering it again gives the name back exactly when it is absent or a member name |
| Defects.Restored | backend/property-management/src/defects/models/defectAggregate/Defect.ts:81-96 | the state `fromState` keeps differs from the input at most in the status, and is equal to it exactly when that status is absent or a member name |
| Defects.RestoredOfRendered | backend/property-management/src/defects/models/defectAggregate/Defect.ts:66-96 | every state `toState` writes comes back unchanged through `fromState` |
| Defects.Defect.constructor | backend/property-management/src/defects/models/defectAggregate/Defect.ts:39-51 | a new defect is open, has no images and empty descriptions, and was last modified when it was reported |
| Defects.Defect.AddImage | backend/property-management/src/defects/models/defectAggregate/Defect.ts:57-59 | the image name is appended and no other field changes |
| Defects.Defect.SetStatus | backend/property-management/src/defects/models/defectAggregate/Defect.ts:61-64 | the status and the modification time change, nothing else |
| Defects.StateRoundTrip | backend/property-management/src/defects/models/defectAggregate/Defect.ts:66-96 | `fromState(toState(d))` agrees with `d` on every persisted field, status and image names included |
| LegacyDefects.RestoredLegacy | backend/property-management/defects/models/defectAggregate/Defect.ts:72-85 | as for the current defect: only an unknown status name is lost |
| LegacyDefects.LegacyDefect.constructor | backend/property-management/defects/models/defectAggregate/Defect.ts:32-43 | a new defect is open, has no images and empty descriptions, and was last modified when it was reported |
| LegacyDefects.LegacyDefect.AddImage | backend/property-management/defects/models/defectAggregate/Defect.ts:49-51 | the image name is appended and no other field changes |
| LegacyDefects.LegacyDefect.SetStatus | backend/property-management/defects/models/defectAggregate/Defect.ts:53-56 | the status and the modification time change, nothing else |
| LegacyDefects.StateRoundTrip | backend/property-management/defects/models/defectAggregate/Defect.ts:58-85 | `fromState(toState(d))` agrees with `d` on every persisted field |
| DefectRepo.FindIndex | backend/property-management/src/defects/infrastructure/InMemoryDefectRepo.ts:17 | `findIndex`: the first position with the id, or -1 when none has it |
| DefectRepo.FindIndexHolds | backend/property-management/src/defects/infrastructure/InMemoryDefectRepo.ts:17-26 | `findIndex` finds a position exactly when `find` finds a defect |
| DefectRepo.Without | backend/property-management/src/defects/infrastructure/InMemoryDefectRepo.ts:34 | the filter keeps only defects of the list with another id |
| DefectRepo.WithoutAppend | backend/property-management/src/defects/infrastructure/InMemoryDefectRepo.ts:34 | the filter keeps the survivors' relative order |
| DefectRepo.WithoutKeeps | backend/property-management/src/defects/infrastructure/InMemoryDefectRepo.ts:34 | every defect with another id survives; an absent id leaves the list as it was |
| DefectRepo.WithoutIdempotent | backend/property-management/src/defects/infrastructure/InMemoryDefectRepo.ts:33-36 | deleting twice is the same as deleting once |
| DefectRepo.FindAfterAppend | backend/property-management/src/defects/infrastructure/InMemoryDefectRepo.ts:11-17 | a defect pushed onto a list without its id is the first match for its id |
| DefectRepo.InMemoryDefectRepo.constructor | backend/property-management/src/defects/infrastructure/InMemoryDefectRepo.ts:5 | the repository starts empty |
| DefectRepo.InMemoryDefectRepo.GetAllDefects | backend/property-management/src/defects/infrastructure/InMemoryDefectRepo.ts:7-9 | returns the stored list |
| DefectRepo.InMemoryDefectRepo.AddDefect | backend/property-management/src/defects/infrastructure/InMemoryDefectRepo.ts:11-14 | appends the defect, without checking for its id |
| DefectRepo.InMemoryDefectRepo.UpdateDefect | backend/property-management/src/defects/infrastructure/InMemoryDefectRepo.ts:16-23 | replaces the first defect with the same id and answers true, or changes nothing and answers false |
| DefectRepo.InMemoryDefectRepo.GetDefect | backend/property-management/src/defects/infrastructure/InMemoryDefectRepo.ts:25-31 | the first defect with the id, or the error "Defect not found" |
| DefectRepo.InMemoryDefectRepo.DeleteDefect | backend/property-management/src/defects/infrastructure/InMemoryDefectRepo.ts:33-36 | removes every defect with the id and never fails |
| DefectRepo.GetAfterAdd | backend/property-management/src/defects/infrastructure/InMemoryDefectRepo.ts:11-31 | after adding a defect whose id was absent, looking that id up returns it |
| DefectControllers.Created | backend/property-management/src/defects/controllers/DefectController.ts:41-47 | on create the open counter gains one and the other counters are reported as read |
| DefectControllers.Lowered | backend/property-management/src/defects/controllers/DefectController.ts:82-90 | the old status's counter loses one; an undefined status changes no counter |
| DefectControllers.Raised | backend/property-management/src/defects/controllers/DefectController.ts:92-100 | the new status's counter gains one; an undefined status changes no counter |
| DefectControllers.StatusChangeMovesOne | backend/property-management/src/defects/controllers/DefectController.ts:82-100 | a status change moves one unit from the old counter to the new one, keeps the total when both statuses are valid, and changes nothing when they are equal |
| DefectControllers.DeleteLowersTotal | backend/property-management/src/defects/controllers/DefectController.ts:133-141 | deleting a defect with a valid status lowers the total by one, exactly undoing a create |
| DefectControllers.CheckUploadedImages | backend/property-management/src/defects/controllers/DefectController.ts:250-261 | the check answers true exactly when every named image is stored |
| DefectControllers.ToDefect | backend/property-management/src/defects/controllers/DefectController.ts:217-224 | a fresh open defect carrying the request's fields, with its images in request order |
| DefectControllers.ResponseAgreesWithState | backend/property-management/src/defects/controllers/DefectController.ts:233-248 | the response agrees with the persisted state on every field, an absent description becoming "" |
| DefectControllers.ObjectStorage.constructor | backend/property-management/src/defects/controllers/DefectController.ts:19 | the storage holds the given images |
| DefectControllers.ObjectStorage.DeleteImage | backend/property-management/src/defects/controllers/DefectController.ts:147 | the image is no longer stored and nothing else changes |
| DefectControllers.DefectController.constructor | backend/property-management/src/defects/controllers/DefectController.ts:21-24 | the controller keeps the given repository and storage |
| DefectControllers.CreatedBodyRoundTrip | backend/property-management/src/defects/controllers/DefectController.ts:226-231 | the `{Id}` answer of a create carries the new id: reading it back out of the answer gives that id |
| DefectControllers.DefectController.CreateDefect | backend/property-management/src/defects/controllers/DefectController.ts:26-61 | a request naming an unstored image is answered 400 and changes nothing; otherwise one more open defect is reported, the new defect is appended after the old ones and its id is returned as `{Id}` |
| DefectControllers.DefectController.UpdateDefect | backend/property-management/src/defects/controllers/DefectController.ts:63-115 | an unknown id is answered 404 and nothing changes; otherwise the counters move from the old status to the new, that defect alone gets the new status and time, and the answer is "updated" |
| DefectControllers.DefectController.DeleteDefect | backend/property-management/src/defects/controllers/DefectController.ts:117-154 | an unknown id is answered 500 and nothing changes; otherwise every defect with the id is removed, its status counter loses one and all its images leave storage |
| DefectControllers.DefectController.GetDefects | backend/property-management/src/defects/controllers/DefectController.ts:156-166 | one response per stored defect, in repository order |
| DefectControllers.DefectController.GetDefectById | backend/property-management/src/defects/controllers/DefectController.ts:168-183 | the response of the first defect with the id, or 500 when there is none |
| LegacyDefectControllers.ToDefect | backend/property-management/defects/controllers/DefectController.ts:155-165 | the parsed status is handed to a constructor that takes none, so every created defect is open; the other fields come from the request |
| LegacyDefectControllers.CreateDefect | backend/property-management/defects/controllers/DefectController.ts:20-45 | an unstored image gives 400 without calling the repository; otherwise one add of a fresh open defect with the new id, the request's object, location, descriptions and images, created and modified now; the answer is `{Id}` with its id, or 500 with "Unable to create defect from body: " followed by the serialised request body when the add fails |
| LegacyDefectControllers.UpdateDefectHandler | backend/property-management/defects/controllers/DefectController.ts:47-72 | a rejected lookup is answered 404 with no further call; a found defect gets the requested status and is written back, 200 exactly when the write succeeds |
| LegacyDefectControllers.ImageDeletes | backend/property-management/defects/controllers/DefectController.ts:83-87 | one storage deletion per image name, in list order |
| LegacyDefectControllers.DeleteDefectHandler | backend/property-management/defects/controllers/DefectController.ts:74-92 | a rejected lookup gives 500 and a missing defect "deleted", with no further call; a found defect is removed first, then its images; any failure gives 500 |
| LegacyDefectControllers.DeleteBeforeImages | backend/property-management/defects/controllers/DefectController.ts:82-87 | a defect's images are deleted only after the defect itself, and not at all when that deletion fails |
| LegacyDefectControllers.ResponseAgreesWithState | backend/property-management/defects/controllers/DefectController.ts:174-188 | the response agrees with the persisted state, an absent description becoming "" |
| LegacyDefectControllers.CheckUploadedImagesAsWritten | backend/property-management/defects/controllers/DefectController.ts:189-200 | the loop answers what `PassesAsWritten` gives: false only at an answer that is not truthy |
| LegacyDefectControllers.AsWrittenAlwaysPasses | backend/property-management/defects/controllers/DefectController.ts:189-200 | every answer of the asynchronous `checkImageExists` is a pending promise, which is truthy, so the check as written passes every list against every storage |
| LegacyDefectControllers.AsWrittenAcceptsMissingImage | backend/property-management/defects/controllers/DefectController.ts:189-200 | any list naming an unstored image passes the check as written but fails the intended one |
| Garages.Garage.constructor | backend/property-management/src/garages/models/Garage.ts:41-48 | a new garage has the given id and name, is open, was last modified when it was created, and has no spots, price or times yet |
| Garages.Garage.SetNumberParkingSpots | backend/property-management/src/garages/models/Garage.ts:50-56 | fails exactly on a negative count and then keeps the old count; zero is accepted and stored; nothing else changes |
| Garages.Garage.SetPricePerHourInEuros | backend/property-management/src/garages/models/Garage.ts:58-64 | fails exactly on a price that is not positive and then keeps the old price; nothing else changes |
| Garages.Garage.SetOpeningTimes | backend/property-management/src/garages/models/Garage.ts:66-76 | fails exactly when opening is after closing, changing neither time; equal times are stored; nothing else changes |
| ChargingStations.ChargingStation.constructor | backend/property-management/src/garages/models/ChargingStation.ts:10-25 | a station built from checked values carries its id, name, speed and price |
| ChargingStations.ConstructionError | backend/property-management/src/garages/models/ChargingStation.ts:14-22 | no error exactly when speed and price are both non-negative; a negative speed is reported before a negative price |
| ChargingStations.NewChargingStation | backend/property-management/src/garages/models/ChargingStation.ts:10-25 | the constructor fails with that error, or yields a fresh station with the given fields and a new id |
| ChargingStations.FromState | backend/property-management/src/garages/models/ChargingStation.ts:27-37 | `fromState(State())` keeps name, speed and price, gives a fresh id, and fails exactly on a negative speed or price |
| Floors.Floor.constructor | backend/property-management/src/garages/models/Floor.ts:23-29 | a floor has the given id and spot count, and was last modified when it was created |
| Floors.Floor.UpdateNumberParkingSpots | backend/property-management/src/garages/models/Floor.ts:31-33 | any count is stored, negative ones included; id and dates do not change |
| GaragesRoute.RequestError | backend/property-management/src/garages/GaragesRoute.ts:53-59 | a request is accepted exactly when spots are non-negative, the price is positive and opening is not after closing; otherwise the first broken rule in setter order is reported |
| GaragesRoute.ToGarage | backend/property-management/src/garages/GaragesRoute.ts:53-59 | the first failing setter aborts with its error; otherwise a fresh valid garage with the new id, the request's name, spots, price and times, open whatever the request's `IsOpen`, created and modified now |
| GaragesRoute.ToGetGarageResponse | backend/property-management/src/garages/GaragesRoute.ts:39-51 | copies id, name, open flag, spots and price and renders the four dates; fails exactly when a time is unset |
| GaragesRoute.PostGarage | backend/property-management/src/garages/GaragesRoute.ts:24-37 | an invalid request throws before any response and adds nothing; a valid one adds the garage `toGarage` builds (id, name, spots, price, times, open) and is answered 201 "created", or 500 when the add fails |
| GarageEvents.StationDtos | backend/property-management/src/garages/GarageEventsNotifier.ts:13-17 | one entry per station, same order, with its id, speed and price |
| GarageEvents.Dto | backend/property-management/src/garages/GarageEventsNotifier.ts:8-18 | the DTO carries the garage's id, open flag and spot count, and as many charging spaces as stations |
| GarageEvents.GarageEventsNotifier.constructor | backend/property-management/src/garages/GarageEventsNotifier.ts:5 | the notifier keeps the parking-management endpoint |
| GarageEvents.GarageEventsNotifier.NotificationsAgree | backend/property-management/src/garages/GarageEventsNotifier.ts:7-73 | create and update send the same body with PUT to different URLs; delete goes to `<endpoint>/garage/delete/<id>` with no body |
| ParkingRepo.OccupiedCountUpdate | backend/parking-management/repositories/jsonFileRepository.ts:64-66 | flipping one station's flag changes the number of occupied stations by exactly the flag difference |
| ParkingRepo.ChargingKeepsDrift | backend/parking-management/repositories/jsonFileRepository.ts:55-91 | occupying and vacating keep the charging counter minus the number of occupied stations unchanged |
| ParkingRepo.ChargingIdempotent | backend/parking-management/repositories/jsonFileRepository.ts:55-91 | occupying twice is occupying once, vacating twice is vacating once, and an unknown station changes nothing |
| ParkingRepo.OccupyVacateRoundTrip | backend/parking-management/repositories/jsonFileRepository.ts:55-91 | vacating a station just occupied restores the garage, and occupying a station just vacated does too |
| ParkingRepo.ParkingShifted | backend/parking-management/repositories/jsonFileRepository.ts:31-53 | moving the parking occupancy changes only the first garage with the id, only its occupied count, by exactly the step; an unknown id changes nothing |
| ParkingRepo.OccupancyRoundTrip | backend/parking-management/repositories/jsonFileRepository.ts:31-53 | increasing and then decreasing the occupancy of any id restores the garage list |
| ParkingRepo.JsonFileRepository.constructor | backend/parking-management/repositories/jsonFileRepository.ts:11-16 | the repository holds the given collections |
| ParkingRepo.JsonFileRepository.GetParkingOccupancy | backend/parking-management/repositories/jsonFileRepository.ts:19-23 | the parking status of the first garage with the id; an unknown garage fails |
| ParkingRepo.JsonFileRepository.GetChargingOccupancy | backend/parking-management/repositories/jsonFileRepository.ts:25-29 | the charging status of the first garage with the id; an unknown garage fails |
| ParkingRepo.JsonFileRepository.IncreaseParkingOccupancy | backend/parking-management/repositories/jsonFileRepository.ts:31-41 | the first garage with the id has one more occupied space, with no upper bound; nothing else changes |
| ParkingRepo.JsonFileRepository.DecreaseParkingOccupancy | backend/parking-management/repositories/jsonFileRepository.ts:43-53 | the first garage with the id has one less occupied space, with no lower bound; nothing else changes |
| ParkingRepo.JsonFileRepository.OccupyChargingStation | backend/parking-management/repositories/jsonFileRepository.ts:55-72 | the first garage with the id has the station occupied (a free station becomes occupied and the counter rises); other garages and collections are untouched |
| ParkingRepo.JsonFileRepository.VacateChargingStation | backend/parking-management/repositories/jsonFileRepository.ts:74-91 | the mirror image: an occupied station becomes free and the counter falls |
| ParkingRepo.JsonFileRepository.GetTicket | backend/parking-management/repositories/jsonFileRepository.ts:93-97 | the first ticket with the id, or undefined |
| ParkingRepo.JsonFileRepository.AddPaymentTimestamp | backend/parking-management/repositories/jsonFileRepository.ts:99-109 | only the payment time of the first ticket with the id changes; an unknown ticket changes nothing |
| ParkingRepo.JsonFileRepository.GetPaymentTimestamp | backend/parking-management/repositories/jsonFileRepository.ts:111-113 | the payment time of the ticket; an unknown ticket fails |
| ParkingRepo.JsonFileRepository.AddChargingSession | backend/parking-management/repositories/jsonFileRepository.ts:115-120 | the session is appended and nothing else changes |
| ParkingRepo.JsonFileRepository.EndChargingSession | backend/parking-management/repositories/jsonFileRepository.ts:122-133 | only the finish time and energy of the first session with the id change |
| ParkingRepo.JsonFileRepository.GetChargingInvoice | backend/parking-management/repositories/jsonFileRepository.ts:135-139 | the first charging invoice of the session, or undefined |
| ParkingRepo.JsonFileRepository.GetParkingInvoice | backend/parking-management/repositories/jsonFileRepository.ts:141-145 | the first parking invoice of the ticket, or undefined |
| Roles.FindRole | backend/authentication/models/role.ts:24 | `find` returns a member whose code is the number, or undefined when no member has it |
| Roles.GetRoleById | backend/authentication/models/role.ts:23-26 | a role exactly for the codes 100, 200, 300, 400 and 500, and it is the role with that code |
| Roles.RoleRoundTrip | backend/authentication/models/role.ts:5-26 | every role is found again from its code |
| Roles.CodeInjective | backend/authentication/models/role.ts:5-16 | distinct roles have distinct codes |
| UserRepo.FromRecord | backend/authentication/repositories/jsonFileRepository.ts:36-41 | the user built from a record carries its id, tenant and `email` as mail, and the role with its code (none for an unknown code) |
| UserRepo.Lookup | backend/authentication/repositories/jsonFileRepository.ts:31-44 | a user exactly when some record has the id, built from the first such record |
| UserRepo.NewRecord | backend/authentication/repositories/jsonFileRepository.ts:91-96 | a record exactly when the user has a role; it carries the id, tenant, mail and the role's code |
| UserRepo.NewRecordAsWritten | backend/authentication/repositories/jsonFileRepository.ts:91-96 | as written, the record's `email` comes from `user.email`, which a user does not have, so it is undefined |
| UserRepo.JsonFileRepository.constructor | backend/authentication/repositories/jsonFileRepository.ts:15 | the repository sees the file's current records |
| UserRepo.JsonFileRepository.GetUser | backend/authentication/repositories/jsonFileRepository.ts:31-44 | answers the lookup above |
| UserRepo.JsonFileRepository.SetUserRole | backend/authentication/repositories/jsonFileRepository.ts:49-63 | only the role of the first record with the user's id changes; an unknown user fails with "User not found" and nothing is written |
| UserRepo.JsonFileRepository.DeleteUser | backend/authentication/repositories/jsonFileRepository.ts:68-82 | removes exactly the first record with the user's id; an unknown user fails with "User not found" |
| UserRepo.JsonFileRepository.CreateUser | backend/authentication/repositories/jsonFileRepository.ts:87-105 | appends the user's record without a duplicate check; a user without a role fails with "Error creating user" and nothing is written |
| UserRepo.JsonFileRepository.CreateUserAsWritten | backend/authentication/repositories/jsonFileRepository.ts:87-105 | the same, pushing the record as written, without the mail |
| UserRepo.Singleton.constructor | backend/authentication/repositories/jsonFileRepository.ts:13 | no instance exists yet |
| UserRepo.Singleton.GetInstance | backend/authentication/repositories/jsonFileRepository.ts:21-26 | the first call makes the repository and every later call returns that same one |
| UserRepo.FindAfterAppend | backend/authentication/repositories/jsonFileRepository.ts:34-91 | a record appended for a new id is the one a lookup of that id finds |
| UserRepo.CreateThenGet | backend/authentication/repositories/jsonFileRepository.ts:31-105 | creating a user with a new id and reading it back gives the same id, role, tenant and mail |
| UserRepo.AsWrittenLosesMail | backend/authentication/repositories/jsonFileRepository.ts:87-105 | with the record as written, the created user comes back without its mail |
| UserRepo.CreateDuplicateIsShadowed | backend/authentication/repositories/jsonFileRepository.ts:31-105 | creating a user whose id is already recorded changes nothing a lookup sees |
| UserRepo.SetThenGet | backend/authentication/repositories/jsonFileRepository.ts:31-63 | after setting a role, reading the user back gives that role and the record's other fields |
| UserRepo.DeleteRemovesOne | backend/authentication/repositories/jsonFileRepository.ts:68-82 | deleting removes exactly one record; later duplicates remain in order and the next one becomes what a lookup finds |
| UserForms.NameError | frontend/src/routes/EditUser.tsx:59-62 | the name passes exactly when it is not empty |
| UserForms.MailError | frontend/src/routes/EditUser.tsx:63-66 | the mail passes exactly when it is not empty |
| UserForms.RoleError | frontend/src/routes/EditUser.tsx:67-72 | the role passes exactly when `parseInt` of it (decimal, or hexadecimal after a `0x` mark) yields one of 100, 200, 300, 400, 500; NaN never passes |
| UserForms.RoleCheckMatchesRoles | frontend/src/routes/EditUser.tsx:67-72 | the form's list is exactly the codes of `Role`: a value passes exactly when it parses to the code of a role |
| UserForms.ParseDigitsThen | frontend/src/routes/EditUser.tsx:69 | `parseInt` of digits followed by text that does not continue with a digit is the number the digits write, unless the digits are a lone `0` followed by an `x` mark |
| UserForms.ParseNegativeDigitsThen | frontend/src/routes/EditUser.tsx:69 | the same after a minus sign, negated |
| UserForms.DigitsMagnitude | frontend/src/routes/EditUser.tsx:69 | decimal digits that end where no further digit (and no `x` mark after a lone `0`) follows read as the number they write |
| UserForms.ParseNegated | frontend/src/routes/EditUser.tsx:69 | a minus sign in front of text that reads as a magnitude makes `parseInt` give that magnitude negated |
| UserForms.ParseHexThen | frontend/src/routes/EditUser.tsx:69 | `parseInt` of `0x` and hexadecimal digits followed by text that does not continue with one reads the digits in base sixteen |
| UserForms.HexRoleAccepted | frontend/src/routes/EditUser.tsx:67-72 | `"0x64"` is read as 100 and passes the role check |
| UserForms.ParseIntOfString | frontend/src/routes/EditUser.tsx:69-107 | `parseInt` of the text of a number gives the number back |
| UserForms.NumericRoleValid | frontend/src/routes/EditUser.tsx:67-107 | a role held as a number and turned into text passes exactly when it is a role code |
| UserForms.TrailingTextIgnored | frontend/src/routes/EditUser.tsx:69-70 | `"300abc"` passes, since `parseInt` stops at the first non-digit |
| UserForms.NoDigitFails | frontend/src/routes/EditUser.tsx:69-70 | text with no digit after white space and sign parses to NaN and fails |
| UserForms.Check | frontend/src/routes/EditUser.tsx:58-73 | a field has an answer exactly when it is name, mail or role |
| UserForms.UserFieldsCover | frontend/src/routes/EditUser.tsx:95-115 | visiting the user's keys checks exactly name, mail and role, never `id` or `tenantId`, and records each answer |
| UserForms.ValidateAllFields | frontend/src/routes/EditUser.tsx:95-115 | true exactly when name, mail and role all pass; the recorded errors are the three validators' answers |
| UserForms.HandleSubmit | frontend/src/routes/EditUser.tsx:117-135 | a PUT to the user's own path carrying name, mail and role only, sent exactly when the form is valid |
| UserForms.SentRoleExists | frontend/src/routes/EditUser.tsx:67-135 | every change the form sends names a role that exists |
| GarageForms.ConvertToMinutes | frontend/src/routes/AddGarage.tsx:104-107 | without a colon the minutes are undefined and the result is NaN (None); otherwise a number exactly when both the hours text and the text up to any further colon read as numbers |
| GarageForms.NumberOfBlank | frontend/src/routes/AddGarage.tsx:105 | `Number` of text that is empty or white space only is 0 |
| GarageForms.NumberOfDigits | frontend/src/routes/AddGarage.tsx:105 | a run of digits is read as the number it writes |
| GarageForms.ConvertSplit | frontend/src/routes/AddGarage.tsx:104-107 | a reading is converted from the number before its first colon and the number of the text up to the next colon, NaN if either is |
| GarageForms.ConvertFormatted | frontend/src/routes/AddGarage.tsx:93-107 | on the `H:MM` or `HH:MM` format the conversion is hours times sixty plus minutes |
| GarageForms.ExtraPartsIgnored | frontend/src/routes/AddGarage.tsx:104-107 | parts after the second are dropped: colon-free parts read as `hours` and `minutes`, followed by any further parts, convert to hours times sixty plus minutes |
| GarageForms.EmptyMinutesZero | frontend/src/routes/AddGarage.tsx:104-107 | an hours part that reads as `hours` followed by a bare colon converts to `hours` times sixty, the empty minutes reading as zero |
| GarageForms.LeadingSpaceRead | frontend/src/routes/AddGarage.tsx:105 | a space before a digit run is ignored, so the hours of `" 6:00"` read as 6 |
| GarageForms.TrailingSpaceRead | frontend/src/routes/AddGarage.tsx:105 | a space after a digit run is ignored |
| GarageForms.ConvertParts | frontend/src/routes/AddGarage.tsx:104-107 | a reading converts by its first two parts, each read as a number |
| GarageForms.SecondsDropped | frontend/src/routes/AddGarage.tsx:104-107 | a well-formed time with a further part converts exactly as the time alone |
| GarageForms.PartDropped | frontend/src/routes/AddGarage.tsx:104-107 | a third part after two colon-free parts does not change the conversion |
| GarageForms.SecondsOpeningOrdersClosing | frontend/src/routes/AddGarage.tsx:84-107 | an opening time with seconds, which the format refuses, still orders the closing time: the closing time passes exactly when it is later than the opening time without its seconds |
| GarageForms.IsValidTime | frontend/src/routes/AddGarage.tsx:93-102 | a valid time has the format and an hours part below 24 |
| GarageForms.ValidTimeConverts | frontend/src/routes/AddGarage.tsx:93-107 | valid exactly when the format holds and the converted count is a number from 0 to below one day, as the source states it |
| GarageForms.ClockRoundTrip | frontend/src/routes/AddGarage.tsx:93-102 | every two-digit reading `HH:MM` has the format, with hours `HH` and minutes `MM`, and is valid exactly when `HH*60+MM` is below 1440, so a minutes part of 60 or more passes by itself |
| GarageForms.ClockConverts | frontend/src/routes/AddGarage.tsx:104-107 | every two-digit reading `HH:MM` converts to `HH*60+MM` |
| GarageForms.TimeEdges | frontend/src/routes/AddGarage.tsx:93-102 | `"12:75"` is valid; `"24:00"`, `"6:0"` and `"123:00"` are not; `"23:59"` and `"6:00"` are |
| GarageForms.NameError | frontend/src/routes/AddGarage.tsx:66-69 | the name passes exactly when it is not empty |
| GarageForms.SpotsError | frontend/src/routes/AddGarage.tsx:70-74 | the spots pass exactly when the number is not negative (NaN passes) |
| GarageForms.PriceError | frontend/src/routes/AddGarage.tsx:75-79 | the price passes exactly when it is not negative, so zero passes |
| GarageForms.OpeningTimeError | frontend/src/routes/AddGarage.tsx:80-83 | the opening time passes exactly when it is a valid time |
| GarageForms.ClosingTimeError | frontend/src/routes/AddGarage.tsx:84-90 | the closing time passes exactly when it is valid and the converted opening time is not at or after it; an opening time that converts to NaN compares false, and the closing time then passes; `closing_after_opening` exactly when valid and not later |
| GarageForms.Check | frontend/src/routes/AddGarage.tsx:65-91 | a key has an answer exactly when it has a validator |
| GarageForms.ValidateAllFields | frontend/src/routes/AddGarage.tsx:133-153 | true exactly when no validated key reports an error; every recorded error is that key's answer |
| GarageForms.KeysCoverValidators | frontend/src/routes/EditGarage.tsx:156-176 | over the keys of both forms, passing means every one of the five validators passes; `isOpen` and `chargingStations` are skipped |
| GarageForms.ValidFormOrdersTimes | frontend/src/routes/AddGarage.tsx:65-153 | a form that passes has a name and two valid times, both converting to numbers, the closing one strictly later |
| GarageForms.ZeroPricePassesFormNotServer | frontend/src/routes/AddGarage.tsx:75-79 | a zero price passes the form, yet the server's price setter refuses the request |
| GarageForms.AddChargingStation | frontend/src/routes/AddGarage.tsx:156-164 | a blank station `{"", 0, 0}` is appended after the existing ones |
| GarageForms.ChangeChargingStation | frontend/src/routes/AddGarage.tsx:167-174 | every station with the name gets the speed and price; the others and all names stay as they were |
| GarageForms.RemoveChargingStation | frontend/src/routes/AddGarage.tsx:177-184 | only stations of the list with another name remain |
| GarageForms.RemoveKeepsOthers | frontend/src/routes/AddGarage.tsx:177-184 | no station with another name is lost |
| GarageForms.NamesStayBlank | frontend/src/routes/AddGarage.tsx:156-184 | no handler writes a station's name, so starting from no stations every station stays unnamed |
| GarageForms.RemoveOneRemovesAll | frontend/src/routes/AddGarage.tsx:177-184 | hence removing any one station removes them all |
| GarageForms.RemoveStationAtRemovesOne | frontend/src/routes/AddGarage.tsx:308-315 | the intended remove button, addressing its station by list position: exactly that station goes, the others keep their order |
| GarageForms.IndexedEditsTouchOne | frontend/src/routes/AddGarage.tsx:318-355 | the intended inputs: the name field names its own station, the speed and price fields set its own speed and price, and no other station changes |
| GarageForms.RemoveFirstOfTwo | frontend/src/routes/AddGarage.tsx:156-184 | after adding two stations, removing the first leaves none as written and one as intended |
| GarageForms.AddGarageSubmit | frontend/src/routes/AddGarage.tsx:186-201 | a request exactly when every field passes, carrying the form's fields and stations |
| GarageForms.EditGarageSubmit | frontend/src/routes/EditGarage.tsx:178-193 | a request exactly when every field passes, carrying the form's fields and no stations |
| Analytics.InsertLast | frontend/src/routes/Analytics.tsx:168-169 | one insertion step: the prefix up to the inserted element is ascending by the key and the array holds the same elements |
| Analytics.SwapDown | frontend/src/routes/Analytics.tsx:168-169 | one adjacent swap keeps the array ascending except at the moving element, which stays no larger than what follows, and holds the same elements |
| Analytics.SortBy | frontend/src/routes/Analytics.tsx:168-169 | the in-place sort leaves the array ascending by the key and a permutation of what it held |
| Analytics.Window | frontend/src/routes/Analytics.tsx:160-168 | thirty consecutive days, oldest first, ending today |
| Analytics.SortedSame | frontend/src/routes/Analytics.tsx:168 | two ascending lists of the same days are the same list |
| Analytics.DescendingWindow | frontend/src/routes/Analytics.tsx:162-166 | the first n days pushed, newest first, are the n days ending today |
| Analytics.SortedPushedIsWindow | frontend/src/routes/Analytics.tsx:160-168 | sorting the thirty pushed days gives the window |
| Analytics.Last30Days | frontend/src/routes/Analytics.tsx:160-168 | builds the thirty days by pushing newest first and sorting, which gives the window |
| Analytics.DailyMaximaIsMax | frontend/src/routes/Analytics.tsx:171-179 | a day has an entry exactly when some record falls on it, and the entry is the largest value of that day's records |
| Analytics.DailyLatestIsLatest | frontend/src/routes/Analytics.tsx:215-223 | a day has an entry exactly when some record falls on it, and the entry is a record of that day with no later record on it |
| Analytics.DailyLatestEntries | frontend/src/routes/Analytics.tsx:215-223 | every entry is one of the records and falls on its day |
| Analytics.DailyMaximaOf | frontend/src/routes/Analytics.tsx:171-179 | the map loop builds exactly the daily maxima |
| Analytics.DailyLatestOf | frontend/src/routes/Analytics.tsx:215-223 | the map loop builds exactly the daily latest records |
| Analytics.CarryForward | frontend/src/routes/Analytics.tsx:186-195 | one value per day: a day in the map takes its value, any other day repeats the day before, and the first day without a value takes the initial one |
| Analytics.CarryBeforeFirst | frontend/src/routes/Analytics.tsx:186-195 | before the first day in the map, every value is the initial one |
| Analytics.Carry | frontend/src/routes/Analytics.tsx:186-195 | the loop pushes each day and the carried values above |
| Analytics.DayWithRecordsShowsMax | frontend/src/routes/Analytics.tsx:171-195 | on a day of the window with records, the number histogram shows that day's largest value |
| Analytics.DayWithRecordsShowsLatest | frontend/src/routes/Analytics.tsx:215-245 | on a day of the window with records, the defect histogram shows the counts of that day's latest record |
| Analytics.ZeroUntilFirstRecord | frontend/src/routes/Analytics.tsx:225-245 | the defect histogram shows zero counts on every day before the first day with a record |
| Analytics.NumberHistogram | frontend/src/routes/Analytics.tsx:156-198 | the records end up sorted in place; with none the read of the first fails; otherwise the window and its carried daily maxima, starting from the earliest record's value |
| Analytics.CountsByDay | frontend/src/routes/Analytics.tsx:236-244 | the counts shown for a day are those of that day's record |
| Analytics.DefectHistogram | frontend/src/routes/Analytics.tsx:200-248 | the records end up sorted in place; the window and four series of equal length, the carried counts of the daily latest records, zero before the first |
| Dropzone.ImageFile.constructor | frontend/src/components/dropzone/Dropzone.tsx:18-26 | a dropped file starts not uploaded, without error, without uploaded name and without URLs |
| Dropzone.CustomFileValidator | frontend/src/components/dropzone/Dropzone.tsx:34-45 | a file is refused with `file-already-in-list` exactly when a listed image has its name; otherwise accepted |
| Dropzone.Names | frontend/src/components/dropzone/Dropzone.tsx:38 | the names of the listed images, in order |
| Dropzone.OnDrop | frontend/src/components/dropzone/Dropzone.tsx:16-30 | the existing images come first, unchanged, followed by one fresh image per accepted file, in drop order |
| Dropzone.DropKeepsNamesDistinct | frontend/src/components/dropzone/Dropzone.tsx:16-45 | files that pass the validator keep the list's names distinct, provided one drop carries no two files of the same name |
| Dropzone.Style | frontend/src/components/dropzone/Dropzone.tsx:56-72 | `baseStyle` followed by ` focusedStyle`, ` acceptStyle` and ` rejectStyle` for each set flag, in that order |
| Dropzone.StyleClassesNameFlags | frontend/src/components/dropzone/Dropzone.tsx:59-69 | each set flag adds its class exactly once, in the fixed order |
| Dropzone.StyleClassesInjective | frontend/src/components/dropzone/Dropzone.tsx:56-72 | different flags give different class lists |
| DefectForms.ObjectError | frontend/src/routes/AddDefect.tsx:78-81 | the object passes exactly when it is not empty |
| DefectForms.LocationError | frontend/src/routes/AddDefect.tsx:82-85 | the location passes exactly when it is not empty |
| DefectForms.ShortDescriptionError | frontend/src/routes/AddDefect.tsx:86-90 | the short description passes exactly when it has at most 80 UTF-16 code units, as `length` counts them |
| DefectForms.ShortDescriptionUnits | frontend/src/routes/AddDefect.tsx:86-90 | eighty characters of the Basic Multilingual Plane pass, while forty-one characters beyond it, 82 code units, are refused |
| DefectForms.StatusError | frontend/src/routes/AddDefect.tsx:91-94 | the status passes exactly when it is not empty |
| DefectForms.Check | frontend/src/routes/AddDefect.tsx:77-95 | a field has an answer exactly when it has a validator; the detailed description has none |
| DefectForms.FormFieldsCover | frontend/src/routes/AddDefect.tsx:117-137 | visiting the form's fields checks exactly what the form demands and records each validator's answer |
| DefectForms.ValidateAllFields | frontend/src/routes/AddDefect.tsx:117-137 | true exactly when every validated field passes; the recorded errors are the validators' answers and `reportingDate` stays "" |
| DefectForms.UploadStep | frontend/src/routes/AddDefect.tsx:153-179 | an uploaded image is skipped; any other ends with exactly one of `isUploaded` and `hasUploadError`, uploaded exactly when a PUT was attempted and succeeded |
| DefectForms.NoUrlMeansFailed | frontend/src/routes/AddDefect.tsx:160-165 | an image still without upload URL after the fetch is marked failed and no PUT is sent |
| DefectForms.KnownUrlKept | frontend/src/routes/AddDefect.tsx:156-158 | an image that already has an upload URL keeps it and its uploaded name: no new URL is fetched |
| DefectForms.UploadSettles | frontend/src/routes/AddDefect.tsx:152-181 | a second upload pass leaves a successfully uploaded image as it is |
| DefectForms.UploadImage | frontend/src/routes/AddDefect.tsx:153-179 | one image's flags change as one loop pass prescribes, and a PUT goes to its upload URL exactly when attempted |
| DefectForms.UploadImages | frontend/src/routes/AddDefect.tsx:152-181 | images uploaded before are untouched; over distinct images each one changes as one loop pass prescribes, and the PUTs go out in list order |
| DefectForms.UploadNext | frontend/src/routes/AddDefect.tsx:153-179 | one pass of the loop changes the i-th image as one loop pass prescribes and, over distinct images, no other; images uploaded before stay as they were |
| DefectForms.UploadedNames | frontend/src/routes/AddDefect.tsx:210 | the uploaded names of the images, in order |
| DefectForms.HandleSubmit | frontend/src/routes/AddDefect.tsx:183-222 | invalid fields stop everything before any upload, and the list remembered for cleanup keeps what it held; with valid fields it becomes the images sent to upload, the images uploaded before are untouched and, over distinct images, each changes as one upload pass prescribes and the PUTs go out as listed; a request exactly when the fields are valid and every image is uploaded, carrying the form's fields and the uploaded names; the defect counts as created exactly when the POST succeeds |
| DefectForms.SubmittedNamesAreUploaded | frontend/src/routes/AddDefect.tsx:196-211 | a request names exactly the uploaded images, each by the name the backend gave it, with the form's status, object and location |
| DefectForms.RemoveFromGcs | frontend/src/routes/AddDefect.tsx:224-228 | a DELETE exactly when the image is uploaded and has a delete URL, to that URL |
| DefectForms.WithoutFile | frontend/src/routes/AddDefect.tsx:233 | the filter drops every entry that is this very object and keeps each other entry |
| DefectForms.WithoutFileCounts | frontend/src/routes/AddDefect.tsx:233 | the removed image occurs no more, and every other image keeps its multiplicity |
| DefectForms.WithoutAbsentFile | frontend/src/routes/AddDefect.tsx:233 | removing an image that is not in the list leaves the list as it was |
| DefectForms.Cleanup | frontend/src/routes/AddDefect.tsx:68-75 | nothing is deleted once the defect was created; otherwise each remembered uploaded image with a delete URL is deleted, in order |
| DefectForms.CleanupDeletesUploaded | frontend/src/routes/AddDefect.tsx:68-75 | every cleanup DELETE targets an uploaded image's delete URL, and every such image gets one |
| DefectForms.RemoveFile | frontend/src/routes/AddDefect.tsx:224-236 | the image is deleted from storage if uploaded and has a delete URL; then the list is the filter without that very object, the others in order; a DELETE that fails leaves the list as it was |
| DefectsReport.LoadConfig | cloud-functions/createChangedDefectsReport/index.js:6-9 | loading succeeds exactly when both settings are present; a missing database id is reported before a missing bucket id |
| DefectsReport.TwoDigits | cloud-functions/createChangedDefectsReport/index.js:24-28 | a number below 100 becomes exactly two digits that read back as the number |
| DefectsReport.Layout | cloud-functions/createChangedDefectsReport/index.js:30 | where year, month, day, hours, minutes and seconds sit in the rendered date |
| DefectsReport.ReadableDateRoundTrip | cloud-functions/createChangedDefectsReport/index.js:22-31 | a valid date renders as its unpadded year followed by nineteen characters from which month, day and time read back |
| DefectsReport.Changed | cloud-functions/createChangedDefectsReport/index.js:43-46 | the filter never keeps more defects than were read |
| DefectsReport.ChangedMembers | cloud-functions/createChangedDefectsReport/index.js:43-46 | a defect is in the report exactly when it was read and changed strictly within the hour |
| DefectsReport.ChangedAppend | cloud-functions/createChangedDefectsReport/index.js:43-46 | the filter keeps the documents' order |
| DefectsReport.ChangedBoundary | cloud-functions/createChangedDefectsReport/index.js:44-45 | a change exactly one hour ago is left out, one a millisecond later is kept, and an unreadable time is left out |
| DefectsReport.BlocksAppend | cloud-functions/createChangedDefectsReport/index.js:75-93 | the blocks of two lists are those of the first followed by those of the second |
| DefectsReport.ReplaceOnlyFirst | cloud-functions/createChangedDefectsReport/index.js:100 | only the first ':' is replaced: what precedes it is kept and every later ':' stays |
| DefectsReport.FileNameOfTimestamp | cloud-functions/createChangedDefectsReport/index.js:100 | for an ISO timestamp, the hours-minutes colon becomes '-' and the rest follows unchanged |
| DefectsReport.AppendBlocks | cloud-functions/createChangedDefectsReport/index.js:75-93 | the loop appends one block per defect, in list order |
| DefectsReport.RenderReport | cloud-functions/createChangedDefectsReport/index.js:56-98 | the page is the header with the report date, one block per defect in order, and the footer |
| DefectsReport.SaveReport | cloud-functions/createChangedDefectsReport/index.js:100-107 | the file name is derived from the report timestamp and the answer names it |
| DefectsReport.CreateChangedDefectsReport | cloud-functions/createChangedDefectsReport/index.js:33-108 | the defects changed within the hour are rendered one block each, in read order, between header and footer, saved under the derived name |
| DefectsReport.ReportKeepsOrder | cloud-functions/createChangedDefectsReport/index.js:43-93 | the page of documents read in two parts has the blocks of both parts in order |

## Left out
- Process exits, logging and console output of the scripts: an exit is modelled as the method answering false. In ci-cd/deploy.py a command that fails ends the run; the model issues no further command (`Cluster.Issued`). The ci-cd/deploy-kubernetes.py model runs its plan to the end, and its sync is proved never to fail on a well-formed cluster (`KubeDeploy.SyncNoFailure`).
- The `helm`, `kubectl`, `terraform` and `gcloud` programs: their effect is the cluster model in `cluster.dfy`, and terraform plan/apply is recorded as a command, not executed.
- JSON parsing and file reading: the roster and the deployment info are already-decoded values in the bucket; a missing object is an absent key.
- Listing a bucket object whose content is a list where an object is expected: modelled as a failure of the read, where the script would raise.
- The clock (`Date.now()`, `new Date()`), UUID generation and the conversion of a timestamp to UTC calendar fields or to a local day: parameters. `Date.now()` inside the report filter is called once per defect; it is modelled as one `now` for the whole filter.
- ISO-8601 parsing and formatting of dates: dates are epoch milliseconds, and an ISO string is taken as given; a date that cannot be read is `None`, rendered as the invalid date's `NaN` fields.
- `parseInt` and `Number` white space: only space, tab, newline and carriage return are trimmed, not the rest of the Unicode white space JavaScript accepts.
- GarageForms.NumberOf: reads only an optionally signed run of decimal digits; fractions, exponents, `0x`/`0b`/`0o` literals and `Infinity`, which `Number` also reads, are NaN here, so a time part written that way does not convert.
- Floating-point numbers (prices, coordinates): modelled as `real`, without rounding.
- Analytics.SortBy: `Array.prototype.sort` is stable since ES2019, and the model's insertion sort is too, but only sortedness and permutation are stated, not stability.
- DefectForms.UploadImages: that each image changes exactly as one loop pass prescribes is stated only when the list holds distinct objects; the source passes a copy of the image list, whose entries are distinct.
- Dropzone.OnDrop: creates new image objects, where `Object.assign` decorates the dropped `File` objects in place; the preview URLs and their `revokeObjectURL` cleanup are left out.
- A request without `ImageNames`, on which the source throws: the request type always carries the list.
- Translation of user-facing messages (`t(...)`): messages are the untranslated keys or texts.
- React state, effects and rendering: forms are values, and a handler's effect is its result.
- The order of `list(set(...))` at ci-cd/deploy-kubernetes.py:283 is unspecified in Python: modelled as first-occurrence order.
- The legacy controller's `getDefects`, `getDefectById` and the signed-URL handlers, which do the same as the current revision's; the signed-URL handlers of both revisions only forward to object storage and are not modelled.
- The calls to the analytics service (`notifyAnalytics`, `getRecentDefectStatus`): the counters they carry are parameters and results.
- Firebase/Firestore adapters, `ObjectStorageRepo` and the Express wiring: not part of this model. The current revision's `checkImageExists` is not part of this model either; it is taken to answer whether the image is stored.
- `DefectReportStatus.ts`, `ImageFile.ts`, `UserObject.ts`, `EditUserRequestObject.ts` and `ticket.ts` are not part of this model; the types they declare are rebuilt from their uses.
- DefectControllers.CreatedBody: the id is written into `{"Id":"…"}` without the escaping `JSON.stringify` applies to quotes, backslashes and control characters; the request body in the legacy 500 answer is a parameter holding `JSON.stringify(req.body)`, whose serialisation is not modelled.
- Defects.Defect.FromState: `fromState` hands the state's `ImageNames` array to the defect itself (backend/property-management/src/defects/models/defectAggregate/Defect.ts:92), so a later `addImage` also grows that state object; the model copies the names as a sequence and does not capture this sharing. The same holds for LegacyDefects.LegacyDefect.FromState (backend/property-management/defects/models/defectAggregate/Defect.ts:81).
- DefectControllers.DefectController.DeleteDefect: for an unknown id the in-memory repository rejects, so the controller answers 500 and its "already deleted" branch is unreachable with this repository; the model follows the code.
- GaragesRoute.PostGarage: the 500 answer carries the placeholder body "error" where the route sends the repository's error object as JSON; the error's content is not modelled.
- GarageEvents: Garage.ts declares no list of charging stations, yet the notifier reads `garage.ChargingStations`; the stations are passed to the DTO functions alongside the garage.
- Garages.Garage: the spot count is an integer; a fractional JavaScript number of spots, which the setter would accept, is not modelled.
- Concurrency: requests are handled one at a time, and the JSON files are not shared between processes.

## Findings
| source | as written | input that shows it | evidently intended | confidence | as-written member | corrected member |
|---|---|---|---|---|---|---|
| ci-cd/deploy-kubernetes.py:285 | `for deployment, ns in deployments_to_delete` unpacks each two-key dict into its keys, so every uninstall is `helm uninstall deployment -n namespace` | a cluster holding `acme-park-backend` in `acme-ns` with an empty roster | uninstall each stale release in its own namespace | not executed | KubeDeploy.AsWrittenUninstallFails | KubeDeploy.DeleteCmds |
| ci-cd/deploy-kubernetes.py:193 | a missing `deployment.json` gives `{}`, and `.git_tag` on it raises | no tag on the command line and no deployment info in the bucket | fall back to the default deployment info, whose tag is empty | not executed | Store.StoredTagAsWritten | Store.StoredTag |
| ci-cd/deploy.py:157 | a missing `deployment.json` gives `{}`, and `deployment_info.git_tag` at line 458 raises on it | `apply` with no tag on the command line and no deployment info in the bucket | fall back to the default deployment info, whose tag is empty | not executed | Store.StoredTagAsWritten | Store.StoredTag |
| backend/property-management/defects/controllers/DefectController.ts:194 | `checkImageExists` is async, so `exists` is a pending promise, which is truthy, and the check always passes | a create request naming `missing.png` with nothing stored | refuse a request naming an image that is not stored | not executed | LegacyDefectControllers.AsWrittenAcceptsMissingImage | DefectControllers.CheckUploadedImages |
| frontend/src/routes/AddGarage.tsx:177-184 | the station handlers find stations by name, but every station starts unnamed and the name field only passes the typed text as the name to look for, so no name is ever set and removing one station removes all of them | add two charging stations, then press the first one's remove button | each button and input acts on its own station, by list position | not executed | GarageForms.RemoveOneRemovesAll | GarageForms.RemoveStationAtRemovesOne |
| backend/authentication/repositories/jsonFileRepository.ts:95 | the record's mail is read from `user.email`, which a user does not have, so it is stored as undefined | creating a user with a mail and reading it back | store the user's `mail` | not executed | UserRepo.AsWrittenLosesMail | UserRepo.CreateThenGet |
