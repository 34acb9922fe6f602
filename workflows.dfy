/**
 * The GitHub Actions workflow generator (engine/github_generator/workflows.py).
 *
 * A generator owns one directory, repo_dir/.github/workflows, and its only
 * state is what that directory holds: file name to content. YAML dumping and
 * Jinja rendering are not modelled; a file's content records the document or
 * the template it was produced from.
 */
module Workflows {
  import opened Common

  const SETUP_CLIENT := "setup-client.yml"
  const DEPLOY_CLIENT := "deploy-client.yml"
  const DISASTER_RECOVERY := "disaster-recovery.yml"
  const DIAGNOSE_SERVICES := "diagnose-services.yml"
  const FIX_COMMON_ISSUES := "fix-common-issues.yml"

  /** The setup workflow's environment choices when the client data names none. */
  const DEFAULT_ENVIRONMENTS := ["dev", "hml", "prod", "all"]

  /** The module whose installation adds the disaster-recovery workflow. */
  const HETZNER := "hetzner"

  /** The keys of the client data dictionary the generator reads; None is an absent key. */
  datatype ClientData = ClientData(clientName: Option<string>, environments: Option<seq<string>>)

  /** The template constants of the generator's templates module. */
  datatype Template = DisasterRecoveryTemplate | DiagnoseServicesTemplate | FixCommonIssuesTemplate

  datatype Content =
    | SetupClientDocument(environmentOptions: seq<string>)   // YAML dump of the setup workflow
    | DeployClientDocument                                   // YAML dump of the deploy workflow
    | Rendered(template: Template)                           // a template rendered without context

  /** The choices of the setup workflow's "environment" input. */
  function EnvironmentOptions(clientData: ClientData): (options: seq<string>)
    ensures clientData.environments.Some? ==> options == clientData.environments.value
    ensures clientData.environments.None? ==> options == DEFAULT_ENVIRONMENTS
  {
    if clientData.environments.Some? then clientData.environments.value else DEFAULT_ENVIRONMENTS
  }

  /** `installed_modules or []`: None and the empty list mean the same. */
  function ModulesOrEmpty(installedModules: Option<seq<string>>): seq<string>
  {
    if installedModules.Some? then installedModules.value else []
  }

  /**
   * Everything generate_workflows_for_client writes, by file name: setup,
   * deploy, diagnose and fix always, disaster recovery exactly when "hetzner"
   * is among the installed modules.
   */
  function WorkflowsFor(clientData: ClientData, installedModules: Option<seq<string>>): (files: map<string, Content>)
    ensures files.Keys == {SETUP_CLIENT, DEPLOY_CLIENT, DIAGNOSE_SERVICES, FIX_COMMON_ISSUES} +
      (if HETZNER in ModulesOrEmpty(installedModules) then {DISASTER_RECOVERY} else {})
    ensures files[SETUP_CLIENT] == SetupClientDocument(EnvironmentOptions(clientData))
    ensures files[DEPLOY_CLIENT] == DeployClientDocument
    ensures files[DIAGNOSE_SERVICES] == Rendered(DiagnoseServicesTemplate)
    ensures files[FIX_COMMON_ISSUES] == Rendered(FixCommonIssuesTemplate)
    ensures DISASTER_RECOVERY in files ==> files[DISASTER_RECOVERY] == Rendered(DisasterRecoveryTemplate)
  {
    var always := map[
      SETUP_CLIENT := SetupClientDocument(EnvironmentOptions(clientData)),
      DEPLOY_CLIENT := DeployClientDocument,
      DIAGNOSE_SERVICES := Rendered(DiagnoseServicesTemplate),
      FIX_COMMON_ISSUES := Rendered(FixCommonIssuesTemplate)];
    if HETZNER in ModulesOrEmpty(installedModules) then always[DISASTER_RECOVERY := Rendered(DisasterRecoveryTemplate)]
    else always
  }

  /** No installed-module list and an empty one generate the same files. */
  lemma NoModulesIsEmptyModules(clientData: ClientData)
    ensures WorkflowsFor(clientData, None) == WorkflowsFor(clientData, Some([]))
  {
  }

  /** Only the client's environments and whether "hetzner" is installed matter. */
  lemma OnlyHetznerMatters(clientData: ClientData, a: seq<string>, b: seq<string>)
    requires (HETZNER in a) == (HETZNER in b)
    ensures WorkflowsFor(clientData, Some(a)) == WorkflowsFor(clientData, Some(b))
  {
  }

  /**
   * The directory after the generator's five writes, in the order
   * generate_workflows_for_client makes them, starting from `m`.
   */
  function WrittenInOrder(m: map<string, Content>, clientData: ClientData, hetzner: bool): map<string, Content>
  {
    var m2 := m[SETUP_CLIENT := SetupClientDocument(EnvironmentOptions(clientData))][DEPLOY_CLIENT := DeployClientDocument];
    var m3 := if hetzner then m2[DISASTER_RECOVERY := Rendered(DisasterRecoveryTemplate)] else m2;
    m3[DIAGNOSE_SERVICES := Rendered(DiagnoseServicesTemplate)][FIX_COMMON_ISSUES := Rendered(FixCommonIssuesTemplate)]
  }

  /** Writing the files one after another is the same as laying `WorkflowsFor` over the directory. */
  lemma WrittenInOrderIsUnion(m: map<string, Content>, clientData: ClientData, installedModules: Option<seq<string>>)
    ensures WrittenInOrder(m, clientData, HETZNER in ModulesOrEmpty(installedModules)) ==
      m + WorkflowsFor(clientData, installedModules)
  {
    var w := WorkflowsFor(clientData, installedModules);
    var lhs := WrittenInOrder(m, clientData, HETZNER in ModulesOrEmpty(installedModules));
    assert lhs.Keys == (m + w).Keys;
    forall k | k in lhs.Keys
      ensures lhs[k] == (m + w)[k]
    {
    }
  }

  class WorkflowGenerator {
    const repoDir: string
    const workflowsDir: string

    /** The files of `workflowsDir`, by name. */
    var files: map<string, Content>

    /** Creates the workflows directory when missing; files already there stay. */
    constructor (repoDir: string, existing: map<string, Content>)
      ensures this.repoDir == repoDir && workflowsDir == repoDir + "/.github/workflows"
      ensures files == existing
    {
      this.repoDir := repoDir;
      workflowsDir := repoDir + "/.github/workflows";
      files := existing;
    }

    /** Writes (or overwrites) one file; nothing else in the directory changes. */
    method Write(name: string, content: Content)
      modifies this
      ensures files == old(files)[name := content]
    {
      files := files[name := content];
    }

    method GenerateSetupClientWorkflow(clientData: ClientData)
      modifies this
      ensures files == old(files)[SETUP_CLIENT := SetupClientDocument(EnvironmentOptions(clientData))]
    {
      Write(SETUP_CLIENT, SetupClientDocument(EnvironmentOptions(clientData)));
    }

    method GenerateDeployClientWorkflow(clientData: ClientData)
      modifies this
      ensures files == old(files)[DEPLOY_CLIENT := DeployClientDocument]
    {
      Write(DEPLOY_CLIENT, DeployClientDocument);
    }

    method GenerateDisasterRecoveryWorkflow()
      modifies this
      ensures files == old(files)[DISASTER_RECOVERY := Rendered(DisasterRecoveryTemplate)]
    {
      Write(DISASTER_RECOVERY, Rendered(DisasterRecoveryTemplate));
    }

    method GenerateDiagnoseServicesWorkflow()
      modifies this
      ensures files == old(files)[DIAGNOSE_SERVICES := Rendered(DiagnoseServicesTemplate)]
    {
      Write(DIAGNOSE_SERVICES, Rendered(DiagnoseServicesTemplate));
    }

    method GenerateFixCommonIssuesWorkflow()
      modifies this
      ensures files == old(files)[FIX_COMMON_ISSUES := Rendered(FixCommonIssuesTemplate)]
    {
      Write(FIX_COMMON_ISSUES, Rendered(FixCommonIssuesTemplate));
    }

    /**
     * generate_workflows_for_client: the files `WorkflowsFor` names are written
     * over whatever the directory held, and every other file stays.
     */
    method GenerateWorkflowsForClient(clientData: ClientData, installedModules: Option<seq<string>>)
      modifies this
      ensures files == old(files) + WorkflowsFor(clientData, installedModules)
      ensures forall name :: name in old(files) && name !in WorkflowsFor(clientData, installedModules) ==>
        name in files && files[name] == old(files)[name]
    {
      var modules := ModulesOrEmpty(installedModules);
      ghost var before := files;
      GenerateSetupClientWorkflow(clientData);
      GenerateDeployClientWorkflow(clientData);
      if HETZNER in modules {
        GenerateDisasterRecoveryWorkflow();
      }
      GenerateDiagnoseServicesWorkflow();
      GenerateFixCommonIssuesWorkflow();
      assert files == WrittenInOrder(before, clientData, HETZNER in modules);
      WrittenInOrderIsUnion(before, clientData, installedModules);
    }
  }
}
