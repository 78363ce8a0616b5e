/** The repository's own examples: a manifest with one environment
    `development`, one application `my-app-1` and one service
    `app-1-service-http` whose source is `https://github.com/testing/testing`.
    URL parsing is left to the caller, so each scenario assumes only that this
    URL parses to the path `/testing/testing`. */
module Scenarios {
  import opened Results
  import opened Layout
  import opened CiFilterText
  import opened EventListeners

  const DevCi: TemplateBinding := TemplateBinding("dev-ci-template", "dev-ci-binding")
  const DevCd: TemplateBinding := TemplateBinding("dev-cd-template", "dev-cd-binding")
  const HttpService: Service := Service("app-1-service-http", "https://github.com/testing/testing")
  const App1: Application := Application("my-app-1", [HttpService])
  const Development: Environment := Environment("development", Pipelines(DevCi, DevCd), [App1])
  const TestManifest: Manifest := Manifest([Development])

  /** The filter the test expects for `testing/testing`, verbatim, cut at the
      same places as the filter template. */
  const TestingFilter: string :=
    "(header.match('X-GitHub-Event', " + "'pull_request') && " + "body.action == 'opened' || "
    + "body.action == 'synchronize') && " + "body.pull_request.head." + "repo.full_name == 'testing/testing'"

  /** A manifest with one environment, one application and one sourced
      service yields exactly one record and one trigger. */
  lemma SingleServiceListener(urlPath: UrlPath, n: string, env: Environment, app: Application, svc: Service, repo: string)
    requires env.apps == [app] && app.services == [svc]
    requires svc.sourceUrl != ""
    requires RepoExtractor(urlPath)(svc.sourceUrl) == Success(repo)
    ensures ParseManifest(urlPath, Manifest([env]))
      == Success([Record(repo, app.name + "-" + svc.name, env.name, env.pipelines.integration, env.pipelines.deployment)])
    ensures GenerateEventListener(urlPath, n, Manifest([env]))
      == Success(EventListener(ListenerKind, ListenerApiVersion, n,
                               [Trigger(app.name + "-" + svc.name, [env.pipelines.integration.binding],
                                        env.pipelines.integration.template,
                                        [CelInterceptor(CiFilterPrefix + repo + "'")])]))
  {
    var m := Manifest([env]);
    var site := Site(env, app, svc);
    assert ServiceSites(env, app, app.services) == [site];
    assert ApplicationsSites(env, [app]) == [site] + ApplicationsSites(env, [app][1..]);
    assert EnvironmentsSites([env]) == [site] + EnvironmentsSites([env][1..]);
    assert Sites(m) == [site];
    assert Sourced([site]) == [site] + Sourced([]);
    assert RepoFound(RepoExtractor(urlPath), site);
    assert AllFound(RepoExtractor(urlPath), [site]);
    var es := Sourced(Sites(m));
    assert es == [site];
    ParseManifestSpec(urlPath, m);
    var records := ParseManifest(urlPath, m).value;
    assert records[0] == ExpectedRecord(RepoExtractor(urlPath), es[0]);
    assert records == [records[0]];
    GenerateEventListenerSpec(urlPath, n, m);
    var triggers := GenerateEventListener(urlPath, n, m).value.triggers;
    assert triggers[0] == ExpectedTrigger(RepoExtractor(urlPath), es[0]);
    assert triggers == [triggers[0]];
  }

  lemma TestingPieces()
    ensures "/" + "testing" + "/" + "testing" == "/testing/testing"
    ensures "testing" + "/" + "testing" == "testing/testing"
  {
  }

  /** The example URL names the repository `testing/testing`. */
  lemma TestingRepo(urlPath: UrlPath)
    requires urlPath("https://github.com/testing/testing") == Some("/testing/testing")
    ensures RepoExtractor(urlPath)("https://github.com/testing/testing") == Success("testing/testing")
  {
    TestingPieces();
    ExtractRepoOwnerRepo(urlPath, "https://github.com/testing/testing", "testing", "testing");
  }

  lemma TriggerNameText()
    ensures "my-app-1" + "-" + "app-1-service-http" == "my-app-1-app-1-service-http"
  {
  }

  lemma TestingFilterText()
    ensures CiFilterPrefix + "testing/testing" + "'" == TestingFilter
  {
    var head := Piece0 + Piece1 + Piece2 + Piece3 + Piece4;
    assert CiFilterPrefix == head + Piece5;
    assert Piece5 + "testing/testing" + "'" == "repo.full_name == 'testing/testing'";
    assert head + Piece5 + "testing/testing" + "'" == head + (Piece5 + "testing/testing" + "'");
  }

  /** Extracting the services of the example manifest gives its one record. */
  lemma ExtractServicesScenario(urlPath: UrlPath)
    requires urlPath("https://github.com/testing/testing") == Some("/testing/testing")
    ensures ParseManifest(urlPath, TestManifest)
      == Success([Record("testing/testing", "my-app-1-app-1-service-http", "development", DevCi, DevCd)])
  {
    TestingRepo(urlPath);
    SingleServiceListener(urlPath, "my-test", Development, App1, HttpService, "testing/testing");
    TriggerNameText();
  }

  /** The listener generated for the example manifest under the name `my-test`. */
  lemma GenerateEventListenerScenario(urlPath: UrlPath)
    requires urlPath("https://github.com/testing/testing") == Some("/testing/testing")
    ensures GenerateEventListener(urlPath, "my-test", TestManifest)
      == Success(EventListener("EventListener", "triggers.tekton.dev/v1alpha1", "my-test",
                               [Trigger("my-app-1-app-1-service-http", ["dev-ci-binding"], "dev-ci-template",
                                        [CelInterceptor(TestingFilter)])]))
  {
    TestingRepo(urlPath);
    SingleServiceListener(urlPath, "my-test", Development, App1, HttpService, "testing/testing");
    TriggerNameText();
    TestingFilterText();
  }
}
