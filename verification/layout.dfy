/** The deployment manifest (environments, applications, services) and the
    visitor walk over it.  The walk visits an environment, then each of its
    applications, and, after each application, that application's services,
    environment-major and in the manifest's own order; every callback may fail,
    and the first failure ends the walk. */
module Layout {
  import opened Results

  /** Names of a pre-existing pipeline template and trigger binding. */
  datatype TemplateBinding = TemplateBinding(template: string, binding: string)

  datatype Pipelines = Pipelines(integration: TemplateBinding, deployment: TemplateBinding)

  /** A service; an empty `sourceUrl` means it has no source repository. */
  datatype Service = Service(name: string, sourceUrl: string)

  datatype Application = Application(name: string, services: seq<Service>)

  datatype Environment = Environment(name: string, pipelines: Pipelines, apps: seq<Application>)

  datatype Manifest = Manifest(environments: seq<Environment>)

  /** One callback invocation of the walk. */
  datatype Visit =
    | EnvironmentVisit(env: Environment)
    | ApplicationVisit(env: Environment, app: Application)
    | ServiceVisit(env: Environment, app: Application, svc: Service)

  /** The callbacks of a walk, threading the visitor's state `S`. */
  datatype Visitor<!S, E> = Visitor(
    environment: (S, Environment) -> Result<S, E>,
    application: (S, Environment, Application) -> Result<S, E>,
    service: (S, Environment, Application, Service) -> Result<S, E>)

  /** The callback invocations of a walk over `m`, in order. */
  function Visits(m: Manifest): seq<Visit> {
    EnvironmentsVisits(m.environments)
  }

  function EnvironmentsVisits(envs: seq<Environment>): seq<Visit>
    decreases |envs|
  {
    if envs == [] then []
    else [EnvironmentVisit(envs[0])] + ApplicationsVisits(envs[0], envs[0].apps) + EnvironmentsVisits(envs[1..])
  }

  function ApplicationsVisits(env: Environment, apps: seq<Application>): seq<Visit>
    decreases |apps|
  {
    if apps == [] then []
    else [ApplicationVisit(env, apps[0])] + ServicesVisits(env, apps[0], apps[0].services) + ApplicationsVisits(env, apps[1..])
  }

  function ServicesVisits(env: Environment, app: Application, svcs: seq<Service>): seq<Visit>
    decreases |svcs|
  {
    if svcs == [] then []
    else [ServiceVisit(env, app, svcs[0])] + ServicesVisits(env, app, svcs[1..])
  }

  function Accept<S, E>(v: Visitor<S, E>, s: S, visit: Visit): Result<S, E> {
    match visit
    case EnvironmentVisit(env) => v.environment(s, env)
    case ApplicationVisit(env, app) => v.application(s, env, app)
    case ServiceVisit(env, app, svc) => v.service(s, env, app, svc)
  }

  /** Runs the callbacks for `visits` in order, stopping at the first failure. */
  function Run<S, E>(v: Visitor<S, E>, s: S, visits: seq<Visit>): Result<S, E>
    decreases |visits|
  {
    if visits == [] then Success(s)
    else
      match Accept(v, s, visits[0])
      case Failure(e) => Failure(e)
      case Success(s') => Run(v, s', visits[1..])
  }

  /** `Manifest.Walk`: visits the whole manifest, starting from state `s`. */
  function Walk<S, E>(m: Manifest, v: Visitor<S, E>, s: S): Result<S, E> {
    Run(v, s, Visits(m))
  }

  /** Running two stretches of visits one after the other is running their
      concatenation; a failure in the first stretch skips the second. */
  lemma {:induction false} RunAppend<S, E>(v: Visitor<S, E>, s: S, a: seq<Visit>, b: seq<Visit>)
    ensures Run(v, s, a + b) == match Run(v, s, a)
                                case Failure(e) => Failure(e)
                                case Success(s') => Run(v, s', b)
    decreases |a|
  {
    if a == [] {
      assert a + b == b;
    } else {
      assert (a + b)[0] == a[0];
      assert (a + b)[1..] == a[1..] + b;
      match Accept(v, s, a[0])
      case Failure(e) =>
      case Success(s') => RunAppend(v, s', a[1..], b);
    }
  }

  /** Where a service sits in the manifest. */
  datatype Site = Site(env: Environment, app: Application, svc: Service)

  /** Every service of the manifest with its environment and application:
      environment-major, then application, then service, in manifest order. */
  function Sites(m: Manifest): seq<Site> {
    EnvironmentsSites(m.environments)
  }

  function EnvironmentsSites(envs: seq<Environment>): seq<Site>
    decreases |envs|
  {
    if envs == [] then [] else ApplicationsSites(envs[0], envs[0].apps) + EnvironmentsSites(envs[1..])
  }

  function ApplicationsSites(env: Environment, apps: seq<Application>): seq<Site>
    decreases |apps|
  {
    if apps == [] then []
    else ServiceSites(env, apps[0], apps[0].services) + ApplicationsSites(env, apps[1..])
  }

  function ServiceSites(env: Environment, app: Application, svcs: seq<Service>): seq<Site> {
    seq(|svcs|, i requires 0 <= i < |svcs| => Site(env, app, svcs[i]))
  }

  /** The services visited by `visits`, in visiting order. */
  function VisitedSites(visits: seq<Visit>): seq<Site>
    decreases |visits|
  {
    if visits == [] then []
    else
      match visits[0]
      case ServiceVisit(env, app, svc) => [Site(env, app, svc)] + VisitedSites(visits[1..])
      case _ => VisitedSites(visits[1..])
  }

  lemma {:induction false} VisitedSitesAppend(a: seq<Visit>, b: seq<Visit>)
    ensures VisitedSites(a + b) == VisitedSites(a) + VisitedSites(b)
    decreases |a|
  {
    if a == [] {
      assert a + b == b;
    } else {
      assert (a + b)[0] == a[0];
      assert (a + b)[1..] == a[1..] + b;
      VisitedSitesAppend(a[1..], b);
    }
  }

  lemma {:induction false} ServicesVisitedInOrder(env: Environment, app: Application, svcs: seq<Service>)
    ensures VisitedSites(ServicesVisits(env, app, svcs)) == ServiceSites(env, app, svcs)
    decreases |svcs|
  {
    if svcs != [] {
      var rest := ServicesVisits(env, app, svcs[1..]);
      assert ([ServiceVisit(env, app, svcs[0])] + rest)[1..] == rest;
      ServicesVisitedInOrder(env, app, svcs[1..]);
      assert ServiceSites(env, app, svcs) == [Site(env, app, svcs[0])] + ServiceSites(env, app, svcs[1..]);
    }
  }

  lemma {:induction false} ApplicationsVisitedInOrder(env: Environment, apps: seq<Application>)
    ensures VisitedSites(ApplicationsVisits(env, apps)) == ApplicationsSites(env, apps)
    decreases |apps|
  {
    if apps != [] {
      var head := [ApplicationVisit(env, apps[0])];
      var svcs := ServicesVisits(env, apps[0], apps[0].services);
      var rest := ApplicationsVisits(env, apps[1..]);
      VisitedSitesAppend(head + svcs, rest);
      VisitedSitesAppend(head, svcs);
      assert VisitedSites(head) == [];
      ServicesVisitedInOrder(env, apps[0], apps[0].services);
      ApplicationsVisitedInOrder(env, apps[1..]);
    }
  }

  lemma {:induction false} EnvironmentsVisitedInOrder(envs: seq<Environment>)
    ensures VisitedSites(EnvironmentsVisits(envs)) == EnvironmentsSites(envs)
    decreases |envs|
  {
    if envs != [] {
      var head := [EnvironmentVisit(envs[0])];
      var apps := ApplicationsVisits(envs[0], envs[0].apps);
      var rest := EnvironmentsVisits(envs[1..]);
      VisitedSitesAppend(head + apps, rest);
      VisitedSitesAppend(head, apps);
      assert VisitedSites(head) == [];
      ApplicationsVisitedInOrder(envs[0], envs[0].apps);
      EnvironmentsVisitedInOrder(envs[1..]);
    }
  }

  /** The walk reaches every service exactly once, in manifest order. */
  lemma WalkVisitsSitesInOrder(m: Manifest)
    ensures VisitedSites(Visits(m)) == Sites(m)
  {
    EnvironmentsVisitedInOrder(m.environments);
  }
}
