/** Derivation of a Tekton EventListener from a manifest: every service with a
    source URL becomes one record (repository, trigger name, environment and
    its pipeline pairs), and every record becomes one trigger whose CEL filter
    matches pull requests from that repository. */
module EventListeners {
  import opened Results
  import opened Strings
  import opened Fmt
  import opened Layout
  import opened CiFilterText

  const ListenerKind: string := "EventListener"
  const ListenerApiVersion: string := "triggers.tekton.dev/v1alpha1"

  /** URL parsing (Go's `url.Parse(u).Path`), supplied by the caller:
      `None` when the URL does not parse, otherwise its path. */
  type UrlPath = string -> Option<string>

  /** The ways the derivation aborts: the URL does not parse, or its path has
      too few pieces for `parts[1]`/`parts[2]` (index out of range). */
  datatype Panic = MalformedUrl(url: string) | IndexOutOfRange(index: nat, length: nat)

  /** One service with a source repository, as extracted by the walk. */
  datatype Record = Record(repoName: string, name: string, env: string, ci: TemplateBinding, cd: TemplateBinding)

  datatype Interceptor = CelInterceptor(filter: string)

  datatype Trigger = Trigger(name: string, bindings: seq<string>, template: string, interceptors: seq<Interceptor>)

  datatype EventListener = EventListener(kind: string, apiVersion: string, name: string, triggers: seq<Trigger>)

  // ---------------------------------------------------------------------------
  // Repository extraction

  /** The formats of the source's two `fmt.Sprintf` calls with two arguments. */
  lemma PairFormats(a: string, b: string)
    ensures FormatFor("%s/%s", 2) && Sprintf("%s/%s", [a, b]) == a + "/" + b
    ensures FormatFor("%s-%s", 2) && Sprintf("%s-%s", [a, b]) == a + "-" + b
  {
    SprintfPair('/', a, b);
    assert "%s/%s" == "%s" + ['/'] + "%s";
    SprintfPair('-', a, b);
    assert "%s-%s" == "%s" + ['-'] + "%s";
  }

  /** The repository named by a URL path: its second and third `/`-separated
      pieces, joined by `/`. Fewer than three pieces means indexing past the
      end of the split. The gc compiler evaluates the two index expressions
      left to right, so `parts[1]` is checked first and the failing index is
      the number of pieces; the Go language itself leaves that order open. */
  function RepoFromPath(path: string): (r: Result<string, Panic>)
    ensures r.Failure? <==> Count(path, '/') < 2
    ensures r.Failure? ==> r.error == IndexOutOfRange(Count(path, '/') + 1, Count(path, '/') + 1)
    ensures r.Success? ==> Count(r.value, '/') == 1
  {
    var parts := Split(path, '/');
    if |parts| < 3 then Failure(IndexOutOfRange(|parts|, |parts|))
    else
      PairFormats(parts[1], parts[2]);
      CountAppend(parts[1] + "/", parts[2], '/');
      CountAppend(parts[1], "/", '/');
      Success(Sprintf("%s/%s", [parts[1], parts[2]]))
  }

  /** `extractRepo`: parse the URL, then take the repository from its path. */
  function ExtractRepo(urlPath: UrlPath, u: string): Result<string, Panic> {
    match urlPath(u)
    case None => Failure(MalformedUrl(u))
    case Some(path) => RepoFromPath(path)
  }

  /** With at least three pieces, the repository is pieces 1 and 2. */
  lemma RepoFromPieces(path: string)
    requires |Split(path, '/')| >= 3
    ensures RepoFromPath(path) == Success(Split(path, '/')[1] + "/" + Split(path, '/')[2])
  {
    PairFormats(Split(path, '/')[1], Split(path, '/')[2]);
  }

  /** The pieces of `first/owner/repo` + `rest` start with `first`, `owner`, `repo`. */
  lemma SplitOwnerRepo(first: string, owner: string, repo: string, rest: string)
    requires '/' !in first && '/' !in owner && '/' !in repo
    requires rest == [] || rest[0] == '/'
    ensures var parts := Split(first + "/" + owner + "/" + repo + rest, '/');
      |parts| >= 3 && parts[1] == owner && parts[2] == repo
  {
    var tail := repo + rest;
    var mid := owner + ['/'] + tail;
    PathPieces(first, owner, repo, rest);
    SplitAfterPiece(first, mid, '/');
    SplitAfterPiece(owner, tail, '/');
    SplitHead(repo, rest);
    var parts := Split(first + ['/'] + mid, '/');
    assert parts == [first] + ([owner] + Split(tail, '/'));
  }

  lemma PathPieces(first: string, owner: string, repo: string, rest: string)
    ensures first + "/" + owner + "/" + repo + rest == first + ['/'] + (owner + ['/'] + (repo + rest))
  {
  }

  /** The first piece of `repo` + `rest` is `repo` when `rest` is empty or
      starts a new piece. */
  lemma SplitHead(repo: string, rest: string)
    requires '/' !in repo
    requires rest == [] || rest[0] == '/'
    ensures Split(repo + rest, '/')[0] == repo
  {
    if rest == [] {
      assert repo + rest == repo;
      SplitNoSeparator(repo, '/');
    } else {
      assert repo + rest == repo + ['/'] + rest[1..];
      SplitAfterPiece(repo, rest[1..], '/');
    }
  }

  /** A path `first/owner/repo` followed by nothing or by further `/`-pieces
      yields `owner/repo`: extra pieces are ignored and nothing is stripped
      from `repo` (a `.git` suffix stays). */
  lemma RepoFromPathSegments(first: string, owner: string, repo: string, rest: string)
    requires '/' !in first && '/' !in owner && '/' !in repo
    requires rest == [] || rest[0] == '/'
    ensures RepoFromPath(first + "/" + owner + "/" + repo + rest) == Success(owner + "/" + repo)
  {
    SplitOwnerRepo(first, owner, repo, rest);
    RepoFromPieces(first + "/" + owner + "/" + repo + rest);
  }

  /** Empty pieces count: in `//owner/repo` the second piece is empty, so the
      extracted name is `/owner`, not `owner/repo`. */
  lemma EmptyPieceKept(owner: string, repo: string)
    requires '/' !in owner && '/' !in repo
    ensures RepoFromPath("//" + owner + "/" + repo) == Success("/" + owner)
  {
    RepoFromPathSegments("", "", owner, "/" + repo);
    assert "" + "/" + "" + "/" + owner + ("/" + repo) == "//" + owner + "/" + repo;
    assert "" + "/" + owner == "/" + owner;
  }

  /** Path `path` is `first/owner/repo` followed by `rest`, as above. */
  predicate PathShape(path: string, first: string, owner: string, repo: string, rest: string) {
    && path == first + "/" + owner + "/" + repo + rest
    && '/' !in first && '/' !in owner && '/' !in repo
    && (rest == [] || rest[0] == '/')
  }

  /** Conversely, every extracted repository comes from a path of that shape. */
  lemma RepoFromPathShape(path: string)
    requires RepoFromPath(path).Success?
    ensures exists first, owner, repo, rest ::
      PathShape(path, first, owner, repo, rest) && RepoFromPath(path).value == owner + "/" + repo
  {
    var parts := Split(path, '/');
    RepoFromPieces(path);
    JoinSplit(path, '/');
    var rest := JoinTail(parts);
    assert PathShape(path, parts[0], parts[1], parts[2], rest);
  }

  /** Rebuilding a path from its pieces: the text after the third piece is
      empty or begins with a separator. */
  lemma JoinTail(parts: seq<string>) returns (rest: string)
    requires |parts| >= 3
    ensures Join(parts, '/') == parts[0] + "/" + parts[1] + "/" + parts[2] + rest
    ensures rest == [] || rest[0] == '/'
  {
    rest := if |parts| == 3 then "" else "/" + Join(parts[3..], '/');
    assert parts[1..][1..] == parts[2..];
    assert parts[2..][1..] == parts[3..];
    assert Join(parts[2..], '/') == parts[2] + rest;
  }

  /** A source URL whose path is `/owner/repo` names the repository
      `owner/repo`, whatever the host. */
  lemma ExtractRepoOwnerRepo(urlPath: UrlPath, u: string, owner: string, repo: string)
    requires '/' !in owner && '/' !in repo
    requires urlPath(u) == Some("/" + owner + "/" + repo)
    ensures ExtractRepo(urlPath, u) == Success(owner + "/" + repo)
    ensures RepoExtractor(urlPath)(u) == Success(owner + "/" + repo)
  {
    RepoFromPathSegments("", owner, repo, "");
    assert "" + "/" + owner + "/" + repo + "" == "/" + owner + "/" + repo;
  }

  // ---------------------------------------------------------------------------
  // Record extraction

  /** `serviceVisitor.Service`: services without a source URL are skipped;
      any other service appends one record, or aborts the walk when its
      repository cannot be extracted. */
  function VisitService(urlPath: UrlPath, acc: seq<Record>, env: Environment, app: Application, svc: Service): (r: Result<seq<Record>, Panic>)
    ensures svc.sourceUrl == "" ==> r == Success(acc)
    ensures svc.sourceUrl != "" ==> (r.Success? <==> ExtractRepo(urlPath, svc.sourceUrl).Success?)
    ensures svc.sourceUrl != "" && r.Failure? ==> r.error == ExtractRepo(urlPath, svc.sourceUrl).error
    ensures svc.sourceUrl != "" && r.Success? ==>
      r.value == acc + [Record(ExtractRepo(urlPath, svc.sourceUrl).value, app.name + "-" + svc.name,
                               env.name, env.pipelines.integration, env.pipelines.deployment)]
  {
    if svc.sourceUrl == "" then Success(acc)
    else
      var repo :- ExtractRepo(urlPath, svc.sourceUrl);
      PairFormats(app.name, svc.name);
      var name := Sprintf("%s-%s", [app.name, svc.name]);
      Success(acc + [Record(repo, name, env.name, env.pipelines.integration, env.pipelines.deployment)])
  }

  /** The `serviceVisitor`: only the service callback does anything; the
      environment and application callbacks keep the state and never fail. */
  function ServiceVisitor(urlPath: UrlPath): (v: Visitor<seq<Record>, Panic>)
    ensures forall s, env :: v.environment(s, env) == Success(s)
    ensures forall s, env, app :: v.application(s, env, app) == Success(s)
  {
    Visitor(
      (s: seq<Record>, env: Environment) => Success(s),
      (s: seq<Record>, env: Environment, app: Application) => Success(s),
      (s: seq<Record>, env: Environment, app: Application, svc: Service) => VisitService(urlPath, s, env, app, svc))
  }

  /** `parseManifest`: walks the manifest with a fresh `serviceVisitor`. Its
      Go error result is always nil, so the only failure is an abort. */
  function ParseManifest(urlPath: UrlPath, m: Manifest): Result<seq<Record>, Panic> {
    Walk(m, ServiceVisitor(urlPath), [])
  }

  // ---------------------------------------------------------------------------
  // What the extracted records are, stated independently of the walk

  /** The sites whose service has a source URL, in their original order. */
  function Sourced(sites: seq<Site>): (r: seq<Site>)
    ensures forall x :: x in r <==> x in sites && x.svc.sourceUrl != ""
    ensures |r| <= |sites|
    decreases |sites|
  {
    if sites == [] then []
    else (if sites[0].svc.sourceUrl != "" then [sites[0]] else []) + Sourced(sites[1..])
  }

  /** Filtering distributes over concatenation, so it keeps relative order. */
  lemma {:induction false} SourcedAppend(a: seq<Site>, b: seq<Site>)
    ensures Sourced(a + b) == Sourced(a) + Sourced(b)
    decreases |a|
  {
    if a == [] {
      assert a + b == b;
    } else {
      assert (a + b)[0] == a[0];
      assert (a + b)[1..] == a[1..] + b;
      SourcedAppend(a[1..], b);
    }
  }

  /** What the walk's repository extraction is, as a function value: the spec
      below is stated for any extractor and used with `RepoExtractor`. */
  type RepoOf = string -> Result<string, Panic>

  function RepoExtractor(urlPath: UrlPath): RepoOf {
    u => ExtractRepo(urlPath, u)
  }

  predicate RepoFound(repoOf: RepoOf, site: Site) {
    repoOf(site.svc.sourceUrl).Success?
  }

  predicate AllFound(repoOf: RepoOf, sites: seq<Site>) {
    forall i :: 0 <= i < |sites| ==> RepoFound(repoOf, sites[i])
  }

  /** Site `k` is the first whose repository cannot be extracted, with `p`. */
  predicate FirstFailureAt(repoOf: RepoOf, sites: seq<Site>, k: int, p: Panic) {
    && 0 <= k < |sites|
    && (forall j :: 0 <= j < k ==> RepoFound(repoOf, sites[j]))
    && repoOf(sites[k].svc.sourceUrl) == Failure(p)
  }

  /** The record a sourced site should give. */
  function ExpectedRecord(repoOf: RepoOf, site: Site): Record
    requires RepoFound(repoOf, site)
  {
    Record(repoOf(site.svc.sourceUrl).value, site.app.name + "-" + site.svc.name,
           site.env.name, site.env.pipelines.integration, site.env.pipelines.deployment)
  }

  function ExpectedRecords(repoOf: RepoOf, sites: seq<Site>): seq<Record>
    requires AllFound(repoOf, sites)
    decreases |sites|
  {
    if sites == [] then []
    else
      assert forall i :: 0 <= i < |sites[1..]| ==> sites[1..][i] == sites[i + 1];
      [ExpectedRecord(repoOf, sites[0])] + ExpectedRecords(repoOf, sites[1..])
  }

  lemma {:induction false} ExpectedRecordsIndex(repoOf: RepoOf, sites: seq<Site>)
    requires AllFound(repoOf, sites)
    ensures |ExpectedRecords(repoOf, sites)| == |sites|
    ensures forall i :: 0 <= i < |sites| ==> ExpectedRecords(repoOf, sites)[i] == ExpectedRecord(repoOf, sites[i])
    decreases |sites|
  {
    if sites != [] {
      assert forall i :: 0 <= i < |sites[1..]| ==> sites[1..][i] == sites[i + 1];
      ExpectedRecordsIndex(repoOf, sites[1..]);
    }
  }

  lemma FirstFailureCons(repoOf: RepoOf, site: Site, sites: seq<Site>, k: int, p: Panic)
    requires RepoFound(repoOf, site)
    requires FirstFailureAt(repoOf, sites, k, p)
    ensures FirstFailureAt(repoOf, [site] + sites, k + 1, p)
  {
    var all := [site] + sites;
    assert all[k + 1] == sites[k];
    assert forall j :: 1 <= j <= k ==> all[j] == sites[j - 1];
  }

  /** `r` is what extracting `sites` after the records `acc` must produce. */
  ghost predicate Explains(repoOf: RepoOf, sites: seq<Site>, acc: seq<Record>, r: Result<seq<Record>, Panic>) {
    && (r.Success? <==> AllFound(repoOf, sites))
    && (r.Success? ==> AllFound(repoOf, sites) && r.value == acc + ExpectedRecords(repoOf, sites))
    && (r.Failure? ==> exists k :: FirstFailureAt(repoOf, sites, k, r.error))
  }

  lemma AllFoundCons(repoOf: RepoOf, site: Site, sites: seq<Site>)
    ensures AllFound(repoOf, [site] + sites) <==> RepoFound(repoOf, site) && AllFound(repoOf, sites)
  {
    var all := [site] + sites;
    assert all[0] == site;
    assert forall i :: 0 <= i < |sites| ==> all[i + 1] == sites[i];
    if AllFound(repoOf, all) {
      forall i | 0 <= i < |sites| ensures RepoFound(repoOf, sites[i]) {
        assert RepoFound(repoOf, all[i + 1]);
      }
    }
    if RepoFound(repoOf, site) && AllFound(repoOf, sites) {
      forall i | 0 <= i < |all| ensures RepoFound(repoOf, all[i]) {
        if i > 0 {
          assert all[i] == sites[i - 1];
        }
      }
    }
  }

  /** A sourced site whose repository is found contributes its record ahead
      of what the rest contributes. */
  lemma ExplainsFound(repoOf: RepoOf, site: Site, sites: seq<Site>, acc: seq<Record>, r: Result<seq<Record>, Panic>)
    requires RepoFound(repoOf, site)
    requires Explains(repoOf, sites, acc + [ExpectedRecord(repoOf, site)], r)
    ensures Explains(repoOf, [site] + sites, acc, r)
  {
    var all := [site] + sites;
    AllFoundCons(repoOf, site, sites);
    if r.Success? {
      assert all[0] == site && all[1..] == sites;
    } else {
      var k :| FirstFailureAt(repoOf, sites, k, r.error);
      FirstFailureCons(repoOf, site, sites, k, r.error);
    }
  }

  /** A sourced site whose repository is not found stops the extraction. */
  lemma ExplainsFailed(repoOf: RepoOf, site: Site, sites: seq<Site>, acc: seq<Record>, p: Panic)
    requires repoOf(site.svc.sourceUrl) == Failure(p)
    ensures Explains(repoOf, [site] + sites, acc, Failure(p))
  {
    AllFoundCons(repoOf, site, sites);
    assert FirstFailureAt(repoOf, [site] + sites, 0, p);
  }

  /** Running the service visitor over any stretch of visits extracts exactly
      the sourced services of that stretch, in order, or stops at the first
      one whose repository cannot be extracted. */
  lemma {:induction false} RunServiceVisitor(urlPath: UrlPath, acc: seq<Record>, visits: seq<Visit>)
    ensures Explains(RepoExtractor(urlPath), Sourced(VisitedSites(visits)), acc, Run(ServiceVisitor(urlPath), acc, visits))
    decreases |visits|
  {
    var v := ServiceVisitor(urlPath);
    if visits == [] {
      assert ExpectedRecords(RepoExtractor(urlPath), []) == [];
    } else {
      var rest := visits[1..];
      match visits[0]
      case EnvironmentVisit(env) =>
        RunServiceVisitor(urlPath, acc, rest);
      case ApplicationVisit(env, app) =>
        RunServiceVisitor(urlPath, acc, rest);
      case ServiceVisit(env, app, svc) =>
        var site := Site(env, app, svc);
        var sites := VisitedSites(rest);
        assert ([site] + sites)[0] == site;
        assert ([site] + sites)[1..] == sites;
        if svc.sourceUrl == "" {
          assert Sourced([site] + sites) == Sourced(sites);
          RunServiceVisitor(urlPath, acc, rest);
        } else {
          assert Sourced([site] + sites) == [site] + Sourced(sites);
          match ExtractRepo(urlPath, svc.sourceUrl)
          case Failure(p) =>
            ExplainsFailed(RepoExtractor(urlPath), site, Sourced(sites), acc, p);
          case Success(repo) =>
            var acc' := acc + [ExpectedRecord(RepoExtractor(urlPath), site)];
            assert Accept(v, acc, visits[0]) == Success(acc');
            RunServiceVisitor(urlPath, acc', rest);
            ExplainsFound(RepoExtractor(urlPath), site, Sourced(sites), acc, Run(v, acc', rest));
        }
    }
  }

  /** `parseManifest` yields one record per service with a source URL, in
      manifest order, carrying that service's repository, the name
      `<app>-<service>`, and its environment's name and pipeline pairs; it
      fails exactly when some such service's repository cannot be extracted,
      and then with the first such service's failure. */
  lemma ParseManifestSpec(urlPath: UrlPath, m: Manifest)
    ensures ParseManifest(urlPath, m).Success? <==> AllFound(RepoExtractor(urlPath), Sourced(Sites(m)))
    ensures ParseManifest(urlPath, m).Success? ==>
      && |ParseManifest(urlPath, m).value| == |Sourced(Sites(m))|
      && forall i :: 0 <= i < |Sourced(Sites(m))| ==>
           ParseManifest(urlPath, m).value[i] == ExpectedRecord(RepoExtractor(urlPath), Sourced(Sites(m))[i])
    ensures ParseManifest(urlPath, m).Failure? ==>
      exists k :: FirstFailureAt(RepoExtractor(urlPath), Sourced(Sites(m)), k, ParseManifest(urlPath, m).error)
  {
    RunServiceVisitor(urlPath, [], Visits(m));
    WalkVisitsSitesInOrder(m);
    var r := ParseManifest(urlPath, m);
    if r.Success? {
      var es := Sourced(Sites(m));
      assert [] + ExpectedRecords(RepoExtractor(urlPath), es) == ExpectedRecords(RepoExtractor(urlPath), es);
      ExpectedRecordsIndex(RepoExtractor(urlPath), es);
    }
  }

  // ---------------------------------------------------------------------------
  // Counting services with a source URL, level by level

  function ServicesSourcedCount(svcs: seq<Service>): nat
    decreases |svcs|
  {
    if svcs == [] then 0 else (if svcs[0].sourceUrl != "" then 1 else 0) + ServicesSourcedCount(svcs[1..])
  }

  function ApplicationsSourcedCount(apps: seq<Application>): nat
    decreases |apps|
  {
    if apps == [] then 0 else ServicesSourcedCount(apps[0].services) + ApplicationsSourcedCount(apps[1..])
  }

  function EnvironmentsSourcedCount(envs: seq<Environment>): nat
    decreases |envs|
  {
    if envs == [] then 0 else ApplicationsSourcedCount(envs[0].apps) + EnvironmentsSourcedCount(envs[1..])
  }

  /** Services with a non-empty source URL, over all environments and applications. */
  function SourcedCount(m: Manifest): nat {
    EnvironmentsSourcedCount(m.environments)
  }

  lemma {:induction false} ServicesSourced(env: Environment, app: Application, svcs: seq<Service>)
    ensures |Sourced(ServiceSites(env, app, svcs))| == ServicesSourcedCount(svcs)
    decreases |svcs|
  {
    var sites := ServiceSites(env, app, svcs);
    if svcs != [] {
      assert sites[1..] == ServiceSites(env, app, svcs[1..]);
      ServicesSourced(env, app, svcs[1..]);
    }
  }

  lemma {:induction false} ApplicationsSourced(env: Environment, apps: seq<Application>)
    ensures |Sourced(ApplicationsSites(env, apps))| == ApplicationsSourcedCount(apps)
    decreases |apps|
  {
    if apps != [] {
      SourcedAppend(ServiceSites(env, apps[0], apps[0].services), ApplicationsSites(env, apps[1..]));
      ServicesSourced(env, apps[0], apps[0].services);
      ApplicationsSourced(env, apps[1..]);
    }
  }

  lemma {:induction false} EnvironmentsSourced(envs: seq<Environment>)
    ensures |Sourced(EnvironmentsSites(envs))| == EnvironmentsSourcedCount(envs)
    decreases |envs|
  {
    if envs != [] {
      SourcedAppend(ApplicationsSites(envs[0], envs[0].apps), EnvironmentsSites(envs[1..]));
      ApplicationsSourced(envs[0], envs[0].apps);
      EnvironmentsSourced(envs[1..]);
    }
  }

  /** The number of records is the number of services with a source URL. */
  lemma RecordCount(urlPath: UrlPath, m: Manifest)
    requires ParseManifest(urlPath, m).Success?
    ensures |ParseManifest(urlPath, m).value| == SourcedCount(m)
  {
    ParseManifestSpec(urlPath, m);
    EnvironmentsSourced(m.environments);
  }

  // ---------------------------------------------------------------------------
  // Trigger generation

  /** A template made of verb-free text, one `%s` and a closing quote renders
      as the text, the argument and the quote. */
  lemma RenderQuoted(prefix: string, repo: string)
    requires '%' !in prefix
    ensures FormatFor(prefix + "%s'", 1)
    ensures Sprintf(prefix + "%s'", [repo]) == prefix + repo + "'"
  {
    assert prefix + "%s'" == prefix + ("%s" + "'");
    SprintfLiteral("'", "", []);
    assert "'" + "" == "'";
    SprintfVerb("'", repo, []);
    assert [repo] + [] == [repo];
    SprintfLiteral(prefix, "%s" + "'", [repo]);
  }

  /** `CiFilter` has exactly one placeholder, right before its closing quote:
      rendering it puts the repository there and changes nothing else. */
  lemma RenderCiFilter(repo: string)
    ensures FormatFor(CiFilter, 1)
    ensures Sprintf(CiFilter, [repo]) == CiFilterPrefix + repo + "'"
  {
    NoVerbInPrefix();
    RenderQuoted(CiFilterPrefix, repo);
  }

  /** `createListenerTrigger`, whose code is not available: rebuilt from the
      listener the source's test expects, assuming the filter is rendered with
      `fmt.Sprintf(filter, repoName)`. One binding and the template of the CI
      pair, and one CEL interceptor whose filter is `filter` with its one verb
      replaced by the repository; the CD pair is not used. */
  function CreateListenerTrigger(name: string, filter: string, repoName: string, ci: TemplateBinding, cd: TemplateBinding): (t: Trigger)
    requires FormatFor(filter, 1)
    ensures t.name == name && t.bindings == [ci.binding] && t.template == ci.template
    ensures |t.interceptors| == 1 && |t.interceptors[0].filter| + 2 == |filter| + |repoName|
    ensures filter == CiFilter ==> t.interceptors[0].filter == CiFilterPrefix + repoName + "'"
  {
    RenderCiFilter(repoName);
    Trigger(name, [ci.binding], ci.template, [CelInterceptor(Sprintf(filter, [repoName]))])
  }

  /** The trigger a record should give. */
  predicate TriggerFor(t: Trigger, rec: Record) {
    t == Trigger(rec.name, [rec.ci.binding], rec.ci.template, [CelInterceptor(CiFilterPrefix + rec.repoName + "'")])
  }

  /** `makeEventListenerTriggers`: one trigger per record, `triggers[i]` built
      from record `i`. */
  function MakeEventListenerTriggers(urlPath: UrlPath, m: Manifest): (r: Result<seq<Trigger>, Panic>)
    ensures r.Success? <==> ParseManifest(urlPath, m).Success?
    ensures r.Success? ==>
      && |r.value| == |ParseManifest(urlPath, m).value|
      && forall i :: 0 <= i < |r.value| ==> TriggerFor(r.value[i], ParseManifest(urlPath, m).value[i])
  {
    var l :- ParseManifest(urlPath, m);
    RenderCiFilter("");
    var triggers := seq(|l|, i requires 0 <= i < |l| => CreateListenerTrigger(l[i].name, CiFilter, l[i].repoName, l[i].ci, l[i].cd));
    assert forall i :: 0 <= i < |l| ==> TriggerFor(triggers[i], l[i]) by {
      forall i | 0 <= i < |l| ensures TriggerFor(triggers[i], l[i]) {
        RenderCiFilter(l[i].repoName);
      }
    }
    Success(triggers)
  }

  /** `GenerateEventListener`: the listener named `n` holding the triggers. */
  function GenerateEventListener(urlPath: UrlPath, n: string, m: Manifest): (r: Result<EventListener, Panic>)
    ensures r.Success? <==> MakeEventListenerTriggers(urlPath, m).Success?
    ensures r.Success? ==> r.value.name == n && r.value.triggers == MakeEventListenerTriggers(urlPath, m).value
  {
    var triggers :- MakeEventListenerTriggers(urlPath, m);
    Success(EventListener(ListenerKind, ListenerApiVersion, n, triggers))
  }

  /** The trigger a sourced site should give. */
  function ExpectedTrigger(repoOf: RepoOf, site: Site): Trigger
    requires RepoFound(repoOf, site)
  {
    var ci := site.env.pipelines.integration;
    Trigger(site.app.name + "-" + site.svc.name, [ci.binding], ci.template,
            [CelInterceptor(CiFilterPrefix + repoOf(site.svc.sourceUrl).value + "'")])
  }

  /** End to end: the listener has the caller's name, kind `EventListener`
      and API version `triggers.tekton.dev/v1alpha1`, and one trigger per
      service with a source URL, in manifest order, named `<app>-<service>`,
      bound to its environment's CI binding and template, filtering on its
      repository; it fails exactly when some such repository cannot be
      extracted, with the first such failure. */
  lemma GenerateEventListenerSpec(urlPath: UrlPath, n: string, m: Manifest)
    ensures GenerateEventListener(urlPath, n, m).Success? <==> AllFound(RepoExtractor(urlPath), Sourced(Sites(m)))
    ensures GenerateEventListener(urlPath, n, m).Success? ==>
      var el := GenerateEventListener(urlPath, n, m).value;
      var es := Sourced(Sites(m));
      && el.name == n && el.kind == "EventListener" && el.apiVersion == "triggers.tekton.dev/v1alpha1"
      && |el.triggers| == |es|
      && forall i :: 0 <= i < |es| ==> el.triggers[i] == ExpectedTrigger(RepoExtractor(urlPath), es[i])
    ensures GenerateEventListener(urlPath, n, m).Failure? ==>
      exists k :: FirstFailureAt(RepoExtractor(urlPath), Sourced(Sites(m)), k, GenerateEventListener(urlPath, n, m).error)
  {
    ParseManifestSpec(urlPath, m);
    var r := GenerateEventListener(urlPath, n, m);
    if r.Success? {
      var es := Sourced(Sites(m));
      var l := ParseManifest(urlPath, m).value;
      forall i | 0 <= i < |es| ensures r.value.triggers[i] == ExpectedTrigger(RepoExtractor(urlPath), es[i]) {
        assert l[i] == ExpectedRecord(RepoExtractor(urlPath), es[i]);
        assert TriggerFor(r.value.triggers[i], l[i]);
      }
    }
  }

  /** The number of triggers is the number of services with a source URL. */
  lemma TriggerCount(urlPath: UrlPath, n: string, m: Manifest)
    requires GenerateEventListener(urlPath, n, m).Success?
    ensures |GenerateEventListener(urlPath, n, m).value.triggers| == SourcedCount(m)
  {
    RecordCount(urlPath, m);
  }

  /** A site with its environment's CD pair blanked out. */
  function WithoutDeployment(site: Site): Site {
    site.(env := site.env.(pipelines := site.env.pipelines.(deployment := TemplateBinding("", ""))))
  }

  /** Two sequences of sites that agree everywhere except in the CD pairs. */
  predicate SameButDeployment(a: seq<Site>, b: seq<Site>) {
    |a| == |b| && forall i :: 0 <= i < |a| ==> WithoutDeployment(a[i]) == WithoutDeployment(b[i])
  }

  /** Only one site can be the first failure. */
  lemma FirstFailureUnique(repoOf: RepoOf, sites: seq<Site>, k1: int, p1: Panic, k2: int, p2: Panic)
    requires FirstFailureAt(repoOf, sites, k1, p1) && FirstFailureAt(repoOf, sites, k2, p2)
    ensures k1 == k2 && p1 == p2
  {
  }

  /** Blanking the CD pair keeps the source URL, so whether a repository is
      found does not depend on it. */
  lemma SameButDeploymentFound(repoOf: RepoOf, a: seq<Site>, b: seq<Site>)
    requires SameButDeployment(a, b)
    ensures forall i :: 0 <= i < |a| ==> (RepoFound(repoOf, a[i]) <==> RepoFound(repoOf, b[i]))
    ensures AllFound(repoOf, a) <==> AllFound(repoOf, b)
  {
    forall i | 0 <= i < |a| ensures a[i].svc == b[i].svc {
      assert WithoutDeployment(a[i]).svc == WithoutDeployment(b[i]).svc;
    }
  }

  lemma SameButDeploymentTriggers(repoOf: RepoOf, a: seq<Site>, b: seq<Site>)
    requires SameButDeployment(a, b) && AllFound(repoOf, a) && AllFound(repoOf, b)
    ensures forall i :: 0 <= i < |a| ==> ExpectedTrigger(repoOf, a[i]) == ExpectedTrigger(repoOf, b[i])
  {
    forall i | 0 <= i < |a| ensures ExpectedTrigger(repoOf, a[i]) == ExpectedTrigger(repoOf, b[i]) {
      var w1, w2 := WithoutDeployment(a[i]), WithoutDeployment(b[i]);
      assert w1 == w2;
      assert w1.svc == w2.svc && w1.app == w2.app && w1.env.pipelines.integration == w2.env.pipelines.integration;
    }
  }

  lemma SameButDeploymentFailure(repoOf: RepoOf, a: seq<Site>, b: seq<Site>, k: int, p: Panic)
    requires SameButDeployment(a, b) && FirstFailureAt(repoOf, a, k, p)
    ensures FirstFailureAt(repoOf, b, k, p)
  {
    SameButDeploymentFound(repoOf, a, b);
    assert WithoutDeployment(a[k]).svc == WithoutDeployment(b[k]).svc;
  }

  /** The CD pair is never consumed: manifests whose sourced services differ
      only in their environments' CD pairs give the same listener, or the
      same failure. */
  lemma DeploymentUnused(urlPath: UrlPath, n: string, m1: Manifest, m2: Manifest)
    requires SameButDeployment(Sourced(Sites(m1)), Sourced(Sites(m2)))
    ensures GenerateEventListener(urlPath, n, m1) == GenerateEventListener(urlPath, n, m2)
  {
    var repoOf := RepoExtractor(urlPath);
    var e1, e2 := Sourced(Sites(m1)), Sourced(Sites(m2));
    SameButDeploymentFound(repoOf, e1, e2);
    GenerateEventListenerSpec(urlPath, n, m1);
    GenerateEventListenerSpec(urlPath, n, m2);
    var r1, r2 := GenerateEventListener(urlPath, n, m1), GenerateEventListener(urlPath, n, m2);
    if r1.Success? {
      SameButDeploymentTriggers(repoOf, e1, e2);
      assert r1.value.triggers == r2.value.triggers;
    } else {
      var k1 :| FirstFailureAt(repoOf, e1, k1, r1.error);
      var k2 :| FirstFailureAt(repoOf, e2, k2, r2.error);
      SameButDeploymentFailure(repoOf, e1, e2, k1, r1.error);
      FirstFailureUnique(repoOf, e2, k1, r1.error, k2, r2.error);
    }
  }
}
