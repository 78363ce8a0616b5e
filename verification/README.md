# Event-listener derivation from a manifest

This project models how manifestor derives a Tekton `EventListener` from a
deployment manifest (`pkg/eventlistener/eventlistener.go`), and proves
properties of that derivation.

A manifest holds environments. Each environment holds applications, and each
application holds services. Walking the manifest, every service with a
non-empty source URL gives one *record*:

- the repository `owner/repo`, taken from the URL's path;
- the trigger name `<application>-<service>`;
- the environment's name;
- the environment's CI pair (integration template and binding);
- the environment's CD pair (deployment template and binding).

Every record then becomes one trigger. A trigger has the record's name, the CI
binding and the CI template. It also has one CEL interceptor: the fixed filter
`ciFilter`, with the repository substituted for its single `%s`. The listener
is the caller's name, kind `EventListener`, API version
`triggers.tekton.dev/v1alpha1`, and the triggers.

Modules, one per file:

- `Results` (`results.dfy`): `Option` and `Result`.
- `Strings` (`strings.dfy`): Go's `strings.Split` and `strings.Join` for a
  one-character separator.
- `Fmt` (`fmt.dfy`): Go's `fmt.Sprintf` for formats whose only verb is `%s`.
- `Layout` (`layout.dfy`): the manifest types and the visitor walk over them.
  The walk is a fail-fast fold over the sequence of callback visits.
- `CiFilterText` (`cifilter.dfy`): the filter template, verbatim.
- `EventListeners` (`eventlistener.dfy`): repository extraction, the service
  visitor, `parseManifest`, trigger generation, and `GenerateEventListener`.
  It also holds a description of the output that is independent of the walk:
  - `Sourced(Sites(m))` is the manifest's services that have a source URL, in
    order.
  - `ExpectedRecord` and `ExpectedTrigger` are what each of those services
    should give.
  - `FirstFailureAt` is the first of those services whose repository cannot be
    extracted.
- `Scenarios` (`scenarios.dfy`): the source's two tests, stated as lemmas.

URL parsing is not modelled. Every operation takes a parameter
`urlPath: string -> Option<string>` standing for `url.Parse(u).Path`, with
`None` for a URL that does not parse. Go panics become `Failure(Panic)`
results. They abort the walk the way a callback error would. There are two:
- `MalformedUrl`: the URL does not parse.
- `IndexOutOfRange`: the path has fewer than three `/`-pieces, so `parts[1]`
  or `parts[2]` is out of range.

The repository is pieces 1 and 2 of `strings.Split(path, "/")`, empty pieces
included, so `//owner/repo` gives `/owner`, not `owner/repo`
(`EventListeners.EmptyPieceKept`).

The filter is kept verbatim, including its precedence: `&&` binds tighter
than `||`, so it reads "(pull request and opened) or synchronize", and then
requires the repository.

## Model

| member | source | states |
|---|---|---|
| Strings.Split | pkg/eventlistener/eventlistener.go:49 | `Split` (the `strings.Split` of `extractRepo`) on one character gives one more piece than there are separators, and no piece contains the separator |
| Strings.JoinSplit | pkg/eventlistener/eventlistener.go:49 | joining the pieces of a split with the separator gives back the original path |
| Strings.SplitJoin | pkg/eventlistener/eventlistener.go:49 | splitting a join of separator-free pieces gives back those pieces, so split and join are inverse |
| Fmt.Sprintf | pkg/eventlistener/eventlistener.go:50 | with one argument per `%s`, the output is the format with each two-character verb replaced by its argument (length accounting) |
| Fmt.SprintfLiteral | pkg/eventlistener/eventlistener.go:13 | format text before the first verb is copied to the output unchanged |
| Fmt.SprintfVerb | pkg/eventlistener/eventlistener.go:50 | a leading `%s` is replaced by the first argument, and the rest of the format consumes the rest |
| Fmt.SprintfPair | pkg/eventlistener/eventlistener.go:57 | `%s<c>%s` renders as the two arguments joined by `c` |
| Layout.RunAppend | pkg/eventlistener/eventlistener.go:79 | walking two stretches of visits in turn is walking their concatenation; a failure in the first skips the second (fail-fast) |
| Layout.WalkVisitsSitesInOrder | pkg/eventlistener/eventlistener.go:79 | `Walk` (layout.dfy, the model of `Manifest.Walk`) calls the service callback exactly once per service, environment-major, then application, then service, in manifest order |
| CiFilterText.NoVerbInPrefix | pkg/eventlistener/eventlistener.go:13 | the filter template has no `%` before its placeholder, so `%s` is its only verb |
| EventListeners.PairFormats | pkg/eventlistener/eventlistener.go:50-57 | the `"%s/%s"` and `"%s-%s"` formats join their two arguments with `/` and `-` |
| EventListeners.RepoFromPath | pkg/eventlistener/eventlistener.go:49-50 | `RepoFromPath`, the path half of `extractRepo`, fails exactly when the path has fewer than two `/`, with index and length both equal to the number of pieces (the gc compiler bounds-checks the arguments left to right, so `parts[1]` fails first); a found repository has exactly one `/` |
| EventListeners.RepoFromPathSegments | pkg/eventlistener/eventlistener.go:44-51 | a path `first/owner/repo` followed by nothing or by more `/`-pieces gives `owner/repo`; extra pieces are ignored and no suffix such as `.git` is stripped |
| EventListeners.RepoFromPathShape | pkg/eventlistener/eventlistener.go:49-50 | conversely, every found repository is `owner/repo` for a path of exactly that shape |
| EventListeners.EmptyPieceKept | pkg/eventlistener/eventlistener.go:49-50 | empty pieces count: `//owner/repo` gives `/owner` |
| EventListeners.ExtractRepoOwnerRepo | pkg/eventlistener/eventlistener.go:44-51 | `ExtractRepo` (eventlistener.dfy, the model of `extractRepo`: parse the URL, then `RepoFromPath`) gives `owner/repo` for a URL whose path is `/owner/repo`, whatever the host |
| EventListeners.VisitService | pkg/eventlistener/eventlistener.go:53-59 | a service without a source URL adds nothing; any other adds exactly one record (extracted repository, `<app>-<service>`, environment name, both pipeline pairs unchanged) or aborts with the extraction's failure |
| EventListeners.ServiceVisitor | pkg/eventlistener/eventlistener.go:61-67 | the environment and application callbacks leave the records unchanged and never fail |
| EventListeners.Sourced | pkg/eventlistener/eventlistener.go:54-56 | the services kept are exactly those with a non-empty source URL |
| EventListeners.SourcedAppend | pkg/eventlistener/eventlistener.go:54-57 | keeping sourced services distributes over concatenation, so relative order is preserved |
| EventListeners.RunServiceVisitor | pkg/eventlistener/eventlistener.go:53-81 | running the visitor over any stretch of visits appends exactly the expected records of that stretch's sourced services, in order, or fails with the first failing one's panic |
| EventListeners.ParseManifestSpec | pkg/eventlistener/eventlistener.go:77-81 | `ParseManifest` (the model of `parseManifest`: `Walk` with a fresh `ServiceVisitor`) succeeds exactly when every sourced service's repository is found; record `i` is then the expected record of the `i`-th sourced service; otherwise it fails with the first failing service's panic |
| EventListeners.RecordCount | pkg/eventlistener/eventlistener.go:77-81 | the number of records is the number of services with a non-empty source URL, over all environments and applications |
| EventListeners.RenderQuoted | pkg/eventlistener/eventlistener.go:34 | a template of `%`-free text, one `%s` and a closing `'` is a valid one-argument format, and renders as the text, the repository and the `'` |
| EventListeners.RenderCiFilter | pkg/eventlistener/eventlistener.go:13 | rendering `ciFilter` with a repository gives the fixed prefix, the repository and a closing `'`, and nothing else changes |
| EventListeners.CreateListenerTrigger | pkg/eventlistener/eventlistener.go:34 | the trigger has the record's name, one binding (the CI binding), the CI template, and one CEL interceptor whose filter is the template with its one `%s` replaced by the repository (for `ciFilter`: prefix, repository, `'`); the CD pair is unused |
| EventListeners.MakeEventListenerTriggers | pkg/eventlistener/eventlistener.go:30-37 | one trigger per record, same length; trigger `i` has record `i`'s name, its CI binding as sole binding, its CI template, and one CEL interceptor filtering on its repository |
| EventListeners.GenerateEventListener | pkg/eventlistener/eventlistener.go:15-28 | the listener is named `n` and holds exactly the generated triggers; it fails exactly when trigger generation fails |
| EventListeners.GenerateEventListenerSpec | pkg/eventlistener/eventlistener.go:15-37 | end to end: name `n`, kind `EventListener`, API version `triggers.tekton.dev/v1alpha1`, and trigger `i` is the expected trigger of the `i`-th sourced service; otherwise the first extraction failure |
| EventListeners.TriggerCount | pkg/eventlistener/eventlistener.go:30-37 | the number of triggers is the number of services with a non-empty source URL |
| EventListeners.DeploymentUnused | pkg/eventlistener/eventlistener.go:34 | the CD pair is never used: manifests whose sourced services differ only in their CD pairs give the same listener or the same failure |
| Scenarios.SingleServiceListener | pkg/eventlistener/eventlistener_test.go:13-40 | a manifest with one environment, one application and one sourced service gives exactly one record and one trigger, spelled out field by field |
| Scenarios.TestingRepo | pkg/eventlistener/eventlistener_test.go:33 | the URL `https://github.com/testing/testing` names the repository `testing/testing` |
| Scenarios.ExtractServicesScenario | pkg/eventlistener/eventlistener_test.go:42-61 | the example manifest gives the single record `testing/testing`, `my-app-1-app-1-service-http`, `development`, with the dev CI and CD pairs |
| Scenarios.GenerateEventListenerScenario | pkg/eventlistener/eventlistener_test.go:63-100 | the example manifest gives listener `my-test` with one trigger: binding `dev-ci-binding`, template `dev-ci-template`, and the filter text the test spells out for `testing/testing` |

## Left out

- `url.Parse` is Go library code and is not part of this model. It is the parameter `urlPath`; how a URL maps to its path (host, escaping, query) is up to that parameter.
- A `panic` ends the process in the source. Here it is a `Failure` that aborts the walk; process termination is not modelled.
- `parseManifest`'s Go error result is always nil, and `makeEventListenerTriggers` discards it. It has no counterpart: the only failure in the model is the panic.
- Nil pointers (a nil manifest, environment, pipelines or service) are not modelled.
- The `layout` package (`Manifest.Walk` and the manifest types) is not part of this model. It is re-modelled in `Layout`, and the visiting order is an assumption: each environment, then each of its applications, each followed by its services, in manifest order.
- `createListenerTrigger`'s code is not available. It is rebuilt as `EventListeners.CreateListenerTrigger` from the expected listener in `eventlistener_test.go` (lines 74-91), assuming the filter is rendered with `fmt.Sprintf(filter, repoName)` for every repository; the CD argument is ignored.
- Tekton's and Kubernetes' object shapes are reduced to small records (`Trigger`, `Interceptor`, `EventListener`).
- The `service` struct declares `CI` and `CD` as strings, but the code stores the environment's template/binding pairs there, and the test expects pairs. They are modelled as pairs.
- The test calls `extractServices`, which `eventlistener.go` does not define. `Scenarios.ExtractServicesScenario` states that expectation for `parseManifest`.
- Fmt.Sprintf: covers only formats whose every verb is `%s`, which are the only formats the source uses; other verbs and argument-count mismatches are not modelled.
- Go strings are byte sequences and a Dafny `string` is a sequence of characters; this makes no difference here, because splitting on the ASCII `/` and concatenating give the same result before and after UTF-8 encoding.
- Strings.Split: covers only a one-character separator, which is the only separator the source uses.
- Scenarios.TestingRepo: assumes the URL parses to the path `/testing/testing`, because URL parsing is a parameter.
