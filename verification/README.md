# Goexpose in Dafny

Goexpose reads a configuration tree (endpoints, http methods, nested task
configurations, authorizers), compiles it into routes, and answers each request
by running authorizers, query parameters and a task, and writing a JSON
response. This project models those parts and proves what holds of them for
every configuration, every request and every interleaving.

| file | models |
|---|---|
| `Text.dfy` | `strings.Split`, `Join`, `SplitN(.., 2)`, `TrimSpace` |
| `Formats.dfy` | formats.go: the `\|`-separated format language and the formatters |
| `Base64.dfy`, `BasicAuth.dfy` | auth.go: basic credentials (section 2 of RFC 7617) over `base64.StdEncoding` (section 4 of RFC 4648) |
| `Response.dfy` | response.go: the `Response` object |
| `QueryParameters.dfy` | config.go: `QueryParams`, validated in place |
| `Registry.dfy`, `LockedRegistry.dfy` | the three registries, and the authorizer registry under its `RWMutex` as a step system |
| `TaskItems.dfy`, `ItemRuns.dfy` | tasks.go: the tasks that work through a list of items: their configuration and what an entry holds, and their `Run` loops over `Response` objects |
| `Routing.dfy` | server.go `routes` with `InfoTaskFactory` and `MultiTaskFactory`, as functions of the configuration, the map iteration orders and the stack |
| `Termination.dfy`, `Listing.dfy` | when `routes()` ends, and what it returns |
| `Acceptance.dfy` | which configurations `routes()` accepts, in the terms of the configuration |
| `Factories.dfy` | the loops of `routes` for any factories, of which `Routing.dfy` is the case of the built-in ones |
| `TaskRun.dfy` | running compiled tasks, `MultiTask.Run` |
| `Server.dfy` | the imperative `routes`, `GetAuthorizers` and factories over shared, mutable query parameters, proved to compute the functions of `Routing.dfy` |
| `Handler.dfy` | server.go `Handle` with auth.go `Authorizers.Authorize` |
| `Serving.dfy` | the handlers that `router` makes of the routes: whose authorizers guard a route, and when its task's failure shows |
| `Json.dfy`, `Marshalling.dfy` | what `Write` sends of a response, nested raw responses included (RFC 8259) |

Conventions. A Go panic on data the model represents is a result (`Panic`,
`Panicked`, `Crash`), not a precondition; `null` list elements are not
represented (see Left out). The iteration order of a Go map is an arbitrary enumeration: in
`Routing.dfy` every activation of `routes`, named by its call path, has its own.
Calls of `routes` and of factories take one stack frame each; `depth` is the
number of frames left and `Overflow` is what a goroutine that needs more ends
in. Every statement about termination quantifies over all depths, and
`Termination.RoutesStable` shows that a run that ends does not depend on it.
What the network, databases, shells, templates, regular expressions and the JSON
decoder do is an arbitrary function or outcome.

What the code does differently from its documentation, and is modelled as coded:

- `routes()` does not always end. `InfoTaskFactory` ignores only methods whose
  type is literally `info`; an info task inside a multi task, or spelled with
  spaces, calls it again. `Termination.RoutesTerminates` gives the exact
  condition, `Loops`: the authorizers are in order; some endpoint `k` with valid
  query parameters has such a hidden info task, reached because what is compiled
  before it in its multi task builds; each earlier endpoint either has a literal
  `info` method, which ends its visit, or builds entirely; and `routes()` itself
  reaches an info task, because some endpoint has one and all before it build.
- `StripStatusData` leaves `message` in place (response.go:265-274, against the
  comment at response.go:55-63).
- The request body is kept only when reading it failed (server.go:217).
- `single_result` below -1 passes every `Validate` and makes `Run` panic, and
  `MySQLTaskFactory` validates nothing, so mysql always selects its first query
  (`Acceptance.NegativeSinglesCompile`, `ItemRuns.LoadAndRun`, `TaskRun.PanicsInWorld`, `Serving.FailuresAnswer500`).
- A route keeps the key of its method, which the router upper-cases
  (vendor/github.com/gorilla/mux/route.go:289-291), while `Authorize` and the
  query parameters look the endpoint's methods up by the verb of the request. With
  the key `get` a GET runs the task with none of the method's authorizers
  consulted, with nobody consulted if the endpoint names none, and without the
  method's query parameters (`Serving.UnknownVerbIsUnguarded`);
  `Serving.OwnNamesGuardExactly` gives the exact condition.
- A raw response marshals itself to base64 text without quotes, so one nested in
  a multi task leaves it with a status and an empty body, unless that text is
  `true`, `null` or a number (`Marshalling.SelectionIsWrittenExactly`).
- Authorizers named by an endpoint are never checked to exist
  (`Handlers.NoMissingNamesExactly`).
- `GetAuthorizers` takes its read lock twice, which a waiting writer turns into
  a deadlock: one is possible iff some thread reads a non-empty configuration while
  some other registers an authorizer (`LockedRegistry.DeadlockExactly`).
- `AddFormat` has no effect on `HasFormat` for an identifier that contains the
  delimiter (`Formats.AddFormatWorks`), and a verified format verifies again only
  if `text` is registered (`Formats.VerifyTwice`).

## Model

| member | source | states |
|---|---|---|
| Text.JoinSplit | formats.go:169-172 | splitting at a separator loses nothing and leaves no separator inside a part |
| Text.SplitJoin | formats.go:52-70 | splitting undoes joining on every non-empty list of separator-free parts |
| Text.SplitN2Meaning | auth.go:190-207 | a two-way split has two parts iff the separator occurs, and then cuts at its first occurrence |
| Text.TrimSpaceIdempotent | config.go:154-180 | trimming leaves exactly the trimmed strings alone, so trimming twice is trimming once |
| Text.TrimSpaceExactly | config.go:154-180 | what is left is the one string without spaces at its ends that gives the argument when spaces are put around it: all spaces at both ends are taken away and nothing else |
| Formats.VerifyFormat | formats.go:46-72 | the loop returns the normal form, or the first part that is neither empty nor registered |
| Formats.VerifiesExactly | formats.go:46-72 | a format is accepted iff its non-empty parts are registered, and splits into them in order with `text` at the end unless it was among them; otherwise the first unregistered part is named |
| Formats.NonEmptyMeaning | formats.go:52-55 | dropping empty parts keeps the others, each once and in order |
| Formats.VerifiedParts | formats.go:46-72 | an accepted format splits into the non-empty input parts in order, plus `text` at the end iff it was absent |
| Formats.VerifiedFixedPoint | formats.go:46-72 | a string is left alone iff its parts are non-empty and registered and `text` is one of them |
| Formats.VerifyTwice | formats.go:46-72 | verifying a verified format returns it unchanged iff `text` is registered |
| Formats.Format | formats.go:77-99 | the loop computes the first-success interpretation, with the value that a failing part leaves beside its error, and the results left by unknown parts |
| Formats.FormatExactly | formats.go:77-99 | of any format string: formatters are called up to the first that succeeds or is not registered; value and name are those of the last one called, and the error is its own, or that of the unknown name that comes next |
| Formats.FormatVerifiedNeverErrs | formats.go:77-99 | on a verified format there is no error: the result and name are those of the first listed format that succeeds, exactly the formats up to it were tried, and none after a `text` |
| Formats.BuiltinNeverErrs | formats.go:19-25 | with the registered formats every body is formatted, as the first of the listed formats that takes it or as text, and what `text`, `lines`, `json` and `jsonlines` then hold |
| Formats.TakesExactly | formats.go:135-180 | `json` succeeds iff the body decodes, `jsonlines` iff every line does, `lines` and `text` always |
| Formats.RunFormatJsonLines | formats.go:148-164 | the loop decodes the lines up to the first bad one |
| Formats.LineFormats | formats.go:148-172 | `lines` joined by newlines is the body; `jsonlines` succeeds iff every one of those lines decodes, with one object per line in order, and otherwise names the first that does not |
| Formats.AddedParts | formats.go:116-130 | adding a delimiter-free format puts it in front of the other non-empty parts, which keep their order, unless it was there |
| Formats.AddedInFront | formats.go:116-130 | the same for every identifier: one that is not there is put in front, as the parts it splits into |
| Formats.AddFormatWorks | formats.go:104-130 | an added format is found, and adding it again changes nothing, iff it is delimiter-free |
| Formats.AddFormatKeepsNormal | formats.go:116-130 | adding a format to a verified string gives a verified string iff the format is registered |
| Base64.EncodeInto | response.go:249-250 | encoding in place fills a buffer of the encoded length exactly with the encoding |
| Base64.EncodeLength | response.go:249 | the encoding of n bytes has 4 times the ceiling of n/3 digits |
| Base64.DecodeEncode | auth.go:201-204 | decoding undoes encoding for every byte string |
| Base64.DecodeExactly | auth.go:201-204 | a text decodes to given bytes iff, without line breaks and with its ignored bits cleared, it is their encoding |
| Base64.DecodeSkipsBreaks | auth.go:201-204 | a line break anywhere in the token changes nothing |
| Base64.DecodeIgnoresStrayBits | auth.go:201-204 | nor do the low bits of the digit before the padding |
| Base64.Alphabet | response.go:249-250 | the 64 digits are those of table 1 of RFC 4648, and `=` pads |
| Base64.EncodesBits | response.go:249-250 | three bytes are written as their 24 bits in four digits; a shorter last group with zero bits and padding |
| BasicAuth.ParsesExactly | auth.go:187-215 | a header parses to a pair iff its token decodes to `username:password` and the user name is colon-free |
| BasicAuth.HeaderRoundTrip | auth.go:187-215 | the header built from a pair is parsed back to that pair iff the user name is colon-free |
| BasicAuth.AcceptsExactly | auth.go:220-232 | which headers the authorizer accepts, exactly |
| BasicAuth.StandardExample | auth.go:187-232 | the header `Basic QWxhZGRpbjpvcGVuIHNlc2FtZQ==` of RFC 7617 is `Aladdin` with `open sesame`, and is accepted iff they are configured |
| BasicAuth.ColonLocksOut | auth.go:220-232 | no header is accepted iff the configured user name has a colon |
| Responses.Response.constructor | response.go:80-86 | a new response has its status, the status data and nothing else |
| Responses.Response.Status | response.go:105-108 | the whole new state: status, `status` and `message` |
| Responses.Response.AddValue | response.go:181-184 | the whole new state |
| Responses.Response.DelValue | response.go:189-192 | the whole new state |
| Responses.Response.Raw | response.go:140-167 | the whole new state, for each kind of argument |
| Responses.Response.StripStatusData | response.go:265-274 | only `status` is removed, whether or not the message matches |
| Responses.Response.UpdateStatusData | response.go:279-281 | the status data is that of the current status |
| Responses.Response.MarshalRaw | response.go:247-252 | the allocated buffer is filled exactly with the base64 text of the raw bytes, which decodes back to them |
| Responses.StatusIsLastSet | response.go:105-115 | after any operations the status is the last one set |
| Responses.UntouchedKeys | response.go:181-192 | in any run, a key no operation touches keeps its value |
| Responses.LastTouchDecides | response.go:105-192 | in any run, what a key holds is what the last operation that touches it leaves |
| Responses.RawIsLastSet | response.go:118-167 | in any run, the raw bytes are the last ones given that could be marshalled, and the form the last one asked for |
| Responses.InitialHolds | response.go:80-86 | a new response has its status and the status data, and nothing else |
| Responses.AgreementRestored | response.go:279-281 | after any run, `UpdateStatusData` makes `status` and `message` agree with the status, changes no other key, and later operations on other keys keep the agreement |
| Responses.UpdateUndoesStrip | response.go:265-281 | `UpdateStatusData` undoes `StripStatusData` iff the response agreed with its status; `message` survives stripping |
| QueryParameters.Param.Settle | config.go:224-238 | one parameter is trimmed and compiled, or left as it was up to trimmed spaces with the reason |
| QueryParameters.QueryParams.Validate | config.go:219-242 | the first error in order, or all parameters validated; no attempt changes a validated parameter |
| QueryParameters.ValidatesExactly | config.go:219-242 | validation succeeds iff every parameter has a name and an expression that is blank or compiles; otherwise the first that has not is reported, a missing name before a bad expression |
| QueryParameters.SettledIsStable | config.go:219-242 | validating a validated parameter changes nothing and cannot newly fail |
| QueryParameters.FirstErrorAlike | config.go:219-242 | the outcome of validation depends on the parameters only up to the spaces it trims |
| QueryParameters.GetParams | config.go:247-278 | the loop computes the fold over the parameters in which later ones override, also on an absent receiver |
| QueryParameters.LastYieldWins | config.go:254-276 | for every name the last parameter that yields a value decides, and a name is absent iff none does |
| QueryParameters.ValidatedValues | config.go:219-278 | through freshly loaded, validated parameters a name has a value iff some declaration of it has a default or accepts the trimmed query value; the value is that of the last such declaration: the accepted query value, or else the default |
| Registries.Registry.Register | registry.go:16-27 | the answer and the whole new map: a second registration panics and changes nothing |
| Registries.Registry.Lookup | registry.go:32-38 | the binding or its absence |
| Registries.AnsweredByFirst | registry.go:16-38 | in every run, each call is answered by the first earlier registration of its identifier |
| LockedRegistry.NextInv | auth.go:53-117 | every step keeps the invariant of mutex, map and threads |
| LockedRegistry.MutualExclusion | auth.go:53-60 | in every interleaving a writer inside the lock excludes every reader and every other writer |
| LockedRegistry.FirstRegistrationWins | auth.go:53-70 | in every interleaving a binding never changes and is that of the only registration of its identifier that did not panic |
| LockedRegistry.NothingVanishes | auth.go:83-96 | the second existence check in `GetAuthorizers` cannot fail |
| LockedRegistry.AnswersAreTrue | auth.go:65-99 | in every interleaving an identifier reported as there is bound, one reported as missing was not bound at a moment of that call at which it was looked up, success means that all types are bound, and a factory failure is that of a factory that was found |
| LockedRegistry.AnswersAreExact | auth.go:65-99 | for calls that start after the registrations: a lookup answers exactly whether the identifier is bound, and `GetAuthorizers` reports an unknown type only if there is one, and none if all are bound |
| LockedRegistry.FactoriesDecide | auth.go:90-93 | a factory that was found may accept or reject, and both are steps |
| LockedRegistry.StuckExactly | auth.go:76-117 | a reachable state is stuck iff a writer waits, some `GetAuthorizers` asks for its nested read lock, and all others are done or waiting |
| LockedRegistry.DoomedForever | auth.go:76-87 | from such a meeting on, neither of the two ever moves again |
| LockedRegistry.DeadlockExactly | auth.go:53-117 | for any threads, some interleaving ends in a deadlock iff one of them reads a non-empty configuration and one registers an authorizer |
| LockedRegistry.DeadlockFrom | auth.go:76-87 | from any start, two steps of such a reader and such a writer stop every thread |
| LockedRegistry.DeadlockReachable | auth.go:76-87 | the smallest instance: one reader of a non-empty configuration and one writer |
| LockedRegistry.RunsAreBounded | auth.go:53-117 | no interleaving goes on for ever |
| LockedRegistry.InitThenServe | auth.go:34-38 | when registrations come first nothing is ever stuck and every interleaving ends with all threads finished |
| TaskItems.ItemsConfig.Validate | tasks.go:54-72 | succeeds iff there are items, all acceptable, and `single_result` is below their number; sets the index and the normalised items |
| TaskItems.ItemsConfig.Load | tasks.go:98-112 | the same for every factory but mysql's, which changes nothing (tasks.go:1047-1057) |
| TaskItems.CheckedExactly | tasks.go:81-86 | which items are acceptable, kind by kind, and that an accepted one keeps all fields but its format, in normal form, and its url, trimmed |
| TaskItems.AcceptableExactly | tasks.go:54-72 | a configuration is acceptable iff it has items, all of them are, and `single_result` is at most the last index |
| TaskItems.EntryIsErrorOrResult | tasks.go:128-187 | whichever step fails, an entry has exactly one of an error and a result, and a status iff it is an answered http request |
| TaskItems.EntryStopsAtFirstFailure | tasks.go:507-585 | the error of an entry is that of the first step that failed, where every template and every row is a step of its own |
| TaskItems.PostgresHolds | tasks.go:512-585 | the result is all rows in order, iff no step failed; the query and all arguments are reported iff asked for and interpolated; the driver's code iff the database failed with one |
| TaskItems.RedisHolds | tasks.go:750-789 | the same for redis, whose result is the converted reply |
| TaskItems.CassandraHolds | tasks.go:908-971 | the same for cassandra, where the query is reported once connected and the arguments once interpolated |
| TaskItems.MySqlHolds | tasks.go:1084-1151 | the same for mysql, where the query is reported before the database is opened and a bad row has no code |
| TaskItems.ShellHolds | tasks.go:134-187 | the command is reported iff asked for; the result and its format are those of formatting the trimmed output |
| TaskItems.HttpHolds | tasks.go:353-432 | an answered request has its own status and message, its headers iff asked for, and the formatted body |
| TaskItems.SelectHolds | tasks.go:189-194 | a selection answers with the status data and all results in order or the one at the index, and panics iff there is none there |
| TaskItems.NoFormatFailure | tasks.go:171-183 | a command or request that succeeded never fails in formatting: it has a result under a listed format |
| TaskItems.GatherMeaning | tasks.go:532-541 | an inner loop, over argument or host templates or over rows, gives all values in order, or the error of the first that fails |
| ItemRuns.RunItem | tasks.go:512-585 | one round of each of the six loops, on a new object, leaves what the first failing step leaves, and changes no other object |
| ItemRuns.RunItems | tasks.go:128-197 | one entry per configured item in order, each a new object of its own, determined by its item and outcome alone, then the selection |
| ItemRuns.RunRedis | tasks.go:725-799 | the same once connected; otherwise only the error |
| ItemRuns.LoadAndRun | tasks.go:98-197 | a loaded task panics iff `single_result` is below -1; mysql panics iff it has no queries and else selects the first |
| Termination.CompileScanned | tasks.go:1183-1219 | compiling a task that calls no `InfoTaskFactory` ends within its height, with a result that depends on the task alone |
| Termination.RoutesTerminates | server.go:126-190 | `routes()` has a visiting order that exhausts every stack iff a condition on the configuration holds, and otherwise ends in every order within a fixed number of frames |
| Termination.InfoRoutesTerminates | tasks.go:202-208 | the same for `routes("info")` |
| Termination.LoneHiddenTaskOverflows | server.go:126-190 | with one endpoint and one method hiding an info task, every run exhausts every stack |
| Termination.MultiOfInfoIsHidden | tasks.go:1166-1219 | a valid multi task whose first embedded task is an info task is such a method |
| Termination.PlainConfigsEnd | server.go:147-154 | without embedded info tasks, and with `info` always spelled literally, nothing loops |
| Termination.RoutesStable | server.go:126-190 | a run that ends is the same with more stack |
| Listing.CompileShaped | tasks.go:1166-1219 | a compiled task is one tasker, and every multi node has exactly one tasker per embedded configuration in order and an index below their number |
| Acceptance.AcceptsExactly | server.go:126-190 | what passes `routes()` has no mistake in authorizers, query parameters and tasks at any depth; what has none is never refused; where nothing loops the two are the same, in every visiting order |
| Acceptance.UnauthorizedIsRefused | auth.go:76-117 | `routes()` reports bad authorizers iff one has an unknown type or does not build, or a method names one that is not configured |
| Acceptance.RefusalNamesTheMistake | server.go:156-169 | a task is refused for a blank type, for its query parameters, for a type without a factory, or by its factory, in this order |
| Acceptance.NegativeSinglesCompile | tasks.go:1238-1252 | a multi task that compiles also does so with any `single_result` below -1, and then panics at every request |
| Listing.OneRoutePerMethod | server.go:140-189 | a successful `routes()` returns exactly one route per endpoint and method, grouped in endpoint order, with the endpoint's path |
| Listing.InfoListsTheRoutes | tasks.go:202-215 | if `routes("info")` cannot loop and `routes()` succeeds, then `routes("info")` succeeds in every visiting order, lists only routes of `routes()`, none holding an info task, and all those of endpoints without an info method |
| Listing.InfoTasksListTheTable | tasks.go:202-215 | if `routes()` cannot loop, every route it returns either holds no info task at any depth or is one, and then carries a listing of that very table: a part of it, without info tasks, complete on endpoints without an info method |
| Factories.TableMeaning | server.go:140-189 | for any factories and tasker paths: success iff everything visited validates and builds, and then exactly the taskers of each visited method behind it in order, each path the endpoint's followed by the tasker's, as many routes as taskers |
| Factories.TableFailsFirst | server.go:138-169 | a run that does not succeed ends with the authorizers' error, or as the first endpoint in order and its first visited method that do not validate and build |
| Factories.RoutesIsTable | interfaces.go:30-32 | `Routing.Routes` is the case of the built-in factories, whose taskers have an empty path |
| TaskRun.RunMulti | tasks.go:1257-1275 | the loop runs the tasks in order and selects; a panicking task ends it |
| TaskRun.OneResponseEach | tasks.go:1263-1266 | one response per task in order, unless one panics |
| TaskRun.MultiAnswers | tasks.go:1257-1275 | a multi task that answers has run all its tasks; its result is the response of the one `single_result` names, or all of them, each at the place of its configuration |
| TaskRun.ListAnswers | tasks.go:189-194 | the same of a task that works through items; mysql always gives the first |
| TaskRun.PanicsInWorld | tasks.go:1227-1275 | whatever the outside world does, a compiled task panics iff some part of it crashes by itself, or a part that gets to select has a `single_result` below -1 or is a mysql task without queries |
| TaskRun.SafeTasksNeverPanic | tasks.go:1227-1275 | without such a part, at any depth, it never panics where no task crashes by itself, whether or not redis connects |
| TaskRun.PanicsExactly | tasks.go:1227-1275 | where all entries are produced it panics iff its configuration holds such a part |
| TaskRun.CompiledTaskPanicsExactly | tasks.go:1166-1275 | all three from compilation to request |
| TaskRun.LeafRunsItems | tasks.go:128-197 | the run of a compiled list task is the item loop over its configuration |
| Servers.Server.GetAuthorizers | auth.go:76-117 | succeeds, in whatever orders it visits its maps, iff every authorizer builds and every one named by a method is configured |
| Servers.Server.AbstractStable | config.go:145-163 | validating query parameters, wholly or partly, does not change the configuration routes are made from |
| Servers.Server.BuildLeaf | tasks.go:451-464 | loading a list of items, or a file system task, computes `Routing.Factory` |
| Servers.Server.BuildMulti | tasks.go:1166-1219 | the loop over embedded configurations computes `Routing.Factory` |
| Servers.Server.BuildInfo | tasks.go:202-215 | the nested `routes("info")` on the shared configuration computes `Routing.Factory` |
| Servers.Server.CompileMethod | server.go:147-169 | validating a copy of a method's configuration and calling its factory computes `Routing.Compile` and validates the shared query parameters |
| Servers.Server.MethodRoutes | server.go:147-186 | the loop over the methods, ended by an ignored one, computes `Routing.AtMethods` |
| Servers.Server.Routes | server.go:126-190 | the loops with in-place validation and recursion compute `Routing.Routes`; a success that ignored nothing leaves every query parameter validated, those of methods included |
| Handlers.Authorize | auth.go:127-143 | the endpoint's names and then the method's are consulted in order up to the first that does not accept, whose error is returned; a name without an authorizer panics |
| Handlers.GetQueryParams | server.go:275-287 | the endpoint's parameters if it has any, else the method's |
| Handlers.Serve | server.go:199-261 | the trace of a request up to a panic |
| Handlers.Handle | server.go:195-262 | the exact trace of every run, panicking ones included |
| Handlers.TraceMeaning | server.go:199-262 | the task runs only after every name checked for the verb of the request was consulted and accepted, in order; a rejection is followed by nothing but a bare 401; exactly one response is written, at the end |
| Handlers.ConsultedInOrder | auth.go:127-135 | the endpoint's names are consulted in order and then those of the method of the verb, and the task runs after all of them |
| Handlers.TaskSees | server.go:208-236 | the task sees the query through the endpoint's parameters if it has any and else through the method's, no body unless reading it failed, and the environment of the moment or of the start |
| Handlers.TaskIsAnswered | server.go:238-259 | the task's response is written unchanged but for `params`, which is added iff a level asks for it; a panic gives a 500 with the status data and the error alone |
| Handlers.StoppedIsAnswered | server.go:199-212 | a rejection ends in a 401 with the status data alone, a crashing or missing authorizer in a 500 with the error |
| Handlers.OnlyEndpointNamesCanBeMissing | auth.go:104-114 | whatever the authorizers answer, a request that stops at a name without an authorizer, and so panics, stops at one listed by its endpoint; when all accept, it passes iff the endpoint names only configured ones |
| Handlers.NoMissingNamesExactly | auth.go:104-143 | no answers lead to such a name iff all names listed by the endpoint are configured |
| Handlers.QueriesAreLegitimate | server.go:275-287 | after a successful `routes()` on freshly loaded parameters, a task sees a value for a name iff some declaration, of the endpoint if it has parameters and else of the method, has a default or accepts the query value; and it is the accepted query value of the last such declaration, or else its default |
| Serving.FailuresAnswer500 | server.go:195-262 | the handler of a route that `routes()` made answers an authorized request with its 500 where the configuration of the route's task fails in the world, and with the task's response where it does not; where all entries are produced, the unsafe configurations are exactly those |
| Serving.MethodNamesCheckedExactly | auth.go:127-135 | whatever is configured and answered, a request with a verb that passes has had all authorizers of a method consulted and accepted iff the list checked for that verb names them all |
| Serving.OwnNamesGuardExactly | auth.go:127-143 | for the handler of a route of `routes()`, whatever the authorizers answer: the task runs only after every authorizer named by the route's own method was consulted and accepted iff the list checked for the request's verb names them all, or the endpoint lists a name that is not configured and so nothing passes; a verb equal to the key is always guarded |
| Serving.UnknownVerbIsUnguarded | auth.go:132-134 | with a verb that is no key, only the endpoint's names are consulted: nobody if there are none, and the task runs; the method's query parameters are neither read nor returned (server.go:253, server.go:282) |
| Json.RawTextIsJsonExactly | response.go:247-252 | the base64 text of raw bytes is a JSON text iff it is `true`, `null` or an unpadded number literal |
| Marshalling.SelectionIsWrittenExactly | response.go:204-222 | the response of a selection is written whole iff every selected result marshals, a raw one iff its base64 text is JSON; otherwise its status goes out with an empty body |
| Marshalling.WrittenExactly | response.go:204-222 | a response without raw bytes is written whole iff nothing in it, at any depth, is a value that does not marshal or a raw response whose base64 text is not JSON; otherwise its body is empty |
| Marshalling.RawIsSent | response.go:140-167 | raw bytes, once given, are what is sent after any further operations, until others are given |
| Marshalling.RawInMultiIsLost | tasks.go:1257-1275 | a raw response that is sent as it is on its own empties the body of the multi task that selects it, unless its base64 text is JSON |

## Left out

- Formats.FormatVerifiedNeverErrs: the HTTP task computes a format that may add `json` (tasks.go:416-423) and then formats with the configured one, so the added format is not followed further.
- LockedRegistry.StuckExactly: a reader blocked by a writer asks again when the writer leaves, where `sync.RWMutex` hands the lock over; the model allows every order of the blocked threads.
- QueryParameters.QueryParams.Validate: parameters of one list are distinct objects, as decoding a configuration file makes them; a `null` in the list, which panics, is not modelled.
- `null` elements of `endpoints`, `authorizers`, `tasks`, `commands`, `urls` and the postgres and mysql `queries`: the source dereferences them and panics, while compiling or at the first request; the types of the model have no such elements.
- TaskConfig pointers of routes: all routes of an endpoint share one loop variable (server.go:179), so routes are described by endpoint, path, method and task only.
- Inheritance of an endpoint's type: it is written into copies (config.go:156-160) and has no effect.
- `InfoTask.Run` and `FilesystemTask.Run`: opaque responses; the index of a mysql task run through its own loop is covered by `ItemRuns.LoadAndRun`.
- LDAP and HTTP authorizers, template interpolation, JSON and YAML decoding, regular expressions: arbitrary outcomes or functions.
- The rendering of values by `json.Marshal` and of the pretty form, headers and logging in `Write`, timing, TLS, gorilla/mux matching, `RouteName`, `GetEnv`, `MethodAllowed`, `http.go`, start-up code: library behaviour or easy members nothing here rests on.
