# Request routing of a small JAX-RS runtime, in Dafny

This project models the routing core of the `com.rest` JAX-RS runtime. That core has three parts:

- **Path templates** (`PathTemplate`). A `@Path` value such as `/users/{id:[0-9]+}` compiles to a
  regular expression `(T)(/.*)?`. Matching a path gives the matched prefix, the remainder,
  the path parameters and a specificity rank (`compareTo`).
- **Routing** (`ResourceRouter`). Root resource classes are matched best-first. Each matched
  resource looks for a resource method of its own on the remainder. When it has none, it
  descends through the best-ranked sub-resource locator. HEAD falls back to GET. OPTIONS
  answers 204 with the allowed verbs. `dispatch` turns the outcome into 404, 204, a
  passed-through response or a 200 entity.
- **Parameter binding** (`MethodInvoker`). Each declared parameter is bound from the
  `@PathParam` or `@QueryParam` providers and converted to its type. Both providers read the
  request's `UriInfo` path-parameter map, which routing does not fill: the values captured by
  the templates are not added to it. When that yields nothing, the parameter is injected from
  the context.

Reflection is replaced by descriptors: `ClassDecl`, `MethodDecl` and `Param` list a class's
public methods, their annotations, parameters and generic return types. The environment of a
request is a `Host` value. It holds `ResourceContext.getResource`, `Method.invoke` (a
function returning a value or an exception) and the type converters. Every operation is a
total pure function over these values, and every exception the source throws is a `Failure`.

Modules (one file each):

- `Wrappers`: Option and Result.
- `TemplateSyntax`: the placeholder syntax `{name}` / `{name:pattern}`, its scanner and the
  character classes the model accepts as explicit patterns.
- `UriTemplate`: compilation, the backtracking matcher, match results and the ranking.
- `UriHandlers`: choosing the best-ranked matching template.
- `Resources`: descriptors, runtime values and failures.
- `MethodInvoker`: parameter binding and invocation.
- `ResourceRouter`: method tables, HEAD/OPTIONS, handlers, locators and dispatch.
- `Scenarios`: concrete instances of the repository's own `PathTemplateTest` cases.
- `RankingScenarios`: the `PathTemplateTest` ranking case where two templates tie on literal
  characters and the one with more variables ranks first.

Matching follows `java.util.regex` exactly on the modelled fragment.

- A default variable `([^/]+?)` is lazy.
- An explicit class `[..]+` is greedy.
- Alternatives are tried in backtracking order, and the first success wins.
- The trailing `(/.*)?` must reach the end of the path. `.` does not match line terminators.
- A literal `.` in a template is a regex wildcard, as it is in the source.

`SearchSound` and `SearchComplete` relate this operational matcher to a declarative reading
(`Fits`). A path matches exactly when it splits into literal characters and accepted values,
followed by `(/.*)?`.

Some behaviour of the code is easy to misread; the model follows the code:

- **Ranking prefers more variables.** Between two results with the same literal count, the
  one with more variables ranks first (`PathVariables.compareTo`, UriTemplate.java:85-86).
  The repository's `PathTemplateTest` agrees.
- **Conversion falls back.** A parameter whose value list does not convert falls back to
  context injection instead of failing (MethodInvoker.java:31-32, 50).
- **`@QueryParam` reads the path-parameter map.** The query provider reads
  `UriInfo.getPathParameters()`, exactly as the path provider does (MethodInvoker.java:23).
- **Locators get no arguments.** A sub-resource locator is invoked with no arguments
  (ResourceRouter.java:278). A locator that declares parameters therefore fails.
- **Nulls fail.** A locator returning null fails (`getClass` on null, ResourceRouter.java:304).
  So does a context object that `ResourceContext.getResource` returns as null
  (`Optional.of(null)`, MethodInvoker.java:43).
- **Declared calls bind through `MethodInvoker.invoke`.** As shown, `DefaultResourceMethod.call`
  (ResourceRouter.java:164-178) still carries its own, older primitive-only binding. The
  model binds the arguments of every declared call with `MethodInvoker.invoke`, the binding
  that `DefaultResourceMethodTest` exercises (String constructors, `valueOf`, context
  injection). It keeps `call`'s wrapping of the result (ResourceRouter.java:174).

`UriHandlers.match` and `UriHandlers.mapMatched` are not part of this model's source files.
Their contract is taken from their call sites:

- `match` picks, among the handlers whose template matches (and passes the filter), the one
  ranked best by `compareTo`. Among equals it picks the first registered.
- `mapMatched` applies its mapper to that one handler only. When that handler resolves
  nothing, no lower-ranked handler is tried.

## Model

| member | source | states |
|---|---|---|
| TemplateSyntax.NameRun | RESTful/src/main/java/com/rest/UriTemplate.java:42 | the greedy `[\w.-]*` run: every character in it is a name character and the one after it is not |
| TemplateSyntax.PlaceholderAt | RESTful/src/main/java/com/rest/UriTemplate.java:45-46 | a placeholder found at the start of a text is well formed (valid name, brace-free pattern) and renders back to exactly the characters it spans |
| TemplateSyntax.PlaceholderRoundTrip | RESTful/src/main/java/com/rest/UriTemplate.java:45-46 | reading a rendered well-formed placeholder gives back that placeholder and its length, whatever text follows |
| TemplateSyntax.Scan | RESTful/src/main/java/com/rest/UriTemplate.java:55-57 | the scanned pieces render back to the template text, and every placeholder among them is well formed |
| TemplateSyntax.ScanPlaceholder | RESTful/src/main/java/com/rest/UriTemplate.java:55-57 | a text starting with a placeholder scans as that placeholder followed by the scan of the rest |
| TemplateSyntax.NamesAppend | RESTful/src/main/java/com/rest/UriTemplate.java:66 | the declared names of two concatenated piece lists are the names of the first followed by those of the second |
| TemplateSyntax.ParseItems | RESTful/src/main/java/com/rest/UriTemplate.java:54-69 | parsed class items render back to the class body, every range is ascending, and the body holds no `$` or `\` (which `replaceAll` would read as a group reference or an escape) |
| TemplateSyntax.ParseClass | RESTful/src/main/java/com/rest/UriTemplate.java:54-69 | an accepted explicit pattern is a non-empty `[items]+` or `[^items]+` class that renders back to the pattern text and holds no `$` or `\`, the characters `replaceAll` interprets in a replacement |
| UriTemplate.ToTokens | RESTful/src/main/java/com/rest/UriTemplate.java:59-72 | compiled tokens print back as the scanned text, so `{n:q}` becomes a variable `n` whose class prints as `q`; they declare the scanned names in order, with one explicit pattern per explicit placeholder and one literal per remaining piece; compilation fails exactly when some piece is unsupported regex syntax, and reports the first such piece |
| UriTemplate.ToToken | RESTful/src/main/java/com/rest/UriTemplate.java:66-71 | one piece becomes a token that prints back as the piece: a placeholder becomes a variable of the same name, explicit exactly when the placeholder has a pattern; it fails exactly on unsupported syntax, reporting that piece's text |
| UriTemplate.FirstRepeat | RESTful/src/main/java/com/rest/UriTemplate.java:63-64 | the name reported is one that repeats an earlier name, and nothing is reported exactly when no name repeats |
| UriTemplate.DistinctIffNoRepeat | RESTful/src/main/java/com/rest/UriTemplate.java:63-66 | names are pairwise distinct exactly when no name occurs before its own position |
| UriTemplate.Compile | RESTful/src/main/java/com/rest/UriTemplate.java:26-27 | a template fails with a duplicate variable exactly when its placeholders repeat a name, and the name reported is a repeated one; it fails with unsupported syntax exactly when the names are distinct and some piece is outside the fragment; on success the tokens print back as the template text, the variables are the declared names, pairwise distinct, and the explicit-pattern count is the number of explicit placeholders |
| UriTemplate.Run | RESTful/src/main/java/com/rest/UriTemplate.java:49 | the longest prefix of the path in a variable's class: all its characters are accepted and the next one is not |
| UriTemplate.Search | RESTful/src/main/java/com/rest/UriTemplate.java:27 | what a successful match leaves for `(/.*)?` is a suffix of the path, empty or starting with '/' with no line terminator after it |
| UriTemplate.SearchSound | RESTful/src/main/java/com/rest/UriTemplate.java:27 | the matched prefix splits into the template's literal characters and one captured value per variable, each accepted by its pattern |
| UriTemplate.SearchComplete | RESTful/src/main/java/com/rest/UriTemplate.java:33-35 | the backtracking search misses no match: any split of the path into a fitting prefix and a `(/.*)?` suffix makes the search succeed |
| UriTemplate.FitsShape | RESTful/src/main/java/com/rest/UriTemplate.java:102-103 | a fitting split has one value per variable, each accepted by its pattern, and the literal characters make up the rest of the matched text |
| UriTemplate.ParameterMapFacts | RESTful/src/main/java/com/rest/UriTemplate.java:74-80 | the parameter map has exactly the declared names as keys, and with distinct names each name maps to its own captured value |
| UriTemplate.Match | RESTful/src/main/java/com/rest/UriTemplate.java:32-37 | a path matches exactly when the search succeeds; the matched part followed by the remainder is the whole path, and a present remainder is non-empty and starts with '/' |
| UriTemplate.MatchFacts | RESTful/src/main/java/com/rest/UriTemplate.java:98-104 | a match's literal count is the template's number of literal characters, whatever the path; it has one value per variable, accepted by its pattern, and maps every declared name to its value |
| UriTemplate.MatchIffSplit | RESTful/src/main/java/com/rest/UriTemplate.java:33-35 | a path matches if and only if it splits into a prefix fitting the template and a `(/.*)?` remainder |
| UriTemplate.Compare | RESTful/src/main/java/com/rest/UriTemplate.java:121-127 | compareTo is negative exactly when the first result has more literal characters, or as many and more variables, or as many of both and more explicit patterns; it is positive for the converse and zero for the same rank |
| UriTemplate.CompareIsTotalPreorder | RESTful/src/main/java/com/rest/UriTemplate.java:83-88 | compareTo is antisymmetric in sign, reflexive and transitive, so a best-ranked result is well defined |
| UriTemplate.MoreLiteralsRankFirst | RESTful/src/main/java/com/rest/UriTemplate.java:124-125 | of two templates matching a path, the one with more literal characters ranks first, in both argument orders |
| UriTemplate.MoreVariablesRankFirst | RESTful/src/main/java/com/rest/UriTemplate.java:84-86 | of two templates matching a path with equally many literal characters, the one declaring more variables ranks first, in both argument orders |
| UriTemplate.PlainMatch | RESTful/src/main/java/com/rest/UriTemplate.java:27 | a template of plain literals matches a path exactly when the path starts with the text and the rest is `(/.*)?`; it captures nothing and leaves the rest |
| UriTemplate.ScanBraceFree | RESTful/src/main/java/com/rest/UriTemplate.java:55-56 | text without '{' is scanned character by character, in front of whatever follows it |
| UriTemplate.TextsToTokens | RESTful/src/main/java/com/rest/UriTemplate.java:55-57 | plain literal text declares no variables and compiles to its own characters |
| UriTemplate.VariableFreeTemplate | RESTful/src/main/java/com/rest/UriTemplate.java:26-27 | a template without placeholders or regex syntax compiles to its own characters; a path matches it exactly when it is the text, optionally followed by '/' and a rest; the match is the text, the rest is the remainder, and there are no parameters |
| UriTemplate.PlainTemplateMatchesItself | RESTful/src/main/java/com/rest/UriTemplate.java:32-37 | a template of plain literals matches its own text whole, leaving no remainder |
| UriTemplate.TrailingVariable | RESTful/src/main/java/com/rest/UriTemplate.java:32-37 | plain text followed by one variable matches the text followed by any slash-free value the variable accepts: the whole path is matched, nothing remains, and the variable is bound to that value |
| Scenarios.UsersCompiles | RESTful/src/test/java/com/rest/PathTemplateTest.java:23 | "/users" compiles to its six literal characters |
| Scenarios.UsersRejectsOrders | RESTful/src/test/java/com/rest/PathTemplateTest.java:14 | "/users" does not match "/orders" |
| Scenarios.UsersRejectsLongerPrefix | RESTful/src/test/java/com/rest/PathTemplateTest.java:14 | "/users" does not match "/unit/users": matching is anchored at the start |
| Scenarios.UsersMatchesChild | RESTful/src/test/java/com/rest/PathTemplateTest.java:21-28 | "/users" matches "/users/1" with matched part "/users", remainder "/1" and no parameters |
| Scenarios.UsersIdCompiles | RESTful/src/test/java/com/rest/PathTemplateTest.java:32 | "/users/{id}" compiles to the literals "/users/" followed by a default variable id |
| Scenarios.UsersIdDigitsCompiles | RESTful/src/test/java/com/rest/PathTemplateTest.java:43 | "/users/{id:[0-9]+}" compiles to the literals "/users/" followed by a variable id of class [0-9] |
| Scenarios.UsersIdBindsValue | RESTful/src/test/java/com/rest/PathTemplateTest.java:30-38 | "/users/{id}" matches "/users/1" whole, with no remainder, binding id to "1" |
| Scenarios.UsersIdDigitsBindsValue | RESTful/src/test/java/com/rest/PathTemplateTest.java:41-46 | "/users/{id:[0-9]+}" matches "/users/1" whole, binding id to "1" |
| Scenarios.UsersIdDigitsRejectsWord | RESTful/src/test/java/com/rest/PathTemplateTest.java:14 | "/users/{id:[0-9]+}" does not match "/users/id" |
| Scenarios.ExplicitPatternRanksFirst | RESTful/src/test/java/com/rest/PathTemplateTest.java:54 | on "/users/1", "/users/{id:[0-9]+}" ranks before "/users/{id}" and not the other way round |
| Scenarios.UsersIdMatchesNumber | RESTful/src/test/java/com/rest/PathTemplateTest.java:54 | "/users/{id}" matches "/users/123456" |
| Scenarios.LiteralTemplateRanksFirst | RESTful/src/test/java/com/rest/PathTemplateTest.java:54 | on "/users/123456", the template "/users/123456" ranks before "/users/{id}" and not the other way round |
| RankingScenarios.ResourceActionCompiles | RESTful/src/test/java/com/rest/PathTemplateTest.java:54 | "/{resource}/1234567890/{action}" compiles to "/", a default variable resource, "/1234567890/" and a default variable action |
| RankingScenarios.UsersIdOrderCompiles | RESTful/src/test/java/com/rest/PathTemplateTest.java:54 | "/users/{id}/order" compiles to "/users/", a default variable id and "/order" |
| RankingScenarios.ResourceActionFits | RESTful/src/test/java/com/rest/PathTemplateTest.java:54 | "/{resource}/1234567890/{action}" fits all of "/users/1234567890/order" with resource = "users" and action = "order" |
| RankingScenarios.UsersIdOrderFits | RESTful/src/test/java/com/rest/PathTemplateTest.java:54 | "/users/{id}/order" fits all of "/users/1234567890/order" with id = "1234567890" |
| RankingScenarios.ResourceActionCounts | RESTful/src/main/java/com/rest/UriTemplate.java:52-68 | "/{resource}/1234567890/{action}" has 13 literal characters and declares two variables |
| RankingScenarios.UsersIdOrderCounts | RESTful/src/main/java/com/rest/UriTemplate.java:52-68 | "/users/{id}/order" has 13 literal characters and declares one variable |
| RankingScenarios.MoreVariablesTemplateRanksFirst | RESTful/src/test/java/com/rest/PathTemplateTest.java:54 | on "/users/1234567890/order" both templates match, and "/{resource}/1234567890/{action}" ranks before "/users/{id}/order" and not the other way round |
| Scenarios.NamesAfterPlainPrefix | RESTful/src/main/java/com/rest/UriTemplate.java:55-57 | plain text in front of a template adds no variable names |
| Scenarios.RedefinedVariableRejected | RESTful/src/test/java/com/rest/PathTemplateTest.java:48-51 | "/users/{id:[0-9]+}/{id}" is rejected as redefining id |
| Scenarios.DollarPatternsRejected | RESTful/src/main/java/com/rest/UriTemplate.java:54-69 | the explicit patterns `[a$]+` and `[$1]+`, which `replaceAll` rejects or rewrites, are not accepted as classes |
| UriHandlers.Best | RESTful/src/main/java/com/rest/ResourceRouter.java:98 | there is no choice exactly when no candidate matches; otherwise the choice ranks no worse than every candidate and strictly better than every earlier one |
| UriHandlers.FirstBestIsUnique | RESTful/src/main/java/com/rest/ResourceRouter.java:251-252 | any candidate that ranks no worse than all and strictly better than all earlier ones is the one chosen |
| UriHandlers.Choose | RESTful/src/main/java/com/rest/ResourceRouter.java:56 | the handler chosen for a path is in range, matches it with the reported result, is the first best-ranked candidate, and under the exact filter leaves no remainder; none is chosen exactly when no handler is a candidate |
| MethodInvoker.Provide | RESTful/src/main/java/com/rest/MethodInvoker.java:18-23 | a provider supplies a value list exactly when its annotation is present and the path-parameter map has its name (for `@QueryParam` too), and the list is the one that map holds under the annotation's name |
| MethodInvoker.FirstProvided | RESTful/src/main/java/com/rest/MethodInvoker.java:46-49 | the list supplied is that of the first provider that supplies one; nothing is supplied exactly when no provider supplies |
| MethodInvoker.PathBeforeQuery | RESTful/src/main/java/com/rest/MethodInvoker.java:24 | a present path parameter wins; only without one is the query provider consulted |
| MethodInvoker.Convert | RESTful/src/main/java/com/rest/MethodInvoker.java:53-57 | conversion tries the primitive table, then a String constructor, then a static valueOf, each on the first value; it yields nothing exactly when the type has none of the three |
| MethodInvoker.ConvertReadsFirstValue | RESTful/src/main/java/com/rest/MethodInvoker.java:54-56 | two value lists with the same first value convert alike |
| MethodInvoker.InjectParameter | RESTful/src/main/java/com/rest/MethodInvoker.java:46-51 | a parameter is injected from the providers exactly when some provider supplies and the supplied list converts, and the value is the conversion of the first supplied list to the parameter's type |
| MethodInvoker.InjectContext | RESTful/src/main/java/com/rest/MethodInvoker.java:40-44 | ResourceContext and UriInfo parameters receive the request's own; any other type gets the value ResourceContext.getResource returns for it, and fails exactly when that is null |
| MethodInvoker.Arguments | RESTful/src/main/java/com/rest/MethodInvoker.java:29-33 | one argument per declared parameter in order, each that parameter's binding; the call aborts exactly when some parameter fails, with the first failing parameter's error |
| MethodInvoker.Argument | RESTful/src/main/java/com/rest/MethodInvoker.java:31-32 | a parameter takes the converted value of the first provider that supplies one, when that list converts; otherwise, whatever the providers supplied, it is injected from the context |
| MethodInvoker.Invoke | RESTful/src/main/java/com/rest/MethodInvoker.java:26-38 | a successful invocation returned its result for the bound arguments on the receiver; a binding failure propagates unchanged, and otherwise a failure is the exception the method threw |
| ResourceRouter.ResourceMethodDecls | RESTful/src/main/java/com/rest/ResourceRouter.java:79-82 | the resource methods are exactly the methods carrying an HTTP-method annotation |
| ResourceRouter.LocatorDecls | RESTful/src/main/java/com/rest/ResourceRouter.java:243-244 | the locators are exactly the methods with @Path and no HTTP-method annotation |
| ResourceRouter.RegistrationPartitions | RESTful/src/main/java/com/rest/ResourceRouter.java:243-244 | no method is both a resource method and a locator, and a method is neither exactly when it has neither annotation |
| ResourceRouter.CompilePath | RESTful/src/main/java/com/rest/ResourceRouter.java:142 | a path compiles exactly when its template does, to the same template, and otherwise fails with the template's error |
| ResourceRouter.NewDefaultMethod | RESTful/src/main/java/com/rest/ResourceRouter.java:140-145 | a resource method keeps its declaration and the verb of its first HTTP-method annotation, and its template is the compiled @Path ("" without one); it fails exactly when that path does not compile, with a template failure |
| ResourceRouter.NewLocator | RESTful/src/main/java/com/rest/ResourceRouter.java:259-262 | a locator keeps its declaration and its template is its compiled @Path; it fails exactly when that path does not compile, with a template failure |
| ResourceRouter.DefaultMethods | RESTful/src/main/java/com/rest/ResourceRouter.java:140-145 | each resource method gets the template of its @Path ("" without one) and the verb of its first HTTP-method annotation, in order; registration fails exactly when some template does not compile, and then with a template failure |
| ResourceRouter.Locators | RESTful/src/main/java/com/rest/ResourceRouter.java:259-262 | each locator gets the compiled template of its @Path, in order; registration fails exactly when some template does not compile, and then with a template failure |
| ResourceRouter.WithVerb | RESTful/src/main/java/com/rest/ResourceRouter.java:83 | the methods listed for a verb are exactly the registered methods with that verb |
| ResourceRouter.GroupLookup | RESTful/src/main/java/com/rest/ResourceRouter.java:79-84 | grouping by verb loses and invents nothing: a verb has an entry exactly when some method has it, holding that verb's methods in registration order |
| ResourceRouter.GroupIsTableOk | RESTful/src/main/java/com/rest/ResourceRouter.java:83 | every method of a grouped table sits under its own verb |
| ResourceRouter.BestMethod | RESTful/src/main/java/com/rest/ResourceRouter.java:98 | among one verb's methods, the one found matches the whole path and ranks no worse than every other such method; none is found exactly when no method matches the whole path |
| ResourceRouter.FindMethod | RESTful/src/main/java/com/rest/ResourceRouter.java:97-99 | the method found is one of the verb's methods whose template matches the whole path, ranked no worse than any other such method; none is found exactly when there is no such method |
| ResourceRouter.FindResourceMethods | RESTful/src/main/java/com/rest/ResourceRouter.java:87-95 | an exact method of the verb wins; failing that, HEAD takes the GET method and OPTIONS the synthesised one; nothing is found exactly when none of these applies; a found method reports the requested verb |
| ResourceRouter.Allowed | RESTful/src/main/java/com/rest/ResourceRouter.java:114-120 | a verb is allowed exactly when it is OPTIONS, or a standard verb with a method matching the whole path, or HEAD when GET has such a method |
| ResourceRouter.AllowedAreStandard | RESTful/src/main/java/com/rest/ResourceRouter.java:115-116 | every allowed verb is one of the seven standard verbs |
| ResourceRouter.AllowedIffResolvable | RESTful/src/main/java/com/rest/ResourceRouter.java:114-120 | a standard verb is allowed exactly when a request with that verb on the path resolves to a method |
| ResourceRouter.HeadFallsBackToGet | RESTful/src/main/java/com/rest/ResourceRouter.java:92 | HEAD without its own method resolves to the GET method, reported as HEAD with the GET method's template |
| ResourceRouter.HeadOfReportsGet | RESTful/src/main/java/com/rest/ResourceRouter.java:216-225 | the HEAD wrapper of a GET method reports HEAD as its verb and the GET method's template as its own |
| ResourceRouter.CallDeclared | RESTful/src/main/java/com/rest/ResourceRouter.java:174 | a declared call succeeds exactly when the invocation does; a null result gives no entity and any other result is wrapped with the method's generic return type |
| ResourceRouter.Call | RESTful/src/main/java/com/rest/ResourceRouter.java:216-220 | a declared method is invoked as CallDeclared does; HEAD succeeds exactly when the GET invocation does and then returns no entity; OPTIONS returns a 204 response allowing the path's verbs; a returned entity is never null |
| ResourceRouter.NewHandler | RESTful/src/main/java/com/rest/ResourceRouter.java:307-312 | a handler keeps its source and template, groups its resource methods by verb and lists its locators in order; it fails, always with a template failure, exactly when some method or locator template does not compile |
| ResourceRouter.NewRootHandler | RESTful/src/main/java/com/rest/ResourceRouter.java:294-301 | a root class without @Path is rejected; otherwise its handler uses the compiled @Path and takes its instance from the ResourceContext |
| ResourceRouter.Roots | RESTful/src/main/java/com/rest/ResourceRouter.java:294-295 | one root handler per registered class, in order, each the class's own handler; a failure is that of the first class whose handler fails, and is a missing @Path or a template failure |
| ResourceRouter.NewSubHandler | RESTful/src/main/java/com/rest/ResourceRouter.java:303-312 | a locator result gives a handler over that object with the locator's template; a null result fails as null, an object of a described class gets the handler of that class's methods (failing, with a template failure, exactly when one of its templates does not compile), and any other object a handler with no methods and no locators |
| ResourceRouter.MatchHandler | RESTful/src/main/java/com/rest/ResourceRouter.java:315-321 | a handler records its instance, then its own method on the remainder wins; the matched resources extend the previous ones, and each later one was returned by a locator on the one before |
| ResourceRouter.MatchLocators | RESTful/src/main/java/com/rest/ResourceRouter.java:250-253 | without a matching locator nothing is found and no resource is recorded; a found method means a sub-resource was recorded, and the recorded resources extend the previous ones as a locator chain |
| ResourceRouter.MatchLocator | RESTful/src/main/java/com/rest/ResourceRouter.java:275-283 | a locator declaring parameters fails (it is invoked with none); an exception the locator throws, or a null result, fails without recording anything; a found method means its sub-resource was recorded, each recorded resource being the result of a locator on the previous one |
| ResourceRouter.LocatorFollowed | RESTful/src/main/java/com/rest/ResourceRouter.java:250-279 | the best-ranked locator is the one followed: invoked without arguments on the last matched resource, the handler over its result is matched with that locator's own match result, one nesting level down |
| ResourceRouter.HandlerDescends | RESTful/src/main/java/com/rest/ResourceRouter.java:315-320 | a handler without a method of its own for the remainder hands the remainder to its locators, after recording its instance |
| ResourceRouter.OwnMethodFound | RESTful/src/main/java/com/rest/ResourceRouter.java:315-318 | a handler with a method of its own for the remainder resolves to it and records only its own instance |
| ResourceRouter.HandlerFollowsLocator | RESTful/src/main/java/com/rest/ResourceRouter.java:315-320 | a handler without its own method, whose best locator returns a sub-resource owning the method, resolves to that method and records its instance and then the sub-resource |
| ResourceRouter.DescentStep | RESTful/src/main/java/com/rest/ResourceRouter.java:276-279 | appending a locator's result to the matched resources keeps every resource the result of a locator on its predecessor |
| ResourceRouter.Resolve | RESTful/src/main/java/com/rest/ResourceRouter.java:56 | with no matching root nothing is found and nothing is recorded; a found method has a receiver; the matched resources form a locator chain from the root |
| ResourceRouter.RootFollowed | RESTful/src/main/java/com/rest/ResourceRouter.java:56 | the best-ranked root decides the resolution: its handler is matched with that root's own match result and no resource recorded before it |
| ResourceRouter.TwoLevelDescent | RESTful/src/main/java/com/rest/ResourceRouter.java:275-320 | end to end through one locator: the best root has no method for its remainder, its best locator returns a sub-resource owning the method, and the method is found with the root instance and the sub-resource recorded, in that order |
| ResourceRouter.Answer | RESTful/src/main/java/com/rest/ResourceRouter.java:58-60 | a call's reply is never 404; it is a failure exactly when the call fails, with the call's failure; 204 exactly when the call returns no entity; 200 with the entity whenever the call returns an entity that is not a response; and a passed-through value is the response the call returned |
| ResourceRouter.Dispatch | RESTful/src/main/java/com/rest/ResourceRouter.java:52-61 | the reply is 404 exactly when routing finds nothing; a routing failure escapes as the reply; a resolved method is answered from its call on the last matched resource; a 200 entity is neither null nor a response, and a passed-through value is a response |
| ResourceRouter.DispatchFollowsCall | RESTful/src/main/java/com/rest/ResourceRouter.java:58-60 | a resolved method's reply follows its call: a failure escapes, no entity is 204, only a declared method answers 200, and a declared method whose invocation returns a value that is neither null nor a response is answered 200 with that value and its generic return type; HEAD gives 204 or a failure, OPTIONS passes its 204 response through |
| ResourceRouter.AnswerFollowsCall | RESTful/src/main/java/com/rest/ResourceRouter.java:58-60 | the reply to a method's call: a failure escapes, exactly a null entity gives 204, only a declared method answers 200, and one whose invocation returns a value that is neither null nor a response is answered 200 with that value and its generic return type; HEAD gives 204 or a failure, OPTIONS passes its 204 response allowing the path's verbs through |
| ResourceRouter.OptionsIsNeverNotFound | RESTful/src/main/java/com/rest/ResourceRouter.java:93 | an OPTIONS request on a path some root matches is never answered 404 |
| ResourceRouter.OptionsAnswersAllowed | RESTful/src/main/java/com/rest/ResourceRouter.java:109-111 | without a declared OPTIONS method, OPTIONS answers 204 with the chosen root's allowed verbs for the remainder |

## Left out

- I/O is left out: the servlet request and response and header reading. Dispatch takes the
  path and the verb as parameters.
- Reflection is left out. Classes, methods and parameters are descriptors, and `getMethods()`
  order is taken to be the descriptor list order.
- Media types are left out. The `Accept` header is passed along by the source but never used
  in routing.
- Method invocation, `ResourceContext.getResource` and the concrete conversions are left out.
  They are uninterpreted functions of the `Host`. This covers `Integer.parseInt`, float
  parsing, BigDecimal and enum `valueOf`, all floating point or library code. An exception
  thrown by a conversion is not modelled. The `PrimitiveConverter`, `ConverterConstructor` and
  `ConverterFactory` classes are not part of this model. Only their order and what they read
  (the first value) are modelled, with the primitive table's type set.
- Exception wrapping is left out. `RuntimeException` and `InvocationTargetException` wrapping
  is modelled as the `Failure` carried outward. No distinction is made between wrapped and
  unwrapped exceptions.
- The older `DefaultResourceMethod.call` binding is left out
  (ResourceRouter.java:147-162, 166-173). It is superseded by `MethodInvoker.invoke`, which
  the model uses for every declared call.
- Replacement syntax in explicit patterns is left out. `replaceAll` reads `$` and `\` in a
  pattern as a group reference or an escape, which either throws or rewrites the pattern. The
  model reports such a pattern as `UnsupportedSyntax`.
- Regular expressions beyond the fragment are left out. Template text may contain literal
  characters, `.` as a wildcard, `{name}` and `{name:[items]+}` / `{name:[^items]+}`. Any
  other regex syntax is reported as `UnsupportedSyntax` rather than interpreted.
- UriTemplate.Compile: a pattern that `java.util.regex` would accept but the fragment
  rejects compiles to `UnsupportedSyntax`. A repeated name is reported before any syntax
  problem. In the source the names are checked placeholder by placeholder, so a `$` or `\` in
  an explicit pattern before the repeat makes `replaceAll` throw first: `{x:[a$]+}/{x}` fails
  there with an illegal group reference, while the model reports `DuplicateVariable("x")`.
  In that example both are an `IllegalArgumentException` in the source.
- Match: lengths are counted in characters (Unicode scalar values). Java's `String.length()`
  counts UTF-16 code units, so a character outside the Basic Multilingual Plane counts once
  here and twice in the source.
- MatchFacts: the literal count it states is the number of literal characters, not the UTF-16
  length `compareTo` uses (UriTemplate.java:102-103). The two differ, and the ranking can
  differ, only when the text a template's literals match (their own characters, or what a
  `.` matched) holds characters outside the Basic Multilingual Plane.
- MatchLocator: a nesting bound (`fuel`) replaces unbounded recursion through locators.
  Running out gives `DepthExhausted`, which the source does not have.
- ResourceRouter.Dispatch: the request's `UriInfo` is an input. The values the templates capture are never
  added to its path-parameter map, because the builder routing uses (UriInfoBuilder.java) only
  records matched resources. So a `@PathParam` reads whatever map the caller supplied.
- MethodInvoker.Provide: the path-parameter map's value lists are taken to be non-empty
  (`Values`). `values.get(0)` on an empty list is not modelled.
- Null receivers are left to the host. `Method.invoke` on a null receiver (a root whose
  `getResource` returns null) is whatever `Host.invoke` returns.
- NewSubHandler: an object of a type the descriptors do not describe (a response, the
  context, a UriInfo) is given a handler with no methods and no locators.
- `UriHandlers.mapMatched` has no fall-through to lower-ranked handlers. It is not part of
  this model's source files, and the model takes its call sites at their word.
- `toString` and `getUriTemplate` of the resource-method classes are left out, apart from
  `TemplateOf` and `VerbOf`. They matter only for diagnostics.
