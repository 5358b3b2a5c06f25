/** ResourceRouter: registration of resource classes, the per-class method tables with their
    HEAD and OPTIONS fallbacks, the descent through resource handlers and sub-resource
    locators, and the mapping of the outcome to a reply. */
module ResourceRouter {
  import opened Wrappers
  import opened UriTemplate
  import opened UriHandlers
  import opened Resources
  import opened MethodInvoker

  const GET: string := "GET"
  const HEAD: string := "HEAD"
  const OPTIONS: string := "OPTIONS"
  const PUT: string := "PUT"
  const POST: string := "POST"
  const DELETE: string := "DELETE"
  const PATCH: string := "PATCH"

  /** The verbs OPTIONS reports on, in the order they are probed. */
  const StandardVerbs: seq<string> := [GET, HEAD, OPTIONS, PUT, POST, DELETE, PATCH]

  /** The three verbs with fallbacks are distinct standard verbs. */
  lemma FallbackVerbs()
    ensures GET != HEAD && GET != OPTIONS && HEAD != OPTIONS
    ensures GET in StandardVerbs && HEAD in StandardVerbs && OPTIONS in StandardVerbs
  {
    assert StandardVerbs[0] == GET && StandardVerbs[1] == HEAD && StandardVerbs[2] == OPTIONS;
  }

  // ---------------------------------------------------------------------------
  // Registration
  // ---------------------------------------------------------------------------

  /** A method carrying an HTTP-method annotation is a resource method. */
  predicate IsResourceMethod(m: MethodDecl) {
    |m.verbs| > 0
  }

  /** A method with @Path and no HTTP-method annotation is a sub-resource locator. */
  predicate IsLocator(m: MethodDecl) {
    m.path.Some? && |m.verbs| == 0
  }

  function ResourceMethodDecls(ms: seq<MethodDecl>): (r: seq<MethodDecl>)
    ensures forall m :: m in r <==> m in ms && IsResourceMethod(m)
    ensures forall i :: 0 <= i < |r| ==> |r[i].verbs| > 0
  {
    if ms == [] then []
    else (if IsResourceMethod(ms[0]) then [ms[0]] else []) + ResourceMethodDecls(ms[1..])
  }

  function LocatorDecls(ms: seq<MethodDecl>): (r: seq<MethodDecl>)
    ensures forall m :: m in r <==> m in ms && IsLocator(m)
    ensures forall i :: 0 <= i < |r| ==> r[i].path.Some?
  {
    if ms == [] then []
    else (if IsLocator(ms[0]) then [ms[0]] else []) + LocatorDecls(ms[1..])
  }

  /** No method is both a resource method and a locator; a method is neither exactly when it
      has no HTTP-method annotation and no @Path. */
  lemma RegistrationPartitions(ms: seq<MethodDecl>, m: MethodDecl)
    requires m in ms
    ensures !(m in ResourceMethodDecls(ms) && m in LocatorDecls(ms))
    ensures m !in ResourceMethodDecls(ms) && m !in LocatorDecls(ms) <==> m.verbs == [] && m.path.None?
  {
  }

  /** The model's name for the template-compilation exception. */
  function CompilePath(text: string): (r: Result<Template, Failure>)
    ensures r.Success? <==> Compile(text).Success?
    ensures r.Success? ==> Compile(text) == Success(r.value)
    ensures r.Failure? ==> r.error == TemplateFailure(Compile(text).error)
  {
    match Compile(text)
    case Success(t) => Success(t)
    case Failure(e) => Failure(TemplateFailure(e))
  }

  /** DefaultResourceMethod: a resource method, its template (@Path, or "" without one) and
      the verb of its first HTTP-method annotation. */
  datatype DefaultMethod = DefaultMethod(decl: MethodDecl, template: Template, verb: string)

  /** SubResourceLocator: a locator method and its compiled @Path. */
  datatype Locator = Locator(decl: MethodDecl, template: Template)

  /** The DefaultResourceMethod constructor: the template of the method's @Path ("" without
      one) and the verb of its first HTTP-method annotation. */
  function NewDefaultMethod(m: MethodDecl): (r: Result<DefaultMethod, Failure>)
    requires |m.verbs| > 0
    ensures r.Success? ==> r.value.decl == m && r.value.verb == m.verbs[0]
                           && Compile(m.path.GetOr("")) == Success(r.value.template)
    ensures r.Failure? <==> Compile(m.path.GetOr("")).Failure?
    ensures r.Failure? ==> r.error.TemplateFailure?
  {
    match CompilePath(m.path.GetOr(""))
    case Failure(f) => Failure(f)
    case Success(t) => Success(DefaultMethod(m, t, m.verbs[0]))
  }

  /** The DefaultResourceMethod constructors, in declaration order; the first template that does
      not compile aborts the registration. */
  function DefaultMethods(ms: seq<MethodDecl>): (r: Result<seq<DefaultMethod>, Failure>)
    requires forall i :: 0 <= i < |ms| ==> |ms[i].verbs| > 0
    ensures r.Success? ==> |r.value| == |ms|
    ensures r.Success? ==> forall i :: 0 <= i < |ms| ==>
              && r.value[i].decl == ms[i]
              && r.value[i].verb == ms[i].verbs[0]
              && Compile(ms[i].path.GetOr("")) == Success(r.value[i].template)
    ensures r.Failure? <==> exists i :: 0 <= i < |ms| && Compile(ms[i].path.GetOr("")).Failure?
    ensures r.Failure? ==> r.error.TemplateFailure?
  {
    Collect(NewDefaultMethod, ms)
  }

  /** The SubResourceLocator constructor: the method and its compiled @Path. */
  function NewLocator(m: MethodDecl): (r: Result<Locator, Failure>)
    requires m.path.Some?
    ensures r.Success? ==> r.value.decl == m && Compile(m.path.value) == Success(r.value.template)
    ensures r.Failure? <==> Compile(m.path.value).Failure?
    ensures r.Failure? ==> r.error.TemplateFailure?
  {
    match CompilePath(m.path.value)
    case Failure(f) => Failure(f)
    case Success(t) => Success(Locator(m, t))
  }

  /** The SubResourceLocator constructors, in declaration order. */
  function Locators(ms: seq<MethodDecl>): (r: Result<seq<Locator>, Failure>)
    requires forall i :: 0 <= i < |ms| ==> ms[i].path.Some?
    ensures r.Success? ==> |r.value| == |ms|
    ensures r.Success? ==> forall i :: 0 <= i < |ms| ==>
              r.value[i].decl == ms[i] && Compile(ms[i].path.value) == Success(r.value[i].template)
    ensures r.Failure? <==> exists i :: 0 <= i < |ms| && Compile(ms[i].path.value).Failure?
    ensures r.Failure? ==> r.error.TemplateFailure?
  {
    Collect(NewLocator, ms)
  }

  // ---------------------------------------------------------------------------
  // Method tables (ResourceMethods)
  // ---------------------------------------------------------------------------

  /** The resource methods of a class grouped by verb. */
  type MethodTable = map<string, seq<DefaultMethod>>

  /** The methods of one verb, in registration order. */
  function WithVerb(ds: seq<DefaultMethod>, v: string): (r: seq<DefaultMethod>)
    ensures forall d :: d in r <==> d in ds && d.verb == v
  {
    if ds == [] then []
    else WithVerb(ds[..|ds| - 1], v) + (if ds[|ds| - 1].verb == v then [ds[|ds| - 1]] else [])
  }

  /** Collectors.groupingBy(getHttpMethod): one entry per verb that some method has, holding
      that verb's methods in order. */
  function Group(ds: seq<DefaultMethod>): MethodTable {
    if ds == [] then map[]
    else
      var g := Group(ds[..|ds| - 1]);
      var d := ds[|ds| - 1];
      g[d.verb := Lookup(g, d.verb) + [d]]
  }

  /** methods.get(verb), with an absent verb read as no methods. */
  function Lookup(table: MethodTable, verb: string): seq<DefaultMethod> {
    if verb in table then table[verb] else []
  }

  /** Grouping loses nothing and invents nothing: a verb has an entry exactly when some method
      has that verb, and the entry holds that verb's methods in registration order. */
  lemma {:induction false} GroupLookup(ds: seq<DefaultMethod>, v: string)
    ensures Lookup(Group(ds), v) == WithVerb(ds, v)
    ensures v in Group(ds) <==> WithVerb(ds, v) != []
  {
    if ds != [] {
      GroupLookup(ds[..|ds| - 1], v);
    }
  }

  /** Every method in a grouped table sits under its own verb. */
  ghost predicate TableOk(table: MethodTable) {
    forall v, i :: v in table && 0 <= i < |table[v]| ==> table[v][i].verb == v
  }

  lemma GroupIsTableOk(ds: seq<DefaultMethod>)
    ensures TableOk(Group(ds))
  {
    forall v, i | v in Group(ds) && 0 <= i < |Group(ds)[v]| ensures Group(ds)[v][i].verb == v {
      GroupLookup(ds, v);
      assert Group(ds)[v][i] in WithVerb(ds, v);
    }
  }

  /** The templates of a list of routes, in order, each read off its route by templateOf. */
  function Templates<T>(xs: seq<T>, templateOf: T -> Template): (ts: seq<Template>)
    ensures |ts| == |xs| && forall i :: 0 <= i < |xs| ==> ts[i] == templateOf(xs[i])
  {
    seq(|xs|, i requires 0 <= i < |xs| => templateOf(xs[i]))
  }

  function MethodTemplate(d: DefaultMethod): Template { d.template }
  function LocatorTemplate(l: Locator): Template { l.template }
  function HandlerTemplate(h: Handler): Template { h.template }

  /** The path matches the template and leaves no remainder. */
  predicate ExactMatch(t: Template, path: string) {
    Candidate(t, path, true).Some?
  }

  /** Of the given methods, the best-ranked one whose template matches the whole path. */
  function BestMethod(ds: seq<DefaultMethod>, path: string): (r: Option<DefaultMethod>)
    ensures r.None? <==> forall j :: 0 <= j < |ds| ==> !ExactMatch(ds[j].template, path)
    ensures r.Some? ==> r.value in ds && ExactMatch(r.value.template, path)
    ensures r.Some? ==> forall j :: 0 <= j < |ds| && ExactMatch(ds[j].template, path) ==>
              Compare(Match(r.value.template, path).value, Match(ds[j].template, path).value) <= 0
  {
    match Choose(Templates(ds, MethodTemplate), path, true)
    case None => None
    case Some((i, _)) =>
      assert forall j :: 0 <= j < |ds| ==> Candidates(Templates(ds, MethodTemplate), path, true)[j] == Candidate(ds[j].template, path, true);
      Some(ds[i])
  }

  /** ResourceMethods.findMethod: among the methods of the verb whose template matches the
      whole path, the best-ranked one. */
  function FindMethod(table: MethodTable, path: string, verb: string): (r: Option<DefaultMethod>)
    ensures r.None? <==> forall j :: 0 <= j < |Lookup(table, verb)| ==> !ExactMatch(Lookup(table, verb)[j].template, path)
    ensures r.Some? ==> r.value in Lookup(table, verb) && ExactMatch(r.value.template, path)
    ensures r.Some? ==> forall j :: 0 <= j < |Lookup(table, verb)| && ExactMatch(Lookup(table, verb)[j].template, path) ==>
              Compare(Match(r.value.template, path).value, Match(Lookup(table, verb)[j].template, path).value) <= 0
  {
    BestMethod(Lookup(table, verb), path)
  }

  /** What findResourceMethods can return. */
  datatype ResourceMethod =
    | Declared(declared: DefaultMethod)
    | HeadOf(get: DefaultMethod)                     // HeadResourceMethod over the GET method
    | Options(path: string, table: MethodTable)      // OptionResourceMethod for the path

  /** getHttpMethod. */
  function VerbOf(rm: ResourceMethod): string {
    match rm
    case Declared(d) => d.verb
    case HeadOf(_) => HEAD
    case Options(_, _) => OPTIONS
  }

  /** getUriTemplate: a HEAD method reports its GET method's template; OPTIONS compiles the path. */
  function TemplateOf(rm: ResourceMethod): Result<Template, CompileError> {
    match rm
    case Declared(d) => Success(d.template)
    case HeadOf(g) => Success(g.template)
    case Options(path, _) => Compile(path)
  }

  /** ResourceMethods.findResourceMethods: an exact method of the verb; failing that, for HEAD
      the GET method wrapped, for OPTIONS the synthesised method, and for any other verb nothing. */
  function FindResourceMethods(table: MethodTable, path: string, verb: string): (r: Option<ResourceMethod>)
    ensures FindMethod(table, path, verb).Some? ==> r == Some(Declared(FindMethod(table, path, verb).value))
    ensures verb == OPTIONS ==> r.Some?
    ensures r.None? <==> FindMethod(table, path, verb).None? && verb != OPTIONS
                         && (verb == HEAD ==> FindMethod(table, path, GET).None?)
    ensures r.Some? && r.value.HeadOf? ==>
              verb == HEAD && FindMethod(table, path, HEAD).None? && FindMethod(table, path, GET) == Some(r.value.get)
    ensures r.Some? && r.value.Options? ==> r.value == Options(path, table) && FindMethod(table, path, OPTIONS).None?
    ensures verb == HEAD && FindMethod(table, path, HEAD).None? && FindMethod(table, path, GET).Some? ==>
              r == Some(HeadOf(FindMethod(table, path, GET).value))
    ensures TableOk(table) && r.Some? ==> VerbOf(r.value) == verb
  {
    match FindMethod(table, path, verb)
    case Some(d) =>
      assert d in table[verb];
      Some(Declared(d))
    case None =>
      if verb == HEAD then
        match FindMethod(table, path, GET)
        case Some(g) => Some(HeadOf(g))
        case None => None
      else if verb == OPTIONS then Some(Options(path, table))
      else None
  }

  /** OptionResourceMethod.findAllowedMethods. */
  function Allowed(table: MethodTable, path: string): (s: set<string>)
    ensures OPTIONS in s
    ensures forall v :: v in s <==>
              || v == OPTIONS
              || (v in StandardVerbs && FindMethod(table, path, v).Some?)
              || (v == HEAD && FindMethod(table, path, GET).Some?)
  {
    AllowedBy(v => FindMethod(table, path, v).Some?)
  }

  /** findAllowedMethods over any test of whether a verb has a method on the path. */
  function AllowedBy(found: string -> bool): (s: set<string>)
    ensures OPTIONS in s
    ensures forall v :: v in s <==>
              || v == OPTIONS
              || (v in StandardVerbs && found(v))
              || (v == HEAD && found(GET))
  {
    var among := set v | v in StandardVerbs && found(v);
    FallbackVerbs();
    assert GET in among + {OPTIONS} <==> found(GET);
    if GET in among + {OPTIONS} then among + {OPTIONS} + {HEAD} else among + {OPTIONS}
  }

  /** Every verb OPTIONS reports is a standard verb. */
  lemma AllowedAreStandard(table: MethodTable, path: string)
    ensures forall v :: v in Allowed(table, path) ==> v in StandardVerbs
  {
    FallbackVerbs();
  }

  /** The allowed set reports exactly the standard verbs that a request on the same path would
      resolve to a method: OPTIONS always, HEAD also through GET. */
  lemma AllowedIffResolvable(table: MethodTable, path: string, v: string)
    requires v in StandardVerbs
    ensures v in Allowed(table, path) <==> FindResourceMethods(table, path, v).Some?
  {
    FallbackVerbs();
  }

  /** A HEAD request without a HEAD method on the path resolves to the GET method, reported
      under HEAD with the GET method's template. */
  lemma HeadFallsBackToGet(table: MethodTable, path: string)
    requires FindMethod(table, path, HEAD).None? && FindMethod(table, path, GET).Some?
    ensures var r := FindResourceMethods(table, path, HEAD);
            && r == Some(HeadOf(FindMethod(table, path, GET).value))
            && VerbOf(r.value) == HEAD
            && TemplateOf(r.value) == Success(FindMethod(table, path, GET).value.template)
  {
    HeadOfReportsGet(FindMethod(table, path, GET).value);
  }

  /** HeadResourceMethod reports HEAD as its verb and its GET method's template. */
  lemma HeadOfReportsGet(g: DefaultMethod)
    ensures VerbOf(HeadOf(g)) == HEAD && TemplateOf(HeadOf(g)) == Success(g.template)
  {
  }

  // ---------------------------------------------------------------------------
  // Calling a resolved method
  // ---------------------------------------------------------------------------

  /** DefaultResourceMethod.call: the method is invoked on the last matched resource and a
      non-null result is wrapped with the method's generic return type; null means no entity. */
  function CallDeclared(d: DefaultMethod, host: Host, info: UriInfo, receiver: Value): (r: Result<Option<Entity>, Failure>)
    ensures r.Success? <==> Invoke(d.decl, host, info, receiver).Success?
    ensures r.Failure? ==> r.error == Invoke(d.decl, host, info, receiver).error
    ensures r.Success? ==> (r.value.None? <==> Invoke(d.decl, host, info, receiver).value.Null?)
    ensures r.Success? && r.value.Some? ==>
              r.value.value == Entity(Invoke(d.decl, host, info, receiver).value, d.decl.returnType)
  {
    match Invoke(d.decl, host, info, receiver)
    case Failure(f) => Failure(f)
    case Success(v) => Success(if v.Null? then None else Some(Entity(v, d.decl.returnType)))
  }

  /** ResourceMethod.call: HEAD invokes the GET method once and drops its result; OPTIONS
      answers 204 with the allowed verbs, as a Response entity. */
  function Call(rm: ResourceMethod, host: Host, info: UriInfo, receiver: Value): (r: Result<Option<Entity>, Failure>)
    ensures rm.Declared? ==> r == CallDeclared(rm.declared, host, info, receiver)
    ensures rm.HeadOf? ==> (r.Success? <==> Invoke(rm.get.decl, host, info, receiver).Success?)
    ensures rm.HeadOf? && r.Success? ==> r.value.None?
    ensures rm.Options? ==> r == Success(Some(Entity(Response(204, Allowed(rm.table, rm.path)), ResponseType)))
    ensures r.Success? && r.value.Some? ==> r.value.value.value != Null
  {
    match rm
    case Declared(d) => CallDeclared(d, host, info, receiver)
    case HeadOf(g) =>
      (match CallDeclared(g, host, info, receiver)
       case Failure(f) => Failure(f)
       case Success(_) => Success(None))
    case Options(path, table) =>
      Success(Some(Entity(Response(204, Allowed(table, path)), ResponseType)))
  }

  // ---------------------------------------------------------------------------
  // Handlers and locators
  // ---------------------------------------------------------------------------

  /** Where a handler's resource instance comes from: ResourceContext.getResource for a root
      class, the locator's returned object for a sub-resource. */
  datatype InstanceSource = FromContext(cls: TypeName) | Given(instance: Value)

  /** ResourceHandler: the instance source, the template, the method table and the locators. */
  datatype Handler = Handler(source: InstanceSource, template: Template, methods: MethodTable, locators: seq<Locator>)

  /** The private ResourceHandler constructor: resource methods are registered before locators. */
  function NewHandler(source: InstanceSource, template: Template, ms: seq<MethodDecl>): (r: Result<Handler, Failure>)
    ensures r.Success? ==> r.value.source == source && r.value.template == template && TableOk(r.value.methods)
    ensures r.Success? ==> DefaultMethods(ResourceMethodDecls(ms)).Success?
                           && r.value.methods == Group(DefaultMethods(ResourceMethodDecls(ms)).value)
    ensures r.Success? ==> Locators(LocatorDecls(ms)) == Success(r.value.locators)
    ensures r.Failure? <==> DefaultMethods(ResourceMethodDecls(ms)).Failure? || Locators(LocatorDecls(ms)).Failure?
    ensures r.Failure? ==> r.error.TemplateFailure?
  {
    var rms := ResourceMethodDecls(ms);
    var lms := LocatorDecls(ms);
    match DefaultMethods(rms)
    case Failure(f) =>
      Failure(f)
    case Success(ds) =>
      match Locators(lms)
      case Failure(f) =>
        Failure(f)
      case Success(ls) =>
        GroupIsTableOk(ds);
        Success(Handler(source, template, Group(ds), ls))
  }

  /** ResourceHandler(Class): a root class must carry @Path. */
  function NewRootHandler(cls: ClassDecl): (r: Result<Handler, Failure>)
    ensures cls.path.None? ==> r == Failure(MissingPath(cls.name))
    ensures r.Success? ==> cls.path.Some? && Compile(cls.path.value) == Success(r.value.template)
    ensures r.Success? ==> r.value.source == FromContext(cls.name)
    ensures r.Failure? ==> r.error.MissingPath? || r.error.TemplateFailure?
  {
    match cls.path
    case None => Failure(MissingPath(cls.name))
    case Some(text) =>
      match CompilePath(text)
      case Failure(f) => Failure(f)
      case Success(t) =>
        NewHandler(FromContext(cls.name), t, cls.methods)
  }

  /** The root handlers of the registered classes, in order. */
  function Roots(classes: seq<ClassDecl>): (r: Result<seq<Handler>, Failure>)
    ensures r.Success? ==> |r.value| == |classes|
    ensures r.Success? ==> forall i :: 0 <= i < |classes| ==> NewRootHandler(classes[i]) == Success(r.value[i])
    ensures r.Failure? ==> exists i :: 0 <= i < |classes| && NewRootHandler(classes[i]) == Failure(r.error)
                                       && forall j :: 0 <= j < i ==> NewRootHandler(classes[j]).Success?
    ensures r.Failure? ==> r.error.MissingPath? || r.error.TemplateFailure?
  {
    Collect(NewRootHandler, classes)
  }

  /** ResourceHandler(Object, UriTemplate) for a locator's result: null fails (getClass on null);
      an object of a described class is scanned; any other object has no resource methods. */
  function NewSubHandler(v: Value, template: Template, locatorName: string): (r: Result<Handler, Failure>)
    ensures v.Null? <==> r == Failure(NullSubResource(locatorName))
    ensures r.Success? ==> r.value.source == Given(v) && r.value.template == template
    ensures v.Object? ==> r == NewHandler(Given(v), template, v.cls.methods)
    ensures !v.Null? && !v.Object? ==> r.Success? && r.value.methods == map[] && r.value.locators == []
    ensures r.Failure? && !v.Null? ==> r.error.TemplateFailure?
  {
    match v
    case Null => Failure(NullSubResource(locatorName))
    case Object(cls, _) =>
      NewHandler(Given(v), template, cls.methods)
    case _ => Success(Handler(Given(v), template, map[], []))
  }

  /** The outcome of matching: the resolved method (or nothing, or the failure thrown) and the
      matched resources, outermost first (the UriInfoBuilder's list). */
  datatype Resolution = Resolution(found: Result<Option<ResourceMethod>, Failure>, matched: seq<Value>)

  /** The object a handler contributes: resource.apply(resourceContext). */
  function InstanceOf(h: Handler, host: Host): Value {
    match h.source
    case FromContext(c) => host.getResource(c)
    case Given(v) => v
  }

  /** Invoking locator d on parent returned child. */
  predicate Yields(host: Host, parent: Value, d: MethodDecl, child: Value) {
    host.invoke(parent, d, []) == Returned(child)
  }

  /** Some locator, invoked on parent, returned child. */
  ghost predicate Descends(host: Host, parent: Value, child: Value) {
    exists d :: Yields(host, parent, d, child)
  }

  /** Every matched resource after index k was returned by a locator invoked, without
      arguments, on the resource before it. */
  ghost predicate Chain(host: Host, ms: seq<Value>, k: nat) {
    forall j :: k < j < |ms| ==> Descends(host, ms[j - 1], ms[j])
  }

  /** ResourceHandler.match: records the handler's instance, then looks for a method of its own
      on the remainder ("" when absent), and only when there is none descends into the
      best-ranked locator. */
  function MatchHandler(h: Handler, mr: MatchResult, verb: string, host: Host, matched: seq<Value>, fuel: nat): (r: Resolution)
    ensures |r.matched| > |matched| && r.matched[..|matched| + 1] == matched + [InstanceOf(h, host)]
    ensures Chain(host, r.matched, |matched|)
    ensures var own := FindResourceMethods(h.methods, mr.remaining.GetOr(""), verb);
            own.Some? ==> r == Resolution(Success(own), matched + [InstanceOf(h, host)])
    ensures r.found.Success? && r.found.value.Some? && r.found.value.value.Options? ==>
              r.found.value.value.path == mr.remaining.GetOr("") || |r.matched| > |matched| + 1
    decreases fuel, 1
  {
    var stack := matched + [InstanceOf(h, host)];
    var remaining := mr.remaining.GetOr("");
    match FindResourceMethods(h.methods, remaining, verb)
    case Some(rm) => Resolution(Success(Some(rm)), stack)
    case None =>
      var r := MatchLocators(h.locators, remaining, verb, host, stack, fuel);
      assert r.matched[..|matched| + 1] == r.matched[..|stack|];
      r
  }

  /** SubResourceLocators.findResourceMethods: the best-ranked locator for the remainder, if any. */
  function MatchLocators(ls: seq<Locator>, path: string, verb: string, host: Host, matched: seq<Value>, fuel: nat): (r: Resolution)
    requires |matched| > 0
    ensures |r.matched| >= |matched| && r.matched[..|matched|] == matched
    ensures Chain(host, r.matched, |matched| - 1)
    ensures Choose(Templates(ls, LocatorTemplate), path, false).None? ==> r == Resolution(Success(None), matched)
    ensures r.found.Success? && r.found.value.Some? ==> |r.matched| > |matched|
    decreases fuel, 0, 1
  {
    match Choose(Templates(ls, LocatorTemplate), path, false)
    case None => Resolution(Success(None), matched)
    case Some((i, m)) => MatchLocator(ls[i], m, verb, host, matched, fuel)
  }

  /** SubResourceLocator.match: invokes the locator with no arguments on the last matched
      resource and matches a new handler over the result, with the locator's own match result. */
  function MatchLocator(l: Locator, mr: MatchResult, verb: string, host: Host, matched: seq<Value>, fuel: nat): (r: Resolution)
    requires |matched| > 0
    ensures |r.matched| >= |matched| && r.matched[..|matched|] == matched
    ensures Chain(host, r.matched, |matched| - 1)
    ensures fuel == 0 ==> r == Resolution(Failure(DepthExhausted), matched)
    ensures |l.decl.params| > 0 && fuel > 0 ==> r == Resolution(Failure(WrongArgumentCount(l.decl.name)), matched)
    ensures var out := host.invoke(matched[|matched| - 1], l.decl, []);
            |l.decl.params| == 0 && fuel > 0 && out.Threw? ==> r == Resolution(Failure(Raised(out.exception)), matched)
    ensures var out := host.invoke(matched[|matched| - 1], l.decl, []);
            |l.decl.params| == 0 && fuel > 0 && out.Returned? && out.value.Null? ==>
              r == Resolution(Failure(NullSubResource(l.decl.name)), matched)
    ensures r.found.Success? && r.found.value.Some? ==> |r.matched| > |matched|
    decreases fuel, 0, 0
  {
    if fuel == 0 then Resolution(Failure(DepthExhausted), matched)
    else if |l.decl.params| != 0 then Resolution(Failure(WrongArgumentCount(l.decl.name)), matched)
    else
      var parent := matched[|matched| - 1];
      match host.invoke(parent, l.decl, [])
      case Threw(e) => Resolution(Failure(Raised(e)), matched)
      case Returned(v) =>
        match NewSubHandler(v, l.template, l.decl.name)
        case Failure(f) => Resolution(Failure(f), matched)
        case Success(sub) =>
          var r := MatchHandler(sub, mr, verb, host, matched, fuel - 1);
          DescentStep(host, matched, r.matched, l.decl, v);
          r
  }

  /** The best-ranked locator is the one followed: it is invoked without arguments on the last
      matched resource, and the handler over what it returns is matched, one nesting level
      down, with that locator's own match result (ResourceRouter.java:250-253, 275-283). */
  lemma LocatorFollowed(ls: seq<Locator>, path: string, verb: string, host: Host, matched: seq<Value>, fuel: nat,
                        i: nat, m: MatchResult, v: Value, h: Handler)
    requires |matched| > 0 && fuel > 0
    requires Choose(Templates(ls, LocatorTemplate), path, false) == Some((i, m))
    requires |ls[i].decl.params| == 0
    requires host.invoke(matched[|matched| - 1], ls[i].decl, []) == Returned(v)
    requires NewSubHandler(v, ls[i].template, ls[i].decl.name) == Success(h)
    ensures MatchLocators(ls, path, verb, host, matched, fuel) == MatchHandler(h, m, verb, host, matched, fuel - 1)
  {
  }

  /** A handler without a method of its own for the remainder hands the remainder to its
      locators, having recorded its instance. */
  lemma HandlerDescends(h: Handler, mr: MatchResult, verb: string, host: Host, matched: seq<Value>, fuel: nat)
    requires FindResourceMethods(h.methods, mr.remaining.GetOr(""), verb).None?
    ensures MatchHandler(h, mr, verb, host, matched, fuel)
            == MatchLocators(h.locators, mr.remaining.GetOr(""), verb, host, matched + [InstanceOf(h, host)], fuel)
  {
  }

  /** Extending a chain by a locator's result keeps it a chain. */
  lemma DescentStep(host: Host, matched: seq<Value>, ms: seq<Value>, d: MethodDecl, v: Value)
    requires |matched| > 0 && |ms| > |matched|
    requires ms[..|matched| + 1] == matched + [v]
    requires host.invoke(matched[|matched| - 1], d, []) == Returned(v)
    requires Chain(host, ms, |matched|)
    ensures ms[..|matched|] == matched
    ensures Chain(host, ms, |matched| - 1)
  {
    assert ms[|matched|] == ms[..|matched| + 1][|matched|];
    assert ms[|matched| - 1] == ms[..|matched| + 1][|matched| - 1];
    assert Yields(host, ms[|matched| - 1], d, ms[|matched|]);
    assert ms[..|matched|] == ms[..|matched| + 1][..|matched|];
  }

  // ---------------------------------------------------------------------------
  // Dispatch
  // ---------------------------------------------------------------------------

  /** The response dispatch builds. */
  datatype Reply =
    | NotFound                      // 404
    | NoContent                     // 204
    | PassThrough(response: Value)  // an OutBoundResponse returned as is
    | Ok(entity: Entity)            // 200 with the entity and its generic type
    | Failed(failure: Failure)      // an exception escapes dispatch

  /** UriHandlers.mapMatched over the roots: the best-ranked root for the path, matched with a
      fresh matched-resource list. A root whose descent finds nothing does not hand over to the
      next-ranked root. */
  function Resolve(roots: seq<Handler>, path: string, verb: string, host: Host, fuel: nat): (r: Resolution)
    ensures Choose(Templates(roots, HandlerTemplate), path, false).None? ==> r == Resolution(Success(None), [])
    ensures r.found.Success? && r.found.value.Some? ==> |r.matched| > 0
    ensures Chain(host, r.matched, 0)
  {
    match Choose(Templates(roots, HandlerTemplate), path, false)
    case None => Resolution(Success(None), [])
    case Some((i, m)) => MatchHandler(roots[i], m, verb, host, [], fuel)
  }

  /** The best-ranked root decides the resolution: its handler is matched with the root's own
      match result and an empty list of matched resources (ResourceRouter.java:56). */
  lemma RootFollowed(roots: seq<Handler>, path: string, verb: string, host: Host, fuel: nat, i: nat, m: MatchResult)
    requires Choose(Templates(roots, HandlerTemplate), path, false) == Some((i, m))
    ensures i < |roots| && Resolve(roots, path, verb, host, fuel) == MatchHandler(roots[i], m, verb, host, [], fuel)
  {
  }

  /** A handler without a method of its own for the remainder follows its best-ranked
      locator; when the sub-resource that locator returns owns the method, the method is
      found, and the handler's instance and the sub-resource are recorded, in that order. */
  lemma HandlerFollowsLocator(h: Handler, mr: MatchResult, verb: string, host: Host, matched: seq<Value>, fuel: nat,
                              j: nat, lm: MatchResult, v: Value, sub: Handler, rm: ResourceMethod)
    requires fuel > 0
    requires FindResourceMethods(h.methods, mr.remaining.GetOr(""), verb).None?
    requires Choose(Templates(h.locators, LocatorTemplate), mr.remaining.GetOr(""), false) == Some((j, lm))
    requires |h.locators[j].decl.params| == 0
    requires host.invoke(InstanceOf(h, host), h.locators[j].decl, []) == Returned(v)
    requires NewSubHandler(v, h.locators[j].template, h.locators[j].decl.name) == Success(sub)
    requires FindResourceMethods(sub.methods, lm.remaining.GetOr(""), verb) == Some(rm)
    ensures MatchHandler(h, mr, verb, host, matched, fuel) == Resolution(Success(Some(rm)), matched + [InstanceOf(h, host), v])
  {
    var stack := matched + [InstanceOf(h, host)];
    HandlerDescends(h, mr, verb, host, matched, fuel);
    PushTwice(matched, InstanceOf(h, host), v);
    LocatorFollowed(h.locators, mr.remaining.GetOr(""), verb, host, stack, fuel, j, lm, v, sub);
    OwnMethodFound(sub, lm, verb, host, stack, fuel - 1, rm);
  }

  lemma PushTwice(ms: seq<Value>, x: Value, y: Value)
    ensures (ms + [x])[|ms + [x]| - 1] == x
    ensures ms + [x] + [y] == ms + [x, y]
  {
  }

  /** A handler with a method of its own for the remainder resolves to it, recording only its
      own instance. */
  lemma OwnMethodFound(h: Handler, mr: MatchResult, verb: string, host: Host, matched: seq<Value>, fuel: nat, rm: ResourceMethod)
    requires FindResourceMethods(h.methods, mr.remaining.GetOr(""), verb) == Some(rm)
    ensures MatchHandler(h, mr, verb, host, matched, fuel) == Resolution(Success(Some(rm)), matched + [InstanceOf(h, host)])
  {
  }

  /** Two levels of matching end to end: the best root has no method for its remainder, so its
      best-ranked locator is invoked on the root instance, and the sub-resource it returns
      owns the method. The method is found, and the matched resources are the root instance
      followed by the sub-resource. */
  lemma TwoLevelDescent(roots: seq<Handler>, path: string, verb: string, host: Host, fuel: nat,
                        i: nat, m: MatchResult, j: nat, lm: MatchResult, v: Value, sub: Handler, rm: ResourceMethod)
    requires fuel > 0
    requires Choose(Templates(roots, HandlerTemplate), path, false) == Some((i, m))
    requires FindResourceMethods(roots[i].methods, m.remaining.GetOr(""), verb).None?
    requires Choose(Templates(roots[i].locators, LocatorTemplate), m.remaining.GetOr(""), false) == Some((j, lm))
    requires |roots[i].locators[j].decl.params| == 0
    requires host.invoke(InstanceOf(roots[i], host), roots[i].locators[j].decl, []) == Returned(v)
    requires NewSubHandler(v, roots[i].locators[j].template, roots[i].locators[j].decl.name) == Success(sub)
    requires FindResourceMethods(sub.methods, lm.remaining.GetOr(""), verb) == Some(rm)
    ensures Resolve(roots, path, verb, host, fuel) == Resolution(Success(Some(rm)), [InstanceOf(roots[i], host), v])
  {
    RootFollowed(roots, path, verb, host, fuel, i, m);
    HandlerFollowsLocator(roots[i], m, verb, host, [], fuel, j, lm, v, sub, rm);
    assert [] + [InstanceOf(roots[i], host), v] == [InstanceOf(roots[i], host), v];
  }

  /** DefaultResourceRouter.dispatch. */
  function Dispatch(roots: seq<Handler>, path: string, verb: string, host: Host, info: UriInfo, fuel: nat): (reply: Reply)
    ensures reply.NotFound? <==> Resolve(roots, path, verb, host, fuel).found == Success(None)
    ensures var found := Resolve(roots, path, verb, host, fuel).found;
            found.Failure? ==> reply == Failed(found.error)
    ensures var res := Resolve(roots, path, verb, host, fuel);
            res.found.Success? && res.found.value.Some? ==>
              reply == Answer(Call(res.found.value.value, host, info, res.matched[|res.matched| - 1]))
    ensures reply.Ok? ==> reply.entity.value != Null && !reply.entity.value.Response?
    ensures reply.PassThrough? ==> reply.response.Response?
  {
    var res := Resolve(roots, path, verb, host, fuel);
    match res.found
    case Failure(f) => Failed(f)
    case Success(None) => NotFound
    case Success(Some(rm)) =>
      Answer(Call(rm, host, info, res.matched[|res.matched| - 1]))
  }

  /** The reply to the outcome of a resource method's call. */
  function Answer(call: Result<Option<Entity>, Failure>): (reply: Reply)
    ensures reply != NotFound
    ensures call.Failure? <==> reply.Failed?
    ensures call.Failure? ==> reply == Failed(call.error)
    ensures call == Success(None) <==> reply == NoContent
    ensures call.Success? && call.value.Some? && !call.value.value.value.Response? ==> reply == Ok(call.value.value)
    ensures reply.Ok? ==> call == Success(Some(reply.entity)) && !reply.entity.value.Response?
    ensures reply.PassThrough? ==> call.Success? && call.value.Some? && reply.response == call.value.value.value
    ensures reply.PassThrough? ==> reply.response.Response?
  {
    match call
    case Failure(f) => Failed(f)
    case Success(None) => NoContent
    case Success(Some(e)) => if e.value.Response? then PassThrough(e.value) else Ok(e)
  }

  /** The reply to a call follows it: no entity is 204, a response entity passes through, any
      other entity is 200 with the method's generic return type. */
  lemma AnswerFollowsCall(rm: ResourceMethod, host: Host, info: UriInfo, receiver: Value)
    ensures var call := Call(rm, host, info, receiver);
            var reply := Answer(call);
            && (call.Failure? ==> reply == Failed(call.error))
            && (call == Success(None) <==> reply == NoContent)
            && (reply.Ok? ==> rm.Declared? && reply.entity.typ == rm.declared.decl.returnType)
            && (rm.Declared? && Invoke(rm.declared.decl, host, info, receiver).Success? ==>
                  var v := Invoke(rm.declared.decl, host, info, receiver).value;
                  !v.Null? && !v.Response? ==> reply == Ok(Entity(v, rm.declared.decl.returnType)))
            && (rm.HeadOf? ==> reply == NoContent || reply.Failed?)
            && (rm.Options? ==> reply == PassThrough(Response(204, Allowed(rm.table, rm.path))))
  {
  }

  /** The reply to a resolved method follows its call: no entity is 204, a response entity
      passes through, any other entity is 200 with the method's generic return type. */
  lemma DispatchFollowsCall(roots: seq<Handler>, path: string, verb: string, host: Host, info: UriInfo, fuel: nat)
    requires Resolve(roots, path, verb, host, fuel).found.Success?
    requires Resolve(roots, path, verb, host, fuel).found.value.Some?
    ensures var res := Resolve(roots, path, verb, host, fuel);
            var rm := res.found.value.value;
            var call := Call(rm, host, info, res.matched[|res.matched| - 1]);
            var reply := Dispatch(roots, path, verb, host, info, fuel);
            && (call.Failure? ==> reply == Failed(call.error))
            && (call == Success(None) <==> reply == NoContent)
            && (reply.Ok? ==> rm.Declared? && reply.entity.typ == rm.declared.decl.returnType)
            && (rm.Declared? && Invoke(rm.declared.decl, host, info, res.matched[|res.matched| - 1]).Success? ==>
                  var v := Invoke(rm.declared.decl, host, info, res.matched[|res.matched| - 1]).value;
                  !v.Null? && !v.Response? ==> reply == Ok(Entity(v, rm.declared.decl.returnType)))
            && (rm.HeadOf? ==> reply == NoContent || reply.Failed?)
            && (rm.Options? ==> reply == PassThrough(Response(204, Allowed(rm.table, rm.path))))
  {
    var res := Resolve(roots, path, verb, host, fuel);
    AnswerFollowsCall(res.found.value.value, host, info, res.matched[|res.matched| - 1]);
  }

  /** An OPTIONS request on a path that some root matches is never answered 404. */
  lemma OptionsIsNeverNotFound(roots: seq<Handler>, path: string, host: Host, info: UriInfo, fuel: nat)
    requires Choose(Templates(roots, HandlerTemplate), path, false).Some?
    ensures Dispatch(roots, path, OPTIONS, host, info, fuel) != NotFound
  {
    var (i, m) := Choose(Templates(roots, HandlerTemplate), path, false).value;
    assert FindResourceMethods(roots[i].methods, m.remaining.GetOr(""), OPTIONS).Some?;
  }

  /** When the chosen root declares no OPTIONS method for the path, OPTIONS answers 204 with the
      root's allowed verbs for its remainder. */
  lemma OptionsAnswersAllowed(roots: seq<Handler>, path: string, host: Host, info: UriInfo, fuel: nat)
    requires Choose(Templates(roots, HandlerTemplate), path, false).Some?
    requires var (i, m) := Choose(Templates(roots, HandlerTemplate), path, false).value;
             FindMethod(roots[i].methods, m.remaining.GetOr(""), OPTIONS).None?
    ensures var (i, m) := Choose(Templates(roots, HandlerTemplate), path, false).value;
            Dispatch(roots, path, OPTIONS, host, info, fuel) ==
              PassThrough(Response(204, Allowed(roots[i].methods, m.remaining.GetOr(""))))
  {
    var (i, m) := Choose(Templates(roots, HandlerTemplate), path, false).value;
    var rem := m.remaining.GetOr("");
    var rm := Options(rem, roots[i].methods);
    assert FindResourceMethods(roots[i].methods, rem, OPTIONS) == Some(rm);
    var res := Resolve(roots, path, OPTIONS, host, fuel);
    assert res.found == Success(Some(rm));
    AnswerFollowsCall(rm, host, info, res.matched[|res.matched| - 1]);
  }
}
