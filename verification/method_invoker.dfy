/** MethodInvoker: builds the argument list of a resource method, one argument per declared
    parameter, and invokes the method on the last matched resource. A parameter is bound from
    the first value provider that supplies a value list, converted to the parameter's type; when
    nothing is supplied or nothing converts, it is injected from the context instead. */
module MethodInvoker {
  import opened Wrappers
  import opened Resources

  // ---------------------------------------------------------------------------
  // Value providers
  // ---------------------------------------------------------------------------

  /** The providers, in the order they are consulted. */
  datatype Provider = PathParamProvider | QueryParamProvider

  const Providers: seq<Provider> := [PathParamProvider, QueryParamProvider]

  /** ValueProvider.provide. Both providers read UriInfo.getPathParameters(): the query
      provider does not read query parameters. A provider supplies nothing when its annotation
      is absent or when the map has no entry under the annotation's value. */
  function Provide(pr: Provider, p: Param, info: UriInfo): (r: Option<Values>)
    ensures r.Some? <==> (var key := (if pr.PathParamProvider? then p.pathParam else p.queryParam);
                          key.Some? && key.value in info.pathParameters)
    ensures r.Some? ==> r.value in info.pathParameters.Values
    ensures r.Some? ==> (var key := (if pr.PathParamProvider? then p.pathParam else p.queryParam);
                         r.value == info.pathParameters[key.value])
  {
    var key := if pr.PathParamProvider? then p.pathParam else p.queryParam;
    match key
    case None => None
    case Some(name) => if name in info.pathParameters then Some(info.pathParameters[name]) else None
  }

  /** The value list of the first provider in ps that supplies one (filter(isPresent).findFirst()). */
  function FirstProvided(ps: seq<Provider>, p: Param, info: UriInfo): (r: Option<Values>)
    ensures r.None? <==> forall k :: 0 <= k < |ps| ==> Provide(ps[k], p, info).None?
    ensures r.Some? ==> exists k :: 0 <= k < |ps| && Provide(ps[k], p, info) == r
                                    && forall j :: 0 <= j < k ==> Provide(ps[j], p, info).None?
  {
    if ps == [] then None
    else
      match Provide(ps[0], p, info)
      case Some(vs) => Some(vs)
      case None =>
        var r := FirstProvided(ps[1..], p, info);
        assert forall k :: 1 <= k < |ps| ==> ps[k] == ps[1..][k - 1];
        if r.Some? then
          var k :| 0 <= k < |ps[1..]| && Provide(ps[1..][k], p, info) == r
                   && forall j :: 0 <= j < k ==> Provide(ps[1..][j], p, info).None?;
          assert Provide(ps[k + 1], p, info) == r;
          r
        else r
  }

  /** The path provider wins whenever it supplies a value; the query provider is consulted
      only when it does not. */
  lemma PathBeforeQuery(p: Param, info: UriInfo)
    ensures p.pathParam.Some? && p.pathParam.value in info.pathParameters ==>
              FirstProvided(Providers, p, info) == Some(info.pathParameters[p.pathParam.value])
    ensures !(p.pathParam.Some? && p.pathParam.value in info.pathParameters) ==>
              FirstProvided(Providers, p, info) == Provide(QueryParamProvider, p, info)
  {
    assert Providers[1..] == [QueryParamProvider];
    assert Providers[1..][1..] == [];
  }

  // ---------------------------------------------------------------------------
  // Conversion
  // ---------------------------------------------------------------------------

  /** The types of the primitive converter table. */
  const PrimitiveTypes: set<TypeName> :=
    {"int", "byte", "char", "short", "java.lang.String", "boolean", "float", "double"}

  /** The primitive table: present for the listed types, applied to the first value. */
  function PrimitiveStage(c: Converters, t: TypeName, vs: Values): Option<Value> {
    if t in PrimitiveTypes then Some(c.parse(t, vs[0])) else None
  }

  /** ConverterConstructor.convert: a public constructor taking one String. */
  function ConstructorStage(c: Converters, t: TypeName, s: string): Option<Value> {
    if c.shape(t).stringConstructor then Some(c.construct(t, s)) else None
  }

  /** ConverterFactory.convert: a public static valueOf(String). */
  function FactoryStage(c: Converters, t: TypeName, s: string): Option<Value> {
    if c.shape(t).staticValueOf then Some(c.valueOf(t, s)) else None
  }

  /** MethodInvoker.convert: the first stage that yields a value. */
  function Convert(c: Converters, t: TypeName, vs: Values): (r: Option<Value>)
    ensures r.None? <==> t !in PrimitiveTypes && !c.shape(t).stringConstructor && !c.shape(t).staticValueOf
    ensures t in PrimitiveTypes ==> r == Some(c.parse(t, vs[0]))
    ensures t !in PrimitiveTypes && c.shape(t).stringConstructor ==> r == Some(c.construct(t, vs[0]))
    ensures t !in PrimitiveTypes && !c.shape(t).stringConstructor && c.shape(t).staticValueOf ==>
              r == Some(c.valueOf(t, vs[0]))
  {
    match PrimitiveStage(c, t, vs)
    case Some(v) => Some(v)
    case None =>
      match ConstructorStage(c, t, vs[0])
      case Some(v) => Some(v)
      case None => FactoryStage(c, t, vs[0])
  }

  /** Every stage reads only the first value of the list. */
  lemma ConvertReadsFirstValue(c: Converters, t: TypeName, vs: Values, ws: Values)
    requires vs[0] == ws[0]
    ensures Convert(c, t, vs) == Convert(c, t, ws)
  {
  }

  // ---------------------------------------------------------------------------
  // Injection
  // ---------------------------------------------------------------------------

  /** injectParameter: the first provided value list, converted; nothing when no provider
      supplies one or when the value list does not convert. */
  function InjectParameter(p: Param, info: UriInfo, c: Converters): (r: Option<Value>)
    ensures r.Some? <==> FirstProvided(Providers, p, info).Some? && Convert(c, p.typ, FirstProvided(Providers, p, info).value).Some?
    ensures r.Some? ==> r == Convert(c, p.typ, FirstProvided(Providers, p, info).value)
  {
    match FirstProvided(Providers, p, info)
    case None => None
    case Some(vs) => Convert(c, p.typ, vs)
  }

  /** injectContext: the ResourceContext or the UriInfo by type, anything else from
      ResourceContext.getResource, where null fails as Optional.of(null) does. */
  function InjectContext(p: Param, host: Host, info: UriInfo): (r: Result<Value, Failure>)
    ensures p.typ == ResourceContextType ==> r == Success(Context)
    ensures p.typ == UriInfoType ==> r == Success(Info(info))
    ensures r.Failure? <==> p.typ != ResourceContextType && p.typ != UriInfoType && host.getResource(p.typ).Null?
    ensures r.Failure? ==> r.error == NullContextObject(p.typ)
    ensures r.Success? ==> r.value != Null
    ensures r.Success? && p.typ != ResourceContextType && p.typ != UriInfoType ==> r.value == host.getResource(p.typ)
  {
    if p.typ == ResourceContextType then Success(Context)
    else if p.typ == UriInfoType then Success(Info(info))
    else
      var v := host.getResource(p.typ);
      if v.Null? then Failure(NullContextObject(p.typ)) else Success(v)
  }

  /** The argument for one parameter: injectParameter(..).or(() -> injectContext(..)). A
      parameter that a provider supplies and that converts is bound to the converted value;
      otherwise it falls back to context injection, whatever the providers supplied. */
  function Argument(p: Param, host: Host, info: UriInfo): (r: Result<Value, Failure>)
    ensures var provided := FirstProvided(Providers, p, info);
            if provided.Some? && Convert(host.converters, p.typ, provided.value).Some?
            then r == Success(Convert(host.converters, p.typ, provided.value).value)
            else r == InjectContext(p, host, info)
  {
    match InjectParameter(p, info, host.converters)
    case Some(v) => Success(v)
    case None => InjectContext(p, host, info)
  }

  /** The arguments of a call, in declaration order; the first parameter that cannot be
      injected aborts the call. */
  function Arguments(ps: seq<Param>, host: Host, info: UriInfo): (r: Result<seq<Value>, Failure>)
    ensures r.Success? ==> |r.value| == |ps|
    ensures r.Success? ==> forall i :: 0 <= i < |ps| ==> Argument(ps[i], host, info) == Success(r.value[i])
    ensures r.Failure? ==> exists i :: 0 <= i < |ps| && Argument(ps[i], host, info) == Failure(r.error)
                                       && forall j :: 0 <= j < i ==> Argument(ps[j], host, info).Success?
    ensures r.Failure? <==> exists i :: 0 <= i < |ps| && Argument(ps[i], host, info).Failure?
  {
    Collect(p => Argument(p, host, info), ps)
  }

  /** MethodInvoker.invoke: the method runs on the receiver, the last matched resource, with
      the bound arguments; an exception it throws becomes a failure. */
  function Invoke(m: MethodDecl, host: Host, info: UriInfo, receiver: Value): (r: Result<Value, Failure>)
    ensures r.Success? ==> exists args :: Arguments(m.params, host, info) == Success(args)
                                         && host.invoke(receiver, m, args) == Returned(r.value)
    ensures Arguments(m.params, host, info).Failure? ==> r == Failure(Arguments(m.params, host, info).error)
    ensures r.Failure? && Arguments(m.params, host, info).Success? ==>
              r.error.Raised? && host.invoke(receiver, m, Arguments(m.params, host, info).value) == Threw(r.error.exception)
  {
    match Arguments(m.params, host, info)
    case Failure(f) => Failure(f)
    case Success(args) =>
      match host.invoke(receiver, m, args)
      case Returned(v) => Success(v)
      case Threw(e) => Failure(Raised(e))
  }
}
