/** The static descriptions that stand in for reflection (classes, methods, parameters and their
    annotations), the runtime values that flow through routing, and the ways routing can fail. */
module Resources {
  import opened Wrappers
  import opened UriTemplate

  /** A Java type, by its fully qualified name. */
  type TypeName = string

  const ResourceContextType: TypeName := "jakarta.ws.rs.container.ResourceContext"
  const UriInfoType: TypeName := "jakarta.ws.rs.core.UriInfo"
  const ResponseType: TypeName := "jakarta.ws.rs.core.Response"

  /** A declared method parameter: its type and the values of its @PathParam and @QueryParam
      annotations, when present. */
  datatype Param = Param(typ: TypeName, pathParam: Option<string>, queryParam: Option<string>)

  /** A public method of a resource class: the verbs of its HTTP-method annotations in
      declaration order (@GET gives "GET"), its @Path value, its parameters and its generic
      return type. */
  datatype MethodDecl = MethodDecl(
    name: string,
    verbs: seq<string>,
    path: Option<string>,
    params: seq<Param>,
    returnType: TypeName)

  /** A class: its name, its @Path value and its public methods. */
  datatype ClassDecl = ClassDecl(name: TypeName, path: Option<string>, methods: seq<MethodDecl>)

  /** A non-empty list of strings, the value type of UriInfo.getPathParameters(). */
  type Values = s: seq<string> | |s| > 0 witness [""]

  /** The part of jakarta.ws.rs.core.UriInfo the binding reads. */
  datatype UriInfo = UriInfo(pathParameters: map<string, Values>)

  /** A Java reference: null, an object of a described class (id tells instances apart), an
      OutBoundResponse, the request's ResourceContext, or its UriInfo. */
  datatype Value =
    | Null
    | Object(cls: ClassDecl, id: nat)
    | Response(status: nat, allow: set<string>)
    | Context
    | Info(info: UriInfo)

  /** What Method.invoke does: returns a value or throws (InvocationTargetException). */
  datatype Outcome = Returned(value: Value) | Threw(exception: string)

  /** Why routing or a call did not complete; each is an exception in the source. */
  datatype Failure =
    | TemplateFailure(error: CompileError)     // a @Path value that does not compile
    | MissingPath(cls: TypeName)               // a root class without @Path
    | WrongArgumentCount(methodName: string)   // a locator declaring parameters, invoked with none
    | NullSubResource(methodName: string)      // a locator returning null
    | NullContextObject(typ: TypeName)         // ResourceContext.getResource returning null
    | Raised(exception: string)                // an exception thrown by the invoked method
    | DepthExhausted                           // the locator nesting bound of the model

  /** GenericEntity: a value with the generic type it is written as. */
  datatype Entity = Entity(value: Value, typ: TypeName)

  /** Whether a type has a public constructor taking one String, and a public static
      valueOf(String); an instance valueOf does not count. */
  datatype TypeShape = TypeShape(stringConstructor: bool, staticValueOf: bool)

  /** The conversions the binding can call: the primitive table's parsers, a String
      constructor and a static valueOf, each as an uninterpreted function of the type and the
      text, and the shape of each type. */
  datatype Converters = Converters(
    shape: TypeName -> TypeShape,
    parse: (TypeName, string) -> Value,
    construct: (TypeName, string) -> Value,
    valueOf: (TypeName, string) -> Value)

  /** The environment of a request: ResourceContext.getResource, Method.invoke on a receiver
      with arguments, and the converters. */
  datatype Host = Host(
    getResource: TypeName -> Value,
    invoke: (Value, MethodDecl, seq<Value>) -> Outcome,
    converters: Converters)
}
