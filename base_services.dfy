/**
 * The constructor contracts of `BaseService` and `RequestScopedBaseService`,
 * and the lookup an `autowired` attribute performs.  A constructor is
 * modelled by the attribute table it gives the new instance, or by the
 * exception it raises.
 */
module BaseServices {
  import opened Objects
  import opened Descriptors
  import opened Registration

  const RegistryMissing: string := "Registry to the base business must be provided"
  const RequestMissing: string := "Request to the base business must be provided"
  /** What `object.__init__` raises when keyword arguments are left over. */
  const ExtraArguments: string := "object.__init__() takes exactly one argument (the instance to initialize)"

  /** `BaseService.__init__(**kw)`: pop `registry`, pass the rest on to `object.__init__`. */
  function BaseServiceInit(kw: map<string, Value>): (r: Result<map<string, Value>>)
    ensures r.Ok? <==> kw.Keys == {"registry"}
    ensures r.Ok? ==> r.value == map["registry" := kw["registry"]]
    ensures "registry" !in kw ==> r == Err(TypeError(RegistryMissing))
    ensures "registry" in kw && r.Err? ==> r == Err(TypeError(ExtraArguments))
  {
    if "registry" !in kw then Err(TypeError(RegistryMissing))
    else if kw.Keys - {"registry"} != {} then Err(TypeError(ExtraArguments))
    else Ok(map["registry" := kw["registry"]])
  }

  /**
   * `RequestScopedBaseService.__init__(**kw)`: pop `request`, set
   * `registry = request.registry` (replacing any registry passed in), then
   * run `BaseService.__init__`.  Reading a request without a `registry`
   * raises AttributeError, which is not turned into a TypeError.
   */
  function RequestScopedInit(kw: map<string, Value>): (r: Result<map<string, Value>>)
    ensures "request" !in kw ==> r == Err(TypeError(RequestMissing))
    ensures "request" in kw && !HasRegistry(kw["request"]) ==> r == Err(AttributeError("registry"))
    ensures r.Ok? <==> "request" in kw && HasRegistry(kw["request"]) && kw.Keys <= {"request", "registry"}
    ensures r.Ok? ==>
              r.value == map["request" := kw["request"], "registry" := kw["request"].attrs["registry"]]
  {
    if "request" !in kw then Err(TypeError(RequestMissing))
    else
      var request := kw["request"];
      if !HasRegistry(request) then Err(AttributeError("registry"))
      else
        var passed := (kw - {"request"})["registry" := request.attrs["registry"]];
        assert passed.Keys - {"registry"} == kw.Keys - {"request", "registry"};
        match BaseServiceInit(passed)
        case Err(e) => Err(e)
        case Ok(attrs) => Ok(attrs["request" := request])
  }

  predicate HasRegistry(request: Value)
  {
    request.Obj? && "registry" in request.attrs
  }

  /**
   * A service class deriving from `BaseService`, as a factory.  `id` names the
   * class, not the instance: two constructions with the same keywords give
   * equal values.
   */
  function BaseServiceClass(id: nat): Factory
  {
    kw => match BaseServiceInit(kw) case Ok(attrs) => Ok(Obj(id, attrs)) case Err(e) => Err(e)
  }

  /** A service class deriving from `RequestScopedBaseService`, as a factory. */
  function RequestScopedClass(id: nat): Factory
  {
    kw => match RequestScopedInit(kw) case Ok(attrs) => Ok(Obj(id, attrs)) case Err(e) => Err(e)
  }

  /** Global registration of a `BaseService` class builds it bound to the application registry. */
  lemma BaseServiceGlobalConstruction(id: nat, registry: Value)
    ensures BaseServiceClass(id)(map["registry" := registry]) == Ok(Obj(id, map["registry" := registry]))
  {
    assert map["registry" := registry].Keys == {"registry"};
  }

  /**
   * The per-request factory of a `RequestScopedBaseService` class builds an
   * instance bound to the request and to the request's own registry.
   */
  lemma RequestScopedPerRequestConstruction(id: nat, context: Value, request: Value)
    requires HasRegistry(request)
    ensures WrappedFactory(RequestScopedClass(id), context, request) ==
            Ok(Obj(id, map["request" := request, "registry" := request.attrs["registry"]]))
  {
    assert map["request" := request].Keys == {"request"};
  }

  /**
   * Registering a base class under the scope meant for the other one fails
   * at construction: global scope passes only `registry`, a request-scoped
   * factory passes only `request`.
   */
  lemma MismatchedScopeFails(id: nat, registry: Value, context: Value, request: Value)
    ensures RequestScopedClass(id)(map["registry" := registry]) == Err(TypeError(RequestMissing))
    ensures WrappedFactory(BaseServiceClass(id), context, request) == Err(TypeError(RegistryMissing))
  {
  }

  /** The lookup an `autowired` getter makes. */
  datatype Lookup =
    | FindService(request: Value, iface: Interface, context: Value, name: string)
    | GetUtility(registry: Value, iface: Interface, name: string)

  /**
   * `autowired(interface, name)`'s getter, up to the host call: an instance
   * with a `request` asks `request.find_service(interface, context, name)`,
   * where context is the request's `context` attribute or None when it has
   * none; any other instance asks `self.registry.getUtility(interface, name)`.
   */
  function AutowiredLookup(iface: Interface, name: string, attrs: map<string, Value>): Result<Lookup>
  {
    if "request" in attrs then
      Ok(FindService(attrs["request"], iface, GetAttrOr(attrs["request"], "context", NoneValue), name))
    else if "registry" in attrs then
      Ok(GetUtility(attrs["registry"], iface, name))
    else
      Err(AttributeError("registry"))
  }

  /** The full getter: the host resolves the lookup, and its lookup error propagates. */
  function AutowiredGetter(iface: Interface, name: string, resolve: Lookup -> Result<Value>,
                           attrs: map<string, Value>): Result<Value>
  {
    match AutowiredLookup(iface, name, attrs)
    case Ok(lookup) => resolve(lookup)
    case Err(e) => Err(e)
  }

  /** `autowired(interface, name)`: a fresh, unbound `reify_attr` around the getter. */
  method Autowired(resolve: Lookup -> Result<Value>, iface: Interface := BaseInterface, name: string := "")
    returns (d: ReifyAttr)
    ensures fresh(d) && d.names == None && d.calls == 0
    ensures forall attrs :: d.wrapped(attrs) == AutowiredGetter(iface, name, resolve, attrs)
  {
    d := new ReifyAttr(attrs => AutowiredGetter(iface, name, resolve, attrs));
  }

  /** A request-scoped service looks its dependencies up on its own request, with the request's context. */
  lemma RequestScopedLookup(kw: map<string, Value>, iface: Interface, name: string)
    requires RequestScopedInit(kw).Ok?
    ensures var request := kw["request"];
            AutowiredLookup(iface, name, RequestScopedInit(kw).value) ==
            Ok(FindService(request, iface, GetAttrOr(request, "context", NoneValue), name))
  {
  }

  /** A global service looks its dependencies up as utilities of the registry it was built with. */
  lemma BaseServiceLookup(kw: map<string, Value>, iface: Interface, name: string)
    requires BaseServiceInit(kw).Ok?
    ensures AutowiredLookup(iface, name, BaseServiceInit(kw).value) == Ok(GetUtility(kw["registry"], iface, name))
  {
  }
}
