/**
 * The repository's integration scenario: two request-scoped services,
 * `ServiceOne` depending on `ServiceTwo` through an `autowired` attribute,
 * registered by scanning and used within one request.
 */
module Scenario {
  import opened Objects
  import opened Descriptors
  import opened ServiceTable
  import opened Registration
  import opened BaseServices

  /** The class `ServiceTwo`, used as the interface key of the dependency. */
  const ServiceTwoKey: Interface := Interface(2, "ServiceTwo", false)

  /** What the scan callback of `@service(scope='request') class ServiceOne` registers. */
  const ServiceOneFactory: ServiceRegistration := FactoryService(RequestScopedClass(1), BaseInterface, BaseInterface, "")

  /** What the scan callback of `@service(scope='request') class ServiceTwo` registers. */
  const ServiceTwoFactory: ServiceRegistration := FactoryService(RequestScopedClass(2), BaseInterface, BaseInterface, "")

  /**
   * `config.scan_services()` over the test module: both classes are declared
   * with `@service(scope='request')`, so each gets a per-request factory and
   * nothing is constructed or published yet.
   */
  method ScanServices() returns (config: Configurator)
    ensures fresh(config) && fresh(config.registry)
    ensures config.registry.utilities == map[] && config.registry.services == null
    ensures |config.registrations| == 2
    ensures ServiceOneFactory in config.registrations && ServiceTwoFactory in config.registrations
  {
    var registry := new HostRegistry();
    config := new Configurator(registry);
    var decl := Service(scope := RequestScope);
    var one := config.RegisterDeclared(decl.value, RequestScopedClass(1));
    var two := config.RegisterDeclared(decl.value, RequestScopedClass(2));
    assert config.registrations[0] == ServiceOneFactory;
    assert config.registrations[1] == ServiceTwoFactory;
  }

  /**
   * The request's service locator: `find_service(ServiceTwo, context, '')`
   * is answered by ServiceTwo's per-request factory; every other lookup fails.
   */
  function Locator(lookup: Lookup): Result<Value>
  {
    if lookup.FindService? && lookup.iface == ServiceTwoKey && lookup.name == "" then
      WrappedFactory(ServiceTwoFactory.wraps, lookup.context, lookup.request)
    else Err(LookupFailed)
  }

  /** The `ServiceTwo` instance built for `request`. */
  function ServiceTwoFor(request: Value): Value
    requires HasRegistry(request)
  {
    Obj(2, map["request" := request, "registry" := request.attrs["registry"]])
  }

  /**
   * `class ServiceOne` with `dependency = autowired(ServiceTwo)`, and the
   * instance its per-request factory builds for `request`: its attributes are
   * those the constructor sets, with nothing cached yet.  The factory's
   * read-only result becomes a mutable `PyInstance` of the class holding the
   * descriptor; the model ties the two together here, not through the id.
   */
  method BuildServiceOne(request: Value) returns (serviceOne: PyInstance, dependency: ReifyAttr)
    requires HasRegistry(request)
    ensures fresh(serviceOne) && fresh(serviceOne.cls) && fresh(dependency)
    ensures serviceOne.cls.dict == map["dependency" := Ref(dependency)]
    ensures dependency.names == Some(["dependency"]) && dependency.calls == 0
    ensures serviceOne.attrs == map["request" := request, "registry" := request.attrs["registry"]]
    ensures dependency.wrapped(serviceOne.attrs) == Ok(ServiceTwoFor(request))
  {
    dependency := Autowired(Locator, ServiceTwoKey);
    var serviceOneClass := new PyClass(map["dependency" := Ref(dependency)]);
    dependency.SetName(serviceOneClass, "dependency");

    RequestScopedPerRequestConstruction(1, NoneValue, request);
    var made := WrappedFactory(ServiceOneFactory.wraps, NoneValue, request);
    serviceOne := new PyInstance(serviceOneClass, made.value.attrs);

    assert AutowiredLookup(ServiceTwoKey, "", made.value.attrs) ==
           Ok(FindService(request, ServiceTwoKey, GetAttrOr(request, "context", NoneValue), ""));
    RequestScopedPerRequestConstruction(2, NoneValue, request);
  }

  /**
   * Build `ServiceOne` for a request and read its `dependency` twice.  The
   * first read resolves `ServiceTwo` through the locator and caches it on the
   * instance; the second read is answered from the instance's attribute table,
   * so the wrapped computation runs exactly once.
   */
  method IntegrationScenario()
    returns (request: Value, serviceOne: PyInstance, dependency: ReifyAttr, first: Result<Value>, second: Result<Value>)
    ensures HasRegistry(request)
    ensures serviceOne.cls.dict == map["dependency" := Ref(dependency)]
    ensures first == Ok(Obj(2, map["request" := request, "registry" := request.attrs["registry"]]))
    ensures serviceOne.attrs ==
              map["request" := request, "registry" := request.attrs["registry"], "dependency" := first.value]
    ensures second == Ok(serviceOne.attrs["dependency"]) && second == first
    ensures dependency.calls == 1
  {
    var config := ScanServices();
    request := Obj(100, map["registry" := Ref(config.registry)]);
    serviceOne, dependency := BuildServiceOne(request);
    ghost var before := serviceOne.attrs;
    assert DescriptorAt(serviceOne.cls.dict, "dependency") == {dependency};
    first := ReadAttr(serviceOne, "dependency");
    CachedMeaning(before, ["dependency"], ServiceTwoFor(request));
    second := ReadAttr(serviceOne, "dependency");
  }
}
