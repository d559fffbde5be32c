# pyramid_di, modelled in Dafny

`pyramid_di` is a small dependency-injection layer over Pyramid and
`pyramid_services`. Classes declare themselves as services with a scope. A
`global` service is built once, with the application registry. A `request`
service is built by a per-request factory. Other classes declare lazily
resolved dependencies with `autowired`, and those are cached on the
consuming instance by the `reify_attr` descriptor.

This project models `pyramid_di/__init__.py` in seven modules:

- `Naming` (naming.dfy): `_underscore` and the leading-`I` stripping, as pure functions over ASCII strings.
- `Objects` (objects.dfy): the part of Python's object model the code touches.
  - `Ref` values (registry, descriptor, instance) are compared by identity.
  - `Obj` values (requests, built services) are compared structurally. Two instances of one class with equal attributes are the same value.
  - Exceptions are error values.
  - An interface has a `__name__` and an "is an InterfaceClass" flag.
  - A class has a dict; an instance has an attribute table.
- `Descriptors` (descriptor.dfy): `reify_attr` as a class with a mutable `names` field. `ReadAttr` is the attribute read that checks the instance table before the class dict.
- `ServiceTable` (service_registry.dfy): `ServiceRegistry` as a class, with an append-only entry list and a derived-name attribute table. It also holds the application registry's utility map and `get_service_registry`.
- `Registration` (registration.dfy): `register_di_service` as a method of the configurator, the `service` scope check, and the scan callback.
- `BaseServices` (base_services.dfy): the constructors of `BaseService` and `RequestScopedBaseService`, and the lookup choice of `autowired`.
- `Scenario` (scenario.dfy): the repository's integration test, with request-scoped `ServiceOne` autowiring `ServiceTwo`.

Host facilities are parameters or abstract state:
- `queryUtility` and `registerUtility` act on a map keyed by (interface, name).
- `register_service` and `register_service_factory` are recorded as a list of calls.
- `find_service` and `getUtility` are an abstract resolver, given a description of the lookup.
- A service factory is a function from keyword arguments to an instance or an exception.
- A getter wrapped by `reify_attr` is a function of the instance's attribute table.

## Model

| member | source | states |
|---|---|---|
| Naming.UnderscoreLength | pyramid_di/__init__.py:10-51 | the output is exactly one character longer than the input per boundary position (an upper-case letter after index 0, preceded by `[a-z0-9]` or followed by `[a-z]`) |
| Naming.UnderscoreAt | pyramid_di/__init__.py:10-51 | input character j appears lower-cased at offset j plus the number of boundaries up to j, preceded by an inserted `_` exactly when j is a boundary; with the length this fixes the whole output |
| Naming.UnderscoreFirst | pyramid_di/__init__.py:10-51 | no leading underscore is added: the first output character is the lowered first input character |
| Naming.UnderscoreNoUpper | pyramid_di/__init__.py:51 | the output contains no `A-Z` character |
| Naming.UnderscoreNoUpperUnchanged | pyramid_di/__init__.py:10-51 | a string without `A-Z` comes back unchanged |
| Naming.UnderscoreIdempotent | pyramid_di/__init__.py:50-51 | rewriting an already rewritten name changes nothing |
| Naming.UnderscoreServiceTwo | pyramid_di/__init__.py:50-51 | `ServiceTwo` becomes `service_two` |
| Naming.UnderscoreHttpServer | pyramid_di/__init__.py:50-51 | `HTTPServer` becomes `http_server`: a run of capitals splits before its last letter when a lower-case letter follows |
| Naming.UnderscoreFooBarService | pyramid_di/__init__.py:50-51 | `FooBarService` becomes `foo_bar_service` |
| Naming.AttrNameStripsPrefix | pyramid_di/__init__.py:54-67 | for a name matching `^I[A-Z]` the derived name is `_underscore` of the whole name without its leading `i` (and without the `_` the rewrite would put after it) |
| Naming.AttrNameIfaceFirst | pyramid_di/__init__.py:63-67 | for an interface-style name the derived name starts with the lowered second letter, never with the stripped `I` |
| Naming.AttrNameIServiceTwo | pyramid_di/__init__.py:63-67 | `IServiceTwo` is published as `service_two`, the same name `ServiceTwo` gets |
| Naming.AttrNameBaseInterface | pyramid_di/__init__.py:63-67 | zope's `Interface` does not match `^I[A-Z]` and is published as `interface` |
| Descriptors.CachedMeaning | pyramid_di/__init__.py:38-39 | after setting every bound name, each bound name holds the value and every other attribute is as before |
| Descriptors.ReifyAttr.constructor | pyramid_di/__init__.py:20-23 | a new descriptor keeps the getter, has no names yet and has not run the getter |
| Descriptors.ReifyAttr.SetName | pyramid_di/__init__.py:43-47 | the first binding sets names to `[name]`; later ones append, so every alias is kept |
| Descriptors.ReifyAttr.Get | pyramid_di/__init__.py:25-41 | read through the class: returns the descriptor and changes nothing; read through an instance: runs the getter once (a ghost call counter), returns the getter's result and, on success, fixes names (kept once set, else exactly the class-dict keys bound to this descriptor, without repeats) and caches the value under every name, touching no other attribute; a raising getter changes nothing else |
| Descriptors.ReadAttr | pyramid_di/__init__.py:25-41 | an attribute present on the instance is returned without invoking the descriptor, which is unchanged; otherwise a descriptor in the class dict is invoked with the effect of `Get`; a plain class value is returned as it is; a missing name is an AttributeError |
| ServiceTable.IndexKeys | pyramid_di/__init__.py:61-67 | the table has an attribute exactly for the derived names of the registered entries |
| ServiceTable.IndexLatest | pyramid_di/__init__.py:61-67 | a derived attribute holds the instance of the last entry with that name: re-registration overwrites silently |
| ServiceTable.ServiceRegistry.constructor | pyramid_di/__init__.py:58-59 | a new table has no entries and no derived attributes |
| ServiceTable.ServiceRegistry.RegisterService | pyramid_di/__init__.py:61-67 | appends exactly the (instance, interface) pair after the earlier entries, sets the derived attribute to the instance, and keeps the derived attributes equal to those the entries produce |
| ServiceTable.GetServiceRegistry | pyramid_di/__init__.py:70-74 | creates an empty table only when the registry has none, otherwise returns the existing one; utilities are untouched |
| ServiceTable.GetServiceRegistryTwice | pyramid_di/__init__.py:70-74 | two calls return the same table object |
| Registration.Configurator.RegisterDiService | pyramid_di/__init__.py:77-113 | keyword-only scope, interface, name and context default to `global`, `Interface`, `''` and `Interface`; global scope: with a utility already there nothing changes; otherwise the factory gets `registry=` once, its instance is appended to the table, stored as a utility only for an InterfaceClass, and passed to `register_service`; a raising factory changes nothing; any other scope builds nothing and registers the per-request wrapper of the factory |
| Registration.Configurator.RegisterDeclared | pyramid_di/__init__.py:127-136 | the scan callback registers the decorated class with exactly the declared interface, name, context and scope |
| Registration.Configurator.RegisterGlobalTwice | pyramid_di/__init__.py:85-102 | with the default scope, a second global registration of an InterfaceClass key builds nothing and adds nothing; with any other key the factory runs again, both calls construct, and the table gets one entry per call |
| Registration.Service | pyramid_di/__init__.py:116-125 | with the parameters defaulting as at lines 116-119, succeeds exactly for scope `global` or `request`, keeping the declared parameters; any other scope is a ValueError naming it, raised before the decorator exists |
| Registration.ServiceDefaults | pyramid_di/__init__.py:116-123 | `Service()` with no arguments gives a global declaration of the base interface; `application` is rejected |
| BaseServices.BaseServiceInit | pyramid_di/__init__.py:159-166 | succeeds exactly when `registry` is the only keyword, setting `registry`; without it a TypeError with the source's message; leftover keywords make `object.__init__` raise a TypeError |
| BaseServices.RequestScopedInit | pyramid_di/__init__.py:169-181 | without `request` a TypeError; a request without `registry` an AttributeError; otherwise succeeds exactly when no other keyword than `request`/`registry` is passed, setting `request` and `registry = request.registry` |
| BaseServices.BaseServiceGlobalConstruction | pyramid_di/__init__.py:88 | global registration builds a `BaseService` class bound to the application registry |
| BaseServices.RequestScopedPerRequestConstruction | pyramid_di/__init__.py:106-107 | the per-request wrapper builds a request-scoped service bound to the request and to the request's registry |
| BaseServices.MismatchedScopeFails | pyramid_di/__init__.py:84-113 | a `RequestScopedBaseService` class under global scope and a `BaseService` class under request scope both fail with the constructors' TypeError |
| BaseServices.Autowired | pyramid_di/__init__.py:147-156 | with `interface` and `name` defaulting to `Interface` and `''`, yields a fresh unbound descriptor that has not run yet and whose getter is the autowired lookup |
| BaseServices.RequestScopedLookup | pyramid_di/__init__.py:150-152 | a request-scoped service resolves dependencies with `find_service` on its own request, passing the request's `context` or None |
| BaseServices.BaseServiceLookup | pyramid_di/__init__.py:154 | a global service resolves dependencies with `getUtility` on the registry it was built with |
| Scenario.ScanServices | tests/test_integration.py:9-27 | scanning the two `@service(scope='request')` classes makes exactly two registrations, a per-request factory for each class under the default interface key; no utility is stored and no service table is created |
| Scenario.BuildServiceOne | tests/test_integration.py:15-20 | `ServiceOne`'s class dict holds the `autowired(ServiceTwo)` descriptor bound under `dependency`; the instance built for a request holds only `request` and `registry`, and the descriptor's getter on it yields that request's `ServiceTwo` |
| Scenario.IntegrationScenario | tests/test_integration.py:9-40 | within one request, the first read of `ServiceOne.dependency` gives the `ServiceTwo` instance bound to that request and its registry, and caches it on the `ServiceOne` instance; the second read returns the cached attribute, equal to the first, and the descriptor's getter has run exactly once |

## Left out

- Venusian `attach` and scanning, `scan_services`, `includeme` and `config.include` (lines 138, 184-193): framework wiring. The scan callback itself is modelled by `RegisterDeclared`. `includeme` also installs a fresh table at line 193; that is not modelled.
- The internals of zope.interface and `pyramid_services`: utility lookup, `register_service` caching, `find_service`, and the request lifecycle. They are an abstract map, a list of recorded calls, and an abstract resolver. So "one request-scoped instance per request" is the host's caching and is not modelled.
- Factories are pure functions. Two calls with the same arguments give the same value, so a fresh object per construction is not represented. `RegisterGlobalTwice` therefore does not claim that its two constructions are distinct objects (line 88 builds a new one each time).
- ServiceTable.HostRegistry.QueryUtility: an exact lookup of the (interface, name) key. The real `queryUtility` also finds a utility registered under an interface that extends the one asked for. So with the default `Interface` key, a utility under any other interface and the same name returns None here but might block construction in the host.
- Scenario.ScanServices: the model does not fix the order in which the scan visits the two classes; it states only which registrations are made. That order is chosen by the scanning library, which is not part of this model.
- Scenario.BuildServiceOne: the `Obj` the per-request factory returns is copied into a mutable instance of the class that holds the descriptor. Nothing ties the factory's class id to that class object.
- Scenario.IntegrationScenario and Scenario.BuildServiceOne: the request's locator (`Scenario.Locator`) is given, not derived. It answers `find_service(ServiceTwo, context, '')` with ServiceTwo's registered per-request factory, and fails every other lookup. Both classes are declared with the default interface key, so how `pyramid_services` tells them apart is host behaviour outside this model.
- Descriptors.ReifyAttr.Get: the class dict is a map, so the ORDER in which the scan lists the bound names is not modelled. Only the set of names and the absence of repeats are stated.
- Descriptors.ReifyAttr.Get: the getter sees a snapshot of the instance's attribute table, not the live object. A getter that changes the instance is not modelled.
- Descriptors.ReadAttr: lookup uses the instance's own class dict only. It does not model the MRO, data descriptors, `__slots__` or `__getattr__`.
- `setattr` on an instance is modelled as an update of its attribute table.
- `hasattr`/`getattr` are read from instance attribute tables. Objects that are only known by reference have no readable attributes here.
- `update_wrapper` at line 22 only copies function metadata. It is not modelled. Note that it is not imported in lines 1-7, so as written `reify_attr(...)` would raise NameError. The model assumes `functools.update_wrapper` was meant.
- A derived attribute named `__services__` would replace the entry list itself. The model keeps the list and the derived attributes apart.
- `hasattr(registry, 'services')` with a value that is not a `ServiceRegistry` is not modelled. The registry's `services` is a table or absent.
- Unicode: only ASCII letters are lowered, and the rewrite pattern's character classes are ASCII.
- Thread races on the first read of a `reify_attr` attribute are not modelled.

## Behaviour of the code worth knowing

The model follows `pyramid_di/__init__.py` as written:
- A global registration that finds a utility already stored is skipped silently, with no warning (lines 87-102).
- The scope is taken only from the `scope` argument, never from the class (lines 80, 85, 119).
- A `reify_attr` read that comes before `__set_name__` does not fail. It scans the class dict for itself (lines 30-35).
- `service` accepts only `'global'` and `'request'` (line 120). `register_di_service` treats every scope other than `'global'` as per-request (line 104).
- A duplicate global registration is detected only for InterfaceClass keys, because only those are stored as utilities (lines 87, 93-96). With a plain class as the key, every global registration constructs and appends again (`RegisterGlobalTwice`).
- `getattr(self.request, 'context', None)` gives None only when the request has no `context` attribute, not when the context is falsy (line 151).
