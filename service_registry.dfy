/**
 * The service table (`ServiceRegistry`): an append-only list of
 * (instance, interface) pairs plus one attribute per derived name, and the
 * accessor that creates it on the application registry on first use.
 */
module ServiceTable {
  import opened Objects
  import opened Naming

  type Entry = (Value, Interface)

  /** The attribute name an entry is published under. */
  function EntryName(e: Entry): string
  {
    AttrName(e.1.name)
  }

  /** The attribute table produced by registering entries in order, later ones overwriting. */
  function Index(entries: seq<Entry>): map<string, Value>
  {
    if entries == [] then map[]
    else Index(entries[..|entries| - 1])[EntryName(entries[|entries| - 1]) := entries[|entries| - 1].0]
  }

  /** A name is published exactly when some registered entry derives it. */
  lemma {:induction false} IndexKeys(entries: seq<Entry>, k: string)
    ensures k in Index(entries) <==> exists j :: 0 <= j < |entries| && EntryName(entries[j]) == k
  {
    if entries != [] {
      var init := entries[..|entries| - 1];
      IndexKeys(init, k);
      if exists j :: 0 <= j < |init| && EntryName(init[j]) == k {
        var j :| 0 <= j < |init| && EntryName(init[j]) == k;
        assert entries[j] == init[j];
      }
      if exists j :: 0 <= j < |entries| && EntryName(entries[j]) == k {
        var j :| 0 <= j < |entries| && EntryName(entries[j]) == k;
        if j < |init| {
          assert init[j] == entries[j];
        }
      }
    }
  }

  /** A published name holds the instance of the last entry deriving it: re-registration overwrites. */
  lemma {:induction false} IndexLatest(entries: seq<Entry>, j: nat)
    requires j < |entries|
    requires forall j' :: j < j' < |entries| ==> EntryName(entries[j']) != EntryName(entries[j])
    ensures EntryName(entries[j]) in Index(entries)
    ensures Index(entries)[EntryName(entries[j])] == entries[j].0
  {
    var init := entries[..|entries| - 1];
    if j < |entries| - 1 {
      assert init[j] == entries[j];
      forall j' | j < j' < |init|
        ensures EntryName(init[j']) != EntryName(init[j])
      {
        assert init[j'] == entries[j'];
      }
      IndexLatest(init, j);
    }
  }

  /** `ServiceRegistry`: `services` is the `__services__` list, `attrs` the attributes set on it. */
  class ServiceRegistry {
    var services: seq<Entry>
    var attrs: map<string, Value>

    /** Every derived attribute holds the latest instance registered under that name. */
    ghost predicate Valid()
      reads this
    {
      attrs == Index(services)
    }

    constructor ()
      ensures services == [] && attrs == map[] && Valid()
    {
      services := [];
      attrs := map[];
    }

    /** `_register_service(instance, interface)`. */
    method RegisterService(instance: Value, iface: Interface)
      modifies this
      ensures services == old(services) + [(instance, iface)]
      ensures attrs == old(attrs)[AttrName(iface.name) := instance]
      ensures old(Valid()) ==> Valid()
    {
      var name := iface.name;
      if IsIfaceName(name) {
        name := name[1..];
      }
      ghost var before := services;
      services := services + [(instance, iface)];
      assert services[..|services| - 1] == before;
      attrs := attrs[Underscore(name) := instance];
    }
  }

  /**
   * The application registry (zope's component registry as Pyramid uses it):
   * its named utilities keyed by (interface, name), and its `services`
   * attribute, null while absent.
   */
  class HostRegistry {
    var utilities: map<(Interface, string), Value>
    var services: ServiceRegistry?

    constructor ()
      ensures utilities == map[] && services == null
    {
      utilities := map[];
      services := null;
    }

    /** `queryUtility(interface, name=name)`: None when nothing is registered. */
    function QueryUtility(iface: Interface, name: string): Value
      reads this
    {
      if (iface, name) in utilities then utilities[(iface, name)] else NoneValue
    }

    /** The service table's entries, empty while the table does not exist. */
    ghost function Table(): seq<Entry>
      reads this, services
    {
      if services == null then [] else services.services
    }

    /** The service table's attributes, empty while the table does not exist. */
    ghost function TableAttrs(): map<string, Value>
      reads this, services
    {
      if services == null then map[] else services.attrs
    }

    ghost predicate TableValid()
      reads this, services
    {
      services != null ==> services.Valid()
    }
  }

  /** `get_service_registry(registry)`: create the table only when absent. */
  method GetServiceRegistry(registry: HostRegistry) returns (table: ServiceRegistry)
    modifies registry
    ensures registry.services == table
    ensures old(registry.services) != null ==> table == old(registry.services)
    ensures old(registry.services) == null ==>
              fresh(table) && table.services == [] && table.attrs == map[] && table.Valid()
    ensures registry.utilities == old(registry.utilities)
  {
    if registry.services == null {
      registry.services := new ServiceRegistry();
    }
    table := registry.services;
  }

  /** Later calls hand back the very table the first call created. */
  method GetServiceRegistryTwice(registry: HostRegistry) returns (first: ServiceRegistry, second: ServiceRegistry)
    modifies registry
    ensures first == second && registry.services == first
    ensures old(registry.services) != null ==> first == old(registry.services)
  {
    first := GetServiceRegistry(registry);
    second := GetServiceRegistry(registry);
  }
}
