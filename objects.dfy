/**
 * The slice of Python's object model the dependency-injection layer touches:
 * values (the mutable ones compared by identity), exceptions as error values, interfaces, and
 * objects with an instance attribute table and a class dict.
 */
module Objects {

  datatype Option<T> = None | Some(value: T)

  /** Exceptions the modelled code raises or lets through. */
  datatype Error =
    | TypeError(message: string)
    | ValueError(message: string)
    | AttributeError(attribute: string)
    | LookupFailed                      // a host lookup found no registration

  datatype Result<T> = Ok(value: T) | Err(error: Error)

  /**
   * A Python value.  `Obj` is an object this layer only reads, seen through
   * its attribute table (a request, a service instance built by a factory);
   * it is compared structurally, so two objects of the same class with equal
   * attributes are one value.  `Ref` is one of the modelled mutable objects
   * (the registry, a descriptor, an instance), compared by identity as `is`
   * does.
   */
  datatype Value =
    | NoneValue
    | Obj(id: nat, attrs: map<string, Value>)
    | Ref(o: object)

  /** `getattr(v, name, default)` on a read-only object. */
  function GetAttrOr(v: Value, name: string, default: Value): Value
  {
    if v.Obj? && name in v.attrs then v.attrs[name] else default
  }

  /**
   * A zope interface (or any class used as an interface key): its identity,
   * its `__name__`, and whether it is an `InterfaceClass`.
   */
  datatype Interface = Interface(id: nat, name: string, isInterfaceClass: bool)

  /** zope.interface.Interface, the default interface key; it is an InterfaceClass. */
  const BaseInterface: Interface := Interface(0, "Interface", true)

  /** A class, with its own `__dict__`. */
  class PyClass {
    var dict: map<string, Value>

    constructor (dict: map<string, Value>)
      ensures this.dict == dict
    {
      this.dict := dict;
    }
  }

  /** An instance of a class, with its own attribute table (`__dict__`). */
  class PyInstance {
    const cls: PyClass
    var attrs: map<string, Value>

    constructor (cls: PyClass, attrs: map<string, Value>)
      ensures this.cls == cls && this.attrs == attrs
    {
      this.cls := cls;
      this.attrs := attrs;
    }
  }
}
