/**
 * `reify_attr`: a memoizing non-data descriptor.  On a read through an
 * instance it computes the wrapped getter once and stores the value on the
 * instance under every attribute name the descriptor is bound to; since it
 * has no `__set__`, those instance entries shadow it from then on.
 */
module Descriptors {
  import opened Objects

  /** The wrapped getter, applied to the instance it is read through (seen as its attribute table). */
  type Getter = map<string, Value> -> Result<Value>

  /** The keys of a class dict whose value is the object d itself. */
  function BoundNames(dict: map<string, Value>, d: object): set<string>
  {
    set k | k in dict && dict[k] == Ref(d)
  }

  predicate NoDuplicates(ns: seq<string>)
  {
    forall i, j :: 0 <= i < j < |ns| ==> ns[i] != ns[j]
  }

  /** An attribute table after `setattr(inst, n, v)` for every n in ns, in order. */
  function Cached(attrs: map<string, Value>, ns: seq<string>, v: Value): map<string, Value>
  {
    if ns == [] then attrs else Cached(attrs, ns[..|ns| - 1], v)[ns[|ns| - 1] := v]
  }

  /** Every name in ns holds v afterwards; every other attribute is untouched. */
  lemma {:induction false} CachedMeaning(attrs: map<string, Value>, ns: seq<string>, v: Value)
    ensures forall n :: n in ns ==> n in Cached(attrs, ns, v) && Cached(attrs, ns, v)[n] == v
    ensures forall k :: k !in ns ==> (k in Cached(attrs, ns, v) <==> k in attrs)
    ensures forall k :: k !in ns && k in attrs ==> Cached(attrs, ns, v)[k] == attrs[k]
  {
    if ns != [] {
      CachedMeaning(attrs, ns[..|ns| - 1], v);
      assert forall n :: n in ns ==> n in ns[..|ns| - 1] || n == ns[|ns| - 1];
    }
  }

  class ReifyAttr {
    const wrapped: Getter
    /** The attribute names the descriptor is bound to; None until it is first bound or read. */
    var names: Option<seq<string>>
    /** How many times `__get__` has run the wrapped computation. */
    ghost var calls: nat

    /** `reify_attr(wrapped)`. */
    constructor (wrapped: Getter)
      ensures this.wrapped == wrapped && names == None && calls == 0
    {
      this.wrapped := wrapped;
      names := None;
      calls := 0;
    }

    /** `__set_name__(owner, name)`: the first binding starts the list, later ones append. */
    method SetName(owner: PyClass, name: string)
      modifies this
      ensures names == Some(if old(names).None? then [name] else old(names).value + [name])
      ensures calls == old(calls)
    {
      if names.None? {
        names := Some([name]);
      } else {
        names := Some(names.value + [name]);
      }
    }

    /**
     * What `__get__(inst, objtype)` does: through the class it yields the
     * descriptor itself and changes nothing; through an instance it yields
     * wrapped(inst), and on success fixes `names` (keeping it once set,
     * otherwise taking exactly the keys of the class dict bound to this
     * descriptor) and caches the value under each of them.  A failing getter
     * leaves everything else as it was.  Every read through an instance runs
     * the wrapped computation once.
     */
    twostate predicate GetEffect(inst: PyInstance?, objtype: PyClass, new r: Result<Value>)
      reads this, inst, objtype
    {
      calls == (if inst == null then old(calls) else old(calls) + 1) &&
      if inst == null then
        r == Ok(Ref(this)) && names == old(names)
      else
        var got := wrapped(old(inst.attrs));
        r == got &&
        if got.Err? then
          names == old(names) && inst.attrs == old(inst.attrs)
        else
          names.Some? &&
          (old(names).Some? ==> names == old(names)) &&
          (old(names).None? ==>
             (forall n :: n in names.value <==> n in BoundNames(objtype.dict, this)) &&
             NoDuplicates(names.value)) &&
          inst.attrs == Cached(old(inst.attrs), names.value, got.value)
    }

    /** `__get__(inst, objtype)`. */
    method Get(inst: PyInstance?, objtype: PyClass) returns (r: Result<Value>)
      modifies this, inst
      ensures GetEffect(inst, objtype, r)
    {
      if inst == null {
        return Ok(Ref(this));
      }
      calls := calls + 1;
      var got := wrapped(inst.attrs);
      if got.Err? {
        return got;
      }
      var v := got.value;
      if names.None? {
        var items := objtype.dict;
        var found: seq<string> := [];
        var rest := items.Keys;
        while rest != {}
          invariant rest <= items.Keys
          invariant forall n :: n in found <==> n in items.Keys - rest && items[n] == Ref(this)
          invariant NoDuplicates(found)
          decreases rest
        {
          var k :| k in rest;
          if items[k] == Ref(this) {
            found := found + [k];
          }
          rest := rest - {k};
        }
        names := Some(found);
      }
      var ns := names.value;
      var i := 0;
      while i < |ns|
        modifies inst
        invariant 0 <= i <= |ns|
        invariant inst.attrs == Cached(old(inst.attrs), ns[..i], v)
      {
        assert ns[..i + 1][..i] == ns[..i];
        inst.attrs := inst.attrs[ns[i] := v];
        i := i + 1;
      }
      assert ns[..i] == ns;
      r := got;
    }
  }

  /** The descriptor stored under name in a class dict, as a frame. */
  function DescriptorAt(dict: map<string, Value>, name: string): set<object>
  {
    if name in dict && dict[name].Ref? && dict[name].o is ReifyAttr then {dict[name].o} else {}
  }

  /**
   * Reading `inst.name` when the class holds plain values and `reify_attr`
   * descriptors: the instance table first (a non-data descriptor is shadowed
   * by an instance entry), then the class dict, where a descriptor is
   * invoked with `__get__(inst, type(inst))`.
   */
  method ReadAttr(inst: PyInstance, name: string) returns (r: Result<Value>)
    modifies inst, DescriptorAt(inst.cls.dict, name)
    ensures name in old(inst.attrs) ==>
              r == Ok(old(inst.attrs)[name]) && inst.attrs == old(inst.attrs) &&
              unchanged(DescriptorAt(inst.cls.dict, name))
    ensures name !in old(inst.attrs) && DescriptorAt(inst.cls.dict, name) != {} ==>
              var d := inst.cls.dict[name].o as ReifyAttr;
              d.GetEffect(inst, inst.cls, r)
    ensures name !in old(inst.attrs) && DescriptorAt(inst.cls.dict, name) == {} ==>
              r == (if name in inst.cls.dict then Ok(inst.cls.dict[name]) else Err(AttributeError(name))) &&
              inst.attrs == old(inst.attrs)
  {
    if name in inst.attrs {
      return Ok(inst.attrs[name]);
    }
    if name !in inst.cls.dict {
      return Err(AttributeError(name));
    }
    var v := inst.cls.dict[name];
    if v.Ref? && v.o is ReifyAttr {
      var d := v.o as ReifyAttr;
      r := d.Get(inst, inst.cls);
    } else {
      r := Ok(v);
    }
  }
}
