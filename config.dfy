/** The attribute store behind every configuration object (traylib/config.py):
    a dictionary key -> (value, name of an update method) and an ordered list
    of registered configurable objects. A write of a different value calls the
    named update method on every registered object that defines it, in
    registration order; here such a call is an entry appended to a log. */
module ConfigStore {
  import opened Base

  /** A Python value held by an attribute. `Ref` stands for any other object,
      compared by identity. */
  datatype Value = Nil | Bool(b: bool) | Int(i: int) | Str(s: string) | Ref(id: nat)

  /** Python's `==` on attribute values: `True == 1` and `False == 0`. */
  predicate PyEq(a: Value, b: Value) {
    match (a, b)
    case (Bool(x), Int(n)) => n == (if x then 1 else 0)
    case (Int(n), Bool(x)) => n == (if x then 1 else 0)
    case _ => a == b
  }

  /** Python truthiness of a value. */
  predicate Truthy(v: Value) {
    match v
    case Nil => false
    case Bool(b) => b
    case Int(n) => n != 0
    case Str(s) => s != ""
    case Ref(_) => true
  }

  /** One dictionary entry: the value and the update method's name.
      The empty name stands for `None`; both are falsy for `if update_func:`. */
  datatype Attr = Attr(value: Value, updateFunc: string)

  /** A registered configurable object: its identity and the methods it has. */
  datatype Observer = Observer(id: nat, methods: set<string>)

  /** One call of an update method on a registered object. */
  datatype Call = Call(target: nat, name: string)

  /** The calls the loop over the registered objects makes for one update
      method name: one per registration of an object that has the method. */
  function Fanout(objects: seq<Observer>, updateFunc: string): (calls: seq<Call>)
    ensures |calls| <= |objects|
  {
    if objects == [] then []
    else (if updateFunc in objects[0].methods then [Call(objects[0].id, updateFunc)] else [])
         + Fanout(objects[1..], updateFunc)
  }

  /** Every call is of the method the fan-out was made for. */
  lemma {:induction false} FanoutNames(objects: seq<Observer>, f: string)
    ensures forall c | c in Fanout(objects, f) :: c.name == f
  {
    if objects != [] {
      FanoutNames(objects[1..], f);
    }
  }

  /** The notifications of one differing write: none without an update name. */
  function Notify(objects: seq<Observer>, updateFunc: string): seq<Call> {
    if updateFunc == "" then [] else Fanout(objects, updateFunc)
  }

  /** Registration order is notification order: the calls for a list of
      registrations are those of its first part followed by those of the rest. */
  lemma {:induction false} FanoutAppend(a: seq<Observer>, b: seq<Observer>, f: string)
    ensures Fanout(a + b, f) == Fanout(a, f) + Fanout(b, f)
  {
    if a == [] {
      assert a + b == b;
    } else {
      var head := if f in a[0].methods then [Call(a[0].id, f)] else [];
      assert (a + b)[0] == a[0];
      assert (a + b)[1..] == a[1..] + b;
      FanoutAppend(a[1..], b, f);
      calc {
        Fanout(a + b, f);
        head + Fanout(a[1..] + b, f);
        head + (Fanout(a[1..], f) + Fanout(b, f));
        (head + Fanout(a[1..], f)) + Fanout(b, f);
      }
    }
  }

  /** An object whose identity no other registered object shares receives one
      call per registration if it has the method, and none otherwise. */
  lemma {:induction false} FanoutCount(objects: seq<Observer>, f: string, o: Observer)
    requires forall p | p in objects :: p.id == o.id ==> p == o
    ensures multiset(Fanout(objects, f))[Call(o.id, f)]
            == if f in o.methods then multiset(objects)[o] else 0
  {
    if objects != [] {
      assert objects == [objects[0]] + objects[1..];
      FanoutCount(objects[1..], f, o);
    }
  }

  /** Every call goes to a registered object that has the method. */
  lemma {:induction false} FanoutTargets(objects: seq<Observer>, f: string)
    ensures forall c | c in Fanout(objects, f) ::
      exists o | o in objects :: o.id == c.target && f in o.methods
  {
    if objects != [] {
      FanoutTargets(objects[1..], f);
      forall c | c in Fanout(objects, f)
        ensures exists o | o in objects :: o.id == c.target && f in o.methods
      {
        if c !in Fanout(objects[1..], f) {
          assert objects[0] in objects;
        } else {
          var o :| o in objects[1..] && o.id == c.target && f in o.methods;
          assert o in objects;
        }
      }
    }
  }

  /** An attribute declared without an update method never notifies anyone. */
  lemma NoUpdateNameNoCalls(objects: seq<Observer>)
    ensures Notify(objects, "") == []
  {
  }

  /** The dictionary after `set_attribute(key, v)`. */
  function Written(attrs: map<string, Attr>, key: string, v: Value): (r: map<string, Attr>)
    requires key in attrs
    ensures r.Keys == attrs.Keys
    ensures PyEq(attrs[key].value, v) ==> r == attrs
    ensures !PyEq(attrs[key].value, v) ==> r[key] == Attr(v, attrs[key].updateFunc)
    ensures forall k | k in attrs && k != key :: r[k] == attrs[k]
  {
    if PyEq(attrs[key].value, v) then attrs else attrs[key := Attr(v, attrs[key].updateFunc)]
  }

  /** Reading back after a write yields a value equal, in Python's sense, to
      the one written; the update name never changes. */
  lemma ReadAfterWrite(attrs: map<string, Attr>, key: string, v: Value)
    requires key in attrs
    ensures PyEq(Written(attrs, key, v)[key].value, v)
    ensures Written(attrs, key, v)[key].updateFunc == attrs[key].updateFunc
  {
  }

  /** A descriptor-declared attribute (`Attribute` at traylib/config.py:3):
      its name, the optional update name and the default value. */
  datatype Attribute = Attribute(name: string, updateFunc: Option<string>, default: Value)

  /** The update name a descriptor declares: the given one, else `update_option_<name>`. */
  function UpdateName(a: Attribute): string {
    if a.updateFunc.Some? then a.updateFunc.value else "update_option_" + a.name
  }

  /** The dictionary after a descriptor's lazy declaration (`_ensure_attribute`). */
  function Declared(attrs: map<string, Attr>, a: Attribute): (r: map<string, Attr>)
    ensures r.Keys == attrs.Keys + {a.name}
    ensures a.name in attrs ==> r == attrs
    ensures a.name !in attrs ==> r[a.name] == Attr(a.default, UpdateName(a))
    ensures forall k | k in attrs :: r[k] == attrs[k]
  {
    if a.name in attrs then attrs else attrs[a.name := Attr(a.default, UpdateName(a))]
  }

  /** The dictionary after the constructor's `setattr(self, key, value)` for
      one descriptor, when the keyword was given. */
  function Assigned(attrs: map<string, Attr>, a: Attribute, given: Option<Value>): map<string, Attr> {
    if given.Some? then Written(Declared(attrs, a), a.name, given.value) else attrs
  }

  /** A descriptor without an explicit update name declares `update_option_<name>`. */
  lemma DefaultUpdateName(name: string, default: Value)
    ensures var r := Declared(map[], Attribute(name, None, default));
      r == map[name := Attr(default, "update_option_" + name)]
  {
  }

  class Config {
    /** `__attributes` */
    var attributes: map<string, Attr>
    /** `__objects`, in registration order, duplicates allowed */
    var objects: seq<Observer>

    constructor ()
      ensures attributes == map[] && objects == []
    {
      attributes := map[];
      objects := [];
    }

    function HasAttribute(key: string): bool
      reads this
    {
      key in attributes
    }

    method AddAttribute(key: string, value: Value, updateFunc: string)
      modifies this
      ensures attributes == old(attributes)[key := Attr(value, updateFunc)]
      ensures objects == old(objects)
    {
      attributes := attributes[key := Attr(value, updateFunc)];
    }

    /** `set_attribute`: the key must have been declared (the source asserts it). */
    method SetAttribute(key: string, value: Value) returns (calls: seq<Call>)
      requires key in attributes
      modifies this
      ensures attributes == Written(old(attributes), key, value)
      ensures objects == old(objects)
      ensures PyEq(old(attributes)[key].value, value) ==> calls == []
      ensures !PyEq(old(attributes)[key].value, value) ==>
        calls == Notify(objects, old(attributes)[key].updateFunc)
    {
      var current := attributes[key];
      calls := [];
      if PyEq(current.value, value) {
        return;
      }
      attributes := attributes[key := Attr(value, current.updateFunc)];
      if current.updateFunc != "" {
        var i := 0;
        while i < |objects|
          invariant 0 <= i <= |objects|
          invariant calls == Fanout(objects[..i], current.updateFunc)
          invariant attributes == old(attributes)[key := Attr(value, current.updateFunc)]
          invariant objects == old(objects)
        {
          if current.updateFunc in objects[i].methods {
            calls := calls + [Call(objects[i].id, current.updateFunc)];
          }
          assert objects[..i+1] == objects[..i] + [objects[i]];
          FanoutAppend(objects[..i], [objects[i]], current.updateFunc);
          i := i + 1;
        }
        assert objects[..i] == objects;
      }
    }

    function GetAttribute(key: string): Value
      reads this
      requires key in attributes
    {
      attributes[key].value
    }

    method AddConfigurable(o: Observer)
      modifies this
      ensures objects == old(objects) + [o]
      ensures attributes == old(attributes)
    {
      objects := objects + [o];
    }

    /** `remove_configurable`: the first occurrence is removed; `list.remove`
        raises `ValueError` when the object is not registered. */
    method RemoveConfigurable(o: Observer) returns (err: Option<PyError>)
      modifies this
      ensures o in old(objects) ==> err == None && objects == RemoveFirst(old(objects), o)
      ensures o !in old(objects) ==> err == Some(ValueError) && objects == old(objects)
      ensures attributes == old(attributes)
    {
      if o !in objects {
        return Some(ValueError);
      }
      objects := RemoveFirst(objects, o);
      return None;
    }

    function HasConfigurable(o: Observer): bool
      reads this
    {
      o in objects
    }

    /** `_ensure_attribute` of a descriptor. */
    method EnsureAttribute(a: Attribute)
      modifies this
      ensures attributes == Declared(old(attributes), a)
      ensures objects == old(objects)
    {
      if a.name !in attributes {
        AddAttribute(a.name, a.default, UpdateName(a));
      }
    }

    /** Descriptor `__get__`: declares lazily, then reads. */
    method GetDescribed(a: Attribute) returns (v: Value)
      modifies this
      ensures attributes == Declared(old(attributes), a)
      ensures objects == old(objects)
      ensures v == attributes[a.name].value
      ensures a.name !in old(attributes) ==> v == a.default
    {
      EnsureAttribute(a);
      v := GetAttribute(a.name);
    }

    /** One keyword argument of `__init__`, written through its descriptor
        when it was given. */
    method Assign(a: Attribute, given: Option<Value>)
      modifies this
      ensures attributes == Assigned(old(attributes), a, given)
      ensures objects == old(objects)
    {
      if given.Some? {
        var _ := SetDescribed(a, given.value);
      }
    }

    /** Descriptor `__set__`: declares lazily, then writes. */
    method SetDescribed(a: Attribute, value: Value) returns (calls: seq<Call>)
      modifies this
      ensures attributes == Written(Declared(old(attributes), a), a.name, value)
      ensures objects == old(objects)
      ensures PyEq(Declared(old(attributes), a)[a.name].value, value) ==> calls == []
      ensures !PyEq(Declared(old(attributes), a)[a.name].value, value) ==>
        calls == Notify(objects, Declared(old(attributes), a)[a.name].updateFunc)
    {
      EnsureAttribute(a);
      calls := SetAttribute(a.name, value);
    }
  }
}
