/** The window-item configuration (traylib/winitem_config.py): three
    descriptor-declared attributes whose keys appear on first access. */
module WinItemConfigs {
  import opened Base
  import opened ConfigStore

  const AllWorkspaces := Attribute("all_workspaces", None, Bool(false))
  const Arrow := Attribute("arrow", None, Bool(true))
  const MenuHasKill := Attribute("menu_has_kill", None, Bool(true))

  predicate IsDescriptor(a: Attribute) {
    a == AllWorkspaces || a == Arrow || a == MenuHasKill
  }

  /** A value read through a descriptor from a dictionary, without changing it. */
  function ReadThrough(attrs: map<string, Attr>, a: Attribute): (v: Value)
    ensures a.name !in attrs ==> v == a.default
    ensures a.name in attrs ==> v == attrs[a.name].value
  {
    Declared(attrs, a)[a.name].value
  }

  /** Before any write, `all_workspaces` reads False and the others read True,
      and first access declares `update_option_<name>`. */
  lemma FreshDefaults()
    ensures ReadThrough(map[], AllWorkspaces) == Bool(false)
    ensures ReadThrough(map[], Arrow) == Bool(true)
    ensures ReadThrough(map[], MenuHasKill) == Bool(true)
    ensures forall a | IsDescriptor(a) :: Declared(map[], a)[a.name].updateFunc == "update_option_" + a.name
  {
  }

  /** Keyword arguments of the inherited constructor, one optional value per descriptor. */
  datatype Kwargs = Kwargs(allWorkspaces: Option<Value>, arrow: Option<Value>, menuHasKill: Option<Value>)

  /** Every declared key is one of the three descriptors, declared with its update name. */
  predicate DescriptorKeys(attrs: map<string, Attr>) {
    forall k | k in attrs ::
      && k in {"all_workspaces", "arrow", "menu_has_kill"}
      && attrs[k].updateFunc == "update_option_" + k
  }

  /** The dictionary `Config.__init__(**kw)` builds. */
  function InitialAttributes(kw: Kwargs): map<string, Attr> {
    Assigned(Assigned(Assigned(map[], AllWorkspaces, kw.allWorkspaces), Arrow, kw.arrow), MenuHasKill, kw.menuHasKill)
  }

  /** Writing through a descriptor declares only that descriptor's key, with
      its update name. */
  lemma AssignedKeys(attrs: map<string, Attr>, a: Attribute, given: Option<Value>)
    requires DescriptorKeys(attrs) && IsDescriptor(a)
    ensures DescriptorKeys(Assigned(attrs, a, given))
  {
  }

  /** A keyword written through a descriptor reads back as given, and the
      other descriptors read as before. */
  lemma AssignedReads(attrs: map<string, Attr>, a: Attribute, given: Option<Value>, b: Attribute)
    requires IsDescriptor(a) && IsDescriptor(b)
    ensures given.Some? ==> PyEq(ReadThrough(Assigned(attrs, a, given), a), given.value)
    ensures given.None? ==> ReadThrough(Assigned(attrs, a, given), a) == ReadThrough(attrs, a)
    ensures a != b ==> ReadThrough(Assigned(attrs, a, given), b) == ReadThrough(attrs, b)
  {
  }

  /** After the constructor, a keyword given reads back as given (up to
      Python's `==`) and the others read their defaults. */
  lemma InitialReads(kw: Kwargs)
    ensures DescriptorKeys(InitialAttributes(kw))
    ensures kw.allWorkspaces.Some? ==> PyEq(ReadThrough(InitialAttributes(kw), AllWorkspaces), kw.allWorkspaces.value)
    ensures kw.allWorkspaces.None? ==> ReadThrough(InitialAttributes(kw), AllWorkspaces) == Bool(false)
    ensures kw.arrow.Some? ==> PyEq(ReadThrough(InitialAttributes(kw), Arrow), kw.arrow.value)
    ensures kw.arrow.None? ==> ReadThrough(InitialAttributes(kw), Arrow) == Bool(true)
    ensures kw.menuHasKill.Some? ==> PyEq(ReadThrough(InitialAttributes(kw), MenuHasKill), kw.menuHasKill.value)
    ensures kw.menuHasKill.None? ==> ReadThrough(InitialAttributes(kw), MenuHasKill) == Bool(true)
  {
    var m1 := Assigned(map[], AllWorkspaces, kw.allWorkspaces);
    var m2 := Assigned(m1, Arrow, kw.arrow);
    AssignedKeys(map[], AllWorkspaces, kw.allWorkspaces);
    AssignedKeys(m1, Arrow, kw.arrow);
    AssignedKeys(m2, MenuHasKill, kw.menuHasKill);
    AssignedReads(map[], AllWorkspaces, kw.allWorkspaces, Arrow);
    AssignedReads(map[], AllWorkspaces, kw.allWorkspaces, MenuHasKill);
    AssignedReads(m1, Arrow, kw.arrow, AllWorkspaces);
    AssignedReads(m1, Arrow, kw.arrow, MenuHasKill);
    AssignedReads(m2, MenuHasKill, kw.menuHasKill, AllWorkspaces);
    AssignedReads(m2, MenuHasKill, kw.menuHasKill, Arrow);
  }

  class WinItemConfig {
    const store: Config

    predicate Valid()
      reads this, store
    {
      DescriptorKeys(store.attributes)
    }

    /** The attribute read through descriptor `a`, as the next `__get__` returns it. */
    function Read(a: Attribute): Value
      reads this, store
    {
      ReadThrough(store.attributes, a)
    }

    /** `Config.__init__(**attrs)`: each given keyword is written through its
        descriptor; a keyword then reads back as given (up to Python's `==`). */
    constructor (kw: Kwargs)
      ensures Valid() && fresh(store) && store.objects == []
      ensures store.attributes == InitialAttributes(kw)
      ensures kw.allWorkspaces.Some? ==> PyEq(Read(AllWorkspaces), kw.allWorkspaces.value)
      ensures kw.allWorkspaces.None? ==> Read(AllWorkspaces) == Bool(false)
      ensures kw.arrow.Some? ==> PyEq(Read(Arrow), kw.arrow.value)
      ensures kw.arrow.None? ==> Read(Arrow) == Bool(true)
      ensures kw.menuHasKill.Some? ==> PyEq(Read(MenuHasKill), kw.menuHasKill.value)
      ensures kw.menuHasKill.None? ==> Read(MenuHasKill) == Bool(true)
    {
      var c := new Config();
      c.Assign(AllWorkspaces, kw.allWorkspaces);
      c.Assign(Arrow, kw.arrow);
      c.Assign(MenuHasKill, kw.menuHasKill);
      store := c;
      InitialReads(kw);
    }

    /** A property read (`__get__`): declares the key on first access. */
    method Get(a: Attribute) returns (v: Value)
      requires Valid() && IsDescriptor(a)
      modifies store
      ensures Valid() && store.objects == old(store.objects)
      ensures store.attributes == Declared(old(store.attributes), a)
      ensures v == old(Read(a))
      ensures a.name !in old(store.attributes) ==> v == a.default
    {
      v := store.GetDescribed(a);
    }

    /** A property write (`__set__`): declares the key, then writes it. */
    method Set(a: Attribute, value: Value) returns (calls: seq<Call>)
      requires Valid() && IsDescriptor(a)
      modifies store
      ensures Valid() && store.objects == old(store.objects)
      ensures PyEq(Read(a), value)
      ensures PyEq(old(Read(a)), value) ==> calls == []
      ensures !PyEq(old(Read(a)), value) ==> calls == Fanout(store.objects, "update_option_" + a.name)
      ensures forall b | IsDescriptor(b) && b != a :: Read(b) == old(Read(b))
    {
      AssignedKeys(store.attributes, a, Some(value));
      AssignedReads(store.attributes, a, Some(value), a);
      AssignedReads(store.attributes, a, Some(value), AllWorkspaces);
      AssignedReads(store.attributes, a, Some(value), Arrow);
      AssignedReads(store.attributes, a, Some(value), MenuHasKill);
      calls := store.SetDescribed(a, value);
    }
  }
}
