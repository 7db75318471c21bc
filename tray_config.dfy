/** The tray configuration (traylib/tray_config.py): a `Config` declaring
    `name`, `menus` and `separators`, each with its own update method. */
module TrayConfigs {
  import opened ConfigStore

  const Keys: set<string> := {"name", "menus", "separators"}

  /** The update method a key of the tray configuration declares. */
  function UpdateFor(key: string): string {
    "update_option_" + key
  }

  /** Exactly the three keys, each with its own update method. */
  predicate Declares(attrs: map<string, Attr>) {
    && attrs.Keys == Keys
    && forall k | k in attrs :: attrs[k].updateFunc == UpdateFor(k)
  }

  /** The dictionary the constructor builds. */
  function InitialAttributes(name: Value, menus: Value, separators: Value): (r: map<string, Attr>)
    ensures Declares(r)
    ensures r["name"].value == name && r["menus"].value == menus && r["separators"].value == separators
  {
    map[][
      "name" := Attr(name, "update_option_name")][
      "menus" := Attr(menus, "update_option_menus")][
      "separators" := Attr(separators, "update_option_separators")]
  }

  /** A write keeps the keys and their update methods. */
  lemma WrittenDeclares(attrs: map<string, Attr>, key: string, v: Value)
    requires Declares(attrs) && key in attrs
    ensures Declares(Written(attrs, key, v))
  {
  }

  class TrayConfig {
    const store: Config

    predicate Valid()
      reads this, store
    {
      Declares(store.attributes)
    }

    constructor (name: Value, menus: Value, separators: Value)
      ensures Valid() && fresh(store) && store.objects == []
      ensures store.attributes == InitialAttributes(name, menus, separators)
    {
      var c := new Config();
      c.AddAttribute("name", name, "update_option_name");
      c.AddAttribute("menus", menus, "update_option_menus");
      c.AddAttribute("separators", separators, "update_option_separators");
      assert c.attributes == InitialAttributes(name, menus, separators);
      store := c;
    }

    /** The getter of the `name`, `menus` or `separators` property. */
    function Get(key: string): Value
      reads this, store
      requires Valid() && key in Keys
    {
      store.GetAttribute(key)
    }

    /** The setter of the `name`, `menus` or `separators` property: equal
        writes change nothing, the other two keys never change. */
    method Set(key: string, value: Value) returns (calls: seq<Call>)
      requires Valid() && key in Keys
      modifies store
      ensures Valid() && store.objects == old(store.objects)
      ensures PyEq(old(Get(key)), value) ==> store.attributes == old(store.attributes) && calls == []
      ensures !PyEq(old(Get(key)), value) ==>
        Get(key) == value && calls == Fanout(store.objects, UpdateFor(key))
      ensures forall k | k in Keys && k != key :: Get(k) == old(Get(k))
    {
      WrittenDeclares(store.attributes, key, value);
      calls := store.SetAttribute(key, value);
    }
  }
}
