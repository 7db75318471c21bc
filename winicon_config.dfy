/** The window-icon configuration (traylib/winicon_config.py): a `Config`
    declaring `all_workspaces` and `arrow`. */
module WinIconConfigs {
  import opened ConfigStore

  const Keys: set<string> := {"all_workspaces", "arrow"}

  function UpdateFor(key: string): string {
    "update_option_" + key
  }

  /** Exactly the two keys, each with its own update method. */
  predicate Declares(attrs: map<string, Attr>) {
    && attrs.Keys == Keys
    && forall k | k in attrs :: attrs[k].updateFunc == UpdateFor(k)
  }

  /** The dictionary the constructor builds. */
  function InitialAttributes(allWorkspaces: Value, arrow: Value): (r: map<string, Attr>)
    ensures Declares(r)
    ensures r["all_workspaces"].value == allWorkspaces && r["arrow"].value == arrow
  {
    map[][
      "all_workspaces" := Attr(allWorkspaces, "update_option_all_workspaces")][
      "arrow" := Attr(arrow, "update_option_arrow")]
  }

  /** A write keeps the keys and their update methods. */
  lemma WrittenDeclares(attrs: map<string, Attr>, key: string, v: Value)
    requires Declares(attrs) && key in attrs
    ensures Declares(Written(attrs, key, v))
  {
  }

  class WinIconConfig {
    const store: Config

    predicate Valid()
      reads this, store
    {
      Declares(store.attributes)
    }

    constructor (allWorkspaces: Value, arrow: Value)
      ensures Valid() && fresh(store) && store.objects == []
      ensures store.attributes == InitialAttributes(allWorkspaces, arrow)
    {
      var c := new Config();
      c.AddAttribute("all_workspaces", allWorkspaces, "update_option_all_workspaces");
      c.AddAttribute("arrow", arrow, "update_option_arrow");
      assert c.attributes == InitialAttributes(allWorkspaces, arrow);
      store := c;
    }

    function Get(key: string): Value
      reads this, store
      requires Valid() && key in Keys
    {
      store.GetAttribute(key)
    }

    method Set(key: string, value: Value) returns (calls: seq<Call>)
      requires Valid() && key in Keys
      modifies store
      ensures Valid() && store.objects == old(store.objects)
      ensures PyEq(old(Get(key)), value) ==> store.attributes == old(store.attributes) && calls == []
      ensures !PyEq(old(Get(key)), value) ==>
        Get(key) == value && calls == Fanout(store.objects, UpdateFor(key))
      ensures forall k | k in Keys && k != key :: Get(k) == old(Get(k))
    {
      WrittenDeclares(store.attributes, key, value);
      calls := store.SetAttribute(key, value);
    }
  }
}
