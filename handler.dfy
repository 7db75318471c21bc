/** Handlers of traylib/handler.py: one instance per handler class name,
    lazily loaded subhandlers and a per-size icon cache, and the search for
    the handlers of an item through the handler tree. What the filesystem
    and the icon theme would answer (the subhandler packages found, the
    icons the theme has) comes in as parameters. */
module HandlerCore {
  import opened Base

  type HandlerId = nat

  /** A loaded icon, known by identity. */
  type IconRef = nat

  /** The handler tree as one item sees it: each node's handler, whether it
      `handles` the item, whether it `is_abstract`, and its subhandlers. */
  datatype HandlerTree = Node(handler: HandlerId, handles: bool, isAbstract: bool, subs: seq<HandlerTree>)

  /** The handlers for an item, in the order the search lists them: a node
      that does not handle the item contributes nothing, not even through
      its subhandlers; otherwise the node itself unless it is abstract,
      then each subhandler's handlers in turn. */
  function PreOrder(t: HandlerTree): seq<HandlerId>
    decreases t, 1
  {
    if !t.handles then []
    else (if t.isAbstract then [] else [t.handler]) + PreOrderAll(t.subs)
  }

  function PreOrderAll(ts: seq<HandlerTree>): seq<HandlerId>
    decreases ts, 0
  {
    if ts == [] then []
    else
      var n := |ts| - 1;
      PreOrderAll(ts[..n]) + PreOrder(ts[n])
  }

  /** Every concrete handler reachable from the root through nodes that all
      handle the item. */
  function Accepting(t: HandlerTree): set<HandlerId>
    decreases t, 1
  {
    if !t.handles then {}
    else (if t.isAbstract then {} else {t.handler}) + AcceptingAll(t.subs)
  }

  function AcceptingAll(ts: seq<HandlerTree>): set<HandlerId>
    decreases ts, 0
  {
    if ts == [] then {}
    else
      var n := |ts| - 1;
      AcceptingAll(ts[..n]) + Accepting(ts[n])
  }

  /** The search lists exactly the accepting handlers. */
  lemma {:induction false} PreOrderMembers(t: HandlerTree)
    ensures forall h :: h in PreOrder(t) <==> h in Accepting(t)
    decreases t, 1
  {
    if t.handles {
      PreOrderAllMembers(t.subs);
    }
  }

  lemma {:induction false} PreOrderAllMembers(ts: seq<HandlerTree>)
    ensures forall h :: h in PreOrderAll(ts) <==> h in AcceptingAll(ts)
    decreases ts, 0
  {
    if ts != [] {
      var n := |ts| - 1;
      PreOrderAllMembers(ts[..n]);
      PreOrderMembers(ts[n]);
    }
  }

  /** A concrete root that handles the item comes first; a root that does
      not handle it yields nothing. */
  lemma RootFirst(t: HandlerTree)
    ensures t.handles && !t.isAbstract ==> |PreOrder(t)| > 0 && PreOrder(t)[0] == t.handler
    ensures !t.handles ==> PreOrder(t) == []
  {
  }

  /** A subhandler's handlers appear as one block, after the root and the
      earlier subhandlers' handlers. */
  lemma {:induction false} SubtreeBlock(t: HandlerTree, i: nat)
    requires t.handles && i < |t.subs|
    ensures PreOrder(t) ==
      (if t.isAbstract then [] else [t.handler]) + PreOrderAll(t.subs[..i]) + PreOrder(t.subs[i])
      + PreOrderAll(t.subs[i+1..])
  {
    PreOrderAllSplit(t.subs, i);
  }

  lemma {:induction false} PreOrderAllSplit(ts: seq<HandlerTree>, i: nat)
    requires i < |ts|
    ensures PreOrderAll(ts) == PreOrderAll(ts[..i]) + PreOrder(ts[i]) + PreOrderAll(ts[i+1..])
  {
    PreOrderAllConcat(ts, i);
    assert ts[i..] == [ts[i]] + ts[i+1..];
    PreOrderAllCons(ts[i], ts[i+1..]);
  }

  /** One subtree appended contributes its handlers last. */
  lemma {:induction false} PreOrderAllAppend(ts: seq<HandlerTree>, x: HandlerTree)
    ensures PreOrderAll(ts + [x]) == PreOrderAll(ts) + PreOrder(x)
  {
    assert (ts + [x])[..|ts|] == ts;
  }

  /** The handlers of a list of subtrees are those of a prefix, then those of
      the rest. */
  lemma {:induction false} PreOrderAllConcat(ts: seq<HandlerTree>, k: nat)
    requires k <= |ts|
    ensures PreOrderAll(ts) == PreOrderAll(ts[..k]) + PreOrderAll(ts[k..])
    decreases |ts| - k
  {
    if k < |ts| {
      PreOrderAllConcat(ts, k + 1);
      assert ts[..k+1] == ts[..k] + [ts[k]];
      PreOrderAllAppend(ts[..k], ts[k]);
      assert ts[k..] == [ts[k]] + ts[k+1..];
      PreOrderAllCons(ts[k], ts[k+1..]);
    } else {
      assert ts[..k] == ts;
      assert ts[k..] == [];
    }
  }

  /** One subtree put in front contributes its handlers first. */
  lemma {:induction false} PreOrderAllCons(x: HandlerTree, ts: seq<HandlerTree>)
    ensures PreOrderAll([x] + ts) == PreOrder(x) + PreOrderAll(ts)
    decreases |ts|
  {
    if ts == [] {
      assert [x] + ts == [x];
      assert [x][..0] == [];
    } else {
      var n := |ts| - 1;
      assert ([x] + ts)[..n + 1] == [x] + ts[..n];
      PreOrderAllCons(x, ts[..n]);
    }
  }

  /** One handler instance, the state its `__init__` sets up. */
  class Handler {
    const className: string
    /** `__options`: each option key's value. */
    var options: map<string, string>
    /** `__subhandlers`: `None` until first asked for. */
    var subhandlers: Option<seq<HandlerId>>
    /** `__icons`: the icon found for each size. */
    var icons: map<int, IconRef>

    constructor (className: string, options: map<string, string>)
      ensures this.className == className && this.options == options
      ensures subhandlers == None && icons == map[]
    {
      this.className := className;
      this.options := options;
      subhandlers := None;
      icons := map[];
    }

    /** `get_option(key)`: None for an undeclared key. */
    function GetOption(key: string): (r: Option<string>)
      reads this
      ensures r.None? <==> key !in options
      ensures r.Some? ==> r.value == options[key]
    {
      if key in options then Some(options[key]) else None
    }

    /** `get_subhandlers()`, where `loaded` is what `__make_subhandlers`
        would find: computed on the first call, then the cached list. */
    method GetSubhandlers(loaded: seq<HandlerId>) returns (r: seq<HandlerId>)
      modifies this
      ensures old(subhandlers).Some? ==> r == old(subhandlers).value && subhandlers == old(subhandlers)
      ensures old(subhandlers).None? ==> r == loaded && subhandlers == Some(loaded)
      ensures options == old(options) && icons == old(icons)
    {
      if subhandlers.None? {
        subhandlers := Some(loaded);
      }
      return subhandlers.value;
    }

    /** `get_handler_icon(size)`, where `found[i]` is the icon the theme
        yields for the i-th of the handler's icon names at `size`: the cached
        icon if there is one, else the first found, which is then cached. */
    method GetHandlerIcon(size: int, found: seq<Option<IconRef>>) returns (r: Option<IconRef>)
      modifies this
      ensures size in old(icons) ==> r == Some(old(icons)[size]) && icons == old(icons)
      ensures size !in old(icons) ==>
        r == FirstSome(found) && icons == (if r.Some? then old(icons)[size := r.value] else old(icons))
      ensures r.Some? ==> size in icons && icons[size] == r.value
      ensures options == old(options) && subhandlers == old(subhandlers)
    {
      if size in icons {
        return Some(icons[size]);
      }
      for i := 0 to |found|
        invariant forall j | 0 <= j < i :: found[j].None?
        invariant FirstSome(found) == FirstSome(found[i..])
      {
        if found[i].Some? {
          icons := icons[size := found[i].value];
          return found[i];
        }
        assert found[i..][1..] == found[i+1..];
      }
      return None;
    }
  }

  /** The class-level `Handler.__handlers` dictionary. */
  class HandlerRegistry {
    var instances: map<string, Handler>

    constructor ()
      ensures instances == map[]
    {
      instances := map[];
    }

    /** Constructing a handler class, where `options` is what its
        `make_options` gives: the registered instance if the class name has
        one, left as it is; otherwise a new initialised instance, which
        registers itself. */
    method Construct(className: string, options: map<string, string>) returns (h: Handler)
      modifies this
      ensures className in old(instances) ==> h == old(instances)[className] && instances == old(instances)
      ensures className !in old(instances) ==>
        && fresh(h) && h.className == className && h.options == options
        && h.subhandlers == None && h.icons == map[]
        && instances == old(instances)[className := h]
      ensures className in instances && instances[className] == h
    {
      if className in instances {
        return instances[className];
      }
      h := new Handler(className, options);
      instances := instances[className := h];
    }
  }

  /** `get_handlers_for(item)` over the tree as the item sees it: nothing
      when the handler does not handle the item, else itself (unless
      abstract) followed by each subhandler's handlers. */
  method GetHandlersFor(t: HandlerTree) returns (hs: seq<HandlerId>)
    ensures hs == PreOrder(t)
    decreases t
  {
    if !t.handles {
      return [];
    }
    hs := [];
    if !t.isAbstract {
      hs := hs + [t.handler];
    }
    for i := 0 to |t.subs|
      invariant hs == (if t.isAbstract then [] else [t.handler]) + PreOrderAll(t.subs[..i])
    {
      var sub := GetHandlersFor(t.subs[i]);
      assert t.subs[..i+1][..i] == t.subs[..i];
      hs := hs + sub;
    }
    assert t.subs[..|t.subs|] == t.subs;
  }
}
