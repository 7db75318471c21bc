/** The icon configuration (traylib/icon_config.py): a `Config` holding the
    icon size, the screen edge, the effects and hidden flags and the menu
    positioning function, plus the arrow picture chosen from the edge. */
module IconConfigs {
  import opened Base
  import opened ConfigStore

  /** The arrow pixmaps the package ships, by the way they point. */
  datatype Direction = PointUp | PointDown | PointLeft | PointRight

  /** `vertical`: the edge compares equal to LEFT or RIGHT. */
  predicate VerticalEdge(edge: Value) {
    PyEq(edge, Int(LEFT)) || PyEq(edge, Int(RIGHT))
  }

  /** The pixmap `update_arrow` picks for an edge: the arrow points away from
      the edge, and up for the bottom edge and for anything else. */
  function ArrowFor(edge: Value): (d: Direction)
    ensures PyEq(edge, Int(LEFT)) ==> d == PointRight
    ensures PyEq(edge, Int(RIGHT)) ==> d == PointLeft
    ensures PyEq(edge, Int(TOP)) ==> d == PointDown
    ensures !PyEq(edge, Int(LEFT)) && !PyEq(edge, Int(RIGHT)) && !PyEq(edge, Int(TOP)) ==> d == PointUp
    ensures d == PointLeft || d == PointRight <==> VerticalEdge(edge)
  {
    if PyEq(edge, Int(LEFT)) then PointRight
    else if PyEq(edge, Int(RIGHT)) then PointLeft
    else if PyEq(edge, Int(TOP)) then PointDown
    else PointUp
  }

  /** The keys an icon configuration declares, with their update names. */
  const Declarations: map<string, string> := map[
    "size" := "update_option_size",
    "edge" := "update_option_edge",
    "effects" := "update_option_effects",
    "hidden" := "update_option_hidden",
    "pos_func" := ""]

  /** The constructor's own checks (both are `assert`s in the source). */
  predicate ValidArguments(size: int, edge: int) {
    size > 0 && IsEdge(edge)
  }

  // ---- The constructor as written -------------------------------------

  /** One `add_attribute` call of the constructor: the number of positional
      arguments after `self`, then the key, the value and the update name. */
  datatype Declaration = Declaration(args: nat, key: string, value: Value, updateFunc: string)

  /** Python accepts two or three positional arguments for
      `Config.add_attribute(key, value, update_func=None)`. */
  predicate Callable(d: Declaration) {
    2 <= d.args <= 3
  }

  /** Runs the `add_attribute` calls in order; the first call with a wrong
      number of arguments raises `TypeError`. */
  function RunDeclarations(attrs: map<string, Attr>, ds: seq<Declaration>): Result<map<string, Attr>>
    decreases |ds|
  {
    if ds == [] then Success(attrs)
    else if !Callable(ds[0]) then Failure(TypeError)
    else RunDeclarations(attrs[ds[0].key := Attr(ds[0].value, if ds[0].args == 3 then ds[0].updateFunc else "")], ds[1..])
  }

  /** The calls succeed exactly when every one of them has an acceptable arity. */
  lemma {:induction false} RunDeclarationsFails(attrs: map<string, Attr>, ds: seq<Declaration>)
    ensures RunDeclarations(attrs, ds).Success? <==> forall d | d in ds :: Callable(d)
    ensures RunDeclarations(attrs, ds).Failure? ==> RunDeclarations(attrs, ds).error == TypeError
    decreases |ds|
  {
    if ds != [] {
      RunDeclarationsFails(attrs[ds[0].key := Attr(ds[0].value, if ds[0].args == 3 then ds[0].updateFunc else "")], ds[1..]);
      assert forall d | d in ds[1..] :: d in ds;
      assert ds == [ds[0]] + ds[1..];
    }
  }

  /** The constructor's calls as written: the second passes four arguments
      (the edge's update name and `'update_arrow'`). */
  function DeclarationsAsWritten(size: int, edge: int, effects: Value, posFunc: Value, hidden: Value)
    : seq<Declaration>
  {
    [Declaration(3, "size", Int(size), "update_option_size"),
     Declaration(4, "edge", Int(edge), "update_option_edge"),
     Declaration(3, "effects", effects, "update_option_effects"),
     Declaration(3, "hidden", hidden, "update_option_hidden"),
     Declaration(2, "pos_func", posFunc, "")]
  }

  /** `IconConfig.__init__` as written. */
  function InitAsWritten(size: int, edge: int, effects: Value, posFunc: Value, hidden: Value)
    : Result<map<string, Attr>>
  {
    if !ValidArguments(size, edge) then Failure(AssertionError)
    else RunDeclarations(map[], DeclarationsAsWritten(size, edge, effects, posFunc, hidden))
  }

  /** As written, no icon configuration can be built: arguments that pass the
      assertions reach the four-argument call and raise `TypeError`. */
  lemma InitAsWrittenAlwaysRaises(size: int, edge: int, effects: Value, posFunc: Value, hidden: Value)
    ensures ValidArguments(size, edge) ==>
      InitAsWritten(size, edge, effects, posFunc, hidden) == Failure(TypeError)
    ensures !ValidArguments(size, edge) ==>
      InitAsWritten(size, edge, effects, posFunc, hidden) == Failure(AssertionError)
  {
    var ds := DeclarationsAsWritten(size, edge, effects, posFunc, hidden);
    RunDeclarationsFails(map[], ds);
    assert !Callable(ds[1]) && ds[1] in ds;
  }

  // ---- The constructor as intended ------------------------------------

  /** The attribute dictionary a correct constructor builds. */
  function InitialAttributes(size: int, edge: int, effects: Value, posFunc: Value, hidden: Value)
    : (r: map<string, Attr>)
    ensures r.Keys == Declarations.Keys
    ensures forall k | k in r :: r[k].updateFunc == Declarations[k]
  {
    map["size" := Attr(Int(size), "update_option_size"),
        "edge" := Attr(Int(edge), "update_option_edge"),
        "effects" := Attr(effects, "update_option_effects"),
        "hidden" := Attr(hidden, "update_option_hidden"),
        "pos_func" := Attr(posFunc, "")]
  }

  class IconConfig {
    /** The inherited attribute store. */
    const store: Config
    /** `__arrow`: the arrow pointing away from the edge. */
    var arrow: Option<Direction>

    /** Exactly the declared keys, with their update names. */
    predicate Declared()
      reads store
    {
      && store.attributes.Keys == Declarations.Keys
      && (forall k | k in store.attributes :: store.attributes[k].updateFunc == Declarations[k])
    }

    /** The keys are declared, and a chosen arrow matches the edge. */
    predicate Valid()
      reads this, store
    {
      Declared() && (arrow.Some? ==> arrow.value == ArrowFor(store.attributes["edge"].value))
    }

    /** `__init__` with the edge declared the way the rest of the constructor
        declares its keys, and `update_arrow` run for the initial edge and
        whenever the edge changes, so that `arrow` always matches the edge. */
    constructor (size: int, edge: int, effects: Value, posFunc: Value, hidden: Value)
      requires ValidArguments(size, edge)
      ensures Valid() && fresh(store)
      ensures store.attributes == InitialAttributes(size, edge, effects, posFunc, hidden)
      ensures store.objects == [] && arrow == Some(ArrowFor(Int(edge)))
    {
      var c := new Config();
      c.AddAttribute("size", Int(size), "update_option_size");
      c.AddAttribute("edge", Int(edge), "update_option_edge");
      c.AddAttribute("effects", effects, "update_option_effects");
      c.AddAttribute("hidden", hidden, "update_option_hidden");
      c.AddAttribute("pos_func", posFunc, "");
      assert c.attributes == InitialAttributes(size, edge, effects, posFunc, hidden);
      store := c;
      arrow := Some(ArrowFor(Int(edge)));
    }

    function Size(): Value reads this, store requires Valid() { store.GetAttribute("size") }
    function Edge(): Value reads this, store requires Valid() { store.GetAttribute("edge") }
    function Effects(): Value reads this, store requires Valid() { store.GetAttribute("effects") }
    function PosFunc(): Value reads this, store requires Valid() { store.GetAttribute("pos_func") }
    function Hidden(): Value reads this, store requires Valid() { store.GetAttribute("hidden") }

    /** `vertical` */
    function Vertical(): bool reads this, store requires Valid() { VerticalEdge(Edge()) }

    /** `update_arrow` */
    method UpdateArrow()
      requires Declared()
      modifies this
      ensures Valid() && arrow == Some(ArrowFor(Edge()))
    {
      arrow := Some(ArrowFor(store.GetAttribute("edge")));
    }

    /** The `edge` property's setter; a change also re-picks the arrow. */
    method SetEdge(edge: Value) returns (calls: seq<Call>)
      requires Valid()
      modifies this, store
      ensures Valid()
      ensures store.attributes == Written(old(store.attributes), "edge", edge)
      ensures store.objects == old(store.objects)
      ensures PyEq(old(Edge()), edge) ==> calls == [] && arrow == old(arrow)
      ensures !PyEq(old(Edge()), edge) ==>
        calls == Fanout(store.objects, "update_option_edge") && arrow == Some(ArrowFor(edge))
    {
      var before := store.GetAttribute("edge");
      calls := store.SetAttribute("edge", edge);
      if !PyEq(before, edge) {
        UpdateArrow();
      }
    }

    /** The setters of `size`, `effects`, `hidden` and `pos_func`. */
    method SetOption(key: string, value: Value) returns (calls: seq<Call>)
      requires Valid() && key in {"size", "effects", "hidden", "pos_func"}
      modifies store
      ensures Valid()
      ensures store.attributes == Written(old(store.attributes), key, value)
      ensures store.objects == old(store.objects)
      ensures PyEq(old(store.attributes)[key].value, value) ==> calls == []
      ensures !PyEq(old(store.attributes)[key].value, value) ==>
        calls == Notify(store.objects, Declarations[key])
      ensures key == "pos_func" ==> calls == []
    {
      calls := store.SetAttribute(key, value);
    }
  }
}
