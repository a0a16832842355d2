/** ElementBuilder and its seven closing policies (dom.js:47-147), as
    functions on the builder's state: the arena of nodes and the active
    element. An `active` of None is the state the source reaches when it
    assigns the root's (undefined) parent to `active_tag`; every later
    builder call then dereferences undefined and throws a TypeError. */
module Builders {
  import opened Base
  import opened Tree

  /** The seven ElementBuilder subclasses (dom.js:75-147). */
  datatype Policy =
    | Forcing | Strict | Ignoring
    | Searching | StrictSearching | ForcingSearching | IgnoringSearching
  {
    /** The policies that walk the parent chain (dom.js:99-147). */
    predicate Searches() {
      this in {Searching, StrictSearching, ForcingSearching, IgnoringSearching}
    }
  }

  /** The key of each policy in the `element_builders` registry (dom.js:153-161). */
  function KeyOf(p: Policy): string {
    match p
    case Forcing => "forcing"
    case Strict => "strict"
    case Ignoring => "ignoring"
    case Searching => "searching"
    case StrictSearching => "strict_searching"
    case ForcingSearching => "forcing_searching"
    case IgnoringSearching => "ignoring_searching"
  }

  /** The properties every plain object inherits from Object.prototype. A
      registry looked up with `registry[name]` finds these as well as its
      own entries. */
  const PROTOTYPE_NAMES: set<string> := {
    "constructor", "hasOwnProperty", "isPrototypeOf", "propertyIsEnumerable",
    "toLocaleString", "toString", "valueOf", "__proto__",
    "__defineGetter__", "__defineSetter__", "__lookupGetter__", "__lookupSetter__"}

  /** `element_builders[closing] || element_builders.strict` (index.js:268):
      the policy registered under the name, or Strict when there is none. */
  function PolicyNamed(name: string): (p: Policy)
    ensures KeyOf(p) == name || (p == Strict && forall q :: KeyOf(q) != name)
  {
    match name
    case "forcing" => Forcing
    case "ignoring" => Ignoring
    case "searching" => Searching
    case "strict_searching" => StrictSearching
    case "forcing_searching" => ForcingSearching
    case "ignoring_searching" => IgnoringSearching
    case _ => Strict
  }

  /** The builder's state: the nodes built so far and `active_tag`. */
  datatype BuildState = BuildState(nodes: Arena, active: Option<nat>)

  ghost predicate Valid(b: BuildState) {
    WellFormed(b.nodes) && (b.active.Some? ==> b.active.value < |b.nodes|)
  }

  /** `new ElementBuilder(new Document())` (dom.js:48-51). */
  const START: BuildState := BuildState([ROOT], Some(0))

  /** k is node i or one of its ancestors. */
  ghost predicate OnChain(a: Arena, i: nat, k: nat)
    requires WellFormed(a) && i < |a|
    ensures OnChain(a, i, k) ==> k <= i
    decreases i
  {
    assert LinkedAt(a, i);
    k == i || (a[i].parent.Some? && OnChain(a, a[i].parent.value, k))
  }

  /** k is the nearest element named `name` on the chain from i upward. */
  ghost predicate FirstNamed(a: Arena, i: nat, name: string, k: nat)
    requires WellFormed(a) && i < |a|
  {
    && OnChain(a, i, k) && a[k].name == Some(name)
    && forall j: nat :: OnChain(a, i, j) && k < j ==> a[j].name != Some(name)
  }

  /** No element on the chain from i upward is named `name`. */
  ghost predicate NoneNamed(a: Arena, i: nat, name: string)
    requires WellFormed(a) && i < |a|
  {
    forall k: nat :: OnChain(a, i, k) ==> a[k].name != Some(name)
  }

  /** The cursor walk of the searching policies (dom.js:101-104, 111-117,
      124-131, 138-144): the nearest element on the chain from i upward whose
      name is `name`. The root is unnamed, so it never matches. */
  function Nearest(a: Arena, i: nat, name: string): (r: Option<nat>)
    requires WellFormed(a) && i < |a|
    ensures r.Some? ==> r.value <= i && FirstNamed(a, i, name, r.value)
    ensures r.None? ==> NoneNamed(a, i, name)
    decreases i
  {
    assert LinkedAt(a, i);
    if a[i].name == Some(name) then Some(i)
    else if a[i].parent.None? then None
    else Nearest(a, a[i].parent.value, name)
  }

  /** The nearest named element on a chain is unique. */
  lemma FirstNamedUnique(a: Arena, i: nat, name: string, k: nat, k': nat)
    requires WellFormed(a) && i < |a|
    requires FirstNamed(a, i, name, k) && FirstNamed(a, i, name, k')
    ensures k == k'
  {
  }

  /** Every nearest named element on a chain is the one already found. */
  lemma FirstNamedOnly(a: Arena, i: nat, name: string, k: nat)
    requires WellFormed(a) && i < |a| && FirstNamed(a, i, name, k)
    ensures forall k': nat :: FirstNamed(a, i, name, k') ==> k' == k
  {
    forall k': nat | FirstNamed(a, i, name, k')
      ensures k' == k
    {
      FirstNamedUnique(a, i, name, k, k');
    }
  }

  /** An element with the name is the nearest one to itself. */
  lemma FirstNamedSelf(a: Arena, i: nat, name: string)
    requires WellFormed(a) && i < |a| && a[i].name == Some(name)
    ensures FirstNamed(a, i, name, i)
  {
    assert OnChain(a, i, i);
  }

  /** ElementBuilder.closeAuto (dom.js:53-55): active becomes its parent. */
  function CloseAuto(b: BuildState): (r: Result<BuildState>)
    requires Valid(b)
    ensures b.active.None? ==> r == Err(TypeError)
    ensures b.active.Some? ==> r.Ok? && r.value.nodes == b.nodes
    ensures b.active.Some? ==> r.value.active == b.nodes[b.active.value].parent
    ensures b.active == Some(0) ==> r == Ok(BuildState(b.nodes, None))
    ensures r.Ok? ==> Valid(r.value)
  {
    if b.active.None? then Err(TypeError)
    else
      assert LinkedAt(b.nodes, b.active.value);
      Ok(b.(active := b.nodes[b.active.value].parent))
  }

  /** ElementBuilder.appendText (dom.js:66-68): Element.appendText on the
      active element; active does not change. */
  function AppendText(b: BuildState, text: string): (r: Result<BuildState>)
    requires Valid(b)
    ensures b.active.None? ==> r == Err(TypeError)
    ensures b.active.Some? ==> r.Ok? && r.value.active == b.active
    ensures b.active.Some? ==> r.value.nodes == AppendTextAt(b.nodes, b.active.value, text)
    ensures r.Ok? ==> Valid(r.value)
  {
    if b.active.None? then Err(TypeError)
    else Ok(b.(nodes := AppendTextAt(b.nodes, b.active.value, text)))
  }

  /** ElementBuilder.appendChild (dom.js:57-59) with a fresh `new Element(name)`:
      the element becomes the last item of the active element and its parent
      link points there; active does not change. */
  function AppendChild(b: BuildState, name: string): (r: Result<BuildState>)
    requires Valid(b)
    ensures b.active.None? ==> r == Err(TypeError)
    ensures b.active.Some? ==> r.Ok? && r.value.active == b.active
    ensures b.active.Some? ==> r.value.nodes == AppendChildAt(b.nodes, b.active.value, name)
    ensures r.Ok? ==> Valid(r.value)
  {
    if b.active.None? then Err(TypeError)
    else Ok(b.(nodes := AppendChildAt(b.nodes, b.active.value, name)))
  }

  /** ElementBuilder.openChild (dom.js:61-64): appendChild, then the new
      element (the last node) becomes active. */
  function OpenChild(b: BuildState, name: string): (r: Result<BuildState>)
    requires Valid(b)
    ensures b.active.None? ==> r == Err(TypeError)
    ensures b.active.Some? ==> r.Ok? && r.value.nodes == AppendChildAt(b.nodes, b.active.value, name)
    ensures b.active.Some? ==> r.value.active == Some(|b.nodes|)
    ensures b.active.Some? ==> r.value.nodes[|b.nodes|].parent == b.active
    ensures r.Ok? ==> Valid(r.value)
  {
    if b.active.None? then Err(TypeError)
    else Ok(BuildState(AppendChildAt(b.nodes, b.active.value, name), Some(|b.nodes|)))
  }

  /** `closeElement(name)` of each policy (dom.js:75-147). Closing never
      changes a node: only `active` moves. */
  function CloseElement(p: Policy, b: BuildState, name: string): (r: Result<BuildState>)
    requires Valid(b)
    ensures b.active.None? ==> r == Err(TypeError)
    ensures r.Ok? ==> r.value.nodes == b.nodes && Valid(r.value)
    // Forcing ignores the name and pops one level.
    ensures p == Forcing ==> r == CloseAuto(b)
    // Strict and Ignoring pop exactly one level when the active element has the name;
    // otherwise Strict throws and Ignoring leaves the builder as it is.
    ensures b.active.Some? && p in {Strict, Ignoring} && b.nodes[b.active.value].name == Some(name) ==>
              r == CloseAuto(b)
    ensures b.active.Some? && p == Strict && b.nodes[b.active.value].name != Some(name) ==>
              r == Err(InputError("invalid closing tag"))
    ensures b.active.Some? && p == Ignoring && b.nodes[b.active.value].name != Some(name) ==>
              r == Ok(b)
    // A searching policy that finds the name on the chain makes the parent of
    // the nearest such element active, closing every element in between.
    ensures b.active.Some? && p.Searches() ==>
              forall k: nat :: FirstNamed(b.nodes, b.active.value, name, k) ==>
                r == Ok(b.(active := b.nodes[k].parent))
    // When the chain holds no such element the four searching policies differ.
    ensures b.active.Some? && p == Searching && NoneNamed(b.nodes, b.active.value, name) ==>
              r == Ok(b.(active := None))
    ensures b.active.Some? && p == StrictSearching && NoneNamed(b.nodes, b.active.value, name) ==>
              r == Err(InputError("invalid closing tag"))
    ensures b.active.Some? && p == ForcingSearching && NoneNamed(b.nodes, b.active.value, name) ==>
              r == CloseAuto(b)
    ensures b.active.Some? && p == IgnoringSearching && NoneNamed(b.nodes, b.active.value, name) ==>
              r == Ok(b)
  {
    if b.active.None? then Err(TypeError)
    else
      var a := b.active.value;
      assert LinkedAt(b.nodes, a);
      var up := b.nodes[a].parent;
      match p
      case Forcing => CloseAuto(b)
      case Strict =>
        if b.nodes[a].name == Some(name) then Ok(b.(active := up))
        else Err(InputError("invalid closing tag"))
      case Ignoring =>
        if b.nodes[a].name == Some(name) then Ok(b.(active := up)) else Ok(b)
      case _ => CloseSearching(p, b, name)
  }

  /** The four searching policies (dom.js:99-147): walk the chain for the
      nearest element with the name and make its parent active; when there
      is none, each policy does its own thing. */
  function CloseSearching(p: Policy, b: BuildState, name: string): (r: Result<BuildState>)
    requires Valid(b) && b.active.Some? && p.Searches()
    ensures r.Ok? ==> r.value.nodes == b.nodes && Valid(r.value)
    ensures forall k: nat :: FirstNamed(b.nodes, b.active.value, name, k) ==>
              r == Ok(b.(active := b.nodes[k].parent))
    ensures NoneNamed(b.nodes, b.active.value, name) ==>
              r == match p
                   case Searching => Ok(b.(active := None))
                   case StrictSearching => Err(InputError("invalid closing tag"))
                   case ForcingSearching => CloseAuto(b)
                   case _ => Ok(b)
  {
    var a := b.active.value;
    assert LinkedAt(b.nodes, a);
    match Nearest(b.nodes, a, name)
    case Some(k) =>
      assert LinkedAt(b.nodes, k);
      FirstNamedOnly(b.nodes, a, name, k);
      Ok(b.(active := b.nodes[k].parent))
    case None =>
      match p
      // the cursor stops at the root, whose parent is undefined (dom.js:105)
      case Searching => Ok(b.(active := None))
      case StrictSearching => Err(InputError("invalid closing tag"))
      case ForcingSearching => Ok(b.(active := b.nodes[a].parent))
      case IgnoringSearching => Ok(b)
  }

  /** When the active element has the name, every policy closes exactly that
      element: active becomes its parent. */
  lemma CloseMatching(p: Policy, b: BuildState, name: string)
    requires Valid(b) && b.active.Some? && b.nodes[b.active.value].name == Some(name)
    ensures CloseElement(p, b, name) == CloseAuto(b)
    ensures CloseElement(p, b, name) == Ok(b.(active := b.nodes[b.active.value].parent))
  {
    FirstNamedSelf(b.nodes, b.active.value, name);
  }
}
