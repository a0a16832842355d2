/** ElementBuilder as the object the reader drives (dom.js:47-147): the
    methods update `nodes` (the elements reachable from the root) and
    `active` (`active_tag`) in place, and each one is proved to do what the
    corresponding function of Builders says; a thrown exception is a Fail
    outcome that leaves the builder as it was. */
module ElementBuilders {
  import opened Base
  import opened Tree
  import Builders

  /** `after` is what `r` describes: the new state when it is Ok, the old one
      when it is an exception; `o` reports which. */
  ghost predicate Follows(before: Builders.BuildState, after: Builders.BuildState,
                          r: Result<Builders.BuildState>, o: Outcome)
  {
    if r.Ok? then after == r.value && o == Pass else after == before && o == Fail(r.error)
  }

  class ElementBuilder {
    var nodes: Arena
    var active: Option<nat>
    const closing: Builders.Policy

    function State(): Builders.BuildState
      reads this
    {
      Builders.BuildState(nodes, active)
    }

    ghost predicate Valid()
      reads this
    {
      Builders.Valid(State())
    }

    /** `new <Policy>ElementBuilder(new Document())`. */
    constructor (closing: Builders.Policy)
      ensures Valid() && State() == Builders.START && this.closing == closing
    {
      nodes := [ROOT];
      active := Some(0);
      this.closing := closing;
    }

    /** closeAuto (dom.js:53-55). */
    method CloseAuto() returns (o: Outcome)
      requires Valid()
      modifies this
      ensures Valid()
      ensures Follows(old(State()), State(), Builders.CloseAuto(old(State())), o)
    {
      if active.None? {
        return Fail(TypeError);
      }
      assert LinkedAt(nodes, active.value);
      active := nodes[active.value].parent;
      return Pass;
    }

    /** appendChild (dom.js:57-59) of a fresh `new Element(name)`. */
    method AppendChild(name: string) returns (o: Outcome)
      requires Valid()
      modifies this
      ensures Valid()
      ensures Follows(old(State()), State(), Builders.AppendChild(old(State()), name), o)
    {
      if active.None? {
        return Fail(TypeError);
      }
      nodes := AppendChildAt(nodes, active.value, name);
      return Pass;
    }

    /** openChild (dom.js:61-64). */
    method OpenChild(name: string) returns (o: Outcome)
      requires Valid()
      modifies this
      ensures Valid()
      ensures Follows(old(State()), State(), Builders.OpenChild(old(State()), name), o)
    {
      o := AppendChild(name);
      if o.Pass? {
        active := Some(|nodes| - 1);
      }
    }

    /** appendText (dom.js:66-68). */
    method AppendText(text: string) returns (o: Outcome)
      requires Valid()
      modifies this
      ensures Valid()
      ensures Follows(old(State()), State(), Builders.AppendText(old(State()), text), o)
    {
      if active.None? {
        return Fail(TypeError);
      }
      nodes := AppendTextAt(nodes, active.value, text);
      return Pass;
    }

    /** closeElement of the builder's policy (dom.js:75-147); the searching
        policies move a cursor up the parent links. */
    method CloseElement(name: string) returns (o: Outcome)
      requires Valid()
      modifies this
      ensures Valid()
      ensures Follows(old(State()), State(), Builders.CloseElement(closing, old(State()), name), o)
    {
      if active.None? {
        return Fail(TypeError);
      }
      var start: nat := active.value;
      assert LinkedAt(nodes, start);
      match closing {
        case Forcing =>
          o := CloseAuto();
        case Ignoring =>
          if nodes[start].name == Some(name) {
            active := nodes[start].parent;
          }
          o := Pass;
        case Strict =>
          if nodes[start].name == Some(name) {
            active := nodes[start].parent;
            o := Pass;
          } else {
            o := Fail(InputError("invalid closing tag"));
          }
        case Searching =>
          var cursor: nat := start;
          while nodes[cursor].name != Some(name) && nodes[cursor].parent.Some?
            invariant cursor < |nodes| && LinkedAt(nodes, cursor)
            invariant Builders.Nearest(nodes, cursor, name) == Builders.Nearest(nodes, start, name)
            decreases cursor
          {
            cursor := nodes[cursor].parent.value;
            assert LinkedAt(nodes, cursor);
          }
          active := nodes[cursor].parent;
          o := Pass;
        case StrictSearching =>
          var cursor: nat := start;
          while nodes[cursor].name != Some(name)
            invariant cursor < |nodes| && LinkedAt(nodes, cursor)
            invariant Builders.Nearest(nodes, cursor, name) == Builders.Nearest(nodes, start, name)
            decreases cursor
          {
            if nodes[cursor].parent.None? {
              return Fail(InputError("invalid closing tag"));
            }
            cursor := nodes[cursor].parent.value;
            assert LinkedAt(nodes, cursor);
          }
          active := nodes[cursor].parent;
          o := Pass;
        case ForcingSearching =>
          var cursor: nat := start;
          while nodes[cursor].name != Some(name)
            invariant cursor < |nodes| && LinkedAt(nodes, cursor)
            invariant Builders.Nearest(nodes, cursor, name) == Builders.Nearest(nodes, start, name)
            decreases cursor
          {
            if nodes[cursor].parent.None? {
              active := nodes[start].parent;
              return Pass;
            }
            cursor := nodes[cursor].parent.value;
            assert LinkedAt(nodes, cursor);
          }
          active := nodes[cursor].parent;
          o := Pass;
        case IgnoringSearching =>
          var cursor: nat := start;
          while nodes[cursor].name != Some(name)
            invariant cursor < |nodes| && LinkedAt(nodes, cursor)
            invariant Builders.Nearest(nodes, cursor, name) == Builders.Nearest(nodes, start, name)
            decreases cursor
          {
            if nodes[cursor].parent.None? {
              return Pass;
            }
            cursor := nodes[cursor].parent.value;
            assert LinkedAt(nodes, cursor);
          }
          active := nodes[cursor].parent;
          o := Pass;
      }
    }
  }
}
