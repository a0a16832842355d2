/** The value codec (index.js:451-640): `readObj` and `objectReader().read`
    turn an element tree into a value, and the working branches of
    `objectWriter().write` turn a value into an element. Values are stated
    as a datatype, and the methods that fill sets, lists and maps with
    loops are proved to compute the decoding functions. */
module Values {
  import opened Base
  import opened Tree

  /** The JavaScript values the codec produces and takes. */
  datatype Value =
    | Undefined                           // undefined, the value of `nil` and of unknown names
    | Bool(b: bool)
    | Str(s: string)
    | Num(source: Item<Element>)          // Number.parseFloat of this item; the float is not modelled
    | Elem(e: Element)                    // an element handed back as it is
    | ListOf(items: seq<Value>)
    | SetOf(members: seq<Value>)          // a Set, in insertion order
    | MapOf(entries: seq<(Value, Value)>) // a Map, in insertion order
    | DictOf(entries: seq<(Value, Value)>) // a plain object used as a dictionary

  /** The values a Set or a Map compares by value (SameValueZero); every
      object the decoder makes is fresh and equal only to itself. */
  predicate Primitive(v: Value) {
    v.Undefined? || v.Bool? || v.Str? || v.Num?
  }

  /** An item as it stands: a string, or an element object. */
  function Raw(item: Item<Element>): (v: Value)
    ensures item.Text? ==> v == Str(item.text)
    ensures item.Child? ==> v == Elem(item.child)
  {
    match item
    case Text(t) => Str(t)
    case Child(e) => Elem(e)
  }

  /** No two members of a Set are the same value. */
  ghost predicate Distinct(ms: seq<Value>) {
    forall i, j :: 0 <= i < j < |ms| && Primitive(ms[i]) ==> ms[i] != ms[j]
  }

  /** `Set.prototype.add`: a primitive already present is not added again. */
  function SetAdd(ms: seq<Value>, v: Value): seq<Value> {
    if Primitive(v) && v in ms then ms else ms + [v]
  }

  /** The position of the entry whose key is the same value as k. */
  function KeyIndex(entries: seq<(Value, Value)>, k: Value): (r: Option<nat>)
    ensures r.Some? ==> r.value < |entries| && entries[r.value].0 == k && Primitive(k)
    ensures r.None? ==> !Primitive(k) || forall i :: 0 <= i < |entries| ==> entries[i].0 != k
  {
    if !Primitive(k) || entries == [] then None
    else if entries[|entries| - 1].0 == k then Some(|entries| - 1)
    else KeyIndex(entries[..|entries| - 1], k)
  }

  /** `Map.prototype.set` (and a property assignment): a present key keeps
      its place and takes the new value; a new key goes last. */
  function MapPut(entries: seq<(Value, Value)>, k: Value, v: Value): seq<(Value, Value)> {
    match KeyIndex(entries, k)
    case Some(i) => entries[i := (k, v)]
    case None => entries + [(k, v)]
  }

  /** No key occurs twice in a map. */
  ghost predicate UniqueKeys(entries: seq<(Value, Value)>) {
    forall i, j :: 0 <= i < j < |entries| && Primitive(entries[i].0) ==> entries[i].0 != entries[j].0
  }

  /** isInvalidEntry (index.js:451-453): anything but `entry` holding a key
      and a `value` element with exactly one item. A text item has no name
      and is invalid. */
  predicate IsInvalidEntry(item: Item<Element>) {
    match item
    case Text(_) => true
    case Child(e) =>
      e.name != "entry" || |e.content| != 2 || !e.content[1].Child? ||
      e.content[1].child.name != "value" || |e.content[1].child.content| != 1
  }

  /** readObj (index.js:455-514) on one item. */
  function Decode(item: Item<Element>): (r: Result<Value>)
    ensures r.Err? ==> r.error.InputError?
    ensures item.Text? ==> r == Ok(Str(item.text))
    decreases item
  {
    match item
    case Text(t) => Ok(Str(t))
    case Child(e) => DecodeElement(e)
  }

  /** readObj on an element, by its name; an unknown name leaves `result`
      undefined (index.js:484, 512). */
  function DecodeElement(e: Element): (r: Result<Value>)
    ensures r.Err? ==> r.error.InputError?
    decreases e
  {
    if e.name == "nil" then Ok(Undefined)
    else if e.name == "true" then Ok(Bool(true))
    else if e.name == "false" then Ok(Bool(false))
    else if e.name == "text" then DecodeText(e.content)
    else if e.name == "number" then
      if |e.content| == 1 then Ok(Num(e.content[0])) else Err(InputError("invalid number"))
    else if e.name == "set" then
      var ms :- DecodeMembers(e.content);
      Ok(SetOf(ms))
    else if e.name == "list" then
      var vs :- DecodeItems(e.content);
      Ok(ListOf(vs))
    else if e.name == "map" then
      var es :- DecodeEntries(e.content);
      Ok(MapOf(es))
    else if e.name == "dictionairy" then
      var es :- DecodeEntries(e.content);
      Ok(DictOf(es))
    else Ok(Undefined)
  }

  /** A `text` element (index.js:468-476) as evidently intended: no item is
      the empty string and one item is that item (see DecodeTextAsWritten). */
  function DecodeText(content: seq<Item<Element>>): (r: Result<Value>)
    ensures r.Err? ==> r.error.InputError?
    ensures |content| == 0 ==> r == Ok(Str(""))
    ensures |content| == 1 ==> r == Ok(Raw(content[0]))
    ensures |content| >= 2 ==> r == Err(InputError("invalid text"))
  {
    if |content| == 0 then Ok(Str(""))
    else if |content| == 1 then Ok(Raw(content[0]))
    else Err(InputError("invalid text"))
  }

  /** The `text` branch as written: both tests are `length === 1`, so one
      item reads as the empty string and no item raises. The second test,
      whose branch would return the item itself, repeats the first and is
      never reached, so it has no branch here. */
  function DecodeTextAsWritten(content: seq<Item<Element>>): Result<Value> {
    if |content| == 1 then Ok(Str(""))
    else Err(InputError("invalid text"))
  }

  /** The `list` loop (index.js:490-494): each item decoded, in order. */
  function DecodeItems(items: seq<Item<Element>>): (r: Result<seq<Value>>)
    ensures r.Err? ==> r.error.InputError?
    ensures r.Ok? ==> |r.value| == |items|
    ensures r.Ok? ==> forall k :: 0 <= k < |items| ==> Decode(items[k]) == Ok(r.value[k])
    decreases items
  {
    if items == [] then Ok([])
    else
      var vs :- DecodeItems(items[..|items| - 1]);
      var v :- Decode(items[|items| - 1]);
      assert forall k :: 0 <= k < |items| - 1 ==> items[k] == items[..|items| - 1][k];
      Ok(vs + [v])
  }

  /** The `set` loop (index.js:485-489): each item decoded and added. */
  function DecodeMembers(items: seq<Item<Element>>): (r: Result<seq<Value>>)
    ensures r.Err? ==> r.error.InputError?
    ensures r.Ok? ==> Distinct(r.value) && |r.value| <= |items|
    decreases items
  {
    if items == [] then Ok([])
    else
      var ms :- DecodeMembers(items[..|items| - 1]);
      var v :- Decode(items[|items| - 1]);
      SetAddDistinct(ms, v);
      Ok(SetAdd(ms, v))
  }

  /** The `map` and `dictionairy` loops (index.js:495-511): an invalid
      entry raises; otherwise the decoded key is set to the value element's
      one item, undecoded. */
  function DecodeEntries(items: seq<Item<Element>>): (r: Result<seq<(Value, Value)>>)
    ensures r.Err? ==> r.error.InputError?
    ensures r.Ok? ==> UniqueKeys(r.value) && |r.value| <= |items|
    ensures r.Ok? ==> forall k :: 0 <= k < |items| ==> !IsInvalidEntry(items[k])
    decreases items
  {
    if items == [] then Ok([])
    else
      var es :- DecodeEntries(items[..|items| - 1]);
      var item := items[|items| - 1];
      if IsInvalidEntry(item) then Err(InputError("invalid entry"))
      else
        var entry :- DecodeEntry(item);
        MapPutUnique(es, entry.0, entry.1);
        assert forall k :: 0 <= k < |items| - 1 ==> items[k] == items[..|items| - 1][k];
        Ok(MapPut(es, entry.0, entry.1))
  }

  /** A valid entry: its key decoded, and its value element's one item. */
  function DecodeEntry(item: Item<Element>): (r: Result<(Value, Value)>)
    requires !IsInvalidEntry(item)
    ensures r.Err? ==> r.error.InputError?
    ensures r.Ok? <==> Decode(item.child.content[0]).Ok?
    ensures r.Ok? ==> Decode(item.child.content[0]) == Ok(r.value.0)
    ensures r.Ok? ==> r.value.1 == Raw(item.child.content[1].child.content[0])
    decreases item
  {
    var e := item.child;
    assert e.content[0] in e.content;
    var key :- Decode(e.content[0]);
    Ok((key, Raw(e.content[1].child.content[0])))
  }

  /** Adding to a Set keeps its members distinct. */
  lemma SetAddDistinct(ms: seq<Value>, v: Value)
    requires Distinct(ms)
    ensures Distinct(SetAdd(ms, v))
  {
  }

  /** Setting a key keeps the keys of a map unique. */
  lemma MapPutUnique(entries: seq<(Value, Value)>, k: Value, v: Value)
    requires UniqueKeys(entries)
    ensures UniqueKeys(MapPut(entries, k, v))
  {
  }

  /** objectReader().read (index.js:531-542): one item is decoded, several
      are handed back undecoded as a list, and an empty document raises. */
  function DecodeDocument(doc: Document): (r: Result<Value>)
    ensures |doc| == 0 ==> r == Err(InputError("Empty document"))
    ensures |doc| == 1 ==> r == Decode(doc[0])
    ensures |doc| > 1 ==> r.Ok? && r.value.ListOf? && |r.value.items| == |doc|
    ensures |doc| > 1 ==> forall k :: 0 <= k < |doc| ==> r.value.items[k] == Raw(doc[k])
  {
    if |doc| == 1 then Decode(doc[0])
    else if |doc| > 1 then Ok(ListOf(RawItems(doc)))
    else Err(InputError("Empty document"))
  }

  /** The items as they stand. */
  function RawItems(items: seq<Item<Element>>): (vs: seq<Value>)
    ensures |vs| == |items| && forall k :: 0 <= k < |items| ==> vs[k] == Raw(items[k])
  {
    if items == [] then []
    else
      var vs := RawItems(items[..|items| - 1]) + [Raw(items[|items| - 1])];
      assert forall k :: 0 <= k < |items| - 1 ==> vs[k] == Raw(items[..|items| - 1][k]);
      vs
  }

  /** The terminating branches of objectWriter().write (index.js:588-632):
      a string becomes a `text` element holding it, and an array or a Set a
      `list` or `set` element holding each member written. The booleans
      and undefined are built with `new Element(name, false)`, which throws
      (dom.js:17). A Map becomes an empty `map` element whatever it holds,
      since `for (let key in map)` visits no entry of a Map (index.js:578),
      and an object with no keys an empty `dictionairy` element. The
      number branch declares a second `element` and returns undefined, an
      object with keys recurses without end (each `value` element is
      itself written as an object), and element objects are such objects:
      these are outside the model. */
  function Encode(v: Value): (r: Result<Element>)
    decreases v
  {
    match v
    case Undefined => Err(TypeError)
    case Bool(_) => Err(TypeError)
    case Str(s) => Ok(Element("text", AppendText([], s)))
    case ListOf(items) =>
      var c :- EncodeAll(items);
      Ok(Element("list", c))
    case SetOf(members) =>
      var c :- EncodeAll(members);
      Ok(Element("set", c))
    case MapOf(_) => Ok(Element("map", []))
    case DictOf(entries) => if entries == [] then Ok(Element("dictionairy", [])) else Err(Unsupported)
    case _ => Err(Unsupported)
  }

  /** The loops of the array and Set branches (index.js:605-614): each
      member written and appended as a child. */
  function EncodeAll(vs: seq<Value>): (r: Result<seq<Item<Element>>>)
    ensures r.Ok? ==> |r.value| == |vs|
    ensures r.Ok? ==> forall k :: 0 <= k < |vs| ==> Encode(vs[k]).Ok? && r.value[k] == Child(Encode(vs[k]).value)
    decreases vs
  {
    if vs == [] then Ok([])
    else
      var c :- EncodeAll(vs[..|vs| - 1]);
      var e :- Encode(vs[|vs| - 1]);
      assert forall k :: 0 <= k < |vs| - 1 ==> vs[k] == vs[..|vs| - 1][k];
      Ok(c + [Child(e)])
  }

  /** The values the terminating branches of the encoder accept: strings,
      Maps, the empty dictionary, and arrays and Sets of such values. */
  ghost predicate Writable(v: Value)
    decreases v
  {
    match v
    case Str(_) => true
    case MapOf(_) => true
    case DictOf(entries) => entries == []
    case ListOf(items) => forall k :: 0 <= k < |items| ==> Writable(items[k])
    case SetOf(members) => forall k :: 0 <= k < |members| ==> Writable(members[k])
    case _ => false
  }

  /** The writable values whose Sets hold distinct members, as every Set does. */
  ghost predicate Encodable(v: Value)
    decreases v
  {
    match v
    case Str(_) => true
    case ListOf(items) => forall k :: 0 <= k < |items| ==> Encodable(items[k])
    case SetOf(members) => Distinct(members) && forall k :: 0 <= k < |members| ==> Encodable(members[k])
    case _ => false
  }

  /** The encoder produces an element exactly for the writable values. */
  lemma {:induction false} EncodeSucceeds(v: Value)
    ensures Encode(v).Ok? <==> Writable(v)
    decreases v, 1
  {
    match v
    case ListOf(items) => EncodeAllSucceeds(items);
    case SetOf(members) => EncodeAllSucceeds(members);
    case _ =>
  }

  lemma {:induction false} EncodeAllSucceeds(vs: seq<Value>)
    ensures EncodeAll(vs).Ok? <==> forall k :: 0 <= k < |vs| ==> Writable(vs[k])
    decreases vs, 0
  {
    if vs != [] {
      var u := vs[..|vs| - 1];
      EncodeAllSucceeds(u);
      EncodeSucceeds(vs[|vs| - 1]);
      assert forall k :: 0 <= k < |u| ==> u[k] == vs[k];
    }
  }

  /** Decoding what the encoder writes gives the value back: strings, and
      arrays and Sets of them however deeply nested, read back from
      `writeObject` with `readObject` (with the `text` branch corrected). */
  lemma {:induction false} RoundTrip(v: Value)
    requires Encodable(v)
    ensures Encode(v).Ok? && Decode(Child(Encode(v).value)) == Ok(v)
    decreases v, 1
  {
    match v
    case Str(s) =>
      AppendTextFresh<Element>(s);
      DecodesByName(AppendText([], s));
    case ListOf(items) =>
      RoundTripAll(items);
      DecodesByName(EncodeAll(items).value);
    case SetOf(members) =>
      RoundTripAll(members);
      DecodesByName(EncodeAll(members).value);
  }

  /** The three names the encoder writes select their own branch of readObj. */
  lemma DecodesByName(c: seq<Item<Element>>)
    ensures DecodeElement(Element("text", c)) == DecodeText(c)
    ensures DecodeElement(Element("list", c)) == (var vs :- DecodeItems(c); Ok(ListOf(vs)))
    ensures DecodeElement(Element("set", c)) == (var ms :- DecodeMembers(c); Ok(SetOf(ms)))
  {
    assert "text" != "nil" && "text" != "true" && "text" != "false";
    assert "list" != "nil" && "list" != "true" && "list" != "false" && "list" != "text" && "list" != "number" && "list" != "set";
    assert "set" != "nil" && "set" != "true" && "set" != "false" && "set" != "text" && "set" != "number";
  }

  /** The children the encoder writes for a sequence decode, as a list,
      to that sequence, and so do they as a Set when its members are
      distinct. */
  lemma {:induction false} RoundTripAll(vs: seq<Value>)
    requires forall k :: 0 <= k < |vs| ==> Encodable(vs[k])
    ensures EncodeAll(vs).Ok? && DecodeItems(EncodeAll(vs).value) == Ok(vs)
    ensures Distinct(vs) ==> DecodeMembers(EncodeAll(vs).value) == Ok(vs)
    decreases vs, 0
  {
    if vs != [] {
      var u, last := vs[..|vs| - 1], vs[|vs| - 1];
      assert forall k :: 0 <= k < |u| ==> u[k] == vs[k];
      RoundTripAll(u);
      RoundTrip(last);
      var c := EncodeAll(u).value;
      var e := Encode(last).value;
      assert EncodeAll(vs) == Ok(c + [Child(e)]);
      assert (c + [Child(e)])[..|c|] == c;
      Snoc(vs);
      if Distinct(vs) {
        assert Distinct(u);
        if Primitive(last) {
          assert forall k :: 0 <= k < |u| ==> u[k] != last;
        }
        assert SetAdd(u, last) == vs;
      }
    }
  }

  /** A Map is written with none of its entries and reads back as the empty
      Map; the empty dictionary reads back as itself. */
  lemma MapsWrittenEmpty(entries: seq<(Value, Value)>)
    ensures Encode(MapOf(entries)).Ok? && Decode(Child(Encode(MapOf(entries)).value)) == Ok(MapOf([]))
    ensures Encode(DictOf([])).Ok? && Decode(Child(Encode(DictOf([])).value)) == Ok(DictOf([]))
  {
    DecodesOtherNames(Element("map", []));
    DecodesOtherNames(Element("dictionairy", []));
  }

  /** As written, the `text` branch reads no string back: `writeObject(s)`
      followed by `readObject` raises for the empty string and gives the
      empty string for any other. */
  lemma TextAsWrittenFails(s: string)
    ensures Encode(Str(s)).Ok?
    ensures s == "" ==> DecodeTextAsWritten(Encode(Str(s)).value.content) == Err(InputError("invalid text"))
    ensures s != "" ==> DecodeTextAsWritten(Encode(Str(s)).value.content) == Ok(Str(""))
    ensures DecodeTextAsWritten(Encode(Str(s)).value.content) != Ok(Str(s))
  {
    AppendTextFresh<Element>(s);
  }

  /** Decoding a list of items succeeds exactly when every item decodes. */
  lemma {:induction false} ItemsDecode(items: seq<Item<Element>>)
    ensures DecodeItems(items).Ok? <==> forall k :: 0 <= k < |items| ==> Decode(items[k]).Ok?
    decreases |items|
  {
    if items != [] {
      var u := items[..|items| - 1];
      ItemsDecode(u);
      assert forall k :: 0 <= k < |u| ==> u[k] == items[k];
    }
  }

  /** A Set holds exactly the values its items decode to, each once. */
  lemma {:induction false} MembersAreItems(items: seq<Item<Element>>)
    ensures DecodeMembers(items).Ok? <==> DecodeItems(items).Ok?
    ensures DecodeMembers(items).Ok? ==>
              forall v :: v in DecodeMembers(items).value <==> v in DecodeItems(items).value
    decreases |items|
  {
    if items != [] {
      MembersAreItems(items[..|items| - 1]);
    }
  }

  /** The value for a key in a map. */
  function Lookup(entries: seq<(Value, Value)>, k: Value): Option<Value> {
    match KeyIndex(entries, k)
    case Some(i) => Some(entries[i].1)
    case None => None
  }

  /** Setting a key: that key now has the new value, every other key keeps
      its value, and the map grows only for a new key. */
  lemma MapPutLookup(entries: seq<(Value, Value)>, k: Value, v: Value, other: Value)
    requires UniqueKeys(entries) && Primitive(k) && Primitive(other) && other != k
    ensures Lookup(MapPut(entries, k, v), k) == Some(v)
    ensures Lookup(MapPut(entries, k, v), other) == Lookup(entries, other)
    ensures |MapPut(entries, k, v)| == if Lookup(entries, k).Some? then |entries| else |entries| + 1
  {
    MapPutUnique(entries, k, v);
    var r := MapPut(entries, k, v);
    KeyIndexUnique(r, k);
    KeyIndexUnique(r, other);
    KeyIndexUnique(entries, other);
  }

  /** Setting a key leaves the value of every other primitive key as it was. */
  lemma MapPutOther(entries: seq<(Value, Value)>, k: Value, v: Value, other: Value)
    requires UniqueKeys(entries) && Primitive(other) && other != k
    ensures Lookup(MapPut(entries, k, v), other) == Lookup(entries, other)
  {
    if KeyIndex(entries, k).Some? {
      MapPutLookup(entries, k, v, other);
    } else {
      assert (entries + [(k, v)])[..|entries|] == entries;
    }
  }

  /** With unique keys, the entry KeyIndex finds is the only one with the key. */
  lemma KeyIndexUnique(entries: seq<(Value, Value)>, k: Value)
    requires UniqueKeys(entries) && Primitive(k)
    ensures forall i :: 0 <= i < |entries| && entries[i].0 == k ==> KeyIndex(entries, k) == Some(i)
  {
  }

  /** A map or dictionary decodes exactly when every entry is valid and every
      key decodes. */
  lemma {:induction false} EntriesDecode(items: seq<Item<Element>>)
    ensures DecodeEntries(items).Ok? <==>
              forall k :: 0 <= k < |items| ==> !IsInvalidEntry(items[k]) && DecodeEntry(items[k]).Ok?
    decreases |items|
  {
    if items != [] {
      var u := items[..|items| - 1];
      EntriesDecode(u);
      assert forall k :: 0 <= k < |u| ==> u[k] == items[k];
    }
  }

  /** Reading one more valid entry whose key decodes: its key is set to its
      raw value, any other primitive key keeps its value, and an object
      key, equal to no key already present, adds an entry at the end. */
  lemma EntriesSnoc(items: seq<Item<Element>>, item: Item<Element>)
    requires DecodeEntries(items).Ok? && !IsInvalidEntry(item) && DecodeEntry(item).Ok?
    ensures DecodeEntries(items + [item]).Ok?
    ensures Primitive(DecodeEntry(item).value.0) ==>
              Lookup(DecodeEntries(items + [item]).value, DecodeEntry(item).value.0) == Some(DecodeEntry(item).value.1)
    ensures forall other :: Primitive(other) && other != DecodeEntry(item).value.0 ==>
              Lookup(DecodeEntries(items + [item]).value, other) == Lookup(DecodeEntries(items).value, other)
    ensures !Primitive(DecodeEntry(item).value.0) ==>
              DecodeEntries(items + [item]).value == DecodeEntries(items).value + [DecodeEntry(item).value]
  {
    var es, entry := DecodeEntries(items).value, DecodeEntry(item).value;
    assert (items + [item])[..|items|] == items;
    assert DecodeEntries(items + [item]) == Ok(MapPut(es, entry.0, entry.1));
    forall other | Primitive(other) && other != entry.0
      ensures Lookup(MapPut(es, entry.0, entry.1), other) == Lookup(es, other)
    {
      MapPutOther(es, entry.0, entry.1, other);
    }
    if Primitive(entry.0) {
      var other := if entry.0 == Undefined then Bool(true) else Undefined;
      MapPutLookup(es, entry.0, entry.1, other);
    }
  }

  /** A map that decodes has a prefix that decodes and a valid last entry
      whose key decodes. */
  lemma EntriesPrefix(items: seq<Item<Element>>)
    requires items != [] && DecodeEntries(items).Ok?
    ensures DecodeEntries(items[..|items| - 1]).Ok?
    ensures !IsInvalidEntry(items[|items| - 1]) && DecodeEntry(items[|items| - 1]).Ok?
  {
  }

  /** The raw value of the last valid entry whose key decodes to k. */
  function LastValue(items: seq<Item<Element>>, k: Value): Option<Value> {
    if items == [] then None
    else
      var item := items[|items| - 1];
      if !IsInvalidEntry(item) && Decode(item.child.content[0]) == Ok(k) then
        Some(Raw(item.child.content[1].child.content[0]))
      else LastValue(items[..|items| - 1], k)
  }

  /** In a decoded map or dictionary, a primitive key holds the value of
      the last entry that names it: a later entry wins. */
  lemma {:induction false} EntriesLookup(items: seq<Item<Element>>, k: Value)
    requires DecodeEntries(items).Ok? && Primitive(k)
    ensures Lookup(DecodeEntries(items).value, k) == LastValue(items, k)
    decreases |items|
  {
    if items != [] {
      var u, last := items[..|items| - 1], items[|items| - 1];
      EntriesPrefix(items);
      EntriesLookup(u, k);
      EntriesLookupStep(items, k);
    }
  }

  /** The last entry keeps a key's value equal to its last entry's. */
  lemma EntriesLookupStep(items: seq<Item<Element>>, k: Value)
    requires items != [] && DecodeEntries(items[..|items| - 1]).Ok? && Primitive(k)
    requires !IsInvalidEntry(items[|items| - 1]) && DecodeEntry(items[|items| - 1]).Ok?
    requires Lookup(DecodeEntries(items[..|items| - 1]).value, k) == LastValue(items[..|items| - 1], k)
    ensures DecodeEntries(items).Ok? && Lookup(DecodeEntries(items).value, k) == LastValue(items, k)
  {
    var es, entry := DecodeEntries(items[..|items| - 1]).value, DecodeEntry(items[|items| - 1]).value;
    MapPutUnique(es, entry.0, entry.1);
    assert DecodeEntries(items) == Ok(MapPut(es, entry.0, entry.1));
    if entry.0 == k {
      var other := if k == Undefined then Bool(true) else Undefined;
      MapPutLookup(es, k, entry.1, other);
      assert LastValue(items, k) == Some(entry.1);
    } else {
      MapPutOther(es, entry.0, entry.1, k);
      assert LastValue(items, k) == LastValue(items[..|items| - 1], k);
    }
  }

  /** One iteration of the entry loop: an invalid entry or a key that does
      not decode raises, and otherwise the key is set. */
  lemma EntriesNext(items: seq<Item<Element>>, i: nat)
    requires i < |items| && DecodeEntries(items[..i]).Ok?
    ensures IsInvalidEntry(items[i]) ==> DecodeEntries(items[..i + 1]) == Err(InputError("invalid entry"))
    ensures !IsInvalidEntry(items[i]) && DecodeEntry(items[i]).Err? ==>
              DecodeEntries(items[..i + 1]) == Err(DecodeEntry(items[i]).error)
    ensures !IsInvalidEntry(items[i]) && DecodeEntry(items[i]).Ok? ==>
              DecodeEntries(items[..i + 1]) ==
              Ok(MapPut(DecodeEntries(items[..i]).value, DecodeEntry(items[i]).value.0, DecodeEntry(items[i]).value.1))
  {
    assert items[..i + 1][..i] == items[..i];
  }

  /** The names readObj tests for. */
  const OBJECT_NAMES: set<string> := {"nil", "true", "false", "text", "number", "set", "list", "map", "dictionairy"}

  /** The branches of readObj (index.js:459-512) for the names the encoder
      does not write, and for a name readObj does not know. */
  lemma DecodesOtherNames(e: Element)
    ensures e.name == "nil" ==> DecodeElement(e) == Ok(Undefined)
    ensures e.name == "true" ==> DecodeElement(e) == Ok(Bool(true))
    ensures e.name == "false" ==> DecodeElement(e) == Ok(Bool(false))
    ensures e.name == "number" && |e.content| == 1 ==> DecodeElement(e) == Ok(Num(e.content[0]))
    ensures e.name == "number" && |e.content| != 1 ==> DecodeElement(e) == Err(InputError("invalid number"))
    ensures e.name == "map" ==> DecodeElement(e) == (var es :- DecodeEntries(e.content); Ok(MapOf(es)))
    ensures e.name == "dictionairy" ==> DecodeElement(e) == (var es :- DecodeEntries(e.content); Ok(DictOf(es)))
    ensures e.name !in OBJECT_NAMES ==> DecodeElement(e) == Ok(Undefined)
  {
    assert "true" != "nil";
    assert "false" != "nil" && "false" != "true";
    assert "number" != "nil" && "number" != "true" && "number" != "false" && "number" != "text";
    assert "map" != "nil" && "map" != "true" && "map" != "false" && "map" != "text" && "map" != "number" && "map" != "set" && "map" != "list";
    assert "dictionairy" != "nil" && "dictionairy" != "true" && "dictionairy" != "false" && "dictionairy" != "text";
    assert "dictionairy" != "number" && "dictionairy" != "set" && "dictionairy" != "list" && "dictionairy" != "map";
  }

  /** A failure in a prefix of the list loop is the failure of the whole. */
  lemma {:induction false} ItemsFailFirst(items: seq<Item<Element>>, j: nat)
    requires j <= |items| && DecodeItems(items[..j]).Err?
    ensures DecodeItems(items) == DecodeItems(items[..j])
    decreases |items|
  {
    if j < |items| {
      var u := items[..|items| - 1];
      assert u[..j] == items[..j];
      ItemsFailFirst(u, j);
    } else {
      assert items[..j] == items;
    }
  }

  /** A failure in a prefix of the Set loop is the failure of the whole. */
  lemma {:induction false} MembersFailFirst(items: seq<Item<Element>>, j: nat)
    requires j <= |items| && DecodeMembers(items[..j]).Err?
    ensures DecodeMembers(items) == DecodeMembers(items[..j])
    decreases |items|
  {
    if j < |items| {
      var u := items[..|items| - 1];
      assert u[..j] == items[..j];
      MembersFailFirst(u, j);
    } else {
      assert items[..j] == items;
    }
  }

  /** A failure in a prefix of the entry loop is the failure of the whole. */
  lemma {:induction false} EntriesFailFirst(items: seq<Item<Element>>, j: nat)
    requires j <= |items| && DecodeEntries(items[..j]).Err?
    ensures DecodeEntries(items) == DecodeEntries(items[..j])
    decreases |items|
  {
    if j < |items| {
      var u := items[..|items| - 1];
      assert u[..j] == items[..j];
      EntriesFailFirst(u, j);
    } else {
      assert items[..j] == items;
    }
  }

  /** A failure in a prefix of the writer's loop is the failure of the whole. */
  lemma {:induction false} EncodeFailFirst(vs: seq<Value>, j: nat)
    requires j <= |vs| && EncodeAll(vs[..j]).Err?
    ensures EncodeAll(vs) == EncodeAll(vs[..j])
    decreases |vs|
  {
    if j < |vs| {
      var u := vs[..|vs| - 1];
      assert u[..j] == vs[..j];
      EncodeFailFirst(u, j);
    } else {
      assert vs[..j] == vs;
    }
  }

  /** readObj (index.js:455-514): the tests on the name in the source's
      order, with the loops of the container branches in the methods below. */
  method ReadObj(item: Item<Element>) returns (r: Result<Value>)
    ensures r == Decode(item)
    decreases item, 1
  {
    if item.Text? {
      return Ok(Str(item.text));
    }
    var obj := item.child;
    if obj.name == "nil" {
      return Ok(Undefined);
    }
    if obj.name == "true" {
      return Ok(Bool(true));
    }
    if obj.name == "false" {
      return Ok(Bool(false));
    }
    if obj.name == "text" {
      if |obj.content| == 0 {
        return Ok(Str(""));
      } else if |obj.content| == 1 {
        return Ok(Raw(obj.content[0]));
      }
      return Err(InputError("invalid text"));
    }
    if obj.name == "number" {
      if |obj.content| == 1 {
        return Ok(Num(obj.content[0]));
      }
      return Err(InputError("invalid number"));
    }
    var result := Undefined;
    if obj.name == "set" {
      var ms :- ReadSet(obj);
      result := SetOf(ms);
    } else if obj.name == "list" {
      var vs :- ReadList(obj);
      result := ListOf(vs);
    } else if obj.name == "map" {
      var es :- ReadEntries(obj);
      result := MapOf(es);
    } else if obj.name == "dictionairy" {
      var es :- ReadEntries(obj);
      result := DictOf(es);
    }
    return Ok(result);
  }

  /** The `set` loop (index.js:486-489): each item read and added. */
  method ReadSet(obj: Element) returns (r: Result<seq<Value>>)
    ensures r == DecodeMembers(obj.content)
    decreases obj, 0
  {
    var ms: seq<Value> := [];
    for i := 0 to |obj.content|
      invariant DecodeMembers(obj.content[..i]) == Ok(ms)
    {
      var elem := obj.content[i];
      assert elem in obj.content;
      assert obj.content[..i + 1][..i] == obj.content[..i];
      var v := ReadObj(elem);
      if v.Err? {
        MembersFailFirst(obj.content, i + 1);
        return Err(v.error);
      }
      ms := SetAdd(ms, v.value);
    }
    assert obj.content[..|obj.content|] == obj.content;
    return Ok(ms);
  }

  /** The `list` loop (index.js:491-494): each item read and pushed. */
  method ReadList(obj: Element) returns (r: Result<seq<Value>>)
    ensures r == DecodeItems(obj.content)
    decreases obj, 0
  {
    var vs: seq<Value> := [];
    for i := 0 to |obj.content|
      invariant DecodeItems(obj.content[..i]) == Ok(vs)
    {
      var elem := obj.content[i];
      assert elem in obj.content;
      assert obj.content[..i + 1][..i] == obj.content[..i];
      var v := ReadObj(elem);
      if v.Err? {
        ItemsFailFirst(obj.content, i + 1);
        return Err(v.error);
      }
      vs := vs + [v.value];
    }
    assert obj.content[..|obj.content|] == obj.content;
    return Ok(vs);
  }

  /** The `map` and `dictionairy` loops (index.js:496-511): each entry
      checked, its key read, and the key set to the value's one item. */
  method ReadEntries(obj: Element) returns (r: Result<seq<(Value, Value)>>)
    ensures r == DecodeEntries(obj.content)
    decreases obj, 0
  {
    var es: seq<(Value, Value)> := [];
    for i := 0 to |obj.content|
      invariant DecodeEntries(obj.content[..i]) == Ok(es)
    {
      var entry := obj.content[i];
      assert entry in obj.content;
      EntriesNext(obj.content, i);
      if IsInvalidEntry(entry) {
        EntriesFailFirst(obj.content, i + 1);
        return Err(InputError("invalid entry"));
      }
      var kv := ReadEntry(entry);
      if kv.Err? {
        EntriesFailFirst(obj.content, i + 1);
        return Err(kv.error);
      }
      es := MapPut(es, kv.value.0, kv.value.1);
    }
    assert obj.content[..|obj.content|] == obj.content;
    return Ok(es);
  }

  /** The body of the entry loops (index.js:501, 509) on a valid entry: its
      key read, and the value element's one item. */
  method ReadEntry(entry: Item<Element>) returns (r: Result<(Value, Value)>)
    requires !IsInvalidEntry(entry)
    ensures r == DecodeEntry(entry)
    decreases entry, 0
  {
    var e := entry.child;
    assert e.content[0] in e.content;
    var key := ReadObj(e.content[0]);
    if key.Err? {
      return Err(key.error);
    }
    return Ok((key.value, Raw(e.content[1].child.content[0])));
  }

  /** objectReader().read (index.js:535-543): one item read, several copied
      into a list, none an error. */
  method ReadDocument(doc: Document) returns (r: Result<Value>)
    ensures r == DecodeDocument(doc)
  {
    if |doc| == 1 {
      r := ReadObj(doc[0]);
      return;
    } else if |doc| > 1 {
      var list: seq<Value> := [];
      for i := 0 to |doc|
        invariant list == RawItems(doc[..i])
      {
        assert doc[..i + 1][..i] == doc[..i];
        list := list + [Raw(doc[i])];
      }
      assert doc[..|doc|] == doc;
      return Ok(ListOf(list));
    }
    return Err(InputError("Empty document"));
  }

  /** The terminating branches of objectWriter().write (index.js:590-632). */
  method WriteObj(v: Value) returns (r: Result<Element>)
    ensures r == Encode(v)
    decreases v, 1
  {
    match v
    case Undefined =>
      return Err(TypeError);
    case Bool(_) =>
      return Err(TypeError);
    case Str(s) =>
      var element := Element("text", []);
      element := element.(content := AppendText(element.content, s));
      return Ok(element);
    case ListOf(items) =>
      var c :- WriteAll(items);
      return Ok(Element("list", c));
    case SetOf(members) =>
      var c :- WriteAll(members);
      return Ok(Element("set", c));
    case MapOf(_) =>
      return Ok(Element("map", []));
    case DictOf(entries) =>
      if entries == [] {
        return Ok(Element("dictionairy", []));
      }
      return Err(Unsupported);
    case _ =>
      return Err(Unsupported);
  }

  /** The loop of the array and Set branches (index.js:605-614): each
      member written and appended as a child. */
  method WriteAll(vs: seq<Value>) returns (r: Result<seq<Item<Element>>>)
    ensures r == EncodeAll(vs)
    decreases vs, 0
  {
    var content: seq<Item<Element>> := [];
    for i := 0 to |vs|
      invariant EncodeAll(vs[..i]) == Ok(content)
    {
      assert vs[i] in vs;
      assert vs[..i + 1][..i] == vs[..i];
      var c := WriteObj(vs[i]);
      if c.Err? {
        EncodeFailFirst(vs, i + 1);
        return Err(c.error);
      }
      content := content + [Child(c.value)];
    }
    assert vs[..|vs|] == vs;
    return Ok(content);
  }
}
