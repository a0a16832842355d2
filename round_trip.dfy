/** A whole document written by the writer of index.js:341-445 and read back
    by the reader of index.js:250-339, with `</>` and the writer's text
    branch in their intended forms. Every reader configuration gives back
    the document the writer was given, once the writer's spacing and
    indentation are added to it as text of their own. */
module RoundTrip {
  import opened Base
  import opened Tree
  import opened Tokenizer
  import opened Reader
  import opened ReadProperties
  import opened Writer
  import opened WriteProperties
  import Builders

  /** A document the writer can write unambiguously: every element name is
      a tag name, and every markup character of a text is in the escape
      table. */
  ghost predicate Writable(enc: EncodeTable, x: Document)
    decreases x, 1
  {
    forall k :: 0 <= k < |x| ==> WritableItem(enc, x[k])
  }

  ghost predicate WritableItem(enc: EncodeTable, item: Item<Element>)
    decreases item
  {
    match item
    case Text(t) => Safe(enc, t)
    case Child(e) => IsName(e.name) && Writable(enc, e.content)
  }

  /** Spacing and indentation that read back as text. */
  predicate PlainLayout(conf: WriterConf) {
    Plain(conf.spacing) && (conf.indent.Some? ==> Plain(conf.indent.value))
  }

  /** Writer settings that add no text at all: no spacing, no indentation,
      as in the `default` and `compress` presets. */
  predicate Tight(conf: WriterConf) {
    conf.spacing == "" && (conf.indent.None? || conf.indent.value == "")
  }

  /** The document the writer emits, as items: the content at some level
      with the spacing before it, and each item preceded by its indentation
      and followed by the spacing, every one of them a text run. */
  function Spaced(conf: WriterConf, x: Document, level: nat): (d: Document)
    ensures |d| == 1 + 3 * |x|
    decreases x, 2
  {
    [Text(conf.spacing)] + SpacedItems(conf, x, level)
  }

  function SpacedItems(conf: WriterConf, x: Document, level: nat): (d: Document)
    ensures |d| == 3 * |x|
    decreases x, 1
  {
    if x == [] then []
    else
      SpacedItems(conf, x[..|x| - 1], level) +
      [Text(Indentation(conf, level)), SpacedItem(conf, x[|x| - 1], level), Text(conf.spacing)]
  }

  function SpacedItem(conf: WriterConf, item: Item<Element>, level: nat): Item<Element>
    decreases item
  {
    match item
    case Text(t) => Text(t)
    case Child(e) => Child(Element(e.name, Spaced(conf, e.content, level + 1)))
  }

  lemma {:induction false} PlainRepeat(t: string, n: nat)
    requires Plain(t)
    ensures Plain(Repeat(t, n))
  {
    if n > 0 {
      PlainRepeat(t, n - 1);
      var r := Repeat(t, n - 1);
      assert forall k :: 0 <= k < |r + t| ==> (r + t)[k] == if k < |r| then r[k] else t[k - |r|];
    }
  }

  lemma PlainIndentation(conf: WriterConf, level: nat)
    requires PlainLayout(conf)
    ensures Plain(Indentation(conf, level))
  {
    if conf.indent.Some? && conf.indent.value != "" {
      PlainRepeat(conf.indent.value, level);
    }
  }

  /** Running the reader on u and then on v. */
  lemma RunThen(conf: ReaderConf, escapes: DecodeTable, s: ReadState, u: string, v: string, s1: ReadState)
    requires Builders.Valid(s.doc) && Run(conf, escapes, s, u) == Ok(s1)
    ensures Run(conf, escapes, s, u + v) == Run(conf, escapes, s1, v)
  {
    RunConcat(conf, escapes, s, u, v);
  }

  /** Spacing or indentation read back: it joins the pending text. */
  lemma ReadsLayout(conf: ReaderConf, escapes: DecodeTable, s: ReadState, t: string) returns (s': ReadState)
    requires Ready(s) && Plain(t)
    ensures Ready(s') && s'.doc == s.doc
    ensures Run(conf, escapes, s, t) == Ok(s')
    ensures Flushed(s').nodes == BuildItem(Flushed(s).nodes, s.doc.active.value, Text(t))
  {
    s' := s.(text := s.text + t);
    ReadsPlain(conf, escapes, s, t);
    AppendTextAtTwice(s.doc.nodes, s.doc.active.value, s.text, t);
  }

  /** A written content read back: the spacing and then the items. */
  lemma {:induction false} ReadsWritten(conf: ReaderConf, escapes: DecodeTable, wconf: WriterConf, enc: EncodeTable,
                                         s: ReadState, x: Document, level: nat)
    returns (s': ReadState)
    requires Ready(s) && Decodes(enc, escapes) && PlainLayout(wconf) && Writable(enc, x)
    ensures Ready(s') && s'.doc.active == s.doc.active
    ensures Run(conf, escapes, s, Written(wconf, enc, x, level)) == Ok(s')
    ensures Flushed(s').nodes == Build(Flushed(s).nodes, s.doc.active.value, Spaced(wconf, x, level))
    decreases x, 2
  {
    var s1 := ReadsLayout(conf, escapes, s, wconf.spacing);
    s' := ReadsItems(conf, escapes, wconf, enc, s1, x, level);
    RunThen(conf, escapes, s, wconf.spacing, Items(wconf, enc, x, level), s1);
    var a, p := Flushed(s).nodes, s.doc.active.value;
    BuildConcat(a, p, [Text(wconf.spacing)], SpacedItems(wconf, x, level));
    BuildOne(a, p, Text(wconf.spacing));
  }

  /** Written items read back, one after the other. */
  lemma {:induction false} ReadsItems(conf: ReaderConf, escapes: DecodeTable, wconf: WriterConf, enc: EncodeTable,
                                       s: ReadState, x: Document, level: nat)
    returns (s': ReadState)
    requires Ready(s) && Decodes(enc, escapes) && PlainLayout(wconf) && Writable(enc, x)
    ensures Ready(s') && s'.doc.active == s.doc.active
    ensures Run(conf, escapes, s, Items(wconf, enc, x, level)) == Ok(s')
    ensures Flushed(s').nodes == Build(Flushed(s).nodes, s.doc.active.value, SpacedItems(wconf, x, level))
    decreases x, 1
  {
    if x == [] {
      s' := s;
    } else {
      var x', last := x[..|x| - 1], x[|x| - 1];
      assert Writable(enc, x') by {
        forall k | 0 <= k < |x'| ensures WritableItem(enc, x'[k]) {
          assert x'[k] == x[k];
        }
      }
      var ind := Indentation(wconf, level);
      PlainIndentation(wconf, level);
      var s1 := ReadsItems(conf, escapes, wconf, enc, s, x', level);
      var s2 := ReadsLayout(conf, escapes, s1, ind);
      var s3 := ReadsItem(conf, escapes, wconf, enc, s2, last, level);
      s' := ReadsLayout(conf, escapes, s3, wconf.spacing);
      ReadsFour(conf, escapes, s, Items(wconf, enc, x', level), ind, ItemText(wconf, enc, last, level), wconf.spacing,
                s1, s2, s3, s');
      BuildThree(Flushed(s).nodes, s.doc.active.value, SpacedItems(wconf, x', level),
                 Text(ind), SpacedItem(wconf, last, level), Text(wconf.spacing));
    }
  }

  lemma ReadsFour(conf: ReaderConf, escapes: DecodeTable, s: ReadState, a: string, b: string, c: string, d: string,
                  s1: ReadState, s2: ReadState, s3: ReadState, s4: ReadState)
    requires Builders.Valid(s.doc) && Builders.Valid(s1.doc) && Builders.Valid(s2.doc) && Builders.Valid(s3.doc)
    requires Run(conf, escapes, s, a) == Ok(s1) && Run(conf, escapes, s1, b) == Ok(s2)
    requires Run(conf, escapes, s2, c) == Ok(s3) && Run(conf, escapes, s3, d) == Ok(s4)
    ensures Run(conf, escapes, s, a + b + c + d) == Ok(s4)
  {
    RunThen(conf, escapes, s, a, b, s1);
    RunThen(conf, escapes, s, a + b, c, s2);
    RunThen(conf, escapes, s, a + b + c, d, s3);
  }

  /** One written item read back. */
  lemma {:induction false} ReadsItem(conf: ReaderConf, escapes: DecodeTable, wconf: WriterConf, enc: EncodeTable,
                                      s: ReadState, item: Item<Element>, level: nat)
    returns (s': ReadState)
    requires Ready(s) && Decodes(enc, escapes) && PlainLayout(wconf) && WritableItem(enc, item)
    ensures Ready(s') && s'.doc.active == s.doc.active
    ensures Run(conf, escapes, s, ItemText(wconf, enc, item, level)) == Ok(s')
    ensures Flushed(s').nodes == BuildItem(Flushed(s).nodes, s.doc.active.value, SpacedItem(wconf, item, level))
    decreases item
  {
    match item
    case Text(t) =>
      s' := ReadsEscaped(conf, escapes, enc, s, t);
    case Child(e) =>
      s' := ReadsElement(conf, escapes, wconf, enc, s, e, level);
  }

  /** A written element read back: the opening tag adds a child and makes it
      active, its content is read into it, and the closing tag, named or
      not, makes the parent active again under every closing policy. */
  lemma {:induction false} ReadsElement(conf: ReaderConf, escapes: DecodeTable, wconf: WriterConf, enc: EncodeTable,
                                         s: ReadState, e: Element, level: nat)
    returns (s': ReadState)
    requires Ready(s) && Decodes(enc, escapes) && PlainLayout(wconf) && IsName(e.name) && Writable(enc, e.content)
    ensures Ready(s') && s'.doc.active == s.doc.active
    ensures Run(conf, escapes, s, ItemText(wconf, enc, Child(e), level)) == Ok(s')
    ensures Flushed(s').nodes ==
            Build(AppendChildAt(Flushed(s).nodes, s.doc.active.value, e.name), |Flushed(s).nodes|,
                  Spaced(wconf, e.content, level + 1))
    decreases e
  {
    var inner := Written(wconf, enc, e.content, level + 1);
    var close := CloseTag(wconf, e.name);
    var o := Builders.OpenChild(Flushed(s), e.name).value;
    var s1 := ReadState(o, Content, "", "");
    OpensElement(conf, escapes, wconf, enc, s, e, level, s1);
    FlushedEmpty(s1);
    var s2 := ReadsWritten(conf, escapes, wconf, enc, s1, e.content, level + 1);
    var c := |Flushed(s).nodes|;
    assert Flushed(s2).nodes[c].name == Some(e.name);
    var b := Flushed(s2).(active := s.doc.active);
    s' := ReadState(b, Content, "", "");
    ClosesElement(conf, escapes, wconf, s2, e.name, s');
    RunThen(conf, escapes, s1, inner, close, s2);
    FlushedEmpty(s');
  }

  lemma OpensElement(conf: ReaderConf, escapes: DecodeTable, wconf: WriterConf, enc: EncodeTable,
                     s: ReadState, e: Element, level: nat, s1: ReadState)
    requires Ready(s) && IsName(e.name)
    requires s1 == ReadState(Builders.OpenChild(Flushed(s), e.name).value, Content, "", "")
    ensures Ready(s1)
    ensures Run(conf, escapes, s, ItemText(wconf, enc, Child(e), level)) ==
            Run(conf, escapes, s1, Written(wconf, enc, e.content, level + 1) + CloseTag(wconf, e.name))
  {
    var inner := Written(wconf, enc, e.content, level + 1);
    var close := CloseTag(wconf, e.name);
    ReadsOpenTag(conf, escapes, s, e.name, inner + close);
    Assoc("<" + e.name + ">", inner, close);
  }

  lemma ClosesElement(conf: ReaderConf, escapes: DecodeTable, wconf: WriterConf, s: ReadState, name: string, s': ReadState)
    requires Ready(s) && IsName(name) && Flushed(s).nodes[s.doc.active.value].name == Some(name)
    requires s' == ReadState(Flushed(s).(active := Flushed(s).nodes[s.doc.active.value].parent), Content, "", "")
    ensures Builders.Valid(s'.doc)
    ensures Run(conf, escapes, s, CloseTag(wconf, name)) == Ok(s')
  {
    if wconf.autoclose {
      ClosesAuto(conf, escapes, wconf, s, name, s');
    } else {
      ClosesNamed(conf, escapes, wconf, s, name, s');
    }
  }

  lemma ClosesNamed(conf: ReaderConf, escapes: DecodeTable, wconf: WriterConf, s: ReadState, name: string, s': ReadState)
    requires !wconf.autoclose && Ready(s) && IsName(name) && Flushed(s).nodes[s.doc.active.value].name == Some(name)
    requires s' == ReadState(Flushed(s).(active := Flushed(s).nodes[s.doc.active.value].parent), Content, "", "")
    ensures Builders.Valid(s'.doc)
    ensures Run(conf, escapes, s, CloseTag(wconf, name)) == Ok(s')
  {
    ReadsCloseMatching(conf, escapes, s, name, "");
    CloseTagSpelled(wconf, name);
  }

  lemma ClosesAuto(conf: ReaderConf, escapes: DecodeTable, wconf: WriterConf, s: ReadState, name: string, s': ReadState)
    requires wconf.autoclose && Ready(s)
    requires s' == ReadState(Flushed(s).(active := Flushed(s).nodes[s.doc.active.value].parent), Content, "", "")
    ensures Builders.Valid(s'.doc)
    ensures Run(conf, escapes, s, CloseTag(wconf, name)) == Ok(s')
  {
    ReadsAutoclose(conf, escapes, s, "");
    CloseTagSpelled(wconf, name);
  }

  lemma CloseTagSpelled(wconf: WriterConf, name: string)
    ensures wconf.autoclose ==> CloseTag(wconf, name) == "</>" + ""
    ensures !wconf.autoclose ==> CloseTag(wconf, name) == "</" + name + ">" + ""
  {
    if wconf.autoclose {
      assert "</" + "" == "</";
    }
  }

  /** Reading what the writer makes of a document gives the document back
      with the writer's spacing and indentation as text runs of their own,
      merged with the text next to them as the reader merges text. */
  lemma ParsesRendered(rconf: ReaderConf, sets: DecodeSets, wconf: WriterConf, esets: EncodeSets, doc: Document)
    requires Decodes(TableNamed(esets, wconf.escapeSet), TableNamed(sets, rconf.escapeSet))
    requires PlainLayout(wconf) && Writable(TableNamed(esets, wconf.escapeSet), doc)
    ensures Parse(rconf, sets, Render(wconf, esets, doc)) == Ok(Appended([], Spaced(wconf, doc, 0)))
  {
    var enc := TableNamed(esets, wconf.escapeSet);
    var escapes := TableNamed(sets, rconf.escapeSet);
    FlushedEmpty(INITIAL);
    var s := ReadsWritten(rconf, escapes, wconf, enc, INITIAL, doc, 0);
    ParseIs(rconf, sets, Written(wconf, enc, doc, 0), s);
    BuildUnfolds([ROOT], 0, Spaced(wconf, doc, 0));
  }

  /** Without spacing or indentation the added runs are all empty, and
      appending empty text changes nothing. */
  lemma {:induction false} TightSpaced(conf: WriterConf, d: Document, x: Document, level: nat)
    requires Tight(conf)
    ensures Appended(d, Spaced(conf, x, level)) == Appended(d, x)
    decreases x, 2
  {
    var first: Document := [Text(conf.spacing)];
    AppendedConcat(d, first, SpacedItems(conf, x, level));
    assert first[..0] == [];
    TightSpacedItems(conf, d, x, level);
  }

  lemma {:induction false} TightSpacedItems(conf: WriterConf, d: Document, x: Document, level: nat)
    requires Tight(conf)
    ensures Appended(d, SpacedItems(conf, x, level)) == Appended(d, x)
    decreases x, 1
  {
    if x != [] {
      var x', last := x[..|x| - 1], x[|x| - 1];
      AppendedThree(d, SpacedItems(conf, x', level), Text(Indentation(conf, level)), SpacedItem(conf, last, level),
                    Text(conf.spacing));
      TightSpacedItems(conf, d, x', level);
      TightSpacedItem(conf, Appended(d, x'), last, level);
    }
  }

  lemma {:induction false} TightSpacedItem(conf: WriterConf, d: Document, item: Item<Element>, level: nat)
    requires Tight(conf)
    ensures AppendedItem(d, SpacedItem(conf, item, level)) == AppendedItem(d, item)
    decreases item
  {
    match item
    case Text(_) =>
    case Child(e) =>
      TightSpaced(conf, [], e.content, level + 1);
  }

  /** With `</>` read as closeAuto and the text branch writing each
      character once, the forms this model gives them, the `default` and
      `compress` presets, and every writer setting without spacing or
      indentation, write a canonical document so that every reader
      configuration reads it back as it was. */
  lemma ParsesRenderedTight(rconf: ReaderConf, sets: DecodeSets, wconf: WriterConf, esets: EncodeSets, doc: Document)
    requires Decodes(TableNamed(esets, wconf.escapeSet), TableNamed(sets, rconf.escapeSet))
    requires Tight(wconf) && Canonical(doc) && Writable(TableNamed(esets, wconf.escapeSet), doc)
    ensures Parse(rconf, sets, Render(wconf, esets, doc)) == Ok(doc)
  {
    ParsesRendered(rconf, sets, wconf, esets, doc);
    TightSpaced(wconf, [], doc, 0);
    AppendedCanonical(doc);
  }
}
