/** The markup writer (index.js:352-445): a configuration, the escape table
    it encodes characters with, and the depth-first renderer that writes an
    element tree to an output stream. The renderer is stated as functions
    on values and the methods that write to the stream are proved to
    produce exactly that text. */
module Writer {
  import opened Base
  import opened Tree
  import opened Tokenizer
  import Reader

  /** A writer configuration (index.js:352-366). An `indent` of None is the
      undefined default. */
  datatype WriterConf = WriterConf(
    indent: Option<string>,
    autoclose: bool,
    spacing: string,
    escapeSet: string)

  /** The presets `default`, `compress` and `beautify` (index.js:352-366),
      each completed from `default`. */
  const DEFAULT_WRITER: WriterConf := WriterConf(None, false, "", "minimal")
  const COMPRESS_WRITER: WriterConf := WriterConf(None, true, "", "minimal")
  const BEAUTIFY_WRITER: WriterConf := WriterConf(Some("  "), false, "\n", "minimal")

  /** An escape table: a character to the name of the entity written for it. */
  type EncodeTable = map<char, string>

  /** The registry of escape tables; it always holds `minimal`. */
  type EncodeSets = m: map<string, EncodeTable> | "minimal" in m witness map["minimal" := map[]]

  /** s written n times. */
  function Repeat(s: string, n: nat): (r: string)
    ensures |r| == n * |s|
    ensures s == "" ==> r == ""
  {
    if n == 0 then "" else Repeat(s, n - 1) + s
  }

  /** What writeIndent (index.js:386-393) writes: nothing when `indent` is
      undefined or empty, otherwise `indent` once per level. */
  function Indentation(conf: WriterConf, level: nat): (r: string)
    ensures conf.indent.None? ==> r == ""
    ensures conf.indent.Some? ==> r == Repeat(conf.indent.value, level)
    ensures conf.indent.Some? ==> |r| == level * |conf.indent.value|
  {
    if conf.indent.None? || conf.indent.value == "" then "" else Repeat(conf.indent.value, level)
  }

  /** The lowercase hex digit of d. */
  function HexDigit(d: nat): (c: char)
    requires d < 16
    ensures IsHexDigit(c) && Reader.DigitValue(c) == d
    ensures !('A' <= c <= 'F')
  {
    if d < 10 then ('0' as int + d) as char else ('a' as int + d - 10) as char
  }

  /** `n.toString(16)`: the lowercase hex digits of n, most significant
      first, with no leading zero. */
  function Hex(n: nat): (s: string)
    ensures |s| > 0 && IsHex(s) && Reader.HexValue(s) == n
    ensures forall k :: 0 <= k < |s| ==> !('A' <= s[k] <= 'F')
    ensures n > 0 ==> s[0] != '0'
    decreases n
  {
    if n < 16 then [HexDigit(n)]
    else
      var s := Hex(n / 16) + [HexDigit(n % 16)];
      assert s[..|s| - 1] == Hex(n / 16);
      s
  }

  /** The characters index.js:408 writes as a character reference: code
      points 0 to 31 and 127. */
  predicate IsControl(c: char) {
    c as int <= 31 || c as int == 127
  }

  /** The reference written for a control character: its code in hex as a
      numeric entity, which the reader decodes (index.js:303-311). */
  function ControlMark(c: char): string {
    "&#" + Hex(c as int) + ";"
  }

  /** How one character of a text run is written: the table's entity, a
      numeric entity for a control character, or the character itself. */
  function EscapeChar(table: EncodeTable, c: char): string {
    if c in table then "&" + table[c] + ";"
    else if IsControl(c) then ControlMark(c)
    else [c]
  }

  /** A text run as written, character by character. */
  function EscapeText(table: EncodeTable, t: string): string
    decreases |t|
  {
    if t == "" then "" else EscapeText(table, t[..|t| - 1]) + EscapeChar(table, t[|t| - 1])
  }

  lemma EscapeSnoc(table: EncodeTable, t: string, i: nat)
    requires i < |t|
    ensures EscapeText(table, t[..i + 1]) == EscapeText(table, t[..i]) + EscapeChar(table, t[i])
  {
    assert t[..i + 1][..i] == t[..i];
  }

  /** `_write(elem, out, level)` (index.js:395-429): spacing, then each item. */
  function Written(conf: WriterConf, table: EncodeTable, content: seq<Item<Element>>, level: nat): string
    decreases content, 1
  {
    conf.spacing + Items(conf, table, content, level)
  }

  /** Each item indented, written, and followed by spacing. */
  function Items(conf: WriterConf, table: EncodeTable, items: seq<Item<Element>>, level: nat): string
    decreases items, 0
  {
    if items == [] then ""
    else
      Items(conf, table, items[..|items| - 1], level) + Indentation(conf, level) +
      ItemText(conf, table, items[|items| - 1], level) + conf.spacing
  }

  lemma ItemsSnoc(conf: WriterConf, table: EncodeTable, items: seq<Item<Element>>, i: nat, level: nat)
    requires i < |items|
    ensures Items(conf, table, items[..i + 1], level) ==
            Items(conf, table, items[..i], level) + Indentation(conf, level) +
            ItemText(conf, table, items[i], level) + conf.spacing
  {
    assert items[..i + 1][..i] == items[..i];
  }

  /** A text run escaped, or an element as its opening tag, its content one
      level deeper, and its closing tag, which autoclose leaves unnamed. */
  function ItemText(conf: WriterConf, table: EncodeTable, item: Item<Element>, level: nat): string
    decreases item
  {
    match item
    case Text(t) => EscapeText(table, t)
    case Child(e) => "<" + e.name + ">" + Written(conf, table, e.content, level + 1) + CloseTag(conf, e.name)
  }

  /** `</name>`, or `</>` under autoclose (index.js:421-425). */
  function CloseTag(conf: WriterConf, name: string): string {
    "</" + (if conf.autoclose then "" else name) + ">"
  }

  /** `writer(conf).write(doc)` (index.js:431-435): the document from level 0. */
  function Render(conf: WriterConf, sets: EncodeSets, doc: Document): string {
    Written(conf, TableNamed(sets, conf.escapeSet), doc, 0)
  }

  /** The renderer consults every field but the escape set's name. */
  lemma {:induction false} WrittenAgrees(c1: WriterConf, c2: WriterConf, table: EncodeTable,
                                         content: seq<Item<Element>>, level: nat)
    requires c1.(escapeSet := c2.escapeSet) == c2
    ensures Written(c1, table, content, level) == Written(c2, table, content, level)
    decreases content, 1
  {
    ItemsAgree(c1, c2, table, content, level);
  }

  lemma {:induction false} ItemsAgree(c1: WriterConf, c2: WriterConf, table: EncodeTable,
                                      items: seq<Item<Element>>, level: nat)
    requires c1.(escapeSet := c2.escapeSet) == c2
    ensures Items(c1, table, items, level) == Items(c2, table, items, level)
    decreases items, 0
  {
    if items != [] {
      ItemsAgree(c1, c2, table, items[..|items| - 1], level);
      ItemAgrees(c1, c2, table, items[|items| - 1], level);
    }
  }

  lemma {:induction false} ItemAgrees(c1: WriterConf, c2: WriterConf, table: EncodeTable,
                                      item: Item<Element>, level: nat)
    requires c1.(escapeSet := c2.escapeSet) == c2
    ensures ItemText(c1, table, item, level) == ItemText(c2, table, item, level)
    decreases item
  {
    if item.Child? {
      WrittenAgrees(c1, c2, table, item.child.content, level + 1);
    }
  }

  /** An escape set that is not registered writes as `minimal` (index.js:384). */
  lemma UnknownEscapes(conf: WriterConf, sets: EncodeSets, doc: Document)
    requires conf.escapeSet !in sets
    ensures Render(conf, sets, doc) == Render(conf.(escapeSet := "minimal"), sets, doc)
  {
    WrittenAgrees(conf, conf.(escapeSet := "minimal"), sets["minimal"], doc, 0);
  }

  /** The output stream the writer writes to. */
  class Output {
    var text: string

    constructor ()
      ensures text == ""
    {
      text := "";
    }

    method Write(s: string)
      modifies this
      ensures text == old(text) + s
    {
      text := text + s;
    }
  }

  /** writeIndent (index.js:386-393). */
  method WriteIndent(conf: WriterConf, level: nat, out: Output)
    modifies out
    ensures out.text == old(out.text) + Indentation(conf, level)
  {
    if conf.indent.None? || conf.indent.value == "" {
      return;
    }
    for i := 0 to level
      invariant out.text == old(out.text) + Repeat(conf.indent.value, i)
    {
      out.Write(conf.indent.value);
    }
  }

  /** One character of the text branch (index.js:401-413), written once. */
  method WriteChar(table: EncodeTable, c: char, out: Output)
    modifies out
    ensures out.text == old(out.text) + EscapeChar(table, c)
  {
    if c in table {
      out.Write("&" + table[c] + ";");
    } else if IsControl(c) {
      out.Write(ControlMark(c));
    } else {
      out.Write([c]);
    }
  }

  /** The character loop of the text branch (index.js:400-415), each
      character written once (EscapeTextAsWritten is the code as it stands). */
  method WriteText(table: EncodeTable, t: string, out: Output)
    modifies out
    ensures out.text == old(out.text) + EscapeText(table, t)
  {
    ghost var start := out.text;
    for i := 0 to |t|
      invariant out.text == start + EscapeText(table, t[..i])
    {
      EscapeSnoc(table, t, i);
      Assoc(start, EscapeText(table, t[..i]), EscapeChar(table, t[i]));
      WriteChar(table, t[i], out);
    }
    assert t[..|t|] == t;
  }

  /** `_write(elem, out, level)` (index.js:395-429); a Document is written as
      the unnamed element that holds it. */
  method WriteElement(conf: WriterConf, table: EncodeTable, elem: Element, level: nat, out: Output)
    modifies out
    ensures out.text == old(out.text) + Written(conf, table, elem.content, level)
    decreases elem
  {
    ghost var start := out.text;
    var content := elem.content;
    out.Write(conf.spacing);
    for i := 0 to |content|
      invariant out.text == start + conf.spacing + Items(conf, table, content[..i], level)
    {
      ItemsSnoc(conf, table, content, i, level);
      ghost var before := out.text;
      WriteIndent(conf, level, out);
      WriteItem(conf, table, content[i], level, out);
      out.Write(conf.spacing);
      AssocFour(start + conf.spacing, Items(conf, table, content[..i], level), Indentation(conf, level),
                ItemText(conf, table, content[i], level), conf.spacing);
    }
    assert content[..|content|] == content;
  }

  /** The body of the loop over an element's items (index.js:399-426). */
  method WriteItem(conf: WriterConf, table: EncodeTable, item: Item<Element>, level: nat, out: Output)
    modifies out
    ensures out.text == old(out.text) + ItemText(conf, table, item, level)
    decreases item
  {
    match item
    case Text(t) =>
      WriteText(table, t, out);
    case Child(e) =>
      ghost var start := out.text;
      var open := "<" + e.name + ">";
      out.Write(open);
      WriteElement(conf, table, e, level + 1, out);
      WriteCloseTag(conf, e.name, out);
      ghost var inner := Written(conf, table, e.content, level + 1);
      Assoc(start, open, inner);
      Assoc(start, open + inner, CloseTag(conf, e.name));
  }

  /** The closing tag (index.js:421-425). */
  method WriteCloseTag(conf: WriterConf, name: string, out: Output)
    modifies out
    ensures out.text == old(out.text) + CloseTag(conf, name)
  {
    out.Write("</");
    if !conf.autoclose {
      out.Write(name);
    }
    out.Write(">");
  }

  /** `writer(conf).write(doc)` (index.js:431-435) into a fresh string stream. */
  method WriteDocument(conf: WriterConf, sets: EncodeSets, doc: Document) returns (s: string)
    ensures s == Render(conf, sets, doc)
  {
    var out := new Output();
    WriteElement(conf, TableNamed(sets, conf.escapeSet), Element("", doc), 0, out);
    s := out.text;
  }
  /** The reader's parseInt reads back what Hex writes. */
  lemma HexParses(n: nat)
    ensures Reader.ParseHex(Hex(n)) == Some(n)
  {
  }

  /** Characters that the writer copies as they are. */
  predicate Verbatim(table: EncodeTable, t: string) {
    forall k :: 0 <= k < |t| ==> t[k] !in table && !IsControl(t[k])
  }

  /** A text run with no table character and no control character is
      written verbatim. */
  lemma {:induction false} EscapeVerbatim(table: EncodeTable, t: string)
    requires Verbatim(table, t)
    ensures EscapeText(table, t) == t
    decreases |t|
  {
    if t != "" {
      var u := t[..|t| - 1];
      VerbatimPrefix(table, t, |t| - 1);
      EscapeVerbatim(table, u);
      EscapeVerbatimStep(table, t);
    }
  }

  lemma VerbatimPrefix(table: EncodeTable, t: string, n: nat)
    requires Verbatim(table, t) && n <= |t|
    ensures Verbatim(table, t[..n])
  {
    forall k | 0 <= k < n ensures t[..n][k] !in table && !IsControl(t[..n][k]) {
      assert t[..n][k] == t[k];
    }
  }

  lemma EscapeVerbatimStep(table: EncodeTable, t: string)
    requires |t| > 0 && EscapeText(table, t[..|t| - 1]) == t[..|t| - 1]
    requires t[|t| - 1] !in table && !IsControl(t[|t| - 1])
    ensures EscapeText(table, t) == t
  {
    var u, c := t[..|t| - 1], t[|t| - 1];
    assert EscapeChar(table, c) == [c];
    assert EscapeText(table, t) == EscapeText(table, u) + EscapeChar(table, c);
    Snoc(t);
  }

  /** Escaping works character by character: a concatenation is escaped
      piecewise. */
  lemma {:induction false} EscapeConcat(table: EncodeTable, a: string, b: string)
    ensures EscapeText(table, a + b) == EscapeText(table, a) + EscapeText(table, b)
    decreases |b|
  {
    if b == "" {
      assert a + b == a;
    } else {
      var u := b[..|b| - 1];
      assert (a + b)[..|a + b| - 1] == a + u;
      assert (a + b)[|a + b| - 1] == b[|b| - 1];
      EscapeConcat(table, a, u);
      Assoc(EscapeText(table, a), EscapeText(table, u), EscapeChar(table, b[|b| - 1]));
    }
  }

  /** The items of a concatenation are written one part after the other:
      each item's text depends on the item and the level only. */
  lemma {:induction false} ItemsConcat(conf: WriterConf, table: EncodeTable, a: seq<Item<Element>>,
                                       b: seq<Item<Element>>, level: nat)
    ensures Items(conf, table, a + b, level) == Items(conf, table, a, level) + Items(conf, table, b, level)
    decreases |b|
  {
    if b == [] {
      assert a + b == a;
    } else {
      var u := b[..|b| - 1];
      var last := b[|b| - 1];
      assert (a + b)[..|a + b| - 1] == a + u;
      assert (a + b)[|a + b| - 1] == last;
      ItemsConcat(conf, table, a, u, level);
      AssocFour(Items(conf, table, a, level), Items(conf, table, u, level), Indentation(conf, level),
                ItemText(conf, table, last, level), conf.spacing);
    }
  }

  /** A document that is one text run is written as spacing, the run
      escaped, and spacing. */
  lemma WritesText(conf: WriterConf, sets: EncodeSets, t: string)
    ensures Render(conf, sets, [Text(t)]) ==
            conf.spacing + EscapeText(TableNamed(sets, conf.escapeSet), t) + conf.spacing
  {
    var table := TableNamed(sets, conf.escapeSet);
    var doc: Document := [Text(t)];
    var e := EscapeText(table, t);
    assert Indentation(conf, 0) == "" by {
      if conf.indent.Some? { assert Repeat(conf.indent.value, 0) == ""; }
    }
    assert doc[..|doc| - 1] == [] && doc[|doc| - 1] == Text(t);
    assert Items(conf, table, doc, 0) == "" + "" + e + conf.spacing;
    EmptyTwice(e, conf.spacing);
    Assoc(conf.spacing, e, conf.spacing);
  }

  /** `write(new Document("test"))` with the default writer is `test`
      (test.js:13-15) when the minimal table does not escape its letters. */
  lemma WritesTestDocument(sets: EncodeSets)
    requires 't' !in sets["minimal"] && 'e' !in sets["minimal"] && 's' !in sets["minimal"]
    ensures Render(DEFAULT_WRITER, sets, [Text("test")]) == "test"
  {
    var table := TableNamed(sets, DEFAULT_WRITER.escapeSet);
    WritesText(DEFAULT_WRITER, sets, "test");
    TestIsVerbatim(table);
    EscapeVerbatim(table, "test");
  }

  lemma TestIsVerbatim(table: EncodeTable)
    requires 't' !in table && 'e' !in table && 's' !in table
    ensures Verbatim(table, "test")
  {
  }

  /** What the loop of index.js:400-414 writes for one character as the
      code stands: the entity, a control character's code after `&` with no
      `#`, and nothing at all for any other character. */
  function MarkAsWritten(table: EncodeTable, c: char): string {
    if c in table then "&" + table[c] + ";"
    else if IsControl(c) then "&" + Hex(c as int) + ";"
    else ""
  }

  function MarksAsWritten(table: EncodeTable, t: string): string
    decreases |t|
  {
    if t == "" then "" else MarksAsWritten(table, t[..|t| - 1]) + MarkAsWritten(table, t[|t| - 1])
  }

  /** The text branch as written (index.js:400-415): the marks of the
      escaped characters, then the whole run unescaped. */
  function EscapeTextAsWritten(table: EncodeTable, t: string): string {
    MarksAsWritten(table, t) + t
  }

  /** As written, a text run without special characters still comes out
      verbatim, which is all the writer test exercises ... */
  lemma {:induction false} AsWrittenVerbatim(table: EncodeTable, t: string)
    requires Verbatim(table, t)
    ensures EscapeTextAsWritten(table, t) == t
    ensures EscapeTextAsWritten(table, t) == EscapeText(table, t)
    decreases |t|
  {
    if t != "" {
      var u := t[..|t| - 1];
      assert Verbatim(table, u) by {
        forall k | 0 <= k < |u| ensures u[k] !in table && !IsControl(u[k]) {
          assert u[k] == t[k];
        }
      }
      AsWrittenVerbatim(table, u);
    }
    EscapeVerbatim(table, t);
  }

  /** ... but a character the table escapes is written twice: once as its
      entity and once raw, after all the entities of the run. */
  lemma AsWrittenRepeatsText(table: EncodeTable, c: char)
    requires c in table
    ensures EscapeTextAsWritten(table, [c]) == EscapeText(table, [c]) + [c]
    ensures EscapeTextAsWritten(table, [c]) != EscapeText(table, [c])
  {
    assert [c][..0] == "";
    assert MarksAsWritten(table, [c]) == "" + MarkAsWritten(table, c);
    assert EscapeText(table, [c]) == "" + EscapeChar(table, c);
    assert |EscapeTextAsWritten(table, [c])| == |EscapeText(table, [c])| + 1;
  }

  /** As written, a newline (code 10) is marked `&a;`, which the reader
      takes for the named entity `a` (index.js:88-103, 122-137), not for a newline. */
  lemma NewlineMarkAsWritten(table: EncodeTable)
    requires '\n' !in table
    ensures MarkAsWritten(table, '\n') == "&" + "a" + ";"
    ensures ScanFrom(Escape, "", "a" + ";" + "") == Stopped(IdentifierEscape, "a", "")
  {
    assert Hex(10) == [HexDigit(10)];
    NamedEntityExactly("a" + ";" + "", "a", "");
  }
}
