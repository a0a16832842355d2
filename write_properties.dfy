/** The writer against the reader: what the writer emits for text, read
    back by the reader loop of index.js:271-338, is the text it was given. */
module WriteProperties {
  import opened Base
  import opened Tree
  import opened Tokenizer
  import opened Reader
  import opened ReadProperties
  import opened Writer
  import Builders

  /** Every entity the escape table writes is a name that the entity table
      decodes back to the character. */
  ghost predicate Decodes(enc: EncodeTable, escapes: DecodeTable) {
    forall c :: c in enc ==> IsName(enc[c]) && enc[c] in escapes && escapes[enc[c]] == [c]
  }

  /** The characters that start markup are escaped by the table. */
  predicate Safe(enc: EncodeTable, t: string) {
    forall k :: 0 <= k < |t| && (t[k] == '<' || t[k] == '&') ==> t[k] in enc
  }

  /** The reader's builder once the text t is flushed after the pending text. */
  function FlushedWith(s: ReadState, t: string): (b: Builders.BuildState)
    requires Ready(s)
    ensures Builders.Valid(b) && b.active == s.doc.active
    ensures b.nodes == AppendTextAt(Flushed(s).nodes, s.doc.active.value, t)
  {
    Builders.AppendText(Flushed(s), t).value
  }

  /** The reference written for a control character (the corrected form,
      `&#` hex `;`) reads back as the character. */
  lemma ReadsControlMark(conf: ReaderConf, escapes: DecodeTable, s: ReadState, c: char, rest: string)
    requires Ready(s) && IsControl(c)
    ensures Run(conf, escapes, s, ControlMark(c) + rest) ==
            Run(conf, escapes, ReadState(FlushedWith(s, [c]), Content, "", ""), rest)
  {
    var digits := Hex(c as int);
    ReadsNumericEntity(conf, escapes, s, digits, rest);
    HexParses(c as int);
    assert CodePoint(c as int) == Ok([c]);
  }

  /** The entity written for a table character reads back as the character. */
  lemma ReadsTableEntity(conf: ReaderConf, escapes: DecodeTable, enc: EncodeTable, s: ReadState, c: char, rest: string)
    requires Ready(s) && Decodes(enc, escapes) && c in enc
    ensures Run(conf, escapes, s, "&" + enc[c] + ";" + rest) ==
            Run(conf, escapes, ReadState(FlushedWith(s, [c]), Content, "", ""), rest)
  {
    ReadsNamedEntity(conf, escapes, s, enc[c], rest);
  }

  /** One written character read back: it joins the pending text of the
      element that is being read. */
  lemma ReadsEscapedChar(conf: ReaderConf, escapes: DecodeTable, enc: EncodeTable, s: ReadState, c: char)
    returns (s': ReadState)
    requires Ready(s) && Decodes(enc, escapes) && (c == '<' || c == '&' ==> c in enc)
    ensures Ready(s') && Flushed(s') == FlushedWith(s, [c])
    ensures Run(conf, escapes, s, EscapeChar(enc, c)) == Ok(s')
  {
    if c in enc {
      s' := ReadState(FlushedWith(s, [c]), Content, "", "");
      ReadsTableEntity(conf, escapes, enc, s, c, "");
      assert "&" + enc[c] + ";" + "" == EscapeChar(enc, c);
      FlushedEmpty(s');
    } else if IsControl(c) {
      s' := ReadState(FlushedWith(s, [c]), Content, "", "");
      ReadsControlMark(conf, escapes, s, c, "");
      assert ControlMark(c) + "" == EscapeChar(enc, c);
      FlushedEmpty(s');
    } else {
      s' := ReadsVerbatimChar(conf, escapes, enc, s, c);
    }
  }

  /** A character written as itself joins the pending text. */
  lemma ReadsVerbatimChar(conf: ReaderConf, escapes: DecodeTable, enc: EncodeTable, s: ReadState, c: char)
    returns (s': ReadState)
    requires Ready(s) && c !in enc && !IsControl(c) && c != '<' && c != '&'
    ensures Ready(s') && Flushed(s') == FlushedWith(s, [c])
    ensures Run(conf, escapes, s, EscapeChar(enc, c)) == Ok(s')
  {
    s' := s.(text := s.text + [c]);
    assert EscapeChar(enc, c) == [c];
    assert Plain([c]);
    ReadsPlain(conf, escapes, s, [c]);
    AppendTextAtTwice(s.doc.nodes, s.doc.active.value, s.text, [c]);
  }

  /** A written text run read back: the builder ends up as if the run had
      been appended to the active element, however the writer escaped it. */
  lemma {:induction false} ReadsEscaped(conf: ReaderConf, escapes: DecodeTable, enc: EncodeTable, s: ReadState, t: string)
    returns (s': ReadState)
    requires Ready(s) && Decodes(enc, escapes) && Safe(enc, t)
    ensures Ready(s') && Flushed(s') == FlushedWith(s, t)
    ensures Run(conf, escapes, s, EscapeText(enc, t)) == Ok(s')
    decreases |t|
  {
    if t == "" {
      s' := s;
      AppendTextAtEmpty(Flushed(s).nodes, s.doc.active.value);
    } else {
      var u, c := t[..|t| - 1], t[|t| - 1];
      Snoc(t);
      assert Safe(enc, u) by {
        forall k | 0 <= k < |u| && (u[k] == '<' || u[k] == '&') ensures u[k] in enc {
          assert u[k] == t[k];
        }
      }
      var s1 := ReadsEscaped(conf, escapes, enc, s, u);
      s' := ReadsEscapedChar(conf, escapes, enc, s1, c);
      assert EscapeText(enc, t) == EscapeText(enc, u) + EscapeChar(enc, c);
      RunConcat(conf, escapes, s, EscapeText(enc, u), EscapeChar(enc, c));
      FlushedWithTwice(s, s1, u, c);
    }
  }

  lemma FlushedWithTwice(s: ReadState, s1: ReadState, u: string, c: char)
    requires Ready(s) && Ready(s1) && Flushed(s1) == FlushedWith(s, u)
    ensures FlushedWith(s1, [c]) == FlushedWith(s, u + [c])
  {
    AppendTextAtTwice(Flushed(s).nodes, s.doc.active.value, u, [c]);
  }

  /** Reading what the writer makes of a one-run document gives the run
      back, with the spacing around it as the text it is: the `default` and
      `compress` presets give the document back as it was, and `beautify`
      adds a newline on each side. */
  lemma ParsesWrittenText(rconf: ReaderConf, sets: DecodeSets, wconf: WriterConf, esets: EncodeSets, t: string)
    requires Decodes(TableNamed(esets, wconf.escapeSet), TableNamed(sets, rconf.escapeSet))
    requires Safe(TableNamed(esets, wconf.escapeSet), t) && Plain(wconf.spacing)
    ensures Parse(rconf, sets, Render(wconf, esets, [Text(t)])) == Ok(TextDoc(wconf.spacing + t + wconf.spacing))
  {
    var enc := TableNamed(esets, wconf.escapeSet);
    var escapes := TableNamed(sets, rconf.escapeSet);
    var sp := wconf.spacing;
    var e := EscapeText(enc, t);
    WritesText(wconf, esets, t);
    RunConcat(rconf, escapes, INITIAL, sp + e, sp);
    RunConcat(rconf, escapes, INITIAL, sp, e);
    ReadsPlain(rconf, escapes, INITIAL, sp);
    assert "" + sp == sp;
    var s0 := INITIAL.(text := sp);
    var s1 := ReadsEscaped(rconf, escapes, enc, s0, t);
    ReadsPlain(rconf, escapes, s1, sp);
    var s2 := s1.(text := s1.text + sp);
    ParseIs(rconf, sets, sp + e + sp, s2);
    AppendTextAtTwice(s1.doc.nodes, 0, s1.text, sp);
    AppendTextAtTwice([ROOT], 0, sp, t);
    AppendTextAtTwice([ROOT], 0, sp + t, sp);
    TextDocument(sp + t + sp);
  }
}
