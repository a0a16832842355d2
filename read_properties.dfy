/** What the reader loop does with each kind of markup (index.js:279-337),
    stated over Reader.Run by way of the automaton's scans. */
module ReadProperties {
  import opened Base
  import opened Tree
  import opened Tokenizer
  import opened Reader
  import Builders

  /** The loop's state once a terminal state is handled: the builder the
      handler produced, and the automaton and both buffers reset
      (index.js:326-329). */
  function Resumed(r: Result<Builders.BuildState>): (t: Result<ReadState>)
    requires r.Ok? ==> Builders.Valid(r.value)
    ensures t.Ok? <==> r.Ok?
    ensures t.Ok? ==> Builders.Valid(t.value.doc) && t.value.doc == r.value
    ensures t.Ok? ==> t.value.machine == Content && t.value.tagName == "" && t.value.text == ""
    ensures t.Err? ==> t.error == r.error
  {
    match r
    case Ok(b) => Ok(ReadState(b, Content, "", ""))
    case Err(e) => Err(e)
  }

  /** Plain text, without `<` or `&`, only accumulates in text_content. */
  lemma {:induction false} ReadsPlain(conf: ReaderConf, escapes: DecodeTable, s: ReadState, cs: string)
    requires Builders.Valid(s.doc) && s.machine == Content && Plain(cs)
    ensures Run(conf, escapes, s, cs) == Ok(s.(text := s.text + cs))
    decreases |cs|
  {
    if cs == [] {
      assert s.text + cs == s.text;
    } else {
      var s' := s.(text := s.text + [cs[0]]);
      assert Step(conf, escapes, s, cs[0]) == Ok(s');
      assert Plain(cs[1..]) by {
        forall k | 0 <= k < |cs[1..]| ensures cs[1..][k] != '<' && cs[1..][k] != '&' {
          assert cs[1..][k] == cs[k + 1];
        }
      }
      ReadsPlain(conf, escapes, s', cs[1..]);
      assert s.text + [cs[0]] + cs[1..] == s.text + cs;
    }
  }

  /** Plain text at the start of the input only fills text_content. */
  lemma ReadsPlainFirst(conf: ReaderConf, escapes: DecodeTable, x: string, r: string)
    requires Plain(x)
    ensures Run(conf, escapes, INITIAL, x + r) == Run(conf, escapes, INITIAL.(text := x), r)
  {
    RunConcat(conf, escapes, INITIAL, x, r);
    ReadsPlain(conf, escapes, INITIAL, x);
    assert "" + x == x;
  }

  /** Plain text at the end of the input, after markup, is all that is left
      in text_content. */
  lemma ReadsPlainLast(conf: ReaderConf, escapes: DecodeTable, b: Builders.BuildState, y: string)
    requires Builders.Valid(b) && Plain(y)
    ensures Run(conf, escapes, ReadState(b, Content, "", ""), y) == Ok(ReadState(b, Content, "", y))
  {
    ReadsPlain(conf, escapes, ReadState(b, Content, "", ""), y);
    assert "" + y == y;
  }

  /** The state after a character that moves the automaton on inside markup:
      the tag_name buffer takes it when the transition says so, and it is
      added to text_content (index.js:281, 330). */
  function Buffered(s: ReadState, c: char): (s': ReadState)
    requires Consume(s.machine, c).Next?
    ensures s'.doc == s.doc && s'.text == s.text + [c]
  {
    var t := Consume(s.machine, c);
    ReadState(s.doc, t.phase, if t.write then s.tagName + [c] else s.tagName, s.text + [c])
  }

  /** One character inside markup that does not reach a terminal state. */
  lemma ReadsInside(conf: ReaderConf, escapes: DecodeTable, s: ReadState, c: char, t: string)
    requires Builders.Valid(s.doc) && s.machine != Content && Consume(s.machine, c).Next?
    ensures Buffered(s, c).machine != Content
    ensures Run(conf, escapes, s, [c] + t) == Run(conf, escapes, Buffered(s, c), t)
    ensures ScanFrom(s.machine, s.tagName, [c] + t) == ScanFrom(Buffered(s, c).machine, Buffered(s, c).tagName, t)
  {
    ScanStep(s.machine, s.tagName, c, t);
    assert ([c] + t)[0] == c && ([c] + t)[1..] == t;
    assert Step(conf, escapes, s, c) == Ok(Buffered(s, c));
  }

  /** One character inside markup that reaches a terminal state. */
  lemma ReadsTerminal(conf: ReaderConf, escapes: DecodeTable, s: ReadState, c: char, t: string)
    requires Builders.Valid(s.doc) && s.machine != Content && Consume(s.machine, c).Reached?
    ensures Run(conf, escapes, s, [c] + t) ==
            Then(conf, escapes, Resumed(OnEvent(conf, escapes, s.doc, Consume(s.machine, c).event, s.tagName, s.text)), t)
    ensures ScanFrom(s.machine, s.tagName, [c] + t) == Stopped(Consume(s.machine, c).event, s.tagName, t)
  {
    ScanStep(s.machine, s.tagName, c, t);
    assert ([c] + t)[0] == c && ([c] + t)[1..] == t;
  }

  /** Inside markup, a scan that has not stopped only buffers: the builder is
      untouched and every character goes to text_content. */
  lemma {:induction false} ReadsRunning(conf: ReaderConf, escapes: DecodeTable, s: ReadState, cs: string)
    requires Builders.Valid(s.doc) && s.machine != Content
    requires ScanFrom(s.machine, s.tagName, cs).Running?
    ensures Run(conf, escapes, s, cs) ==
            Ok(ReadState(s.doc, ScanFrom(s.machine, s.tagName, cs).phase, ScanFrom(s.machine, s.tagName, cs).buffer,
                         s.text + cs))
    decreases |cs|
  {
    if cs == [] {
      assert s.text + cs == s.text;
    } else {
      var c, t := cs[0], cs[1..];
      assert cs == [c] + t;
      ReadsInside(conf, escapes, s, c, t);
      ReadsRunning(conf, escapes, Buffered(s, c), t);
      Assoc(s.text, [c], t);
    }
  }

  /** The builder once `<` or `&` has flushed text_content into the active
      element (index.js:282-285). */
  function Flushed(s: ReadState): (b: Builders.BuildState)
    requires Builders.Valid(s.doc) && s.doc.active.Some?
    ensures Builders.Valid(b) && b.active == s.doc.active
    ensures Builders.AppendText(s.doc, s.text) == Ok(b)
  {
    Builders.AppendText(s.doc, s.text).value
  }

  /** `<` or `&` in plain content flushes the text read so far and starts
      text_content afresh with that character (index.js:281-285, 330). */
  lemma ReadsOpening(conf: ReaderConf, escapes: DecodeTable, s: ReadState, o: char, cs: string)
    requires Builders.Valid(s.doc) && s.machine == Content && s.doc.active.Some?
    requires o == '<' || o == '&'
    ensures Run(conf, escapes, s, [o] + cs) ==
            Run(conf, escapes, ReadState(Flushed(s), Consume(Content, o).phase, s.tagName, [o]), cs)
  {
    assert ([o] + cs)[0] == o && ([o] + cs)[1..] == cs;
    assert Step(conf, escapes, s, o) == Ok(ReadState(Flushed(s), Consume(Content, o).phase, s.tagName, [o]));
  }

  /** Inside markup, the characters before the one that stops the automaton
      are buffered, and the terminal state is handled with everything read
      since `<` or `&`. */
  lemma ReadsUpTo(conf: ReaderConf, escapes: DecodeTable, s: ReadState, used: string, c: char, rest: string)
    requires Builders.Valid(s.doc) && s.machine != Content
    requires ScanFrom(s.machine, s.tagName, used).Running?
    requires Consume(ScanFrom(s.machine, s.tagName, used).phase, c).Reached?
    ensures Run(conf, escapes, s, used + [c] + rest) ==
            Then(conf, escapes,
                 Resumed(OnEvent(conf, escapes, s.doc, Consume(ScanFrom(s.machine, s.tagName, used).phase, c).event,
                                 ScanFrom(s.machine, s.tagName, used).buffer, s.text + used)), rest)
  {
    var sc := ScanFrom(s.machine, s.tagName, used);
    assert used + [c] + rest == used + ([c] + rest);
    RunConcat(conf, escapes, s, used, [c] + rest);
    ReadsRunning(conf, escapes, s, used);
    ReadsTerminal(conf, escapes, ReadState(s.doc, sc.phase, sc.buffer, s.text + used), c, rest);
  }

  /** Markup: `<` or `&` flushes the text read so far; the characters up to
      the one where the automaton stops (`used`, then `c`) are buffered; the
      terminal state is handled with the tag_name buffer and the text since
      `<` or `&`; and the loop goes on with the rest in plain content. */
  lemma ReadsMarkup(conf: ReaderConf, escapes: DecodeTable, s: ReadState, o: char, cs: string,
                    e: Event, b: string, rest: string) returns (used: string, c: char)
    requires Builders.Valid(s.doc) && s.machine == Content && s.tagName == "" && s.doc.active.Some?
    requires o == '<' || o == '&'
    requires ScanFrom(Consume(Content, o).phase, "", cs) == Stopped(e, b, rest)
    ensures cs == used + [c] + rest
    ensures Run(conf, escapes, s, [o] + cs) ==
            Then(conf, escapes, Resumed(OnEvent(conf, escapes, Flushed(s), e, b, [o] + used)), rest)
  {
    var q := Consume(Content, o).phase;
    used, c := StopSplits(q, "", cs, e, b, rest);
    ReadsOpening(conf, escapes, s, o, cs);
    ReadsUpTo(conf, escapes, ReadState(Flushed(s), q, "", [o]), used, c, rest);
  }

  /** The reader in plain content, ready for markup: the automaton is reset
      and the builder is not broken. */
  ghost predicate Ready(s: ReadState) {
    Builders.Valid(s.doc) && s.machine == Content && s.tagName == "" && s.doc.active.Some?
  }

  /** `<name>` opens a child of the active element and makes it active. */
  lemma ReadsOpenTag(conf: ReaderConf, escapes: DecodeTable, s: ReadState, name: string, rest: string)
    requires Ready(s) && IsName(name)
    ensures Run(conf, escapes, s, "<" + name + ">" + rest) ==
            Then(conf, escapes, Resumed(Builders.OpenChild(Flushed(s), name)), rest)
  {
    var cs := name + ">" + rest;
    OpenedExactly(cs, name, rest);
    var _, _ := ReadsMarkup(conf, escapes, s, '<', cs, Opened, name, rest);
    RegroupOne('<', name, ">", rest);
  }

  /** `<name/>` appends a childless element and leaves the active element active. */
  lemma ReadsSelfClosingTag(conf: ReaderConf, escapes: DecodeTable, s: ReadState, name: string, rest: string)
    requires Ready(s) && IsName(name)
    ensures Run(conf, escapes, s, "<" + name + "/>" + rest) ==
            Then(conf, escapes, Resumed(Builders.AppendChild(Flushed(s), name)), rest)
  {
    var cs := name + "/>" + rest;
    SelfEnclosedExactly(cs, name, rest);
    var _, _ := ReadsMarkup(conf, escapes, s, '<', cs, SelfEnclosed, name, rest);
    RegroupOne('<', name, "/>", rest);
  }

  /** `</name>` closes by the configured policy. */
  lemma ReadsCloseTag(conf: ReaderConf, escapes: DecodeTable, s: ReadState, name: string, rest: string)
    requires Ready(s) && IsName(name)
    ensures Run(conf, escapes, s, "</" + name + ">" + rest) ==
            Then(conf, escapes, Resumed(Builders.CloseElement(Builders.PolicyNamed(conf.closing), Flushed(s), name)), rest)
  {
    var cs := "/" + name + ">" + rest;
    ClosedExactly(cs, name, rest);
    var _, _ := ReadsMarkup(conf, escapes, s, '<', cs, Closed, name, rest);
    Regroup("</", name, ">", rest);
  }

  /** `</>` closes the active element whatever its name. */
  lemma ReadsAutoclose(conf: ReaderConf, escapes: DecodeTable, s: ReadState, rest: string)
    requires Ready(s)
    ensures Run(conf, escapes, s, "</>" + rest) == Then(conf, escapes, Resumed(Builders.CloseAuto(Flushed(s))), rest)
  {
    var cs := "/>" + rest;
    AutocloseExactly(cs, "", rest);
    var _, _ := ReadsMarkup(conf, escapes, s, '<', cs, Autoclose, "", rest);
    RegroupTwo("</>", rest);
  }

  /** A comment is dropped together with the characters buffered for it. */
  lemma ReadsComment(conf: ReaderConf, escapes: DecodeTable, s: ReadState, body: string, rest: string)
    requires Ready(s) && ScanFrom(Comment, "", body) == Running(Comment, "")
    ensures Run(conf, escapes, s, "<!--" + body + "-->" + rest) ==
            Run(conf, escapes, ReadState(Flushed(s), Content, "", ""), rest)
  {
    var cs := "!--" + body + "-->" + rest;
    CommentFinishes(body, rest);
    var _, _ := ReadsMarkup(conf, escapes, s, '<', cs, CommentFinished, "", rest);
    Regroup("<!--", body, "-->", rest);
  }

  /** `&name;` appends the entity's text when the table has the name; an
      unknown name raises only under strict_escape and is otherwise dropped. */
  lemma ReadsNamedEntity(conf: ReaderConf, escapes: DecodeTable, s: ReadState, name: string, rest: string)
    requires Ready(s) && IsName(name)
    ensures name in escapes ==>
              Run(conf, escapes, s, "&" + name + ";" + rest) ==
              Then(conf, escapes, Resumed(Builders.AppendText(Flushed(s), escapes[name])), rest)
    ensures name !in escapes && conf.strictEscape ==>
              Run(conf, escapes, s, "&" + name + ";" + rest) == Err(SyntaxError("invalid escape sequence"))
    ensures name !in escapes && !conf.strictEscape ==>
              Run(conf, escapes, s, "&" + name + ";" + rest) == Run(conf, escapes, ReadState(Flushed(s), Content, "", ""), rest)
  {
    var cs := name + ";" + rest;
    NamedEntityExactly(cs, name, rest);
    var _, _ := ReadsMarkup(conf, escapes, s, '&', cs, IdentifierEscape, name, rest);
    RegroupOne('&', name, ";", rest);
  }

  /** `&#digits;` appends the code point the hex digits denote. */
  lemma ReadsNumericEntity(conf: ReaderConf, escapes: DecodeTable, s: ReadState, digits: string, rest: string)
    requires Ready(s) && IsHex(digits)
    ensures Run(conf, escapes, s, "&#" + digits + ";" + rest) ==
            Then(conf, escapes, Resumed(NumericEntity(conf, Flushed(s), digits)), rest)
  {
    var cs := "#" + digits + ";" + rest;
    NumericEntityExactly(cs, digits, rest);
    var _, _ := ReadsMarkup(conf, escapes, s, '&', cs, NumericEscape, digits, rest);
    Regroup("&#", digits, ";", rest);
  }

  /** What a tag or escape error leaves: under strict_tag the exception the
      source raises, otherwise the characters buffered since `<` or `&` as
      literal text, with the offending character dropped (index.js:314-323). */
  function Recovered(conf: ReaderConf, s: ReadState, message: string, text: string): (r: Result<Builders.BuildState>)
    requires Ready(s)
    ensures conf.strictTag ==> r == Err(SyntaxError(message))
    ensures !conf.strictTag ==> r == Builders.AppendText(Flushed(s), text)
  {
    if conf.strictTag then Err(SyntaxError(message)) else Builders.AppendText(Flushed(s), text)
  }

  /** A tag or escape error met right after `mid`: the text since `<` or
      `&` is recovered (or raised) and the loop goes on with the rest. The
      input and the recovered text are passed as the caller spells them. */
  lemma ReadsRecovery(conf: ReaderConf, escapes: DecodeTable, s: ReadState, o: char, mid: string, c: char,
                      rest: string, e: Event, b: string, message: string, input: string, text: string)
    requires Ready(s) && (o == '<' || o == '&')
    requires e == TagError || e == EscapeError
    requires message == if e == TagError then "invalid tag" else "invalid escape sequence"
    requires ScanFrom(Consume(Content, o).phase, "", mid + [c] + rest) == Stopped(e, b, rest)
    requires input == [o] + (mid + [c] + rest) && text == [o] + mid
    ensures Run(conf, escapes, s, input) == Then(conf, escapes, Resumed(Recovered(conf, s, message, text)), rest)
  {
    var used, c' := ReadsMarkup(conf, escapes, s, o, mid + [c] + rest, e, b, rest);
    SameSplit(used, c', mid, c, rest);
  }

  /** `<` followed by a character that is neither `/`, `!` nor a letter. */
  lemma ReadsBadTag(conf: ReaderConf, escapes: DecodeTable, s: ReadState, c: char, rest: string)
    requires Ready(s) && c != '/' && c != '!' && !IsLetter(c)
    ensures Run(conf, escapes, s, "<" + [c] + rest) ==
            Then(conf, escapes, Resumed(Recovered(conf, s, "invalid tag", "<")), rest)
  {
    TagErrors(c, rest);
    assert "" + [c] + rest == [c] + rest;
    Assoc("<", [c], rest);
    ReadsRecovery(conf, escapes, s, '<', "", c, rest, TagError, "", "invalid tag", "<" + [c] + rest, "<");
  }

  /** An opening tag name broken off by a character that is neither a
      letter, `/` nor `>`. */
  lemma ReadsBadTagName(conf: ReaderConf, escapes: DecodeTable, s: ReadState, name: string, c: char, rest: string)
    requires Ready(s) && IsName(name) && c != '/' && c != '>' && !IsLetter(c)
    ensures Run(conf, escapes, s, "<" + name + [c] + rest) ==
            Then(conf, escapes, Resumed(Recovered(conf, s, "invalid tag", "<" + name)), rest)
  {
    TagNameErrors(name, c, rest);
    RegroupOne('<', name, [c], rest);
    ReadsRecovery(conf, escapes, s, '<', name, c, rest, TagError, name, "invalid tag",
                  "<" + name + [c] + rest, "<" + name);
  }

  /** `</` followed by a character that is neither a letter nor `>`. */
  lemma ReadsBadClose(conf: ReaderConf, escapes: DecodeTable, s: ReadState, c: char, rest: string)
    requires Ready(s) && c != '>' && !IsLetter(c)
    ensures Run(conf, escapes, s, "</" + [c] + rest) ==
            Then(conf, escapes, Resumed(Recovered(conf, s, "invalid tag", "</")), rest)
  {
    TagNameErrors("", c, rest);
    RegroupPair('<', '/', c, rest);
    ReadsRecovery(conf, escapes, s, '<', "/", c, rest, TagError, "", "invalid tag", "</" + [c] + rest, "</");
  }

  /** A closing tag name broken off by a character that is neither a letter
      nor `>`. */
  lemma ReadsBadCloseName(conf: ReaderConf, escapes: DecodeTable, s: ReadState, name: string, c: char, rest: string)
    requires Ready(s) && IsName(name) && c != '>' && !IsLetter(c)
    ensures Run(conf, escapes, s, "</" + name + [c] + rest) ==
            Then(conf, escapes, Resumed(Recovered(conf, s, "invalid tag", "</" + name)), rest)
  {
    TagNameErrors(name, c, rest);
    Regroup("</", name, [c], rest);
    RegroupTwo("</", name);
    ReadsRecovery(conf, escapes, s, '<', "/" + name, c, rest, TagError, name, "invalid tag",
                  "</" + name + [c] + rest, "</" + name);
  }

  /** `<!` not followed by `-`. */
  lemma ReadsBadComment(conf: ReaderConf, escapes: DecodeTable, s: ReadState, c: char, rest: string)
    requires Ready(s) && c != '-'
    ensures Run(conf, escapes, s, "<!" + [c] + rest) ==
            Then(conf, escapes, Resumed(Recovered(conf, s, "invalid tag", "<!")), rest)
  {
    TagErrors(c, rest);
    RegroupPair('<', '!', c, rest);
    ReadsRecovery(conf, escapes, s, '<', "!", c, rest, TagError, "", "invalid tag", "<!" + [c] + rest, "<!");
  }

  /** `&` followed by a character that is neither `#` nor a letter. */
  lemma ReadsBadEscape(conf: ReaderConf, escapes: DecodeTable, s: ReadState, c: char, rest: string)
    requires Ready(s) && c != '#' && !IsLetter(c)
    ensures Run(conf, escapes, s, "&" + [c] + rest) ==
            Then(conf, escapes, Resumed(Recovered(conf, s, "invalid tag", "&")), rest)
  {
    TagErrors(c, rest);
    assert "" + [c] + rest == [c] + rest;
    Assoc("&", [c], rest);
    ReadsRecovery(conf, escapes, s, '&', "", c, rest, TagError, "", "invalid tag", "&" + [c] + rest, "&");
  }

  /** An entity name broken off by a character that is neither a letter nor `;`. */
  lemma ReadsBadEntityName(conf: ReaderConf, escapes: DecodeTable, s: ReadState, name: string, c: char, rest: string)
    requires Ready(s) && IsName(name) && !IsLetter(c) && c != ';'
    ensures Run(conf, escapes, s, "&" + name + [c] + rest) ==
            Then(conf, escapes, Resumed(Recovered(conf, s, "invalid escape sequence", "&" + name)), rest)
  {
    EscapeErrors(name, "", c, rest);
    RegroupOne('&', name, [c], rest);
    ReadsRecovery(conf, escapes, s, '&', name, c, rest, EscapeError, name, "invalid escape sequence",
                  "&" + name + [c] + rest, "&" + name);
  }

  /** An entity number broken off by a character that is neither a hex digit nor `;`. */
  lemma ReadsBadEntityNumber(conf: ReaderConf, escapes: DecodeTable, s: ReadState, digits: string, c: char, rest: string)
    requires Ready(s) && IsHex(digits) && !IsHexDigit(c) && c != ';'
    ensures Run(conf, escapes, s, "&#" + digits + [c] + rest) ==
            Then(conf, escapes, Resumed(Recovered(conf, s, "invalid escape sequence", "&#" + digits)), rest)
  {
    EscapeErrors("", digits, c, rest);
    Regroup("&#", digits, [c], rest);
    RegroupTwo("&#", digits);
    ReadsRecovery(conf, escapes, s, '&', "#" + digits, c, rest, EscapeError, digits, "invalid escape sequence",
                  "&#" + digits + [c] + rest, "&#" + digits);
  }

  /** An input that ends inside the body of a comment leaves the automaton in
      the plain comment state with `<!--` and the body in text_content. */
  lemma ReadsUnclosedComment(conf: ReaderConf, escapes: DecodeTable, s: ReadState, body: string)
    requires Ready(s) && ScanFrom(Comment, "", body) == Running(Comment, "")
    ensures Run(conf, escapes, s, "<!--" + body) == Ok(ReadState(Flushed(s), Comment, "", "<!--" + body))
  {
    RegroupTwo("<!--", body);
    ReadsOpening(conf, escapes, s, '<', "!--" + body);
    CommentOpens(body);
    ReadsRunning(conf, escapes, ReadState(Flushed(s), Tag, "", "<"), "!--" + body);
  }

  /** A document holding one text run, or nothing for the empty text. */
  function TextDoc(t: string): (d: Document)
    ensures Texts(d) == t && Coalesced(d)
  {
    if t == "" then [] else [Text(t)]
  }

  /** Text without markup: no `<` and no `&`. */
  predicate Plain(t: string) {
    forall k :: 0 <= k < |t| ==> t[k] != '<' && t[k] != '&'
  }

  /** The document of a fresh builder once a text is flushed into the root. */
  lemma TextDocument(t: string)
    ensures DocumentOf(AppendTextAt([ROOT], 0, t)) == TextDoc(t)
  {
    var a := AppendTextAt([ROOT], 0, t);
    assert a == [Node(None, AppendText([], t), None)];
    assert LinkedAt(a, 0);
    if t != "" {
      assert a[0].content == [Text(t)];
      assert UnfoldContent(a, 0, 1) == UnfoldContent(a, 0, 0) + [Text(t)];
    }
  }

  /** A builder into which nothing is to be flushed stays as it is. */
  lemma FlushedEmpty(s: ReadState)
    requires Ready(s) && s.text == ""
    ensures Flushed(s) == s.doc
  {
    AppendTextAtEmpty(s.doc.nodes, s.doc.active.value);
  }

  /** Parse is the loop followed by the end-of-input step. */
  lemma ParseIs(conf: ReaderConf, sets: DecodeSets, input: string, s: ReadState)
    requires Run(conf, TableNamed(sets, conf.escapeSet), INITIAL, input) == Ok(s)
    ensures Builders.Valid(s.doc) && Parse(conf, sets, input) == Finish(conf, s)
  {
  }

  /** Plain text on its own reads as one text run, or as nothing when empty. */
  lemma ParsesPlain(conf: ReaderConf, sets: DecodeSets, t: string)
    requires Plain(t)
    ensures Parse(conf, sets, t) == Ok(TextDoc(t))
  {
    ReadsPlain(conf, TableNamed(sets, conf.escapeSet), INITIAL, t);
    assert "" + t == t;
    ParseIs(conf, sets, t, INITIAL.(text := t));
    TextDocument(t);
  }

  /** An input ending inside a comment body raises under strict_comment;
      otherwise `<!--` and the body become text (index.js:333-336). */
  lemma ParsesUnclosedComment(conf: ReaderConf, sets: DecodeSets, body: string)
    requires ScanFrom(Comment, "", body) == Running(Comment, "")
    ensures conf.strictComment ==> Parse(conf, sets, "<!--" + body) == Err(SyntaxError("unclosed comment"))
    ensures !conf.strictComment ==> Parse(conf, sets, "<!--" + body) == Ok([Text("<!--" + body)])
  {
    ReadsUnclosedComment(conf, TableNamed(sets, conf.escapeSet), INITIAL, body);
    assert Flushed(INITIAL) == Builders.START;
    ParseIs(conf, sets, "<!--" + body, ReadState(Builders.START, Comment, "", "<!--" + body));
    TextDocument("<!--" + body);
  }

  /** Only the plain comment state counts as unclosed: an input that stops
      at `<!-` becomes text even under strict_comment. */
  lemma ParsesHalfOpenedComment(conf: ReaderConf, sets: DecodeSets)
    ensures Parse(conf, sets, "<!-") == Ok([Text("<!-")])
  {
    ReadsHalfOpenedComment(conf, TableNamed(sets, conf.escapeSet));
    ParseIs(conf, sets, "<!-", ReadState(Builders.START, CommentIncoming2, "", "<!-"));
    TextDocument("<!-");
  }

  /** `<!-` leaves the automaton one dash short of a comment, with the three
      characters in text_content. */
  lemma ReadsHalfOpenedComment(conf: ReaderConf, escapes: DecodeTable)
    ensures Run(conf, escapes, INITIAL, "<!-") == Ok(ReadState(Builders.START, CommentIncoming2, "", "<!-"))
  {
    assert "<!-" == ['<'] + "!-";
    ReadsOpening(conf, escapes, INITIAL, '<', "!-");
    assert Flushed(INITIAL) == Builders.START;
    CommentHalfOpens();
    ReadsRunning(conf, escapes, ReadState(Builders.START, Tag, "", "<"), "!-");
  }

  /** A comment between two plain texts vanishes and the texts join into one
      run (index.js:312-313, 326-329). */
  lemma ParsesCommentBetween(conf: ReaderConf, sets: DecodeSets, x: string, body: string, y: string)
    requires Plain(x) && Plain(y) && ScanFrom(Comment, "", body) == Running(Comment, "")
    ensures Parse(conf, sets, x + ("<!--" + body + "-->" + y)) == Ok(TextDoc(x + y))
  {
    var escapes := TableNamed(sets, conf.escapeSet);
    var r := "<!--" + body + "-->" + y;
    ReadsPlainFirst(conf, escapes, x, r);
    var s1 := INITIAL.(text := x);
    ReadsComment(conf, escapes, s1, body, y);
    var b := Flushed(s1);
    ReadsPlainLast(conf, escapes, b, y);
    ParseIs(conf, sets, x + r, ReadState(b, Content, "", y));
    AppendTextAtTwice([ROOT], 0, x, y);
    TextDocument(x + y);
  }

  /** A named entity between two plain texts is replaced by its text, and the
      three join into one run (index.js:294-302). */
  lemma ParsesEntityBetween(conf: ReaderConf, sets: DecodeSets, x: string, name: string, y: string)
    requires Plain(x) && Plain(y) && IsName(name) && name in TableNamed(sets, conf.escapeSet)
    ensures Parse(conf, sets, x + ("&" + name + ";" + y)) ==
            Ok(TextDoc(x + TableNamed(sets, conf.escapeSet)[name] + y))
  {
    var escapes := TableNamed(sets, conf.escapeSet);
    var r := "&" + name + ";" + y;
    ReadsPlainFirst(conf, escapes, x, r);
    var s1 := INITIAL.(text := x);
    ReadsNamedEntity(conf, escapes, s1, name, y);
    var b := Builders.AppendText(Flushed(s1), escapes[name]).value;
    ReadsPlainLast(conf, escapes, b, y);
    ParseIs(conf, sets, x + r, ReadState(b, Content, "", y));
    AppendTextAtTwice([ROOT], 0, x, escapes[name]);
    AppendTextAtTwice([ROOT], 0, x + escapes[name], y);
    TextDocument(x + escapes[name] + y);
  }

  /** `<name>` with no text pending: the new element is the last node and
      becomes active. */
  lemma ReadsOpenFresh(conf: ReaderConf, escapes: DecodeTable, s: ReadState, name: string, rest: string)
    requires Ready(s) && s.text == "" && IsName(name)
    ensures Run(conf, escapes, s, "<" + name + ">" + rest) ==
            Run(conf, escapes, ReadState(Builders.BuildState(AppendChildAt(s.doc.nodes, s.doc.active.value, name),
                                                             Some(|s.doc.nodes|)), Content, "", ""), rest)
  {
    ReadsOpenTag(conf, escapes, s, name, rest);
    FlushedEmpty(s);
  }

  /** `</name>` when after the flush the active element has that name: under
      every policy its parent becomes active. */
  lemma ReadsCloseMatching(conf: ReaderConf, escapes: DecodeTable, s: ReadState, name: string, rest: string)
    requires Ready(s) && IsName(name) && Flushed(s).nodes[s.doc.active.value].name == Some(name)
    ensures Builders.Valid(Flushed(s).(active := Flushed(s).nodes[s.doc.active.value].parent))
    ensures Run(conf, escapes, s, "</" + name + ">" + rest) ==
            Run(conf, escapes, ReadState(Flushed(s).(active := Flushed(s).nodes[s.doc.active.value].parent),
                                         Content, "", ""), rest)
  {
    ReadsCloseTag(conf, escapes, s, name, rest);
    Builders.CloseMatching(Builders.PolicyNamed(conf.closing), Flushed(s), name);
  }

  /** The arena `<n><m>t</m></n>` builds. */
  lemma NestedArena(n: string, m: string, t: string)
    ensures AppendTextAt(AppendChildAt(AppendChildAt([ROOT], 0, n), 1, m), 2, t) ==
            [Node(None, [Child(1)], None), Node(Some(n), [Child(2)], Some(0)), Node(Some(m), AppendText([], t), Some(1))]
  {
    var a1 := AppendChildAt([ROOT], 0, n);
    assert a1[0].content == [] + [Child(1)];
    assert a1[0] == Node(None, [Child(1)], None);
    assert a1 == [Node(None, [Child(1)], None), Node(Some(n), [], Some(0))];
    var a2 := AppendChildAt(a1, 1, m);
    assert a2[1].content == [] + [Child(2)];
    assert a2[0] == a1[0] && a2[1] == Node(Some(n), [Child(2)], Some(0));
    assert a2 == [Node(None, [Child(1)], None), Node(Some(n), [Child(2)], Some(0)), Node(Some(m), [], Some(1))];
    var a3 := AppendTextAt(a2, 2, t);
    assert a3[0] == a2[0] && a3[1] == a2[1] && a3[2] == Node(Some(m), AppendText([], t), Some(1));
  }

  /** The document that arena holds. */
  lemma NestedDocument(n: string, m: string, t: string)
    requires WellFormed([Node(None, [Child(1)], None), Node(Some(n), [Child(2)], Some(0)),
                         Node(Some(m), AppendText([], t), Some(1))])
    ensures DocumentOf([Node(None, [Child(1)], None), Node(Some(n), [Child(2)], Some(0)),
                        Node(Some(m), AppendText([], t), Some(1))]) ==
            [Child(Element(n, [Child(Element(m, TextDoc(t)))]))]
  {
    var a := [Node(None, [Child(1)], None), Node(Some(n), [Child(2)], Some(0)), Node(Some(m), AppendText([], t), Some(1))];
    NestedOuter(a, n, m, t);
    assert UnfoldContent(a, 0, 1) == UnfoldContent(a, 0, 0) + [Child(UnfoldElement(a, 1))];
    assert DocumentOf(a) == UnfoldContent(a, 0, 1);
  }

  /** The middle node of that arena read back. */
  lemma NestedOuter(a: Arena, n: string, m: string, t: string)
    requires a == [Node(None, [Child(1)], None), Node(Some(n), [Child(2)], Some(0)), Node(Some(m), AppendText([], t), Some(1))]
    requires WellFormed(a)
    ensures LinkedAt(a, 1) && UnfoldElement(a, 1) == Element(n, [Child(Element(m, TextDoc(t)))])
  {
    assert LinkedAt(a, 1) && LinkedAt(a, 2);
    NestedInner(a, m, t);
    var inner := UnfoldElement(a, 2);
    assert UnfoldContent(a, 1, 1) == UnfoldContent(a, 1, 0) + [Child(inner)];
    assert UnfoldElement(a, 1) == Element(n, UnfoldContent(a, 1, 1));
  }

  /** The innermost node of that arena read back. */
  lemma NestedInner(a: Arena, m: string, t: string)
    requires WellFormed(a) && |a| == 3 && a[2] == Node(Some(m), AppendText([], t), Some(1)) && LinkedAt(a, 2)
    ensures UnfoldElement(a, 2) == Element(m, TextDoc(t))
  {
    AppendTextFresh<nat>(t);
    if t != "" {
      assert UnfoldContent(a, 2, 1) == UnfoldContent(a, 2, 0) + [Text(t)];
    }
  }

  /** `<n><m>t` opens n and m inside it and leaves t pending. */
  lemma NestedOpens(conf: ReaderConf, escapes: DecodeTable, n: string, m: string, t: string, rest: string)
    requires IsName(n) && IsName(m) && Plain(t)
    ensures Run(conf, escapes, INITIAL, "<" + n + ">" + ("<" + m + ">" + (t + rest))) ==
            Run(conf, escapes, ReadState(Builders.BuildState(AppendChildAt(AppendChildAt([ROOT], 0, n), 1, m), Some(2)),
                                         Content, "", t), rest)
  {
    var a1 := AppendChildAt([ROOT], 0, n);
    ReadsOpenFresh(conf, escapes, INITIAL, n, "<" + m + ">" + (t + rest));
    var s1 := ReadState(Builders.BuildState(a1, Some(1)), Content, "", "");
    ReadsOpenFresh(conf, escapes, s1, m, t + rest);
    var s2 := ReadState(Builders.BuildState(AppendChildAt(a1, 1, m), Some(2)), Content, "", "");
    RunConcat(conf, escapes, s2, t, rest);
    ReadsPlain(conf, escapes, s2, t);
    assert "" + t == t;
  }

  /** `</m></n>` then closes m and n. */
  lemma NestedCloses(conf: ReaderConf, escapes: DecodeTable, n: string, m: string, t: string)
    requires IsName(n) && IsName(m)
    ensures var a2 := AppendChildAt(AppendChildAt([ROOT], 0, n), 1, m);
            Run(conf, escapes, ReadState(Builders.BuildState(a2, Some(2)), Content, "", t), "</" + m + ">" + ("</" + n + ">")) ==
            Ok(ReadState(Builders.BuildState(AppendTextAt(a2, 2, t), Some(0)), Content, "", ""))
  {
    ClosesInner(conf, escapes, n, m, t, "</" + n + ">");
    ClosesOuter(conf, escapes, n, m, t);
  }

  /** The two elements opened on a fresh builder keep the arena well formed. */
  lemma NestedValid(n: string, m: string)
    ensures WellFormed(AppendChildAt([ROOT], 0, n))
    ensures WellFormed(AppendChildAt(AppendChildAt([ROOT], 0, n), 1, m))
  {
    assert LinkedAt([ROOT], 0);
  }

  /** `</m>` flushes t into m and makes n active. */
  lemma ClosesInner(conf: ReaderConf, escapes: DecodeTable, n: string, m: string, t: string, rest: string)
    requires IsName(n) && IsName(m)
    ensures var a2 := AppendChildAt(AppendChildAt([ROOT], 0, n), 1, m);
            Run(conf, escapes, ReadState(Builders.BuildState(a2, Some(2)), Content, "", t), "</" + m + ">" + rest) ==
            Run(conf, escapes, ReadState(Builders.BuildState(AppendTextAt(a2, 2, t), Some(1)), Content, "", ""), rest)
  {
    var a2 := AppendChildAt(AppendChildAt([ROOT], 0, n), 1, m);
    NestedArena(n, m, t);
    NestedValid(n, m);
    var s3 := ReadState(Builders.BuildState(a2, Some(2)), Content, "", t);
    assert Ready(s3);
    assert Flushed(s3).nodes == AppendTextAt(a2, 2, t);
    ReadsCloseMatching(conf, escapes, s3, m, rest);
  }

  /** `</n>` with nothing pending makes the root active again. */
  lemma ClosesOuter(conf: ReaderConf, escapes: DecodeTable, n: string, m: string, t: string)
    requires IsName(n) && IsName(m)
    ensures var a3 := AppendTextAt(AppendChildAt(AppendChildAt([ROOT], 0, n), 1, m), 2, t);
            Run(conf, escapes, ReadState(Builders.BuildState(a3, Some(1)), Content, "", ""), "</" + n + ">") ==
            Ok(ReadState(Builders.BuildState(a3, Some(0)), Content, "", ""))
  {
    var a3 := AppendTextAt(AppendChildAt(AppendChildAt([ROOT], 0, n), 1, m), 2, t);
    NestedArena(n, m, t);
    var s4 := ReadState(Builders.BuildState(a3, Some(1)), Content, "", "");
    assert "</" + n + ">" == "</" + n + ">" + "";
    FlushedEmpty(s4);
    ReadsCloseMatching(conf, escapes, s4, n, "");
  }

  /** `<n><m>t</m></n>` builds m inside n with the text inside m, under every
      closing policy. */
  lemma ParsesNested(conf: ReaderConf, sets: DecodeSets, n: string, m: string, t: string)
    requires IsName(n) && IsName(m) && Plain(t)
    ensures Parse(conf, sets, "<" + n + ">" + ("<" + m + ">" + (t + ("</" + m + ">" + ("</" + n + ">"))))) ==
            Ok([Child(Element(n, [Child(Element(m, TextDoc(t)))]))])
  {
    var escapes := TableNamed(sets, conf.escapeSet);
    var a3 := AppendTextAt(AppendChildAt(AppendChildAt([ROOT], 0, n), 1, m), 2, t);
    NestedOpens(conf, escapes, n, m, t, "</" + m + ">" + ("</" + n + ">"));
    NestedCloses(conf, escapes, n, m, t);
    ParseIs(conf, sets, "<" + n + ">" + ("<" + m + ">" + (t + ("</" + m + ">" + ("</" + n + ">")))),
            ReadState(Builders.BuildState(a3, Some(0)), Content, "", ""));
    AppendTextAtEmpty(a3, 0);
    NestedArena(n, m, t);
    NestedDocument(n, m, t);
  }

  /** Once the builder is broken, reading on never changes it. */
  lemma {:induction false} ReadsBroken(conf: ReaderConf, escapes: DecodeTable, s: ReadState, cs: string)
    requires Builders.Valid(s.doc) && s.doc.active.None?
    ensures Run(conf, escapes, s, cs).Ok? ==> Run(conf, escapes, s, cs).value.doc == s.doc
    decreases |cs|
  {
    if cs != [] {
      var r := Step(conf, escapes, s, cs[0]);
      if r.Ok? {
        ReadsBroken(conf, escapes, r.value, cs[1..]);
      }
    }
  }

  /** `</>` at the top level pops past the root (dom.js:53-55), and then the
      whole read fails, whatever follows and whatever the configuration. */
  lemma ParsesAutocloseAtRoot(conf: ReaderConf, sets: DecodeSets, rest: string)
    ensures Parse(conf, sets, "</>" + rest).Err?
  {
    var escapes := TableNamed(sets, conf.escapeSet);
    ReadsAutoclose(conf, escapes, INITIAL, rest);
    FlushedEmpty(INITIAL);
    var broken := ReadState(Builders.START.(active := None), Content, "", "");
    ReadsBroken(conf, escapes, broken, rest);
  }
}
