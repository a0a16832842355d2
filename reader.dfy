/** The markup reader (index.js:227-339): a configuration, the escape table
    it decodes entities with, and the character loop that drives the
    automaton of Tokenizer and an ElementBuilder. */
module Reader {
  import opened Base
  import opened Tree
  import opened Tokenizer
  import Builders
  import ElementBuilders

  /** A reader configuration (index.js:229-251). */
  datatype ReaderConf = ReaderConf(
    strictTag: bool,
    strictComment: bool,
    strictEscape: bool,
    closing: string,
    escapeSet: string)

  /** The presets `default`, `strict` and `ignore` (index.js:229-251). */
  const DEFAULT_CONF: ReaderConf := ReaderConf(false, true, true, "forcing_searching", "html")
  const STRICT_CONF: ReaderConf := ReaderConf(true, true, true, "strict", "minimal")
  const IGNORE_CONF: ReaderConf := ReaderConf(false, false, false, "forcing_searching", "html")

  /** An entity table: entity name to the text it stands for. */
  type DecodeTable = map<string, string>

  /** The registry of entity tables; it always holds `minimal`. */
  type DecodeSets = m: map<string, DecodeTable> | "minimal" in m witness map["minimal" := map[]]

  /** The value of one hex digit. */
  function DigitValue(c: char): (v: nat)
    requires IsHexDigit(c)
    ensures v < 16
    ensures '0' <= c <= '9' ==> v == c as int - '0' as int
    ensures 'a' <= c <= 'f' ==> v == c as int - 'a' as int + 10
    ensures 'A' <= c <= 'F' ==> v == c as int - 'A' as int + 10
  {
    if '0' <= c <= '9' then c as int - '0' as int
    else if 'a' <= c <= 'f' then c as int - 'a' as int + 10
    else c as int - 'A' as int + 10
  }

  /** The number a string of hex digits denotes, most significant first. */
  function HexValue(s: string): nat
    requires IsHex(s)
  {
    if s == [] then 0 else 16 * HexValue(s[..|s| - 1]) + DigitValue(s[|s| - 1])
  }

  /** The number of leading hex digits. */
  function HexRun(s: string): (n: nat)
    ensures n <= |s| && IsHex(s[..n])
    ensures n < |s| ==> !IsHexDigit(s[n])
  {
    if s != [] && IsHexDigit(s[0]) then
      var n := 1 + HexRun(s[1..]);
      assert forall k :: 1 <= k < n ==> s[..n][k] == s[1..][..n - 1][k - 1];
      n
    else 0
  }

  /** `Number.parseInt(s, 16)` on the strings the automaton buffers: the
      value of the leading hex digits, or None (NaN) when there is none. */
  function ParseHex(s: string): (r: Option<nat>)
    ensures r.None? <==> s == [] || !IsHexDigit(s[0])
    ensures s != [] && IsHex(s) ==> r == Some(HexValue(s))
  {
    var n := HexRun(s);
    assert IsHex(s) ==> s[..|s|] == s;
    if n == 0 then None else Some(HexValue(s[..n]))
  }

  /** The largest code point (index.js:306). */
  const MAX_CODE_POINT: nat := 0x10FFFF

  /** `String.fromCodePoint(n)` for n within range. Surrogate code points
      are not characters of `string` here and yield Unrepresentable. */
  function CodePoint(n: nat): (r: Result<string>)
    requires n <= MAX_CODE_POINT
    ensures r.Ok? <==> !(0xD800 <= n <= 0xDFFF)
    ensures r.Ok? ==> |r.value| == 1 && r.value[0] as int == n
  {
    if 0xD800 <= n <= 0xDFFF then Err(Unrepresentable) else Ok([n as char])
  }

  /** A numeric entity (index.js:303-311): parseInt of no digits is NaN, and
      String.fromCodePoint(NaN) throws; a code point beyond the range raises
      only under strict_escape and is otherwise dropped. */
  function NumericEntity(conf: ReaderConf, b: Builders.BuildState, digits: string): (r: Result<Builders.BuildState>)
    requires Builders.Valid(b)
    ensures r.Ok? ==> Builders.Valid(r.value)
    ensures ParseHex(digits).None? ==> r == Err(RangeError)
    ensures ParseHex(digits).Some? && ParseHex(digits).value > MAX_CODE_POINT ==>
              r == (if conf.strictEscape then Err(SyntaxError("invalid escape sequence")) else Ok(b))
    ensures ParseHex(digits).Some? && ParseHex(digits).value <= MAX_CODE_POINT &&
            CodePoint(ParseHex(digits).value).Ok? ==>
              r == Builders.AppendText(b, CodePoint(ParseHex(digits).value).value)
  {
    match ParseHex(digits)
    case None => Err(RangeError)
    case Some(n) =>
      if n > MAX_CODE_POINT then
        if conf.strictEscape then Err(SyntaxError("invalid escape sequence")) else Ok(b)
      else
        match CodePoint(n)
        case Err(x) => Err(x)
        case Ok(t) => Builders.AppendText(b, t)
  }

  /** What the reader does with a terminal state (index.js:289-325): `name`
      is the tag_name buffer and `text` the characters read since `<` or `&`. */
  function OnEvent(conf: ReaderConf, escapes: DecodeTable, b: Builders.BuildState,
                   e: Event, name: string, text: string): (r: Result<Builders.BuildState>)
    requires Builders.Valid(b)
    ensures r.Ok? ==> Builders.Valid(r.value)
    ensures e == Opened ==> r == Builders.OpenChild(b, name)
    ensures e == Closed ==> r == Builders.CloseElement(Builders.PolicyNamed(conf.closing), b, name)
    ensures e == CommentFinished ==> r == Ok(b)
    ensures e in {TagError, EscapeError} && !conf.strictTag ==> r == Builders.AppendText(b, text)
    ensures e == TagError && conf.strictTag ==> r == Err(SyntaxError("invalid tag"))
    ensures e == EscapeError && conf.strictTag ==> r == Err(SyntaxError("invalid escape sequence"))
    ensures e == IdentifierEscape && name in escapes ==> r == Builders.AppendText(b, escapes[name])
    ensures e == IdentifierEscape && name !in escapes ==>
              r == (if conf.strictEscape then Err(SyntaxError("invalid escape sequence")) else Ok(b))
    // a broken builder is never changed: every builder call throws
    ensures b.active.None? && r.Ok? ==> r.value == b
  {
    match e
    case Closed => Builders.CloseElement(Builders.PolicyNamed(conf.closing), b, name)
    case Opened => Builders.OpenChild(b, name)
    // As written, the source builds the element with `new Element(name, false)`,
    // which throws (dom.js:17); the evident intent, a childless element that
    // does not become active, is modelled.
    case SelfEnclosed => Builders.AppendChild(b, name)
    // As written, the source calls `doc.closeActive()`, which the builder does
    // not define (index.js:293); the evident intent, closeAuto, is modelled.
    case Autoclose => Builders.CloseAuto(b)
    case IdentifierEscape =>
      if name in escapes then Builders.AppendText(b, escapes[name])
      else if conf.strictEscape then Err(SyntaxError("invalid escape sequence"))
      else Ok(b)
    case NumericEscape => NumericEntity(conf, b, name)
    case CommentFinished => Ok(b)
    case TagError =>
      if conf.strictTag then Err(SyntaxError("invalid tag")) else Builders.AppendText(b, text)
    case EscapeError =>
      if conf.strictTag then Err(SyntaxError("invalid escape sequence")) else Builders.AppendText(b, text)
  }

  /** The loop's variables: the builder, the automaton's phase, the tag_name
      buffer and text_content. */
  datatype ReadState = ReadState(doc: Builders.BuildState, machine: Phase, tagName: string, text: string)

  const INITIAL: ReadState := ReadState(Builders.START, Content, "", "")

  /** One iteration of the loop (index.js:280-330). */
  function Step(conf: ReaderConf, escapes: DecodeTable, s: ReadState, c: char): (r: Result<ReadState>)
    requires Builders.Valid(s.doc)
    ensures r.Ok? ==> Builders.Valid(r.value.doc)
    // characters of plain text only accumulate
    ensures s.machine == Content && c != '<' && c != '&' ==> r == Ok(s.(text := s.text + [c]))
    // a terminal state resets the automaton and both buffers
    ensures r.Ok? && r.value.machine == Content && s.machine != Content ==>
              r.value.tagName == "" && r.value.text == ""
    // a broken builder stays as it is
    ensures s.doc.active.None? && r.Ok? ==> r.value.doc == s.doc
  {
    match Consume(s.machine, c)
    case Next(q, write) =>
      var name := if write then s.tagName + [c] else s.tagName;
      if q == Tag || q == Escape then
        var doc :- Builders.AppendText(s.doc, s.text);
        Ok(ReadState(doc, q, name, [c]))
      else
        Ok(ReadState(s.doc, q, name, s.text + [c]))
    case Reached(e) =>
      var doc :- OnEvent(conf, escapes, s.doc, e, s.tagName, s.text);
      Ok(ReadState(doc, Content, "", ""))
  }

  /** The loop over a whole input. */
  function Run(conf: ReaderConf, escapes: DecodeTable, s: ReadState, cs: string): (r: Result<ReadState>)
    requires Builders.Valid(s.doc)
    ensures r.Ok? ==> Builders.Valid(r.value.doc)
    decreases |cs|
  {
    if cs == [] then Ok(s)
    else
      match Step(conf, escapes, s, cs[0])
      case Err(e) => Err(e)
      case Ok(s') => Run(conf, escapes, s', cs[1..])
  }

  /** Running on from a result. */
  function Then(conf: ReaderConf, escapes: DecodeTable, r: Result<ReadState>, cs: string): Result<ReadState>
    requires r.Ok? ==> Builders.Valid(r.value.doc)
  {
    match r
    case Err(e) => Err(e)
    case Ok(s) => Run(conf, escapes, s, cs)
  }

  /** After the loop (index.js:333-337): only an input that ends inside the
      body of a comment is an error, and only under strict_comment; anything
      else still buffered becomes text. */
  function Finish(conf: ReaderConf, s: ReadState): (r: Result<Document>)
    requires Builders.Valid(s.doc)
    ensures s.machine == Comment && conf.strictComment ==> r == Err(SyntaxError("unclosed comment"))
    ensures !(s.machine == Comment && conf.strictComment) && s.doc.active.Some? ==>
              r == Ok(DocumentOf(NodesAfter(s)))
    // a broken builder throws on the final appendText (dom.js:66-68)
    ensures !(s.machine == Comment && conf.strictComment) && s.doc.active.None? ==> r == Err(TypeError)
  {
    if s.machine == Comment && conf.strictComment then Err(SyntaxError("unclosed comment"))
    else
      var doc :- Builders.AppendText(s.doc, s.text);
      Ok(DocumentOf(doc.nodes))
  }

  /** The arena once the buffered text is flushed into the active element. */
  function NodesAfter(s: ReadState): (a: Arena)
    requires Builders.Valid(s.doc) && s.doc.active.Some?
    ensures WellFormed(a)
  {
    AppendTextAt(s.doc.nodes, s.doc.active.value, s.text)
  }

  /** `reader(conf).read(input)`, with `sets` the entity tables. */
  function Parse(conf: ReaderConf, sets: DecodeSets, input: string): Result<Document> {
    var s :- Run(conf, TableNamed(sets, conf.escapeSet), INITIAL, input);
    Finish(conf, s)
  }

  /** Two configurations that agree on what the loop consults. */
  predicate SameLoop(c1: ReaderConf, c2: ReaderConf) {
    c1.strictTag == c2.strictTag && c1.strictEscape == c2.strictEscape &&
    Builders.PolicyNamed(c1.closing) == Builders.PolicyNamed(c2.closing)
  }

  /** The handlers consult only the flags and the policy. */
  lemma OnEventAgrees(c1: ReaderConf, c2: ReaderConf, escapes: DecodeTable, b: Builders.BuildState,
                      e: Event, name: string, text: string)
    requires Builders.Valid(b) && SameLoop(c1, c2)
    ensures OnEvent(c1, escapes, b, e, name, text) == OnEvent(c2, escapes, b, e, name, text)
  {
    if e == NumericEscape {
      assert NumericEntity(c1, b, name) == NumericEntity(c2, b, name);
    }
  }

  lemma StepAgrees(c1: ReaderConf, c2: ReaderConf, escapes: DecodeTable, s: ReadState, c: char)
    requires Builders.Valid(s.doc) && SameLoop(c1, c2)
    ensures Step(c1, escapes, s, c) == Step(c2, escapes, s, c)
  {
    if Consume(s.machine, c).Reached? {
      OnEventAgrees(c1, c2, escapes, s.doc, Consume(s.machine, c).event, s.tagName, s.text);
    }
  }

  /** The loop runs alike under two configurations that agree on what it
      consults. */
  lemma {:induction false} RunAgrees(c1: ReaderConf, c2: ReaderConf, escapes: DecodeTable, s: ReadState, cs: string)
    requires Builders.Valid(s.doc) && SameLoop(c1, c2)
    ensures Run(c1, escapes, s, cs) == Run(c2, escapes, s, cs)
    decreases |cs|
  {
    if cs != [] {
      StepAgrees(c1, c2, escapes, s, cs[0]);
      if Step(c1, escapes, s, cs[0]).Ok? {
        RunAgrees(c1, c2, escapes, Step(c1, escapes, s, cs[0]).value, cs[1..]);
      }
    }
  }

  /** An escape set that is not registered reads as `minimal` (index.js:269). */
  lemma UnknownEscapeSet(conf: ReaderConf, sets: DecodeSets, input: string)
    requires conf.escapeSet !in sets
    ensures Parse(conf, sets, input) == Parse(conf.(escapeSet := "minimal"), sets, input)
  {
    RunAgrees(conf, conf.(escapeSet := "minimal"), sets["minimal"], INITIAL, input);
  }

  /** A closing name that is neither registered nor inherited from
      Object.prototype reads as `strict` (index.js:268). */
  lemma UnknownClosing(conf: ReaderConf, sets: DecodeSets, input: string)
    requires forall p :: Builders.KeyOf(p) != conf.closing
    requires conf.closing !in Builders.PROTOTYPE_NAMES
    ensures Parse(conf, sets, input) == Parse(conf.(closing := "strict"), sets, input)
  {
    assert Builders.PolicyNamed(conf.closing) == Builders.Strict;
    RunAgrees(conf, conf.(closing := "strict"), TableNamed(sets, conf.escapeSet), INITIAL, input);
  }

  /** Reading a concatenation: the second part goes on from the state the
      first one leaves, and an exception ends the loop. */
  lemma {:induction false} RunConcat(conf: ReaderConf, escapes: DecodeTable, s: ReadState, x: string, y: string)
    requires Builders.Valid(s.doc)
    ensures Run(conf, escapes, s, x + y) == Then(conf, escapes, Run(conf, escapes, s, x), y)
    decreases |x|
  {
    if x == [] {
      assert x + y == y;
    } else {
      assert (x + y)[0] == x[0] && (x + y)[1..] == x[1..] + y;
      var r := Step(conf, escapes, s, x[0]);
      if r.Ok? {
        RunConcat(conf, escapes, r.value, x[1..], y);
      }
    }
  }

  /** One more character is one more step. */
  lemma RunSnoc(conf: ReaderConf, escapes: DecodeTable, s: ReadState, x: string, c: char)
    requires Builders.Valid(s.doc)
    ensures Run(conf, escapes, s, x).Err? ==> Run(conf, escapes, s, x + [c]) == Run(conf, escapes, s, x)
    ensures Run(conf, escapes, s, x).Ok? ==>
              Run(conf, escapes, s, x + [c]) == Step(conf, escapes, Run(conf, escapes, s, x).value, c)
  {
    RunConcat(conf, escapes, s, x, [c]);
    var r := Run(conf, escapes, s, x);
    if r.Ok? {
      var t := r.value;
      assert [c][1..] == [];
      match Step(conf, escapes, t, c)
      case Err(_) =>
      case Ok(t') => assert Run(conf, escapes, t', []) == Ok(t');
    }
  }

  /** RunSnoc on the prefixes of one input. */
  lemma RunPrefix(conf: ReaderConf, escapes: DecodeTable, s: ReadState, input: string, i: nat)
    requires Builders.Valid(s.doc) && i < |input|
    ensures Run(conf, escapes, s, input[..i]).Err? ==> Run(conf, escapes, s, input[..i + 1]) == Run(conf, escapes, s, input[..i])
    ensures Run(conf, escapes, s, input[..i]).Ok? ==>
              Run(conf, escapes, s, input[..i + 1]) == Step(conf, escapes, Run(conf, escapes, s, input[..i]).value, input[i])
  {
    assert input[..i + 1] == input[..i] + [input[i]];
    RunSnoc(conf, escapes, s, input[..i], input[i]);
  }

  /** The reader as the source writes it: a loop over the input that drives
      an ElementBuilder in place and keeps the automaton's phase and both
      buffers in local variables (index.js:271-338). */
  method Read(conf: ReaderConf, sets: DecodeSets, input: string) returns (r: Result<Document>)
    ensures r == Parse(conf, sets, input)
  {
    var escapes := TableNamed(sets, conf.escapeSet);
    var doc := new ElementBuilders.ElementBuilder(Builders.PolicyNamed(conf.closing));
    var o, machine, tagName, text := Loop(doc, conf, escapes, input);
    if o.Fail? {
      return Err(o.error);
    }
    if machine == Comment && conf.strictComment {
      return Err(SyntaxError("unclosed comment"));
    }
    o := doc.AppendText(text);
    if o.Fail? {
      return Err(o.error);
    }
    r := Ok(DocumentOf(doc.nodes));
  }

  /** The `while` loop of read (index.js:279-331) on a fresh builder. */
  method Loop(doc: ElementBuilders.ElementBuilder, conf: ReaderConf, escapes: DecodeTable, input: string)
    returns (o: Outcome, machine: Phase, tagName: string, text: string)
    requires doc.Valid() && doc.State() == Builders.START && doc.closing == Builders.PolicyNamed(conf.closing)
    modifies doc
    ensures doc.Valid()
    ensures var r := Run(conf, escapes, INITIAL, input);
            (r.Ok? ==> o == Pass && ReadState(doc.State(), machine, tagName, text) == r.value) &&
            (r.Err? ==> o == Fail(r.error))
  {
    machine, tagName, text := Content, "", "";
    var i := 0;
    while i < |input|
      invariant 0 <= i <= |input|
      invariant doc.Valid() && doc.closing == Builders.PolicyNamed(conf.closing)
      invariant Run(conf, escapes, INITIAL, input[..i]) == Ok(ReadState(doc.State(), machine, tagName, text))
    {
      RunPrefix(conf, escapes, INITIAL, input, i);
      o, machine, tagName, text := Advance(doc, conf, escapes, machine, tagName, text, input[i],
                                            ReadState(doc.State(), machine, tagName, text));
      if o.Fail? {
        RunErrorStays(conf, escapes, INITIAL, input, i + 1);
        return;
      }
      i := i + 1;
    }
    assert input[..|input|] == input;
    o := Pass;
  }

  /** One iteration of the loop against the builder (index.js:280-330). */
  method Advance(doc: ElementBuilders.ElementBuilder, conf: ReaderConf, escapes: DecodeTable,
                 machine: Phase, tagName: string, text: string, c: char, ghost s: ReadState)
    returns (o: Outcome, machine': Phase, tagName': string, text': string)
    requires doc.Valid() && doc.closing == Builders.PolicyNamed(conf.closing)
    requires s == ReadState(doc.State(), machine, tagName, text)
    modifies doc
    ensures doc.Valid()
    ensures var r := Step(conf, escapes, s, c);
            (r.Ok? ==> o == Pass && ReadState(doc.State(), machine', tagName', text') == r.value) &&
            (r.Err? ==> o == Fail(r.error))
  {
    match Consume(machine, c) {
      case Next(q, write) =>
        o, tagName', text' := Shift(doc, tagName, text, c, q, write);
        machine' := q;
      case Reached(e) =>
        o := Handle(doc, conf, escapes, e, tagName, text);
        machine', tagName', text' := Content, "", "";
    }
  }

  /** A character that moves the automaton on (index.js:282-287): `<` and `&`
      first flush the text read so far into the active element. */
  method Shift(doc: ElementBuilders.ElementBuilder, tagName: string, text: string, c: char, q: Phase, write: bool)
    returns (o: Outcome, tagName': string, text': string)
    requires doc.Valid()
    modifies doc
    ensures doc.Valid()
    ensures tagName' == if write then tagName + [c] else tagName
    ensures q in {Tag, Escape} ==>
              text' == [c] && ElementBuilders.Follows(old(doc.State()), doc.State(),
                                                      Builders.AppendText(old(doc.State()), text), o)
    ensures q !in {Tag, Escape} ==> o == Pass && text' == text + [c] && doc.State() == old(doc.State())
  {
    tagName' := if write then tagName + [c] else tagName;
    if q == Tag || q == Escape {
      o := doc.AppendText(text);
      text' := [c];
    } else {
      o := Pass;
      text' := text + [c];
    }
  }

  /** An exception part-way through is the result of the whole loop. */
  lemma RunErrorStays(conf: ReaderConf, escapes: DecodeTable, s: ReadState, input: string, i: nat)
    requires Builders.Valid(s.doc) && i <= |input|
    requires Run(conf, escapes, s, input[..i]).Err?
    ensures Run(conf, escapes, s, input) == Run(conf, escapes, s, input[..i])
  {
    assert input == input[..i] + input[i..];
    RunConcat(conf, escapes, s, input[..i], input[i..]);
  }

  /** The dispatch on a terminal state (index.js:289-325) against the builder. */
  method Handle(doc: ElementBuilders.ElementBuilder, conf: ReaderConf, escapes: DecodeTable,
                e: Event, name: string, text: string) returns (o: Outcome)
    requires doc.Valid() && doc.closing == Builders.PolicyNamed(conf.closing)
    modifies doc
    ensures doc.Valid()
    ensures ElementBuilders.Follows(old(doc.State()), doc.State(),
                                    OnEvent(conf, escapes, old(doc.State()), e, name, text), o)
  {
    match e {
      case Closed => o := doc.CloseElement(name);
      case Opened => o := doc.OpenChild(name);
      case SelfEnclosed => o := doc.AppendChild(name);
      case Autoclose => o := doc.CloseAuto();
      case IdentifierEscape =>
        if name in escapes {
          o := doc.AppendText(escapes[name]);
        } else if conf.strictEscape {
          o := Fail(SyntaxError("invalid escape sequence"));
        } else {
          o := Pass;
        }
      case NumericEscape =>
        match ParseHex(name) {
          case None => o := Fail(RangeError);
          case Some(n) =>
            if n > MAX_CODE_POINT {
              o := if conf.strictEscape then Fail(SyntaxError("invalid escape sequence")) else Pass;
            } else if CodePoint(n).Err? {
              o := Fail(CodePoint(n).error);
            } else {
              o := doc.AppendText(CodePoint(n).value);
            }
        }
      case CommentFinished => o := Pass;
      case TagError =>
        if conf.strictTag {
          o := Fail(SyntaxError("invalid tag"));
        } else {
          o := doc.AppendText(text);
        }
      case EscapeError =>
        if conf.strictTag {
          o := Fail(SyntaxError("invalid escape sequence"));
        } else {
          o := doc.AppendText(text);
        }
    }
  }
}
