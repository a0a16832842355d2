/** The character automaton of the reader (index.js:15-221). The source
    builds it from Mealy-machine states whose consumers return the next state
    and whether the character is written to the `tag_name` buffer; here that
    is one transition function on (phase, character). */
module Tokenizer {

  /** isLetter (index.js:19-21). */
  predicate IsLetter(c: char) {
    ('a' <= c <= 'z') || ('A' <= c <= 'Z')
  }

  /** isHexDigit (index.js:15-17). */
  predicate IsHexDigit(c: char) {
    ('0' <= c <= '9') || ('a' <= c <= 'f') || ('A' <= c <= 'F')
  }

  /** A tag or entity name: one or more letters. */
  predicate IsName(s: string) {
    |s| > 0 && forall k :: 0 <= k < |s| ==> IsLetter(s[k])
  }

  /** A string of hex digits (possibly empty). */
  predicate IsHex(s: string) {
    forall k :: 0 <= k < |s| ==> IsHexDigit(s[k])
  }

  /** The non-terminal states. The comment chain `comment_outcomings`
      (index.js:61-73) is Comment, CommentDash, CommentDashDash. */
  datatype Phase =
    | Content
    | Tag | Opening | SelfEnclosing | CloseOrAutoclose | CloseName
    | CommentIncoming | CommentIncoming2 | Comment | CommentDash | CommentDashDash
    | Escape | IdEscape | NumEscape

  /** The terminal states, each handled by the reader and then reset. */
  datatype Event =
    | Opened | SelfEnclosed | Closed | Autoclose
    | IdentifierEscape | NumericEscape | CommentFinished
    | TagError | EscapeError

  /** The next state and whether the character is buffered, or a terminal state. */
  datatype Transition = Next(phase: Phase, write: bool) | Reached(event: Event)

  /** One character in one state (index.js:40-221). */
  function Consume(p: Phase, c: char): Transition
  {
    match p
    case Content =>
      if c == '<' then Next(Tag, false)
      else if c == '&' then Next(Escape, false)
      else Next(Content, false)
    case Tag =>
      if c == '/' then Next(CloseOrAutoclose, false)
      else if IsLetter(c) then Next(Opening, true)
      else if c == '!' then Next(CommentIncoming, false)
      else Reached(TagError)
    case Opening =>
      if c == '/' then Next(SelfEnclosing, false)
      else if IsLetter(c) then Next(Opening, true)
      else if c == '>' then Reached(Opened)
      else Reached(TagError)
    case SelfEnclosing =>
      if c == '>' then Reached(SelfEnclosed) else Reached(TagError)
    case CloseOrAutoclose =>
      if c == '>' then Reached(Autoclose)
      else if IsLetter(c) then Next(CloseName, true)
      else Reached(TagError)
    case CloseName =>
      if c == '>' then Reached(Closed)
      else if IsLetter(c) then Next(CloseName, true)
      else Reached(TagError)
    case CommentIncoming =>
      if c == '-' then Next(CommentIncoming2, false) else Reached(TagError)
    case CommentIncoming2 =>
      // The source gives comment_incoming_2 no fallback transition
      // (index.js:58-60); what the Mealy library does then is not part of
      // this model, which treats it as a tag error.
      if c == '-' then Next(Comment, false) else Reached(TagError)
    case Comment =>
      if c == '-' then Next(CommentDash, false) else Next(Comment, false)
    case CommentDash =>
      if c == '-' then Next(CommentDashDash, false) else Next(Comment, false)
    case CommentDashDash =>
      if c == '>' then Reached(CommentFinished) else Next(Comment, false)
    case Escape =>
      if c == '#' then Next(NumEscape, false)
      else if IsLetter(c) then Next(IdEscape, true)
      else Reached(TagError)
    case IdEscape =>
      if IsLetter(c) then Next(IdEscape, true)
      else if c == ';' then Reached(IdentifierEscape)
      else Reached(EscapeError)
    case NumEscape =>
      if IsHexDigit(c) then Next(NumEscape, true)
      else if c == ';' then Reached(NumericEscape)
      else Reached(EscapeError)
  }

  /** What a transition can and cannot do. */
  lemma ConsumeShape(p: Phase, c: char)
    // plain text never stops the automaton and is never buffered as a name
    ensures p == Content ==> Consume(p, c).Next? && !Consume(p, c).write
    // only `<` and `&` in content enter the tag and escape states
    ensures Consume(p, c) == Next(Tag, false) <==> p == Content && c == '<'
    ensures Consume(p, c) == Next(Escape, false) <==> p == Content && c == '&'
    ensures (Consume(p, c).Next? && (Consume(p, c).phase == Tag || Consume(p, c).phase == Escape)) ==> p == Content
    // only the terminal states lead back to plain content
    ensures Consume(p, c).Next? && Consume(p, c).phase == Content ==> p == Content
    // only letters and, in a numeric entity, hex digits are buffered
    ensures Consume(p, c).Next? && Consume(p, c).write ==> IsLetter(c) || (p == NumEscape && IsHexDigit(c))
    // an escape error can only arise inside an entity name or number
    ensures Consume(p, c) == Reached(EscapeError) ==> p in {IdEscape, NumEscape}
    // only `>` after `--` inside a comment ends it
    ensures Consume(p, c) == Reached(CommentFinished) <==> p == CommentDashDash && c == '>'
  {
  }

  /** The terminal states a phase can lead to. */
  function Reachable(p: Phase): set<Event> {
    match p
    case Content | Tag =>
      {Opened, SelfEnclosed, Closed, Autoclose, CommentFinished, TagError,
       IdentifierEscape, NumericEscape, EscapeError}
    case Opening => {Opened, SelfEnclosed, TagError}
    case SelfEnclosing => {SelfEnclosed, TagError}
    case CloseOrAutoclose => {Autoclose, Closed, TagError}
    case CloseName => {Closed, TagError}
    case CommentIncoming | CommentIncoming2 => {CommentFinished, TagError}
    case Comment | CommentDash | CommentDashDash => {CommentFinished}
    case Escape => {IdentifierEscape, NumericEscape, TagError, EscapeError}
    case IdEscape => {IdentifierEscape, EscapeError}
    case NumEscape => {NumericEscape, EscapeError}
  }

  /** Feeding characters to the automaton until it reaches a terminal state. */
  datatype Scan = Running(phase: Phase, buffer: string) | Stopped(event: Event, buffer: string, rest: string)

  function ScanFrom(p: Phase, buffer: string, cs: string): (r: Scan)
    ensures r.Stopped? ==> r.event in Reachable(p)
    decreases |cs|
  {
    if cs == [] then Running(p, buffer)
    else
      match Consume(p, cs[0])
      case Reached(e) => Stopped(e, buffer, cs[1..])
      case Next(q, w) =>
        assert Reachable(q) <= Reachable(p);
        ScanFrom(q, if w then buffer + [cs[0]] else buffer, cs[1..])
  }

  /** Characters that keep the automaton in phase q and are buffered. */
  predicate Collects(q: Phase, c: char) {
    Consume(q, c) == Next(q, true)
  }

  /** The number of leading characters of cs that phase q collects. */
  function CollectRun(q: Phase, cs: string): (n: nat)
    ensures n <= |cs|
    ensures forall k :: 0 <= k < n ==> Collects(q, cs[k])
    ensures n < |cs| ==> !Collects(q, cs[n])
    decreases |cs|
  {
    if cs != [] && Collects(q, cs[0]) then 1 + CollectRun(q, cs[1..]) else 0
  }

  /** One character of a scan. */
  lemma ScanStep(p: Phase, buffer: string, c: char, cs: string)
    ensures Consume(p, c).Reached? ==>
              ScanFrom(p, buffer, [c] + cs) == Stopped(Consume(p, c).event, buffer, cs)
    ensures Consume(p, c).Next? ==>
              ScanFrom(p, buffer, [c] + cs) ==
              ScanFrom(Consume(p, c).phase, if Consume(p, c).write then buffer + [c] else buffer, cs)
  {
    assert ([c] + cs)[0] == c && ([c] + cs)[1..] == cs;
  }

  /** Collected characters go to the buffer and nothing else happens. */
  lemma {:induction false} ScanCollect(q: Phase, buffer: string, n: string, rest: string)
    requires forall k :: 0 <= k < |n| ==> Collects(q, n[k])
    ensures ScanFrom(q, buffer, n + rest) == ScanFrom(q, buffer + n, rest)
    decreases |n|
  {
    if n == [] {
      assert n + rest == rest;
      assert buffer + n == buffer;
    } else {
      assert n + rest == [n[0]] + (n[1..] + rest);
      ScanStep(q, buffer, n[0], n[1..] + rest);
      assert buffer + n == (buffer + [n[0]]) + n[1..];
      ScanCollect(q, buffer + [n[0]], n[1..], rest);
    }
  }

  /** A scan that stops in a collecting phase gets past the run of collected
      characters, which all go to the buffer. */
  lemma RunStops(q: Phase, buffer: string, cs: string, e: Event, b: string, rest: string)
    requires ScanFrom(q, buffer, cs) == Stopped(e, b, rest)
    ensures CollectRun(q, cs) < |cs|
    ensures var n := CollectRun(q, cs);
            ScanFrom(q, buffer + cs[..n], [cs[n]] + cs[n + 1..]) == Stopped(e, b, rest)
  {
    var n := CollectRun(q, cs);
    if n == |cs| {
      assert cs == cs + [];
      ScanCollect(q, buffer, cs, []);
      assert false;
    }
    SplitAt(cs, n);
    ScanCollect(q, buffer, cs[..n], cs[n..]);
  }

  /** A string around its character at n. */
  lemma SplitAt(cs: string, n: nat)
    requires n < |cs|
    ensures cs == cs[..n] + cs[n..] && cs[n..] == [cs[n]] + cs[n + 1..]
  {
  }

  /** The input around the end of a run: the first character, the run of n
      characters, k stopping characters and the rest. */
  lemma Reassemble(cs: string, n: nat, k: nat)
    requires 1 + n + k <= |cs|
    ensures cs == [cs[0]] + cs[1..][..n] + cs[1..][n..n + k] + cs[1..][n + k..]
  {
    var t := cs[1..];
    assert t == t[..n] + t[n..n + k] + t[n + k..];
    assert cs == [cs[0]] + t;
  }

  /** A scan that stops splits its input at the stopping character: the
      characters before it leave the automaton running with the final
      buffer, and that character reaches the terminal state. */
  lemma {:induction false} StopSplits(p: Phase, buffer: string, cs: string, e: Event, b: string, rest: string)
    returns (used: string, c: char)
    requires ScanFrom(p, buffer, cs) == Stopped(e, b, rest)
    ensures cs == used + [c] + rest
    ensures ScanFrom(p, buffer, used).Running? && ScanFrom(p, buffer, used).buffer == b
    ensures Consume(ScanFrom(p, buffer, used).phase, c) == Reached(e)
    decreases |cs|
  {
    assert cs == [cs[0]] + cs[1..];
    ScanStep(p, buffer, cs[0], cs[1..]);
    var t := Consume(p, cs[0]);
    if t.Reached? {
      used, c := [], cs[0];
    } else {
      var buffer' := if t.write then buffer + [cs[0]] else buffer;
      var used';
      used', c := StopSplits(t.phase, buffer', cs[1..], e, b, rest);
      used := [cs[0]] + used';
      ScanStep(p, buffer, cs[0], used');
    }
  }

  /** The run a name-collecting phase buffers is letters only. */
  lemma RunIsName(q: Phase, first: char, tail: string)
    requires q in {Opening, CloseName, IdEscape} && IsLetter(first)
    ensures IsName([first] + tail[..CollectRun(q, tail)])
  {
    var n := CollectRun(q, tail);
    var name := [first] + tail[..n];
    forall k | 0 <= k < |name|
      ensures IsLetter(name[k])
    {
      if k > 0 {
        assert name[k] == tail[k - 1] && Collects(q, tail[k - 1]);
      }
    }
  }

  /** The run a numeric entity buffers is hex digits only. */
  lemma RunIsHex(tail: string)
    ensures IsHex(tail[..CollectRun(NumEscape, tail)])
  {
    var n := CollectRun(NumEscape, tail);
    forall k | 0 <= k < n
      ensures IsHexDigit(tail[..n][k])
    {
      assert Collects(NumEscape, tail[k]);
    }
  }

  /** A name whose first character moves `first` to the collecting phase q. */
  lemma NameThen(first: Phase, q: Phase, name: string, tail: string)
    requires |name| > 0 && Consume(first, name[0]) == Next(q, true)
    requires forall k :: 1 <= k < |name| ==> Collects(q, name[k])
    ensures ScanFrom(first, "", name + tail) == ScanFrom(q, name, tail)
  {
    assert name + tail == [name[0]] + (name[1..] + tail);
    ScanStep(first, "", name[0], name[1..] + tail);
    assert forall k :: 0 <= k < |name[1..]| ==> name[1..][k] == name[k + 1];
    ScanCollect(q, [name[0]], name[1..], tail);
    assert [name[0]] + name[1..] == name;
    assert "" + [name[0]] == [name[0]];
  }

  /** `<` letters `>` reaches opened, with the letters buffered: after the
      `<` has moved the automaton to Tag, the scan stops at Opened with buffer
      `name` exactly when the input is `name` + ">" + rest. */
  lemma OpenedExactly(cs: string, name: string, rest: string)
    ensures ScanFrom(Tag, "", cs) == Stopped(Opened, name, rest) <==> IsName(name) && cs == name + ">" + rest
  {
    if IsName(name) && cs == name + ">" + rest {
      assert cs == name + (">" + rest);
      NameThen(Tag, Opening, name, ">" + rest);
      ScanStep(Opening, name, '>', rest);
    }
    if ScanFrom(Tag, "", cs) == Stopped(Opened, name, rest) {
      OpenedOnly(cs, name, rest);
    }
  }

  /** Opened and self_enclosed are reached only through a letter after `<`. */
  lemma TagOpens(cs: string, e: Event, b: string, rest: string)
    requires ScanFrom(Tag, "", cs) == Stopped(e, b, rest) && e in {Opened, SelfEnclosed}
    ensures cs != [] && IsLetter(cs[0]) && ScanFrom(Opening, [cs[0]], cs[1..]) == Stopped(e, b, rest)
  {
    assert cs == [cs[0]] + cs[1..];
    ScanStep(Tag, "", cs[0], cs[1..]);
    assert "" + [cs[0]] == [cs[0]];
  }

  lemma OpenedOnly(cs: string, name: string, rest: string)
    requires ScanFrom(Tag, "", cs) == Stopped(Opened, name, rest)
    ensures IsName(name) && cs == name + ">" + rest
  {
    TagOpens(cs, Opened, name, rest);
    var tail := cs[1..];
    RunStops(Opening, [cs[0]], tail, Opened, name, rest);
    var n := CollectRun(Opening, tail);
    ScanStep(Opening, [cs[0]] + tail[..n], tail[n], tail[n + 1..]);
    assert tail[n] == '>';
    assert tail[n..n + 1] == ">";
    RunIsName(Opening, cs[0], tail);
    Reassemble(cs, n, 1);
  }

  /** `<` letters `/>` reaches self_enclosed. */
  lemma SelfEnclosedExactly(cs: string, name: string, rest: string)
    ensures ScanFrom(Tag, "", cs) == Stopped(SelfEnclosed, name, rest) <==> IsName(name) && cs == name + "/>" + rest
  {
    if IsName(name) && cs == name + "/>" + rest {
      assert cs == name + ("/" + (">" + rest));
      NameThen(Tag, Opening, name, "/" + (">" + rest));
      ScanStep(Opening, name, '/', ">" + rest);
      ScanStep(SelfEnclosing, name, '>', rest);
    }
    if ScanFrom(Tag, "", cs) == Stopped(SelfEnclosed, name, rest) {
      SelfEnclosedOnly(cs, name, rest);
    }
  }

  /** SelfEnclosing stops at once: at self_enclosed exactly on `>`. */
  lemma SelfEnclosingStops(buffer: string, cs: string, e: Event, b: string, rest: string)
    requires ScanFrom(SelfEnclosing, buffer, cs) == Stopped(e, b, rest)
    ensures cs != [] && b == buffer && rest == cs[1..] && (e == SelfEnclosed <==> cs[0] == '>')
  {
    assert cs == [cs[0]] + cs[1..];
    ScanStep(SelfEnclosing, buffer, cs[0], cs[1..]);
  }

  lemma SelfEnclosedOnly(cs: string, name: string, rest: string)
    requires ScanFrom(Tag, "", cs) == Stopped(SelfEnclosed, name, rest)
    ensures IsName(name) && cs == name + "/>" + rest
  {
    TagOpens(cs, SelfEnclosed, name, rest);
    var tail := cs[1..];
    RunStops(Opening, [cs[0]], tail, SelfEnclosed, name, rest);
    var n := CollectRun(Opening, tail);
    ScanStep(Opening, [cs[0]] + tail[..n], tail[n], tail[n + 1..]);
    assert tail[n] == '/';
    var after := tail[n + 1..];
    SelfEnclosingStops([cs[0]] + tail[..n], after, SelfEnclosed, name, rest);
    assert tail[n..n + 2] == "/>";
    assert tail[n + 2..] == rest;
    RunIsName(Opening, cs[0], tail);
    Reassemble(cs, n, 2);
  }

  /** `</` letters `>` reaches closed. */
  lemma ClosedExactly(cs: string, name: string, rest: string)
    ensures ScanFrom(Tag, "", cs) == Stopped(Closed, name, rest) <==> IsName(name) && cs == "/" + name + ">" + rest
  {
    if IsName(name) && cs == "/" + name + ">" + rest {
      assert cs == "/" + (name + (">" + rest));
      ScanStep(Tag, "", '/', name + (">" + rest));
      NameThen(CloseOrAutoclose, CloseName, name, ">" + rest);
      ScanStep(CloseName, name, '>', rest);
    }
    if ScanFrom(Tag, "", cs) == Stopped(Closed, name, rest) {
      ClosedOnly(cs, name, rest);
    }
  }

  /** Closed and autoclose are reached only through `/` after `<`. */
  lemma TagSlash(cs: string, e: Event, b: string, rest: string)
    requires ScanFrom(Tag, "", cs) == Stopped(e, b, rest) && e in {Closed, Autoclose}
    ensures cs != [] && cs[0] == '/' && ScanFrom(CloseOrAutoclose, "", cs[1..]) == Stopped(e, b, rest)
  {
    assert cs == [cs[0]] + cs[1..];
    ScanStep(Tag, "", cs[0], cs[1..]);
  }

  /** After `</`, closed is reached only through a letter. */
  lemma CloseNameStarts(cs: string, b: string, rest: string)
    requires ScanFrom(CloseOrAutoclose, "", cs) == Stopped(Closed, b, rest)
    ensures cs != [] && IsLetter(cs[0]) && ScanFrom(CloseName, [cs[0]], cs[1..]) == Stopped(Closed, b, rest)
  {
    assert cs == [cs[0]] + cs[1..];
    ScanStep(CloseOrAutoclose, "", cs[0], cs[1..]);
    assert "" + [cs[0]] == [cs[0]];
  }

  /** After `</`, closed is reached only through a name and `>`. */
  lemma CloseNameOnly(mid: string, name: string, rest: string)
    requires ScanFrom(CloseOrAutoclose, "", mid) == Stopped(Closed, name, rest)
    ensures IsName(name) && mid == name + ">" + rest
  {
    CloseNameStarts(mid, name, rest);
    var tail := mid[1..];
    RunStops(CloseName, [mid[0]], tail, Closed, name, rest);
    var n := CollectRun(CloseName, tail);
    ScanStep(CloseName, [mid[0]] + tail[..n], tail[n], tail[n + 1..]);
    assert tail[n] == '>';
    assert tail[n..n + 1] == ">";
    RunIsName(CloseName, mid[0], tail);
    Reassemble(mid, n, 1);
  }

  lemma ClosedOnly(cs: string, name: string, rest: string)
    requires ScanFrom(Tag, "", cs) == Stopped(Closed, name, rest)
    ensures IsName(name) && cs == "/" + name + ">" + rest
  {
    TagSlash(cs, Closed, name, rest);
    CloseNameOnly(cs[1..], name, rest);
    assert cs == "/" + (name + ">" + rest);
  }

  /** `</>` reaches autoclose, with an empty buffer. */
  lemma AutocloseExactly(cs: string, name: string, rest: string)
    ensures ScanFrom(Tag, "", cs) == Stopped(Autoclose, name, rest) <==> name == "" && cs == "/>" + rest
  {
    if name == "" && cs == "/>" + rest {
      assert cs == "/" + (">" + rest);
      ScanStep(Tag, "", '/', ">" + rest);
      ScanStep(CloseOrAutoclose, "", '>', rest);
    }
    if ScanFrom(Tag, "", cs) == Stopped(Autoclose, name, rest) {
      assert cs == [cs[0]] + cs[1..];
      ScanStep(Tag, "", cs[0], cs[1..]);
      assert cs[0] == '/';
      var mid := cs[1..];
      assert mid == [mid[0]] + mid[1..];
      ScanStep(CloseOrAutoclose, "", mid[0], mid[1..]);
      assert mid[0] == '>';
      assert cs == "/>" + mid[1..];
    }
  }

  /** `&` letters `;` reaches identifier_escape, with the letters buffered. */
  lemma NamedEntityExactly(cs: string, name: string, rest: string)
    ensures ScanFrom(Escape, "", cs) == Stopped(IdentifierEscape, name, rest) <==> IsName(name) && cs == name + ";" + rest
  {
    if IsName(name) && cs == name + ";" + rest {
      assert cs == name + (";" + rest);
      NameThen(Escape, IdEscape, name, ";" + rest);
      ScanStep(IdEscape, name, ';', rest);
    }
    if ScanFrom(Escape, "", cs) == Stopped(IdentifierEscape, name, rest) {
      NamedEntityOnly(cs, name, rest);
    }
  }

  /** From Escape, identifier_escape is reached only through a letter. */
  lemma EscapeNamed(cs: string, b: string, rest: string)
    requires ScanFrom(Escape, "", cs) == Stopped(IdentifierEscape, b, rest)
    ensures cs != [] && IsLetter(cs[0]) && ScanFrom(IdEscape, [cs[0]], cs[1..]) == Stopped(IdentifierEscape, b, rest)
  {
    assert cs == [cs[0]] + cs[1..];
    ScanStep(Escape, "", cs[0], cs[1..]);
    assert "" + [cs[0]] == [cs[0]];
  }

  /** From Escape, numeric_escape is reached only through `#`. */
  lemma EscapeNumbered(cs: string, b: string, rest: string)
    requires ScanFrom(Escape, "", cs) == Stopped(NumericEscape, b, rest)
    ensures cs != [] && cs[0] == '#' && ScanFrom(NumEscape, "", cs[1..]) == Stopped(NumericEscape, b, rest)
  {
    assert cs == [cs[0]] + cs[1..];
    ScanStep(Escape, "", cs[0], cs[1..]);
  }

  lemma NamedEntityOnly(cs: string, name: string, rest: string)
    requires ScanFrom(Escape, "", cs) == Stopped(IdentifierEscape, name, rest)
    ensures IsName(name) && cs == name + ";" + rest
  {
    EscapeNamed(cs, name, rest);
    var tail := cs[1..];
    RunStops(IdEscape, [cs[0]], tail, IdentifierEscape, name, rest);
    var n := CollectRun(IdEscape, tail);
    ScanStep(IdEscape, [cs[0]] + tail[..n], tail[n], tail[n + 1..]);
    assert tail[n] == ';';
    assert tail[n..n + 1] == ";";
    RunIsName(IdEscape, cs[0], tail);
    Reassemble(cs, n, 1);
  }

  /** `&#` hex digits `;` reaches numeric_escape, with the digits (possibly
      none) buffered. */
  lemma NumericEntityExactly(cs: string, digits: string, rest: string)
    ensures ScanFrom(Escape, "", cs) == Stopped(NumericEscape, digits, rest) <==> IsHex(digits) && cs == "#" + digits + ";" + rest
  {
    if IsHex(digits) && cs == "#" + digits + ";" + rest {
      assert cs == "#" + (digits + (";" + rest));
      ScanStep(Escape, "", '#', digits + (";" + rest));
      ScanCollect(NumEscape, "", digits, ";" + rest);
      assert "" + digits == digits;
      ScanStep(NumEscape, digits, ';', rest);
    }
    if ScanFrom(Escape, "", cs) == Stopped(NumericEscape, digits, rest) {
      NumericEntityOnly(cs, digits, rest);
    }
  }

  lemma NumericEntityOnly(cs: string, digits: string, rest: string)
    requires ScanFrom(Escape, "", cs) == Stopped(NumericEscape, digits, rest)
    ensures IsHex(digits) && cs == "#" + digits + ";" + rest
  {
    EscapeNumbered(cs, digits, rest);
    var tail := cs[1..];
    RunStops(NumEscape, "", tail, NumericEscape, digits, rest);
    var n := CollectRun(NumEscape, tail);
    ScanStep(NumEscape, "" + tail[..n], tail[n], tail[n + 1..]);
    assert tail[n] == ';';
    assert digits == tail[..n];
    assert tail[n..n + 1] == ";";
    RunIsHex(tail);
    Reassemble(cs, n, 1);
  }

  /** Prepending to both sides of a split. */
  lemma PrependSplit(m: string, t: string, u: string, tail: string)
    requires t == u + tail
    ensures m + t == (m + u) + tail
  {
  }

  /** Within a comment, the automaton stops only right after `-->`, and the
      buffer is untouched; in the two phases that have already matched one or
      two dashes, those dashes count towards the `-->`. */
  lemma {:induction false} CommentEndsWithArrow(buffer: string, cs: string, b: string, rest: string)
    requires ScanFrom(Comment, buffer, cs) == Stopped(CommentFinished, b, rest)
    ensures b == buffer
    ensures exists u :: cs == u + ("-->" + rest)
    decreases |cs|, 2
  {
    var c, t := cs[0], cs[1..];
    assert cs == [c] + t;
    ScanStep(Comment, buffer, c, t);
    if c == '-' {
      DashEndsWithArrow(buffer, t, b, rest);
      var u :| "-" + t == u + ("-->" + rest);
    } else {
      CommentEndsWithArrow(buffer, t, b, rest);
      var u :| t == u + ("-->" + rest);
      PrependSplit([c], t, u, "-->" + rest);
    }
  }

  lemma {:induction false} DashEndsWithArrow(buffer: string, cs: string, b: string, rest: string)
    requires ScanFrom(CommentDash, buffer, cs) == Stopped(CommentFinished, b, rest)
    ensures b == buffer
    ensures exists u :: "-" + cs == u + ("-->" + rest)
    decreases |cs|, 1
  {
    var c, t := cs[0], cs[1..];
    assert cs == [c] + t;
    ScanStep(CommentDash, buffer, c, t);
    if c == '-' {
      DashDashEndsWithArrow(buffer, t, b, rest);
      var u :| "--" + t == u + ("-->" + rest);
      assert "-" + cs == "--" + t;
    } else {
      CommentEndsWithArrow(buffer, t, b, rest);
      var u :| t == u + ("-->" + rest);
      assert "-" + cs == "-" + [c] + t;
      PrependSplit("-" + [c], t, u, "-->" + rest);
    }
  }

  lemma {:induction false} DashDashEndsWithArrow(buffer: string, cs: string, b: string, rest: string)
    requires ScanFrom(CommentDashDash, buffer, cs) == Stopped(CommentFinished, b, rest)
    ensures b == buffer
    ensures exists u :: "--" + cs == u + ("-->" + rest)
    decreases |cs|, 0
  {
    var c, t := cs[0], cs[1..];
    assert cs == [c] + t;
    ScanStep(CommentDashDash, buffer, c, t);
    if c == '>' {
      assert "--" + cs == "" + ("-->" + rest);
    } else {
      CommentEndsWithArrow(buffer, t, b, rest);
      var u :| t == u + ("-->" + rest);
      assert "--" + cs == "--" + [c] + t;
      PrependSplit("--" + [c], t, u, "-->" + rest);
    }
  }

  /** A comment body without a `-` leaves the automaton in the plain comment
      state. */
  lemma {:induction false} CommentBodyRuns(buffer: string, body: string)
    requires forall k :: 0 <= k < |body| ==> body[k] != '-'
    ensures ScanFrom(Comment, buffer, body) == Running(Comment, buffer)
    decreases |body|
  {
    if body != [] {
      assert body == [body[0]] + body[1..];
      ScanStep(Comment, buffer, body[0], body[1..]);
      CommentBodyRuns(buffer, body[1..]);
    }
  }

  /** Scanning a concatenation whose first part leaves the automaton running. */
  lemma {:induction false} ScanSplit(q: Phase, buffer: string, x: string, y: string)
    requires ScanFrom(q, buffer, x).Running?
    ensures ScanFrom(q, buffer, x + y) == ScanFrom(ScanFrom(q, buffer, x).phase, ScanFrom(q, buffer, x).buffer, y)
    decreases |x|
  {
    if x == [] {
      assert x + y == y;
    } else {
      assert x + y == [x[0]] + (x[1..] + y);
      ScanStep(q, buffer, x[0], x[1..] + y);
      var t := Consume(q, x[0]);
      var buffer' := if t.Next? && t.write then buffer + [x[0]] else buffer;
      ScanSplit(t.phase, buffer', x[1..], y);
    }
  }

  /** `<!--` moves the automaton, after the `<`, into the comment state. */
  lemma CommentOpens(x: string)
    ensures ScanFrom(Tag, "", "!--" + x) == ScanFrom(Comment, "", x)
  {
    assert "!--" + x == "!" + ("-" + ("-" + x));
    ScanStep(Tag, "", '!', "-" + ("-" + x));
    ScanStep(CommentIncoming, "", '-', "-" + x);
    ScanStep(CommentIncoming2, "", '-', x);
  }

  /** `-->` in the plain comment state finishes the comment. */
  lemma CommentCloses(buffer: string, rest: string)
    ensures ScanFrom(Comment, buffer, "-->" + rest) == Stopped(CommentFinished, buffer, rest)
  {
    assert "-->" + rest == "-" + ("-" + (">" + rest));
    ScanStep(Comment, buffer, '-', "-" + (">" + rest));
    ScanStep(CommentDash, buffer, '-', ">" + rest);
    ScanStep(CommentDashDash, buffer, '>', rest);
  }

  /** `<!--` body `-->` (after the `<`) reaches comment_finished right after
      the closing `-->` when the body leaves the automaton in the plain
      comment state. */
  lemma CommentFinishes(body: string, rest: string)
    requires ScanFrom(Comment, "", body) == Running(Comment, "")
    ensures ScanFrom(Tag, "", "!--" + body + "-->" + rest) == Stopped(CommentFinished, "", rest)
  {
    assert "!--" + body + "-->" + rest == "!--" + (body + ("-->" + rest));
    CommentOpens(body + ("-->" + rest));
    ScanSplit(Comment, "", body, "-->" + rest);
    CommentCloses("", rest);
  }

  /** `--->` does not end a comment: the third `-` breaks the partial match
      and the automaton is back in the plain comment state. */
  lemma TripleDashDoesNotClose(buffer: string)
    ensures ScanFrom(Comment, buffer, "--->") == Running(Comment, buffer)
  {
    ScanStep(Comment, buffer, '-', "-->");
    ScanStep(CommentDash, buffer, '-', "->");
    ScanStep(CommentDashDash, buffer, '-', ">");
    ScanStep(Comment, buffer, '>', "");
  }

  /** `<!` not followed by `-` is a tag error, as is `<` followed by a
      character that is neither `/`, `!` nor a letter, and `&` followed by
      one that is neither `#` nor a letter. */
  lemma TagErrors(c: char, rest: string)
    ensures c != '-' ==> ScanFrom(Tag, "", "!" + [c] + rest) == Stopped(TagError, "", rest)
    ensures c != '/' && c != '!' && !IsLetter(c) ==> ScanFrom(Tag, "", [c] + rest) == Stopped(TagError, "", rest)
    ensures c != '#' && !IsLetter(c) ==> ScanFrom(Escape, "", [c] + rest) == Stopped(TagError, "", rest)
  {
    assert "!" + [c] + rest == "!" + ([c] + rest);
    ScanStep(Tag, "", '!', [c] + rest);
    ScanStep(CommentIncoming, "", c, rest);
    ScanStep(Tag, "", c, rest);
    ScanStep(Escape, "", c, rest);
  }

  /** Past the first letter of a tag: a character that cannot go on an
      opening name (neither a letter, `/` nor `>`), one that cannot follow
      `</` (neither a letter nor `>`), and one that cannot go on a closing
      name (neither a letter nor `>`) are tag errors, with the name
      buffered so far. */
  lemma TagNameErrors(name: string, c: char, rest: string)
    ensures IsName(name) && c != '/' && c != '>' && !IsLetter(c) ==>
              ScanFrom(Tag, "", name + [c] + rest) == Stopped(TagError, name, rest)
    ensures c != '>' && !IsLetter(c) ==> ScanFrom(Tag, "", "/" + [c] + rest) == Stopped(TagError, "", rest)
    ensures IsName(name) && c != '>' && !IsLetter(c) ==>
              ScanFrom(Tag, "", "/" + name + [c] + rest) == Stopped(TagError, name, rest)
  {
    if IsName(name) && c != '/' && c != '>' && !IsLetter(c) {
      assert name + [c] + rest == name + ([c] + rest);
      NameThen(Tag, Opening, name, [c] + rest);
      ScanStep(Opening, name, c, rest);
    }
    if c != '>' && !IsLetter(c) {
      assert "/" + [c] + rest == "/" + ([c] + rest);
      ScanStep(Tag, "", '/', [c] + rest);
      ScanStep(CloseOrAutoclose, "", c, rest);
    }
    if IsName(name) && c != '>' && !IsLetter(c) {
      assert "/" + name + [c] + rest == "/" + (name + ([c] + rest));
      ScanStep(Tag, "", '/', name + ([c] + rest));
      NameThen(CloseOrAutoclose, CloseName, name, [c] + rest);
      ScanStep(CloseName, name, c, rest);
    }
  }

  /** Inside an entity, a character that is neither a letter (by name), a hex
      digit (by number) nor `;` is an escape error, with the buffered name or
      digits as they stand. */
  lemma EscapeErrors(name: string, digits: string, c: char, rest: string)
    ensures IsName(name) && !IsLetter(c) && c != ';' ==>
              ScanFrom(Escape, "", name + [c] + rest) == Stopped(EscapeError, name, rest)
    ensures IsHex(digits) && !IsHexDigit(c) && c != ';' ==>
              ScanFrom(Escape, "", "#" + digits + [c] + rest) == Stopped(EscapeError, digits, rest)
  {
    if IsName(name) && !IsLetter(c) && c != ';' {
      assert name + [c] + rest == name + ([c] + rest);
      NameThen(Escape, IdEscape, name, [c] + rest);
      ScanStep(IdEscape, name, c, rest);
    }
    if IsHex(digits) && !IsHexDigit(c) && c != ';' {
      assert "#" + digits + [c] + rest == "#" + (digits + ([c] + rest));
      ScanStep(Escape, "", '#', digits + ([c] + rest));
      ScanCollect(NumEscape, "", digits, [c] + rest);
      assert "" + digits == digits;
      ScanStep(NumEscape, digits, c, rest);
    }
  }

  /** `<!-` (after the `<`) leaves the automaton short of a comment. */
  lemma CommentHalfOpens()
    ensures ScanFrom(Tag, "", "!-") == Running(CommentIncoming2, "")
  {
    assert "!-" == ['!'] + "-" && "-" == ['-'] + "";
    ScanStep(Tag, "", '!', "-");
    ScanStep(CommentIncoming, "", '-', "");
  }
}
