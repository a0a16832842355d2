# sml-markup in Dafny

A model of the core of sml-markup, a small markup language with
XML-like tags, comments and entities.

- `dom.js` holds the element tree and the ElementBuilder with its seven
  closing policies.
- `index.js` holds the character automaton, the reader that drives a
  builder from it, the writer that renders a tree back to markup, and the
  value codec (`readObject` / `writeObject`).

The files and modules:

- `base.dfy` (`Base`): Option, Result, the error kinds, and small
  sequence lemmas.
- `tree.dfy` (`Tree`): elements as values, and the arena of nodes with
  parent links in which the reader builds them. It states
  `Element.appendText` and `Element.appendChild`.
- `builders.dfy` (`Builders`): the builder's state and the seven
  `closeElement` policies as functions, with `active` as an Option. None is
  the broken state that follows popping past the root.
- `element_builder.dfy` (`ElementBuilders`): the ElementBuilder class.
  Its methods update `nodes` and `active` in place and are proved against
  `Builders`.
- `tokenizer.dfy` (`Tokenizer`): the automaton as a pure function of a
  state and a character, with lemmas saying which inputs reach each
  terminal state.
- `reader.dfy` (`Reader`): reader configurations, the loop as functions
  (`Step`, `Run`, `Finish`, `Parse`), and the imperative `Read` loop proved
  to compute `Parse`.
- `read_properties.dfy` (`ReadProperties`) and `read_examples.dfy`
  (`ReadExamples`): what the reader does with each construct, and the
  reader tests of `test.js`.
- `writer.dfy` (`Writer`): writer configurations, the renderer as
  functions, and the methods that write to an output stream, proved to emit
  exactly that text. It also holds the as-written form of the text branch.
- `write_properties.dfy` (`WriteProperties`): text the writer emits, read
  back by the reader.
- `round_trip.dfy` (`RoundTrip`): a whole document the writer emits, read
  back by the reader.
- `values.dfy` (`Values`): the value codec. The decoding and encoding
  functions come with their round trip, and the loop methods of
  `readObj`, `objectReader().read` and `objectWriter().write` are proved
  to compute them.

Where the source, as written, throws or does not do what it evidently
means, the main members follow the intended form and a comment says so.
For the three cases under "## Findings", the code as written is kept in
separate members (Writer.EscapeTextAsWritten with Writer.MarkAsWritten,
and Values.DecodeTextAsWritten). A lemma beside each shows the
discrepancy: Writer.AsWrittenRepeatsText, Writer.NewlineMarkAsWritten and
Values.TextAsWrittenFails.

- `</>` calls `closeActive`, which the builder does not define
  (index.js:293). It is modelled as the intended `closeAuto`.
- `<name/>`, `true`, `false` and `nil` build `new Element(name, false)`.
  The constructor then dereferences undefined (dom.js:17).
  - The reader's self-closing tag is modelled as the intended append of a
    childless element.
  - The encoder's booleans and undefined are a TypeError, as written.

Elsewhere the model follows the code:

- readObj leaves the result undefined for a name it does not know
  (index.js:484, 512).
- The plain `searching` policy, when no element on the chain has the
  name, sets `active_tag` to the root's undefined parent (dom.js:102-105).

## Model

| member | source | states |
|---|---|---|
| Tree.AppendText | dom.js:23-33 | An empty text leaves the content unchanged. Otherwise a trailing text run grows by the text, and after a child or in empty content the text becomes a new run at the end. The content's text gains the text at its end, children stay where they were, and content with no empty or adjacent runs keeps that invariant. |
| Tree.AppendTextTwice | dom.js:23-33 | Appending x and then y is the same as appending x + y. |
| Tree.AppendTextAt | dom.js:23-33 | appendText on one node of the arena changes only that node's content, as AppendText says, and keeps the arena well formed. |
| Tree.AppendTextAtEmpty | dom.js:24-26 | Appending no text leaves the arena unchanged. |
| Tree.AppendTextAtTwice | dom.js:23-33 | Two appends to one node are one append of the concatenation. |
| Tree.AppendChildAt | dom.js:35-38 | appendChild of a fresh element: it becomes the parent's last item, its parent link is the receiver, and every other node is unchanged. |
| Tree.UnfoldElement | dom.js:8-21 | A node read back as an element value has the node's name and one item per content item. |
| Tree.UnfoldContent | dom.js:8-21 | Reading back a node's items keeps each text run and replaces each child index, which is always a later node, by the element found there. |
| Tree.DocumentOf | dom.js:41-45 | The document is the root's content, one item per root item. |
| Tree.BuildItem | dom.js:23-38 | One item built below node p: a text appended with appendText, or a fresh child appended and then filled below itself. Node p keeps its name and parent link, every other existing node is unchanged, and a well-formed arena stays well formed. |
| Tree.Build | dom.js:23-38 | Items built below node p one after the other, with the same frame and well-formedness guarantees as one item. |
| Tree.BuildConcat | dom.js:23-38 | Building x and then y below a node is building x + y. |
| Tree.AppendedConcat | dom.js:23-38 | Appending the items of x and then those of y to a content is appending x + y. |
| Tree.UnfoldContentFrame | dom.js:8-21 | A node reads back the same in two well-formed arenas that agree on its first items and on every later node. |
| Tree.UnfoldElementFrame | dom.js:8-21 | An element node reads back the same in two well-formed arenas that agree from that node on. |
| Tree.UnfoldAppendText | dom.js:23-33 | appendText on a node of the arena, read back, is appendText on the node's content as a value. |
| Tree.BuildItemUnfolds | dom.js:23-38 | Building one item below a node and reading the node back appends that item to its content, the item's own content appended to nothing. |
| Tree.BuildUnfolds | dom.js:23-38 | Building a sequence of items below a node and reading the node back appends the items to the content it held. |
| Tree.AppendedCanonical | dom.js:23-33 | Content whose runs are non-empty and never adjacent, at every depth, comes back unchanged when appended item by item to nothing. |
| Builders.PolicyNamed | index.js:268 | The policy registered under the name, or Strict when no policy has that name (names inherited from Object.prototype are under Left out). |
| Builders.Nearest | dom.js:99-147 | The cursor walk gives the nearest element on the chain from the active element upward that has the name, or none when no element on the chain has it. |
| Builders.FirstNamedUnique | dom.js:99-147 | The nearest element with a given name on a chain is unique. |
| Builders.FirstNamedSelf | dom.js:101-105 | An element that has the name is the nearest one to itself. |
| Builders.CloseAuto | dom.js:53-55 | active becomes its parent and no node changes. At the root it becomes None, and a broken builder throws a TypeError. |
| Builders.AppendText | dom.js:66-68 | The text is appended to the active element and active does not move. A broken builder throws. |
| Builders.AppendChild | dom.js:57-59 | The child is appended to the active element and active does not move. A broken builder throws. |
| Builders.OpenChild | dom.js:61-64 | The child is appended to the active element, becomes the active element, and its parent is the old active element. A broken builder throws. |
| Builders.CloseElement | dom.js:75-147 | No node ever changes. Forcing pops one level. Strict and Ignoring pop one level on a match; on a mismatch Strict throws InputError and Ignoring leaves active. The searching policies make the parent of the nearest match active. With no match, Searching goes to None, StrictSearching throws, ForcingSearching pops one level and IgnoringSearching leaves active. |
| Builders.CloseSearching | dom.js:99-147 | A searching policy never changes a node. It makes the parent of the nearest element with the name active. With none on the chain, Searching goes to None, StrictSearching throws InputError, ForcingSearching pops one level and IgnoringSearching leaves the builder as it is. |
| Builders.FirstNamedOnly | dom.js:99-147 | Any nearest element with the name is the one already found. |
| Builders.CloseMatching | dom.js:75-147 | When the active element has the name, every policy pops exactly one level. |
| ElementBuilders.ElementBuilder.constructor | dom.js:48-51 | A new builder holds the root alone, and the root is active. |
| ElementBuilders.ElementBuilder.CloseAuto | dom.js:53-55 | The fields change as Builders.CloseAuto says; on an exception they are left as they were. |
| ElementBuilders.ElementBuilder.AppendChild | dom.js:57-59 | The fields change as Builders.AppendChild says. |
| ElementBuilders.ElementBuilder.OpenChild | dom.js:61-64 | The fields change as Builders.OpenChild says. |
| ElementBuilders.ElementBuilder.AppendText | dom.js:66-68 | The fields change as Builders.AppendText says. |
| ElementBuilders.ElementBuilder.CloseElement | dom.js:75-147 | The cursor loops of the seven policies change the fields as Builders.CloseElement says. |
| Tokenizer.IsLetter | index.js:19-21 | isLetter as a predicate, with no contract of its own; IsName, Consume and the scan lemmas use it. |
| Tokenizer.IsHexDigit | index.js:15-17 | isHexDigit as a predicate, with no contract of its own; Consume, Reader.DigitValue and Reader.HexRun use it. |
| Tokenizer.Consume | index.js:40-221 | The transition table itself; it has no contract of its own. What it does is stated by ConsumeShape and the scan lemmas below. |
| Tokenizer.ConsumeShape | index.js:40-221 | Content never stops and never buffers. Only `<` and `&` enter the tag and escape states. Only letters, and hex digits in a numeric entity, are buffered. An escape error arises only inside an entity. Only `>` after `--` in a comment finishes it. |
| Tokenizer.ScanFrom | index.js:40-221 | A scan from a state stops only at one of the terminal states reachable from it. |
| Tokenizer.CollectRun | index.js:88-221 | The run a collecting state buffers is the longest prefix of characters it collects. |
| Tokenizer.ScanStep | index.js:40-221 | One character either reaches a terminal state or moves on, buffering it when the transition says to. |
| Tokenizer.ScanCollect | index.js:88-221 | Collected characters go to the buffer and change nothing else. |
| Tokenizer.RunStops | index.js:88-221 | A scan that stops gets past the whole collected run first. |
| Tokenizer.StopSplits | index.js:40-221 | A stopped scan splits its input: the characters before the stop leave the automaton running with the final buffer, and the next character reaches the terminal state. |
| Tokenizer.RunIsName | index.js:88-103 | A name collected after a letter consists of letters only. |
| Tokenizer.RunIsHex | index.js:106-121 | A numeric entity buffers hex digits only. |
| Tokenizer.NameThen | index.js:138-179 | A name whose first letter enters a collecting state is buffered whole. |
| Tokenizer.OpenedExactly | index.js:138-179 | After `<`, opened is reached with buffer `name` exactly when the input is a non-empty run of letters, `name`, followed by `>`. |
| Tokenizer.TagOpens | index.js:138-157 | opened and self_enclosed are reached only through a letter after `<`. |
| Tokenizer.OpenedOnly | index.js:160-179 | A scan that reaches opened read a name and `>`. |
| Tokenizer.SelfEnclosedExactly | index.js:138-186 | After `<`, self_enclosed is reached with buffer `name` exactly on `name` followed by `/>`. |
| Tokenizer.SelfEnclosingStops | index.js:181-186 | self_enclosing stops at the next character, at self_enclosed exactly when that character is `>`. |
| Tokenizer.SelfEnclosedOnly | index.js:160-186 | A scan that reaches self_enclosed read a name and `/>`. |
| Tokenizer.ClosedExactly | index.js:138-221 | After `<`, closed is reached with buffer `name` exactly on `/`, `name` and `>`. |
| Tokenizer.TagSlash | index.js:138-157 | closed and autoclose are reached only through `/` after `<`. |
| Tokenizer.CloseNameStarts | index.js:189-204 | After `</`, closed is reached only through a letter. |
| Tokenizer.ClosedOnly | index.js:189-221 | A scan that reaches closed read `/`, a name and `>`. |
| Tokenizer.AutocloseExactly | index.js:189-204 | After `<`, autoclose is reached exactly on `/>`, with an empty buffer. |
| Tokenizer.NamedEntityExactly | index.js:88-137 | After `&`, identifier_escape is reached with buffer `name` exactly on a name followed by `;`. |
| Tokenizer.EscapeNamed | index.js:122-137 | identifier_escape is reached only through a letter after `&`. |
| Tokenizer.EscapeNumbered | index.js:122-137 | numeric_escape is reached only through `#` after `&`. |
| Tokenizer.NamedEntityOnly | index.js:88-103 | A scan that reaches identifier_escape read a name and `;`. |
| Tokenizer.NumericEntityExactly | index.js:104-137 | After `&`, numeric_escape is reached with buffer `digits` exactly on `#`, hex digits (possibly none) and `;`. |
| Tokenizer.NumericEntityOnly | index.js:104-121 | A scan that reaches numeric_escape read `#`, hex digits and `;`. |
| Tokenizer.CommentEndsWithArrow | index.js:61-73 | Inside a comment the automaton stops only right after `-->` and leaves the buffer untouched. |
| Tokenizer.DashEndsWithArrow | index.js:61-73 | After one dash of a partial match, the stop is still right after a `-->`. |
| Tokenizer.DashDashEndsWithArrow | index.js:61-73 | After two dashes of a partial match, the stop is still right after a `-->`. |
| Tokenizer.CommentBodyRuns | index.js:51-54 | A comment body without `-` keeps the automaton in the plain comment state. |
| Tokenizer.ScanSplit | index.js:40-221 | Scanning a concatenation goes on from wherever the first part left the automaton. |
| Tokenizer.CommentOpens | index.js:49-60 | `<!--` enters the comment state. |
| Tokenizer.CommentCloses | index.js:61-73 | `-->` in the comment state reaches comment_finished. |
| Tokenizer.CommentFinishes | index.js:49-73 | `<!--`, a dash-free body and `-->` reach comment_finished right after the `>`. |
| Tokenizer.TripleDashDoesNotClose | index.js:61-73 | `--->` leaves the automaton in the plain comment state. |
| Tokenizer.TagErrors | index.js:75-157 | `<!` followed by anything but `-` is a tag error. So is `<` followed by anything but `/`, `!` or a letter, and `&` followed by anything but `#` or a letter. |
| Tokenizer.TagNameErrors | index.js:160-221 | After a tag name's first letter, a character that is neither a letter, `/` nor `>` is a tag error with the name buffered. So is `</` followed by anything but a letter or `>`, and a closing name broken off by anything but a letter or `>`. |
| Tokenizer.EscapeErrors | index.js:88-121 | Inside an entity, a character that is not a letter (for a name), not a hex digit (for a number) and not `;` is an escape error. The buffer holds what was read. |
| Tokenizer.CommentHalfOpens | index.js:55-60 | `<!-` leaves the automaton one dash short of a comment. |
| Reader.DigitValue | index.js:304 | A hex digit's value is below 16: a decimal digit counts from `0`, and `a`-`f` and `A`-`F` alike count from 10. |
| Reader.HexValue | index.js:304 | The number a string of hex digits denotes, most significant first; it has no contract of its own. ParseHex states it is what parseInt with radix 16 gives, and Writer.Hex that it is the number toString(16) wrote. |
| Reader.HexRun | index.js:304 | The longest prefix of hex digits. |
| Reader.ParseHex | index.js:304 | parseInt with radix 16 on the buffers the automaton hands it, which hold hex digits only (RunIsHex): no value (NaN) exactly when the buffer is empty, and otherwise the value of the digits. |
| Reader.CodePoint | index.js:310 | String.fromCodePoint gives the one character with that code, except for surrogate codes (see Left out). |
| Reader.NumericEntity | index.js:303-311 | An empty number is a RangeError. A code above 0x10FFFF raises SyntaxError under strict_escape and is otherwise dropped. Any other code point is appended. |
| Reader.OnEvent | index.js:289-325 | The dispatch on the terminal state. closed closes by the configured policy, opened opens a child, a finished comment changes nothing. Named entities are looked up and an unknown one raises only under strict_escape. Tag and escape errors raise under strict_tag and otherwise keep the buffered text. |
| Reader.Step | index.js:280-330 | One iteration keeps the arena well formed. Its behaviour is stated by the ReadProperties lemmas. |
| Reader.Run | index.js:279-331 | The loop keeps the arena well formed. Its behaviour is stated by RunConcat and the ReadProperties lemmas. |
| Reader.Finish | index.js:333-337 | Ending in the comment state under strict_comment is "unclosed comment". Otherwise, with an active element, the buffered text is appended and the root's content is returned, and with a broken builder the final appendText throws a TypeError. |
| Reader.NodesAfter | index.js:336 | Flushing the buffered text keeps the arena well formed. |
| Reader.RunAgrees | index.js:279-331 | Two configurations with the same strict_tag and strict_escape whose closing names select the same policy run the loop alike. |
| Reader.UnknownEscapeSet | index.js:269 | An escape set that is not registered reads as `minimal`. |
| Reader.UnknownClosing | index.js:268 | A closing name that no policy has, and that Object.prototype does not supply, reads as `strict`. |
| Reader.RunConcat | index.js:279-331 | Reading x + y is reading y from the state x leaves, and an exception in x ends the read. |
| Reader.RunSnoc | index.js:279-331 | One more character is one more step, unless an exception has already ended the loop. |
| Reader.RunErrorStays | index.js:279-331 | An exception part-way through is the outcome of the whole read. |
| Reader.Read | index.js:271-338 | The imperative loop over a builder object returns exactly Parse of the input. |
| Reader.Loop | index.js:279-331 | The while loop leaves the builder, automaton and buffers as Run says, or fails with Run's exception. |
| Reader.Advance | index.js:280-330 | One iteration against the builder object does what Step says. |
| Reader.Shift | index.js:281-287 | A non-terminal character is buffered when the transition says so. Entering tag or escape first flushes the text read so far and restarts text_content with the character; any other character is appended to text_content. |
| Reader.Handle | index.js:289-325 | The dispatch against the builder object does what OnEvent says. |
| ReadProperties.Resumed | index.js:326-329 | After a handled terminal state, the automaton and both buffers are reset and the builder is the handler's result. |
| ReadProperties.ReadsPlain | index.js:330 | Plain text without `<` or `&` only accumulates in text_content. |
| ReadProperties.Buffered | index.js:281-330 | A character that moves the automaton on inside markup goes to text_content, and to tag_name when the transition says so. |
| ReadProperties.ReadsInside | index.js:280-330 | A non-terminal character inside markup is only buffered. |
| ReadProperties.ReadsTerminal | index.js:289-329 | A character that reaches a terminal state is handled with the buffers, and the loop resumes. |
| ReadProperties.ReadsRunning | index.js:280-330 | While the automaton has not stopped inside markup, the builder is untouched and every character is buffered. |
| ReadProperties.Flushed | index.js:282-285 | The builder after the pending text is appended to the active element. |
| ReadProperties.ReadsOpening | index.js:281-285 | `<` or `&` in content flushes the pending text and restarts text_content with that character. |
| ReadProperties.ReadsUpTo | index.js:280-330 | Inside markup, the characters up to the stopping one are buffered, and the terminal state is handled with everything read since `<` or `&`. |
| ReadProperties.ReadsMarkup | index.js:280-330 | Markup as a whole: flush, buffer up to the stop, handle the terminal state, and go on with the rest in content. |
| ReadProperties.ReadsOpenTag | index.js:288-289 | `<name>` opens a child of the active element. |
| ReadProperties.ReadsSelfClosingTag | index.js:290-291 | `<name/>` appends a childless element (the intended form; see the header). |
| ReadProperties.ReadsCloseTag | index.js:286-287 | `</name>` closes by the configured policy. |
| ReadProperties.ReadsAutoclose | index.js:292-293 | `</>` closes the active element whatever its name (the intended closeAuto; see the header). |
| ReadProperties.ReadsComment | index.js:312-313 | A comment is dropped together with everything buffered for it. |
| ReadProperties.ReadsNamedEntity | index.js:294-302 | `&name;` appends the table's text when the name is in the table. An unknown name raises under strict_escape and is otherwise dropped. |
| ReadProperties.ReadsNumericEntity | index.js:303-311 | `&#digits;` does what NumericEntity says. |
| ReadProperties.Recovered | index.js:314-323 | After a tag or escape error, strict_tag raises. Otherwise the characters since `<` or `&` become text. |
| ReadProperties.ReadsBadTag | index.js:314-318 | `<` followed by a bad character recovers as `<` and drops that character. |
| ReadProperties.ReadsBadTagName | index.js:314-318 | An opening tag name broken off by anything but a letter, `/` or `>` recovers as `<` and the name, and drops that character. |
| ReadProperties.ReadsBadClose | index.js:314-318 | `</` followed by anything but a letter or `>` recovers as `</`. |
| ReadProperties.ReadsBadCloseName | index.js:314-318 | A closing tag name broken off by anything but a letter or `>` recovers as `</` and the name. |
| ReadProperties.ReadsBadComment | index.js:314-318 | `<!` followed by anything but `-` recovers as `<!`. |
| ReadProperties.ReadsBadEscape | index.js:314-318 | `&` followed by anything but `#` or a letter is a tag error that recovers as `&`. |
| ReadProperties.ReadsBadEntityName | index.js:319-323 | A broken entity name is an escape error that recovers as `&` and the name. |
| ReadProperties.ReadsBadEntityNumber | index.js:319-323 | A broken entity number is an escape error that recovers as `&#` and the digits. |
| ReadProperties.ReadsUnclosedComment | index.js:280-330 | An input ending inside a comment body leaves the automaton in the comment state, with `<!--` and the body in text_content. |
| ReadProperties.TextDoc | dom.js:23-33 | The document of one text run has that text and satisfies appendText's invariant. |
| ReadProperties.TextDocument | dom.js:23-33 | Appending a text to a fresh root gives that one-run document. |
| ReadProperties.FlushedEmpty | index.js:282-285 | Flushing no text leaves the builder as it is. |
| Reader.Parse | index.js:271-338 | The read as a function: the loop over the input, then the end-of-input step. It has no contract of its own. Reader.Read is proved to compute it, and ParseIs, Finish and the ReadProperties lemmas state what it yields. |
| ReadProperties.ParseIs | index.js:271-338 | A read is the loop followed by the end-of-input step. |
| ReadProperties.ParsesPlain | index.js:330-337 | Plain text reads as one text run, or as nothing when it is empty. |
| ReadProperties.ParsesUnclosedComment | index.js:333-336 | An input ending inside a comment raises under strict_comment. Otherwise `<!--` and the body become text. |
| ReadProperties.ParsesHalfOpenedComment | index.js:333-336 | An input that stops at `<!-` is text even under strict_comment. |
| ReadProperties.ParsesCommentBetween | index.js:312-313 | A comment between two texts vanishes and the texts join into one run. |
| ReadProperties.ParsesEntityBetween | index.js:294-302 | A known named entity between two texts is replaced by its text, all in one run. |
| ReadProperties.ReadsOpenFresh | index.js:288-289 | `<name>` with nothing pending appends the node and makes it active. |
| ReadProperties.ReadsCloseMatching | index.js:286-287 | `</name>` when the active element has the name pops one level under every policy. |
| ReadProperties.NestedArena | dom.js:23-38 | The arena that `<n><m>t</m></n>` builds. |
| ReadProperties.NestedDocument | dom.js:8-45 | The document that arena holds. |
| ReadProperties.NestedOpens | index.js:288-289 | `<n><m>t` opens n and then m inside it, with t pending. |
| ReadProperties.NestedCloses | index.js:286-287 | `</m></n>` flushes t into m and closes m and n. |
| ReadProperties.ParsesNested | index.js:271-338 | `<n><m>t</m></n>` reads as m inside n with t inside m, under every policy and configuration. |
| ReadProperties.ReadsBroken | dom.js:53-55 | Once active is None, nothing the reader does afterwards succeeds in changing the builder. |
| ReadProperties.ParsesAutocloseAtRoot | dom.js:53-55 | `</>` at the top level pops past the root, and then the read fails whatever follows. |
| ReadExamples.ReadsContentExample | test.js:8 | `content` reads as that one text. |
| ReadExamples.ReadsCommentExample | test.js:9 | `con<!--comment-->tent` reads as `content`. |
| ReadExamples.ReadsNestedExample | test.js:10 | `<tag><tag>content</tag></tag>` reads as two nested `tag` elements around `content`. |
| ReadExamples.ReadsEntityExample | test.js:11 | With `lt` meaning `<`, `1&lt;2` reads as `1<2`. |
| Writer.Indentation | index.js:386-393 | Nothing when indent is undefined or empty. Otherwise indent repeated once per level. |
| Writer.HexDigit | index.js:409 | A lowercase hex digit, which the reader's parseInt reads as that value. |
| Writer.Hex | index.js:409 | toString(16): non-empty lowercase hex digits with no leading zero, whose value is the number. |
| Writer.Written | index.js:395-429 | `_write` as a function: spacing, then the items. No contract of its own; WriteElement is proved to emit it and ParsesRendered states what the reader makes of it. |
| Writer.Items | index.js:396-427 | Each item indented, written and followed by spacing. No contract of its own; stated by WriteElement, ItemsConcat and ReadsItems. |
| Writer.ItemText | index.js:399-426 | A text run escaped, or the open tag, the content one level deeper and the close tag. No contract of its own; stated by WriteItem and ReadsItem. |
| Writer.EscapeText | index.js:400-415 | The corrected text branch, character by character. No contract of its own; stated by WriteText, EscapeVerbatim, EscapeConcat and ReadsEscaped. |
| Writer.EscapeChar | index.js:401-413 | One character as its table entity, its numeric reference or itself. No contract of its own; stated by WriteChar and ReadsEscapedChar. |
| Writer.CloseTag | index.js:421-425 | `</name>`, or `</>` under autoclose. No contract of its own; stated by WriteCloseTag and ClosesElement. |
| Writer.Render | index.js:431-435 | The document written from level 0 (the renderer's properties are in the lemmas and methods below). |
| Writer.WrittenAgrees | index.js:395-429 | The renderer's output does not depend on the name of the escape set, only on the table and the other settings. |
| Writer.UnknownEscapes | index.js:384 | An escape set that is not registered writes as `minimal`. |
| Writer.WriteIndent | index.js:386-393 | The stream gains exactly Indentation(level). |
| Writer.WriteChar | index.js:401-413 | The stream gains exactly the escaped character (the corrected form; see Findings). |
| Writer.WriteText | index.js:400-415 | The stream gains exactly EscapeText of the run (the corrected form; see Findings). |
| Writer.WriteElement | index.js:395-429 | The stream gains exactly the element's rendering: spacing, then indentation, the item and spacing for each item. |
| Writer.WriteItem | index.js:399-426 | The stream gains exactly one item: an escaped text run, or `<name>`, the element's content one level deeper, and the closing tag. |
| Writer.WriteCloseTag | index.js:421-425 | The stream gains `</name>`, or `</>` under autoclose. |
| Writer.WriteDocument | index.js:431-435 | write(doc) returns exactly Render of the document. |
| Writer.HexParses | index.js:409 | The reader's parseInt with radix 16 reads back what toString(16) writes. |
| Writer.EscapeVerbatim | index.js:400-415 | A run with no table character and no control character is written verbatim. |
| Writer.EscapeConcat | index.js:400-415 | Escaping works character by character: a concatenation is escaped piece by piece. |
| Writer.ItemsConcat | index.js:396-427 | The items of a concatenation are written one part after the other. |
| Writer.WritesText | index.js:395-429 | A one-run document is written as spacing, the escaped run, and spacing. |
| Writer.WritesTestDocument | test.js:13-15 | The default writer writes `Document("test")` as `test` when the minimal table does not escape its letters. |
| Writer.IsControl | index.js:408 | The code points 0 to 31 and 127, with no contract of its own; EscapeChar and MarkAsWritten use it. |
| Writer.ControlMark | index.js:408-411 | (Corrected form) a control character as `&#`, its code in hex, and `;`; it has no contract of its own. ReadsControlMark states that the reader decodes it back to that character. |
| Writer.MarkAsWritten | index.js:402-412 | As written, one character's mark: the table's entity, `&`, hex code and `;` for a control character, and nothing otherwise. It has no contract of its own; NewlineMarkAsWritten states what it writes for a newline. |
| Writer.MarksAsWritten | index.js:400-413 | As written, the marks of a run's characters in order, with no contract of its own. |
| Writer.EscapeTextAsWritten | index.js:400-414 | As written, the marks of the run followed by the run itself, with no contract of its own. AsWrittenVerbatim and AsWrittenRepeatsText state when it agrees with the corrected EscapeText and when it does not. |
| Writer.AsWrittenVerbatim | index.js:400-415 | As written, a run without table or control characters still comes out verbatim. |
| Writer.AsWrittenRepeatsText | index.js:400-415 | As written, a character the table escapes comes out as its entity followed by the raw character, which differs from the escaped form. |
| Writer.NewlineMarkAsWritten | index.js:408-411 | As written, a newline is marked `&a;`, which the automaton reads as the named entity `a`. |
| WriteProperties.FlushedWith | index.js:282-285 | The builder once the pending text and then t are flushed into the active element. |
| WriteProperties.ReadsControlMark | index.js:303-311 | (Corrected form) the numeric reference written for a control character reads back as that character. |
| WriteProperties.ReadsTableEntity | index.js:294-302 | The entity written for a table character reads back as the character, when the tables agree. |
| WriteProperties.ReadsEscapedChar | index.js:280-330 | One written character reads back as that character, appended to the active element's text. |
| WriteProperties.ReadsEscaped | index.js:400-415 | A written run reads back as that run appended to the active element, however it was escaped. |
| WriteProperties.ParsesWrittenText | index.js:395-435 | Reading the writer's output for a one-run document gives back the run with the spacing around it. So `default` and `compress` give the document back, and `beautify` adds a newline on each side. |
| RoundTrip.Spaced | index.js:395-428 | The items the writer emits for a content: its spacing first, then each item between its indentation and its spacing, three items for each one written. |
| RoundTrip.ReadsLayout | index.js:271-331 | Spacing or indentation free of `<` and `&` is read as pending text, and flushing it appends it to the active element. |
| RoundTrip.ReadsElement | index.js:395-428 | `<name>`, the element's content written one level deeper, and the closing tag read back: the reader appends a child with that name to the active element, builds the content into it, and makes the parent active again, whatever the closing policy and whether or not the tag is named. |
| RoundTrip.ClosesElement | index.js:421-425 | The closing tag the writer emits for the active element, named or the autoclose `</>`, makes its parent active again under every closing policy. |
| RoundTrip.ReadsItem | index.js:399-426 | One written item read back builds that item, with its spacing, below the active element. |
| RoundTrip.ReadsItems | index.js:396-427 | The written items read back build, below the active element, each item between its indentation and its spacing. |
| RoundTrip.ReadsWritten | index.js:395-428 | A written content read back builds its spacing and its items below the active element, which is again active at the end. |
| RoundTrip.ParsesRendered | index.js:431-435 | Every reader configuration reads the writer's output for a document back as that document with the writer's spacing and indentation added as text, merged with neighbouring text as appendText merges it. This holds for element names that are tag names, text whose `<` and `&` the escape table covers with entities the entity table reads back, and spacing and indentation free of `<` and `&`. |
| RoundTrip.TightSpaced | index.js:386-397 | With no spacing and no indentation, the added runs are empty, and the document built is the document itself. |
| RoundTrip.ParsesRenderedTight | index.js:352-366 | With `</>` and the text branch in their intended forms, the `default` and `compress` presets, and any writer settings with no spacing or indentation, write a document with non-empty, non-adjacent runs so that every reader configuration reads it back exactly. |
| Values.KeyIndex | index.js:501 | The entry whose key is the same value as k, which only a primitive key can have. |
| Values.IsInvalidEntry | index.js:451-453 | isInvalidEntry as a predicate, with no contract of its own. DecodeEntries states that a decoded map had only valid entries, and EntriesDecode that it decodes exactly when every entry is valid and its key decodes. |
| Values.Decode | index.js:455-514 | A string decodes to itself. Every failure is an InputError. |
| Values.DecodeElement | index.js:459-512 | Decoding by name fails only with an InputError (each branch is stated by DecodesByName and DecodesOtherNames). |
| Values.DecodesByName | index.js:468-494 | `text`, `list` and `set` select their own branch: the text rule, the list loop and the Set loop. |
| Values.DecodesOtherNames | index.js:459-512 | `nil` is undefined, `true` and `false` their booleans. A `number` with one item is that number, and with any other count raises "invalid number". `map` and `dictionairy` run the entry loop. A name readObj does not test for is undefined. |
| Values.DecodeText | index.js:468-476 | (Corrected form) no item is the empty string, one item is that item as it stands, and two or more raise "invalid text". |
| Values.DecodeItems | index.js:490-494 | A list has one value per item, the k-th value being what the k-th item decodes to, and the only failure is an InputError. |
| Values.DecodeMembers | index.js:485-489 | A Set's members are distinct and no more than the items. |
| Values.DecodeEntries | index.js:495-511 | The keys are unique. There are no more entries than items, and a decoded map had only valid entries (what each key holds is stated by EntriesSnoc and EntriesLookup). |
| Values.DecodeEntry | index.js:501-509 | A valid entry decodes exactly when its key does. Its key is the key item decoded and its value the value element's one item, undecoded. Every failure is an InputError. |
| Values.EntriesSnoc | index.js:497-501 | One more valid entry whose key decodes: a primitive key now holds the entry's raw value, every other primitive key keeps its value, and an object key adds an entry at the end. |
| Values.EntriesLookup | index.js:495-511 | In a decoded map or dictionary, a primitive key holds the raw value of the last entry with that key: a later entry wins. |
| Values.MapPutOther | index.js:501 | Map.set leaves every other primitive key with the value it had. |
| Values.SetAddDistinct | index.js:488 | Set.add keeps the members distinct. |
| Values.MapPutUnique | index.js:501 | Map.set keeps the keys unique. |
| Values.DecodeDocument | index.js:531-542 | An empty document is "Empty document". One item is decoded. Several items become a list of them, in order and undecoded. |
| Values.RawItems | index.js:536-538 | The copy loop keeps every item, in order. |
| Values.Encode | index.js:588-632 | objectWriter().write as a function, with no contract of its own. WriteObj is proved to compute it, EncodeSucceeds says when it produces an element, and RoundTrip and MapsWrittenEmpty say what reads back. |
| Values.EncodeAll | index.js:605-614 | One child per member, the k-th child being the element written for the k-th member. |
| Values.EncodeSucceeds | index.js:588-632 | The encoder produces an element exactly for strings, Maps, the empty dictionary, and arrays and Sets of such values. |
| Values.MapsWrittenEmpty | index.js:577-624 | A Map is written as an empty `map` element, since `for ... in` visits none of its entries, and reads back as the empty Map. The empty dictionary reads back as itself. |
| Values.EncodeAllSucceeds | index.js:605-614 | The member loop succeeds exactly when every member is writable. |
| Values.RoundTrip | index.js:455-632 | Decoding what the encoder writes gives the value back, for strings and for nested arrays and Sets of distinct members (with the corrected text branch). |
| Values.RoundTripAll | index.js:485-614 | The children written for a sequence decode back to it as a list, and as a Set when the members are distinct. |
| Values.DecodeTextAsWritten | index.js:468-476 | As written, one item reads as the empty string and any other count raises; the repeated one-item test is never reached. It has no contract of its own; TextAsWrittenFails states what that does to a round trip. |
| Values.TextAsWrittenFails | index.js:468-476 | As written, no string survives writeObject followed by readObject. The empty string raises, and any other comes back as the empty string. |
| Values.ItemsDecode | index.js:490-494 | A list decodes exactly when every item decodes. |
| Values.MembersAreItems | index.js:485-494 | A Set decodes exactly when the list does, and holds exactly the list's values. |
| Values.MapPutLookup | index.js:501 | After Map.set the key has the new value and every other key keeps its value. The map grows only for a new key. |
| Values.KeyIndexUnique | index.js:501 | With unique keys, the entry found is the only one with the key. |
| Values.EntriesDecode | index.js:495-511 | A map decodes exactly when every entry is valid and every key decodes. |
| Values.ItemsFailFirst | index.js:490-494 | An exception in the list loop is the exception of the whole decoding. |
| Values.MembersFailFirst | index.js:485-489 | An exception in the Set loop is the exception of the whole decoding. |
| Values.EntriesFailFirst | index.js:495-511 | An exception in the entry loop is the exception of the whole decoding. |
| Values.EncodeFailFirst | index.js:605-614 | An exception in the member loop is the exception of the whole encoding. |
| Values.ReadObj | index.js:455-514 | readObj returns exactly Decode of the item. |
| Values.ReadSet | index.js:485-489 | The Set loop returns exactly DecodeMembers. |
| Values.ReadList | index.js:490-494 | The list loop returns exactly DecodeItems. |
| Values.ReadEntries | index.js:495-511 | The map and dictionary loops return exactly DecodeEntries. |
| Values.ReadEntry | index.js:501-509 | The loop body on a valid entry returns exactly DecodeEntry: the key read with readObj and the value element's one item. |
| Values.ReadDocument | index.js:531-542 | objectReader().read returns exactly DecodeDocument. |
| Values.WriteObj | index.js:588-632 | The terminating branches of write return exactly Encode. |
| Values.WriteAll | index.js:605-614 | The member loop returns exactly EncodeAll. |

## Left out

- Streams, error positions and the row:column suffix of messages.
  - Input is a string and output is a string-valued stream object.
  - A SyntaxError carries only its message.
- The lustils Mealy-machine library. The model replaces it with an
  explicit transition function.
  - comment_incoming_2 has no fallback transition in the source, so what
    the library does on a character other than `-` is outside the model.
    The model treats it as a tag error.
- escape_sets.js is not part of this model. Both escape tables are
  parameters, and lemmas that need an entry say so in their requires.
  If its registries and tables are plain objects, the lookups
  `unescape_sets[escape_set]` (index.js:269), `escape_sets[escape_set]`
  (index.js:384) and `escapes[tag_name.text]` (index.js:295) also find
  Object.prototype members, so `&constructor;` would append the text of
  a function instead of raising. The model's tables hold only their own
  entries.
- Builders.PolicyNamed and Reader.UnknownClosing: a closing name
  inherited from Object.prototype (Builders.PROTOTYPE_NAMES, such as
  `constructor` or `toString`) is found by `element_builders[closing]`
  (index.js:268, dom.js:153-161) and does not fall back to strict. With
  `constructor` the builder is a bare Document and `doc.build()`
  (index.js:338) throws a TypeError; with the other methods `new` itself
  throws. The model gives these names the Strict policy, and
  UnknownClosing is stated only for names outside that set.
- Floating point. A number element decodes to its one item, standing for
  Number.parseFloat of it. The encoder's number branch returns undefined
  as written, and the model gives it Unsupported.
- Encoder paths that do not terminate or call what cannot be seen.
  - An object with keys goes through `_writeMap`, which writes each
    `value` element as an object, so the recursion does not end.
    Element objects are such objects. The model gives them Unsupported.
  - A Map and `{}` are modelled, as empty `map` and `dictionairy`
    elements.
  - The `write_function` branch calls user code and is left out.
  - The encoder's booleans and undefined model the throw of
    `new Element(name, false)` as a TypeError.
- Values.Decode: the `dictionairy` branch is modelled like `map`. The
  string coercion of keys, and JavaScript's ordering of integer-like
  property names, are not modelled.
- Set and Map identity: primitives compare by value, and a number by its
  source item rather than its float. Every decoded object is a fresh
  object, equal only to itself.
- Reader.ParseHex: stated only as parseInt on the buffers the automaton
  hands it, which hold hex digits only. Leading whitespace, a sign and a
  `0x` prefix, which parseInt accepts, never reach it.
- Surrogate code points: a numeric entity between D800 and DFFF gives
  Unrepresentable, because a Dafny char cannot hold a lone surrogate. The
  source would append it.
- The Element constructor's convenience argument forms, class extension,
  the registries keyed by preset name, `lustils.object.complete`,
  Object.freeze and the module exports. Configurations are plain records,
  with the presets as constants.
- Parent links are kept only in the reader's arena. Element values, which
  the writer and the codec use, do not hold them. Only fresh, parentless
  elements are ever appended, because that is how the core uses
  appendChild.
- `</>` and `<name/>` are modelled as the intended closeAuto and childless
  append. As written, both throw.
- Reader.Step and Reader.Run: their own contracts state only that the
  arena stays well formed. What they do is stated by the ReadProperties
  lemmas.
- Values.DecodeElement: its own contract states only the error kind.
  What each name decodes to is stated by the lemmas DecodesByName and
  DecodesOtherNames, and the loops by DecodeItems, DecodeMembers,
  DecodeEntries, EntriesLookup and ReadObj.
- Writer.Render: the round trip through the reader (ParsesRendered) is
  stated only for element names that are tag names, text whose `<` and
  `&` the escape table covers, and spacing and indentation without `<` or
  `&`. What the reader makes of other output is not stated.

## Findings

| source | as written | input that shows it | evidently intended | confidence | as-written member | corrected member |
|---|---|---|---|---|---|---|
| index.js:400-415 | the text branch writes the entities of the escaped characters first and then the whole run raw | a text run `<` with `<` in the table is written as its entity followed by `<` | each character written once: its entity, its numeric reference, or itself | high; not executed | Writer.AsWrittenRepeatsText | WriteProperties.ParsesWrittenText |
| index.js:408-411 | a control character is marked `&` + hex + `;` without `#` | a newline is written `&a;`, which the reader reads as the named entity `a` | `&#` + hex + `;`, which the reader's numeric entity reads back | high; not executed | Writer.NewlineMarkAsWritten | WriteProperties.ReadsControlMark |
| index.js:468-476 | both tests of the `text` branch are `length === 1` | a text element holding `abc` decodes to the empty string, and an empty one raises | no item is the empty string, and one item is that string | high; not executed | Values.TextAsWrittenFails | Values.RoundTrip |
