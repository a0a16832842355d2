/** The reading examples of the repository's tests (test.js:8-11), read with
    the default configuration. */
module ReadExamples {
  import opened Base
  import opened Tree
  import opened Reader
  import opened ReadProperties
  import Tokenizer

  /** The examples' text pieces hold no markup. */
  lemma PlainPieces()
    ensures Plain("content") && Plain("con") && Plain("tent") && Plain("1") && Plain("2")
  {
  }

  /** The examples' tag and entity names are names. */
  lemma NamePieces()
    ensures Tokenizer.IsName("tag") && Tokenizer.IsName("lt")
  {
  }

  /** The example's comment body does not end the comment. */
  lemma CommentPiece()
    ensures Tokenizer.ScanFrom(Tokenizer.Comment, "", "comment") == Tokenizer.Running(Tokenizer.Comment, "")
  {
    Tokenizer.CommentBodyRuns("", "comment");
  }

  /** The comment example's input and output, put together from its pieces. */
  lemma SpelledComment()
    ensures "con" + ("<!--" + "comment" + "-->" + "tent") == "con<!--comment-->tent"
    ensures "con" + "tent" == "content"
  {
  }

  /** The nesting example's input, put together from its pieces. */
  lemma SpelledNested()
    ensures "<" + "tag" + ">" + ("<" + "tag" + ">" + ("content" + ("</" + "tag" + ">" + ("</" + "tag" + ">")))) ==
            "<tag><tag>content</tag></tag>"
  {
  }

  /** The entity example's input and output, put together from its pieces. */
  lemma SpelledEntity()
    ensures "1" + ("&" + "lt" + ";" + "2") == "1&lt;2"
    ensures "1" + "<" + "2" == "1<2"
  {
  }

  /** `content` reads as the document holding that text. */
  lemma ReadsContentExample(sets: DecodeSets)
    ensures Parse(DEFAULT_CONF, sets, "content") == Ok([Text("content")])
  {
    PlainPieces();
    ParsesPlain(DEFAULT_CONF, sets, "content");
  }

  /** A comment between two pieces of text vanishes and the pieces join. */
  lemma ReadsCommentExample(sets: DecodeSets)
    ensures Parse(DEFAULT_CONF, sets, "con<!--comment-->tent") == Ok([Text("content")])
  {
    PlainPieces();
    CommentPiece();
    ParsesCommentBetween(DEFAULT_CONF, sets, "con", "comment", "tent");
    SpelledComment();
  }

  /** Nested elements of the same name. */
  lemma ReadsNestedExample(sets: DecodeSets)
    ensures Parse(DEFAULT_CONF, sets, "<tag><tag>content</tag></tag>") ==
            Ok([Child(Element("tag", [Child(Element("tag", [Text("content")]))]))])
  {
    NamePieces();
    PlainPieces();
    ParsesNested(DEFAULT_CONF, sets, "tag", "tag", "content");
    SpelledNested();
  }

  /** An entity between two pieces of text, with a table that maps `lt` to `<`. */
  lemma ReadsEntityExample(sets: DecodeSets)
    requires "lt" in TableNamed(sets, DEFAULT_CONF.escapeSet)
    requires TableNamed(sets, DEFAULT_CONF.escapeSet)["lt"] == "<"
    ensures Parse(DEFAULT_CONF, sets, "1&lt;2") == Ok([Text("1<2")])
  {
    PlainPieces();
    NamePieces();
    ParsesEntityBetween(DEFAULT_CONF, sets, "1", "lt", "2");
    SpelledEntity();
  }
}
