/**
 What a document URI says, letter by letter: the two spellings of a tree, a single document, and a query
 or fragment after any of them.
 */
module ContentUriTexts {
  import opened Wrappers
  import opened ContentUri

  function TreeText(authority: Text, tree: Text): Text {
    Literal("content://") + authority + (Literal("/tree/") + Encode(tree))
  }

  function DocumentText(authority: Text, tree: Text, id: Text): Text {
    Literal("content://") + authority + (Literal("/tree/") + Encode(tree) + Literal("/document/") + Encode(id))
  }

  function ChildrenText(authority: Text, tree: Text, id: Text): Text {
    DocumentText(authority, tree, id) + Literal("/children")
  }

  function Literal(s: string): (t: Text)
    requires forall i :: 0 <= i < |s| ==> s[i] < '\U{80}'
    ensures t == s
  {
    s
  }

  lemma TwoSegments(first: Text, second: Text)
    requires first != [] && second != []
    ensures Path([first] + [second]) == ['/'] + Encode(first) + ['/'] + Encode(second)
    ensures NonEmpty([first] + [second]) == [first] + [second]
  {
    PathCons(first, [second]);
    assert NonEmpty([second][1..]) == [] && NonEmpty([second]) == [second];
    assert Path([second]) == ['/'] + Encode(second) + Path([]) == ['/'] + Encode(second);
    Assoc(['/'] + Encode(first), ['/'], Encode(second));
  }

  lemma ParseTwo(authority: Text, first: Text, second: Text)
    requires authority != [] && Plain(authority)
    requires first != [] && ValidUtf8(first) && second != [] && ValidUtf8(second)
    ensures var value := PREFIX + authority + (['/'] + Encode(first) + ['/'] + Encode(second));
            Parse(true, value) ==
              if |value| > 4_096 then Err(NotContentUri) else Ok(Uri(value, authority, [first] + [second]))
  {
    TwoSegments(first, second);
    ParsePath(authority, [first] + [second]);
  }

  lemma ParseTreeText(authority: Text, tree: Text)
    requires authority != [] && Plain(authority) && tree != [] && ValidUtf8(tree)
    ensures var value := TreeText(authority, tree);
            Parse(true, value) ==
              if |value| > 4_096 then Err(NotContentUri) else Ok(Uri(value, authority, [TREE] + [tree]))
  {
    Names();
    Slashed();
    ParseTwo(authority, TREE, tree);
  }

  /** A tree URI names its own tree, and the tree document built from it spells that id twice. */
  lemma TreeTextNamesItsTree(authority: Text, tree: Text)
    requires authority != [] && Plain(authority) && tree != [] && ValidUtf8(tree)
    ensures var value := TreeText(authority, tree);
            if |value| > 4_096 then Parse(true, value) == Err(NotContentUri)
            else
              && Parse(true, value).Ok?
              && var uri := Parse(true, value).value;
              && uri.value == value && uri.authority == authority && uri.IsTree() && !uri.IsDocument()
              && uri.TreeDocumentId() == Ok(tree)
              && uri.TreeDocumentUri() == Ok(DocumentText(authority, tree, tree))
              && forall id :: uri.ChildrenUri(id) == Ok(ChildrenText(authority, tree, id))
  {
    ParseTreeText(authority, tree);
    forall id
      ensures PREFIX + authority + (DocumentPath(tree, id) + SLASH_CHILDREN) == ChildrenText(authority, tree, id)
    {
      Assoc(PREFIX + authority, DocumentPath(tree, id), SLASH_CHILDREN);
    }
  }

  /** A document in a tree is named by the second id, and the tree document built from it is the text itself. */
  lemma DocumentTextNamesItsDocument(authority: Text, tree: Text, id: Text)
    requires authority != [] && Plain(authority)
    requires tree != [] && ValidUtf8(tree) && id != [] && ValidUtf8(id)
    ensures var value := DocumentText(authority, tree, id);
            if |value| > 4_096 then Parse(true, value) == Err(NotContentUri)
            else
              && Parse(true, value).Ok?
              && var uri := Parse(true, value).value;
              && uri.value == value && uri.authority == authority && uri.IsTree() && !uri.IsDocument()
              && uri.TreeDocumentId() == Ok(id)
              && uri.TreeDocumentUri() == Ok(value)
  {
    DocumentRoundTrip(authority, tree, id);
  }

  /** A single document is no tree, and is queried as it was given. */
  lemma SingleDocumentText(authority: Text, id: Text)
    requires authority != [] && Plain(authority) && id != [] && ValidUtf8(id)
    ensures var value := Literal("content://") + authority + (Literal("/document/") + Encode(id));
            if |value| > 4_096 then Parse(true, value) == Err(NotContentUri)
            else
              && Parse(true, value).Ok?
              && var uri := Parse(true, value).value;
              && uri.value == value && uri.IsDocument() && !uri.IsTree() && uri.TreeDocumentId() == Err(NotATree)
  {
    Names();
    Slashed();
    ParseTwo(authority, DOCUMENT, id);
  }

  /** What follows a question mark or a number sign changes neither the authority nor the segments. */
  lemma QueryIsIgnored(authority: Text, path: Text, query: Text)
    requires authority != [] && Plain(authority)
    requires path != [] && path[0] == '/' && '?' !in path && '#' !in path && '\0' !in path
    requires query != [] && query[0] in "?#" && '\0' !in query
    ensures var value := PREFIX + authority + path + query;
            Parse(true, value) ==
              if |value| > 4_096 then Err(NotContentUri)
              else
                match DecodeAll(Pieces(path))
                case Err(e) => Err(e)
                case Ok(segments) => Ok(Uri(value, authority, segments))
  {
    var value := PREFIX + authority + path + query;
    var rest := authority + path;
    assert value[|PREFIX|..] == rest + query;
    assert value[..|PREFIX|] == PREFIX;
    assert '\0' !in PREFIX;
    UntilKeeps(rest, query, "?#");
    UntilKeeps(authority, path, "/");
    assert rest[|authority|..] == path;
  }
}
