/**
 `content://` URIs in the shape Android's DocumentsContract gives them, and the percent encoding of
 their path segments (section 2.1 of RFC 3986). Text is its UTF-8 bytes, one `char` below 256 each.
 */
module ContentUri {
  import opened Wrappers

  const MAX_URI_BYTES: nat := 4_096

  type Byte = c: char | c as int < 256 witness 'a'
  type Text = seq<Byte>

  datatype UriError = NotContentUri | NoAuthority | BadEscape | NotUtf8 | NotATree

  // ---- UTF-8 (table 3-7 of the Unicode standard) ----

  predicate Continuation(b: Byte) {
    '\U{80}' <= b <= '\U{BF}'
  }

  predicate ValidUtf8(s: Text) {
    if s == [] then true
    else if s[0] < '\U{80}' then ValidUtf8(s[1..])
    else if '\U{C2}' <= s[0] <= '\U{DF}' then |s| >= 2 && Continuation(s[1]) && ValidUtf8(s[2..])
    else if '\U{E0}' <= s[0] <= '\U{EF}' then
      |s| >= 3 && Continuation(s[1]) && Continuation(s[2])
      && (s[0] == '\U{E0}' ==> s[1] >= '\U{A0}') && (s[0] == '\U{ED}' ==> s[1] <= '\U{9F}')
      && ValidUtf8(s[3..])
    else if '\U{F0}' <= s[0] <= '\U{F4}' then
      |s| >= 4 && Continuation(s[1]) && Continuation(s[2]) && Continuation(s[3])
      && (s[0] == '\U{F0}' ==> s[1] >= '\U{90}') && (s[0] == '\U{F4}' ==> s[1] <= '\U{8F}')
      && ValidUtf8(s[4..])
    else false
  }

  // ---- percent encoding ----

  predicate Unreserved(b: Byte) {
    'a' <= b <= 'z' || 'A' <= b <= 'Z' || '0' <= b <= '9' ||
    b == '_' || b == '-' || b == '!' || b == '.' || b == '~' || b == '\'' || b == '(' || b == ')' || b == '*'
  }

  function HexDigit(n: nat): (c: Byte)
    requires n < 16
    ensures Digit(c) == Some(n)
  {
    if n < 10 then '0' + n as char else 'A' + (n - 10) as char
  }

  function Digit(c: Byte): (r: Option<nat>)
    ensures r.Some? ==> r.value < 16
  {
    if '0' <= c <= '9' then Some((c - '0') as nat)
    else if 'A' <= c <= 'F' then Some((c - 'A') as nat + 10)
    else if 'a' <= c <= 'f' then Some((c - 'a') as nat + 10)
    else None
  }

  function EncodeByte(b: Byte): Text {
    if Unreserved(b) then [b] else ['%', HexDigit(b as nat / 16), HexDigit(b as nat % 16)]
  }

  function Encode(value: Text): Text {
    if value == [] then [] else EncodeByte(value[0]) + Encode(value[1..])
  }

  method PercentEncode(value: Text) returns (encoded: Text)
    ensures encoded == Encode(value)
  {
    encoded := [];
    assert value[0..] == value;
    for i := 0 to |value|
      invariant encoded + Encode(value[i..]) == Encode(value)
    {
      EncodeOneByte(encoded, value, i);
      if Unreserved(value[i]) {
        encoded := encoded + [value[i]];
      } else {
        encoded := encoded + ['%', HexDigit(value[i] as nat / 16), HexDigit(value[i] as nat % 16)];
      }
    }
  }

  lemma EncodeOneByte(done: Text, value: Text, i: nat)
    requires i < |value|
    ensures done + Encode(value[i..]) == done + EncodeByte(value[i]) + Encode(value[i + 1..])
  {
    assert value[i..][0] == value[i] && value[i..][1..] == value[i + 1..];
    Assoc(done, EncodeByte(value[i]), Encode(value[i + 1..]));
  }

  /** `u8::from_str_radix(pair, 16)`, which also accepts one digit after a plus sign. */
  function Pair(a: Byte, b: Byte): Option<Byte> {
    if Digit(b).None? then None
    else if a == '+' then Some(Digit(b).value as char)
    else if Digit(a).None? then None
    else Some((Digit(a).value * 16 + Digit(b).value) as char)
  }

  function DecodeBytes(s: Text): Option<Text> {
    if s == [] then Some([])
    else if s[0] != '%' then
      match DecodeBytes(s[1..]) case None => None case Some(rest) => Some([s[0]] + rest)
    else if |s| < 3 || Pair(s[1], s[2]).None? then None
    else
      match DecodeBytes(s[3..]) case None => None case Some(rest) => Some([Pair(s[1], s[2]).value] + rest)
  }

  function Decode(s: Text): Result<Text, UriError> {
    match DecodeBytes(s)
    case None => Err(BadEscape)
    case Some(bytes) => if ValidUtf8(bytes) then Ok(bytes) else Err(NotUtf8)
  }

  method PercentDecode(value: Text) returns (result: Result<Text, UriError>)
    ensures result == Decode(value)
  {
    var decoded: Text := [];
    var index := 0;
    assert value[0..] == value;
    assert DecodeBytes(value).Some? ==> decoded + DecodeBytes(value).value == DecodeBytes(value).value;
    while index < |value|
      invariant 0 <= index <= |value|
      invariant DecodeBytes(value) ==
                match DecodeBytes(value[index..]) case None => None case Some(rest) => Some(decoded + rest)
    {
      ghost var tail := value[index..];
      ghost var before := decoded;
      if value[index] == '%' {
        if index + 3 > |value| {
          return Err(BadEscape);
        }
        var pair := Pair(value[index + 1], value[index + 2]);
        if pair.None? {
          return Err(BadEscape);
        }
        decoded := decoded + [pair.value];
        index := index + 3;
        assert tail[3..] == value[index..];
      } else {
        decoded := decoded + [value[index]];
        index := index + 1;
        assert tail[1..] == value[index..];
      }
      assert forall rest: Text :: before + ([decoded[|before|]] + rest) == decoded + rest;
    }
    assert decoded + [] == decoded;
    return if ValidUtf8(decoded) then Ok(decoded) else Err(NotUtf8);
  }

  lemma DecodeOneByte(b: Byte, rest: Text)
    ensures DecodeBytes(EncodeByte(b) + rest) == match DecodeBytes(rest) case None => None case Some(r) => Some([b] + r)
  {
    var s := EncodeByte(b) + rest;
    if Unreserved(b) {
      assert s[1..] == rest;
    } else {
      assert s[0] == '%' && s[3..] == rest;
      assert b as nat / 16 * 16 + b as nat % 16 == b as nat;
      assert HexDigit(b as nat / 16) != '+';
    }
  }

  /** Decoding undoes encoding for every byte string, and so for every UTF-8 string. */
  lemma {:induction false} DecodeUndoesEncode(value: Text)
    ensures DecodeBytes(Encode(value)) == Some(value)
    ensures Decode(Encode(value)) == if ValidUtf8(value) then Ok(value) else Err(NotUtf8)
    decreases |value|
  {
    if value != [] {
      DecodeUndoesEncode(value[1..]);
      DecodeOneByte(value[0], Encode(value[1..]));
      assert [value[0]] + value[1..] == value;
    }
  }

  /** What `android.net.Uri.encode` may produce: plain unreserved bytes and upper-case escapes of all others. */
  predicate Canonical(s: Text) {
    if s == [] then true
    else if s[0] != '%' then Unreserved(s[0]) && Canonical(s[1..])
    else
      |s| >= 3 && UpperHex(s[1]) && UpperHex(s[2]) && !Unreserved(Pair(s[1], s[2]).value) && Canonical(s[3..])
  }

  predicate UpperHex(c: Byte) {
    '0' <= c <= '9' || 'A' <= c <= 'F'
  }

  lemma {:induction false} EncodeIsCanonical(value: Text)
    ensures Canonical(Encode(value))
    decreases |value|
  {
    if value != [] {
      EncodeIsCanonical(value[1..]);
      var s := Encode(value);
      var b := value[0];
      if Unreserved(b) {
        assert s[1..] == Encode(value[1..]);
      } else {
        assert s[3..] == Encode(value[1..]);
        assert s[1] == HexDigit(b as nat / 16) && s[2] == HexDigit(b as nat % 16);
        assert b as nat / 16 * 16 + b as nat % 16 == b as nat;
        assert Pair(s[1], s[2]).value == b;
      }
    }
  }

  lemma EncodedEscape(a: Byte, b: Byte)
    requires UpperHex(a) && UpperHex(b) && !Unreserved(Pair(a, b).value)
    ensures EncodeByte(Pair(a, b).value) == ['%', a, b]
  {
    var byte := Pair(a, b).value;
    assert byte as nat / 16 == Digit(a).value && byte as nat % 16 == Digit(b).value;
  }

  lemma EncodeCons(b: Byte, rest: Text)
    ensures Encode([b] + rest) == EncodeByte(b) + Encode(rest)
  {
    assert ([b] + rest)[1..] == rest;
  }

  lemma {:induction false} CanonicalReencodes(s: Text)
    requires Canonical(s)
    ensures DecodeBytes(s).Some? && Encode(DecodeBytes(s).value) == s
    decreases |s|
  {
    if s != [] {
      if s[0] != '%' {
        CanonicalReencodes(s[1..]);
        EncodeCons(s[0], DecodeBytes(s[1..]).value);
        assert s == [s[0]] + s[1..];
      } else {
        CanonicalReencodes(s[3..]);
        EncodedEscape(s[1], s[2]);
        EncodeCons(Pair(s[1], s[2]).value, DecodeBytes(s[3..]).value);
        assert s == ['%', s[1], s[2]] + s[3..];
      }
    }
  }

  /** Re-encoding what was decoded is the identity on the canonical texts and nowhere else. */
  lemma EncodeUndoesDecode(s: Text)
    ensures (DecodeBytes(s).Some? && Encode(DecodeBytes(s).value) == s) <==> Canonical(s)
  {
    if Canonical(s) {
      CanonicalReencodes(s);
    } else if DecodeBytes(s).Some? {
      EncodeIsCanonical(DecodeBytes(s).value);
    }
  }

  /** Every percent sign is followed by a digit or a plus sign, and then by a digit. */
  predicate EscapesRead(s: Text) {
    forall i :: 0 <= i < |s| && s[i] == '%' ==>
      i + 2 < |s| && (Digit(s[i + 1]).Some? || s[i + 1] == '+') && Digit(s[i + 2]).Some?
  }

  /** Every percent sign is followed by two digits, as section 2.1 of RFC 3986 has it. */
  predicate EscapesAreHex(s: Text) {
    forall i :: 0 <= i < |s| && s[i] == '%' ==> i + 2 < |s| && Digit(s[i + 1]).Some? && Digit(s[i + 2]).Some?
  }

  predicate SignedEscape(s: Text, i: nat) {
    i + 1 < |s| && s[i] == '%' && s[i + 1] == '+'
  }

  lemma EscapesReadDrop(s: Text, n: nat)
    requires n <= |s| && forall i :: 1 <= i < n ==> s[i] != '%'
    requires n > 0 && (s[0] != '%' || (n == 3 && (Digit(s[1]).Some? || s[1] == '+') && Digit(s[2]).Some?))
    ensures EscapesRead(s) <==> EscapesRead(s[n..])
  {
    var tail := s[n..];
    assert forall i :: n <= i < |s| ==> s[i] == tail[i - n];
    if EscapesRead(s) {
      forall i | 0 <= i < |tail| && tail[i] == '%'
        ensures i + 2 < |tail| && (Digit(tail[i + 1]).Some? || tail[i + 1] == '+') && Digit(tail[i + 2]).Some?
      {
        assert s[i + n] == '%';
      }
    }
  }

  /** What the decoder reads: a sign is taken for the first digit of an escape, and nothing else is. */
  lemma {:induction false} DecoderReadsExactly(s: Text)
    ensures DecodeBytes(s).Some? <==> EscapesRead(s)
    decreases |s|
  {
    if s != [] {
      if s[0] != '%' {
        EscapesReadDrop(s, 1);
        DecoderReadsExactly(s[1..]);
      } else if |s| >= 3 && Pair(s[1], s[2]).Some? {
        EscapesReadDrop(s, 3);
        DecoderReadsExactly(s[3..]);
      }
    }
  }

  /** So a text the decoder reads has hexadecimal escapes only, exactly if no escape in it has a sign. */
  lemma SignedEscapesAreTheOnlyOthers(s: Text)
    ensures EscapesAreHex(s) <==> DecodeBytes(s).Some? && forall i: nat :: !SignedEscape(s, i)
  {
    DecoderReadsExactly(s);
    if EscapesAreHex(s) {
      forall i: nat
        ensures !SignedEscape(s, i)
      {
      }
    } else if DecodeBytes(s).Some? {
      var i :| 0 <= i < |s| && s[i] == '%' && !(i + 2 < |s| && Digit(s[i + 1]).Some? && Digit(s[i + 2]).Some?);
      assert SignedEscape(s, i);
    }
  }

  /** Such texts exist: `%+F` is the byte 15. */
  lemma SignedEscapeIsAccepted(s: Text)
    requires s == ['%', '+', 'F']
    ensures Decode(s) == Ok(['\U{0F}']) && !EscapesAreHex(s)
  {
    assert s[3..] == [] && DecodeBytes([]) == Some([]);
    assert Pair(s[1], s[2]) == Some('\U{0F}');
    var bytes: Text := ['\U{0F}'];
    assert bytes + [] == bytes;
    assert DecodeBytes(s) == Some(bytes);
    assert bytes[1..] == [] && ValidUtf8([]);
    assert s[0] == '%';
  }

  // ---- URIs ----

  datatype Uri = Uri(value: Text, authority: Text, segments: seq<Text>) {
    predicate IsTree() {
      |segments| >= 2 && segments[0] == "tree"
    }

    predicate IsDocument() {
      |segments| == 2 && segments[0] == "document"
    }

    function TreeDocumentId(): Result<Text, UriError> {
      if |segments| >= 4 && segments[0] == "tree" && segments[2] == "document" then Ok(segments[3])
      else if |segments| >= 2 && segments[0] == "tree" then Ok(segments[1])
      else Err(NotATree)
    }

    function TreeDocumentUri(): Result<Text, UriError>
      requires |segments| >= 2
    {
      match TreeDocumentId()
      case Err(e) => Err(e)
      case Ok(id) => Ok(PREFIX + authority + DocumentPath(segments[1], id))
    }

    function ChildrenUri(id: Text): Result<Text, UriError> {
      if !IsTree() then Err(NotATree)
      else Ok(PREFIX + authority + (DocumentPath(segments[1], id) + SLASH_CHILDREN))
    }
  }

  const PREFIX: Text := "content://"
  const SLASH_TREE: Text := "/tree/"
  const SLASH_DOCUMENT: Text := "/document/"
  const SLASH_CHILDREN: Text := "/children"

  function DocumentPath(tree: Text, id: Text): Text {
    SLASH_TREE + Encode(tree) + SLASH_DOCUMENT + Encode(id)
  }

  /** The text before the first byte of `stops`. */
  function Until(s: Text, stops: Text): Text {
    if s == [] || s[0] in stops then [] else [s[0]] + Until(s[1..], stops)
  }

  /** `split('/')` without the empty pieces. */
  function Pieces(path: Text): seq<Text>
    decreases |path|
  {
    if path == [] then []
    else if path[0] == '/' then Pieces(path[1..])
    else
      var piece := Until(path, "/");
      UntilIsPrefix(path, "/");
      [piece] + Pieces(path[|piece|..])
  }

  lemma {:induction false} UntilIsPrefix(s: Text, stops: Text)
    ensures Until(s, stops) <= s
    ensures forall i :: 0 <= i < |Until(s, stops)| ==> Until(s, stops)[i] !in stops
    ensures |Until(s, stops)| < |s| ==> s[|Until(s, stops)|] in stops
    ensures s != [] && s[0] !in stops ==> |Until(s, stops)| > 0
    decreases |s|
  {
    if s != [] && s[0] !in stops {
      UntilIsPrefix(s[1..], stops);
    }
  }

  function DecodeAll(pieces: seq<Text>): Result<seq<Text>, UriError> {
    if pieces == [] then Ok([])
    else
      match Decode(pieces[0])
      case Err(e) => Err(e)
      case Ok(first) =>
        match DecodeAll(pieces[1..]) case Err(e) => Err(e) case Ok(rest) => Ok([first] + rest)
  }

  function Parse(isContentUri: bool, value: Text): Result<Uri, UriError> {
    if !(PREFIX <= value) || !isContentUri || |value| > MAX_URI_BYTES || '\0' in value then Err(NotContentUri)
    else
      var rest := Until(value[|PREFIX|..], "?#");
      var authority := Until(rest, "/");
      UntilIsPrefix(rest, "/");
      if authority == [] then Err(NoAuthority)
      else
        match DecodeAll(Pieces(rest[|authority|..]))
        case Err(e) => Err(e)
        case Ok(segments) => Ok(Uri(value, authority, segments))
  }

  // ---- what parsing guarantees ----

  predicate Plain(s: Text) {
    '/' !in s && '?' !in s && '#' !in s && '\0' !in s
  }

  lemma {:induction false} UntilKeeps(s: Text, more: Text, stops: Text)
    requires forall i :: 0 <= i < |s| ==> s[i] !in stops
    requires more == [] || more[0] in stops
    ensures Until(s + more, stops) == s
    decreases |s|
  {
    if s == [] {
      assert s + more == more;
    } else {
      assert (s + more)[1..] == s[1..] + more;
      UntilKeeps(s[1..], more, stops);
    }
  }

  lemma OnePiece(piece: Text, more: Text)
    requires piece != [] && '/' !in piece && (more == [] || more[0] == '/')
    ensures Pieces(piece + more) == [piece] + Pieces(more)
  {
    UntilKeeps(piece, more, "/");
    assert (piece + more)[|piece|..] == more;
  }

  lemma SlashPiece(piece: Text, more: Text)
    requires '/' !in piece && (more == [] || more[0] == '/')
    ensures Pieces("/" + piece + more) == (if piece == [] then [] else [piece]) + Pieces(more)
  {
    assert ("/" + piece + more)[1..] == piece + more;
    if piece == [] {
      assert piece + more == more;
    } else {
      OnePiece(piece, more);
    }
  }

  lemma {:induction false} EncodedIsPlain(value: Text)
    ensures Plain(Encode(value)) && (value != [] ==> Encode(value) != [])
    decreases |value|
  {
    if value != [] {
      EncodedIsPlain(value[1..]);
      assert Plain(EncodeByte(value[0]));
    }
  }

  lemma {:induction false} DecodeKeepsEmptiness(s: Text)
    requires DecodeBytes(s).Some?
    ensures (s == []) == (DecodeBytes(s).value == [])
  {
  }

  lemma {:induction false} PiecesAreNotEmpty(path: Text)
    ensures forall i :: 0 <= i < |Pieces(path)| ==> Pieces(path)[i] != []
    decreases |path|
  {
    if path != [] {
      if path[0] == '/' {
        PiecesAreNotEmpty(path[1..]);
      } else {
        UntilIsPrefix(path, "/");
        PiecesAreNotEmpty(path[|Until(path, "/")|..]);
      }
    }
  }

  lemma {:induction false} DecodedSegments(pieces: seq<Text>)
    requires DecodeAll(pieces).Ok? && forall i :: 0 <= i < |pieces| ==> pieces[i] != []
    ensures var segments := DecodeAll(pieces).value;
            |segments| == |pieces| && forall i :: 0 <= i < |segments| ==> segments[i] != [] && ValidUtf8(segments[i])
    decreases |pieces|
  {
    if pieces != [] {
      DecodedSegments(pieces[1..]);
      DecodeKeepsEmptiness(pieces[0]);
    }
  }

  /** Every parsed URI has a non-empty plain authority and non-empty UTF-8 segments. */
  lemma ParsedIsWellFormed(value: Text)
    requires Parse(true, value).Ok?
    ensures var uri := Parse(true, value).value;
            && uri.value == value && uri.authority != [] && Plain(uri.authority)
            && forall i :: 0 <= i < |uri.segments| ==> uri.segments[i] != [] && ValidUtf8(uri.segments[i])
  {
    var uri := Parse(true, value).value;
    var tail := value[|PREFIX|..];
    var rest := Until(tail, "?#");
    UntilIsPrefix(tail, "?#");
    UntilIsPrefix(rest, "/");
    forall i | 0 <= i < |uri.authority|
      ensures uri.authority[i] !in "/?#" && uri.authority[i] != '\0'
    {
      assert uri.authority[i] == rest[i] == tail[i] == value[|PREFIX| + i];
    }
    PiecesAreNotEmpty(rest[|uri.authority|..]);
    DecodedSegments(Pieces(rest[|uri.authority|..]));
  }

  // ---- round trips ----

  /** Parsing a built URI takes its authority and path apart again. */
  lemma ParseBuilt(authority: Text, path: Text)
    requires authority != [] && Plain(authority)
    requires path != [] && path[0] == '/' && '?' !in path && '#' !in path && '\0' !in path
    ensures var value := PREFIX + authority + path;
            Parse(true, value) ==
              if |value| > MAX_URI_BYTES then Err(NotContentUri)
              else
                match DecodeAll(Pieces(path))
                case Err(e) => Err(e)
                case Ok(segments) => Ok(Uri(value, authority, segments))
  {
    var value := PREFIX + authority + path;
    var rest := authority + path;
    assert value[|PREFIX|..] == rest;
    assert value[..|PREFIX|] == PREFIX;
    assert '\0' !in PREFIX;
    UntilKeeps(rest, [], "?#");
    assert rest + [] == rest;
    UntilKeeps(authority, path, "/");
    assert rest[|authority|..] == path;
  }

  lemma DecodeCons(piece: Text, pieces: seq<Text>)
    ensures DecodeAll([piece] + pieces) ==
            match Decode(piece)
            case Err(e) => Err(e)
            case Ok(first) => match DecodeAll(pieces) case Err(e) => Err(e) case Ok(rest) => Ok([first] + rest)
  {
    assert ([piece] + pieces)[1..] == pieces;
  }

  lemma {:induction false} PlainDecodes(s: Text)
    requires forall i :: 0 <= i < |s| ==> s[i] != '%' && s[i] < '\U{80}'
    ensures DecodeBytes(s) == Some(s) && ValidUtf8(s)
    decreases |s|
  {
    if s != [] {
      PlainDecodes(s[1..]);
      assert [s[0]] + s[1..] == s;
    }
  }

  /** A name made of ASCII letters only is its own encoding. */
  lemma {:induction false} LettersEncode(s: Text)
    requires forall i :: 0 <= i < |s| ==> 'a' <= s[i] <= 'z'
    ensures Encode(s) == s
    decreases |s|
  {
    if s != [] {
      LettersEncode(s[1..]);
      assert s == [s[0]] + s[1..];
    }
  }

  /** The path that spells out `segments`. */
  function Path(segments: seq<Text>): Text {
    if segments == [] then [] else ['/'] + Encode(segments[0]) + Path(segments[1..])
  }

  function NonEmpty(segments: seq<Text>): seq<Text> {
    if segments == [] then []
    else (if segments[0] == [] then [] else [segments[0]]) + NonEmpty(segments[1..])
  }

  /** A spelled-out path reads back as its segments, except that empty ones vanish. */
  lemma {:induction false} PathRoundTrip(segments: seq<Text>)
    requires forall i :: 0 <= i < |segments| ==> ValidUtf8(segments[i])
    ensures DecodeAll(Pieces(Path(segments))) == Ok(NonEmpty(segments))
    ensures segments != [] ==> Path(segments) != [] && Path(segments)[0] == '/'
    ensures '?' !in Path(segments) && '#' !in Path(segments) && '\0' !in Path(segments)
    decreases |segments|
  {
    if segments != [] {
      var piece, more := Encode(segments[0]), Path(segments[1..]);
      PathRoundTrip(segments[1..]);
      EncodedIsPlain(segments[0]);
      SlashPiece(piece, more);
      DecodeUndoesEncode(segments[0]);
      DecodeCons(piece, Pieces(more));
      assert [] + Pieces(more) == Pieces(more);
      assert [] + NonEmpty(segments[1..]) == NonEmpty(segments[1..]);
    }
  }

  const TREE: Text := "tree"
  const DOCUMENT: Text := "document"
  const CHILDREN: Text := "children"

  lemma Names()
    ensures Encode(TREE) == TREE && Encode(DOCUMENT) == DOCUMENT && Encode(CHILDREN) == CHILDREN
    ensures ValidUtf8(TREE) && ValidUtf8(DOCUMENT) && ValidUtf8(CHILDREN)
    ensures TREE != [] && DOCUMENT != [] && CHILDREN != []
  {
    LettersEncode(TREE);
    LettersEncode(DOCUMENT);
    LettersEncode(CHILDREN);
    PlainDecodes(TREE);
    PlainDecodes(DOCUMENT);
    PlainDecodes(CHILDREN);
  }

  lemma PathCons(s: Text, rest: seq<Text>)
    ensures Path([s] + rest) == ['/'] + Encode(s) + Path(rest)
    ensures NonEmpty([s] + rest) == (if s == [] then [] else [s]) + NonEmpty(rest)
  {
    assert ([s] + rest)[1..] == rest;
  }

  lemma Assoc<T>(a: seq<T>, b: seq<T>, c: seq<T>)
    ensures a + (b + c) == a + b + c
  {
  }

  /** The path of `front` with one more segment: what `children_uri` appends to a document path. */
  lemma {:induction false} PathSnoc(front: seq<Text>, s: Text)
    ensures Path(front + [s]) == Path(front) + (['/'] + Encode(s))
    decreases |front|
  {
    if front == [] {
      assert front + [s] == [s];
      assert Path([s]) == ['/'] + Encode(s) + Path([]);
    } else {
      var head := ['/'] + Encode(front[0]);
      assert (front + [s])[0] == front[0] && (front + [s])[1..] == front[1..] + [s];
      PathSnoc(front[1..], s);
      Assoc(head, Path(front[1..]), ['/'] + Encode(s));
    }
  }

  lemma {:induction false} NonEmptySnoc(front: seq<Text>, s: Text)
    ensures NonEmpty(front + [s]) == NonEmpty(front) + (if s == [] then [] else [s])
    decreases |front|
  {
    if front == [] {
      assert front + [s] == [s];
      assert NonEmpty([s][1..]) == [];
    } else {
      var head := if front[0] == [] then [] else [front[0]];
      assert (front + [s])[0] == front[0] && (front + [s])[1..] == front[1..] + [s];
      NonEmptySnoc(front[1..], s);
      Assoc(head, NonEmpty(front[1..]), if s == [] then [] else [s]);
    }
  }

  /** The segments of a document in a tree; `t` and `d` are the two fixed names. */
  function DocumentSegments(t: Text, tree: Text, d: Text, id: Text): seq<Text> {
    [t] + ([tree] + ([d] + [id]))
  }

  lemma Regroup(slash: Text, a: Text, b: Text, c: Text, d: Text)
    ensures slash + a + (slash + b + (slash + c + (slash + d))) == (slash + a + slash) + b + (slash + c + slash) + d
  {
    var tail := slash + c + (slash + d);
    Assoc(slash + a, slash + b, tail);
    Assoc(slash + a, slash, b);
    Assoc((slash + a + slash) + b, slash + c, slash + d);
    Assoc((slash + a + slash) + b, slash + c, slash);
    Assoc((slash + a + slash) + b + (slash + c), slash, d);
  }

  lemma SpelledOut(t: Text, tree: Text, d: Text, id: Text)
    ensures Path(DocumentSegments(t, tree, d, id)) ==
            (['/'] + Encode(t) + ['/']) + Encode(tree) + (['/'] + Encode(d) + ['/']) + Encode(id)
  {
    PathCons(t, [tree] + ([d] + [id]));
    PathCons(tree, [d] + [id]);
    PathCons(d, [id]);
    assert Path([id]) == ['/'] + Encode(id) + Path([]) == ['/'] + Encode(id);
    Regroup(['/'], Encode(t), Encode(tree), Encode(d), Encode(id));
  }

  lemma KeptSegments(t: Text, tree: Text, d: Text, id: Text)
    requires t != [] && tree != [] && d != []
    ensures NonEmpty(DocumentSegments(t, tree, d, id)) == [t] + ([tree] + ([d] + if id == [] then [] else [id]))
  {
    PathCons(t, [tree] + ([d] + [id]));
    PathCons(tree, [d] + [id]);
    PathCons(d, [id]);
    assert NonEmpty([id][1..]) == [];
    assert NonEmpty([id]) == if id == [] then [] else [id];
  }

  lemma FourSegments(t: Text, tree: Text, d: Text, id: Text)
    requires ValidUtf8(t) && ValidUtf8(tree) && ValidUtf8(d) && ValidUtf8(id)
    ensures var s := DocumentSegments(t, tree, d, id);
            |s| == 4 && s[0] == t && s[1] == tree && s[2] == d && s[3] == id
            && forall i :: 0 <= i < |s| ==> ValidUtf8(s[i])
  {
    var s := DocumentSegments(t, tree, d, id);
    assert s[0] == t && s[1] == tree && s[2] == d && s[3] == id;
  }

  lemma Slashed()
    ensures ['/'] + TREE + ['/'] == SLASH_TREE
    ensures ['/'] + DOCUMENT + ['/'] == SLASH_DOCUMENT
    ensures ['/'] + CHILDREN == SLASH_CHILDREN
  {
  }

  lemma DocumentPathSpelled(tree: Text, id: Text)
    requires tree != []
    ensures DocumentPath(tree, id) == Path(DocumentSegments(TREE, tree, DOCUMENT, id))
  {
    Names();
    Slashed();
    SpelledOut(TREE, tree, DOCUMENT, id);
  }

  lemma ParsePath(authority: Text, segments: seq<Text>)
    requires authority != [] && Plain(authority)
    requires segments != [] && forall i :: 0 <= i < |segments| ==> ValidUtf8(segments[i])
    ensures var value := PREFIX + authority + Path(segments);
            Parse(true, value) ==
              if |value| > MAX_URI_BYTES then Err(NotContentUri) else Ok(Uri(value, authority, NonEmpty(segments)))
  {
    PathRoundTrip(segments);
    ParseBuilt(authority, Path(segments));
  }

  /**
   A built tree document URI parses back to the same authority, tree and document id, exactly while it
   stays within the bound.
   */
  lemma TreeDocumentUriRoundTrip(value: Text)
    requires Parse(true, value).Ok? && Parse(true, value).value.IsTree()
    ensures var uri := Parse(true, value).value;
            var built := uri.TreeDocumentUri();
            && uri.TreeDocumentId().Ok? && built.Ok?
            && Parse(true, built.value) ==
                 if |built.value| > MAX_URI_BYTES then Err(NotContentUri)
                 else Ok(Uri(built.value, uri.authority,
                             [TREE] + ([uri.segments[1]] + ([DOCUMENT] + [uri.TreeDocumentId().value]))))
  {
    var uri := Parse(true, value).value;
    ParsedIsWellFormed(value);
    DocumentRoundTrip(uri.authority, uri.segments[1], uri.TreeDocumentId().value);
  }

  lemma DocumentRoundTrip(authority: Text, tree: Text, id: Text)
    requires authority != [] && Plain(authority) && tree != [] && id != [] && ValidUtf8(tree) && ValidUtf8(id)
    ensures var built := PREFIX + authority + DocumentPath(tree, id);
            Parse(true, built) ==
              if |built| > MAX_URI_BYTES then Err(NotContentUri)
              else Ok(Uri(built, authority, [TREE] + ([tree] + ([DOCUMENT] + [id]))))
  {
    Names();
    DocumentPathSpelled(tree, id);
    KeptSegments(TREE, tree, DOCUMENT, id);
    FourSegments(TREE, tree, DOCUMENT, id);
    ParsePath(authority, DocumentSegments(TREE, tree, DOCUMENT, id));
  }

  lemma ListingSegments(tree: Text, id: Text)
    requires tree != [] && ValidUtf8(tree) && ValidUtf8(id)
    ensures var segments := DocumentSegments(TREE, tree, DOCUMENT, id) + [CHILDREN];
            && DocumentPath(tree, id) + SLASH_CHILDREN == Path(segments)
            && NonEmpty(segments) == [TREE] + ([tree] + ([DOCUMENT] + if id == [] then [] else [id])) + [CHILDREN]
            && forall i :: 0 <= i < |segments| ==> ValidUtf8(segments[i])
  {
    Names();
    Slashed();
    DocumentPathSpelled(tree, id);
    KeptSegments(TREE, tree, DOCUMENT, id);
    var segments := DocumentSegments(TREE, tree, DOCUMENT, id);
    FourSegments(TREE, tree, DOCUMENT, id);
    PathSnoc(segments, CHILDREN);
    NonEmptySnoc(segments, CHILDREN);
  }

  lemma ListingRoundTrip(authority: Text, tree: Text, id: Text)
    requires authority != [] && Plain(authority) && tree != [] && ValidUtf8(tree) && ValidUtf8(id)
    ensures var built := PREFIX + authority + (DocumentPath(tree, id) + SLASH_CHILDREN);
            Parse(true, built) ==
              if |built| > MAX_URI_BYTES then Err(NotContentUri)
              else Ok(Uri(built, authority, [TREE] + ([tree] + ([DOCUMENT] + if id == [] then [] else [id])) + [CHILDREN]))
  {
    ListingSegments(tree, id);
    ParsePath(authority, DocumentSegments(TREE, tree, DOCUMENT, id) + [CHILDREN]);
  }

  /**
   A built children URI parses back to the same authority, tree and document id, for every non-empty id,
   exactly while it stays within the bound. An empty id is lost: the path then names the document `children`.
   */
  lemma ChildrenUriRoundTrip(value: Text, id: Text)
    requires Parse(true, value).Ok? && Parse(true, value).value.IsTree() && ValidUtf8(id)
    ensures var uri := Parse(true, value).value;
            var built := uri.ChildrenUri(id);
            built.Ok? &&
            Parse(true, built.value) ==
              if |built.value| > MAX_URI_BYTES then Err(NotContentUri)
              else Ok(Uri(built.value, uri.authority,
                          [TREE] + ([uri.segments[1]] + ([DOCUMENT] + if id == [] then [] else [id])) + [CHILDREN]))
  {
    var uri := Parse(true, value).value;
    ParsedIsWellFormed(value);
    ListingRoundTrip(uri.authority, uri.segments[1], id);
  }

  /** The document id read back from the segments above. */
  lemma ListingNamesItsDocument(value: Text, authority: Text, tree: Text, id: Text)
    ensures var listing := Uri(value, authority, [TREE] + ([tree] + ([DOCUMENT] + if id == [] then [] else [id])) + [CHILDREN]);
            listing.IsTree() && listing.TreeDocumentId() == Ok(if id == [] then CHILDREN else id)
  {
    var segments := [TREE] + ([tree] + ([DOCUMENT] + if id == [] then [] else [id])) + [CHILDREN];
    assert segments == if id == [] then [TREE, tree, DOCUMENT, CHILDREN] else [TREE, tree, DOCUMENT, id, CHILDREN];
  }
}
