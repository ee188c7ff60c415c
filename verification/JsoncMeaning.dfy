// What stripJSONC means: JSON printed with comments and trailing commas comes back as the same tokens.
module JsoncMeaning {
  import opened Common
  import opened JsoncComments
  import opened JsoncCommas

  // ---------------------------------------------------------------- JSON values and their tokens

  // An atom is a number or a literal; a text is the inside of a string, escapes included.
  datatype Token = Punct(b: byte) | Atom(body: bytes) | Text(body: bytes)

  datatype Json =
    | Scalar(body: bytes)
    | String(body: bytes)
    | Array(items: Items, trailing: bool)
    | Object(members: Members, trailing: bool)

  datatype Items = NoItems | Item(head: Json, tail: Items)

  datatype Members = NoMembers | Member(key: bytes, value: Json, rest: Members)

  const COMMA_TOKEN: Token := Punct(COMMA)

  // Optional trailing comma, when the printer is allowed to use it.
  function Trailing(jsonc: bool, trailing: bool): seq<Token> {
    if jsonc && trailing then [COMMA_TOKEN] else []
  }

  // Tokens of a value, followed by rest. With jsonc the values' own trailing-comma choices are printed;
  // without, the text is plain JSON.
  function Tokens(jsonc: bool, v: Json, rest: seq<Token>): seq<Token> {
    match v
    case Scalar(body) => [Atom(body)] + rest
    case String(body) => [Text(body)] + rest
    case Array(items, trailing) =>
      [Punct(LBRACKET)] + ItemTokens(jsonc, items, Trailing(jsonc, trailing) + [Punct(RBRACKET)] + rest)
    case Object(members, trailing) =>
      [Punct(LBRACE)] + MemberTokens(jsonc, members, Trailing(jsonc, trailing) + [Punct(RBRACE)] + rest)
  }

  function ItemTokens(jsonc: bool, items: Items, rest: seq<Token>): seq<Token> {
    match items
    case NoItems => rest
    case Item(head, tail) =>
      Tokens(jsonc, head, (if tail.NoItems? then [] else [COMMA_TOKEN]) + ItemTokens(jsonc, tail, rest))
  }

  function MemberTokens(jsonc: bool, members: Members, rest: seq<Token>): seq<Token> {
    match members
    case NoMembers => rest
    case Member(key, value, others) =>
      [Text(key), Punct(COLON)]
      + Tokens(jsonc, value, (if others.NoMembers? then [] else [COMMA_TOKEN]) + MemberTokens(jsonc, others, rest))
  }

  predicate IsPunct(b: byte) {
    b == LBRACE || b == RBRACE || b == LBRACKET || b == RBRACKET || b == COLON || b == COMMA
  }

  predicate IsAtomByte(b: byte) {
    !IsPunct(b) && !IsJSONWhitespace(b) && b != QUOTE && b != SLASH
  }

  // Well-formed inside of a string: no bare quote, no dangling escape.
  predicate TextOk(escaped: bool, body: bytes)
    decreases |body|
  {
    if body == [] then !escaped
    else if escaped then TextOk(false, body[1..])
    else body[0] != QUOTE && TextOk(body[0] == BACKSLASH, body[1..])
  }

  predicate TokenOk(t: Token) {
    match t
    case Punct(b) => IsPunct(b)
    case Atom(body) => body != [] && forall i :: 0 <= i < |body| ==> IsAtomByte(body[i])
    case Text(body) => TextOk(false, body)
  }

  predicate ValueOk(v: Json) {
    match v
    case Scalar(body) => TokenOk(Atom(body))
    case String(body) => TokenOk(Text(body))
    case Array(items, _) => ItemsOk(items)
    case Object(members, _) => MembersOk(members)
  }

  predicate ItemsOk(items: Items) {
    items.Item? ==> ValueOk(items.head) && ItemsOk(items.tail)
  }

  predicate MembersOk(members: Members) {
    members.Member? ==> TokenOk(Text(members.key)) && ValueOk(members.value) && MembersOk(members.rest)
  }

  // ---------------------------------------------------------------- gaps between tokens

  datatype Trivia =
    | White(b: byte)
    | LineComment(body: bytes, newline: byte)
    | BlockComment(body: bytes)

  type Gap = seq<Trivia>

  predicate NoNewline(body: bytes) {
    forall i :: 0 <= i < |body| ==> body[i] != LF && body[i] != CR
  }

  predicate NoBlockEnd(body: bytes) {
    forall i :: 0 <= i < |body| - 1 ==> !(body[i] == STAR && body[i + 1] == SLASH)
  }

  predicate TriviaOk(t: Trivia) {
    match t
    case White(b) => b == SPACE || b == TAB || b == LF || b == CR
    case LineComment(body, newline) => NoNewline(body) && (newline == LF || newline == CR)
    case BlockComment(body) => NoBlockEnd(body)
  }

  predicate GapOk(g: Gap) {
    forall i :: 0 <= i < |g| ==> TriviaOk(g[i])
  }

  function TriviaBytes(t: Trivia): bytes {
    match t
    case White(b) => [b]
    case LineComment(body, newline) => [SLASH, SLASH] + body + [newline]
    case BlockComment(body) => [SLASH, STAR] + body + [STAR, SLASH]
  }

  function GapBytes(g: Gap): bytes {
    if g == [] then [] else TriviaBytes(g[0]) + GapBytes(g[1..])
  }

  function BlankBytes(body: bytes): bytes {
    if body == [] then [] else [Blanked(body[0])] + BlankBytes(body[1..])
  }

  // The gap as the comment pass leaves it.
  function BlankTrivia(t: Trivia): bytes {
    match t
    case White(b) => [b]
    case LineComment(body, newline) => [SPACE, SPACE] + BlankBytes(body) + [newline]
    case BlockComment(body) => [SPACE, SPACE] + BlankBytes(body) + [SPACE, SPACE]
  }

  function BlankGap(g: Gap): bytes {
    if g == [] then [] else BlankTrivia(g[0]) + BlankGap(g[1..])
  }

  function TokenBytes(t: Token): bytes {
    match t
    case Punct(b) => [b]
    case Atom(body) => body
    case Text(body) => [QUOTE] + body + [QUOTE]
  }

  // What may follow the last token: a gap, and possibly a line comment that the file's end closes.
  datatype Ending = Ending(gap: Gap, comment: Option<bytes>)

  predicate EndingOk(e: Ending) {
    GapOk(e.gap) && (e.comment.Some? ==> NoNewline(e.comment.value))
  }

  function EndingBytes(e: Ending): bytes {
    GapBytes(e.gap) + (if e.comment.Some? then [SLASH, SLASH] + e.comment.value else [])
  }

  function BlankEnding(e: Ending): bytes {
    BlankGap(e.gap) + (if e.comment.Some? then [SPACE, SPACE] + BlankBytes(e.comment.value) else [])
  }

  // The printed document: gaps[i] precedes tokens[i].
  function Print(tokens: seq<Token>, gaps: seq<Gap>, ending: Ending): bytes
    requires |gaps| == |tokens|
  {
    if tokens == [] then EndingBytes(ending)
    else GapBytes(gaps[0]) + TokenBytes(tokens[0]) + Print(tokens[1..], gaps[1..], ending)
  }

  // The same document with every comment blanked.
  function PrintBlank(tokens: seq<Token>, gaps: seq<Gap>, ending: Ending): bytes
    requires |gaps| == |tokens|
  {
    if tokens == [] then BlankEnding(ending)
    else BlankGap(gaps[0]) + TokenBytes(tokens[0]) + PrintBlank(tokens[1..], gaps[1..], ending)
  }

  predicate IsCloserToken(t: Token) {
    t.Punct? && IsCloser(t.b)
  }

  predicate DropsFirst(tokens: seq<Token>) {
    |tokens| > 1 && tokens[0] == COMMA_TOKEN && IsCloserToken(tokens[1])
  }

  function KeptBytes(t: Token, dropped: bool): bytes {
    if dropped then [] else TokenBytes(t)
  }

  // The same document with trailing commas gone as well; their gaps stay.
  function PrintStripped(tokens: seq<Token>, gaps: seq<Gap>, ending: Ending): bytes
    requires |gaps| == |tokens|
  {
    if tokens == [] then BlankEnding(ending)
    else BlankGap(gaps[0]) + KeptBytes(tokens[0], DropsFirst(tokens))
         + PrintStripped(tokens[1..], gaps[1..], ending)
  }

  function DropTrailing(tokens: seq<Token>): seq<Token> {
    if tokens == [] then []
    else (if DropsFirst(tokens) then [] else [tokens[0]]) + DropTrailing(tokens[1..])
  }

  predicate TokensOk(tokens: seq<Token>) {
    forall i :: 0 <= i < |tokens| ==> TokenOk(tokens[i])
  }

  predicate GapsOk(gaps: seq<Gap>) {
    forall i :: 0 <= i < |gaps| ==> GapOk(gaps[i])
  }

  // ---------------------------------------------------------------- the comment pass on a document

  lemma {:induction false} StripLineBody(body: bytes, rest: bytes)
    requires NoNewline(body)
    ensures Strip(Line, body + rest) == Prepend(BlankBytes(body), Strip(Line, rest))
  {
    if body == [] {
      assert body + rest == rest;
      PrependEmpty(Strip(Line, rest));
    } else {
      assert (body + rest)[1..] == body[1..] + rest;
      StripLineBody(body[1..], rest);
      PrependPrepend([Blanked(body[0])], BlankBytes(body[1..]), Strip(Line, rest));
    }
  }

  lemma PrependEmpty(r: Result)
    ensures Prepend([], r) == r
  {
  }

  lemma {:induction false} StripBlockBody(body: bytes, rest: bytes)
    requires NoBlockEnd(body)
    ensures Strip(Block, body + [STAR, SLASH] + rest) == Prepend(BlankBytes(body) + [SPACE, SPACE], Strip(Code, rest))
  {
    var s := body + [STAR, SLASH] + rest;
    if body == [] {
      assert s[2..] == rest;
      assert BlankBytes(body) + [SPACE, SPACE] == [SPACE, SPACE];
    } else {
      assert s[1..] == body[1..] + [STAR, SLASH] + rest;
      assert !(s[0] == STAR && s[1] == SLASH);
      assert NoBlockEnd(body[1..]) by {
        forall i | 0 <= i < |body[1..]| - 1
          ensures !(body[1..][i] == STAR && body[1..][i + 1] == SLASH)
        {
          assert body[1..][i] == body[i + 1] && body[1..][i + 1] == body[i + 2];
        }
      }
      StripBlockBody(body[1..], rest);
      PrependPrepend([Blanked(body[0])], BlankBytes(body[1..]) + [SPACE, SPACE], Strip(Code, rest));
      assert [Blanked(body[0])] + (BlankBytes(body[1..]) + [SPACE, SPACE]) == BlankBytes(body) + [SPACE, SPACE];
    }
  }

  lemma StripLineComment(t: Trivia, rest: bytes)
    requires TriviaOk(t) && t.LineComment?
    ensures Strip(Code, TriviaBytes(t) + rest) == Prepend(BlankTrivia(t), Strip(Code, rest))
  {
    hide Prepend;
    var s := TriviaBytes(t) + rest;
    var body, newline := t.body, t.newline;
    assert s[2..] == body + ([newline] + rest);
    StripLineBody(body, [newline] + rest);
    assert ([newline] + rest)[1..] == rest;
    PrependPrepend(BlankBytes(body), [newline], Strip(Code, rest));
    PrependPrepend([SPACE, SPACE], BlankBytes(body) + [newline], Strip(Code, rest));
    assert [SPACE, SPACE] + (BlankBytes(body) + [newline]) == BlankTrivia(t);
  }

  lemma StripBlockComment(t: Trivia, rest: bytes)
    requires TriviaOk(t) && t.BlockComment?
    ensures Strip(Code, TriviaBytes(t) + rest) == Prepend(BlankTrivia(t), Strip(Code, rest))
  {
    hide Prepend;
    var s, body := TriviaBytes(t) + rest, t.body;
    assert s[2..] == body + [STAR, SLASH] + rest;
    StripBlockBody(body, rest);
    PrependPrepend([SPACE, SPACE], BlankBytes(body) + [SPACE, SPACE], Strip(Code, rest));
    assert [SPACE, SPACE] + (BlankBytes(body) + [SPACE, SPACE]) == BlankTrivia(t);
  }

  lemma StripTrivia(t: Trivia, rest: bytes)
    requires TriviaOk(t)
    ensures Strip(Code, TriviaBytes(t) + rest) == Prepend(BlankTrivia(t), Strip(Code, rest))
  {
    match t
    case White(b) => assert (TriviaBytes(t) + rest)[1..] == rest;
    case LineComment(_, _) => StripLineComment(t, rest);
    case BlockComment(_) => StripBlockComment(t, rest);
  }

  lemma {:induction false} StripGap(g: Gap, rest: bytes)
    requires GapOk(g)
    ensures Strip(Code, GapBytes(g) + rest) == Prepend(BlankGap(g), Strip(Code, rest))
  {
    if g == [] {
      assert GapBytes(g) + rest == rest;
      PrependEmpty(Strip(Code, rest));
    } else {
      assert GapBytes(g) + rest == TriviaBytes(g[0]) + (GapBytes(g[1..]) + rest);
      StripTrivia(g[0], GapBytes(g[1..]) + rest);
      StripGap(g[1..], rest);
      PrependPrepend(BlankTrivia(g[0]), BlankGap(g[1..]), Strip(Code, rest));
    }
  }

  lemma {:induction false} StripText(escaped: bool, body: bytes, rest: bytes)
    requires TextOk(escaped, body)
    ensures Strip(Str(escaped), body + [QUOTE] + rest) == Prepend(body + [QUOTE], Strip(Code, rest))
    decreases |body|
  {
    var s := body + [QUOTE] + rest;
    if body == [] {
      assert s[1..] == rest;
      assert body + [QUOTE] == [QUOTE];
    } else {
      assert s[1..] == body[1..] + [QUOTE] + rest;
      StripText(!escaped && body[0] == BACKSLASH, body[1..], rest);
      PrependPrepend([body[0]], body[1..] + [QUOTE], Strip(Code, rest));
      assert [body[0]] + (body[1..] + [QUOTE]) == body + [QUOTE];
    }
  }

  lemma {:induction false} StripAtom(body: bytes, rest: bytes)
    requires forall i :: 0 <= i < |body| ==> IsAtomByte(body[i])
    ensures Strip(Code, body + rest) == Prepend(body, Strip(Code, rest))
  {
    if body == [] {
      assert body + rest == rest;
      PrependEmpty(Strip(Code, rest));
    } else {
      assert (body + rest)[1..] == body[1..] + rest;
      StripAtom(body[1..], rest);
      PrependPrepend([body[0]], body[1..], Strip(Code, rest));
      assert [body[0]] + body[1..] == body;
    }
  }

  lemma StripToken(t: Token, rest: bytes)
    requires TokenOk(t)
    ensures Strip(Code, TokenBytes(t) + rest) == Prepend(TokenBytes(t), Strip(Code, rest))
  {
    var s := TokenBytes(t) + rest;
    match t
    case Punct(b) => assert s[1..] == rest;
    case Atom(body) => StripAtom(body, rest);
    case Text(body) =>
      assert s[1..] == body + [QUOTE] + rest;
      StripText(false, body, rest);
      PrependPrepend([QUOTE], body + [QUOTE], Strip(Code, rest));
      assert [QUOTE] + (body + [QUOTE]) == TokenBytes(t);
  }

  lemma StripEnding(e: Ending)
    requires EndingOk(e)
    ensures Strip(Code, EndingBytes(e)) == Ok(BlankEnding(e))
  {
    var tail := if e.comment.Some? then [SLASH, SLASH] + e.comment.value else [];
    StripGap(e.gap, tail);
    if e.comment.Some? {
      assert tail[2..] == e.comment.value + [];
      StripLineBody(e.comment.value, []);
    }
  }

  // On any list of tokens with any gaps, the comment pass blanks exactly the comments.
  lemma {:induction false} CommentsOfDocument(tokens: seq<Token>, gaps: seq<Gap>, ending: Ending)
    requires |gaps| == |tokens| && TokensOk(tokens) && GapsOk(gaps) && EndingOk(ending)
    ensures Strip(Code, Print(tokens, gaps, ending)) == Ok(PrintBlank(tokens, gaps, ending))
    decreases |tokens|
  {
    if tokens == [] {
      StripEnding(ending);
    } else {
      var rest := Print(tokens[1..], gaps[1..], ending);
      assert Print(tokens, gaps, ending) == GapBytes(gaps[0]) + (TokenBytes(tokens[0]) + rest);
      StripGap(gaps[0], TokenBytes(tokens[0]) + rest);
      StripToken(tokens[0], rest);
      CommentsOfDocument(tokens[1..], gaps[1..], ending);
      PrependPrepend(BlankGap(gaps[0]), TokenBytes(tokens[0]), Strip(Code, rest));
    }
  }

  // ---------------------------------------------------------------- the comma pass on a document

  predicate AllWhite(s: bytes) {
    forall i :: 0 <= i < |s| ==> IsJSONWhitespace(s[i])
  }

  lemma {:induction false} BlankBytesAreWhite(body: bytes)
    ensures AllWhite(BlankBytes(body))
  {
    if body != [] {
      BlankBytesAreWhite(body[1..]);
    }
  }

  lemma {:induction false} BlankGapIsWhite(g: Gap)
    requires GapOk(g)
    ensures AllWhite(BlankGap(g))
  {
    if g != [] {
      if !g[0].White? {
        BlankBytesAreWhite(g[0].body);
      }
      BlankGapIsWhite(g[1..]);
    }
  }

  lemma BlankEndingIsWhite(e: Ending)
    requires EndingOk(e)
    ensures AllWhite(BlankEnding(e))
  {
    BlankGapIsWhite(e.gap);
    if e.comment.Some? {
      BlankBytesAreWhite(e.comment.value);
    }
  }

  lemma {:induction false} CommasOfWhite(s: bytes, rest: bytes)
    requires AllWhite(s)
    ensures DropCommas(Code, s + rest) == s + DropCommas(Code, rest)
    ensures ClosesNext(s + rest) == ClosesNext(rest)
  {
    if s == [] {
      assert s + rest == rest;
    } else {
      assert (s + rest)[1..] == s[1..] + rest;
      CommasOfWhite(s[1..], rest);
    }
  }

  lemma {:induction false} CommasOfText(escaped: bool, body: bytes, rest: bytes)
    requires TextOk(escaped, body)
    ensures DropCommas(Str(escaped), body + [QUOTE] + rest) == body + [QUOTE] + DropCommas(Code, rest)
    decreases |body|
  {
    var s := body + [QUOTE] + rest;
    if body == [] {
      assert s[1..] == rest;
    } else {
      assert s[1..] == body[1..] + [QUOTE] + rest;
      CommasOfText(!escaped && body[0] == BACKSLASH, body[1..], rest);
    }
  }

  lemma {:induction false} CommasOfAtom(body: bytes, rest: bytes)
    requires forall i :: 0 <= i < |body| ==> IsAtomByte(body[i])
    ensures DropCommas(Code, body + rest) == body + DropCommas(Code, rest)
    ensures body != [] ==> !ClosesNext(body + rest)
  {
    if body == [] {
      assert body + rest == rest;
    } else {
      assert (body + rest)[1..] == body[1..] + rest;
      CommasOfAtom(body[1..], rest);
    }
  }

  lemma CommasOfPunct(b: byte, rest: bytes)
    requires IsPunct(b)
    ensures DropCommas(Code, [b] + rest)
         == KeptBytes(Punct(b), b == COMMA && ClosesNext(rest)) + DropCommas(Code, rest)
    ensures ClosesNext([b] + rest) <==> IsCloser(b)
  {
    var s := [b] + rest;
    assert s[0] == b && s[1..] == rest;
    assert [] + DropCommas(Code, rest) == DropCommas(Code, rest);
  }

  lemma CommasOfString(body: bytes, rest: bytes)
    requires TextOk(false, body)
    ensures DropCommas(Code, TokenBytes(Text(body)) + rest) == TokenBytes(Text(body)) + DropCommas(Code, rest)
    ensures !ClosesNext(TokenBytes(Text(body)) + rest)
  {
    hide TextOk;
    var s := TokenBytes(Text(body)) + rest;
    assert s[0] == QUOTE && s[1..] == body + [QUOTE] + rest;
    CommasOfText(false, body, rest);
    var d := DropCommas(Code, rest);
    assert [QUOTE] + (body + [QUOTE] + d) == TokenBytes(Text(body)) + d;
  }

  lemma CommasOfToken(t: Token, rest: bytes)
    requires TokenOk(t)
    ensures DropCommas(Code, TokenBytes(t) + rest)
         == KeptBytes(t, t == COMMA_TOKEN && ClosesNext(rest)) + DropCommas(Code, rest)
    ensures ClosesNext(TokenBytes(t) + rest) <==> IsCloserToken(t)
  {
    match t
    case Punct(b) => CommasOfPunct(b, rest);
    case Atom(body) => CommasOfAtom(body, rest);
    case Text(body) => CommasOfString(body, rest);
  }

  lemma Associate(a: bytes, b: bytes, c: bytes)
    ensures a + b + c == a + (b + c)
  {
  }

  lemma CommasOfPiece(g: Gap, t: Token, rest: bytes)
    requires GapOk(g) && TokenOk(t)
    ensures DropCommas(Code, BlankGap(g) + TokenBytes(t) + rest)
         == BlankGap(g) + KeptBytes(t, t == COMMA_TOKEN && ClosesNext(rest)) + DropCommas(Code, rest)
    ensures ClosesNext(BlankGap(g) + TokenBytes(t) + rest) <==> IsCloserToken(t)
  {
    Associate(BlankGap(g), TokenBytes(t), rest);
    BlankGapIsWhite(g);
    CommasOfWhite(BlankGap(g), TokenBytes(t) + rest);
    CommasOfToken(t, rest);
    Associate(BlankGap(g), KeptBytes(t, t == COMMA_TOKEN && ClosesNext(rest)), DropCommas(Code, rest));
  }

  lemma CommasOfEnding(e: Ending)
    requires EndingOk(e)
    ensures DropCommas(Code, BlankEnding(e)) == BlankEnding(e) && !ClosesNext(BlankEnding(e))
  {
    var s := BlankEnding(e);
    BlankEndingIsWhite(e);
    CommasOfWhite(s, []);
    assert s + [] == s;
  }

  // On any list of tokens with any gaps, the comma pass drops exactly the commas before closers.
  lemma {:induction false} CommasOfDocument(tokens: seq<Token>, gaps: seq<Gap>, ending: Ending)
    requires |gaps| == |tokens| && TokensOk(tokens) && GapsOk(gaps) && EndingOk(ending)
    ensures DropCommas(Code, PrintBlank(tokens, gaps, ending)) == PrintStripped(tokens, gaps, ending)
    ensures ClosesNext(PrintBlank(tokens, gaps, ending)) <==> |tokens| > 0 && IsCloserToken(tokens[0])
    decreases |tokens|
  {
    if tokens == [] {
      CommasOfEnding(ending);
    } else {
      var rest := PrintBlank(tokens[1..], gaps[1..], ending);
      CommasOfDocument(tokens[1..], gaps[1..], ending);
      CommasOfPiece(gaps[0], tokens[0], rest);
      assert DropsFirst(tokens) <==> tokens[0] == COMMA_TOKEN && ClosesNext(rest);
    }
  }

  // stripJSONC on any document made of tokens and gaps, exactly.
  lemma StripsDocument(tokens: seq<Token>, gaps: seq<Gap>, ending: Ending)
    requires |gaps| == |tokens| && TokensOk(tokens) && GapsOk(gaps) && EndingOk(ending)
    ensures StripJSONC(Print(tokens, gaps, ending)) == Ok(PrintStripped(tokens, gaps, ending))
  {
    CommentsOfDocument(tokens, gaps, ending);
    CommasOfDocument(tokens, gaps, ending);
  }

  // ---------------------------------------------------------------- a JSON tokenizer

  function AtomLength(s: bytes): (n: nat)
    ensures n <= |s|
    ensures s != [] && IsAtomByte(s[0]) ==> n > 0
  {
    if s == [] || !IsAtomByte(s[0]) then 0 else 1 + AtomLength(s[1..])
  }

  // Distance to the quote that ends a string.
  function TextLength(escaped: bool, s: bytes): (n: Option<nat>)
    ensures n.Some? ==> n.value < |s|
    decreases |s|
  {
    if s == [] then None
    else if !escaped && s[0] == QUOTE then Some(0)
    else
      match TextLength(!escaped && s[0] == BACKSLASH, s[1..])
      case Some(n) => Some(n + 1)
      case None => None
  }

  function Push(t: Token, rest: Option<seq<Token>>): Option<seq<Token>> {
    match rest
    case Some(tokens) => Some([t] + tokens)
    case None => None
  }

  // Tokens of plain JSON text; None when the text is not made of JSON tokens.
  function Lex(s: bytes): Option<seq<Token>>
    decreases |s|
  {
    if s == [] then Some([])
    else if IsJSONWhitespace(s[0]) then Lex(s[1..])
    else if IsPunct(s[0]) then Push(Punct(s[0]), Lex(s[1..]))
    else if s[0] == QUOTE then
      match TextLength(false, s[1..])
      case Some(n) => Push(Text(s[1..n + 1]), Lex(s[n + 2..]))
      case None => None
    else if IsAtomByte(s[0]) then Push(Atom(s[..AtomLength(s)]), Lex(s[AtomLength(s)..]))
    else None
  }

  predicate NoAtomFirst(s: bytes) {
    s == [] || !IsAtomByte(s[0])
  }

  // Two atoms in a row would run together; JSON never has them.
  predicate AtomsApart(tokens: seq<Token>) {
    forall i :: 0 <= i < |tokens| - 1 ==> !(tokens[i].Atom? && tokens[i + 1].Atom?)
  }

  lemma {:induction false} LexWhite(s: bytes, rest: bytes)
    requires AllWhite(s)
    ensures Lex(s + rest) == Lex(rest)
  {
    if s == [] {
      assert s + rest == rest;
    } else {
      assert (s + rest)[1..] == s[1..] + rest;
      LexWhite(s[1..], rest);
    }
  }

  lemma {:induction false} AtomRun(body: bytes, rest: bytes)
    requires (forall i :: 0 <= i < |body| ==> IsAtomByte(body[i])) && NoAtomFirst(rest)
    ensures AtomLength(body + rest) == |body|
  {
    if body == [] {
      assert body + rest == rest;
    } else {
      assert (body + rest)[1..] == body[1..] + rest;
      AtomRun(body[1..], rest);
    }
  }

  lemma {:induction false} TextRun(escaped: bool, body: bytes, rest: bytes)
    requires TextOk(escaped, body)
    ensures TextLength(escaped, body + [QUOTE] + rest) == Some(|body|)
    decreases |body|
  {
    var s := body + [QUOTE] + rest;
    if body != [] {
      assert s[1..] == body[1..] + [QUOTE] + rest;
      TextRun(!escaped && body[0] == BACKSLASH, body[1..], rest);
    }
  }

  lemma LexToken(t: Token, rest: bytes)
    requires TokenOk(t) && (t.Atom? ==> NoAtomFirst(rest))
    ensures Lex(TokenBytes(t) + rest) == Push(t, Lex(rest))
  {
    var s := TokenBytes(t) + rest;
    match t
    case Punct(b) => assert s[1..] == rest;
    case Atom(body) =>
      AtomRun(body, rest);
      assert s[..|body|] == body && s[|body|..] == rest;
    case Text(body) =>
      TextRun(false, body, rest);
      assert s[1..] == body + [QUOTE] + rest;
      assert s[1..|body| + 1] == body && s[|body| + 2..] == rest;
  }

  lemma {:induction false} LexStripped(tokens: seq<Token>, gaps: seq<Gap>, ending: Ending)
    requires |gaps| == |tokens| && TokensOk(tokens) && GapsOk(gaps) && EndingOk(ending) && AtomsApart(tokens)
    ensures Lex(PrintStripped(tokens, gaps, ending)) == Some(DropTrailing(tokens))
    ensures tokens == [] || !tokens[0].Atom? ==> NoAtomFirst(PrintStripped(tokens, gaps, ending))
    decreases |tokens|
  {
    if tokens == [] {
      BlankEndingIsWhite(ending);
      LexWhite(BlankEnding(ending), []);
      assert BlankEnding(ending) + [] == BlankEnding(ending);
    } else {
      var rest := PrintStripped(tokens[1..], gaps[1..], ending);
      LexStripped(tokens[1..], gaps[1..], ending);
      BlankGapIsWhite(gaps[0]);
      var kept := KeptBytes(tokens[0], DropsFirst(tokens));
      Associate(BlankGap(gaps[0]), kept, rest);
      LexWhite(BlankGap(gaps[0]), kept + rest);
      if DropsFirst(tokens) {
        assert kept + rest == rest;
        assert [] + DropTrailing(tokens[1..]) == DropTrailing(tokens[1..]);
      } else {
        LexToken(tokens[0], rest);
      }
    }
  }

  // ---------------------------------------------------------------- token lists of JSON values

  predicate Joinable(rest: seq<Token>) {
    TokensOk(rest) && AtomsApart(rest) && (rest == [] || !rest[0].Atom?)
  }

  lemma JoinPunct(b: byte, rest: seq<Token>)
    requires IsPunct(b) && TokensOk(rest) && AtomsApart(rest)
    ensures Joinable([Punct(b)] + rest)
  {
  }

  lemma {:induction false} ValueTokens(jsonc: bool, v: Json, rest: seq<Token>)
    requires ValueOk(v) && Joinable(rest)
    ensures TokensOk(Tokens(jsonc, v, rest)) && AtomsApart(Tokens(jsonc, v, rest))
    decreases v, 1
  {
    match v
    case Scalar(_) =>
    case String(_) =>
    case Array(items, trailing) =>
      JoinPunct(RBRACKET, rest);
      assert [] + [Punct(RBRACKET)] + rest == [Punct(RBRACKET)] + rest;
      assert [COMMA_TOKEN] + [Punct(RBRACKET)] + rest == [COMMA_TOKEN] + ([Punct(RBRACKET)] + rest);
      JoinPunct(COMMA, [Punct(RBRACKET)] + rest);
      ItemsTokens(jsonc, items, Trailing(jsonc, trailing) + [Punct(RBRACKET)] + rest);
    case Object(members, trailing) =>
      JoinPunct(RBRACE, rest);
      assert [] + [Punct(RBRACE)] + rest == [Punct(RBRACE)] + rest;
      assert [COMMA_TOKEN] + [Punct(RBRACE)] + rest == [COMMA_TOKEN] + ([Punct(RBRACE)] + rest);
      JoinPunct(COMMA, [Punct(RBRACE)] + rest);
      MembersTokens(jsonc, members, Trailing(jsonc, trailing) + [Punct(RBRACE)] + rest);
  }

  lemma {:induction false} ItemsTokens(jsonc: bool, items: Items, rest: seq<Token>)
    requires ItemsOk(items) && Joinable(rest)
    ensures TokensOk(ItemTokens(jsonc, items, rest)) && AtomsApart(ItemTokens(jsonc, items, rest))
    decreases items, 0
  {
    if items.Item? {
      var after := ItemTokens(jsonc, items.tail, rest);
      ItemsTokens(jsonc, items.tail, rest);
      if items.tail.NoItems? {
        assert [] + after == after;
        ValueTokens(jsonc, items.head, after);
      } else {
        JoinPunct(COMMA, after);
        ValueTokens(jsonc, items.head, [COMMA_TOKEN] + after);
      }
    }
  }

  lemma {:induction false} MembersTokens(jsonc: bool, members: Members, rest: seq<Token>)
    requires MembersOk(members) && Joinable(rest)
    ensures TokensOk(MemberTokens(jsonc, members, rest)) && AtomsApart(MemberTokens(jsonc, members, rest))
    decreases members, 0
  {
    if members.Member? {
      var after := MemberTokens(jsonc, members.rest, rest);
      MembersTokens(jsonc, members.rest, rest);
      if members.rest.NoMembers? {
        assert [] + after == after;
        ValueTokens(jsonc, members.value, after);
      } else {
        JoinPunct(COMMA, after);
        ValueTokens(jsonc, members.value, [COMMA_TOKEN] + after);
      }
    }
  }

  predicate CloserFirst(tokens: seq<Token>) {
    tokens != [] && IsCloserToken(tokens[0])
  }

  lemma ValueOpens(jsonc: bool, v: Json, rest: seq<Token>)
    ensures !CloserFirst(Tokens(jsonc, v, rest))
  {
  }

  lemma DropPush(t: Token, rest: seq<Token>)
    ensures DropTrailing([t] + rest)
         == (if t == COMMA_TOKEN && CloserFirst(rest) then [] else [t]) + DropTrailing(rest)
  {
    assert ([t] + rest)[1..] == rest;
  }

  // Printed with or without its trailing commas, a value has the tokens of its plain form plus commas that are dropped.
  lemma {:induction false} DropValue(jsonc: bool, v: Json, rest: seq<Token>)
    ensures DropTrailing(Tokens(jsonc, v, rest)) == Tokens(false, v, DropTrailing(rest))
    decreases v, 1
  {
    match v
    case Scalar(body) => DropPush(Atom(body), rest);
    case String(body) => DropPush(Text(body), rest);
    case Array(items, trailing) =>
      DropItems(jsonc, items, trailing, RBRACKET, rest);
      DropPush(Punct(LBRACKET), ItemTokens(jsonc, items, Trailing(jsonc, trailing) + [Punct(RBRACKET)] + rest));
    case Object(members, trailing) =>
      DropMembers(jsonc, members, trailing, RBRACE, rest);
      DropPush(Punct(LBRACE), MemberTokens(jsonc, members, Trailing(jsonc, trailing) + [Punct(RBRACE)] + rest));
  }

  lemma DropClosing(jsonc: bool, trailing: bool, closer: byte, rest: seq<Token>)
    requires IsCloser(closer)
    ensures DropTrailing(Trailing(jsonc, trailing) + [Punct(closer)] + rest) == [Punct(closer)] + DropTrailing(rest)
    ensures Trailing(false, trailing) + [Punct(closer)] + DropTrailing(rest) == [Punct(closer)] + DropTrailing(rest)
  {
    DropPush(Punct(closer), rest);
    if jsonc && trailing {
      DropPush(COMMA_TOKEN, [Punct(closer)] + rest);
      assert [COMMA_TOKEN] + [Punct(closer)] + rest == [COMMA_TOKEN] + ([Punct(closer)] + rest);
    } else {
      assert [] + [Punct(closer)] + rest == [Punct(closer)] + rest;
    }
  }

  lemma {:induction false} DropItems(jsonc: bool, items: Items, trailing: bool, closer: byte, rest: seq<Token>)
    requires IsCloser(closer)
    ensures DropTrailing(ItemTokens(jsonc, items, Trailing(jsonc, trailing) + [Punct(closer)] + rest))
         == ItemTokens(false, items, Trailing(false, trailing) + [Punct(closer)] + DropTrailing(rest))
    decreases items, 0
  {
    var end := Trailing(jsonc, trailing) + [Punct(closer)] + rest;
    DropClosing(jsonc, trailing, closer, rest);
    if items.Item? {
      var after := ItemTokens(jsonc, items.tail, end);
      DropItems(jsonc, items.tail, trailing, closer, rest);
      if items.tail.Item? {
        ValueOpens(jsonc, items.tail.head, (if items.tail.tail.NoItems? then [] else [COMMA_TOKEN])
                                           + ItemTokens(jsonc, items.tail.tail, end));
      }
      DropSeparator(items.tail.NoItems?, after);
      DropValue(jsonc, items.head, (if items.tail.NoItems? then [] else [COMMA_TOKEN]) + after);
    }
  }

  lemma DropKey(key: bytes, value: seq<Token>)
    ensures DropTrailing([Text(key), Punct(COLON)] + value) == [Text(key), Punct(COLON)] + DropTrailing(value)
  {
    DropPush(Punct(COLON), value);
    DropPush(Text(key), [Punct(COLON)] + value);
    assert [Text(key), Punct(COLON)] + value == [Text(key)] + ([Punct(COLON)] + value);
  }

  // The separator after an item or member that has a successor is never a trailing comma.
  lemma DropSeparator(last: bool, after: seq<Token>)
    requires last || !CloserFirst(after)
    ensures DropTrailing((if last then [] else [COMMA_TOKEN]) + after)
         == (if last then [] else [COMMA_TOKEN]) + DropTrailing(after)
  {
    if last {
      assert [] + after == after && [] + DropTrailing(after) == DropTrailing(after);
    } else {
      DropPush(COMMA_TOKEN, after);
    }
  }

  lemma {:induction false} DropMembers(jsonc: bool, members: Members, trailing: bool, closer: byte, rest: seq<Token>)
    requires IsCloser(closer)
    ensures DropTrailing(MemberTokens(jsonc, members, Trailing(jsonc, trailing) + [Punct(closer)] + rest))
         == MemberTokens(false, members, Trailing(false, trailing) + [Punct(closer)] + DropTrailing(rest))
    decreases members, 0
  {
    var end := Trailing(jsonc, trailing) + [Punct(closer)] + rest;
    DropClosing(jsonc, trailing, closer, rest);
    if members.Member? {
      var after := MemberTokens(jsonc, members.rest, end);
      var separator := if members.rest.NoMembers? then [] else [COMMA_TOKEN];
      DropMembers(jsonc, members.rest, trailing, closer, rest);
      DropSeparator(members.rest.NoMembers?, after);
      DropValue(jsonc, members.value, separator + after);
      DropKey(members.key, Tokens(jsonc, members.value, separator + after));
    }
  }

  // ---------------------------------------------------------------- main results

  // For every JSON value, printed with any white space and comments between its tokens and any optional
  // trailing commas, stripJSONC succeeds and its output has exactly the tokens of the plain value.
  lemma StripPreservesMeaning(v: Json, gaps: seq<Gap>, ending: Ending)
    requires ValueOk(v) && GapsOk(gaps) && EndingOk(ending)
    requires |gaps| == |Tokens(true, v, [])|
    ensures var result := StripJSONC(Print(Tokens(true, v, []), gaps, ending));
            result.Ok? && Lex(result.out) == Some(Tokens(false, v, []))
  {
    ValueTokens(true, v, []);
    StripsDocument(Tokens(true, v, []), gaps, ending);
    LexStripped(Tokens(true, v, []), gaps, ending);
    DropValue(true, v, []);
  }

  predicate OnlyWhite(gaps: seq<Gap>, ending: Ending) {
    && (forall i, j :: 0 <= i < |gaps| && 0 <= j < |gaps[i]| ==> gaps[i][j].White?)
    && (forall j :: 0 <= j < |ending.gap| ==> ending.gap[j].White?)
    && ending.comment.None?
  }

  lemma {:induction false} WhiteGapUnchanged(g: Gap)
    requires forall j :: 0 <= j < |g| ==> g[j].White?
    ensures BlankGap(g) == GapBytes(g)
  {
    if g != [] {
      WhiteGapUnchanged(g[1..]);
    }
  }

  predicate NoDrops(tokens: seq<Token>) {
    forall i :: 0 <= i < |tokens| - 1 ==> !(tokens[i] == COMMA_TOKEN && IsCloserToken(tokens[i + 1]))
  }

  lemma {:induction false} NothingToStrip(tokens: seq<Token>, gaps: seq<Gap>, ending: Ending)
    requires |gaps| == |tokens| && OnlyWhite(gaps, ending) && NoDrops(tokens)
    ensures PrintStripped(tokens, gaps, ending) == Print(tokens, gaps, ending)
    decreases |tokens|
  {
    if tokens == [] {
      WhiteGapUnchanged(ending.gap);
    } else {
      WhiteGapUnchanged(gaps[0]);
      assert forall i, j :: 0 <= i < |gaps[1..]| && 0 <= j < |gaps[1..][i]| ==> gaps[1..][i][j] == gaps[i + 1][j];
      NothingToStrip(tokens[1..], gaps[1..], ending);
    }
  }

  lemma {:induction false} DropLength(tokens: seq<Token>)
    ensures |DropTrailing(tokens)| <= |tokens|
    ensures |DropTrailing(tokens)| == |tokens| ==> NoDrops(tokens)
  {
    if tokens != [] {
      DropLength(tokens[1..]);
      if |DropTrailing(tokens)| == |tokens| {
        forall i | 0 <= i < |tokens| - 1
          ensures !(tokens[i] == COMMA_TOKEN && IsCloserToken(tokens[i + 1]))
        {
          if i > 0 {
            assert tokens[1..][i - 1] == tokens[i] && tokens[1..][i] == tokens[i + 1];
          }
        }
      }
    }
  }

  // Plain JSON text, with any white space, comes back byte for byte.
  lemma PlainTextIsFixed(v: Json, gaps: seq<Gap>, ending: Ending)
    requires ValueOk(v) && GapsOk(gaps) && EndingOk(ending) && OnlyWhite(gaps, ending)
    requires |gaps| == |Tokens(false, v, [])|
    ensures var text := Print(Tokens(false, v, []), gaps, ending);
            StripJSONC(text) == Ok(text) && Lex(text) == Some(Tokens(false, v, []))
  {
    var tokens := Tokens(false, v, []);
    ValueTokens(false, v, []);
    DropValue(false, v, []);
    DropLength(tokens);
    NothingToStrip(tokens, gaps, ending);
    StripsDocument(tokens, gaps, ending);
    LexStripped(tokens, gaps, ending);
  }
}
