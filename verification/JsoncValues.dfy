// Tokens determine values: two printings that strip to the same tokens are printings of the same value.
module JsoncValues {
  import opened JsoncCommas
  import opened JsoncMeaning

  // The value itself, without the printer's choice of trailing commas.
  function Plain(v: Json): Json {
    match v
    case Scalar(_) => v
    case String(_) => v
    case Array(items, _) => Array(PlainItems(items), false)
    case Object(members, _) => Object(PlainMembers(members), false)
  }

  function PlainItems(items: Items): Items {
    match items
    case NoItems => NoItems
    case Item(head, tail) => Item(Plain(head), PlainItems(tail))
  }

  function PlainMembers(members: Members): Members {
    match members
    case NoMembers => NoMembers
    case Member(key, value, rest) => Member(key, Plain(value), PlainMembers(rest))
  }

  lemma Uncons(t: Token, xs: seq<Token>, u: Token, ys: seq<Token>)
    requires [t] + xs == [u] + ys
    ensures t == u && xs == ys
  {
    assert ([t] + xs)[0] == t && ([u] + ys)[0] == u;
    assert ([t] + xs)[1..] == xs && ([u] + ys)[1..] == ys;
  }

  // The first token of a value, which tells its kind.
  function Opening(v: Json): Token {
    match v
    case Scalar(body) => Atom(body)
    case String(body) => Text(body)
    case Array(_, _) => Punct(LBRACKET)
    case Object(_, _) => Punct(LBRACE)
  }

  // The tokens after it.
  function Inside(v: Json, rest: seq<Token>): seq<Token> {
    match v
    case Scalar(_) => rest
    case String(_) => rest
    case Array(items, _) => ItemTokens(false, items, [Punct(RBRACKET)] + rest)
    case Object(members, _) => MemberTokens(false, members, [Punct(RBRACE)] + rest)
  }

  lemma TokensOpen(v: Json, rest: seq<Token>)
    ensures Tokens(false, v, rest) == [Opening(v)] + Inside(v, rest)
  {
    assert [] + [Punct(RBRACKET)] + rest == [Punct(RBRACKET)] + rest;
    assert [] + [Punct(RBRACE)] + rest == [Punct(RBRACE)] + rest;
  }

  lemma {:induction false} ValueDetermined(a: Json, x: seq<Token>, b: Json, y: seq<Token>)
    requires Tokens(false, a, x) == Tokens(false, b, y)
    ensures Plain(a) == Plain(b) && x == y
    decreases a, 1
  {
    TokensOpen(a, x);
    TokensOpen(b, y);
    Uncons(Opening(a), Inside(a, x), Opening(b), Inside(b, y));
    match a
    case Scalar(_) =>
    case String(_) =>
    case Array(items, _) => ItemsDetermined(items, x, b.items, y);
    case Object(members, _) => MembersDetermined(members, x, b.members, y);
  }

  // The separator after a value that has or has not a successor, and what follows it.
  function AfterItem(tail: Items, rest: seq<Token>): seq<Token> {
    if tail.NoItems? then rest else [COMMA_TOKEN] + ItemTokens(false, tail, rest)
  }

  function AfterMember(others: Members, rest: seq<Token>): seq<Token> {
    if others.NoMembers? then rest else [COMMA_TOKEN] + MemberTokens(false, others, rest)
  }

  lemma ItemsOpen(items: Items, rest: seq<Token>)
    requires items.Item?
    ensures ItemTokens(false, items, rest) == Tokens(false, items.head, AfterItem(items.tail, rest))
  {
    assert [] + ItemTokens(false, items.tail, rest) == ItemTokens(false, items.tail, rest);
  }

  lemma MembersOpen(members: Members, rest: seq<Token>)
    requires members.Member?
    ensures MemberTokens(false, members, rest)
         == [Text(members.key)] + ([Punct(COLON)] + Tokens(false, members.value, AfterMember(members.rest, rest)))
  {
    assert [] + MemberTokens(false, members.rest, rest) == MemberTokens(false, members.rest, rest);
    var value := Tokens(false, members.value, AfterMember(members.rest, rest));
    assert [Text(members.key), Punct(COLON)] + value == [Text(members.key)] + ([Punct(COLON)] + value);
  }

  // An empty list is followed by its closer, any other starts with a value.
  lemma ItemsStart(items: Items, rest: seq<Token>)
    ensures var tokens := ItemTokens(false, items, [Punct(RBRACKET)] + rest);
            tokens != [] && (items.NoItems? <==> tokens[0] == Punct(RBRACKET))
  {
    if items.Item? {
      ItemsOpen(items, [Punct(RBRACKET)] + rest);
      TokensOpen(items.head, AfterItem(items.tail, [Punct(RBRACKET)] + rest));
    }
  }

  lemma MembersStart(members: Members, rest: seq<Token>)
    ensures var tokens := MemberTokens(false, members, [Punct(RBRACE)] + rest);
            tokens != [] && (members.NoMembers? <==> tokens[0] == Punct(RBRACE))
  {
    if members.Member? {
      MembersOpen(members, [Punct(RBRACE)] + rest);
    }
  }

  lemma {:induction false} ItemsDetermined(a: Items, x: seq<Token>, b: Items, y: seq<Token>)
    requires ItemTokens(false, a, [Punct(RBRACKET)] + x) == ItemTokens(false, b, [Punct(RBRACKET)] + y)
    ensures PlainItems(a) == PlainItems(b) && x == y
    decreases a, 0
  {
    var xs, ys := [Punct(RBRACKET)] + x, [Punct(RBRACKET)] + y;
    ItemsStart(a, x);
    ItemsStart(b, y);
    if a.NoItems? {
      Uncons(Punct(RBRACKET), x, Punct(RBRACKET), y);
    } else {
      ItemsOpen(a, xs);
      ItemsOpen(b, ys);
      ValueDetermined(a.head, AfterItem(a.tail, xs), b.head, AfterItem(b.tail, ys));
      ItemTailsDetermined(a.tail, x, b.tail, y);
    }
  }

  lemma {:induction false} ItemTailsDetermined(a: Items, x: seq<Token>, b: Items, y: seq<Token>)
    requires AfterItem(a, [Punct(RBRACKET)] + x) == AfterItem(b, [Punct(RBRACKET)] + y)
    ensures PlainItems(a) == PlainItems(b) && x == y
    decreases a, 1
  {
    var xs, ys := [Punct(RBRACKET)] + x, [Punct(RBRACKET)] + y;
    Uncons(if a.NoItems? then Punct(RBRACKET) else COMMA_TOKEN, if a.NoItems? then x else ItemTokens(false, a, xs),
           if b.NoItems? then Punct(RBRACKET) else COMMA_TOKEN, if b.NoItems? then y else ItemTokens(false, b, ys));
    if a.Item? {
      ItemsDetermined(a, x, b, y);
    }
  }

  lemma {:induction false} MembersDetermined(a: Members, x: seq<Token>, b: Members, y: seq<Token>)
    requires MemberTokens(false, a, [Punct(RBRACE)] + x) == MemberTokens(false, b, [Punct(RBRACE)] + y)
    ensures PlainMembers(a) == PlainMembers(b) && x == y
    decreases a, 0
  {
    var xs, ys := [Punct(RBRACE)] + x, [Punct(RBRACE)] + y;
    MembersStart(a, x);
    MembersStart(b, y);
    if a.NoMembers? {
      Uncons(Punct(RBRACE), x, Punct(RBRACE), y);
    } else {
      MembersOpen(a, xs);
      MembersOpen(b, ys);
      var v, w := Tokens(false, a.value, AfterMember(a.rest, xs)), Tokens(false, b.value, AfterMember(b.rest, ys));
      Uncons(Text(a.key), [Punct(COLON)] + v, Text(b.key), [Punct(COLON)] + w);
      Uncons(Punct(COLON), v, Punct(COLON), w);
      ValueDetermined(a.value, AfterMember(a.rest, xs), b.value, AfterMember(b.rest, ys));
      MemberTailsDetermined(a.rest, x, b.rest, y);
    }
  }

  lemma {:induction false} MemberTailsDetermined(a: Members, x: seq<Token>, b: Members, y: seq<Token>)
    requires AfterMember(a, [Punct(RBRACE)] + x) == AfterMember(b, [Punct(RBRACE)] + y)
    ensures PlainMembers(a) == PlainMembers(b) && x == y
    decreases a, 1
  {
    var xs, ys := [Punct(RBRACE)] + x, [Punct(RBRACE)] + y;
    Uncons(if a.NoMembers? then Punct(RBRACE) else COMMA_TOKEN,
           if a.NoMembers? then x else MemberTokens(false, a, xs),
           if b.NoMembers? then Punct(RBRACE) else COMMA_TOKEN,
           if b.NoMembers? then y else MemberTokens(false, b, ys));
    if a.Member? {
      MembersDetermined(a, x, b, y);
    }
  }

  // ---------------------------------------------------------------- plain tokens

  lemma {:induction false} PlainHasSameTokens(v: Json, rest: seq<Token>)
    ensures Tokens(false, Plain(v), rest) == Tokens(false, v, rest)
    decreases v, 1
  {
    TokensOpen(v, rest);
    TokensOpen(Plain(v), rest);
    match v
    case Scalar(_) =>
    case String(_) =>
    case Array(items, _) => PlainItemsSame(items, [Punct(RBRACKET)] + rest);
    case Object(members, _) => PlainMembersSame(members, [Punct(RBRACE)] + rest);
  }

  lemma {:induction false} PlainItemsSame(items: Items, rest: seq<Token>)
    ensures ItemTokens(false, PlainItems(items), rest) == ItemTokens(false, items, rest)
    decreases items, 0
  {
    if items.Item? {
      ItemsOpen(items, rest);
      ItemsOpen(PlainItems(items), rest);
      PlainItemsSame(items.tail, rest);
      PlainHasSameTokens(items.head, AfterItem(items.tail, rest));
    }
  }

  lemma {:induction false} PlainMembersSame(members: Members, rest: seq<Token>)
    ensures MemberTokens(false, PlainMembers(members), rest) == MemberTokens(false, members, rest)
    decreases members, 0
  {
    if members.Member? {
      MembersOpen(members, rest);
      MembersOpen(PlainMembers(members), rest);
      PlainMembersSame(members.rest, rest);
      PlainHasSameTokens(members.value, AfterMember(members.rest, rest));
    }
  }

  // Two JSONC documents, whatever their comments, white space and trailing commas, strip to texts with
  // the same tokens exactly when they are printings of the same value.
  lemma StripDeterminesValue(a: Json, aGaps: seq<Gap>, aEnding: Ending, b: Json, bGaps: seq<Gap>, bEnding: Ending)
    requires ValueOk(a) && GapsOk(aGaps) && EndingOk(aEnding) && |aGaps| == |Tokens(true, a, [])|
    requires ValueOk(b) && GapsOk(bGaps) && EndingOk(bEnding) && |bGaps| == |Tokens(true, b, [])|
    ensures var x := StripJSONC(Print(Tokens(true, a, []), aGaps, aEnding));
            var y := StripJSONC(Print(Tokens(true, b, []), bGaps, bEnding));
            x.Ok? && y.Ok? && (Lex(x.out) == Lex(y.out) <==> Plain(a) == Plain(b))
  {
    StripPreservesMeaning(a, aGaps, aEnding);
    StripPreservesMeaning(b, bGaps, bEnding);
    PlainHasSameTokens(a, []);
    PlainHasSameTokens(b, []);
    if Tokens(false, a, []) == Tokens(false, b, []) {
      ValueDetermined(a, [], b, []);
    }
  }
}
