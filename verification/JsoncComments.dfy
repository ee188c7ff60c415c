// First pass of stripJSONC: comments become blanks, strings are copied, everything keeps its index.
module JsoncComments {
  import opened Common

  const QUOTE: byte := 34
  const BACKSLASH: byte := 92
  const SLASH: byte := 47
  const STAR: byte := 42
  const SPACE: byte := 32
  const TAB: byte := 9
  const LF: byte := 10
  const CR: byte := 13

  predicate IsNewline(b: byte) {
    b == LF || b == CR
  }

  datatype Result = Ok(out: bytes) | UnterminatedString | UnterminatedBlockComment

  function Prepend(front: bytes, r: Result): Result {
    if r.Ok? then Ok(front + r.out) else r
  }

  // What the scanner is inside of.
  datatype Mode = Code | Str(escaped: bool) | Line | Block

  function Blanked(b: byte): byte {
    if IsNewline(b) then b else SPACE
  }

  // String state after one byte of a string.
  function AfterStringByte(escaped: bool, b: byte): Mode {
    if escaped then Str(false)
    else if b == BACKSLASH then Str(true)
    else if b == QUOTE then Code
    else Str(false)
  }

  // The pass as a function of the text still to read.
  function Strip(mode: Mode, s: bytes): Result
    decreases |s|
  {
    match mode
    case Code =>
      if s == [] then Ok([])
      else if s[0] == QUOTE then Prepend([QUOTE], Strip(Str(false), s[1..]))
      else if |s| > 1 && s[0] == SLASH && s[1] == SLASH then Prepend([SPACE, SPACE], Strip(Line, s[2..]))
      else if |s| > 1 && s[0] == SLASH && s[1] == STAR then Prepend([SPACE, SPACE], Strip(Block, s[2..]))
      else Prepend([s[0]], Strip(Code, s[1..]))
    case Str(escaped) =>
      if s == [] then UnterminatedString
      else Prepend([s[0]], Strip(AfterStringByte(escaped, s[0]), s[1..]))
    case Line =>
      if s == [] then Ok([])
      else Prepend([Blanked(s[0])], Strip(if IsNewline(s[0]) then Code else Line, s[1..]))
    case Block =>
      if s == [] then UnterminatedBlockComment
      else if |s| > 1 && s[0] == STAR && s[1] == SLASH then Prepend([SPACE, SPACE], Strip(Code, s[2..]))
      else Prepend([Blanked(s[0])], Strip(Block, s[1..]))
  }

  function StripComments(data: bytes): Result {
    Strip(Code, data)
  }

  lemma PrependPrepend(a: bytes, b: bytes, r: Result)
    ensures Prepend(a, Prepend(b, r)) == Prepend(a + b, r)
  {
    if r.Ok? {
      assert a + (b + r.out) == a + b + r.out;
    }
  }

  lemma PrependFails(front: bytes, r: Result, out: bytes)
    requires Prepend(front, r) == Prepend(out, UnterminatedBlockComment)
    ensures r == UnterminatedBlockComment
  {
  }

  // Consuming the first n bytes of data[i..] in one move of the scanner.
  lemma Advance(out: bytes, piece: bytes, mode: Mode, data: bytes, i: nat, n: nat)
    requires i + n <= |data|
    ensures data[i..][n..] == data[i + n..]
    ensures Prepend(out, Prepend(piece, Strip(mode, data[i..][n..])))
         == Prepend(out + piece, Strip(mode, data[i + n..]))
  {
    assert data[i..][n..] == data[i + n..];
    PrependPrepend(out, piece, Strip(mode, data[i + n..]));
  }

  // One move of the outer loop: inside a string, into one, into a comment, or over any other byte.
  lemma OverStringByte(out: bytes, escaped: bool, data: bytes, i: nat)
    requires i < |data|
    ensures Prepend(out, Strip(Str(escaped), data[i..]))
         == Prepend(out + [data[i]], Strip(AfterStringByte(escaped, data[i]), data[i + 1..]))
  {
    Advance(out, [data[i]], AfterStringByte(escaped, data[i]), data, i, 1);
  }

  lemma OverCodeByte(out: bytes, data: bytes, i: nat)
    requires i < |data|
    requires data[i] == SLASH && i + 1 < |data| ==> data[i + 1] != SLASH && data[i + 1] != STAR
    ensures Prepend(out, Strip(Code, data[i..]))
         == Prepend(out + [data[i]], Strip(if data[i] == QUOTE then Str(false) else Code, data[i + 1..]))
  {
    Advance(out, [data[i]], if data[i] == QUOTE then Str(false) else Code, data, i, 1);
  }

  lemma IntoComment(out: bytes, data: bytes, i: nat)
    requires i + 1 < |data| && data[i] == SLASH && (data[i + 1] == SLASH || data[i + 1] == STAR)
    ensures Prepend(out, Strip(Code, data[i..]))
         == Prepend(out + [SPACE, SPACE], Strip(if data[i + 1] == SLASH then Line else Block, data[i + 2..]))
  {
    Advance(out, [SPACE, SPACE], if data[i + 1] == SLASH then Line else Block, data, i, 2);
  }

  lemma AtTheEnd(out: bytes, escaped: bool, data: bytes)
    ensures Prepend(out, Strip(Code, data[|data|..])) == Ok(out)
    ensures Prepend(out, Strip(Str(escaped), data[|data|..])) == UnterminatedString
    ensures Prepend(out, UnterminatedBlockComment) == UnterminatedBlockComment
  {
  }

  lemma AtTheStart(data: bytes)
    ensures StripComments(data) == Prepend([], Strip(Code, data[0..]))
  {
    assert data[0..] == data;
    if Strip(Code, data).Ok? {
      assert [] + Strip(Code, data).out == Strip(Code, data).out;
    }
  }

  // Inner loop over a line comment; stops on its newline or at the end of the data.
  method BlankLineComment(data: bytes, start: nat, front: bytes) returns (i: nat, out: bytes)
    requires start <= |data|
    ensures start <= i <= |data|
    ensures i < |data| ==> IsNewline(data[i])
    ensures Prepend(front, Strip(Line, data[start..]))
         == Prepend(out, Strip(Code, data[if i < |data| then i + 1 else i..]))
  {
    i, out := start, front;
    while i < |data|
      invariant start <= i <= |data|
      invariant Prepend(front, Strip(Line, data[start..])) == Prepend(out, Strip(Line, data[i..]))
    {
      Advance(out, [Blanked(data[i])], if IsNewline(data[i]) then Code else Line, data, i, 1);
      if data[i] == LF || data[i] == CR {
        out := out + [data[i]];
        break;
      }
      out := out + [SPACE];
      i := i + 1;
    }
  }

  // Inner loop over a block comment; stops on the slash that closes it.
  method BlankBlockComment(data: bytes, start: nat, front: bytes) returns (i: nat, out: bytes, closed: bool)
    requires start <= |data|
    ensures closed ==> start <= i < |data|
    ensures closed ==> Prepend(front, Strip(Block, data[start..])) == Prepend(out, Strip(Code, data[i + 1..]))
    ensures !closed ==> Strip(Block, data[start..]) == UnterminatedBlockComment
  {
    hide Prepend;
    i, out, closed := start, front, false;
    while i < |data|
      invariant start <= i <= |data|
      invariant !closed
      invariant Prepend(front, Strip(Block, data[start..])) == Prepend(out, Strip(Block, data[i..]))
    {
      if data[i] == STAR && i + 1 < |data| && data[i + 1] == SLASH {
        Advance(out, [SPACE, SPACE], Code, data, i, 2);
        out := out + [SPACE, SPACE];
        i := i + 1;
        closed := true;
        break;
      }
      Advance(out, [Blanked(data[i])], Block, data, i, 1);
      if data[i] == LF || data[i] == CR {
        out := out + [data[i]];
      } else {
        out := out + [SPACE];
      }
      i := i + 1;
    }
    if !closed {
      assert data[i..] == [];
      PrependFails(front, Strip(Block, data[start..]), out);
    }
  }

  // The outer loop of stripJSONCComments.
  method StripJSONCComments(data: bytes) returns (result: Result)
    ensures result == StripComments(data)
  {
    var out: bytes := [];
    var inString, escaped := false, false;
    var i := 0;
    hide Prepend, Strip, StripComments;
    AtTheStart(data);
    while i < |data|
      invariant 0 <= i <= |data|
      invariant !inString ==> !escaped
      invariant StripComments(data) == Prepend(out, Strip(if inString then Str(escaped) else Code, data[i..]))
    {
      var ch := data[i];
      if inString {
        OverStringByte(out, escaped, data, i);
        out := out + [ch];
        i := i + 1;
        if escaped {
          escaped := false;
          continue;
        }
        if ch == BACKSLASH {
          escaped := true;
          continue;
        }
        if ch == QUOTE {
          inString := false;
        }
        continue;
      }
      if ch == QUOTE {
        OverCodeByte(out, data, i);
        inString := true;
        out := out + [ch];
        i := i + 1;
        continue;
      }
      if ch == SLASH && i + 1 < |data| {
        var next := data[i + 1];
        if next == SLASH {
          IntoComment(out, data, i);
          i, out := BlankLineComment(data, i + 2, out + [SPACE, SPACE]);
          if i < |data| {
            i := i + 1;
          }
          continue;
        }
        if next == STAR {
          IntoComment(out, data, i);
          ghost var blanked := out + [SPACE, SPACE];
          var closed;
          i, out, closed := BlankBlockComment(data, i + 2, out + [SPACE, SPACE]);
          if !closed {
            AtTheEnd(blanked, false, data);
            return UnterminatedBlockComment;
          }
          i := i + 1;
          continue;
        }
      }
      OverCodeByte(out, data, i);
      out := out + [ch];
      i := i + 1;
    }
    AtTheEnd(out, escaped, data);
    if inString {
      return UnterminatedString;
    }
    return Ok(out);
  }

  // ---------------------------------------------------------------- reference lexer

  // An independent description: a byte-at-a-time lexer with one byte of lookahead.
  datatype LexMode =
    | InCode
    | InString(escaped: bool)
    | LineOpening   // on the second slash
    | InLine
    | BlockOpening  // on the star after the slash
    | InBlock
    | BlockClosing  // on the slash after the star

  predicate Peeks(data: bytes, i: nat, b: byte) {
    i < |data| && data[i] == b
  }

  // The mode after byte i, given the mode before it.
  function LexStep(mode: LexMode, data: bytes, i: nat): LexMode
    requires i < |data|
  {
    match mode
    case InCode =>
      if data[i] == QUOTE then InString(false)
      else if data[i] == SLASH && Peeks(data, i + 1, SLASH) then LineOpening
      else if data[i] == SLASH && Peeks(data, i + 1, STAR) then BlockOpening
      else InCode
    case InString(escaped) =>
      if escaped then InString(false)
      else if data[i] == BACKSLASH then InString(true)
      else if data[i] == QUOTE then InCode
      else InString(false)
    case LineOpening => InLine
    case InLine => if IsNewline(data[i]) then InCode else InLine
    case BlockOpening => InBlock
    case InBlock => if data[i] == STAR && Peeks(data, i + 1, SLASH) then BlockClosing else InBlock
    case BlockClosing => InCode
  }

  // The mode before byte i.
  function ModeAt(data: bytes, i: nat): LexMode
    requires i <= |data|
  {
    if i == 0 then InCode else LexStep(ModeAt(data, i - 1), data, i - 1)
  }

  predicate InComment(data: bytes, i: nat)
    requires i < |data|
  {
    match ModeAt(data, i)
    case InCode => LexStep(InCode, data, i).LineOpening? || LexStep(InCode, data, i).BlockOpening?
    case InString(_) => false
    case _ => true
  }

  function Masked(data: bytes, i: nat): byte
    requires i < |data|
  {
    if InComment(data, i) then Blanked(data[i]) else data[i]
  }

  function AsLexMode(mode: Mode): LexMode {
    match mode
    case Code => InCode
    case Str(escaped) => InString(escaped)
    case Line => InLine
    case Block => InBlock
  }

  // What the pass must return for the bytes from index i on.
  ghost predicate FollowsLexer(data: bytes, i: nat, r: Result)
    requires i <= |data|
  {
    match r
    case Ok(out) =>
      && !ModeAt(data, |data|).InString? && !ModeAt(data, |data|).InBlock?
      && |out| == |data| - i
      && forall k :: i <= k < |data| ==> out[k - i] == Masked(data, k)
    case UnterminatedString => ModeAt(data, |data|).InString?
    case UnterminatedBlockComment => ModeAt(data, |data|).InBlock?
  }

  lemma PrependFollows(data: bytes, i: nat, n: nat, piece: bytes, r: Result)
    requires i + n <= |data| && |piece| == n && FollowsLexer(data, i + n, r)
    requires forall k :: 0 <= k < n ==> piece[k] == Masked(data, i + k)
    ensures FollowsLexer(data, i, Prepend(piece, r))
  {
    if r.Ok? {
      var out := piece + r.out;
      forall k | i <= k < |data|
        ensures out[k - i] == Masked(data, k)
      {
        if k < i + n {
          assert piece[k - i] == Masked(data, i + (k - i));
        } else {
          assert out[k - i] == r.out[k - (i + n)];
        }
      }
    }
  }

  // The three two-byte moves: opening a comment and closing a block comment.
  lemma TwoBytesFollow(data: bytes, i: nat, mode: Mode, inner: Mode)
    requires i + 1 < |data| && ModeAt(data, i) == AsLexMode(mode)
    requires || (mode == Code && data[i] == SLASH && data[i + 1] == SLASH && inner == Line)
             || (mode == Code && data[i] == SLASH && data[i + 1] == STAR && inner == Block)
             || (mode == Block && data[i] == STAR && data[i + 1] == SLASH && inner == Code)
    ensures ModeAt(data, i + 2) == AsLexMode(inner)
    ensures Masked(data, i) == SPACE && Masked(data, i + 1) == SPACE
  {
    assert ModeAt(data, i + 1) == LexStep(ModeAt(data, i), data, i);
    assert ModeAt(data, i + 2) == LexStep(ModeAt(data, i + 1), data, i + 1);
  }

  // Every other move takes one byte.
  function OneByteMode(mode: Mode, b: byte): Mode {
    match mode
    case Code => if b == QUOTE then Str(false) else Code
    case Str(escaped) => AfterStringByte(escaped, b)
    case Line => if IsNewline(b) then Code else Line
    case Block => Block
  }

  predicate TwoByteMove(mode: Mode, s: bytes) {
    && |s| > 1
    && ((mode.Code? && s[0] == SLASH && (s[1] == SLASH || s[1] == STAR))
        || (mode.Block? && s[0] == STAR && s[1] == SLASH))
  }

  function TwoByteMode(mode: Mode, s: bytes): Mode
    requires TwoByteMove(mode, s)
  {
    if mode.Block? then Code else if s[1] == SLASH then Line else Block
  }

  lemma TwoByteStrip(mode: Mode, s: bytes)
    requires TwoByteMove(mode, s)
    ensures Strip(mode, s) == Prepend([SPACE, SPACE], Strip(TwoByteMode(mode, s), s[2..]))
  {
  }

  lemma OneByteFollows(data: bytes, i: nat, mode: Mode)
    requires i < |data| && ModeAt(data, i) == AsLexMode(mode) && !TwoByteMove(mode, data[i..])
    ensures ModeAt(data, i + 1) == AsLexMode(OneByteMode(mode, data[i]))
    ensures Strip(mode, data[i..]) == Prepend([Masked(data, i)], Strip(OneByteMode(mode, data[i]), data[i..][1..]))
  {
    assert Peeks(data, i + 1, SLASH) <==> |data[i..]| > 1 && data[i..][1] == SLASH;
    assert Peeks(data, i + 1, STAR) <==> |data[i..]| > 1 && data[i..][1] == STAR;
  }

  lemma {:induction false} StripFollowsLexer(data: bytes, i: nat, mode: Mode)
    requires i <= |data| && ModeAt(data, i) == AsLexMode(mode)
    ensures FollowsLexer(data, i, Strip(mode, data[i..]))
    decreases |data| - i
  {
    hide Prepend, LexStep, Masked, ModeAt;
    var s := data[i..];
    if i == |data| {
      assert s == [];
    } else if TwoByteMove(mode, s) {
      TwoByteStrip(mode, s);
      var inner := TwoByteMode(mode, s);
      TwoBytesFollow(data, i, mode, inner);
      assert s[2..] == data[i + 2..];
      StripFollowsLexer(data, i + 2, inner);
      PrependFollows(data, i, 2, [SPACE, SPACE], Strip(inner, data[i + 2..]));
    } else {
      OneByteFollows(data, i, mode);
      assert s[1..] == data[i + 1..];
      StripFollowsLexer(data, i + 1, OneByteMode(mode, data[i]));
      PrependFollows(data, i, 1, [Masked(data, i)], Strip(OneByteMode(mode, data[i]), data[i + 1..]));
    }
  }

  // The pass succeeds exactly when the lexer does not end inside a string or a block comment, and then
  // keeps the length, every byte outside comments and every CR and LF at its index, and turns every
  // other comment byte into a space.
  lemma StripRefinesLexer(data: bytes)
    ensures FollowsLexer(data, 0, StripComments(data))
    ensures StripComments(data).Ok? ==>
              forall i :: 0 <= i < |data| && (!InComment(data, i) || data[i] == LF || data[i] == CR) ==>
                StripComments(data).out[i] == data[i]
  {
    assert data[0..] == data;
    StripFollowsLexer(data, 0, Code);
    if StripComments(data).Ok? {
      forall i | 0 <= i < |data|
        ensures StripComments(data).out[i] == Masked(data, i)
      {
        assert StripComments(data).out[i - 0] == Masked(data, i);
      }
    }
  }

  // ---------------------------------------------------------------- idempotence

  lemma FirstByte(s: bytes)
    requires s != [] && Strip(Code, s).Ok?
    ensures Strip(Code, s).out != []
    ensures Strip(Code, s).out[0] == s[0] || Strip(Code, s).out[0] == SPACE
  {
  }

  lemma {:induction false} StripTwice(mode: Mode, s: bytes)
    requires Strip(mode, s).Ok?
    ensures Strip(if mode.Str? then mode else Code, Strip(mode, s).out) == Strip(mode, s)
    decreases |s|
  {
    var out := Strip(mode, s).out;
    if s != [] {
      if mode.Code? && |s| > 1 && s[0] == SLASH && (s[1] == SLASH || s[1] == STAR) {
        StripTwice(if s[1] == SLASH then Line else Block, s[2..]);
        assert out[1..][1..] == out[2..];
        BlankFront(out[1..]);
        BlankFront(out);
      } else if mode.Block? && |s| > 1 && s[0] == STAR && s[1] == SLASH {
        StripTwice(Code, s[2..]);
        assert out[1..][1..] == out[2..];
        BlankFront(out[1..]);
        BlankFront(out);
      } else if mode.Code? {
        StripTwice(if s[0] == QUOTE then Str(false) else Code, s[1..]);
        if s[0] != QUOTE && |s| > 1 {
          FirstByte(s[1..]);
        }
        assert out == [s[0]] + out[1..];
      } else if mode.Str? {
        StripTwice(AfterStringByte(mode.escaped, s[0]), s[1..]);
        assert out == [s[0]] + out[1..];
      } else {
        StripTwice(if mode.Line? && IsNewline(s[0]) then Code else mode, s[1..]);
        BlankFront(out);
      }
    }
  }

  // A leading space or newline is copied.
  lemma BlankFront(s: bytes)
    requires s != [] && (s[0] == SPACE || IsNewline(s[0]))
    ensures Strip(Code, s) == Prepend([s[0]], Strip(Code, s[1..]))
    ensures Strip(Code, s[1..]) == Ok(s[1..]) ==> Strip(Code, s) == Ok(s)
  {
  }

  lemma StripCommentsIdempotent(data: bytes)
    requires StripComments(data).Ok?
    ensures StripComments(StripComments(data).out) == StripComments(data)
  {
    StripTwice(Code, data);
  }
}
