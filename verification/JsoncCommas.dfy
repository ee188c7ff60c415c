// Second pass of stripJSONC: a comma is dropped when the next non-blank byte closes an object or array.
module JsoncCommas {
  import opened Common
  import opened JsoncComments

  const COMMA: byte := 44
  const COLON: byte := 58
  const LBRACKET: byte := 91
  const RBRACKET: byte := 93
  const LBRACE: byte := 123
  const RBRACE: byte := 125

  predicate IsJSONWhitespace(b: byte) {
    b == SPACE || b == TAB || b == LF || b == CR
  }

  predicate IsCloser(b: byte) {
    b == RBRACE || b == RBRACKET
  }

  // The first byte that is not white space exists and is a closer.
  predicate ClosesNext(s: bytes) {
    s != [] && (if IsJSONWhitespace(s[0]) then ClosesNext(s[1..]) else IsCloser(s[0]))
  }

  // The pass as a function of the text still to read; there are no comments any more.
  function DropCommas(mode: Mode, s: bytes): bytes
    decreases |s|
  {
    if s == [] then []
    else if mode.Str? then [s[0]] + DropCommas(AfterStringByte(mode.escaped, s[0]), s[1..])
    else if s[0] == QUOTE then [s[0]] + DropCommas(Str(false), s[1..])
    else if s[0] == COMMA && ClosesNext(s[1..]) then DropCommas(Code, s[1..])
    else [s[0]] + DropCommas(Code, s[1..])
  }

  // Copying one byte moves the loop one index on.
  lemma Copy(out: bytes, data: bytes, i: nat, mode: Mode)
    requires i < |data|
    ensures data[i..][1..] == data[i + 1..]
    ensures out + ([data[i]] + DropCommas(mode, data[i..][1..])) == (out + [data[i]]) + DropCommas(mode, data[i + 1..])
  {
    assert data[i..][1..] == data[i + 1..];
  }

  // The lookahead loop behind a comma.
  method LooksAheadToCloser(data: bytes, start: nat) returns (closes: bool)
    requires start <= |data|
    ensures closes == ClosesNext(data[start..])
  {
    var j := start;
    while j < |data| && IsJSONWhitespace(data[j])
      invariant start <= j <= |data|
      invariant ClosesNext(data[start..]) == ClosesNext(data[j..])
    {
      assert data[j..][1..] == data[j + 1..];
      j := j + 1;
    }
    return j < |data| && (data[j] == RBRACE || data[j] == RBRACKET);
  }

  method StripJSONCTrailingCommas(data: bytes) returns (out: bytes)
    ensures out == DropCommas(Code, data)
  {
    out := [];
    var inString, escaped := false, false;
    var i := 0;
    assert data[0..] == data;
    while i < |data|
      invariant 0 <= i <= |data|
      invariant !inString ==> !escaped
      invariant DropCommas(Code, data) == out + DropCommas(if inString then Str(escaped) else Code, data[i..])
    {
      var ch := data[i];
      if inString {
        Copy(out, data, i, AfterStringByte(escaped, ch));
        out := out + [ch];
        i := i + 1;
        if escaped {
          escaped := false;
          continue;
        }
        if ch == BACKSLASH {
          escaped := true;
          continue;
        }
        if ch == QUOTE {
          inString := false;
        }
        continue;
      }
      Copy(out, data, i, if ch == QUOTE then Str(false) else Code);
      i := i + 1;
      if ch == QUOTE {
        inString := true;
        out := out + [ch];
        continue;
      }
      if ch == COMMA {
        var closes := LooksAheadToCloser(data, i);
        if closes {
          continue;
        }
      }
      out := out + [ch];
    }
  }

  // stripJSONC: both passes.
  function StripJSONC(data: bytes): Result {
    match StripComments(data)
    case Ok(withoutComments) => Ok(DropCommas(Code, withoutComments))
    case failure => failure
  }
}
