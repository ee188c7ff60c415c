// stripJSONC on every input, byte by byte: which inputs it refuses, and what is left of the others.
module JsoncPositions {
  import opened Common
  import opened JsoncComments
  import opened JsoncCommas

  // The masked byte at k is a comma outside strings whose next byte that is not white space, comments
  // counting as white space, closes an object or an array.
  predicate DropsAt(data: bytes, k: nat)
    requires k < |data|
  {
    && Masked(data, k) == COMMA && !ModeAt(data, k).InString?
    && exists j :: k < j < |data| && (Masked(data, j) == RBRACE || Masked(data, j) == RBRACKET)
                   && forall i :: k < i < j ==> Masked(data, i) in {SPACE, TAB, LF, CR}
  }

  // The masked bytes from position k on, without the dropped commas.
  function KeptFrom(data: bytes, k: nat): bytes
    requires k <= |data|
    decreases |data| - k
  {
    if k == |data| then []
    else (if DropsAt(data, k) then [] else [Masked(data, k)]) + KeptFrom(data, k + 1)
  }

  lemma {:induction false} ClosesNextByPosition(s: bytes)
    ensures ClosesNext(s) <==>
              exists j :: 0 <= j < |s| && (s[j] == RBRACE || s[j] == RBRACKET)
                          && forall i :: 0 <= i < j ==> s[i] in {SPACE, TAB, LF, CR}
  {
    if s != [] && IsJSONWhitespace(s[0]) {
      ClosesNextByPosition(s[1..]);
      if ClosesNext(s[1..]) {
        var j :| 0 <= j < |s[1..]| && (s[1..][j] == RBRACE || s[1..][j] == RBRACKET)
                 && forall i :: 0 <= i < j ==> s[1..][i] in {SPACE, TAB, LF, CR};
        forall i | 0 <= i < j + 1
          ensures s[i] in {SPACE, TAB, LF, CR}
        {
          if i > 0 {
            assert s[i] == s[1..][i - 1];
          }
        }
        assert s[j + 1] == s[1..][j];
      }
      if j :| 0 <= j < |s| && (s[j] == RBRACE || s[j] == RBRACKET)
              && forall i :: 0 <= i < j ==> s[i] in {SPACE, TAB, LF, CR} {
        assert s[1..][j - 1] == s[j];
        forall i | 0 <= i < j - 1
          ensures s[1..][i] in {SPACE, TAB, LF, CR}
        {
          assert s[1..][i] == s[i + 1];
        }
      }
    } else if s != [] && IsCloser(s[0]) {
      assert s[0] == RBRACE || s[0] == RBRACKET;
    }
  }

  ghost predicate IsMasked(data: bytes, out: bytes) {
    |out| == |data| && forall k :: 0 <= k < |data| ==> out[k] == Masked(data, k)
  }

  lemma DropsExactly(data: bytes, out: bytes, k: nat)
    requires IsMasked(data, out) && k < |data| && !ModeAt(data, k).InString?
    ensures DropsAt(data, k) <==> out[k] == COMMA && ClosesNext(out[k + 1..])
  {
    hide Masked, ModeAt;
    var s := out[k + 1..];
    ClosesNextByPosition(s);
    assert forall j :: 0 <= j < |s| ==> s[j] == Masked(data, k + 1 + j);
    if out[k] == COMMA && ClosesNext(s) {
      var j :| 0 <= j < |s| && (s[j] == RBRACE || s[j] == RBRACKET)
               && forall i :: 0 <= i < j ==> s[i] in {SPACE, TAB, LF, CR};
      forall i | k < i < k + 1 + j
        ensures Masked(data, i) in {SPACE, TAB, LF, CR}
      {
        assert s[i - k - 1] == Masked(data, i);
      }
      assert Masked(data, k + 1 + j) == s[j];
    }
    if DropsAt(data, k) {
      var j :| k < j < |data| && (Masked(data, j) == RBRACE || Masked(data, j) == RBRACKET)
               && forall i :: k < i < j ==> Masked(data, i) in {SPACE, TAB, LF, CR};
      assert s[j - k - 1] == Masked(data, j);
    }
  }

  // The mode of the second pass over the masked text, from the lexer's mode on the original.
  function SecondMode(mode: LexMode): Mode {
    match mode
    case InString(escaped) => Str(escaped)
    case _ => Code
  }

  lemma OneByteOn(data: bytes, k: nat)
    requires k < |data|
    ensures var mode, next, b := SecondMode(ModeAt(data, k)), SecondMode(ModeAt(data, k + 1)), Masked(data, k);
            next == match mode
                    case Str(escaped) => AfterStringByte(escaped, b)
                    case _ => if b == QUOTE then Str(false) else Code
  {
  }

  lemma {:induction false} DropCommasByPosition(data: bytes, out: bytes, k: nat)
    requires IsMasked(data, out) && k <= |data|
    ensures DropCommas(SecondMode(ModeAt(data, k)), out[k..]) == KeptFrom(data, k)
    decreases |data| - k
  {
    hide Masked, ModeAt, DropsAt;
    if k < |data| {
      var s := out[k..];
      assert s[0] == Masked(data, k) && s[1..] == out[k + 1..];
      DropCommasByPosition(data, out, k + 1);
      OneByteOn(data, k);
      if ModeAt(data, k).InString? {
        StringsAreKept(data, k);
      } else {
        DropsExactly(data, out, k);
        assert [] + KeptFrom(data, k + 1) == KeptFrom(data, k + 1);
      }
    }
  }

  lemma StringsAreKept(data: bytes, k: nat)
    requires k < |data| && ModeAt(data, k).InString?
    ensures !DropsAt(data, k)
  {
  }

  // For every input: which ones are refused, and with which error.
  lemma StripJSONCErrors(data: bytes)
    ensures StripJSONC(data) == UnterminatedString <==> ModeAt(data, |data|).InString?
    ensures StripJSONC(data) == UnterminatedBlockComment <==> ModeAt(data, |data|).InBlock?
    ensures StripJSONC(data).Ok? <==> !ModeAt(data, |data|).InString? && !ModeAt(data, |data|).InBlock?
  {
    hide Masked, ModeAt, DropCommas, StripComments;
    StripRefinesLexer(data);
  }

  // For every input: stripJSONC refuses it exactly when the lexer ends inside a string or inside a block
  // comment, and says which; otherwise it returns the masked bytes in order, without exactly the commas
  // in code before a closer.
  lemma StripJSONCByPosition(data: bytes)
    ensures StripJSONC(data) == UnterminatedString <==> ModeAt(data, |data|).InString?
    ensures StripJSONC(data) == UnterminatedBlockComment <==> ModeAt(data, |data|).InBlock?
    ensures StripJSONC(data).Ok? <==> !ModeAt(data, |data|).InString? && !ModeAt(data, |data|).InBlock?
    ensures StripJSONC(data).Ok? ==> StripJSONC(data).out == KeptFrom(data, 0)
  {
    hide Masked, ModeAt, StripComments;
    StripJSONCErrors(data);
    StripRefinesLexer(data);
    if StripComments(data).Ok? {
      var out := StripComments(data).out;
      forall k | 0 <= k < |data|
        ensures out[k] == Masked(data, k)
      {
        assert out[k - 0] == Masked(data, k);
      }
      assert out[0..] == out;
      DropCommasByPosition(data, out, 0);
      StartsInCode(data);
    }
  }

  lemma StartsInCode(data: bytes)
    ensures ModeAt(data, 0) == InCode
  {
  }

  // The shortest text with an open comment, after an opening brace, is refused.
  lemma OpenCommentIsRefused()
    ensures StripJSONC([LBRACE, SLASH, STAR]) == UnterminatedBlockComment
  {
    var data: bytes := [LBRACE, SLASH, STAR];
    assert ModeAt(data, 1) == InCode;
    assert ModeAt(data, 2) == BlockOpening;
    assert ModeAt(data, 3) == InBlock;
    StripJSONCErrors(data);
  }
}
