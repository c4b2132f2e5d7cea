/** module_tree_check: from the text of a source file to its tokens. */
module ModuleScanner {
  import opened Members

  // ---- comments ----

  /** What the scanner is inside of. */
  datatype Mode = Code | LineComment | BlockComment

  predicate Starts(src: string, a: char, b: char) {
    |src| >= 2 && src[0] == a && src[1] == b
  }

  /** What is left of a text without its comments. */
  function Strip(src: string, mode: Mode): string {
    if src == "" then ""
    else match mode
      case LineComment =>
        if src[0] == '\n' then "\n" + Strip(src[1..], Code) else Strip(src[1..], LineComment)
      case BlockComment =>
        if Starts(src, '*', '/') then Strip(src[2..], Code) else Strip(src[1..], BlockComment)
      case Code =>
        if Starts(src, '/', '/') then Strip(src[2..], LineComment)
        else if Starts(src, '/', '*') then Strip(src[2..], BlockComment)
        else [src[0]] + Strip(src[1..], Code)
  }

  function ModeOf(inLine: bool, inBlock: bool): Mode {
    if inLine then LineComment else if inBlock then BlockComment else Code
  }

  predicate StartsAt(src: string, i: nat, a: char, b: char) {
    i + 1 < |src| && src[i] == a && src[i + 1] == b
  }

  /** One character, or two, from position i on: where the scanner goes on, in which mode, and what it outputs. */
  function Next(src: string, i: nat, mode: Mode): (nat, Mode, string)
    requires i < |src|
  {
    match mode
    case LineComment => if src[i] == '\n' then (i + 1, Code, "\n") else (i + 1, LineComment, "")
    case BlockComment => if StartsAt(src, i, '*', '/') then (i + 2, Code, "") else (i + 1, BlockComment, "")
    case Code =>
      if StartsAt(src, i, '/', '/') then (i + 2, LineComment, "")
      else if StartsAt(src, i, '/', '*') then (i + 2, BlockComment, "")
      else (i + 1, Code, [src[i]])
  }

  lemma StripFrom(src: string, i: nat, mode: Mode)
    requires i < |src|
    ensures var (next, after, output) := Next(src, i, mode);
      i < next <= |src| && Strip(src[i..], mode) == output + Strip(src[next..], after)
  {
    assert src[i..][1..] == src[i + 1..];
    if i + 1 < |src| {
      assert src[i..][2..] == src[i + 2..];
    }
  }

  /** strip_comments: one pass with two flags, one character of lookahead, and an output buffer. */
  method StripComments(src: string) returns (out: string)
    ensures out == Strip(src, Code)
  {
    out := "";
    var inLine, inBlock := false, false;
    var i := 0;
    while i < |src|
      invariant 0 <= i <= |src| && !(inLine && inBlock)
      invariant Strip(src, Code) == out + Strip(src[i..], ModeOf(inLine, inBlock))
    {
      ghost var mode, before := ModeOf(inLine, inBlock), out;
      ghost var step := Next(src, i, mode);
      StripFrom(src, i, mode);
      Reassociate(before, step.2, Strip(src[step.0..], step.1));
      var c := src[i];
      i := i + 1;
      if inLine {
        if c == '\n' {
          inLine := false;
          out := out + ['\n'];
        }
      } else if inBlock {
        if c == '*' && i < |src| && src[i] == '/' {
          i := i + 1;
          inBlock := false;
        }
      } else if c == '/' && i < |src| && src[i] == '/' {
        i := i + 1;
        inLine := true;
      } else if c == '/' && i < |src| && src[i] == '*' {
        i := i + 1;
        inBlock := true;
      } else {
        out := out + [c];
      }
      assert i == step.0 && ModeOf(inLine, inBlock) == step.1 && out == before + step.2;
    }
  }

  /** A text as a programmer writes it: characters of code, line comments with the newline that ends them, and
      block comments. */
  datatype Piece = Plain(c: char) | Line(text: string) | Block(text: string)

  function PieceText(piece: Piece): string {
    match piece
    case Plain(c) => [c]
    case Line(text) => "//" + text + "\n"
    case Block(text) => "/*" + text + "*/"
  }

  function Text(pieces: seq<Piece>): string {
    if pieces == [] then "" else PieceText(pieces[0]) + Text(pieces[1..])
  }

  function PieceCode(piece: Piece): string {
    match piece
    case Plain(c) => [c]
    case Line(_) => "\n"
    case Block(_) => ""
  }

  /** The code, and the newlines of the line comments. */
  function CodeOf(pieces: seq<Piece>): string {
    if pieces == [] then "" else PieceCode(pieces[0]) + CodeOf(pieces[1..])
  }

  ghost predicate EndsNowhereIn(text: string) {
    forall i :: 0 <= i < |text| ==> !Starts((text + "*/")[i..], '*', '/')
  }

  /** A piece is what it says it is, before what follows: a comment does not end early, a code character does not
      start one. */
  ghost predicate IsPiece(piece: Piece, rest: string) {
    match piece
    case Plain(c) => !Starts([c] + rest, '/', '/') && !Starts([c] + rest, '/', '*')
    case Line(text) => '\n' !in text
    case Block(text) => EndsNowhereIn(text)
  }

  /** A last comment that nothing ends, or nothing. */
  ghost predicate IsOpen(tail: string) {
    || tail == ""
    || (Starts(tail, '/', '/') && '\n' !in tail[2..])
    || (Starts(tail, '/', '*') && forall i :: 2 <= i < |tail| ==> !Starts(tail[i..], '*', '/'))
  }

  /** The pieces, and the open comment after them, say where the comments of a text are. */
  ghost predicate Divides(pieces: seq<Piece>, tail: string) {
    if pieces == [] then IsOpen(tail)
    else IsPiece(pieces[0], Text(pieces[1..]) + tail) && Divides(pieces[1..], tail)
  }

  lemma {:induction false} SkipsLine(text: string, rest: string)
    requires '\n' !in text
    ensures Strip(text + "\n" + rest, LineComment) == "\n" + Strip(rest, Code)
  {
    if text == "" {
      assert (text + "\n" + rest)[1..] == rest;
    } else {
      assert (text + "\n" + rest)[1..] == text[1..] + "\n" + rest;
      SkipsLine(text[1..], rest);
    }
  }

  lemma {:induction false} SkipsBlock(text: string, rest: string)
    requires EndsNowhereIn(text)
    ensures Strip(text + "*/" + rest, BlockComment) == Strip(rest, Code)
  {
    var all := text + "*/" + rest;
    if text == "" {
      assert all[2..] == rest;
    } else {
      assert !Starts((text + "*/")[0..], '*', '/');
      assert all[1..] == text[1..] + "*/" + rest;
      forall i | 0 <= i < |text[1..]| ensures !Starts((text[1..] + "*/")[i..], '*', '/') {
        assert (text[1..] + "*/")[i..] == (text + "*/")[i + 1..];
      }
      SkipsBlock(text[1..], rest);
    }
  }

  lemma {:induction false} SkipsOpenLine(text: string)
    requires '\n' !in text
    ensures Strip(text, LineComment) == ""
  {
    if text != "" {
      SkipsOpenLine(text[1..]);
    }
  }

  lemma {:induction false} SkipsOpenBlock(text: string)
    requires forall i :: 0 <= i < |text| ==> !Starts(text[i..], '*', '/')
    ensures Strip(text, BlockComment) == ""
  {
    if text != "" {
      assert text[0..] == text;
      forall i | 0 <= i < |text[1..]| ensures !Starts(text[1..][i..], '*', '/') {
        assert text[1..][i..] == text[i + 1..];
      }
      SkipsOpenBlock(text[1..]);
    }
  }

  lemma OpenStrips(tail: string)
    requires IsOpen(tail)
    ensures Strip(tail, Code) == ""
  {
    if Starts(tail, '/', '/') {
      SkipsOpenLine(tail[2..]);
    } else if Starts(tail, '/', '*') {
      forall i | 0 <= i < |tail[2..]| ensures !Starts(tail[2..][i..], '*', '/') {
        assert tail[2..][i..] == tail[i + 2..];
      }
      SkipsOpenBlock(tail[2..]);
    }
  }

  /** Stripping removes the comments and nothing else, whatever they contain. */
  lemma {:induction false} StripKeepsCode(pieces: seq<Piece>, tail: string)
    requires Divides(pieces, tail)
    ensures Strip(Text(pieces) + tail, Code) == CodeOf(pieces)
  {
    if pieces == [] {
      OpenStrips(tail);
      assert Text(pieces) + tail == tail;
    } else {
      StripKeepsCode(pieces[1..], tail);
      PieceStrips(pieces[0], Text(pieces[1..]) + tail);
      Reassociate(PieceText(pieces[0]), Text(pieces[1..]), tail);
    }
  }

  lemma PieceStrips(piece: Piece, rest: string)
    requires IsPiece(piece, rest)
    ensures Strip(PieceText(piece) + rest, Code) == PieceCode(piece) + Strip(rest, Code)
  {
    match piece
    case Plain(c) =>
      assert ([c] + rest)[1..] == rest;
    case Line(text) =>
      assert ("//" + text + "\n" + rest)[2..] == text + "\n" + rest;
      SkipsLine(text, rest);
    case Block(text) =>
      assert ("/*" + text + "*/" + rest)[2..] == text + "*/" + rest;
      SkipsBlock(text, rest);
  }

  lemma {:induction false} FindNewline(s: string) returns (k: nat)
    requires '\n' in s
    ensures k < |s| && '\n' !in s[..k] && s[k] == '\n'
  {
    if s[0] == '\n' {
      k := 0;
    } else {
      var rest := FindNewline(s[1..]);
      k := rest + 1;
      assert s[..k] == [s[0]] + s[1..][..rest];
    }
  }

  ghost predicate EndsAt(s: string, i: int) {
    0 <= i < |s| && Starts(s[i..], '*', '/')
  }

  lemma {:induction false} FindEnd(s: string) returns (k: nat)
    requires exists i :: EndsAt(s, i)
    ensures EndsAt(s, k) && forall i :: 0 <= i < k ==> !EndsAt(s, i)
  {
    assert s[0..] == s;
    if Starts(s, '*', '/') {
      k := 0;
    } else {
      var end :| EndsAt(s, end);
      assert s[end..] == s[1..][end - 1..];
      assert EndsAt(s[1..], end - 1);
      var rest := FindEnd(s[1..]);
      k := rest + 1;
      assert s[k..] == s[1..][rest..];
      forall i | 0 <= i < k ensures !EndsAt(s, i) {
        if i > 0 {
          assert s[i..] == s[1..][i - 1..] && !EndsAt(s[1..], i - 1);
        }
      }
    }
  }

  lemma OpenIff(src: string)
    ensures Starts(src, '/', '/') ==> (IsOpen(src) <==> '\n' !in src[2..])
    ensures Starts(src, '/', '*') ==> (IsOpen(src) <==> forall i :: !EndsAt(src[2..], i))
  {
    if Starts(src, '/', '*') {
      forall i | 2 <= i < |src| ensures Starts(src[i..], '*', '/') <==> EndsAt(src[2..], i - 2) {
        assert src[i..] == src[2..][i - 2..];
      }
      if IsOpen(src) {
        forall i ensures !EndsAt(src[2..], i) {
          if 0 <= i < |src[2..]| {
            assert src[i + 2..] == src[2..][i..];
          }
        }
      }
    }
  }

  lemma PutPiece(piece: Piece, rest: string, pieces: seq<Piece>, tail: string)
    requires rest == Text(pieces) + tail && Divides(pieces, tail) && IsPiece(piece, rest)
    ensures PieceText(piece) + rest == Text([piece] + pieces) + tail && Divides([piece] + pieces, tail)
  {
    assert ([piece] + pieces)[1..] == pieces;
    Reassociate(PieceText(piece), Text(pieces), tail);
  }

  /** What a text starts with: a piece and what follows it, or an open comment. */
  lemma FirstPiece(src: string) returns (piece: Piece, rest: string)
    requires !IsOpen(src)
    ensures src == PieceText(piece) + rest && IsPiece(piece, rest)
  {
    OpenIff(src);
    if Starts(src, '/', '/') {
      var k := FindNewline(src[2..]);
      assert src[2..][..k] == src[2..2 + k];
      piece, rest := Line(src[2..2 + k]), src[3 + k..];
      assert src == "//" + src[2..2 + k] + "\n" + src[3 + k..];
    } else if Starts(src, '/', '*') {
      var k := FindEnd(src[2..]);
      piece, rest := Block(src[2..2 + k]), src[4 + k..];
      BlockEndsAt(src, k);
    } else {
      piece, rest := Plain(src[0]), src[1..];
      assert src == [src[0]] + src[1..];
    }
  }

  lemma BlockEndsAt(src: string, k: nat)
    requires Starts(src, '/', '*') && EndsAt(src[2..], k)
    requires forall i :: 0 <= i < k ==> !EndsAt(src[2..], i)
    ensures 4 + k <= |src| && src == "/*" + src[2..2 + k] + "*/" + src[4 + k..] && EndsNowhereIn(src[2..2 + k])
  {
    var text := src[2..2 + k];
    assert src[2..][k..] == src[2 + k..];
    assert src == "/*" + text + "*/" + src[4 + k..];
    forall i | 0 <= i < |text| ensures !Starts((text + "*/")[i..], '*', '/') {
      assert !EndsAt(src[2..], i);
      assert (text + "*/")[i..][0] == src[2..][i..][0] && (text + "*/")[i..][1] == src[2..][i..][1];
    }
  }

  /** Every text divides into code and comments, up to a last comment that nothing ends. */
  lemma {:induction false} EveryTextDivides(src: string) returns (pieces: seq<Piece>, tail: string)
    ensures src == Text(pieces) + tail && Divides(pieces, tail)
    decreases |src|
  {
    if IsOpen(src) {
      pieces, tail := [], src;
      assert Text(pieces) + tail == src;
    } else {
      var piece, rest := FirstPiece(src);
      pieces, tail := EveryTextDivides(rest);
      PutPiece(piece, rest, pieces, tail);
      pieces := [piece] + pieces;
    }
  }

  // ---- string literals ----

  /** A text with spaces for its quotation marks. */
  function Unquoted(src: string): string {
    if src == "" then "" else [if src[0] == '"' then ' ' else src[0]] + Unquoted(src[1..])
  }

  lemma UnquotedStarts(src: string, a: char, b: char)
    requires a != '"' && b != '"' && a != ' ' && b != ' '
    ensures |Unquoted(src)| == |src| && (Starts(Unquoted(src), a, b) <==> Starts(src, a, b))
    ensures |src| >= 1 ==> Unquoted(src)[1..] == Unquoted(src[1..])
    ensures |src| >= 2 ==> Unquoted(src)[2..] == Unquoted(src[2..])
  {
    UnquotedLength(src);
    if |src| >= 2 {
      assert src[2..] == src[1..][1..];
      assert Unquoted(src)[2..] == Unquoted(src[1..])[1..];
    }
  }

  lemma {:induction false} UnquotedLength(src: string)
    ensures |Unquoted(src)| == |src|
  {
    if src != "" {
      UnquotedLength(src[1..]);
    }
  }

  lemma {:induction false} StripIgnoresQuotes(src: string, mode: Mode)
    ensures Strip(Unquoted(src), mode) == Unquoted(Strip(src, mode))
  {
    UnquotedStarts(src, '*', '/');
    UnquotedStarts(src, '/', '/');
    UnquotedStarts(src, '/', '*');
    if src != "" {
      match mode
      case LineComment => StripIgnoresQuotes(src[1..], if src[0] == '\n' then Code else LineComment);
      case BlockComment =>
        if Starts(src, '*', '/') {
          StripIgnoresQuotes(src[2..], Code);
        } else {
          StripIgnoresQuotes(src[1..], BlockComment);
        }
      case Code =>
        if Starts(src, '/', '/') {
          StripIgnoresQuotes(src[2..], LineComment);
        } else if Starts(src, '/', '*') {
          StripIgnoresQuotes(src[2..], BlockComment);
        } else {
          StripIgnoresQuotes(src[1..], Code);
        }
    }
  }

  // ---- tokens ----

  predicate IsWordChar(c: char) {
    'a' <= c <= 'z' || 'A' <= c <= 'Z' || '0' <= c <= '9' || c == '_'
  }

  predicate IsPunctuation(c: char) {
    c == ';' || c == '{' || c == '}'
  }

  function Flushed(word: string): seq<string> {
    if word == "" then [] else [word]
  }

  function Mark(c: char): seq<string> {
    if IsPunctuation(c) then [[c]] else []
  }

  /** The tokens of a text that continues the word read so far: words as long as they get, and the punctuation
      that matters. */
  function Tokens(src: string, word: string): seq<string>
    decreases |src|
  {
    if src == "" then Flushed(word)
    else if IsWordChar(src[0]) then Tokens(src[1..], word + [src[0]])
    else Flushed(word) + Mark(src[0]) + Tokens(src[1..], "")
  }

  lemma TokensFrom(src: string, i: nat, word: string, read: seq<string>)
    requires i < |src|
    ensures read + Tokens(src[i..], word)
      == if IsWordChar(src[i]) then read + Tokens(src[i + 1..], word + [src[i]])
         else read + Flushed(word) + Mark(src[i]) + Tokens(src[i + 1..], "")
  {
    assert src[i..][0] == src[i] && src[i..][1..] == src[i + 1..];
    if !IsWordChar(src[i]) {
      Reassociate(Flushed(word), Mark(src[i]), Tokens(src[i + 1..], ""));
      Reassociate(read, Flushed(word), Mark(src[i]) + Tokens(src[i + 1..], ""));
      Reassociate(read + Flushed(word), Mark(src[i]), Tokens(src[i + 1..], ""));
    }
  }

  /** tokenize: a buffer for the word being read, flushed at every other character and at the end. */
  method Tokenize(src: string) returns (tokens: seq<string>)
    ensures tokens == Tokens(src, "")
  {
    tokens := [];
    var cur := "";
    for i := 0 to |src|
      invariant Tokens(src, "") == tokens + Tokens(src[i..], cur)
    {
      var c := src[i];
      TokensFrom(src, i, cur, tokens);
      if IsWordChar(c) {
        cur := cur + [c];
      } else {
        ghost var before := tokens;
        if cur != "" {
          tokens := tokens + [cur];
        }
        assert tokens == before + Flushed(cur);
        if IsPunctuation(c) {
          tokens := tokens + [[c]];
        }
        assert tokens == before + Flushed(cur) + Mark(c);
        cur := "";
      }
    }
    if cur != "" {
      tokens := tokens + [cur];
    }
  }

  predicate IsWord(t: string) {
    t != "" && forall i :: 0 <= i < |t| ==> IsWordChar(t[i])
  }

  predicate IsToken(t: string) {
    IsWord(t) || (|t| == 1 && IsPunctuation(t[0]))
  }

  /** Every token is a word or a punctuation mark. */
  lemma {:induction false} TokensAreTokens(src: string, word: string)
    requires word == "" || IsWord(word)
    ensures forall k :: 0 <= k < |Tokens(src, word)| ==> IsToken(Tokens(src, word)[k])
    decreases |src|
  {
    if src != "" {
      if IsWordChar(src[0]) {
        TokensAreTokens(src[1..], word + [src[0]]);
      } else {
        TokensAreTokens(src[1..], "");
      }
    }
  }

  function Concat(tokens: seq<string>): string {
    if tokens == [] then "" else tokens[0] + Concat(tokens[1..])
  }

  lemma {:induction false} ConcatSplits(a: seq<string>, b: seq<string>)
    ensures Concat(a + b) == Concat(a) + Concat(b)
  {
    if a == [] {
      assert a + b == b;
    } else {
      assert (a + b)[1..] == a[1..] + b;
      ConcatSplits(a[1..], b);
    }
  }

  /** The characters that are neither dropped nor taken for space. */
  function Significant(src: string): string {
    if src == "" then ""
    else (if IsWordChar(src[0]) || IsPunctuation(src[0]) then [src[0]] else "") + Significant(src[1..])
  }

  /** Nothing significant is lost, added or reordered. */
  lemma {:induction false} TokensKeepText(src: string, word: string)
    ensures Concat(Tokens(src, word)) == word + Significant(src)
    decreases |src|
  {
    ConcatOne(word);
    if src != "" {
      if IsWordChar(src[0]) {
        TokensKeepText(src[1..], word + [src[0]]);
        Reassociate(word, [src[0]], Significant(src[1..]));
      } else {
        TokensKeepText(src[1..], "");
        ConcatSplits(Flushed(word) + Mark(src[0]), Tokens(src[1..], ""));
        ConcatSplits(Flushed(word), Mark(src[0]));
        ConcatOne([src[0]]);
        Reassociate(word, Concat(Mark(src[0])), Significant(src[1..]));
      }
    }
  }

  lemma ConcatOne(word: string)
    ensures Concat([word]) == word && Concat(Flushed(word)) == word && Concat([]) == ""
  {
    assert [word][1..] == [];
  }

  /** Tokens with a space after each. */
  function Spaced(tokens: seq<string>): string {
    if tokens == [] then "" else tokens[0] + " " + Spaced(tokens[1..])
  }

  /** A word ends at the first other character. */
  lemma {:induction false} ReadsUpTo(word: string, more: string, c: char, rest: string)
    requires !IsWordChar(c) && forall i :: 0 <= i < |more| ==> IsWordChar(more[i])
    ensures Tokens(more + [c] + rest, word) == Flushed(word + more) + Mark(c) + Tokens(rest, "")
    decreases |more|
  {
    var src := more + [c] + rest;
    if more == "" {
      assert src[1..] == rest && word + more == word;
    } else {
      assert src[1..] == more[1..] + [c] + rest && word + [more[0]] + more[1..] == word + more;
      ReadsUpTo(word + [more[0]], more[1..], c, rest);
    }
  }

  /** Reading back written tokens gives the tokens. */
  lemma {:induction false} TokensRoundTrip(tokens: seq<string>)
    requires forall k :: 0 <= k < |tokens| ==> IsToken(tokens[k])
    ensures Tokens(Spaced(tokens), "") == tokens
  {
    if tokens != [] {
      var t, rest := tokens[0], Spaced(tokens[1..]);
      TokensRoundTrip(tokens[1..]);
      assert IsToken(t);
      if IsWord(t) {
        ReadsUpTo("", t, ' ', rest);
        assert "" + t == t && Spaced(tokens) == t + [' '] + rest;
      } else {
        assert Spaced(tokens)[1..] == " " + rest && (" " + rest)[1..] == rest;
        assert Tokens(" " + rest, "") == Tokens(rest, "");
        assert [t[0]] == t;
      }
    }
  }

  /** The tokens of a source text, its comments left out. */
  function TokensIn(src: string): seq<string> {
    Tokens(Strip(src, Code), "")
  }

  lemma {:induction false} TokensIgnoreQuotes(src: string, word: string)
    ensures Tokens(Unquoted(src), word) == Tokens(src, word)
    decreases |src|
  {
    if src != "" {
      assert Unquoted(src)[1..] == Unquoted(src[1..]);
      TokensIgnoreQuotes(src[1..], word + [src[0]]);
      TokensIgnoreQuotes(src[1..], "");
    }
  }

  /** String literals do not exist for the scanner: the tokens of a text are those of the same text with spaces for
      its quotation marks. */
  lemma QuotesAreSpaces(src: string)
    ensures TokensIn(Unquoted(src)) == TokensIn(src)
  {
    StripIgnoresQuotes(src, Code);
    TokensIgnoreQuotes(Strip(src, Code), "");
  }
}
