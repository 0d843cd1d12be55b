/**
 * The BerylScript tokenizer of src/lexer.c.
 *
 * Positions are offsets into the source bytes: `at` is `state->at - src`
 * and the end of input is `|src|`.  `Next(src, at)` is the token that
 * `next_token` returns from position `at` together with the position it
 * leaves behind; the class `LexState` holds the one-token lookahead buffer
 * and its methods are proved against `Next`.
 */
module Lexer {
  import opened CTypes

  /** The token kinds of src/lexer.h, in declaration order. */
  datatype TokKind =
    | TokNull | TokLet | TokGlobal | TokVarargs | TokDo | TokEnd | TokFn | TokSym | TokString
    | TokOp | TokAssign | TokEndline | TokInt | TokFloat | TokOpenBracket | TokCloseBracket
    | TokErr | TokEof

  // Lexing error codes (the `err_type` member of a token's content)
  const ERR_OK: int := 0
  const ERR_NULL: int := 1
  const ERR_MISSING_STR_END: int := 2
  const ERR_SIZE_OVERFLOW: int := 3
  const ERR_INT_OVERFLOW: int := 4

  /**
   * The content union of a token.  Float literals carry no value in this
   * model: only their extent is tracked.
   */
  datatype Content = NoContent | Sym(str: nat, len: nat) | IntLiteral(value: int) | FloatLiteral | ErrType(code: int)

  /** A token: its kind, where it starts, its length (an `i_size`) and its content. */
  datatype Token = Token(kind: TokKind, src: nat, len: nat, content: Content)

  function EofToken(end: nat): Token { Token(TokEof, end, 0, NoContent) }

  /** `lex_err_str`: the message for an error code, with a catch-all for unknown codes. */
  function LexErrStr(code: int): (msg: string)
    ensures |msg| > 14 && msg[..14] == "Lexing error: "
  {
    if code == ERR_NULL then "Lexing error: Null"
    else if code == ERR_MISSING_STR_END then "Lexing error: Missing string terminator"
    else if code == ERR_SIZE_OVERFLOW then "Lexing error: Symbol too long"
    else if code == ERR_INT_OVERFLOW then "Lexing error: Integer too large"
    else "Lexing error: None"
  }

  // ---------------------------------------------------------------- classifiers

  /** Blanks and line breaks: all of them are at or below the space byte. */
  predicate IsWhitespace(c: byte): (r: bool)
    ensures r ==> c <= ' ' as int
  {
    c == ' ' as int || c == '\t' as int || c == '\r' as int || c == '\n' as int
  }

  /** Operator bytes; each is also a symbol byte, so operators lex as symbols. */
  predicate IsOpChar(c: byte): (r: bool)
    ensures r ==> IsValidSymbolChar(c) && !IsDigit(c)
  {
    c == '+' as int || c == '-' as int || c == '*' as int || c == '/' as int || c == '%' as int
    || c == '?' as int || c == '^' as int || c == '=' as int || c == '<' as int || c == '>' as int
    || c == '!' as int || c == ':' as int || c == '.' as int
  }

  /** The bracket bytes, which are tokens on their own. */
  function SpecialChar(c: byte): (k: TokKind)
    ensures k != TokNull <==> c == '(' as int || c == ')' as int
    ensures k != TokNull ==> !IsWhitespace(c) && (k == TokOpenBracket <==> c == '(' as int)
  {
    if c == '(' as int then TokOpenBracket
    else if c == ')' as int then TokCloseBracket
    else TokNull
  }

  /** Anything but blanks, brackets and `,` may appear in a symbol, letters and digits included. */
  predicate IsValidSymbolChar(c: byte): (r: bool)
    ensures 'a' as int <= c <= 'z' as int || 'A' as int <= c <= 'Z' as int || IsDigit(c) ==> r
    ensures c == ',' as int || c == '(' as int || c == ')' as int || c == ' ' as int ==> !r
  {
    !IsWhitespace(c) && SpecialChar(c) == TokNull && c != ',' as int
  }

  predicate IsDigit(c: byte): (r: bool)
    ensures r ==> 0 <= c - '0' as int < 10 && !IsWhitespace(c) && SpecialChar(c) == TokNull
  {
    '0' as int <= c <= '9' as int
  }

  predicate IsNumberChar(c: byte)
  {
    IsDigit(c) || c == '\'' as int
  }

  // ---------------------------------------------------------------- keywords

  /** The keyword table, in the order `match_keyword` scans it. */
  const Keywords: seq<(Bytes, TokKind)> := [
    (Lit("let"), TokLet),
    (Lit("function"), TokFn),
    (Lit("with"), TokFn),
    (Lit("do"), TokDo),
    (Lit("end"), TokEnd),
    (Lit("="), TokAssign),
    (Lit("global"), TokGlobal),
    (Lit("..."), TokVarargs)
  ]

  /** `match_keyword` from table entry `i` on: the kind of the first entry equal to `sym`. */
  function MatchKeywordFrom(sym: Bytes, i: nat): (k: TokKind)
    requires i <= |Keywords|
    decreases |Keywords| - i
  {
    if i == |Keywords| then TokNull
    else if Keywords[i].0 == sym then Keywords[i].1
    else MatchKeywordFrom(sym, i + 1)
  }

  /** `match_keyword`: a keyword's kind when `sym` is spelled as one, else `TokNull`. */
  function MatchKeyword(sym: Bytes): (k: TokKind)
    ensures k == TokNull <==> forall j :: 0 <= j < |Keywords| ==> Keywords[j].0 != sym
    ensures k != TokNull ==> exists j :: 0 <= j < |Keywords| && Keywords[j] == (sym, k)
  {
    MatchKeywordFromFinds(sym, 0);
    MatchKeywordFrom(sym, 0)
  }

  /** The scan from entry `i` finds a spelling iff some later entry has it. */
  lemma {:induction false} MatchKeywordFromFinds(sym: Bytes, i: nat)
    requires i <= |Keywords|
    ensures MatchKeywordFrom(sym, i) == TokNull <==> forall j :: i <= j < |Keywords| ==> Keywords[j].0 != sym
    ensures MatchKeywordFrom(sym, i) != TokNull ==>
      exists j :: i <= j < |Keywords| && Keywords[j] == (sym, MatchKeywordFrom(sym, i))
    decreases |Keywords| - i
  {
    if i < |Keywords| && Keywords[i].0 != sym {
      MatchKeywordFromFinds(sym, i + 1);
    }
  }

  /** The keyword table maps exactly these eight spellings, and nothing else. */
  lemma KeywordTable(sym: Bytes)
    ensures MatchKeyword(sym) == TokLet <==> sym == Lit("let")
    ensures MatchKeyword(sym) == TokFn <==> sym == Lit("function") || sym == Lit("with")
    ensures MatchKeyword(sym) == TokDo <==> sym == Lit("do")
    ensures MatchKeyword(sym) == TokEnd <==> sym == Lit("end")
    ensures MatchKeyword(sym) == TokAssign <==> sym == Lit("=")
    ensures MatchKeyword(sym) == TokGlobal <==> sym == Lit("global")
    ensures MatchKeyword(sym) == TokVarargs <==> sym == Lit("...")
    ensures MatchKeyword(sym) in {TokNull, TokLet, TokFn, TokDo, TokEnd, TokAssign, TokGlobal, TokVarargs}
  {
    assert Lit("let")[0] != Lit("end")[0];
    assert |Lit("function")| != |Lit("global")|;
    assert MatchKeyword(sym) == MatchKeywordFrom(sym, 0);
  }

  // ---------------------------------------------------------------- scanning functions

  /** `skip_whitespace` from `at`, given whether a `#` comment is open. */
  function SkipWs(src: Bytes, at: nat, inside: bool): (r: nat)
    requires at <= |src|
    ensures at <= r <= |src|
    decreases |src| - at
  {
    if at == |src| || !(inside || IsWhitespace(src[at]) || src[at] == '#' as int) then at
    else
      var inside' := if src[at] == '#' as int then !inside else if src[at] == '\n' as int then false else inside;
      SkipWs(src, at + 1, inside')
  }

  /** The first position from `at` that is the end, a newline, or not whitespace. */
  function BlankEnd(src: Bytes, at: nat): (r: nat)
    requires at <= |src|
    ensures at <= r <= |src|
    decreases |src| - at
  {
    if at < |src| && IsWhitespace(src[at]) && src[at] != '\n' as int then BlankEnd(src, at + 1) else at
  }

  /** The first position from `at` that is the end or not a symbol character. */
  function SymEnd(src: Bytes, at: nat): (r: nat)
    requires at <= |src|
    ensures at <= r <= |src|
    decreases |src| - at
  {
    if at < |src| && IsValidSymbolChar(src[at]) then SymEnd(src, at + 1) else at
  }

  /** Where a `#` comment opened just before `at` ends: past the next `#`, or at the next newline. */
  function CommentEnd(src: Bytes, at: nat): (r: nat)
    requires at <= |src|
    ensures at <= r <= |src|
    decreases |src| - at
  {
    if at == |src| then at
    else if src[at] == '\n' as int then at
    else if src[at] == '#' as int then at + 1
    else CommentEnd(src, at + 1)
  }

  /** The position of the first `"` at or after `at`, or the end. */
  function QuoteAt(src: Bytes, at: nat): (r: nat)
    requires at <= |src|
    ensures at <= r <= |src|
    decreases |src| - at
  {
    if at == |src| || src[at] == '"' as int then at else QuoteAt(src, at + 1)
  }

  /** The first position from `at` that is the end or neither a digit nor `'`. */
  function NumEnd(src: Bytes, at: nat): (r: nat)
    requires at <= |src|
    ensures at <= r <= |src|
    decreases |src| - at
  {
    if at < |src| && IsNumberChar(src[at]) then NumEnd(src, at + 1) else at
  }

  /** The `unsigned long long` accumulated over `src[lo..hi]`: `v*10 + digit`, wrapping, skipping `'`. */
  function NumValue(src: Bytes, lo: nat, hi: nat): (v: nat)
    requires lo <= hi <= |src|
    ensures v < U64
    decreases hi - lo
  {
    if hi == lo then 0
    else if src[hi - 1] == '\'' as int then NumValue(src, lo, hi - 1)
    else Wrap64(NumValue(src, lo, hi - 1) * 10 + (src[hi - 1] - '0' as int))
  }

  // ---------------------------------------------------------------- token specifications

  /** `parse_number` at a digit: an int, an overflow error, or a float (extent only). */
  function ParseNumberSpec(src: Bytes, at: nat): (res: (Token, nat))
    requires at <= |src|
    ensures at <= res.1 <= |src|
  {
    var e := NumEnd(src, at);
    var v := NumValue(src, at, e);
    if e < |src| && src[e] == '.' as int then
      var f := NumEnd(src, e + 1);
      (Token(TokFloat, at, Wrap32(f - at), FloatLiteral), f)
    else if v > I_INT_MAX then
      (Token(TokErr, at, Wrap32(e - at), ErrType(ERR_INT_OVERFLOW)), e)
    else
      (Token(TokInt, at, Wrap32(e - at), IntLiteral(v)), e)
  }

  /** A string literal starting with the `"` at `at`. */
  function StringSpec(src: Bytes, at: nat): (res: (Token, nat))
    requires at < |src|
    ensures at < res.1 <= |src|
  {
    var close := QuoteAt(src, at + 1);
    if close == |src| then
      (Token(TokErr, at, Wrap32(|src| - at), ErrType(ERR_MISSING_STR_END)), |src|)
    else
      var len := close + 1 - at;
      if len > I_SIZE_MAX then (Token(TokErr, at, 1, ErrType(ERR_SIZE_OVERFLOW)), close + 1)
      else (Token(TokString, at, len, Sym(at + 1, len - 2)), close + 1)
  }

  /** A symbol, operator or keyword starting at `at`. */
  function SymbolSpec(src: Bytes, at: nat): (res: (Token, nat))
    requires at <= |src|
    ensures at <= res.1 <= |src|
  {
    var e := SymEnd(src, at);
    var len := e - at;
    if len > I_SIZE_MAX then (Token(TokErr, at, 1, ErrType(ERR_SIZE_OVERFLOW)), e)
    else
      var kind := if len > 0 && (IsOpChar(src[at]) || IsOpChar(src[e - 1])) then TokOp else TokSym;
      var keyword := MatchKeyword(src[at..e]);
      (Token(if keyword != TokNull then keyword else kind, at, len, Sym(at, len)), e)
  }

  /** A number after a `-`: integer values are negated, other results pass through. */
  function Negated(t: Token): Token
  {
    if t.kind == TokInt && t.content.IntLiteral? then t.(content := IntLiteral(-t.content.value)) else t
  }

  /** `next_token`: the token found from `at` and the position after it. */
  function Next(src: Bytes, at: nat): (res: (Token, nat))
    requires at <= |src|
    ensures at <= res.1 <= |src|
    decreases |src| - at
  {
    if at == |src| then (EofToken(|src|), at)
    else
      var c := src[at];
      if c == '\n' as int then (Token(TokEndline, at, 1, NoContent), SkipWs(src, at + 1, false))
      else if IsWhitespace(c) then Next(src, BlankEnd(src, at))
      else if c == ',' as int then Next(src, SymEnd(src, SkipWs(src, at + 1, false)))
      else if c == '#' as int then Next(src, CommentEnd(src, at + 1))
      else TokenAt(src, at)
  }

  /** The token starting at a byte that neither ends a line nor is skipped. */
  function TokenAt(src: Bytes, at: nat): (res: (Token, nat))
    requires at < |src|
    ensures at <= res.1 <= |src|
  {
    var c := src[at];
    if SpecialChar(c) != TokNull then (Token(SpecialChar(c), at, 1, NoContent), at + 1)
    else if c == '"' as int then StringSpec(src, at)
    else if c == '-' as int && at + 1 < |src| && IsDigit(src[at + 1]) then
      var (t, p) := ParseNumberSpec(src, at + 1);
      (Negated(t), p)
    else if IsDigit(c) then ParseNumberSpec(src, at)
    else SymbolSpec(src, at)
  }

  // ---------------------------------------------------------------- the lexer state

  class LexState {
    const src: Bytes
    var at: nat
    /** The one-token lookahead. */
    var buffer: Token
    /** The position from which `buffer` was lexed. */
    ghost var prev: nat

    /** The buffer always holds the token lexed from `prev`, and `at` is just past it. */
    ghost predicate Valid()
      reads this
    {
      prev <= |src| && Next(src, prev) == (buffer, at)
    }

    /** `lex_state_init`: starts at the beginning and primes the buffer. */
    constructor Init(source: Bytes)
      ensures Valid()
      ensures src == source && prev == 0
      ensures (buffer, at) == Next(source, 0)
    {
      src := source;
      at := 0;
      buffer := EofToken(0);
      prev := 0;
      new;
      var tok := NextToken();
      buffer := tok;
    }

    /** `skip_whitespace`: skips whitespace, newlines and `#...#` comments. */
    method SkipWhitespace()
      requires at <= |src|
      modifies this
      ensures at == SkipWs(src, old(at), false)
      ensures buffer == old(buffer) && prev == old(prev)
    {
      var inside := false;
      while at < |src| && (inside || IsWhitespace(src[at]) || src[at] == '#' as int)
        invariant old(at) <= at <= |src|
        invariant SkipWs(src, at, inside) == SkipWs(src, old(at), false)
        invariant buffer == old(buffer) && prev == old(prev)
        decreases |src| - at
      {
        if src[at] == '#' as int {
          inside := !inside;
        } else if src[at] == '\n' as int {
          inside := false;
        }
        at := at + 1;
      }
    }

    /** `parse_number` at a digit. */
    method ParseNumber() returns (tok: Token)
      requires at < |src| && IsDigit(src[at])
      modifies this
      ensures (tok, at) == ParseNumberSpec(src, old(at))
      ensures buffer == old(buffer) && prev == old(prev)
    {
      var start := at;
      var intV;
      at, intV := ScanDigits(src, start);
      if at < |src| && src[at] == '.' as int {
        at := NumberRun(src, at + 1);
        return Token(TokFloat, start, Wrap32(at - start), FloatLiteral);
      }
      if intV > I_INT_MAX {
        return Token(TokErr, start, Wrap32(at - start), ErrType(ERR_INT_OVERFLOW));
      }
      return Token(TokInt, start, Wrap32(at - start), IntLiteral(intV));
    }

    /** The blank-skipping loop of `next_token` (stops before a newline). */
    method SkipBlanks()
      requires at <= |src|
      modifies this
      ensures at == BlankEnd(src, old(at))
      ensures buffer == old(buffer) && prev == old(prev)
    {
      while at < |src| && IsWhitespace(src[at]) && src[at] != '\n' as int
        invariant old(at) <= at <= |src|
        invariant BlankEnd(src, at) == BlankEnd(src, old(at))
        invariant buffer == old(buffer) && prev == old(prev)
        decreases |src| - at
      {
        at := at + 1;
      }
    }

    /** Skips a run of symbol characters: the word a `,` comments out, or a symbol. */
    method SkipWord()
      requires at <= |src|
      modifies this
      ensures at == SymEnd(src, old(at))
      ensures buffer == old(buffer) && prev == old(prev)
    {
      while at < |src| && IsValidSymbolChar(src[at])
        invariant old(at) <= at <= |src|
        invariant SymEnd(src, at) == SymEnd(src, old(at))
        invariant buffer == old(buffer) && prev == old(prev)
        decreases |src| - at
      {
        at := at + 1;
      }
    }

    /** Skips the rest of a `#` comment. */
    method SkipComment()
      requires at <= |src|
      modifies this
      ensures at == CommentEnd(src, old(at))
      ensures buffer == old(buffer) && prev == old(prev)
    {
      while at < |src|
        invariant old(at) <= at <= |src|
        invariant CommentEnd(src, at) == CommentEnd(src, old(at))
        invariant buffer == old(buffer) && prev == old(prev)
        decreases |src| - at
      {
        if src[at] == '\n' as int {
          break;
        }
        if src[at] == '#' as int {
          at := at + 1;
          break;
        }
        at := at + 1;
      }
    }

    /** The string-literal branch of `next_token`, at the opening quote. */
    method LexString() returns (tok: Token)
      requires at < |src| && src[at] == '"' as int
      modifies this
      ensures (tok, at) == StringSpec(src, old(at))
      ensures buffer == old(buffer) && prev == old(prev)
    {
      var start := at;
      at := at + 1;
      while at < |src| && src[at] != '"' as int
        invariant start < at <= |src|
        invariant QuoteAt(src, at) == QuoteAt(src, start + 1)
        invariant buffer == old(buffer) && prev == old(prev)
        decreases |src| - at
      {
        at := at + 1;
      }
      if at == |src| {
        return Token(TokErr, start, Wrap32(at - start), ErrType(ERR_MISSING_STR_END));
      }
      at := at + 1;
      var strLen := at - start;
      if strLen > I_SIZE_MAX {
        return Token(TokErr, start, 1, ErrType(ERR_SIZE_OVERFLOW));
      }
      return Token(TokString, start, strLen, Sym(start + 1, strLen - 2));
    }

    /** The symbol branch of `next_token`: scan, classify, then let a keyword override. */
    method LexSymbol() returns (tok: Token)
      requires at <= |src|
      modifies this
      ensures (tok, at) == SymbolSpec(src, old(at))
      ensures buffer == old(buffer) && prev == old(prev)
    {
      var symStart := at;
      SkipWord();
      var symLen := at - symStart;
      if symLen > I_SIZE_MAX {
        return Token(TokErr, symStart, 1, ErrType(ERR_SIZE_OVERFLOW));
      }
      var kind := TokSym;
      if symLen > 0 {
        if IsOpChar(src[symStart]) || IsOpChar(src[symStart + symLen - 1]) {
          kind := TokOp;
        }
      }
      var keyword := MatchKeyword(src[symStart..at]);
      if keyword != TokNull {
        kind := keyword;
      }
      return Token(kind, symStart, symLen, Sym(symStart, symLen));
    }

    /** `next_token`: lexes one token from `at`; the `goto START` restarts are the loop. */
    method NextToken() returns (tok: Token)
      requires at <= |src|
      modifies this
      ensures (tok, at) == Next(src, old(at))
      ensures buffer == old(buffer) && prev == old(prev)
    {
      while true
        invariant at <= |src|
        invariant Next(src, at) == Next(src, old(at))
        invariant buffer == old(buffer) && prev == old(prev)
        decreases |src| - at
      {
        if at == |src| {
          return EofToken(|src|);
        }
        var c := src[at];
        if c == '\n' as int {
          var start := at;
          at := at + 1;
          SkipWhitespace();
          return Token(TokEndline, start, 1, NoContent);
        }
        if IsWhitespace(c) {
          SkipBlanks();
          continue;
        }
        if c == ',' as int {
          at := at + 1;
          SkipWhitespace();
          SkipWord();
          continue;
        }
        if c == '#' as int {
          at := at + 1;
          SkipComment();
          continue;
        }
        tok := LexToken();
        return tok;
      }
    }

    /** The dispatch of `next_token` once blanks, commas and comments are behind it. */
    method LexToken() returns (tok: Token)
      requires at < |src|
      modifies this
      ensures (tok, at) == TokenAt(src, old(at))
      ensures buffer == old(buffer) && prev == old(prev)
    {
      var c := src[at];
      var special := SpecialChar(c);
      if special != TokNull {
        at := at + 1;
        return Token(special, at - 1, 1, NoContent);
      }
      if c == '"' as int {
        tok := LexString();
        return tok;
      }
      if c == '-' as int {
        at := at + 1;
        if at == |src| || !IsDigit(src[at]) {
          at := at - 1;
        } else {
          tok := ParseNumber();
          if tok.kind == TokInt {
            tok := tok.(content := IntLiteral(-tok.content.value));
          }
          return tok;
        }
      }
      if IsDigit(c) {
        tok := ParseNumber();
        return tok;
      }
      tok := LexSymbol();
      return tok;
    }

    /** `lex_peek`: the buffered token; nothing moves. */
    function Peek(): Token
      reads this
    {
      buffer
    }

    /**
     * `lex_pop`: returns the buffered token and refills the buffer with the
     * next one.  Once the end is reached the buffer stays at end of input.
     */
    method Pop() returns (tok: Token)
      requires Valid()
      modifies this
      ensures Valid()
      ensures tok == old(buffer)
      ensures prev == old(at) && (buffer, at) == Next(src, old(at))
      ensures old(buffer).kind == TokEof ==> buffer == old(buffer) && at == old(at)
    {
      tok := buffer;
      if buffer.kind == TokEof {
        EofIsFinal(src, prev);
      }
      var next := NextToken();
      buffer := next;
      prev := old(at);
    }

    /**
     * `lex_accept`: consumes the buffered token iff its kind is `kind`, and then
     * hands it back; otherwise nothing changes.
     */
    method Accept(kind: TokKind) returns (accepted: bool, tok: Option<Token>)
      requires Valid()
      modifies this
      ensures Valid()
      ensures accepted <==> old(buffer).kind == kind
      ensures accepted ==> tok == Some(old(buffer)) && (buffer, at) == Next(src, old(at))
      ensures !accepted ==> tok == None && buffer == old(buffer) && at == old(at) && prev == old(prev)
    {
      var t := Peek();
      if t.kind == kind {
        var _ := Pop();
        return true, Some(t);
      }
      return false, None;
    }
  }

  // ---------------------------------------------------------------- properties

  /** At the end of input the lexer yields an empty EOF token located at the end. */
  lemma EofAtEnd(src: Bytes)
    ensures Next(src, |src|) == (Token(TokEof, |src|, 0, NoContent), |src|)
  {
  }

  /** An EOF token is only ever produced at the end, so lexing again yields it again. */
  lemma {:induction false} EofIsFinal(src: Bytes, at: nat)
    requires at <= |src|
    requires Next(src, at).0.kind == TokEof
    ensures Next(src, at) == (EofToken(|src|), |src|)
    ensures Next(src, |src|) == Next(src, at)
    decreases |src| - at
  {
    if at < |src| {
      var c := src[at];
      if c == '\n' as int {
      } else if IsWhitespace(c) {
        EofIsFinal(src, BlankEnd(src, at));
      } else if c == ',' as int {
        EofIsFinal(src, SymEnd(src, SkipWs(src, at + 1, false)));
      } else if c == '#' as int {
        EofIsFinal(src, CommentEnd(src, at + 1));
      }
    }
  }

  /** `skip_whitespace` stops only at the end or at a character that is neither blank nor `#`. */
  lemma {:induction false} SkipWsStops(src: Bytes, at: nat, inside: bool)
    requires at <= |src|
    ensures var r := SkipWs(src, at, inside);
      r == |src| || (!IsWhitespace(src[r]) && src[r] != '#' as int)
    decreases |src| - at
  {
    if at < |src| && (inside || IsWhitespace(src[at]) || src[at] == '#' as int) {
      var inside' := if src[at] == '#' as int then !inside else if src[at] == '\n' as int then false else inside;
      SkipWsStops(src, at + 1, inside');
    }
  }

  /**
   * A newline token is one byte long and swallows every following blank,
   * newline and comment: lexing resumes at the end or at a byte that is not
   * whitespace and not `#`, so a run of blank lines is a single token.
   */
  lemma {:induction false} NewlinesCollapse(src: Bytes, at: nat)
    requires at <= |src|
    requires Next(src, at).0.kind == TokEndline
    ensures Next(src, at).0.src < |src| && Next(src, at).0.len == 1
    ensures src[Next(src, at).0.src] == '\n' as int
    ensures var p := Next(src, at).1;
      p == |src| || (!IsWhitespace(src[p]) && src[p] != '#' as int)
    decreases |src| - at
  {
    var c := src[at];
    if c == '\n' as int {
      SkipWsStops(src, at + 1, false);
    } else if IsWhitespace(c) {
      NewlinesCollapse(src, BlankEnd(src, at));
    } else if c == ',' as int {
      NewlinesCollapse(src, SymEnd(src, SkipWs(src, at + 1, false)));
    } else if c == '#' as int {
      NewlinesCollapse(src, CommentEnd(src, at + 1));
    }
  }

  lemma {:induction false} QuoteAtSpec(src: Bytes, at: nat)
    requires at <= |src|
    ensures forall k :: at <= k < QuoteAt(src, at) ==> src[k] != '"' as int
    ensures QuoteAt(src, at) < |src| ==> src[QuoteAt(src, at)] == '"' as int
    decreases |src| - at
  {
    if at < |src| && src[at] != '"' as int {
      QuoteAtSpec(src, at + 1);
    }
  }

  /**
   * A string literal spans both quotes, its content is the bytes between
   * them, and it holds no other quote; without a closing quote the result is
   * a missing-terminator error that runs to the end of input.
   */
  lemma StringLiteral(src: Bytes, at: nat)
    requires at < |src| && src[at] == '"' as int
    ensures var (t, p) := Next(src, at);
      && (t.kind == TokString ==>
            t.src == at && p == at + t.len && src[p - 1] == '"' as int
            && t.content == Sym(at + 1, t.len - 2)
            && forall k :: at < k < p - 1 ==> src[k] != '"' as int)
      && (t.kind == TokErr && t.content == ErrType(ERR_MISSING_STR_END) <==>
            forall k :: at < k < |src| ==> src[k] != '"' as int)
      && (t.kind == TokErr && t.content == ErrType(ERR_MISSING_STR_END) ==> p == |src|)
      && (t.kind == TokString || t.kind == TokErr)
  {
    QuoteAtSpec(src, at + 1);
  }

  /** Every byte a symbol scan passes over is a symbol character, and it stops at the first that is not. */
  lemma {:induction false} SymEndSpec(src: Bytes, at: nat)
    requires at <= |src|
    ensures forall k :: at <= k < SymEnd(src, at) ==> IsValidSymbolChar(src[k])
    ensures SymEnd(src, at) == |src| || !IsValidSymbolChar(src[SymEnd(src, at)])
    decreases |src| - at
  {
    if at < |src| && IsValidSymbolChar(src[at]) {
      SymEndSpec(src, at + 1);
    }
  }

  /**
   * A symbol is the maximal run of symbol characters; it is an operator iff
   * its first or last byte is an operator character, unless it spells a
   * keyword, which takes precedence.
   */
  lemma SymbolClassification(src: Bytes, at: nat)
    requires at < |src| && IsValidSymbolChar(src[at])
    requires src[at] != '"' as int && src[at] != '#' as int && !IsDigit(src[at])
    requires !(src[at] == '-' as int && at + 1 < |src| && IsDigit(src[at + 1]))
    ensures var (t, p) := Next(src, at);
      var sym := src[at..p];
      && p > at && t.src == at
      && (forall k :: at <= k < p ==> IsValidSymbolChar(src[k]))
      && (p == |src| || !IsValidSymbolChar(src[p]))
      && (p - at <= I_SIZE_MAX ==>
            && t.len == p - at && t.content == Sym(at, p - at)
            && (MatchKeyword(sym) != TokNull ==> t.kind == MatchKeyword(sym))
            && (MatchKeyword(sym) == TokNull ==>
                  (t.kind == TokOp <==> IsOpChar(sym[0]) || IsOpChar(sym[|sym| - 1])))
            && (MatchKeyword(sym) == TokNull ==> (t.kind == TokOp || t.kind == TokSym)))
  {
    SymEndSpec(src, at);
  }

  /** `'` separators are ignored, and the accumulated value is the decimal value modulo 2^64. */
  function DecimalValue(src: Bytes, lo: nat, hi: nat): int
    requires lo <= hi <= |src|
    decreases hi - lo
  {
    if hi == lo then 0
    else if src[hi - 1] == '\'' as int then DecimalValue(src, lo, hi - 1)
    else DecimalValue(src, lo, hi - 1) * 10 + (src[hi - 1] - '0' as int)
  }

  lemma {:induction false} NumValueIsDecimalMod(src: Bytes, lo: nat, hi: nat)
    requires lo <= hi <= |src|
    requires forall k :: lo <= k < hi ==> IsNumberChar(src[k])
    ensures NumValue(src, lo, hi) == DecimalValue(src, lo, hi) % U64
    decreases hi - lo
  {
    if hi > lo {
      NumValueIsDecimalMod(src, lo, hi - 1);
      if src[hi - 1] != '\'' as int {
        var d := DecimalValue(src, lo, hi - 1);
        var digit := src[hi - 1] - '0' as int;
        ModMulAdd(d, digit);
      }
    }
  }

  /** The integer loop of `parse_number`: the end of the digit run and the wrapped value it spells. */
  method ScanDigits(src: Bytes, start: nat) returns (end: nat, v: nat)
    requires start <= |src|
    ensures end == NumEnd(src, start) && v == NumValue(src, start, end)
  {
    end, v := start, 0;
    while end < |src| && IsNumberChar(src[end])
      invariant start <= end <= |src|
      invariant NumEnd(src, end) == NumEnd(src, start)
      invariant v == NumValue(src, start, end)
      decreases |src| - end
    {
      if src[end] == '\'' as int {
        end := end + 1;
        continue;
      }
      ModAdd(v * 10, src[end] - '0' as int);
      v := Wrap64(v * 10);
      v := Wrap64(v + (src[end] - '0' as int));
      end := end + 1;
    }
  }

  /** The fraction loop of `parse_number`: the end of the run of number characters from `start`. */
  method NumberRun(src: Bytes, start: nat) returns (end: nat)
    requires start <= |src|
    ensures end == NumEnd(src, start)
  {
    end := start;
    while end < |src| && IsNumberChar(src[end])
      invariant start <= end <= |src|
      invariant NumEnd(src, end) == NumEnd(src, start)
      decreases |src| - end
    {
      end := end + 1;
    }
  }

  lemma ModAdd(y: int, d: int)
    ensures ((y % U64) + d) % U64 == (y + d) % U64
  {
    var q := y / U64;
    assert y == q * U64 + y % U64;
    assert y + d == (y % U64) + d + q * U64;
  }

  lemma ModMulAdd(x: int, d: int)
    ensures ((x % U64) * 10 + d) % U64 == (x * 10 + d) % U64
  {
    var q := x / U64;
    assert x == q * U64 + x % U64;
    assert x * 10 + d == (x % U64) * 10 + d + (q * 10) * U64;
  }

  lemma {:induction false} NumEndSpec(src: Bytes, at: nat)
    requires at <= |src|
    ensures forall k :: at <= k < NumEnd(src, at) ==> IsNumberChar(src[k])
    ensures NumEnd(src, at) == |src| || !IsNumberChar(src[NumEnd(src, at)])
    decreases |src| - at
  {
    if at < |src| && IsNumberChar(src[at]) {
      NumEndSpec(src, at + 1);
    }
  }

  /**
   * An integer literal (no `.` after its digits) is the decimal value of its
   * digits, ignoring `'`, reduced modulo 2^64; it is an overflow error
   * exactly when that value exceeds `I_INT_MAX`.  After a `-` the value is
   * negated, and the token starts at the first digit.
   */
  lemma IntegerLiteral(src: Bytes, at: nat, negative: bool)
    requires at < |src|
    requires negative ==> at + 1 < |src| && src[at] == '-' as int && IsDigit(src[at + 1])
    requires !negative ==> IsDigit(src[at])
    ensures var start := if negative then at + 1 else at;
      var e := NumEnd(src, start);
      var v := DecimalValue(src, start, e) % U64;
      var (t, p) := Next(src, at);
      !(e < |src| && src[e] == '.' as int) ==>
        && p == e && t.src == start
        && (t.kind == TokErr <==> v > I_INT_MAX)
        && (t.kind == TokErr ==> t.content == ErrType(ERR_INT_OVERFLOW))
        && (t.kind != TokErr ==> t.kind == TokInt && t.content == IntLiteral(if negative then -v else v))
  {
    var start := if negative then at + 1 else at;
    NumEndSpec(src, start);
    NumValueIsDecimalMod(src, start, NumEnd(src, start));
  }

  /** Brackets are one-byte tokens of their own kind. */
  lemma Brackets(src: Bytes, at: nat)
    requires at < |src| && (src[at] == '(' as int || src[at] == ')' as int)
    ensures Next(src, at).1 == at + 1
    ensures Next(src, at).0 ==
      Token(if src[at] == '(' as int then TokOpenBracket else TokCloseBracket, at, 1, NoContent)
  {
  }

  /**
   * `,` comments out the following word: lexing continues after skipping the
   * blanks and the next run of symbol characters.  `#` comments out up to and
   * including the next `#`, or up to (not including) the next newline.
   */
  lemma {:induction false} CommentEndSpec(src: Bytes, at: nat)
    requires at <= |src|
    ensures var r := CommentEnd(src, at);
      && (forall k :: at <= k < r ==> src[k] != '\n' as int)
      && (r == |src| || src[r] == '\n' as int || (r > at && src[r - 1] == '#' as int))
      && (forall k :: at <= k < r - 1 ==> src[k] != '#' as int)
    decreases |src| - at
  {
    if at < |src| && src[at] != '\n' as int && src[at] != '#' as int {
      CommentEndSpec(src, at + 1);
    }
  }

  lemma Comments(src: Bytes, at: nat)
    requires at < |src|
    ensures src[at] == ',' as int ==>
      Next(src, at) == Next(src, SymEnd(src, SkipWs(src, at + 1, false)))
    ensures src[at] == '#' as int ==>
      Next(src, at) == Next(src, CommentEnd(src, at + 1))
  {
  }

  /** Every error the lexer reports carries one of its three codes, each with its own message. */
  lemma {:induction false} LexErrorsExplained(src: Bytes, at: nat)
    requires at <= |src|
    requires Next(src, at).0.kind == TokErr
    ensures Next(src, at).0.content.ErrType?
    ensures Next(src, at).0.content.code in {ERR_MISSING_STR_END, ERR_SIZE_OVERFLOW, ERR_INT_OVERFLOW}
    ensures LexErrStr(Next(src, at).0.content.code) != "Lexing error: None"
    decreases |src| - at
  {
    var c := src[at];
    if c == '\n' as int {
    } else if IsWhitespace(c) {
      LexErrorsExplained(src, BlankEnd(src, at));
    } else if c == ',' as int {
      LexErrorsExplained(src, SymEnd(src, SkipWs(src, at + 1, false)));
    } else if c == '#' as int {
      LexErrorsExplained(src, CommentEnd(src, at + 1));
    } else if SpecialChar(c) == TokNull && c != '"' as int && !(c == '-' as int && at + 1 < |src| && IsDigit(src[at + 1])) && !IsDigit(c) {
      var e := SymEnd(src, at);
      KeywordTable(src[at..e]);
    }
  }
}
