/**
 The lexer: one left-to-right pass over the source text that tracks line and
 column, emits typed tokens, keeps a stack of open brackets and accumulates
 errors instead of throwing. The mutable scanner object becomes an explicit
 `LexState` threaded through pure functions.
 */
module Lexer {
  import opened Wrappers
  import opened JsText
  import opened Tokens

  /** An opening symbol waiting for its partner, with where it was seen. */
  datatype Bracket = Bracket(ch: char, line: int, column: int)

  /** Scanner state: cursor, the line and column the scanner tracks, the
      tokens and errors recorded so far, and the bracket stack (top last). */
  datatype LexState = LexState(
    pos: nat, line: int, col: int,
    tokens: seq<Token>, errors: seq<LexerError>, stack: seq<Bracket>)

  /** The two lists `analyze` returns. */
  datatype LexResult = LexResult(tokens: seq<Token>, errors: seq<LexerError>)

  const Start: LexState := LexState(0, 1, 1, [], [], [])

  predicate IsDigit(c: char) {
    '0' <= c <= '9'
  }

  predicate IsAlpha(c: char) {
    ('a' <= c <= 'z') || ('A' <= c <= 'Z') || c == '_'
  }

  predicate IsAlphaNumeric(c: char) {
    IsAlpha(c) || IsDigit(c)
  }

  predicate IsOpening(c: char) {
    c == '{' || c == '[' || c == '('
  }

  predicate IsClosing(c: char) {
    c == '}' || c == ']' || c == ')'
  }

  /** The kinds the lexer can give a token: everything except EOF and ERROR. */
  predicate Emittable(k: TokenType) {
    !k.Eof? && !k.Error?
  }

  /** `getMatchingClosingBracket`: the closer of an opener, empty otherwise. */
  function MatchingClose(open: char): string {
    match open
    case '{' => "}"
    case '[' => "]"
    case '(' => ")"
    case _ => ""
  }

  /** The reserved-word table applied to an upper-cased identifier. */
  function Classify(upper: string): (k: TokenType)
    ensures Emittable(k) && !IsPunctuation(k)
    ensures !k.Cadena? && !k.Numero?
  {
    match upper
    case "CARRERA" => Carrera
    case "CURSO" => Curso
    case "PREREQUISITO" => Prerequisito
    case "CREDITOS" => Creditos
    case "SEMESTRE" => Semestre
    case "NOMBRE" => Nombre
    case "CODIGO" => Codigo
    case "DESCRIPCION" => Descripcion
    case "OBLIGATORIO" => Obligatorio
    case "ELECTIVO" => Electivo
    case "TRUE" => Booleano
    case "FALSE" => Booleano
    case _ => Identificador
  }

  /** What one scanning step may do to the outputs: append at most one token,
      of a kind the lexer emits, and at most one error, never an unclosed-opener
      one. */
  predicate Grows(st: LexState, r: LexState) {
    && |st.tokens| <= |r.tokens| <= |st.tokens| + 1 && r.tokens[..|st.tokens|] == st.tokens
    && |st.errors| <= |r.errors| <= |st.errors| + 1 && r.errors[..|st.errors|] == st.errors
    && (forall i :: |st.tokens| <= i < |r.tokens| ==> Emittable(r.tokens[i].kind))
    && (forall i :: |st.errors| <= i < |r.errors| ==> !r.errors[i].kind.Unclosed?)
  }

  /** `advance`: one character consumed. */
  function Advance(st: LexState): LexState {
    st.(pos := st.pos + 1, col := st.col + 1)
  }

  /** `addToken`: the lexeme is the given one unless that is empty, in which
      case it is the source text from `start` to the cursor; the column is the
      current column minus the lexeme's length. */
  function AddToken(src: string, start: nat, st: LexState, kind: TokenType, lexeme: string): (r: LexState)
    requires start <= st.pos <= |src|
    ensures |r.tokens| == |st.tokens| + 1 && r.tokens[..|st.tokens|] == st.tokens
    ensures r.tokens[|st.tokens|].kind == kind && r.tokens[|st.tokens|].line == st.line
    ensures r == st.(tokens := r.tokens)
    ensures Emittable(kind) ==> Grows(st, r)
  {
    var text := if lexeme != "" then lexeme else src[start..st.pos];
    st.(tokens := st.tokens + [Token(kind, text, st.line, st.col - |text|)])
  }

  /** `addError`: recorded at the current line and column. */
  function AddError(st: LexState, kind: LexErrorKind): (r: LexState)
    ensures r == st.(errors := st.errors + [LexerError(kind, st.line, st.col)])
  {
    st.(errors := st.errors + [LexerError(kind, st.line, st.col)])
  }

  /** `handleClosingBracket`, called after the closer has been consumed. */
  function HandleClosing(st: LexState, c: char): (r: LexState)
    ensures r.pos == st.pos && r.line == st.line && r.col == st.col && r.tokens == st.tokens
    ensures Grows(st, r)
  {
    if |st.stack| == 0 then
      AddError(st, UnexpectedClosing(c, st.line))
    else
      var last := st.stack[|st.stack| - 1];
      if [c] != MatchingClose(last.ch) then
        // popped and pushed back: the stack is as it was
        AddError(st, Mismatch(c, st.line, last.ch, last.line))
      else
        st.(stack := st.stack[..|st.stack| - 1])
  }

  /** The `while` loop of `string`: consume up to (not including) the
      matching quote or the end of input. A newline bumps the line and sets
      the column to 1 before `advance` bumps it again. */
  function StringLoop(src: string, quote: char, st: LexState): (r: LexState)
    requires st.pos <= |src|
    ensures st.pos <= r.pos <= |src|
    ensures r.pos == |src| || src[r.pos] == quote
    ensures forall i :: st.pos <= i < r.pos ==> src[i] != quote
    ensures r.tokens == st.tokens && r.errors == st.errors && r.stack == st.stack
    decreases |src| - st.pos
  {
    if st.pos >= |src| || src[st.pos] == quote then st
    else
      var s1 := if src[st.pos] == '\n' then st.(line := st.line + 1, col := 1) else st;
      StringLoop(src, quote, Advance(s1))
  }

  /** `string`: `st` is just past the opening quote at `start`. */
  function ScanString(src: string, start: nat, st: LexState, quote: char): (r: LexState)
    requires start < st.pos <= |src|
    ensures st.pos <= r.pos <= |src|
    ensures r.stack == st.stack
    ensures r.tokens == st.tokens || (|r.tokens| == |st.tokens| + 1 && r.tokens[..|st.tokens|] == st.tokens && r.tokens[|st.tokens|].kind == Cadena)
    ensures r.errors == st.errors || r.errors == st.errors + [LexerError(UnterminatedString, r.line, r.col)]
    ensures Grows(st, r)
  {
    var s1 := StringLoop(src, quote, st);
    if s1.pos >= |src| then
      AddError(s1, UnterminatedString)
    else
      var s2 := Advance(s1);
      AddToken(src, start, s2, Cadena, src[start + 1..s2.pos - 1])
  }

  /** The `while (isX(peek())) advance()` loops of `number` and `identifier`;
      `peek` past the end yields a character neither loop accepts. */
  function SkipWhile(src: string, st: LexState, p: char -> bool): (r: LexState)
    requires st.pos <= |src|
    ensures st.pos <= r.pos <= |src|
    ensures r == st.(pos := r.pos, col := st.col + (r.pos - st.pos))
    ensures forall i :: st.pos <= i < r.pos ==> p(src[i])
    ensures r.pos == |src| || !p(src[r.pos])
    decreases |src| - st.pos
  {
    if st.pos < |src| && p(src[st.pos]) then SkipWhile(src, Advance(st), p) else st
  }

  /** `number`: the maximal digit run from `start`. */
  function ScanNumber(src: string, start: nat, st: LexState): (r: LexState)
    requires start < st.pos <= |src|
    ensures r.pos >= st.pos && r.stack == st.stack && r.errors == st.errors
    ensures |r.tokens| == |st.tokens| + 1 && r.tokens[..|st.tokens|] == st.tokens
    ensures r.tokens[|st.tokens|].kind == Numero
    ensures Grows(st, r)
  {
    AddToken(src, start, SkipWhile(src, st, IsDigit), Numero, "")
  }

  /** `identifier`: the maximal run of letters, digits and `_` from `start`,
      classified by its upper-cased text. */
  function ScanIdentifier(src: string, start: nat, st: LexState): (r: LexState)
    requires start < st.pos <= |src|
    ensures r.pos >= st.pos && r.stack == st.stack && r.errors == st.errors
    ensures |r.tokens| == |st.tokens| + 1 && r.tokens[..|st.tokens|] == st.tokens
    ensures Emittable(r.tokens[|st.tokens|].kind) && !IsPunctuation(r.tokens[|st.tokens|].kind)
    ensures Grows(st, r)
  {
    var s1 := SkipWhile(src, st, IsAlphaNumeric);
    AddToken(src, start, s1, Classify(ToUpper(src[start..s1.pos])), "")
  }

  /** An opening symbol: its token, then a stack entry at its line and column. */
  function Open(src: string, start: nat, st: LexState, c: char, kind: TokenType): (r: LexState)
    requires start < st.pos <= |src| && Emittable(kind)
    ensures r.pos == st.pos && Grows(st, r)
  {
    AddToken(src, start, st, kind, "").(stack := st.stack + [Bracket(c, st.line, st.col - 1)])
  }

  /** A closing symbol: the stack check, then its token in every case. */
  function Close(src: string, start: nat, st: LexState, c: char, kind: TokenType): (r: LexState)
    requires start < st.pos <= |src| && Emittable(kind)
    ensures r.pos == st.pos && Grows(st, r)
  {
    AddToken(src, start, HandleClosing(st, c), kind, "")
  }

  /** `scanToken`: consume one character and whatever token it starts. */
  function Step(src: string, st: LexState): (r: LexState)
    requires st.pos < |src|
    ensures st.pos < r.pos <= |src|
    ensures Grows(st, r)
  {
    var c := src[st.pos];
    var start := st.pos;
    var s1 := Advance(st);
    match c
    case '{' => Open(src, start, s1, c, LlaveAbierta)
    case '}' => Close(src, start, s1, c, LlaveCerrada)
    case '[' => Open(src, start, s1, c, CorcheteAbierto)
    case ']' => Close(src, start, s1, c, CorcheteCerrado)
    case '(' => Open(src, start, s1, c, ParentesisAbierto)
    case ')' => Close(src, start, s1, c, ParentesisCerrado)
    case ',' => AddToken(src, start, s1, Coma, "")
    case ';' => AddToken(src, start, s1, PuntoComa, "")
    case ':' => AddToken(src, start, s1, DosPuntos, "")
    case '=' => AddToken(src, start, s1, Igual, "")
    case ' ' => s1
    case '\r' => s1
    case '\t' => s1
    case '\n' => s1.(line := s1.line + 1, col := 1)
    case '"' => ScanString(src, start, s1, c)
    case '\'' => ScanString(src, start, s1, c)
    case _ =>
      if IsDigit(c) then ScanNumber(src, start, s1)
      else if IsAlpha(c) then ScanIdentifier(src, start, s1)
      else AddError(s1, UnexpectedChar(c))
  }

  /** The main `while (!isAtEnd())` loop. */
  function Run(src: string, st: LexState): (r: LexState)
    requires st.pos <= |src|
    ensures r.pos == |src|
    ensures st.tokens <= r.tokens && st.errors <= r.errors
    decreases |src| - st.pos
  {
    if st.pos >= |src| then st else Run(src, Step(src, st))
  }

  /** The end-of-pass check: only the innermost unclosed opener is reported. */
  function Finish(st: LexState): LexResult {
    if |st.stack| > 0 then
      var top := st.stack[|st.stack| - 1];
      var st' := AddError(st.(stack := st.stack[..|st.stack| - 1]), Unclosed(top.ch, top.line));
      LexResult(st'.tokens, st'.errors)
    else
      LexResult(st.tokens, st.errors)
  }

  /** `analyze`: scan the whole source, then report an unclosed opener. */
  function Analyze(src: string): LexResult {
    Finish(Run(src, Start))
  }
}
