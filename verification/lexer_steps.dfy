/**
 What one `scanToken` call does for each kind of character, and where the
 tokens of a whole pass point back into the source.
 */
module LexerSteps {
  import opened Wrappers
  import opened JsText
  import opened Tokens
  import opened Lexer

  /** The single-character symbols and their kinds. */
  function SymbolKind(c: char): Option<TokenType> {
    match c
    case '{' => Some(LlaveAbierta)
    case '}' => Some(LlaveCerrada)
    case '[' => Some(CorcheteAbierto)
    case ']' => Some(CorcheteCerrado)
    case '(' => Some(ParentesisAbierto)
    case ')' => Some(ParentesisCerrado)
    case ',' => Some(Coma)
    case ';' => Some(PuntoComa)
    case ':' => Some(DosPuntos)
    case '=' => Some(Igual)
    case _ => None
  }

  /** Exactly the ten punctuation kinds are symbol kinds. */
  lemma SymbolKindsArePunctuation(c: char)
    ensures SymbolKind(c).Some? ==> IsPunctuation(SymbolKind(c).value)
    ensures SymbolKind(c).Some? <==> c in "{}[](),;:="
  {
  }

  lemma StepIsNumber(src: string, st: LexState)
    requires st.pos < |src| && IsDigit(src[st.pos])
    ensures Step(src, st) == ScanNumber(src, st.pos, Advance(st))
  {
  }

  lemma StepIsIdentifier(src: string, st: LexState)
    requires st.pos < |src| && IsAlpha(src[st.pos])
    ensures Step(src, st) == ScanIdentifier(src, st.pos, Advance(st))
  {
  }

  lemma StepIsString(src: string, st: LexState)
    requires st.pos < |src| && (src[st.pos] == '"' || src[st.pos] == '\'')
    ensures Step(src, st) == ScanString(src, st.pos, Advance(st), src[st.pos])
  {
  }

  lemma StepIsSymbol(src: string, st: LexState)
    requires st.pos < |src| && SymbolKind(src[st.pos]).Some?
    ensures var c := src[st.pos];
      var k := SymbolKind(c).value;
      Step(src, st) ==
        if IsOpening(c) then Open(src, st.pos, Advance(st), c, k)
        else if IsClosing(c) then Close(src, st.pos, Advance(st), c, k)
        else AddToken(src, st.pos, Advance(st), k, "")
  {
  }

  /** Space, carriage return and tab produce nothing; a newline produces
      nothing, bumps the line and resets the column to 1. */
  lemma StepWhitespace(src: string, st: LexState)
    requires st.pos < |src| && src[st.pos] in " \r\t\n"
    ensures Step(src, st) ==
      if src[st.pos] == '\n' then st.(pos := st.pos + 1, line := st.line + 1, col := 1)
      else st.(pos := st.pos + 1, col := st.col + 1)
  {
  }

  /** `, ; : =` each produce one token whose lexeme is the character and whose
      column is the character's column; nothing else changes. */
  lemma StepSeparator(src: string, st: LexState)
    requires st.pos < |src| && src[st.pos] in ",;:="
    ensures var c := src[st.pos];
      Step(src, st) == st.(pos := st.pos + 1, col := st.col + 1,
                           tokens := st.tokens + [Token(SymbolKind(c).value, [c], st.line, st.col)])
  {
    StepIsSymbol(src, st);
    assert src[st.pos..st.pos + 1] == [src[st.pos]];
  }

  /** An opening symbol produces its token at its own column and pushes
      itself, with that line and column, onto the stack. */
  lemma StepOpen(src: string, st: LexState)
    requires st.pos < |src| && IsOpening(src[st.pos])
    ensures var c := src[st.pos];
      Step(src, st) == st.(pos := st.pos + 1, col := st.col + 1,
                           tokens := st.tokens + [Token(SymbolKind(c).value, [c], st.line, st.col)],
                           stack := st.stack + [Bracket(c, st.line, st.col)])
  {
    StepIsSymbol(src, st);
    assert src[st.pos..st.pos + 1] == [src[st.pos]];
  }

  /** A closing symbol always produces its token; with an empty stack it
      records an unexpected-closer error, on a mismatch it records a mismatch
      error and leaves the stack as it was, on a match it pops. */
  lemma StepClose(src: string, st: LexState)
    requires st.pos < |src| && IsClosing(src[st.pos])
    ensures var c := src[st.pos];
      var r := Step(src, st);
      && r.pos == st.pos + 1 && r.line == st.line && r.col == st.col + 1
      && r.tokens == st.tokens + [Token(SymbolKind(c).value, [c], st.line, st.col)]
      && (|st.stack| == 0 ==>
            r.stack == [] && r.errors == st.errors + [LexerError(UnexpectedClosing(c, st.line), st.line, st.col + 1)])
      && (|st.stack| > 0 && [c] != MatchingClose(st.stack[|st.stack| - 1].ch) ==>
            var top := st.stack[|st.stack| - 1];
            r.stack == st.stack
            && r.errors == st.errors + [LexerError(Mismatch(c, st.line, top.ch, top.line), st.line, st.col + 1)])
      && (|st.stack| > 0 && [c] == MatchingClose(st.stack[|st.stack| - 1].ch) ==>
            r.stack == st.stack[..|st.stack| - 1] && r.errors == st.errors)
  {
    StepIsSymbol(src, st);
    CloseEffect(src, st);
  }

  lemma CloseEffect(src: string, st: LexState)
    requires st.pos < |src| && IsClosing(src[st.pos])
    ensures var c := src[st.pos];
      var r := Close(src, st.pos, Advance(st), c, SymbolKind(c).value);
      && r.pos == st.pos + 1 && r.line == st.line && r.col == st.col + 1
      && r.tokens == st.tokens + [Token(SymbolKind(c).value, [c], st.line, st.col)]
      && (|st.stack| == 0 ==>
            r.stack == [] && r.errors == st.errors + [LexerError(UnexpectedClosing(c, st.line), st.line, st.col + 1)])
      && (|st.stack| > 0 && [c] != MatchingClose(st.stack[|st.stack| - 1].ch) ==>
            var top := st.stack[|st.stack| - 1];
            r.stack == st.stack
            && r.errors == st.errors + [LexerError(Mismatch(c, st.line, top.ch, top.line), st.line, st.col + 1)])
      && (|st.stack| > 0 && [c] == MatchingClose(st.stack[|st.stack| - 1].ch) ==>
            r.stack == st.stack[..|st.stack| - 1] && r.errors == st.errors)
  {
    assert src[st.pos..st.pos + 1] == [src[st.pos]];
  }

  /** A letter or `_` starts an identifier: the maximal run of letters,
      digits and `_`, classified by its upper-cased text, at the column of
      its first character. */
  lemma StepIdentifier(src: string, st: LexState)
    requires st.pos < |src| && IsAlpha(src[st.pos])
    ensures var r := Step(src, st);
      var text := src[st.pos..r.pos];
      && st.pos < r.pos <= |src|
      && (forall i :: st.pos <= i < r.pos ==> IsAlphaNumeric(src[i]))
      && (r.pos == |src| || !IsAlphaNumeric(src[r.pos]))
      && r.tokens == st.tokens + [Token(Classify(ToUpper(text)), text, st.line, st.col)]
      && r == st.(pos := r.pos, col := st.col + |text|, tokens := r.tokens)
  {
    StepIsIdentifier(src, st);
  }

  /** A digit starts a number: the maximal run of ASCII digits, at the column
      of its first digit. */
  lemma StepNumber(src: string, st: LexState)
    requires st.pos < |src| && IsDigit(src[st.pos])
    ensures var r := Step(src, st);
      var text := src[st.pos..r.pos];
      && st.pos < r.pos <= |src|
      && (forall i :: st.pos <= i < r.pos ==> IsDigit(src[i]))
      && (r.pos == |src| || !IsDigit(src[r.pos]))
      && r.tokens == st.tokens + [Token(Numero, text, st.line, st.col)]
      && r == st.(pos := r.pos, col := st.col + |text|, tokens := r.tokens)
  {
    StepIsNumber(src, st);
  }

  /** `string` without a closing quote: one error, no token, and the pass is over. */
  lemma ScanUnterminated(src: string, st: LexState, q: char)
    requires st.pos < |src| && q !in src[st.pos + 1..]
    ensures var r := ScanString(src, st.pos, Advance(st), q);
      && r.pos == |src| && r.tokens == st.tokens && r.stack == st.stack
      && r.errors == st.errors + [LexerError(UnterminatedString, r.line, r.col)]
  {
    var s1 := StringLoop(src, q, Advance(st));
    assert s1.pos == |src|;
  }

  /** The string loop stops at the first later `q`. */
  lemma StringLoopStops(src: string, st: LexState, q: char)
    requires st.pos < |src| && q in src[st.pos + 1..]
    ensures var j := StringLoop(src, q, Advance(st)).pos;
      && st.pos < j < |src| && src[j] == q && q !in src[st.pos + 1..j]
  {
    var s1 := StringLoop(src, q, Advance(st));
    var k :| st.pos + 1 <= k < |src| && src[k] == q;
    assert s1.pos <= k;
  }

  /** The token a closed string adds. */
  lemma ClosedStringToken(src: string, start: nat, s1: LexState)
    requires start < s1.pos < |src|
    ensures var r := AddToken(src, start, Advance(s1), Cadena, src[start + 1..s1.pos]);
      && r.errors == s1.errors && r.stack == s1.stack && r.pos == s1.pos + 1
      && r.tokens == s1.tokens + [Token(Cadena, Lexeme(src, start, s1.pos), r.line, r.col - |Lexeme(src, start, s1.pos)|)]
  {
  }

  /** A closed string is the token of `ClosedStringToken` after the loop. */
  lemma ScanStringClosed(src: string, st: LexState, q: char)
    requires st.pos < |src| && StringLoop(src, q, Advance(st)).pos < |src|
    ensures var s1 := StringLoop(src, q, Advance(st));
      ScanString(src, st.pos, Advance(st), q) == AddToken(src, st.pos, Advance(s1), Cadena, src[st.pos + 1..s1.pos])
  {
  }

  /** `string` with a closing quote at the first later `q`. */
  lemma ScanTerminated(src: string, st: LexState, q: char)
    requires st.pos < |src| && q in src[st.pos + 1..]
    ensures var r := ScanString(src, st.pos, Advance(st), q);
      var j := r.pos - 1;
      && st.pos < j < |src| && src[j] == q && q !in src[st.pos + 1..j]
      && r.errors == st.errors && r.stack == st.stack
      && r.tokens == st.tokens + [Token(Cadena, Lexeme(src, st.pos, j), r.line, r.col - |Lexeme(src, st.pos, j)|)]
  {
    var s1 := StringLoop(src, q, Advance(st));
    StringLoopStops(src, st, q);
    ScanStringClosed(src, st, q);
    ClosedStringToken(src, st.pos, s1);
  }

  /** What a string scan starting at a quote leaves. Without a later
      occurrence of the same quote: exactly one unterminated-string error, no
      token, and the pass is over. With one: a CADENA token whose lexeme is
      the text strictly between the quotes (the two quotes themselves when
      that text is empty), at the column after the closing quote minus the
      lexeme's length. */
  predicate StringOutcome(src: string, st: LexState, r: LexState)
    requires st.pos < |src|
  {
    var q := src[st.pos];
    && r.stack == st.stack
    && (q !in src[st.pos + 1..] ==>
          r.pos == |src| && r.tokens == st.tokens
          && r.errors == st.errors + [LexerError(UnterminatedString, r.line, r.col)])
    && (q in src[st.pos + 1..] ==>
          var j := r.pos - 1;
          && st.pos < j < |src| && src[j] == q && q !in src[st.pos + 1..j]
          && r.errors == st.errors
          && r.tokens == st.tokens + [Token(Cadena, Lexeme(src, st.pos, j), r.line, r.col - |Lexeme(src, st.pos, j)|)])
  }

  /** The lexeme of a string between the quotes at `start` and `j`. */
  function Lexeme(src: string, start: nat, j: nat): string
    requires start < j < |src|
  {
    if j > start + 1 then src[start + 1..j] else src[start..j + 1]
  }

  lemma ScanStringOutcome(src: string, st: LexState)
    requires st.pos < |src|
    ensures StringOutcome(src, st, ScanString(src, st.pos, Advance(st), src[st.pos]))
  {
    var q := src[st.pos];
    if q in src[st.pos + 1..] {
      ScanTerminated(src, st, q);
    } else {
      ScanUnterminated(src, st, q);
    }
  }

  /** A quote starts a string that ends only at the same quote character. */
  lemma StepString(src: string, st: LexState)
    requires st.pos < |src| && (src[st.pos] == '"' || src[st.pos] == '\'')
    ensures StringOutcome(src, st, Step(src, st))
  {
    StepIsString(src, st);
    ScanStringOutcome(src, st);
  }

  /** Any other character (not a symbol, white space, quote, ASCII letter,
      digit or `_`) records one unexpected-character error and no token. */
  lemma StepUnexpected(src: string, st: LexState)
    requires st.pos < |src|
    requires var c := src[st.pos];
      SymbolKind(c).None? && c !in " \r\t\n\"'" && !IsAlphaNumeric(c)
    ensures Step(src, st) == st.(pos := st.pos + 1, col := st.col + 1,
      errors := st.errors + [LexerError(UnexpectedChar(src[st.pos]), st.line, st.col + 1)])
  {
  }

  /** 1-based line of position `i`: one more than the newlines before it. */
  function RefLine(src: string, i: nat): int
    requires i <= |src|
  {
    if i == 0 then 1 else RefLine(src, i - 1) + (if src[i - 1] == '\n' then 1 else 0)
  }

  /** 1-based column of position `i`: one more than the characters since the
      last newline before it. */
  function RefCol(src: string, i: nat): int
    requires i <= |src|
  {
    if i == 0 then 1 else if src[i - 1] == '\n' then 1 else RefCol(src, i - 1) + 1
  }

  predicate QuoteFree(src: string) {
    '"' !in src && '\'' !in src
  }

  /** The scanner's line is the true line; its column is the true column as
      long as the source has no quoted string (a newline inside a string sets
      the column one too far). */
  predicate PosInv(src: string, st: LexState) {
    && st.pos <= |src|
    && st.line == RefLine(src, st.pos)
    && (QuoteFree(src) ==> st.col == RefCol(src, st.pos))
  }

  /** At `i` a quote opens a string whose text `x` follows it up to the same
      quote, or `x` is the two quotes themselves with nothing between them. */
  predicate StringAt(src: string, x: string, i: nat) {
    && i < |src| && (src[i] == '"' || src[i] == '\'')
    && (|| (i + 1 + |x| < |src| && src[i + 1..i + 1 + |x|] == x && src[i + 1 + |x|] == src[i])
        || (i + 1 < |src| && src[i + 1] == src[i] && x == src[i..i + 2]))
  }

  /** Token `t` starts at offset `i`: a string token at its opening quote,
      any other token at an occurrence of its lexeme, on the true line of
      that offset and, for a quote-free source, at its true column. */
  predicate AtStart(src: string, t: Token, i: nat) {
    if t.kind == Cadena then StringAt(src, t.lexeme, i)
    else
      && i + |t.lexeme| <= |src| && src[i..i + |t.lexeme|] == t.lexeme
      && t.line == RefLine(src, i) && (QuoteFree(src) ==> t.column == RefCol(src, i))
  }

  /** The tokens `ts` start at the strictly increasing offsets `s`, all
      before `bound`. */
  predicate PlacedAt(src: string, ts: seq<Token>, s: seq<nat>, bound: nat) {
    && |s| == |ts|
    && (forall k :: 0 <= k < |ts| ==> s[k] < bound && AtStart(src, ts[k], s[k]))
    && (forall i, j :: 0 <= i < j < |s| ==> s[i] < s[j])
  }

  lemma {:induction false} RefRun(src: string, i: nat, j: nat)
    requires i <= j <= |src| && '\n' !in src[i..j]
    ensures RefLine(src, j) == RefLine(src, i) && RefCol(src, j) == RefCol(src, i) + (j - i)
    decreases j - i
  {
    if i < j {
      assert src[j - 1] == src[i..j][j - 1 - i];
      assert src[i..j - 1] == src[i..j][..j - 1 - i];
      RefRun(src, i, j - 1);
    }
  }

  lemma {:induction false} StringLoopLine(src: string, q: char, st: LexState)
    requires st.pos <= |src| && st.line == RefLine(src, st.pos)
    ensures var r := StringLoop(src, q, st); r.line == RefLine(src, r.pos)
    decreases |src| - st.pos
  {
    if st.pos < |src| && src[st.pos] != q {
      var s1 := if src[st.pos] == '\n' then st.(line := st.line + 1, col := 1) else st;
      StringLoopLine(src, q, Advance(s1));
    }
  }

  lemma PlacedAppend(src: string, ts: seq<Token>, s: seq<nat>, bound: nat, t: Token, i: nat, bound': nat)
    requires PlacedAt(src, ts, s, bound) && AtStart(src, t, i) && bound <= i < bound'
    ensures PlacedAt(src, ts + [t], s + [i], bound')
  {
    var ts', s' := ts + [t], s + [i];
    forall k | 0 <= k < |ts'|
      ensures s'[k] < bound' && AtStart(src, ts'[k], s'[k])
    {
      if k < |ts| {
        assert ts'[k] == ts[k] && s'[k] == s[k];
      }
    }
  }

  lemma PlacedGrow(src: string, ts: seq<Token>, s: seq<nat>, bound: nat, bound': nat)
    requires PlacedAt(src, ts, s, bound) && bound <= bound'
    ensures PlacedAt(src, ts, s, bound')
  {
  }

  /** A one-character token at the cursor. */
  lemma PlaceSymbol(src: string, st: LexState, k: TokenType)
    requires PosInv(src, st) && st.pos < |src| && k != Cadena
    ensures AtStart(src, Token(k, [src[st.pos]], st.line, st.col), st.pos)
  {
    assert src[st.pos..st.pos + 1] == [src[st.pos]];
  }

  /** A symbol moves one column right and adds its one-character token. */
  lemma StepSymbolShape(src: string, st: LexState)
    requires st.pos < |src| && SymbolKind(src[st.pos]).Some?
    ensures var c := src[st.pos];
      var r := Step(src, st);
      && r.pos == st.pos + 1 && r.line == st.line && r.col == st.col + 1
      && r.tokens == st.tokens + [Token(SymbolKind(c).value, [c], st.line, st.col)]
  {
    var c := src[st.pos];
    if IsOpening(c) {
      StepOpen(src, st);
    } else if IsClosing(c) {
      StepClose(src, st);
    } else {
      StepSeparator(src, st);
    }
  }

  lemma StepPosSymbol(src: string, st: LexState, s: seq<nat>)
    requires st.pos < |src| && PosInv(src, st) && PlacedAt(src, st.tokens, s, st.pos) && SymbolKind(src[st.pos]).Some?
    ensures PosInv(src, Step(src, st)) && PlacedAt(src, Step(src, st).tokens, s + [st.pos], Step(src, st).pos)
  {
    var c := src[st.pos];
    var t := Token(SymbolKind(c).value, [c], st.line, st.col);
    StepSymbolShape(src, st);
    SymbolKindsArePunctuation(c);
    assert src[st.pos..st.pos + 1] == [c];
    RefRun(src, st.pos, st.pos + 1);
    PlaceSymbol(src, st, SymbolKind(c).value);
    PlacedAppend(src, st.tokens, s, st.pos, t, st.pos, st.pos + 1);
  }

  lemma StepPosString(src: string, st: LexState, s: seq<nat>) returns (s': seq<nat>)
    requires st.pos < |src| && PosInv(src, st) && PlacedAt(src, st.tokens, s, st.pos)
    requires src[st.pos] == '"' || src[st.pos] == '\''
    ensures PosInv(src, Step(src, st)) && PlacedAt(src, Step(src, st).tokens, s', Step(src, st).pos)
  {
    StepIsString(src, st);
    s' := ScanStringPos(src, st, s);
  }

  /** The opening quote at `start` and the closing one at `j` frame the
      string's lexeme. */
  lemma LexemeAt(src: string, start: nat, j: nat)
    requires start < j < |src| && src[j] == src[start] && (src[start] == '"' || src[start] == '\'')
    ensures StringAt(src, Lexeme(src, start, j), start)
  {
  }

  /** A string scan ends on the true line of where it stops. */
  lemma ScanStringLine(src: string, st: LexState)
    requires st.pos < |src| && PosInv(src, st)
    requires src[st.pos] == '"' || src[st.pos] == '\''
    ensures var r := ScanString(src, st.pos, Advance(st), src[st.pos]);
            r.line == RefLine(src, r.pos)
  {
    var c := src[st.pos];
    var r := ScanString(src, st.pos, Advance(st), c);
    var s1 := StringLoop(src, c, Advance(st));
    assert RefLine(src, st.pos + 1) == RefLine(src, st.pos);
    StringLoopLine(src, c, Advance(st));
    if s1.pos < |src| {
      ScanStringClosed(src, st, c);
      assert r.line == s1.line && r.pos == s1.pos + 1 && src[s1.pos] != '\n';
    } else {
      assert r.line == s1.line && r.pos == s1.pos;
    }
  }

  lemma ScanStringPos(src: string, st: LexState, s: seq<nat>) returns (s': seq<nat>)
    requires st.pos < |src| && PosInv(src, st) && PlacedAt(src, st.tokens, s, st.pos)
    requires src[st.pos] == '"' || src[st.pos] == '\''
    ensures var r := ScanString(src, st.pos, Advance(st), src[st.pos]);
            PosInv(src, r) && PlacedAt(src, r.tokens, s', r.pos)
  {
    var c := src[st.pos];
    var r := ScanString(src, st.pos, Advance(st), c);
    assert !QuoteFree(src) by {
      assert c in src;
    }
    ScanStringLine(src, st);
    ScanStringOutcome(src, st);
    if c in src[st.pos + 1..] {
      var j := r.pos - 1;
      var t := Token(Cadena, Lexeme(src, st.pos, j), r.line, r.col - |Lexeme(src, st.pos, j)|);
      LexemeAt(src, st.pos, j);
      PlacedAppend(src, st.tokens, s, st.pos, t, st.pos, r.pos);
      s' := s + [st.pos];
    } else {
      PlacedGrow(src, st.tokens, s, st.pos, r.pos);
      s' := s;
    }
  }

  lemma StepPosNumber(src: string, st: LexState, s: seq<nat>)
    requires st.pos < |src| && PosInv(src, st) && PlacedAt(src, st.tokens, s, st.pos) && IsDigit(src[st.pos])
    ensures PosInv(src, Step(src, st)) && PlacedAt(src, Step(src, st).tokens, s + [st.pos], Step(src, st).pos)
  {
    var r := Step(src, st);
    StepNumber(src, st);
    var text := src[st.pos..r.pos];
    RefRun(src, st.pos, r.pos);
    var t := Token(Numero, text, st.line, st.col);
    assert AtStart(src, t, st.pos);
    PlacedAppend(src, st.tokens, s, st.pos, t, st.pos, r.pos);
  }

  lemma StepPosIdentifier(src: string, st: LexState, s: seq<nat>)
    requires st.pos < |src| && PosInv(src, st) && PlacedAt(src, st.tokens, s, st.pos) && IsAlpha(src[st.pos])
    ensures PosInv(src, Step(src, st)) && PlacedAt(src, Step(src, st).tokens, s + [st.pos], Step(src, st).pos)
  {
    var r := Step(src, st);
    StepIdentifier(src, st);
    var text := src[st.pos..r.pos];
    RefRun(src, st.pos, r.pos);
    var t := Token(Classify(ToUpper(text)), text, st.line, st.col);
    assert AtStart(src, t, st.pos);
    PlacedAppend(src, st.tokens, s, st.pos, t, st.pos, r.pos);
  }

  lemma StepPosInv(src: string, st: LexState, s: seq<nat>) returns (s': seq<nat>)
    requires st.pos < |src| && PosInv(src, st) && PlacedAt(src, st.tokens, s, st.pos)
    ensures PosInv(src, Step(src, st)) && PlacedAt(src, Step(src, st).tokens, s', Step(src, st).pos)
  {
    var c := src[st.pos];
    s' := s;
    if c in " \r\t\n" {
      StepWhitespace(src, st);
    } else if SymbolKind(c).Some? {
      StepPosSymbol(src, st, s);
      s' := s + [st.pos];
    } else if c == '"' || c == '\'' {
      s' := StepPosString(src, st, s);
    } else if IsDigit(c) {
      StepPosNumber(src, st, s);
      s' := s + [st.pos];
    } else if IsAlpha(c) {
      StepPosIdentifier(src, st, s);
      s' := s + [st.pos];
    } else {
      StepUnexpected(src, st);
    }
  }

  lemma {:induction false} RunPlaced(src: string, st: LexState, s: seq<nat>) returns (s': seq<nat>)
    requires PosInv(src, st) && PlacedAt(src, st.tokens, s, st.pos)
    ensures PlacedAt(src, Run(src, st).tokens, s', |src|)
    decreases |src| - st.pos
  {
    if st.pos < |src| {
      var s1 := StepPosInv(src, st, s);
      s' := RunPlaced(src, Step(src, st), s1);
    } else {
      s' := s;
    }
  }

  /** The tokens start at strictly increasing offsets of the source. A
      string token starts at its opening quote and its lexeme is the text up
      to the same quote, or the two quotes when that text is empty. Any other
      token starts at an occurrence of its own lexeme, carries the true line
      of that offset and, when the source has no quotes, its true 1-based
      column. */
  lemma TokenPositions(src: string)
    ensures exists s :: PlacedAt(src, Analyze(src).tokens, s, |src|)
  {
    var s := RunPlaced(src, Start, []);
    assert Analyze(src).tokens == Run(src, Start).tokens;
  }

  /** A reserved kind comes only from its own upper-cased name, BOOLEANO only
      from TRUE or FALSE, and every other text stays IDENTIFICADOR. */
  lemma ClassifyTable(u: string)
    ensures IsReserved(Classify(u)) ==> Name(Classify(u)) == u
    ensures Classify(u).Booleano? <==> u == "TRUE" || u == "FALSE"
    ensures Classify(u).Identificador? <==>
      u != "TRUE" && u != "FALSE" && (FromName(u).None? || !IsReserved(FromName(u).value))
  {
    if FromName(u).Some? {
      NameRoundTrip(FromName(u).value);
    }
  }

  /** Every reserved word is recognised, in any letter case. */
  lemma ReservedWordsRecognised(k: TokenType, text: string)
    requires IsReserved(k) && ToUpper(text) == Name(k)
    ensures Classify(ToUpper(text)) == k
  {
  }

  /** `Prerrequisitos` and `Area` are not reserved words; `true` is a boolean. */
  lemma NotReservedExamples()
    ensures Classify(ToUpper("Prerrequisitos")) == Identificador
    ensures Classify(ToUpper("Area")) == Identificador
    ensures Classify(ToUpper("true")) == Booleano
  {
    assert ToUpper("Prerrequisitos") == "PRERREQUISITOS";
    assert ToUpper("Area") == "AREA";
    assert ToUpper("true") == "TRUE";
  }
}
