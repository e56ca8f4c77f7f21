/**
 What the lexer's bracket stack guarantees over a whole pass: the tokens it
 emits are balanced exactly when it reports no bracket error, the stack obeys
 a conservation law, and at most one unclosed opener is reported, the
 innermost one.
 */
module LexerBrackets {
  import opened Wrappers
  import opened Tokens
  import opened Lexer

  /** Number of elements satisfying `p`. */
  function CountIf<T>(s: seq<T>, p: T -> bool): nat {
    if |s| == 0 then 0 else CountIf(s[..|s| - 1], p) + (if p(s[|s| - 1]) then 1 else 0)
  }

  lemma CountIfAppend<T>(s: seq<T>, x: T, p: T -> bool)
    ensures CountIf(s + [x], p) == CountIf(s, p) + (if p(x) then 1 else 0)
  {
    assert (s + [x])[..|s|] == s;
  }

  /** The bracket character a token kind stands for, if it is a bracket kind. */
  function BracketOf(k: TokenType): Option<char> {
    match k
    case LlaveAbierta => Some('{')
    case LlaveCerrada => Some('}')
    case CorcheteAbierto => Some('[')
    case CorcheteCerrado => Some(']')
    case ParentesisAbierto => Some('(')
    case ParentesisCerrado => Some(')')
    case _ => None
  }

  /** The bracket symbols of a token list, in order. */
  function BracketChars(ts: seq<Token>): seq<char> {
    if |ts| == 0 then []
    else
      var last := BracketOf(ts[|ts| - 1].kind);
      BracketChars(ts[..|ts| - 1]) + (if last.Some? then [last.value] else [])
  }

  lemma BracketCharsAppend(ts: seq<Token>, t: Token)
    ensures BracketChars(ts + [t]) == BracketChars(ts) + (if BracketOf(t.kind).Some? then [BracketOf(t.kind).value] else [])
  {
    assert (ts + [t])[..|ts|] == ts;
  }

  /** Reference matcher, one symbol at a time: the open symbols still
      waiting, or None once a closer had no partner or the wrong one. */
  function Feed(acc: Option<seq<char>>, b: char): Option<seq<char>> {
    if acc.None? then None
    else if IsOpening(b) then Some(acc.value + [b])
    else if |acc.value| == 0 then None
    else if [b] == MatchingClose(acc.value[|acc.value| - 1]) then Some(acc.value[..|acc.value| - 1])
    else None
  }

  function Reduce(bs: seq<char>): Option<seq<char>> {
    if |bs| == 0 then Some([]) else Feed(Reduce(bs[..|bs| - 1]), bs[|bs| - 1])
  }

  lemma ReduceAppend(bs: seq<char>, b: char)
    ensures Reduce(bs + [b]) == Feed(Reduce(bs), b)
  {
    assert (bs + [b])[..|bs|] == bs;
  }

  /** Correctly nested and closed. */
  predicate Balanced(bs: seq<char>) {
    Reduce(bs) == Some([])
  }

  function StackChars(stack: seq<Bracket>): (r: seq<char>)
    ensures |r| == |stack|
  {
    seq(|stack|, i requires 0 <= i < |stack| => stack[i].ch)
  }

  predicate IsBracketError(e: LexerError) {
    e.kind.UnexpectedClosing? || e.kind.Mismatch? || e.kind.Unclosed?
  }

  predicate HasBracketError(errs: seq<LexerError>) {
    exists i :: 0 <= i < |errs| && IsBracketError(errs[i])
  }

  lemma HasBracketErrorAppend(errs: seq<LexerError>, e: LexerError)
    ensures HasBracketError(errs + [e]) <==> HasBracketError(errs) || IsBracketError(e)
  {
    if HasBracketError(errs) {
      var i :| 0 <= i < |errs| && IsBracketError(errs[i]);
      assert (errs + [e])[i] == errs[i];
    }
    if IsBracketError(e) {
      assert (errs + [e])[|errs|] == e;
    }
    if HasBracketError(errs + [e]) {
      var i :| 0 <= i < |errs + [e]| && IsBracketError((errs + [e])[i]);
      if i < |errs| {
        assert errs[i] == (errs + [e])[i];
      }
    }
  }

  /** The stack and the reference matcher agree on everything emitted so far. */
  predicate BracketInv(st: LexState) {
    Reduce(BracketChars(st.tokens)) == if HasBracketError(st.errors) then None else Some(StackChars(st.stack))
  }

  predicate IsOpenToken(t: Token) {
    t.kind.LlaveAbierta? || t.kind.CorcheteAbierto? || t.kind.ParentesisAbierto?
  }

  predicate IsCloseToken(t: Token) {
    t.kind.LlaveCerrada? || t.kind.CorcheteCerrado? || t.kind.ParentesisCerrado?
  }

  predicate IsUnexpectedClosing(e: LexerError) {
    e.kind.UnexpectedClosing?
  }

  predicate IsMismatch(e: LexerError) {
    e.kind.Mismatch?
  }

  predicate IsUnclosed(e: LexerError) {
    e.kind.Unclosed?
  }

  /** Conservation over the stack: every opener is on the stack or was
      matched, and every closer either matched or was reported. */
  predicate ConservationInv(st: LexState) {
    |st.stack| + CountIf(st.tokens, IsCloseToken)
      == CountIf(st.tokens, IsOpenToken) + CountIf(st.errors, IsUnexpectedClosing) + CountIf(st.errors, IsMismatch)
  }

  /** A step on anything but a bracket leaves the stack alone and adds no
      bracket token and no bracket error. */
  lemma StepNonBracket(src: string, st: LexState)
    requires st.pos < |src| && !IsOpening(src[st.pos]) && !IsClosing(src[st.pos])
    ensures PlainEffect(st, Step(src, st))
    ensures forall i :: |st.errors| <= i < |Step(src, st).errors| ==> !IsBracketError(Step(src, st).errors[i])
  {
    var c := src[st.pos];
    if c == ',' || c == ';' || c == ':' || c == '=' {
      StepSeparatorPlain(src, st);
    } else if c == '"' || c == '\'' {
      StepStringPlain(src, st);
    } else if c == ' ' || c == '\r' || c == '\t' || c == '\n' {
    } else {
      StepOtherPlain(src, st);
    }
  }

  lemma StepSeparatorPlain(src: string, st: LexState)
    requires st.pos < |src| && src[st.pos] in {',', ';', ':', '='}
    ensures PlainEffect(st, Step(src, st))
    ensures forall i :: |st.errors| <= i < |Step(src, st).errors| ==> !IsBracketError(Step(src, st).errors[i])
  {
    assert BracketOf(Step(src, st).tokens[|st.tokens|].kind).None?;
  }

  lemma StepStringPlain(src: string, st: LexState)
    requires st.pos < |src| && (src[st.pos] == '"' || src[st.pos] == '\'')
    ensures PlainEffect(st, Step(src, st))
    ensures forall i :: |st.errors| <= i < |Step(src, st).errors| ==> !IsBracketError(Step(src, st).errors[i])
  {
    assert Step(src, st) == ScanString(src, st.pos, Advance(st), src[st.pos]);
  }

  lemma StepOtherPlain(src: string, st: LexState)
    requires st.pos < |src| && !IsOpening(src[st.pos]) && !IsClosing(src[st.pos])
    requires src[st.pos] !in {',', ';', ':', '=', '"', '\'', ' ', '\r', '\t', '\n'}
    ensures PlainEffect(st, Step(src, st))
    ensures forall i :: |st.errors| <= i < |Step(src, st).errors| ==> !IsBracketError(Step(src, st).errors[i])
  {
    var c := src[st.pos];
    var s1 := Advance(st);
    if IsDigit(c) {
      assert Step(src, st) == ScanNumber(src, st.pos, s1);
    } else if IsAlpha(c) {
      assert Step(src, st) == ScanIdentifier(src, st.pos, s1);
    } else {
      assert Step(src, st) == AddError(s1, UnexpectedChar(c));
    }
  }

  /** The effect of an opening symbol. */
  lemma StepOpening(src: string, st: LexState)
    requires st.pos < |src| && IsOpening(src[st.pos])
    ensures var r := Step(src, st);
      && r.errors == st.errors
      && r.stack == st.stack + [Bracket(src[st.pos], st.line, st.col)]
      && |r.tokens| == |st.tokens| + 1 && r.tokens[..|st.tokens|] == st.tokens
      && BracketOf(r.tokens[|st.tokens|].kind) == Some(src[st.pos])
  {
  }

  /** The effect of a closing symbol: `handleClosingBracket`, then the token. */
  lemma StepClosing(src: string, st: LexState)
    requires st.pos < |src| && IsClosing(src[st.pos])
    ensures var r := Step(src, st);
      && r == AddToken(src, st.pos, HandleClosing(Advance(st), src[st.pos]), r.tokens[|st.tokens|].kind, "")
      && BracketOf(r.tokens[|st.tokens|].kind) == Some(src[st.pos])
  {
  }

  /** `handleClosingBracket` agrees with one step of the reference matcher. */
  lemma HandleClosingFeeds(st: LexState, c: char)
    requires IsClosing(c)
    ensures var r := HandleClosing(st, c);
      && (r.errors == st.errors ==> Feed(Some(StackChars(st.stack)), c) == Some(StackChars(r.stack)))
      && (r.errors != st.errors ==>
            && Feed(Some(StackChars(st.stack)), c) == None && r.stack == st.stack
            && |r.errors| == |st.errors| + 1 && r.errors[..|st.errors|] == st.errors
            && (r.errors[|st.errors|].kind.UnexpectedClosing? || r.errors[|st.errors|].kind.Mismatch?))
      && (r.errors == st.errors ==> |r.stack| + 1 == |st.stack|)
      && (r.errors != st.errors ==> (r.errors[|st.errors|].kind.UnexpectedClosing? <==> |st.stack| == 0))
  {
    var r := HandleClosing(st, c);
    if |st.stack| > 0 && r.errors == st.errors {
      assert StackChars(r.stack) == StackChars(st.stack)[..|st.stack| - 1];
    }
  }

  /** A closing symbol's effect, described without reference to `Step`. */
  predicate ClosingEffect(st: LexState, r: LexState, c: char) {
    && IsClosing(c)
    && |r.tokens| == |st.tokens| + 1 && r.tokens[..|st.tokens|] == st.tokens
    && BracketOf(r.tokens[|st.tokens|].kind) == Some(c)
    && (r.errors == st.errors ==> Feed(Some(StackChars(st.stack)), c) == Some(StackChars(r.stack)) && |r.stack| + 1 == |st.stack|)
    && (r.errors != st.errors ==>
          && Feed(Some(StackChars(st.stack)), c) == None && r.stack == st.stack
          && |r.errors| == |st.errors| + 1 && r.errors[..|st.errors|] == st.errors
          && (r.errors[|st.errors|].kind.UnexpectedClosing? || r.errors[|st.errors|].kind.Mismatch?))
  }

  lemma StepClosingEffect(src: string, st: LexState)
    requires st.pos < |src| && IsClosing(src[st.pos])
    ensures ClosingEffect(st, Step(src, st), src[st.pos])
  {
    StepClosing(src, st);
    HandleClosingFeeds(Advance(st), src[st.pos]);
  }

  /** A non-bracket step's effect, described without reference to `Step`. */
  predicate PlainEffect(st: LexState, r: LexState) {
    && r.stack == st.stack
    && Grows(st, r)
    && (forall i :: |st.tokens| <= i < |r.tokens| ==> BracketOf(r.tokens[i].kind).None?)
    && (forall i :: |st.errors| <= i < |r.errors| ==> !r.errors[i].kind.UnexpectedClosing? && !r.errors[i].kind.Mismatch?)
  }

  lemma PlainKeepsBracketInv(st: LexState, r: LexState)
    requires PlainEffect(st, r) && BracketInv(st)
    requires forall i :: |st.errors| <= i < |r.errors| ==> !IsBracketError(r.errors[i])
    ensures BracketInv(r)
  {
    if |r.tokens| > |st.tokens| {
      assert r.tokens == st.tokens + [r.tokens[|st.tokens|]];
      BracketCharsAppend(st.tokens, r.tokens[|st.tokens|]);
    } else {
      assert r.tokens == st.tokens;
    }
    assert BracketChars(r.tokens) == BracketChars(st.tokens);
    if |r.errors| > |st.errors| {
      assert r.errors == st.errors + [r.errors[|st.errors|]];
      HasBracketErrorAppend(st.errors, r.errors[|st.errors|]);
    } else {
      assert r.errors == st.errors;
    }
    assert HasBracketError(r.errors) == HasBracketError(st.errors);
  }

  lemma OpeningKeepsBracketInv(st: LexState, r: LexState, c: char)
    requires IsOpening(c) && BracketInv(st)
    requires r.errors == st.errors && |r.stack| == |st.stack| + 1 && r.stack[..|st.stack|] == st.stack
    requires r.stack[|st.stack|].ch == c
    requires |r.tokens| == |st.tokens| + 1 && r.tokens[..|st.tokens|] == st.tokens
    requires BracketOf(r.tokens[|st.tokens|].kind) == Some(c)
    ensures BracketInv(r)
  {
    assert r.tokens == st.tokens + [r.tokens[|st.tokens|]];
    BracketCharsAppend(st.tokens, r.tokens[|st.tokens|]);
    ReduceAppend(BracketChars(st.tokens), c);
    assert StackChars(r.stack) == StackChars(st.stack) + [c];
  }

  lemma ClosingKeepsBracketInv(st: LexState, r: LexState, c: char)
    requires ClosingEffect(st, r, c) && BracketInv(st)
    ensures BracketInv(r)
  {
    assert r.tokens == st.tokens + [r.tokens[|st.tokens|]];
    BracketCharsAppend(st.tokens, r.tokens[|st.tokens|]);
    ReduceAppend(BracketChars(st.tokens), c);
    if r.errors != st.errors {
      assert r.errors == st.errors + [r.errors[|st.errors|]];
      HasBracketErrorAppend(st.errors, r.errors[|st.errors|]);
    }
  }

  lemma StepBracketInv(src: string, st: LexState)
    requires st.pos < |src| && BracketInv(st)
    ensures BracketInv(Step(src, st))
  {
    var c := src[st.pos];
    if IsOpening(c) {
      StepOpening(src, st);
      OpeningKeepsBracketInv(st, Step(src, st), c);
    } else if IsClosing(c) {
      StepClosingEffect(src, st);
      ClosingKeepsBracketInv(st, Step(src, st), c);
    } else {
      StepNonBracket(src, st);
      PlainKeepsBracketInv(st, Step(src, st));
    }
  }

  lemma PlainKeepsConservation(st: LexState, r: LexState)
    requires PlainEffect(st, r) && ConservationInv(st)
    ensures ConservationInv(r)
  {
    if |r.tokens| > |st.tokens| {
      var t := r.tokens[|st.tokens|];
      assert r.tokens == st.tokens + [t];
      CountIfAppend(st.tokens, t, IsOpenToken);
      CountIfAppend(st.tokens, t, IsCloseToken);
    } else {
      assert r.tokens == st.tokens;
    }
    if |r.errors| > |st.errors| {
      var e := r.errors[|st.errors|];
      assert r.errors == st.errors + [e];
      CountIfAppend(st.errors, e, IsUnexpectedClosing);
      CountIfAppend(st.errors, e, IsMismatch);
    } else {
      assert r.errors == st.errors;
    }
  }

  lemma OpeningKeepsConservation(st: LexState, r: LexState, c: char)
    requires IsOpening(c) && ConservationInv(st)
    requires r.errors == st.errors && |r.stack| == |st.stack| + 1
    requires |r.tokens| == |st.tokens| + 1 && r.tokens[..|st.tokens|] == st.tokens
    requires BracketOf(r.tokens[|st.tokens|].kind) == Some(c)
    ensures ConservationInv(r)
  {
    var t := r.tokens[|st.tokens|];
    assert r.tokens == st.tokens + [t];
    CountIfAppend(st.tokens, t, IsOpenToken);
    CountIfAppend(st.tokens, t, IsCloseToken);
  }

  lemma ClosingKeepsConservation(st: LexState, r: LexState, c: char)
    requires ClosingEffect(st, r, c) && ConservationInv(st)
    ensures ConservationInv(r)
  {
    var t := r.tokens[|st.tokens|];
    assert r.tokens == st.tokens + [t];
    CountIfAppend(st.tokens, t, IsOpenToken);
    CountIfAppend(st.tokens, t, IsCloseToken);
    if r.errors != st.errors {
      var e := r.errors[|st.errors|];
      assert r.errors == st.errors + [e];
      CountIfAppend(st.errors, e, IsUnexpectedClosing);
      CountIfAppend(st.errors, e, IsMismatch);
    }
  }

  lemma StepConservation(src: string, st: LexState)
    requires st.pos < |src| && ConservationInv(st)
    ensures ConservationInv(Step(src, st))
  {
    var c := src[st.pos];
    if IsOpening(c) {
      StepOpening(src, st);
      OpeningKeepsConservation(st, Step(src, st), c);
    } else if IsClosing(c) {
      StepClosingEffect(src, st);
      ClosingKeepsConservation(st, Step(src, st), c);
    } else {
      StepNonBracket(src, st);
      PlainKeepsConservation(st, Step(src, st));
    }
  }

  lemma StepAddsNoUnclosed(st: LexState, s1: LexState)
    requires Grows(st, s1)
    ensures CountIf(s1.errors, IsUnclosed) == CountIf(st.errors, IsUnclosed)
  {
    if |s1.errors| > |st.errors| {
      var e := s1.errors[|st.errors|];
      assert s1.errors == st.errors + [e];
      CountIfAppend(st.errors, e, IsUnclosed);
    } else {
      assert s1.errors == st.errors;
    }
  }

  /** The main loop adds no unclosed-opener error and keeps both invariants. */
  lemma {:induction false} RunInvariants(src: string, st: LexState)
    requires st.pos <= |src| && BracketInv(st) && ConservationInv(st)
    requires CountIf(st.errors, IsUnclosed) == 0
    ensures var r := Run(src, st);
      BracketInv(r) && ConservationInv(r) && CountIf(r.errors, IsUnclosed) == 0
    decreases |src| - st.pos
  {
    if st.pos < |src| {
      StepBracketInv(src, st);
      StepConservation(src, st);
      StepAddsNoUnclosed(st, Step(src, st));
      RunInvariants(src, Step(src, st));
    }
  }

  /** What the end-of-pass check adds: nothing for an empty stack, otherwise
      exactly one unclosed-opener error naming the top entry. */
  lemma FinishReport(st: LexState)
    ensures Finish(st).tokens == st.tokens
    ensures |st.stack| == 0 ==> Finish(st).errors == st.errors
    ensures |st.stack| > 0 ==>
      var top := st.stack[|st.stack| - 1];
      Finish(st).errors == st.errors + [LexerError(Unclosed(top.ch, top.line), st.line, st.col)]
  {
  }

  /** The tokens `analyze` emits are correctly nested and closed exactly when
      it reports no unexpected-closer, mismatch or unclosed-opener error. */
  lemma BalancedIffNoBracketErrors(src: string)
    ensures Balanced(BracketChars(Analyze(src).tokens)) <==> !HasBracketError(Analyze(src).errors)
  {
    var st := Run(src, Start);
    assert StackChars(Start.stack) == [];
    assert !HasBracketError(Start.errors);
    RunInvariants(src, Start);
    FinishReport(st);
    var res := Analyze(src);
    if |st.stack| > 0 {
      var top := st.stack[|st.stack| - 1];
      var e := LexerError(Unclosed(top.ch, top.line), st.line, st.col);
      HasBracketErrorAppend(st.errors, e);
      assert HasBracketError(res.errors);
      if !HasBracketError(st.errors) {
        assert Reduce(BracketChars(res.tokens)) == Some(StackChars(st.stack));
        assert StackChars(st.stack) != [];
      }
    }
  }

  /** The conservation law the stack obeys, stated on the output: an
      unclosed opener is reported (once) exactly when more openers were
      emitted than closers that found their partner. */
  lemma UnclosedIffOpenersOutnumberMatched(src: string)
    ensures var res := Analyze(src);
      CountIf(res.errors, IsUnclosed)
        == if CountIf(res.tokens, IsOpenToken) + CountIf(res.errors, IsUnexpectedClosing) + CountIf(res.errors, IsMismatch)
                > CountIf(res.tokens, IsCloseToken)
           then 1 else 0
  {
    var st := Run(src, Start);
    RunInvariants(src, Start);
    FinishReport(st);
    if |st.stack| > 0 {
      var top := st.stack[|st.stack| - 1];
      var e := LexerError(Unclosed(top.ch, top.line), st.line, st.col);
      CountIfAppend(st.errors, e, IsUnclosed);
      CountIfAppend(st.errors, e, IsUnexpectedClosing);
      CountIfAppend(st.errors, e, IsMismatch);
    }
  }

  /** At most one unclosed-opener error, the last one, and it names the
      innermost opener still on the stack when the input ran out. */
  lemma UnclosedReportedOnce(src: string)
    ensures var st := Run(src, Start);
      var res := Analyze(src);
      && CountIf(res.errors, IsUnclosed) == (if |st.stack| > 0 then 1 else 0)
      && (|st.stack| > 0 ==>
            res.errors[|res.errors| - 1].kind == Unclosed(st.stack[|st.stack| - 1].ch, st.stack[|st.stack| - 1].line))
  {
    var st := Run(src, Start);
    RunInvariants(src, Start);
    FinishReport(st);
    if |st.stack| > 0 {
      var top := st.stack[|st.stack| - 1];
      CountIfAppend(st.errors, LexerError(Unclosed(top.ch, top.line), st.line, st.col), IsUnclosed);
    }
  }

  /** Every token the lexer emits has a kind other than EOF and ERROR. */
  lemma {:induction false} RunEmittable(src: string, st: LexState)
    requires st.pos <= |src|
    requires forall i :: 0 <= i < |st.tokens| ==> Emittable(st.tokens[i].kind)
    ensures var r := Run(src, st); forall i :: 0 <= i < |r.tokens| ==> Emittable(r.tokens[i].kind)
    decreases |src| - st.pos
  {
    if st.pos < |src| {
      var s1 := Step(src, st);
      forall i | 0 <= i < |s1.tokens| ensures Emittable(s1.tokens[i].kind) {
        if i < |st.tokens| {
          assert s1.tokens[i] == s1.tokens[..|st.tokens|][i];
        }
      }
      RunEmittable(src, s1);
      assert Run(src, st) == Run(src, s1);
    }
  }

  /** No EOF token is ever appended, nor an ERROR one. */
  lemma AnalyzeNeverEmitsEofOrError(src: string)
    ensures forall i :: 0 <= i < |Analyze(src).tokens| ==> Emittable(Analyze(src).tokens[i].kind)
  {
    RunEmittable(src, Start);
    FinishReport(Run(src, Start));
    assert Analyze(src).tokens == Run(src, Start).tokens;
  }
}
