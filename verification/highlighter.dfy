/** The editor's syntax colouring: the colour table over token kind names,
    the colour-to-class table, and the part of the highlighter that turns a
    list of pattern matches into marked-up text. Finding the matches is left
    to the caller: they arrive as (start, end, colour) triples, pattern by
    pattern, as the regular expressions would report them. */
module SyntaxHighlighter {
  import opened Wrappers
  import opened JsText
  import opened Sorting
  import Tokens

  datatype TokenColor = Blue | Orange | Green | Purple

  // ------------------------------------------------------------ colour table

  /** `getTokenColor`: the kind name is upper-cased first; `None` stands for
      `undefined`. The table also lists `PREREQUISITOS` and `AREA`, which no
      token kind is named. */
  function GetTokenColor(tokenType: string): Option<TokenColor> {
    match ToUpper(tokenType)
    case "CARRERA" => Some(Blue)
    case "CURSO" => Some(Blue)
    case "SEMESTRE" => Some(Blue)
    case "NOMBRE" => Some(Blue)
    case "CREDITOS" => Some(Blue)
    case "PREREQUISITO" => Some(Blue)
    case "PREREQUISITOS" => Some(Blue)
    case "AREA" => Some(Blue)
    case "CODIGO" => Some(Blue)
    case "DESCRIPCION" => Some(Blue)
    case "OBLIGATORIO" => Some(Blue)
    case "ELECTIVO" => Some(Blue)
    case "CADENA" => Some(Orange)
    case "NUMERO" => Some(Purple)
    case "BOOLEANO" => Some(Purple)
    case "DOS_PUNTOS" => Some(Green)
    case "PUNTO_COMA" => Some(Green)
    case "IGUAL" => Some(Green)
    case "COMA" => Some(Green)
    case "LLAVE_ABIERTA" => Some(Green)
    case "LLAVE_CERRADA" => Some(Green)
    case "CORCHETE_ABIERTO" => Some(Green)
    case "CORCHETE_CERRADO" => Some(Green)
    case "PARENTESIS_ABIERTO" => Some(Green)
    case "PARENTESIS_CERRADO" => Some(Green)
    case _ => None
  }

  /** The colour each token kind gets: reserved words blue, strings orange,
      numbers and booleans purple, punctuation green, and identifiers, end
      of file and errors none. */
  function KindColor(k: Tokens.TokenType): Option<TokenColor> {
    if Tokens.IsReserved(k) then Some(Blue)
    else if k.Cadena? then Some(Orange)
    else if k.Numero? || k.Booleano? then Some(Purple)
    else if Tokens.IsPunctuation(k) then Some(Green)
    else None
  }

  predicate NoLowerCase(s: string) {
    forall i :: 0 <= i < |s| ==> !('a' <= s[i] <= 'z')
  }

  lemma UpperOfUpper(s: string)
    requires NoLowerCase(s)
    ensures ToUpper(s) == s
  {
  }

  lemma ReservedNamesUpper(k: Tokens.TokenType)
    requires Tokens.IsReserved(k)
    ensures NoLowerCase(Tokens.Name(k))
  {
  }

  lemma PunctuationNamesUpper(k: Tokens.TokenType)
    requires Tokens.IsPunctuation(k)
    ensures NoLowerCase(Tokens.Name(k))
  {
  }

  lemma OtherNamesUpper(k: Tokens.TokenType)
    requires !Tokens.IsReserved(k) && !Tokens.IsPunctuation(k)
    ensures NoLowerCase(Tokens.Name(k))
  {
  }

  /** The table agrees with the kinds' names: a kind's name gets the
      kind's colour. */
  lemma ColorOfKindName(k: Tokens.TokenType)
    ensures GetTokenColor(Tokens.Name(k)) == KindColor(k)
  {
    if Tokens.IsReserved(k) {
      ReservedColor(k);
    } else if Tokens.IsPunctuation(k) {
      PunctuationColor(k);
    } else {
      OtherColor(k);
    }
  }

  lemma ReservedColor(k: Tokens.TokenType)
    requires Tokens.IsReserved(k)
    ensures GetTokenColor(Tokens.Name(k)) == KindColor(k)
  {
    ReservedNamesUpper(k);
    UpperOfUpper(Tokens.Name(k));
  }

  lemma PunctuationColor(k: Tokens.TokenType)
    requires Tokens.IsPunctuation(k)
    ensures GetTokenColor(Tokens.Name(k)) == KindColor(k)
  {
    PunctuationNamesUpper(k);
    UpperOfUpper(Tokens.Name(k));
  }

  lemma OtherColor(k: Tokens.TokenType)
    requires !Tokens.IsReserved(k) && !Tokens.IsPunctuation(k)
    ensures GetTokenColor(Tokens.Name(k)) == KindColor(k)
  {
    OtherNamesUpper(k);
    UpperOfUpper(Tokens.Name(k));
  }

  lemma UpperOfLower(s: string)
    ensures ToUpper(ToLower(s)) == ToUpper(s)
  {
    assert forall i :: 0 <= i < |s| ==> UpperChar(LowerChar(s[i])) == UpperChar(s[i]);
  }

  /** Case does not matter: any casing of a name has the same colour. */
  lemma ColorIgnoresCase(s: string, t: string)
    requires ToUpper(s) == ToUpper(t)
    ensures GetTokenColor(s) == GetTokenColor(t)
  {
  }

  /** In particular a kind's name in lower case gets the kind's colour. */
  lemma ColorOfLowerName(k: Tokens.TokenType)
    ensures GetTokenColor(ToLower(Tokens.Name(k))) == KindColor(k)
  {
    ColorOfKindName(k);
    UpperOfLower(Tokens.Name(k));
  }

  function ColorName(c: TokenColor): string {
    match c
    case Blue => "blue"
    case Orange => "orange"
    case Green => "green"
    case Purple => "purple"
  }

  /** `tokenColorClass`: a total table from colour to CSS class. */
  function ColorClass(c: TokenColor): (cls: string)
    ensures |cls| > 6 && cls[..6] == "token-" && cls[6..] == ColorName(c)
  {
    "token-" + ColorName(c)
  }

  /** Different colours get different classes. */
  lemma ColorClassInjective(a: TokenColor, b: TokenColor)
    requires ColorClass(a) == ColorClass(b)
    ensures a == b
  {
    assert ColorName(a) == ColorClass(a)[6..] == ColorClass(b)[6..] == ColorName(b);
    assert ColorName(a)[0] == ColorName(b)[0];
  }

  // ------------------------------------------------------------- the matches

  datatype Match = Match(start: nat, end: nat, color: TokenColor)

  /** Positions a regular expression can report on `text`. */
  predicate ValidIn(m: Match, text: string) {
    m.start <= m.end <= |text|
  }

  /** `(a, b) => a.start - b.start` read as "a may stay before b". */
  function ByStart(): (Match, Match) -> bool {
    (a: Match, b: Match) => a.start <= b.start
  }

  lemma ByStartPreorder()
    ensures TotalPreorder(ByStart())
  {
    var o := ByStart();
    assert forall a: Match, b: Match :: o(a, b) == (a.start <= b.start);
  }

  predicate SortedByStart(ms: seq<Match>) {
    forall i, j :: 0 <= i < j < |ms| ==> ms[i].start <= ms[j].start
  }

  /** `allMatches.sort(...)`, a stable sort by start position. */
  function SortMatches(ms: seq<Match>): (r: seq<Match>)
    ensures multiset(r) == multiset(ms)
    ensures SortedByStart(r)
  {
    ByStartPreorder();
    var r := SortBy(ms, ByStart());
    assert forall i, j :: 0 <= i < j < |r| ==> ByStart()(r[i], r[j]);
    r
  }

  /** The overlap filter: a match is kept when it starts at or after the
      end of the last kept one (`lastEnd` starts at -1). */
  function Keep(ms: seq<Match>, lastEnd: int): (kept: seq<Match>)
    ensures forall m :: m in kept ==> m in ms
    ensures |kept| > 0 ==> kept[0].start >= lastEnd
  {
    if |ms| == 0 then []
    else if ms[0].start >= lastEnd then [ms[0]] + Keep(ms[1..], ms[0].end)
    else Keep(ms[1..], lastEnd)
  }

  /** Kept matches are in order and do not overlap: each ends before the
      next one starts. */
  predicate Disjoint(kept: seq<Match>) {
    forall i, j :: 0 <= i < j < |kept| ==> kept[i].end <= kept[j].start
  }

  lemma {:induction false} KeepDisjoint(ms: seq<Match>, lastEnd: int)
    requires forall m :: m in ms ==> m.start <= m.end
    ensures Disjoint(Keep(ms, lastEnd))
  {
    if |ms| > 0 {
      var tail := ms[1..];
      assert forall m :: m in tail ==> m in ms;
      if ms[0].start >= lastEnd {
        KeepDisjoint(tail, ms[0].end);
        var k := Keep(ms, lastEnd);
        var rest := Keep(tail, ms[0].end);
        assert k == [ms[0]] + rest;
        forall i, j | 0 <= i < j < |k| ensures k[i].end <= k[j].start {
          if i == 0 {
            if j > 1 {
              assert rest[0] in ms;
              assert k[1].end <= k[j].start;
            }
          } else {
            assert k[i] == rest[i - 1] && k[j] == rest[j - 1];
          }
        }
      } else {
        KeepDisjoint(tail, lastEnd);
      }
    }
  }

  /** A dropped match starts inside a kept one (or before `lastEnd`): the
      filter discards only matches that overlap what it keeps. */
  lemma {:induction false} KeepCovers(ms: seq<Match>, lastEnd: int, m: Match)
    requires SortedByStart(ms) && m in ms
    ensures || m in Keep(ms, lastEnd)
            || m.start < lastEnd
            || exists k :: k in Keep(ms, lastEnd) && k.start <= m.start < k.end
  {
    var tail := ms[1..];
    assert SortedByStart(tail);
    if m != ms[0] {
      assert m in tail;
      if ms[0].start >= lastEnd {
        KeepCovers(tail, ms[0].end, m);
        var i :| 0 <= i < |ms| && ms[i] == m;
        assert ms[0].start <= m.start;
      } else {
        KeepCovers(tail, lastEnd, m);
      }
    }
  }

  // ------------------------------------------------------------ the markup

  /** `text.substring(a, b)`: both ends clamped to the text, swapped when
      out of order. */
  function Substring(s: string, a: int, b: int): (r: string)
    ensures 0 <= a <= b <= |s| ==> r == s[a..b]
  {
    var a' := if a < 0 then 0 else if a > |s| then |s| else a;
    var b' := if b < 0 then 0 else if b > |s| then |s| else b;
    if a' <= b' then s[a'..b'] else s[b'..a']
  }

  datatype Piece = Plain(text: string) | Span(cls: string, text: string)

  /** The pieces the assembly loop appends: the uncoloured text before each
      kept match, the match wrapped in its span, and the rest of the text. */
  function Pieces(text: string, kept: seq<Match>, lastIndex: int): seq<Piece> {
    if |kept| == 0 then [Plain(Substring(text, lastIndex, |text|))]
    else
      var m := kept[0];
      [Plain(Substring(text, lastIndex, m.start)), Span(ColorClass(m.color), Substring(text, m.start, m.end))]
      + Pieces(text, kept[1..], m.end)
  }

  function Render(ps: seq<Piece>): string {
    if |ps| == 0 then ""
    else
      match ps[0]
      case Plain(t) => t + Render(ps[1..])
      case Span(cls, t) => "<span class=\"" + cls + "\">" + t + "</span>" + Render(ps[1..])
  }

  /** The text with every span wrapper removed. */
  function Unwrapped(ps: seq<Piece>): string {
    if |ps| == 0 then "" else ps[0].text + Unwrapped(ps[1..])
  }

  /** The spans, as (class, wrapped text) pairs. */
  function Spans(ps: seq<Piece>): seq<(string, string)> {
    if |ps| == 0 then []
    else (if ps[0].Span? then [(ps[0].cls, ps[0].text)] else []) + Spans(ps[1..])
  }

  function Markup(text: string, matches: seq<Match>): seq<Piece> {
    Pieces(text, Keep(SortMatches(matches), -1), 0)
  }

  /** `highlightText`, given the matches of the four patterns. */
  function HighlightText(text: string, matches: seq<Match>): (r: string)
    ensures (forall i :: 0 <= i < |text| ==> IsJsSpace(text[i])) ==> r == text
  {
    if Trim(text) == "" then text else Render(Markup(text, matches))
  }

  // ---------------------------------------------------- the markup read back

  /** One span per kept match, in order, with the match's class and text. */
  function KeptSpans(text: string, kept: seq<Match>): (r: seq<(string, string)>)
    ensures |r| == |kept|
  {
    seq(|kept|, i requires 0 <= i < |kept| => (ColorClass(kept[i].color), Substring(text, kept[i].start, kept[i].end)))
  }

  /** The conditions the filter establishes for the assembly loop. */
  predicate Assemblable(text: string, kept: seq<Match>, lastIndex: nat) {
    && lastIndex <= |text| && Disjoint(kept)
    && forall i :: 0 <= i < |kept| ==> lastIndex <= kept[i].start && ValidIn(kept[i], text)
  }

  lemma AssemblableTail(text: string, kept: seq<Match>, lastIndex: nat)
    requires |kept| > 0 && Assemblable(text, kept, lastIndex)
    ensures Assemblable(text, kept[1..], kept[0].end)
  {
    var tail := kept[1..];
    forall i | 0 <= i < |tail| ensures kept[0].end <= tail[i].start && ValidIn(tail[i], text) {
      assert tail[i] == kept[i + 1];
    }
  }

  lemma UnwrappedCons2(ps: seq<Piece>)
    requires |ps| >= 2
    ensures Unwrapped(ps) == ps[0].text + (ps[1].text + Unwrapped(ps[2..]))
  {
    assert ps[1..][1..] == ps[2..];
  }

  lemma SplitThree(text: string, i: nat, j: nat, k: nat)
    requires i <= j <= k <= |text|
    ensures text[i..] == text[i..j] + (text[j..k] + text[k..])
  {
  }

  lemma {:induction false} PiecesUnwrap(text: string, kept: seq<Match>, lastIndex: nat)
    requires Assemblable(text, kept, lastIndex)
    ensures Unwrapped(Pieces(text, kept, lastIndex)) == text[lastIndex..]
  {
    if |kept| > 0 {
      var m := kept[0];
      assert lastIndex <= m.start <= m.end <= |text|;
      AssemblableTail(text, kept, lastIndex);
      PiecesUnwrap(text, kept[1..], m.end);
      var ps := Pieces(text, kept, lastIndex);
      assert ps[2..] == Pieces(text, kept[1..], m.end);
      UnwrappedCons2(ps);
      SplitThree(text, lastIndex, m.start, m.end);
    }
  }

  lemma KeptSpansCons(text: string, kept: seq<Match>)
    requires |kept| > 0
    ensures KeptSpans(text, kept)
            == [(ColorClass(kept[0].color), Substring(text, kept[0].start, kept[0].end))] + KeptSpans(text, kept[1..])
  {
    var tail := KeptSpans(text, kept[1..]);
    forall i | 0 <= i < |tail| ensures tail[i] == KeptSpans(text, kept)[i + 1] {
      assert kept[1..][i] == kept[i + 1];
    }
  }

  lemma SpansPlainSpan(ps: seq<Piece>)
    requires |ps| >= 2 && ps[0].Plain? && ps[1].Span?
    ensures Spans(ps) == [(ps[1].cls, ps[1].text)] + Spans(ps[2..])
  {
    assert ps[1..][1..] == ps[2..];
  }

  lemma {:induction false} PiecesSpans(text: string, kept: seq<Match>, lastIndex: int)
    ensures Spans(Pieces(text, kept, lastIndex)) == KeptSpans(text, kept)
  {
    if |kept| > 0 {
      var m := kept[0];
      PiecesSpans(text, kept[1..], m.end);
      var ps := Pieces(text, kept, lastIndex);
      assert ps[2..] == Pieces(text, kept[1..], m.end);
      SpansPlainSpan(ps);
      KeptSpansCons(text, kept);
    }
  }

  /** Removing the span wrappers from the markup gives the input text back,
      the kept matches do not overlap, and there is one span per kept match,
      in order, with the match's class and exactly the matched text. */
  lemma MarkupReadBack(text: string, matches: seq<Match>)
    requires forall m :: m in matches ==> ValidIn(m, text)
    ensures Unwrapped(Markup(text, matches)) == text
    ensures Disjoint(Keep(SortMatches(matches), -1))
    ensures Spans(Markup(text, matches)) == KeptSpans(text, Keep(SortMatches(matches), -1))
  {
    var sorted := SortMatches(matches);
    forall m | m in sorted ensures ValidIn(m, text) {
      assert m in multiset(sorted);
    }
    var kept := Keep(sorted, -1);
    KeepDisjoint(sorted, -1);
    assert Assemblable(text, kept, 0);
    PiecesUnwrap(text, kept, 0);
    PiecesSpans(text, kept, 0);
  }

  /** Every match is either kept or starts inside a kept one. */
  lemma FilterDropsOnlyOverlaps(matches: seq<Match>, m: Match)
    requires m in matches
    ensures var kept := Keep(SortMatches(matches), -1);
            m in kept || exists k :: k in kept && k.start <= m.start < k.end
  {
    var sorted := SortMatches(matches);
    assert m in multiset(sorted);
    KeepCovers(sorted, -1, m);
  }
}
