/** The recursive-descent parser of the backend: it walks the lexer's token
    list once and fills a `Pensum` (career name, courses grouped by semester,
    courses by code). Every `match` of a keyword is modelled as a cursor step,
    and the extra `advance` that follows several of them is kept, so the model
    skips exactly the tokens the program skips. A thrown error becomes a
    `Failure`. */
module Parser {
  import opened Wrappers
  import opened JsText
  import opened Tokens

  datatype Curso = Curso(
    codigo: string,
    nombre: string,
    creditos: JsNum,
    prerrequisitos: seq<string>,
    semestre: JsNum,
    descripcion: Option<string>,
    area: Option<string>,
    obligatorio: Option<bool>)

  /** `semestres` is keyed by the parsed semester number (JavaScript `Map`
      keys compare NaN equal to itself, as `JsNum` equality does). */
  datatype Pensum = Pensum(carrera: string, semestres: map<JsNum, seq<Curso>>, cursos: map<string, Curso>)

  const EmptyPensum := Pensum("", map[], map[])

  /** The single-valued course fields, `Campo : valor ;`. */
  datatype Field = NombreField | CodigoField | CreditosField | DescripcionField | ObligatorioField | AreaField

  /** What a failed `consume` was looking for; `Text` is the message the
      program throws with. */
  datatype Expectation =
    | ColonAfter(keyword: string)
    | CareerName
    | SemesterNumber
    | BraceAfterSemester
    | CourseCode
    | BraceAfterCode
    | ParenAfterColon
    | FieldValue(field: Field)
    | SemicolonAfter(field: Field)
  {
    function Text(): string {
      match this
      case ColonAfter(k) => "Se esperaba ':' después de " + k
      case CareerName => "Se esperaba el nombre de la carrera"
      case SemesterNumber => "Se esperaba el número del semestre"
      case BraceAfterSemester => "Se esperaba '{' después del número del semestre"
      case CourseCode => "Se esperaba el código del curso"
      case BraceAfterCode => "Se esperaba '{' después del código del curso"
      case ParenAfterColon => "Se esperaba '(' después de ':'"
      case FieldValue(f) =>
        (match f
         case NombreField => "Se esperaba el nombre del curso"
         case CodigoField => "Se esperaba el código del curso"
         case CreditosField => "Se esperaba el número de créditos"
         case DescripcionField => "Se esperaba la descripción del curso"
         case ObligatorioField => "Se esperaba true o false para obligatorio"
         case AreaField => "Se esperaba el área del curso")
      case SemicolonAfter(f) =>
        "Se esperaba ';' después " +
        (match f
         case NombreField => "del nombre"
         case CodigoField => "del código"
         case CreditosField => "de los créditos"
         case DescripcionField => "de la descripción"
         case ObligatorioField => "de obligatorio"
         case AreaField => "del área")
    }
  }

  /** The keyword a field is introduced by, as the messages spell it. */
  function FieldKeyword(f: Field): string {
    match f
    case NombreField => "NOMBRE"
    case CodigoField => "CODIGO"
    case CreditosField => "CREDITOS"
    case DescripcionField => "DESCRIPCION"
    case ObligatorioField => "OBLIGATORIO"
    case AreaField => "AREA"
  }

  datatype ParseError =
    | ConsumeFailed(expected: Expectation, found: Option<Token>)
    | MissingCloseParen
  {
    /** The text of the thrown `Error`. */
    function Message(): string {
      match this
      case ConsumeFailed(e, None) =>
        e.Text() + " - Se alcanzó el final del archivo inesperadamente"
      case ConsumeFailed(e, Some(t)) =>
        e.Text() + " - Encontrado: " + Name(t.kind) + " '" + t.lexeme + "' en línea " + IntText(t.line)
      case MissingCloseParen =>
        "Se esperaba ')' para cerrar los prerrequisitos"
    }
  }

  // ---------------------------------------------------------------- cursor

  /** Past the last token, or looking at an EOF token. */
  predicate AtEnd(ts: seq<Token>, pos: nat) {
    pos >= |ts| || ts[pos].kind == Eof
  }

  predicate Check(ts: seq<Token>, pos: nat, k: TokenType) {
    !AtEnd(ts, pos) && ts[pos].kind == k
  }

  /** `advance`: moves on by one token unless at the end. */
  function Skip(ts: seq<Token>, pos: nat): (r: nat)
    requires pos <= |ts|
    ensures r <= |ts|
    ensures AtEnd(ts, pos) <==> r == pos
    ensures !AtEnd(ts, pos) <==> r == pos + 1
  {
    if AtEnd(ts, pos) then pos else pos + 1
  }

  /** `if (match(k)) advance()`: a closing token is taken together with
      the token after it. */
  function CloseAndSkip(ts: seq<Token>, pos: nat, k: TokenType): (r: nat)
    requires pos <= |ts|
    ensures pos <= r <= |ts|
    ensures !Check(ts, pos, k) ==> r == pos
    ensures Check(ts, pos, k) ==> r == Skip(ts, pos + 1) && r > pos
  {
    if Check(ts, pos, k) then Skip(ts, pos + 1) else pos
  }

  /** `consume`: the expected kind is taken, otherwise the error cites the
      token found, or the end of the input. */
  function Consume(ts: seq<Token>, pos: nat, k: TokenType, msg: Expectation): (r: Result<nat, ParseError>)
    requires pos <= |ts|
    ensures r.Success? <==> Check(ts, pos, k)
    ensures r.Success? ==> r.value == pos + 1 <= |ts|
    ensures r.Failure? && AtEnd(ts, pos) ==> r.error == ConsumeFailed(msg, None)
    ensures r.Failure? && !AtEnd(ts, pos) ==> r.error == ConsumeFailed(msg, Some(ts[pos]))
  {
    if Check(ts, pos, k) then Success(pos + 1)
    else if AtEnd(ts, pos) then Failure(ConsumeFailed(msg, None))
    else Failure(ConsumeFailed(msg, Some(ts[pos])))
  }

  /** The `: value ;` tail shared by every course field; yields the cursor
      after the `;` and the value token's lexeme. */
  function ParseField(ts: seq<Token>, pos: nat, value: TokenType, f: Field)
    : (r: Result<(nat, string), ParseError>)
    requires pos <= |ts|
    ensures r.Success? <==>
      Check(ts, pos, DosPuntos) && Check(ts, pos + 1, value) && Check(ts, pos + 2, PuntoComa)
    ensures r.Success? ==> r.value == (pos + 3, ts[pos + 1].lexeme) && pos + 3 <= |ts|
  {
    var p1 :- Consume(ts, pos, DosPuntos, ColonAfter(FieldKeyword(f)));
    var p2 :- Consume(ts, p1, value, FieldValue(f));
    var text := ts[p1].lexeme;
    var p3 :- Consume(ts, p2, PuntoComa, SemicolonAfter(f));
    Success((p3, text))
  }

  // ---------------------------------------------------------- prerequisites

  /** Reference: the lexemes of the NUMERO tokens of `ts`, in order. */
  function NumberLexemes(ts: seq<Token>): seq<string> {
    if ts == [] then []
    else (if ts[0].kind == Numero then [ts[0].lexeme] else []) + NumberLexemes(ts[1..])
  }

  /** The loop inside `( … )`: numbers are collected, commas and anything
      else are stepped over, up to the first `)` or the end. */
  function PrereqItems(ts: seq<Token>, pos: nat, acc: seq<string>): (r: (nat, seq<string>))
    requires pos <= |ts|
    ensures pos <= r.0 <= |ts|
    decreases |ts| - pos
  {
    if Check(ts, pos, ParentesisCerrado) || AtEnd(ts, pos) then
      (pos, acc)
    else
      var here := if ts[pos].kind == Numero then [ts[pos].lexeme] else [];
      PrereqItems(ts, pos + 1, acc + here)
  }

  /** The loop stops at the first `)` or the end, and the list grows by
      exactly the numbers met on the way. */
  lemma {:induction false} PrereqItemsSpec(ts: seq<Token>, pos: nat, acc: seq<string>)
    requires pos <= |ts|
    ensures var r := PrereqItems(ts, pos, acc);
      && (Check(ts, r.0, ParentesisCerrado) || AtEnd(ts, r.0))
      && (forall i :: pos <= i < r.0 ==> ts[i].kind != ParentesisCerrado && ts[i].kind != Eof)
      && r.1 == acc + NumberLexemes(ts[pos..r.0])
    decreases |ts| - pos
  {
    if Check(ts, pos, ParentesisCerrado) || AtEnd(ts, pos) {
      assert ts[pos..pos] == [];
    } else {
      var here := if ts[pos].kind == Numero then [ts[pos].lexeme] else [];
      PrereqItemsSpec(ts, pos + 1, acc + here);
      NumberLexemesFrom(ts, pos, PrereqItems(ts, pos, acc).0);
    }
  }

  lemma NumberLexemesFrom(ts: seq<Token>, pos: nat, end: nat)
    requires pos < end <= |ts|
    ensures NumberLexemes(ts[pos..end])
      == (if ts[pos].kind == Numero then [ts[pos].lexeme] else []) + NumberLexemes(ts[pos + 1..end])
  {
    assert ts[pos..end][1..] == ts[pos + 1..end];
  }

  /** `j` is the first `)` at or after `from`, with no EOF before it. */
  predicate FirstClose(ts: seq<Token>, from: nat, j: nat) {
    && from <= j < |ts| && ts[j].kind == ParentesisCerrado
    && forall i :: from <= i < j ==> ts[i].kind != ParentesisCerrado && ts[i].kind != Eof
  }

  /** `j` closes the prerequisite list whose keyword sits before `pos`:
      the first `)` after `: (`. */
  predicate ListClose(ts: seq<Token>, pos: nat, j: nat) {
    FirstClose(ts, pos + 2, j)
  }

  /** The prerequisite loop ends at a `)` exactly when that `)` is the first
      one, reached before any EOF. */
  lemma PrereqItemsClose(ts: seq<Token>, from: nat, acc: seq<string>)
    requires from <= |ts|
    ensures var r := PrereqItems(ts, from, acc);
      && (Check(ts, r.0, ParentesisCerrado) <==> exists j: nat :: FirstClose(ts, from, j))
      && forall j: nat :: FirstClose(ts, from, j) ==> r.0 == j
  {
    var r := PrereqItems(ts, from, acc);
    PrereqItemsSpec(ts, from, acc);
    forall j: nat | FirstClose(ts, from, j) ensures r.0 == j {
    }
    if Check(ts, r.0, ParentesisCerrado) {
      assert FirstClose(ts, from, r.0);
    }
  }

  /** `Prerrequisitos : ( … )`, after the keyword; the list keeps what the
      course already had and a missing `)` aborts the parse. The `)` is
      followed by one more skipped token. */
  function ParsePrerrequisitos(ts: seq<Token>, pos: nat, acc: seq<string>): (r: Result<(nat, seq<string>), ParseError>)
    requires pos <= |ts|
    ensures r.Success? <==>
      Check(ts, pos, DosPuntos) && Check(ts, pos + 1, ParentesisAbierto) && exists j: nat :: ListClose(ts, pos, j)
    ensures r.Success? ==> pos < r.value.0 <= |ts|
    ensures r.Success? ==> forall j: nat :: ListClose(ts, pos, j) ==>
      r.value == (Skip(ts, j + 1), acc + NumberLexemes(ts[pos + 2..j]))
    ensures !Check(ts, pos, DosPuntos) ==>
      r.Failure? && r.error.ConsumeFailed? && r.error.expected == ColonAfter("PREREQUISITO")
    ensures Check(ts, pos, DosPuntos) && !Check(ts, pos + 1, ParentesisAbierto) ==>
      r.Failure? && r.error.ConsumeFailed? && r.error.expected == ParenAfterColon
    ensures Check(ts, pos, DosPuntos) && Check(ts, pos + 1, ParentesisAbierto)
      && (forall j: nat :: !ListClose(ts, pos, j))
      ==> r == Failure(MissingCloseParen)
  {
    var p1 :- Consume(ts, pos, DosPuntos, ColonAfter("PREREQUISITO"));
    var p2 :- Consume(ts, p1, ParentesisAbierto, ParenAfterColon);
    var items := PrereqItems(ts, p2, acc);
    PrereqItemsSpec(ts, p2, acc);
    PrereqItemsClose(ts, p2, acc);
    ListCloseFirst(ts, pos, p2);
    if Check(ts, items.0, ParentesisCerrado) then
      Success((CloseAndSkip(ts, items.0, ParentesisCerrado), items.1))
    else
      Failure(MissingCloseParen)
  }

  lemma ListCloseFirst(ts: seq<Token>, pos: nat, from: nat)
    requires from == pos + 2
    ensures (exists j: nat :: ListClose(ts, pos, j)) <==> (exists j: nat :: FirstClose(ts, from, j))
  {
    if exists j: nat :: FirstClose(ts, from, j) {
      var j: nat :| FirstClose(ts, from, j);
      assert ListClose(ts, pos, j);
    }
  }

  // ----------------------------------------------------------------- courses

  /** A fresh course as `parseCurso` creates it. */
  function NewCurso(codigo: string, semestre: JsNum): Curso {
    Curso.Curso(codigo, "", Int(0), [], semestre, None, None, None)
  }

  /** One step of a course body at a token that is neither `}` nor the end:
      a field updates the course; an identifier other than
      `Prerrequisitos`/`Prerequisito`/`Area` (any letter case) is skipped
      together with the token after it; any other token is stepped over. */
  function CursoItem(ts: seq<Token>, pos: nat, c: Curso): (r: Result<(nat, Curso), ParseError>)
    requires pos < |ts| && !AtEnd(ts, pos)
    ensures r.Success? ==> pos < r.value.0 <= |ts|
    ensures r.Success? ==> r.value.1.codigo == c.codigo && r.value.1.semestre == c.semestre
  {
    var k := ts[pos].kind;
    if k == Nombre then
      var f :- ParseField(ts, pos + 1, Cadena, NombreField);
      Success((f.0, c.(nombre := StripDoubleQuotes(f.1))))
    else if k == Codigo then
      // A code that differs from the course's own is only logged.
      var f :- ParseField(ts, pos + 1, Cadena, CodigoField);
      Success((f.0, c))
    else if k == Creditos then
      var f :- ParseField(ts, pos + 1, Numero, CreditosField);
      Success((f.0, c.(creditos := ParseInt(f.1))))
    else if k == Descripcion then
      var f :- ParseField(ts, pos + 1, Cadena, DescripcionField);
      Success((f.0, c.(descripcion := Some(StripDoubleQuotes(f.1)))))
    else if k == Obligatorio then
      var f :- ParseField(ts, pos + 1, Booleano, ObligatorioField);
      Success((f.0, c.(obligatorio := Some(ToLower(f.1) == "true"))))
    else if k == Prerequisito || k == Identificador then
      NamedItem(ts, pos, c)
    else
      Success((pos + 1, c))
  }

  /** A PREREQUISITO or IDENTIFICADOR token inside a course, dispatched on its
      lower-cased text. */
  function NamedItem(ts: seq<Token>, pos: nat, c: Curso): (r: Result<(nat, Curso), ParseError>)
    requires pos < |ts|
    ensures r.Success? ==> pos < r.value.0 <= |ts|
    ensures r.Success? ==> r.value.1.codigo == c.codigo && r.value.1.semestre == c.semestre
  {
    var lower := ToLower(ts[pos].lexeme);
    if lower == "prerrequisitos" || lower == "prerequisito" then
      var p :- ParsePrerrequisitos(ts, pos + 1, c.prerrequisitos);
      Success((p.0, c.(prerrequisitos := p.1)))
    else if lower == "area" then
      var f :- ParseField(ts, pos + 1, Cadena, AreaField);
      Success((f.0, c.(area := Some(StripDoubleQuotes(f.1)))))
    else
      Success((Skip(ts, pos + 1), c))
  }

  /** The loop over a course body, up to `}` or the end. */
  function CursoBody(ts: seq<Token>, pos: nat, c: Curso): (r: Result<(nat, Curso), ParseError>)
    requires pos <= |ts|
    ensures r.Success? ==> pos <= r.value.0 <= |ts|
    ensures r.Success? ==> Check(ts, r.value.0, LlaveCerrada) || AtEnd(ts, r.value.0)
    ensures r.Success? ==> r.value.1.codigo == c.codigo && r.value.1.semestre == c.semestre
    decreases |ts| - pos
  {
    if Check(ts, pos, LlaveCerrada) || AtEnd(ts, pos) then Success((pos, c))
    else
      var step :- CursoItem(ts, pos, c);
      CursoBody(ts, step.0, step.1)
  }

  /** Records a finished course: it replaces any earlier course with the
      same code and is appended to its semester's list. */
  function AddCurso(p: Pensum, c: Curso): (r: Pensum)
    ensures r.carrera == p.carrera
    ensures r.cursos.Keys == p.cursos.Keys + {c.codigo}
    ensures r.cursos[c.codigo] == c
    ensures forall k :: k in p.cursos && k != c.codigo ==> r.cursos[k] == p.cursos[k]
    ensures r.semestres.Keys == p.semestres.Keys + {c.semestre}
    ensures c.semestre in p.semestres ==> r.semestres[c.semestre] == p.semestres[c.semestre] + [c]
    ensures c.semestre !in p.semestres ==> r.semestres[c.semestre] == [c]
    ensures forall n :: n in p.semestres && n != c.semestre ==> r.semestres[n] == p.semestres[n]
  {
    var list := if c.semestre in p.semestres then p.semestres[c.semestre] else [];
    Pensum(p.carrera, p.semestres[c.semestre := list + [c]], p.cursos[c.codigo := c])
  }

  /** What every reachable pensum satisfies: each listed course sits under its
      own semester number, no semester list is empty, every listed code is
      a key of `cursos`, and every entry of `cursos` is filed under its code
      and appears in its semester's list. */
  predicate PensumInv(p: Pensum) {
    CatalogInv(p.semestres, p.cursos)
  }

  predicate CatalogInv(semestres: map<JsNum, seq<Curso>>, cursos: map<string, Curso>) {
    && (forall n :: n in semestres ==> |semestres[n]| > 0)
    && (forall n, i :: n in semestres && 0 <= i < |semestres[n]| ==>
          semestres[n][i].semestre == n && semestres[n][i].codigo in cursos)
    && (forall k {:trigger cursos[k]} :: k in cursos ==>
          cursos[k].codigo == k && cursos[k].semestre in semestres
          && cursos[k] in semestres[cursos[k].semestre])
  }

  /** Under the invariant the code index and the semester lists describe
      the same courses: a code is a key of `cursos` exactly when some
      semester list holds a course with that code. */
  lemma CursosKeysAreListedCodes(p: Pensum, k: string)
    requires PensumInv(p)
    ensures k in p.cursos <==>
      exists n, i :: n in p.semestres && 0 <= i < |p.semestres[n]| && p.semestres[n][i].codigo == k
  {
    if k in p.cursos {
      var n := p.cursos[k].semestre;
      var i :| 0 <= i < |p.semestres[n]| && p.semestres[n][i] == p.cursos[k];
      assert p.semestres[n][i].codigo == k;
    }
  }

  lemma AddCursoKeepsInv(p: Pensum, c: Curso)
    requires PensumInv(p)
    ensures PensumInv(AddCurso(p, c))
  {
    var r := AddCurso(p, c);
    forall n, i | n in r.semestres && 0 <= i < |r.semestres[n]|
      ensures r.semestres[n][i].semestre == n && r.semestres[n][i].codigo in r.cursos
    {
      if n == c.semestre && i == |r.semestres[n]| - 1 {
        assert r.semestres[n][i] == c;
      } else {
        assert n in p.semestres && r.semestres[n][i] == p.semestres[n][i];
      }
    }
    forall k | k in r.cursos
      ensures r.cursos[k].codigo == k && r.cursos[k].semestre in r.semestres
        && r.cursos[k] in r.semestres[r.cursos[k].semestre]
    {
      if k == c.codigo {
        assert r.semestres[c.semestre][|r.semestres[c.semestre]| - 1] == c;
      } else {
        var s := p.cursos[k].semestre;
        var j :| 0 <= j < |p.semestres[s]| && p.semestres[s][j] == p.cursos[k];
        assert r.semestres[s][j] == p.semestres[s][j];
      }
    }
  }

  /** A course body and its closing `}`. */
  function CursoBlock(ts: seq<Token>, pos: nat, c: Curso): (r: Result<(nat, Curso), ParseError>)
    requires pos <= |ts|
    ensures r.Success? ==> pos <= r.value.0 <= |ts|
    ensures r.Success? ==> r.value.1.codigo == c.codigo && r.value.1.semestre == c.semestre
  {
    var body :- CursoBody(ts, pos, c);
    Success((CloseAndSkip(ts, body.0, LlaveCerrada), body.1))
  }

  /** `Curso : code { … }` after the keyword: a fresh course with that code,
      under the enclosing semester number, filled by the body. The closing
      `}` is followed by one more skipped token. */
  function ParseCursoBlock(ts: seq<Token>, pos: nat, semestre: JsNum): (r: Result<(nat, Curso), ParseError>)
    requires pos <= |ts|
    ensures r.Success? ==> pos < r.value.0 <= |ts|
    ensures r.Success? ==> pos + 1 < |ts| && ts[pos + 1].kind == Numero
    ensures r.Success? ==> r.value.1.codigo == ts[pos + 1].lexeme && r.value.1.semestre == semestre
    ensures !Check(ts, pos, DosPuntos) ==> r.Failure?
  {
    var p1 :- Consume(ts, pos, DosPuntos, ColonAfter("CURSO"));
    var p2 :- Consume(ts, p1, Numero, CourseCode);
    var p3 :- Consume(ts, p2, LlaveAbierta, BraceAfterCode);
    CursoBlock(ts, p3, NewCurso(ts[p1].lexeme, semestre))
  }

  /** A course block, then the course is recorded under its code and its
      semester number. */
  function ParseCurso(ts: seq<Token>, pos: nat, semestre: JsNum, p: Pensum): (r: Result<(nat, Pensum), ParseError>)
    requires pos <= |ts|
    ensures r.Success? ==> pos < r.value.0 <= |ts|
    ensures r.Success? ==> pos + 1 < |ts|
    ensures r.Success? ==>
      exists c: Curso :: c.semestre == semestre && c.codigo == ts[pos + 1].lexeme && r.value.1 == AddCurso(p, c)
    ensures PensumInv(p) && r.Success? ==> PensumInv(r.value.1)
  {
    var b :- ParseCursoBlock(ts, pos, semestre);
    assert PensumInv(p) ==> PensumInv(AddCurso(p, b.1)) by {
      if PensumInv(p) {
        AddCursoKeepsInv(p, b.1);
      }
    }
    Success((b.0, AddCurso(p, b.1)))
  }

  // --------------------------------------------------------------- semesters

  /** The loop over a semester body: every `Curso` is parsed under `num`,
      anything else is stepped over. */
  function SemestreBody(ts: seq<Token>, pos: nat, num: JsNum, p: Pensum): (r: Result<(nat, Pensum), ParseError>)
    requires pos <= |ts|
    ensures r.Success? ==> pos <= r.value.0 <= |ts|
    ensures r.Success? ==> Check(ts, r.value.0, LlaveCerrada) || AtEnd(ts, r.value.0)
    ensures r.Success? ==> r.value.1.carrera == p.carrera
    ensures r.Success? ==> p.semestres.Keys <= r.value.1.semestres.Keys <= p.semestres.Keys + {num}
    ensures PensumInv(p) && r.Success? ==> PensumInv(r.value.1)
    decreases |ts| - pos
  {
    if Check(ts, pos, LlaveCerrada) || AtEnd(ts, pos) then Success((pos, p))
    else if Check(ts, pos, Tokens.Curso) then
      var q :- ParseCurso(ts, pos + 1, num, p);
      SemestreBody(ts, q.0, num, q.1)
    else
      SemestreBody(ts, pos + 1, num, p)
  }

  /** A semester body and its closing `}`, which is followed by one more
      skipped token. */
  function SemestreBlock(ts: seq<Token>, pos: nat, num: JsNum, p: Pensum): (r: Result<(nat, Pensum), ParseError>)
    requires pos <= |ts|
    ensures r.Success? ==> pos <= r.value.0 <= |ts|
    ensures r.Success? ==> r.value.1.carrera == p.carrera
    ensures PensumInv(p) && r.Success? ==> PensumInv(r.value.1)
  {
    var body :- SemestreBody(ts, pos, num, p);
    Success((CloseAndSkip(ts, body.0, LlaveCerrada), body.1))
  }

  /** `Semestre : n { … }` after the keyword. */
  function ParseSemestre(ts: seq<Token>, pos: nat, p: Pensum): (r: Result<(nat, Pensum), ParseError>)
    requires pos <= |ts|
    ensures r.Success? ==> pos < r.value.0 <= |ts|
    ensures r.Success? ==> r.value.1.carrera == p.carrera
    ensures r.Success? ==> pos + 1 < |ts|
    ensures PensumInv(p) && r.Success? ==> PensumInv(r.value.1)
  {
    var p1 :- Consume(ts, pos, DosPuntos, ColonAfter("SEMESTRE"));
    var p2 :- Consume(ts, p1, Numero, SemesterNumber);
    var p3 :- Consume(ts, p2, LlaveAbierta, BraceAfterSemester);
    SemestreBlock(ts, p3, ParseInt(ts[p1].lexeme), p)
  }

  /** A semester adds at most the key `parseInt` gives for its number. */
  lemma SemestreKeys(ts: seq<Token>, pos: nat, p: Pensum)
    requires pos <= |ts|
    ensures var r := ParseSemestre(ts, pos, p);
      r.Success? ==> p.semestres.Keys <= r.value.1.semestres.Keys <= p.semestres.Keys + {ParseInt(ts[pos + 1].lexeme)}
  {
    var r := ParseSemestre(ts, pos, p);
    if r.Success? {
      SemestreHeader(ts, pos, p);
      var b := SemestreBody(ts, pos + 3, ParseInt(ts[pos + 1].lexeme), p);
      assert b.Success? && r.value.1 == b.value.1;
    }
  }

  // ----------------------------------------------------------------- careers

  /** The loop inside `[ … ]`. */
  function CarreraBody(ts: seq<Token>, pos: nat, p: Pensum): (r: Result<(nat, Pensum), ParseError>)
    requires pos <= |ts|
    ensures r.Success? ==> pos <= r.value.0 <= |ts|
    ensures r.Success? ==> Check(ts, r.value.0, CorcheteCerrado) || AtEnd(ts, r.value.0)
    ensures r.Success? ==> r.value.1.carrera == p.carrera
    ensures PensumInv(p) && r.Success? ==> PensumInv(r.value.1)
    decreases |ts| - pos
  {
    if Check(ts, pos, CorcheteCerrado) || AtEnd(ts, pos) then Success((pos, p))
    else if Check(ts, pos, Semestre) then
      var q :- ParseSemestre(ts, pos + 1, p);
      CarreraBody(ts, q.0, q.1)
    else
      CarreraBody(ts, pos + 1, p)
  }

  /** The optional `[ … ]` after a career name. The token right after `[`
      and the one right after `]` are skipped. */
  function CarreraList(ts: seq<Token>, pos: nat, p: Pensum): (r: Result<(nat, Pensum), ParseError>)
    requires pos <= |ts|
    ensures r.Success? ==> pos <= r.value.0 <= |ts|
    ensures r.Success? ==> r.value.1.carrera == p.carrera
    ensures PensumInv(p) && r.Success? ==> PensumInv(r.value.1)
  {
    if Check(ts, pos, CorcheteAbierto) then
      var body :- CarreraBody(ts, Skip(ts, pos + 1), p);
      Success((CloseAndSkip(ts, body.0, CorcheteCerrado), body.1))
    else
      Success((pos, p))
  }

  /** Inside `[ … ]` every token other than SEMESTRE and `]` is stepped over
      without effect. */
  lemma {:induction false} CarreraBodySkips(ts: seq<Token>, pos: nat, end: nat, p: Pensum)
    requires pos <= end <= |ts|
    requires forall i :: pos <= i < end ==> ts[i].kind !in {Semestre, CorcheteCerrado, Eof}
    ensures CarreraBody(ts, pos, p) == CarreraBody(ts, end, p)
    decreases end - pos
  {
    if pos < end {
      assert ts[pos].kind !in {Semestre, CorcheteCerrado, Eof};
      CarreraBodySkips(ts, pos + 1, end, p);
    }
  }

  /** `Carrera : "name"` after the keyword; the quotes are removed from the
      name, and a later career replaces an earlier one's name. */
  function ParseCarrera(ts: seq<Token>, pos: nat, p: Pensum): (r: Result<(nat, Pensum), ParseError>)
    requires pos <= |ts|
    ensures r.Success? ==> pos < r.value.0 <= |ts|
    ensures r.Success? ==> Check(ts, pos + 1, Cadena)
    ensures r.Success? ==> r.value.1.carrera == StripDoubleQuotes(ts[pos + 1].lexeme)
    ensures PensumInv(p) && r.Success? ==> PensumInv(r.value.1)
  {
    var p1 :- Consume(ts, pos, DosPuntos, ColonAfter("CARRERA"));
    var p2 :- Consume(ts, p1, Cadena, CareerName);
    CarreraList(ts, p2, p.(carrera := StripDoubleQuotes(ts[p1].lexeme)))
  }

  // ------------------------------------------------------------- top level

  /** The top-level loop up to the end of the tokens. */
  function ParsePensum(ts: seq<Token>, pos: nat, p: Pensum): (r: Result<Pensum, ParseError>)
    requires pos <= |ts|
    ensures PensumInv(p) && r.Success? ==> PensumInv(r.value)
    decreases |ts| - pos
  {
    if AtEnd(ts, pos) then Success(p)
    else if Check(ts, pos, Carrera) then
      var q :- ParseCarrera(ts, pos + 1, p);
      ParsePensum(ts, q.0, q.1)
    else if Check(ts, pos, Semestre) then
      var q :- ParseSemestre(ts, pos + 1, p);
      ParsePensum(ts, q.0, q.1)
    else
      ParsePensum(ts, pos + 1, p)
  }

  /** `new Parser(tokens).parse()`. */
  function Parse(ts: seq<Token>): (r: Result<Pensum, ParseError>)
    ensures r.Success? ==> PensumInv(r.value)
  {
    ParsePensum(ts, 0, EmptyPensum)
  }

  // ------------------------------------------------- single-step unfoldings

  lemma ParseStart(ts: seq<Token>)
    ensures Parse(ts) == ParsePensum(ts, 0, EmptyPensum)
  {
  }

  lemma PensumEnd(ts: seq<Token>, pos: nat, p: Pensum)
    requires pos <= |ts| && AtEnd(ts, pos)
    ensures ParsePensum(ts, pos, p) == Success(p)
  {
  }

  lemma PensumCarreraStep(ts: seq<Token>, pos: nat, p: Pensum, next: nat, q: Pensum)
    requires pos <= |ts| && Check(ts, pos, Carrera) && ParseCarrera(ts, pos + 1, p) == Success((next, q))
    ensures ParsePensum(ts, pos, p) == ParsePensum(ts, next, q)
  {
  }

  lemma PensumSemestreStep(ts: seq<Token>, pos: nat, p: Pensum, r: Result<(nat, Pensum), ParseError>)
    requires pos < |ts| && ts[pos].kind == Semestre && r == ParseSemestre(ts, pos + 1, p)
    ensures r.Failure? ==> ParsePensum(ts, pos, p) == Failure(r.error)
    ensures r.Success? ==> ParsePensum(ts, pos, p) == ParsePensum(ts, r.value.0, r.value.1)
  {
  }

  /** A token list made of exactly one top-level semester parses to what
      that semester produced. */
  lemma ParseSingleSemestre(ts: seq<Token>, p: Pensum, q: Pensum)
    requires |ts| > 0 && ts[0].kind == Semestre
    requires ParseSemestre(ts, 1, p) == Success((|ts|, q))
    ensures ParsePensum(ts, 0, p) == Success(q)
  {
    PensumSemestreStep(ts, 0, p, ParseSemestre(ts, 1, p));
    PensumEnd(ts, |ts|, q);
  }

  lemma CarreraHeader(ts: seq<Token>, pos: nat, p: Pensum)
    requires pos <= |ts| && Check(ts, pos, DosPuntos) && Check(ts, pos + 1, Cadena)
    ensures ParseCarrera(ts, pos, p) == CarreraList(ts, pos + 2, p.(carrera := StripDoubleQuotes(ts[pos + 1].lexeme)))
  {
  }

  lemma CarreraBracketStep(ts: seq<Token>, pos: nat, p: Pensum, end: nat, q: Pensum)
    requires pos < |ts| && Check(ts, pos, CorcheteAbierto)
    requires CarreraBody(ts, Skip(ts, pos + 1), p) == Success((end, q))
    ensures CarreraList(ts, pos, p) == Success((CloseAndSkip(ts, end, CorcheteCerrado), q))
  {
  }

  lemma SemestreHeader(ts: seq<Token>, pos: nat, p: Pensum)
    requires pos <= |ts|
    requires Check(ts, pos, DosPuntos) && Check(ts, pos + 1, Numero) && Check(ts, pos + 2, LlaveAbierta)
    ensures ParseSemestre(ts, pos, p) == SemestreBlock(ts, pos + 3, ParseInt(ts[pos + 1].lexeme), p)
  {
  }

  lemma SemestreCloseStep(ts: seq<Token>, pos: nat, num: JsNum, p: Pensum, end: nat, q: Pensum)
    requires pos <= |ts| && SemestreBody(ts, pos, num, p) == Success((end, q))
    ensures SemestreBlock(ts, pos, num, p) == Success((CloseAndSkip(ts, end, LlaveCerrada), q))
  {
  }

  lemma SemestreCursoStep(ts: seq<Token>, pos: nat, num: JsNum, p: Pensum, next: nat, q: Pensum)
    requires pos <= |ts| && Check(ts, pos, Tokens.Curso)
    requires ParseCurso(ts, pos + 1, num, p) == Success((next, q))
    ensures SemestreBody(ts, pos, num, p) == SemestreBody(ts, next, num, q)
  {
  }

  lemma CursoStep(ts: seq<Token>, pos: nat, num: JsNum, p: Pensum, next: nat, c: Curso)
    requires pos <= |ts| && ParseCursoBlock(ts, pos, num) == Success((next, c))
    ensures ParseCurso(ts, pos, num, p) == Success((next, AddCurso(p, c)))
  {
  }

  lemma CursoHeader(ts: seq<Token>, pos: nat, num: JsNum)
    requires pos <= |ts|
    requires Check(ts, pos, DosPuntos) && Check(ts, pos + 1, Numero) && Check(ts, pos + 2, LlaveAbierta)
    ensures ParseCursoBlock(ts, pos, num) == CursoBlock(ts, pos + 3, NewCurso(ts[pos + 1].lexeme, num))
  {
  }

  lemma CursoCloseStep(ts: seq<Token>, pos: nat, c: Curso, end: nat, d: Curso)
    requires pos <= |ts| && CursoBody(ts, pos, c) == Success((end, d))
    ensures CursoBlock(ts, pos, c) == Success((CloseAndSkip(ts, end, LlaveCerrada), d))
  {
  }

  lemma CursoItemStep(ts: seq<Token>, pos: nat, c: Curso, next: nat, d: Curso)
    requires pos <= |ts| && !Check(ts, pos, LlaveCerrada) && !AtEnd(ts, pos)
    requires CursoItem(ts, pos, c) == Success((next, d))
    ensures CursoBody(ts, pos, c) == CursoBody(ts, next, d)
  {
  }

  lemma NombreStep(ts: seq<Token>, pos: nat, c: Curso)
    requires pos < |ts| && !AtEnd(ts, pos) && ts[pos].kind == Nombre
    requires Check(ts, pos + 1, DosPuntos) && Check(ts, pos + 2, Cadena) && Check(ts, pos + 3, PuntoComa)
    ensures CursoItem(ts, pos, c) == Success((pos + 4, c.(nombre := StripDoubleQuotes(ts[pos + 2].lexeme))))
  {
  }

  /** The kind of value each field keyword takes. */
  function FieldValueKind(k: TokenType): TokenType {
    if k == Creditos then Numero else if k == Obligatorio then Booleano else Cadena
  }

  /** A field keyword inside a course succeeds exactly when `: value ;`
      follows, and then touches only its own field: strings lose every `"`,
      `obligatorio` is whether the lexeme lower-cases to `true`, and a `Codigo`
      field leaves the course as it was. */
  lemma FieldItem(ts: seq<Token>, pos: nat, c: Curso)
    requires pos < |ts| && !AtEnd(ts, pos)
    requires ts[pos].kind in {Nombre, Codigo, Creditos, Descripcion, Obligatorio}
    ensures var k := ts[pos].kind;
            CursoItem(ts, pos, c).Success? <==>
              Check(ts, pos + 1, DosPuntos) && Check(ts, pos + 2, FieldValueKind(k)) && Check(ts, pos + 3, PuntoComa)
    ensures CursoItem(ts, pos, c).Success? ==>
              var (next, d) := CursoItem(ts, pos, c).value;
              var k := ts[pos].kind;
              var v := ts[pos + 2].lexeme;
              && next == pos + 4
              && d.prerrequisitos == c.prerrequisitos && d.area == c.area
              && (k == Nombre ==> d == c.(nombre := d.nombre) && d.nombre == StripDoubleQuotes(v) && '"' !in d.nombre)
              && (k == Codigo ==> d == c)
              && (k == Creditos ==> d == c.(creditos := ParseInt(v)))
              && (k == Descripcion ==> d == c.(descripcion := d.descripcion) && d.descripcion == Some(StripDoubleQuotes(v)))
              && (k == Obligatorio ==> d == c.(obligatorio := Some(ToLower(v) == "true")))
  {
  }

  /** A PREREQUISITO or IDENTIFICADOR token inside a course, by its
      lower-cased text. `prerrequisitos` and `prerequisito` store the list
      `ParsePrerrequisitos` reads, and fail as it fails; `area`
      succeeds exactly when `: "x" ;` follows and sets the area to x without
      its quotes; any other identifier is skipped together with the token
      after it. */
  lemma NamedItemBranches(ts: seq<Token>, pos: nat, c: Curso)
    requires pos < |ts| && !AtEnd(ts, pos)
    requires ts[pos].kind == Prerequisito || ts[pos].kind == Identificador
    ensures ToLower(ts[pos].lexeme) !in {"prerrequisitos", "prerequisito", "area"} ==>
              CursoItem(ts, pos, c) == Success((Skip(ts, pos + 1), c))
    ensures ToLower(ts[pos].lexeme) == "area" ==>
              && (CursoItem(ts, pos, c).Success? <==>
                    Check(ts, pos + 1, DosPuntos) && Check(ts, pos + 2, Cadena) && Check(ts, pos + 3, PuntoComa))
              && (CursoItem(ts, pos, c).Success? ==>
                    CursoItem(ts, pos, c) == Success((pos + 4, c.(area := Some(StripDoubleQuotes(ts[pos + 2].lexeme))))))
    ensures ToLower(ts[pos].lexeme) in {"prerrequisitos", "prerequisito"} ==>
              var p := ParsePrerrequisitos(ts, pos + 1, c.prerrequisitos);
              && (CursoItem(ts, pos, c).Success? <==> p.Success?)
              && (p.Success? ==> CursoItem(ts, pos, c) == Success((p.value.0, c.(prerrequisitos := p.value.1))))
              && (p.Failure? ==> CursoItem(ts, pos, c) == Failure(p.error))
  {
  }
}

/** Two shapes of input, stated for every token list of that shape: the
    nested form loses its first semester to the skip after `[`, the flat form
    parses one course. */
module ParserExamples {
  import opened Wrappers
  import opened JsText
  import opened Tokens
  import opened Parser

  /** `Carrera : "name" [ t … ]` where nothing after `t` up to the final `]`
      is a SEMESTRE, a `]` or an EOF. */
  predicate NestedShape(ts: seq<Token>) {
    && |ts| >= 6
    && ts[0].kind == Carrera && ts[1].kind == DosPuntos && ts[2].kind == Cadena && ts[3].kind == CorcheteAbierto
    && ts[4].kind != Eof
    && (forall i :: 5 <= i < |ts| - 1 ==> ts[i].kind !in {Semestre, CorcheteCerrado, Eof})
    && ts[|ts| - 1].kind == CorcheteCerrado
  }

  lemma NestedCareerParsed(ts: seq<Token>)
    requires NestedShape(ts)
    ensures ParseCarrera(ts, 1, EmptyPensum) == Success((|ts|, Pensum(StripDoubleQuotes(ts[2].lexeme), map[], map[])))
  {
    var named := Pensum(StripDoubleQuotes(ts[2].lexeme), map[], map[]);
    var last := |ts| - 1;
    CarreraHeader(ts, 1, EmptyPensum);
    assert EmptyPensum.(carrera := StripDoubleQuotes(ts[2].lexeme)) == named;
    CarreraBodySkips(ts, 5, last, named);
    assert CarreraBody(ts, last, named) == Success((last, named));
    CarreraBracketStep(ts, 3, named, last, named);
  }

  /** Whatever follows `[` (a SEMESTRE keyword included) is skipped, so no
      semester or course inside the brackets is parsed. */
  lemma NestedLosesSemester(ts: seq<Token>)
    requires NestedShape(ts)
    ensures Parse(ts) == Success(Pensum(StripDoubleQuotes(ts[2].lexeme), map[], map[]))
  {
    var named := Pensum(StripDoubleQuotes(ts[2].lexeme), map[], map[]);
    NestedCareerParsed(ts);
    ParseStart(ts);
    PensumCarreraStep(ts, 0, EmptyPensum, |ts|, named);
    PensumEnd(ts, |ts|, named);
  }

  function Tk(k: TokenType, lexeme: string): Token {
    Token(k, lexeme, 1, 1)
  }

  /** `Semestre: 1 { Curso: 100 { Nombre: "Y"; } }` */
  const NestedSemester: seq<Token> := [
    Tk(Semestre, "Semestre"), Tk(DosPuntos, ":"), Tk(Numero, "1"), Tk(LlaveAbierta, "{"),
    Tk(Tokens.Curso, "Curso"), Tk(DosPuntos, ":"), Tk(Numero, "100"), Tk(LlaveAbierta, "{"),
    Tk(Nombre, "Nombre"), Tk(DosPuntos, ":"), Tk(Cadena, "Y"), Tk(PuntoComa, ";"),
    Tk(LlaveCerrada, "}"), Tk(LlaveCerrada, "}")]

  /** `Carrera: "X" [ Semestre: 1 { Curso: 100 { Nombre: "Y"; } } ]` */
  const Nested: seq<Token> :=
    [Tk(Carrera, "Carrera"), Tk(DosPuntos, ":"), Tk(Cadena, "X"), Tk(CorcheteAbierto, "[")]
    + NestedSemester + [Tk(CorcheteCerrado, "]")]

  lemma NestedSemesterBody()
    ensures |NestedSemester| == 14 && NestedSemester[0].kind != Eof
    ensures forall i :: 1 <= i < 14 ==> NestedSemester[i].kind !in {Semestre, CorcheteCerrado, Eof}
  {
  }

  lemma NestedExampleShape(ts: seq<Token>)
    requires ts == Nested
    ensures NestedShape(ts) && ts[2].lexeme == "X"
  {
    NestedSemesterBody();
    assert |ts| == 19;
    assert forall i :: 4 <= i < 18 ==> ts[i] == NestedSemester[i - 4];
  }

  lemma NestedExample(ts: seq<Token>)
    requires ts == Nested
    ensures Parse(ts) == Success(Pensum("X", map[], map[]))
  {
    NestedExampleShape(ts);
    NestedLosesSemester(ts);
    assert StripDoubleQuotes("X") == "X";
  }

  /** `Semestre : n { Curso : code { Nombre : "name" ; } }` */
  predicate FlatShape(ts: seq<Token>) {
    && |ts| == 14
    && ts[0].kind == Semestre && ts[1].kind == DosPuntos && ts[2].kind == Numero && ts[3].kind == LlaveAbierta
    && ts[4].kind == Tokens.Curso && ts[5].kind == DosPuntos && ts[6].kind == Numero && ts[7].kind == LlaveAbierta
    && ts[8].kind == Nombre && ts[9].kind == DosPuntos && ts[10].kind == Cadena && ts[11].kind == PuntoComa
    && ts[12].kind == LlaveCerrada && ts[13].kind == LlaveCerrada
  }

  /** The one course of a flat input. */
  function FlatCurso(ts: seq<Token>): Curso
    requires FlatShape(ts)
  {
    Curso.Curso(ts[6].lexeme, StripDoubleQuotes(ts[10].lexeme), Int(0), [], ParseInt(ts[2].lexeme), None, None, None)
  }

  lemma FlatCourseBlock(ts: seq<Token>)
    requires FlatShape(ts)
    ensures ParseCursoBlock(ts, 5, ParseInt(ts[2].lexeme)) == Success((14, FlatCurso(ts)))
  {
    var num := ParseInt(ts[2].lexeme);
    var c0 := NewCurso(ts[6].lexeme, num);
    var c := FlatCurso(ts);
    CursoHeader(ts, 5, num);
    NombreStep(ts, 8, c0);
    assert c0.(nombre := StripDoubleQuotes(ts[10].lexeme)) == c;
    CursoItemStep(ts, 8, c0, 12, c);
    assert CursoBody(ts, 12, c) == Success((12, c));
    CursoCloseStep(ts, 8, c0, 12, c);
  }

  lemma FlatSemesterBody(ts: seq<Token>)
    requires FlatShape(ts)
    ensures var c := FlatCurso(ts);
      SemestreBlock(ts, 4, c.semestre, EmptyPensum) == Success((14, AddCurso(EmptyPensum, c)))
  {
    var c := FlatCurso(ts);
    var q := AddCurso(EmptyPensum, c);
    FlatCourseBlock(ts);
    CursoStep(ts, 5, c.semestre, EmptyPensum, 14, c);
    SemestreCursoStep(ts, 4, c.semestre, EmptyPensum, 14, q);
    assert SemestreBody(ts, 14, c.semestre, q) == Success((14, q));
    SemestreCloseStep(ts, 4, c.semestre, EmptyPensum, 14, q);
  }

  /** A flat input parses to exactly one course, filed under its semester
      number and its code. The course's closing `}` takes the semester's `}`
      with it, which is harmless here. */
  lemma FlatSemester(ts: seq<Token>)
    requires FlatShape(ts)
    ensures ParseSemestre(ts, 1, EmptyPensum) == Success((14, AddCurso(EmptyPensum, FlatCurso(ts))))
  {
    SemestreHeader(ts, 1, EmptyPensum);
    FlatSemesterBody(ts);
  }

  lemma FlatParses(ts: seq<Token>)
    requires FlatShape(ts)
    ensures var c := FlatCurso(ts);
      Parse(ts) == Success(Pensum("", map[c.semestre := [c]], map[c.codigo := c]))
  {
    var c := FlatCurso(ts);
    FlatSemester(ts);
    ParseSingleSemestre(ts, EmptyPensum, AddCurso(EmptyPensum, c));
    AddToEmpty(c);
    ParseStart(ts);
  }


  lemma AddToEmpty(c: Curso)
    ensures AddCurso(EmptyPensum, c) == Pensum("", map[c.semestre := [c]], map[c.codigo := c])
  {
  }

  /** `Semestre: 1 { Curso: 100 { Nombre: "Y"; } }` */
  const Flat: seq<Token> := [
    Tk(Semestre, "Semestre"), Tk(DosPuntos, ":"), Tk(Numero, "1"), Tk(LlaveAbierta, "{"),
    Tk(Tokens.Curso, "Curso"), Tk(DosPuntos, ":"), Tk(Numero, "100"), Tk(LlaveAbierta, "{"),
    Tk(Nombre, "Nombre"), Tk(DosPuntos, ":"), Tk(Cadena, "Y"), Tk(PuntoComa, ";"),
    Tk(LlaveCerrada, "}"), Tk(LlaveCerrada, "}")]

  lemma ParseOne()
    ensures ParseInt("1") == Int(1)
  {
    assert NatToString(1) == "1";
    ParseIntNatToString(1);
  }

  lemma FlatExampleShape(ts: seq<Token>)
    requires ts == Flat
    ensures FlatShape(ts)
  {
  }

  lemma FlatExampleLexemes(ts: seq<Token>)
    requires ts == Flat
    ensures ts[2].lexeme == "1" && ts[6].lexeme == "100" && ts[10].lexeme == "Y"
  {
  }

  lemma FlatExample(ts: seq<Token>)
    requires ts == Flat
    ensures var c := Curso.Curso("100", "Y", Int(0), [], Int(1), None, None, None);
      Parse(ts) == Success(Pensum("", map[Int(1) := [c]], map["100" := c]))
  {
    FlatExampleShape(ts);
    FlatExampleLexemes(ts);
    FlatParses(ts);
    ParseOne();
    assert StripDoubleQuotes("Y") == "Y";
  }
}
