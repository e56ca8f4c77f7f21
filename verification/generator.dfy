/** The token reader of the HTML report generator: a second descent parser,
    over `Clave = valor` syntax, that collects the career name and a list of
    courses. Its `isAtEnd` only looks for an EOF token and `peek` does no
    bounds check, so every member here asks for an EOF-terminated token list;
    a thrown error becomes a `Failure`. */
module Generator {
  import opened Wrappers
  import opened JsText
  import opened Tokens
  import Lexer
  import LexerBrackets

  datatype Curso = Curso(
    codigo: string,
    nombre: string,
    creditos: JsNum,
    semestre: JsNum,
    descripcion: string,
    obligatorio: bool,
    prerequisitos: seq<string>)

  datatype Carrera = Carrera(nombre: string, cursos: seq<Curso>)

  /** The single-valued course fields, `CLAVE = valor`. */
  datatype Field = CodigoField | NombreField | CreditosField | SemestreField | DescripcionField | ObligatorioField

  /** What a failed `consume` was looking for; `Text` is the message the
      program throws with. */
  datatype Expectation =
    | BraceAfter(keyword: TokenType)
    | EqualsAfter(keyword: TokenType)
    | ValueOf(field: Field)
    | CareerNameValue
    | PrereqListOpen
    | PrereqItem
    | PrereqListClose
    | CareerClose
    | CourseClose
  {
    function Text(): string {
      match this
      case BraceAfter(k) => "Se esperaba '{' después de " + Name(k)
      case EqualsAfter(k) => "Se esperaba '=' después de " + Name(k)
      case ValueOf(f) =>
        (match f
         case CodigoField => "Se esperaba una cadena para el código"
         case NombreField => "Se esperaba una cadena para el nombre"
         case CreditosField => "Se esperaba un número para los créditos"
         case SemestreField => "Se esperaba un número para el semestre"
         case DescripcionField => "Se esperaba una cadena para la descripción"
         case ObligatorioField => "Se esperaba un booleano para obligatorio")
      case CareerNameValue => "Se esperaba una cadena para el nombre"
      case PrereqListOpen => "Se esperaba '[' para la lista de prerrequisitos"
      case PrereqItem => "Se esperaba una cadena para el prerrequisito"
      case PrereqListClose => "Se esperaba ']' al final de la lista de prerrequisitos"
      case CareerClose => "Se esperaba '}' al final de la definición de carrera"
      case CourseClose => "Se esperaba '}' al final de la definición del curso"
    }
  }

  /** The keyword that introduces a field. */
  function FieldKeyword(f: Field): TokenType {
    match f
    case CodigoField => Codigo
    case NombreField => Nombre
    case CreditosField => Creditos
    case SemestreField => Semestre
    case DescripcionField => Descripcion
    case ObligatorioField => Obligatorio
  }

  /** The token kind a field's value must have. */
  function ValueKind(f: Field): TokenType {
    match f
    case CodigoField => Cadena
    case NombreField => Cadena
    case CreditosField => Numero
    case SemestreField => Numero
    case DescripcionField => Cadena
    case ObligatorioField => Booleano
  }

  /** The field a keyword introduces inside a course block, if any. */
  function FieldOf(k: TokenType): (r: Option<Field>)
    ensures r.Some? ==> FieldKeyword(r.value) == k
    ensures (exists f :: FieldKeyword(f) == k) ==> r.Some?
  {
    if k == Codigo then Some(CodigoField)
    else if k == Nombre then Some(NombreField)
    else if k == Creditos then Some(CreditosField)
    else if k == Semestre then Some(SemestreField)
    else if k == Descripcion then Some(DescripcionField)
    else if k == Obligatorio then Some(ObligatorioField)
    else None
  }

  // ------------------------------------------------------------------ cursor

  /** The only shape of token list on which the reader is defined: the last
      token is EOF. */
  predicate EofTerminated(ts: seq<Token>) {
    |ts| > 0 && ts[|ts| - 1].kind == Eof
  }

  /** `isAtEnd`: the current token is EOF. */
  predicate AtEof(ts: seq<Token>, pos: nat)
    requires pos < |ts|
  {
    ts[pos].kind == Eof
  }

  /** `check(k)`. */
  predicate Check(ts: seq<Token>, pos: nat, k: TokenType)
    requires pos < |ts|
  {
    !AtEof(ts, pos) && ts[pos].kind == k
  }

  /** `advance()`: the cursor never moves past the EOF token, so it stays
      inside the list. */
  function Advance(ts: seq<Token>, pos: nat): (r: nat)
    requires EofTerminated(ts) && pos < |ts|
    ensures r < |ts|
    ensures AtEof(ts, pos) <==> r == pos
  {
    if AtEof(ts, pos) then pos else pos + 1
  }

  /** `consume(k, message)`: succeeds exactly when the current token has kind
      `k`, and then moves past it; otherwise fails with the message. */
  function Consume(ts: seq<Token>, pos: nat, k: TokenType, e: Expectation): (r: Result<nat, Expectation>)
    requires EofTerminated(ts) && pos < |ts|
    ensures r.Success? <==> Check(ts, pos, k)
    ensures r.Success? ==> r.value == pos + 1 < |ts|
    ensures r.Failure? ==> r.error == e
  {
    if Check(ts, pos, k) then Success(pos + 1) else Failure(e)
  }

  // ----------------------------------------------------------------- courses

  /** The course every `CURSO` block starts from. */
  function NewCurso(): (c: Curso)
    ensures c.codigo == "" && c.nombre == "" && c.creditos == Int(0) && c.semestre == Int(0)
    ensures c.descripcion == "" && c.obligatorio && c.prerequisitos == []
  {
    Curso.Curso("", "", Int(0), Int(0), "", true, [])
  }

  /** `= valor` after a field keyword: the position after the value and the
      value's lexeme. */
  function FieldValue(ts: seq<Token>, pos: nat, f: Field): (r: Result<(nat, string), Expectation>)
    requires EofTerminated(ts) && pos < |ts|
    ensures r.Success? <==> Check(ts, pos, Igual) && Check(ts, pos + 1, ValueKind(f))
    ensures r.Success? ==> r.value.0 == pos + 2 < |ts| && r.value.1 == ts[pos + 1].lexeme
    ensures !Check(ts, pos, Igual) ==> r == Failure(EqualsAfter(FieldKeyword(f)))
    ensures Check(ts, pos, Igual) && !Check(ts, pos + 1, ValueKind(f)) ==> r == Failure(ValueOf(f))
  {
    var p1 :- Consume(ts, pos, Igual, EqualsAfter(FieldKeyword(f)));
    var p2 :- Consume(ts, p1, ValueKind(f), ValueOf(f));
    Success((p2, ts[p1].lexeme))
  }

  /** Stores a field value: numbers through `parseInt`, `obligatorio` by an
      exact, case-sensitive comparison with `TRUE`; every other field is
      left as it was. */
  function SetField(c: Curso, f: Field, v: string): (r: Curso)
    ensures f == CodigoField ==> r == c.(codigo := v)
    ensures f == NombreField ==> r == c.(nombre := v)
    ensures f == CreditosField ==> r == c.(creditos := ParseInt(v))
    ensures f == SemestreField ==> r == c.(semestre := ParseInt(v))
    ensures f == DescripcionField ==> r == c.(descripcion := v)
    ensures f == ObligatorioField ==> r == c.(obligatorio := v == "TRUE")
    ensures r.prerequisitos == c.prerequisitos
  {
    match f
    case CodigoField => c.(codigo := v)
    case NombreField => c.(nombre := v)
    case CreditosField => c.(creditos := ParseInt(v))
    case SemestreField => c.(semestre := ParseInt(v))
    case DescripcionField => c.(descripcion := v)
    case ObligatorioField => c.(obligatorio := v == "TRUE")
  }

  /** Each field is a separate slot: writes to different fields commute, a
      second write to one field overrides the first, and the prerequisite
      list is never touched. */
  lemma SetFieldLaws(c: Curso, f: Field, g: Field, v: string, w: string)
    ensures f != g ==> SetField(SetField(c, f, v), g, w) == SetField(SetField(c, g, w), f, v)
    ensures SetField(SetField(c, f, v), f, w) == SetField(c, f, w)
    ensures SetField(c, f, v).prerequisitos == c.prerequisitos
  {
  }

  /** Only the exact upper-case lexeme makes a course compulsory. */
  lemma ObligatorioIsCaseSensitive(c: Curso)
    ensures SetField(c, ObligatorioField, "TRUE").obligatorio
    ensures !SetField(c, ObligatorioField, "true").obligatorio
    ensures !SetField(c, ObligatorioField, "FALSE").obligatorio
  {
  }

  /** The string lexemes of a token list, in order. */
  function CadenaLexemes(ts: seq<Token>): seq<string> {
    if |ts| == 0 then []
    else (if ts[0].kind == Cadena then [ts[0].lexeme] else []) + CadenaLexemes(ts[1..])
  }

  /** The loop over a prerequisite list, up to `]` or EOF: each item must be
      a string, optionally followed by one comma. */
  function PrereqItems(ts: seq<Token>, pos: nat, acc: seq<string>): (r: Result<(nat, seq<string>), Expectation>)
    requires EofTerminated(ts) && pos < |ts|
    ensures r.Success? ==> pos <= r.value.0 < |ts|
    ensures r.Success? ==> Check(ts, r.value.0, CorcheteCerrado) || AtEof(ts, r.value.0)
    ensures r.Failure? ==> r.error == PrereqItem
    decreases |ts| - pos
  {
    if Check(ts, pos, CorcheteCerrado) || AtEof(ts, pos) then Success((pos, acc))
    else
      var p1 :- Consume(ts, pos, Cadena, PrereqItem);
      var p2 := if Check(ts, p1, Coma) then p1 + 1 else p1;
      PrereqItems(ts, p2, acc + [ts[pos].lexeme])
  }

  /** A successful prerequisite list holds nothing but strings and commas,
      never two commas in a row nor a leading comma, and the items appended
      are the strings in order. */
  lemma PrereqItemsSpec(ts: seq<Token>, pos: nat, acc: seq<string>)
    requires EofTerminated(ts) && pos < |ts|
    requires PrereqItems(ts, pos, acc).Success?
    ensures var (end, items) := PrereqItems(ts, pos, acc).value;
      && (forall i :: pos <= i < end ==> ts[i].kind == Cadena || ts[i].kind == Coma)
      && (pos < end ==> ts[pos].kind == Cadena)
      && (forall i :: pos <= i < end - 1 && ts[i].kind == Coma ==> ts[i + 1].kind == Cadena)
      && items == acc + CadenaLexemes(ts[pos..end])
  {
    PrereqItemsKinds(ts, pos, acc);
    PrereqItemsLexemes(ts, pos, acc);
  }

  /** One loop iteration, unfolded. */
  lemma PrereqItemsStep(ts: seq<Token>, pos: nat, acc: seq<string>)
    requires EofTerminated(ts) && pos < |ts|
    requires PrereqItems(ts, pos, acc).Success?
    requires !(Check(ts, pos, CorcheteCerrado) || AtEof(ts, pos))
    ensures ts[pos].kind == Cadena && pos + 1 < |ts|
    ensures var p2 := if Check(ts, pos + 1, Coma) then pos + 2 else pos + 1;
      && p2 < |ts|
      && PrereqItems(ts, pos, acc) == PrereqItems(ts, p2, acc + [ts[pos].lexeme])
  {
  }

  lemma {:induction false} PrereqItemsKinds(ts: seq<Token>, pos: nat, acc: seq<string>)
    requires EofTerminated(ts) && pos < |ts|
    requires PrereqItems(ts, pos, acc).Success?
    ensures var end := PrereqItems(ts, pos, acc).value.0;
      && (forall i :: pos <= i < end ==> ts[i].kind == Cadena || ts[i].kind == Coma)
      && (pos < end ==> ts[pos].kind == Cadena)
      && (forall i :: pos <= i < end - 1 && ts[i].kind == Coma ==> ts[i + 1].kind == Cadena)
    decreases |ts| - pos
  {
    if !(Check(ts, pos, CorcheteCerrado) || AtEof(ts, pos)) {
      PrereqItemsStep(ts, pos, acc);
      var p2 := if Check(ts, pos + 1, Coma) then pos + 2 else pos + 1;
      PrereqItemsKinds(ts, p2, acc + [ts[pos].lexeme]);
    }
  }

  lemma CadenaLexemesCons(ts: seq<Token>, i: nat, end: nat)
    requires i < end <= |ts|
    ensures CadenaLexemes(ts[i..end])
            == (if ts[i].kind == Cadena then [ts[i].lexeme] else []) + CadenaLexemes(ts[i + 1..end])
  {
    assert ts[i..end][1..] == ts[i + 1..end];
  }

  lemma AppendAssoc(a: seq<string>, b: seq<string>, c: seq<string>)
    ensures a + b + c == a + (b + c)
  {
  }

  lemma {:induction false} PrereqItemsLexemes(ts: seq<Token>, pos: nat, acc: seq<string>)
    requires EofTerminated(ts) && pos < |ts|
    requires PrereqItems(ts, pos, acc).Success?
    ensures var (end, items) := PrereqItems(ts, pos, acc).value;
      items == acc + CadenaLexemes(ts[pos..end])
    decreases |ts| - pos
  {
    if !(Check(ts, pos, CorcheteCerrado) || AtEof(ts, pos)) {
      PrereqItemsStep(ts, pos, acc);
      var p2 := if Check(ts, pos + 1, Coma) then pos + 2 else pos + 1;
      var acc' := acc + [ts[pos].lexeme];
      PrereqItemsLexemes(ts, p2, acc');
      var end := PrereqItems(ts, p2, acc').value.0;
      var rest := CadenaLexemes(ts[p2..end]);
      CadenaLexemesCons(ts, pos, end);
      if p2 == pos + 2 {
        CadenaLexemesCons(ts, pos + 1, end);
        assert CadenaLexemes(ts[pos + 1..end]) == rest;
      }
      assert CadenaLexemes(ts[pos..end]) == [ts[pos].lexeme] + rest;
      AppendAssoc(acc, [ts[pos].lexeme], rest);
    }
  }

  /** Inside a prerequisite list, an item that is not a string (and is not
      the closing `]` or EOF) fails the whole parse. */
  lemma NonStringPrereqFails(ts: seq<Token>, pos: nat, acc: seq<string>)
    requires EofTerminated(ts) && pos < |ts|
    requires ts[pos].kind !in {CorcheteCerrado, Eof, Cadena}
    ensures PrereqItems(ts, pos, acc) == Failure(PrereqItem)
  {
  }

  /** `PREREQUISITO = [ items ]` after the keyword: the string items between
      the brackets are appended to the course's list, in order, and each
      missing part fails with its own message. */
  function PrereqList(ts: seq<Token>, pos: nat, c: Curso): (r: Result<(nat, Curso), Expectation>)
    requires EofTerminated(ts) && pos < |ts|
    ensures r.Success? ==> pos + 3 <= r.value.0 < |ts|
    ensures r.Success? ==> r.value.1 == c.(prerequisitos := r.value.1.prerequisitos)
    ensures r.Success? ==> c.prerequisitos <= r.value.1.prerequisitos
    ensures r.Success? ==>
              && Check(ts, pos + 1, CorcheteAbierto) && ts[r.value.0 - 1].kind == CorcheteCerrado
              && r.value.1.prerequisitos == c.prerequisitos + CadenaLexemes(ts[pos + 2..r.value.0 - 1])
    ensures !Check(ts, pos, Igual) ==> r == Failure(EqualsAfter(Prerequisito))
    ensures Check(ts, pos, Igual) && !Check(ts, pos + 1, CorcheteAbierto) ==> r == Failure(PrereqListOpen)
    ensures (&& Check(ts, pos, Igual) && Check(ts, pos + 1, CorcheteAbierto)
             && PrereqItems(ts, pos + 2, c.prerequisitos).Failure?)
            ==> r == Failure(PrereqItem)
    ensures (&& Check(ts, pos, Igual) && Check(ts, pos + 1, CorcheteAbierto)
             && PrereqItems(ts, pos + 2, c.prerequisitos).Success?
             && AtEof(ts, PrereqItems(ts, pos + 2, c.prerequisitos).value.0))
            ==> r == Failure(PrereqListClose)
  {
    var p1 :- Consume(ts, pos, Igual, EqualsAfter(Prerequisito));
    var p2 :- Consume(ts, p1, CorcheteAbierto, PrereqListOpen);
    var items :- PrereqItems(ts, p2, c.prerequisitos);
    PrereqItemsLexemes(ts, p2, c.prerequisitos);
    var p3 :- Consume(ts, items.0, CorcheteCerrado, PrereqListClose);
    Success((p3, c.(prerequisitos := items.1)))
  }

  /** One iteration of the course-body loop, at a token that is neither `}`
      nor EOF: a field keyword with its value, a prerequisite list, or any
      other token stepped over. */
  function CursoItem(ts: seq<Token>, pos: nat, c: Curso): (r: Result<(nat, Curso), Expectation>)
    requires EofTerminated(ts) && pos < |ts| && !AtEof(ts, pos)
    ensures r.Success? ==> pos < r.value.0 < |ts|
    ensures FieldOf(ts[pos].kind).None? && ts[pos].kind != Prerequisito ==> r == Success((pos + 1, c))
  {
    var k := ts[pos].kind;
    var f := FieldOf(k);
    if f.Some? then
      var v :- FieldValue(ts, pos + 1, f.value);
      Success((v.0, SetField(c, f.value, v.1)))
    else if k == Prerequisito then
      PrereqList(ts, pos + 1, c)
    else
      Success((pos + 1, c))
  }

  /** A field keyword inside a course succeeds exactly when `= valor` of the
      field's kind follows, and then stores the value through `SetField`,
      each missing part failing with its own message; the `PREREQUISITO`
      keyword hands over to the list. */
  lemma CursoItemFields(ts: seq<Token>, pos: nat, c: Curso)
    requires EofTerminated(ts) && pos < |ts| && !AtEof(ts, pos)
    ensures FieldOf(ts[pos].kind).Some? ==>
              var f := FieldOf(ts[pos].kind).value;
              && (CursoItem(ts, pos, c).Success? <==> Check(ts, pos + 1, Igual) && Check(ts, pos + 2, ValueKind(f)))
              && (CursoItem(ts, pos, c).Success? ==>
                    CursoItem(ts, pos, c) == Success((pos + 3, SetField(c, f, ts[pos + 2].lexeme))))
              && (!Check(ts, pos + 1, Igual) ==> CursoItem(ts, pos, c) == Failure(EqualsAfter(ts[pos].kind)))
              && (Check(ts, pos + 1, Igual) && !Check(ts, pos + 2, ValueKind(f)) ==>
                    CursoItem(ts, pos, c) == Failure(ValueOf(f)))
    ensures ts[pos].kind == Prerequisito ==> CursoItem(ts, pos, c) == PrereqList(ts, pos + 1, c)
  {
  }

  /** The course-body loop, up to `}` or EOF. */
  function CursoBody(ts: seq<Token>, pos: nat, c: Curso): (r: Result<(nat, Curso), Expectation>)
    requires EofTerminated(ts) && pos < |ts|
    ensures r.Success? ==> pos <= r.value.0 < |ts|
    ensures r.Success? ==> Check(ts, r.value.0, LlaveCerrada) || AtEof(ts, r.value.0)
    ensures r.Success? ==> c.prerequisitos <= r.value.1.prerequisitos
    decreases |ts| - pos
  {
    if Check(ts, pos, LlaveCerrada) || AtEof(ts, pos) then Success((pos, c))
    else
      var step :- CursoItem(ts, pos, c);
      CursoItemPrereqs(ts, pos, c);
      CursoBody(ts, step.0, step.1)
  }

  /** One body step, with the item's result given. */
  lemma BodyStep(ts: seq<Token>, pos: nat, c: Curso, next: nat, c': Curso)
    requires EofTerminated(ts) && pos < |ts| && !Check(ts, pos, LlaveCerrada) && !AtEof(ts, pos)
    requires CursoItem(ts, pos, c) == Success((next, c'))
    ensures CursoBody(ts, pos, c) == CursoBody(ts, next, c')
  {
  }

  /** One body step never removes prerequisites already collected. */
  lemma CursoItemPrereqs(ts: seq<Token>, pos: nat, c: Curso)
    requires EofTerminated(ts) && pos < |ts| && !AtEof(ts, pos)
    ensures CursoItem(ts, pos, c).Success? ==> c.prerequisitos <= CursoItem(ts, pos, c).value.1.prerequisitos
  {
  }

  /** `{ body }` after the `CURSO` keyword: the finished course. */
  function CursoBlock(ts: seq<Token>, pos: nat): (r: Result<(nat, Curso), Expectation>)
    requires EofTerminated(ts) && pos < |ts|
    ensures r.Success? ==> pos < r.value.0 < |ts| && ts[r.value.0 - 1].kind == LlaveCerrada
    ensures !Check(ts, pos, LlaveAbierta) ==> r == Failure(BraceAfter(Tokens.Curso))
  {
    match Consume(ts, pos, LlaveAbierta, BraceAfter(Tokens.Curso))
    case Failure(e) => Failure(e)
    case Success(p1) => CursoBlockBody(ts, p1, NewCurso())
  }

  /** The part of a course block after its `{`: the body, filling in `c`,
      and the closing brace. */
  function CursoBlockBody(ts: seq<Token>, p1: nat, c: Curso): (r: Result<(nat, Curso), Expectation>)
    requires EofTerminated(ts) && p1 < |ts|
    ensures r.Success? ==> p1 < r.value.0 < |ts| && ts[r.value.0 - 1].kind == LlaveCerrada
  {
    match CursoBody(ts, p1, c)
    case Failure(e) => Failure(e)
    case Success((end, filled)) =>
      match Consume(ts, end, LlaveCerrada, CourseClose)
      case Failure(e) => Failure(e)
      case Success(p2) => Success((p2, filled))
  }

  // ----------------------------------------------------------------- careers

  /** The career-body loop, up to `}` or EOF: `NOMBRE = "..."` replaces the
      name, anything else is stepped over. */
  function CarreraBody(ts: seq<Token>, pos: nat, nombre: string): (r: Result<(nat, string), Expectation>)
    requires EofTerminated(ts) && pos < |ts|
    ensures r.Success? ==> pos <= r.value.0 < |ts|
    ensures r.Success? ==> Check(ts, r.value.0, LlaveCerrada) || AtEof(ts, r.value.0)
    decreases |ts| - pos
  {
    if Check(ts, pos, LlaveCerrada) || AtEof(ts, pos) then Success((pos, nombre))
    else if Check(ts, pos, Nombre) then
      var p1 :- Consume(ts, pos + 1, Igual, EqualsAfter(Nombre));
      var p2 :- Consume(ts, p1, Cadena, CareerNameValue);
      CarreraBody(ts, p2, ts[p1].lexeme)
    else
      CarreraBody(ts, pos + 1, nombre)
  }

  /** No `NOMBRE` token among `ts[lo..hi]`. */
  predicate NoNombre(ts: seq<Token>, lo: nat, hi: nat)
    requires hi <= |ts|
  {
    forall i :: lo <= i < hi ==> ts[i].kind != Nombre
  }

  /** The last `NOMBRE = "..."` of a career body wins: the resulting name is
      the string after the last `NOMBRE` keyword, or the previous name when
      the body has none. */
  lemma {:induction false} CarreraBodyLastNombre(ts: seq<Token>, pos: nat, nombre: string)
    requires EofTerminated(ts) && pos < |ts|
    requires CarreraBody(ts, pos, nombre).Success?
    ensures var (end, name) := CarreraBody(ts, pos, nombre).value;
      || (NoNombre(ts, pos, end) && name == nombre)
      || (exists i :: pos <= i && i + 3 <= end && ts[i].kind == Nombre && ts[i + 1].kind == Igual
            && ts[i + 2].kind == Cadena && name == ts[i + 2].lexeme && NoNombre(ts, i + 1, end))
    decreases |ts| - pos
  {
    if Check(ts, pos, LlaveCerrada) || AtEof(ts, pos) {
    } else if Check(ts, pos, Nombre) {
      var name := ts[pos + 2].lexeme;
      assert CarreraBody(ts, pos, nombre) == CarreraBody(ts, pos + 3, name);
      CarreraBodyLastNombre(ts, pos + 3, name);
      var end := CarreraBody(ts, pos + 3, name).value.0;
      if NoNombre(ts, pos + 3, end) && CarreraBody(ts, pos, nombre).value.1 == name {
        assert pos + 3 <= end;
        assert NoNombre(ts, pos + 1, end);
      }
    } else {
      assert CarreraBody(ts, pos, nombre) == CarreraBody(ts, pos + 1, nombre);
      CarreraBodyLastNombre(ts, pos + 1, nombre);
    }
  }

  /** `{ body }` after the `CARRERA` keyword; only the name changes. */
  function CarreraDefinition(ts: seq<Token>, pos: nat, car: Carrera): (r: Result<(nat, Carrera), Expectation>)
    requires EofTerminated(ts) && pos < |ts|
    ensures r.Success? ==> pos < r.value.0 < |ts| && ts[r.value.0 - 1].kind == LlaveCerrada
    ensures r.Success? ==> r.value.1.cursos == car.cursos
    ensures !Check(ts, pos, LlaveAbierta) ==> r == Failure(BraceAfter(Tokens.Carrera))
  {
    var p1 :- Consume(ts, pos, LlaveAbierta, BraceAfter(Tokens.Carrera));
    var body :- CarreraBody(ts, p1, car.nombre);
    var p2 :- Consume(ts, body.0, LlaveCerrada, CareerClose);
    Success((p2, car.(nombre := body.1)))
  }

  /** A career block that reaches EOF before its `}` fails with that
      message and nothing else. */
  lemma UnclosedCareerFails(ts: seq<Token>, pos: nat, car: Carrera)
    requires EofTerminated(ts) && pos < |ts| && Check(ts, pos, LlaveAbierta)
    requires CarreraBody(ts, pos + 1, car.nombre).Success?
    requires AtEof(ts, CarreraBody(ts, pos + 1, car.nombre).value.0)
    ensures CarreraDefinition(ts, pos, car) == Failure(CareerClose)
  {
  }

  // --------------------------------------------------------------- top level

  /** The top-level loop up to EOF: `CARRERA` and `CURSO` blocks are read,
      every other token is stepped over. Each course block appends its
      course at the end. */
  function ParseLoop(ts: seq<Token>, pos: nat, car: Carrera): (r: Result<Carrera, Expectation>)
    requires EofTerminated(ts) && pos < |ts|
    ensures r.Success? ==> car.cursos <= r.value.cursos
    decreases |ts| - pos
  {
    if AtEof(ts, pos) then Success(car)
    else if Check(ts, pos, Tokens.Carrera) then
      var q :- CarreraDefinition(ts, pos + 1, car);
      ParseLoop(ts, q.0, q.1)
    else if Check(ts, pos, Tokens.Curso) then
      var q :- CursoBlock(ts, pos + 1);
      ParseLoop(ts, q.0, car.(cursos := car.cursos + [q.1]))
    else
      ParseLoop(ts, pos + 1, car)
  }

  const EmptyCarrera := Carrera.Carrera("", [])

  /** `parseCarrera()` from the first token. */
  function ParseCarrera(ts: seq<Token>): (r: Result<Carrera, Expectation>)
    requires EofTerminated(ts)
  {
    ParseLoop(ts, 0, EmptyCarrera)
  }

  /** One course block: the loop goes on after it with exactly that course
      appended. */
  lemma CursoAppends(ts: seq<Token>, pos: nat, car: Carrera, next: nat, c: Curso)
    requires EofTerminated(ts) && pos < |ts| && Check(ts, pos, Tokens.Curso)
    requires CursoBlock(ts, pos + 1) == Success((next, c))
    ensures ParseLoop(ts, pos, car) == ParseLoop(ts, next, car.(cursos := car.cursos + [c]))
  {
  }

  /** Where no `CURSO` keyword remains, the course list is final. */
  lemma {:induction false} NoCursoNoAppend(ts: seq<Token>, pos: nat, car: Carrera)
    requires EofTerminated(ts) && pos < |ts|
    requires forall i :: pos <= i < |ts| ==> ts[i].kind != Tokens.Curso
    requires ParseLoop(ts, pos, car).Success?
    ensures ParseLoop(ts, pos, car).value.cursos == car.cursos
    decreases |ts| - pos
  {
    if AtEof(ts, pos) {
    } else if Check(ts, pos, Tokens.Carrera) {
      var q := CarreraDefinition(ts, pos + 1, car).value;
      NoCursoNoAppend(ts, q.0, q.1);
    } else {
      NoCursoNoAppend(ts, pos + 1, car);
    }
  }

  /** The lexer never produces what this reader needs: no token it emits is
      EOF, so its output is never EOF-terminated. */
  lemma LexerOutputNotEofTerminated(src: string)
    ensures !EofTerminated(Lexer.Analyze(src).tokens)
  {
    LexerBrackets.AnalyzeNeverEmitsEofOrError(src);
  }

  // ----------------------------------------------------------------- example

  /** `CURSO { CODIGO = "c" SEMESTRE = n }` followed by EOF. */
  predicate OneCourseShape(ts: seq<Token>) {
    && |ts| == 10
    && ts[0].kind == Tokens.Curso && ts[1].kind == LlaveAbierta
    && ts[2].kind == Codigo && ts[3].kind == Igual && ts[4].kind == Cadena
    && ts[5].kind == Semestre && ts[6].kind == Igual && ts[7].kind == Numero
    && ts[8].kind == LlaveCerrada && ts[9].kind == Eof
  }

  lemma OneCourseBody(ts: seq<Token>)
    requires OneCourseShape(ts)
    ensures CursoBody(ts, 2, NewCurso())
      == Success((8, NewCurso().(codigo := ts[4].lexeme, semestre := ParseInt(ts[7].lexeme))))
  {
    var c1 := NewCurso().(codigo := ts[4].lexeme);
    var c2 := c1.(semestre := ParseInt(ts[7].lexeme));
    assert CursoItem(ts, 2, NewCurso()) == Success((5, c1));
    assert CursoItem(ts, 5, c1) == Success((8, c2));
    BodyStep(ts, 5, c1, 8, c2);
    BodyStep(ts, 2, NewCurso(), 5, c1);
  }

  lemma OneCourseBlock(ts: seq<Token>)
    requires OneCourseShape(ts)
    ensures CursoBlock(ts, 1)
      == Success((9, NewCurso().(codigo := ts[4].lexeme, semestre := ParseInt(ts[7].lexeme))))
  {
    OneCourseBody(ts);
  }

  lemma LoopEnd(ts: seq<Token>, pos: nat, car: Carrera)
    requires EofTerminated(ts) && pos < |ts| && AtEof(ts, pos)
    ensures ParseLoop(ts, pos, car) == Success(car)
  {
  }

  /** A list made of one course block and EOF adds that course alone. */
  lemma SingleCourseParses(ts: seq<Token>, car: Carrera, next: nat, c: Curso)
    requires EofTerminated(ts) && Check(ts, 0, Tokens.Curso)
    requires CursoBlock(ts, 1) == Success((next, c)) && next == |ts| - 1
    ensures ParseLoop(ts, 0, car) == Success(car.(cursos := car.cursos + [c]))
  {
    CursoAppends(ts, 0, car, next, c);
    LoopEnd(ts, next, car.(cursos := car.cursos + [c]));
  }

  /** Such a list yields one course with that code and semester, every other
      field at its default, and no career name. */
  lemma OneCourseParses(ts: seq<Token>)
    requires OneCourseShape(ts)
    ensures ParseCarrera(ts)
      == Success(Carrera.Carrera("", [NewCurso().(codigo := ts[4].lexeme, semestre := ParseInt(ts[7].lexeme))]))
  {
    var c := NewCurso().(codigo := ts[4].lexeme, semestre := ParseInt(ts[7].lexeme));
    OneCourseBlock(ts);
    SingleCourseParses(ts, EmptyCarrera, 9, c);
    assert EmptyCarrera.(cursos := EmptyCarrera.cursos + [c]) == Carrera.Carrera("", [c]);
  }
}
