/**
 The token vocabulary shared by the lexer, the parser, the report generator
 and the editor's colour tables: a closed set of 26 kinds, the token record
 and the lexical error record.
 */
module Tokens {
  import opened Wrappers
  import opened JsText

  /** Ten reserved words, ten punctuation kinds, four literal/identifier kinds,
      end of file and error. */
  datatype TokenType =
    | Carrera | Curso | Prerequisito | Creditos | Semestre
    | Nombre | Codigo | Descripcion | Obligatorio | Electivo
    | LlaveAbierta | LlaveCerrada | CorcheteAbierto | CorcheteCerrado
    | ParentesisAbierto | ParentesisCerrado | Coma | PuntoComa | DosPuntos | Igual
    | Identificador | Cadena | Numero | Booleano
    | Eof
    | Error

  /** Every kind, in declaration order. */
  const AllTypes: seq<TokenType> := [
    Carrera, Curso, Prerequisito, Creditos, Semestre,
    Nombre, Codigo, Descripcion, Obligatorio, Electivo,
    LlaveAbierta, LlaveCerrada, CorcheteAbierto, CorcheteCerrado,
    ParentesisAbierto, ParentesisCerrado, Coma, PuntoComa, DosPuntos, Igual,
    Identificador, Cadena, Numero, Booleano,
    Eof,
    Error
  ]

  predicate IsReserved(t: TokenType) {
    t.Carrera? || t.Curso? || t.Prerequisito? || t.Creditos? || t.Semestre?
    || t.Nombre? || t.Codigo? || t.Descripcion? || t.Obligatorio? || t.Electivo?
  }

  predicate IsPunctuation(t: TokenType) {
    t.LlaveAbierta? || t.LlaveCerrada? || t.CorcheteAbierto? || t.CorcheteCerrado?
    || t.ParentesisAbierto? || t.ParentesisCerrado? || t.Coma? || t.PuntoComa?
    || t.DosPuntos? || t.Igual?
  }

  /** The string value of each enum member, which is also its name. */
  function Name(t: TokenType): string {
    match t
    case Carrera => "CARRERA"
    case Curso => "CURSO"
    case Prerequisito => "PREREQUISITO"
    case Creditos => "CREDITOS"
    case Semestre => "SEMESTRE"
    case Nombre => "NOMBRE"
    case Codigo => "CODIGO"
    case Descripcion => "DESCRIPCION"
    case Obligatorio => "OBLIGATORIO"
    case Electivo => "ELECTIVO"
    case LlaveAbierta => "LLAVE_ABIERTA"
    case LlaveCerrada => "LLAVE_CERRADA"
    case CorcheteAbierto => "CORCHETE_ABIERTO"
    case CorcheteCerrado => "CORCHETE_CERRADO"
    case ParentesisAbierto => "PARENTESIS_ABIERTO"
    case ParentesisCerrado => "PARENTESIS_CERRADO"
    case Coma => "COMA"
    case PuntoComa => "PUNTO_COMA"
    case DosPuntos => "DOS_PUNTOS"
    case Igual => "IGUAL"
    case Identificador => "IDENTIFICADOR"
    case Cadena => "CADENA"
    case Numero => "NUMERO"
    case Booleano => "BOOLEANO"
    case Eof => "EOF"
    case Error => "ERROR"
  }

  /** The kind whose string value is `s`, if any. */
  function FromName(s: string): (r: Option<TokenType>)
    ensures r.Some? ==> Name(r.value) == s
  {
    match s
    case "CARRERA" => Some(Carrera)
    case "CURSO" => Some(Curso)
    case "PREREQUISITO" => Some(Prerequisito)
    case "CREDITOS" => Some(Creditos)
    case "SEMESTRE" => Some(Semestre)
    case "NOMBRE" => Some(Nombre)
    case "CODIGO" => Some(Codigo)
    case "DESCRIPCION" => Some(Descripcion)
    case "OBLIGATORIO" => Some(Obligatorio)
    case "ELECTIVO" => Some(Electivo)
    case _ => BracketFromName(s)
  }

  /** `FromName` for the kinds that are not reserved words, from the brackets on. */
  function BracketFromName(s: string): (r: Option<TokenType>)
    ensures r.Some? ==> Name(r.value) == s
  {
    match s
    case "LLAVE_ABIERTA" => Some(LlaveAbierta)
    case "LLAVE_CERRADA" => Some(LlaveCerrada)
    case "CORCHETE_ABIERTO" => Some(CorcheteAbierto)
    case "CORCHETE_CERRADO" => Some(CorcheteCerrado)
    case "PARENTESIS_ABIERTO" => Some(ParentesisAbierto)
    case "PARENTESIS_CERRADO" => Some(ParentesisCerrado)
    case _ => PunctuationFromName(s)
  }

  /** `FromName` for the separators. */
  function PunctuationFromName(s: string): (r: Option<TokenType>)
    ensures r.Some? ==> Name(r.value) == s
  {
    match s
    case "COMA" => Some(Coma)
    case "PUNTO_COMA" => Some(PuntoComa)
    case "DOS_PUNTOS" => Some(DosPuntos)
    case "IGUAL" => Some(Igual)
    case _ => ValueFromName(s)
  }

  /** `FromName` for the value kinds and the special ones. */
  function ValueFromName(s: string): (r: Option<TokenType>)
    ensures r.Some? ==> Name(r.value) == s
  {
    match s
    case "IDENTIFICADOR" => Some(Identificador)
    case "CADENA" => Some(Cadena)
    case "NUMERO" => Some(Numero)
    case "BOOLEANO" => Some(Booleano)
    case "EOF" => Some(Eof)
    case "ERROR" => Some(Error)
    case _ => None
  }

  /** The enumeration is closed: every kind is among the 26 listed ones. */
  lemma TypesClosed(t: TokenType)
    ensures t in AllTypes && |AllTypes| == 26
  {
  }

  /** Names identify kinds: reading a kind's name back gives the kind. */
  lemma NameRoundTrip(t: TokenType)
    ensures FromName(Name(t)) == Some(t)
  {
    match t
    case Carrera | Curso | Prerequisito | Creditos | Semestre | Nombre | Codigo | Descripcion | Obligatorio | Electivo =>
    case LlaveAbierta | LlaveCerrada | CorcheteAbierto | CorcheteCerrado | ParentesisAbierto | ParentesisCerrado =>
    case Coma | PuntoComa | DosPuntos | Igual =>
    case Identificador | Cadena | Numero | Booleano | Eof | Error =>
  }

  /** Distinct kinds have distinct string values. */
  lemma NameInjective(t: TokenType, u: TokenType)
    requires Name(t) == Name(u)
    ensures t == u
  {
    NameRoundTrip(t);
    NameRoundTrip(u);
  }

  /** A token: kind, lexeme, and the line and column the lexer recorded. */
  datatype Token = Token(kind: TokenType, lexeme: string, line: int, column: int)

  /** The five situations in which the lexer records an error; each carries
      what its message names. */
  datatype LexErrorKind =
    | UnexpectedChar(ch: char)
    | UnexpectedClosing(closing: char, atLine: int)
    | Mismatch(closing: char, atLine: int, opening: char, openLine: int)
    | UnterminatedString
    | Unclosed(opening: char, openLine: int)

  /** A lexical error: message and the lexer's line and column when it was
      recorded. The message is rendered from `kind`. */
  datatype LexerError = LexerError(kind: LexErrorKind, line: int, column: int) {
    function Message(): string {
      match kind
      case UnexpectedChar(c) => "Carácter inesperado: " + [c]
      case UnexpectedClosing(c, l) =>
        "Símbolo de cierre '" + [c] + "' inesperado en la línea " + IntText(l) + "."
      case Mismatch(c, l, o, ol) =>
        "'" + [c] + "' en la línea " + IntText(l) + " no coincide con la apertura '" + [o]
        + "' en la línea " + IntText(ol) + "."
      case UnterminatedString => "Cadena no terminada"
      case Unclosed(o, ol) =>
        "Símbolo de apertura '" + [o] + "' en línea " + IntText(ol) + " no fue cerrado."
    }
  }

  /** Decimal text of an integer. */
  function IntText(n: int): string {
    if n < 0 then "-" + NatToString(-n) else NatToString(n)
  }
}
