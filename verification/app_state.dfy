/** The editor front end's application state and its reducer: a record of
    the editor text, the last analysis (tokens or lexer errors), the busy
    flag, the accumulated API error messages and the menu flag, changed only
    by dispatching actions. */
module AppState {
  import opened JsText
  import opened Tokens

  datatype State = State(
    editorContent: string,
    tokens: seq<Token>,
    lexerErrors: seq<LexerError>,
    isAnalyzing: bool,
    apiErrors: seq<string>,
    showMenu: bool)

  /** The nine action types, and any other type string, which the reducer's
      `default` branch ignores. */
  datatype Action =
    | SetEditorContent(content: string)
    | SetTokens(newTokens: seq<Token>)
    | SetLexerErrors(newErrors: seq<LexerError>)
    | SetAnalyzing(analyzing: bool)
    | AddApiError(message: string)
    | ClearApiErrors
    | SetShowMenu(show: bool)
    | ClearEditor
    | ResetState
    | Unknown(name: string)

  /** The sample program the editor starts with. */
  const InitialEditorContent :=
    "Carrera: \"Ciencias y Sistemas\" [" + "\n"
    + "    Semestre: 01 {" + "\n"
    + "        Curso: 101 {" + "\n"
    + "            Nombre: \"Mate Basica 1\";" + "\n"
    + "            Area: 04;" + "\n"
    + "            Prerrequisitos: ();" + "\n"
    + "        }" + "\n"
    + "        Curso: 017 {" + "\n"
    + "            Nombre: \"Social Humanistica 1\";" + "\n"
    + "            Area: 04;" + "\n"
    + "            Prerrequisitos: ();" + "\n"
    + "        }" + "\n"
    + "    }" + "\n"
    + "]"

  const Initial := State(InitialEditorContent, [], [], false, [], false)

  /** `appReducer`. */
  function Reduce(s: State, a: Action): (r: State)
    ensures Consistent(s) ==> Consistent(r)
    ensures forall f :: f !in Touches(a) ==> Get(r, f) == Get(s, f)
  {
    match a
    case SetEditorContent(c) => s.(editorContent := c)
    case SetTokens(ts) => s.(tokens := ts, lexerErrors := [])
    case SetLexerErrors(es) => s.(lexerErrors := es, tokens := [])
    case SetAnalyzing(b) => s.(isAnalyzing := b)
    case AddApiError(m) => s.(apiErrors := s.apiErrors + [m])
    case ClearApiErrors => s.(apiErrors := [])
    case SetShowMenu(b) => s.(showMenu := b)
    case ClearEditor => s.(editorContent := "", tokens := [], lexerErrors := [], apiErrors := [])
    case ResetState => Initial
    case Unknown(_) => s
  }

  // ------------------------------------------------------------ the frame

  datatype Field = EditorContent | TokenList | LexerErrorList | IsAnalyzing | ApiErrors | ShowMenu

  datatype Value =
    | Text(text: string)
    | TokenValues(ts: seq<Token>)
    | ErrorValues(es: seq<LexerError>)
    | Flag(b: bool)
    | Messages(ms: seq<string>)

  function Get(s: State, f: Field): Value {
    match f
    case EditorContent => Text(s.editorContent)
    case TokenList => TokenValues(s.tokens)
    case LexerErrorList => ErrorValues(s.lexerErrors)
    case IsAnalyzing => Flag(s.isAnalyzing)
    case ApiErrors => Messages(s.apiErrors)
    case ShowMenu => Flag(s.showMenu)
  }

  /** The fields each action may change; every other field keeps its value. */
  function Touches(a: Action): set<Field> {
    match a
    case SetEditorContent(_) => {EditorContent}
    case SetTokens(_) => {TokenList, LexerErrorList}
    case SetLexerErrors(_) => {TokenList, LexerErrorList}
    case SetAnalyzing(_) => {IsAnalyzing}
    case AddApiError(_) => {ApiErrors}
    case ClearApiErrors => {ApiErrors}
    case SetShowMenu(_) => {ShowMenu}
    case ClearEditor => {EditorContent, TokenList, LexerErrorList, ApiErrors}
    case ResetState => {EditorContent, TokenList, LexerErrorList, IsAnalyzing, ApiErrors, ShowMenu}
    case Unknown(_) => {}
  }

  /** An analysis result is either tokens or lexer errors, never both. */
  predicate Consistent(s: State) {
    s.tokens == [] || s.lexerErrors == []
  }

  // -------------------------------------------------------- single actions

  /** `SET_TOKENS` and `SET_LEXER_ERRORS` store their payload and clear the
      other list, whatever the state was before. */
  lemma AnalysisResults(s: State, ts: seq<Token>, es: seq<LexerError>)
    ensures var r := Reduce(s, SetTokens(ts));
            r.tokens == ts && r.lexerErrors == [] && Consistent(r)
    ensures var r := Reduce(s, SetLexerErrors(es));
            r.lexerErrors == es && r.tokens == [] && Consistent(r)
  {
  }

  /** `ADD_API_ERROR` keeps the earlier messages and puts the new one last;
      `CLEAR_API_ERRORS` leaves none. */
  lemma ApiErrorList(s: State, m: string)
    ensures var r := Reduce(s, AddApiError(m));
            && |r.apiErrors| == |s.apiErrors| + 1
            && r.apiErrors[..|s.apiErrors|] == s.apiErrors
            && r.apiErrors[|s.apiErrors|] == m
    ensures Reduce(s, ClearApiErrors).apiErrors == []
  {
  }

  /** `CLEAR_EDITOR` empties the text and all three lists and keeps both
      flags. */
  lemma ClearEditorEmpties(s: State)
    ensures var r := Reduce(s, ClearEditor);
            && r.editorContent == "" && r.tokens == [] && r.lexerErrors == [] && r.apiErrors == []
            && r.isAnalyzing == s.isAnalyzing && r.showMenu == s.showMenu
  {
    assert Get(Reduce(s, ClearEditor), IsAnalyzing) == Get(s, IsAnalyzing);
    assert Get(Reduce(s, ClearEditor), ShowMenu) == Get(s, ShowMenu);
  }

  /** `RESET_STATE` forgets the state it is applied to, so applying it twice
      is applying it once; an unknown action changes nothing. */
  lemma ResetForgets(s: State, t: State, name: string)
    ensures Reduce(s, ResetState) == Reduce(t, ResetState) == Initial
    ensures Reduce(Reduce(s, ResetState), ResetState) == Reduce(s, ResetState)
    ensures Reduce(s, Unknown(name)) == s
  {
  }

  // ------------------------------------------------------ action histories

  /** The state after dispatching `actions` in order, starting from `s`. */
  function Run(s: State, actions: seq<Action>): State {
    if |actions| == 0 then s
    else Reduce(Run(s, actions[..|actions| - 1]), actions[|actions| - 1])
  }

  /** No state reachable from the initial one holds both tokens and lexer
      errors. */
  lemma {:induction false} ReachableConsistent(actions: seq<Action>)
    ensures Consistent(Run(Initial, actions))
  {
    if |actions| > 0 {
      ReachableConsistent(actions[..|actions| - 1]);
    }
  }

  predicate WritesAnalysis(a: Action) {
    a.SetTokens? || a.SetLexerErrors? || a.ClearEditor? || a.ResetState?
  }

  /** The tokens a history leaves: those of its last action that writes the
      analysis lists, when that is `SET_TOKENS`, and none otherwise. */
  function LastTokens(actions: seq<Action>): seq<Token> {
    if |actions| == 0 then []
    else
      var a := actions[|actions| - 1];
      if a.SetTokens? then a.newTokens
      else if WritesAnalysis(a) then []
      else LastTokens(actions[..|actions| - 1])
  }

  /** The same for the lexer errors and `SET_LEXER_ERRORS`. */
  function LastErrors(actions: seq<Action>): seq<LexerError> {
    if |actions| == 0 then []
    else
      var a := actions[|actions| - 1];
      if a.SetLexerErrors? then a.newErrors
      else if WritesAnalysis(a) then []
      else LastErrors(actions[..|actions| - 1])
  }

  /** The messages of the `ADD_API_ERROR` actions after the last action that
      clears the list, oldest first. */
  function MessagesSinceClear(actions: seq<Action>): seq<string> {
    if |actions| == 0 then []
    else
      var a := actions[|actions| - 1];
      if a.AddApiError? then MessagesSinceClear(actions[..|actions| - 1]) + [a.message]
      else if a.ClearApiErrors? || a.ClearEditor? || a.ResetState? then []
      else MessagesSinceClear(actions[..|actions| - 1])
  }

  lemma {:induction false} RunTokens(actions: seq<Action>)
    ensures Run(Initial, actions).tokens == LastTokens(actions)
  {
    if |actions| > 0 {
      RunTokens(actions[..|actions| - 1]);
    }
  }

  lemma {:induction false} RunErrors(actions: seq<Action>)
    ensures Run(Initial, actions).lexerErrors == LastErrors(actions)
  {
    if |actions| > 0 {
      RunErrors(actions[..|actions| - 1]);
    }
  }

  lemma {:induction false} RunMessages(actions: seq<Action>)
    ensures Run(Initial, actions).apiErrors == MessagesSinceClear(actions)
  {
    if |actions| > 0 {
      RunMessages(actions[..|actions| - 1]);
    }
  }

  /** From the initial state, the analysis lists are what the last action
      writing them left, and the API errors are the messages added since the
      list was last cleared. */
  lemma RunFromInitial(actions: seq<Action>)
    ensures var r := Run(Initial, actions);
            && r.tokens == LastTokens(actions)
            && r.lexerErrors == LastErrors(actions)
            && r.apiErrors == MessagesSinceClear(actions)
  {
    RunTokens(actions);
    RunErrors(actions);
    RunMessages(actions);
  }
}
