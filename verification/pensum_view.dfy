/** The curriculum view's line-based extractor. The editor text is split on
    line feeds; each line is trimmed and goes through seven independent
    checks in a fixed order (career name, semester, course, course name,
    credits, prerequisite list, closing brace), which update a scan state
    holding the pensum built so far, the current semester number and the
    course being read. The result exists only when a career name and at
    least one semester were found. */
module PensumView {
  import opened Wrappers
  import opened JsText
  import opened LinePatterns

  datatype Curso = Curso(codigo: string, nombre: string, creditos: nat, prerrequisitos: seq<string>, semestre: nat)

  datatype Semestre = Semestre(semestre: nat, cursos: seq<Curso>)

  datatype Pensum = Pensum(carrera: string, semestres: seq<Semestre>, cursos: seq<Curso>)

  /** `current` is the last semester number seen, `open` the course being
      read. */
  datatype Scan = Scan(pensum: Pensum, current: Option<nat>, open: Option<Curso>)

  const Start := Scan(Pensum("", [], []), None, None)

  /** `parseInt` of a captured digit run. */
  function Number(d: string): (n: nat)
    requires |d| > 0 && AllDecimalDigits(d)
    ensures ParseInt(d) == Int(n)
  {
    ParseIntDigits(d);
    DigitsValue(d, 10)
  }

  /** The semester numbers of the entries, in order. */
  function Numbers(sems: seq<Semestre>): (r: seq<nat>)
    ensures |r| == |sems|
    ensures forall i :: 0 <= i < |sems| ==> r[i] == sems[i].semestre
  {
    seq(|sems|, i requires 0 <= i < |sems| => sems[i].semestre)
  }

  /** `findIndex(s => s.semestre === currentSemestre)`. */
  function FindSemestre(sems: seq<Semestre>, current: Option<nat>): (r: Option<nat>)
    ensures r.Some? ==> r.value < |sems| && current == Some(sems[r.value].semestre)
    ensures r.Some? ==> forall j :: 0 <= j < r.value ==> current != Some(sems[j].semestre)
    ensures r.None? ==> forall j :: 0 <= j < |sems| ==> current != Some(sems[j].semestre)
  {
    if |sems| == 0 then None
    else if current == Some(sems[0].semestre) then Some(0)
    else
      match FindSemestre(sems[1..], current)
      case None => None
      case Some(i) => Some(i + 1)
  }

  // -------------------------------------------------------- the seven checks

  /** The name a `Carrera:` line declares. */
  function CarreraOf(line: string): (r: Option<string>)
    ensures r.Some? ==> |r.value| > 0 && StartsWith(line, "Carrera:")
    ensures r.Some? ==> forall c :: c in r.value ==> c in line
  {
    if StartsWith(line, "Carrera:") then Match(line, CarreraPattern) else None
  }

  /** The number a `Semestre:` line declares. */
  function SemestreOf(line: string): (r: Option<nat>)
    ensures r.Some? ==> StartsWith(line, "Semestre:")
  {
    if StartsWith(line, "Semestre:") then
      match Match(line, SemestrePattern)
      case Some(d) => Some(Number(d))
      case None => None
    else None
  }

  /** The code a `Curso:` line declares. */
  function CursoOf(line: string): (r: Option<string>)
    ensures r.Some? ==> StartsWith(line, "Curso:") && |r.value| > 0 && AllDecimalDigits(r.value)
  {
    if StartsWith(line, "Curso:") then Match(line, CursoPattern) else None
  }

  /** The name a `Nombre:` line declares. */
  function NombreOf(line: string): (r: Option<string>)
    ensures r.Some? ==> StartsWith(line, "Nombre:") && |r.value| > 0 && '"' !in r.value
  {
    if StartsWith(line, "Nombre:") then Match(line, NombrePattern) else None
  }

  /** The credits an `Area:` or `Creditos:` line declares. */
  function CreditosOf(line: string): (r: Option<nat>)
    ensures r.Some? ==> StartsWith(line, "Area:") || StartsWith(line, "Creditos:")
  {
    if StartsWith(line, "Area:") || StartsWith(line, "Creditos:") then
      match Match(line, CreditosPattern)
      case Some(d) => Some(Number(d))
      case None => None
    else None
  }

  /** The list a `Prerrequisitos:` line declares; a blank list declares
      nothing. */
  function PrerrequisitosOf(line: string): (r: Option<seq<string>>)
    ensures r.Some? ==> StartsWith(line, "Prerrequisitos:")
  {
    if StartsWith(line, "Prerrequisitos:") then
      match Match(line, PrerrequisitosPattern)
      case Some(x) => if Trim(x) != "" then Some(PrereqItems(x)) else None
      case None => None
    else None
  }

  function CarreraLine(st: Scan, line: string): (r: Scan)
    ensures r.current == st.current && r.open == st.open
    ensures CarreraOf(line).None? ==> r == st
    ensures CarreraOf(line).Some? ==> r.pensum == st.pensum.(carrera := CarreraOf(line).value)
  {
    match CarreraOf(line)
    case Some(x) => st.(pensum := st.pensum.(carrera := x))
    case None => st
  }

  /** A `Semestre: N` line makes N current and pushes an empty entry. */
  function SemestreLine(st: Scan, line: string): (r: Scan)
    ensures r.open == st.open && r.pensum.carrera == st.pensum.carrera
    ensures r.pensum.cursos == st.pensum.cursos
    ensures SemestreOf(line).None? ==> r == st
    ensures SemestreOf(line).Some? ==>
              && r.current == SemestreOf(line)
              && r.pensum.semestres == st.pensum.semestres + [Semestre(SemestreOf(line).value, [])]
  {
    match SemestreOf(line)
    case Some(n) =>
      st.(current := Some(n), pensum := st.pensum.(semestres := st.pensum.semestres + [Semestre(n, [])]))
    case None => st
  }

  /** A `Curso: C` line opens a fresh course, but only under a semester;
      a course that was open and never closed is dropped. */
  function CursoLine(st: Scan, line: string): (r: Scan)
    ensures r.pensum == st.pensum && r.current == st.current
    ensures CursoOf(line).Some? && st.current.Some? ==>
              r.open == Some(Curso(CursoOf(line).value, "", 0, [], st.current.value))
    ensures CursoOf(line).None? || st.current.None? ==> r == st
  {
    if StartsWith(line, "Curso:") then
      match Match(line, CursoPattern)
      case Some(d) =>
        if st.current.Some? then st.(open := Some(Curso(d, "", 0, [], st.current.value))) else st
      case None => st
    else st
  }

  function NombreLine(st: Scan, line: string): (r: Scan)
    ensures r.pensum == st.pensum && r.current == st.current
    ensures st.open.Some? && NombreOf(line).Some? ==> r.open == Some(st.open.value.(nombre := NombreOf(line).value))
    ensures st.open.None? || NombreOf(line).None? ==> r == st
  {
    if StartsWith(line, "Nombre:") && st.open.Some? then
      match Match(line, NombrePattern)
      case Some(x) => st.(open := Some(st.open.value.(nombre := x)))
      case None => st
    else st
  }

  /** `Area:` and `Creditos:` lines both set the credits. */
  function CreditosLine(st: Scan, line: string): (r: Scan)
    ensures r.pensum == st.pensum && r.current == st.current
    ensures st.open.Some? && CreditosOf(line).Some? ==> r.open == Some(st.open.value.(creditos := CreditosOf(line).value))
    ensures st.open.None? || CreditosOf(line).None? ==> r == st
  {
    if (StartsWith(line, "Area:") || StartsWith(line, "Creditos:")) && st.open.Some? then
      match Match(line, CreditosPattern)
      case Some(d) => st.(open := Some(st.open.value.(creditos := Number(d))))
      case None => st
    else
      assert CreditosOf(line).None? || st.open.None?;
      st
  }

  /** The non-empty trimmed pieces of a comma-separated list. */
  function Items(parts: seq<string>): (r: seq<string>)
    ensures forall i :: 0 <= i < |r| ==> |r[i]| > 0
  {
    if |parts| == 0 then []
    else
      var t := Trim(parts[0]);
      (if t != "" then [t] else []) + Items(parts[1..])
  }

  /** Non-empty, with no white space at either end. */
  predicate Tight(s: string) {
    |s| > 0 && !IsJsSpace(s[0]) && !IsJsSpace(s[|s| - 1])
  }

  /** No item begins or ends with white space. */
  lemma {:induction false} ItemsTight(parts: seq<string>)
    ensures forall i :: 0 <= i < |Items(parts)| ==> Tight(Items(parts)[i])
  {
    if |parts| > 0 {
      ItemsTight(parts[1..]);
      ItemsCons(parts);
      var t := Trim(parts[0]);
      assert t != "" ==> Tight(t);
    }
  }

  /** Each piece trimmed. */
  function TrimAll(parts: seq<string>): (r: seq<string>)
    ensures |r| == |parts| && forall k :: 0 <= k < |parts| ==> r[k] == Trim(parts[k])
  {
    if |parts| == 0 then [] else [Trim(parts[0])] + TrimAll(parts[1..])
  }

  /** The non-empty strings of `ts`, in order. */
  function NonEmpty(ts: seq<string>): seq<string> {
    if |ts| == 0 then []
    else NonEmpty(ts[..|ts| - 1]) + (if ts[|ts| - 1] != "" then [ts[|ts| - 1]] else [])
  }

  lemma {:induction false} NonEmptyAppend(x: seq<string>, y: seq<string>)
    ensures NonEmpty(x + y) == NonEmpty(x) + NonEmpty(y)
  {
    if |y| == 0 {
      assert x + y == x;
    } else {
      var n := |y| - 1;
      NonEmptyAppend(x, y[..n]);
      assert (x + y)[..|x + y| - 1] == x + y[..n];
    }
  }

  lemma NonEmptyOne(t: string)
    ensures NonEmpty([t]) == if t != "" then [t] else []
  {
    assert [t][..0] == [];
  }

  lemma ItemsCons(parts: seq<string>)
    requires |parts| > 0
    ensures Items(parts) == NonEmpty([Trim(parts[0])]) + Items(parts[1..])
  {
    NonEmptyOne(Trim(parts[0]));
  }

  lemma TrimmedCons(parts: seq<string>)
    requires |parts| > 0
    ensures TrimAll(parts) == [Trim(parts[0])] + TrimAll(parts[1..])
  {
  }

  lemma {:induction false} ItemsTrimmed(parts: seq<string>)
    ensures Items(parts) == NonEmpty(TrimAll(parts))
  {
    if |parts| == 0 {
      assert TrimAll(parts) == [];
    } else {
      ItemsTrimmed(parts[1..]);
      ItemsCons(parts);
      TrimmedCons(parts);
      NonEmptyAppend([Trim(parts[0])], TrimAll(parts[1..]));
    }
  }

  /** `r` is the strings of `ts` at the positions `idx`: those positions
      rise strictly and are exactly those of the non-empty strings. */
  predicate KeepsNonEmpty(ts: seq<string>, idx: seq<nat>, r: seq<string>) {
    && |idx| == |r|
    && (forall i :: 0 <= i < |idx| ==> idx[i] < |ts| && r[i] == ts[idx[i]] && r[i] != "")
    && (forall i, j :: 0 <= i < j < |idx| ==> idx[i] < idx[j])
    && (forall k :: 0 <= k < |ts| && ts[k] != "" ==> k in idx)
  }

  /** A kept prefix extends by the next string, if it is not empty. */
  lemma KeepsExtend(ts: seq<string>, idx0: seq<nat>, r0: seq<string>)
    requires |ts| > 0 && KeepsNonEmpty(ts[..|ts| - 1], idx0, r0)
    ensures var n := |ts| - 1;
      if ts[n] != "" then KeepsNonEmpty(ts, idx0 + [n], r0 + [ts[n]]) else KeepsNonEmpty(ts, idx0, r0)
  {
    var n := |ts| - 1;
    var front := ts[..n];
    var last: seq<nat> := if ts[n] != "" then [n] else [];
    var idx := idx0 + last;
    var r := r0 + (if ts[n] != "" then [ts[n]] else []);
    forall i | 0 <= i < |idx|
      ensures idx[i] < |ts| && r[i] == ts[idx[i]] && r[i] != ""
    {
      if i < |idx0| {
        assert front[idx0[i]] == ts[idx0[i]];
      }
    }
    forall i, j | 0 <= i < j < |idx|
      ensures idx[i] < idx[j]
    {
      if j == |idx0| {
        assert idx[i] < n;
      }
    }
    forall k | 0 <= k < |ts| && ts[k] != ""
      ensures k in idx
    {
      if k == n {
        assert idx[|idx0|] == n;
      } else {
        assert front[k] == ts[k];
        var i :| 0 <= i < |idx0| && idx0[i] == k;
        assert idx[i] == k;
      }
    }
  }

  /** The non-empty strings are kept, in order. */
  lemma {:induction false} NonEmptyKeeps(ts: seq<string>)
    ensures exists idx :: KeepsNonEmpty(ts, idx, NonEmpty(ts))
  {
    if |ts| == 0 {
      assert KeepsNonEmpty(ts, [], NonEmpty(ts));
    } else {
      var n := |ts| - 1;
      NonEmptyKeeps(ts[..n]);
      var idx0 :| KeepsNonEmpty(ts[..n], idx0, NonEmpty(ts[..n]));
      KeepsExtend(ts, idx0, NonEmpty(ts[..n]));
      if ts[n] != "" {
        assert KeepsNonEmpty(ts, idx0 + [n], NonEmpty(ts));
      } else {
        assert KeepsNonEmpty(ts, idx0, NonEmpty(ts));
      }
    }
  }

  /** Kept positions need strings to point at. */
  lemma KeepsNeedStrings(ts: seq<string>, idx: seq<nat>, r: seq<string>)
    requires KeepsNonEmpty(ts, idx, r)
    ensures |idx| > 0 ==> |ts| > 0
  {
    if |idx| > 0 {
      assert idx[0] < |ts|;
    }
  }

  /** The last kept position is the highest. */
  lemma KeepsLastHighest(ts: seq<string>, idx: seq<nat>, r: seq<string>, j: nat)
    requires KeepsNonEmpty(ts, idx, r) && j < |idx|
    ensures idx[j] <= idx[|idx| - 1]
  {
  }

  /** Without a last string that is not empty, its position is the last
      one and the rest keep the prefix. */
  lemma KeepsDropLast(ts: seq<string>, idx: seq<nat>, r: seq<string>)
    requires |ts| > 0 && ts[|ts| - 1] != "" && KeepsNonEmpty(ts, idx, r)
    ensures |idx| > 0 && r == r[..|r| - 1] + [ts[|ts| - 1]]
    ensures KeepsNonEmpty(ts[..|ts| - 1], idx[..|idx| - 1], r[..|r| - 1])
  {
    var n := |ts| - 1;
    var front := ts[..n];
    var m := |idx| - 1;
    assert n in idx;
    var j :| 0 <= j < |idx| && idx[j] == n;
    KeepsLastHighest(ts, idx, r, j);
    assert idx[m] == n;
    forall i | 0 <= i < m
      ensures idx[i] < n && front[idx[i]] == ts[idx[i]]
    {
      assert idx[i] < idx[m];
    }
    forall k | 0 <= k < n && front[k] != ""
      ensures k in idx[..m]
    {
      assert front[k] == ts[k];
      var i :| 0 <= i < |idx| && idx[i] == k;
      assert idx[..m][i] == k;
    }
    assert r == r[..m] + [ts[n]];
  }

  /** Without an empty last string, the same positions keep the prefix. */
  lemma KeepsDropBlank(ts: seq<string>, idx: seq<nat>, r: seq<string>)
    requires |ts| > 0 && ts[|ts| - 1] == "" && KeepsNonEmpty(ts, idx, r)
    ensures KeepsNonEmpty(ts[..|ts| - 1], idx, r)
  {
    var n := |ts| - 1;
    var front := ts[..n];
    forall i | 0 <= i < |idx|
      ensures idx[i] < n && front[idx[i]] == ts[idx[i]]
    {
      assert idx[i] != n;
    }
    forall k | 0 <= k < n && front[k] != ""
      ensures k in idx
    {
      assert front[k] == ts[k];
    }
  }

  /** Only the non-empty strings, in order, are kept so. */
  lemma {:induction false} KeepsNonEmptyUnique(ts: seq<string>, idx: seq<nat>, r: seq<string>)
    requires KeepsNonEmpty(ts, idx, r)
    ensures r == NonEmpty(ts)
  {
    KeepsNeedStrings(ts, idx, r);
    if |ts| == 0 {
    } else if ts[|ts| - 1] != "" {
      KeepsDropLast(ts, idx, r);
      KeepsNonEmptyUnique(ts[..|ts| - 1], idx[..|idx| - 1], r[..|r| - 1]);
    } else {
      KeepsDropBlank(ts, idx, r);
      KeepsNonEmptyUnique(ts[..|ts| - 1], idx, r);
    }
  }

  /** `r` is the trimmed pieces of `parts` that are not blank, in order. */
  ghost predicate NonBlankPieces(parts: seq<string>, r: seq<string>) {
    exists idx :: KeepsNonEmpty(TrimAll(parts), idx, r)
  }

  /** The items are exactly the non-blank trimmed pieces, in order. */
  lemma ItemsPieces(parts: seq<string>, r: seq<string>)
    ensures NonBlankPieces(parts, r) <==> r == Items(parts)
  {
    ItemsTrimmed(parts);
    NonEmptyKeeps(TrimAll(parts));
    if NonBlankPieces(parts, r) {
      var idx :| KeepsNonEmpty(TrimAll(parts), idx, r);
      KeepsNonEmptyUnique(TrimAll(parts), idx, r);
    }
  }

  /** Every character of an item comes from one of the pieces. */
  lemma {:induction false} ItemsChars(parts: seq<string>, c: char)
    ensures (exists i :: 0 <= i < |Items(parts)| && c in Items(parts)[i])
            ==> exists k :: 0 <= k < |parts| && c in parts[k]
  {
    if |parts| > 0 {
      var r := Items(parts);
      var t := Trim(parts[0]);
      var head := if t != "" then [t] else [];
      TrimChars(parts[0]);
      ItemsChars(parts[1..], c);
      if exists i :: 0 <= i < |r| && c in r[i] {
        var i :| 0 <= i < |r| && c in r[i];
        if i >= |head| {
          assert r[i] == Items(parts[1..])[i - |head|];
          var k :| 0 <= k < |parts[1..]| && c in parts[1..][k];
          assert parts[1..][k] == parts[k + 1];
        }
      }
    }
  }

  /** `x.split(',').map(p => p.trim()).filter(p => p)`. */
  function PrereqItems(x: string): (r: seq<string>)
    ensures forall i :: 0 <= i < |r| ==> |r[i]| > 0 && ',' !in r[i]
    ensures forall i, c :: 0 <= i < |r| && c in r[i] ==> c in x
  {
    var parts := Split(x, ',');
    SplitChars(x, ',');
    var r := Items(parts);
    forall i, c | 0 <= i < |r| && c in r[i] ensures c in x {
      ItemsChars(parts, c);
    }
    ItemsChars(parts, ',');
    r
  }

  /** A prerequisite list is the trimmed pieces between the commas that
      are not blank, in order, and nothing else. */
  lemma PrereqItemsPieces(x: string, r: seq<string>)
    ensures NonBlankPieces(Split(x, ','), r) <==> r == PrereqItems(x)
  {
    ItemsPieces(Split(x, ','), r);
    assert PrereqItems(x) == Items(Split(x, ','));
  }

  /** A `Prerrequisitos: (...)` line replaces the list, unless the
      parenthesised text is blank, in which case the list stays as it was. */
  function PrerrequisitosLine(st: Scan, line: string): (r: Scan)
    ensures r.pensum == st.pensum && r.current == st.current
    ensures st.open.Some? && PrerrequisitosOf(line).Some? ==>
              r.open == Some(st.open.value.(prerrequisitos := PrerrequisitosOf(line).value))
    ensures st.open.None? || PrerrequisitosOf(line).None? ==> r == st
  {
    if StartsWith(line, "Prerrequisitos:") && st.open.Some? then
      match Match(line, PrerrequisitosPattern)
      case Some(x) =>
        if Trim(x) != "" then st.(open := Some(st.open.value.(prerrequisitos := PrereqItems(x)))) else st
      case None => st
    else st
  }

  /** A line that is exactly `}` commits the open course: it is appended to
      the course list and to the first entry whose number is the current
      semester, and the open course is reset. */
  function CloseLine(st: Scan, line: string): (r: Scan)
    ensures r.current == st.current && r.pensum.carrera == st.pensum.carrera
    ensures Numbers(r.pensum.semestres) == Numbers(st.pensum.semestres)
    ensures line == "}" && st.open.Some? ==>
              && r.open.None?
              && r.pensum.cursos == st.pensum.cursos + [st.open.value]
    ensures !(line == "}" && st.open.Some?) ==> r == st
  {
    if line == "}" && st.open.Some? then
      var c := st.open.value;
      var sems := st.pensum.semestres;
      var sems' :=
        match FindSemestre(sems, st.current)
        case Some(i) => sems[i := sems[i].(cursos := sems[i].cursos + [c])]
        case None => sems;
      assert Numbers(sems') == Numbers(sems);
      Scan(st.pensum.(semestres := sems', cursos := st.pensum.cursos + [c]), st.current, None)
    else st
  }

  /** One trimmed line through the seven checks, in source order. */
  function Step(st: Scan, line: string): Scan {
    var s1 := CarreraLine(st, line);
    var s2 := SemestreLine(s1, line);
    var s3 := CursoLine(s2, line);
    var s4 := NombreLine(s3, line);
    var s5 := CreditosLine(s4, line);
    var s6 := PrerrequisitosLine(s5, line);
    CloseLine(s6, line)
  }

  /** The loop over the lines, each trimmed first. */
  function ScanLines(lines: seq<string>): Scan {
    if |lines| == 0 then Start
    else Step(ScanLines(lines[..|lines| - 1]), Trim(lines[|lines| - 1]))
  }

  /** `parsePensumFromText`. */
  function Extract(text: string): Option<Pensum> {
    var p := ScanLines(Split(text, '\n')).pensum;
    if p.carrera != "" && |p.semestres| > 0 then Some(p) else None
  }

  // ------------------------------------------------------------ invariants

  /** All courses filed under the semester entries, entry by entry. */
  function Flatten(sems: seq<Semestre>): seq<Curso> {
    if |sems| == 0 then [] else sems[0].cursos + Flatten(sems[1..])
  }

  /** Of several entries with one number, only the first receives courses. */
  predicate EarlierWins(sems: seq<Semestre>) {
    forall i, j :: 0 <= i < j < |sems| && sems[i].semestre == sems[j].semestre ==> sems[j].cursos == []
  }

  /** What holds after every line: an open course implies a current
      semester, the current semester has an entry, later duplicate entries
      stay empty, and the entries hold exactly the committed courses. */
  predicate Inv(st: Scan) {
    && (st.open.Some? ==> st.current.Some?)
    && (st.current.Some? ==> st.current.value in Numbers(st.pensum.semestres))
    && EarlierWins(st.pensum.semestres)
    && multiset(Flatten(st.pensum.semestres)) == multiset(st.pensum.cursos)
  }

  lemma {:induction false} FlattenAppend(a: seq<Semestre>, b: seq<Semestre>)
    ensures Flatten(a + b) == Flatten(a) + Flatten(b)
  {
    if |a| > 0 {
      assert (a + b)[0] == a[0];
      assert (a + b)[1..] == a[1..] + b;
      FlattenAppend(a[1..], b);
    } else {
      assert a + b == b;
    }
  }

  /** Filing one more course under entry `i` adds exactly that course. */
  lemma FlattenFile(sems: seq<Semestre>, i: nat, c: Curso)
    requires i < |sems|
    ensures multiset(Flatten(sems[i := sems[i].(cursos := sems[i].cursos + [c])]))
            == multiset(Flatten(sems)) + multiset{c}
  {
    var e := sems[i].(cursos := sems[i].cursos + [c]);
    var after := sems[i + 1..];
    assert sems == sems[..i] + [sems[i]] + after;
    assert sems[i := e] == sems[..i] + [e] + after;
    FlattenAppend(sems[..i] + [sems[i]], after);
    FlattenAppend(sems[..i], [sems[i]]);
    FlattenAppend(sems[..i] + [e], after);
    FlattenAppend(sems[..i], [e]);
    assert Flatten([e]) == e.cursos;
    assert Flatten([sems[i]]) == sems[i].cursos;
  }

  lemma SemestreLineInv(st: Scan, line: string)
    requires Inv(st)
    ensures Inv(SemestreLine(st, line))
  {
    if SemestreOf(line).Some? {
      var n := SemestreOf(line).value;
      var sems := st.pensum.semestres;
      var sems' := sems + [Semestre(n, [])];
      assert Numbers(sems')[|sems|] == n;
      FlattenAppend(sems, [Semestre(n, [])]);
      assert Flatten([Semestre(n, [])]) == [];
      assert EarlierWins(sems') by {
        forall i, j | 0 <= i < j < |sems'| && sems'[i].semestre == sems'[j].semestre
          ensures sems'[j].cursos == []
        {
          if j < |sems| {
            assert sems'[i] == sems[i] && sems'[j] == sems[j];
          }
        }
      }
    }
  }

  lemma CloseLineInv(st: Scan, line: string)
    requires Inv(st)
    ensures Inv(CloseLine(st, line))
    ensures line == "}" && st.open.Some? ==>
              exists i: nat :: FirstNumbered(st.pensum.semestres, st.current.value, i)
                && CloseLine(st, line).pensum.semestres
                   == st.pensum.semestres[i := Semestre(st.current.value, st.pensum.semestres[i].cursos + [st.open.value])]
  {
    if line == "}" && st.open.Some? {
      var sems := st.pensum.semestres;
      var n := st.current.value;
      var c := st.open.value;
      assert n in Numbers(sems);
      var k :| 0 <= k < |sems| && Numbers(sems)[k] == n;
      assert st.current == Some(sems[k].semestre);
      var i := FindSemestre(sems, st.current).value;
      var sems' := sems[i := sems[i].(cursos := sems[i].cursos + [c])];
      assert sems[i].(cursos := sems[i].cursos + [c]) == Semestre(n, sems[i].cursos + [c]);
      assert FirstNumbered(sems, n, i);
      FlattenFile(sems, i, c);
      assert EarlierWins(sems') by {
        forall a, b | 0 <= a < b < |sems'| && sems'[a].semestre == sems'[b].semestre
          ensures sems'[b].cursos == []
        {
          assert sems'[a].semestre == sems[a].semestre && sems'[b].semestre == sems[b].semestre;
          assert b != i;
        }
      }
    }
  }

  /** `i` is the first entry numbered `n`. */
  predicate FirstNumbered(sems: seq<Semestre>, n: nat, i: nat) {
    && i < |sems| && sems[i].semestre == n
    && forall j :: 0 <= j < i ==> sems[j].semestre != n
  }

  /** Every line keeps the invariant. */
  lemma StepInv(st: Scan, line: string)
    requires Inv(st)
    ensures Inv(Step(st, line))
  {
    var s1 := CarreraLine(st, line);
    SemestreLineInv(s1, line);
    var s2 := SemestreLine(s1, line);
    var s6 := PrerrequisitosLine(CreditosLine(NombreLine(CursoLine(s2, line), line), line), line);
    assert Inv(s6);
    CloseLineInv(s6, line);
  }

  lemma {:induction false} ScanInv(lines: seq<string>)
    ensures Inv(ScanLines(lines))
  {
    if |lines| > 0 {
      ScanInv(lines[..|lines| - 1]);
      StepInv(ScanLines(lines[..|lines| - 1]), Trim(lines[|lines| - 1]));
    }
  }

  /** In an extracted pensum, the semester entries hold exactly the course
      list, each course once per commit; an entry repeating an earlier
      number holds no courses. */
  lemma ExtractedFiling(text: string)
    requires Extract(text).Some?
    ensures multiset(Flatten(Extract(text).value.semestres)) == multiset(Extract(text).value.cursos)
    ensures |Flatten(Extract(text).value.semestres)| == |Extract(text).value.cursos|
    ensures EarlierWins(Extract(text).value.semestres)
  {
    ScanInv(Split(text, '\n'));
    var p := Extract(text).value;
    assert |multiset(Flatten(p.semestres))| == |multiset(p.cursos)|;
  }

  // ---------------------------------------------- the result and the lines

  /** The numbers of the `Semestre:` lines, in order. */
  function SemesterNumbers(lines: seq<string>): seq<nat> {
    if |lines| == 0 then []
    else
      SemesterNumbers(lines[..|lines| - 1])
      + match SemestreOf(Trim(lines[|lines| - 1])) case Some(n) => [n] case None => []
  }

  /** The name on the last `Carrera:` line that declares one. */
  function LastCarrera(lines: seq<string>): (r: Option<string>)
    ensures r.Some? ==> |r.value| > 0
  {
    if |lines| == 0 then None
    else if CarreraOf(Trim(lines[|lines| - 1])).Some? then CarreraOf(Trim(lines[|lines| - 1]))
    else LastCarrera(lines[..|lines| - 1])
  }

  /** Each line adds one entry per `Semestre:` line and nothing else
      touches the entry numbers; the career name is the last one declared. */
  lemma StepNumbersAndName(st: Scan, line: string)
    ensures Numbers(Step(st, line).pensum.semestres)
            == Numbers(st.pensum.semestres) + match SemestreOf(line) case Some(n) => [n] case None => []
    ensures Step(st, line).pensum.carrera
            == match CarreraOf(line) case Some(x) => x case None => st.pensum.carrera
  {
    var s1 := CarreraLine(st, line);
    var s2 := SemestreLine(s1, line);
    var s3 := CursoLine(s2, line);
    var s4 := NombreLine(s3, line);
    var s5 := CreditosLine(s4, line);
    var s6 := PrerrequisitosLine(s5, line);
    assert s6.pensum == s2.pensum;
    assert Step(st, line) == CloseLine(s6, line);
    FirstStagesNumbersAndName(st, line);
  }

  lemma FirstStagesNumbersAndName(st: Scan, line: string)
    ensures var s2 := SemestreLine(CarreraLine(st, line), line);
            && Numbers(s2.pensum.semestres)
               == Numbers(st.pensum.semestres) + (match SemestreOf(line) case Some(n) => [n] case None => [])
            && s2.pensum.carrera == (match CarreraOf(line) case Some(x) => x case None => st.pensum.carrera)
  {
    var s1 := CarreraLine(st, line);
    var s2 := SemestreLine(s1, line);
    assert s1.pensum.semestres == st.pensum.semestres;
    match SemestreOf(line)
    case Some(n) =>
      NumbersAppend(s1.pensum.semestres, Semestre(n, []));
    case None =>
  }

  lemma NumbersAppend(sems: seq<Semestre>, s: Semestre)
    ensures Numbers(sems + [s]) == Numbers(sems) + [s.semestre]
  {
  }

  lemma {:induction false} ScanNumbersAndName(lines: seq<string>)
    ensures Numbers(ScanLines(lines).pensum.semestres) == SemesterNumbers(lines)
    ensures ScanLines(lines).pensum.carrera == match LastCarrera(lines) case Some(x) => x case None => ""
  {
    if |lines| > 0 {
      ScanNumbersAndName(lines[..|lines| - 1]);
      StepNumbersAndName(ScanLines(lines[..|lines| - 1]), Trim(lines[|lines| - 1]));
    } else {
      assert Numbers([]) == [];
    }
  }

  /** The extractor yields a pensum exactly when some line declares a career
      name and some line declares a semester; the pensum then carries the
      last declared name and one entry per semester line, in order. */
  lemma ExtractIff(text: string)
    ensures Extract(text).Some?
            <==> LastCarrera(Split(text, '\n')).Some? && |SemesterNumbers(Split(text, '\n'))| > 0
    ensures Extract(text).Some? ==>
              && Extract(text).value.carrera == LastCarrera(Split(text, '\n')).value
              && Numbers(Extract(text).value.semestres) == SemesterNumbers(Split(text, '\n'))
  {
    var lines := Split(text, '\n');
    ScanNumbersAndName(lines);
    var p := ScanLines(lines).pensum;
    assert |Numbers(p.semestres)| == |p.semestres|;
  }

  // ------------------------------------------------------ a course's fields

  function Otherwise<T>(o: Option<T>, d: T): T {
    match o case Some(v) => v case None => d
  }

  /** What the last of `lines` (each trimmed) that `read` accepts declares. */
  function LastRead<T>(lines: seq<string>, read: string -> Option<T>): Option<T> {
    if |lines| == 0 then None
    else
      match read(Trim(lines[|lines| - 1]))
      case Some(v) => Some(v)
      case None => LastRead(lines[..|lines| - 1], read)
  }

  /** Course `c` after `lines`: the name, the credits and the prerequisite
      list are each those of the last line among them that declares one,
      and stay as in `c` when none does. */
  function Filled(c: Curso, lines: seq<string>): Curso {
    c.(nombre := Otherwise(LastRead(lines, NombreOf), c.nombre),
       creditos := Otherwise(LastRead(lines, CreditosOf), c.creditos),
       prerrequisitos := Otherwise(LastRead(lines, PrerrequisitosOf), c.prerrequisitos))
  }

  lemma LastReadAppend<T>(lines: seq<string>, line: string, read: string -> Option<T>)
    ensures LastRead(lines + [line], read) == if read(Trim(line)).Some? then read(Trim(line)) else LastRead(lines, read)
    ensures LastRead([line], read) == read(Trim(line))
  {
    assert (lines + [line])[..|lines|] == lines;
    assert [line][..0] == [];
  }

  lemma FilledAppend(c: Curso, lines: seq<string>, line: string)
    ensures Filled(c, lines + [line]) == Filled(Filled(c, lines), [line])
  {
    LastReadAppend(lines, line, NombreOf);
    LastReadAppend(lines, line, CreditosOf);
    LastReadAppend(lines, line, PrerrequisitosOf);
  }

  /** Two keys that differ inside their common length never begin the same
      line. */
  lemma KeysExclusive(line: string, p: string, q: string, i: nat)
    requires i < |p| && i < |q| && p[i] != q[i]
    ensures !(StartsWith(line, p) && StartsWith(line, q))
  {
  }

  /** A `Curso:` line declares nothing else. */
  lemma CursoLineOnly(line: string)
    requires CursoOf(line).Some?
    ensures SemestreOf(line).None? && NombreOf(line).None? && CreditosOf(line).None?
    ensures PrerrequisitosOf(line).None? && line != "}"
  {
    KeysExclusive(line, "Curso:", "Semestre:", 0);
    KeysExclusive(line, "Curso:", "Nombre:", 0);
    KeysExclusive(line, "Curso:", "Area:", 0);
    KeysExclusive(line, "Curso:", "Creditos:", 1);
    KeysExclusive(line, "Curso:", "Prerrequisitos:", 0);
  }

  /** The six checks before the closing one. */
  function Fields(st: Scan, line: string): Scan {
    PrerrequisitosLine(CreditosLine(NombreLine(CursoLine(SemestreLine(CarreraLine(st, line), line), line), line), line), line)
  }

  lemma StepIsFields(st: Scan, line: string)
    ensures Step(st, line) == CloseLine(Fields(st, line), line)
  {
  }

  /** A `Curso:` line under a semester opens a fresh course with its code
      and that semester. */
  lemma StepOpens(st: Scan, line: string)
    requires CursoOf(line).Some? && st.current.Some?
    ensures Step(st, line).open == Some(Curso(CursoOf(line).value, "", 0, [], st.current.value))
  {
    CursoLineOnly(line);
    StepIsFields(st, line);
  }

  /** Course `c` with the fields that one trimmed `line` declares. */
  function Declared(c: Curso, line: string): Curso {
    c.(nombre := Otherwise(NombreOf(line), c.nombre),
       creditos := Otherwise(CreditosOf(line), c.creditos),
       prerrequisitos := Otherwise(PrerrequisitosOf(line), c.prerrequisitos))
  }

  lemma FilledOne(c: Curso, raw: string)
    ensures Filled(c, [raw]) == Declared(c, Trim(raw))
  {
    LastReadAppend([], raw, NombreOf);
    LastReadAppend([], raw, CreditosOf);
    LastReadAppend([], raw, PrerrequisitosOf);
  }

  /** Any line but a course line leaves an open course open, with each
      field the line declares updated. */
  lemma FieldsDeclare(st: Scan, line: string)
    requires st.open.Some? && CursoOf(line).None?
    ensures Fields(st, line).open == Some(Declared(st.open.value, line))
  {
    var s2 := SemestreLine(CarreraLine(st, line), line);
    var s3 := CursoLine(s2, line);
    assert s3 == s2 && s3.open == st.open;
    var s4 := NombreLine(s3, line);
    var s5 := CreditosLine(s4, line);
    var c := st.open.value;
    assert s4.open == Some(c.(nombre := Otherwise(NombreOf(line), c.nombre)));
    assert s5.open == Some(c.(nombre := Otherwise(NombreOf(line), c.nombre),
                              creditos := Otherwise(CreditosOf(line), c.creditos)));
  }

  lemma FieldsUpdate(st: Scan, raw: string)
    requires st.open.Some? && CursoOf(Trim(raw)).None?
    ensures Fields(st, Trim(raw)).open == Some(Filled(st.open.value, [raw]))
  {
    FieldsDeclare(st, Trim(raw));
    FilledOne(st.open.value, raw);
  }

  /** A line that neither opens a course nor closes one. */
  predicate Filling(raw: string) {
    CursoOf(Trim(raw)).None? && Trim(raw) != "}"
  }

  /** Such a line extends the lines that fill the open course. */
  lemma StepFills(st: Scan, c: Curso, lines: seq<string>, raw: string)
    requires st.open == Some(Filled(c, lines))
    requires Filling(raw)
    ensures Step(st, Trim(raw)).open == Some(Filled(c, lines + [raw]))
  {
    FieldsUpdate(st, raw);
    StepIsFields(st, Trim(raw));
    FilledAppend(c, lines, raw);
  }

  /** The scan up to line `k` is one step after the scan before it. */
  lemma ScanUpTo(lines: seq<string>, k: nat)
    requires k < |lines|
    ensures ScanLines(lines[..k + 1]) == Step(ScanLines(lines[..k]), Trim(lines[k]))
  {
    assert lines[..k + 1][..k] == lines[..k];
  }

  lemma ScanOpens(lines: seq<string>, a: nat)
    requires a < |lines| && CursoOf(Trim(lines[a])).Some? && ScanLines(lines[..a]).current.Some?
    ensures ScanLines(lines[..a + 1]).open
            == Some(Curso(CursoOf(Trim(lines[a])).value, "", 0, [], ScanLines(lines[..a]).current.value))
  {
    ScanUpTo(lines, a);
    StepOpens(ScanLines(lines[..a]), Trim(lines[a]));
  }

  /** The scan continued from state `st` over `ls`. */
  function ScanFrom(st: Scan, ls: seq<string>): Scan {
    if |ls| == 0 then st
    else Step(ScanFrom(st, ls[..|ls| - 1]), Trim(ls[|ls| - 1]))
  }

  /** Scanning `x + y` is scanning `x`, then on over `y`. */
  lemma {:induction false} ScanSplit(x: seq<string>, y: seq<string>)
    ensures ScanLines(x + y) == ScanFrom(ScanLines(x), y)
  {
    if |y| == 0 {
      assert x + y == x;
    } else {
      var n := |y| - 1;
      ScanSplit(x, y[..n]);
      assert (x + y)[..|x + y| - 1] == x + y[..n];
      assert (x + y)[|x + y| - 1] == y[n];
    }
  }

  /** Lines that are neither a course line nor `}` fill the open course. */
  lemma {:induction false} FromFilled(st: Scan, c: Curso, ls: seq<string>)
    requires st.open == Some(c)
    requires forall i :: 0 <= i < |ls| ==> Filling(ls[i])
    ensures ScanFrom(st, ls).open == Some(Filled(c, ls))
  {
    if |ls| == 0 {
      assert Filled(c, ls) == c;
    } else {
      var n := |ls| - 1;
      FromFilled(st, c, ls[..n]);
      StepFills(ScanFrom(st, ls[..n]), c, ls[..n], ls[n]);
      DropLast(ls);
    }
  }

  lemma DropLast<T>(s: seq<T>)
    requires |s| > 0
    ensures s[..|s| - 1] + [s[|s| - 1]] == s
  {
  }

  lemma PrefixSplit<T>(s: seq<T>, i: nat, j: nat)
    requires i <= j <= |s|
    ensures s[..j] == s[..i] + s[i..j]
  {
  }

  /** Lines `a + 1` up to `b`, none of them a course line or `}`, fill the
      course line `a` opened. */
  lemma OpenFilled(lines: seq<string>, a: nat, b: nat, c0: Curso)
    requires a < b <= |lines|
    requires ScanLines(lines[..a + 1]).open == Some(c0)
    requires forall i :: a < i < b ==> Filling(lines[i])
    ensures ScanLines(lines[..b]).open == Some(Filled(c0, lines[a + 1..b]))
  {
    var ls := lines[a + 1..b];
    forall i | 0 <= i < |ls|
      ensures Filling(ls[i])
    {
      assert ls[i] == lines[a + 1 + i];
    }
    PrefixSplit(lines, a + 1, b);
    ScanSplit(lines[..a + 1], ls);
    FromFilled(ScanLines(lines[..a + 1]), c0, ls);
  }

  /** A `}` commits the open course, as it stands, and closes it. */
  lemma StepCloses(st: Scan)
    requires st.open.Some?
    ensures Step(st, "}").pensum.cursos == st.pensum.cursos + [st.open.value]
    ensures Step(st, "}").open.None?
  {
    StepIsFields(st, "}");
    FieldsClose(st);
  }

  /** A `}` declares no field. */
  lemma FieldsClose(st: Scan)
    ensures Fields(st, "}") == st
  {
    var line := "}";
    assert !StartsWith(line, "Carrera:") && !StartsWith(line, "Semestre:") && !StartsWith(line, "Curso:");
    assert !StartsWith(line, "Nombre:") && !StartsWith(line, "Area:") && !StartsWith(line, "Creditos:");
    assert !StartsWith(line, "Prerrequisitos:");
    var s2 := SemestreLine(CarreraLine(st, line), line);
    assert s2 == st;
    assert CursoLine(s2, line) == st;
    assert NombreLine(st, line) == st;
    assert CreditosLine(st, line) == st;
  }

  /** A course opened by line `a` and closed by the `}` of line `b`, with no
      course line or `}` between them, is committed with the code of line
      `a`, the semester current there, and the name, credits and
      prerequisites of the last lines between them that declare each. */
  lemma CommittedCourse(lines: seq<string>, a: nat, b: nat)
    requires a < b < |lines|
    requires CursoOf(Trim(lines[a])).Some? && ScanLines(lines[..a]).current.Some?
    requires forall i :: a < i < b ==> Filling(lines[i])
    requires Trim(lines[b]) == "}"
    ensures ScanLines(lines[..b + 1]).pensum.cursos == ScanLines(lines[..b]).pensum.cursos
              + [Filled(Curso(CursoOf(Trim(lines[a])).value, "", 0, [], ScanLines(lines[..a]).current.value), lines[a + 1..b])]
    ensures ScanLines(lines[..b + 1]).open.None?
  {
    ScanOpens(lines, a);
    OpenFilled(lines, a, b, Curso(CursoOf(Trim(lines[a])).value, "", 0, [], ScanLines(lines[..a]).current.value));
    ScanUpTo(lines, b);
    StepCloses(ScanLines(lines[..b]));
  }

  // ------------------------------------------------- no line feeds inside

  /** No text field of the course contains a line feed. */
  predicate SingleLine(c: Curso) {
    && '\n' !in c.codigo && '\n' !in c.nombre
    && forall k :: 0 <= k < |c.prerrequisitos| ==> '\n' !in c.prerrequisitos[k]
  }

  predicate AllSingleLine(st: Scan) {
    && (forall c :: c in st.pensum.cursos ==> SingleLine(c))
    && (st.open.Some? ==> SingleLine(st.open.value))
  }

  lemma CursoLineSingleLine(st: Scan, line: string)
    requires AllSingleLine(st) && '\n' !in line
    ensures AllSingleLine(CursoLine(st, line))
  {
    if StartsWith(line, "Curso:") && Match(line, CursoPattern).Some? {
      assert '\n' !in Match(line, CursoPattern).value;
    }
  }

  lemma NombreLineSingleLine(st: Scan, line: string)
    requires AllSingleLine(st) && '\n' !in line
    ensures AllSingleLine(NombreLine(st, line))
  {
    if StartsWith(line, "Nombre:") && st.open.Some? && Match(line, NombrePattern).Some? {
      assert '\n' !in Match(line, NombrePattern).value;
    }
  }

  lemma PrerrequisitosLineSingleLine(st: Scan, line: string)
    requires AllSingleLine(st) && '\n' !in line
    ensures AllSingleLine(PrerrequisitosLine(st, line))
  {
    if StartsWith(line, "Prerrequisitos:") && st.open.Some? && Match(line, PrerrequisitosPattern).Some? {
      var x := Match(line, PrerrequisitosPattern).value;
      assert '\n' !in x;
    }
  }

  lemma StepSingleLine(st: Scan, line: string)
    requires AllSingleLine(st) && '\n' !in line
    ensures AllSingleLine(Step(st, line))
  {
    var s2 := SemestreLine(CarreraLine(st, line), line);
    assert AllSingleLine(s2);
    CursoLineSingleLine(s2, line);
    var s3 := CursoLine(s2, line);
    NombreLineSingleLine(s3, line);
    var s4 := NombreLine(s3, line);
    var s5 := CreditosLine(s4, line);
    assert AllSingleLine(s5);
    PrerrequisitosLineSingleLine(s5, line);
    var s6 := PrerrequisitosLine(s5, line);
    assert AllSingleLine(CloseLine(s6, line));
  }

  lemma {:induction false} ScanSingleLine(lines: seq<string>)
    requires forall i :: 0 <= i < |lines| ==> '\n' !in lines[i]
    ensures AllSingleLine(ScanLines(lines))
  {
    if |lines| > 0 {
      var init := lines[..|lines| - 1];
      ScanSingleLine(init);
      TrimChars(lines[|lines| - 1]);
      StepSingleLine(ScanLines(init), Trim(lines[|lines| - 1]));
    }
  }

  /** Lines are cut at line feeds, so no extracted field contains one. */
  lemma ExtractedSingleLine(text: string)
    requires Extract(text).Some?
    ensures forall c :: c in Extract(text).value.cursos ==> SingleLine(c)
    ensures forall c :: c in Flatten(Extract(text).value.semestres) ==> SingleLine(c)
  {
    ScanSingleLine(Split(text, '\n'));
    ExtractedFiling(text);
    var p := Extract(text).value;
    forall c | c in Flatten(p.semestres) ensures SingleLine(c) {
      assert c in multiset(Flatten(p.semestres));
    }
  }
}
