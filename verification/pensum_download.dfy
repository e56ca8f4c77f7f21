/** The curriculum view's semester ordering and CSV export. Semesters are
    sorted by number with the stable sort of `Sorting`; the CSV is a header
    line and one line per course, semester by semester, each ended by a line
    feed. */
module PensumDownload {
  import opened JsText
  import opened Sorting
  import opened PensumView

  // ---------------------------------------------------------- semester sort

  /** `(a, b) => a.semestre - b.semestre` read as "a may stay before b". */
  function SemesterOrder(): (Semestre, Semestre) -> bool {
    (a: Semestre, b: Semestre) => a.semestre <= b.semestre
  }

  lemma SemesterOrderPreorder()
    ensures TotalPreorder(SemesterOrder())
  {
    var o := SemesterOrder();
    assert forall a: Semestre, b: Semestre :: o(a, b) == (a.semestre <= b.semestre);
  }

  /** `pensum.semestres.sort(...)`: the same entries, by ascending number. */
  function SortSemestres(sems: seq<Semestre>): (r: seq<Semestre>)
    ensures multiset(r) == multiset(sems) && |r| == |sems|
    ensures forall i, j :: 0 <= i < j < |r| ==> r[i].semestre <= r[j].semestre
  {
    SemesterOrderPreorder();
    var r := SortBy(sems, SemesterOrder());
    assert |multiset(r)| == |multiset(sems)|;
    assert forall i, j :: 0 <= i < j < |r| ==> SemesterOrder()(r[i], r[j]);
    r
  }

  /** Entries with the same number keep their order, so the first entry of
      each number, the one that holds its courses, stays first. */
  lemma SortSemestresStable(sems: seq<Semestre>, y: Semestre)
    ensures EqualTo(SortSemestres(sems), y, SemesterOrder()) == EqualTo(sems, y, SemesterOrder())
  {
    SemesterOrderPreorder();
    SortStable(sems, y, SemesterOrder());
  }

  /** Taking out the entry at `k` takes out its courses. */
  lemma {:induction false} FlattenRemove(b: seq<Semestre>, k: nat)
    requires k < |b|
    ensures multiset(Flatten(b)) == multiset(Flatten(b[..k] + b[k + 1..])) + multiset(b[k].cursos)
  {
    if k == 0 {
      assert b[..0] + b[1..] == b[1..];
    } else {
      var t := b[1..];
      FlattenRemove(t, k - 1);
      var without := b[..k] + b[k + 1..];
      assert without == [b[0]] + (t[..k - 1] + t[k..]);
      assert without[0] == b[0] && without[1..] == t[..k - 1] + t[k..];
    }
  }

  lemma RemoveOne(b: seq<Semestre>, k: nat)
    requires k < |b|
    ensures multiset(b[..k] + b[k + 1..]) == multiset(b) - multiset{b[k]}
  {
    assert b == b[..k] + [b[k]] + b[k + 1..];
  }

  /** Reordering entries reorders the courses filed under them. */
  lemma {:induction false} FlattenPermutation(a: seq<Semestre>, b: seq<Semestre>)
    requires multiset(a) == multiset(b)
    ensures multiset(Flatten(a)) == multiset(Flatten(b))
    decreases |a|
  {
    if |a| == 0 {
      assert |multiset(b)| == 0;
      assert b == [];
    } else {
      var x := a[0];
      assert x in multiset(b);
      var k :| 0 <= k < |b| && b[k] == x;
      assert a == [x] + a[1..];
      assert multiset(a[1..]) == multiset(a) - multiset{x};
      RemoveOne(b, k);
      FlattenRemove(b, k);
      FlattenPermutation(a[1..], b[..k] + b[k + 1..]);
    }
  }

  // -------------------------------------------------------------------- CSV

  const CsvHeader := "Semestre," + "Código," + "Nombre," + "Créditos," + "Prerrequisitos"

  /** The prerequisites joined with `", "`, or `Ninguno` when there are none. */
  function PrereqCell(ps: seq<string>): string {
    if |ps| > 0 then Join(ps, ", ") else "Ninguno"
  }

  /** One course's line, without its line feed. `creditos || 0` is the
      credits themselves, as they are never NaN or undefined here. */
  function CsvRow(n: nat, c: Curso): string {
    NatToString(n) + "," + c.codigo + ",\"" + c.nombre + "\"," + NatToString(c.creditos)
    + ",\"" + PrereqCell(c.prerrequisitos) + "\""
  }

  /** The lines of all courses, entry by entry, in entry order. */
  function CsvRows(sems: seq<Semestre>): (r: seq<string>)
    ensures |r| == |Flatten(sems)|
  {
    if |sems| == 0 then []
    else
      var s := sems[0];
      seq(|s.cursos|, i requires 0 <= i < |s.cursos| => CsvRow(s.semestre, s.cursos[i])) + CsvRows(sems[1..])
  }

  /** Each line followed by a line feed. */
  function Terminated(lines: seq<string>): string {
    if |lines| == 0 then "" else lines[0] + "\n" + Terminated(lines[1..])
  }

  /** The `csvContent` string of `descargarPensum` for entries in the order
      given. */
  function Csv(sems: seq<Semestre>): string {
    CsvHeader + "\n" + Terminated(CsvRows(sems))
  }

  /** The file downloaded for a pensum: its entries sorted by number. */
  function Download(p: Pensum): string {
    Csv(SortSemestres(p.semestres))
  }

  // ------------------------------------------------------ reading it back

  lemma {:induction false} TerminatedJoin(h: string, lines: seq<string>)
    ensures h + "\n" + Terminated(lines) == Join([h] + lines + [""], "\n")
    decreases |lines|
  {
    if |lines| == 0 {
      assert [h] + lines + [""] == [h, ""];
    } else {
      TerminatedJoin(lines[0], lines[1..]);
      assert ([h] + lines + [""])[1..] == [lines[0]] + lines[1..] + [""];
    }
  }

  lemma {:induction false} RowsSingleLine(sems: seq<Semestre>)
    requires forall c :: c in Flatten(sems) ==> SingleLine(c)
    ensures forall i :: 0 <= i < |CsvRows(sems)| ==> '\n' !in CsvRows(sems)[i]
  {
    if |sems| > 0 {
      var s := sems[0];
      assert Flatten(sems) == s.cursos + Flatten(sems[1..]);
      RowsSingleLine(sems[1..]);
      forall i | 0 <= i < |s.cursos| ensures '\n' !in CsvRow(s.semestre, s.cursos[i]) {
        var c := s.cursos[i];
        assert c in Flatten(sems);
        if |c.prerrequisitos| > 0 && '\n' in Join(c.prerrequisitos, ", ") {
          JoinChars(c.prerrequisitos, ", ", '\n');
        }
        assert '\n' !in NatToString(s.semestre) && '\n' !in NatToString(c.creditos);
      }
    }
  }

  lemma HeaderSingleLine()
    ensures '\n' !in CsvHeader
  {
  }

  /** When no field holds a line feed, splitting the CSV on line feeds gives
      the header, one line per course, and the empty text after the final
      line feed. */
  lemma CsvLines(sems: seq<Semestre>)
    requires forall c :: c in Flatten(sems) ==> SingleLine(c)
    ensures Split(Csv(sems), '\n') == [CsvHeader] + CsvRows(sems) + [""]
  {
    var rows := CsvRows(sems);
    TerminatedJoin(CsvHeader, rows);
    RowsSingleLine(sems);
    var parts := [CsvHeader] + rows + [""];
    HeaderSingleLine();
    forall i | 0 <= i < |parts| ensures '\n' !in parts[i] {
      if i == 0 {
        assert parts[i] == CsvHeader;
      } else if i < |parts| - 1 {
        assert parts[i] == rows[i - 1];
      } else {
        assert parts[i] == "";
      }
    }
    SplitJoin(parts, '\n');
  }

  /** The downloaded CSV of an extracted pensum has the header and then
      exactly one line per committed course. */
  lemma DownloadLines(text: string)
    requires Extract(text).Some?
    ensures var p := Extract(text).value;
            var rows := CsvRows(SortSemestres(p.semestres));
            && Split(Download(p), '\n') == [CsvHeader] + rows + [""]
            && |rows| == |p.cursos|
  {
    var p := Extract(text).value;
    var sorted := SortSemestres(p.semestres);
    ExtractedFiling(text);
    ExtractedSingleLine(text);
    FlattenPermutation(sorted, p.semestres);
    forall c | c in Flatten(sorted) ensures SingleLine(c) {
      assert c in multiset(Flatten(sorted));
      assert c in Flatten(p.semestres);
    }
    CsvLines(sorted);
    assert |multiset(Flatten(sorted))| == |multiset(Flatten(p.semestres))|;
  }

  // ------------------------------------------- the prerequisite cell read back

  /** Each entry after the first with the space `", "` leaves after the comma. */
  function Spaced(xs: seq<string>): (r: seq<string>)
    ensures |r| == |xs| && forall i :: 0 <= i < |xs| ==> r[i] == " " + xs[i]
  {
    seq(|xs|, i requires 0 <= i < |xs| => " " + xs[i])
  }

  lemma JoinLeadingSpace(x: string, rest: seq<string>, sep: string)
    ensures Join([" " + x] + rest, sep) == " " + Join([x] + rest, sep)
  {
    if |rest| > 0 {
      assert ([" " + x] + rest)[1..] == rest;
      assert ([x] + rest)[1..] == rest;
    }
  }

  lemma {:induction false} JoinCommaSpace(xs: seq<string>)
    requires |xs| >= 1
    ensures Join(xs, ", ") == Join([xs[0]] + Spaced(xs[1..]), ",")
    decreases |xs|
  {
    if |xs| > 1 {
      var tail := xs[1..];
      JoinCommaSpace(tail);
      assert Spaced(tail) == [" " + tail[0]] + Spaced(tail[1..]);
      JoinLeadingSpace(tail[0], Spaced(tail[1..]), ",");
      assert ([xs[0]] + Spaced(tail))[1..] == Spaced(tail);
    }
  }

  lemma {:induction false} ItemsSpaced(xs: seq<string>)
    requires forall i :: 0 <= i < |xs| ==> Tight(xs[i])
    ensures Items(Spaced(xs)) == xs
    decreases |xs|
  {
    if |xs| > 0 {
      TrimLeadingSpace(' ', xs[0]);
      TrimTrimmed(xs[0]);
      assert Spaced(xs)[0] == [' '] + xs[0];
      assert Spaced(xs)[1..] == Spaced(xs[1..]);
      ItemsSpaced(xs[1..]);
    }
  }

  /** Reading a non-empty prerequisite cell back with the extractor's own
      list splitter gives the list: splitting on commas and trimming undoes
      the `", "` join for trimmed entries without commas, the only kind the
      extractor produces. */
  lemma PrereqCellReadBack(ps: seq<string>)
    requires |ps| > 0
    requires forall i :: 0 <= i < |ps| ==> Tight(ps[i]) && ',' !in ps[i]
    ensures PrereqItems(PrereqCell(ps)) == ps
  {
    CellPieces(ps);
    PiecesItems(ps);
    assert PrereqItems(PrereqCell(ps)) == Items(Split(PrereqCell(ps), ','));
  }

  /** Splitting the cell on commas gives the first entry, then each later
      one with its leading space. */
  lemma CellPieces(ps: seq<string>)
    requires |ps| > 0
    requires forall i :: 0 <= i < |ps| ==> ',' !in ps[i]
    ensures Split(PrereqCell(ps), ',') == [ps[0]] + Spaced(ps[1..])
  {
    var parts := [ps[0]] + Spaced(ps[1..]);
    JoinCommaSpace(ps);
    forall i | 0 <= i < |parts| ensures ',' !in parts[i] {
      if i > 0 {
        assert parts[i] == " " + ps[i];
      }
    }
    SplitJoin(parts, ',');
  }

  /** Trimming those pieces gives the entries back. */
  lemma PiecesItems(ps: seq<string>)
    requires |ps| > 0
    requires forall i :: 0 <= i < |ps| ==> Tight(ps[i])
    ensures Items([ps[0]] + Spaced(ps[1..])) == ps
  {
    var parts := [ps[0]] + Spaced(ps[1..]);
    TrimTrimmed(ps[0]);
    assert parts[1..] == Spaced(ps[1..]);
    ItemsSpaced(ps[1..]);
    assert ps == [ps[0]] + ps[1..];
  }
}
