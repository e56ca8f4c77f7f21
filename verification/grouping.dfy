/** The report generator's grouping step: courses are bucketed by semester
    number in list order, then each bucket is sorted by course code.
    `localeCompare` depends on the locale, so the order on codes is a
    parameter `leq` assumed to be a total preorder, and the sort is the
    stable insertion sort of `Sorting`. */
module Grouping {
  import opened JsText
  import opened Generator
  import opened Sorting

  /** Compares courses by their codes. */
  function CodigoOrder(leq: (string, string) -> bool): (Curso, Curso) -> bool {
    (a: Curso, b: Curso) => leq(a.codigo, b.codigo)
  }

  /** A total preorder on codes is one on courses. */
  lemma CodigoOrderPreorder(leq: (string, string) -> bool)
    requires TotalPreorder(leq)
    ensures TotalPreorder(CodigoOrder(leq))
  {
    var o := CodigoOrder(leq);
    forall a: Curso, b: Curso ensures o(a, b) || o(b, a) {
      assert leq(a.codigo, b.codigo) || leq(b.codigo, a.codigo);
    }
    forall a: Curso, b: Curso, c: Curso | o(a, b) && o(b, c) ensures o(a, c) {
      assert leq(a.codigo, b.codigo) && leq(b.codigo, c.codigo);
    }
  }

  /** The order `sort((a, b) => a.codigo.localeCompare(b.codigo))` produces. */
  predicate SortedByCodigo(s: seq<Curso>, leq: (string, string) -> bool) {
    forall i, j :: 0 <= i < j < |s| ==> leq(s[i].codigo, s[j].codigo)
  }

  /** Sorting one bucket: a permutation in code order. */
  function SortByCodigo(s: seq<Curso>, leq: (string, string) -> bool): (r: seq<Curso>)
    ensures multiset(r) == multiset(s)
    ensures TotalPreorder(leq) ==> SortedByCodigo(r, leq)
  {
    SortByCodigoFacts(s, leq);
    SortBy(s, CodigoOrder(leq))
  }

  /** Courses with equal codes keep their list order: sorting changes
      nothing in the subsequence of courses ranked equal to any `y`. */
  lemma SortByCodigoStable(s: seq<Curso>, leq: (string, string) -> bool, y: Curso)
    requires TotalPreorder(leq)
    ensures EqualTo(SortByCodigo(s, leq), y, CodigoOrder(leq)) == EqualTo(s, y, CodigoOrder(leq))
  {
    CodigoOrderPreorder(leq);
    SortStable(s, y, CodigoOrder(leq));
  }

  lemma SortByCodigoFacts(s: seq<Curso>, leq: (string, string) -> bool)
    ensures TotalPreorder(leq) ==> SortedByCodigo(SortBy(s, CodigoOrder(leq)), leq)
  {
    if TotalPreorder(leq) {
      CodigoOrderPreorder(leq);
      assert SortedBy(SortBy(s, CodigoOrder(leq)), CodigoOrder(leq));
    }
  }

  /** The courses of semester `n`, in list order. */
  function InSemestre(cs: seq<Curso>, n: JsNum): seq<Curso> {
    if |cs| == 0 then []
    else InSemestre(cs[..|cs| - 1], n) + (if cs[|cs| - 1].semestre == n then [cs[|cs| - 1]] else [])
  }

  /** The semester numbers that occur. */
  function Semesters(cs: seq<Curso>): set<JsNum> {
    set c | c in cs :: c.semestre
  }

  /** The first loop of `agruparCursosPorSemestre`: each course is pushed
      onto the bucket of its semester, creating the bucket on first use. */
  function Bucket(cs: seq<Curso>): (g: map<JsNum, seq<Curso>>)
  {
    if |cs| == 0 then map[]
    else
      var g := Bucket(cs[..|cs| - 1]);
      var c := cs[|cs| - 1];
      g[c.semestre := (if c.semestre in g then g[c.semestre] else []) + [c]]
  }

  /** The buckets hold, for exactly the semester numbers that occur, the
      courses of that semester in list order. */
  lemma {:induction false} BucketSpec(cs: seq<Curso>)
    ensures Bucket(cs).Keys == Semesters(cs)
    ensures forall n :: n in Bucket(cs) ==> Bucket(cs)[n] == InSemestre(cs, n)
  {
    if |cs| > 0 {
      var init := cs[..|cs| - 1];
      var c := cs[|cs| - 1];
      BucketSpec(init);
      assert cs == init + [c];
      assert Semesters(cs) == Semesters(init) + {c.semestre};
      forall n | n !in Bucket(init)
        ensures InSemestre(init, n) == []
      {
        NotInSemestre(init, n);
      }
    }
  }

  /** A semester number that does not occur has no courses. */
  lemma {:induction false} NotInSemestre(cs: seq<Curso>, n: JsNum)
    requires n !in Semesters(cs)
    ensures InSemestre(cs, n) == []
  {
    if |cs| > 0 {
      var init := cs[..|cs| - 1];
      assert cs[|cs| - 1] in cs;
      assert Semesters(init) <= Semesters(cs) by {
        forall c | c in init ensures c in cs {
          var i :| 0 <= i < |init| && init[i] == c;
          assert cs[i] == c;
        }
      }
      NotInSemestre(init, n);
    }
  }

  /** Every course of `InSemestre(cs, n)` has semester `n` and comes from
      `cs`, and every course of `cs` with semester `n` is in it. */
  lemma {:induction false} InSemestreMembers(cs: seq<Curso>, n: JsNum)
    ensures forall c :: c in InSemestre(cs, n) <==> c in cs && c.semestre == n
  {
    if |cs| > 0 {
      var init := cs[..|cs| - 1];
      InSemestreMembers(init, n);
      assert cs == init + [cs[|cs| - 1]];
    }
  }

  /** `agruparCursosPorSemestre`: the buckets, each sorted by code. */
  function Agrupar(cs: seq<Curso>, leq: (string, string) -> bool): (r: map<JsNum, seq<Curso>>)
    ensures r.Keys == Semesters(cs)
    ensures forall n :: n in r ==> multiset(r[n]) == multiset(InSemestre(cs, n))
    ensures TotalPreorder(leq) ==> forall n :: n in r ==> SortedByCodigo(r[n], leq)
  {
    var g := Bucket(cs);
    BucketSpec(cs);
    map n | n in g :: SortByCodigo(g[n], leq)
  }

  /** Every course lands in exactly one group, the one of its semester
      number, and a group holds only courses of its own semester. */
  lemma EachCourseInItsGroup(cs: seq<Curso>, leq: (string, string) -> bool)
    ensures forall c :: c in cs ==> c.semestre in Agrupar(cs, leq) && c in Agrupar(cs, leq)[c.semestre]
    ensures forall n, c :: n in Agrupar(cs, leq) && c in Agrupar(cs, leq)[n] ==> c in cs && c.semestre == n
  {
    forall c | c in cs ensures c.semestre in Agrupar(cs, leq) && c in Agrupar(cs, leq)[c.semestre] {
      assert c.semestre in Semesters(cs);
      GroupMembers(cs, leq, c.semestre);
    }
    forall n | n in Agrupar(cs, leq)
      ensures forall c :: c in Agrupar(cs, leq)[n] ==> c in cs && c.semestre == n
    {
      GroupMembers(cs, leq, n);
    }
  }

  /** A group holds exactly the courses of its semester. */
  lemma GroupMembers(cs: seq<Curso>, leq: (string, string) -> bool, n: JsNum)
    requires n in Semesters(cs)
    ensures n in Agrupar(cs, leq)
    ensures forall c :: c in Agrupar(cs, leq)[n] <==> c in cs && c.semestre == n
  {
    var g := Agrupar(cs, leq)[n];
    InSemestreMembers(cs, n);
    forall c ensures c in g <==> c in InSemestre(cs, n) {
      assert c in g <==> c in multiset(g);
    }
  }

  /** The group sizes add up: a group has as many courses as the list has
      courses of that semester. */
  lemma GroupSizes(cs: seq<Curso>, leq: (string, string) -> bool, n: JsNum)
    requires n in Semesters(cs)
    ensures |Agrupar(cs, leq)[n]| == |InSemestre(cs, n)|
  {
    var r := Agrupar(cs, leq);
    assert |multiset(r[n])| == |multiset(InSemestre(cs, n))|;
  }
}
