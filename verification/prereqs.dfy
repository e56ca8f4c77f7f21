/** The curriculum view's transitive prerequisite lookup and the highlight
    predicate built on it. Courses are looked up by code in a map from code
    to prerequisite codes (the view builds it from its course list, a later
    course replacing an earlier one with the same code). The lookup carries
    the set of codes already on the current path and gives each branch its
    own copy, so it stops on cycles; the result is exactly the set of codes
    reachable by a non-empty chain of prerequisites. */
module Prerequisites {
  import opened Wrappers
  import opened PensumView

  type Graph = map<string, seq<string>>

  // ------------------------------------------------------------ reachability

  /** `b` is a direct prerequisite of `a`. */
  predicate Edge(m: Graph, a: string, b: string) {
    a in m && b in m[a]
  }

  /** A chain of at least one prerequisite step. */
  ghost predicate IsChain(m: Graph, p: seq<string>) {
    |p| >= 2 && forall i :: 0 <= i < |p| - 1 ==> Edge(m, p[i], p[i + 1])
  }

  ghost predicate Reachable(m: Graph, s: string, t: string) {
    exists p :: IsChain(m, p) && p[0] == s && p[|p| - 1] == t
  }

  /** All entries but the last are pairwise distinct. */
  ghost predicate DistinctPrefix(p: seq<string>) {
    forall i, j :: 0 <= i < j < |p| - 1 ==> p[i] != p[j]
  }

  // ------------------------------------------------------------- the lookup

  /** `getPrerrequisitosCompletos(code, visited)`. Recursion ends because a
      code is added to `visited` only when it is a key of `m`. */
  function Closure(m: Graph, code: string, visited: set<string>): (r: set<string>)
    decreases m.Keys - visited, 0, 0
  {
    if code in visited then {}
    else if code !in m then {}
    else
      ClosureList(m, m[code], visited + {code})
  }

  /** The `forEach` over one course's prerequisites: each one, and everything
      below it, looked up with its own copy of `visited`. */
  function ClosureList(m: Graph, ps: seq<string>, visited: set<string>): (r: set<string>)
    decreases m.Keys - visited, 1, |ps|
  {
    if |ps| == 0 then {}
    else {ps[0]} + Closure(m, ps[0], visited) + ClosureList(m, ps[1..], visited)
  }

  /** The entry point, with an empty `visited`. */
  function AllPrerequisites(m: Graph, code: string): set<string> {
    Closure(m, code, {})
  }

  // --------------------------------------------------------------- soundness

  lemma ChainCons(m: Graph, a: string, p: seq<string>)
    requires |p| >= 1 && Edge(m, a, p[0])
    requires |p| == 1 || IsChain(m, p)
    ensures IsChain(m, [a] + p)
  {
    var q := [a] + p;
    forall i | 0 <= i < |q| - 1 ensures Edge(m, q[i], q[i + 1]) {
      if i > 0 {
        assert q[i] == p[i - 1] && q[i + 1] == p[i];
      }
    }
  }

  /** Everything the lookup returns is reachable. */
  lemma {:induction false} ClosureSound(m: Graph, code: string, visited: set<string>, t: string)
    requires t in Closure(m, code, visited)
    ensures Reachable(m, code, t)
    decreases m.Keys - visited, 0, 0
  {
    assert code !in visited && code in m;
    var i := ClosureListSound(m, m[code], visited + {code}, t);
    var b := m[code][i];
    if t == b {
      ChainCons(m, code, [t]);
      assert IsChain(m, [code, t]);
    } else {
      var p :| IsChain(m, p) && p[0] == b && p[|p| - 1] == t;
      ChainCons(m, code, p);
      assert ([code] + p)[|p|] == t;
    }
  }

  /** Something returned for a prerequisite list is one of the list's
      entries or reachable from one. */
  lemma {:induction false} ClosureListSound(m: Graph, ps: seq<string>, visited: set<string>, t: string)
    returns (i: nat)
    requires t in ClosureList(m, ps, visited)
    ensures i < |ps| && (t == ps[i] || Reachable(m, ps[i], t))
    decreases m.Keys - visited, 1, |ps|
  {
    if t == ps[0] {
      i := 0;
    } else if t in Closure(m, ps[0], visited) {
      ClosureSound(m, ps[0], visited, t);
      i := 0;
    } else {
      var k := ClosureListSound(m, ps[1..], visited, t);
      i := k + 1;
    }
  }

  // ------------------------------------------------------------ completeness

  /** Every entry of a prerequisite list, and everything the lookup finds
      below it, is in the list's result. */
  lemma {:induction false} ClosureListHas(m: Graph, ps: seq<string>, visited: set<string>, j: nat)
    requires j < |ps|
    ensures ps[j] in ClosureList(m, ps, visited)
    ensures Closure(m, ps[j], visited) <= ClosureList(m, ps, visited)
    decreases |ps|
  {
    if j > 0 {
      ClosureListHas(m, ps[1..], visited, j - 1);
    }
  }

  /** Along a chain whose entries before the last are distinct and not yet
      visited, the lookup reaches the chain's end. */
  lemma {:induction false} ClosureComplete(m: Graph, p: seq<string>, visited: set<string>)
    requires IsChain(m, p) && DistinctPrefix(p)
    requires forall i :: 0 <= i < |p| - 1 ==> p[i] !in visited
    ensures p[|p| - 1] in Closure(m, p[0], visited)
    decreases |p|
  {
    var code := p[0];
    assert Edge(m, code, p[1]);
    var j :| 0 <= j < |m[code]| && m[code][j] == p[1];
    var v := visited + {code};
    assert Closure(m, code, visited) == ClosureList(m, m[code], v);
    ClosureListHas(m, m[code], v, j);
    if |p| > 2 {
      var q := p[1..];
      assert IsChain(m, q) by {
        forall i | 0 <= i < |q| - 1 ensures Edge(m, q[i], q[i + 1]) {
          assert Edge(m, p[i + 1], p[i + 2]);
        }
      }
      forall i | 0 <= i < |q| - 1 ensures q[i] !in v {
        assert q[i] == p[i + 1] && p[0] != p[i + 1];
      }
      ClosureComplete(m, q, v);
    }
  }

  /** Any chain can be shortened to one with the same ends whose entries
      before the last are distinct. */
  lemma {:induction false} ShortestChain(m: Graph, p: seq<string>) returns (q: seq<string>)
    requires IsChain(m, p)
    ensures IsChain(m, q) && DistinctPrefix(q) && q[0] == p[0] && q[|q| - 1] == p[|p| - 1]
    decreases |p|
  {
    if DistinctPrefix(p) {
      q := p;
    } else {
      var i, j :| 0 <= i < j < |p| - 1 && p[i] == p[j];
      var r := p[..i] + p[j..];
      assert |r| == |p| - (j - i) >= 2;
      forall k | 0 <= k < |r| - 1 ensures Edge(m, r[k], r[k + 1]) {
        if k < i - 1 {
          assert r[k] == p[k] && r[k + 1] == p[k + 1];
        } else if k == i - 1 {
          assert r[k] == p[i - 1] && r[k + 1] == p[j] == p[i];
        } else {
          assert r[k] == p[k + j - i] && r[k + 1] == p[k + 1 + j - i];
        }
      }
      assert r[0] == p[0] by {
        if i == 0 {
          assert r[0] == p[j] == p[0];
        }
      }
      q := ShortestChain(m, r);
    }
  }

  /** The lookup returns exactly the codes reachable from `code` by a
      non-empty chain of prerequisites, cycles included. */
  lemma AllPrerequisitesReachable(m: Graph, code: string, t: string)
    ensures t in AllPrerequisites(m, code) <==> Reachable(m, code, t)
  {
    if t in AllPrerequisites(m, code) {
      ClosureSound(m, code, {}, t);
    }
    if Reachable(m, code, t) {
      var p :| IsChain(m, p) && p[0] == code && p[|p| - 1] == t;
      var q := ShortestChain(m, p);
      ClosureComplete(m, q, {});
    }
  }

  // ----------------------------------------------------- the course map

  /** `cursosMap`: each course's prerequisites under its code, a later
      course replacing an earlier one with the same code. */
  function PrereqMap(cs: seq<Curso>): (m: Graph)
    ensures forall k :: k in m <==> exists i :: 0 <= i < |cs| && cs[i].codigo == k
  {
    if |cs| == 0 then map[]
    else
      var init := cs[..|cs| - 1];
      var m := PrereqMap(init);
      assert forall i :: 0 <= i < |init| ==> init[i] == cs[i];
      m[cs[|cs| - 1].codigo := cs[|cs| - 1].prerrequisitos]
  }

  /** The entry of a code is the list of the last course with that code. */
  lemma {:induction false} PrereqMapLast(cs: seq<Curso>, i: nat)
    requires i < |cs|
    requires forall j :: i < j < |cs| ==> cs[j].codigo != cs[i].codigo
    ensures cs[i].codigo in PrereqMap(cs) && PrereqMap(cs)[cs[i].codigo] == cs[i].prerrequisitos
  {
    if i < |cs| - 1 {
      var init := cs[..|cs| - 1];
      PrereqMapLast(init, i);
    }
  }

  // --------------------------------------------------------------- highlight

  /** `isCursoResaltado(code)`: nothing is highlighted without a selection
      (an empty code counts as none), the selected course is, and so is
      every course in its complete prerequisite set. */
  function IsHighlighted(m: Graph, selected: Option<string>, code: string): bool {
    match selected
    case None => false
    case Some(s) =>
      if s == "" then false
      else if code == s then true
      else code in AllPrerequisites(m, s)
  }

  /** A course is highlighted exactly when it is the selected one or can be
      reached from it by a chain of prerequisites. */
  lemma HighlightedIff(m: Graph, selected: Option<string>, code: string)
    ensures IsHighlighted(m, selected, code)
      <==> selected.Some? && selected.value != ""
           && (code == selected.value || Reachable(m, selected.value, code))
  {
    if selected.Some? {
      AllPrerequisitesReachable(m, selected.value, code);
    }
  }

  /** The view's highlight for a pensum built by the extractor. */
  function IsCursoResaltado(p: Pensum, selected: Option<string>, code: string): bool {
    IsHighlighted(PrereqMap(p.cursos), selected, code)
  }

  /** A highlighted course other than the selection is a listed
      prerequisite of some course in the pensum. */
  lemma HighlightedIsListed(p: Pensum, selected: Option<string>, code: string)
    requires IsCursoResaltado(p, selected, code) && code != selected.value
    ensures exists i, k :: 0 <= i < |p.cursos| && 0 <= k < |p.cursos[i].prerrequisitos|
                           && p.cursos[i].prerrequisitos[k] == code
  {
    var m := PrereqMap(p.cursos);
    HighlightedIff(m, selected, code);
    var path :| IsChain(m, path) && path[0] == selected.value && path[|path| - 1] == code;
    var a := path[|path| - 2];
    assert Edge(m, a, code);
    LastWithCode(p.cursos, a);
  }

  /** Some course with the code carries the map's entry for it. */
  lemma {:induction false} LastWithCode(cs: seq<Curso>, k: string)
    requires k in PrereqMap(cs)
    ensures exists i :: 0 <= i < |cs| && cs[i].codigo == k && cs[i].prerrequisitos == PrereqMap(cs)[k]
  {
    var init := cs[..|cs| - 1];
    if cs[|cs| - 1].codigo != k {
      LastWithCode(init, k);
      var i :| 0 <= i < |init| && init[i].codigo == k && init[i].prerrequisitos == PrereqMap(init)[k];
      assert cs[i] == init[i];
    }
  }

  /** On a prerequisite cycle the lookup stops, and a course on the cycle
      is among its own prerequisites. */
  lemma CycleExample(a: string, b: string)
    requires a != b
    ensures AllPrerequisites(map[a := [b], b := [a]], a) == {a, b}
  {
    var m := map[a := [b], b := [a]];
    assert m[a] == [b] && m[b] == [a];
    assert {a} + {b} == {a, b};
    assert {} + {a} == {a};
    assert Closure(m, a, {a, b}) == {};
    assert Closure(m, b, {a}) == ClosureList(m, [a], {a, b});
    assert ClosureList(m, [a], {a, b}) == {a} + Closure(m, a, {a, b}) + ClosureList(m, [], {a, b});
    assert Closure(m, a, {}) == ClosureList(m, [b], {a});
    assert ClosureList(m, [b], {a}) == {b} + Closure(m, b, {a}) + ClosureList(m, [], {a});
  }
}
