/** The six regular expressions the curriculum view's line extractor applies
    to one trimmed line, as a pattern datatype and a deterministic matcher.

    Every pattern has the shape `(?:key1|key2):\s*VALUE` where VALUE is one
    of `"([^"]+)"`, `(\d+)` or `\(([^)]*)\)`. None of them needs
    backtracking: `\s*` is followed by a quote, a digit or an open
    parenthesis, none of which is white space, and each greedy run is
    followed by a character the run cannot contain; the keys of one pattern
    are not prefixes of each other. So a match at a given start position is
    decided by one scan, and `String.prototype.match` returns the first
    group of the leftmost start position that matches. */
module LinePatterns {
  import opened Wrappers
  import opened JsText

  datatype Value =
    | Quoted        // "([^"]+)"
    | Digits        // (\d+)
    | Parenthesized // \(([^)]*)\)

  /** The keys include their trailing colon. */
  datatype Pattern = Pattern(keys: seq<string>, value: Value)

  const CarreraPattern := Pattern(["Carrera:"], Quoted)
  const SemestrePattern := Pattern(["Semestre:"], Digits)
  const CursoPattern := Pattern(["Curso:"], Digits)
  const NombrePattern := Pattern(["Nombre:"], Quoted)
  const CreditosPattern := Pattern(["Area:", "Creditos:"], Digits)
  const PrerrequisitosPattern := Pattern(["Prerrequisitos:"], Parenthesized)

  predicate NotQuote(c: char) { c != '"' }
  predicate NotCloseParen(c: char) { c != ')' }

  /** End of the longest run of characters satisfying `inRun` from `j`. */
  function RunEnd(s: string, j: nat, inRun: char -> bool): (k: nat)
    requires j <= |s|
    ensures j <= k <= |s|
    ensures forall t :: j <= t < k ==> inRun(s[t])
    ensures k < |s| ==> !inRun(s[k])
    decreases |s| - j
  {
    if j < |s| && inRun(s[j]) then RunEnd(s, j + 1, inRun) else j
  }

  /** A run is determined by where it stops. */
  lemma RunEndIs(s: string, j: nat, k: nat, inRun: char -> bool)
    requires j <= k <= |s|
    requires forall t :: j <= t < k ==> inRun(s[t])
    requires k < |s| ==> !inRun(s[k])
    ensures RunEnd(s, j, inRun) == k
    decreases k - j
  {
    if j < k {
      RunEndIs(s, j + 1, k, inRun);
    }
  }

  /** End of the first key that occurs at `i`. */
  function KeyEnd(s: string, i: nat, keys: seq<string>): (e: Option<nat>)
    requires i <= |s|
    ensures e.Some? ==> exists t :: 0 <= t < |keys| && e.value == i + |keys[t]| <= |s| && s[i..e.value] == keys[t]
    ensures e.None? ==> forall t :: 0 <= t < |keys| ==> !StartsWith(s[i..], keys[t])
  {
    if |keys| == 0 then None
    else if StartsWith(s[i..], keys[0]) then Some(i + |keys[0]|)
    else
      var e := KeyEnd(s, i, keys[1..]);
      assert forall t :: 1 <= t < |keys| ==> keys[t] == keys[1..][t - 1];
      e
  }

  /** The group captured by VALUE when it starts at `j`. */
  function ValueAt(s: string, j: nat, v: Value): (r: Option<string>)
    requires j <= |s|
    ensures r.Some? ==> exists a, b :: j <= a <= b <= |s| && r.value == s[a..b]
  {
    match v
    case Digits =>
      var k := RunEnd(s, j, IsDecimalDigit);
      if k > j then Some(s[j..k]) else None
    case Quoted =>
      if j < |s| && s[j] == '"' then
        var k := RunEnd(s, j + 1, NotQuote);
        if j + 1 < k < |s| then Some(s[j + 1..k]) else None
      else None
    case Parenthesized =>
      if j < |s| && s[j] == '(' then
        var k := RunEnd(s, j + 1, NotCloseParen);
        if k < |s| then Some(s[j + 1..k]) else None
      else None
  }

  /** The captured group when the whole pattern matches starting at `i`. */
  function MatchAt(s: string, i: nat, p: Pattern): (r: Option<string>)
    requires i <= |s|
    ensures r.Some? ==> exists a, b :: i <= a <= b <= |s| && r.value == s[a..b]
  {
    match KeyEnd(s, i, p.keys)
    case None => None
    case Some(e) => ValueAt(s, RunEnd(s, e, IsJsSpace), p.value)
  }

  /** What a captured group looks like for each kind of value. */
  predicate CaptureShape(v: Value, x: string) {
    match v
    case Digits => |x| > 0 && AllDecimalDigits(x)
    case Quoted => |x| > 0 && '"' !in x
    case Parenthesized => ')' !in x
  }

  lemma ValueAtShape(s: string, j: nat, v: Value)
    requires j <= |s| && ValueAt(s, j, v).Some?
    ensures CaptureShape(v, ValueAt(s, j, v).value)
  {
  }

  /** The leftmost position at or after `i` where the pattern matches. */
  function Find(s: string, p: Pattern, i: nat): (r: Option<nat>)
    requires i <= |s|
    ensures r.Some? ==> i <= r.value <= |s| && MatchAt(s, r.value, p).Some?
    ensures r.Some? ==> forall t :: i <= t < r.value ==> MatchAt(s, t, p).None?
    ensures r.None? ==> forall j :: i <= j <= |s| ==> MatchAt(s, j, p).None?
    decreases |s| - i
  {
    if MatchAt(s, i, p).Some? then Some(i)
    else if i == |s| then None
    else
      var r := Find(s, p, i + 1);
      assert forall t :: i <= t <= i ==> MatchAt(s, t, p).None?;
      r
  }

  /** `s.match(p)`, reduced to its first group: the group of the leftmost
      match. */
  function Match(s: string, p: Pattern): (r: Option<string>)
    ensures r.Some? ==> CaptureShape(p.value, r.value)
    ensures r.Some? ==> forall c :: c in r.value ==> c in s
  {
    match Find(s, p, 0)
    case None => None
    case Some(j) =>
      var e := KeyEnd(s, j, p.keys).value;
      ValueAtShape(s, RunEnd(s, e, IsJsSpace), p.value);
      MatchAt(s, j, p)
  }

  // ----------------------------------------------------- writing a match

  /** How a value of each kind is written in the source text. */
  function Written(v: Value, x: string): string {
    match v
    case Digits => x
    case Quoted => "\"" + x + "\""
    case Parenthesized => "(" + x + ")"
  }

  /** No key is a prefix of another, so at most one key occurs at a
      position. */
  predicate PrefixFree(keys: seq<string>) {
    forall t, u :: 0 <= t < |keys| && 0 <= u < |keys| && t != u ==> !StartsWith(keys[u], keys[t])
  }

  predicate AllSpace(w: string) {
    forall t :: 0 <= t < |w| ==> IsJsSpace(w[t])
  }

  /** `rest` cannot extend the written value. */
  predicate Delimited(v: Value, rest: string) {
    v.Digits? ==> |rest| == 0 || !IsDecimalDigit(rest[0])
  }

  lemma ValueAtWritten(s: string, j: nat, v: Value, x: string, rest: string)
    requires j <= |s| && s[j..] == Written(v, x) + rest
    requires CaptureShape(v, x) && Delimited(v, rest)
    ensures ValueAt(s, j, v) == Some(x)
  {
    match v
    case Digits =>
      DigitRun(s, j, x, rest);
    case Quoted =>
      QuotedWritten(s, j, x, rest);
    case Parenthesized =>
      ParenthesizedWritten(s, j, x, rest);
  }

  lemma QuotedWritten(s: string, j: nat, x: string, rest: string)
    requires j <= |s| && s[j..] == Written(Quoted, x) + rest
    requires CaptureShape(Quoted, x)
    ensures ValueAt(s, j, Quoted) == Some(x)
  {
    EnclosedRun(s, j, '"', '"', x, rest, NotQuote);
  }

  lemma ParenthesizedWritten(s: string, j: nat, x: string, rest: string)
    requires j <= |s| && s[j..] == Written(Parenthesized, x) + rest
    requires CaptureShape(Parenthesized, x)
    ensures ValueAt(s, j, Parenthesized) == Some(x)
  {
    EnclosedRun(s, j, '(', ')', x, rest, NotCloseParen);
  }

  /** A digit run followed by a non-digit is read whole. */
  lemma DigitRun(s: string, j: nat, x: string, rest: string)
    requires j <= |s| && s[j..] == x + rest
    requires AllDecimalDigits(x) && (|rest| == 0 || !IsDecimalDigit(rest[0]))
    ensures RunEnd(s, j, IsDecimalDigit) == j + |x|
    ensures s[j..j + |x|] == x
  {
    forall t | j <= t < j + |x| ensures IsDecimalDigit(s[t]) {
      assert s[t] == s[j..][t - j] == x[t - j];
    }
    if j + |x| < |s| {
      assert s[j + |x|] == s[j..][|x|] == rest[0];
    }
    RunEndIs(s, j, j + |x|, IsDecimalDigit);
    assert s[j..j + |x|] == s[j..][..|x|];
  }

  /** Between an opening and a closing delimiter, the run of characters
      other than the closing one is exactly the enclosed text. */
  lemma EnclosedRun(s: string, j: nat, open: char, close: char, x: string, rest: string, inRun: char -> bool)
    requires j <= |s| && s[j..] == [open] + x + [close] + rest
    requires forall c :: inRun(c) <==> c != close
    requires close !in x
    ensures j < |s| && s[j] == open
    ensures j + 1 + |x| < |s| && RunEnd(s, j + 1, inRun) == j + 1 + |x|
    ensures s[j + 1..j + 1 + |x|] == x
  {
    EnclosedChars(s, j, open, close, x, rest);
    forall t | j + 1 <= t < j + 1 + |x| ensures inRun(s[t]) {
      assert s[t] == x[t - j - 1];
    }
    RunEndIs(s, j + 1, j + 1 + |x|, inRun);
  }

  lemma EnclosedChars(s: string, j: nat, open: char, close: char, x: string, rest: string)
    requires j <= |s| && s[j..] == [open] + x + [close] + rest
    ensures j + 1 + |x| < |s| && s[j] == open && s[j + 1 + |x|] == close
    ensures forall t :: j + 1 <= t < j + 1 + |x| ==> s[t] == x[t - j - 1]
    ensures s[j + 1..j + 1 + |x|] == x
  {
    var u := s[j..];
    assert s[j] == u[0];
    assert s[j + 1 + |x|] == u[1 + |x|];
    forall t | j + 1 <= t < j + 1 + |x| ensures s[t] == x[t - j - 1] {
      assert s[t] == u[t - j];
    }
    assert s[j + 1..j + 1 + |x|] == u[1..1 + |x|];
  }

  /** Two keys that both occur at the start of a line are prefixes of one
      another. */
  lemma CommonPrefix(s: string, a: string, b: string)
    requires StartsWith(s, a) && StartsWith(s, b)
    ensures StartsWith(a, b) || StartsWith(b, a)
  {
    if |b| <= |a| {
      assert a[..|b|] == s[..|b|];
    } else {
      assert b[..|a|] == s[..|a|];
    }
  }

  lemma KeyEndWritten(s: string, keys: seq<string>, t: nat)
    requires PrefixFree(keys) && t < |keys| && StartsWith(s, keys[t])
    ensures KeyEnd(s, 0, keys) == Some(|keys[t]|)
  {
    if t > 0 {
      assert !StartsWith(s, keys[0]) by {
        if StartsWith(s, keys[0]) {
          CommonPrefix(s, keys[0], keys[t]);
        }
      }
      assert PrefixFree(keys[1..]) by {
        forall a, b | 0 <= a < |keys[1..]| && 0 <= b < |keys[1..]| && a != b
          ensures !StartsWith(keys[1..][b], keys[1..][a])
        {
          assert keys[1..][a] == keys[a + 1] && keys[1..][b] == keys[b + 1];
        }
      }
      assert s[0..] == s;
      KeyEndWritten(s, keys[1..], t - 1);
    }
  }

  /** Writing a line as key, white space and a value makes the pattern
      capture exactly that value: the matcher inverts the line's format. */
  lemma MatchWritten(p: Pattern, t: nat, w: string, x: string, rest: string)
    requires PrefixFree(p.keys) && t < |p.keys|
    requires AllSpace(w) && CaptureShape(p.value, x) && Delimited(p.value, rest)
    ensures Match(p.keys[t] + w + Written(p.value, x) + rest, p) == Some(x)
  {
    var key := p.keys[t];
    var s := key + w + Written(p.value, x) + rest;
    assert s[..|key|] == key;
    KeyEndWritten(s, p.keys, t);
    var e := |key|;
    var j := e + |w|;
    forall u | e <= u < j ensures IsJsSpace(s[u]) {
      assert s[u] == w[u - e];
    }
    assert !IsJsSpace(s[j]) by {
      assert s[j] == Written(p.value, x)[0];
    }
    RunEndIs(s, e, j, IsJsSpace);
    assert s[j..] == Written(p.value, x) + rest;
    ValueAtWritten(s, j, p.value, x, rest);
    assert MatchAt(s, 0, p) == Some(x);
  }

  /** The six patterns' keys are prefix-free. */
  lemma PatternsPrefixFree()
    ensures PrefixFree(CarreraPattern.keys) && PrefixFree(SemestrePattern.keys)
    ensures PrefixFree(CursoPattern.keys) && PrefixFree(NombrePattern.keys)
    ensures PrefixFree(CreditosPattern.keys) && PrefixFree(PrerrequisitosPattern.keys)
  {
    assert "Area:"[0] != "Creditos:"[0];
  }
}
