/**
 * Properties of import parsing: what the recognizer accepts, how the `exec`
 * loop walks the text, and round trips from written declarations to records.
 */
module ImportParserProofs {
  import opened Options
  import opened Text
  import opened Seqs
  import opened ImportParser

  lemma SpanFromSuffix(t: string, k: nat, u: string, j: nat, f: char -> bool)
    requires k <= |t| && t[k..] == u && j <= |u|
    ensures Span(t, k + j, f) == k + Span(u, j, f)
  {
    var r := Span(u, j, f);
    assert forall i :: k + j <= i < k + r ==> t[i] == u[i - k];
    SpanIs(t, k + j, f, k + r);
  }

  /** The next non-blank text of `rest` opens an `as` or an `exposing` clause. */
  predicate ClauseAhead(rest: string) {
    var k := Span(rest, 0, IsSpace);
    HasAt(rest, k, "as") || HasAt(rest, k, "exposing")
  }

  lemma NoClauseAt(t: string, k: nat)
    requires k <= |t| && !ClauseAhead(t[k..])
    ensures AsClause(t, k) == None && ExposingClause(t, k) == None
  {
    var u := t[k..];
    SpanFromSuffix(t, k, u, 0, IsSpace);
  }

  lemma NoAsBeforeExposing(t: string, k: nat)
    requires HasAt(t, k, " e")
    ensures AsClause(t, k) == None
  {
    assert t[k..k + 2] == " e";
    assert t[k] == ' ' && t[k + 1] == 'e';
    SpanIs(t, k, IsSpace, k + 1);
  }

  /** A character no list can continue with: not an entry character, a comma or white space. */
  predicate StopsList(c: char) {
    !IsEntryChar(c) && c != ',' && !IsSpace(c)
  }

  lemma ListEndAt(t: string, k: nat, list: string)
    requires HasAt(t, k, list) && IsExposingList(list)
    requires k + |list| < |t| && StopsList(t[k + |list|])
    ensures ListEnd(t, k) == k + |list|
  {
    var n := |list|;
    assert forall j :: k <= j < k + n ==> t[j] == list[j - k];
    assert forall j :: k < j < k + n ==> StepAt(t, j) by {
      forall j | k < j < k + n ensures StepAt(t, j) {
        assert StepAt(list, j - k);
      }
    }
    assert !StepAt(t, k + n);
    var e := ListEnd(t, k);
    assert e <= k + n;
  }

  lemma ExposingKeywordAt(t: string, k: nat)
    requires HasAt(t, k, " exposing (")
    ensures Span(t, k, IsSpace) == k + 1 && HasAt(t, k + 1, "exposing")
    ensures Span(t, k + 9, IsSpace) == k + 10 && t[k + 10] == '('
  {
    assert HasAt(t, k, " ") && HasAt(t, k + 1, "exposing") && HasAt(t, k + 9, " (") by {
      HasAtSplit(t, k, " ", "exposing (");
      HasAtSplit(t, k + 1, "exposing", " (");
    }
    assert t[k] == ' ' && t[k + 1] == 'e' by { assert t[k + 1] == t[k + 1..k + 9][0]; }
    assert t[k + 9] == ' ' && t[k + 10] == '(' by { assert t[k + 10] == t[k + 9..k + 11][1]; }
    assert Span(t, k, IsSpace) == k + 1 by { SingleSpace(t, k); }
    assert Span(t, k + 9, IsSpace) == k + 10 by { SingleSpace(t, k + 9); }
  }

  /** A lone blank before a character that is not white space. */
  lemma SingleSpace(t: string, k: nat)
    requires k + 1 < |t| && IsSpace(t[k]) && !IsSpace(t[k + 1])
    ensures Span(t, k, IsSpace) == k + 1
  {
    SpanIs(t, k, IsSpace, k + 1);
  }

  lemma HasAtSplit(t: string, k: nat, a: string, b: string)
    requires HasAt(t, k, a + b)
    ensures HasAt(t, k, a) && HasAt(t, k + |a|, b)
  {
    assert t[k..k + |a|] == (a + b)[..|a|];
    assert t[k + |a|..k + |a| + |b|] == (a + b)[|a|..];
  }

  /**
   * An exposing clause whose list is followed by something other than `)`
   * is not a clause: the list cannot stop earlier, since `(?:,\s*)?` and
   * the entries are greedy and none of their characters is `)`.
   */
  lemma ExposingUnclosed(t: string, k: nat, list: string)
    requires HasAt(t, k, " exposing (") && HasAt(t, k + 11, list) && IsExposingList(list)
    requires k + 11 + |list| < |t| && StopsList(t[k + 11 + |list|]) && t[k + 11 + |list|] != ')'
    ensures ExposingClause(t, k) == None
  {
    ExposingKeywordAt(t, k);
    assert ListEnd(t, k + 11) == k + 11 + |list| by { ListEndAt(t, k + 11, list); }
  }

  /** An exposing clause whose parenthesis is not followed at once by an entry is not a clause. */
  lemma ExposingEmpty(t: string, k: nat)
    requires HasAt(t, k, " exposing (") && k + 11 < |t| && !IsEntryChar(t[k + 11])
    ensures ExposingClause(t, k) == None
  {
    ExposingKeywordAt(t, k);
  }

  /** After the module name, a character that is neither white space nor a line end ends every attempt. */
  lemma NoSpaceAfterName(t: string, m: nat, name: string)
    requires m < |t| && !IsSpace(t[m])
    ensures AfterName(t, m, name) == None
  {
    SpanIs(t, m, IsSpace, m);
  }

  /** After the module name, an exposing clause that fails rejects the line. */
  lemma FailedExposingAfterName(t: string, m: nat, name: string)
    requires m < |t| && HasAt(t, m, " e") && ExposingClause(t, m) == None
    ensures AfterName(t, m, name) == None
  {
    NoAsBeforeExposing(t, m);
    assert t[m] == t[m..m + 2][0];
  }

  /** A suffix that starts with `a` and continues with `b`. */
  lemma SplitSuffix(t: string, k: nat, a: string, b: string)
    requires k <= |t| && t[k..] == a + b
    ensures HasAt(t, k, a) && t[k + |a|..] == b
  {
    assert t[k..k + |a|] == (a + b)[..|a|];
  }

  lemma RemainderFromClause(t: string, k: nat, x: ImportSyntax, e: nat)
    requires k <= |t| && x.exposing.Some?
    requires ExposingClause(t, k) == Some((x.exposing.value, e)) && AtLineEnd(t, e)
    ensures Remainder(t, k, x.moduleName, x.alias) == Some((x, e))
  {
  }

  lemma RemainderWithoutList(t: string, a: nat, x: ImportSyntax, rest: string)
    requires x.exposing.None?
    requires a <= |t| && t[a..] == rest
    requires rest == [] || IsLineTerminator(rest[0])
    requires !ClauseAhead(rest)
    ensures Remainder(t, a, x.moduleName, x.alias) == Some((x, |t| - |rest|))
  {
    NoClauseAt(t, a);
  }

  lemma ScanUnfold(pattern: Pattern, s: string, from: nat, m: Match)
    requires Advances(pattern)
    requires Exec(pattern, s, from) == Some(m)
    ensures Scan(pattern, s, from) == [m] + Scan(pattern, s, m.end)
  {
  }

  lemma ScanUnfoldTo(pattern: Pattern, s: string, from: nat, m: Match, tail: seq<Match>)
    requires Advances(pattern)
    requires Exec(pattern, s, from) == Some(m)
    requires Scan(pattern, s, m.end) == tail
    ensures Scan(pattern, s, from) == [m] + tail
  {
    ScanUnfold(pattern, s, from, m);
  }

  lemma ImportsOfCons(m: Match, ms: seq<Match>)
    ensures ImportsOf([m] + ms) == [ToImport(m.syntax)] + ImportsOf(ms)
  {
    assert ([m] + ms)[1..] == ms;
  }

  /** `exec` is leftmost: if the pattern matches at a line start at or after `from`, it finds a match no later. */
  lemma {:induction false} ExecLeftmost(pattern: Pattern, s: string, from: nat, p: nat)
    requires Advances(pattern)
    requires from <= p <= |s| && LineStart(s, p) && pattern(s[p..]).Some?
    ensures Exec(pattern, s, from).Some? && Exec(pattern, s, from).value.start <= p
    decreases p - from
  {
    if !(LineStart(s, from) && pattern(s[from..]).Some?) {
      ExecLeftmost(pattern, s, from + 1, p);
    }
  }

  ghost predicate RealMatches(pattern: Pattern, s: string, from: nat, ms: seq<Match>) {
    forall k :: 0 <= k < |ms| ==> from <= ms[k].start && IsMatchAt(pattern, s, ms[k])
  }

  predicate Ordered(ms: seq<Match>) {
    forall k :: 0 < k < |ms| ==> ms[k - 1].end <= ms[k].start
  }

  /** The `while` loop of `parseImports` reports real matches at line starts, at or after where it began. */
  lemma {:induction false} ScanMatches(pattern: Pattern, s: string, from: nat)
    requires Advances(pattern)
    ensures RealMatches(pattern, s, from, Scan(pattern, s, from))
    decreases |s| + 1 - from
  {
    var found := Exec(pattern, s, from);
    if found.Some? {
      var m := found.value;
      assert from <= m.start < m.end;
      var rest := Scan(pattern, s, m.end);
      assert RealMatches(pattern, s, m.end, rest) by { ScanMatches(pattern, s, m.end); }
      assert Scan(pattern, s, from) == [m] + rest by { ScanUnfold(pattern, s, from, m); }
      var ms := [m] + rest;
      forall k | 0 <= k < |ms| ensures from <= ms[k].start && IsMatchAt(pattern, s, ms[k]) {
        if k > 0 {
          assert ms[k] == rest[k - 1];
        }
      }
    }
  }

  /** The matches the loop reports come in order of appearance and do not overlap. */
  lemma {:induction false} ScanOrdered(pattern: Pattern, s: string, from: nat)
    requires Advances(pattern)
    ensures Ordered(Scan(pattern, s, from))
    decreases |s| + 1 - from
  {
    var found := Exec(pattern, s, from);
    if found.Some? {
      var m := found.value;
      assert from <= m.start < m.end;
      var rest := Scan(pattern, s, m.end);
      assert Ordered(rest) by { ScanOrdered(pattern, s, m.end); }
      assert RealMatches(pattern, s, m.end, rest) by { ScanMatches(pattern, s, m.end); }
      assert Scan(pattern, s, from) == [m] + rest by { ScanUnfold(pattern, s, from, m); }
      var ms := [m] + rest;
      forall k | 0 < k < |ms| ensures ms[k - 1].end <= ms[k].start {
        assert ms[k] == rest[k - 1];
        if k > 1 {
          assert ms[k - 1] == rest[k - 2];
        }
      }
    }
  }

  ghost predicate Covered(ms: seq<Match>, p: nat) {
    exists k :: 0 <= k < |ms| && ms[k].start <= p < ms[k].end
  }

  ghost predicate MatchesAt(pattern: Pattern, s: string, p: nat) {
    p <= |s| && LineStart(s, p) && pattern(s[p..]).Some?
  }

  lemma CoveredCons(m: Match, rest: seq<Match>, p: nat)
    requires Covered(rest, p)
    ensures Covered([m] + rest, p)
  {
    var k :| 0 <= k < |rest| && rest[k].start <= p < rest[k].end;
    assert ([m] + rest)[k + 1] == rest[k];
  }

  /**
   * Every line start where the pattern matches lies inside a reported match:
   * lines that do not match are passed over without a record.
   */
  lemma {:induction false} ScanCovers(pattern: Pattern, s: string, from: nat, p: nat)
    requires Advances(pattern)
    requires from <= p && MatchesAt(pattern, s, p)
    ensures Covered(Scan(pattern, s, from), p)
    decreases |s| + 1 - from
  {
    assert Exec(pattern, s, from).Some? && Exec(pattern, s, from).value.start <= p by {
      ExecLeftmost(pattern, s, from, p);
    }
    var m := Exec(pattern, s, from).value;
    var rest := Scan(pattern, s, m.end);
    assert Scan(pattern, s, from) == [m] + rest by { ScanUnfold(pattern, s, from, m); }
    if p < m.end {
      assert ([m] + rest)[0] == m;
    } else {
      assert from < m.end;
      ScanCovers(pattern, s, m.end, p);
      CoveredCons(m, rest, p);
    }
  }

  /** `exec` does not stop at positions where the pattern cannot start. */
  lemma {:induction false} ExecSkips(pattern: Pattern, s: string, i: nat, j: nat)
    requires Advances(pattern)
    requires i <= j <= |s| + 1
    requires forall q :: i <= q < j ==> !(LineStart(s, q) && pattern(s[q..]).Some?)
    ensures Exec(pattern, s, i) == Exec(pattern, s, j)
    decreases j - i
  {
    if i < j {
      ExecSkips(pattern, s, i + 1, j);
    }
  }

  function Shifted(m: Option<Match>, d: nat): Option<Match> {
    if m.Some? then Some(Match(m.value.syntax, m.value.start + d, m.value.end + d)) else None
  }

  /** After a line terminator, `exec` finds in the text that follows what it finds in that text alone. */
  lemma {:induction false} ExecAfterLine(pattern: Pattern, p: string, t: string, k: nat)
    requires Advances(pattern)
    requires p != [] && IsLineTerminator(p[|p| - 1])
    ensures Exec(pattern, p + t, |p| + k) == Shifted(Exec(pattern, t, k), |p|)
    decreases |t| + 1 - k
  {
    var s := p + t;
    if k <= |t| {
      assert s[|p| + k..] == t[k..];
      assert LineStart(s, |p| + k) == LineStart(t, k) by {
        if k > 0 {
          assert s[|p| + k - 1] == t[k - 1];
        } else {
          assert s[|p| - 1] == p[|p| - 1];
        }
      }
      ExecAfterLine(pattern, p, t, k + 1);
    }
  }

  function ShiftedAll(ms: seq<Match>, d: nat): (r: seq<Match>)
    ensures |r| == |ms|
    ensures forall k :: 0 <= k < |ms| ==> r[k] == Match(ms[k].syntax, ms[k].start + d, ms[k].end + d)
  {
    if ms == [] then [] else [Match(ms[0].syntax, ms[0].start + d, ms[0].end + d)] + ShiftedAll(ms[1..], d)
  }

  lemma ExecAfterLineSome(pattern: Pattern, p: string, t: string, k: nat, m: Match)
    requires Advances(pattern)
    requires p != [] && IsLineTerminator(p[|p| - 1])
    requires Exec(pattern, t, k) == Some(m)
    ensures Exec(pattern, p + t, |p| + k) == Some(Match(m.syntax, m.start + |p|, m.end + |p|))
  {
    ExecAfterLine(pattern, p, t, k);
  }

  lemma ExecAfterLineNone(pattern: Pattern, p: string, t: string, k: nat)
    requires Advances(pattern)
    requires p != [] && IsLineTerminator(p[|p| - 1])
    requires Exec(pattern, t, k).None?
    ensures Exec(pattern, p + t, |p| + k).None?
  {
    ExecAfterLine(pattern, p, t, k);
  }

  lemma ShiftedAllCons(m: Match, ms: seq<Match>, d: nat)
    ensures ShiftedAll([m] + ms, d) == [Match(m.syntax, m.start + d, m.end + d)] + ShiftedAll(ms, d)
  {
    assert ([m] + ms)[1..] == ms;
  }

  /** After a line terminator, the text that follows is scanned as if it stood alone. */
  lemma {:induction false} ScanAfterLine(pattern: Pattern, p: string, t: string, k: nat)
    requires Advances(pattern)
    requires p != [] && IsLineTerminator(p[|p| - 1])
    ensures Scan(pattern, p + t, |p| + k) == ShiftedAll(Scan(pattern, t, k), |p|)
    decreases |t| + 1 - k
  {
    var found := Exec(pattern, t, k);
    if found.Some? {
      var m := found.value;
      assert k < m.end;
      ScanAfterLine(pattern, p, t, m.end);
      ScanAfterLineSome(pattern, p, t, k, m);
    } else {
      ScanAfterLineNone(pattern, p, t, k);
    }
  }

  lemma ScanAfterLineSome(pattern: Pattern, p: string, t: string, k: nat, m: Match)
    requires Advances(pattern)
    requires p != [] && IsLineTerminator(p[|p| - 1])
    requires Exec(pattern, t, k) == Some(m)
    requires Scan(pattern, p + t, |p| + m.end) == ShiftedAll(Scan(pattern, t, m.end), |p|)
    ensures Scan(pattern, p + t, |p| + k) == ShiftedAll(Scan(pattern, t, k), |p|)
  {
    ExecAfterLineSome(pattern, p, t, k, m);
    ScanShiftStep(pattern, p + t, t, |p|, k, m);
  }

  lemma ScanAfterLineNone(pattern: Pattern, p: string, t: string, k: nat)
    requires Advances(pattern)
    requires p != [] && IsLineTerminator(p[|p| - 1])
    requires Exec(pattern, t, k).None?
    ensures Scan(pattern, p + t, |p| + k) == ShiftedAll(Scan(pattern, t, k), |p|)
  {
    ExecAfterLineNone(pattern, p, t, k);
  }

  /** One step of the loop on the shifted text mirrors one step on the text alone. */
  lemma ScanShiftStep(pattern: Pattern, s: string, t: string, d: nat, k: nat, m: Match)
    requires Advances(pattern)
    requires Exec(pattern, t, k) == Some(m)
    requires Exec(pattern, s, d + k) == Some(Match(m.syntax, m.start + d, m.end + d))
    requires Scan(pattern, s, d + m.end) == ShiftedAll(Scan(pattern, t, m.end), d)
    ensures Scan(pattern, s, d + k) == ShiftedAll(Scan(pattern, t, k), d)
  {
    var m' := Match(m.syntax, m.start + d, m.end + d);
    var tail := Scan(pattern, t, m.end);
    assert Scan(pattern, s, d + k) == [m'] + ShiftedAll(tail, d) by {
      ScanUnfoldTo(pattern, s, d + k, m', ShiftedAll(tail, d));
    }
    assert Scan(pattern, t, k) == [m] + tail by { ScanUnfold(pattern, t, k, m); }
    ShiftedAllCons(m, tail, d);
  }

  lemma {:induction false} ImportsOfShifted(ms: seq<Match>, d: nat)
    ensures ImportsOf(ShiftedAll(ms, d)) == ImportsOf(ms)
  {
    if ms != [] {
      ImportsOfShifted(ms[1..], d);
      assert ShiftedAll(ms, d)[1..] == ShiftedAll(ms[1..], d);
    }
  }

  lemma ImportsAfterLine(pattern: Pattern, p: string, t: string)
    requires Advances(pattern)
    requires p != [] && IsLineTerminator(p[|p| - 1])
    ensures ImportsOf(Scan(pattern, p + t, |p|)) == ImportsOf(Scan(pattern, t, 0))
  {
    ScanAfterLine(pattern, p, t, 0);
    ImportsOfShifted(Scan(pattern, t, 0), |p|);
  }

  predicate NoLineTerminator(line: string) {
    forall j :: 0 <= j < |line| ==> !IsLineTerminator(line[j])
  }

  /** A first line the pattern does not match gives no record. */
  lemma ScanSkipLine(pattern: Pattern, s: string, line: string, rest: string)
    requires Advances(pattern)
    requires s == line + "\n" + rest && NoLineTerminator(line)
    requires pattern(s).None?
    ensures ImportsOf(Scan(pattern, s, 0)) == ImportsOf(Scan(pattern, rest, 0))
  {
    var p := line + "\n";
    assert s == p + rest;
    assert s[0..] == s;
    forall q | 0 < q <= |line| ensures !LineStart(s, q) {
      assert s[q - 1] == line[q - 1];
    }
    ExecSkips(pattern, s, 0, |p|);
    assert Scan(pattern, s, 0) == Scan(pattern, s, |p|);
    ImportsAfterLine(pattern, p, rest);
  }

  /**
   * A first declaration the pattern matches up to a line feed gives its
   * record, then the records of the rest. The declaration may itself span
   * several lines; it only must not end with a line terminator.
   */
  lemma ScanTakeLine(pattern: Pattern, s: string, line: string, rest: string, x: ImportSyntax)
    requires Advances(pattern)
    requires s == line + "\n" + rest && (line == [] || !IsLineTerminator(line[|line| - 1]))
    requires pattern(s) == Some((x, |line|))
    ensures ImportsOf(Scan(pattern, s, 0)) == [ToImport(x)] + ImportsOf(Scan(pattern, rest, 0))
  {
    var p := line + "\n";
    assert s == p + rest;
    assert s[0..] == s;
    assert Exec(pattern, s, 0) == Some(Match(x, 0, |line|));
    assert !LineStart(s, |line|) by {
      assert s[|line| - 1] == line[|line| - 1];
    }
    ExecSkips(pattern, s, |line|, |p|);
    assert Scan(pattern, s, |line|) == Scan(pattern, s, |p|);
    ImportsOfScanStep(pattern, s, 0, Match(x, 0, |line|));
    ImportsAfterLine(pattern, p, rest);
  }

  /**
   * A declaration read up to a line feed: the records of the whole text are
   * its record, then the records of what follows the line feed.
   */
  lemma ImportsTakeLine(s: string, line: string, rest: string, x: ImportSyntax)
    requires s == line + "\n" + rest && (line == [] || !IsLineTerminator(line[|line| - 1]))
    requires MatchImport(s) == Some((x, |line|))
    ensures Imports(s) == [ToImport(x)] + Imports(rest)
  {
    MatchImportAdvances();
    ScanTakeLine(MatchImport, s, line, rest, x);
  }
}
