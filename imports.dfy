/**
 * Import parsing (`parseImports`). The program runs the global, multi-line
 * regular expression
 *   ^import\s+(\w+)(?:\s+as\s+(\w+))?(?:\s+exposing\s+\(((?:[\w\.]+(?:,\s*)?)+)\))?$
 * with `exec` until it fails, and pushes one record per match. The pattern
 * is modelled here as an explicit recognizer that makes the same choices as
 * the backtracking engine, and `exec` as a search for the first line start,
 * at or after the current `lastIndex`, where the recognizer succeeds.
 * Because `\s` also matches line terminators, a match may span several lines.
 */
module ImportParser {
  import opened Options
  import opened Text
  import opened Seqs

  /** The capture groups of one match: the module name, the alias and the exposing list, if present. */
  datatype ImportSyntax = ImportSyntax(moduleName: string, alias: Option<string>, exposing: Option<string>)

  /** The record pushed for one match; `exposed == None` stands for `null`. */
  datatype Import = Import(moduleName: string, alias: string, exposed: Option<seq<string>>)

  /** One match: its capture groups, the index where it starts and the index just after it. */
  datatype Match = Match(syntax: ImportSyntax, start: nat, end: nat)

  /** `[\w\.]`, the characters of one exposed entry. */
  predicate IsEntryChar(c: char) {
    IsWordChar(c) || c == '.'
  }

  /** The longest run of characters satisfying `p` from index `k`: where a greedy `p+` or `p*` stops. */
  function Span(t: string, k: nat, p: char -> bool): (r: nat)
    requires k <= |t|
    ensures k <= r <= |t|
    ensures forall j {:trigger p(t[j])} :: k <= j < r ==> p(t[j])
    ensures r == |t| || !p(t[r])
    decreases |t| - k
  {
    if k < |t| && p(t[k]) then Span(t, k + 1, p) else k
  }

  /** A run is determined by where it ends. */
  lemma SpanIs(t: string, k: nat, p: char -> bool, r: nat)
    requires k <= r <= |t|
    requires forall j {:trigger p(t[j])} :: k <= j < r ==> p(t[j])
    requires r == |t| || !p(t[r])
    ensures Span(t, k, p) == r
  {
  }

  /** The literal `w` occurs in `t` at index `k`. */
  predicate HasAt(t: string, k: nat, w: string) {
    k + |w| <= |t| && t[k..k + |w|] == w
  }

  /** `$` under the `m` flag: the end of the input or just before a line terminator. */
  predicate AtLineEnd(t: string, k: nat) {
    k == |t| || (k < |t| && IsLineTerminator(t[k]))
  }

  /**
   * Which character may follow which inside `(?:[\w\.]+(?:,\s*)?)+`: an
   * entry character may follow anything, a comma only an entry character,
   * white space only a comma or white space.
   */
  predicate ListStep(prev: char, c: char) {
    if IsEntryChar(c) then true
    else if c == ',' then IsEntryChar(prev)
    else if IsSpace(c) then prev == ',' || IsSpace(prev)
    else false
  }

  /** The character at index `j` may follow the one before it. */
  predicate StepAt(t: string, j: nat) {
    0 < j < |t| && ListStep(t[j - 1], t[j])
  }

  /** `t[k..r]` is a text `(?:[\w\.]+(?:,\s*)?)+` matches. */
  predicate ListBetween(t: string, k: nat, r: nat) {
    k < r <= |t| && IsEntryChar(t[k]) && forall j :: k < j < r ==> StepAt(t, j)
  }

  /** The language of the third capture group, the exposing list. */
  predicate IsExposingList(e: string) {
    ListBetween(e, 0, |e|)
  }

  lemma ListBetweenSlice(t: string, k: nat, r: nat)
    requires ListBetween(t, k, r)
    ensures IsExposingList(t[k..r])
  {
    var e := t[k..r];
    forall j | 0 < j < |e| ensures StepAt(e, j) {
      assert StepAt(t, k + j);
      assert e[j - 1] == t[k + j - 1] && e[j] == t[k + j];
    }
  }

  /**
   * Where the greedy `(?:[\w\.]+(?:,\s*)?)+` stops when started at `k`
   * (`k` itself when no entry starts there): the longest prefix of `t[k..]`
   * in the language. Since no character of the language is `)`, the engine
   * never has a shorter alternative that the closing `\)` could accept.
   */
  function ListEnd(t: string, k: nat): (r: nat)
    requires k <= |t|
    ensures k <= r <= |t|
    ensures r > k <==> k < |t| && IsEntryChar(t[k])
    ensures r > k ==> ListBetween(t, k, r) && (r == |t| || !StepAt(t, r))
    decreases |t| - k
  {
    var w := Span(t, k, IsEntryChar);
    if w == k then k
    else if w < |t| && t[w] == ',' then
      var c := Span(t, w + 1, IsSpace);
      var r := ListEnd(t, c);
      ListAfterComma(t, k, w, c, r);
      r
    else
      EntryRun(t, k, w);
      w
  }

  /** One character of a run, as the run's postcondition states it. */
  lemma SpanAt(t: string, k: nat, p: char -> bool, j: nat)
    requires k <= |t| && k <= j < Span(t, k, p)
    ensures p(t[j])
  {
  }

  /** A run of entry characters not followed by a comma is a whole list. */
  lemma EntryRun(t: string, k: nat, w: nat)
    requires k <= |t| && k < w == Span(t, k, IsEntryChar)
    requires w == |t| || t[w] != ','
    ensures ListBetween(t, k, w) && (w == |t| || !StepAt(t, w))
  {
    SpanAt(t, k, IsEntryChar, k);
    forall j | k < j < w ensures StepAt(t, j) {
      SpanAt(t, k, IsEntryChar, j);
    }
    if w < |t| {
      SpanAt(t, k, IsEntryChar, w - 1);
      assert !IsEntryChar(t[w]);
    }
  }

  /** An entry, a comma, white space and what the list continues with form one list. */
  lemma ListAfterComma(t: string, k: nat, w: nat, c: nat, r: nat)
    requires k <= |t| && k < w == Span(t, k, IsEntryChar) && w < |t| && t[w] == ','
    requires c == Span(t, w + 1, IsSpace) && c <= r <= |t|
    requires r > c <==> c < |t| && IsEntryChar(t[c])
    requires r > c ==> ListBetween(t, c, r) && (r == |t| || !StepAt(t, r))
    ensures ListBetween(t, k, r) && (r == |t| || !StepAt(t, r))
  {
    SpanAt(t, k, IsEntryChar, k);
    forall j | k < j < r ensures StepAt(t, j) {
      if j < w {
        SpanAt(t, k, IsEntryChar, j);
      } else if j == w {
        SpanAt(t, k, IsEntryChar, j - 1);
      } else if j < c {
        SpanAt(t, w + 1, IsSpace, j);
        if j > w + 1 {
          SpanAt(t, w + 1, IsSpace, j - 1);
        }
      } else if j == c {
        assert IsEntryChar(t[j]);
      } else {
        assert StepAt(t, j);
      }
    }
    if r == c && r < |t| {
      assert !IsEntryChar(t[r]) && !IsSpace(t[r]);
      if r > w + 1 {
        SpanAt(t, w + 1, IsSpace, r - 1);
      }
    }
  }

  /** `\s+as\s+(\w+)` tried at index `k`: the alias and the index after it. */
  function AsClause(t: string, k: nat): (r: Option<(string, nat)>)
    requires k <= |t|
    ensures r.Some? ==> k < r.value.1 <= |t| && IsWord(r.value.0)
  {
    var a := Span(t, k, IsSpace);
    if a == k || !HasAt(t, a, "as") then None
    else
      var b := Span(t, a + 2, IsSpace);
      if b == a + 2 then None
      else
        var c := Span(t, b, IsWordChar);
        if c == b then None else Some((t[b..c], c))
  }

  /** `\s+exposing\s+\((...)\)` tried at index `k`: the exposing list and the index after `)`. */
  function ExposingClause(t: string, k: nat): (r: Option<(string, nat)>)
    requires k <= |t|
    ensures r.Some? ==> k < r.value.1 <= |t| && IsExposingList(r.value.0)
  {
    var a := Span(t, k, IsSpace);
    if a == k || !HasAt(t, a, "exposing") then None
    else ParenthesisedList(t, a + 8)
  }

  /** `\s+\((...)\)` tried at index `j`, after the keyword `exposing`: the list and the index after `)`. */
  function ParenthesisedList(t: string, j: nat): (r: Option<(string, nat)>)
    requires j <= |t|
    ensures r.Some? ==> j < r.value.1 <= |t| && IsExposingList(r.value.0)
  {
    var b := Span(t, j, IsSpace);
    if b == j || b == |t| || t[b] != '(' then None
    else
      var e := ListEnd(t, b + 1);
      if e == b + 1 || e == |t| || t[e] != ')' then None
      else
        ListBetweenSlice(t, b + 1, e);
        Some((t[b + 1..e], e + 1))
  }

  /**
   * `(?:\s+exposing\s+\((...)\))?$` at index `k`, after the module name and
   * alias have been taken: the exposing clause if the line can end after
   * it, otherwise no exposing clause if the line ends at `k`.
   */
  function Remainder(t: string, k: nat, moduleName: string, alias: Option<string>): (r: Option<(ImportSyntax, nat)>)
    requires k <= |t|
    ensures r.Some? ==> k <= r.value.1 <= |t| && AtLineEnd(t, r.value.1)
    ensures r.Some? ==> r.value.0.moduleName == moduleName && r.value.0.alias == alias
    ensures r.Some? && r.value.0.exposing.Some? ==> IsExposingList(r.value.0.exposing.value)
  {
    var ex := ExposingClause(t, k);
    if ex.Some? && AtLineEnd(t, ex.value.1) then Some((ImportSyntax(moduleName, alias, Some(ex.value.0)), ex.value.1))
    else if AtLineEnd(t, k) then Some((ImportSyntax(moduleName, alias, None), k))
    else None
  }

  /** The syntax the pattern can capture: word names and an exposing list in the list language. */
  predicate WellFormed(x: ImportSyntax) {
    IsWord(x.moduleName)
    && (x.alias.Some? ==> IsWord(x.alias.value))
    && (x.exposing.Some? ==> IsExposingList(x.exposing.value))
  }

  /**
   * The pattern anchored at the start of `t`: the capture groups and the
   * length of the match. The optional `as` clause is tried first; only if
   * nothing after it lets the line end does the engine retry without it.
   */
  function MatchImport(t: string): (r: Option<(ImportSyntax, nat)>)
    ensures r.Some? ==> HasAt(t, 0, "import") && 6 < r.value.1 <= |t| && AtLineEnd(t, r.value.1)
    ensures r.Some? ==> WellFormed(r.value.0)
  {
    if !HasAt(t, 0, "import") then None
    else
      var k := Span(t, 6, IsSpace);
      if k == 6 then None
      else
        var m := Span(t, k, IsWordChar);
        if m == k then None
        else
          AfterName(t, m, t[k..m])
  }

  /**
   * `(?:\s+as\s+(\w+))?(?:...)?$` at index `m`, just after the module name:
   * with the `as` clause if the rest of the pattern then matches, else
   * without it.
   */
  function AfterName(t: string, m: nat, moduleName: string): (r: Option<(ImportSyntax, nat)>)
    requires m <= |t|
    ensures r.Some? ==> m <= r.value.1 <= |t| && AtLineEnd(t, r.value.1) && r.value.0.moduleName == moduleName
    ensures r.Some? && r.value.0.alias.Some? ==> IsWord(r.value.0.alias.value)
    ensures r.Some? && r.value.0.exposing.Some? ==> IsExposingList(r.value.0.exposing.value)
  {
    var asClause := AsClause(t, m);
    var withAlias := if asClause.Some? then Remainder(t, asClause.value.1, moduleName, Some(asClause.value.0)) else None;
    if withAlias.Some? then withAlias else Remainder(t, m, moduleName, None)
  }

  /** `MatchImport` as a value: the anchored pattern that `exec` tries at each position. */
  type Pattern = string -> Option<(ImportSyntax, nat)>

  /** Every match of the pattern is non-empty and lies within the text, so `lastIndex` advances. */
  ghost predicate Advances(pattern: Pattern) {
    forall t :: pattern(t).Some? ==> 0 < pattern(t).value.1 <= |t|
  }

  lemma MatchImportAdvances()
    ensures Advances(MatchImport)
  {
  }

  /** `^` under the `m` flag: the start of the input or just after a line terminator. */
  predicate LineStart(s: string, i: nat) {
    i == 0 || (0 < i <= |s| && IsLineTerminator(s[i - 1]))
  }

  /** `m` is a match of `pattern` in `s`: it starts at a line start and the pattern matches there up to `m.end`. */
  ghost predicate IsMatchAt(pattern: Pattern, s: string, m: Match) {
    m.start < m.end <= |s| && LineStart(s, m.start)
    && pattern(s[m.start..]) == Some((m.syntax, m.end - m.start))
  }

  /**
   * `regex.exec(s)` with `regex.lastIndex == from`: the leftmost match that
   * starts at or after `from`.
   */
  function Exec(pattern: Pattern, s: string, from: nat): (r: Option<Match>)
    requires Advances(pattern)
    ensures r.Some? ==> from <= r.value.start && IsMatchAt(pattern, s, r.value)
    decreases |s| + 1 - from
  {
    if from > |s| then None
    else if LineStart(s, from) && pattern(s[from..]).Some? then
      var found := pattern(s[from..]).value;
      Some(Match(found.0, from, from + found.1))
    else Exec(pattern, s, from + 1)
  }

  /** All matches from `lastIndex == from` on, as the `while` loop of `parseImports` meets them. */
  function Scan(pattern: Pattern, s: string, from: nat): seq<Match>
    requires Advances(pattern)
    decreases |s| + 1 - from
  {
    match Exec(pattern, s, from)
    case None => []
    case Some(m) => [m] + Scan(pattern, s, m.end)
  }

  /**
   * The record for one match: the alias defaults to the module name, and
   * the exposing list is split at commas and every piece trimmed.
   */
  function ToImport(x: ImportSyntax): Import {
    Import(
      x.moduleName,
      if x.alias.Some? then x.alias.value else x.moduleName,
      if x.exposing.Some? then Some(Map(Split(x.exposing.value, ','), Trim)) else None)
  }

  function ImportsOf(ms: seq<Match>): seq<Import> {
    if ms == [] then [] else [ToImport(ms[0].syntax)] + ImportsOf(ms[1..])
  }

  /** One turn of the `while` loop of `parseImports`: the match found contributes its record ahead of the rest. */
  lemma ImportsOfScanStep(pattern: Pattern, s: string, from: nat, m: Match)
    requires Advances(pattern)
    requires Exec(pattern, s, from) == Some(m)
    ensures ImportsOf(Scan(pattern, s, from)) == [ToImport(m.syntax)] + ImportsOf(Scan(pattern, s, m.end))
  {
    var rest := Scan(pattern, s, m.end);
    assert Scan(pattern, s, from) == [m] + rest;
    assert ([m] + rest)[1..] == rest;
  }

  /** The value `parseImports(code)` returns. */
  function Imports(code: string): seq<Import> {
    MatchImportAdvances();
    ImportsOf(Scan(MatchImport, code, 0))
  }

  /**
   * The `while` loop of `parseImports` for a given pattern: run `exec` from
   * `lastIndex` 0 until it fails, pushing one record per match.
   */
  method CollectImports(pattern: Pattern, code: string) returns (imports: seq<Import>)
    requires Advances(pattern)
    ensures imports == ImportsOf(Scan(pattern, code, 0))
  {
    imports := [];
    var lastIndex := 0;
    var found := Exec(pattern, code, lastIndex);
    while found.Some?
      invariant found == Exec(pattern, code, lastIndex)
      invariant imports + ImportsOf(Scan(pattern, code, lastIndex)) == ImportsOf(Scan(pattern, code, 0))
      decreases |code| + 1 - lastIndex
    {
      var m := found.value;
      ImportsOfScanStep(pattern, code, lastIndex, m);
      imports := imports + [ToImport(m.syntax)];
      lastIndex := m.end;
      found := Exec(pattern, code, lastIndex);
    }
  }

  /** `parseImports`: the loop above with the import pattern. */
  method ParseImports(code: string) returns (imports: seq<Import>)
    ensures imports == Imports(code)
  {
    MatchImportAdvances();
    imports := CollectImports(MatchImport, code);
  }
}
