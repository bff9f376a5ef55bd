/**
 * Import declarations as they are written, with any white space where the
 * pattern wants some, and what the import parser reads back from them: the
 * declaration's capture groups, and the record pushed for it.
 */
module Declarations {
  import opened Options
  import opened Text
  import opened Seqs
  import opened ImportParser
  import opened ImportParserProofs

  /** A non-empty run of white space, line terminators included: a text `\s+` matches. */
  predicate IsBlank(s: string) {
    s != [] && SpaceBetween(s, 0, |s|)
  }

  /**
   * The white space a declaration is written with: after `import`, around
   * `as` and around `exposing`. Since `\s` matches line terminators, each
   * may break the declaration over several lines.
   */
  datatype Layout = Layout(
    afterImport: string,
    beforeAs: string,
    afterAs: string,
    beforeExposing: string,
    afterExposing: string)

  predicate LayoutOk(lay: Layout) {
    IsBlank(lay.afterImport) && IsBlank(lay.beforeAs) && IsBlank(lay.afterAs)
    && IsBlank(lay.beforeExposing) && IsBlank(lay.afterExposing)
  }

  /** One blank wherever the pattern wants white space. */
  const SingleBlanks := Layout(" ", " ", " ", " ", " ")

  /** The text of a declaration written with the white space of `lay`. */
  function RenderIn(x: ImportSyntax, lay: Layout): string {
    "import" + (lay.afterImport + (x.moduleName + (AliasPart(x, lay) + ExposingPart(x, lay))))
  }

  function AliasPart(x: ImportSyntax, lay: Layout): string {
    if x.alias.Some? then lay.beforeAs + ("as" + (lay.afterAs + x.alias.value)) else ""
  }

  function ExposingPart(x: ImportSyntax, lay: Layout): string {
    if x.exposing.Some? then lay.beforeExposing + ("exposing" + (lay.afterExposing + ("(" + (x.exposing.value + ")")))) else ""
  }

  /** The canonical text of a declaration, on one line with single blanks. */
  function Render(x: ImportSyntax): string {
    RenderIn(x, SingleBlanks)
  }

  /** `\s+` over a blank run stops where the run ends, if no white space follows it. */
  lemma BlankAt(t: string, k: nat, s: string, more: string)
    requires k <= |t| && t[k..] == s + more && IsBlank(s)
    requires more == [] || !IsSpace(more[0])
    ensures Span(t, k, IsSpace) == k + |s| && t[k + |s|..] == more
  {
    forall j | k <= j < k + |s| ensures IsSpace(t[j]) {
      assert t[j] == (s + more)[j - k] == s[j - k];
    }
    if more != [] {
      assert t[k + |s|] == (s + more)[|s|];
    }
    SpanIs(t, k, IsSpace, k + |s|);
    assert t[k + |s|..] == (s + more)[|s|..];
  }

  /** `\w+` over a word stops where the word ends, if no word character follows it. */
  lemma WordAt(t: string, k: nat, w: string, more: string)
    requires k <= |t| && t[k..] == w + more && IsWord(w)
    requires more == [] || !IsWordChar(more[0])
    ensures Span(t, k, IsWordChar) == k + |w| && t[k..k + |w|] == w && t[k + |w|..] == more
  {
    forall j | k <= j < k + |w| ensures IsWordChar(t[j]) {
      assert t[j] == (w + more)[j - k] == w[j - k];
    }
    if more != [] {
      assert t[k + |w|] == (w + more)[|w|];
    }
    SpanIs(t, k, IsWordChar, k + |w|);
    assert t[k..k + |w|] == (w + more)[..|w|];
    assert t[k + |w|..] == (w + more)[|w|..];
  }

  /*
   * The round trip below is proved in three layers, so that no single proof
   * has to look at the written text and at the recognizer at once: pieces
   * written at known indices give where each run of the pattern ends, and
   * those ends give what each part of the recognizer returns.
   */

  /** No character is both white space and a word character. */
  lemma SpaceIsNotWord(c: char)
    ensures IsSpace(c) ==> !IsWordChar(c)
  {
  }

  /** The first character of a piece written at `k`. */
  lemma FirstAt(t: string, k: nat, w: string)
    requires HasAt(t, k, w) && w != []
    ensures t[k] == w[0]
  {
    assert t[k] == t[k..k + |w|][0];
  }

  /** `\s+` over a blank run written at `k` stops where the run ends, if no white space follows it. */
  lemma BlankRun(t: string, k: nat, s: string)
    requires HasAt(t, k, s) && IsBlank(s)
    requires k + |s| == |t| || !IsSpace(t[k + |s|])
    ensures Span(t, k, IsSpace) == k + |s|
  {
    forall j | k <= j < k + |s| ensures IsSpace(t[j]) {
      assert t[j] == t[k..k + |s|][j - k];
    }
    SpanIs(t, k, IsSpace, k + |s|);
  }

  /** `\s+` over a blank run stops at the piece written after it, if that starts with no white space. */
  lemma BlankBefore(t: string, k: nat, s: string, w: string)
    requires HasAt(t, k, s) && IsBlank(s) && HasAt(t, k + |s|, w) && w != [] && !IsSpace(w[0])
    ensures Span(t, k, IsSpace) == k + |s|
  {
    FirstAt(t, k + |s|, w);
    BlankRun(t, k, s);
  }

  /** `\w+` over a word written at `k` stops where the word ends, if no word character follows it. */
  lemma WordRun(t: string, k: nat, w: string)
    requires HasAt(t, k, w) && IsWord(w)
    requires k + |w| == |t| || !IsWordChar(t[k + |w|])
    ensures Span(t, k, IsWordChar) == k + |w|
  {
    forall j | k <= j < k + |w| ensures IsWordChar(t[j]) {
      assert t[j] == t[k..k + |w|][j - k];
    }
    SpanIs(t, k, IsWordChar, k + |w|);
  }

  /** A parenthesised list written at `b`: where the list language stops and what it covers. */
  lemma ListInParentheses(t: string, b: nat, list: string)
    requires HasAt(t, b, "(" + (list + ")")) && IsExposingList(list)
    ensures var e := b + 1 + |list|;
      e < |t| && t[b] == '(' && t[e] == ')' && ListEnd(t, b + 1) == e && t[b + 1..e] == list
  {
    var e := b + 1 + |list|;
    FirstAt(t, b, "(" + (list + ")"));
    HasAtSplit(t, b, "(", list + ")");
    HasAtSplit(t, b + 1, list, ")");
    FirstAt(t, e, ")");
    assert StopsList(t[e]);
    ListEndAt(t, b + 1, list);
  }

  /** `\s+as\s+(\w+)` read off the ends of its three runs. */
  lemma AsClauseSpans(t: string, k: nat, a: nat, b: nat, c: nat, alias: string)
    requires k < a && a + 2 < b < c <= |t| && HasAt(t, a, "as") && t[b..c] == alias
    requires Span(t, k, IsSpace) == a && Span(t, a + 2, IsSpace) == b && Span(t, b, IsWordChar) == c
    ensures AsClause(t, k) == Some((alias, c))
  {
  }

  /** `\s+as` cannot start where the first non-blank character is the `e` of `exposing`. */
  lemma NoAsClauseBefore(t: string, k: nat, a: nat)
    requires k <= a < |t| && Span(t, k, IsSpace) == a && t[a] == 'e'
    ensures AsClause(t, k) == None
  {
    assert !HasAt(t, a, "as") by {
      if a + 2 <= |t| {
        assert t[a..a + 2][0] == 'e';
      }
    }
  }

  /** `\s+exposing` read off the end of the blank run before the keyword. */
  lemma ExposingClauseOpens(t: string, k: nat, a: nat, list: string, e: nat)
    requires k < a && HasAt(t, a, "exposing") && Span(t, k, IsSpace) == a
    requires ParenthesisedList(t, a + 8) == Some((list, e))
    ensures ExposingClause(t, k) == Some((list, e))
  {
  }

  /** `\s+\((...)\)` read off the ends of the blank run and of the list. */
  lemma ParenthesisedListSpans(t: string, j: nat, b: nat, e: nat)
    requires j < b && b + 1 < e < |t|
    requires Span(t, j, IsSpace) == b
    requires t[b] == '(' && ListEnd(t, b + 1) == e && t[e] == ')'
    ensures ParenthesisedList(t, j) == Some((t[b + 1..e], e + 1))
  {
  }

  /** Without an exposing clause, the remainder matches exactly where the line ends. */
  lemma RemainderAtLineEnd(t: string, c: nat, x: ImportSyntax)
    requires c <= |t| && x.exposing.None? && ExposingClause(t, c) == None && AtLineEnd(t, c)
    ensures Remainder(t, c, x.moduleName, x.alias) == Some((x, c))
  {
  }

  /** After the module name, an `as` clause whose remainder matches gives the whole match. */
  lemma AfterNameWithAlias(t: string, m: nat, x: ImportSyntax, c: nat, end: nat)
    requires m <= |t| && x.alias.Some? && AsClause(t, m) == Some((x.alias.value, c))
    requires Remainder(t, c, x.moduleName, x.alias) == Some((x, end))
    ensures AfterName(t, m, x.moduleName) == Some((x, end))
  {
  }

  /** After the module name, no `as` clause: the remainder is tried at once. */
  lemma AfterNameWithoutAlias(t: string, m: nat, x: ImportSyntax, end: nat)
    requires m <= |t| && x.alias.None? && AsClause(t, m) == None
    requires Remainder(t, m, x.moduleName, None) == Some((x, end))
    ensures AfterName(t, m, x.moduleName) == Some((x, end))
  {
  }

  /** `^import\s+(\w+)` read off the ends of its runs, followed by what comes after the name. */
  lemma MatchFromName(t: string, k: nat, m: nat, x: ImportSyntax, end: nat)
    requires HasAt(t, 0, "import") && 6 < k < m <= |t|
    requires Span(t, 6, IsSpace) == k && Span(t, k, IsWordChar) == m && t[k..m] == x.moduleName
    requires AfterName(t, m, x.moduleName) == Some((x, end))
    ensures MatchImport(t) == Some((x, end))
  {
  }

  /** The white space around `exposing` is blank and the list is in the list language. */
  predicate ExposingOk(x: ImportSyntax, lay: Layout) {
    x.exposing.Some? ==>
      IsBlank(lay.beforeExposing) && IsBlank(lay.afterExposing) && IsExposingList(x.exposing.value)
  }

  /** An exposing clause written piece by piece from `c` is read as its list, up to just after `)`. */
  lemma ExposingRead(t: string, c: nat, before: string, after: string, list: string)
    requires var d := c + |before|;
      HasAt(t, c, before) && HasAt(t, d, "exposing") && HasAt(t, d + 8, after)
      && HasAt(t, d + 8 + |after|, "(" + (list + ")"))
    requires IsBlank(before) && IsBlank(after) && IsExposingList(list)
    ensures ExposingClause(t, c) == Some((list, c + |before| + 10 + |after| + |list|))
  {
    var d := c + |before|;
    ParenthesisedRead(t, d + 8, after, list);
    BlankBefore(t, c, before, "exposing");
    ExposingClauseOpens(t, c, d, list, c + |before| + 10 + |after| + |list|);
  }

  /** A parenthesised list written after a blank run from `j` is read as that list, up to just after `)`. */
  lemma ParenthesisedRead(t: string, j: nat, before: string, list: string)
    requires HasAt(t, j, before) && IsBlank(before) && HasAt(t, j + |before|, "(" + (list + ")"))
    requires IsExposingList(list)
    ensures ParenthesisedList(t, j) == Some((list, j + |before| + 2 + |list|))
  {
    var b := j + |before|;
    BlankBefore(t, j, before, "(" + (list + ")"));
    ListInParentheses(t, b, list);
    ParenthesisedListSpans(t, j, b, b + 1 + |list|);
  }

  /** The pieces of a written exposing clause, at the indices where each starts. */
  lemma ExposingPieces(t: string, c: nat, before: string, after: string, list: string)
    requires HasAt(t, c, before + ("exposing" + (after + ("(" + (list + ")")))))
    ensures var d := c + |before|;
      HasAt(t, c, before) && HasAt(t, d, "exposing") && HasAt(t, d + 8, after)
      && HasAt(t, d + 8 + |after|, "(" + (list + ")"))
  {
    var d := c + |before|;
    HasAtSplit(t, c, before, "exposing" + (after + ("(" + (list + ")"))));
    HasAtSplit(t, d, "exposing", after + ("(" + (list + ")")));
    HasAtSplit(t, d + 8, after, "(" + (list + ")"));
  }

  /** A written exposing clause is read as its list, up to just after `)`. */
  lemma ExposingWritten(t: string, c: nat, x: ImportSyntax, lay: Layout)
    requires x.exposing.Some? && HasAt(t, c, ExposingPart(x, lay)) && ExposingOk(x, lay)
    ensures ExposingClause(t, c) == Some((x.exposing.value, c + |ExposingPart(x, lay)|))
  {
    var list := x.exposing.value;
    assert c + |ExposingPart(x, lay)| == c + |lay.beforeExposing| + 10 + |lay.afterExposing| + |list|;
    ExposingPieces(t, c, lay.beforeExposing, lay.afterExposing, list);
    ExposingRead(t, c, lay.beforeExposing, lay.afterExposing, list);
  }

  /** What follows the alias, written out, is read as the exposing clause, if any, up to the line end. */
  lemma RemainderWritten(t: string, c: nat, x: ImportSyntax, lay: Layout, end: nat)
    requires HasAt(t, c, ExposingPart(x, lay)) && end == c + |ExposingPart(x, lay)|
    requires ExposingOk(x, lay) && AtLineEnd(t, end)
    requires x.exposing.None? ==> !ClauseAhead(t[end..])
    ensures Remainder(t, c, x.moduleName, x.alias) == Some((x, end))
  {
    if x.exposing.Some? {
      ExposingWritten(t, c, x, lay);
      RemainderFromClause(t, c, x, end);
    } else {
      NoClauseAt(t, c);
      RemainderAtLineEnd(t, c, x);
    }
  }

  /** An `as` clause written piece by piece from `m` is read as its alias, if no word character follows it. */
  lemma AliasRead(t: string, m: nat, before: string, after: string, alias: string)
    requires var a := m + |before|;
      HasAt(t, m, before) && HasAt(t, a, "as") && HasAt(t, a + 2, after) && HasAt(t, a + 2 + |after|, alias)
    requires IsBlank(before) && IsBlank(after) && IsWord(alias)
    requires var c := m + |before| + 2 + |after| + |alias|; c == |t| || !IsWordChar(t[c])
    ensures AsClause(t, m) == Some((alias, m + |before| + 2 + |after| + |alias|))
  {
    var a := m + |before|;
    var b := a + 2 + |after|;
    BlankBefore(t, m, before, "as");
    BlankBefore(t, a + 2, after, alias);
    WordRun(t, b, alias);
    AsClauseSpans(t, m, a, b, b + |alias|, alias);
  }

  /** The pieces of a written `as` clause, at the indices where each starts. */
  lemma AliasPieces(t: string, m: nat, before: string, after: string, alias: string)
    requires HasAt(t, m, before + ("as" + (after + alias)))
    ensures var a := m + |before|;
      HasAt(t, m, before) && HasAt(t, a, "as") && HasAt(t, a + 2, after) && HasAt(t, a + 2 + |after|, alias)
  {
    var a := m + |before|;
    HasAtSplit(t, m, before, "as" + (after + alias));
    HasAtSplit(t, a, "as", after + alias);
    HasAtSplit(t, a + 2, after, alias);
  }

  /** A written `as` clause is read as its alias, if no word character follows it. */
  lemma AliasWritten(t: string, m: nat, x: ImportSyntax, lay: Layout)
    requires x.alias.Some? && HasAt(t, m, AliasPart(x, lay))
    requires IsBlank(lay.beforeAs) && IsBlank(lay.afterAs) && IsWord(x.alias.value)
    requires var c := m + |AliasPart(x, lay)|; c == |t| || !IsWordChar(t[c])
    ensures AsClause(t, m) == Some((x.alias.value, m + |AliasPart(x, lay)|))
  {
    var alias := x.alias.value;
    assert m + |AliasPart(x, lay)| == m + |lay.beforeAs| + 2 + |lay.afterAs| + |alias|;
    AliasPieces(t, m, lay.beforeAs, lay.afterAs, alias);
    AliasRead(t, m, lay.beforeAs, lay.afterAs, alias);
  }

  /** What follows the module name, when written out, starts with white space. */
  lemma TailStart(x: ImportSyntax, lay: Layout)
    requires LayoutOk(lay)
    ensures var tail := AliasPart(x, lay) + ExposingPart(x, lay);
      tail == [] || IsSpace(tail[0])
    ensures var tail := ExposingPart(x, lay);
      tail == [] || IsSpace(tail[0])
  {
    if x.alias.Some? {
      assert (AliasPart(x, lay) + ExposingPart(x, lay))[0] == lay.beforeAs[0];
    } else {
      assert AliasPart(x, lay) + ExposingPart(x, lay) == ExposingPart(x, lay);
    }
  }

  /** After the module name: the written alias, if any, then the written exposing clause, if any. */
  lemma AfterNameWritten(t: string, m: nat, x: ImportSyntax, lay: Layout, end: nat)
    requires HasAt(t, m, AliasPart(x, lay) + ExposingPart(x, lay))
    requires end == m + |AliasPart(x, lay)| + |ExposingPart(x, lay)|
    requires WellFormed(x) && LayoutOk(lay) && AtLineEnd(t, end)
    requires x.exposing.None? ==> !ClauseAhead(t[end..])
    ensures AfterName(t, m, x.moduleName) == Some((x, end))
  {
    var c := m + |AliasPart(x, lay)|;
    HasAtSplit(t, m, AliasPart(x, lay), ExposingPart(x, lay));
    TailStart(x, lay);
    assert ExposingOk(x, lay);
    if x.alias.Some? {
      assert c == |t| || !IsWordChar(t[c]) by {
        if c < end {
          FirstAt(t, c, ExposingPart(x, lay));
        }
      }
      AliasWritten(t, m, x, lay);
      RemainderWritten(t, c, x, lay, end);
      AfterNameWithAlias(t, m, x, c, end);
    } else {
      if x.exposing.Some? {
        var list := x.exposing.value;
        var more := "exposing" + (lay.afterExposing + ("(" + (list + ")")));
        HasAtSplit(t, m, lay.beforeExposing, more);
        BlankBefore(t, m, lay.beforeExposing, more);
        FirstAt(t, m + |lay.beforeExposing|, more);
        NoAsClauseBefore(t, m, m + |lay.beforeExposing|);
      } else {
        NoClauseAt(t, m);
      }
      RemainderWritten(t, m, x, lay, end);
      AfterNameWithoutAlias(t, m, x, end);
    }
  }

  /** `^import\s+(\w+)` over pieces written from the start: where the blank run and the name end. */
  lemma NameRead(t: string, blank: string, name: string)
    requires HasAt(t, 6, blank) && HasAt(t, 6 + |blank|, name)
    requires IsBlank(blank) && IsWord(name)
    requires var m := 6 + |blank| + |name|; m == |t| || IsSpace(t[m])
    ensures var k := 6 + |blank|;
      Span(t, 6, IsSpace) == k && Span(t, k, IsWordChar) == k + |name| && t[k..k + |name|] == name
  {
    var k := 6 + |blank|;
    assert k + |name| == |t| || !IsWordChar(t[k + |name|]) by {
      if k + |name| < |t| {
        SpaceIsNotWord(t[k + |name|]);
      }
    }
    WordRun(t, k, name);
    assert !IsSpace(name[0]) by {
      SpaceIsNotWord(name[0]);
    }
    BlankBefore(t, 6, blank, name);
  }

  /** The pieces of a written declaration up to what follows the module name. */
  lemma HeadPieces(t: string, blank: string, name: string, tail: string)
    requires HasAt(t, 0, "import" + (blank + (name + tail)))
    ensures HasAt(t, 0, "import") && HasAt(t, 6, blank) && HasAt(t, 6 + |blank|, name)
      && HasAt(t, 6 + |blank| + |name|, tail)
  {
    HasAtSplit(t, 0, "import", blank + (name + tail));
    HasAtSplit(t, 6, blank, name + tail);
    HasAtSplit(t, 6 + |blank|, name, tail);
  }

  /** A written declaration is read back as that declaration, up to the line end that follows it. */
  lemma MatchWritten(t: string, x: ImportSyntax, lay: Layout, end: nat)
    requires HasAt(t, 0, RenderIn(x, lay)) && end == |RenderIn(x, lay)|
    requires WellFormed(x) && LayoutOk(lay) && AtLineEnd(t, end)
    requires x.exposing.None? ==> !ClauseAhead(t[end..])
    ensures MatchImport(t) == Some((x, end))
  {
    var name := x.moduleName;
    var tail := AliasPart(x, lay) + ExposingPart(x, lay);
    var k := 6 + |lay.afterImport|;
    var m := k + |name|;
    HeadPieces(t, lay.afterImport, name, tail);
    TailStart(x, lay);
    assert m == |t| || IsSpace(t[m]) by {
      if m < end {
        FirstAt(t, m, tail);
      }
    }
    NameRead(t, lay.afterImport, name);
    AfterNameWritten(t, m, x, lay, end);
    MatchFromName(t, k, m, x, end);
  }

  /**
   * Round trip: the recognizer reads any declaration the pattern can
   * capture, written with any white space where the pattern wants some,
   * back as that declaration, up to the line end that follows it. When
   * there is no exposing list, the next line must not continue the
   * declaration with an `as` or `exposing` clause.
   */
  lemma MatchRenderIn(t: string, x: ImportSyntax, lay: Layout, rest: string)
    requires t == RenderIn(x, lay) + rest
    requires WellFormed(x) && LayoutOk(lay)
    requires rest == [] || IsLineTerminator(rest[0])
    requires x.exposing.None? ==> !ClauseAhead(rest)
    ensures MatchImport(t) == Some((x, |t| - |rest|))
  {
    var line := RenderIn(x, lay);
    assert HasAt(t, 0, line) by {
      assert t[..|line|] == line;
    }
    assert t[|line|..] == rest;
    if rest != [] {
      assert t[|line|] == rest[0];
    }
    MatchWritten(t, x, lay, |line|);
  }

  /** The canonical text of a declaration, on a line of its own, is read back as that declaration. */
  lemma MatchRender(t: string, x: ImportSyntax, rest: string)
    requires t == Render(x) + rest
    requires WellFormed(x)
    requires rest == [] || IsLineTerminator(rest[0])
    requires x.exposing.None? ==> !ClauseAhead(rest)
    ensures MatchImport(t) == Some((x, |t| - |rest|))
  {
    assert LayoutOk(SingleBlanks) by {
      assert IsBlank(" ") by { assert IsSpace(" "[0]); }
    }
    MatchRenderIn(t, x, SingleBlanks, rest);
  }

  /** A written declaration ends with `)`, the alias or the module name, never with a line end. */
  lemma RenderEnd(x: ImportSyntax, lay: Layout)
    requires WellFormed(x)
    ensures var line := RenderIn(x, lay);
      line != [] && !IsLineTerminator(line[|line| - 1])
  {
    var line := RenderIn(x, lay);
    var name := x.moduleName;
    var tail := AliasPart(x, lay) + ExposingPart(x, lay);
    assert line == "import" + lay.afterImport + name + tail;
    if x.exposing.Some? {
      var ep := ExposingPart(x, lay);
      assert line[|line| - 1] == ep[|ep| - 1] == ')';
    } else if x.alias.Some? {
      var alias := x.alias.value;
      assert tail == AliasPart(x, lay);
      assert line[|line| - 1] == alias[|alias| - 1];
    } else {
      assert tail == [];
      assert line[|line| - 1] == name[|name| - 1];
    }
  }

  /**
   * A declaration, however its white space spreads it over lines, followed
   * by a line feed and a file, gives its record and then the file's records.
   */
  lemma DeclarationThenFile(x: ImportSyntax, lay: Layout, file: string)
    requires WellFormed(x) && LayoutOk(lay)
    requires x.exposing.None? ==> !ClauseAhead("\n" + file)
    ensures Imports(RenderIn(x, lay) + "\n" + file) == [ToImport(x)] + Imports(file)
  {
    var line := RenderIn(x, lay);
    DeclarationMatched(x, lay, file);
    RenderEnd(x, lay);
    ImportsTakeLine(line + "\n" + file, line, file, x);
  }

  /** A declaration followed by a line feed and a file is read up to that line feed. */
  lemma DeclarationMatched(x: ImportSyntax, lay: Layout, file: string)
    requires WellFormed(x) && LayoutOk(lay)
    requires x.exposing.None? ==> !ClauseAhead("\n" + file)
    ensures MatchImport(RenderIn(x, lay) + "\n" + file) == Some((x, |RenderIn(x, lay)|))
  {
    var line := RenderIn(x, lay);
    var s := line + "\n" + file;
    assert s == line + ("\n" + file);
    MatchRenderIn(s, x, lay, "\n" + file);
  }

  /** A non-empty run of `[\w.]`: one entry of an exposing list. */
  predicate IsEntry(e: string) {
    e != [] && forall k :: 0 <= k < |e| ==> IsEntryChar(e[k])
  }

  /** The entries written out with a comma, then the given white space, between each two. */
  function Listed(entries: seq<string>, gaps: seq<string>): string
    requires |entries| == |gaps| + 1
    decreases |gaps|
  {
    if gaps == [] then entries[0]
    else entries[0] + "," + gaps[0] + Listed(entries[1..], gaps[1..])
  }

  /** The pieces `split(',')` cuts a written list into: each gap stays with the entry after it. */
  function Pieces(entries: seq<string>, gaps: seq<string>): (r: seq<string>)
    requires |entries| == |gaps| + 1
    ensures |r| == |entries|
  {
    [entries[0]] + seq(|gaps|, i requires 0 <= i < |gaps| => gaps[i] + entries[i + 1])
  }

  lemma {:induction false} JoinPieces(entries: seq<string>, gaps: seq<string>, p: string)
    requires |entries| == |gaps| + 1
    ensures Join([p + entries[0]] + Pieces(entries, gaps)[1..], ',') == p + Listed(entries, gaps)
    decreases |gaps|
  {
    var pieces := Pieces(entries, gaps);
    if gaps != [] {
      var es := entries[1..];
      var gs := gaps[1..];
      assert pieces[1..] == [gaps[0] + es[0]] + Pieces(es, gs)[1..] by {
        forall i | 0 <= i < |pieces| - 1
          ensures pieces[1..][i] == ([gaps[0] + es[0]] + Pieces(es, gs)[1..])[i]
        {
          if i > 0 {
            assert Pieces(es, gs)[i] == gs[i - 1] + es[i];
          }
        }
      }
      JoinPieces(es, gs, gaps[0]);
      var all := [p + entries[0]] + pieces[1..];
      assert all[1..] == pieces[1..];
    }
  }

  /** An entry character is not white space. */
  lemma EntryCharIsNotSpace(c: char)
    requires IsEntryChar(c)
    ensures !IsSpace(c)
  {
  }

  /** A trimmed piece is its entry: the gap before it is white space, and an entry has none. */
  lemma TrimPiece(gap: string, e: string)
    requires SpaceBetween(gap, 0, |gap|) && IsEntry(e)
    ensures Trim(gap + e) == e
  {
    var s := gap + e;
    forall k | 0 <= k < |gap| ensures IsSpace(s[k]) {
      assert s[k] == gap[k];
    }
    forall k | |gap| <= k < |s| ensures !IsSpace(s[k]) {
      assert s[k] == e[k - |gap|];
      EntryCharIsNotSpace(e[k - |gap|]);
    }
    var n := LeadingSpace(s);
    assert !IsSpace(s[|gap|]);
    assert n <= |gap|;
    assert n == |s| || !IsSpace(s[n]);
    assert n == |gap|;
    var r := Trim(s);
    assert |r| == |e|;
    assert r == s[|gap|..|gap| + |e|] == e;
  }

  /** Joining the pieces with commas gives the written list back. */
  lemma JoinedPieces(entries: seq<string>, gaps: seq<string>)
    requires |entries| == |gaps| + 1
    ensures Join(Pieces(entries, gaps), ',') == Listed(entries, gaps)
  {
    var pieces := Pieces(entries, gaps);
    JoinPieces(entries, gaps, []);
    assert [] + entries[0] == entries[0];
    assert pieces == [pieces[0]] + pieces[1..];
    assert [] + Listed(entries, gaps) == Listed(entries, gaps);
  }

  /** No piece holds a comma: entries and white space have none. */
  lemma PiecesWithoutComma(entries: seq<string>, gaps: seq<string>)
    requires |entries| == |gaps| + 1
    requires forall i :: 0 <= i < |entries| ==> IsEntry(entries[i])
    requires forall i :: 0 <= i < |gaps| ==> SpaceBetween(gaps[i], 0, |gaps[i]|)
    ensures forall k :: 0 <= k < |entries| ==> ',' !in Pieces(entries, gaps)[k]
  {
    var pieces := Pieces(entries, gaps);
    forall k | 0 <= k < |pieces| ensures ',' !in pieces[k] {
      var e := entries[k];
      var g := if k == 0 then [] else gaps[k - 1];
      assert pieces[k] == g + e;
      assert IsEntry(e) && SpaceBetween(g, 0, |g|);
      forall j | 0 <= j < |g + e| ensures (g + e)[j] != ',' {
        if j < |g| {
          assert (g + e)[j] == g[j];
        } else {
          assert (g + e)[j] == e[j - |g|];
        }
      }
    }
  }

  /** The piece at index `k`: the gap before that entry, then the entry. */
  lemma PieceAt(entries: seq<string>, gaps: seq<string>, k: nat)
    requires |entries| == |gaps| + 1 && k < |entries|
    ensures Pieces(entries, gaps)[k] == (if k == 0 then [] else gaps[k - 1]) + entries[k]
  {
    if k == 0 {
      assert [] + entries[0] == entries[0];
    }
  }

  /** The piece at index `k`, trimmed, is its entry. */
  lemma TrimmedPiece(entries: seq<string>, gaps: seq<string>, k: nat)
    requires |entries| == |gaps| + 1 && k < |entries| && IsEntry(entries[k])
    requires k > 0 ==> SpaceBetween(gaps[k - 1], 0, |gaps[k - 1]|)
    ensures Trim(Pieces(entries, gaps)[k]) == entries[k]
  {
    PieceAt(entries, gaps, k);
    TrimPiece(if k == 0 then [] else gaps[k - 1], entries[k]);
  }

  /** Each trimmed piece is its entry. */
  lemma PiecesTrimmed(entries: seq<string>, gaps: seq<string>)
    requires |entries| == |gaps| + 1
    requires forall i :: 0 <= i < |entries| ==> IsEntry(entries[i])
    requires forall i :: 0 <= i < |gaps| ==> SpaceBetween(gaps[i], 0, |gaps[i]|)
    ensures Map(Pieces(entries, gaps), Trim) == entries
  {
    var pieces := Pieces(entries, gaps);
    var r := Map(pieces, Trim);
    forall k | 0 <= k < |entries| ensures r[k] == entries[k] {
      assert IsEntry(entries[k]);
      if k > 0 {
        assert SpaceBetween(gaps[k - 1], 0, |gaps[k - 1]|);
      }
      TrimmedPiece(entries, gaps, k);
    }
  }

  /**
   * `exposing.split(',').map(str => str.trim())` on entries written with a
   * comma and any white space between each two gives back the entries.
   */
  lemma ExposedEntries(entries: seq<string>, gaps: seq<string>)
    requires |entries| == |gaps| + 1
    requires forall i :: 0 <= i < |entries| ==> IsEntry(entries[i])
    requires forall i :: 0 <= i < |gaps| ==> SpaceBetween(gaps[i], 0, |gaps[i]|)
    ensures Map(Split(Listed(entries, gaps), ','), Trim) == entries
  {
    var pieces := Pieces(entries, gaps);
    JoinedPieces(entries, gaps);
    PiecesWithoutComma(entries, gaps);
    SplitJoin(pieces, ',');
    PiecesTrimmed(entries, gaps);
  }

  /** A list written as entries, commas and white space is a list the pattern captures. */
  lemma {:induction false} ListedIsList(entries: seq<string>, gaps: seq<string>)
    requires |entries| == |gaps| + 1
    requires forall i :: 0 <= i < |entries| ==> IsEntry(entries[i])
    requires forall i :: 0 <= i < |gaps| ==> SpaceBetween(gaps[i], 0, |gaps[i]|)
    ensures IsExposingList(Listed(entries, gaps))
    decreases |gaps|
  {
    var e := entries[0];
    assert IsEntry(e);
    if gaps == [] {
      forall j | 0 < j < |e| ensures StepAt(e, j) {
        assert IsEntryChar(e[j]);
      }
    } else {
      var g := gaps[0];
      var tail := Listed(entries[1..], gaps[1..]);
      assert forall i :: 0 <= i < |gaps[1..]| ==> gaps[1..][i] == gaps[i + 1];
      assert forall i :: 0 <= i < |entries[1..]| ==> entries[1..][i] == entries[i + 1];
      ListedIsList(entries[1..], gaps[1..]);
      ListCons(e, g, tail);
    }
  }

  /** An entry, a comma, white space and a list form a list. */
  lemma ListCons(e: string, g: string, tail: string)
    requires IsEntry(e) && SpaceBetween(g, 0, |g|) && IsExposingList(tail)
    ensures IsExposingList(e + "," + g + tail)
  {
    var s := e + "," + g + tail;
    var c := |e|;
    var d := c + 1 + |g|;
    assert s[0] == e[0];
    forall j | 0 < j < |s| ensures StepAt(s, j) {
      if j < c {
        assert s[j] == e[j];
      } else if j == c {
        assert s[j] == ',' && s[j - 1] == e[c - 1];
      } else if j < d {
        assert s[j] == g[j - c - 1];
        if j > c + 1 {
          assert s[j - 1] == g[j - c - 2];
        }
      } else if j == d {
        assert s[j] == tail[0];
      } else {
        assert StepAt(tail, j - d);
        assert s[j] == tail[j - d] && s[j - 1] == tail[j - d - 1];
      }
    }
  }

  /**
   * A declaration exposing entries written with commas and any white space,
   * however its own white space spreads it over lines, gives the record
   * with the alias (or the module name) and exactly those entries, then the
   * records of the file after it.
   */
  lemma ExposingEntriesThenFile(name: string, alias: Option<string>, entries: seq<string>, gaps: seq<string>, lay: Layout, file: string)
    requires IsWord(name) && (alias.Some? ==> IsWord(alias.value)) && LayoutOk(lay)
    requires |entries| == |gaps| + 1
    requires forall i :: 0 <= i < |entries| ==> IsEntry(entries[i])
    requires forall i :: 0 <= i < |gaps| ==> SpaceBetween(gaps[i], 0, |gaps[i]|)
    ensures Imports(RenderIn(ImportSyntax(name, alias, Some(Listed(entries, gaps))), lay) + "\n" + file)
         == [Import(name, if alias.Some? then alias.value else name, Some(entries))] + Imports(file)
  {
    var x := ImportSyntax(name, alias, Some(Listed(entries, gaps)));
    ListedIsList(entries, gaps);
    DeclarationThenFile(x, lay, file);
    ExposedEntries(entries, gaps);
  }
}
