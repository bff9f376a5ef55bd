/**
 * The other direction of the round trip of `Declarations`: whatever the
 * recognizer reads is the written form of what it captured. The text of
 * every match is `import`, white space, the module name, then the `as`
 * clause exactly when an alias was captured and the exposing clause exactly
 * when a list was captured, each with the white space the text has there.
 */
module MatchSoundness {
  import opened Options
  import opened Text
  import opened ImportParser
  import opened Declarations

  /** A run of `\s` that a greedy `\s+` took, from `i` up to `j`, is blank text. */
  lemma BlankSlice(t: string, i: nat, j: nat)
    requires i < j <= |t| && j == Span(t, i, IsSpace)
    ensures IsBlank(t[i..j])
  {
    forall q | 0 <= q < j - i ensures IsSpace(t[i..j][q]) {
      SpanAt(t, i, IsSpace, i + q);
    }
  }

  /** Two adjacent stretches of a text make up the stretch that spans both. */
  lemma SliceJoin(t: string, i: nat, j: nat, l: nat)
    requires i <= j <= l <= |t|
    ensures t[i..l] == t[i..j] + t[j..l]
  {
  }

  /** The one-blank run used for a clause that was not captured is blank text. */
  lemma SingleBlank()
    ensures IsBlank(" ")
  {
    assert IsSpace(" "[0]);
  }

  /**
   * Where `\s+exposing\s+\((...)\)` takes its runs when it succeeds from `c`:
   * blanks up to `a`, the keyword, blanks up to `b`, then `(`, the list and
   * `)`, ending at `e`.
   */
  lemma ExposingSpans(t: string, c: nat, list: string, e: nat) returns (a: nat, b: nat)
    requires c <= |t| && ExposingClause(t, c) == Some((list, e))
    ensures c < a && a + 8 < b && b + 2 <= e <= |t|
    ensures a == Span(t, c, IsSpace) && b == Span(t, a + 8, IsSpace)
    ensures t[a..a + 8] == "exposing" && t[b] == '(' && t[e - 1] == ')' && t[b + 1..e - 1] == list
  {
    a := Span(t, c, IsSpace);
    b := Span(t, a + 8, IsSpace);
  }

  /** The text of a successful exposing clause, cut into the pieces it is written as. */
  lemma ExposingText(t: string, c: nat, a: nat, b: nat, e: nat, list: string)
    requires c < a && a + 8 < b && b + 2 <= e <= |t|
    requires t[a..a + 8] == "exposing" && t[b] == '(' && t[e - 1] == ')' && t[b + 1..e - 1] == list
    ensures t[c..e] == t[c..a] + ("exposing" + (t[a + 8..b] + ("(" + (list + ")"))))
  {
    assert t[b..e] == "(" + (list + ")") by {
      SliceJoin(t, b, b + 1, e);
      SliceJoin(t, b + 1, e - 1, e);
      assert t[b..b + 1] == "(" && t[e - 1..e] == ")";
    }
    SliceJoin(t, a + 8, b, e);
    SliceJoin(t, a, a + 8, e);
    SliceJoin(t, c, a, e);
  }

  /** A successful exposing clause is a written one: blank text, `exposing`, blank text, then the list in parentheses. */
  lemma ExposingShape(t: string, c: nat, list: string, e: nat) returns (before: string, after: string)
    requires c <= |t| && ExposingClause(t, c) == Some((list, e))
    ensures IsBlank(before) && IsBlank(after) && c <= e <= |t|
    ensures t[c..e] == before + ("exposing" + (after + ("(" + (list + ")"))))
  {
    var a, b := ExposingSpans(t, c, list, e);
    BlankSlice(t, c, a);
    BlankSlice(t, a + 8, b);
    ExposingText(t, c, a, b, e, list);
    before, after := t[c..a], t[a + 8..b];
  }

  /**
   * Where `\s+as\s+(\w+)` takes its runs when it succeeds from `m`: blanks
   * up to `a`, the keyword, blanks up to `b`, then the alias up to `c`.
   */
  lemma AliasSpans(t: string, m: nat, alias: string, c: nat) returns (a: nat, b: nat)
    requires m <= |t| && AsClause(t, m) == Some((alias, c))
    ensures m < a && a + 2 < b <= c <= |t|
    ensures a == Span(t, m, IsSpace) && b == Span(t, a + 2, IsSpace)
    ensures t[a..a + 2] == "as" && t[b..c] == alias
  {
    a := Span(t, m, IsSpace);
    b := Span(t, a + 2, IsSpace);
  }

  /** A successful `as` clause is a written one: blank text, `as`, blank text, then the alias. */
  lemma AliasShape(t: string, m: nat, alias: string, c: nat) returns (before: string, after: string)
    requires m <= |t| && AsClause(t, m) == Some((alias, c))
    ensures IsBlank(before) && IsBlank(after) && m <= c <= |t|
    ensures t[m..c] == before + ("as" + (after + alias))
  {
    var a, b := AliasSpans(t, m, alias, c);
    BlankSlice(t, m, a);
    BlankSlice(t, a + 2, b);
    SliceJoin(t, a + 2, b, c);
    SliceJoin(t, a, a + 2, c);
    SliceJoin(t, m, a, c);
    before, after := t[m..a], t[a + 2..b];
  }

  /** What the end of the pattern read from `c`: an exposing clause up to the end of the match, or nothing. */
  lemma RemainderShape(t: string, c: nat, name: string, alias: Option<string>, x: ImportSyntax, n: nat)
    requires c <= |t| && Remainder(t, c, name, alias) == Some((x, n))
    ensures x.exposing.None? ==> n == c
    ensures x.exposing.Some? ==> ExposingClause(t, c) == Some((x.exposing.value, n))
  {
  }

  /**
   * What the pattern read after the module name: an `as` clause up to `c`
   * exactly when it captured an alias, then the rest of the pattern from `c`.
   */
  lemma AfterNameShape(t: string, m: nat, name: string, x: ImportSyntax, n: nat) returns (c: nat)
    requires m <= |t| && AfterName(t, m, name) == Some((x, n))
    ensures m <= c <= |t|
    ensures x.alias.None? ==> c == m
    ensures x.alias.Some? ==> AsClause(t, m) == Some((x.alias.value, c))
    ensures Remainder(t, c, name, x.alias) == Some((x, n))
  {
    var asClause := AsClause(t, m);
    if asClause.Some? && Remainder(t, asClause.value.1, name, Some(asClause.value.0)).Some? {
      c := asClause.value.1;
    } else {
      c := m;
    }
  }

  /** Where `^import\s+(\w+)` takes its runs: blanks from 6 up to `k`, the module name up to `m`. */
  lemma HeadShape(t: string, x: ImportSyntax, n: nat) returns (k: nat, m: nat)
    requires MatchImport(t) == Some((x, n))
    ensures 6 < k < m <= |t| && t[..6] == "import" && IsBlank(t[6..k]) && t[k..m] == x.moduleName
    ensures AfterName(t, m, x.moduleName) == Some((x, n))
  {
    k := Span(t, 6, IsSpace);
    m := Span(t, k, IsWordChar);
    BlankSlice(t, 6, k);
  }

  /** A match cut at the ends of its parts is the declaration written with the white space found there. */
  lemma Assemble(t: string, k: nat, m: nat, c: nat, n: nat, x: ImportSyntax, lay: Layout)
    requires 6 <= k <= m <= c <= n <= |t|
    requires t[..6] == "import" && t[6..k] == lay.afterImport && t[k..m] == x.moduleName
    requires t[m..c] == AliasPart(x, lay) && t[c..n] == ExposingPart(x, lay)
    ensures t[..n] == RenderIn(x, lay)
  {
    SliceJoin(t, m, c, n);
    SliceJoin(t, k, m, n);
    SliceJoin(t, 6, k, n);
    SliceJoin(t, 0, 6, n);
  }

  /**
   * Every match is a written declaration: the text the pattern matched is
   * exactly what it captured, written with the white space the text has
   * where the pattern wants some. In particular an `as` clause is present
   * exactly when an alias was captured, and an exposing clause exactly when
   * a list was.
   */
  lemma MatchSound(t: string, x: ImportSyntax, n: nat)
    requires MatchImport(t) == Some((x, n))
    ensures exists lay :: LayoutOk(lay) && t[..n] == RenderIn(x, lay)
  {
    var k, m := HeadShape(t, x, n);
    var c := AfterNameShape(t, m, x.moduleName, x, n);
    SingleBlank();
    var beforeAs, afterAs := " ", " ";
    if x.alias.Some? {
      beforeAs, afterAs := AliasShape(t, m, x.alias.value, c);
    }
    RemainderShape(t, c, x.moduleName, x.alias, x, n);
    var beforeExposing, afterExposing := " ", " ";
    if x.exposing.Some? {
      beforeExposing, afterExposing := ExposingShape(t, c, x.exposing.value, n);
    }
    var lay := Layout(t[6..k], beforeAs, afterAs, beforeExposing, afterExposing);
    assert LayoutOk(lay);
    assert t[m..c] == AliasPart(x, lay);
    assert t[c..n] == ExposingPart(x, lay);
    Assemble(t, k, m, c, n, x, lay);
  }
}
