/**
 * Import declarations by the shape of their line, and what the import
 * parser makes of a text built line by line from such shapes. The prelude
 * that is put in front of every Elm file is one such text.
 */
module LineShapes {
  import opened Options
  import opened Text
  import opened Seqs
  import opened ImportParser
  import opened ImportParserProofs
  import opened Declarations

  /** The kinds of line the prelude is made of. */
  datatype LineShape =
    | ExposingOne(name: string, entry: string)          // import N exposing (E)
    | Bare(name: string)                                // import N
    | Blank
    | Unclosed(name: string, list: string, more: string) // import N exposing (L M, M not starting with `)`
    | EmptyList(name: string, more: string)             // import N exposing (M, M not starting with an entry
    | Dotted(name: string, more: string)                // import N M, M not starting with a word character or blank

  function LineText(sh: LineShape): string {
    match sh
    case ExposingOne(n, e) => "import " + n + " exposing (" + e + ")"
    case Bare(n) => "import " + n
    case Blank => []
    case Unclosed(n, l, m) => "import " + n + " exposing (" + l + m
    case EmptyList(n, m) => "import " + n + " exposing (" + m
    case Dotted(n, m) => "import " + n + m
  }

  /** An exposing list of one entry with no padding, on one line. */
  predicate SingleEntry(entry: string) {
    IsExposingList(entry) && NoLineTerminator(entry)
    && ',' !in entry && !IsSpace(entry[0]) && !IsSpace(entry[|entry| - 1])
  }

  /** The conditions under which each kind of line means what its name says. */
  predicate ShapeOk(sh: LineShape) {
    match sh
    case ExposingOne(n, e) => IsWord(n) && SingleEntry(e)
    case Bare(n) => IsWord(n)
    case Blank => true
    case Unclosed(n, l, m) =>
      IsWord(n) && IsExposingList(l) && m != [] && StopsList(m[0]) && m[0] != ')'
      && NoLineTerminator(l) && NoLineTerminator(m)
    case EmptyList(n, m) => IsWord(n) && m != [] && !IsEntryChar(m[0]) && NoLineTerminator(m)
    case Dotted(n, m) => IsWord(n) && m != [] && !IsWordChar(m[0]) && !IsSpace(m[0]) && NoLineTerminator(m)
  }

  /**
   * Every line is well formed, and a bare declaration is followed by a blank
   * line and then a declaration, so that no `as` or `exposing` clause can
   * be read across the line end.
   */
  predicate LinesOk(shs: seq<LineShape>) {
    (forall k :: 0 <= k < |shs| ==> ShapeOk(shs[k]))
    && (forall k :: 0 <= k < |shs| && shs[k].Bare? ==> k + 2 < |shs| && shs[k + 1].Blank? && !shs[k + 2].Blank?)
  }

  /** The record a line of this shape gives, if any. */
  function Record(sh: LineShape): seq<Import> {
    match sh
    case ExposingOne(n, e) => [Import(n, n, Some([e]))]
    case Bare(n) => [Import(n, n, None)]
    case _ => []
  }

  /** The records of the lines from index `k` on, in order. */
  function RecordsFrom(shs: seq<LineShape>, k: nat): seq<Import>
    requires k <= |shs|
    decreases |shs| - k
  {
    if k == |shs| then [] else Record(shs[k]) + RecordsFrom(shs, k + 1)
  }

  function Records(shs: seq<LineShape>): seq<Import> {
    RecordsFrom(shs, 0)
  }

  /** The lines, each followed by a line feed, and then `file`. */
  function Rendered(shs: seq<LineShape>, file: string): string {
    if shs == [] then file else LineText(shs[0]) + "\n" + Rendered(shs[1..], file)
  }

  /** `import name` followed by `after`, where the name ends. */
  lemma HeaderOf(t: string, name: string, after: string)
    requires t == "import " + name + after && IsWord(name)
    requires after == [] || !IsWordChar(after[0])
    ensures 7 + |name| <= |t| && t[7 + |name|..] == after
    ensures MatchImport(t) == AfterName(t, 7 + |name|, name)
  {
    var m := 7 + |name|;
    assert t == "import" + (" " + (name + after));
    SplitSuffix(t, 0, "import", " " + (name + after));
    assert (name + after)[0] == name[0];
    BlankAt(t, 6, " ", name + after);
    WordAt(t, 7, name, after);
  }

  /** A line whose exposing list is followed by something other than `)` gives no match. */
  lemma RejectUnclosed(t: string, name: string, list: string, more: string)
    requires t == "import " + name + (" exposing (" + (list + more)) && IsWord(name)
    requires IsExposingList(list) && more != [] && StopsList(more[0]) && more[0] != ')'
    ensures MatchImport(t) == None
  {
    var m := 7 + |name|;
    assert m <= |t| && MatchImport(t) == AfterName(t, m, name) && t[m..] == " exposing (" + (list + more) by {
      HeaderOf(t, name, " exposing (" + (list + more));
    }
    UnclosedAfterName(t, m, name, list, more);
  }

  lemma UnclosedAfterName(t: string, m: nat, name: string, list: string, more: string)
    requires m <= |t| && t[m..] == " exposing (" + (list + more)
    requires IsExposingList(list) && more != [] && StopsList(more[0]) && more[0] != ')'
    ensures AfterName(t, m, name) == None
  {
    assert HasAt(t, m, " exposing (") && HasAt(t, m + 11, list) && m + 11 + |list| < |t|
      && t[m + 11 + |list|] == more[0] && HasAt(t, m, " e") by {
      SplitSuffix(t, m, " exposing (", list + more);
      SplitSuffix(t, m + 11, list, more);
      HasAtSplit(t, m, " e", "xposing (");
    }
    assert ExposingClause(t, m) == None by { ExposingUnclosed(t, m, list); }
    FailedExposingAfterName(t, m, name);
  }

  /** A line whose exposing list starts with a blank gives no match. */
  lemma RejectEmptyList(t: string, name: string, more: string)
    requires t == "import " + name + (" exposing (" + more) && IsWord(name)
    requires more != [] && !IsEntryChar(more[0])
    ensures MatchImport(t) == None
  {
    var m := 7 + |name|;
    assert m <= |t| && MatchImport(t) == AfterName(t, m, name) && t[m..] == " exposing (" + more by {
      HeaderOf(t, name, " exposing (" + more);
    }
    EmptyListAfterName(t, m, name, more);
  }

  lemma EmptyListAfterName(t: string, m: nat, name: string, more: string)
    requires m <= |t| && t[m..] == " exposing (" + more
    requires more != [] && !IsEntryChar(more[0])
    ensures AfterName(t, m, name) == None
  {
    assert HasAt(t, m, " exposing (") && m + 11 < |t| && t[m + 11] == more[0] && HasAt(t, m, " e") by {
      SplitSuffix(t, m, " exposing (", more);
      HasAtSplit(t, m, " e", "xposing (");
    }
    assert ExposingClause(t, m) == None by { ExposingEmpty(t, m); }
    FailedExposingAfterName(t, m, name);
  }

  /** A module name followed by a character that is neither a word character nor white space gives no match. */
  lemma RejectDotted(t: string, name: string, more: string)
    requires t == "import " + name + more && IsWord(name)
    requires more != [] && !IsWordChar(more[0]) && !IsSpace(more[0])
    ensures MatchImport(t) == None
  {
    var m := 7 + |name|;
    HeaderOf(t, name, more);
    assert t[m] == more[0];
    NoSpaceAfterName(t, m, name);
  }

  /** Two line ends and then `import`: no `as` or `exposing` clause continues the line before. */
  lemma NoClauseBeforeImport(u: string)
    requires |u| > 2 && u[0] == '\n' && u[1] == '\n' && u[2] == 'i'
    ensures !ClauseAhead(u)
  {
    SpanIs(u, 0, IsSpace, 2);
  }

  /** A declaration with an exposing list read by the recognizer. */
  lemma AcceptExposing(t: string, line: string, name: string, entry: string, rest: string)
    requires line == "import " + name + " exposing (" + entry + ")"
    requires t == line + "\n" + rest
    requires IsWord(name) && IsExposingList(entry)
    ensures MatchImport(t) == Some((ImportSyntax(name, None, Some(entry)), |line|))
  {
    var x := ImportSyntax(name, None, Some(entry));
    RenderExposing(name, entry);
    RenderedLine(line, x, rest);
    MatchRender(t, x, "\n" + rest);
  }

  lemma RenderedLine(line: string, x: ImportSyntax, rest: string)
    requires Render(x) == line
    ensures line + "\n" + rest == Render(x) + ("\n" + rest)
    ensures |line + "\n" + rest| - |"\n" + rest| == |line|
  {
  }

  lemma RenderExposing(name: string, entry: string)
    ensures Render(ImportSyntax(name, None, Some(entry))) == "import " + name + " exposing (" + entry + ")"
  {
    var x := ImportSyntax(name, None, Some(entry));
    var tail := " exposing (" + (entry + ")");
    assert ExposingPart(x, SingleBlanks) == tail by {
      assert " " + ("exposing" + (" " + ("(" + (entry + ")")))) == (" " + "exposing" + " " + "(") + (entry + ")");
    }
    assert AliasPart(x, SingleBlanks) + tail == tail;
    assert "import" + (" " + (name + tail)) == "import " + name + " exposing (" + entry + ")";
  }

  /** The record of a declaration that exposes a single entry. */
  lemma SingleEntryRecord(name: string, entry: string)
    requires ',' !in entry && entry != [] && !IsSpace(entry[0]) && !IsSpace(entry[|entry| - 1])
    ensures ToImport(ImportSyntax(name, None, Some(entry))) == Import(name, name, Some([entry]))
  {
    SplitWithoutSeparator(entry, ',');
    TrimUnpadded(entry);
  }

  /** A bare declaration followed by a blank line and another declaration. */
  lemma AcceptBare(t: string, line: string, name: string, rest: string)
    requires line == "import " + name && IsWord(name)
    requires t == line + "\n" + rest
    requires |rest| > 1 && rest[0] == '\n' && rest[1] == 'i'
    ensures MatchImport(t) == Some((ImportSyntax(name, None, None), |line|))
  {
    var x := ImportSyntax(name, None, None);
    var u := "\n" + rest;
    RenderBare(name);
    RenderedLine(line, x, rest);
    NoClauseBeforeImport(u);
    MatchRender(t, x, u);
  }

  lemma RenderBare(name: string)
    ensures Render(ImportSyntax(name, None, None)) == "import " + name
  {
  }

  /** The fixed pieces of a declaration hold no line terminator. */
  lemma KeywordsOneLine()
    ensures NoLineTerminator("import ") && NoLineTerminator(" exposing (") && NoLineTerminator(")")
  {
  }

  lemma OneLineAppend(a: string, b: string)
    requires NoLineTerminator(a) && (NoLineTerminator(b) || IsWord(b))
    ensures NoLineTerminator(a + b)
  {
    forall j | 0 <= j < |a + b|
      ensures !IsLineTerminator((a + b)[j])
    {
      if j >= |a| {
        assert (a + b)[j] == b[j - |a|];
      }
    }
  }

  /** A declaration's head and the piece after it lie on one line. */
  lemma HeadOnOneLine(head: string, name: string, keyword: string, after: string)
    requires NoLineTerminator(head) && IsWord(name) && NoLineTerminator(keyword) && NoLineTerminator(after)
    ensures NoLineTerminator(head + name + keyword + after)
  {
    OneLineAppend(head, name);
    OneLineAppend(head + name, keyword);
    OneLineAppend(head + name + keyword, after);
  }

  lemma BlankThenLine(u: string, line: string, more: string)
    requires u == [] + "\n" + (line + "\n" + more) && line != [] && line[0] == 'i'
    ensures |u| > 1 && u[0] == '\n' && u[1] == 'i'
  {
    assert u[1] == line[0];
  }

  lemma UnclosedLine(t: string, line: string, name: string, list: string, more: string, rest: string)
    requires line == "import " + name + " exposing (" + list + more && t == line + "\n" + rest
    requires IsWord(name) && IsExposingList(list) && more != [] && StopsList(more[0]) && more[0] != ')'
    ensures MatchImport(t) == None
  {
    assert t == "import " + name + (" exposing (" + (list + (more + "\n" + rest)));
    RejectUnclosed(t, name, list, more + "\n" + rest);
  }

  lemma EmptyListLine(t: string, line: string, name: string, more: string, rest: string)
    requires line == "import " + name + " exposing (" + more && t == line + "\n" + rest
    requires IsWord(name) && more != [] && !IsEntryChar(more[0])
    ensures MatchImport(t) == None
  {
    assert t == "import " + name + (" exposing (" + (more + "\n" + rest));
    RejectEmptyList(t, name, more + "\n" + rest);
  }

  lemma DottedLine(t: string, line: string, name: string, more: string, rest: string)
    requires line == "import " + name + more && t == line + "\n" + rest
    requires IsWord(name) && more != [] && !IsWordChar(more[0]) && !IsSpace(more[0])
    ensures MatchImport(t) == None
  {
    assert t == "import " + name + (more + "\n" + rest);
    RejectDotted(t, name, more + "\n" + rest);
  }

  lemma BlankLine(t: string, rest: string)
    requires t == [] + "\n" + rest
    ensures MatchImport(t) == None
  {
    assert t[0] == '\n';
    assert !HasAt(t, 0, "import");
  }


  lemma {:induction false} RecordsFromTail(shs: seq<LineShape>, k: nat)
    requires 0 < k <= |shs|
    ensures RecordsFrom(shs, k) == RecordsFrom(shs[1..], k - 1)
    decreases |shs| - k
  {
    if k < |shs| {
      RecordsFromTail(shs, k + 1);
      assert shs[1..][k - 1] == shs[k];
    }
  }

  lemma AppendAssociative<T>(a: seq<T>, b: seq<T>, c: seq<T>)
    ensures a + (b + c) == (a + b) + c
  {
  }

  lemma DeclarationStart(sh: LineShape)
    requires !sh.Blank?
    ensures |LineText(sh)| > 0 && LineText(sh)[0] == 'i'
  {
  }

  /** A line that exposes one entry gives its record. */
  lemma TakeExposing(t: string, sh: LineShape, rest: string)
    requires sh.ExposingOne? && ShapeOk(sh) && t == LineText(sh) + "\n" + rest
    ensures Imports(t) == Record(sh) + Imports(rest)
  {
    MatchImportAdvances();
    var line := LineText(sh);
    var x := ImportSyntax(sh.name, None, Some(sh.entry));
    assert NoLineTerminator(line) by {
      KeywordsOneLine();
      HeadOnOneLine("import ", sh.name, " exposing (", sh.entry);
      OneLineAppend("import " + sh.name + " exposing (" + sh.entry, ")");
    }
    AcceptExposing(t, line, sh.name, sh.entry, rest);
    SingleEntryRecord(sh.name, sh.entry);
    ScanTakeLine(MatchImport, t, line, rest, x);
  }

  /** A bare line followed by a blank line and a declaration gives its record. */
  lemma TakeBare(t: string, sh: LineShape, rest: string)
    requires sh.Bare? && ShapeOk(sh) && t == LineText(sh) + "\n" + rest
    requires |rest| > 1 && rest[0] == '\n' && rest[1] == 'i'
    ensures Imports(t) == Record(sh) + Imports(rest)
  {
    MatchImportAdvances();
    var line := LineText(sh);
    assert NoLineTerminator(line) by {
      KeywordsOneLine();
      OneLineAppend("import ", sh.name);
    }
    AcceptBare(t, line, sh.name, rest);
    ScanTakeLine(MatchImport, t, line, rest, ImportSyntax(sh.name, None, None));
  }

  /** A line whose exposing list is followed by something other than `)` gives no record. */
  lemma SkipUnclosed(t: string, sh: LineShape, rest: string)
    requires sh.Unclosed? && ShapeOk(sh) && t == LineText(sh) + "\n" + rest
    ensures Imports(t) == Imports(rest)
  {
    MatchImportAdvances();
    var line := LineText(sh);
    assert NoLineTerminator(line) by {
      KeywordsOneLine();
      HeadOnOneLine("import ", sh.name, " exposing (", sh.list);
      OneLineAppend("import " + sh.name + " exposing (" + sh.list, sh.more);
    }
    UnclosedLine(t, line, sh.name, sh.list, sh.more, rest);
    ScanSkipLine(MatchImport, t, line, rest);
  }

  /** A line with a blank after the opening parenthesis gives no record. */
  lemma SkipEmptyList(t: string, sh: LineShape, rest: string)
    requires sh.EmptyList? && ShapeOk(sh) && t == LineText(sh) + "\n" + rest
    ensures Imports(t) == Imports(rest)
  {
    MatchImportAdvances();
    var line := LineText(sh);
    assert NoLineTerminator(line) by {
      KeywordsOneLine();
      HeadOnOneLine("import ", sh.name, " exposing (", sh.more);
    }
    EmptyListLine(t, line, sh.name, sh.more, rest);
    ScanSkipLine(MatchImport, t, line, rest);
  }

  /** A line with a dotted module name gives no record. */
  lemma SkipDotted(t: string, sh: LineShape, rest: string)
    requires sh.Dotted? && ShapeOk(sh) && t == LineText(sh) + "\n" + rest
    ensures Imports(t) == Imports(rest)
  {
    MatchImportAdvances();
    var line := LineText(sh);
    assert NoLineTerminator(line) by {
      KeywordsOneLine();
      OneLineAppend("import ", sh.name);
      OneLineAppend("import " + sh.name, sh.more);
    }
    DottedLine(t, line, sh.name, sh.more, rest);
    ScanSkipLine(MatchImport, t, line, rest);
  }

  /** A blank line gives no record. */
  lemma SkipBlank(t: string, rest: string)
    requires t == LineText(Blank) + "\n" + rest
    ensures Imports(t) == Imports(rest)
  {
    MatchImportAdvances();
    BlankLine(t, rest);
    ScanSkipLine(MatchImport, t, [], rest);
  }

  /** The first line of a well-formed text contributes its record ahead of the rest. */
  lemma FirstLine(shs: seq<LineShape>, file: string)
    requires shs != [] && LinesOk(shs)
    ensures Imports(Rendered(shs, file)) == Record(shs[0]) + Imports(Rendered(shs[1..], file))
  {
    var sh := shs[0];
    var t := Rendered(shs, file);
    var rest := Rendered(shs[1..], file);
    assert t == LineText(sh) + "\n" + rest;
    match sh
    case ExposingOne(_, _) => TakeExposing(t, sh, rest);
    case Bare(_) =>
      assert |rest| > 1 && rest[0] == '\n' && rest[1] == 'i' by {
        assert |shs| > 2 && shs[1].Blank? && !shs[2].Blank?;
        var shs2 := shs[2..];
        assert shs[1..][1..] == shs2 && shs[1..][0] == Blank;
        assert rest == [] + "\n" + (LineText(shs2[0]) + "\n" + Rendered(shs2[1..], file));
        DeclarationStart(shs2[0]);
        BlankThenLine(rest, LineText(shs2[0]), Rendered(shs2[1..], file));
      }
      TakeBare(t, sh, rest);
    case Blank => SkipBlank(t, rest);
    case Unclosed(_, _, _) => SkipUnclosed(t, sh, rest);
    case EmptyList(_, _) => SkipEmptyList(t, sh, rest);
    case Dotted(_, _) => SkipDotted(t, sh, rest);
  }

  /**
   * Parsing a well-formed text of declarations followed by a file gives the
   * records of its lines, in order, followed by the records of the file.
   */
  lemma {:induction false} ParseRendered(shs: seq<LineShape>, file: string)
    requires LinesOk(shs)
    ensures Imports(Rendered(shs, file)) == Records(shs) + Imports(file)
    decreases |shs|
  {
    if shs != [] {
      FirstLine(shs, file);
      assert LinesOk(shs[1..]) by {
        forall k | 0 <= k < |shs| - 1
          ensures shs[1..][k] == shs[k + 1]
        {
        }
      }
      ParseRendered(shs[1..], file);
      RecordsFromTail(shs, 1);
      AppendAssociative(Record(shs[0]), Records(shs[1..]), Imports(file));
    }
  }
}
