/**
 * The implicit imports that are put in front of every Elm file before it is
 * parsed, and what the import parser makes of them.
 *
 * Only five of the thirteen lines give a record. The pattern's exposing list
 * allows entries of `[\w.]` separated by commas, so a list holding `(::)`,
 * `Maybe(..)` or a blank after `(` is not a list, and the line is passed
 * over; `Platform.Cmd` is not a `\w+` module name, so neither are the last
 * two lines.
 */
module Prelude {
  import opened Options
  import opened Text
  import opened Seqs
  import opened ImportParser
  import opened ImportParserProofs
  import opened LineShapes

  const PreludeLines: seq<string> := [
    "import Basics exposing (..)",
    "import List exposing (List, (::))",
    "import Maybe exposing (Maybe(..))",
    "import Result exposing (Result(..))",
    "import String exposing (String)",
    "import Char exposing (Char)",
    "import Tuple",
    "",
    "import Debug",
    "",
    "import Platform exposing ( Program )",
    "import Platform.Cmd as Cmd exposing ( Cmd )",
    "import Platform.Sub as Sub exposing ( Sub )"
  ]

  /** Every line followed by a line feed, as in a template literal. */
  function Unlines(lines: seq<string>): string {
    if lines == [] then [] else lines[0] + "\n" + Unlines(lines[1..])
  }

  /** The text put in front of the user's file. */
  function PreludeText(): string {
    Unlines(PreludeLines)
  }

  /** The records the prelude contributes, in order. */
  function PreludeImports(): seq<Import> {
    [ Import("Basics", "Basics", Some([".."])),
      Import("String", "String", Some(["String"])),
      Import("Char", "Char", Some(["Char"])),
      Import("Tuple", "Tuple", None),
      Import("Debug", "Debug", None) ]
  }


  /** The prelude's lines by shape, in order. */
  const PreludeShapes: seq<LineShape> := [
    ExposingOne("Basics", ".."),
    Unclosed("List", "List, ", "(::))"),
    Unclosed("Maybe", "Maybe", "(..))"),
    Unclosed("Result", "Result", "(..))"),
    ExposingOne("String", "String"),
    ExposingOne("Char", "Char"),
    Bare("Tuple"),
    Blank,
    Bare("Debug"),
    Blank,
    EmptyList("Platform", " Program )"),
    Dotted("Platform", ".Cmd as Cmd exposing ( Cmd )"),
    Dotted("Platform", ".Sub as Sub exposing ( Sub )")
  ]

  /** Joining lines of the given shapes, then the file, is the text `Rendered` builds. */
  lemma {:induction false} UnlinesRendered(lines: seq<string>, shs: seq<LineShape>, file: string)
    requires |lines| == |shs| && forall k :: 0 <= k < |lines| ==> lines[k] == LineText(shs[k])
    ensures Unlines(lines) + file == Rendered(shs, file)
    decreases |lines|
  {
    if lines != [] {
      assert lines[0] == LineText(shs[0]);
      UnlinesRendered(lines[1..], shs[1..], file);
    }
  }

  // Each line of the prelude has the shape listed for it.

  lemma ShapeText0()
    ensures LineText(ExposingOne("Basics", "..")) == "import Basics exposing (..)"
  {
  }

  lemma LineShape0()
    ensures PreludeLines[0] == LineText(PreludeShapes[0])
  {
    assert PreludeLines[0] == "import Basics exposing (..)";
    assert PreludeShapes[0] == ExposingOne("Basics", "..");
    ShapeText0();
  }

  lemma ShapeText1()
    ensures LineText(Unclosed("List", "List, ", "(::))")) == "import List exposing (List, (::))"
  {
  }

  lemma LineShape1()
    ensures PreludeLines[1] == LineText(PreludeShapes[1])
  {
    assert PreludeLines[1] == "import List exposing (List, (::))";
    assert PreludeShapes[1] == Unclosed("List", "List, ", "(::))");
    ShapeText1();
  }

  lemma ShapeText2()
    ensures LineText(Unclosed("Maybe", "Maybe", "(..))")) == "import Maybe exposing (Maybe(..))"
  {
  }

  lemma LineShape2()
    ensures PreludeLines[2] == LineText(PreludeShapes[2])
  {
    assert PreludeLines[2] == "import Maybe exposing (Maybe(..))";
    assert PreludeShapes[2] == Unclosed("Maybe", "Maybe", "(..))");
    ShapeText2();
  }

  lemma ShapeText3()
    ensures LineText(Unclosed("Result", "Result", "(..))")) == "import Result exposing (Result(..))"
  {
  }

  lemma LineShape3()
    ensures PreludeLines[3] == LineText(PreludeShapes[3])
  {
    assert PreludeLines[3] == "import Result exposing (Result(..))";
    assert PreludeShapes[3] == Unclosed("Result", "Result", "(..))");
    ShapeText3();
  }

  lemma ShapeText4()
    ensures LineText(ExposingOne("String", "String")) == "import String exposing (String)"
  {
  }

  lemma LineShape4()
    ensures PreludeLines[4] == LineText(PreludeShapes[4])
  {
    assert PreludeLines[4] == "import String exposing (String)";
    assert PreludeShapes[4] == ExposingOne("String", "String");
    ShapeText4();
  }

  lemma ShapeText5()
    ensures LineText(ExposingOne("Char", "Char")) == "import Char exposing (Char)"
  {
  }

  lemma LineShape5()
    ensures PreludeLines[5] == LineText(PreludeShapes[5])
  {
    assert PreludeLines[5] == "import Char exposing (Char)";
    assert PreludeShapes[5] == ExposingOne("Char", "Char");
    ShapeText5();
  }

  lemma ShapeText6()
    ensures LineText(Bare("Tuple")) == "import Tuple"
  {
  }

  lemma LineShape6()
    ensures PreludeLines[6] == LineText(PreludeShapes[6])
  {
    assert PreludeLines[6] == "import Tuple";
    assert PreludeShapes[6] == Bare("Tuple");
    ShapeText6();
  }

  lemma LineShape7()
    ensures PreludeLines[7] == LineText(PreludeShapes[7])
  {
  }

  lemma ShapeText8()
    ensures LineText(Bare("Debug")) == "import Debug"
  {
  }

  lemma LineShape8()
    ensures PreludeLines[8] == LineText(PreludeShapes[8])
  {
    assert PreludeLines[8] == "import Debug";
    assert PreludeShapes[8] == Bare("Debug");
    ShapeText8();
  }

  lemma LineShape9()
    ensures PreludeLines[9] == LineText(PreludeShapes[9])
  {
  }

  lemma ShapeText10()
    ensures LineText(EmptyList("Platform", " Program )")) == "import Platform exposing ( Program )"
  {
  }

  lemma LineShape10()
    ensures PreludeLines[10] == LineText(PreludeShapes[10])
  {
    assert PreludeLines[10] == "import Platform exposing ( Program )";
    assert PreludeShapes[10] == EmptyList("Platform", " Program )");
    ShapeText10();
  }

  lemma ShapeText11()
    ensures LineText(Dotted("Platform", ".Cmd as Cmd exposing ( Cmd )")) == "import Platform.Cmd as Cmd exposing ( Cmd )"
  {
  }

  lemma LineShape11()
    ensures PreludeLines[11] == LineText(PreludeShapes[11])
  {
    assert PreludeLines[11] == "import Platform.Cmd as Cmd exposing ( Cmd )";
    assert PreludeShapes[11] == Dotted("Platform", ".Cmd as Cmd exposing ( Cmd )");
    ShapeText11();
  }

  lemma ShapeText12()
    ensures LineText(Dotted("Platform", ".Sub as Sub exposing ( Sub )")) == "import Platform.Sub as Sub exposing ( Sub )"
  {
  }

  lemma LineShape12()
    ensures PreludeLines[12] == LineText(PreludeShapes[12])
  {
    assert PreludeLines[12] == "import Platform.Sub as Sub exposing ( Sub )";
    assert PreludeShapes[12] == Dotted("Platform", ".Sub as Sub exposing ( Sub )");
    ShapeText12();
  }

  lemma PreludeLinesShaped()
    ensures |PreludeLines| == |PreludeShapes|
    ensures forall k :: 0 <= k < |PreludeLines| ==> PreludeLines[k] == LineText(PreludeShapes[k])
  {
    forall k | 0 <= k < |PreludeLines|
      ensures PreludeLines[k] == LineText(PreludeShapes[k])
    {
      if k == 0 { LineShape0(); }
      else if k == 1 { LineShape1(); }
      else if k == 2 { LineShape2(); }
      else if k == 3 { LineShape3(); }
      else if k == 4 { LineShape4(); }
      else if k == 5 { LineShape5(); }
      else if k == 6 { LineShape6(); }
      else if k == 7 { LineShape7(); }
      else if k == 8 { LineShape8(); }
      else if k == 9 { LineShape9(); }
      else if k == 10 { LineShape10(); }
      else if k == 11 { LineShape11(); }
      else if k == 12 { LineShape12(); }
    }
  }

  lemma ExposingLinesOk()
    ensures ShapeOk(ExposingOne("Basics", "..")) && ShapeOk(ExposingOne("String", "String"))
    ensures ShapeOk(ExposingOne("Char", "Char"))
  {
  }

  lemma UnclosedLinesOk()
    ensures ShapeOk(Unclosed("List", "List, ", "(::))")) && ShapeOk(Unclosed("Maybe", "Maybe", "(..))"))
    ensures ShapeOk(Unclosed("Result", "Result", "(..))"))
  {
  }

  lemma ProgramLineOk()
    ensures ShapeOk(EmptyList("Platform", " Program )"))
  {
  }

  lemma CmdLineOk()
    ensures ShapeOk(Dotted("Platform", ".Cmd as Cmd exposing ( Cmd )"))
  {
    OneLineAppend(".Cmd as Cmd", " exposing ( Cmd )");
  }

  lemma SubLineOk()
    ensures ShapeOk(Dotted("Platform", ".Sub as Sub exposing ( Sub )"))
  {
    OneLineAppend(".Sub as Sub", " exposing ( Sub )");
  }

  /** Every line of the prelude is well formed, and each bare line is followed by a blank one. */
  lemma PreludeShapesOk()
    ensures LinesOk(PreludeShapes)
  {
    var p := PreludeShapes;
    forall k | 0 <= k < |p|
      ensures ShapeOk(p[k])
    {
      if k < 6 {
        ExposingLinesOk();
        UnclosedLinesOk();
      } else if k == 10 {
        ProgramLineOk();
      } else if k == 11 {
        CmdLineOk();
      } else if k == 12 {
        SubLineOk();
      }
    }
  }

  lemma HeadRecords()
    ensures RecordsFrom(PreludeShapes, 0) == PreludeImports()[..3] + RecordsFrom(PreludeShapes, 6)
  {
  }

  lemma TailRecords()
    ensures RecordsFrom(PreludeShapes, 6) == PreludeImports()[3..]
  {
  }

  lemma PreludeRecords()
    ensures Records(PreludeShapes) == PreludeImports()
  {
    HeadRecords();
    TailRecords();
    assert PreludeImports() == PreludeImports()[..3] + PreludeImports()[3..];
  }

  /**
   * Parsing the prelude followed by a file gives the prelude's five records
   * followed by the file's own.
   */
  lemma PreludeThenFile(file: string)
    ensures Imports(PreludeText() + file) == PreludeImports() + Imports(file)
  {
    PreludeLinesShaped();
    UnlinesRendered(PreludeLines, PreludeShapes, file);
    PreludeShapesOk();
    ParseRendered(PreludeShapes, file);
    PreludeRecords();
  }

  /** Parsing the prelude alone gives exactly its five records. */
  lemma PreludeAlone()
    ensures Imports(PreludeText()) == PreludeImports()
  {
    PreludeThenFile([]);
    assert PreludeText() + [] == PreludeText();
    assert Imports([]) == [] by {
      MatchImportAdvances();
      assert MatchImport([]) == None;
      assert Exec(MatchImport, [], 0) == None;
    }
  }
}
