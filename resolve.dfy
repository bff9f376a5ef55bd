/**
 * What the program does with a classified query once the imports are
 * known: a qualified query searches the module its qualifier is an alias
 * of, an unqualified one searches every module whose exposing list could
 * bring the name into scope.
 */
module Resolver {
  import opened Options
  import opened Text
  import opened Seqs
  import opened ImportParser
  import opened Prelude
  import opened QueryClassifier
  import opened DocSearch

  /** `imports.find(imp => imp.alias == qualifier)`: the first import with that alias. */
  function FindByAlias(imports: seq<Import>, qualifier: string): (r: Option<Import>)
    ensures r.None? <==> forall imp :: imp in imports ==> imp.alias != qualifier
    ensures r.Some? ==> exists k :: 0 <= k < |imports| && imports[k] == r.value && imports[k].alias == qualifier
                                    && forall j :: 0 <= j < k ==> imports[j].alias != qualifier
  {
    if imports == [] then None
    else if imports[0].alias == qualifier then Some(imports[0])
    else
      var r := FindByAlias(imports[1..], qualifier);
      assert forall imp :: imp in imports ==> imp == imports[0] || imp in imports[1..];
      if r.Some? then
        var k :| 0 <= k < |imports[1..]| && imports[1..][k] == r.value && imports[1..][k].alias == qualifier
                 && forall j :: 0 <= j < k ==> imports[1..][j].alias != qualifier;
        assert imports[k + 1] == r.value;
        assert forall j :: 1 <= j < k + 1 ==> imports[j] == imports[1..][j - 1];
        r
      else r
  }

  /** The import exposes everything (`..`) or an entry that starts with `name`. */
  predicate ExposesName(imp: Import, name: string) {
    imp.exposed.Some? && exists e :: e in imp.exposed.value && (e == ".." || StartsWith(e, name))
  }

  /** The modules an unqualified query is looked up in, in import order. */
  function ModulesToSearch(imports: seq<Import>, name: string): seq<string> {
    Map(Filter(imports, (imp: Import) => ExposesName(imp, name)), (imp: Import) => imp.moduleName)
  }

  /**
   * The resolution block. A qualified query with an empty qualifier (`.map`)
   * takes the unqualified branch, because the empty string is falsy. Every
   * result is a value whose name starts with the query's name.
   */
  function Resolve(docs: seq<DocModule>, imports: seq<Import>, q: Query): (r: seq<SearchResult>)
    ensures forall x :: x in r ==> StartsWith(x.name, q.name) && x.href == Href
  {
    if q.Qualified? && q.qualifier != [] then
      match FindByAlias(imports, q.qualifier)
      case None => []
      case Some(imp) => SearchByModuleName(docs, imp.moduleName, q.name)
    else
      FlatMap(ModulesToSearch(imports, q.name), (m: string) => SearchByModuleName(docs, m, q.name))
  }

  /**
   * The program after its inputs are read: parse the imports of the prelude
   * followed by the file, classify the query and resolve it against the
   * documentation of the dependencies.
   */
  method Run(docs: seq<DocModule>, file: string, query: string) returns (result: seq<SearchResult>)
    ensures result == Resolve(docs, PreludeImports() + Imports(file), ClassifyQuery(query))
  {
    PreludeThenFile(file);
    var imports := ParseImports(PreludeText() + file);
    var classified := ClassifyQuery(query);
    result := Resolve(docs, imports, classified);
  }

  /** A qualified query searches the module of the first import carrying its qualifier as alias. */
  lemma {:induction false} ResolveFirstAlias(docs: seq<DocModule>, before: seq<Import>, imp: Import, after: seq<Import>, qualifier: string, name: string)
    requires qualifier != [] && imp.alias == qualifier
    requires forall i :: i in before ==> i.alias != qualifier
    ensures Resolve(docs, before + [imp] + after, Qualified(qualifier, name))
         == SearchByModuleName(docs, imp.moduleName, name)
  {
    FindFirst(before, imp, after, qualifier);
  }

  lemma {:induction false} FindFirst(before: seq<Import>, imp: Import, after: seq<Import>, qualifier: string)
    requires imp.alias == qualifier
    requires forall i :: i in before ==> i.alias != qualifier
    ensures FindByAlias(before + [imp] + after, qualifier) == Some(imp)
    decreases |before|
  {
    var imports := before + [imp] + after;
    if before == [] {
      assert imports[0] == imp;
    } else {
      assert imports[0] == before[0];
      assert imports[1..] == before[1..] + [imp] + after;
      FindFirst(before[1..], imp, after, qualifier);
    }
  }

  /** A qualifier that is no import's alias gives no results rather than an error. */
  lemma ResolveUnknownAlias(docs: seq<DocModule>, imports: seq<Import>, qualifier: string, name: string)
    requires qualifier != []
    requires forall i :: i in imports ==> i.alias != qualifier
    ensures Resolve(docs, imports, Qualified(qualifier, name)) == []
  {
  }

  /** `.map` is looked up like `map`. */
  lemma ResolveEmptyQualifier(docs: seq<DocModule>, imports: seq<Import>, name: string)
    ensures Resolve(docs, imports, Qualified([], name)) == Resolve(docs, imports, Unqualified(name))
  {
  }

  /** Unqualified results come import by import, in import order. */
  lemma ResolveUnqualifiedAppend(docs: seq<DocModule>, a: seq<Import>, b: seq<Import>, name: string)
    ensures Resolve(docs, a + b, Unqualified(name))
         == Resolve(docs, a, Unqualified(name)) + Resolve(docs, b, Unqualified(name))
  {
    var exposes := (imp: Import) => ExposesName(imp, name);
    var moduleOf := (imp: Import) => imp.moduleName;
    var search := (m: string) => SearchByModuleName(docs, m, name);
    FilterAppend(a, b, exposes);
    MapAppend(Filter(a, exposes), Filter(b, exposes), moduleOf);
    FlatMapAppend(ModulesToSearch(a, name), ModulesToSearch(b, name), search);
  }

  /**
   * One import contributes to an unqualified query exactly when it exposes
   * `..` or an entry starting with the name; it then contributes the search
   * of its module. An import without an exposing list never contributes.
   */
  lemma ResolveUnqualifiedOne(docs: seq<DocModule>, imp: Import, name: string)
    ensures Resolve(docs, [imp], Unqualified(name))
         == if ExposesName(imp, name) then SearchByModuleName(docs, imp.moduleName, name) else []
  {
    var exposes := (i: Import) => ExposesName(i, name);
    var search := (m: string) => SearchByModuleName(docs, m, name);
    assert Filter([imp], exposes) == if ExposesName(imp, name) then [imp] else [];
    if ExposesName(imp, name) {
      assert ModulesToSearch([imp], name) == [imp.moduleName];
      FlatMapSingle(imp.moduleName, search);
    } else {
      assert ModulesToSearch([imp], name) == [];
    }
  }

  /** A result of an unqualified query comes from the module of some import that exposes the name, and each such result is found. */
  lemma ResolveUnqualifiedMembership(docs: seq<DocModule>, imports: seq<Import>, name: string, x: SearchResult)
    ensures x in Resolve(docs, imports, Unqualified(name))
        <==> exists imp :: imp in imports && ExposesName(imp, name) && x in SearchByModuleName(docs, imp.moduleName, name)
  {
    var exposes := (imp: Import) => ExposesName(imp, name);
    var moduleOf := (imp: Import) => imp.moduleName;
    var exposing := Filter(imports, exposes);
    if x in Resolve(docs, imports, Unqualified(name)) {
      var m :| m in ModulesToSearch(imports, name) && x in SearchByModuleName(docs, m, name);
      MapMembership(exposing, moduleOf, m);
      var imp :| imp in exposing && m == imp.moduleName;
      assert imp in imports && ExposesName(imp, name);
    }
    if exists imp :: imp in imports && ExposesName(imp, name) && x in SearchByModuleName(docs, imp.moduleName, name) {
      var imp :| imp in imports && ExposesName(imp, name) && x in SearchByModuleName(docs, imp.moduleName, name);
      assert imp in exposing;
      MapMembership(exposing, moduleOf, imp.moduleName);
    }
  }

  /** No record of the prelude carries the alias `List`. */
  lemma NoListAlias()
    ensures forall i :: i in PreludeImports() ==> i.alias != "List"
  {
  }

  /** With the prelude alone, `List.map` finds nothing: the prelude's `List` line gives no record. */
  lemma PreludeHasNoListAlias(docs: seq<DocModule>, name: string)
    ensures Resolve(docs, Imports(PreludeText()), Qualified("List", name)) == []
  {
    var imports := Imports(PreludeText());
    assert imports == PreludeImports() by { PreludeAlone(); }
    NoListAlias();
    ResolveUnknownAlias(docs, imports, "List", name);
  }

  /** Among the prelude's records, `String` is the first with the alias `String`. */
  lemma StringAliasRecord(docs: seq<DocModule>, name: string)
    ensures Resolve(docs, PreludeImports(), Qualified("String", name)) == SearchByModuleName(docs, "String", name)
  {
    var p := PreludeImports();
    assert p[0].alias != "String";
    assert p == [p[0]] + [p[1]] + p[2..];
    ResolveFirstAlias(docs, [p[0]], p[1], p[2..], "String", name);
  }

  /** With the prelude alone, `String.` queries search the `String` module. */
  lemma PreludeStringAlias(docs: seq<DocModule>, name: string)
    ensures Resolve(docs, Imports(PreludeText()), Qualified("String", name))
         == SearchByModuleName(docs, "String", name)
  {
    PreludeAlone();
    StringAliasRecord(docs, name);
  }
}
