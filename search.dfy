/**
 * The documentation of the project's dependencies as the program reads it
 * from `documentation.json`, and the search of one module's values by the
 * start of their names (`searchByModuleName`).
 */
module DocSearch {
  import opened Text
  import opened Seqs

  /** One documented value: its name, its doc comment and its type signature (`type`). */
  datatype DocValue = DocValue(name: string, comment: string, signature: string)

  /** One documented module. */
  datatype DocModule = DocModule(name: string, comment: string, values: seq<DocValue>)

  /** One entry of the printed result, in the shape elm-oracle prints. */
  datatype SearchResult = SearchResult(
    name: string,
    fullName: string,
    href: string,
    signature: string,
    comment: string)

  /** Every result links to the same page, whatever the value. */
  const Href: string := "http://elm-lang.org"

  /** The result for value `v` of the module named `moduleName`. */
  function ResultFor(moduleName: string, v: DocValue): SearchResult {
    SearchResult(v.name, moduleName + "." + v.name, Href, v.signature, v.comment)
  }

  /** The results for the values of one module whose names start with `name`, in the module's order. */
  function ModuleResults(doc: DocModule, moduleName: string, name: string): seq<SearchResult> {
    Map(Filter(doc.values, (v: DocValue) => StartsWith(v.name, name)), (v: DocValue) => ResultFor(moduleName, v))
  }

  /**
   * Every module of `docs` named `moduleName`, in order, contributes the
   * results for its values whose names start with `name`. Every result is
   * a value of that module: its full name is the module's name, a dot and
   * the value's name, and the value's name starts with `name`.
   */
  function SearchByModuleName(docs: seq<DocModule>, moduleName: string, name: string): (r: seq<SearchResult>)
    ensures forall x :: x in r ==> x.fullName == moduleName + "." + x.name && StartsWith(x.name, name) && x.href == Href
  {
    var found := FlatMap(Filter(docs, (d: DocModule) => d.name == moduleName), (d: DocModule) => ModuleResults(d, moduleName, name));
    forall x | x in found
      ensures x.fullName == moduleName + "." + x.name && StartsWith(x.name, name) && x.href == Href
    {
      var d :| d in docs && d.name == moduleName && x in ModuleResults(d, moduleName, name);
      var values := Filter(d.values, (v: DocValue) => StartsWith(v.name, name));
      MapMembership(values, (v: DocValue) => ResultFor(moduleName, v), x);
    }
    found
  }

  /** The module named `moduleName` in `docs` holds a value named by `v` with the wanted prefix. */
  predicate Matches(docs: seq<DocModule>, moduleName: string, name: string, v: DocValue) {
    exists d :: d in docs && d.name == moduleName && v in d.values && StartsWith(v.name, name)
  }

  /**
   * The results are exactly the results for the values, with names starting
   * with `name`, of the modules of `docs` named `moduleName`.
   */
  lemma SearchMembership(docs: seq<DocModule>, moduleName: string, name: string, x: SearchResult)
    ensures x in SearchByModuleName(docs, moduleName, name)
        <==> exists v :: Matches(docs, moduleName, name, v) && x == ResultFor(moduleName, v)
  {
    var pick := (v: DocValue) => StartsWith(v.name, name);
    var toResult := (v: DocValue) => ResultFor(moduleName, v);
    if x in SearchByModuleName(docs, moduleName, name) {
      var d :| d in docs && d.name == moduleName && x in ModuleResults(d, moduleName, name);
      MapMembership(Filter(d.values, pick), toResult, x);
      var v :| v in Filter(d.values, pick) && x == toResult(v);
      assert Matches(docs, moduleName, name, v);
    }
    if exists v :: Matches(docs, moduleName, name, v) && x == ResultFor(moduleName, v) {
      var v :| Matches(docs, moduleName, name, v) && x == ResultFor(moduleName, v);
      var d :| d in docs && d.name == moduleName && v in d.values && StartsWith(v.name, name);
      MapMembership(Filter(d.values, pick), toResult, x);
      assert x in ModuleResults(d, moduleName, name);
      assert d in Filter(docs, (d: DocModule) => d.name == moduleName);
    }
  }

  /** Searching documentation read from several packages gives each package's results in turn. */
  lemma SearchAppend(a: seq<DocModule>, b: seq<DocModule>, moduleName: string, name: string)
    ensures SearchByModuleName(a + b, moduleName, name)
        == SearchByModuleName(a, moduleName, name) + SearchByModuleName(b, moduleName, name)
  {
    var named := (d: DocModule) => d.name == moduleName;
    var results := (d: DocModule) => ModuleResults(d, moduleName, name);
    FilterAppend(a, b, named);
    FlatMapAppend(Filter(a, named), Filter(b, named), results);
  }

  /** A module that is not documented gives no results. */
  lemma SearchUnknownModule(docs: seq<DocModule>, moduleName: string, name: string)
    requires forall d :: d in docs ==> d.name != moduleName
    ensures SearchByModuleName(docs, moduleName, name) == []
  {
    var named := (d: DocModule) => d.name == moduleName;
    assert Filter(docs, named) == [] by {
      if Filter(docs, named) != [] {
        assert Filter(docs, named)[0] in Filter(docs, named);
      }
    }
  }

  /** With an empty name, a module's search lists all its values, in order. */
  lemma SearchWholeModule(d: DocModule)
    ensures SearchByModuleName([d], d.name, []) == Map(d.values, (v: DocValue) => ResultFor(d.name, v))
  {
    var pick := (v: DocValue) => StartsWith(v.name, []);
    FilterAll(d.values, pick);
    assert Filter([d], (e: DocModule) => e.name == d.name) == [d];
    FlatMapSingle(d, (e: DocModule) => ModuleResults(e, d.name, []));
  }
}
