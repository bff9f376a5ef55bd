/**
 * The classification of the user's query (`classifyQuery`): a name on its
 * own, or a name qualified by everything before the query's last dot.
 */
module QueryClassifier {
  import opened Text

  /**
   * `{ name }` or `{ module, name }`. The qualifier is kept even when it is
   * empty; the resolver decides what an empty qualifier means.
   */
  datatype Query =
    | Unqualified(name: string)
    | Qualified(qualifier: string, name: string)

  /** The query text a classification stands for. */
  function QueryText(q: Query): string {
    match q
    case Unqualified(n) => n
    case Qualified(m, n) => m + "." + n
  }

  /**
   * Split the query at every dot: one piece is a plain name; otherwise the
   * last piece is the name and the other pieces, joined again with dots,
   * are the qualifier. `split` never returns an empty array, so the error
   * branch of the source cannot be taken.
   */
  function ClassifyQuery(query: string): (q: Query)
    ensures q.Unqualified? <==> '.' !in query
    ensures q.Unqualified? ==> q.name == query
    ensures q.Qualified? ==> q.qualifier + "." + q.name == query && '.' !in q.name
  {
    var parts := Split(query, '.');
    SplitSinglePiece(query, '.');
    if |parts| == 1 then Unqualified(query)
    else
      JoinSplit(query, '.');
      JoinLast(parts, '.');
      Qualified(Join(parts[..|parts| - 1], '.'), parts[|parts| - 1])
  }

  /** The qualifier is everything before the last dot, whatever dots it holds itself. */
  lemma ClassifyQualified(qualifier: string, name: string)
    requires '.' !in name
    ensures ClassifyQuery(qualifier + "." + name) == Qualified(qualifier, name)
  {
    var query := qualifier + "." + name;
    assert query[|qualifier|] == '.';
    var q := ClassifyQuery(query);
    LastSeparator(q.qualifier, q.name, qualifier, name, '.');
  }

  /** `.map` has an empty qualifier. */
  lemma ClassifyLeadingDot()
    ensures ClassifyQuery(".map") == Qualified("", "map")
  {
    ClassifyQualified("", "map");
  }

  /** `List.` has an empty name, which every value name starts with. */
  lemma ClassifyTrailingDot()
    ensures ClassifyQuery("List.") == Qualified("List", "")
  {
    ClassifyQualified("List", "");
  }
}
