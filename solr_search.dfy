/**
 * The query side of `search_solr` (app.py): from the request's `query` and
 * `search_option` arguments to the Solr query string, or to no search at
 * all. What Solr then matches, and in what order, is Solr's business.
 */
module SolrSearch {
  import opened Wrappers

  /** The option the search form selects when the request names none. */
  const DefaultSearchOption := "filename"

  /** The two Solr fields the application searches. */
  const IdField := "id"
  const ContentField := "content"

  /** `request.args.get('search_option', 'filename')`. */
  function SearchOption(args: map<string, string>): (option: string)
    ensures "search_option" !in args ==> option == DefaultSearchOption
    ensures "search_option" in args ==> option == args["search_option"]
  {
    if "search_option" in args then args["search_option"] else DefaultSearchOption
  }

  /** `'id' if search_option == 'filename' else 'content'`: only the exact
      string `filename` selects the id field; any other value, unknown ones
      included, searches the content. */
  function FieldFor(option: string): (field: string)
    ensures field == IdField || field == ContentField
    ensures field == IdField <==> option == "filename"
  {
    if option == "filename" then IdField else ContentField
  }

  /** The f-string `f"{field}:(*{query}*)"`; the term goes in unescaped. */
  function BuildQuery(field: string, term: string): (q: string)
    ensures |q| == |field| + |term| + 5
    ensures q[..|field|] == field && q[|field|..|field| + 3] == ":(*"
    ensures q[|field| + 3..|q| - 2] == term && q[|q| - 2..] == "*)"
  {
    field + ":(*" + term + "*)"
  }

  /** Reads a query string of the shape `BuildQuery` produces back into its
      field and term. */
  function ParseQuery(q: string): (parsed: Option<(string, string)>) {
    if |q| >= 7 && q[..5] == "id:(*" && q[|q| - 2..] == "*)" then
      Some((IdField, q[5..|q| - 2]))
    else if |q| >= 12 && q[..10] == "content:(*" && q[|q| - 2..] == "*)" then
      Some((ContentField, q[10..|q| - 2]))
    else
      None
  }

  /** Every query built for one of the two fields reads back as that field
      and exactly the user's term, whatever characters the term holds. */
  lemma QueryRoundTrip(field: string, term: string)
    requires field == IdField || field == ContentField
    ensures ParseQuery(BuildQuery(field, term)) == Some((field, term))
  {
    var q := BuildQuery(field, term);
    var n := |field| + 3;
    assert q[..n] == field + ":(*";
    assert q[|q| - 2..] == "*)";
    assert q[n..|q| - 2] == term;
    if field == IdField {
      assert q[..5] == "id:(*";
    } else {
      assert q[..5] != "id:(*" by { assert q[0] == 'c'; }
      assert q[..10] == "content:(*";
    }
  }

  /** ...and every string that reads back is the query built from what it
      reads back as. */
  lemma ParsedQueryRebuilds(q: string)
    requires ParseQuery(q).Some?
    ensures ParseQuery(q).value.0 == IdField || ParseQuery(q).value.0 == ContentField
    ensures BuildQuery(ParseQuery(q).value.0, ParseQuery(q).value.1) == q
  {
    var (field, term) := ParseQuery(q).value;
    var n := |field| + 3;
    assert q == q[..n] + q[n..|q| - 2] + q[|q| - 2..];
  }

  /** The Solr query the request leads to; `None` when the request has no
      `query` argument, in which case Solr is not called. */
  function SolrQuery(args: map<string, string>): (q: Option<string>)
    ensures q.None? <==> "query" !in args
    ensures q.Some? ==> ParseQuery(q.value) == Some((FieldFor(SearchOption(args)), args["query"]))
  {
    if "query" in args then
      var field := FieldFor(SearchOption(args));
      QueryRoundTrip(field, args["query"]);
      Some(BuildQuery(field, args["query"]))
    else
      None
  }

  /** The values `search_solr` hands to the search form. */
  datatype SearchPage = SearchPage(results: seq<string>, query: Option<string>, searchOption: string)

  /** What `search_solr` answers: the rendered form, or the server error that
      an exception escaping `solr.search` becomes. */
  datatype SearchAnswer = Rendered(page: SearchPage) | SearchServerError

  /** `search_solr`, with Solr's search passed in as `solr`: it gives the
      matching document ids, or `None` when `solr.search` raises (no
      connection, a timeout, or a query Solr cannot parse). With no query,
      Solr is not asked and the result list is empty. The page echoes the
      query and the option back. */
  function SearchSolr(args: map<string, string>, solr: string -> Option<seq<string>>): (answer: SearchAnswer)
    ensures "query" !in args ==>
      answer == Rendered(SearchPage([], None, SearchOption(args)))
    ensures "query" in args ==>
      var reply := solr(BuildQuery(FieldFor(SearchOption(args)), args["query"]));
      (reply.None? <==> answer == SearchServerError) &&
      (reply.Some? ==> answer == Rendered(SearchPage(reply.value, Some(args["query"]), SearchOption(args))))
  {
    match SolrQuery(args)
    case None => Rendered(SearchPage([], None, SearchOption(args)))
    case Some(q) =>
      match solr(q)
      case None => SearchServerError
      case Some(results) => Rendered(SearchPage(results, Some(args["query"]), SearchOption(args)))
  }

  /** A term Solr cannot parse, such as `(`, is sent all the same (as
      `id:(*(*)`), so whether the user sees results or a server error is
      Solr's answer to that string. */
  lemma UnbalancedTermIsSentAsIs(solr: string -> Option<seq<string>>)
    requires solr("id:(*(*)").None?
    ensures SolrQuery(map["query" := "("]) == Some("id:(*(*)")
    ensures SearchSolr(map["query" := "("], solr) == SearchServerError
  {
    var args := map["query" := "("];
    assert SearchOption(args) == DefaultSearchOption;
    assert BuildQuery(IdField, "(") == "id:(*(*)";
  }

  /** With no `search_option`, a query searches the id field, which holds
      the file names. */
  lemma DefaultSearchesFilenames(args: map<string, string>)
    requires "query" in args && "search_option" !in args
    ensures SolrQuery(args) == Some(BuildQuery(IdField, args["query"]))
    ensures ParseQuery(SolrQuery(args).value).value.0 == IdField
  {
  }

  /** An empty `query` is still a query: Solr is asked for `field:(**)`. */
  lemma EmptyQueryStillSearches(args: map<string, string>)
    requires "query" in args && args["query"] == ""
    ensures SolrQuery(args) == Some(FieldFor(SearchOption(args)) + ":(**)")
  {
    var field := FieldFor(SearchOption(args));
    assert BuildQuery(field, "") == field + ":(**)";
  }

  /** Two different terms never give the same query on one field. */
  lemma {:induction false} BuildQueryInjective(field: string, t1: string, t2: string)
    requires field == IdField || field == ContentField
    requires BuildQuery(field, t1) == BuildQuery(field, t2)
    ensures t1 == t2
  {
    QueryRoundTrip(field, t1);
    QueryRoundTrip(field, t2);
  }

  /** The term is not escaped: a term can close the wildcard group and add
      clauses of its own, so a search for `x*) OR content:(*y` on the
      filename field sends Solr a two-clause query over both fields. */
  lemma UnescapedTermAddsClauses()
    ensures BuildQuery(IdField, "x*) OR content:(*y")
         == BuildQuery(IdField, "x") + " OR " + BuildQuery(ContentField, "y")
  {
  }

  /** Searching the content field for `Revenue` asks Solr for
      `content:(*Revenue*)`. */
  lemma ContentSearchExample()
    ensures SolrQuery(map["query" := "Revenue", "search_option" := "content"])
         == Some("content:(*Revenue*)")
  {
    var args := map["query" := "Revenue", "search_option" := "content"];
    assert SearchOption(args) == "content";
    assert FieldFor("content") == ContentField;
    assert BuildQuery(ContentField, "Revenue") == "content:(*Revenue*)";
  }
}
