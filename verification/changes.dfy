/** The `Query` accumulator of the `changes` command: an append-only list of
    search terms, passed on as they were given. */
module Changes {
  import opened Wrappers
  import Gerrit
  import Config

  datatype Query = Query(query: seq<string>)

  /** `Query::new`. */
  function NewQuery(): (q: Query)
    ensures |q.query| == 0
  {
    Query([])
  }

  /** `Query::add_str`: the term goes at the end, exactly as given; earlier
      terms stay where they were. No splitting at ':' and no check of the
      term's shape happen. */
  function AddStr(q: Query, x: string): (r: Query)
    ensures |r.query| == |q.query| + 1
    ensures forall i | 0 <= i < |q.query| :: r.query[i] == q.query[i]
    ensures r.query[|q.query|] == x
  {
    Query(q.query + [x])
  }

  /** `Query::get_query`. Being a function of the value, reading the terms
      leaves the query as it was. */
  function GetQuery(q: Query): seq<string> {
    q.query
  }

  /** `impl From<Vec<String>> for Query`: start from `new` and `add_str`
      every element in order. The terms come back in the same order and
      with the same multiplicity. */
  function FromVec(v: seq<string>): (q: Query)
    ensures GetQuery(q) == v
    decreases |v|
  {
    if |v| == 0 then NewQuery() else AddStr(FromVec(v[..|v| - 1]), v[|v| - 1])
  }

  /** Malformed terms are kept verbatim, and so is a term with several ':'. */
  lemma AddStrKeepsTermsVerbatim()
    ensures GetQuery(AddStr(NewQuery(), "x=y")) == ["x=y"]
    ensures GetQuery(AddStr(AddStr(NewQuery(), "a:b:c"), "x=y")) == ["a:b:c", "x=y"]
  {
  }

  /** The `changes query` command hands the user's terms to the client
      unchanged: the request's query string is `pp=0&q=` followed by the
      fragment `build_url` makes of exactly those terms. */
  lemma UserQueryString(g: Gerrit.Gerrit, v: seq<string>, username: string, password: string)
    ensures Gerrit.ChangesRequest(g, Some(GetQuery(FromVec(v))), username, password).query
            == Gerrit.QueryPrefix + Gerrit.BuildUrl(v)
  {
  }

  /** So, when the last term is non-empty and does not end with '+', the
      query string is `pp=0&q=` followed by the terms joined with '+'. */
  lemma UserQueryStringJoin(g: Gerrit.Gerrit, v: seq<string>, username: string, password: string)
    requires |v| > 0 ==> v[|v| - 1] != "" && !Gerrit.EndsWithChar(v[|v| - 1], '+')
    ensures Gerrit.ChangesRequest(g, Some(GetQuery(FromVec(v))), username, password).query
            == Gerrit.QueryPrefix + Gerrit.Join(v)
  {
    UserQueryString(g, v, username, password);
    Gerrit.BuildUrlIsJoin(v);
  }

  /** The `changes query` command builds its client from the config: the
      client talks to the config's base url and, on the query call, carries
      the config's credentials exactly when both are set. */
  lemma QueryRequestFromConfig(c: Config.Config, v: seq<string>)
    ensures var req := Gerrit.ChangesRequest(Gerrit.NewGerrit(Config.GetBaseUrl(c)), Some(GetQuery(FromVec(v))),
                                             Config.GetUsername(c), Config.GetPassword(c));
            && req.gerrit.call.url == Config.GetBaseUrl(c)
            && (req.gerrit.call.credentials.Some? <==> c.username != "" && c.password != "")
            && (req.gerrit.call.credentials.Some? ==>
                  req.gerrit.call.credentials.value == Gerrit.Credentials(c.username, c.password))
  {
  }
}
