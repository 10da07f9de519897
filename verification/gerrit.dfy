/** The `Gerrit` client of gerritlib: the query string of a `/changes/` call,
    the decision whether the call carries credentials, and how the answer of
    the transport becomes a result. The transport (`Call`) and the JSON
    decoders are parameters; the model keeps only the decisions around them. */
module Gerrit {
  import opened Wrappers

  predicate EndsWith(s: string, suffix: string) {
    |suffix| <= |s| && s[|s| - |suffix|..] == suffix
  }

  predicate EndsWithChar(s: string, c: char) {
    |s| > 0 && s[|s| - 1] == c
  }

  /** `str::trim_right_matches` with a single character: drop the whole run
      of `c` at the end of `s`. */
  function TrimEndMatches(s: string, c: char): (r: string)
    ensures r <= s
    ensures !EndsWithChar(r, c)
    ensures forall k | |r| <= k < |s| :: s[k] == c
    decreases |s|
  {
    if EndsWithChar(s, c) then TrimEndMatches(s[..|s| - 1], c) else s
  }

  /** The sum of the lengths of the strings, first to last. */
  function TotalLength(parts: seq<string>): nat {
    if |parts| == 0 then 0 else TotalLength(parts[..|parts| - 1]) + |parts[|parts| - 1]|
  }

  // ---------------------------------------------------------------------------
  // Changes::build_url

  /** Every term followed by one '+', in order: the string the loop of
      `build_url` has built before it trims. */
  function Suffixed(querylist: seq<string>): (r: string)
    ensures |r| == TotalLength(querylist) + |querylist|
    ensures |querylist| > 0 ==> EndsWithChar(r, '+')
    decreases |querylist|
  {
    if |querylist| == 0 then []
    else Suffixed(querylist[..|querylist| - 1]) + querylist[|querylist| - 1] + "+"
  }

  /** The terms with a single '+' between neighbours: the reference reading
      of "joining search terms with '+'". */
  function Join(querylist: seq<string>): string {
    if |querylist| == 0 then []
    else if |querylist| == 1 then querylist[0]
    else Join(querylist[..|querylist| - 1]) + "+" + querylist[|querylist| - 1]
  }

  /** `Changes::build_url`: append every term and a '+', then, if the text
      ends with '+', trim all trailing '+' characters (not just one).
      The result is the concatenation with its maximal trailing run of '+'
      removed: a prefix of it, not ending with '+', followed in it only by
      '+' characters. These three facts determine the result. */
  function BuildUrl(querylist: seq<string>): (r: string)
    ensures r <= Suffixed(querylist)
    ensures !EndsWithChar(r, '+')
    ensures forall k | |r| <= k < |Suffixed(querylist)| :: Suffixed(querylist)[k] == '+'
  {
    var out := Suffixed(querylist);
    if EndsWithChar(out, '+') then TrimEndMatches(out, '+') else out
  }

  /** A string is the trimmed form of `s` exactly when it is a prefix of `s`,
      does not end with `c`, and only `c` follows it in `s`. */
  lemma TrimmedFormIsUnique(s: string, c: char, r1: string, r2: string)
    requires r1 <= s && !EndsWithChar(r1, c) && forall k | |r1| <= k < |s| :: s[k] == c
    requires r2 <= s && !EndsWithChar(r2, c) && forall k | |r2| <= k < |s| :: s[k] == c
    ensures r1 == r2
  {
  }

  lemma {:induction false} SuffixedIsJoinPlus(querylist: seq<string>)
    requires |querylist| > 0
    ensures Suffixed(querylist) == Join(querylist) + "+"
    decreases |querylist|
  {
    if |querylist| > 1 {
      SuffixedIsJoinPlus(querylist[..|querylist| - 1]);
    }
  }

  /** The test of `build_url` in gerrit.rs. */
  lemma BuildUrlExamples()
    ensures BuildUrl([]) == ""
    ensures BuildUrl(["a:1", "b:2"]) == "a:1+b:2"
    ensures BuildUrl(["a:1"]) == "a:1"
  {
    SuffixedStep([], "a:1");
    SuffixedStep(["a:1"], "b:2");
    assert Suffixed(["a:1"]) == "a:1+";
    assert Suffixed(["a:1", "b:2"]) == "a:1+b:2+";
    TrimmedFormIsUnique("a:1+b:2+", '+', BuildUrl(["a:1", "b:2"]), "a:1+b:2");
    TrimmedFormIsUnique("a:1+", '+', BuildUrl(["a:1"]), "a:1");
  }

  lemma {:induction false} SuffixedStep(querylist: seq<string>, x: string)
    ensures Suffixed(querylist + [x]) == Suffixed(querylist) + x + "+"
  {
    assert (querylist + [x])[..|querylist|] == querylist;
  }

  /** Trailing empty terms and terms made of '+' vanish with the trim: the
      whole run of '+' goes, not a single separator. */
  lemma BuildUrlTrimsWholeRun()
    ensures BuildUrl(["a:1", ""]) == "a:1"
    ensures BuildUrl(["+"]) == ""
  {
    SuffixedStep([], "a:1");
    SuffixedStep(["a:1"], "");
    SuffixedStep([], "+");
    assert Suffixed(["a:1", ""]) == "a:1++";
    assert Suffixed(["+"]) == "++";
    TrimmedFormIsUnique("a:1++", '+', BuildUrl(["a:1", ""]), "a:1");
    TrimmedFormIsUnique("++", '+', BuildUrl(["+"]), "");
  }

  /** When the last term is non-empty and does not end with '+' (in
      particular when no term is empty or ends with '+'), `build_url` is the
      plain join of the terms with '+'. */
  lemma BuildUrlIsJoin(querylist: seq<string>)
    requires |querylist| > 0 ==> querylist[|querylist| - 1] != ""
    requires |querylist| > 0 ==> !EndsWithChar(querylist[|querylist| - 1], '+')
    ensures BuildUrl(querylist) == Join(querylist)
  {
    if |querylist| > 0 {
      SuffixedIsJoinPlus(querylist);
      var j := Join(querylist);
      var last := querylist[|querylist| - 1];
      assert EndsWithChar(j, last[|last| - 1]) by {
        if |querylist| > 1 {
          assert j == Join(querylist[..|querylist| - 1]) + "+" + last;
        }
      }
      TrimmedFormIsUnique(Suffixed(querylist), '+', BuildUrl(querylist), j);
    }
  }

  // ---------------------------------------------------------------------------
  // Gerrit::changes, before the call

  const QueryPrefix: string := "pp=0&q="

  /** The query string of `Gerrit::changes`: `pp=0&q=`, followed by the built
      fragment when a query list is given. */
  function QueryString(querylist: Option<seq<string>>): (r: string)
    ensures QueryPrefix <= r
    ensures !EndsWithChar(r, '+')
    ensures querylist.None? ==> r == QueryPrefix
    ensures querylist.Some? ==> r[|QueryPrefix|..] == BuildUrl(querylist.value)
  {
    match querylist
    case None => QueryPrefix
    case Some(x) => QueryPrefix + BuildUrl(x)
  }

  datatype Credentials = Credentials(username: string, password: string)

  /** The state of the transport `Call` the model needs: its base url and the
      credentials it carries, if any were set. */
  datatype Call = Call(url: string, credentials: Option<Credentials>)

  datatype Gerrit = Gerrit(call: Call)

  /** `Gerrit::new`: a transport for `url` with no credentials. */
  function NewGerrit(url: string): (g: Gerrit)
    ensures g.call.url == url && g.call.credentials.None?
  {
    Gerrit(Call(url, None))
  }

  /** The GET request `Gerrit::changes` hands to the transport. */
  datatype Request = Request(gerrit: Gerrit, path: string, query: string)

  /** The front half of `Gerrit::changes`: the query string, and credentials
      set on the transport only when both username and password are
      non-empty; otherwise the transport keeps whatever it carried. */
  function ChangesRequest(g: Gerrit, querylist: Option<seq<string>>, username: string, password: string): (req: Request)
    ensures req.path == "/changes/"
    ensures req.query == QueryString(querylist)
    ensures req.gerrit.call.url == g.call.url
    ensures username != "" && password != "" ==>
              req.gerrit.call.credentials == Some(Credentials(username, password))
    ensures username == "" || password == "" ==>
              req.gerrit.call.credentials == g.call.credentials
  {
    var call := if username != "" && password != ""
                then g.call.(credentials := Some(Credentials(username, password)))
                else g.call;
    Request(Gerrit(call), "/changes/", QueryString(querylist))
  }

  /** On a fresh client the call is authenticated exactly when both
      username and password are non-empty. */
  lemma CredentialsSetIffBothGiven(url: string, querylist: Option<seq<string>>, username: string, password: string)
    ensures ChangesRequest(NewGerrit(url), querylist, username, password).gerrit.call.credentials.Some?
            <==> username != "" && password != ""
  {
  }

  // ---------------------------------------------------------------------------
  // Gerrit::changes, after the call

  /** What the transport answered: the call failed, or it returned a response
      whose body, a list of chunks, may be missing. */
  datatype CallOutcome = CallFailed | Answered(body: Option<seq<string>>)

  /** The errors `Gerrit::changes` can return: a general error carrying a
      message, or the JSON parser's error. */
  datatype GgrError = General(message: string) | JsonParse(message: string)

  /** `entities::ChangeInfos`: the typed changes and, when a body was
      decoded, the raw JSON tree of the same body. */
  datatype ChangeInfos<C, J> = ChangeInfos(changes: seq<C>, json: Option<J>)

  /** `ChangeInfos::new()`. */
  function EmptyChangeInfos<C, J>(): (e: ChangeInfos<C, J>)
    ensures |e.changes| == 0 && e.json.None?
  {
    ChangeInfos([], None)
  }

  /** The body text: the chunks concatenated in order, as the fold in
      `Gerrit::changes` builds it. */
  function BodyText(chunks: seq<string>): (r: string)
    ensures |r| == TotalLength(chunks)
    decreases |chunks|
  {
    if |chunks| == 0 then "" else BodyText(chunks[..|chunks| - 1]) + chunks[|chunks| - 1]
  }

  /** Concatenating two chunk lists concatenates their texts. */
  lemma {:induction false} BodyTextAppend(a: seq<string>, b: seq<string>)
    ensures BodyText(a + b) == BodyText(a) + BodyText(b)
    decreases |b|
  {
    if |b| > 0 {
      assert (a + b)[..|a + b| - 1] == a + b[..|b| - 1];
      assert (a + b)[|a + b| - 1] == b[|b| - 1];
      BodyTextAppend(a, b[..|b| - 1]);
      calc {
        BodyText(a + b);
        BodyText(a + b[..|b| - 1]) + b[|b| - 1];
        BodyText(a) + BodyText(b[..|b| - 1]) + b[|b| - 1];
      }
    } else {
      assert a + b == a;
    }
  }

  lemma {:induction false} BodyTextStep(chunks: seq<string>, x: string)
    ensures BodyText(chunks + [x]) == BodyText(chunks) + x
  {
    assert (chunks + [x])[..|chunks|] == chunks;
  }

  /** Every chunk appears in the body text, in order, right after the text
      of the chunks before it. */
  lemma {:induction false} BodyTextChunkAt(chunks: seq<string>, i: nat)
    requires i < |chunks|
    ensures BodyText(chunks) == BodyText(chunks[..i]) + chunks[i] + BodyText(chunks[i + 1..])
  {
    var before, x, after := chunks[..i], chunks[i], chunks[i + 1..];
    assert chunks == before + [x] + after;
    BodyTextAppend(before + [x], after);
    BodyTextStep(before, x);
  }

  /** The answer of `Gerrit::changes` for a transport outcome. `decodeTyped`
      stands for the typed decode into a list of changes (its error is the
      decoder's description), `decodeRaw` for the parse into a JSON tree. */
  function ChangesResponse<C, J>(outcome: CallOutcome,
                                 decodeTyped: string -> Result<seq<C>, string>,
                                 decodeRaw: string -> Result<J, string>): (r: Result<ChangeInfos<C, J>, GgrError>)
    ensures outcome.CallFailed? ==> r == Success(EmptyChangeInfos())
    ensures outcome.Answered? && outcome.body.None? ==> r == Success(EmptyChangeInfos())
    ensures outcome.Answered? && outcome.body.Some? ==>
              var text := BodyText(outcome.body.value);
              && (r.Success? <==> decodeTyped(text).Success? && decodeRaw(text).Success?)
              && (r.Success? ==> r.value == ChangeInfos(decodeTyped(text).value, Some(decodeRaw(text).value)))
              && (decodeTyped(text).Failure? ==>
                    r.Failure? && r.error.General? && EndsWith(r.error.message, text))
              && (decodeTyped(text).Success? && decodeRaw(text).Failure? ==>
                    r == Failure(JsonParse(decodeRaw(text).error)))
  {
    match outcome
    case CallFailed => Success(EmptyChangeInfos())
    case Answered(None) => Success(EmptyChangeInfos())
    case Answered(Some(chunks)) =>
      var text := BodyText(chunks);
      match decodeTyped(text)
      case Failure(description) => Failure(General(description + ": " + text))
      case Success(changes) =>
        match decodeRaw(text)
        case Failure(e) => Failure(JsonParse(e))
        case Success(tree) => Success(ChangeInfos(changes, Some(tree)))
  }

  /** The call succeeds, in the sense of `Ok`, unless a body was received
      and one of its two decodes failed: a failed call is not an error. */
  lemma ChangesFailsOnlyOnDecode<C, J>(outcome: CallOutcome,
                                       decodeTyped: string -> Result<seq<C>, string>,
                                       decodeRaw: string -> Result<J, string>)
    ensures ChangesResponse(outcome, decodeTyped, decodeRaw).Failure? <==>
              outcome.Answered? && outcome.body.Some? &&
              (decodeTyped(BodyText(outcome.body.value)).Failure? || decodeRaw(BodyText(outcome.body.value)).Failure?)
  {
  }
}
