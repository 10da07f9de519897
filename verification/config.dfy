/** The `Config` value of the command-line tool: its defaults, its validity
    rule, its accessors and the two ways it renders the server url. */
module Config {
  import opened Decimal

  /** Rust's `u16`. */
  newtype U16 = x: int | 0 <= x < 0x1_0000

  datatype Config = Config(
    scheme: string,   // http, https, ...
    base: string,     // host name, e.g. localhost
    port: U16,        // port of the http endpoint
    appendix: string, // a root url path
    username: string,
    password: string,
    root: bool        // the repository is the topmost one
  )

  /** `Config::default()`. */
  function Default(): Config {
    Config("", "", 80, "", "", "", true)
  }

  /** `Config::is_valid`: a config is usable only when scheme and base are set. */
  predicate IsValid(c: Config) {
    !(c.scheme == "" || c.base == "")
  }

  function GetUsername(c: Config): string {
    c.username
  }

  function GetPassword(c: Config): string {
    c.password
  }

  /** `scheme://base:port/` with the port in decimal, the part both url
      renderings share. */
  function Origin(c: Config): string {
    c.scheme + "://" + c.base + ":" + Dec(c.port as nat) + "/"
  }

  /** `Config::get_base_url`: the origin, then the appendix followed by '/'
      when the appendix is set. */
  function GetBaseUrl(c: Config): (r: string)
    ensures |r| > 0 && r[|r| - 1] == '/'
    ensures Origin(c) <= r
    ensures c.appendix == "" <==> r == Origin(c)
    ensures c.appendix != "" ==> r[|Origin(c)|..] == c.appendix + "/"
  {
    var appe := if c.appendix == "" then "" else c.appendix + "/";
    c.scheme + "://" + c.base + ":" + Dec(c.port as nat) + "/" + appe
  }

  const UrlLabel: string := "* url ......... : "
  const UserPassLabel: string := "  user/pass ... : "
  const RootLabel: string := "  root ........ : "

  /** The url on the first `Display` line: the appendix as it is, with no
      slash after it. */
  function DisplayUrl(c: Config): string {
    Origin(c) + c.appendix
  }

  function BoolText(b: bool): string {
    if b then "true" else "false"
  }

  function UrlLine(c: Config): string {
    UrlLabel + DisplayUrl(c)
  }

  /** The username, then the password in double quotes. */
  function UserPassLine(c: Config): string {
    UserPassLabel + c.username + " / \"" + c.password + "\""
  }

  function RootLine(c: Config): string {
    RootLabel + BoolText(c.root)
  }

  /** The text of `impl Display for Config`: three lines, url, user and
      quoted password, root flag; no newline after the last. */
  function DisplayText(c: Config): (r: string)
    ensures UrlLabel + DisplayUrl(c) + "\n" <= r
    ensures c.root ==> r[|r| - 4..] == "true"
    ensures !c.root ==> r[|r| - 5..] == "false"
  {
    UrlLine(c) + "\n" + (UserPassLine(c) + "\n" + RootLine(c))
  }

  /** Validity depends on scheme and base only: port, appendix, username,
      password and root never change it. */
  lemma IsValidOnlySchemeAndBase(c: Config, d: Config)
    requires c.scheme == d.scheme && c.base == d.base
    ensures IsValid(c) == IsValid(d)
    ensures IsValid(c) <==> c.scheme != "" && c.base != ""
  {
  }

  /** The defaults: port 80, root set, every string empty; so the default
      config is not valid, and its base url is "://:80/". */
  lemma DefaultConfig()
    ensures Default().port == 80 && Default().root
    ensures Default().scheme == Default().base == Default().appendix == ""
    ensures Default().username == Default().password == ""
    ensures !IsValid(Default())
    ensures GetBaseUrl(Default()) == "://:80/"
  {
    assert Dec(80) == "80" by {
      assert Dec(8) == "8";
    }
  }

  /** The accessors hand back the stored credentials unchanged. */
  lemma AccessorsReturnFields(c: Config)
    ensures GetUsername(c) == c.username && GetPassword(c) == c.password
  {
  }

  /** The two renderings agree without an appendix; with one, `get_base_url`
      has one slash more than the `Display` url. */
  lemma BaseUrlVersusDisplayUrl(c: Config)
    ensures c.appendix == "" ==> GetBaseUrl(c) == DisplayUrl(c)
    ensures c.appendix != "" ==> GetBaseUrl(c) == DisplayUrl(c) + "/"
  {
  }

  /** Two configs that differ only in the port have different base urls:
      the url determines the port. */
  lemma {:induction false} BaseUrlDeterminesPort(c: Config, d: Config)
    requires c.scheme == d.scheme && c.base == d.base && c.appendix == d.appendix
    ensures GetBaseUrl(c) == GetBaseUrl(d) <==> c.port == d.port
  {
    if GetBaseUrl(c) == GetBaseUrl(d) {
      var head := c.scheme + "://" + c.base + ":";
      var tc := if c.appendix == "" then "" else c.appendix + "/";
      assert GetBaseUrl(c) == head + (Dec(c.port as nat) + ['/'] + tc);
      assert GetBaseUrl(d) == head + (Dec(d.port as nat) + ['/'] + tc);
      assert Dec(c.port as nat) + ['/'] + tc == GetBaseUrl(c)[|head|..];
      DecBeforeSeparator(c.port as nat, d.port as nat, '/', tc, tc);
    }
  }

  /** The text before the first newline. */
  function FirstLine(s: string): (r: string)
    ensures r <= s
    ensures '\n' !in r
    ensures |r| < |s| ==> s[|r|] == '\n'
  {
    if |s| == 0 || s[0] == '\n' then "" else [s[0]] + FirstLine(s[1..])
  }

  /** The text cut at every newline; a text without newline is one line. */
  function Lines(s: string): (ls: seq<string>)
    ensures |ls| > 0
    ensures forall i | 0 <= i < |ls| :: '\n' !in ls[i]
    decreases |s|
  {
    var f := FirstLine(s);
    if |f| == |s| then [s] else [f] + Lines(s[|f| + 1..])
  }

  lemma {:induction false} FirstLineOfLines(a: string, b: string)
    requires '\n' !in a
    ensures FirstLine(a + "\n" + b) == a
    decreases |a|
  {
    if |a| > 0 {
      assert (a + "\n" + b)[1..] == a[1..] + "\n" + b;
      FirstLineOfLines(a[1..], b);
    }
  }

  /** When scheme, base and appendix hold no newline, the first line of the
      `Display` text is the url label followed by the `Display` url. */
  lemma DisplayFirstLine(c: Config)
    requires '\n' !in c.scheme && '\n' !in c.base && '\n' !in c.appendix
    ensures FirstLine(DisplayText(c)) == UrlLabel + DisplayUrl(c)
  {
    UrlLineHasNoNewline(c);
    FirstLineOfLines(UrlLine(c), UserPassLine(c) + "\n" + RootLine(c));
  }

  lemma UrlLineHasNoNewline(c: Config)
    requires '\n' !in c.scheme && '\n' !in c.base && '\n' !in c.appendix
    ensures '\n' !in UrlLine(c)
  {
    var d := Dec(c.port as nat);
    assert forall i | 0 <= i < |d| :: d[i] != '\n';
  }

  lemma {:induction false} LinesOfLines(a: string, b: string)
    requires '\n' !in a
    ensures Lines(a + "\n" + b) == [a] + Lines(b)
  {
    FirstLineOfLines(a, b);
    assert (a + "\n" + b)[|a| + 1..] == b;
  }

  lemma LinesOfOneLine(a: string)
    requires '\n' !in a
    ensures Lines(a) == [a]
  {
  }

  /** When no string field holds a newline, the `Display` text is exactly
      three lines: the url, the username with the quoted password, and the
      root flag. */
  lemma DisplayLines(c: Config)
    requires '\n' !in c.scheme && '\n' !in c.base && '\n' !in c.appendix
    requires '\n' !in c.username && '\n' !in c.password
    ensures Lines(DisplayText(c)) == [UrlLine(c), UserPassLine(c), RootLine(c)]
    ensures UrlLine(c) == UrlLabel + DisplayUrl(c)
    ensures UserPassLine(c) == UserPassLabel + c.username + " / \"" + c.password + "\""
    ensures RootLine(c) == RootLabel + (if c.root then "true" else "false")
  {
    UrlLineHasNoNewline(c);
    assert '\n' !in UserPassLine(c);
    assert '\n' !in RootLine(c);
    LinesOfLines(UrlLine(c), UserPassLine(c) + "\n" + RootLine(c));
    LinesOfLines(UserPassLine(c), RootLine(c));
    LinesOfOneLine(RootLine(c));
  }
}
