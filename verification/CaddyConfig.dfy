/** Caddy site files: normalising a site and printing its configuration. */
module CaddyConfig {
  import opened Text
  import opened Tokens
  import opened PhpVersions

  const MARKER := "# Managed by Lara Nux"
  const FASTCGI := "\tphp_fastcgi unix/"

  datatype WebSite = WebSite(id: string, domain: string, rootPath: string, publicDir: string, socket: string)

  /** The checks that precede the look at the public directory. */
  predicate Complete(site: WebSite) {
    TrimSpace(site.domain) != "" && TrimSpace(site.rootPath) != "" && TrimSpace(site.socket) != ""
  }

  function PublicDirOf(site: WebSite): string {
    var dir := TrimSpace(site.publicDir);
    if dir == "" then site.rootPath + "/public" else dir
  }

  function NormalizeSite(site: WebSite): WebSite {
    site.(publicDir := PublicDirOf(site),
          id := SanitizeToken(FirstNonEmpty(site.id, site.domain)),
          domain := ToLower(TrimSpace(site.domain)))
  }

  function SiteToken(site: WebSite): string {
    SanitizeToken(FirstNonEmpty(site.id, site.domain))
  }

  function Hex(digit: nat): char
    requires digit < 16
  {
    if digit < 10 then ('0' as int + digit) as char else ('a' as int + digit - 10) as char
  }

  function EscapedChar(c: char): string {
    if c == '"' then "\\\""
    else if c == '\\' then "\\\\"
    else if c == '\n' then "\\n"
    else if c == '\r' then "\\r"
    else if c == '\t' then "\\t"
    else if c as int == 7 then "\\a"
    else if c as int == 8 then "\\b"
    else if c as int == 11 then "\\v"
    else if c as int == 12 then "\\f"
    else if c < ' ' || c as int == 127 then "\\x" + [Hex(c as int / 16), Hex(c as int % 16)]
    else [c]
  }

  function Escaped(s: string): string {
    if s == "" then "" else EscapedChar(s[0]) + Escaped(s[1..])
  }

  /** `%q` on ASCII text. */
  function Quoted(s: string): string {
    "\"" + Escaped(s) + "\""
  }

  function SiteBlock(scheme: string, site: WebSite, tls: seq<string>): seq<string> {
    [scheme + site.domain + " {"] + tls +
    ["\troot * " + Quoted(site.publicDir), "\tencode zstd gzip", FASTCGI + site.socket, "\tfile_server", "}"]
  }

  function SiteLines(site: WebSite): seq<string> {
    [MARKER] + SiteBlock("http://", site, []) + [""] + SiteBlock("https://", site, ["\ttls internal"]) + [""]
  }

  function RenderSite(site: WebSite): string {
    Join(SiteLines(site), "\n")
  }

  /** The FastCGI socket of a site, read back from its file. */
  function FastcgiSocket(config: string): Option<string> {
    ValueOf(Split(config, '\n'), FASTCGI)
  }

  lemma EscapedCharIsOneLine(c: char)
    ensures '\n' !in EscapedChar(c)
  {}

  lemma {:induction false} EscapedIsOneLine(s: string)
    ensures '\n' !in Escaped(s)
  {
    hide EscapedChar;
    if s != "" {
      EscapedCharIsOneLine(s[0]);
      EscapedIsOneLine(s[1..]);
    }
  }

  lemma BlockIsLines(scheme: string, site: WebSite, tls: seq<string>)
    requires '\n' !in scheme && '\n' !in site.domain && '\n' !in site.socket
    requires forall l | l in tls :: '\n' !in l
    ensures forall l | l in SiteBlock(scheme, site, tls) :: '\n' !in l
  {
    hide Escaped;
    EscapedIsOneLine(site.publicDir);
    assert '\n' !in FASTCGI + site.socket;
    assert '\n' !in "\troot * " + Quoted(site.publicDir);
    assert '\n' !in scheme + site.domain + " {";
  }

  lemma SiteIsLines(site: WebSite)
    requires '\n' !in site.domain && '\n' !in site.socket
    ensures forall l | l in SiteLines(site) :: '\n' !in l
  {
    hide SiteBlock;
    BlockIsLines("http://", site, []);
    BlockIsLines("https://", site, ["\ttls internal"]);
    assert '\n' !in MARKER;
  }

  /** The socket written into a site file is the socket read back from it. */
  lemma SiteServesSocket(site: WebSite)
    requires '\n' !in site.domain && '\n' !in site.socket
    ensures FastcgiSocket(RenderSite(site)) == Some(site.socket)
  {
    hide Split, Join, Quoted;
    var lines := SiteLines(site);
    SiteIsLines(site);
    SplitJoin(lines, '\n');
    assert FASTCGI[0] == '\t' && FASTCGI[1] == 'p';
    assert lines[0][0] == '#' && lines[1][0] == 'h' && lines[2][1] == 'r' && lines[3][1] == 'e';
    ValueAt(lines, 4, FASTCGI, site.socket);
  }

  lemma OneLine(lines: seq<string>)
    requires |lines| > 1
    ensures lines[..1] + lines[1..] == lines && Join(lines[..1], "\n") == lines[0]
  {}

  /** A printed site file always carries the managed marker, so removal accepts it. */
  lemma SiteIsManaged(site: WebSite)
    ensures Contains(RenderSite(site), "# Managed by Lara Nux")
  {
    hide Contains, SiteBlock;
    var lines := SiteLines(site);
    assert lines[0] == MARKER && |lines| > 1;
    hide Join, SiteLines;
    var rest := "\n" + Join(lines[1..], "\n");
    assert RenderSite(site) == "" + MARKER + rest by { JoinCat(lines[..1], lines[1..], "\n"); OneLine(lines); }
    ContainsMiddle("", MARKER, rest);
  }

  lemma ActivationWrites(raw: WebSite)
    ensures SiteToken(NormalizeSite(raw)) == ActivateToken(raw.id, raw.domain)
  {
    hide SanitizeToken, FirstNonEmpty;
  }

  /** For every site whose ID is not blank, removal by ID targets the file that its activation writes under
      the condition of `RemoveNamesActivatedFile`. */
  lemma RemovalFindsActivatedFile(raw: WebSite)
    requires TrimSpace(raw.id) != ""
    ensures SiteToken(NormalizeSite(raw)) == RemoveToken(raw.id) <==>
            if TrimSpace(SanitizeToken(raw.id)) != "" then Bare(Core(raw.id), SPACES)
            else SanitizeToken(FirstNonEmpty(ToLower(TrimSpace(raw.domain)), "")) == SanitizeToken(raw.id)
  {
    hide *;
    ActivationWrites(raw);
    RemoveNamesActivatedFile(raw.id, raw.domain);
  }

  lemma TokenOfDemo()
    ensures SanitizeToken("demo") == "demo"
  {
    hide Squeeze, Trim;
    TokenFixed("demo");
  }

  /** A site that removal by ID misses, whatever its domain. */
  lemma MissedSite(raw: WebSite)
    requires raw.id == "-\tdemo"
    ensures SiteToken(NormalizeSite(raw)) == "demo" && RemoveToken(raw.id) == "\tdemo"
  {
    hide Trim, SanitizeToken;
    TabbedId();
    TrimBare("-\tdemo", SPACES);
    TrimBare("\tdemo"[1..], SPACES);
    assert "\t" + "demo" + "" == "\tdemo";
    TrimOf("\t", "demo", "", SPACES);
    TokenOfDemo();
  }

  // ---- Reading a site file ----

  function HexValue(c: char): nat {
    if '0' <= c <= '9' then c as int - '0' as int else if 'a' <= c <= 'f' then c as int - 'a' as int + 10 else 0
  }

  function Unescaped(s: string): string {
    if s == "" then ""
    else if |s| < 2 || s[0] != '\\' then [s[0]] + Unescaped(s[1..])
    else if s[1] == 'x' && |s| >= 4 then [(HexValue(s[2]) * 16 + HexValue(s[3])) as char] + Unescaped(s[4..])
    else
      var c := if s[1] == 'n' then '\n' else if s[1] == 'r' then '\r' else if s[1] == 't' then '\t'
               else if s[1] == 'a' then 7 as char else if s[1] == 'b' then 8 as char
               else if s[1] == 'v' then 11 as char else if s[1] == 'f' then 12 as char else s[1];
      [c] + Unescaped(s[2..])
  }

  function Unquoted(q: string): Option<string> {
    if |q| >= 2 && q[0] == '"' && q[|q| - 1] == '"' then Some(Unescaped(q[1..|q| - 1])) else None
  }

  lemma HexReads(c: char)
    requires c as int < 128
    ensures HexValue(Hex(c as int / 16)) * 16 + HexValue(Hex(c as int % 16)) == c as int
  {}

  lemma EscapeReads(c: char, rest: string)
    ensures Unescaped(EscapedChar(c) + rest) == [c] + Unescaped(rest)
  {
    var e := EscapedChar(c);
    var s := e + rest;
    if |e| == 4 {
      HexReads(c);
      assert s[4..] == rest;
    } else if |e| == 2 {
      assert s[2..] == rest;
    } else {
      assert s[1..] == rest && s[0] != '\\';
    }
  }

  lemma NothingUnescaped()
    ensures Unescaped("") == ""
  {}

  /** Quoting is undone by unquoting. */
  lemma {:induction false} EscapedReads(s: string)
    ensures Unescaped(Escaped(s)) == s
  {
    hide EscapedChar, Unescaped;
    if s == "" {
      assert Unescaped("") == "" by { NothingUnescaped(); }
    } else {
      EscapedReads(s[1..]);
      EscapeReads(s[0], Escaped(s[1..]));
    }
  }

  lemma QuotedReads(s: string)
    ensures Unquoted(Quoted(s)) == Some(s)
  {
    hide Escaped, Unescaped;
    var q := Quoted(s);
    assert q[1..|q| - 1] == Escaped(s);
    EscapedReads(s);
  }

  /** The domain in the header of a block. */
  function HeaderDomain(line: string, scheme: string): Option<string> {
    if |scheme| + 2 <= |line| && HasPrefix(line, scheme) && HasSuffix(line, " {") then Some(line[|scheme|..|line| - 2])
    else None
  }

  function UntilBrace(lines: seq<string>): seq<string> {
    if lines == [] || lines[0] == "}" then [] else [lines[0]] + UntilBrace(lines[1..])
  }

  /** The first block under a scheme: its domain and its lines. */
  function BlockUnder(lines: seq<string>, scheme: string): Option<(string, seq<string>)> {
    if lines == [] then None
    else match HeaderDomain(lines[0], scheme)
      case Some(domain) => Some((domain, UntilBrace(lines[1..])))
      case None => BlockUnder(lines[1..], scheme)
  }

  /** What Caddy is told to serve under a scheme. */
  datatype Served = Served(
    domain: string, root: Option<string>, socket: Option<string>, files: bool, zipped: bool, tls: bool)

  function ReadSite(config: string, scheme: string): Option<Served> {
    match BlockUnder(Split(config, '\n'), scheme)
    case None => None
    case Some(block) =>
      var root := match ValueOf(block.1, "\troot * ") case Some(q) => Unquoted(q) case None => None;
      Some(Served(block.0, root, ValueOf(block.1, "\tphp_fastcgi unix/"), "\tfile_server" in block.1,
                  "\tencode zstd gzip" in block.1, "\ttls internal" in block.1))
  }

  lemma {:induction false} UntilBraceOf(body: seq<string>, rest: seq<string>)
    requires "}" !in body
    ensures UntilBrace(body + ["}"] + rest) == body
  {
    var all := body + ["}"] + rest;
    if body != [] {
      assert all[1..] == body[1..] + ["}"] + rest;
      UntilBraceOf(body[1..], rest);
    }
  }

  lemma {:induction false} BlockAfter(before: seq<string>, scheme: string, domain: string, body: seq<string>,
                                      rest: seq<string>)
    requires forall l | l in before :: !HasPrefix(l, scheme)
    requires "}" !in body
    ensures BlockUnder(before + [scheme + domain + " {"] + (body + ["}"] + rest), scheme) == Some((domain, body))
  {
    hide UntilBrace;
    var all := before + [scheme + domain + " {"] + (body + ["}"] + rest);
    if before == [] {
      var head := scheme + domain + " {";
      assert all[0] == head && all[1..] == body + ["}"] + rest;
      assert head[|scheme|..|head| - 2] == domain && head[|head| - 2..] == " {" && scheme <= head;
      UntilBraceOf(body, rest);
    } else {
      assert all[0] == before[0] && all[0] in before;
      assert all[1..] == before[1..] + [scheme + domain + " {"] + (body + ["}"] + rest);
      assert forall l | l in before[1..] :: l in before;
      BlockAfter(before[1..], scheme, domain, body, rest);
    }
  }

  function BlockBody(site: WebSite, tls: seq<string>): seq<string> {
    tls + ["\troot * " + Quoted(site.publicDir), "\tencode zstd gzip", FASTCGI + site.socket, "\tfile_server"]
  }

  /** What the lines of a block say. */
  lemma BodyReads(site: WebSite, tls: seq<string>)
    requires tls == [] || tls == ["\ttls internal"]
    ensures var body := BlockBody(site, tls);
            && "}" !in body && "\tfile_server" in body && "\tencode zstd gzip" in body
            && ("\ttls internal" in body <==> tls != [])
            && ValueOf(body, "\troot * ") == Some(Quoted(site.publicDir))
            && ValueOf(body, "\tphp_fastcgi unix/") == Some(site.socket)
  {
    hide Quoted, ValueOf;
    var body := BlockBody(site, tls);
    var n := |tls|;
    assert body[n] == "\troot * " + Quoted(site.publicDir) && body[n + 1] == "\tencode zstd gzip"
           && body[n + 2] == "\tphp_fastcgi unix/" + site.socket && body[n + 3] == "\tfile_server" && |body| == n + 4;
    assert body[n][1] == 'r' && body[n + 1][1] == 'e' && body[n + 2][1] == 'p' && body[n + 3][1] == 'f';
    assert n > 0 ==> body[0] == "\ttls internal" && body[0][1] == 't';
    assert forall i | 0 <= i < |body| :: body[i][0] == '\t';
    ValueAt(body, n, "\troot * ", Quoted(site.publicDir));
    ValueAt(body, n + 2, "\tphp_fastcgi unix/", site.socket);
  }

  lemma SiteLinesAre(site: WebSite)
    ensures SiteLines(site) ==
            [MARKER] + ["http://" + site.domain + " {"] +
            (BlockBody(site, []) + ["}"] +
             (["", "https://" + site.domain + " {"] + BlockBody(site, ["\ttls internal"]) + ["}", ""]))
  {
    hide Quoted;
  }

  lemma SiteLinesAgain(site: WebSite)
    ensures SiteLines(site) ==
            ([MARKER, "http://" + site.domain + " {"] + BlockBody(site, []) + ["}", ""]) +
            ["https://" + site.domain + " {"] +
            (BlockBody(site, ["\ttls internal"]) + ["}"] + [""])
  {
    hide Quoted;
  }

  lemma NoSecureHeader(site: WebSite)
    ensures var before := [MARKER, "http://" + site.domain + " {"] + BlockBody(site, []) + ["}", ""];
            forall l | l in before :: !HasPrefix(l, "https://")
  {
    hide Quoted;
    var before := [MARKER, "http://" + site.domain + " {"] + BlockBody(site, []) + ["}", ""];
    assert before[0][0] == '#' && before[1][4] == ':' && before[2][0] == '\t' && before[3][0] == '\t'
           && before[4][0] == '\t' && before[5][0] == '\t' && before[6] == "}" && before[7] == "" && |before| == 8;
    assert "https://"[0] == 'h' && "https://"[4] == 's';
  }

  /** A site file, read back: under both schemes the site's domain, its public directory, its socket, the file
      server and compression; under https an internal certificate as well. */
  lemma SiteReads(site: WebSite)
    requires '\n' !in site.domain && '\n' !in site.socket
    ensures ReadSite(RenderSite(site), "http://") ==
            Some(Served(site.domain, Some(site.publicDir), Some(site.socket), true, true, false))
    ensures ReadSite(RenderSite(site), "https://") ==
            Some(Served(site.domain, Some(site.publicDir), Some(site.socket), true, true, true))
  {
    hide Split, Join, Quoted, Unquoted, SiteLines, BlockUnder, ValueOf, BlockBody;
    SiteLinesAre(site);
    SiteIsLines(site);
    SplitJoin(SiteLines(site), '\n');
    QuotedReads(site.publicDir);
    BodyReads(site, []);
    BodyReads(site, ["\ttls internal"]);
    assert MARKER[0] == '#';
    BlockAfter([MARKER], "http://", site.domain, BlockBody(site, []),
               ["", "https://" + site.domain + " {"] + BlockBody(site, ["\ttls internal"]) + ["}", ""]);
    SiteLinesAgain(site);
    NoSecureHeader(site);
    BlockAfter([MARKER, "http://" + site.domain + " {"] + BlockBody(site, []) + ["}", ""], "https://", site.domain,
               BlockBody(site, ["\ttls internal"]), [""]);
  }

  /** Only domain, public directory and socket are printed. */
  lemma SameLines(a: WebSite, b: WebSite)
    requires a.domain == b.domain && a.publicDir == b.publicDir && a.socket == b.socket
    ensures RenderSite(a) == RenderSite(b)
  {
    hide Quoted;
  }

  /** Sites that differ in what they serve have different files. */
  lemma SitesTellApart(a: WebSite, b: WebSite)
    requires '\n' !in a.domain && '\n' !in a.socket && '\n' !in b.domain && '\n' !in b.socket
    ensures RenderSite(a) == RenderSite(b) <==>
            a.domain == b.domain && a.publicDir == b.publicDir && a.socket == b.socket
  {
    hide RenderSite, ReadSite;
    SiteReads(a);
    SiteReads(b);
    if a.domain == b.domain && a.publicDir == b.publicDir && a.socket == b.socket {
      SameLines(a, b);
    }
  }

  // ---- What normalising fills in ----

  /** Without a public directory, the one under the root; without an ID, the domain names the file. */
  lemma SiteDefaults(raw: WebSite)
    ensures var site := NormalizeSite(raw);
            && site.publicDir == (if TrimSpace(raw.publicDir) == "" then raw.rootPath + "/public"
                                  else TrimSpace(raw.publicDir))
            && site.domain == ToLower(TrimSpace(raw.domain)) && site.socket == raw.socket
            && (TrimSpace(raw.id) == "" && TrimSpace(raw.domain) != "" ==>
                  site.id == SanitizeToken(TrimSpace(raw.domain)))
            && (TrimSpace(raw.id) != "" ==> site.id == SanitizeToken(TrimSpace(raw.id)))
  {
    hide TrimSpace, SanitizeToken;
  }
}
