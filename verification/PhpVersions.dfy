/** PHP version strings, and the names and texts the daemon derives from them. */
module PhpVersions {
  import opened Text

  const SUPPORTED: set<string> := {"8.1", "8.2", "8.3", "8.4"}

  function NormalizeVersion(raw: string): string {
    TrimSpace(TrimPrefix(TrimSpace(ToLower(raw)), "php"))
  }

  /** The FPM adapter's own normalisation does not trim after the prefix. */
  function AdapterVersion(raw: string): string {
    TrimPrefix(TrimSpace(ToLower(raw)), "php")
  }

  function ServiceNameOf(version: string): string {
    "php" + NormalizeVersion(version) + "-fpm"
  }

  function SocketPath(version: string): string {
    var v := NormalizeVersion(version);
    if v == "" then "" else "/run/php/lara-nux-php" + v + "-fpm.sock"
  }

  lemma NormalShape(raw: string)
    ensures var v := NormalizeVersion(raw); IsLower(v) && Bare(v, SPACES)
  {
    hide Trim, LowerChar;
    LowerFixed(raw);
    var l := ToLower(raw);
    TrimKeepsLower(l);
    var p := TrimPrefix(TrimSpace(l), "php");
    TrimKeepsLower(p);
    var pre, post := TrimParts(p, SPACES);
  }

  /** Behind its "php" prefix, and white space, the text has a second one. */
  predicate TwicePrefixed(raw: string) {
    var t := TrimSpace(ToLower(raw));
    HasPrefix(t, "php") && HasPrefix(TrimLeft(t[3..], SPACES), "php")
  }

  lemma RightIsBare(w: string)
    requires w != "" ==> w[|w| - 1] !in SPACES
    ensures TrimRight(w, SPACES) == w
  {}

  lemma PrefixSurvives(raw: string)
    ensures HasPrefix(NormalizeVersion(raw), "php") <==> TwicePrefixed(raw)
  {
    hide TrimLeft, TrimRight, LowerChar;
    var t := TrimSpace(ToLower(raw));
    var pre, post := TrimParts(ToLower(raw), SPACES);
    if HasPrefix(t, "php") {
      var w := TrimLeft(t[3..], SPACES);
      TrimLeftCut(t[3..], SPACES);
      RightIsBare(w);
    } else {
      TrimBare(t, SPACES);
    }
  }

  /** Normalising twice is normalising once exactly when the text had no second "php" prefix. */
  lemma NormalizeIdempotent(raw: string)
    ensures var v := NormalizeVersion(raw);
            NormalizeVersion(v) == v <==> !TwicePrefixed(raw)
  {
    hide Trim, LowerChar, TwicePrefixed;
    var v := NormalizeVersion(raw);
    PrefixSurvives(raw);
    NormalShape(raw);
    LowerFixed(v);
    TrimBare(v, SPACES);
    if HasPrefix(v, "php") {
      var pre, post := TrimParts(v[3..], SPACES);
    }
  }

  /** Supported versions are fixed by both normalisations. */
  lemma SupportedFixed(version: string)
    requires version in SUPPORTED
    ensures NormalizeVersion(version) == version && AdapterVersion(version) == version && version != ""
  {
    hide Trim;
    assert |version| == 3 && version[0] == '8';
    LowerFixed(version);
    TrimBare(version, SPACES);
  }

  // ---- The FPM pool file ----

  const POOL_MARKER := "; Managed by Lara Nux"
  const OVERRIDE_MARKER := "# Managed by Lara Nux"
  const LISTEN := "listen = "

  function PoolHead(): seq<string> {
    [POOL_MARKER, "[lara-nux]", "user = www-data", "group = www-data"]
  }

  function PoolOwners(): seq<string> {
    ["listen.owner = caddy", "listen.group = caddy", "pm = dynamic", "pm.max_children = 10"]
  }

  function PoolSizes(): seq<string> {
    ["pm.start_servers = 2", "pm.min_spare_servers = 1", "pm.max_spare_servers = 4", "chdir = /", ""]
  }

  function PoolLines(socket: string): seq<string> {
    PoolHead() + [LISTEN + socket] + PoolOwners() + PoolSizes()
  }

  function RenderPool(socket: string): string {
    Join(PoolLines(socket), "\n")
  }

  function RenderOverride(): string {
    Join([OVERRIDE_MARKER, "[Service]", "RuntimeDirectory=php", "RuntimeDirectoryMode=0755", ""], "\n")
  }

  /** What follows the prefix on the first line that starts with it. */
  function ValueOf(lines: seq<string>, prefix: string): Option<string> {
    if lines == [] then None
    else if HasPrefix(lines[0], prefix) then Some(lines[0][|prefix|..])
    else ValueOf(lines[1..], prefix)
  }

  /** The socket a pool listens on, read back from its file. */
  function ListenSocket(pool: string): Option<string> {
    ValueOf(Split(pool, '\n'), LISTEN)
  }

  lemma {:induction false} ValueAt(lines: seq<string>, k: nat, prefix: string, value: string)
    requires k < |lines| && lines[k] == prefix + value
    requires forall i | 0 <= i < k :: !HasPrefix(lines[i], prefix)
    ensures ValueOf(lines, prefix) == Some(value)
  {
    if k == 0 {
      assert lines[0][|prefix|..] == value;
    } else {
      assert forall i | 0 <= i < |lines| - 1 :: lines[1..][i] == lines[i + 1];
      ValueAt(lines[1..], k - 1, prefix, value);
    }
  }

  lemma HeadIsLines()
    ensures forall l | l in PoolHead() :: '\n' !in l
  {}

  lemma OwnersAreLines()
    ensures forall l | l in PoolOwners() :: '\n' !in l
  {}

  lemma SizesAreLines()
    ensures forall l | l in PoolSizes() :: '\n' !in l
  {}

  lemma PoolIsLines(socket: string)
    requires '\n' !in socket
    ensures forall l | l in PoolLines(socket) :: '\n' !in l
  {
    hide PoolHead, PoolOwners, PoolSizes;
    HeadIsLines();
    OwnersAreLines();
    SizesAreLines();
  }

  lemma PoolPrefixes(socket: string)
    ensures |PoolHead()| == 4 && |PoolLines(socket)| > 4 && PoolLines(socket)[4] == LISTEN + socket
    ensures forall i | 0 <= i < 4 :: !HasPrefix(PoolLines(socket)[i], LISTEN)
  {
    hide PoolOwners, PoolSizes;
    assert LISTEN[0] == 'l';
    assert forall i | 0 <= i < 4 :: PoolHead()[i][0] != 'l';
    assert forall i | 0 <= i < 4 :: PoolLines(socket)[i] == PoolHead()[i];
  }

  /** The socket written into a pool file is the socket read back from it. */
  lemma PoolListens(socket: string)
    requires '\n' !in socket
    ensures ListenSocket(RenderPool(socket)) == Some(socket)
  {
    hide Split, Join, PoolLines;
    var lines := PoolLines(socket);
    PoolIsLines(socket);
    PoolPrefixes(socket);
    SplitJoin(lines, '\n');
    ValueAt(lines, 4, LISTEN, socket);
  }

  // ---- Versions apart ----

  /** The matrix: major version 8, minor versions 1 to 4. */
  lemma SupportedAre(version: string)
    ensures version in SUPPORTED <==>
            |version| == 3 && version[0] == '8' && version[1] == '.' && '1' <= version[2] <= '4'
  {
    if |version| == 3 && version[0] == '8' && version[1] == '.' && '1' <= version[2] <= '4' {
      assert version == [version[0], version[1], version[2]];
      assert version[2] == '1' || version[2] == '2' || version[2] == '3' || version[2] == '4';
    }
  }

  lemma LowerOfCat(a: string, b: string)
    ensures ToLower(a + b) == ToLower(a) + ToLower(b)
  {}

  lemma SpacesAreLow(pad: string)
    requires All(pad, SPACES)
    ensures ToLower(pad) == pad
  {}

  lemma LowerParts(pad: string, prefix: string, mid: string, version: string, behind: string)
    requires All(pad, SPACES) && All(mid, SPACES) && All(behind, SPACES)
    requires |version| == 3 && version[0] == '8' && version[1] == '.' && '1' <= version[2] <= '4'
    ensures ToLower(pad + prefix + mid + version + behind) == pad + (ToLower(prefix) + mid + version) + behind
  {
    SpacesAreLow(pad);
    SpacesAreLow(mid);
    SpacesAreLow(behind);
    assert forall i | 0 <= i < 3 :: LowerChar(version[i]) == version[i];
    LowerFixed(version);
    LowerOfCat(pad + prefix + mid + version, behind);
    LowerOfCat(pad + prefix + mid, version);
    LowerOfCat(pad + prefix, mid);
    LowerOfCat(pad, prefix);
  }

  lemma TypedEnds(prefix: string, mid: string, version: string)
    requires |version| == 3 && version[0] == '8' && version[1] == '.' && '1' <= version[2] <= '4'
    requires (prefix == "" && mid == "") || EqualFold(prefix, "php")
    ensures Bare(ToLower(prefix) + mid + version, SPACES)
    ensures prefix != "" ==> ToLower(prefix) == "php"
  {
    if prefix != "" {
      assert IsLower("php");
      LowerFixed("php");
    }
  }

  /** However a supported version is written, padded, prefixed in any case, or both, it is recognised. */
  lemma VersionAsTyped(pad: string, prefix: string, mid: string, version: string, behind: string)
    requires version in SUPPORTED && All(pad, SPACES) && All(mid, SPACES) && All(behind, SPACES)
    requires (prefix == "" && mid == "") || EqualFold(prefix, "php")
    ensures NormalizeVersion(pad + prefix + mid + version + behind) == version
  {
    hide Trim, ToLower;
    SupportedAre(version);
    hide SUPPORTED;
    var core := prefix + mid + version;
    var low := ToLower(prefix) + mid + version;
    LowerParts(pad, prefix, mid, version, behind);
    TypedEnds(prefix, mid, version);
    TrimOf(pad, low, behind, SPACES);
    if prefix == "" {
      assert low == version;
      TrimBare(version, SPACES);
    } else {
      assert low == "php" + (mid + version) && low[3..] == mid + version + "";
      TrimOf(mid, version, "", SPACES);
    }
  }

  /** The names derived from a supported version, spelled out. */
  lemma NamesOfVersion(version: string)
    requires version in SUPPORTED
    ensures SocketPath(version) == "/run/php/lara-nux-php" + version + "-fpm.sock"
    ensures ServiceNameOf(version) == "php" + version + "-fpm"
  {
    hide NormalizeVersion, SUPPORTED;
    SupportedFixed(version);
  }

  lemma Middle(a: string, x: string, b: string)
    ensures (a + x + b)[|a|..|a + x + b| - |b|] == x
  {}

  lemma Between(a: string, x: string, y: string, b: string)
    requires x != y
    ensures a + x + b != a + y + b
  {
    Middle(a, x, b);
    Middle(a, y, b);
  }

  /** Different versions have different sockets and services. */
  lemma VersionsApart(v: string, w: string)
    requires v in SUPPORTED && w in SUPPORTED && v != w
    ensures SocketPath(v) != SocketPath(w) && ServiceNameOf(v) != ServiceNameOf(w)
  {
    hide NormalizeVersion, SocketPath, ServiceNameOf, SUPPORTED;
    NamesOfVersion(v);
    NamesOfVersion(w);
    Between("/run/php/lara-nux-php", v, w, "-fpm.sock");
    Between("php", v, w, "-fpm");
  }

  lemma PoolLinesAre(socket: string)
    ensures var lines := PoolLines(socket);
            && |lines| == 14 && lines[0] == "; Managed by Lara Nux" && lines[1] == "[lara-nux]"
            && lines[2] == "user = www-data" && lines[3] == "group = www-data" && lines[4] == "listen = " + socket
            && lines[5] == "listen.owner = caddy" && lines[6] == "listen.group = caddy"
            && lines[7..] == ["pm = dynamic", "pm.max_children = 10", "pm.start_servers = 2",
                              "pm.min_spare_servers = 1", "pm.max_spare_servers = 4", "chdir = /", ""]
  {}

  lemma FirstLetters(lines: seq<string>)
    requires |lines| == 14 && lines[0] == "; Managed by Lara Nux" && lines[1] == "[lara-nux]"
             && lines[2] == "user = www-data" && lines[3] == "group = www-data" && HasPrefix(lines[4], "listen = ")
             && lines[5] == "listen.owner = caddy"
    ensures forall i | 0 <= i < 2 :: !HasPrefix(lines[i], "user = ")
    ensures forall i | 0 <= i < 3 :: !HasPrefix(lines[i], "group = ")
    ensures forall i | 0 <= i < 5 :: !HasPrefix(lines[i], "listen.owner = ")
    ensures forall i | 0 <= i < 6 :: !HasPrefix(lines[i], "listen.group = ")
  {
    assert lines[0][0] == ';' && lines[1][0] == '[' && lines[2][0] == 'u' && lines[3][0] == 'g' && lines[4][6] == ' '
           && lines[5][7] == 'o';
    assert "listen.owner = "[6] == '.' && "listen.group = "[6] == '.' && "listen.group = "[7] == 'g';
  }

  /** What a pool file says besides its socket: who owns the socket, and who runs the workers. */
  lemma PoolReads(socket: string)
    requires '\n' !in socket
    ensures var lines := Split(RenderPool(socket), '\n');
            && |lines| == 14 && lines[0] == "; Managed by Lara Nux" && lines[1] == "[lara-nux]"
            && ValueOf(lines, "user = ") == Some("www-data") && ValueOf(lines, "group = ") == Some("www-data")
            && ValueOf(lines, "listen = ") == Some(socket)
            && ValueOf(lines, "listen.owner = ") == Some("caddy") && ValueOf(lines, "listen.group = ") == Some("caddy")
            && lines[7..] == ["pm = dynamic", "pm.max_children = 10", "pm.start_servers = 2",
                              "pm.min_spare_servers = 1", "pm.max_spare_servers = 4", "chdir = /", ""]
  {
    hide Split, Join, PoolLines, PoolHead, PoolOwners, PoolSizes;
    var lines := PoolLines(socket);
    PoolLinesAre(socket);
    PoolIsLines(socket);
    SplitJoin(lines, '\n');
    PoolListens(socket);
    FirstLetters(lines);
    ValueAt(lines, 2, "user = ", "www-data");
    ValueAt(lines, 3, "group = ", "www-data");
    ValueAt(lines, 5, "listen.owner = ", "caddy");
    ValueAt(lines, 6, "listen.group = ", "caddy");
  }

  lemma OverrideIsLines()
    ensures '\n' !in "# Managed by Lara Nux" && '\n' !in "[Service]" && '\n' !in "RuntimeDirectory=php"
            && '\n' !in "RuntimeDirectoryMode=0755" && '\n' !in ""
  {}

  /** What the systemd override says: the directory of the sockets outlives no service but comes with it. */
  lemma OverrideReads()
    ensures var lines := Split(RenderOverride(), '\n');
            && |lines| == 5 && lines[0] == "# Managed by Lara Nux" && lines[1] == "[Service]"
            && ValueOf(lines, "RuntimeDirectory=") == Some("php")
            && ValueOf(lines, "RuntimeDirectoryMode=") == Some("0755")
  {
    hide Split, Join;
    var lines := ["# Managed by Lara Nux", "[Service]", "RuntimeDirectory=php", "RuntimeDirectoryMode=0755", ""];
    assert forall l | l in lines :: '\n' !in l by { OverrideIsLines(); }
    SplitJoin(lines, '\n');
    assert lines[0][0] == '#' && lines[1][0] == '[' && lines[2][16] == '=' && "RuntimeDirectoryMode="[16] == 'M';
    ValueAt(lines, 2, "RuntimeDirectory=", "php");
    ValueAt(lines, 3, "RuntimeDirectoryMode=", "0755");
  }
}
