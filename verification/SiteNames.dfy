/** Site names derived from project paths, and `.test` domains. */
module SiteNames {
  import opened Text
  import opened Tokens

  // ---- Hostname labels ----

  predicate IsAlnum(c: char) {
    'a' <= c <= 'z' || '0' <= c <= '9'
  }

  /** `[a-z0-9]([a-z0-9-]*[a-z0-9])?`, matched against the whole label. */
  predicate ValidLabel(l: string) {
    && l != "" && IsAlnum(l[0]) && IsAlnum(l[|l| - 1])
    && forall i | 0 <= i < |l| :: IsAlnum(l[i]) || l[i] == '-'
  }

  // ---- Names ----

  /** `filepath.Base` on Unix paths. */
  function Base(path: string): string {
    if path == "" then "."
    else
      var parts := Split(TrimRight(path, {'/'}), '/');
      if parts[|parts| - 1] == "" then "/" else parts[|parts| - 1]
  }

  function SlugChar(c: char): char {
    var l := LowerChar(c);
    if l == '_' || l == ' ' || l == '.' then '-' else l
  }

  /** The letters, digits and dashes of a string. */
  function Keep(s: string): string {
    if s == "" then ""
    else
      var n := |s| - 1;
      Keep(s[..n]) + if IsAlnum(s[n]) || s[n] == '-' then [s[n]] else ""
  }

  /** Runs of dashes squeezed, none at the ends, everything but letters, digits and dashes dropped. */
  function Slug(base: string): string {
    Squeeze(Trim(Keep(MapChars(SlugChar, TrimSpace(base))), DASH))
  }

  function DeriveSiteName(rootPath: string): string {
    var name := Slug(Base(rootPath));
    if name == "" then "site" else name
  }

  lemma {:induction false} SqueezePush(s: string, c: char)
    ensures Squeeze(s + [c]) ==
            if c == '-' && s != "" && s[|s| - 1] == '-' then Squeeze(s) else Squeeze(s) + [c]
  {
    if s == "" {
      assert s + [c] == [c] + "";
    } else {
      assert (s + [c])[1..] == s[1..] + [c];
      SqueezePush(s[1..], c);
      SqueezeEnds(s[1..]);
    }
  }

  lemma TrimLeftPush(s: string, c: char, cut: set<char>)
    ensures TrimLeft(s + [c], cut) ==
            if TrimLeft(s, cut) == "" && c in cut then "" else TrimLeft(s, cut) + [c]
  {
    hide TrimLeft;
    var t := TrimLeft(s, cut);
    var pre := s[..|s| - |t|];
    TrimLeftCut(s, cut);
    if t == "" && c in cut {
      assert s == pre && s + [c] + "" == s + [c];
      TrimLeftOf(s + [c], "", cut);
    } else {
      assert s + [c] == pre + (t + [c]);
      TrimLeftOf(pre, t + [c], cut);
    }
  }

  lemma KeepPush(s: string, i: nat)
    requires i < |s|
    ensures Keep(s[..i + 1]) == Keep(s[..i]) + if IsAlnum(s[i]) || s[i] == '-' then [s[i]] else ""
  {
    assert s[..i + 1][..i] == s[..i];
  }

  /** The builder after the characters `kept`: leading dashes dropped, runs squeezed. */
  function Built(kept: string): string {
    Squeeze(TrimLeft(kept, DASH))
  }

  lemma BuiltPush(kept: string, c: char)
    ensures var b := Built(kept);
            Built(kept + [c]) == if c == '-' && (b == "" || b[|b| - 1] == '-') then b else b + [c]
  {
    hide Squeeze, TrimLeft;
    var left := TrimLeft(kept, DASH);
    SqueezeEnds(left);
    SqueezePush(left, c);
    TrimLeftPush(kept, c, DASH);
  }

  lemma NothingIsAll()
    ensures All("", DASH)
  {}

  lemma BuiltTrimmed(kept: string)
    ensures Trim(Built(kept), DASH) == Squeeze(Trim(kept, DASH))
  {
    hide Squeeze, Trim, TrimLeft, All;
    var core := Trim(kept, DASH);
    var rest := TrimLeftParts(kept, DASH);
    assert "" + (core + rest) == TrimLeft(kept, DASH);
    assert All("", DASH) by { NothingIsAll(); }
    SqueezePadded("", core, rest);
  }

  lemma EmptyBuilder()
    ensures Built(Keep("")) == ""
  {}

  /** The builder loop with its `lastDash` flag, then the final trim. */
  method BuildSlug(base: string) returns (name: string)
    ensures name == Squeeze(Trim(Keep(base), DASH))
  {
    hide Built, Keep;
    var builder := "";
    var lastDash := false;
    assert Built(Keep("")) == "" by { EmptyBuilder(); }
    for i := 0 to |base|
      invariant builder == Built(Keep(base[..i]))
      invariant lastDash == (builder != "" && builder[|builder| - 1] == '-')
    {
      var c := base[i];
      KeepPush(base, i);
      BuiltPush(Keep(base[..i]), c);
      if IsAlnum(c) {
        builder := builder + [c];
        lastDash := false;
      } else if c == '-' {
        if |builder| > 0 && !lastDash {
          builder := builder + "-";
          lastDash := true;
        }
      } else {
        assert Keep(base[..i]) + "" == Keep(base[..i]);
      }
    }
    assert base[..|base|] == base;
    BuiltTrimmed(Keep(base));
    name := Trim(builder, DASH);
  }

  method DeriveName(rootPath: string) returns (name: string)
    ensures name == DeriveSiteName(rootPath)
  {
    var base := ToLower(TrimSpace(Base(rootPath)));
    base := MapChars(c => if c == '_' || c == ' ' || c == '.' then '-' else c, base);
    assert base == MapChars(SlugChar, TrimSpace(Base(rootPath)));
    name := BuildSlug(base);
    if name == "" {
      name := "site";
    }
  }

  lemma {:induction false} KeepShape(s: string)
    ensures forall c | c in Keep(s) :: IsAlnum(c) || c == '-'
    ensures (forall i | 0 <= i < |s| :: IsAlnum(s[i]) || s[i] == '-') ==> Keep(s) == s
  {
    if s != "" {
      var n := |s| - 1;
      KeepShape(s[..n]);
      assert s == s[..n] + [s[n]];
    }
  }

  lemma SlugShape(base: string)
    ensures Slug(base) != "" ==> ValidLabel(Slug(base))
    ensures NoDoubleDash(Slug(base))
  {
    hide Squeeze, Trim, Keep;
    var kept := Keep(MapChars(SlugChar, TrimSpace(base)));
    KeepShape(MapChars(SlugChar, TrimSpace(base)));
    var pre, post := TrimParts(kept, DASH);
    var core := Trim(kept, DASH);
    assert forall c | c in core :: c in kept;
    SqueezeShape(core);
    SqueezeEnds(core);
    var name := Slug(base);
    assert forall i | 0 <= i < |name| :: name[i] in name;
  }

  /** Every root path yields a valid hostname label with no double dash (label syntax as in section
      2.1 of RFC 1123, without its length limit, which the code does not check). */
  lemma DerivedNameIsLabel(rootPath: string)
    ensures ValidLabel(DeriveSiteName(rootPath)) && NoDoubleDash(DeriveSiteName(rootPath))
  {
    hide Slug;
    SlugShape(Base(rootPath));
  }

  lemma LabelChars(l: string)
    requires ValidLabel(l)
    ensures IsLower(l) && Bare(l, SPACES) && Bare(l, DASH) && Bare(l, {'/'}) && '.' !in l && '/' !in l
    ensures forall i | 0 <= i < |l| :: SlugChar(l[i]) == l[i]
  {}

  lemma LabelBase(l: string)
    requires ValidLabel(l)
    ensures Base(l) == l
  {
    LabelChars(l);
    TrimRightOf(l, "", {'/'});
    assert l + "" == l;
    SplitWhole(l, '/');
  }

  lemma SlugFixed(l: string)
    requires ValidLabel(l) && NoDoubleDash(l)
    ensures Slug(l) == l
  {
    hide Squeeze, Trim, Keep;
    LabelChars(l);
    TrimBare(l, SPACES);
    assert MapChars(SlugChar, l) == l;
    KeepShape(l);
    TrimBare(l, DASH);
    SqueezeFixed(l);
  }

  lemma DeriveIdempotent(rootPath: string)
    ensures DeriveSiteName(DeriveSiteName(rootPath)) == DeriveSiteName(rootPath)
  {
    hide Slug, Base, ValidLabel;
    DerivedNameIsLabel(rootPath);
    LabelBase(DeriveSiteName(rootPath));
    SlugFixed(DeriveSiteName(rootPath));
  }

  // ---- Domains ----

  const TLD := ".test"

  datatype DomainResult = Domain(value: string) | NotTest | NoHost | BadLabel(text: string)

  function FirstInvalid(labels: seq<string>): Option<string> {
    if labels == [] then None
    else if !ValidLabel(labels[0]) then Some(labels[0])
    else FirstInvalid(labels[1..])
  }

  /** The text that the parser judges: trimmed and lower-cased, or made from the fallback name. */
  function Candidate(raw: string, fallbackName: string): string {
    var value := ToLower(TrimSpace(raw));
    if value == "" then fallbackName + TLD else value
  }

  function NormalizeDomain(raw: string, fallbackName: string): DomainResult {
    var value := Candidate(raw, fallbackName);
    if !HasSuffix(value, TLD) then NotTest
    else
      var host := value[..|value| - |TLD|];
      if host == "" then NoHost
      else match FirstInvalid(Split(host, '.'))
        case Some(bad) => BadLabel(bad)
        case None => Domain(value)
  }

  predicate AllValid(labels: seq<string>) {
    forall l | l in labels :: ValidLabel(l)
  }

  /** A non-empty dot-joined sequence of valid labels, followed by `.test`. */
  ghost predicate IsTestDomain(value: string) {
    exists labels: seq<string> :: value == Join(labels, ".") + TLD && labels != [] && AllValid(labels)
  }

  lemma {:induction false} FirstInvalidNone(labels: seq<string>)
    ensures FirstInvalid(labels).None? <==> AllValid(labels)
  {
    hide ValidLabel;
    if labels != [] {
      FirstInvalidNone(labels[1..]);
      assert labels == [labels[0]] + labels[1..];
    }
  }

  /** The parser accepts exactly the `.test` domains, and returns the text it judged. */
  lemma DomainAccepted(raw: string, fallbackName: string)
    ensures var value := Candidate(raw, fallbackName);
            && (NormalizeDomain(raw, fallbackName).Domain? <==> IsTestDomain(value))
            && (IsTestDomain(value) ==> NormalizeDomain(raw, fallbackName) == Domain(value))
  {
    hide Candidate, Split, Join, FirstInvalid;
    var value := Candidate(raw, fallbackName);
    if IsTestDomain(value) {
      var labels: seq<string> :| value == Join(labels, ".") + TLD && labels != [] && AllValid(labels);
      var host := Join(labels, ".");
      assert value[|value| - |TLD|..] == TLD && value[..|value| - |TLD|] == host;
      forall l | l in labels ensures '.' !in l {
        LabelChars(l);
      }
      SplitJoin(labels, '.');
      FirstInvalidNone(labels);
      assert ValidLabel(labels[0]);
      SplitWhole("", '.');
    }
    if NormalizeDomain(raw, fallbackName).Domain? {
      var host := value[..|value| - |TLD|];
      FirstInvalidNone(Split(host, '.'));
      JoinSplit(host, '.');
      assert value == host + TLD;
      assert IsTestDomain(value);
    }
  }

  predicate DomainChar(c: char) {
    IsAlnum(c) || c == '-' || c == '.'
  }

  lemma {:induction false} JoinedChars(labels: seq<string>)
    requires AllValid(labels)
    ensures forall i | 0 <= i < |Join(labels, ".")| :: DomainChar(Join(labels, ".")[i])
    ensures labels != [] ==> Join(labels, ".") != "" && IsAlnum(Join(labels, ".")[0])
  {
    if |labels| == 1 {
      assert ValidLabel(labels[0]);
    } else if |labels| > 1 {
      JoinedChars(labels[1..]);
      assert ValidLabel(labels[0]);
    }
  }

  /** Accepted domains are lower-case and without white space. */
  lemma DomainCanonical(value: string)
    requires IsTestDomain(value)
    ensures value != "" && IsLower(value) && TrimSpace(value) == value && ToLower(value) == value
    ensures forall i | 0 <= i < |value| :: DomainChar(value[i])
  {
    hide ValidLabel, Join, Trim;
    var labels: seq<string> :| value == Join(labels, ".") + TLD && labels != [] && AllValid(labels);
    JoinedChars(labels);
    assert forall i | 0 <= i < |value| :: DomainChar(value[i]);
    assert Bare(value, SPACES);
    TrimBare(value, SPACES);
    assert ToLower(value) == value;
  }

  /** Parsing an accepted domain again changes nothing, whatever the fallback. */
  lemma DomainIdempotent(raw: string, fallbackName: string, other: string)
    requires NormalizeDomain(raw, fallbackName).Domain?
    ensures var value := NormalizeDomain(raw, fallbackName).value;
            NormalizeDomain(value, other) == Domain(value)
  {
    hide NormalizeDomain, IsTestDomain, Trim;
    DomainAccepted(raw, fallbackName);
    var value := NormalizeDomain(raw, fallbackName).value;
    DomainCanonical(value);
    DomainAccepted(value, other);
  }

  /** A blank domain never fails: the derived name always makes an accepted `.test` domain. */
  lemma DerivedNameRegisters(raw: string, rootPath: string)
    requires TrimSpace(raw) == ""
    ensures var name := DeriveSiteName(rootPath);
            NormalizeDomain(raw, name) == Domain(name + TLD)
  {
    hide NormalizeDomain, DeriveSiteName, ValidLabel, Trim;
    var name := DeriveSiteName(rootPath);
    DerivedNameIsLabel(rootPath);
    assert Join([name], ".") == name && AllValid([name]);
    assert IsTestDomain(name + TLD);
    DomainAccepted(raw, name);
  }

  /** On lower-case text, case-insensitive comparison is equality. */
  lemma FoldIsEquality(a: string, b: string)
    requires IsLower(a) && IsLower(b)
    ensures EqualFold(a, b) <==> a == b
  {
    LowerFixed(a);
    LowerFixed(b);
  }

  /** Labels are accepted whatever their length: one of any number of letters makes a domain. */
  lemma LongLabelsAreAccepted(n: nat, fallbackName: string)
    requires n > 0
    ensures var domain := seq(n, i => 'a') + TLD; NormalizeDomain(domain, fallbackName) == Domain(domain)
  {
    hide NormalizeDomain, Trim;
    var word: string := seq(n, i => 'a');
    var labels := [word];
    assert ValidLabel(word) && Join(labels, ".") == word;
    assert AllValid(labels);
    assert IsTestDomain(word + TLD);
    DomainCanonical(word + TLD);
    DomainAccepted(word + TLD, fallbackName);
  }

  // ---- What a path is named ----

  /** The last element of a path, trailing slashes aside. */
  lemma BaseOf(dir: string, base: string, slashes: string)
    requires base != "" && '/' !in base && All(slashes, {'/'})
    ensures Base(dir + "/" + base + slashes) == base
  {
    hide Split, TrimRight;
    var path := dir + "/" + base + slashes;
    assert path == (dir + "/" + base) + slashes;
    assert (dir + "/" + base)[|dir + "/" + base| - 1] == base[|base| - 1];
    TrimRightOf(dir + "/" + base, slashes, {'/'});
    assert dir + "/" + base == dir + ['/'] + base;
    SplitCat(dir, '/', base);
    SplitWhole(base, '/');
  }

  /** Lower-case letters, digits and single dashes between them. */
  predicate PlainName(name: string) {
    && name != "" && name[0] != '-' && name[|name| - 1] != '-'
    && (forall i | 0 <= i < |name| :: 'a' <= name[i] <= 'z' || '0' <= name[i] <= '9' || name[i] == '-')
    && (forall i | 0 <= i < |name| - 1 :: name[i] == '-' ==> name[i + 1] != '-')
  }

  /** A spelling of a name: capitals for letters, and an underscore, a space or a dot for a dash. */
  predicate Spells(base: string, name: string) {
    && |base| == |name|
    && forall i | 0 <= i < |base| ::
         || base[i] == name[i]
         || ('A' <= base[i] <= 'Z' && name[i] as int == base[i] as int + 32)
         || (base[i] in {'_', ' ', '.'} && name[i] == '-')
  }

  lemma SpellingHasNoSlash(base: string, name: string)
    requires PlainName(name) && Spells(base, name)
    ensures '/' !in base
  {
    forall i | 0 <= i < |base| ensures base[i] != '/' {
      assert name[i] != '/';
    }
  }

  lemma SpellingIsBare(base: string, name: string)
    requires PlainName(name) && Spells(base, name)
    ensures Bare(base, SPACES)
  {
    assert name[0] != '-' && name[|name| - 1] != '-';
  }

  lemma SpellingMaps(base: string, name: string)
    requires PlainName(name) && Spells(base, name)
    ensures MapChars(SlugChar, base) == name
  {
    forall i | 0 <= i < |base| ensures SlugChar(base[i]) == name[i] {}
  }

  /** A project is named after the last element of its path, in whatever spelling. */
  lemma NamedAfterLast(dir: string, base: string, slashes: string, name: string)
    requires PlainName(name) && Spells(base, name) && All(slashes, {'/'})
    ensures DeriveSiteName(dir + "/" + base + slashes) == name
  {
    hide Base, Trim, Squeeze, Keep;
    assert '/' !in base by { SpellingHasNoSlash(base, name); }
    BaseOf(dir, base, slashes);
    SpellingIsBare(base, name);
    TrimBare(base, SPACES);
    assert MapChars(SlugChar, base) == name by { SpellingMaps(base, name); }
    KeepShape(name);
    TrimBare(name, DASH);
    SqueezeFixed(name);
  }

  lemma OneCharIsNoName(base: string)
    requires base == "/" || base == "."
    ensures Slug(base) == ""
  {
    hide Squeeze, Trim;
    TrimBare(base, SPACES);
    var mapped := MapChars(SlugChar, base);
    assert mapped == if base == "/" then "/" else "-";
    var kept := Keep(mapped);
    KeepPush(mapped, 0);
    assert mapped[..1] == mapped && mapped[..0] == "" && Keep("") == "";
    assert kept == if base == "/" then "" else "-";
    assert Trim(kept, DASH) == "" by {
      assert All(kept, DASH) && kept + "" + "" == kept;
      TrimOf(kept, "", "", DASH);
    }
    SqueezeEnds("");
  }

  /** A path without an element of its own is named "site". */
  lemma RootIsNamedSite(slashes: string)
    requires All(slashes, {'/'})
    ensures DeriveSiteName(slashes) == "site"
  {
    hide Slug, TrimRight;
    if slashes != "" {
      assert "" + slashes == slashes;
      TrimRightOf("", slashes, {'/'});
    }
    OneCharIsNoName("/");
    OneCharIsNoName(".");
  }

  /** Labels, character by character. */
  lemma LabelsAre(l: string)
    ensures ValidLabel(l) <==>
            && l != "" && l[0] != '-' && l[|l| - 1] != '-'
            && forall i | 0 <= i < |l| :: 'a' <= l[i] <= 'z' || '0' <= l[i] <= '9' || l[i] == '-'
  {}

  lemma OneLabel(host: string)
    requires ValidLabel(host)
    ensures IsTestDomain(host + ".test")
  {
    var labels := [host];
    assert host + ".test" == Join(labels, ".") + TLD;
  }

  lemma FoldsTo(typed: string, domain: string)
    requires EqualFold(typed, domain) && ToLower(domain) == domain
    ensures ToLower(typed) == domain
  {}

  lemma FoldedEnds(typed: string, domain: string)
    requires ToLower(typed) == domain && domain != "" && Bare(domain, SPACES)
    ensures Bare(typed, SPACES) && typed != ""
  {
    LowerSpace(typed[0]);
    LowerSpace(typed[|typed| - 1]);
  }

  /** What a blank domain, and what capitals and padding, come to. */
  lemma DomainAsTyped(pad: string, typed: string, behind: string, fallbackName: string)
    requires All(pad, SPACES) && All(behind, SPACES)
    requires exists host: string :: PlainName(host) && EqualFold(typed, host + ".test")
    ensures NormalizeDomain(pad + typed + behind, fallbackName) == Domain(ToLower(typed))
  {
    hide NormalizeDomain, Trim, IsTestDomain, ToLower;
    var host: string :| PlainName(host) && EqualFold(typed, host + ".test");
    assert ValidLabel(host);
    var labels := [host];
    assert Join(labels, ".") == host && AllValid(labels);
    var domain := host + ".test";
    assert IsTestDomain(domain) by { OneLabel(host); }
    DomainCanonical(domain);
    LowerFixed(domain);
    assert ToLower(typed) == domain by { FoldsTo(typed, domain); }
    assert Bare(typed, SPACES) by { FoldedEnds(typed, domain); }
    TrimOf(pad, typed, behind, SPACES);
    DomainAccepted(pad + typed + behind, fallbackName);
  }

  lemma SpellingFolds(base: string, name: string)
    requires PlainName(name) && Spells(base, name)
    ensures Folded(base) == name
  {
    forall i | 0 <= i < |base| ensures FoldChar(base[i]) == name[i] {}
  }

  /** The token of a spelled name is the name; slashes count as separators too. */
  lemma TokenOfSpelling(pad: string, base: string, behind: string, name: string)
    requires PlainName(name) && Spells(base, name) && All(pad, SPACES) && All(behind, SPACES)
    ensures SanitizeToken(pad + base + behind) == name
  {
    hide Trim, Squeeze;
    SpellingIsBare(base, name);
    TrimOf(pad, base, behind, SPACES);
    assert Folded(base) == name by { SpellingFolds(base, name); }
    SqueezeFixed(name);
    TrimBare(name, DASH);
  }

  /** Where there is neither an ID nor a domain, the file is named "site". */
  lemma NamelessToken(id: string, domain: string)
    requires TrimSpace(id) == "" && TrimSpace(domain) == ""
    ensures SanitizeToken(FirstNonEmpty(id, domain)) == "site"
  {
    hide TrimSpace, SanitizeToken;
    assert "" + "site" + "" == "site" && PlainName("site") && Spells("site", "site");
    TokenOfSpelling("", "site", "", "site");
  }
}
