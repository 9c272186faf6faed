/** The text of the systemd-resolved drop-in: its printer and its two recognisers. */
module ResolverStub {
  import opened Text

  const MARKER := "# Managed by Lara Nux"

  datatype Spec = Spec(domain: string, address: string)

  function NormalizeSpec(spec: Spec): Spec {
    var domain := TrimPrefix(ToLower(TrimSpace(spec.domain)), ".");
    var address := TrimSpace(spec.address);
    Spec(if domain == "" then "test" else domain, if address == "" then "127.0.0.1" else address)
  }

  function DnsLine(address: string): string {
    "DNS=" + address
  }

  function DomainsLine(domain: string): string {
    "Domains=~" + domain
  }

  function RenderStub(spec: Spec): string {
    MARKER + "\n" + "[Resolve]" + "\n" + DnsLine(spec.address) + "\n" + DomainsLine(spec.domain) + "\n"
  }

  predicate IsManaged(payload: string) {
    Contains(payload, MARKER)
  }

  // ---- Recognising a routing claim ----

  /** `strings.Cut`: the text before and after the first separator. */
  function Cut(s: string, c: char): Option<(string, string)> {
    if s == "" then None
    else if s[0] == c then Some(("", s[1..]))
    else match Cut(s[1..], c)
      case None => None
      case Some(parts) => Some(([s[0]] + parts.0, parts.1))
  }

  function WordLength(s: string): (n: nat)
    ensures n <= |s|
    ensures s != "" && s[0] !in SPACES ==> n > 0
  {
    if s == "" || s[0] in SPACES then 0 else 1 + WordLength(s[1..])
  }

  /** `strings.Fields`: the maximal runs of characters that are not white space. */
  function Fields(s: string): seq<string>
    decreases |s|
  {
    var t := TrimLeft(s, SPACES);
    if t == "" then []
    else
      var n := WordLength(t);
      if n == 0 then [] else [t[..n]] + Fields(t[n..])
  }

  function Needle(domain: string): string {
    "~" + TrimPrefix(ToLower(TrimSpace(domain)), ".")
  }

  predicate LineClaims(raw: string, needle: string) {
    var line := TrimSpace(raw);
    && line != "" && !HasPrefix(line, "#") && !HasPrefix(line, ";")
    && var parts := Cut(line, '=');
    && parts.Some?
    && EqualFold(TrimSpace(parts.value.0), "Domains")
    && exists token | token in Fields(parts.value.1) :: EqualFold(TrimSpace(token), needle)
  }

  predicate OwnsDomain(payload: string, domain: string) {
    exists line | line in Split(payload, '\n') :: LineClaims(line, Needle(domain))
  }

  // ---- Words ----

  predicate NoSpace(s: string) {
    forall i | 0 <= i < |s| :: s[i] !in SPACES
  }

  lemma {:induction false} WordIsSpaceless(s: string)
    ensures NoSpace(s[..WordLength(s)])
    ensures NoSpace(s) ==> WordLength(s) == |s|
  {
    if s != "" && s[0] !in SPACES {
      WordIsSpaceless(s[1..]);
      var n := WordLength(s);
      assert forall i | 1 <= i < n :: s[i] == s[1..][..n - 1][i - 1];
      assert forall i | 0 <= i < |s| - 1 :: s[1..][i] == s[i + 1];
    }
  }

  lemma {:induction false} FieldsSpaceless(s: string)
    ensures forall token | token in Fields(s) :: NoSpace(token)
    decreases |s|
  {
    var t := TrimLeft(s, SPACES);
    var n := WordLength(t);
    if t != "" && n > 0 {
      WordIsSpaceless(t);
      FieldsSpaceless(t[n..]);
    }
  }

  lemma FieldsOfNothing()
    ensures Fields("") == []
  {}

  lemma FieldsStep(s: string)
    requires s != "" && s[0] !in SPACES
    ensures Fields(s) == [s[..WordLength(s)]] + Fields(s[WordLength(s)..])
  {
    assert TrimLeft(s, SPACES) == s;
  }

  lemma NoSpaceAtAll(word: string)
    requires word != "" && NoSpace(word)
    ensures word[0] !in SPACES
  {}

  lemma FieldsOfWord(w: string)
    requires w != "" && NoSpace(w)
    ensures Fields(w) == [w]
  {
    hide NoSpace, WordLength, TrimLeft, Fields;
    WordIsSpaceless(w);
    NoSpaceAtAll(w);
    FieldsStep(w);
    FieldsOfNothing();
    assert w[..|w|] == w && w[|w|..] == "";
  }

  lemma {:induction false} CutOf(key: string, c: char, value: string)
    requires c !in key
    ensures Cut(key + [c] + value, c) == Some((key, value))
  {
    var s := key + [c] + value;
    if key == "" {
      assert s == [c] + value;
      assert s[1..] == value;
    } else {
      assert s[1..] == key[1..] + [c] + value;
      CutOf(key[1..], c, value);
      assert [key[0]] + key[1..] == key;
    }
  }

  lemma {:induction false} CutNone(s: string, c: char)
    requires c !in s
    ensures Cut(s, c).None?
  {
    if s != "" {
      CutNone(s[1..], c);
    }
  }

  // ---- Which lines of a rendered stub claim a domain ----

  lemma NormalSpec(spec: Spec)
    ensures var s := NormalizeSpec(spec);
            && s.address != "" && Bare(s.address, SPACES)
            && s.domain != "" && IsLower(s.domain)
            && (NoSpace(s.domain) ==> TrimSpace(s.domain) == s.domain)
  {
    hide Trim;
    var domain := TrimSpace(spec.domain);
    var pre, post := TrimParts(spec.address, SPACES);
    LowerFixed(domain);
    var s := NormalizeSpec(spec);
    if NoSpace(s.domain) {
      TrimBare(s.domain, SPACES);
    }
  }

  lemma FoldSpaceless(a: string, b: string)
    requires EqualFold(a, b) && NoSpace(a)
    ensures NoSpace(b)
  {
    assert |ToLower(a)| == |ToLower(b)|;
    forall i | 0 <= i < |b| ensures b[i] !in SPACES {
      LowerSpace(a[i]);
      LowerSpace(b[i]);
      assert ToLower(a)[i] == ToLower(b)[i];
    }
  }

  lemma NormalDomain(spec: Spec)
    ensures var s := NormalizeSpec(spec); s.domain != "" && s.domain[|s.domain| - 1] !in SPACES
  {
    hide Trim;
    var t := TrimSpace(spec.domain);
    var pre, post := TrimParts(spec.domain, SPACES);
    if t != "" {
      LowerSpace(t[|t| - 1]);
    }
  }

  /** A normalised address is a fixed point of the normalisation. */
  lemma AddressKept(spec: Spec)
    ensures NormalizeSpec(NormalizeSpec(spec)).address == NormalizeSpec(spec).address
  {
    NormalSpec(spec);
    TrimBare(NormalizeSpec(spec).address, SPACES);
  }

  function StubHead(address: string): string {
    MARKER + "\n" + "[Resolve]" + "\n" + DnsLine(address) + "\n" + "Domains=~"
  }

  /** Trimming a rendered stub drops its last line break only. */
  lemma TrimmedStub(spec: Spec)
    ensures var s := NormalizeSpec(spec); TrimSpace(RenderStub(s)) == StubHead(s.address) + s.domain
  {
    hide NormalizeSpec, Trim, DnsLine;
    NormalDomain(spec);
    var s := NormalizeSpec(spec);
    var t := StubHead(s.address) + s.domain;
    assert RenderStub(s) == "" + t + "\n";
    assert t[0] == '#';
    TrimOf("", t, "\n", SPACES);
  }

  /** A needle with white space inside matches no token. */
  lemma SpacedNeedle(line: string, needle: string)
    requires !NoSpace(needle)
    ensures !LineClaims(line, needle)
  {
    hide Trim, Cut, Fields;
    if LineClaims(line, needle) {
      var parts := Cut(TrimSpace(line), '=');
      var token :| token in Fields(parts.value.1) && EqualFold(TrimSpace(token), needle);
      FieldsSpaceless(parts.value.1);
      TrimBare(token, SPACES);
      FoldSpaceless(token, needle);
    }
  }

  lemma DomainsLineClaims(domain: string, needle: string)
    requires domain != "" && NoSpace(domain)
    ensures LineClaims(DomainsLine(domain), needle) <==> EqualFold("~" + domain, needle)
  {
    hide Trim, Cut, Fields;
    var line, value := DomainsLine(domain), "~" + domain;
    TrimBare(line, SPACES);
    assert line == "Domains" + ['='] + value;
    CutOf("Domains", '=', value);
    TrimBare("Domains", SPACES);
    FieldsOfWord(value);
    TrimBare(value, SPACES);
    assert value in [value];
  }

  lemma DnsLineClaimsNothing(address: string, needle: string)
    requires address != "" && Bare(address, SPACES)
    ensures !LineClaims(DnsLine(address), needle)
  {
    hide Trim, Cut, Fields;
    var line := DnsLine(address);
    TrimBare(line, SPACES);
    assert line == "DNS" + ['='] + address;
    CutOf("DNS", '=', address);
    TrimBare("DNS", SPACES);
    assert |ToLower("DNS")| == 3 && |ToLower("Domains")| == 7;
  }

  lemma HeaderClaimsNothing(needle: string)
    ensures !LineClaims(MARKER, needle) && !LineClaims("[Resolve]", needle) && !LineClaims("", needle)
  {
    hide Trim, Cut, Fields;
    TrimBare(MARKER, SPACES);
    TrimBare("[Resolve]", SPACES);
    TrimBare("", SPACES);
    CutNone("[Resolve]", '=');
  }

  lemma MarkerIsOneLine()
    ensures '\n' !in MARKER && '\n' !in "[Resolve]"
  {}

  lemma DomainIsOneLine(domain: string)
    requires '\n' !in domain
    ensures '\n' !in DomainsLine(domain)
  {}

  lemma StubSplits(a: string, b: string, c: string, d: string)
    requires '\n' !in a && '\n' !in b
    ensures Split(a + "\n" + b + "\n" + c + "\n" + d + "\n", '\n') == [a, b] + Split(c, '\n') + Split(d, '\n') + [""]
  {
    hide Split;
    var abc := a + "\n" + b + "\n" + c;
    SplitCat(abc + "\n" + d, '\n', "");
    assert abc + "\n" + d + ['\n'] + "" == a + "\n" + b + "\n" + c + "\n" + d + "\n";
    SplitCat(abc, '\n', d);
    SplitCat(a + "\n" + b, '\n', c);
    SplitCat(a, '\n', b);
    SplitWhole(a, '\n');
    SplitWhole(b, '\n');
    SplitWhole("", '\n');
  }

  lemma StubLines(spec: Spec)
    ensures Split(RenderStub(spec), '\n') ==
            [MARKER, "[Resolve]"] + Split(DnsLine(spec.address), '\n') + Split(DomainsLine(spec.domain), '\n') + [""]
  {
    hide Split;
    MarkerIsOneLine();
    StubSplits(MARKER, "[Resolve]", DnsLine(spec.address), DomainsLine(spec.domain));
  }

  // ---- Main results ----

  /** A rendered stub always carries the managed marker. */
  lemma StubIsManaged(spec: Spec)
    ensures IsManaged(RenderStub(spec))
  {
    hide Contains;
    var rest := "\n" + "[Resolve]" + "\n" + DnsLine(spec.address) + "\n" + DomainsLine(spec.domain) + "\n";
    assert RenderStub(spec) == "" + MARKER + rest;
    ContainsMiddle("", MARKER, rest);
  }

  lemma NeedleOfWord(domain: string)
    requires domain != "" && IsLower(domain) && NoSpace(domain)
    ensures EqualFold("~" + domain, Needle(domain)) <==> domain[0] != '.'
  {
    hide Trim, LowerChar;
    TrimBare(domain, SPACES);
    LowerFixed(domain);
    assert |ToLower("~" + domain)| == |domain| + 1;
  }

  /** Normalising a domain for the search keeps the white space inside it. */
  lemma SpacedDomain(domain: string)
    requires IsLower(domain) && !NoSpace(domain) && Bare(domain, SPACES)
    ensures !NoSpace(Needle(domain))
  {
    hide Trim, LowerChar;
    TrimBare(domain, SPACES);
    LowerFixed(domain);
    var i :| 0 <= i < |domain| && domain[i] in SPACES;
    var needle := Needle(domain);
    if domain[0] == '.' {
      assert needle == "~" + domain[1..];
      assert needle[i] == domain[i];
    } else {
      assert needle == "~" + domain;
      assert needle[i + 1] == domain[i];
    }
  }

  /** Some line of the domain entry, which has several when the domain has a line break, claims a needle. */
  predicate DomainClaims(domain: string, needle: string) {
    exists line | line in Split(DomainsLine(domain), '\n') :: LineClaims(line, needle)
  }

  /** Some line of the address, which may have several, claims a needle. */
  predicate AddressClaims(address: string, needle: string) {
    exists line | line in Split(DnsLine(address), '\n') :: LineClaims(line, needle)
  }

  lemma OneLineClaimsNothing(address: string, needle: string)
    requires address != "" && Bare(address, SPACES) && '\n' !in address
    ensures !AddressClaims(address, needle)
  {
    hide LineClaims;
    SplitWhole(DnsLine(address), '\n');
    DnsLineClaimsNothing(address, needle);
  }

  /** A stub claims what its address lines and its domain lines claim. */
  lemma StubClaimsByLines(s: Spec, needle: string)
    ensures (exists line | line in Split(RenderStub(s), '\n') :: LineClaims(line, needle)) <==>
            DomainClaims(s.domain, needle) || AddressClaims(s.address, needle)
  {
    hide RenderStub, DnsLine, DomainsLine, LineClaims, Split;
    StubLines(s);
    HeaderClaimsNothing(needle);
    var all := Split(RenderStub(s), '\n');
    var dns, domains := Split(DnsLine(s.address), '\n'), Split(DomainsLine(s.domain), '\n');
    assert all == [MARKER, "[Resolve]"] + dns + domains + [""];
    assert forall line | line in dns || line in domains :: line in all;
  }

  /** A stub whose domain has no white space claims exactly that domain, besides what its address claims. */
  lemma StubClaims(s: Spec, needle: string)
    requires s.domain != "" && NoSpace(s.domain)
    ensures (exists line | line in Split(RenderStub(s), '\n') :: LineClaims(line, needle)) <==>
            EqualFold("~" + s.domain, needle) || AddressClaims(s.address, needle)
  {
    hide RenderStub, DnsLine, DomainsLine, LineClaims, Split, AddressClaims;
    StubClaimsByLines(s, needle);
    DomainIsOneLine(s.domain);
    SplitWhole(DomainsLine(s.domain), '\n');
    DomainsLineClaims(s.domain, needle);
  }

  // ---- Domains that kept white space in front ----

  lemma CutShortens(s: string, c: char)
    ensures var parts := Cut(s, c); parts.Some? ==> |parts.value.1| < |s|
  {}

  lemma {:induction false} FieldsShorten(s: string)
    ensures forall token | token in Fields(s) :: |token| <= |s|
    decreases |s|
  {
    var t := TrimLeft(s, SPACES);
    var n := WordLength(t);
    if t != "" && n > 0 {
      FieldsShorten(t[n..]);
    }
  }

  lemma TrimNoLonger(s: string)
    ensures |TrimSpace(s)| <= |s|
  {}

  lemma FoldLength(a: string, b: string)
    requires EqualFold(a, b)
    ensures |a| == |b|
  {
    assert |ToLower(a)| == |ToLower(b)|;
  }

  /** A line claims no needle as long as its trimmed text. */
  lemma ShortLineClaimsNothing(line: string, needle: string)
    requires |TrimSpace(line)| <= |needle|
    ensures !LineClaims(line, needle)
  {
    hide Trim, Cut, Fields, EqualFold;
    if LineClaims(line, needle) {
      var parts := Cut(TrimSpace(line), '=');
      var token :| token in Fields(parts.value.1) && EqualFold(TrimSpace(token), needle);
      CutShortens(TrimSpace(line), '=');
      FieldsShorten(parts.value.1);
      TrimNoLonger(token);
      FoldLength(TrimSpace(token), needle);
    }
  }

  /** Behind a line break, every line of a padded word is blank or the word. */
  lemma {:induction false} PaddedLines(pad: string, word: string)
    requires All(pad, SPACES) && NoSpace(word)
    ensures forall line | line in Split(pad + word, '\n') :: TrimSpace(line) in {"", word}
  {
    hide Trim;
    TrimBare(word, SPACES);
    TrimBare("", SPACES);
    if pad == "" {
      assert pad + word == word;
      SplitWhole(word, '\n');
    } else {
      assert (pad + word)[1..] == pad[1..] + word;
      PaddedLines(pad[1..], word);
      var rest := Split(pad[1..] + word, '\n');
      TrimHead(pad[0], rest[0]);
      assert rest[0] in rest;
      assert forall line | line in rest[1..] :: line in rest;
    }
  }

  /** Only what is left of a left-trimmed text matters. */
  lemma FieldsTrimmed(s: string)
    ensures Fields(s) == Fields(TrimLeft(s, SPACES))
  {
    hide TrimLeft;
    var t := TrimLeft(s, SPACES);
    TrimLeftCut(s, SPACES);
    assert All("", SPACES) && "" + t == t;
    TrimLeftOf("", t, SPACES);
  }

  lemma TildeAlone(s: string)
    requires |s| > 1 && s[0] == '~' && s[1] in SPACES
    ensures WordLength(s) == 1
  {
    assert s[1..][0] == s[1];
  }

  lemma FieldsOfTwo(pad: string, word: string)
    requires pad != "" && All(pad, SPACES) && word != "" && NoSpace(word)
    ensures Fields("~" + pad + word) == ["~", word]
  {
    hide TrimLeft, Fields, NoSpace;
    var s := "~" + pad + word;
    assert s[1..] == pad + word && s[..1] == "~" && s[1] == pad[0];
    TildeAlone(s);
    FieldsStep(s);
    FieldsTrimmed(pad + word);
    assert word[0] !in SPACES by { NoSpaceAtAll(word); }
    TrimLeftOf(pad, word, SPACES);
    FieldsOfWord(word);
  }

  lemma FoldsAlike(s: string)
    ensures EqualFold(s, s)
  {}

  /** A line that gives the key a value claims what the value's words say. */
  lemma ValueClaims(line: string, value: string, needle: string)
    requires TrimSpace(line) == "Domains" + ['='] + value
    ensures LineClaims(line, needle) <==> exists token | token in Fields(value) :: EqualFold(TrimSpace(token), needle)
  {
    hide Trim, Cut, Fields, EqualFold;
    var t := TrimSpace(line);
    assert t[0] == 'D';
    CutOf("Domains", '=', value);
    assert TrimSpace("Domains") == "Domains" by { TrimBare("Domains", SPACES); }
    assert EqualFold("Domains", "Domains") by { FoldsAlike("Domains"); }
    assert LineClaims(line, needle) <==>
           Cut(t, '=').Some? && exists token | token in Fields(value) :: EqualFold(TrimSpace(token), needle);
  }

  /** A domain line whose key is followed by white space alone. */
  lemma BlankLineClaims(pad: string, needle: string)
    requires All(pad, SPACES)
    ensures LineClaims("Domains=~" + pad, needle) <==> EqualFold("~", needle)
  {
    hide Trim, Fields, EqualFold, LineClaims;
    var line := "Domains=~" + pad;
    assert "" + "Domains=~" + pad == line;
    TrimOf("", "Domains=~", pad, SPACES);
    assert "Domains=~" == "Domains" + ['='] + "~";
    ValueClaims(line, "~", needle);
    assert NoSpace("~");
    FieldsOfWord("~");
    TrimBare("~", SPACES);
    assert "~" in ["~"];
  }

  /** A domain line whose key is followed by white space and a word. */
  lemma SpreadLineClaims(pad: string, word: string, needle: string)
    requires pad != "" && All(pad, SPACES) && word != "" && NoSpace(word)
    ensures LineClaims("Domains=~" + pad + word, needle) <==> EqualFold("~", needle) || EqualFold(word, needle)
  {
    hide Trim, Fields, EqualFold, LineClaims;
    var line, value := "Domains=~" + pad + word, "~" + pad + word;
    assert line == "Domains" + ['='] + value;
    TrimBare(line, SPACES);
    ValueClaims(line, value, needle);
    FieldsOfTwo(pad, word);
    TrimBare("~", SPACES);
    TrimBare(word, SPACES);
    assert "~" in ["~", word] && word in ["~", word];
  }

  lemma FirstBreak(pad: string) returns (head: string, rest: string)
    requires '\n' in pad
    ensures pad == head + "\n" + rest && '\n' !in head
  {
    var i := 0;
    while pad[i] != '\n'
      invariant 0 <= i < |pad| && '\n' in pad[i..]
      invariant '\n' !in pad[..i]
      decreases |pad| - i
    {
      assert pad[i..] == [pad[i]] + pad[i + 1..];
      assert pad[..i + 1] == pad[..i] + [pad[i]];
      i := i + 1;
    }
    head, rest := pad[..i], pad[i + 1..];
  }

  lemma PartsOfPad(pad: string, head: string, rest: string)
    requires All(pad, SPACES) && pad == head + "\n" + rest
    ensures All(head, SPACES) && All(rest, SPACES)
  {
    assert forall i | 0 <= i < |head| :: head[i] == pad[i];
    assert forall i | 0 <= i < |rest| :: rest[i] == pad[|head| + 1 + i];
  }

  /** What the domain lines of a word behind white space claim: the word, if no line break parts it from its
      key, and the needle of an empty domain. */
  lemma SpreadDomainClaims(pad: string, word: string, needle: string)
    requires pad != "" && All(pad, SPACES) && word != "" && NoSpace(word)
    requires |word| <= |needle| && !EqualFold(word, needle)
    ensures DomainClaims(pad + word, needle) <==> EqualFold("~", needle)
  {
    hide LineClaims, Split, EqualFold;
    var line := DomainsLine(pad + word);
    assert line == "Domains=~" + pad + word;
    if '\n' !in pad {
      assert '\n' !in line;
      SplitWhole(line, '\n');
      SpreadLineClaims(pad, word, needle);
    } else {
      var head, rest := FirstBreak(pad);
      assert line == ("Domains=~" + head) + ['\n'] + (rest + word);
      SplitCat("Domains=~" + head, '\n', rest + word);
      SplitWhole("Domains=~" + head, '\n');
      assert All(head, SPACES) && All(rest, SPACES) by { PartsOfPad(pad, head, rest); }
      BlankLineClaims(head, needle);
      PaddedLines(rest, word);
      forall l | l in Split(rest + word, '\n') ensures !LineClaims(l, needle) {
        ShortLineClaimsNothing(l, needle);
      }
      assert "Domains=~" + head in Split(line, '\n');
    }
  }

  /** The needle of a word is no shorter than the word, never the word, and bare exactly for a single dot. */
  lemma NeedleOfPadded(word: string)
    requires word != "" && NoSpace(word) && IsLower(word)
    ensures var needle := "~" + TrimPrefix(word, ".");
            |word| <= |needle| && !EqualFold(word, needle) && (EqualFold("~", needle) <==> word == ".")
  {
    var needle := "~" + TrimPrefix(word, ".");
    assert |ToLower(word)| == |word| && |ToLower(needle)| == |needle|;
    assert ToLower(word)[0] == word[0] && ToLower(needle)[0] == '~';
    if word == "." {
      assert needle == "~";
    }
  }

  lemma NeedleOfTrimmed(domain: string)
    requires IsLower(domain)
    ensures Needle(domain) == "~" + TrimPrefix(TrimSpace(domain), ".")
    ensures !NoSpace(TrimSpace(domain)) ==> !NoSpace(Needle(domain))
  {
    hide Trim, LowerChar;
    var pre, post := TrimParts(domain, SPACES);
    var word := TrimSpace(domain);
    TrimKeepsLower(domain);
    LowerFixed(word);
    if !NoSpace(word) {
      TrimBare(word, SPACES);
      SpacedDomain(word);
    }
  }

  lemma NothingBehind(a: string, post: string)
    requires All(post, SPACES)
    requires a + post != "" ==> (a + post)[|a + post| - 1] !in SPACES
    ensures post == ""
  {
    assert forall i | 0 <= i < |post| :: (a + post)[|a| + i] == post[i];
  }

  lemma PaddedIsClaimed(spec: Spec)
    requires !NoSpace(NormalizeSpec(spec).domain) && NoSpace(TrimSpace(NormalizeSpec(spec).domain))
    ensures var s := NormalizeSpec(spec);
            OwnsDomain(RenderStub(s), s.domain) <==>
            TrimSpace(s.domain) == "." || AddressClaims(s.address, Needle(s.domain))
  {
    hide NormalizeSpec, RenderStub, LineClaims, Split, Trim, LowerChar, Needle, AddressClaims, DomainClaims, EqualFold;
    var s := NormalizeSpec(spec);
    NormalSpec(spec);
    NormalDomain(spec);
    var word := TrimSpace(s.domain);
    var pad, post := TrimParts(s.domain, SPACES);
    NothingBehind(pad + word, post);
    assert s.domain == pad + word;
    assert word != "" by { assert word == "" ==> s.domain == pad; }
    assert pad != "" by { assert pad == "" ==> s.domain == word; }
    NeedleOfTrimmed(s.domain);
    TrimKeepsLower(s.domain);
    NeedleOfPadded(word);
    SpreadDomainClaims(pad, word, Needle(s.domain));
    StubClaimsByLines(s, Needle(s.domain));
  }

  /** The printer and the recogniser agree: for every address, the stub rendered from a specification is
      seen to claim its domain when the normalised domain has no white space and no leading dot (the
      normalisation strips one dot only). With white space inside it never is. With a leading dot, or with
      white space in front, it is exactly when a further line of the address claims it, except that a single
      dot behind white space is. */
  lemma StubClaimsItsDomain(spec: Spec)
    ensures var s := NormalizeSpec(spec);
            var word := TrimSpace(s.domain);
            && (NoSpace(s.domain) ==>
                  (OwnsDomain(RenderStub(s), s.domain) <==>
                   s.domain[0] != '.' || AddressClaims(s.address, Needle(s.domain))))
            && (!NoSpace(s.domain) && NoSpace(word) ==>
                  (OwnsDomain(RenderStub(s), s.domain) <==>
                   word == "." || AddressClaims(s.address, Needle(s.domain))))
            && (!NoSpace(word) ==> !OwnsDomain(RenderStub(s), s.domain))
            && ('\n' !in s.address ==> !AddressClaims(s.address, Needle(s.domain)))
  {
    hide NormalizeSpec, RenderStub, DnsLine, DomainsLine, LineClaims, Split, Trim, LowerChar, Needle, AddressClaims,
      DomainClaims;
    var s := NormalizeSpec(spec);
    var needle := Needle(s.domain);
    var pre, post := TrimParts(s.domain, SPACES);
    NormalSpec(spec);
    if '\n' !in s.address {
      OneLineClaimsNothing(s.address, needle);
    }
    if NoSpace(s.domain) {
      StubClaims(s, needle);
      NeedleOfWord(s.domain);
    } else if NoSpace(TrimSpace(s.domain)) {
      PaddedIsClaimed(spec);
    } else {
      NeedleOfTrimmed(s.domain);
      forall line | line in Split(RenderStub(s), '\n') ensures !LineClaims(line, needle) {
        SpacedNeedle(line, needle);
      }
    }
  }

  // ---- When one normalisation is not enough ----

  /** A domain whose leading dot is followed by another dot or by white space. */
  predicate DottedTwice(raw: Spec) {
    var t := TrimSpace(raw.domain);
    |t| >= 2 && t[0] == '.' && (t[1] == '.' || t[1] in SPACES)
  }

  lemma DotStays(t: string)
    ensures forall i | 0 <= i < |t| ::
              (ToLower(t)[i] == '.' <==> t[i] == '.') && (ToLower(t)[i] in SPACES <==> t[i] in SPACES)
  {}

  /** Normalising again changes a specification exactly when its domain was dotted twice. */
  lemma NormalTwice(raw: Spec)
    ensures var s := NormalizeSpec(raw);
            && (NormalizeSpec(s) == s <==> !DottedTwice(raw))
            && (DottedTwice(raw) <==> s.domain[0] == '.' || s.domain[0] in SPACES)
  {
    hide Trim, LowerChar;
    var s := NormalizeSpec(raw);
    var t := TrimSpace(raw.domain);
    var pre, post := TrimParts(raw.domain, SPACES);
    NormalSpec(raw);
    NormalDomain(raw);
    TrimBare(s.address, SPACES);
    LowerFixed(s.domain);
    DotStays(t);
    if Bare(s.domain, SPACES) {
      TrimBare(s.domain, SPACES);
    } else {
      TrimShorter(s.domain, SPACES);
    }
  }

  lemma DottedIsLower()
    ensures IsLower("..test")
  {}

  /** What normalising does to a specification in plain form. */
  lemma PlainSpec(domain: string, address: string)
    requires |domain| > 1 && Bare(domain, SPACES) && IsLower(domain)
    requires address != "" && Bare(address, SPACES)
    ensures NormalizeSpec(Spec(domain, address)) == Spec(if domain[0] == '.' then domain[1..] else domain, address)
  {
    hide Trim, LowerChar;
    TrimBare(domain, SPACES);
    TrimBare(address, SPACES);
    LowerFixed(domain);
  }

  /** Two leading dots: one is stripped, and the stub of the other is not recognised. */
  lemma DottedStub()
    ensures var s := NormalizeSpec(Spec("..test", "127.0.0.1"));
            s == Spec(".test", "127.0.0.1") && !OwnsDomain(RenderStub(s), s.domain)
    ensures DottedTwice(Spec("..test", "127.0.0.1"))
  {
    hide NormalizeSpec, RenderStub, OwnsDomain, AddressClaims, Trim, LowerChar;
    TrimBare("..test", SPACES);
    assert IsLower("..test") by { DottedIsLower(); }
    PlainSpec("..test", "127.0.0.1");
    StubClaimsItsDomain(Spec("..test", "127.0.0.1"));
  }

  /** A single dot behind white space: the search takes it for an empty domain, and finds one. */
  lemma PaddedDotStub()
    ensures var s := NormalizeSpec(Spec(". .", "127.0.0.1"));
            s == Spec(" .", "127.0.0.1") && OwnsDomain(RenderStub(s), s.domain)
  {
    hide NormalizeSpec, RenderStub, OwnsDomain, AddressClaims, Trim;
    PlainSpec(". .", "127.0.0.1");
    assert " ." == " " + "." + "";
    TrimOf(" ", ".", "", SPACES);
    assert !NoSpace(" .") by { assert " ."[0] in SPACES; }
    StubClaimsItsDomain(Spec(". .", "127.0.0.1"));
  }

  /** White space inside: the search splits the domain. */
  lemma SpacedStub()
    ensures var s := NormalizeSpec(Spec("a b", "127.0.0.1"));
            s == Spec("a b", "127.0.0.1") && !OwnsDomain(RenderStub(s), s.domain)
  {
    hide NormalizeSpec, RenderStub, OwnsDomain, AddressClaims;
    PlainSpec("a b", "127.0.0.1");
    assert "a b"[1] in SPACES;
    StubClaimsItsDomain(Spec("a b", "127.0.0.1"));
  }

  // ---- Reading a resolver file ----

  /** The lines of a rendered stub. */
  lemma StubReads(spec: Spec)
    requires '\n' !in spec.address && '\n' !in spec.domain
    ensures Split(RenderStub(spec), '\n') ==
            ["# Managed by Lara Nux", "[Resolve]", "DNS=" + spec.address, "Domains=~" + spec.domain, ""]
  {
    hide Split;
    StubLines(spec);
    SplitWhole(DnsLine(spec.address), '\n');
    SplitWhole(DomainsLine(spec.domain), '\n');
  }

  lemma DotLowers(dot: string, domain: string)
    requires dot in {"", "."}
    ensures ToLower(dot + domain) == dot + ToLower(domain)
  {}

  /** What a specification becomes: its domain lower-cased without its leading dot, and "test" on the loopback
      address where it says nothing. */
  lemma NormalFill(pad: string, dot: string, domain: string, behind: string, address: string)
    requires All(pad, SPACES) && All(behind, SPACES) && dot in {"", "."}
    requires domain != "" && domain[0] != '.' && NoSpace(domain) && address != "" && Bare(address, SPACES)
    ensures NormalizeSpec(Spec(pad + dot + domain + behind, address)) == Spec(ToLower(domain), address)
    ensures NormalizeSpec(Spec(pad, behind)) == Spec("test", "127.0.0.1")
  {
    hide Trim, LowerChar;
    var core := dot + domain;
    assert pad + dot + domain + behind == pad + core + behind;
    TrimOf(pad, core, behind, SPACES);
    DotStays(core);
    assert ToLower(core) == dot + ToLower(domain) by { DotLowers(dot, domain); }
    assert ToLower(domain)[0] != '.' by { DotStays(domain); }
    TrimBare(address, SPACES);
    assert pad + "" + "" == pad && behind + "" + "" == behind;
    TrimOf(pad, "", "", SPACES);
    TrimOf(behind, "", "", SPACES);
  }

  lemma SpaceTrims(s: string)
    ensures TrimLeft(" " + s, SPACES) == TrimLeft(s, SPACES)
  {
    assert (" " + s)[1..] == s;
  }

  lemma {:induction false} WordEnds(w: string, c: char, more: string)
    requires NoSpace(w) && c in SPACES
    ensures WordLength(w + [c] + more) == |w|
  {
    if w != "" {
      assert (w + [c] + more)[1..] == w[1..] + [c] + more;
      WordEnds(w[1..], c, more);
    }
  }

  lemma {:induction false} FieldsOfWords(words: seq<string>)
    requires words != [] && forall w | w in words :: w != "" && NoSpace(w)
    ensures Fields(Join(words, " ")) == words
  {
    hide Fields, NoSpace, TrimLeft;
    var w := words[0];
    assert w in words && forall x | x in words[1..] :: x in words;
    if |words| == 1 {
      FieldsOfWord(w);
    } else {
      var more := Join(words[1..], " ");
      var s := w + " " + more;
      FieldsOfWords(words[1..]);
      assert w[0] !in SPACES by { NoSpaceAtAll(w); }
      WordEnds(w, ' ', more);
      assert w + [' '] + more == s;
      FieldsStep(s);
      assert s[..|w|] == w && s[|w|..] == " " + more;
      FieldsTrimmed(" " + more);
      FieldsTrimmed(more);
      SpaceTrims(more);
      assert words == [w] + words[1..];
    }
  }

  lemma {:induction false} WordsEndBare(words: seq<string>)
    requires words != [] && forall w | w in words :: w != "" && NoSpace(w)
    ensures var s := Join(words, " "); s != "" && s[|s| - 1] !in SPACES && '\n' !in s
  {
    assert words[0] in words && forall x | x in words[1..] :: x in words;
    if |words| > 1 {
      WordsEndBare(words[1..]);
    }
  }

  lemma KeyIsPlain(key: string)
    requires EqualFold(key, "Domains")
    ensures |key| == 7 && '=' !in key && '\n' !in key && NoSpace(key) && key[0] != '#' && key[0] != ';'
  {
    FoldLaw(key, "Domains");
    forall i | 0 <= i < |key| ensures key[i] != '=' && key[i] !in SPACES && key[i] != '#' && key[i] != ';' {
      assert SameLetter(key[i], "Domains"[i]);
      assert 'A' <= "Domains"[i] <= 'z';
    }
  }

  /** An entry for routing domains, its key in any case, claims what is among its words. */
  lemma DomainsEntry(key: string, words: seq<string>, needle: string)
    requires EqualFold(key, "Domains") && words != [] && forall w | w in words :: w != "" && NoSpace(w)
    ensures LineClaims(key + "=" + Join(words, " "), needle) <==> exists w | w in words :: EqualFold(w, needle)
  {
    hide Trim, Cut, Fields, EqualFold, Join;
    var value := Join(words, " ");
    var line := key + "=" + value;
    KeyIsPlain(key);
    WordsEndBare(words);
    TrimBare(line, SPACES);
    TrimBare(key, SPACES);
    assert line == key + ['='] + value;
    CutOf(key, '=', value);
    FieldsOfWords(words);
    forall w | w in words ensures TrimSpace(w) == w {
      TrimBare(w, SPACES);
    }
  }

  lemma TildeLowers(domain: string)
    ensures ToLower("~" + domain) == "~" + ToLower(domain)
  {}

  lemma NeedleFolds(domain: string)
    requires domain != "" && NoSpace(domain) && domain[0] != '.'
    ensures EqualFold("~" + domain, Needle(domain))
  {
    hide Trim, LowerChar;
    TrimBare(domain, SPACES);
    DotStays(domain);
    assert Needle(domain) == "~" + ToLower(domain);
    LowerFixed(domain);
    LowerFixed(ToLower(domain));
    TildeLowers(domain);
    TildeLowers(ToLower(domain));
  }

  lemma FoldChain(a: string, b: string, c: string)
    requires EqualFold(a, b) && EqualFold(b, c)
    ensures EqualFold(a, c)
  {}

  lemma LineInside(before: string, line: string, after: string)
    requires '\n' !in line
    ensures line in Split(before + "\n" + line + "\n" + after, '\n')
  {
    hide Split;
    assert before + "\n" + line + "\n" + after == (before + ['\n'] + line) + ['\n'] + after;
    SplitCat(before + ['\n'] + line, '\n', after);
    SplitCat(before, '\n', line);
    SplitWhole(line, '\n');
  }

  /** A file whose entry, on any line, has the routing domain among its words claims the domain. */
  lemma FileClaims(before: string, key: string, words: seq<string>, after: string, domain: string)
    requires EqualFold(key, "Domains") && words != [] && forall w | w in words :: w != "" && NoSpace(w)
    requires domain != "" && NoSpace(domain) && domain[0] != '.'
    requires exists w | w in words :: EqualFold(w, "~" + domain)
    ensures OwnsDomain(before + "\n" + (key + "=" + Join(words, " ")) + "\n" + after, domain)
  {
    hide LineClaims, Split, Join, EqualFold, NoSpace, Needle;
    var line := key + "=" + Join(words, " ");
    assert '\n' !in line by {
      KeyIsPlain(key);
      WordsEndBare(words);
    }
    NeedleFolds(domain);
    var w :| w in words && EqualFold(w, "~" + domain);
    assert EqualFold(w, Needle(domain)) by { FoldChain(w, "~" + domain, Needle(domain)); }
    DomainsEntry(key, words, Needle(domain));
    LineInside(before, line, after);
  }

  /** A comment claims nothing, nor does an entry with another key. */
  lemma OthersClaimNothing(line: string, needle: string)
    requires || HasPrefix(TrimSpace(line), "#") || HasPrefix(TrimSpace(line), ";")
             || exists key: string, value: string ::
                  TrimSpace(line) == key + ['='] + value && '=' !in key && !EqualFold(TrimSpace(key), "Domains")
    ensures !LineClaims(line, needle)
  {
    hide Trim, Cut, Fields, EqualFold;
    if key: string, value: string :|
         TrimSpace(line) == key + ['='] + value && '=' !in key && !EqualFold(TrimSpace(key), "Domains") {
      CutOf(key, '=', value);
    }
  }
}
