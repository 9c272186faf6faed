/** File-name tokens: how a site ID or domain becomes the name of a Caddy site file. */
module Tokens {
  import opened Text

  const DASH: set<char> := {'-'}

  /** The characters that sanitising turns into dashes, and the dash itself. */
  const SEPARATORS: set<char> := {'/', ' ', '.', '_', '-'}

  // ---- Runs of dashes ----

  function Cons(c: char, rest: string): string {
    if c == '-' && rest != "" && rest[0] == '-' then rest else [c] + rest
  }

  /** Every maximal run of dashes becomes a single dash. */
  function Squeeze(s: string): string {
    if s == "" then "" else Cons(s[0], Squeeze(s[1..]))
  }

  predicate NoDoubleDash(s: string) {
    forall i | 0 <= i < |s| - 1 :: s[i] == '-' ==> s[i + 1] != '-'
  }

  /** One pass of replacing "--" by "-", left to right without overlap. */
  function HalveDashes(s: string): string {
    if |s| < 2 then s
    else if s[0] == '-' && s[1] == '-' then "-" + HalveDashes(s[2..])
    else [s[0]] + HalveDashes(s[1..])
  }

  lemma {:induction false} SqueezeEnds(s: string)
    ensures var q := Squeeze(s);
            && (q == "" <==> s == "")
            && (s != "" ==> q[0] == s[0] && q[|q| - 1] == s[|s| - 1])
  {
    if s != "" {
      SqueezeEnds(s[1..]);
    }
  }

  lemma {:induction false} SqueezeShape(s: string)
    ensures NoDoubleDash(Squeeze(s)) && |Squeeze(s)| <= |s|
    ensures forall c | c in Squeeze(s) :: c in s
  {
    if s != "" {
      SqueezeShape(s[1..]);
      var rest := Squeeze(s[1..]);
      assert s == [s[0]] + s[1..];
      assert NoDoubleDash(Cons(s[0], rest)) by {
        if Cons(s[0], rest) != rest {
          assert forall i | 1 <= i < |rest| :: ([s[0]] + rest)[i] == rest[i - 1];
        }
      }
    }
  }

  lemma {:induction false} SqueezeFixed(s: string)
    requires NoDoubleDash(s)
    ensures Squeeze(s) == s
  {
    if s != "" {
      assert forall i | 0 <= i < |s| - 1 :: s[1..][i] == s[i + 1];
      SqueezeFixed(s[1..]);
      assert s == [s[0]] + s[1..];
    }
  }

  lemma {:induction false} SqueezeHalved(s: string)
    ensures Squeeze(HalveDashes(s)) == Squeeze(s)
    ensures HalveDashes(s) != "" <==> s != ""
  {
    if |s| >= 2 {
      if s[0] == '-' && s[1] == '-' {
        SqueezeHalved(s[2..]);
        var rest := HalveDashes(s[2..]);
        assert ("-" + rest)[1..] == rest;
        assert s[1..][1..] == s[2..];
        SqueezeEnds(s[1..]);
      } else {
        SqueezeHalved(s[1..]);
        var rest := HalveDashes(s[1..]);
        assert ([s[0]] + rest)[1..] == rest;
      }
    }
  }

  lemma {:induction false} HalvedShrinks(s: string)
    ensures |HalveDashes(s)| <= |s|
    ensures !NoDoubleDash(s) ==> |HalveDashes(s)| < |s|
  {
    if |s| >= 2 {
      if s[0] == '-' && s[1] == '-' {
        HalvedShrinks(s[2..]);
      } else {
        HalvedShrinks(s[1..]);
        if !NoDoubleDash(s) {
          var i :| 0 <= i < |s| - 1 && s[i] == '-' && s[i + 1] == '-';
          assert s[1..][i - 1] == '-' && s[1..][i] == '-';
        }
      }
    }
  }

  lemma DoubleDash(s: string)
    ensures Contains(s, "--") <==> !NoDoubleDash(s)
  {
    if Contains(s, "--") {
      var i :| 0 <= i <= |s| && At(s, "--", i);
      assert s[i..i + 2][0] == s[i] && s[i..i + 2][1] == s[i + 1];
    }
    if !NoDoubleDash(s) {
      var i :| 0 <= i < |s| - 1 && s[i] == '-' && s[i + 1] == '-';
      assert At(s, "--", i);
    }
  }

  /** The collapsing loop terminates, because every pass shrinks the value, and squeezes every run. */
  method CollapseDashes(start: string) returns (value: string)
    ensures value == Squeeze(start)
  {
    value := start;
    while Contains(value, "--")
      invariant Squeeze(value) == Squeeze(start)
      decreases |value|
    {
      DoubleDash(value);
      HalvedShrinks(value);
      SqueezeHalved(value);
      value := HalveDashes(value);
    }
    DoubleDash(value);
    SqueezeFixed(value);
  }

  // ---- Sanitising ----

  function FoldChar(c: char): char {
    var l := LowerChar(c);
    if l == '/' || l == ' ' || l == '.' || l == '_' then '-' else l
  }

  /** Lower-cased, with separators replaced by dashes. */
  function Folded(s: string): (r: string)
    ensures |r| == |s|
    ensures forall i | 0 <= i < |s| :: r[i] == FoldChar(s[i])
  {
    MapChars(FoldChar, s)
  }

  function ReplaceChar(c: char): char {
    if c == '/' || c == ' ' || c == '.' || c == '_' then '-' else c
  }

  function SanitizeToken(value: string): string {
    Trim(Squeeze(Folded(TrimSpace(value))), DASH)
  }

  method Sanitize(raw: string) returns (value: string)
    ensures value == SanitizeToken(raw)
  {
    value := ToLower(TrimSpace(raw));
    value := MapChars(ReplaceChar, value);
    assert value == Folded(TrimSpace(raw));
    value := CollapseDashes(value);
    value := Trim(value, DASH);
  }

  /** What is left of a value once white space, then separators, are cut from its ends. */
  function Core(value: string): string {
    Trim(TrimSpace(value), SEPARATORS)
  }

  lemma {:induction false} SqueezePadLeft(pad: string, s: string)
    requires All(pad, DASH)
    requires s != "" ==> s[0] != '-'
    ensures Squeeze(pad + s) == (if pad == "" then "" else "-") + Squeeze(s)
  {
    SqueezeEnds(s);
    if pad == "" {
      assert pad + s == s;
    } else {
      assert (pad + s)[1..] == pad[1..] + s;
      SqueezePadLeft(pad[1..], s);
      if |pad| == 1 {
        assert pad[1..] == "";
        assert pad + s == ['-'] + s;
      }
    }
  }

  lemma {:induction false} SqueezePadRight(s: string, pad: string)
    requires All(pad, DASH)
    requires s != "" ==> s[|s| - 1] != '-'
    ensures Squeeze(s + pad) == Squeeze(s) + (if pad == "" then "" else "-")
  {
    if s == "" {
      assert s + pad == pad == pad + "";
      SqueezePadLeft(pad, "");
    } else {
      assert (s + pad)[1..] == s[1..] + pad;
      SqueezePadRight(s[1..], pad);
      SqueezeEnds(s[1..]);
    }
  }

  /** Padding with dashes leaves the trimmed, squeezed core alone. */
  lemma SqueezePadded(l: string, f: string, r: string)
    requires All(l, DASH) && All(r, DASH) && Bare(f, DASH)
    ensures Trim(Squeeze(l + (f + r)), DASH) == Squeeze(f)
  {
    hide Squeeze, Trim;
    SqueezeEnds(f);
    if f == "" {
      assert l + (f + r) == (l + r) + "";
      SqueezePadLeft(l + r, "");
      var pad := if l + r == "" then "" else "-";
      TrimOf(pad, "", "", DASH);
      assert pad + "" + "" == pad + Squeeze(f);
    } else {
      SqueezePadRight(f, r);
      SqueezePadLeft(l, f + r);
      var padL, padR := if l == "" then "" else "-", if r == "" then "" else "-";
      assert padL + (Squeeze(f) + padR) == padL + Squeeze(f) + padR;
      TrimOf(padL, Squeeze(f), padR, DASH);
    }
  }

  lemma FoldedCat(a: string, b: string)
    ensures Folded(a + b) == Folded(a) + Folded(b)
  {}

  lemma FoldedSeparators(s: string)
    requires All(s, SEPARATORS)
    ensures All(Folded(s), DASH)
  {}

  /** The closed form of sanitising: fold and squeeze the core. */
  lemma TokenForm(value: string)
    ensures SanitizeToken(value) == Squeeze(Folded(Core(value)))
    ensures Bare(Folded(Core(value)), DASH)
  {
    hide Squeeze, Trim, TrimSpace, All;
    var v, core := TrimSpace(value), Core(value);
    var pre, post := TrimParts(v, SEPARATORS);
    assert pre + core + post == pre + (core + post);
    FoldedCat(pre, core + post);
    FoldedCat(core, post);
    FoldedSeparators(pre);
    FoldedSeparators(post);
    SqueezePadded(Folded(pre), Folded(core), Folded(post));
  }

  lemma FoldedChar(c: char)
    ensures LowerChar(FoldChar(c)) == FoldChar(c) && FoldChar(c) !in {'/', ' ', '.', '_'}
  {}

  /** A token is lower-case, has no separators other than single dashes, and no dash at either end. */
  lemma TokenShape(value: string)
    ensures var t := SanitizeToken(value);
            && IsLower(t) && NoDoubleDash(t) && Bare(t, DASH)
            && forall c | c in t :: c !in {'/', ' ', '.', '_'}
  {
    hide Squeeze, Core, SanitizeToken;
    var f := Folded(Core(value));
    var t := SanitizeToken(value);
    TokenForm(value);
    SqueezeShape(f);
    SqueezeEnds(f);
    forall i | 0 <= i < |t| ensures LowerChar(t[i]) == t[i] && t[i] !in {'/', ' ', '.', '_'} {
      assert t[i] in f;
      var k :| 0 <= k < |f| && f[k] == t[i];
      FoldedChar(Core(value)[k]);
    }
  }

  /** Strings that sanitising leaves alone. */
  predicate IsToken(t: string) {
    && Bare(t, SPACES) && Bare(t, DASH) && NoDoubleDash(t)
    && forall i | 0 <= i < |t| :: FoldChar(t[i]) == t[i]
  }

  lemma TokenFixed(t: string)
    requires IsToken(t)
    ensures SanitizeToken(t) == t
  {
    hide Squeeze, Trim;
    TrimBare(t, SPACES);
    assert Folded(t) == t;
    SqueezeFixed(t);
    TrimBare(t, DASH);
  }

  lemma FoldSpace(c: char)
    requires FoldChar(c) != '-'
    ensures FoldChar(c) in SPACES <==> c in SPACES
  {}

  lemma TokenShorter(value: string)
    ensures |SanitizeToken(value)| <= |TrimSpace(value)| <= |value|
  {
    hide Squeeze;
    SqueezeShape(Folded(TrimSpace(value)));
  }

  /** Sanitising twice is sanitising once exactly when the core of the value neither starts nor ends
      with white space (a tab, say, guarded by a separator: "-\tdemo"). */
  lemma SanitizeIdempotent(value: string)
    ensures SanitizeToken(SanitizeToken(value)) == SanitizeToken(value) <==> Bare(Core(value), SPACES)
  {
    hide Squeeze, Trim, Core;
    var core, t := Core(value), SanitizeToken(value);
    var f := Folded(core);
    TokenForm(value);
    SqueezeEnds(f);
    SqueezeShape(f);
    assert Bare(t, SPACES) <==> Bare(core, SPACES) by {
      if core != "" {
        FoldSpace(core[0]);
        FoldSpace(core[|core| - 1]);
      }
    }
    if Bare(core, SPACES) {
      forall i | 0 <= i < |t| ensures FoldChar(t[i]) == t[i] {
        assert t[i] in f;
      }
      TokenFixed(t);
    } else {
      TrimShorter(t, SPACES);
      TokenShorter(t);
    }
  }

  // ---- File names ----

  function FirstNonEmpty(a: string, b: string): string {
    if TrimSpace(a) != "" then TrimSpace(a) else if TrimSpace(b) != "" then TrimSpace(b) else "site"
  }

  /** The token of the file that activation writes: the ID is sanitised once when the site is
      normalised and once more when the file is named. */
  function ActivateToken(id: string, domain: string): string {
    var normalizedId := SanitizeToken(FirstNonEmpty(id, domain));
    SanitizeToken(FirstNonEmpty(normalizedId, ToLower(TrimSpace(domain))))
  }

  /** The token of the file that removal targets. */
  function RemoveToken(id: string): string {
    SanitizeToken(TrimSpace(id))
  }

  lemma SanitizeTrimmed(value: string)
    ensures SanitizeToken(TrimSpace(value)) == SanitizeToken(value)
  {
    hide Squeeze, Trim;
    var pre, post := TrimParts(value, SPACES);
    TrimBare(TrimSpace(value), SPACES);
  }

  /** For every ID that is not blank, removal targets the file that activation wrote exactly when the core of
      the ID has no white space at its ends; or, when the token is blank and activation falls back to the
      domain, when the domain has that same token. */
  lemma RemoveNamesActivatedFile(id: string, domain: string)
    requires TrimSpace(id) != ""
    ensures ActivateToken(id, domain) == RemoveToken(id) <==>
            if TrimSpace(SanitizeToken(id)) != "" then Bare(Core(id), SPACES)
            else SanitizeToken(FirstNonEmpty(ToLower(TrimSpace(domain)), "")) == SanitizeToken(id)
  {
    hide Squeeze, Trim, Core, Folded, SanitizeToken;
    SanitizeTrimmed(id);
    SanitizeTrimmed(SanitizeToken(id));
    SanitizeIdempotent(id);
    var d := ToLower(TrimSpace(domain));
    if TrimSpace(SanitizeToken(id)) == "" {
      TrimBare("", SPACES);
      assert FirstNonEmpty(SanitizeToken(id), d) == FirstNonEmpty(d, "");
    }
  }

  /** An ID on which it fails: a dash guards a tab. */
  lemma TabbedId()
    ensures SanitizeToken("-\tdemo") == "\tdemo" && SanitizeToken("\tdemo") == "demo"
  {
    hide Squeeze, Trim;
    TrimBare("-\tdemo", SPACES);
    assert "\t" + "demo" + "" == "\tdemo" && "-" + "\tdemo" + "" == "-\tdemo";
    TrimOf("\t", "demo", "", SPACES);
    assert Folded("-\tdemo") == "-\tdemo" && Folded("demo") == "demo";
    SqueezeFixed("-\tdemo");
    SqueezeFixed("demo");
    TrimOf("-", "\tdemo", "", DASH);
    TrimBare("demo", DASH);
  }

  // ---- Record IDs ----

  const ID_PREFIX := "site-"

  /** IDs as the registry generates them: a fixed prefix and hexadecimal (or decimal) digits. */
  predicate IsRecordId(id: string) {
    && |id| > |ID_PREFIX| && HasPrefix(id, ID_PREFIX)
    && forall i | |ID_PREFIX| <= i < |id| :: '0' <= id[i] <= '9' || 'a' <= id[i] <= 'f'
  }

  lemma RecordIdIsToken(id: string)
    requires IsRecordId(id)
    ensures IsToken(id) && id != ""
  {
    assert id[..5] == ID_PREFIX;
    assert id[0] == 's' && id[1] == 'i' && id[2] == 't' && id[3] == 'e' && id[4] == '-';
  }

  /** On record IDs the token is the ID itself: both operations name the same file, and distinct
      sites get distinct files. */
  lemma RecordIdToken(id: string, domain: string)
    requires IsRecordId(id)
    ensures SanitizeToken(id) == id
    ensures ActivateToken(id, domain) == id && RemoveToken(id) == id
  {
    hide Squeeze, Trim;
    RecordIdIsToken(id);
    TokenFixed(id);
    TrimBare(id, SPACES);
  }
}
