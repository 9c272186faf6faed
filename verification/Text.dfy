/** The string operations of Go's `strings` package that the daemon relies on, over ASCII text. */
module Text {

  datatype Option<+T> = None | Some(value: T)

  /** ASCII white space as `strings.TrimSpace` and `strings.Fields` see it. */
  const SPACES: set<char> := {' ', '\t', '\n', '\U{000B}', '\U{000C}', '\r'}

  // ---- Trimming ----

  predicate All(s: string, cut: set<char>) {
    forall i | 0 <= i < |s| :: s[i] in cut
  }

  /** Neither end of `t` belongs to `cut`. */
  predicate Bare(t: string, cut: set<char>) {
    t != "" ==> t[0] !in cut && t[|t| - 1] !in cut
  }

  function TrimLeft(s: string, cut: set<char>): (t: string)
    ensures |t| <= |s| && t == s[|s| - |t|..]
  {
    if s != "" && s[0] in cut then TrimLeft(s[1..], cut) else s
  }

  function TrimRight(s: string, cut: set<char>): (t: string)
    ensures |t| <= |s| && t == s[..|t|]
  {
    if s != "" && s[|s| - 1] in cut then TrimRight(s[..|s| - 1], cut) else s
  }

  function Trim(s: string, cut: set<char>): (t: string)
    ensures |t| <= |s|
  {
    TrimRight(TrimLeft(s, cut), cut)
  }

  function TrimSpace(s: string): string {
    Trim(s, SPACES)
  }

  lemma {:induction false} TrimLeftOf(pre: string, t: string, cut: set<char>)
    requires All(pre, cut)
    requires t == "" || t[0] !in cut
    ensures TrimLeft(pre + t, cut) == t
  {
    if pre == "" {
      assert pre + t == t;
    } else {
      assert (pre + t)[1..] == pre[1..] + t;
      TrimLeftOf(pre[1..], t, cut);
    }
  }

  lemma {:induction false} TrimRightOf(t: string, post: string, cut: set<char>)
    requires All(post, cut)
    requires t == "" || t[|t| - 1] !in cut
    ensures TrimRight(t + post, cut) == t
  {
    if post == "" {
      assert t + post == t;
    } else {
      var n := |post| - 1;
      assert (t + post)[..|t + post| - 1] == t + post[..n];
      TrimRightOf(t, post[..n], cut);
    }
  }

  /** Trimming is determined by its decomposition: cut characters, a bare core, cut characters. */
  lemma TrimOf(pre: string, t: string, post: string, cut: set<char>)
    requires All(pre, cut) && All(post, cut) && Bare(t, cut)
    ensures Trim(pre + t + post, cut) == t
  {
    if t == "" {
      assert pre + t + post == (pre + post) + "";
      TrimLeftOf(pre + post, "", cut);
    } else {
      assert pre + t + post == pre + (t + post);
      TrimLeftOf(pre, t + post, cut);
      TrimRightOf(t, post, cut);
    }
  }

  lemma {:induction false} TrimLeftCut(s: string, cut: set<char>)
    ensures var t := TrimLeft(s, cut); All(s[..|s| - |t|], cut) && (t == "" || t[0] !in cut)
  {
    if s != "" && s[0] in cut {
      TrimLeftCut(s[1..], cut);
      var n := |s| - |TrimLeft(s, cut)|;
      assert forall i | 1 <= i < n :: s[i] == s[1..][..n - 1][i - 1];
    }
  }

  lemma {:induction false} TrimRightCut(s: string, cut: set<char>)
    ensures var t := TrimRight(s, cut); All(s[|t|..], cut) && (t == "" || t[|t| - 1] !in cut)
  {
    if s != "" && s[|s| - 1] in cut {
      TrimRightCut(s[..|s| - 1], cut);
      var n := |TrimRight(s, cut)|;
      assert forall i | n <= i < |s| - 1 :: s[i] == s[..|s| - 1][n..][i - n];
    }
  }

  /** What is left of a left-trimmed string is its trimmed core and cut characters. */
  lemma TrimLeftParts(s: string, cut: set<char>) returns (post: string)
    ensures TrimLeft(s, cut) == Trim(s, cut) + post && All(post, cut) && Bare(Trim(s, cut), cut)
  {
    hide TrimLeft, TrimRight, All;
    var left, core := TrimLeft(s, cut), Trim(s, cut);
    TrimLeftCut(s, cut);
    TrimRightCut(left, cut);
    post := left[|core|..];
    assert left == core + post;
  }

  /** Every string is cut characters, its trimmed core, and cut characters. */
  lemma TrimParts(s: string, cut: set<char>) returns (pre: string, post: string)
    ensures s == pre + Trim(s, cut) + post
    ensures All(pre, cut) && All(post, cut) && Bare(Trim(s, cut), cut)
  {
    hide Trim, TrimLeft, All;
    var left, core := TrimLeft(s, cut), Trim(s, cut);
    TrimLeftCut(s, cut);
    post := TrimLeftParts(s, cut);
    pre := s[..|s| - |left|];
    assert s == pre + left;
    assert pre + (core + post) == pre + core + post;
  }

  lemma TrimBare(s: string, cut: set<char>)
    requires Bare(s, cut)
    ensures Trim(s, cut) == s
  {
    assert "" + s + "" == s;
    TrimOf("", s, "", cut);
  }

  lemma BareAround(pre: string, s: string, post: string, cut: set<char>)
    requires pre != "" && pre[0] !in cut
    requires post != "" && post[|post| - 1] !in cut
    ensures Bare(pre + s + post, cut)
  {}

  lemma TrimShorter(s: string, cut: set<char>)
    requires !Bare(s, cut)
    ensures |Trim(s, cut)| < |s|
  {
    hide Trim;
    var pre, post := TrimParts(s, cut);
  }

  lemma TrimHead(c: char, s: string)
    requires c in SPACES
    ensures TrimSpace([c] + s) == TrimSpace(s)
  {
    assert ([c] + s)[1..] == s;
  }

  // ---- Case ----

  function MapChars(f: char -> char, s: string): (r: string)
    ensures |r| == |s|
    ensures forall i | 0 <= i < |s| :: r[i] == f(s[i])
  {
    seq(|s|, i requires 0 <= i < |s| => f(s[i]))
  }

  function LowerChar(c: char): char {
    if 'A' <= c <= 'Z' then ((c as int) + 32) as char else c
  }

  function ToLower(s: string): (r: string)
    ensures |r| == |s|
    ensures forall i | 0 <= i < |s| :: r[i] == LowerChar(s[i])
  {
    MapChars(LowerChar, s)
  }

  predicate EqualFold(a: string, b: string) {
    ToLower(a) == ToLower(b)
  }

  predicate IsLower(s: string) {
    forall i | 0 <= i < |s| :: LowerChar(s[i]) == s[i]
  }

  lemma LowerFixed(s: string)
    ensures ToLower(s) == s <==> IsLower(s)
    ensures IsLower(ToLower(s))
  {}

  lemma LowerSpace(c: char)
    ensures LowerChar(c) in SPACES <==> c in SPACES
  {}

  lemma TrimKeepsLower(s: string)
    requires IsLower(s)
    ensures IsLower(TrimSpace(s))
  {
    hide Trim, LowerChar;
    var pre, post := TrimParts(s, SPACES);
    var t := TrimSpace(s);
    assert forall i | 0 <= i < |t| :: t[i] == s[|pre| + i];
  }

  // ---- Searching ----

  predicate At(s: string, t: string, i: int) {
    0 <= i && i + |t| <= |s| && s[i..i + |t|] == t
  }

  predicate Contains(s: string, t: string) {
    exists i | 0 <= i <= |s| :: At(s, t, i)
  }

  lemma ContainsMiddle(a: string, t: string, b: string)
    ensures Contains(a + t + b, t)
  {
    assert At(a + t + b, t, |a|);
  }

  lemma ContainsWithin(a: string, s: string, b: string, t: string)
    requires Contains(s, t)
    ensures Contains(a + s + b, t)
  {
    var i :| 0 <= i <= |s| && At(s, t, i);
    assert (a + s + b)[|a| + i..|a| + i + |t|] == s[i..i + |t|];
    assert At(a + s + b, t, |a| + i);
  }

  lemma AtChars(s: string, t: string, i: int)
    requires At(s, t, i)
    ensures forall k | i <= k < i + |t| :: s[k] == t[k - i]
  {
    assert forall k | i <= k < i + |t| :: s[k] == s[i..i + |t|][k - i];
  }

  /** An occurrence of a text with bare ends lies between the padding. */
  lemma OutsidePadding(pre: string, core: string, post: string, t: string, i: int, cut: set<char>)
    requires All(pre, cut) && All(post, cut) && t != "" && Bare(t, cut)
    requires At(pre + core + post, t, i)
    ensures Contains(core, t)
  {
    var s := pre + core + post;
    var last := i + |t| - 1;
    AtChars(s, t, i);
    assert s[i] == t[0] && s[last] == t[|t| - 1];
    assert forall j | 0 <= j < |pre| :: s[j] == pre[j];
    assert forall j | |pre + core| <= j < |s| :: s[j] == post[j - |pre + core|];
    var k := i - |pre|;
    assert core[k..k + |t|] == s[i..i + |t|];
    assert At(core, t, k);
  }

  /** Trimming neither hides nor makes an occurrence of a text with bare ends. */
  lemma ContainsTrimmed(s: string, t: string)
    requires t != "" && Bare(t, SPACES)
    ensures Contains(TrimSpace(s), t) <==> Contains(s, t)
  {
    hide Trim, SPACES;
    var pre, post := TrimParts(s, SPACES);
    var core := TrimSpace(s);
    if Contains(core, t) {
      ContainsWithin(pre, core, post, t);
    }
    if Contains(s, t) {
      var i :| 0 <= i <= |s| && At(s, t, i);
      OutsidePadding(pre, core, post, t, i, SPACES);
    }
  }

  lemma AtFits(s: string, t: string, i: int)
    requires At(s, t, i)
    ensures 0 <= i && i + |t| <= |s|
  {}

  lemma AtHolds(s: string, t: string, i: int, k: int)
    requires At(s, t, i) && i <= k < i + |t|
    ensures 0 <= k < |s| && s[k] in t
  {
    AtChars(s, t, i);
  }

  /** An occurrence inside a part of a text is one in the part. */
  lemma AtPart(s: string, from: nat, part: string, t: string, i: int)
    requires from + |part| <= |s| && part == s[from..from + |part|]
    requires At(s, t, i) && from <= i && i + |t| <= from + |part|
    ensures At(part, t, i - from)
  {
    AtChars(s, t, i);
    var k := i - from;
    forall j | 0 <= j < |t| ensures part[k + j] == t[j] {
      assert part[k + j] == s[i + j];
    }
    assert part[k..k + |t|] == t;
  }

  lemma OnOneSide(a: string, c: char, b: string, t: string)
    requires c !in t && Contains(a + [c] + b, t)
    ensures Contains(a, t) || Contains(b, t)
  {
    hide At;
    var s := a + [c] + b;
    var i :| 0 <= i <= |s| && At(s, t, i);
    AtFits(s, t, i);
    if i + |t| <= |a| {
      AtPart(s, 0, a, t, i);
    } else if i > |a| {
      AtPart(s, |a| + 1, b, t, i);
    } else {
      AtHolds(s, t, i, |a|);
    }
  }

  /** A text without the separator occurs on one side of it. */
  lemma ContainsSplit(a: string, c: char, b: string, t: string)
    requires c !in t
    ensures Contains(a + [c] + b, t) <==> Contains(a, t) || Contains(b, t)
  {
    hide Contains;
    if Contains(a, t) {
      ContainsWithin("", a, [c] + b, t);
      assert "" + a + ([c] + b) == a + [c] + b;
    }
    if Contains(b, t) {
      ContainsWithin(a + [c], b, "", t);
      assert a + [c] + b + "" == a + [c] + b;
    }
    if Contains(a + [c] + b, t) {
      OnOneSide(a, c, b, t);
    }
  }

  predicate HasPrefix(s: string, p: string) {
    p <= s
  }

  predicate HasSuffix(s: string, p: string) {
    |p| <= |s| && s[|s| - |p|..] == p
  }

  function TrimPrefix(s: string, p: string): string {
    if HasPrefix(s, p) then s[|p|..] else s
  }

  // ---- Splitting ----

  function Split(s: string, c: char): (parts: seq<string>)
    ensures |parts| >= 1
  {
    if s == "" then [""]
    else
      var rest := Split(s[1..], c);
      if s[0] == c then [""] + rest else [[s[0]] + rest[0]] + rest[1..]
  }

  function Join(parts: seq<string>, sep: string): string {
    if parts == [] then ""
    else if |parts| == 1 then parts[0]
    else parts[0] + sep + Join(parts[1..], sep)
  }

  lemma {:induction false} SplitWhole(s: string, c: char)
    requires c !in s
    ensures Split(s, c) == [s]
  {
    if s != "" {
      SplitWhole(s[1..], c);
      assert s == [s[0]] + s[1..];
    }
  }

  lemma {:induction false} SplitCat(a: string, c: char, b: string)
    ensures Split(a + [c] + b, c) == Split(a, c) + Split(b, c)
  {
    if a == "" {
      assert a + [c] + b == [c] + b;
      assert ([c] + b)[1..] == b;
    } else {
      assert (a + [c] + b)[1..] == a[1..] + [c] + b;
      SplitCat(a[1..], c, b);
    }
  }

  lemma JoinHead(ch: char, parts: seq<string>, sep: string)
    requires parts != []
    ensures Join([[ch] + parts[0]] + parts[1..], sep) == [ch] + Join(parts, sep)
  {
    var more := [[ch] + parts[0]] + parts[1..];
    assert more[1..] == parts[1..];
    if |parts| > 1 {
      assert [ch] + parts[0] + sep + Join(parts[1..], sep) == [ch] + (parts[0] + sep + Join(parts[1..], sep));
    }
  }

  lemma {:induction false} JoinSplit(s: string, c: char)
    ensures Join(Split(s, c), [c]) == s
  {
    if s != "" {
      var rest := Split(s[1..], c);
      JoinSplit(s[1..], c);
      assert s == [s[0]] + s[1..];
      if s[0] == c {
        assert ([""] + rest)[1..] == rest;
      } else {
        JoinHead(s[0], rest, [c]);
      }
    }
  }

  lemma {:induction false} SplitJoin(parts: seq<string>, c: char)
    requires parts != []
    requires forall p | p in parts :: c !in p
    ensures Split(Join(parts, [c]), c) == parts
  {
    SplitWhole(parts[0], c);
    if |parts| > 1 {
      SplitJoin(parts[1..], c);
      SplitCat(parts[0], c, Join(parts[1..], [c]));
      assert parts == [parts[0]] + parts[1..];
    }
  }

  lemma {:induction false} SplitPieces(s: string, c: char)
    ensures forall p | p in Split(s, c) :: c !in p
  {
    if s != "" {
      SplitPieces(s[1..], c);
      var rest := Split(s[1..], c);
      assert rest[0] in rest;
      assert forall p | p in rest[1..] :: p in rest;
    }
  }

  lemma {:induction false} JoinCat(a: seq<string>, b: seq<string>, sep: string)
    requires a != [] && b != []
    ensures Join(a + b, sep) == Join(a, sep) + sep + Join(b, sep)
  {
    assert (a + b)[1..] == a[1..] + b;
    if |a| > 1 {
      JoinCat(a[1..], b, sep);
    } else {
      assert (a + b)[1..] == b;
    }
  }

  lemma JoinOne(part: string, sep: string)
    ensures Join([part], sep) == part
  {}

  lemma JoinPush(parts: seq<string>, last: string, x: char, sep: string)
    ensures Join(parts + [last + [x]], sep) == Join(parts + [last], sep) + [x]
  {
    if parts == [] {
      assert parts + [last] == [last] && parts + [last + [x]] == [last + [x]];
    } else {
      hide Join;
      JoinCat(parts, [last], sep);
      JoinCat(parts, [last + [x]], sep);
      JoinOne(last, sep);
      JoinOne(last + [x], sep);
      assert Join(parts, sep) + sep + (last + [x]) == Join(parts, sep) + sep + last + [x];
    }
  }

  /** A character appended to a text lands on its last piece. */
  lemma SplitPush(s: string, x: char, c: char)
    requires x != c
    ensures var parts := Split(s, c);
            Split(s + [x], c) == parts[..|parts| - 1] + [parts[|parts| - 1] + [x]]
  {
    hide Split, Join;
    var parts := Split(s, c);
    var n := |parts| - 1;
    JoinSplit(s, c);
    SplitPieces(s, c);
    assert parts == parts[..n] + [parts[n]] && parts[n] in parts;
    JoinPush(parts[..n], parts[n], x, [c]);
    SplitJoin(parts[..n] + [parts[n] + [x]], c);
  }

  /** The same letter, or the same letter in the other case. */
  predicate SameLetter(x: char, y: char) {
    || x == y
    || ('A' <= x <= 'Z' && y as int == x as int + 32)
    || ('A' <= y <= 'Z' && x as int == y as int + 32)
  }

  lemma SameLetterFolds(x: char, y: char)
    ensures LowerChar(x) == LowerChar(y) <==> SameLetter(x, y)
  {}

  /** Two texts are equal ignoring case exactly when they are letter by letter. */
  lemma FoldLaw(a: string, b: string)
    ensures EqualFold(a, b) <==> |a| == |b| && forall i | 0 <= i < |a| :: SameLetter(a[i], b[i])
  {
    hide LowerChar, SameLetter;
    assert |ToLower(a)| == |a| && |ToLower(b)| == |b|;
    forall i | 0 <= i < |a| && i < |b| ensures ToLower(a)[i] == ToLower(b)[i] <==> SameLetter(a[i], b[i]) {
      SameLetterFolds(a[i], b[i]);
    }
    if EqualFold(a, b) {
      forall i | 0 <= i < |a| ensures SameLetter(a[i], b[i]) {
        assert ToLower(a)[i] == ToLower(b)[i];
      }
    }
  }

  /** White space: the characters from tab to carriage return, and the space. */
  lemma SpacesAre(c: char)
    ensures c in SPACES <==> 9 <= c as int <= 13 || c as int == 32
  {}
}
