/** The import block that the daemon adds to, and removes from, the user's root Caddyfile. */
module RootImport {
  import opened Text

  const START := "# Lara Nux managed Caddy import start"
  const LINE := "import sites.d/lara-nux/*.caddy"
  const END := "# Lara Nux managed Caddy import end"

  /** A file after an edit (`None`: no file) and whether the edit asks for a write. */
  datatype Edit = Edit(content: Option<string>, changed: bool)

  function Block(): string {
    Join([START, LINE, END], "\n")
  }

  function EnsureImport(existing: Option<string>): Edit {
    if existing.Some? && Contains(existing.value, LINE) then
      Edit(existing, false)
    else
      var base := TrimRight(if existing.Some? then existing.value else "", {'\n'});
      Edit(Some(if base == "" then Block() + "\n" else base + "\n\n" + Block() + "\n"), true)
  }

  // ---- Removal ----

  predicate IsStart(line: string) {
    TrimSpace(line) == START
  }

  predicate IsEnd(line: string) {
    TrimSpace(line) == END
  }

  predicate IsMarker(line: string) {
    IsStart(line) || IsEnd(line)
  }

  predicate NoEnd(lines: seq<string>, from: nat, to: nat)
    requires to <= |lines|
  {
    forall k | from <= k < to :: !IsEnd(lines[k])
  }

  /** A start marker precedes position `i` and no end marker lies between. */
  predicate Inside(lines: seq<string>, i: nat)
    requires i <= |lines|
  {
    exists j | 0 <= j < i :: IsStart(lines[j]) && NoEnd(lines, j + 1, i)
  }

  /** The lines outside every managed block, markers excluded. */
  function Survivors(lines: seq<string>): seq<string> {
    if lines == [] then []
    else
      var n := |lines| - 1;
      Survivors(lines[..n]) + if IsMarker(lines[n]) || Inside(lines, n) then [] else [lines[n]]
  }

  function Tidied(text: string): Option<string> {
    var result := TrimSpace(text);
    if result == "" then None else Some(result + "\n")
  }

  function RemoveImport(existing: Option<string>): Edit {
    if existing.None? || !Contains(existing.value, START) then
      Edit(existing, false)
    else
      Edit(Tidied(Join(Survivors(Split(existing.value, '\n')), "\n")), true)
  }

  lemma MarkersDiffer(line: string)
    ensures !(IsStart(line) && IsEnd(line))
  {
    hide TrimSpace;
    assert |START| == 37 && |END| == 35;
  }

  lemma InsideStep(lines: seq<string>, n: nat)
    requires n < |lines|
    ensures IsStart(lines[n]) ==> Inside(lines, n + 1)
    ensures !IsStart(lines[n]) && IsEnd(lines[n]) ==> !Inside(lines, n + 1)
    ensures !IsMarker(lines[n]) ==> (Inside(lines, n + 1) <==> Inside(lines, n))
  {
    hide IsStart, IsEnd;
    if IsStart(lines[n]) {
      assert NoEnd(lines, n + 1, n + 1);
    } else if !IsEnd(lines[n]) {
      if Inside(lines, n) {
        var j :| 0 <= j < n && IsStart(lines[j]) && NoEnd(lines, j + 1, n);
        assert NoEnd(lines, j + 1, n + 1);
      }
      if Inside(lines, n + 1) {
        var j :| 0 <= j < n + 1 && IsStart(lines[j]) && NoEnd(lines, j + 1, n + 1);
        assert NoEnd(lines, j + 1, n);
      }
    }
  }

  lemma InsidePrefix(lines: seq<string>, more: seq<string>, i: nat)
    requires i <= |lines|
    ensures Inside(lines + more, i) <==> Inside(lines, i)
  {
    hide IsStart, IsEnd;
    assert forall k | 0 <= k < i :: (lines + more)[k] == lines[k];
    if Inside(lines, i) {
      var j :| 0 <= j < i && IsStart(lines[j]) && NoEnd(lines, j + 1, i);
      assert IsStart((lines + more)[j]) && NoEnd(lines + more, j + 1, i);
    }
    if Inside(lines + more, i) {
      var j :| 0 <= j < i && IsStart((lines + more)[j]) && NoEnd(lines + more, j + 1, i);
      assert IsStart(lines[j]) && NoEnd(lines, j + 1, i);
    }
  }

  /** The filtering loop of the removal. */
  method FilterLines(lines: seq<string>) returns (filtered: seq<string>)
    ensures filtered == Survivors(lines)
  {
    hide IsStart, IsEnd;
    filtered := [];
    var skip := false;
    for i := 0 to |lines|
      invariant filtered == Survivors(lines[..i])
      invariant skip == Inside(lines, i)
    {
      var line := lines[i];
      MarkersDiffer(line);
      InsideStep(lines, i);
      assert lines[..i + 1][..i] == lines[..i];
      assert lines == lines[..i + 1] + lines[i + 1..];
      InsidePrefix(lines[..i + 1], lines[i + 1..], i);
      if IsStart(line) {
        skip := true;
      } else if IsEnd(line) {
        skip := false;
      } else if !skip {
        filtered := filtered + [line];
      }
    }
    assert lines[..|lines|] == lines;
  }

  method RemoveManagedRootImport(existing: Option<string>) returns (next: Option<string>, changed: bool)
    ensures Edit(next, changed) == RemoveImport(existing)
  {
    if existing.None? {
      return None, false;
    }
    if !Contains(existing.value, START) {
      return existing, false;
    }
    var filtered := FilterLines(Split(existing.value, '\n'));
    var result := TrimSpace(Join(filtered, "\n"));
    next, changed := if result == "" then None else Some(result + "\n"), true;
  }

  // ---- Counting the characters that are not white space ----

  function Ink(s: string): nat {
    if s == "" then 0 else (if s[0] in SPACES then 0 else 1) + Ink(s[1..])
  }

  function InkLines(lines: seq<string>): nat {
    if lines == [] then 0 else InkLines(lines[..|lines| - 1]) + Ink(lines[|lines| - 1])
  }

  lemma {:induction false} InkCat(a: string, b: string)
    ensures Ink(a + b) == Ink(a) + Ink(b)
  {
    if a == "" {
      assert a + b == b;
    } else {
      assert (a + b)[1..] == a[1..] + b;
      InkCat(a[1..], b);
    }
  }

  lemma {:induction false} InkBlank(s: string)
    requires All(s, SPACES)
    ensures Ink(s) == 0
  {
    if s != "" {
      assert forall i | 0 <= i < |s| - 1 :: s[1..][i] == s[i + 1];
      InkBlank(s[1..]);
    }
  }

  lemma InkTrim(s: string)
    ensures Ink(TrimSpace(s)) == Ink(s)
  {
    hide Ink, Trim, All;
    var pre, post := TrimParts(s, SPACES);
    InkCat(pre + TrimSpace(s), post);
    InkCat(pre, TrimSpace(s));
    InkBlank(pre);
    InkBlank(post);
  }

  lemma {:induction false} InkJoin(lines: seq<string>)
    ensures Ink(Join(lines, "\n")) == InkLines(lines)
  {
    if |lines| == 1 {
      assert lines[..0] == [];
    } else if |lines| > 1 {
      var n := |lines| - 1;
      InkJoin(lines[..n]);
      assert lines == lines[..n] + [lines[n]];
      JoinCat(lines[..n], [lines[n]], "\n");
      InkCat(Join(lines[..n], "\n") + "\n", lines[n]);
      InkCat(Join(lines[..n], "\n"), "\n");
      InkBlank("\n");
    }
  }

  lemma TidiedInk(a: string, b: string)
    requires Tidied(a) == Tidied(b)
    ensures Ink(a) == Ink(b)
  {
    hide Ink, TrimSpace;
    InkTrim(a);
    InkTrim(b);
    InkCat(TrimSpace(a), "\n");
    InkCat(TrimSpace(b), "\n");
  }

  // ---- What survives ----

  lemma StartIsOneLine()
    ensures '\n' !in START
  {}

  lemma LineIsOneLine()
    ensures '\n' !in LINE
  {}

  lemma EndIsOneLine()
    ensures '\n' !in END
  {}

  lemma StartIsMarker()
    ensures TrimSpace(START) == START && IsStart(START) && Ink(START) > 0
  {
    hide Trim;
    TrimBare(START, SPACES);
  }

  lemma EndIsMarker()
    ensures TrimSpace(END) == END && IsEnd(END) && Ink(END) > 0
  {
    hide Trim;
    TrimBare(END, SPACES);
  }

  lemma LineIsNoMarker()
    ensures TrimSpace(LINE) == LINE && !IsMarker(LINE)
  {
    hide Trim;
    TrimBare(LINE, SPACES);
    assert |LINE| == 31 && |START| == 37 && |END| == 35;
  }

  lemma BlankIsNoMarker()
    ensures !IsMarker("")
  {
    hide Trim;
    TrimBare("", SPACES);
    assert |START| == 37 && |END| == 35;
  }

  lemma MarkerInk(line: string)
    requires IsMarker(line)
    ensures Ink(line) > 0
  {
    hide Ink, TrimSpace;
    InkTrim(line);
    StartIsMarker();
    EndIsMarker();
  }

  predicate NoMarkers(lines: seq<string>) {
    forall l | l in lines :: !IsMarker(l)
  }

  predicate NoMarkerLine(text: string) {
    NoMarkers(Split(text, '\n'))
  }

  lemma SurvivorsPush(a: seq<string>, line: string)
    ensures var rest := if IsMarker(line) || Inside(a + [line], |a|) then [] else [line];
            Survivors(a + [line]) == Survivors(a) + rest
  {
    hide IsMarker, Inside;
    assert (a + [line])[..|a|] == a;
  }

  lemma {:induction false} SurvivorsAll(lines: seq<string>)
    requires NoMarkers(lines)
    ensures Survivors(lines) == lines && !Inside(lines, |lines|)
  {
    hide IsStart, IsEnd;
    if lines != [] {
      var n := |lines| - 1;
      assert lines == lines[..n] + [lines[n]];
      SurvivorsAll(lines[..n]);
      SurvivorsPush(lines[..n], lines[n]);
      assert !Inside(lines, n);
    }
  }

  lemma {:induction false} SurvivorsInk(lines: seq<string>)
    ensures InkLines(Survivors(lines)) <= InkLines(lines)
    ensures !NoMarkers(lines) ==> InkLines(Survivors(lines)) < InkLines(lines)
  {
    hide Ink, IsMarker, Inside;
    if lines != [] {
      var n := |lines| - 1;
      SurvivorsInk(lines[..n]);
      var kept := Survivors(lines[..n]);
      assert kept + [] == kept;
      assert (kept + [lines[n]])[..|kept|] == kept;
      assert lines == lines[..n] + [lines[n]];
      if IsMarker(lines[n]) {
        MarkerInk(lines[n]);
      }
    }
  }

  lemma SurvivorsOfBlock(a: seq<string>, start: string, line: string, end: string, blank: string)
    requires IsStart(start) && IsEnd(end) && !IsMarker(line) && !IsMarker(blank)
    ensures Survivors(a + [start, line, end, blank]) == Survivors(a) + [blank]
  {
    hide IsStart, IsEnd, Survivors, Inside;
    MarkersDiffer(end);
    var a1 := a + [start];
    var a2 := a1 + [line];
    var a3 := a2 + [end];
    SurvivorsPush(a, start);
    SurvivorsPush(a1, line);
    SurvivorsPush(a2, end);
    SurvivorsPush(a3, blank);
    InsideStep(a1, |a|);
    InsidePrefix(a1, [line], |a1|);
    InsideStep(a3, |a2|);
    InsidePrefix(a3, [blank], |a3|);
    assert a3 + [blank] == a + [start, line, end, blank];
  }

  /** A complete block vanishes; what precedes it is filtered as if it stood alone. */
  lemma SurvivorsBlock(a: seq<string>)
    ensures Survivors(a + [START, LINE, END, ""]) == Survivors(a) + [""]
  {
    hide *;
    StartIsMarker();
    LineIsNoMarker();
    EndIsMarker();
    BlankIsNoMarker();
    SurvivorsOfBlock(a, START, LINE, END, "");
  }

  // ---- The lines of an ensured file ----

  lemma BlockLines()
    ensures Split(Block() + "\n", '\n') == [START, LINE, END, ""]
  {
    hide Split;
    StartIsOneLine();
    LineIsOneLine();
    EndIsOneLine();
    var parts := [START, LINE, END, ""];
    assert Join(parts, "\n") == Block() + "\n" by {
      JoinCat([START, LINE, END], [""], "\n");
      assert [START, LINE, END] + [""] == parts;
      assert Block() + "\n" + "" == Block() + "\n";
    }
    assert forall p | p in parts :: '\n' !in p;
    SplitJoin(parts, '\n');
  }

  lemma EnsuredLines(base: string)
    ensures Split(base + "\n\n" + Block() + "\n", '\n') == Split(base, '\n') + [""] + [START, LINE, END, ""]
  {
    hide Block;
    var tail := Block() + "\n";
    assert base + "\n\n" + Block() + "\n" == (base + "\n" + "") + "\n" + tail;
    SplitCat(base + "\n" + "", '\n', tail);
    SplitCat(base, '\n', "");
    BlockLines();
  }

  /** A text joined from three lines holds each of the first two. */
  lemma JoinHolds(a: string, b: string, c: string)
    ensures Contains(Join([a, b, c], "\n"), a) && Contains(Join([a, b, c], "\n"), b)
  {
    hide Contains;
    var tail := "\n" + c;
    assert [a, b, c][1..] == [b, c] && [b, c][1..] == [c];
    assert Join([b, c], "\n") == b + tail;
    assert Join([a, b, c], "\n") == a + "\n" + (b + tail);
    assert a + "\n" + (b + tail) == "" + a + ("\n" + b + tail);
    ContainsMiddle("", a, "\n" + b + tail);
    assert Join([a, b, c], "\n") == (a + "\n") + b + tail;
    ContainsMiddle(a + "\n", b, tail);
  }

  lemma BlockHolds()
    ensures Contains(Block(), START) && Contains(Block(), LINE)
  {
    hide Contains, Join;
    JoinHolds(START, LINE, END);
  }

  /** Padding a text with line breaks adds no marker line. */
  lemma {:induction false} PaddingIsNoMarker(base: string, pad: string)
    requires All(pad, {'\n'})
    ensures NoMarkerLine(base + pad) <==> NoMarkerLine(base)
  {
    hide IsMarker, Split;
    if pad == "" {
      assert base + pad == base;
    } else {
      var n := |pad| - 1;
      PaddingIsNoMarker(base, pad[..n]);
      assert base + pad == (base + pad[..n]) + ['\n'] + "";
      SplitCat(base + pad[..n], '\n', "");
      SplitWhole("", '\n');
      BlankIsNoMarker();
    }
  }

  lemma TrimTail(s: string, post: string)
    requires All(post, SPACES)
    ensures TrimSpace(s + post) == TrimSpace(s)
  {
    hide Trim;
    var a, b := TrimParts(s, SPACES);
    var t := TrimSpace(s);
    assert s + post == a + t + (b + post);
    TrimOf(a, t, b + post, SPACES);
  }

  // ---- Removed files ----

  lemma MarkerIgnoresSpaces(line: string, c: char)
    requires c in SPACES
    ensures IsMarker(line + [c]) <==> IsMarker(line)
    ensures IsMarker([c] + line) <==> IsMarker(line)
  {
    hide TrimSpace, START, END, SPACES;
    TrimTail(line, [c]);
    TrimHead(c, line);
  }

  lemma CutLast(text: string, c: char)
    requires c in SPACES && NoMarkerLine(text + [c])
    ensures NoMarkerLine(text)
  {
    hide IsMarker, Split;
    var lines := Split(text, '\n');
    if c == '\n' {
      assert text + [c] == text + [c] + "";
      SplitCat(text, '\n', "");
      assert forall l | l in lines :: l in lines + Split("", '\n');
    } else {
      SplitPush(text, c, '\n');
      var n := |lines| - 1;
      var all := Split(text + [c], '\n');
      MarkerIgnoresSpaces(lines[n], c);
      assert all[n] in all;
      assert forall i | 0 <= i < n :: all[i] == lines[i] && all[i] in all;
    }
  }

  lemma CutFirst(text: string, c: char)
    requires c in SPACES && NoMarkerLine([c] + text)
    ensures NoMarkerLine(text)
  {
    hide IsMarker;
    var lines := Split(text, '\n');
    var all := Split([c] + text, '\n');
    assert ([c] + text)[1..] == text;
    MarkerIgnoresSpaces(lines[0], c);
    if c != '\n' {
      assert all[0] in all;
      assert forall i | 1 <= i < |lines| :: all[i] == lines[i] && all[i] in all;
    }
  }

  /** Trimming makes no marker line. */
  lemma {:induction false} TrimMakesNoMarker(pre: string, text: string, post: string)
    requires All(pre, SPACES) && All(post, SPACES) && NoMarkerLine(pre + text + post)
    ensures NoMarkerLine(text)
  {
    hide NoMarkerLine;
    if post != "" {
      var n := |post| - 1;
      assert pre + text + post == (pre + text + post[..n]) + [post[n]];
      CutLast(pre + text + post[..n], post[n]);
      TrimMakesNoMarker(pre, text, post[..n]);
    } else if pre != "" {
      assert pre + text + post == [pre[0]] + (pre[1..] + text + post);
      CutFirst(pre[1..] + text + post, pre[0]);
      TrimMakesNoMarker(pre[1..], text, post);
    } else {
      assert pre + text + post == text;
    }
  }

  lemma {:induction false} SurvivorsAreUnmarked(lines: seq<string>)
    ensures NoMarkers(Survivors(lines)) && forall l | l in Survivors(lines) :: l in lines
  {
    hide IsMarker, Inside;
    if lines != [] {
      SurvivorsAreUnmarked(lines[..|lines| - 1]);
    }
  }

  /** What is left after a removal has no marker line. */
  lemma TidiedIsUnmarked(lines: seq<string>)
    requires forall l | l in lines :: '\n' !in l
    ensures var left := Tidied(Join(Survivors(lines), "\n"));
            left.Some? ==> NoMarkerLine(left.value) && Tidied(left.value) == left
  {
    hide Trim, IsMarker, Survivors, Split;
    var kept := Survivors(lines);
    var text := Join(kept, "\n");
    var pre, post := TrimParts(text, SPACES);
    var core := TrimSpace(text);
    if core != "" {
      assert kept != [] by {
        if kept == [] {
          TrimBare("", SPACES);
        }
      }
      SurvivorsAreUnmarked(lines);
      SplitJoin(kept, '\n');
      TrimMakesNoMarker(pre, core, post);
      PaddingIsNoMarker(core, "\n");
      TrimTail(core, "\n");
      TrimBare(core, SPACES);
    }
  }

  // ---- What the filtered file imports ----

  lemma EmptyHoldsNothing(t: string)
    requires t != ""
    ensures !Contains("", t)
  {}

  lemma {:induction false} JoinContains(lines: seq<string>, t: string)
    requires t != "" && '\n' !in t
    ensures Contains(Join(lines, "\n"), t) <==> exists line | line in lines :: Contains(line, t)
  {
    hide Contains;
    if lines == [] {
      EmptyHoldsNothing(t);
    } else if |lines| == 1 {
      assert lines[0] in lines;
    } else {
      var rest := lines[1..];
      JoinContains(rest, t);
      ContainsSplit(lines[0], '\n', Join(rest, "\n"), t);
      assert lines == [lines[0]] + rest;
    }
  }

  /** A line that is no marker and lies in no managed block holds the import line. */
  predicate ImportsOutside(text: string) {
    exists line | line in Survivors(Split(text, '\n')) :: Contains(line, LINE)
  }

  // ---- Main results ----

  lemma LineIsBare()
    ensures LINE != "" && Bare(LINE, SPACES)
  {}

  /** What a removal leaves still has the import line exactly when a line outside the managed blocks held
      it. */
  lemma FilteredImport(text: string)
    requires Contains(text, START)
    ensures var left := RemoveImport(Some(text)).content;
            (left.Some? && Contains(left.value, LINE)) <==> ImportsOutside(text)
  {
    hide Contains, Trim, Survivors, Split, START;
    var lines := Survivors(Split(text, '\n'));
    var kept := Join(lines, "\n");
    var core := TrimSpace(kept);
    LineIsOneLine();
    LineIsBare();
    JoinContains(lines, LINE);
    ContainsTrimmed(kept, LINE);
    EmptyHoldsNothing(LINE);
    if core != "" {
      ContainsSplit(core, '\n', "", LINE);
      assert core + ['\n'] + "" == core + "\n";
    }
  }

  /** A block just added is the only thing that imports: filtered out, no import is left. */
  lemma EnsuredImportsOnlyInside(text: string)
    requires !Contains(text, LINE)
    ensures !ImportsOutside(EnsureImport(Some(text)).content.value)
  {
    hide Block, Contains, TrimRight, Survivors, Split;
    var base := TrimRight(text, {'\n'});
    LineIsOneLine();
    LineIsBare();
    EmptyHoldsNothing(LINE);
    assert text == "" + base + text[|base|..];
    assert !Contains(base, LINE) by {
      if Contains(base, LINE) {
        ContainsWithin("", base, text[|base|..], LINE);
      }
    }
    var block := [START, LINE, END, ""];
    var before := if base == "" then [] else Split(base, '\n') + [""];
    BlockLines();
    EnsuredLines(base);
    SurvivorsBlock(before);
    assert [] + block == block;
    SurvivorsAreUnmarked(before);
    JoinSplit(base, '\n');
    JoinContains(Split(base, '\n'), LINE);
  }

  /** Removing twice leaves what removing once leaves: no marker line, hence nothing more to take out. */
  lemma RemoveIdempotent(existing: Option<string>)
    ensures var once := RemoveImport(existing).content;
            && RemoveImport(once).content == once
            && (RemoveImport(existing).changed && once.Some? ==> NoMarkerLine(once.value))
  {
    hide Contains, Split, Survivors, IsMarker, Tidied;
    if RemoveImport(existing).changed {
      var lines := Split(existing.value, '\n');
      SplitPieces(existing.value, '\n');
      TidiedIsUnmarked(lines);
      var once := RemoveImport(existing).content;
      if once.Some? {
        SurvivorsAll(Split(once.value, '\n'));
        JoinSplit(once.value, '\n');
      }
    }
  }

  /** A removal rewrites the same bytes exactly when the text had no marker line and was tidy. */
  lemma RemovalOfNothing(text: string)
    requires Contains(text, START)
    ensures RemoveImport(Some(text)).content == Some(text) <==> NoMarkerLine(text) && Tidied(text) == Some(text)
  {
    hide Contains, Survivors, Split, IsMarker, Tidied;
    RemoveIdempotent(Some(text));
    if NoMarkerLine(text) {
      SurvivorsAll(Split(text, '\n'));
      JoinSplit(text, '\n');
    }
  }

  lemma ShortHoldsNothing(s: string, t: string)
    requires |s| < |t|
    ensures !Contains(s, t)
  {}

  lemma TidiedBlank()
    ensures Tidied("") == None
  {
    TrimBare("", SPACES);
  }

  lemma TidiedIs(text: string)
    ensures Tidied(text) == if TrimSpace(text) == "" then None else Some(TrimSpace(text) + "\n")
  {
    hide TrimSpace;
  }

  /** Removing from an ensured file: the filtered user text, trimmed, plus one line break. */
  lemma RemoveAfterEnsure(text: string)
    requires !Contains(text, LINE)
    ensures var base := TrimRight(text, {'\n'});
            var kept := if base == "" then "" else Join(Survivors(Split(base, '\n') + [""]) + [""], "\n");
            RemoveImport(EnsureImport(Some(text)).content) == Edit(Tidied(kept), true)
  {
    hide Block, Contains, TrimRight, Survivors, Tidied;
    var base := TrimRight(text, {'\n'});
    var ensured := EnsureImport(Some(text)).content.value;
    BlockHolds();
    if base == "" {
      assert ensured == "" + Block() + "\n";
      ContainsWithin("", Block(), "\n", START);
      BlockLines();
      SurvivorsBlock([]);
      assert [] + [START, LINE, END, ""] == [START, LINE, END, ""];
      assert Survivors([]) + [""] == [""] by { SurvivorsAll([]); }
    } else {
      ContainsWithin(base + "\n\n", Block(), "\n", START);
      EnsuredLines(base);
      SurvivorsBlock(Split(base, '\n') + [""]);
    }
  }

  /** Where there was no root file, undoing an activation leaves none. */
  lemma AbsentRootRoundTrip()
    ensures RemoveImport(EnsureImport(None).content) == Edit(None, true)
  {
    hide Contains, Trim, Block, Survivors, Split, Tidied;
    assert !Contains("", LINE) by {
      hide *;
      EmptyHoldsNothing(LINE);
    }
    RemoveAfterEnsure("");
    assert Tidied("") == None by {
      hide *;
      TidiedBlank();
    }
  }

  /** After ensuring, the root file holds the import line, and ensuring again asks for nothing:
      any number of activations leaves one block. */
  lemma EnsureIdempotent(existing: Option<string>)
    ensures var next := EnsureImport(existing).content;
            next.Some? && Contains(next.value, LINE) && EnsureImport(next) == Edit(next, false)
  {
    hide Block, TrimRight, Contains;
    BlockHolds();
    var base := TrimRight(if existing.Some? then existing.value else "", {'\n'});
    ContainsWithin("", Block(), "\n", LINE);
    assert "" + Block() + "\n" == Block() + "\n";
    ContainsWithin(base + "\n\n", Block(), "\n", LINE);
  }

  /** Without marker lines the filter keeps the whole text. */
  lemma KeptWhole(base: string)
    requires NoMarkerLine(base)
    ensures Join(Survivors(Split(base, '\n') + [""]) + [""], "\n") == base + "\n" + "\n"
  {
    hide Survivors, IsMarker;
    var lines := Split(base, '\n');
    BlankIsNoMarker();
    SurvivorsAll(lines + [""]);
    JoinSplit(base, '\n');
    JoinCat(lines, [""], "\n");
    JoinCat(lines + [""], [""], "\n");
  }

  /** With a marker line the filter loses characters that are not white space. */
  lemma KeptLess(base: string)
    requires !NoMarkerLine(base)
    ensures Ink(Join(Survivors(Split(base, '\n') + [""]) + [""], "\n")) < Ink(base)
  {
    hide Survivors, IsMarker, Ink;
    var lines := Split(base, '\n') + [""];
    var kept := Survivors(lines);
    InkJoin(kept + [""]);
    InkBlank("");
    assert (kept + [""])[..|kept|] == kept;
    assert lines[..|lines| - 1] == Split(base, '\n');
    JoinSplit(base, '\n');
    InkJoin(Split(base, '\n'));
    assert !NoMarkers(lines);
    SurvivorsInk(lines);
  }

  lemma TidiedPad(text: string, pad: string)
    requires All(pad, SPACES)
    ensures Tidied(text + pad) == Tidied(text)
  {
    hide TrimSpace;
    TrimTail(text, pad);
  }

  lemma BlankText()
    ensures NoMarkerLine("")
  {
    BlankIsNoMarker();
  }

  /** Undoing an activation gives back the user's text, trimmed and closed by one line break (or no
      file when the text is blank), exactly when the user's text held no marker line; and a
      user-written import without the start marker is left alone. */
  lemma RootImportRoundTrip(text: string)
    ensures var undone := RemoveImport(EnsureImport(Some(text)).content).content;
            && (!Contains(text, LINE) ==>
                  (undone == (if TrimSpace(text) == "" then None else Some(TrimSpace(text) + "\n")) <==>
                   NoMarkerLine(text)))
            && (Contains(text, LINE) && !Contains(text, START) ==> undone == Some(text))
  {
    hide TrimSpace, Contains, TrimRight, Tidied, Survivors, Ink, NoMarkerLine;
    TidiedIs(text);
    if !Contains(text, LINE) {
      var base := TrimRight(text, {'\n'});
      var pad := text[|base|..];
      TrimRightCut(text, {'\n'});
      assert text == base + pad;
      assert All(pad, SPACES);
      RemoveAfterEnsure(text);
      PaddingIsNoMarker(base, pad);
      TidiedPad(base, pad);
      InkCat(base, pad);
      InkBlank(pad);
      if base == "" {
        TidiedPad("", "");
        BlankText();
      } else if NoMarkerLine(base) {
        KeptWhole(base);
        TidiedPad(base, "\n" + "\n");
        assert base + "\n" + "\n" == base + ("\n" + "\n");
      } else {
        KeptLess(base);
        var kept := Join(Survivors(Split(base, '\n') + [""]) + [""], "\n");
        if Tidied(kept) == Tidied(text) {
          TidiedInk(kept, text);
        }
      }
    }
  }

  /** The file has a line that is the import itself, not a comment that quotes it. */
  predicate Imports(text: string) {
    exists line | line in Split(text, '\n') :: TrimSpace(line) == LINE
  }

  /** The check for an existing import looks for a substring. The ensured file really imports the
      sites exactly when the substring was absent or the import line was there already. */
  lemma ImportIsEffective(text: string)
    ensures Imports(EnsureImport(Some(text)).content.value) <==> !Contains(text, LINE) || Imports(text)
  {
    hide Contains, TrimRight, Block, Trim;
    LineIsNoMarker();
    if !Contains(text, LINE) {
      var base := TrimRight(text, {'\n'});
      BlockLines();
      EnsuredLines(base);
      var lines := Split(EnsureImport(Some(text)).content.value, '\n');
      var block := [START, LINE, END, ""];
      assert block[1] in block;
      assert LINE in lines;
    }
  }

  /** A commented-out import satisfies the substring check, so the sites are not imported. */
  lemma CommentedImportIsKept(text: string)
    requires text == "# " + LINE + "\n"
    ensures EnsureImport(Some(text)) == Edit(Some(text), false) && !Imports(text)
  {
    hide Contains, Trim;
    ContainsMiddle("# ", LINE, "\n");
    var commented := "# " + LINE;
    LineIsOneLine();
    assert text == commented + ['\n'] + "";
    SplitCat(commented, '\n', "");
    SplitWhole(commented, '\n');
    assert Bare(commented, SPACES) by { assert commented[|commented| - 1] == LINE[30]; }
    TrimBare(commented, SPACES);
    TrimBare("", SPACES);
    assert |LINE| == 31 && |commented| == 33;
  }

  lemma EndsInLetter(head: string)
    requires head == START
    ensures var text := head + "\n" + "localhost"; TrimRight(text, {'\n'}) == text && TrimSpace(text) == text
  {
    hide Trim;
    TrimBare(head + "\n" + "localhost", SPACES);
  }

  lemma StarInLine()
    ensures '*' in LINE && '*' !in START && '*' !in "localhost"
  {
    assert LINE[24] == '*';
  }

  /** A text that holds another holds all its characters. */
  lemma OccurrenceKeeps(s: string, t: string)
    requires Contains(s, t)
    ensures forall c | c in t :: c in s
  {
    var i :| 0 <= i <= |s| && At(s, t, i);
    AtChars(s, t, i);
    assert forall k | 0 <= k < |t| :: t[k] == s[i + k];
  }

  lemma MissingChar(s: string, t: string, c: char)
    requires c in t && c !in s
    ensures !Contains(s, t)
  {
    if Contains(s, t) {
      OccurrenceKeeps(s, t);
    }
  }

  lemma StrayLines()
    ensures !Contains(START, LINE) && !Contains("localhost", LINE)
  {
    hide START, LINE;
    StarInLine();
    MissingChar(START, LINE, '*');
    MissingChar("localhost", LINE, '*');
  }

  /** Behind a start marker, lines that are no markers are lost. */
  lemma LostBehind(start: string, first: string, second: string)
    requires IsStart(start) && !IsMarker(first) && !IsMarker(second)
    ensures Survivors([start, first, second]) == []
  {
    hide Survivors, Inside, IsStart, IsEnd;
    var one, two, three := [start], [start, first], [start, first, second];
    assert [] + one == one && one + [first] == two && two + [second] == three;
    SurvivorsPush([], start);
    SurvivorsPush(one, first);
    SurvivorsPush(two, second);
    assert Survivors([]) == [] by { SurvivorsAll([]); }
    InsideStep(one, 0);
    InsidePrefix(one, [first], 1);
    InsideStep(two, 1);
    InsidePrefix(two, [second], 2);
  }

  lemma WordIsNoMarker()
    ensures !IsMarker("localhost")
  {
    hide Trim;
    TrimBare("localhost", SPACES);
    assert |START| == 37 && |END| == 35 && |"localhost"| == 9;
  }

  lemma StraySurvivors()
    ensures Survivors([START, "localhost", ""]) == []
  {
    hide *;
    StartIsMarker();
    BlankIsNoMarker();
    WordIsNoMarker();
    LostBehind(START, "localhost", "");
  }

  /** A root file on which the round trip fails: behind a stray start marker the user's own text is lost. */
  lemma StrayMarkerLosesText()
    ensures var text := START + "\n" + "localhost";
            && !Contains(text, LINE) && Tidied(text).Some?
            && RemoveImport(EnsureImport(Some(text)).content).content == None
  {
    hide Contains, Split, Survivors, Trim, Block, IsStart, IsEnd, START, LINE;
    var text := START + "\n" + "localhost";
    StartIsOneLine();
    LineIsOneLine();
    StrayLines();
    ContainsSplit(START, '\n', "localhost", LINE);
    assert START + ['\n'] + "localhost" == text;
    SplitCat(START, '\n', "localhost");
    SplitWhole(START, '\n');
    SplitWhole("localhost", '\n');
    assert TrimRight(text, {'\n'}) == text by { EndsInLetter(START); }
    RemoveAfterEnsure(text);
    assert Split(text, '\n') + [""] == [START, "localhost", ""];
    StraySurvivors();
    TidiedBlank();
    assert Join([""], "\n") == "";
    assert TrimSpace(text) == text by { EndsInLetter(START); }
  }

  /** The file of a site, relative to the directory of the root file. */
  function SiteFileName(token: string): string {
    "sites.d/lara-nux/" + token + ".caddy"
  }

  lemma BlockIsThree(a: string, b: string, c: string)
    ensures Join([a, b, c], "\n") == a + "\n" + b + "\n" + c
  {
    hide Join;
    assert [a] + [b] + [c] == [a, b, c];
    JoinCat([a] + [b], [c], "\n");
    JoinCat([a], [b], "\n");
    JoinOne(a, "\n");
    JoinOne(b, "\n");
    JoinOne(c, "\n");
  }

  lemma ImportIsPattern()
    ensures LINE == "import " + SiteFileName("*")
  {
    assert "import " + "sites.d/lara-nux/" == "import sites.d/lara-nux/";
    assert "import sites.d/lara-nux/" + "*" + ".caddy" == "import sites.d/lara-nux/*.caddy";
  }

  lemma BlockImportsSites()
    ensures Block() == START + "\n" + LINE + "\n" + END && START[0] == '#' && END[0] == '#'
    ensures LINE == "import " + SiteFileName("*")
  {
    hide Join;
    BlockIsThree(START, LINE, END);
    ImportIsPattern();
  }
}
