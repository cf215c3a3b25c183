/** `chunk_document`: the heading-stack split of a document. */
module Chunker {
  import opened Text

  const MAX_SECTION_LINES: nat := 120

  // ----- Lines -----

  function FirstBreak(s: string): (n: nat)
    ensures n <= |s| && (n < |s| ==> IsLineBreak(s[n]))
    ensures forall i :: 0 <= i < n ==> !IsLineBreak(s[i])
  {
    if s == "" || IsLineBreak(s[0]) then 0
    else
      var n := 1 + FirstBreak(s[1..]);
      assert forall i :: 1 <= i < n ==> s[i] == s[1..][i - 1];
      n
  }

  /** Length of the line break at the start of `s`: a carriage return and a line feed
      are one break. */
  function BreakLength(s: string): (n: nat)
    ensures n <= |s| && (s != "" ==> n > 0)
  {
    if s == "" then 0 else if |s| >= 2 && s[0] == '\r' && s[1] == '\n' then 2 else 1
  }

  /** `str.splitlines` */
  function SplitLines(s: string): seq<string>
    decreases |s|
  {
    if s == "" then []
    else [s[..FirstBreak(s)]] + SplitLines(s[LineEnd(s)..])
  }

  /** Where the second line begins. */
  function LineEnd(s: string): (m: nat)
    requires s != ""
    ensures FirstBreak(s) <= m && 0 < m <= |s| && (m < |s| ==> FirstBreak(s) < m)
  {
    FirstBreak(s) + BreakLength(s[FirstBreak(s)..])
  }

  // ----- Headings -----

  datatype Heading = Heading(level: nat, title: string)

  function Hashes(s: string): (n: nat)
    ensures n <= |s| && (forall i :: 0 <= i < n ==> s[i] == '#') && (n < |s| ==> s[n] != '#')
  {
    if s == "" || s[0] != '#' then 0
    else
      var n := 1 + Hashes(s[1..]);
      assert forall i :: 1 <= i < n ==> s[i] == s[1..][i - 1];
      n
  }

  /** `_HEADING_RE.match`: one to six hashes, whitespace, a title. When only whitespace
      follows the hashes the expression gives back its last character as the title. */
  function MatchHeading(line: string): Option<Heading> {
    var level := Hashes(line);
    var rest := line[level..];
    var title := Strip(rest);
    if !(1 <= level <= 6) || rest == "" || !IsSpace(rest[0]) then None
    else if title != "" then Some(Heading(level, title))
    else if |rest| >= 2 then Some(Heading(level, rest[|rest| - 1..]))
    else None
  }

  /** The language of the heading expression. */
  ghost predicate IsHeadingText(line: string, hashes: string, gap: string, title: string, after: string) {
    && line == hashes + gap + title + after
    && 1 <= |hashes| <= 6 && (forall i :: 0 <= i < |hashes| ==> hashes[i] == '#')
    && gap != "" && AllSpace(gap) && title != "" && AllSpace(after)
  }

  lemma HeadingSound(line: string)
    requires MatchHeading(line).Some?
    ensures var h := MatchHeading(line).value;
      exists hashes, gap, after :: |hashes| == h.level && IsHeadingText(line, hashes, gap, h.title, after)
  {
    var level := Hashes(line);
    var (hashes, rest) := (line[..level], line[level..]);
    assert line == hashes + rest;
    var title := MatchHeading(line).value.title;
    if Strip(rest) != "" {
      var gap, after := StripSplits(rest);
      hide Strip;
      Regroup(hashes, gap, title, after);
      assert IsHeadingText(line, hashes, gap, title, after);
    } else {
      StripInk(rest);
      hide Strip;
      var gap := rest[..|rest| - 1];
      assert rest == gap + title + "";
      Regroup(hashes, gap, title, "");
      assert IsHeadingText(line, hashes, gap, title, "");
    }
  }

  lemma StripSplits(s: string) returns (before: string, after: string)
    requires Strip(s) != ""
    ensures s == before + Strip(s) + after && AllSpace(before) && AllSpace(after)
    ensures IsSpace(s[0]) ==> before != ""
  {
    var l := LStrip(s);
    LStripSplits(s);
    RStripSplits(l);
    var (n, k) := (|s| - |l|, |Strip(s)|);
    before, after := s[..n], l[k..];
    hide *;
    CutTwice(s, n, k);
  }

  lemma CutTwice(s: string, n: nat, k: nat)
    requires n + k <= |s|
    ensures s == s[..n] + s[n..][..k] + s[n..][k..]
  {
    assert s == s[..n] + s[n..] && s[n..] == s[n..][..k] + s[n..][k..];
    Regroup(s[..n], s[n..][..k], s[n..][k..], "");
  }

  /** Every line the expression can match in any way is taken as a heading. */
  lemma HeadingComplete(line: string, hashes: string, gap: string, title: string, after: string)
    requires IsHeadingText(line, hashes, gap, title, after)
    ensures MatchHeading(line).Some? && MatchHeading(line).value.level == |hashes|
  {
    var level := Hashes(line);
    assert line[|hashes|] == gap[0];
    assert IsSpace(gap[0]);
    assert forall i :: 0 <= i < |hashes| ==> line[i] == hashes[i];
    assert level == |hashes|;
    var rest := line[level..];
    assert rest == gap + title + after;
  }

  /** The title is what stands between the whitespace, and if there is nothing but
      whitespace, its last character. */
  lemma TitleExactly(line: string, hashes: string, gap: string, title: string, after: string)
    requires IsHeadingText(line, hashes, gap, title, after)
    ensures !IsSpace(title[0]) && !IsSpace(title[|title| - 1]) ==> MatchHeading(line) == Some(Heading(|hashes|, title))
    ensures AllSpace(title) ==> MatchHeading(line) == Some(Heading(|hashes|, line[|line| - 1..]))
  {
    HeadingComplete(line, hashes, gap, title, after);
    var rest := gap + title + after;
    assert line == hashes + rest && line[|hashes|..] == rest;
    HashesEnd(hashes, rest);
    if !IsSpace(title[0]) && !IsSpace(title[|title| - 1]) {
      StripPadded(gap, title, after);
    } else if AllSpace(title) {
      StripPadded(rest, "", "");
      assert rest + "" + "" == rest;
      assert rest[|rest| - 1..] == line[|line| - 1..];
    }
  }

  lemma HashesEnd(hashes: string, rest: string)
    requires rest != "" && rest[0] != '#' && forall i :: 0 <= i < |hashes| ==> hashes[i] == '#'
    ensures Hashes(hashes + rest) == |hashes|
  {
    assert (hashes + rest)[|hashes|] == rest[0];
    assert forall i :: 0 <= i < |hashes| ==> (hashes + rest)[i] == '#';
  }

  // ----- The declarative reading of a document -----

  predicate IsHeading(line: string) { MatchHeading(line).Some? }

  function LevelOf(line: string): nat
    requires IsHeading(line)
  {
    MatchHeading(line).value.level
  }

  /** The heading on line `k` still covers line `i`: nothing of its level or above it
      came in between. */
  predicate Covers(lines: seq<string>, k: nat, i: nat)
    requires k < i <= |lines|
  {
    IsHeading(lines[k]) && forall j :: k < j < i && IsHeading(lines[j]) ==> LevelOf(lines[j]) > LevelOf(lines[k])
  }

  /** The headings among the first `upTo` lines that cover line `i`, outermost first. */
  function Ancestors(lines: seq<string>, upTo: nat, i: nat): seq<Heading>
    requires upTo <= i <= |lines|
  {
    if upTo == 0 then []
    else if Covers(lines, upTo - 1, i) then Ancestors(lines, upTo - 1, i) + [MatchHeading(lines[upTo - 1]).value]
    else Ancestors(lines, upTo - 1, i)
  }

  function Titles(headings: seq<Heading>): (titles: seq<string>)
    ensures |titles| == |headings| && forall i :: 0 <= i < |headings| ==> titles[i] == headings[i].title
  {
    seq(|headings|, i requires 0 <= i < |headings| => headings[i].title)
  }

  function PathAt(lines: seq<string>, i: nat): seq<string>
    requires i <= |lines|
  {
    Titles(Ancestors(lines, i, i))
  }

  /** Where the section of line `i` begins: after the last heading before it. */
  function SectionStart(lines: seq<string>, i: nat): (start: nat)
    requires i <= |lines|
    ensures start <= i
    ensures forall k :: start <= k < i ==> !IsHeading(lines[k])
    ensures start > 0 ==> IsHeading(lines[start - 1])
  {
    if i == 0 || IsHeading(lines[i - 1]) then i else SectionStart(lines, i - 1)
  }

  datatype Piece = Piece(content: string, path: seq<string>)

  /** Slices of `MAX_SECTION_LINES` lines, stripped, the empty ones dropped. */
  function Slices(lines: seq<string>, path: seq<string>): seq<Piece> {
    if lines == [] then []
    else
      var n := if |lines| < MAX_SECTION_LINES then |lines| else MAX_SECTION_LINES;
      OnePiece(Strip(Join(lines[..n], "\n")), path) + Slices(lines[n..], path)
  }

  function OnePiece(content: string, path: seq<string>): seq<Piece> {
    if content == "" then [] else [Piece(content, path)]
  }

  function Pieces(section: seq<string>, path: seq<string>): seq<Piece> {
    var content := Strip(Join(section, "\n"));
    if content == "" then []
    else if |SplitLines(content)| <= MAX_SECTION_LINES then [Piece(content, path)]
    else Slices(SplitLines(content), path)
  }

  function SectionPieces(lines: seq<string>, i: nat): seq<Piece>
    requires i <= |lines|
  {
    var start := SectionStart(lines, i);
    Pieces(lines[start..i], PathAt(lines, start))
  }

  /** The pieces of all sections closed before line `i`. */
  function Closed(lines: seq<string>, i: nat): seq<Piece>
    requires i <= |lines|
  {
    if i == 0 then []
    else if IsHeading(lines[i - 1]) then Closed(lines, i - 1) + SectionPieces(lines, i - 1)
    else Closed(lines, i - 1)
  }

  function DocumentPieces(lines: seq<string>): seq<Piece> {
    Closed(lines, |lines|) + SectionPieces(lines, |lines|)
  }

  // ----- The heading stack -----

  predicate Increasing(stack: seq<Heading>) {
    forall i, j :: 0 <= i < j < |stack| ==> stack[i].level < stack[j].level
  }

  function Above(stack: seq<Heading>, level: nat): seq<Heading> {
    if stack == [] then []
    else
      var n := |stack| - 1;
      if stack[n].level < level then Above(stack[..n], level) + [stack[n]] else Above(stack[..n], level)
  }

  lemma {:induction false} AncestorsIncrease(lines: seq<string>, upTo: nat, i: nat)
    requires upTo <= i <= |lines|
    ensures Increasing(Ancestors(lines, upTo, i))
    ensures forall j :: upTo <= j < i && IsHeading(lines[j]) ==>
      forall a :: a in Ancestors(lines, upTo, i) ==> a.level < LevelOf(lines[j])
  {
    if upTo > 0 {
      AncestorsIncrease(lines, upTo - 1, i);
    }
  }

  /** A heading closes exactly the open headings of its level or deeper. */
  lemma {:induction false} HeadingCloses(lines: seq<string>, upTo: nat, i: nat)
    requires upTo <= i < |lines| && IsHeading(lines[i])
    ensures Ancestors(lines, upTo, i + 1) == Above(Ancestors(lines, upTo, i), LevelOf(lines[i]))
  {
    hide Covers, MatchHeading, IsHeading, LevelOf;
    if upTo > 0 {
      HeadingCloses(lines, upTo - 1, i);
      CoversPast(lines, upTo - 1, i);
      LastAncestor(lines, upTo, i);
      LastAncestor(lines, upTo, i + 1);
      if Covers(lines, upTo - 1, i) {
        AboveAppend(Ancestors(lines, upTo - 1, i), MatchHeading(lines[upTo - 1]).value, LevelOf(lines[i]));
      }
    }
  }

  lemma LastAncestor(lines: seq<string>, upTo: nat, i: nat)
    requires 0 < upTo <= i <= |lines|
    ensures Covers(lines, upTo - 1, i) ==> IsHeading(lines[upTo - 1]) && MatchHeading(lines[upTo - 1]).Some?
    ensures Covers(lines, upTo - 1, i) ==> LevelOf(lines[upTo - 1]) == MatchHeading(lines[upTo - 1]).value.level
    ensures Ancestors(lines, upTo, i)
         == if Covers(lines, upTo - 1, i) then Ancestors(lines, upTo - 1, i) + [MatchHeading(lines[upTo - 1]).value]
            else Ancestors(lines, upTo - 1, i)
  {
  }

  lemma CoversPast(lines: seq<string>, k: nat, i: nat)
    requires k < i < |lines| && IsHeading(lines[i])
    ensures Covers(lines, k, i) ==> IsHeading(lines[k])
    ensures Covers(lines, k, i + 1) <==> Covers(lines, k, i) && LevelOf(lines[k]) < LevelOf(lines[i])
  {
  }

  lemma AboveAppend(stack: seq<Heading>, h: Heading, level: nat)
    ensures Above(stack + [h], level) == if h.level < level then Above(stack, level) + [h] else Above(stack, level)
  {
    assert (stack + [h])[..|stack|] == stack;
  }

  lemma {:induction false} TextChangesNothing(lines: seq<string>, upTo: nat, i: nat)
    requires upTo <= i < |lines| && !IsHeading(lines[i])
    ensures Ancestors(lines, upTo, i + 1) == Ancestors(lines, upTo, i)
  {
    if upTo > 0 {
      TextChangesNothing(lines, upTo - 1, i);
      assert Covers(lines, upTo - 1, i + 1) <==> Covers(lines, upTo - 1, i);
    }
  }

  lemma {:induction false} PoppingIsFiltering(stack: seq<Heading>, level: nat)
    requires Increasing(stack) && stack != []
    ensures stack[|stack| - 1].level >= level ==> Above(stack, level) == Above(stack[..|stack| - 1], level)
    ensures stack[|stack| - 1].level < level ==> Above(stack, level) == stack
  {
    var (front, last) := (stack[..|stack| - 1], stack[|stack| - 1]);
    if last.level < level && front != [] {
      PoppingIsFiltering(front, level);
    }
    assert stack == front + [last];
  }

  // ----- The program -----

  datatype DocChunk = DocChunk(content: string, chunkIdx: nat, headingPath: seq<string>)

  /** `chunks` are the pieces, each with its position as index. */
  ghost predicate Numbers(chunks: seq<DocChunk>, pieces: seq<Piece>) {
    |chunks| == |pieces|
    && forall i :: 0 <= i < |chunks| ==> chunks[i] == DocChunk(pieces[i].content, i, pieces[i].path)
  }

  method Emit(chunks: seq<DocChunk>, section: seq<string>, path: seq<string>, ghost pieces: seq<Piece>)
    returns (more: seq<DocChunk>)
    requires Numbers(chunks, pieces)
    ensures Numbers(more, pieces + Pieces(section, path))
  {
    var content := Strip(Join(section, "\n"));
    if content == "" {
      assert pieces + [] == pieces;
      return chunks;
    }
    var lines := SplitLines(content);
    if |lines| <= MAX_SECTION_LINES {
      return chunks + [DocChunk(content, |chunks|, path)];
    }
    more := EmitSlices(chunks, lines, path, pieces);
  }

  method EmitSlices(chunks: seq<DocChunk>, lines: seq<string>, path: seq<string>, ghost pieces: seq<Piece>)
    returns (more: seq<DocChunk>)
    requires Numbers(chunks, pieces)
    ensures Numbers(more, pieces + Slices(lines, path))
  {
    hide Slices, Strip, Join;
    more := chunks;
    var start := 0;
    ghost var done := pieces;
    assert lines[0..] == lines;
    while start < |lines|
      invariant 0 <= start <= |lines|
      invariant Numbers(more, done) && done + Slices(lines[start..], path) == pieces + Slices(lines, path)
    {
      var end := if start + MAX_SECTION_LINES < |lines| then start + MAX_SECTION_LINES else |lines|;
      var piece := Strip(Join(lines[start..end], "\n"));
      SliceStep(lines, start, end, path);
      Regroup(done, OnePiece(piece, path), Slices(lines[end..], path), []);
      if piece != "" {
        more := more + [DocChunk(piece, |more|, path)];
      }
      done := done + OnePiece(piece, path);
      start := end;
    }
    SliceStep(lines, start, start, path);
    assert done + [] == done;
  }

  lemma SliceStep(lines: seq<string>, start: nat, end: nat, path: seq<string>)
    requires start <= |lines|
    requires end == if start + MAX_SECTION_LINES < |lines| then start + MAX_SECTION_LINES else |lines|
    ensures Slices(lines[start..], path)
         == if start == |lines| then []
            else OnePiece(Strip(Join(lines[start..end], "\n")), path) + Slices(lines[end..], path)
  {
    assert lines[start..][..end - start] == lines[start..end] && lines[start..][end - start..] == lines[end..];
  }

  method PopFor(stack: seq<Heading>, level: nat) returns (rest: seq<Heading>)
    requires Increasing(stack)
    ensures rest == Above(stack, level)
  {
    rest := stack;
    while rest != [] && rest[|rest| - 1].level >= level
      invariant Increasing(rest) && Above(rest, level) == Above(stack, level)
    {
      PoppingIsFiltering(rest, level);
      rest := rest[..|rest| - 1];
    }
    if rest != [] {
      PoppingIsFiltering(rest, level);
    }
  }

  lemma NothingYet(lines: seq<string>)
    ensures Ancestors(lines, 0, 0) == [] && Closed(lines, 0) == [] && SectionStart(lines, 0) == 0 && Titles([]) == []
  {
  }

  lemma HeadingStep(lines: seq<string>, i: nat)
    requires i < |lines| && IsHeading(lines[i])
    ensures Increasing(Ancestors(lines, i, i))
    ensures Ancestors(lines, i + 1, i + 1) == Above(Ancestors(lines, i, i), LevelOf(lines[i])) + [MatchHeading(lines[i]).value]
    ensures Closed(lines, i + 1)
         == Closed(lines, i) + Pieces(lines[SectionStart(lines, i)..i], PathAt(lines, SectionStart(lines, i)))
    ensures SectionStart(lines, i + 1) == i + 1
  {
    hide Ancestors, Covers, MatchHeading, Pieces, Above;
    AncestorsIncrease(lines, i, i);
    HeadingCloses(lines, i, i);
    OpensItself(lines, i);
  }

  lemma OpensItself(lines: seq<string>, i: nat)
    requires i < |lines|
    ensures Ancestors(lines, i + 1, i + 1)
         == if IsHeading(lines[i]) then Ancestors(lines, i, i + 1) + [MatchHeading(lines[i]).value]
            else Ancestors(lines, i, i + 1)
  {
    assert Covers(lines, i, i + 1) <==> IsHeading(lines[i]);
  }

  lemma TextStep(lines: seq<string>, i: nat)
    requires i < |lines| && !IsHeading(lines[i])
    ensures Ancestors(lines, i + 1, i + 1) == Ancestors(lines, i, i)
    ensures Closed(lines, i + 1) == Closed(lines, i)
    ensures SectionStart(lines, i + 1) == SectionStart(lines, i)
    ensures lines[SectionStart(lines, i)..i + 1] == lines[SectionStart(lines, i)..i] + [lines[i]]
  {
    hide Ancestors, Covers, MatchHeading, SectionPieces;
    TextChangesNothing(lines, i, i);
    OpensItself(lines, i);
  }

  /** `chunk_document`: the stack algorithm yields the declarative pieces, each under
      the titles of the headings that cover it, numbered in order. */
  method ChunkDocument(text: string) returns (chunks: seq<DocChunk>)
    ensures Numbers(chunks, Produced(text))
  {
    if text == "" || Strip(text) == "" {
      return [];
    }
    hide Ancestors, Above, Closed, Pieces, SectionStart, MatchHeading, Titles, SplitLines, Strip;
    chunks := [];
    var lines := SplitLines(text);
    NothingYet(lines);
    var stack: seq<Heading> := [];
    var pending: seq<string> := [];
    var pendingPath: seq<string> := [];
    for i := 0 to |lines|
      invariant stack == Ancestors(lines, i, i)
      invariant pending == lines[SectionStart(lines, i)..i] && pendingPath == PathAt(lines, SectionStart(lines, i))
      invariant Numbers(chunks, Closed(lines, i))
    {
      var m := MatchHeading(lines[i]);
      if m.Some? {
        HeadingStep(lines, i);
        chunks := Emit(chunks, pending, pendingPath, Closed(lines, i));
        pending := [];
        stack := PopFor(stack, m.value.level);
        stack := stack + [m.value];
        pendingPath := Titles(stack);
      } else {
        TextStep(lines, i);
        pending := pending + [lines[i]];
      }
    }
    chunks := Emit(chunks, pending, pendingPath, Closed(lines, |lines|));
  }

  // ----- Nothing written under a heading is lost -----

  function InkLines(lines: seq<string>): string {
    if lines == [] then "" else Ink(lines[0]) + InkLines(lines[1..])
  }

  function InkPieces(pieces: seq<Piece>): string {
    if pieces == [] then "" else Ink(pieces[0].content) + InkPieces(pieces[1..])
  }

  /** The ink of the lines before line `i` that are not headings. */
  function Prose(lines: seq<string>, i: nat): string
    requires i <= |lines|
  {
    if i == 0 then ""
    else if IsHeading(lines[i - 1]) then Prose(lines, i - 1)
    else Prose(lines, i - 1) + Ink(lines[i - 1])
  }

  lemma {:induction false} InkLinesAppend(a: seq<string>, b: seq<string>)
    ensures InkLines(a + b) == InkLines(a) + InkLines(b)
  {
    if a == [] {
      assert a + b == b;
    } else {
      assert (a + b)[1..] == a[1..] + b;
      InkLinesAppend(a[1..], b);
    }
  }

  lemma {:induction false} InkPiecesAppend(a: seq<Piece>, b: seq<Piece>)
    ensures InkPieces(a + b) == InkPieces(a) + InkPieces(b)
  {
    if a == [] {
      assert a + b == b;
    } else {
      assert (a + b)[1..] == a[1..] + b;
      InkPiecesAppend(a[1..], b);
    }
  }

  lemma {:induction false} JoinLinesInk(lines: seq<string>)
    ensures Ink(Join(lines, "\n")) == InkLines(lines)
  {
    if |lines| == 1 {
      assert InkLines(lines[1..]) == "";
    } else if |lines| >= 2 {
      JoinLinesInk(lines[1..]);
      InkConcat(lines[0] + "\n", Join(lines[1..], "\n"));
      InkConcat(lines[0], "\n");
      InkOfSpace("\n");
    }
  }

  lemma FirstLineInk(s: string)
    requires s != ""
    ensures Ink(s) == Ink(s[..FirstBreak(s)]) + Ink(s[LineEnd(s)..])
  {
    hide Ink;
    var (n, m) := (FirstBreak(s), LineEnd(s));
    BreakIsSpace(s);
    ThreeParts(s, n, m);
    hide *;
    InkOfSpace(s[n..m]);
    InkConcat(s[..n], s[n..m]);
    InkConcat(s[..n] + s[n..m], s[m..]);
  }

  lemma BreakIsSpace(s: string)
    requires s != ""
    ensures FirstBreak(s) <= LineEnd(s) && AllSpace(s[FirstBreak(s)..LineEnd(s)])
  {
  }

  lemma {:induction false} SplitLinesInk(s: string)
    ensures InkLines(SplitLines(s)) == Ink(s)
    decreases |s|
  {
    if s != "" {
      hide Ink, FirstBreak, LineEnd;
      FirstLineInk(s);
      SplitLinesInk(s[LineEnd(s)..]);
      assert SplitLines(s)[1..] == SplitLines(s[LineEnd(s)..]);
    }
  }

  lemma OnePieceInk(content: string, path: seq<string>)
    ensures InkPieces(OnePiece(content, path)) == Ink(content)
  {
  }

  lemma {:induction false} SlicesInk(lines: seq<string>, path: seq<string>)
    ensures InkPieces(Slices(lines, path)) == InkLines(lines)
  {
    if lines != [] {
      hide Strip, Ink, Join;
      var n := if |lines| < MAX_SECTION_LINES then |lines| else MAX_SECTION_LINES;
      var content := Strip(Join(lines[..n], "\n"));
      JoinLinesInk(lines[..n]);
      StripInk(Join(lines[..n], "\n"));
      SlicesInk(lines[n..], path);
      OnePieceInk(content, path);
      InkPiecesAppend(OnePiece(content, path), Slices(lines[n..], path));
      InkLinesAppend(lines[..n], lines[n..]);
      assert lines == lines[..n] + lines[n..];
    }
  }

  lemma PiecesInk(section: seq<string>, path: seq<string>)
    ensures InkPieces(Pieces(section, path)) == InkLines(section)
  {
    hide Strip, Join, Slices, SplitLines;
    var content := Strip(Join(section, "\n"));
    JoinLinesInk(section);
    StripInk(Join(section, "\n"));
    SplitLinesInk(content);
    SlicesInk(SplitLines(content), path);
    OnePieceInk(content, path);
  }

  lemma OpenSectionGrows(lines: seq<string>, i: nat)
    requires i < |lines| && !IsHeading(lines[i])
    ensures InkLines(lines[SectionStart(lines, i + 1)..i + 1]) == InkLines(lines[SectionStart(lines, i)..i]) + Ink(lines[i])
    ensures Closed(lines, i + 1) == Closed(lines, i)
  {
    hide Ink, IsHeading, SectionStart, Closed;
    TextStep(lines, i);
    InkLinesAppend(lines[SectionStart(lines, i)..i], [lines[i]]);
    assert InkLines([lines[i]]) == Ink(lines[i]) + InkLines([]);
  }

  lemma OpenSectionCloses(lines: seq<string>, i: nat)
    requires i < |lines| && IsHeading(lines[i])
    ensures InkPieces(Closed(lines, i + 1)) == InkPieces(Closed(lines, i)) + InkLines(lines[SectionStart(lines, i)..i])
    ensures InkLines(lines[SectionStart(lines, i + 1)..i + 1]) == ""
  {
    hide Pieces, PathAt, IsHeading, InkPieces, InkLines, Closed, SectionStart;
    var (section, path) := (lines[SectionStart(lines, i)..i], PathAt(lines, SectionStart(lines, i)));
    HeadingStep(lines, i);
    PiecesInk(section, path);
    InkPiecesAppend(Closed(lines, i), Pieces(section, path));
    NoInk(lines, i + 1);
  }

  /** Everything before line `i`: the closed sections and the open one. */
  function InkBefore(lines: seq<string>, i: nat): string
    requires i <= |lines|
  {
    InkPieces(Closed(lines, i)) + InkLines(lines[SectionStart(lines, i)..i])
  }

  lemma InkGrows(lines: seq<string>, i: nat)
    requires i < |lines|
    ensures InkBefore(lines, i + 1) == InkBefore(lines, i) + if IsHeading(lines[i]) then "" else Ink(lines[i])
  {
    hide IsHeading, Ink, InkPieces, InkLines, Closed, SectionStart;
    if IsHeading(lines[i]) {
      OpenSectionCloses(lines, i);
    } else {
      OpenSectionGrows(lines, i);
    }
  }

  lemma {:induction false} ClosedInk(lines: seq<string>, i: nat)
    requires i <= |lines|
    ensures InkBefore(lines, i) == Prose(lines, i)
  {
    hide InkPieces, InkLines, Closed, SectionStart, IsHeading, Ink;
    if i == 0 {
      NothingYet(lines);
      NoInk(lines, 0);
    } else {
      ClosedInk(lines, i - 1);
      InkGrows(lines, i - 1);
    }
  }

  lemma NoInk(lines: seq<string>, i: nat)
    requires i <= |lines|
    ensures InkLines(lines[i..i]) == "" && InkPieces([]) == ""
  {
  }

  lemma {:induction false} BlankHasNoProse(lines: seq<string>, i: nat)
    requires i <= |lines| && InkLines(lines) == ""
    ensures Prose(lines, i) == ""
  {
    hide IsHeading, Ink, InkLines;
    if i > 0 {
      BlankHasNoProse(lines, i - 1);
      BlankLine(lines, i - 1);
    }
  }

  lemma BlankLine(lines: seq<string>, k: nat)
    requires k < |lines| && InkLines(lines) == ""
    ensures Ink(lines[k]) == ""
  {
    hide Ink, InkLines;
    InkLinesAppend(lines[..k], lines[k..]);
    assert lines == lines[..k] + lines[k..];
    FirstInk(lines[k..]);
  }

  lemma FirstInk(lines: seq<string>)
    requires lines != []
    ensures |InkLines(lines)| >= |Ink(lines[0])|
  {
  }

  function InkChunks(chunks: seq<DocChunk>): string {
    if chunks == [] then "" else InkChunks(chunks[..|chunks| - 1]) + Ink(chunks[|chunks| - 1].content)
  }

  lemma {:induction false} ChunksHaveTheInk(chunks: seq<DocChunk>, pieces: seq<Piece>)
    requires Numbers(chunks, pieces)
    ensures InkChunks(chunks) == InkPieces(pieces)
  {
    if chunks != [] {
      var n := |chunks| - 1;
      ChunksHaveTheInk(chunks[..n], pieces[..n]);
      InkPiecesAppend(pieces[..n], [pieces[n]]);
      assert pieces == pieces[..n] + [pieces[n]];
      assert InkPieces([pieces[n]]) == Ink(pieces[n].content) + InkPieces([]);
    }
  }

  lemma DocumentInk(lines: seq<string>)
    ensures InkPieces(DocumentPieces(lines)) == Prose(lines, |lines|)
  {
    hide Pieces, PathAt, InkPieces, InkLines, Closed, SectionStart;
    var start := SectionStart(lines, |lines|);
    ClosedInk(lines, |lines|);
    PiecesInk(lines[start..|lines|], PathAt(lines, start));
    InkPiecesAppend(Closed(lines, |lines|), SectionPieces(lines, |lines|));
  }

  /** The pieces a document is cut into. */
  function Produced(text: string): seq<Piece> {
    if Strip(text) == "" then [] else DocumentPieces(SplitLines(text))
  }

  /** Chunk after chunk, the text of the lines that are not headings comes out complete
      and in order, whitespace aside. */
  lemma ChunksKeepTheProse(text: string, chunks: seq<DocChunk>)
    requires Numbers(chunks, Produced(text))
    ensures InkChunks(chunks) == Prose(SplitLines(text), |SplitLines(text)|)
  {
    hide Pieces, PathAt, InkPieces, InkLines, SplitLines, Prose, DocumentPieces;
    var lines := SplitLines(text);
    ChunksHaveTheInk(chunks, Produced(text));
    if Strip(text) == "" {
      StripInk(text);
      InkOfSpace(text);
      SplitLinesInk(text);
      BlankHasNoProse(lines, |lines|);
      NoInk([], 0);
    } else {
      DocumentInk(lines);
    }
  }

  // ----- No chunk is longer than a section may be -----

  predicate Unbroken(line: string) {
    forall i :: 0 <= i < |line| ==> !IsLineBreak(line[i])
  }

  lemma {:induction false} SplitLinesUnbroken(s: string)
    ensures forall i :: 0 <= i < |SplitLines(s)| ==> Unbroken(SplitLines(s)[i])
    decreases |s|
  {
    if s != "" {
      SplitLinesUnbroken(s[LineEnd(s)..]);
    }
  }

  function Breaks(s: string): nat {
    if s == "" then 0 else (if IsLineBreak(s[0]) then 1 else 0) + Breaks(s[1..])
  }

  lemma {:induction false} BreaksAdd(a: string, b: string)
    ensures Breaks(a + b) == Breaks(a) + Breaks(b)
  {
    if a == "" {
      assert a + b == b;
    } else {
      assert (a + b)[1..] == a[1..] + b;
      BreaksAdd(a[1..], b);
    }
  }

  lemma {:induction false} NoBreaks(s: string)
    requires Unbroken(s)
    ensures Breaks(s) == 0
  {
    if s != "" {
      NoBreaks(s[1..]);
    }
  }

  /** Every line but the last ends in a line break of its own. */
  lemma {:induction false} LinesBound(s: string)
    ensures |SplitLines(s)| <= Breaks(s) + 1 && (s == "" ==> |SplitLines(s)| == 0)
    decreases |s|
  {
    if s != "" {
      hide FirstBreak, LineEnd;
      var (n, m) := (FirstBreak(s), LineEnd(s));
      LinesBound(s[m..]);
      ThreeParts(s, n, m);
      BreaksAdd(s[..n] + s[n..m], s[m..]);
      BreaksAdd(s[..n], s[n..m]);
      assert n < m ==> s[n..m][0] == s[n];
    }
  }

  lemma {:induction false} BreaksOfJoin(lines: seq<string>)
    requires lines != [] && forall i :: 0 <= i < |lines| ==> Unbroken(lines[i])
    ensures Breaks(Join(lines, "\n")) < |lines|
  {
    NoBreaks(lines[0]);
    if |lines| > 1 {
      BreaksOfJoin(lines[1..]);
      BreaksAdd(lines[0] + "\n", Join(lines[1..], "\n"));
      BreaksAdd(lines[0], "\n");
    }
  }

  lemma StripShortens(s: string)
    ensures Breaks(Strip(s)) <= Breaks(s)
  {
    if Strip(s) != "" {
      var before, after := StripSplits(s);
      BreaksAdd(before + Strip(s), after);
      BreaksAdd(before, Strip(s));
    }
  }

  predicate Short(piece: Piece) { |SplitLines(piece.content)| <= MAX_SECTION_LINES }

  lemma {:induction false} SlicesShort(lines: seq<string>, path: seq<string>)
    requires forall i :: 0 <= i < |lines| ==> Unbroken(lines[i])
    ensures forall p :: p in Slices(lines, path) ==> Short(p)
  {
    if lines != [] {
      hide SplitLines, Strip, Join, Breaks;
      var n := if |lines| < MAX_SECTION_LINES then |lines| else MAX_SECTION_LINES;
      var joined := Join(lines[..n], "\n");
      BreaksOfJoin(lines[..n]);
      StripShortens(joined);
      LinesBound(Strip(joined));
      SlicesShort(lines[n..], path);
    }
  }

  lemma PiecesShort(section: seq<string>, path: seq<string>)
    ensures forall p :: p in Pieces(section, path) ==> Short(p)
  {
    hide SplitLines, Strip, Join;
    var content := Strip(Join(section, "\n"));
    SplitLinesUnbroken(content);
    SlicesShort(SplitLines(content), path);
  }

  lemma SectionShort(lines: seq<string>, i: nat)
    requires i <= |lines|
    ensures forall p :: p in SectionPieces(lines, i) ==> Short(p)
  {
    hide Pieces, Short, SectionStart, PathAt;
    PiecesShort(lines[SectionStart(lines, i)..i], PathAt(lines, SectionStart(lines, i)));
  }

  lemma {:induction false} ClosedShort(lines: seq<string>, i: nat)
    requires i <= |lines|
    ensures forall p :: p in Closed(lines, i) ==> Short(p)
  {
    hide SectionPieces, Short, IsHeading;
    if i > 0 {
      ClosedShort(lines, i - 1);
      SectionShort(lines, i - 1);
    }
  }

  lemma PiecesAreShort(lines: seq<string>)
    ensures forall p :: p in DocumentPieces(lines) ==> Short(p)
  {
    hide SectionPieces, Short, Closed;
    ClosedShort(lines, |lines|);
    SectionShort(lines, |lines|);
  }

  /** No chunk has more lines than the section cap, and chunks are numbered from zero. */
  lemma ChunksAreShort(text: string, chunks: seq<DocChunk>, i: nat)
    requires Numbers(chunks, Produced(text)) && i < |chunks|
    ensures |SplitLines(chunks[i].content)| <= 120 && chunks[i].chunkIdx == i
  {
    hide DocumentPieces, SplitLines, Strip;
    PiecesAreShort(SplitLines(text));
    assert Produced(text)[i] in Produced(text);
    assert Short(Produced(text)[i]);
  }

  /** The path of a section is made of exactly the headings that still cover it. */
  lemma {:induction false} AncestorsExactly(lines: seq<string>, upTo: nat, i: nat, h: Heading)
    requires upTo <= i <= |lines|
    ensures h in Ancestors(lines, upTo, i)
      <==> exists k :: 0 <= k < upTo && Covers(lines, k, i) && MatchHeading(lines[k]).value == h
  {
    hide MatchHeading, Covers, IsHeading;
    if upTo > 0 {
      AncestorsExactly(lines, upTo - 1, i, h);
      LastAncestor(lines, upTo, i);
    }
  }

  // ----- Where a chunk comes from -----

  /** Lines s up to e are one section: no heading inside, one right before and after. */
  ghost predicate Section(lines: seq<string>, s: nat, e: nat) {
    && s <= e <= |lines| && (s == 0 || IsHeading(lines[s - 1])) && (e == |lines| || IsHeading(lines[e]))
    && forall k :: s <= k < e ==> !IsHeading(lines[k])
  }

  ghost predicate Climbs(ks: seq<nat>) {
    forall i, j :: 0 <= i < j < |ks| ==> ks[i] < ks[j]
  }

  /** `ks` are the lines whose headings cover line `s`, in ascending order. */
  ghost predicate CoveredBy(lines: seq<string>, s: nat, ks: seq<nat>)
    requires s <= |lines|
  {
    && Climbs(ks) && (forall k: nat :: k in ks <==> k < s && Covers(lines, k, s))
  }

  /** Line `k` is a heading with this title. */
  predicate Titled(lines: seq<string>, k: nat, title: string) {
    k < |lines| && MatchHeading(lines[k]).Some? && MatchHeading(lines[k]).value.title == title
  }

  ghost predicate PathAlong(lines: seq<string>, ks: seq<nat>, path: seq<string>) {
    |ks| == |path| && forall i :: 0 <= i < |ks| ==> Titled(lines, ks[i], path[i])
  }

  /** `path` is made of the titles of the headings that cover line `s`, outermost first. */
  ghost predicate PathOf(lines: seq<string>, s: nat, path: seq<string>)
    requires s <= |lines|
  {
    exists ks :: CoveredBy(lines, s, ks) && PathAlong(lines, ks, path)
  }

  /** `content` stands in one piece in the text of the section, and neither begins nor ends
      with whitespace. */
  ghost predicate PartOf(section: seq<string>, content: string) {
    && content != "" && !IsSpace(content[0]) && !IsSpace(content[|content| - 1])
    && exists before, after :: Join(section, "\n") == before + content + after
  }

  ghost predicate ComesFrom(lines: seq<string>, s: nat, p: Piece) {
    && s <= |lines| && PathOf(lines, s, p.path)
    && exists e: nat :: Section(lines, s, e) && PartOf(lines[s..e], p.content)
  }

  function Covering(lines: seq<string>, upTo: nat, i: nat): seq<nat>
    requires upTo <= i <= |lines|
  {
    if upTo == 0 then []
    else Covering(lines, upTo - 1, i) + if Covers(lines, upTo - 1, i) then [upTo - 1] else []
  }

  lemma {:induction false} CoveringIs(lines: seq<string>, upTo: nat, i: nat)
    requires upTo <= i <= |lines|
    ensures forall k: nat :: k in Covering(lines, upTo, i) <==> k < upTo && Covers(lines, k, i)
    ensures Climbs(Covering(lines, upTo, i))
  {
    hide Covers;
    if upTo > 0 {
      var ks := Covering(lines, upTo - 1, i);
      CoveringIs(lines, upTo - 1, i);
      forall a | 0 <= a < |ks|
        ensures ks[a] < upTo - 1
      {
        assert ks[a] in ks;
      }
      if Covers(lines, upTo - 1, i) {
        assert Covering(lines, upTo, i) == ks + [upTo - 1];
      } else {
        assert Covering(lines, upTo, i) == ks + [];
        assert ks + [] == ks;
      }
    }
  }

  lemma {:induction false} CoveringNames(lines: seq<string>, upTo: nat, i: nat)
    requires upTo <= i <= |lines|
    ensures PathAlong(lines, Covering(lines, upTo, i), Titles(Ancestors(lines, upTo, i)))
  {
    hide MatchHeading, Covers, IsHeading;
    if upTo > 0 {
      CoveringNames(lines, upTo - 1, i);
      LastAncestor(lines, upTo, i);
      var (ks, titles) := (Covering(lines, upTo - 1, i), Titles(Ancestors(lines, upTo - 1, i)));
      forall a | 0 <= a < |Covering(lines, upTo, i)|
        ensures Titled(lines, Covering(lines, upTo, i)[a], Titles(Ancestors(lines, upTo, i))[a])
      {
        assert a < |ks| ==> Titled(lines, ks[a], titles[a]);
      }
    }
  }

  lemma PathAtIsThePath(lines: seq<string>, s: nat)
    requires s <= |lines|
    ensures PathOf(lines, s, PathAt(lines, s))
  {
    hide MatchHeading, Covers, Covering, Ancestors;
    CoveringIs(lines, s, s);
    CoveringNames(lines, s, s);
    assert CoveredBy(lines, s, Covering(lines, s, s));
  }

  predicate AllUnbroken(lines: seq<string>) {
    forall i :: 0 <= i < |lines| ==> Unbroken(lines[i])
  }

  /** No line break but line feeds. */
  predicate FeedOnly(s: string) {
    forall i :: 0 <= i < |s| && IsLineBreak(s[i]) ==> s[i] == '\n'
  }

  lemma {:induction false} JoinAppend(a: seq<string>, b: seq<string>)
    requires a != [] && b != []
    ensures Join(a + b, "\n") == Join(a, "\n") + "\n" + Join(b, "\n")
  {
    if |a| == 1 {
      assert (a + b)[1..] == b;
    } else {
      assert (a + b)[1..] == a[1..] + b;
      JoinAppend(a[1..], b);
      Regroup(a[0] + "\n", Join(a[1..], "\n"), "\n", Join(b, "\n"));
    }
  }

  lemma {:induction false} JoinFeedOnly(lines: seq<string>)
    requires AllUnbroken(lines)
    ensures FeedOnly(Join(lines, "\n"))
  {
    if |lines| == 1 {
      assert Unbroken(lines[0]);
    } else if |lines| >= 2 {
      JoinFeedOnly(lines[1..]);
      assert Unbroken(lines[0]);
    }
  }

  lemma {:induction false} JoinSplitLines(s: string)
    requires FeedOnly(s) && (s != "" ==> !IsLineBreak(s[|s| - 1]))
    ensures Join(SplitLines(s), "\n") == s && (s != "" ==> SplitLines(s) != [])
    decreases |s|
  {
    if s != "" {
      hide SplitLines, FirstBreak;
      var n := FirstBreak(s);
      FirstLineSplits(s);
      if n < |s| {
        JoinSplitLines(s[n + 1..]);
        JoinMore(s[..n], SplitLines(s[n + 1..]));
      }
    }
  }

  lemma JoinMore(line: string, lines: seq<string>)
    requires lines != []
    ensures Join([line] + lines, "\n") == line + "\n" + Join(lines, "\n")
  {
    assert ([line] + lines)[1..] == lines;
  }

  lemma FirstLineSplits(s: string)
    requires FeedOnly(s) && s != ""
    ensures
      var n := FirstBreak(s);
      if n == |s| then SplitLines(s) == [s]
      else s == s[..n] + "\n" + s[n + 1..] && SplitLines(s) == [s[..n]] + SplitLines(s[n + 1..])
  {
    var n := FirstBreak(s);
    if n < |s| {
      FeedEndsTheLine(s);
      hide *;
      ThreeParts(s, n, n + 1);
      assert s[n..n + 1] == "\n";
    } else {
      assert s[..n] == s && LineEnd(s) == n;
      NoMoreLines(s[n..]);
    }
  }

  lemma NoMoreLines(s: string)
    requires s == ""
    ensures SplitLines(s) == []
  {
  }

  lemma FeedEndsTheLine(s: string)
    requires FeedOnly(s) && FirstBreak(s) < |s|
    ensures var n := FirstBreak(s); s[n] == '\n' && SplitLines(s) == [s[..n]] + SplitLines(s[n + 1..])
  {
    hide SplitLines, FirstBreak;
    var n := FirstBreak(s);
    SplitLinesStep(s);
    FeedIsOne(s[n..]);
  }

  lemma SplitLinesStep(s: string)
    requires s != ""
    ensures SplitLines(s) == [s[..FirstBreak(s)]] + SplitLines(s[LineEnd(s)..])
  {
    hide FirstBreak, LineEnd;
  }

  lemma FeedIsOne(s: string)
    requires s != "" && s[0] == '\n'
    ensures BreakLength(s) == 1
  {
  }

  lemma StripTight(s: string)
    requires Strip(s) != ""
    ensures !IsSpace(Strip(s)[0]) && !IsSpace(Strip(s)[|Strip(s)| - 1])
  {
    LStripSplits(s);
    RStripSplits(LStrip(s));
  }

  lemma PartOfTail(lines: seq<string>, n: nat, content: string)
    requires n <= |lines| && PartOf(lines[n..], content)
    ensures PartOf(lines, content)
  {
    var before, after :| Join(lines[n..], "\n") == before + content + after;
    if n == 0 {
      assert lines[n..] == lines;
    } else {
      var head := Join(lines[..n], "\n") + "\n";
      JoinAppend(lines[..n], lines[n..]);
      assert lines == lines[..n] + lines[n..];
      hide Join;
      Regroup(head, before, content, after);
      assert Join(lines, "\n") == (head + before) + content + after;
    }
  }

  lemma PartOfHead(lines: seq<string>, n: nat)
    requires n <= |lines| && Strip(Join(lines[..n], "\n")) != ""
    ensures PartOf(lines, Strip(Join(lines[..n], "\n")))
  {
    var content := Strip(Join(lines[..n], "\n"));
    StripTight(Join(lines[..n], "\n"));
    var before, after := StripSplits(Join(lines[..n], "\n"));
    if n == |lines| {
      assert lines[..n] == lines;
    } else {
      JoinAppend(lines[..n], lines[n..]);
      assert lines == lines[..n] + lines[n..];
      hide Join, Strip;
      var rest := "\n" + Join(lines[n..], "\n");
      assert Join(lines, "\n") == before + content + (after + rest);
    }
  }

  lemma {:induction false} SlicesArePart(lines: seq<string>, path: seq<string>)
    ensures forall p :: p in Slices(lines, path) ==> p.path == path && PartOf(lines, p.content)
  {
    if lines != [] {
      hide Strip, Join, PartOf;
      var n := if |lines| < MAX_SECTION_LINES then |lines| else MAX_SECTION_LINES;
      SlicesArePart(lines[n..], path);
      forall p | p in Slices(lines, path)
        ensures p.path == path && PartOf(lines, p.content)
      {
        if p in Slices(lines[n..], path) {
          PartOfTail(lines, n, p.content);
        } else {
          PartOfHead(lines, n);
        }
      }
    }
  }

  lemma PartOfPart(section: seq<string>, lines: seq<string>, before: string, after: string, content: string)
    requires Join(section, "\n") == before + Join(lines, "\n") + after && PartOf(lines, content)
    ensures PartOf(section, content)
  {
    hide Join;
    var inner, outer :| Join(lines, "\n") == inner + content + outer;
    Regroup(before, inner, content, outer);
    Regroup((before + inner) + content, outer, after, "");
    assert Join(section, "\n") == (before + inner) + content + (outer + after);
  }

  /** All pieces of a section carry its path and stand in its text, and there is more than
      one only if the text has more than 120 lines. */
  lemma PiecesArePart(section: seq<string>, path: seq<string>)
    requires AllUnbroken(section)
    ensures forall p :: p in Pieces(section, path) ==> p.path == path && PartOf(section, p.content)
    ensures |Pieces(section, path)| > 1 ==> |SplitLines(Strip(Join(section, "\n")))| > 120
  {
    var joined := Join(section, "\n");
    var content := Strip(joined);
    if content != "" {
      StripTight(joined);
      var before, after := StripSplits(joined);
      JoinFeedOnly(section);
      ContentIsFeedOnly(joined, before, content, after);
      JoinSplitLines(content);
      assert section[..|section|] == section;
      PartOfHead(section, |section|);
      hide Strip, Join, Slices, SplitLines, PartOf;
      SlicesArePart(SplitLines(content), path);
      forall p | p in Slices(SplitLines(content), path)
        ensures PartOf(section, p.content)
      {
        PartOfPart(section, SplitLines(content), before, after, p.content);
      }
    }
  }

  lemma ContentIsFeedOnly(s: string, before: string, content: string, after: string)
    requires FeedOnly(s) && s == before + content + after
    ensures FeedOnly(content)
  {
    assert forall i :: 0 <= i < |content| ==> content[i] == s[|before| + i];
  }

  /** A section whose text has more than 120 lines begins at line `s`. */
  ghost predicate Long(lines: seq<string>, s: nat) {
    exists e: nat :: Section(lines, s, e) && |SplitLines(Strip(Join(lines[s..e], "\n")))| > 120
  }

  lemma SectionComes(lines: seq<string>, i: nat)
    requires i <= |lines| && (i == |lines| || IsHeading(lines[i])) && AllUnbroken(lines)
    ensures forall p :: p in SectionPieces(lines, i) ==> ComesFrom(lines, SectionStart(lines, i), p)
    ensures |SectionPieces(lines, i)| > 1 ==> Long(lines, SectionStart(lines, i))
  {
    hide Pieces, PathAt, PathOf, PartOf, IsHeading, Unbroken;
    var s := SectionStart(lines, i);
    PathAtIsThePath(lines, s);
    PiecesArePart(lines[s..i], PathAt(lines, s));
    assert Section(lines, s, i);
  }

  /** For each piece of the sections closed before line `i`, where its section begins. */
  function Origins(lines: seq<string>, i: nat): (origins: seq<nat>)
    requires i <= |lines|
    ensures |origins| == |Closed(lines, i)|
  {
    if i == 0 then []
    else Origins(lines, i - 1) + if IsHeading(lines[i - 1]) then OneOrigin(lines, i - 1) else []
  }

  function OneOrigin(lines: seq<string>, i: nat): (origins: seq<nat>)
    requires i <= |lines|
    ensures |origins| == |SectionPieces(lines, i)|
    ensures forall o :: o in origins ==> o == SectionStart(lines, i)
  {
    seq(|SectionPieces(lines, i)|, k => SectionStart(lines, i))
  }

  ghost predicate Traced(lines: seq<string>, pieces: seq<Piece>, origins: seq<nat>, limit: nat) {
    && |origins| == |pieces|
    && (forall a, b :: 0 <= a < b < |origins| ==>
          origins[a] < origins[b] || (origins[a] == origins[b] && Long(lines, origins[a])))
    && (forall a :: 0 <= a < |origins| ==> origins[a] < limit && ComesFrom(lines, origins[a], pieces[a]))
  }

  lemma OneSectionTraced(lines: seq<string>, pieces: seq<Piece>, origins: seq<nat>, start: nat)
    requires |origins| == |pieces| && forall o :: o in origins ==> o == start
    requires (forall p :: p in pieces ==> ComesFrom(lines, start, p)) && (|pieces| > 1 ==> Long(lines, start))
    ensures Traced(lines, pieces, origins, start + 1)
  {
    hide ComesFrom, Long;
    forall a | 0 <= a < |origins|
      ensures origins[a] == start && ComesFrom(lines, origins[a], pieces[a])
    {
      assert pieces[a] in pieces && origins[a] in origins;
    }
  }

  lemma TracedAppend(lines: seq<string>, pieces: seq<Piece>, origins: seq<nat>, limit: nat,
                     more: seq<Piece>, from: seq<nat>, start: nat)
    requires Traced(lines, pieces, origins, limit) && Traced(lines, more, from, start + 1)
    requires limit <= start && forall o :: o in from ==> o == start
    ensures Traced(lines, pieces + more, origins + from, start + 1)
  {
    hide ComesFrom, Long;
    assert forall a :: 0 <= a < |from| ==> from[a] in from;
  }

  lemma OneMoreSection(lines: seq<string>, pieces: seq<Piece>, origins: seq<nat>, limit: nat, i: nat)
    requires i <= |lines| && (i == |lines| || IsHeading(lines[i])) && AllUnbroken(lines)
    requires Traced(lines, pieces, origins, limit) && limit <= SectionStart(lines, i)
    ensures Traced(lines, pieces + SectionPieces(lines, i), origins + OneOrigin(lines, i), SectionStart(lines, i) + 1)
  {
    hide *;
    var (more, from, start) := (SectionPieces(lines, i), OneOrigin(lines, i), SectionStart(lines, i));
    SectionComes(lines, i);
    OneSectionTraced(lines, more, from, start);
    TracedAppend(lines, pieces, origins, limit, more, from, start);
  }

  lemma TracedLater(lines: seq<string>, pieces: seq<Piece>, origins: seq<nat>, limit: nat, later: nat)
    requires Traced(lines, pieces, origins, limit) && limit <= later
    ensures Traced(lines, pieces, origins, later)
  {
  }

  lemma {:induction false} ClosedTraced(lines: seq<string>, i: nat)
    requires i <= |lines| && AllUnbroken(lines)
    ensures Traced(lines, Closed(lines, i), Origins(lines, i), SectionStart(lines, i))
  {
    hide *;
    if i == 0 {
      NothingTraced(lines);
    } else {
      var (closed, origins, start) := (Closed(lines, i - 1), Origins(lines, i - 1), SectionStart(lines, i - 1));
      ClosedTraced(lines, i - 1);
      ClosedStep(lines, i - 1);
      if IsHeading(lines[i - 1]) {
        OneMoreSection(lines, closed, origins, start, i - 1);
        TracedLater(lines, Closed(lines, i), Origins(lines, i), start + 1, i);
      }
    }
  }

  lemma ClosedStep(lines: seq<string>, i: nat)
    requires i < |lines|
    ensures IsHeading(lines[i]) ==> Closed(lines, i + 1) == Closed(lines, i) + SectionPieces(lines, i)
    ensures IsHeading(lines[i]) ==> Origins(lines, i + 1) == Origins(lines, i) + OneOrigin(lines, i)
    ensures IsHeading(lines[i]) ==> SectionStart(lines, i + 1) == i + 1
    ensures !IsHeading(lines[i]) ==>
      Closed(lines, i + 1) == Closed(lines, i) && Origins(lines, i + 1) == Origins(lines, i)
      && SectionStart(lines, i + 1) == SectionStart(lines, i)
  {
    hide IsHeading, SectionPieces, OneOrigin;
    assert Origins(lines, i) + [] == Origins(lines, i);
  }

  lemma NothingTraced(lines: seq<string>)
    ensures Traced(lines, Closed(lines, 0), Origins(lines, 0), SectionStart(lines, 0))
  {
  }

  /** Each chunk comes from one section, sections in document order and one chunk to a
      section unless its text has more than 120 lines; and its heading path lists exactly
      the titles of the headings that cover the section's first line. */
  lemma ChunksKnowTheirHeadings(text: string, chunks: seq<DocChunk>) returns (origins: seq<nat>)
    requires Numbers(chunks, Produced(text))
    ensures |origins| == |chunks|
    ensures forall a, b :: 0 <= a < b < |origins| ==>
      origins[a] < origins[b] || (origins[a] == origins[b] && Long(SplitLines(text), origins[a]))
    ensures forall c :: 0 <= c < |chunks| ==>
      ComesFrom(SplitLines(text), origins[c], Piece(chunks[c].content, chunks[c].headingPath))
  {
    hide ComesFrom, DocumentPieces, SplitLines, Strip, Long;
    var (lines, pieces) := (SplitLines(text), Produced(text));
    if Strip(text) == "" {
      return [];
    }
    origins := DocumentTraced(text);
    forall c | 0 <= c < |chunks|
      ensures ComesFrom(lines, origins[c], Piece(chunks[c].content, chunks[c].headingPath))
    {
      assert pieces[c] == Piece(chunks[c].content, chunks[c].headingPath);
    }
  }

  lemma LinesAreUnbroken(text: string)
    ensures AllUnbroken(SplitLines(text))
  {
    SplitLinesUnbroken(text);
  }

  lemma DocumentIs(lines: seq<string>)
    ensures DocumentPieces(lines) == Closed(lines, |lines|) + SectionPieces(lines, |lines|)
  {
  }

  lemma DocumentTraced(text: string) returns (origins: seq<nat>)
    ensures Traced(SplitLines(text), DocumentPieces(SplitLines(text)), origins, |SplitLines(text)| + 1)
  {
    hide *;
    var lines := SplitLines(text);
    DocumentIs(lines);
    var start := SectionStart(lines, |lines|);
    LinesAreUnbroken(text);
    ClosedTraced(lines, |lines|);
    OneMoreSection(lines, Closed(lines, |lines|), Origins(lines, |lines|), start, |lines|);
    origins := Origins(lines, |lines|) + OneOrigin(lines, |lines|);
    TracedLater(lines, DocumentPieces(lines), origins, start + 1, |lines| + 1);
  }

  /** So the path is empty exactly before the first heading, and otherwise ends with the
      title of the heading right above the section. */
  lemma PathEndsAtTheHeading(lines: seq<string>, s: nat, p: Piece)
    requires ComesFrom(lines, s, p)
    ensures p.path == [] <==> s == 0
    ensures p.path == [] <==> forall k :: 0 <= k < s ==> !IsHeading(lines[k])
    ensures s > 0 ==> p.path != [] && Titled(lines, s - 1, p.path[|p.path| - 1])
  {
    hide MatchHeading, LevelOf, PartOf, IsHeading;
    var e: nat :| Section(lines, s, e) && PartOf(lines[s..e], p.content);
    var ks :| CoveredBy(lines, s, ks) && PathAlong(lines, ks, p.path);
    assert ks != [] ==> ks[0] in ks;
    if s > 0 {
      LastIsTheHeading(lines, s, ks);
    }
  }

  lemma LastIsTheHeading(lines: seq<string>, s: nat, ks: seq<nat>)
    requires 0 < s <= |lines| && CoveredBy(lines, s, ks) && IsHeading(lines[s - 1])
    ensures ks != [] && ks[|ks| - 1] == s - 1
  {
    hide IsHeading, LevelOf;
    assert Covers(lines, s - 1, s);
    var j :| 0 <= j < |ks| && ks[j] == s - 1;
    assert ks[|ks| - 1] in ks;
  }
}
