/** The CCR marker `[compressed: <hash> | N→M chars | retrieve via mnemos_retrieve]`:
    its pattern, its printer and its parser. */
module Marker {
  import opened Text

  // ----- The pattern language the marker needs -----

  /** `digits` gives the value of every decimal digit outside ASCII: `\d` and `int`
      take them too. */
  ghost predicate DigitTable(digits: map<char, nat>) {
    forall c :: c in digits ==> c > '\U{7F}' && c != ARROW && !IsSpace(c) && digits[c] < 10
  }

  const ARROW: char := '\U{2192}'

  datatype Class = Space | Hex | Digits

  predicate In(digits: map<char, nat>, class_: Class, c: char) {
    match class_
    case Space => IsSpace(c)
    case Hex => IsHexDigit(c)
    case Digits => IsDigit(c) || c in digits
  }

  predicate IsHexDigit(c: char) { IsDigit(c) || 'a' <= c <= 'f' }

  predicate AllIn(digits: map<char, nat>, class_: Class, s: string) {
    forall i :: 0 <= i < |s| ==> In(digits, class_, s[i])
  }

  /** Literal words and runs of a class, in sequence; a run has at least `least`
      characters, exactly as many if `exact`. */
  datatype Pattern =
    | End
    | Word(text: string, rest: Pattern)
    | Run(class_: Class, least: nat, exact: bool, rest: Pattern)

  predicate RightLength(part: string, least: nat, exact: bool) {
    if exact then |part| == least else |part| >= least
  }

  /** What it means for `parts` to be one match, part by part. */
  predicate Fits(digits: map<char, nat>, p: Pattern, parts: seq<string>) {
    match p
    case End => parts == []
    case Word(text, rest) => parts != [] && parts[0] == text && Fits(digits, rest, parts[1..])
    case Run(class_, least, exact, rest) =>
      parts != [] && AllIn(digits, class_, parts[0]) && RightLength(parts[0], least, exact)
      && Fits(digits, rest, parts[1..])
  }

  function Concat(parts: seq<string>): string {
    if parts == [] then "" else parts[0] + Concat(parts[1..])
  }

  function RunLength(digits: map<char, nat>, class_: Class, s: string): (n: nat)
    ensures n <= |s|
  {
    if s == "" || !In(digits, class_, s[0]) then 0 else 1 + RunLength(digits, class_, s[1..])
  }

  function Size(p: Pattern): nat {
    if p.End? then 0 else 1 + Size(p.rest)
  }

  /** The scanner: runs are taken greedily and never given back. */
  function Scan(digits: map<char, nat>, p: Pattern, s: string): (parts: Option<seq<string>>)
    ensures parts.Some? ==> |parts.value| == Size(p)
  {
    match p
    case End => Some([])
    case Word(text, rest) =>
      if text <= s then
        var parts :- Scan(digits, rest, s[|text|..]);
        Some([text] + parts)
      else None
    case Run(class_, least, exact, rest) =>
      var n := RunLength(digits, class_, s);
      if RightLength(s[..n], least, exact) then
        var parts :- Scan(digits, rest, s[n..]);
        Some([s[..n]] + parts)
      else None
  }

  // ----- The scanner finds exactly the matches -----

  predicate Starts(digits: map<char, nat>, p: Pattern, c: char) {
    match p
    case End => false
    case Word(text, _) => text != "" && text[0] == c
    case Run(class_, least, _, rest) => In(digits, class_, c) || (least == 0 && Starts(digits, rest, c))
  }

  /** No run can run into what follows it, and the last item is a word. */
  ghost predicate Separated(digits: map<char, nat>, p: Pattern) {
    match p
    case End => true
    case Word(text, rest) => text != "" && Separated(digits, rest)
    case Run(class_, _, _, rest) =>
      rest != End && Separated(digits, rest) && forall c :: In(digits, class_, c) ==> !Starts(digits, rest, c)
  }

  lemma {:induction false} StartOfMatch(digits: map<char, nat>, p: Pattern, parts: seq<string>)
    requires Separated(digits, p) && Fits(digits, p, parts) && p != End
    ensures Concat(parts) != "" && Starts(digits, p, Concat(parts)[0])
  {
    if p.Run? {
      StartOfMatch(digits, p.rest, parts[1..]);
    }
  }

  lemma {:induction false} RunLengthIs(digits: map<char, nat>, class_: Class, part: string, s: string)
    requires AllIn(digits, class_, part) && (s == "" || !In(digits, class_, s[0]))
    ensures RunLength(digits, class_, part + s) == |part|
  {
    if part == "" {
      assert part + s == s;
    } else {
      assert (part + s)[1..] == part[1..] + s;
      RunLengthIs(digits, class_, part[1..], s);
    }
  }

  lemma {:induction false} RunIsInClass(digits: map<char, nat>, class_: Class, s: string)
    ensures AllIn(digits, class_, s[..RunLength(digits, class_, s)])
  {
    if s != "" && In(digits, class_, s[0]) {
      RunIsInClass(digits, class_, s[1..]);
      var n := RunLength(digits, class_, s);
      assert forall i :: 1 <= i < n ==> s[..n][i] == s[1..][..n - 1][i - 1];
    }
  }

  lemma {:induction false} ScanSound(digits: map<char, nat>, p: Pattern, s: string)
    requires Scan(digits, p, s).Some?
    ensures var parts := Scan(digits, p, s).value; Fits(digits, p, parts) && Concat(parts) <= s
  {
    if p != End {
      var n := if p.Word? then |p.text| else RunLength(digits, p.class_, s);
      if p.Run? {
        RunIsInClass(digits, p.class_, s);
      }
      ScanSound(digits, p.rest, s[n..]);
      ConcatPrefix(s, n, Scan(digits, p.rest, s[n..]).value);
    }
  }

  lemma ConcatPrefix(s: string, n: nat, rest: seq<string>)
    requires n <= |s| && Concat(rest) <= s[n..]
    ensures ([s[..n]] + rest)[1..] == rest && Concat([s[..n]] + rest) <= s
  {
    assert ([s[..n]] + rest)[1..] == rest;
    assert s == s[..n] + s[n..];
  }

  lemma Cut(a: string, b: string, c: string)
    ensures a + b + c == a + (b + c)
    ensures a <= a + (b + c) && (a + (b + c))[|a|..] == b + c && (a + (b + c))[..|a|] == a
  {
  }

  lemma FirstPart(parts: seq<string>, after: string)
    requires parts != []
    ensures
      var (s, tail, n) := (Concat(parts) + after, Concat(parts[1..]) + after, |parts[0]|);
      s == parts[0] + tail && parts[0] <= s && s[n..] == tail && s[..n] == parts[0]
    ensures [parts[0]] + parts[1..] == parts
  {
    assert Concat(parts) == parts[0] + Concat(parts[1..]);
    hide Concat;
    Cut(parts[0], Concat(parts[1..]), after);
  }

  lemma {:induction false} ScanComplete(digits: map<char, nat>, p: Pattern, parts: seq<string>, after: string)
    requires Separated(digits, p) && Fits(digits, p, parts)
    ensures Scan(digits, p, Concat(parts) + after) == Some(parts)
  {
    if p != End {
      var tail := Concat(parts[1..]) + after;
      FirstPart(parts, after);
      ScanComplete(digits, p.rest, parts[1..], after);
      if p.Run? {
        StartOfMatch(digits, p.rest, parts[1..]);
        assert tail[0] == Concat(parts[1..])[0];
        RunLengthIs(digits, p.class_, parts[0], tail);
      }
    }
  }

  /** Greedy scanning finds precisely the declarative matches, so there is at most one. */
  lemma ScanExactly(digits: map<char, nat>, p: Pattern, s: string, parts: seq<string>)
    requires Separated(digits, p)
    ensures Scan(digits, p, s) == Some(parts) <==> Fits(digits, p, parts) && Concat(parts) <= s
  {
    if Fits(digits, p, parts) && Concat(parts) <= s {
      assert s == Concat(parts) + s[|Concat(parts)|..];
      ScanComplete(digits, p, parts, s[|Concat(parts)|..]);
    }
    if Scan(digits, p, s).Some? {
      ScanSound(digits, p, s);
    }
  }

  // ----- The marker -----

  function Spaces(rest: Pattern): Pattern { Run(Space, 0, false, rest) }

  function Number(rest: Pattern): Pattern { Run(Digits, 1, false, rest) }

  function AfterHash(): Pattern {
    Spaces(Word("|", Spaces(Number(Word([ARROW], Number(Spaces(Word("chars", Closing()))))))))
  }

  function Closing(): Pattern {
    Spaces(Word("|", Spaces(Word(RETRIEVE, End))))
  }

  const RETRIEVE: string := "retrieve via mnemos_retrieve]"

  /** `CCR_MARKER_RE` */
  function MarkerPattern(): Pattern {
    Word("[compressed:", Spaces(Run(Hex, 64, true, AfterHash())))
  }

  /** The marker starting at `i`, if there is one. */
  function MatchAt(digits: map<char, nat>, text: string, i: nat): (parts: Option<seq<string>>)
    requires i <= |text|
    ensures parts.Some? ==> |parts.value| == 15
  {
    assert Size(Closing()) == 4 && Size(AfterHash()) == 12;
    Scan(digits, MarkerPattern(), text[i..])
  }

  predicate IsHash(h: string) {
    |h| == 64 && forall i :: 0 <= i < |h| ==> IsHexDigit(h[i])
  }

  /** `build_marker` */
  function BuildMarker(h: string, originalChars: nat, compressedChars: nat): string {
    "[compressed: " + h + " | " + Decimal(originalChars) + [ARROW] + Decimal(compressedChars)
    + " chars | " + RETRIEVE
  }

  function DigitValue(digits: map<char, nat>, c: char): nat {
    if IsDigit(c) then c as int - '0' as int else if c in digits then digits[c] else 0
  }

  /** `int` of a run of decimal digits. */
  function NumberValue(digits: map<char, nat>, s: string): nat {
    if s == "" then 0 else 10 * NumberValue(digits, s[..|s| - 1]) + DigitValue(digits, s[|s| - 1])
  }

  datatype Found = Found(hash: string, originalChars: nat, compressedChars: nat, start: nat, end: nat)

  function Reading(digits: map<char, nat>, parts: seq<string>, start: nat): Found
    requires |parts| == 15
  {
    Found(parts[2], NumberValue(digits, parts[6]), NumberValue(digits, parts[8]), start, start + |Concat(parts)|)
  }

  /** `parse_marker`: the first marker at or after `i`. */
  function ParseFrom(digits: map<char, nat>, text: string, i: nat): Option<Found>
    requires i <= |text|
    decreases |text| - i
  {
    var parts := MatchAt(digits, text, i);
    if parts.Some? then Some(Reading(digits, parts.value, i))
    else if i == |text| then None
    else ParseFrom(digits, text, i + 1)
  }

  function ParseMarker(digits: map<char, nat>, text: string): Option<Found> {
    ParseFrom(digits, text, 0)
  }

  /** `finditer`: markers from left to right, each search starting where the last
      match ended. */
  function FindAll(digits: map<char, nat>, text: string, i: nat): (spans: seq<(nat, nat)>)
    requires i <= |text|
    ensures forall k :: 0 <= k < |spans| ==> i <= spans[k].0 < spans[k].1 <= |text|
    decreases |text| - i
  {
    if i == |text| then []
    else
      var parts := MatchAt(digits, text, i);
      var j := if parts.Some? then i + |Concat(parts.value)| else i;
      if i < j <= |text| then [(i, j)] + FindAll(digits, text, j) else FindAll(digits, text, i + 1)
  }

  lemma MarkerSeparated(digits: map<char, nat>)
    requires DigitTable(digits)
    ensures Separated(digits, MarkerPattern())
  {
    var closing := Word(RETRIEVE, End);
    assert closing.text[0] == 'r';
    assert Separated(digits, closing);
    assert Separated(digits, Spaces(closing));
    assert Separated(digits, Word("|", Spaces(closing)));
    assert Separated(digits, Closing());
    var chars := Word("chars", Closing());
    assert chars.text[0] == 'c';
    assert Separated(digits, chars);
    assert Separated(digits, Spaces(chars));
    assert forall c :: In(digits, Digits, c) ==> !Starts(digits, Spaces(chars), c);
    assert Separated(digits, Number(Spaces(chars)));
    var sizes := Word([ARROW], Number(Spaces(chars)));
    assert Separated(digits, sizes);
    assert Separated(digits, Number(sizes));
    assert Separated(digits, Spaces(Number(sizes)));
    assert Separated(digits, Word("|", Spaces(Number(sizes))));
    assert Separated(digits, AfterHash());
    assert forall c :: In(digits, Hex, c) ==> !Starts(digits, AfterHash(), c);
    assert Separated(digits, Run(Hex, 64, true, AfterHash()));
    assert Separated(digits, Spaces(Run(Hex, 64, true, AfterHash())));
  }

  // ----- Where the markers of a text are -----

  /** `[` occurs in a marker only as its first character. */
  ghost predicate BracketFree(digits: map<char, nat>, p: Pattern) {
    match p
    case End => true
    case Word(text, rest) => Free(text, '[') && BracketFree(digits, rest)
    case Run(class_, _, _, rest) => !In(digits, class_, '[') && BracketFree(digits, rest)
  }

  lemma {:induction false} MatchIsBracketFree(digits: map<char, nat>, p: Pattern, parts: seq<string>)
    requires BracketFree(digits, p) && Fits(digits, p, parts)
    ensures Free(Concat(parts), '[')
  {
    if p != End {
      MatchIsBracketFree(digits, p.rest, parts[1..]);
      var (head, tail) := (parts[0], Concat(parts[1..]));
      forall i | 0 <= i < |head + tail|
        ensures (head + tail)[i] != '['
      {
        if i < |head| {
          assert head[i] != '[';
        } else {
          assert tail[i - |head|] != '[';
        }
      }
    }
  }

  lemma MarkerBrackets(digits: map<char, nat>)
    requires DigitTable(digits)
    ensures BracketFree(digits, MarkerPattern().rest)
  {
    assert Free(RETRIEVE, '[') && Free("chars", '[') && Free("|", '[') && Free([ARROW], '[');
    hide Free;
    var end := Word(RETRIEVE, End);
    assert BracketFree(digits, end);
    assert BracketFree(digits, Spaces(end));
    assert BracketFree(digits, Word("|", Spaces(end)));
    assert BracketFree(digits, Closing());
    var chars := Word("chars", Closing());
    assert BracketFree(digits, Spaces(chars));
    var sizes := Word([ARROW], Number(Spaces(chars)));
    assert BracketFree(digits, sizes);
    assert BracketFree(digits, Spaces(Number(sizes)));
    assert BracketFree(digits, Word("|", Spaces(Number(sizes))));
    assert BracketFree(digits, AfterHash());
  }

  ghost predicate IsMarker(digits: map<char, nat>, m: string) {
    exists parts :: Fits(digits, MarkerPattern(), parts) && Concat(parts) == m
  }

  /** The text from `i` to `j` is a marker. */
  ghost predicate MarkerIn(digits: map<char, nat>, text: string, i: nat, j: nat) {
    i <= j <= |text| && IsMarker(digits, text[i..j])
  }

  lemma MarkerShape(digits: map<char, nat>, m: string)
    requires DigitTable(digits) && IsMarker(digits, m)
    ensures m != "" && m[0] == '[' && Free(m[1..], '[')
  {
    var parts :| Fits(digits, MarkerPattern(), parts) && Concat(parts) == m;
    MarkerBrackets(digits);
    MatchIsBracketFree(digits, MarkerPattern().rest, parts[1..]);
    var (head, tail) := ("[compressed:", Concat(parts[1..]));
    assert m == head + tail;
    forall k | 0 <= k < |m[1..]|
      ensures m[1..][k] != '['
    {
      assert k + 1 >= |head| ==> m[1..][k] == tail[k + 1 - |head|];
    }
  }

  /** Scanning at `i` succeeds exactly when a marker starts there, and finds its end. */
  lemma MatchAtExactly(digits: map<char, nat>, text: string, i: nat, j: nat)
    requires DigitTable(digits) && i <= |text|
    ensures MarkerIn(digits, text, i, j)
      <==> MatchAt(digits, text, i).Some? && j == i + |Concat(MatchAt(digits, text, i).value)|
  {
    MarkerSeparated(digits);
    var found := MatchAt(digits, text, i);
    if found.Some? {
      ScanExactly(digits, MarkerPattern(), text[i..], found.value);
      var k := i + |Concat(found.value)|;
      assert text[i..k] == text[i..][..k - i] == Concat(found.value);
    }
    if MarkerIn(digits, text, i, j) {
      var parts :| Fits(digits, MarkerPattern(), parts) && Concat(parts) == text[i..j];
      assert text[i..][..j - i] == text[i..j];
      ScanExactly(digits, MarkerPattern(), text[i..], parts);
    }
  }

  /** Two markers of a text are one, or the later starts where the earlier has ended. */
  lemma MarkersApart(digits: map<char, nat>, text: string, i: nat, j: nat, k: nat, l: nat)
    requires DigitTable(digits) && MarkerIn(digits, text, i, j) && MarkerIn(digits, text, k, l) && i <= k
    ensures (i == k && j == l) || j <= k
  {
    hide IsMarker, Scan, MarkerPattern, MatchAt, Concat;
    MarkerShape(digits, text[i..j]);
    MarkerShape(digits, text[k..l]);
    assert text[k..l][0] == text[k];
    assert forall x :: i < x < j ==> text[x] == text[i..j][1..][x - i - 1];
    if i == k {
      MatchAtExactly(digits, text, i, j);
      MatchAtExactly(digits, text, i, l);
    }
  }

  /** `finditer` misses no marker and reports nothing else: markers never overlap. */
  lemma {:induction false} FindAllExactly(digits: map<char, nat>, text: string, from: nat, i: nat, j: nat)
    requires DigitTable(digits) && from <= |text|
    ensures (i, j) in FindAll(digits, text, from) <==> from <= i && MarkerIn(digits, text, i, j)
    decreases |text| - from
  {
    hide IsMarker, Scan, MarkerPattern, MatchAt;
    if MarkerIn(digits, text, i, j) {
      MarkerShape(digits, text[i..j]);
    }
    if from < |text| {
      var found := MatchAt(digits, text, from);
      var end := if found.Some? then from + |Concat(found.value)| else from;
      MatchAtExactly(digits, text, from, end);
      if found.Some? {
        MarkerShape(digits, text[from..end]);
        FindAllExactly(digits, text, end, i, j);
        if from <= i && MarkerIn(digits, text, i, j) {
          MarkersApart(digits, text, from, end, i, j);
        }
      } else {
        MatchAtExactly(digits, text, from, j);
        FindAllExactly(digits, text, from + 1, i, j);
      }
    }
  }

  /** `parse_marker` reads the first of them. */
  lemma {:induction false} ParseReadsTheFirst(digits: map<char, nat>, text: string, from: nat)
    requires DigitTable(digits) && from <= |text|
    ensures
      var (spans, parsed) := (FindAll(digits, text, from), ParseFrom(digits, text, from));
      if spans == [] then parsed.None? else parsed.Some? && (parsed.value.start, parsed.value.end) == spans[0]
    decreases |text| - from
  {
    hide IsMarker, Scan, MarkerPattern;
    var found := MatchAt(digits, text, from);
    var end := if found.Some? then from + |Concat(found.value)| else from;
    MatchAtExactly(digits, text, from, end);
    if found.Some? {
      MarkerShape(digits, text[from..end]);
    } else if from < |text| {
      ParseReadsTheFirst(digits, text, from + 1);
    }
  }

  // ----- Building and parsing -----

  lemma WordFirst(digits: map<char, nat>, text: string, rest: Pattern, parts: seq<string>)
    requires Fits(digits, rest, parts)
    ensures Fits(digits, Word(text, rest), [text] + parts) && Concat([text] + parts) == text + Concat(parts)
  {
    assert ([text] + parts)[1..] == parts;
  }

  lemma RunFirst(digits: map<char, nat>, p: Pattern, part: string, parts: seq<string>)
    requires p.Run? && AllIn(digits, p.class_, part) && RightLength(part, p.least, p.exact) && Fits(digits, p.rest, parts)
    ensures Fits(digits, p, [part] + parts) && Concat([part] + parts) == part + Concat(parts)
  {
    assert ([part] + parts)[1..] == parts;
  }

  lemma SpaceFirst(digits: map<char, nat>, rest: Pattern, parts: seq<string>)
    requires Fits(digits, rest, parts)
    ensures Fits(digits, Spaces(rest), [" "] + parts) && Concat([" "] + parts) == " " + Concat(parts)
  {
    RunFirst(digits, Spaces(rest), " ", parts);
  }

  // ----- A marker spelled out -----

  /** The text of a marker with this hash and these sizes, and six gaps between its words. */
  function Spelling(h: string, x: string, y: string, g: seq<string>): string
    requires |g| == 6
  {
    "[compressed:" + (g[0] + (h + (g[1] + ("|" + (g[2] + SizesSpelled(x, y, g[3], g[4], g[5]))))))
  }

  function SizesSpelled(x: string, y: string, g3: string, g4: string, g5: string): string {
    x + ("→" + (y + (g3 + ("chars" + (g4 + ("|" + (g5 + "retrieve via mnemos_retrieve]")))))))
  }

  /** 64 lower-case hexadecimal digits, two runs of decimal digits, gaps of whitespace. */
  ghost predicate SpelledBy(digits: map<char, nat>, m: string, h: string, x: string, y: string, g: seq<string>) {
    && |g| == 6 && (forall k :: 0 <= k < 6 ==> AllSpace(g[k]))
    && |h| == 64 && (forall k :: 0 <= k < 64 ==> '0' <= h[k] <= '9' || 'a' <= h[k] <= 'f')
    && IsNumber(digits, x) && IsNumber(digits, y) && m == Spelling(h, x, y, g)
  }

  predicate IsNumber(digits: map<char, nat>, x: string) {
    x != "" && forall k :: 0 <= k < |x| ==> '0' <= x[k] <= '9' || x[k] in digits
  }

  lemma Peeled(digits: map<char, nat>, p: Pattern, parts: seq<string>)
    requires p != End && Fits(digits, p, parts)
    ensures parts != [] && Fits(digits, p.rest, parts[1..]) && Concat(parts) == parts[0] + Concat(parts[1..])
    ensures p.Word? ==> parts[0] == p.text
    ensures p.Run? ==> AllIn(digits, p.class_, parts[0]) && RightLength(parts[0], p.least, p.exact)
  {
  }

  lemma ClosingSpelled(digits: map<char, nat>, parts: seq<string>) returns (g4: string, g5: string)
    requires Fits(digits, Closing(), parts)
    ensures AllIn(digits, Space, g4) && AllIn(digits, Space, g5)
    ensures Concat(parts) == g4 + ("|" + (g5 + "retrieve via mnemos_retrieve]"))
  {
    hide Fits, Concat;
    var (end, bar) := (Word(RETRIEVE, End), Word("|", Spaces(Word(RETRIEVE, End))));
    Peeled(digits, Closing(), parts);
    Peeled(digits, bar, parts[1..]);
    Peeled(digits, Spaces(end), parts[1..][1..]);
    Peeled(digits, end, parts[1..][1..][1..]);
    NothingLeft(digits, parts[1..][1..][1..][1..]);
    g4, g5 := parts[0], parts[1..][1..][0];
    assert RETRIEVE + "" == RETRIEVE;
  }

  lemma NothingLeft(digits: map<char, nat>, parts: seq<string>)
    requires Fits(digits, End, parts)
    ensures Concat(parts) == ""
  {
  }

  lemma SizesAreSpelled(digits: map<char, nat>, parts: seq<string>)
      returns (x: string, y: string, g3: string, g4: string, g5: string)
    requires Fits(digits, SizePattern(), parts)
    ensures AllIn(digits, Space, g3) && AllIn(digits, Space, g4) && AllIn(digits, Space, g5)
    ensures IsNumber(digits, x) && IsNumber(digits, y) && Concat(parts) == SizesSpelled(x, y, g3, g4, g5)
  {
    hide Fits, Concat, Closing;
    var chars := Word("chars", Closing());
    var second := Number(Spaces(chars));
    Peeled(digits, SizePattern(), parts);
    var p1 := parts[1..];
    Peeled(digits, Word([ARROW], second), p1);
    var p2 := p1[1..];
    Peeled(digits, second, p2);
    var p3 := p2[1..];
    Peeled(digits, Spaces(chars), p3);
    Peeled(digits, chars, p3[1..]);
    g4, g5 := ClosingSpelled(digits, p3[1..][1..]);
    x, y, g3 := parts[0], p2[0], p3[0];
  }

  lemma MarkerIsSpelled(digits: map<char, nat>, parts: seq<string>)
      returns (h: string, x: string, y: string, g: seq<string>)
    requires Fits(digits, MarkerPattern(), parts)
    ensures SpelledBy(digits, Concat(parts), h, x, y, g)
  {
    hide Fits, Concat, SizePattern, SizesSpelled;
    AfterHashIs();
    var bar := Word("|", Spaces(SizePattern()));
    var hash := Run(Hex, 64, true, AfterHash());
    Peeled(digits, MarkerPattern(), parts);
    var p1 := parts[1..];
    Peeled(digits, Spaces(hash), p1);
    var p2 := p1[1..];
    Peeled(digits, hash, p2);
    var p3 := p2[1..];
    Peeled(digits, AfterHash(), p3);
    var p4 := p3[1..];
    Peeled(digits, bar, p4);
    Peeled(digits, Spaces(SizePattern()), p4[1..]);
    var g3, g4, g5;
    x, y, g3, g4, g5 := SizesAreSpelled(digits, p4[1..][1..]);
    h, g := p2[0], [p1[0], p3[0], p4[1..][0], g3, g4, g5];
  }

  lemma ClosingFits(digits: map<char, nat>, g4: string, g5: string) returns (parts: seq<string>)
    requires AllIn(digits, Space, g4) && AllIn(digits, Space, g5)
    ensures Fits(digits, Closing(), parts) && Concat(parts) == g4 + ("|" + (g5 + "retrieve via mnemos_retrieve]"))
  {
    var end := Word(RETRIEVE, End);
    assert Fits(digits, End, []) && Concat([]) == "";
    hide Fits, Concat;
    WordFirst(digits, RETRIEVE, End, []);
    assert RETRIEVE + "" == RETRIEVE;
    RunFirst(digits, Spaces(end), g5, [RETRIEVE] + []);
    WordFirst(digits, "|", Spaces(end), [g5] + ([RETRIEVE] + []));
    parts := ["|"] + ([g5] + ([RETRIEVE] + []));
    RunFirst(digits, Closing(), g4, parts);
    parts := [g4] + parts;
  }

  lemma SizesFit(digits: map<char, nat>, x: string, y: string, g3: string, g4: string, g5: string)
      returns (parts: seq<string>)
    requires AllIn(digits, Space, g3) && AllIn(digits, Space, g4) && AllIn(digits, Space, g5)
    requires IsNumber(digits, x) && IsNumber(digits, y)
    ensures Fits(digits, SizePattern(), parts) && Concat(parts) == SizesSpelled(x, y, g3, g4, g5)
  {
    hide Fits, Concat, Closing;
    var chars := Word("chars", Closing());
    var second := Number(Spaces(chars));
    parts := ClosingFits(digits, g4, g5);
    WordFirst(digits, "chars", Closing(), parts);
    parts := ["chars"] + parts;
    RunFirst(digits, Spaces(chars), g3, parts);
    parts := [g3] + parts;
    RunFirst(digits, second, y, parts);
    parts := [y] + parts;
    WordFirst(digits, [ARROW], second, parts);
    parts := [[ARROW]] + parts;
    RunFirst(digits, SizePattern(), x, parts);
    parts := [x] + parts;
  }

  lemma SpellingFits(digits: map<char, nat>, m: string, h: string, x: string, y: string, g: seq<string>)
    requires SpelledBy(digits, m, h, x, y, g)
    ensures IsMarker(digits, m)
  {
    hide Fits, Concat, SizePattern, SizesSpelled;
    AfterHashIs();
    var hash := Run(Hex, 64, true, AfterHash());
    var bar := Word("|", Spaces(SizePattern()));
    var parts := SizesFit(digits, x, y, g[3], g[4], g[5]);
    RunFirst(digits, Spaces(SizePattern()), g[2], parts);
    parts := [g[2]] + parts;
    WordFirst(digits, "|", Spaces(SizePattern()), parts);
    parts := ["|"] + parts;
    RunFirst(digits, AfterHash(), g[1], parts);
    parts := [g[1]] + parts;
    RunFirst(digits, hash, h, parts);
    parts := [h] + parts;
    RunFirst(digits, Spaces(hash), g[0], parts);
    parts := [g[0]] + parts;
    WordFirst(digits, "[compressed:", Spaces(hash), parts);
  }

  /** What a marker is, in full: exactly the texts so spelled. */
  lemma MarkerExactly(digits: map<char, nat>, m: string)
    ensures IsMarker(digits, m) <==> exists h, x, y, g :: SpelledBy(digits, m, h, x, y, g)
  {
    hide SpelledBy, Fits, MarkerPattern, Concat;
    if IsMarker(digits, m) {
      var parts :| Fits(digits, MarkerPattern(), parts) && Concat(parts) == m;
      var h, x, y, g := MarkerIsSpelled(digits, parts);
    }
    if h, x, y, g :| SpelledBy(digits, m, h, x, y, g) {
      SpellingFits(digits, m, h, x, y, g);
    }
  }

  function ClosingParts(): seq<string> { [" "] + (["|"] + ([" "] + [RETRIEVE])) }

  function SizeParts(x: string, y: string): seq<string> {
    [x] + ([[ARROW]] + ([y] + ([" "] + (["chars"] + ClosingParts()))))
  }

  function BuiltParts(h: string, n: nat, m: nat): seq<string> {
    ["[compressed:"] + ([" "] + ([h] + ([" "] + (["|"] + ([" "] + SizeParts(Decimal(n), Decimal(m)))))))
  }

  lemma ClosingBuilt(digits: map<char, nat>)
    ensures Fits(digits, Closing(), ClosingParts()) && Concat(ClosingParts()) == " | " + RETRIEVE
  {
    assert Fits(digits, End, []) && Concat([]) == "";
    var end := Word(RETRIEVE, End);
    WordFirst(digits, RETRIEVE, End, []);
    assert [RETRIEVE] + [] == [RETRIEVE] && RETRIEVE + "" == RETRIEVE;
    hide Fits, Concat;
    SpaceFirst(digits, end, [RETRIEVE]);
    WordFirst(digits, "|", Spaces(end), [" "] + [RETRIEVE]);
    SpaceFirst(digits, Word("|", Spaces(end)), ["|"] + ([" "] + [RETRIEVE]));
    Spacing(RETRIEVE);
  }

  /** The single spaces a built marker has around its bars. */
  lemma Spacing(s: string)
    ensures " " + ("|" + (" " + s)) == " | " + s
    ensures " " + ("chars" + (" | " + s)) == " chars | " + s
    ensures "[compressed:" + (" " + s) == "[compressed: " + s
  {
  }

  lemma Appended(o: string, h: string, bar: string, x: string, arrow: string, y: string, chars: string, end: string)
    ensures o + (h + (bar + (x + (arrow + (y + (chars + end)))))) == o + h + bar + x + arrow + y + chars + end
  {
  }

  function SizePattern(): Pattern {
    Number(Word([ARROW], Number(Spaces(Word("chars", Closing())))))
  }

  lemma SizesBuilt(digits: map<char, nat>, x: string, y: string)
    requires x != "" && y != "" && AllIn(digits, Digits, x) && AllIn(digits, Digits, y)
    ensures Fits(digits, SizePattern(), SizeParts(x, y))
    ensures Concat(SizeParts(x, y)) == x + ([ARROW] + (y + (" chars | " + RETRIEVE)))
  {
    hide Closing, ClosingParts, Fits, Concat;
    ClosingBuilt(digits);
    var (closing, chars) := (ClosingParts(), Word("chars", Closing()));
    WordFirst(digits, "chars", Closing(), closing);
    SpaceFirst(digits, chars, ["chars"] + closing);
    Spacing(RETRIEVE);
    var spaced := [" "] + (["chars"] + closing);
    RunFirst(digits, Number(Spaces(chars)), y, spaced);
    WordFirst(digits, [ARROW], Number(Spaces(chars)), [y] + spaced);
    RunFirst(digits, SizePattern(), x, [[ARROW]] + ([y] + spaced));
  }

  lemma MarkerBuilt(digits: map<char, nat>, h: string, n: nat, m: nat)
    requires IsHash(h)
    ensures Fits(digits, MarkerPattern(), BuiltParts(h, n, m))
    ensures Concat(BuiltParts(h, n, m)) == BuildMarker(h, n, m)
  {
    hide Decimal, SizeParts, SizePattern, Fits, Concat;
    var (x, y) := (Decimal(n), Decimal(m));
    var parts := SizeParts(x, y);
    SizesBuilt(digits, x, y);
    SpaceFirst(digits, SizePattern(), parts);
    WordFirst(digits, "|", Spaces(SizePattern()), [" "] + parts);
    var bar := ["|"] + ([" "] + parts);
    SpaceFirst(digits, Word("|", Spaces(SizePattern())), bar);
    Spacing(Concat(parts));
    AfterHashIs();
    RunFirst(digits, Run(Hex, 64, true, AfterHash()), h, [" "] + bar);
    SpaceFirst(digits, Run(Hex, 64, true, AfterHash()), [h] + ([" "] + bar));
    WordFirst(digits, "[compressed:", MarkerPattern().rest, [" "] + ([h] + ([" "] + bar)));
    Spacing(h + (" | " + Concat(parts)));
    Appended("[compressed: ", h, " | ", x, [ARROW], y, " chars | ", RETRIEVE);
  }

  lemma AfterHashIs()
    ensures AfterHash() == Spaces(Word("|", Spaces(SizePattern())))
  {
  }

  lemma {:induction false} NumberOfDecimal(digits: map<char, nat>, n: nat)
    ensures NumberValue(digits, Decimal(n)) == n
  {
    var s := Decimal(n);
    if n >= 10 {
      NumberOfDecimal(digits, n / 10);
      assert s[..|s| - 1] == Decimal(n / 10);
    } else {
      assert s[..0] == "";
    }
  }

  lemma BuiltPartsAre(h: string, n: nat, m: nat)
    ensures
      var parts := BuiltParts(h, n, m);
      |parts| == 15 && parts[2] == h && parts[6] == Decimal(n) && parts[8] == Decimal(m)
  {
    hide Decimal;
  }

  lemma MatchesIn(digits: map<char, nat>, a: string, parts: seq<string>, b: string)
    requires DigitTable(digits) && Fits(digits, MarkerPattern(), parts)
    ensures
      var text := a + Concat(parts) + b;
      && MarkerIn(digits, text, |a|, |a| + |Concat(parts)|) && MatchAt(digits, text, |a|) == Some(parts)
  {
    hide MarkerPattern, Scan, Fits, Concat;
    var text := a + Concat(parts) + b;
    MarkerSeparated(digits);
    ScanComplete(digits, MarkerPattern(), parts, b);
    assert text[|a|..] == Concat(parts) + b;
    assert text[|a|..|a| + |Concat(parts)|] == Concat(parts);
  }

  /** A built marker is a marker wherever it stands, and reading it there gives back
      what it was built from. */
  lemma BuiltIsRead(digits: map<char, nat>, a: string, h: string, n: nat, m: nat, b: string)
    requires DigitTable(digits) && IsHash(h)
    ensures
      var (built, text) := (BuildMarker(h, n, m), a + BuildMarker(h, n, m) + b);
      && MarkerIn(digits, text, |a|, |a| + |built|)
      && ParseFrom(digits, text, |a|) == Some(Found(h, n, m, |a|, |a| + |built|))
  {
    hide *;
    MarkerBuilt(digits, h, n, m);
    MatchesIn(digits, a, BuiltParts(h, n, m), b);
    ReadHere(digits, a + BuildMarker(h, n, m) + b, |a|);
    ReadingOfBuilt(digits, h, n, m, |a|);
  }

  lemma ReadHere(digits: map<char, nat>, text: string, i: nat)
    requires i <= |text| && MatchAt(digits, text, i).Some?
    ensures ParseFrom(digits, text, i) == Some(Reading(digits, MatchAt(digits, text, i).value, i))
  {
  }

  lemma ReadingOfBuilt(digits: map<char, nat>, h: string, n: nat, m: nat, i: nat)
    requires IsHash(h)
    ensures |BuiltParts(h, n, m)| == 15
    ensures Reading(digits, BuiltParts(h, n, m), i) == Found(h, n, m, i, i + |BuildMarker(h, n, m)|)
  {
    hide Decimal, BuildMarker, BuiltParts, Fits, Concat, NumberValue;
    MarkerBuilt(digits, h, n, m);
    BuiltPartsAre(h, n, m);
    NumberOfDecimal(digits, n);
    NumberOfDecimal(digits, m);
  }

  lemma MarkersOfAPrefix(digits: map<char, nat>, a: string, b: string, i: nat, j: nat)
    requires DigitTable(digits) && i <= |a|
    requires b != "" && b[0] == '['
    ensures MarkerIn(digits, a + b, i, j) && i < |a| <==> MarkerIn(digits, a, i, j)
  {
    hide IsMarker;
    if MarkerIn(digits, a + b, i, j) {
      MarkerShape(digits, (a + b)[i..j]);
      assert forall x :: i < x < j ==> (a + b)[x] == (a + b)[i..j][1..][x - i - 1];
      assert (a + b)[|a|] == '[';
    }
    if MarkerIn(digits, a, i, j) {
      MarkerShape(digits, a[i..j]);
    }
    assert j <= |a| && i <= j ==> (a + b)[i..j] == a[i..j];
  }

  /** `parse_marker` of a text with a built marker returns exactly what it was built
      from unless the text before it already holds a marker. */
  lemma ParseOfBuilt(digits: map<char, nat>, a: string, h: string, n: nat, m: nat, b: string)
    requires DigitTable(digits) && IsHash(h)
    ensures
      var built := BuildMarker(h, n, m);
      ParseMarker(digits, a + built + b) == Some(Found(h, n, m, |a|, |a| + |built|))
      <==> forall i, j :: !MarkerIn(digits, a, i, j)
  {
    hide IsMarker, Scan, MarkerPattern, BuildMarker;
    var (built, text) := (BuildMarker(h, n, m), a + BuildMarker(h, n, m) + b);
    BuiltIsRead(digits, a, h, n, m, b);
    MarkerShape(digits, text[|a|..|a| + |built|]);
    assert text == a + (built + b) && text[|a|..|a| + |built|] == built;
    if i, j :| MarkerIn(digits, a, i, j) {
      MarkersOfAPrefix(digits, a, built + b, i, j);
      ParseReadsTheFirst(digits, text, 0);
      EarlierMarkerWins(digits, text, 0, i, j, |a|);
    } else {
      SkipTo(digits, text, 0, a, built + b);
    }
  }

  lemma {:induction false} EarlierMarkerWins(digits: map<char, nat>, text: string, from: nat, i: nat, j: nat, limit: nat)
    requires DigitTable(digits) && MarkerIn(digits, text, i, j) && from <= i < limit
    ensures ParseFrom(digits, text, from).Some? && ParseFrom(digits, text, from).value.start < limit
    decreases i - from
  {
    hide IsMarker, Scan, MarkerPattern;
    MatchAtExactly(digits, text, i, j);
    if MatchAt(digits, text, from).None? {
      EarlierMarkerWins(digits, text, from + 1, i, j, limit);
    }
  }

  lemma {:induction false} SkipTo(digits: map<char, nat>, text: string, from: nat, a: string, b: string)
    requires DigitTable(digits) && text == a + b && b != "" && b[0] == '[' && from <= |a|
    requires forall i, j :: !MarkerIn(digits, a, i, j)
    ensures ParseFrom(digits, text, from) == ParseFrom(digits, text, |a|)
    decreases |a| - from
  {
    hide IsMarker, Scan, MarkerPattern;
    if from < |a| {
      var found := MatchAt(digits, text, from);
      if found.Some? {
        var end := from + |Concat(found.value)|;
        MatchAtExactly(digits, text, from, end);
        MarkersOfAPrefix(digits, a, b, from, end);
        assert false;
      }
      SkipTo(digits, text, from + 1, a, b);
    }
  }
}
