/** What the cache aligner does to a CCR marker: it stays where it is, and reads as
    before. */
module MarkerSurvival {
  import opened Text
  import opened Marker
  import opened Aligner

  // ----- A region no span touches -----

  ghost predicate Clear(spans: seq<Span>, i: nat, j: nat) {
    forall k :: 0 <= k < |spans| ==> spans[k].end <= i || spans[k].start >= j
  }

  /** The region [i, j) of the text, no earlier than piece `k`. */
  ghost predicate Region(text: string, spans: seq<Span>, k: nat, i: nat, j: nat) {
    Within(text, spans) && k <= |spans| && From(spans, k) <= i < j <= |text| && Clear(spans, i, j)
  }

  ghost function Left(text: string, spans: seq<Span>, k: nat, i: nat, j: nat): string
    requires Region(text, spans, k, i, j)
    decreases |spans| - k
  {
    if k == |spans| || spans[k].start >= j then text[From(spans, k)..i]
    else Gap(text, spans, k) + " " + Left(text, spans, k + 1, i, j)
  }

  ghost function Right(text: string, spans: seq<Span>, k: nat, i: nat, j: nat): string
    requires Region(text, spans, k, i, j)
    decreases |spans| - k
  {
    if k == |spans| then text[j..]
    else if spans[k].start >= j then text[j..spans[k].start] + " " + Join(Gaps(text, spans, k + 1), " ")
    else Right(text, spans, k + 1, i, j)
  }

  /** The region lies whole in one static piece. */
  lemma {:induction false} JoinedAround(text: string, spans: seq<Span>, k: nat, i: nat, j: nat)
    requires Region(text, spans, k, i, j)
    ensures Join(Gaps(text, spans, k), " ") == Left(text, spans, k, i, j) + text[i..j] + Right(text, spans, k, i, j)
    decreases |spans| - k
  {
    hide Gaps, Join, Gap, Within;
    if k == |spans| {
      InLastPiece(text, spans, i, j);
    } else if spans[k].start >= j {
      InThisPiece(text, spans, k, i, j);
    } else {
      GapsStep(text, spans, k);
      JoinedAround(text, spans, k + 1, i, j);
      Regroup(Gap(text, spans, k) + " ", Left(text, spans, k + 1, i, j), text[i..j], Right(text, spans, k + 1, i, j));
    }
  }

  lemma InThisPiece(text: string, spans: seq<Span>, k: nat, i: nat, j: nat)
    requires Region(text, spans, k, i, j) && k < |spans| && spans[k].start >= j
    ensures Join(Gaps(text, spans, k), " ")
         == text[From(spans, k)..i] + text[i..j] + (text[j..spans[k].start] + " " + Join(Gaps(text, spans, k + 1), " "))
  {
    hide Gaps, Join;
    GapsStep(text, spans, k);
    InPiece(text, From(spans, k), i, j, spans[k].start);
    assert Gap(text, spans, k) == text[From(spans, k)..i] + text[i..j] + text[j..spans[k].start];
    Regroup(text[From(spans, k)..i] + text[i..j], text[j..spans[k].start], " ", Join(Gaps(text, spans, k + 1), " "));
  }

  lemma InPiece(text: string, from: nat, i: nat, j: nat, to: nat)
    requires from <= i <= j <= to <= |text|
    ensures text[from..to] == text[from..i] + text[i..j] + text[j..to]
  {
  }

  lemma InLastPiece(text: string, spans: seq<Span>, i: nat, j: nat)
    requires Region(text, spans, |spans|, i, j)
    ensures Join(Gaps(text, spans, |spans|), " ") == text[From(spans, |spans|)..i] + text[i..j] + text[j..]
  {
    assert Gaps(text, spans, |spans|) == [Gap(text, spans, |spans|)];
    InPiece(text, From(spans, |spans|), i, j, |text|);
  }

  // ----- Normalisation around a solid region -----

  predicate Solid(m: string) {
    m != "" && !IsSpace(m[0]) && !IsSpace(m[|m| - 1])
  }

  lemma RewriteAround(pass: Pass, x: string, m: string, y: string)
    requires Solid(m)
    ensures Rewrite(pass, x + m + y) == Rewrite(pass, x) + Rewrite(pass, m) + Rewrite(pass, y)
    ensures Solid(Rewrite(pass, m))
  {
    hide Rewrite;
    RewriteSplits(pass, x + m, y);
    RewriteSplits(pass, x, m);
    RewriteEnds(pass, m);
  }

  lemma SettleAround(x: string, m: string, y: string)
    requires Solid(m)
    ensures Settle(x + m + y) == Settle(x) + Settle(m) + Settle(y) && Solid(Settle(m))
  {
    hide Rewrite;
    RewriteAround(Collapse, x, m, y);
    RewriteAround(TrimLines, Rewrite(Collapse, x), Rewrite(Collapse, m), Rewrite(Collapse, y));
  }

  lemma {:induction false} RStripAfter(x: string, y: string)
    requires x != "" && !IsSpace(x[|x| - 1])
    ensures RStrip(x + y) == x + RStrip(y)
  {
    if y == "" {
      assert x + y == x;
    } else {
      assert (x + y)[|x + y| - 1] == y[|y| - 1];
      assert (x + y)[..|x + y| - 1] == x + y[..|y| - 1];
      RStripAfter(x, y[..|y| - 1]);
    }
  }

  lemma BodyAround(text: string, spans: seq<Span>, i: nat, j: nat)
    requires Region(text, spans, 0, i, j) && Solid(text[i..j])
    ensures Body(text, spans)
         == Settle(Left(text, spans, 0, i, j)) + Settle(text[i..j]) + RStrip(Settle(Right(text, spans, 0, i, j)))
    ensures Solid(Settle(text[i..j]))
  {
    hide Settle, RStrip, Gaps, Left, Right;
    var (x, m, y) := (Left(text, spans, 0, i, j), text[i..j], Right(text, spans, 0, i, j));
    JoinedAround(text, spans, 0, i, j);
    SettleAround(x, m, y);
    RStripAfter(Settle(x) + Settle(m), Settle(y));
  }

  // ----- Normalisation inside a marker -----

  /** A pattern the two passes cannot break: its words have no blanks to lose and
      solid ends, its space runs may be empty, its other runs may not. */
  ghost predicate Tame(p: Pattern) {
    match p
    case End => true
    case Word(text, rest) => Still(text) && Solid(text) && Tame(rest)
    case Run(Space, least, exact, rest) => least == 0 && !exact && Tame(rest)
    case Run(_, least, _, rest) => least >= 1 && Tame(rest)
  }

  function Each(pass: Pass, parts: seq<string>): (rewritten: seq<string>)
    ensures |rewritten| == |parts|
  {
    if parts == [] then [] else [Rewrite(pass, parts[0])] + Each(pass, parts[1..])
  }

  lemma {:induction false} RewriteOfSpace(pass: Pass, s: string)
    requires AllSpace(s)
    ensures AllSpace(Rewrite(pass, s))
    decreases |s|
  {
    if s != "" {
      RewriteOfSpace(pass, s[Step(s)..]);
      RewriteSteps(pass, s);
      BlankRunIs(s);
    }
  }

  lemma RunWithoutSpace(digits: map<char, nat>, class_: Class, s: string)
    requires DigitTable(digits) && class_ != Space && AllIn(digits, class_, s)
    ensures Still(s) && (forall i :: 0 <= i < |s| ==> !IsSpace(s[i])) && (s != "" ==> !AllSpace(s))
  {
    forall i | 0 <= i < |s|
      ensures !IsSpace(s[i])
    {
      assert In(digits, class_, s[i]);
    }
    assert s != "" ==> !IsSpace(s[0]);
  }

  /** One part under one pass, and the seam behind it. */
  lemma PartRewritten(digits: map<char, nat>, pass: Pass, p: Pattern, parts: seq<string>)
    requires DigitTable(digits) && Separated(digits, p) && Tame(p) && Fits(digits, p, parts) && p != End
    ensures Seam(parts[0], Concat(parts[1..]))
    ensures if p.Run? && p.class_ == Space then AllSpace(Rewrite(pass, parts[0])) && AllSpace(parts[0])
            else Rewrite(pass, parts[0]) == parts[0]
  {
    hide Rewrite;
    if p.Word? {
      StillIsKept(pass, parts[0]);
    } else if p.class_ == Space {
      assert AllSpace(parts[0]) by {
        assert forall i :: 0 <= i < |parts[0]| ==> In(digits, Space, parts[0][i]);
      }
      RewriteOfSpace(pass, parts[0]);
      StartOfMatch(digits, p.rest, parts[1..]);
      assert !In(digits, Space, Concat(parts[1..])[0]);
    } else {
      RunWithoutSpace(digits, p.class_, parts[0]);
      StillIsKept(pass, parts[0]);
    }
  }

  lemma {:induction false} PassKeepsTheMatch(digits: map<char, nat>, pass: Pass, p: Pattern, parts: seq<string>)
    requires DigitTable(digits) && Separated(digits, p) && Tame(p) && Fits(digits, p, parts)
    ensures Fits(digits, p, Each(pass, parts)) && Concat(Each(pass, parts)) == Rewrite(pass, Concat(parts))
    ensures forall k :: 0 <= k < |parts| && !AllSpace(parts[k]) ==> Each(pass, parts)[k] == parts[k]
  {
    if p != End {
      PassKeepsTheMatch(digits, pass, p.rest, parts[1..]);
      PartRewritten(digits, pass, p, parts);
      RewriteSplits(pass, parts[0], Concat(parts[1..]));
      assert Each(pass, parts)[1..] == Each(pass, parts[1..]);
      assert p.Run? && p.class_ == Space ==> AllIn(digits, Space, Rewrite(pass, parts[0]));
    }
  }

  lemma StillWords(a: string, b: string)
    requires Still(a) && Still(b) && Solid(a) && Solid(b)
    ensures Still(a + " " + b) && Solid(a + " " + b)
  {
    var s := a + " " + b;
    forall i | 0 <= i < |s| - 1 && Blank(s[i])
      ensures !Blank(s[i + 1]) && s[i + 1] != '\n'
    {
      if i < |a| {
        assert s[i] == a[i];
        assert i != |a| - 1;
        assert s[i + 1] == a[i + 1];
      } else if i == |a| {
        assert s[i + 1] == b[0];
      } else {
        assert s[i] == b[i - |a| - 1] && s[i + 1] == b[i - |a|];
      }
    }
  }

  lemma RetrieveIsTame()
    ensures Still(RETRIEVE) && Solid(RETRIEVE)
  {
    RetrieveIsWords();
    OneWord("retrieve");
    OneWord("via");
    OneWord("mnemos_retrieve]");
    hide *;
    StillWords("retrieve", "via");
    StillWords("retrieve" + " " + "via", "mnemos_retrieve]");
  }

  lemma RetrieveIsWords()
    ensures RETRIEVE == "retrieve" + " " + "via" + " " + "mnemos_retrieve]"
  {
  }

  lemma OneWord(s: string)
    requires s != "" && forall i :: 0 <= i < |s| ==> !IsSpace(s[i])
    ensures Still(s) && Solid(s)
  {
  }

  lemma ClosingIsTame()
    ensures Tame(Closing())
  {
    RetrieveIsTame();
    hide Still, Solid;
    assert Tame(Word(RETRIEVE, End));
    assert Still("|") && Solid("|") by {
      OneWord("|");
    }
    assert Tame(Word("|", Spaces(Word(RETRIEVE, End))));
  }

  lemma MarkerTame()
    ensures Tame(MarkerPattern())
  {
    var (open, chars) := ("[compressed:", "chars");
    assert Still(open) && Solid(open) && Still(chars) && Solid(chars);
    OneWord("|");
    OneWord([ARROW]);
    ClosingIsTame();
    hide Still, Solid, Closing;
    assert Tame(Spaces(Word(chars, Closing())));
    assert Tame(Number(Spaces(Word(chars, Closing()))));
    assert Tame(SizePattern());
    AfterHashIs();
    assert Tame(Word("|", Spaces(SizePattern())));
    assert Tame(AfterHash());
  }

  ghost predicate EndsWith(p: Pattern, c: char) {
    match p
    case End => false
    case Word(text, End) => text != "" && text[|text| - 1] == c
    case Word(_, rest) => EndsWith(rest, c)
    case Run(_, _, _, rest) => EndsWith(rest, c)
  }

  lemma {:induction false} MatchEndsWith(digits: map<char, nat>, p: Pattern, parts: seq<string>, c: char)
    requires EndsWith(p, c) && Fits(digits, p, parts)
    ensures Concat(parts) != "" && Concat(parts)[|Concat(parts)| - 1] == c
  {
    if p.rest != End {
      MatchEndsWith(digits, p.rest, parts[1..], c);
    } else {
      assert parts[1..] == [];
    }
  }

  lemma MarkerEnds()
    ensures EndsWith(MarkerPattern(), ']')
  {
    assert EndsWith(Word(RETRIEVE, End), ']');
    assert EndsWith(Closing(), ']');
    assert EndsWith(Spaces(Word("chars", Closing())), ']');
    assert EndsWith(SizePattern(), ']');
    AfterHashIs();
    assert EndsWith(AfterHash(), ']');
  }

  lemma MarkerIsSolid(digits: map<char, nat>, m: string)
    requires DigitTable(digits) && IsMarker(digits, m)
    ensures Solid(m)
  {
    MarkerShape(digits, m);
    var parts :| Fits(digits, MarkerPattern(), parts) && Concat(parts) == m;
    MarkerEnds();
    MatchEndsWith(digits, MarkerPattern(), parts, ']');
  }

  /** Two lists of parts that read the same. */
  predicate SameReading(a: seq<string>, b: seq<string>) {
    |a| == |b| == 15 && a[2] == b[2] && a[6] == b[6] && a[8] == b[8]
  }

  ghost function Nth(p: Pattern, k: nat): Pattern
    requires k < Size(p)
  {
    if k == 0 then p else Nth(p.rest, k - 1)
  }

  lemma {:induction false} FieldFits(digits: map<char, nat>, p: Pattern, parts: seq<string>, k: nat)
    requires Fits(digits, p, parts) && k < Size(p) == |parts|
    ensures var item := Nth(p, k);
      item.Run? ==> AllIn(digits, item.class_, parts[k]) && RightLength(parts[k], item.least, item.exact)
  {
    if k > 0 {
      FieldFits(digits, p.rest, parts[1..], k - 1);
    }
  }

  lemma MarkerItems()
    ensures Size(MarkerPattern()) == 15
    ensures Nth(MarkerPattern(), 2) == Run(Hex, 64, true, AfterHash())
    ensures Nth(MarkerPattern(), 6) == SizePattern()
    ensures Nth(MarkerPattern(), 8) == Number(Spaces(Word("chars", Closing())))
  {
    assert Size(Closing()) == 4;
    var second := Number(Spaces(Word("chars", Closing())));
    var sizes := SizePattern();
    assert Size(Spaces(Word("chars", Closing()))) == 6;
    assert Size(second) == 7 && Nth(second, 0) == second;
    assert Size(sizes.rest) == 8 && Nth(sizes.rest, 1) == second;
    assert Size(sizes) == 9 && Nth(sizes, 0) == sizes && Nth(sizes, 2) == second;
    var spaced := Spaces(sizes);
    assert Size(spaced) == 10 && Nth(spaced, 1) == sizes && Nth(spaced, 3) == second;
    var bar := Word("|", spaced);
    assert Size(bar) == 11 && Nth(bar, 2) == sizes && Nth(bar, 4) == second;
    AfterHashIs();
    assert Size(AfterHash()) == 12 && Nth(AfterHash(), 3) == sizes && Nth(AfterHash(), 5) == second;
    var hash := Run(Hex, 64, true, AfterHash());
    assert Size(hash) == 13 && Nth(hash, 0) == hash && Nth(hash, 4) == sizes && Nth(hash, 6) == second;
    var head := Spaces(hash);
    assert Size(head) == 14 && Nth(head, 1) == hash && Nth(head, 5) == sizes && Nth(head, 7) == second;
  }

  lemma MarkerFields(digits: map<char, nat>, parts: seq<string>)
    requires DigitTable(digits) && Fits(digits, MarkerPattern(), parts)
    ensures |parts| == 15 && !AllSpace(parts[2]) && !AllSpace(parts[6]) && !AllSpace(parts[8])
  {
    hide Fits, MarkerPattern, Nth, AllSpace, AllIn, Scan;
    MarkerItems();
    MarkerSeparated(digits);
    ScanComplete(digits, MarkerPattern(), parts, "");
    FieldFits(digits, MarkerPattern(), parts, 2);
    FieldFits(digits, MarkerPattern(), parts, 6);
    FieldFits(digits, MarkerPattern(), parts, 8);
    RunWithoutSpace(digits, Hex, parts[2]);
    RunWithoutSpace(digits, Digits, parts[6]);
    RunWithoutSpace(digits, Digits, parts[8]);
  }

  function Settled(parts: seq<string>): seq<string> {
    Each(TrimLines, Each(Collapse, parts))
  }

  /** A normalised marker is a marker with the same hash and sizes. */
  lemma SettledMarker(digits: map<char, nat>, parts: seq<string>)
    requires DigitTable(digits) && Fits(digits, MarkerPattern(), parts)
    ensures Fits(digits, MarkerPattern(), Settled(parts)) && Concat(Settled(parts)) == Settle(Concat(parts))
    ensures SameReading(parts, Settled(parts))
  {
    hide Rewrite, Fits, MarkerPattern, Concat, Each;
    MarkerSeparated(digits);
    MarkerTame();
    MarkerFields(digits, parts);
    PassKeepsTheMatch(digits, Collapse, MarkerPattern(), parts);
    var once := Each(Collapse, parts);
    assert once[2] == parts[2] && once[6] == parts[6] && once[8] == parts[8];
    PassKeepsTheMatch(digits, TrimLines, MarkerPattern(), once);
    assert Settled(parts) == Each(TrimLines, once);
  }

  lemma ReadIn(digits: map<char, nat>, before: string, parts: seq<string>, after: string)
    requires DigitTable(digits) && Fits(digits, MarkerPattern(), parts) && |parts| == 15
    ensures
      var text := before + Concat(parts) + after;
      && MarkerIn(digits, text, |before|, |before| + |Concat(parts)|)
      && ParseFrom(digits, text, |before|) == Some(Reading(digits, parts, |before|))
  {
    hide *;
    MatchesIn(digits, before, parts, after);
    ReadHere(digits, before + Concat(parts) + after, |before|);
  }

  // ----- The guarantees -----

  /** Alignment never takes a span out of a marker. */
  lemma MarkersAreClear(digits: map<char, nat>, text: string, skip: set<Kind>, matches: seq<Span>, i: nat, j: nat)
    requires DigitTable(digits) && MarkerIn(digits, text, i, j) && forall m :: m in matches ==> InText(text, m)
    ensures
      var spans := Accepted(skip, FindAll(digits, text, 0), matches);
      Region(text, spans, 0, i, j)
  {
    hide IsMarker, FindAll, Accepted;
    var protected := FindAll(digits, text, 0);
    var spans := Accepted(skip, protected, matches);
    AcceptedAreDisjoint(text, skip, protected, matches);
    FindAllExactly(digits, text, 0, i, j);
    MarkerShape(digits, text[i..j]);
    forall k | 0 <= k < |spans|
      ensures spans[k].end <= i || spans[k].start >= j
    {
      assert Eligible(skip, protected, spans[k]);
      assert !Meets(spans[k], (i, j));
    }
  }

  /** And nothing but markers, the profile and the caller keeps a match from being a
      candidate: of the candidates only the displaced are left in place. */
  lemma EligibleExactly(digits: map<char, nat>, text: string, profile: Option<string>, skipKinds: set<Kind>, m: Span)
    requires DigitTable(digits)
    ensures Eligible(ProfileSkip(profile) + skipKinds, FindAll(digits, text, 0), m) <==>
      && m.kind !in skipKinds && !(m.kind == Token && (profile == Some("code") || profile == Some("docs")))
      && forall i: nat, j: nat :: MarkerIn(digits, text, i, j) ==> m.end <= i || j <= m.start
  {
    hide IsMarker, FindAll;
    forall i: nat, j: nat
      ensures (i, j) in FindAll(digits, text, 0) <==> MarkerIn(digits, text, i, j)
    {
      FindAllExactly(digits, text, 0, i, j);
    }
  }

  predicate SameSource(found: Found, original: Found) {
    && found.hash == original.hash
    && found.originalChars == original.originalChars && found.compressedChars == original.compressedChars
  }

  /** Where the marker at [i, j) is found after alignment. */
  ghost function NewPlace(text: string, spans: seq<Span>, i: nat, j: nat): nat
    requires Region(text, spans, 0, i, j)
  {
    |Settle(Left(text, spans, 0, i, j))|
  }

  ghost function AfterRegion(text: string, spans: seq<Span>, i: nat, j: nat): string
    requires Region(text, spans, 0, i, j)
  {
    RStrip(Settle(Right(text, spans, 0, i, j))) + "\n" + Join(["", HEADER] + Lines(text, spans), "\n") + "\n"
  }

  lemma AlignedAround(text: string, spans: seq<Span>, i: nat, j: nat)
    requires Region(text, spans, 0, i, j) && Solid(text[i..j]) && spans != []
    ensures
      var (aligned, place, settled) := (AlignedText(text, spans), NewPlace(text, spans, i, j), Settle(text[i..j]));
      && aligned == Settle(Left(text, spans, 0, i, j)) + settled + AfterRegion(text, spans, i, j)
      && place + |settled| <= |aligned| && aligned[place..place + |settled|] == settled
  {
    hide Settle, RStrip, Left, Right, Join, Lines, Body;
    BodyAround(text, spans, i, j);
    Middle(Settle(Left(text, spans, 0, i, j)), Settle(text[i..j]), RStrip(Settle(Right(text, spans, 0, i, j))),
           Join(["", HEADER] + Lines(text, spans), "\n"));
  }

  lemma Middle(a: string, m: string, b: string, block: string)
    ensures
      var s := a + m + b + "\n" + block + "\n";
      s == a + m + (b + "\n" + block + "\n") && |a| + |m| <= |s| && s[|a|..|a| + |m|] == m
  {
    assert a + m + (b + "\n" + block + "\n") == a + (m + (b + "\n" + block + "\n"));
  }

  lemma MarkerParts(digits: map<char, nat>, text: string, i: nat, j: nat)
    requires DigitTable(digits) && MarkerIn(digits, text, i, j)
    ensures MatchAt(digits, text, i).Some?
    ensures var parts := MatchAt(digits, text, i).value;
      Fits(digits, MarkerPattern(), parts) && Concat(parts) == text[i..j]
  {
    hide Fits, MarkerPattern, Concat, IsMarker;
    MatchAtExactly(digits, text, i, j);
    ScanSound(digits, MarkerPattern(), text[i..]);
  }

  /** The marker of `text` at [i, j) reads in `aligned` at `place`, where it is spelled
      `spelled`, as the same hash and sizes. */
  ghost predicate SameMarker(digits: map<char, nat>, text: string, i: nat, j: nat,
                             aligned: string, place: nat, spelled: string) {
    && MarkerIn(digits, text, i, j) && MarkerIn(digits, aligned, place, place + |spelled|)
    && aligned[place..place + |spelled|] == spelled
    && ParseFrom(digits, aligned, place).Some? && ParseFrom(digits, text, i).Some?
    && SameSource(ParseFrom(digits, aligned, place).value, ParseFrom(digits, text, i).value)
  }

  lemma ReadingSurvives(digits: map<char, nat>, text: string, i: nat, j: nat, before: string, after: string)
    requires DigitTable(digits) && MarkerIn(digits, text, i, j)
    ensures
      var settled := Settle(text[i..j]);
      SameMarker(digits, text, i, j, before + settled + after, |before|, settled)
  {
    hide Settle, Fits, MarkerPattern, Concat, IsMarker, MatchAt, ParseFrom, NumberValue, Settled;
    MarkerParts(digits, text, i, j);
    var parts := MatchAt(digits, text, i).value;
    SettledMarker(digits, parts);
    ReadIn(digits, before, Settled(parts), after);
    ReadHere(digits, text, i);
  }

  lemma MarkerOutlivesRemoval(digits: map<char, nat>, text: string, spans: seq<Span>, i: nat, j: nat)
    requires DigitTable(digits) && Region(text, spans, 0, i, j) && MarkerIn(digits, text, i, j) && spans != []
    ensures
      var spelled := Settle(text[i..j]);
      SameMarker(digits, text, i, j, AlignedText(text, spans), NewPlace(text, spans, i, j), spelled)
      && (spelled == text[i..j] <==> Still(text[i..j]))
  {
    hide Settle, Left, Right, Still, IsMarker, AlignedText, Within, AfterRegion, Solid, SameMarker;
    MarkerIsSolid(digits, text[i..j]);
    AlignedAround(text, spans, i, j);
    SettledExactly(text[i..j]);
    ReadingSurvives(digits, text, i, j, Settle(Left(text, spans, 0, i, j)), AfterRegion(text, spans, i, j));
  }

  /** What alignment takes out of a text, given the raw matches. */
  ghost function Extracted(digits: map<char, nat>, text: string, skip: set<Kind>, matches: seq<Span>): seq<Span> {
    Accepted(skip, FindAll(digits, text, 0), matches)
  }

  /** Where the marker at [i, j) stands in the aligned text, and how it is spelled there. */
  ghost function Whereabouts(text: string, spans: seq<Span>, i: nat, j: nat): (nat, string)
    requires Region(text, spans, 0, i, j)
  {
    if spans == [] then (i, text[i..j]) else (NewPlace(text, spans, i, j), Settle(text[i..j]))
  }

  /** Any marker of the text, however it is spaced and whatever the patterns match, is
      still a marker of what `align` returns, in front of it what alignment made of the
      text in front, and it reads as the same hash and sizes; its characters are the
      same exactly if nothing was extracted or it is still. */
  lemma MarkerSurvives(digits: map<char, nat>, text: string, skip: set<Kind>, matches: seq<Span>, i: nat, j: nat)
    requires DigitTable(digits) && MarkerIn(digits, text, i, j) && forall m :: m in matches ==> InText(text, m)
    ensures
      var spans := Extracted(digits, text, skip, matches);
      && Region(text, spans, 0, i, j)
      && var (place, spelled) := Whereabouts(text, spans, i, j);
         SameMarker(digits, text, i, j, AlignedText(text, spans), place, spelled)
         && (spelled == text[i..j] <==> spans == [] || Still(text[i..j]))
  {
    hide IsMarker, Accepted, FindAll, Still, Region, MatchAt, ParseFrom, NewPlace, Settle;
    var spans := Extracted(digits, text, skip, matches);
    MarkersAreClear(digits, text, skip, matches, i, j);
    if spans == [] {
      MarkerParts(digits, text, i, j);
      ReadHere(digits, text, i);
    } else {
      MarkerOutlivesRemoval(digits, text, spans, i, j);
    }
  }

  /** A built marker with a second blank behind its first word. */
  function LooseMarker(h: string, n: nat, m: nat): string
    requires |BuildMarker(h, n, m)| >= 12
  {
    BuildMarker(h, n, m)[..12] + " " + BuildMarker(h, n, m)[12..]
  }

  lemma BuiltStarts(h: string, n: nat, m: nat)
    ensures BuiltParts(h, n, m) == ["[compressed:", " "] + BuiltParts(h, n, m)[2..]
  {
    hide Decimal;
  }

  lemma OtherGap(digits: map<char, nat>, p: Pattern, parts: seq<string>, gap: string)
    requires p.Word? && p.rest.Run? && p.rest.class_ == Space && p.rest.least == 0 && !p.rest.exact
    requires Fits(digits, p, parts) && AllIn(digits, Space, gap)
    ensures |parts| >= 2 && Fits(digits, p, [p.text, gap] + parts[2..])
    ensures Concat([p.text, gap] + parts[2..]) == p.text + gap + Concat(parts[2..])
  {
    var other := [p.text, gap] + parts[2..];
    assert other[1..] == [gap] + parts[2..] && other[1..][1..] == parts[2..] && parts[1..][1..] == parts[2..];
    assert Concat(other) == p.text + (gap + Concat(parts[2..]));
  }

  /** Markers whose characters do change exist: one written by hand with two blanks is a
      marker, and alignment that extracts anything spells it differently. */
  lemma LooseMarkerIsRespelled(digits: map<char, nat>, h: string, n: nat, m: nat)
    requires DigitTable(digits) && IsHash(h)
    ensures |BuildMarker(h, n, m)| >= 12
    ensures IsMarker(digits, LooseMarker(h, n, m)) && !Still(LooseMarker(h, n, m))
    ensures Settle(LooseMarker(h, n, m)) != LooseMarker(h, n, m)
  {
    hide BuildMarker, BuiltParts, Settle, Fits, Concat, SizePattern, AfterHash;
    var (p, parts) := (MarkerPattern(), BuiltParts(h, n, m));
    MarkerBuilt(digits, h, n, m);
    BuiltStarts(h, n, m);
    assert AllIn(digits, Space, " ") && AllIn(digits, Space, "  ");
    OtherGap(digits, p, parts, " ");
    OtherGap(digits, p, parts, "  ");
    var loose := LooseMarker(h, n, m);
    assert loose == p.text + "  " + Concat(parts[2..]);
    assert loose[12] == ' ' && loose[13] == ' ';
    SettledExactly(loose);
  }

  lemma Spelled(h: string, x: string, arrow: string, y: string, end: string)
    ensures "[compressed: " + h + " | " + x + arrow + y + " chars | " + end
         == "[compressed:" + " " + h + " " + "|" + " " + (x + arrow + y) + " " + "chars" + " " + "|" + " " + end
  {
  }

  lemma BuiltIsStill(h: string, n: nat, m: nat)
    requires IsHash(h)
    ensures Still(BuildMarker(h, n, m))
  {
    hide Decimal, Still;
    var sizes := Decimal(n) + [ARROW] + Decimal(m);
    assert forall i :: 0 <= i < |sizes| ==> IsDigit(sizes[i]) || sizes[i] == ARROW;
    OneWord("[compressed:");
    OneWord(h);
    OneWord("|");
    OneWord(sizes);
    OneWord("chars");
    RetrieveIsTame();
    hide Solid, RETRIEVE;
    Spelled(h, Decimal(n), [ARROW], Decimal(m), RETRIEVE);
    var head := "[compressed:" + " " + h;
    StillWords("[compressed:", h);
    StillWords(head, "|");
    StillWords(head + " " + "|", sizes);
    StillWords(head + " " + "|" + " " + sizes, "chars");
    StillWords(head + " " + "|" + " " + sizes + " " + "chars", "|");
    StillWords(head + " " + "|" + " " + sizes + " " + "chars" + " " + "|", RETRIEVE);
  }

  /** A marker as `build_marker` writes it comes through alignment byte for byte and
      gives back exactly what it was built from, whatever stands around it and
      whatever the patterns match. */
  lemma BuiltMarkerSurvives(digits: map<char, nat>, a: string, h: string, n: nat, m: nat, b: string,
                            skip: set<Kind>, matches: seq<Span>)
    requires DigitTable(digits) && IsHash(h)
    requires forall x :: x in matches ==> InText(a + BuildMarker(h, n, m) + b, x)
    ensures
      var (built, text) := (BuildMarker(h, n, m), a + BuildMarker(h, n, m) + b);
      var spans := Extracted(digits, text, skip, matches);
      && Region(text, spans, 0, |a|, |a + built|)
      && var (aligned, place) := (AlignedText(text, spans), Whereabouts(text, spans, |a|, |a + built|).0);
         && place + |built| <= |aligned| && aligned[place..place + |built|] == built
         && ParseFrom(digits, aligned, place) == Some(Found(h, n, m, place, place + |built|))
  {
    hide Still, IsMarker, AlignedText, BuildMarker, Whereabouts, Within, Clear, MatchAt, Extracted, ParseFrom;
    var (built, text) := (BuildMarker(h, n, m), a + BuildMarker(h, n, m) + b);
    BuiltIsRead(digits, a, h, n, m, b);
    assert text[|a|..|a + built|] == built;
    BuiltIsStill(h, n, m);
    MarkerSurvives(digits, text, skip, matches, |a|, |a + built|);
    var spans := Extracted(digits, text, skip, matches);
    var (aligned, place) := (AlignedText(text, spans), Whereabouts(text, spans, |a|, |a + built|).0);
    assert aligned[place..place + |built|] == built;
    BuiltIsRead(digits, aligned[..place], h, n, m, aligned[place + |built|..]);
    assert aligned == aligned[..place] + built + aligned[place + |built|..];
  }
}
