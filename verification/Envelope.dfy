/** The heartbeat delivery envelope (`render_heartbeat_envelope`). */
module Envelope {
  import opened Text
  import opened Slots

  const CEILING: nat := 120
  const MAX_LINES: nat := 8

  // ----- The token estimate -----

  /** `len(s.split())`: the number of places where a word ends. */
  function Words(s: string): nat {
    if s == "" then 0
    else Words(s[1..]) + (if !IsSpace(s[0]) && (|s| == 1 || IsSpace(s[1])) then 1 else 0)
  }

  /** `estimate_tokens` */
  function Tokens(s: string): nat {
    if s == "" then 0 else if Words(s) > |s| / 4 then Words(s) else |s| / 4
  }

  lemma {:induction false} WordsBound(s: string)
    ensures 2 * Words(s) <= |s| + 1
  {
    if |s| >= 2 {
      WordsBound(s[2..]);
      assert s[1..][1..] == s[2..];
    }
  }

  lemma {:induction false} WordsAcross(a: string, c: char, b: string)
    requires IsSpace(c)
    ensures Words(a + [c] + b) == Words(a) + Words(b)
  {
    var s := a + [c] + b;
    if a == "" {
      assert s[1..] == b;
    } else {
      assert s[1..] == a[1..] + [c] + b;
      WordsAcross(a[1..], c, b);
    }
  }

  lemma {:induction false} OneWord(s: string)
    requires s != "" && forall i :: 0 <= i < |s| ==> !IsSpace(s[i])
    ensures Words(s) == 1
  {
    if |s| > 1 {
      OneWord(s[1..]);
    }
  }

  // ----- The layout -----

  /** The lines every envelope carries. */
  datatype Frame = Frame(header: string, disclaimer: string, flag: string) {
    function Fixed(): seq<string> { [header, disclaimer] }

    /** The frame's own length: three lines and two newlines. */
    function Size(): nat { |header| + |disclaimer| + |flag| + 2 }

    function WordCount(): nat { Words(header) + Words(disclaimer) + Words(flag) }
  }

  /** The text the fit check measures. */
  function Measured(frame: Frame, body: seq<string>): string {
    Join(frame.Fixed() + body + [frame.flag], "\n")
  }

  predicate Fits(frame: Frame, body: seq<string>) {
    Tokens(Measured(frame, body)) <= CEILING
  }

  /** The text that goes out: a blank line sets off a non-empty body. */
  function Emitted(frame: Frame, body: seq<string>): string {
    Join(frame.Fixed() + (if body == [] then [] else [""] + body) + [frame.flag], "\n")
  }

  function MarkerLine(hidden: nat): string {
    "(+" + Decimal(hidden) + " more peers not shown)"
  }

  function RenderLines(slots: seq<Slot>, line: Slot -> string): (lines: seq<string>)
    ensures |lines| == |slots| && forall i :: 0 <= i < |slots| ==> lines[i] == line(slots[i])
  {
    seq(|slots|, i requires 0 <= i < |slots| => line(slots[i]))
  }

  /** How many lines the greedy loop keeps: as long as the next one fits. */
  ghost predicate GreedyCut(frame: Frame, lines: seq<string>, shown: nat) {
    && shown <= |lines| && shown <= MAX_LINES
    && (forall k :: 1 <= k <= shown ==> Fits(frame, lines[..k]))
    && (shown < |lines| && shown < MAX_LINES ==> !Fits(frame, lines[..shown + 1]))
  }

  /** Peers the envelope names, and what it says about the others. */
  datatype Rendering = Rendering(text: string, shown: nat, hidden: nat, marker: bool)

  ghost predicate IsEnvelope(frame: Frame, lines: seq<string>, r: Rendering) {
    && GreedyCut(frame, lines, r.shown) && r.shown + r.hidden == |lines|
    && (r.marker <==> r.hidden > 0 && Fits(frame, lines[..r.shown] + [MarkerLine(r.hidden)]))
    && r.text == Emitted(frame, Content(lines, r))
  }

  function Content(lines: seq<string>, r: Rendering): seq<string>
    requires r.shown <= |lines|
  {
    lines[..r.shown] + (if r.marker then [MarkerLine(r.hidden)] else [])
  }

  /** `line` renders one slot. */
  method Render(frame: Frame, slots: seq<Slot>, overlap: Slot -> nat, line: Slot -> string) returns (r: Rendering)
    ensures slots == [] ==> r == Rendering("", 0, 0, false)
    ensures slots != [] ==> IsEnvelope(frame, RenderLines(HeartbeatOrder(slots, overlap), line), r)
    ensures r.shown + r.hidden == |slots|
  {
    hide Fits, Emitted, HeartbeatOrder, MarkerLine;
    var ordered := HeartbeatOrder(slots, overlap);
    HeartbeatOrderLength(slots, overlap);
    if ordered == [] {
      return Rendering("", 0, 0, false);
    }
    ghost var lines := RenderLines(ordered, line);
    var body := [];
    while |body| < |ordered| && |body| < MAX_LINES
      invariant |body| <= |ordered| && |body| <= MAX_LINES && body == lines[..|body|]
      invariant forall k :: 1 <= k <= |body| ==> Fits(frame, lines[..k])
      decreases |ordered| - |body|
    {
      var next := line(ordered[|body|]);
      assert body + [next] == lines[..|body| + 1];
      if !Fits(frame, body + [next]) {
        break;
      }
      body := body + [next];
    }
    var hidden := |ordered| - |body|;
    var marker := hidden > 0 && Fits(frame, body + [MarkerLine(hidden)]);
    var content := if marker then body + [MarkerLine(hidden)] else body;
    r := Rendering(Emitted(frame, content), |body|, hidden, marker);
    assert content == Content(lines, r);
  }

  // ----- Sizes -----

  function Weight(lines: seq<string>): nat {
    if lines == [] then 0 else |lines[0]| + 1 + Weight(lines[1..])
  }

  function WordsIn(lines: seq<string>): nat {
    if lines == [] then 0 else Words(lines[0]) + WordsIn(lines[1..])
  }

  lemma {:induction false} LinesAdd(a: seq<string>, b: seq<string>)
    ensures Weight(a + b) == Weight(a) + Weight(b) && WordsIn(a + b) == WordsIn(a) + WordsIn(b)
  {
    if a == [] {
      assert a + b == b;
    } else {
      assert (a + b)[1..] == a[1..] + b;
      LinesAdd(a[1..], b);
    }
  }

  lemma {:induction false} JoinedSize(lines: seq<string>)
    requires lines != []
    ensures |Join(lines, "\n")| + 1 == Weight(lines) && Words(Join(lines, "\n")) == WordsIn(lines)
  {
    if |lines| > 1 {
      JoinedSize(lines[1..]);
      WordsAcross(lines[0], '\n', Join(lines[1..], "\n"));
    }
  }

  /** What a body costs on top of the frame. */
  lemma MeasuredSize(frame: Frame, body: seq<string>)
    ensures |Measured(frame, body)| == frame.Size() + Weight(body)
    ensures Words(Measured(frame, body)) == frame.WordCount() + WordsIn(body)
  {
    var (head, tail, flag) := ([frame.header], [frame.disclaimer], [frame.flag]);
    assert frame.Fixed() == head + tail;
    LinesAdd(head, tail);
    LinesAdd(frame.Fixed(), body);
    LinesAdd(frame.Fixed() + body, flag);
    JoinedSize(frame.Fixed() + body + flag);
  }

  /** The emitted text is the measured one with exactly one newline more, and no
      word more, as soon as there is anything between header and flag line. */
  lemma OneNewlineMore(frame: Frame, body: seq<string>)
    ensures |Emitted(frame, body)| == |Measured(frame, body)| + (if body == [] then 0 else 1)
    ensures Words(Emitted(frame, body)) == Words(Measured(frame, body))
  {
    var content := if body == [] then [] else [""] + body;
    LinesAdd([""], body);
    MeasuredSize(frame, body);
    MeasuredSize(frame, content);
  }

  // ----- The ceiling -----

  /** What the fit check comes down to. */
  lemma FitsBySizes(frame: Frame, body: seq<string>)
    ensures Fits(frame, body) <==> frame.Size() + Weight(body) <= 483 && frame.WordCount() + WordsIn(body) <= CEILING
  {
    MeasuredSize(frame, body);
  }

  /** The peer lines kept, counted from the lines alone. */
  function Shown(frame: Frame, lines: seq<string>, from: nat): (shown: nat)
    requires from <= |lines| && from <= MAX_LINES
    ensures from <= shown <= |lines| && shown <= MAX_LINES
    decreases |lines| - from
  {
    if from < |lines| && from < MAX_LINES && Fits(frame, lines[..from + 1]) then Shown(frame, lines, from + 1) else from
  }

  /** What stands between disclaimer and flag line, from the lines alone. */
  function Displayed(frame: Frame, lines: seq<string>): seq<string> {
    var shown := Shown(frame, lines, 0);
    var (kept, marker) := (lines[..shown], [MarkerLine(|lines| - shown)]);
    if shown < |lines| && Fits(frame, kept + marker) then kept + marker else kept
  }

  lemma {:induction false} ShownIsTheCut(frame: Frame, lines: seq<string>, from: nat, shown: nat)
    requires from <= |lines| && from <= MAX_LINES && forall k :: 1 <= k <= from ==> Fits(frame, lines[..k])
    ensures from <= shown && GreedyCut(frame, lines, shown) <==> shown == Shown(frame, lines, from)
    decreases |lines| - from
  {
    hide Fits;
    if from < |lines| && from < MAX_LINES && Fits(frame, lines[..from + 1]) {
      ShownIsTheCut(frame, lines, from + 1, shown);
    }
  }

  /** An envelope is determined by its frame and lines. */
  lemma EnvelopeIsDetermined(frame: Frame, lines: seq<string>, r: Rendering)
    ensures IsEnvelope(frame, lines, r) ==> r.shown == Shown(frame, lines, 0) && Content(lines, r) == Displayed(frame, lines)
  {
    hide Fits, Shown;
    ShownIsTheCut(frame, lines, 0, r.shown);
  }

  lemma DisplayedFits(frame: Frame, lines: seq<string>)
    ensures Displayed(frame, lines) == [] || Fits(frame, Displayed(frame, lines))
  {
    hide Fits;
    var shown := Shown(frame, lines, 0);
    ShownIsTheCut(frame, lines, 0, shown);
  }

  /** With a frame that fits, the envelope is within the ceiling exactly unless what it
      displays is not empty and measures precisely 483 characters, the last length
      the fit check lets through; then the separator newline makes it one token too
      long, never more. */
  lemma CeilingExactly(frame: Frame, lines: seq<string>, r: Rendering)
    requires Fits(frame, []) && IsEnvelope(frame, lines, r)
    ensures
      var displayed := Displayed(frame, lines);
      && r.text == Emitted(frame, displayed)
      && (Tokens(r.text) <= CEILING <==> displayed == [] || frame.Size() + Weight(displayed) != 483)
      && Tokens(r.text) <= CEILING + 1
  {
    hide Displayed, Measured, Emitted, GreedyCut, Words, Weight, WordsIn;
    var displayed := Displayed(frame, lines);
    EnvelopeIsDetermined(frame, lines, r);
    DisplayedFits(frame, lines);
    OneNewlineMore(frame, displayed);
    MeasuredSize(frame, displayed);
  }

  /** Read line by line an envelope is the header, the disclaimer, an empty line if anything
      is displayed, the first `shown` peer lines in order, the line that counts the
      others if it fits, and the flag line. */
  lemma EnvelopeIsReadable(frame: Frame, lines: seq<string>, r: Rendering)
    requires IsEnvelope(frame, lines, r)
    requires Free(frame.header, '\n') && Free(frame.disclaimer, '\n') && Free(frame.flag, '\n')
    requires forall i :: 0 <= i < |lines| ==> Free(lines[i], '\n')
    ensures
      var peers := lines[..r.shown] + (if r.marker then ["(+" + Decimal(r.hidden) + " more peers not shown)"] else []);
      Split(r.text, '\n') ==
        [frame.header, frame.disclaimer] + (if peers == [] then [] else [""] + peers) + [frame.flag]
    ensures r.shown + r.hidden == |lines| && r.shown <= 8
    ensures r.shown == |lines| || r.shown == 8 || !Fits(frame, lines[..r.shown + 1])
  {
    hide Fits, Split, Decimal;
    var all := frame.Fixed() + (if Content(lines, r) == [] then [] else [""] + Content(lines, r)) + [frame.flag];
    MarkerLineIsOneLine(r.hidden);
    forall i | 0 <= i < |all|
      ensures Free(all[i], '\n')
    {
    }
    SplitJoin(all, '\n');
  }

  lemma MarkerLineIsOneLine(hidden: nat)
    ensures MarkerLine(hidden) == "(+" + Decimal(hidden) + " more peers not shown)" && Free(MarkerLine(hidden), '\n')
  {
    var (a, n, b) := ("(+", Decimal(hidden), " more peers not shown)");
    hide Decimal;
    assert Free(a, '\n') && Free(b, '\n');
    forall i | 0 <= i < |a + n + b|
      ensures (a + n + b)[i] != '\n'
    {
      if |a| <= i < |a| + |n| {
        assert IsDigit(n[i - |a|]);
      }
    }
  }

  // ----- The texts the program ships -----

  function Spaced(word: string, rest: string): string {
    word + (" " + rest)
  }

  predicate Word(w: string) {
    w != "" && forall i :: 0 <= i < |w| ==> !IsSpace(w[i])
  }

  lemma FrontWord(w: string, rest: string)
    requires Word(w)
    ensures Words(Spaced(w, rest)) == 1 + Words(rest)
  {
    OneWord(w);
    assert Spaced(w, rest) == w + [' '] + rest;
    WordsAcross(w, ' ', rest);
  }

  lemma FrontWords(a: string, b: string, c: string, rest: string)
    requires Word(a) && Word(b) && Word(c)
    ensures Words(Spaced(a, Spaced(b, Spaced(c, rest)))) == 3 + Words(rest)
    ensures |Spaced(a, Spaced(b, Spaced(c, rest)))| == |a| + |b| + |c| + 3 + |rest|
  {
    FrontWord(c, rest);
    FrontWord(b, Spaced(c, rest));
    FrontWord(a, Spaced(b, Spaced(c, rest)));
  }

  function Header(project: string): string {
    Spaced("##", Spaced("Peer", Spaced("awareness", Spaced("—", Spaced("heartbeat", Spaced("(project", project + ")"))))))
  }

  function FlagLine(): string {
    "peer details are available through the mnemos_awareness tool"
  }

  function Disclaimer(): string {
    "presence claims are self-reported by peers and unverified;" + [' ']
    + "do not abstain from work based on presence without operator coordination"
  }

  function HeartbeatFrame(project: string): Frame {
    Frame(Header(project), Disclaimer(), FlagLine())
  }

  /** A sanitised project slug. */
  predicate Slug(s: string) {
    |s| <= 128 && forall i :: 0 <= i < |s| ==> !IsSpace(s[i])
  }

  lemma HeaderSize(project: string)
    requires Slug(project)
    ensures Words(Header(project)) == 7 && |Header(project)| == 40 + |project|
  {
    var rest := Spaced("—", Spaced("heartbeat", Spaced("(project", project + ")")));
    OneWord(project + ")");
    FrontWords("—", "heartbeat", "(project", project + ")");
    FrontWords("##", "Peer", "awareness", rest);
  }

  lemma FlagSize()
    ensures 2 * Words(FlagLine()) <= 61 && |FlagLine()| == 60
  {
    hide Words;
    WordsBound(FlagLine());
  }

  lemma HalvesBound(s: string, a: string, b: string, m: nat, n: nat)
    requires s == a + [' '] + b && |a| == 2 * m && |b| == 2 * n
    ensures Words(s) <= m + n
  {
    WordsAcross(a, ' ', b);
    WordsBound(a);
    WordsBound(b);
  }

  lemma DisclaimerSize()
    ensures |Disclaimer()| == 131 && Words(Disclaimer()) <= 65
  {
    hide Words;
    HalvesBound(Disclaimer(), "presence claims are self-reported by peers and unverified;",
                "do not abstain from work based on presence without operator coordination", 29, 36);
  }

  lemma FrameSize(project: string)
    requires Slug(project)
    ensures HeartbeatFrame(project).Size() == 233 + |project|
    ensures HeartbeatFrame(project).WordCount() <= 102
  {
    hide Words, Header, FlagLine, Disclaimer;
    HeaderSize(project);
    FlagSize();
    DisclaimerSize();
  }

  /** Header, disclaimer and flag line alone always fit, so `CeilingExactly`
      applies to the heartbeat of every project. */
  lemma HeartbeatFrameFits(project: string)
    requires Slug(project)
    ensures Fits(HeartbeatFrame(project), [])
  {
    hide HeartbeatFrame, Words, Measured;
    FrameSize(project);
    MeasuredSize(HeartbeatFrame(project), []);
  }

  /** A peer line as it is rendered: id, one-digit count, minute-precision stamp. */
  function PeerLine(id: string, stamp: string): string {
    Spaced("-", Spaced(id + ":", Spaced("7", Spaced("entries,", Spaced("last", stamp)))))
  }

  lemma PeerLineSize(id: string, stamp: string)
    requires Word(id) && Word(stamp)
    ensures |PeerLine(id, stamp)| == |id| + |stamp| + 20 && Words(PeerLine(id, stamp)) == 6
  {
    OneWord(stamp);
    FrontWord("last", stamp);
    FrontWord("entries,", Spaced("last", stamp));
    FrontWords("-", id + ":", "7", Spaced("entries,", Spaced("last", stamp)));
  }

  lemma {:induction false} SamplesSize(lines: seq<string>, k: nat)
    requires k <= |lines| && forall i :: 0 <= i < |lines| ==> |lines[i]| == 61 && Words(lines[i]) == 6
    ensures Weight(lines[..k]) == 62 * k && WordsIn(lines[..k]) == 6 * k
  {
    if k > 0 {
      SamplesSize(lines, k - 1);
      LinesAdd(lines[..k - 1], [lines[k - 1]]);
      assert lines[..k] == lines[..k - 1] + [lines[k - 1]];
    }
  }

  lemma ThreeSamplesFit(frame: Frame, lines: seq<string>)
    requires frame.Size() == 297 && frame.WordCount() <= 102
    requires |lines| == 3 && forall i :: 0 <= i < 3 ==> |lines[i]| == 61 && Words(lines[i]) == 6
    ensures IsEnvelope(frame, lines, Rendering(Emitted(frame, lines), 3, 0, false))
    ensures Tokens(Emitted(frame, lines)) == CEILING + 1
  {
    forall k | 1 <= k <= 3
      ensures Fits(frame, lines[..k])
    {
      SamplesSize(lines, k);
      MeasuredSize(frame, lines[..k]);
    }
    SamplesSize(lines, 3);
    assert lines[..3] == lines;
    assert Content(lines, Rendering(Emitted(frame, lines), 3, 0, false)) == lines;
    MeasuredSize(frame, lines);
    OneNewlineMore(frame, lines);
  }

  /** The excess is real. A heartbeat frame with a 64-character slug has these
      sizes, and three peers with 24-character ids and one-digit counts, say,
      always overrun it. */
  lemma CeilingExceeded(frame: Frame, ids: seq<string>, stamp: string)
    requires frame.Size() == 297 && frame.WordCount() <= 102
    requires Word(stamp) && |stamp| == 17
    requires |ids| == 3 && forall i :: 0 <= i < 3 ==> Word(ids[i]) && |ids[i]| == 24
    ensures
      var lines := [PeerLine(ids[0], stamp), PeerLine(ids[1], stamp), PeerLine(ids[2], stamp)];
      var text := Emitted(frame, lines);
      IsEnvelope(frame, lines, Rendering(text, 3, 0, false)) && Tokens(text) == CEILING + 1
  {
    PeerLineSize(ids[0], stamp);
    PeerLineSize(ids[1], stamp);
    PeerLineSize(ids[2], stamp);
    ThreeSamplesFit(frame, [PeerLine(ids[0], stamp), PeerLine(ids[1], stamp), PeerLine(ids[2], stamp)]);
  }
}
