/** base64url without padding (section 5 of RFC 4648), as `_b64url_encode` and
    `_b64url_decode` do it over Python's lenient decoder. */
module Base64Url {
  import opened Text

  type byte = b: int | 0 <= b < 256

  // ----- The alphabet -----

  function Symbol(v: nat): char
    requires v < 64
  {
    if v < 26 then 'A' + v as char
    else if v < 52 then 'a' + (v - 26) as char
    else if v < 62 then '0' + (v - 52) as char
    else if v == 62 then '-' else '_'
  }

  /** What the decoder makes of a character; `+` and `/` still count. */
  function ValueOf(c: char): (v: Option<nat>)
    ensures v.Some? ==> v.value < 64
  {
    if 'A' <= c <= 'Z' then Some(c as int - 'A' as int)
    else if 'a' <= c <= 'z' then Some(c as int - 'a' as int + 26)
    else if '0' <= c <= '9' then Some(c as int - '0' as int + 52)
    else if c == '-' || c == '+' then Some(62)
    else if c == '_' || c == '/' then Some(63)
    else None
  }

  lemma SymbolReads(v: nat)
    requires v < 64
    ensures ValueOf(Symbol(v)) == Some(v)
    ensures Symbol(v) != '=' && Symbol(v) != '.' && !IsSpace(Symbol(v)) && Symbol(v) as int < 128
  {
  }

  // ----- Encoding -----

  /** With padding, four symbols for three bytes. */
  function EncodePadded(data: seq<byte>): string {
    if data == [] then ""
    else if |data| == 1 then
      [Symbol(data[0] / 4), Symbol(data[0] % 4 * 16), '=', '=']
    else if |data| == 2 then
      [Symbol(data[0] / 4), Symbol(data[0] % 4 * 16 + data[1] / 16), Symbol(data[1] % 16 * 4), '=']
    else
      [Symbol(data[0] / 4), Symbol(data[0] % 4 * 16 + data[1] / 16),
       Symbol(data[1] % 16 * 4 + data[2] / 64), Symbol(data[2] % 64)] + EncodePadded(data[3..])
  }

  /** `rstrip("=")` */
  function RStripPadding(s: string): string {
    if s != "" && s[|s| - 1] == '=' then RStripPadding(s[..|s| - 1]) else s
  }

  function Encode(data: seq<byte>): string {
    RStripPadding(EncodePadded(data))
  }

  // ----- Decoding -----

  function Padding(n: nat): string
    requires n < 4
  {
    if n == 0 then "" else "=" + Padding(n - 1)
  }

  /** `s` with as much padding as its length calls for. */
  function PaddedOut(s: string): string {
    s + Padding((4 - |s| % 4) % 4)
  }

  function Emit(b: byte, rest: Option<seq<byte>>): Option<seq<byte>> {
    if rest.Some? then Some([b] + rest.value) else None
  }

  /** `binascii.a2b_base64`, not strict: characters outside the alphabet are
      skipped, enough padding ends the input, a torn quad fails. `quad` symbols of
      the current four have been read, `left` is what they leave over. */
  function Scan(s: string, quad: nat, left: nat, pads: nat): Option<seq<byte>>
    requires quad < 4 && (quad == 0 ==> left == 0)
    requires (quad == 1 ==> left < 64) && (quad == 2 ==> left < 16) && (quad == 3 ==> left < 4)
  {
    if s == "" then
      if quad == 0 then Some([]) else None
    else if s[0] == '=' then
      if quad < 2 then Scan(s[1..], quad, left, pads)
      else if quad + pads + 1 >= 4 then Some([])
      else Scan(s[1..], quad, left, pads + 1)
    else
      match ValueOf(s[0])
      case None => Scan(s[1..], quad, left, pads)
      case Some(v) =>
        if quad == 0 then Scan(s[1..], 1, v, 0)
        else if quad == 1 then Emit(left * 4 + v / 16, Scan(s[1..], 2, v % 16, 0))
        else if quad == 2 then Emit(left * 16 + v / 4, Scan(s[1..], 3, v % 4, 0))
        else Emit(left * 64 + v, Scan(s[1..], 0, 0, 0))
  }

  /** `_b64url_decode`; `None` is the malformed-token error. */
  function Decode(segment: string): Option<seq<byte>> {
    if exists i :: 0 <= i < |segment| && segment[i] as int >= 128 then None
    else Scan(PaddedOut(segment), 0, 0, 0)
  }

  // ----- The round trip -----

  lemma FirstSymbol(c: char, v: nat, rest: string)
    requires ValueOf(c) == Some(v) && c != '='
    ensures Scan([c] + rest, 0, 0, 0) == Scan(rest, 1, v, 0)
  {
    assert ([c] + rest)[1..] == rest;
  }

  lemma SecondSymbol(c: char, v: nat, left: nat, rest: string)
    requires ValueOf(c) == Some(v) && c != '=' && left < 64
    ensures Scan([c] + rest, 1, left, 0) == Emit(left * 4 + v / 16, Scan(rest, 2, v % 16, 0))
  {
    assert ([c] + rest)[1..] == rest;
  }

  lemma ThirdSymbol(c: char, v: nat, left: nat, rest: string)
    requires ValueOf(c) == Some(v) && c != '=' && left < 16
    ensures Scan([c] + rest, 2, left, 0) == Emit(left * 16 + v / 4, Scan(rest, 3, v % 4, 0))
  {
    assert ([c] + rest)[1..] == rest;
  }

  lemma LastSymbol(c: char, v: nat, left: nat, rest: string)
    requires ValueOf(c) == Some(v) && c != '=' && left < 4
    ensures Scan([c] + rest, 3, left, 0) == Emit(left * 64 + v, Scan(rest, 0, 0, 0))
  {
    assert ([c] + rest)[1..] == rest;
  }

  /** The first two symbols of a block give its first byte. */
  lemma TwoSymbols(a: byte, w: nat, rest: string)
    requires w < 16
    ensures Scan([Symbol(a / 4)] + ([Symbol(a % 4 * 16 + w)] + rest), 0, 0, 0) == Emit(a, Scan(rest, 2, w, 0))
  {
    var (v0, v1) := (a / 4, a % 4 * 16 + w);
    SymbolReads(v0);
    SymbolReads(v1);
    FirstSymbol(Symbol(v0), v0, [Symbol(v1)] + rest);
    SecondSymbol(Symbol(v1), v1, v0, rest);
    assert v0 * 4 + v1 / 16 == a && v1 % 16 == w;
  }

  lemma OneBlock(a: byte, b: byte, c: byte, rest: string)
    ensures
      var s := [Symbol(a / 4), Symbol(a % 4 * 16 + b / 16), Symbol(b % 16 * 4 + c / 64), Symbol(c % 64)] + rest;
      Scan(s, 0, 0, 0) == Emit(a, Emit(b, Emit(c, Scan(rest, 0, 0, 0))))
  {
    var (v2, v3) := (b % 16 * 4 + c / 64, c % 64);
    SymbolReads(v2);
    SymbolReads(v3);
    var tail := [Symbol(v3)] + rest;
    TwoSymbols(a, b / 16, [Symbol(v2)] + tail);
    ThirdSymbol(Symbol(v2), v2, b / 16, tail);
    LastSymbol(Symbol(v3), v3, v2 % 4, rest);
    assert b / 16 * 16 + v2 / 4 == b && v2 % 4 * 64 + v3 == c;
    assert [Symbol(a / 4), Symbol(a % 4 * 16 + b / 16), Symbol(v2), Symbol(v3)] + rest ==
           [Symbol(a / 4)] + ([Symbol(a % 4 * 16 + b / 16)] + ([Symbol(v2)] + tail));
  }

  lemma {:induction false} ScanReadsBack(data: seq<byte>)
    ensures Scan(EncodePadded(data), 0, 0, 0) == Some(data)
  {
    if |data| >= 3 {
      ScanReadsBack(data[3..]);
      OneBlock(data[0], data[1], data[2], EncodePadded(data[3..]));
      assert data == [data[0]] + ([data[1]] + ([data[2]] + data[3..]));
    } else if |data| == 2 {
      TwoBytes(data[0], data[1]);
      assert data == [data[0]] + ([data[1]] + []);
    } else if |data| == 1 {
      OneByte(data[0]);
      assert data == [data[0]] + [];
    }
  }

  lemma TwoBytes(a: byte, b: byte)
    ensures Scan([Symbol(a / 4), Symbol(a % 4 * 16 + b / 16), Symbol(b % 16 * 4), '='], 0, 0, 0) == Some([a] + ([b] + []))
  {
    var v2 := b % 16 * 4;
    SymbolReads(v2);
    TwoSymbols(a, b / 16, [Symbol(v2)] + ['=']);
    ThirdSymbol(Symbol(v2), v2, b / 16, ['=']);
    assert Scan(['='], 3, v2 % 4, 0) == Some([]);
    assert b / 16 * 16 + v2 / 4 == b;
    assert [Symbol(a / 4), Symbol(a % 4 * 16 + b / 16), Symbol(v2), '='] ==
           [Symbol(a / 4)] + ([Symbol(a % 4 * 16 + b / 16)] + ([Symbol(v2)] + ['=']));
  }

  lemma OneByte(a: byte)
    ensures Scan([Symbol(a / 4), Symbol(a % 4 * 16), '=', '='], 0, 0, 0) == Some([a] + [])
  {
    TwoSymbols(a, 0, ['=', '=']);
    assert ['=', '='][1..] == ['='];
    assert Scan(['='], 2, 0, 1) == Some([]);
    assert [Symbol(a / 4), Symbol(a % 4 * 16), '=', '='] ==
           [Symbol(a / 4)] + ([Symbol(a % 4 * 16 + 0)] + ['=', '=']);
  }

  /** The encoding is its symbols, padded out to a multiple of four. */
  ghost predicate Symbols(s: string) {
    forall i :: 0 <= i < |s| ==> s[i] != '=' && s[i] != '.' && !IsSpace(s[i]) && s[i] as int < 128
  }

  /** The symbols of the first up to three bytes. */
  function Head(data: seq<byte>): string {
    if data == [] then ""
    else if |data| == 1 then [Symbol(data[0] / 4), Symbol(data[0] % 4 * 16)]
    else if |data| == 2 then
      [Symbol(data[0] / 4), Symbol(data[0] % 4 * 16 + data[1] / 16), Symbol(data[1] % 16 * 4)]
    else
      [Symbol(data[0] / 4), Symbol(data[0] % 4 * 16 + data[1] / 16),
       Symbol(data[1] % 16 * 4 + data[2] / 64), Symbol(data[2] % 64)]
  }

  lemma HeadIsSymbols(data: seq<byte>)
    ensures Symbols(Head(data))
  {
    forall i | 0 <= i < |Head(data)|
      ensures exists v :: 0 <= v < 64 && Head(data)[i] == Symbol(v)
    {
    }
    forall v | 0 <= v < 64
      ensures Symbol(v) != '=' && Symbol(v) != '.' && !IsSpace(Symbol(v)) && Symbol(v) as int < 128
    {
      SymbolReads(v);
    }
  }

  lemma PaddedShape(data: seq<byte>)
    ensures |data| < 3 ==> EncodePadded(data) == Head(data) + Padding((4 - |Head(data)| % 4) % 4)
    ensures |data| >= 3 ==> EncodePadded(data) == Head(data) + EncodePadded(data[3..])
  {
    assert Padding(0) == "" && Padding(1) == "=" && Padding(2) == "==";
  }

  lemma {:induction false} StripAllPadding(n: nat)
    requires n < 4
    ensures RStripPadding(Padding(n)) == ""
  {
    if n > 0 {
      StripAllPadding(n - 1);
      PaddingEnds(n);
    }
  }

  lemma {:induction false} PaddingEnds(n: nat)
    requires 0 < n < 4
    ensures var p := Padding(n); |p| == n && p[|p| - 1] == '=' && p[..|p| - 1] == Padding(n - 1)
  {
    if n > 1 {
      PaddingEnds(n - 1);
    }
  }

  lemma EncodeShape(data: seq<byte>)
    ensures |data| < 3 ==> Encode(data) == Head(data)
    ensures |data| >= 3 ==> |Head(data)| == 4 && Encode(data) == Head(data) + Encode(data[3..])
  {
    HeadIsSymbols(data);
    PaddedShape(data);
    var head := Head(data);
    if |data| >= 3 {
      StripBehind(head, EncodePadded(data[3..]));
    } else if data != [] {
      var n := (4 - |head| % 4) % 4;
      StripBehind(head, Padding(n));
      StripAllPadding(n);
    }
  }

  lemma SymbolsConcat(a: string, b: string)
    requires Symbols(a) && Symbols(b)
    ensures Symbols(a + b)
  {
  }

  lemma {:induction false} EncodeIsSymbols(data: seq<byte>)
    ensures Symbols(Encode(data)) && (data != [] ==> Encode(data) != "")
  {
    HeadIsSymbols(data);
    EncodeShape(data);
    if |data| >= 3 {
      EncodeIsSymbols(data[3..]);
      SymbolsConcat(Head(data), Encode(data[3..]));
    }
  }

  lemma FourMore(head: string, s: string)
    requires |head| == 4
    ensures PaddedOut(head + s) == head + PaddedOut(s)
  {
    assert |head + s| % 4 == |s| % 4;
    var pad := Padding((4 - |s| % 4) % 4);
    assert head + s + pad == head + (s + pad);
  }

  lemma {:induction false} PaddedIsEncodeAndPadding(data: seq<byte>)
    ensures EncodePadded(data) == PaddedOut(Encode(data))
  {
    PaddedShape(data);
    EncodeShape(data);
    if |data| >= 3 {
      PaddedIsEncodeAndPadding(data[3..]);
      FourMore(Head(data), Encode(data[3..]));
    }
  }

  lemma {:induction false} StripBehind(a: string, b: string)
    requires a != "" && a[|a| - 1] != '='
    ensures RStripPadding(a + b) == a + RStripPadding(b)
  {
    if b == "" {
      assert a + b == a;
    } else if b[|b| - 1] == '=' {
      assert (a + b)[..|a + b| - 1] == a + b[..|b| - 1];
      StripBehind(a, b[..|b| - 1]);
    }
  }

  /** Stripping the padding and restoring it loses nothing, for all bytes. */
  lemma DecodeEncode(data: seq<byte>)
    ensures Decode(Encode(data)) == Some(data)
    ensures Symbols(Encode(data)) && (data != [] ==> Encode(data) != "")
  {
    EncodeIsSymbols(data);
    PaddedIsEncodeAndPadding(data);
    ScanReadsBack(data);
  }
}
