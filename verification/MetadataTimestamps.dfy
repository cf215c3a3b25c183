/** `canonical_metadata_timestamp`: the import boundary of the federation index. */
module MetadataTimestamps {
  import opened Text
  import opened Timestamps

  /** A parsed timestamp; `offset` is in microseconds, `None` when naive. */
  datatype DateTime = DateTime(fields: Civil, offset: Option<int>)

  datatype Rejection = Empty | Unparseable | Future | OutOfRange

  predicate ValidDateTime(d: DateTime) {
    ValidCivil(d.fields) && (d.offset.Some? ==> -DAY_SECONDS * SECOND < d.offset.value < DAY_SECONDS * SECOND)
  }

  /** The UTC instant; a naive timestamp is read as UTC. */
  function UtcInstant(d: DateTime): int {
    Instant(d.fields) - (if d.offset.Some? then d.offset.value else 0)
  }

  // ----- `datetime.fromisoformat` -----

  predicate AllDigits(s: string) {
    forall k :: 0 <= k < |s| ==> IsDigit(s[k])
  }

  /** A field of exactly `n` digits off the front of `s`, and the rest. */
  function Field(s: string, n: nat): Option<(nat, string)> {
    if n <= |s| && AllDigits(s[..n]) then Some((DigitsValue(s[..n]), s[n..])) else None
  }

  function Mark(s: string, c: char): Option<string> {
    if s != "" && s[0] == c then Some(s[1..]) else None
  }

  /** `±HH:MM` and nothing more, in microseconds. */
  function ReadOffset(s: string): Option<int> {
    var sign := if s != "" && s[0] == '-' then '-' else '+';
    var s0 :- Mark(s, sign);
    var (h, s1) :- Field(s0, 2);
    var s2 :- Mark(s1, ':');
    var (m, s3) :- Field(s2, 2);
    var offset := (h * 3600 + m * 60) * SECOND;
    if s3 == "" then Some(if sign == '+' then offset else -offset) else None
  }

  /** `HH:MM:SS.ffffff±HH:MM` */
  function ReadClock(y: nat, mo: nat, d: nat, s: string): Option<DateTime> {
    var (h, s1) :- Field(s, 2);
    var s2 :- Mark(s1, ':');
    var (mi, s3) :- Field(s2, 2);
    var s4 :- Mark(s3, ':');
    var (sec, s5) :- Field(s4, 2);
    var s6 :- Mark(s5, '.');
    var (f, s7) :- Field(s6, 6);
    var offset :- ReadOffset(s7);
    Some(DateTime(Civil(y, mo, d, h, mi, sec, f), Some(offset)))
  }

  /** `YYYY-MM-DDTHH:MM:SS.ffffff±HH:MM` */
  function ReadExtended(s: string): Option<DateTime> {
    var (y, s1) :- Field(s, 4);
    var s2 :- Mark(s1, '-');
    var (mo, s3) :- Field(s2, 2);
    var s4 :- Mark(s3, '-');
    var (d, s5) :- Field(s4, 2);
    var s6 :- Mark(s5, 'T');
    ReadClock(y, mo, d, s6)
  }

  /** The full-width form is read here; every other accepted spelling of ISO 8601
      is whatever `other` makes of it. */
  function FromIso(other: string -> Option<DateTime>, s: string): (d: Option<DateTime>)
    ensures d.Some? ==> ValidDateTime(d.value)
  {
    var extended := ReadExtended(s);
    var d := if extended.Some? then extended else other(s);
    if d.Some? && ValidDateTime(d.value) then d else None
  }

  // ----- The normaliser -----

  /** A trailing `Z` stands for `+00:00`. */
  function ZoneSpelled(text: string): string
    requires text != ""
  {
    if text[|text| - 1] in {'Z', 'z'} then text[..|text| - 1] + "+00:00" else text
  }

  /** The instant `raw` denotes, or why it is refused at time `now`. */
  function Accept(other: string -> Option<DateTime>, raw: string, now: int): (r: Result<int, Rejection>)
    ensures r.Ok? ==> 0 <= r.value < END_OF_TIME && r.value <= now + FUTURE_SLACK
  {
    var text := Strip(raw);
    if text == "" then Err(Empty) else
    match FromIso(other, ZoneSpelled(text))
    case None => Err(Unparseable)
    case Some(d) =>
      var t := UtcInstant(d);
      if t > now + FUTURE_SLACK then Err(Future)
      else if 0 <= t < END_OF_TIME then Ok(t)
      else Err(OutOfRange)
  }

  function Canonicalise(other: string -> Option<DateTime>, raw: string, now: int): Result<string, Rejection> {
    match Accept(other, raw, now)
    case Err(e) => Err(e)
    case Ok(t) => Ok(Canonical(UtcFields(t)))
  }

  /** Any two accepted timestamps give equal strings exactly if they denote one instant,
      and strings in the order of time exactly if their UTC years print in order. */
  lemma CanonicalSortsExactly(other: string -> Option<DateTime>, raw: string, now: int, raw': string, now': int)
    requires Accept(other, raw, now).Ok? && Accept(other, raw', now').Ok?
    ensures
      var (t, t') := (Accept(other, raw, now).value, Accept(other, raw', now').value);
      var (s, s') := (Canonicalise(other, raw, now), Canonicalise(other, raw', now'));
      && s.Ok? && s'.Ok?
      && ((Below(s.value, s'.value) <==> t < t') <==> PrintedInOrder(UtcFields(t).year, UtcFields(t').year))
      && (s.value == s'.value <==> t == t')
  {
    hide Accept, UtcFields;
    CanonicalOrderExactly(UtcFields(Accept(other, raw, now).value), UtcFields(Accept(other, raw', now').value));
  }

  predicate FourDigitInstant(t: int) {
    0 <= t < END_OF_TIME && 1000 <= UtcFields(t).year
  }

  /** Accepted timestamps, whatever their offsets, spellings and arrival times,
      compare as strings exactly as they compare in time. */
  lemma CanonicalSortsAsTime(other: string -> Option<DateTime>, raw: string, now: int, raw': string, now': int)
    requires Accept(other, raw, now).Ok? && FourDigitInstant(Accept(other, raw, now).value)
    requires Accept(other, raw', now').Ok? && FourDigitInstant(Accept(other, raw', now').value)
    ensures
      var (t, t') := (Accept(other, raw, now).value, Accept(other, raw', now').value);
      var (s, s') := (Canonicalise(other, raw, now), Canonicalise(other, raw', now'));
      && s.Ok? && s'.Ok?
      && (Below(s.value, s'.value) <==> t < t')
      && (s.value == s'.value <==> t == t')
  {
    var (a, b) := (UtcFields(Accept(other, raw, now).value), UtcFields(Accept(other, raw', now').value));
    FourDigitYear(a.year);
    FourDigitYear(b.year);
    CanonicalOrder(a, b);
  }

  lemma FieldReadsBack(n: nat, w: nat, rest: string)
    requires n < Pow10(w)
    ensures Field(Padded(n, w) + rest, w) == Some((n, rest))
  {
    PaddedValue(n, w);
    assert (Padded(n, w) + rest)[..w] == Padded(n, w);
  }

  lemma MarkReadsBack(c: char, rest: string)
    ensures Mark([c] + rest, c) == Some(rest)
  {
    assert ([c] + rest)[1..] == rest;
  }

  /** An offset of whole minutes as `isoformat` prints it: a sign, hours, minutes. */
  function OffsetText(minutes: int): string {
    var size := if minutes < 0 then -minutes else minutes;
    (if minutes < 0 then "-" else "+") + (Padded(size / 60, 2) + (":" + Padded(size % 60, 2)))
  }

  lemma OffsetReadsBack(minutes: int)
    requires -1440 < minutes < 1440
    ensures ReadOffset(OffsetText(minutes)) == Some(minutes * 60 * SECOND)
  {
    hide DigitsValue, AllDigits, Field, Mark, Padded;
    var size := if minutes < 0 then -minutes else minutes;
    var (h, m) := (Padded(size / 60, 2), Padded(size % 60, 2));
    assert Pow10(2) == 100;
    FieldReadsBack(size / 60, 2, ":" + m);
    FieldReadsBack(size % 60, 2, "");
    assert m + "" == m;
    MarkReadsBack(if minutes < 0 then '-' else '+', h + (":" + m));
    MarkReadsBack(':', m);
    assert size == 60 * (size / 60) + size % 60;
  }

  lemma ClockReadsBack(c: Civil, zone: string, offset: int)
    requires ValidCivil(c) && ReadOffset(zone) == Some(offset)
    ensures ReadClock(c.year, c.month, c.day, Clock(c, "." + (Padded(c.micro, 6) + zone))) ==
            Some(DateTime(c, Some(offset)))
  {
    hide ReadOffset, Field, Mark;
    var f := Padded(c.micro, 6) + zone;
    var s := Padded(c.second, 2) + ("." + f);
    var m := Padded(c.minute, 2) + (":" + s);
    assert Pow10(2) == 100;
    assert Pow10(6) == SECOND;
    FieldReadsBack(c.hour, 2, ":" + m);
    MarkReadsBack(':', m);
    FieldReadsBack(c.minute, 2, ":" + s);
    MarkReadsBack(':', s);
    FieldReadsBack(c.second, 2, "." + f);
    MarkReadsBack('.', f);
    FieldReadsBack(c.micro, 6, zone);
  }

  lemma StampReadsBack(c: Civil, zone: string, offset: int)
    requires ValidCivil(c) && ReadOffset(zone) == Some(offset)
    ensures ReadExtended(Stamped(4, c, "." + (Padded(c.micro, 6) + zone))) == Some(DateTime(c, Some(offset)))
  {
    hide ReadOffset, ReadClock, Clock, Field, Mark;
    var t := Clock(c, "." + (Padded(c.micro, 6) + zone));
    var d := Padded(c.day, 2) + ("T" + t);
    var m := Padded(c.month, 2) + ("-" + d);
    assert Pow10(2) == 100;
    assert Pow10(4) == 10_000;
    FieldReadsBack(c.year, 4, "-" + m);
    MarkReadsBack('-', m);
    FieldReadsBack(c.month, 2, "-" + d);
    MarkReadsBack('-', d);
    FieldReadsBack(c.day, 2, "T" + t);
    MarkReadsBack('T', t);
    ClockReadsBack(c, zone, offset);
  }

  lemma StampedAppend(w: nat, c: Civil, x: string, y: string)
    requires ValidCivil(c)
    ensures Stamped(w, c, x) + y == Stamped(w, c, x + y)
  {
    ClockAppend(c, x, y);
    var d := Padded(c.day, 2);
    assert (d + ("T" + Clock(c, x))) + y == d + ("T" + (Clock(c, x) + y));
    var m := Padded(c.month, 2) + ("-" + (d + ("T" + Clock(c, x))));
    assert m + y == Padded(c.month, 2) + ("-" + ((d + ("T" + Clock(c, x))) + y));
    assert (Padded(c.year, w) + ("-" + m)) + y == Padded(c.year, w) + ("-" + (m + y));
  }

  lemma ClockAppend(c: Civil, x: string, y: string)
    requires ValidCivil(c)
    ensures Clock(c, x) + y == Clock(c, x + y)
  {
    var s := Padded(c.second, 2) + x;
    assert s + y == Padded(c.second, 2) + (x + y);
    var m := Padded(c.minute, 2) + (":" + s);
    assert m + y == Padded(c.minute, 2) + (":" + (s + y));
    assert (Padded(c.hour, 2) + (":" + m)) + y == Padded(c.hour, 2) + (":" + (m + y));
  }

  /** The canonical string is read back as the very instant it was made from. */
  lemma CanonicalReadsBack(other: string -> Option<DateTime>, c: Civil)
    requires ValidCivil(c) && c.year >= 1000
    ensures Canonical(c) != "" && Canonical(c)[|Canonical(c)| - 1] == 'Z' && Strip(Canonical(c)) == Canonical(c)
    ensures FromIso(other, Canonical(c)[..|Canonical(c)| - 1] + "+00:00") == Some(DateTime(c, Some(0)))
  {
    FourDigitYear(c.year);
    var out := Canonical(c);
    var f := "." + Padded(c.micro, 6);
    StampedAppend(4, c, f, "Z");
    StampedAppend(4, c, f, "+00:00");
    assert out == Stamped(4, c, f) + "Z";
    assert out[0] == Padded(c.year, 4)[0];
    StripId(out);
    assert f + "+00:00" == "." + (Padded(c.micro, 6) + "+00:00");
    UtcOffsetReadsBack();
    StampReadsBack(c, "+00:00", 0);
  }

  lemma UtcOffsetReadsBack()
    ensures ReadOffset("+00:00") == Some(0)
  {
    OffsetReadsBack(0);
    assert Padded(0, 2) == "00";
    assert OffsetText(0) == "+00:00";
  }

  /** Canonicalising twice changes nothing, then or at any later time. */
  lemma CanonicaliseIdempotent(other: string -> Option<DateTime>, raw: string, now: int, later: int)
    requires Accept(other, raw, now).Ok? && FourDigitInstant(Accept(other, raw, now).value) && now <= later
    ensures
      var s := Canonicalise(other, raw, now).value;
      Canonicalise(other, s, later) == Ok(s)
  {
    var t := Accept(other, raw, now).value;
    CanonicalIsAccepted(other, t, now);
    CanonicalIsAccepted(other, t, later);
    hide *;
    CanonicaliseIs(other, raw, now);
    CanonicaliseIs(other, Canonical(UtcFields(t)), later);
  }

  lemma CanonicaliseIs(other: string -> Option<DateTime>, raw: string, now: int)
    ensures Accept(other, raw, now).Ok? ==>
      Canonicalise(other, raw, now) == Ok(Canonical(UtcFields(Accept(other, raw, now).value)))
  {
    hide Accept, Canonical, UtcFields;
  }

  lemma CanonicalIsAccepted(other: string -> Option<DateTime>, t: int, now: int)
    requires FourDigitInstant(t) && t <= now + FUTURE_SLACK
    ensures Accept(other, Canonical(UtcFields(t)), now) == Ok(t)
  {
    hide FromIso, Canonical, UtcFields, Strip;
    var c := UtcFields(t);
    CanonicalReadsBack(other, c);
    assert UtcInstant(DateTime(c, Some(0))) == t;
  }

  // ----- Which instant a timestamp denotes -----

  /** Whatever `raw` parses to, the string is that of the UTC fields `u` its offset leads
      to, or it lies in the future. */
  lemma DenotesUtc(other: string -> Option<DateTime>, raw: string, now: int, d: DateTime, u: Civil)
    requires Strip(raw) != "" && FromIso(other, ZoneSpelled(Strip(raw))) == Some(d) && ValidCivil(u)
    requires Instant(d.fields) == Instant(u) + (if d.offset.Some? then d.offset.value else 0)
    ensures
      Canonicalise(other, raw, now) == if Instant(u) <= now + 300_000_000 then Ok(Canonical(u)) else Err(Future)
  {
    hide FromIso, Strip, ZoneSpelled, Canonical, UtcFields, Instant;
    InstantInRange(u);
    assert UtcInstant(d) == Instant(u);
    if Instant(u) <= now + FUTURE_SLACK {
      InstantInjective(u, UtcFields(Instant(u)));
    }
  }

  lemma InstantInRange(u: Civil)
    requires ValidCivil(u)
    ensures 0 <= Instant(u) < END_OF_TIME
  {
    OrdinalInYear(u.year, u.month, u.day);
    YearsAscend(1, u.year);
    YearsAscend(u.year + 1, 10000);
  }

  /** The local fields with their offset, in the full-width form. */
  function Local(l: Civil, minutes: int): string
    requires ValidCivil(l)
  {
    Stamped(4, l, "." + (Padded(l.micro, 6) + OffsetText(minutes)))
  }

  lemma LocalIsRead(other: string -> Option<DateTime>, l: Civil, minutes: int)
    requires ValidCivil(l) && -1440 < minutes < 1440
    ensures Strip(Local(l, minutes)) == Local(l, minutes) != ""
    ensures FromIso(other, ZoneSpelled(Local(l, minutes))) == Some(DateTime(l, Some(minutes * 60 * SECOND)))
  {
    var s := Local(l, minutes);
    assert s[0] == Padded(l.year, 4)[0];
    LocalEnds(l, minutes);
    StripId(s);
    OffsetReadsBack(minutes);
    hide OffsetText, ReadOffset, Strip, Stamped;
    StampReadsBack(l, OffsetText(minutes), minutes * 60 * SECOND);
  }

  lemma LocalEnds(l: Civil, minutes: int)
    requires ValidCivil(l) && -1440 < minutes < 1440
    ensures Local(l, minutes) != "" && IsDigit(Local(l, minutes)[|Local(l, minutes)| - 1])
  {
    var (f, zone) := ("." + Padded(l.micro, 6), OffsetText(minutes));
    assert zone[|zone| - 1] == Padded((if minutes < 0 then -minutes else minutes) % 60, 2)[1];
    StampedAppend(4, l, f, zone);
    assert "." + (Padded(l.micro, 6) + zone) == f + zone;
    assert Local(l, minutes) == Stamped(4, l, f) + zone;
  }

  /** `YYYY-MM-DDTHH:MM:SS.ffffff±HH:MM` is the instant its fields name, less the offset:
      it canonicalises to that instant's UTC string, unless it lies in the future. */
  lemma OffsetsAreResolved(other: string -> Option<DateTime>, u: Civil, l: Civil, minutes: int, now: int)
    requires ValidCivil(u) && ValidCivil(l) && -1440 < minutes < 1440
    requires Instant(l) == Instant(u) + minutes * 60_000_000
    ensures
      Canonicalise(other, Local(l, minutes), now) ==
        if Instant(u) <= now + 300_000_000 then Ok(Canonical(u)) else Err(Future)
  {
    hide Local, Canonicalise, Canonical, Instant, FromIso, Strip, ZoneSpelled;
    LocalIsRead(other, l, minutes);
    DenotesUtc(other, Local(l, minutes), now, DateTime(l, Some(minutes * 60 * SECOND)), u);
  }

  /** So two spellings of one instant under different offsets give one string, or are both
      refused. */
  lemma OneInstantOneString(other: string -> Option<DateTime>, u: Civil, l: Civil, minutes: int,
                            l': Civil, minutes': int, now: int)
    requires ValidCivil(u) && ValidCivil(l) && ValidCivil(l') && -1440 < minutes < 1440 && -1440 < minutes' < 1440
    requires Instant(l) == Instant(u) + minutes * 60_000_000 && Instant(l') == Instant(u) + minutes' * 60_000_000
    ensures Canonicalise(other, Local(l, minutes), now) == Canonicalise(other, Local(l', minutes'), now)
  {
    hide Local, Canonicalise, Canonical, Instant;
    OffsetsAreResolved(other, u, l, minutes, now);
    OffsetsAreResolved(other, u, l', minutes', now);
  }

  /** A timestamp that parses without an offset is read as UTC. */
  lemma NaiveIsUtc(other: string -> Option<DateTime>, raw: string, now: int, u: Civil)
    requires Strip(raw) != "" && FromIso(other, ZoneSpelled(Strip(raw))) == Some(DateTime(u, None)) && ValidCivil(u)
    ensures
      Canonicalise(other, raw, now) == if Instant(u) <= now + 300_000_000 then Ok(Canonical(u)) else Err(Future)
  {
    hide Canonicalise, Canonical, Instant, FromIso, Strip, ZoneSpelled;
    DenotesUtc(other, raw, now, DateTime(u, None), u);
  }
}
