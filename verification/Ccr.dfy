/** Compress-cache-retrieve: originals kept under their content hash, evicted least
    retrieved first, given back through the marker. The hash is a parameter. */
module Ccr {
  import opened Text
  import opened Marker
  import opened Ordering

  // ----- The cache table -----

  datatype Verdict = Clean | Hit | Unknown

  /** One row of `ccr_cache`; rows are listed in rowid order. */
  datatype Row = Row(
    hash: string, original: string, project: string, created: int, retrievals: nat, verdict: Verdict,
    issuerAgent: Option<string>, issuerSession: Option<string>)

  predicate Keyed(row: Row, project: string, hash: string) {
    row.project == project && row.hash == hash
  }

  /** Position of the row with the key. */
  function Find(rows: seq<Row>, project: string, hash: string): (i: Option<nat>)
    ensures i.Some? ==> i.value < |rows| && Keyed(rows[i.value], project, hash)
    ensures i.None? ==> forall k :: 0 <= k < |rows| ==> !Keyed(rows[k], project, hash)
  {
    if rows == [] then None
    else if Keyed(rows[|rows| - 1], project, hash) then Some(|rows| - 1)
    else Find(rows[..|rows| - 1], project, hash)
  }

  /** The earliest created copy of a hash, whatever its project. */
  function FirstCopy(rows: seq<Row>, hash: string): (i: Option<nat>)
    ensures i.Some? ==> i.value < |rows| && rows[i.value].hash == hash
    ensures i.Some? ==> forall k :: 0 <= k < |rows| && rows[k].hash == hash ==> rows[i.value].created <= rows[k].created
    ensures i.Some? ==> forall k :: 0 <= k < i.value && rows[k].hash == hash ==> rows[i.value].created < rows[k].created
    ensures i.None? ==> forall k :: 0 <= k < |rows| ==> rows[k].hash != hash
  {
    if rows == [] then None
    else
      var (n, earlier) := (|rows| - 1, FirstCopy(rows[..|rows| - 1], hash));
      if rows[n].hash == hash && (earlier.None? || rows[n].created < rows[earlier.value].created) then Some(n)
      else earlier
  }

  /** `ccr_get`: scoped to a project when one is given, otherwise the first copy. */
  function Lookup(rows: seq<Row>, hash: string, project: Option<string>): Option<nat> {
    if project.Some? && project.value != "" then Find(rows, project.value, hash) else FirstCopy(rows, hash)
  }

  /** `ccr_store`: a new row, or the old one with a fresh verdict. */
  function Stored(rows: seq<Row>, row: Row): seq<Row> {
    var i := Find(rows, row.project, row.hash);
    if i.Some? then rows[i.value := rows[i.value].(verdict := row.verdict)] else rows + [row]
  }

  /** `ccr_touch`: one more retrieval on every copy of the hash, or on one project's. */
  function Touched(rows: seq<Row>, hash: string, project: Option<string>): (touched: seq<Row>)
    ensures |touched| == |rows|
  {
    seq(|rows|, i requires 0 <= i < |rows| =>
      if rows[i].hash == hash && (project.Some? ==> rows[i].project == project.value)
      then rows[i].(retrievals := rows[i].retrievals + 1) else rows[i])
  }

  predicate EvictedFirst(a: Row, b: Row) {
    a.retrievals < b.retrievals || (a.retrievals == b.retrievals && a.created <= b.created)
  }

  function Victims(rows: seq<Row>, maxEntries: nat): seq<Row> {
    StableSortLength(EvictedFirst, rows);
    if |rows| <= maxEntries then [] else StableSort(EvictedFirst, rows)[..|rows| - maxEntries]
  }

  function Without(rows: seq<Row>, victims: seq<Row>): (kept: seq<Row>)
    ensures forall r :: r in kept <==> r in rows && r !in victims
  {
    if rows == [] then []
    else Without(rows[..|rows| - 1], victims) + if rows[|rows| - 1] in victims then [] else [rows[|rows| - 1]]
  }

  /** `ccr_evict_lru` */
  function Evicted(rows: seq<Row>, maxEntries: nat): seq<Row> {
    Without(rows, Victims(rows, maxEntries))
  }

  class CcrCache {
    var rows: seq<Row>

    constructor ()
      ensures rows == []
    {
      rows := [];
    }

    method Store(row: Row)
      modifies this
      ensures rows == Stored(old(rows), row)
    {
      var i := Find(rows, row.project, row.hash);
      if i.Some? {
        rows := rows[i.value := rows[i.value].(verdict := row.verdict)];
      } else {
        rows := rows + [row];
      }
    }

    method EvictLru(maxEntries: nat)
      modifies this
      ensures rows == Evicted(old(rows), maxEntries)
    {
      var victims := Victims(rows, maxEntries);
      var kept: seq<Row> := [];
      for k := 0 to |rows|
        invariant rows == old(rows) && kept == Without(rows[..k], victims)
      {
        assert rows[..k + 1][..k] == rows[..k];
        if rows[k] !in victims {
          kept := kept + [rows[k]];
        }
      }
      assert rows[..|rows|] == rows;
      rows := kept;
    }

    /** `retrieve` without a query: the row as returned, its counter bumped first. */
    method Retrieve(hash: string, project: Option<string>, bump: bool) returns (entry: Option<Row>)
      modifies this
      ensures
        var i := Lookup(old(rows), hash, project);
        if i.None? then entry == None && rows == old(rows)
        else
          var read := old(rows)[i.value];
          entry == Some(if bump then read.(retrievals := read.retrievals + 1) else read)
          && rows == old(rows)[i.value := entry.value]
    {
      var i := Lookup(rows, hash, project);
      if i.None? {
        return None;
      }
      if bump {
        rows := rows[i.value := rows[i.value].(retrievals := rows[i.value].retrievals + 1)];
      }
      entry := Some(rows[i.value]);
    }

    /** `compress`; `body` is what the filter pipeline makes of the text. */
    method Compress(digest: string -> string, text: string, body: string, minSize: int, maxEntries: nat, row: Row)
      returns (compressed: string, cached: bool)
      requires row == NewRow(digest, text, row)
      modifies this
      ensures cached <==> |text| >= minSize
      ensures if cached then compressed == CompressedText(digest, text, body)
              && rows == Evicted(Stored(old(rows), row), maxEntries)
              else compressed == text && rows == old(rows)
    {
      if |text| < minSize {
        return text, false;
      }
      Store(row);
      var marker := BuildMarker(digest(text), |text|, |body|);
      compressed := marker + "\n" + body;
      EvictLru(maxEntries);
      cached := true;
    }
  }

  /** The row a compression stores: the caller's project, issuer, verdict and time. */
  function NewRow(digest: string -> string, text: string, row: Row): Row {
    row.(hash := digest(text), original := text, retrievals := 0)
  }

  function CompressedText(digest: string -> string, text: string, body: string): string {
    BuildMarker(digest(text), |text|, |body|) + "\n" + body
  }

  lemma {:induction false} FindAfterUpdate(rows: seq<Row>, project: string, hash: string, i: nat, verdict: Verdict)
    requires i < |rows|
    ensures Find(rows[i := rows[i].(verdict := verdict)], project, hash) == Find(rows, project, hash)
  {
    var n := |rows| - 1;
    var changed := rows[i := rows[i].(verdict := verdict)];
    if i < n {
      assert changed[..n] == rows[..n][i := rows[i].(verdict := verdict)];
      FindAfterUpdate(rows[..n], project, hash, i, verdict);
    } else {
      assert changed[..n] == rows[..n];
    }
  }

  /** After a store the row of the key carries the new verdict. A row that was there keeps
      text, issuer, time and counter, otherwise it is the stored one, at the end; every
      other row is as it was. */
  lemma StoredExactly(rows: seq<Row>, row: Row)
    ensures
      var (stored, before) := (Stored(rows, row), Find(rows, row.project, row.hash));
      var found := Find(stored, row.project, row.hash);
      && found.Some? && stored[found.value].verdict == row.verdict
      && (if before.Some? then
            |stored| == |rows| && found == before
            && stored[found.value].(verdict := rows[found.value].verdict) == rows[found.value]
          else |stored| == |rows| + 1 && found.value == |rows| && stored[found.value] == row)
      && forall k :: 0 <= k < |rows| && k != found.value ==> stored[k] == rows[k]
  {
    var before := Find(rows, row.project, row.hash);
    if before.Some? {
      FindAfterUpdate(rows, row.project, row.hash, before.value, row.verdict);
    }
  }

  // ----- Runs -----

  /** The hash is taken to be collision-free on the texts in question, no more. */
  ghost predicate NoCollision(digest: string -> string, texts: set<string>) {
    forall a, b :: a in texts && b in texts && digest(a) == digest(b) ==> a == b
  }

  ghost predicate UniqueKeys(rows: seq<Row>) {
    forall i, j :: 0 <= i < j < |rows| ==> !Keyed(rows[j], rows[i].project, rows[i].hash)
  }

  /** Each row holds one of the texts under that text's hash. */
  ghost predicate Genuine(digest: string -> string, rows: seq<Row>, texts: set<string>) {
    forall i :: 0 <= i < |rows| ==> rows[i].hash == digest(rows[i].original) && rows[i].original in texts
  }

  datatype Step =
    | CompressStep(text: string, row: Row, maxEntries: nat)
    | RetrieveStep(hash: string, project: Option<string>)
    | TouchStep(hash: string, project: Option<string>)
    | RemoveStep(victims: seq<Row>)

  function After(digest: string -> string, rows: seq<Row>, step: Step): seq<Row> {
    match step
    case CompressStep(text, row, maxEntries) => Evicted(Stored(rows, NewRow(digest, text, row)), maxEntries)
    case RetrieveStep(hash, project) =>
      var i := Lookup(rows, hash, project);
      if i.None? then rows else rows[i.value := rows[i.value].(retrievals := rows[i.value].retrievals + 1)]
    case TouchStep(hash, project) => Touched(rows, hash, project)
    case RemoveStep(victims) => Without(rows, victims)
  }

  function Rows(digest: string -> string, steps: seq<Step>): seq<Row> {
    if steps == [] then [] else After(digest, Rows(digest, steps[..|steps| - 1]), steps[|steps| - 1])
  }

  function TextsOf(step: Step): set<string> {
    if step.CompressStep? then {step.text} else {}
  }

  /** The texts compressed in the run. */
  function Compressed(steps: seq<Step>): set<string> {
    if steps == [] then {}
    else Compressed(steps[..|steps| - 1]) + TextsOf(steps[|steps| - 1])
  }

  lemma {:induction false} WithoutKeeps(digest: string -> string, rows: seq<Row>, texts: set<string>, victims: seq<Row>)
    requires UniqueKeys(rows) && Genuine(digest, rows, texts)
    ensures UniqueKeys(Without(rows, victims)) && Genuine(digest, Without(rows, victims), texts)
  {
    if rows != [] {
      var (front, last) := (rows[..|rows| - 1], rows[|rows| - 1]);
      WithoutKeeps(digest, front, texts, victims);
      var kept := Without(front, victims);
      forall i | 0 <= i < |kept|
        ensures !Keyed(last, kept[i].project, kept[i].hash)
      {
        assert kept[i] in front;
        var k :| 0 <= k < |front| && front[k] == kept[i];
        assert rows[k] == kept[i];
      }
    }
  }

  lemma StoredKeeps(digest: string -> string, rows: seq<Row>, texts: set<string>, text: string, row: Row)
    requires UniqueKeys(rows) && Genuine(digest, rows, texts)
    ensures UniqueKeys(Stored(rows, NewRow(digest, text, row)))
    ensures Genuine(digest, Stored(rows, NewRow(digest, text, row)), texts + {text})
  {
  }

  lemma AfterKeeps(digest: string -> string, rows: seq<Row>, texts: set<string>, step: Step)
    requires UniqueKeys(rows) && Genuine(digest, rows, texts)
    ensures UniqueKeys(After(digest, rows, step)) && Genuine(digest, After(digest, rows, step), texts + TextsOf(step))
  {
    hide Without, Stored, Victims;
    match step
    case CompressStep(text, row, maxEntries) =>
      var stored := Stored(rows, NewRow(digest, text, row));
      StoredKeeps(digest, rows, texts, text, row);
      WithoutKeeps(digest, stored, texts + {text}, Victims(stored, maxEntries));
    case RetrieveStep(_, _) =>
    case TouchStep(_, _) =>
    case RemoveStep(victims) => WithoutKeeps(digest, rows, texts, victims);
  }

  /** In every run keys stay unique and every row holds a text of the run under its hash. */
  lemma {:induction false} RunKeeps(digest: string -> string, steps: seq<Step>)
    ensures UniqueKeys(Rows(digest, steps)) && Genuine(digest, Rows(digest, steps), Compressed(steps))
  {
    hide After, TextsOf;
    if steps != [] {
      var front := steps[..|steps| - 1];
      RunKeeps(digest, front);
      AfterKeeps(digest, Rows(digest, front), Compressed(front), steps[|steps| - 1]);
    }
  }

  /** No run ever gives back anything but the text that was compressed, and a scoped
      lookup never gives back another project's row. */
  lemma RetrievedIsTheOriginal(digest: string -> string, steps: seq<Step>, text: string, project: Option<string>)
    requires NoCollision(digest, Compressed(steps) + {text})
    ensures
      var (rows, i) := (Rows(digest, steps), Lookup(Rows(digest, steps), digest(text), project));
      && (i.Some? ==> rows[i.value].original == text)
      && (i.Some? && project.Some? && project.value != "" ==> rows[i.value].project == project.value)
  {
    RunKeeps(digest, steps);
  }

  // ----- Which rows outlive an eviction -----

  predicate Ahead(a: Row, b: Row) {
    EvictedFirst(a, b) && !EvictedFirst(b, a)
  }

  /** How many of the rows eviction takes strictly before `row`. */
  function AheadOf(rows: seq<Row>, row: Row): (n: nat)
    ensures n <= |rows|
  {
    if rows == [] then 0 else (if Ahead(rows[0], row) then 1 else 0) + AheadOf(rows[1..], row)
  }

  /** How many rows go before the one at `i`: fewer retrievals, then older, then
      the lower rowid. */
  function Rank(rows: seq<Row>, i: nat): nat
    requires i < |rows|
  {
    if i == 0 then AheadOf(rows[1..], rows[0])
    else (if EvictedFirst(rows[0], rows[i]) then 1 else 0) + Rank(rows[1..], i - 1)
  }

  lemma {:induction false} InsertCounts(x: Row, rows: seq<Row>, row: Row)
    ensures AheadOf(Insert(EvictedFirst, x, rows), row) == AheadOf([x] + rows, row)
  {
    assert ([x] + rows)[1..] == rows;
    if rows != [] && !EvictedFirst(x, rows[0]) {
      InsertCounts(x, rows[1..], row);
      var rest := Insert(EvictedFirst, x, rows[1..]);
      assert ([rows[0]] + rest)[1..] == rest && ([x] + rows[1..])[1..] == rows[1..];
    }
  }

  lemma {:induction false} SortCounts(rows: seq<Row>, row: Row)
    ensures AheadOf(StableSort(EvictedFirst, rows), row) == AheadOf(rows, row)
  {
    if rows != [] {
      var rest := StableSort(EvictedFirst, rows[1..]);
      SortCounts(rows[1..], row);
      InsertCounts(rows[0], rest, row);
      assert ([rows[0]] + rest)[1..] == rest;
    }
  }

  lemma {:induction false} AheadIsAPrefix(sorted: seq<Row>, row: Row)
    requires Sorted(EvictedFirst, sorted)
    ensures forall j :: 0 <= j < |sorted| ==> (Ahead(sorted[j], row) <==> j < AheadOf(sorted, row))
  {
    if sorted != [] {
      AheadIsAPrefix(sorted[1..], row);
      assert forall j :: 1 <= j < |sorted| ==> sorted[j] == sorted[1..][j - 1] && EvictedFirst(sorted[0], sorted[j]);
    }
  }

  lemma {:induction false} InsertAt(x: Row, sorted: seq<Row>)
    requires Sorted(EvictedFirst, sorted)
    ensures Insert(EvictedFirst, x, sorted) == sorted[..AheadOf(sorted, x)] + [x] + sorted[AheadOf(sorted, x)..]
  {
    hide Ahead;
    if sorted == [] || EvictedFirst(x, sorted[0]) {
      NoneAhead(x, sorted);
    } else {
      InsertAt(x, sorted[1..]);
      SomeAhead(x, sorted);
      var (y, tail, p) := (sorted[0], sorted[1..], AheadOf(sorted[1..], x));
      assert sorted[..p + 1] == [y] + tail[..p];
      Regroup([y], tail[..p], [x], tail[p..]);
    }
  }

  lemma NoneAhead(x: Row, sorted: seq<Row>)
    requires Sorted(EvictedFirst, sorted) && (sorted == [] || EvictedFirst(x, sorted[0]))
    ensures AheadOf(sorted, x) == 0
  {
    AheadIsAPrefix(sorted, x);
  }

  lemma SomeAhead(x: Row, sorted: seq<Row>)
    requires sorted != [] && !EvictedFirst(x, sorted[0])
    ensures AheadOf(sorted, x) == 1 + AheadOf(sorted[1..], x)
  {
  }

  lemma InsertShifts(x: Row, sorted: seq<Row>, k: nat)
    requires Sorted(EvictedFirst, sorted) && k < |sorted|
    ensures
      var (s, shifted) := (Insert(EvictedFirst, x, sorted), k + if EvictedFirst(x, sorted[k]) then 1 else 0);
      shifted < |s| && s[shifted] == sorted[k]
  {
    hide Insert, AheadOf;
    InsertAt(x, sorted);
    AheadIsAPrefix(sorted, x);
  }

  /** The eviction order puts each row exactly at its rank. */
  lemma {:induction false} RankIsThePosition(rows: seq<Row>, i: nat)
    requires i < |rows|
    ensures Rank(rows, i) < |StableSort(EvictedFirst, rows)| && StableSort(EvictedFirst, rows)[Rank(rows, i)] == rows[i]
  {
    hide Insert, Ahead, AheadOf, EvictedFirst;
    var (x, tail) := (rows[0], rows[1..]);
    var sorted := StableSort(EvictedFirst, tail);
    EvictionIsTotal();
    StableSortSorts(EvictedFirst, tail);
    if i == 0 {
      InsertAt(x, sorted);
      SortCounts(tail, x);
    } else {
      RankIsThePosition(tail, i - 1);
      InsertShifts(x, sorted, Rank(tail, i - 1));
    }
  }

  lemma EvictionIsTotal()
    ensures TotalPreorder(EvictedFirst)
  {
  }

  lemma DistinctRows(rows: seq<Row>)
    requires UniqueKeys(rows)
    ensures Distinct(rows)
  {
    forall i, j | 0 <= i < j < |rows|
      ensures rows[i] != rows[j]
    {
      assert !Keyed(rows[j], rows[i].project, rows[i].hash);
    }
  }

  /** A row outlives an eviction exactly when enough rows go before it. */
  lemma SurvivesExactly(rows: seq<Row>, i: nat, maxEntries: nat)
    requires UniqueKeys(rows) && i < |rows|
    ensures rows[i] in Evicted(rows, maxEntries) <==> |rows| - maxEntries <= Rank(rows, i)
  {
    var (sorted, k, excess) := (StableSort(EvictedFirst, rows), Rank(rows, i), |rows| - maxEntries);
    EvictionIsTotal();
    StableSortSorts(EvictedFirst, rows);
    StableSortLength(EvictedFirst, rows);
    DistinctRows(rows);
    DistinctPermuted(rows, sorted);
    RankIsThePosition(rows, i);
    if excess > 0 {
      assert k < excess ==> sorted[..excess][k] == rows[i];
      assert rows[i] in sorted[..excess] ==> k < excess;
    }
  }

  // ----- Does a marker redeem right after it was minted? -----

  /** A row `retrieve` can answer from; no project, or the empty one, reads them all. */
  predicate Copy(row: Row, reader: Option<string>, hash: string) {
    row.hash == hash && (reader.Some? && reader.value != "" ==> row.project == reader.value)
  }

  /** Some copy of the hash has enough rows ahead of it to outlive the eviction. */
  ghost predicate CopyOutlives(rows: seq<Row>, reader: Option<string>, hash: string, maxEntries: nat) {
    exists i :: 0 <= i < |rows| && Copy(rows[i], reader, hash) && |rows| - maxEntries <= Rank(rows, i)
  }

  lemma LookupFindsCopies(rows: seq<Row>, reader: Option<string>, hash: string)
    ensures
      var found := Lookup(rows, hash, reader);
      && (found.Some? <==> exists r :: r in rows && Copy(r, reader, hash))
      && (found.Some? ==> found.value < |rows| && Copy(rows[found.value], reader, hash))
  {
    var found := Lookup(rows, hash, reader);
    if found.Some? {
      assert rows[found.value] in rows;
    }
  }

  lemma RedeemsExactly(rows: seq<Row>, reader: Option<string>, hash: string, maxEntries: nat)
    requires UniqueKeys(rows)
    ensures Lookup(Evicted(rows, maxEntries), hash, reader).Some? <==> CopyOutlives(rows, reader, hash, maxEntries)
  {
    hide Lookup, Rank, Copy, Evicted;
    var after := Evicted(rows, maxEntries);
    LookupFindsCopies(after, reader, hash);
    forall i | 0 <= i < |rows|
      ensures rows[i] in after <==> |rows| - maxEntries <= Rank(rows, i)
    {
      SurvivesExactly(rows, i, maxEntries);
    }
    EvictedIsAPart(rows, maxEntries);
    forall r | r in after
      ensures exists i :: 0 <= i < |rows| && rows[i] == r
    {
      assert r in rows;
    }
  }

  lemma EvictedIsAPart(rows: seq<Row>, maxEntries: nat)
    ensures forall r :: r in Evicted(rows, maxEntries) ==> r in rows
  {
  }

  lemma MarkerOfCompressed(digest: string -> string, digits: map<char, nat>, text: string, body: string)
    requires IsHash(digest(text)) && DigitTable(digits)
    ensures
      var marker := ParseMarker(digits, CompressedText(digest, text, body));
      marker.Some? && marker.value.hash == digest(text)
      && marker.value.originalChars == |text| && marker.value.compressedChars == |body|
  {
    hide BuildMarker, ParseMarker, IsHash, MarkerIn;
    assert CompressedText(digest, text, body) == "" + BuildMarker(digest(text), |text|, |body|) + ("\n" + body);
    NothingIsAMarker(digits);
    ParseOfBuilt(digits, "", digest(text), |text|, |body|, "\n" + body);
  }

  lemma NothingIsAMarker(digits: map<char, nat>)
    requires DigitTable(digits)
    ensures forall i, j :: !MarkerIn(digits, "", i, j)
  {
    hide IsMarker;
    forall i: nat, j: nat
      ensures !MarkerIn(digits, "", i, j)
    {
      if MarkerIn(digits, "", i, j) {
        MarkerShape(digits, ""[i..j]);
      }
    }
  }

  /** After any run, compressing any text mints a marker that reads as the text's hash
      and sizes. Redeeming it at once finds something if and only if the cache, with
      the row stored, holds a copy of the hash that the reader may see and that at
      least as many rows precede as eviction takes; and what is found is the text. */
  lemma MarkerRedeemsExactly(digest: string -> string, digits: map<char, nat>, steps: seq<Step>,
                             text: string, body: string, row: Row, maxEntries: nat, reader: Option<string>)
    requires NoCollision(digest, Compressed(steps) + {text}) && IsHash(digest(text)) && DigitTable(digits)
    requires row == NewRow(digest, text, row)
    ensures
      var marker := ParseMarker(digits, CompressedText(digest, text, body));
      marker.Some? && marker.value.hash == digest(text)
      && marker.value.originalChars == |text| && marker.value.compressedChars == |body|
    ensures
      var stored := Stored(Rows(digest, steps), row);
      var after := Evicted(stored, maxEntries);
      var found := Lookup(after, digest(text), reader);
      && (found.Some? <==> CopyOutlives(stored, reader, digest(text), maxEntries))
      && (found.Some? ==> after[found.value].original == text)
  {
    hide ParseMarker, CompressedText, IsHash, CopyOutlives;
    MarkerOfCompressed(digest, digits, text, body);
    var more := steps + [CompressStep(text, row, maxEntries)];
    assert more[..|more| - 1] == steps;
    RunKeeps(digest, steps);
    StoredKeeps(digest, Rows(digest, steps), Compressed(steps), text, row);
    RedeemsExactly(Stored(Rows(digest, steps), row), reader, digest(text), maxEntries);
    RetrievedIsTheOriginal(digest, more, text, reader);
  }

  // ----- The condition on the cache before the call -----

  /** Rows nobody ever retrieved. */
  function Idle(rows: seq<Row>): nat {
    if rows == [] then 0 else (if rows[0].retrievals == 0 then 1 else 0) + Idle(rows[1..])
  }

  lemma {:induction false} NewestIsBehindTheIdle(rows: seq<Row>, row: Row)
    requires row.retrievals == 0 && forall i :: 0 <= i < |rows| ==> rows[i].created <= row.created
    ensures Rank(rows + [row], |rows|) == Idle(rows)
  {
    if rows == [] {
      assert ([row])[1..] == [];
    } else {
      assert (rows + [row])[1..] == rows[1..] + [row];
      NewestIsBehindTheIdle(rows[1..], row);
    }
  }

  /** A text without a readable copy in the cache, stamped no earlier than any row,
      redeems if and only if the cache has room or holds enough rows nobody has
      retrieved. In a full cache whose every row has been retrieved, the row just
      stored is the one evicted. */
  lemma FreshRedeemsExactly(rows: seq<Row>, row: Row, maxEntries: nat, reader: Option<string>)
    requires UniqueKeys(rows) && row.retrievals == 0 && Copy(row, reader, row.hash)
    requires forall i :: 0 <= i < |rows| ==> !Copy(rows[i], reader, row.hash) && rows[i].created <= row.created
    ensures
      var found := Lookup(Evicted(Stored(rows, row), maxEntries), row.hash, reader);
      found.Some? <==> |rows| + 1 - maxEntries <= Idle(rows)
  {
    hide Lookup, Evicted, Idle, Rank;
    var stored := rows + [row];
    assert Stored(rows, row) == stored;
    NewestIsBehindTheIdle(rows, row);
    RedeemsExactly(stored, reader, row.hash, maxEntries);
    assert stored[|rows|] == row;
  }

  lemma {:induction false} AheadIgnoresVerdict(rows: seq<Row>, row: Row, verdict: Verdict)
    ensures AheadOf(rows, row.(verdict := verdict)) == AheadOf(rows, row)
  {
    if rows != [] {
      AheadIgnoresVerdict(rows[1..], row, verdict);
    }
  }

  lemma {:induction false} RankIgnoresVerdict(rows: seq<Row>, i: nat, verdict: Verdict)
    requires i < |rows|
    ensures Rank(rows[i := rows[i].(verdict := verdict)], i) == Rank(rows, i)
  {
    var changed := rows[i := rows[i].(verdict := verdict)];
    if i == 0 {
      assert changed[1..] == rows[1..];
      AheadIgnoresVerdict(rows[1..], rows[0], verdict);
    } else {
      assert changed[1..] == rows[1..][i - 1 := rows[i].(verdict := verdict)];
      RankIgnoresVerdict(rows[1..], i - 1, verdict);
    }
  }

  /** A text its project has cached before redeems there if and only if the old row
      outlives the eviction; the fresh verdict is no help. */
  lemma CachedRedeemsExactly(rows: seq<Row>, row: Row, i: nat, maxEntries: nat)
    requires UniqueKeys(rows) && i < |rows| && Keyed(rows[i], row.project, row.hash) && row.project != ""
    ensures
      var found := Lookup(Evicted(Stored(rows, row), maxEntries), row.hash, Some(row.project));
      found.Some? <==> |rows| - maxEntries <= Rank(rows, i)
  {
    hide Lookup, Evicted, Rank;
    assert Find(rows, row.project, row.hash) == Some(i);
    var stored := rows[i := rows[i].(verdict := row.verdict)];
    RankIgnoresVerdict(rows, i, row.verdict);
    RedeemsExactly(stored, Some(row.project), row.hash, maxEntries);
    assert Copy(stored[i], Some(row.project), row.hash);
    assert forall k :: 0 <= k < |stored| && k != i ==> !Copy(stored[k], Some(row.project), row.hash);
  }

  // ----- A cache that refuses every new text -----

  /** Compress each text and retrieve it once. */
  function FillSteps(digest: string -> string, texts: seq<string>, row: Row, maxEntries: nat): seq<Step> {
    if texts == [] then []
    else
      var last := texts[|texts| - 1];
      FillSteps(digest, texts[..|texts| - 1], row, maxEntries)
      + [CompressStep(last, row, maxEntries), RetrieveStep(digest(last), Some(row.project))]
  }

  function ReadOnce(digest: string -> string, texts: seq<string>, row: Row): (rows: seq<Row>)
    ensures |rows| == |texts|
    ensures forall i :: 0 <= i < |rows| ==> rows[i] == NewRow(digest, texts[i], row).(retrievals := 1)
  {
    seq(|texts|, i requires 0 <= i < |texts| => NewRow(digest, texts[i], row).(retrievals := 1))
  }

  ghost predicate DistinctDigests(digest: string -> string, texts: seq<string>) {
    forall i, j :: 0 <= i < j < |texts| ==> digest(texts[i]) != digest(texts[j])
  }

  lemma {:induction false} WithoutNobody(rows: seq<Row>)
    ensures Without(rows, []) == rows
  {
    if rows != [] {
      WithoutNobody(rows[..|rows| - 1]);
    }
  }

  lemma RoomForOne(rows: seq<Row>, row: Row, maxEntries: nat)
    requires |rows| < maxEntries && forall i :: 0 <= i < |rows| ==> !Keyed(rows[i], row.project, row.hash)
    ensures Evicted(Stored(rows, row), maxEntries) == rows + [row]
    ensures Find(rows + [row], row.project, row.hash) == Some(|rows|)
  {
    WithoutNobody(rows + [row]);
    assert (rows + [row])[|rows|] == row;
  }

  lemma OneMoreReadOnce(digest: string -> string, texts: seq<string>, text: string, row: Row, maxEntries: nat)
    requires DistinctDigests(digest, texts + [text]) && |texts| < maxEntries && row.project != ""
    ensures
      var rows := After(digest, ReadOnce(digest, texts, row), CompressStep(text, row, maxEntries));
      After(digest, rows, RetrieveStep(digest(text), Some(row.project))) == ReadOnce(digest, texts + [text], row)
  {
    hide Find, FirstCopy, Stored, Evicted;
    var (before, newest) := (ReadOnce(digest, texts, row), NewRow(digest, text, row));
    forall i | 0 <= i < |before|
      ensures before[i].hash != digest(text)
    {
      assert (texts + [text])[i] == texts[i] && (texts + [text])[|texts|] == text;
    }
    RoomForOne(before, newest, maxEntries);
    var stored := before + [newest];
    assert stored[|before|] == newest;
    assert stored[|before| := newest.(retrievals := 1)] == ReadOnce(digest, texts + [text], row);
  }

  lemma {:induction false} RunThatFills(digest: string -> string, texts: seq<string>, row: Row, maxEntries: nat)
    requires DistinctDigests(digest, texts) && |texts| <= maxEntries && row.project != ""
    ensures Rows(digest, FillSteps(digest, texts, row, maxEntries)) == ReadOnce(digest, texts, row)
  {
    hide After, ReadOnce;
    if texts == [] {
    } else {
      var (front, last) := (texts[..|texts| - 1], texts[|texts| - 1]);
      var steps := FillSteps(digest, front, row, maxEntries);
      RunThatFills(digest, front, row, maxEntries);
      assert front + [last] == texts;
      OneMoreReadOnce(digest, front, last, row, maxEntries);
      var (compress, retrieve) := (CompressStep(last, row, maxEntries), RetrieveStep(digest(last), Some(row.project)));
      assert (steps + [compress])[..|steps|] == steps;
      assert (steps + [compress, retrieve])[..|steps| + 1] == steps + [compress];
    }
  }

  lemma {:induction false} NoneIdle(rows: seq<Row>)
    requires forall i :: 0 <= i < |rows| ==> rows[i].retrievals > 0
    ensures Idle(rows) == 0
  {
    if rows != [] {
      NoneIdle(rows[1..]);
    }
  }

  /** For any capacity, once as many texts as it holds have been compressed and read
      once each, the marker of the next new text does not redeem. */
  lemma FullCacheRefuses(digest: string -> string, texts: seq<string>, text: string, row: Row)
    requires DistinctDigests(digest, texts + [text]) && texts != [] && row.project != ""
    ensures
      var rows := Rows(digest, FillSteps(digest, texts, row, |texts|));
      var after := After(digest, rows, CompressStep(text, row, |texts|));
      |rows| == |texts| && Lookup(after, digest(text), Some(row.project)) == None
  {
    hide Lookup, Evicted, Idle, Rows, FillSteps;
    var newest := NewRow(digest, text, row);
    assert forall i :: 0 <= i < |texts| ==> (texts + [text])[i] == texts[i];
    assert (texts + [text])[|texts|] == text;
    RunThatFills(digest, texts, row, |texts|);
    var rows := ReadOnce(digest, texts, row);
    NoneIdle(rows);
    RunKeeps(digest, FillSteps(digest, texts, row, |texts|));
    FreshRedeemsExactly(rows, newest, |texts|, Some(row.project));
  }

  // ----- A digest that meets the hypotheses -----

  /** The length in 64 decimal digits. */
  function LengthDigest(text: string): string {
    Padded(|text|, 64)
  }

  lemma LengthDigestIsHash(text: string)
    ensures IsHash(LengthDigest(text))
  {
  }

  /** It does not collide on any texts of different lengths. */
  lemma LengthDigestTellsApart(texts: set<string>)
    requires forall a, b :: a in texts && b in texts && |a| == |b| ==> a == b
    requires forall a :: a in texts ==> |a| < Pow10(64)
    ensures NoCollision(LengthDigest, texts)
  {
    forall a, b | a in texts && b in texts && LengthDigest(a) == LengthDigest(b)
      ensures a == b
    {
      PaddedValue(|a|, 64);
      PaddedValue(|b|, 64);
    }
  }

  /** Texts of the lengths below `n`. */
  function Fillers(n: nat): (texts: seq<string>)
    ensures |texts| == n && forall i :: 0 <= i < n ==> |texts[i]| == i
  {
    if n == 0 then [] else Fillers(n - 1) + [seq(n - 1, i => 'x')]
  }

  /** So the hypotheses of the theorems can be met together: for any capacity a hash can
      count, a run that fills the cache and then refuses a text. */
  lemma SomeCacheRefuses(capacity: nat, row: Row)
    requires 1 <= capacity && capacity + 1 < Pow10(64) && row.project != ""
    ensures
      var (texts, text) := (Fillers(capacity + 1)[..capacity], Fillers(capacity + 1)[capacity]);
      var steps := FillSteps(LengthDigest, texts, row, capacity);
      var rows := Rows(LengthDigest, steps);
      var after := After(LengthDigest, rows, CompressStep(text, row, capacity));
      && NoCollision(LengthDigest, Compressed(steps) + {text}) && IsHash(LengthDigest(text))
      && |rows| == capacity && Lookup(after, LengthDigest(text), Some(row.project)) == None
  {
    hide After, Lookup, Rows, FillSteps, LengthDigest, NoCollision, IsHash, Fillers, Pow10;
    var all := Fillers(capacity + 1);
    var (texts, text) := (all[..capacity], all[capacity]);
    assert texts + [text] == all;
    LengthDigestIsHash(text);
    FillersDiffer(all);
    FullCacheRefuses(LengthDigest, texts, text, row);
    FilledTexts(LengthDigest, texts, row, capacity);
    LengthDigestTellsApart((set t | t in texts) + {text});
  }

  lemma FillersDiffer(all: seq<string>)
    requires |all| < Pow10(64) && forall i :: 0 <= i < |all| ==> |all[i]| == i
    ensures DistinctDigests(LengthDigest, all)
  {
    forall i, j | 0 <= i < j < |all|
      ensures LengthDigest(all[i]) != LengthDigest(all[j])
    {
      PaddedValue(i, 64);
      PaddedValue(j, 64);
    }
  }

  lemma {:induction false} FilledTexts(digest: string -> string, texts: seq<string>, row: Row, maxEntries: nat)
    ensures Compressed(FillSteps(digest, texts, row, maxEntries)) == set t | t in texts
  {
    if texts != [] {
      var (front, last) := (texts[..|texts| - 1], texts[|texts| - 1]);
      FilledTexts(digest, front, row, maxEntries);
      TwoMoreCompressed(FillSteps(digest, front, row, maxEntries), CompressStep(last, row, maxEntries),
                        RetrieveStep(digest(last), Some(row.project)));
      assert texts == front + [last];
    }
  }

  lemma TwoMoreCompressed(steps: seq<Step>, compress: Step, retrieve: Step)
    requires compress.CompressStep? && retrieve.RetrieveStep?
    ensures Compressed(steps + [compress, retrieve]) == Compressed(steps) + {compress.text}
  {
    assert (steps + [compress])[..|steps|] == steps;
    assert (steps + [compress, retrieve])[..|steps| + 1] == steps + [compress];
  }
}
