/** Documents as memory rows: born quarantined, released or refused by the sweep. */
module DocIngest {
  import opened Text
  import opened Chunker

  const MAX_CHUNKS_PER_DOC: nat := 500
  const BORN_REASON: string := "doc-ingest-born-quarantine"
  const DETECTOR_ERROR: string := "detector-error"
  const SWEEP_PREFIX: string := "doc-sweep:"

  datatype Status = Raw | Processed | Published

  /** `docId` is absent on rows that are no document chunk. */
  datatype Row = Row(
    docId: Option<string>, content: string, chunkIdx: nat, headingPath: seq<string>,
    status: Status, quarantined: bool, reason: Option<string>, swept: bool)

  /** What context may be assembled from. */
  predicate Admissible(row: Row) {
    row.status != Raw && !row.quarantined
  }

  /** What the detectors say of one chunk. */
  datatype Verdict = Clean | Positive(classes: string) | ScannerError

  type Rows = map<string, Row>

  // ----- The sweep -----

  /** Only rows still carrying the birth reason may be swept. */
  predicate Sweepable(row: Row) {
    row.quarantined && row.reason == Some(BORN_REASON)
  }

  function SweptRow(row: Row, verdict: Verdict): Row {
    if !Sweepable(row) then row
    else
      match verdict
      case ScannerError => row.(reason := Some(DETECTOR_ERROR))
      case Positive(classes) => row.(reason := Some(SWEEP_PREFIX + classes))
      case Clean => row.(quarantined := false, status := Published, reason := None, swept := true)
  }

  function SweptOne(rows: Rows, id: string, verdict: Verdict): Rows {
    if id in rows then rows[id := SweptRow(rows[id], verdict)] else rows
  }

  function SweptAll(rows: Rows, ids: seq<string>, scan: string -> Verdict): Rows {
    if ids == [] then rows
    else
      var (front, id) := (ids[..|ids| - 1], ids[|ids| - 1]);
      SweptOne(SweptAll(rows, front, scan), id, scan(id))
  }

  /** Is the row swept now, and how many of the listed rows get which outcome? */
  predicate Decides(rows: Rows, id: string) {
    id in rows && Sweepable(rows[id])
  }

  function Releases(rows: Rows, ids: seq<string>, scan: string -> Verdict): nat {
    if ids == [] then 0
    else
      var (front, id) := (ids[..|ids| - 1], ids[|ids| - 1]);
      Releases(rows, front, scan) + if Decides(SweptAll(rows, front, scan), id) && scan(id) == Clean then 1 else 0
  }

  function Refusals(rows: Rows, ids: seq<string>, scan: string -> Verdict): nat {
    if ids == [] then 0
    else
      var (front, id) := (ids[..|ids| - 1], ids[|ids| - 1]);
      Refusals(rows, front, scan) + if Decides(SweptAll(rows, front, scan), id) && scan(id) != Clean then 1 else 0
  }

  lemma NotBornAgain(row: Row, verdict: Verdict)
    ensures Sweepable(row) ==> !Sweepable(SweptRow(row, verdict))
    ensures Sweepable(row) ==> (Admissible(SweptRow(row, verdict)) <==> verdict == Clean)
    ensures SweptRow(SweptRow(row, verdict), verdict) == SweptRow(row, verdict)
  {
    assert |DETECTOR_ERROR| != |BORN_REASON|;
    assert forall classes: string :: (SWEEP_PREFIX + classes)[4] != BORN_REASON[4];
  }

  /** What a sweep writes on a waiting row, and that it never touches the text: clean is
      published and marked as swept, anything else stays quarantined under its reason. */
  lemma SweepWrites(row: Row, verdict: Verdict)
    ensures
      var after := SweptRow(row, verdict);
      && (after.docId, after.content, after.chunkIdx, after.headingPath)
           == (row.docId, row.content, row.chunkIdx, row.headingPath)
      && (!(row.quarantined && row.reason == Some("doc-ingest-born-quarantine")) ==> after == row)
      && (row.quarantined && row.reason == Some("doc-ingest-born-quarantine") ==>
            match verdict
            case Clean => after.status == Published && !after.quarantined && after.reason == None && after.swept
            case Positive(classes) =>
              after.quarantined && after.reason == Some("doc-sweep:" + classes) && after.status == row.status
            case ScannerError =>
              after.quarantined && after.reason == Some("detector-error") && after.status == row.status)
  {
  }

  /** After a sweep every row is decided by its own state and its own verdict: neither
      siblings, nor their order, nor repetitions in the list matter. */
  lemma {:induction false} SiblingsDoNotMatter(rows: Rows, ids: seq<string>, scan: string -> Verdict, id: string)
    ensures id in SweptAll(rows, ids, scan) <==> id in rows
    ensures id in rows ==>
      SweptAll(rows, ids, scan)[id] == if id in ids then SweptRow(rows[id], scan(id)) else rows[id]
  {
    if ids != [] {
      var front := ids[..|ids| - 1];
      SiblingsDoNotMatter(rows, front, scan, id);
      assert id in ids <==> id in front || id == ids[|ids| - 1];
      if id in rows {
        NotBornAgain(rows[id], scan(id));
      }
    }
  }

  // ----- Planting chunks -----

  /** `_build_chunk_row`, and what the first-ingest path reaches after add and
      quarantine. */
  function BornRow(docId: string, piece: Piece, idx: nat): Row {
    Row(Some(docId), piece.content, idx, piece.path, Raw, true, Some(BORN_REASON), false)
  }

  function WithoutDoc(rows: Rows, docId: string): Rows {
    map id | id in rows && rows[id].docId != Some(docId) :: rows[id]
  }

  function Planted(rows: Rows, docId: string, pieces: seq<Piece>, ids: seq<string>): Rows
    requires |pieces| == |ids|
  {
    if pieces == [] then rows
    else
      var n := |pieces| - 1;
      Planted(rows, docId, pieces[..n], ids[..n])[ids[n] := BornRow(docId, pieces[n], n)]
  }

  function Kept(text: string): seq<Piece> {
    var pieces := Produced(text);
    if |pieces| > MAX_CHUNKS_PER_DOC then pieces[..MAX_CHUNKS_PER_DOC] else pieces
  }

  ghost predicate Fresh(rows: Rows, ids: seq<string>) {
    (forall i :: 0 <= i < |ids| ==> ids[i] !in rows)
    && (forall i, j :: 0 <= i < j < |ids| ==> ids[i] != ids[j])
  }

  /** The rows after a completed ingest. */
  function Ingested(rows: Rows, docId: string, text: string, ids: seq<string>, scan: string -> Verdict): Rows
    requires |ids| == |Kept(text)|
  {
    SweptAll(Planted(WithoutDoc(rows, docId), docId, Kept(text), ids), ids, scan)
  }

  predicate Known(rows: Rows, docId: string) {
    exists id :: id in rows && rows[id].docId == Some(docId)
  }

  datatype IngestResult = IngestResult(released: nat, quarantined: nat, reingest: bool, truncated: bool)

  lemma {:induction false} PlantedRows(rows: Rows, docId: string, pieces: seq<Piece>, ids: seq<string>, id: string)
    requires |pieces| == |ids| && Fresh(rows, ids)
    ensures id in Planted(rows, docId, pieces, ids) <==> id in rows || id in ids
    ensures id in rows ==> Planted(rows, docId, pieces, ids)[id] == rows[id]
    ensures forall i :: 0 <= i < |ids| ==>
      ids[i] in Planted(rows, docId, pieces, ids)
      && Planted(rows, docId, pieces, ids)[ids[i]] == BornRow(docId, pieces[i], i)
  {
    if pieces != [] {
      var n := |pieces| - 1;
      PlantedRows(rows, docId, pieces[..n], ids[..n], id);
      assert id in ids <==> id in ids[..n] || id == ids[n];
      assert forall i :: 0 <= i < n ==> ids[i] == ids[..n][i] && pieces[i] == pieces[..n][i];
    }
  }

  function CleanCount(ids: seq<string>, scan: string -> Verdict): (n: nat)
    ensures n <= |ids|
  {
    if ids == [] then 0
    else CleanCount(ids[..|ids| - 1], scan) + if scan(ids[|ids| - 1]) == Clean then 1 else 0
  }

  /** Every planted row is still waiting when the sweep reaches it. */
  lemma {:induction false} BornRowsAreDecided(rows: Rows, docId: string, pieces: seq<Piece>, ids: seq<string>,
                                              scan: string -> Verdict, n: nat)
    requires |pieces| == |ids| && Fresh(rows, ids) && n <= |ids|
    ensures
      var planted := Planted(rows, docId, pieces, ids);
      && Releases(planted, ids[..n], scan) == CleanCount(ids[..n], scan)
      && Releases(planted, ids[..n], scan) + Refusals(planted, ids[..n], scan) == n
  {
    if n > 0 {
      hide Planted, SweptAll;
      var (planted, front, id) := (Planted(rows, docId, pieces, ids), ids[..n - 1], ids[n - 1]);
      BornRowsAreDecided(rows, docId, pieces, ids, scan, n - 1);
      assert ids[..n][..n - 1] == front && ids[..n][n - 1] == id;
      PlantedRows(rows, docId, pieces, ids, id);
      SiblingsDoNotMatter(planted, front, scan, id);
      assert id !in front;
      assert Decides(SweptAll(planted, front, scan), id);
    }
  }

  method CappedChunks(text: string) returns (pieces: seq<Piece>, truncated: bool)
    ensures pieces == Kept(text) && (pieces == [] <==> Produced(text) == [])
    ensures truncated <==> |Produced(text)| > MAX_CHUNKS_PER_DOC
  {
    hide Produced;
    var chunks := ChunkDocument(text);
    truncated := |chunks| > MAX_CHUNKS_PER_DOC;
    var kept := if truncated then chunks[..MAX_CHUNKS_PER_DOC] else chunks;
    pieces := seq(|kept|, i requires 0 <= i < |kept| => Piece(kept[i].content, kept[i].headingPath));
  }

  class DocStore {
    var rows: Rows
    var cacheVersion: nat

    constructor ()
      ensures rows == map[] && cacheVersion == 0
    {
      rows, cacheVersion := map[], 0;
    }

    /** `sweep_document_chunks`; `scan` gives the detectors' verdict on each row. */
    method SweepDocumentChunks(ids: seq<string>, scan: string -> Verdict) returns (released: nat, quarantined: nat)
      modifies this`rows
      ensures rows == SweptAll(old(rows), ids, scan)
      ensures released == Releases(old(rows), ids, scan) && quarantined == Refusals(old(rows), ids, scan)
    {
      released, quarantined := 0, 0;
      for k := 0 to |ids|
        invariant rows == SweptAll(old(rows), ids[..k], scan)
        invariant released == Releases(old(rows), ids[..k], scan) && quarantined == Refusals(old(rows), ids[..k], scan)
      {
        assert ids[..k + 1][..k] == ids[..k];
        var id := ids[k];
        if id !in rows || !rows[id].quarantined || rows[id].reason != Some(BORN_REASON) {
          continue;
        }
        var row := rows[id];
        match scan(id) {
          case ScannerError =>
            rows := rows[id := row.(reason := Some(DETECTOR_ERROR))];
            quarantined := quarantined + 1;
          case Positive(classes) =>
            rows := rows[id := row.(reason := Some(SWEEP_PREFIX + classes))];
            quarantined := quarantined + 1;
          case Clean =>
            rows := rows[id := row.(quarantined := false, status := Published, reason := None, swept := true)];
            released := released + 1;
        }
      }
      assert ids[..|ids|] == ids;
    }

    /** `replace_doc_chunks`: old rows out, new rows in, version up, in one transaction. */
    method ReplaceDocChunks(docId: string, pieces: seq<Piece>, ids: seq<string>)
      requires |pieces| == |ids|
      modifies this
      ensures rows == Planted(WithoutDoc(old(rows), docId), docId, pieces, ids)
      ensures cacheVersion == old(cacheVersion) + 1
    {
      rows := WithoutDoc(rows, docId);
      for k := 0 to |pieces|
        invariant rows == Planted(WithoutDoc(old(rows), docId), docId, pieces[..k], ids[..k])
        invariant cacheVersion == old(cacheVersion)
      {
        rows := rows[ids[k] := BornRow(docId, pieces[k], k)];
        assert pieces[..k + 1][..k] == pieces[..k] && ids[..k + 1][..k] == ids[..k];
      }
      assert pieces[..|pieces|] == pieces && ids[..|ids|] == ids;
      cacheVersion := cacheVersion + 1;
    }

    /** The first-ingest path: each row is added raw and quarantined at once. */
    method AddDocChunks(docId: string, pieces: seq<Piece>, ids: seq<string>)
      requires |pieces| == |ids| && forall id :: id in rows ==> rows[id].docId != Some(docId)
      modifies this`rows
      ensures rows == Planted(WithoutDoc(old(rows), docId), docId, pieces, ids)
    {
      assert rows == WithoutDoc(rows, docId);
      for k := 0 to |pieces|
        invariant rows == Planted(WithoutDoc(old(rows), docId), docId, pieces[..k], ids[..k])
      {
        rows := rows[ids[k] := Row(Some(docId), pieces[k].content, k, pieces[k].path, Raw, false, None, false)];
        rows := rows[ids[k] := rows[ids[k]].(quarantined := true, reason := Some(BORN_REASON))];
        assert pieces[..k + 1][..k] == pieces[..k] && ids[..k + 1][..k] == ids[..k];
      }
      assert pieces[..|pieces|] == pieces && ids[..|ids|] == ids;
    }

    /** Re-ingest replaces, first ingest adds. */
    method PlantDocument(docId: string, pieces: seq<Piece>, ids: seq<string>) returns (reingest: bool)
      requires |pieces| == |ids|
      modifies this
      ensures rows == Planted(WithoutDoc(old(rows), docId), docId, pieces, ids)
      ensures reingest == Known(old(rows), docId)
      ensures cacheVersion == old(cacheVersion) + (if reingest then 1 else 0)
    {
      hide Planted;
      var existing := set id | id in rows && rows[id].docId == Some(docId);
      reingest := existing != {};
      if reingest {
        ghost var id :| id in existing;
        ReplaceDocChunks(docId, pieces, ids);
      } else {
        assert forall id :: id in rows && rows[id].docId == Some(docId) ==> id in existing;
        AddDocChunks(docId, pieces, ids);
      }
    }

    /** `ingest_document`; `ids` are the fresh ids its rows get. `None` is the error of
        a document without chunks. */
    method IngestDocument(docId: string, text: string, ids: seq<string>, scan: string -> Verdict)
      returns (result: Option<IngestResult>)
      requires |ids| == |Kept(text)| && Fresh(rows, ids)
      modifies this
      ensures result.None? <==> Produced(text) == []
      ensures result.None? ==> rows == old(rows) && cacheVersion == old(cacheVersion)
      ensures result.Some? ==> rows == Ingested(old(rows), docId, text, ids, scan)
      ensures result.Some? ==>
        && result.value.reingest == Known(old(rows), docId)
        && cacheVersion == old(cacheVersion) + (if Known(old(rows), docId) then 1 else 0)
        && (result.value.truncated <==> |Produced(text)| > MAX_CHUNKS_PER_DOC)
        && result.value.released == CleanCount(ids, scan)
        && result.value.released + result.value.quarantined == |ids|
    {
      var pieces, truncated := CappedChunks(text);
      if pieces == [] {
        return None;
      }
      hide Kept, Produced, Planted, SweptAll;
      var reingest := PlantDocument(docId, pieces, ids);
      BornRowsAreDecided(WithoutDoc(old(rows), docId), docId, pieces, ids, scan, |ids|);
      assert ids[..|ids|] == ids;
      var released, quarantined := SweepDocumentChunks(ids, scan);
      result := Some(IngestResult(released, quarantined, reingest, truncated));
    }
  }

  /** After a completed ingest the rows of the document are the chunks of the text it
      was given, the first five hundred, each admissible exactly if its own scan was
      clean; rows of other documents are untouched. */
  lemma IngestLeavesTheLatestText(rows: Rows, docId: string, text: string, ids: seq<string>, scan: string -> Verdict)
    requires |ids| == |Kept(text)| && Fresh(rows, ids)
    ensures
      var after := Ingested(rows, docId, text, ids, scan);
      && (forall id :: id in after && after[id].docId == Some(docId) <==> id in ids)
      && |ids| == (if |Produced(text)| > 500 then 500 else |Produced(text)|)
      && (forall i :: 0 <= i < |ids| ==> ids[i] in after && IsChunk(after[ids[i]], docId, Produced(text)[i], i))
      && (forall i :: 0 <= i < |ids| ==> (Admissible(after[ids[i]]) <==> scan(ids[i]) == Clean))
      && (forall id :: id in rows && rows[id].docId != Some(docId) ==> id in after && after[id] == rows[id])
  {
    hide Kept, Produced, Planted, SweptAll, Admissible;
    KeptAreTheFirst(text);
    var (base, pieces) := (WithoutDoc(rows, docId), Kept(text));
    var planted := Planted(base, docId, pieces, ids);
    var after := Ingested(rows, docId, text, ids, scan);
    forall id
      ensures id in after && after[id].docId == Some(docId) <==> id in ids
      ensures id in rows && rows[id].docId != Some(docId) ==> id in after && after[id] == rows[id]
    {
      PlantedRows(base, docId, pieces, ids, id);
      SiblingsDoNotMatter(planted, ids, scan, id);
    }
    forall i | 0 <= i < |ids|
      ensures ids[i] in after && IsChunk(after[ids[i]], docId, pieces[i], i)
      ensures Admissible(after[ids[i]]) <==> scan(ids[i]) == Clean
    {
      PlantedRows(base, docId, pieces, ids, ids[i]);
      SiblingsDoNotMatter(planted, ids, scan, ids[i]);
      NotBornAgain(planted[ids[i]], scan(ids[i]));
    }
  }

  lemma KeptAreTheFirst(text: string)
    ensures |Kept(text)| == if |Produced(text)| > 500 then 500 else |Produced(text)|
    ensures forall i :: 0 <= i < |Kept(text)| ==> Kept(text)[i] == Produced(text)[i]
  {
    hide Produced;
  }

  predicate IsChunk(row: Row, docId: string, piece: Piece, idx: nat) {
    row.docId == Some(docId) && row.content == piece.content && row.headingPath == piece.path && row.chunkIdx == idx
  }

  // ----- Runs: adds, quarantines, replacements, sweeps, releases, other traffic -----

  /** `clean` and `refused` record what sweeps decided, `released` whom an operator
      released, `held` the refused and not released since, `exposed` the rows added
      and not yet quarantined, `used` every id minted. */
  datatype State = State(
    rows: Rows, version: nat, clean: set<string>, refused: set<string>, held: set<string>,
    released: set<string>, exposed: set<string>, used: set<string>)

  ghost predicate Init(s: State) {
    s.rows == map[] && s.clean == {} && s.refused == {} && s.held == {} && s.released == {} && s.exposed == {}
  }

  /** First ingest, one chunk: the row exists, raw, not yet quarantined. A crash may
      leave it so. */
  ghost predicate Added(s: State, s': State, id: string, docId: string, piece: Piece, idx: nat) {
    && id !in s.used
    && s' == s.(rows := s.rows[id := Row(Some(docId), piece.content, idx, piece.path, Raw, false, None, false)],
                exposed := s.exposed + {id}, used := s.used + {id})
  }

  /** First ingest, the same chunk: quarantined in the next breath. */
  ghost predicate BornQuarantined(s: State, s': State, id: string) {
    && id in s.rows && id in s.exposed
    && s' == s.(rows := s.rows[id := s.rows[id].(quarantined := true, reason := Some(BORN_REASON))],
                exposed := s.exposed - {id})
  }

  ghost predicate Replaced(s: State, s': State, docId: string, pieces: seq<Piece>, ids: seq<string>) {
    && |pieces| == |ids| && Fresh(s.rows, ids) && (forall i :: 0 <= i < |ids| ==> ids[i] !in s.used)
    && s' == s.(rows := Planted(WithoutDoc(s.rows, docId), docId, pieces, ids), version := s.version + 1,
                used := s.used + set i | 0 <= i < |ids| :: ids[i])
  }

  /** One row of a sweep, whoever runs it and however often. */
  ghost predicate Swept(s: State, s': State, id: string, verdict: Verdict) {
    var (cleared, refused) := (Decides(s.rows, id) && verdict == Clean, Decides(s.rows, id) && verdict != Clean);
    s' == s.(rows := SweptOne(s.rows, id, verdict),
             clean := if cleared then s.clean + {id} else s.clean,
             refused := if refused then s.refused + {id} else s.refused,
             held := if refused then s.held + {id} else s.held)
  }

  /** The danger lane or an operator takes a row for a reason of its own. */
  ghost predicate ForeignQuarantine(s: State, s': State, id: string, reason: string) {
    && id in s.rows && reason != BORN_REASON
    && s' == s.(rows := s.rows[id := s.rows[id].(quarantined := true, reason := Some(reason))])
  }

  /** `release_quarantine`: lifted by hand, the status as it was. */
  ghost predicate ManualRelease(s: State, s': State, id: string) {
    && id in s.rows && s.rows[id].quarantined
    && s' == s.(rows := s.rows[id := s.rows[id].(quarantined := false, reason := None)],
                held := s.held - {id}, released := s.released + {id})
  }

  /** Any other path moves the status: the clustering queue, the refine cycle's curated
      publication, an edit. */
  ghost predicate StatusMoved(s: State, s': State, id: string, status: Status) {
    id in s.rows && s' == s.(rows := s.rows[id := s.rows[id].(status := status)])
  }

  ghost predicate Removed(s: State, s': State, id: string) {
    s' == s.(rows := s.rows - {id})
  }

  ghost predicate OtherStored(s: State, s': State, id: string, row: Row) {
    id !in s.used && row.docId.None? && s' == s.(rows := s.rows[id := row], used := s.used + {id})
  }

  ghost predicate Next(s: State, s': State) {
    || (exists docId, pieces, ids :: Replaced(s, s', docId, pieces, ids))
    || (exists id, verdict :: Swept(s, s', id, verdict))
    || (exists id :: OneRowMoved(s, s', id))
  }

  ghost predicate OneRowMoved(s: State, s': State, id: string) {
    || (exists docId, piece, idx :: Added(s, s', id, docId, piece, idx))
    || BornQuarantined(s, s', id)
    || (exists reason :: ForeignQuarantine(s, s', id, reason))
    || ManualRelease(s, s', id)
    || (exists status :: StatusMoved(s, s', id, status))
    || Removed(s, s', id)
    || (exists row :: OtherStored(s, s', id, row))
  }

  ghost predicate Run(states: seq<State>) {
    states != [] && Init(states[0]) && forall k :: 0 <= k < |states| - 1 ==> Next(states[k], states[k + 1])
  }

  /** A row against the record of verdicts and releases. */
  ghost predicate Accounted(s: State, id: string)
    requires id in s.rows
  {
    var row := s.rows[id];
    && id in s.used
    && (row.docId.Some? ==> row.quarantined || id in s.clean || id in s.released || id in s.exposed)
    && (id in s.held ==> row.quarantined)
    && (id in s.clean || id in s.refused || id in s.exposed ==> !Sweepable(row))
  }

  ghost predicate Records(s: State) {
    && s.clean !! s.refused && s.exposed !! s.clean && s.exposed !! s.refused && s.held <= s.refused
    && s.clean <= s.used && s.refused <= s.used && s.exposed <= s.used
  }

  ghost predicate Inv(s: State) {
    (forall id :: id in s.rows ==> Accounted(s, id)) && Records(s)
  }

  lemma SweepKeeps(s: State, s': State, id: string, verdict: Verdict)
    requires Inv(s) && Swept(s, s', id, verdict)
    ensures Inv(s')
  {
    if id in s.rows {
      assert Accounted(s, id);
      NotBornAgain(s.rows[id], verdict);
    }
    forall k | k in s'.rows
      ensures Accounted(s', k)
    {
      assert Accounted(s, k);
    }
  }

  lemma ReplaceKeeps(s: State, s': State, docId: string, pieces: seq<Piece>, ids: seq<string>)
    requires Inv(s) && Replaced(s, s', docId, pieces, ids)
    ensures Inv(s')
  {
    hide Planted;
    forall k | k in s'.rows
      ensures Accounted(s', k)
    {
      PlantedRows(WithoutDoc(s.rows, docId), docId, pieces, ids, k);
      if k in ids {
        var i :| 0 <= i < |ids| && ids[i] == k;
        assert s'.rows[ids[i]] == BornRow(docId, pieces[i], i);
      } else {
        assert Accounted(s, k);
      }
    }
  }

  lemma OneRowKeeps(s: State, s': State, id: string)
    requires Inv(s) && OneRowMoved(s, s', id)
    ensures Inv(s')
  {
    if id in s.rows {
      assert Accounted(s, id);
    }
    forall k | k in s'.rows
      ensures Accounted(s', k)
    {
      if k != id {
        assert Accounted(s, k);
      }
    }
  }

  lemma NextKeeps(s: State, s': State)
    requires Inv(s) && Next(s, s')
    ensures Inv(s')
  {
    hide Inv, OneRowMoved;
    if docId, pieces, ids :| Replaced(s, s', docId, pieces, ids) {
      ReplaceKeeps(s, s', docId, pieces, ids);
    } else if id, verdict :| Swept(s, s', id, verdict) {
      SweepKeeps(s, s', id, verdict);
    } else {
      var id :| OneRowMoved(s, s', id);
      OneRowKeeps(s, s', id);
    }
  }

  lemma {:induction false} RunKeeps(states: seq<State>, k: nat)
    requires Run(states) && k < |states|
    ensures Inv(states[k])
  {
    if k > 0 {
      hide Next, Inv;
      RunKeeps(states, k - 1);
      NextKeeps(states[k - 1], states[k]);
    } else {
      hide Next;
    }
  }

  /** In every run, whatever else moves its status, a document chunk is admissible only
      after a clean verdict on that very chunk, or once released by hand, or while its
      first ingest stands between adding and quarantining it; and no chunk ever gets
      two different verdicts. */
  lemma AdmissibleOnlyIfClean(states: seq<State>, k: nat, id: string)
    requires Run(states) && k < |states| && id in states[k].rows && states[k].rows[id].docId.Some?
    ensures
      var s := states[k];
      && (Admissible(s.rows[id]) ==> id in s.clean || id in s.released || id in s.exposed)
      && !(id in s.clean && id in s.refused) && !(id in s.exposed && id in s.clean + s.refused)
  {
    hide Next;
    RunKeeps(states, k);
    assert Accounted(states[k], id);
  }

  lemma {:induction false} HeldStays(states: seq<State>, k: nat, j: nat, id: string)
    requires Run(states) && k <= j < |states| && id in states[k].held
    requires forall t :: k <= t < j ==> !ManualRelease(states[t], states[t + 1], id)
    ensures id in states[j].held
  {
    hide SweptOne, Planted;
    if k < j {
      HeldStays(states, k, j - 1, id);
      assert Next(states[j - 1], states[j]) && !ManualRelease(states[j - 1], states[j], id);
    }
  }

  /** A chunk a sweep refused, for a finding or because the scanner failed, stays
      inadmissible until somebody releases that very chunk by hand, whatever later
      sweeps say and wherever its status goes. */
  lemma RefusedForGood(states: seq<State>, k: nat, j: nat, id: string, verdict: Verdict)
    requires Run(states) && k + 1 <= j < |states|
    requires Swept(states[k], states[k + 1], id, verdict) && Decides(states[k].rows, id) && verdict != Clean
    requires forall t :: k + 1 <= t < j ==> !ManualRelease(states[t], states[t + 1], id)
    ensures id in states[j].rows ==> !Admissible(states[j].rows[id])
  {
    hide Next;
    HeldStays(states, k + 1, j, id);
    RunKeeps(states, j);
    if id in states[j].rows {
      assert Accounted(states[j], id);
    }
  }
}
