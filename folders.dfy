/**
 * The `folders` table and the walk of `AudioFileProcessor.getOrCreateFolder`
 * (backend/server.js:77-97), as values. The table is a map from (name, parent id) to
 * the row id; ids come from a counter, as a serial column hands them out.
 */
module Folders {
  import opened Wrappers
  import opened JsStrings
  import NodePath

  /** The unique key `(name, parent_id)`; a root folder has no parent. */
  datatype FolderKey = FolderKey(name: string, parentId: Option<nat>)

  datatype FolderTable = FolderTable(ids: map<FolderKey, nat>, nextId: nat)

  /** The table after one insert, and the id `RETURNING id` gave back (none on a conflict). */
  datatype Inserted = Inserted(table: FolderTable, returned: Option<nat>)

  /** The table after a walk, and the folder id the walk ends on. */
  datatype Walked = Walked(table: FolderTable, folderId: Option<nat>)

  /** Ids are positive and already handed out, and so is every parent id a key mentions. */
  ghost predicate WellFormed(t: FolderTable) {
    && t.nextId >= 1
    && forall k | k in t.ids :: 1 <= t.ids[k] < t.nextId && (k.parentId.Some? ==> k.parentId.value < t.nextId)
  }

  /** A parent id the walk may carry: none, or one already handed out. */
  ghost predicate ParentFits(t: FolderTable, parentId: Option<nat>) {
    parentId.None? || parentId.value < t.nextId
  }

  /**
   * `INSERT INTO folders ... ON CONFLICT (name, parent_id) DO NOTHING RETURNING id`:
   * a new row under the next id, or no row at all when the key is taken.
   */
  function InsertFolder(t: FolderTable, name: string, parentId: Option<nat>): (r: Inserted)
    ensures FolderKey(name, parentId) in t.ids ==> r == Inserted(t, None)
    ensures FolderKey(name, parentId) !in t.ids ==>
      && r.returned == Some(t.nextId) && r.table.nextId == t.nextId + 1
      && (forall k :: k in r.table.ids <==> k in t.ids || k == FolderKey(name, parentId))
    ensures forall k | k in t.ids :: k in r.table.ids && r.table.ids[k] == t.ids[k]
    ensures r.returned.Some? ==> r.table.ids[FolderKey(name, parentId)] == r.returned.value
  {
    var key := FolderKey(name, parentId);
    if key in t.ids then Inserted(t, None)
    else Inserted(FolderTable(t.ids[key := t.nextId], t.nextId + 1), Some(t.nextId))
  }

  /** An insert that does not conflict adds exactly one row. */
  lemma InsertAddsOneRow(t: FolderTable, name: string, parentId: Option<nat>)
    requires FolderKey(name, parentId) !in t.ids
    ensures |InsertFolder(t, name, parentId).table.ids| == |t.ids| + 1
  {
  }

  /** `result.rows[0]?.id || parentId`: the returned id when there is one and it is not 0. */
  function Advance(returned: Option<nat>, parentId: Option<nat>): (p: Option<nat>)
    ensures returned.Some? && returned.value != 0 ==> p == returned
    ensures returned.Some? && returned.value == 0 ==> p == parentId
    ensures returned.None? ==> p == parentId
  {
    match returned
    case Some(id) => if id != 0 then Some(id) else parentId
    case None => parentId
  }

  /** The `for (const folderName of parts)` loop: one insert per segment, in order. */
  function WalkFolders(t: FolderTable, segments: seq<string>, parentId: Option<nat>): Walked
    decreases |segments|
  {
    if |segments| == 0 then Walked(t, parentId)
    else
      var step := InsertFolder(t, segments[0], parentId);
      WalkFolders(step.table, segments[1..], Advance(step.returned, parentId))
  }

  /** `getOrCreateFolder(folderPath)`: the walk over the non-empty segments of the path, from the root. */
  function GetOrCreateFolder(t: FolderTable, folderPath: string): Walked {
    WalkFolders(t, Segments(folderPath, NodePath.SEP), None)
  }

  /** An empty path, or one made only of separators, inserts nothing and gives null. */
  lemma EmptyPathCreatesNothing(t: FolderTable, folderPath: string)
    requires forall i :: 0 <= i < |folderPath| ==> folderPath[i] == NodePath.SEP
    ensures GetOrCreateFolder(t, folderPath) == Walked(t, None)
  {
    SegmentsEmptyIff(folderPath, NodePath.SEP);
  }

  /** A segment whose key is taken changes nothing: the walk goes on under the same parent. */
  lemma ConflictKeepsParent(t: FolderTable, segments: seq<string>, parentId: Option<nat>)
    requires |segments| >= 1 && FolderKey(segments[0], parentId) in t.ids
    ensures WalkFolders(t, segments, parentId) == WalkFolders(t, segments[1..], parentId)
  {
  }

  /** A walk never changes or removes a row, and never hands an id back. */
  lemma {:induction false} WalkKeepsRows(t: FolderTable, segments: seq<string>, parentId: Option<nat>)
    ensures var t' := WalkFolders(t, segments, parentId).table;
      t'.nextId >= t.nextId && forall k | k in t.ids :: k in t'.ids && t'.ids[k] == t.ids[k]
    decreases |segments|
  {
    if |segments| > 0 {
      var step := InsertFolder(t, segments[0], parentId);
      WalkKeepsRows(step.table, segments[1..], Advance(step.returned, parentId));
    }
  }

  /** A walk keeps the table well formed, and what it returns is a handed-out id or null. */
  lemma {:induction false} WalkKeepsWellFormed(t: FolderTable, segments: seq<string>, parentId: Option<nat>)
    requires WellFormed(t) && ParentFits(t, parentId)
    ensures var w := WalkFolders(t, segments, parentId); WellFormed(w.table) && ParentFits(w.table, w.folderId)
    decreases |segments|
  {
    if |segments| > 0 {
      var step := InsertFolder(t, segments[0], parentId);
      assert WellFormed(step.table) && ParentFits(step.table, Advance(step.returned, parentId));
      WalkKeepsWellFormed(step.table, segments[1..], Advance(step.returned, parentId));
    }
  }

  /** The key of the `i`-th folder of a chain created from id `first` on under `parentId`. */
  function ChainKey(segments: seq<string>, parentId: Option<nat>, first: nat, i: nat): FolderKey
    requires i < |segments|
  {
    FolderKey(segments[i], if i == 0 then parentId else Some(first + i - 1))
  }

  /** The keys of a whole chain. */
  function ChainKeys(segments: seq<string>, parentId: Option<nat>, first: nat): set<FolderKey>
    decreases |segments|
  {
    if |segments| == 0 then {} else {FolderKey(segments[0], parentId)} + ChainKeys(segments[1..], Some(first), first + 1)
  }

  /** A walk that starts with a segment new under its parent, on a well-formed table. */
  ghost predicate FreshStart(t: FolderTable, segments: seq<string>, parentId: Option<nat>) {
    WellFormed(t) && ParentFits(t, parentId) && |segments| >= 1 && FolderKey(segments[0], parentId) !in t.ids
  }

  /** After a fresh first insert, the walk goes on under the new row, and the next segment is fresh too. */
  lemma FreshStep(t: FolderTable, segments: seq<string>, parentId: Option<nat>)
    requires FreshStart(t, segments, parentId)
    ensures var step := InsertFolder(t, segments[0], parentId);
      && step.returned == Some(t.nextId) && step.table.nextId == t.nextId + 1
      && WalkFolders(t, segments, parentId) == WalkFolders(step.table, segments[1..], Some(t.nextId))
      && (|segments| >= 2 ==> FreshStart(step.table, segments[1..], Some(t.nextId)))
  {
    var step := InsertFolder(t, segments[0], parentId);
    assert WellFormed(step.table);
    if |segments| >= 2 {
      assert FolderKey(segments[1], Some(t.nextId)) != FolderKey(segments[0], parentId);
      assert segments[1..][0] == segments[1];
    }
  }

  /**
   * When the first segment is new under the parent, every segment becomes a new row: the
   * walk creates |segments| rows with consecutive ids and returns the last.
   */
  lemma {:induction false} FreshChain(t: FolderTable, segments: seq<string>, parentId: Option<nat>)
    requires FreshStart(t, segments, parentId)
    ensures var w := WalkFolders(t, segments, parentId);
      && w.folderId == Some(t.nextId + |segments| - 1)
      && w.table.nextId == t.nextId + |segments|
      && |w.table.ids| == |t.ids| + |segments|
    decreases |segments|
  {
    FreshStep(t, segments, parentId);
    InsertAddsOneRow(t, segments[0], parentId);
    if |segments| >= 2 {
      FreshChain(InsertFolder(t, segments[0], parentId).table, segments[1..], Some(t.nextId));
    }
  }

  /** The rows a fresh walk adds are exactly the keys of the chain. */
  lemma {:induction false} FreshChainKeys(t: FolderTable, segments: seq<string>, parentId: Option<nat>)
    requires FreshStart(t, segments, parentId)
    ensures forall k :: k in WalkFolders(t, segments, parentId).table.ids <==>
      k in t.ids || k in ChainKeys(segments, parentId, t.nextId)
    decreases |segments|
  {
    FreshStep(t, segments, parentId);
    var t1 := InsertFolder(t, segments[0], parentId).table;
    if |segments| >= 2 {
      FreshChainKeys(t1, segments[1..], Some(t.nextId));
    }
  }

  /** The `i`-th folder of a fresh chain gets id `t.nextId + i` and lies under folder `t.nextId + i - 1`. */
  lemma {:induction false} FreshChainIds(t: FolderTable, segments: seq<string>, parentId: Option<nat>, i: nat)
    requires FreshStart(t, segments, parentId) && i < |segments|
    ensures var t' := WalkFolders(t, segments, parentId).table;
      ChainKey(segments, parentId, t.nextId, i) in t'.ids && t'.ids[ChainKey(segments, parentId, t.nextId, i)] == t.nextId + i
    decreases |segments|
  {
    FreshStep(t, segments, parentId);
    var t1 := InsertFolder(t, segments[0], parentId).table;
    var t' := WalkFolders(t1, segments[1..], Some(t.nextId)).table;
    assert t' == WalkFolders(t, segments, parentId).table;
    var key := ChainKey(segments, parentId, t.nextId, i);
    if i == 0 {
      assert key == FolderKey(segments[0], parentId);
      assert key in t1.ids && t1.ids[key] == t.nextId;
      WalkKeepsRows(t1, segments[1..], Some(t.nextId));
    } else {
      FreshChainIds(t1, segments[1..], Some(t.nextId), i - 1);
      ChainKeyShift(segments, parentId, t.nextId, i, t'.ids);
    }
  }

  /** The `i`-th key of a chain is the `(i - 1)`-th key of the chain that starts under its first folder. */
  lemma ChainKeyShift(segments: seq<string>, parentId: Option<nat>, first: nat, i: nat, ids: map<FolderKey, nat>)
    requires 0 < i < |segments|
    requires var key := ChainKey(segments[1..], Some(first), first + 1, i - 1);
      key in ids && ids[key] == first + i
    ensures var key := ChainKey(segments, parentId, first, i);
      key in ids && ids[key] == first + i
  {
    assert ChainKey(segments, parentId, first, i) == ChainKey(segments[1..], Some(first), first + 1, i - 1);
  }

  /** On an empty table, a path of n segments creates an n-row parent chain and gives its last id. */
  lemma EmptyTableChain(t: FolderTable, folderPath: string)
    requires t.ids == map[] && t.nextId >= 1
    requires Segments(folderPath, NodePath.SEP) != []
    ensures var w := GetOrCreateFolder(t, folderPath);
      var segments := Segments(folderPath, NodePath.SEP);
      && w.folderId == Some(t.nextId + |segments| - 1)
      && |w.table.ids| == |segments|
      && forall i :: 0 <= i < |segments| ==>
        ChainKey(segments, None, t.nextId, i) in w.table.ids && w.table.ids[ChainKey(segments, None, t.nextId, i)] == t.nextId + i
  {
    var segments := Segments(folderPath, NodePath.SEP);
    FreshChain(t, segments, None);
    forall i | 0 <= i < |segments|
      ensures var t' := GetOrCreateFolder(t, folderPath).table;
        ChainKey(segments, None, t.nextId, i) in t'.ids && t'.ids[ChainKey(segments, None, t.nextId, i)] == t.nextId + i
    {
      FreshChainIds(t, segments, None, i);
    }
  }

  /**
   * What the walk evidently means to do on a conflict: look up the existing row and go on
   * under it. This is not what `getOrCreateFolder` does.
   */
  function WalkFoldersReusing(t: FolderTable, segments: seq<string>, parentId: Option<nat>): Walked
    decreases |segments|
  {
    if |segments| == 0 then Walked(t, parentId)
    else
      var key := FolderKey(segments[0], parentId);
      var step := InsertFolder(t, segments[0], parentId);
      var found := if step.returned.Some? then step.returned else Some(t.ids[key]);
      WalkFoldersReusing(step.table, segments[1..], Advance(found, parentId))
  }

  /** The id the corrected walk goes on under after its first segment: the new row's, or the existing one's. */
  function FoundId(t: FolderTable, name: string, parentId: Option<nat>): (id: nat)
    ensures var step := InsertFolder(t, name, parentId);
      FolderKey(name, parentId) in step.table.ids && step.table.ids[FolderKey(name, parentId)] == id
  {
    var step := InsertFolder(t, name, parentId);
    if step.returned.Some? then step.returned.value else t.ids[FolderKey(name, parentId)]
  }

  lemma {:induction false} ReusingKeepsRows(t: FolderTable, segments: seq<string>, parentId: Option<nat>)
    ensures var t' := WalkFoldersReusing(t, segments, parentId).table;
      forall k | k in t.ids :: k in t'.ids && t'.ids[k] == t.ids[k]
    decreases |segments|
  {
    if |segments| > 0 {
      var step := InsertFolder(t, segments[0], parentId);
      var p := Advance(Some(FoundId(t, segments[0], parentId)), parentId);
      assert WalkFoldersReusing(t, segments, parentId) == WalkFoldersReusing(step.table, segments[1..], p);
      ReusingKeepsRows(step.table, segments[1..], p);
    }
  }

  /** The corrected walk is idempotent: walking the same path again changes nothing and gives the same folder. */
  lemma {:induction false} ReusingIdempotent(t: FolderTable, segments: seq<string>, parentId: Option<nat>)
    ensures var w := WalkFoldersReusing(t, segments, parentId);
      WalkFoldersReusing(w.table, segments, parentId) == w
    decreases |segments|
  {
    if |segments| > 0 {
      var key := FolderKey(segments[0], parentId);
      var step := InsertFolder(t, segments[0], parentId);
      var id := FoundId(t, segments[0], parentId);
      var p := Advance(Some(id), parentId);
      assert WalkFoldersReusing(t, segments, parentId) == WalkFoldersReusing(step.table, segments[1..], p);
      var w := WalkFoldersReusing(step.table, segments[1..], p);
      ReusingKeepsRows(step.table, segments[1..], p);
      assert key in w.table.ids && w.table.ids[key] == id;
      assert FoundId(w.table, segments[0], parentId) == id;
      assert InsertFolder(w.table, segments[0], parentId).table == w.table;
      assert WalkFoldersReusing(w.table, segments, parentId) == WalkFoldersReusing(w.table, segments[1..], p);
      ReusingIdempotent(step.table, segments[1..], p);
    }
  }

  /** Where no segment conflicts, the corrected walk and the walk as written agree. */
  lemma {:induction false} ReusingAgreesWhenFresh(t: FolderTable, segments: seq<string>, parentId: Option<nat>)
    requires FreshStart(t, segments, parentId) || segments == []
    ensures WalkFoldersReusing(t, segments, parentId) == WalkFolders(t, segments, parentId)
    decreases |segments|
  {
    if |segments| > 0 {
      FreshStep(t, segments, parentId);
      var step := InsertFolder(t, segments[0], parentId);
      assert WalkFoldersReusing(t, segments, parentId) == WalkFoldersReusing(step.table, segments[1..], Some(t.nextId));
      ReusingAgreesWhenFresh(step.table, segments[1..], Some(t.nextId));
    }
  }

  /**
   * The walk as written is not idempotent: on an empty table `A/B` first gives folder 2;
   * walking `A/B` again meets the conflict on `A`, stays at the root, and creates a second
   * folder `B` (id 3) at the root instead of finding folder 2.
   */
  lemma RewalkCreatesStrayFolder(t0: FolderTable, segments: seq<string>)
    requires t0 == FolderTable(map[], 1) && segments == ["A", "B"]
    ensures var w1 := WalkFolders(t0, segments, None);
      var w2 := WalkFolders(w1.table, segments, None);
      && w1.folderId == Some(2) && w2.folderId == Some(3)
      && FolderKey("B", None) !in w1.table.ids
      && FolderKey("B", None) in w2.table.ids && w2.table.ids[FolderKey("B", None)] == 3
  {
    FreshChain(t0, segments, None);
    FreshChainKeys(t0, segments, None);
    var t1 := WalkFolders(t0, segments, None).table;
    assert segments[1..] == ["B"];
    assert ChainKeys(segments, None, 1) == {FolderKey("A", None)} + ChainKeys(["B"], Some(1), 2);
    assert FolderKey("B", None) !in t1.ids;
    assert FolderKey("A", None) in t1.ids;
    assert WalkFolders(t1, segments, None) == WalkFolders(t1, ["B"], None);
    assert InsertFolder(t1, "B", None).returned == Some(3);
  }

  /** The corrected walk, on the same two walks, creates nothing the second time and gives folder 2 again. */
  lemma RewalkReusing(t0: FolderTable, segments: seq<string>)
    requires t0 == FolderTable(map[], 1) && segments == ["A", "B"]
    ensures var w1 := WalkFoldersReusing(t0, segments, None);
      w1.folderId == Some(2) && WalkFoldersReusing(w1.table, segments, None) == w1
  {
    ReusingAgreesWhenFresh(t0, segments, None);
    FreshChain(t0, segments, None);
    ReusingIdempotent(t0, segments, None);
  }
}
