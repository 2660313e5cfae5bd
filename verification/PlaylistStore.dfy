/** The statements on playlist_tracks and the repository methods built from them. */
module PlaylistStore {
  import opened PlaylistTable
  import opened PlaylistSequences
  import opened PlaylistNumbering
  import opened PlaylistReorder

  const CHUNK: nat := 200
  const MAX_INT32: int := 0x7fff_ffff

  /** Addition as the program does it on the scanned maximum. */
  function NextPos(max: int): int {
    if max == MAX_INT32 then -0x8000_0000 else max + 1
  }

  /** All chunks but the last hold 200 items. */
  function ChunkEnd(from: nat, n: nat): nat {
    if from + CHUNK <= n then from + CHUNK else n
  }

  class Store {
    var rows: Table
    var media: set<string>
    var playlists: set<string>

    constructor (media: set<string>, playlists: set<string>)
      ensures rows == map[] && this.media == media && this.playlists == playlists
      ensures Valid()
    {
      this.rows, this.media, this.playlists := map[], media, playlists;
    }

    /** Every playlist is numbered 1..n. */
    ghost predicate Valid()
      reads this
    {
      UniqueKeys(rows) && forall pid :: Dense(rows, pid)
    }

    // ---- Statements ----

    /**
     * An UPDATE by rowid: the rows are written one at a time, in any order; a write that would
     * break the unique index aborts the statement and undoes its earlier writes.
     */
    method UpdateRows(target: map<RowId, int>) returns (ok: bool)
      requires UniqueKeys(rows) && target.Keys <= rows.Keys
      modifies this`rows
      ensures UniqueKeys(rows)
      ensures ok ==> rows == Rewritten(old(rows), target)
      ensures !ok ==> rows == old(rows)
      ensures SafeRewrite(old(rows), target) ==> ok
      ensures DoomedRewrite(old(rows), target) ==> !ok
    {
      var before := rows;
      var todo := target.Keys;
      ghost var done: set<RowId> := {};
      NothingWritten(before, target);
      hide UniqueKeys, Rewritten, Restrict, SafeRewrite, NoSwapBegun;
      while todo != {}
        invariant todo + done == target.Keys && todo !! done
        invariant rows == Rewritten(before, Restrict(target, done)) && UniqueKeys(rows)
        invariant NoSwapBegun(before, target, done)
        decreases |todo|
      {
        var r :| r in todo;
        OneMoreWritten(before, target, done, r);
        if Clashes(rows, r, target[r]) {
          Refused(before, target, done, r);
          rows := before;
          return false;
        }
        SwapNotBegun(before, target, done, r);
        rows := rows[r := rows[r].(pos := target[r])];
        todo, done := todo - {r}, done + {r};
      }
      AllWritten(before, target, done);
      return true;
    }

    /** UPDATE playlist_tracks SET id = ... WHERE playlist_id = pid AND ... */
    method UpdateIds(pid: string, change: Change) returns (ok: bool)
      requires UniqueKeys(rows)
      modifies this`rows
      ensures UniqueKeys(rows)
      ensures rows == if ok then Repositioned(old(rows), pid, Applied(change)) else old(rows)
      ensures SafeChange(old(rows), pid, change) ==> ok
      ensures DoomedRewrite(old(rows), TargetOf(old(rows), pid, change)) ==> !ok
    {
      hide UniqueKeys, SafeRewrite, Rewritten, SafeChange, Repositioned, DoomedRewrite;
      if SafeChange(rows, pid, change) {
        SafeChangeIsSafe(rows, pid, change);
      }
      ChangeRepositions(rows, pid, change);
      ok := UpdateRows(TargetOf(rows, pid, change));
    }

    // ---- Reorder ----

    /** Moves the track at `pos` to `newPos` in four statements; the first to fail ends it. */
    method Reorder(pid: string, pos: int, newPos: int) returns (ok: bool)
      requires UniqueKeys(rows) && AllPositive(rows, pid)
      modifies this`rows
      ensures UniqueKeys(rows)
      ensures ok <==>
        pos == newPos || !(ShiftFails(old(rows), pid, pos, newPos) || FlipFails(old(rows), pid, pos, newPos))
      ensures ok ==> rows == if pos == newPos then old(rows) else Repositioned(old(rows), pid, Landing(pos, newPos))
      ensures !ok && ShiftFails(old(rows), pid, pos, newPos) ==> rows == AfterTakeOut(old(rows), pid, pos)
      ensures !ok && !ShiftFails(old(rows), pid, pos, newPos) ==> rows == AfterShift(old(rows), pid, pos, newPos)
    {
      hide UniqueKeys, SafeChange, DoomedRewrite, AllPositive, ShiftFails, FlipFails, Repositioned, Occupied, Applied;
      hide TakeOut, Shift, FlipBack, PutDown, Landing;
      if pos == newPos {
        return true;
      }
      ReorderPlan(rows, pid, pos, newPos);
      ok := UpdateIds(pid, TakeOut(pos));
      if !ok {
        return;
      }
      ok := UpdateIds(pid, Shift(pos, newPos));
      if !ok {
        return;
      }
      ok := UpdateIds(pid, FlipBack());
      if !ok {
        return;
      }
      ok := UpdateIds(pid, PutDown(newPos));
    }

    /** Reorder in a transaction: a failure leaves no trace. The arguments are not checked against the playlist. */
    method ReorderTrack(pid: string, pos: int, newPos: int) returns (ok: bool)
      requires Valid()
      modifies this`rows
      ensures UniqueKeys(rows) && OthersUnchanged(old(rows), rows, pid)
      ensures ok <==> !ReorderFails(|old(Tracks(rows, pid))|, pos, newPos)
      ensures !ok ==> rows == old(rows)
      ensures Valid() <==> !ok || KeepsNumbering(|old(Tracks(rows, pid))|, pos, newPos)
      ensures ok && KeepsNumbering(|old(Tracks(rows, pid))|, pos, newPos) ==>
        Tracks(rows, pid) == ReorderedTracks(old(Tracks(rows, pid)), pos, newPos)
      ensures ok && InRange(pos, |old(Tracks(rows, pid))|) && InRange(newPos, |old(Tracks(rows, pid))|) ==>
        IsMove(old(Tracks(rows, pid)), Tracks(rows, pid), pos, newPos)
    {
      ReorderedIsMove(Tracks(rows, pid), pos, newPos);
      hide IsMove;
      var saved := rows;
      ReorderTrackOutcome(saved, pid, pos, newPos);
      hide UniqueKeys, Dense, Repositioned, AllPositive, ShiftFails;
      hide FlipFails, ReorderedTracks, OthersUnchanged, Landing;
      ok := Reorder(pid, pos, newPos);
      if !ok {
        rows := saved;
      }
    }

    // ---- Renumber and delete ----

    /** Negates the positions, then numbers the rows by descending (negative) position. */
    method Renumber(pid: string) returns (ok: bool)
      requires UniqueKeys(rows)
      modifies this`rows
      ensures UniqueKeys(rows)
      ensures ok <==> !HasMirror(old(rows), pid)
      ensures rows == if ok then Renumbered(old(rows), pid) else old(rows)
    {
      if HasMirror(rows, pid) {
        NegateIsDoomed(rows, pid);
      } else {
        NegateIsSafe(rows, pid);
        NegatedIsUnique(rows, pid);
        NegatedIsNonPositive(rows, pid);
        RowNumbersAreSafe(Negated(rows, pid), pid);
      }
      hide UniqueKeys, SafeChange, SafeRewrite, DoomedRewrite, Repositioned, RowNumbers, Negate, HasMirror;
      ok := UpdateIds(pid, Negate());
      if !ok {
        return;
      }
      RowNumbersAreRows(rows, pid);
      ok := UpdateRows(RowNumbers(rows, pid));
    }

    /** DELETE, leaving the given rows. */
    method DeleteAllBut(keep: set<RowId>)
      requires UniqueKeys(rows)
      modifies this`rows
      ensures rows == Keep(old(rows), keep) && UniqueKeys(rows)
    {
      rows := map r | r in rows && r in keep :: rows[r];
    }

    /** Removes the tracks at the given positions and closes the gaps. */
    method Delete(pid: string, ids: set<int>) returns (ok: bool)
      requires Valid()
      modifies this`rows
      ensures Valid() && ok
      ensures Tracks(rows, pid) == WithoutPlaces(old(Tracks(rows, pid)), ids)
      ensures OthersUnchanged(old(rows), rows, pid)
      ensures exists places :: DropsPlaces(places, old(Tracks(rows, pid)), Tracks(rows, pid), ids)
    {
      ghost var before := rows;
      ghost var places := WithoutPlacesSelects(Tracks(before, pid), ids);
      assert DropsPlaces(places, Tracks(before, pid), WithoutPlaces(Tracks(before, pid), ids), ids);
      DeleteFilters(before, pid, ids);
      hide UniqueKeys, Dense, OthersUnchanged, AllPositive, HasMirror, Renumbered;
      DeleteAllBut(KeptByPosition(rows, pid, ids));
      ok := RenumberKept(pid, before);
    }

    method DeleteAll(pid: string) returns (ok: bool)
      requires Valid()
      modifies this`rows
      ensures Valid() && ok
      ensures Tracks(rows, pid) == []
      ensures OthersUnchanged(old(rows), rows, pid)
    {
      ghost var before := rows;
      DeleteEverything(before, pid);
      hide UniqueKeys, Dense, OthersUnchanged, AllPositive, HasMirror, Renumbered;
      DeleteAllBut(set r | r in rows && rows[r].playlist != pid);
      ok := RenumberKept(pid, before);
    }

    /** Renumbers a playlist that has lost rows since `before`. */
    method RenumberKept(pid: string, ghost before: Table) returns (ok: bool)
      requires UniqueKeys(rows) && AllPositive(rows, pid)
      requires UniqueKeys(before) && OthersUnchanged(before, rows, pid) && forall p :: Dense(before, p)
      modifies this`rows
      ensures Valid() && ok
      ensures Tracks(rows, pid) == old(Tracks(rows, pid))
      ensures OthersUnchanged(before, rows, pid)
    {
      RenumberKeepsOrder(rows, pid);
      RenumberSorts(rows, pid);
      OnlyPositionsLeaveOthers(before, rows, Renumbered(rows, pid), pid);
      hide UniqueKeys, Dense, OthersUnchanged, AllPositive, HasMirror, Renumbered, OnlyPositionsChange;
      ok := Renumber(pid);
      OthersStayDense(before, rows, pid);
    }

    // ---- Append ----

    /** A rowid not in use. */
    method NextRowId() returns (rid: RowId)
      ensures rid !in rows
    {
      rid := 0;
      var todo := rows.Keys;
      while todo != {}
        invariant todo <= rows.Keys
        invariant forall r | r in rows :: r in todo || r < rid
        decreases |todo|
      {
        var r :| r in todo;
        rid := if r < rid then rid else r + 1;
        todo := todo - {r};
      }
    }

    /** One INSERT of consecutive positions; a conflict undoes the whole statement. */
    method InsertChunk(pid: string, start: int, items: seq<string>) returns (ok: bool)
      requires UniqueKeys(rows)
      modifies this`rows
      ensures UniqueKeys(rows)
      ensures ok <==> Free(old(rows), pid, start, |items|)
      ensures if ok then Filled(old(rows), rows, pid, start, items) else rows == old(rows)
    {
      ghost var before := rows;
      var saved := rows;
      NothingFilled(before, pid, start);
      hide UniqueKeys, Filled, Free;
      var i := 0;
      while i < |items|
        invariant 0 <= i <= |items|
        invariant UniqueKeys(rows) && Filled(before, rows, pid, start, items[..i]) && Free(before, pid, start, i)
      {
        var rid := NextRowId();
        var row := Row(pid, items[i], start + i);
        NextIsFree(before, rows, pid, start, items, i);
        if exists r | r in rows :: rows[r].playlist == pid && rows[r].pos == row.pos {
          rows := saved;
          return false;
        }
        OneMoreFilled(before, rows, pid, start, items, i, rid);
        rows := rows[rid := row];
        i := i + 1;
      }
      assert items[..i] == items;
      return true;
    }

    /** Inserts the tracks in chunks, from position `start` on; the chunks before one that fails stay. */
    method AddTracks(pid: string, start: int, items: seq<string>) returns (ok: bool)
      requires UniqueKeys(rows)
      modifies this`rows
      ensures UniqueKeys(rows)
      ensures ok <==> Free(old(rows), pid, start, |items|)
      ensures ok ==> Filled(old(rows), rows, pid, start, items)
      ensures !ok ==> FilledUpTo(old(rows), rows, pid, start, items)
    {
      ghost var before := rows;
      NothingFilled(before, pid, start);
      hide UniqueKeys, Filled, Free;
      var pos, from := start, 0;
      while from < |items|
        invariant 0 <= from <= |items| && pos == start + from && (from % CHUNK == 0 || from == |items|)
        invariant UniqueKeys(rows) && Filled(before, rows, pid, start, items[..from]) && Free(before, pid, start, from)
      {
        ghost var middle := rows;
        var end := ChunkEnd(from, |items|);
        FreeInParts(before, middle, pid, start, items[..from], end - from);
        ok := InsertChunk(pid, pos, items[from..end]);
        if !ok {
          MoreIsNotFree(before, pid, start, end, |items|);
          return;
        }
        FilledTwice(before, middle, rows, pid, start, items[..from], items[from..end]);
        assert items[..from] + items[from..end] == items[..end];
        pos, from := pos + (end - from), end;
      }
      assert items[..from] == items;
      ok := true;
    }

    /** SELECT max(id): None for a playlist without tracks. */
    method MaxId(pid: string) returns (max: Option<int>)
      requires Valid()
      ensures max == if Tracks(rows, pid) == [] then None else Some(|Tracks(rows, pid)|)
    {
      max := None;
      var todo := rows.Keys;
      while todo != {}
        invariant todo <= rows.Keys
        invariant max.Some? ==> Occupied(rows, pid, max.value)
        invariant forall r | Within(rows, pid, r) :: r in todo || (max.Some? && rows[r].pos <= max.value)
        decreases |todo|
      {
        var r :| r in todo;
        if rows[r].playlist == pid && (max.None? || max.value < rows[r].pos) {
          RowIsOccupied(rows, pid, r);
          max := Some(rows[r].pos);
        }
        todo := todo - {r};
      }
      MaxOfDense(rows, pid, max);
    }

    /** Appends the tracks after the last position, computed in 32 bits. */
    method Add(pid: string, items: seq<string>) returns (count: nat, ok: bool)
      requires Valid()
      modifies this`rows
      ensures UniqueKeys(rows) && OthersUnchanged(old(rows), rows, pid)
      ensures ok <==> AddFits(|old(Tracks(rows, pid))|, |items|)
      ensures count == if items != [] && |old(Tracks(rows, pid))| > 0x7fff_ffff then 0 else |items|
      ensures Valid() <==> items == [] || |old(Tracks(rows, pid))| != 0x7fff_ffff
      ensures |old(Tracks(rows, pid))| < 0x7fff_ffff ==> Tracks(rows, pid) == old(Tracks(rows, pid)) + items
      ensures |old(Tracks(rows, pid))| == 0x7fff_ffff && ok ==> Tracks(rows, pid) == items + old(Tracks(rows, pid))
      ensures items == [] || |old(Tracks(rows, pid))| > 0x7fff_ffff ==> rows == old(rows)
    {
      ghost var before := rows;
      SameTable(before, pid);
      if items == [] {
        return 0, true;
      }
      hide UniqueKeys, OthersUnchanged, Free, Filled, FilledUpTo;
      var max := MaxId(pid);
      if max.Some? && max.value > MAX_INT32 {
        return 0, false;
      }
      var start := NextPos(if max.Some? then max.value else 0);
      hide Dense;
      NextPosFits(before, pid, |items|);
      ok := AddTracks(pid, start, items);
      count := |items|;
      if ok {
        AddedTracks(before, rows, pid, items);
      } else {
        AddedPartly(before, rows, pid, items);
      }
    }

    /** Replaces the tracks of a playlist. */
    method UpdatePlaylist(pid: string, items: seq<string>) returns (ok: bool)
      requires Valid()
      modifies this`rows
      ensures Valid() && ok
      ensures Tracks(rows, pid) == items
      ensures OthersUnchanged(old(rows), rows, pid)
    {
      ghost var before := rows;
      DeleteEverything(before, pid);
      hide UniqueKeys, OthersUnchanged, Dense, Free, Filled, Keep;
      DeleteAllBut(set r | r in rows && rows[r].playlist != pid);
      EmptyTakes(rows, pid, |items|);
      ghost var middle := rows;
      ok := AddTracks(pid, 1, items);
      FilledEmpty(middle, rows, pid, items);
      OthersTwice(before, middle, rows, pid);
      OthersStayDense(before, rows, pid);
    }

    // ---- Orphans ----

    /** Drops the tracks whose file is gone from every existing playlist, and renumbers those it touched. */
    method RemoveOrphans() returns (ok: bool)
      requires Valid()
      modifies this`rows
      ensures Valid() && ok
      ensures OrphansRemoved(old(rows), rows, media, playlists)
      ensures forall pid | pid in playlists :: exists places ::
        KeepsFiles(places, old(Tracks(rows, pid)), Tracks(rows, pid), media)
    {
      ghost var before := rows;
      var todo := Affected(rows, media, playlists);
      ghost var all := todo;
      CleanedAtFirst(before, media);
      hide UniqueKeys, Dense, Cleaned, Affected, Filtered, OrphansRemoved;
      assert all - todo == {};
      while todo != {}
        invariant todo <= all
        invariant UniqueKeys(rows) && Cleaned(before, rows, media, all - todo)
        decreases |todo|
      {
        var pid :| pid in todo;
        ok := RemoveOrphansOf(pid, before, all - todo);
        if !ok {
          return;
        }
        OneMoreDone(all, todo, pid);
        todo := todo - {pid};
      }
      assert all - {} == all;
      AllCleaned(before, rows, media, all, playlists);
      RemovedKeepsFiles(before, rows, media, playlists);
      return true;
    }

    /** One playlist of removeOrphans; it is an error if nothing was deleted. */
    method RemoveOrphansOf(pid: string, ghost before: Table, ghost done: set<string>) returns (ok: bool)
      requires UniqueKeys(before) && UniqueKeys(rows) && Cleaned(before, rows, media, done)
      requires pid !in done && pid in Affected(before, media, playlists)
      modifies this`rows
      ensures ok && UniqueKeys(rows) && Cleaned(before, rows, media, done + {pid})
    {
      ghost var middle := rows;
      CleanedIsDense(before, middle, media, done);
      OrphansFilter(middle, pid, media);
      SomeOrphanRemains(before, middle, media, done, playlists, pid);
      hide UniqueKeys, Dense, OthersUnchanged, AllPositive, Filtered, Cleaned, Keep, KeptByMedia;
      var keep := KeptByMedia(rows, pid, media);
      if Keep(rows, keep) == rows {
        return false;
      }
      DeleteAllBut(keep);
      ok := RenumberKept(pid, middle);
      CleanedOneMore(before, middle, rows, media, done, pid);
    }
  }

  /** The track at place pos is at place newPos, and the others follow each other as before. */
  predicate IsMove(before: seq<string>, after: seq<string>, pos: int, newPos: int) {
    && 1 <= pos <= |before| == |after| && 1 <= newPos <= |after| && after[newPos - 1] == before[pos - 1]
    && after[..newPos - 1] + after[newPos..] == before[..pos - 1] + before[pos..]
  }

  lemma ReorderedIsMove(tracks: seq<string>, pos: int, newPos: int)
    ensures InRange(pos, |tracks|) && InRange(newPos, |tracks|) ==>
      KeepsNumbering(|tracks|, pos, newPos) && IsMove(tracks, ReorderedTracks(tracks, pos, newPos), pos, newPos)
  {
    if InRange(pos, |tracks|) && InRange(newPos, |tracks|) {
      MovedIs(tracks, pos - 1, newPos - 1);
    }
  }

  // ---- Runs that fall short ----

  /** Moving the first of three tracks past the end leaves a gap. */
  method ReorderPastTheEnd() returns (store: Store, ok: bool)
    ensures fresh(store) && UniqueKeys(store.rows)
    ensures ok && !store.Valid()
  {
    store := new Store({}, {"p"});
    var filled := store.UpdatePlaylist("p", ["a", "b", "c"]);
    ok := store.ReorderTrack("p", 1, 5);
  }

  /** Within a playlist of a million tracks, moving the fifth to the end meets the sentinel and is undone. */
  method ReorderMeetsSentinel() returns (store: Store, ok: bool)
    ensures fresh(store) && store.Valid()
    ensures !ok && Tracks(store.rows, "p") == seq(1000000, _ => "a")
  {
    store := new Store({}, {"p"});
    var filled := store.UpdatePlaylist("p", seq(1000000, _ => "a"));
    ok := store.ReorderTrack("p", 5, 1000000);
  }

  /** The track added after 2^31-1 others becomes the first, at position -2^31. */
  method AddWraps() returns (store: Store, ok: bool)
    ensures fresh(store) && UniqueKeys(store.rows)
    ensures ok && !store.Valid() && Tracks(store.rows, "p") == ["b"] + seq(0x7fff_ffff, _ => "a")
  {
    store := new Store({}, {"p"});
    var filled := store.UpdatePlaylist("p", seq(0x7fff_ffff, _ => "a"));
    var count: nat;
    count, ok := store.Add("p", ["b"]);
  }

  predicate IsOrphan(rows: Table, r: RowId, pid: string, media: set<string>) {
    Within(rows, pid, r) && rows[r].media !in media
  }

  /** Every existing playlist keeps just its tracks with a file, in order; others are as they were. */
  ghost predicate OrphansRemoved(before: Table, after: Table, media: set<string>, playlists: set<string>)
    requires UniqueKeys(before) && UniqueKeys(after)
  {
    && (forall pid | pid in playlists :: Tracks(after, pid) == Filtered(Tracks(before, pid), media))
    && (forall pid | pid !in playlists :: Tracks(after, pid) == Tracks(before, pid))
  }

  /** What is left of the tracks are those at these places, which are those not dropped. */
  predicate DropsPlaces(places: seq<nat>, before: seq<string>, after: seq<string>, dropped: set<int>) {
    Selects(places, before, after) && forall i | 0 <= i < |before| :: i in places <==> i + 1 !in dropped
  }

  /** What is left of the tracks are those at these places, which are those with a file. */
  predicate KeepsFiles(places: seq<nat>, before: seq<string>, after: seq<string>, media: set<string>) {
    Selects(places, before, after) && forall i | 0 <= i < |before| :: i in places <==> before[i] in media
  }

  lemma RemovedKeepsFiles(before: Table, after: Table, media: set<string>, playlists: set<string>)
    requires UniqueKeys(before) && UniqueKeys(after) && OrphansRemoved(before, after, media, playlists)
    ensures forall pid | pid in playlists :: exists places ::
      KeepsFiles(places, Tracks(before, pid), Tracks(after, pid), media)
  {
    hide UniqueKeys;
    forall pid | pid in playlists
      ensures exists places :: KeepsFiles(places, Tracks(before, pid), Tracks(after, pid), media)
    {
      var places := FilteredSelects(Tracks(before, pid), media);
      assert KeepsFiles(places, Tracks(before, pid), Tracks(after, pid), media);
    }
  }

  lemma OneMoreDone(all: set<string>, todo: set<string>, pid: string)
    requires todo <= all && pid in todo
    ensures all - (todo - {pid}) == (all - todo) + {pid}
  {
  }

  function Affected(rows: Table, media: set<string>, playlists: set<string>): set<string> {
    set pid | pid in playlists && exists r | r in rows :: IsOrphan(rows, r, pid, media)
  }

  /** Partway through removeOrphans: some playlists are done, the others are as they were. */
  ghost predicate Cleaned(before: Table, after: Table, media: set<string>, done: set<string>)
    requires UniqueKeys(before) && UniqueKeys(after)
  {
    && (forall pid :: Dense(after, pid))
    && (forall pid :: CleanedTracks(before, after, media, done, pid))
    && (forall r | r in before && before[r].playlist !in done :: r in after && after[r] == before[r])
  }

  ghost predicate CleanedTracks(before: Table, after: Table, media: set<string>, done: set<string>, pid: string)
    requires UniqueKeys(before) && UniqueKeys(after)
  {
    Tracks(after, pid) == if pid in done then Filtered(Tracks(before, pid), media) else Tracks(before, pid)
  }

  lemma CleanedAtFirst(before: Table, media: set<string>)
    requires UniqueKeys(before) && forall pid :: Dense(before, pid)
    ensures Cleaned(before, before, media, {})
  {
  }

  lemma CleanedIsDense(before: Table, after: Table, media: set<string>, done: set<string>)
    requires UniqueKeys(before) && UniqueKeys(after) && Cleaned(before, after, media, done)
    ensures forall pid :: Dense(after, pid)
  {
  }

  lemma SomeOrphanRemains(before: Table, rows: Table, media: set<string>,
      done: set<string>, playlists: set<string>, pid: string)
    requires UniqueKeys(before) && UniqueKeys(rows) && Cleaned(before, rows, media, done)
    requires pid !in done && pid in Affected(before, media, playlists)
    ensures Keep(rows, KeptByMedia(rows, pid, media)) != rows
  {
    var r :| r in before && IsOrphan(before, r, pid, media);
    assert r in rows && rows[r] == before[r];
    assert r !in KeptByMedia(rows, pid, media);
  }

  lemma CleanedStep(before: Table, middle: Table, after: Table, media: set<string>,
      done: set<string>, pid: string, p: string)
    requires UniqueKeys(before) && UniqueKeys(middle) && UniqueKeys(after)
    requires CleanedTracks(before, middle, media, done, p) && pid !in done
    requires OthersUnchanged(middle, after, pid) && Tracks(after, pid) == Filtered(Tracks(middle, pid), media)
    ensures CleanedTracks(before, after, media, done + {pid}, p)
  {
    hide UniqueKeys, OthersUnchanged, Filtered, Tracks, IsOrder;
    if p != pid {
      OtherPlaylistsKeepTheirOrder(middle, after, pid, p);
    }
  }

  lemma CleanedOneMore(before: Table, middle: Table, after: Table, media: set<string>, done: set<string>, pid: string)
    requires UniqueKeys(before) && UniqueKeys(middle) && UniqueKeys(after)
    requires Cleaned(before, middle, media, done) && pid !in done
    requires OthersUnchanged(middle, after, pid) && forall p :: Dense(after, p)
    requires Tracks(after, pid) == Filtered(Tracks(middle, pid), media)
    ensures Cleaned(before, after, media, done + {pid})
  {
    hide UniqueKeys, Dense, CleanedTracks, Filtered;
    forall p
      ensures CleanedTracks(before, after, media, done + {pid}, p)
    {
      assert CleanedTracks(before, middle, media, done, p);
      CleanedStep(before, middle, after, media, done, pid, p);
    }
  }

  /** What removeOrphans does to one playlist, once every playlist with an orphan is done. */
  lemma CleanedAtLast(before: Table, after: Table, media: set<string>,
      done: set<string>, playlists: set<string>, pid: string)
    requires UniqueKeys(before) && UniqueKeys(after) && Cleaned(before, after, media, done)
    requires done == Affected(before, media, playlists)
    ensures Tracks(after, pid) == if pid in playlists then Filtered(Tracks(before, pid), media) else Tracks(before, pid)
  {
    assert CleanedTracks(before, after, media, done, pid);
    if pid in playlists && pid !in done {
      forall i | 0 <= i < |Order(before, pid)|
        ensures Tracks(before, pid)[i] in media
      {
        assert Within(before, pid, Order(before, pid)[i]);
        assert !IsOrphan(before, Order(before, pid)[i], pid, media);
      }
      FilteredAll(Tracks(before, pid), media);
    }
  }

  lemma AllCleaned(before: Table, after: Table, media: set<string>, done: set<string>, playlists: set<string>)
    requires UniqueKeys(before) && UniqueKeys(after) && Cleaned(before, after, media, done)
    requires done == Affected(before, media, playlists)
    ensures (forall pid :: Dense(after, pid)) && OrphansRemoved(before, after, media, playlists)
  {
    CleanedIsDense(before, after, media, done);
    hide UniqueKeys, Cleaned, Affected, Dense, Filtered;
    forall pid
      ensures Tracks(after, pid) ==
        if pid in playlists then Filtered(Tracks(before, pid), media) else Tracks(before, pid)
    {
      CleanedAtLast(before, after, media, done, playlists, pid);
    }
  }

  /** The insertion stopped at the first chunk that meets a track. */
  ghost predicate FilledUpTo(before: Table, after: Table, pid: string, start: int, items: seq<string>) {
    exists k | 0 <= k < |items| && k % 200 == 0 ::
      && Filled(before, after, pid, start, items[..k])
      && Free(before, pid, start, k) && !Free(before, pid, start, ChunkEnd(k, |items|))
  }

  lemma MoreIsNotFree(rows: Table, pid: string, start: int, n: nat, m: nat)
    requires !Free(rows, pid, start, n) && n <= m
    ensures !Free(rows, pid, start, m)
  {
  }

  /** The next position is occupied now just if it was at first. */
  lemma NextIsFree(before: Table, rows: Table, pid: string, start: int, items: seq<string>, i: nat)
    requires i < |items| && Filled(before, rows, pid, start, items[..i]) && Free(before, pid, start, i)
    ensures (exists r | r in rows :: rows[r].playlist == pid && rows[r].pos == start + i) <==>
      Occupied(rows, pid, start + i)
    ensures Occupied(rows, pid, start + i) ==> !Free(before, pid, start, |items|)
    ensures !Occupied(rows, pid, start + i) ==> Free(before, pid, start, i + 1)
  {
    FilledOccupied(before, rows, pid, start, items[..i], start + i);
    hide Filled;
    if r :| Within(rows, pid, r) && rows[r].pos == start + i {
      assert r in rows;
    }
  }

  lemma OneMoreFilled(before: Table, rows: Table, pid: string, start: int, items: seq<string>, i: nat, rid: RowId)
    requires UniqueKeys(rows) && i < |items| && rid !in rows
    requires Filled(before, rows, pid, start, items[..i]) && !Occupied(rows, pid, start + i)
    ensures var after := rows[rid := Row(pid, items[i], start + i)];
      UniqueKeys(after) && Filled(before, after, pid, start, items[..i + 1])
  {
    var after := rows[rid := Row(pid, items[i], start + i)];
    RowKeepsUnique(rows, pid, rid, items[i], start + i);
    RowFills(rows, pid, rid, items[i], start + i);
    hide UniqueKeys, Filled, Occupied;
    FilledTwice(before, rows, after, pid, start, items[..i], [items[i]]);
    assert items[..i] + [items[i]] == items[..i + 1];
  }

  lemma MaxOfDense(rows: Table, pid: string, max: Option<int>)
    requires UniqueKeys(rows) && Dense(rows, pid)
    requires max.Some? ==> Occupied(rows, pid, max.value)
    requires forall r | Within(rows, pid, r) :: max.Some? && rows[r].pos <= max.value
    ensures max == if Tracks(rows, pid) == [] then None else Some(|Tracks(rows, pid)|)
  {
    var n := |Order(rows, pid)|;
    if max.Some? {
      DenseOccupied(rows, pid, max.value);
    }
    if n > 0 {
      assert Within(rows, pid, Order(rows, pid)[n - 1]);
    }
  }

  /** Whether all m tracks can be added to n; a sum that wraps leaves room for 2^31 + 1. */
  predicate AddFits(n: nat, m: nat) {
    m == 0 || n < 0x7fff_ffff || (n == 0x7fff_ffff && m <= 0x8000_0001)
  }

  lemma NextPosFits(rows: Table, pid: string, m: nat)
    requires UniqueKeys(rows) && Dense(rows, pid) && m > 0 && |Tracks(rows, pid)| <= MAX_INT32
    ensures Free(rows, pid, NextPos(|Tracks(rows, pid)|), m) <==> AddFits(|Tracks(rows, pid)|, m)
    ensures |Tracks(rows, pid)| < MAX_INT32 ==> NextPos(|Tracks(rows, pid)|) == |Tracks(rows, pid)| + 1
    ensures |Tracks(rows, pid)| < MAX_INT32 ==> Below(rows, pid, |Tracks(rows, pid)| + 1)
  {
    var n := |Tracks(rows, pid)|;
    forall p
      ensures Occupied(rows, pid, p) <==> 1 <= p <= n
    {
      DenseOccupied(rows, pid, p);
    }
    hide Dense, Occupied;
    if n == MAX_INT32 && m > 0x8000_0001 {
      assert Occupied(rows, pid, 1);
    }
  }

  lemma AddedTracks(before: Table, after: Table, pid: string, items: seq<string>)
    requires UniqueKeys(before) && UniqueKeys(after) && items != [] && (forall p :: Dense(before, p))
    requires |Tracks(before, pid)| <= MAX_INT32 && AddFits(|Tracks(before, pid)|, |items|)
    requires Filled(before, after, pid, NextPos(|Tracks(before, pid)|), items)
    ensures OthersUnchanged(before, after, pid)
    ensures (forall p :: Dense(after, p)) <==> |Tracks(before, pid)| < MAX_INT32
    ensures Tracks(after, pid) ==
      if |Tracks(before, pid)| < MAX_INT32 then Tracks(before, pid) + items else items + Tracks(before, pid)
  {
    var start := NextPos(|Tracks(before, pid)|);
    FilledLeavesOthers(before, after, pid, start, items);
    NextPosFits(before, pid, |items|);
    hide UniqueKeys, Dense, Filled, Free, Below, OthersUnchanged;
    if |Tracks(before, pid)| < MAX_INT32 {
      FilledAppends(before, after, pid, start, items);
      OthersStayDense(before, after, pid);
    } else {
      FilledPrepends(before, after, pid, start, items);
    }
  }

  lemma AddedPartly(before: Table, after: Table, pid: string, items: seq<string>)
    requires UniqueKeys(before) && UniqueKeys(after) && items != [] && (forall p :: Dense(before, p))
    requires |Tracks(before, pid)| <= MAX_INT32 && !AddFits(|Tracks(before, pid)|, |items|)
    requires FilledUpTo(before, after, pid, NextPos(|Tracks(before, pid)|), items)
    ensures OthersUnchanged(before, after, pid) && !Dense(after, pid)
  {
    var start := NextPos(|Tracks(before, pid)|);
    var k :| 0 <= k < |items| && k % 200 == 0 && Filled(before, after, pid, start, items[..k])
      && Free(before, pid, start, k) && !Free(before, pid, start, ChunkEnd(k, |items|));
    NextPosFits(before, pid, ChunkEnd(k, |items|));
    FilledLeavesOthers(before, after, pid, start, items[..k]);
    FilledOccupied(before, after, pid, start, items[..k], start);
    hide Filled, Free, UniqueKeys;
    if Dense(after, pid) {
      DenseOccupied(after, pid, start);
    }
  }

  lemma EmptyTakes(rows: Table, pid: string, n: nat)
    requires UniqueKeys(rows) && Tracks(rows, pid) == []
    ensures Free(rows, pid, 1, n) && Below(rows, pid, 1) && Dense(rows, pid)
  {
    forall q
      ensures !Occupied(rows, pid, q)
    {
      DenseOccupied(rows, pid, q);
    }
  }

  lemma FilledEmpty(before: Table, after: Table, pid: string, items: seq<string>)
    requires UniqueKeys(before) && UniqueKeys(after) && Filled(before, after, pid, 1, items)
    requires Tracks(before, pid) == []
    ensures OthersUnchanged(before, after, pid) && Dense(after, pid) && Tracks(after, pid) == items
  {
    EmptyTakes(before, pid, |items|);
    FilledLeavesOthers(before, after, pid, 1, items);
    hide UniqueKeys, Dense, Filled, Free, Below, OthersUnchanged;
    FilledAppends(before, after, pid, 1, items);
    assert [] + items == items;
  }

  lemma RowIsOccupied(rows: Table, pid: string, r: RowId)
    requires Within(rows, pid, r)
    ensures Occupied(rows, pid, rows[r].pos)
  {
  }

  lemma RowNumbersAreRows(rows: Table, pid: string)
    ensures RowNumbers(rows, pid).Keys <= rows.Keys
  {
  }

  lemma OnlyPositionsLeaveOthers(before: Table, middle: Table, after: Table, pid: string)
    requires OthersUnchanged(before, middle, pid) && OnlyPositionsChange(middle, after, pid)
    ensures OthersUnchanged(before, after, pid)
  {
  }

  /** Deleting a whole playlist. */
  lemma DeleteEverything(rows: Table, pid: string)
    requires UniqueKeys(rows)
    ensures var kept := Keep(rows, set r | r in rows && rows[r].playlist != pid);
      && UniqueKeys(kept) && OthersUnchanged(rows, kept, pid) && AllPositive(kept, pid) && Tracks(kept, pid) == []
  {
    var kept := Keep(rows, set r | r in rows && rows[r].playlist != pid);
    assert forall r :: !Within(kept, pid, r);
    assert IsOrder(kept, pid, []);
    TheOrder(kept, pid, []);
  }

  /** How the four statements of Reorder fare. */
  lemma ReorderPlan(rows: Table, pid: string, pos: int, newPos: int)
    requires UniqueKeys(rows) && AllPositive(rows, pid) && pos != newPos
    ensures SafeChange(rows, pid, TakeOut(pos))
    ensures ShiftFails(rows, pid, pos, newPos) ==>
      DoomedRewrite(AfterTakeOut(rows, pid, pos), TargetOf(AfterTakeOut(rows, pid, pos), pid, Shift(pos, newPos)))
    ensures !ShiftFails(rows, pid, pos, newPos) ==> SafeChange(AfterTakeOut(rows, pid, pos), pid, Shift(pos, newPos))
    ensures FlipFails(rows, pid, pos, newPos) ==>
      DoomedRewrite(AfterShift(rows, pid, pos, newPos), TargetOf(AfterShift(rows, pid, pos, newPos), pid, FlipBack()))
    ensures !ShiftFails(rows, pid, pos, newPos) && !FlipFails(rows, pid, pos, newPos) ==>
      && SafeChange(AfterShift(rows, pid, pos, newPos), pid, FlipBack())
      && SafeChange(AfterFlip(rows, pid, pos, newPos), pid, PutDown(newPos))
      && AfterPutDown(rows, pid, pos, newPos) == Repositioned(rows, pid, Landing(pos, newPos))
  {
    hide SafeChange, DoomedRewrite, AllPositive, Occupied, ShiftFails, FlipFails, UniqueKeys, Repositioned, Landing;
    TakeOutIsSafe(rows, pid, pos);
    AfterShiftIs(rows, pid, pos, newPos);
    if ShiftFails(rows, pid, pos, newPos) {
      ShiftIsDoomed(rows, pid, pos, newPos);
    } else {
      ShiftIsSafe(rows, pid, pos, newPos);
      PutDownIsSafe(rows, pid, pos, newPos);
    }
    if FlipFails(rows, pid, pos, newPos) {
      FlipIsDoomed(rows, pid, pos, newPos);
    } else if !ShiftFails(rows, pid, pos, newPos) {
      FlipIsSafe(rows, pid, pos, newPos);
    }
  }

  /** What the landing of a dense playlist's rows means for all playlists. */
  lemma ReorderTrackOutcome(rows: Table, pid: string, pos: int, newPos: int)
    requires UniqueKeys(rows) && forall p :: Dense(rows, p)
    ensures AllPositive(rows, pid) && OthersUnchanged(rows, rows, pid)
    ensures pos == newPos ==> ReorderedTracks(Tracks(rows, pid), pos, newPos) == Tracks(rows, pid)
    ensures pos != newPos ==>
      (ReorderFails(|Tracks(rows, pid)|, pos, newPos) <==>
        ShiftFails(rows, pid, pos, newPos) || FlipFails(rows, pid, pos, newPos))
    ensures pos != newPos && !ReorderFails(|Tracks(rows, pid)|, pos, newPos) ==>
      Lands(rows, Repositioned(rows, pid, Landing(pos, newPos)), pid, pos, newPos)
  {
    DenseIsPositive(rows, pid);
    if pos == newPos {
      if InRange(pos, |Tracks(rows, pid)|) {
        MoveNowhere(Tracks(rows, pid), pos - 1);
      }
    } else {
      DenseReorderFails(rows, pid, pos, newPos);
      if !ReorderFails(|Tracks(rows, pid)|, pos, newPos) {
        ReorderLands(rows, pid, pos, newPos);
      }
    }
  }

  ghost predicate Lands(rows: Table, after: Table, pid: string, pos: int, newPos: int)
    requires UniqueKeys(rows)
  {
    && UniqueKeys(after) && OthersUnchanged(rows, after, pid)
    && ((forall p :: Dense(after, p)) <==> KeepsNumbering(|Tracks(rows, pid)|, pos, newPos))
    && (KeepsNumbering(|Tracks(rows, pid)|, pos, newPos) ==>
        Tracks(after, pid) == ReorderedTracks(Tracks(rows, pid), pos, newPos))
  }

  lemma ReorderLands(rows: Table, pid: string, pos: int, newPos: int)
    requires UniqueKeys(rows) && pos != newPos && !ReorderFails(|Tracks(rows, pid)|, pos, newPos)
    requires forall p :: Dense(rows, p)
    ensures Lands(rows, Repositioned(rows, pid, Landing(pos, newPos)), pid, pos, newPos)
  {
    var after := Repositioned(rows, pid, Landing(pos, newPos));
    DenseReorderFails(rows, pid, pos, newPos);
    LandingIsUnique(rows, pid, pos, newPos);
    ReorderKeepsDenseIff(rows, pid, pos, newPos);
    hide UniqueKeys, Dense, Repositioned, ReorderedTracks, OthersUnchanged, KeepsNumbering, ReorderFails;
    if KeepsNumbering(|Tracks(rows, pid)|, pos, newPos) {
      LandingKeepsTracks(rows, pid, pos, newPos);
      OthersStayDense(rows, after, pid);
    }
  }

  lemma MoveNowhere<T>(s: seq<T>, i: nat)
    requires i < |s|
    ensures Moved(s, i, i) == s
  {
  }

  lemma SameTable(rows: Table, pid: string)
    ensures OthersUnchanged(rows, rows, pid)
  {
  }

  /** A change to one playlist that leaves it dense leaves all of them dense. */
  lemma OthersStayDense(before: Table, after: Table, pid: string)
    requires UniqueKeys(before) && UniqueKeys(after) && OthersUnchanged(before, after, pid)
    requires Dense(after, pid) && forall p :: Dense(before, p)
    ensures forall p :: Dense(after, p)
  {
    forall p
      ensures Dense(after, p)
    {
      if p != pid {
        OtherPlaylistsKeepTheirOrder(before, after, pid, p);
      }
    }
  }

  /** Whether another row of the playlist has the position. */
  predicate Clashes(rows: Table, r: RowId, p: int)
    requires r in rows
  {
    exists s | s in rows :: s != r && rows[s].playlist == rows[r].playlist && rows[s].pos == p
  }

  /** No row that trades positions with another has been written yet. */
  ghost predicate NoSwapBegun(before: Table, target: map<RowId, int>, done: set<RowId>) {
    forall r, s | Swaps(before, target, r, s) :: r !in done
  }

  lemma NothingWritten(before: Table, target: map<RowId, int>)
    ensures Rewritten(before, Restrict(target, {})) == before
    ensures NoSwapBegun(before, target, {})
  {
  }

  lemma AllWritten(before: Table, target: map<RowId, int>, done: set<RowId>)
    requires done == target.Keys && NoSwapBegun(before, target, done)
    requires UniqueKeys(Rewritten(before, Restrict(target, done)))
    ensures Restrict(target, done) == target
    ensures !DoomedRewrite(before, target)
  {
    assert Restrict(target, done) == target;
  }

  /** The first row of a trading pair to be written meets the other. */
  lemma SwapNotBegun(before: Table, target: map<RowId, int>, done: set<RowId>, r: RowId)
    requires target.Keys <= before.Keys && r in target && r !in done && NoSwapBegun(before, target, done)
    requires !Clashes(Rewritten(before, Restrict(target, done)), r, target[r])
    ensures NoSwapBegun(before, target, done + {r})
  {
    var rows := Rewritten(before, Restrict(target, done));
    forall q, s | Swaps(before, target, q, s)
      ensures q !in done + {r}
    {
      assert Swaps(before, target, s, q);
      assert s !in done && s in rows && rows[s] == before[s];
    }
  }

  lemma OneMoreWritten(before: Table, target: map<RowId, int>, done: set<RowId>, r: RowId)
    requires target.Keys <= before.Keys && r in target && r !in done
    requires UniqueKeys(Rewritten(before, Restrict(target, done)))
    ensures var rows := Rewritten(before, Restrict(target, done));
      && r in rows
      && rows[r := rows[r].(pos := target[r])] == Rewritten(before, Restrict(target, done + {r}))
      && (UniqueKeys(Rewritten(before, Restrict(target, done + {r}))) <==> !Clashes(rows, r, target[r]))
  {
    var rows := Rewritten(before, Restrict(target, done));
    WriteKeepsUniqueIff(rows, r, target[r]);
  }

  lemma WriteKeepsUniqueIff(rows: Table, r: RowId, p: int)
    requires UniqueKeys(rows) && r in rows
    ensures UniqueKeys(rows[r := rows[r].(pos := p)]) <==> !Clashes(rows, r, p)
  {
    var after := rows[r := rows[r].(pos := p)];
    if Clashes(rows, r, p) {
      var s :| s in rows && s != r && rows[s].playlist == rows[r].playlist && rows[s].pos == p;
      assert after[s].pos == after[r].pos;
    }
  }

  /** A refused write shows that the statement was not safe. */
  lemma Refused(before: Table, target: map<RowId, int>, done: set<RowId>, r: RowId)
    requires UniqueKeys(before) && !UniqueKeys(Rewritten(before, Restrict(target, done + {r})))
    ensures !SafeRewrite(before, target)
  {
    if SafeRewrite(before, target) {
      PartsOfSafeAreUnique(before, target, done + {r});
    }
  }
}
