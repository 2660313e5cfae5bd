/** Runs of repository calls, against a library that is just a sequence of tracks per playlist. */
module PlaylistRuns {
  import opened PlaylistTable
  import opened PlaylistSequences
  import opened PlaylistNumbering
  import opened PlaylistReorder
  import opened PlaylistStore

  datatype Library = Library(tracks: string -> seq<string>, media: set<string>, playlists: set<string>)

  datatype Operation =
    | Add(pid: string, items: seq<string>)
    | Delete(pid: string, places: set<int>)
    | DeleteAll(pid: string)
    | Reorder(pid: string, pos: int, newPos: int)
    | Update(pid: string, items: seq<string>)
    | RemoveOrphans
    | ChangeFiles(media: set<string>)

  // ---- What the operations mean ----

  function With(lib: Library, pid: string, tracks: seq<string>): Library {
    lib.(tracks := p => if p == pid then tracks else lib.tracks(p))
  }

  function AddedTo(tracks: seq<string>, items: seq<string>): seq<string> {
    if |tracks| > 0x7fff_ffff then tracks else tracks + items
  }

  function MovedWithin(tracks: seq<string>, pos: int, newPos: int): seq<string> {
    if ReorderFails(|tracks|, pos, newPos) then tracks else ReorderedTracks(tracks, pos, newPos)
  }

  function After(lib: Library, op: Operation): Library {
    match op
    case Add(pid, items) => With(lib, pid, AddedTo(lib.tracks(pid), items))
    case Delete(pid, places) => With(lib, pid, WithoutPlaces(lib.tracks(pid), places))
    case DeleteAll(pid) => With(lib, pid, [])
    case Reorder(pid, pos, newPos) => With(lib, pid, MovedWithin(lib.tracks(pid), pos, newPos))
    case Update(pid, items) => With(lib, pid, items)
    case RemoveOrphans =>
      lib.(tracks := p => if p in lib.playlists then Filtered(lib.tracks(p), lib.media) else lib.tracks(p))
    case ChangeFiles(media) => lib.(media := media)
  }

  function AfterAll(lib: Library, ops: seq<Operation>): Library {
    if ops == [] then lib else After(AfterAll(lib, ops[..|ops| - 1]), ops[|ops| - 1])
  }

  /** The operation keeps every playlist numbered 1..n. */
  predicate Harmless(lib: Library, op: Operation) {
    match op
    case Add(pid, items) => items == [] || |lib.tracks(pid)| != 0x7fff_ffff
    case Reorder(pid, pos, newPos) =>
      ReorderFails(|lib.tracks(pid)|, pos, newPos) || KeepsNumbering(|lib.tracks(pid)|, pos, newPos)
    case _ => true
  }

  predicate AllHarmless(lib: Library, ops: seq<Operation>) {
    forall i | 0 <= i < |ops| :: Harmless(AfterAll(lib, ops[..i]), ops[i])
  }

  // ---- The store performs them ----

  ghost predicate Shows(rows: Table, lib: Library)
    requires UniqueKeys(rows)
  {
    forall pid :: Tracks(rows, pid) == lib.tracks(pid)
  }

  /** The store is numbered throughout and has the library's tracks. */
  ghost predicate Holds(store: Store, lib: Library)
    reads store
  {
    store.Valid() && Shows(store.rows, lib) && store.media == lib.media && store.playlists == lib.playlists
  }

  lemma OneChanges(before: Table, after: Table, lib: Library, pid: string, tracks: seq<string>)
    requires UniqueKeys(before) && UniqueKeys(after) && Shows(before, lib)
    requires OthersUnchanged(before, after, pid) && Tracks(after, pid) == tracks
    ensures Shows(after, With(lib, pid, tracks))
  {
    hide UniqueKeys, OthersUnchanged;
    forall p
      ensures Tracks(after, p) == With(lib, pid, tracks).tracks(p)
    {
      if p != pid {
        OtherPlaylistsKeepTheirOrder(before, after, pid, p);
      }
    }
  }

  /** One operation keeps the numbering just if it is harmless, and then does what it means. */
  method Perform(store: Store, op: Operation, ghost lib: Library)
    requires Holds(store, lib)
    modifies store
    ensures store.Valid() <==> Harmless(lib, op)
    ensures Harmless(lib, op) ==> Holds(store, After(lib, op))
  {
    ghost var before := store.rows;
    var ok;
    hide UniqueKeys, Dense, OthersUnchanged, ReorderFails, KeepsNumbering, Filtered, WithoutPlaces, ReorderedTracks;
    match op
    case Add(pid, items) =>
      var count: nat;
      count, ok := store.Add(pid, items);
      if Harmless(lib, op) {
        OneChanges(before, store.rows, lib, pid, AddedTo(lib.tracks(pid), items));
      }
    case Delete(pid, places) =>
      ok := store.Delete(pid, places);
      OneChanges(before, store.rows, lib, pid, WithoutPlaces(lib.tracks(pid), places));
    case DeleteAll(pid) =>
      ok := store.DeleteAll(pid);
      OneChanges(before, store.rows, lib, pid, []);
    case Reorder(pid, pos, newPos) =>
      ok := store.ReorderTrack(pid, pos, newPos);
      if Harmless(lib, op) {
        OneChanges(before, store.rows, lib, pid, MovedWithin(lib.tracks(pid), pos, newPos));
      }
    case Update(pid, items) =>
      ok := store.UpdatePlaylist(pid, items);
      OneChanges(before, store.rows, lib, pid, items);
    case RemoveOrphans =>
      ok := store.RemoveOrphans();
    case ChangeFiles(media) =>
      store.media := media;
  }

  /** Any run of harmless operations leaves every playlist numbered 1..n and with the tracks it should have. */
  method Run(store: Store, ops: seq<Operation>, ghost lib: Library)
    requires Holds(store, lib) && AllHarmless(lib, ops)
    modifies store
    ensures Holds(store, AfterAll(lib, ops))
  {
    var i := 0;
    hide Holds, Harmless, After;
    while i < |ops|
      invariant 0 <= i <= |ops|
      invariant Holds(store, AfterAll(lib, ops[..i]))
    {
      Perform(store, ops[i], AfterAll(lib, ops[..i]));
      assert ops[..i + 1][..i] == ops[..i];
      i := i + 1;
    }
    assert ops[..i] == ops;
  }

  // ---- When runs are harmless ----

  function Added(ops: seq<Operation>): nat {
    if ops == [] then 0 else
      var op := ops[|ops| - 1];
      Added(ops[..|ops| - 1]) + if op.Add? || op.Update? then |op.items| else 0
  }

  lemma AddedGrows(ops: seq<Operation>, i: nat)
    requires i <= |ops|
    ensures Added(ops[..i]) <= Added(ops)
  {
    if i < |ops| {
      AddedGrows(ops[..|ops| - 1], i);
      assert ops[..|ops| - 1][..i] == ops[..i];
    } else {
      assert ops[..i] == ops;
    }
  }

  lemma {:induction false} FilteredIsShorter(s: seq<string>, keep: set<string>)
    ensures |Filtered(s, keep)| <= |s|
  {
    if s != [] {
      FilteredIsShorter(s[..|s| - 1], keep);
    }
  }

  lemma {:induction false} WithoutPlacesIsShorter(s: seq<string>, places: set<int>)
    ensures |WithoutPlaces(s, places)| <= |s|
  {
    if s != [] {
      WithoutPlacesIsShorter(s[..|s| - 1], places);
    }
  }

  /** No playlist outgrows what the run has added. */
  lemma {:induction false} TracksAreBounded(lib: Library, ops: seq<Operation>, p: string)
    ensures |AfterAll(lib, ops).tracks(p)| <= |lib.tracks(p)| + Added(ops)
  {
    if ops != [] {
      var middle, op := AfterAll(lib, ops[..|ops| - 1]), ops[|ops| - 1];
      TracksAreBounded(lib, ops[..|ops| - 1], p);
      hide Filtered, WithoutPlaces, ReorderFails;
      match op
      case Delete(_, places) => WithoutPlacesIsShorter(middle.tracks(p), places);
      case RemoveOrphans => FilteredIsShorter(middle.tracks(p), middle.media);
      case _ =>
    }
  }

  /** Every move names places of its playlist. */
  predicate MovesInRange(lib: Library, ops: seq<Operation>) {
    forall i | 0 <= i < |ops| && ops[i].Reorder? ::
      var n := |AfterAll(lib, ops[..i]).tracks(ops[i].pid)|;
      InRange(ops[i].pos, n) && InRange(ops[i].newPos, n)
  }

  function Empty(media: set<string>, playlists: set<string>): Library {
    Library(_ => [], media, playlists)
  }

  /** From an empty library, moves within their playlists and fewer than 2^31 added tracks suffice. */
  lemma RunsAreHarmless(media: set<string>, playlists: set<string>, ops: seq<Operation>)
    requires MovesInRange(Empty(media, playlists), ops) && Added(ops) < 0x7fff_ffff
    ensures AllHarmless(Empty(media, playlists), ops)
  {
    var lib := Empty(media, playlists);
    forall i | 0 <= i < |ops|
      ensures Harmless(AfterAll(lib, ops[..i]), ops[i])
    {
      AddedGrows(ops, i);
      if ops[i].Add? {
        TracksAreBounded(lib, ops[..i], ops[i].pid);
      }
    }
  }

  method RunFromEmpty(media: set<string>, playlists: set<string>, ops: seq<Operation>) returns (store: Store)
    requires MovesInRange(Empty(media, playlists), ops) && Added(ops) < 0x7fff_ffff
    ensures fresh(store) && Holds(store, AfterAll(Empty(media, playlists), ops))
  {
    store := new Store(media, playlists);
    forall pid
      ensures Tracks(store.rows, pid) == []
    {
      assert IsOrder(store.rows, pid, []);
      TheOrder(store.rows, pid, []);
    }
    RunsAreHarmless(media, playlists, ops);
    Run(store, ops, Empty(media, playlists));
  }

  /** A move within the playlist can be undone by the opposite move unless it went to place 999999. */
  lemma MoveBackUnlessSentinel(lib: Library, pid: string, pos: int, newPos: int)
    requires InRange(pos, |lib.tracks(pid)|) && InRange(newPos, |lib.tracks(pid)|) && pos != newPos
    requires !ReorderFails(|lib.tracks(pid)|, pos, newPos)
    ensures var there := After(lib, Reorder(pid, pos, newPos));
      && (ReorderFails(|there.tracks(pid)|, newPos, pos) <==> newPos == 999999)
      && (newPos != 999999 ==> After(there, Reorder(pid, newPos, pos)).tracks(pid) == lib.tracks(pid))
  {
    MoveBack(lib.tracks(pid), pos - 1, newPos - 1);
  }
}
