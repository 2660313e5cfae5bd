/** Moving a track: four UPDATE statements that shift positions through negative values. */
module PlaylistReorder {
  import opened PlaylistTable
  import opened PlaylistSequences

  // ---- The statements ----

  const SENTINEL: int := -999999

  function TakeOut(pos: int): Change {
    p => if p == pos then Some(SENTINEL) else None
  }

  function Shift(pos: int, newPos: int): Change {
    if pos < newPos then p => if pos < p <= newPos then Some(-(p - 1)) else None
    else p => if newPos <= p < pos then Some(-(p + 1)) else None
  }

  function FlipBack(): Change {
    p => if p < 0 && p != SENTINEL then Some(-p) else None
  }

  function PutDown(newPos: int): Change {
    p => if p == SENTINEL then Some(newPos) else None
  }

  /** The four statements, composed. */
  function AfterTakeOut(rows: Table, pid: string, pos: int): Table {
    Repositioned(rows, pid, Applied(TakeOut(pos)))
  }

  function AfterShift(rows: Table, pid: string, pos: int, newPos: int): Table {
    Repositioned(AfterTakeOut(rows, pid, pos), pid, Applied(Shift(pos, newPos)))
  }

  function AfterFlip(rows: Table, pid: string, pos: int, newPos: int): Table {
    Repositioned(AfterShift(rows, pid, pos, newPos), pid, Applied(FlipBack()))
  }

  function AfterPutDown(rows: Table, pid: string, pos: int, newPos: int): Table {
    Repositioned(AfterFlip(rows, pid, pos, newPos), pid, Applied(PutDown(newPos)))
  }

  // ---- Where positions go ----

  /** The move intended: remove at pos, insert at newPos. */
  function Place(pos: int, newPos: int): int -> int {
    p => if p == pos then newPos else if pos < p <= newPos then p - 1 else if newPos <= p < pos then p + 1 else p
  }

  /** Where the first statement's row is after the second: shifted itself if newPos reaches down to it. */
  function Parked(newPos: int): int {
    if newPos <= SENTINEL then 999998 else SENTINEL
  }

  /** Positions after the first two, and the first three, statements. */
  function Halfway(pos: int, newPos: int): int -> int {
    p =>
      if p == pos then Parked(newPos)
      else if pos < p <= newPos then -(p - 1)
      else if newPos <= p < pos then -(p + 1)
      else p
  }

  function Flipped(pos: int, newPos: int): int -> int {
    p =>
      if p == pos then Parked(newPos)
      else if pos < p <= newPos then (if p == 1000000 then SENTINEL else p - 1)
      else if newPos <= p < pos then (if p == 999998 then SENTINEL else p + 1)
      else p
  }

  /** The move as it comes out: what the shift sends to the sentinel value takes the new position. */
  function Landing(pos: int, newPos: int): int -> int {
    p =>
      if p == pos then (if newPos <= SENTINEL then 999998 else newPos)
      else if pos < p <= newPos then (if p == 1000000 then newPos else p - 1)
      else if newPos <= p < pos then (if p == 999998 then newPos else p + 1)
      else p
  }

  // ---- When a statement fails ----

  /** The positions whose row gets in the way of the parked one during the second statement. */
  predicate BlocksShift(pos: int, newPos: int, p: int) {
    || (pos < 1000000 <= newPos && p == 1000000)
    || (SENTINEL < newPos <= 999998 < pos && p == 999998)
    || (newPos <= SENTINEL && p == 999998 && p != pos)
  }

  /** The same during the third. */
  predicate BlocksFlip(pos: int, newPos: int, p: int) {
    newPos <= SENTINEL && p == 999997 < pos
  }

  ghost predicate ShiftFails(rows: Table, pid: string, pos: int, newPos: int) {
    Occupied(rows, pid, pos) && exists p :: Occupied(rows, pid, p) && BlocksShift(pos, newPos, p)
  }

  ghost predicate FlipFails(rows: Table, pid: string, pos: int, newPos: int) {
    Occupied(rows, pid, pos) && exists p :: Occupied(rows, pid, p) && BlocksFlip(pos, newPos, p)
  }

  /** Neither of two rows is the parked one with the other in its way. */
  predicate ClearOf(pos: int, newPos: int, p: int, q: int) {
    (p == pos ==> !BlocksShift(pos, newPos, q)) && (q == pos ==> !BlocksShift(pos, newPos, p))
  }

  predicate FlipsClearOf(pos: int, newPos: int, p: int, q: int) {
    (p == pos ==> !BlocksFlip(pos, newPos, q)) && (q == pos ==> !BlocksFlip(pos, newPos, p))
  }

  // ---- One or two positions at a time ----

  lemma HalfwayAt(pos: int, newPos: int, p: int)
    requires p > 0
    ensures Applied(Shift(pos, newPos))(Applied(TakeOut(pos))(p)) == Halfway(pos, newPos)(p)
  {
  }

  lemma FlippedAt(pos: int, newPos: int, p: int)
    requires p > 0
    ensures Applied(FlipBack())(Halfway(pos, newPos)(p)) == Flipped(pos, newPos)(p)
  {
  }

  lemma LandedAt(pos: int, newPos: int, p: int)
    requires p > 0
    ensures Applied(PutDown(newPos))(Flipped(pos, newPos)(p)) == Landing(pos, newPos)(p)
  {
  }

  lemma ShiftPair(pos: int, newPos: int, p: int, q: int)
    requires p > 0 && q > 0 && p != q && pos != newPos && ClearOf(pos, newPos, p, q)
    ensures NoClash(Shift(pos, newPos), Applied(TakeOut(pos))(p), Applied(TakeOut(pos))(q))
  {
  }

  lemma FlipPair(pos: int, newPos: int, p: int, q: int)
    requires p > 0 && q > 0 && p != q && pos != newPos && ClearOf(pos, newPos, p, q) && FlipsClearOf(pos, newPos, p, q)
    ensures NoClash(FlipBack(), Halfway(pos, newPos)(p), Halfway(pos, newPos)(q))
  {
  }

  lemma PutDownPair(pos: int, newPos: int, p: int, q: int)
    requires p > 0 && q > 0 && p != q && pos != newPos && ClearOf(pos, newPos, p, q)
    ensures NoClash(PutDown(newPos), Flipped(pos, newPos)(p), Flipped(pos, newPos)(q))
  {
  }

  lemma LandingPair(pos: int, newPos: int, p: int, q: int)
    requires p > 0 && q > 0 && p != q && pos != newPos && ClearOf(pos, newPos, p, q) && FlipsClearOf(pos, newPos, p, q)
    ensures Landing(pos, newPos)(p) != Landing(pos, newPos)(q)
  {
  }

  // ---- The statements in turn ----

  /** A change is safe on a repositioned playlist when no two of the positions it came from clash. */
  lemma SafeAfter(rows: Table, pid: string, f: int -> int, change: Change)
    requires forall p, q | Occupied(rows, pid, p) && Occupied(rows, pid, q) && p != q :: NoClash(change, f(p), f(q))
    ensures SafeChange(Repositioned(rows, pid, f), pid, change)
  {
    hide NoClash;
    forall p, q | Occupied(Repositioned(rows, pid, f), pid, p) && Occupied(Repositioned(rows, pid, f), pid, q) && p != q
      ensures NoClash(change, p, q)
    {
      OccupiedAfter(rows, pid, f, p);
      OccupiedAfter(rows, pid, f, q);
      var a :| Occupied(rows, pid, a) && f(a) == p;
      var b :| Occupied(rows, pid, b) && f(b) == q;
    }
  }

  lemma TakeOutIsSafe(rows: Table, pid: string, pos: int)
    requires AllPositive(rows, pid)
    ensures SafeChange(rows, pid, TakeOut(pos))
  {
  }

  lemma PairIsClear(rows: Table, pid: string, pos: int, newPos: int, p: int, q: int)
    requires AllPositive(rows, pid) && Occupied(rows, pid, p) && Occupied(rows, pid, q)
    ensures p > 0 && q > 0
    ensures !ShiftFails(rows, pid, pos, newPos) ==> ClearOf(pos, newPos, p, q)
    ensures !FlipFails(rows, pid, pos, newPos) ==> FlipsClearOf(pos, newPos, p, q)
  {
  }

  lemma AfterShiftIs(rows: Table, pid: string, pos: int, newPos: int)
    requires AllPositive(rows, pid)
    ensures AfterShift(rows, pid, pos, newPos) == Repositioned(rows, pid, Halfway(pos, newPos))
    ensures AfterFlip(rows, pid, pos, newPos) == Repositioned(rows, pid, Flipped(pos, newPos))
    ensures AfterPutDown(rows, pid, pos, newPos) == Repositioned(rows, pid, Landing(pos, newPos))
  {
    assert forall p | Occupied(rows, pid, p) :: p > 0;
    hide Applied, Shift, TakeOut, FlipBack, PutDown, Halfway, Flipped, Landing, Repositioned, Occupied, AllPositive;
    forall p | Occupied(rows, pid, p)
      ensures Applied(Shift(pos, newPos))(Applied(TakeOut(pos))(p)) == Halfway(pos, newPos)(p)
      ensures Applied(FlipBack())(Halfway(pos, newPos)(p)) == Flipped(pos, newPos)(p)
      ensures Applied(PutDown(newPos))(Flipped(pos, newPos)(p)) == Landing(pos, newPos)(p)
    {
      HalfwayAt(pos, newPos, p);
      FlippedAt(pos, newPos, p);
      LandedAt(pos, newPos, p);
    }
    RepositionedTwice(rows, pid, Applied(TakeOut(pos)), Applied(Shift(pos, newPos)), Halfway(pos, newPos));
    RepositionedTwice(rows, pid, Halfway(pos, newPos), Applied(FlipBack()), Flipped(pos, newPos));
    RepositionedTwice(rows, pid, Flipped(pos, newPos), Applied(PutDown(newPos)), Landing(pos, newPos));
  }

  lemma ShiftIsSafe(rows: Table, pid: string, pos: int, newPos: int)
    requires AllPositive(rows, pid) && pos != newPos && !ShiftFails(rows, pid, pos, newPos)
    ensures SafeChange(AfterTakeOut(rows, pid, pos), pid, Shift(pos, newPos))
  {
    hide Applied, Shift, TakeOut, NoClash, SafeChange, Repositioned, Occupied, ShiftFails, ClearOf, AllPositive;
    forall p, q | Occupied(rows, pid, p) && Occupied(rows, pid, q) && p != q
      ensures NoClash(Shift(pos, newPos), Applied(TakeOut(pos))(p), Applied(TakeOut(pos))(q))
    {
      PairIsClear(rows, pid, pos, newPos, p, q);
      ShiftPair(pos, newPos, p, q);
    }
    SafeAfter(rows, pid, Applied(TakeOut(pos)), Shift(pos, newPos));
  }

  lemma FlipIsSafe(rows: Table, pid: string, pos: int, newPos: int)
    requires AllPositive(rows, pid) && pos != newPos
    requires !ShiftFails(rows, pid, pos, newPos) && !FlipFails(rows, pid, pos, newPos)
    ensures SafeChange(AfterShift(rows, pid, pos, newPos), pid, FlipBack())
  {
    hide FlipBack, Halfway, NoClash, SafeChange, Repositioned, AfterShift;
    hide Occupied, ShiftFails, FlipFails, ClearOf, FlipsClearOf, AllPositive;
    AfterShiftIs(rows, pid, pos, newPos);
    forall p, q | Occupied(rows, pid, p) && Occupied(rows, pid, q) && p != q
      ensures NoClash(FlipBack(), Halfway(pos, newPos)(p), Halfway(pos, newPos)(q))
    {
      PairIsClear(rows, pid, pos, newPos, p, q);
      FlipPair(pos, newPos, p, q);
    }
    SafeAfter(rows, pid, Halfway(pos, newPos), FlipBack());
  }

  lemma PutDownIsSafe(rows: Table, pid: string, pos: int, newPos: int)
    requires AllPositive(rows, pid) && pos != newPos && !ShiftFails(rows, pid, pos, newPos)
    ensures SafeChange(AfterFlip(rows, pid, pos, newPos), pid, PutDown(newPos))
  {
    hide PutDown, Flipped, NoClash, SafeChange, Repositioned, AfterFlip, Occupied, ShiftFails, ClearOf, AllPositive;
    AfterShiftIs(rows, pid, pos, newPos);
    forall p, q | Occupied(rows, pid, p) && Occupied(rows, pid, q) && p != q
      ensures NoClash(PutDown(newPos), Flipped(pos, newPos)(p), Flipped(pos, newPos)(q))
    {
      PairIsClear(rows, pid, pos, newPos, p, q);
      PutDownPair(pos, newPos, p, q);
    }
    SafeAfter(rows, pid, Flipped(pos, newPos), PutDown(newPos));
  }

  /** A row in the way of the parked one makes the second statement fail in any order of rows. */
  lemma ShiftIsDoomed(rows: Table, pid: string, pos: int, newPos: int)
    requires AllPositive(rows, pid) && pos != newPos && ShiftFails(rows, pid, pos, newPos)
    ensures DoomedRewrite(AfterTakeOut(rows, pid, pos), TargetOf(AfterTakeOut(rows, pid, pos), pid, Shift(pos, newPos)))
  {
    var p :| Occupied(rows, pid, p) && BlocksShift(pos, newPos, p);
    var taken, shift := AfterTakeOut(rows, pid, pos), Shift(pos, newPos);
    TakenOut(rows, pid, pos, p);
    hide DoomedRewrite, AfterTakeOut, Occupied;
    if SENTINEL < newPos {
      ClashDooms(taken, pid, shift, p, SENTINEL);
    } else if pos < p {
      ClashDooms(taken, pid, shift, SENTINEL, p);
    } else {
      SwapDooms(taken, pid, shift, p, SENTINEL);
    }
  }

  lemma TakenOut(rows: Table, pid: string, pos: int, p: int)
    requires Occupied(rows, pid, pos) && Occupied(rows, pid, p) && p != pos
    ensures Occupied(AfterTakeOut(rows, pid, pos), pid, SENTINEL) && Occupied(AfterTakeOut(rows, pid, pos), pid, p)
  {
    OccupiedAfter(rows, pid, Applied(TakeOut(pos)), SENTINEL);
    OccupiedAfter(rows, pid, Applied(TakeOut(pos)), p);
    assert Applied(TakeOut(pos))(pos) == SENTINEL && Applied(TakeOut(pos))(p) == p;
  }

  /** The parked row, itself shifted to 999998, makes the third statement fail. */
  lemma FlipIsDoomed(rows: Table, pid: string, pos: int, newPos: int)
    requires AllPositive(rows, pid) && pos != newPos && FlipFails(rows, pid, pos, newPos)
    ensures var shifted := AfterShift(rows, pid, pos, newPos);
      DoomedRewrite(shifted, TargetOf(shifted, pid, FlipBack()))
  {
    var p :| Occupied(rows, pid, p) && BlocksFlip(pos, newPos, p);
    AfterShiftIs(rows, pid, pos, newPos);
    OccupiedAfter(rows, pid, Halfway(pos, newPos), 999998);
    OccupiedAfter(rows, pid, Halfway(pos, newPos), -999998);
    assert Halfway(pos, newPos)(pos) == 999998 && Halfway(pos, newPos)(p) == -999998;
    hide DoomedRewrite, AfterShift, Occupied;
    ClashDooms(AfterShift(rows, pid, pos, newPos), pid, FlipBack(), -999998, 999998);
  }

  // ---- The intended move on a dense playlist ----

  predicate InRange(p: int, n: nat) {
    1 <= p <= n
  }

  /** Reorder refines "remove at pos, insert at newPos". */
  lemma ReorderMoves(rows: Table, pid: string, pos: int, newPos: int)
    requires UniqueKeys(rows) && Dense(rows, pid)
    requires InRange(pos, |Order(rows, pid)|) && InRange(newPos, |Order(rows, pid)|)
    ensures var after := Repositioned(rows, pid, Place(pos, newPos));
      && UniqueKeys(after) && Dense(after, pid)
      && Order(after, pid) == Moved(Order(rows, pid), pos - 1, newPos - 1)
  {
    var after, order := Repositioned(rows, pid, Place(pos, newPos)), Order(rows, pid);
    var moved := Moved(order, pos - 1, newPos - 1);
    RepositionedIsUnique(rows, pid, Place(pos, newPos));
    hide UniqueKeys, Moved, Place;
    forall i | 0 <= i < |moved|
      ensures Within(after, pid, moved[i]) && after[moved[i]].pos == i + 1
    {
      MovedRow(rows, pid, pos, newPos, i);
    }
    forall r | Within(after, pid, r)
      ensures r in moved
    {
      assert Within(rows, pid, r);
      MovedCovers(order, pos - 1, newPos - 1, r);
    }
    NumberedIsOrder(after, pid, moved);
  }

  lemma MovedRow(rows: Table, pid: string, pos: int, newPos: int, i: nat)
    requires UniqueKeys(rows) && Dense(rows, pid)
    requires InRange(pos, |Order(rows, pid)|) && InRange(newPos, |Order(rows, pid)|)
    requires i < |Moved(Order(rows, pid), pos - 1, newPos - 1)|
    ensures var after := Repositioned(rows, pid, Place(pos, newPos));
      var r := Moved(Order(rows, pid), pos - 1, newPos - 1)[i];
      Within(after, pid, r) && after[r].pos == i + 1
  {
    var order, k := Order(rows, pid), MovedFrom(pos - 1, newPos - 1, i);
    MovedAt(order, pos - 1, newPos - 1, i);
    assert Within(rows, pid, order[k]) && rows[order[k]].pos == k + 1;
    assert Place(pos, newPos)(k + 1) == i + 1;
  }

  lemma MovedCovers<T>(s: seq<T>, i: nat, j: nat, x: T)
    requires i < |s| && j < |s| && x in s
    ensures x in Moved(s, i, j)
  {
    var k :| 0 <= k < |s| && s[k] == x;
    MovedTo(i, j, k);
    MovedAt(s, i, j, MovedFrom(j, i, k));
  }

  lemma MovedTrack(rows: Table, pid: string, pos: int, newPos: int, k: nat)
    requires UniqueKeys(rows) && InRange(pos, |Order(rows, pid)|)
    requires InRange(newPos, |Order(rows, pid)|) && k < |Order(rows, pid)|
    ensures var moved := Moved(Order(rows, pid), pos - 1, newPos - 1);
      var tracks := Moved(Tracks(rows, pid), pos - 1, newPos - 1);
      && |moved| == |tracks| == |Order(rows, pid)|
      && Within(rows, pid, moved[k]) && tracks[k] == rows[moved[k]].media
  {
    MovedAt(Tracks(rows, pid), pos - 1, newPos - 1, k);
    MovedAt(Order(rows, pid), pos - 1, newPos - 1, k);
    assert Within(rows, pid, Order(rows, pid)[MovedFrom(pos - 1, newPos - 1, k)]);
  }

  /** The tracks move with their rows. */
  lemma TracksMove(rows: Table, pid: string, pos: int, newPos: int)
    requires UniqueKeys(rows) && Dense(rows, pid)
    requires InRange(pos, |Order(rows, pid)|) && InRange(newPos, |Order(rows, pid)|)
    ensures UniqueKeys(Repositioned(rows, pid, Place(pos, newPos)))
    ensures Tracks(Repositioned(rows, pid, Place(pos, newPos)), pid) == Moved(Tracks(rows, pid), pos - 1, newPos - 1)
  {
    ReorderMoves(rows, pid, pos, newPos);
    hide UniqueKeys, Dense, Moved, MovedFrom, Place, IsOrder;
    var after, moved := Repositioned(rows, pid, Place(pos, newPos)), Moved(Tracks(rows, pid), pos - 1, newPos - 1);
    MovedTrack(rows, pid, pos, newPos, 0);
    forall k | 0 <= k < |moved|
      ensures Tracks(after, pid)[k] == moved[k]
    {
      MovedTrack(rows, pid, pos, newPos, k);
    }
  }

  /** Moving a track and moving it back restores the very table. */
  lemma ReorderBack(rows: Table, pid: string, pos: int, newPos: int)
    requires UniqueKeys(rows) && Dense(rows, pid)
    requires InRange(pos, |Order(rows, pid)|) && InRange(newPos, |Order(rows, pid)|)
    ensures Repositioned(Repositioned(rows, pid, Place(pos, newPos)), pid, Place(newPos, pos)) == rows
  {
  }

  // ---- Any arguments on a dense playlist ----

  /** When Reorder fails on a playlist of n tracks. */
  predicate ReorderFails(n: nat, pos: int, newPos: int) {
    pos != newPos && InRange(pos, n) &&
    ((pos < 1000000 <= newPos && n >= 1000000) || newPos <= 999998 < pos || (newPos <= SENTINEL && n >= 999998))
  }

  lemma DenseReorderFails(rows: Table, pid: string, pos: int, newPos: int)
    requires UniqueKeys(rows) && Dense(rows, pid) && pos != newPos
    ensures AllPositive(rows, pid)
    ensures ReorderFails(|Order(rows, pid)|, pos, newPos) <==>
      ShiftFails(rows, pid, pos, newPos) || FlipFails(rows, pid, pos, newPos)
  {
    var n := |Order(rows, pid)|;
    forall p
      ensures Occupied(rows, pid, p) <==> InRange(p, n)
    {
      DenseOccupied(rows, pid, p);
    }
    hide Dense, Occupied;
    if ReorderFails(n, pos, newPos) {
      if newPos <= SENTINEL && pos == 999998 {
        assert Occupied(rows, pid, 999997) && BlocksFlip(pos, newPos, 999997);
      } else {
        var p := if pos < newPos then 1000000 else 999998;
        assert Occupied(rows, pid, p) && BlocksShift(pos, newPos, p);
      }
    }
  }

  /** The track at 999998, when it is the last, takes the new position in the absence of a track at pos. */
  predicate LastSlips(n: nat, pos: int, newPos: int) {
    n == 999998 < pos && InRange(newPos, n)
  }

  /** Arguments for which Reorder, unless it fails, leaves the numbering dense; it checks none of this. */
  predicate KeepsNumbering(n: nat, pos: int, newPos: int) {
    || pos == newPos
    || (InRange(pos, n) && InRange(newPos, n))
    || (!InRange(pos, n) && (n == 0 || !(pos < 1 <= newPos || newPos <= n < pos)))
    || LastSlips(n, pos, newPos)
  }

  function ReorderedTracks(tracks: seq<string>, pos: int, newPos: int): seq<string> {
    var n := |tracks|;
    if InRange(pos, n) && InRange(newPos, n) then Moved(tracks, pos - 1, newPos - 1)
    else if LastSlips(n, pos, newPos) then Moved(tracks, n - 1, newPos - 1)
    else tracks
  }

  lemma LandsAsPlaced(rows: Table, pid: string, pos: int, newPos: int, from: int)
    requires UniqueKeys(rows) && Dense(rows, pid)
    requires forall p | InRange(p, |Order(rows, pid)|) :: Landing(pos, newPos)(p) == Place(from, newPos)(p)
    ensures Repositioned(rows, pid, Landing(pos, newPos)) == Repositioned(rows, pid, Place(from, newPos))
  {
    hide Landing, Place;
    forall r | Within(rows, pid, r)
      ensures Landing(pos, newPos)(rows[r].pos) == Place(from, newPos)(rows[r].pos)
    {
      assert Occupied(rows, pid, rows[r].pos);
      DenseOccupied(rows, pid, rows[r].pos);
    }
  }

  lemma NothingMoves(rows: Table, pid: string, pos: int, newPos: int)
    requires UniqueKeys(rows) && Dense(rows, pid)
    requires forall p | InRange(p, |Order(rows, pid)|) :: Landing(pos, newPos)(p) == p
    ensures Repositioned(rows, pid, Landing(pos, newPos)) == rows
  {
    hide Landing;
    forall r | Within(rows, pid, r)
      ensures Landing(pos, newPos)(rows[r].pos) == rows[r].pos
    {
      assert Occupied(rows, pid, rows[r].pos);
      DenseOccupied(rows, pid, rows[r].pos);
    }
  }

  lemma LandingIsUnique(rows: Table, pid: string, pos: int, newPos: int)
    requires UniqueKeys(rows) && AllPositive(rows, pid) && pos != newPos
    requires !ShiftFails(rows, pid, pos, newPos) && !FlipFails(rows, pid, pos, newPos)
    ensures UniqueKeys(Repositioned(rows, pid, Landing(pos, newPos)))
    ensures OthersUnchanged(rows, Repositioned(rows, pid, Landing(pos, newPos)), pid)
  {
    hide UniqueKeys, Landing, ShiftFails, FlipFails, ClearOf, FlipsClearOf, AllPositive, Occupied, OthersUnchanged;
    forall p, q | Occupied(rows, pid, p) && Occupied(rows, pid, q) && p != q
      ensures Landing(pos, newPos)(p) != Landing(pos, newPos)(q)
    {
      PairIsClear(rows, pid, pos, newPos, p, q);
      LandingPair(pos, newPos, p, q);
    }
    RepositionedIsUnique(rows, pid, Landing(pos, newPos));
  }

  /** The tracks when the numbering is kept. */
  lemma LandingKeepsTracks(rows: Table, pid: string, pos: int, newPos: int)
    requires UniqueKeys(rows) && Dense(rows, pid) && pos != newPos
    requires !ReorderFails(|Order(rows, pid)|, pos, newPos) && KeepsNumbering(|Order(rows, pid)|, pos, newPos)
    ensures var after := Repositioned(rows, pid, Landing(pos, newPos));
      UniqueKeys(after) && Dense(after, pid) && Tracks(after, pid) == ReorderedTracks(Tracks(rows, pid), pos, newPos)
  {
    var n := |Order(rows, pid)|;
    if InRange(pos, n) && InRange(newPos, n) {
      LandsAsPlaced(rows, pid, pos, newPos, pos);
      ReorderMoves(rows, pid, pos, newPos);
      TracksMove(rows, pid, pos, newPos);
    } else if LastSlips(n, pos, newPos) {
      LandsAsPlaced(rows, pid, pos, newPos, n);
      ReorderMoves(rows, pid, n, newPos);
      TracksMove(rows, pid, n, newPos);
    } else {
      NothingMoves(rows, pid, pos, newPos);
    }
  }

  /** Otherwise some row ends up outside 1..n. */
  lemma LandingLeavesRange(n: nat, pos: int, newPos: int) returns (p: int)
    requires !ReorderFails(n, pos, newPos) && !KeepsNumbering(n, pos, newPos)
    ensures InRange(p, n) && !InRange(Landing(pos, newPos)(p), n)
  {
    p := if InRange(pos, n) then pos else if pos < newPos then 1 else n;
  }

  /** For any arguments that do not make it fail, exactly when Reorder leaves a playlist dense. */
  lemma ReorderKeepsDenseIff(rows: Table, pid: string, pos: int, newPos: int)
    requires UniqueKeys(rows) && Dense(rows, pid) && pos != newPos && !ReorderFails(|Order(rows, pid)|, pos, newPos)
    ensures UniqueKeys(Repositioned(rows, pid, Landing(pos, newPos)))
    ensures Dense(Repositioned(rows, pid, Landing(pos, newPos)), pid) <==>
      KeepsNumbering(|Order(rows, pid)|, pos, newPos)
  {
    var after, n := Repositioned(rows, pid, Landing(pos, newPos)), |Order(rows, pid)|;
    DenseReorderFails(rows, pid, pos, newPos);
    LandingIsUnique(rows, pid, pos, newPos);
    hide UniqueKeys, Dense, Landing, ReorderFails, AllPositive, ShiftFails, FlipFails;
    if KeepsNumbering(n, pos, newPos) {
      LandingKeepsTracks(rows, pid, pos, newPos);
    } else {
      SameSize(rows, pid, Landing(pos, newPos));
      var p := LandingLeavesRange(n, pos, newPos);
      DenseOccupied(rows, pid, p);
      OccupiedAfter(rows, pid, Landing(pos, newPos), Landing(pos, newPos)(p));
      if Dense(after, pid) {
        DenseOccupied(after, pid, Landing(pos, newPos)(p));
      }
    }
  }
}
