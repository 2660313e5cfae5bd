/** The playlist_tracks table: rows keyed by rowid, unique on (playlist, position). */
module PlaylistTable {

  type RowId = nat

  datatype Row = Row(playlist: string, media: string, pos: int)

  type Table = map<RowId, Row>

  ghost predicate UniqueKeys(rows: Table) {
    forall a, b | a in rows && b in rows && a != b && rows[a].playlist == rows[b].playlist :: rows[a].pos != rows[b].pos
  }

  predicate Within(rows: Table, pid: string, r: RowId) {
    r in rows && rows[r].playlist == pid
  }

  // ---- Rewriting positions, one row at a time ----

  /** The table after some rows have been given new positions. */
  function Rewritten(rows: Table, target: map<RowId, int>): Table {
    map r | r in rows :: if r in target then rows[r].(pos := target[r]) else rows[r]
  }

  /** The part of a rewriting that has been carried out. */
  function Restrict(target: map<RowId, int>, done: set<RowId>): map<RowId, int> {
    map r | r in target && r in done :: target[r]
  }

  /** No new position is another row's old one, nor another row's new one. */
  ghost predicate SafeRewrite(rows: Table, target: map<RowId, int>) {
    forall r, s | r in target && s in rows && r in rows && r != s && rows[r].playlist == rows[s].playlist ::
      target[r] != rows[s].pos && (s in target ==> target[r] != target[s])
  }

  /** Two rows trade positions, so that the first of them to be written meets the other. */
  ghost predicate Swaps(rows: Table, target: map<RowId, int>, r: RowId, s: RowId) {
    && r in target && s in target && r in rows && s in rows && r != s && rows[r].playlist == rows[s].playlist
    && target[r] == rows[s].pos && target[s] == rows[r].pos
  }

  /** The result would not be unique, or two rows trade positions: no order of visiting the rows succeeds. */
  ghost predicate DoomedRewrite(rows: Table, target: map<RowId, int>) {
    !UniqueKeys(Rewritten(rows, target)) || exists r, s :: Swaps(rows, target, r, s)
  }

  lemma PartsOfSafeAreUnique(rows: Table, target: map<RowId, int>, done: set<RowId>)
    requires UniqueKeys(rows) && SafeRewrite(rows, target)
    ensures UniqueKeys(Rewritten(rows, Restrict(target, done)))
  {
    var part := Restrict(target, done);
    forall a, b | a in rows && b in rows && a != b && rows[a].playlist == rows[b].playlist
      ensures Rewritten(rows, part)[a].pos != Rewritten(rows, part)[b].pos
    {
    }
  }

  lemma UnsafePairConflicts(rows: Table, target: map<RowId, int>, r: RowId, s: RowId) returns (done: set<RowId>)
    requires r in target && r in rows && s in rows && r != s && rows[r].playlist == rows[s].playlist
    requires target[r] == rows[s].pos || (s in target && target[r] == target[s])
    ensures !UniqueKeys(Rewritten(rows, Restrict(target, done)))
  {
    done := if target[r] == rows[s].pos then {r} else {r, s};
    var part := Restrict(target, done);
    assert r in part && part[r] == target[r];
    assert s in part <==> s in done;
    var after := Rewritten(rows, part);
    assert after[r].pos == after[s].pos && after[r].playlist == after[s].playlist;
  }

  /** A statement survives every order of visiting its rows exactly when it is safe pair by pair. */
  lemma SafeIffEveryOrder(rows: Table, target: map<RowId, int>)
    requires UniqueKeys(rows) && target.Keys <= rows.Keys
    ensures SafeRewrite(rows, target) <==> forall done: set<RowId> ::
      UniqueKeys(Rewritten(rows, Restrict(target, done)))
  {
    if SafeRewrite(rows, target) {
      forall done: set<RowId>
        ensures UniqueKeys(Rewritten(rows, Restrict(target, done)))
      {
        PartsOfSafeAreUnique(rows, target, done);
      }
    } else {
      var r, s :| r in target && r in rows && s in rows && r != s && rows[r].playlist == rows[s].playlist
        && (target[r] == rows[s].pos || (s in target && target[r] == target[s]));
      var done := UnsafePairConflicts(rows, target, r, s);
    }
  }

  // ---- Positions changed by a function ----

  datatype Option<+T> = None | Some(value: T)

  /** What an UPDATE does to the positions of one playlist; None for rows its WHERE clause skips. */
  type Change = int -> Option<int>

  function Applied(change: Change): int -> int {
    p => if change(p).Some? then change(p).value else p
  }

  function TargetOf(rows: Table, pid: string, change: Change): map<RowId, int> {
    map r | r in rows && rows[r].playlist == pid && change(rows[r].pos).Some? :: change(rows[r].pos).value
  }

  function Repositioned(rows: Table, pid: string, place: int -> int): Table {
    map r | r in rows :: if rows[r].playlist == pid then rows[r].(pos := place(rows[r].pos)) else rows[r]
  }

  /** Whether the playlist has a row at this position. */
  ghost predicate Occupied(rows: Table, pid: string, p: int) {
    exists r :: Within(rows, pid, r) && rows[r].pos == p
  }

  lemma ChangeRepositions(rows: Table, pid: string, change: Change)
    ensures Rewritten(rows, TargetOf(rows, pid, change)) == Repositioned(rows, pid, Applied(change))
  {
  }

  /** The row at p, when changed, meets neither the old nor the new position of the row at q. */
  predicate NoClash(change: Change, p: int, q: int) {
    change(p).Some? ==> change(p).value != q && change(p) != change(q)
  }

  ghost predicate SafeChange(rows: Table, pid: string, change: Change) {
    forall p, q | Occupied(rows, pid, p) && Occupied(rows, pid, q) && p != q :: NoClash(change, p, q)
  }

  lemma SafeChangeIsSafe(rows: Table, pid: string, change: Change)
    requires UniqueKeys(rows) && SafeChange(rows, pid, change)
    ensures SafeRewrite(rows, TargetOf(rows, pid, change))
  {
    var target := TargetOf(rows, pid, change);
    forall r, s | r in target && s in rows && r in rows && r != s && rows[r].playlist == rows[s].playlist
      ensures target[r] != rows[s].pos && (s in target ==> target[r] != target[s])
    {
      assert Within(rows, pid, r) && Within(rows, pid, s);
      assert Occupied(rows, pid, rows[r].pos) && Occupied(rows, pid, rows[s].pos);
      assert NoClash(change, rows[r].pos, rows[s].pos);
    }
  }

  /** A row sent onto one that stays makes the statement fail, whatever the order. */
  lemma ClashDooms(rows: Table, pid: string, change: Change, p: int, q: int)
    requires Occupied(rows, pid, p) && Occupied(rows, pid, q) && p != q && change(p) == Some(q) && change(q).None?
    ensures DoomedRewrite(rows, TargetOf(rows, pid, change))
  {
    var r :| Within(rows, pid, r) && rows[r].pos == p;
    var s :| Within(rows, pid, s) && rows[s].pos == q;
    var after := Rewritten(rows, TargetOf(rows, pid, change));
    assert after[r].pos == after[s].pos;
  }

  /** Neither can two rows trade positions. */
  lemma SwapDooms(rows: Table, pid: string, change: Change, p: int, q: int)
    requires Occupied(rows, pid, p) && Occupied(rows, pid, q) && p != q && change(p) == Some(q) && change(q) == Some(p)
    ensures DoomedRewrite(rows, TargetOf(rows, pid, change))
  {
    var r :| Within(rows, pid, r) && rows[r].pos == p;
    var s :| Within(rows, pid, s) && rows[s].pos == q;
    assert Swaps(rows, TargetOf(rows, pid, change), r, s);
  }

  lemma RepositionedTwice(rows: Table, pid: string, f: int -> int, g: int -> int, h: int -> int)
    requires forall p | Occupied(rows, pid, p) :: g(f(p)) == h(p)
    ensures Repositioned(Repositioned(rows, pid, f), pid, g) == Repositioned(rows, pid, h)
  {
    assert forall r | Within(rows, pid, r) :: Occupied(rows, pid, rows[r].pos);
  }

  lemma OccupiedAfter(rows: Table, pid: string, f: int -> int, q: int)
    ensures Occupied(Repositioned(rows, pid, f), pid, q) <==> exists p :: Occupied(rows, pid, p) && f(p) == q
  {
    var after := Repositioned(rows, pid, f);
    if Occupied(after, pid, q) {
      var r :| Within(after, pid, r) && after[r].pos == q;
      assert Within(rows, pid, r) && Occupied(rows, pid, rows[r].pos);
    }
    if exists p :: Occupied(rows, pid, p) && f(p) == q {
      var p :| Occupied(rows, pid, p) && f(p) == q;
      var r :| Within(rows, pid, r) && rows[r].pos == p;
      assert Within(after, pid, r) && after[r].pos == q;
    }
  }

  // ---- A playlist as a sequence ----

  /** The rows of a playlist by increasing position. */
  ghost predicate IsOrder(rows: Table, pid: string, order: seq<RowId>) {
    && (forall i | 0 <= i < |order| :: Within(rows, pid, order[i]))
    && (forall i, j | 0 <= i < j < |order| :: rows[order[i]].pos < rows[order[j]].pos)
    && (forall r | Within(rows, pid, r) :: r in order)
  }

  lemma SameRows(rows: Table, pid: string, a: seq<RowId>, b: seq<RowId>)
    requires IsOrder(rows, pid, a) && IsOrder(rows, pid, b)
    ensures forall r :: r in a <==> r in b
    ensures a == [] <==> b == []
  {
    assert forall i | 0 <= i < |a| :: Within(rows, pid, a[i]);
    assert forall i | 0 <= i < |b| :: Within(rows, pid, b[i]);
    if a != [] {
      assert a[0] in b;
    }
    if b != [] {
      assert b[0] in a;
    }
  }

  lemma {:induction false} OrderIsUnique(rows: Table, pid: string, a: seq<RowId>, b: seq<RowId>)
    requires IsOrder(rows, pid, a) && IsOrder(rows, pid, b)
    ensures a == b
    decreases |a|
  {
    SameRows(rows, pid, a, b);
    if a != [] {
      assert a[0] in b && b[0] in a;
      assert a[0] == b[0];
      hide IsOrder;
      var rest := rows - {a[0]};
      WithoutFirst(rows, pid, a);
      WithoutFirst(rows, pid, b);
      OrderIsUnique(rest, pid, a[1..], b[1..]);
      assert a == [a[0]] + a[1..] && b == [b[0]] + b[1..];
    }
  }

  lemma WithoutFirst(rows: Table, pid: string, order: seq<RowId>)
    requires IsOrder(rows, pid, order) && order != []
    ensures IsOrder(rows - {order[0]}, pid, order[1..])
  {
    var rest := rows - {order[0]};
    forall i | 0 <= i < |order[1..]|
      ensures Within(rest, pid, order[1..][i])
    {
      assert Within(rows, pid, order[i + 1]);
      assert rows[order[0]].pos < rows[order[i + 1]].pos;
    }
    forall r | Within(rest, pid, r)
      ensures r in order[1..]
    {
      assert Within(rows, pid, r);
      var i :| 0 <= i < |order| && order[i] == r;
      assert order[1..][i - 1] == r;
    }
  }

  /** The slot of a position in an increasing sequence of rows. */
  lemma {:induction false} FindSlot(rows: Table, pid: string, order: seq<RowId>, p: int) returns (k: nat)
    requires IsOrder(rows, pid, order) && !Occupied(rows, pid, p)
    ensures k <= |order|
    ensures forall i | 0 <= i < k :: order[i] in rows && rows[order[i]].pos < p
    ensures forall i | k <= i < |order| :: order[i] in rows && p < rows[order[i]].pos
  {
    k := 0;
    while k < |order| && rows[order[k]].pos < p
      invariant k <= |order|
      invariant forall i | 0 <= i < k :: rows[order[i]].pos < p
    {
      k := k + 1;
    }
    if k < |order| {
      assert Within(rows, pid, order[k]) && rows[order[k]].pos != p;
    }
  }

  /** The row goes between the first k rows of the order and the others. */
  ghost predicate Fits(rows: Table, order: seq<RowId>, r: RowId, k: nat)
    requires r in rows
  {
    && k <= |order|
    && (forall i | 0 <= i < k :: order[i] in rows && rows[order[i]].pos < rows[r].pos)
    && (forall i | k <= i < |order| :: order[i] in rows && rows[r].pos < rows[order[i]].pos)
  }

  lemma InsertedAscends(rows: Table, pid: string, order: seq<RowId>, r: RowId, k: nat, i: nat, j: nat)
    requires Within(rows, pid, r) && IsOrder(rows - {r}, pid, order) && Fits(rows, order, r, k) && i < j <= |order|
    ensures var longer := order[..k] + [r] + order[k..];
      Within(rows, pid, longer[i]) && Within(rows, pid, longer[j]) && rows[longer[i]].pos < rows[longer[j]].pos
  {
    var longer, rest := order[..k] + [r] + order[k..], rows - {r};
    assert longer[i] == if i < k then order[i] else if i == k then r else order[i - 1];
    assert longer[j] == if j < k then order[j] else if j == k then r else order[j - 1];
    assert i != k ==> Within(rest, pid, order[if i < k then i else i - 1]);
    assert j != k ==> Within(rest, pid, order[if j < k then j else j - 1]);
  }

  lemma InsertedInOrder(rows: Table, pid: string, order: seq<RowId>, r: RowId, k: nat)
    requires Within(rows, pid, r) && IsOrder(rows - {r}, pid, order) && Fits(rows, order, r, k)
    ensures IsOrder(rows, pid, order[..k] + [r] + order[k..])
  {
    var longer := order[..k] + [r] + order[k..];
    forall i, j | 0 <= i < j < |longer|
      ensures rows[longer[i]].pos < rows[longer[j]].pos && Within(rows, pid, longer[i]) && Within(rows, pid, longer[j])
    {
      InsertedAscends(rows, pid, order, r, k, i, j);
    }
    forall s | Within(rows, pid, s)
      ensures s in longer
    {
      InsertedCovers(rows, pid, order, r, k, s);
    }
    if order == [] {
      assert longer == [r];
    }
  }

  lemma InsertedCovers(rows: Table, pid: string, order: seq<RowId>, r: RowId, k: nat, s: RowId)
    requires IsOrder(rows - {r}, pid, order) && k <= |order| && Within(rows, pid, s)
    ensures s in order[..k] + [r] + order[k..]
  {
    if s != r {
      assert Within(rows - {r}, pid, s);
      assert order == order[..k] + order[k..];
    }
  }

  lemma {:induction false} OrderExists(rows: Table, pid: string)
    requires UniqueKeys(rows)
    ensures exists order :: IsOrder(rows, pid, order)
    decreases |rows|
  {
    if exists r :: Within(rows, pid, r) {
      var r :| Within(rows, pid, r);
      var rest := rows - {r};
      assert rest.Keys == rows.Keys - {r};
      OrderExists(rest, pid);
      var order :| IsOrder(rest, pid, order);
      assert !Occupied(rest, pid, rows[r].pos);
      var k := FindSlot(rest, pid, order, rows[r].pos);
      InsertedInOrder(rows, pid, order, r, k);
    } else {
      assert IsOrder(rows, pid, []);
    }
  }

  ghost function Order(rows: Table, pid: string): (order: seq<RowId>)
    requires UniqueKeys(rows)
    ensures IsOrder(rows, pid, order)
  {
    OrderExists(rows, pid);
    var order :| IsOrder(rows, pid, order);
    order
  }

  lemma TheOrder(rows: Table, pid: string, order: seq<RowId>)
    requires UniqueKeys(rows) && IsOrder(rows, pid, order)
    ensures Order(rows, pid) == order
  {
    OrderIsUnique(rows, pid, Order(rows, pid), order);
  }

  /** The positions of a playlist are exactly 1..n. */
  ghost predicate Dense(rows: Table, pid: string)
    requires UniqueKeys(rows)
  {
    forall i | 0 <= i < |Order(rows, pid)| :: rows[Order(rows, pid)[i]].pos == i + 1
  }

  function MediaOf(rows: Table, order: seq<RowId>): seq<string>
    requires forall r | r in order :: r in rows
  {
    seq(|order|, i requires 0 <= i < |order| => rows[order[i]].media)
  }

  /** The tracks of a playlist, in order. */
  ghost function Tracks(rows: Table, pid: string): (tracks: seq<string>)
    requires UniqueKeys(rows)
    ensures |tracks| == |Order(rows, pid)|
    ensures forall i | 0 <= i < |tracks| :: tracks[i] == rows[Order(rows, pid)[i]].media
  {
    var order := Order(rows, pid);
    assert forall r | r in order :: Within(rows, pid, r);
    MediaOf(rows, order)
  }

  /** Nothing outside one playlist has changed. */
  ghost predicate OthersUnchanged(before: Table, after: Table, pid: string) {
    && (forall r | r in before && before[r].playlist != pid :: r in after && after[r] == before[r])
    && (forall r | r in after && after[r].playlist != pid :: r in before && after[r] == before[r])
  }

  lemma OtherPlaylistsKeepTheirOrder(before: Table, after: Table, pid: string, other: string)
    requires UniqueKeys(before) && UniqueKeys(after) && OthersUnchanged(before, after, pid) && other != pid
    ensures Order(after, other) == Order(before, other)
    ensures Tracks(after, other) == Tracks(before, other)
    ensures Dense(after, other) <==> Dense(before, other)
  {
    var order := Order(before, other);
    assert IsOrder(after, other, order) by {
      assert forall i | 0 <= i < |order| :: Within(before, other, order[i]);
      assert forall r | Within(after, other, r) :: Within(before, other, r);
    }
    TheOrder(after, other, order);
    assert forall i | 0 <= i < |order| :: Within(before, other, order[i]);
  }
}
