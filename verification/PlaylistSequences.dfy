/** What moving, renumbering, deleting and appending do to a playlist seen as a sequence. */
module PlaylistSequences {
  import opened PlaylistTable

  // ---- Sequences ----

  function Without<T>(s: seq<T>, i: nat): seq<T>
    requires i < |s|
  {
    s[..i] + s[i + 1..]
  }

  function Inserted<T>(s: seq<T>, j: nat, x: T): seq<T>
    requires j <= |s|
  {
    s[..j] + [x] + s[j..]
  }

  /** Remove at i, insert at j. */
  function Moved<T>(s: seq<T>, i: nat, j: nat): seq<T>
    requires i < |s| && j < |s|
  {
    Inserted(Without(s, i), j, s[i])
  }

  /** The old index of the item at index k. */
  function MovedFrom(i: nat, j: nat, k: nat): nat {
    if k == j then i else if i <= k < j then k + 1 else if j < k <= i then k - 1 else k
  }

  lemma MovedAt<T>(s: seq<T>, i: nat, j: nat, k: nat)
    requires i < |s| && j < |s| && k < |s|
    ensures |Moved(s, i, j)| == |s|
    ensures MovedFrom(i, j, k) < |s| && Moved(s, i, j)[k] == s[MovedFrom(i, j, k)]
  {
  }

  lemma MovedTo(i: nat, j: nat, k: nat)
    ensures MovedFrom(i, j, MovedFrom(j, i, k)) == k
  {
  }

  /** Moving back undoes a move. */
  lemma MoveBack<T>(s: seq<T>, i: nat, j: nat)
    requires i < |s| && j < |s|
    ensures |Moved(s, i, j)| == |s|
    ensures Moved(Moved(s, i, j), j, i) == s
  {
    var t := Moved(s, i, j);
    forall k | 0 <= k < |s|
      ensures |t| == |s| && |Moved(t, j, i)| == |s| && Moved(t, j, i)[k] == s[k]
    {
      MovedAt(s, i, j, k);
      MovedAt(t, j, i, k);
      MovedAt(s, i, j, MovedFrom(j, i, k));
      MovedTo(i, j, k);
    }
    MovedAt(s, i, j, 0);
    MovedAt(t, j, i, 0);
  }

  function Reversed<T>(s: seq<T>): (r: seq<T>)
    ensures |r| == |s|
    ensures forall k | 0 <= k < |s| :: r[k] == s[|s| - 1 - k]
  {
    seq(|s|, k requires 0 <= k < |s| => s[|s| - 1 - k])
  }

  function Filtered<T(==)>(s: seq<T>, keep: set<T>): seq<T> {
    if s == [] then [] else Filtered(s[..|s| - 1], keep) + if s[|s| - 1] in keep then [s[|s| - 1]] else []
  }

  /** The items of s at these places, in order. */
  predicate Selects<T(==)>(places: seq<nat>, s: seq<T>, selected: seq<T>) {
    && |selected| == |places| && (forall k | 0 <= k < |places| :: places[k] < |s| && selected[k] == s[places[k]])
    && forall k, l | 0 <= k < l < |places| :: places[k] < places[l]
  }

  lemma SelectsNext<T>(places: seq<nat>, s: seq<T>, selected: seq<T>, x: T)
    requires Selects(places, s, selected)
    ensures Selects(places, s + [x], selected) && Selects(places + [|s|], s + [x], selected + [x])
  {
  }

  /** Filtering selects exactly the items to keep. */
  lemma {:induction false} FilteredSelects<T>(s: seq<T>, keep: set<T>) returns (places: seq<nat>)
    ensures Selects(places, s, Filtered(s, keep))
    ensures forall i | 0 <= i < |s| :: i in places <==> s[i] in keep
  {
    places := [];
    if s != [] {
      var n := |s| - 1;
      places := FilteredSelects(s[..n], keep);
      assert s == s[..n] + [s[n]];
      SelectsNext(places, s[..n], Filtered(s[..n], keep), s[n]);
      if s[n] in keep {
        places := places + [n];
      }
    }
  }

  /** A move takes one item out and puts it in elsewhere, and leaves the others in order. */
  lemma MovedIs<T>(s: seq<T>, i: nat, j: nat)
    requires i < |s| && j < |s|
    ensures var moved := Moved(s, i, j);
      |moved| == |s| && moved[j] == s[i] && moved[..j] + moved[j + 1..] == s[..i] + s[i + 1..]
  {
    var rest := s[..i] + s[i + 1..];
    assert rest == rest[..j] + rest[j..];
    assert Moved(s, i, j) == rest[..j] + [s[i]] + rest[j..];
  }

  // ---- Dense playlists ----

  /** A numbering from 1 settles the order. */
  lemma NumberedIsOrder(rows: Table, pid: string, order: seq<RowId>)
    requires UniqueKeys(rows)
    requires forall i | 0 <= i < |order| :: Within(rows, pid, order[i]) && rows[order[i]].pos == i + 1
    requires forall r | Within(rows, pid, r) :: r in order
    ensures Order(rows, pid) == order && Dense(rows, pid)
  {
    TheOrder(rows, pid, order);
  }

  lemma DenseOccupied(rows: Table, pid: string, p: int)
    requires UniqueKeys(rows) && Dense(rows, pid)
    ensures Occupied(rows, pid, p) <==> 1 <= p <= |Order(rows, pid)|
  {
    var order := Order(rows, pid);
    if Occupied(rows, pid, p) {
      var r :| Within(rows, pid, r) && rows[r].pos == p;
      assert r in order;
    }
    if 1 <= p <= |order| {
      assert Within(rows, pid, order[p - 1]) && rows[order[p - 1]].pos == p;
    }
  }

  // ---- Sets of rows ----

  ghost predicate AllPositive(rows: Table, pid: string) {
    forall p | Occupied(rows, pid, p) :: p > 0
  }

  function RowsOf(rows: Table, pid: string): set<RowId> {
    set r | r in rows && rows[r].playlist == pid
  }

  lemma SameSize(rows: Table, pid: string, place: int -> int)
    requires UniqueKeys(rows) && UniqueKeys(Repositioned(rows, pid, place))
    ensures |Order(Repositioned(rows, pid, place), pid)| == |Order(rows, pid)|
  {
    var after := Repositioned(rows, pid, place);
    OrderSize(rows, pid);
    OrderSize(after, pid);
    assert RowsOf(after, pid) == RowsOf(rows, pid);
  }

  lemma OrderSize(rows: Table, pid: string)
    requires UniqueKeys(rows)
    ensures |Order(rows, pid)| == |RowsOf(rows, pid)|
  {
    var order := Order(rows, pid);
    DistinctSize(order);
    assert Elements(order) == RowsOf(rows, pid) by {
      assert forall i | 0 <= i < |order| :: Within(rows, pid, order[i]);
      assert forall r | r in RowsOf(rows, pid) :: Within(rows, pid, r);
    }
  }

  function Elements<T(!new)>(s: seq<T>): (elements: set<T>)
    ensures forall x :: x in elements <==> x in s
  {
    if s == [] then {} else Elements(s[..|s| - 1]) + {s[|s| - 1]}
  }

  lemma {:induction false} DistinctSize<T(!new)>(s: seq<T>)
    requires forall i, j | 0 <= i < j < |s| :: s[i] != s[j]
    ensures |Elements(s)| == |s|
  {
    if s != [] {
      DistinctSize(s[..|s| - 1]);
    }
  }

  lemma RepositionedIsUnique(rows: Table, pid: string, place: int -> int)
    requires UniqueKeys(rows)
    requires forall p, q | Occupied(rows, pid, p) && Occupied(rows, pid, q) && p != q :: place(p) != place(q)
    ensures UniqueKeys(Repositioned(rows, pid, place)) && OthersUnchanged(rows, Repositioned(rows, pid, place), pid)
  {
    assert forall r | Within(rows, pid, r) :: Occupied(rows, pid, rows[r].pos);
  }
}
