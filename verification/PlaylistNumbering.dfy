/** Renumbering, deleting and appending, on the table and on the sequence it stands for. */
module PlaylistNumbering {
  import opened PlaylistTable
  import opened PlaylistSequences

  // ---- Renumber ----

  function Negate(): Change {
    p => if p > 0 then Some(-p) else None
  }

  /** Two rows at opposite positions. */
  ghost predicate HasMirror(rows: Table, pid: string) {
    exists p :: p > 0 && Occupied(rows, pid, p) && Occupied(rows, pid, -p)
  }

  lemma NegateIsSafe(rows: Table, pid: string)
    requires !HasMirror(rows, pid)
    ensures SafeChange(rows, pid, Negate())
  {
  }

  lemma NegateIsDoomed(rows: Table, pid: string)
    requires HasMirror(rows, pid)
    ensures DoomedRewrite(rows, TargetOf(rows, pid, Negate()))
  {
    var p :| p > 0 && Occupied(rows, pid, p) && Occupied(rows, pid, -p);
    ClashDooms(rows, pid, Negate(), p, -p);
  }

  function Negated(rows: Table, pid: string): Table {
    Repositioned(rows, pid, Applied(Negate()))
  }

  function Larger(rows: Table, pid: string, p: int): set<RowId> {
    set s | s in rows && rows[s].playlist == pid && rows[s].pos > p
  }

  /** ROW_NUMBER() OVER (ORDER BY id DESC), for every row of the playlist. */
  function RowNumbers(rows: Table, pid: string): map<RowId, int> {
    map r | r in rows && rows[r].playlist == pid :: 1 + |Larger(rows, pid, rows[r].pos)|
  }

  /** The rows at larger positions are those later in the order. */
  lemma LargerAreLater(rows: Table, pid: string, i: nat, s: RowId)
    requires UniqueKeys(rows) && i < |Order(rows, pid)|
    ensures Within(rows, pid, Order(rows, pid)[i])
    ensures s in Larger(rows, pid, rows[Order(rows, pid)[i]].pos) <==> s in Order(rows, pid)[i + 1..]
  {
    var order := Order(rows, pid);
    var later := order[i + 1..];
    hide UniqueKeys;
    assert Within(rows, pid, order[i]);
    if s in later {
      var j :| 0 <= j < |later| && later[j] == s;
      assert Within(rows, pid, order[i + 1 + j]);
    }
    if s in Larger(rows, pid, rows[order[i]].pos) {
      assert Within(rows, pid, s);
      var j :| 0 <= j < |order| && order[j] == s;
      assert later[j - i - 1] == s;
    }
  }

  lemma RowNumberAt(rows: Table, pid: string, i: nat)
    requires UniqueKeys(rows) && i < |Order(rows, pid)|
    ensures Within(rows, pid, Order(rows, pid)[i])
    ensures RowNumbers(rows, pid)[Order(rows, pid)[i]] == |Order(rows, pid)| - i
  {
    var order := Order(rows, pid);
    var r, later := order[i], order[i + 1..];
    LargerAreLater(rows, pid, i, r);
    hide UniqueKeys, Larger;
    forall s
      ensures s in Larger(rows, pid, rows[r].pos) <==> s in Elements(later)
    {
      LargerAreLater(rows, pid, i, s);
    }
    assert Larger(rows, pid, rows[r].pos) == Elements(later);
    DistinctSize(later);
  }

  ghost predicate NonPositive(rows: Table, pid: string) {
    forall p | Occupied(rows, pid, p) :: p <= 0
  }

  lemma NegatedIsNonPositive(rows: Table, pid: string)
    ensures NonPositive(Negated(rows, pid), pid)
  {
    forall q | Occupied(Negated(rows, pid), pid, q)
      ensures q <= 0
    {
      OccupiedAfter(rows, pid, Applied(Negate()), q);
    }
  }

  lemma RowNumbersAreSafe(rows: Table, pid: string)
    requires UniqueKeys(rows) && NonPositive(rows, pid)
    ensures SafeRewrite(rows, RowNumbers(rows, pid))
  {
    var order, target := Order(rows, pid), RowNumbers(rows, pid);
    forall r, s | r in target && s in rows && r in rows && r != s && rows[r].playlist == rows[s].playlist
      ensures target[r] != rows[s].pos && (s in target ==> target[r] != target[s])
    {
      assert Within(rows, pid, r) && Within(rows, pid, s);
      assert Occupied(rows, pid, rows[s].pos);
      var i :| 0 <= i < |order| && order[i] == r;
      var j :| 0 <= j < |order| && order[j] == s;
      RowNumberAt(rows, pid, i);
      RowNumberAt(rows, pid, j);
    }
  }

  /** The whole of renumber, when its first statement goes through. */
  function Renumbered(rows: Table, pid: string): Table {
    Rewritten(Negated(rows, pid), RowNumbers(Negated(rows, pid), pid))
  }

  lemma ReversedRow(rows: Table, pid: string, i: nat)
    requires UniqueKeys(rows) && i < |Order(rows, pid)|
    ensures var after, r := Rewritten(rows, RowNumbers(rows, pid)), Reversed(Order(rows, pid))[i];
      Within(after, pid, r) && after[r].pos == i + 1
  {
    RowNumberAt(rows, pid, |Order(rows, pid)| - 1 - i);
  }

  lemma ReversedCovers(rows: Table, pid: string, r: RowId)
    requires UniqueKeys(rows) && Within(rows, pid, r)
    ensures r in Reversed(Order(rows, pid))
  {
    var order := Order(rows, pid);
    var k :| 0 <= k < |order| && order[k] == r;
    assert Reversed(order)[|order| - 1 - k] == r;
  }

  /** Numbering by descending position reverses the order and leaves no gap. */
  lemma NumberedInReverse(rows: Table, pid: string)
    requires UniqueKeys(rows) && NonPositive(rows, pid)
    ensures var after := Rewritten(rows, RowNumbers(rows, pid));
      && UniqueKeys(after) && Dense(after, pid) && OthersUnchanged(rows, after, pid)
      && Order(after, pid) == Reversed(Order(rows, pid))
  {
    var after, target := Rewritten(rows, RowNumbers(rows, pid)), RowNumbers(rows, pid);
    RowNumbersAreSafe(rows, pid);
    SafeIsUnique(rows, target);
    assert OthersUnchanged(rows, after, pid);
    hide UniqueKeys, SafeRewrite, RowNumbers, OthersUnchanged, Dense, NonPositive;
    forall i | 0 <= i < |Reversed(Order(rows, pid))|
      ensures Within(after, pid, Reversed(Order(rows, pid))[i]) && after[Reversed(Order(rows, pid))[i]].pos == i + 1
    {
      ReversedRow(rows, pid, i);
    }
    forall r | Within(after, pid, r)
      ensures r in Reversed(Order(rows, pid))
    {
      assert Within(rows, pid, r);
      ReversedCovers(rows, pid, r);
    }
    NumberedIsOrder(after, pid, Reversed(Order(rows, pid)));
  }

  lemma SafeIsUnique(rows: Table, target: map<RowId, int>)
    requires UniqueKeys(rows) && SafeRewrite(rows, target)
    ensures UniqueKeys(Rewritten(rows, target))
  {
    PartsOfSafeAreUnique(rows, target, target.Keys);
    assert Restrict(target, target.Keys) == target;
  }

  lemma NegatedIsUnique(rows: Table, pid: string)
    requires UniqueKeys(rows) && !HasMirror(rows, pid)
    ensures UniqueKeys(Negated(rows, pid)) && OthersUnchanged(rows, Negated(rows, pid), pid)
  {
    NegateIsSafe(rows, pid);
    SafeChangeIsSafe(rows, pid, Negate());
    SafeIsUnique(rows, TargetOf(rows, pid, Negate()));
    ChangeRepositions(rows, pid, Negate());
  }

  /** Same rows and tracks; in other playlists the same positions too. */
  ghost predicate OnlyPositionsChange(before: Table, after: Table, pid: string) {
    && after.Keys == before.Keys
    && forall r | r in before ::
      after[r] == if before[r].playlist == pid then before[r].(pos := after[r].pos) else before[r]
  }

  function Magnitude(p: int): int {
    if p < 0 then -p else p
  }

  lemma RenumberIsDense(rows: Table, pid: string)
    requires UniqueKeys(rows) && !HasMirror(rows, pid)
    ensures UniqueKeys(Renumbered(rows, pid)) && Dense(Renumbered(rows, pid), pid)
  {
    NegatedIsUnique(rows, pid);
    NegatedIsNonPositive(rows, pid);
    hide UniqueKeys, Dense, OthersUnchanged, HasMirror, NonPositive, Negated, RowNumbers, Rewritten;
    NumberedInReverse(Negated(rows, pid), pid);
  }

  lemma RenumberOnlyMoves(rows: Table, pid: string)
    ensures OnlyPositionsChange(rows, Renumbered(rows, pid), pid)
  {
  }

  lemma NegatedRow(rows: Table, pid: string, r: RowId)
    requires Within(rows, pid, r)
    ensures Within(Negated(rows, pid), pid, r) && Negated(rows, pid)[r].pos == -Magnitude(rows[r].pos)
    ensures r in Renumbered(rows, pid) && Renumbered(rows, pid)[r].pos == RowNumbers(Negated(rows, pid), pid)[r]
  {
  }

  /** After renumber the positions are 1..m, in the order of the old positions' magnitudes. */
  lemma RenumberSorts(rows: Table, pid: string)
    requires UniqueKeys(rows) && !HasMirror(rows, pid)
    ensures UniqueKeys(Renumbered(rows, pid)) && Dense(Renumbered(rows, pid), pid)
    ensures OnlyPositionsChange(rows, Renumbered(rows, pid), pid)
    ensures forall a, b |
      Within(rows, pid, a) && Within(rows, pid, b) && Magnitude(rows[a].pos) < Magnitude(rows[b].pos) ::
      Renumbered(rows, pid)[a].pos < Renumbered(rows, pid)[b].pos
  {
    RenumberIsDense(rows, pid);
    RenumberOnlyMoves(rows, pid);
    NegatedIsUnique(rows, pid);
    hide UniqueKeys, Dense, OthersUnchanged, HasMirror, Negated, Renumbered, RowNumbers, OnlyPositionsChange, Magnitude;
    forall a, b | Within(rows, pid, a) && Within(rows, pid, b) && Magnitude(rows[a].pos) < Magnitude(rows[b].pos)
      ensures a in Renumbered(rows, pid) && b in Renumbered(rows, pid)
      ensures Renumbered(rows, pid)[a].pos < Renumbered(rows, pid)[b].pos
    {
      NegatedRow(rows, pid, a);
      NegatedRow(rows, pid, b);
      LargerComesFirst(Negated(rows, pid), pid, b, a);
    }
  }

  lemma LargerComesFirst(rows: Table, pid: string, a: RowId, b: RowId)
    requires UniqueKeys(rows) && Within(rows, pid, a) && Within(rows, pid, b) && rows[a].pos < rows[b].pos
    ensures RowNumbers(rows, pid)[b] < RowNumbers(rows, pid)[a]
  {
    var order := Order(rows, pid);
    var i :| 0 <= i < |order| && order[i] == a;
    var j :| 0 <= j < |order| && order[j] == b;
    RowNumberAt(rows, pid, i);
    RowNumberAt(rows, pid, j);
    assert i < j;
  }

  lemma SameOrderAfter(before: Table, after: Table, pid: string, order: seq<RowId>)
    requires IsOrder(before, pid, order) && AllPositive(before, pid) && OnlyPositionsChange(before, after, pid)
    requires forall a, b |
      Within(before, pid, a) && Within(before, pid, b) && Magnitude(before[a].pos) < Magnitude(before[b].pos) ::
      after[a].pos < after[b].pos
    ensures IsOrder(after, pid, order)
    ensures forall i | 0 <= i < |order| ::
      order[i] in before && order[i] in after && after[order[i]].media == before[order[i]].media
  {
    forall i | 0 <= i < |order|
      ensures Within(before, pid, order[i]) && Within(after, pid, order[i]) && before[order[i]].pos > 0
    {
      assert Within(before, pid, order[i]) && Occupied(before, pid, before[order[i]].pos);
    }
    forall r | Within(after, pid, r)
      ensures r in order
    {
      assert Within(before, pid, r);
    }
  }

  /** On positive positions renumber keeps the order. */
  lemma RenumberKeepsOrder(rows: Table, pid: string)
    requires UniqueKeys(rows) && AllPositive(rows, pid)
    ensures !HasMirror(rows, pid) && UniqueKeys(Renumbered(rows, pid))
    ensures Order(Renumbered(rows, pid), pid) == Order(rows, pid)
    ensures Tracks(Renumbered(rows, pid), pid) == Tracks(rows, pid)
  {
    assert !HasMirror(rows, pid);
    hide UniqueKeys, Renumbered, OnlyPositionsChange, Dense, AllPositive, HasMirror, Magnitude, IsOrder;
    RenumberSorts(rows, pid);
    SameOrderAfter(rows, Renumbered(rows, pid), pid, Order(rows, pid));
    TheOrder(Renumbered(rows, pid), pid, Order(rows, pid));
  }

  // ---- Delete ----

  function Keep(rows: Table, keep: set<RowId>): Table {
    map r | r in rows && r in keep :: rows[r]
  }

  lemma {:induction false} FilteredElements<T>(s: seq<T>, keep: set<T>)
    ensures forall x :: x in Filtered(s, keep) <==> x in s && x in keep
  {
    if s != [] {
      var init, last := s[..|s| - 1], s[|s| - 1];
      FilteredElements(init, keep);
      assert s == init + [last];
    }
  }

  ghost predicate Increasing(rows: Table, order: seq<RowId>) {
    && (forall i | 0 <= i < |order| :: order[i] in rows)
    && forall i, j | 0 <= i < j < |order| :: rows[order[i]].pos < rows[order[j]].pos
  }

  lemma {:induction false} FilteredIncreases(rows: Table, order: seq<RowId>, keep: set<RowId>)
    requires Increasing(rows, order)
    ensures Increasing(rows, Filtered(order, keep))
  {
    if order != [] {
      var init, last := order[..|order| - 1], order[|order| - 1];
      FilteredIncreases(rows, init, keep);
      FilteredElements(init, keep);
      var rest := Filtered(init, keep);
      forall i | 0 <= i < |rest|
        ensures rows[rest[i]].pos < rows[last].pos
      {
        assert rest[i] in init;
      }
    }
  }

  /** Deleting rows filters the order of every playlist. */
  lemma KeepFilters(rows: Table, keep: set<RowId>, pid: string)
    requires UniqueKeys(rows)
    ensures UniqueKeys(Keep(rows, keep))
    ensures Order(Keep(rows, keep), pid) == Filtered(Order(rows, pid), keep)
  {
    var kept, order := Keep(rows, keep), Order(rows, pid);
    var filtered := Filtered(order, keep);
    FilteredElements(order, keep);
    FilteredIncreases(rows, order, keep);
    forall i | 0 <= i < |filtered|
      ensures Within(kept, pid, filtered[i])
    {
      assert filtered[i] in order && filtered[i] in keep;
      var k :| 0 <= k < |order| && order[k] == filtered[i];
      assert Within(rows, pid, order[k]);
    }
    forall r | Within(kept, pid, r)
      ensures r in filtered
    {
      assert Within(rows, pid, r);
    }
    TheOrder(kept, pid, filtered);
  }

  lemma KeptIsPositive(rows: Table, keep: set<RowId>, pid: string)
    requires AllPositive(rows, pid)
    ensures AllPositive(Keep(rows, keep), pid)
  {
    forall p | Occupied(Keep(rows, keep), pid, p)
      ensures p > 0
    {
      var r :| Within(Keep(rows, keep), pid, r) && Keep(rows, keep)[r].pos == p;
      assert Within(rows, pid, r) && Occupied(rows, pid, p);
    }
  }

  lemma DenseIsPositive(rows: Table, pid: string)
    requires UniqueKeys(rows) && Dense(rows, pid)
    ensures AllPositive(rows, pid)
  {
    forall p | Occupied(rows, pid, p)
      ensures p > 0
    {
      DenseOccupied(rows, pid, p);
    }
  }

  /** The items whose place, counted from 1, is not listed. */
  function WithoutPlaces<T>(s: seq<T>, places: set<int>): seq<T> {
    if s == [] then [] else WithoutPlaces(s[..|s| - 1], places) + if |s| in places then [] else [s[|s| - 1]]
  }

  /** Dropping places selects exactly the others. */
  lemma {:induction false} WithoutPlacesSelects<T>(s: seq<T>, dropped: set<int>) returns (places: seq<nat>)
    ensures Selects(places, s, WithoutPlaces(s, dropped))
    ensures forall i | 0 <= i < |s| :: i in places <==> i + 1 !in dropped
  {
    places := [];
    if s != [] {
      var n := |s| - 1;
      places := WithoutPlacesSelects(s[..n], dropped);
      assert s == s[..n] + [s[n]];
      SelectsNext(places, s[..n], WithoutPlaces(s[..n], dropped), s[n]);
      if |s| !in dropped {
        places := places + [n];
      }
    }
  }

  lemma MediaOfLast(rows: Table, order: seq<RowId>)
    requires order != [] && forall r | r in order :: r in rows
    ensures forall r | r in order[..|order| - 1] :: r in rows
    ensures MediaOf(rows, order)[..|order| - 1] == MediaOf(rows, order[..|order| - 1])
    ensures MediaOf(rows, order)[|order| - 1] == rows[order[|order| - 1]].media
    ensures MediaOf(rows, order) == MediaOf(rows, order[..|order| - 1]) + [rows[order[|order| - 1]].media]
  {
  }

  lemma MediaOfAppend(rows: Table, a: seq<RowId>, b: seq<RowId>)
    requires (forall r | r in a :: r in rows) && forall r | r in b :: r in rows
    ensures MediaOf(rows, a + b) == MediaOf(rows, a) + MediaOf(rows, b)
  {
  }

  /** Filtering rows and taking their tracks, in either order. */
  lemma {:induction false} FilteredTracks(rows: Table, order: seq<RowId>, keep: set<RowId>, media: set<string>)
    requires forall r | r in order :: r in rows && (r in keep <==> rows[r].media in media)
    ensures forall r | r in Filtered(order, keep) :: r in rows
    ensures MediaOf(rows, Filtered(order, keep)) == Filtered(MediaOf(rows, order), media)
  {
    FilteredElements(order, keep);
    if order != [] {
      var init, last := order[..|order| - 1], order[|order| - 1];
      MediaOfLast(rows, order);
      FilteredElements(init, keep);
      FilteredTracks(rows, init, keep, media);
      assert last in order;
      hide MediaOf;
      MediaOfAppend(rows, Filtered(init, keep), if last in keep then [last] else []);
      MediaOfFew(rows, last);
    }
  }

  lemma MediaOfFew(rows: Table, r: RowId)
    requires r in rows
    ensures MediaOf(rows, []) == [] && MediaOf(rows, [r]) == [rows[r].media]
  {
  }

  lemma {:induction false} PlacedTracks(rows: Table, order: seq<RowId>, keep: set<RowId>, places: set<int>)
    requires forall i | 0 <= i < |order| :: order[i] in rows && (order[i] in keep <==> i + 1 !in places)
    ensures forall r | r in Filtered(order, keep) :: r in rows
    ensures MediaOf(rows, Filtered(order, keep)) == WithoutPlaces(MediaOf(rows, order), places)
  {
    FilteredElements(order, keep);
    if order != [] {
      var init, last := order[..|order| - 1], order[|order| - 1];
      MediaOfLast(rows, order);
      FilteredElements(init, keep);
      PlacedTracks(rows, init, keep, places);
      hide MediaOf;
      MediaOfAppend(rows, Filtered(init, keep), if last in keep then [last] else []);
      MediaOfFew(rows, last);
    }
  }

  /** The rows a DELETE leaves when it drops some positions of one playlist. */
  function KeptByPosition(rows: Table, pid: string, ids: set<int>): set<RowId> {
    set r | r in rows && !(rows[r].playlist == pid && rows[r].pos in ids)
  }

  function KeptByMedia(rows: Table, pid: string, media: set<string>): set<RowId> {
    set r | r in rows && !(rows[r].playlist == pid && rows[r].media !in media)
  }

  lemma KeepLeavesOthers(rows: Table, keep: set<RowId>, pid: string)
    requires forall r | r in rows && rows[r].playlist != pid :: r in keep
    ensures OthersUnchanged(rows, Keep(rows, keep), pid)
  {
  }

  lemma TracksOfKept(rows: Table, keep: set<RowId>, pid: string)
    requires UniqueKeys(rows)
    ensures UniqueKeys(Keep(rows, keep))
    ensures forall r | r in Filtered(Order(rows, pid), keep) :: r in rows
    ensures Tracks(Keep(rows, keep), pid) == MediaOf(rows, Filtered(Order(rows, pid), keep))
  {
    KeepFilters(rows, keep, pid);
    FilteredElements(Order(rows, pid), keep);
    var kept, order := Keep(rows, keep), Order(rows, pid);
    assert forall i | 0 <= i < |order| :: Within(rows, pid, order[i]);
    hide UniqueKeys;
    forall i | 0 <= i < |Tracks(kept, pid)|
      ensures Tracks(kept, pid)[i] == rows[Order(kept, pid)[i]].media
    {
      assert Within(kept, pid, Order(kept, pid)[i]);
    }
  }

  /** Dropping positions of a dense playlist drops those places of its tracks. */
  lemma DeleteFilters(rows: Table, pid: string, ids: set<int>)
    requires UniqueKeys(rows) && Dense(rows, pid)
    ensures var kept := Keep(rows, KeptByPosition(rows, pid, ids));
      && UniqueKeys(kept) && OthersUnchanged(rows, kept, pid)
      && AllPositive(kept, pid) && Tracks(kept, pid) == WithoutPlaces(Tracks(rows, pid), ids)
  {
    var keep, order := KeptByPosition(rows, pid, ids), Order(rows, pid);
    DenseIsPositive(rows, pid);
    KeptIsPositive(rows, keep, pid);
    KeepLeavesOthers(rows, keep, pid);
    TracksOfKept(rows, keep, pid);
    assert forall i | 0 <= i < |order| :: Within(rows, pid, order[i]);
    PlacedTracks(rows, order, keep, ids);
    assert Tracks(rows, pid) == MediaOf(rows, order);
  }

  /** Dropping the tracks whose file is gone filters the tracks. */
  lemma OrphansFilter(rows: Table, pid: string, media: set<string>)
    requires UniqueKeys(rows) && Dense(rows, pid)
    ensures var kept := Keep(rows, KeptByMedia(rows, pid, media));
      && UniqueKeys(kept) && OthersUnchanged(rows, kept, pid)
      && AllPositive(kept, pid) && Tracks(kept, pid) == Filtered(Tracks(rows, pid), media)
  {
    var keep, order := KeptByMedia(rows, pid, media), Order(rows, pid);
    DenseIsPositive(rows, pid);
    KeptIsPositive(rows, keep, pid);
    KeepLeavesOthers(rows, keep, pid);
    TracksOfKept(rows, keep, pid);
    assert forall i | 0 <= i < |order| :: Within(rows, pid, order[i]);
    FilteredTracks(rows, order, keep, media);
    assert Tracks(rows, pid) == MediaOf(rows, order);
  }

  lemma {:induction false} FilteredAll<T>(s: seq<T>, keep: set<T>)
    requires forall x | x in s :: x in keep
    ensures Filtered(s, keep) == s
  {
    if s != [] {
      var init, last := s[..|s| - 1], s[|s| - 1];
      assert s == init + [last];
      FilteredAll(init, keep);
    }
  }

  // ---- Append ----

  /** No track at any of n positions from `start` on. */
  ghost predicate Free(rows: Table, pid: string, start: int, n: nat) {
    forall p | start <= p < start + n :: !Occupied(rows, pid, p)
  }

  /** The playlist has gained just these tracks, at the positions from `start` on. */
  ghost predicate Filled(before: Table, after: Table, pid: string, start: int, items: seq<string>) {
    && (forall r | r in before :: r in after && after[r] == before[r])
    && (forall r | r in after && r !in before :: IsItem(after[r], pid, start, items))
    && (forall p | start <= p < start + |items| :: Occupied(after, pid, p))
  }

  predicate IsItem(row: Row, pid: string, start: int, items: seq<string>) {
    start <= row.pos < start + |items| && row == Row(pid, items[row.pos - start], row.pos)
  }

  lemma NothingFilled(rows: Table, pid: string, start: int)
    ensures Filled(rows, rows, pid, start, []) && Free(rows, pid, start, 0)
  {
  }

  lemma FilledLeavesOthers(before: Table, after: Table, pid: string, start: int, items: seq<string>)
    requires Filled(before, after, pid, start, items)
    ensures OthersUnchanged(before, after, pid)
  {
  }

  /** A position is occupied afterwards if it was before, or is one of those filled. */
  lemma FilledOccupied(before: Table, after: Table, pid: string, start: int, items: seq<string>, p: int)
    requires Filled(before, after, pid, start, items)
    ensures Occupied(after, pid, p) <==> Occupied(before, pid, p) || start <= p < start + |items|
  {
    if Occupied(after, pid, p) {
      var r :| Within(after, pid, r) && after[r].pos == p;
      assert r in before ==> Within(before, pid, r);
    }
    if Occupied(before, pid, p) {
      var r :| Within(before, pid, r) && before[r].pos == p;
      assert Within(after, pid, r);
    }
  }

  /** Positions filled in two goes are free if each part is when its turn comes. */
  lemma FreeInParts(before: Table, middle: Table, pid: string, start: int, x: seq<string>, n: nat)
    requires Filled(before, middle, pid, start, x) && Free(before, pid, start, |x|)
    ensures Free(middle, pid, start + |x|, n) <==> Free(before, pid, start, |x| + n)
  {
    hide Filled, Occupied;
    forall p | start + |x| <= p < start + |x| + n
      ensures Occupied(middle, pid, p) <==> Occupied(before, pid, p)
    {
      FilledOccupied(before, middle, pid, start, x, p);
    }
  }

  /** Filling in two goes is filling once. */
  lemma FilledTwice(a: Table, b: Table, c: Table, pid: string, start: int, x: seq<string>, y: seq<string>)
    requires Filled(a, b, pid, start, x) && Filled(b, c, pid, start + |x|, y)
    ensures Filled(a, c, pid, start, x + y)
  {
    forall p | start <= p < start + |x + y|
      ensures Occupied(c, pid, p)
    {
      FilledOccupied(b, c, pid, start + |x|, y, p);
    }
  }

  lemma RowFills(rows: Table, pid: string, rid: RowId, media: string, pos: int)
    requires rid !in rows
    ensures Filled(rows, rows[rid := Row(pid, media, pos)], pid, pos, [media])
  {
    var after := rows[rid := Row(pid, media, pos)];
    assert Within(after, pid, rid) && after[rid].pos == pos;
  }

  lemma RowKeepsUnique(rows: Table, pid: string, rid: RowId, media: string, pos: int)
    requires UniqueKeys(rows) && rid !in rows && !Occupied(rows, pid, pos)
    ensures UniqueKeys(rows[rid := Row(pid, media, pos)])
  {
    forall r | Within(rows, pid, r)
      ensures rows[r].pos != pos
    {
      assert Occupied(rows, pid, rows[r].pos);
    }
  }

  ghost function RowAt(rows: Table, pid: string, p: int): (r: RowId)
    requires Occupied(rows, pid, p)
    ensures Within(rows, pid, r) && rows[r].pos == p
  {
    var r :| Within(rows, pid, r) && rows[r].pos == p;
    r
  }

  ghost function RowsFrom(rows: Table, pid: string, start: int, n: nat): (ids: seq<RowId>)
    requires forall p | start <= p < start + n :: Occupied(rows, pid, p)
    ensures |ids| == n
    ensures forall i | 0 <= i < n :: Within(rows, pid, ids[i]) && rows[ids[i]].pos == start + i
  {
    if n == 0 then [] else RowsFrom(rows, pid, start, n - 1) + [RowAt(rows, pid, start + n - 1)]
  }

  /** A block put into a sequence. */
  function WithBlock<T>(s: seq<T>, k: nat, block: seq<T>): seq<T>
    requires k <= |s|
  {
    s[..k] + block + s[k..]
  }

  lemma BlockAt<T>(s: seq<T>, k: nat, block: seq<T>, i: nat)
    requires k <= |s| && i < |s| + |block|
    ensures |WithBlock(s, k, block)| == |s| + |block|
    ensures WithBlock(s, k, block)[i] ==
      if i < k then s[i] else if i < k + |block| then block[i - k] else s[i - |block|]
  {
  }

  lemma BlockCovers<T>(s: seq<T>, k: nat, block: seq<T>, x: T)
    requires k <= |s| && (x in s || x in block)
    ensures x in WithBlock(s, k, block)
  {
    assert s == s[..k] + s[k..];
  }

  /** The first k rows of a playlist come before the positions from `start` on, and the others after them. */
  ghost predicate Surround(rows: Table, pid: string, k: nat, start: int, n: nat)
    requires UniqueKeys(rows)
  {
    var order := Order(rows, pid);
    && k <= |order|
    && forall i | 0 <= i < |order| ::
      order[i] in rows && if i < k then rows[order[i]].pos < start else rows[order[i]].pos >= start + n
  }

  lemma FilledCovers(before: Table, after: Table, pid: string, start: int, items: seq<string>, r: RowId)
    requires UniqueKeys(after) && Filled(before, after, pid, start, items) && Within(after, pid, r)
    ensures Within(before, pid, r) || r in RowsFrom(after, pid, start, |items|)
  {
    if r !in before {
      assert RowsFrom(after, pid, start, |items|)[after[r].pos - start] == r;
    }
  }

  lemma OldRow(before: Table, after: Table, pid: string, start: int, items: seq<string>, i: nat)
    requires UniqueKeys(before) && Filled(before, after, pid, start, items) && i < |Order(before, pid)|
    ensures Within(before, pid, Order(before, pid)[i]) && Within(after, pid, Order(before, pid)[i])
    ensures after[Order(before, pid)[i]] == before[Order(before, pid)[i]]
  {
    assert Within(before, pid, Order(before, pid)[i]);
  }

  lemma OrderIncreases(rows: Table, pid: string)
    requires UniqueKeys(rows)
    ensures var order := Order(rows, pid);
      && (forall i | 0 <= i < |order| :: order[i] in rows)
      && forall i, j | 0 <= i < j < |order| :: rows[order[i]].pos < rows[order[j]].pos
  {
    var order := Order(rows, pid);
    assert forall i | 0 <= i < |order| :: Within(rows, pid, order[i]);
  }

  /** The rows before, the new rows and the rows after them, by index. */
  lemma BlockRow(before: Table, after: Table, pid: string, start: int, items: seq<string>, k: nat, i: nat)
    requires UniqueKeys(before) && Filled(before, after, pid, start, items) && Surround(before, pid, k, start, |items|)
    requires i < |Order(before, pid)| + |items|
    ensures var order, n := Order(before, pid), |items|;
      var longer := WithBlock(order, k, RowsFrom(after, pid, start, n));
      && |longer| == |order| + n && Within(after, pid, longer[i])
      && if k <= i < k + n then after[longer[i]].pos == start + i - k else
        var prior := order[if i < k then i else i - n];
        longer[i] == prior && prior in before && after[prior] == before[prior] && (before[prior].pos < start <==> i < k)
        && (before[prior].pos < start || before[prior].pos >= start + n)
  {
    var order, n := Order(before, pid), |items|;
    BlockAt(order, k, RowsFrom(after, pid, start, n), i);
    if !(k <= i < k + n) {
      OldRow(before, after, pid, start, items, if i < k then i else i - n);
    }
  }

  lemma BlockAscends(before: Table, after: Table, pid: string, start: int, items: seq<string>, k: nat, i: nat, j: nat)
    requires UniqueKeys(before) && Filled(before, after, pid, start, items) && Surround(before, pid, k, start, |items|)
    requires i < j < |Order(before, pid)| + |items|
    ensures var longer := WithBlock(Order(before, pid), k, RowsFrom(after, pid, start, |items|));
      && j < |longer| && longer[i] in after && longer[j] in after && after[longer[i]].pos < after[longer[j]].pos
  {
    BlockRow(before, after, pid, start, items, k, i);
    BlockRow(before, after, pid, start, items, k, j);
    OrderIncreases(before, pid);
  }

  /** The new rows come between those before and those after them. */
  lemma FilledOrder(before: Table, after: Table, pid: string, start: int, items: seq<string>, k: nat)
    requires UniqueKeys(before) && UniqueKeys(after) && Filled(before, after, pid, start, items)
    requires Surround(before, pid, k, start, |items|)
    ensures Order(after, pid) == WithBlock(Order(before, pid), k, RowsFrom(after, pid, start, |items|))
  {
    var order, ids := Order(before, pid), RowsFrom(after, pid, start, |items|);
    var longer := WithBlock(order, k, ids);
    assert |longer| == |order| + |items|;
    hide Filled, UniqueKeys, Surround, WithBlock;
    forall i, j | 0 <= i < j < |longer|
      ensures longer[i] in after && longer[j] in after && after[longer[i]].pos < after[longer[j]].pos
    {
      BlockAscends(before, after, pid, start, items, k, i, j);
    }
    forall i | 0 <= i < |longer|
      ensures Within(after, pid, longer[i])
    {
      BlockRow(before, after, pid, start, items, k, i);
    }
    forall r | Within(after, pid, r)
      ensures r in longer
    {
      FilledCovers(before, after, pid, start, items, r);
      assert Within(before, pid, r) ==> r in order;
      BlockCovers(order, k, ids, r);
    }
    TheOrder(after, pid, longer);
  }

  lemma NewRow(before: Table, after: Table, pid: string, start: int, items: seq<string>, k: nat, i: nat)
    requires UniqueKeys(before) && Filled(before, after, pid, start, items)
    requires Surround(before, pid, k, start, |items|) && i < |items|
    ensures RowsFrom(after, pid, start, |items|)[i] in after
    ensures after[RowsFrom(after, pid, start, |items|)[i]].media == items[i]
  {
    var order, r := Order(before, pid), RowsFrom(after, pid, start, |items|)[i];
    assert Within(after, pid, r) && after[r].pos == start + i;
    assert r in before ==> Within(before, pid, r) && r in order;
  }

  lemma BlockTrack(before: Table, after: Table, pid: string, start: int, items: seq<string>, k: nat, i: nat)
    requires UniqueKeys(before) && Filled(before, after, pid, start, items) && Surround(before, pid, k, start, |items|)
    requires i < |Order(before, pid)| + |items|
    ensures var longer := WithBlock(Order(before, pid), k, RowsFrom(after, pid, start, |items|));
      && i < |longer| && longer[i] in after
      && i < |WithBlock(Tracks(before, pid), k, items)| &&
        after[longer[i]].media == WithBlock(Tracks(before, pid), k, items)[i]
  {
    BlockRow(before, after, pid, start, items, k, i);
    BlockAt(Tracks(before, pid), k, items, i);
    BlockAt(Order(before, pid), k, RowsFrom(after, pid, start, |items|), i);
    hide Filled, UniqueKeys, WithBlock;
    if k <= i < k + |items| {
      NewRow(before, after, pid, start, items, k, i - k);
    }
  }

  /** The new tracks are one block of the playlist. */
  lemma FilledTracks(before: Table, after: Table, pid: string, start: int, items: seq<string>, k: nat)
    requires UniqueKeys(before) && UniqueKeys(after) && Filled(before, after, pid, start, items)
    requires Surround(before, pid, k, start, |items|)
    ensures Tracks(after, pid) == WithBlock(Tracks(before, pid), k, items)
  {
    FilledOrder(before, after, pid, start, items, k);
    var blocks := WithBlock(Tracks(before, pid), k, items);
    assert |blocks| == |Order(before, pid)| + |items| == |Tracks(after, pid)|;
    hide UniqueKeys, WithBlock, RowsFrom, Filled, Surround;
    forall i | 0 <= i < |blocks|
      ensures Tracks(after, pid)[i] == blocks[i]
    {
      BlockTrack(before, after, pid, start, items, k, i);
    }
  }

  /** Every position of the playlist is before this one. */
  ghost predicate Below(rows: Table, pid: string, p: int) {
    forall q | Occupied(rows, pid, q) :: q < p
  }

  lemma BlockAtEnds<T>(s: seq<T>, block: seq<T>)
    ensures WithBlock(s, |s|, block) == s + block && WithBlock(s, 0, block) == block + s
  {
    assert s[..|s|] == s && s[0..] == s;
  }

  /** Filling positions beyond all others appends; a dense playlist stays dense when they are the next ones. */
  lemma FilledAppends(before: Table, after: Table, pid: string, start: int, items: seq<string>)
    requires UniqueKeys(before) && UniqueKeys(after)
    requires Filled(before, after, pid, start, items) && Below(before, pid, start)
    ensures Tracks(after, pid) == Tracks(before, pid) + items
    ensures Dense(before, pid) && start == |Tracks(before, pid)| + 1 ==> Dense(after, pid)
  {
    BelowSurrounds(before, pid, start, |items|);
    hide UniqueKeys, Filled, Surround, WithBlock, Dense;
    FilledTracks(before, after, pid, start, items, |Tracks(before, pid)|);
    BlockAtEnds(Tracks(before, pid), items);
    if Dense(before, pid) && start == |Tracks(before, pid)| + 1 {
      FilledIsDense(before, after, pid, start, items);
    }
  }

  lemma FilledIsDense(before: Table, after: Table, pid: string, start: int, items: seq<string>)
    requires UniqueKeys(before) && UniqueKeys(after) && Filled(before, after, pid, start, items) && Dense(before, pid)
    requires start == |Tracks(before, pid)| + 1 && Surround(before, pid, |Tracks(before, pid)|, start, |items|)
    ensures Dense(after, pid)
  {
    var n := |Order(before, pid)|;
    FilledOrder(before, after, pid, start, items, n);
    assert |Order(after, pid)| == n + |items|;
    hide UniqueKeys, Filled, Surround, WithBlock;
    forall i | 0 <= i < n + |items|
      ensures Order(after, pid)[i] in after && after[Order(after, pid)[i]].pos == i + 1
    {
      BlockRow(before, after, pid, start, items, n, i);
    }
  }

  lemma BelowSurrounds(rows: Table, pid: string, start: int, n: nat)
    requires UniqueKeys(rows) && Below(rows, pid, start)
    ensures Surround(rows, pid, |Order(rows, pid)|, start, n)
  {
    var order := Order(rows, pid);
    forall i | 0 <= i < |order|
      ensures order[i] in rows && rows[order[i]].pos < start
    {
      assert Within(rows, pid, order[i]) && Occupied(rows, pid, rows[order[i]].pos);
    }
  }

  /** Filling positions before those of a dense playlist prepends, and it is dense no more. */
  lemma FilledPrepends(before: Table, after: Table, pid: string, start: int, items: seq<string>)
    requires UniqueKeys(before) && UniqueKeys(after) && Filled(before, after, pid, start, items)
    requires Dense(before, pid) && start + |items| <= 1
    ensures Tracks(after, pid) == items + Tracks(before, pid)
    ensures items != [] ==> !Dense(after, pid)
  {
    DenseSurrounds(before, pid, start, |items|);
    if items != [] && Dense(after, pid) {
      DenseOccupied(after, pid, start);
    }
    hide UniqueKeys, Filled, Surround, WithBlock, Dense;
    FilledTracks(before, after, pid, start, items, 0);
    BlockAtEnds(Tracks(before, pid), items);
  }

  lemma DenseSurrounds(rows: Table, pid: string, start: int, n: nat)
    requires UniqueKeys(rows) && Dense(rows, pid) && start + n <= 1
    ensures Surround(rows, pid, 0, start, n)
  {
    var order := Order(rows, pid);
    assert forall i | 0 <= i < |order| :: Within(rows, pid, order[i]);
  }

  lemma OthersTwice(a: Table, b: Table, c: Table, pid: string)
    requires OthersUnchanged(a, b, pid) && OthersUnchanged(b, c, pid)
    ensures OthersUnchanged(a, c, pid)
  {
  }

}
