/** Asynchronous index maintenance as a protocol: live writes that only mark rows
    dirty, interleaved with the separate steps of the background merger, and the
    hybrid reads that must still agree with a full scan (secindex.go,
    store_write.go, exec_select.go, exec_write.go). */
module IndexOverlay {
  import opened Wrappers
  import opened Values
  import opened CompositeKeys
  import opened IndexOrder

  datatype IndexDef = IndexDef(ords: seq<nat>, ordered: bool)

  /** One table: its indexes, its shard count, and how a primary key picks a shard. */
  datatype Table = Table(indexes: seq<IndexDef>, width: nat, shards: nat, route: Uuid -> nat)

  ghost predicate ValidTable(t: Table) {
    && (forall pk :: t.route(pk) < t.shards)
    && (forall k, i :: 0 <= k < |t.indexes| && 0 <= i < |t.indexes[k].ords| ==> t.indexes[k].ords[i] < t.width)
  }

  /** `rev` is the merger's own map; `view` is what readers see. They differ only
      for an ordered index between an apply and the fold of its sorted slice. */
  datatype IndexState = IndexState(rev: map<Uuid, IndexKey>, view: map<Uuid, IndexKey>)

  /** How much of a shard's dirty lists a merge snapshotted. */
  datatype Cut = Cut(read: nat, del: nat)

  /** Where the merger stands. `drops` are the shards whose prefix is processed,
      `changed[k]` the keys that moved in ordered index k. */
  datatype Merger =
    | Idle
    | Scanning(next: nat, drops: map<nat, Cut>, changed: seq<seq<Uuid>>)
    | Reading(next: nat, cut: Cut, batch: seq<Uuid>, at: nat, drops: map<nat, Cut>, changed: seq<seq<Uuid>>)
    | Applying(next: nat, cut: Cut, batch: seq<Uuid>, at: nat, cells: seq<Option<IndexKey>>, k: nat,
               drops: map<nat, Cut>, changed: seq<seq<Uuid>>)
    | Folding(k: nat, drops: map<nat, Cut>, changed: seq<seq<Uuid>>)
    | Dropping(drops: map<nat, Cut>)
    | Owing(drops: map<nat, Cut>, cut: Cut)

  datatype State = State(
    rows: map<Uuid, Row>,
    dirtyRead: seq<seq<Uuid>>,
    dirtyDel: seq<seq<Uuid>>,
    idx: seq<IndexState>,
    merger: Merger,
    readCount: int)

  datatype Step =
    | Insert(pk: Uuid, row: Row)
    | Update(pk: Uuid, ords: seq<nat>, vals: seq<Value>)
    | Delete(pk: Uuid)
    | Begin
    | Snapshot
    | Read
    | Apply
    | Fold
    | Drop(shard: nat)
    | Settle

  function Find<K, V>(m: map<K, V>, k: K): Option<V> {
    if k in m then Some(m[k]) else None
  }

  predicate Fits(ords: seq<nat>, row: Row) {
    forall i :: 0 <= i < |ords| ==> ords[i] < |row|
  }

  /** The key a row's live cells call for in index k; None when absent or NULL. */
  function Current(t: Table, s: State, k: nat, pk: Uuid): Option<IndexKey>
    requires k < |t.indexes|
  {
    if pk in s.rows && Fits(t.indexes[k].ords, s.rows[pk]) then RowKey(t.indexes[k].ords, s.rows[pk]) else None
  }

  /** `updateTouchesIndex`. */
  predicate Touches(t: Table, ords: seq<nat>) {
    exists k, i :: 0 <= k < |t.indexes| && 0 <= i < |t.indexes[k].ords| && t.indexes[k].ords[i] in ords
  }

  function WithCells(row: Row, ords: seq<nat>, vals: seq<Value>): (r: Row)
    requires |ords| == |vals| && Fits(ords, row)
    ensures |r| == |row|
    ensures forall i :: 0 <= i < |row| && i !in ords ==> r[i] == row[i]
  {
    if ords == [] then row
    else
      var last := |ords| - 1;
      assert forall i :: i in ords[..last] ==> i in ords;
      WithCells(row, ords[..last], vals[..last])[ords[last] := vals[last]]
  }

  predicate Shaped(t: Table, s: State) {
    && |s.dirtyRead| == |s.dirtyDel| == t.shards
    && |s.idx| == |t.indexes|
  }

  /** What the merge loop does to index k: the reverse map changes, and a hash
      index's readers see it at once. */
  function ApplyKey(ix: IndexState, ordered: bool, pk: Uuid, key: Option<IndexKey>): IndexState {
    var rev := if key.Some? then ix.rev[pk := key.value] else ix.rev - {pk};
    IndexState(rev, if ordered then ix.view else rev)
  }

  /** One atomic step; a step that is not enabled changes nothing. */
  function Do(t: Table, s: State, step: Step): (s': State)
    requires ValidTable(t) && Shaped(t, s)
    ensures Shaped(t, s')
  {
    match step
    case Insert(pk, row) =>
      if pk in s.rows || |row| != t.width then s
      else MarkRead(t, s.(rows := s.rows[pk := row]), pk)
    case Update(pk, ords, vals) =>
      if pk !in s.rows || |ords| != |vals| || !Fits(ords, s.rows[pk]) then s
      else
        var s1 := s.(rows := s.rows[pk := WithCells(s.rows[pk], ords, vals)]);
        if Touches(t, ords) then MarkRead(t, s1, pk) else s1
    case Delete(pk) =>
      if pk !in s.rows then s
      else
        var sh := t.route(pk);
        s.(rows := s.rows - {pk}, dirtyDel := s.dirtyDel[sh := s.dirtyDel[sh] + [pk]])
    case Begin =>
      if s.merger.Idle? then s.(merger := Scanning(0, map[], seq(|t.indexes|, _ => []))) else s
    case Snapshot =>
      if !s.merger.Scanning? then s
      else
        var m := s.merger;
        if m.next >= t.shards then s.(merger := Folding(0, m.drops, m.changed))
        else
          var r, d := s.dirtyRead[m.next], s.dirtyDel[m.next];
          if r + d == [] then s.(merger := Scanning(m.next + 1, m.drops, m.changed))
          else s.(merger := Reading(m.next, Cut(|r|, |d|), r + d, 0, m.drops, m.changed))
    case Read =>
      if !s.merger.Reading? then s
      else
        var m := s.merger;
        if m.at >= |m.batch| then s.(merger := Scanning(m.next + 1, m.drops[m.next := m.cut], m.changed))
        else
          var cells := seq(|t.indexes|, k requires 0 <= k < |t.indexes| => Current(t, s, k, m.batch[m.at]));
          s.(merger := Applying(m.next, m.cut, m.batch, m.at, cells, 0, m.drops, m.changed))
    case Apply =>
      if !s.merger.Applying? then s
      else
        var m := s.merger;
        if m.k >= |t.indexes| || m.at >= |m.batch| || m.k >= |m.cells| || m.k >= |m.changed| then
          s.(merger := Reading(m.next, m.cut, m.batch, m.at + 1, m.drops, m.changed))
        else
          var pk, ordered := m.batch[m.at], t.indexes[m.k].ordered;
          var ix := ApplyKey(s.idx[m.k], ordered, pk, m.cells[m.k]);
          var moved := ordered && ix.rev != s.idx[m.k].rev;
          s.(idx := s.idx[m.k := ix],
             merger := Applying(m.next, m.cut, m.batch, m.at, m.cells, m.k + 1, m.drops,
                                if moved then m.changed[m.k := m.changed[m.k] + [pk]] else m.changed))
    case Fold =>
      if !s.merger.Folding? then s
      else
        var m := s.merger;
        if m.k >= |t.indexes| || m.k >= |m.changed| then s.(merger := Dropping(m.drops))
        else
          var folds := t.indexes[m.k].ordered && m.changed[m.k] != [];
          s.(idx := if folds then s.idx[m.k := s.idx[m.k].(view := s.idx[m.k].rev)] else s.idx,
             merger := Folding(m.k + 1, m.drops, m.changed))
    case Drop(sh) =>
      if !s.merger.Dropping? then s
      else if s.merger.drops == map[] then s.(merger := Idle)
      else if sh !in s.merger.drops || sh >= t.shards then s
      else
        var c := s.merger.drops[sh];
        if c.read > |s.dirtyRead[sh]| || c.del > |s.dirtyDel[sh]| then s
        else s.(dirtyRead := s.dirtyRead[sh := s.dirtyRead[sh][c.read..]],
                dirtyDel := s.dirtyDel[sh := s.dirtyDel[sh][c.del..]],
                merger := Owing(s.merger.drops - {sh}, c))
    case Settle =>
      if !s.merger.Owing? then s
      else s.(readCount := s.readCount - s.merger.cut.read, merger := Dropping(s.merger.drops))
  }

  /** `markDirtyLocked`: the list and its counter move together. */
  function MarkRead(t: Table, s: State, pk: Uuid): (s': State)
    requires ValidTable(t) && Shaped(t, s)
    ensures Shaped(t, s')
  {
    var sh := t.route(pk);
    s.(dirtyRead := s.dirtyRead[sh := s.dirtyRead[sh] + [pk]], readCount := s.readCount + 1)
  }

  // ---- the invariant ----

  /** pk has a mark past the given cut of its shard's lists: any mark in the read
      list, or a delete mark if the row is gone. */
  ghost predicate MarkedPast(t: Table, s: State, pk: Uuid, c: Cut)
    requires ValidTable(t) && Shaped(t, s)
  {
    var sh := t.route(pk);
    c.read <= |s.dirtyRead[sh]| && c.del <= |s.dirtyDel[sh]| &&
    (pk in s.dirtyRead[sh][c.read..] || (pk !in s.rows && pk in s.dirtyDel[sh][c.del..]))
  }

  /** The part of a shard's lists the running merge will drop. */
  function CutOf(m: Merger, sh: nat): Cut {
    match m
    case Idle => Cut(0, 0)
    case Reading(next, cut, _, _, drops, _) =>
      if sh == next then cut else if sh in drops then drops[sh] else Cut(0, 0)
    case Applying(next, cut, _, _, _, _, drops, _) =>
      if sh == next then cut else if sh in drops then drops[sh] else Cut(0, 0)
    case _ => if sh in m.drops then m.drops[sh] else Cut(0, 0)
  }

  /** The running merge will still bring index k up to date for pk. */
  predicate Queued(m: Merger, pk: Uuid, k: nat) {
    match m
    case Reading(_, _, batch, at, _, _) => at <= |batch| && pk in batch[at..]
    case Applying(_, _, batch, at, _, kc, _, _) =>
      at < |batch| && (pk in batch[at + 1..] || (pk == batch[at] && k >= kc))
    case _ => false
  }

  /** The running merge has yet to fold pk into the view of index k. */
  predicate Unfolded(m: Merger, pk: Uuid, k: nat) {
    match m
    case Idle => false
    case Folding(kc, _, changed) => kc <= k < |changed| && pk in changed[k]
    case Dropping(_) => false
    case Owing(_, _) => false
    case _ => k < |m.changed| && pk in m.changed[k]
  }

  ghost predicate Good(t: Table, s: State, pk: Uuid, k: nat)
    requires ValidTable(t) && Shaped(t, s) && k < |t.indexes|
  {
    var cur, rev, view := Current(t, s, k, pk), Find(s.idx[k].rev, pk), Find(s.idx[k].view, pk);
    // a stale entry is listed dirty
    && (rev != cur || view != cur ==> MarkedPast(t, s, pk, Cut(0, 0)))
    // and stays listed, past what the merge will drop, until the merge has fixed it
    && (rev != cur ==> MarkedPast(t, s, pk, CutOf(s.merger, t.route(pk))) || Queued(s.merger, pk, k))
    // what was read for pk is still current, or pk was marked again since
    && (s.merger.Applying? && s.merger.at < |s.merger.batch| && pk == s.merger.batch[s.merger.at] && k < |s.merger.cells| ==>
          MarkedPast(t, s, pk, CutOf(s.merger, t.route(pk))) || s.merger.cells[k] == cur)
    && (view != rev ==> t.indexes[k].ordered && Unfolded(s.merger, pk, k))
  }

  predicate GoodMerger(t: Table, s: State)
    requires Shaped(t, s)
  {
    var m := s.merger;
    && (forall sh :: 0 <= sh < t.shards ==>
          CutOf(m, sh).read <= |s.dirtyRead[sh]| && CutOf(m, sh).del <= |s.dirtyDel[sh]|)
    && (m.Scanning? || m.Reading? || m.Applying? || m.Folding? ==> |m.changed| == |t.indexes|)
    && (m.Scanning? || m.Reading? || m.Applying? ==> forall sh :: sh in m.drops ==> sh < m.next)
    && (m.Folding? || m.Dropping? || m.Owing? ==> forall sh :: sh in m.drops ==> sh < t.shards)
    && (m.Scanning? ==> m.next <= t.shards)
    && (m.Reading? || m.Applying? ==>
          && m.next < t.shards && m.at <= |m.batch|
          && (forall pk :: pk in m.batch ==> pk in s.dirtyRead[m.next][..m.cut.read] || pk in s.dirtyDel[m.next][..m.cut.del]))
    && (m.Applying? ==> m.at < |m.batch| && |m.cells| == |t.indexes| && m.k <= |t.indexes|)
  }

  function Total(lists: seq<seq<Uuid>>): nat {
    if lists == [] then 0 else |lists[0]| + Total(lists[1..])
  }

  ghost predicate Inv(t: Table, s: State)
    requires ValidTable(t)
  {
    && Shaped(t, s) && GoodMerger(t, s)
    && (forall pk :: pk in s.rows ==> |s.rows[pk]| == t.width)
    && (forall pk, k {:trigger Good(t, s, pk, k)} :: 0 <= k < |t.indexes| ==> Good(t, s, pk, k))
    && s.readCount == Total(s.dirtyRead) + (if s.merger.Owing? then s.merger.cut.read else 0)
  }

  // ---- every step keeps the invariant ----

  lemma CurrentDependsOnRow(t: Table, s: State, s': State, k: nat, pk: Uuid)
    requires k < |t.indexes| && Find(s.rows, pk) == Find(s'.rows, pk)
    ensures Current(t, s, k, pk) == Current(t, s', k, pk)
  {}

  /** An update of columns outside every index leaves every key as it was. */
  lemma UntouchedKeepsKeys(t: Table, row: Row, ords: seq<nat>, vals: seq<Value>, k: nat)
    requires |ords| == |vals| && Fits(ords, row) && !Touches(t, ords) && k < |t.indexes|
    requires Fits(t.indexes[k].ords, row)
    ensures RowKey(t.indexes[k].ords, WithCells(row, ords, vals)) == RowKey(t.indexes[k].ords, row)
  {
    var ix, row' := t.indexes[k].ords, WithCells(row, ords, vals);
    assert seq(|ix|, i requires 0 <= i < |ix| => row'[ix[i]]) == seq(|ix|, i requires 0 <= i < |ix| => row[ix[i]]) by {
      assert forall i :: 0 <= i < |ix| ==> ix[i] !in ords;
    }
  }

  /** A write to w that appends a mark of the right kind, or keeps w's keys, keeps
      every other row's and w's own entry in order. */
  lemma WriteKeepsGood(t: Table, s: State, s': State, w: Uuid, pk: Uuid, k: nat)
    requires ValidTable(t) && Inv(t, s) && Shaped(t, s') && k < |t.indexes|
    requires s'.idx == s.idx && s'.merger == s.merger
    requires forall p :: p != w ==> Find(s'.rows, p) == Find(s.rows, p)
    requires forall sh :: 0 <= sh < t.shards ==>
               s.dirtyRead[sh] <= s'.dirtyRead[sh] && s.dirtyDel[sh] <= s'.dirtyDel[sh]
    requires var sh := t.route(w);
             || (s'.dirtyRead[sh] == s.dirtyRead[sh] + [w] && w in s'.rows)
             || (s'.dirtyDel[sh] == s.dirtyDel[sh] + [w] && w !in s'.rows)
             || (w in s.rows && w in s'.rows && forall j :: 0 <= j < |t.indexes| ==> Current(t, s', j, w) == Current(t, s, j, w))
    ensures Good(t, s', pk, k)
  {
    assert Good(t, s, pk, k);
    var c := CutOf(s.merger, t.route(pk));
    if pk != w {
      CurrentDependsOnRow(t, s, s', k, pk);
      GrowKeepsMark(t, s, s', pk, Cut(0, 0));
      GrowKeepsMark(t, s, s', pk, c);
    } else if Current(t, s', k, w) == Current(t, s, k, w) && w in s.rows && w in s'.rows {
      GrowKeepsMark(t, s, s', pk, Cut(0, 0));
      GrowKeepsMark(t, s, s', pk, c);
    } else {
      AppendMarks(t, s, s', w, Cut(0, 0));
      AppendMarks(t, s, s', w, c);
    }
  }

  lemma GrowKeepsMark(t: Table, s: State, s': State, pk: Uuid, c: Cut)
    requires ValidTable(t) && Shaped(t, s) && Shaped(t, s')
    requires pk in s.rows <==> pk in s'.rows
    requires var sh := t.route(pk); s.dirtyRead[sh] <= s'.dirtyRead[sh] && s.dirtyDel[sh] <= s'.dirtyDel[sh]
    ensures MarkedPast(t, s, pk, c) ==> MarkedPast(t, s', pk, c)
  {
    var sh := t.route(pk);
    if MarkedPast(t, s, pk, c) {
      assert s.dirtyRead[sh][c.read..] <= s'.dirtyRead[sh][c.read..];
      assert s.dirtyDel[sh][c.del..] <= s'.dirtyDel[sh][c.del..];
    }
  }

  lemma AppendMarks(t: Table, s: State, s': State, w: Uuid, c: Cut)
    requires ValidTable(t) && Shaped(t, s) && Shaped(t, s')
    requires var sh := t.route(w);
             c.read <= |s.dirtyRead[sh]| && c.del <= |s.dirtyDel[sh]|
             && s.dirtyRead[sh] <= s'.dirtyRead[sh] && s.dirtyDel[sh] <= s'.dirtyDel[sh]
             && ((s'.dirtyRead[sh] == s.dirtyRead[sh] + [w] && w in s'.rows)
                 || (s'.dirtyDel[sh] == s.dirtyDel[sh] + [w] && w !in s'.rows))
    ensures MarkedPast(t, s', w, c)
  {
    var sh := t.route(w);
    if w in s'.rows {
      assert s'.dirtyRead[sh][c.read..][|s.dirtyRead[sh]| - c.read] == w;
    } else {
      assert s'.dirtyDel[sh][c.del..][|s.dirtyDel[sh]| - c.del] == w;
    }
  }

  lemma {:induction false} TotalUpdate(lists: seq<seq<Uuid>>, sh: nat, l: seq<Uuid>)
    requires sh < |lists|
    ensures Total(lists[sh := l]) == Total(lists) - |lists[sh]| + |l|
  {
    if sh == 0 {
      assert lists[sh := l][1..] == lists[1..];
    } else {
      assert lists[sh := l][1..] == lists[1..][sh - 1 := l];
      TotalUpdate(lists[1..], sh - 1, l);
    }
  }

  lemma WriteKeepsInv(t: Table, s: State, step: Step)
    requires ValidTable(t) && Inv(t, s) && (step.Insert? || step.Update? || step.Delete?)
    ensures Inv(t, Do(t, s, step))
  {
    var s', w := Do(t, s, step), step.pk;
    if s' != s {
      var sh := t.route(w);
      TotalUpdate(s.dirtyRead, sh, s.dirtyRead[sh] + [w]);
      if step.Update? && !Touches(t, step.ords) {
        forall j | 0 <= j < |t.indexes| ensures Current(t, s', j, w) == Current(t, s, j, w) {
          UntouchedKeepsKeys(t, s.rows[w], step.ords, step.vals, j);
        }
      }
      forall pk, k | 0 <= k < |t.indexes| ensures Good(t, s', pk, k) {
        WriteKeepsGood(t, s, s', w, pk, k);
      }
      GrowKeepsMerger(t, s, s');
    }
  }

  /** Lists that only grow keep the merger's own bookkeeping. */
  lemma GrowKeepsMerger(t: Table, s: State, s': State)
    requires ValidTable(t) && Shaped(t, s) && Shaped(t, s') && GoodMerger(t, s) && s'.merger == s.merger
    requires forall sh :: 0 <= sh < t.shards ==>
               s.dirtyRead[sh] <= s'.dirtyRead[sh] && s.dirtyDel[sh] <= s'.dirtyDel[sh]
    ensures GoodMerger(t, s')
  {
    var m := s.merger;
    if m.Reading? || m.Applying? {
      assert CutOf(m, m.next) == m.cut;
      assert s'.dirtyRead[m.next][..m.cut.read] == s.dirtyRead[m.next][..m.cut.read];
      assert s'.dirtyDel[m.next][..m.cut.del] == s.dirtyDel[m.next][..m.cut.del];
    }
  }

  lemma BeginKeepsInv(t: Table, s: State)
    requires ValidTable(t) && Inv(t, s)
    ensures Inv(t, Do(t, s, Begin))
  {
    var s' := Do(t, s, Begin);
    forall pk, k | 0 <= k < |t.indexes| ensures Good(t, s', pk, k) {
      assert Good(t, s, pk, k);
      CurrentDependsOnRow(t, s, s', k, pk);
    }
  }

  /** Snapshotting a shard moves all its marks into the batch. */
  lemma SnapshotKeepsInv(t: Table, s: State)
    requires ValidTable(t) && Inv(t, s)
    ensures Inv(t, Do(t, s, Snapshot))
  {
    var s' := Do(t, s, Snapshot);
    if s' != s {
      forall pk, k | 0 <= k < |t.indexes| ensures Good(t, s', pk, k) { SnapshotGood(t, s, s', pk, k); }
    }
  }

  lemma SnapshotGood(t: Table, s: State, s': State, pk: Uuid, k: nat)
    requires ValidTable(t) && Inv(t, s) && s.merger.Scanning? && s' == Do(t, s, Snapshot) && k < |t.indexes|
    ensures Good(t, s', pk, k)
  {
    assert Good(t, s, pk, k);
    CurrentDependsOnRow(t, s, s', k, pk);
    if s'.merger.Reading? {
      assert s'.merger.batch[0..] == s'.merger.batch;
      var sh := t.route(pk);
      assert s.dirtyRead[sh][0..] == s.dirtyRead[sh] && s.dirtyDel[sh][0..] == s.dirtyDel[sh];
    }
  }

  lemma ReadKeepsInv(t: Table, s: State)
    requires ValidTable(t) && Inv(t, s)
    ensures Inv(t, Do(t, s, Read))
  {
    var s' := Do(t, s, Read);
    if s' != s {
      forall pk, k | 0 <= k < |t.indexes| ensures Good(t, s', pk, k) { ReadGood(t, s, s', pk, k); }
    }
  }

  lemma ReadGood(t: Table, s: State, s': State, pk: Uuid, k: nat)
    requires ValidTable(t) && Inv(t, s) && s.merger.Reading? && s' == Do(t, s, Read) && k < |t.indexes|
    ensures Good(t, s', pk, k)
  {
    var m := s.merger;
    assert Good(t, s, pk, k);
    CurrentDependsOnRow(t, s, s', k, pk);
    if m.at < |m.batch| { assert m.batch[m.at..] == [m.batch[m.at]] + m.batch[m.at + 1..]; }
  }

  /** Applying a key brings one index up to date for one row, or the row was
      marked again since its cells were read. */
  lemma ApplyKeepsInv(t: Table, s: State)
    requires ValidTable(t) && Inv(t, s)
    ensures Inv(t, Do(t, s, Apply))
  {
    var s', m := Do(t, s, Apply), s.merger;
    if m.Applying? {
      forall pk, k | 0 <= k < |t.indexes| ensures Good(t, s', pk, k) {
        if m.k >= |t.indexes| {
          RowDoneGood(t, s, s', pk, k);
        } else if k == m.k {
          ApplyGood(t, s, s', pk);
        } else {
          ApplyOtherGood(t, s, s', pk, k);
        }
      }
    }
  }

  /** All indexes are applied for one row: the merger moves to the next. */
  lemma RowDoneGood(t: Table, s: State, s': State, pk: Uuid, k: nat)
    requires ValidTable(t) && Inv(t, s) && s.merger.Applying? && s.merger.k >= |t.indexes| > k
    requires s' == Do(t, s, Apply)
    ensures Good(t, s', pk, k)
  {
    assert Good(t, s, pk, k);
    CurrentDependsOnRow(t, s, s', k, pk);
  }

  /** Applying index m.k leaves every other index alone. */
  lemma ApplyOtherGood(t: Table, s: State, s': State, pk: Uuid, k: nat)
    requires ValidTable(t) && Inv(t, s) && s.merger.Applying? && s.merger.k < |t.indexes|
    requires k < |t.indexes| && k != s.merger.k
    requires s' == Do(t, s, Apply)
    ensures Good(t, s', pk, k)
  {
    assert Good(t, s, pk, k);
    CurrentDependsOnRow(t, s, s', k, pk);
  }

  lemma ApplyGood(t: Table, s: State, s': State, pk: Uuid)
    requires ValidTable(t) && Inv(t, s) && s.merger.Applying? && s.merger.k < |t.indexes|
    requires s' == Do(t, s, Apply)
    ensures Good(t, s', pk, s.merger.k)
  {
    var m := s.merger;
    assert Good(t, s, pk, m.k);
    CurrentDependsOnRow(t, s, s', m.k, pk);
    if pk == m.batch[m.at] { ApplyGoodRow(t, s, s', pk); }
  }

  /** For the row being applied. */
  lemma ApplyGoodRow(t: Table, s: State, s': State, pk: Uuid)
    requires ValidTable(t) && Inv(t, s) && s.merger.Applying? && s.merger.k < |t.indexes|
    requires s' == Do(t, s, Apply) && pk == s.merger.batch[s.merger.at] && Good(t, s, pk, s.merger.k)
    requires Current(t, s, s.merger.k, pk) == Current(t, s', s.merger.k, pk)
    ensures Good(t, s', pk, s.merger.k)
  {
    var m := s.merger;
    var w, ordered := m.batch[m.at], t.indexes[m.k].ordered;
    var ix, ix' := s.idx[m.k], ApplyKey(s.idx[m.k], ordered, w, m.cells[m.k]);
    assert Find(ix'.rev, pk) == m.cells[m.k];
    if pk == w {
      if MarkedPast(t, s, pk, CutOf(m, t.route(pk))) {
        MarkWeakens(t, s, pk, CutOf(m, t.route(pk)));
      }
      assert Find(ix'.view, pk) != Find(ix'.rev, pk) ==> ordered;
      if ordered && ix'.rev == ix.rev {
        assert Find(ix.view, pk) != Find(ix.rev, pk) ==> pk in m.changed[m.k];
      }
    }
  }

  lemma MarkWeakens(t: Table, s: State, pk: Uuid, c: Cut)
    requires ValidTable(t) && Shaped(t, s) && MarkedPast(t, s, pk, c)
    ensures MarkedPast(t, s, pk, Cut(0, 0))
  {
    var sh := t.route(pk);
    assert s.dirtyRead[sh][0..] == s.dirtyRead[sh] && s.dirtyDel[sh][0..] == s.dirtyDel[sh];
  }

  /** Folding makes an ordered index's readers see its reverse map. */
  lemma FoldKeepsInv(t: Table, s: State)
    requires ValidTable(t) && Inv(t, s)
    ensures Inv(t, Do(t, s, Fold))
  {
    var s' := Do(t, s, Fold);
    if s' != s {
      forall pk, k | 0 <= k < |t.indexes| ensures Good(t, s', pk, k) { FoldGood(t, s, s', pk, k); }
    }
  }

  lemma FoldGood(t: Table, s: State, s': State, pk: Uuid, k: nat)
    requires ValidTable(t) && Inv(t, s) && s.merger.Folding? && s' == Do(t, s, Fold) && k < |t.indexes|
    ensures Good(t, s', pk, k)
  {
    assert Good(t, s, pk, k);
    CurrentDependsOnRow(t, s, s', k, pk);
  }

  /** Dropping a processed prefix loses no mark a reader still needs. */
  lemma DropKeepsInv(t: Table, s: State, sh: nat)
    requires ValidTable(t) && Inv(t, s)
    ensures Inv(t, Do(t, s, Drop(sh)))
  {
    var s', m := Do(t, s, Drop(sh)), s.merger;
    if s' != s && m.drops != map[] {
      var c := m.drops[sh];
      assert c == CutOf(m, sh);
      TotalUpdate(s.dirtyRead, sh, s.dirtyRead[sh][c.read..]);
    }
    if s' != s {
      forall pk, k | 0 <= k < |t.indexes| ensures Good(t, s', pk, k) { DropGood(t, s, s', sh, pk, k); }
    }
  }

  lemma DropGood(t: Table, s: State, s': State, sh: nat, pk: Uuid, k: nat)
    requires ValidTable(t) && Inv(t, s) && s.merger.Dropping? && s' == Do(t, s, Drop(sh)) && k < |t.indexes|
    ensures Good(t, s', pk, k)
  {
    assert Good(t, s, pk, k);
    CurrentDependsOnRow(t, s, s', k, pk);
    if s' != s && s.merger.drops != map[] && t.route(pk) == sh {
      var c := s.merger.drops[sh];
      assert s'.dirtyRead[sh][0..] == s.dirtyRead[sh][c.read..];
      assert s'.dirtyDel[sh][0..] == s.dirtyDel[sh][c.del..];
    }
  }

  lemma SettleKeepsInv(t: Table, s: State)
    requires ValidTable(t) && Inv(t, s)
    ensures Inv(t, Do(t, s, Settle))
  {
    var s' := Do(t, s, Settle);
    if s' != s {
      forall pk, k | 0 <= k < |t.indexes| ensures Good(t, s', pk, k) {
        assert Good(t, s, pk, k);
        CurrentDependsOnRow(t, s, s', k, pk);
      }
    }
  }

  lemma StepKeepsInv(t: Table, s: State, step: Step)
    requires ValidTable(t) && Inv(t, s)
    ensures Inv(t, Do(t, s, step))
  {
    match step
    case Insert(_, _) => WriteKeepsInv(t, s, step);
    case Update(_, _, _) => WriteKeepsInv(t, s, step);
    case Delete(_) => WriteKeepsInv(t, s, step);
    case Begin => BeginKeepsInv(t, s);
    case Snapshot => SnapshotKeepsInv(t, s);
    case Read => ReadKeepsInv(t, s);
    case Apply => ApplyKeepsInv(t, s);
    case Fold => FoldKeepsInv(t, s);
    case Drop(sh) => DropKeepsInv(t, s, sh);
    case Settle => SettleKeepsInv(t, s);
  }

  /** The state after a full rebuild at boot (`rebuildIndexes`). */
  function Rebuilt(t: Table, rows: map<Uuid, Row>): (s: State)
    ensures Shaped(t, s)
  {
    State(rows, seq(t.shards, _ => []), seq(t.shards, _ => []),
          seq(|t.indexes|, k requires 0 <= k < |t.indexes| => RebuiltIndex(t.indexes[k].ords, rows)), Idle, 0)
  }

  function RebuiltIndex(ords: seq<nat>, rows: map<Uuid, Row>): IndexState {
    var m := map pk | pk in rows && Fits(ords, rows[pk]) && RowKey(ords, rows[pk]).Some? :: RowKey(ords, rows[pk]).value;
    IndexState(m, m)
  }

  lemma {:induction false} NoMarks(n: nat)
    ensures Total(seq(n, _ => [])) == 0
  {
    if n > 0 {
      var empty: seq<seq<Uuid>> := seq(n, _ => []);
      assert empty[1..] == seq(n - 1, _ => []);
      NoMarks(n - 1);
    }
  }

  lemma RebuiltInv(t: Table, rows: map<Uuid, Row>)
    requires ValidTable(t) && forall pk :: pk in rows ==> |rows[pk]| == t.width
    ensures Inv(t, Rebuilt(t, rows))
  {
    NoMarks(t.shards);
  }

  /** States reachable from boot by any interleaving of writes and merge steps. */
  function Run(t: Table, s: State, steps: seq<Step>): (s': State)
    requires ValidTable(t) && Shaped(t, s)
    ensures Shaped(t, s')
    decreases |steps|
  {
    if steps == [] then s else Run(t, Do(t, s, steps[0]), steps[1..])
  }

  lemma {:induction false} RunKeepsInv(t: Table, s: State, steps: seq<Step>)
    requires ValidTable(t) && Inv(t, s)
    ensures Inv(t, Run(t, s, steps))
    decreases |steps|
  {
    if steps != [] {
      StepKeepsInv(t, s, steps[0]);
      RunKeepsInv(t, Do(t, s, steps[0]), steps[1..]);
    }
  }

  // ---- hybrid reads ----

  /** One index probe of a query: which entries of index k it takes. */
  datatype Access = Access(k: nat, hit: IndexKey -> bool)

  ghost predicate ValidAccess(t: Table, acc: seq<Access>) {
    forall i :: 0 <= i < |acc| ==> acc[i].k < |t.indexes|
  }

  /** pk is in the intersection of the probed buckets. */
  ghost predicate Hit(t: Table, s: State, acc: seq<Access>, pk: Uuid)
    requires Shaped(t, s) && ValidAccess(t, acc)
  {
    forall i :: 0 <= i < |acc| ==>
      pk in s.idx[acc[i].k].view && acc[i].hit(s.idx[acc[i].k].view[pk])
  }

  /** `dirtyPKs`: skipped when the counter is zero, else every listed live row. */
  ghost predicate Overlay(t: Table, s: State, pk: Uuid)
    requires ValidTable(t) && Shaped(t, s)
  {
    s.readCount != 0 && pk in s.rows && exists sh :: 0 <= sh < t.shards && pk in s.dirtyRead[sh]
  }

  /** The overlay is empty. */
  ghost predicate Clean(t: Table, s: State)
    requires ValidTable(t) && Shaped(t, s)
  {
    forall pk :: !Overlay(t, s, pk)
  }

  /** The rows an indexed statement acts on: candidates whose live row passes WHERE. */
  ghost function Selected(t: Table, s: State, acc: seq<Access>, where: Row -> bool): set<Uuid>
    requires ValidTable(t) && Shaped(t, s) && ValidAccess(t, acc)
  {
    set pk | pk in s.rows && (Hit(t, s, acc, pk) || Overlay(t, s, pk)) && where(s.rows[pk])
  }

  /** The rows a full scan selects. */
  ghost function Scanned(s: State, where: Row -> bool): set<Uuid> {
    set pk | pk in s.rows && where(s.rows[pk])
  }

  /** The row's keys are ones the probes take. */
  ghost predicate KeysHit(t: Table, acc: seq<Access>, row: Row)
    requires ValidTable(t) && ValidAccess(t, acc) && |row| == t.width
  {
    forall i :: 0 <= i < |acc| ==>
      var key := RowKey(t.indexes[acc[i].k].ords, row); key.Some? && acc[i].hit(key.value)
  }

  /** Every row satisfying WHERE has, in each probed index, a key the probe takes. */
  ghost predicate Implied(t: Table, acc: seq<Access>, where: Row -> bool)
    requires ValidTable(t) && ValidAccess(t, acc)
  {
    forall row: Row {:trigger where(row)} :: |row| == t.width && where(row) ==> KeysHit(t, acc, row)
  }

  /** The counter never hides a listed mark from a reader. */
  lemma CounterNeverHides(t: Table, s: State, sh: nat)
    requires ValidTable(t) && Inv(t, s) && sh < t.shards && s.dirtyRead[sh] != []
    ensures s.readCount != 0
  {
    TotalUpdate(s.dirtyRead, sh, []);
  }

  /** A live row not in the overlay has exactly its current key in every index. */
  lemma CleanRowIsIndexed(t: Table, s: State, pk: Uuid, k: nat)
    requires ValidTable(t) && Inv(t, s) && k < |t.indexes| && pk in s.rows && !Overlay(t, s, pk)
    ensures Find(s.idx[k].view, pk) == Current(t, s, k, pk) == RowKey(t.indexes[k].ords, s.rows[pk])
  {
    assert Good(t, s, pk, k);
    var sh := t.route(pk);
    assert s.dirtyRead[sh][0..] == s.dirtyRead[sh];
    if pk in s.dirtyRead[sh] {
      CounterNeverHides(t, s, sh);
    }
  }

  /** An entry left by a deleted row is still listed for clean-up. */
  lemma StaleEntryIsListed(t: Table, s: State, pk: Uuid, k: nat)
    requires ValidTable(t) && Inv(t, s) && k < |t.indexes| && pk !in s.rows && pk in s.idx[k].view
    ensures pk in s.dirtyRead[t.route(pk)] || pk in s.dirtyDel[t.route(pk)]
  {
    assert Good(t, s, pk, k);
    var sh := t.route(pk);
    assert s.dirtyRead[sh][0..] == s.dirtyRead[sh] && s.dirtyDel[sh][0..] == s.dirtyDel[sh];
  }

  /** A state that keeps the invariant selects what a full scan selects. */
  lemma InvSelects(t: Table, s: State, acc: seq<Access>, where: Row -> bool)
    requires ValidTable(t) && Inv(t, s) && ValidAccess(t, acc) && Implied(t, acc, where)
    ensures Selected(t, s, acc, where) == Scanned(s, where)
  {
    forall pk | pk in Scanned(s, where) ensures pk in Selected(t, s, acc, where) {
      if !Overlay(t, s, pk) { CleanRowIsHit(t, s, pk, acc, where); }
    }
  }

  /** In every reachable state, index hits plus overlay plus the WHERE re-check
      select what a full scan selects: for SELECT, and as the target set of UPDATE
      and DELETE. */
  lemma HybridSelectsWhatScanSelects(t: Table, rows: map<Uuid, Row>, steps: seq<Step>, acc: seq<Access>, where: Row -> bool)
    requires ValidTable(t) && ValidAccess(t, acc) && Implied(t, acc, where)
    requires forall pk :: pk in rows ==> |rows[pk]| == t.width
    ensures var s := Run(t, Rebuilt(t, rows), steps);
            Selected(t, s, acc, where) == Scanned(s, where)
  {
    RebuiltInv(t, rows);
    RunKeepsInv(t, Rebuilt(t, rows), steps);
    InvSelects(t, Run(t, Rebuilt(t, rows), steps), acc, where);
  }

  /** When WHERE is exactly the probed conditions and the overlay is empty, the live
      hits need no re-check at all. */
  lemma ExactNeedsNoRecheck(t: Table, rows: map<Uuid, Row>, steps: seq<Step>, acc: seq<Access>, where: Row -> bool)
    requires ValidTable(t) && ValidAccess(t, acc)
    requires forall row: Row :: |row| == t.width ==> (where(row) <==> KeysHit(t, acc, row))
    requires forall pk :: pk in rows ==> |rows[pk]| == t.width
    ensures var s := Run(t, Rebuilt(t, rows), steps);
            (forall pk :: !Overlay(t, s, pk)) ==>
              (set pk | pk in s.rows && Hit(t, s, acc, pk)) == Scanned(s, where)
  {
    RebuiltInv(t, rows);
    RunKeepsInv(t, Rebuilt(t, rows), steps);
    var s := Run(t, Rebuilt(t, rows), steps);
    if forall pk :: !Overlay(t, s, pk) {
      forall pk | pk in s.rows ensures Hit(t, s, acc, pk) <==> where(s.rows[pk]) {
        forall i | 0 <= i < |acc| {
          CleanRowIsIndexed(t, s, pk, acc[i].k);
        }
        assert where(s.rows[pk]) <==> KeysHit(t, acc, s.rows[pk]);
      }
    }
  }

  /** An equality probe on one column takes exactly the rows holding that cell. */
  lemma EqualityProbe(ord: nat, row: Row, v: Value)
    requires ord < |row| && !v.Null?
    ensures RowKey([ord], row) == Some(KeyOf(v)) <==> row[ord] == v
  {
    assert seq(1, i requires 0 <= i < 1 => row[[ord][i]]) == [row[ord]];
    KeyOfInjective(row[ord], v);
  }

  /** A prefix probe on a composite index takes exactly the rows whose leading
      columns hold the pinned cells, provided no indexed column is NULL. */
  lemma PrefixProbe(ords: seq<nat>, row: Row, vals: seq<Value>)
    requires Fits(ords, row) && 0 < |vals| <= |ords| && |ords| > 1
    requires forall i :: 0 <= i < |ords| ==> !row[ords[i]].Null?
    requires forall i :: 0 <= i < |vals| ==> SameKind(vals[i], row[ords[i]])
    ensures RowKey(ords, row).Some? && RowKey(ords, row).value.BytesKey?
    ensures EncodeTuple(vals) <= RowKey(ords, row).value.s <==> forall i :: 0 <= i < |vals| ==> row[ords[i]] == vals[i]
  {
    var cells := seq(|ords|, i requires 0 <= i < |ords| => row[ords[i]]);
    assert RowKey(ords, row) == Some(BytesKey(EncodeTuple(cells)));
    PrefixMeansLeadingColumnsEqual(vals, cells);
    assert vals == cells[..|vals|] <==> forall i :: 0 <= i < |vals| ==> row[ords[i]] == vals[i];
  }

  // ---- loading the index and the overlay in two separate steps ----

  /** Marks sit in the list of the row's own shard. */
  ghost predicate Routed(t: Table, s: State) {
    forall sh, pk {:trigger pk in s.dirtyRead[sh]} :: 0 <= sh < |s.dirtyRead| && pk in s.dirtyRead[sh] ==> t.route(pk) == sh
  }

  lemma {:induction false} RunRoutes(t: Table, s: State, steps: seq<Step>)
    requires ValidTable(t) && Shaped(t, s) && Routed(t, s)
    ensures Routed(t, Run(t, s, steps))
    decreases |steps|
  {
    if steps != [] {
      StepRoutes(t, s, steps[0]);
      RunRoutes(t, Do(t, s, steps[0]), steps[1..]);
    }
  }

  lemma StepRoutes(t: Table, s: State, step: Step)
    requires ValidTable(t) && Shaped(t, s) && Routed(t, s)
    ensures Routed(t, Do(t, s, step))
  {
    var s' := Do(t, s, step);
    forall sh, pk | 0 <= sh < |s'.dirtyRead| && pk in s'.dirtyRead[sh] && pk !in s.dirtyRead[sh] ensures t.route(pk) == sh {
      if s'.dirtyRead[sh] != s.dirtyRead[sh] && (step.Insert? || step.Update?) {
        assert s'.dirtyRead[t.route(step.pk)] == s.dirtyRead[t.route(step.pk)] + [step.pk];
      }
    }
  }

  ghost predicate Marked(t: Table, s: State, pk: Uuid)
    requires ValidTable(t) && Shaped(t, s)
  {
    pk in s.dirtyRead[t.route(pk)]
  }

  /** The step drops a prefix of the row's shard that covers every mark of the row. */
  ghost predicate Unmarks(t: Table, s: State, step: Step, pk: Uuid)
    requires ValidTable(t) && Shaped(t, s)
  {
    var sh := t.route(pk);
    && step == Drop(sh) && s.merger.Dropping? && sh in s.merger.drops
    && s.merger.drops[sh].read <= |s.dirtyRead[sh]| && s.merger.drops[sh].del <= |s.dirtyDel[sh]|
    && pk in s.dirtyRead[sh][..s.merger.drops[sh].read] && pk !in s.dirtyRead[sh][s.merger.drops[sh].read..]
  }

  /** Some step of the run does. */
  ghost predicate EverUnmarked(t: Table, s: State, steps: seq<Step>, pk: Uuid)
    requires ValidTable(t) && Shaped(t, s)
  {
    exists i :: 0 <= i < |steps| && Unmarks(t, Run(t, s, steps[..i]), steps[i], pk)
  }

  /** Nobody writes the row. */
  predicate Unwritten(steps: seq<Step>, pk: Uuid) {
    forall i :: 0 <= i < |steps| ==> (steps[i].Update? || steps[i].Delete?) ==> steps[i].pk != pk
  }

  lemma StepMarks(t: Table, s: State, step: Step, pk: Uuid)
    requires ValidTable(t) && Shaped(t, s) && pk in s.rows && Unwritten([step], pk)
    ensures pk in Do(t, s, step).rows
    ensures Marked(t, Do(t, s, step), pk) <==> Marked(t, s, pk) && !Unmarks(t, s, step, pk)
  {
    assert [step][0] == step;
    if step.Drop? && s.merger.Dropping? && step.shard == t.route(pk) && step.shard in s.merger.drops {
      var list, n := s.dirtyRead[step.shard], s.merger.drops[step.shard].read;
      if n <= |list| { assert list == list[..n] + list[n..]; }
    }
  }

  lemma EverUnmarkedStep(t: Table, s: State, steps: seq<Step>, pk: Uuid)
    requires ValidTable(t) && Shaped(t, s) && steps != []
    ensures EverUnmarked(t, s, steps, pk) <==> Unmarks(t, s, steps[0], pk) || EverUnmarked(t, Do(t, s, steps[0]), steps[1..], pk)
  {
    var s' := Do(t, s, steps[0]);
    assert Run(t, s, steps[..0]) == s;
    forall i | 0 < i < |steps| ensures Run(t, s, steps[..i]) == Run(t, s', steps[1..][..i - 1]) {
      assert steps[..i][1..] == steps[1..][..i - 1];
    }
    if EverUnmarked(t, s, steps, pk) {
      var i :| 0 <= i < |steps| && Unmarks(t, Run(t, s, steps[..i]), steps[i], pk);
      if i > 0 { assert steps[1..][i - 1] == steps[i]; }
    }
    if EverUnmarked(t, s', steps[1..], pk) {
      var i :| 0 <= i < |steps[1..]| && Unmarks(t, Run(t, s', steps[1..][..i]), steps[1..][i], pk);
      assert Unmarks(t, Run(t, s, steps[..i + 1]), steps[i + 1], pk);
    }
  }

  /** An unwritten live row keeps its marks until a drop covers them all, and then has none. */
  lemma {:induction false} MarksUntilDropped(t: Table, s: State, steps: seq<Step>, pk: Uuid)
    requires ValidTable(t) && Shaped(t, s) && pk in s.rows && Unwritten(steps, pk)
    ensures pk in Run(t, s, steps).rows
    ensures Marked(t, Run(t, s, steps), pk) <==> Marked(t, s, pk) && !EverUnmarked(t, s, steps, pk)
    decreases |steps|
  {
    if steps != [] {
      var s' := Do(t, s, steps[0]);
      StepMarks(t, s, steps[0], pk);
      EverUnmarkedStep(t, s, steps, pk);
      MarksUntilDropped(t, s', steps[1..], pk);
      if !Marked(t, s', pk) && Marked(t, s, pk) { assert Unmarks(t, s, steps[0], pk); }
      if Marked(t, s', pk) && EverUnmarked(t, s, steps, pk) { assert EverUnmarked(t, s', steps[1..], pk); }
    }
  }

  lemma OverlayIsMarked(t: Table, s: State, pk: Uuid)
    requires ValidTable(t) && Inv(t, s) && Routed(t, s) && pk in s.rows
    ensures Overlay(t, s, pk) <==> Marked(t, s, pk)
  {
    if Marked(t, s, pk) { CounterNeverHides(t, s, t.route(pk)); }
  }

  /** A reader loads the index in one reachable state and the overlay after any further
      steps. A qualifying row nobody writes in between is missed exactly when the index
      did not have it at the first load and a drop in between covered all its marks. */
  lemma SplitReadMissesIff(t: Table, rows: map<Uuid, Row>, before: seq<Step>, between: seq<Step>, pk: Uuid, acc: seq<Access>, where: Row -> bool)
    requires ValidTable(t) && ValidAccess(t, acc) && Implied(t, acc, where)
    requires forall k :: k in rows ==> |rows[k]| == t.width
    requires var s := Run(t, Rebuilt(t, rows), before); pk in s.rows && where(s.rows[pk])
    requires Unwritten(between, pk)
    ensures var s := Run(t, Rebuilt(t, rows), before);
            !Hit(t, s, acc, pk) && !Overlay(t, Run(t, s, between), pk)
            <==> !Hit(t, s, acc, pk) && EverUnmarked(t, s, between, pk)
  {
    var s := Run(t, Rebuilt(t, rows), before);
    RebuiltInv(t, rows);
    RunKeepsInv(t, Rebuilt(t, rows), before);
    RunRoutes(t, Rebuilt(t, rows), before);
    RunKeepsInv(t, s, between);
    RunRoutes(t, s, between);
    MarksUntilDropped(t, s, between, pk);
    OverlayIsMarked(t, Run(t, s, between), pk);
    OverlayIsMarked(t, s, pk);
    if !Overlay(t, s, pk) { CleanRowIsHit(t, s, pk, acc, where); }
    if EverUnmarked(t, s, between, pk) && !Hit(t, s, acc, pk) { assert Marked(t, s, pk); }
  }

  lemma CleanRowIsHit(t: Table, s: State, pk: Uuid, acc: seq<Access>, where: Row -> bool)
    requires ValidTable(t) && Inv(t, s) && ValidAccess(t, acc) && Implied(t, acc, where)
    requires pk in s.rows && where(s.rows[pk]) && !Overlay(t, s, pk)
    ensures Hit(t, s, acc, pk)
  {
    forall i | 0 <= i < |acc|
      ensures pk in s.idx[acc[i].k].view && acc[i].hit(s.idx[acc[i].k].view[pk])
    {
      CleanRowIsIndexed(t, s, pk, acc[i].k);
      assert where(s.rows[pk]);
    }
  }

  /** What such a reader returns: rows are fetched after both loads, and re-checked unless
      the plan is exact and the overlay came up empty. */
  ghost predicate SplitChosen(t: Table, s1: State, s2: State, acc: seq<Access>, where: Row -> bool, exact: bool, pk: Uuid)
    requires ValidTable(t) && Shaped(t, s1) && Shaped(t, s2) && ValidAccess(t, acc)
  {
    && pk in s2.rows
    && if exact && Clean(t, s2) then Hit(t, s1, acc, pk) else (Hit(t, s1, acc, pk) || Overlay(t, s2, pk)) && where(s2.rows[pk])
  }

  /** WHERE is exactly the probed conditions. */
  ghost predicate Exactly(t: Table, acc: seq<Access>, where: Row -> bool)
    requires ValidTable(t) && ValidAccess(t, acc)
  {
    forall row: Row {:trigger where(row)} :: |row| == t.width ==> (where(row) <==> KeysHit(t, acc, row))
  }

  /** With the overlay empty a row matches exactly when the index has it. */
  lemma CleanHitIsMatch(t: Table, s: State, acc: seq<Access>, where: Row -> bool, pk: Uuid)
    requires ValidTable(t) && Inv(t, s) && ValidAccess(t, acc) && Exactly(t, acc, where) && Clean(t, s) && pk in s.rows
    ensures Hit(t, s, acc, pk) <==> where(s.rows[pk])
  {
    forall i | 0 <= i < |acc| { CleanRowIsIndexed(t, s, pk, acc[i].k); }
  }

  /** Whatever happens between the two loads, a row is returned wrongly exactly when the
      unchecked hits are taken and its entry has left the index since, and it is missed
      exactly when it was no hit and is not marked any more. */
  lemma SplitReadErrsIff(t: Table, rows: map<Uuid, Row>, before: seq<Step>, between: seq<Step>, acc: seq<Access>, where: Row -> bool,
                         exact: bool, pk: Uuid)
    requires ValidTable(t) && ValidAccess(t, acc) && (if exact then Exactly(t, acc, where) else Implied(t, acc, where))
    requires forall k :: k in rows ==> |rows[k]| == t.width
    requires var s1 := Run(t, Rebuilt(t, rows), before); pk in Run(t, s1, between).rows
    ensures var s1 := Run(t, Rebuilt(t, rows), before); var s2 := Run(t, s1, between);
            && (SplitChosen(t, s1, s2, acc, where, exact, pk) && !where(s2.rows[pk])
                <==> exact && Clean(t, s2) && Hit(t, s1, acc, pk) && !Hit(t, s2, acc, pk))
            && (!SplitChosen(t, s1, s2, acc, where, exact, pk) && where(s2.rows[pk])
                <==> where(s2.rows[pk]) && !Hit(t, s1, acc, pk) && !Overlay(t, s2, pk))
  {
    var s1 := Run(t, Rebuilt(t, rows), before);
    var s2 := Run(t, s1, between);
    RebuiltInv(t, rows);
    RunKeepsInv(t, Rebuilt(t, rows), before);
    RunKeepsInv(t, s1, between);
    if exact && Clean(t, s2) { CleanHitIsMatch(t, s2, acc, where, pk); }
  }

  const RACE_PK := Uuid(0, 1)

  function RaceTable(): Table {
    Table([IndexDef([0], false)], 1, 1, (u: Uuid) => 0)
  }

  function RaceProbe(): seq<Access> {
    [Access(0, (key: IndexKey) => key == KeyOf(Int(7)))]
  }

  predicate RaceWhere(r: Row) {
    |r| == 1 && r[0] == Int(7)
  }

  /** One row, marked and not yet merged; `old_` is what the index has of it. */
  function RaceState(cell: Int64, old_: IndexState, m: Merger): State {
    State(map[RACE_PK := [Int(cell)]], [[RACE_PK]], [[]], [old_], m, 1)
  }

  const ABSENT := IndexState(map[], map[])
  const SEVEN := IndexState(map[RACE_PK := KeyOf(Int(7))], map[RACE_PK := KeyOf(Int(7))])

  const RACE_MERGE := [Begin, Snapshot, Read, Apply, Apply, Read, Snapshot, Fold, Fold, Drop(0)]

  /** The row just inserted, and a merged row just updated, are states of real runs. */
  lemma RaceStarts()
    ensures ValidTable(RaceTable()) && RaceState(7, ABSENT, Idle) == Run(RaceTable(), Rebuilt(RaceTable(), map[]), [Insert(RACE_PK, [Int(7)])])
    ensures RaceState(8, SEVEN, Idle) == Run(RaceTable(), Rebuilt(RaceTable(), map[RACE_PK := [Int(7)]]), [Update(RACE_PK, [0], [Int(8)])])
    ensures Exactly(RaceTable(), RaceProbe(), RaceWhere)
  {
    var t := RaceTable();
    RaceStartsWith(map[], ABSENT, Insert(RACE_PK, [Int(7)]), 7);
    EqualityProbe(0, [Int(7)], Int(7));
    RaceStartsWith(map[RACE_PK := [Int(7)]], SEVEN, Update(RACE_PK, [0], [Int(8)]), 8);
    forall r: Row | |r| == 1 ensures RaceWhere(r) <==> KeysHit(t, RaceProbe(), r) {
      EqualityProbe(0, r, Int(7));
      assert RaceProbe()[0].hit(KeyOf(Int(7)));
    }
  }

  lemma RaceStartsWith(rows: map<Uuid, Row>, ix: IndexState, step: Step, cell: Int64)
    requires RebuiltIndex([0], rows) == ix
    requires (step == Insert(RACE_PK, [Int(cell)]) && rows == map[])
          || (step == Update(RACE_PK, [0], [Int(cell)]) && rows == map[RACE_PK := [Int(7)]])
    ensures ValidTable(RaceTable()) && Run(RaceTable(), Rebuilt(RaceTable(), rows), [step]) == RaceState(cell, ix, Idle)
  {
    var t := RaceTable();
    var s0 := Rebuilt(t, rows);
    assert s0.dirtyRead == [[]] && s0.dirtyDel == [[]] && s0.idx == [ix];
    var s := Do(t, s0, step);
    assert [step][1..] == [] && Run(t, s0, [step]) == s;
    if step.Update? {
      assert t.indexes[0].ords[0] in step.ords;
      assert WithCells([Int(7)], [0], [Int(cell)]) == [Int(cell)];
    }
    assert s.dirtyRead[0] == [RACE_PK];
    assert s.dirtyRead == [[RACE_PK]] && s.rows == map[RACE_PK := [Int(cell)]];
  }

  /** The states the merge passes through, one per step. */
  function RaceStates(cell: Int64, old_: IndexState): seq<State> {
    var pk, key := RACE_PK, KeyOf(Int(cell));
    var rev := old_.rev[pk := key];
    var merged, drops := [IndexState(rev, rev)], map[0 := Cut(1, 0)];
    [RaceState(cell, old_, Scanning(0, map[], [[]])),
     RaceState(cell, old_, Reading(0, Cut(1, 0), [pk], 0, map[], [[]])),
     RaceState(cell, old_, Applying(0, Cut(1, 0), [pk], 0, [Some(key)], 0, map[], [[]])),
     RaceState(cell, old_, Applying(0, Cut(1, 0), [pk], 0, [Some(key)], 1, map[], [[]])).(idx := merged),
     RaceState(cell, old_, Reading(0, Cut(1, 0), [pk], 1, map[], [[]])).(idx := merged),
     RaceState(cell, old_, Scanning(1, drops, [[]])).(idx := merged),
     RaceState(cell, old_, Folding(0, drops, [[]])).(idx := merged),
     RaceState(cell, old_, Folding(1, drops, [[]])).(idx := merged),
     RaceState(cell, old_, Dropping(drops)).(idx := merged),
     RaceState(cell, old_, Owing(map[], Cut(1, 0))).(idx := merged, dirtyRead := [[]])]
  }

  lemma RaceScans(cell: Int64, old_: IndexState)
    ensures ValidTable(RaceTable()) && Shaped(RaceTable(), RaceState(cell, old_, Idle))
    ensures var t, s := RaceTable(), RaceStates(cell, old_);
            s[0] == Do(t, RaceState(cell, old_, Idle), Begin) && s[1] == Do(t, s[0], Snapshot) && s[2] == Do(t, s[1], Read)
  {
    var t, s := RaceTable(), RaceStates(cell, old_);
    assert Do(t, RaceState(cell, old_, Idle), Begin).merger.changed == [[]];
    assert [RACE_PK] + [] == [RACE_PK];
    EqualityProbe(0, [Int(cell)], Int(cell));
    assert Current(t, s[1], 0, RACE_PK) == Some(KeyOf(Int(cell)));
    assert Do(t, s[1], Read).merger.cells == s[2].merger.cells;
  }

  lemma RaceApplies(cell: Int64, old_: IndexState)
    ensures ValidTable(RaceTable()) && forall i :: 2 <= i <= 5 ==> Shaped(RaceTable(), RaceStates(cell, old_)[i])
    ensures var t, s := RaceTable(), RaceStates(cell, old_);
            s[3] == Do(t, s[2], Apply) && s[4] == Do(t, s[3], Apply) && s[5] == Do(t, s[4], Read)
  {}

  lemma RaceDrops(cell: Int64, old_: IndexState)
    ensures ValidTable(RaceTable()) && forall i :: 5 <= i <= 9 ==> Shaped(RaceTable(), RaceStates(cell, old_)[i])
    ensures var t, s := RaceTable(), RaceStates(cell, old_);
            s[6] == Do(t, s[5], Snapshot) && s[7] == Do(t, s[6], Fold) && s[8] == Do(t, s[7], Fold) && s[9] == Do(t, s[8], Drop(0))
  {
    var s8 := RaceStates(cell, old_)[8];
    assert s8.dirtyRead[0][1..] == [] && s8.dirtyDel[0][0..] == [];
    assert s8.dirtyRead[0 := []] == [[]] && s8.dirtyDel[0 := []] == [[]];
    assert s8.merger.drops - {0} == map[];
  }

  lemma RaceMergeEnds(cell: Int64, old_: IndexState)
    ensures ValidTable(RaceTable()) && Shaped(RaceTable(), RaceState(cell, old_, Idle))
    ensures Run(RaceTable(), RaceState(cell, old_, Idle), RACE_MERGE) == RaceStates(cell, old_)[9]
  {
    RaceScans(cell, old_);
    RaceApplies(cell, old_);
    RaceDrops(cell, old_);
    RunUnfold(RaceTable(), RaceState(cell, old_, Idle), RACE_MERGE, RaceStates(cell, old_));
  }

  /** With a drop in between, a row nobody touched can be missed: a merge that
      completes between the two loads moves the row from the part not yet read to
      the part already read. */
  lemma SplitReadCanMissRow()
    ensures ValidTable(RaceTable()) && ValidAccess(RaceTable(), RaceProbe())
    ensures var t, acc := RaceTable(), RaceProbe();
            var s1 := Run(t, Rebuilt(t, map[]), [Insert(RACE_PK, [Int(7)])]);
            var s2 := Run(t, s1, RACE_MERGE);
            RACE_PK in s2.rows && RaceWhere(s2.rows[RACE_PK]) && !SplitChosen(t, s1, s2, acc, RaceWhere, true, RACE_PK)
  {
    RaceStarts();
    RaceMergeEnds(7, ABSENT);
    NotYetHit();
    MergedRace(7, ABSENT);
  }

  lemma NotYetHit()
    ensures ValidTable(RaceTable()) && Shaped(RaceTable(), RaceState(7, ABSENT, Idle)) && ValidAccess(RaceTable(), RaceProbe())
    ensures !Hit(RaceTable(), RaceState(7, ABSENT, Idle), RaceProbe(), RACE_PK)
  {
    assert RACE_PK !in RaceState(7, ABSENT, Idle).idx[RaceProbe()[0].k].view;
  }

  /** And a row updated before the loads can be returned though it no longer matches: its
      entry is read stale, and the merge that mends it empties the overlay. */
  lemma SplitReadCanReturnStaleRow()
    ensures ValidTable(RaceTable()) && ValidAccess(RaceTable(), RaceProbe()) && Exactly(RaceTable(), RaceProbe(), RaceWhere)
    ensures var t, acc := RaceTable(), RaceProbe();
            var s1 := Run(t, Rebuilt(t, map[RACE_PK := [Int(7)]]), [Update(RACE_PK, [0], [Int(8)])]);
            var s2 := Run(t, s1, RACE_MERGE);
            SplitChosen(t, s1, s2, acc, RaceWhere, true, RACE_PK) && !RaceWhere(s2.rows[RACE_PK])
  {
    RaceStarts();
    RaceMergeEnds(8, SEVEN);
    StaleHit();
    MergedRace(8, SEVEN);
  }

  lemma StaleHit()
    ensures ValidTable(RaceTable()) && Shaped(RaceTable(), RaceState(8, SEVEN, Idle)) && ValidAccess(RaceTable(), RaceProbe())
    ensures Hit(RaceTable(), RaceState(8, SEVEN, Idle), RaceProbe(), RACE_PK)
  {
    assert RaceState(8, SEVEN, Idle).idx[RaceProbe()[0].k].view[RACE_PK] == KeyOf(Int(7));
  }

  lemma MergedRace(cell: Int64, old_: IndexState)
    ensures ValidTable(RaceTable()) && Shaped(RaceTable(), RaceStates(cell, old_)[9])
    ensures RaceStates(cell, old_)[9].rows == map[RACE_PK := [Int(cell)]] && Clean(RaceTable(), RaceStates(cell, old_)[9])
  {
    assert RaceStates(cell, old_)[9].dirtyRead == [[]];
  }

  /** A run whose every intermediate state is given. */
  lemma {:induction false} RunUnfold(t: Table, s: State, steps: seq<Step>, states: seq<State>)
    requires ValidTable(t) && Shaped(t, s) && |states| == |steps|
    requires forall i :: 0 <= i < |states| ==> Shaped(t, states[i])
    requires steps != [] ==> states[0] == Do(t, s, steps[0])
    requires forall i :: 0 < i < |steps| ==> states[i] == Do(t, states[i - 1], steps[i])
    ensures Run(t, s, steps) == if steps == [] then s else states[|states| - 1]
    decreases |steps|
  {
    if steps != [] {
      RunUnfold(t, states[0], steps[1..], states[1..]);
    }
  }
}
