/** Committing a transaction on a partitioned table: inserts route by partition value,
    updates and deletes by the directory, which the transaction itself changes as it
    applies (txn.go). */
module PartTransactions {
  import opened Wrappers
  import opened ByteStrings
  import opened Values
  import opened Codec
  import opened Records
  import opened Interpreters
  import opened LiveLog
  import opened TableScans
  import opened Tables
  import opened Transactions
  import opened PartShards
  import opened PartTables

  /** The partition column is immutable: no UPDATE sets it. */
  ghost predicate PartFits(d: PartDef, st: Staged) {
    StagedFits(d.def, st) && (st.StUpdate? ==> d.ord !in st.ords)
  }

  ghost predicate AllPartFit(d: PartDef, staged: seq<Staged>) {
    forall k :: 0 <= k < |staged| ==> PartFits(d, staged[k])
  }

  // ---- which shards a commit locks ----

  /** The shard a staged statement contributes: an INSERT's by its partition value, an
      UPDATE's or DELETE's by the directory, none for an absent key. */
  ghost predicate Collects(t: PartTable, st: Staged, i: nat)
    reads t
  {
    && t.Valid() && PartFits(t.d, st)
    && match st
       case StInsert(row) => Route(t.home, |t.shards|, RowPart(t.d, row)) == i
       case StUpdate(pk, _, _) => pk in t.dir && t.dir[pk].shard == i
       case StDelete(pk) => pk in t.dir && t.dir[pk].shard == i
  }

  /** `collectShards` on a partitioned table. */
  method CollectPartShards(t: PartTable, staged: seq<Staged>) returns (locked: seq<nat>)
    requires t.Valid() && AllPartFit(t.d, staged)
    ensures Ascending(locked)
    ensures forall i :: i in locked <==> exists k :: 0 <= k < |staged| && Collects(t, staged[k], i)
  {
    var found := [];
    for k := 0 to |staged|
      invariant forall a, b :: 0 <= a < b < |found| ==> found[a] != found[b]
      invariant forall i :: i in found <==> exists j :: 0 <= j < k && Collects(t, staged[j], i)
    {
      assert PartFits(t.d, staged[k]);
      var idx := ShardFor(t, staged[k]);
      if idx.Some? {
        assert Collects(t, staged[k], idx.value);
        if idx.value !in found { found := found + [idx.value]; }
      }
    }
    locked := SortIndexes(found);
  }

  method ShardFor(t: PartTable, st: Staged) returns (i: Option<nat>)
    requires t.Valid() && PartFits(t.d, st)
    ensures forall j: nat :: Collects(t, st, j) <==> i == Some(j)
  {
    match st
    case StInsert(row) => return Some(Route(t.home, |t.shards|, RowPart(t.d, row)));
    case StUpdate(pk, _, _) => return if pk in t.dir then Some(t.dir[pk].shard) else None;
    case StDelete(pk) => return if pk in t.dir then Some(t.dir[pk].shard) else None;
  }

  // ---- which shards the effects write ----

  /** The rows the k-th effect of a group meets. */
  function RowsAt(def: TableDef, rows: map<Uuid, Row>, acts: seq<Act>, k: nat): map<Uuid, Row>
    requires k <= |acts|
  {
    match LiveGroup(MemTable(def, rows), acts[..k])
    case None => rows
    case Some((t, _)) => t.rows
  }

  /** The shard one effect writes, given the rows it meets. */
  function ActShard(d: PartDef, home: Uuid -> nat, n: nat, rows: map<Uuid, Row>, act: Act): nat
    requires ValidPartDef(d) && n > 0
  {
    match act
    case PutRow(row) => if RowOf(d.def, row) then Route(home, n, RowPart(d, row)) else 0
    case SetRow(pk, _, _) => if pk in rows && RowOf(d.def, rows[pk]) then Route(home, n, RowPart(d, rows[pk])) else 0
    case DropRow(pk) => if pk in rows && RowOf(d.def, rows[pk]) then Route(home, n, RowPart(d, rows[pk])) else 0
  }

  ghost predicate EffectAt(d: PartDef, home: Uuid -> nat, n: nat, rows: map<Uuid, Row>, acts: seq<Act>, k: int, i: nat)
    requires ValidPartDef(d) && n > 0
  {
    0 <= k < |acts| && ActShard(d, home, n, RowsAt(d.def, rows, acts, k), acts[k]) == i
  }

  /** Some effect of the group writes shard `i`. */
  ghost predicate PartWrites(d: PartDef, home: Uuid -> nat, n: nat, rows: map<Uuid, Row>, acts: seq<Act>, i: nat)
    requires ValidPartDef(d) && n > 0
  {
    exists k :: EffectAt(d, home, n, rows, acts, k, i)
  }

  /** The staged statement's shard, on the rows as they were before the transaction. */
  ghost predicate CoversAt(d: PartDef, home: Uuid -> nat, n: nat, rows: map<Uuid, Row>, st: Staged, i: nat)
    requires ValidPartDef(d) && n > 0
  {
    match st
    case StInsert(row) => RowOf(d.def, row) && Route(home, n, RowPart(d, row)) == i
    case StUpdate(pk, _, _) => pk in rows && RowOf(d.def, rows[pk]) && Route(home, n, RowPart(d, rows[pk])) == i
    case StDelete(pk) => pk in rows && RowOf(d.def, rows[pk]) && Route(home, n, RowPart(d, rows[pk])) == i
  }

  ghost predicate Covers(d: PartDef, home: Uuid -> nat, n: nat, rows: map<Uuid, Row>, sts: seq<Staged>, i: nat)
    requires ValidPartDef(d) && n > 0
  {
    exists j :: 0 <= j < |sts| && CoversAt(d, home, n, rows, sts[j], i)
  }

  /** Where a row of the transaction's own view comes from: it was there before, in the same
      partition, or an INSERT of the transaction brought its partition. */
  ghost predicate Known(d: PartDef, rows: map<Uuid, Row>, sts: seq<Staged>, after: map<Uuid, Row>, pk: Uuid)
    requires ValidPartDef(d)
  {
    pk in after ==>
      && RowOf(d.def, after[pk])
      && ((pk in rows && RowOf(d.def, rows[pk]) && RowPart(d, rows[pk]) == RowPart(d, after[pk]))
          || exists j :: 0 <= j < |sts| && Brings(d, sts[j], pk, RowPart(d, after[pk])))
  }

  predicate Brings(d: PartDef, st: Staged, pk: Uuid, part: Uuid)
    requires ValidPartDef(d)
  {
    st.StInsert? && RowOf(d.def, st.row) && RowPk(d.def, st.row) == pk && RowPart(d, st.row) == part
  }

  ghost predicate AllKnown(d: PartDef, rows: map<Uuid, Row>, sts: seq<Staged>, after: map<Uuid, Row>)
    requires ValidPartDef(d)
  {
    forall pk {:trigger Known(d, rows, sts, after, pk)} :: Known(d, rows, sts, after, pk)
  }

  lemma KnownMore(d: PartDef, rows: map<Uuid, Row>, sts: seq<Staged>, st: Staged, after: map<Uuid, Row>, pk: Uuid)
    requires ValidPartDef(d) && Known(d, rows, sts, after, pk)
    ensures Known(d, rows, sts + [st], after, pk)
  {
    if pk in after && exists j :: 0 <= j < |sts| && Brings(d, sts[j], pk, RowPart(d, after[pk])) {
      var j :| 0 <= j < |sts| && Brings(d, sts[j], pk, RowPart(d, after[pk]));
      assert Brings(d, (sts + [st])[j], pk, RowPart(d, after[pk]));
    }
  }

  /** One statement keeps every row's origin known. */
  lemma KnownStep(d: PartDef, rows: map<Uuid, Row>, sts: seq<Staged>, mid: map<Uuid, Row>, st: Staged, pk: Uuid)
    requires ValidPartDef(d) && AllKnown(d, rows, sts, mid) && PartFits(d, st) && ExecOne(d.def, mid, st).Ok?
    requires TableOk(MemTable(d.def, mid))
    ensures Known(d, rows, sts + [st], ExecOne(d.def, mid, st).value.0, pk)
  {
    var after := ExecOne(d.def, mid, st).value.0;
    assert Known(d, rows, sts, mid, pk);
    KnownMore(d, rows, sts, st, mid, pk);
    match st
    case StInsert(row) =>
      if pk == RowPk(d.def, row) {
        assert Brings(d, (sts + [st])[|sts|], pk, RowPart(d, row));
      }
    case StUpdate(k, ords, compute) =>
      if pk == k && k in mid {
        JournalReplays(d.def, mid[k], ords, compute(mid[k]).value);
        AssignedElsewhere(mid[k], ords, compute(mid[k]).value, d.ord);
        assert RowPart(d, after[pk]) == RowPart(d, mid[pk]);
      }
    case StDelete(_) =>
  }

  /** The effect of one statement writes a shard some staged statement contributes. */
  lemma EffectCovered(d: PartDef, home: Uuid -> nat, n: nat, rows: map<Uuid, Row>, sts: seq<Staged>, mid: map<Uuid, Row>, st: Staged)
    requires ValidPartDef(d) && n > 0 && AllKnown(d, rows, sts, mid) && PartFits(d, st)
    requires ExecOne(d.def, mid, st).Ok? && ExecOne(d.def, mid, st).value.1 != []
    ensures Covers(d, home, n, rows, sts + [st], ActShard(d, home, n, mid, ExecOne(d.def, mid, st).value.1[0]))
  {
    var i := ActShard(d, home, n, mid, ExecOne(d.def, mid, st).value.1[0]);
    var all := sts + [st];
    assert all[|sts|] == st;
    if st.StInsert? {
      assert CoversAt(d, home, n, rows, all[|sts|], i);
    } else {
      assert Known(d, rows, sts, mid, st.pk);
      if st.pk in rows && RowOf(d.def, rows[st.pk]) && RowPart(d, rows[st.pk]) == RowPart(d, mid[st.pk]) {
        assert CoversAt(d, home, n, rows, all[|sts|], i);
      } else {
        var j :| 0 <= j < |sts| && Brings(d, sts[j], st.pk, RowPart(d, mid[st.pk]));
        assert CoversAt(d, home, n, rows, all[j], i);
      }
    }
  }

  /** Through DELETE, INSERT elsewhere and UPDATE of the same key: every effect of the
      staged statements writes a shard one of them contributes before the transaction. */
  lemma {:induction false} PartActsCovered(d: PartDef, home: Uuid -> nat, n: nat, rows: map<Uuid, Row>, sts: seq<Staged>)
    requires ValidPartDef(d) && n > 0 && TableOk(MemTable(d.def, rows)) && AllPartFit(d, sts) && ExecAll(d.def, rows, sts).Ok?
    ensures var (after, acts) := ExecAll(d.def, rows, sts).value;
            && TableOk(MemTable(d.def, after)) && AllKnown(d, rows, sts, after)
            && LiveGroup(MemTable(d.def, rows), acts).Some? && LiveGroup(MemTable(d.def, rows), acts).value.0 == MemTable(d.def, after)
            && forall i :: PartWrites(d, home, n, rows, acts, i) ==> Covers(d, home, n, rows, sts, i)
    decreases |sts|
  {
    if sts == [] {
      forall pk ensures Known(d, rows, sts, rows, pk) {}
    } else {
      var m := |sts| - 1;
      var init, st := sts[..m], sts[m];
      PartActsCovered(d, home, n, rows, init);
      assert init + [st] == sts && PartFits(d, st);
      var (mid, acts) := ExecAll(d.def, rows, init).value;
      forall pk ensures Known(d, rows, sts, ExecOne(d.def, mid, st).value.0, pk) { KnownStep(d, rows, init, mid, st, pk); }
      NextCovered(d, home, n, rows, init, mid, acts, st);
    }
  }

  /** One more statement: its effect, if any, continues the group on covered shards. */
  lemma NextCovered(d: PartDef, home: Uuid -> nat, n: nat, rows: map<Uuid, Row>, sts: seq<Staged>, mid: map<Uuid, Row>, acts: seq<Act>, st: Staged)
    requires ValidPartDef(d) && n > 0 && PartFits(d, st) && ExecOne(d.def, mid, st).Ok? && TableOk(MemTable(d.def, mid))
    requires AllKnown(d, rows, sts, mid)
    requires LiveGroup(MemTable(d.def, rows), acts).Some? && LiveGroup(MemTable(d.def, rows), acts).value.0 == MemTable(d.def, mid)
    requires forall i :: PartWrites(d, home, n, rows, acts, i) ==> Covers(d, home, n, rows, sts, i)
    ensures var (after, more) := ExecOne(d.def, mid, st).value;
            && TableOk(MemTable(d.def, after))
            && LiveGroup(MemTable(d.def, rows), acts + more).Some? && LiveGroup(MemTable(d.def, rows), acts + more).value.0 == MemTable(d.def, after)
            && forall i :: PartWrites(d, home, n, rows, acts + more, i) ==> Covers(d, home, n, rows, sts + [st], i)
  {
    ExecOneIsAct(MemTable(d.def, mid), st);
    var (after, more) := ExecOne(d.def, mid, st).value;
    if more == [] {
      assert acts + more == acts;
      forall i | PartWrites(d, home, n, rows, acts, i) ensures Covers(d, home, n, rows, sts + [st], i) { CoversMore(d, home, n, rows, sts, st, i); }
    } else {
      assert more == [more[0]] && acts[..|acts|] == acts;
      LiveGroupSnoc(MemTable(d.def, rows), acts, more[0]);
      EffectCovered(d, home, n, rows, sts, mid, st);
      forall i | PartWrites(d, home, n, rows, acts + [more[0]], i) ensures Covers(d, home, n, rows, sts + [st], i) {
        WritesLast(d, home, n, rows, acts, more[0], i);
        if PartWrites(d, home, n, rows, acts, i) { CoversMore(d, home, n, rows, sts, st, i); }
      }
    }
  }

  lemma CoversMore(d: PartDef, home: Uuid -> nat, n: nat, rows: map<Uuid, Row>, sts: seq<Staged>, st: Staged, i: nat)
    requires ValidPartDef(d) && n > 0 && Covers(d, home, n, rows, sts, i)
    ensures Covers(d, home, n, rows, sts + [st], i)
  {
    var j :| 0 <= j < |sts| && CoversAt(d, home, n, rows, sts[j], i);
    assert CoversAt(d, home, n, rows, (sts + [st])[j], i);
  }

  /** The shards of a longer group. */
  lemma WritesLast(d: PartDef, home: Uuid -> nat, n: nat, rows: map<Uuid, Row>, acts: seq<Act>, act: Act, i: nat)
    requires ValidPartDef(d) && n > 0
    ensures PartWrites(d, home, n, rows, acts + [act], i)
       <==> PartWrites(d, home, n, rows, acts, i) || ActShard(d, home, n, RowsAt(d.def, rows, acts, |acts|), act) == i
  {
    var all := acts + [act];
    assert all[..|acts|] == acts && acts[..|acts|] == acts;
    forall k | 0 <= k < |acts| ensures EffectAt(d, home, n, rows, all, k, i) <==> EffectAt(d, home, n, rows, acts, k, i) {
      assert all[..k] == acts[..k];
    }
    if PartWrites(d, home, n, rows, acts, i) {
      var k :| EffectAt(d, home, n, rows, acts, k, i);
      assert EffectAt(d, home, n, rows, all, k, i);
    }
    if ActShard(d, home, n, RowsAt(d.def, rows, acts, |acts|), act) == i { assert EffectAt(d, home, n, rows, all, |acts|, i); }
    if PartWrites(d, home, n, rows, all, i) {
      var k :| EffectAt(d, home, n, rows, all, k, i);
      assert k < |acts| ==> EffectAt(d, home, n, rows, acts, k, i);
    }
  }

  /** The rows of a valid table are typed, and the directory routes each key by its row's
      partition. */
  lemma TableTyped(t: PartTable)
    requires t.Valid()
    ensures TableOk(MemTable(t.d.def, t.Rows()))
    ensures forall pk :: pk in t.dir <==> pk in t.Rows()
    ensures forall pk :: pk in t.dir ==> RowOf(t.d.def, t.Rows()[pk]) && t.dir[pk].shard == Route(t.home, |t.shards|, RowPart(t.d, t.Rows()[pk]))
  {
    forall pk ensures (pk in t.dir <==> pk in t.Rows())
                   && (pk in t.dir ==> HasPk(t.d.def, t.Rows()[pk], pk) && t.dir[pk].shard == Route(t.home, |t.shards|, RowPart(t.d, t.Rows()[pk])))
    {
      t.EntryAt(pk);
      if pk in t.dir { OneSlot(t.d, t.home, t.shards, t.dir, pk); }
    }
  }

  /** The locked shards cover every shard the effects write, however the transaction moves
      a key between partitions. */
  lemma PartLockedCover(t: PartTable, staged: seq<Staged>, locked: seq<nat>)
    requires t.Valid() && AllPartFit(t.d, staged) && ExecAll(t.d.def, t.Rows(), staged).Ok?
    requires forall i :: i in locked <==> exists k :: 0 <= k < |staged| && Collects(t, staged[k], i)
    ensures forall i :: PartWrites(t.d, t.home, |t.shards|, t.Rows(), ExecAll(t.d.def, t.Rows(), staged).value.1, i) ==> i in locked
  {
    TableTyped(t);
    PartActsCovered(t.d, t.home, |t.shards|, t.Rows(), staged);
    forall i | Covers(t.d, t.home, |t.shards|, t.Rows(), staged, i) ensures i in locked {
      var k :| 0 <= k < |staged| && CoversAt(t.d, t.home, |t.shards|, t.Rows(), staged[k], i);
      assert PartFits(t.d, staged[k]);
      assert Collects(t, staged[k], i);
    }
  }

  // ---- applying ----

  /** What one effect does to a partition's scan sequence. */
  function ActOnSeq(d: PartDef, rows: map<Uuid, Row>, act: Act, p: Uuid, s: seq<Row>): seq<Row>
    requires ValidPartDef(d)
  {
    match act
    case PutRow(row) => if RowOf(d.def, row) && RowPart(d, row) == p then s + [row] else s
    case SetRow(pk, ords, vals) =>
      if pk in rows && |ords| == |vals| && Journalable(rows[pk], ords) then RewrittenIn(d.def, s, pk, Assigned(rows[pk], ords, vals)) else s
    case DropRow(pk) => DroppedFrom(d.def, s, pk)
  }

  /** What the first `k` effects of a group do to it. */
  function GroupOnSeq(d: PartDef, rows: map<Uuid, Row>, acts: seq<Act>, k: nat, p: Uuid, s: seq<Row>): seq<Row>
    requires ValidPartDef(d) && k <= |acts|
  {
    if k == 0 then s else ActOnSeq(d, RowsAt(d.def, rows, acts, k - 1), acts[k - 1], p, GroupOnSeq(d, rows, acts, k - 1, p, s))
  }

  /** One resolved effect on a partitioned table: the row moves with its directory entry, its
      partition's sequence follows, and only its shard changes. */
  twostate predicate ActTaken(t: PartTable, tx: TxAct, after: map<Uuid, Row>)
    requires old(t.Valid())
    reads t
  {
    && t.Valid() && t.Rows() == after && BytesIn(t.shards) == BytesIn(old(t.shards)) + tx.cost
    && t.OnlyShard(ActShard(t.d, t.home, |t.shards|, old(t.Rows()), tx.act))
    && forall p :: t.Sequence(p) == ActOnSeq(t.d, old(t.Rows()), tx.act, p, old(t.Sequence(p)))
  }

  ghost predicate Takes(t: PartTable, tx: TxAct, after: map<Uuid, Row>)
    reads t
  {
    t.Valid() && ResolvedAt(t.d.def, 0, t.Rows(), tx, after) && (tx.act.SetRow? ==> t.d.ord !in tx.act.ords)
  }

  method PartApplyOne(t: PartTable, tx: TxAct, ghost after: map<Uuid, Row>)
    requires t.Valid() && ResolvedAt(t.d.def, 0, t.Rows(), tx, after) && (tx.act.SetRow? ==> t.d.ord !in tx.act.ords)
    modifies t`shards, t`dir
    ensures t.Valid() && t.Rows() == after && BytesIn(t.shards) == BytesIn(old(t.shards)) + tx.cost
    ensures t.OnlyShard(ActShard(t.d, t.home, |t.shards|, old(t.Rows()), tx.act))
    ensures forall p :: t.Sequence(p) == ActOnSeq(t.d, old(t.Rows()), tx.act, p, old(t.Sequence(p)))
  {
    match tx.act
    case PutRow(row) => PartPut(t, tx, after);
    case SetRow(pk, _, _) => PartSet(t, tx, after);
    case DropRow(pk) => PartDrop(t, tx, after);
  }

  method PartPut(t: PartTable, tx: TxAct, ghost after: map<Uuid, Row>)
    requires Takes(t, tx, after) && tx.act.PutRow?
    modifies t`shards, t`dir
    ensures ActTaken(t, tx, after)
  {
    TableTyped(t);
    ResolvedMeans(t.d.def, 0, t.Rows(), tx, after);
    t.AppendRow(Route(t.home, |t.shards|, RowPart(t.d, tx.act.row)), tx.act.row, tx.cost);
    assert t.OnlyShard(ActShard(t.d, t.home, |t.shards|, old(t.Rows()), tx.act));
  }

  method PartSet(t: PartTable, tx: TxAct, ghost after: map<Uuid, Row>)
    requires Takes(t, tx, after) && tx.act.SetRow?
    modifies t`shards
    ensures ActTaken(t, tx, after)
  {
    TableTyped(t);
    ResolvedMeans(t.d.def, 0, t.Rows(), tx, after);
    SetKeepsPart(t.d, t.Rows(), tx, after);
    SetOnSeq(t.d, t.Rows(), tx);
    t.ReplaceRow(tx.act.pk, tx.row, tx.cost);
    assert t.OnlyShard(ActShard(t.d, t.home, |t.shards|, old(t.Rows()), tx.act));
  }

  lemma SetOnSeq(d: PartDef, rows: map<Uuid, Row>, tx: TxAct)
    requires ValidPartDef(d) && tx.act.SetRow? && tx.act.pk in rows && |tx.act.ords| == |tx.act.vals| && Journalable(rows[tx.act.pk], tx.act.ords)
    requires tx.row == Assigned(rows[tx.act.pk], tx.act.ords, tx.act.vals)
    ensures forall p, s :: ActOnSeq(d, rows, tx.act, p, s) == RewrittenIn(d.def, s, tx.act.pk, tx.row)
  {}

  method PartDrop(t: PartTable, tx: TxAct, ghost after: map<Uuid, Row>)
    requires Takes(t, tx, after) && tx.act.DropRow?
    modifies t`shards, t`dir
    ensures ActTaken(t, tx, after)
  {
    TableTyped(t);
    ResolvedMeans(t.d.def, 0, t.Rows(), tx, after);
    t.RemoveRow(tx.act.pk, 0 - tx.cost);
    assert t.OnlyShard(ActShard(t.d, t.home, |t.shards|, old(t.Rows()), tx.act));
  }

  /** A resolved SET leaves the row in its partition. */
  lemma SetKeepsPart(d: PartDef, rows: map<Uuid, Row>, tx: TxAct, after: map<Uuid, Row>)
    requires ValidPartDef(d) && TableOk(MemTable(d.def, rows)) && ResolvedAt(d.def, 0, rows, tx, after) && tx.act.SetRow? && d.ord !in tx.act.ords
    ensures var (pk, ords, vals) := (tx.act.pk, tx.act.ords, tx.act.vals);
            && pk in rows && RowOf(d.def, rows[pk]) && RowOf(d.def, tx.row) && RowPart(d, tx.row) == RowPart(d, rows[pk])
            && |ords| == |vals| && Journalable(rows[pk], ords) && tx.row == Assigned(rows[pk], ords, vals)
  {
    var (pk, ords, vals) := (tx.act.pk, tx.act.ords, tx.act.vals);
    ResolvedMeans(d.def, 0, rows, tx, after);
    JournalReplays(d.def, rows[pk], ords, vals);
    AssignedElsewhere(rows[pk], ords, vals, d.ord);
  }

  /** What applying has come to after `k` effects, from the shards and rows it began with. */
  ghost predicate Applied(t: PartTable, ss: seq<PShard>, rows: map<Uuid, Row>, txs: seq<TxAct>, k: nat)
    reads t
    requires k <= |txs|
  {
    && t.Valid() && |t.shards| == |ss| && t.Rows() == RowsAt(t.d.def, rows, Acts(txs), k)
    && BytesIn(t.shards) == BytesIn(ss) + CostSum(txs[..k])
    && (forall i {:trigger t.shards[i]} :: 0 <= i < |ss| && !PartWrites(t.d, t.home, |ss|, rows, Acts(txs[..k]), i) ==> t.shards[i] == ss[i])
    && forall p :: t.Sequence(p) == GroupOnSeq(t.d, rows, Acts(txs), k, p, SequenceOf(t.d, t.home, ss, p))
  }

  /** No UPDATE among the effects sets the partition column. */
  ghost predicate KeepsParts(d: PartDef, acts: seq<Act>) {
    forall k :: 0 <= k < |acts| ==> acts[k].SetRow? ==> d.ord !in acts[k].ords
  }

  /** One more effect. */
  method PartApplyStep(t: PartTable, txs: seq<TxAct>, k: nat, ghost ss: seq<PShard>, ghost rows: map<Uuid, Row>)
    requires k < |txs| && Applied(t, ss, rows, txs, k) && StepResolved(t.d.def, 0, rows, txs, k) && KeepsParts(t.d, Acts(txs))
    modifies t`shards, t`dir
    ensures Applied(t, ss, rows, txs, k + 1)
  {
    ghost var before := t.shards;
    TakeActs(txs, k);
    SumSnoc(txs[..k], txs[k]);
    assert Acts(txs)[k] == txs[k].act;
    PartApplyOne(t, txs[k], RowsAt(t.d.def, rows, Acts(txs), k + 1));
    forall i | 0 <= i < |ss| && !PartWrites(t.d, t.home, |ss|, rows, Acts(txs[..k + 1]), i) ensures t.shards[i] == ss[i] {
      WritesLast(t.d, t.home, |ss|, rows, Acts(txs[..k]), txs[k].act, i);
      assert before[i] == ss[i];
    }
  }

  lemma TakeActs(txs: seq<TxAct>, k: nat)
    requires k < |txs|
    ensures txs[..k + 1] == txs[..k] + [txs[k]] && Acts(txs[..k + 1]) == Acts(txs[..k]) + [txs[k].act]
    ensures Acts(txs)[..k] == Acts(txs[..k]) && Acts(txs)[..k + 1] == Acts(txs[..k + 1]) && Acts(txs[..k])[..k] == Acts(txs[..k])
  {}

  /** Every effect, in statement order. */
  method PartApplyAll(t: PartTable, txs: seq<TxAct>, ghost after: map<Uuid, Row>)
    requires t.Valid() && Resolved(t.d.def, 0, t.Rows(), txs, after) && KeepsParts(t.d, Acts(txs))
    modifies t`shards, t`dir
    ensures Applied(t, old(t.shards), old(t.Rows()), txs, |txs|) && t.Rows() == after
  {
    ghost var ss, rows := t.shards, t.Rows();
    assert txs[..0] == [] && Acts(txs)[..0] == [];
    for k := 0 to |txs|
      invariant Applied(t, ss, rows, txs, k)
    {
      assert StepResolved(t.d.def, 0, rows, txs, k);
      PartApplyStep(t, txs, k, ss, rows);
    }
    assert Acts(txs)[..|txs|] == Acts(txs);
  }

  // ---- commit ----

  /** Reserve, journal, release, apply, in that order. */
  method PartAdmit(t: PartTable, txs: seq<TxAct>, delta: int, ghost cur: map<Uuid, Row>, works: bool) returns (out: Outcome)
    requires t.Valid() && txs != [] && delta == CostSum(txs) && Resolved(t.d.def, 0, t.Rows(), txs, cur) && KeepsParts(t.d, Acts(txs))
    modifies t`shards, t`dir, t.budget, t.journal
    ensures t.Valid() && t.Balanced()
    ensures out in {Done, NoCapacity, WalFailed}
    ensures out == NoCapacity <==> Overshoots(t.budget.max, old(t.budget.total), delta)
    ensures out == WalFailed <==> out != NoCapacity && t.journal.live && !works
    ensures if out == Done then Applied(t, old(t.shards), old(t.Rows()), txs, |txs|) && t.Rows() == cur && t.TookGroup(Acts(txs)) else t.Untouched()
    ensures t.budget.max != 0 && old(t.budget.total) <= t.budget.max ==> t.budget.total <= t.budget.max
  {
    assert txs[..|txs|] == txs;
    if delta > 0 {
      var admitted := t.budget.Reserve(delta);
      if !admitted { return NoCapacity; }
    }
    var ok := t.journal.Write(Txn(OnTable(t.id, Ops(txs))), works);
    if !ok {
      if delta > 0 { t.budget.Release(delta); }
      return WalFailed;
    }
    if delta < 0 { t.budget.Release(0 - delta); }
    PartApplyAll(t, txs, cur);
    return Done;
  }

  /** Resolved effects of fitting statements leave the partition column alone. */
  lemma {:induction false} ActsKeepParts(d: PartDef, rows: map<Uuid, Row>, sts: seq<Staged>)
    requires ValidPartDef(d) && AllPartFit(d, sts) && ExecAll(d.def, rows, sts).Ok?
    ensures KeepsParts(d, ExecAll(d.def, rows, sts).value.1)
    decreases |sts|
  {
    if sts != [] {
      ActsKeepParts(d, rows, sts[..|sts| - 1]);
      assert PartFits(d, sts[|sts| - 1]);
    }
  }

  /** Each partition's rows, in insert order, are the effects' outcome on them. */
  twostate predicate SequencesTook(t: PartTable, acts: seq<Act>)
    requires ValidPartDef(t.d) && old(|t.shards|) > 0 && |t.shards| > 0
    reads t
  {
    forall p :: t.Sequence(p) == GroupOnSeq(t.d, old(t.Rows()), acts, |acts|, p, old(SequenceOf(t.d, t.home, t.shards, p)))
  }

  /** What a commit comes to whose statements leave `after` by the effects `acts`: refused
      exactly when the net cost does not fit the cap, or the journal does not take them. */
  twostate predicate PartSettled(t: PartTable, after: map<Uuid, Row>, acts: seq<Act>, works: bool, out: Outcome)
    requires t.Valid() && old(t.Valid())
    reads t, t.budget, t.journal
  {
    && out in {Done, NoCapacity, WalFailed}
    && (out == NoCapacity <==> Overshoots(t.budget.max, old(t.budget.total), RowsCost(after, 0) - RowsCost(old(t.Rows()), 0)))
    && (out == WalFailed <==> acts != [] && out != NoCapacity && t.journal.live && !works)
    && if out == Done then t.Rows() == after && t.TookGroup(acts) && SequencesTook(t, acts) else t.Untouched()
  }

  /** `commit` on a partitioned table: the staged statements take effect together, exactly as
      executed one by one, under one log record, each partition's rows in statement order;
      or nothing at all happens. Only locked shards change. */
  method PartCommit(t: PartTable, staged: seq<Staged>, skipDup: bool, works: bool) returns (out: Outcome, locked: seq<nat>)
    requires t.Valid() && AllPartFit(t.d, staged) && (skipDup ==> FreshInserts(t.d.def, t.Rows(), staged))
    modifies t`shards, t`dir, t.budget, t.journal
    ensures t.Valid() && t.Balanced()
    ensures out == Refused <==> |staged| > 1000
    ensures out in {Duplicate, BadSet} <==> |staged| <= 1000 && ExecAll(t.d.def, old(t.Rows()), staged).Err?
    ensures out in {Duplicate, BadSet} ==> ExecAll(t.d.def, old(t.Rows()), staged) == Err(out)
    ensures out in {Done, Refused, Duplicate, BadSet, NoCapacity, WalFailed}
    ensures var after := ExecAll(t.d.def, old(t.Rows()), staged);
            if |staged| <= 1000 && after.Ok? then PartSettled(t, after.value.0, after.value.1, works, out) else t.Untouched()
    ensures Ascending(locked) && |t.shards| == old(|t.shards|)
    ensures forall i :: 0 <= i < |t.shards| && i !in locked ==> t.shards[i] == old(t.shards[i])
    ensures t.budget.max != 0 && old(t.budget.total) <= t.budget.max ==> t.budget.total <= t.budget.max
  {
    locked := [];
    if |staged| == 0 {
      NothingStaged(t.d, t.Rows());
      assert staged == [];
      return Done, locked;
    }
    if |staged| > MAX_TXN_MUTATIONS { return Refused, locked; }
    locked := CollectPartShards(t, staged);
    ghost var after := ExecAll(t.d.def, t.Rows(), staged);
    if after.Ok? { PartLockedCover(t, staged, locked); }
    out := PartExecute(t, staged, skipDup, works);
  }

  lemma NothingStaged(d: PartDef, rows: map<Uuid, Row>)
    requires ValidPartDef(d)
    ensures ExecAll(d.def, rows, []) == Ok((rows, []))
    ensures LiveGroup(MemTable(d.def, rows), []) == Some((MemTable(d.def, rows), []))
    ensures forall p, s :: GroupOnSeq(d, rows, [], 0, p, s) == s
  {}

  /** What running the statements comes to. */
  twostate predicate PartRan(t: PartTable, staged: seq<Staged>, works: bool, out: Outcome)
    requires t.Valid() && old(t.Valid())
    reads t, t.budget, t.journal
  {
    match ExecAll(t.d.def, old(t.Rows()), staged)
    case Err(e) => out == e && out in {Duplicate, BadSet} && t.Untouched()
    case Ok(after) => PartSettled(t, after.0, after.1, works, out)
  }

  /** Under the locks: resolve, and if anything came of it, settle. */
  method PartExecute(t: PartTable, staged: seq<Staged>, skipDup: bool, works: bool) returns (out: Outcome)
    requires t.Valid() && AllPartFit(t.d, staged) && (skipDup ==> FreshInserts(t.d.def, t.Rows(), staged))
    modifies t`shards, t`dir, t.budget, t.journal
    ensures t.Valid() && t.Balanced() && PartRan(t, staged, works, out) && |t.shards| == old(|t.shards|)
    ensures ExecAll(t.d.def, old(t.Rows()), staged).Ok? ==>
              forall i :: 0 <= i < |t.shards| && !PartWrites(t.d, t.home, |t.shards|, old(t.Rows()), ExecAll(t.d.def, old(t.Rows()), staged).value.1, i) ==>
                t.shards[i] == old(t.shards[i])
    ensures t.budget.max != 0 && old(t.budget.total) <= t.budget.max ==> t.budget.total <= t.budget.max
  {
    var err, txs, delta;
    ghost var cur;
    err, txs, delta, cur := PartResolve(t, staged, skipDup);
    if err.Some? { return err.value; }
    if |txs| == 0 {
      TableTyped(t);
      NothingResolved(t.d.def, 0, t.Rows(), cur);
      return Done;
    }
    out := PartSettle(t, staged, txs, delta, cur, works);
  }

  /** The walk, or its short form when no key can clash. */
  method PartResolve(t: PartTable, staged: seq<Staged>, skipDup: bool) returns (err: Option<Outcome>, txs: seq<TxAct>, delta: int, ghost cur: map<Uuid, Row>)
    requires t.Valid() && AllPartFit(t.d, staged) && (skipDup ==> FreshInserts(t.d.def, t.Rows(), staged))
    ensures match err
            case Some(e) => ExecAll(t.d.def, t.Rows(), staged) == Err(e) && e in {Duplicate, BadSet}
            case None => Walked(t.d.def, 0, t.Rows(), staged, cur, txs) && delta == CostSum(txs)
  {
    TableTyped(t);
    FittingIsStaged(t.d, staged);
    WalkErrors(t.d.def, t.Rows(), staged);
    err := None;
    if skipDup {
      txs, delta, cur := WalkFresh(t.d.def, 0, staged, t.Rows());
    } else {
      err, txs, delta, cur := PartWalk(t, staged);
    }
  }

  /** The resolved effects are admitted, journaled and applied, and only shards they write
      to change. */
  method PartFinish(t: PartTable, ghost staged: seq<Staged>, txs: seq<TxAct>, delta: int, ghost cur: map<Uuid, Row>, works: bool) returns (out: Outcome)
    requires t.Valid() && AllPartFit(t.d, staged) && txs != [] && delta == CostSum(txs) && Walked(t.d.def, 0, t.Rows(), staged, cur, txs)
    modifies t`shards, t`dir, t.budget, t.journal
    ensures t.Valid() && t.Balanced() && |t.shards| == old(|t.shards|)
    ensures out in {Done, NoCapacity, WalFailed}
    ensures out == NoCapacity <==> Overshoots(t.budget.max, old(t.budget.total), delta)
    ensures out == WalFailed <==> out != NoCapacity && t.journal.live && !works
    ensures if out == Done then t.Rows() == cur && t.TookGroup(Acts(txs)) && SequencesTook(t, Acts(txs)) else t.Untouched()
    ensures forall i :: 0 <= i < |t.shards| && !PartWrites(t.d, t.home, |t.shards|, old(t.Rows()), Acts(txs), i) ==> t.shards[i] == old(t.shards[i])
    ensures t.budget.max != 0 && old(t.budget.total) <= t.budget.max ==> t.budget.total <= t.budget.max
  {
    TableTyped(t);
    ActsKeepParts(t.d, t.Rows(), staged);
    out := PartAdmit(t, txs, delta, cur, works);
    assert txs[..|txs|] == txs;
  }

  /** The same, with the cost read off the rows. */
  method PartSettle(t: PartTable, ghost staged: seq<Staged>, txs: seq<TxAct>, delta: int, ghost cur: map<Uuid, Row>, works: bool) returns (out: Outcome)
    requires t.Valid() && AllPartFit(t.d, staged) && txs != [] && delta == CostSum(txs) && Walked(t.d.def, 0, t.Rows(), staged, cur, txs)
    modifies t`shards, t`dir, t.budget, t.journal
    ensures t.Valid() && t.Balanced() && PartSettled(t, cur, Acts(txs), works, out)
    ensures |t.shards| == old(|t.shards|)
    ensures forall i :: 0 <= i < |t.shards| && !PartWrites(t.d, t.home, |t.shards|, old(t.Rows()), Acts(txs), i) ==> t.shards[i] == old(t.shards[i])
    ensures t.budget.max != 0 && old(t.budget.total) <= t.budget.max ==> t.budget.total <= t.budget.max
  {
    TableTyped(t);
    ResolvedCost(t.d.def, 0, t.Rows(), txs, cur);
    out := PartFinish(t, staged, txs, delta, cur, works);
  }

  lemma FittingIsStaged(d: PartDef, staged: seq<Staged>)
    requires AllPartFit(d, staged)
    ensures AllFitStaged(d.def, staged)
  {
    forall k | 0 <= k < |staged| ensures StagedFits(d.def, staged[k]) { assert PartFits(d, staged[k]); }
  }

  /** The walk, with rows found through the directory. */
  method PartWalk(t: PartTable, staged: seq<Staged>) returns (err: Option<Outcome>, txs: seq<TxAct>, delta: int, ghost cur: map<Uuid, Row>)
    requires t.Valid() && AllFitStaged(t.d.def, staged)
    ensures match err
            case Some(e) => ExecAll(t.d.def, t.Rows(), staged) == Err(e)
            case None => Walked(t.d.def, 0, t.Rows(), staged, cur, txs) && delta == CostSum(txs)
  {
    var overlay: map<Uuid, Option<Row>> := map[];
    err, txs, delta, cur := None, [], 0, t.Rows();
    TableTyped(t);
    WalkStart(t.d.def, 0, t.Rows());
    assert staged[..0] == [];
    for k := 0 to |staged|
      invariant err == None && Sees(t.Rows(), overlay, cur)
      invariant Walked(t.d.def, 0, t.Rows(), staged[..k], cur, txs) && delta == CostSum(txs)
    {
      assert StagedFits(t.d.def, staged[k]);
      var live := TxGet(t, StagedPk(t.d.def, staged[k]));
      err, overlay, txs, delta, cur := WalkNext(t.d.def, 0, overlay, staged, k, live, txs, delta, t.Rows(), cur);
      if err.Some? { return; }
    }
    assert staged[..|staged|] == staged;
  }

  /** `txGetLocked`: through the directory, checked against the row it points at. */
  method TxGet(t: PartTable, pk: Uuid) returns (r: Option<Row>)
    requires t.Valid()
    ensures r == Held(t.Rows(), pk)
  {
    t.EntryAt(pk);
    if pk !in t.dir { return None; }
    var loc := t.dir[pk];
    var s := t.shards[loc.shard];
    if loc.rowID >= |s.rows| || s.rows[loc.rowID].None? || RowPk(t.d.def, s.rows[loc.rowID].value) != pk { return None; }
    return s.rows[loc.rowID];
  }

  // ---- the machine these writes belong to ----

  twostate lemma PartTookIsLive(t: PartTable, m: Memory, slots: nat, kept: set<Bytes>, act: Act)
    requires t.Valid() && old(t.Valid()) && t.id in m.byId && m.byId[t.id] == MemTable(t.d.def, old(t.Rows())) && t.Took(act)
    ensures var did := Live(m, slots, kept, One(t.id, act));
            && did.Some? && did.value.0 == m.(byId := m.byId[t.id := MemTable(t.d.def, t.Rows())])
            && t.journal.log == old(t.journal.log) + if t.journal.live then [did.value.1] else []
  {}

  twostate lemma PartTookGroupIsLive(t: PartTable, m: Memory, slots: nat, kept: set<Bytes>, acts: seq<Act>)
    requires t.Valid() && old(t.Valid()) && t.id in m.byId && m.byId[t.id] == MemTable(t.d.def, old(t.Rows()))
    requires t.TookGroup(acts) && acts != []
    ensures var did := Live(m, slots, kept, Group(t.id, acts));
            && did.Some? && did.value.0 == m.(byId := m.byId[t.id := MemTable(t.d.def, t.Rows())])
            && t.journal.log == old(t.journal.log) + if t.journal.live then [did.value.1] else []
  {}
}
