/** Transaction commit: an overlay walk over the staged statements, one log envelope,
    all or nothing (txn.go). */
module Transactions {
  import opened Wrappers
  import opened Values
  import opened Codec
  import opened Records
  import opened Interpreters
  import opened LiveLog
  import opened Shards
  import opened TableSpec
  import opened TableScans
  import opened Tables

  const MAX_TXN_MUTATIONS: nat := 1000

  /** A staged statement: `compute` evaluates an UPDATE's SET list on the row it finds. */
  datatype Staged =
    | StInsert(row: Row)
    | StUpdate(pk: Uuid, ords: seq<nat>, compute: Row -> Option<Row>)
    | StDelete(pk: Uuid)

  ghost predicate StagedFits(def: TableDef, st: Staged) {
    match st
    case StInsert(row) => RowOf(def, row)
    case StUpdate(_, ords, compute) => ords != [] && ComputeFits(def, ords, compute)
    case StDelete(_) => true
  }

  function StagedPk(def: TableDef, st: Staged): Uuid
    requires ValidDef(def) && (st.StInsert? ==> RowOf(def, st.row))
  {
    if st.StInsert? then RowPk(def, st.row) else st.pk
  }

  // ---- the reference: the statements one by one on the key-to-row map ----

  /** The rows after one statement and its effect, if it has any; the error otherwise. An
      UPDATE or DELETE of an absent row is not an error. */
  function ExecOne(def: TableDef, rows: map<Uuid, Row>, st: Staged): Result<(map<Uuid, Row>, seq<Act>), Outcome>
    requires ValidDef(def)
  {
    match st
    case StInsert(row) =>
      if !RowOf(def, row) then Err(Refused)
      else if RowPk(def, row) in rows then Err(Duplicate)
      else Ok((rows[RowPk(def, row) := row], [PutRow(row)]))
    case StUpdate(pk, ords, compute) =>
      if pk !in rows then Ok((rows, []))
      else
        (match compute(rows[pk])
         case None => Err(BadSet)
         case Some(vals) =>
           if !SetFitsTable(def, ords, vals) || !RowOf(def, rows[pk]) then Err(Refused)
           else Ok((rows[pk := Assigned(rows[pk], ords, vals)], [SetRow(pk, ords, vals)])))
    case StDelete(pk) =>
      if pk !in rows then Ok((rows, [])) else Ok((rows - {pk}, [DropRow(pk)]))
  }

  function ExecAll(def: TableDef, rows: map<Uuid, Row>, sts: seq<Staged>): Result<(map<Uuid, Row>, seq<Act>), Outcome>
    requires ValidDef(def)
    decreases |sts|
  {
    if sts == [] then Ok((rows, []))
    else
      match ExecAll(def, rows, sts[..|sts| - 1])
      case Err(e) => Err(e)
      case Ok((mid, acts)) =>
        match ExecOne(def, mid, sts[|sts| - 1])
        case Err(e) => Err(e)
        case Ok((after, more)) => Ok((after, acts + more))
  }

  /** One statement's effect is its live act. */
  lemma ExecOneIsAct(t: MemTable, st: Staged)
    requires TableOk(t) && StagedFits(t.def, st) && ExecOne(t.def, t.rows, st).Ok?
    ensures var (after, acts) := ExecOne(t.def, t.rows, st).value;
            && TableOk(MemTable(t.def, after)) && |acts| <= 1
            && (acts == [] ==> after == t.rows)
            && (acts != [] ==> LiveAct(t, acts[0]).Some? && LiveAct(t, acts[0]).value.0 == MemTable(t.def, after))
  {
    if st.StUpdate? && st.pk in t.rows {
      JournalReplays(t.def, t.rows[st.pk], st.ords, st.compute(t.rows[st.pk]).value);
    }
    var (after, acts) := ExecOne(t.def, t.rows, st).value;
    if acts != [] {
      ActReplays(t, acts[0]);
    }
  }

  // ---- costs of a group ----

  /** The byte change of one effect. */
  function ActCost(rows: map<Uuid, Row>, act: Act, nIdx: nat): int {
    match act
    case PutRow(row) => RowCost(row, nIdx)
    case SetRow(pk, ords, vals) =>
      if pk in rows && |ords| == |vals| && Journalable(rows[pk], ords) then RowCost(Assigned(rows[pk], ords, vals), nIdx) - RowCost(rows[pk], nIdx) else 0
    case DropRow(pk) => if pk in rows then 0 - RowCost(rows[pk], nIdx) else 0
  }

  /** A resolved effect, ready to apply: the act, its journal entry, the row it leaves and
      its signed byte cost. */
  datatype TxAct = TxAct(act: Act, op: Op, row: Row, cost: int)

  function Acts(txs: seq<TxAct>): seq<Act> {
    seq(|txs|, i requires 0 <= i < |txs| => txs[i].act)
  }

  function Ops(txs: seq<TxAct>): seq<Op> {
    seq(|txs|, i requires 0 <= i < |txs| => txs[i].op)
  }

  function CostSum(txs: seq<TxAct>): int {
    if txs == [] then 0 else CostSum(txs[..|txs| - 1]) + txs[|txs| - 1].cost
  }

  /** The effect applies to `rows` as resolved. */
  ghost predicate ResolvedAt(def: TableDef, nIdx: nat, rows: map<Uuid, Row>, tx: TxAct, after: map<Uuid, Row>) {
    && LiveAct(MemTable(def, rows), tx.act) == Some((MemTable(def, after), tx.op))
    && tx.cost == ActCost(rows, tx.act, nIdx)
    && (tx.act.SetRow? ==> tx.act.pk in after && tx.row == after[tx.act.pk])
  }

  /** The table after the first `k` effects. */
  function After(def: TableDef, rows: map<Uuid, Row>, txs: seq<TxAct>, k: nat): Option<(MemTable, seq<Op>)>
    requires k <= |txs|
  {
    LiveGroup(MemTable(def, rows), Acts(txs[..k]))
  }

  ghost predicate StepResolved(def: TableDef, nIdx: nat, rows: map<Uuid, Row>, txs: seq<TxAct>, k: nat)
    requires k < |txs|
  {
    && After(def, rows, txs, k).Some? && After(def, rows, txs, k + 1).Some?
    && ResolvedAt(def, nIdx, After(def, rows, txs, k).value.0.rows, txs[k], After(def, rows, txs, k + 1).value.0.rows)
  }

  /** The list, applied in order, leads from `rows` to `after`. */
  ghost predicate Resolved(def: TableDef, nIdx: nat, rows: map<Uuid, Row>, txs: seq<TxAct>, after: map<Uuid, Row>) {
    && LiveGroup(MemTable(def, rows), Acts(txs)) == Some((MemTable(def, after), Ops(txs)))
    && forall k :: 0 <= k < |txs| ==> StepResolved(def, nIdx, rows, txs, k)
  }

  lemma ActsTake(txs: seq<TxAct>, more: seq<TxAct>, k: nat)
    requires k <= |txs|
    ensures (txs + more)[..k] == txs[..k] && Acts((txs + more)[..k]) == Acts(txs[..k])
  {}

  lemma ResolvedSnoc(def: TableDef, nIdx: nat, rows: map<Uuid, Row>, txs: seq<TxAct>, mid: map<Uuid, Row>, tx: TxAct, after: map<Uuid, Row>)
    requires Resolved(def, nIdx, rows, txs, mid) && ResolvedAt(def, nIdx, mid, tx, after)
    ensures Resolved(def, nIdx, rows, txs + [tx], after) && CostSum(txs + [tx]) == CostSum(txs) + tx.cost
  {
    var all := txs + [tx];
    assert all[..|txs|] == txs && all[..|txs| + 1] == all;
    assert Acts(all) == Acts(txs) + [tx.act] && Ops(all) == Ops(txs) + [tx.op];
    LiveGroupSnoc(MemTable(def, rows), Acts(txs), tx.act);
    forall k | 0 <= k < |all| ensures StepResolved(def, nIdx, rows, all, k) {
      if k < |txs| {
        assert StepResolved(def, nIdx, rows, txs, k);
        ActsTake(txs, [tx], k);
        ActsTake(txs, [tx], k + 1);
      }
    }
  }

  /** What all stored rows cost. */
  ghost function RowsCost(rows: map<Uuid, Row>, nIdx: nat): nat
    decreases |rows|
  {
    if rows == map[] then 0
    else
      var pk :| pk in rows;
      RowCost(rows[pk], nIdx) + RowsCost(rows - {pk}, nIdx)
  }

  lemma {:induction false} RowsCostWithout(rows: map<Uuid, Row>, nIdx: nat, pk: Uuid)
    requires pk in rows
    ensures RowsCost(rows, nIdx) == RowCost(rows[pk], nIdx) + RowsCost(rows - {pk}, nIdx)
    decreases |rows|
  {
    var k :| k in rows && RowsCost(rows, nIdx) == RowCost(rows[k], nIdx) + RowsCost(rows - {k}, nIdx);
    if k != pk {
      RowsCostWithout(rows - {k}, nIdx, pk);
      RowsCostWithout(rows - {pk}, nIdx, k);
      assert rows - {k} - {pk} == rows - {pk} - {k};
    }
  }

  lemma RowsCostPut(rows: map<Uuid, Row>, nIdx: nat, pk: Uuid, row: Row)
    ensures RowsCost(rows[pk := row], nIdx)
         == RowsCost(rows, nIdx) + RowCost(row, nIdx) - if pk in rows then RowCost(rows[pk], nIdx) else 0
  {
    RowsCostWithout(rows[pk := row], nIdx, pk);
    if pk in rows {
      RowsCostWithout(rows, nIdx, pk);
      assert rows[pk := row] - {pk} == rows - {pk};
    } else {
      assert rows[pk := row] - {pk} == rows;
    }
  }

  lemma {:induction false} GroupKeepsOk(t: MemTable, acts: seq<Act>)
    requires TableOk(t) && LiveGroup(t, acts).Some?
    ensures TableOk(LiveGroup(t, acts).value.0)
    decreases |acts|
  {
    if acts != [] {
      ActReplays(t, acts[0]);
      GroupKeepsOk(LiveAct(t, acts[0]).value.0, acts[1..]);
    }
  }

  /** The first `k` resolved effects cost what they change in the stored rows. */
  lemma {:induction false} ResolvedCostUpTo(def: TableDef, nIdx: nat, rows: map<Uuid, Row>, txs: seq<TxAct>, after: map<Uuid, Row>, k: nat)
    requires TableOk(MemTable(def, rows)) && Resolved(def, nIdx, rows, txs, after) && k <= |txs|
    ensures After(def, rows, txs, k).Some? && CostSum(txs[..k]) == RowsCost(After(def, rows, txs, k).value.0.rows, nIdx) - RowsCost(rows, nIdx)
  {
    if k == 0 {
      assert txs[..0] == [] && Acts([]) == [];
    } else {
      ResolvedCostUpTo(def, nIdx, rows, txs, after, k - 1);
      assert StepResolved(def, nIdx, rows, txs, k - 1);
      var mid, next := After(def, rows, txs, k - 1).value.0.rows, After(def, rows, txs, k).value.0.rows;
      GroupKeepsOk(MemTable(def, rows), Acts(txs[..k - 1]));
      StepCost(def, nIdx, mid, txs[k - 1], next);
      assert txs[..k] == txs[..k - 1] + [txs[k - 1]];
      SumSnoc(txs[..k - 1], txs[k - 1]);
    }
  }

  lemma StepCost(def: TableDef, nIdx: nat, rows: map<Uuid, Row>, tx: TxAct, after: map<Uuid, Row>)
    requires TableOk(MemTable(def, rows)) && ResolvedAt(def, nIdx, rows, tx, after)
    ensures tx.cost == RowsCost(after, nIdx) - RowsCost(rows, nIdx)
  {
    ResolvedMeans(def, nIdx, rows, tx, after);
    match tx.act
    case PutRow(row) => RowsCostPut(rows, nIdx, RowPk(def, row), row);
    case SetRow(pk, _, _) => RowsCostPut(rows, nIdx, pk, tx.row);
    case DropRow(pk) => RowsCostWithout(rows, nIdx, pk);
  }

  lemma ResolvedCost(def: TableDef, nIdx: nat, rows: map<Uuid, Row>, txs: seq<TxAct>, after: map<Uuid, Row>)
    requires TableOk(MemTable(def, rows)) && Resolved(def, nIdx, rows, txs, after)
    ensures CostSum(txs) == RowsCost(after, nIdx) - RowsCost(rows, nIdx)
  {
    ResolvedCostUpTo(def, nIdx, rows, txs, after, |txs|);
    assert txs[..|txs|] == txs;
  }

  // ---- which shards a commit locks ----

  predicate Ascending(s: seq<nat>) {
    forall i, j :: 0 <= i < j < |s| ==> s[i] < s[j]
  }

  /** The index's place: everything before it is smaller, everything from there larger. */
  method InsertSorted(s: seq<nat>, x: nat) returns (r: seq<nat>)
    requires Ascending(s) && x !in s
    ensures Ascending(r) && forall y :: y in r <==> y == x || y in s
  {
    var j := |s|;
    while j > 0 && s[j - 1] > x
      invariant 0 <= j <= |s|
      invariant forall k :: j <= k < |s| ==> s[k] > x
    {
      j := j - 1;
    }
    r := s[..j] + [x] + s[j..];
    forall y ensures y in r <==> y == x || y in s {
      if y in s {
        var k :| 0 <= k < |s| && s[k] == y;
        assert if k < j then r[k] == y else r[k + 1] == y;
      }
      assert r[j] == x;
    }
    assert forall k :: 0 <= k < j ==> s[k] < x by {
      if j > 0 { assert s[j - 1] in s; }
    }
  }

  ghost predicate Routes(t: Table, st: Staged, i: nat)
    reads t
  {
    t.Valid() && StagedFits(t.lay.def, st) && ShardIdx(t.lay, |t.shards|, StagedPk(t.lay.def, st)) == i
  }

  /** `collectShards`: each shard a staged statement may touch, once, in ascending order:
      first the distinct indexes in statement order, then an insertion sort. */
  method CollectShards(t: Table, staged: seq<Staged>) returns (locked: seq<nat>)
    requires t.Valid() && forall k :: 0 <= k < |staged| ==> StagedFits(t.lay.def, staged[k])
    ensures Ascending(locked)
    ensures forall i :: i in locked <==> exists k :: 0 <= k < |staged| && Routes(t, staged[k], i)
  {
    var found := [];
    for k := 0 to |staged|
      invariant forall a, b :: 0 <= a < b < |found| ==> found[a] != found[b]
      invariant forall i :: i in found <==> exists j :: 0 <= j < k && Routes(t, staged[j], i)
    {
      var i := ShardIdx(t.lay, |t.shards|, StagedPk(t.lay.def, staged[k]));
      assert Routes(t, staged[k], i);
      if i !in found { found := found + [i]; }
    }
    locked := SortIndexes(found);
  }

  /** The insertion sort over the distinct indexes. */
  method SortIndexes(found: seq<nat>) returns (locked: seq<nat>)
    requires forall a, b :: 0 <= a < b < |found| ==> found[a] != found[b]
    ensures Ascending(locked) && forall i :: i in locked <==> i in found
  {
    locked := [];
    for k := 0 to |found|
      invariant Ascending(locked) && forall i :: i in locked <==> i in found[..k]
    {
      assert found[..k + 1] == found[..k] + [found[k]];
      locked := InsertSorted(locked, found[k]);
    }
    assert found[..|found|] == found;
  }

  // ---- the overlay walk ----

  /** What the transaction sees: its own writes first, the store otherwise. */
  ghost predicate Sees(rows: map<Uuid, Row>, overlay: map<Uuid, Option<Row>>, cur: map<Uuid, Row>) {
    forall pk {:trigger pk in overlay} {:trigger pk in cur} ::
      if pk in overlay then overlay[pk] == (if pk in cur then Some(cur[pk]) else None)
      else (pk in cur <==> pk in rows) && (pk in rows ==> cur[pk] == rows[pk])
  }

  /** What the store holds under a key. */
  function Held(rows: map<Uuid, Row>, pk: Uuid): Option<Row> {
    if pk in rows then Some(rows[pk]) else None
  }

  /** `present`: the overlay first, else what the store held. */
  function Present(overlay: map<Uuid, Option<Row>>, live: Option<Row>, pk: Uuid): Option<Row> {
    if pk in overlay then overlay[pk] else live
  }

  lemma PresentIs(rows: map<Uuid, Row>, overlay: map<Uuid, Option<Row>>, cur: map<Uuid, Row>, pk: Uuid)
    requires Sees(rows, overlay, cur)
    ensures Present(overlay, Held(rows, pk), pk) == Held(cur, pk)
  {}

  /** What the walk has come to: the rows as the transaction sees them, and its effects. */
  ghost predicate Walked(def: TableDef, nIdx: nat, rows: map<Uuid, Row>, sts: seq<Staged>, cur: map<Uuid, Row>, txs: seq<TxAct>)
    requires ValidDef(def)
  {
    && ExecAll(def, rows, sts) == Ok((cur, Acts(txs)))
    && TableOk(MemTable(def, cur)) && Resolved(def, nIdx, rows, txs, cur)
  }

  lemma WalkStep(def: TableDef, nIdx: nat, rows: map<Uuid, Row>, sts: seq<Staged>, k: nat, cur: map<Uuid, Row>, txs: seq<TxAct>)
    requires ValidDef(def) && k < |sts| && StagedFits(def, sts[k]) && Walked(def, nIdx, rows, sts[..k], cur, txs)
    ensures match ExecOne(def, cur, sts[k])
            case Err(e) => ExecAll(def, rows, sts[..k + 1]) == Err(e)
            case Ok(next) =>
              if next.1 == [] then next.0 == cur && Walked(def, nIdx, rows, sts[..k + 1], cur, txs)
              else
                && |next.1| == 1 && TableOk(MemTable(def, next.0)) && LiveAct(MemTable(def, cur), next.1[0]).Some?
                && forall tx: TxAct :: tx.act == next.1[0] && ResolvedAt(def, nIdx, cur, tx, next.0)
                     ==> Walked(def, nIdx, rows, sts[..k + 1], next.0, txs + [tx])
  {
    assert sts[..k + 1][..k] == sts[..k] && sts[..k + 1][k] == sts[k];
    var one := ExecOne(def, cur, sts[k]);
    if one.Ok? {
      ExecOneIsAct(MemTable(def, cur), sts[k]);
      var (after, acts) := one.value;
      if acts == [] {
        assert Acts(txs) + [] == Acts(txs);
      } else {
        assert acts == [acts[0]];
        forall tx: TxAct | tx.act == acts[0] && ResolvedAt(def, nIdx, cur, tx, after)
          ensures Walked(def, nIdx, rows, sts[..k + 1], after, txs + [tx])
        {
          ResolvedSnoc(def, nIdx, rows, txs, cur, tx, after);
          assert Acts(txs + [tx]) == Acts(txs) + [tx.act];
        }
      }
    }
  }

  /** One staged statement against the overlay; `live` is what the store holds under its key. */
  method WalkOne(def: TableDef, nIdx: nat, overlay: map<Uuid, Option<Row>>, st: Staged, live: Option<Row>, ghost rows: map<Uuid, Row>, ghost cur: map<Uuid, Row>)
    returns (err: Option<Outcome>, tx: Option<TxAct>, overlay': map<Uuid, Option<Row>>)
    requires ValidDef(def) && StagedFits(def, st) && Sees(rows, overlay, cur) && TableOk(MemTable(def, cur))
    requires live == Held(rows, StagedPk(def, st))
    ensures match ExecOne(def, cur, st)
            case Err(e) => err == Some(e)
            case Ok(next) =>
              && err == None
              && if next.1 == [] then tx == None && overlay' == overlay
                 else tx.Some? && tx.value.act == next.1[0] && ResolvedAt(def, nIdx, cur, tx.value, next.0)
                      && Sees(rows, overlay', next.0)
  {
    err, tx, overlay' := None, None, overlay;
    var pk := StagedPk(def, st);
    PresentIs(rows, overlay, cur, pk);
    var found := Present(overlay, live, pk);
    match st
    case StInsert(row) =>
      if found.Some? { return Some(Duplicate), None, overlay; }
      overlay' := overlay[pk := Some(row)];
      tx := Some(TxAct(PutRow(row), Insert(row), row, RowCost(row, nIdx)));
    case StUpdate(_, ords, compute) =>
      if found.None? { return; }
      var vals := compute(found.value);
      if vals.None? { return Some(BadSet), None, overlay; }
      JournalReplays(def, found.value, ords, vals.value);
      var nr := Assigned(found.value, ords, vals.value);
      overlay' := overlay[pk := Some(nr)];
      tx := Some(TxAct(SetRow(pk, ords, vals.value), Update(Id(pk), JournalSets(nr, ords)), nr, RowCost(nr, nIdx) - RowCost(found.value, nIdx)));
    case StDelete(_) =>
      if found.None? { return; }
      overlay' := overlay[pk := None];
      tx := Some(TxAct(DropRow(pk), Delete(Id(pk)), found.value, 0 - RowCost(found.value, nIdx)));
  }

  /** An auto-key insert batch: the keys are new and pairwise distinct, so the overlay can
      be skipped. */
  ghost predicate FreshInserts(def: TableDef, rows: map<Uuid, Row>, staged: seq<Staged>)
    requires ValidDef(def)
  {
    && (forall k :: 0 <= k < |staged| ==> staged[k].StInsert? && RowOf(def, staged[k].row) && RowPk(def, staged[k].row) !in rows)
    && forall j, k :: 0 <= j < k < |staged| ==> RowPk(def, staged[j].row) != RowPk(def, staged[k].row)
  }

  ghost predicate AllFitStaged(def: TableDef, staged: seq<Staged>) {
    forall k :: 0 <= k < |staged| ==> StagedFits(def, staged[k])
  }

  /** One step of the walk: the effect resolved against what came before it. */
  method WalkNext(def: TableDef, nIdx: nat, overlay0: map<Uuid, Option<Row>>, staged: seq<Staged>, k: nat, live: Option<Row>,
                  txs0: seq<TxAct>, delta0: int, ghost rows: map<Uuid, Row>, ghost cur0: map<Uuid, Row>)
    returns (err: Option<Outcome>, overlay: map<Uuid, Option<Row>>, txs: seq<TxAct>, delta: int, ghost cur: map<Uuid, Row>)
    requires ValidDef(def) && AllFitStaged(def, staged) && k < |staged| && live == Held(rows, StagedPk(def, staged[k]))
    requires Sees(rows, overlay0, cur0) && Walked(def, nIdx, rows, staged[..k], cur0, txs0) && delta0 == CostSum(txs0)
    ensures match err
            case Some(e) => ExecAll(def, rows, staged) == Err(e)
            case None => Sees(rows, overlay, cur) && Walked(def, nIdx, rows, staged[..k + 1], cur, txs) && delta == CostSum(txs)
  {
    assert StagedFits(def, staged[k]);
    WalkStep(def, nIdx, rows, staged, k, cur0, txs0);
    var tx;
    overlay, txs, delta, cur := overlay0, txs0, delta0, cur0;
    err, tx, overlay := WalkOne(def, nIdx, overlay0, staged[k], live, rows, cur0);
    if err.Some? {
      FailsForGood(def, rows, staged, k + 1);
      return;
    }
    if tx.Some? {
      SumSnoc(txs0, tx.value);
      txs, delta := txs0 + [tx.value], delta0 + tx.value.cost;
      cur := ExecOne(def, cur0, staged[k]).value.0;
    }
  }

  /** Nothing staged has been looked at yet. */
  lemma WalkStart(def: TableDef, nIdx: nat, rows: map<Uuid, Row>)
    requires TableOk(MemTable(def, rows))
    ensures Sees(rows, map[], rows) && Walked(def, nIdx, rows, [], rows, []) && CostSum([]) == 0
  {
    assert Acts([]) == [] && Ops([]) == [];
  }

  /** The walk over the staged list. */
  method Walk(t: Table, staged: seq<Staged>) returns (err: Option<Outcome>, txs: seq<TxAct>, delta: int, ghost cur: map<Uuid, Row>)
    requires t.Valid() && AllFitStaged(t.lay.def, staged)
    ensures match err
            case Some(e) => ExecAll(t.lay.def, t.Rows(), staged) == Err(e)
            case None => Walked(t.lay.def, t.lay.nIdx, t.Rows(), staged, cur, txs) && delta == CostSum(txs)
  {
    var overlay: map<Uuid, Option<Row>> := map[];
    err, txs, delta, cur := None, [], 0, t.Rows();
    ContentsTyped(t.lay, t.shards);
    WalkStart(t.lay.def, t.lay.nIdx, t.Rows());
    assert staged[..0] == [];
    for k := 0 to |staged|
      invariant err == None && Sees(t.Rows(), overlay, cur)
      invariant Walked(t.lay.def, t.lay.nIdx, t.Rows(), staged[..k], cur, txs) && delta == CostSum(txs)
    {
      assert StagedFits(t.lay.def, staged[k]);
      var pk := StagedPk(t.lay.def, staged[k]);
      ContentsAt(t.lay, t.shards, pk);
      err, overlay, txs, delta, cur := WalkNext(t.lay.def, t.lay.nIdx, overlay, staged, k, Lookup(t.lay, t.shards, pk), txs, delta, t.Rows(), cur);
      if err.Some? { return; }
    }
    assert staged[..|staged|] == staged;
  }

  lemma SumSnoc(txs: seq<TxAct>, tx: TxAct)
    ensures CostSum(txs + [tx]) == CostSum(txs) + tx.cost
  {
    assert (txs + [tx])[..|txs|] == txs;
  }

  lemma {:induction false} FailsForGood(def: TableDef, rows: map<Uuid, Row>, sts: seq<Staged>, k: nat)
    requires ValidDef(def) && k <= |sts| && ExecAll(def, rows, sts[..k]).Err?
    ensures ExecAll(def, rows, sts) == ExecAll(def, rows, sts[..k])
    decreases |sts| - k
  {
    if k < |sts| {
      assert sts[..k + 1][..k] == sts[..k];
      FailsForGood(def, rows, sts, k + 1);
    } else {
      assert sts[..k] == sts;
    }
  }

  /** The walk of an auto-key insert batch, without an overlay or duplicate checks. */
  method WalkFresh(def: TableDef, nIdx: nat, staged: seq<Staged>, ghost rows: map<Uuid, Row>) returns (txs: seq<TxAct>, delta: int, ghost cur: map<Uuid, Row>)
    requires TableOk(MemTable(def, rows)) && AllFitStaged(def, staged) && FreshInserts(def, rows, staged)
    ensures Walked(def, nIdx, rows, staged, cur, txs) && delta == CostSum(txs)
  {
    txs, delta, cur := [], 0, rows;
    WalkStart(def, nIdx, rows);
    assert staged[..0] == [];
    for k := 0 to |staged|
      invariant Walked(def, nIdx, rows, staged[..k], cur, txs) && delta == CostSum(txs)
      invariant forall j :: k <= j < |staged| ==> RowPk(def, staged[j].row) !in cur
    {
      assert StagedFits(def, staged[k]);
      WalkStep(def, nIdx, rows, staged, k, cur, txs);
      var row := staged[k].row;
      var tx := TxAct(PutRow(row), Insert(row), row, RowCost(row, nIdx));
      SumSnoc(txs, tx);
      txs, delta := txs + [tx], delta + tx.cost;
      cur := cur[RowPk(def, row) := row];
    }
    assert staged[..|staged|] == staged;
  }

  // ---- applying ----

  function ActPk(def: TableDef, act: Act): Uuid
    requires ValidDef(def)
  {
    if !act.PutRow? then act.pk else if RowOf(def, act.row) then RowPk(def, act.row) else Uuid(0, 0)
  }

  /** Shard `i` is one the effects write to. */
  ghost predicate Writes(lay: Layout, n: nat, acts: seq<Act>, i: nat)
    requires n > 0 && ValidDef(lay.def)
  {
    exists k :: 0 <= k < |acts| && WritesTo(lay, n, acts[k], i)
  }

  ghost predicate WritesTo(lay: Layout, n: nat, act: Act, i: nat)
    requires n > 0 && ValidDef(lay.def)
  {
    ShardIdx(lay, n, ActPk(lay.def, act)) == i
  }

  ghost predicate Stages(lay: Layout, n: nat, sts: seq<Staged>, i: nat)
    requires n > 0 && ValidDef(lay.def)
  {
    exists k :: 0 <= k < |sts| && StagesTo(lay, n, sts[k], i)
  }

  ghost predicate StagesTo(lay: Layout, n: nat, st: Staged, i: nat)
    requires n > 0 && ValidDef(lay.def)
  {
    (st.StInsert? ==> RowOf(lay.def, st.row)) && ShardIdx(lay, n, StagedPk(lay.def, st)) == i
  }

  /** Every effect lands on a shard some staged statement routes to. */
  lemma {:induction false} ActsAreStaged(lay: Layout, n: nat, rows: map<Uuid, Row>, sts: seq<Staged>, i: nat)
    requires n > 0 && ValidDef(lay.def) && ExecAll(lay.def, rows, sts).Ok?
    requires Writes(lay, n, ExecAll(lay.def, rows, sts).value.1, i)
    ensures Stages(lay, n, sts, i)
    decreases |sts|
  {
    var m := |sts| - 1;
    var (mid, acts) := ExecAll(lay.def, rows, sts[..m]).value;
    var all := ExecAll(lay.def, rows, sts).value.1;
    var k :| 0 <= k < |all| && WritesTo(lay, n, all[k], i);
    if k < |acts| {
      assert WritesTo(lay, n, acts[k], i);
      ActsAreStaged(lay, n, rows, sts[..m], i);
      var j :| 0 <= j < m && StagesTo(lay, n, sts[..m][j], i);
      assert StagesTo(lay, n, sts[j], i);
    } else {
      assert StagesTo(lay, n, sts[m], i);
    }
  }

  /** Only the shard `pk` routes to has changed. */
  twostate predicate OnlyShardOf(t: Table, pk: Uuid)
    reads t
  {
    && |t.shards| == old(|t.shards|) > 0
    && forall i :: 0 <= i < |t.shards| && i != ShardIdx(t.lay, |t.shards|, pk) ==> t.shards[i] == old(t.shards[i])
  }

  method TxInsert(t: Table, row: Row, cost: int)
    requires t.Valid() && RowOf(t.lay.def, row) && RowPk(t.lay.def, row) !in t.Rows() && cost == RowCost(row, t.lay.nIdx)
    modifies t`shards, t`readDirty
    ensures t.Valid() && t.Rows() == old(t.Rows())[RowPk(t.lay.def, row) := row] && BytesOf(t.shards) == BytesOf(old(t.shards)) + cost
    ensures OnlyShardOf(t, RowPk(t.lay.def, row)) && t.DirtyMarks() == WithRead(t.lay, old(t.DirtyMarks()), RowPk(t.lay.def, row))
  {
    var pk := RowPk(t.lay.def, row);
    var i := ShardIdx(t.lay, |t.shards|, pk);
    WithRowInserts(t.lay, t.shards, row);
    ReadMarked(t.lay, t.shards, t.readDirty, pk, AddRow(t.shards[i], pk, row, cost), true);
    t.shards := t.shards[i := Marked(t.lay, AddRow(t.shards[i], pk, row, cost), pk, true)];
    t.readDirty := t.readDirty + MarkCount(t.lay, true);
  }

  method TxReplace(t: Table, pk: Uuid, row: Row, cost: int, touch: bool)
    requires t.Valid() && t.Replaceable(pk, row) && cost == RowCost(row, t.lay.nIdx) - RowCost(t.Rows()[pk], t.lay.nIdx)
    modifies t`shards, t`readDirty
    ensures t.Valid() && t.Rows() == old(t.Rows())[pk := row] && BytesOf(t.shards) == BytesOf(old(t.shards)) + cost
    ensures OnlyShardOf(t, pk) && t.DirtyMarks() == if touch then WithRead(t.lay, old(t.DirtyMarks()), pk) else old(t.DirtyMarks())
  {
    ContentsAt(t.lay, t.shards, pk);
    var i := ShardIdx(t.lay, |t.shards|, pk);
    OverwriteUpdates(t.lay, t.shards, pk, row, touch);
    ReadMarked(t.lay, t.shards, t.readDirty, pk, PutAt(t.shards[i], t.shards[i].pk[pk], row, cost), touch);
    t.shards := t.shards[i := Marked(t.lay, PutAt(t.shards[i], t.shards[i].pk[pk], row, cost), pk, touch)];
    t.readDirty := t.readDirty + MarkCount(t.lay, touch);
  }

  method TxDelete(t: Table, pk: Uuid, cost: int)
    requires t.Valid() && pk in t.Rows() && cost == 0 - RowCost(t.Rows()[pk], t.lay.nIdx)
    modifies t`shards, t`readDirty
    ensures t.Valid() && t.Rows() == old(t.Rows()) - {pk} && BytesOf(t.shards) == BytesOf(old(t.shards)) + cost
    ensures OnlyShardOf(t, pk) && t.DirtyMarks() == WithDel(t.lay, old(t.DirtyMarks()), pk)
  {
    ContentsAt(t.lay, t.shards, pk);
    var i := ShardIdx(t.lay, |t.shards|, pk);
    WithoutRowRemoves(t.lay, t.shards, pk);
    DelMarked(t.lay, t.shards, t.readDirty, pk, RemoveAt(t.shards[i], t.shards[i].pk[pk], pk, 0 - cost));
    t.shards := t.shards[i := MarkedDel(t.lay, RemoveAt(t.shards[i], t.shards[i].pk[pk], pk, 0 - cost), pk)];
  }

  /** What a resolved effect needs of the rows it applies to. */
  lemma ResolvedMeans(def: TableDef, nIdx: nat, rows: map<Uuid, Row>, tx: TxAct, after: map<Uuid, Row>)
    requires TableOk(MemTable(def, rows)) && ResolvedAt(def, nIdx, rows, tx, after)
    ensures match tx.act
            case PutRow(row) => RowOf(def, row) && RowPk(def, row) !in rows && after == rows[RowPk(def, row) := row] && tx.cost == RowCost(row, nIdx)
            case SetRow(pk, _, _) =>
              && pk in rows && RowOf(def, tx.row) && RowPk(def, tx.row) == pk && after == rows[pk := tx.row]
              && tx.cost == RowCost(tx.row, nIdx) - RowCost(rows[pk], nIdx)
            case DropRow(pk) => pk in rows && after == rows - {pk} && tx.cost == 0 - RowCost(rows[pk], nIdx)
  {
    if tx.act.SetRow? {
      JournalReplays(def, rows[tx.act.pk], tx.act.ords, tx.act.vals);
    }
  }

  /** One resolved effect (`txInsertLocked`, `txReplaceLocked`, `txDeleteLocked`), with the
      byte cost it was resolved at; no other shard changes. */
  method ApplyOne(t: Table, tx: TxAct, ghost after: map<Uuid, Row>)
    requires t.Valid() && ResolvedAt(t.lay.def, t.lay.nIdx, t.Rows(), tx, after)
    modifies t`shards, t`readDirty
    ensures t.Valid() && t.Rows() == after && BytesOf(t.shards) == BytesOf(old(t.shards)) + tx.cost
    ensures OnlyShardOf(t, ActPk(t.lay.def, tx.act)) && t.DirtyMarks() == MarkAct(t.lay, old(t.DirtyMarks()), tx.act)
  {
    ContentsTyped(t.lay, t.shards);
    ResolvedMeans(t.lay.def, t.lay.nIdx, t.Rows(), tx, after);
    match tx.act
    case PutRow(row) => TxInsert(t, row, tx.cost);
    case SetRow(pk, ords, _) => TxReplace(t, pk, tx.row, tx.cost, Touches(t.lay, ords));
    case DropRow(pk) => TxDelete(t, pk, tx.cost);
  }

  /** Shards no effect writes to are as they were. */
  twostate predicate KeptExcept(t: Table, acts: seq<Act>)
    reads t
  {
    && |t.shards| == old(|t.shards|) > 0 && ValidDef(t.lay.def)
    && forall i :: 0 <= i < |t.shards| && !Writes(t.lay, |t.shards|, acts, i) ==> t.shards[i] == old(t.shards[i])
  }

  lemma WritesSnoc(lay: Layout, n: nat, txs: seq<TxAct>, k: nat)
    requires n > 0 && ValidDef(lay.def) && k < |txs|
    ensures forall i :: Writes(lay, n, Acts(txs[..k + 1]), i) <==> Writes(lay, n, Acts(txs[..k]), i) || WritesTo(lay, n, txs[k].act, i)
  {
    var a, b := Acts(txs[..k]), Acts(txs[..k + 1]);
    assert b == a + [txs[k].act];
    forall i ensures Writes(lay, n, b, i) <==> Writes(lay, n, a, i) || WritesTo(lay, n, txs[k].act, i) {
      if Writes(lay, n, a, i) {
        var j :| 0 <= j < |a| && WritesTo(lay, n, a[j], i);
        assert WritesTo(lay, n, b[j], i);
      }
      if WritesTo(lay, n, txs[k].act, i) { assert WritesTo(lay, n, b[k], i); }
    }
  }

  /** What applying has come to after `k` effects, from the shards and rows it began with. */
  ghost predicate Applied(t: Table, ss: seq<Shard>, marks: Marks, rows: map<Uuid, Row>, txs: seq<TxAct>, k: nat)
    reads t
    requires k <= |txs|
  {
    && t.Valid() && |t.shards| == |ss|
    && After(t.lay.def, rows, txs, k).Some? && t.Rows() == After(t.lay.def, rows, txs, k).value.0.rows
    && BytesOf(t.shards) == BytesOf(ss) + CostSum(txs[..k]) && t.DirtyMarks() == MarkActs(t.lay, marks, Acts(txs[..k]))
    && forall i {:trigger t.shards[i]} :: 0 <= i < |ss| && !Writes(t.lay, |ss|, Acts(txs[..k]), i) ==> t.shards[i] == ss[i]
  }

  /** One more effect. */
  method ApplyStep(t: Table, txs: seq<TxAct>, k: nat, ghost ss: seq<Shard>, ghost marks: Marks, ghost rows: map<Uuid, Row>)
    requires k < |txs| && Applied(t, ss, marks, rows, txs, k) && StepResolved(t.lay.def, t.lay.nIdx, rows, txs, k)
    modifies t`shards, t`readDirty
    ensures Applied(t, ss, marks, rows, txs, k + 1)
  {
    ghost var before := t.shards;
    assert txs[..k + 1] == txs[..k] + [txs[k]];
    SumSnoc(txs[..k], txs[k]);
    WritesSnoc(t.lay, |t.shards|, txs, k);
    assert Acts(txs[..k + 1]) == Acts(txs[..k]) + [txs[k].act];
    MarkActsSnoc(t.lay, marks, Acts(txs[..k]), txs[k].act);
    ApplyOne(t, txs[k], After(t.lay.def, rows, txs, k + 1).value.0.rows);
    forall i | 0 <= i < |ss| && !Writes(t.lay, |ss|, Acts(txs[..k + 1]), i) ensures t.shards[i] == ss[i] {
      assert before[i] == ss[i];
    }
  }

  /** Every effect, in statement order. */
  method ApplyAllActs(t: Table, txs: seq<TxAct>, ghost rows: map<Uuid, Row>, ghost after: map<Uuid, Row>)
    requires t.Valid() && rows == t.Rows() && Resolved(t.lay.def, t.lay.nIdx, rows, txs, after)
    modifies t`shards, t`readDirty
    ensures t.Valid() && t.Rows() == after && BytesOf(t.shards) == BytesOf(old(t.shards)) + CostSum(txs)
    ensures KeptExcept(t, Acts(txs)) && t.DirtyMarks() == MarkActs(t.lay, old(t.DirtyMarks()), Acts(txs))
  {
    ghost var ss, marks := t.shards, t.DirtyMarks();
    assert txs[..0] == [] && txs[..|txs|] == txs;
    for k := 0 to |txs|
      invariant Applied(t, ss, marks, rows, txs, k)
    {
      assert StepResolved(t.lay.def, t.lay.nIdx, rows, txs, k);
      ApplyStep(t, txs, k, ss, marks, rows);
    }
  }

  // ---- commit ----

  /** A growing change that does not fit beside what is held. */
  predicate Overshoots(max: nat, total: int, cost: int) {
    max != 0 && cost > 0 && total + cost > max
  }

  /** Reserve, journal, release, apply, in that order: a positive change is admitted before
      the log write and given back if it fails; a negative one is released after it. */
  method Admit(t: Table, txs: seq<TxAct>, delta: int, ghost cur: map<Uuid, Row>, works: bool) returns (out: Outcome)
    requires t.Valid() && txs != [] && delta == CostSum(txs) && Resolved(t.lay.def, t.lay.nIdx, t.Rows(), txs, cur)
    modifies t`shards, t`readDirty, t.budget, t.journal
    ensures t.Valid() && t.Balanced()
    ensures out in {Done, NoCapacity, WalFailed}
    ensures out == NoCapacity <==> Overshoots(t.budget.max, old(t.budget.total), delta)
    ensures out == WalFailed <==> out != NoCapacity && t.journal.live && !works
    ensures if out == Done then t.Rows() == cur && t.TookGroup(Acts(txs)) && KeptExcept(t, Acts(txs)) else t.Untouched()
    ensures t.budget.max != 0 && old(t.budget.total) <= t.budget.max ==> t.budget.total <= t.budget.max
  {
    if delta > 0 {
      var admitted := t.budget.Reserve(delta);
      if !admitted { return NoCapacity; }
    }
    var ok := t.journal.Write(Txn(OnTable(t.id, Ops(txs))), works);
    if !ok {
      if delta > 0 { t.budget.Release(delta); }
      return WalFailed;
    }
    if delta < 0 { t.budget.Release(0 - delta); }
    ApplyAllActs(t, txs, t.Rows(), cur);
    return Done;
  }

  /** What a commit comes to whose statements leave `after` by the effects `acts`: refused
      exactly when the net cost does not fit the cap, or the journal does not take them. */
  twostate predicate Settled(t: Table, after: map<Uuid, Row>, acts: seq<Act>, works: bool, out: Outcome)
    requires t.Valid() && old(t.Valid())
    reads t, t.budget, t.journal
  {
    && out in {Done, NoCapacity, WalFailed}
    && (out == NoCapacity <==> Overshoots(t.budget.max, old(t.budget.total), RowsCost(after, t.lay.nIdx) - RowsCost(old(t.Rows()), t.lay.nIdx)))
    && (out == WalFailed <==> acts != [] && out != NoCapacity && t.journal.live && !works)
    && if out == Done then t.Rows() == after && t.TookGroup(acts) else t.Untouched()
  }

  /** `commit`: the staged statements take effect together, exactly as executed one by one,
      under one log record; or nothing at all happens, whichever step refused. */
  method Commit(t: Table, staged: seq<Staged>, skipDup: bool, works: bool) returns (out: Outcome, locked: seq<nat>)
    requires t.Valid() && AllFitStaged(t.lay.def, staged) && (skipDup ==> FreshInserts(t.lay.def, t.Rows(), staged))
    modifies t`shards, t`readDirty, t.budget, t.journal
    ensures t.Valid() && t.Balanced()
    ensures out == Refused <==> |staged| > 1000
    ensures out in {Duplicate, BadSet} <==> |staged| <= 1000 && ExecAll(t.lay.def, old(t.Rows()), staged).Err?
    ensures out in {Duplicate, BadSet} ==> ExecAll(t.lay.def, old(t.Rows()), staged) == Err(out)
    ensures out in {Done, Refused, Duplicate, BadSet, NoCapacity, WalFailed}
    ensures var after := ExecAll(t.lay.def, old(t.Rows()), staged);
            if |staged| <= 1000 && after.Ok? then Settled(t, after.value.0, after.value.1, works, out) else t.Untouched()
    ensures Ascending(locked) && |t.shards| == old(|t.shards|)
    ensures forall i :: 0 <= i < |t.shards| && i !in locked ==> t.shards[i] == old(t.shards[i])
    ensures t.budget.max != 0 && old(t.budget.total) <= t.budget.max ==> t.budget.total <= t.budget.max
  {
    locked := [];
    if |staged| == 0 {
      NothingStaged(t.lay.def, t.Rows());
      assert staged == [];
      return Done, locked;
    }
    if |staged| > MAX_TXN_MUTATIONS { return Refused, locked; }
    locked := CollectShards(t, staged);
    ghost var after := ExecAll(t.lay.def, t.Rows(), staged);
    if after.Ok? { LockedCover(t, staged, locked, after.value.1); }
    out := Execute(t, staged, skipDup, works);
  }

  lemma NothingStaged(def: TableDef, rows: map<Uuid, Row>)
    requires ValidDef(def)
    ensures ExecAll(def, rows, []) == Ok((rows, []))
    ensures LiveGroup(MemTable(def, rows), []) == Some((MemTable(def, rows), []))
  {}

  /** What running the statements comes to. */
  twostate predicate Ran(t: Table, staged: seq<Staged>, works: bool, out: Outcome)
    requires t.Valid() && old(t.Valid())
    reads t, t.budget, t.journal
  {
    match ExecAll(t.lay.def, old(t.Rows()), staged)
    case Err(e) => out == e && out in {Duplicate, BadSet} && t.Untouched()
    case Ok(after) => Settled(t, after.0, after.1, works, out) && KeptExcept(t, after.1)
  }

  /** Under the locks: resolve, and if anything came of it, settle. */
  method Execute(t: Table, staged: seq<Staged>, skipDup: bool, works: bool) returns (out: Outcome)
    requires t.Valid() && AllFitStaged(t.lay.def, staged) && (skipDup ==> FreshInserts(t.lay.def, t.Rows(), staged))
    modifies t`shards, t`readDirty, t.budget, t.journal
    ensures t.Valid() && t.Balanced() && Ran(t, staged, works, out) && |t.shards| == old(|t.shards|)
    ensures t.budget.max != 0 && old(t.budget.total) <= t.budget.max ==> t.budget.total <= t.budget.max
  {
    var err, txs, delta;
    ghost var cur;
    err, txs, delta, cur := Resolve(t, staged, skipDup);
    if err.Some? { return err.value; }
    if |txs| == 0 {
      ContentsTyped(t.lay, t.shards);
      NothingResolved(t.lay.def, t.lay.nIdx, t.Rows(), cur);
      return Done;
    }
    out := Settle(t, txs, delta, cur, works);
  }

  /** The walk, or its short form when no key can clash. */
  method Resolve(t: Table, staged: seq<Staged>, skipDup: bool) returns (err: Option<Outcome>, txs: seq<TxAct>, delta: int, ghost cur: map<Uuid, Row>)
    requires t.Valid() && AllFitStaged(t.lay.def, staged) && (skipDup ==> FreshInserts(t.lay.def, t.Rows(), staged))
    ensures match err
            case Some(e) => ExecAll(t.lay.def, t.Rows(), staged) == Err(e) && e in {Duplicate, BadSet}
            case None => Walked(t.lay.def, t.lay.nIdx, t.Rows(), staged, cur, txs) && delta == CostSum(txs)
  {
    ContentsTyped(t.lay, t.shards);
    WalkErrors(t.lay.def, t.Rows(), staged);
    err := None;
    if skipDup {
      txs, delta, cur := WalkFresh(t.lay.def, t.lay.nIdx, staged, t.Rows());
    } else {
      err, txs, delta, cur := Walk(t, staged);
    }
  }

  /** Admission and what follows, with the cost read off the rows. */
  method Settle(t: Table, txs: seq<TxAct>, delta: int, ghost cur: map<Uuid, Row>, works: bool) returns (out: Outcome)
    requires t.Valid() && txs != [] && delta == CostSum(txs) && Resolved(t.lay.def, t.lay.nIdx, t.Rows(), txs, cur)
    modifies t`shards, t`readDirty, t.budget, t.journal
    ensures t.Valid() && t.Balanced() && Settled(t, cur, Acts(txs), works, out)
    ensures if out == Done then KeptExcept(t, Acts(txs)) else t.shards == old(t.shards)
    ensures t.budget.max != 0 && old(t.budget.total) <= t.budget.max ==> t.budget.total <= t.budget.max
  {
    ContentsTyped(t.lay, t.shards);
    ResolvedCost(t.lay.def, t.lay.nIdx, t.Rows(), txs, cur);
    out := Admit(t, txs, delta, cur, works);
  }

  /** The locked shards cover every shard the effects write to. */
  lemma LockedCover(t: Table, staged: seq<Staged>, locked: seq<nat>, acts: seq<Act>)
    requires t.Valid() && AllFitStaged(t.lay.def, staged)
    requires ExecAll(t.lay.def, t.Rows(), staged).Ok? && ExecAll(t.lay.def, t.Rows(), staged).value.1 == acts
    requires forall i :: i in locked <==> exists k :: 0 <= k < |staged| && Routes(t, staged[k], i)
    ensures forall i :: Writes(t.lay, |t.shards|, acts, i) ==> i in locked
  {
    forall i | Writes(t.lay, |t.shards|, acts, i) ensures i in locked {
      ActsAreStaged(t.lay, |t.shards|, t.Rows(), staged, i);
      var k :| 0 <= k < |staged| && StagesTo(t.lay, |t.shards|, staged[k], i);
      assert StagedFits(t.lay.def, staged[k]);
      assert Routes(t, staged[k], i);
    }
  }

  lemma NothingResolved(def: TableDef, nIdx: nat, rows: map<Uuid, Row>, cur: map<Uuid, Row>)
    requires Resolved(def, nIdx, rows, [], cur)
    ensures cur == rows && Acts([]) == []
  {
    assert Acts([]) == [];
  }

  /** Fitting statements fail only by a duplicate key or an uncomputable SET. */
  lemma {:induction false} WalkErrors(def: TableDef, rows: map<Uuid, Row>, sts: seq<Staged>)
    requires ValidDef(def) && TableOk(MemTable(def, rows)) && AllFitStaged(def, sts)
    ensures match ExecAll(def, rows, sts)
            case Err(e) => e == Duplicate || e == BadSet
            case Ok(next) => TableOk(MemTable(def, next.0))
    decreases |sts|
  {
    if sts != [] {
      var n := |sts| - 1;
      WalkErrors(def, rows, sts[..n]);
      var mid := ExecAll(def, rows, sts[..n]);
      if mid.Ok? {
        assert StagedFits(def, sts[n]);
        if ExecOne(def, mid.value.0, sts[n]).Ok? { ExecOneIsAct(MemTable(def, mid.value.0), sts[n]); }
      }
    }
  }
}
