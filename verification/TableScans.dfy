/** Statements over many rows: which rows a full scan collects, in what order, and what
    applying them one after another amounts to (store_write.go, store_read.go). */
module TableScans {
  import opened Wrappers
  import opened Values
  import opened Sequences
  import opened Codec
  import opened Interpreters
  import opened LiveLog
  import opened Shards
  import opened TableSpec

  // ---- the rows a scan collects ----

  predicate Picked(def: TableDef, slot: Slot, match_: Row -> bool) {
    slot.Some? && RowOf(def, slot.value) && match_(slot.value)
  }

  /** Keys of the matching rows of one arena, in arena order. */
  function ShardKeys(def: TableDef, rows: seq<Slot>, match_: Row -> bool): seq<Uuid>
    requires ValidDef(def)
  {
    if rows == [] then []
    else
      ShardKeys(def, rows[..|rows| - 1], match_) +
      if Picked(def, rows[|rows| - 1], match_) then [RowPk(def, rows[|rows| - 1].value)] else []
  }

  /** Keys of the matching rows of the table, shard by shard. */
  function ScanKeys(def: TableDef, ss: seq<Shard>, match_: Row -> bool): seq<Uuid>
    requires ValidDef(def)
  {
    if ss == [] then [] else ScanKeys(def, ss[..|ss| - 1], match_) + ShardKeys(def, ss[|ss| - 1].rows, match_)
  }

  lemma NoRepeatsConcat(a: seq<Uuid>, b: seq<Uuid>)
    requires Distinct(a) && Distinct(b) && forall pk :: pk in a ==> pk !in b
    ensures Distinct(a + b)
  {
    var ab := a + b;
    forall i, j | 0 <= i < j < |ab| ensures ab[i] != ab[j] {
      assert i < |a| <= j ==> ab[i] in a && ab[j] in b;
    }
  }

  lemma {:induction false} ShardKeysAre(def: TableDef, nIdx: nat, s: Shard, n: nat, match_: Row -> bool)
    requires ShardOk(def, nIdx, s) && n <= |s.rows|
    ensures var keys := ShardKeys(def, s.rows[..n], match_);
            && Distinct(keys)
            && forall pk :: pk in keys <==> pk in s.pk && s.pk[pk] < n && RowAt(s, pk).Some? && match_(RowAt(s, pk).value)
  {
    var keys := ShardKeys(def, s.rows[..n], match_);
    if n > 0 {
      assert s.rows[..n][..n - 1] == s.rows[..n - 1] && s.rows[..n][n - 1] == s.rows[n - 1];
      ShardKeysAre(def, nIdx, s, n - 1, match_);
      assert SlotFound(def, s, n - 1);
    }
    forall pk ensures pk in keys <==> pk in s.pk && s.pk[pk] < n && RowAt(s, pk).Some? && match_(RowAt(s, pk).value) {
      assert KeyFound(def, s, pk);
    }
  }

  lemma {:induction false} ScanKeysUpTo(lay: Layout, ss: seq<Shard>, n: nat, match_: Row -> bool)
    requires ShardsOk(lay, ss) && ValidDef(lay.def) && n <= |ss|
    ensures var keys := ScanKeys(lay.def, ss[..n], match_);
            && Distinct(keys)
            && forall pk :: pk in keys <==> ShardIdx(lay, |ss|, pk) < n && Lookup(lay, ss, pk).Some? && match_(Lookup(lay, ss, pk).value)
  {
    if n > 0 {
      var before, here := ScanKeys(lay.def, ss[..n - 1], match_), ShardKeys(lay.def, ss[n - 1].rows, match_);
      assert ss[..n][..n - 1] == ss[..n - 1] && ss[..n][n - 1] == ss[n - 1];
      ScanKeysUpTo(lay, ss, n - 1, match_);
      assert ShardFits(lay, ss, n - 1);
      ShardKeysAre(lay.def, lay.nIdx, ss[n - 1], |ss[n - 1].rows|, match_);
      assert ss[n - 1].rows[..|ss[n - 1].rows|] == ss[n - 1].rows;
      forall pk ensures pk in here <==> ShardIdx(lay, |ss|, pk) == n - 1 && Lookup(lay, ss, pk).Some? && match_(Lookup(lay, ss, pk).value) {
        assert KeyFound(lay.def, ss[n - 1], pk);
        assert pk in here ==> RowAt(ss[n - 1], pk).Some?;
      }
      NoRepeatsConcat(before, here);
    }
  }

  /** A full scan collects exactly the matching rows, each once. */
  lemma ScanKeysAre(lay: Layout, ss: seq<Shard>, match_: Row -> bool)
    requires ShardsOk(lay, ss) && ValidDef(lay.def)
    ensures var keys := ScanKeys(lay.def, ss, match_);
            Distinct(keys) && Selects(lay.def, Contents(lay, ss), match_, keys)
  {
    ScanKeysUpTo(lay, ss, |ss|, match_);
    assert ss[..|ss|] == ss;
    forall pk ensures pk in ScanKeys(lay.def, ss, match_) <==> pk in Contents(lay, ss) && match_(Contents(lay, ss)[pk]) {
      ContentsAt(lay, ss, pk);
    }
  }

  /** The listed keys are those of the matching rows. */
  ghost predicate Selects(def: TableDef, rows: map<Uuid, Row>, match_: Row -> bool, keys: seq<Uuid>) {
    forall pk {:trigger pk in keys} {:trigger pk in rows} :: pk in keys <==> pk in rows && match_(rows[pk])
  }

  // ---- applying the collected effects ----

  lemma CollectsNext(rows: map<Uuid, Row>, keys: seq<Uuid>, key: Uuid, ords: seq<nat>, compute: Row -> Option<Row>)
    requires AllCompute(rows, keys, ords, compute) && Computes(rows, key, ords, compute)
    ensures AllCompute(rows, keys + [key], ords, compute)
    ensures NewRows(rows, keys + [key], ords, compute) == NewRows(rows, keys, ords, compute) + [NewRow(rows, key, ords, compute)]
  {}

  /** A scan selects something exactly when some row matches. */
  lemma SelectsSome(def: TableDef, rows: map<Uuid, Row>, match_: Row -> bool, keys: seq<Uuid>)
    requires Selects(def, rows, match_, keys)
    ensures keys != [] <==> exists pk :: pk in rows && match_(rows[pk])
    ensures forall k :: 0 <= k < |keys| ==> keys[k] in keys && keys[k] in rows
  {
    assert keys == [] || keys[0] in keys;
  }

  lemma {:induction false} LiveGroupSnoc(t: MemTable, acts: seq<Act>, a: Act)
    ensures LiveGroup(t, acts + [a])
         == match LiveGroup(t, acts)
            case None => None
            case Some((t', ops)) =>
              match LiveAct(t', a)
              case None => None
              case Some((t'', op)) => Some((t'', ops + [op]))
    decreases |acts|
  {
    if acts == [] {
      assert acts + [a] == [a] && [a][1..] == [];
      if LiveAct(t, a).Some? {
        var (t', op) := LiveAct(t, a).value;
        assert LiveGroup(t', [a][1..]) == Some((t', [])) && [op] + [] == [] + [op];
      }
    } else {
      assert (acts + [a])[1..] == acts[1..] + [a];
      match LiveAct(t, acts[0])
      case None =>
      case Some((t', op)) =>
        LiveGroupSnoc(t', acts[1..], a);
        if LiveGroup(t', acts[1..]).Some? {
          var (t'', ops) := LiveGroup(t', acts[1..]).value;
          if LiveAct(t'', a).Some? {
            assert [op] + (ops + [LiveAct(t'', a).value.1]) == [op] + ops + [LiveAct(t'', a).value.1];
          }
        }
    }
  }

  /** The row is there, and its SET values can be computed and stored. */
  predicate Computes(rows: map<Uuid, Row>, pk: Uuid, ords: seq<nat>, compute: Row -> Option<Row>) {
    && pk in rows && compute(rows[pk]).Some? && |compute(rows[pk]).value| == |ords|
    && forall i :: 0 <= i < |ords| ==> ords[i] < |rows[pk]|
  }

  predicate AllCompute(rows: map<Uuid, Row>, keys: seq<Uuid>, ords: seq<nat>, compute: Row -> Option<Row>) {
    forall i :: 0 <= i < |keys| ==> Computes(rows, keys[i], ords, compute)
  }

  function NewRow(rows: map<Uuid, Row>, pk: Uuid, ords: seq<nat>, compute: Row -> Option<Row>): (r: Row)
    requires Computes(rows, pk, ords, compute)
    ensures |r| == |rows[pk]|
  {
    Assigned(rows[pk], ords, compute(rows[pk]).value)
  }

  /** The new image of every collected row. */
  function NewRows(rows: map<Uuid, Row>, keys: seq<Uuid>, ords: seq<nat>, compute: Row -> Option<Row>): seq<Row>
    requires AllCompute(rows, keys, ords, compute)
  {
    seq(|keys|, i requires 0 <= i < |keys| => NewRow(rows, keys[i], ords, compute))
  }

  function Replaced(rows: map<Uuid, Row>, keys: seq<Uuid>, news: seq<Row>): map<Uuid, Row>
    requires |keys| == |news|
  {
    if keys == [] then rows else Replaced(rows, keys[..|keys| - 1], news[..|keys| - 1])[keys[|keys| - 1] := news[|keys| - 1]]
  }

  lemma {:induction false} ReplacedIs(rows: map<Uuid, Row>, keys: seq<Uuid>, news: seq<Row>)
    requires |keys| == |news| && Distinct(keys)
    ensures forall pk :: pk !in keys ==> (pk in Replaced(rows, keys, news) <==> pk in rows)
    ensures forall pk :: pk !in keys && pk in rows ==> Replaced(rows, keys, news)[pk] == rows[pk]
    ensures forall i :: 0 <= i < |keys| ==> keys[i] in Replaced(rows, keys, news) && Replaced(rows, keys, news)[keys[i]] == news[i]
  {
    if keys != [] {
      var n := |keys| - 1;
      ReplacedIs(rows, keys[..n], news[..n]);
      forall i | 0 <= i < |keys|
        ensures keys[i] in Replaced(rows, keys, news) && Replaced(rows, keys, news)[keys[i]] == news[i]
      {
        if i < n { assert keys[..n][i] == keys[i] && news[..n][i] == news[i]; }
      }
    }
  }

  predicate Journalable(row: Row, ords: seq<nat>) {
    forall j :: 0 <= j < |ords| ==> ords[j] < |row|
  }

  predicate AllJournalable(news: seq<Row>, ords: seq<nat>) {
    forall i :: 0 <= i < |news| ==> Journalable(news[i], ords)
  }

  function UpdateOp(pk: Uuid, row: Row, ords: seq<nat>): Op
    requires Journalable(row, ords)
  {
    Update(Id(pk), JournalSets(row, ords))
  }

  /** The bodies a broad UPDATE journals. */
  function UpdateOps(keys: seq<Uuid>, news: seq<Row>, ords: seq<nat>): seq<Op>
    requires |keys| == |news| && AllJournalable(news, ords)
  {
    seq(|keys|, i requires 0 <= i < |keys| => UpdateOp(keys[i], news[i], ords))
  }

  function UpdateAct(rows: map<Uuid, Row>, pk: Uuid, ords: seq<nat>, compute: Row -> Option<Row>): Act
    requires Computes(rows, pk, ords, compute)
  {
    SetRow(pk, ords, compute(rows[pk]).value)
  }

  /** One SET act per collected key, on the values computed from the row as it was. */
  function UpdateActs(rows: map<Uuid, Row>, keys: seq<Uuid>, ords: seq<nat>, compute: Row -> Option<Row>): seq<Act>
    requires AllCompute(rows, keys, ords, compute)
  {
    seq(|keys|, i requires 0 <= i < |keys| => UpdateAct(rows, keys[i], ords, compute))
  }

  /** What an UPDATE of the collected rows takes for granted. */
  ghost predicate UpdatePlan(t: MemTable, keys: seq<Uuid>, ords: seq<nat>, compute: Row -> Option<Row>) {
    && TableOk(t) && ords != [] && Distinct(keys) && AllCompute(t.rows, keys, ords, compute)
    && forall i :: 0 <= i < |keys| ==> SetFitsTable(t.def, ords, compute(t.rows[keys[i]]).value)
  }

  /** One collected row: overwriting it is its SET act. */
  lemma UpdateIsAct(t: MemTable, rows: map<Uuid, Row>, pk: Uuid, ords: seq<nat>, compute: Row -> Option<Row>)
    requires TableOk(t) && ords != [] && Computes(t.rows, pk, ords, compute) && SetFitsTable(t.def, ords, compute(t.rows[pk]).value)
    requires pk in rows && rows[pk] == t.rows[pk]
    ensures var nr := NewRow(t.rows, pk, ords, compute);
            && Journalable(nr, ords) && RowOf(t.def, nr) && RowPk(t.def, nr) == pk
            && LiveAct(MemTable(t.def, rows), UpdateAct(t.rows, pk, ords, compute))
               == Some((MemTable(t.def, rows[pk := nr]), UpdateOp(pk, nr, ords)))
  {
    JournalReplays(t.def, t.rows[pk], ords, compute(t.rows[pk]).value);
  }

  lemma PlanJournalable(t: MemTable, keys: seq<Uuid>, ords: seq<nat>, compute: Row -> Option<Row>)
    requires UpdatePlan(t, keys, ords, compute)
    ensures AllJournalable(NewRows(t.rows, keys, ords, compute), ords)
  {}

  /** Overwriting the collected rows one by one is the atomic group of their SET acts. */
  lemma {:induction false} UpdatesAreGroup(t: MemTable, keys: seq<Uuid>, ords: seq<nat>, compute: Row -> Option<Row>, n: nat)
    requires UpdatePlan(t, keys, ords, compute) && n <= |keys|
    ensures var news := NewRows(t.rows, keys, ords, compute);
            && AllJournalable(news, ords)
            && LiveGroup(t, UpdateActs(t.rows, keys, ords, compute)[..n])
               == Some((MemTable(t.def, Replaced(t.rows, keys[..n], news[..n])), UpdateOps(keys, news, ords)[..n]))
  {
    var news, acts := NewRows(t.rows, keys, ords, compute), UpdateActs(t.rows, keys, ords, compute);
    PlanJournalable(t, keys, ords, compute);
    var ops := UpdateOps(keys, news, ords);
    if n == 0 {
      assert acts[..0] == [] && keys[..0] == [] && ops[..0] == [];
    } else {
      UpdatesAreGroup(t, keys, ords, compute, n - 1);
      var pk, before := keys[n - 1], Replaced(t.rows, keys[..n - 1], news[..n - 1]);
      ReplacedStep(t.rows, keys, news, n);
      UpdateIsAct(t, before, pk, ords, compute);
      TakeSnoc(acts, n);
      TakeSnoc(ops, n);
      LiveGroupSnoc(t, acts[..n - 1], acts[n - 1]);
    }
  }

  /** So the whole statement is one atomic group, and every new image fits its row. */
  lemma PlanIsGroup(t: MemTable, keys: seq<Uuid>, ords: seq<nat>, compute: Row -> Option<Row>)
    requires UpdatePlan(t, keys, ords, compute)
    ensures var news := NewRows(t.rows, keys, ords, compute);
            && AllJournalable(news, ords)
            && LiveGroup(t, UpdateActs(t.rows, keys, ords, compute)) == Some((MemTable(t.def, Replaced(t.rows, keys, news)), UpdateOps(keys, news, ords)))
            && forall k :: 0 <= k < |keys| ==> keys[k] in t.rows && RowOf(t.def, news[k]) && RowPk(t.def, news[k]) == keys[k]
  {
    var news := NewRows(t.rows, keys, ords, compute);
    PlanJournalable(t, keys, ords, compute);
    UpdatesAreGroup(t, keys, ords, compute, |keys|);
    var acts, ops := UpdateActs(t.rows, keys, ords, compute), UpdateOps(keys, news, ords);
    assert acts[..|keys|] == acts && ops[..|keys|] == ops && keys[..|keys|] == keys && news[..|keys|] == news;
    forall k | 0 <= k < |keys| ensures keys[k] in t.rows && RowOf(t.def, news[k]) && RowPk(t.def, news[k]) == keys[k] {
      UpdateIsAct(t, t.rows, keys[k], ords, compute);
    }
  }

  lemma TakeSnoc<T>(s: seq<T>, n: nat)
    requires 0 < n <= |s|
    ensures s[..n] == s[..n - 1] + [s[n - 1]]
  {}

  lemma ReplacedStep(rows: map<Uuid, Row>, keys: seq<Uuid>, news: seq<Row>, n: nat)
    requires |keys| == |news| && Distinct(keys) && 0 < n <= |keys| && keys[n - 1] in rows
    ensures var before := Replaced(rows, keys[..n - 1], news[..n - 1]);
            && keys[n - 1] in before && before[keys[n - 1]] == rows[keys[n - 1]]
            && Replaced(rows, keys[..n], news[..n]) == before[keys[n - 1] := news[n - 1]]
  {
    ReplacedIs(rows, keys[..n - 1], news[..n - 1]);
    assert keys[n - 1] !in keys[..n - 1];
    assert keys[..n][..n - 1] == keys[..n - 1] && news[..n][..n - 1] == news[..n - 1];
  }

  function DeleteActs(keys: seq<Uuid>): seq<Act> {
    seq(|keys|, i requires 0 <= i < |keys| => DropRow(keys[i]))
  }

  function DeleteOps(keys: seq<Uuid>): seq<Op> {
    seq(|keys|, i requires 0 <= i < |keys| => Delete(Id(keys[i])))
  }

  function Members(keys: seq<Uuid>): set<Uuid> {
    set pk | pk in keys
  }

  lemma MembersStep(rows: map<Uuid, Row>, keys: seq<Uuid>, k: nat)
    requires Distinct(keys) && k < |keys| && keys[k] in rows
    ensures keys[k] in rows - Members(keys[..k])
    ensures rows - Members(keys[..k]) - {keys[k]} == rows - Members(keys[..k + 1])
  {
    assert keys[..k + 1] == keys[..k] + [keys[k]];
    assert Members(keys[..k + 1]) == Members(keys[..k]) + {keys[k]};
    assert keys[k] !in Members(keys[..k]);
  }

  /** Removing the collected rows one by one is the atomic group of their DELETE acts. */
  lemma {:induction false} DeletesAreGroup(t: MemTable, keys: seq<Uuid>, n: nat)
    requires TableOk(t) && Distinct(keys) && (forall i :: 0 <= i < |keys| ==> keys[i] in t.rows) && n <= |keys|
    ensures LiveGroup(t, DeleteActs(keys)[..n]) == Some((MemTable(t.def, t.rows - Members(keys[..n])), DeleteOps(keys)[..n]))
  {
    var acts := DeleteActs(keys);
    if n > 0 {
      DeletesAreGroup(t, keys, n - 1);
      TakeSnoc(acts, n);
      TakeSnoc(DeleteOps(keys), n);
      LiveGroupSnoc(t, acts[..n - 1], acts[n - 1]);
      MembersStep(t.rows, keys, n - 1);
    } else {
      assert acts[..0] == [] && DeleteOps(keys)[..0] == [] && t.rows - Members(keys[..0]) == t.rows;
    }
  }

  // ---- what a statement over many rows leaves ----

  function Matching(rows: map<Uuid, Row>, match_: Row -> bool): set<Uuid> {
    set pk | pk in rows && match_(rows[pk])
  }

  /** Every matching row with its SET values in place, the rest as they were. */
  function UpdatedRows(rows: map<Uuid, Row>, match_: Row -> bool, ords: seq<nat>, compute: Row -> Option<Row>): map<Uuid, Row> {
    map pk | pk in rows :: if match_(rows[pk]) && Computes(rows, pk, ords, compute) then NewRow(rows, pk, ords, compute) else rows[pk]
  }

  /** The rows that do not match. */
  function UnmatchedRows(rows: map<Uuid, Row>, match_: Row -> bool): map<Uuid, Row> {
    map pk | pk in rows && !match_(rows[pk]) :: rows[pk]
  }

  lemma SelectedCount(def: TableDef, rows: map<Uuid, Row>, match_: Row -> bool, keys: seq<Uuid>)
    requires Selects(def, rows, match_, keys) && Distinct(keys)
    ensures |keys| == |Matching(rows, match_)|
  {
    DistinctCount(keys);
    assert (set pk | pk in keys) == Matching(rows, match_);
  }

  /** In whatever order the matching rows are replaced. */
  lemma SelectedReplaced(def: TableDef, rows: map<Uuid, Row>, match_: Row -> bool, keys: seq<Uuid>, ords: seq<nat>, compute: Row -> Option<Row>)
    requires Selects(def, rows, match_, keys) && Distinct(keys) && AllCompute(rows, keys, ords, compute)
    ensures Replaced(rows, keys, NewRows(rows, keys, ords, compute)) == UpdatedRows(rows, match_, ords, compute)
  {
    var news := NewRows(rows, keys, ords, compute);
    var after := Replaced(rows, keys, news);
    ReplacedIs(rows, keys, news);
    forall pk ensures pk in after <==> pk in rows {
      if i :| 0 <= i < |keys| && keys[i] == pk { assert Computes(rows, keys[i], ords, compute); }
    }
    forall pk | pk in rows ensures after[pk] == UpdatedRows(rows, match_, ords, compute)[pk] {
      if i :| 0 <= i < |keys| && keys[i] == pk { assert Computes(rows, keys[i], ords, compute) && keys[i] in keys; }
    }
  }

  lemma SelectedRemoved(def: TableDef, rows: map<Uuid, Row>, match_: Row -> bool, keys: seq<Uuid>)
    requires Selects(def, rows, match_, keys)
    ensures rows - Members(keys) == UnmatchedRows(rows, match_)
  {}

  // ---- candidate lists ----

  /** The candidates that are live and match, in list order. */
  function Hits(rows: map<Uuid, Row>, cands: seq<Uuid>, match_: Row -> bool): seq<Uuid> {
    if cands == [] then []
    else
      Hits(rows, cands[..|cands| - 1], match_) +
      if cands[|cands| - 1] in rows && match_(rows[cands[|cands| - 1]]) then [cands[|cands| - 1]] else []
  }

  lemma HitsSnoc(rows: map<Uuid, Row>, cands: seq<Uuid>, match_: Row -> bool, k: nat)
    requires k < |cands|
    ensures var init := Hits(rows, cands[..k], match_);
            Hits(rows, cands[..k + 1], match_) == if cands[k] in rows && match_(rows[cands[k]]) then init + [cands[k]] else init
  {
    assert cands[..k + 1][..k] == cands[..k] && cands[..k + 1][k] == cands[k];
    assert Hits(rows, cands[..k], match_) + [] == Hits(rows, cands[..k], match_);
  }

  /** A matching row whose SET values cannot be computed. */
  predicate NoImage(rows: map<Uuid, Row>, pk: Uuid, match_: Row -> bool, compute: Row -> Option<Row>) {
    pk in rows && match_(rows[pk]) && compute(rows[pk]) == None
  }

  /** The first `k` candidates, gone through: none fails, and the hits have their images. */
  ghost predicate Considers(rows: map<Uuid, Row>, cands: seq<Uuid>, k: nat, pks: seq<Uuid>, news: seq<Row>, match_: Row -> bool, ords: seq<nat>, compute: Row -> Option<Row>) {
    && k <= |cands| && pks == Hits(rows, cands[..k], match_) && AllCompute(rows, pks, ords, compute) && news == NewRows(rows, pks, ords, compute)
    && forall j :: 0 <= j < k ==> !NoImage(rows, cands[j], match_, compute)
  }

  lemma ConsidersNext(rows: map<Uuid, Row>, cands: seq<Uuid>, k: nat, pks: seq<Uuid>, news: seq<Row>, match_: Row -> bool, ords: seq<nat>, compute: Row -> Option<Row>)
    requires Considers(rows, cands, k, pks, news, match_, ords, compute) && k < |cands|
    ensures !(cands[k] in rows && match_(rows[cands[k]])) ==> Considers(rows, cands, k + 1, pks, news, match_, ords, compute)
    ensures cands[k] in rows && match_(rows[cands[k]]) && Computes(rows, cands[k], ords, compute) ==>
              Considers(rows, cands, k + 1, pks + [cands[k]], news + [NewRow(rows, cands[k], ords, compute)], match_, ords, compute)
  {
    HitsSnoc(rows, cands, match_, k);
    if Computes(rows, cands[k], ords, compute) { CollectsNext(rows, pks, cands[k], ords, compute); }
  }

  lemma {:induction false} HitsDistinct(rows: map<Uuid, Row>, cands: seq<Uuid>, match_: Row -> bool)
    requires Distinct(cands)
    ensures var keys := Hits(rows, cands, match_);
            Distinct(keys) && forall pk :: pk in keys <==> pk in cands && pk in rows && match_(rows[pk])
  {
    if cands != [] {
      var n := |cands| - 1;
      HitsDistinct(rows, cands[..n], match_);
      assert cands == cands[..n] + [cands[n]];
      NoRepeatsConcat(Hits(rows, cands[..n], match_), if cands[n] in rows && match_(rows[cands[n]]) then [cands[n]] else []);
    }
  }

  /** Every matching row is a candidate. */
  ghost predicate Covers(rows: map<Uuid, Row>, cands: seq<Uuid>, match_: Row -> bool) {
    forall pk {:trigger pk in cands} {:trigger pk in rows} :: pk in rows && match_(rows[pk]) ==> pk in cands
  }

  /** When one candidate covers, it alone can match. */
  lemma LoneMatch(rows: map<Uuid, Row>, pk: Uuid, match_: Row -> bool)
    ensures Covers(rows, [pk], match_) ==>
              if pk in rows && match_(rows[pk]) then Matching(rows, match_) == {pk} && UnmatchedRows(rows, match_) == rows - {pk}
              else Matching(rows, match_) == {} && UnmatchedRows(rows, match_) == rows
  {
    if Covers(rows, [pk], match_) {
      forall q | q in Matching(rows, match_) ensures q == pk { assert q in [pk]; }
      forall q | q in rows && match_(rows[q]) ensures q == pk { assert q in Matching(rows, match_); }
    }
  }

  /** Setting the only matching row is updating every matching row. */
  lemma OneRowSet(t: MemTable, pk: Uuid, ord: nat, match_: Row -> bool, compute: Row -> Option<Row>)
    requires TableOk(t) && pk in t.rows && match_(t.rows[pk])
    requires compute(t.rows[pk]).Some? ==> SetFitsTable(t.def, [ord], compute(t.rows[pk]).value)
    ensures compute(t.rows[pk]).Some? && Covers(t.rows, [pk], match_) ==>
              var did := LiveAct(t, SetRow(pk, [ord], compute(t.rows[pk]).value));
              did.Some? ==> did.value.0.rows == UpdatedRows(t.rows, match_, [ord], compute)
  {
    if compute(t.rows[pk]).Some? && Covers(t.rows, [pk], match_) {
      assert Computes(t.rows, pk, [ord], compute);
      UpdateIsAct(t, t.rows, pk, [ord], compute);
      LoneMatch(t.rows, pk, match_);
      forall q | q in t.rows && match_(t.rows[q]) ensures q == pk { assert q in Matching(t.rows, match_); }
    }
  }

  /** Going through covering candidates selects what a full scan selects. */
  lemma CoveringCandidatesAreScan(lay: Layout, ss: seq<Shard>, cands: seq<Uuid>, match_: Row -> bool)
    requires ShardsOk(lay, ss) && ValidDef(lay.def) && Distinct(cands) && Covers(Contents(lay, ss), cands, match_)
    ensures var keys := Hits(Contents(lay, ss), cands, match_);
            && Distinct(keys) && Selects(lay.def, Contents(lay, ss), match_, keys)
            && forall pk :: pk in keys <==> pk in ScanKeys(lay.def, ss, match_)
  {
    HitsDistinct(Contents(lay, ss), cands, match_);
    ScanKeysAre(lay, ss, match_);
  }
}
