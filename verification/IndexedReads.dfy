/** Tying the index protocol to the reads built on it: in every reachable state an
    ordered walk over an index slice is the query it serves, and the merger meets
    the contract of the sorted-view fold it calls. */
module IndexedReads {
  import opened Wrappers
  import opened ByteStrings
  import opened Values
  import opened CompositeKeys
  import opened Expressions
  import opened Planner
  import opened IndexOrder
  import SecIndexes
  import opened OrderedWalks
  import opened OrderedWalkExec
  import O = IndexOverlay

  /** The index object is in this state of the protocol. */
  ghost predicate StandsFor(si: SecIndexes.SecIndex, ix: O.IndexState)
    reads si
  {
    si.Valid() && si.rev == ix.rev && si.View == ix.view
  }

  /** One index's turn in the merge loop: the protocol's apply, and its note of what moved. */
  method ApplyOne(si: SecIndexes.SecIndex, ghost ix: O.IndexState, pk: Uuid, key: Option<IndexKey>, moved: seq<Uuid>) returns (moved': seq<Uuid>)
    requires StandsFor(si, ix) && (key.Some? ==> key.value.Kind() == si.kind)
    modifies si
    ensures var ix' := O.ApplyKey(ix, si.ordered, pk, key);
            StandsFor(si, ix') && moved' == if si.ordered && ix'.rev != ix.rev then moved + [pk] else moved
  {
    var changed := si.Apply(pk, key);
    moved' := if changed && si.ordered then moved + [pk] else moved;
  }

  /** One index's turn in the fold: the sorted view catches up with the reverse map. */
  method FoldOne(si: SecIndexes.SecIndex, ghost ix: O.IndexState, moved: seq<Uuid>)
    requires StandsFor(si, ix)
    requires si.ordered ==> forall pk :: pk !in moved ==> O.Find(ix.view, pk) == O.Find(ix.rev, pk)
    modifies si
    ensures StandsFor(si, if si.ordered && moved != [] then ix.(view := ix.rev) else ix)
  {
    if si.ordered && moved != [] { si.MergeSorted(moved); }
  }

  /** When the merger folds ordered index k, only the listed keys differ between the
      reverse map and the sorted view: the fold's precondition. */
  lemma FoldMeetsItsContract(t: O.Table, s: O.State)
    requires O.ValidTable(t) && O.Inv(t, s) && s.merger.Folding? && s.merger.k < |t.indexes|
    ensures forall pk :: pk !in s.merger.changed[s.merger.k] ==>
              O.Find(s.idx[s.merger.k].view, pk) == O.Find(s.idx[s.merger.k].rev, pk)
  {
    forall pk | pk !in s.merger.changed[s.merger.k]
      ensures O.Find(s.idx[s.merger.k].view, pk) == O.Find(s.idx[s.merger.k].rev, pk)
    {
      assert O.Good(t, s, pk, s.merger.k);
    }
  }

  /** `dirtyPKs` as a list. */
  ghost predicate ListsOverlay(t: O.Table, s: O.State, dirty: seq<Uuid>)
    requires O.ValidTable(t) && O.Shaped(t, s)
  {
    forall pk {:trigger pk in dirty} :: pk in dirty <==> O.Overlay(t, s, pk)
  }

  lemma ViewInOrder(snap: seq<OrdEntry>, view: map<Uuid, IndexKey>, kind: Kind)
    requires SortedView(snap, view) && OneKind(snap, kind)
    ensures EntriesInOrder(snap, kind, false)
    ensures forall pk :: pk in view ==> Has(snap, pk)
  {
    IncreasingInOrder(snap, kind);
    forall i, j | 0 <= i < j < |snap| ensures snap[i].pk != snap[j].pk {
      assert snap[i] in snap && snap[j] in snap && EntryLess(snap[i], snap[j]);
      EntryLessTotal(snap[i], snap[i]);
    }
    forall pk | pk in view ensures Has(snap, pk) {
      assert Holds(view, OrdEntry(view[pk], pk));
    }
  }

  lemma SubSliceInOrder(snap: seq<OrdEntry>, kind: Kind, lo: nat, hi: nat)
    requires EntriesInOrder(snap, kind, false) && lo <= hi <= |snap|
    ensures EntriesInOrder(snap[lo..hi], kind, false)
  {}

  /** The sort key of a single-column walk. */
  function ColumnKey(ord: nat): Row -> IndexKey {
    (r: Row) => if ord < |r| then KeyOf(r[ord]) else NullKey
  }

  function WherePred(where: Expr, args: seq<Value>): Row -> bool {
    (r: Row) => BoundWithin(where, |r|) && Matches(where, r, args)
  }

  /** Every live cell of the ordered column is present and of the column's kind:
      what NOT NULL and validation on write guarantee. */
  ghost predicate ColumnTyped(rows: map<Uuid, Row>, width: nat, ord: nat, kind: Kind) {
    ord < width && kind != KindNull && forall pk :: pk in rows ==> |rows[pk]| == width && rows[pk][ord].Kind() == kind
  }

  /** A single-column walk: whatever the interleaving, the clipped slice and the
      overlay hold exactly what ORDER BY on a NOT NULL column needs. */
  lemma SingleColumnWalkIsReady(t: O.Table, s: O.State, k: nat, ord: nat, kind: Kind, where: Expr, args: seq<Value>, desc: bool,
                                snap: seq<OrdEntry>, lo: nat, hi: nat, dirty: seq<Uuid>)
    requires O.ValidTable(t) && O.Inv(t, s) && k < |t.indexes| && t.indexes[k] == O.IndexDef([ord], true)
    requires ColumnTyped(s.rows, t.width, ord, kind) && BoundWithin(where, t.width)
    requires SortedView(snap, s.idx[k].view) && OneKind(snap, kind) && lo <= hi <= |snap|
    requires forall i :: 0 <= i < |snap| && !(lo <= i < hi) ==> Excluded(snap[i], ord, where, args)
    requires ListsOverlay(t, s, dirty)
    ensures SliceReady(Query(s.rows, WherePred(where, args), ColumnKey(ord), kind, desc), WherePred(where, args), snap[lo..hi], dirty)
  {
    var q := Query(s.rows, WherePred(where, args), ColumnKey(ord), kind, desc);
    ViewInOrder(snap, s.idx[k].view, kind);
    SubSliceInOrder(snap, kind, lo, hi);
    var part := snap[lo..hi];
    forall pk | pk in s.rows ensures q.keyFn(s.rows[pk]).Kind() == kind {
      KeyOfInjective(s.rows[pk][ord], s.rows[pk][ord]);
    }
    forall i | 0 <= i < |part| && part[i].pk !in dirty && part[i].pk in q.rows
      ensures KeyAt(q, part[i].pk) == part[i].key
    {
      assert part[i] == snap[lo + i] && snap[lo + i] in snap && Holds(s.idx[k].view, part[i]);
      CleanKey(t, s, k, ord, part[i].pk);
    }
    forall pk | Qualifies(q, pk) && pk !in dirty ensures Has(part, pk) {
      CleanKey(t, s, k, ord, pk);
      assert pk in s.idx[k].view;
      var i :| 0 <= i < |snap| && snap[i].pk == pk;
      assert snap[i] in snap && Holds(s.idx[k].view, snap[i]);
      assert lo <= i < hi;
      assert part[i - lo].pk == pk;
    }
  }

  /** A clean live row's entry in a single-column index is its cell's key. */
  lemma CleanKey(t: O.Table, s: O.State, k: nat, ord: nat, pk: Uuid)
    requires O.ValidTable(t) && O.Inv(t, s) && k < |t.indexes| && t.indexes[k] == O.IndexDef([ord], true)
    requires pk in s.rows && ord < |s.rows[pk]| && !s.rows[pk][ord].Null? && !O.Overlay(t, s, pk)
    ensures pk in s.idx[k].view && s.idx[k].view[pk] == KeyOf(s.rows[pk][ord])
  {
    O.CleanRowIsIndexed(t, s, pk, k);
    O.EqualityProbe(ord, s.rows[pk], s.rows[pk][ord]);
  }

  // ---- composite prefix walks ----

  /** The encoded tuple of a row's indexed cells. */
  function TupleKey(ords: seq<nat>): Row -> IndexKey {
    (r: Row) => if O.Fits(ords, r) then BytesKey(EncodeTuple(Cells(ords, r))) else NullKey
  }

  function Cells(ords: seq<nat>, r: Row): seq<Value>
    requires O.Fits(ords, r)
  {
    seq(|ords|, i requires 0 <= i < |ords| => r[ords[i]])
  }

  ghost predicate TupleTyped(rows: map<Uuid, Row>, width: nat, ords: seq<nat>, kinds: seq<Kind>) {
    && |kinds| == |ords|
    && (forall i :: 0 <= i < |ords| ==> ords[i] < width && kinds[i] != KindNull)
    && forall pk :: pk in rows ==> |rows[pk]| == width && forall i :: 0 <= i < |ords| ==> rows[pk][ords[i]].Kind() == kinds[i]
  }

  /** The WHERE pins the first |vals| indexed columns to `vals`, and `residual` is
      the rest of it, as the planner leaves it. */
  ghost predicate PinsPrefix(where: Expr, args: seq<Value>, ords: seq<nat>, vals: seq<Value>) {
    && 0 < |vals| <= |ords|
    && (forall i :: 0 <= i < |vals| ==>
          ords[i] in EqConjuncts(where) && ResolveOperand(EqConjuncts(where)[ords[i]], args) == Some(vals[i]))
  }

  function ResidualPred(where: Expr, args: seq<Value>, prefix: set<nat>): Row -> bool {
    (r: Row) =>
      var rest := Residual(Conjuncts(where), EqConjuncts(where), prefix);
      forall i :: 0 <= i < |rest| ==> BoundWithin(rest[i], |r|) && RowMatches(rest[i], r, args)
  }

  ghost function PrefixSet(ords: seq<nat>, n: nat): set<nat>
    requires n <= |ords|
  {
    set i | 0 <= i < n :: ords[i]
  }

  /** What a composite walk runs against: an ordered index over typed columns, a WHERE
      that pins its leading columns, and the run of entries under the pinned prefix. */
  ghost predicate CompositeWalk(t: O.Table, s: O.State, k: nat, kinds: seq<Kind>, where: Expr, args: seq<Value>, vals: seq<Value>,
                                snap: seq<OrdEntry>, lo: nat, hi: nat) {
    && O.ValidTable(t) && O.Inv(t, s) && k < |t.indexes| && t.indexes[k].ordered && |t.indexes[k].ords| > 1
    && TupleTyped(s.rows, t.width, t.indexes[k].ords, kinds) && BoundWithin(where, t.width)
    && PinsPrefix(where, args, t.indexes[k].ords, vals) && (forall i :: 0 <= i < |vals| ==> vals[i].Kind() == kinds[i])
    && SortedView(snap, s.idx[k].view) && OneKind(snap, KindBytes) && lo <= hi <= |snap|
    && PrefixRun(snap, lo, hi, EncodeTuple(vals))
  }

  ghost predicate PrefixRun(snap: seq<OrdEntry>, lo: nat, hi: nat, prefix: Bytes)
    requires OneKind(snap, KindBytes) && lo <= hi <= |snap|
  {
    forall i :: 0 <= i < |snap| ==> (lo <= i < hi <==> prefix <= snap[i].key.s)
  }

  function CompositeQuery(t: O.Table, s: O.State, k: nat, where: Expr, args: seq<Value>, desc: bool): Query
    requires k < |t.indexes|
  {
    Query(s.rows, WherePred(where, args), TupleKey(t.indexes[k].ords), KindBytes, desc)
  }

  /** A composite walk: the prefix run of the sorted index, re-checking only the
      residual conjuncts, is ready for ORDER BY on the next column. */
  lemma CompositeWalkIsReady(t: O.Table, s: O.State, k: nat, kinds: seq<Kind>, where: Expr, args: seq<Value>, vals: seq<Value>, desc: bool,
                             snap: seq<OrdEntry>, lo: nat, hi: nat, dirty: seq<Uuid>)
    requires CompositeWalk(t, s, k, kinds, where, args, vals, snap, lo, hi)
    requires ListsOverlay(t, s, dirty)
    ensures SliceReady(CompositeQuery(t, s, k, where, args, desc), ResidualPred(where, args, PrefixSet(t.indexes[k].ords, |vals|)),
                       snap[lo..hi], dirty)
  {
    var q := CompositeQuery(t, s, k, where, args, desc);
    RunInOrder(t, s, k, kinds, where, args, vals, desc, snap, lo, hi);
    var part, residual := snap[lo..hi], ResidualPred(where, args, PrefixSet(t.indexes[k].ords, |vals|));
    forall i | 0 <= i < |part| && part[i].pk !in dirty && part[i].pk in q.rows
      ensures EntryIsCurrent(q, residual, part[i])
    {
      RunEntryIsCurrent(t, s, k, kinds, where, args, vals, desc, snap, lo, hi, dirty, i);
    }
    forall pk | Qualifies(q, pk) && pk !in dirty ensures Has(part, pk) {
      RunHoldsRow(t, s, k, kinds, where, args, vals, desc, snap, lo, hi, dirty, pk);
    }
  }

  /** The entry carries its live row's sort key, and the residual decides its WHERE. */
  ghost predicate EntryIsCurrent(q: Query, residual: Row -> bool, e: OrdEntry)
    requires e.pk in q.rows
  {
    KeyAt(q, e.pk) == e.key && (residual(q.rows[e.pk]) <==> Qualifies(q, e.pk))
  }

  lemma TupleKeysOfKind(rows: map<Uuid, Row>, width: nat, ords: seq<nat>, kinds: seq<Kind>, pk: Uuid)
    requires TupleTyped(rows, width, ords, kinds) && pk in rows
    ensures TupleKey(ords)(rows[pk]).Kind() == KindBytes
  {
    assert |rows[pk]| == width;
    assert O.Fits(ords, rows[pk]);
  }

  /** The run is in order, and so are the keys the query sorts by. */
  lemma RunInOrder(t: O.Table, s: O.State, k: nat, kinds: seq<Kind>, where: Expr, args: seq<Value>, vals: seq<Value>, desc: bool,
                   snap: seq<OrdEntry>, lo: nat, hi: nat)
    requires CompositeWalk(t, s, k, kinds, where, args, vals, snap, lo, hi)
    ensures ValidQuery(CompositeQuery(t, s, k, where, args, desc)) && EntriesInOrder(snap[lo..hi], KindBytes, false)
  {
    var q := CompositeQuery(t, s, k, where, args, desc);
    forall pk | pk in q.rows ensures q.keyFn(q.rows[pk]).Kind() == q.kind {
      TupleKeysOfKind(s.rows, t.width, t.indexes[k].ords, kinds, pk);
    }
    ViewInOrder(snap, s.idx[k].view, KindBytes);
    SubSliceInOrder(snap, KindBytes, lo, hi);
  }

  /** An entry of the run whose row is live and clean carries that row's key, and the
      residual decides the row's WHERE. */
  lemma RunEntryIsCurrent(t: O.Table, s: O.State, k: nat, kinds: seq<Kind>, where: Expr, args: seq<Value>, vals: seq<Value>, desc: bool,
                          snap: seq<OrdEntry>, lo: nat, hi: nat, dirty: seq<Uuid>, i: nat)
    requires CompositeWalk(t, s, k, kinds, where, args, vals, snap, lo, hi) && ListsOverlay(t, s, dirty)
    requires i < hi - lo && snap[lo..hi][i].pk in s.rows && snap[lo..hi][i].pk !in dirty
    ensures EntryIsCurrent(CompositeQuery(t, s, k, where, args, desc), ResidualPred(where, args, PrefixSet(t.indexes[k].ords, |vals|)),
                           snap[lo..hi][i])
  {
    var e := snap[lo..hi][i];
    assert e == snap[lo + i] && e in snap && Holds(s.idx[k].view, e);
    assert !O.Overlay(t, s, e.pk);
    CleanTuple(t, s, k, kinds, e.pk);
    PinnedRow(s.rows[e.pk], t.indexes[k].ords, kinds, where, args, vals);
  }

  /** A clean row that satisfies the WHERE has its entry in the run. */
  lemma RunHoldsRow(t: O.Table, s: O.State, k: nat, kinds: seq<Kind>, where: Expr, args: seq<Value>, vals: seq<Value>, desc: bool,
                    snap: seq<OrdEntry>, lo: nat, hi: nat, dirty: seq<Uuid>, pk: Uuid)
    requires CompositeWalk(t, s, k, kinds, where, args, vals, snap, lo, hi) && ListsOverlay(t, s, dirty)
    requires Qualifies(CompositeQuery(t, s, k, where, args, desc), pk) && pk !in dirty
    ensures Has(snap[lo..hi], pk)
  {
    CleanTuple(t, s, k, kinds, pk);
    PinnedRow(s.rows[pk], t.indexes[k].ords, kinds, where, args, vals);
    ViewInOrder(snap, s.idx[k].view, KindBytes);
    var i :| 0 <= i < |snap| && snap[i].pk == pk;
    assert snap[i] in snap && Holds(s.idx[k].view, snap[i]);
    assert lo <= i < hi;
    assert snap[lo..hi][i - lo].pk == pk;
  }

  lemma CleanTuple(t: O.Table, s: O.State, k: nat, kinds: seq<Kind>, pk: Uuid)
    requires O.ValidTable(t) && O.Inv(t, s) && k < |t.indexes| && |t.indexes[k].ords| > 1
    requires TupleTyped(s.rows, t.width, t.indexes[k].ords, kinds)
    requires pk in s.rows && !O.Overlay(t, s, pk)
    ensures pk in s.idx[k].view && s.idx[k].view[pk] == TupleKey(t.indexes[k].ords)(s.rows[pk])
  {
    O.CleanRowIsIndexed(t, s, pk, k);
    var ords, row := t.indexes[k].ords, s.rows[pk];
    var cells := Cells(ords, row);
    forall i | 0 <= i < |cells| ensures !cells[i].Null? { assert row[ords[i]].Kind() == kinds[i]; }
    assert RowKey(ords, row) == KeyFromCells(cells);
  }

  /** For a typed row, the prefix run holds it exactly when it has the pinned cells,
      and then the residual decides the WHERE. */
  lemma PinnedRow(row: Row, ords: seq<nat>, kinds: seq<Kind>, where: Expr, args: seq<Value>, vals: seq<Value>)
    requires O.Fits(ords, row) && |ords| > 1 && |kinds| == |ords| && BoundWithin(where, |row|)
    requires forall i :: 0 <= i < |ords| ==> row[ords[i]].Kind() == kinds[i] != KindNull
    requires PinsPrefix(where, args, ords, vals) && forall i :: 0 <= i < |vals| ==> vals[i].Kind() == kinds[i]
    ensures Matches(where, row, args) ==> EncodeTuple(vals) <= TupleKey(ords)(row).s
    ensures EncodeTuple(vals) <= TupleKey(ords)(row).s ==>
              (ResidualPred(where, args, PrefixSet(ords, |vals|))(row) <==> Matches(where, row, args))
  {
    var prefix := PrefixSet(ords, |vals|);
    var cells := Cells(ords, row);
    PrefixMeansLeadingColumnsEqual(vals, cells);
    PrefixAndResidualAreWhere(where, prefix, row, args);
    var pinned := forall ord :: ord in prefix ==> Pinned(row, ord, EqConjuncts(where)[ord], args);
    if pinned {
      forall i | 0 <= i < |vals| ensures vals[i] == cells[i] {
        assert ords[i] in prefix;
      }
      assert vals == cells[..|vals|];
    }
    if vals == cells[..|vals|] {
      forall ord | ord in prefix ensures Pinned(row, ord, EqConjuncts(where)[ord], args) {
        var i :| 0 <= i < |vals| && ords[i] == ord;
        assert cells[..|vals|][i] == vals[i];
      }
    }
  }

  // ---- ORDER BY on the next column ----

  /** Two rows that hold the pinned prefix compare by tuple as they do by the next column. */
  lemma NextColumnInOrder(ords: seq<nat>, kinds: seq<Kind>, a: Row, b: Row, k: nat, desc: bool)
    requires O.Fits(ords, a) && O.Fits(ords, b) && |kinds| == |ords| && k < |ords|
    requires forall i :: 0 <= i < |ords| ==> a[ords[i]].Kind() == b[ords[i]].Kind() == kinds[i] != KindNull
    requires forall i :: 0 <= i < k ==> a[ords[i]] == b[ords[i]]
    requires !Before(TupleKey(ords)(b), TupleKey(ords)(a), desc)
    ensures !Before(KeyOf(b[ords[k]]), KeyOf(a[ords[k]]), desc)
  {
    NextCellInOrder(Cells(ords, a), Cells(ords, b), k, desc);
  }

  lemma NextCellInOrder(x: seq<Value>, y: seq<Value>, k: nat, desc: bool)
    requires SameSchema(x, y) && k < |x| && forall i :: 0 <= i < k ==> x[i] == y[i]
    requires !Before(BytesKey(EncodeTuple(y)), BytesKey(EncodeTuple(x)), desc)
    ensures !Before(KeyOf(y[k]), KeyOf(x[k]), desc)
  {
    if desc { NextCellAscending(y, x, k); } else { NextCellAscending(x, y, k); }
  }

  lemma NextCellAscending(x: seq<Value>, y: seq<Value>, k: nat)
    requires SameSchema(x, y) && k < |x| && forall i :: 0 <= i < k ==> x[i] == y[i]
    requires !KeyLess(BytesKey(EncodeTuple(y)), BytesKey(EncodeTuple(x)))
    ensures !KeyLess(KeyOf(y[k]), KeyOf(x[k]))
  {
    EncodingIsOrderEmbedding(y, x);
    assert !TupleLess(y, x);
    assert y[..k] == x[..k];
    var c, d := y[k], x[k];
    KeyOrderIsValueOrder(c, d);
    if KeyLess(KeyOf(c), KeyOf(d)) { NextColumnDecides(y, x, k); }
  }

  /** What a composite walk lists by encoded tuple is listed by the first unpinned column:
      the walk serves ORDER BY on that column. */
  lemma CompositeWalkServesNextColumn(t: O.Table, s: O.State, k: nat, kinds: seq<Kind>, where: Expr, args: seq<Value>, vals: seq<Value>, desc: bool,
                                      pks: seq<Uuid>)
    requires O.ValidTable(t) && k < |t.indexes| && TupleTyped(s.rows, t.width, t.indexes[k].ords, kinds) && BoundWithin(where, t.width)
    requires PinsPrefix(where, args, t.indexes[k].ords, vals) && |vals| < |t.indexes[k].ords|
    requires Listing(CompositeQuery(t, s, k, where, args, desc), pks)
    ensures Listing(Query(s.rows, WherePred(where, args), ColumnKey(t.indexes[k].ords[|vals|]), kinds[|vals|], desc), pks)
  {
    var ords := t.indexes[k].ords;
    var q, c := CompositeQuery(t, s, k, where, args, desc), Query(s.rows, WherePred(where, args), ColumnKey(ords[|vals|]), kinds[|vals|], desc);
    forall pk ensures pk in pks <==> Qualifies(c, pk) { assert pk in pks <==> Qualifies(q, pk); }
    forall i, j | 0 <= i < j < |pks| ensures !Before(Keys(c, pks)[j], Keys(c, pks)[i], desc) {
      assert pks[i] in pks && pks[j] in pks;
      assert !Before(Keys(q, pks)[j], Keys(q, pks)[i], desc);
      var a, b := s.rows[pks[i]], s.rows[pks[j]];
      forall m | 0 <= m < |vals| ensures a[ords[m]] == b[ords[m]] {
        MatchImpliesPins(where, a, args, ords[m]);
        MatchImpliesPins(where, b, args, ords[m]);
      }
      NextColumnInOrder(ords, kinds, a, b, |vals|, desc);
    }
  }

  // ---- walks whose filter is a list of conjuncts ----

  /** The whole sorted view of a NOT NULL column serves any filter the walk evaluates
      itself. */
  lemma WholeColumnIsReady(t: O.Table, s: O.State, k: nat, ord: nat, kind: Kind, where: Row -> bool, desc: bool,
                           snap: seq<OrdEntry>, dirty: seq<Uuid>)
    requires O.ValidTable(t) && O.Inv(t, s) && k < |t.indexes| && t.indexes[k] == O.IndexDef([ord], true)
    requires ColumnTyped(s.rows, t.width, ord, kind) && SortedView(snap, s.idx[k].view) && OneKind(snap, kind)
    requires ListsOverlay(t, s, dirty)
    ensures SliceReady(Query(s.rows, where, ColumnKey(ord), kind, desc), where, snap, dirty)
  {
    var q := Query(s.rows, where, ColumnKey(ord), kind, desc);
    ViewInOrder(snap, s.idx[k].view, kind);
    forall pk | pk in s.rows ensures q.keyFn(s.rows[pk]).Kind() == kind {
      KeyOfInjective(s.rows[pk][ord], s.rows[pk][ord]);
    }
    forall i | 0 <= i < |snap| && snap[i].pk !in dirty && snap[i].pk in q.rows ensures KeyAt(q, snap[i].pk) == snap[i].key {
      assert snap[i] in snap && Holds(s.idx[k].view, snap[i]);
      CleanKey(t, s, k, ord, snap[i].pk);
    }
    forall pk | Qualifies(q, pk) && pk !in dirty ensures Has(snap, pk) {
      CleanKey(t, s, k, ord, pk);
      assert pk in s.idx[k].view;
    }
  }

  /** A clean live row is in the sorted view of a column exactly when its cell is not
      NULL: a walk over a nullable column misses the others. */
  lemma CleanRowIsWalkedIffNotNull(t: O.Table, s: O.State, k: nat, ord: nat, snap: seq<OrdEntry>, pk: Uuid)
    requires O.ValidTable(t) && O.Inv(t, s) && k < |t.indexes| && t.indexes[k].ords == [ord]
    requires SortedView(snap, s.idx[k].view) && pk in s.rows && ord < |s.rows[pk]| && !O.Overlay(t, s, pk)
    ensures Has(snap, pk) <==> !s.rows[pk][ord].Null?
  {
    O.CleanRowIsIndexed(t, s, pk, k);
    assert seq(1, i requires 0 <= i < 1 => s.rows[pk][[ord][i]]) == [s.rows[pk][ord]];
    if pk in s.idx[k].view {
      assert Holds(s.idx[k].view, OrdEntry(s.idx[k].view[pk], pk));
    }
    if Has(snap, pk) {
      var i :| 0 <= i < |snap| && snap[i].pk == pk;
      assert snap[i] in snap && Holds(s.idx[k].view, snap[i]);
    }
  }

  /** The row holds the pinned values of an index's leading columns. */
  predicate HoldsPrefix(ords: seq<nat>, vals: seq<Value>, r: Row) {
    |vals| <= |ords| && forall i :: 0 <= i < |vals| ==> ords[i] < |r| && r[ords[i]] == vals[i]
  }

  /** The run of a composite index under a pinned prefix, when each delivered entry is
      checked by `pass`: ready for any filter that, on rows outside the overlay, is the
      prefix and `pass` together. */
  lemma PrefixRunIsReady(t: O.Table, s: O.State, k: nat, kinds: seq<Kind>, vals: seq<Value>, where: Row -> bool, pass: Row -> bool, desc: bool,
                         snap: seq<OrdEntry>, lo: nat, hi: nat, dirty: seq<Uuid>)
    requires O.ValidTable(t) && O.Inv(t, s) && k < |t.indexes| && t.indexes[k].ordered && |t.indexes[k].ords| > 1
    requires TupleTyped(s.rows, t.width, t.indexes[k].ords, kinds)
    requires 0 < |vals| <= |t.indexes[k].ords| && forall i :: 0 <= i < |vals| ==> vals[i].Kind() == kinds[i]
    requires SortedView(snap, s.idx[k].view) && OneKind(snap, KindBytes) && lo <= hi <= |snap| && PrefixRun(snap, lo, hi, EncodeTuple(vals))
    requires ListsOverlay(t, s, dirty)
    requires forall pk :: pk in s.rows && pk !in dirty ==>
               (where(s.rows[pk]) <==> HoldsPrefix(t.indexes[k].ords, vals, s.rows[pk]) && pass(s.rows[pk]))
    ensures SliceReady(Query(s.rows, where, TupleKey(t.indexes[k].ords), KindBytes, desc), pass, snap[lo..hi], dirty)
  {
    var ords, part := t.indexes[k].ords, snap[lo..hi];
    var q := Query(s.rows, where, TupleKey(ords), KindBytes, desc);
    forall pk | pk in q.rows ensures q.keyFn(q.rows[pk]).Kind() == q.kind { TupleKeysOfKind(s.rows, t.width, ords, kinds, pk); }
    ViewInOrder(snap, s.idx[k].view, KindBytes);
    SubSliceInOrder(snap, KindBytes, lo, hi);
    forall i | 0 <= i < |part| && part[i].pk !in dirty && part[i].pk in q.rows
      ensures KeyAt(q, part[i].pk) == part[i].key && (pass(q.rows[part[i].pk]) <==> Qualifies(q, part[i].pk))
    {
      assert part[i] == snap[lo + i] && part[i] in snap && Holds(s.idx[k].view, part[i]);
      CleanTuple(t, s, k, kinds, part[i].pk);
      PrefixIsHeld(ords, kinds, vals, s.rows[part[i].pk]);
    }
    forall pk | Qualifies(q, pk) && pk !in dirty ensures Has(part, pk) {
      CleanTuple(t, s, k, kinds, pk);
      PrefixIsHeld(ords, kinds, vals, s.rows[pk]);
      var i :| 0 <= i < |snap| && snap[i].pk == pk;
      assert snap[i] in snap && Holds(s.idx[k].view, snap[i]);
      assert lo <= i < hi;
      assert part[i - lo].pk == pk;
    }
  }

  lemma PrefixIsHeld(ords: seq<nat>, kinds: seq<Kind>, vals: seq<Value>, row: Row)
    requires O.Fits(ords, row) && |ords| > 1 && |kinds| == |ords| && 0 < |vals| <= |ords|
    requires forall i :: 0 <= i < |ords| ==> row[ords[i]].Kind() == kinds[i] != KindNull
    requires forall i :: 0 <= i < |vals| ==> vals[i].Kind() == kinds[i]
    ensures EncodeTuple(vals) <= TupleKey(ords)(row).s <==> HoldsPrefix(ords, vals, row)
  {
    RowKeyIsTuple(ords, row);
    O.PrefixProbe(ords, row, vals);
  }

  lemma RowKeyIsTuple(ords: seq<nat>, row: Row)
    requires O.Fits(ords, row) && |ords| > 1 && forall i :: 0 <= i < |ords| ==> !row[ords[i]].Null?
    ensures RowKey(ords, row) == Some(TupleKey(ords)(row))
  {
    var cells := Cells(ords, row);
    assert forall i :: 0 <= i < |cells| ==> cells[i] == row[ords[i]];
    assert RowKey(ords, row) == KeyFromCells(cells);
  }
}
