/** A single driver row ordered by a probe column: its matches are walked in order
    (join.go). */
module JoinProbeWalks {
  import opened Wrappers
  import opened Values
  import opened CompositeKeys
  import opened Expressions
  import opened IndexOrder
  import opened JoinPlans
  import opened Sides
  import opened JoinSpecs
  import opened JoinDrives
  import opened JoinRuns
  import opened JoinWalks
  import opened IndexedReads
  import W = OrderedWalks
  import E = OrderedWalkExec
  import T = TopNs

  /** The probe rows under one join key. */
  function KeyFilter(on: nat, key: Value): Row -> bool {
    (r: Row) => on < |r| && r[on].Equal(key)
  }

  function AnyRow(): Row -> bool {
    (r: Row) => true
  }

  function ProbeQuery(q: Query, p: Plan, prb: Side, k: nat, key: Value): W.Query
    requires k < |prb.t.indexes|
  {
    W.Query(prb.s.rows, KeyFilter(ProbeOn(p), key), TupleKey(prb.t.indexes[k].ords), KindBytes, q.sh.desc)
  }

  /** The run of the (join column, ORDER BY column) index under the join key, and the
      overlay rows with that key: the key's rows in order. */
  method ProbeStreams(q: Query, p: Plan, prb: Side, k: nat, key: Value, dirty: seq<Uuid>)
    returns (part: seq<OrdEntry>, cands: seq<OrdEntry>, shadow: set<Uuid>, ghost walk: seq<Uuid>)
    requires ValidSide(prb) && Live(prb) && ListsOverlay(prb.t, prb.s, dirty) && ProbeOn(p) < prb.info.width
    requires ProbeOff(p) <= q.sh.ord && ProbeWalkIndex(prb.info, ProbeOn(p), q.sh.ord - ProbeOff(p), k)
    requires key.Kind() == prb.kinds[ProbeOn(p)]
    ensures walk == W.Walk(ProbeQuery(q, p, prb, k, key), AnyRow(), W.Directed(part, q.sh.desc), W.Directed(cands, q.sh.desc), shadow)
    ensures W.Listing(ProbeQuery(q, p, prb, k, key), walk)
  {
    var ords, si := prb.t.indexes[k].ords, prb.idx[k];
    assert IndexMatches(prb, k);
    NotNullTuple(prb, k);
    var prefix := EncodeCompositeKey([key]);
    var lo, hi := si.SnapshotPrefix(prefix);
    part := si.sorted[lo..hi];
    ghost var wq := ProbeQuery(q, p, prb, k, key);
    forall pk | pk in prb.s.rows ensures wq.where(prb.s.rows[pk]) <==> HoldsPrefix(ords, [key], prb.s.rows[pk]) {
      EqualIsIdentity(prb.s.rows[pk][ProbeOn(p)], key);
      assert [key][0] == key;
    }
    PrefixRunIsReady(prb.t, prb.s, k, KindsAt(prb, ords), [key], wq.where, AnyRow(), q.sh.desc, si.sorted, lo, hi, dirty);
    cands, shadow := E.BuildDirtyCands(ProbeQuery(q, p, prb, k, key), dirty);
    E.SliceWalkIsListing(wq, AnyRow(), part, dirty, cands, shadow);
    walk := W.Walk(wq, AnyRow(), W.Directed(part, q.sh.desc), W.Directed(cands, q.sh.desc), shadow);
  }

  lemma KeptNext(q: Query, p: Plan, pk: Uuid, walk: seq<Uuid>, n: nat)
    requires n < |walk|
    ensures var pair := PairOf(p, pk, Some(walk[n]));
            Kept(q, p, pk, walk[..n + 1]) == if PassResidual(q, p, Concat(q, pair)) then Kept(q, p, pk, walk[..n]) + [pair] else Kept(q, p, pk, walk[..n])
  {
    assert walk[..n + 1][..n] == walk[..n];
    assert Kept(q, p, pk, walk[..n]) + [] == Kept(q, p, pk, walk[..n]);
  }

  /** The merge stands at `ii` and `dj`, `n` keys into the walk, their matches kept. */
  ghost predicate WalkedTo(q: Query, p: Plan, pk: Uuid, wq: W.Query, snap: seq<OrdEntry>, cands: seq<OrdEntry>, shadow: set<Uuid>,
                           ii: int, dj: int, walk: seq<Uuid>, n: nat, out: seq<Pair>) {
    MergedTo(wq, AnyRow(), snap, cands, shadow, ii, dj, walk, n) && out == Kept(q, p, pk, walk[..n])
  }

  /** One key further. */
  method WalkStep(q: Query, p: Plan, pk: Uuid, wq: W.Query, snap: seq<OrdEntry>, cands: seq<OrdEntry>, shadow: set<Uuid>,
                  ii: int, dj: int, ghost walk: seq<Uuid>, ghost n: nat, out: seq<Pair>)
    returns (i: int, j: int, ghost n': nat, out': seq<Pair>, over: bool)
    requires WalkedTo(q, p, pk, wq, snap, cands, shadow, ii, dj, walk, n, out)
    ensures over ==> n == |walk|
    ensures !over ==>
              && WalkedTo(q, p, pk, wq, snap, cands, shadow, i, j, walk, n', out') && |out'| <= |out| + 1
              && |E.Rest(snap, i, wq.desc)| + |E.Rest(cands, j, wq.desc)| < |E.Rest(snap, ii, wq.desc)| + |E.Rest(cands, dj, wq.desc)|
  {
    var next;
    n', out' := n, out;
    i, j, next, over := NextDriver(wq, AnyRow(), snap, cands, shadow, ii, dj, walk, n);
    if !over && next.Some? {
      KeptNext(q, p, pk, walk, n);
      var pair := PairOf(p, pk, Some(next.value));
      if PassResidual(q, p, Concat(q, pair)) { out' := out + [pair]; }
      n' := n + 1;
    }
  }

  /** One driver row's matches, assembled as the merge delivers them, until `eff` are kept. */
  method WalkProbe(q: Query, p: Plan, pk: Uuid, wq: W.Query, snap: seq<OrdEntry>, cands: seq<OrdEntry>, shadow: set<Uuid>, eff: int, ghost walk: seq<Uuid>)
    returns (out: seq<Pair>)
    requires walk == W.Walk(wq, AnyRow(), W.Directed(snap, wq.desc), W.Directed(cands, wq.desc), shadow)
    ensures out == Taken(Kept(q, p, pk, walk), eff)
  {
    var ii, dj := E.Start(snap, wq.desc), E.Start(cands, wq.desc);
    out := [];
    ghost var n: nat := 0;
    assert walk[..0] == [];
    while !Full(out, eff)
      invariant WalkedTo(q, p, pk, wq, snap, cands, shadow, ii, dj, walk, n, out) && (eff >= 0 ==> |out| <= eff)
      decreases |E.Rest(snap, ii, wq.desc)| + |E.Rest(cands, dj, wq.desc)|
    {
      var i, j, out', over;
      ghost var n';
      i, j, n', out', over := WalkStep(q, p, pk, wq, snap, cands, shadow, ii, dj, walk, n, out);
      if over { break; }
      ii, dj, n, out := i, j, n', out';
    }
    KeptGrows(q, p, pk, walk, n);
    if n == |walk| { assert walk[..n] == walk; }
  }

  /** Matches kept from an ordered walk are in order. */
  lemma {:induction false} KeptInOrder(q: Query, p: Plan, prb: Side, pk: Uuid, walk: seq<Uuid>)
    requires ValidQuery(q) && PlanFor(q, p) && prb.s.rows == ProbeRowsOf(q, p) && prb.info.width == ProbeWidth(p)
    requires ProbeOff(p) <= q.sh.ord < ProbeOff(p) + ProbeWidth(p)
    requires forall i :: 0 <= i < |walk| ==> walk[i] in prb.s.rows
    requires forall i, j :: 0 <= i < j < |walk| ==> ProbeNotAfter(q, p, prb, walk[i], walk[j])
    ensures Ordered(q, Rows(q, Kept(q, p, pk, walk)))
    ensures forall i :: 0 <= i < |Kept(q, p, pk, walk)| ==> FromWalk(p, pk, walk, Kept(q, p, pk, walk)[i])
  {
    if walk != [] {
      var last := |walk| - 1;
      KeptInOrder(q, p, prb, pk, walk[..last]);
      var kept, init := Kept(q, p, pk, walk), Kept(q, p, pk, walk[..last]);
      forall i | 0 <= i < |kept| ensures FromWalk(p, pk, walk, kept[i]) {
        if i < |init| {
          var j :| 0 <= j < last && init[i] == PairOf(p, pk, Some(walk[..last][j]));
          assert walk[..last][j] == walk[j];
        } else {
          assert kept[i] == PairOf(p, pk, Some(walk[last]));
        }
      }
      if kept != init {
        forall i | 0 <= i < |init| ensures KeysNotAfter(q, init[i], kept[|init|]) {
          var a :| 0 <= a < last && init[i] == PairOf(p, pk, Some(walk[..last][a]));
          assert walk[..last][a] == walk[a];
          assert ProbeNotAfter(q, p, prb, walk[a], walk[last]);
          ProbeCell(q, p, prb, pk, walk[a]);
          ProbeCell(q, p, prb, pk, walk[last]);
        }
        SnocInOrder(q, init, kept[|init|]);
      }
    }
  }

  ghost predicate FromWalk(p: Plan, pk: Uuid, walk: seq<Uuid>, pair: Pair) {
    exists j :: 0 <= j < |walk| && pair == PairOf(p, pk, Some(walk[j]))
  }

  ghost predicate KeysNotAfter(q: Query, a: Pair, b: Pair)
    requires q.sh.ord < q.nLeft + q.nRight
  {
    !W.Before(KeyOf(Concat(q, b)[q.sh.ord]), KeyOf(Concat(q, a)[q.sh.ord]), q.sh.desc)
  }

  lemma SnocInOrder(q: Query, init: seq<Pair>, pair: Pair)
    requires q.sh.ord < q.nLeft + q.nRight && Ordered(q, Rows(q, init)) && forall i :: 0 <= i < |init| ==> KeysNotAfter(q, init[i], pair)
    ensures Ordered(q, Rows(q, init + [pair]))
  {
    var keys := T.RowKeys(q.sh, Rows(q, init + [pair]));
    assert keys == T.RowKeys(q.sh, Rows(q, init)) + [KeyOf(Concat(q, pair)[q.sh.ord])];
  }

  ghost predicate ProbeNotAfter(q: Query, p: Plan, prb: Side, a: Uuid, b: Uuid)
    requires ProbeOff(p) <= q.sh.ord
  {
    && a in prb.s.rows && b in prb.s.rows
    && var o := q.sh.ord - ProbeOff(p);
       o < |prb.s.rows[a]| && o < |prb.s.rows[b]| && !W.Before(KeyOf(prb.s.rows[b][o]), KeyOf(prb.s.rows[a][o]), q.sh.desc)
  }

  lemma ProbeCell(q: Query, p: Plan, prb: Side, pk: Uuid, x: Uuid)
    requires ValidQuery(q) && PlanFor(q, p) && prb.s.rows == ProbeRowsOf(q, p) && prb.info.width == ProbeWidth(p) && x in prb.s.rows
    requires ProbeOff(p) <= q.sh.ord < ProbeOff(p) + ProbeWidth(p)
    ensures Concat(q, PairOf(p, pk, Some(x)))[q.sh.ord] == prb.s.rows[x][q.sh.ord - ProbeOff(p)]
  {}

  /** An INNER join with a single driver row, ordered by a probe column behind the join
      column of a composite index: the key's rows come in order, and no sort is needed. */
  method ProbeWalk(q: Query, p: Plan, prb: Side, k: nat, pk: Uuid, dirty: seq<Uuid>, eff: int) returns (out: seq<Pair>, ghost all: seq<Pair>)
    requires ProbeReady(q, p, prb) && Live(prb) && ListsOverlay(prb.t, prb.s, dirty) && p.typ.InnerJoin? && pk in DriverRows(q, p)
    requires p.probeWalk == Some(k)
    requires ProbeOff(p) <= q.sh.ord < ProbeOff(p) + ProbeWidth(p) && ProbeWalkIndex(prb.info, ProbeOn(p), q.sh.ord - ProbeOff(p), k)
    ensures Complete(q, p, pk, all) && Ordered(q, Rows(q, all)) && out == Taken(all, eff)
  {
    var key := JoinCell(q, p, pk);
    if key.Null? {
      KeptIsComplete(q, p, pk, []);
      return [], [];
    }
    assert CellReady(p, prb, key);
    var part, cands, shadow;
    ghost var walk;
    part, cands, shadow, walk := ProbeStreams(q, p, prb, k, key, dirty);
    WalkMatches(q, p, prb, k, key, pk, walk);
    WalkInOrder(q, p, prb, k, key, walk);
    KeptIsComplete(q, p, pk, walk);
    all := Kept(q, p, pk, walk);
    assert all + [] == all;
    KeptInOrder(q, p, prb, pk, walk);
    out := WalkProbe(q, p, pk, ProbeQuery(q, p, prb, k, key), part, cands, shadow, eff, walk);
  }

  /** The whole yield of the only driver row is the join. */
  lemma SingleDriver(q: Query, p: Plan, conj: seq<Expr>, at: nat, drv: Side, prb: Side, pk: Uuid, all: seq<Pair>)
    requires Ready(q, p, conj, at, drv, prb) && PinsAgree(p, drv.info, conj, q.args) && DriverList(q, p, drv.info, [pk])
    requires Complete(q, p, pk, all)
    ensures Lists(q, all)
  {
    OrdsInRange(drv);
    DrainedNext(q, p, [], [], pk, all);
    assert [] + [pk] == [pk] && [] + all == all;
    DrainedLists(q, p, drv.info, conj, at, [pk], all);
  }

  /** The walk under the join key visits the driver row's partners. */
  lemma WalkMatches(q: Query, p: Plan, prb: Side, k: nat, key: Value, pk: Uuid, walk: seq<Uuid>)
    requires ProbeReady(q, p, prb) && pk in DriverRows(q, p) && key == JoinCell(q, p, pk) && !key.Null?
    requires k < |prb.t.indexes| && W.Listing(ProbeQuery(q, p, prb, k, key), walk)
    ensures forall x {:trigger x in walk} :: x in walk <==> OnPair(q, PairOf(p, pk, Some(x)))
    ensures forall x {:trigger x in walk} :: x in walk ==> x in prb.s.rows && prb.s.rows[x][ProbeOn(p)] == key
  {
    var wq := ProbeQuery(q, p, prb, k, key);
    forall x ensures x in walk <==> x in prb.s.rows && prb.s.rows[x][ProbeOn(p)] == key {
      assert x in walk <==> W.Qualifies(wq, x);
      if x in prb.s.rows { EqualIsIdentity(prb.s.rows[x][ProbeOn(p)], key); }
    }
    forall x ensures x in prb.s.rows && prb.s.rows[x][ProbeOn(p)] == key <==> OnPair(q, PairOf(p, pk, Some(x))) {
      KeyMatches(q, p, pk, x);
    }
  }

  lemma KeyMatches(q: Query, p: Plan, pk: Uuid, x: Uuid)
    requires ValidQuery(q) && PlanFor(q, p) && pk in DriverRows(q, p) && !JoinCell(q, p, pk).Null?
    ensures OnPair(q, PairOf(p, pk, Some(x))) <==> x in ProbeRowsOf(q, p) && ProbeRowsOf(q, p)[x][ProbeOn(p)] == JoinCell(q, p, pk)
  {}

  /** And in order of the ORDER BY column. */
  lemma WalkInOrder(q: Query, p: Plan, prb: Side, k: nat, key: Value, walk: seq<Uuid>)
    requires ValidSide(prb) && prb.info.width == ProbeWidth(p)
    requires ProbeOff(p) <= q.sh.ord && ProbeWalkIndex(prb.info, ProbeOn(p), q.sh.ord - ProbeOff(p), k)
    requires W.Listing(ProbeQuery(q, p, prb, k, key), walk)
    requires forall x {:trigger x in walk} :: x in walk ==> x in prb.s.rows && ProbeOn(p) < |prb.s.rows[x]| && prb.s.rows[x][ProbeOn(p)] == key
    ensures forall i :: 0 <= i < |walk| ==> walk[i] in prb.s.rows
    ensures forall i, j :: 0 <= i < j < |walk| ==> ProbeNotAfter(q, p, prb, walk[i], walk[j])
  {
    var wq, ords := ProbeQuery(q, p, prb, k, key), prb.t.indexes[k].ords;
    forall i | 0 <= i < |walk| ensures walk[i] in prb.s.rows && HoldsPrefix(ords, [key], prb.s.rows[walk[i]]) {
      assert walk[i] in walk;
    }
    forall i, j | 0 <= i < j < |walk| ensures ProbeNotAfter(q, p, prb, walk[i], walk[j]) {
      assert !W.Before(W.Keys(wq, walk)[j], W.Keys(wq, walk)[i], wq.desc);
      UnderPrefixInOrder(prb, k, [key], walk[i], walk[j], q.sh.desc);
    }
  }
}
