/** Feeding driver rows to the probe: one row's matches, a materialised or streamed
    driver, and an early stop that never changes which rows a full run would list
    (join.go). */
module JoinDrives {
  import opened Wrappers
  import opened Sequences
  import opened Values
  import opened Expressions
  import opened JoinPlans
  import opened Sides
  import opened JoinSpecs
  import opened JoinExecs
  import opened IndexedReads
  import W = OrderedWalks

  function Taken<T>(s: seq<T>, room: int): seq<T> {
    if 0 <= room < |s| then s[..room] else s
  }

  predicate Full<T>(s: seq<T>, eff: int) {
    0 <= eff <= |s|
  }

  /** Stopping at offset+limit rows does not change the slice. */
  lemma TakenSlice<T>(s: seq<T>, offset: nat, limit: int)
    ensures W.Slice(Taken(s, W.FetchBound(limit, offset)), offset, limit) == W.Slice(s, offset, limit)
  {
    var eff := W.FetchBound(limit, offset);
    if 0 <= eff < |s| && offset < |s| && offset < eff { assert s[..eff][offset..] == s[offset..][..limit]; }
  }

  /** The probe side of a join, ready for any driver row. */
  ghost predicate ProbeReady(q: Query, p: Plan, prb: Side) {
    && ValidQuery(q) && PlanFor(q, p) && ValidSide(prb) && prb.s.rows == ProbeRowsOf(q, p) && prb.info.width == ProbeWidth(p)
    && AllBound(p.residual, q.nLeft + q.nRight)
    && forall pk :: pk in DriverRows(q, p) ==> CellReady(p, prb, JoinCell(q, p, pk))
  }

  /** A join cell probes safely, and a walk of the probe side takes only keys of the column's
      own kind. */
  predicate CellReady(p: Plan, prb: Side, key: Value)
    requires ProbeOn(p) < |prb.kinds|
  {
    && ProbeSafe(prb, ProbeOn(p), ProbeOn(p) == prb.info.pk, key)
    && (p.probeWalk.Some? ==> key.Null? || key.Kind() == prb.kinds[ProbeOn(p)])
  }

  /** The driver row's join cell. */
  function JoinCell(q: Query, p: Plan, pk: Uuid): Value {
    if pk in DriverRows(q, p) && DriverOn(p) < |DriverRows(q, p)[pk]| then DriverRows(q, p)[pk][DriverOn(p)] else Null
  }

  // ---- one driver row ----

  /** The matches of one driver row that pass the residual, in probe order. */
  function Kept(q: Query, p: Plan, pk: Uuid, pks: seq<Uuid>): seq<Pair> {
    if pks == [] then []
    else
      var last := |pks| - 1;
      var pair := PairOf(p, pk, Some(pks[last]));
      Kept(q, p, pk, pks[..last]) + if PassResidual(q, p, Concat(q, pair)) then [pair] else []
  }

  /** An outer join's row without a match. */
  function Padding(q: Query, p: Plan, pk: Uuid): seq<Pair> {
    if !p.typ.InnerJoin? && PassResidual(q, p, Concat(q, PairOf(p, pk, None))) then [PairOf(p, pk, None)] else []
  }

  lemma {:induction false} KeptMembers(q: Query, p: Plan, pk: Uuid, pks: seq<Uuid>)
    requires Distinct(pks)
    ensures Distinct(Kept(q, p, pk, pks))
    ensures forall pair {:trigger pair in Kept(q, p, pk, pks)} :: pair in Kept(q, p, pk, pks) <==>
              DriverOf(p, pair) == Some(pk) && ProbeOf(p, pair).Some? && ProbeOf(p, pair).value in pks && PassResidual(q, p, Concat(q, pair))
  {
    if pks != [] {
      var last := |pks| - 1;
      var init, rest, pair := pks[..last], Kept(q, p, pk, pks[..last]), PairOf(p, pk, Some(pks[last]));
      KeptMembers(q, p, pk, init);
      assert pks == init + [pks[last]];
      assert pair !in rest;
    }
  }

  /** Probing finds exactly the partners of the ON condition. */
  lemma ProbeIsMatch(q: Query, p: Plan, prb: Side, pk: Uuid)
    requires ProbeReady(q, p, prb) && pk in DriverRows(q, p)
    ensures forall x :: Found(prb, ProbeOn(p), ProbeOn(p) == prb.info.pk, JoinCell(q, p, pk), x) <==> OnPair(q, PairOf(p, pk, Some(x)))
  {
    forall x ensures Found(prb, ProbeOn(p), ProbeOn(p) == prb.info.pk, JoinCell(q, p, pk), x) <==> OnPair(q, PairOf(p, pk, Some(x))) {
      assert CellReady(p, prb, JoinCell(q, p, pk));
      SafeProbeIsEquality(prb, ProbeOn(p), ProbeOn(p) == prb.info.pk, JoinCell(q, p, pk), x);
    }
  }

  /** Kept matches, or the padding when there was none, are everything the row yields. */
  lemma KeptIsComplete(q: Query, p: Plan, pk: Uuid, pks: seq<Uuid>)
    requires ValidQuery(q) && PlanFor(q, p) && pk in DriverRows(q, p) && AllBound(p.residual, q.nLeft + q.nRight)
    requires Distinct(pks) && forall x {:trigger x in pks} :: x in pks <==> OnPair(q, PairOf(p, pk, Some(x)))
    ensures Complete(q, p, pk, Kept(q, p, pk, pks) + if pks == [] then Padding(q, p, pk) else [])
  {
    KeptMembers(q, p, pk, pks);
    var full := Kept(q, p, pk, pks) + if pks == [] then Padding(q, p, pk) else [];
    forall pair ensures pair in full <==> Emitted(q, p, pk, pair) {
      if DriverOf(p, pair) == Some(pk) {
        match ProbeOf(p, pair)
        case Some(x) => assert pair == PairOf(p, pk, Some(x));
        case None =>
          assert pair == PairOf(p, pk, None);
          if pks != [] { assert OnPair(q, PairOf(p, pk, Some(pks[0]))) by { assert pks[0] in pks; } }
          PadIffUnmatched(q, p, pk, pks);
      }
    }
  }

  lemma PadIffUnmatched(q: Query, p: Plan, pk: Uuid, pks: seq<Uuid>)
    requires ValidQuery(q) && PlanFor(q, p) && pk in DriverRows(q, p)
    requires forall x {:trigger x in pks} :: x in pks <==> OnPair(q, PairOf(p, pk, Some(x)))
    ensures OnPair(q, PairOf(p, pk, None)) <==> !p.typ.InnerJoin? && pks == []
  {
    if pks == [] {
      forall x ensures !OnPair(q, PairOf(p, pk, Some(x))) { assert x !in pks; }
      if p.driverIsLeft {
        forall r ensures !Matched(q, pk, r) { assert !OnPair(q, PairOf(p, pk, Some(r))); }
      } else {
        forall l ensures !Matched(q, l, pk) { assert !OnPair(q, PairOf(p, pk, Some(l))); }
      }
    } else {
      assert pks[0] in pks;
      if p.driverIsLeft { assert Matched(q, pk, pks[0]); } else { assert Matched(q, pks[0], pk); }
    }
  }

  /** `probeAndEmit` for a sink with room for `room` more rows (negative: unbounded): the
      row's whole yield, or as much of it as fits. */
  method ProbeAndEmit(q: Query, p: Plan, prb: Side, pk: Uuid, dirty: seq<Uuid>, room: int) returns (ps: seq<Pair>, ghost full: seq<Pair>)
    requires ProbeReady(q, p, prb) && Live(prb) && pk in DriverRows(q, p) && ListsOverlay(prb.t, prb.s, dirty) && room != 0
    ensures Complete(q, p, pk, full) && ps == Taken(full, room)
  {
    ProbeIsMatch(q, p, prb, pk);
    var pks := ProbeRows(prb, ProbeOn(p), ProbeOn(p) == prb.info.pk, JoinCell(q, p, pk), dirty);
    KeptIsComplete(q, p, pk, pks);
    full := Kept(q, p, pk, pks) + if pks == [] then Padding(q, p, pk) else [];
    ps := KeepMatches(q, p, pk, pks, room);
    if pks == [] { ps := Padding(q, p, pk); }
  }

  /** Matches are assembled and checked one by one, until the sink is full. */
  method KeepMatches(q: Query, p: Plan, pk: Uuid, pks: seq<Uuid>, room: int) returns (ps: seq<Pair>)
    requires room != 0
    ensures ps == Taken(Kept(q, p, pk, pks), room)
  {
    ps := [];
    for k := 0 to |pks|
      invariant ps == Kept(q, p, pk, pks[..k]) && (room >= 0 ==> |ps| < room)
    {
      assert pks[..k + 1][..k] == pks[..k];
      var pair := PairOf(p, pk, Some(pks[k]));
      if PassResidual(q, p, Concat(q, pair)) {
        ps := ps + [pair];
        if room >= 0 && |ps| >= room {
          KeptGrows(q, p, pk, pks, k + 1);
          return;
        }
      }
    }
    assert pks[..|pks|] == pks;
  }

  lemma {:induction false} KeptGrows(q: Query, p: Plan, pk: Uuid, pks: seq<Uuid>, k: nat)
    requires k <= |pks|
    ensures Kept(q, p, pk, pks[..k]) <= Kept(q, p, pk, pks)
    decreases |pks|
  {
    if k == |pks| {
      assert pks[..k] == pks;
    } else {
      assert pks[..|pks| - 1][..k] == pks[..k];
      KeptGrows(q, p, pk, pks[..|pks| - 1], k);
    }
  }

  // ---- all driver rows ----

  /** After `n` driver rows: `all` is their whole yield, `out` what the sink took of it. */
  ghost predicate Progress(q: Query, p: Plan, drivers: seq<Uuid>, n: nat, all: seq<Pair>, out: seq<Pair>, eff: int)
    requires ValidQuery(q)
  {
    n <= |drivers| && Drained(q, p, drivers[..n], all) && out == Taken(all, eff)
  }

  lemma ProgressNext(q: Query, p: Plan, drivers: seq<Uuid>, n: nat, all: seq<Pair>, out: seq<Pair>, eff: int, ps: seq<Pair>, full: seq<Pair>)
    requires ValidQuery(q) && Distinct(drivers) && n < |drivers| && Progress(q, p, drivers, n, all, out, eff) && !Full(out, eff)
    requires Complete(q, p, drivers[n], full) && ps == Taken(full, if eff < 0 then -1 else eff - |out|)
    ensures Progress(q, p, drivers, n + 1, all + full, out + ps, eff)
  {
    assert drivers[..n + 1] == drivers[..n] + [drivers[n]];
    DrainedNext(q, p, drivers[..n], all, drivers[n], full);
  }

  /** What a driver row yields can always be listed. */
  lemma YieldExists(q: Query, p: Plan, pk: Uuid) returns (full: seq<Pair>)
    requires ValidQuery(q) && PlanFor(q, p) && pk in DriverRows(q, p) && AllBound(p.residual, q.nLeft + q.nRight)
    ensures Complete(q, p, pk, full)
  {
    var matches := set x | x in ProbeRowsOf(q, p) && OnPair(q, PairOf(p, pk, Some(x)));
    var pks := Listing(matches);
    forall x ensures x in pks <==> OnPair(q, PairOf(p, pk, Some(x))) {}
    KeptIsComplete(q, p, pk, pks);
    full := Kept(q, p, pk, pks) + if pks == [] then Padding(q, p, pk) else [];
  }

  ghost function Listing(s: set<Uuid>): (pks: seq<Uuid>)
    ensures Distinct(pks) && forall x {:trigger x in pks} {:trigger x in s} :: x in pks <==> x in s
  {
    if s == {} then []
    else
      var x :| x in s;
      [x] + Listing(s - {x})
  }

  /** A sink that stopped early took a prefix of a full listing. */
  lemma {:induction false} DrainRest(q: Query, p: Plan, drivers: seq<Uuid>, n: nat, all: seq<Pair>, out: seq<Pair>, eff: int) returns (full: seq<Pair>)
    requires ValidQuery(q) && PlanFor(q, p) && AllBound(p.residual, q.nLeft + q.nRight) && Distinct(drivers)
    requires forall i :: 0 <= i < |drivers| ==> drivers[i] in DriverRows(q, p)
    requires Progress(q, p, drivers, n, all, out, eff) && (Full(out, eff) || n == |drivers|)
    ensures Drained(q, p, drivers, full) && out == Taken(full, eff)
    decreases |drivers| - n
  {
    if n == |drivers| {
      assert drivers[..n] == drivers;
      full := all;
    } else {
      var more := YieldExists(q, p, drivers[n]);
      assert drivers[..n + 1] == drivers[..n] + [drivers[n]];
      DrainedNext(q, p, drivers[..n], all, drivers[n], more);
      full := DrainRest(q, p, drivers, n + 1, all + more, out, eff);
    }
  }

  /** One more driver row. */
  method DriveNext(q: Query, p: Plan, prb: Side, pk: Uuid, dirty: seq<Uuid>, eff: int, out0: seq<Pair>,
                   ghost drivers: seq<Uuid>, ghost n: nat, ghost all0: seq<Pair>) returns (out: seq<Pair>, ghost all: seq<Pair>)
    requires ProbeReady(q, p, prb) && Live(prb) && ListsOverlay(prb.t, prb.s, dirty) && Distinct(drivers)
    requires n < |drivers| && drivers[n] == pk && pk in DriverRows(q, p)
    requires Progress(q, p, drivers, n, all0, out0, eff) && !Full(out0, eff)
    ensures Progress(q, p, drivers, n + 1, all, out, eff)
  {
    var ps;
    ghost var full;
    ps, full := ProbeAndEmit(q, p, prb, pk, dirty, if eff < 0 then -1 else eff - |out0|);
    ProgressNext(q, p, drivers, n, all0, out0, eff, ps, full);
    out, all := out0 + ps, all0 + full;
  }

  /** `drive` over a materialised driver, stopping once `eff` rows are kept. */
  method Drive(q: Query, p: Plan, prb: Side, drivers: seq<Uuid>, dirty: seq<Uuid>, eff: int) returns (out: seq<Pair>, ghost all: seq<Pair>)
    requires ProbeReady(q, p, prb) && Live(prb) && ListsOverlay(prb.t, prb.s, dirty) && Distinct(drivers)
    requires forall i :: 0 <= i < |drivers| ==> drivers[i] in DriverRows(q, p)
    ensures Drained(q, p, drivers, all) && out == Taken(all, eff)
  {
    out, all := [], [];
    var n := 0;
    assert drivers[..0] == [];
    while n < |drivers| && !Full(out, eff)
      invariant Progress(q, p, drivers, n, all, out, eff)
    {
      out, all := DriveNext(q, p, prb, drivers[n], dirty, eff, out, drivers, n, all);
      n := n + 1;
    }
    all := DrainRest(q, p, drivers, n, all, out, eff);
  }

  /** The chunk a streamed driver is cloned in. */
  function ChunkSize(eff: int): (n: nat)
    ensures 0 < n <= 256
  {
    if 0 <= eff < 256 then (if eff < 32 then 32 else eff) else 256
  }

  /** `drive` over a scanned driver with no ORDER BY: chunks are cloned and probed one by
      one, and no further chunk is read once `eff` rows are kept. */
  method DriveStreaming(q: Query, p: Plan, prb: Side, scan: seq<Uuid>, dirty: seq<Uuid>, eff: int)
    returns (out: seq<Pair>, ghost drivers: seq<Uuid>, ghost all: seq<Pair>)
    requires ProbeReady(q, p, prb) && Live(prb) && ListsOverlay(prb.t, prb.s, dirty) && Distinct(scan)
    requires forall i :: 0 <= i < |scan| ==> scan[i] in DriverRows(q, p)
    ensures drivers == Only(scan, PassesPk(q, p))
    ensures Drained(q, p, drivers, all) && out == Taken(all, eff)
  {
    drivers := Only(scan, PassesPk(q, p));
    OnlyMembers(scan, PassesPk(q, p));
    out, all := [], [];
    var at := 0;
    ghost var n: nat := 0;
    assert drivers[..0] == [];
    while at < |scan| && !Full(out, eff)
      invariant 0 <= at <= |scan| && Progress(q, p, drivers, n, all, out, eff)
      invariant !Full(out, eff) ==> SeenTo(scan, PassesPk(q, p), n, at)
      decreases |scan| - at
    {
      var end := if at + ChunkSize(eff) < |scan| then at + ChunkSize(eff) else |scan|;
      out, n, all := DriveChunk(q, p, prb, PassesPk(q, p), scan, at, end, dirty, eff, out, n, all);
      at := end;
    }
    assert scan[..|scan|] == scan;
    assert !Full(out, eff) ==> drivers[..n] == drivers && |drivers[..n]| == n;
    forall i | 0 <= i < |drivers| ensures drivers[i] in DriverRows(q, p) { assert drivers[i] in drivers; }
    all := DrainRest(q, p, drivers, n, all, out, eff);
  }

  /** The first `n` passing rows are those among the first `at` scanned. */
  ghost predicate SeenTo(scan: seq<Uuid>, passes: Uuid -> bool, n: nat, at: nat) {
    at <= |scan| && n <= |Only(scan, passes)| && Only(scan, passes)[..n] == Only(scan[..at], passes)
  }

  /** One chunk of the scan. */
  method DriveChunk(q: Query, p: Plan, prb: Side, passes: Uuid -> bool, scan: seq<Uuid>, from: nat, end: nat, dirty: seq<Uuid>, eff: int,
                    out0: seq<Pair>, ghost n0: nat, ghost all0: seq<Pair>) returns (out: seq<Pair>, ghost n: nat, ghost all: seq<Pair>)
    requires ProbeReady(q, p, prb) && Live(prb) && ListsOverlay(prb.t, prb.s, dirty) && Distinct(scan) && from <= end <= |scan|
    requires forall i :: 0 <= i < |scan| ==> scan[i] in DriverRows(q, p)
    requires Progress(q, p, Only(scan, passes), n0, all0, out0, eff) && !Full(out0, eff)
    requires SeenTo(scan, passes, n0, from)
    ensures Progress(q, p, Only(scan, passes), n, all, out, eff)
    ensures !Full(out, eff) ==> SeenTo(scan, passes, n, end)
  {
    out, n, all := out0, n0, all0;
    var at := from;
    while at < end && !Full(out, eff)
      invariant from <= at <= end && Progress(q, p, Only(scan, passes), n, all, out, eff)
      invariant !Full(out, eff) ==> SeenTo(scan, passes, n, at)
    {
      out, n, all := DriveAt(q, p, prb, passes, scan, at, dirty, eff, out, n, all);
      at := at + 1;
    }
  }

  /** One scanned row: skipped, or probed. */
  method DriveAt(q: Query, p: Plan, prb: Side, passes: Uuid -> bool, scan: seq<Uuid>, at: nat, dirty: seq<Uuid>, eff: int,
                 out0: seq<Pair>, ghost n0: nat, ghost all0: seq<Pair>) returns (out: seq<Pair>, ghost n: nat, ghost all: seq<Pair>)
    requires ProbeReady(q, p, prb) && Live(prb) && ListsOverlay(prb.t, prb.s, dirty) && Distinct(scan)
    requires at < |scan| && scan[at] in DriverRows(q, p)
    requires Progress(q, p, Only(scan, passes), n0, all0, out0, eff) && !Full(out0, eff)
    requires SeenTo(scan, passes, n0, at)
    ensures Progress(q, p, Only(scan, passes), n, all, out, eff)
    ensures SeenTo(scan, passes, n, at + 1)
  {
    ghost var drivers := Only(scan, passes);
    OnlyMembers(scan, passes);
    OnlyNext(scan, passes, at, n0);
    out, n, all := out0, n0, all0;
    if passes(scan[at]) {
      out, all := DriveNext(q, p, prb, scan[at], dirty, eff, out0, drivers, n0, all0);
      n := n0 + 1;
    }
  }

  /** The driver row passes the pushed-down predicates. */
  function PassesPk(q: Query, p: Plan): Uuid -> bool {
    (pk: Uuid) => pk in DriverRows(q, p) && PassDriver(q, p, DriverRows(q, p)[pk])
  }

  /** The members that satisfy `f`, in order. */
  function Only(s: seq<Uuid>, f: Uuid -> bool): seq<Uuid> {
    if s == [] then []
    else
      var last := |s| - 1;
      Only(s[..last], f) + if f(s[last]) then [s[last]] else []
  }

  lemma {:induction false} OnlyMembers(s: seq<Uuid>, f: Uuid -> bool)
    requires Distinct(s)
    ensures Distinct(Only(s, f))
    ensures forall pk {:trigger pk in Only(s, f)} :: pk in Only(s, f) <==> pk in s && f(pk)
  {
    if s != [] {
      var last := |s| - 1;
      OnlyMembers(s[..last], f);
      assert s == s[..last] + [s[last]];
      assert s[last] !in s[..last] && s[last] !in Only(s[..last], f);
    }
  }

  lemma {:induction false} OnlyGrows(s: seq<Uuid>, f: Uuid -> bool, k: nat)
    requires k <= |s|
    ensures Only(s[..k], f) <= Only(s, f)
    decreases |s|
  {
    if k == |s| {
      assert s[..k] == s;
    } else {
      assert s[..|s| - 1][..k] == s[..k];
      OnlyGrows(s[..|s| - 1], f, k);
    }
  }

  /** The next member, if it satisfies `f`, is the next one kept. */
  lemma OnlyNext(s: seq<Uuid>, f: Uuid -> bool, at: nat, n: nat)
    requires at < |s| && n <= |Only(s, f)| && Only(s, f)[..n] == Only(s[..at], f)
    ensures if f(s[at]) then n < |Only(s, f)| && Only(s, f)[n] == s[at] && Only(s, f)[..n + 1] == Only(s[..at + 1], f)
            else Only(s, f)[..n] == Only(s[..at + 1], f)
  {
    assert s[..at + 1][..at] == s[..at];
    OnlyGrows(s, f, at + 1);
  }
}
