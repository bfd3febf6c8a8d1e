/** Choosing a result path: whichever one runs, the rows are those of the nested-loop
    join (join.go). */
module JoinQueries {
  import opened Wrappers
  import opened Values
  import opened Expressions
  import opened JoinPlans
  import opened Sides
  import opened JoinSpecs
  import opened JoinDrives
  import opened JoinRuns
  import opened JoinWalks
  import opened JoinProbeWalks
  import opened IndexedReads
  import W = OrderedWalks

  /** What the join needs of its query: an ON condition and a fetch key that probe safely, a NOT NULL column where it walks, one
      value per pinned column, and, for a composite driver walk, an overlay whose rows
      hold the pinned prefix. */
  ghost predicate Supported(q: Query, p: Plan, conj: seq<Expr>, drv: Side, prb: Side) {
    && ValidQuery(q) && ValidSide(drv) && Sortable(q) && (q.ordered ==> q.sh.kind != KindNull)
    && DriverOn(p) < |drv.kinds| && ProbeOn(p) < |prb.kinds| && JoinSafe(p, drv, prb) && PinsAgree(p, drv.info, conj, q.args)
    && (p.pins.None? ==> FetchSafe(p, drv, q.args))
    && (p.driverWalk ==> q.sh.ord - DriverOff(p) !in drv.info.nullable)
    && (p.pins.Some? ==> forall vals {:trigger PinnedTo(p, drv, q.args, vals)} :: PinnedTo(p, drv, q.args, vals) ==>
          PinsTyped(p, drv, vals) && OverlayPinned(q, p, drv, vals))
  }

  /** A pinned column is compared with NULL: a scan takes NULL = NULL for true, the walk
      takes it for no row. */
  predicate NullPin(p: Plan, args: seq<Value>) {
    p.pins.Some? && EndsIn(p.pins.value.srcs, args, Some(Null))
  }

  /** A missing parameter among the equalities the path chosen looks at is an error. */
  predicate MissingValue(p: Plan, args: seq<Value>) {
    match p.pins
    case Some(pins) => EndsIn(pins.srcs, args, None)
    case None => !p.driverWalk && p.fetch.Some? && ResolveOperand(p.fetch.value.src, args).None?
  }

  /** The joined rows, by top-N, by sort, or as they come. */
  method Finish(q: Query, kept: seq<Pair>, ghost all: seq<Pair>, offset: nat, limit: int) returns (out: seq<Row>, ghost rows: seq<Row>)
    requires ValidQuery(q) && ProjFits(q) && Sortable(q) && Lists(q, all) && limit != 0 && (q.ordered ==> q.sh.kind != KindNull)
    requires kept == Taken(all, if q.ordered then -1 else W.FetchBound(limit, offset))
    ensures Answers(q, rows, offset, limit) && Projects(q, rows, out)
  {
    if q.ordered && limit >= 0 {
      out, rows := TopRows(q, kept, offset, limit);
    } else if q.ordered {
      out, rows := SortAll(q, kept, offset, limit);
    } else {
      out, rows := Unordered(q, kept, all, offset, limit);
    }
  }

  /** A materialised driver. */
  method FromDrivers(q: Query, p: Plan, ghost conj: seq<Expr>, ghost at: nat, drv: Side, prb: Side, drivers: seq<Uuid>, dirty: seq<Uuid>,
                     offset: nat, limit: int) returns (out: seq<Row>, ghost rows: seq<Row>)
    requires Ready(q, p, conj, at, drv, prb) && Live(prb) && Supported(q, p, conj, drv, prb) && ListsOverlay(prb.t, prb.s, dirty)
    requires DriverList(q, p, drv.info, drivers) && limit != 0
    ensures Answers(q, rows, offset, limit) && Projects(q, rows, out)
  {
    ReadyProbe(q, p, conj, at, drv, prb);
    OrdsInRange(drv);
    forall i | 0 <= i < |drivers| ensures drivers[i] in DriverRows(q, p) { assert drivers[i] in drivers; }
    var kept;
    ghost var all;
    kept, all := Drive(q, p, prb, drivers, dirty, if q.ordered then -1 else W.FetchBound(limit, offset));
    DrainedLists(q, p, drv.info, conj, at, drivers, all);
    out, rows := Finish(q, kept, all, offset, limit);
  }

  /** A scanned driver without ORDER BY is streamed. */
  method FromScan(q: Query, p: Plan, ghost conj: seq<Expr>, ghost at: nat, drv: Side, prb: Side, dirty: seq<Uuid>, offset: nat, limit: int)
    returns (out: seq<Row>, ghost rows: seq<Row>)
    requires Ready(q, p, conj, at, drv, prb) && Live(prb) && Supported(q, p, conj, drv, prb) && ListsOverlay(prb.t, prb.s, dirty)
    requires p.fetch.None? && p.pins.None? && !q.ordered && limit != 0
    ensures Answers(q, rows, offset, limit) && Projects(q, rows, out)
  {
    ReadyProbe(q, p, conj, at, drv, prb);
    OrdsInRange(drv);
    var scan := ScanRows(drv.s.rows);
    forall i | 0 <= i < |scan| ensures scan[i] in DriverRows(q, p) { assert scan[i] in scan; }
    var kept;
    ghost var drivers, all;
    kept, drivers, all := DriveStreaming(q, p, prb, scan, dirty, W.FetchBound(limit, offset));
    ScannedIsDriverList(q, p, drv.info, scan);
    DrainedLists(q, p, drv.info, conj, at, drivers, all);
    out, rows := Finish(q, kept, all, offset, limit);
  }

  /** The driver walked in ORDER BY order: by a column, or under the pinned prefix. */
  method FromWalk(q: Query, p: Plan, ghost conj: seq<Expr>, ghost at: nat, drv: Side, prb: Side, vals: seq<Value>, dirty: seq<Uuid>,
                  offset: nat, limit: int) returns (out: seq<Row>, ghost rows: seq<Row>)
    requires Ready(q, p, conj, at, drv, prb) && Live(drv) && Live(prb) && Supported(q, p, conj, drv, prb) && ListsOverlay(prb.t, prb.s, dirty)
    requires p.driverWalk || PinnedTo(p, drv, q.args, vals)
    ensures Answers(q, rows, offset, limit) && Projects(q, rows, out)
  {
    ReadyProbe(q, p, conj, at, drv, prb);
    var kept;
    ghost var all;
    if p.driverWalk {
      kept, all := ColumnWalk(q, p, conj, at, drv, prb, dirty, W.FetchBound(limit, offset));
    } else {
      kept, all := PinnedWalk(q, p, conj, at, drv, prb, vals, dirty, W.FetchBound(limit, offset));
    }
    out, rows := Unordered(q, kept, all, offset, limit);
  }

  /** One driver row and a probe-side ORDER BY: its matches are walked in order. */
  method FromSingle(q: Query, p: Plan, ghost conj: seq<Expr>, ghost at: nat, drv: Side, prb: Side, pk: Uuid, dirty: seq<Uuid>, offset: nat, limit: int)
    returns (out: seq<Row>, ghost rows: seq<Row>)
    requires Ready(q, p, conj, at, drv, prb) && Live(prb) && Supported(q, p, conj, drv, prb) && ListsOverlay(prb.t, prb.s, dirty)
    requires p.probeWalk.Some? && DriverList(q, p, drv.info, [pk])
    ensures Answers(q, rows, offset, limit) && Projects(q, rows, out)
  {
    ReadyProbe(q, p, conj, at, drv, prb);
    assert pk in [pk];
    assert Drives(q, p, drv.info, pk);
    var kept;
    ghost var all;
    kept, all := ProbeWalk(q, p, prb, p.probeWalk.value, pk, dirty, W.FetchBound(limit, offset));
    SingleDriver(q, p, conj, at, drv, prb, pk, all);
    out, rows := Unordered(q, kept, all, offset, limit);
  }

  /** `execJoin`: whichever side drives and whichever path is chosen, the rows answer the
      query as the nested loop with NULL padding, WHERE, ORDER BY, OFFSET and LIMIT does. */
  method ExecJoin(q: Query, p: Plan, ghost conj: seq<Expr>, ghost at: nat, drv: Side, prb: Side, offset: nat, limit: int)
    returns (r: Result<seq<Row>, EvalError>, ghost rows: seq<Row>)
    requires Ready(q, p, conj, at, drv, prb) && Live(drv) && Live(prb) && Supported(q, p, conj, drv, prb)
    ensures r.Err? <==> limit != 0 && MissingValue(p, q.args)
    ensures NullPin(p, q.args) ==> r == Ok([])
    ensures r.Ok? && !NullPin(p, q.args) ==> Answers(q, rows, offset, limit) && Projects(q, rows, r.value)
  {
    rows := [];
    var out;
    if limit == 0 {
      NothingAnswersLimitZero(q, offset);
      return Ok([]), [];
    }
    var dirty := DirtyPks(prb);
    if p.pins.Some? {
      var pinned := PinnedValues(p.pins.value.srcs, q.args);
      match pinned {
        case Err(e) => return Err(e), [];
        case Ok(None) => return Ok([]), [];
        case Ok(Some(vals)) =>
          out, rows := FromWalk(q, p, conj, at, drv, prb, vals, dirty, offset, limit);
          return Ok(out), rows;
      }
    }
    if p.driverWalk {
      out, rows := FromWalk(q, p, conj, at, drv, prb, [], dirty, offset, limit);
      return Ok(out), rows;
    }
    if p.fetch.None? && !q.ordered {
      out, rows := FromScan(q, p, conj, at, drv, prb, dirty, offset, limit);
      return Ok(out), rows;
    }
    r, rows := FromGathered(q, p, conj, at, drv, prb, dirty, offset, limit);
  }

  /** A driver gathered first, then probed: by a walk of the probe side when it is one row. */
  method FromGathered(q: Query, p: Plan, ghost conj: seq<Expr>, ghost at: nat, drv: Side, prb: Side, dirty: seq<Uuid>, offset: nat, limit: int)
    returns (r: Result<seq<Row>, EvalError>, ghost rows: seq<Row>)
    requires Ready(q, p, conj, at, drv, prb) && Live(drv) && Live(prb) && Supported(q, p, conj, drv, prb)
    requires ListsOverlay(prb.t, prb.s, dirty) && limit != 0 && p.pins.None? && !p.driverWalk
    ensures r.Ok? ==> Answers(q, rows, offset, limit) && Projects(q, rows, r.value)
    ensures r.Err? <==> MissingValue(p, q.args)
  {
    rows := [];
    var gathered := GatherDrivers(q, p, drv, conj, at, prb);
    match gathered {
      case Err(e) => return Err(e), [];
      case Ok(drivers) =>
        var out;
        if p.probeWalk.Some? && |drivers| == 1 {
          assert drivers == [drivers[0]];
          out, rows := FromSingle(q, p, conj, at, drv, prb, drivers[0], dirty, offset, limit);
        } else {
          out, rows := FromDrivers(q, p, conj, at, drv, prb, drivers, dirty, offset, limit);
        }
        return Ok(out), rows;
    }
  }

  /** Phase 1: the driver through its index, or by a scan. */
  method GatherDrivers(q: Query, p: Plan, drv: Side, ghost conj: seq<Expr>, ghost at: nat, prb: Side) returns (r: Result<seq<Uuid>, EvalError>)
    requires Ready(q, p, conj, at, drv, prb) && Live(drv) && Supported(q, p, conj, drv, prb) && p.pins.None? && !p.driverWalk
    ensures r.Ok? ==> DriverList(q, p, drv.info, r.value)
    ensures r.Err? <==> MissingValue(p, q.args)
  {
    if p.fetch.Some? {
      match ResolveOperand(p.fetch.value.src, q.args) {
        case None => return Err(ParamOutOfRange);
        case Some(key) =>
          var drivers := FetchDrivers(q, p, drv, key);
          return Ok(drivers);
      }
    }
    var scan := ScanRows(drv.s.rows);
    ScannedIsDriverList(q, p, drv.info, scan);
    return Ok(Only(scan, PassesPk(q, p)));
  }
}
