/** Probing one side of a join for a key, through its primary key or an index, and when
    that finds exactly the rows with the key (join.go). */
module JoinExecs {
  import opened Wrappers
  import opened Sequences
  import opened Values
  import opened CompositeKeys
  import opened IndexOrder
  import opened Sides
  import opened IndexedReads
  import O = IndexOverlay

  // ---- probing ----

  /** The index key is one `lookupLeading` takes for `key`. */
  predicate LeadsWith(ords: seq<nat>, k: IndexKey, key: Value) {
    if |ords| == 1 then k == KeyOf(key) else k.BytesKey? && EncodeTuple([key]) <= k.s
  }

  /** `lookupLeading`: a bucket for a single column, a prefix run for a composite. */
  method LookupLeading(d: Side, k: nat, key: Value) returns (hits: seq<Uuid>)
    requires ValidSide(d) && Live(d) && k < |d.idx| && d.t.indexes[k].ords[0] < |d.kinds|
    ensures key.Kind() == d.kinds[d.t.indexes[k].ords[0]] ==>
              Distinct(hits) && forall pk :: pk in hits <==> pk in d.s.idx[k].view && LeadsWith(d.t.indexes[k].ords, d.s.idx[k].view[pk], key)
  {
    assert IndexMatches(d, k) && IndexShape(d.t.indexes[k]);
    KeyOfInjective(key, key);
    if |d.t.indexes[k].ords| == 1 {
      hits := d.idx[k].Lookup(KeyOf(key));
    } else {
      var prefix := EncodeCompositeKey([key]);
      hits := d.idx[k].PrefixLookup(prefix);
    }
  }

  /** Every column of the index is non-NULL in the row, so the index holds the row. */
  predicate IndexHoldsRow(ords: seq<nat>, row: Row) {
    forall i :: 0 <= i < |ords| ==> ords[i] < |row| && !row[ords[i]].Null?
  }

  /** What a probe finds. Through the primary key: that row. Through an index: the live
      rows with that cell, except a clean row whose other indexed columns include a NULL. */
  predicate Found(d: Side, on: nat, byPK: bool, key: Value, pk: Uuid)
    requires O.ValidTable(d.t) && O.Shaped(d.t, d.s)
  {
    && !key.Null? && pk in d.s.rows
    && if byPK then CoerceToUuid(key) == Some(pk)
       else
         && on < |d.s.rows[pk]| && d.s.rows[pk][on] == key
         && ProbeIndexFor(d.t.indexes, on).Some?
         && (IndexHoldsRow(d.t.indexes[ProbeIndexFor(d.t.indexes, on).value].ords, d.s.rows[pk]) || Listed(d.s, d.t.shards, pk))
  }

  predicate Listed(s: O.State, shards: nat, pk: Uuid) {
    s.readCount != 0 && pk in s.rows && exists sh :: 0 <= sh < shards && sh < |s.dirtyRead| && pk in s.dirtyRead[sh]
  }

  /** `probeRows`: the candidates of the index and the overlay, each once, re-checked
      against their live rows. */
  method ProbeRows(d: Side, on: nat, byPK: bool, key: Value, dirty: seq<Uuid>) returns (pks: seq<Uuid>)
    requires ValidSide(d) && Live(d) && on < d.info.width && ListsOverlay(d.t, d.s, dirty)
    ensures Distinct(pks) && forall pk :: pk in pks <==> Found(d, on, byPK, key, pk)
  {
    pks := [];
    if key.Null? { return; }
    if byPK {
      var pk := CoerceToUuid(key);
      if pk.Some? && pk.value in d.s.rows { pks := [pk.value]; }
      return;
    }
    var si := ProbeIndexFor(d.t.indexes, on);
    if si.None? { return; }
    var hits := LookupLeading(d, si.value, key);
    pks := Recheck(d, on, key, hits + dirty);
    forall pk ensures pk in pks <==> Found(d, on, byPK, key, pk) {
      assert pk in pks <==> pk in hits + dirty && pk in d.s.rows && d.s.rows[pk][on] == key;
      if pk in d.s.rows && d.s.rows[pk][on] == key {
        assert TypedRow(d, pk, d.s.rows[pk]) && TypedCell(d, d.s.rows[pk], on);
        CandidateIffFound(d, on, key, si.value, hits, dirty, pk);
      }
    }
  }

  /** A live row with the probed cell is a candidate exactly when the index or the
      overlay holds it. */
  lemma CandidateIffFound(d: Side, on: nat, key: Value, k: nat, hits: seq<Uuid>, dirty: seq<Uuid>, pk: Uuid)
    requires ValidSide(d) && on < d.info.width && ListsOverlay(d.t, d.s, dirty) && ProbeIndexFor(d.t.indexes, on) == Some(k)
    requires !key.Null? && pk in d.s.rows && d.s.rows[pk][on] == key
    requires pk in hits <==> pk in d.s.idx[k].view && LeadsWith(d.t.indexes[k].ords, d.s.idx[k].view[pk], key)
    ensures pk in hits + dirty <==> Found(d, on, false, key, pk)
  {
    var ords, row := d.t.indexes[k].ords, d.s.rows[pk];
    assert IndexShape(d.t.indexes[k]);
    assert pk in dirty <==> Listed(d.s, d.t.shards, pk);
    if pk !in dirty {
      O.CleanRowIsIndexed(d.t, d.s, pk, k);
      if |ords| == 1 {
        assert ords == [on];
        O.EqualityProbe(on, row, key);
      } else if IndexHoldsRow(ords, row) {
        forall i | 0 <= i < 1 ensures SameKind([key][i], row[ords[i]]) { assert row[ords[0]] == key; }
        O.PrefixProbe(ords, row, [key]);
      } else {
        NullIsUnindexed(ords, row);
      }
    }
  }

  lemma NullIsUnindexed(ords: seq<nat>, row: Row)
    requires O.Fits(ords, row) && |ords| > 1 && !IndexHoldsRow(ords, row)
    ensures RowKey(ords, row).None?
  {
    var cells := Cells(ords, row);
    assert RowKey(ords, row) == KeyFromCells(cells);
    var i :| 0 <= i < |ords| && row[ords[i]].Null?;
    assert cells[i].Null?;
  }

  /** `emit` with the per-candidate fetch and re-check. */
  method Recheck(d: Side, on: nat, key: Value, cands: seq<Uuid>) returns (pks: seq<Uuid>)
    requires on < d.info.width && forall pk :: pk in d.s.rows ==> |d.s.rows[pk]| == d.info.width
    ensures Distinct(pks) && forall pk :: pk in pks <==> pk in cands && pk in d.s.rows && d.s.rows[pk][on] == key
  {
    pks := [];
    var seen: set<Uuid> := {};
    for i := 0 to |cands|
      invariant seen == set pk | pk in cands[..i]
      invariant Distinct(pks) && forall pk :: pk in pks <==> pk in cands[..i] && pk in d.s.rows && d.s.rows[pk][on] == key
    {
      var pk := cands[i];
      assert cands[..i + 1] == cands[..i] + [pk];
      if pk !in seen {
        seen := seen + {pk};
        if pk in d.s.rows {
          EqualIsIdentity(d.s.rows[pk][on], key);
          if d.s.rows[pk][on].Equal(key) { pks := pks + [pk]; }
        }
      }
    }
    assert cands[..|cands|] == cands;
  }

  /** Beside the probed column the index a probe uses has only NOT NULL columns. */
  predicate OthersNotNull(d: Side, on: nat) {
    && ProbeIndexFor(d.t.indexes, on).Some?
    && var ords := d.t.indexes[ProbeIndexFor(d.t.indexes, on).value].ords;
       forall i :: 0 <= i < |ords| && ords[i] != on ==> ords[i] !in d.info.nullable
  }

  /** What can be checked of a probe before it is made: through the primary key, the key is
      not text naming an identifier; through an index, it is of another kind than the column,
      or the index holds every row. */
  predicate ProbeSafe(d: Side, on: nat, byPK: bool, key: Value)
    requires on < |d.kinds|
  {
    if byPK then key.Str? ==> ParseUuid(key.s).None? else key.Kind() != d.kinds[on] || OthersNotNull(d, on)
  }

  /** The row has the probed cell. */
  predicate HasCell(d: Side, on: nat, key: Value, pk: Uuid) {
    !key.Null? && pk in d.s.rows && on < |d.s.rows[pk]| && d.s.rows[pk][on] == key
  }

  /** Then the probe finds exactly the rows with the probed cell. */
  lemma SafeProbeIsEquality(d: Side, on: nat, byPK: bool, key: Value, pk: Uuid)
    requires ValidSide(d) && on < d.info.width && ProbeSafe(d, on, byPK, key) && (byPK <==> on == d.info.pk)
    ensures Found(d, on, byPK, key, pk) <==> HasCell(d, on, key, pk)
  {
    if !key.Null? && pk in d.s.rows {
      var row := d.s.rows[pk];
      assert TypedRow(d, pk, row) && TypedCell(d, row, on);
      if !byPK && row[on] == key {
        var ords := d.t.indexes[ProbeIndexFor(d.t.indexes, on).value].ords;
        forall i | 0 <= i < |ords| ensures ords[i] < |row| && !row[ords[i]].Null? {
          assert TypedCell(d, row, ords[i]);
        }
      }
    }
  }

  /** The row that shows where a probe errs: the key in its own column, NULL wherever else
      it may stand. */
  function MissedRow(d: Side, on: nat, key: Value): (r: Row)
    ensures |r| == |d.kinds|
  {
    seq(|d.kinds|, o requires 0 <= o < |d.kinds| =>
      if o == on then key else if o in d.info.nullable then Null else Default(d.kinds[o]))
  }

  /** An index with another nullable column leaves that row out. */
  lemma UnsafeIndexMissesRow(d: Side, on: nat, key: Value)
    requires ValidSide(d) && on < d.info.width && on != d.info.pk && !ProbeSafe(d, on, false, key)
    ensures var u, row := Uuid(0, 0), MissedRow(d, on, key);
            && ValidSide(OneRow(d, u, row)) && HasCell(OneRow(d, u, row), on, key, u) && !Found(OneRow(d, u, row), on, false, key, u)
  {
    var u, row := Uuid(0, 0), MissedRow(d, on, key);
    forall o | 0 <= o < d.info.width ensures TypedCell(d, row, o) {}
    OneRowValid(d, u, row);
  }

  /** Text that names an identifier finds that row through the primary key, and is not its
      cell. */
  lemma TextFindsRow(d: Side, key: Value)
    requires ValidSide(d) && key.Str? && ParseUuid(key.s).Some?
    ensures var u := ParseUuid(key.s).value; var row := MissedRow(d, d.info.pk, Id(u));
            && ValidSide(OneRow(d, u, row)) && Found(OneRow(d, u, row), d.info.pk, true, key, u)
            && !HasCell(OneRow(d, u, row), d.info.pk, key, u)
  {
    var u := ParseUuid(key.s).value;
    var row := MissedRow(d, d.info.pk, Id(u));
    forall o | 0 <= o < d.info.width ensures TypedCell(d, row, o) {}
    OneRowValid(d, u, row);
  }

  /** So a row whose text names another table's row meets it when the text probes the
      primary key, and not when the identifier probes the text. */
  lemma TextMeetsIdentifierOneWay(d: Side, u: Uuid, e: Side, on: nat, r: Uuid)
    requires ValidSide(d) && u in d.s.rows && ValidSide(e) && r in e.s.rows && on < e.info.width && on != e.info.pk
    requires on < |e.s.rows[r]| && e.s.rows[r][on] == Str(UuidText(u))
    ensures d.info.pk < |d.s.rows[u]|
    ensures Found(d, d.info.pk, true, e.s.rows[r][on], u) && !Found(e, on, false, d.s.rows[u][d.info.pk], r)
  {
    UuidTextRoundTrip(u);
    assert TypedRow(d, u, d.s.rows[u]);
  }

  /** In every reachable state a probe finds exactly the rows with the probed cell if and
      only if it is safe. */
  lemma ProbeIsEqualityIffSafe(d: Side, on: nat, byPK: bool, key: Value)
    requires ValidSide(d) && on < d.info.width && (byPK <==> on == d.info.pk)
    ensures (forall s, pk :: ValidSide(d.(s := s)) ==> (Found(d.(s := s), on, byPK, key, pk) <==> HasCell(d.(s := s), on, key, pk)))
            <==> ProbeSafe(d, on, byPK, key)
  {
    if ProbeSafe(d, on, byPK, key) {
      forall s, pk | ValidSide(d.(s := s)) ensures Found(d.(s := s), on, byPK, key, pk) <==> HasCell(d.(s := s), on, key, pk) {
        SafeProbeIsEquality(d.(s := s), on, byPK, key, pk);
      }
    } else if byPK {
      TextFindsRow(d, key);
    } else {
      UnsafeIndexMissesRow(d, on, key);
    }
  }
}
