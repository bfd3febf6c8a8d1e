/** The per-shard primary-key index: a linear-probed open-addressed table with
    backward-shift deletion (pkmap.go), refined to a finite map. */
module PkMaps {
  import opened Wrappers
  import opened Values

  /** `ref` is the row id plus one; 0 marks an empty slot. */
  datatype Slot = Slot(key: Uuid, ref: nat)

  const EMPTY := Slot(Uuid(0, 0), 0)

  /** More entries than any address space holds; keeps the shift positive. */
  const MAX_ENTRIES: nat := 0x1000_0000_0000_0000

  function Pow2(n: nat): (r: nat)
    ensures r > 0
  {
    if n == 0 then 1 else 2 * Pow2(n - 1)
  }

  /** `bits.Len`. */
  function BitLen(x: nat): nat {
    if x == 0 then 0 else 1 + BitLen(x / 2)
  }

  lemma {:induction false} BitLenPow2(k: nat)
    ensures BitLen(Pow2(k) - 1) == k
  {
    if k > 0 {
      assert (Pow2(k) - 1) / 2 == Pow2(k - 1) - 1;
      BitLenPow2(k - 1);
    }
  }

  lemma {:induction false} Pow2Product(a: nat, b: nat)
    ensures Pow2(a) * Pow2(b) == Pow2(a + b)
  {
    if a > 0 {
      Pow2Product(a - 1, b);
      assert Pow2(a) * Pow2(b) == 2 * (Pow2(a - 1) * Pow2(b));
    }
  }

  lemma {:induction false} Pow2Monotone(a: nat, b: nat)
    requires a <= b
    ensures Pow2(a) <= Pow2(b)
  {
    if a < b {
      Pow2Monotone(a, b - 1);
    }
  }

  lemma Pow2Values()
    ensures Pow2(4) == 16 && Pow2(64) == 0x1_0000_0000_0000_0000 && Pow2(61) == 0x2000_0000_0000_0000
  {
    assert Pow2(8) == 256;
    Pow2Product(8, 8);
    Pow2Product(16, 16);
    Pow2Product(32, 32);
    assert Pow2(64) == 2 * Pow2(63) == 4 * Pow2(62) == 8 * Pow2(61);
  }

  function Next(i: nat, n: nat): nat {
    if i + 1 == n then 0 else i + 1
  }

  /** Forward probe distance from `h` to `m` in a table of `n` slots. */
  function Dist(h: nat, m: nat, n: nat): int {
    if m >= h then m - h else m + n - h
  }

  /** `pkHome`, for any hash: a key's home slot in a table of `n` slots. */
  type HomeFn = h: (Uuid, nat) -> nat | Homes(h) witness (k: Uuid, n: nat) => 0

  ghost predicate Homes(h: (Uuid, nat) -> nat) {
    forall k, n: nat :: n > 0 ==> h(k, n) < n
  }

  predicate Shape(n: nat, shift: nat) {
    4 <= 64 - shift <= 61 && n == Pow2(64 - shift)
  }

  /** What pkHome does instantiates it: the top bits of a 64-bit hash. */
  lemma ShiftedHashIsHome(hash: Uuid -> Word, k: Uuid, n: nat, shift: nat)
    requires Shape(n, shift)
    ensures hash(k) / Pow2(shift) < n
  {
    Pow2Values();
    Pow2Product(64 - shift, shift);
    Quotient(hash(k), Pow2(shift), n);
  }

  lemma Quotient(x: nat, p: nat, n: nat)
    requires p > 0 && x < n * p
    ensures x / p < n
  {
    var q := x / p;
    assert x == p * q + x % p;
    assert q >= n ==> q * p >= n * p;
  }

  /** Slot `j` holds an entry. */
  predicate Taken(s: seq<Slot>, j: nat)
    requires j < |s|
  {
    s[j].ref != 0
  }

  /** A write to slot `i` leaves every other slot as it was. */
  lemma WriteTaken(s: seq<Slot>, i: nat, x: Slot)
    requires i < |s|
    ensures Taken(s[i := x], i) <==> x.ref != 0
    ensures forall m {:trigger Taken(s[i := x], m)} {:trigger Taken(s, m)} ::
              0 <= m < |s| && m != i ==> (Taken(s[i := x], m) <==> Taken(s, m)) && s[i := x][m] == s[m]
  {}

  /** `pos` says where each key of `m` sits, and nothing else is stored. */
  ghost predicate Located(s: seq<Slot>, pos: map<Uuid, nat>, m: map<Uuid, nat>) {
    && pos.Keys == m.Keys
    && (forall j {:trigger Taken(s, j)} :: 0 <= j < |s| && Taken(s, j) ==> s[j].key in pos && pos[s[j].key] == j)
    && (forall k {:trigger pos[k]} :: k in pos ==> pos[k] < |s| && s[pos[k]].key == k && s[pos[k]].ref == m[k] + 1)
  }

  /** No empty slot between `h` and `j`, walking forward. */
  ghost predicate Unbroken(s: seq<Slot>, h: nat, j: nat) {
    forall m {:trigger Taken(s, m)} :: 0 <= m < |s| && Dist(h, m, |s|) < Dist(h, j, |s|) ==> Taken(s, m)
  }

  /** Every stored key but the one in slot `gap` is reachable from its home slot. */
  ghost predicate ProbedExcept(s: seq<Slot>, home: HomeFn, gap: int) {
    forall j {:trigger Taken(s, j)} :: 0 <= j < |s| && j != gap && Taken(s, j) ==> Unbroken(s, home(s[j].key, |s|), j)
  }

  ghost predicate Probed(s: seq<Slot>, home: HomeFn) {
    ProbedExcept(s, home, -1)
  }

  ghost predicate HasEmpty(s: seq<Slot>) {
    exists e {:trigger Taken(s, e)} :: 0 <= e < |s| && !Taken(s, e)
  }

  /** A table with fewer keys than slots has an empty slot, so every probe ends. */
  lemma EmptySlotExists(s: seq<Slot>, pos: map<Uuid, nat>, m: map<Uuid, nat>)
    requires Located(s, pos, m) && |m| < |s|
    ensures HasEmpty(s)
  {
    assert |pos| == |pos.Keys| && |m| == |m.Keys|;
    if !HasEmpty(s) {
      forall j | 0 <= j < |s| ensures s[j].key in pos && pos[s[j].key] == j {
        assert !Taken(s, j) ==> HasEmpty(s);
      }
      FullTableCounts(s, pos, |s|);
    }
  }

  lemma {:induction false} FullTableCounts(s: seq<Slot>, pos: map<Uuid, nat>, n: nat)
    requires n <= |s|
    requires forall j :: 0 <= j < n ==> s[j].key in pos && pos[s[j].key] == j
    ensures |pos| >= n
    decreases n
  {
    if n > 0 {
      var k := s[n - 1].key;
      FullTableCounts(s, pos - {k}, n - 1);
      assert pos == (pos - {k})[k := pos[k]];
    }
  }

  /** Every slot from `h` up to `i` is taken, and not by k. */
  ghost predicate Missed(s: seq<Slot>, h: nat, i: nat, k: Uuid) {
    forall m {:trigger Taken(s, m)} :: 0 <= m < |s| && Dist(h, m, |s|) < Dist(h, i, |s|) ==> Taken(s, m) && s[m].key != k
  }

  /** A probe that stands at its home slot has passed none. */
  lemma NothingMissedAtHome(s: seq<Slot>, h: nat, k: Uuid)
    requires h < |s|
    ensures Missed(s, h, h, k)
  {
    forall m: nat | m < |s| ensures Dist(h, m, |s|) >= Dist(h, h, |s|) {}
  }

  /** One probe step past a slot that is taken, but not by k; `e` is empty. */
  lemma MissedStep(s: seq<Slot>, h: nat, i: nat, k: Uuid, e: nat)
    requires h < |s| && i < |s| && e < |s| && !Taken(s, e)
    requires Missed(s, h, i, k) && Taken(s, i) && s[i].key != k
    ensures Next(i, |s|) < |s| && Missed(s, h, Next(i, |s|), k)
    ensures Dist(h, i, |s|) < Dist(h, Next(i, |s|), |s|) <= Dist(h, e, |s|)
  {}

  /** The probe that starts at k's home and stops at the first empty slot decides
      membership: this is why lookups need no tombstones. */
  lemma ProbeMissMeansAbsent(s: seq<Slot>, pos: map<Uuid, nat>, m: map<Uuid, nat>, home: HomeFn, k: Uuid, i: nat)
    requires Located(s, pos, m) && Probed(s, home)
    requires i < |s| && !Taken(s, i) && Missed(s, home(k, |s|), i, k)
    ensures k !in m && Unbroken(s, home(k, |s|), i)
  {
    assert forall k' :: k' in pos ==> Taken(s, pos[k']) && Unbroken(s, home(k', |s|), pos[k']);
  }

  /** Writing an empty slot adds exactly its key. */
  lemma FillAddsEntry(s: seq<Slot>, pos: map<Uuid, nat>, m: map<Uuid, nat>, i: nat, k: Uuid, v: nat)
    requires Located(s, pos, m) && i < |s| && !Taken(s, i) && k !in m
    ensures Located(s[i := Slot(k, v + 1)], pos[k := i], m[k := v])
  {
    WriteTaken(s, i, Slot(k, v + 1));
  }

  /** Filling the first empty slot on k's probe path keeps every key reachable. */
  lemma FillKeepsProbes(s: seq<Slot>, home: HomeFn, i: nat, k: Uuid, ref: nat)
    requires Probed(s, home) && i < |s| && !Taken(s, i) && ref != 0
    requires Unbroken(s, home(k, |s|), i)
    ensures Probed(s[i := Slot(k, ref)], home)
  {
    var s' := s[i := Slot(k, ref)];
    WriteTaken(s, i, Slot(k, ref));
    forall j | 0 <= j < |s'| && Taken(s', j) ensures Unbroken(s', home(s'[j].key, |s'|), j) {
      assert j != i ==> Unbroken(s, home(s[j].key, |s|), j);
    }
  }

  /** Storing a new row id under a present key changes only that key. */
  lemma OverwriteChangesEntry(s: seq<Slot>, pos: map<Uuid, nat>, m: map<Uuid, nat>, home: HomeFn, k: Uuid, v: nat)
    requires Located(s, pos, m) && Probed(s, home) && k in m
    ensures pos[k] < |s|
    ensures Located(s[pos[k] := Slot(k, v + 1)], pos, m[k := v]) && Probed(s[pos[k] := Slot(k, v + 1)], home)
  {
    var s' := s[pos[k] := Slot(k, v + 1)];
    WriteTaken(s, pos[k], Slot(k, v + 1));
    assert Taken(s, pos[k]);
    forall j | 0 <= j < |s'| && Taken(s', j) ensures Unbroken(s', home(s'[j].key, |s'|), j) {
      assert Taken(s, j) && Unbroken(s, home(s[j].key, |s|), j);
    }
  }

  // ---- backward-shift deletion ----

  /** While a deletion walks, slot `gap` is to be vacated and every other stored
      key is a survivor of `m`, sitting where `live` says. */
  ghost predicate Gapped(s: seq<Slot>, live: map<Uuid, nat>, m: map<Uuid, nat>, gap: nat) {
    && gap < |s| && Taken(s, gap) && live.Keys == m.Keys
    && (forall j {:trigger Taken(s, j)} :: 0 <= j < |s| && j != gap && Taken(s, j) ==> s[j].key in live && live[s[j].key] == j)
    && (forall k {:trigger live[k]} :: k in live ==> live[k] < |s| && live[k] != gap && s[live[k]].key == k && s[live[k]].ref == m[k] + 1)
  }

  /** Slots after the gap up to `j` are full, and none of them needs the gap. */
  ghost predicate Examined(s: seq<Slot>, home: HomeFn, gap: nat, j: nat) {
    forall m {:trigger Taken(s, m)} :: 0 <= m < |s| && 0 < Dist(gap, m, |s|) <= Dist(gap, j, |s|) ==>
      Taken(s, m) && Dist(home(s[m].key, |s|), gap, |s|) >= Dist(home(s[m].key, |s|), m, |s|)
  }

  /** The source's cyclic test: must the entry in `j` with home `h` fill gap `i`? */
  predicate MustMove(i: nat, j: nat, h: nat) {
    (j > i && (h <= i || h > j)) || (j < i && h <= i && h > j)
  }

  /** The test holds exactly when the gap lies on the entry's probe path. */
  lemma MustMoveMeansOnPath(i: nat, j: nat, h: nat, n: nat)
    requires i < n && j < n && h < n && i != j
    ensures MustMove(i, j, h) <==> Dist(h, i, n) < Dist(h, j, n)
  {}

  lemma StartGap(s: seq<Slot>, pos: map<Uuid, nat>, m: map<Uuid, nat>, gap: nat)
    requires Located(s, pos, m) && gap < |s| && Taken(s, gap)
    ensures Gapped(s, pos - {s[gap].key}, m - {s[gap].key}, gap)
    ensures |m - {s[gap].key}| == |m| - 1
  {
    var k := s[gap].key;
    assert m == (m - {k})[k := m[k]];
  }

  /** What a deletion at `gap` starts from. */
  lemma DeletionStarts(s: seq<Slot>, home: HomeFn, pos: map<Uuid, nat>, m: map<Uuid, nat>, gap: nat)
    requires Located(s, pos, m) && Probed(s, home) && |m| < |s| && gap < |s| && Taken(s, gap)
    ensures Gapped(s, pos - {s[gap].key}, m - {s[gap].key}, gap) && ProbedExcept(s, home, gap) && HasEmpty(s)
    ensures |m - {s[gap].key}| == |m| - 1
  {
    StartGap(s, pos, m, gap);
    EmptySlotExists(s, pos, m);
  }

  /** Moving an entry back into the gap keeps every survivor and opens the gap
      behind it. */
  lemma ShiftKeepsSurvivors(s: seq<Slot>, live: map<Uuid, nat>, m: map<Uuid, nat>, i: nat, j: nat)
    requires Gapped(s, live, m, i) && j < |s| && i != j && Taken(s, j)
    ensures Gapped(s[i := s[j]], live[s[j].key := i], m, j)
  {
    WriteTaken(s, i, s[j]);
  }

  /** The entry in `j` may step back because the gap lies on its own probe path. */
  lemma ShiftKeepsProbes(s: seq<Slot>, home: HomeFn, i: nat, j: nat)
    requires ProbedExcept(s, home, i)
    requires i < |s| && j < |s| && i != j && Taken(s, i) && Taken(s, j)
    requires Dist(home(s[j].key, |s|), i, |s|) < Dist(home(s[j].key, |s|), j, |s|)
    ensures ProbedExcept(s[i := s[j]], home, j)
  {
    var s' := s[i := s[j]];
    WriteTaken(s, i, s[j]);
    assert Unbroken(s, home(s[j].key, |s|), j);
    forall p | 0 <= p < |s'| && p != j && Taken(s', p) ensures Unbroken(s', home(s'[p].key, |s'|), p) {
      assert p != i ==> Unbroken(s, home(s[p].key, |s|), p);
    }
  }

  /** The whole loop invariant of a deletion: gap `i`, walk at `j`, `e` empty. */
  ghost predicate Walking(s: seq<Slot>, home: HomeFn, live: map<Uuid, nat>, m: map<Uuid, nat>, i: nat, j: nat, e: nat) {
    && Gapped(s, live, m, i) && ProbedExcept(s, home, i)
    && j < |s| && e < |s| && !Taken(s, e)
    && Examined(s, home, i, j) && Dist(i, j, |s|) < Dist(i, e, |s|)
  }

  lemma NextDist(i: nat, j: nat, e: nat, n: nat)
    requires i < n && j < n && e < n && Dist(i, j, n) < Dist(i, e, n)
    ensures Next(j, n) < n && Next(j, n) != i && Dist(i, Next(j, n), n) == Dist(i, j, n) + 1
    ensures Dist(Next(j, n), e, n) < Dist(j, e, n)
  {}

  lemma WalkStays(s: seq<Slot>, home: HomeFn, live: map<Uuid, nat>, m: map<Uuid, nat>, i: nat, j: nat, e: nat)
    requires Walking(s, home, live, m, i, j, e) && Taken(s, Next(j, |s|))
    requires !MustMove(i, Next(j, |s|), home(s[Next(j, |s|)].key, |s|))
    ensures Walking(s, home, live, m, i, Next(j, |s|), e)
  {
    NextDist(i, j, e, |s|);
    MustMoveMeansOnPath(i, Next(j, |s|), home(s[Next(j, |s|)].key, |s|), |s|);
  }

  lemma WalkShifts(s: seq<Slot>, home: HomeFn, live: map<Uuid, nat>, m: map<Uuid, nat>, i: nat, j: nat, e: nat)
    requires Walking(s, home, live, m, i, j, e) && Taken(s, Next(j, |s|))
    requires MustMove(i, Next(j, |s|), home(s[Next(j, |s|)].key, |s|))
    ensures var j' := Next(j, |s|);
            Walking(s[i := s[j']], home, live[s[j'].key := i], m, j', j', e)
  {
    var j' := Next(j, |s|);
    NextDist(i, j, e, |s|);
    MustMoveMeansOnPath(i, j', home(s[j'].key, |s|), |s|);
    ShiftKeepsSurvivors(s, live, m, i, j');
    ShiftKeepsProbes(s, home, i, j');
  }

  /** The walk may stop before the first empty slot: nothing beyond it probes
      through the gap, and everything before it was examined. */
  lemma WalkEnds(s: seq<Slot>, home: HomeFn, live: map<Uuid, nat>, m: map<Uuid, nat>, i: nat, j: nat, e: nat)
    requires Walking(s, home, live, m, i, j, e) && !Taken(s, Next(j, |s|))
    ensures Located(s[i := EMPTY], live, m) && Probed(s[i := EMPTY], home)
  {
    var s', n := s[i := EMPTY], Next(j, |s|);
    WriteTaken(s, i, EMPTY);
    forall p | 0 <= p < |s'| && Taken(s', p) ensures Unbroken(s', home(s'[p].key, |s'|), p) {
      assert Taken(s, p) && Unbroken(s, home(s[p].key, |s|), p);
      assert Dist(home(s[p].key, |s|), n, |s|) >= Dist(home(s[p].key, |s|), p, |s|);
    }
  }

  class PkMap {
    const home: HomeFn
    var slots: array<Slot>
    var shift: nat
    var used: nat
    ghost var pos: map<Uuid, nat>
    ghost var Contents: map<Uuid, nat>

    ghost predicate Valid()
      reads this, slots
    {
      && Located(slots[..], pos, Contents) && Probed(slots[..], home)
      && used == |Contents|
      && 4 * used <= 3 * slots.Length
      && (slots.Length == 0 || Shape(slots.Length, shift))
    }

    /** The zero value. */
    constructor (home: HomeFn)
      ensures Valid() && Contents == map[] && fresh(slots) && this.home == home
    {
      this.home := home;
      slots := new Slot[0];
      shift, used, pos, Contents := 0, 0, map[], map[];
    }

    method Init(hint: nat)
      requires hint <= MAX_ENTRIES
      modifies this
      ensures Valid() && Contents == map[] && fresh(slots)
      ensures 4 * hint <= 3 * slots.Length
    {
      var n := 16;
      ghost var k := 4;
      Pow2Values();
      while 4 * hint > 3 * n
        invariant 4 <= k <= 61 && n == Pow2(k)
        decreases 4 * hint - 3 * n
      {
        n := 2 * n;
        k := k + 1;
      }
      BitLenPow2(k);
      slots := new Slot[n](_ => EMPTY);
      shift, used, pos, Contents := 64 - BitLen(n - 1), 0, map[], map[];
    }

    method Get(k: Uuid) returns (r: Option<nat>)
      requires Valid()
      ensures r == if k in Contents then Some(Contents[k]) else None
    {
      if slots.Length == 0 {
        return None;
      }
      var i, found := Probe(k);
      return if found then Some(slots[i].ref - 1) else None;
    }

    /** The walk shared by get, find and reserve. */
    method Probe(k: Uuid) returns (i: nat, found: bool)
      requires Located(slots[..], pos, Contents) && Probed(slots[..], home) && |Contents| < slots.Length
      ensures i < slots.Length
      ensures found <==> k in Contents
      ensures found ==> i == pos[k] && slots[i] == Slot(k, Contents[k] + 1)
      ensures !found ==> !Taken(slots[..], i) && Unbroken(slots[..], home(k, slots.Length), i)
    {
      var n := slots.Length;
      ghost var s := slots[..];
      EmptySlotExists(s, pos, Contents);
      ghost var e: nat :| e < n && !Taken(s, e);
      ghost var h := home(k, n);
      assert Homes(home);
      i := home(k, n);
      NothingMissedAtHome(s, h, k);
      while slots[i].ref != 0 && slots[i].key != k
        invariant i < n && Missed(s, h, i, k)
        decreases Dist(h, e, n) - Dist(h, i, n)
      {
        assert Taken(s, i);
        MissedStep(s, h, i, k, e);
        i := Next(i, n);
      }
      found := slots[i].ref != 0;
      assert found == Taken(s, i);
      if !found {
        ProbeMissMeansAbsent(s, pos, Contents, home, k, i);
      }
    }

    /** One probe for both the duplicate check and the target slot, growing first
        when an insert would push the load past three quarters. */
    method Reserve(k: Uuid) returns (slot: nat, found: bool)
      requires Valid() && used < MAX_ENTRIES
      modifies this
      ensures Valid() && Contents == old(Contents) && (slots == old(slots) || fresh(slots))
      ensures slot < slots.Length && (found <==> k in Contents)
      ensures found ==> pos[k] == slot
      ensures !found ==> Free(slot, k)
    {
      if 4 * (used + 1) > 3 * slots.Length {
        Grow();
      }
      slot, found := Probe(k);
    }

    /** What a reserve miss promises about its slot, until the map next changes. */
    ghost predicate Free(slot: nat, k: Uuid)
      reads this, slots
    {
      && slot < slots.Length && !Taken(slots[..], slot) && k !in Contents
      && Unbroken(slots[..], home(k, slots.Length), slot)
      && 4 * (used + 1) <= 3 * slots.Length
    }

    method Commit(slot: nat, k: Uuid, rowId: nat)
      requires Valid() && Free(slot, k)
      modifies this, slots
      ensures Valid() && Contents == old(Contents)[k := rowId] && slots == old(slots)
    {
      ghost var was := slots[..];
      FillAddsEntry(was, pos, Contents, slot, k, rowId);
      FillKeepsProbes(was, home, slot, k, rowId + 1);
      slots[slot] := Slot(k, rowId + 1);
      assert slots[..] == was[slot := Slot(k, rowId + 1)];
      used := used + 1;
      pos, Contents := pos[k := slot], Contents[k := rowId];
    }

    method Put(k: Uuid, rowId: nat)
      requires Valid() && used < MAX_ENTRIES
      modifies this, slots
      ensures Valid() && Contents == old(Contents)[k := rowId] && (slots == old(slots) || fresh(slots))
    {
      var slot, found := Reserve(k);
      if found {
        ghost var was := slots[..];
        OverwriteChangesEntry(was, pos, Contents, home, k, rowId);
        slots[slot] := Slot(k, rowId + 1);
        assert slots[..] == was[slot := Slot(k, rowId + 1)];
        Contents := Contents[k := rowId];
        assert Contents.Keys == old(Contents).Keys && |Contents| == |Contents.Keys| && |old(Contents)| == |old(Contents).Keys|;
      } else {
        Commit(slot, k, rowId);
      }
    }

    method Find(k: Uuid) returns (slot: nat, rowId: nat, ok: bool)
      requires Valid()
      ensures ok <==> k in Contents
      ensures ok ==> slot < slots.Length && slots[slot] == Slot(k, rowId + 1) && rowId == Contents[k]
    {
      if slots.Length == 0 {
        return 0, 0, false;
      }
      var i, found := Probe(k);
      if found {
        return i, slots[i].ref - 1, true;
      }
      return 0, 0, false;
    }

    /** Removes the entry at `slot` and closes the gap by backward shift. */
    method DelAt(slot: nat)
      requires Valid() && slot < slots.Length && Taken(slots[..], slot)
      modifies this, slots
      ensures Valid() && slots == old(slots)
      ensures Contents == old(Contents) - {old(slots[slot].key)}
    {
      ghost var kept := Contents - {slots[slot].key};
      Vacate(slot, kept);
      used, Contents := used - 1, kept;
    }

    /** The slot's key is gone, and the table stands for the rest. */
    method Vacate(slot: nat, ghost kept: map<Uuid, nat>)
      requires Located(slots[..], pos, Contents) && Probed(slots[..], home) && |Contents| < slots.Length
      requires slot < slots.Length && Taken(slots[..], slot) && kept == Contents - {slots[slot].key}
      modifies this`pos, slots
      ensures Located(slots[..], pos, kept) && Probed(slots[..], home) && |kept| == |Contents| - 1
    {
      DeletionStarts(slots[..], home, pos, Contents, slot);
      pos := ShiftBack(slot, pos - {slots[slot].key}, kept);
    }

    /** The walk of a deletion: from the vacated slot to the end of its chain,
        where the slot left over is cleared. */
    method ShiftBack(slot: nat, ghost live: map<Uuid, nat>, ghost kept: map<Uuid, nat>)
      returns (ghost live': map<Uuid, nat>)
      requires Gapped(slots[..], live, kept, slot) && ProbedExcept(slots[..], home, slot) && HasEmpty(slots[..])
      modifies slots
      ensures Located(slots[..], live', kept) && Probed(slots[..], home)
    {
      ghost var e: nat :| e < slots.Length && !Taken(slots[..], e);
      var i, j := slot, slot;
      live' := live;
      while slots[Next(j, slots.Length)].ref != 0
        invariant Walking(slots[..], home, live', kept, i, j, e)
        decreases Dist(j, e, slots.Length)
      {
        assert Taken(slots[..], Next(j, slots.Length));
        i, j, live' := DelStep(i, j, live', kept, e);
      }
      ghost var s := slots[..];
      assert !Taken(s, Next(j, |s|));
      WalkEnds(s, home, live', kept, i, j, e);
      slots[i] := EMPTY;
      assert slots[..] == s[i := EMPTY];
    }

    /** One turn of the deletion loop: step `j`, and move its entry into the gap
        when the gap lies on that entry's probe path. */
    method DelStep(i: nat, j: nat, ghost live: map<Uuid, nat>, ghost kept: map<Uuid, nat>, ghost e: nat)
      returns (i': nat, j': nat, ghost live': map<Uuid, nat>)
      requires Walking(slots[..], home, live, kept, i, j, e) && Taken(slots[..], Next(j, slots.Length))
      modifies slots
      ensures Walking(slots[..], home, live', kept, i', j', e)
      ensures Dist(j', e, slots.Length) < Dist(j, e, slots.Length)
    {
      ghost var s := slots[..];
      NextDist(i, j, e, |s|);
      i', j', live' := i, Next(j, slots.Length), live;
      if MustMove(i, j', home(slots[j'].key, slots.Length)) {
        WalkShifts(s, home, live, kept, i, j, e);
        slots[i] := slots[j'];
        assert slots[..] == s[i := s[j']];
        i', live' := j', live[s[j'].key := i];
      } else {
        WalkStays(s, home, live, kept, i, j, e);
      }
    }

    method Del(k: Uuid) returns (rowId: nat, ok: bool)
      requires Valid()
      modifies this, slots
      ensures Valid() && slots == old(slots)
      ensures ok <==> k in old(Contents)
      ensures ok ==> rowId == old(Contents)[k]
      ensures Contents == old(Contents) - {k}
    {
      var slot;
      slot, rowId, ok := Find(k);
      if ok {
        assert Taken(slots[..], slot);
        DelAt(slot);
      }
    }

    /** Doubles the table and reinserts every entry under the new shift. */
    method Grow()
      requires Valid() && used < MAX_ENTRIES && 4 * (used + 1) > 3 * slots.Length
      modifies this
      ensures Valid() && Contents == old(Contents) && fresh(slots)
      ensures 4 * (used + 1) <= 3 * slots.Length && slots.Length > 0
    {
      var n := if slots.Length * 2 < 16 then 16 else slots.Length * 2;
      DoubledShape(slots.Length, shift, used);
      var prev := slots;
      slots := new Slot[n](_ => EMPTY);
      shift := 64 - BitLen(n - 1);
      Reinsert(prev);
    }

    /** The loop of a grow over the previous slots. */
    method Reinsert(prev: array<Slot>)
      requires prev != slots && Located(prev[..], pos, Contents) && |Contents| < slots.Length
      requires forall j :: 0 <= j < slots.Length ==> slots[j] == EMPTY
      modifies slots, this`pos
      ensures Located(slots[..], pos, Contents) && Probed(slots[..], home)
    {
      ghost var was, at := prev[..], pos;
      ghost var done: map<Uuid, nat> := map[];
      pos := map[];
      for idx := 0 to prev.Length
        invariant prev[..] == was
        invariant Located(slots[..], pos, done) && Probed(slots[..], home)
        invariant PlacedBelow(was, at, Contents, done, idx)
      {
        done := ReinsertSlot(prev[idx], idx, was, at, done);
      }
      assert done == Contents;
    }

    /** One turn of the reinsertion loop: empty slots are skipped. */
    method ReinsertSlot(s: Slot, ghost idx: nat, ghost was: seq<Slot>, ghost at: map<Uuid, nat>, ghost done: map<Uuid, nat>)
      returns (ghost done': map<Uuid, nat>)
      requires idx < |was| && s == was[idx] && PlacedBelow(was, at, Contents, done, idx)
      requires Located(slots[..], pos, done) && Probed(slots[..], home) && |Contents| < slots.Length
      modifies slots, this`pos
      ensures PlacedBelow(was, at, Contents, done', idx + 1)
      ensures Located(slots[..], pos, done') && Probed(slots[..], home)
    {
      done' := done;
      NextPlaced(was, at, Contents, done, idx);
      assert Taken(was, idx) <==> s.ref != 0;
      if s.ref != 0 {
        Place(s, done);
        done' := done[s.key := s.ref - 1];
      }
    }

    /** `done` is the part of `m` stored in the first `idx` slots. */
    ghost predicate PlacedBelow(s: seq<Slot>, pos: map<Uuid, nat>, m: map<Uuid, nat>, done: map<Uuid, nat>, idx: nat) {
      Located(s, pos, m) && forall k :: (k in done <==> k in pos && pos[k] < idx) && (k in done ==> done[k] == m[k])
    }

    lemma NextPlaced(s: seq<Slot>, pos: map<Uuid, nat>, m: map<Uuid, nat>, done: map<Uuid, nat>, idx: nat)
      requires PlacedBelow(s, pos, m, done, idx) && idx < |s|
      ensures !Taken(s, idx) ==> PlacedBelow(s, pos, m, done, idx + 1)
      ensures Taken(s, idx) ==>
                s[idx].key !in done && |done| < |m| && PlacedBelow(s, pos, m, done[s[idx].key := s[idx].ref - 1], idx + 1)
    {
      if Taken(s, idx) {
        CountKeys(done, m, s[idx].key);
      }
    }

    lemma CountKeys(a: map<Uuid, nat>, b: map<Uuid, nat>, k: Uuid)
      requires a.Keys <= b.Keys && k in b && k !in a
      ensures |a| < |b|
    {
      var more := b.Keys - a.Keys;
      assert a.Keys + more == b.Keys && a.Keys !! more && k in more;
    }

    lemma DoubledShape(len: nat, shift: nat, used: nat)
      requires len == 0 || Shape(len, shift)
      requires 4 * used <= 3 * len && 4 * (used + 1) > 3 * len && used < MAX_ENTRIES
      ensures var n := if len * 2 < 16 then 16 else len * 2;
              n > used && 4 * (used + 1) <= 3 * n && BitLen(n - 1) <= 64 && Shape(n, 64 - BitLen(n - 1))
    {
      Pow2Values();
      var log := if len == 0 then 4 else 65 - shift;
      if len > 0 {
        Pow2Monotone(4, log - 1);
        if log > 61 {
          Pow2Monotone(61, log - 1);
        }
      }
      BitLenPow2(log);
    }

    /** Stores an old slot at the first empty slot from its new home. */
    method Place(s: Slot, ghost m: map<Uuid, nat>)
      requires Located(slots[..], pos, m) && Probed(slots[..], home)
      requires s.ref != 0 && s.key !in m && |m| < slots.Length
      modifies slots, this`pos
      ensures Located(slots[..], pos, m[s.key := s.ref - 1]) && Probed(slots[..], home)
    {
      var i := FirstEmpty(s.key, m);
      ghost var was := slots[..];
      FillAddsEntry(was, pos, m, i, s.key, s.ref - 1);
      FillKeepsProbes(was, home, i, s.key, s.ref);
      slots[i] := s;
      assert slots[..] == was[i := Slot(s.key, s.ref)];
      pos := pos[s.key := i];
    }

    method FirstEmpty(k: Uuid, ghost m: map<Uuid, nat>) returns (i: nat)
      requires Located(slots[..], pos, m) && |m| < slots.Length
      ensures i < slots.Length && !Taken(slots[..], i) && Unbroken(slots[..], home(k, slots.Length), i)
    {
      var n := slots.Length;
      ghost var s := slots[..];
      EmptySlotExists(s, pos, m);
      ghost var e: nat :| e < n && !Taken(s, e);
      ghost var h := home(k, n);
      assert Homes(home);
      i := home(k, n);
      while slots[i].ref != 0
        invariant i < n && Unbroken(s, h, i)
        decreases Dist(h, e, n) - Dist(h, i, n)
      {
        assert Taken(s, i) && !Taken(s, e) && Dist(h, i, n) < Dist(h, e, n);
        i := Next(i, n);
      }
      assert !Taken(s, i);
    }
  }
}
