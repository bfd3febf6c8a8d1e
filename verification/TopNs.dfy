/** ORDER BY with LIMIT: a bounded heap whose root is the next row to drop, holding each
    kept row's projection in a window of one shared buffer (exec_select.go). */
module TopNs {
  import opened Wrappers
  import opened Values
  import opened Sequences
  import opened IndexOrder
  import opened OrderedWalks

  // ---- the heap order ----

  /** `a` ranks below `b`: it drops first. */
  predicate Worse(a: IndexKey, b: IndexKey, desc: bool) {
    Before(b, a, desc)
  }

  lemma WorseTotal(a: IndexKey, b: IndexKey, desc: bool)
    requires a.Kind() == b.Kind()
    ensures !Worse(a, a, desc) && !(Worse(a, b, desc) && Worse(b, a, desc))
  {
    BeforeTotal(a, b, desc);
    BeforeTotal(a, a, desc);
  }

  /** Not worse than something not worse than `c`. */
  lemma NotWorse(a: IndexKey, b: IndexKey, c: IndexKey, desc: bool)
    requires a.Kind() == b.Kind() == c.Kind() && !Worse(a, b, desc) && !Worse(b, c, desc)
    ensures !Worse(a, c, desc)
  {
    NotBeforeTransitive(a, b, c, desc);
  }

  function Parent(j: nat): nat
    requires j > 0
  {
    (j - 1) / 2
  }

  /** A child never drops before its parent. */
  predicate Under(keys: seq<IndexKey>, desc: bool, j: nat)
    requires 0 < j < |keys|
  {
    !Worse(keys[j], keys[Parent(j)], desc)
  }

  ghost predicate Heap(keys: seq<IndexKey>, desc: bool) {
    forall j {:trigger Under(keys, desc, j)} :: 0 < j < |keys| ==> Under(keys, desc, j)
  }

  lemma {:induction false} RootIsWorst(keys: seq<IndexKey>, kind: Kind, desc: bool, i: nat)
    requires Heap(keys, desc) && KeysOfKind(keys, kind) && i < |keys|
    ensures !Worse(keys[i], keys[0], desc)
  {
    if i == 0 {
      WorseTotal(keys[0], keys[0], desc);
    } else {
      assert Under(keys, desc, i);
      RootIsWorst(keys, kind, desc, Parent(i));
      NotWorse(keys[i], keys[Parent(i)], keys[0], desc);
    }
  }

  function Swap<T>(s: seq<T>, i: nat, j: nat): (r: seq<T>)
    requires i < |s| && j < |s|
    ensures multiset(r) == multiset(s)
  {
    s[i := s[j]][j := s[i]]
  }

  /** A child of `i` does not drop before the parent of `i`. */
  predicate Bridged(keys: seq<IndexKey>, desc: bool, i: nat, j: nat)
    requires 0 < i < |keys| && 0 < j < |keys|
  {
    Parent(j) == i ==> !Worse(keys[j], keys[Parent(i)], desc)
  }

  /** A heap but for `i`, which may belong higher up. */
  ghost predicate HeapBut(keys: seq<IndexKey>, desc: bool, i: nat) {
    && i < |keys|
    && (forall j {:trigger Under(keys, desc, j)} :: 0 < j < |keys| && j != i ==> Under(keys, desc, j))
    && (i > 0 ==> forall j {:trigger Bridged(keys, desc, i, j)} :: 0 < j < |keys| ==> Bridged(keys, desc, i, j))
  }

  /** A heap but for the children of `i`, which may belong lower down. */
  ghost predicate HeapAbove(keys: seq<IndexKey>, desc: bool, i: nat) {
    && i < |keys|
    && (forall j {:trigger Under(keys, desc, j)} :: 0 < j < |keys| && Parent(j) != i ==> Under(keys, desc, j))
    && (i > 0 ==> forall j {:trigger Bridged(keys, desc, i, j)} :: 0 < j < |keys| ==> Bridged(keys, desc, i, j))
  }

  lemma SiftUpStep(keys: seq<IndexKey>, kind: Kind, desc: bool, i: nat)
    requires HeapBut(keys, desc, i) && KeysOfKind(keys, kind) && i > 0 && Worse(keys[i], keys[Parent(i)], desc)
    ensures HeapBut(Swap(keys, i, Parent(i)), desc, Parent(i))
  {
    var p := Parent(i);
    var keys' := Swap(keys, i, p);
    WorseTotal(keys[i], keys[p], desc);
    forall j | 0 < j < |keys'| && j != p ensures Under(keys', desc, j) {
      if j != i && Parent(j) == i {
        assert Bridged(keys, desc, i, j);
      } else if j != i {
        assert Under(keys, desc, j);
        if Parent(j) == p { NotWorse(keys[j], keys[p], keys[i], desc); }
      }
    }
    if p > 0 {
      assert Under(keys, desc, p);
      forall j | 0 < j < |keys'| ensures Bridged(keys', desc, p, j) {
        if Parent(j) == p && j != i {
          assert Under(keys, desc, j);
          NotWorse(keys[j], keys[p], keys[Parent(p)], desc);
        }
      }
    }
  }

  lemma SiftUpDone(keys: seq<IndexKey>, desc: bool, i: nat)
    requires HeapBut(keys, desc, i) && (i > 0 ==> !Worse(keys[i], keys[Parent(i)], desc))
    ensures Heap(keys, desc)
  {
    assert i > 0 ==> Under(keys, desc, i);
  }

  /** The one of `i` and its children that drops first. */
  function Worst(keys: seq<IndexKey>, desc: bool, i: nat): (w: nat)
    requires i < |keys|
    ensures w < |keys| && (w == i || (w > 0 && Parent(w) == i))
  {
    var l, r := 2 * i + 1, 2 * i + 2;
    var w := if l < |keys| && Worse(keys[l], keys[i], desc) then l else i;
    if r < |keys| && Worse(keys[r], keys[w], desc) then r else w
  }

  lemma WorstIsWorst(keys: seq<IndexKey>, kind: Kind, desc: bool, i: nat, j: nat)
    requires i < |keys| && KeysOfKind(keys, kind) && 0 < j < |keys| && Parent(j) == i
    ensures !Worse(keys[j], keys[Worst(keys, desc, i)], desc) && !Worse(keys[i], keys[Worst(keys, desc, i)], desc)
  {
    var l, r, w := 2 * i + 1, 2 * i + 2, Worst(keys, desc, i);
    assert j == l || j == r;
    WorseTotal(keys[i], keys[i], desc);
    WorseTotal(keys[j], keys[j], desc);
    WorseTotal(keys[l], keys[i], desc);
    if r < |keys| {
      WorseTotal(keys[r], keys[i], desc);
      WorseTotal(keys[r], keys[l], desc);
      if w == r && Worse(keys[l], keys[i], desc) {
        NotWorse(keys[i], keys[l], keys[r], desc);
      } else if w == r {
        NotWorse(keys[l], keys[i], keys[r], desc);
      }
    }
  }

  lemma SiftDownStep(keys: seq<IndexKey>, kind: Kind, desc: bool, i: nat)
    requires HeapAbove(keys, desc, i) && KeysOfKind(keys, kind) && Worst(keys, desc, i) != i
    ensures HeapAbove(Swap(keys, i, Worst(keys, desc, i)), desc, Worst(keys, desc, i))
  {
    var w := Worst(keys, desc, i);
    var keys' := Swap(keys, i, w);
    forall j | 0 < j < |keys'| && Parent(j) != w ensures Under(keys', desc, j) {
      if Parent(j) == i {
        WorstIsWorst(keys, kind, desc, i, j);
      } else if j == i {
        assert Bridged(keys, desc, i, w);
      } else {
        assert Under(keys, desc, j);
      }
    }
    forall j | 0 < j < |keys'| ensures Bridged(keys', desc, w, j) {
      if Parent(j) == w { assert Under(keys, desc, j); }
    }
  }

  lemma SiftDownDone(keys: seq<IndexKey>, kind: Kind, desc: bool, i: nat)
    requires HeapAbove(keys, desc, i) && KeysOfKind(keys, kind) && Worst(keys, desc, i) == i
    ensures Heap(keys, desc)
  {
    forall j | 0 < j < |keys| ensures Under(keys, desc, j) {
      if Parent(j) == i { WorstIsWorst(keys, kind, desc, i, j); }
    }
  }

  // ---- kept entries ----

  const TOP_PACK_CAP: nat := 1024

  /** A kept row: its own allocation, or a window of the shared buffer. */
  datatype RowRef = Own(row: Row) | Window(slot: nat)

  /** One kept row with its sort key; `src` is the row it was filled from. */
  datatype Entry = Entry(key: Value, ref: RowRef, ghost src: Row)

  function HeapKeys(h: seq<Entry>): seq<IndexKey> {
    seq(|h|, i requires 0 <= i < |h| => KeyOf(h[i].key))
  }

  ghost function Sources(h: seq<Entry>): seq<Row> {
    seq(|h|, i requires 0 <= i < |h| => h[i].src)
  }

  lemma SwapKeys(h: seq<Entry>, i: nat, j: nat)
    requires i < |h| && j < |h|
    ensures HeapKeys(Swap(h, i, j)) == Swap(HeapKeys(h), i, j) && multiset(Sources(Swap(h, i, j))) == multiset(Sources(h))
  {
    assert Sources(Swap(h, i, j)) == Swap(Sources(h), i, j);
  }

  /** What a heap is filled with: the sort column and its kind, and the columns kept. */
  datatype Shape = Shape(ord: nat, desc: bool, capN: nat, proj: Option<seq<nat>>, kind: Kind)

  ghost predicate Fits(sh: Shape, r: Row) {
    && sh.ord < |r| && r[sh.ord].Kind() == sh.kind != KindNull
    && (sh.proj.Some? ==> forall j :: 0 <= j < |sh.proj.value| ==> sh.proj.value[j] < |r|)
  }

  /** `packs`: a bounded, fixed-width projection. */
  predicate Packs(sh: Shape) {
    sh.proj.Some? && 0 < sh.capN <= TOP_PACK_CAP
  }

  function Width(sh: Shape): nat {
    if sh.proj.Some? then |sh.proj.value| else 0
  }

  /** What a query returns for a row: the row itself when it lists no columns, else cell by
      cell the columns it lists. */
  ghost predicate Shows(sh: Shape, r: Row, out: Row) {
    match sh.proj
    case None => out == r
    case Some(ords) => |out| == |ords| && forall j {:trigger out[j]} :: 0 <= j < |ords| ==> ords[j] < |r| && out[j] == r[ords[j]]
  }

  /** `take`: the projected columns, or the whole row. */
  function Projected(sh: Shape, r: Row): (out: Row)
    requires sh.proj.Some? ==> forall j :: 0 <= j < |sh.proj.value| ==> sh.proj.value[j] < |r|
    ensures Shows(sh, r, out)
  {
    if sh.proj.None? then r
    else seq(|sh.proj.value|, j requires 0 <= j < |sh.proj.value| => r[sh.proj.value[j]])
  }

  lemma SlotInRange(slot: nat, capN: nat, w: nat)
    requires slot < capN
    ensures slot * w + w <= capN * w
  {
    assert (slot + 1) * w <= capN * w;
  }

  lemma SlotsApart(a: nat, b: nat, w: nat)
    requires a < b
    ensures a * w + w <= b * w
  {
    SlotInRange(a, b, w);
  }

  /** What a window of the buffer holds. */
  function WindowOf(cells: seq<Value>, slot: nat, w: nat): Row
    requires slot * w + w <= |cells|
  {
    cells[slot * w..slot * w + w]
  }

  /** The entry's key and row are those of the row it was filled from. */
  ghost predicate EntryHolds(sh: Shape, e: Entry, cells: seq<Value>) {
    && Fits(sh, e.src) && e.key == e.src[sh.ord]
    && match e.ref
       case Own(row) => !Packs(sh) && row == Projected(sh, e.src)
       case Window(slot) =>
         && Packs(sh) && slot < sh.capN && |cells| == sh.capN * Width(sh)
         && slot * Width(sh) + Width(sh) <= |cells| && WindowOf(cells, slot, Width(sh)) == Projected(sh, e.src)
  }

  ghost predicate AllHold(sh: Shape, h: seq<Entry>, cells: seq<Value>) {
    forall i :: 0 <= i < |h| ==> EntryHolds(sh, h[i], cells)
  }

  /** Windows in use are the first |h| slots, each once: no two rows share a cell. */
  ghost predicate SlotsDistinct(h: seq<Entry>) {
    && (forall i :: 0 <= i < |h| && h[i].ref.Window? ==> h[i].ref.slot < |h|)
    && forall i, j :: 0 <= i < j < |h| && h[i].ref.Window? && h[j].ref.Window? ==> h[i].ref.slot != h[j].ref.slot
  }

  lemma SwapHolds(sh: Shape, h: seq<Entry>, cells: seq<Value>, i: nat, j: nat)
    requires i < |h| && j < |h| && AllHold(sh, h, cells) && SlotsDistinct(h)
    ensures AllHold(sh, Swap(h, i, j), cells) && SlotsDistinct(Swap(h, i, j))
  {
    var g := Swap(h, i, j);
    forall k | 0 <= k < |g| ensures EntryHolds(sh, g[k], cells) { assert EntryHolds(sh, h[Swapped(i, j, k)], cells); }
    forall k | 0 <= k < |g| ensures g[k] == h[Swapped(i, j, k)] {}
  }

  function Swapped(i: nat, j: nat, k: nat): nat {
    if k == i then j else if k == j then i else k
  }

  lemma KeysAreOfKind(sh: Shape, h: seq<Entry>, cells: seq<Value>)
    requires AllHold(sh, h, cells)
    ensures KeysOfKind(HeapKeys(h), sh.kind)
  {
    forall i | 0 <= i < |h| ensures HeapKeys(h)[i].Kind() == sh.kind {
      assert EntryHolds(sh, h[i], cells);
      KeyOfInjective(h[i].key, h[i].key);
    }
  }

  /** `evictable` on cells is `Worse` on their keys. */
  lemma EvictableIsWorse(a: Value, b: Value, desc: bool)
    requires SameKind(a, b)
    ensures Evictable(a, b, desc) <==> Worse(KeyOf(a), KeyOf(b), desc)
  {
    KeyOrderIsValueOrder(a, b);
    KeyOrderIsValueOrder(b, a);
    CompareSameKind(a, b);
  }

  /** `evictable`: incomparable keys never evict. */
  predicate Evictable(a: Value, b: Value, desc: bool) {
    match Compare(a, b)
    case None => false
    case Some(c) => if desc then c < 0 else c > 0
  }

  // ---- kept and dropped ----

  function RowKeys(sh: Shape, rows: seq<Row>): seq<IndexKey>
    requires forall i :: 0 <= i < |rows| ==> sh.ord < |rows[i]|
  {
    seq(|rows|, i requires 0 <= i < |rows| => KeyOf(rows[i][sh.ord]))
  }

  ghost predicate AllFit(sh: Shape, rows: seq<Row>) {
    forall i :: 0 <= i < |rows| ==> Fits(sh, rows[i])
  }

  /** No kept key ranks below a dropped one. */
  ghost predicate Best(kept: seq<IndexKey>, dropped: seq<IndexKey>, desc: bool) {
    forall i, j :: 0 <= i < |kept| && 0 <= j < |dropped| ==> !Worse(kept[i], dropped[j], desc)
  }

  /** Nothing is lost: kept and dropped together are what was offered, nothing is dropped
      before the heap is full, and what is kept is the best. */
  ghost predicate Split(sh: Shape, h: seq<Entry>, dropped: seq<Row>, offered: seq<Row>) {
    && AllFit(sh, dropped) && AllFit(sh, offered)
    && multiset(Sources(h)) + multiset(dropped) == multiset(offered)
    && |h| <= sh.capN && (|h| < sh.capN ==> dropped == [])
    && Best(HeapKeys(h), RowKeys(sh, dropped), sh.desc)
  }

  /** Replacing the worst kept row by a better one keeps the kept rows the best. */
  lemma BetterReplaces(kept: seq<IndexKey>, dropped: seq<IndexKey>, kind: Kind, desc: bool, key: IndexKey)
    requires kept != [] && Heap(kept, desc) && KeysOfKind(kept, kind) && KeysOfKind(dropped, kind) && key.Kind() == kind
    requires Best(kept, dropped, desc) && Worse(kept[0], key, desc)
    ensures Best(kept[0 := key], dropped + [kept[0]], desc)
  {
    WorseTotal(kept[0], key, desc);
    var kept', dropped' := kept[0 := key], dropped + [kept[0]];
    forall i, j | 0 <= i < |kept'| && 0 <= j < |dropped'| ensures !Worse(kept'[i], dropped'[j], desc) {
      if i > 0 {
        RootIsWorst(kept, kind, desc, i);
      } else if j < |dropped| {
        NotWorse(key, kept[0], dropped[j], desc);
      }
    }
  }

  /** A candidate the root is no worse than can be dropped. */
  lemma WorseDropped(kept: seq<IndexKey>, dropped: seq<IndexKey>, kind: Kind, desc: bool, key: IndexKey)
    requires kept != [] && Heap(kept, desc) && KeysOfKind(kept, kind) && KeysOfKind(dropped, kind) && key.Kind() == kind
    requires Best(kept, dropped, desc) && !Worse(kept[0], key, desc)
    ensures Best(kept, dropped + [key], desc)
  {
    var dropped' := dropped + [key];
    forall i, j | 0 <= i < |kept| && 0 <= j < |dropped'| ensures !Worse(kept[i], dropped'[j], desc) {
      if j == |dropped| {
        RootIsWorst(kept, kind, desc, i);
        NotWorse(kept[i], kept[0], key, desc);
      }
    }
  }

  /** Permuting the kept entries changes neither. */
  lemma SwapSplit(sh: Shape, h: seq<Entry>, dropped: seq<Row>, offered: seq<Row>, i: nat, j: nat)
    requires i < |h| && j < |h| && Split(sh, h, dropped, offered)
    ensures Split(sh, Swap(h, i, j), dropped, offered)
  {
    SwapKeys(h, i, j);
  }

  // ---- the heap ----

  class TopN {
    const sh: Shape
    var h: seq<Entry>
    var backing: array?<Value>
    ghost var offered: seq<Row>
    ghost var dropped: seq<Row>

    constructor (sh: Shape)
      requires sh.kind != KindNull
      ensures Valid() && this.sh == sh && offered == [] && h == [] && backing == null
    {
      this.sh, h, backing, offered, dropped := sh, [], null, [], [];
    }

    ghost function Buffer(): seq<Value>
      reads this, backing
    {
      if backing == null then [] else backing[..]
    }

    /** Every entry holds the projection of its own row, in a window of its own. */
    ghost predicate Stored()
      reads this, backing
    {
      && AllHold(sh, h, Buffer()) && SlotsDistinct(h)
      && (Packs(sh) && h != [] ==> backing != null) && (backing != null ==> Packs(sh) && backing.Length == sh.capN * Width(sh))
    }

    ghost predicate Valid()
      reads this, backing
    {
      Stored() && Heap(HeapKeys(h), sh.desc) && Split(sh, h, dropped, offered)
    }

    /** `projInto` on a window: the row's projected cells, and no other cell. */
    method ProjInto(slot: nat, r: Row)
      requires backing != null && Packs(sh) && Fits(sh, r) && slot < sh.capN && backing.Length == sh.capN * Width(sh)
      modifies backing
      ensures slot * Width(sh) + Width(sh) <= backing.Length && WindowOf(backing[..], slot, Width(sh)) == Projected(sh, r)
      ensures forall k :: 0 <= k < backing.Length && !(slot * Width(sh) <= k < slot * Width(sh) + Width(sh)) ==> backing[k] == old(backing[k])
    {
      var w := Width(sh);
      SlotInRange(slot, sh.capN, w);
      var off := slot * w;
      for j := 0 to w
        invariant forall k :: 0 <= k < j ==> backing[off + k] == r[sh.proj.value[k]]
        invariant forall k :: 0 <= k < backing.Length && !(off <= k < off + w) ==> backing[k] == old(backing[k])
      {
        backing[off + j] := r[sh.proj.value[j]];
      }
      assert forall k :: 0 <= k < w ==> WindowOf(backing[..], slot, w)[k] == backing[off + k];
    }

    /** `fillSlot`: the kept form of `r`, in backing slot `i` when packing; the buffer is
        allocated with the first. Other entries keep their rows. */
    method FillSlot(r: Row, i: nat) returns (ref: RowRef)
      requires Stored() && Fits(sh, r) && i == |h| < sh.capN
      modifies this`backing, backing
      ensures Stored() && (backing == old(backing) || fresh(backing))
      ensures EntryHolds(sh, Entry(r[sh.ord], ref, r), Buffer()) && (Packs(sh) ==> ref == Window(i) && backing != null)
    {
      if !Packs(sh) { return Own(Projected(sh, r)); }
      if backing == null { backing := new Value[sh.capN * Width(sh)](_ => Null); }
      ghost var cells := backing[..];
      ProjInto(i, r);
      forall k | 0 <= k < |h| ensures EntryHolds(sh, h[k], backing[..]) { OtherWindows(sh, h[k], i, cells, backing[..]); }
      return Window(i);
    }

    /** `reuseSlot`: the row is written over the evicted root's window. */
    method ReuseSlot(r: Row) returns (ref: RowRef)
      requires Stored() && Fits(sh, r) && h != []
      modifies backing
      ensures forall k :: 1 <= k < |h| ==> EntryHolds(sh, h[k], Buffer())
      ensures EntryHolds(sh, Entry(r[sh.ord], ref, r), Buffer()) && (if Packs(sh) then h[0].ref == ref else !ref.Window?)
    {
      if !Packs(sh) { return Own(Projected(sh, r)); }
      assert EntryHolds(sh, h[0], Buffer());
      var slot := h[0].ref.slot;
      ghost var cells := backing[..];
      ProjInto(slot, r);
      forall k | 1 <= k < |h| ensures EntryHolds(sh, h[k], backing[..]) { OtherWindows(sh, h[k], slot, cells, backing[..]); }
      return h[0].ref;
    }

    /** The fill phase: the row goes into the next unused slot, at the end of the heap. */
    method Append(r: Row)
      requires Valid() && Fits(sh, r) && |h| < sh.capN
      modifies this`h, this`backing, this`offered, backing
      ensures Stored() && Split(sh, h, dropped, offered) && |h| == old(|h|) + 1 && HeapBut(HeapKeys(h), sh.desc, |h| - 1)
      ensures offered == old(offered) + [r] && (backing == old(backing) || fresh(backing))
    {
      var ref := FillSlot(r, |h|);
      ghost var e := Entry(r[sh.ord], ref, r);
      AppendSplit(sh, h, dropped, offered, e);
      AppendHeap(h, e, sh.desc);
      AppendStored(sh, h, e, Buffer());
      h := h + [Entry(r[sh.ord], ref, r)];
      offered := offered + [r];
    }

    /** The better row takes the root's place, in its window. */
    method ReplaceRoot(r: Row)
      requires Valid() && Fits(sh, r) && |h| == sh.capN > 0 && Worse(HeapKeys(h)[0], KeyOf(r[sh.ord]), sh.desc)
      modifies this`h, this`offered, this`dropped, backing
      ensures Stored() && Split(sh, h, dropped, offered) && |h| == old(|h|) && HeapAbove(HeapKeys(h), sh.desc, 0)
      ensures offered == old(offered) + [r]
    {
      ghost var old_ := h[0];
      KeysAreOfKind(sh, h, Buffer());
      assert EntryHolds(sh, h[0], Buffer());
      var ref := ReuseSlot(r);
      ghost var e := Entry(r[sh.ord], ref, r);
      ReplaceSplit(sh, h, dropped, offered, e);
      ReplaceHeap(h, e, sh.desc);
      h := h[0 := Entry(r[sh.ord], ref, r)];
      dropped, offered := dropped + [old_.src], offered + [r];
    }

    ghost predicate Rising(i: nat)
      reads this, backing
    {
      Stored() && Split(sh, h, dropped, offered) && HeapBut(HeapKeys(h), sh.desc, i)
    }

    ghost predicate Sinking(i: nat)
      reads this, backing
    {
      Stored() && Split(sh, h, dropped, offered) && HeapAbove(HeapKeys(h), sh.desc, i)
    }

    /** Exchanges two entries; each keeps its window. */
    method Exchange(i: nat, j: nat)
      requires Stored() && Split(sh, h, dropped, offered) && i < |h| && j < |h|
      modifies this`h
      ensures Stored() && Split(sh, h, dropped, offered) && HeapKeys(h) == Swap(old(HeapKeys(h)), i, j) && |h| == old(|h|)
    {
      SwapKeys(h, i, j);
      SwapHolds(sh, h, Buffer(), i, j);
      SwapSplit(sh, h, dropped, offered, i, j);
      h := Swap(h, i, j);
    }

    /** The new last entry rises while it drops before its parent. */
    method SiftUp()
      requires h != [] && Rising(|h| - 1)
      modifies this`h
      ensures Valid()
    {
      var i := |h| - 1;
      while i > 0
        invariant 0 <= i < |h| && Rising(i)
      {
        var p := (i - 1) / 2;
        KeysAreOfKind(sh, h, Buffer());
        KeysCompare(sh, h, Buffer(), i, p);
        if !Evictable(h[i].key, h[p].key, sh.desc) { break; }
        SiftUpStep(HeapKeys(h), sh.kind, sh.desc, i);
        Exchange(i, p);
        i := p;
      }
      KeysCompare(sh, h, Buffer(), i, if i > 0 then (i - 1) / 2 else 0);
      SiftUpDone(HeapKeys(h), sh.desc, i);
    }

    /** The new root sinks below every child that drops before it. */
    method SiftDown()
      requires h != [] && Sinking(0)
      modifies this`h
      ensures Valid()
    {
      var i := 0;
      while true
        invariant 0 <= i < |h| && Sinking(i)
        decreases |h| - i
      {
        KeysAreOfKind(sh, h, Buffer());
        var worst := WorstChild(i);
        if worst == i { break; }
        SiftDownStep(HeapKeys(h), sh.kind, sh.desc, i);
        Exchange(i, worst);
        i := worst;
      }
      KeysAreOfKind(sh, h, Buffer());
      SiftDownDone(HeapKeys(h), sh.kind, sh.desc, i);
    }

    method WorstChild(i: nat) returns (worst: nat)
      requires AllHold(sh, h, Buffer()) && i < |h|
      ensures worst == Worst(HeapKeys(h), sh.desc, i)
    {
      var l, rr := 2 * i + 1, 2 * i + 2;
      worst := i;
      if l < |h| {
        KeysCompare(sh, h, Buffer(), l, worst);
        if Evictable(h[l].key, h[worst].key, sh.desc) { worst := l; }
      }
      if rr < |h| {
        KeysCompare(sh, h, Buffer(), rr, worst);
        if Evictable(h[rr].key, h[worst].key, sh.desc) { worst := rr; }
      }
    }

    /** `offer`: the row enters if it beats the worst kept row, or if there is room. */
    method Offer(r: Row)
      requires Valid() && Fits(sh, r) && sh.capN > 0
      modifies this, backing
      ensures Valid() && offered == old(offered) + [r] && (backing == old(backing) || fresh(backing))
    {
      if |h| < sh.capN {
        Append(r);
        SiftUp();
        return;
      }
      KeysAreOfKind(sh, h, Buffer());
      assert EntryHolds(sh, h[0], Buffer());
      EvictableIsWorse(h[0].key, r[sh.ord], sh.desc);
      KeyOfInjective(r[sh.ord], r[sh.ord]);
      if !Evictable(h[0].key, r[sh.ord], sh.desc) {
        DropSplit(sh, h, dropped, offered, r);
        dropped, offered := dropped + [r], offered + [r];
        return;
      }
      ReplaceRoot(r);
      SiftDown();
    }
  }

  // ---- the steps' effect on what is kept ----

  lemma KeysCompare(sh: Shape, h: seq<Entry>, cells: seq<Value>, i: nat, j: nat)
    requires AllHold(sh, h, cells) && i < |h| && j < |h|
    ensures Evictable(h[i].key, h[j].key, sh.desc) <==> Worse(HeapKeys(h)[i], HeapKeys(h)[j], sh.desc)
  {
    assert EntryHolds(sh, h[i], cells) && EntryHolds(sh, h[j], cells);
    EvictableIsWorse(h[i].key, h[j].key, sh.desc);
  }

  lemma AppendHeap(h: seq<Entry>, e: Entry, desc: bool)
    requires Heap(HeapKeys(h), desc)
    ensures HeapBut(HeapKeys(h + [e]), desc, |h|)
  {
    var keys, keys' := HeapKeys(h), HeapKeys(h + [e]);
    forall j | 0 < j < |keys'| && j != |h| ensures Under(keys', desc, j) { assert Under(keys, desc, j); }
  }

  lemma ReplaceHeap(h: seq<Entry>, e: Entry, desc: bool)
    requires h != [] && Heap(HeapKeys(h), desc)
    ensures HeapAbove(HeapKeys(h[0 := e]), desc, 0)
  {
    var keys, keys' := HeapKeys(h), HeapKeys(h[0 := e]);
    forall j | 0 < j < |keys'| && Parent(j) != 0 ensures Under(keys', desc, j) { assert Under(keys, desc, j); }
  }

  lemma AppendSplit(sh: Shape, h: seq<Entry>, dropped: seq<Row>, offered: seq<Row>, e: Entry)
    requires Split(sh, h, dropped, offered) && |h| < sh.capN && Fits(sh, e.src)
    ensures Split(sh, h + [e], dropped, offered + [e.src])
  {
    assert Sources(h + [e]) == Sources(h) + [e.src];
    assert dropped == [];
  }

  lemma AppendStored(sh: Shape, h: seq<Entry>, e: Entry, cells: seq<Value>)
    requires AllHold(sh, h, cells) && SlotsDistinct(h) && EntryHolds(sh, e, cells) && (e.ref.Window? ==> e.ref.slot == |h|)
    ensures AllHold(sh, h + [e], cells) && SlotsDistinct(h + [e])
  {}

  lemma ReplaceSplit(sh: Shape, h: seq<Entry>, dropped: seq<Row>, offered: seq<Row>, e: Entry)
    requires h != [] && |h| == sh.capN && Split(sh, h, dropped, offered) && KeysOfKind(HeapKeys(h), sh.kind) && Heap(HeapKeys(h), sh.desc)
    requires Fits(sh, h[0].src) && h[0].key == h[0].src[sh.ord]
    requires Fits(sh, e.src) && e.key == e.src[sh.ord] && Worse(HeapKeys(h)[0], KeyOf(e.key), sh.desc)
    ensures Split(sh, h[0 := e], dropped + [h[0].src], offered + [e.src])
  {
    KeyOfInjective(e.key, e.key);
    RowKeysOfKind(sh, dropped);
    BetterReplaces(HeapKeys(h), RowKeys(sh, dropped), sh.kind, sh.desc, KeyOf(e.key));
    assert HeapKeys(h[0 := e]) == HeapKeys(h)[0 := KeyOf(e.key)];
    assert RowKeys(sh, dropped + [h[0].src]) == RowKeys(sh, dropped) + [HeapKeys(h)[0]];
    SourcesReplace(h, e);
    assert multiset(dropped + [h[0].src]) == multiset(dropped) + multiset{h[0].src};
    assert multiset(offered + [e.src]) == multiset(offered) + multiset{e.src};
    Exchanged(multiset(Sources(h[0 := e])), multiset(Sources(h)), multiset(dropped), multiset(offered), h[0].src, e.src);
  }

  lemma Exchanged(kept': multiset<Row>, kept: multiset<Row>, dropped: multiset<Row>, offered: multiset<Row>, old_: Row, new_: Row)
    requires kept' + multiset{old_} == kept + multiset{new_} && kept + dropped == offered
    ensures kept' + (dropped + multiset{old_}) == offered + multiset{new_}
  {
    assert kept' + (dropped + multiset{old_}) == (kept' + multiset{old_}) + dropped;
    assert (kept + multiset{new_}) + dropped == (kept + dropped) + multiset{new_};
  }

  lemma SourcesReplace(h: seq<Entry>, e: Entry)
    requires h != []
    ensures multiset(Sources(h[0 := e])) + multiset{h[0].src} == multiset(Sources(h)) + multiset{e.src}
  {
    var rest := Sources(h)[1..];
    assert Sources(h) == [h[0].src] + rest && Sources(h[0 := e]) == [e.src] + rest;
  }

  lemma DropSplit(sh: Shape, h: seq<Entry>, dropped: seq<Row>, offered: seq<Row>, r: Row)
    requires h != [] && |h| == sh.capN && Split(sh, h, dropped, offered) && Heap(HeapKeys(h), sh.desc) && KeysOfKind(HeapKeys(h), sh.kind)
    requires Fits(sh, r) && !Worse(HeapKeys(h)[0], KeyOf(r[sh.ord]), sh.desc)
    ensures Split(sh, h, dropped + [r], offered + [r])
  {
    KeyOfInjective(r[sh.ord], r[sh.ord]);
    RowKeysOfKind(sh, dropped);
    WorseDropped(HeapKeys(h), RowKeys(sh, dropped), sh.kind, sh.desc, KeyOf(r[sh.ord]));
    assert RowKeys(sh, dropped + [r]) == RowKeys(sh, dropped) + [KeyOf(r[sh.ord])];
  }

  lemma RowKeysOfKind(sh: Shape, rows: seq<Row>)
    requires AllFit(sh, rows)
    ensures KeysOfKind(RowKeys(sh, rows), sh.kind)
  {
    forall i | 0 <= i < |rows| ensures RowKeys(sh, rows)[i].Kind() == sh.kind { KeyOfInjective(rows[i][sh.ord], rows[i][sh.ord]); }
  }

  /** Writing one window leaves every other window's row. */
  lemma OtherWindows(sh: Shape, e: Entry, slot: nat, before: seq<Value>, after: seq<Value>)
    requires EntryHolds(sh, e, before) && (e.ref.Window? ==> e.ref.slot != slot) && |after| == |before|
    requires forall k :: 0 <= k < |before| && !(slot * Width(sh) <= k < slot * Width(sh) + Width(sh)) ==> after[k] == before[k]
    ensures EntryHolds(sh, e, after)
  {
    if e.ref.Window? {
      var w, s := Width(sh), e.ref.slot;
      if s < slot { SlotsApart(s, slot, w); } else { SlotsApart(slot, s, w); }
      assert WindowOf(after, s, w) == WindowOf(before, s, w);
    }
  }

  // ---- the result ----

  /** Everything dropped, sorted behind everything kept, sorted, is a sort of all offered
      keys: so the kept keys are the first of any sort. */
  lemma KeptAreFirst(kept: seq<IndexKey>, dropped: seq<IndexKey>, all: seq<IndexKey>, kind: Kind, desc: bool)
    requires InOrder(kept, desc) && InOrder(dropped, desc) && InOrder(all, desc)
    requires KeysOfKind(kept, kind) && KeysOfKind(dropped, kind) && KeysOfKind(all, kind)
    requires Best(kept, dropped, desc) && multiset(kept) + multiset(dropped) == multiset(all)
    ensures kept <= all
  {
    var both := kept + dropped;
    assert InOrder(both, desc) by {
      forall i, j | 0 <= i < j < |both| ensures !Before(both[j], both[i], desc) {
        if i < |kept| <= j { assert !Worse(kept[i], dropped[j - |kept|], desc); }
      }
    }
    assert multiset(both) == multiset(all);
    OrderFixesKeys(both, all, kind, desc);
  }

  /** A sort of the entries by key (`slices.SortFunc`; ties in any order). */
  ghost predicate SortOf(sh: Shape, sorted: seq<Entry>, h: seq<Entry>) {
    multiset(sorted) == multiset(h) && InOrder(HeapKeys(sorted), sh.desc)
  }

  /** Insertion by key. */
  method SortEntries(sh: Shape, h: seq<Entry>, ghost cells: seq<Value>) returns (sorted: seq<Entry>)
    requires AllHold(sh, h, cells)
    ensures SortOf(sh, sorted, h)
  {
    sorted := [];
    assert h[..0] == [];
    for k := 0 to |h|
      invariant multiset(sorted) == multiset(h[..k]) && InOrder(HeapKeys(sorted), sh.desc)
      invariant AllHold(sh, sorted, cells)
    {
      assert h[..k + 1] == h[..k] + [h[k]];
      sorted := InsertEntry(sh, sorted, h[k], cells);
      forall i | 0 <= i < |sorted| ensures EntryHolds(sh, sorted[i], cells) {
        assert sorted[i] in multiset(sorted);
        assert sorted[i] in multiset(h[..k + 1]);
      }
    }
    assert h[..|h|] == h;
  }

  /** Where `e` goes: behind everything not after it, before everything after it. */
  method InsertionPoint(sh: Shape, s: seq<Entry>, e: Entry, ghost cells: seq<Value>) returns (j: nat)
    requires AllHold(sh, s, cells) && EntryHolds(sh, e, cells)
    ensures j <= |s| && NoneBefore(HeapKeys(s), j, KeyOf(e.key), sh.desc)
    ensures j > 0 ==> !Before(KeyOf(e.key), HeapKeys(s)[j - 1], sh.desc)
  {
    j := |s|;
    ghost var keys := HeapKeys(s);
    while j > 0
      invariant 0 <= j <= |s| && NoneBefore(keys, j, KeyOf(e.key), sh.desc)
    {
      var after := ComesAfter(sh, s, e, j - 1, cells);
      if !after { break; }
      j := j - 1;
    }
  }

  /** From `j` on, no key comes before `k`. */
  ghost predicate NoneBefore(keys: seq<IndexKey>, j: nat, k: IndexKey, desc: bool) {
    forall i :: j <= i < |keys| ==> !Before(keys[i], k, desc)
  }

  /** An entry drops before another when it comes after it in the order. */
  method ComesAfter(sh: Shape, s: seq<Entry>, e: Entry, i: nat, ghost cells: seq<Value>) returns (after: bool)
    requires AllHold(sh, s, cells) && EntryHolds(sh, e, cells) && i < |s|
    ensures if after then !Before(HeapKeys(s)[i], KeyOf(e.key), sh.desc) else !Before(KeyOf(e.key), HeapKeys(s)[i], sh.desc)
  {
    after := Evictable(s[i].key, e.key, sh.desc);
    assert EntryHolds(sh, s[i], cells);
    KeyOfInjective(e.key, e.key);
    KeyOfInjective(s[i].key, s[i].key);
    EvictableIsWorse(s[i].key, e.key, sh.desc);
    BeforeTotal(KeyOf(e.key), KeyOf(s[i].key), sh.desc);
  }

  method InsertEntry(sh: Shape, s: seq<Entry>, e: Entry, ghost cells: seq<Value>) returns (r: seq<Entry>)
    requires AllHold(sh, s, cells) && EntryHolds(sh, e, cells) && InOrder(HeapKeys(s), sh.desc)
    ensures multiset(r) == multiset(s) + multiset{e} && InOrder(HeapKeys(r), sh.desc)
  {
    var j := InsertionPoint(sh, s, e, cells);
    r := s[..j] + [e] + s[j..];
    InsertedOnce(s, e, j);
    KeysAreOfKind(sh, s, cells);
    KeyOfInjective(e.key, e.key);
    InsertedInOrder(sh, s, e, j);
  }

  lemma InsertedOnce<T>(s: seq<T>, e: T, j: nat)
    requires j <= |s|
    ensures multiset(s[..j] + [e] + s[j..]) == multiset(s) + multiset{e}
  {
    assert s == s[..j] + s[j..];
  }

  lemma InsertedInOrder(sh: Shape, s: seq<Entry>, e: Entry, j: nat)
    requires j <= |s| && InOrder(HeapKeys(s), sh.desc) && KeysOfKind(HeapKeys(s), sh.kind) && KeyOf(e.key).Kind() == sh.kind
    requires forall k :: j <= k < |s| ==> !Before(HeapKeys(s)[k], KeyOf(e.key), sh.desc)
    requires j > 0 ==> !Before(KeyOf(e.key), HeapKeys(s)[j - 1], sh.desc)
    ensures InOrder(HeapKeys(s[..j] + [e] + s[j..]), sh.desc)
  {
    var keys, key := HeapKeys(s), KeyOf(e.key);
    var r := HeapKeys(s[..j] + [e] + s[j..]);
    assert r == keys[..j] + [key] + keys[j..];
    forall a, b | 0 <= a < b < |r| ensures !Before(r[b], r[a], sh.desc) {
      if b == j && a < j - 1 {
        NotBeforeTransitive(keys[a], keys[j - 1], key, sh.desc);
      }
    }
  }

  /** `sorted`: the kept rows, projected, in ORDER BY order. Their keys are the first
      min(n, capN) keys of any full sort of the n rows offered, and each row returned is
      the projection of the row its key came from. */
  method SortedRows(t: TopN) returns (out: seq<Row>, ghost order: seq<Row>)
    requires t.Valid()
    ensures |order| == |out| == (if |t.offered| < t.sh.capN then |t.offered| else t.sh.capN)
    ensures AllFit(t.sh, order) && forall i :: 0 <= i < |out| ==> Shows(t.sh, order[i], out[i])
    ensures multiset(order) <= multiset(t.offered)
    ensures forall all: seq<Row> :: IsSort(t.sh, all, t.offered) ==> RowKeys(t.sh, order) <= RowKeys(t.sh, all)
  {
    var sorted := SortEntries(t.sh, t.h, t.Buffer());
    order := Sources(sorted);
    SortedHolds(t.sh, sorted, t.h, t.Buffer());
    out := ReadRows(t, sorted);
    SplitSizes(t.sh, t.h, t.dropped, t.offered, sorted);
    forall all: seq<Row> | IsSort(t.sh, all, t.offered) ensures RowKeys(t.sh, order) <= RowKeys(t.sh, all) {
      FirstOfAnySort(t.sh, t.h, t.dropped, t.offered, sorted, t.Buffer(), all);
    }
  }

  /** The rows behind the sorted entries, windows read from the buffer. */
  method ReadRows(t: TopN, sorted: seq<Entry>) returns (out: seq<Row>)
    requires AllHold(t.sh, sorted, t.Buffer())
    ensures |out| == |sorted| && forall i :: 0 <= i < |out| ==> ReadAs(t.sh, sorted[i], t.Buffer(), out[i])
  {
    out := [];
    for i := 0 to |sorted|
      invariant |out| == i && forall k :: 0 <= k < i ==> ReadAs(t.sh, sorted[k], t.Buffer(), out[k])
    {
      assert EntryHolds(t.sh, sorted[i], t.Buffer());
      var row := ReadRow(t, sorted[i]);
      out := out + [row];
    }
  }

  /** The row is the projection of the one the entry was filled from. */
  ghost predicate ReadAs(sh: Shape, e: Entry, cells: seq<Value>, row: Row) {
    EntryHolds(sh, e, cells) && row == Projected(sh, e.src)
  }

  method ReadRow(t: TopN, e: Entry) returns (row: Row)
    requires EntryHolds(t.sh, e, t.Buffer())
    ensures ReadAs(t.sh, e, t.Buffer(), row)
  {
    match e.ref
    case Own(r) => return r;
    case Window(slot) =>
      var off := slot * Width(t.sh);
      if t.backing == null {
        assert t.Buffer() == [] && Width(t.sh) == 0;
        return [];
      }
      return t.backing[off..off + Width(t.sh)];
  }

  /** Every row offered in turn. */
  method OfferAll(sh: Shape, offered: seq<Row>) returns (top: TopN)
    requires AllFit(sh, offered) && sh.capN > 0 && sh.kind != KindNull
    ensures fresh(top) && top.Valid() && top.sh == sh && top.offered == offered
  {
    top := new TopN(sh);
    for i := 0 to |offered|
      invariant fresh(top) && top.Valid() && top.sh == sh && top.offered == offered[..i] && (top.backing == null || fresh(top.backing))
    {
      assert offered[..i + 1] == offered[..i] + [offered[i]];
      top.Offer(offered[i]);
    }
    assert offered[..|offered|] == offered;
  }

  /** `all` is the offered rows sorted by the ORDER BY column. */
  ghost predicate IsSort(sh: Shape, all: seq<Row>, offered: seq<Row>) {
    multiset(all) == multiset(offered) && AllFit(sh, all) && InOrder(RowKeys(sh, all), sh.desc)
  }

  lemma SortedHolds(sh: Shape, sorted: seq<Entry>, h: seq<Entry>, cells: seq<Value>)
    requires AllHold(sh, h, cells) && multiset(sorted) == multiset(h)
    ensures AllHold(sh, sorted, cells) && AllFit(sh, Sources(sorted)) && HeapKeys(sorted) == RowKeys(sh, Sources(sorted))
  {
    forall i | 0 <= i < |sorted| ensures EntryHolds(sh, sorted[i], cells) {
      assert sorted[i] in multiset(sorted);
      assert sorted[i] in multiset(h);
    }
  }

  /** Permuting entries permutes their rows. */
  lemma {:induction false} SourcesPermute(a: seq<Entry>, b: seq<Entry>)
    requires multiset(a) == multiset(b)
    ensures multiset(Sources(a)) == multiset(Sources(b)) && |a| == |b|
    decreases |a|
  {
    SameSize(a, b);
    if a != [] {
      var i := HeadIsSomewhere(a, b);
      SourcesPermute(a[1..], b[..i] + b[i + 1..]);
      SourcesHead(a);
      SourcesWithout(b, i);
    }
  }

  lemma SourcesHead(a: seq<Entry>)
    requires a != []
    ensures multiset(Sources(a)) == multiset(Sources(a[1..])) + multiset{a[0].src}
  {
    var rest := Sources(a[1..]);
    assert Sources(a) == [a[0].src] + rest;
  }

  lemma SourcesWithout(a: seq<Entry>, i: nat)
    requires i < |a|
    ensures multiset(Sources(a)) == multiset(Sources(a[..i] + a[i + 1..])) + multiset{a[i].src}
  {
    assert a == a[..i] + ([a[i]] + a[i + 1..]);
    SourcesConcat(a[..i], [a[i]] + a[i + 1..]);
    SourcesConcat([a[i]], a[i + 1..]);
    SourcesConcat(a[..i], a[i + 1..]);
    MultisetMiddle(Sources(a[..i]), a[i].src, Sources(a[i + 1..]));
  }

  lemma SourcesConcat(a: seq<Entry>, b: seq<Entry>)
    ensures Sources(a + b) == Sources(a) + Sources(b)
  {}

  lemma SplitSizes(sh: Shape, h: seq<Entry>, dropped: seq<Row>, offered: seq<Row>, sorted: seq<Entry>)
    requires Split(sh, h, dropped, offered) && multiset(sorted) == multiset(h)
    ensures |sorted| == (if |offered| < sh.capN then |offered| else sh.capN) && multiset(Sources(sorted)) <= multiset(offered)
  {
    SourcesPermute(sorted, h);
    assert |multiset(Sources(h))| == |h| && |multiset(dropped)| == |dropped| && |multiset(offered)| == |offered|;
    assert |multiset(Sources(h)) + multiset(dropped)| == |h| + |dropped|;
  }

  lemma FirstOfAnySort(sh: Shape, h: seq<Entry>, dropped: seq<Row>, offered: seq<Row>, sorted: seq<Entry>, cells: seq<Value>, all: seq<Row>)
    requires Split(sh, h, dropped, offered) && AllHold(sh, h, cells) && SortOf(sh, sorted, h) && IsSort(sh, all, offered)
    ensures AllFit(sh, Sources(sorted)) && RowKeys(sh, Sources(sorted)) <= RowKeys(sh, all)
  {
    SortedHolds(sh, sorted, h, cells);
    SourcesPermute(sorted, h);
    var order, rest := Sources(sorted), SortRows(sh, dropped);
    assert multiset(order + rest) == multiset(all);
    BestPermutes(sh, h, sorted, dropped, rest);
    SortsInSequence(sh, order, rest, all);
  }

  /** A sorted best part and a sorted rest are, in sequence, a sort of the whole. */
  lemma SortsInSequence(sh: Shape, order: seq<Row>, rest: seq<Row>, all: seq<Row>)
    requires AllFit(sh, order) && AllFit(sh, rest) && AllFit(sh, all) && multiset(order + rest) == multiset(all)
    requires InOrder(RowKeys(sh, order), sh.desc) && InOrder(RowKeys(sh, rest), sh.desc) && InOrder(RowKeys(sh, all), sh.desc)
    requires Best(RowKeys(sh, order), RowKeys(sh, rest), sh.desc)
    ensures RowKeys(sh, order) <= RowKeys(sh, all)
  {
    RowKeysOfKind(sh, order);
    RowKeysOfKind(sh, rest);
    RowKeysOfKind(sh, all);
    RowKeysPermute(sh, order + rest, all);
    RowKeysConcat(sh, order, rest);
    KeptAreFirst(RowKeys(sh, order), RowKeys(sh, rest), RowKeys(sh, all), sh.kind, sh.desc);
  }

  lemma RowKeysConcat(sh: Shape, a: seq<Row>, b: seq<Row>)
    requires AllFit(sh, a) && AllFit(sh, b)
    ensures AllFit(sh, a + b) && RowKeys(sh, a + b) == RowKeys(sh, a) + RowKeys(sh, b)
  {}

  /** Permuting both sides keeps the kept keys the best. */
  lemma BestPermutes(sh: Shape, h: seq<Entry>, sorted: seq<Entry>, dropped: seq<Row>, rest: seq<Row>)
    requires AllFit(sh, dropped) && AllFit(sh, rest) && multiset(sorted) == multiset(h) && multiset(rest) == multiset(dropped)
    requires Best(HeapKeys(h), RowKeys(sh, dropped), sh.desc)
    ensures Best(HeapKeys(sorted), RowKeys(sh, rest), sh.desc)
  {
    forall i, j | 0 <= i < |HeapKeys(sorted)| && 0 <= j < |RowKeys(sh, rest)| ensures !Worse(HeapKeys(sorted)[i], RowKeys(sh, rest)[j], sh.desc) {
      assert sorted[i] in multiset(sorted) && rest[j] in multiset(rest);
      assert sorted[i] in multiset(h) && rest[j] in multiset(dropped);
      var a :| 0 <= a < |h| && h[a] == sorted[i];
      var b :| 0 <= b < |dropped| && dropped[b] == rest[j];
      assert !Worse(HeapKeys(h)[a], RowKeys(sh, dropped)[b], sh.desc);
    }
  }

  lemma {:induction false} RowKeysPermute(sh: Shape, a: seq<Row>, b: seq<Row>)
    requires AllFit(sh, a) && AllFit(sh, b) && multiset(a) == multiset(b)
    ensures multiset(RowKeys(sh, a)) == multiset(RowKeys(sh, b))
    decreases |a|
  {
    SameSize(a, b);
    if a != [] {
      var i := HeadIsSomewhere(a, b);
      RowKeysHead(sh, a);
      RowKeysWithout(sh, b, i);
      RowKeysPermute(sh, a[1..], b[..i] + b[i + 1..]);
    }
  }

  lemma RowKeysHead(sh: Shape, a: seq<Row>)
    requires AllFit(sh, a) && a != []
    ensures AllFit(sh, a[1..])
    ensures multiset(RowKeys(sh, a)) == multiset(RowKeys(sh, a[1..])) + multiset{KeyOf(a[0][sh.ord])}
  {
    assert a[..0] + a[0 + 1..] == a[1..];
    RowKeysWithout(sh, a, 0);
  }

  lemma RowKeysWithout(sh: Shape, a: seq<Row>, i: nat)
    requires AllFit(sh, a) && i < |a|
    ensures AllFit(sh, a[..i] + a[i + 1..])
    ensures multiset(RowKeys(sh, a)) == multiset(RowKeys(sh, a[..i] + a[i + 1..])) + multiset{KeyOf(a[i][sh.ord])}
  {
    var l, r := RowKeys(sh, a[..i]), RowKeys(sh, a[i + 1..]);
    assert RowKeys(sh, a) == l + ([KeyOf(a[i][sh.ord])] + r);
    assert RowKeys(sh, a[..i] + a[i + 1..]) == l + r;
    MultisetMiddle(l, KeyOf(a[i][sh.ord]), r);
  }

  /** Some sort of the rows. */
  function SortRows(sh: Shape, rows: seq<Row>): (r: seq<Row>)
    requires AllFit(sh, rows)
    ensures multiset(r) == multiset(rows) && AllFit(sh, r) && InOrder(RowKeys(sh, r), sh.desc)
  {
    if rows == [] then []
    else
      var rest := SortRows(sh, rows[1..]);
      assert rows == [rows[0]] + rows[1..];
      PlaceRow(sh, rest, rows[0]);
      PlaceAt(sh, rest, rows[0])
  }

  function PlaceAt(sh: Shape, s: seq<Row>, r: Row): (out: seq<Row>)
    requires AllFit(sh, s) && Fits(sh, r)
  {
    if s == [] || !Before(KeyOf(s[0][sh.ord]), KeyOf(r[sh.ord]), sh.desc) then [r] + s else [s[0]] + PlaceAt(sh, s[1..], r)
  }

  lemma {:induction false} PlaceRow(sh: Shape, s: seq<Row>, r: Row)
    requires AllFit(sh, s) && Fits(sh, r) && InOrder(RowKeys(sh, s), sh.desc)
    ensures var out := PlaceAt(sh, s, r);
            multiset(out) == multiset(s) + multiset{r} && AllFit(sh, out) && InOrder(RowKeys(sh, out), sh.desc)
  {
    var key := KeyOf(r[sh.ord]);
    RowKeysOfKind(sh, s);
    KeyOfInjective(r[sh.ord], r[sh.ord]);
    if s == [] || !Before(KeyOf(s[0][sh.ord]), key, sh.desc) {
      forall i | 0 <= i < |s| ensures !Before(RowKeys(sh, s)[i], key, sh.desc) {
        if i > 0 { NotBeforeTransitive(key, RowKeys(sh, s)[0], RowKeys(sh, s)[i], sh.desc); }
      }
      ConsRow(sh, r, s);
    } else {
      assert s == [s[0]] + s[1..];
      assert RowKeys(sh, s)[1..] == RowKeys(sh, s[1..]);
      PlaceRow(sh, s[1..], r);
      var tail := PlaceAt(sh, s[1..], r);
      forall i | 0 <= i < |tail| ensures !Before(RowKeys(sh, tail)[i], KeyOf(s[0][sh.ord]), sh.desc) {
        PlacedAfterHead(sh, s, r, tail, i);
      }
      ConsRow(sh, s[0], tail);
    }
  }

  lemma ConsRow(sh: Shape, r: Row, s: seq<Row>)
    requires AllFit(sh, s) && Fits(sh, r) && InOrder(RowKeys(sh, s), sh.desc)
    requires forall i :: 0 <= i < |s| ==> !Before(RowKeys(sh, s)[i], KeyOf(r[sh.ord]), sh.desc)
    ensures AllFit(sh, [r] + s) && InOrder(RowKeys(sh, [r] + s), sh.desc)
  {
    assert RowKeys(sh, [r] + s) == [KeyOf(r[sh.ord])] + RowKeys(sh, s);
  }

  lemma PlacedAfterHead(sh: Shape, s: seq<Row>, r: Row, tail: seq<Row>, i: nat)
    requires s != [] && AllFit(sh, s) && AllFit(sh, tail) && Fits(sh, r) && InOrder(RowKeys(sh, s), sh.desc)
    requires multiset(tail) == multiset(s[1..]) + multiset{r} && Before(KeyOf(s[0][sh.ord]), KeyOf(r[sh.ord]), sh.desc) && i < |tail|
    ensures !Before(RowKeys(sh, tail)[i], KeyOf(s[0][sh.ord]), sh.desc)
  {
    assert tail[i] in multiset(tail);
    RowKeysOfKind(sh, s);
    KeyOfInjective(r[sh.ord], r[sh.ord]);
    BeforeTotal(KeyOf(s[0][sh.ord]), KeyOf(r[sh.ord]), sh.desc);
    if tail[i] in multiset(s[1..]) {
      var j :| 0 <= j < |s[1..]| && s[1..][j] == tail[i];
      assert s[j + 1] == tail[i] && !Before(RowKeys(sh, s)[j + 1], RowKeys(sh, s)[0], sh.desc);
    } else {
      assert tail[i] == r;
    }
  }
}
