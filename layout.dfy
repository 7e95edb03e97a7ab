/**
 * The layout fold of `PLCDataBlock._parse_db_file`: one left-to-right pass over
 * the matched `(name, type)` declarations with a byte cursor, a bit cursor and
 * the `bool_bytes` padding counter, giving each recognised variable a slot.
 */
module Layout {
  import opened Wrappers
  import opened Types

  /** One `(name, type)` pair found in the declaration text. */
  datatype Decl = Decl(name: string, typeName: string)

  /** One slot assignment made by the fold, in declaration order. */
  datatype Entry = Entry(name: string, slot: Slot)

  /** The loop's `byte_offset` and `bit_offset` and the field `bool_bytes`. */
  datatype Cursor = Cursor(byteOffset: nat, bitOffset: BitIndex, boolBytes: nat)

  /** The fold's state: the cursors and every slot assigned so far. */
  datatype Parse = Parse(cursor: Cursor, placed: seq<Entry>)

  const Start := Parse(Cursor(0, 0, 0), [])

  /** The first byte no slot has touched yet: an open Bool byte counts as used. */
  function Frontier(c: Cursor): nat
  {
    c.byteOffset + if c.bitOffset > 0 then 1 else 0
  }

  /** One iteration of the loop body. */
  function Step(p: Parse, d: Decl): Parse
  {
    var c := p.cursor;
    match TypeOf(d.typeName)
    case None => p
    case Some(Bool) =>
      var next := c.bitOffset + 1;
      var c' := if next == 8 then Cursor(c.byteOffset + 1, 0, c.boolBytes)
                else Cursor(c.byteOffset, next, c.boolBytes);
      Parse(c', p.placed + [Entry(d.name, BoolSlot(c.byteOffset, c.bitOffset))])
    case Some(Number(n)) =>
      var closed := if c.bitOffset > 0 then c.byteOffset + 1 else c.byteOffset;
      var pad := if closed % 2 != 0 then 1 else 0;
      var offset := closed + pad;
      Parse(Cursor(offset + Width(n), 0, c.boolBytes + pad),
            p.placed + [Entry(d.name, NumSlot(n, offset))])
  }

  /** The whole pass over `ds`, from the initial cursors. */
  function Fold(ds: seq<Decl>): Parse
  {
    if ds == [] then Start else Step(Fold(ds[..|ds| - 1]), ds[|ds| - 1])
  }

  lemma FoldAppend(ds: seq<Decl>, d: Decl)
    ensures Fold(ds + [d]) == Step(Fold(ds), d)
  {
    assert (ds + [d])[..|ds|] == ds;
  }

  /** Folding one more declaration of a list is one more `Step`. */
  lemma FoldNext(ds: seq<Decl>, i: nat)
    requires i < |ds|
    ensures Fold(ds[..i + 1]) == Step(Fold(ds[..i]), ds[i])
  {
    assert ds[..i + 1] == ds[..i] + [ds[i]];
    FoldAppend(ds[..i], ds[i]);
  }

  /** The Bool case of `Step` spelled out on the cursor fields. */
  lemma StepBoolAt(c: Cursor, placed: seq<Entry>, d: Decl)
    requires TypeOf(d.typeName) == Some(Bool)
    ensures Step(Parse(c, placed), d)
      == Parse(if c.bitOffset + 1 == 8 then Cursor(c.byteOffset + 1, 0, c.boolBytes)
               else Cursor(c.byteOffset, c.bitOffset + 1, c.boolBytes),
               placed + [Entry(d.name, BoolSlot(c.byteOffset, c.bitOffset))])
  {
  }

  /** A Bool gets the current (byte, bit); the bit cursor wraps at 8 into the next byte. */
  lemma StepBool(p: Parse, d: Decl)
    requires d.typeName == "Bool"
    ensures var r := Step(p, d); var c := p.cursor;
      && r.placed == p.placed + [Entry(d.name, BoolSlot(c.byteOffset, c.bitOffset))]
      && r.cursor.byteOffset * 8 + r.cursor.bitOffset == c.byteOffset * 8 + c.bitOffset + 1
      && r.cursor.boolBytes == c.boolBytes
  {
  }

  /**
   * A Real or an Int closes an open Bool byte, is placed at the least even byte
   * at or after that, counts the pad byte (if any) in `bool_bytes`, and moves
   * the byte cursor past its width with the bit cursor at 0.
   */
  lemma StepNumber(p: Parse, d: Decl, n: Numeric)
    requires TypeOf(d.typeName) == Some(Number(n))
    ensures var r := Step(p, d); var c := p.cursor;
      exists o: nat ::
        && r.placed == p.placed + [Entry(d.name, NumSlot(n, o))]
        && o % 2 == 0 && Frontier(c) <= o <= Frontier(c) + 1
        && r.cursor.boolBytes == c.boolBytes + (o - Frontier(c))
        && r.cursor.byteOffset == o + Width(n) && r.cursor.bitOffset == 0
  {
    var c := p.cursor;
    var o := Step(p, d).placed[|p.placed|].slot.byteOffset;
    assert Step(p, d).placed == p.placed + [Entry(d.name, NumSlot(n, o))];
  }

  /** The Real/Int case of `Step` on a cursor whose open byte is closed to `closed` and padded to `offset`. */
  lemma StepNumberAt(c: Cursor, placed: seq<Entry>, d: Decl, n: Numeric, closed: nat, offset: nat)
    requires TypeOf(d.typeName) == Some(Number(n))
    requires closed == if c.bitOffset > 0 then c.byteOffset + 1 else c.byteOffset
    requires offset == if closed % 2 != 0 then closed + 1 else closed
    ensures Step(Parse(c, placed), d)
      == Parse(Cursor(offset + Width(n), 0, c.boolBytes + (offset - closed)),
               placed + [Entry(d.name, NumSlot(n, offset))])
  {
  }

  /** One Bool iteration of the loop, on the loop's own variables. */
  lemma FoldBoolAt(ds: seq<Decl>, i: nat, byteOffset: nat, bitOffset: BitIndex, boolBytes: nat, placed: seq<Entry>)
    requires i < |ds| && TypeOf(ds[i].typeName) == Some(Bool)
    requires Fold(ds[..i]) == Parse(Cursor(byteOffset, bitOffset, boolBytes), placed)
    ensures Fold(ds[..i + 1])
      == Parse(if bitOffset + 1 == 8 then Cursor(byteOffset + 1, 0, boolBytes)
               else Cursor(byteOffset, bitOffset + 1, boolBytes),
               placed + [Entry(ds[i].name, BoolSlot(byteOffset, bitOffset))])
  {
    FoldNext(ds, i);
    StepBoolAt(Cursor(byteOffset, bitOffset, boolBytes), placed, ds[i]);
  }

  /** One Real/Int iteration of the loop, on the loop's own variables. */
  lemma FoldNumberAt(ds: seq<Decl>, i: nat, n: Numeric, c: Cursor, placed: seq<Entry>, closed: nat, offset: nat)
    requires i < |ds| && TypeOf(ds[i].typeName) == Some(Number(n))
    requires Fold(ds[..i]) == Parse(c, placed)
    requires closed == if c.bitOffset > 0 then c.byteOffset + 1 else c.byteOffset
    requires offset == if closed % 2 != 0 then closed + 1 else closed
    ensures Fold(ds[..i + 1])
      == Parse(Cursor(offset + Width(n), 0, c.boolBytes + (offset - closed)),
               placed + [Entry(ds[i].name, NumSlot(n, offset))])
  {
    FoldNext(ds, i);
    StepNumberAt(c, placed, ds[i], n, closed, offset);
  }

  /** An iteration over a declaration of any other type leaves the fold as it was. */
  lemma FoldUnknownAt(ds: seq<Decl>, i: nat)
    requires i < |ds| && TypeOf(ds[i].typeName) == None
    ensures Fold(ds[..i + 1]) == Fold(ds[..i])
  {
    FoldNext(ds, i);
  }

  /** A declaration of any other type leaves the whole state as it was. */
  lemma StepUnknown(p: Parse, d: Decl)
    requires d.typeName !in {"Bool", "Real", "Int"}
    ensures Step(p, d) == p
  {
  }

  // ---------------------------------------------------------------------------
  // The invariant the fold keeps: every slot lies behind the cursor, Real/Int
  // slots are even, and no two slots overlap.

  /** The slot lies wholly before the cursor position. */
  predicate Behind(s: Slot, c: Cursor)
  {
    match s
    case BoolSlot(b, k) => b < c.byteOffset || (b == c.byteOffset && k < c.bitOffset)
    case NumSlot(n, o) => o + Width(n) <= c.byteOffset
  }

  predicate Aligned(s: Slot)
  {
    s.NumSlot? ==> s.byteOffset % 2 == 0
  }

  predicate WellFormed(p: Parse)
  {
    && (forall i :: 0 <= i < |p.placed| ==> Aligned(p.placed[i].slot) && Behind(p.placed[i].slot, p.cursor))
    && (forall i, j :: 0 <= i < j < |p.placed| ==>
          Disjoint(p.placed[i].slot, p.placed[j].slot)
          && p.placed[i].slot.byteOffset <= p.placed[j].slot.byteOffset)
  }

  /** A slot behind the cursor ends at or before the frontier. */
  lemma BehindEnd(s: Slot, c: Cursor)
    requires Behind(s, c)
    ensures End(s) <= Frontier(c)
  {
  }

  lemma StepPreserves(p: Parse, d: Decl)
    requires WellFormed(p)
    ensures WellFormed(Step(p, d))
  {
    var c := p.cursor;
    var r := Step(p, d);
    match TypeOf(d.typeName)
    case None =>
    case Some(t) =>
      var s := r.placed[|p.placed|].slot;
      assert r.placed == p.placed + [Entry(d.name, s)];
      forall i | 0 <= i < |p.placed|
        ensures Behind(p.placed[i].slot, r.cursor)
        ensures Disjoint(p.placed[i].slot, s) && p.placed[i].slot.byteOffset <= s.byteOffset
      {
        BehindEnd(p.placed[i].slot, c);
      }
  }

  /** Every slot the fold assigns is even (Real/Int), behind the cursor and disjoint from the others. */
  lemma {:induction false} FoldWellFormed(ds: seq<Decl>)
    ensures WellFormed(Fold(ds))
  {
    if ds != [] {
      FoldWellFormed(ds[..|ds| - 1]);
      StepPreserves(Fold(ds[..|ds| - 1]), ds[|ds| - 1]);
    }
  }

  /** A Real or an Int never shares a byte with a Bool declared before it. */
  lemma ScalarAfterBools(ds: seq<Decl>, d: Decl, n: Numeric)
    requires TypeOf(d.typeName) == Some(Number(n))
    ensures var before := Fold(ds).placed; var after := Fold(ds + [d]).placed;
      && |after| == |before| + 1
      && forall i :: 0 <= i < |before| && before[i].slot.BoolSlot? ==>
           before[i].slot.byteOffset < after[|before|].slot.byteOffset
  {
    FoldAppend(ds, d);
    FoldWellFormed(ds);
    StepNumber(Fold(ds), d, n);
  }

  // ---------------------------------------------------------------------------
  // Declarations of a single kind.

  /** If every declaration is a Bool, the k-th one gets byte k / 8 and bit k % 8. */
  lemma {:induction false} AllBoolsPacked(ds: seq<Decl>)
    requires forall i :: 0 <= i < |ds| ==> ds[i].typeName == "Bool"
    ensures var p := Fold(ds);
      && p.cursor == Cursor(|ds| / 8, |ds| % 8, 0)
      && |p.placed| == |ds|
      && forall k :: 0 <= k < |ds| ==> p.placed[k] == Entry(ds[k].name, BoolSlot(k / 8, k % 8))
  {
    if ds != [] {
      var m := |ds| - 1;
      AllBoolsPacked(ds[..m]);
      assert Fold(ds) == Step(Fold(ds[..m]), ds[m]);
    }
  }

  /** A declaration the type table reads as a Real or an Int. */
  predicate IsNumber(d: Decl)
  {
    TypeOf(d.typeName).Some? && TypeOf(d.typeName).value.Number?
  }

  /** The summed widths of the Real and Int declarations in `ds`. */
  function DeclaredWidths(ds: seq<Decl>): nat
  {
    if ds == [] then 0
    else
      var last := ds[|ds| - 1];
      DeclaredWidths(ds[..|ds| - 1]) + match TypeOf(last.typeName) { case Some(Number(n)) => Width(n) case _ => 0 }
  }

  /** A Real or Int at the end adds its width to the sum. */
  lemma DeclaredWidthsNext(ds: seq<Decl>, n: Numeric)
    requires ds != [] && TypeOf(ds[|ds| - 1].typeName) == Some(Number(n))
    ensures DeclaredWidths(ds) == DeclaredWidths(ds[..|ds| - 1]) + Width(n)
  {
  }

  lemma EvenSum(a: nat, b: nat)
    requires a % 2 == 0 && (b == 2 || b == 4)
    ensures (a + b) % 2 == 0
  {
  }

  /**
   * With only Reals and Ints, no byte is ever padded: the cursor sits at the
   * summed widths, which stay even, and every declaration gets a slot.
   */
  lemma {:induction false} NumbersOnlyCursor(ds: seq<Decl>)
    requires forall i :: 0 <= i < |ds| ==> IsNumber(ds[i])
    ensures Fold(ds).cursor == Cursor(DeclaredWidths(ds), 0, 0)
    ensures DeclaredWidths(ds) % 2 == 0 && |Fold(ds).placed| == |ds|
  {
    if ds != [] {
      var m := |ds| - 1;
      NumbersOnlyCursor(ds[..m]);
      var p := Fold(ds[..m]);
      var w := DeclaredWidths(ds[..m]);
      var n := TypeOf(ds[m].typeName).value.kind;
      FoldNumberAt(ds, m, n, p.cursor, p.placed, w, w);
      DeclaredWidthsNext(ds, n);
      assert ds[..m + 1] == ds;
      var q := Fold(ds);
      assert q == Parse(Cursor(w + Width(n), 0, 0), p.placed + [Entry(ds[m].name, NumSlot(n, w))]);
      EvenSum(w, Width(n));
    }
  }

  /** With only Reals and Ints, the k-th starts at the summed widths of those declared before it. */
  lemma {:induction false} NumbersOnlyNoGaps(ds: seq<Decl>, k: nat)
    requires forall i :: 0 <= i < |ds| ==> IsNumber(ds[i])
    requires k < |ds|
    ensures k < |Fold(ds).placed| && Fold(ds).placed[k].slot.byteOffset == DeclaredWidths(ds[..k])
  {
    var m := |ds| - 1;
    NumbersOnlyCursor(ds[..m]);
    var p := Fold(ds[..m]);
    var w := DeclaredWidths(ds[..m]);
    var n := TypeOf(ds[m].typeName).value.kind;
    FoldNumberAt(ds, m, n, p.cursor, p.placed, w, w);
    assert ds[..m + 1] == ds;
    var placed := Fold(ds).placed;
    assert placed == p.placed + [Entry(ds[m].name, NumSlot(n, w))];
    if k < m {
      NumbersOnlyNoGaps(ds[..m], k);
      assert ds[..m][..k] == ds[..k];
      assert placed[k] == p.placed[k];
    } else {
      assert ds[..k] == ds[..m];
    }
  }

  // ---------------------------------------------------------------------------
  // The dictionary `self.data`: a later declaration of a name overwrites the
  // earlier slot but keeps the name's first position in iteration order.

  function SlotMap(placed: seq<Entry>): map<string, Slot>
  {
    if placed == [] then map[]
    else
      var e := placed[|placed| - 1];
      SlotMap(placed[..|placed| - 1])[e.name := e.slot]
  }

  function KeyOrder(placed: seq<Entry>): (keys: seq<string>)
    ensures forall n :: n in keys <==> n in SlotMap(placed)
  {
    if placed == [] then []
    else
      var e := placed[|placed| - 1];
      var keys := KeyOrder(placed[..|placed| - 1]);
      if e.name in keys then keys else keys + [e.name]
  }

  /** The dictionary's values in its iteration order. */
  function Recorded(placed: seq<Entry>): (r: seq<Slot>)
    ensures |r| == |KeyOrder(placed)|
  {
    KeyOrderIsKeys(placed);
    var keys := KeyOrder(placed);
    seq(|keys|, i requires 0 <= i < |keys| => SlotMap(placed)[keys[i]])
  }

  predicate NoDuplicates(s: seq<string>)
  {
    forall i, j :: 0 <= i < j < |s| ==> s[i] != s[j]
  }

  function Names(placed: seq<Entry>): (r: seq<string>)
    ensures |r| == |placed|
  {
    seq(|placed|, i requires 0 <= i < |placed| => placed[i].name)
  }

  function SlotsOf(placed: seq<Entry>): (r: seq<Slot>)
    ensures |r| == |placed|
  {
    seq(|placed|, i requires 0 <= i < |placed| => placed[i].slot)
  }

  lemma AppendEntry(placed: seq<Entry>, e: Entry)
    ensures SlotMap(placed + [e]) == SlotMap(placed)[e.name := e.slot]
    ensures KeyOrder(placed + [e]) == if e.name in KeyOrder(placed) then KeyOrder(placed) else KeyOrder(placed) + [e.name]
  {
    assert (placed + [e])[..|placed|] == placed;
  }

  /** `data` and `order` are the dictionary the entries build and its key order. */
  predicate Records(placed: seq<Entry>, data: map<string, Slot>, order: seq<string>)
  {
    data == SlotMap(placed) && order == KeyOrder(placed)
  }

  /** Assigning a slot to a name: a dictionary update, with a new name appended to the order. */
  lemma RecordEntry(placed: seq<Entry>, e: Entry, data: map<string, Slot>, order: seq<string>)
    requires Records(placed, data, order)
    ensures Records(placed + [e], data[e.name := e.slot], if e.name in data then order else order + [e.name])
  {
    AppendEntry(placed, e);
  }

  /** The iteration order lists each key of the dictionary exactly once. */
  lemma {:induction false} KeyOrderIsKeys(placed: seq<Entry>)
    ensures NoDuplicates(KeyOrder(placed))
    ensures forall n :: n in KeyOrder(placed) <==> n in SlotMap(placed)
  {
    if placed != [] {
      KeyOrderIsKeys(placed[..|placed| - 1]);
    }
  }

  /** Each recorded slot is the one assigned by the LAST declaration of its name, found at index `i`. */
  lemma {:induction false} SlotMapIsLast(placed: seq<Entry>, n: string) returns (i: nat)
    requires n in SlotMap(placed)
    ensures i < |placed| && placed[i].name == n && SlotMap(placed)[n] == placed[i].slot
    ensures forall j :: i < j < |placed| ==> placed[j].name != n
  {
    var m := |placed| - 1;
    if placed[m].name == n {
      i := m;
    } else {
      i := SlotMapIsLast(placed[..m], n);
      assert placed[..m][i] == placed[i];
      forall j | i < j < m
        ensures placed[j].name != n
      {
        assert placed[..m][j] == placed[j];
      }
    }
  }

  /** When no name is declared twice, the iteration order is the declaration order. */
  lemma {:induction false} DistinctKeyOrder(placed: seq<Entry>)
    requires NoDuplicates(Names(placed))
    ensures KeyOrder(placed) == Names(placed)
  {
    if placed != [] {
      var m := |placed| - 1;
      var names := Names(placed);
      assert Names(placed[..m]) == names[..m];
      DistinctKeyOrder(placed[..m]);
      assert names[m] !in names[..m] by {
        forall j | 0 <= j < m
          ensures names[..m][j] != names[m]
        {
        }
      }
      assert names == names[..m] + [names[m]];
    }
  }

  /** When no name is declared twice, every declaration's slot is the recorded one. */
  lemma {:induction false} DistinctSlotAt(placed: seq<Entry>, i: nat)
    requires NoDuplicates(Names(placed)) && i < |placed|
    ensures placed[i].name in SlotMap(placed) && SlotMap(placed)[placed[i].name] == placed[i].slot
  {
    var m := |placed| - 1;
    if i < m {
      assert Names(placed[..m]) == Names(placed)[..m];
      assert Names(placed)[i] != Names(placed)[m];
      DistinctSlotAt(placed[..m], i);
    }
  }

  /** When no name is declared twice, the dictionary holds every slot, in declaration order. */
  lemma DistinctRecordsAll(placed: seq<Entry>)
    requires NoDuplicates(Names(placed))
    ensures KeyOrder(placed) == Names(placed)
    ensures Recorded(placed) == SlotsOf(placed)
  {
    DistinctKeyOrder(placed);
    forall i | 0 <= i < |placed|
      ensures Recorded(placed)[i] == SlotsOf(placed)[i]
    {
      DistinctSlotAt(placed, i);
    }
  }

  /** Two different entries of a well-formed state do not overlap. */
  lemma PlacedDisjoint(p: Parse, i: nat, j: nat)
    requires WellFormed(p) && i < |p.placed| && j < |p.placed| && i != j
    ensures Disjoint(p.placed[i].slot, p.placed[j].slot)
  {
    if j < i {
      assert Disjoint(p.placed[j].slot, p.placed[i].slot);
    }
  }

  /** No two names of the dictionary have overlapping slots. */
  predicate SlotsDisjoint(data: map<string, Slot>)
  {
    forall n, m :: n in data && m in data && n != m ==> Disjoint(data[n], data[m])
  }

  /** The recorded slots of distinct names never overlap. */
  lemma RecordedDisjoint(ds: seq<Decl>)
    ensures SlotsDisjoint(SlotMap(Fold(ds).placed))
  {
    var p := Fold(ds);
    FoldWellFormed(ds);
    forall n, m | n in SlotMap(p.placed) && m in SlotMap(p.placed) && n != m
      ensures Disjoint(SlotMap(p.placed)[n], SlotMap(p.placed)[m])
    {
      var i := SlotMapIsLast(p.placed, n);
      var j := SlotMapIsLast(p.placed, m);
      PlacedDisjoint(p, i, j);
    }
  }
}
