/**
 * `PLCDataBlock._calculate_db_size`: the buffer length read from and written
 * to the controller, as the summed Real/Int widths, the Bools packed eight to a
 * byte, and the `bool_bytes` padding counter; and how that relates to the
 * slots the layout fold actually assigned.
 */
module BlockSize {
  import opened Wrappers
  import opened Types
  import opened Layout

  function BoolBit(s: Slot): nat { if s.BoolSlot? then 1 else 0 }

  function NumBytes(s: Slot): nat { if s.NumSlot? then Width(s.kind) else 0 }

  function NumWidths(slots: seq<Slot>): nat
  {
    if slots == [] then 0 else NumWidths(slots[..|slots| - 1]) + NumBytes(slots[|slots| - 1])
  }

  function BoolCount(slots: seq<Slot>): nat
  {
    if slots == [] then 0 else BoolCount(slots[..|slots| - 1]) + BoolBit(slots[|slots| - 1])
  }

  /** The size formula as the source computes it from the dictionary's values. */
  function DbSize(slots: seq<Slot>, boolBytes: nat): nat
  {
    var bools := BoolCount(slots);
    NumWidths(slots) + (if bools > 0 then (bools + 7) / 8 else 0) + boolBytes
  }

  /** The offset-consistent size: the largest end byte over all slots (0 for none). */
  function MaxEnd(slots: seq<Slot>): (m: nat)
    ensures forall i :: 0 <= i < |slots| ==> End(slots[i]) <= m
    ensures slots != [] ==> exists i :: 0 <= i < |slots| && End(slots[i]) == m
  {
    if slots == [] then 0
    else
      var rest := slots[..|slots| - 1];
      var e := End(slots[|slots| - 1]);
      var m := MaxEnd(rest);
      assert forall i :: 0 <= i < |rest| ==> slots[i] == rest[i];
      if e > m then e else m
  }

  /** How many Bools started a fresh byte (were given bit 0). */
  function OpenedBytes(slots: seq<Slot>): nat
  {
    if slots == [] then 0
    else
      var s := slots[|slots| - 1];
      OpenedBytes(slots[..|slots| - 1]) + if s.BoolSlot? && s.bitOffset == 0 then 1 else 0
  }

  /** No Real or Int was placed between two Bools. */
  predicate SingleBoolRun(slots: seq<Slot>)
  {
    forall i, j, k :: 0 <= i < j < k < |slots| && slots[i].BoolSlot? && slots[k].BoolSlot? ==> slots[j].BoolSlot?
  }

  lemma SlotsOfAppend(placed: seq<Entry>, e: Entry)
    ensures SlotsOf(placed + [e]) == SlotsOf(placed) + [e.slot]
    ensures (SlotsOf(placed) + [e.slot])[..|placed|] == SlotsOf(placed)
  {
  }

  lemma OpenedAppend(s: seq<Slot>, x: Slot)
    ensures OpenedBytes(s + [x]) == OpenedBytes(s) + if x.BoolSlot? && x.bitOffset == 0 then 1 else 0
  {
    assert (s + [x])[..|s|] == s;
  }

  lemma MaxEndAppend(s: seq<Slot>, x: Slot)
    ensures MaxEnd(s + [x]) == if End(x) > MaxEnd(s) then End(x) else MaxEnd(s)
  {
    assert (s + [x])[..|s|] == s;
  }

  /** The bookkeeping identities between a cursor and the slots assigned before it. */
  predicate AccountedAt(c: Cursor, s: seq<Slot>)
  {
    && Frontier(c) == NumWidths(s) + c.boolBytes + OpenedBytes(s)
    && MaxEnd(s) == Frontier(c)
    && BoolCount(s) + (if c.bitOffset > 0 then 8 - c.bitOffset else 0) <= 8 * OpenedBytes(s)
  }

  /** The bookkeeping identities the fold keeps between its cursor and its slots. */
  predicate Accounted(p: Parse)
  {
    AccountedAt(p.cursor, SlotsOf(p.placed))
  }

  /** A Bool at the cursor keeps the identities. */
  lemma AccountedBool(c: Cursor, s: seq<Slot>)
    requires AccountedAt(c, s)
    ensures AccountedAt(if c.bitOffset + 1 == 8 then Cursor(c.byteOffset + 1, 0, c.boolBytes)
                        else Cursor(c.byteOffset, c.bitOffset + 1, c.boolBytes),
                        s + [BoolSlot(c.byteOffset, c.bitOffset)])
  {
    var x := BoolSlot(c.byteOffset, c.bitOffset);
    var c' := if c.bitOffset + 1 == 8 then Cursor(c.byteOffset + 1, 0, c.boolBytes)
              else Cursor(c.byteOffset, c.bitOffset + 1, c.boolBytes);
    assert Frontier(c') == c.byteOffset + 1 == End(x);
    CountsAppend(s, x);
    OpenedAppend(s, x);
    MaxEndAppend(s, x);
  }

  /** A Real or an Int placed at the padded offset keeps the identities. */
  lemma AccountedNumber(c: Cursor, s: seq<Slot>, n: Numeric, closed: nat, offset: nat)
    requires AccountedAt(c, s)
    requires closed == Frontier(c) && offset == if closed % 2 != 0 then closed + 1 else closed
    ensures AccountedAt(Cursor(offset + Width(n), 0, c.boolBytes + (offset - closed)), s + [NumSlot(n, offset)])
  {
    var x := NumSlot(n, offset);
    CountsAppend(s, x);
    OpenedAppend(s, x);
    MaxEndAppend(s, x);
  }

  lemma AccountingStep(p: Parse, d: Decl)
    requires Accounted(p)
    ensures Accounted(Step(p, d))
  {
    var c, placed := p.cursor, p.placed;
    assert p == Parse(c, placed);
    match TypeOf(d.typeName)
    case None =>
    case Some(Bool) =>
      StepBoolAt(c, placed, d);
      SlotsOfAppend(placed, Entry(d.name, BoolSlot(c.byteOffset, c.bitOffset)));
      AccountedBool(c, SlotsOf(placed));
    case Some(Number(n)) =>
      var closed := Frontier(c);
      var offset := if closed % 2 != 0 then closed + 1 else closed;
      StepNumberAt(c, placed, d, n, closed, offset);
      SlotsOfAppend(placed, Entry(d.name, NumSlot(n, offset)));
      AccountedNumber(c, SlotsOf(placed), n, closed, offset);
  }

  /**
   * The cursor's frontier equals the Real/Int widths plus the pad bytes plus
   * one byte for every Bool that opened a byte; it is the largest end byte;
   * and the opened bytes hold at most eight Bools each.
   */
  lemma {:induction false} Accounting(ds: seq<Decl>)
    ensures Accounted(Fold(ds))
  {
    if ds != [] {
      Accounting(ds[..|ds| - 1]);
      AccountingStep(Fold(ds[..|ds| - 1]), ds[|ds| - 1]);
    }
  }

  lemma {:induction false} NoBoolsCounted(s: seq<Slot>)
    requires forall i :: 0 <= i < |s| ==> !s[i].BoolSlot?
    ensures BoolCount(s) == 0
  {
    if s != [] {
      NoBoolsCounted(s[..|s| - 1]);
    }
  }

  /** In a single run, a Bool that follows a Real or an Int is the first Bool of all. */
  lemma NoBoolBeforeGap(s: seq<Slot>, x: Slot)
    requires SingleBoolRun(s + [x]) && x.BoolSlot?
    requires s != [] && !s[|s| - 1].BoolSlot?
    ensures BoolCount(s) == 0
  {
    var s' := s + [x];
    forall i | 0 <= i < |s|
      ensures !s[i].BoolSlot?
    {
      if i < |s| - 1 {
        assert s'[i] == s[i] && s'[|s| - 1] == s[|s| - 1] && s'[|s|] == x;
      }
    }
    NoBoolsCounted(s);
  }

  /** While the single Bool run is open the bit cursor is the Bool count modulo 8. */
  predicate RunCountedAt(c: Cursor, s: seq<Slot>)
  {
    && OpenedBytes(s) == (BoolCount(s) + 7) / 8
    && c.bitOffset == if s != [] && s[|s| - 1].BoolSlot? then BoolCount(s) % 8 else 0
  }

  predicate RunCounted(p: Parse)
  {
    RunCountedAt(p.cursor, SlotsOf(p.placed))
  }

  /** Counting one more Bool: the opened bytes and the bit position modulo 8. */
  lemma RunArith(b: nat)
    ensures b % 8 == 0 ==> (b + 8) / 8 == (b + 7) / 8 + 1
    ensures b % 8 != 0 ==> (b + 8) / 8 == (b + 7) / 8
    ensures (b + 1) % 8 == if b % 8 + 1 == 8 then 0 else b % 8 + 1
  {
  }

  /** A Bool at the cursor that continues the single run keeps the count. */
  lemma RunBool(c: Cursor, s: seq<Slot>)
    requires RunCountedAt(c, s)
    requires SingleBoolRun(s + [BoolSlot(c.byteOffset, c.bitOffset)])
    ensures RunCountedAt(if c.bitOffset + 1 == 8 then Cursor(c.byteOffset + 1, 0, c.boolBytes)
                         else Cursor(c.byteOffset, c.bitOffset + 1, c.boolBytes),
                         s + [BoolSlot(c.byteOffset, c.bitOffset)])
  {
    var x := BoolSlot(c.byteOffset, c.bitOffset);
    CountsAppend(s, x);
    OpenedAppend(s, x);
    if s != [] && !s[|s| - 1].BoolSlot? {
      NoBoolBeforeGap(s, x);
    }
    RunArith(BoolCount(s));
  }

  /** A Real or an Int closes the run: the count is kept and the bit cursor is 0. */
  lemma RunNumber(c: Cursor, s: seq<Slot>, c': Cursor, x: Slot)
    requires RunCountedAt(c, s) && c'.bitOffset == 0 && x.NumSlot?
    ensures RunCountedAt(c', s + [x])
  {
    CountsAppend(s, x);
    OpenedAppend(s, x);
  }

  lemma RunStep(p: Parse, d: Decl)
    requires RunCounted(p)
    requires SingleBoolRun(SlotsOf(Step(p, d).placed))
    ensures RunCounted(Step(p, d))
  {
    var c, placed := p.cursor, p.placed;
    assert p == Parse(c, placed);
    match TypeOf(d.typeName)
    case None =>
    case Some(Bool) =>
      StepBoolAt(c, placed, d);
      SlotsOfAppend(placed, Entry(d.name, BoolSlot(c.byteOffset, c.bitOffset)));
      RunBool(c, SlotsOf(placed));
    case Some(Number(n)) =>
      var closed := Frontier(c);
      var offset := if closed % 2 != 0 then closed + 1 else closed;
      StepNumberAt(c, placed, d, n, closed, offset);
      SlotsOfAppend(placed, Entry(d.name, NumSlot(n, offset)));
      RunNumber(c, SlotsOf(placed), Cursor(offset + Width(n), 0, c.boolBytes + (offset - closed)), NumSlot(n, offset));
  }

  lemma SingleRunPrefix(s: seq<Slot>, m: nat)
    requires m <= |s| && SingleBoolRun(s)
    ensures SingleBoolRun(s[..m])
  {
    forall i, j, k | 0 <= i < j < k < m && s[..m][i].BoolSlot? && s[..m][k].BoolSlot?
      ensures s[..m][j].BoolSlot?
    {
      assert s[i].BoolSlot? && s[k].BoolSlot?;
    }
  }

  /** When the Bools form a single run, they open exactly ceil(count / 8) bytes. */
  lemma {:induction false} SingleRunOpened(ds: seq<Decl>)
    requires SingleBoolRun(SlotsOf(Fold(ds).placed))
    ensures RunCounted(Fold(ds))
  {
    if ds != [] {
      var m := |ds| - 1;
      var p := Fold(ds[..m]);
      assert Fold(ds) == Step(p, ds[m]);
      if TypeOf(ds[m].typeName).Some? {
        var e := Fold(ds).placed[|p.placed|];
        assert Fold(ds).placed == p.placed + [e];
        SlotsOfAppend(p.placed, e);
        SingleRunPrefix(SlotsOf(Fold(ds).placed), |p.placed|);
      }
      SingleRunOpened(ds[..m]);
      RunStep(p, ds[m]);
    }
  }

  /** With every name declared once, the formula never exceeds the largest end byte. */
  lemma SizeNeverOvercounts(ds: seq<Decl>)
    requires NoDuplicates(Names(Fold(ds).placed))
    ensures var p := Fold(ds); DbSize(Recorded(p.placed), p.cursor.boolBytes) <= MaxEnd(Recorded(p.placed))
  {
    var p := Fold(ds);
    DistinctRecordsAll(p.placed);
    Accounting(ds);
  }

  /**
   * With every name declared once, the formula is exactly the largest end byte
   * if and only if the Bools opened exactly ceil(count / 8) bytes; otherwise it
   * falls short by the difference.
   */
  lemma SizeExactIff(ds: seq<Decl>)
    requires NoDuplicates(Names(Fold(ds).placed))
    ensures var p := Fold(ds); var s := SlotsOf(p.placed); var bools := BoolCount(s);
      var packed := if bools > 0 then (bools + 7) / 8 else 0;
      && packed <= OpenedBytes(s)
      && DbSize(Recorded(p.placed), p.cursor.boolBytes) + (OpenedBytes(s) - packed) == MaxEnd(Recorded(p.placed))
      && (DbSize(Recorded(p.placed), p.cursor.boolBytes) == MaxEnd(Recorded(p.placed)) <==> packed == OpenedBytes(s))
  {
    var p := Fold(ds);
    DistinctRecordsAll(p.placed);
    Accounting(ds);
  }

  /**
   * With every name declared once and all Bools in one run, the formula is
   * exactly the largest end byte, so the fetched buffer holds every slot.
   */
  lemma SizeCoversEverySlot(ds: seq<Decl>)
    requires NoDuplicates(Names(Fold(ds).placed))
    requires SingleBoolRun(SlotsOf(Fold(ds).placed))
    ensures var p := Fold(ds); var size := DbSize(Recorded(p.placed), p.cursor.boolBytes);
      && size == MaxEnd(Recorded(p.placed))
      && forall n :: n in SlotMap(p.placed) ==> End(SlotMap(p.placed)[n]) <= size
  {
    var p := Fold(ds);
    var s := SlotsOf(p.placed);
    SizeExactIff(ds);
    SingleRunOpened(ds);
    assert OpenedBytes(s) == (BoolCount(s) + 7) / 8;
    RecordedWithinMaxEnd(p.placed);
  }

  /** Every slot in the dictionary ends at or before the largest end byte of its values. */
  lemma RecordedWithinMaxEnd(placed: seq<Entry>)
    ensures forall n :: n in SlotMap(placed) ==> End(SlotMap(placed)[n]) <= MaxEnd(Recorded(placed))
  {
    KeyOrderIsKeys(placed);
    var rec := Recorded(placed);
    forall n | n in SlotMap(placed)
      ensures End(SlotMap(placed)[n]) <= MaxEnd(rec)
    {
      var keys := KeyOrder(placed);
      var i :| 0 <= i < |keys| && keys[i] == n;
      assert rec[i] == SlotMap(placed)[n];
    }
  }

  // ---------------------------------------------------------------------------
  // Worked layouts.

  /** Runs the fold over four declarations one step at a time. */
  lemma FoldFour(d0: Decl, d1: Decl, d2: Decl, d3: Decl)
    ensures Fold([d0, d1, d2, d3]) == Step(Step(Step(Step(Start, d0), d1), d2), d3)
  {
    FoldAppend([], d0);
    FoldAppend([d0], d1);
    FoldAppend([d0, d1], d2);
    FoldAppend([d0, d1, d2], d3);
    assert [d0] + [d1] == [d0, d1];
    assert [d0, d1] + [d2] == [d0, d1, d2];
    assert [d0, d1, d2] + [d3] == [d0, d1, d2, d3];
  }

  lemma CountsAppend(s: seq<Slot>, x: Slot)
    ensures BoolCount(s + [x]) == BoolCount(s) + BoolBit(x)
    ensures NumWidths(s + [x]) == NumWidths(s) + NumBytes(x)
  {
    assert (s + [x])[..|s|] == s;
  }

  lemma CountsOfFour(a: Slot, b: Slot, c: Slot, d: Slot)
    ensures BoolCount([a, b, c, d]) == BoolBit(a) + BoolBit(b) + BoolBit(c) + BoolBit(d)
    ensures NumWidths([a, b, c, d]) == NumBytes(a) + NumBytes(b) + NumBytes(c) + NumBytes(d)
  {
    assert [a][..0] == [];
    assert BoolCount([a]) == BoolBit(a) && NumWidths([a]) == NumBytes(a);
    assert [a, b][..1] == [a];
    assert BoolCount([a, b]) == BoolCount([a]) + BoolBit(b) && NumWidths([a, b]) == NumWidths([a]) + NumBytes(b);
    assert [a, b, c][..2] == [a, b];
    assert BoolCount([a, b, c]) == BoolCount([a, b]) + BoolBit(c) && NumWidths([a, b, c]) == NumWidths([a, b]) + NumBytes(c);
    assert [a, b, c, d][..3] == [a, b, c];
  }

  /** The size formula over four distinctly named entries is the formula over their slots. */
  lemma SizeOfFour(e0: Entry, e1: Entry, e2: Entry, e3: Entry, boolBytes: nat)
    requires e0.name != e1.name && e0.name != e2.name && e0.name != e3.name
    requires e1.name != e2.name && e1.name != e3.name && e2.name != e3.name
    ensures DbSize(Recorded([e0, e1, e2, e3]), boolBytes)
      == NumBytes(e0.slot) + NumBytes(e1.slot) + NumBytes(e2.slot) + NumBytes(e3.slot)
         + (var bools := BoolBit(e0.slot) + BoolBit(e1.slot) + BoolBit(e2.slot) + BoolBit(e3.slot);
            if bools > 0 then (bools + 7) / 8 else 0)
         + boolBytes
  {
    var placed := [e0, e1, e2, e3];
    assert Names(placed) == [e0.name, e1.name, e2.name, e3.name];
    DistinctRecordsAll(placed);
    assert SlotsOf(placed) == [e0.slot, e1.slot, e2.slot, e3.slot];
    CountsOfFour(e0.slot, e1.slot, e2.slot, e3.slot);
  }

  lemma ExampleBoolsThenScalars()
    ensures var p := Fold([Decl("a", "Bool"), Decl("b", "Bool"), Decl("c", "Real"), Decl("d", "Int")]);
      && p.placed == [Entry("a", BoolSlot(0, 0)), Entry("b", BoolSlot(0, 1)),
                      Entry("c", NumSlot(Real, 2)), Entry("d", NumSlot(Int, 6))]
      && DbSize(Recorded(p.placed), p.cursor.boolBytes) == 8
  {
    var a, b, c, d := Decl("a", "Bool"), Decl("b", "Bool"), Decl("c", "Real"), Decl("d", "Int");
    var e0, e1, e2, e3 := Entry("a", BoolSlot(0, 0)), Entry("b", BoolSlot(0, 1)), Entry("c", NumSlot(Real, 2)), Entry("d", NumSlot(Int, 6));
    KnownTokens();
    FoldFour(a, b, c, d);
    var p1 := Step(Start, a);
    assert p1 == Parse(Cursor(0, 1, 0), [e0]);
    var p2 := Step(p1, b);
    assert p2 == Parse(Cursor(0, 2, 0), [e0] + [e1]);
    var p3 := Step(p2, c);
    assert p3 == Parse(Cursor(6, 0, 1), [e0] + [e1] + [e2]);
    var p4 := Step(p3, d);
    assert p4 == Parse(Cursor(8, 0, 1), [e0] + [e1] + [e2] + [e3]);
    assert [e0] + [e1] + [e2] + [e3] == [e0, e1, e2, e3];
    SizeOfFour(e0, e1, e2, e3, 1);
  }

  lemma ExampleRealThenBools()
    ensures var p := Fold([Decl("x", "Real"), Decl("y", "Bool"), Decl("z", "Bool"), Decl("w", "Bool")]);
      && p.placed == [Entry("x", NumSlot(Real, 0)), Entry("y", BoolSlot(4, 0)),
                      Entry("z", BoolSlot(4, 1)), Entry("w", BoolSlot(4, 2))]
      && DbSize(Recorded(p.placed), p.cursor.boolBytes) == 5
  {
    var x, y, z, w := Decl("x", "Real"), Decl("y", "Bool"), Decl("z", "Bool"), Decl("w", "Bool");
    var e0, e1, e2, e3 := Entry("x", NumSlot(Real, 0)), Entry("y", BoolSlot(4, 0)), Entry("z", BoolSlot(4, 1)), Entry("w", BoolSlot(4, 2));
    KnownTokens();
    FoldFour(x, y, z, w);
    var p1 := Step(Start, x);
    assert p1 == Parse(Cursor(4, 0, 0), [e0]);
    var p2 := Step(p1, y);
    assert p2 == Parse(Cursor(4, 1, 0), [e0] + [e1]);
    var p3 := Step(p2, z);
    assert p3 == Parse(Cursor(4, 2, 0), [e0] + [e1] + [e2]);
    var p4 := Step(p3, w);
    assert p4 == Parse(Cursor(4, 3, 0), [e0] + [e1] + [e2] + [e3]);
    assert [e0] + [e1] + [e2] + [e3] == [e0, e1, e2, e3];
    SizeOfFour(e0, e1, e2, e3, 0);
  }

  /** Two separated Bool runs: the formula gives 7 bytes, but `j` ends at byte 8. */
  lemma TwoBoolRunsUndercount()
    ensures var p := Fold([Decl("b", "Bool"), Decl("i", "Int"), Decl("c", "Bool"), Decl("j", "Int")]);
      && p.placed == [Entry("b", BoolSlot(0, 0)), Entry("i", NumSlot(Int, 2)),
                      Entry("c", BoolSlot(4, 0)), Entry("j", NumSlot(Int, 6))]
      && DbSize(Recorded(p.placed), p.cursor.boolBytes) == 7
      && End(SlotMap(p.placed)["j"]) == 8
  {
    var b, i, c, j := Decl("b", "Bool"), Decl("i", "Int"), Decl("c", "Bool"), Decl("j", "Int");
    var e0, e1, e2, e3 := Entry("b", BoolSlot(0, 0)), Entry("i", NumSlot(Int, 2)), Entry("c", BoolSlot(4, 0)), Entry("j", NumSlot(Int, 6));
    KnownTokens();
    FoldFour(b, i, c, j);
    var p1 := Step(Start, b);
    assert p1 == Parse(Cursor(0, 1, 0), [e0]);
    var p2 := Step(p1, i);
    assert p2 == Parse(Cursor(4, 0, 1), [e0] + [e1]);
    var p3 := Step(p2, c);
    assert p3 == Parse(Cursor(4, 1, 1), [e0] + [e1] + [e2]);
    var p4 := Step(p3, j);
    assert p4 == Parse(Cursor(8, 0, 2), [e0] + [e1] + [e2] + [e3]);
    var placed := [e0, e1, e2, e3];
    assert [e0] + [e1] + [e2] + [e3] == placed;
    SizeOfFour(e0, e1, e2, e3, 2);
    AppendEntry([e0, e1, e2], e3);
    assert [e0, e1, e2] + [e3] == placed;
  }

  /** A name declared twice: only the second slot is recorded, and it ends past the formula's size. */
  lemma RedeclaredNameUndercounts()
    ensures var p := Fold([Decl("a", "Int"), Decl("a", "Int")]);
      && SlotMap(p.placed) == map["a" := NumSlot(Int, 2)]
      && DbSize(Recorded(p.placed), p.cursor.boolBytes) == 2
  {
    var d := Decl("a", "Int");
    FoldAppend([], d);
    FoldAppend([d], d);
    assert [d] + [d] == [d, d];
    var p := Fold([d, d]);
    assert p.placed == [Entry("a", NumSlot(Int, 0)), Entry("a", NumSlot(Int, 2))];
    AppendEntry([], Entry("a", NumSlot(Int, 0)));
    AppendEntry([Entry("a", NumSlot(Int, 0))], Entry("a", NumSlot(Int, 2)));
    assert [Entry("a", NumSlot(Int, 0))] + [Entry("a", NumSlot(Int, 2))] == p.placed;
    assert KeyOrder(p.placed) == ["a"];
    var r := Recorded(p.placed);
    assert r == [NumSlot(Int, 2)];
    assert r[..0] == [];
  }
}
