/**
 * `PLCDataBlock`: the layout built once from the declarations, the size
 * calculation, `refresh` (one full read, then every variable decoded) and
 * `write` (read the whole block, change one slot, write the whole block back).
 * The controller is an abstract byte store.
 */
module Accessor {
  import opened Wrappers
  import opened Types
  import opened Layout
  import opened BlockSize
  import opened Codec

  /** `start .. start + size` lies inside data block `n`. */
  predicate InBlock(blocks: map<nat, seq<byte>>, n: nat, start: nat, size: nat)
  {
    n in blocks && start + size <= |blocks[n]|
  }

  /** A byte image with `bytes` written over it at `start`. */
  function Overwrite(image: seq<byte>, start: nat, bytes: seq<byte>): seq<byte>
    requires start + |bytes| <= |image|
  {
    image[..start] + bytes + image[start + |bytes|..]
  }

  /** Writing at the start of an image keeps only the tail past the written bytes. */
  lemma OverwriteFront(image: seq<byte>, bytes: seq<byte>)
    requires |bytes| <= |image|
    ensures Overwrite(image, 0, bytes) == bytes + image[|bytes|..]
  {
    assert image[..0] == [];
  }

  /** The controller: a faithful store of data block images, keyed by block number. */
  class Plc {
    var blocks: map<nat, seq<byte>>

    constructor(blocks: map<nat, seq<byte>>)
      ensures this.blocks == blocks
    {
      this.blocks := blocks;
    }

    /** `read_area` of a data block: a fresh copy of the range, or a failure outside the block. */
    method ReadArea(dbNumber: nat, start: nat, size: nat) returns (r: Result<array<byte>, Error>)
      ensures r.Ok? <==> InBlock(blocks, dbNumber, start, size)
      ensures r.Ok? ==> fresh(r.value) && r.value[..] == blocks[dbNumber][start..start + size]
      ensures r.Err? ==> r.error == ReadFailed
    {
      if !InBlock(blocks, dbNumber, start, size) {
        return Err(ReadFailed);
      }
      var image := blocks[dbNumber][start..start + size];
      var buf := new byte[size](i requires 0 <= i < size => image[i]);
      r := Ok(buf);
    }

    /** `write_area` of a data block: the buffer's bytes replace the range, or a failure outside the block. */
    method WriteArea(dbNumber: nat, start: nat, buf: array<byte>) returns (r: Outcome<Error>)
      modifies this
      ensures InBlock(old(blocks), dbNumber, start, buf.Length) ==>
        r == Pass && blocks == old(blocks)[dbNumber := Overwrite(old(blocks)[dbNumber], start, buf[..])]
      ensures !InBlock(old(blocks), dbNumber, start, buf.Length) ==>
        r == Fail(WriteFailed) && blocks == old(blocks)
    {
      if !InBlock(blocks, dbNumber, start, buf.Length) {
        return Fail(WriteFailed);
      }
      blocks := blocks[dbNumber := Overwrite(blocks[dbNumber], start, buf[..])];
      r := Pass;
    }
  }

  /** What the decode pass of `refresh` produced: the values decoded, and the failure that stopped it. */
  datatype Refreshed = Refreshed(values: map<string, Value>, failure: Option<Error>)

  /** Decodes the variables in order, stopping at the first one that does not fit the buffer. */
  function DecodeAll(buf: seq<byte>, names: seq<string>, data: map<string, Slot>): Refreshed
    requires forall n :: n in names ==> n in data
  {
    if names == [] then Refreshed(map[], None)
    else
      var r := DecodeAll(buf, names[..|names| - 1], data);
      var n := names[|names| - 1];
      if r.failure.Some? then r
      else
        match Decode(buf, data[n])
        case Ok(v) => Refreshed(r.values[n := v], None)
        case Err(e) => Refreshed(r.values, Some(e))
  }

  /** Updating the right operand of a map union is updating the union. */
  lemma UnionUpdate<K, V>(a: map<K, V>, b: map<K, V>, k: K, v: V)
    ensures (a + b)[k := v] == a + b[k := v]
  {
  }

  /** One more name, while nothing has failed: its slot is decoded and recorded, or the pass fails on it. */
  lemma DecodeAllNext(buf: seq<byte>, names: seq<string>, data: map<string, Slot>, i: nat)
    requires forall n :: n in names ==> n in data
    requires i < |names| && DecodeAll(buf, names[..i], data).failure == None
    ensures var r := DecodeAll(buf, names[..i], data);
      DecodeAll(buf, names[..i + 1], data) ==
        match Decode(buf, data[names[i]])
        case Ok(v) => Refreshed(r.values[names[i] := v], None)
        case Err(e) => Refreshed(r.values, Some(e))
  {
    assert names[..i + 1][..i] == names[..i];
  }

  /** Once the pass has failed, decoding more names changes nothing. */
  lemma {:induction false} DecodeAllStops(buf: seq<byte>, names: seq<string>, data: map<string, Slot>, i: nat)
    requires forall n :: n in names ==> n in data
    requires i <= |names| && DecodeAll(buf, names[..i], data).failure.Some?
    ensures DecodeAll(buf, names, data) == DecodeAll(buf, names[..i], data)
  {
    if i < |names| {
      var m := |names| - 1;
      assert names[..m][..i] == names[..i];
      DecodeAllStops(buf, names[..m], data, i);
    } else {
      assert names[..i] == names;
    }
  }

  /** If every slot fits the buffer, the pass decodes every name and nothing fails. */
  lemma {:induction false} DecodeAllFits(buf: seq<byte>, names: seq<string>, data: map<string, Slot>)
    requires forall n :: n in names ==> n in data && End(data[n]) <= |buf|
    ensures var r := DecodeAll(buf, names, data);
      && r.failure == None
      && (forall n :: n in r.values <==> n in names)
      && forall n :: n in names ==> Decode(buf, data[n]) == Ok(r.values[n])
  {
    if names != [] {
      var m := |names| - 1;
      var init, last := names[..m], names[m];
      assert names == init + [last];
      DecodeAllFits(buf, init, data);
      var r := DecodeAll(buf, init, data);
      var v := Decode(buf, data[last]).value;
      assert DecodeAll(buf, names, data) == Refreshed(r.values[last := v], None);
      forall n | n in names && n != last
        ensures n in init
      {
        var j :| 0 <= j < |names| && names[j] == n;
        assert init[j] == n;
      }
    }
  }

  /** A name decoded before position `i` and not listed again keeps its decoded value to the end of the pass. */
  lemma {:induction false} DecodeAllKeeps(buf: seq<byte>, names: seq<string>, data: map<string, Slot>, i: nat, n: string)
    requires forall n :: n in names ==> n in data
    requires i <= |names| && n in DecodeAll(buf, names[..i], data).values && n !in names[i..]
    ensures n in DecodeAll(buf, names, data).values
    ensures DecodeAll(buf, names, data).values[n] == DecodeAll(buf, names[..i], data).values[n]
  {
    if i < |names| {
      var m := |names| - 1;
      assert names[..m][..i] == names[..i];
      assert names[..m][i..] == names[i..m];
      assert names[m] == names[i..][m - i];
      DecodeAllKeeps(buf, names[..m], data, i, n);
    } else {
      assert names[..i] == names;
    }
  }

  /** Every name up to and including the first occurrence of `name` has a slot that ends within `size`. */
  predicate FitsThrough(names: seq<string>, data: map<string, Slot>, name: string, size: nat)
    requires forall n :: n in names ==> n in data
  {
    forall j :: 0 <= j < |names| && name !in names[..j] ==> End(data[names[j]]) <= size
  }

  /**
   * When the slots of `name` and of every name before it fit the buffer, the
   * pass records `name`'s decoded value, whatever happens to later names.
   */
  lemma DecodeAllReaches(buf: seq<byte>, names: seq<string>, data: map<string, Slot>, name: string)
    requires forall n :: n in names ==> n in data
    requires NoDuplicates(names) && name in names
    requires FitsThrough(names, data, name, |buf|)
    ensures var r := DecodeAll(buf, names, data);
      name in r.values && Decode(buf, data[name]) == Ok(r.values[name])
  {
    var k :| 0 <= k < |names| && names[k] == name;
    var pre := names[..k + 1];
    forall n | n in pre
      ensures n in data && End(data[n]) <= |buf|
    {
      var j :| 0 <= j <= k && pre[j] == n;
      assert names[j] == n;
      assert name !in names[..j] by {
        forall t | 0 <= t < j
          ensures names[..j][t] != name
        {
          assert names[..j][t] == names[t];
        }
      }
    }
    DecodeAllFits(buf, pre, data);
    assert name !in names[k + 1..] by {
      forall t | k + 1 <= t < |names|
        ensures names[t] != name
      {
      }
    }
    DecodeAllKeeps(buf, names, data, k + 1, name);
  }

  /**
   * Encoding `v` into the slot of `name` and decoding every variable again gives
   * `v` for `name` and the old value for every variable whose slot is disjoint.
   */
  lemma DecodeAfterEncode(buf: seq<byte>, names: seq<string>, data: map<string, Slot>, name: string, v: Value)
    requires forall n :: n in names ==> n in data && End(data[n]) <= |buf|
    requires name in names && Encode(buf, data[name], v).Ok?
    requires forall n :: n in names && n != name ==> Disjoint(data[name], data[n])
    ensures var before := DecodeAll(buf, names, data);
      var after := DecodeAll(Encode(buf, data[name], v).value, names, data);
      && before.failure == None && after.failure == None
      && (forall n :: n in after.values <==> n in names)
      && (forall n :: n in before.values <==> n in names)
      && after.values[name] == v
      && forall n :: n in names && n != name ==> after.values[n] == before.values[n]
  {
    var out := Encode(buf, data[name], v).value;
    EncodeFrame(buf, data[name], v);
    DecodeAllFits(buf, names, data);
    DecodeAllFits(out, names, data);
    EncodeThenDecode(buf, data[name], v);
    forall n | n in names && n != name
      ensures Decode(out, data[n]) == Decode(buf, data[n])
    {
      EncodeIndependent(buf, data[name], data[n], v);
    }
  }

  /**
   * Over a dictionary whose slots do not overlap, after a successful write of
   * `v` to `name`, decoding the written buffer gives `v` for `name` and the
   * old value for every other variable, provided every slot fits the buffer.
   */
  lemma RefreshSeesWriteIn(placed: seq<Entry>, buf: seq<byte>, name: string, v: Value)
    requires SlotsDisjoint(SlotMap(placed))
    requires name in SlotMap(placed)
    requires Encode(buf, SlotMap(placed)[name], v).Ok?
    requires forall n :: n in SlotMap(placed) ==> End(SlotMap(placed)[n]) <= |buf|
    ensures var rec := SlotMap(placed);
      var before := DecodeAll(buf, KeyOrder(placed), rec);
      var after := DecodeAll(Encode(buf, rec[name], v).value, KeyOrder(placed), rec);
      && before.failure == None && after.failure == None
      && before.values.Keys == rec.Keys && after.values.Keys == rec.Keys
      && after.values[name] == v
      && forall n :: n in rec && n != name ==> after.values[n] == before.values[n]
  {
    DecodeAfterEncode(buf, KeyOrder(placed), SlotMap(placed), name, v);
  }

  /**
   * After a successful write of `v` to `name` in the layout of `ds`, decoding
   * the written buffer gives `v` for `name` and the old value for every other
   * variable, provided every slot fits the buffer.
   */
  lemma RefreshSeesWrite(ds: seq<Decl>, buf: seq<byte>, name: string, v: Value)
    requires name in SlotMap(Fold(ds).placed)
    requires Encode(buf, SlotMap(Fold(ds).placed)[name], v).Ok?
    requires forall n :: n in SlotMap(Fold(ds).placed) ==> End(SlotMap(Fold(ds).placed)[n]) <= |buf|
    ensures var p := Fold(ds).placed; var rec := SlotMap(p);
      var before := DecodeAll(buf, KeyOrder(p), rec);
      var after := DecodeAll(Encode(buf, rec[name], v).value, KeyOrder(p), rec);
      && before.failure == None && after.failure == None
      && before.values.Keys == rec.Keys && after.values.Keys == rec.Keys
      && after.values[name] == v
      && forall n :: n in rec && n != name ==> after.values[n] == before.values[n]
  {
    RecordedDisjoint(ds);
    RefreshSeesWriteIn(Fold(ds).placed, buf, name, v);
  }

  class DataBlock {
    const dbNumber: nat
    const plc: Plc
    /** `self.data` without the values: every recorded name's slot. */
    var data: map<string, Slot>
    /** The keys of `self.data` in its iteration (first insertion) order. */
    var order: seq<string>
    var boolBytes: nat
    /** The `'value'` entries of `self.data`, as the last `refresh` left them. */
    var values: map<string, Value>
    /** The declarations the layout was built from. */
    ghost var decls: seq<Decl>

    /** The layout is the one the fold computes from the declarations. */
    ghost predicate Valid()
      reads this
    {
      var p := Fold(decls);
      data == SlotMap(p.placed) && order == KeyOrder(p.placed) && boolBytes == p.cursor.boolBytes
    }

    /** The length `_calculate_db_size` gives. */
    ghost function TotalSize(): nat
      reads this
      requires Valid()
    {
      DbSize(Recorded(Fold(decls).placed), boolBytes)
    }

    constructor(dbNumber: nat, matches: seq<Decl>, plc: Plc)
      ensures Valid() && decls == matches
      ensures this.dbNumber == dbNumber && this.plc == plc && values == map[]
    {
      this.dbNumber := dbNumber;
      this.plc := plc;
      data := map[];
      order := [];
      boolBytes := 0;
      values := map[];
      decls := [];
      new;
      ParseDbFile(matches);
    }

    /** `self.data[var_name] = ...`: a new name is appended to the iteration order, a known one keeps its place. */
    method Assign(name: string, slot: Slot, ghost placed: seq<Entry>)
      requires Records(placed, data, order)
      modifies this`data, this`order
      ensures data == old(data)[name := slot]
      ensures order == if name in old(data) then old(order) else old(order) + [name]
      ensures Records(placed + [Entry(name, slot)], data, order)
    {
      RecordEntry(placed, Entry(name, slot), data, order);
      order := if name in data then order else order + [name];
      data := data[name := slot];
    }

    /** The layout loop of `_parse_db_file` over the matched declarations. */
    method ParseDbFile(matches: seq<Decl>)
      requires data == map[] && order == [] && boolBytes == 0
      modifies this`data, this`order, this`boolBytes, this`decls
      ensures decls == matches && Valid()
    {
      var byteOffset: nat := 0;
      var bitOffset: nat := 0;
      ghost var placed: seq<Entry> := [];
      for i := 0 to |matches|
        invariant bitOffset < 8
        invariant Fold(matches[..i]) == Parse(Cursor(byteOffset, bitOffset, boolBytes), placed)
        invariant Records(placed, data, order)
      {
        var varName := matches[i].name;
        var varType := TypeOf(matches[i].typeName);
        match varType
        case Some(Bool) =>
          var slot := BoolSlot(byteOffset, bitOffset);
          FoldBoolAt(matches, i, byteOffset, bitOffset, boolBytes, placed);
          Assign(varName, slot, placed);
          placed := placed + [Entry(varName, slot)];
          bitOffset := bitOffset + 1;
          if bitOffset == 8 {
            bitOffset := 0;
            byteOffset := byteOffset + 1;
          }
        case Some(Number(n)) =>
          ghost var c := Cursor(byteOffset, bitOffset, boolBytes);
          if bitOffset > 0 {
            byteOffset := byteOffset + 1;
            bitOffset := 0;
          }
          ghost var closed := byteOffset;
          if byteOffset % 2 != 0 {
            byteOffset := byteOffset + 1;
            boolBytes := boolBytes + 1;
          }
          assert boolBytes == c.boolBytes + (byteOffset - closed);
          var slot := NumSlot(n, byteOffset);
          FoldNumberAt(matches, i, n, c, placed, closed, byteOffset);
          Assign(varName, slot, placed);
          placed := placed + [Entry(varName, slot)];
          byteOffset := byteOffset + Size(Number(n));
        case None =>
          FoldUnknownAt(matches, i);
      }
      decls := matches;
      assert matches[..|matches|] == matches;
    }

    /** `_calculate_db_size`: one pass over the recorded slots, then the Bool bytes and the padding. */
    method CalculateSize() returns (totalSize: nat)
      requires Valid()
      ensures totalSize == DbSize(Recorded(Fold(decls).placed), boolBytes)
    {
      ghost var slots := Recorded(Fold(decls).placed);
      KeyOrderIsKeys(Fold(decls).placed);
      totalSize := 0;
      var boolCount := 0;
      for i := 0 to |order|
        invariant totalSize == NumWidths(slots[..i]) && boolCount == BoolCount(slots[..i])
      {
        var slot := data[order[i]];
        assert slots[..i + 1] == slots[..i] + [slot];
        CountsAppend(slots[..i], slot);
        if slot.BoolSlot? {
          boolCount := boolCount + 1;
        } else {
          totalSize := totalSize + Size(Number(slot.kind));
        }
      }
      assert slots[..|order|] == slots;
      if boolCount > 0 {
        totalSize := totalSize + (boolCount + 7) / 8;
      }
      totalSize := totalSize + boolBytes;
    }

    /**
     * `refresh`: reads the whole block once, then decodes each variable in
     * iteration order into `values`; a variable past the buffer's end stops the
     * pass with the values decoded so far kept.
     */
    method Refresh() returns (r: Outcome<Error>)
      requires Valid()
      modifies this`values
      ensures var size := TotalSize();
        if InBlock(plc.blocks, dbNumber, 0, size) then
          var d := DecodeAll(plc.blocks[dbNumber][..size], order, data);
          && values == old(values) + d.values
          && r == if d.failure.Some? then Fail(d.failure.value) else Pass
        else values == old(values) && r == Fail(ReadFailed)
    {
      var dbSize := CalculateSize();
      var read := plc.ReadArea(dbNumber, 0, dbSize);
      if read.Err? {
        return Fail(read.error);
      }
      r := DecodeValues(read.value);
    }

    /** The decode loop of `refresh` over the fetched buffer, in the dictionary's order. */
    method DecodeValues(dbData: array<byte>) returns (r: Outcome<Error>)
      requires Valid()
      modifies this`values
      ensures var d := DecodeAll(dbData[..], order, data);
        && values == old(values) + d.values
        && r == if d.failure.Some? then Fail(d.failure.value) else Pass
    {
      KeyOrderIsKeys(Fold(decls).placed);
      ghost var buf := dbData[..];
      for i := 0 to |order|
        invariant values == old(values) + DecodeAll(buf, order[..i], data).values
        invariant DecodeAll(buf, order[..i], data).failure == None
      {
        var varName := order[i];
        var decoded := Decode(dbData[..], data[varName]);
        DecodeAllNext(buf, order, data, i);
        if decoded.Err? {
          DecodeAllStops(buf, order, data, i + 1);
          return Fail(decoded.error);
        }
        UnionUpdate(old(values), DecodeAll(buf, order[..i], data).values, varName, decoded.value);
        values := values[varName := decoded.value];
      }
      assert order[..|order|] == order;
      r := Pass;
    }

    /**
     * `write`: an unknown name fails before any controller access; otherwise the
     * whole block is read, the one slot encoded into the fetched buffer, and the
     * whole buffer written back. The layout and the cached values stay as they were.
     */
    method Write(name: string, value: Value) returns (r: Outcome<Error>)
      requires Valid()
      modifies plc
      ensures unchanged(this)
      ensures name !in data ==> r == Fail(UnknownVariable(name)) && plc.blocks == old(plc.blocks)
      ensures name in data ==>
        var size := TotalSize();
        if !InBlock(old(plc.blocks), dbNumber, 0, size) then
          r == Fail(ReadFailed) && plc.blocks == old(plc.blocks)
        else
          match Encode(old(plc.blocks)[dbNumber][..size], data[name], value)
          case Err(e) => r == Fail(e) && plc.blocks == old(plc.blocks)
          case Ok(out) => r == Pass && plc.blocks == old(plc.blocks)[dbNumber := out + old(plc.blocks)[dbNumber][size..]]
    {
      if name !in data {
        return Fail(UnknownVariable(name));
      }
      var slot := data[name];
      var dbSize := CalculateSize();
      var read := plc.ReadArea(dbNumber, 0, dbSize);
      if read.Err? {
        return Fail(read.error);
      }
      var dbData := read.value;
      assert dbData[..] == plc.blocks[dbNumber][..dbSize];
      ghost var fetched := dbData[..];
      var encoded := EncodeInto(dbData, slot, value);
      if encoded.Fail? {
        return encoded;
      }
      EncodeFrame(fetched, slot, value);
      OverwriteFront(plc.blocks[dbNumber], dbData[..]);
      r := plc.WriteArea(dbNumber, 0, dbData);
    }
  }

  /**
   * A `write` followed by a `refresh` against the byte store. After a successful
   * write, the refresh caches the written value for the variable whenever its
   * slot and the slots before it in iteration order fit the computed size, even
   * if a later variable stops the pass. When every slot fits, the refresh
   * succeeds and every other variable reads as it did before the write.
   */
  method WriteThenRefresh(db: DataBlock, name: string, v: Value) returns (w: Outcome<Error>, r: Outcome<Error>)
    requires db.Valid()
    modifies db.plc, db`values
    ensures w.Pass? ==> InBlock(old(db.plc.blocks), db.dbNumber, 0, db.TotalSize()) && name in db.data
    ensures w.Pass? && FitsThrough(db.order, db.data, name, db.TotalSize()) ==>
      name in db.values && db.values[name] == v
    ensures w.Pass? && (forall n :: n in db.data ==> End(db.data[n]) <= db.TotalSize()) ==>
      && r == Pass && name in db.values && db.values[name] == v
      && forall n :: n in db.data && n != name ==>
           n in db.values && Decode(old(db.plc.blocks)[db.dbNumber][..db.TotalSize()], db.data[n]) == Ok(db.values[n])
  {
    ghost var before := db.plc.blocks;
    w := db.Write(name, v);
    ghost var middle := db.plc.blocks;
    r := db.Refresh();
    if w.Pass? {
      var size := db.TotalSize();
      var buf := before[db.dbNumber][..size];
      var out := Encode(buf, db.data[name], v).value;
      EncodeFrame(buf, db.data[name], v);
      EncodeThenDecode(buf, db.data[name], v);
      assert middle[db.dbNumber][..size] == out;
      KeyOrderIsKeys(Fold(db.decls).placed);
      if FitsThrough(db.order, db.data, name, size) {
        DecodeAllReaches(out, db.order, db.data, name);
      }
      if forall n :: n in db.data ==> End(db.data[n]) <= size {
        RefreshSeesWrite(db.decls, buf, name, v);
        DecodeAllFits(buf, db.order, db.data);
      }
    }
  }
}
