# PLC data block layout engine

A Dafny model of `PLCDataBlock` from `snag7.py`. This class maps a flat list of
`name : type;` declarations onto the byte image of a Siemens PLC data block.
It then gives typed access to each variable through a byte buffer fetched from
the controller.

The model covers four parts:

- **Type table** (`types.dfy`). The three recognised type tokens `Bool`, `Real`
  and `Int` have sizes 1, 4 and 2. A variable's slot is either a Bool
  `(byte, bit)` or a Real/Int byte offset.
- **Layout fold** (`layout.dfy`, and `DataBlock.ParseDbFile` in
  `accessor.dfy`). It is one pass with a byte cursor, a bit cursor and the
  `bool_bytes` padding counter.
  - A Bool takes the current `(byte, bit)`. The bit cursor wraps at 8.
  - A Real or Int first closes an open Bool byte, then pads to an even byte and
    counts that pad in `bool_bytes`, then is placed.
  - Any other token is dropped and leaves the state unchanged.

  `Layout.Fold` is the specification. The imperative loop
  `DataBlock.ParseDbFile` is proved to compute it. The dictionary `self.data`
  is a `map` plus its key order: a re-declared name gets the new slot and keeps
  its first position.
- **Size calculator** (`size.dfy`, and `DataBlock.CalculateSize`). It is the
  formula as written: the Real/Int widths, plus `ceil(#Bool / 8)`, plus
  `bool_bytes`. The lemmas relate it to the largest end byte of the slots.
  When every name is declared once, the formula falls short of that byte by
  exactly the number of bytes the Bools opened beyond `ceil(#Bool / 8)`. So
  the two are equal exactly when those counts agree, which is always the case
  for a single Bool run. Two separated Bool runs can make the formula
  undercount, and so can a name declared twice.
- **Accessor** (`codec.dfy`, `accessor.dfy`). This is the decode pass of
  `refresh` and the read-modify-write `write`. They run over an abstract
  controller (`Plc`) that stores data block images as byte sequences.
  - `get_bool`/`set_bool` use the mask `1 << bit`.
  - `get_int`/`set_int` use two big-endian two's-complement bytes.
  - A Real is four uninterpreted bytes.

An offset-consistent size would be the largest end byte of any slot, with no
even-byte padding. `snag7.py` instead pads every Real/Int to an even byte and
uses the count-based formula, and the model follows `snag7.py`.
For the declarations `b:Bool; i:Int; c:Bool; j:Int;` the formula gives
2 + 2 + 1 + 2 = 7 bytes, while `j` occupies bytes 6 and 7, so it ends at byte 8
(`BlockSize.TwoBoolRunsUndercount`).

## Model

| member | source | states |
|---|---|---|
| `Codec.DecodeInt` | snag7.py:15 | an Int decoded from two bytes is in the signed 16-bit range |
| `Codec.DecodeEncodeInt` | snag7.py:15 | decoding the two big-endian bytes of an in-range Int gives the Int back |
| `Codec.EncodeDecodeInt` | snag7.py:15 | encoding a decoded Int gives back the same two bytes, so every byte pair is some Int |
| `Codec.SetBitEffect` | snag7.py:86-88 | setting bit `k` of a byte gives that bit the new value and leaves the other seven bits alone |
| `Codec.SetBitSame` | snag7.py:86-88 | setting a bit to the value it already has leaves the byte unchanged |
| `Codec.SetBitMask` | snag7.py:86-88 | as an integer, setting a clear bit `k` adds the mask `1 << k`, clearing a set bit subtracts it, and any other update leaves the byte as it was |
| `Codec.FromBitsOf` | snag7.py:86-88 | a number below `2^n` is rebuilt exactly from its `n` low bits |
| `Codec.BitsOfFrom` | snag7.py:86-88 | the `n` bits of the number a bit list denotes are that bit list |
| `Codec.EncodeSucceeds` | snag7.py:86-90 | encoding succeeds exactly when the value fits the slot's type and the slot fits the buffer; a value of the wrong kind is a type mismatch |
| `Codec.EncodeThenDecode` | snag7.py:86-90 | decoding the slot just encoded gives back the value written |
| `Codec.DecodeThenEncode` | snag7.py:86-90 | writing back the value just decoded leaves the buffer as it was |
| `Codec.EncodeFrame` | snag7.py:86-90 | encoding keeps the buffer length and changes only the slot: a Real/Int changes only its byte range, a Bool only its own bit |
| `Codec.EncodeIndependent` | snag7.py:86-90 | encoding one slot leaves the decoded value of every disjoint slot unchanged |
| `Codec.EncodeInto` | snag7.py:86-90 | the in-place `set_*` on the fetched array leaves it equal to `Encode` of its old contents, or unchanged with the error |
| `Layout.StepBool` | snag7.py:32-41 | a Bool is placed at the current (byte, bit); the linear bit position advances by exactly one; `bool_bytes` is unchanged |
| `Layout.StepNumber` | snag7.py:42-55 | a Real/Int is placed at the least even byte at or after the closed Bool byte; `bool_bytes` grows by the pad (0 or 1); the cursor moves to the offset plus the width, at bit 0 |
| `Layout.StepUnknown` | snag7.py:31-42 | a declaration of any other type adds no entry and leaves both cursors and `bool_bytes` unchanged |
| `Layout.FoldWellFormed` | snag7.py:29-55 | every assigned slot lies behind the cursor; every Real/Int is at an even byte; slots pairwise do not overlap; byte offsets are non-decreasing in declaration order |
| `Layout.ScalarAfterBools` | snag7.py:43-47 | a Real/Int gets a byte offset strictly greater than the byte of every Bool declared before it |
| `Layout.AllBoolsPacked` | snag7.py:32-41 | with only Bools, the k-th gets byte k/8 and bit k%8, and the cursor ends at (n/8, n%8) with no padding |
| `Layout.NumbersOnlyCursor` | snag7.py:42-55 | with only Reals/Ints, no pad byte is ever counted: the cursor ends at the summed widths, which stay even, at bit 0, and every declaration gets a slot |
| `Layout.NumbersOnlyNoGaps` | snag7.py:42-55 | with only Reals/Ints, the k-th starts exactly at the summed widths of those declared before it |
| `Layout.KeyOrder` | snag7.py:34 | the dictionary's iteration order holds exactly its keys |
| `Layout.KeyOrderIsKeys` | snag7.py:52 | the iteration order lists each recorded name exactly once |
| `Layout.SlotMapIsLast` | snag7.py:52 | each recorded slot is the one given by the last declaration of its name: the returned index holds that name and slot, and no later entry has the name |
| `Layout.DistinctKeyOrder` | snag7.py:31-52 | when no name repeats, the iteration order is the names in declaration order |
| `Layout.DistinctSlotAt` | snag7.py:52 | when no name repeats, every declaration's slot is the one recorded under its name |
| `Layout.DistinctRecordsAll` | snag7.py:31-52 | when no name repeats, the dictionary holds every assigned slot, in declaration order |
| `Layout.PlacedDisjoint` | snag7.py:29-55 | in a well-formed state, the slots of two different entries do not overlap |
| `Layout.RecordedDisjoint` | snag7.py:29-55 | in the dictionary the fold builds, the slots of any two different names never overlap |
| `BlockSize.MaxEnd` | snag7.py:95-113 | the offset-consistent size is at least every slot's end byte and equal to one of them |
| `BlockSize.AccountedBool` | snag7.py:32-41 | a Bool placed at the cursor keeps the bookkeeping: the frontier stays the Real/Int widths plus `bool_bytes` plus the opened bytes, stays the largest end byte, and the opened bytes still hold at most eight Bools each |
| `BlockSize.AccountedNumber` | snag7.py:42-55 | a Real/Int placed at the closed, even-padded offset keeps the same bookkeeping, with the pad counted in `bool_bytes` |
| `BlockSize.Accounting` | snag7.py:45-51 | the cursor's frontier equals the Real/Int widths plus `bool_bytes` plus the number of bytes opened by a Bool; this frontier is the largest end byte; each opened byte holds at most eight Bools |
| `BlockSize.RunBool` | snag7.py:32-41 | a Bool that continues the single run keeps the opened bytes at ceil(#Bool/8) and the bit cursor at #Bool mod 8 |
| `BlockSize.RunNumber` | snag7.py:42-55 | a Real/Int keeps the Bool count and opened bytes and leaves the bit cursor at 0 |
| `BlockSize.SingleRunOpened` | snag7.py:37-41 | when the Bools form one run, they open exactly ceil(#Bool/8) bytes |
| `BlockSize.SizeNeverOvercounts` | snag7.py:95-113 | with every name declared once, the size formula never exceeds the largest end byte |
| `BlockSize.SizeExactIff` | snag7.py:95-113 | with every name declared once, the formula plus the bytes the Bools opened beyond ceil(#Bool/8) is the largest end byte, so the two are equal if and only if ceil(#Bool/8) is the number of opened bytes |
| `BlockSize.RecordedWithinMaxEnd` | snag7.py:100-106 | every slot in the dictionary ends at or before the largest end byte of its values |
| `BlockSize.SizeCoversEverySlot` | snag7.py:95-113 | with every name declared once and all Bools in one run, the size formula equals the largest end byte, so every recorded slot fits |
| `BlockSize.ExampleBoolsThenScalars` | snag7.py:29-113 | `a:Bool; b:Bool; c:Real; d:Int;` gives a=(0,0), b=(0,1), c at 2, d at 6, and size 8 |
| `BlockSize.ExampleRealThenBools` | snag7.py:29-113 | `x:Real; y:Bool; z:Bool; w:Bool;` gives x at 0, y/z/w=(4,0..2), and size 5 |
| `BlockSize.TwoBoolRunsUndercount` | snag7.py:97-111 | `b:Bool; i:Int; c:Bool; j:Int;` places j at 6, ending at 8, while the formula gives 7 |
| `BlockSize.RedeclaredNameUndercounts` | snag7.py:52 | `a:Int; a:Int;` records only a at byte 2, ending at 4, while the formula gives 2 |
| `Accessor.Plc.ReadArea` | snag7.py:84 | a read inside the block returns a fresh copy of exactly that byte range; a read outside it fails |
| `Accessor.Plc.WriteArea` | snag7.py:93 | a write inside the block replaces exactly that byte range; a write outside it fails and changes nothing |
| `Accessor.DecodeAllFits` | snag7.py:64-71 | if every slot fits the buffer, the decode pass fails nowhere and gives each name the value its slot decodes to |
| `Accessor.DecodeAllStops` | snag7.py:64-71 | once a slot fails to decode, the pass stops there and the later names are not decoded |
| `Accessor.DecodeAllKeeps` | snag7.py:64-71 | a value already decoded for a name that is not listed again stays in the result to the end of the pass, even if a later name fails |
| `Accessor.DecodeAllReaches` | snag7.py:64-71 | when a name's slot and the slots before it in iteration order fit the buffer, the pass records that name's decoded value, whatever happens to later names |
| `Accessor.DecodeAfterEncode` | snag7.py:73-93 | after encoding into one slot, decoding every name gives the written value for it and the old value for every disjoint slot |
| `Accessor.RefreshSeesWriteIn` | snag7.py:64-93 | over any dictionary whose slots do not overlap and fit the buffer, decoding after a successful encode gives the written value for that name and the old value for every other name |
| `Accessor.RefreshSeesWrite` | snag7.py:64-93 | over a fold's layout, the decode pass after a successful encode returns the written value for that name and the old value for every other name |
| `Accessor.DataBlock.constructor` | snag7.py:7-18 | the layout is the fold of the declarations, and no values are cached yet |
| `Accessor.DataBlock.Assign` | snag7.py:34 | the dictionary assignment maps the name to the new slot; a new name goes to the end of the iteration order and a known name keeps its place |
| `Accessor.DataBlock.ParseDbFile` | snag7.py:29-55 | the imperative loop leaves the dictionary, its key order and `bool_bytes` equal to those the fold computes |
| `Accessor.DataBlock.CalculateSize` | snag7.py:95-113 | the loop over the dictionary's values returns the size formula over the recorded slots |
| `Accessor.DataBlock.DecodeValues` | snag7.py:64-71 | the decode loop overwrites the cached value of every name decoded before the first failure, in iteration order, and keeps the other cached values |
| `Accessor.DataBlock.Refresh` | snag7.py:57-71 | a refresh reads the computed size once and decodes from that image; a failed read leaves the cached values unchanged |
| `Accessor.DataBlock.Write` | snag7.py:73-93 | an unknown name fails before any controller access; otherwise the block becomes the fetched image with only that slot encoded, or is unchanged on failure; the layout and cached values never change |
| `Accessor.WriteThenRefresh` | snag7.py:57-93 | after a successful write, a refresh caches the written value whenever the name's slot and those before it in iteration order fit the computed size, even if a later slot stops the pass; when every slot fits, the refresh also succeeds and every other name caches its previous controller value |

## Left out

- Reading the declaration file and the regular-expression scan (snag7.py:22-27). The model's input is the list of matched `(name, type)` pairs.
- The snap7 client. `read_area`/`write_area` are modelled by `Plc`, an in-memory store of data block images. Its failure is a plain `ReadFailed`/`WriteFailed`. Network errors, `connect` and `disconnect` are not modelled.
- IEEE-754 encoding of Real (`get_real`/`set_real`). A Real value is its four big-endian bytes, uninterpreted.
- `print` diagnostics and the `__main__` demo (snag7.py:117-147).
- The `refresh()` call at the end of the constructor (snag7.py:19). `DataBlock.constructor` only builds the layout. Call `Refresh` afterwards for the same effect.
- Codec.Encode: a slot past the end of the fetched buffer is reported as `OutOfBuffer`. `get_*` on a short `bytearray` raises. But slice assignment in `set_int`/`set_real` could lengthen the buffer instead, and the model does not reproduce that.
- Codec.Encode: Python's dynamic typing is not modelled. Values are typed (`BoolVal`, `IntVal`, `RealVal`). A value of the wrong kind is a `TypeMismatch`, and an Int outside 16 bits is an `IntOutOfRange`, where the library would raise its own exception or coerce.
- Concurrency. The race window between `write`'s read and its write-back is not modelled: every operation runs alone against the store.
