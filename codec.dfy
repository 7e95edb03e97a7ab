/**
 * The buffer accessors the data block uses from snap7.util: `get_bool` /
 * `set_bool` (one bit, mask `1 << bit`), `get_int` / `set_int` (two bytes,
 * big-endian two's complement) and `get_real` / `set_real`, whose four bytes
 * are kept opaque here.
 */
module Codec {
  import opened Wrappers
  import opened Types

  /** The four big-endian bytes of an IEEE-754 single, uninterpreted. */
  datatype Real32 = Real32(b0: byte, b1: byte, b2: byte, b3: byte)

  /** A decoded variable value. */
  datatype Value = BoolVal(b: bool) | IntVal(i: int) | RealVal(r: Real32)

  const IntMin: int := -0x8000
  const IntMax: int := 0x7FFF

  /** The mask `1 << bit`, as a number. */
  function Mask(bit: nat): (m: nat)
    ensures m >= 1
  {
    if bit == 0 then 1 else 2 * Mask(bit - 1)
  }

  /** The lowest `n` binary digits of `x`, least significant first: digit `k` has weight `Mask(k)`. */
  function BitsOf(x: nat, n: nat): (s: seq<bool>)
    ensures |s| == n
  {
    if n == 0 then [] else [x % 2 == 1] + BitsOf(x / 2, n - 1)
  }

  /** The number whose binary digits, least significant first, are `s`. */
  function FromBits(s: seq<bool>): nat
  {
    if s == [] then 0 else (if s[0] then 1 else 0) + 2 * FromBits(s[1..])
  }

  lemma {:induction false} FromBitsBound(s: seq<bool>)
    ensures FromBits(s) < Mask(|s|)
  {
    if s != [] {
      FromBitsBound(s[1..]);
    }
  }

  lemma {:induction false} FromBitsOf(x: nat, n: nat)
    requires x < Mask(n)
    ensures FromBits(BitsOf(x, n)) == x
  {
    if n > 0 {
      FromBitsOf(x / 2, n - 1);
      assert BitsOf(x, n)[1..] == BitsOf(x / 2, n - 1);
    }
  }

  lemma {:induction false} BitsOfFrom(s: seq<bool>)
    ensures BitsOf(FromBits(s), |s|) == s
  {
    if s != [] {
      BitsOfFrom(s[1..]);
      assert s == [s[0]] + s[1..];
    }
  }

  /** Raising a clear digit adds its weight. */
  lemma {:induction false} FromBitsRaise(s: seq<bool>, k: nat)
    requires k < |s| && !s[k]
    ensures FromBits(s[k := true]) == FromBits(s) + Mask(k)
  {
    if k > 0 {
      assert s[k := true][1..] == s[1..][k - 1 := true];
      FromBitsRaise(s[1..], k - 1);
    }
  }

  /** The eight bits of a byte. */
  function Bits(b: byte): (s: seq<bool>)
    ensures |s| == 8
  {
    BitsOf(b as int, 8)
  }

  /** `get_bool`'s test `b & (1 << bit) != 0`. */
  function GetBit(b: byte, bit: BitIndex): bool
  {
    Bits(b)[bit]
  }

  /** `set_bool`: the byte with bit `bit` set to `v` (its integer effect is `SetBitMask`). */
  function SetBit(b: byte, bit: BitIndex, v: bool): byte
  {
    FromBitsBound(Bits(b)[bit := v]);
    FromBits(Bits(b)[bit := v]) as byte
  }

  /** Setting a bit gives it the new value and leaves the other seven bits alone. */
  lemma SetBitEffect(b: byte, bit: BitIndex, v: bool, other: BitIndex)
    ensures GetBit(SetBit(b, bit, v), other) == if other == bit then v else GetBit(b, other)
  {
    BitsOfFrom(Bits(b)[bit := v]);
  }

  /** Setting a bit to the value it already has changes nothing. */
  lemma SetBitSame(b: byte, bit: BitIndex)
    ensures SetBit(b, bit, GetBit(b, bit)) == b
  {
    assert Bits(b)[bit := Bits(b)[bit]] == Bits(b);
    FromBitsOf(b as int, 8);
  }

  /**
   * The mask arithmetic of `set_bool`: setting a clear bit adds `1 << bit`,
   * clearing a set bit subtracts it, and otherwise the byte is unchanged.
   */
  lemma SetBitMask(b: byte, bit: BitIndex, v: bool)
    ensures SetBit(b, bit, v) as int
      == if v == GetBit(b, bit) then b as int
         else if v then b as int + Mask(bit)
         else b as int - Mask(bit)
  {
    var s := Bits(b);
    FromBitsOf(b as int, 8);
    if v == GetBit(b, bit) {
      SetBitSame(b, bit);
    } else if v {
      FromBitsRaise(s, bit);
    } else {
      var t := s[bit := false];
      assert t[bit := true] == s;
      FromBitsRaise(t, bit);
    }
  }

  /** Two's complement, high byte first. */
  function EncodeInt(v: int): (r: (byte, byte))
    requires IntMin <= v <= IntMax
  {
    var u := if v < 0 then v + 0x10000 else v;
    ((u / 0x100) as byte, (u % 0x100) as byte)
  }

  function DecodeInt(hi: byte, lo: byte): (v: int)
    ensures IntMin <= v <= IntMax
  {
    var u := hi as int * 0x100 + lo as int;
    if u >= 0x8000 then u - 0x10000 else u
  }

  lemma DecodeEncodeInt(v: int)
    requires IntMin <= v <= IntMax
    ensures var (hi, lo) := EncodeInt(v); DecodeInt(hi, lo) == v
  {
  }

  lemma EncodeDecodeInt(hi: byte, lo: byte)
    ensures EncodeInt(DecodeInt(hi, lo)) == (hi, lo)
  {
  }

  /** `get_bool`, `get_int` and `get_real`, dispatched on the slot; a slot past the buffer fails. */
  function Decode(buf: seq<byte>, s: Slot): Result<Value, Error>
  {
    if |buf| < End(s) then Err(OutOfBuffer)
    else
      match s
      case BoolSlot(b, k) => Ok(BoolVal(GetBit(buf[b], k)))
      case NumSlot(Int, o) => Ok(IntVal(DecodeInt(buf[o], buf[o + 1])))
      case NumSlot(Real, o) => Ok(RealVal(Real32(buf[o], buf[o + 1], buf[o + 2], buf[o + 3])))
  }

  /** The value can be stored in the slot's type. */
  predicate Fits(s: Slot, v: Value)
  {
    match (s, v)
    case (BoolSlot(_, _), BoolVal(_)) => true
    case (NumSlot(Int, _), IntVal(x)) => IntMin <= x <= IntMax
    case (NumSlot(Real, _), RealVal(_)) => true
    case _ => false
  }

  /**
   * `set_bool`, `set_int` and `set_real`, dispatched on the slot: the value is
   * checked first, then the slot's position in the buffer.
   */
  function Encode(buf: seq<byte>, s: Slot, v: Value): Result<seq<byte>, Error>
  {
    match (s, v)
    case (BoolSlot(b, k), BoolVal(x)) =>
      if |buf| < End(s) then Err(OutOfBuffer) else Ok(buf[b := SetBit(buf[b], k, x)])
    case (NumSlot(Int, o), IntVal(x)) =>
      if !(IntMin <= x <= IntMax) then Err(IntOutOfRange)
      else if |buf| < End(s) then Err(OutOfBuffer)
      else
        var (hi, lo) := EncodeInt(x);
        Ok(buf[o := hi][o + 1 := lo])
    case (NumSlot(Real, o), RealVal(r)) =>
      if |buf| < End(s) then Err(OutOfBuffer)
      else Ok(buf[o := r.b0][o + 1 := r.b1][o + 2 := r.b2][o + 3 := r.b3])
    case _ => Err(TypeMismatch)
  }

  /** Encoding succeeds exactly when the value fits the slot's type and the slot fits the buffer. */
  lemma EncodeSucceeds(buf: seq<byte>, s: Slot, v: Value)
    ensures Encode(buf, s, v).Ok? <==> Fits(s, v) && End(s) <= |buf|
    ensures !Fits(s, v) && !(s.NumSlot? && s.kind == Int && v.IntVal?) ==> Encode(buf, s, v) == Err(TypeMismatch)
  {
  }

  /** Decoding the slot just encoded gives back the value. */
  lemma EncodeThenDecode(buf: seq<byte>, s: Slot, v: Value)
    requires Encode(buf, s, v).Ok?
    ensures Decode(Encode(buf, s, v).value, s) == Ok(v)
  {
    if s.BoolSlot? {
      SetBitEffect(buf[s.byteOffset], s.bitOffset, v.b, s.bitOffset);
    } else if s.kind == Int {
      DecodeEncodeInt(v.i);
    }
  }

  /** Writing back the value just read leaves the buffer as it was. */
  lemma DecodeThenEncode(buf: seq<byte>, s: Slot)
    requires Decode(buf, s).Ok?
    ensures Encode(buf, s, Decode(buf, s).value) == Ok(buf)
  {
    match s
    case BoolSlot(b, k) =>
      SetBitSame(buf[b], k);
      assert buf[b := buf[b]] == buf;
    case NumSlot(Int, o) =>
      EncodeDecodeInt(buf[o], buf[o + 1]);
      assert buf[o := buf[o]][o + 1 := buf[o + 1]] == buf;
    case NumSlot(Real, o) =>
      assert buf[o := buf[o]][o + 1 := buf[o + 1]][o + 2 := buf[o + 2]][o + 3 := buf[o + 3]] == buf;
  }

  /**
   * Encoding changes only the slot: the buffer keeps its length, bytes outside
   * a Real/Int's range are untouched, and for a Bool only its own bit of its
   * own byte changes.
   */
  lemma EncodeFrame(buf: seq<byte>, s: Slot, v: Value)
    requires Encode(buf, s, v).Ok?
    ensures var out := Encode(buf, s, v).value;
      && |out| == |buf|
      && (forall i :: 0 <= i < |buf| && i != s.byteOffset && !(s.NumSlot? && Covers(s.kind, s.byteOffset, i)) ==> out[i] == buf[i])
      && (s.BoolSlot? ==> forall k: BitIndex :: k != s.bitOffset ==> GetBit(out[s.byteOffset], k) == GetBit(buf[s.byteOffset], k))
  {
    if s.BoolSlot? {
      forall k: BitIndex | k != s.bitOffset
        ensures GetBit(Encode(buf, s, v).value[s.byteOffset], k) == GetBit(buf[s.byteOffset], k)
      {
        SetBitEffect(buf[s.byteOffset], s.bitOffset, v.b, k);
      }
    }
  }

  /** Encoding one slot does not change what a disjoint slot decodes to. */
  lemma EncodeIndependent(buf: seq<byte>, s: Slot, t: Slot, v: Value)
    requires Encode(buf, s, v).Ok? && Disjoint(s, t)
    ensures Decode(Encode(buf, s, v).value, t) == Decode(buf, t)
  {
    EncodeFrame(buf, s, v);
    if s.BoolSlot? && t.BoolSlot? && s.byteOffset == t.byteOffset {
      SetBitEffect(buf[s.byteOffset], s.bitOffset, v.b, t.bitOffset);
    }
  }

  /**
   * The in-place form of `Encode` on the fetched buffer, as `set_bool`,
   * `set_int` and `set_real` mutate the bytearray they are given.
   */
  method EncodeInto(buf: array<byte>, s: Slot, v: Value) returns (r: Outcome<Error>)
    modifies buf
    ensures match Encode(old(buf[..]), s, v)
      case Ok(out) => r == Pass && buf[..] == out
      case Err(e) => r == Fail(e) && buf[..] == old(buf[..])
  {
    match (s, v)
    case (BoolSlot(b, k), BoolVal(x)) =>
      if buf.Length < End(s) {
        return Fail(OutOfBuffer);
      }
      buf[b] := SetBit(buf[b], k, x);
      r := Pass;
    case (NumSlot(Int, o), IntVal(x)) =>
      if !(IntMin <= x <= IntMax) {
        return Fail(IntOutOfRange);
      }
      if buf.Length < End(s) {
        return Fail(OutOfBuffer);
      }
      var (hi, lo) := EncodeInt(x);
      buf[o] := hi;
      buf[o + 1] := lo;
      r := Pass;
    case (NumSlot(Real, o), RealVal(x)) =>
      if buf.Length < End(s) {
        return Fail(OutOfBuffer);
      }
      buf[o] := x.b0;
      buf[o + 1] := x.b1;
      buf[o + 2] := x.b2;
      buf[o + 3] := x.b3;
      r := Pass;
    case _ =>
      r := Fail(TypeMismatch);
  }
}
