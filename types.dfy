/**
 * The closed type table of a PLC data block (`data_types` in snag7.py) and
 * the slot a variable occupies in the data block image.
 */
module Types {
  import opened Wrappers

  /** One byte of the data block image. */
  newtype byte = x: int | 0 <= x < 0x100

  /** A bit position inside a byte. */
  type BitIndex = k: nat | k < 8

  /** The scalar types that take whole bytes. */
  datatype Numeric = Real | Int

  /** The three recognised type tokens. */
  datatype VarType = Bool | Number(kind: Numeric)

  /** Looks a declared type token up in the type table; any other token is unknown. */
  function TypeOf(token: string): Option<VarType>
  {
    if token == "Bool" then Some(Bool)
    else if token == "Real" then Some(Number(Real))
    else if token == "Int" then Some(Number(Int))
    else None
  }

  /** The three tokens the type table knows. */
  lemma KnownTokens()
    ensures TypeOf("Bool") == Some(Bool) && TypeOf("Real") == Some(Number(Real)) && TypeOf("Int") == Some(Number(Int))
  {
  }

  /** The `size` column of the type table. */
  function Size(t: VarType): nat
  {
    match t
    case Bool => 1
    case Number(Real) => 4
    case Number(Int) => 2
  }

  function Width(n: Numeric): nat
  {
    Size(Number(n))
  }

  /** Where a variable lives: a bit of a byte for a Bool, a byte offset for a Real or an Int. */
  datatype Slot =
    | BoolSlot(byteOffset: nat, bitOffset: BitIndex)
    | NumSlot(kind: Numeric, byteOffset: nat)

  /** One past the last byte the slot touches. */
  function End(s: Slot): nat
  {
    match s
    case BoolSlot(b, _) => b + 1
    case NumSlot(n, o) => o + Width(n)
  }

  /** A byte in `[o, o + Width(n))` belongs to a Real/Int slot. */
  predicate Covers(n: Numeric, o: nat, b: nat)
  {
    o <= b < o + Width(n)
  }

  /**
   * Two slots do not overlap: Real/Int byte ranges are disjoint from each other
   * and from every Bool byte, and Bools sharing a byte have distinct bits.
   */
  predicate Disjoint(s: Slot, t: Slot)
  {
    match (s, t)
    case (BoolSlot(b1, k1), BoolSlot(b2, k2)) => b1 != b2 || k1 != k2
    case (BoolSlot(b, _), NumSlot(n, o)) => !Covers(n, o, b)
    case (NumSlot(n, o), BoolSlot(b, _)) => !Covers(n, o, b)
    case (NumSlot(n1, o1), NumSlot(n2, o2)) => o1 + Width(n1) <= o2 || o2 + Width(n2) <= o1
  }

  /** The failures the data block reports. */
  datatype Error =
    | UnknownVariable(name: string)  // `write` of a name not in the layout
    | ReadFailed                     // the controller refused the read
    | WriteFailed                    // the controller refused the write
    | OutOfBuffer                    // a slot lies past the end of the fetched buffer
    | TypeMismatch                   // a value of the wrong kind for the slot
    | IntOutOfRange                  // an Int value that 16 bits cannot hold
}
