/** Shared vocabulary of the model: optional values, results that carry the
    exception a .NET call would raise, bytes, and the adapter's constants. */
module Base {

  /** A reference that may be null. */
  datatype Option<+T> = None | Some(value: T)

  /** The .NET exception kinds the modelled code raises or lets escape. */
  datatype Fault =
    | ArgumentNull(param: string)
    | Argument(param: string)
    | ArgumentOutOfRange(param: string)
    | KeyNotFound(key: string)
    | IndexOutOfRange
    | InvalidOperation
    | Format
    | Overflow
    | DivideByZero
    | UriFormat
    | StackOverflow
    | Unknown(message: string)

  /** The outcome of a call that either returns a value or throws. */
  datatype Result<+T> = Ok(value: T) | Err(fault: Fault)

  /** The first components of a sequence of pairs: the keys of a table's
      entries, in enumeration order. */
  function Firsts<A, B>(pairs: seq<(A, B)>): (firsts: seq<A>)
    ensures |firsts| == |pairs| && forall i :: 0 <= i < |pairs| ==> firsts[i] == pairs[i].0
  {
    seq(|pairs|, i requires 0 <= i < |pairs| => pairs[i].0)
  }

  /** One more pair adds its first component at the end. */
  lemma FirstsSnoc<A, B>(pairs: seq<(A, B)>, pair: (A, B))
    ensures Firsts(pairs + [pair]) == Firsts(pairs) + [pair.0]
  {
    assert forall i :: 0 <= i < |pairs| ==> (pairs + [pair])[i] == pairs[i];
  }

  /** The first components of two sequences of pairs, one after the other. */
  lemma FirstsAppend<A, B>(pairs: seq<(A, B)>, more: seq<(A, B)>)
    ensures Firsts(pairs + more) == Firsts(pairs) + Firsts(more)
  {
  }

  type byte = b: int | 0 <= b < 256

  /** Counter value the entity store starts from and is reset to. */
  const FirstIndex: int := 1
  /** Number of bytes read for zero-terminated strings. */
  const MaxStringSize: nat := 200
  /** Value of `IndexOf` when nothing was found. */
  const NotFound: int := -1
  /** Display text for a discriminant that names no variant. */
  const UnknownValue: string := "<Unknown>"

  const UInt32Modulus: nat := 0x1_0000_0000
  const Int32Min: int := -0x8000_0000
  const Int32Max: int := 0x7FFF_FFFF
}
