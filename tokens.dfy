/**
 * The parsed token tree the converter reads (Newtonsoft's `JToken`), reduced to
 * what the conversion looks at: the token's type and its payload or children.
 */
module Tokens {

  /** A floating-point number; it is carried through unchanged and its arithmetic is not modelled. */
  datatype Float = Float(bits: bv64)

  datatype Token =
    | StringToken(text: string)
    | BooleanToken(flag: bool)
    | FloatToken(number: Float)
    /** An integer token holds a `long`, or a `BigInteger` beyond the 64-bit range, so it is unbounded here. */
    | IntegerToken(integer: int)
    | NullToken
    | ArrayToken(children: seq<Token>)
    | ObjectToken(properties: seq<Property>)
    /** Every other token type (comment, date, bytes, ...), known only by the name of its type. */
    | OtherToken(typeName: string)

  /** One `name: value` member of an object token, in document order. */
  datatype Property = Property(name: string, value: Token)

  /** No object anywhere in the tree repeats a property name. */
  predicate UniqueNames(t: Token)
    decreases t
  {
    match t
    case ArrayToken(cs) =>
      forall i :: 0 <= i < |cs| ==> UniqueNames(cs[i])
    case ObjectToken(ps) =>
      (forall i, j :: 0 <= i < j < |ps| ==> ps[i].name != ps[j].name) &&
      forall i :: 0 <= i < |ps| ==> UniqueNames(ps[i].value)
    case _ => true
  }

}
