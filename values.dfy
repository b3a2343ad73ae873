/** The values a configuration store holds. Go keeps them as interface{};
    here they form a closed tagged union, one constructor per dynamic type
    the store and its getters distinguish. */
module Values {
  import opened Ints

  /** Go's signed integer types; Int is Go's int, taken as 64 bits. */
  datatype IntKind = Int | Int8 | Int16 | Int32 | Int64

  /** Go's unsigned integer types; Uint is Go's uint, taken as 64 bits. */
  datatype UintKind = Uint | Uint8 | Uint16 | Uint32 | Uint64

  function SignedWidth(k: IntKind): Width
  {
    match k
    case Int => W64
    case Int8 => W8
    case Int16 => W16
    case Int32 => W32
    case Int64 => W64
  }

  function UnsignedWidth(k: UintKind): Width
  {
    match k
    case Uint => W64
    case Uint8 => W8
    case Uint16 => W16
    case Uint32 => W32
    case Uint64 => W64
  }

  /** A stored value. Nil is Go's untyped nil, which a store can hold (a YAML
      null, SetDefault(k, nil)) and which Get returns for a missing key.
      Float is a finite float64; Dur a time.Duration in nanoseconds; List a
      []interface{}; StrList a []string; Map a map[string]interface{}. */
  datatype Value =
    | Nil
    | Str(s: string)
    | SInt(ikind: IntKind, i: int)
    | UInt(ukind: UintKind, n: nat)
    | Bool(b: bool)
    | Float(f: real)
    | Dur(d: int)
    | List(items: seq<Value>)
    | StrList(strs: seq<string>)
    | Map(m: map<string, Value>)

  /** An integer value lies in the range of its own Go type. */
  predicate Representable(v: Value)
  {
    match v
    case SInt(k, i) => InSigned(i, SignedWidth(k))
    case UInt(k, n) => InUnsigned(n, UnsignedWidth(k))
    case Dur(d) => InSigned(d, W64)
    case _ => true
  }
}
