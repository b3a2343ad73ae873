/** The typed getters of mapManager, each applied to the value Get returned,
    and the error-returning casts mflag uses when a flag is defined. The
    getters never fail: a nil, a value of the wrong type or a string that
    does not parse gives the zero value of the target type. */
module Coerce {
  import opened Ints
  import opened Values
  import opened Strconv
  import opened Text

  /** fmt's %v for the values whose formatting is modelled (strings,
      integers, booleans, nil); the others (floats, durations, lists, maps)
      are formatted by `other`, which stands for the rest of fmt. */
  function FormatValue(v: Value, other: Value -> string): (r: string)
    ensures v.Nil? ==> r == "<nil>"
    ensures v.Str? ==> r == v.s
    ensures v.SInt? ==> r == FormatInt(v.i)
    ensures v.UInt? ==> r == FormatNat(v.n)
    ensures v.Bool? ==> r == FormatBool(v.b)
  {
    match v
    case Nil => "<nil>"
    case Str(s) => s
    case SInt(_, i) => FormatInt(i)
    case UInt(_, n) => FormatNat(n)
    case Bool(b) => FormatBool(b)
    case _ => other(v)
  }

  /** GetString: "" for nil, otherwise %v of the value. */
  function ToString(v: Value, other: Value -> string): (r: string)
    ensures v.Nil? ==> r == ""
    ensures v.Str? ==> r == v.s
    ensures !v.Nil? ==> r == FormatValue(v, other)
  {
    if v.Nil? then "" else FormatValue(v, other)
  }

  /** GetInt, GetInt8, GetInt16, GetInt32 and GetInt64, for the target type
      of kind k: integers convert with Go's wrapping conversion, a float is
      truncated toward zero, a string is parsed with the target's bit size,
      and everything else (nil, a failed parse, another type) gives 0. */
  function ToSigned(v: Value, k: IntKind): (r: int)
    ensures InSigned(r, SignedWidth(k))
    ensures v.SInt? ==> WrapUnsigned(r, SignedWidth(k)) == WrapUnsigned(v.i, SignedWidth(k))
    ensures v.UInt? ==> WrapUnsigned(r, SignedWidth(k)) == WrapUnsigned(v.n, SignedWidth(k))
    ensures v.Str? && ParseInt(v.s, SignedWidth(k)).Some? ==> r == ParseInt(v.s, SignedWidth(k)).value
    ensures v.Str? && ParseInt(v.s, SignedWidth(k)).None? ==> r == 0
    ensures !(v.SInt? || v.UInt? || v.Float? || v.Str?) ==> r == 0
  {
    var w := SignedWidth(k);
    match v
    case SInt(_, i) => WrapSigned(i, w)
    case UInt(_, n) => WrapSigned(n, w)
    case Float(f) => WrapSigned(Trunc(f), w)
    case Str(s) => (match ParseInt(s, w) case Some(i) => i case None => 0)
    case _ => 0
  }

  /** GetUint, GetUint8, GetUint16, GetUint32 and GetUint64: as ToSigned,
      except that a negative integer or float gives 0 and a string must be
      unsigned decimal digits. */
  function ToUnsigned(v: Value, k: UintKind): (r: nat)
    ensures InUnsigned(r, UnsignedWidth(k))
    ensures v.UInt? ==> r == WrapUnsigned(v.n, UnsignedWidth(k))
    ensures v.SInt? && v.i >= 0 ==> r == WrapUnsigned(v.i, UnsignedWidth(k))
    ensures v.SInt? && v.i < 0 ==> r == 0
    ensures v.Float? && v.f < 0.0 ==> r == 0
    ensures v.Str? && ParseUint(v.s, UnsignedWidth(k)).Some? ==> r == ParseUint(v.s, UnsignedWidth(k)).value
    ensures v.Str? && ParseUint(v.s, UnsignedWidth(k)).None? ==> r == 0
    ensures !(v.SInt? || v.UInt? || v.Float? || v.Str?) ==> r == 0
  {
    var w := UnsignedWidth(k);
    match v
    case UInt(_, n) => WrapUnsigned(n, w)
    case SInt(_, i) => if i < 0 then 0 else WrapUnsigned(i, w)
    case Float(f) => if f < 0.0 then 0 else WrapUnsigned(Trunc(f), w)
    case Str(s) => (match ParseUint(s, w) case Some(n) => n case None => 0)
    case _ => 0
  }

  /** GetBool: a stored bool, or a string ParseBool accepts; otherwise false. */
  function ToBool(v: Value): (r: bool)
    ensures r <==> v == Bool(true) || (v.Str? && v.s in {"1", "t", "T", "TRUE", "true", "True"})
  {
    match v
    case Bool(b) => b
    case Str(s) => (match ParseBool(s) case Some(b) => b case None => false)
    case _ => false
  }

  /** GetDuration: a stored Duration; an int or int64 read as nanoseconds;
      a float truncated; a string parsed by `parseDuration` (time.ParseDuration,
      None on error); everything else, the narrower integer types included,
      gives 0. */
  function ToDuration(v: Value, parseDuration: string -> Option<int>): (r: int)
    ensures v.Dur? ==> r == v.d
    ensures v.SInt? && (v.ikind == Int || v.ikind == Int64) ==> r == v.i
    ensures v.SInt? && !(v.ikind == Int || v.ikind == Int64) ==> r == 0
    ensures v.Str? && parseDuration(v.s).Some? ==> r == parseDuration(v.s).value
    ensures v.Str? && parseDuration(v.s).None? ==> r == 0
    ensures !(v.Dur? || v.SInt? || v.Float? || v.Str?) ==> r == 0
  {
    match v
    case Dur(d) => d
    case Str(s) => (match parseDuration(s) case Some(d) => d case None => 0)
    case SInt(k, i) => if k == Int || k == Int64 then i else 0
    case Float(f) => WrapSigned(Trunc(f), W64)
    case _ => 0
  }

  /** The pieces of a comma-separated string, each trimmed of white space:
      one piece more than there are commas, none holding a comma or starting
      or ending with white space. */
  function CommaFields(s: string): (r: seq<string>)
    ensures |r| >= 1 && (|r| == 1 <==> ',' !in s)
    ensures forall i :: 0 <= i < |r| ==> ',' !in r[i]
    ensures forall i :: 0 <= i < |r| ==> r[i] == [] || (!IsSpace(r[i][0]) && !IsSpace(r[i][|r[i]| - 1]))
  {
    var parts := Split(s, ',');
    var r := seq(|parts|, i requires 0 <= i < |parts| => TrimSpace(parts[i]));
    assert forall i :: 0 <= i < |r| ==> ',' !in r[i] by {
      forall i | 0 <= i < |r| ensures ',' !in r[i] {
        TrimSpaceIsSlice(parts[i]);
      }
    }
    r
  }

  /** GetStringSlice: a []interface{} element-wise through %v, a []string as
      it is, a string with a comma split on commas and trimmed, a string
      without one as a single element, and anything else (nil included) as
      the empty list. */
  function ToStringSlice(v: Value, other: Value -> string): (r: seq<string>)
    ensures v.List? ==> (|r| == |v.items|
      && forall i :: 0 <= i < |r| ==> r[i] == FormatValue(v.items[i], other))
    ensures v.StrList? ==> r == v.strs
    ensures v.Str? && ',' !in v.s ==> r == [v.s]
    ensures v.Str? && ',' in v.s ==> (|r| >= 2
      && forall i :: 0 <= i < |r| ==> ',' !in r[i] && (r[i] == [] || !IsSpace(r[i][0])))
    ensures !(v.List? || v.StrList? || v.Str?) ==> r == []
  {
    match v
    case List(items) => seq(|items|, i requires 0 <= i < |items| => FormatValue(items[i], other))
    case StrList(ss) => ss
    case Str(s) =>
      if ',' in s then CommaFields(s) else [s]
    case _ => []
  }

  /** GetStringMapString: for a map, every entry through %v; anything else,
      nil included, gives the empty map. */
  function ToStringMap(v: Value, other: Value -> string): (r: map<string, string>)
    ensures v.Map? ==> (r.Keys == v.m.Keys
      && forall k :: k in r ==> r[k] == FormatValue(v.m[k], other))
    ensures !v.Map? ==> r == map[]
  {
    match v
    case Map(m) => map k | k in m :: FormatValue(m[k], other)
    case _ => map[]
  }

  /** Why a cast made when a flag is defined failed. */
  datatype CastError =
    | BadString(text: string)  // "cannot cast string %q to <type>"
    | BadType(value: Value)    // "cannot cast type %T to <type>"

  datatype Result<T> = Ok(value: T) | Err(error: CastError)

  /** castToInt: int, int64, float64 and strings that Atoi accepts. */
  function CastToInt(v: Value): (r: Result<int>)
    ensures r.Ok? <==> (v.SInt? && (v.ikind == Int || v.ikind == Int64)) || v.Float?
                       || (v.Str? && ParseInt(v.s, W64).Some?)
    ensures r.Err? && v.Str? ==> r.error == BadString(v.s)
    ensures r.Err? && !v.Str? ==> r.error == BadType(v)
  {
    match v
    case SInt(k, i) => if k == Int || k == Int64 then Ok(i) else Err(BadType(v))
    case Float(f) => Ok(WrapSigned(Trunc(f), W64))
    case Str(s) => (match ParseInt(s, W64) case Some(i) => Ok(i) case None => Err(BadString(s)))
    case _ => Err(BadType(v))
  }

  /** castToBool: bools and strings that ParseBool accepts. */
  function CastToBool(v: Value): (r: Result<bool>)
    ensures r.Ok? <==> v.Bool? || (v.Str? && ParseBool(v.s).Some?)
    ensures r.Err? && v.Str? ==> r.error == BadString(v.s)
    ensures r.Err? && !v.Str? ==> r.error == BadType(v)
  {
    match v
    case Bool(b) => Ok(b)
    case Str(s) => (match ParseBool(s) case Some(b) => Ok(b) case None => Err(BadString(s)))
    case _ => Err(BadType(v))
  }

  // ----- Properties of the getters -----

  /** An integer stored in the range of the target type reads back unchanged
      through every signed getter, whatever its own width. */
  lemma SignedKeepsRepresentable(v: Value, k: IntKind)
    requires v.SInt? && InSigned(v.i, SignedWidth(k))
    ensures ToSigned(v, k) == v.i
  {
    WrapSignedId(v.i, SignedWidth(k));
  }

  lemma UnsignedKeepsRepresentable(v: Value, k: UintKind)
    requires (v.UInt? && InUnsigned(v.n, UnsignedWidth(k))) || (v.SInt? && InUnsigned(v.i, UnsignedWidth(k)))
    ensures ToUnsigned(v, k) == if v.UInt? then v.n else v.i
  {
  }

  /** The decimal text of an in-range integer reads back as that integer. */
  lemma SignedOfDecimal(i: int, k: IntKind)
    requires InSigned(i, SignedWidth(k))
    ensures ToSigned(Str(FormatInt(i)), k) == i
  {
    ParseFormatInt(i, SignedWidth(k));
  }

  lemma UnsignedOfDecimal(n: nat, k: UintKind)
    requires InUnsigned(n, UnsignedWidth(k))
    ensures ToUnsigned(Str(FormatNat(n)), k) == n
  {
    ParseFormatUint(n, UnsignedWidth(k));
  }

  /** A string out of the target's range reads as 0, not as a clamped or
      wrapped value. */
  lemma SignedOfOutOfRange(i: int, k: IntKind)
    requires !InSigned(i, SignedWidth(k))
    ensures ToSigned(Str(FormatInt(i)), k) == 0
  {
    var s := FormatInt(i);
    if i < 0 {
      FormatNatValue(-i);
      assert Unsigned(s) == FormatNat(-i);
    } else {
      FormatNatValue(i);
      assert Unsigned(s) == FormatNat(i);
    }
    assert SignedValue(s) == i;
    assert ParseInt(s, SignedWidth(k)).None?;
  }

  /** A string that is not an optional sign followed by decimal digits reads
      as 0 through every signed getter ("12a", " 12", "", "-"). */
  lemma SignedOfMalformed(s: string, k: IntKind)
    requires |Unsigned(s)| == 0 || !AllDigits(Unsigned(s))
    ensures ToSigned(Str(s), k) == 0
  {
  }

  /** GetDuration agrees with GetInt64 on the values both read as a number
      of nanoseconds: an int or int64 in range, and a float. */
  lemma DurationAgreesWithInt64(v: Value, parseDuration: string -> Option<int>)
    requires Representable(v)
    requires (v.SInt? && (v.ikind == Int || v.ikind == Int64)) || v.Float?
    ensures ToDuration(v, parseDuration) == ToSigned(v, Int64)
  {
    if v.SInt? {
      WrapSignedId(v.i, W64);
    }
  }

  /** GetString then GetInt gives back a stored integer that fits. */
  lemma StringThenSigned(v: Value, k: IntKind, other: Value -> string)
    requires v.SInt? && InSigned(v.i, SignedWidth(k))
    ensures ToSigned(Str(ToString(v, other)), k) == ToSigned(v, k)
  {
    SignedOfDecimal(v.i, k);
    SignedKeepsRepresentable(v, k);
  }

  /** GetString then GetUint gives back a stored unsigned integer that fits. */
  lemma StringThenUnsigned(v: Value, k: UintKind, other: Value -> string)
    requires v.UInt? && InUnsigned(v.n, UnsignedWidth(k))
    ensures ToUnsigned(Str(ToString(v, other)), k) == ToUnsigned(v, k)
  {
    UnsignedOfDecimal(v.n, k);
    UnsignedKeepsRepresentable(v, k);
  }

  /** GetString then GetBool gives back a stored bool. */
  lemma StringThenBool(b: bool, other: Value -> string)
    ensures ToBool(Str(ToString(Bool(b), other))) == b
  {
  }

  /** When castToInt succeeds on a representable value it agrees with GetInt. */
  lemma CastToIntAgrees(v: Value)
    requires Representable(v) && CastToInt(v).Ok?
    ensures CastToInt(v).value == ToSigned(v, Int)
  {
    if v.SInt? {
      WrapSignedId(v.i, W64);
    }
  }

  /** When castToBool succeeds it agrees with GetBool. */
  lemma CastToBoolAgrees(v: Value)
    requires CastToBool(v).Ok?
    ensures CastToBool(v).value == ToBool(v)
  {
  }

  /** A comma-joined list of comma-free pieces reads back as the pieces,
      each trimmed of white space (so "three, four" gives "three" and
      "four"). */
  lemma CommaListRoundTrip(parts: seq<string>, other: Value -> string)
    requires |parts| >= 2
    requires forall i :: 0 <= i < |parts| ==> ',' !in parts[i]
    ensures ToStringSlice(Str(Join(parts, ',')), other)
      == seq(|parts|, i requires 0 <= i < |parts| => TrimSpace(parts[i]))
  {
    var s := Join(parts, ',');
    SplitJoin(parts, ',');
    assert ',' in s;
    assert ToStringSlice(Str(s), other) == CommaFields(s);
  }
}
