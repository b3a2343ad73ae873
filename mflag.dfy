/** The package level of mflag: the three stores (code defaults, the loaded
    configuration file, and the final merged view), the parsed flag, the
    guard on the getters, the defaults handed to flag definitions, and
    Parse, which layers defaults, file and flags in that order of
    precedence. */
module MFlag {
  import opened Values
  import opened Text
  import opened Strconv
  import opened Tree
  import opened Coerce
  import opened Manager

  /** Why the package panics: a getter called before Parse, or a value from
      the file or the defaults that a typed flag definition cannot cast. */
  datatype Fault = NotParsed | InvalidDefault(key: string, error: CastError)

  /** A call that either returns normally or panics. */
  datatype Outcome<T> = Done(value: T) | Panic(fault: Fault)

  /** A flag as flag.VisitAll reports it: its name and the typed value its
      getter returns after flag.Parse. */
  datatype Flag = Flag(name: string, value: Value)

  /** The final configuration after Parse: the flags written in the order
      VisitAll reports them, each with SetValue semantics. */
  function Overlay(m: Data, flags: seq<Flag>): Data
    decreases |flags|
  {
    if |flags| == 0 then m
    else Overlay(SetPath(m, Path(flags[0].name), flags[0].value), flags[1..])
  }

  /** A path no flag writes to or through keeps the value it had. */
  lemma {:induction false} OverlayFrame(m: Data, flags: seq<Flag>, p: seq<string>)
    requires forall j :: 0 <= j < |flags| ==> Diverge(p, Path(flags[j].name))
    ensures Lookup(Overlay(m, flags), p) == Lookup(m, p)
    decreases |flags|
  {
    if |flags| > 0 {
      var first := SetPath(m, Path(flags[0].name), flags[0].value);
      OverlayFrame(first, flags[1..], p);
      SetFrame(m, Path(flags[0].name), flags[0].value, p);
    }
  }

  /** Flags win: a flag whose key no later flag writes to or through reads
      back the flag's value. */
  lemma {:induction false} OverlayFlagWins(m: Data, flags: seq<Flag>, i: nat)
    requires i < |flags|
    requires forall j :: i < j < |flags| ==> Diverge(Path(flags[i].name), Path(flags[j].name))
    ensures Lookup(Overlay(m, flags), Path(flags[i].name)) == flags[i].value
    decreases |flags|
  {
    var first := SetPath(m, Path(flags[0].name), flags[0].value);
    if i == 0 {
      forall j | 0 <= j < |flags[1..]| ensures Diverge(Path(flags[0].name), Path(flags[1..][j].name)) {
        assert flags[1..][j] == flags[j + 1];
      }
      OverlayFrame(first, flags[1..], Path(flags[0].name));
      SetThenGet(m, Path(flags[0].name), flags[0].value);
    } else {
      forall j | i - 1 < j < |flags[1..]| ensures Diverge(Path(flags[1..][i - 1].name), Path(flags[1..][j].name)) {
        assert flags[1..][j] == flags[j + 1];
      }
      OverlayFlagWins(first, flags[1..], i - 1);
    }
  }

  /** Precedence for a key no flag touches: the file's value where the file
      reaches the key (maps from both sources merged), the default
      otherwise. */
  lemma Precedence(defaults: Data, config: Data, flags: seq<Flag>, p: seq<string>)
    requires |p| >= 1
    requires forall j :: 0 <= j < |flags| ==> Diverge(p, Path(flags[j].name))
    ensures Lookup(Overlay(Merged(defaults, config), flags), p) ==
      if Absent(config, p) then Lookup(defaults, p)
      else if Lookup(config, p).Map? && Lookup(defaults, p).Map? then Map(Merged(Lookup(defaults, p).m, Lookup(config, p).m))
      else Lookup(config, p)
  {
    OverlayFrame(Merged(defaults, config), flags, p);
    LookupMerged(defaults, config, p);
  }

  /** The package's global state. */
  class Context {
    var defaults: Store
    var config: Store
    var finalConfig: Store
    var parsed: bool

    /** The three stores are distinct objects. */
    predicate Valid()
      reads this
    {
      defaults != config && defaults != finalConfig && config != finalConfig
    }

    /** The state at program start: three empty stores, not parsed. */
    constructor ()
      ensures Valid() && !Parsed()
      ensures defaults.data == map[] && config.data == map[] && finalConfig.data == map[]
    {
      defaults := new Store();
      config := new Store();
      finalConfig := new Store();
      parsed := false;
    }

    /** SetDefault: a default under a dotted key; nothing else changes. */
    method SetDefault(key: string, value: Value)
      requires Valid()
      modifies defaults
      ensures defaults.data == SetPath(old(defaults.data), Path(key), value)
      ensures config.data == old(config.data) && finalConfig.data == old(finalConfig.data)
    {
      defaults.SetValue(key, value);
    }

    /** Init: loads the configuration file into the config store. */
    method Init(file: FileContent) returns (err: Option<LoadError>)
      requires Valid()
      modifies config
      ensures file.Parsed? ==> err == None && config.data == file.tree
      ensures file.Missing? ==> err == None && config.data == old(config.data)
      ensures file.Unreadable? ==> err == Some(ReadFailed(file.reason)) && config.data == old(config.data)
      ensures file.Malformed? ==> err == Some(ParseFailed(file.reason)) && config.data == old(config.data)
      ensures defaults.data == old(defaults.data)
    {
      err := config.LoadFile(file);
    }

    /** mustBeParsed: the fault a getter raises before Parse. */
    method MustBeParsed() returns (fault: Option<Fault>)
      ensures fault.Some? <==> !Parsed()
      ensures fault.Some? ==> fault.value == NotParsed
    {
      if !parsed {
        return Some(NotParsed);
      }
      return None;
    }

    method GetString(key: string, other: Value -> string) returns (r: Outcome<string>)
      ensures !Parsed() ==> r == Panic(NotParsed)
      ensures Parsed() ==> r == Done(ToString(Lookup(finalConfig.data, Path(key)), other))
    {
      var fault := MustBeParsed();
      if fault.Some? {
        return Panic(fault.value);
      }
      var s := finalConfig.GetString(key, other);
      return Done(s);
    }

    method GetInt(key: string) returns (r: Outcome<int>)
      ensures !Parsed() ==> r == Panic(NotParsed)
      ensures Parsed() ==> r == Done(ToSigned(Lookup(finalConfig.data, Path(key)), Int))
    {
      var fault := MustBeParsed();
      if fault.Some? {
        return Panic(fault.value);
      }
      var i := finalConfig.GetSigned(key, Int);
      return Done(i);
    }

    method GetBool(key: string) returns (r: Outcome<bool>)
      ensures !Parsed() ==> r == Panic(NotParsed)
      ensures Parsed() ==> r == Done(ToBool(Lookup(finalConfig.data, Path(key))))
    {
      var fault := MustBeParsed();
      if fault.Some? {
        return Panic(fault.value);
      }
      var b := finalConfig.GetBool(key);
      return Done(b);
    }

    method GetStringSlice(key: string, other: Value -> string) returns (r: Outcome<seq<string>>)
      ensures !Parsed() ==> r == Panic(NotParsed)
      ensures Parsed() ==> r == Done(ToStringSlice(Lookup(finalConfig.data, Path(key)), other))
    {
      var fault := MustBeParsed();
      if fault.Some? {
        return Panic(fault.value);
      }
      var s := finalConfig.GetStringSlice(key, other);
      return Done(s);
    }

    method IsSet(key: string) returns (r: Outcome<bool>)
      ensures !Parsed() ==> r == Panic(NotParsed)
      ensures Parsed() ==> r == Done(Lookup(finalConfig.data, Path(key)) != Nil)
    {
      var fault := MustBeParsed();
      if fault.Some? {
        return Panic(fault.value);
      }
      var b := finalConfig.IsSet(key);
      return Done(b);
    }

    method AllKeys() returns (r: Outcome<seq<string>>)
      ensures !Parsed() ==> r == Panic(NotParsed)
      ensures Parsed() ==> (r.Done? && Sorted(r.value)
        && multiset(r.value) == KeysOf("", finalConfig.data, finalConfig.data.Keys))
    {
      var fault := MustBeParsed();
      if fault.Some? {
        return Panic(fault.value);
      }
      var keys := finalConfig.AllKeys();
      return Done(keys);
    }

    method Debug() returns (r: Outcome<seq<(string, Value)>>)
      ensures !Parsed() ==> r == Panic(NotParsed)
      ensures Parsed() ==> (r.Done? && Sorted(Names(r.value))
        && multiset(Names(r.value)) == KeysOf("", finalConfig.data, finalConfig.data.Keys)
        && forall i :: 0 <= i < |r.value| ==> r.value[i].1 == Lookup(finalConfig.data, Path(r.value[i].0)))
    {
      var fault := MustBeParsed();
      if fault.Some? {
        return Panic(fault.value);
      }
      var entries := finalConfig.Debug();
      return Done(entries);
    }

    /** getFlagDefault: the file's value when the file sets the key,
        otherwise the code default (nil when neither does). */
    method FlagDefault(name: string) returns (r: Value)
      ensures Lookup(config.data, Path(name)) != Nil ==> r == Lookup(config.data, Path(name))
      ensures Lookup(config.data, Path(name)) == Nil ==> r == Lookup(defaults.data, Path(name))
    {
      var inConfig := config.IsSet(name);
      if inConfig {
        r := config.Get(name);
      } else {
        r := defaults.Get(name);
      }
    }

    /** String: the default a string flag is defined with, the %v text of
        the file's or the code default's value when there is one. Defining
        the flag itself belongs to the flag package. */
    method StringFlagDefault(name: string, value: string, other: Value -> string) returns (r: string)
      ensures var d := if Lookup(config.data, Path(name)) != Nil then Lookup(config.data, Path(name))
                       else Lookup(defaults.data, Path(name));
        (d == Nil ==> r == value) && (d != Nil ==> r == FormatValue(d, other))
    {
      r := value;
      var val := FlagDefault(name);
      if val != Nil {
        r := FormatValue(val, other);
      }
    }

    /** Int: the default an int flag is defined with; a value castToInt
        refuses makes the definition panic. */
    method IntFlagDefault(name: string, value: int) returns (r: Outcome<int>)
      ensures var d := if Lookup(config.data, Path(name)) != Nil then Lookup(config.data, Path(name))
                       else Lookup(defaults.data, Path(name));
        (d == Nil ==> r == Done(value))
        && (d != Nil && CastToInt(d).Ok? ==> r == Done(CastToInt(d).value))
        && (d != Nil && CastToInt(d).Err? ==> r == Panic(InvalidDefault(name, CastToInt(d).error)))
    {
      var val := FlagDefault(name);
      if val == Nil {
        return Done(value);
      }
      match CastToInt(val)
      case Ok(i) => return Done(i);
      case Err(e) => return Panic(InvalidDefault(name, e));
    }

    /** Bool: the default a bool flag is defined with; a value castToBool
        refuses makes the definition panic. */
    method BoolFlagDefault(name: string, value: bool) returns (r: Outcome<bool>)
      ensures var d := if Lookup(config.data, Path(name)) != Nil then Lookup(config.data, Path(name))
                       else Lookup(defaults.data, Path(name));
        (d == Nil ==> r == Done(value))
        && (d != Nil && CastToBool(d).Ok? ==> r == Done(CastToBool(d).value))
        && (d != Nil && CastToBool(d).Err? ==> r == Panic(InvalidDefault(name, CastToBool(d).error)))
    {
      var val := FlagDefault(name);
      if val == Nil {
        return Done(value);
      }
      match CastToBool(val)
      case Ok(b) => return Done(b);
      case Err(e) => return Panic(InvalidDefault(name, e));
    }

    /** Parse: the final view is a deep copy of the defaults, with the file
        merged over it and then every flag VisitAll reports written over
        that; the defaults and the file are left as they were. */
    method Parse(visited: seq<Flag>)
      requires Valid()
      modifies this
      ensures Valid() && Parsed() && fresh(finalConfig)
      ensures defaults == old(defaults) && config == old(config)
      ensures defaults.data == old(defaults.data) && config.data == old(config.data)
      ensures finalConfig.data == Overlay(Merged(old(defaults.data), old(config.data)), visited)
    {
      finalConfig := defaults.Clone();
      finalConfig.Merge(config);
      ghost var merged := finalConfig.data;
      for i := 0 to |visited|
        invariant fresh(finalConfig) && Valid()
        invariant defaults == old(defaults) && config == old(config)
        invariant defaults.data == old(defaults.data) && config.data == old(config.data)
        invariant Overlay(merged, visited) == Overlay(finalConfig.data, visited[i..])
      {
        assert visited[i..][1..] == visited[i + 1..];
        finalConfig.SetValue(visited[i].name, visited[i].value);
      }
      parsed := true;
    }

    /** Parsed: whether Parse has run; false from the start (constructor)
        until Parse, and the getters panic exactly while it is false. */
    function Parsed(): (r: bool)
      reads this
      ensures r <==> parsed
    {
      parsed
    }
  }
}
