/** mapManager: one layer of configuration (the defaults, the loaded file,
    or the final merged view), a nested map addressed by dotted keys. Each
    method is proved against the value-level functions of the Tree module. */
module Manager {
  import opened Values
  import opened Text
  import opened Strconv
  import opened Tree
  import opened Coerce

  /** What reading the configuration file yields: no file at all, a read
      failure, YAML that does not parse, or the parsed tree. The YAML
      decoder itself is not modelled; the tree is taken as already converted
      to string keys. */
  datatype FileContent = Missing | Unreadable(reason: string) | Malformed(reason: string) | Parsed(tree: Data)

  /** The two errors LoadFile reports, both wrapping ErrInitFailed. */
  datatype LoadError = ReadFailed(reason: string) | ParseFailed(reason: string)

  class Store {
    var data: Data

    /** newManager: an empty store. */
    constructor ()
      ensures data == map[]
    {
      data := map[];
    }

    /** SetValue: walks the dotted key, keeping the maps it finds, creating
        an empty map where a segment is missing and replacing a non-map
        value by one, and stores the value under the last segment. */
    method SetValue(key: string, value: Value)
      modifies this
      ensures data == SetPath(old(data), Path(key), value)
    {
      var keys := Split(key, '.');
      // Going down: levels[j] is the map reached after the first j segments.
      var levels := [data];
      var i := 0;
      while i < |keys| - 1
        invariant 0 <= i <= |keys| - 1
        invariant |levels| == i + 1 && levels[0] == data
        invariant forall j :: 0 <= j < i ==> levels[j + 1] == Child(levels[j], keys[j])
      {
        levels := levels + [Child(levels[i], keys[i])];
        i := i + 1;
      }
      // Coming back up: each level gets the rebuilt map below it.
      var n := |keys| - 1;
      var result := levels[n][keys[n] := value];
      assert keys[n..] == [keys[n]];
      while i > 0
        invariant 0 <= i <= n
        invariant result == SetPath(levels[i], keys[i..], value)
      {
        assert keys[i - 1..][1..] == keys[i..];
        result := levels[i - 1][keys[i - 1] := Map(result)];
        i := i - 1;
      }
      data := result;
    }

    /** Get: follows the dotted key through nested maps; a missing segment
        or a non-map value on the way gives nil. */
    method Get(key: string) returns (r: Value)
      ensures r == Lookup(data, Path(key))
    {
      var keys := Split(key, '.');
      var current := Map(data);
      for i := 0 to |keys|
        invariant Walk(current, keys[i..]) == Lookup(data, keys)
      {
        if !current.Map? {
          return Nil;
        }
        if keys[i] !in current.m {
          return Nil;
        }
        current := current.m[keys[i]];
      }
      return current;
    }

    /** IsSet: the key reads a value other than nil. */
    method IsSet(key: string) returns (r: bool)
      ensures r <==> Lookup(data, Path(key)) != Nil
    {
      var v := Get(key);
      r := v != Nil;
    }

    /** Clone: a store holding a deep copy of the data. */
    method Clone() returns (c: Store)
      ensures fresh(c) && c.data == data
    {
      c := new Store();
      c.data := DeepCopyMap(data);
    }

    /** Merge: the other store's data merged into this one's, the other's
        values taking precedence. */
    method Merge(other: Store)
      modifies this
      ensures data == Merged(old(data), old(other.data))
    {
      data := MergeMaps(data, other.data);
    }

    /** LoadFile: a missing file is not an error and changes nothing; a
        read or parse failure is reported and changes nothing; otherwise
        the parsed tree replaces the data. */
    method LoadFile(file: FileContent) returns (err: Option<LoadError>)
      modifies this
      ensures file.Parsed? ==> err == None && data == file.tree
      ensures file.Missing? ==> err == None && data == old(data)
      ensures file.Unreadable? ==> err == Some(ReadFailed(file.reason)) && data == old(data)
      ensures file.Malformed? ==> err == Some(ParseFailed(file.reason)) && data == old(data)
    {
      match file
      case Missing => err := None;
      case Unreadable(reason) => err := Some(ReadFailed(reason));
      case Malformed(reason) => err := Some(ParseFailed(reason));
      case Parsed(tree) =>
        data := tree;
        err := None;
    }

    /** AllKeys: the full dotted key of every non-map value, in sorted
        order. */
    method AllKeys() returns (keys: seq<string>)
      ensures Sorted(keys)
      ensures multiset(keys) == KeysOf("", data, data.Keys)
    {
      keys := CollectKeys("", data, []);
      keys := SortStrings(keys);
    }

    /** Debug: the sorted keys, each with the value it reads. Printing is
        not modelled; the entries are what is printed. */
    method Debug() returns (entries: seq<(string, Value)>)
      ensures Sorted(Names(entries)) && multiset(Names(entries)) == KeysOf("", data, data.Keys)
      ensures forall i :: 0 <= i < |entries| ==> entries[i].1 == Lookup(data, Path(entries[i].0))
    {
      var keys := AllKeys();
      entries := [];
      for i := 0 to |keys|
        invariant |entries| == i
        invariant forall j :: 0 <= j < i ==> entries[j].0 == keys[j]
        invariant forall j :: 0 <= j < i ==> entries[j].1 == Lookup(data, Path(entries[j].0))
      {
        var value := Get(keys[i]);
        entries := entries + [(keys[i], value)];
      }
      assert Names(entries) == keys;
    }

    /** GetString. `other` stands for fmt's %v on the value kinds whose
        formatting is not modelled (floats, durations, lists, maps). */
    method GetString(key: string, other: Value -> string) returns (r: string)
      ensures r == ToString(Lookup(data, Path(key)), other)
    {
      var v := Get(key);
      r := ToString(v, other);
    }

    /** GetInt, GetInt8, GetInt16, GetInt32 and GetInt64, by target kind. */
    method GetSigned(key: string, k: IntKind) returns (r: int)
      ensures r == ToSigned(Lookup(data, Path(key)), k)
    {
      var v := Get(key);
      r := ToSigned(v, k);
    }

    /** GetUint, GetUint8, GetUint16, GetUint32 and GetUint64, by target kind. */
    method GetUnsigned(key: string, k: UintKind) returns (r: nat)
      ensures r == ToUnsigned(Lookup(data, Path(key)), k)
    {
      var v := Get(key);
      r := ToUnsigned(v, k);
    }

    method GetBool(key: string) returns (r: bool)
      ensures r == ToBool(Lookup(data, Path(key)))
    {
      var v := Get(key);
      r := ToBool(v);
    }

    /** GetDuration, in nanoseconds; `parseDuration` stands for
        time.ParseDuration. */
    method GetDuration(key: string, parseDuration: string -> Option<int>) returns (r: int)
      ensures r == ToDuration(Lookup(data, Path(key)), parseDuration)
    {
      var v := Get(key);
      r := ToDuration(v, parseDuration);
    }

    method GetStringMapString(key: string, other: Value -> string) returns (r: map<string, string>)
      ensures r == ToStringMap(Lookup(data, Path(key)), other)
    {
      var v := Get(key);
      r := ToStringMap(v, other);
    }

    method GetStringSlice(key: string, other: Value -> string) returns (r: seq<string>)
      ensures r == ToStringSlice(Lookup(data, Path(key)), other)
    {
      var v := Get(key);
      r := ToStringSlice(v, other);
    }
  }

  /** The keys of Debug's entries, in order. */
  function Names(entries: seq<(string, Value)>): (r: seq<string>)
    ensures |r| == |entries| && forall i :: 0 <= i < |r| ==> r[i] == entries[i].0
  {
    seq(|entries|, i requires 0 <= i < |entries| => entries[i].0)
  }

  /** mergeMaps(dst, src): each key of src is visited once; where dst and
      src both hold maps the two are merged recursively, otherwise src's
      value is stored. */
  method MergeMaps(dst: Data, src: Data) returns (r: Data)
    ensures r == Merged(dst, src)
    decreases Map(src)
  {
    r := dst;
    var todo := src.Keys;
    while todo != {}
      invariant todo <= src.Keys
      invariant r.Keys == dst.Keys + (src.Keys - todo)
      invariant forall k | k in todo && k in dst :: r[k] == dst[k]
      invariant forall k | k in r && k !in todo :: r[k] == Merged(dst, src)[k]
      decreases todo
    {
      var key :| key in todo;
      var srcVal := src[key];
      if key in r && r[key].Map? && srcVal.Map? {
        assert Map(srcVal.m) == src[key];
        var sub := MergeMaps(r[key].m, srcVal.m);
        r := r[key := Map(sub)];
      } else {
        r := r[key := srcVal];
      }
      todo := todo - {key};
    }
  }

  /** collectKeys: appends to `keys` the full key of every non-map value
      below `prefix`, descending into nested maps; only appends. */
  method CollectKeys(prefix: string, m: Data, keys: seq<string>) returns (out: seq<string>)
    ensures |out| >= |keys| && out[..|keys|] == keys
    ensures multiset(out) == multiset(keys) + KeysOf(prefix, m, m.Keys)
    decreases Map(m)
  {
    out := keys;
    var todo := m.Keys;
    ghost var done: set<string> := {};
    while todo != {}
      invariant done !! todo && done + todo == m.Keys
      invariant |out| >= |keys| && out[..|keys|] == keys
      invariant multiset(out) == multiset(keys) + KeysOf(prefix, m, done)
      decreases todo
    {
      var key :| key in todo;
      ghost var before := out;
      var fullKey := key;
      if prefix != "" {
        fullKey := prefix + "." + key;
      }
      assert fullKey == FullKey(prefix, key);
      EntryKeysUnfold(prefix, m, key);
      if m[key].Map? {
        assert Map(m[key].m) == m[key];
        out := CollectKeys(fullKey, m[key].m, out);
      } else {
        out := out + [fullKey];
        assert multiset(out) == multiset(before) + multiset{fullKey};
        assert out[..|before|] == before;
      }
      KeepsPrefix(keys, before, out);
      CollectStep(prefix, m, keys, done, key, before, out);
      done := done + {key};
      todo := todo - {key};
    }
    assert done == m.Keys;
  }

  /** Appending to a sequence that starts with keys keeps keys in front. */
  lemma KeepsPrefix(keys: seq<string>, before: seq<string>, after: seq<string>)
    requires |before| >= |keys| && before[..|keys|] == keys
    requires |after| >= |before| && after[..|before|] == before
    ensures |after| >= |keys| && after[..|keys|] == keys
  {
    assert after[..|keys|] == after[..|before|][..|keys|];
  }

  /** One step of CollectKeys' loop: the keys of one more entry appended. */
  lemma CollectStep(prefix: string, m: Data, keys: seq<string>, done: set<string>, key: string,
                    before: seq<string>, after: seq<string>)
    requires done <= m.Keys && key in m && key !in done
    requires multiset(before) == multiset(keys) + KeysOf(prefix, m, done)
    requires multiset(after) == multiset(before) + EntryKeys(prefix, m, key)
    ensures multiset(after) == multiset(keys) + KeysOf(prefix, m, done + {key})
  {
    KeysOfAdd(prefix, m, done, key);
  }
}
