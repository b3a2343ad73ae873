# mflag in Dafny

A model of the core of mflag, a Go configuration library that layers three
sources with a fixed precedence: command-line flags over a YAML
configuration file over defaults set in code. Each source is a
`mapManager`, a nested string-keyed map addressed by dotted keys such as
`database.host`. `Parse` builds the final view: it deep-copies the
defaults, merges the file over them, then writes every registered flag over
the result. The typed getters (`GetInt`, `GetBool`, `GetStringSlice`, ...)
read a key and coerce whatever is stored there. Called before `Parse`, the
package-level getters panic.

Modules, one file each:

- `ints.dfy` (`Ints`): Go's fixed-width integers and their two's-complement
  conversions. `int` and `uint` are taken as 64 bits wide.
- `text.dfy` (`Text`): `strings.Split` on one character, `strings.Join`,
  `strings.TrimSpace` with `unicode.IsSpace`, and the byte-wise order of
  `sort.Strings`, with an insertion sort proved sorted and a permutation.
- `strconv.dfy` (`Strconv`): decimal `ParseInt`, `ParseUint`, `Atoi` and
  `ParseBool`, and the decimal text `%v` gives integers and booleans.
- `values.dfy` (`Values`): the dynamic values a store holds.
- `coerce.dfy` (`Coerce`): the type switches inside the getters of
  `manager.go`, plus `castToInt` and `castToBool` of `mflag.go`.
- `tree.dfy` (`Tree`): the nested map as a value. It gives the meaning of
  `Get` (`Lookup`), `SetValue` (`SetPath`), `mergeMaps` (`Merged`),
  `deepCopyMap` and `collectKeys` (`KeysOf`), with the lemmas that say what
  they mean.
- `manager.dfy` (`Manager`): `mapManager` as the class `Store`. Each method
  is proved against the `Tree` functions. `SetValue` and `Get` walk the
  path in loops. `mergeMaps` and `collectKeys` iterate over the keys in
  whatever order, as Go's map iteration does.
- `mflag.dfy` (`MFlag`): the package's global state as the class
  `Context`, with `SetDefault`, `Init`, the guarded getters, the defaults
  given to flag definitions, and `Parse`. The lemmas state the precedence
  order.

## Model

| member | source | states |
|---|---|---|
| Text.Split | manager.go:63 | a dotted key splits into at least one segment; no segment holds the separator; there is one segment exactly when the key has no dot |
| Text.JoinSplit | manager.go:63 | joining the segments of a split with the separator gives back the key |
| Text.SplitJoin | manager.go:63 | splitting a join of dot-free segments gives back the segments |
| Text.TrimSpace | manager.go:681 | strings.TrimSpace leaves a string that is empty or begins and ends with a character that is not white space; TrimSpaceIsSlice adds that only white space at the ends is removed |
| Text.TrimLeft | manager.go:681 | strips exactly the leading white space |
| Text.TrimRight | manager.go:681 | strips exactly the trailing white space |
| Text.TrimSpaceIsSlice | manager.go:681 | TrimSpace keeps a contiguous slice of the input and removes only white space at both ends |
| Text.TrimSpaceKeeps | manager.go:681 | a string with no white space at either end is unchanged by TrimSpace |
| Text.LessEqTotal | manager.go:699 | the byte-wise string order is total |
| Text.LessEqTransitive | manager.go:699 | the byte-wise string order is transitive |
| Text.LessEqAntisymmetric | manager.go:699 | the byte-wise string order is antisymmetric |
| Text.Insert | manager.go:699 | inserting into a sorted list keeps it sorted and adds exactly the one element |
| Text.SortStrings | manager.go:699 | sort.Strings: the result is sorted and a permutation of the input |
| Ints.WrapUnsigned | manager.go:360-412 | a conversion to an unsigned width lands in that width's range |
| Ints.WrapSigned | manager.go:157-191 | a conversion to a signed width lands in that width's range and keeps the low bits of the input |
| Ints.WrapSignedUnique | manager.go:157-191 | a signed conversion is the only in-range value with those low bits |
| Ints.WrapSignedId | manager.go:157-191 | a value already in range converts to itself |
| Ints.Trunc | manager.go:146-147 | float-to-integer conversion rounds toward zero |
| Strconv.FormatNat | manager.go:116 | the decimal text of a natural number is non-empty digits without a leading zero |
| Strconv.FormatNatValue | manager.go:116 | reading the decimal text back gives the number |
| Strconv.ParseUint | manager.go:351-353 | accepts exactly non-empty decimal digits whose value fits the bit size, and returns that value |
| Strconv.FormatInt | manager.go:111-117 | the `%v` text of an integer: a minus sign exactly for a negative number and never a plus sign, then non-empty decimal digits without a leading zero |
| Strconv.ParseInt | manager.go:148-151 | accepts exactly an optional sign followed by non-empty decimal digits whose signed value fits the bit size, and returns that value |
| Strconv.ParseFormatInt | manager.go:148-151 | every in-range integer survives a decimal round trip through ParseInt |
| Strconv.ParseFormatUint | manager.go:351-353 | every in-range natural number survives a decimal round trip through ParseUint |
| Strconv.ParseUintRefusesSign | manager.go:351-353 | ParseUint refuses a leading sign, '+' included |
| Strconv.FormatBool | manager.go:111-117 | the `%v` text of a boolean is "true" or "false", and parses back as that boolean |
| Strconv.ParseBool | manager.go:588-590 | exactly six tokens give true and exactly six give false |
| Coerce.FormatValue | manager.go:116 | `%v`: nil gives "<nil>", a string itself, a signed integer its FormatInt text, an unsigned one its FormatNat text and a boolean its FormatBool text, each with its round trip proved beside it |
| Coerce.ToString | manager.go:111-117 | GetString: nil gives "", any other value its `%v` text (FormatValue), so a string gives itself |
| Coerce.ToSigned | manager.go:120-302 | GetInt to GetInt64: the result is in the target's range, keeps the low bits of a stored integer, is the parsed value of a string ParseInt accepts and 0 for one it refuses, and is 0 for nil, for a duration (the type switch has no `time.Duration` case) and for booleans, lists and maps |
| Coerce.ToUnsigned | manager.go:305-577 | GetUint to GetUint64: an unsigned or non-negative signed integer is wrapped to the target's width; a negative integer or float gives 0; a string gives its ParseUint value, or 0 when ParseUint refuses it; nil and other types give 0 |
| Coerce.ToBool | manager.go:580-594 | GetBool is true exactly for a stored true or one of the six true tokens of ParseBool |
| Coerce.ToDuration | manager.go:620-640 | GetDuration: a Duration as it is, int and int64 as nanoseconds, a string as parseDuration reads it or 0 when it refuses it, and 0 for nil, the other integer types, booleans, lists and maps |
| Coerce.CommaFields | manager.go:676-684 | a string splits into one piece exactly when it has no comma; no piece holds a comma, and no non-empty piece starts or ends with white space |
| Coerce.ToStringSlice | manager.go:661-688 | GetStringSlice: a list element-wise through %v, a []string as it is, a string split on commas into trimmed comma-free pieces, a comma-free string as one element, anything else empty |
| Coerce.ToStringMap | manager.go:645-658 | GetStringMapString: a map keeps its keys with every value through %v; anything else gives the empty map |
| Coerce.CastToInt | mflag.go:220-236 | castToInt succeeds exactly for int, int64, float64 and strings Atoi accepts; the error names the string or the value |
| Coerce.CastToBool | mflag.go:239-251 | castToBool succeeds exactly for bools and strings ParseBool accepts; the error names the string or the value |
| Coerce.SignedKeepsRepresentable | manager.go:120-302 | an integer that fits the target reads back unchanged |
| Coerce.UnsignedKeepsRepresentable | manager.go:305-577 | a non-negative integer that fits the target reads back unchanged |
| Coerce.SignedOfDecimal | manager.go:120-302 | the decimal text of an in-range integer reads back as that integer |
| Coerce.UnsignedOfDecimal | manager.go:305-577 | the decimal text of an in-range natural number reads back as that number |
| Coerce.SignedOfMalformed | manager.go:148-151 | a string whose unsigned part is empty or holds a non-digit reads as 0 through every signed getter |
| Coerce.SignedOfOutOfRange | manager.go:185-188 | the decimal text of an out-of-range integer reads as 0, not wrapped |
| Coerce.DurationAgreesWithInt64 | manager.go:620-640 | for int, int64 and float values GetDuration gives the same number of nanoseconds as GetInt64 |
| Coerce.StringThenSigned | manager.go:111-154 | GetInt of the GetString text of an in-range integer equals GetInt of the integer |
| Coerce.StringThenUnsigned | manager.go:305-577 | GetUint of the GetString text of an unsigned integer that fits gives the integer back |
| Coerce.StringThenBool | manager.go:580-594 | GetBool of the GetString text of a bool gives the bool back |
| Coerce.CastToIntAgrees | mflag.go:220-236 | where castToInt succeeds it agrees with GetInt |
| Coerce.CastToBoolAgrees | mflag.go:239-251 | where castToBool succeeds it agrees with GetBool |
| Coerce.CommaListRoundTrip | manager.go:676-684 | a comma-joined list of comma-free pieces reads back as the pieces, trimmed |
| Tree.WalkConcat | manager.go:91-108 | reading a path p + q is reading q from where p leads |
| Tree.LookupTop | manager.go:91-108 | a one-segment key reads the top-level entry; a key whose first segment is missing reads nil |
| Tree.Path | manager.go:63 | a key has at least one segment |
| Tree.SetPath | manager.go:62-88 | a write adds the first segment to the top-level keys and keeps all others |
| Tree.SetThenWalk | manager.go:62-108 | after a write, the written path reads the value, and paths below it read from inside the value |
| Tree.SetThenGet | manager.go:62-108 | after a write, Get of the written key returns the value |
| Tree.SetFrame | manager.go:62-108 | a write leaves every path that parts ways with the written one reading as before |
| Tree.SetOtherTop | manager.go:62-108 | a write leaves keys with a different first segment as they were |
| Tree.SetOverwrite | manager.go:62-88 | writing twice at the same key is the same as writing the second value once |
| Tree.SetKeepsWellFormed | manager.go:62-88 | writing under non-empty, dot-free segments keeps every key non-empty and dot-free |
| Tree.Merged | manager.go:817-833 | mergeMaps keeps the keys of both maps |
| Tree.LookupMerged | manager.go:817-833 | after a merge a path reads dst's value where src does not reach it, the merge of both where both hold maps, and src's value otherwise |
| Tree.MergedSrcWins | manager.go:817-833 | a non-map value of src wins over dst |
| Tree.MergedKeepsDst | manager.go:817-833 | a path src does not reach keeps dst's value |
| Tree.MergedKeepsWellFormed | manager.go:817-833 | merging two well-formed maps gives a well-formed map |
| Tree.MergedSelf | manager.go:817-833 | merging a map into itself changes nothing |
| Tree.AbsentIsNil | manager.go:91-108 | a path the map does not reach reads nil |
| Tree.DeepCopyValue | manager.go:795-814 | the copy of a value equals the value |
| Tree.DeepCopyMap | manager.go:783-792 | the copy of a map equals the map |
| Tree.FullKey | manager.go:706-709 | with no prefix the full key is the key; otherwise it lies under the prefix, after a dot |
| Tree.KeysOfUnder | manager.go:704-717 | every key collected under a prefix starts with that prefix and a dot |
| Tree.KeysOfSplit | manager.go:704-717 | the keys collected do not depend on the order the entries are visited in |
| Tree.KeysOfSound | manager.go:704-717 | every collected key is the full key of a leaf path under the prefix |
| Tree.KeysOfComplete | manager.go:704-717 | the full key of every leaf path is collected |
| Tree.KeysOfUnique | manager.go:704-717 | no key is collected twice from a well-formed map |
| Tree.LeafSegments | manager.go:704-717 | the segments of a leaf path of a well-formed map are non-empty and dot-free |
| Tree.LeafLookup | manager.go:691-717 | a leaf path reads a value that is not a map; every path that reads neither nil nor a map is a leaf path |
| Tree.AllKeysExact | manager.go:696-717 | for a well-formed map, AllKeys lists a key exactly when its path is a leaf path, and lists it once |
| Manager.Store.constructor | manager.go:21-25 | a new store is empty |
| Manager.Store.SetValue | manager.go:62-88 | the new data is the old data with the value written at the dotted path |
| Manager.Store.Get | manager.go:91-108 | returns what the dotted path reads in the data, nil when a segment is missing or a non-map is in the way |
| Manager.Store.IsSet | manager.go:691-693 | true exactly when the key reads a value other than nil |
| Manager.Store.Clone | manager.go:28-32 | a fresh store with data equal to this one's |
| Manager.Store.Merge | manager.go:36-38 | the data becomes the other store's data merged over this one's |
| Manager.Store.LoadFile | manager.go:41-59 | a missing file is no error and changes nothing; a read or parse error is reported and changes nothing; otherwise the tree replaces the data |
| Manager.Store.AllKeys | manager.go:696-701 | the keys are sorted and are exactly the collected keys |
| Manager.Store.Debug | manager.go:720-732 | the entries' keys are sorted and are exactly the collected keys, each entry with the value its key reads |
| Manager.Store.GetString | manager.go:111-117 | GetString of the value the key reads |
| Manager.Store.GetSigned | manager.go:120-302 | the signed coercion of the value the key reads |
| Manager.Store.GetUnsigned | manager.go:305-577 | the unsigned coercion of the value the key reads |
| Manager.Store.GetBool | manager.go:580-594 | the boolean coercion of the value the key reads |
| Manager.Store.GetDuration | manager.go:620-640 | the duration coercion of the value the key reads |
| Manager.Store.GetStringMapString | manager.go:645-658 | the string-map coercion of the value the key reads |
| Manager.Store.GetStringSlice | manager.go:661-688 | the string-list coercion of the value the key reads |
| Manager.MergeMaps | manager.go:817-833 | visiting src's keys in any order gives the merge of src over dst |
| Manager.CollectKeys | manager.go:704-717 | visiting the keys in any order appends to the list: the keys already there stay in front, and the list gains exactly the collected keys |
| MFlag.Overlay | mflag.go:200-208 | the final view with the flags written in the order VisitAll reports them |
| MFlag.OverlayFrame | mflag.go:200-208 | a key no flag writes to or through keeps its merged value |
| MFlag.OverlayFlagWins | mflag.go:200-208 | a flag that no later flag overwrites reads back its value: flags take precedence |
| MFlag.Precedence | mflag.go:186-211 | for a key no flag touches, the file's value wins where the file reaches the key, and the default applies otherwise |
| MFlag.Context.constructor | mflag.go:41-46 | three distinct empty stores, not parsed |
| MFlag.Context.SetDefault | mflag.go:51-53 | the value is written into the defaults; the file and final stores are unchanged |
| MFlag.Context.Init | mflag.go:57-59 | LoadFile on the config store; the defaults are unchanged |
| MFlag.Context.MustBeParsed | mflag.go:63-67 | a NotParsed fault exactly when Parse has not run |
| MFlag.Context.GetString | mflag.go:72-75 | panics before Parse; afterwards GetString of the final view |
| MFlag.Context.GetInt | mflag.go:79-82 | panics before Parse; afterwards GetInt of the final view |
| MFlag.Context.GetBool | mflag.go:86-89 | panics before Parse; afterwards GetBool of the final view |
| MFlag.Context.GetStringSlice | mflag.go:100-103 | panics before Parse; afterwards GetStringSlice of the final view |
| MFlag.Context.IsSet | mflag.go:107-110 | panics before Parse; afterwards whether the final view sets the key |
| MFlag.Context.AllKeys | mflag.go:114-117 | panics before Parse; afterwards the sorted collected keys of the final view |
| MFlag.Context.Debug | mflag.go:121-124 | panics before Parse; afterwards entries whose keys are sorted and exactly the collected keys of the final view, each with the value its key reads |
| MFlag.Context.FlagDefault | mflag.go:178-183 | the file's value when the file sets the key, otherwise the code default |
| MFlag.Context.StringFlagDefault | mflag.go:130-135 | a string flag defaults to the %v text of the file's value, else of the code default, and keeps its own default when neither source sets the key |
| MFlag.Context.IntFlagDefault | mflag.go:139-148 | an int flag defaults to the cast file or code value; a value castToInt refuses panics with the key and the cast error |
| MFlag.Context.BoolFlagDefault | mflag.go:152-161 | a bool flag defaults to the cast file or code value; a value castToBool refuses panics with the key and the cast error |
| MFlag.Context.Parsed | mflag.go:215-217 | true exactly when Parse has run |
| MFlag.Context.Parse | mflag.go:189-211 | the final view is the flags written over the file merged over the defaults; parsed becomes true; the defaults and the file are unchanged |
| Aliasing.Alloc | manager.go:72-85 | a new map gets an address no live map uses, and every existing map is left as it was |
| Aliasing.Read | manager.go:91-108 | Get over shared maps: a one-segment key is found exactly when the top-level map holds it, and then reads that entry; a longer key is found only through a reference to a nested map |
| Aliasing.ReadConcat | manager.go:91-108 | reading a path p + q reads q from the nested map p refers to, and nothing when p reads nothing or a direct value |
| Aliasing.SetValueAsWritten | manager.go:62-88 | SetValue over shared maps: a one-segment key stores the cell in the map at hand; only the maps on the walk that follows existing nested maps by reference can change, the others stay as they were; no map is removed and every new address is fresh |
| Aliasing.MergeAsWritten | manager.go:817-833 | mergeMaps over shared maps: merges nested maps in place and otherwise stores src's entry itself, a reference included; no map is ever removed |
| Aliasing.CloneAsWritten | manager.go:783-814 | deepCopyMap over shared maps: the copy is at an address no live map used before, has the original's keys and its direct entries, refers to a new map for every nested map within the depth bound, and every existing map is left as it was |
| Aliasing.CopyEntries | manager.go:788-790 | the loop of deepCopyMap: the target gains exactly the copied keys, a non-map entry is copied as it is, a nested map within the depth bound becomes a reference to a new map, and no other existing map changes |
| Aliasing.WriteFlags | mflag.go:200-208 | the flag loop of Parse over shared maps: no map is removed and every new address is fresh |
| Aliasing.ParseAsWritten | mflag.go:189-211 | Parse over shared maps: no map is removed, every new address is fresh, and the final view is at an address no live map used before |
| Aliasing.ParseWritesIntoConfig | manager.go:830 | with no defaults, the file {db: {user: "u"}} and a flag db.host, Parse as written makes the file's own configuration hold the flag's value at db.host, where it held nothing before |

## Left out

- YAML decoding (`yaml.Unmarshal`), `convertMap` and `convertSlice`: `LoadFile` takes the outcome of reading and decoding as a `FileContent` value. The tree is taken as already converted to string keys.
- The `flag` package: `Parse` takes the sequence `flag.VisitAll` reports, each flag's name with its typed value. Registering a flag, reading `os.Args` and exiting on an unknown flag are not modelled. `String`, `Int` and `Bool` are modelled by the default they pass to the flag package (`StringFlagDefault`, `IntFlagDefault`, `BoolFlagDefault`).
- Floating point: `GetFloat64` (both levels), `castToFloat64` and `Float64` are not modelled. A float is kept as a finite real. Converting a float to an integer truncates toward zero and then keeps the low bits; Go leaves out-of-range conversions implementation-defined.
- `time.ParseDuration` is the parameter `parseDuration` of `GetDuration`.
- fmt's `%v` for floats, durations, lists and maps is the parameter `other`. Integers, booleans, strings and nil are formatted in the model.
- Printing: `Debug` returns the key and value pairs it would print. The header, the "(empty)" line and the `%T` type names are not modelled.
- Update in place and aliasing: outside the `Aliasing` module maps are values. `SetValue` rebuilds the path instead of writing into nested maps, and `Clone`'s deep copy equals the original. No store shares a nested map with another, which is the intended behaviour of the finding below.
- Aliasing.MergeAsWritten, Aliasing.CloneAsWritten, Aliasing.CopyEntries, Aliasing.SetValueAsWritten, Aliasing.WriteFlags, Aliasing.ParseAsWritten, Aliasing.Read: these contracts are weaker than the code. The `Aliasing` module models the Go heap to exhibit the finding, and its contracts state the bookkeeping: maps are never removed, new addresses are fresh, which maps a step may change, and what a one-segment read finds. They do not state the merged contents, the value a write leaves at the end of a longer path (a path that visits the same map twice can overwrite its own earlier step), or what the flags write. Nesting deeper than the `fuel` bound is not followed: a deeper nested map is stored or copied as a reference. The entries of src are taken as they were when the merge loop began, whereas Go's range sees some writes made during the loop.
- Go's `nil` map and typed nil values: the stores' maps are never nil here, and a stored nil is the single value `Nil`.
- Strings are sequences of characters, whereas Go's are byte strings: text that is not valid UTF-8 cannot be represented, so the model says nothing about how `TrimSpace`, `ParseBool`, `ParseInt` or the key order treat it.
- Tree.WellFormed: the uniqueness and exactness of `AllKeys` (`KeysOfUnique`, `AllKeysExact`) are proved only for maps whose keys are non-empty and dot-free. Otherwise `collectKeys` can list a key twice (`{"a.b": 1, "a": {"b": 2}}`) or drop a dot (an empty top-level key holding a map).
- Package-level `Parsed()` is `MFlag.Context.Parsed`; `GetFloat64` and `Float64` are left out with floating point.
- Go values outside the closed `Value` union (`[]int`, `map[string]string`, structs and so on) cannot be stored. For such a value `GetString` would give its `%v` text and the other getters their zero value.
- Panic and error message texts: a panic is the `Fault` value that names it, and the texts of `ErrNotParsed` and of the panics in `mustBeParsed` and the flag helpers are not modelled.

## Findings

| source | as written | input that shows it | evidently intended | confidence | as-written member | corrected member |
|---|---|---|---|---|---|---|
| manager.go:830 | Parse deep-copies the defaults but merges the file into that copy with `mergeMaps`, which stores the file's nested maps themselves where the copy lacks the key; writing a flag under a dotted key then follows that shared map and writes into the file's configuration | no defaults; file `db: {user: u}`; a flag named `db.host` with value `f` | Parse builds the final view and leaves the defaults and the file's configuration as they were | medium, not executed; through the exported API the change shows only in later reads of the file's configuration, such as the default of a string flag named `db` defined after Parse, which formats the file's `db` map | Aliasing.ParseWritesIntoConfig | MFlag.Context.Parse |
