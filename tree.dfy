/** The nested map that mapManager keeps, as a value: what Get reads at a
    dotted path, what SetValue, mergeMaps and deepCopyMap make of it. The
    store's methods are proved against these functions, and the lemmas here
    say what the functions mean. */
module Tree {
  import opened Values
  import opened Text

  type Data = map<string, Value>

  /** strings.Split(key, "."): the segments of a dotted key. */
  function Path(key: string): (p: seq<string>)
    ensures |p| >= 1
  {
    Split(key, '.')
  }

  /** Get's walk from a value down a path: each segment must find a map
      holding it; the first missing key or non-map value gives Nil. */
  function Walk(v: Value, p: seq<string>): Value
  {
    if |p| == 0 then v
    else if v.Map? && p[0] in v.m then Walk(v.m[p[0]], p[1..])
    else Nil
  }

  /** Get on the store's data. */
  function Lookup(m: Data, p: seq<string>): Value
  {
    Walk(Map(m), p)
  }

  /** A top-level key reads its own entry, and a missing first segment
      reads nil. */
  lemma LookupTop(m: Data, p: seq<string>)
    ensures |p| == 1 && p[0] in m ==> Lookup(m, p) == m[p[0]]
    ensures |p| >= 1 && p[0] !in m ==> Lookup(m, p) == Nil
  {
    if |p| == 1 && p[0] in m {
      assert p[1..] == [];
      assert Lookup(m, p) == Walk(m[p[0]], p[1..]);
    }
  }

  /** Walking a longer path is walking its first part and then the rest
      from what that reached; a nil reached early stays nil. */
  lemma {:induction false} WalkConcat(v: Value, p: seq<string>, q: seq<string>)
    ensures Walk(v, p + q) == Walk(Walk(v, p), q)
  {
    if |p| > 0 {
      assert (p + q)[0] == p[0] && (p + q)[1..] == p[1..] + q;
      if v.Map? && p[0] in v.m {
        WalkConcat(v.m[p[0]], p[1..], q);
        assert Walk(v, p + q) == Walk(v.m[p[0]], p[1..] + q);
        assert Walk(v, p) == Walk(v.m[p[0]], p[1..]);
      } else {
        assert Walk(v, p + q) == Nil && Walk(v, p) == Nil;
        assert Walk(Nil, q) == Nil;
      }
    } else {
      assert p + q == q;
    }
  }

  /** The map SetValue descends into at segment k: the existing map, or a
      fresh empty one when k is missing or holds something else. */
  function Child(m: Data, k: string): Data
  {
    if k in m && m[k].Map? then m[k].m else map[]
  }

  /** SetValue's effect on the data: the maps along the path are kept or
      created, and the last segment gets the value. */
  function SetPath(m: Data, p: seq<string>, v: Value): (r: Data)
    requires |p| >= 1
    ensures r.Keys == m.Keys + {p[0]}
    decreases |p|
  {
    if |p| == 1 then m[p[0] := v]
    else m[p[0] := Map(SetPath(Child(m, p[0]), p[1..], v))]
  }

  /** Set then get: the path reads back the value written, and whatever
      lies below it reads from inside that value. */
  lemma {:induction false} SetThenWalk(m: Data, p: seq<string>, v: Value, q: seq<string>)
    requires |p| >= 1
    ensures Lookup(SetPath(m, p, v), p + q) == Walk(v, q)
    decreases |p|
  {
    var r := SetPath(m, p, v);
    assert (p + q)[0] == p[0] && (p + q)[1..] == p[1..] + q;
    if |p| > 1 {
      SetThenWalk(Child(m, p[0]), p[1..], v, q);
    }
  }

  lemma SetThenGet(m: Data, p: seq<string>, v: Value)
    requires |p| >= 1
    ensures Lookup(SetPath(m, p, v), p) == v
  {
    SetThenWalk(m, p, v, []);
    assert p + [] == p;
  }

  /** Two paths part ways: at some segment both have, they differ. */
  predicate Diverge(p: seq<string>, q: seq<string>)
  {
    |p| > 0 && |q| > 0 && (p[0] != q[0] || Diverge(p[1..], q[1..]))
  }

  /** Nothing else changes: a write leaves every path that parts ways with
      the written one reading as before. */
  lemma {:induction false} SetFrame(m: Data, q: seq<string>, v: Value, p: seq<string>)
    requires |q| >= 1 && Diverge(p, q)
    ensures Lookup(SetPath(m, q, v), p) == Lookup(m, p)
    decreases |q|
  {
    if p[0] == q[0] {
      var c := Child(m, q[0]);
      SetFrame(c, q[1..], v, p[1..]);
      assert Lookup(SetPath(m, q, v), p) == Lookup(SetPath(c, q[1..], v), p[1..]);
      if !(q[0] in m && m[q[0]].Map?) {
        assert |p[1..]| >= 1;
        EmptyWalk(p[1..]);
        if q[0] in m {
          assert Lookup(m, p) == Walk(m[q[0]], p[1..]);
        }
      }
    }
  }

  lemma EmptyWalk(p: seq<string>)
    requires |p| >= 1
    ensures Lookup(map[], p) == Nil
  {
  }

  /** A key whose first segment differs from the written key's is untouched. */
  lemma SetOtherTop(m: Data, q: seq<string>, v: Value, p: seq<string>)
    requires |q| >= 1 && |p| >= 1 && p[0] != q[0]
    ensures Lookup(SetPath(m, q, v), p) == Lookup(m, p)
  {
    SetFrame(m, q, v, p);
  }

  /** The last write wins: writing w over v at the same key is writing w. */
  lemma {:induction false} SetOverwrite(m: Data, p: seq<string>, v: Value, w: Value)
    requires |p| >= 1
    ensures SetPath(SetPath(m, p, v), p, w) == SetPath(m, p, w)
    decreases |p|
  {
    var k := p[0];
    if |p| == 1 {
      UpdateTwice(m, k, v, w);
    } else {
      var c := Child(m, k);
      SetOverwrite(c, p[1..], v, w);
      ChildOfSet(m, p, v);
      UpdateTwice(m, k, Map(SetPath(c, p[1..], v)), Map(SetPath(c, p[1..], w)));
    }
  }

  /** A second update of the same key replaces the first. */
  lemma UpdateTwice(m: Data, k: string, a: Value, b: Value)
    ensures m[k := a][k := b] == m[k := b]
  {
  }

  /** Below the first segment of a longer path, the set lands in the child
      map. */
  lemma ChildOfSet(m: Data, p: seq<string>, v: Value)
    requires |p| > 1
    ensures Child(SetPath(m, p, v), p[0]) == SetPath(Child(m, p[0]), p[1..], v)
  {
  }

  /** A write under non-empty, dot-free segments of a value that is itself
      well formed keeps the map well formed. */
  lemma {:induction false} SetKeepsWellFormed(m: Data, p: seq<string>, v: Value)
    requires |p| >= 1 && WellFormed(m)
    requires forall i :: 0 <= i < |p| ==> p[i] != "" && '.' !in p[i]
    requires v.Map? ==> WellFormed(v.m)
    ensures WellFormed(SetPath(m, p, v))
    decreases |p|
  {
    var k := p[0];
    if |p| > 1 {
      var c := Child(m, k);
      if k in m && m[k].Map? {
        assert Map(m[k].m) == m[k];
        assert WellFormed(c);
      }
      forall i | 0 <= i < |p[1..]| ensures p[1..][i] != "" && '.' !in p[1..][i] {
        assert p[1..][i] == p[i + 1];
      }
      SetKeepsWellFormed(c, p[1..], v);
      var r := SetPath(m, p, v);
      assert Map(SetPath(c, p[1..], v)).m == SetPath(c, p[1..], v);
      forall j | j in r ensures j != "" && '.' !in j && (r[j].Map? ==> WellFormed(r[j].m)) {
        if j != k {
          assert r[j] == m[j];
        }
      }
    } else {
      var r := SetPath(m, p, v);
      forall j | j in r ensures j != "" && '.' !in j && (r[j].Map? ==> WellFormed(r[j].m)) {
        if j != k {
          assert r[j] == m[j];
        }
      }
    }
  }

  // ----- mergeMaps -----

  /** mergeMaps(dst, src): every key of either side; where both sides hold
      maps the two merge recursively, otherwise src's value wins, and keys
      src lacks keep dst's value. */
  function Merged(dst: Data, src: Data): (r: Data)
    ensures r.Keys == dst.Keys + src.Keys
    decreases Map(src)
  {
    map k | k in dst.Keys + src.Keys ::
      if k in src then
        if k in dst && dst[k].Map? && src[k].Map? then
          assert Map(src[k].m) == src[k];
          Map(Merged(dst[k].m, src[k].m))
        else src[k]
      else dst[k]
  }

  /** Merging two well-formed maps gives a well-formed map. */
  lemma {:induction false} MergedKeepsWellFormed(dst: Data, src: Data)
    requires WellFormed(dst) && WellFormed(src)
    ensures WellFormed(Merged(dst, src))
    decreases Map(src)
  {
    var r := Merged(dst, src);
    forall k | k in r ensures k != "" && '.' !in k && (r[k].Map? ==> WellFormed(r[k].m)) {
      if k in src && k in dst && dst[k].Map? && src[k].Map? {
        assert Map(src[k].m) == src[k];
        MergedKeepsWellFormed(dst[k].m, src[k].m);
      }
    }
  }

  /** Merging a map into itself changes nothing. */
  lemma {:induction false} MergedSelf(m: Data)
    ensures Merged(m, m) == m
    decreases Map(m)
  {
    var r := Merged(m, m);
    forall k | k in m ensures r[k] == m[k] {
      if m[k].Map? {
        assert Map(m[k].m) == m[k];
        MergedSelf(m[k].m);
      }
    }
  }

  /** src does not reach the end of p: some segment is missing in src while
      every segment before it names a map. */
  predicate Absent(m: Data, p: seq<string>)
    decreases |p|
  {
    |p| >= 1 && (p[0] !in m || (|p| > 1 && m[p[0]].Map? && Absent(m[p[0]].m, p[1..])))
  }

  lemma {:induction false} AbsentIsNil(m: Data, p: seq<string>)
    requires Absent(m, p)
    ensures Lookup(m, p) == Nil
    decreases |p|
  {
    if p[0] in m {
      AbsentIsNil(m[p[0]].m, p[1..]);
    }
  }

  /** What a path reads after a merge, in every case: dst's value where src
      does not reach, the merge of the two where both hold maps, and src's
      value otherwise. */
  lemma {:induction false} LookupMerged(dst: Data, src: Data, p: seq<string>)
    requires |p| >= 1
    ensures Lookup(Merged(dst, src), p) ==
      if Absent(src, p) then Lookup(dst, p)
      else if Lookup(src, p).Map? && Lookup(dst, p).Map? then Map(Merged(Lookup(dst, p).m, Lookup(src, p).m))
      else Lookup(src, p)
    decreases |p|
  {
    var k := p[0];
    var r := Merged(dst, src);
    if k !in src {
    } else if |p| == 1 {
      assert |p[1..]| == 0;
      assert Lookup(r, p) == Walk(r[k], p[1..]) == r[k];
      assert Lookup(src, p) == Walk(src[k], p[1..]) == src[k];
      if k in dst {
        assert Lookup(dst, p) == Walk(dst[k], p[1..]) == dst[k];
      }
    } else if !src[k].Map? {
      assert r[k] == src[k];
      assert Lookup(r, p) == Walk(src[k], p[1..]) == Nil;
    } else if k in dst && dst[k].Map? {
      LookupMerged(dst[k].m, src[k].m, p[1..]);
      assert r[k] == Map(Merged(dst[k].m, src[k].m));
      assert Lookup(r, p) == Lookup(Merged(dst[k].m, src[k].m), p[1..]);
    } else {
      assert r[k] == src[k];
      assert Lookup(r, p) == Lookup(src, p);
      if k in dst {
        assert Lookup(dst, p) == Walk(dst[k], p[1..]) == Nil;
      }
      if Absent(src, p) {
        AbsentIsNil(src[k].m, p[1..]);
      }
    }
  }

  /** src wins: a path src holds a non-map value at reads src's value. */
  lemma MergedSrcWins(dst: Data, src: Data, p: seq<string>)
    requires |p| >= 1 && !Absent(src, p) && !Lookup(src, p).Map?
    ensures Lookup(Merged(dst, src), p) == Lookup(src, p)
  {
    LookupMerged(dst, src, p);
  }

  /** dst is kept: a path src does not reach reads dst's value. */
  lemma MergedKeepsDst(dst: Data, src: Data, p: seq<string>)
    requires Absent(src, p)
    ensures Lookup(Merged(dst, src), p) == Lookup(dst, p)
  {
    LookupMerged(dst, src, p);
  }

  /** Merging an empty src changes nothing; merging into an empty dst gives src. */
  lemma {:induction false} MergedIdentity(m: Data)
    ensures Merged(m, map[]) == m
    ensures Merged(map[], m) == m
  {
  }

  // ----- deepCopyMap / deepCopyValue -----

  /** deepCopyValue: maps and lists are rebuilt element by element, a
      []string is copied, and every other value is returned as it is. The
      copy equals the original. */
  function DeepCopyValue(v: Value): (r: Value)
    ensures r == v
    decreases v, 1
  {
    match v
    case Map(m) => Map(DeepCopyMap(m))
    case List(items) =>
      var copy := seq(|items|, i requires 0 <= i < |items| => DeepCopyValue(items[i]));
      assert copy == items;
      List(copy)
    case StrList(ss) =>
      var copy := seq(|ss|, i requires 0 <= i < |ss| => ss[i]);
      assert copy == ss;
      StrList(copy)
    case _ => v
  }

  /** deepCopyMap: a new map whose entries are copies. */
  function DeepCopyMap(m: Data): (r: Data)
    ensures r == m
    decreases Map(m), 0
  {
    map k | k in m :: DeepCopyValue(m[k])
  }

  // ----- collectKeys / AllKeys -----

  /** collectKeys' name for key k under prefix: k itself at the top level
      (empty prefix), otherwise prefix.k. */
  function FullKey(prefix: string, k: string): (r: string)
    ensures prefix == "" ==> r == k
    ensures prefix != "" ==> Under(prefix, r)
  {
    if prefix != "" then prefix + "." + k else k
  }

  /** x is a key below prefix: any key when the prefix is empty, otherwise
      the prefix, a dot, and more. */
  predicate Under(prefix: string, x: string)
  {
    prefix == "" || (|x| > |prefix| && x[..|prefix| + 1] == prefix + ".")
  }

  /** The keys collectKeys appends for the entries ks of m, as a multiset
      (the order follows Go's map iteration and is not fixed): a map value
      contributes the keys below it, any other value its own full key. */
  ghost function KeysOf(prefix: string, m: Data, ks: set<string>): (r: multiset<string>)
    requires ks <= m.Keys
    decreases Map(m), 1, ks
  {
    if ks == {} then multiset{}
    else
      var k :| k in ks;
      EntryKeys(prefix, m, k) + KeysOf(prefix, m, ks - {k})
  }

  ghost function EntryKeys(prefix: string, m: Data, k: string): (r: multiset<string>)
    requires k in m
    decreases Map(m), 0
  {
    if m[k].Map? then
      assert Map(m[k].m) == m[k];
      KeysOf(FullKey(prefix, k), m[k].m, m[k].m.Keys)
    else multiset{FullKey(prefix, k)}
  }

  /** The result does not depend on which entry is visited first. */
  lemma {:induction false} KeysOfSplit(prefix: string, m: Data, ks: set<string>, x: string)
    requires ks <= m.Keys && x in ks
    ensures KeysOf(prefix, m, ks) == EntryKeys(prefix, m, x) + KeysOf(prefix, m, ks - {x})
    decreases ks
  {
    var k :| k in ks && KeysOf(prefix, m, ks) == EntryKeys(prefix, m, k) + KeysOf(prefix, m, ks - {k});
    if k != x {
      KeysOfSplit(prefix, m, ks - {k}, x);
      KeysOfSplit(prefix, m, ks - {x}, k);
      assert ks - {k} - {x} == ks - {x} - {k};
    }
  }

  /** The keys one entry contributes: those below it for a map, its own
      full key otherwise. */
  lemma EntryKeysUnfold(prefix: string, m: Data, k: string)
    requires k in m
    ensures m[k].Map? ==> EntryKeys(prefix, m, k) == KeysOf(FullKey(prefix, k), m[k].m, m[k].m.Keys)
    ensures !m[k].Map? ==> EntryKeys(prefix, m, k) == multiset{FullKey(prefix, k)}
  {
  }

  /** One more entry visited adds its keys. */
  lemma KeysOfAdd(prefix: string, m: Data, done: set<string>, x: string)
    requires done <= m.Keys && x in m && x !in done
    ensures KeysOf(prefix, m, done + {x}) == KeysOf(prefix, m, done) + EntryKeys(prefix, m, x)
  {
    KeysOfSplit(prefix, m, done + {x}, x);
    assert done + {x} - {x} == done;
  }

  /** p leads through maps to a stored value that is not a map: the paths
      collectKeys lists. */
  predicate Leaf(m: Data, p: seq<string>)
    decreases |p|
  {
    |p| >= 1 && p[0] in m &&
    if |p| == 1 then !m[p[0]].Map? else m[p[0]].Map? && Leaf(m[p[0]].m, p[1..])
  }

  /** Every key at every level is a non-empty string without a dot, so that
      a dotted key names exactly one path. */
  predicate WellFormed(m: Data)
    decreases Map(m)
  {
    forall k | k in m :: k != "" && '.' !in k && (m[k].Map? ==> (assert Map(m[k].m) == m[k]; WellFormed(m[k].m)))
  }

  /** Joining a leaf path of a well-formed map and splitting it again gives
      the path back. */
  lemma {:induction false} LeafSegments(m: Data, p: seq<string>)
    requires WellFormed(m) && Leaf(m, p)
    ensures forall i :: 0 <= i < |p| ==> p[i] != "" && '.' !in p[i]
    decreases |p|
  {
    if |p| > 1 {
      LeafSegments(m[p[0]].m, p[1..]);
      forall i | 0 <= i < |p| ensures p[i] != "" && '.' !in p[i] {
        if i > 0 { assert p[i] == p[1..][i - 1]; }
      }
    }
  }

  /** Soundness: every collected key is the full key of a leaf path whose
      first segment is one of the visited entries. */
  lemma {:induction false} KeysOfSound(prefix: string, m: Data, ks: set<string>, x: string) returns (p: seq<string>)
    requires ks <= m.Keys && WellFormed(m) && x in KeysOf(prefix, m, ks)
    ensures Leaf(m, p) && p[0] in ks && x == FullKey(prefix, Join(p, '.'))
    decreases Map(m), ks
  {
    var k :| k in ks && KeysOf(prefix, m, ks) == EntryKeys(prefix, m, k) + KeysOf(prefix, m, ks - {k});
    if x in KeysOf(prefix, m, ks - {k}) {
      p := KeysOfSound(prefix, m, ks - {k}, x);
    } else if m[k].Map? {
      assert Map(m[k].m) == m[k];
      assert x in EntryKeys(prefix, m, k);
      assert k != "" && WellFormed(m[k].m);
      var q := KeysOfSound(FullKey(prefix, k), m[k].m, m[k].m.Keys, x);
      p := [k] + q;
      assert p[1..] == q;
      assert Join(p, '.') == k + "." + Join(q, '.');
      FullKeyNested(prefix, k, Join(q, '.'));
    } else {
      p := [k];
      assert x in EntryKeys(prefix, m, k);
    }
  }

  /** Every key collected below a prefix starts with that prefix and a dot. */
  lemma {:induction false} KeysOfUnder(prefix: string, m: Data, ks: set<string>, x: string)
    requires ks <= m.Keys && x in KeysOf(prefix, m, ks)
    ensures Under(prefix, x)
    decreases Map(m), ks
  {
    var k :| k in ks && KeysOf(prefix, m, ks) == EntryKeys(prefix, m, k) + KeysOf(prefix, m, ks - {k});
    if x in KeysOf(prefix, m, ks - {k}) {
      KeysOfUnder(prefix, m, ks - {k}, x);
    } else if m[k].Map? {
      assert Map(m[k].m) == m[k];
      assert x in EntryKeys(prefix, m, k);
      var full := FullKey(prefix, k);
      KeysOfUnder(full, m[k].m, m[k].m.Keys, x);
      if prefix != "" {
        assert x[..|full| + 1][..|prefix| + 1] == prefix + ".";
      }
    } else {
      assert x in EntryKeys(prefix, m, k);
    }
  }

  /** Completeness: the full key of every leaf path starting in ks is
      collected. */
  lemma {:induction false} KeysOfComplete(prefix: string, m: Data, ks: set<string>, p: seq<string>)
    requires ks <= m.Keys && WellFormed(m) && Leaf(m, p) && p[0] in ks
    ensures FullKey(prefix, Join(p, '.')) in KeysOf(prefix, m, ks)
    decreases Map(m)
  {
    var k := p[0];
    KeysOfSplit(prefix, m, ks, k);
    if |p| > 1 {
      assert Map(m[k].m) == m[k];
      assert k != "" && WellFormed(m[k].m);
      KeysOfComplete(FullKey(prefix, k), m[k].m, m[k].m.Keys, p[1..]);
      assert Join(p, '.') == k + "." + Join(p[1..], '.');
      FullKeyNested(prefix, k, Join(p[1..], '.'));
      assert FullKey(prefix, Join(p, '.')) in EntryKeys(prefix, m, k);
    } else {
      assert FullKey(prefix, Join(p, '.')) in EntryKeys(prefix, m, k);
    }
  }

  /** The full key of a nested entry is the full key of the dotted path. */
  lemma FullKeyNested(prefix: string, k: string, rest: string)
    requires k != ""
    ensures FullKey(FullKey(prefix, k), rest) == FullKey(prefix, k + "." + rest)
  {
    if prefix != "" {
      assert prefix + "." + k + "." + rest == prefix + "." + (k + "." + rest);
    }
  }

  /** Two distinct separator-free paths join to distinct keys. */
  lemma JoinInjective(p: seq<string>, q: seq<string>)
    requires |p| >= 1 && |q| >= 1
    requires forall i :: 0 <= i < |p| ==> '.' !in p[i]
    requires forall i :: 0 <= i < |q| ==> '.' !in q[i]
    requires Join(p, '.') == Join(q, '.')
    ensures p == q
  {
    SplitJoin(p, '.');
    SplitJoin(q, '.');
  }

  /** FullKey under a fixed prefix is injective. */
  lemma FullKeyInjective(prefix: string, a: string, b: string)
    requires FullKey(prefix, a) == FullKey(prefix, b)
    ensures a == b
  {
    if prefix != "" {
      var n := |prefix| + 1;
      assert a == FullKey(prefix, a)[n..];
      assert b == FullKey(prefix, b)[n..];
    }
  }

  /** No key is collected twice from a well-formed map. */
  lemma {:induction false} KeysOfUnique(prefix: string, m: Data, ks: set<string>, x: string)
    requires ks <= m.Keys && WellFormed(m)
    ensures KeysOf(prefix, m, ks)[x] <= 1
    decreases Map(m), ks
  {
    if ks != {} {
      var k :| k in ks && KeysOf(prefix, m, ks) == EntryKeys(prefix, m, k) + KeysOf(prefix, m, ks - {k});
      KeysOfUnique(prefix, m, ks - {k}, x);
      if m[k].Map? {
        assert Map(m[k].m) == m[k];
        KeysOfUnique(FullKey(prefix, k), m[k].m, m[k].m.Keys, x);
      }
      if x in EntryKeys(prefix, m, k) && x in KeysOf(prefix, m, ks - {k}) {
        var q := KeysOfSound(prefix, m, ks - {k}, x);
        var p := EntryLeaf(prefix, m, k, x);
        FullKeyInjective(prefix, Join(p, '.'), Join(q, '.'));
        LeafSegments(m, p);
        LeafSegments(m, q);
        JoinInjective(p, q);
        assert false;
      }
    }
  }

  /** A key collected for entry k comes from a leaf path starting at k. */
  lemma EntryLeaf(prefix: string, m: Data, k: string, x: string) returns (p: seq<string>)
    requires k in m && WellFormed(m) && x in EntryKeys(prefix, m, k)
    ensures Leaf(m, p) && p[0] == k && x == FullKey(prefix, Join(p, '.'))
  {
    var only := KeysOfSound(prefix, m, {k}, x);
    p := only;
    KeysOfSplit(prefix, m, {k}, k);
  }

  /** A leaf path reads back a value that is not a map; conversely every
      path that reads a value other than nil and other than a map is a leaf
      path. */
  lemma {:induction false} LeafLookup(m: Data, p: seq<string>)
    requires |p| >= 1
    ensures Leaf(m, p) ==> !Lookup(m, p).Map?
    ensures !Lookup(m, p).Nil? && !Lookup(m, p).Map? ==> Leaf(m, p)
    decreases |p|
  {
    if |p| > 1 && p[0] in m && m[p[0]].Map? {
      LeafLookup(m[p[0]].m, p[1..]);
    } else if |p| > 1 && p[0] in m {
      assert Lookup(m, p) == Walk(m[p[0]], p[1..]) == Nil;
    } else if |p| == 1 && p[0] in m {
      assert Lookup(m, p) == Walk(m[p[0]], p[1..]) == m[p[0]];
    }
  }

  /** What AllKeys lists for a well-formed map: exactly the keys whose
      path is a leaf path, each once. */
  lemma AllKeysExact(m: Data, x: string)
    requires WellFormed(m)
    ensures x in KeysOf("", m, m.Keys) <==> Leaf(m, Path(x))
    ensures KeysOf("", m, m.Keys)[x] <= 1
  {
    KeysOfUnique("", m, m.Keys, x);
    if x in KeysOf("", m, m.Keys) {
      var p := KeysOfSound("", m, m.Keys, x);
      LeafSegments(m, p);
      SplitJoin(p, '.');
    }
    if Leaf(m, Path(x)) {
      KeysOfComplete("", m, m.Keys, Path(x));
      JoinSplit(x, '.');
    }
  }
}
