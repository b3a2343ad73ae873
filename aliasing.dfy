/** Parse as the Go code runs it, with Go maps as shared objects: a heap of
    maps under addresses, where a map stored in another map is a reference.
    Here the merge stores the file's nested maps themselves in the final
    view, and a flag written under a dotted key then follows such a
    reference into the file's own map. The rest of the model works on
    values: there Parse leaves the file as it was loaded (the postcondition
    of MFlag.Context.Parse). */
module Aliasing {
  import opened Values
  import opened Text
  import opened Strconv
  import opened Tree
  import MFlag

  /** A map entry in memory: a value held directly, or a reference to a
      nested map. */
  datatype Cell = Direct(v: Value) | Ref(id: nat)

  /** The maps under their addresses; `next` is the address the next
      `make(map[string]interface{})` gets. */
  datatype Heap = Heap(maps: map<nat, map<string, Cell>>, next: nat)

  /** Every map in use lies below `next`, so `next` is free. */
  predicate Good(h: Heap)
  {
    forall id | id in h.maps :: id < h.next
  }

  /** r is h after allocations only added maps: the old addresses stay, and
      every new one is at or above h's `next`. */
  predicate Grows(h: Heap, r: Heap)
  {
    h.maps.Keys <= r.maps.Keys && h.next <= r.next
    && forall id | id in r.maps && id !in h.maps :: h.next <= id
  }

  /** A new empty map, at an address no map used before. */
  function Alloc(h: Heap): (r: (Heap, nat))
    requires Good(h)
    ensures Good(r.0) && Grows(h, r.0)
    ensures r.1 !in h.maps && r.0.maps.Keys == h.maps.Keys + {r.1} && r.0.maps[r.1] == map[]
    ensures forall id :: id in h.maps ==> r.0.maps[id] == h.maps[id]
  {
    (Heap(h.maps[h.next := map[]], h.next + 1), h.next)
  }

  /** Stores cell c under key k of the map at address id. */
  function Store(h: Heap, id: nat, k: string, c: Cell): (r: Heap)
    requires id in h.maps
    ensures r.maps.Keys == h.maps.Keys && r.next == h.next && r.maps[id] == h.maps[id][k := c]
    ensures forall j :: j in h.maps && j != id ==> r.maps[j] == h.maps[j]
  {
    h.(maps := h.maps[id := h.maps[id][k := c]])
  }

  /** What a dotted path reads from the map at address root, following
      references; None when a segment is missing or a direct value is in
      the way. */
  function Read(h: Heap, root: nat, p: seq<string>): (r: Option<Cell>)
    requires |p| >= 1
    ensures |p| == 1 ==> (r.Some? <==> root in h.maps && p[0] in h.maps[root])
    ensures |p| == 1 && r.Some? ==> r.value == h.maps[root][p[0]]
    ensures |p| > 1 && r.Some? ==> root in h.maps && p[0] in h.maps[root] && h.maps[root][p[0]].Ref?
    decreases |p|
  {
    if root !in h.maps || p[0] !in h.maps[root] then None
    else if |p| == 1 then Some(h.maps[root][p[0]])
    else match h.maps[root][p[0]]
      case Ref(id) => Read(h, id, p[1..])
      case Direct(_) => None
  }

  /** Reading p + q reads q from the nested map p refers to; nothing when p
      reads nothing or a direct value. */
  lemma {:induction false} ReadConcat(h: Heap, root: nat, p: seq<string>, q: seq<string>)
    requires |p| >= 1 && |q| >= 1
    ensures Read(h, root, p + q) == match Read(h, root, p) case Some(Ref(id)) => Read(h, id, q) case _ => None
    decreases |p|
  {
    assert (p + q)[0] == p[0];
    if |p| == 1 {
      assert (p + q)[1..] == q;
    } else if root in h.maps && p[0] in h.maps[root] && h.maps[root][p[0]].Ref? {
      assert (p + q)[1..] == p[1..] + q;
      ReadConcat(h, h.maps[root][p[0]].id, p[1..], q);
    }
  }

  /** The addresses of the maps SetValue's walk along p goes through,
      starting at cur: it follows a nested map by reference and stops at the
      last segment or where it has to make a new map. */
  ghost function Visited(h: Heap, cur: nat, p: seq<string>): set<nat>
    requires |p| >= 1
    decreases |p|
  {
    if |p| > 1 && cur in h.maps && p[0] in h.maps[cur] && h.maps[cur][p[0]].Ref? && h.maps[cur][p[0]].id in h.maps
    then {cur} + Visited(h, h.maps[cur][p[0]].id, p[1..])
    else {cur}
  }

  /** mapManager.SetValue on the map at address cur, as written: an
      existing nested map is followed by reference and written into; a
      missing or non-map entry is replaced by a new map. The heap only grows,
      and the maps it gains are new ones. */
  function SetValueAsWritten(h: Heap, cur: nat, p: seq<string>, c: Cell): (r: Heap)
    requires Good(h) && cur in h.maps && |p| >= 1
    ensures Good(r) && Grows(h, r)
    ensures |p| == 1 ==> r.maps[cur] == h.maps[cur][p[0] := c]
    ensures forall j | j in h.maps && j !in Visited(h, cur, p) :: r.maps[j] == h.maps[j]
    decreases |p|
  {
    var m := h.maps[cur];
    var k := p[0];
    if |p| == 1 then Store(h, cur, k, c)
    else if k in m && m[k].Ref? && m[k].id in h.maps then SetValueAsWritten(h, m[k].id, p[1..], c)
    else
      var (h1, id) := Alloc(h);
      SetValueAsWritten(Store(h1, cur, k, Ref(id)), id, p[1..], c)
  }

  /** mergeMaps(dst, src) as written, over the entries of src still to
      visit: where both hold maps they are merged in place, otherwise src's
      entry is stored in dst as it is, a reference to src's nested map
      included. `fuel` bounds the nesting depth followed. */
  ghost function MergeAsWritten(h: Heap, dst: nat, entries: map<string, Cell>, todo: set<string>, fuel: nat): (r: Heap)
    requires dst in h.maps && todo <= entries.Keys
    ensures r.maps.Keys == h.maps.Keys && r.next == h.next
    decreases fuel, todo
  {
    if todo == {} then h
    else
      var key :| key in todo;
      var srcVal := entries[key];
      var dm := h.maps[dst];
      var h1 :=
        if fuel > 0 && key in dm && dm[key].Ref? && srcVal.Ref? && dm[key].id in h.maps && srcVal.id in h.maps then
          var src := h.maps[srcVal.id];
          MergeAsWritten(h, dm[key].id, src, src.Keys, fuel - 1)
        else Store(h, dst, key, srcVal);
      MergeAsWritten(h1, dst, entries, todo - {key}, fuel)
  }

  /** deepCopyMap as written: a new map, with every nested map copied in
      turn. The copy is at a new address and has the original's keys, and
      no map that existed before changes. */
  ghost function CloneAsWritten(h: Heap, id: nat, fuel: nat): (r: (Heap, nat))
    requires Good(h) && id in h.maps
    ensures Good(r.0) && Grows(h, r.0)
    ensures r.1 in r.0.maps && r.1 !in h.maps && r.0.maps[r.1].Keys == h.maps[id].Keys
    ensures forall j | j in h.maps :: r.0.maps[j] == h.maps[j]
    ensures forall k | k in h.maps[id] && h.maps[id][k].Direct? :: r.0.maps[r.1][k] == h.maps[id][k]
    ensures forall k | k in h.maps[id] && h.maps[id][k].Ref? && fuel > 0 && h.maps[id][k].id in h.maps ::
              r.0.maps[r.1][k].Ref? && r.0.maps[r.1][k].id !in h.maps
    decreases fuel, 2
  {
    var (h1, copy) := Alloc(h);
    (CopyEntries(h1, copy, h.maps[id], h.maps[id].Keys, fuel), copy)
  }

  /** Copies the entries todo into the map at dst: each direct value as it
      is, each nested map as a new copy; dst gains exactly those keys and no
      other existing map changes. */
  ghost function CopyEntries(h: Heap, dst: nat, entries: map<string, Cell>, todo: set<string>, fuel: nat): (r: Heap)
    requires Good(h) && dst in h.maps && todo <= entries.Keys
    ensures Good(r) && Grows(h, r)
    ensures r.maps[dst].Keys == h.maps[dst].Keys + todo
    ensures forall k | k in todo && entries[k].Direct? :: r.maps[dst][k] == entries[k]
    ensures forall k | k in todo && entries[k].Ref? && fuel > 0 && entries[k].id in h.maps ::
              r.maps[dst][k].Ref? && r.maps[dst][k].id !in h.maps
    ensures forall k | k in h.maps[dst] && k !in todo :: r.maps[dst][k] == h.maps[dst][k]
    ensures forall j | j in h.maps && j != dst :: r.maps[j] == h.maps[j]
    decreases fuel, 1, todo
  {
    if todo == {} then h
    else
      var k :| k in todo;
      CopyEntries(CopyOne(h, dst, k, entries[k], fuel), dst, entries, todo - {k}, fuel)
  }

  /** One step of deepCopyMap's loop: cell c stored under key k of the map
      at dst, a nested map as a new copy. */
  ghost function CopyOne(h: Heap, dst: nat, k: string, c: Cell, fuel: nat): (r: Heap)
    requires Good(h) && dst in h.maps
    ensures Good(r) && Grows(h, r)
    ensures r.maps[dst].Keys == h.maps[dst].Keys + {k}
    ensures forall x | x in h.maps[dst] && x != k :: r.maps[dst][x] == h.maps[dst][x]
    ensures c.Direct? ==> r.maps[dst][k] == c
    ensures c.Ref? && fuel > 0 && c.id in h.maps ==> r.maps[dst][k].Ref? && r.maps[dst][k].id !in h.maps
    ensures forall j | j in h.maps && j != dst :: r.maps[j] == h.maps[j]
    decreases fuel, 0
  {
    if fuel > 0 && c.Ref? && c.id in h.maps then
      var (h2, copy) := CloneAsWritten(h, c.id, fuel - 1);
      Store(h2, dst, k, Ref(copy))
    else Store(h, dst, k, c)
  }

  /** Writes the flags, in order, into the map at address root. */
  function WriteFlags(h: Heap, root: nat, flags: seq<MFlag.Flag>): (r: Heap)
    requires Good(h) && root in h.maps
    ensures Good(r) && Grows(h, r)
    decreases |flags|
  {
    if |flags| == 0 then h
    else WriteFlags(SetValueAsWritten(h, root, Path(flags[0].name), Direct(flags[0].value)), root, flags[1..])
  }

  /** Parse as written: the final view is a deep copy of the defaults at
      address defaults, the file's map at address config is merged into
      it, and the flags are written into it. Returns the heap and the final
      view's address. */
  ghost function ParseAsWritten(h: Heap, defaults: nat, config: nat, flags: seq<MFlag.Flag>, fuel: nat): (r: (Heap, nat))
    requires Good(h) && defaults in h.maps && config in h.maps
    ensures Good(r.0) && Grows(h, r.0) && r.1 in r.0.maps && r.1 !in h.maps
  {
    var (h1, final) := CloneAsWritten(h, defaults, fuel);
    var src := h1.maps[config];
    var h2 := MergeAsWritten(h1, final, src, src.Keys, fuel);
    (WriteFlags(h2, final, flags), final)
  }

  /** The heap before Parse: empty defaults at address 0, and a loaded file
      at address 1 holding {db: {user: "u"}}, the nested map at address 2. */
  function Before(): Heap
  {
    Heap(map[0 := map[], 1 := map["db" := Ref(2)], 2 := map["user" := Direct(Str("u"))]], 3)
  }

  lemma DbHostPath()
    ensures Path("db.host") == ["db", "host"]
  {
    SplitAppend("db", "host", '.');
    SplitNoSep("host", '.');
    assert "db.host" == "db" + ['.'] + "host";
  }

  /** Step one of the counterexample: the final view is a new empty map at
      address 3. */
  lemma CloneStep()
    ensures CloneAsWritten(Before(), 0, 1) == (Heap(Before().maps[3 := map[]], 4), 3)
  {
    var (h1, copy) := Alloc(Before());
    assert copy == 3;
    assert CopyEntries(h1, copy, map[], {}, 1) == h1;
  }

  /** Step two: merging the file stores a reference to the file's own
      nested map (address 2) in the final view. */
  lemma MergeStep(h1: Heap)
    requires h1 == Heap(Before().maps[3 := map[]], 4)
    ensures MergeAsWritten(h1, 3, h1.maps[1], h1.maps[1].Keys, 1) == Store(h1, 3, "db", Ref(2))
  {
    var src := h1.maps[1];
    assert src == map["db" := Ref(2)] && src.Keys == {"db"};
    assert "db" !in h1.maps[3];
    var stored := Store(h1, 3, "db", Ref(2));
    assert {"db"} - {"db"} == {};
    assert MergeAsWritten(stored, 3, src, {}, 1) == stored;
  }

  /** Step three: SetValue of db.host follows that reference and writes
      into the map at address 2. */
  lemma SetStep(h2: Heap)
    requires h2 == Store(Heap(Before().maps[3 := map[]], 4), 3, "db", Ref(2))
    ensures SetValueAsWritten(h2, 3, ["db", "host"], Direct(Str("f"))) == Store(h2, 2, "host", Direct(Str("f")))
  {
    assert h2.maps[3]["db"] == Ref(2) && 2 in h2.maps;
    assert ["db", "host"][1..] == ["host"];
  }

  /** The same step as Parse takes it, through the flag's dotted name. */
  lemma WriteStep(h2: Heap)
    requires h2 == Store(Heap(Before().maps[3 := map[]], 4), 3, "db", Ref(2))
    ensures WriteFlags(h2, 3, [MFlag.Flag("db.host", Str("f"))]) == Store(h2, 2, "host", Direct(Str("f")))
  {
    DbHostPath();
    SetStep(h2);
    var flags := [MFlag.Flag("db.host", Str("f"))];
    var h3 := Store(h2, 2, "host", Direct(Str("f")));
    assert WriteFlags(h2, 3, flags) == WriteFlags(h3, 3, flags[1..]);
  }

  /** The heap after Parse as written, step by step: the final view at
      address 3 refers to the file's nested map, which now holds db.host. */
  function After(): Heap
  {
    Store(Store(Heap(Before().maps[3 := map[]], 4), 3, "db", Ref(2)), 2, "host", Direct(Str("f")))
  }

  lemma ParseSteps()
    ensures ParseAsWritten(Before(), 0, 1, [MFlag.Flag("db.host", Str("f"))], 1) == (After(), 3)
  {
    CloneStep();
    var h1 := Heap(Before().maps[3 := map[]], 4);
    MergeStep(h1);
    WriteStep(Store(h1, 3, "db", Ref(2)));
  }

  /** What db.host reads from the file's map before and after, and from the
      final view. */
  lemma ReadsAround()
    ensures Read(Before(), 1, ["db", "host"]) == None
    ensures Read(After(), 1, ["db", "host"]) == Some(Direct(Str("f")))
    ensures Read(After(), 3, ["db", "host"]) == Some(Direct(Str("f")))
  {
    var h := After();
    assert ["db", "host"][1..] == ["host"];
    assert Before().maps[1]["db"] == Ref(2) && "host" !in Before().maps[2];
    assert h.maps[1]["db"] == Ref(2) && h.maps[3]["db"] == Ref(2);
    assert h.maps[2]["host"] == Direct(Str("f"));
  }

  /** The counterexample: with no defaults, the file {db: {user: "u"}} and
      a flag db.host = "f", Parse as written changes what the file's own
      configuration holds at db.host from nothing to the flag's value. */
  lemma ParseWritesIntoConfig()
    ensures var after := ParseAsWritten(Before(), 0, 1, [MFlag.Flag("db.host", Str("f"))], 1);
      Read(Before(), 1, ["db", "host"]) == None
      && Read(after.0, 1, ["db", "host"]) == Some(Direct(Str("f")))
      && Read(after.0, after.1, ["db", "host"]) == Some(Direct(Str("f")))
  {
    ParseSteps();
    ReadsAround();
  }
}
