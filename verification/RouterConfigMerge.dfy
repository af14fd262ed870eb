/** scripts/conductor_wiring.py: regenerating conductor-router.json over an existing, hand-edited one. */
module RouterConfigMerge {
  import opened Wrappers
  import opened JsonMerge

  type Path = p: seq<string> | p != [] witness [""]

  /** Neither path leads through the other. */
  predicate Apart(p: Path, q: Path) {
    !(p <= q) && !(q <= p)
  }

  predicate ApartFromAll(keys: seq<Path>, q: Path) {
    forall key :: key in keys ==> Apart(key, q)
  }

  predicate PairwiseApart(keys: seq<Path>) {
    forall i, j :: 0 <= i < j < |keys| ==> Apart(keys[i], keys[j])
  }

  function FieldsAt(doc: Fields, k: string): Fields {
    if k in doc && doc[k].Obj? then doc[k].fields else map[]
  }

  /** _set_path: whatever is not an object on the way becomes one. */
  function SetPath(doc: Fields, path: Path, value: Json): Fields
    decreases |path|
  {
    if |path| == 1 then doc[path[0] := value]
    else doc[path[0] := Obj(SetPath(FieldsAt(doc, path[0]), path[1..], value))]
  }

  /** The value at a path that starts inside value. */
  function Beneath(value: Json, rest: seq<string>): Option<Json> {
    if rest == [] then Some(value) else if value.Obj? then Lookup(value.fields, rest) else None
  }

  lemma {:induction false} LookupBeneath(doc: Fields, p: Path, q: Path)
    requires p <= q && Lookup(doc, p).Some?
    ensures Lookup(doc, q) == Beneath(Lookup(doc, p).value, q[|p|..])
    decreases |p|
  {
    if |p| > 1 {
      LookupBeneath(doc[p[0]].fields, p[1..], q[1..]);
      assert q[1..][|p[1..]|..] == q[|p|..];
    } else {
      assert |q| == 1 ==> q == p;
    }
  }

  /** Setting a path is seen at the path and below it, and nowhere that neither leads through the other. */
  lemma {:induction false} SetPathLookup(doc: Fields, path: Path, value: Json, q: Path)
    ensures Apart(path, q) ==> Lookup(SetPath(doc, path, value), q) == Lookup(doc, q)
    ensures path <= q ==> Lookup(SetPath(doc, path, value), q) == Beneath(value, q[|path|..])
    decreases |path|
  {
    if path[0] == q[0] {
      if |path| > 1 && |q| > 1 {
        SetPathLookup(FieldsAt(doc, path[0]), path[1..], value, q[1..]);
        Tails(path, q);
        NothingInNothing(q[1..]);
        assert path <= q ==> q[1..][|path[1..]|..] == q[|path|..];
      } else {
        assert path <= q || q <= path;
      }
    }
  }

  lemma Tails(p: Path, q: Path)
    requires |p| > 1 && |q| > 1 && p[0] == q[0]
    ensures p <= q <==> p[1..] <= q[1..]
    ensures q <= p <==> q[1..] <= p[1..]
  {
    assert p == [p[0]] + p[1..];
    assert q == [q[0]] + q[1..];
  }

  lemma NothingInNothing(q: Path)
    ensures Lookup(map[], q) == None
  {
  }

  /** The loop over the machine keys; None is the KeyError of a generated document without one. */
  function SetAll(doc: Fields, from: Fields, keys: seq<Path>): Option<Fields>
    decreases |keys|
  {
    if keys == [] then Some(doc)
    else match Lookup(from, keys[0])
      case None => None
      case Some(v) => SetAll(SetPath(doc, keys[0], v), from, keys[1..])
  }

  ghost predicate Complete(from: Fields, keys: seq<Path>) {
    forall key :: key in keys ==> Lookup(from, key).Some?
  }

  lemma {:induction false} SetAllDefined(doc: Fields, from: Fields, keys: seq<Path>)
    ensures SetAll(doc, from, keys).Some? <==> Complete(from, keys)
    decreases |keys|
  {
    if keys != [] && Lookup(from, keys[0]).Some? {
      SetAllDefined(SetPath(doc, keys[0], Lookup(from, keys[0]).value), from, keys[1..]);
    }
  }

  lemma {:induction false} SetAllElsewhere(doc: Fields, from: Fields, keys: seq<Path>, q: Path)
    requires Complete(from, keys) && ApartFromAll(keys, q) && SetAll(doc, from, keys).Some?
    ensures Lookup(SetAll(doc, from, keys).value, q) == Lookup(doc, q)
    decreases |keys|
  {
    if keys != [] {
      var v := Lookup(from, keys[0]).value;
      SetPathLookup(doc, keys[0], v, q);
      SetAllElsewhere(SetPath(doc, keys[0], v), from, keys[1..], q);
    }
  }

  lemma {:induction false} SetAllAt(doc: Fields, from: Fields, keys: seq<Path>, key: Path, q: Path)
    requires Complete(from, keys) && PairwiseApart(keys) && SetAll(doc, from, keys).Some?
    requires key in keys && key <= q
    ensures Lookup(SetAll(doc, from, keys).value, q) == Lookup(from, q)
    decreases |keys|
  {
    var v := Lookup(from, keys[0]).value;
    if key == keys[0] {
      SetPathLookup(doc, key, v, q);
      LookupBeneath(from, key, q);
      assert ApartFromAll(keys[1..], q);
      SetAllElsewhere(SetPath(doc, key, v), from, keys[1..], q);
    } else {
      SetAllAt(SetPath(doc, keys[0], v), from, keys[1..], key, q);
    }
  }

  // ----- merge_router_config -----

  const MACHINE_KEYS: seq<Path> := [
    ["version"], ["listen", "host"], ["listen", "port"], ["upstream", "host"], ["upstream", "port"],
    ["admission", "maxInflightPerModel"], ["admission", "queueTimeoutMs"], ["metrics", "ledgerPath"]]

  lemma MachineKeysApart()
    ensures PairwiseApart(MACHINE_KEYS) && forall key :: key in MACHINE_KEYS ==> |key| <= 2
  {
    assert "version"[0] == 'v' && "listen"[0] == 'l' && "upstream"[0] == 'u' && "admission"[0] == 'a';
    assert "metrics"[0] == 'm' && "host"[0] == 'h' && "port"[0] == 'p';
    assert "maxInflightPerModel"[0] == 'm' && "queueTimeoutMs"[0] == 'q';
    forall i, j | 0 <= i < j < |MACHINE_KEYS|
      ensures Apart(MACHINE_KEYS[i], MACHINE_KEYS[j])
    {
      var p, q := MACHINE_KEYS[i], MACHINE_KEYS[j];
      assert p[0] != q[0] || (|p| == 2 && |q| == 2 && p[1] != q[1]);
    }
  }

  /** What only the current run decides. */
  predicate MachineOwned(key: Path) {
    key in {["version"], ["listen", "host"], ["listen", "port"], ["upstream", "host"], ["upstream", "port"],
            ["admission", "maxInflightPerModel"], ["admission", "queueTimeoutMs"], ["metrics", "ledgerPath"]}
  }

  lemma MachineKeysAre(key: Path)
    ensures key in MACHINE_KEYS <==> MachineOwned(key)
  {
    assert MACHINE_KEYS[0] == ["version"] && MACHINE_KEYS[1] == ["listen", "host"];
    assert MACHINE_KEYS[2] == ["listen", "port"] && MACHINE_KEYS[3] == ["upstream", "host"];
    assert MACHINE_KEYS[4] == ["upstream", "port"] && MACHINE_KEYS[5] == ["admission", "maxInflightPerModel"];
    assert MACHINE_KEYS[6] == ["admission", "queueTimeoutMs"] && MACHINE_KEYS[7] == ["metrics", "ledgerPath"];
  }

  /** The generated document is taken as it is. */
  predicate TakesGenerated(existing: Option<Json>, anew: bool) {
    anew || existing.None? || !existing.value.Obj? || existing.value.fields == map[]
  }

  function Refreshed(existing: Option<Json>, generated: Fields, anew: bool, keys: seq<Path>): Option<Fields> {
    if TakesGenerated(existing, anew) then Some(generated)
    else SetAll(Merge(generated, existing.value.fields), generated, keys)
  }

  function RouterConfig(existing: Option<Json>, generated: Fields, anew: bool): Option<Fields> {
    Refreshed(existing, generated, anew, MACHINE_KEYS)
  }

  method MergeRouterConfig(existing: Option<Json>, generated: Fields, anew: bool) returns (config: Option<Fields>)
    ensures config == RouterConfig(existing, generated, anew)
  {
    if anew || existing.None? || !existing.value.Obj? || existing.value.fields == map[] {
      return Some(generated);
    }
    var merged := DeepMerge(generated, existing.value.fields);
    var i := 0;
    while i < |MACHINE_KEYS|
      invariant 0 <= i <= |MACHINE_KEYS|
      invariant SetAll(merged, generated, MACHINE_KEYS[i..]) == RouterConfig(existing, generated, anew)
    {
      var value := Lookup(generated, MACHINE_KEYS[i]);
      if value.None? {
        return None;
      }
      merged := SetPath(merged, MACHINE_KEYS[i], value.value);
      i := i + 1;
    }
    return Some(merged);
  }

  /** A machine key, and everything below it, is the generated document's. */
  lemma MachineKeysRefreshed(existing: Option<Json>, generated: Fields, anew: bool, key: Path, q: Path)
    requires RouterConfig(existing, generated, anew).Some?
    requires MachineOwned(key) && key <= q
    ensures Lookup(RouterConfig(existing, generated, anew).value, q) == Lookup(generated, q)
  {
    MachineKeysAre(key);
    if !TakesGenerated(existing, anew) {
      var merged := Merge(generated, existing.value.fields);
      MachineKeysApart();
      SetAllDefined(merged, generated, MACHINE_KEYS);
      SetAllAt(merged, generated, MACHINE_KEYS, key, q);
    }
  }

  /**
   Away from the machine keys every hand edit survives: a value of the existing document other than an object is
   there unchanged, and where the existing document has nothing, and nothing in the way, the generated one stands.
   */
  lemma HandEditsSurvive(existing: Fields, generated: Fields, q: Path)
    requires existing != map[] && RouterConfig(Some(Obj(existing)), generated, false).Some?
    requires forall key :: MachineOwned(key) ==> Apart(key, q)
    ensures var now := Lookup(RouterConfig(Some(Obj(existing)), generated, false).value, q);
            match Lookup(existing, q)
            case Some(v) => now.Some? && (v.Obj? <==> now.value.Obj?) && (!v.Obj? ==> now.value == v)
            case None => now == if Blocked(existing, q) then None else Lookup(generated, q)
  {
    var merged := Merge(generated, existing);
    forall key | key in MACHINE_KEYS
      ensures Apart(key, q)
    {
      MachineKeysAre(key);
    }
    SetAllDefined(merged, generated, MACHINE_KEYS);
    SetAllElsewhere(merged, generated, MACHINE_KEYS, q);
    MergeByPath(generated, existing, q);
  }

  /** A document made anew, and one in the place of nothing, of something else than an object, or of an empty one. */
  lemma TakenAsGenerated(existing: Option<Json>, generated: Fields, anew: bool)
    requires anew || existing == None || !existing.value.Obj? || existing == Some(Obj(map[]))
    ensures RouterConfig(existing, generated, anew) == Some(generated)
  {
  }

  // ----- When regenerating again changes nothing -----

  /**
   Wherever the existing document has something other than an object in place of a block, the generated block has
   only machine keys.
   */
  ghost predicate Covered(existing: Fields, generated: Fields, keys: seq<Path>) {
    forall key: Path, n: string ::
      key in keys && |key| == 2 && key[0] in existing && !existing[key[0]].Obj? && n in FieldsAt(generated, key[0]) ==>
      [key[0], n] in keys
  }

  /** A path of at most two names is a key, below a key, above one, or apart from all. */
  lemma Placed(keys: seq<Path>, k: string)
    requires PairwiseApart(keys) && forall key :: key in keys ==> |key| <= 2
    requires [k] !in keys && !ApartFromAll(keys, [k])
    ensures exists key :: key in keys && |key| == 2 && key[0] == k
    ensures forall n :: [k, n] in keys || ApartFromAll(keys, [k, n])
  {
    var key :| key in keys && !Apart(key, [k]);
    assert key[0] == k;
    assert |key| == 1 ==> key == [k];
    forall n, other | [k, n] !in keys && other in keys
      ensures Apart(other, [k, n])
    {
      assert |other| == 1 && other[0] == k ==> other == [k];
      assert |other| == 2 && other[0] == k && other[1] == n ==> other == [k, n];
    }
  }

  /** Two documents that agree at the keys and away from them, down to the second name, are the same. */
  lemma SameDocument(a: Fields, b: Fields, keys: seq<Path>)
    requires PairwiseApart(keys) && forall key :: key in keys ==> |key| <= 2
    requires forall key :: key in keys ==> Lookup(a, key).Some? && Lookup(a, key) == Lookup(b, key)
    requires forall q: Path :: |q| <= 2 && ApartFromAll(keys, q) ==> Lookup(a, q) == Lookup(b, q)
    ensures a == b
  {
    forall k: string
      ensures (k in a <==> k in b) && (k in a ==> a[k] == b[k])
    {
      if [k] in keys || ApartFromAll(keys, [k]) {
        assert Lookup(a, [k]) == Lookup(b, [k]);
      } else {
        SameBlock(a, b, keys, k);
      }
    }
  }

  lemma SameBlock(a: Fields, b: Fields, keys: seq<Path>, k: string)
    requires PairwiseApart(keys) && forall key :: key in keys ==> |key| <= 2
    requires forall key :: key in keys ==> Lookup(a, key).Some? && Lookup(a, key) == Lookup(b, key)
    requires forall q: Path :: |q| <= 2 && ApartFromAll(keys, q) ==> Lookup(a, q) == Lookup(b, q)
    requires [k] !in keys && !ApartFromAll(keys, [k])
    ensures k in a && k in b && a[k] == b[k]
  {
    Placed(keys, k);
    var key :| key in keys && |key| == 2 && key[0] == k;
    assert Lookup(a, key).Some? && Lookup(b, key).Some?;
    forall n: string
      ensures Get(a[k].fields, n) == Get(b[k].fields, n)
    {
      Inside(a, k, n);
      Inside(b, k, n);
      assert Lookup(a, [k, n]) == Lookup(b, [k, n]);
    }
    SameFields(a[k].fields, b[k].fields);
  }

  lemma Above(k: string, q: Path)
    requires q[0] == k
    ensures [k] <= q && !Apart([k], q) && !Apart(q, [k])
  {
  }

  lemma KeysApart(keys: seq<Path>, i: nat, j: nat)
    requires PairwiseApart(keys) && i < |keys| && j < |keys| && i != j
    ensures Apart(keys[i], keys[j])
  {
    assert Apart(keys[if i < j then i else j], keys[if i < j then j else i]);
  }

  lemma DistinctKeys(keys: seq<Path>, p: Path, q: Path)
    requires PairwiseApart(keys) && p in keys && !Apart(p, q) && p != q
    ensures q !in keys
  {
    var i :| 0 <= i < |keys| && keys[i] == p;
    forall j | 0 <= j < |keys| && j != i
      ensures Apart(p, keys[j])
    {
      KeysApart(keys, i, j);
    }
  }

  lemma Inside(doc: Fields, k: string, n: string)
    requires k in doc && doc[k].Obj?
    ensures Lookup(doc, [k, n]) == Get(doc[k].fields, n)
  {
    assert [k, n][1..] == [n];
  }

  /** Away from the keys, a second pass finds what the first one left. */
  lemma SecondPassAgrees(existing: Fields, generated: Fields, keys: seq<Path>, first: Fields, q: Path)
    requires PairwiseApart(keys) && (forall key :: key in keys ==> |key| <= 2) && Complete(generated, keys)
    requires Some(first) == SetAll(Merge(generated, existing), generated, keys)
    requires Covered(existing, generated, keys) && |q| <= 2 && ApartFromAll(keys, q)
    ensures Lookup(Merge(generated, first), q) == Lookup(first, q)
  {
    SetAllElsewhere(Merge(generated, existing), generated, keys, q);
    MergeByPath(generated, existing, q);
    MergeByPath(generated, first, q);
    match Lookup(first, q) {
      case Some(v) =>
        if v.Obj? && Lookup(generated, q).Some? && Lookup(generated, q).value.Obj? {
          var g := Lookup(generated, q).value.fields;
          MergeSelf(g);
          if Lookup(existing, q).Some? {
            TargetIdempotent(g, Lookup(existing, q).value.fields);
          }
        }
      case None =>
        if |q| == 2 && Blocked(existing, q) {
          StillBlocked(existing, generated, keys, first, q);
        }
    }
  }

  lemma StillBlocked(existing: Fields, generated: Fields, keys: seq<Path>, first: Fields, q: Path)
    requires PairwiseApart(keys) && (forall key :: key in keys ==> |key| <= 2) && Complete(generated, keys)
    requires Some(first) == SetAll(Merge(generated, existing), generated, keys)
    requires Covered(existing, generated, keys) && |q| == 2 && ApartFromAll(keys, q)
    requires Blocked(existing, q) && Lookup(existing, q) == None
    ensures Blocked(first, q) || Lookup(generated, q) == None
  {
    var k := q[0];
    assert q == [k, q[1]];
    assert k in existing && !existing[k].Obj?;
    if ApartFromAll(keys, [k]) {
      SetAllElsewhere(Merge(generated, existing), generated, keys, [k]);
    } else {
      Above(k, q);
      Placed(keys, k);
      var key :| key in keys && |key| == 2 && key[0] == k;
      assert !Apart(q, q);
      assert q[1] !in FieldsAt(generated, k);
    }
  }

  lemma CoveredIsStable(existing: Fields, generated: Fields, keys: seq<Path>, first: Fields, second: Fields)
    requires PairwiseApart(keys) && (forall key :: key in keys ==> |key| <= 2) && Complete(generated, keys)
    requires Some(first) == SetAll(Merge(generated, existing), generated, keys)
    requires Some(second) == SetAll(Merge(generated, first), generated, keys)
    requires Covered(existing, generated, keys)
    ensures first == second
  {
    forall key | key in keys
      ensures Lookup(first, key).Some? && Lookup(first, key) == Lookup(second, key)
    {
      SetAllAt(Merge(generated, existing), generated, keys, key, key);
      SetAllAt(Merge(generated, first), generated, keys, key, key);
    }
    forall q: Path | |q| <= 2 && ApartFromAll(keys, q)
      ensures Lookup(first, q) == Lookup(second, q)
    {
      SetAllElsewhere(Merge(generated, first), generated, keys, q);
      SecondPassAgrees(existing, generated, keys, first, q);
    }
    SameDocument(first, second, keys);
  }

  /** The first pass drops what the existing value hid; the second brings the generated value back. */
  lemma HiddenComesBack(existing: Fields, generated: Fields, keys: seq<Path>, key: Path, n: string, first: Fields,
                        second: Fields)
    requires PairwiseApart(keys) && (forall key :: key in keys ==> |key| <= 2) && Complete(generated, keys)
    requires Some(first) == SetAll(Merge(generated, existing), generated, keys)
    requires Some(second) == SetAll(Merge(generated, first), generated, keys)
    requires key in keys && |key| == 2 && key[0] in existing && !existing[key[0]].Obj?
    requires n in FieldsAt(generated, key[0]) && [key[0], n] !in keys
    ensures Lookup(first, [key[0], n]) == None
    ensures Lookup(second, [key[0], n]) == Lookup(generated, [key[0], n]) != None
  {
    var k := key[0];
    var q: Path := [k, n];
    Above(k, key);
    DistinctKeys(keys, key, [k]);
    Placed(keys, k);
    SetAllElsewhere(Merge(generated, existing), generated, keys, q);
    SetAllElsewhere(Merge(generated, first), generated, keys, q);
    SetAllAt(Merge(generated, existing), generated, keys, key, key);
    MergeByPath(generated, existing, q);
    MergeByPath(generated, first, q);
    assert q[1..] == [n];
    assert Lookup(first, key).Some?;
  }

  lemma UncoveredChanges(existing: Fields, generated: Fields, keys: seq<Path>, first: Fields, second: Fields)
    requires PairwiseApart(keys) && (forall key :: key in keys ==> |key| <= 2) && Complete(generated, keys)
    requires Some(first) == SetAll(Merge(generated, existing), generated, keys)
    requires Some(second) == SetAll(Merge(generated, first), generated, keys)
    requires !Covered(existing, generated, keys)
    ensures first != second
  {
    var key: Path, n: string :|
      key in keys && |key| == 2 && key[0] in existing && !existing[key[0]].Obj? && n in FieldsAt(generated, key[0]) &&
      [key[0], n] !in keys;
    HiddenComesBack(existing, generated, keys, key, n, first, second);
  }

  lemma GeneratedIsStable(generated: Fields, keys: seq<Path>, second: Fields)
    requires PairwiseApart(keys) && (forall key :: key in keys ==> |key| <= 2) && Complete(generated, keys)
    requires Some(second) == SetAll(Merge(generated, generated), generated, keys)
    ensures second == generated
  {
    MergeSelf(generated);
    forall key | key in keys
      ensures Lookup(second, key).Some? && Lookup(second, key) == Lookup(generated, key)
    {
      SetAllAt(generated, generated, keys, key, key);
    }
    forall q: Path | |q| <= 2 && ApartFromAll(keys, q)
      ensures Lookup(second, q) == Lookup(generated, q)
    {
      SetAllElsewhere(generated, generated, keys, q);
    }
    SameDocument(second, generated, keys);
  }

  lemma RefreshStable(existing: Fields, generated: Fields, keys: seq<Path>, first: Fields)
    requires PairwiseApart(keys) && (forall key :: key in keys ==> |key| <= 2) && Complete(generated, keys)
    requires Some(first) == SetAll(Merge(generated, existing), generated, keys)
    ensures SetAll(Merge(generated, first), generated, keys) == Some(first) <==> Covered(existing, generated, keys)
  {
    SetAllDefined(Merge(generated, first), generated, keys);
    var second := SetAll(Merge(generated, first), generated, keys).value;
    if Covered(existing, generated, keys) {
      CoveredIsStable(existing, generated, keys, first, second);
    } else {
      UncoveredChanges(existing, generated, keys, first, second);
    }
  }

  lemma NotEmpty(existing: Option<Json>, generated: Fields, anew: bool, keys: seq<Path>, first: Fields)
    requires Complete(generated, keys) && PairwiseApart(keys) && keys != []
    requires Refreshed(existing, generated, anew, keys) == Some(first)
    ensures first != map[]
  {
    if !TakesGenerated(existing, anew) {
      SetAllAt(Merge(generated, existing.value.fields), generated, keys, keys[0], keys[0]);
    }
    assert Lookup(first, keys[0]).Some?;
    NothingInNothing(keys[0]);
  }

  lemma Regenerated(existing: Option<Json>, generated: Fields, anew: bool, keys: seq<Path>, first: Fields)
    requires keys != [] && Complete(generated, keys) && PairwiseApart(keys)
    requires forall key :: key in keys ==> |key| <= 2
    requires Refreshed(existing, generated, anew, keys) == Some(first)
    ensures Refreshed(Some(Obj(first)), generated, false, keys) == Some(first) <==>
            TakesGenerated(existing, anew) || Covered(existing.value.fields, generated, keys)
  {
    NotEmpty(existing, generated, anew, keys, first);
    if TakesGenerated(existing, anew) {
      SetAllDefined(Merge(generated, generated), generated, keys);
      GeneratedIsStable(generated, keys, SetAll(Merge(generated, generated), generated, keys).value);
    } else {
      RefreshStable(existing.value.fields, generated, keys, first);
    }
  }

  /** Regenerating over its own result changes nothing exactly when no hidden block has more than machine keys. */
  lemma RegenerationStable(existing: Option<Json>, generated: Fields, anew: bool)
    requires Complete(generated, MACHINE_KEYS)
    ensures RouterConfig(existing, generated, anew).Some?
    ensures var first := RouterConfig(existing, generated, anew).value;
            RouterConfig(Some(Obj(first)), generated, false) == Some(first) <==>
            TakesGenerated(existing, anew) || Covered(existing.value.fields, generated, MACHINE_KEYS)
  {
    MachineKeysApart();
    if !TakesGenerated(existing, anew) {
      SetAllDefined(Merge(generated, existing.value.fields), generated, MACHINE_KEYS);
    }
    Regenerated(existing, generated, anew, MACHINE_KEYS, RouterConfig(existing, generated, anew).value);
  }

  /** An admission block that someone replaced by a number, over any generated document with a queue limit. */
  lemma HiddenBlockComesBack(generated: Fields)
    requires Complete(generated, MACHINE_KEYS) && Lookup(generated, ["admission", "maxQueued"]).Some?
    ensures var existing: Fields := map["admission" := Num(5.0)];
            var first := RouterConfig(Some(Obj(existing)), generated, false);
            && first.Some? && Lookup(first.value, ["admission", "maxQueued"]) == None
            && var second := RouterConfig(Some(Obj(first.value)), generated, false);
               && second.Some?
               && Lookup(second.value, ["admission", "maxQueued"]) == Lookup(generated, ["admission", "maxQueued"])
  {
    MachineKeysApart();
    MaxQueuedIsNoKey(MACHINE_KEYS);
    assert MACHINE_KEYS[5] == ["admission", "maxInflightPerModel"];
    assert ["admission", "maxQueued"][1..] == ["maxQueued"];
    HiddenFor(map["admission" := Num(5.0)], generated, MACHINE_KEYS, ["admission", "maxInflightPerModel"], "maxQueued");
  }

  lemma HiddenFor(existing: Fields, generated: Fields, keys: seq<Path>, key: Path, n: string)
    requires PairwiseApart(keys) && (forall key :: key in keys ==> |key| <= 2) && Complete(generated, keys)
    requires key in keys && |key| == 2 && key[0] in existing && !existing[key[0]].Obj?
    requires n in FieldsAt(generated, key[0]) && [key[0], n] !in keys
    ensures var first := Refreshed(Some(Obj(existing)), generated, false, keys);
            && first.Some? && Lookup(first.value, [key[0], n]) == None
            && var second := Refreshed(Some(Obj(first.value)), generated, false, keys);
               second.Some? && Lookup(second.value, [key[0], n]) == Lookup(generated, [key[0], n])
  {
    SetAllDefined(Merge(generated, existing), generated, keys);
    var first := SetAll(Merge(generated, existing), generated, keys).value;
    NotEmpty(Some(Obj(existing)), generated, false, keys, first);
    SetAllDefined(Merge(generated, first), generated, keys);
    HiddenComesBack(existing, generated, keys, key, n, first, SetAll(Merge(generated, first), generated, keys).value);
  }

  lemma MaxQueuedIsNoKey(keys: seq<Path>)
    requires keys == MACHINE_KEYS
    ensures ["admission", "maxQueued"] !in keys
  {
    assert |"maxQueued"| == 9 && |"maxInflightPerModel"| == 19 && |"queueTimeoutMs"| == 14;
    assert "listen"[0] == 'l' && "upstream"[0] == 'u' && "admission"[0] == 'a' && "metrics"[0] == 'm'
           && "version"[0] == 'v';
    forall i | 0 <= i < |keys|
      ensures keys[i] != ["admission", "maxQueued"]
    {
      assert keys[i][0] != "admission" || keys[i][1] != "maxQueued";
    }
  }
}
