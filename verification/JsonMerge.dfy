/** scripts/conductor_wiring.py: the deep merge of JSON objects and what it does to every path. */
module JsonMerge {
  import opened Wrappers

  datatype Json =
    | Obj(fields: map<string, Json>)
    | Arr(items: seq<Json>)
    | Str(text: string)
    | Num(value: real)
    | Bool(flag: bool)
    | Null

  type Fields = map<string, Json>

  function Get(doc: Fields, k: string): Option<Json> {
    if k in doc then Some(doc[k]) else None
  }

  /** Documents are the same when they give the same at every key. */
  lemma SameFields(a: Fields, b: Fields)
    requires forall k :: Get(a, k) == Get(b, k)
    ensures a == b
  {
    forall k: string
      ensures (k in a <==> k in b) && (k in a ==> a[k] == b[k])
    {
      assert Get(a, k) == Get(b, k);
    }
  }

  /**
   At a key both have, two objects merge and any other value of the overlay, an array too,
   takes the place of the target's.
   */
  function Merge(target: Fields, overlay: Fields): Fields
    decreases Obj(overlay)
  {
    map k | k in target.Keys + overlay.Keys ::
      if k !in overlay then target[k]
      else if k in target && target[k].Obj? && overlay[k].Obj? then Obj(Merge(target[k].fields, overlay[k].fields))
      else overlay[k]
  }

  /** _deep_merge: the loop over the overlay's keys. */
  method DeepMerge(target: Fields, overlay: Fields) returns (merged: Fields)
    ensures merged == Merge(target, overlay)
    decreases Obj(overlay)
  {
    merged := target;
    var keys := overlay.Keys;
    while keys != {}
      invariant keys <= overlay.Keys
      invariant merged.Keys == target.Keys + (overlay.Keys - keys)
      invariant forall k :: k in merged ==> merged[k] == if k in keys then target[k] else Merge(target, overlay)[k]
      decreases keys
    {
      var key :| key in keys;
      var incoming := overlay[key];
      if key in merged && merged[key].Obj? && incoming.Obj? {
        var child := DeepMerge(merged[key].fields, incoming.fields);
        merged := merged[key := Obj(child)];
      } else {
        merged := merged[key := incoming];
      }
      keys := keys - {key};
    }
  }

  function Lookup(doc: Fields, path: seq<string>): Option<Json>
    requires path != []
    decreases |path|
  {
    if path[0] !in doc then None
    else if |path| == 1 then Some(doc[path[0]])
    else if doc[path[0]].Obj? then Lookup(doc[path[0]].fields, path[1..])
    else None
  }

  /** Some value on the way to the path, or at it, is not an object. */
  predicate Blocked(doc: Fields, path: seq<string>)
    requires path != []
    decreases |path|
  {
    path[0] in doc && (!doc[path[0]].Obj? || (|path| > 1 && Blocked(doc[path[0]].fields, path[1..])))
  }

  /**
   The merge by paths: where the overlay has a value it wins, two objects merging in turn; where it has none,
   the target's value stays, unless the overlay put something other than an object in the way.
   */
  lemma {:induction false} MergeByPath(target: Fields, overlay: Fields, path: seq<string>)
    requires path != []
    ensures Lookup(Merge(target, overlay), path) ==
            match Lookup(overlay, path)
            case Some(v) =>
              if v.Obj? && Lookup(target, path).Some? && Lookup(target, path).value.Obj?
              then Some(Obj(Merge(Lookup(target, path).value.fields, v.fields))) else Some(v)
            case None => if Blocked(overlay, path) then None else Lookup(target, path)
    decreases |path|
  {
    var k := path[0];
    if |path| > 1 && k in overlay && overlay[k].Obj? {
      if k in target && target[k].Obj? {
        MergeByPath(target[k].fields, overlay[k].fields, path[1..]);
      } else {
        NotThere(overlay[k].fields, path[1..]);
      }
    }
  }

  /** A blocked path has no object at it. */
  lemma {:induction false} NotThere(doc: Fields, path: seq<string>)
    requires path != []
    ensures Blocked(doc, path) ==> Lookup(doc, path) == None || !Lookup(doc, path).value.Obj?
    decreases |path|
  {
    if |path| > 1 && path[0] in doc && doc[path[0]].Obj? {
      NotThere(doc[path[0]].fields, path[1..]);
    }
  }

  lemma {:induction false} MergeSelf(doc: Fields)
    ensures Merge(doc, doc) == doc
    decreases Obj(doc)
  {
    forall k | k in doc && doc[k].Obj?
      ensures Merge(doc[k].fields, doc[k].fields) == doc[k].fields
    {
      MergeSelf(doc[k].fields);
    }
  }

  /** Merging the same overlay twice is merging it once. */
  lemma {:induction false} OverlayIdempotent(target: Fields, overlay: Fields)
    ensures Merge(Merge(target, overlay), overlay) == Merge(target, overlay)
    decreases Obj(overlay)
  {
    forall k | k in overlay && overlay[k].Obj?
      ensures Merge(Merge(target, overlay), overlay)[k] == Merge(target, overlay)[k]
    {
      if k in target && target[k].Obj? {
        OverlayIdempotent(target[k].fields, overlay[k].fields);
      } else {
        MergeSelf(overlay[k].fields);
      }
    }
  }

  /** Merging onto the same target twice is merging onto it once. */
  lemma {:induction false} TargetIdempotent(target: Fields, overlay: Fields)
    ensures Merge(target, Merge(target, overlay)) == Merge(target, overlay)
    decreases Obj(overlay)
  {
    forall k | k in target
      ensures Merge(target, Merge(target, overlay))[k] == Merge(target, overlay)[k]
    {
      if k !in overlay {
        if target[k].Obj? {
          MergeSelf(target[k].fields);
        }
      } else if target[k].Obj? && overlay[k].Obj? {
        TargetIdempotent(target[k].fields, overlay[k].fields);
      }
    }
  }
}
