/** scripts/conductor_wiring.py: wiring the conductor fragment into an opencode configuration. */
module OpencodeWiring {
  import opened Wrappers
  import opened JsonMerge
  import opened WiringText

  const PROVIDER_ID := "llamacpp"

  /** What the wiring pins: the router's address and the limit of one slot. */
  datatype Pins = Pins(baseUrl: string, slotTokens: int)

  function FieldsOf(v: Option<Json>): Fields {
    if v.Some? && v.value.Obj? then v.value.fields else map[]
  }

  /** The object with one member set; whatever is not an object becomes one. */
  function Stamp(v: Option<Json>, k: string, member: Json): Json {
    Obj(FieldsOf(v)[k := member])
  }

  /** opencode_model_limit: a quarter of the slot is kept for the output. */
  function Limit(slotTokens: int): (limit: Json)
    requires slotTokens > 0
    ensures limit.Obj? && limit.fields.Keys == {"context", "output"}
    ensures limit.fields["context"] == Num(slotTokens as real)
    ensures forall reserve: int :: 4 * reserve <= slotTokens < 4 * reserve + 4 ==>
            limit.fields["output"] == Num(reserve as real)
  {
    Obj(map["context" := Num(slotTokens as real), "output" := Num((slotTokens / 4) as real)])
  }

  function LimitAll(models: Fields, limit: Json): Fields {
    map name | name in models :: Stamp(Some(models[name]), "limit", limit)
  }

  /** One provider entry, pointed at the router and limited. */
  function Point(entry: Fields, url: Json, limit: Json): Fields {
    var pointed := entry["options" := Stamp(Get(entry, "options"), "baseURL", url)];
    if "models" in pointed && pointed["models"].Obj?
    then pointed["models" := Obj(LimitAll(pointed["models"].fields, limit))]
    else pointed
  }

  function PointProvider(providers: Fields, url: Json, limit: Json): Fields {
    if PROVIDER_ID in providers && providers[PROVIDER_ID].Obj?
    then providers[PROVIDER_ID := Obj(Point(providers[PROVIDER_ID].fields, url, limit))]
    else providers
  }

  predicate Truthy(v: Json) {
    match v
    case Obj(fields) => fields != map[]
    case Arr(items) => items != []
    case Str(text) => text != ""
    case Num(value) => value != 0.0
    case Bool(flag) => flag
    case Null => false
  }

  /** The conductor's agents replace the base entries of the same name outright. */
  function ReplaceAgents(config: Fields, fragment: Fields): Fields {
    if "agent" in fragment && fragment["agent"].Obj? && "agent" in config && config["agent"].Obj?
    then config["agent" := Obj(config["agent"].fields + fragment["agent"].fields)]
    else config
  }

  datatype WiringError = SlotNotPositive | ProviderNotAnObject | FilesMissing(missing: set<Reference>)

  function PointConfig(config: Fields, url: Json, limit: Json): Result<Fields, WiringError> {
    if "provider" in config && config["provider"].Obj?
    then Ok(config["provider" := Obj(PointProvider(config["provider"].fields, url, limit))])
    else if "provider" in config && Truthy(config["provider"]) then Err(ProviderNotAnObject)
    else Ok(config)
  }

  /** What follows the merge: replace the agents, point the provider, pin updates off. */
  function Finish(m: Fields, f: Fields, url: Json, limit: Json): Result<Fields, WiringError> {
    var config :- PointConfig(ReplaceAgents(m, f), url, limit);
    Ok(config["autoupdate" := Bool(false)])
  }

  /** Everything but the files; the fragment has its root in. */
  function Wire(base: Fields, fragment: Fields, pins: Pins): Result<Fields, WiringError> {
    if pins.slotTokens <= 0 then Err(SlotNotPositive)
    else
      Finish(Merge(base, fragment), fragment, Str(pins.baseUrl), Limit(pins.slotTokens))
  }

  function Resolved(fragment: Fields, root: string): Fields {
    map k | k in fragment :: Resolve(fragment[k], root)
  }

  function Wiring(base: Fields, fragment: Fields, root: string, pins: Pins, files: Files): Result<Fields, WiringError> {
    var config :- Wire(base, Resolved(fragment, root), pins);
    var missing := Missing(Obj(config), files);
    if missing != {} then Err(FilesMissing(missing)) else Ok(config)
  }

  // ----- The program -----

  method LimitModels(models: Fields, limit: Json) returns (limited: Fields)
    ensures limited == LimitAll(models, limit)
  {
    limited := models;
    var names := models.Keys;
    while names != {}
      invariant names <= models.Keys == limited.Keys
      invariant forall n :: n in models ==>
        limited[n] == if n in names then models[n] else Stamp(Some(models[n]), "limit", limit)
      decreases names
    {
      var name :| name in names;
      var entry := limited[name];
      limited := limited[name := Obj((if entry.Obj? then entry.fields else map[])["limit" := limit])];
      names := names - {name};
    }
  }

  method CopyAgents(agents: Fields, fragmentAgents: Fields) returns (merged: Fields)
    ensures merged == agents + fragmentAgents
  {
    merged := agents;
    var names := fragmentAgents.Keys;
    while names != {}
      invariant names <= fragmentAgents.Keys
      invariant merged.Keys == agents.Keys + (fragmentAgents.Keys - names)
      invariant forall n :: n in merged ==>
                merged[n] == if n in fragmentAgents && n !in names then fragmentAgents[n] else agents[n]
      decreases names
    {
      var name :| name in names;
      merged := merged[name := fragmentAgents[name]];
      names := names - {name};
    }
  }

  method PointEntry(entry: Fields, url: Json, limit: Json) returns (provider: Fields)
    ensures provider == Point(entry, url, limit)
  {
    provider := entry;
    var options: Fields := map[];
    if "options" in provider && provider["options"].Obj? {
      options := provider["options"].fields;
    }
    options := options["baseURL" := url];
    provider := provider["options" := Obj(options)];
    if "models" in provider && provider["models"].Obj? {
      var models := LimitModels(provider["models"].fields, limit);
      provider := provider["models" := Obj(models)];
    }
  }

  method WireConfig(base: Fields, fragment: Fields, pins: Pins) returns (wired: Result<Fields, WiringError>)
    ensures wired == Wire(base, fragment, pins)
  {
    var config := DeepMerge(base, fragment);
    if "agent" in fragment && fragment["agent"].Obj? && "agent" in config && config["agent"].Obj? {
      var agents := CopyAgents(config["agent"].fields, fragment["agent"].fields);
      config := config["agent" := Obj(agents)];
    }
    if pins.slotTokens <= 0 {
      return Err(SlotNotPositive);
    }
    ghost var replaced := config;
    assert replaced == ReplaceAgents(Merge(base, fragment), fragment);
    if "provider" in config && Truthy(config["provider"]) {
      if !config["provider"].Obj? {
        return Err(ProviderNotAnObject);
      }
      var providers := config["provider"].fields;
      if PROVIDER_ID in providers && providers[PROVIDER_ID].Obj? {
        var entry := PointEntry(providers[PROVIDER_ID].fields, Str(pins.baseUrl), Limit(pins.slotTokens));
        config := config["provider" := Obj(providers[PROVIDER_ID := Obj(entry)])];
      }
    }
    assert "provider" in replaced ==> replaced == replaced["provider" := replaced["provider"]];
    assert PointConfig(replaced, Str(pins.baseUrl), Limit(pins.slotTokens)) == Ok(config);
    return Ok(config["autoupdate" := Bool(false)]);
  }

  method ApplyConductorWiring(base: Fields, fragment: Fields, root: string, pins: Pins, files: Files)
    returns (wired: Result<Fields, WiringError>)
    ensures wired == Wiring(base, fragment, root, pins, files)
  {
    var config :- WireConfig(base, Resolved(fragment, root), pins);
    var missing := VerifyFileReferences(Obj(config), files);
    if missing != {} {
      return Err(FilesMissing(missing));
    }
    return Ok(config);
  }

  // ----- What it leaves -----

  /** Each agent of the fragment ends exactly as the fragment has it; every other agent as the merge left it. */
  lemma AgentsVerbatim(base: Fields, fragment: Fields, pins: Pins, name: string)
    requires Wire(base, fragment, pins).Ok?
    requires "agent" in fragment && fragment["agent"].Obj?
    ensures var wired := Wire(base, fragment, pins).value;
            && Lookup(wired, ["agent"]).Some? && wired["agent"].Obj?
            && Get(wired["agent"].fields, name) ==
               if name in fragment["agent"].fields then Get(fragment["agent"].fields, name)
               else Get(FieldsOf(Get(base, "agent")), name)
  {
    var agents := ReplaceAgents(Merge(base, fragment), fragment);
    MergeAt(base, fragment, "agent");
    assert Get(Wire(base, fragment, pins).value, "agent") == Get(agents, "agent");
  }

  /** The same of the whole wiring, by the fragment as it is given: its agents as they are but for the harness root. */
  lemma FragmentAgents(base: Fields, fragment: Fields, root: string, pins: Pins, files: Files, name: string)
    requires Wiring(base, fragment, root, pins, files).Ok?
    requires "agent" in fragment && fragment["agent"].Obj?
    ensures var wired := Wiring(base, fragment, root, pins, files).value;
            && "agent" in wired && wired["agent"].Obj?
            && (name in fragment["agent"].fields ==>
                  && name in wired["agent"].fields
                  && SameButRoot(fragment["agent"].fields[name], wired["agent"].fields[name], root))
            && (name !in fragment["agent"].fields ==>
                  Get(wired["agent"].fields, name) == Get(FieldsOf(Get(base, "agent")), name))
  {
    var f := Resolved(fragment, root);
    AgentsVerbatim(base, f, pins, name);
    if name in fragment["agent"].fields {
      var agent := fragment["agent"].fields[name];
      ResolvedIs(agent, root);
      assert Get(f["agent"].fields, name) == Some(Resolve(agent, root));
    }
  }

  /** The provider block that is refused: something that is neither an object nor empty. */
  ghost predicate BadProvider(config: Fields) {
    "provider" in config && !config["provider"].Obj?
    && config["provider"] !in {Arr([]), Str(""), Num(0.0), Bool(false), Null}
  }

  /**
   What the wiring is refused for, and nothing else: a slot that is not positive, a provider block that is not an
   object, and then exactly the files the wired document names that are not there.
   */
  lemma RefusedExactly(base: Fields, fragment: Fields, root: string, pins: Pins, files: Files)
    ensures var wired, merged := Wiring(base, fragment, root, pins, files), Merge(base, Resolved(fragment, root));
            && (wired == Err(SlotNotPositive) <==> pins.slotTokens <= 0)
            && (wired == Err(ProviderNotAnObject) <==> pins.slotTokens > 0 && BadProvider(merged))
            && (pins.slotTokens > 0 && !BadProvider(merged) ==>
                  var config := Wire(base, Resolved(fragment, root), pins);
                  && config.Ok?
                  && (wired == config <==> forall r :: r in References(Obj(config.value), "") ==> Present(files, r))
                  && (wired.Err? ==>
                        && wired.error.FilesMissing?
                        && forall r :: r in wired.error.missing <==>
                             r in References(Obj(config.value), "") && !Present(files, r)))
  {
    var f := Resolved(fragment, root);
    WireRefused(base, f, pins);
    if Wire(base, f, pins).Ok? {
      MissingAre(Obj(Wire(base, f, pins).value), files);
    }
  }

  lemma WireRefused(base: Fields, fragment: Fields, pins: Pins)
    ensures var wired, bad := Wire(base, fragment, pins), BadProvider(Merge(base, fragment));
            && (wired == Err(SlotNotPositive) <==> pins.slotTokens <= 0)
            && (wired == Err(ProviderNotAnObject) <==> pins.slotTokens > 0 && bad)
            && (wired.Ok? <==> pins.slotTokens > 0 && !bad)
  {
    var merged := Merge(base, fragment);
    ReplaceTouchesAgents(merged, fragment, "provider");
    ProviderRefused(merged, ReplaceAgents(merged, fragment), Str(pins.baseUrl));
  }

  lemma ProviderRefused(merged: Fields, config: Fields, url: Json)
    requires Get(config, "provider") == Get(merged, "provider")
    ensures forall limit :: PointConfig(config, url, limit) == Err(ProviderNotAnObject) <==> BadProvider(merged)
    ensures forall limit :: PointConfig(config, url, limit).Ok? <==> !BadProvider(merged)
  {
    if "provider" in config && !config["provider"].Obj? {
      assert Truthy(config["provider"]) <==> config["provider"] !in {Arr([]), Str(""), Num(0.0), Bool(false), Null};
    }
  }

  /** The provider entry points at the router, and every model the merge gave it carries the slot's limit. */
  lemma ProviderPinned(base: Fields, fragment: Fields, pins: Pins)
    requires Wire(base, fragment, pins).Ok?
    ensures var merged := Merge(base, fragment);
            var wired := Wire(base, fragment, pins).value;
            var entry := FieldsOf(Get(FieldsOf(Get(merged, "provider")), "llamacpp"));
            var now := FieldsOf(Get(FieldsOf(Get(wired, "provider")), "llamacpp"));
            Lookup(merged, ["provider", "llamacpp"]) == Some(Obj(entry)) ==>
              && Get(FieldsOf(Get(now, "options")), "baseURL") == Some(Str(pins.baseUrl))
              && FieldsOf(Get(now, "models")).Keys == FieldsOf(Get(entry, "models")).Keys
              && (forall name :: name in FieldsOf(Get(now, "models")) ==>
                   Get(FieldsOf(Some(FieldsOf(Get(now, "models"))[name])), "limit") == Some(Limit(pins.slotTokens)))
              && forall k :: k != "options" && k != "models" ==> Get(now, k) == Get(entry, k)
  {
    var merged := Merge(base, fragment);
    var replaced := ReplaceAgents(merged, fragment);
    assert Get(replaced, "provider") == Get(merged, "provider");
    if "provider" in merged && merged["provider"].Obj? {
      var providers := merged["provider"].fields;
      assert ["provider", PROVIDER_ID][1..] == [PROVIDER_ID];
      assert Lookup(merged, ["provider", PROVIDER_ID]) == Lookup(providers, [PROVIDER_ID]);
    }
  }

  /** What pointing an entry leaves of it: the other options, and of each model everything but its limit. */
  ghost predicate KeepsEntry(entry: Fields, now: Fields) {
    && (forall k :: k != "baseURL" ==> Get(FieldsOf(Get(now, "options")), k) == Get(FieldsOf(Get(entry, "options")), k))
    && (!("models" in entry && entry["models"].Obj?) ==> Get(now, "models") == Get(entry, "models"))
    && forall name, k :: name in FieldsOf(Get(entry, "models")) && k != "limit" ==>
         Get(FieldsOf(Get(FieldsOf(Get(now, "models")), name)), k)
         == Get(FieldsOf(Get(FieldsOf(Get(entry, "models")), name)), k)
  }

  lemma PointKeepsEntry(entry: Fields, url: Json, limit: Json)
    ensures KeepsEntry(entry, Point(entry, url, limit))
  {
  }

  /** Beside the router's entry no provider changes, and the entry keeps what is not pinned. */
  lemma ProvidersStay(base: Fields, fragment: Fields, pins: Pins)
    requires Wire(base, fragment, pins).Ok?
    ensures var before := Get(Merge(base, fragment), "provider");
            var now := Get(Wire(base, fragment, pins).value, "provider");
            if before.Some? && before.value.Obj? then
              && now.Some? && now.value.Obj?
              && (forall id :: id != "llamacpp" ==> Get(now.value.fields, id) == Get(before.value.fields, id))
              && match Get(before.value.fields, "llamacpp")
                 case Some(Obj(entry)) =>
                   && Get(now.value.fields, "llamacpp").Some?
                   && KeepsEntry(entry, FieldsOf(Get(now.value.fields, "llamacpp")))
                 case other => Get(now.value.fields, "llamacpp") == other
            else now == before
  {
    var merged := Merge(base, fragment);
    ReplaceTouchesAgents(merged, fragment, "provider");
    var entry := FieldsOf(Get(FieldsOf(Get(merged, "provider")), PROVIDER_ID));
    PointKeepsEntry(entry, Str(pins.baseUrl), Limit(pins.slotTokens));
  }

  /** Nothing but the agents, the provider block and the update switch departs from the merge, and that is off. */
  lemma OnlyTheseChange(base: Fields, fragment: Fields, pins: Pins, k: string)
    requires Wire(base, fragment, pins).Ok?
    ensures k != "provider" && k != "autoupdate"
            && (k == "agent" ==> !("agent" in fragment && fragment["agent"].Obj?)) ==>
              Get(Wire(base, fragment, pins).value, k) == Get(Merge(base, fragment), k)
    ensures Get(Wire(base, fragment, pins).value, "autoupdate") == Some(Bool(false))
  {
  }

  // ----- Wiring what is wired -----

  /** MergedAt is Merge seen at one key. */
  function MergedAt(t: Option<Json>, o: Option<Json>): Option<Json> {
    if o.None? then t
    else if t.Some? && t.value.Obj? && o.value.Obj? then Some(Obj(Merge(t.value.fields, o.value.fields)))
    else o
  }

  lemma MergeAt(t: Fields, o: Fields, k: string)
    ensures Get(Merge(t, o), k) == MergedAt(Get(t, k), Get(o, k))
  {
  }

  lemma MergedAgain(t: Option<Json>, o: Option<Json>)
    ensures MergedAt(MergedAt(t, o), o) == MergedAt(t, o)
  {
    if o.Some? && o.value.Obj? {
      MergeSelf(o.value.fields);
      if t.Some? && t.value.Obj? {
        OverlayIdempotent(t.value.fields, o.value.fields);
      }
    }
  }

  /** A merge over a document that departs at one key from an earlier result of the same merge. */
  lemma MergedElsewhere(m: Fields, o: Fields, k: string, v: Json)
    requires Merge(m, o) == m
    ensures Merge(m[k := v], o) == m[k := MergedAt(Some(v), Get(o, k)).value]
  {
    var left := Merge(m[k := v], o);
    var right := m[k := MergedAt(Some(v), Get(o, k)).value];
    forall j: string
      ensures Get(left, j) == Get(right, j)
    {
      MergeAt(m, o, j);
    }
    SameFields(left, right);
  }

  /** The stamp survives a merge that is stamped again. */
  lemma StampAgain(t: Option<Json>, o: Option<Json>, k: string, member: Json)
    ensures Stamp(MergedAt(Some(Stamp(MergedAt(t, o), k, member)), o), k, member) == Stamp(MergedAt(t, o), k, member)
  {
    var m := MergedAt(t, o);
    if o.Some? && o.value.Obj? {
      MergedAgain(t, o);
      MergedElsewhere(m.value.fields, o.value.fields, k, member);
    }
  }

  lemma LimitAgain(t: Option<Json>, o: Option<Json>, limit: Json)
    requires MergedAt(t, o).Some? && MergedAt(t, o).value.Obj?
    ensures var once := LimitAll(MergedAt(t, o).value.fields, limit);
            var again := MergedAt(Some(Obj(once)), o);
            again.Some? && again.value.Obj? && LimitAll(again.value.fields, limit) == once
  {
    var m := MergedAt(t, o).value.fields;
    var once := LimitAll(m, limit);
    var again := MergedAt(Some(Obj(once)), o);
    if o.Some? {
      var fields := FieldsOf(t);
      MergedAgain(t, o);
      assert Merge(m, o.value.fields) == m;
      forall name: string
        ensures Get(LimitAll(again.value.fields, limit), name) == Get(once, name)
      {
        MergeAt(m, o.value.fields, name);
        MergeAt(once, o.value.fields, name);
        StampAgain(Get(m, name), Get(o.value.fields, name), "limit", limit);
      }
      SameFields(LimitAll(again.value.fields, limit), once);
    } else {
      forall name: string
        ensures Get(LimitAll(once, limit), name) == Get(once, name)
      {
        StampAgain(Get(m, name), None, "limit", limit);
      }
      SameFields(LimitAll(once, limit), once);
    }
  }

  lemma PointAgain(m: Fields, o: Fields, url: Json, limit: Json)
    requires Merge(m, o) == m
    ensures Point(Merge(Point(m, url, limit), o), url, limit) == Point(m, url, limit)
  {
    var once := Point(m, url, limit);
    forall k: string
      ensures Get(Point(Merge(once, o), url, limit), k) == Get(once, k)
    {
      MergeAt(m, o, k);
      MergeAt(once, o, k);
      if k == "options" {
        StampAgain(Get(m, k), Get(o, k), "baseURL", url);
      } else if k == "models" && k in m && m[k].Obj? {
        LimitAgain(Get(m, k), Get(o, k), limit);
      }
    }
    SameFields(Point(Merge(once, o), url, limit), once);
  }

  lemma PointProviderAgain(m: Fields, o: Fields, url: Json, limit: Json)
    requires Merge(m, o) == m
    ensures PointProvider(Merge(PointProvider(m, url, limit), o), url, limit) == PointProvider(m, url, limit)
  {
    var once := PointProvider(m, url, limit);
    forall k: string
      ensures Get(PointProvider(Merge(once, o), url, limit), k) == Get(once, k)
    {
      MergeAt(m, o, k);
      MergeAt(once, o, k);
      if k == PROVIDER_ID && k in m && m[k].Obj? {
        if k in o {
          PointAgain(m[k].fields, o[k].fields, url, limit);
        } else {
          MergeEmpty(m[k].fields);
          PointAgain(m[k].fields, map[], url, limit);
          MergeEmpty(Point(m[k].fields, url, limit));
        }
      }
    }
    SameFields(PointProvider(Merge(once, o), url, limit), once);
  }

  lemma MergeEmpty(m: Fields)
    ensures Merge(m, map[]) == m
  {
  }

  lemma ProviderAgain(m: Fields, f: Fields, url: Json, limit: Json, once: Fields)
    requires Merge(m, f) == m && PointConfig(m, url, limit) == Ok(once)
    ensures "provider" in once && once["provider"].Obj? ==>
            var again := MergedAt(Get(once, "provider"), Get(f, "provider"));
            again.Some? && again.value.Obj? &&
            PointProvider(again.value.fields, url, limit) == once["provider"].fields
    ensures !("provider" in once && once["provider"].Obj?) ==>
            MergedAt(Get(once, "provider"), Get(f, "provider")) == Get(once, "provider")
  {
    MergeAt(m, f, "provider");
    if "provider" in m && m["provider"].Obj? {
      var o := FieldsOf(Get(f, "provider"));
      if "provider" !in f {
        MergeEmpty(m["provider"].fields);
        MergeEmpty(PointProvider(m["provider"].fields, url, limit));
      }
      PointProviderAgain(m["provider"].fields, o, url, limit);
    }
  }

  lemma AgentAgain(m: Fields, f: Fields)
    requires Merge(m, f) == m && "agent" in f && f["agent"].Obj?
    ensures "agent" in m && m["agent"].Obj?
    ensures var once := m["agent"].fields + f["agent"].fields;
            Merge(once, f["agent"].fields) + f["agent"].fields == once
  {
    MergeAt(m, f, "agent");
    var agents := f["agent"].fields;
    var once := m["agent"].fields + agents;
    forall name: string
      ensures Get(Merge(once, agents) + agents, name) == Get(once, name)
    {
    }
    SameFields(Merge(once, agents) + agents, once);
  }

  lemma AgentBlockAgain(m: Fields, f: Fields, once: Fields)
    requires Merge(m, f) == m && Get(once, "agent") == Get(ReplaceAgents(m, f), "agent")
    ensures Get(ReplaceAgents(Merge(once, f), f), "agent") == Get(once, "agent")
  {
    MergeAt(m, f, "agent");
    MergeAt(once, f, "agent");
    if "agent" in f && f["agent"].Obj? {
      AgentAgain(m, f);
    }
  }

  lemma ProviderBlockAgain(m: Fields, f: Fields, url: Json, limit: Json, once: Fields)
    requires Merge(m, f) == m && PointConfig(m, url, limit).Ok?
    requires Get(once, "provider") == Get(PointConfig(m, url, limit).value, "provider")
    ensures PointConfig(Merge(once, f), url, limit).Ok?
    ensures Get(PointConfig(Merge(once, f), url, limit).value, "provider") == Get(once, "provider")
  {
    MergeAt(once, f, "provider");
    ProviderAgain(m, f, url, limit, PointConfig(m, url, limit).value);
  }

  /** Only the provider entry decides what pointing a document does to it. */
  lemma PointLooksAtProvider(a: Fields, b: Fields, url: Json, limit: Json)
    requires Get(a, "provider") == Get(b, "provider")
    ensures PointConfig(a, url, limit).Ok? <==> PointConfig(b, url, limit).Ok?
    ensures PointConfig(a, url, limit).Ok? ==>
            && Get(PointConfig(a, url, limit).value, "provider") == Get(PointConfig(b, url, limit).value, "provider")
            && forall k :: k != "provider" ==> Get(PointConfig(a, url, limit).value, k) == Get(a, k)
  {
  }

  lemma ReplaceTouchesAgents(m: Fields, f: Fields, k: string)
    requires k != "agent"
    ensures Get(ReplaceAgents(m, f), k) == Get(m, k)
  {
  }

  lemma FinishAgain(m: Fields, f: Fields, url: Json, limit: Json, once: Fields)
    requires Merge(m, f) == m && Finish(m, f, url, limit) == Ok(once)
    ensures Finish(Merge(once, f), f, url, limit) == Ok(once)
  {
    var replaced, merged := ReplaceAgents(m, f), Merge(once, f);
    var again := ReplaceAgents(merged, f);
    ReplaceTouchesAgents(m, f, "provider");
    ReplaceTouchesAgents(merged, f, "provider");
    PointLooksAtProvider(replaced, m, url, limit);
    PointLooksAtProvider(again, merged, url, limit);
    AgentBlockAgain(m, f, once);
    ProviderBlockAgain(m, f, url, limit, once);
    var twice := PointConfig(again, url, limit).value["autoupdate" := Bool(false)];
    forall k: string
      ensures Get(twice, k) == Get(once, k)
    {
      if k != "agent" && k != "provider" && k != "autoupdate" {
        ReplaceTouchesAgents(m, f, k);
        ReplaceTouchesAgents(merged, f, k);
        MergeAt(m, f, k);
        MergeAt(once, f, k);
      }
    }
    SameFields(twice, once);
  }

  lemma WiredAgain(base: Fields, fragment: Fields, pins: Pins)
    requires Wire(base, fragment, pins).Ok?
    ensures Wire(Wire(base, fragment, pins).value, fragment, pins) == Wire(base, fragment, pins)
  {
    OverlayIdempotent(base, fragment);
    FinishAgain(Merge(base, fragment), fragment, Str(pins.baseUrl), Limit(pins.slotTokens),
                Wire(base, fragment, pins).value);
  }

  /** Wiring what is wired, with the same fragment, root, pins and files, changes nothing. */
  lemma WiringIdempotent(base: Fields, fragment: Fields, root: string, pins: Pins, files: Files)
    requires Wiring(base, fragment, root, pins, files).Ok?
    ensures Wiring(Wiring(base, fragment, root, pins, files).value, fragment, root, pins, files)
            == Wiring(base, fragment, root, pins, files)
  {
    WiredAgain(base, Resolved(fragment, root), pins);
  }

  // ----- No token is left -----

  lemma TokenFreeWith(m: Fields, k: string, v: Json)
    requires TokenFree(Obj(m)) && TokenFree(v)
    ensures TokenFree(Obj(m[k := v]))
  {
  }

  lemma StampTokenFree(v: Option<Json>, k: string, member: Json)
    requires (v.Some? ==> TokenFree(v.value)) && TokenFree(member)
    ensures TokenFree(Stamp(v, k, member))
  {
    TokenFreeWith(FieldsOf(v), k, member);
  }

  lemma PointTokenFree(entry: Fields, url: Json, limit: Json)
    requires TokenFree(Obj(entry)) && TokenFree(url) && TokenFree(limit)
    ensures TokenFree(Obj(Point(entry, url, limit)))
  {
    StampTokenFree(Get(entry, "options"), "baseURL", url);
    var pointed := entry["options" := Stamp(Get(entry, "options"), "baseURL", url)];
    TokenFreeWith(entry, "options", pointed["options"]);
    if "models" in pointed && pointed["models"].Obj? {
      var models := pointed["models"].fields;
      forall name | name in models
        ensures TokenFree(Stamp(Some(models[name]), "limit", limit))
      {
        StampTokenFree(Some(models[name]), "limit", limit);
      }
      TokenFreeWith(pointed, "models", Obj(LimitAll(models, limit)));
    }
  }

  lemma PointConfigTokenFree(config: Fields, url: Json, limit: Json)
    requires TokenFree(Obj(config)) && TokenFree(url) && TokenFree(limit)
    ensures PointConfig(config, url, limit).Ok? ==> TokenFree(Obj(PointConfig(config, url, limit).value))
  {
    if "provider" in config && config["provider"].Obj? {
      var providers := config["provider"].fields;
      if PROVIDER_ID in providers && providers[PROVIDER_ID].Obj? {
        PointTokenFree(providers[PROVIDER_ID].fields, url, limit);
        TokenFreeWith(providers, PROVIDER_ID, Obj(Point(providers[PROVIDER_ID].fields, url, limit)));
      }
      TokenFreeWith(config, "provider", Obj(PointProvider(providers, url, limit)));
    }
  }

  lemma AgentsTokenFree(m: Fields, f: Fields)
    requires TokenFree(Obj(m)) && TokenFree(Obj(f))
    ensures TokenFree(Obj(ReplaceAgents(m, f)))
  {
    if "agent" in f && f["agent"].Obj? && "agent" in m && m["agent"].Obj? {
      var agents := Obj(m["agent"].fields + f["agent"].fields);
      assert TokenFree(m["agent"]) && TokenFree(f["agent"]);
      assert TokenFree(agents);
      TokenFreeWith(m, "agent", agents);
    }
  }

  /**
   Nothing the fragment brings keeps the token of the harness root: the wired configuration has one only if the
   base or the address had, unless the root makes one itself.
   */
  lemma WiringTokenFree(base: Fields, fragment: Fields, root: string, pins: Pins, files: Files)
    requires Wiring(base, fragment, root, pins, files).Ok?
    requires !Fuses(ROOT_TOKEN, root) && TokenFree(Obj(base)) && !Has(pins.baseUrl, ROOT_TOKEN)
    ensures TokenFree(Obj(Wiring(base, fragment, root, pins, files).value))
  {
    var f, limit := Resolved(fragment, root), Limit(pins.slotTokens);
    ResolvedIsTokenFree(Obj(fragment), root);
    assert Obj(f) == Resolve(Obj(fragment), root);
    MergedIsTokenFree(base, f);
    var m := Merge(base, f);
    AgentsTokenFree(m, f);
    PointConfigTokenFree(ReplaceAgents(m, f), Str(pins.baseUrl), limit);
    TokenFreeWith(PointConfig(ReplaceAgents(m, f), Str(pins.baseUrl), limit).value, "autoupdate", Bool(false));
  }
}
