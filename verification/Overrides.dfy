/** Expert overrides edited at runtime and replayed over the config file
    (src/config/expert_overrides.rs). */
module Overrides {
  import opened Sequences
  import opened DiffModel

  const MAX_EXPERT_WEIGHT: nat := 100

  /** The fields an edit may set. An absent field was not touched; an empty prompt clears. */
  datatype ExpertOverride = ExpertOverride(enabled: Option<bool>, weight: Option<u8>, prompt: Option<string>) {
    predicate IsEmpty() {
      enabled.None? && weight.None? && prompt.None?
    }
  }

  const NOTHING := ExpertOverride(None, None, None)

  /** An expert of the config file; `others` stands for every setting an override cannot reach. */
  datatype ExpertTomlDef = ExpertTomlDef(enabled: bool, weight: u8, prompt: Option<string>, others: string)

  class AppConfig {
    var reviewExperts: map<string, ExpertTomlDef>

    constructor (experts: map<string, ExpertTomlDef>)
      ensures reviewExperts == experts
    {
      reviewExperts := experts;
    }
  }

  type Entries = map<string, ExpertOverride>

  function Lookup(entries: Entries, name: string): ExpertOverride {
    if name in entries then entries[name] else NOTHING
  }

  /** The later statement, or the earlier one when the later is silent. */
  function Later<T>(earlier: Option<T>, later: Option<T>): Option<T> {
    if later.Some? then later else earlier
  }

  function Merge(entry: ExpertOverride, patch: ExpertOverride): ExpertOverride {
    ExpertOverride(
      Later(entry.enabled, patch.enabled),
      Later(entry.weight, patch.weight),
      if patch.prompt == Some("") then None else Later(entry.prompt, patch.prompt))
  }

  function Recorded(entries: Entries, name: string, patch: ExpertOverride): Entries {
    var merged := Merge(Lookup(entries, name), patch);
    if merged.IsEmpty() then entries - {name} else entries[name := merged]
  }

  function Patched(expert: ExpertTomlDef, over: ExpertOverride): ExpertTomlDef {
    expert.(enabled := over.enabled.UnwrapOr(expert.enabled),
            weight := over.weight.UnwrapOr(expert.weight),
            prompt := Later(expert.prompt, over.prompt))
  }

  /** The config with every override applied; it has the same experts. */
  function Applied(entries: Entries, experts: map<string, ExpertTomlDef>): map<string, ExpertTomlDef> {
    map name | name in experts :: Patched(experts[name], Lookup(entries, name))
  }

  lemma AppliedPointwise(entries: Entries, base: map<string, ExpertTomlDef>, result: map<string, ExpertTomlDef>)
    requires result.Keys == base.Keys
    requires forall name :: name in base ==> result[name] == Patched(base[name], Lookup(entries, name))
    ensures result == Applied(entries, base)
  {
  }

  lemma CountOne(rest: set<string>, base: set<string>, name: string)
    requires name in rest
    ensures |rest * base| == |(rest - {name}) * base| + if name in base then 1 else 0
  {
    if name in base {
      assert rest * base == (rest - {name}) * base + {name};
    } else {
      assert rest * base == (rest - {name}) * base;
    }
  }

  // ----- the stored form -----

  datatype Json =
    | JNull
    | JBool(b: bool)
    | JInt(i: int)
    | JFloat(r: real)
    | JString(s: string)
    | JArray(items: seq<Json>)
    | JObject(fields: map<string, Json>)

  function AsBool(v: Json): Option<bool> {
    if v.JBool? then Some(v.b) else None
  }

  function AsString(v: Json): Option<string> {
    if v.JString? then Some(v.s) else None
  }

  /** An integer in the weight range the schema allows. */
  function AsWeight(v: Json): Option<u8> {
    if v.JInt? && 0 <= v.i <= MAX_EXPERT_WEIGHT then Some(v.i) else None
  }

  function FieldAs<T>(fields: map<string, Json>, name: string, decode: Json -> Option<T>): Option<T> {
    if name in fields then decode(fields[name]) else None
  }

  /** The patch an entry of the stored row stands for; whatever is malformed is not stated. */
  function DecodeEntry(v: Json): ExpertOverride {
    if v.JObject? then
      ExpertOverride(FieldAs(v.fields, "enabled", AsBool), FieldAs(v.fields, "weight", AsWeight),
                     FieldAs(v.fields, "prompt", AsString))
    else NOTHING
  }

  /** What the entries of a row among `names` stand for. */
  function DecodedFields(fields: map<string, Json>, names: set<string>): Entries {
    map name | name in fields && name in names && !Merge(NOTHING, DecodeEntry(fields[name])).IsEmpty()
      :: Merge(NOTHING, DecodeEntry(fields[name]))
  }

  /** The overrides a stored row stands for. */
  function Decoded(v: Json): Entries {
    if v.JObject? then DecodedFields(v.fields, v.fields.Keys) else map[]
  }

  lemma DecodedStep(fields: map<string, Json>, done: set<string>, name: string)
    requires name in fields && name !in done
    ensures Recorded(DecodedFields(fields, done), name, DecodeEntry(fields[name]))
         == DecodedFields(fields, done + {name})
    ensures !fields[name].JObject? ==> DecodedFields(fields, done) == DecodedFields(fields, done + {name})
  {
  }

  function EncodeEntry(over: ExpertOverride): Json {
    JObject(
      (if over.enabled.Some? then map["enabled" := JBool(over.enabled.value)] else map[])
      + (if over.weight.Some? then map["weight" := JInt(over.weight.value)] else map[])
      + (if over.prompt.Some? then map["prompt" := JString(over.prompt.value)] else map[]))
  }

  function Encoded(entries: Entries): Json {
    JObject(map name | name in entries && !entries[name].IsEmpty() :: EncodeEntry(entries[name]))
  }

  class ExpertOverrides {
    var entries: Entries

    constructor ()
      ensures entries == map[]
    {
      entries := map[];
    }

    /** Merges one edit into the map. */
    method Record(name: string, patch: ExpertOverride)
      modifies this
      ensures entries == Recorded(old(entries), name, patch)
    {
      var entry := if name in entries then entries[name] else NOTHING;
      if patch.enabled.Some? {
        entry := entry.(enabled := patch.enabled);
      }
      if patch.weight.Some? {
        entry := entry.(weight := patch.weight);
      }
      match patch.prompt {
        case None =>
        case Some(text) => entry := entry.(prompt := if text == "" then None else Some(text));
      }
      if entry.IsEmpty() {
        entries := entries - {name};
      } else {
        entries := entries[name := entry];
      }
    }

    static method PatchExpert(start: ExpertTomlDef, over: ExpertOverride) returns (expert: ExpertTomlDef)
      ensures expert == Patched(start, over)
    {
      expert := start;
      if over.enabled.Some? {
        expert := expert.(enabled := over.enabled.value);
      }
      if over.weight.Some? {
        expert := expert.(weight := over.weight.value);
      }
      if over.prompt.Some? {
        expert := expert.(prompt := over.prompt);
      }
    }

    /** Applies every override to the config in place, and counts the experts it reached. */
    method ApplyTo(cfg: AppConfig) returns (applied: nat)
      modifies cfg
      ensures cfg.reviewExperts == Applied(entries, old(cfg.reviewExperts))
      ensures applied == |entries.Keys * old(cfg.reviewExperts).Keys|
    {
      applied := 0;
      ghost var base := cfg.reviewExperts;
      var rest := entries.Keys;
      while rest != {}
        invariant rest <= entries.Keys
        invariant cfg.reviewExperts.Keys == base.Keys
        invariant forall name :: name in base ==>
          cfg.reviewExperts[name] == if name in rest then base[name] else Patched(base[name], Lookup(entries, name))
        invariant applied + |rest * base.Keys| == |entries.Keys * base.Keys|
        decreases |rest|
      {
        var name :| name in rest;
        CountOne(rest, base.Keys, name);
        if name in cfg.reviewExperts {
          var expert := PatchExpert(cfg.reviewExperts[name], entries[name]);
          cfg.reviewExperts := cfg.reviewExperts[name := expert];
          applied := applied + 1;
        }
        rest := rest - {name};
      }
      AppliedPointwise(entries, base, cfg.reviewExperts);
    }

    /** The storage value, without empty entries. Reading it gives a clean map back exactly when no
        weight is out of range. */
    method ToSetting() returns (v: Json)
      ensures v == Encoded(entries)
      ensures Clean(entries) ==> (Decoded(v) == entries <==> WeightsInRange(entries))
    {
      if Clean(entries) { SettingRoundTrip(entries); }
      v := JObject(map name | name in entries && !entries[name].IsEmpty() :: EncodeEntry(entries[name]));
    }

    /** The patch a stored entry stands for, field by field. */
    static method DecodePatch(fields: map<string, Json>) returns (patch: ExpertOverride)
      ensures patch == DecodeEntry(JObject(fields))
    {
      patch := NOTHING;
      if "enabled" in fields && fields["enabled"].JBool? {
        patch := patch.(enabled := Some(fields["enabled"].b));
      }
      if "weight" in fields && fields["weight"].JInt? && 0 <= fields["weight"].i <= MAX_EXPERT_WEIGHT {
        patch := patch.(weight := Some(fields["weight"].i));
      }
      if "prompt" in fields && fields["prompt"].JString? {
        patch := patch.(prompt := Some(fields["prompt"].s));
      }
    }

    /** Reads a stored row, in whatever order its entries come. */
    constructor FromSetting(v: Json)
      ensures entries == Decoded(v)
    {
      entries := map[];
      new;
      if v.JObject? {
        var rest := v.fields.Keys;
        ghost var done: set<string> := {};
        while rest != {}
          invariant rest + done == v.fields.Keys && rest * done == {}
          invariant entries == DecodedFields(v.fields, done)
          decreases |rest|
        {
          var name :| name in rest;
          DecodedStep(v.fields, done, name);
          if v.fields[name].JObject? {
            var patch := DecodePatch(v.fields[name].fields);
            Record(name, patch);
          }
          rest, done := rest - {name}, done + {name};
        }
        assert done == v.fields.Keys;
      }
    }
  }

  // ----- replay -----

  datatype Edit = Edit(name: string, patch: ExpertOverride)

  function Replay(log: seq<Edit>): Entries {
    if log == [] then map[]
    else Recorded(Replay(log[..|log| - 1]), log[|log| - 1].name, log[|log| - 1].patch)
  }

  /** The last thing the log states about one field of one expert. */
  function LastStated<T>(log: seq<Edit>, name: string, field: ExpertOverride -> Option<T>): Option<T> {
    if log == [] then None
    else
      var last := log[|log| - 1];
      if last.name == name && field(last.patch).Some? then field(last.patch)
      else LastStated(log[..|log| - 1], name, field)
  }

  function Enabled(o: ExpertOverride): Option<bool> { o.enabled }

  function Weight(o: ExpertOverride): Option<u8> { o.weight }

  function Prompt(o: ExpertOverride): Option<string> { o.prompt }

  /** No stored entry is empty, and none carries an empty prompt. */
  ghost predicate Clean(entries: Entries) {
    forall name :: name in entries ==> !entries[name].IsEmpty() && entries[name].prompt != Some("")
  }

  /** The stored entry of an expert is what the log last stated, field by field; a prompt last
      stated empty is not covered. */
  lemma {:induction false} ReplayLastStated(log: seq<Edit>, name: string)
    ensures Clean(Replay(log))
    ensures var o := Lookup(Replay(log), name);
      && o.enabled == LastStated(log, name, Enabled)
      && o.weight == LastStated(log, name, Weight)
      && o.prompt == if LastStated(log, name, Prompt) == Some("") then None else LastStated(log, name, Prompt)
  {
    if log != [] { ReplayLastStated(log[..|log| - 1], name); }
  }

  /** Replaying any log over any config: the same experts, each with the last stated enabled flag
      and weight, the last stated prompt unless that was empty, and everything else as it was. */
  lemma ReplayApplied(log: seq<Edit>, experts: map<string, ExpertTomlDef>, name: string)
    requires name in experts
    ensures Applied(Replay(log), experts).Keys == experts.Keys
    ensures var e := Applied(Replay(log), experts)[name]; var base := experts[name];
      && e.enabled == LastStated(log, name, Enabled).UnwrapOr(base.enabled)
      && e.weight == LastStated(log, name, Weight).UnwrapOr(base.weight)
      && e.prompt == (match LastStated(log, name, Prompt)
                      case Some(text) => if text == "" then base.prompt else Some(text)
                      case None => base.prompt)
      && e.others == base.others
  {
    ReplayLastStated(log, name);
  }

  /** Applying the same overrides twice changes nothing more. */
  lemma ApplyIdempotent(entries: Entries, experts: map<string, ExpertTomlDef>)
    ensures Applied(entries, Applied(entries, experts)) == Applied(entries, experts)
  {
  }

  // ----- the stored row -----

  predicate WeightInRange(weight: Option<u8>) {
    weight.Some? ==> weight.value <= MAX_EXPERT_WEIGHT
  }

  ghost predicate WeightsInRange(entries: Entries) {
    forall name :: name in entries ==> WeightInRange(entries[name].weight)
  }

  lemma WeightsLookup(entries: Entries)
    ensures WeightsInRange(entries) <==> forall name :: WeightInRange(Lookup(entries, name).weight)
  {
    forall name | name in entries ensures Lookup(entries, name) == entries[name] {}
  }

  /** Whatever the row holds, what is read back is clean and within the weight range. */
  lemma DecodedClean(v: Json)
    ensures Clean(Decoded(v)) && WeightsInRange(Decoded(v))
  {
  }

  /** Reading, field by field: each field counts on its own, exactly when it has the right type, and for a
      weight the right range; an empty prompt does not count. A name is kept exactly when one counts. */
  lemma DecodedExactly(v: Json, name: string)
    ensures name in Decoded(v) <==> Lookup(Decoded(v), name) != NOTHING
    ensures !(v.JObject? && name in v.fields && v.fields[name].JObject?) ==> name !in Decoded(v)
    ensures v.JObject? && name in v.fields && v.fields[name].JObject? ==>
      var o, f := Lookup(Decoded(v), name), v.fields[name].fields;
      && (forall b :: o.enabled == Some(b) <==> "enabled" in f && f["enabled"] == JBool(b))
      && (forall w: u8 :: o.weight == Some(w) <==> "weight" in f && f["weight"] == JInt(w) && w <= 100)
      && (forall t :: o.prompt == Some(t) <==> "prompt" in f && f["prompt"] == JString(t) && t != "")
  {
  }

  /** Storing, field by field: a row entry has exactly the fields the override states, with their values. */
  ghost predicate States(v: Json, o: ExpertOverride) {
    && v.JObject? && v.fields.Keys <= {"enabled", "weight", "prompt"}
    && ("enabled" in v.fields <==> o.enabled.Some?) && ("weight" in v.fields <==> o.weight.Some?)
    && ("prompt" in v.fields <==> o.prompt.Some?)
    && (o.enabled.Some? ==> v.fields["enabled"] == JBool(o.enabled.value))
    && (o.weight.Some? ==> v.fields["weight"] == JInt(o.weight.value))
    && (o.prompt.Some? ==> v.fields["prompt"] == JString(o.prompt.value))
  }

  lemma EntryStates(o: ExpertOverride)
    ensures States(EncodeEntry(o), o)
  {
  }

  lemma EncodedExactly(entries: Entries, name: string)
    ensures Encoded(entries).JObject?
    ensures name in Encoded(entries).fields <==> name in entries && entries[name] != NOTHING
    ensures name in Encoded(entries).fields ==> States(Encoded(entries).fields[name], entries[name])
  {
    if name in entries { EntryStates(entries[name]); }
  }

  lemma EntryRoundTrip(o: ExpertOverride)
    requires o.prompt != Some("")
    ensures DecodeEntry(EncodeEntry(o)) ==
      o.(weight := if WeightInRange(o.weight) then o.weight else None)
    ensures Merge(NOTHING, DecodeEntry(EncodeEntry(o))) == DecodeEntry(EncodeEntry(o))
  {
  }

  /** What storing and reading back does to one entry. */
  lemma EntryBack(entries: Entries, name: string)
    requires Clean(entries)
    ensures name in Decoded(Encoded(entries)) ==> name in entries
    ensures name in entries && WeightInRange(entries[name].weight) ==>
      name in Decoded(Encoded(entries)) && Decoded(Encoded(entries))[name] == entries[name]
  {
    if name in entries { EntryRoundTrip(entries[name]); }
  }

  /** Storing and reading back is a round trip exactly when no weight is out of range. */
  lemma SettingRoundTrip(entries: Entries)
    requires Clean(entries)
    ensures Decoded(Encoded(entries)) == entries <==> WeightsInRange(entries)
  {
    if WeightsInRange(entries) {
      forall name
        ensures name in Decoded(Encoded(entries)) <==> name in entries
        ensures name in entries ==> Decoded(Encoded(entries))[name] == entries[name]
      {
        EntryBack(entries, name);
      }
    } else {
      DecodedClean(Encoded(entries));
    }
  }

  /** Every weight the log states last is within the range. */
  ghost predicate LastWeightsInRange(log: seq<Edit>) {
    forall name :: WeightInRange(LastStated(log, name, Weight))
  }

  /** What a log of edits leaves survives storage exactly when every weight it states last is
      within the range. */
  lemma ReplayRoundTrip(log: seq<Edit>)
    ensures Decoded(Encoded(Replay(log))) == Replay(log) <==> LastWeightsInRange(log)
  {
    ReplayLastStated(log, "");
    SettingRoundTrip(Replay(log));
    WeightsLookup(Replay(log));
    forall name ensures Lookup(Replay(log), name).weight == LastStated(log, name, Weight) {
      ReplayLastStated(log, name);
    }
  }
}
