/**
 * `parseModelProfiles`: read the `models` list of a loaded profile document, check each entry's
 * fields in a fixed order and stop at the first entry that fails a check.
 */
module ModelProfileParser {
  import opened Wrappers
  import opened Json
  import opened PolicyTypes
  import Seqs

  const ErrorPrefix := "Failed to parse model profiles: "
  const StructureError := "Invalid YAML structure: missing or invalid models array"
  /** What the engine reports when an entry is `null` and its `id` is read. */
  const NullEntryError := "Cannot read properties of null (reading 'id')"

  /** A truthy string (`!v || typeof v !== "string"` rejects the rest). */
  function NonEmptyString(v: Option<Json>): (r: Option<string>)
    ensures r.Some? <==> exists s :: v == Some(JString(s)) && s != ""
    ensures r.Some? ==> v == Some(JString(r.value))
  {
    match v
    case Some(JString(s)) => if s != "" then Some(s) else None
    case _ => None
  }

  function Number(v: Option<Json>): (r: Option<real>)
    ensures r.Some? <==> v.Some? && v.value.JNumber?
    ensures r.Some? ==> v == Some(JNumber(r.value))
  {
    match v
    case Some(JNumber(n)) => Some(n)
    case _ => None
  }

  function ArrayOf(v: Option<Json>): (r: Option<seq<Json>>)
    ensures r.Some? <==> v.Some? && v.value.JArray?
    ensures r.Some? ==> v == Some(JArray(r.value))
  {
    match v
    case Some(JArray(items)) => Some(items)
    case _ => None
  }

  /** One entry: a profile built from its fields, or the message of the first check it fails. */
  function ParseEntry(entry: Json): (r: Result<ModelProfile, string>)
    ensures r.Ok? ==> entry.JObject?
    ensures r.Ok? ==> && Get(entry, "id") == Some(JString(r.value.id)) && r.value.id != ""
                      && Get(entry, "provider") == Some(JString(r.value.provider)) && r.value.provider != ""
                      && Get(entry, "model") == Some(JString(r.value.model)) && r.value.model != ""
                      && Get(entry, "costPer1kInputTokens") == Some(JNumber(r.value.costPer1kInputTokens))
                      && Get(entry, "costPer1kOutputTokens") == Some(JNumber(r.value.costPer1kOutputTokens))
                      && Get(entry, "maxTokensPerCall") == Some(JNumber(r.value.maxTokensPerCall))
                      && Get(entry, "qualityTags") == Some(JArray(r.value.qualityTags))
                      && Get(entry, "defaultUse") == Some(JArray(r.value.defaultUse))
                      && Get(entry, "tier") == Some(JNumber(r.value.tier))
  {
    if entry.JNull? then Err(NullEntryError)
    else
      var id := NonEmptyString(Get(entry, "id"));
      if id.None? then Err("Missing or invalid model id") else
      var provider := NonEmptyString(Get(entry, "provider"));
      if provider.None? then Err("Missing or invalid model provider") else
      var model := NonEmptyString(Get(entry, "model"));
      if model.None? then Err("Missing or invalid model name") else
      var costIn := Number(Get(entry, "costPer1kInputTokens"));
      if costIn.None? then Err("Missing or invalid costPer1kInputTokens") else
      var costOut := Number(Get(entry, "costPer1kOutputTokens"));
      if costOut.None? then Err("Missing or invalid costPer1kOutputTokens") else
      var maxTokens := Number(Get(entry, "maxTokensPerCall"));
      if maxTokens.None? then Err("Missing or invalid maxTokensPerCall") else
      var qualityTags := ArrayOf(Get(entry, "qualityTags"));
      if qualityTags.None? then Err("Missing or invalid qualityTags array") else
      var defaultUse := ArrayOf(Get(entry, "defaultUse"));
      if defaultUse.None? then Err("Missing or invalid defaultUse array") else
      var tier := Number(Get(entry, "tier"));
      if tier.None? then Err("Missing or invalid tier") else
      Ok(ModelProfile(id.value, provider.value, model.value, costIn.value, costOut.value,
                      maxTokens.value, qualityTags.value, defaultUse.value, tier.value))
  }

  /** The entries in order, stopping at the first that fails. */
  function ParseEntries(entries: seq<Json>): (r: Result<seq<ModelProfile>, string>)
    ensures r.Ok? ==> |r.value| == |entries|
  {
    if |entries| == 0 then Ok([])
    else match ParseEntries(entries[..|entries| - 1])
      case Err(e) => Err(e)
      case Ok(profiles) =>
        match ParseEntry(entries[|entries| - 1])
        case Err(e) => Err(e)
        case Ok(p) => Ok(profiles + [p])
  }

  /** The `models` list of a loaded document, if it has one. */
  function ModelsOf(parsed: Option<Json>): Option<seq<Json>> {
    if Truthy(parsed) then ArrayOf(Get(parsed.value, "models")) else None
  }

  /**
   * The whole parse. `loaded` is the outcome of loading the YAML text: `Err` with the loader's
   * message, or `Ok` with the document (`None` for an empty one).
   */
  function ParseModelProfiles(loaded: Result<Option<Json>, string>): (r: Result<seq<ModelProfile>, string>)
    ensures r.Err? ==> ErrorPrefix <= r.error
    ensures loaded.Err? ==> r == Err(ErrorPrefix + loaded.error)
    ensures loaded.Ok? && ModelsOf(loaded.value).None? ==> r == Err(ErrorPrefix + StructureError)
    ensures r.Ok? ==> loaded.Ok? && ModelsOf(loaded.value).Some? && |r.value| == |ModelsOf(loaded.value).value|
  {
    match loaded
    case Err(e) => Err(ErrorPrefix + e)
    case Ok(parsed) =>
      match ModelsOf(parsed)
      case None => Err(ErrorPrefix + StructureError)
      case Some(entries) =>
        match ParseEntries(entries)
        case Err(e) => Err(ErrorPrefix + e)
        case Ok(profiles) => Ok(profiles)
  }

  /** The loop over the entries, returning at the first failure. */
  method Parse(loaded: Result<Option<Json>, string>) returns (r: Result<seq<ModelProfile>, string>)
    ensures r == ParseModelProfiles(loaded)
  {
    if loaded.Err? {
      return Err(ErrorPrefix + loaded.error);
    }
    var entriesOpt := ModelsOf(loaded.value);
    if entriesOpt.None? {
      return Err(ErrorPrefix + StructureError);
    }
    var entries := entriesOpt.value;
    var profiles: seq<ModelProfile> := [];
    for i := 0 to |entries|
      invariant ParseEntries(entries[..i]) == Ok(profiles)
    {
      assert entries[..i + 1][..i] == entries[..i];
      var p := ParseEntry(entries[i]);
      if p.Err? {
        ErrorStops(entries, i + 1);
        return Err(ErrorPrefix + p.error);
      }
      profiles := profiles + [p.value];
    }
    assert entries[..|entries|] == entries;
    return Ok(profiles);
  }

  // ----- Properties -----

  /** The list parses exactly when every entry does, giving one profile per entry in order. */
  lemma EntriesOk(entries: seq<Json>)
    ensures ParseEntries(entries).Ok? <==> forall i :: 0 <= i < |entries| ==> ParseEntry(entries[i]).Ok?
    ensures ParseEntries(entries).Ok? ==>
              |ParseEntries(entries).value| == |entries|
              && forall i :: 0 <= i < |entries| ==> ParseEntries(entries).value[i] == ParseEntry(entries[i]).value
  {
    if ParseEntries(entries).Ok? {
      EntriesValues(entries);
    }
    if forall i :: 0 <= i < |entries| ==> ParseEntry(entries[i]).Ok? {
      AllParse(entries);
    }
  }

  /** A list whose every entry parses parses as a whole. */
  lemma {:induction false} AllParse(entries: seq<Json>)
    requires forall i :: 0 <= i < |entries| ==> ParseEntry(entries[i]).Ok?
    ensures ParseEntries(entries).Ok?
  {
    if |entries| > 0 {
      var front := entries[..|entries| - 1];
      forall i | 0 <= i < |front|
        ensures ParseEntry(front[i]).Ok?
      {
        assert front[i] == entries[i];
      }
      AllParse(front);
    }
  }

  /** A list that parses gives one profile per entry, in order. */
  lemma {:induction false} EntriesValues(entries: seq<Json>)
    requires ParseEntries(entries).Ok?
    ensures |ParseEntries(entries).value| == |entries|
    ensures forall i :: 0 <= i < |entries| ==>
              ParseEntry(entries[i]).Ok? && ParseEntries(entries).value[i] == ParseEntry(entries[i]).value
  {
    if |entries| > 0 {
      var front, last := entries[..|entries| - 1], entries[|entries| - 1];
      EntriesValues(front);
      var r := ParseEntries(entries).value;
      OkSplit(entries);
      forall i | 0 <= i < |entries|
        ensures ParseEntry(entries[i]).Ok? && r[i] == ParseEntry(entries[i]).value
      {
        if i < |front| {
          assert entries[i] == front[i];
        }
      }
    }
  }

  /** A list that parses is its front, which parses, followed by its last entry, which parses. */
  lemma OkSplit(entries: seq<Json>)
    requires |entries| > 0 && ParseEntries(entries).Ok?
    ensures var front, last := entries[..|entries| - 1], entries[|entries| - 1];
            && ParseEntries(front).Ok? && ParseEntry(last).Ok?
            && ParseEntries(entries).value == ParseEntries(front).value + [ParseEntry(last).value]
  {
  }

  /** Once a prefix of the list fails, the whole list fails with the same message. */
  lemma {:induction false} ErrorStops(entries: seq<Json>, n: nat)
    requires n <= |entries| && ParseEntries(entries[..n]).Err?
    ensures ParseEntries(entries) == ParseEntries(entries[..n])
  {
    if n < |entries| {
      var front := entries[..|entries| - 1];
      assert front[..n] == entries[..n];
      ErrorStops(front, n);
    } else {
      assert entries[..n] == entries;
    }
  }

  /** A failure carries the message of the first entry that fails. */
  lemma {:induction false} EntriesErr(entries: seq<Json>)
    requires ParseEntries(entries).Err?
    ensures exists k :: 0 <= k < |entries| && ParseEntry(entries[k]) == Err(ParseEntries(entries).error)
              && forall i :: 0 <= i < k ==> ParseEntry(entries[i]).Ok?
  {
    var front := entries[..|entries| - 1];
    assert forall i :: 0 <= i < |front| ==> front[i] == entries[i];
    if ParseEntries(front).Err? {
      EntriesErr(front);
      var k :| 0 <= k < |front| && ParseEntry(front[k]) == Err(ParseEntries(front).error)
               && forall i :: 0 <= i < k ==> ParseEntry(front[i]).Ok?;
      assert ParseEntry(entries[k]) == Err(ParseEntries(entries).error);
    } else {
      EntriesOk(front);
      assert ParseEntry(entries[|entries| - 1]) == Err(ParseEntries(entries).error);
    }
  }

  /** The document form of a profile. */
  function Render(p: ModelProfile): (j: Json)
    ensures j.JObject?
  {
    JObject(map[
      "id" := JString(p.id),
      "provider" := JString(p.provider),
      "model" := JString(p.model),
      "costPer1kInputTokens" := JNumber(p.costPer1kInputTokens),
      "costPer1kOutputTokens" := JNumber(p.costPer1kOutputTokens),
      "maxTokensPerCall" := JNumber(p.maxTokensPerCall),
      "qualityTags" := JArray(p.qualityTags),
      "defaultUse" := JArray(p.defaultUse),
      "tier" := JNumber(p.tier)])
  }

  /** A profile with non-empty names reads back from its document form. */
  lemma RenderParses(p: ModelProfile)
    requires p.id != "" && p.provider != "" && p.model != ""
    ensures ParseEntry(Render(p)) == Ok(p)
  {
    RenderNames(p);
    RenderNumbers(p);
  }

  /** The name fields of the document form. */
  lemma RenderNames(p: ModelProfile)
    ensures Get(Render(p), "id") == Some(JString(p.id))
    ensures Get(Render(p), "provider") == Some(JString(p.provider))
    ensures Get(Render(p), "model") == Some(JString(p.model))
  {
  }

  /** The cost, limit, list and tier fields of the document form. */
  lemma RenderNumbers(p: ModelProfile)
    ensures Get(Render(p), "costPer1kInputTokens") == Some(JNumber(p.costPer1kInputTokens))
    ensures Get(Render(p), "costPer1kOutputTokens") == Some(JNumber(p.costPer1kOutputTokens))
    ensures Get(Render(p), "maxTokensPerCall") == Some(JNumber(p.maxTokensPerCall))
    ensures Get(Render(p), "qualityTags") == Some(JArray(p.qualityTags))
    ensures Get(Render(p), "defaultUse") == Some(JArray(p.defaultUse))
    ensures Get(Render(p), "tier") == Some(JNumber(p.tier))
  {
  }

  /** The `k`-th of the nine field checks, in the order `parseModelProfiles` makes them. */
  predicate FieldOk(entry: Json, k: nat)
    requires k < 9
  {
    match k
    case 0 => NonEmptyString(Get(entry, "id")).Some?
    case 1 => NonEmptyString(Get(entry, "provider")).Some?
    case 2 => NonEmptyString(Get(entry, "model")).Some?
    case 3 => Number(Get(entry, "costPer1kInputTokens")).Some?
    case 4 => Number(Get(entry, "costPer1kOutputTokens")).Some?
    case 5 => Number(Get(entry, "maxTokensPerCall")).Some?
    case 6 => ArrayOf(Get(entry, "qualityTags")).Some?
    case 7 => ArrayOf(Get(entry, "defaultUse")).Some?
    case _ => Number(Get(entry, "tier")).Some?
  }

  /** The message the `k`-th check reports when it fails. */
  function FieldMessage(k: nat): string
    requires k < 9
  {
    match k
    case 0 => "Missing or invalid model id"
    case 1 => "Missing or invalid model provider"
    case 2 => "Missing or invalid model name"
    case 3 => "Missing or invalid costPer1kInputTokens"
    case 4 => "Missing or invalid costPer1kOutputTokens"
    case 5 => "Missing or invalid maxTokensPerCall"
    case 6 => "Missing or invalid qualityTags array"
    case 7 => "Missing or invalid defaultUse array"
    case _ => "Missing or invalid tier"
  }

  /** The checks in order: when the first `k` pass and the next fails, its message is the one reported. */
  lemma FirstFailingField(entry: Json, k: nat)
    requires entry.JObject? && k < 9
    requires forall j :: 0 <= j < k ==> FieldOk(entry, j)
    requires !FieldOk(entry, k)
    ensures ParseEntry(entry) == Err(FieldMessage(k))
  {
    if k > 0 { assert FieldOk(entry, 0); }
    if k > 1 { assert FieldOk(entry, 1); }
    if k > 2 { assert FieldOk(entry, 2); }
    if k > 3 { assert FieldOk(entry, 3); }
    if k > 4 { assert FieldOk(entry, 4); }
    if k > 5 { assert FieldOk(entry, 5); }
    if k > 6 { assert FieldOk(entry, 6); }
    if k > 7 { assert FieldOk(entry, 7); }
  }

  /** An object entry that passes all nine checks gives a profile. */
  lemma AllFieldsPass(entry: Json)
    requires entry.JObject?
    requires forall j :: 0 <= j < 9 ==> FieldOk(entry, j)
    ensures ParseEntry(entry).Ok?
  {
    assert FieldOk(entry, 0) && FieldOk(entry, 1) && FieldOk(entry, 2);
    assert FieldOk(entry, 3) && FieldOk(entry, 4) && FieldOk(entry, 5);
    assert FieldOk(entry, 6) && FieldOk(entry, 7) && FieldOk(entry, 8);
  }

  /** A document whose `models` list is empty gives no profiles. */
  lemma EmptyModels(doc: map<string, Json>)
    requires "models" in doc && doc["models"] == JArray([])
    ensures ParseModelProfiles(Ok(Some(JObject(doc)))) == Ok([])
  {
  }

  /** An empty document, or one without a `models` list, is a structure error. */
  lemma MissingModels(parsed: Option<Json>)
    requires parsed.None? || !parsed.value.JObject? || "models" !in parsed.value.fields
             || !parsed.value.fields["models"].JArray?
    ensures ParseModelProfiles(Ok(parsed)) == Err(ErrorPrefix + StructureError)
  {
  }

  /** The document forms of a list of profiles, in order. */
  function RenderAll(ps: seq<ModelProfile>): (entries: seq<Json>)
    ensures |entries| == |ps| && forall i :: 0 <= i < |ps| ==> entries[i] == Render(ps[i])
  {
    if |ps| == 0 then [] else RenderAll(ps[..|ps| - 1]) + [Render(ps[|ps| - 1])]
  }

  /** Rendered profiles with non-empty names in a `models` list parse back to the same list. */
  lemma {:induction false} RenderedListParses(ps: seq<ModelProfile>)
    requires forall i :: 0 <= i < |ps| ==> ps[i].id != "" && ps[i].provider != "" && ps[i].model != ""
    ensures ParseEntries(RenderAll(ps)) == Ok(ps)
  {
    if |ps| > 0 {
      var front, last := ps[..|ps| - 1], ps[|ps| - 1];
      RenderedListParses(front);
      RenderParses(last);
      ParsesSnoc(RenderAll(front), Render(last), front, last);
      Seqs.SplitLast(ps);
    }
  }

  /** One more entry that parses extends the parsed list by its profile. */
  lemma ParsesSnoc(entries: seq<Json>, entry: Json, profiles: seq<ModelProfile>, p: ModelProfile)
    requires ParseEntries(entries) == Ok(profiles) && ParseEntry(entry) == Ok(p)
    ensures ParseEntries(entries + [entry]) == Ok(profiles + [p])
  {
    assert (entries + [entry])[..|entries|] == entries;
  }
}
