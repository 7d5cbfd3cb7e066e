/**
 * The runtime face-behaviour profile: which profile a runtime selects, by
 * explicit id or by version-prefix matching, and the deep merge of the
 * default profile, the selected profile, the overrides and an explicit
 * profile.
 */
module RuntimeProfile {
  import opened Wrappers
  import opened Json
  import Strings
  import FaceStateEvaluation
  import FaceCandidates

  const DEFAULT_ID: string := "default"
  const CURRENT_ID: string := "mc1.21.1-lt1.6.x"

  /** The face-state settings both built-in profiles share. */
  function FaceStateDefaults(): Json
  {
    JObj(map[
      "evaluationMode" := JStr("little_server_face"),
      "supportsCutting" := JBool(false),
      "outsideNeighborPolicy" := JStr("air"),
      "occludeOutsideFacesWithTiles" := JBool(false)])
  }

  function Matchers(minecraftPrefix: Json, littleTilesPrefix: Json): Json
  {
    JObj(map["minecraftVersionPrefix" := minecraftPrefix, "littleTilesVersionPrefix" := littleTilesPrefix])
  }

  function DefaultProfile(): Json
  {
    JObj(map["profileId" := JStr(DEFAULT_ID), "runtimeMatchers" := Matchers(JNull, JNull), "faceStates" := FaceStateDefaults()])
  }

  function CurrentProfile(): Json
  {
    JObj(map["profileId" := JStr(CURRENT_ID), "runtimeMatchers" := Matchers(JStr("1.21."), JStr("1.6.")), "faceStates" := FaceStateDefaults()])
  }

  /** The profile table in its key order: the default first. */
  function ProfileTable(): seq<(string, Json)>
  {
    [(DEFAULT_ID, DefaultProfile()), (CURRENT_ID, CurrentProfile())]
  }

  /** The table entry for an id, if any. */
  function LookupProfile(table: seq<(string, Json)>, id: string): (r: Option<Json>)
    ensures r.Some? <==> exists i :: 0 <= i < |table| && table[i].0 == id
    decreases |table|
  {
    if table == [] then None
    else if table[0].0 == id then Some(table[0].1)
    else
      var r := LookupProfile(table[1..], id);
      assert forall i :: 1 <= i < |table| ==> table[i] == table[1..][i - 1];
      r
  }

  // ---------------------------------------------------------------------
  // String(x ?? '') for the version values

  /** String(value ?? ''): a missing or null value is the empty text. */
  function VersionText(value: Option<Json>): Option<string>
  {
    if IsNullish(value) then Some("") else JsText(value.value)
  }

  // ---------------------------------------------------------------------
  // Matching a runtime against a profile

  /** A matcher prefix that takes part: a non-empty string. */
  predicate ActivePrefix(prefix: Option<Json>)
  {
    prefix.Some? && prefix.value.JStr? && |prefix.value.s| > 0
  }

  /** One version check: an inactive prefix passes, an active one must start the version text. */
  predicate VersionMatches(prefix: Option<Json>, value: Option<Json>)
  {
    ActivePrefix(prefix) ==> VersionText(value).Some? && Strings.IsPrefix(prefix.value.s, VersionText(value).value)
  }

  /**
   * runtimeMatchesProfile: no matcher object never matches; otherwise every
   * active prefix must start the corresponding runtime version.
   */
  predicate RuntimeMatchesProfile(runtime: Json, matchers: Option<Json>)
  {
    && matchers.Some? && (matchers.value.JObj? || matchers.value.JArr?)
    && VersionMatches(Get(matchers.value, "minecraftVersionPrefix"), Get(runtime, "minecraftVersion"))
    && VersionMatches(Get(matchers.value, "littleTilesVersionPrefix"), Get(runtime, "littleTilesVersion"))
  }

  /** The current profile matches exactly the 1.21.x Minecraft and 1.6.x LittleTiles runtimes. */
  lemma CurrentMatchers(runtime: Json)
    ensures RuntimeMatchesProfile(runtime, Get(CurrentProfile(), "runtimeMatchers")) <==>
      && VersionText(Get(runtime, "minecraftVersion")).Some? && Strings.IsPrefix("1.21.", VersionText(Get(runtime, "minecraftVersion")).value)
      && VersionText(Get(runtime, "littleTilesVersion")).Some? && Strings.IsPrefix("1.6.", VersionText(Get(runtime, "littleTilesVersion")).value)
  {
    var m := Get(CurrentProfile(), "runtimeMatchers");
    assert m == Some(Matchers(JStr("1.21."), JStr("1.6.")));
    assert Get(m.value, "minecraftVersionPrefix") == Some(JStr("1.21."));
    assert Get(m.value, "littleTilesVersionPrefix") == Some(JStr("1.6."));
  }

  /** The default profile's null prefixes match every runtime. */
  lemma DefaultMatchersMatchAll(runtime: Json)
    ensures RuntimeMatchesProfile(runtime, Get(DefaultProfile(), "runtimeMatchers"))
  {
    var m := Get(DefaultProfile(), "runtimeMatchers");
    assert m == Some(Matchers(JNull, JNull));
    assert Get(m.value, "minecraftVersionPrefix") == Some(JNull);
  }

  // ---------------------------------------------------------------------
  // The profile id

  /** The first entry from `i` on whose id is not the default and whose matchers accept the runtime. */
  function FirstMatch(runtime: Json, table: seq<(string, Json)>, i: nat): (id: string)
    decreases |table| - i
  {
    if i >= |table| then DEFAULT_ID
    else if table[i].0 != DEFAULT_ID && RuntimeMatchesProfile(runtime, Get(table[i].1, "runtimeMatchers")) then table[i].0
    else FirstMatch(runtime, table, i + 1)
  }

  /**
   * The first non-default match wins: the result is the default id only when
   * no non-default entry matches, and otherwise the id of a matching entry
   * before which no non-default entry matches.
   */
  lemma {:induction false} FirstMatchSpec(runtime: Json, table: seq<(string, Json)>, i: nat)
    ensures var id := FirstMatch(runtime, table, i);
      && (id == DEFAULT_ID <==> forall k :: i <= k < |table| && table[k].0 != DEFAULT_ID ==> !RuntimeMatchesProfile(runtime, Get(table[k].1, "runtimeMatchers")))
      && (id != DEFAULT_ID ==>
            exists k :: (i <= k < |table| && table[k].0 == id &&
              RuntimeMatchesProfile(runtime, Get(table[k].1, "runtimeMatchers")) &&
              forall m :: i <= m < k && table[m].0 != DEFAULT_ID ==> !RuntimeMatchesProfile(runtime, Get(table[m].1, "runtimeMatchers"))))
    decreases |table| - i
  {
    if i < |table| {
      FirstMatchSpec(runtime, table, i + 1);
    }
  }

  /** The explicit runtimeProfile option, when it is a string that is not blank. */
  predicate HasExplicitId(options: Json)
  {
    var p := Get(options, "runtimeProfile");
    p.Some? && p.value.JStr? && |Strings.Trim(Strings.JsTrim, p.value.s)| > 0
  }

  /** A runtime value the matchers are tried on: present and of object type (arrays included). */
  predicate HasRuntime(options: Json)
  {
    var r := Get(options, "runtime");
    r.Some? && (r.value.JObj? || r.value.JArr?)
  }

  /** resolveRuntimeProfileId. */
  function ProfileIdOf(options: Json): string
  {
    if HasExplicitId(options) then Strings.Trim(Strings.JsTrim, Get(options, "runtimeProfile").value.s)
    else if !HasRuntime(options) then DEFAULT_ID
    else FirstMatch(Get(options, "runtime").value, ProfileTable(), 0)
  }

  /** resolveRuntimeProfileId, with its loop over the profile table. */
  method ResolveRuntimeProfileId(options: Json) returns (id: string)
    ensures id == ProfileIdOf(options)
  {
    var explicit := Get(options, "runtimeProfile");
    if explicit.Some? && explicit.value.JStr? {
      var trimmed := Strings.Trim(Strings.JsTrim, explicit.value.s);
      if |trimmed| > 0 {
        return trimmed;
      }
    }
    var runtime := Get(options, "runtime");
    if runtime.None? || !(runtime.value.JObj? || runtime.value.JArr?) {
      return DEFAULT_ID;
    }
    var table := ProfileTable();
    var i := 0;
    while i < |table|
      invariant 0 <= i <= |table|
      invariant FirstMatch(runtime.value, table, i) == ProfileIdOf(options)
    {
      if table[i].0 != DEFAULT_ID && RuntimeMatchesProfile(runtime.value, Get(table[i].1, "runtimeMatchers")) {
        return table[i].0;
      }
      i := i + 1;
    }
    return DEFAULT_ID;
  }

  /** A non-blank runtimeProfile string, trimmed, is the id, whatever the runtime says. */
  lemma ExplicitIdWins(options: Json)
    requires HasExplicitId(options)
    ensures ProfileIdOf(options) == Strings.Trim(Strings.JsTrim, Get(options, "runtimeProfile").value.s)
    ensures ProfileIdOf(options) != ""
  {
  }

  /**
   * Without an explicit id, the id is the current profile's exactly when a
   * runtime object is given and it matches the 1.21.x / 1.6.x prefixes, and
   * 'default' otherwise.
   */
  lemma ProfileIdFromRuntime(options: Json)
    requires !HasExplicitId(options)
    ensures ProfileIdOf(options) == CURRENT_ID <==>
      HasRuntime(options) && RuntimeMatchesProfile(Get(options, "runtime").value, Get(CurrentProfile(), "runtimeMatchers"))
    ensures ProfileIdOf(options) != CURRENT_ID ==> ProfileIdOf(options) == DEFAULT_ID
  {
    if HasRuntime(options) {
      var runtime := Get(options, "runtime").value;
      var table := ProfileTable();
      assert FirstMatch(runtime, table, 2) == DEFAULT_ID;
      assert FirstMatch(runtime, table, 0) == FirstMatch(runtime, table, 1);
    }
  }

  // ---------------------------------------------------------------------
  // The deep merge

  /** The value a key takes when `value` from a source is merged over `previous`. */
  function MergedValue(previous: Option<Json>, value: Json): Json
    decreases value, 1
  {
    if value.JArr? then value
    else if value.JObj? then
      JObj(MergeObject(if previous.Some? && previous.value.JObj? then previous.value.fields else map[], value))
    else value
  }

  /** The copy of `target` with every entry of the object `source` merged in. */
  function MergeObject(target: map<string, Json>, source: Json): map<string, Json>
    requires source.JObj?
    decreases source, 0
  {
    map k | k in target.Keys + source.fields.Keys ::
      if k in source.fields then MergedValue(if k in target then Some(target[k]) else None, source.fields[k]) else target[k]
  }

  /** mergeInto: a source that is not a plain object leaves the target as it is. */
  function Merged(target: map<string, Json>, source: Json): (r: map<string, Json>)
    ensures !source.JObj? ==> r == target
    ensures source.JObj? ==> r.Keys == target.Keys + source.fields.Keys
  {
    if source.JObj? then MergeObject(target, source) else target
  }

  /**
   * Later sources win key by key: a key the source does not name keeps the
   * target's value; a scalar or array value replaces it; an object value is
   * merged into the target's value when that is an object, and into an
   * empty object otherwise.
   */
  lemma MergedKeys(target: map<string, Json>, source: Json, k: string)
    requires source.JObj?
    ensures k in Merged(target, source) <==> k in target || k in source.fields
    ensures k in target && k !in source.fields ==> Merged(target, source)[k] == target[k]
    ensures k in source.fields && !source.fields[k].JObj? ==> Merged(target, source)[k] == source.fields[k]
    ensures k in source.fields && source.fields[k].JObj? ==>
      Merged(target, source)[k] == JObj(Merged(if k in target && target[k].JObj? then target[k].fields else map[], source.fields[k]))
  {
    if k in source.fields {
      MergeObjectAt(target, source, k);
    }
  }

  /** The merged value of one key the source names. */
  lemma MergeObjectAt(target: map<string, Json>, source: Json, k: string)
    requires source.JObj? && k in source.fields
    ensures k in MergeObject(target, source)
    ensures MergeObject(target, source)[k] == MergedValue(if k in target then Some(target[k]) else None, source.fields[k])
  {
  }

  /** Merging into an empty object copies the source. */
  lemma {:induction false} MergeIntoEmptyCopies(source: Json)
    requires source.JObj?
    ensures Merged(map[], source) == source.fields
    decreases source
  {
    forall k | k in source.fields
      ensures MergeObject(map[], source)[k] == source.fields[k]
    {
      MergeObjectAt(map[], source, k);
      var v := source.fields[k];
      if v.JObj? {
        MergeIntoEmptyCopies(v);
      }
    }
  }

  /** Merging the same source twice is merging it once. */
  lemma {:induction false} MergeIdempotent(target: map<string, Json>, source: Json)
    ensures Merged(Merged(target, source), source) == Merged(target, source)
    decreases source
  {
    if source.JObj? {
      var once := MergeObject(target, source);
      forall k | k in source.fields
        ensures MergeObject(once, source)[k] == once[k]
      {
        var v := source.fields[k];
        MergeObjectAt(target, source, k);
        MergeObjectAt(once, source, k);
        if v.JObj? {
          var base := if k in target && target[k].JObj? then target[k].fields else map[];
          assert once[k] == JObj(MergeObject(base, v));
          MergeIdempotent(base, v);
        }
      }
    }
  }

  /** deepMerge: the sources merged one after another into an empty object. */
  function DeepMerged(sources: seq<Json>): map<string, Json>
    decreases |sources|
  {
    if sources == [] then map[] else Merged(DeepMerged(sources[..|sources| - 1]), sources[|sources| - 1])
  }

  /** mergeInto, with its loop over the source's entries. */
  method MergeInto(target: map<string, Json>, source: Json) returns (out: map<string, Json>)
    ensures out == Merged(target, source)
    decreases source
  {
    if !source.JObj? {
      return target;
    }
    out := target;
    var todo := source.fields.Keys;
    ghost var done: set<string> := {};
    while todo != {}
      invariant todo + done == source.fields.Keys && todo !! done
      invariant out == PartialMerge(target, source, done)
      decreases todo
    {
      var key :| key in todo;
      var value := source.fields[key];
      assert key !in done;
      if value.JArr? {
        out := out[key := value];
      } else if value.JObj? {
        var previous := if key in out then Some(out[key]) else None;
        var nestedBase := if previous.Some? && previous.value.JObj? then previous.value.fields else map[];
        var nested := MergeInto(nestedBase, value);
        out := out[key := JObj(nested)];
      } else {
        out := out[key := value];
      }
      PartialMergeStep(target, source, done, key);
      todo := todo - {key};
      done := done + {key};
    }
    assert done == source.fields.Keys;
  }

  /** The target with the keys of `done` merged from the source. */
  function PartialMerge(target: map<string, Json>, source: Json, done: set<string>): map<string, Json>
    requires source.JObj? && done <= source.fields.Keys
  {
    map k | k in target.Keys + done ::
      if k in done then MergedValue(if k in target then Some(target[k]) else None, source.fields[k]) else target[k]
  }

  /** One more key merged. */
  lemma PartialMergeStep(target: map<string, Json>, source: Json, done: set<string>, key: string)
    requires source.JObj? && done <= source.fields.Keys && key in source.fields && key !in done
    ensures PartialMerge(target, source, done + {key}) ==
      PartialMerge(target, source, done)[key := MergedValue(if key in target then Some(target[key]) else None, source.fields[key])]
    ensures done + {key} == source.fields.Keys ==> PartialMerge(target, source, done + {key}) == Merged(target, source)
  {
  }

  /** deepMerge, with its loop over the sources. */
  method DeepMerge(sources: seq<Json>) returns (out: map<string, Json>)
    ensures out == DeepMerged(sources)
  {
    out := map[];
    for i := 0 to |sources|
      invariant out == DeepMerged(sources[..i])
    {
      assert sources[..i + 1][..i] == sources[..i];
      out := MergeInto(out, sources[i]);
    }
    assert sources[..|sources|] == sources;
  }

  // ---------------------------------------------------------------------
  // resolveRuntimeFaceBehaviorProfile

  /** The profile the table gives for an id, the default one for an id it does not hold. */
  function BaseProfile(id: string): Json
  {
    var p := LookupProfile(ProfileTable(), id);
    if p.Some? then p.value else DefaultProfile()
  }

  /** The merge sources, in order: the default, the base, the overrides and the explicit profile. */
  function MergeSources(options: Json): seq<Json>
  {
    [DefaultProfile(), BaseProfile(ProfileIdOf(options)),
     OptionValue(Get(options, "runtimeBehaviorOverrides")), OptionValue(Get(options, "runtimeFaceBehaviorProfile"))]
  }

  /** A missing option as null, which the merge ignores. */
  function OptionValue(j: Option<Json>): Json
  {
    if j.Some? then j.value else JNull
  }

  /** The resolved profile: the merge of the sources, with profileId set to the resolved id. */
  function ResolvedProfile(options: Json): map<string, Json>
  {
    DeepMerged(MergeSources(options))["profileId" := JStr(ProfileIdOf(options))]
  }

  /** resolveRuntimeFaceBehaviorProfile. */
  method ResolveRuntimeFaceBehaviorProfile(options: Json) returns (merged: map<string, Json>)
    ensures merged == ResolvedProfile(options)
  {
    var profileId := ResolveRuntimeProfileId(options);
    var base := LookupProfile(ProfileTable(), profileId);
    var baseProfile := if base.Some? then base.value else DefaultProfile();
    merged := DeepMerge([DefaultProfile(), baseProfile,
      OptionValue(Get(options, "runtimeBehaviorOverrides")), OptionValue(Get(options, "runtimeFaceBehaviorProfile"))]);
    merged := merged["profileId" := JStr(profileId)];
  }

  /** profileId always reports the requested id, even one the table does not hold. */
  lemma ResolvedProfileId(options: Json)
    ensures ResolvedProfile(options)["profileId"] == JStr(ProfileIdOf(options))
  {
  }

  /** The merge of the default and a base profile, before overrides. */
  lemma DeepMergedPrefix(sources: seq<Json>)
    requires |sources| == 4
    ensures DeepMerged(sources) == Merged(Merged(Merged(Merged(map[], sources[0]), sources[1]), sources[2]), sources[3])
  {
    assert sources[..3][..2] == sources[..2];
    assert sources[..2][..1] == sources[..1];
    assert sources[..1][..0] == [];
    assert DeepMerged(sources[..1]) == Merged(map[], sources[0]);
    assert DeepMerged(sources[..2]) == Merged(DeepMerged(sources[..1]), sources[1]);
    assert DeepMerged(sources[..3]) == Merged(DeepMerged(sources[..2]), sources[2]);
  }

  /**
   * An id the table does not hold falls back to the default profile's
   * contents: merging the default twice is merging it once.
   */
  lemma UnknownIdFallsBack(options: Json)
    requires LookupProfile(ProfileTable(), ProfileIdOf(options)).None?
    ensures ResolvedProfile(options) ==
      Merged(Merged(Merged(map[], DefaultProfile()), OptionValue(Get(options, "runtimeBehaviorOverrides"))),
        OptionValue(Get(options, "runtimeFaceBehaviorProfile")))["profileId" := JStr(ProfileIdOf(options))]
  {
    DeepMergedPrefix(MergeSources(options));
    MergeIdempotent(map[], DefaultProfile());
  }

  /** The built-in profiles merged, before overrides. */
  lemma BuiltInMerge(id: string)
    ensures Merged(Merged(map[], DefaultProfile()), BaseProfile(id))["faceStates"] == FaceStateDefaults()
  {
    MergeIntoEmptyCopies(DefaultProfile());
    var d := Merged(map[], DefaultProfile());
    assert d == DefaultProfile().fields;
    var base := BaseProfile(id);
    assert base == DefaultProfile() || base == CurrentProfile();
    assert base.fields["faceStates"] == FaceStateDefaults();
    var fs := FaceStateDefaults();
    assert MergeObject(fs.fields, fs) == fs.fields by {
      MergeIdempotent(map[], fs);
      MergeIntoEmptyCopies(fs);
    }
  }

  /**
   * Without overrides or an explicit profile the resolved profile has the
   * 'air' policy, no outside occlusion and no cutting, whichever built-in
   * profile was selected.
   */
  lemma DefaultFaceStateFlags(options: Json)
    requires !IsObject(OptionValue(Get(options, "runtimeBehaviorOverrides")))
    requires !IsObject(OptionValue(Get(options, "runtimeFaceBehaviorProfile")))
    ensures FaceCandidates.ProfileFlags(JObj(ResolvedProfile(options))) == FaceStateEvaluation.FaceStateFlags(true, false, false)
  {
    DeepMergedPrefix(MergeSources(options));
    BuiltInMerge(ProfileIdOf(options));
    var r := ResolvedProfile(options);
    assert r["faceStates"] == FaceStateDefaults();
    DefaultsFlags(r);
  }

  /** The flags of any profile whose face states are the built-in ones. */
  lemma DefaultsFlags(r: map<string, Json>)
    requires "faceStates" in r && r["faceStates"] == FaceStateDefaults()
    ensures FaceCandidates.ProfileFlags(JObj(r)) == FaceStateEvaluation.FaceStateFlags(true, false, false)
  {
    var fs := FaceStateDefaults().fields;
    assert Get(JObj(r), "faceStates") == Some(JObj(fs));
    assert GetOpt(Some(JObj(fs)), "outsideNeighborPolicy") == Some(JStr("air"));
    assert GetOpt(Some(JObj(fs)), "occludeOutsideFacesWithTiles") == Some(JBool(false));
    assert GetOpt(Some(JObj(fs)), "supportsCutting") == Some(JBool(false));
  }
}
