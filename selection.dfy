/** The selection rules the interface applies to the catalog: which models are
    offered in an output mode, how a preset resets the batch model, and how
    many versus models are selected. */
module Selection {
  import opened Js
  import opened Models

  /** Whether a model is offered in an output mode: image-output models in
      "image" mode only, the others in every other mode. */
  predicate Eligible(outputMode: string, c: ModelConfig) {
    if outputMode == "image" then ImageOutput(c) else !ImageOutput(c)
  }

  /** `keys.filter(key => Eligible(outputMode, models[key]))`. */
  function FilterEligible(outputMode: string, models: map<string, ModelConfig>, keys: seq<string>): (r: seq<string>)
    requires forall k :: k in keys ==> k in models
    ensures |r| <= |keys|
  {
    if keys == [] then []
    else
      var rest := FilterEligible(outputMode, models, keys[1..]);
      if Eligible(outputMode, models[keys[0]]) then [keys[0]] + rest else rest
  }

  /** The model chips offered in an output mode. */
  function ModelChoices(outputMode: string): (r: seq<string>)
    ensures forall k :: k in r <==> k in Catalog && Eligible(outputMode, Catalog[k])
  {
    Models.KeysListCatalog();
    FilterMembership(outputMode, Catalog, Keys);
    FilterEligible(outputMode, Catalog, Keys)
  }

  /** One step of the filter: the first key when it passes, then the rest filtered. */
  lemma FilterStep(outputMode: string, models: map<string, ModelConfig>, keys: seq<string>)
    requires keys != [] && forall k :: k in keys ==> k in models
    ensures FilterEligible(outputMode, models, keys) ==
      (if Eligible(outputMode, models[keys[0]]) then [keys[0]] else []) + FilterEligible(outputMode, models, keys[1..])
  {
  }

  /** The filter keeps a key exactly when it is eligible for the mode. */
  lemma {:induction false} FilterMembership(outputMode: string, models: map<string, ModelConfig>, keys: seq<string>)
    requires forall k :: k in keys ==> k in models
    ensures forall k :: k in FilterEligible(outputMode, models, keys) <==> k in keys && Eligible(outputMode, models[k])
  {
    if keys != [] {
      FilterStep(outputMode, models, keys);
      FilterMembership(outputMode, models, keys[1..]);
      assert keys == [keys[0]] + keys[1..];
    }
  }

  /** Filtering a concatenation filters each part, keeping their order. */
  lemma {:induction false} FilterAppend(outputMode: string, models: map<string, ModelConfig>, a: seq<string>, b: seq<string>)
    requires forall k :: k in a ==> k in models
    requires forall k :: k in b ==> k in models
    ensures FilterEligible(outputMode, models, a + b) ==
      FilterEligible(outputMode, models, a) + FilterEligible(outputMode, models, b)
  {
    if a != [] {
      var ab := a + b;
      assert ab[0] == a[0] && ab[1..] == a[1..] + b;
      FilterStep(outputMode, models, ab);
      FilterStep(outputMode, models, a);
      FilterAppend(outputMode, models, a[1..], b);
    } else {
      assert a + b == b;
    }
  }

  /** A filter that every key passes keeps the sequence as it is. */
  lemma {:induction false} FilterKeepsEligible(outputMode: string, models: map<string, ModelConfig>, keys: seq<string>)
    requires forall k :: k in keys ==> k in models && Eligible(outputMode, models[k])
    ensures FilterEligible(outputMode, models, keys) == keys
  {
    if keys != [] {
      FilterKeepsEligible(outputMode, models, keys[1..]);
    }
  }

  /** A filter that no key passes yields nothing. */
  lemma {:induction false} FilterDropsIneligible(outputMode: string, models: map<string, ModelConfig>, keys: seq<string>)
    requires forall k :: k in keys ==> k in models && !Eligible(outputMode, models[k])
    ensures FilterEligible(outputMode, models, keys) == []
  {
    if keys != [] {
      FilterDropsIneligible(outputMode, models, keys[1..]);
    }
  }

  /** Image mode offers exactly `flashImage`; any other mode offers the other
      four keys in catalog order. */
  lemma ModelChoicesByMode(outputMode: string)
    ensures outputMode == "image" ==> ModelChoices(outputMode) == ["flashImage"]
    ensures outputMode != "image" ==> ModelChoices(outputMode) == ["lite", "flash", "flashThinking", "pro"]
  {
    Models.OnlyFlashImageOutputsImages();
    var text: seq<string> := ["lite", "flash", "flashThinking", "pro"];
    var image: seq<string> := ["flashImage"];
    assert Keys == text + image;
    FilterAppend(outputMode, Catalog, text, image);
    if outputMode == "image" {
      FilterDropsIneligible(outputMode, Catalog, text);
      FilterKeepsEligible(outputMode, Catalog, image);
    } else {
      FilterDropsIneligible(outputMode, Catalog, image);
      FilterKeepsEligible(outputMode, Catalog, text);
    }
  }

  /** The image-mode choices and the choices of any other mode partition the catalog. */
  lemma ChoicesPartitionCatalog(outputMode: string)
    requires outputMode != "image"
    ensures forall k :: k in Catalog <==> k in ModelChoices("image") || k in ModelChoices(outputMode)
    ensures forall k :: !(k in ModelChoices("image") && k in ModelChoices(outputMode))
  {
    Models.KeysListCatalog();
    FilterMembership("image", Catalog, Keys);
    FilterMembership(outputMode, Catalog, Keys);
  }

  /** The interface state the preset handler reads and writes. */
  datatype Settings = Settings(outputMode: string, batchMode: bool, batchModel: string)

  /** `keys.find(k => models[k].imageOutput)`. */
  function FirstImageKey(models: map<string, ModelConfig>, keys: seq<string>): (r: Option<string>)
    requires forall k :: k in keys ==> k in models
    ensures r.None? <==> forall k :: k in keys ==> !ImageOutput(models[k])
    ensures r.Some? ==> exists i :: 0 <= i < |keys| && keys[i] == r.value && ImageOutput(models[keys[i]])
                          && forall j :: 0 <= j < i ==> !ImageOutput(models[keys[j]])
  {
    if keys == [] then None
    else if ImageOutput(models[keys[0]]) then Some(keys[0])
    else
      var r := FirstImageKey(models, keys[1..]);
      if r.Some? then
        var i :| 0 <= i < |keys[1..]| && keys[1..][i] == r.value && ImageOutput(models[keys[1..][i]])
                 && forall j :: 0 <= j < i ==> !ImageOutput(models[keys[1..][j]]);
        assert keys[i + 1] == r.value;
        r
      else r
  }

  /** The first image-output key of the catalog is `flashImage`. */
  lemma FirstImageKeyOfCatalog()
    ensures FirstImageKey(Catalog, Keys) == Some("flashImage")
  {
    Models.KeysListCatalog();
    Models.OnlyFlashImageOutputsImages();
    assert Keys[4] == "flashImage";
  }

  /** The TypeError of reading `imageOutput` from `models[batchModel]` when
      `batchModel` is not a catalog key. */
  const UnknownModelError := Error("TypeError", "Cannot read properties of undefined (reading 'imageOutput')")

  /** What a preset click leaves behind: the new settings and, when the
      handler throws, its error. The round is added only when there is none. */
  datatype Click = Click(settings: Settings, error: Option<Error>)

  /** The state changes a preset click makes before it adds the round: it
      first selects the preset's mode; for "image" it switches to batch mode
      with the first image-output model; otherwise an image-output batch model
      is replaced by the second catalog key and any other batch model is kept.
      A batch model outside the catalog makes the `imageOutput` read throw
      after the mode is already selected. */
  function ChoosePreset(s: Settings, modeKey: string): (r: Click)
    ensures r.settings.outputMode == modeKey
    ensures r.error.Some? <==> modeKey != "image" && s.batchModel !in Catalog
    ensures r.error.Some? ==> r.error.value == UnknownModelError && r.settings == s.(outputMode := modeKey)
    ensures r.error.None? ==> r.settings.batchModel in Catalog && Eligible(modeKey, Catalog[r.settings.batchModel])
    ensures modeKey == "image" ==> r.settings.batchMode && r.settings.batchModel == "flashImage"
    ensures modeKey != "image" ==> r.settings.batchMode == s.batchMode
    ensures modeKey != "image" && s.batchModel in Catalog ==>
      r.settings.batchModel == if ImageOutput(Catalog[s.batchModel]) then "flash" else s.batchModel
  {
    if modeKey == "image" then
      FirstImageKeyOfCatalog();
      Click(Settings(modeKey, true, FirstImageKey(Catalog, Keys).value), None)
    else if s.batchModel !in Catalog then Click(s.(outputMode := modeKey), Some(UnknownModelError))
    else if ImageOutput(Catalog[s.batchModel]) then Click(Settings(modeKey, s.batchMode, Keys[1]), None)
    else Click(s.(outputMode := modeKey), None)
  }

  /** After a preset click that does not throw, the batch model is one of the
      chips the new mode offers. */
  lemma PresetKeepsBatchModelOffered(s: Settings, modeKey: string)
    requires ChoosePreset(s, modeKey).error.None?
    ensures ChoosePreset(s, modeKey).settings.batchModel in ModelChoices(modeKey)
  {
    Models.KeysListCatalog();
    FilterMembership(modeKey, Catalog, Keys);
  }

  /** `Object.keys(versusModels).filter(key => versusModels[key])`. */
  function SelectedKeys(keys: seq<string>, flags: map<string, bool>): (r: seq<string>)
    requires forall k :: k in keys ==> k in flags
    ensures |r| <= |keys|
    ensures forall k :: k in r <==> k in keys && flags[k]
  {
    if keys == [] then []
    else
      var rest := SelectedKeys(keys[1..], flags);
      if flags[keys[0]] then [keys[0]] + rest else rest
  }

  /** The number shown as "N selected" in versus mode. */
  function SelectedCount(keys: seq<string>, flags: map<string, bool>): (n: nat)
    requires forall k :: k in keys ==> k in flags
    ensures n <= |keys|
    ensures n == 0 <==> forall k :: k in keys ==> !flags[k]
  {
    var selected := SelectedKeys(keys, flags);
    assert selected != [] ==> selected[0] in selected;
    |selected|
  }

  lemma {:induction false} SelectedKeysCardinality(keys: seq<string>, flags: map<string, bool>)
    requires Distinct(keys)
    requires forall k :: k in keys ==> k in flags
    ensures |SelectedKeys(keys, flags)| == |set k | k in keys && flags[k]|
  {
    if keys != [] {
      var rest := keys[1..];
      SelectedKeysCardinality(rest, flags);
      var all := set k | k in keys && flags[k];
      var tail := set k | k in rest && flags[k];
      assert keys == [keys[0]] + rest;
      if flags[keys[0]] {
        assert all == tail + {keys[0]};
      } else {
        assert all == tail;
      }
    }
  }

  /** With the object's own keys in any order, the count is the number of
      keys whose flag is set, and so never more than the keys. */
  lemma SelectedCountIsSetFlags(keys: seq<string>, flags: map<string, bool>)
    requires Distinct(keys)
    requires forall k :: k in keys <==> k in flags
    ensures SelectedCount(keys, flags) == |set k | k in flags && flags[k]|
    ensures SelectedCount(keys, flags) <= |flags|
  {
    SelectedKeysCardinality(keys, flags);
    var selected := set k | k in flags && flags[k];
    assert (set k | k in keys && flags[k]) == selected;
    SubsetCardinality(selected, flags.Keys);
  }

  /** When only catalog keys are flagged, at most the catalog's five are selected. */
  lemma SelectedCountAtMostCatalog(keys: seq<string>, flags: map<string, bool>)
    requires Distinct(keys)
    requires forall k :: k in keys <==> k in flags
    requires forall k :: k in flags ==> k in Catalog
    ensures SelectedCount(keys, flags) <= |Keys|
  {
    SelectedCountIsSetFlags(keys, flags);
    Models.CatalogSize();
    SubsetCardinality(flags.Keys, Catalog.Keys);
  }

  lemma SubsetCardinality<T>(a: set<T>, b: set<T>)
    requires a <= b
    ensures |a| <= |b|
  {
    assert b == a + (b - a);
  }

  /** `flash` and `pro` selected, `lite` not: the label reads "2 selected". */
  lemma TwoOfThreeSelected()
    ensures SelectedCount(["flash", "pro", "lite"], map["flash" := true, "pro" := true, "lite" := false]) == 2
  {
    var flags := map["flash" := true, "pro" := true, "lite" := false];
    var keys := ["flash", "pro", "lite"];
    assert keys[1..] == ["pro", "lite"] && keys[1..][1..] == ["lite"] && keys[1..][1..][1..] == [];
    assert SelectedKeys(["lite"], flags) == [];
  }
}
