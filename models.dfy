/** The fixed model catalog: an object literal of five entries keyed by model key. */
module Models {
  import opened Js

  /** One catalog entry. `imageOutput` is `None` where the entry omits the key. */
  datatype ModelConfig = ModelConfig(
    name: string,
    version: string,
    modelString: string,
    shortName: string,
    thinkingCapable: bool,
    thinking: bool,
    imageOutput: Option<bool>)

  /** `Object.keys(models)`: the keys in the order the literal declares them. */
  const Keys: seq<string> := ["lite", "flash", "flashThinking", "pro", "flashImage"]

  const Catalog: map<string, ModelConfig> := map[
    "lite" := ModelConfig("Flash-Lite", "2.5", "gemini-2.5-flash", "Lite", true, false, None),
    "flash" := ModelConfig("Flash (thinking off)", "2.5", "gemini-2.5-flash", "Flash", true, false, None),
    "flashThinking" := ModelConfig("Flash", "2.5", "gemini-2.5-flash", "Flash", true, true, None),
    "pro" := ModelConfig("Pro", "2.5", "gemini-2.5-flash", "Pro", true, true, None),
    "flashImage" := ModelConfig("Flash Image", "2.5", "gemini-2.5-flash-image-preview", "Flash Image", false, false, Some(true))
  ]

  /** The truthiness of `models[key].imageOutput`. */
  predicate ImageOutput(c: ModelConfig) {
    c.imageOutput == Some(true)
  }

  /** The key order lists every catalog key exactly once. */
  lemma KeysListCatalog()
    ensures |Keys| == 5 && Distinct(Keys)
    ensures forall k :: k in Keys <==> k in Catalog
  {
  }

  /** The catalog has five entries. */
  lemma CatalogSize()
    ensures |Catalog| == |Keys| == 5
  {
  }

  /** `flashImage` is the one image-output entry; the others omit the flag. */
  lemma OnlyFlashImageOutputsImages()
    ensures forall k :: k in Catalog ==> (ImageOutput(Catalog[k]) <==> k == "flashImage")
    ensures forall k :: k in Catalog && k != "flashImage" ==> Catalog[k].imageOutput.None?
  {
  }

  /** `flashImage` is the one entry that cannot think. */
  lemma OnlyFlashImageCannotThink()
    ensures forall k :: k in Catalog ==> (!Catalog[k].thinkingCapable <==> k == "flashImage")
  {
  }
}
