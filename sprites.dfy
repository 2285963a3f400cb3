/** The alien sprite table: assets keyed by (evolution stage, action), and
    what it means for a lookup to fall back to a lower stage. */
module Sprites {
  datatype Option<T> = None | Some(value: T)

  /** The three alien poses the renderer asks for. */
  datatype Action = Idle | Catch | Explode

  /** The key `stage<stage>_<action>` under which an alien sprite is stored. */
  datatype SpriteKey = SpriteKey(stage: int, action: Action)

  /** What asset loading leaves under a key: the fetched image, or the
      coloured placeholder canvas drawn when the fetch failed. */
  datatype Asset = LoadedImage(url: string) | PlaceholderCanvas(assetKey: string)

  /** `r` is what the fallback walk must return for `stage`: the asset of the
      highest stage s with 1 <= s < stage that has one for `action`, or None
      when no stage in that range has one. */
  ghost predicate IsFallback(images: map<SpriteKey, Asset>, stage: int, action: Action, r: Option<Asset>)
  {
    match r
    case None => forall t :: 1 <= t < stage ==> SpriteKey(t, action) !in images
    case Some(a) =>
      exists s :: 1 <= s < stage && SpriteKey(s, action) in images && images[SpriteKey(s, action)] == a &&
        forall t :: s < t < stage ==> SpriteKey(t, action) !in images
  }

  /** The own key first, then the fallback walk below it. */
  ghost predicate IsAlienSprite(images: map<SpriteKey, Asset>, stage: int, action: Action, r: Option<Asset>)
  {
    if SpriteKey(stage, action) in images then r == Some(images[SpriteKey(stage, action)])
    else IsFallback(images, stage, action, r)
  }

  /** The fallback answer is determined by the table: two answers that both
      meet IsFallback are the same. */
  lemma FallbackUnique(images: map<SpriteKey, Asset>, stage: int, action: Action, r1: Option<Asset>, r2: Option<Asset>)
    requires IsFallback(images, stage, action, r1)
    requires IsFallback(images, stage, action, r2)
    ensures r1 == r2
  {
  }

  /** A table with all stages 1..top loaded for `action` never falls back
      further than one stage: the fallback for any stage in 2..top+1 is the
      asset of the stage directly below. */
  lemma FullTableFallsBackOneStage(images: map<SpriteKey, Asset>, top: int, stage: int, action: Action)
    requires forall s :: 1 <= s <= top ==> SpriteKey(s, action) in images
    requires 2 <= stage <= top + 1
    ensures IsFallback(images, stage, action, Some(images[SpriteKey(stage - 1, action)]))
  {
  }
}
