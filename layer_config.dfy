/**
 * The options `watermark.set` accepts and the render config `setWatermark`
 * derives from them in src/main.js, for the visible layer (the mask) and
 * for the shadow layer.
 */
module LayerConfig {
  import opened Wrappers
  import Djb2

  /**
   * The caller's options.  `None` is an omitted (undefined) property, which
   * takes the destructuring default.  `invisible` selects the layer and
   * `opacity` is not read by `setWatermark` but is read by the integrity
   * check's restore; both are properties a caller may pass.  `alpha` is the
   * text spliced into the rgba() colour.
   */
  datatype Options = Options(
    title: Option<string>,
    subtitle: Option<string>,
    width: Option<int>,
    height: Option<int>,
    angle: Option<int>,
    fontSize: Option<string>,
    alpha: Option<string>,
    invisible: Option<bool>,
    opacity: Option<real>)

  datatype Color = Rgba(red: nat, green: nat, blue: nat, alpha: string)

  /** What the canvas is drawn from; its serialisation is the cache key. */
  datatype Config = Config(
    str1: string,
    str2: string,
    width: int,
    height: int,
    angle: int,
    fontSize: string,
    color: Color,
    zIndex: int,
    opacity: real)

  const MaskZIndex: int := 10000
  const ShadowZIndex: int := 10001

  /** The text appended to the visible title: a space and U+54C9. */
  const TitleSuffix: string := " \U{54C9}"

  function ZIndexFor(isInvisible: bool): int
  {
    if isInvisible then ShadowZIndex else MaskZIndex
  }

  /** A destructuring default: the given value, or the default when omitted. */
  function Or<T>(o: Option<T>, default: T): T
  {
    match o
    case Some(v) => v
    case None => default
  }

  predicate InvisibleFlag(o: Options)
  {
    o.invisible == Some(true)
  }

  function ShadowConfig(title: string, subtitle: string): Config
  {
    Config(Djb2.HashShort(title), Djb2.HashShort(subtitle), 120, 120, 30, "22px",
           Rgba(128, 128, 128, "0.016"), ShadowZIndex, 1.0)
  }

  function VisibleConfig(o: Options): Config
  {
    Config(Or(o.title, "") + TitleSuffix, "", Or(o.width, 240), Or(o.height, 180),
           Or(o.angle, -20), Or(o.fontSize, "22px"),
           Rgba(128, 128, 128, Or(o.alpha, "0.2")), MaskZIndex, 0.5)
  }

  /** The config `setWatermark` renders for the layer the options select. */
  function DeriveConfig(o: Options): Config
  {
    if InvisibleFlag(o) then ShadowConfig(Or(o.title, ""), Or(o.subtitle, ""))
    else VisibleConfig(o)
  }

  /** `config.opacity || (isInvisible ? 1 : 0.5)`; an opacity of 0 is falsy. */
  function RestoreOpacity(config: Options, isInvisible: bool): real
  {
    if config.opacity.Some? && config.opacity.value != 0.0 then config.opacity.value
    else if isInvisible then 1.0 else 0.5
  }

  /**
   * The shadow layer ignores everything but the title and subtitle: width,
   * height, angle, font size and alpha of the caller make no difference.
   */
  lemma ShadowIgnoresCaller(o1: Options, o2: Options)
    requires InvisibleFlag(o1) && InvisibleFlag(o2)
    requires Or(o1.title, "") == Or(o2.title, "") && Or(o1.subtitle, "") == Or(o2.subtitle, "")
    ensures DeriveConfig(o1) == DeriveConfig(o2)
  {
  }

  /** The shadow layer draws only the hashes, 120x120 at 30 degrees, above the mask. */
  lemma ShadowLayer(o: Options)
    requires InvisibleFlag(o)
    ensures var c := DeriveConfig(o);
            && c.width == 120 && c.height == 120 && c.angle == 30 && c.fontSize == "22px"
            && c.zIndex == 10001 && c.opacity == 1.0
            && c.str1 == Djb2.HashShort(Or(o.title, ""))
            && c.str2 == Djb2.HashShort(Or(o.subtitle, ""))
            && 1 <= |c.str1| <= 8 && 1 <= |c.str2| <= 8
  {
  }

  /** Without a title the shadow layer draws the seed, "1505", on both lines. */
  lemma ShadowWithoutTitle(o: Options)
    requires InvisibleFlag(o) && o.title.None? && o.subtitle.None?
    ensures DeriveConfig(o).str1 == "1505" && DeriveConfig(o).str2 == "1505"
  {
    Djb2.HashShortEmpty();
  }

  /** The visible layer shows the title, passes the geometry through, and defaults what is omitted. */
  lemma VisibleLayer(o: Options)
    requires !InvisibleFlag(o)
    ensures var c := DeriveConfig(o);
            && c.str1 == Or(o.title, "") + TitleSuffix && c.str2 == ""
            && c.width == Or(o.width, 240) && c.height == Or(o.height, 180)
            && c.angle == Or(o.angle, -20) && c.fontSize == Or(o.fontSize, "22px")
            && c.color.alpha == Or(o.alpha, "0.2")
            && c.zIndex == 10000 && c.opacity == 0.5
  {
  }

  /** The layers are told apart by z-index, the shadow above the mask. */
  lemma ZIndexSelectsLayer(o: Options)
    ensures DeriveConfig(o).zIndex == ZIndexFor(InvisibleFlag(o))
    ensures ZIndexFor(false) < ZIndexFor(true)
  {
  }

  /**
   * Without a caller opacity, the restore writes the opacity the layer was
   * created with (0.5 for the mask, 1 for the shadow).
   */
  lemma RestoreMatchesCreation(o: Options)
    requires o.opacity.None? || o.opacity == Some(0.0)
    ensures RestoreOpacity(o, InvisibleFlag(o)) == DeriveConfig(o).opacity
  {
  }

  /**
   * A caller opacity that is non-zero and below 0.01 is written back by the
   * restore, so the restored element still reads as hidden.
   */
  lemma RestoreStillHidden(o: Options, isInvisible: bool)
    ensures RestoreOpacity(o, isInvisible) < 0.01 <==>
            (o.opacity.Some? && o.opacity.value != 0.0 && o.opacity.value < 0.01)
  {
  }
}
