/**
 * The property tables of lib/Parser.php and lib/CSSTidy.php: each known
 * property name maps to the comma-separated list of CSS levels that define it.
 */
module Properties {

  const FromCss1 := "CSS1.0,CSS2.0,CSS2.1,CSS3.0"
  const FromCss2 := "CSS2.0,CSS2.1,CSS3.0"
  const Css3Only := "CSS3.0"
  const Css2And3 := "CSS2.0,CSS3.0"
  const Css1To3Not21 := "CSS1.0,CSS2.0,CSS3.0"

  /** `Parser::$allProperties` (a repeated key in the PHP literal keeps its one value). */
  const AllProperties: map<string, string> := map[
    "background" := FromCss1,
    "background-color" := FromCss1,
    "background-image" := FromCss1,
    "background-repeat" := FromCss1,
    "background-attachment" := FromCss1,
    "background-position" := FromCss1,
    "border" := FromCss1,
    "border-top" := FromCss1,
    "border-right" := FromCss1,
    "border-bottom" := FromCss1,
    "border-left" := FromCss1,
    "border-color" := FromCss1,
    "border-top-color" := FromCss2,
    "border-bottom-color" := FromCss2,
    "border-left-color" := FromCss2,
    "border-right-color" := FromCss2,
    "border-style" := FromCss1,
    "border-top-style" := FromCss2,
    "border-right-style" := FromCss2,
    "border-left-style" := FromCss2,
    "border-bottom-style" := FromCss2,
    "border-width" := FromCss1,
    "border-top-width" := FromCss1,
    "border-right-width" := FromCss1,
    "border-left-width" := FromCss1,
    "border-bottom-width" := FromCss1,
    "border-collapse" := FromCss2,
    "border-spacing" := FromCss2,
    "bottom" := FromCss2,
    "caption-side" := FromCss2,
    "content" := FromCss2,
    "clear" := FromCss1,
    "clip" := FromCss1,
    "color" := FromCss1,
    "counter-reset" := FromCss2,
    "counter-increment" := FromCss2,
    "cursor" := FromCss2,
    "empty-cells" := FromCss2,
    "display" := FromCss1,
    "direction" := FromCss2,
    "float" := FromCss1,
    "font" := FromCss1,
    "font-family" := FromCss1,
    "font-style" := FromCss1,
    "font-variant" := FromCss1,
    "font-weight" := FromCss1,
    "font-stretch" := Css2And3,
    "font-size-adjust" := Css2And3,
    "font-size" := FromCss1,
    "height" := FromCss1,
    "left" := FromCss1,
    "line-height" := FromCss1,
    "list-style" := FromCss1,
    "list-style-type" := FromCss1,
    "list-style-image" := FromCss1,
    "list-style-position" := FromCss1,
    "margin" := FromCss1,
    "margin-top" := FromCss1,
    "margin-right" := FromCss1,
    "margin-bottom" := FromCss1,
    "margin-left" := FromCss1,
    "marks" := Css1To3Not21,
    "marker-offset" := Css2And3,
    "max-height" := FromCss2,
    "max-width" := FromCss2,
    "min-height" := FromCss2,
    "min-width" := FromCss2,
    "overflow" := FromCss1,
    "orphans" := FromCss2,
    "outline" := FromCss2,
    "outline-width" := FromCss2,
    "outline-style" := FromCss2,
    "outline-color" := FromCss2,
    "padding" := FromCss1,
    "padding-top" := FromCss1,
    "padding-right" := FromCss1,
    "padding-bottom" := FromCss1,
    "padding-left" := FromCss1,
    "page-break-before" := FromCss1,
    "page-break-after" := FromCss1,
    "page-break-inside" := FromCss2,
    "page" := Css2And3,
    "position" := FromCss1,
    "quotes" := FromCss2,
    "right" := FromCss2,
    "size" := Css1To3Not21,
    "speak-header" := FromCss2,
    "table-layout" := FromCss2,
    "top" := FromCss1,
    "text-indent" := FromCss1,
    "text-align" := FromCss1,
    "text-decoration" := FromCss1,
    "text-shadow" := Css2And3,
    "letter-spacing" := FromCss1,
    "word-spacing" := FromCss1,
    "text-transform" := FromCss1,
    "white-space" := FromCss1,
    "unicode-bidi" := FromCss2,
    "vertical-align" := FromCss1,
    "visibility" := FromCss1,
    "width" := FromCss1,
    "widows" := FromCss2,
    "z-index" := FromCss1,
    "volume" := FromCss2,
    "speak" := FromCss2,
    "pause" := FromCss2,
    "pause-before" := FromCss2,
    "pause-after" := FromCss2,
    "cue" := FromCss2,
    "cue-before" := FromCss2,
    "cue-after" := FromCss2,
    "play-during" := FromCss2,
    "azimuth" := FromCss2,
    "elevation" := FromCss2,
    "speech-rate" := FromCss2,
    "voice-family" := FromCss2,
    "pitch" := FromCss2,
    "pitch-range" := FromCss2,
    "stress" := FromCss2,
    "richness" := FromCss2,
    "speak-punctuation" := FromCss2,
    "speak-numeral" := FromCss2,
    "animation-timing-function" := Css3Only,
    "animation-name" := Css3Only,
    "animation-duration" := Css3Only,
    "animation-iteration-count" := Css3Only,
    "animation-direction" := Css3Only,
    "animation-play-state" := Css3Only,
    "animation-delay" := Css3Only,
    "animation" := Css3Only,
    "background-size" := Css3Only,
    "background-origin" := Css3Only,
    "border-radius" := Css3Only,
    "border-top-right-radius" := Css3Only,
    "border-bottom-right-radius" := Css3Only,
    "border-bottom-left-radius" := Css3Only,
    "border-top-left-radius" := Css3Only,
    "border-image" := Css3Only,
    "box-shadow" := Css3Only,
    "src" := Css3Only,
    "font-variant-east-asian" := Css3Only,
    "font-variant-numeric" := Css3Only,
    "font-variant-ligatures" := Css3Only,
    "font-feature-settings" := Css3Only,
    "font-language-override" := Css3Only,
    "font-kerning" := Css3Only,
    "opacity" := Css3Only,
    "overflow-x" := Css3Only,
    "overflow-y" := Css3Only,
    "pointer-events" := Css3Only,
    "user-select" := Css3Only,
    "image-rendering" := Css3Only,
    "image-resolution" := Css3Only,
    "image-orientation" := Css3Only,
    "transform" := Css3Only,
    "transform-origin" := Css3Only,
    "transform-style" := Css3Only,
    "perspective" := Css3Only,
    "perspective-origin" := Css3Only,
    "backface-visibility" := Css3Only,
    "transition" := Css3Only,
    "transition-delay" := Css3Only,
    "transition-duration" := Css3Only,
    "transition-property" := Css3Only,
    "transition-timing-function" := Css3Only,
    "voice-pitch" := Css3Only
  ]

  /** The properties `Parser::$allProperties` has and `CSSTidy::$allProperties` lacks. */
  const AddedInParser: set<string> := {
    "animation-timing-function",
    "animation-name",
    "animation-duration",
    "animation-iteration-count",
    "animation-direction",
    "animation-play-state",
    "animation-delay",
    "animation",
    "src",
    "font-variant-east-asian",
    "font-variant-numeric",
    "font-variant-ligatures",
    "font-feature-settings",
    "font-language-override",
    "font-kerning",
    "opacity",
    "overflow-x",
    "overflow-y",
    "pointer-events",
    "user-select",
    "image-rendering",
    "image-resolution",
    "image-orientation",
    "transform",
    "transform-origin",
    "transform-style",
    "perspective",
    "perspective-origin",
    "backface-visibility",
    "transition",
    "transition-delay",
    "transition-duration",
    "transition-property",
    "transition-timing-function",
    "voice-pitch"
  }

  /**
   * `CSSTidy::$allProperties`: the same entries, with the same level lists,
   * minus the animation, transform, transition and other later additions.
   */
  const LegacyProperties: map<string, string> :=
    map p | p in AllProperties && p !in AddedInParser :: AllProperties[p]
}
