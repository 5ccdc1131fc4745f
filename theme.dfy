/**
 * The colour rules of the theme controller: which background a slide asks
 * for, whether that background counts as light, and which stroke colour and
 * `light-text` flag go with it.
 */
module Theme {
  import opened Wrappers

  /** Background used when a slide has no usable `data-color`. */
  const DefaultBackground: string := "#0F4934"
  /** The single background colour the page treats as light. */
  const LightBackground: string := "#BEE2C8"
  /** Fallback of the `--text-light` custom property (stroke on dark backgrounds). */
  const DarkTextFallback: string := "#F8EAD7"
  /** Fallback of the `--text-dark` custom property (stroke on the light background). */
  const LightStrokeFallback: string := "#0F4934"
  /** Class a slide carries while its background is light. */
  const LightTextClass: string := "light-text"

  /** JavaScript's `value || fallback` on a string: the empty string is falsy. */
  function OrElse(value: string, fallback: string): (r: string)
    ensures r == value || r == fallback
    ensures fallback != "" ==> r != ""
  {
    if value == "" then fallback else value
  }

  /** The background a slide asks for: its `data-color`, or the default when absent or empty. */
  function SlideColor(dataColor: Option<string>): (r: string)
    ensures r != ""
    ensures dataColor.Some? && dataColor.value != "" ==> r == dataColor.value
    ensures dataColor.None? || dataColor.value == "" ==> r == DefaultBackground
  {
    OrElse(dataColor.GetOr(""), DefaultBackground)
  }

  /** ASCII upper-casing of one character. */
  function UpperChar(c: char): char {
    if 'a' <= c <= 'z' then (c as int - 32) as char else c
  }

  /** ASCII upper-casing of a string, one character at a time. */
  function ToUpper(s: string): string {
    if s == [] then [] else [UpperChar(s[0])] + ToUpper(s[1..])
  }

  /** Two strings are equal once both are upper-cased, character by character. */
  predicate SameIgnoringCase(a: string, b: string) {
    |a| == |b| && forall i :: 0 <= i < |a| ==> UpperChar(a[i]) == UpperChar(b[i])
  }

  /**
   * The light-background test: both sides are upper-cased, then compared; that
   * holds exactly when the colour equals `#BEE2C8` ignoring case.
   */
  predicate IsLightBg(color: string): (r: bool)
    ensures r <==> SameIgnoringCase(color, LightBackground)
  {
    UpperEqualIff(color);
    ToUpper(color) == ToUpper(LightBackground)
  }

  lemma {:induction false} ToUpperAt(s: string)
    ensures |ToUpper(s)| == |s|
    ensures forall i :: 0 <= i < |s| ==> ToUpper(s)[i] == UpperChar(s[i])
  {
    if s != [] {
      ToUpperAt(s[1..]);
    }
  }

  /** Upper-cased equality with the reference colour is case-insensitive equality. */
  lemma UpperEqualIff(color: string)
    ensures ToUpper(color) == ToUpper(LightBackground) <==> SameIgnoringCase(color, LightBackground)
  {
    ToUpperAt(color);
    ToUpperAt(LightBackground);
    if SameIgnoringCase(color, LightBackground) {
      assert ToUpper(color) == ToUpper(LightBackground);
    }
  }

  /** The reference colour is light in any spelling of its case. */
  lemma LowerCaseLightIsLight()
    ensures IsLightBg("#bee2c8") && IsLightBg(LightBackground)
    ensures !IsLightBg(DefaultBackground)
  {
    assert UpperChar(DefaultBackground[1]) != UpperChar(LightBackground[1]);
  }

  /** What applying a slide's theme does to the page. */
  datatype Look = Look(background: string, stroke: string, lightText: bool)

  /**
   * The theme of a slide with the given `data-color`, given the two resolved
   * contrast colours.
   */
  function ThemeFor(dataColor: Option<string>, darkText: string, lightStroke: string): (t: Look)
    ensures t.background == SlideColor(dataColor)
    ensures t.lightText <==> SameIgnoringCase(t.background, LightBackground)
    ensures t.stroke == (if t.lightText then lightStroke else darkText)
  {
    var color := SlideColor(dataColor);
    var light := IsLightBg(color);
    Look(color, if light then lightStroke else darkText, light)
  }

  /** The slide's class set after the `light-text` flag is set or cleared. */
  function WithLightText(classes: set<string>, light: bool): (r: set<string>)
    ensures LightTextClass in r <==> light
    ensures r - {LightTextClass} == classes - {LightTextClass}
  {
    if light then classes + {LightTextClass} else classes - {LightTextClass}
  }

  /** Setting the flag a second time changes nothing. */
  lemma WithLightTextIdempotent(classes: set<string>, light: bool)
    ensures WithLightText(WithLightText(classes, light), light) == WithLightText(classes, light)
  {
  }
}
