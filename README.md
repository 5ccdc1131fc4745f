# Andoque presentation script, modelled in Dafny

The page script `script.js` colours a scrolling presentation. An observer
reports, per batch, how much of each `.slide` is on screen. The script keeps
the entry with the largest ratio (the first one on a tie). If that slide is
intersecting, its `data-color` (or `#0F4934`) becomes the page background.
When that colour is `#BEE2C8` in any letter case, the slide's graphics get the
dark stroke and the slide gets the `light-text` class. Otherwise the graphics
get the cream stroke and the class is removed. The observer samples 21
thresholds, 0 to 1 in steps of 0.05. Tapping a graphic, or pressing Enter or
Space on it, restarts a CSS animation class chosen by its `data-role`. A timer
removes the class again after the animation's duration plus 30 ms.

Modules:

- `Theme` (`theme.dfy`): the colour rules as functions. These are the
  fallbacks, ASCII upper-casing, the light-background test, the resulting
  look (background, stroke, flag) and the slide's class set after the flag.
- `Thresholds` (`thresholds.dfy`): the loop that builds the threshold list.
- `Selection` (`selection.dfy`): the best-entry scan. `BestIndex` is the
  reference definition, a left-to-right fold. `SelectBest` is the loop.
- `Animation` (`animation.dfy`): the role table, the durations and the
  key filter. It also holds the lookup as written (see Findings).
- `Presentation` (`presentation.dfy`): the state the script changes, as the
  classes `Graphic`, `Slide` and `Page`. It holds the observer callback, the
  load handler and the animation trigger with its deferred removal.
- `Wrappers` (`wrappers.dfy`): `Option`, for attributes that may be missing.

Three behaviours of the code worth knowing:

- The load handler only sets the background. It passes the first slide's raw
  `data-color`, with no fallback, so a slide without a colour leaves the
  background as it was. It does not touch strokes or `light-text`.
- Only `huito` and `maloca` are listed for `play-bounce`. Every role without
  its own table entry gets bounce through the default, except the twelve
  Object.prototype names, which make the trigger throw (see Findings).
- A second trigger does not cancel the first trigger's timer. When that first
  timer fires, it removes the class even though the second removal is still
  pending (`Presentation.RetriggerThenSettle`).

## Model

| member | source | states |
|---|---|---|
| `Selection.BestIndex` | script.js:21-24 | the scan's choice is always an index into the non-empty batch |
| `Selection.BestIndexIsFirstMax` | script.js:21-24 | the chosen entry has a ratio at least that of every entry, and every earlier entry has a strictly smaller one, so a tie keeps the earliest |
| `Selection.StrictlyLargerWins` | script.js:21-24 | an entry beaten strictly by another entry of the batch is never chosen; the winner's ratio is at least the larger one |
| `Selection.FirstMaxUnique` | script.js:21-24 | a batch has at most one first index of maximal ratio, so the scan's choice is determined by that property alone |
| `Selection.Acts` | script.js:25 | the callback acts exactly when the batch is non-empty and its first entry of largest ratio is intersecting |
| `Selection.SelectBest` | script.js:21-24 | the loop returns nothing for an empty batch, and otherwise the first index of maximal ratio |
| `Thresholds.BuildThresholdList` | script.js:14-18 | 21 thresholds; element k is 5k/100; they start at 0, end at 1, strictly increase and lie in [0, 1] |
| `Theme.SlideColor` | script.js:26 | a missing or empty `data-color` gives `#0F4934`; any other value is kept; the result is never empty |
| `Theme.IsLightBg` | script.js:30-32 | the upper-cased comparison holds exactly when the colour equals `#BEE2C8` letter by letter ignoring case |
| `Theme.LowerCaseLightIsLight` | script.js:30-32 | `#bee2c8` and `#BEE2C8` count as light; the fallback `#0F4934` does not |
| `Theme.ThemeFor` | script.js:26-43 | the background is the slide's colour or the fallback; the flag is set exactly for `#BEE2C8` in any case; the stroke is the dark one then and the cream one otherwise |
| `Theme.WithLightText` | script.js:43 | afterwards `light-text` is present exactly when the background is light; every other class is unchanged |
| `Theme.WithLightTextIdempotent` | script.js:43 | setting or clearing the flag a second time changes nothing |
| `Animation.PropertyKey` | script.js:93-94 | a present `data-role` is the lookup key; a missing one reads as the key `null`, which is neither a table entry nor an inherited name |
| `Animation.RoleToAnim` | script.js:94 | every role, missing ones included, yields one of the three animation classes; a listed role gets its table entry and any other gets `play-bounce` |
| `Animation.RoleLookup` | script.js:70-75 | `huito` and `maloca` bounce, `rio` waves, `arbol` sways; a missing or unlisted role bounces |
| `Animation.Duration` | script.js:98 | sway runs 380 ms, wave 360 ms, and every other class 280 ms; each duration belongs to exactly that case |
| `Animation.RemovalDelay` | script.js:98-99 | the removal comes at 410 ms for sway, 390 ms for wave and 310 ms otherwise, always after the animation ends |
| `Animation.RemovalDelays` | script.js:98-99 | the removal comes at 410 ms for sway, 390 ms for wave and 310 ms for bounce, always after the animation ends |
| `Animation.IsActivationKey` | script.js:85 | a key activates exactly when it is `Enter` or a single space |
| `Animation.ActivationKeys` | script.js:85 | the look-alike names `Space`, `Spacebar` and `enter` do not activate |
| `Animation.PropertyRead` | script.js:94 | a read on the table literal finds an own entry exactly for the four roles, and an inherited member exactly for the Object.prototype names |
| `Animation.TriggerAsWritten` | script.js:94-95 | as written, a role naming an inherited Object.prototype member makes the trigger throw |
| `Animation.AsWrittenAgreesElsewhere` | script.js:94 | for every other role the lookup as written plays exactly the class `RoleToAnim` gives |
| `Animation.ConstructorRoleThrows` | script.js:94-95 | role `constructor` throws as written, where the default would give `play-bounce` |
| `Presentation.Graphic.TriggerAnim` | script.js:92-99 | afterwards the role's class (by the own-entry lookup) is present whether or not it was before; no other class and not the stroke changes; one removal of that class is scheduled after its delay |
| `Presentation.Graphic.FireTimer` | script.js:99 | the oldest pending removal takes the class out, and does nothing more if it is already absent |
| `Presentation.Graphic.OnPointerDown` | script.js:79-82 | a pointer press always triggers the animation |
| `Presentation.Graphic.OnKeyDown` | script.js:84-89 | Enter or space triggers the animation; any other key changes nothing |
| `Presentation.RetriggerThenSettle` | script.js:95-99 | contract: after two triggers and both removals, the class is off and nothing is pending; assertions in its body check the steps between (on after the second trigger, already off after the first removal) |
| `Presentation.Page.constructor` | script.js:5-6 | an empty custom property falls back to `#F8EAD7` (stroke on dark) or `#0F4934` (stroke on light); neither colour is empty |
| `Presentation.Page.SetBodyBg` | script.js:8-12 | a missing or empty colour leaves the background unchanged; any other string is assigned as the background |
| `Presentation.Page.ApplyTheme` | script.js:26-43 | the background, each graphic's stroke and the slide's `light-text` flag become those of the slide's theme (`ThemeFor`); the graphics' classes and timers do not change |
| `Presentation.Page.StrokeGraphics` | script.js:34-41 | every graphic of the slide gets the dark stroke when the background is light and the cream one otherwise; their classes and timers do not change |
| `Presentation.Page.ApplyThemeTwice` | script.js:26-43 | applying the same slide's theme twice leaves the same background, strokes and slide classes as applying it once; the graphics' classes and timers do not change |
| `Presentation.Page.OnIntersect` | script.js:20-44 | if the batch is empty or its winner is not intersecting, nothing changes; otherwise the winner's theme is applied and no other slide or graphic of the batch changes |
| `Presentation.Page.OnLoad` | script.js:49-52 | the first slide's own non-empty `data-color` becomes the background; without a slide or such a colour the background is unchanged |

## Left out

- Creating the observer and registering slides with it (script.js:20, 45, 47). `OnIntersect` takes the batch as a parameter.
- DOM queries and reading the custom properties (script.js:2, 5-6, 34, 50, 77). Slides, graphics and the two property values are constructor parameters. The `.trim()` of those values is not modelled; they are taken as already trimmed.
- The start and back-to-top buttons (script.js:54-68). They only scroll the page, behind a null check.
- Listener registration and `preventDefault` (script.js:79-89). Only the handlers' effect on the graphic is modelled.
- The layout flush `void el.offsetWidth` (script.js:96), which changes no modelled state.
- Wall-clock time. A scheduled removal is a `Timer` record in a per-graphic queue, and `FireTimer` is the later step that runs it. All timers of one graphic share one delay, because the role never changes. So within a graphic they fire in scheduling order, which the queue keeps. Interleaving with other graphics' timers is not modelled, since they touch different elements.
- Presentation.Page.SetBodyBg: a style property is modelled as the last string assigned to it. CSS parsing is not modelled, so a value the browser rejects (`data-color="banana"`) is stored here although the page keeps its old background. Read-back serialization is not modelled either. The same holds for the stroke colours `ApplyTheme` assigns.
- Presentation.Graphic.TriggerAnim: plays the class from the table's own entries (`RoleToAnim`). For the twelve Object.prototype names the code as written throws at script.js:95 and changes nothing; that behaviour is modelled only by `Animation.TriggerAsWritten` (see Findings).
- Floating point. Ratios and thresholds are exact reals, so rounding of `i/100` is not modelled.
- Unicode case mapping. `toUpperCase` is modelled as ASCII upper-casing, which is exact for hex colours.

## Findings

| source | as written | input that shows it | evidently intended | confidence | as-written member | corrected member |
|---|---|---|---|---|---|---|
| script.js:94 | `roleToAnim[role]` reads a plain object literal, so it also finds members inherited from Object.prototype. These are truthy, so the `play-bounce` default is skipped. `classList.remove` then gets their string form, which contains spaces, and throws. | a graphic with `data-role="constructor"` (likewise `toString`, `valueOf`, `__proto__`) | any role without its own table entry plays `play-bounce` | medium; not executed | `Animation.TriggerAsWritten` (witness `Animation.ConstructorRoleThrows`) | `Animation.RoleToAnim` |
