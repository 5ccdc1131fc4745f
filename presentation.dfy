/**
 * The page state the script changes: the body background, each slide's class
 * set, and each graphic's stroke colour, class set and pending removals.
 */
module Presentation {
  import opened Wrappers
  import Theme
  import Selection
  import Animation

  /** A deferred class removal, scheduled `delay` milliseconds after its trigger. */
  datatype Timer = Timer(cls: string, delay: nat)

  /** A decorative `.graphic-line` element. */
  class Graphic {
    /** The `data-role` attribute. */
    const role: Option<string>
    /** `style.color`, which the strokes follow. */
    var stroke: string
    /** The element's class list. */
    var classes: set<string>
    /** Removals scheduled against this element, oldest first. */
    var timers: seq<Timer>

    /** The class this graphic plays. */
    function Anim(): string {
      Animation.RoleToAnim(role)
    }

    /** Every pending removal is for this graphic's own class, after its own delay. */
    ghost predicate Valid()
      reads this
    {
      forall t :: t in timers ==> t == Timer(Anim(), Animation.RemovalDelay(Anim()))
    }

    constructor (role: Option<string>, stroke: string, classes: set<string>)
      ensures this.role == role && this.stroke == stroke && this.classes == classes
      ensures timers == [] && Valid()
    {
      this.role := role;
      this.stroke := stroke;
      this.classes := classes;
      timers := [];
    }

    /**
     * Restarts the animation: remove the class, re-add it, and schedule its
     * removal. Whether or not the class was there, it is there afterwards.
     */
    method TriggerAnim()
      requires Valid()
      modifies this
      ensures Valid()
      ensures classes == old(classes) + {Anim()}
      ensures timers == old(timers) + [Timer(Anim(), Animation.RemovalDelay(Anim()))]
      ensures stroke == old(stroke)
    {
      var anim := Animation.RoleToAnim(role);
      classes := classes - {anim};
      classes := classes + {anim};
      timers := timers + [Timer(anim, Animation.RemovalDelay(anim))];
    }

    /** The oldest pending removal fires; a class already absent stays absent. */
    method FireTimer()
      requires Valid() && timers != []
      modifies this
      ensures Valid()
      ensures classes == old(classes) - {Anim()}
      ensures timers == old(timers)[1..]
      ensures stroke == old(stroke)
    {
      assert timers[0] in timers;
      var rest := timers[1..];
      assert forall t :: t in rest ==> t in timers;
      classes := classes - {timers[0].cls};
      timers := rest;
    }

    /** A pointer press always triggers. */
    method OnPointerDown()
      requires Valid()
      modifies this
      ensures Valid()
      ensures classes == old(classes) + {Anim()}
      ensures timers == old(timers) + [Timer(Anim(), Animation.RemovalDelay(Anim()))]
      ensures stroke == old(stroke)
    {
      TriggerAnim();
    }

    /** A key press triggers only for Enter or Space. */
    method OnKeyDown(key: string)
      requires Valid()
      modifies this
      ensures Valid()
      ensures Animation.IsActivationKey(key) ==> classes == old(classes) + {Anim()}
      ensures Animation.IsActivationKey(key) ==>
        timers == old(timers) + [Timer(Anim(), Animation.RemovalDelay(Anim()))]
      ensures !Animation.IsActivationKey(key) ==> classes == old(classes) && timers == old(timers)
      ensures stroke == old(stroke)
    {
      if Animation.IsActivationKey(key) {
        TriggerAnim();
      }
    }
  }

  /** Two quick triggers leave the class on; once both removals fire it is off. */
  method RetriggerThenSettle(g: Graphic)
    requires g.Valid() && g.timers == []
    modifies g
    ensures g.Valid() && g.timers == []
    ensures g.classes == old(g.classes) - {g.Anim()}
  {
    g.TriggerAnim();
    g.TriggerAnim();
    assert g.Anim() in g.classes && |g.timers| == 2;
    g.FireTimer();
    // The first trigger's removal clears the class although the second
    // trigger's removal is still pending.
    assert g.Anim() !in g.classes && |g.timers| == 1;
    g.FireTimer();
    assert g.Anim() !in g.classes;
  }

  /** A `.slide` section. */
  class Slide {
    /** The `data-color` attribute. */
    const color: Option<string>
    /** The `.graphic-line` elements inside it. */
    const graphics: seq<Graphic>
    /** The element's class list. */
    var classes: set<string>

    constructor (color: Option<string>, graphics: seq<Graphic>, classes: set<string>)
      ensures this.color == color && this.graphics == graphics && this.classes == classes
    {
      this.color := color;
      this.graphics := graphics;
      this.classes := classes;
    }

    /** The slide and its graphics: what applying its theme may change. */
    function Footprint(): set<object> {
      {this as object} + set g | g in graphics :: g as object
    }
  }

  /** Everything the slides of a batch own. */
  function BatchFootprint(entries: seq<Selection.Entry<Slide>>): set<object> {
    set e, o | e in entries && o in e.target.Footprint() :: o
  }

  /** The page: its background and the two contrast colours it resolved at start-up. */
  class Page {
    /** `document.body.style.background`. */
    var background: string
    /** Stroke on dark backgrounds (`--text-light`, or its fallback). */
    const darkText: string
    /** Stroke on the light background (`--text-dark`, or its fallback). */
    const lightStroke: string
    /** The `.slide` sections in document order. */
    const slides: seq<Slide>

    /** Reads the two custom properties, falling back to the literals when empty. */
    constructor (background: string, textLight: string, textDark: string, slides: seq<Slide>)
      ensures this.background == background && this.slides == slides
      ensures darkText == Theme.OrElse(textLight, Theme.DarkTextFallback)
      ensures lightStroke == Theme.OrElse(textDark, Theme.LightStrokeFallback)
      ensures darkText != "" && lightStroke != ""
    {
      this.background := background;
      darkText := Theme.OrElse(textLight, Theme.DarkTextFallback);
      lightStroke := Theme.OrElse(textDark, Theme.LightStrokeFallback);
      this.slides := slides;
    }

    /** Sets the background, unless the colour is absent or empty. */
    method SetBodyBg(color: Option<string>)
      modifies this`background
      ensures color.Some? && color.value != "" ==> background == color.value
      ensures color.None? || color.value == "" ==> background == old(background)
    {
      if color.None? || color.value == "" {
        return;
      }
      background := color.value;
    }

    /**
     * Applies the theme of `slide`: page background, the stroke of each of its
     * graphics, and its `light-text` flag. Nothing else changes.
     */
    method ApplyTheme(slide: Slide)
      modifies this`background, slide`classes, set g | g in slide.graphics
      ensures var t := Theme.ThemeFor(slide.color, darkText, lightStroke);
        && background == t.background
        && (forall g :: g in slide.graphics ==> g.stroke == t.stroke)
        && slide.classes == Theme.WithLightText(old(slide.classes), t.lightText)
      ensures forall g :: g in slide.graphics ==> g.classes == old(g.classes) && g.timers == old(g.timers)
    {
      // The colour with its fallback, and the light-background test on it.
      var look := Theme.ThemeFor(slide.color, darkText, lightStroke);
      SetBodyBg(Some(look.background));
      var isLightBg := look.lightText;
      StrokeGraphics(slide.graphics, isLightBg);
      if isLightBg {
        slide.classes := slide.classes + {Theme.LightTextClass};
      } else {
        slide.classes := slide.classes - {Theme.LightTextClass};
      }
    }

    /** Gives every graphic the stroke that contrasts with the background. */
    method StrokeGraphics(gs: seq<Graphic>, isLightBg: bool)
      modifies set g | g in gs
      ensures forall g :: g in gs ==> g.stroke == (if isLightBg then lightStroke else darkText)
      ensures forall g :: g in gs ==> g.classes == old(g.classes) && g.timers == old(g.timers)
    {
      for i := 0 to |gs|
        invariant forall j :: 0 <= j < i ==> gs[j].stroke == (if isLightBg then lightStroke else darkText)
        invariant forall g :: g in gs ==> g.classes == old(g.classes) && g.timers == old(g.timers)
      {
        if isLightBg {
          gs[i].stroke := lightStroke;
        } else {
          gs[i].stroke := darkText;
        }
      }
    }

    /** Applying a slide's theme a second time changes nothing more. */
    method ApplyThemeTwice(slide: Slide)
      modifies this`background, slide`classes, set g | g in slide.graphics
      ensures var t := Theme.ThemeFor(slide.color, darkText, lightStroke);
        && background == t.background
        && (forall g :: g in slide.graphics ==> g.stroke == t.stroke)
        && slide.classes == Theme.WithLightText(old(slide.classes), t.lightText)
      ensures forall g :: g in slide.graphics ==> g.classes == old(g.classes) && g.timers == old(g.timers)
    {
      ApplyTheme(slide);
      ApplyTheme(slide);
      Theme.WithLightTextIdempotent(old(slide.classes), Theme.ThemeFor(slide.color, darkText, lightStroke).lightText);
    }

    /**
     * The observer callback: pick the entry the scan keeps and, if it is
     * intersecting, apply its slide's theme; otherwise change nothing.
     */
    method OnIntersect(entries: seq<Selection.Entry<Slide>>)
      modifies this`background, BatchFootprint(entries)
      ensures !Selection.Acts(entries) ==> background == old(background) && unchanged(BatchFootprint(entries))
      ensures Selection.Acts(entries) ==>
        var slide := entries[Selection.BestIndex(entries)].target;
        var t := Theme.ThemeFor(slide.color, darkText, lightStroke);
        && background == t.background
        && (forall g :: g in slide.graphics ==>
              g.stroke == t.stroke && g.classes == old(g.classes) && g.timers == old(g.timers))
        && slide.classes == Theme.WithLightText(old(slide.classes), t.lightText)
        && unchanged(BatchFootprint(entries) - slide.Footprint())
    {
      var best := Selection.SelectBest(entries);
      if best.Some? && entries[best.value].isIntersecting {
        var slide := entries[best.value].target;
        assert slide.Footprint() <= BatchFootprint(entries);
        ApplyTheme(slide);
      }
    }

    /** On load, the first slide's own `data-color` (no fallback) becomes the background. */
    method OnLoad()
      modifies this`background
      ensures |slides| > 0 && slides[0].color.Some? && slides[0].color.value != "" ==>
        background == slides[0].color.value
      ensures |slides| == 0 || slides[0].color.None? || slides[0].color.value == "" ==>
        background == old(background)
    {
      if |slides| > 0 {
        SetBodyBg(slides[0].color);
      }
    }
  }
}
