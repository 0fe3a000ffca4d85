/**
 * public/js/theme.js: the day/night theme. The automatic choice follows the
 * clock's hour (a parameter), a saved preference (the `travelAlbum_theme`
 * key of `localStorage`) overrides it, and applying a theme sets the body's
 * classes, the two background canvases' opacity and which of the two
 * canvas animations runs.
 */
module Theme {
  import opened Wrappers

  const Day: string := "day"
  const Night: string := "night"
  const Transitioning: string := "theme-transitioning"

  /** `getAutoTheme()` for the local hour `new Date().getHours()`. */
  function AutoTheme(hour: int): (t: string)
    requires 0 <= hour < 24
    ensures t == Day || t == Night
    ensures t == Day <==> 7 <= hour < 18
  {
    if hour >= 7 && hour < 18 then Day else Night
  }

  /** `getCurrentTheme()`: `localStorage.getItem(KEY) || getAutoTheme()`. */
  function CurrentTheme(saved: Option<string>, hour: int): (t: string)
    requires 0 <= hour < 24
    ensures saved.Some? && saved.value != "" ==> t == saved.value
    ensures saved.None? || saved.value == "" ==> t == AutoTheme(hour)
  {
    if saved.Some? && saved.value != "" then saved.value else AutoTheme(hour)
  }

  /** The theme `toggleTheme` switches to: night after day, day after anything else. */
  function NextTheme(current: string): (t: string)
    ensures t == Day || t == Night
    ensures current == Day ==> t == Night
    ensures current != Day ==> t == Day
  {
    if current == Day then Night else Day
  }

  /** The preference saved by `toggleTheme` at the given hour. */
  function Toggled(saved: Option<string>, hour: int): (r: Option<string>)
    requires 0 <= hour < 24
    ensures r.Some? && (r.value == Day || r.value == Night)
    ensures r.value != CurrentTheme(saved, hour) || CurrentTheme(saved, hour) != Day
  {
    Some(NextTheme(CurrentTheme(saved, hour)))
  }

  /**
   * Toggling twice from a saved day or night preference brings it back,
   * whatever the hours of the two clicks, and the page then shows it.
   */
  lemma ToggleTwice(saved: Option<string>, h1: int, h2: int, h3: int)
    requires 0 <= h1 < 24 && 0 <= h2 < 24 && 0 <= h3 < 24
    requires saved == Some(Day) || saved == Some(Night)
    ensures Toggled(Toggled(saved, h1), h2) == saved
    ensures CurrentTheme(Toggled(Toggled(saved, h1), h2), h3) == saved.value
  {
  }

  /** The body's classes after `applyTheme(theme, animated)`. */
  function ThemeClasses(classes: set<string>, theme: string, animated: bool): (r: set<string>)
    ensures "theme-" + theme in r
    ensures theme == Day ==> "theme-day" in r && "theme-night" !in r
    ensures theme == Night ==> "theme-night" in r && "theme-day" !in r
    ensures animated ==> Transitioning in r
    ensures forall c :: c in classes && c != "theme-day" && c != "theme-night" ==> c in r
    ensures forall c :: c in r ==> c in classes || c == "theme-" + theme || (animated && c == Transitioning)
  {
    assert "theme-" + Day == "theme-day" && "theme-" + Night == "theme-night";
    var withTransition := if animated then classes + {Transitioning} else classes;
    withTransition - {"theme-day", "theme-night"} + {"theme-" + theme}
  }

  /** `(theme === shown) ? '' : '0'`: a canvas is visible only for its own theme. */
  function CanvasOpacity(theme: string, shown: string): (o: string)
    ensures o == "" <==> theme == shown
  {
    if theme == shown then "" else "0"
  }

  /**
   * The page state `applyTheme` and `toggleTheme` work on. The canvases, the
   * animation objects and the toggle button may be missing from a page;
   * a missing one is left alone.
   */
  class ThemePage {
    var bodyClasses: set<string>
    /** `localStorage.getItem('travelAlbum_theme')`. */
    var saved: Option<string>
    const hasStarCanvas: bool
    const hasSkyCanvas: bool
    var starOpacity: string
    var skyOpacity: string
    const hasStarAnim: bool
    const hasSkyAnim: bool
    var starRunning: bool
    var skyRunning: bool
    const hasButton: bool
    var buttonTitle: string

    constructor (saved: Option<string>, hasStarCanvas: bool, hasSkyCanvas: bool,
                 hasStarAnim: bool, hasSkyAnim: bool, hasButton: bool)
      ensures this.saved == saved && bodyClasses == {}
      ensures this.hasStarCanvas == hasStarCanvas && this.hasSkyCanvas == hasSkyCanvas
      ensures this.hasStarAnim == hasStarAnim && this.hasSkyAnim == hasSkyAnim && this.hasButton == hasButton
      ensures starOpacity == "" && skyOpacity == "" && !starRunning && !skyRunning && buttonTitle == ""
    {
      this.saved := saved;
      this.hasStarCanvas, this.hasSkyCanvas := hasStarCanvas, hasSkyCanvas;
      this.hasStarAnim, this.hasSkyAnim, this.hasButton := hasStarAnim, hasSkyAnim, hasButton;
      bodyClasses := {};
      starOpacity, skyOpacity := "", "";
      starRunning, skyRunning := false, false;
      buttonTitle := "";
    }

    /**
     * `applyTheme(theme, animated)`. The 1.2 s timer that removes the
     * transition class again is not modelled.
     */
    method ApplyTheme(theme: string, animated: bool)
      modifies this
      ensures bodyClasses == ThemeClasses(old(bodyClasses), theme, animated)
      ensures starOpacity == if hasStarCanvas then CanvasOpacity(theme, Night) else old(starOpacity)
      ensures skyOpacity == if hasSkyCanvas then CanvasOpacity(theme, Day) else old(skyOpacity)
      ensures starRunning == if hasStarAnim then theme == Night else old(starRunning)
      ensures skyRunning == if hasSkyAnim then theme != Night else old(skyRunning)
      ensures buttonTitle == if hasButton then (if theme == Day then "切换到夜间模式" else "切换到日间模式") else old(buttonTitle)
      ensures saved == old(saved)
    {
      SetThemeClass(theme, animated);
      ShowCanvas(theme);
      RunAnimation(theme);
      if hasButton {
        buttonTitle := if theme == Day then "切换到夜间模式" else "切换到日间模式";
      }
    }

    /** The class list part of `applyTheme`. */
    method SetThemeClass(theme: string, animated: bool)
      modifies this`bodyClasses
      ensures bodyClasses == ThemeClasses(old(bodyClasses), theme, animated)
    {
      if animated {
        bodyClasses := bodyClasses + {Transitioning};
      }
      bodyClasses := bodyClasses - {"theme-day", "theme-night"};
      bodyClasses := bodyClasses + {"theme-" + theme};
    }

    /** The canvas opacity part of `applyTheme`. */
    method ShowCanvas(theme: string)
      modifies this`starOpacity, this`skyOpacity
      ensures starOpacity == if hasStarCanvas then CanvasOpacity(theme, Night) else old(starOpacity)
      ensures skyOpacity == if hasSkyCanvas then CanvasOpacity(theme, Day) else old(skyOpacity)
    {
      if hasStarCanvas {
        starOpacity := if theme == Night then "" else "0";
      }
      if hasSkyCanvas {
        skyOpacity := if theme == Day then "" else "0";
      }
    }

    /** The animation part of `applyTheme`: only the visible canvas's animation runs. */
    method RunAnimation(theme: string)
      modifies this`starRunning, this`skyRunning
      ensures starRunning == if hasStarAnim then theme == Night else old(starRunning)
      ensures skyRunning == if hasSkyAnim then theme != Night else old(skyRunning)
    {
      if theme == Night {
        if hasStarAnim { starRunning := true; }
        if hasSkyAnim { skyRunning := false; }
      } else {
        if hasSkyAnim { skyRunning := true; }
        if hasStarAnim { starRunning := false; }
      }
    }

    /** The page's start-up: the current theme, applied without the transition. */
    method Init(hour: int)
      requires 0 <= hour < 24
      modifies this
      ensures saved == old(saved)
      ensures bodyClasses == ThemeClasses(old(bodyClasses), CurrentTheme(saved, hour), false)
      ensures saved.None? ==> ("theme-day" in bodyClasses <==> "theme-night" !in bodyClasses)
      ensures var theme := CurrentTheme(saved, hour);
        starOpacity == (if hasStarCanvas then CanvasOpacity(theme, Night) else old(starOpacity)) &&
        skyOpacity == (if hasSkyCanvas then CanvasOpacity(theme, Day) else old(skyOpacity)) &&
        starRunning == (if hasStarAnim then theme == Night else old(starRunning)) &&
        skyRunning == (if hasSkyAnim then theme != Night else old(skyRunning)) &&
        buttonTitle == (if hasButton then (if theme == Day then "切换到夜间模式" else "切换到日间模式") else old(buttonTitle))
    {
      var theme := CurrentTheme(saved, hour);
      ApplyTheme(theme, false);
    }

    /**
     * `toggleTheme()`: saves the other theme and applies it with the
     * transition. Afterwards the body carries exactly one of the two
     * theme classes, and exactly one of the two animations runs when both
     * exist.
     */
    method ToggleTheme(hour: int)
      requires 0 <= hour < 24
      modifies this
      ensures saved == Toggled(old(saved), hour)
      ensures bodyClasses == ThemeClasses(old(bodyClasses), saved.value, true)
      ensures "theme-day" in bodyClasses <==> "theme-night" !in bodyClasses
      ensures hasStarAnim && hasSkyAnim ==> starRunning != skyRunning
      ensures hasStarCanvas && hasSkyCanvas ==> (starOpacity == "") != (skyOpacity == "")
      ensures var theme := saved.value;
        starOpacity == (if hasStarCanvas then CanvasOpacity(theme, Night) else old(starOpacity)) &&
        skyOpacity == (if hasSkyCanvas then CanvasOpacity(theme, Day) else old(skyOpacity)) &&
        starRunning == (if hasStarAnim then theme == Night else old(starRunning)) &&
        skyRunning == (if hasSkyAnim then theme != Night else old(skyRunning)) &&
        buttonTitle == (if hasButton then (if theme == Day then "切换到夜间模式" else "切换到日间模式") else old(buttonTitle))
    {
      var current := CurrentTheme(saved, hour);
      var next := if current == Day then Night else Day;
      saved := Some(next);
      ApplyTheme(next, true);
    }
  }
}
