/**
 * The Recolor Orchestrator: the part of `setNavColorAsync` that runs in the
 * one-shot MutationObserver callback. It picks the colours (a configured
 * role setting, or two colours computed from the switcher's colour) and
 * paints every `nav` of the container with the nav colour.
 */
module Recolor {
  import opened Wrappers
  import opened Promises
  import opened Locator
  import opened Color
  import Retry

  /** One entry of the caller's configuration: a role pattern and an optional fixed colour. */
  datatype RoleSetting<P> = RoleSetting(pattern: P, color: Option<string>)

  /** The nav background and the content background the callback settles on. */
  datatype Colors = Colors(nav: string, content: string)

  /**
   * Where `roleSettings.find(x => x.pattern.test(text))` stops: the first
   * setting whose pattern matches `text`, or None when none does.
   */
  function FirstMatch<P>(settings: seq<RoleSetting<P>>, test: (P, string) -> bool, text: string): (k: Option<nat>)
    ensures k.Some? ==> k.value < |settings| && test(settings[k.value].pattern, text)
    ensures forall j :: 0 <= j < |settings| && (k.None? || j < k.value) ==> !test(settings[j].pattern, text)
  {
    if settings == [] then None
    else if test(settings[0].pattern, text) then Some(0)
    else
      match FirstMatch(settings[1..], test, text)
      case None => None
      case Some(i) => Some(i + 1)
  }

  /**
   * The choice made at lines 71-80: the search uses `role ?? ""`, but the
   * setting is used only when the role is present and its pattern matches
   * the role; otherwise both colours are computed from `bgColor`, and a
   * malformed `bgColor` throws.
   */
  function SelectColors<P>(settings: seq<RoleSetting<P>>, test: (P, string) -> bool, role: Option<string>, bgColor: string): Result<Colors, ColorError>
  {
    var found := FirstMatch(settings, test, role.GetOr(""));
    if role.Some? && found.Some? && test(settings[found.value].pattern, role.value) then
      var color := settings[found.value].color.GetOr("");
      Success(Colors(color, color))
    else
      match DetermineNewColor(bgColor)
      case Failure(e) => Failure(e)
      case Success(nav) =>
        match DetermineNewColor(bgColor, 0.95, 0.90)
        case Failure(e) => Failure(e)
        case Success(content) => Success(Colors(nav, content))
  }

  /**
   * A present role that some pattern matches: both colours are the first
   * matching setting's colour, or "" when it has none, whatever the
   * switcher's colour is, even a malformed one.
   */
  lemma OverrideBypassesTransform<P>(settings: seq<RoleSetting<P>>, test: (P, string) -> bool, role: string, bgColor: string, k: nat)
    requires k < |settings| && test(settings[k].pattern, role)
    requires forall j :: 0 <= j < k ==> !test(settings[j].pattern, role)
    ensures SelectColors(settings, test, Some(role), bgColor)
      == Success(Colors(settings[k].color.GetOr(""), settings[k].color.GetOr("")))
  {
    var found := FirstMatch(settings, test, role);
    assert found == Some(k);
  }

  /**
   * An absent role (even when some pattern matches ""), or a role no
   * pattern matches: the nav colour is determineNewColor(bgColor) and the
   * content colour determineNewColor(bgColor, 0.95, 0.90); a malformed
   * `bgColor` throws.
   */
  lemma ComputedWithoutOverride<P>(settings: seq<RoleSetting<P>>, test: (P, string) -> bool, role: Option<string>, bgColor: string)
    requires role.None? || forall j :: 0 <= j < |settings| ==> !test(settings[j].pattern, role.value)
    ensures SelectColors(settings, test, role, bgColor).Failure? <==> ParseRgb(bgColor).None?
    ensures ParseRgb(bgColor).None? ==> SelectColors(settings, test, role, bgColor) == Failure(MalformedColor)
    ensures ParseRgb(bgColor).Some? ==>
      var c := ParseRgb(bgColor).value;
      SelectColors(settings, test, role, bgColor)
        == Success(Colors(FormatHsl(HslOf(c, 1.0, 0.25)), FormatHsl(HslOf(c, 0.95, 0.90))))
  {
    MalformedThrows(bgColor, 1.0, 0.25);
    MalformedThrows(bgColor, 0.95, 0.90);
  }

  /**
   * Lines 84-89: when the nav colour is non-empty every nav gets it; when it
   * is empty nothing is written.
   */
  method ApplyNavColor(navs: array<string>, newBgColor: string)
    modifies navs
    ensures newBgColor != "" ==> forall i :: 0 <= i < navs.Length ==> navs[i] == newBgColor
    ensures newBgColor == "" ==> navs[..] == old(navs[..])
  {
    if newBgColor != "" {
      for i := 0 to navs.Length
        invariant forall j :: 0 <= j < i ==> navs[j] == newBgColor
      {
        navs[i] := newBgColor;
      }
    }
  }

  /**
   * What one run of the observer callback does once the colours are
   * `selected`: on a throw the navs and the promise stay as they were;
   * otherwise a non-empty nav colour is in every nav (an empty one writes
   * nothing) and the promise settles with the content colour.
   */
  predicate Painted(before: seq<string>, after: seq<string>, was: Settlement<string, LookupError>,
                    now: Settlement<string, LookupError>, thrown: Option<ColorError>, selected: Result<Colors, ColorError>)
  {
    match selected
    case Failure(e) => after == before && now == was && thrown == Some(e)
    case Success(colors) =>
      && |after| == |before|
      && (colors.nav != "" ==> forall i :: 0 <= i < |after| ==> after[i] == colors.nav)
      && (colors.nav == "" ==> after == before)
      && now == Settle(was, Resolved(colors.content))
      && thrown == None
  }

  /**
   * One `setNavColorAsync` call after its lookups: whether the reaction to
   * the lookup promise has run, whether the observer is attached, and the
   * promise it returns, settled with the content colour.
   */
  class NavColoring<P> {
    const settings: seq<RoleSetting<P>>
    const test: (P, string) -> bool
    var located: bool
    var observing: bool
    var result: Settlement<string, LookupError>
    /** How many times the observer callback has run its body. */
    ghost var runs: nat

    /** The observer is attached by the one reaction to the lookups and runs its body at most once. */
    ghost predicate Valid()
      reads this
    {
      && runs <= 1
      && (observing ==> located && runs == 0)
      && (!located ==> !observing && runs == 0)
    }

    constructor (settings: seq<RoleSetting<P>>, test: (P, string) -> bool)
      ensures Valid()
      ensures this.settings == settings && this.test == test
      ensures !located && !observing && result == Pending && runs == 0
    {
      this.settings := settings;
      this.test := test;
      located := false;
      observing := false;
      result := Pending;
      runs := 0;
    }

    /**
     * The `then` and `catch` on getNavElementsAsync(document, 300, 100),
     * which run at most once: found elements attach the observer to the
     * header; a rejection rejects the returned promise with the lookup error
     * and attaches nothing; a lookup promise still pending runs neither.
     */
    method OnLocated<X>(lookup: Settlement<X, LookupError>)
      requires Valid() && !located
      modifies this
      ensures Valid() && runs == old(runs)
      ensures located <==> !lookup.Pending?
      ensures observing <==> lookup.Resolved?
      ensures lookup.Rejected? ==> result == Settle(old(result), Rejected(lookup.reason))
      ensures !lookup.Rejected? ==> result == old(result)
    {
      match lookup {
        case Resolved(_) =>
          located := true;
          observing := true;
        case Rejected(e) =>
          located := true;
          if result.Pending? {
            result := Rejected(e);
          }
        case Pending =>
      }
    }

    /**
     * One mutation of the header's children. While observing, the callback
     * disconnects first, then selects the colours, paints the navs and
     * resolves with the content colour; a malformed colour throws out of the
     * callback, painting nothing and leaving the promise pending. Once
     * disconnected, no callback runs.
     */
    method OnMutation(navs: array<string>, role: Option<string>, bgColor: string) returns (thrown: Option<ColorError>)
      requires Valid()
      modifies this, navs
      ensures Valid() && located == old(located)
      ensures !observing
      ensures runs == old(runs) + (if old(observing) then 1 else 0)
      ensures !old(observing) ==> navs[..] == old(navs[..]) && result == old(result) && thrown == None
      ensures old(observing) ==>
        Painted(old(navs[..]), navs[..], old(result), result, thrown, SelectColors(settings, test, role, bgColor))
    {
      var fired := Disconnect();
      if fired {
        thrown := Finish(navs, SelectColors(settings, test, role, bgColor));
      } else {
        thrown := None;
      }
    }

    /** `observer.disconnect()`, reporting whether the callback was attached and so runs its body now. */
    method Disconnect() returns (fired: bool)
      requires Valid()
      modifies this`observing, this`runs
      ensures Valid()
      ensures fired == old(observing) && !observing
      ensures runs == old(runs) + (if fired then 1 else 0)
    {
      fired := observing;
      if observing {
        observing := false;
        runs := runs + 1;
      }
    }

    /** The rest of the callback once the colours are selected, or the throw when they are not. */
    method Finish(navs: array<string>, selected: Result<Colors, ColorError>) returns (thrown: Option<ColorError>)
      modifies this`result, navs
      ensures Painted(old(navs[..]), navs[..], old(result), result, thrown, selected)
    {
      match selected {
        case Failure(e) =>
          thrown := Some(e);
        case Success(colors) =>
          thrown := None;
          ApplyNavColor(navs, colors.nav);
          if result.Pending? {
            result := Resolved(colors.content);
          }
      }
    }
  }

  /**
   * `setNavColorAsync` up to the attachment of the observer: the Retrying
   * Locator runs with the budget 300 over the page's lookup outcomes and its
   * settlement is handed to the `then`/`catch` reaction.
   */
  method StartNavColoring<P, H, C, S>(settings: seq<RoleSetting<P>>, test: (P, string) -> bool,
                                      lookups: seq<Result<NavElements<H, C, S>, LookupError>>)
    returns (coloring: NavColoring<P>, attempts: nat)
    ensures fresh(coloring) && coloring.Valid() && coloring.runs == 0
    ensures coloring.settings == settings && coloring.test == test
    ensures attempts == Retry.AttemptsMade(lookups)
    ensures var lookup := Retry.SettledAfter(lookups[..attempts], Retry.MaxRetryTimes);
      && (coloring.located <==> !lookup.Pending?)
      && (coloring.observing <==> lookup.Resolved?)
      && coloring.result == (if lookup.Rejected? then Rejected(lookup.reason) else Pending)
  {
    coloring := new NavColoring(settings, test);
    var lookup;
    lookup, attempts := Retry.Run(Retry.MaxRetryTimes, lookups);
    coloring.OnLocated(lookup);
  }

  /**
   * The elements are found and any number of mutations follow: the first
   * one paints and settles the pending promise as `Painted` says for the
   * colours it selects, and every later one leaves both the navs and the
   * promise as the first one left them.
   */
  method RecolorsOnce<P>(settings: seq<RoleSetting<P>>, test: (P, string) -> bool, navs: array<string>,
                         role: Option<string>, bgColor: string, later: seq<(Option<string>, string)>)
    returns (thrown: Option<ColorError>, first: Settlement<string, LookupError>, painted: seq<string>,
             last: Settlement<string, LookupError>)
    modifies navs
    ensures Painted(old(navs[..]), painted, Pending, first, thrown, SelectColors(settings, test, role, bgColor))
    ensures navs[..] == painted && last == first
  {
    var coloring := new NavColoring(settings, test);
    coloring.OnLocated(Resolved(()));
    thrown := coloring.OnMutation(navs, role, bgColor);
    first := coloring.result;
    painted := navs[..];
    for i := 0 to |later|
      invariant coloring.Valid() && !coloring.observing && coloring.runs == 1
      invariant coloring.result == first && navs[..] == painted
    {
      var _ := coloring.OnMutation(navs, later[i].0, later[i].1);
    }
    last := coloring.result;
  }
}
