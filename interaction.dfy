/**
 * The interaction state of the hotspot map view (src/components/CrimeMap.jsx):
 * the selected hotspot, which the click handlers set and the close button
 * clears, and the path options of each circle layer, which the hover handlers
 * overwrite in place.
 *
 * Setting the selection to a record other than the current one re-renders the
 * view. The re-render builds a fresh `pathOptions` object for every circle
 * (:138-143), and the map binding applies each one to its layer with
 * `setStyle`, so every layer is redrawn in its base style. Setting the same
 * record again is skipped by React, which compares states by identity, so
 * nothing is redrawn. The selection is kept as the position of the selected
 * record in the hotspot list: records are distinct objects, and the position
 * is their identity here.
 *
 * `Step` and `Run` say what one event and a series of events do to the state;
 * the lemmas characterise the outcome of any series by reading it from its
 * end; the class `MapView` holds the state as the component does and each of
 * its handlers is proved to perform `Step`.
 */
module Interaction {
  import opened Classifier
  import opened Overlay

  datatype Option<T> = None | Some(value: T)

  /** The user events the view handles. */
  datatype Event =
    | Click(circle: nat)      // click on a circle: select its record
    | Close                   // the detail panel's close button
    | MouseOver(circle: nat)  // pointer enters a circle
    | MouseOut(circle: nat)   // pointer leaves a circle

  /**
   * The selected record (`selectedHotspot`, as its position in the hotspot
   * list) and the path options of every circle layer.
   */
  datatype View = View(selected: Option<nat>, styles: seq<PathStyle>)

  /** What the detail panel shows. */
  datatype PanelView = PanelView(
    title: string,
    lat: real,
    lng: real,
    riskPercent: int,
    riskColor: string,
    incidents: int,
    time: string,
    date: string)

  /** A view whose layers are the circles of `hs` and whose selection is one of `hs`. */
  predicate Fits(hs: seq<Hotspot>, v: View) {
    && |v.styles| == |hs|
    && (v.selected.Some? ==> v.selected.value < |hs|)
  }

  /** Every layer is stroked and filled in its record's tier colour. */
  predicate Coloured(hs: seq<Hotspot>, v: View)
    requires Fits(hs, v)
  {
    forall i :: 0 <= i < |hs| ==>
      v.styles[i].color == v.styles[i].fillColor == HeatmapTier(hs[i].intensity).Color()
  }

  /** An event can only come from a circle that is drawn. */
  predicate Fires(hs: seq<Hotspot>, e: Event) {
    match e
    case Close => true
    case Click(i) => i < |hs|
    case MouseOver(i) => i < |hs|
    case MouseOut(i) => i < |hs|
  }

  predicate AllFire(hs: seq<Hotspot>, evs: seq<Event>) {
    forall k :: 0 <= k < |evs| ==> Fires(hs, evs[k])
  }

  /** The path options every circle gets when the view renders. */
  function BaseStyles(hs: seq<Hotspot>): (ss: seq<PathStyle>)
    ensures |ss| == |hs|
    ensures forall i :: 0 <= i < |hs| ==> ss[i] == BaseStyle(HeatmapTier(hs[i].intensity).Color())
  {
    var cs := Circles(hs);
    seq(|hs|, i requires 0 <= i < |hs| => cs[i].pathOptions)
  }

  /** The state when the view is mounted: nothing selected, every layer as drawn. */
  function Initial(hs: seq<Hotspot>): (v: View)
    ensures Fits(hs, v) && Coloured(hs, v) && v.selected == None
    ensures forall i :: 0 <= i < |hs| ==> v.styles[i] == Circles(hs)[i].pathOptions
  {
    View(None, BaseStyles(hs))
  }

  /**
   * Whether an event changes the selection `before`, which makes React
   * re-render the view: a click on another record, or a close while a record
   * is selected.
   */
  predicate Moves(before: Option<nat>, e: Event) {
    || (e.Click? && before != Some(e.circle))
    || (e.Close? && before.Some?)
  }

  /** One event handler, followed by the re-render it causes, if any. */
  function Step(hs: seq<Hotspot>, v: View, e: Event): (w: View)
    requires Fits(hs, v) && Fires(hs, e)
    ensures Fits(hs, w)
    ensures Coloured(hs, v) ==> Coloured(hs, w)
    ensures w.selected == match e
      case Click(i) => Some(i)
      case Close => None
      case _ => v.selected
    ensures Moves(v.selected, e) ==> w.styles == BaseStyles(hs)
    ensures (e.Click? || e.Close?) && !Moves(v.selected, e) ==> w == v
    ensures e.MouseOver? ==> w.styles[e.circle].fillOpacity == 0.5 && w.styles[e.circle].weight == 3
    ensures e.MouseOut? ==> w.styles[e.circle].fillOpacity == 0.35 && w.styles[e.circle].weight == 2
    ensures e.MouseOver? || e.MouseOut? ==>
      && w.styles[e.circle].color == v.styles[e.circle].color
      && w.styles[e.circle].fillColor == v.styles[e.circle].fillColor
      && forall j :: 0 <= j < |hs| && j != e.circle ==> w.styles[j] == v.styles[j]
  {
    match e
    case Click(i) => if v.selected == Some(i) then v else View(Some(i), BaseStyles(hs))
    case Close => if v.selected == None then v else View(None, BaseStyles(hs))
    case MouseOver(i) => v.(styles := v.styles[i := SetStyle(v.styles[i], HoverPatch)])
    case MouseOut(i) => v.(styles := v.styles[i := SetStyle(v.styles[i], LeavePatch)])
  }

  /** The handlers for a series of events, run in order. */
  function Run(hs: seq<Hotspot>, v: View, evs: seq<Event>): (w: View)
    requires Fits(hs, v) && AllFire(hs, evs)
    ensures Fits(hs, w)
    ensures Coloured(hs, v) ==> Coloured(hs, w)
    decreases |evs|
  {
    if evs == [] then v else Run(hs, Step(hs, v, evs[0]), evs[1..])
  }

  /** The detail panel: shown exactly when a record is selected, and then that record's details. */
  function DetailPanel(hs: seq<Hotspot>, v: View): (p: Option<PanelView>)
    requires Fits(hs, v)
    ensures p.Some? <==> v.selected.Some?
    ensures p.Some? ==>
      var h := hs[v.selected.value];
      && p.value.title == h.crimeType + " Hotspot"
      && p.value.lat == h.lat && p.value.lng == h.lng
      && p.value.riskColor == HeatmapTier(h.intensity).Color()
      && p.value.riskPercent as real - 0.5 <= h.intensity * 100.0 < p.value.riskPercent as real + 0.5
      && p.value.incidents == h.count && p.value.time == h.time && p.value.date == h.date
  {
    match v.selected
    case None => None
    case Some(i) =>
      var h := hs[i];
      Some(PanelView(h.crimeType + " Hotspot", h.lat, h.lng, RiskPercent(h.intensity),
                     TierColor(h.intensity), h.count, h.time, h.date))
  }

  // ---------------------------------------------------------------------
  // Reference characterisations of a series of events, read from its end.

  /** The selection after `evs`: set by the last click, cleared by a later close, else `sel`. */
  function SelectionAfter(sel: Option<nat>, evs: seq<Event>): Option<nat>
    decreases |evs|
  {
    if evs == [] then sel
    else
      match evs[|evs| - 1]
      case Click(i) => Some(i)
      case Close => None
      case _ => SelectionAfter(sel, evs[..|evs| - 1])
  }

  /** Whether some event of `evs`, handled in order from selection `sel`, changes the selection. */
  predicate SelectionChanged(sel: Option<nat>, evs: seq<Event>)
    decreases |evs|
  {
    && evs != []
    && (|| SelectionChanged(sel, evs[..|evs| - 1])
        || Moves(SelectionAfter(sel, evs[..|evs| - 1]), evs[|evs| - 1]))
  }

  /** What last set the style of one layer. */
  datatype Restyle =
    | Untouched               // nothing since the start
    | Patched(p: StylePatch)  // a hover handler on this layer
    | Redrawn                 // a re-render after the selection changed

  /** What last set the style of layer `i` in `evs`, handled from selection `sel`. */
  function LastRestyle(sel: Option<nat>, i: nat, evs: seq<Event>): Restyle
    decreases |evs|
  {
    if evs == [] then Untouched
    else
      var e, before := evs[|evs| - 1], evs[..|evs| - 1];
      if e == MouseOver(i) then Patched(HoverPatch)
      else if e == MouseOut(i) then Patched(LeavePatch)
      else if Moves(SelectionAfter(sel, before), e) then Redrawn
      else LastRestyle(sel, i, before)
  }

  /** Running a series is running its prefix and then its last event. */
  lemma {:induction false} RunSnoc(hs: seq<Hotspot>, v: View, evs: seq<Event>)
    requires Fits(hs, v) && AllFire(hs, evs) && evs != []
    ensures AllFire(hs, evs[..|evs| - 1]) && Fits(hs, Run(hs, v, evs[..|evs| - 1]))
    ensures Fires(hs, evs[|evs| - 1])
    ensures Run(hs, v, evs) == Step(hs, Run(hs, v, evs[..|evs| - 1]), evs[|evs| - 1])
    decreases |evs|
  {
    assert Fires(hs, evs[|evs| - 1]);
    if |evs| > 1 {
      var w := Step(hs, v, evs[0]);
      assert evs[1..][..|evs| - 2] == evs[..|evs| - 1][1..];
      RunSnoc(hs, w, evs[1..]);
    }
  }

  /** After any series of events, the selection is the one `SelectionAfter` reads off its end. */
  lemma {:induction false} SelectionFollowsLastClick(hs: seq<Hotspot>, v: View, evs: seq<Event>)
    requires Fits(hs, v) && AllFire(hs, evs)
    ensures Run(hs, v, evs).selected == SelectionAfter(v.selected, evs)
    decreases |evs|
  {
    if evs != [] {
      RunSnoc(hs, v, evs);
      SelectionFollowsLastClick(hs, v, evs[..|evs| - 1]);
    }
  }

  /**
   * After any series of events, each layer's style is set by whatever touched
   * it last: a hover handler on that layer patches opacity and weight, a change
   * of selection redraws it in its base style, and otherwise it is as before.
   * Events on other layers and clicks or closes that keep the selection leave
   * it alone.
   */
  lemma {:induction false} StyleFollowsLastRestyle(hs: seq<Hotspot>, v: View, evs: seq<Event>, i: nat)
    requires Fits(hs, v) && Coloured(hs, v) && AllFire(hs, evs) && i < |hs|
    ensures Run(hs, v, evs).styles[i] ==
      match LastRestyle(v.selected, i, evs)
      case Untouched => v.styles[i]
      case Patched(p) => SetStyle(v.styles[i], p)
      case Redrawn => BaseStyle(HeatmapTier(hs[i].intensity).Color())
    decreases |evs|
  {
    if evs != [] {
      var before := evs[..|evs| - 1];
      RunSnoc(hs, v, evs);
      SelectionFollowsLastClick(hs, v, before);
      StyleFollowsLastRestyle(hs, v, before, i);
      var s := Run(hs, v, before).styles[i];
      assert s.color == v.styles[i].color && s.fillColor == v.styles[i].fillColor;
    }
  }

  /** The only patches hover events apply are the mouseover and the mouseout one. */
  lemma {:induction false} LastRestylePatches(sel: Option<nat>, i: nat, evs: seq<Event>)
    ensures LastRestyle(sel, i, evs).Patched? ==>
      LastRestyle(sel, i, evs).p == HoverPatch || LastRestyle(sel, i, evs).p == LeavePatch
    decreases |evs|
  {
    if evs != [] {
      LastRestylePatches(sel, i, evs[..|evs| - 1]);
    }
  }

  /**
   * From a freshly mounted view, a layer is in its hover style exactly when
   * the last thing to touch it was a `mouseover`; otherwise it is exactly as
   * first drawn. Its colours never change.
   */
  lemma HoverStyleFromMount(hs: seq<Hotspot>, evs: seq<Event>, i: nat)
    requires AllFire(hs, evs) && i < |hs|
    ensures var s := Run(hs, Initial(hs), evs).styles[i];
      && s.color == s.fillColor == HeatmapTier(hs[i].intensity).Color()
      && (LastRestyle(None, i, evs) == Patched(HoverPatch) ==> s.fillOpacity == 0.5 && s.weight == 3)
      && (LastRestyle(None, i, evs) != Patched(HoverPatch) ==> s == Circles(hs)[i].pathOptions)
  {
    var base := BaseStyle(HeatmapTier(hs[i].intensity).Color());
    assert Initial(hs).styles[i] == base;
    StyleFollowsLastRestyle(hs, Initial(hs), evs, i);
    LastRestylePatches(None, i, evs);
    LeaveRestoresBase(base.color);
  }

  /** Hover events never change the selection. */
  lemma {:induction false} HoverNeverSelects(hs: seq<Hotspot>, v: View, evs: seq<Event>)
    requires Fits(hs, v) && AllFire(hs, evs)
    requires forall k :: 0 <= k < |evs| ==> evs[k].MouseOver? || evs[k].MouseOut?
    ensures Run(hs, v, evs).selected == v.selected
    decreases |evs|
  {
    if evs != [] {
      HoverNeverSelects(hs, Step(hs, v, evs[0]), evs[1..]);
    }
  }

  /**
   * A series of clicks and closes leaves every layer's style as it was unless
   * it changes the selection at some point; then every layer is in its base
   * style, hovered or not.
   */
  lemma {:induction false} SelectionEventsRestyle(hs: seq<Hotspot>, v: View, evs: seq<Event>)
    requires Fits(hs, v) && AllFire(hs, evs)
    requires forall k :: 0 <= k < |evs| ==> evs[k].Click? || evs[k].Close?
    ensures Run(hs, v, evs).styles == if SelectionChanged(v.selected, evs) then BaseStyles(hs) else v.styles
    decreases |evs|
  {
    if evs != [] {
      var before := evs[..|evs| - 1];
      RunSnoc(hs, v, evs);
      SelectionFollowsLastClick(hs, v, before);
      SelectionEventsRestyle(hs, v, before);
    }
  }

  /**
   * A click replaces any earlier selection and redraws every layer; clicking
   * the same circle again keeps it selected and changes nothing: there is no
   * toggle.
   */
  lemma ClickReplaces(hs: seq<Hotspot>, v: View, a: nat, b: nat)
    requires Fits(hs, v) && a < |hs| && b < |hs|
    ensures Run(hs, v, [Click(a), Click(b)]).selected == Some(b)
    ensures a != b ==> Run(hs, v, [Click(a), Click(b)]).styles == BaseStyles(hs)
    ensures Run(hs, v, [Click(a), Click(a)]) == Step(hs, v, Click(a))
  {
    assert AllFire(hs, [Click(a), Click(b)]);
    assert AllFire(hs, [Click(a), Click(a)]);
    SelectionFollowsLastClick(hs, v, [Click(a), Click(b)]);
    RunSnoc(hs, v, [Click(a), Click(b)]);
    RunSnoc(hs, v, [Click(a), Click(a)]);
  }

  /**
   * Clicking the circle under the pointer redraws it: the re-render replaces
   * its hover style with its base style although the pointer has not left.
   */
  lemma HoverThenClickRedraws(hs: seq<Hotspot>)
    requires hs != []
    ensures Run(hs, Initial(hs), [MouseOver(0), Click(0)]).styles[0] == Circles(hs)[0].pathOptions
  {
    var evs := [MouseOver(0), Click(0)];
    assert AllFire(hs, evs);
    assert evs[..1] == [MouseOver(0)];
    HoverStyleFromMount(hs, evs, 0);
  }

  /** Close hides the panel from any state, and a later hover does not bring it back. */
  lemma CloseHides(hs: seq<Hotspot>, v: View, evs: seq<Event>)
    requires Fits(hs, v) && AllFire(hs, evs)
    requires forall k :: 0 <= k < |evs| ==> evs[k].MouseOver? || evs[k].MouseOut?
    ensures DetailPanel(hs, Run(hs, Step(hs, v, Close), evs)) == None
  {
    HoverNeverSelects(hs, Step(hs, v, Close), evs);
  }

  /** The map component: its `selectedHotspot` state and its circle layers' path options. */
  class MapView {
    const hotspots: seq<Hotspot>
    var selected: Option<nat>
    var styles: seq<PathStyle>

    function State(): View
      reads this
    {
      View(selected, styles)
    }

    /** One layer per record, each stroked and filled in its record's tier colour. */
    ghost predicate Valid()
      reads this
    {
      Fits(hotspots, State()) && Coloured(hotspots, State())
    }

    /** Mounting the view: nothing selected and every circle drawn with its base style. */
    constructor (hs: seq<Hotspot>)
      ensures Valid() && hotspots == hs
      ensures State() == Initial(hs)
    {
      hotspots := hs;
      selected := None;
      styles := BaseStyles(hs);
    }

    /**
     * The re-render after a change of selection: the circles are built again
     * (:131-143) and each layer is given its fresh base path options.
     */
    method Redraw()
      requires Valid()
      modifies this
      ensures Valid() && selected == old(selected)
      ensures styles == BaseStyles(hotspots)
    {
      var k := 0;
      while k < |styles|
        invariant Valid() && selected == old(selected) && k <= |styles|
        invariant forall j :: 0 <= j < k ==> styles[j] == BaseStyles(hotspots)[j]
      {
        styles := styles[k := BaseStyles(hotspots)[k]];
        k := k + 1;
      }
    }

    /**
     * The click handler of circle `i`: select its record, replacing any
     * selection. A different record re-renders the view; the same one does not.
     */
    method Click(i: nat)
      requires Valid() && i < |hotspots|
      modifies this
      ensures Valid()
      ensures State() == Step(hotspots, old(State()), Event.Click(i))
      ensures selected == Some(i)
      ensures styles == if old(selected) == Some(i) then old(styles) else BaseStyles(hotspots)
    {
      if selected != Some(i) {
        selected := Some(i);
        Redraw();
      }
    }

    /** The close button: clear the selection, which hides the panel and re-renders if it was shown. */
    method Close()
      requires Valid()
      modifies this
      ensures Valid()
      ensures State() == Step(hotspots, old(State()), Event.Close)
      ensures selected == None && DetailPanel(hotspots, State()) == None
      ensures styles == if old(selected) == None then old(styles) else BaseStyles(hotspots)
    {
      if selected != None {
        selected := None;
        Redraw();
      }
    }

    /** The mouseover handler of circle `i`: emphasise that layer only. */
    method MouseOver(i: nat)
      requires Valid() && i < |hotspots|
      modifies this
      ensures Valid()
      ensures State() == Step(hotspots, old(State()), Event.MouseOver(i))
      ensures selected == old(selected)
      ensures styles[i].fillOpacity == 0.5 && styles[i].weight == 3
      ensures styles[i].color == old(styles[i].color) && styles[i].fillColor == old(styles[i].fillColor)
      ensures forall j :: 0 <= j < |styles| && j != i ==> styles[j] == old(styles[j])
    {
      styles := styles[i := SetStyle(styles[i], HoverPatch)];
    }

    /** The mouseout handler of circle `i`: put that layer back to weight 2, opacity 0.35. */
    method MouseOut(i: nat)
      requires Valid() && i < |hotspots|
      modifies this
      ensures Valid()
      ensures State() == Step(hotspots, old(State()), Event.MouseOut(i))
      ensures selected == old(selected)
      ensures styles[i] == BaseStyle(HeatmapTier(hotspots[i].intensity).Color())
      ensures forall j :: 0 <= j < |styles| && j != i ==> styles[j] == old(styles[j])
    {
      styles := styles[i := SetStyle(styles[i], LeavePatch)];
    }
  }
}
