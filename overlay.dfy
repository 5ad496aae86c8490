/**
 * The circle overlays of the hotspot map (src/components/CrimeMap.jsx): one
 * circle per hotspot record, with its path options, its popup, and the two
 * partial style updates that the hover handlers apply to it.
 */
module Overlay {
  import opened Classifier

  /** One hotspot record as the map receives it. `crimeType` is the record's `type`. */
  datatype Hotspot = Hotspot(
    id: int,
    lat: real,
    lng: real,
    intensity: real,
    crimeType: string,
    count: int,
    time: string,
    date: string)

  /** The path options of a circle layer that the map code sets or reads. */
  datatype PathStyle = PathStyle(color: string, weight: nat, fillOpacity: real, fillColor: string)

  /** The partial style `{ fillOpacity, weight }` that a hover handler passes to `setStyle`. */
  datatype StylePatch = StylePatch(fillOpacity: real, weight: nat)

  /** What the popup of a circle shows. */
  datatype PopupView = PopupView(
    title: string,
    riskPercent: int,
    riskColor: string,
    incidents: int,
    lastIncident: string,
    date: string)

  datatype Circle = Circle(
    key: int,
    lat: real,
    lng: real,
    radius: nat,
    pathOptions: PathStyle,
    popup: PopupView)

  /** Every circle has this radius, whatever its record. */
  const Radius: nat := 600
  /** Stroke weight and fill opacity of a circle as first drawn. */
  const BaseWeight: nat := 2
  const BaseFillOpacity: real := 0.35
  /** The style `mouseover` applies. */
  const HoverPatch := StylePatch(0.5, 3)
  /** The style `mouseout` applies, written in the handler as its own literals. */
  const LeavePatch := StylePatch(0.35, 2)

  /** The initial path options of a circle drawn in `color`. */
  function BaseStyle(color: string): PathStyle {
    PathStyle(color, BaseWeight, BaseFillOpacity, color)
  }

  /**
   * `layer.setStyle(patch)`: the options the patch names are replaced, the
   * others (the stroke and fill colours) are kept.
   */
  function SetStyle(s: PathStyle, p: StylePatch): PathStyle {
    s.(fillOpacity := p.fillOpacity, weight := p.weight)
  }

  /** The popup of a record: a projection of its fields and its risk. */
  function Popup(h: Hotspot): PopupView {
    PopupView(h.crimeType, RiskPercent(h.intensity), TierColor(h.intensity), h.count, h.time, h.date)
  }

  /** The circle drawn for one record. */
  function CircleFor(h: Hotspot): Circle {
    Circle(h.id, h.lat, h.lng, Radius, BaseStyle(TierColor(h.intensity)), Popup(h))
  }

  /** The circle drawn for `h` is centred on it, of the fixed radius, coloured by its tier. */
  predicate DrawnFrom(c: Circle, h: Hotspot) {
    && c.key == h.id
    && c.lat == h.lat && c.lng == h.lng
    && c.radius == 600
    && c.pathOptions.color == HeatmapTier(h.intensity).Color()
    && c.pathOptions.fillColor == c.pathOptions.color
    && c.pathOptions.weight == 2 && c.pathOptions.fillOpacity == 0.35
    && c.popup.riskColor == c.pathOptions.color
    && c.popup.riskPercent == RiskPercent(h.intensity)
    && c.popup.title == h.crimeType && c.popup.incidents == h.count
    && c.popup.lastIncident == h.time && c.popup.date == h.date
  }

  /** `crimeHotspots.map(...)`: exactly one circle per record, in record order. */
  function Circles(hs: seq<Hotspot>): (cs: seq<Circle>)
    ensures |cs| == |hs|
    ensures forall i :: 0 <= i < |hs| ==> DrawnFrom(cs[i], hs[i])
  {
    if hs == [] then [] else [CircleFor(hs[0])] + Circles(hs[1..])
  }

  /** The hover patch changes only opacity and weight, never the colours. */
  lemma HoverKeepsColors(s: PathStyle)
    ensures SetStyle(s, HoverPatch).color == s.color
    ensures SetStyle(s, HoverPatch).fillColor == s.fillColor
    ensures SetStyle(s, HoverPatch).fillOpacity == 0.5 && SetStyle(s, HoverPatch).weight == 3
  {
  }

  /** A later patch overrides an earlier one completely. */
  lemma LastPatchWins(s: PathStyle, p: StylePatch, q: StylePatch)
    ensures SetStyle(SetStyle(s, p), q) == SetStyle(s, q)
  {
  }

  /**
   * The `mouseout` literals agree with the base path options, so leaving a
   * circle, hovered or not, puts it back exactly as first drawn.
   */
  lemma LeaveRestoresBase(color: string)
    ensures SetStyle(BaseStyle(color), LeavePatch) == BaseStyle(color)
    ensures SetStyle(SetStyle(BaseStyle(color), HoverPatch), LeavePatch) == BaseStyle(color)
  {
  }
}
