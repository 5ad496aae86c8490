# Crime hotspot map: classifier and interaction model

A Dafny model of the hotspot map view of the crime-analysis front end
(`src/components/CrimeMap.jsx`). It covers the three parts of that view that
hold logic:

- **Risk classifier** (`classifier.dfy`, module `Classifier`): `getHeatmapColor`
  maps a hotspot's intensity to the high, medium or low tier with thresholds
  0.7 and 0.4, inclusive from below. Only the tier's colour (`#ef4444`,
  `#f59e0b`, `#10b981`) is ever used, so the model's `HeatmapTier` returns a
  `Tier`, and `Tier.Color()` gives its colour. The rounded risk percentage shown in the popup and the panel is modelled too.
- **Circle overlays** (`overlay.dfy`, module `Overlay`): the `crimeHotspots.map(...)`
  that draws one circle per record, with a radius of 600, the tier colour as
  stroke and fill, weight 2 and fill opacity 0.35, plus its popup. It also holds
  the two partial styles that the hover handlers pass to `setStyle`.
- **Interaction state** (`interaction.dfy`, module `Interaction`): the
  `selectedHotspot` state and the per-layer path options. The class `MapView`
  holds them as the component does. Its handlers `Click`, `Close`, `MouseOver` and
  `MouseOut` overwrite them in place, and each handler is proved to perform one
  `Step` of a pure transition function. Lemmas about `Run`, a series of steps,
  describe any series of events by reading it from its end.
  The selection is kept as the position of the selected record in the hotspot
  list, because React compares the old and new selection by object identity.

What the code does, and the model follows:

- A click always selects the clicked record, replacing any earlier selection.
  Clicking the same circle again keeps it selected; nothing toggles.
- The close button clears the selection from any state. The detail panel is
  shown exactly when a record is selected.
- A change of selection re-renders the view. Each circle then receives a fresh
  `pathOptions` object, which the map binding applies with `setStyle`. So every
  layer is redrawn in its base style, even the one under the pointer. Setting
  the same selection again does not re-render, so nothing is redrawn.
- `mouseover` sets a layer to fill opacity 0.5 and weight 3, and `mouseout`
  sets it to 0.35 and 2 unconditionally. No hovered id is tracked. The
  `mouseout` literals equal the base path options, so leaving a circle restores
  it exactly as first drawn. Hovering never touches colours, other layers or
  the selection.
- Intensities are not clamped. Every real number is classified, including
  values outside [0, 1].

The code has no deselect on a second click. It tracks no hovered id and has no
guard against stale leave events. It does not clamp intensities to [0, 1], has
no rule for duplicate ids, and never clears a selection whose record
disappeared. The model has none of these either. A circle layer is identified
by its position in the record list, which is also the layer the handler
receives as `e.target`. Because of this, the model needs no rule for duplicate
ids, and the code has none.

## Model

| member | source | states |
|---|---|---|
| `Classifier.HeatmapTier` | src/components/CrimeMap.jsx:67-69 | high exactly when intensity >= 0.7, medium exactly when 0.4 <= intensity < 0.7, low exactly when intensity < 0.4; total over all reals, so each threshold belongs to the tier above it |
| `Classifier.TierColor` | src/components/CrimeMap.jsx:48-70 | the colour is `#ef4444` exactly when intensity >= 0.7, `#f59e0b` exactly on [0.4, 0.7), `#10b981` exactly below 0.4 |
| `Classifier.Monotone` | src/components/CrimeMap.jsx:67-69 | a larger intensity never gets a lower tier (low < medium < high) |
| `Classifier.ColorsDistinct` | src/components/CrimeMap.jsx:49-65 | the three tier colours are pairwise distinct, so the colour identifies the tier |
| `Classifier.Boundaries` | src/components/CrimeMap.jsx:67-69 | 0.7 is high, 0.6999 medium, 0.4 medium, 0.39999 low; 1.5 is high and -0.2 low, with no clamping |
| `Classifier.RiskPercent` | src/components/CrimeMap.jsx:176 | the displayed percentage is the integer nearest to 100 * intensity, with halves rounded up |
| `Classifier.RiskPercentMonotone` | src/components/CrimeMap.jsx:237 | a larger intensity never displays a smaller percentage |
| `Overlay.Circles` | src/components/CrimeMap.jsx:131-143 | exactly one circle per record, in record order; each is keyed by the record's id and centred on its (lat, lng), with radius 600; stroke and fill are both the tier colour of its intensity, with weight 2 and fill opacity 0.35; its popup shows the record's type, rounded risk, count, time and date |
| `Overlay.HoverKeepsColors` | src/components/CrimeMap.jsx:146-152 | the mouseover style sets fill opacity 0.5 and weight 3 and keeps stroke and fill colour |
| `Overlay.LastPatchWins` | src/components/CrimeMap.jsx:148-158 | a later `setStyle` of the hover handlers fully overrides an earlier one |
| `Overlay.LeaveRestoresBase` | src/components/CrimeMap.jsx:138-158 | the mouseout style equals the base path options, so a circle entered and left is back to its initial style |
| `Interaction.BaseStyles` | src/components/CrimeMap.jsx:131-143 | every render gives each circle the base path options in its record's tier colour: weight 2, fill opacity 0.35 |
| `Interaction.Initial` | src/components/CrimeMap.jsx:110-143 | on mount nothing is selected and every layer has the base style in its record's tier colour |
| `Interaction.Step` | src/components/CrimeMap.jsx:144-160 | one handler's effect: a click selects its record and a close clears the selection, and either redraws every layer in its base style exactly when the selection changes, otherwise nothing changes; a mouseover sets that layer to 0.5 / 3 and a mouseout to 0.35 / 2, keeping its colours; other layers are left alone; tier colours are kept |
| `Interaction.Run` | src/components/CrimeMap.jsx:131-160 | the handlers in event order; one style per layer, each in its record's tier colour, and a selection that is one of the records |
| `Interaction.DetailPanel` | src/components/CrimeMap.jsx:211-257 | the panel is shown exactly when a record is selected; it then shows that record's type, coordinates, tier colour, rounded risk, count, time and date |
| `Interaction.RunSnoc` | src/components/CrimeMap.jsx:144-160 | handling a series of events is handling all but the last, then the last |
| `Interaction.SelectionFollowsLastClick` | src/components/CrimeMap.jsx:145 | after any series of events, the selection is the record of the last click unless a close came later; with neither it is unchanged |
| `Interaction.StyleFollowsLastRestyle` | src/components/CrimeMap.jsx:138-159 | after any series of events, a layer's style is set by what touched it last: the last hover event on it patches opacity and weight, a later change of selection redraws it in its base style; events on other layers, and clicks or closes that keep the selection, leave it alone |
| `Interaction.LastRestylePatches` | src/components/CrimeMap.jsx:148-158 | the only styles hover events apply are the mouseover and the mouseout one |
| `Interaction.HoverStyleFromMount` | src/components/CrimeMap.jsx:138-159 | from mount, a layer has opacity 0.5 and weight 3 exactly when a mouseover on it came after its last mouseout and after the last change of selection; otherwise it is exactly its initial path options; its colours never change |
| `Interaction.HoverThenClickRedraws` | src/components/CrimeMap.jsx:145 | hovering a circle and then clicking it leaves it in its base style, because the click re-renders the view |
| `Interaction.HoverNeverSelects` | src/components/CrimeMap.jsx:146-159 | any series of hover events leaves the selection unchanged |
| `Interaction.SelectionEventsRestyle` | src/components/CrimeMap.jsx:145 | a series of clicks and closes leaves every layer's style as it was if it never changes the selection, and otherwise leaves every layer in its base style |
| `Interaction.ClickReplaces` | src/components/CrimeMap.jsx:145 | clicking A then B selects B, and if B differs from A every layer is redrawn; clicking A twice has the effect of one click, so there is no toggle |
| `Interaction.CloseHides` | src/components/CrimeMap.jsx:261 | close hides the panel from any state, and hovering afterwards does not show it again |
| `Interaction.MapView.constructor` | src/components/CrimeMap.jsx:110 | the mounted view has no selection and the initial layer styles |
| `Interaction.MapView.Redraw` | src/components/CrimeMap.jsx:131-143 | the re-render gives every layer its base path options and keeps the selection |
| `Interaction.MapView.Click` | src/components/CrimeMap.jsx:145 | selects the clicked circle's record, replacing any selection; redraws every layer if the record differs from the selected one, otherwise changes nothing |
| `Interaction.MapView.Close` | src/components/CrimeMap.jsx:261 | clears the selection, so the panel is hidden; redraws every layer if a record was selected, otherwise changes nothing |
| `Interaction.MapView.MouseOver` | src/components/CrimeMap.jsx:146-152 | that layer gets opacity 0.5 and weight 3 with its colours kept; other layers and the selection unchanged |
| `Interaction.MapView.MouseOut` | src/components/CrimeMap.jsx:153-159 | that layer is back to its base style, whatever it was; other layers and the selection unchanged |

## Left out

- Map rendering (`MapContainer`, `TileLayer`, `ZoomControl`, `Popup` placement): these are calls into the Leaflet map library. Leaflet's `setStyle` is modelled only by its effect on the options it is given (`Overlay.SetStyle`). The re-render that follows a change of selection is modelled only by its effect on the layers' styles (`Interaction.MapView.Redraw`).
- React's scheduling is not modelled: each event is handled completely, and its re-render, if any, happens before the next event.
- `MapControls`: it injects two HTML buttons that have no handlers, so it has no behaviour to model.
- The `gradient` strings of `getHeatmapColor`: no code reads them.
- Animations, markup and CSS classes.
- `toFixed(4)` formatting of the panel's coordinates: the model keeps the coordinates as reals.
- Classifier.HeatmapTier: intensities are exact reals. The code compares IEEE-754 doubles with the literals 0.7 and 0.4, and the model does not claim agreement at the last binary digit.
- Classifier.RiskPercent: `Math.round(intensity * 100)` is modelled on reals as floor(100 * intensity + 1/2). Floating-point rounding of the product is not modelled.
- The hotspot list itself is static mock data, so the model takes it as a parameter. Dashboard, Sidebar and App only compose widgets and switch views.
