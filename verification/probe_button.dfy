/** The elevation-probe button (`addProbeButton`): each click flips the map's probe
    flag and the button's `active` class; while the flag is on, a click on the map
    opens an info popup at the clicked point. */
module ProbeButton {
  import opened Maybe

  /** `map.__probeOn` (None while never assigned, i.e. `undefined`) and whether the
      button carries the `active` class. */
  datatype ProbeState = ProbeState(probeOn: Option<bool>, active: bool)

  /** A geographic point, as delivered with a map click. */
  datatype LatLng = LatLng(lat: real, lng: real)

  /** The state right after the control is added: flag unset, button not active. */
  const Initial := ProbeState(None, false)

  /** JavaScript truthiness of the flag: `undefined` counts as false. */
  predicate ProbeOn(s: ProbeState) {
    s.probeOn.Some? && s.probeOn.value
  }

  /** One button click: `map.__probeOn = !map.__probeOn` and `classList.toggle('active')`. */
  function ClickButton(s: ProbeState): (s': ProbeState)
    ensures ProbeOn(s') == !ProbeOn(s)
    ensures s'.active == !s.active
    ensures s'.probeOn.Some?
  {
    ProbeState(Some(!ProbeOn(s)), !s.active)
  }

  /** The state after `n` button clicks. */
  function Clicks(s: ProbeState, n: nat): ProbeState
    decreases n
  {
    if n == 0 then s else ClickButton(Clicks(s, n - 1))
  }

  /** Starting from the unset flag, the probe mode is on after `n` clicks iff `n` is odd,
      and the button's `active` class always agrees with the flag. */
  lemma {:induction false} ClicksParity(n: nat)
    ensures ProbeOn(Clicks(Initial, n)) <==> n % 2 == 1
    ensures Clicks(Initial, n).active == ProbeOn(Clicks(Initial, n))
    decreases n
  {
    if n > 0 {
      ClicksParity(n - 1);
    }
  }

  /** A click on the map, as seen by the click handler: the popup it opens, if any, anchored
      at the clicked point. The handler exists only on a map that has `on`
      (`Startup.Outcome.clickListener`). */
  function MapClick(s: ProbeState, at: LatLng): (popup: Option<LatLng>)
    ensures popup.Some? <==> ProbeOn(s)
    ensures popup.Some? ==> popup.value == at
  {
    if !ProbeOn(s) then None else Some(at)
  }

  /** After `n` button clicks from the start, a map click opens a popup iff `n` is odd. */
  lemma PopupAfterClicks(n: nat, at: LatLng)
    ensures MapClick(Clicks(Initial, n), at).Some? <==> n % 2 == 1
  {
    ClicksParity(n);
  }
}
