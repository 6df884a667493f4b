/** The Node single-location confirmation: asks whether the one location
    found is the right one, then ends with it or with a reset request. */
module ConfirmSingleLocation {
  import opened Common
  import opened Geo
  import opened NodeSession

  /** The dialog data: the locations it was begun with. */
  datatype SingleState = SingleState(locations: seq<Location>)

  /** First step: keeps the locations and asks SingleResultFound. */
  function Begin(locations: seq<Location>): (t: Turn<SingleState>)
    ensures t.state.locations == locations && t.outputs == []
    ensures t.action == CallChild(ConfirmDialog(Localized(SingleResultFound)))
  {
    Turn(SingleState(locations), [], CallChild(ConfirmDialog(Localized(SingleResultFound))))
  }

  /** Second step: always ends. A yes ends with the first location as the
      place; anything else, a missing response included, ends with a reset
      request. A yes over an empty list ends with neither. */
  function AfterConfirm(state: SingleState, results: Results): (t: Turn<SingleState>)
    ensures t.state == state && t.outputs == []
    ensures t.action.Done? && t.action.result.response.Some?
    ensures var r := t.action.result.response.value;
            r.confirmed.None? && r.locations.None?
            && (ConfirmedYes(results) && |state.locations| > 0 ==> r.place == Some(state.locations[0]) && !r.reset)
            && (ConfirmedYes(results) && |state.locations| == 0 ==> r == EmptyResponse)
            && (!ConfirmedYes(results) ==> r.place.None? && r.reset)
  {
    if ConfirmedYes(results) then
      var place := if |state.locations| > 0 then Some(state.locations[0]) else None;
      Turn(state, [], Done(Results(Some(EmptyResponse.(place := place)))))
    else
      Turn(state, [], Done(Results(Some(EmptyResponse.(reset := true)))))
  }
}
