/** The earlier Node resolve dialog (TypeScript): the same query loop as the
    Bing resolve dialog, with the location cards built in the dialog itself
    and its own confirm and choice children. */
module DefaultLocation {
  import opened Common
  import opened Geo
  import opened NodeSession
  import LocationCard
  import ResolveBingLocation

  /** The subtitle of the card for the location at 0-based `index`:
      "(index + 1). " before the formatted address when there is more than
      one location. */
  function CardText(count: nat, index: nat, formattedAddress: string): (r: string)
    ensures |r| >= |formattedAddress| && r[|r| - |formattedAddress|..] == formattedAddress
    ensures count > 1 <==> |r| > |formattedAddress|
  {
    (if count > 1 then NatToString(index + 1) + ". " else "") + formattedAddress
  }

  /** constructCard: the card for locations[index], with a map image (pinned
      with the 0-based index) exactly when the location has a point. */
  function ConstructCard(locations: seq<Location>, index: nat): (c: Card)
    requires index < |locations| && locations[index].address.Some?
    ensures c.image.Some? <==> locations[index].point.Some?
    ensures c.image.Some? ==> c.image.value == index
  {
    var location := locations[index];
    Card(CardText(|locations|, index, location.address.value.formattedAddress),
         if location.point.Some? then Some(index) else None)
  }

  /** The card text agrees with the C# label of the same location: the same
      1-based number, under the same "more than one" rule. */
  lemma CardTextMatchesHeroLabel(locations: seq<Location>, index: nat)
    requires index < |locations| && locations[index].address.Some?
    ensures ConstructCard(locations, index).subtitle
         == LocationCard.HeroLabel(locations[index].address.value.formattedAddress, index + 1, |locations| > 1)
  {
  }

  /** createLocationsCard: one card per location, in order. Reading the
      address of a location without one throws (None). */
  method CreateLocationsCard(locations: seq<Location>) returns (cards: Option<seq<Card>>)
    ensures cards.Some? <==> forall k :: 0 <= k < |locations| ==> locations[k].address.Some?
    ensures cards.Some? ==>
              |cards.value| == |locations|
              && forall k :: 0 <= k < |locations| ==> cards.value[k] == ConstructCard(locations, k)
  {
    var built: seq<Card> := [];
    for i := 0 to |locations|
      invariant |built| == i
      invariant forall k :: 0 <= k < i ==> locations[k].address.Some?
      invariant forall k :: 0 <= k < i ==> built[k] == ConstructCard(locations, k)
    {
      if locations[i].address.None? {
        return None;
      }
      built := built + [ConstructCard(locations, i)];
    }
    cards := Some(built);
  }

  /** onBegin of the resolve dialog: the prompt as given. */
  function Begin(prompt: string): (t: Turn<()>)
    ensures t.outputs == [Text(prompt)] && t.action == Wait
  {
    Turn((), [Text(prompt)], Wait)
  }

  /** onDefault, given the geocoder's answer to the message text. No result
      sends the string "LocationNotFound" (which the framework localizes like
      any sent string) and keeps waiting; otherwise
      the first five are shown and the dialog ends with them. The promise
      has no failure handler: a geocoder failure, or a candidate without an
      address, sends nothing and leaves the dialog waiting. */
  method OnDefault(reply: ResolveBingLocation.QueryReply) returns (t: Turn<()>)
    ensures reply.QueryFailed? ==> t.outputs == [] && t.action == Wait
    ensures reply.QueryResults? && reply.locations == [] ==>
              t.outputs == [Text("LocationNotFound")] && t.action == Wait
    ensures reply.QueryResults? && reply.locations != [] ==>
              var shown := ResolveBingLocation.Truncated(reply.locations);
              ((forall k :: 0 <= k < |shown| ==> shown[k].address.Some?) ==>
                 t.action == Done(Results(Some(EmptyResponse.(locations := Some(shown)))))
                 && |t.outputs| == 1 && t.outputs[0].LocationCards?
                 && |t.outputs[0].cards| == |shown|
                 && forall k :: 0 <= k < |shown| ==> t.outputs[0].cards[k] == ConstructCard(shown, k))
              && ((exists k :: 0 <= k < |shown| && shown[k].address.None?) ==>
                    t.outputs == [] && t.action == Wait)
  {
    if reply.QueryFailed? {
      return Turn((), [], Wait);
    }
    var locations := reply.locations;
    if |locations| == 0 {
      return Turn((), [Text("LocationNotFound")], Wait);
    }
    locations := ResolveBingLocation.Truncated(locations);
    var cards := CreateLocationsCard(locations);
    if cards.None? {
      return Turn((), [], Wait);
    }
    t := Turn((), [LocationCards(cards.value)], Done(Results(Some(EmptyResponse.(locations := Some(locations))))));
  }

  /** The dialog data of the waterfall: the resolve dialog's response. */
  datatype DefaultState = DefaultState(response: Option<Response>)

  /** First step: begins the resolve dialog with the caller's prompt only. */
  function Start(prompt: string): (t: Turn<DefaultState>)
    ensures t.outputs == [] && t.action == CallChild(DefaultLocationResolve(prompt))
  {
    Turn(DefaultState(None), [], CallChild(DefaultLocationResolve(prompt)))
  }

  /** Second step: one location goes to the confirm dialog, any other present
      list to the choice dialog, and no list passes the results on. */
  function AfterResolve(results: Results): (t: Turn<DefaultState>)
    ensures t.state.response == results.response && t.outputs == []
    ensures results.response.None? || results.response.value.locations.None? ==> t.action == Next(results)
    ensures results.response.Some? && results.response.value.locations.Some? ==>
              var locations := results.response.value.locations.value;
              (|locations| == 1 ==> t.action == CallChild(ConfirmLocations(locations)))
              && (|locations| != 1 ==> t.action == CallChild(ChoiceDialog(locations)))
  {
    var state := DefaultState(results.response);
    if results.response.Some? && results.response.value.locations.Some? then
      var locations := results.response.value.locations.value;
      if |locations| == 1 then Turn(state, [], CallChild(ConfirmLocations(locations)))
      else Turn(state, [], CallChild(ChoiceDialog(locations)))
    else Turn(state, [], Next(results))
  }

  /** The two generations of the waterfall route every result the same way,
      only to differently named children. */
  lemma WaterfallsAgree(results: Results)
    ensures AfterResolve(results).action.Next? <==> ResolveBingLocation.AfterResolve(results).action.Next?
    ensures AfterResolve(results).action.CallChild? ==>
              (AfterResolve(results).action.child.ConfirmLocations? <==>
                 ResolveBingLocation.AfterResolve(results).action.child.ConfirmSingleLocation?)
              && AfterResolve(results).action.child.locations
                 == ResolveBingLocation.AfterResolve(results).action.child.locations
  {
  }
}
