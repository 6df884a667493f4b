/** FacebookLocationDialog: turns the place a user shared through Facebook's
    native location picker into a location that carries only a point. */
module FacebookLocation {
  import opened Common
  import opened Geo

  /** The geo coordinates of a shared place; either may be missing. */
  datatype FacebookGeo = FacebookGeo(latitude: Option<real>, longitude: Option<real>)

  /** An entity attached to the message: its type, and its geo data when the
      entity is read as a place. */
  datatype Entity = Entity(entityType: string, geo: Option<FacebookGeo>)

  /** The first entity of type "Place" (exact comparison), if any. */
  function FirstPlace(entities: seq<Entity>): (r: Option<Entity>)
    ensures r.Some? <==> exists k :: 0 <= k < |entities| && entities[k].entityType == "Place"
    ensures r.Some? ==> exists k :: 0 <= k < |entities| && entities[k] == r.value
                          && (forall j :: 0 <= j < k ==> entities[j].entityType != "Place")
    ensures r.Some? ==> r.value.entityType == "Place"
  {
    if |entities| == 0 then None
    else if entities[0].entityType == "Place" then Some(entities[0])
    else
      var rest := FirstPlace(entities[1..]);
      assert rest.Some? ==> exists k :: 1 <= k < |entities| && entities[k] == rest.value
                             && (forall j :: 1 <= j < k ==> entities[j].entityType != "Place") by {
        if rest.Some? {
          var k :| 0 <= k < |entities[1..]| && entities[1..][k] == rest.value
                   && (forall j :: 0 <= j < k ==> entities[1..][j].entityType != "Place");
          assert entities[k + 1] == rest.value;
          assert forall j :: 1 <= j < k + 1 ==> entities[j] == entities[1..][j - 1];
        }
      }
      assert (exists k :: 0 <= k < |entities| && entities[k].entityType == "Place")
             ==> (exists k :: 0 <= k < |entities[1..]| && entities[1..][k].entityType == "Place") by {
        if exists k :: 0 <= k < |entities| && entities[k].entityType == "Place" {
          var k :| 0 <= k < |entities| && entities[k].entityType == "Place";
          assert entities[1..][k - 1] == entities[k];
        }
      }
      rest
  }

  /** MessageReceivedInternalAsync: the reply completes the dialog at once.
      The result is a point-only location with coordinates [latitude,
      longitude] when the first place has both; otherwise it is null, whatever
      later entities hold. A message without entities also completes with null. */
  function MessageReceived(entities: Option<seq<Entity>>): (a: Action<(), Option<Location>>)
    ensures a.Done?
    ensures a.result.Some? <==>
              entities.Some? && FirstPlace(entities.value).Some?
              && FirstPlace(entities.value).value.geo.Some?
              && FirstPlace(entities.value).value.geo.value.latitude.Some?
              && FirstPlace(entities.value).value.geo.value.longitude.Some?
    ensures a.result.Some? ==>
              var g := FirstPlace(entities.value).value.geo.value;
              a.result.value == PointOnlyLocation(g.latitude.value, g.longitude.value)
  {
    var place := if entities.Some? then FirstPlace(entities.value) else None;
    if place.Some? && place.value.geo.Some?
       && place.value.geo.value.latitude.Some? && place.value.geo.value.longitude.Some?
    then
      var geo := place.value.geo.value;
      Done(Some(PointOnlyLocation(geo.latitude.value, geo.longitude.value)))
    else
      Done(None)
  }

  /** Only the first place counts: entities after it cannot change the result. */
  lemma {:induction false} OnlyFirstPlaceCounts(entities: seq<Entity>, later: seq<Entity>)
    requires FirstPlace(entities).Some?
    ensures MessageReceived(Some(entities + later)) == MessageReceived(Some(entities))
  {
    FirstPlaceOfPrefix(entities, later);
  }

  lemma {:induction false} FirstPlaceOfPrefix(entities: seq<Entity>, later: seq<Entity>)
    requires FirstPlace(entities).Some?
    ensures FirstPlace(entities + later) == FirstPlace(entities)
  {
    if entities[0].entityType != "Place" {
      assert (entities + later)[1..] == entities[1..] + later;
      FirstPlaceOfPrefix(entities[1..], later);
    }
  }
}
