/** The Node add-favourite dialogs: offer to save a place as a favourite
    (unless the store is full or already holds it), and ask for a name that
    no favourite has yet. */
module AddFavoriteLocation {
  import opened Common
  import opened Geo
  import opened NodeSession

  /** The dialog data: the place being saved, once it is offered. */
  datatype AddState = AddState(place: Option<Location>)

  /** First step: a full store, or a place that already is a favourite, ends
      the dialog at once with an empty response and asks nothing; otherwise
      the place is kept and the user is asked whether to save it. */
  function Begin(store: FavoritesStore, place: Location): (t: Turn<AddState>)
    reads store
    ensures t.outputs == []
    ensures store.MaxCapacityReached() || store.IsFavorite(place) ==>
              t.action == Done(Results(Some(EmptyResponse))) && t.state.place.None?
    ensures !store.MaxCapacityReached() && !store.IsFavorite(place) ==>
              t.state.place == Some(place) && t.action == CallChild(ConfirmDialog(Localized(AddToFavoritesAsk)))
  {
    if store.MaxCapacityReached() || store.IsFavorite(place) then
      Turn(AddState(None), [], Done(Results(Some(EmptyResponse))))
    else
      Turn(AddState(Some(place)), [], CallChild(ConfirmDialog(Localized(AddToFavoritesAsk))))
  }

  /** Second step: a yes asks for the name of the kept place; anything else
      passes the results on. */
  function AfterConfirm(state: AddState, results: Results): (t: Turn<AddState>)
    ensures t.state == state && t.outputs == []
    ensures ConfirmedYes(results) ==> t.action == CallChild(NameFavoriteLocation(state.place))
    ensures !ConfirmedYes(results) ==> t.action == Next(results)
  {
    if ConfirmedYes(results) then Turn(state, [], CallChild(NameFavoriteLocation(state.place)))
    else Turn(state, [], Next(results))
  }

  /** The name dialog's data: the place to save. */
  datatype NameState = NameState(place: Option<Location>)

  /** onBegin of the name dialog: keeps the place and asks for a name. */
  function NameBegin(place: Option<Location>): (t: Turn<NameState>)
    ensures t.state.place == place
    ensures t.outputs == [Localized(EnterNewFavoriteLocationName)] && t.action == Wait
  {
    Turn(NameState(place), [Localized(EnterNewFavoriteLocationName)], Wait)
  }

  /** onDefault of the name dialog. The trimmed reply is the name. A name some
      favourite already has (ignoring case) is refused, nothing is saved, and
      the dialog waits for another; otherwise exactly one favourite is added
      (when the store still has room), confirmed, and the dialog ends with an
      empty response. */
  method NameOnDefault(store: FavoritesStore, state: NameState, text: string)
    returns (outputs: seq<Outgoing>, action: Action<Child, Results>)
    requires store.Valid()
    modifies store
    ensures store.Valid()
    ensures old(store.IsFavoriteLocationName(Trim(text))) ==>
              store.entries == old(store.entries)
              && outputs == [LocalizedWith(DuplicateFavoriteNameResponse, Trim(text))] && action == Wait
    ensures !old(store.IsFavoriteLocationName(Trim(text))) ==>
              outputs == [LocalizedWith(FavoriteAddedConfirmation, Trim(text))]
              && action == Done(Results(Some(EmptyResponse)))
    ensures !old(store.IsFavoriteLocationName(Trim(text))) && !old(store.MaxCapacityReached()) ==>
              store.entries == old(store.entries) + [FavoriteLocation(state.place, Trim(text))]
    ensures old(store.MaxCapacityReached()) ==> store.entries == old(store.entries)
  {
    var newFavoriteName := Trim(text);
    if store.IsFavoriteLocationName(newFavoriteName) {
      outputs := [LocalizedWith(DuplicateFavoriteNameResponse, newFavoriteName)];
      action := Wait;
    } else {
      var favoriteLocation := FavoriteLocation(state.place, newFavoriteName);
      var _ := store.Add(favoriteLocation);
      outputs := [LocalizedWith(FavoriteAddedConfirmation, favoriteLocation.name)];
      action := Done(Results(Some(EmptyResponse)));
    }
  }
}
