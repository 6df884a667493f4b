/** The Node delete-favourite dialog: confirms, then deletes and returns to
    the favourites list, returns without deleting, or passes the results on. */
module DeleteFavoriteLocation {
  import opened Common
  import opened NodeSession

  /** The dialog data: the arguments it was begun with, and the favourite to
      delete. */
  datatype DeleteState = DeleteState(args: DeleteArgs, toBeDeleted: FavoriteLocation)

  /** First step: keeps the arguments and asks for confirmation, naming the
      favourite. */
  function Begin(args: DeleteArgs): (t: Turn<DeleteState>)
    ensures t.state.args == args && t.state.toBeDeleted == args.toBeDeleted && t.outputs == []
    ensures t.action == CallChild(ConfirmDialog(LocalizedWith(DeleteFavoriteConfirmationAsk, args.toBeDeleted.name)))
  {
    Turn(DeleteState(args, args.toBeDeleted), [],
         CallChild(ConfirmDialog(LocalizedWith(DeleteFavoriteConfirmationAsk, args.toBeDeleted.name))))
  }

  /** Second step, a three-way outcome. A yes deletes the favourite, confirms
      it and replaces this dialog with the favourites list, begun with the
      original arguments; a no says the deletion was abandoned and does the
      same replacement; no answer at all passes the results on. Only a yes
      changes the store. */
  method AfterConfirm(store: FavoritesStore, state: DeleteState, results: Results)
    returns (outputs: seq<Outgoing>, action: Action<Child, Results>)
    requires store.Valid()
    modifies store
    ensures store.Valid()
    ensures ConfirmedYes(results) ==>
              store.entries == Without(old(store.entries), state.toBeDeleted.name)
              && outputs == [LocalizedWith(FavoriteDeletedConfirmation, state.toBeDeleted.name)]
              && action == Replace(RetrieveFavoriteLocation(state.args))
    ensures ConfirmedNo(results) ==>
              store.entries == old(store.entries)
              && outputs == [LocalizedWith(DeleteFavoriteAbortion, state.toBeDeleted.name)]
              && action == Replace(RetrieveFavoriteLocation(state.args))
    ensures !ConfirmedYes(results) && !ConfirmedNo(results) ==>
              store.entries == old(store.entries) && outputs == [] && action == Next(results)
  {
    if ConfirmedYes(results) {
      store.Delete(state.toBeDeleted);
      outputs := [LocalizedWith(FavoriteDeletedConfirmation, state.toBeDeleted.name)];
      action := Replace(RetrieveFavoriteLocation(state.args));
    } else if ConfirmedNo(results) {
      outputs := [LocalizedWith(DeleteFavoriteAbortion, state.toBeDeleted.name)];
      action := Replace(RetrieveFavoriteLocation(state.args));
    } else {
      outputs := [];
      action := Next(results);
    }
  }
}
