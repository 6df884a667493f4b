/** The shapes the Node dialogs exchange through the bot session: the
    messages they send, the result objects they end with, the child dialogs
    they begin, and the per-user favourites store. */
module NodeSession {
  import opened Common
  import opened Geo

  /** The localized strings the dialogs send; their text is opaque here. */
  datatype StringId =
    | TitleSuffix | LocationNotFound | SingleResultFound | InvalidYesNo
    | AddToFavoritesAsk | EnterNewFavoriteLocationName | DuplicateFavoriteNameResponse
    | FavoriteAddedConfirmation | DeleteFavoriteConfirmationAsk
    | FavoriteDeletedConfirmation | DeleteFavoriteAbortion

  /** A hero card of a location carousel: its subtitle, and the 0-based index
      of the map image when it has one. */
  datatype Card = Card(subtitle: string, image: Option<nat>)

  /** A message sent to the user. */
  datatype Outgoing =
    | Text(text: string)                        // a literal or caller-supplied text
    | Localized(id: StringId)                   // session.gettext(id)
    | LocalizedWith(id: StringId, arg: string)  // session.gettext(id, arg)
    | LocationCards(cards: seq<Card>)           // a carousel built in the dialog itself
    | Carousel(locations: seq<Location>)        // a carousel built by the location card builder

  /** The `response` object of a dialog result. Absent members are None (and
      `reset` false); `locations` may be present and empty. */
  datatype Response = Response(
    confirmed: Option<bool>,
    locations: Option<seq<Location>>,
    place: Option<Location>,
    reset: bool)

  /** The empty response object `{}`. */
  const EmptyResponse: Response := Response(None, None, None, false)

  function ConfirmedResponse(confirmed: bool): (r: Response)
    ensures r.confirmed == Some(confirmed) && r.locations.None? && r.place.None? && !r.reset
  {
    EmptyResponse.(confirmed := Some(confirmed))
  }

  /** The result a child dialog hands to the next waterfall step. */
  datatype Results = Results(response: Option<Response>)

  /** `results.response && results.response.confirmed`: only a present,
      true answer is truthy. */
  predicate ConfirmedYes(results: Results) {
    results.response.Some? && results.response.value.confirmed == Some(true)
  }

  /** `results.response && results.response.confirmed === false`. */
  predicate ConfirmedNo(results: Results) {
    results.response.Some? && results.response.value.confirmed == Some(false)
  }

  /** A named favourite. */
  datatype FavoriteLocation = FavoriteLocation(location: Option<Location>, name: string)

  /** The arguments of the resolve dialog. */
  datatype ResolveArgs = ResolveArgs(prompt: string, skipDialogPrompt: bool, skipPromptSuffix: bool)

  /** The arguments of the delete dialog: the favourite to delete, and the
      rest, handed on untouched to the retrieve-favourite dialog. */
  datatype DeleteArgs = DeleteArgs(toBeDeleted: FavoriteLocation, others: map<string, string>)

  /** The dialogs the Node dialogs begin or replace themselves with. */
  datatype Child =
    | ConfirmDialog(confirmationPrompt: Outgoing)
    | LocationResolve(args: ResolveArgs)
    | ConfirmSingleLocation(locations: seq<Location>)
    | ChooseLocation(locations: seq<Location>)
    | DefaultLocationResolve(prompt: string)
    | ConfirmLocations(locations: seq<Location>)
    | ChoiceDialog(locations: seq<Location>)
    | NameFavoriteLocation(place: Option<Location>)
    | RetrieveFavoriteLocation(retrieveArgs: DeleteArgs)

  /** One step of a Node dialog: its new dialog data, the messages sent, and
      what it does next. */
  datatype Turn<S> = Turn(state: S, outputs: seq<Outgoing>, action: Action<Child, Results>)

  /** No two favourites have names that differ only in letter case. */
  ghost predicate NamesUnique(entries: seq<FavoriteLocation>) {
    forall i, j :: 0 <= i < j < |entries| ==> !EqualsIgnoreCase(entries[i].name, entries[j].name)
  }

  /** In a store with unique names, a name matches (ignoring case) at most
      one favourite. */
  lemma NameIdentifiesOneFavorite(entries: seq<FavoriteLocation>, name: string, i: nat, j: nat)
    requires NamesUnique(entries)
    requires i < |entries| && EqualsIgnoreCase(entries[i].name, name)
    requires j < |entries| && EqualsIgnoreCase(entries[j].name, name)
    ensures i == j
  {
    if i < j {
      assert EqualsIgnoreCase(entries[i].name, entries[j].name);
    } else if j < i {
      assert EqualsIgnoreCase(entries[j].name, entries[i].name);
    }
  }

  /** The favourites without those named `name`, in their order. */
  function Without(entries: seq<FavoriteLocation>, name: string): (r: seq<FavoriteLocation>)
    ensures forall e :: e in r <==> e in entries && e.name != name
    ensures |r| <= |entries|
    ensures (forall e :: e in entries ==> e.name != name) ==> r == entries
  {
    if entries == [] then []
    else if entries[0].name == name then Without(entries[1..], name)
    else [entries[0]] + Without(entries[1..], name)
  }

  /** Removal filters in order: it works element by element, keeping each
      favourite not named `name` once and in its place, and dropping each one
      that is. Together these fix the result for every list. */
  lemma {:induction false} WithoutFiltersInOrder(a: seq<FavoriteLocation>, b: seq<FavoriteLocation>, e: FavoriteLocation, name: string)
    ensures Without(a + b, name) == Without(a, name) + Without(b, name)
    ensures Without([], name) == []
    ensures Without([e], name) == (if e.name == name then [] else [e])
  {
    if a == [] {
      assert a + b == b;
    } else {
      var head := if a[0].name == name then [] else [a[0]];
      assert Without(a + b, name) == head + Without(a[1..] + b, name) by {
        assert (a + b)[1..] == a[1..] + b;
        assert (a + b)[0] == a[0];
        WithoutHead(a + b, name);
      }
      WithoutHead(a, name);
      WithoutFiltersInOrder(a[1..], b, e, name);
      AppendAssoc(head, Without(a[1..], name), Without(b, name));
    }
    assert [e][1..] == [];
  }

  lemma WithoutHead(entries: seq<FavoriteLocation>, name: string)
    requires entries != []
    ensures Without(entries, name)
         == (if entries[0].name == name then [] else [entries[0]]) + Without(entries[1..], name)
  {
  }

  lemma AppendAssoc(x: seq<FavoriteLocation>, y: seq<FavoriteLocation>, z: seq<FavoriteLocation>)
    ensures x + (y + z) == (x + y) + z
  {
  }

  /** Removing favourites keeps the names unique. */
  lemma {:induction false} WithoutKeepsNamesUnique(entries: seq<FavoriteLocation>, name: string)
    requires NamesUnique(entries)
    ensures NamesUnique(Without(entries, name))
  {
    if entries != [] {
      var tail := entries[1..];
      assert NamesUnique(tail) by {
        forall i, j | 0 <= i < j < |tail|
          ensures !EqualsIgnoreCase(tail[i].name, tail[j].name)
        {
          assert tail[i] == entries[i + 1] && tail[j] == entries[j + 1];
        }
      }
      WithoutKeepsNamesUnique(tail, name);
      var rest := Without(tail, name);
      if entries[0].name != name {
        var r := [entries[0]] + rest;
        forall i, j | 0 <= i < j < |r|
          ensures !EqualsIgnoreCase(r[i].name, r[j].name)
        {
          assert r[j] == rest[j - 1];
          if i > 0 {
            assert r[i] == rest[i - 1];
          } else {
            assert rest[j - 1] in tail;
            var k :| 0 <= k < |tail| && tail[k] == rest[j - 1];
            assert entries[k + 1] == rest[j - 1];
          }
        }
      }
    }
  }

  /** The user's favourites as the Node dialogs see them: an ordered list
      held in the user data, at most maxFavorites long, with names unique up
      to letter case. */
  class FavoritesStore {
    const maxFavorites: nat
    var entries: seq<FavoriteLocation>

    ghost predicate Valid()
      reads this
    {
      |entries| <= maxFavorites && NamesUnique(entries)
    }

    constructor (maxFavorites: nat)
      ensures Valid() && this.maxFavorites == maxFavorites && entries == []
    {
      this.maxFavorites := maxFavorites;
      entries := [];
    }

    /** maxCapacityReached */
    predicate MaxCapacityReached()
      reads this
      ensures Valid() ==> (MaxCapacityReached() <==> |entries| == maxFavorites)
    {
      |entries| >= maxFavorites
    }

    /** isFavorite: some favourite holds a location equal to `location`. */
    predicate IsFavorite(location: Location)
      reads this
      ensures IsFavorite(location) <==> exists e :: e in entries && e.location == Some(location)
    {
      exists k :: 0 <= k < |entries| && entries[k].location == Some(location)
    }

    /** isFavoriteLocationName: some favourite has this name, ignoring case. */
    predicate IsFavoriteLocationName(name: string)
      reads this
      ensures IsFavoriteLocationName(name) <==> exists e :: e in entries && EqualsIgnoreCase(e.name, name)
    {
      exists k :: 0 <= k < |entries| && EqualsIgnoreCase(entries[k].name, name)
    }

    /** add: appends the entry unless the store is full or the name is taken
        (ignoring case); in those cases nothing changes. */
    method Add(entry: FavoriteLocation) returns (added: bool)
      requires Valid()
      modifies this
      ensures Valid()
      ensures added <==> !old(MaxCapacityReached()) && !old(IsFavoriteLocationName(entry.name))
      ensures added ==> entries == old(entries) + [entry]
      ensures !added ==> entries == old(entries)
    {
      if |entries| >= maxFavorites || IsFavoriteLocationName(entry.name) {
        return false;
      }
      ghost var before := entries;
      entries := entries + [entry];
      added := true;
      forall i, j | 0 <= i < j < |entries|
        ensures !EqualsIgnoreCase(entries[i].name, entries[j].name)
      {
        assert entries[i] == before[i];
        if j < |before| {
          assert entries[j] == before[j];
        } else {
          assert !EqualsIgnoreCase(before[i].name, entry.name);
        }
      }
    }

    /** delete: removes the favourites with the given one's name. */
    method Delete(entry: FavoriteLocation)
      requires Valid()
      modifies this
      ensures Valid()
      ensures entries == Without(old(entries), entry.name)
    {
      WithoutKeepsNamesUnique(entries, entry.name);
      entries := Without(entries, entry.name);
    }
  }
}
