/** FavoriteLocationsDialog: shows the user's favourite locations and lets the
    user pick one by its 1-based number or ask for a new location. */
module FavoriteLocations {
  import opened Common
  import opened Geo
  import opened BotTypes
  import opened LocationCard
  import opened ClientLocationLists
  import opened FavoritesManager

  /** What the user's reply asks for. */
  datatype Choice = NewLocation(message: string) | Picked(location: Location) | Invalid

  /** The decision on a reply: the new command (ignoring case) first, then a
      number between 1 and the number of favourites. */
  function Choose(locations: seq<Location>, newCommand: string, text: string): (c: Choice)
    ensures c.NewLocation? <==> EqualsIgnoreCase(Trim(text), newCommand)
    ensures EqualsIgnoreCase(Trim(text), newCommand) ==> c == NewLocation(Trim(text))
    ensures c.Picked? <==>
              !EqualsIgnoreCase(Trim(text), newCommand)
              && ParseInt32(Trim(text)).Some? && 1 <= ParseInt32(Trim(text)).value <= |locations|
    ensures c.Picked? ==> c.location == locations[ParseInt32(Trim(text)).value - 1]
    ensures c.NewLocation? ==> c.message == Trim(text)
  {
    var messageText := Trim(text);
    if EqualsIgnoreCase(messageText, newCommand) then NewLocation(messageText)
    else
      var value := ParseInt32(messageText);
      if value.Some? && value.value > 0 && value.value <= |locations| then Picked(locations[value.value - 1])
      else Invalid
  }

  class FavoriteLocationsDialog {
    const apiKey: string
    const supportsKeyboard: bool
    const resources: Resources
    var locations: seq<Location>

    constructor (apiKey: string, supportsKeyboard: bool, resources: Resources)
      ensures this.apiKey == apiKey && this.supportsKeyboard == supportsKeyboard
      ensures this.resources == resources && locations == []
    {
      this.apiKey := apiKey;
      this.supportsKeyboard := supportsKeyboard;
      this.resources := resources;
      locations := [];
    }

    /** The prompt: "none found" exactly when there are no favourites. */
    function Prompt(): (p: string)
      reads this
      ensures |locations| == 0 ==> p == resources.noFavoriteLocationsFound
      ensures |locations| > 0 ==> p == resources.favoriteLocationsFound
    {
      if |locations| == 0 then resources.noFavoriteLocationsFound else resources.favoriteLocationsFound
    }

    /** StartAsync: loads the favourites, posts the carousel (a numbered card
        per favourite, then the new-location card), then the prompt, as a
        keyboard card when the channel supports one and as text otherwise,
        and waits. A favourite without an address makes the carousel throw. */
    method Start(data: UserData) returns (posts: seq<Post>, action: Action<(), LocationDialogResponse>)
      modifies this
      ensures locations == Favorites(data.values)
      ensures (exists k :: 0 <= k < |locations| && locations[k].address.None?) ==>
                posts == [] && action == Fault
      ensures (forall k :: 0 <= k < |locations| ==> locations[k].address.Some?) ==>
                action == Wait && |posts| == 2 && posts[0].Attachments?
                && |posts[0].attachments| == |locations| + 1
                && (forall k :: 0 <= k < |locations| ==>
                      posts[0].attachments[k] == Hero(LocationHeroCard(locations[k], k + 1, true)))
                && posts[0].attachments[|locations|] == Hero(HeroCard(resources.newCommand, None, []))
                && posts[1] == (if supportsKeyboard
                                then Attachments([Keyboard(KeyboardCard(Prompt(),
                                       NumberButtons(|locations|) + [Button(resources.newCommand, resources.newCommand)]))])
                                else Say(Prompt()))
    {
      locations := GetFavorites(data);
      var cards := CreateLocationHeroCard(locations, true);
      if cards.Err? {
        return [], Fault;
      }
      var carousel := Attachments(cards.value + [Hero(HeroCard(resources.newCommand, None, []))]);
      var favoritesPrompt := if |locations| == 0 then resources.noFavoriteLocationsFound
                             else resources.favoriteLocationsFound;
      var promptPost: Post;
      if supportsKeyboard {
        var keyboard := CreateLocationKeyboardCard(favoritesPrompt, |locations|, [resources.newCommand]);
        assert LabelButtons([resources.newCommand]) == [Button(resources.newCommand, resources.newCommand)];
        promptPost := Attachments(keyboard);
      } else {
        promptPost := Say(favoritesPrompt);
      }
      posts := [carousel, promptPost];
      action := Wait;
    }

    /** MessageReceivedInternalAsync: completes with the new command's text
        and no location, or with the chosen favourite; any other reply posts
        the invalid-choice message (the empty-list one when there are no
        favourites) and waits again, the list unchanged. A message without
        text (`None`) makes the trimming throw: nothing is posted and the
        dialog faults. */
    function MessageReceived(text: Option<string>): (t: Turn<(), LocationDialogResponse>)
      reads this
      ensures text.None? ==> t == Turn([], Fault)
      ensures text.Some? && Choose(locations, resources.newCommand, text.value).NewLocation? ==>
                t == Turn([], Done(LocationDialogResponse(None, Some(Trim(text.value)))))
      ensures text.Some? && Choose(locations, resources.newCommand, text.value).Picked? ==>
                t == Turn([], Done(LocationDialogResponse(Some(Choose(locations, resources.newCommand, text.value).location), None)))
      ensures text.Some? && Choose(locations, resources.newCommand, text.value).Invalid? ==>
                t.action == Wait && |t.posts| == 1
                && t.posts[0] == Say(if |locations| > 0 then resources.invalidFavoriteLocationResponse
                                     else resources.invalidEmptyFavoriteLocationsResponse)
    {
      if text.None? then Turn([], Fault)
      else
        match Choose(locations, resources.newCommand, text.value)
        case NewLocation(message) => Turn([], Done(LocationDialogResponse(None, Some(message))))
        case Picked(location) => Turn([], Done(LocationDialogResponse(Some(location), None)))
        case Invalid =>
          Turn([Say(if |locations| > 0 then resources.invalidFavoriteLocationResponse
                    else resources.invalidEmptyFavoriteLocationsResponse)], Wait)
    }
  }

  /** Pressing a numbered button of the favourites keyboard picks the
      favourite with that number, unless the new command is itself that
      number; the second, fourth, ... favourites have no button. */
  lemma KeyboardButtonPicksFavorite(locations: seq<Location>, newCommand: string, k: nat)
    requires |locations| <= Int32Max
    requires k < |NumberButtons(|locations|)|
    requires !EqualsIgnoreCase(NumberButtons(|locations|)[k].value, newCommand)
    ensures Choose(locations, newCommand, NumberButtons(|locations|)[k].value) == Picked(locations[2 * k])
  {
    assert NumberButtons(|locations|)[k].value == NatToString(2 * k + 1) && 2 * k + 1 <= |locations| by {
      NumberButtonValues(|locations|, k);
    }
    TypedNumberPicksFavorite(locations, newCommand, 2 * k + 1);
  }


  /** Typing the number of any favourite picks it, whether or not it has a
      button; a number past the end of the list is refused. */
  lemma TypedNumberPicksFavorite(locations: seq<Location>, newCommand: string, n: nat)
    requires n <= Int32Max
    requires !EqualsIgnoreCase(NatToString(n), newCommand)
    ensures 1 <= n <= |locations| ==> Choose(locations, newCommand, NatToString(n)) == Picked(locations[n - 1])
    ensures n == 0 || n > |locations| ==> Choose(locations, newCommand, NatToString(n)) == Invalid
  {
    var s := NatToString(n);
    TrimTrimmed(s);
    ParseNatToString(n);
    assert ParseInt32(Trim(s)) == Some(n);
  }
}
