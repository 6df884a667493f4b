/** LocationDialog: the root dialog. It offers the favourite and the
    other-location branches, runs the branch's retriever dialog, optionally
    reverse-geocodes a point-only answer, asks once per branch start for the
    required address fields, and asks for a final confirmation before it
    completes with a Place (and saves it as a favourite when the user came
    through "new" from the favourites list) or starts over. */
module Orchestrator {
  import opened Common
  import opened Geo
  import opened BotTypes
  import opened DialogFactory
  import opened ClientLocationLists
  import opened FavoritesManager
  import FacebookLocation
  import FavoriteLocations

  /** The reverse geocoder's answer for a point: a failure, or the locations
      it found (a null answer or a null list reads as an empty list). */
  datatype GeocodeReply = GeocodeFailed | GeocodeResults(locations: seq<Location>)

  /** The child dialogs the location dialog calls. */
  datatype Child =
    | Retriever(dialog: RetrieverDialog)
    | RequiredFieldsDialog(found: Option<Location>, fields: set<RequiredField>)
    | FinalConfirmation(location: Location, retry: string)

  /** Which of its callbacks the framework will call next. */
  datatype Awaiting = NotStarted | BranchReply | ChildResponse | ConfirmationAnswer | Ended

  // ---------------------------------------------------------------------------
  // Reverse geocoding

  /** Whether TryReverseGeocodeAddress asks the geocoder at all: the option is
      set and the location has a point but no address. */
  predicate ShouldReverseGeocode(enabled: bool, location: Option<Location>) {
    enabled && location.Some? && location.value.address.None? && location.value.point.Some?
  }

  /** The address built from a reverse-geocoded one: the street line is not
      trusted and left out (the formatted address is not set either). */
  function AddressWithoutStreet(a: Address): (r: Address)
    ensures r.addressLine == "" && r.formattedAddress == ""
    ensures r.countryRegion == a.countryRegion && r.adminDistrict == a.adminDistrict
            && r.adminDistrict2 == a.adminDistrict2 && r.locality == a.locality && r.postalCode == a.postalCode
  {
    Address("", a.adminDistrict, a.adminDistrict2, a.countryRegion, "", a.locality, a.postalCode)
  }

  /** TryReverseGeocodeAddress. It changes only the address of a point-only
      location, and only when the geocoder's first result has an address: then
      the country, admin districts, locality and postal code of that address
      are filled in. Reading the first two coordinates of a shorter point
      throws, and so does a failing geocoder. */
  function TryReverseGeocodeAddress(enabled: bool, location: Option<Location>, geocode: (real, real) -> GeocodeReply)
    : (r: Result<Option<Location>, Fault>)
    ensures !ShouldReverseGeocode(enabled, location) ==> r == Ok(location)
    ensures ShouldReverseGeocode(enabled, location) && |location.value.point.value.coordinates| < 2 ==>
              r == Err(ArgumentOutOfRange)
    ensures ShouldReverseGeocode(enabled, location) && |location.value.point.value.coordinates| >= 2 ==>
              var c := location.value.point.value.coordinates;
              var reply := geocode(c[0], c[1]);
              && (reply.GeocodeFailed? ==> r == Err(GeocoderFailure))
              && (reply.GeocodeResults? && |reply.locations| > 0 && reply.locations[0].address.Some? ==>
                    r == Ok(Some(location.value.(address := Some(AddressWithoutStreet(reply.locations[0].address.value))))))
              && (reply.GeocodeResults? && (reply.locations == [] || reply.locations[0].address.None?) ==>
                    r == Ok(location))
    // only the address ever changes, only from none to some, and never gets a street line
    ensures r.Ok? ==> r.value.Some? == location.Some?
    ensures r.Ok? && r.value.Some? ==> r.value.value.(address := location.value.address) == location.value
    ensures r.Ok? && r.value != location ==>
              location.value.address.None? && r.value.value.address.Some?
              && r.value.value.address.value.addressLine == ""
  {
    if !ShouldReverseGeocode(enabled, location) then Ok(location)
    else
      var l := location.value;
      var c := l.point.value.coordinates;
      if |c| < 2 then Err(ArgumentOutOfRange)
      else
        var reply := geocode(c[0], c[1]);
        if reply.GeocodeFailed? then Err(GeocoderFailure)
        else if |reply.locations| > 0 && reply.locations[0].address.Some? then
          Ok(Some(l.(address := Some(AddressWithoutStreet(reply.locations[0].address.value)))))
        else Ok(location)
  }

  // ---------------------------------------------------------------------------
  // The caller-facing result

  /** CreatePlace: type and name are copied; the postal address exists exactly
      when the location has an address, and the coordinates exactly when it has
      a point with coordinates, latitude first. */
  function CreatePlace(location: Location): (p: Place)
    ensures p.placeType == location.entityType && p.name == location.name
    ensures p.address.Some? <==> location.address.Some?
    ensures p.address.Some? ==>
              var a := location.address.value;
              p.address.value.country == a.countryRegion && p.address.value.region == a.adminDistrict
              && p.address.value.streetAddress == a.addressLine && p.address.value.locality == a.locality
              && p.address.value.postalCode == a.postalCode && p.address.value.formattedAddress == a.formattedAddress
    ensures p.geo.Some? <==> location.point.Some? && HasCoordinates(location.point.value)
    ensures p.geo.Some? ==>
              p.geo.value.latitude == location.point.value.coordinates[0]
              && p.geo.value.longitude == location.point.value.coordinates[1]
  {
    var address := if location.address.Some? then
                     var a := location.address.value;
                     Some(PostalAddress(a.formattedAddress, a.countryRegion, a.locality, a.postalCode, a.adminDistrict, a.addressLine))
                   else None;
    var geo := if location.point.Some? && HasCoordinates(location.point.value) then
                 Some(GeoCoordinates(location.point.value.coordinates[0], location.point.value.coordinates[1]))
               else None;
    Place(location.entityType, location.name, address, geo)
  }

  /** A point shared through Facebook's native control reaches the caller
      with the same latitude and longitude, whether or not reverse geocoding
      ran. Without reverse geocoding the place has no address; with it, and a
      first result that has an address, the place gets that address's country,
      region, locality and postal code, and no street address. The only way to
      lose the point is a failing geocoder. */
  lemma NativePointReachesPlace(
    entities: Option<seq<FacebookLocation.Entity>>, reverseGeocode: bool, geocode: (real, real) -> GeocodeReply)
    requires FacebookLocation.MessageReceived(entities).result.Some?
    ensures var l := FacebookLocation.MessageReceived(entities).result;
            var g := FacebookLocation.FirstPlace(entities.value).value.geo.value;
            var reply := geocode(g.latitude.value, g.longitude.value);
            var r := TryReverseGeocodeAddress(reverseGeocode, l, geocode);
            (r.Err? ==> reverseGeocode && r.error == GeocoderFailure && reply.GeocodeFailed?)
            && (r.Ok? ==>
                  r.value.Some?
                  && CreatePlace(r.value.value).geo == Some(GeoCoordinates(g.latitude.value, g.longitude.value)))
            && (!reverseGeocode ==> r.Ok? && CreatePlace(r.value.value).address.None?)
            && (reverseGeocode && reply.GeocodeResults? && |reply.locations| > 0 && reply.locations[0].address.Some? ==>
                  var a := reply.locations[0].address.value;
                  r.Ok? && CreatePlace(r.value.value).address
                           == Some(PostalAddress("", a.countryRegion, a.locality, a.postalCode, a.adminDistrict, "")))
  {
    var l := FacebookLocation.MessageReceived(entities).result;
    var r := TryReverseGeocodeAddress(reverseGeocode, l, geocode);
    if r.Ok? {
      assert r.value.value.point == l.value.point;
    }
  }

  /** A child's answer meaning "create a new location": no location, and the
      new command as message, compared ignoring case. */
  predicate IsNewCommand(response: LocationDialogResponse, newCommand: string) {
    response.location.None? && response.message.Some?
    && EqualsIgnoreCase(response.message.value, newCommand)
  }

  /** Typing "new" in the favourites list (with no favourites, the only
      thing to do) completes that dialog with an answer the location dialog
      reads as the new command, which restarts it in the other-location
      branch. */
  lemma NewFromFavoritesIsNewCommand(favorites: FavoriteLocations.FavoriteLocationsDialog, text: string)
    requires EqualsIgnoreCase(Trim(text), favorites.resources.newCommand)
    ensures favorites.MessageReceived(Some(text)).action.Done?
    ensures IsNewCommand(favorites.MessageReceived(Some(text)).action.result, favorites.resources.newCommand)
  {
  }

  // ---------------------------------------------------------------------------
  // The dialog

  class LocationDialog {
    const apiKey: string
    const channelId: string
    const prompt: string
    const options: LocationOptions
    const requiredFields: set<RequiredField>
    const resources: Resources
    const branches: seq<string>
    var requiredDialogCalled: bool
    var shouldFavoriteSelectedLocation: bool
    var selectedLocation: Option<Location>
    var currentBranch: Option<string>
    ghost var awaiting: Awaiting

    ghost predicate Valid()
      reads this
    {
      && branches == [resources.favoriteLocation, resources.otherLocation]
      && (awaiting != NotStarted ==> currentBranch.Some? && currentBranch.value in branches)
      && (awaiting == ConfirmationAnswer ==> selectedLocation.Some?)
    }

    constructor (apiKey: string, channelId: string, prompt: string, options: LocationOptions,
                 requiredFields: set<RequiredField>, resources: Resources)
      ensures Valid() && awaiting == NotStarted
      ensures this.apiKey == apiKey && this.channelId == channelId && this.prompt == prompt
      ensures this.options == options && this.requiredFields == requiredFields && this.resources == resources
      ensures !requiredDialogCalled && !shouldFavoriteSelectedLocation
      ensures selectedLocation.None? && currentBranch.None?
    {
      this.apiKey := apiKey;
      this.channelId := channelId;
      this.prompt := prompt;
      this.options := options;
      this.requiredFields := requiredFields;
      this.resources := resources;
      branches := [resources.favoriteLocation, resources.otherLocation];
      requiredDialogCalled := false;
      shouldFavoriteSelectedLocation := false;
      selectedLocation := None;
      currentBranch := None;
      awaiting := NotStarted;
    }

    /** The retriever dialog the factory builds for one of the two branches. */
    function RetrieverFor(branch: string): RetrieverDialog
      requires branch == resources.favoriteLocation || branch == resources.otherLocation
    {
      CreateLocationRetrieverDialog(Factory(apiKey, channelId, prompt, options, requiredFields, resources), branch).value
    }

    /** The hero card offering the two branches as buttons. */
    function BranchMenu(): (p: Post)
      reads this
      requires Valid()
      ensures p.Attachments? && |p.attachments| == 1 && p.attachments[0].Hero?
      ensures var card := p.attachments[0].hero;
              card.subtitle == resources.dialogStartBranchAsk && card.image.None?
              && |card.buttons| == |branches|
              && forall k :: 0 <= k < |branches| ==> card.buttons[k] == Button(branches[k], branches[k])
    {
      Attachments([Hero(HeroCard(resources.dialogStartBranchAsk, None,
        [Button(resources.favoriteLocation, resources.favoriteLocation),
         Button(resources.otherLocation, resources.otherLocation)]))])
    }

    /** What StartAsync does, which depends on the options alone: go straight
        into the other-location branch when favourites are opted out of, and
        otherwise show the branch menu and wait. */
    function StartTurn(): Turn<Child, Place>
      reads this
      requires Valid()
    {
      if options.optOutOfFavorites then Turn([], CallChild(Retriever(RetrieverFor(resources.otherLocation))))
      else Turn([BranchMenu()], Wait)
    }

    /** StartAsync. */
    method Start() returns (posts: seq<Post>, action: Action<Child, Place>)
      requires Valid()
      modifies this
      ensures Valid()
      ensures Turn(posts, action) == StartTurn()
      ensures currentBranch == Some(resources.otherLocation) && !shouldFavoriteSelectedLocation
      ensures selectedLocation == old(selectedLocation)
      ensures options.optOutOfFavorites ==> !requiredDialogCalled && awaiting == ChildResponse
      ensures !options.optOutOfFavorites ==> requiredDialogCalled == old(requiredDialogCalled) && awaiting == BranchReply
    {
      currentBranch := Some(resources.otherLocation);
      shouldFavoriteSelectedLocation := false;
      if options.optOutOfFavorites {
        posts := [];
        action := StartCurrentBranch();
      } else {
        posts := [BranchMenu()];
        action := Wait;
        awaiting := BranchReply;
      }
    }

    /** StartCurrentBranch: every branch start forgets that the required-fields
        dialog was called, and calls the branch's retriever. */
    method StartCurrentBranch() returns (action: Action<Child, Place>)
      requires Valid() && currentBranch.Some? && currentBranch.value in branches
      modifies this`requiredDialogCalled, this`awaiting
      ensures Valid() && awaiting == ChildResponse
      ensures !requiredDialogCalled
      ensures action == CallChild(Retriever(RetrieverFor(currentBranch.value)))
    {
      requiredDialogCalled := false;
      var dialog := CreateLocationRetrieverDialog(
        Factory(apiKey, channelId, prompt, options, requiredFields, resources), currentBranch.value);
      action := CallChild(Retriever(dialog.value));
      awaiting := ChildResponse;
    }

    /** MessageReceivedInternalAsync: the reply to the branch menu. Only the
        exact (trimmed, case-sensitive) text of a branch starts it; anything
        else posts the invalid-branch message and waits with nothing changed.
        A message without text (`None`) makes the trimming throw: nothing is
        posted and the dialog ends in a fault. */
    method MessageReceived(text: Option<string>) returns (posts: seq<Post>, action: Action<Child, Place>)
      requires Valid() && awaiting == BranchReply
      modifies this
      ensures Valid()
      ensures shouldFavoriteSelectedLocation == old(shouldFavoriteSelectedLocation)
      ensures selectedLocation == old(selectedLocation)
      ensures text.None? ==>
                currentBranch == old(currentBranch) && requiredDialogCalled == old(requiredDialogCalled)
                && awaiting == Ended && posts == [] && action == Fault
      ensures text.Some? && Trim(text.value) in branches ==>
                currentBranch == Some(Trim(text.value)) && !requiredDialogCalled && awaiting == ChildResponse
                && posts == [] && action == CallChild(Retriever(RetrieverFor(Trim(text.value))))
      ensures text.Some? && Trim(text.value) !in branches ==>
                currentBranch == old(currentBranch) && requiredDialogCalled == old(requiredDialogCalled)
                && awaiting == BranchReply
                && posts == [Say(resources.invalidStartBranchResponse)] && action == Wait
    {
      if text.None? {
        awaiting := Ended;
        return [], Fault;
      }
      var messageText := Trim(text.value);
      if messageText in branches {
        currentBranch := Some(messageText);
        posts := [];
        action := StartCurrentBranch();
      } else {
        posts := [Say(resources.invalidStartBranchResponse)];
        action := Wait;
      }
    }

    /** ResumeAfterChildDialogInternalAsync. "New" from the favourites list
        restarts in the other-location branch and marks the coming location to
        be saved as a favourite. Any other answer becomes the selected location,
        is reverse-geocoded when that applies, and then goes to the required-
        fields dialog (at most once per branch start, and only when fields are
        required) or to the final confirmation. */
    method ResumeAfterChild(response: LocationDialogResponse, geocode: (real, real) -> GeocodeReply)
      returns (posts: seq<Post>, action: Action<Child, Place>)
      requires Valid() && awaiting == ChildResponse
      modifies this
      ensures Valid()
      ensures posts == []
      ensures IsNewCommand(response, resources.newCommand) ==>
                shouldFavoriteSelectedLocation && currentBranch == Some(resources.otherLocation)
                && !requiredDialogCalled && selectedLocation == old(selectedLocation) && awaiting == ChildResponse
                && action == CallChild(Retriever(RetrieverFor(resources.otherLocation)))
      ensures !IsNewCommand(response, resources.newCommand) ==>
                shouldFavoriteSelectedLocation == old(shouldFavoriteSelectedLocation)
                && currentBranch == old(currentBranch)
      ensures !IsNewCommand(response, resources.newCommand) ==>
                var g := TryReverseGeocodeAddress(options.reverseGeocode, response.location, geocode);
                && (g.Err? ==> selectedLocation == response.location && action == Fault && awaiting == Ended)
                && (g.Ok? ==> selectedLocation == g.value)
                && (g.Ok? && !old(requiredDialogCalled) && requiredFields != {} ==>
                      requiredDialogCalled && awaiting == ChildResponse
                      && action == CallChild(RequiredFieldsDialog(g.value, requiredFields)))
                && (g.Ok? && (old(requiredDialogCalled) || requiredFields == {}) ==>
                      requiredDialogCalled == old(requiredDialogCalled)
                      && (g.value.None? ==> action == Fault && awaiting == Ended)
                      && (g.value.Some? ==> action == CallChild(FinalConfirmation(g.value.value, resources.confirmationInvalidResponse))
                                            && awaiting == ConfirmationAnswer))
    {
      posts := [];
      if IsNewCommand(response, resources.newCommand) {
        shouldFavoriteSelectedLocation := true;
        currentBranch := Some(resources.otherLocation);
        action := StartCurrentBranch();
      } else {
        selectedLocation := response.location;
        var geocoded := TryReverseGeocodeAddress(options.reverseGeocode, selectedLocation, geocode);
        if geocoded.Err? {
          awaiting := Ended;
          return [], Fault;
        }
        selectedLocation := geocoded.value;
        if !requiredDialogCalled && requiredFields != {} {
          requiredDialogCalled := true;
          action := CallChild(RequiredFieldsDialog(selectedLocation, requiredFields));
        } else {
          action := MakeFinalConfirmation();
        }
      }
    }

    /** MakeFinalConfirmation: asks to confirm the selected location; with no
        location selected, formatting its address throws. */
    method MakeFinalConfirmation() returns (action: Action<Child, Place>)
      requires Valid() && awaiting != NotStarted
      modifies this`awaiting
      ensures Valid()
      ensures selectedLocation.None? ==> action == Fault && awaiting == Ended
      ensures selectedLocation.Some? ==>
                action == CallChild(FinalConfirmation(selectedLocation.value, resources.confirmationInvalidResponse))
                && awaiting == ConfirmationAnswer
    {
      if selectedLocation.None? {
        awaiting := Ended;
        return Fault;
      }
      action := CallChild(FinalConfirmation(selectedLocation.value, resources.confirmationInvalidResponse));
      awaiting := ConfirmationAnswer;
    }

    /** The answer to the final confirmation, or None when the confirm prompt
        gave up after too many unrecognised replies (its default attempt
        limit), which makes awaiting the answer throw. "Yes" saves the location
        as a favourite exactly when the user asked for a new one from the
        favourites list (PostProcessSelectedLocation) and completes with its
        Place. "No" posts the reset prompt and runs StartAsync again, which
        clears the favourite mark and repeats the opening turn exactly. Only the
        favourites entry of the user data can change. */
    method ConfirmationAnswered(answer: Option<bool>, data: UserData)
      returns (posts: seq<Post>, action: Action<Child, Place>)
      requires Valid() && awaiting == ConfirmationAnswer
      modifies this, data
      ensures Valid()
      ensures forall k :: k != FavoritesKey ==> (k in data.values <==> k in old(data.values))
      ensures forall k :: k != FavoritesKey && k in data.values ==> data.values[k] == old(data.values)[k]
      ensures answer != Some(true) || !old(shouldFavoriteSelectedLocation) ==> data.values == old(data.values)
      ensures answer != Some(false) ==>
                selectedLocation == old(selectedLocation) && currentBranch == old(currentBranch)
                && shouldFavoriteSelectedLocation == old(shouldFavoriteSelectedLocation)
                && requiredDialogCalled == old(requiredDialogCalled) && awaiting == Ended
      ensures answer.None? ==> posts == [] && action == Fault
      ensures answer == Some(true) ==> action == Done(CreatePlace(old(selectedLocation).value))
      ensures answer == Some(true) && old(shouldFavoriteSelectedLocation) ==>
                Favorites(data.values) == Favorites(old(data.values)) + [old(selectedLocation).value]
                && posts == [Say(resources.favoriteAdditionConfirmation)]
      ensures answer == Some(true) && !old(shouldFavoriteSelectedLocation) ==> posts == []
      ensures answer == Some(false) ==>
                Turn(posts, action) == Turn([Say(resources.resetPrompt)] + StartTurn().posts, StartTurn().action)
                && !shouldFavoriteSelectedLocation && currentBranch == Some(resources.otherLocation)
                && selectedLocation == old(selectedLocation)
                && (options.optOutOfFavorites ==> !requiredDialogCalled && awaiting == ChildResponse)
                && (!options.optOutOfFavorites ==>
                      requiredDialogCalled == old(requiredDialogCalled) && awaiting == BranchReply)
    {
      match answer
      case None =>
        posts, action := [], Fault;
        awaiting := Ended;
      case Some(true) =>
        posts := PostProcessSelectedLocation(data);
        action := Done(CreatePlace(selectedLocation.value));
        awaiting := Ended;
      case Some(false) =>
        var restart: seq<Post>;
        restart, action := Start();
        posts := [Say(resources.resetPrompt)] + restart;
    }

    /** PostProcessSelectedLocation: saves the selected location as a
        favourite when it is marked to be, and confirms that; no other user
        data entry changes. */
    method PostProcessSelectedLocation(data: UserData) returns (posts: seq<Post>)
      requires selectedLocation.Some?
      modifies data
      ensures forall k :: k != FavoritesKey ==> (k in data.values <==> k in old(data.values))
      ensures forall k :: k != FavoritesKey && k in data.values ==> data.values[k] == old(data.values)[k]
      ensures shouldFavoriteSelectedLocation ==>
                Favorites(data.values) == Favorites(old(data.values)) + [selectedLocation.value]
                && posts == [Say(resources.favoriteAdditionConfirmation)]
      ensures !shouldFavoriteSelectedLocation ==> data.values == old(data.values) && posts == []
    {
      posts := [];
      if shouldFavoriteSelectedLocation {
        AddToFavorites(data, selectedLocation.value);
        posts := [Say(resources.favoriteAdditionConfirmation)];
      }
    }
  }
}
