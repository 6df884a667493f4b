/** Types shared by the C# dialogs: configuration, the localized strings the
    dialogs compare or post, the cards they render and the response a
    location-retrieving child dialog hands back. */
module BotTypes {
  import opened Common
  import opened Geo

  /** The LocationOptions flags the C# dialogs test. */
  datatype LocationOptions = LocationOptions(
    useNativeControl: bool,
    reverseGeocode: bool,
    optOutOfFavorites: bool)

  /** The flags of LocationRequiredFields; the empty set is LocationRequiredFields.None. */
  datatype RequiredField = StreetAddress | Locality | Region | PostalCode | Country

  /** The entries of the location resource manager that the dialogs use. */
  datatype Resources = Resources(
    favoriteLocation: string,
    otherLocation: string,
    newCommand: string,
    dialogStartBranchAsk: string,
    invalidStartBranchResponse: string,
    resetPrompt: string,
    favoriteAdditionConfirmation: string,
    confirmationInvalidResponse: string,
    noFavoriteLocationsFound: string,
    favoriteLocationsFound: string,
    invalidFavoriteLocationResponse: string,
    invalidEmptyFavoriteLocationsResponse: string)

  /** An "imBack" card action: the button shows title and sends value back. */
  datatype Button = Button(title: string, value: string)

  /** A hero card: its subtitle, the pin number of its map image when it has
      one (the image URL itself is not modelled) and its buttons. */
  datatype HeroCard = HeroCard(subtitle: string, image: Option<nat>, buttons: seq<Button>)

  datatype KeyboardCard = KeyboardCard(text: string, buttons: seq<Button>)

  datatype Attachment = Hero(hero: HeroCard) | Keyboard(keyboard: KeyboardCard)

  /** A message posted to the user: plain text or a list of attachments. */
  datatype Post = Say(text: string) | Attachments(attachments: seq<Attachment>)

  /** The result of a location-retrieving child dialog: the chosen location,
      or no location and the text of a command. */
  datatype LocationDialogResponse = LocationDialogResponse(location: Option<Location>, message: Option<string>)

  /** Exceptions that end a turn. */
  datatype Fault = NullReference | ArgumentOutOfRange | GeocoderFailure | ArgumentNull(paramName: string) | InvalidBranch

  /** The posts and the action of one dialog turn. */
  datatype Turn<+Child, +R> = Turn(posts: seq<Post>, action: Action<Child, R>)
}
