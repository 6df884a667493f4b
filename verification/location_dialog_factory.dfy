/** LocationDialogFactory: chooses the dialog that retrieves a location for
    the branch the user picked. */
module DialogFactory {
  import opened Common
  import opened BotTypes

  datatype Factory = Factory(
    apiKey: string,
    channelId: string,
    prompt: string,
    options: LocationOptions,
    requiredFields: set<RequiredField>,
    resources: Resources)

  /** The dialogs the factory can produce. */
  datatype RetrieverDialog =
    | FacebookNativeRetriever(prompt: string, apiKey: string, options: LocationOptions, requiredFields: set<RequiredField>)
    | RichRetriever(prompt: string, supportsKeyboard: bool, apiKey: string, options: LocationOptions, requiredFields: set<RequiredField>)
    | FavoriteLocations(apiKey: string, supportsKeyboard: bool)

  /** The constructor: a null api key, channel id or prompt is rejected, in
      that order, with an ArgumentNullException naming the parameter. */
  function NewFactory(
    apiKey: Option<string>, channelId: Option<string>, prompt: Option<string>,
    options: LocationOptions, requiredFields: set<RequiredField>, resources: Resources): (r: Result<Factory, Fault>)
    ensures r.Ok? <==> apiKey.Some? && channelId.Some? && prompt.Some?
    ensures r.Ok? ==> r.value == Factory(apiKey.value, channelId.value, prompt.value, options, requiredFields, resources)
    ensures apiKey.None? ==> r == Err(ArgumentNull("apiKey"))
    ensures apiKey.Some? && channelId.None? ==> r == Err(ArgumentNull("channelId"))
    ensures apiKey.Some? && channelId.Some? && prompt.None? ==> r == Err(ArgumentNull("prompt"))
  {
    if apiKey.None? then Err(ArgumentNull("apiKey"))
    else if channelId.None? then Err(ArgumentNull("channelId"))
    else if prompt.None? then Err(ArgumentNull("prompt"))
    else Ok(Factory(apiKey.value, channelId.value, prompt.value, options, requiredFields, resources))
  }

  predicate IsFacebookChannel(channelId: string) {
    EqualsIgnoreCase(channelId, "facebook")
  }

  /** CreateLocationRetrieverDialog. Branch names are compared ignoring case,
      the "other location" branch first; any other branch is an error. */
  function CreateLocationRetrieverDialog(f: Factory, branch: string): (r: Result<RetrieverDialog, Fault>)
    ensures r.Err? <==> !EqualsIgnoreCase(branch, f.resources.otherLocation)
                        && !EqualsIgnoreCase(branch, f.resources.favoriteLocation)
    ensures r.Err? ==> r.error == InvalidBranch
    // the other-location branch: the native Facebook control or the rich retriever
    ensures EqualsIgnoreCase(branch, f.resources.otherLocation) ==>
              r.Ok? && !r.value.FavoriteLocations?
              && (r.value.FacebookNativeRetriever? <==> f.options.useNativeControl && IsFacebookChannel(f.channelId))
              && r.value.prompt == f.prompt && r.value.apiKey == f.apiKey
              && r.value.options == f.options && r.value.requiredFields == f.requiredFields
    ensures EqualsIgnoreCase(branch, f.resources.otherLocation) && r.value.RichRetriever? ==>
              r.value.supportsKeyboard == IsFacebookChannel(f.channelId)
    // the favourite branch, only when it is not also the other-location branch
    ensures !EqualsIgnoreCase(branch, f.resources.otherLocation) && EqualsIgnoreCase(branch, f.resources.favoriteLocation) ==>
              r == Ok(FavoriteLocations(f.apiKey, IsFacebookChannel(f.channelId)))
  {
    var isFacebookChannel := IsFacebookChannel(f.channelId);
    if EqualsIgnoreCase(branch, f.resources.otherLocation) then
      if f.options.useNativeControl && isFacebookChannel then
        Ok(FacebookNativeRetriever(f.prompt, f.apiKey, f.options, f.requiredFields))
      else
        Ok(RichRetriever(f.prompt, isFacebookChannel, f.apiKey, f.options, f.requiredFields))
    else if EqualsIgnoreCase(branch, f.resources.favoriteLocation) then
      Ok(FavoriteLocations(f.apiKey, isFacebookChannel))
    else
      Err(InvalidBranch)
  }

  /** Every spelling of a branch name that differs only in letter case leads
      to the same dialog. */
  lemma BranchCaseDoesNotMatter(f: Factory, branch: string, spelling: string)
    requires EqualsIgnoreCase(branch, spelling)
    ensures CreateLocationRetrieverDialog(f, branch) == CreateLocationRetrieverDialog(f, spelling)
  {
  }
}
