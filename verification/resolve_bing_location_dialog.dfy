/** The Node resolve dialog: asks for an address, geocodes the reply, shows at
    most five candidates and ends with them; its parent waterfall then
    confirms a single candidate or lets the user choose among several. */
module ResolveBingLocation {
  import opened Common
  import opened Geo
  import opened NodeSession
  import NodeConfirm
  import ConfirmSingleLocation

  /** The most hero cards a carousel may hold (one channel fails beyond 5). */
  const MaxCardCount: nat := 5

  /** The query geocoder's answer: a failure, or the candidates in rank order. */
  datatype QueryReply = QueryFailed | QueryResults(locations: seq<Location>)

  /** `locations.slice(0, Math.min(MaxCardCount, locations.length))`. */
  function Truncated(locations: seq<Location>): (r: seq<Location>)
    ensures |r| == if |locations| < MaxCardCount then |locations| else MaxCardCount
    ensures r == locations[..|r|]
  {
    var count := if MaxCardCount < |locations| then MaxCardCount else |locations|;
    locations[..count]
  }

  /** The prompt sent on begin: none when skipDialogPrompt is set, otherwise
      the prompt followed by the title suffix unless skipPromptSuffix is set. */
  function Begin(args: ResolveArgs, titleSuffix: string): (t: Turn<()>)
    ensures t.action == Wait
    ensures args.skipDialogPrompt <==> t.outputs == []
    ensures !args.skipDialogPrompt && !args.skipPromptSuffix ==> t.outputs == [Text(args.prompt + titleSuffix)]
    ensures !args.skipDialogPrompt && args.skipPromptSuffix ==> t.outputs == [Text(args.prompt)]
  {
    if args.skipDialogPrompt then Turn((), [], Wait)
    else
      var promptSuffix := if !args.skipPromptSuffix then titleSuffix else "";
      assert args.prompt + "" == args.prompt;
      Turn((), [Text(args.prompt + promptSuffix)], Wait)
  }

  /** onDefault, given the geocoder's answer to the message text. No result
      sends LocationNotFound and keeps waiting; otherwise the first (at most
      five) candidates are shown and the dialog ends with them. A geocoder
      failure is reported as a session error. */
  function OnDefault(reply: QueryReply): (t: Turn<()>)
    ensures reply.QueryFailed? ==> t.outputs == [] && t.action == Fault
    ensures reply.QueryResults? && reply.locations == [] ==>
              t.outputs == [Localized(LocationNotFound)] && t.action == Wait
    ensures reply.QueryResults? && reply.locations != [] ==>
              t.action.Done? && t.action.result.response.Some?
              && t.action.result.response.value == EmptyResponse.(locations := Some(Truncated(reply.locations)))
              && t.outputs == [Carousel(Truncated(reply.locations))]
              && 1 <= |Truncated(reply.locations)| <= MaxCardCount
  {
    match reply
    case QueryFailed => Turn((), [], Fault)
    case QueryResults(locations) =>
      if |locations| == 0 then Turn((), [Localized(LocationNotFound)], Wait)
      else
        var shown := Truncated(locations);
        Turn((), [Carousel(shown)], Done(Results(Some(EmptyResponse.(locations := Some(shown))))))
  }

  /** The parent's dialog data: the resolve dialog's response. */
  datatype ResolveState = ResolveState(response: Option<Response>)

  /** The parent's first step begins the resolve dialog with its own args. */
  function Start(args: ResolveArgs): (t: Turn<ResolveState>)
    ensures t.outputs == [] && t.action == CallChild(LocationResolve(args))
  {
    Turn(ResolveState(None), [], CallChild(LocationResolve(args)))
  }

  /** The parent's second step: keeps the response; a present list of exactly
      one location goes to the single-location confirmation and any other
      present list, even an empty one, to the choice dialog; without a list
      the results are passed on unchanged. */
  function AfterResolve(results: Results): (t: Turn<ResolveState>)
    ensures t.state.response == results.response && t.outputs == []
    ensures results.response.None? || results.response.value.locations.None? ==> t.action == Next(results)
    ensures results.response.Some? && results.response.value.locations.Some? ==>
              var locations := results.response.value.locations.value;
              (|locations| == 1 ==> t.action == CallChild(ConfirmSingleLocation(locations)))
              && (|locations| != 1 ==> t.action == CallChild(ChooseLocation(locations)))
  {
    var state := ResolveState(results.response);
    if results.response.Some? && results.response.value.locations.Some? then
      var locations := results.response.value.locations.value;
      if |locations| == 1 then Turn(state, [], CallChild(ConfirmSingleLocation(locations)))
      else Turn(state, [], CallChild(ChooseLocation(locations)))
    else Turn(state, [], Next(results))
  }

  /** A query with results reaches the confirmation when it has exactly one,
      and the choice among the first five otherwise. */
  lemma QueryReachesConfirmOrChoice(locations: seq<Location>)
    requires |locations| > 0
    ensures var ended := OnDefault(QueryResults(locations)).action.result;
            var next := AfterResolve(ended).action;
            (|locations| == 1 ==> next == CallChild(ConfirmSingleLocation(locations)))
            && (|locations| > 1 ==>
                  next == CallChild(ChooseLocation(Truncated(locations)))
                  && |next.child.locations| == if |locations| < 5 then |locations| else 5)
  {
    assert |locations| == 1 ==> Truncated(locations) == locations;
  }

  /** A query answered with a single candidate that the user confirms with a
      yes ends with that candidate, unchanged, as the place. */
  lemma SingleCandidateConfirmed(candidate: Location, m: NodeConfirm.Matchers, yes: string)
    requires NodeConfirm.ParseBoolean(m, yes) == Some(true)
    ensures var resolved := OnDefault(QueryResults([candidate])).action.result;
            var next := AfterResolve(resolved).action;
            next.CallChild? && next.child.ConfirmSingleLocation?
            && var single := ConfirmSingleLocation.Begin(next.child.locations);
               var answer := NodeConfirm.OnDefault(m, yes).action.result;
               ConfirmSingleLocation.AfterConfirm(single.state, answer).action.result.response.value.place
                 == Some(candidate)
  {
    QueryReachesConfirmOrChoice([candidate]);
  }
}
