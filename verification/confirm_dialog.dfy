/** The Node confirm dialog: sends the caller's prompt, then reads yes or
    no. The TypeScript source and its compiled JavaScript hold the same logic,
    and this one model stands for both. */
module NodeConfirm {
  import opened Common
  import opened NodeSession

  /** The localized yes and no regular expressions, compiled with the
      case-insensitive flag. They are applied to the case-folded text, so
      whatever they match does not depend on letter case. */
  datatype Matchers = Matchers(yes: string -> bool, no: string -> bool)

  /** parseBoolean: trims the input; yes is tested first, then no. */
  function ParseBoolean(m: Matchers, input: string): (r: Option<bool>)
    ensures r == Some(true) <==> m.yes(Fold(Trim(input)))
    ensures r == Some(false) <==> !m.yes(Fold(Trim(input))) && m.no(Fold(Trim(input)))
    ensures r == None <==> !m.yes(Fold(Trim(input))) && !m.no(Fold(Trim(input)))
  {
    var text := Fold(Trim(input));
    if m.yes(text) then Some(true)
    else if m.no(text) then Some(false)
    else None
  }

  /** onBegin: sends the confirmation prompt as given, and waits. */
  function Begin(confirmationPrompt: Outgoing): (t: Turn<()>)
    ensures t.outputs == [confirmationPrompt] && t.action == Wait
  {
    Turn((), [confirmationPrompt], Wait)
  }

  /** onDefault: a yes or no ends the dialog with `{confirmed: answer}`;
      anything else sends InvalidYesNo and the dialog stays where it is. */
  function OnDefault(m: Matchers, text: string): (t: Turn<()>)
    ensures ParseBoolean(m, text).Some? ==>
              t.outputs == [] && t.action == Done(Results(Some(ConfirmedResponse(ParseBoolean(m, text).value))))
    ensures ParseBoolean(m, text).None? ==>
              t.outputs == [Localized(InvalidYesNo)] && t.action == Wait
  {
    match ParseBoolean(m, text)
    case Some(answer) => Turn((), [], Done(Results(Some(ConfirmedResponse(answer)))))
    case None => Turn((), [Localized(InvalidYesNo)], Wait)
  }

  /** What a run of replies produces after the prompt: the messages sent, and
      the answer once one is given. Replies after the answer are not read. */
  datatype Conversation = Conversation(outputs: seq<Outgoing>, answer: Option<bool>)

  function Converse(m: Matchers, replies: seq<string>): Conversation {
    if replies == [] then Conversation([], None)
    else
      var t := OnDefault(m, replies[0]);
      if t.action.Done? then Conversation(t.outputs, t.action.result.response.value.confirmed)
      else
        var rest := Converse(m, replies[1..]);
        Conversation(t.outputs + rest.outputs, rest.answer)
  }

  function Repeat(x: Outgoing, n: nat): (s: seq<Outgoing>)
    ensures |s| == n && forall k :: 0 <= k < n ==> s[k] == x
  {
    seq(n, _ => x)
  }

  lemma RepeatCons(x: Outgoing, n: nat, tail: seq<Outgoing>)
    requires n > 0
    ensures [x] + (Repeat(x, n - 1) + tail) == Repeat(x, n) + tail
  {
    assert [x] + Repeat(x, n - 1) == Repeat(x, n);
  }

  /** One reply that is neither yes nor no sends InvalidYesNo and leaves the
      rest of the conversation to the following replies. */
  lemma InvalidStep(m: Matchers, replies: seq<string>)
    requires replies != [] && ParseBoolean(m, replies[0]).None?
    ensures Converse(m, replies)
         == Conversation([Localized(InvalidYesNo)] + Converse(m, replies[1..]).outputs,
                         Converse(m, replies[1..]).answer)
  {
    assert OnDefault(m, replies[0]).action == Wait;
  }

  /** No reply of the run is a yes or a no. */
  ghost predicate Unanswered(m: Matchers, replies: seq<string>) {
    forall k :: 0 <= k < |replies| ==> ParseBoolean(m, replies[k]).None?
  }

  /** One more InvalidYesNo in front of n - 1 of them makes n. */
  lemma PrependInvalid(c: Conversation, tail: Conversation, r: Conversation, n: nat)
    requires n > 0
    requires c == Conversation([Localized(InvalidYesNo)] + tail.outputs, tail.answer)
    requires tail == Conversation(Repeat(Localized(InvalidYesNo), n - 1) + r.outputs, r.answer)
    ensures c == Conversation(Repeat(Localized(InvalidYesNo), n) + r.outputs, r.answer)
  {
    RepeatCons(Localized(InvalidYesNo), n, r.outputs);
  }

  /** InvalidStep for a run of replies that starts with an invalid one. */
  lemma InvalidHead(m: Matchers, invalid: seq<string>, rest: seq<string>)
    requires invalid != [] && ParseBoolean(m, invalid[0]).None?
    ensures Converse(m, invalid + rest)
         == Conversation([Localized(InvalidYesNo)] + Converse(m, invalid[1..] + rest).outputs,
                         Converse(m, invalid[1..] + rest).answer)
  {
    var replies := invalid + rest;
    assert replies[0] == invalid[0] && replies[1..] == invalid[1..] + rest;
    InvalidStep(m, replies);
  }

  /** Replies that are neither yes nor no only add one InvalidYesNo each in
      front of whatever the following replies produce. */
  lemma {:induction false} InvalidPrefix(m: Matchers, invalid: seq<string>, rest: seq<string>)
    requires Unanswered(m, invalid)
    ensures Converse(m, invalid + rest)
         == Conversation(Repeat(Localized(InvalidYesNo), |invalid|) + Converse(m, rest).outputs,
                         Converse(m, rest).answer)
  {
    if invalid == [] {
      assert invalid + rest == rest;
    } else {
      var x, tail := Localized(InvalidYesNo), invalid[1..] + rest;
      var r := Converse(m, rest);
      InvalidHead(m, invalid, rest);
      assert Converse(m, tail) == Conversation(Repeat(x, |invalid| - 1) + r.outputs, r.answer) by {
        assert Unanswered(m, invalid[1..]) by {
          assert forall k :: 0 <= k < |invalid[1..]| ==> invalid[1..][k] == invalid[k + 1];
        }
        InvalidPrefix(m, invalid[1..], rest);
      }
      PrependInvalid(Converse(m, invalid + rest), Converse(m, tail), r, |invalid|);
    }
  }

  /** There is no retry limit: any number of replies that are neither yes nor
      no leaves the dialog waiting, having sent InvalidYesNo once per reply. */
  lemma RepeatedInvalidInput(m: Matchers, replies: seq<string>)
    requires Unanswered(m, replies)
    ensures Converse(m, replies) == Conversation(Repeat(Localized(InvalidYesNo), |replies|), None)
  {
    InvalidPrefix(m, replies, []);
    assert replies + [] == replies;
  }

  /** The first yes or no ends the dialog with that answer, after one
      InvalidYesNo per earlier reply; what follows is never read. */
  lemma FirstAnswerEnds(m: Matchers, invalid: seq<string>, answer: string, later: seq<string>)
    requires Unanswered(m, invalid)
    requires ParseBoolean(m, answer).Some?
    ensures Converse(m, invalid + [answer] + later)
         == Conversation(Repeat(Localized(InvalidYesNo), |invalid|), ParseBoolean(m, answer))
  {
    var tail := [answer] + later;
    assert invalid + [answer] + later == invalid + tail;
    assert Converse(m, tail) == Conversation([], ParseBoolean(m, answer)) by {
      assert tail[0] == answer;
    }
    InvalidPrefix(m, invalid, tail);
    assert Repeat(Localized(InvalidYesNo), |invalid|) + [] == Repeat(Localized(InvalidYesNo), |invalid|);
  }


  /** A reply both expressions match counts as yes. */
  lemma YesWinsTies(m: Matchers, text: string)
    requires m.yes(Fold(Trim(text))) && m.no(Fold(Trim(text)))
    ensures OnDefault(m, text).action == Done(Results(Some(ConfirmedResponse(true))))
  {
  }

  /** Letter case and surrounding white space do not change the answer. */
  lemma CaseDoesNotMatter(m: Matchers, a: string, b: string)
    requires EqualsIgnoreCase(Trim(a), Trim(b))
    ensures OnDefault(m, a) == OnDefault(m, b)
  {
  }
}
