/** LocationCard: the hero cards of a location carousel and the keyboard card
    of numbered and labelled buttons. */
module LocationCard {
  import opened Common
  import opened Geo
  import opened BotTypes

  /** The subtitle of the card for the i-th location (1-based): "i. address"
      when numbered, the bare address otherwise. */
  function HeroLabel(formattedAddress: string, i: nat, numbered: bool): (r: string)
    ensures |r| >= |formattedAddress| && r[|r| - |formattedAddress|..] == formattedAddress
    ensures numbered <==> |r| > |formattedAddress|
    ensures numbered ==>
              var n := |r| - |formattedAddress| - 2;
              n >= 1 && r[n..n + 2] == ". " && AllDigits(r[..n]) && DigitsValue(r[..n]) == i
              && (n == 1 || r[0] != '0')
  {
    if numbered then
      var digits := NatToString(i);
      var r := digits + ". " + formattedAddress;
      assert r[..|digits|] == digits && r[|digits|..|digits| + 2] == ". ";
      assert r[|r| - |formattedAddress|..] == formattedAddress;
      DigitsValueOfNatToString(i);
      r
    else formattedAddress
  }

  /** The card for a location at 1-based position i: its label, and a map image
      pinned with number i exactly when the location has a point. */
  function LocationHeroCard(location: Location, i: nat, numbered: bool): (c: HeroCard)
    requires location.address.Some?
    ensures c.image.Some? <==> location.point.Some?
    ensures c.image.Some? ==> c.image.value == i
    ensures c.subtitle == HeroLabel(location.address.value.formattedAddress, i, numbered)
    ensures c.buttons == []
  {
    HeroCard(HeroLabel(location.address.value.formattedAddress, i, numbered),
             if location.point.Some? then Some(i) else None, [])
  }

  /** CreateLocationHeroCard: one card per location, in input order, numbered
      when alwaysShowNumericPrefix is set or there is more than one location.
      Reading the formatted address of a location without an address throws. */
  method CreateLocationHeroCard(locations: seq<Location>, alwaysShowNumericPrefix: bool)
    returns (r: Result<seq<Attachment>, Fault>)
    ensures r.Err? <==> exists k :: 0 <= k < |locations| && locations[k].address.None?
    ensures r.Err? ==> r.error == NullReference
    ensures r.Ok? ==> |r.value| == |locations|
    ensures r.Ok? ==> forall k :: 0 <= k < |locations| ==>
              r.value[k] == Hero(LocationHeroCard(locations[k], k + 1, alwaysShowNumericPrefix || |locations| > 1))
  {
    var attachments: seq<Attachment> := [];
    var numbered := alwaysShowNumericPrefix || |locations| > 1;
    var i := 1;
    for n := 0 to |locations|
      invariant i == n + 1
      invariant |attachments| == n
      invariant forall k :: 0 <= k < n ==> locations[k].address.Some?
      invariant forall k :: 0 <= k < n ==> attachments[k] == Hero(LocationHeroCard(locations[k], k + 1, numbered))
    {
      var location := locations[n];
      if location.address.None? {
        return Err(NullReference);
      }
      var address := HeroLabel(location.address.value.formattedAddress, i, numbered);
      var card := HeroCard(address, None, []);
      if location.point.Some? {
        card := card.(image := Some(i));
      }
      attachments := attachments + [Hero(card)];
      i := i + 1;
    }
    r := Ok(attachments);
  }

  /** A numbered button: its title and its value are both the number. */
  function NumberButton(i: nat): Button {
    Button(NatToString(i), NatToString(i))
  }

  /** The numbered buttons of a keyboard for optionsCount options. The counter
      is incremented both in the loop body and in the loop header, so the
      buttons are numbered 1, 3, 5, ... up to optionsCount. */
  function NumberButtons(optionsCount: int): (bs: seq<Button>)
    ensures optionsCount <= 0 ==> bs == []
    ensures optionsCount > 0 ==> |bs| == (optionsCount + 1) / 2
  {
    if optionsCount <= 0 then [] else OddButtons((optionsCount + 1) / 2)
  }

  /** The buttons numbered 1, 3, ..., 2m - 1. */
  function OddButtons(m: nat): seq<Button> {
    seq(m, k requires 0 <= k < m => NumberButton(2 * k + 1))
  }

  function LabelButtons(labels: seq<string>): (bs: seq<Button>)
    ensures |bs| == |labels|
  {
    seq(|labels|, k requires 0 <= k < |labels| => Button(labels[k], labels[k]))
  }

  /** CreateLocationKeyboardCard: a single keyboard card whose buttons are the
      numbered buttons followed by one button per additional label, in order. */
  method CreateLocationKeyboardCard(selectText: string, optionsCount: int, additionalOptionLabels: seq<string>)
    returns (attachments: seq<Attachment>)
    ensures attachments == [Keyboard(KeyboardCard(selectText, NumberButtons(optionsCount) + LabelButtons(additionalOptionLabels)))]
  {
    var buttons: seq<Button> := [];
    var i := 1;
    while i <= optionsCount
      invariant i >= 1 && i % 2 == 1
      invariant i == 1 || i <= optionsCount + 2
      invariant buttons == OddButtons((i - 1) / 2)
    {
      var title := NatToString(i);
      var value := NatToString(i);
      i := i + 1;
      buttons := buttons + [Button(title, value)];
      i := i + 1;
    }
    assert buttons == NumberButtons(optionsCount);
    ghost var numbers := buttons;
    for n := 0 to |additionalOptionLabels|
      invariant buttons == numbers + LabelButtons(additionalOptionLabels[..n])
    {
      var caption := additionalOptionLabels[n];
      buttons := buttons + [Button(caption, caption)];
      assert additionalOptionLabels[..n + 1] == additionalOptionLabels[..n] + [caption];
    }
    assert additionalOptionLabels[..|additionalOptionLabels|] == additionalOptionLabels;
    attachments := [Keyboard(KeyboardCard(selectText, buttons))];
  }

  /** Every numbered button sends back the number it shows: an odd number
      between 1 and optionsCount that Int32.TryParse reads back. */
  lemma NumberButtonValues(optionsCount: int, k: nat)
    requires optionsCount <= Int32Max
    requires k < |NumberButtons(optionsCount)|
    ensures var b := NumberButtons(optionsCount)[k];
            b.title == b.value && b.value == NatToString(2 * k + 1)
            && ParseInt32(b.value) == Some(2 * k + 1)
            && 1 <= 2 * k + 1 <= optionsCount
  {
    ParseNatToString(2 * k + 1);
  }

  /** Every odd number from 1 to optionsCount has a button. */
  lemma OddOptionsHaveButtons(optionsCount: int, i: nat)
    requires 1 <= i <= optionsCount && i % 2 == 1
    ensures NumberButton(i) in NumberButtons(optionsCount)
  {
    assert NumberButtons(optionsCount)[(i - 1) / 2] == NumberButton(i);
  }

  /** No even number has a button: with two or more options the second one
      can only be chosen by typing its number. */
  lemma EvenOptionsHaveNoButton(optionsCount: int, i: nat)
    requires i % 2 == 0
    ensures forall b :: b in NumberButtons(optionsCount) ==> b.value != NatToString(i)
  {
    forall b | b in NumberButtons(optionsCount)
      ensures b.value != NatToString(i)
    {
      var k :| 0 <= k < |NumberButtons(optionsCount)| && NumberButtons(optionsCount)[k] == b;
      if b.value == NatToString(i) {
        NatToStringInjective(2 * k + 1, i);
      }
    }
  }
}
