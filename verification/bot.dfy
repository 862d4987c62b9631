/**
 * The bot's state and its two event handlers (index.js:14-15, 29-134): a map from user to
 * cooldown expiry and one process-wide cache holding the cards of the last menu delivered to
 * anyone. The clock, the card database and the chat platform are parameters: `now` is the
 * reading of the millisecond clock, the lookup's outcome is given, and `sent` says whether the
 * menu reply could be built and delivered.
 */
module Bot {
  import opened Wrappers
  import opened JsStrings
  import opened Command
  import opened Cards

  /** The chat platform's stable identifier of a user. */
  type UserId = string

  /** How long a user waits between two searches, in milliseconds. */
  const CooldownMs: nat := 3000

  datatype Message = Message(content: string, authorId: UserId, authorIsBot: bool)

  datatype Interaction = Interaction(isStringSelectMenu: bool, customId: string, values: seq<string>)

  /** What the card database answered: a list of cards, or no list at all (a network error,
      a failure status, or a body without a `data` list). */
  datatype Lookup = LookupFailed | Found(cards: seq<Card>)

  datatype Reply =
    | Silent                                  // the handler returns without replying
    | Usage
    | FetchError
    | NoLegalCards(query: string, format: string)
    | CooldownWait(seconds: nat)
    | CardMenu(query: string, format: string, options: seq<MenuOption>)
    | NotFound                                // an ephemeral reply, seen only by the selecting user
    | CardDetails(text: string, image: string)
    | Unhandled                               // the handler throws before it replies

  /** The text each reply carries. */
  function Content(reply: Reply): string {
    match reply
    case Silent => ""
    case Usage => "Usage: `!card <format> <card name>`"
    case FetchError => "Error fetching card info."
    case NoLegalCards(q, f) => "No legal cards found for \"" + q + "\" in " + f + "."
    case CooldownWait(s) => WaitPrefix + NatToString(s) + WaitSuffix
    case CardMenu(q, f, _) => "Found multiple cards for \"" + q + "\" in " + f + ". Select one below:"
    case NotFound => "Could not retrieve card data."
    case CardDetails(text, _) => text
    case Unhandled => ""
  }

  const WaitPrefix := "\U{23F3} Please wait "
  /** The text after the number; its leading space is written as its own literal so that the
      first character of the suffix is evident to the verifier. */
  const WaitSuffix := " " + "more second(s) before using this command again."

  /** The number the wait message shows is the number of seconds to wait. */
  lemma WaitTextShowsSeconds(seconds: nat)
    ensures Content(CooldownWait(seconds))[..|WaitPrefix|] == WaitPrefix
    ensures ParseInt(Content(CooldownWait(seconds))[|WaitPrefix|..]) == Some(seconds)
  {
    var text := Content(CooldownWait(seconds));
    assert text[|WaitPrefix|..] == NatToString(seconds) + WaitSuffix;
    assert WaitSuffix[0] == ' ';
    ParseIntNatToStringThen(seconds, WaitSuffix);
  }

  /** `Math.ceil(remaining / 1000)`: the whole seconds that cover `remaining` milliseconds. */
  function WaitSeconds(remaining: int): (r: nat)
    requires remaining > 0
    ensures r >= 1
    ensures (r - 1) * 1000 < remaining <= r * 1000
    ensures remaining <= CooldownMs ==> r <= 3
  {
    (remaining + 999) / 1000
  }

  /** A stored expiry still in the future rejects the user's search. */
  predicate OnCooldown(cooldowns: map<UserId, nat>, user: UserId, now: nat) {
    user in cooldowns && cooldowns[user] - now > 0
  }

  /** No stored expiry lies more than one cooldown period after `now`; this holds of every
      map the handler builds from clock readings no later than `now`. */
  ghost predicate ExpiriesWithin(cooldowns: map<UserId, nat>, now: nat) {
    forall u :: u in cooldowns ==> cooldowns[u] <= now + CooldownMs
  }

  /** The reply to a resolved selection; it throws when the card has no set object or no
      images object. */
  function DetailsReply(c: Card): (r: Reply)
    ensures r.CardDetails? <==> c.cardSet.Some? && c.largeImage.Some?
    ensures r.CardDetails? ==> r.image == c.largeImage.value
    ensures !r.CardDetails? ==> r == Unhandled
  {
    if c.cardSet.None? || c.largeImage.None? then Unhandled
    else CardDetails(DetailsText(c), c.largeImage.value)
  }

  /** `interaction.values[0]`, which `parseInt` reads as the text `undefined` when absent. */
  function SelectedValue(i: Interaction): string {
    if |i.values| == 0 then "undefined" else i.values[0]
  }

  /** A message the handler takes as a search: a `!card` command from a person, with both a
      format and a query. */
  predicate IsSearch(msg: Message) {
    IsCardCommand(msg.content, msg.authorIsBot) && ParseCommand(msg.content).Some?
  }

  /** The cards a search offers: the found cards legal in the requested format, capped. */
  function FoundCards(msg: Message, lookup: Lookup): (r: seq<Card>)
    requires IsSearch(msg) && lookup.Found?
    ensures |r| <= MaxResults
  {
    LegalCards(lookup.cards, ParseCommand(msg.content).value.format)
  }

  /** A search whose lookup succeeded with at least one legal card. */
  predicate HasResults(msg: Message, lookup: Lookup) {
    IsSearch(msg) && lookup.Found? && FoundCards(msg, lookup) != []
  }

  /** An expiry set one period after `now` keeps every expiry within one period of `now`. */
  lemma ExpiriesWithinAfterSet(m: map<UserId, nat>, user: UserId, now: nat)
    ensures ExpiriesWithin(m, now) ==> ExpiriesWithin(m[user := now + CooldownMs], now)
  {
  }

  /** While every expiry lies within one period of `now`, a pending wait is one to three
      seconds. */
  lemma WaitWithinPeriod(m: map<UserId, nat>, user: UserId, now: nat)
    requires OnCooldown(m, user, now)
    ensures ExpiriesWithin(m, now) ==> 1 <= WaitSeconds(m[user] - now) <= 3
  {
  }

  /** Setting one user's entry leaves every other entry as it was. */
  lemma UpdateKeepsOthers(m: map<UserId, nat>, user: UserId, expiry: nat)
    ensures m[user := expiry] - {user} == m - {user}
  {
    var a, b := m[user := expiry] - {user}, m - {user};
    assert a.Keys == b.Keys;
    assert forall u :: u in a ==> a[u] == b[u];
  }

  class CardBot {
    /** The cooldown map: user to the millisecond at which the user may search again. */
    var cooldowns: map<UserId, nat>
    /** The cards behind the last delivered menu, shared by all users. */
    var cachedCards: seq<Card>

    /** The cache never holds more cards than one menu can list. */
    ghost predicate Valid()
      reads this
    {
      |cachedCards| <= MaxResults
    }

    constructor ()
      ensures Valid()
      ensures cooldowns == map[] && cachedCards == []
    {
      cooldowns := map[];
      cachedCards := [];
    }

    /** The message handler. `request` is the query sent to the card database, if any. */
    method OnMessage(msg: Message, lookup: Lookup, now: nat, sent: bool) returns (request: Option<string>, reply: Reply)
      requires Valid()
      modifies this
      ensures Valid()
      // No other user's cooldown entry changes.
      ensures cooldowns - {msg.authorId} == old(cooldowns) - {msg.authorId}
      // The cache changes only with a delivered menu.
      ensures cachedCards != old(cachedCards) ==> reply.CardMenu?
      // With a clock that never goes back, a user waits between one and three seconds.
      ensures ExpiriesWithin(old(cooldowns), now) ==> ExpiriesWithin(cooldowns, now)
      ensures reply.CooldownWait? && ExpiriesWithin(old(cooldowns), now) ==> 1 <= reply.seconds <= 3
      // Messages the handler ignores.
      ensures !IsCardCommand(msg.content, msg.authorIsBot) ==>
                request == None && reply == Silent && unchanged(this)
      // A missing format or query: the usage reply, no lookup.
      ensures IsCardCommand(msg.content, msg.authorIsBot) && ParseCommand(msg.content).None? ==>
                request == None && reply == Usage && unchanged(this)
      // A well-formed command always queries the card database with the sanitised name.
      ensures IsSearch(msg) ==> request == Some(LookupQuery(ParseCommand(msg.content).value.query))
      ensures IsSearch(msg) && lookup.LookupFailed? ==> reply == FetchError && unchanged(this)
      ensures IsSearch(msg) && lookup.Found? && !HasResults(msg, lookup) ==>
                reply == NoLegalCards(ParseCommand(msg.content).value.query, ParseCommand(msg.content).value.format)
                && unchanged(this)
      // Results, but the user's expiry lies in the future: the wait reply, nothing changes.
      ensures HasResults(msg, lookup) && OnCooldown(old(cooldowns), msg.authorId, now) ==>
                reply == CooldownWait(WaitSeconds(old(cooldowns)[msg.authorId] - now)) && unchanged(this)
      // Results and no cooldown: the user's expiry is set before the menu is sent.
      ensures HasResults(msg, lookup) && !OnCooldown(old(cooldowns), msg.authorId, now) ==>
                cooldowns == old(cooldowns)[msg.authorId := now + CooldownMs]
      ensures HasResults(msg, lookup) && !OnCooldown(old(cooldowns), msg.authorId, now) && sent ==>
                reply == CardMenu(ParseCommand(msg.content).value.query, ParseCommand(msg.content).value.format,
                                  BuildOptions(FoundCards(msg, lookup)))
                && cachedCards == FoundCards(msg, lookup)
      ensures HasResults(msg, lookup) && !OnCooldown(old(cooldowns), msg.authorId, now) && !sent ==>
                reply == FetchError && cachedCards == old(cachedCards)
    {
      request := None;
      if !IsCardCommand(msg.content, msg.authorIsBot) {
        return request, Silent;
      }
      var parsed := ParseCommand(msg.content);
      if parsed.None? {
        return request, Usage;
      }
      var cmd := parsed.value;
      request := Some(LookupQuery(cmd.query));
      reply := Search(msg, lookup, now, sent);
    }

    /** The handler's `try` block for a well-formed command: the lookup, the legality filter,
        the cooldown check and the menu. */
    method Search(msg: Message, lookup: Lookup, now: nat, sent: bool) returns (reply: Reply)
      requires Valid() && IsSearch(msg)
      modifies this
      ensures Valid()
      ensures cooldowns - {msg.authorId} == old(cooldowns) - {msg.authorId}
      ensures cachedCards != old(cachedCards) ==> reply.CardMenu?
      ensures ExpiriesWithin(old(cooldowns), now) ==> ExpiriesWithin(cooldowns, now)
      ensures reply.CooldownWait? && ExpiriesWithin(old(cooldowns), now) ==> 1 <= reply.seconds <= 3
      // A failed lookup or request lands in the `catch` block.
      ensures lookup.LookupFailed? ==> reply == FetchError && unchanged(this)
      ensures lookup.Found? && !HasResults(msg, lookup) ==>
                reply == NoLegalCards(ParseCommand(msg.content).value.query, ParseCommand(msg.content).value.format)
                && unchanged(this)
      ensures HasResults(msg, lookup) && OnCooldown(old(cooldowns), msg.authorId, now) ==>
                reply == CooldownWait(WaitSeconds(old(cooldowns)[msg.authorId] - now)) && unchanged(this)
      ensures HasResults(msg, lookup) && !OnCooldown(old(cooldowns), msg.authorId, now) ==>
                cooldowns == old(cooldowns)[msg.authorId := now + CooldownMs]
      ensures HasResults(msg, lookup) && !OnCooldown(old(cooldowns), msg.authorId, now) && sent ==>
                reply == CardMenu(ParseCommand(msg.content).value.query, ParseCommand(msg.content).value.format,
                                  BuildOptions(FoundCards(msg, lookup)))
                && cachedCards == FoundCards(msg, lookup)
      ensures HasResults(msg, lookup) && !OnCooldown(old(cooldowns), msg.authorId, now) && !sent ==>
                reply == FetchError && cachedCards == old(cachedCards)
    {
      var cmd := ParseCommand(msg.content).value;
      if lookup.LookupFailed? {
        return FetchError;
      }
      var cards := FoundCards(msg, lookup);
      if |cards| == 0 {
        return NoLegalCards(cmd.query, cmd.format);
      }
      var options := BuildOptions(cards);
      var user := msg.authorId;
      if user in cooldowns {
        var remaining := cooldowns[user] - now;
        if remaining > 0 {
          WaitWithinPeriod(cooldowns, user, now);
          return CooldownWait(WaitSeconds(remaining));
        }
      }
      UpdateKeepsOthers(cooldowns, user, now + CooldownMs);
      ExpiriesWithinAfterSet(cooldowns, user, now);
      cooldowns := cooldowns[user := now + CooldownMs];
      if !sent {
        // The menu could not be built or delivered: the catch block answers instead.
        return FetchError;
      }
      reply := CardMenu(cmd.query, cmd.format, options);
      cachedCards := cards;
    }

    /** The selection handler: the chosen value, parsed, indexes the shared cache. */
    method OnSelect(i: Interaction) returns (reply: Reply)
      ensures !(i.isStringSelectMenu && i.customId == "card_select") ==> reply == Silent
      ensures i.isStringSelectMenu && i.customId == "card_select" ==>
                match Resolve(cachedCards, SelectedValue(i))
                case None => reply == NotFound
                case Some(c) => reply == DetailsReply(c)
    {
      if !i.isStringSelectMenu || i.customId != "card_select" {
        return Silent;
      }
      var index := ParseInt(SelectedValue(i));
      if index.Some? && 0 <= index.value < |cachedCards| {
        reply := DetailsReply(cachedCards[index.value]);
      } else {
        reply := NotFound;
      }
    }

    /** The timer that fires one cooldown period after an entry was set: it deletes the
        user's entry, whatever it holds by then. */
    method Expire(user: UserId)
      modifies this
      ensures cooldowns == old(cooldowns) - {user}
      ensures cachedCards == old(cachedCards)
    {
      cooldowns := cooldowns - {user};
    }
  }

  /** A delivered search followed by the selection of its `j`-th option shows card `j`. */
  method SearchThenSelect(bot: CardBot, msg: Message, found: seq<Card>, now: nat, j: nat)
    returns (menu: Reply, selected: Reply)
    requires bot.Valid()
    requires IsSearch(msg)
    requires !OnCooldown(bot.cooldowns, msg.authorId, now)
    requires j < |FoundCards(msg, Found(found))|
    modifies bot
    ensures bot.Valid()
    ensures menu.CardMenu? && j < |menu.options|
    ensures selected == DetailsReply(FoundCards(msg, Found(found))[j])
  {
    var cards := FoundCards(msg, Found(found));
    var request;
    request, menu := bot.OnMessage(msg, Found(found), now, true);
    selected := bot.OnSelect(Interaction(true, "card_select", [menu.options[j].value]));
    SelectingOptionResolvesCard(cards, j);
  }

  /** The cache is not per user: after another user's delivered search, a selection from an
      earlier menu resolves against the other user's cards. */
  method SelectionSeesLatestSearch(bot: CardBot, first: Message, firstFound: seq<Card>,
                                   second: Message, secondFound: seq<Card>, now: nat, value: string)
    returns (selected: Reply)
    requires bot.Valid()
    requires IsSearch(first) && IsSearch(second)
    requires first.authorId != second.authorId
    requires !OnCooldown(bot.cooldowns, first.authorId, now) && !OnCooldown(bot.cooldowns, second.authorId, now)
    requires HasResults(first, Found(firstFound)) && HasResults(second, Found(secondFound))
    modifies bot
    ensures var latest := FoundCards(second, Found(secondFound));
            match Resolve(latest, value)
            case None => selected == NotFound
            case Some(c) => selected == DetailsReply(c)
  {
    var request, reply;
    request, reply := bot.OnMessage(first, Found(firstFound), now, true);
    request, reply := bot.OnMessage(second, Found(secondFound), now, true);
    selected := bot.OnSelect(Interaction(true, "card_select", [value]));
  }

  /** A second search with results within the cooldown period is rejected with the whole
      seconds left, however the first search's menu fared. */
  method SearchTwice(bot: CardBot, msg: Message, found: seq<Card>, now: nat, later: nat, sent: bool)
    returns (first: Reply, second: Reply)
    requires bot.Valid()
    requires HasResults(msg, Found(found))
    requires !OnCooldown(bot.cooldowns, msg.authorId, now)
    requires now <= later < now + CooldownMs
    modifies bot
    ensures second == CooldownWait(WaitSeconds(now + CooldownMs - later))
    ensures 1 <= second.seconds <= 3
  {
    var request;
    request, first := bot.OnMessage(msg, Found(found), now, sent);
    ghost var remaining := now + CooldownMs - later;
    assert bot.cooldowns[msg.authorId] - later == remaining > 0;
    request, second := bot.OnMessage(msg, Found(found), later, true);
    assert second == CooldownWait(WaitSeconds(remaining));
    assert 1 <= WaitSeconds(remaining) <= 3;
  }
}
