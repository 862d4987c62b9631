# Deckachu card-lookup bot: a verified model of its message and selection handlers

The bot watches chat messages of the form `!card <format> <card name>`. It does five things:

1. It splits the message into a format and a query and cleans the query.
2. It asks the Pokémon TCG card database for cards with that name.
3. It keeps the cards that are legal in the format, at most 250 of them.
4. It answers with a selection menu that has one option per card.
5. When a user picks an option, it replies with that card's details.

A per-user cooldown of three seconds limits searches. The cards behind the last delivered menu are kept in one cache that all users share. A selection is resolved against that cache.

This project models the logic of `index.js`:

- The pure steps are Dafny functions: parsing, sanitising, the legality filter and the 250-card cap, building the options, resolving a selection, and the reply texts.
- The two pieces of mutable state, the cooldown map and the shared card cache, are fields of the class `Bot.CardBot`.
- The class's methods are the two event handlers and the cooldown-cleanup timer.

The JavaScript built-ins the handlers use have their own module, `JsStrings`:

- `trim`, `slice`, `split`, `join`;
- `toLowerCase`/`toUpperCase`;
- the string `<` comparison;
- regex character removal;
- `Number.prototype.toString`;
- `parseInt(_, 10)`.

Outside influences are parameters:

- The clock is a `now` parameter in milliseconds.
- The card database's answer is a `Lookup` parameter.
- Whether the menu reply could be built and delivered is a `sent` parameter.
- The timer is the method `Expire`, which the environment calls.

Modules, one per concern:

- `Wrappers`: `Option`, for JavaScript's `undefined`.
- `JsStrings`: the JavaScript string built-ins, with ECMAScript white space and `\w` written out exactly.
- `Command`: recognising a `!card` message, parsing it, and the two query filters (index.js:30-41).
- `Cards`: card records, the format filter and cap, menu options, selection resolution, and the details text (index.js:48-69, 117-131).
- `Bot`: the replies, the cooldown arithmetic, and the class `CardBot` with its handlers (index.js:14-15, 29-134).

Three behaviours of the code are worth stating outright:

- There is one global `cachedCards` list, replaced by every delivered search from any user. It has no pages, no navigation and no expiry. `Bot.SelectionSeesLatestSearch` shows the consequence: a selection from an earlier menu resolves against another user's later search.
- Every format other than `standard` is judged by its `legalities` entry: a card is kept when its entry for that exact format name is `"Legal"`. No format name is rejected; an unknown one keeps only the cards that happen to carry such an entry.
- The message handler applies both character filters before the lookup, but the replies carry the once-cleaned query, colons included (the `NoLegalCards` and `CardMenu` replies).

## Model

| member | source | states |
|---|---|---|
| `JsStrings.Drop` | index.js:32 | `slice(6)` is empty for a message of at most six characters; otherwise it has six characters fewer than the message |
| `JsStrings.DropChars` | index.js:32 | what `slice(6)` keeps is the message from its seventh character on, position by position |
| `JsStrings.LeadingWhitespace` | index.js:32 | the length of the leading white-space run: everything before it is white space, the next character is not |
| `JsStrings.TrimStart` | index.js:32 | the result is a suffix of the input; everything cut off is white space; the result does not start with white space |
| `JsStrings.TrimEnd` | index.js:32 | the result is a prefix of the input; everything cut off is white space; the result does not end with white space |
| `JsStrings.Trim` | index.js:32 | the result starts and ends with non-white space; it is empty exactly when the input is all white space; an input with no white space at either end is returned unchanged |
| `JsStrings.TrimIsInfix` | index.js:32 | the trimmed text is the input's text from the end of its leading white space on, followed in the input only by white space |
| `JsStrings.Join` | index.js:34 | `join(" ")` here and `join(", ")` at line 128: no pieces give the empty string, one piece gives itself, and further pieces follow a separator each (definition; `JoinSplit` and `SplitJoin` state its relation to `Split`) |
| `JsStrings.Split` | index.js:32 | `split(" ")` always yields at least one piece, and no piece contains the separator |
| `JsStrings.JoinSplit` | index.js:32-34 | joining the pieces of a split with the separator gives back the original string |
| `JsStrings.SplitJoin` | index.js:32-34 | splitting a join of separator-free pieces gives back the pieces |
| `JsStrings.SplitWithoutSeparator` | index.js:32 | a string without a space splits into itself alone |
| `JsStrings.SplitAtFirst` | index.js:32-33 | the first piece ends at the first separator; the remaining pieces are the split of what follows it |
| `JsStrings.ToLower` | index.js:33 | `toLowerCase()`: same length, each ASCII capital mapped to its small letter |
| `JsStrings.ToUpper` | index.js:52 | `toUpperCase()`: same length, each ASCII small letter mapped to its capital |
| `JsStrings.LexLess` | index.js:52 | the string `<`: the first differing character decides, and a proper prefix is less (definition; `LexLessOneChar` states what the comparison with `"G"` amounts to) |
| `JsStrings.LexLessOneChar` | index.js:52 | comparing with a one-character string such as `"G"` depends only on the first character; the empty string is less |
| `JsStrings.KeepChars` | index.js:34 | regex removal keeps only accepted characters; the result is never longer |
| `JsStrings.KeepCharsMembers` | index.js:34 | a character occurs in the result of a removal exactly when it occurs in the input and is accepted |
| `JsStrings.KeepCharsAllKept` | index.js:34 | a removal that finds nothing to remove returns its input |
| `JsStrings.KeepCharsIdempotent` | index.js:34 | applying the same removal twice is the same as applying it once |
| `JsStrings.KeepCharsAppend` | index.js:41 | removal on a concatenation is the concatenation of the removals |
| `JsStrings.KeepCharsTwice` | index.js:41 | two successive removals equal one removal by the intersection of what both keep |
| `JsStrings.NatToString` | index.js:68 | `index.toString()` is a non-empty string of decimal digits; it starts with `0` exactly for zero |
| `JsStrings.DigitRun` | index.js:117 | the length of the leading digit run: everything before it is a digit, the next character is not |
| `JsStrings.ParseInt` | index.js:117 | `parseInt` gives `NaN` exactly when no digit follows the leading white space and optional sign |
| `JsStrings.DigitsValueOfNatToString` | index.js:68 | the digits of `n` denote `n` |
| `JsStrings.DigitRunOfDigits` | index.js:117 | a digit string followed by nothing or by a non-digit has a digit run of exactly its own length |
| `JsStrings.ParseIntDigitFirst` | index.js:117 | text that starts with a digit is read as the value of its leading digit run, with no sign |
| `JsStrings.ParseIntDigitsThen` | index.js:117 | `parseInt` reads a digit string followed by non-digit text as the value of the digits alone |
| `JsStrings.ParseIntNatToStringThen` | index.js:80-82 | `parseInt` reads back the number `n` from its decimal text followed by any non-digit text |
| `JsStrings.ParseIntNatToString` | index.js:117 | `parseInt(String(n), 10) == n` for every non-negative `n` |
| `Command.IsCardCommand` | index.js:30 | the handler acts on a message only when its text starts with `!card` and its author is not a bot (definition; `Bot.CardBot.OnMessage` states the `Silent` outcome otherwise) |
| `Command.Arguments` | index.js:32 | the argument text is the message from its seventh character on, trimmed (definition; `Drop`, `DropChars`, `Trim` and `TrimIsInfix` state what that text is) |
| `Command.IsQueryChar` | index.js:34 | the class the first regex keeps: `\w` without the `u` flag, ECMAScript white space, and `-`, `’`, `:`, `!`, `'`, `.` (definition; `CleanQuery` states the filter) |
| `Command.IsNotQuoteOrColon` | index.js:41 | the second regex removes exactly `"` and `:` (definition; `SanitizeQuery` states the filter) |
| `Command.LookupQuery` | index.js:41-44 | the `q` parameter is `name:` followed by the sanitised query (definition; `SanitizedAlphabet` states which characters it can hold) |
| `Command.CleanQuery` | index.js:34 | the reported query holds only word characters, white space, `-`, `’`, `:`, `!`, `'` and `.`; it holds exactly those characters of the input |
| `Command.SanitizeQuery` | index.js:41 | the sent query holds exactly the characters of its input other than `"` and `:` |
| `Command.ParseCommand` | index.js:32-38 | when a command is produced, its format and its query are non-empty and the query is in the query alphabet; otherwise the result is the usage reply |
| `Command.ParseCommandAtFirstSpace` | index.js:32-38 | the format is the trimmed argument text up to its first space, lower-cased; the query is everything after that space, cleaned; the usage reply comes exactly when the cleaned query is empty |
| `Command.ParseCommandWithoutSpace` | index.js:32-38 | a message with a format and no card name gets the usage reply |
| `Command.LookupCharIsBoth` | index.js:34-41 | a character passes both regexes exactly when it is in the lookup alphabet |
| `Command.SanitizedAlphabet` | index.js:34-41 | the two filters together keep exactly the lookup alphabet, in order; no `"` and no `:` ever reaches the card database |
| `Command.SanitizeIdempotent` | index.js:34-41 | sanitising an already sanitised query changes nothing |
| `Cards.IsStandardMark` | index.js:50-53 | the `standard` rule: the mark is present and non-empty, and its upper-cased text is not less than `"G"` (definition; `StandardMarkFirstLetter` states what it amounts to) |
| `Cards.IsLegalIn` | index.js:49-56 | `standard` is judged by the regulation mark; every other format name by the card's `legalities` entry for that exact name being `"Legal"` (definition; `KeepLegal` and `LegalCards` state the filter built on it) |
| `Cards.StandardMarkFirstLetter` | index.js:50-53 | a card is legal in `standard` exactly when its regulation mark is present and non-empty and its first letter, upper-cased, is at or after `G` |
| `Cards.StandardMarkExamples` | index.js:50-53 | marks `G` and `h` are legal in `standard`; `F`, an empty mark and a missing mark are not |
| `Cards.KeepLegal` | index.js:48-56 | the filter keeps only legal cards; a card is in the result exactly when it is in the input and legal in the format |
| `Cards.LegalCards` | index.js:48-57 | at most 250 cards, each from the input and legal; while fewer than 250 come out, no legal card of the input is missing; the result is the start of the filtered list, either all of it or exactly its first 250 cards, so no duplicate is dropped |
| `Cards.KeepLegalCounts` | index.js:48-56 | each legal card appears as often as in the input; each other card does not appear |
| `Cards.KeepLegalAppend` | index.js:48-56 | filtering a concatenation filters each part |
| `Cards.LegalCardsIgnoreTail` | index.js:48-57 | once 250 legal cards have been seen, the cards after them do not change the result |
| `Cards.KeptPrefixIsSubsequence` | index.js:48-57 | every prefix of the filtered list is an order-preserving subsequence of the input |
| `Cards.LegalCardsIsSubsequence` | index.js:48-57 | the capped result is an order-preserving subsequence of the input |
| `Cards.SetName` | index.js:63 | `card.set?.name`: missing when the set or its name is missing (definition; `OptionShowsCard` states its use in the label) |
| `Cards.Label` | index.js:63 | the option label `name (set name)` (definition; `OptionShowsCard` states what it shows) |
| `Cards.Description` | index.js:64-66 | the option description `Reg Mark: … • Rarity: …` (definition; `OptionShowsCard` states what it shows) |
| `Cards.BuildOptions` | index.js:62-69 | exactly one option per card |
| `Cards.OptionShowsCard` | index.js:62-67 | option `j` shows card `j`: the placeholder (`Unknown Set`, `?`, `Unknown`) is shown for a missing field and the field's value otherwise, for the set name, the regulation mark and the rarity |
| `Cards.Resolve` | index.js:117-119 | a resolved card is one of the cached cards; nothing resolves exactly when the value is not a number or is out of range |
| `Cards.SelectingOptionResolvesCard` | index.js:117-118 | the value of option `j` resolves to card `j`: the option values written at line 68 round-trip through `parseInt` |
| `Cards.OptionValuesDistinct` | index.js:68 | no two options share a value |
| `Cards.SubtypesText` | index.js:128 | subtypes read `None` when the list is missing and the empty string when it is empty |
| `Cards.DetailsText` | index.js:126-131 | the details text of a selected card; reading `card.set.name` needs the set object (definition; `DetailsShowCard` states what it shows) |
| `Cards.DetailsShowCard` | index.js:126-131 | the details open with the bold card name and the set name (`undefined` when the set has no name) and close with the regulation mark (`Unknown` when missing) and the fixed `Standard Legal ✅` note, whatever the card's legality |
| `Bot.Content` | index.js:37-121 | the text of each reply: the usage line (37), the no-cards line with query and format (60), the wait line (80-82), the menu line (101), the fetch-error line (109) and the not-found line (121) (definition; `WaitTextShowsSeconds` states what the wait line shows) |
| `Bot.OnCooldown` | index.js:74-78 | a user is held back exactly when the map has an entry for the user that lies after `now` (definition; `Bot.CardBot.Search` and `SearchTwice` state its use) |
| `Bot.SelectedValue` | index.js:117 | `interaction.values[0]`, `undefined` for an empty list (definition; `Bot.CardBot.OnSelect` states the resolution) |
| `Bot.FoundCards` | index.js:48-57 | the cards a search offers are the input's legal cards, capped: never more than 250 |
| `Bot.WaitTextShowsSeconds` | index.js:79-83 | the wait message starts with the fixed prefix, and the number after it is the number of seconds to wait |
| `Bot.WaitSeconds` | index.js:76-82 | `Math.ceil(remaining / 1000)` is the least whole number of seconds covering `remaining`; it is at least 1, and at most 3 when `remaining` is at most one cooldown period |
| `Bot.DetailsReply` | index.js:125-133 | a selection gets its details reply exactly when the card has a set object and an images object; otherwise the handler throws without replying |
| `Bot.ExpiriesWithinAfterSet` | index.js:88 | setting an expiry one period after `now` keeps every expiry within one period of `now` |
| `Bot.WaitWithinPeriod` | index.js:74-82 | while every expiry lies within one period of `now`, a pending wait is one to three seconds |
| `Bot.UpdateKeepsOthers` | index.js:88 | setting one user's expiry leaves every other user's entry as it was |
| `Bot.CardBot.constructor` | index.js:14-15 | the cooldown map and the card cache start empty |
| `Bot.CardBot.OnMessage` | index.js:29-111 | states the outcome of every case: ignored messages, the usage reply, a failed lookup, no legal cards, a rejection during the cooldown, a success, and a menu that could not be delivered. Only the success path replaces the cache, and then with exactly the filtered cards. Only a search that passes the cooldown sets the author's expiry, to `now + 3000`. No other user's entry changes. With a clock that never goes back, the wait is 1 to 3 seconds |
| `Bot.CardBot.Search` | index.js:40-111 | the handler's `try` block for a well-formed command: a failed lookup, no legal cards, a rejection during the cooldown, a delivered menu and an undelivered one, each with the exact reply and new state; only a search that passes the cooldown sets the author's expiry, and only a delivered menu replaces the cache |
| `Bot.CardBot.OnSelect` | index.js:113-134 | ignores other interactions; otherwise replies with the details of the cached card at the parsed position, or `Could not retrieve card data.`; changes no state |
| `Bot.CardBot.Expire` | index.js:91 | the cleanup timer deletes the user's entry, whatever it holds, and nothing else |
| `Bot.SearchThenSelect` | index.js:100-123 | after a delivered search, selecting its option `j` shows filtered card `j` |
| `Bot.SelectionSeesLatestSearch` | index.js:106-118 | after two delivered searches by different users, any selection resolves against the second user's cards |
| `Bot.SearchTwice` | index.js:71-91 | a second search with results, within three seconds of a first one that passed the cooldown, is rejected with `ceil` of the remaining milliseconds in seconds, between 1 and 3 |

## Left out

- The chat client and the event wiring are left out (index.js:2-8, 17-27, 136): constructing the client, `login` and the ready log. They are foreign library calls. Replies are returned as `Reply` values with their text (`Bot.Content`), and the select-menu and action-row builders are not modelled.
- The HTTP request to the card database (index.js:43-46) is network I/O. Its outcome is the `Lookup` parameter, and the request is returned as the `q` parameter string. Two failure causes take the `LookupFailed` path: a response without a `data` list, and a network or status error.
- The menu reply can fail after the cooldown is set. This covers builder validation (more than 25 options, over-long labels) and delivery. Whether it fails is the `sent` parameter. The model does not decide when these happen. The Discord 25-option limit is not enforced by the code either.
- Failures of the usage, no-cards and cooldown replies are not modelled; they do not touch state.
- A selection whose card has no set or images object throws; the model answers it with `Unhandled` and keeps the state. The usage, no-cards, cooldown and fetch-error replies are returned without being awaited (index.js:37, 60, 79, 109), so their failures escape the handler too. `index.js` registers no `error` or `unhandledRejection` listener, so on current Node.js such a rejection can end the process, losing the cooldown map and the card cache. The model does not capture that end of the process.
- `dotenv` and the token log line (index.js:9, 12) are configuration and I/O.
- `Date.now()` is the `now` parameter. The `setTimeout` cleanup (index.js:91) is the `Expire` method, and the model does not say when the environment calls it.
- Each handler run is atomic in the model. In the source, the message handler awaits the lookup before it checks the cooldown. Two searches by one user whose lookups overlap can therefore both pass the cooldown. This interleaving is not modelled.
- `register-commands.js` is not part of this model: it only registers static command descriptions over REST. `index.js` has no handler for the slash commands it registers. Such an interaction is not a select menu, so `OnSelect` answers it with `Silent`.
- Strings are sequences of Unicode code points. JavaScript strings are UTF-16 code units, so `slice(6)` and string comparison differ for characters outside the Basic Multilingual Plane.
- `toLowerCase` and `toUpperCase` map only ASCII letters.
- `parseInt` yields exact integers. JavaScript loses precision on very long digit strings, but such a value is beyond the cache either way.
- Card fields: `name` and `supertype` are always-present strings. A present `images` object is assumed to have `large`. An absent `legalities` object behaves like an empty one. Fields holding non-string values are not modelled.
