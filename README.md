# PinnedDiscordBot in Dafny

A model of the core of PinnedDiscordBot, a Discord bot that pins a message
when someone reacts to it with 📌 and unpins it when the last human takes that
reaction away. The model also covers the `/pinnedlist` command. That command
lists a channel's pins, marks with 📌 the pins whose 📌 reaction is held by the
invoking user alone (and with 🔒 the others), and opens a bulk-unpin session
for those self-only pins.

The bot talks to Discord only through API calls. The model replaces each of
them with the value it would have produced:

- a fetched message is a `Platform.Message` snapshot with its reactions;
- enumerating a reaction's users gives `Users(list)` or `EnumerationFailed(denied)`;
- a `pin()`/`unpin()` call's outcome is a `CallResult` (`Ok`, `Forbidden`, `HttpError`, `Unexpected`);
- the current time is a parameter, in microseconds.

Each handler's output is the call it makes and the notice or reply it sends.

| file | module | what it models |
|---|---|---|
| platform.dfy | `Platform` | ids, messages, reactions and call outcomes as the bot sees them |
| seqs.dfy | `Seqs` | list comprehensions with a condition (`[x for x in s if …]`) |
| text.dfy | `Text` | `str.strip()`, `str(int)` and `int(str)` |
| self_only.dfy | `SelfOnly` | `check_is_self_only_pin` |
| reconciler.dfy | `Reconciler` | the decisions of `on_raw_reaction_add` and `on_raw_reaction_remove` |
| pinned_list.dfy | `PinnedList` | `/pinnedlist`: filters, previews, lines, truncation, footer, session |
| unpin_view.dfy | `UnpinView` | the select menu, the apply and cancel buttons, and the session view |

Functions such as `SelfOnly.SelfOnlyResult`, `Reconciler.ShouldUnpin` and
`UnpinView.RunUnpins` specify what the code computes. Where the Python code
loops, the model has a method with the same loop. Each such method is proved
equal to its specification function, and the lemmas state the properties of
those functions. The session view and the select menu are classes: the view
holds the selection and the stopped flag, which the callbacks update.

Behaviour of the code worth knowing; the model follows the code in each case:

- The self-only check does not fail closed when enumerating a reaction's users fails. The error propagates. `/pinnedlist` then answers with its permission reply (for a permission error) or its generic error reply, and lists nothing.
- When the remove path cannot enumerate users, it does not always keep the pin. It falls back to the reaction's counter and unpins when that counter is zero.
- A pin-limit error is not told apart from other HTTP errors. Both give the generic "failed" notice.
- The apply button reports only the success count.
- The apply button stops the session only after unpinning. An empty selection closes the message but does not stop the view.
- An error of another kind during unpinning escapes the apply callback. No reply is sent and the session is not stopped. (A failed reply also leaves the session running; see "## Left out".)
- A day count whose cutoff cannot be computed raises OverflowError: more than 999,999,999 days, or a cutoff before 0001-01-01. `/pinnedlist` then gives its generic error reply.
- A negative day count filters nothing by date, yet the period is still mentioned (see "## Findings").

## Model

| member | source | states |
|---|---|---|
| Seqs.Keep | main.py:110 | a filtering comprehension keeps exactly the elements that satisfy the condition, in their original order, and is never longer than its input |
| Seqs.KeepSubsequence | main.py:110 | a filtering comprehension's result is a subsequence of its input: what it keeps stays in the input's order |
| Seqs.KeepAppend | main.py:119 | filtering a concatenation is the concatenation of the filtered parts |
| Seqs.KeepMultiset | main.py:110 | filtering keeps every occurrence of a kept value and drops every occurrence of the others |
| Text.StripSpec | views/unpin_view.py:12 | `strip()` returns an infix of its input with nothing but whitespace around it, and that infix neither starts nor ends with whitespace |
| Text.StripEmptyIff | main.py:148 | `strip()` returns the empty string exactly when the input is all whitespace (so `not s.strip()` is that test) |
| Text.Decimal | views/unpin_view.py:23 | `str(id)` is a non-empty string of decimal digits without a leading zero |
| Text.ParseDecimalOfDecimal | views/unpin_view.py:36 | `int(str(id)) == id`: the menu's values read back as the pin ids they were made from |
| Text.DecimalInjective | views/unpin_view.py:23 | distinct ids give distinct option values |
| SelfOnly.FirstPinReaction | main.py:41-47 | the search returns the position of the first 📌 reaction, and None only when no reaction is 📌 |
| SelfOnly.FirstPinReactionFinds | main.py:41-47 | the first 📌 reaction is unique, so the search finds exactly it |
| SelfOnly.SoleHumanIff | main.py:53-67 | the non-bot users, filtered, are `[u]` exactly when `u` is the one non-bot user and every other user is a bot |
| SelfOnly.SelfOnlyResult | main.py:41-69 | the check raises exactly when enumerating the first 📌 reaction's users failed (a failure is never taken as an answer), and it raises that failure's kind (permission or other) |
| SelfOnly.SelfOnlyIff | main.py:41-69 | a pin is self-only for `u` exactly when its first 📌 reaction's users were enumerated and `u` is the only human among them; later 📌 reactions play no part |
| SelfOnly.NotSelfOnlyCases | main.py:64-67 | two distinct humans on the first 📌 reaction make the pin not self-only for anyone |
| SelfOnly.BotsAreIgnored | main.py:56-57 | inserting bot accounts anywhere among a reaction's users leaves the human list unchanged |
| SelfOnly.SelfOnlyIgnoresBots | main.py:53-67 | bot users on a reaction never change the self-only answer |
| SelfOnly.CheckIsSelfOnlyPin | main.py:41-69 | the loop version returns exactly `SelfOnlyResult`, so it raises exactly on a failed enumeration of the first 📌 reaction and otherwise answers as `SelfOnlyIff` states |
| Reconciler.NoticeFor | main.py:261-298 | after a call the actor always gets a notice naming them: a confirmation exactly when the call succeeded, the permission notice exactly for a permission error, the failure notice exactly for another HTTP error, and the unexpected-error notice exactly for any other error |
| Reconciler.OnRawReactionAdd | main.py:214-298 | the add handler never unpins; it calls pin exactly for a 📌 added by an account other than the bot, on a message it could fetch that is not already pinned; the notice follows the call's outcome, and no call means no notice |
| Reconciler.PinnedAfter | main.py:243-250 | the pinned flag changes only through a successful call: pin sets it, unpin clears it, no call keeps it |
| Reconciler.DuplicateAddIsNoOp | main.py:243-246 | once an add has pinned the message, or it was already pinned, a second 📌 add by anyone makes no call |
| Reconciler.ShouldUnpin | main.py:353-384 | the remove path keeps the pin only when there is a first 📌 reaction and it is not released |
| Reconciler.ShouldUnpinIff | main.py:353-384 | the remove path decides to unpin exactly when no reaction is 📌, or the first 📌 reaction is released: all its users are bots, or (when enumeration fails) its counter is zero |
| Reconciler.CoPinProtection | main.py:367-379 | while one human still holds the first 📌 reaction the remove path does not unpin |
| Reconciler.EnumerationFailureKeepsPin | main.py:380-384 | when enumeration fails and the counter is at least one, the remove path keeps the pin |
| Reconciler.ShouldUnpinIgnoresBots | main.py:370-372 | bot users on the 📌 reaction never change the remove decision |
| Reconciler.OnRawReactionRemove | main.py:306-433 | the remove handler never pins; it calls unpin exactly for a 📌 removed by an account other than the bot, on a fetched message that was pinned, when the latest read (the refetch if it succeeded) shows the marker released; the notice follows the call's outcome |
| PinnedList.Filtered | main.py:108-119 | the listing holds exactly the pins by the chosen author (if any) created at or after `now - days` (if `days > 0`) |
| PinnedList.FilteredSpec | main.py:108-119 | the listing keeps each listed pin as often as it occurs in the channel's pins, drops every occurrence of the others, and keeps their original order |
| PinnedList.NoDateFilterKeepsAll | main.py:117 | without a positive `days` no pin is dropped for its age |
| PinnedList.SevenDayScenario | main.py:116-119 | with `days = 7`, a pin from 3 days ago is listed and one from 10 days ago is not |
| PinnedList.Preview | main.py:142-149 | a preview is never all whitespace and never longer than 10 characters plus "..." |
| PinnedList.PreviewOfLongContent | main.py:142-145 | content longer than 10 characters is previewed by its first 10, newlines replaced by spaces, then "..." |
| PinnedList.PreviewOfBlankContent | main.py:147-149 | short all-whitespace content (an attachment-only message has none) is previewed by the attachment placeholder |
| PinnedList.PreviewOfShortContent | main.py:142-149 | other content of at most 10 characters is previewed whole, newlines replaced by spaces, without an ellipsis |
| PinnedList.EntryLine | main.py:157-163 | a line starts with 📌 exactly when the pin is self-only and with 🔒 exactly when it is not, then " [" and the pin's preview as the link text |
| PinnedList.LinesSpec | main.py:141-163 | there is one line per listed pin, marked 📌 exactly when that pin is self-only, with that pin's preview as its link text |
| PinnedList.MyPinsSpec | main.py:157-160 | the session's pins are exactly the self-only ones, in listing order |
| PinnedList.FirstRaiseExists | main.py:155 | when some self-only check raises, one of them is the first to raise, so the command's error reply is always decided |
| PinnedList.FirstRaiseUnique | main.py:155 | at most one self-only check is the first to raise |
| PinnedList.BuildEntries | main.py:137-163 | the loop yields the lines and self-only pins exactly when no check raises; otherwise it stops at the first check that raises and passes that error on |
| PinnedList.TruncateDescription | main.py:165-168 | text up to 4000 characters is kept whole; longer text is cut to its first 4000 characters followed by the omission marker |
| PinnedList.PeriodTextAsWritten | main.py:173 | as written, the period is mentioned for any day count other than zero, and it is the requested count |
| PinnedList.PeriodShownWithoutFiltering | main.py:117-122 | as written, `days = -3` mentions a period although the date filter did not apply |
| PinnedList.PeriodText | main.py:117 | as intended, the period is mentioned exactly when the date filter applied, and it is the requested count |
| PinnedList.PeriodRulesDiffer | main.py:117-122 | the code's period rule and the intended one disagree exactly on a negative day count |
| PinnedList.PeriodMeansFiltered | main.py:117-119 | when the intended rule mentions a period, every listed pin lies within it |
| PinnedList.MakeFooter | main.py:172-184 | the footer carries the total and the period as the code mentions it (any non-zero day count); it notes the cap exactly when there are more than 25 self-only pins, and "none of yours" exactly when there are none |
| PinnedList.JoinLines | main.py:166 | `"\n".join` gives the empty text for no lines, and otherwise the lines' total length plus one newline between each two |
| PinnedList.JoinLinesAppend | main.py:166 | joining one more line appends a newline and that line |
| PinnedList.JoinLinesContains | main.py:166 | every line appears in the joined text, right after the join of the lines before it and a newline |
| PinnedList.PinnedListCommand | main.py:102-205 | fetch errors give the permission or generic reply; a cutoff that overflows gives the generic reply; an empty result gives "no pins" with the period as the code mentions it; a self-only check that raises gives the reply for its error kind; otherwise the summary is the truncated joined lines and the footer, with a session over exactly the self-only pins, owned by the invoking user, when there are any |
| UnpinView.Label | views/unpin_view.py:12-18 | an option label never exceeds 100 characters: the placeholder for blank content, 97 characters plus "..." for stripped content over 100, otherwise the stripped content |
| UnpinView.MenuSize | views/unpin_view.py:11 | the menu offers the first 25 pins, or all of them when there are fewer |
| UnpinView.BuildOptions | views/unpin_view.py:9-26 | one option per pin among the first 25, in order, each labelled from its content and valued with its id |
| UnpinView.OptionFor | views/unpin_view.py:20-26 | a pin's option has a label of at most 100 characters and a value of decimal digits that `int` reads back as the pin's id |
| UnpinView.IndexById | views/unpin_view.py:109 | the map's keys are exactly the pins' ids, and each id maps to a pin carrying that id |
| UnpinView.IndexByIdFinds | views/unpin_view.py:109 | with distinct ids, every pin is found under its own id |
| UnpinView.UnpinSelect.constructor | views/unpin_view.py:9-33 | the menu holds one option per pin among the first 25, allows from zero up to all of them to be chosen, and every value is numeric |
| UnpinView.UnpinSelect.Callback | views/unpin_view.py:35-37 | the selection of the menu's own view becomes the chosen values read as integers, in order; the stopped flag is untouched |
| UnpinView.ChosenValueNamesListedPin | views/unpin_view.py:36 | any value chosen from the menu is the id of one of the first 25 pins, and the session's map holds it |
| UnpinView.RunUnpins | views/unpin_view.py:62-72 | the success count is the number of unpin calls that succeeded |
| UnpinView.RunUnpinsCallsPresent | views/unpin_view.py:63-65 | unpin is called, in selection order, for the selected ids the map holds: for all of them unless the loop ended early, otherwise for a prefix of them |
| UnpinView.OnlySelectedUnpinned | views/unpin_view.py:63-67 | unpin is called only for ids that were selected and that the map holds |
| UnpinView.RunUnpinsStopsAtFirstUnexpected | views/unpin_view.py:66-72 | permission and HTTP errors do not stop the loop; it ends early exactly at the first call that fails with another error |
| UnpinView.SuccessesBounded | views/unpin_view.py:62-68 | the success count never exceeds the number of calls, which never exceeds the number of selected ids |
| UnpinView.UnpinEach | views/unpin_view.py:62-72 | the loop makes exactly the calls of `RunUnpins` and counts its successes |
| UnpinView.PartialFailureScenario | views/unpin_view.py:66-70 | of two selected pins, with a permission error on the first, both are called and one success is reported |
| UnpinView.UnpinSelectView.constructor | views/unpin_view.py:104-113 | a new session keeps its pins, owner and timeout (180 by default), starts with an empty selection, indexes the pins by id, and holds the menu over the first 25 pins |
| UnpinView.Dispatch | views/unpin_view.py:115-117 | an interaction is handled exactly when the session has not stopped and the actor is the user who opened it; a refused one makes no call and leaves the selection and the stopped flag alone; a handled one does what the menu's or the button's callback does |
| UnpinView.ApplyButtonCallback | views/unpin_view.py:50-79 | an empty selection replies "nothing selected" and makes no call; otherwise the calls are those of `RunUnpins`, and unless an unexpected error escaped, the reply reports the success count and the session is stopped |
| UnpinView.CancelButtonCallback | views/unpin_view.py:92-98 | cancel makes no call, replies "cancelled", leaves the selection alone and stops the session |

## Left out

- Bootstrap is not part of this model: the token, intents, command registration, `on_ready`, `on_error` and the keep-alive server in server.py.
- `on_message` and its `!pin help`, `!pin test` and `!pin status` commands are outside the core.
- Notice wording, embed titles, colours, the option descriptions (creation dates) and the formatting of message links are left out as display text. So is the deletion of notices after five seconds (`asyncio.sleep`) and swallowing a failed deletion.
- The add and remove handlers look up the acting user by id. This only changes how the notice mentions the actor, so notices carry the actor's id instead.
- Fetch errors on the add and remove paths other than "not found" and "forbidden" propagate to the library's error hook. The model has no such case.
- Of the Discord UI library, only the dispatch of an interaction to a listening session through `interaction_check` is modelled. Deferring responses and expiring the view after its timeout are not; `on_timeout` does nothing.
- Each reply also removes the menu and buttons from the message. The model does not represent the message itself.
- Concurrency between handlers is left out. Each handler is modelled as one step on the reads it made.
- Enumerating a reaction's users either yields all users or fails. An error part-way through the enumeration is treated as a failure of the whole enumeration.
- Calendar arithmetic is left out. Times are microseconds since 0001-01-01 00:00 UTC, the earliest time a `datetime` holds. `datetime.now(timezone.utc) - timedelta(days=days)` is modelled as `now - days * 86_400_000_000`. The cutoff overflows below zero or above 999,999,999 days. The latest time a `datetime` holds (year 9999) is not modelled.
- Replies and notices are assumed to be delivered: `edit_message`, `channel.send`, the five-second wait and the notice's deletion never raise in the model. So two behaviours of the code are not captured. First, if the apply or cancel reply raises (for instance once the interaction has expired during a long unpin loop), `view.stop()` is not reached and the session keeps running. Second, a `Forbidden` or `HTTPException` raised while sending or deleting the notice after a successful `pin()` or `unpin()` falls into the same `try` and produces the permission or "failed" notice. In the model, `NoticeFor(Ok, …)` is always the confirmation.
- UnpinView.UnpinSelect.Callback: requires that every chosen value belongs to the menu's options, and that the view is the menu's own. The platform guarantees both and the code relies on them.

## Findings

| source | as written | input that shows it | evidently intended | confidence | as-written member | corrected member |
|---|---|---|---|---|---|---|
| main.py:122, main.py:173 | the period text is shown when `days` is truthy, while the date filter at main.py:117 applies only when `days > 0` | `/pinnedlist days:-3`: no pin is filtered by date, yet the footer (or the "no pins" reply) says "past -3 days" | mention the period exactly when the date filter applied | medium, not executed | PinnedList.PeriodShownWithoutFiltering | PinnedList.PeriodMeansFiltered |
