# Raffle bot core, modelled in Dafny

This project models the raffle ("sorteio") logic of a chat bot that runs one giveaway per
group. The raffle is a single stored record. It holds a prize label, a status text (`"ativo"`
or `"inativo"`) and a participant list. Administrators start a raffle, stop it and draw a
winner. Members join by pressing a button on a live message, which the bot then edits to show
the new participant count.

The chat transport is replaced by parameters: the caller's id and role lookup, the location of a
sent message, the result of an edit, and the random choice. What is left is a sequential state
machine over two pieces of state. The first is the store's single row, an optional record. The
second is the live-message handle, an optional (chat, message) pair.

Files and modules:

- `wrappers.dfy`, module `Wrappers`: `Option`, standing for Python's `None`-or-value.
- `text.dfy`, module `Text`: `sep.join(parts)` and `s.split(sep)` for a one-character separator.
  It proves both round trips.
- `codec.dfy`, module `ParticipantCodec`: the participant column. The list is written as
  `",".join(...)` and read back as `split(",")`, with an empty column meaning `[]`. The module
  also has `str(int)` and the key a joining user is recorded under.
- `raffle.dfy`, module `RaffleState`: the record the handlers read, the state each handler
  leaves behind, written as a function, and lemmas about those functions.
- `store.dfy`, module `Store`: the table row, lazy initialisation, and the map from row to record.
- `admin.dfy`, module `Admin`: the administrator decision.
- `bot.dfy`, module `Bot`: class `RaffleBot`. It has the store slot (`row`) and the handle
  (`handle`) as fields, and one method per handler. Each method's `ensures` gives the whole new
  state in terms of the old one, and ties it to the `RaffleState` function for that transition.
- `scenarios.dfy`, module `Scenarios`: sessions proved from the method contracts alone. One is
  the gift-card walk-through (open, three joins, stop, draw, redraw, a refused draw). The other is
  a draw in an empty store.

Modelling choices:

- The status is kept as the stored text, not an enum. The row is TEXT and can hold anything.
  `RaffleState.Consistent` is the invariant the handlers keep: one of the two status texts,
  storable identifiers, no duplicates.
- The methods do not require that invariant, because the source reads whatever row it finds.
  `Get`, `Status`, `Publish`, `Refresh`, `StopRaffle` and `DrawWinner` ensure
  `old(Valid()) ==> Valid()`. `StartRaffle` ensures `Valid()` outright once a raffle starts, and
  otherwise changes nothing. `Join` ensures `old(Valid()) ==> Valid()` when the username holds no
  comma. `Update` is a raw write of whatever it is given and keeps no invariant; its callers do.
- The random pick `random.choice(participantes)` is the entry at `choice % n`, for a
  caller-supplied `choice: nat`. `RaffleState.EveryParticipantCanWin` shows that every entry is
  reachable.
- `sortear_command` and `proximoganhador_command` change the state in the same way. Both are
  modelled by `Bot.RaffleBot.DrawWinner`. Their message texts, which are the only difference,
  are not modelled.
- A refresh edits only when both recorded ids are truthy, that is, present and non-zero, as the
  source's `if sorteio_message_id and sorteio_chat_id` demands.
- Sending the live message has no `try` around it. `Publish` takes the transport's answer as
  `Option<Handle>`: `None` means the send raised, and the old handle stays.
- The default prize is `"Nenhum definido"` and the statuses are `"ativo"`/`"inativo"`. A draw in
  an empty store still inserts the default row, because `get_sorteio` runs first. The visible
  record does not change (`Store.LazyInitInvisible`). A join returns nothing in the source; the
  model returns whether the user was added.

## Model

| member | source | states |
|---|---|---|
| `Text.JoinWith` | bot.py:75 | the join is empty exactly when the list is `[]` or `[""]` |
| `Text.SplitOn` | bot.py:68 | splitting never yields the empty list, and no piece contains the separator |
| `Text.SplitJoin` | bot.py:68-75 | splitting the join of a non-empty list of separator-free parts gives the parts back |
| `Text.JoinSplit` | bot.py:68-75 | joining the pieces of any split gives the original string back |
| `ParticipantCodec.Encode` | bot.py:75 | the column is empty exactly for `[]` and `[""]` |
| `ParticipantCodec.Decode` | bot.py:68 | the empty column, and only it, decodes to `[]`; no decoded entry holds a comma |
| `ParticipantCodec.EncodeDecode` | bot.py:68-75 | writing back the list just read leaves the column text unchanged |
| `ParticipantCodec.DecodeEncode` | bot.py:68-75 | a list survives the column iff no entry holds a comma and it is not `[""]` (both directions) |
| `ParticipantCodec.RoundTrip` | bot.py:68-75 | a list of non-empty, comma-free identifiers decodes back to itself |
| `ParticipantCodec.AppendRoundTrip` | bot.py:231-233 | appending a well-formed key to a list read from the column, then writing it, reads back as that list plus the key |
| `ParticipantCodec.NatToDecimal` | bot.py:230 | `str(n)`: at least one decimal digit, and no leading zero unless n is 0 |
| `ParticipantCodec.NatToDecimalValue` | bot.py:230 | the digits of `str(n)` denote n |
| `ParticipantCodec.NatToDecimalInjective` | bot.py:230 | different numbers give different decimal strings |
| `ParticipantCodec.IntToDecimal` | bot.py:230 | `str(id)` is a storable identifier, with a leading '-' exactly for negative ids |
| `ParticipantCodec.ParticipantKey` | bot.py:230 | the key is never empty |
| `ParticipantCodec.ParticipantKeyWellFormed` | bot.py:230 | with a comma-free username, a join key is non-empty and comma-free |
| `ParticipantCodec.IdKeysDistinct` | bot.py:230 | two users without usernames share a key iff their ids are equal |
| `RaffleState.PrizeOf` | bot.py:140 | the prize is empty exactly for no arguments or a single empty one, and holds a space once there are two or more |
| `RaffleState.PrizeWords` | bot.py:140 | the prize is the arguments joined by single spaces; split on spaces, it gives the arguments back |
| `RaffleState.Winner` | bot.py:170-174 | no winner iff the list is empty; otherwise the winner is a participant |
| `RaffleState.Start` | bot.py:141 | a new raffle is consistent whatever came before, and admits every user |
| `RaffleState.Stop` | bot.py:154 | prize and list are kept, and no user is admitted afterwards |
| `RaffleState.Join` | bot.py:225-233 | prize and status are kept; the old list is a prefix of the new one, which has at most one more entry; the id is listed afterwards iff the raffle was active or it was listed already |
| `RaffleState.JoinAll` | bot.py:222-234 | repeated presses keep prize and status, keep the old list as a prefix, and add only joining ids |
| `RaffleState.Draw` | bot.py:170-186 | prize and list are kept, and once someone was drawn no user is admitted |
| `RaffleState.StopKeepsConsistent` | bot.py:154 | closing entry keeps the record consistent |
| `RaffleState.JoinKeepsConsistent` | bot.py:226-233 | a join with a storable key keeps the status valid, the keys storable and the list duplicate-free |
| `RaffleState.DrawKeepsConsistent` | bot.py:218 | a draw or redraw keeps the record consistent |
| `RaffleState.JoinEffect` | bot.py:225-233 | a join appends the id at the end only when active and new, and otherwise changes nothing; prize and status are kept; the id is present afterwards iff the raffle was active or it was there already; joining twice equals joining once |
| `RaffleState.JoinAllWhenClosed` | bot.py:226-227 | any sequence of joins into a non-active raffle changes nothing |
| `RaffleState.JoinAllWhenOpen` | bot.py:225-233 | any sequence of joins into an open raffle keeps the old list as a prefix, contains exactly the old entries and the joined ids, and has no duplicates |
| `RaffleState.EveryParticipantCanWin` | bot.py:174 | every participant is the winner for some choice |
| `RaffleState.DrawEffect` | bot.py:199-218 | a draw keeps prize and list and closes entry when someone joined; with nobody in it, nothing changes; a redraw leaves the same state and picks among the same participants |
| `RaffleState.GiftCardJoins` | bot.py:225-233 | joins by a, b, a again and c into a new raffle list them once each, in joining order |
| `RaffleState.GiftCardScenario` | bot.py:136-233 | start, joins by a, b, a, c, then stop: the list is `[a, b, c]`, a late join is ignored, and the winner is one of the three |
| `Admin.IsAdmin` | bot.py:17-33 | true iff the id is allow-listed, or the lookup succeeded with status "administrator" or "creator" |
| `Admin.FailedLookupFailsClosed` | bot.py:25-33 | with a failed lookup, only the allow-list admits |
| `Admin.AllowListSuffices` | bot.py:21-22 | an allow-listed id is an administrator whatever the lookup says |
| `Store.View` | bot.py:57-69 | an empty store reads as prize "Nenhum definido", status "inativo", no participants; a stored row reads as its own prize and status |
| `Store.Write` | bot.py:73-78 | a written record reads back with the same prize and status, and with the same list iff no entry holds a comma and the list is not `[""]` |
| `Store.LazyInitInvisible` | bot.py:60-69 | reading after the lazy insert returns the same record as the first read |
| `Store.WriteView` | bot.py:72-75 | writing back every field just read reproduces the stored row |
| `Store.ViewWrite` | bot.py:71-80 | a consistent record, written and read back, is unchanged |
| `Bot.RaffleBot.constructor` | bot.py:237-238 | a new bot has an empty store, no handle and a consistent state |
| `Bot.RaffleBot.Get` | bot.py:57-69 | on an empty store, inserts the default row and returns the default record; otherwise returns the stored row decoded and leaves it in place; the invariant is preserved |
| `Bot.RaffleBot.Update` | bot.py:71-80 | every given field is written; each omitted field keeps exactly its stored value |
| `Bot.RaffleBot.Status` | bot.py:114-118 | an administrator gets the current record, with lazy init; anyone else gets nothing and the state is unchanged; the invariant is preserved |
| `Bot.RaffleBot.Publish` | bot.py:240-264 | shows the current prize and count; a successful send replaces the handle unconditionally, a raised send leaves it; the invariant is preserved |
| `Bot.RaffleBot.Refresh` | bot.py:266-291 | without a truthy handle nothing happens; with one, the edit shows the current prize and count; the handle never changes, whatever the edit's result; the invariant is preserved |
| `Bot.RaffleBot.StartRaffle` | bot.py:133-142 | with admin and non-empty args, the record becomes (args joined by spaces, "ativo", []) whatever it was, and that record is published; the returned board is what was shown, `None` when the send raised; otherwise nothing changes and nothing is returned |
| `Bot.RaffleBot.StopRaffle` | bot.py:151-154 | an administrator's stop changes only the status, to "inativo"; prize and participant column are kept |
| `Bot.RaffleBot.DrawWinner` | bot.py:164-186 | refused for non-admins; with no participants, no winner and the same record; otherwise the winner is the participant at the choice, the status becomes "inativo", and prize and list are kept |
| `Bot.RaffleBot.Join` | bot.py:222-234 | the user is added iff the raffle is active and the key is new; the key is then appended and the live message edited; otherwise the record and handle are unchanged |
| `Scenarios.Open` | bot.py:136-142 | a new bot, once an administrator starts "Gift Card", holds an open, empty raffle and the new handle |
| `Scenarios.JoinNew` | bot.py:225-234 | a new user joining the open raffle is appended at the end, and the live message is edited to the new count |
| `Scenarios.JoinThree` | bot.py:225-234 | three distinct joins, one repeated, give the list `[a, b, c]` in joining order; each new join edits the live message and the repeat sends no edit |

## Left out

- Chat transport. Left out: deleting the triggering command message, `query.answer()`, message
  text and HTML formatting, reply keyboards, and the group-permission and history-visibility calls
  in `member_join` (bot.py:294-303). These are foreign asynchronous calls. The source swallows
  failures of the message delete, the edit (bot.py:282-291) and the calls in `member_join`.
  `query.answer()` (bot.py:224) and every `send_message` (bot.py:105, 124, 137, 155, 171, 187,
  203, 219, 258) are unguarded. Apart from the live message's send, each unguarded send comes
  after the handler's last state change, so a raising send leaves the state shown in the model.
  Only the outcomes the core reads are parameters: the send's message location, the edit's
  result and the role lookup.
- `Bot.RaffleBot.Join`: a raising `query.answer()` (bot.py:224) ends `button_callback` before
  `get_sorteio` (bot.py:225). The store is then untouched, with no lazy insert and no join. The
  model does not capture that path: `Join` always goes on to read the store.
- `help_command` (bot.py:83-105) only checks admin and sends a fixed text. It has no state logic
  beyond `Admin.IsAdmin`.
- The reply texts themselves are not modelled: the usage hint, "Sorteio encerrado.", "no
  participants" and the result announcements. `StartRaffle` returns `None` both for a non-admin
  and for missing arguments, although only the second case gets a usage hint.
- SQLite mechanics: the connection, the cursor, `CREATE TABLE` and commits (bot.py:46-55). A
  NULL participant column, which the handlers never write, is not modelled either. The table is
  one optional row.
- Configuration and process wiring: environment parsing, including `ADMIN_IDS` (bot.py:35-38),
  logging (bot.py:41-43), and `main`, handler registration and polling (bot.py:306-323). The
  allow-list is a constructor argument.
- The distribution of `random.choice`: the pick is an arbitrary caller-supplied index.
- The read-modify-write race between concurrent joins. The model is sequential: each handler
  runs to completion.
- `Bot.RaffleBot.Join`: relates the new record to `RaffleState.Join` only when the username holds
  no comma. Chat usernames cannot contain one. For other usernames, the contract gives the exact
  written row but not the decoded list.
