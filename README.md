# Debate-game bot: session state machine, vote tally and truth-bullet catalog

A Dafny model of the core of a chat-platform bot that runs debate-game trials.
Administrators put a channel into one of several speaking modes:

- a **star** session, where one member holds "Starred Speaker" and is the only one who may speak;
- a **rebuttal**, where two members hold "Refuter";
- a **scrum debate**, where members pick "Side A" or "Side B" by reacting to a team-selection message, and the sides take turns;
- an **intermission**, where only administrators may speak.

A rebuttal and a scrum debate end with a reaction vote. `!endvote` counts that vote once and then discards it.
The bot also keeps a per-guild catalog of "truth bullets" (clue records) and can set a "forced topic" section in the channel description.

The modules follow the two source files:

- `Session.dfy` (module `Session`): the command handlers and reaction handlers of Main.py.
  - They act on a `World` object: one guild and its channel.
  - `holders` records, for each role that exists, the members holding it.
  - `overwrites` records the channel's permission overwrites. A subject is `@everyone`, one of the bot's roles or the administrator role. An overwrite the code removes is an absent key.
  - `scrum` is the guild's entry in `scrum_debates`; `vote` is its entry in `active_votes`.
  - Each command is a method. Its contract gives the new holder sets, the new overwrites and the new records, and the error it reports when it does nothing.
  - `Valid()` is preserved by every command. It says: only guild members hold roles; a scrum record's side roles exist; while a scrum is active, the two side overwrites match the side that speaks.
  - The client methods at the end of the file run command sequences and prove what they leave behind. Examples: two `!endvote`s, two `!swap`s, `!refute u u`.
- `Tally.dfy` (module `Tally`): the counting loop and winner comparison inside `end_vote`.
- `Topic.dfy` (module `Topic`): the string editing of `!topic` and `!cleartopic`.
  - Marker search, split on the first marker, ASCII `strip()`.
  - Proved round trips: clearing after setting keeps exactly the stripped text before the original description's first marker (all of it, stripped, when it had none); a second `!topic` leaves no trace of the first.
- `TruthBullets.dfy` (module `TruthBullets`): the `TruthBullet` record with `to_dict`/`from_dict`, and the `TruthBulletManager` class.
  - The manager keeps its dictionary, the dictionary's insertion order and `next_id`.
  - `Valid()` is its id invariant. Every key is its bullet's id and lies below `next_id`. The insertion order lists each key once, in ascending order.
  - The module also holds the description preview used by the bullet listing.
- `Wrappers.dfy` (module `Wrappers`): the `Option` and `Result` types.

The model keeps these behaviours of the code as written:

- Nothing stops `!intermission` (or `!refute`, `!star`, `!scrumdebate`) while another session is under way. `IntermissionDuringScrum` shows a scrum staying active under an intermission.
- `!refute u u` is accepted. `RefuteOneUserTwice` shows that it leaves one Refuter, so the next `!endrefute` fails.
- No command rolls back. A failed platform call is not modelled.
- `!endscrum` keeps the scrum record with `active` cleared.
- `!scrumdebate` does not clear the sides' earlier holders.
- `!swap` changes permissions only, never role membership.
- The reaction handlers look only at the setup message id, not at `active`.

## Model

| member | source | states |
|---|---|---|
| Session.World.Star | Main.py:52-110 | With the bot's permissions, the Starred Speaker role holders become exactly {member} and the other roles are untouched. `@everyone` gets send=false, the role gets send=true, the administrator role gets send=true when it exists. Without the permissions it reports an error and changes nothing. |
| Session.World.Unstar | Main.py:112-146 | With no Starred Speaker role it reports an error and changes nothing. Otherwise nobody holds the role, `@everyone` gets send=true and the role's overwrite is removed. |
| Session.World.Intermission | Main.py:289-323 | `@everyone` gets send=false/view=true and the administrator role, if any, send=true/view=true. Nothing else changes, whatever session is running. |
| Session.World.Resume | Main.py:325-351 | Only the `@everyone` overwrite changes, to send=true/view=true. |
| Session.World.Refute | Main.py:353-416 | The Refuter holders become exactly {user1, user2}, with no check that the two differ. `@everyone` gets send=false, Refuter send=true, the administrator role send=true; view=true in all three. |
| Session.World.EndRefute | Main.py:418-481 | Succeeds iff the Refuter role exists with exactly two holders; otherwise it reports which check failed and changes nothing. On success both lose the role, `@everyone` gets send=true, the Refuter overwrite is removed, and any pending vote is replaced by a rebuttal vote naming the two holders in guild member order. |
| Session.World.ScrumDebate | Main.py:483-537 | Side A and Side B exist afterwards, keeping any holders. The scrum record is replaced by an inactive one for the new setup message. |
| Session.World.ReactionAdded | Main.py:539-563 | On the setup message, from a member other than the bot: blue leaves the member in Side A and not in Side B, red the reverse. Every other event changes nothing. |
| Session.World.ReactionRemoved | Main.py:565-582 | On the setup message, from a member: withdrawing blue removes only Side A, withdrawing red only Side B. There is no bot check. Every other event changes nothing. |
| Session.World.StartScrum | Main.py:584-622 | Fails and changes nothing unless a scrum record exists. Otherwise Side A gets send=true, Side B send=false, the record becomes active and Side A speaks. |
| Session.World.Swap | Main.py:624-672 | Fails and changes nothing unless the scrum is active. Otherwise the speaking side flips, the new side gets send=true and the other send=false. |
| Session.World.EndScrum | Main.py:674-735 | Fails and changes nothing unless the scrum is active. Otherwise both side overwrites are removed and both sides lose every holder. Any pending vote is replaced by a scrum vote naming the two roles. The record is kept with `active` cleared. |
| Session.World.EndVote | Main.py:737-841 | With no pending vote it returns "no active vote"; with the message missing it returns "not found". Both keep the vote. Otherwise it returns the two tallies of the vote's emojis and the winner they decide, and deletes the pending vote. |
| Session.World.RemoveRoleFromEach | Main.py:77-80 | Taking a role from each listed member that holds it removes exactly the listed members from the role and changes no other role. When every holder is listed, the role ends with no holders. |
| Session.World.constructor | Main.py:27-31 | A guild starts with no scrum record and no pending vote, whatever its roles and overwrites. |
| Session.HoldersInOrder | Main.py:434 | The listing of a role's holders names exactly the members holding the role, each once when the member list has no repeats. |
| Session.HoldersInOrderKeepsOrder | Main.py:434 | The listing is a subsequence of the guild member list, so its entries keep guild member order. That order decides which holder is refuter1 and which refuter2. |
| Session.Created | Main.py:66-73 | Finding a role by name, or creating it when missing, adds only that role. A new role has no holders, and every existing role keeps its holders. |
| Session.KindOf | Main.py:760 | A vote is counted as a scrum vote iff it was stored by `!endscrum`, and as a rebuttal vote otherwise. |
| Session.HoldersInOrderAll | Main.py:434-437 | When all holders are members, the listing names exactly the holders, one entry each. Two holders are listed as two different members that make up the whole holder set. |
| Session.Credit | Main.py:773-781 | A tie credits nobody. Option A credits refuter1 or Side A, option B refuter2 or Side B, by vote kind. |
| Session.EndVoteTwice | Main.py:742-744 | Two `!endvote`s in a row: the first produces a result and the second finds no vote. |
| Session.SwapTwice | Main.py:630-662 | Two `!swap`s in an active debate restore the speaking side, both side overwrites and all holders. |
| Session.StarThenUnstar | Main.py:78-139 | `!star` then `!unstar` leaves no Starred Speaker, `@everyone` with send=true and no overwrite for the role. |
| Session.RefuteThenEndRefute | Main.py:374-476 | `!refute` with two different members then `!endrefute` stores a vote naming exactly those two and leaves no Refuter. |
| Session.RefuteOneUserTwice | Main.py:379-437 | `!refute u u` leaves u as the only Refuter, so `!endrefute` fails and stores no vote. |
| Session.PickSidesThenWithdraw | Main.py:556-582 | Reacting blue, then red, then withdrawing red leaves the member on neither side. |
| Session.IntermissionDuringScrum | Main.py:289-311 | An intermission during an active scrum mutes `@everyone` while the scrum stays active and one side keeps send=true. |
| Tally.VotesFor | Main.py:759-769 | The reference tally of the counting loop. It is at least -1, and a nonzero tally is the count minus one of some reaction with that emoji. |
| Tally.EmojiFor | Main.py:760-769 | A scrum vote is counted on blue/red and a rebuttal vote on keycaps 1/2. |
| Tally.CountVotes | Main.py:755-769 | The counting loop's tallies are VotesFor of the reaction list for the two emojis of the vote kind. The winner is the comparison of the two tallies. |
| Tally.Winner | Main.py:773-781 | A wins iff votesA > votesB, B wins iff votesB > votesA, and there is no winner iff they are equal. |
| Tally.VotesForAbsent | Main.py:756-769 | An emoji in no reaction has tally 0. |
| Tally.VotesForUnique | Main.py:759-769 | An emoji in exactly one reaction has that reaction's count minus one. |
| Tally.VotesForIgnoresOthers | Main.py:759-769 | A reaction with any other emoji, anywhere in the list, does not change an emoji's tally. |
| Topic.HasMarkerIff | Main.py:246 | The marker test holds iff the marker occurs in the description at some index. |
| Topic.BeforeMarker | Main.py:248-251 | The text before the first marker is a prefix of the description, and the whole description when there is no marker. |
| Topic.BeforeMarkerFirst | Main.py:248 | The split is at the first marker: when the description has a marker, one starts right after the kept prefix, and none starts inside it. |
| Topic.NoMarkerBefore | Main.py:248 | The text before the first marker contains no marker. |
| Topic.StripLeft | Main.py:251 | Stripping the front gives a suffix that is empty or starts with a non-space; everything dropped is whitespace. |
| Topic.StripRight | Main.py:251 | Stripping the back gives a prefix that is empty or ends with a non-space; everything dropped is whitespace. |
| Topic.Strip | Main.py:251 | The stripped text neither starts nor ends with whitespace. By the two contracts above, it is what remains once the whitespace at both ends is dropped. |
| Topic.StripIdempotent | Main.py:278 | Stripping twice is stripping once. |
| Topic.StripTrailing | Main.py:251 | Whitespace appended to a text does not survive stripping. |
| Topic.JoinAt | Main.py:246-257 | Joining a marker-free text to another with a non-marker character creates no marker across the join. The first marker of the whole is the first marker of the second part. |
| Topic.SetTopic | Main.py:243-257 | The new description always ends with the marker, a newline and the topic. |
| Topic.SetTopicKeeps | Main.py:246-257 | A description without a marker is kept as it is, in front of the new section. A description with a marker is handled as if its stripped text before the first marker were the whole description. |
| Topic.ComposeKeeps | Main.py:252 | The composed description starts with the text kept in front of the section. |
| Topic.ClearTopic | Main.py:274-282 | An edit happens iff the description has a marker. The new description is the stripped text before the first marker and has no marker. |
| Topic.ClearAfterSet | Main.py:243-282 | `!cleartopic` after `!topic` keeps exactly the stripped text before the original description's first marker, or the whole original stripped when it had no marker. |
| Topic.SetTwice | Main.py:246-252 | Setting a second topic gives the same description as setting it on the stripped text before the original's first marker; the first topic leaves no trace. |
| TruthBullets.ToDict | truth_bullets.py:14-15 | `to_dict` writes the four field names with the bullet's id, name and description. |
| TruthBullets.FromDict | truth_bullets.py:17-19 | `from_dict` accepts only dictionaries of known fields that name id, name and description. An accepted dictionary's id, name and description are the bullet's. The bullet has no image exactly when `image_url` is absent or null. |
| TruthBullets.FromDictDefault | truth_bullets.py:8-19 | A dictionary naming only id, name and description is read with the dataclass default `image_url = None`. |
| TruthBullets.FromDictToDict | truth_bullets.py:14-19 | `from_dict(to_dict(b)) == b` for every bullet. |
| TruthBullets.ToDictFromDict | truth_bullets.py:14-19 | An accepted dictionary with all four fields is exactly what `to_dict` writes for the bullet read from it. |
| TruthBullets.Preview | Main.py:230 | A description of at most 100 characters is shown whole. A longer one is shown as its first 100 characters followed by "...". |
| TruthBullets.ParseInt | truth_bullets.py:84 | `int(identifier)`: a number is read exactly when the identifier is a string of digits, or a sign followed by at least one digit; anything else, the empty string included, is the ValueError that sends `get_bullet` to the name search. Digits give their decimal value, `-` negates it and `+` keeps it. Only part of Python's syntax is accepted, see `ParseInt` under "Left out". |
| TruthBullets.ParseDecimal | truth_bullets.py:84 | Reading back the decimal digits of any natural number gives that number, so an id typed as shown is found by id. |
| TruthBullets.Lower | truth_bullets.py:89 | `lower()` keeps the length, turns each ASCII capital into its own small letter (code point plus 32) and changes no other character. It covers ASCII only, see `SameName` under "Left out". |
| TruthBullets.SameName | truth_bullets.py:89 | Two names match iff they have the same length and agree character by character up to ASCII case. Equal names always match. |
| TruthBullets.Without | truth_bullets.py:76 | Deleting a key from the insertion order keeps every other key, in ascending order, and changes nothing when the key is absent. |
| TruthBullets.Manager.constructor | truth_bullets.py:32-36 | A fresh store is empty, has next id 1 and satisfies the id invariant. |
| TruthBullets.Manager.AddBullet | truth_bullets.py:62-72 | The new bullet gets id = next_id, which was not a key, and is stored under it. Every earlier bullet is unchanged, next_id grows by exactly 1 and the invariant holds. |
| TruthBullets.Manager.RemoveBullet | truth_bullets.py:74-79 | Returns true iff the id was stored; only that key is deleted and next_id does not change. Otherwise nothing changes. |
| TruthBullets.Manager.GetBullet | truth_bullets.py:81-91 | An integer identifier is looked up by id only, giving None on a miss. Any other identifier gives the first bullet in insertion order (the smallest id) whose name matches ignoring case, or None when no name matches. |
| TruthBullets.Manager.AllBullets | truth_bullets.py:93-94 | Every stored bullet exactly once, in strictly ascending id. |

## Left out

- Chat-platform calls are updates of the `World` fields. Their failures are not modelled: `discord.Forbidden`, the generic `except` branches, and a command stopped part-way through its calls.
- Asynchrony is not modelled. Each command and reaction event runs to completion before the next, so the interleaving of reaction events with commands is not captured.
- One `World` is one guild with one channel. The `channel_id` fields and other guilds are left out: the code keys its dictionaries by guild, and guilds do not interact. `!endscrum` and `!endvote` act on the command's channel here. In the bot these can be different channels.
- Status messages, embeds, colours and reasons are presentation and are left out. Message ids of posted messages are inputs (`voteMessage`, `setupMessage`).
- The `starred_roles` and `refuter_roles` dictionaries are left out. The code writes them and never reads them.
- The admin role lookup and the existence checks are inputs:
  - The administrator role lookup (`discord.utils.get(..., permissions=...)`) is the input `adminExists`. That role is a subject of its own, assumed to differ from the bot's four roles.
  - The bot-permission check inside `!star` is the input `botCanManage`. The decorator checks and the caller's administrator check are left out.
  - `get_member` returning no member is "not in `members`". Guild membership changes and roles deleted outside the bot are not modelled.
- `on_ready`, `ping`, `on_command_error` and the start-up code are left out. So are the bullet command handlers in Main.py (apart from the preview at Main.py:230) and `to_embed`.
- Catalog persistence (`_load_bullets`, `_save_bullets`, `_get_storage_path`) is left out, and so is the `guild_managers` registry. Only the fresh-store branch of the constructor is modelled. A loaded file could break the id invariant.
- Python strings are modelled only in part:
  - `strip()` covers ASCII whitespace only.
  - A missing channel topic is the empty string.
- `TruthBullets.SameName`: compares names up to ASCII case only, as `TruthBullets.Lower` handles only the letters A-Z. Python's `lower()` also folds non-ASCII capitals.
- `TruthBullets.ParseInt`: accepts only an optional sign followed by ASCII digits. Python's `int()` also accepts surrounding whitespace, underscores and non-ASCII digits.
- `Topic.SetTopic`: the branch at Main.py:253-254 has no counterpart. It runs when the marker is present but the split gives fewer than two parts, and a split on a present marker always gives at least two.
- `TruthBullets.FromDict`: rejects a dictionary whose values have the wrong kind, such as a text id. Python's dataclass would accept such values without checking.
- `TruthBullets.Manager.AllBullets`: returns the bullets in insertion order instead of sorting them. The invariant proves that this order is strictly ascending by id, so the result is the same.
- `Tally.CountVotes`: takes reaction counts as given. It uses the same count-minus-one rule as the code, which assumes the bot seeded each emoji exactly once.
