# Gradient roles bot — role lifecycle model

A Discord bot that hands out two-colour "gradient" roles. `/random` draws a
colour pair and offers it with a preview and a "yes"/"no" button pair. The
"yes" button creates a role, colours it through a raw PATCH call and records
it in a per-guild registry, `db.servers[guildId].roles`. A guild may hold at
most 20 tracked roles. The registry is the bot's only state.

Members then manage their roles:

- `/list` and `pick_role` give a member one gradient role at a time.
- `/delete` and `delete_role` remove one tracked role.
- `/clear` deletes the roles nobody holds and forgets the roles that vanished from the guild.
- `/nocolor` takes off all of a member's gradient roles.

The model has four modules:

- `Registry` holds the registry. `Db` is a class whose `servers` map is updated in
  place by `GetServer`, `AddRole` and `DeleteRole`. Pure functions (`Added`,
  `Dropped`) say what a guild's list becomes. The lemmas about them cover the
  cap, filtering, order and idempotence.
- `Token` models the button id `yes_<primary>_<secondary>` and the JavaScript it
  depends on: `String(n)`, `split("_")` and `Number(s)`. It proves that decoding
  an encoded pair gives the pair back.
- `Colour` models the preview colour strings, `#` followed by
  `n.toString(16).padStart(6, "0")`. It proves that they are exactly seven
  characters for 24-bit colours and that they read back to the colour.
- `Lifecycle` models the handlers as methods over `Db`, with Discord reduced to
  inputs:
  - the guild's role cache, as a map from role id to member count;
  - the member's set of role ids;
  - the outcome of each remote call.

  The `/clear` loop is proved against the functions `Doomed` and `Unheld`. Its
  result is tied to an independent reference filter, `Survivors`.

The model follows the code's behaviour, including places where one would
expect otherwise:

- The "yes" handler does not re-check the cap, and it ignores `addRole`'s
  result. A role confirmed when the guild already tracks 20 roles is created
  and coloured in Discord but never tracked (`Created(role, tracked = false)`).
- When the PATCH is rejected or throws, the role created a moment before stays
  in the guild uncoloured and untracked. A thrown PATCH gets the same reply as a
  failed creation. The model still keeps the two apart (`ApplyErrored` carries
  the orphan, `CreateFailed` has none).
- `/clear` works on a snapshot of the list. A role missing from the guild's
  cache is forgotten but not counted. A role with no members is deleted, forgotten
  and counted. Deleting a role also removes it from the guild's role cache.
- `/nocolor` reads the registry without creating a guild entry.

## Model

| member | source | states |
|---|---|---|
| Registry.Db.constructor | index.js:17-27 | the registry starts as the map loaded at start-up |
| Registry.Db.GetServer | index.js:29-35 | a guild without an entry gets an empty list; every other entry is untouched; the list returned is the guild's list as it was; the cap invariant is kept |
| Registry.Db.AddRole | index.js:37-43 | succeeds exactly when the guild holds fewer than 20 roles; then the new entry is appended last and the list grows by one; otherwise nothing changes; no list is pushed past the cap |
| Registry.Db.DeleteRole | index.js:45-51 | the guild's list loses exactly the entries with that id, other guilds untouched; the result is true exactly when some entry had that id |
| Registry.Dropped | index.js:48 | filtering never lengthens a list |
| Registry.DroppedMembers | index.js:48 | an entry survives the filter exactly when it was present and its id is not removed |
| Registry.DroppedLength | index.js:47-50 | the length is unchanged exactly when no entry carried a removed id, which is what `deleteRole` reports |
| Registry.DroppedAppend | index.js:48 | filtering keeps relative order: it distributes over concatenation |
| Registry.DroppedTwice | index.js:48 | filtering by one id set and then another equals filtering by their union |
| Registry.DroppedNothing | index.js:48 | filtering ids that no entry has leaves the list unchanged |
| Registry.DeleteTwiceNoop | index.js:45-51 | after a delete the id is gone, and deleting it again changes nothing |
| Registry.Added | index.js:39-40 | one `addRole` on a list: the old list stays as a prefix; below 20 entries the new entry is appended as the one last element; at 20 or more the list is unchanged |
| Registry.AddsStayWithinCap | index.js:37-43 | no sequence of additions grows a list past 20 (or past its loaded length), and earlier entries stay as a prefix |
| Token.Decimal | index.js:160 | `String(n)` is a non-empty string of decimal digits with no leading zero |
| Token.DecimalRoundTrip | index.js:193-194 | `Number(String(n)) == n` |
| Token.ParseNumber | index.js:193-194 | `Number` yields a value exactly for strings of decimal digits, and the empty string reads as 0; anything else is NaN |
| Token.Split | index.js:192 | `split` yields at least one part, no part holds the separator, and joining the parts gives back the string |
| Token.SplitNoSeparator | index.js:192 | a string without the separator splits into itself alone |
| Token.SplitAtFirst | index.js:192 | the first separator cuts off exactly the prefix before it |
| Token.EncodeConfirm | index.js:160 | the id of the "yes" button starts with `yes_` and can never be read as the "no" button |
| Token.DecodeConfirm | index.js:191-194 | the handler reads a colour pair exactly when the id starts with `yes_`, splits on `_` into at least three parts, and parts 1 and 2 are digit strings |
| Token.ConfirmRoundTrip | index.js:191-194 | the id built for a colour pair starts with `yes_`, and the button handler reads the same pair back from it |
| Token.EncodeInjective | index.js:160 | distinct colour pairs get distinct button ids |
| Colour.Hex | index.js:117-118 | `toString(16)` is a non-empty string of lower-case hex digits |
| Colour.PadStart | index.js:117-118 | `padStart` reaches the width, keeps the string as its suffix and fills only the front |
| Colour.CssColor | index.js:117-118 | the preview colour is `#` followed by at least six lower-case hex digits |
| Colour.HexRoundTrip | index.js:117-118 | the hex digits read back to the number |
| Colour.HexLength | index.js:117-118 | `toString(16)` fits in k characters exactly when the number is below 16^k |
| Colour.LeadingZeros | index.js:117-118 | zero padding does not change the value |
| Colour.CssColorRoundTrip | index.js:117-118 | the colour string is 7 characters exactly for 24-bit colours; it is `#` and hex digits whose value is the colour |
| Lifecycle.Propose | index.js:146-160 | for colours `randomColorInt` can draw: refuses exactly when the guild already tracks 20 roles; otherwise offers the button id that decodes to the drawn pair and the two 7-character preview colours; only the lazy guild entry is written |
| Lifecycle.Confirm | index.js:183-250 | "no" cancels; an id that is neither "no" nor `yes_…` gets no answer; a `yes_` id that does not decode is malformed; a failed creation is reported as such; a rejected PATCH and a thrown PATCH give their two different outcomes, each leaving the created role orphaned; the role is reported created exactly when creation and PATCH succeed; the registry changes only then, exactly as `addRole` with the decoded colours changes it; the role is tracked exactly when the guild was under the cap |
| Lifecycle.PreviousRoles | index.js:299 | the ids removed are exactly the tracked ids the member holds |
| Lifecycle.Reassigned | index.js:299-305 | afterwards the member has every untracked role they had, plus the chosen one, and among tracked roles only the chosen one |
| Lifecycle.PickRole | index.js:288-307 | "not found" exactly when the chosen role is missing from the guild's cache, with no effect; otherwise the previous tracked roles come off and the chosen one goes on |
| Lifecycle.DeleteOne | index.js:340-349 | the role leaves the guild's cache and exactly its entries leave the registry |
| Lifecycle.ClearEntry | index.js:362-375 | one loop turn: a role missing from the cache is forgotten; a role with no members is deleted, leaves the cache, is forgotten and counted; a held role is left alone |
| Lifecycle.ClearStepRegistry | index.js:362-375 | one turn extends the dropped-id set by the entry's id exactly when its role is not held |
| Lifecycle.ClearStepCache | index.js:370-373 | one turn removes the entry's role from the cache and counts it exactly when the role is present with no members |
| Lifecycle.ClearUnused | index.js:354-383 | nothing to clear exactly when the list is empty; otherwise the registry loses exactly the roles that are missing or memberless, the cache loses exactly the memberless ones, and the count is their number |
| Lifecycle.ClearKeepsHeld | index.js:362-375 | what a clear pass keeps is exactly the present and held entries, in their original order |
| Lifecycle.ClearTwiceNoop | index.js:354-375 | a second pass right after the first drops nothing, deletes nothing and counts 0 |
| Lifecycle.RemovedCountsEntries | index.js:370-373 | with distinct ids, the count is the number of entries whose role is present with no members |
| Lifecycle.IdList | index.js:404 | the id list holds exactly the tracked ids |
| Lifecycle.NoColor | index.js:387-419 | "no colour roles" exactly when the guild tracks none; "nothing to remove" exactly when the member holds none of them; otherwise the removal fails or removes exactly the tracked roles the member holds, reporting a positive count of them |

## Left out

- Lifecycle.Confirm: an id that starts with `yes_` but whose colour parts are not decimal numerals is answered `Malformed`, with no effect. The code instead goes on to create a role with NaN colours. `Propose` only ever produces well-formed ids.
- Token.ParseNumber: covers decimal-digit strings only. `Number` also accepts surrounding whitespace, signs, `0x` literals, fractions and exponents, all of which are modelled as NaN. Double-precision rounding above 2^53 is not modelled, because colours stay below 2^24.
- Token.Decimal and Colour.Hex: model `String(n)` and `n.toString(16)` for every natural number. `String(n)` equals `Decimal(n)` for integers up to 2^53. Above that, JavaScript prints the shortest digits that round-trip, and from 1e21 on it uses exponent form. `n.toString(16)` equals `Hex(n)` for every integer-valued double. `Propose` requires colours below 0xffffff, which is all that `randomColorInt` returns, so these limits are never reached by the bot's own ids.
- Lifecycle.PatchResult: a PATCH that answers not ok and whose `resp.text()` then throws gets the creation-error reply in the code. The model answers every not-ok PATCH with `ApplyFailed`.
- The Discord client, slash-command registration, event dispatch and the text of every reply are left out. Replies are reduced to outcome constructors.
- `saveDB` and `loadDB` file I/O is left out. The registry is the in-memory map, and the constructor takes the loaded map.
- `/nocolor` re-reads `db.json` and has its own read-failure reply. The model reads the in-memory registry instead, which `saveDB` keeps equal to the file.
- `randomColorInt` and `Math.random` are left out. The two colours are inputs of `Propose`.
- Rendering the gradient PNG on a canvas is left out, and so is a rendering failure. Only the two CSS colour strings are modelled.
- The PATCH request's URL, headers, body and status code are left out. They are reduced to `PatchResult`.
- Remote role deletion failing in `delete_role` or `/clear` is left out. In the code it aborts the handler with an unhandled rejection; the model treats remote deletion as succeeding.
- `member.roles.add` and `member.roles.remove` failing in `pick_role` are left out for the same reason. A member missing from the member cache is left out too.
- The `/list` and `/delete` menus are presentation only. Their one effect on state, the lazy guild entry, is `GetServer`.
- Concurrency is left out. Each handler runs as one atomic step, so interleavings at the `await` points (for example two confirmations racing for the 20th slot) are not modelled.
- Logging and the process-level error handlers are left out.
