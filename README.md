# Virtual pet economy of a Farcaster frame

This project models the pet economy of the frame endpoint `pages/api/frame.js`.
Each user (`fid`) owns one pet row with four integers: `hunger`, `happiness`,
`coins` and `lastNotified`. A request can do one of three things to the pet:
feed it, play with it, or buy an item from the shop. After the action, an
attention gate decides whether to notify the owner. The handler then writes
the row back.

Layout:

- `wrappers.dfy`: module `Wrappers`. It holds `Option`, used for a missing row and for an absent `item` parameter.
- `catalog.dfy`: module `Catalog`. It holds the shop as a map from item name to `Item(cost, Effect(hunger, happiness))`. It also holds the shipped `ShopItems` (toy: cost 5, +2 happiness; treat: cost 3, -2 hunger). An effect field left out of an item is `None` and counts as a delta of 0, as `|| 0` does in the source.
- `economy.dfy`: module `Economy`. It holds the constants (threshold 2, cooldown 3600000 ms, cap 10) and the `PetState` snapshot. `Apply`, `ShouldNotify` and `Notified` are the specification functions. The class `Pet` has the four fields the handler mutates in place. `Pet.ApplyAction` and `Pet.MaybeNotify` are proved against those functions.
- `handler.dfy`: module `Handler`. It covers one request, given the row the store returned (`Respond` on values, `HandleRequest` on a `Pet` object). What the request asks of the store and of the notifier is a log of `Write`s: `Insert`, `Notify`, `Update`, in source order. A table `Store` (fid to row), `Commit` of a write log and `Replay` of a sequence of requests state properties across requests.

Behaviour worth knowing:

- Clamping is one-sided, as written. Feeding and the hunger part of a purchase only floor at 0. Playing and the happiness part of a purchase only cap at 10. The 0..10 ranges are proved under the assumption that no item raises hunger or lowers happiness (`Catalog.Gentle`). The shipped catalog meets that assumption. `Economy.OneSidedClampBreaksBounds` shows the ranges fail without it.
- A new user's default row is inserted before the action runs. A refused purchase by a new user therefore still leaves the default row in the table. Only the final update is skipped (`Handler.AfterEffect`).
- An unknown action, and a buy of an absent or unknown item, are an implicit fall-through. They are not a named outcome. The model names them with the predicate `Economy.IsNoOp`. Such a request still runs the gate and still persists the row.

## Model

| member | source | states |
|---|---|---|
| `Catalog.Lookup` | pages/api/frame.js:50-51 | an item is found exactly when the parameter is present and names a catalog key, and the entry is returned; otherwise "not found" with no error |
| `Catalog.ShippedCatalog` | pages/api/frame.js:13-17 | the shipped catalog has exactly toy (cost 5, happiness +2, hunger absent = 0) and treat (cost 3, hunger -2, happiness absent = 0), and neither raises hunger nor lowers happiness |
| `Economy.NewPet` | pages/api/frame.js:37-39 | a new pet has hunger 5, happiness 5, no coins, has never been notified, and is within the intended ranges |
| `Economy.Apply` | pages/api/frame.js:43-61 | an action is refused exactly when it is a buy of a known item costing more than the pet's coins; an applied action never touches `lastNotified` and never puts a debt-free pet into debt |
| `Economy.FeedEffect` | pages/api/frame.js:44-46 | feeding always succeeds, sets hunger to hunger-1 floored at 0, adds one coin and changes nothing else |
| `Economy.PlayEffect` | pages/api/frame.js:47-49 | playing always succeeds, sets happiness to happiness+1 capped at 10, adds two coins and changes nothing else |
| `Economy.BuyAffordable` | pages/api/frame.js:50-57 | an affordable buy subtracts exactly the cost, applies the hunger delta floored at 0 and the happiness delta capped at 10, counts a missing effect field as 0, and leaves `lastNotified` alone |
| `Economy.BuyRejected` | pages/api/frame.js:52-59 | a buy of a known item that costs more than the pet's coins is refused with "Not enough coins" |
| `Economy.RejectionOnlyForUnaffordableBuy` | pages/api/frame.js:50-60 | the only refusal is a buy whose item is in the catalog and costs more than the pet's coins |
| `Economy.NoOpUnchanged` | pages/api/frame.js:43-61 | an unknown action, or a buy of an absent or unknown item, returns the pet unchanged, so applying it twice equals applying it once |
| `Economy.UnchangedOnlyByNoOpOrFreeBuy` | pages/api/frame.js:43-61 | conversely, a successful action that leaves the pet unchanged is a no-op or a buy of a zero-cost item; feeding and playing always change the pet |
| `Economy.CoinsAccounting` | pages/api/frame.js:45-57 | feeding and playing strictly increase coins; coins go down only through a successful buy, by exactly its cost; a pet without debt never gets into debt |
| `Economy.ApplyPreservesWellFormed` | pages/api/frame.js:45-57 | when no catalog item raises hunger or lowers happiness, every action keeps hunger and happiness in 0..10 and coins non-negative |
| `Economy.ShippedCatalogPreservesWellFormed` | pages/api/frame.js:14-17 | with the shipped catalog, every action keeps the 0..10 ranges and non-negative coins |
| `Economy.OneSidedClampBreaksBounds` | pages/api/frame.js:54-55 | hunger has no cap: an item that adds 3 hunger takes a pet at hunger 9 to 12, out of range |
| `Economy.ToyScenario` | pages/api/frame.js:50-59 | a toy bought at {hunger 0, happiness 5, coins 10} gives {0, 7, 5}; with 2 coins the toy is refused |
| `Economy.IsNoOp` | pages/api/frame.js:43-61 | the fall-through cases: any action other than feed and play, and a buy whose item is absent or not in the catalog; for these every pet is returned unchanged, and every other request is feed, play or a buy of a known item |
| `Economy.ShouldNotify` | pages/api/frame.js:65-67 | the gate fires only when hunger or happiness is at most 2 and at least 3600001 ms have passed since `lastNotified`; it never fires within the cooldown nor for a pet with both levels above 2 |
| `Economy.Notified` | pages/api/frame.js:63-71 | the gate changes only `lastNotified`: it becomes `now` when the gate fires, and otherwise the pet is unchanged |
| `Economy.SilentWithinCooldown` | pages/api/frame.js:65-67 | the gate never fires while now - lastNotified <= 3600000, whatever the levels are |
| `Economy.FiresJustAfterCooldown` | pages/api/frame.js:65-71 | a pet with hunger or happiness <= 2 is notified at lastNotified + 3600001, and that time is recorded |
| `Economy.ContentPetNeverNotified` | pages/api/frame.js:65-66 | a pet with both levels above 2 is never notified |
| `Economy.FiringRestartsCooldown` | pages/api/frame.js:67-70 | after the gate fires at `now`, it stays shut for any time up to now + 3600000 |
| `Economy.GateScenario` | pages/api/frame.js:64-71 | {hunger 1, happiness 8, lastNotified 0} at now 4000000 fires and records lastNotified 4000000 |
| `Economy.Pet.constructor` | pages/api/frame.js:38-39 | the pet record starts with the fields of the given snapshot (the stored row or the new pet) |
| `Economy.Pet.ApplyAction` | pages/api/frame.js:43-61 | after the in-place update the fields equal `Apply` of the old fields; a rejection is reported exactly when `Apply` refuses, with no field written |
| `Economy.Pet.MaybeNotify` | pages/api/frame.js:63-71 | reports firing exactly when the gate condition holds on the old fields; the fields become `Notified(old, now)` |
| `Handler.Respond` | pages/api/frame.js:37-74 | a request fails (400, "Not enough coins") exactly when the action is refused; its writes are then exactly the default-pet insert for a new user and nothing for a known one. It inserts the default pet first exactly when no row was stored, and every write is about the requesting user. A request that is not refused shows the post-action pet after the gate, so a recorded `lastNotified := now` is part of that pet. Its writes are then exactly, in this order: the default-pet insert for a new user only, one attention notification only when the gate fires on the post-action pet, and one update of the pet shown |
| `Handler.HandleRequest` | pages/api/frame.js:37-74 | the handler, built on in-place updates of a `Pet` object, returns exactly the response `Respond` specifies |
| `Handler.AfterEffect` | pages/api/frame.js:40-74 | after a request, the user's row equals the pet shown; a refused buy leaves an existing row untouched and leaves only the default row for a new user |
| `Handler.RejectedBuyPersistsNothing` | pages/api/frame.js:58-59 | a refused request by a known user leaves the table unchanged, and it was a buy of a known item the pet could not afford |
| `Handler.OtherRowsUntouched` | pages/api/frame.js:73-74 | a request does not add, remove or change any other user's row |
| `Handler.AfterPreservesWellFormed` | pages/api/frame.js:43-74 | when no catalog item raises hunger or lowers happiness, one request keeps every row of the table within its ranges |
| `Handler.NewUserFeedScenario` | pages/api/frame.js:38-46 | a new user "u1" feeding gets {hunger 4, happiness 5, coins 1}: the default row is inserted, then updated |
| `Handler.PoorUserToyScenario` | pages/api/frame.js:50-59 | a user with 2 coins buying a toy gets "Not enough coins", and the table is unchanged |
| `Handler.ReplayPreservesWellFormed` | pages/api/frame.js:43-74 | the ranges hold for every row after any sequence of requests, when no item raises hunger or lowers happiness |
| `Handler.ShippedReplayPreservesWellFormed` | pages/api/frame.js:14-17 | with the shipped catalog, the ranges hold for every row after any sequence of requests |
| `Handler.ServeWritesOwnRow` | pages/api/frame.js:68-74 | every insert, notification and update of a request carries the requesting user's id |
| `Handler.QuietWithinCooldown` | pages/api/frame.js:64-71 | once a pet's notification time is t, no request for it within an hour of t notifies it or moves t, whatever it does and whatever other users' requests come in between |

## Left out

- Supabase client creation from environment variables and the select, insert and update calls (lines 5-8, 27-41, 74): these are I/O. The store is a map from user id to row. An insert sets the row; an update changes an existing row only. Write failures are not modelled, because the source does not check them.
- The database-error branch (lines 33-35, a 500 response), because it is a store failure. The model has no lookup failure: `stored` is either the row or `None` for an unknown user.
- The missing-`fid` 400 response (lines 22-24), because it is boundary validation. The model takes the user id as given. An absent `action` behaves like any unlisted action string.
- `sendNotification` (lines 124-127), because it is a logging stub for a network call. The model records a `Notify` write with the message.
- `Date.now()` (line 64): the clock is the parameter `now`.
- The HTML frame template (lines 77-119), because it is rendering. The response carries the pet it would display.
- JavaScript value semantics, because every field is an unbounded `int`. Not modelled: `undefined`/`NaN` arithmetic on rows without `lastNotified`, and floating-point `Number`. Also not modelled: item names such as `constructor` that are truthy through the object prototype. The source would refuse those with "Not enough coins"; here they are unknown items.
- Concurrency between requests for the same user, because the source has no isolation. `Replay` serves requests one at a time.
