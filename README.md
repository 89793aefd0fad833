# Hunty core in Dafny

This project models the core of the Hunty scavenger-hunt contract (`contracts/hunty-core`) and proves
properties of the model. The core has three parts.

- **The indexed store** (`storage.rs`). It keeps hunts by ID, clues by (hunt, clue) and player progress
  by (hunt, player). It also keeps two per-hunt enumeration lists: clue IDs and player addresses. Both
  lists are append-only, insertion-ordered and duplicate-free. Finally it keeps the hunt-ID counter.
  The model is the class `Storage.Store`. Its fields are the maps and its methods are save, get,
  list and `next_hunt_id`. The object invariant `Valid()` states three things: every record sits under
  its own key, every list is duplicate-free, and a record is stored exactly when its ID is listed for
  its hunt.
- **The lifecycle controller** (`lib.rs`). It has four operations: `create_hunt`, `activate_hunt`,
  `deactivate_hunt` and `cancel_hunt`. In the model they are methods over a `Store`, written as the
  source writes them. `CreateHunt` validates the title and description, takes the next ID and saves a
  new draft. It is proved against `InputError` and `NewHunt`. The three transitions load the hunt, run
  the guards in order, change the status and save once. Each is proved against a pure transition
  function (`Activation`, `Deactivation`, `Cancellation`), and the state-machine lemmas are stated
  about those functions.
- **The domain entities and the errors** (`types.rs`, `errors.rs`). These are the hunt, clue, reward
  and progress records, the idempotent `complete_clue`, the error codes and their discriminants, the
  `From` conversion, and the `Display` messages.

The module `Scenarios` holds client calls on a fresh store, and each outcome there is proved from the
operations' contracts alone. `SequentialCreations`, `CounterAdvancesPerCreation`,
`RefusedCreationUsesNoId`, `CreatedRecords` and `ActivationOutcomes` follow the unit tests of
`test.rs`. The other four call operations that `test.rs` does not test: `CancellationIsFinal` calls
cancellation, the two list scenarios call the store's index lists, and `CompletingTwiceCountsOnce`
calls `complete_clue`.

Modules: `Wrappers` (Option, Result), `Sequences` (duplicate-free lists), `Types`, `Errors`,
`Storage`, `HuntyCore`, `Scenarios`.

Where the code differs from its own comments, or uses names it never defines:

- `HuntStatus::Completed` is declared (`types.rs:8`) and refused by `cancel_hunt` (`lib.rs:173`), but
  no function sets it. `NoTransitionCompletes` proves the model's operations never produce it.
- The doc comment of `list_clues_for_hunt` says clues come back "in clue_id order". The code returns
  them in the order of the ID list, which is the order in which each ID was first saved. The model
  returns list order (`Gather`).
- The doc comment of `create_hunt` lists an `InvalidAddress` error (`lib.rs:28`), but the body never
  returns it: any address is accepted (`lib.rs:37-39`). `CreateHunt` fails only with the code that
  `InputError` gives, which is never `InvalidAddress`.
- `HuntErrorCode::NoCluesAdded` is returned by activation but missing from the declared enum. The model
  adds it as a fourteenth code with discriminant 14.
- The tests use `Storage::increment_total_clues`, which is not defined. The model adds
  `Store.IncrementTotalClues`: it adds 1 to `total_clues` of an existing hunt and does nothing when the
  hunt is absent.
- The three transitions read the caller from the host (`env.invoker()`, `lib.rs:105`, `140` and `167`),
  which is not defined here. The model takes the caller as a `caller` parameter.

The ledger clock and the caller's identity are parameters (`now`, `caller`). The unused `_start_time`
argument of `create_hunt` is omitted.

## Model

| member | source | states |
|---|---|---|
| `Sequences.AppendUnique` | contracts/hunty-core/src/storage.rs:242-265 | the item ends up listed; the old list is a prefix of the result; the list grows by one exactly when the item was absent, and is unchanged otherwise |
| `Sequences.AppendUniqueKeepsNoDuplicates` | contracts/hunty-core/src/storage.rs:250-263 | appending only when absent keeps a list duplicate-free |
| `Sequences.AppendUniqueIdempotent` | contracts/hunty-core/src/storage.rs:250-263 | adding the same item twice gives the same list as adding it once |
| `Sequences.OccursOnce` | contracts/hunty-core/src/storage.rs:69-76 | in a duplicate-free list every present item occurs exactly once |
| `Types.TruncatedDivision` | contracts/hunty-core/src/types.rs:143 | signed division rounds toward zero: q·b ≤ a < q·b + b for a ≥ 0, and q·b − b < a ≤ q·b for a < 0 |
| `Types.RewardConfig.RewardPerWinner` | contracts/hunty-core/src/types.rs:139-145 | 0 without winner slots; otherwise the pool divided by the slots, truncated, so the shares never exceed a non-negative pool and the remainder is less than one share |
| `Types.RewardPerWinnerExamples` | contracts/hunty-core/src/types.rs:139-145 | 10000 over 3 winners gives 3333; over 0 winners gives 0; −10000 over 3 gives −3333 |
| `Types.NewRewardConfig` | contracts/hunty-core/src/types.rs:124-137 | copies its four arguments, sets `claimed_count` to 0, and so satisfies `claimed_count ≤ max_winners` |
| `Types.NewPlayerProgress` | contracts/hunty-core/src/types.rs:83-94 | nothing completed, score 0, started now, not completed, no reward claimed; satisfies the progress invariant for every points assignment |
| `Types.PlayerProgress.HasCompletedClue` | contracts/hunty-core/src/types.rs:96-103 | true exactly when the ID occurs in `completed_clues` |
| `Types.PlayerProgress.WithClue` | contracts/hunty-core/src/types.rs:105-110 | a new ID is appended at the end and adds exactly `points`; an ID already present leaves the record unchanged; the other fields never change |
| `Types.PlayerProgress.CompleteClue` | contracts/hunty-core/src/types.rs:105-110 | the record returned is the one `WithClue` describes |
| `Types.CompleteClueIdempotent` | contracts/hunty-core/src/types.rs:105-110 | completing the same clue again, with any points, changes nothing |
| `Types.CompleteClueKeepsOrder` | contracts/hunty-core/src/types.rs:105-110 | `completed_clues` stays duplicate-free and keeps its earlier entries in order |
| `Types.CompleteClueKeepsScore` | contracts/hunty-core/src/types.rs:105-110 | if the score is the sum of points over completed clues, it still is after completing a clue with its own points |
| `Types.Hunt.IsActive` | contracts/hunty-core/src/types.rs:114-116 | only a hunt with status `Active` is ever active; with `ActivatedHuntIsPlayable`, `StoppedHuntIsNotPlayable` and `InactiveStaysInactive` it fixes when a hunt can be played |
| `Types.InactiveStaysInactive` | contracts/hunty-core/src/types.rs:114-116 | a hunt that is inactive at some time stays inactive at every later time |
| `Types.Hunt.HasRewardsAvailable` | contracts/hunty-core/src/types.rs:118-120 | a hunt without winner slots never offers rewards |
| `Types.RewardsExhausted` | contracts/hunty-core/src/types.rs:118-120 | with a well-formed pool, rewards run out exactly when every winner slot is claimed |
| `Types.DefaultLocation` | contracts/hunty-core/src/types.rs:59-67 | the default location is latitude 0, longitude 0, radius 0 |
| `Errors.Discriminant` | contracts/hunty-core/src/errors.rs:7-21 | every code is in 1..14, and 14 belongs to `NoCluesAdded` alone |
| `Errors.FromDiscriminant` | contracts/hunty-core/src/errors.rs:7-21 | a number names a code exactly when it is in 1..14 |
| `Errors.DiscriminantRoundTrip` | contracts/hunty-core/src/errors.rs:7-21 | decoding a code's discriminant gives back the code |
| `Errors.FromDiscriminantRoundTrip` | contracts/hunty-core/src/errors.rs:7-21 | encoding the code decoded from 1..14 gives back the number |
| `Errors.DiscriminantsDistinct` | contracts/hunty-core/src/errors.rs:7-21 | distinct codes have distinct discriminants |
| `Errors.ToCode` | contracts/hunty-core/src/errors.rs:93-111 | each error maps to the code with the same declared name, whatever its payload, and never to `NoCluesAdded` |
| `Errors.CodeNamesDistinct` | contracts/hunty-core/src/errors.rs:7-21 | code names identify codes, so the name fixes the result of the conversion |
| `Errors.ToCodeCoversDeclaredCodes` | contracts/hunty-core/src/errors.rs:93-111 | every declared code is the conversion of some error |
| `Errors.Decimal` | contracts/hunty-core/src/errors.rs:43-45 | integer formatting gives a non-empty string of digits with no leading zero |
| `Errors.DecimalRoundTrip` | contracts/hunty-core/src/errors.rs:43-45 | parsing the rendered digits gives back the number |
| `Errors.DecimalInjective` | contracts/hunty-core/src/errors.rs:43-45 | different numbers render differently |
| `Errors.SignedDecimal` | contracts/hunty-core/src/errors.rs:67-76 | a signed amount renders non-empty and starts with '-' exactly when it is negative; a non-negative amount renders as digits that parse back to it, and a negative one as '-' followed by digits that parse back to its magnitude |
| `Errors.Message` | contracts/hunty-core/src/errors.rs:40-91 | every message ends with its last argument: the decimal hunt ID for the variants that carry one, the rendered reason for `InvalidTitle` and `InvalidDescription`, and the available amount for `InsufficientRewardPool` |
| `Errors.MessageIdentifiesHunt` | contracts/hunty-core/src/errors.rs:40-91 | two errors of the same kind that carry a hunt ID and display the same message are equal |
| `Errors.DecimalExamples` | contracts/hunty-core/src/errors.rs:43-45 | 42, 10, 500 and 10000 render as "42", "10", "500" and "10000" |
| `Errors.MessageExamples` | contracts/hunty-core/src/errors.rs:43-88 | "Hunt not found: ID 42", "Clue not found for hunt 10", "Invalid hunt status", "Unauthorized access", "Invalid answer submitted", "Invalid address"; `HuntNotFound{42}` converts to code `HuntNotFound` |
| `Errors.RewardPoolMessageExample` | contracts/hunty-core/src/errors.rs:67-76 | a required 10000 and available 500 display as "Insufficient reward pool: required 10000, available 500" |
| `Storage.Gather` | contracts/hunty-core/src/storage.rs:114-127 | the records gathered for an ID list are never more than the IDs |
| `Storage.GatherComplete` | contracts/hunty-core/src/storage.rs:114-127 | when every listed ID has a record, the result has one record per ID, in list order |
| `Storage.GatherSound` | contracts/hunty-core/src/storage.rs:191-204 | every gathered record is the stored record of some listed ID |
| `Storage.IndexedAfterSave` | contracts/hunty-core/src/storage.rs:69-76 | storing a record and appending its ID only if absent keeps the lists duplicate-free and in step with the records |
| `Storage.Scan` | contracts/hunty-core/src/storage.rs:250-258 | the duplicate check finds the item exactly when it is in the list |
| `Storage.ClueIdsIndexClues` | contracts/hunty-core/src/storage.rs:268-274 | in a consistent store a hunt's clue-ID list is duplicate-free and names exactly the hunt's stored clues |
| `Storage.PlayerIdsIndexPlayers` | contracts/hunty-core/src/storage.rs:304-310 | in a consistent store a hunt's player list is duplicate-free and names exactly the hunt's registered players |
| `Storage.Store.constructor` | contracts/hunty-core/src/storage.rs:337-340 | a fresh store holds nothing, and its counter reads 0 |
| `Storage.Store.SaveHunt` | contracts/hunty-core/src/storage.rs:29-32 | the hunt is stored under its own ID; every other key and every other part of the store is unchanged |
| `Storage.Store.GetHunt` | contracts/hunty-core/src/storage.rs:42-45 | returns the stored hunt exactly when one is stored under the ID, and that hunt carries the ID |
| `Storage.Store.GetHuntOrError` | contracts/hunty-core/src/storage.rs:56-58 | `HuntNotFound{hunt_id}` exactly when nothing is stored under the ID; otherwise the stored hunt |
| `Storage.Store.IncrementTotalClues` | contracts/hunty-core/src/test.rs:424 | an existing hunt's `total_clues` goes up by one; nothing else changes, and nothing at all changes for an absent hunt |
| `Storage.Store.SaveClue` | contracts/hunty-core/src/storage.rs:69-76 | the clue is stored under (hunt, clue ID); the ID is appended to the hunt's list unless present, and afterwards occurs there exactly once |
| `Storage.Store.AddClueToList` | contracts/hunty-core/src/storage.rs:242-265 | the hunt's list becomes the old list with the ID appended unless already listed, and nothing is written when it was listed |
| `Storage.Store.ClueIds` | contracts/hunty-core/src/storage.rs:268-274 | a hunt with no stored list reads as an empty list (its tie to the stored clues is `ClueIdsIndexClues`) |
| `Storage.Store.GetClue` | contracts/hunty-core/src/storage.rs:87-90 | the stored clue exactly when one is stored under (hunt, clue); that is also exactly when the ID is listed for the hunt |
| `Storage.Store.GetClueOrError` | contracts/hunty-core/src/storage.rs:102-104 | `ClueNotFound{hunt_id}` exactly when no clue is stored; otherwise the stored clue |
| `Storage.Store.ListCluesForHunt` | contracts/hunty-core/src/storage.rs:114-127 | the stored clues in list order, one per listed ID |
| `Storage.Store.SavePlayerProgress` | contracts/hunty-core/src/storage.rs:137-144 | the progress is stored under (hunt, player); the player is appended to the hunt's list unless present, and afterwards occurs there exactly once |
| `Storage.Store.AddPlayerToList` | contracts/hunty-core/src/storage.rs:278-301 | the hunt's list becomes the old list with the player appended unless already listed, and nothing is written when it was listed |
| `Storage.Store.PlayerIds` | contracts/hunty-core/src/storage.rs:304-310 | a hunt with no stored list reads as an empty list (its tie to the stored progress is `PlayerIdsIndexPlayers`) |
| `Storage.Store.GetPlayerProgress` | contracts/hunty-core/src/storage.rs:155-162 | the stored progress exactly when one is stored, which is exactly when the player is listed for the hunt |
| `Storage.Store.GetPlayerProgressOrError` | contracts/hunty-core/src/storage.rs:174-181 | `PlayerNotRegistered{hunt_id}` exactly when no progress is stored; otherwise the stored progress |
| `Storage.Store.GetHuntPlayers` | contracts/hunty-core/src/storage.rs:191-204 | the progress records in registration order, one per listed player |
| `Storage.Store.NextHuntId` | contracts/hunty-core/src/storage.rs:322-328 | returns the old counter plus 1, and the counter then equals the returned value |
| `Storage.Store.GetHuntCounter` | contracts/hunty-core/src/storage.rs:337-340 | returns the counter and changes nothing |
| `Storage.FreshStoreIsEmpty` | contracts/hunty-core/src/storage.rs:337-340 | on a fresh store the counter reads 0, and no clues or players are listed |
| `HuntyCore.InputError` | contracts/hunty-core/src/lib.rs:42-55 | `InvalidTitle` exactly when the title length is 0 or over 200; `InvalidDescription` exactly when the title is valid and the description is over 2000 characters; no error otherwise; `InvalidAddress` is never returned |
| `HuntyCore.InputBounds` | contracts/hunty-core/src/lib.rs:42-55 | lengths of exactly 200 and 2000 are accepted; 201 and 2001 are refused with the matching code |
| `HuntyCore.NewHunt` | contracts/hunty-core/src/lib.rs:63-85 | a draft with the given creator and texts, `created_at = now`, `activated_at = 0`, the given end time or 0, no clues, an all-zero reward pool; it is inactive at every time and offers no rewards |
| `HuntyCore.CreateHunt` | contracts/hunty-core/src/lib.rs:29-99 | fails exactly on invalid input, with the validation code, and writes nothing, so the counter does not advance; on success returns counter + 1, stores the new draft under it, and keeps IDs gapless from 1 without reusing one |
| `HuntyCore.Activation` | contracts/hunty-core/src/lib.rs:101-122 | succeeds exactly for the creator on a `Draft` hunt with clues; the result is `Active` with `activated_at = now` and nothing else changed |
| `HuntyCore.Deactivation` | contracts/hunty-core/src/lib.rs:135-152 | succeeds exactly for the creator on an `Active` hunt; the result is `Draft`, with `activated_at` untouched |
| `HuntyCore.Cancellation` | contracts/hunty-core/src/lib.rs:162-190 | succeeds exactly for the creator on a `Draft` or `Active` hunt; the result is `Cancelled` |
| `HuntyCore.ActivateHunt` | contracts/hunty-core/src/lib.rs:101-133 | returns what `Activation` gives for the stored hunt; on success that hunt is saved once and nothing else changes; on failure the store is unchanged |
| `HuntyCore.DeactivateHunt` | contracts/hunty-core/src/lib.rs:135-160 | returns what `Deactivation` gives; one save on success; no change on failure |
| `HuntyCore.CancelHunt` | contracts/hunty-core/src/lib.rs:162-199 | returns what `Cancellation` gives; one save on success; no change on failure |
| `HuntyCore.ActivationCheckOrder` | contracts/hunty-core/src/lib.rs:102-116 | each activation error occurs exactly when every earlier check passed and its own check failed: not found, then unauthorized, then not `Draft`, then no clues |
| `HuntyCore.DeactivationAndCancellationCheckOrder` | contracts/hunty-core/src/lib.rs:137-180 | the same ordering for deactivation and cancellation: not found, then unauthorized, then invalid status |
| `HuntyCore.TransitionsFollowStateMachine` | contracts/hunty-core/src/lib.rs:101-190 | every successful transition is a move Draft→Active, Active→Draft, Draft→Cancelled or Active→Cancelled, is made by the creator, and changes nothing beyond the status and, for activation, `activated_at` |
| `HuntyCore.TerminalStatesAreFinal` | contracts/hunty-core/src/lib.rs:170-180 | on a `Completed` or `Cancelled` hunt every transition fails, and with `InvalidHuntStatus` for the creator |
| `HuntyCore.CancelledHuntStaysCancelled` | contracts/hunty-core/src/lib.rs:162-190 | after a cancellation, activating, deactivating and cancelling again all fail with `InvalidHuntStatus` |
| `HuntyCore.DeactivateThenReactivate` | contracts/hunty-core/src/lib.rs:135-152 | an activated hunt can be deactivated, which keeps the activation time, and then activated again |
| `HuntyCore.NoTransitionCompletes` | contracts/hunty-core/src/lib.rs:101-190 | no operation produces the `Completed` status |
| `HuntyCore.ActivatedHuntIsPlayable` | contracts/hunty-core/src/lib.rs:118-122 | a freshly activated hunt is active at the activation time exactly when it has no end time or that end time is later |
| `HuntyCore.StoppedHuntIsNotPlayable` | contracts/hunty-core/src/lib.rs:135-190 | a deactivated or cancelled hunt is not active at any time |
| `HuntyCore.TransitionsKeepRewards` | contracts/hunty-core/src/lib.rs:101-190 | no transition changes whether a hunt offers rewards |
| `Scenarios.SequentialCreations` | contracts/hunty-core/src/test.rs:209-256 | a fresh store's counter reads 0; three creations return 1, 2 and 3; the counter then reads 3 |
| `Scenarios.CounterAdvancesPerCreation` | contracts/hunty-core/src/test.rs:296-351 | the counter reads 0 on a fresh store, then 1 and 2 after two creations, which return IDs 1 and 2 |
| `Scenarios.RefusedCreationUsesNoId` | contracts/hunty-core/src/test.rs:130-159 | an empty title and a 201-character title are refused with `InvalidTitle`, and the next valid creation still gets ID 1 |
| `Scenarios.CreatedRecords` | contracts/hunty-core/src/test.rs:66-128 | both stored hunts are drafts with no activation time, no clues and a zero pool, and keep the given end time or 0; the one without an end time also has the given creator, title and description, `required_clues = 0`, NFTs off with no contract, no winner slots and none claimed |
| `Scenarios.ActivationOutcomes` | contracts/hunty-core/src/test.rs:402-504 | an unknown ID gives `HuntNotFound`; no clues gives `NoCluesAdded`; a non-creator gives `Unauthorized`; the creator then activates, with `activated_at = now` |
| `Scenarios.CancellationIsFinal` | contracts/hunty-core/src/lib.rs:162-190 | an active hunt cancels; activating, deactivating and cancelling it afterwards give `InvalidHuntStatus` |
| `Scenarios.ClueListSuppressesDuplicates` | contracts/hunty-core/src/storage.rs:242-265 | saving one clue twice lists its ID once, and listing the hunt's clues gives that clue once |
| `Scenarios.PlayerListSuppressesDuplicates` | contracts/hunty-core/src/storage.rs:278-301 | saving one player's progress twice lists the player once, and the hunt's players give that progress once |
| `Scenarios.CompletingTwiceCountsOnce` | contracts/hunty-core/src/types.rs:105-110 | completing a clue a second time returns the same record, which holds the clue once and its points once |

## Left out

- Event emission (`HuntCreated`, `HuntActivated`, `HuntDeactivated`, `HuntCancelled`) and the event
  record types. These are fire-and-forget notifications with no effect on stored state.
- The Soroban storage API: `symbol_short!` key prefixes, tuple keys and persistent/temporary tiers.
  Each record family is a separate map. An absent list reads as empty, and an unset counter is 0.
- How the host supplies the ledger time and the caller's identity. Both are parameters.
- The refund on cancellation. The source has only a TODO there, so cancellation changes the status only.
- The `{:?}` rendering of a host string in the `InvalidTitle` and `InvalidDescription` messages. It
  depends on the host's object representation, so `Message` takes the rendering as a function parameter.
- Text semantics: a title's length is the length of a character sequence. No Unicode or byte encoding
  is modelled. `answer_hash` is an opaque string.
- Integer widths: `u32`/`u64` fields are `nat` and the `i128` pool is `int`. The unchecked `current + 1`
  in `next_hunt_id` and `total_score += points` in `complete_clue` therefore never overflow in the model.
- Types.PlayerProgress.CompleteClue: the source updates `&mut self` in place; the model returns the
  updated record, because progress records are stored by value.
- Concurrency: every operation runs to completion, one at a time. No interleaving is modelled.
- The unit-test scaffolding (`with_core_contract`, contract registration). The creation and activation
  tests are followed by five `Scenarios` methods, and the title and description bounds by `InputBounds`.
