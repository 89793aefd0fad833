/** Client calls on a fresh store: creations and activations as the contract's unit tests make them,
    then cancellation, the two index lists and clue completion, which those tests leave out.
    Each result below is proved from the operations' contracts alone. */
module Scenarios {
  import opened Wrappers
  import opened Types
  import opened Errors
  import opened Storage
  import opened HuntyCore

  /** Three creations on a fresh store are numbered 1, 2, 3, and the counter reads 0 before and 3 after. */
  method SequentialCreations(creator: Address, now: nat) returns (before: nat, ids: seq<nat>, after: nat)
    ensures before == 0 && ids == [1, 2, 3] && after == 3
  {
    var s := new Store();
    before := s.GetHuntCounter();
    var r1 := CreateHunt(s, creator, "Hunt 1", "Description", None, now);
    var r2 := CreateHunt(s, creator, "Hunt 2", "Description", None, now);
    var r3 := CreateHunt(s, creator, "Hunt 3", "Description", None, now);
    ids := [r1.value, r2.value, r3.value];
    after := s.GetHuntCounter();
  }

  /** The counter reads 0 on a fresh store and advances by one with each creation, matching the IDs. */
  method CounterAdvancesPerCreation(creator: Address, now: nat)
    returns (start: nat, id1: nat, after1: nat, id2: nat, after2: nat)
    ensures start == 0 && after1 == 1 && id1 == 1 && after2 == 2 && id2 == 2
  {
    var s := new Store();
    start := s.GetHuntCounter();
    var r1 := CreateHunt(s, creator, "Test Hunt", "Description", None, now);
    id1 := r1.value;
    after1 := s.GetHuntCounter();
    var r2 := CreateHunt(s, creator, "Test Hunt", "Description", None, now);
    id2 := r2.value;
    after2 := s.GetHuntCounter();
  }

  /** A refused creation does not advance the counter: the next good one still gets ID 1. */
  method RefusedCreationUsesNoId(creator: Address, now: nat, longTitle: string)
    returns (empty: Result<nat, HuntErrorCode>, tooLong: Result<nat, HuntErrorCode>, good: Result<nat, HuntErrorCode>)
    requires |longTitle| == 201
    ensures empty == Err(HuntErrorCode.InvalidTitle) && tooLong == Err(HuntErrorCode.InvalidTitle)
    ensures good == Ok(1)
  {
    var s := new Store();
    empty := CreateHunt(s, creator, "", "Valid description", None, now);
    tooLong := CreateHunt(s, creator, longTitle, "Valid description", None, now);
    good := CreateHunt(s, creator, "Valid Title", "Valid description", None, now);
  }

  /** The stored record of a new hunt with an end time, and of one without. */
  method CreatedRecords(creator: Address, now: nat, endTime: nat) returns (timed: Hunt, open: Hunt)
    ensures timed.hunt_id == 1 && timed.end_time == endTime && timed.status == Draft
    ensures timed.activated_at == 0 && timed.total_clues == 0 && timed.reward_config.xlm_pool == 0
    ensures open.hunt_id == 2 && open.creator == creator && open.status == Draft
    ensures open.title == "Test Hunt" && open.description == "This is a test hunt description"
    ensures open.end_time == 0 && open.created_at == now && open.activated_at == 0
    ensures open.total_clues == 0 && open.required_clues == 0
    ensures open.reward_config.xlm_pool == 0 && !open.reward_config.nft_enabled
    ensures open.reward_config.nft_contract == None
    ensures open.reward_config.max_winners == 0 && open.reward_config.claimed_count == 0
  {
    var s := new Store();
    var r1 := CreateHunt(s, creator, "Timed Hunt", "A hunt with an end time", Some(endTime), now);
    var r2 := CreateHunt(s, creator, "Test Hunt", "This is a test hunt description", None, now);
    var h1 := s.GetHunt(r1.value);
    var h2 := s.GetHunt(r2.value);
    timed, open := h1.value, h2.value;
  }

  /** Activation outcomes: unknown hunt, no clues, a stranger, then the creator once a clue is counted. */
  method ActivationOutcomes(creator: Address, attacker: Address, now: nat)
    returns (missing: Result<(), HuntErrorCode>, noClues: Result<(), HuntErrorCode>,
             stranger: Result<(), HuntErrorCode>, owner: Result<(), HuntErrorCode>, activated: Hunt)
    requires creator != attacker && now > 0
    ensures missing == Err(HuntErrorCode.HuntNotFound)
    ensures noClues == Err(HuntErrorCode.NoCluesAdded)
    ensures stranger == Err(HuntErrorCode.Unauthorized)
    ensures owner == Ok(()) && activated.status == Active && activated.activated_at == now
  {
    var s := new Store();
    missing := ActivateHunt(s, 999, creator, now);
    var created := CreateHunt(s, creator, "Test Hunt", "Test description", None, now);
    var id := created.value;
    noClues := ActivateHunt(s, id, creator, now);
    s.IncrementTotalClues(id);
    stranger := ActivateHunt(s, id, attacker, now);
    owner := ActivateHunt(s, id, creator, now);
    var stored := s.GetHunt(id);
    activated := stored.value;
  }

  /** Cancelling an active hunt is final: it can be neither activated, deactivated nor cancelled again. */
  method CancellationIsFinal(creator: Address, now: nat)
    returns (cancel: Result<(), HuntErrorCode>, reactivate: Result<(), HuntErrorCode>,
             deactivate: Result<(), HuntErrorCode>, again: Result<(), HuntErrorCode>, status: HuntStatus)
    ensures cancel == Ok(()) && status == Cancelled
    ensures reactivate == Err(HuntErrorCode.InvalidHuntStatus)
    ensures deactivate == Err(HuntErrorCode.InvalidHuntStatus)
    ensures again == Err(HuntErrorCode.InvalidHuntStatus)
  {
    var s := new Store();
    var created := CreateHunt(s, creator, "Test Hunt", "Test description", None, now);
    var id := created.value;
    s.IncrementTotalClues(id);
    var _ := ActivateHunt(s, id, creator, now);
    cancel := CancelHunt(s, id, creator);
    reactivate := ActivateHunt(s, id, creator, now);
    deactivate := DeactivateHunt(s, id, creator);
    again := CancelHunt(s, id, creator);
    var stored := s.GetHunt(id);
    status := stored.value.status;
  }

  /** Saving the same clue twice lists it once. */
  method ClueListSuppressesDuplicates(huntId: nat, clue: Clue) returns (clueIds: seq<nat>, listed: seq<Clue>)
    ensures clueIds == [clue.clue_id] && listed == [clue]
  {
    var s := new Store();
    s.SaveClue(huntId, clue);
    s.SaveClue(huntId, clue);
    clueIds := s.ClueIds(huntId);
    listed := s.ListCluesForHunt(huntId);
  }

  /** Registering the same player twice lists the player once. */
  method PlayerListSuppressesDuplicates(huntId: nat, player: Address, now: nat)
    returns (playerIds: seq<Address>, players: seq<PlayerProgress>)
    ensures playerIds == [player]
    ensures players == [NewPlayerProgress(player, huntId, now)]
  {
    var s := new Store();
    var p := NewPlayerProgress(player, huntId, now);
    s.SavePlayerProgress(p);
    s.SavePlayerProgress(p);
    playerIds := s.PlayerIds(huntId);
    players := s.GetHuntPlayers(huntId);
  }

  /** Completing a clue twice counts its points once. */
  method CompletingTwiceCountsOnce(player: Address, huntId: nat, now: nat, clueId: nat, points: nat)
    returns (once: PlayerProgress, twice: PlayerProgress)
    ensures twice == once
    ensures once.completed_clues == [clueId] && once.total_score == points
  {
    var p := NewPlayerProgress(player, huntId, now);
    once := p.CompleteClue(clueId, points);
    twice := once.CompleteClue(clueId, points);
  }
}
