/** The hunt lifecycle controller: creation, activation, deactivation and cancellation over the store.
    The caller's identity and the ledger time are passed in as `caller` and `now`. */
module HuntyCore {
  import opened Wrappers
  import opened Types
  import opened Errors
  import opened Storage

  const MAX_TITLE_LENGTH: nat := 200
  const MAX_DESCRIPTION_LENGTH: nat := 2000

  // ----- Creation -----

  /** The validation failure of a creation request, checked title first, if any. */
  function InputError(title: string, description: string): (e: Option<HuntErrorCode>)
    ensures e == Some(HuntErrorCode.InvalidTitle) <==> |title| == 0 || |title| > MAX_TITLE_LENGTH
    ensures e == Some(HuntErrorCode.InvalidDescription) <==>
      0 < |title| <= MAX_TITLE_LENGTH && |description| > MAX_DESCRIPTION_LENGTH
    ensures e == None <==> 0 < |title| <= MAX_TITLE_LENGTH && |description| <= MAX_DESCRIPTION_LENGTH
    ensures e != Some(HuntErrorCode.InvalidAddress)
  {
    if |title| == 0 then Some(HuntErrorCode.InvalidTitle)
    else if |title| > MAX_TITLE_LENGTH then Some(HuntErrorCode.InvalidTitle)
    else if |description| > MAX_DESCRIPTION_LENGTH then Some(HuntErrorCode.InvalidDescription)
    else None
  }

  /** The hunt a successful creation stores: a draft with no clues, no activation and an empty pool. */
  function NewHunt(huntId: nat, creator: Address, title: string, description: string, now: nat, endTime: Option<nat>): (h: Hunt)
    ensures h.hunt_id == huntId && h.creator == creator
    ensures h.title == title && h.description == description
    ensures h.status == Draft && h.created_at == now && h.activated_at == 0
    ensures h.end_time == (if endTime.Some? then endTime.value else 0)
    ensures h.total_clues == 0 && h.required_clues == 0
    ensures h.reward_config == RewardConfig(0, false, None, 0, 0)
    ensures forall t :: !h.IsActive(t)
    ensures !h.HasRewardsAvailable()
  {
    Hunt(huntId, creator, title, description, Draft, now, 0,
         match endTime case Some(t) => t case None => 0,
         NewRewardConfig(0, false, None, 0), 0, 0)
  }

  /** IDs handed out so far are exactly 1..counter, each naming a stored hunt. */
  ghost predicate GaplessIds(s: Store)
    reads s
  {
    forall id: nat :: id in s.hunts <==> 1 <= id <= s.counter
  }

  /** Nothing but the hunt records and the counter differ from the prior state. */
  twostate predicate IndicesUnchanged(s: Store)
    reads s
  {
    && s.clues == old(s.clues) && s.progress == old(s.progress)
    && s.clueLists == old(s.clueLists) && s.playerLists == old(s.playerLists)
  }

  /** `create_hunt`: validates the text lengths, then takes the next ID and stores a new draft. */
  method CreateHunt(s: Store, creator: Address, title: string, description: string, endTime: Option<nat>, now: nat)
    returns (r: Result<nat, HuntErrorCode>)
    requires s.Valid()
    modifies s
    ensures s.Valid()
    ensures r.Ok? <==> InputError(title, description) == None
    ensures r.Err? ==> Some(r.error) == InputError(title, description) && unchanged(s)
    ensures r.Ok? ==>
      && r.value == old(s.counter) + 1 && s.counter == r.value
      && s.hunts == old(s.hunts)[r.value := NewHunt(r.value, creator, title, description, now, endTime)]
      && IndicesUnchanged(s)
    ensures old(GaplessIds(s)) ==> GaplessIds(s)
    ensures old(GaplessIds(s)) && r.Ok? ==> r.value !in old(s.hunts)
  {
    var titleLength := |title|;
    if titleLength == 0 {
      return Err(HuntErrorCode.InvalidTitle);
    }
    if titleLength > MAX_TITLE_LENGTH {
      return Err(HuntErrorCode.InvalidTitle);
    }
    if |description| > MAX_DESCRIPTION_LENGTH {
      return Err(HuntErrorCode.InvalidDescription);
    }
    var currentTime := now;
    var huntId := s.NextHuntId();
    var rewardConfig := NewRewardConfig(0, false, None, 0);
    var hunt := Hunt(huntId, creator, title, description, Draft, currentTime, 0,
                     match endTime case Some(t) => t case None => 0,
                     rewardConfig, 0, 0);
    s.SaveHunt(hunt);
    r := Ok(huntId);
  }

  // ----- Status transitions, as functions of the stored hunt -----

  /** The outcome of `activate_hunt` on the stored hunt: checks existence, then the caller, then the status,
      then the clue count. */
  function Activation(stored: Option<Hunt>, caller: Address, now: nat): (r: Result<Hunt, HuntErrorCode>)
    ensures r.Ok? <==>
      stored.Some? && caller == stored.value.creator && stored.value.status == Draft && stored.value.total_clues > 0
    ensures r.Ok? ==> r.value == stored.value.(status := Active, activated_at := now)
  {
    if stored.None? then Err(HuntErrorCode.HuntNotFound)
    else
      var hunt := stored.value;
      if caller != hunt.creator then Err(HuntErrorCode.Unauthorized)
      else if hunt.status != Draft then Err(HuntErrorCode.InvalidHuntStatus)
      else if hunt.total_clues == 0 then Err(HuntErrorCode.NoCluesAdded)
      else Ok(hunt.(status := Active, activated_at := now))
  }

  /** The outcome of `deactivate_hunt`: an active hunt returns to draft, keeping its activation time. */
  function Deactivation(stored: Option<Hunt>, caller: Address): (r: Result<Hunt, HuntErrorCode>)
    ensures r.Ok? <==> stored.Some? && caller == stored.value.creator && stored.value.status == Active
    ensures r.Ok? ==> r.value == stored.value.(status := Draft)
  {
    if stored.None? then Err(HuntErrorCode.HuntNotFound)
    else
      var hunt := stored.value;
      if caller != hunt.creator then Err(HuntErrorCode.Unauthorized)
      else if hunt.status != Active then Err(HuntErrorCode.InvalidHuntStatus)
      else Ok(hunt.(status := Draft))
  }

  /** The outcome of `cancel_hunt`: a draft or active hunt becomes cancelled. */
  function Cancellation(stored: Option<Hunt>, caller: Address): (r: Result<Hunt, HuntErrorCode>)
    ensures r.Ok? <==>
      stored.Some? && caller == stored.value.creator && (stored.value.status == Draft || stored.value.status == Active)
    ensures r.Ok? ==> r.value == stored.value.(status := Cancelled)
  {
    if stored.None? then Err(HuntErrorCode.HuntNotFound)
    else
      var hunt := stored.value;
      if caller != hunt.creator then Err(HuntErrorCode.Unauthorized)
      else if hunt.status == Completed then Err(HuntErrorCode.InvalidHuntStatus)
      else if hunt.status == Cancelled then Err(HuntErrorCode.InvalidHuntStatus)
      else assert hunt.status.Draft? || hunt.status.Active?; Ok(hunt.(status := Cancelled))
  }

  // ----- The operations over the store -----

  /** `activate_hunt`: on success the hunt is saved once, active from `now`; on failure nothing is written. */
  method ActivateHunt(s: Store, huntId: nat, caller: Address, now: nat) returns (r: Result<(), HuntErrorCode>)
    requires s.Valid()
    modifies s
    ensures s.Valid()
    ensures r == Discard(Activation(Find(old(s.hunts), huntId), caller, now))
    ensures r.Ok? ==>
      s.hunts == old(s.hunts)[huntId := Activation(Find(old(s.hunts), huntId), caller, now).value]
      && s.counter == old(s.counter) && IndicesUnchanged(s)
    ensures r.Err? ==> unchanged(s)
    ensures old(GaplessIds(s)) ==> GaplessIds(s)
  {
    var stored := s.GetHunt(huntId);
    if stored.None? {
      return Err(HuntErrorCode.HuntNotFound);
    }
    var hunt := stored.value;
    if caller != hunt.creator {
      return Err(HuntErrorCode.Unauthorized);
    }
    if hunt.status != Draft {
      return Err(HuntErrorCode.InvalidHuntStatus);
    }
    if hunt.total_clues == 0 {
      return Err(HuntErrorCode.NoCluesAdded);
    }
    var currentTime := now;
    hunt := hunt.(status := Active, activated_at := currentTime);
    s.SaveHunt(hunt);
    r := Ok(());
  }

  /** `deactivate_hunt`: on success the hunt is saved once as a draft; on failure nothing is written. */
  method DeactivateHunt(s: Store, huntId: nat, caller: Address) returns (r: Result<(), HuntErrorCode>)
    requires s.Valid()
    modifies s
    ensures s.Valid()
    ensures r == Discard(Deactivation(Find(old(s.hunts), huntId), caller))
    ensures r.Ok? ==>
      s.hunts == old(s.hunts)[huntId := Deactivation(Find(old(s.hunts), huntId), caller).value]
      && s.counter == old(s.counter) && IndicesUnchanged(s)
    ensures r.Err? ==> unchanged(s)
    ensures old(GaplessIds(s)) ==> GaplessIds(s)
  {
    var stored := s.GetHunt(huntId);
    if stored.None? {
      return Err(HuntErrorCode.HuntNotFound);
    }
    var hunt := stored.value;
    if caller != hunt.creator {
      return Err(HuntErrorCode.Unauthorized);
    }
    if hunt.status != Active {
      return Err(HuntErrorCode.InvalidHuntStatus);
    }
    hunt := hunt.(status := Draft);
    s.SaveHunt(hunt);
    r := Ok(());
  }

  /** `cancel_hunt`: on success the hunt is saved once as cancelled; on failure nothing is written. */
  method CancelHunt(s: Store, huntId: nat, caller: Address) returns (r: Result<(), HuntErrorCode>)
    requires s.Valid()
    modifies s
    ensures s.Valid()
    ensures r == Discard(Cancellation(Find(old(s.hunts), huntId), caller))
    ensures r.Ok? ==>
      s.hunts == old(s.hunts)[huntId := Cancellation(Find(old(s.hunts), huntId), caller).value]
      && s.counter == old(s.counter) && IndicesUnchanged(s)
    ensures r.Err? ==> unchanged(s)
    ensures old(GaplessIds(s)) ==> GaplessIds(s)
  {
    var stored := s.GetHunt(huntId);
    if stored.None? {
      return Err(HuntErrorCode.HuntNotFound);
    }
    var hunt := stored.value;
    if caller != hunt.creator {
      return Err(HuntErrorCode.Unauthorized);
    }
    if hunt.status == Completed {
      return Err(HuntErrorCode.InvalidHuntStatus);
    }
    if hunt.status == Cancelled {
      return Err(HuntErrorCode.InvalidHuntStatus);
    }
    hunt := hunt.(status := Cancelled);
    s.SaveHunt(hunt);
    r := Ok(());
  }

  // ----- Properties of the lifecycle -----

  /** Lengths at the bounds are accepted; one past them is refused with the matching code. */
  lemma InputBounds(title: string, description: string)
    ensures |title| == MAX_TITLE_LENGTH && |description| <= MAX_DESCRIPTION_LENGTH ==> InputError(title, description) == None
    ensures 0 < |title| <= MAX_TITLE_LENGTH && |description| == MAX_DESCRIPTION_LENGTH ==> InputError(title, description) == None
    ensures |title| == MAX_TITLE_LENGTH + 1 ==> InputError(title, description) == Some(HuntErrorCode.InvalidTitle)
    ensures 0 < |title| <= MAX_TITLE_LENGTH && |description| == MAX_DESCRIPTION_LENGTH + 1 ==>
      InputError(title, description) == Some(HuntErrorCode.InvalidDescription)
  {
  }

  /** Activation reports the most fundamental problem first. */
  lemma ActivationCheckOrder(stored: Option<Hunt>, caller: Address, now: nat)
    ensures Activation(stored, caller, now) == Err(HuntErrorCode.HuntNotFound) <==> stored.None?
    ensures Activation(stored, caller, now) == Err(HuntErrorCode.Unauthorized) <==>
      stored.Some? && caller != stored.value.creator
    ensures Activation(stored, caller, now) == Err(HuntErrorCode.InvalidHuntStatus) <==>
      stored.Some? && caller == stored.value.creator && stored.value.status != Draft
    ensures Activation(stored, caller, now) == Err(HuntErrorCode.NoCluesAdded) <==>
      stored.Some? && caller == stored.value.creator && stored.value.status == Draft && stored.value.total_clues == 0
  {
  }

  /** Deactivation and cancellation check existence, then the caller, then the status. */
  lemma DeactivationAndCancellationCheckOrder(stored: Option<Hunt>, caller: Address)
    ensures Deactivation(stored, caller) == Err(HuntErrorCode.HuntNotFound) <==> stored.None?
    ensures Cancellation(stored, caller) == Err(HuntErrorCode.HuntNotFound) <==> stored.None?
    ensures Deactivation(stored, caller) == Err(HuntErrorCode.Unauthorized) <==>
      stored.Some? && caller != stored.value.creator
    ensures Cancellation(stored, caller) == Err(HuntErrorCode.Unauthorized) <==>
      stored.Some? && caller != stored.value.creator
    ensures Deactivation(stored, caller) == Err(HuntErrorCode.InvalidHuntStatus) <==>
      stored.Some? && caller == stored.value.creator && stored.value.status != Active
    ensures Cancellation(stored, caller) == Err(HuntErrorCode.InvalidHuntStatus) <==>
      stored.Some? && caller == stored.value.creator && (stored.value.status == Completed || stored.value.status == Cancelled)
  {
  }

  /** The status moves allowed by the state machine. */
  predicate Edge(from: HuntStatus, to: HuntStatus)
  {
    || (from == Draft && to == Active)
    || (from == Active && to == Draft)
    || (from == Draft && to == Cancelled)
    || (from == Active && to == Cancelled)
  }

  /** Every successful transition follows an edge, is made by the creator, and changes only the status
      (and, for activation, the activation time). */
  lemma TransitionsFollowStateMachine(h: Hunt, caller: Address, now: nat)
    ensures Activation(Some(h), caller, now).Ok? ==>
      var n := Activation(Some(h), caller, now).value;
      Edge(h.status, n.status) && caller == h.creator && n.(status := h.status, activated_at := h.activated_at) == h
    ensures Deactivation(Some(h), caller).Ok? ==>
      var n := Deactivation(Some(h), caller).value;
      Edge(h.status, n.status) && caller == h.creator && n.(status := h.status) == h
    ensures Cancellation(Some(h), caller).Ok? ==>
      var n := Cancellation(Some(h), caller).value;
      Edge(h.status, n.status) && caller == h.creator && n.(status := h.status) == h
  {
  }

  /** Completed and cancelled hunts are final: no transition succeeds on them, for any caller. */
  lemma TerminalStatesAreFinal(h: Hunt, caller: Address, now: nat)
    requires h.status == Completed || h.status == Cancelled
    ensures Activation(Some(h), caller, now).Err? && Deactivation(Some(h), caller).Err?
    ensures Cancellation(Some(h), caller).Err?
    ensures caller == h.creator ==>
      && Activation(Some(h), caller, now) == Err(HuntErrorCode.InvalidHuntStatus)
      && Deactivation(Some(h), caller) == Err(HuntErrorCode.InvalidHuntStatus)
      && Cancellation(Some(h), caller) == Err(HuntErrorCode.InvalidHuntStatus)
  {
  }

  /** After a cancellation, activating or deactivating the hunt fails with `InvalidHuntStatus`. */
  lemma CancelledHuntStaysCancelled(h: Hunt, now: nat)
    requires Cancellation(Some(h), h.creator).Ok?
    ensures var c := Cancellation(Some(h), h.creator).value;
      && Activation(Some(c), h.creator, now) == Err(HuntErrorCode.InvalidHuntStatus)
      && Deactivation(Some(c), h.creator) == Err(HuntErrorCode.InvalidHuntStatus)
      && Cancellation(Some(c), h.creator) == Err(HuntErrorCode.InvalidHuntStatus)
  {
  }

  /** Deactivating keeps the activation time, and the hunt can be activated again without new clues. */
  lemma DeactivateThenReactivate(h: Hunt, first: nat, second: nat)
    requires Activation(Some(h), h.creator, first).Ok?
    ensures var a := Activation(Some(h), h.creator, first).value;
      && Deactivation(Some(a), h.creator).Ok?
      && Deactivation(Some(a), h.creator).value.activated_at == first
      && Activation(Some(Deactivation(Some(a), h.creator).value), h.creator, second).Ok?
  {
  }

  /** A hunt is never `Completed` by these operations: only a hunt already completed is. */
  lemma NoTransitionCompletes(h: Hunt, caller: Address, now: nat)
    ensures Activation(Some(h), caller, now).Ok? ==> Activation(Some(h), caller, now).value.status != Completed
    ensures Deactivation(Some(h), caller).Ok? ==> Deactivation(Some(h), caller).value.status != Completed
    ensures Cancellation(Some(h), caller).Ok? ==> Cancellation(Some(h), caller).value.status != Completed
  {
  }

  /** A freshly activated hunt is playable at the activation time unless its end time has already come. */
  lemma ActivatedHuntIsPlayable(h: Hunt, caller: Address, now: nat)
    requires Activation(Some(h), caller, now).Ok?
    ensures Activation(Some(h), caller, now).value.IsActive(now) <==> (h.end_time == 0 || now < h.end_time)
  {
  }

  /** A deactivated or cancelled hunt is not playable at any time. */
  lemma StoppedHuntIsNotPlayable(h: Hunt, caller: Address, t: nat)
    ensures Deactivation(Some(h), caller).Ok? ==> !Deactivation(Some(h), caller).value.IsActive(t)
    ensures Cancellation(Some(h), caller).Ok? ==> !Cancellation(Some(h), caller).value.IsActive(t)
  {
  }

  /** No transition touches the reward pool, so none changes whether rewards are available. */
  lemma TransitionsKeepRewards(h: Hunt, caller: Address, now: nat)
    ensures Activation(Some(h), caller, now).Ok? ==>
      Activation(Some(h), caller, now).value.HasRewardsAvailable() == h.HasRewardsAvailable()
    ensures Deactivation(Some(h), caller).Ok? ==>
      Deactivation(Some(h), caller).value.HasRewardsAvailable() == h.HasRewardsAvailable()
    ensures Cancellation(Some(h), caller).Ok? ==>
      Cancellation(Some(h), caller).value.HasRewardsAvailable() == h.HasRewardsAvailable()
  {
  }
}
