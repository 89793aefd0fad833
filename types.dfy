/** The domain records of a scavenger hunt: hunts, clues, rewards and player progress. */
module Types {
  import opened Wrappers
  import opened Sequences

  /** An account identity; the core only compares identities for equality. */
  datatype Address = Address(id: nat)

  /** The lifecycle states of a hunt. */
  datatype HuntStatus = Draft | Active | Completed | Cancelled

  /** The reward pool attached to a hunt (`xlm_pool` is a signed 128-bit amount). */
  datatype RewardConfig = RewardConfig(
    xlm_pool: int,
    nft_enabled: bool,
    nft_contract: Option<Address>,
    max_winners: nat,
    claimed_count: nat)
  {
    /** Each winner's share: integer division rounded toward zero, 0 when there are no winner slots. */
    function RewardPerWinner(): (share: int)
      ensures max_winners == 0 ==> share == 0
      ensures max_winners > 0 && xlm_pool >= 0 ==>
        0 <= share && share * max_winners <= xlm_pool < share * max_winners + max_winners
      ensures max_winners > 0 && xlm_pool < 0 ==>
        share <= 0 && share * max_winners - max_winners < xlm_pool <= share * max_winners
    {
      if max_winners == 0 then 0
      else TruncatedDivision(xlm_pool, max_winners)
    }

    /** The pool's invariant: no more claims than winner slots. */
    ghost predicate WellFormed()
    {
      claimed_count <= max_winners
    }
  }

  /** Signed division rounded toward zero (Rust's `/` on `i128`), unlike Dafny's Euclidean `/`. */
  function TruncatedDivision(a: int, b: nat): (q: int)
    requires b > 0
    ensures a >= 0 ==> 0 <= q && q * b <= a < q * b + b
    ensures a < 0 ==> q <= 0 && q * b - b < a <= q * b
  {
    if a >= 0 then a / b
    else
      var p := (-a) / b;
      assert p * b <= -a < p * b + b;
      assert (-p) * b == -(p * b);
      -p
  }

  /** `RewardConfig::new`: the given settings with no claims recorded yet. */
  function NewRewardConfig(xlmPool: int, nftEnabled: bool, nftContract: Option<Address>, maxWinners: nat): (c: RewardConfig)
    ensures c.claimed_count == 0 && c.WellFormed()
    ensures c.xlm_pool == xlmPool && c.nft_enabled == nftEnabled
    ensures c.nft_contract == nftContract && c.max_winners == maxWinners
  {
    RewardConfig(xlmPool, nftEnabled, nftContract, maxWinners, 0)
  }

  datatype Hunt = Hunt(
    hunt_id: nat,
    creator: Address,
    title: string,
    description: string,
    status: HuntStatus,
    created_at: nat,
    activated_at: nat,
    end_time: nat,
    reward_config: RewardConfig,
    total_clues: nat,
    required_clues: nat)
  {
    /** Playable at time `now`: active and either unbounded (`end_time == 0`) or not yet ended. */
    predicate IsActive(now: nat)
      ensures IsActive(now) ==> status == Active
    {
      status == Active && (end_time == 0 || now < end_time)
    }

    /** Some winner slot is still unclaimed. */
    predicate HasRewardsAvailable()
      ensures HasRewardsAvailable() ==> reward_config.max_winners > 0
    {
      reward_config.claimed_count < reward_config.max_winners
    }
  }

  /** A point on the map in micro-degrees, with a radius. */
  datatype Location = Location(latitude: int, longitude: int, radius: nat)

  /** `Location::default()`: the origin, with no radius. */
  function DefaultLocation(): (l: Location)
    ensures l.latitude == 0 && l.longitude == 0 && l.radius == 0
  {
    Location(0, 0, 0)
  }

  datatype Clue = Clue(
    clue_id: nat,
    question: string,
    answer_hash: string,
    points: nat,
    is_required: bool,
    hint: string,
    has_location: bool,
    location: Location)

  datatype PlayerProgress = PlayerProgress(
    player: Address,
    hunt_id: nat,
    completed_clues: seq<nat>,
    total_score: nat,
    started_at: nat,
    completed_at: nat,
    is_completed: bool,
    reward_claimed: bool)
  {
    /** Whether `clueId` has been completed: a scan that stops at the first match. */
    method HasCompletedClue(clueId: nat) returns (found: bool)
      ensures found <==> clueId in completed_clues
    {
      for i := 0 to |completed_clues|
        invariant clueId !in completed_clues[..i]
      {
        if completed_clues[i] == clueId {
          return true;
        }
      }
      return false;
    }

    /** The record after completing `clueId` worth `points`: a clue already done changes nothing. */
    function WithClue(clueId: nat, points: nat): (r: PlayerProgress)
      ensures clueId in r.completed_clues
      ensures clueId in completed_clues ==> r == this
      ensures clueId !in completed_clues ==>
        && r.completed_clues == completed_clues + [clueId]
        && r.total_score == total_score + points
      ensures r.player == player && r.hunt_id == hunt_id && r.started_at == started_at
      ensures r.completed_at == completed_at && r.is_completed == is_completed
      ensures r.reward_claimed == reward_claimed
    {
      if clueId in completed_clues then this
      else this.(completed_clues := completed_clues + [clueId], total_score := total_score + points)
    }

    /** `complete_clue`: records a completion once; the updated record is returned. */
    method CompleteClue(clueId: nat, points: nat) returns (next: PlayerProgress)
      ensures next == WithClue(clueId, points)
    {
      next := this;
      var done := HasCompletedClue(clueId);
      if !done {
        next := next.(completed_clues := next.completed_clues + [clueId]);
        next := next.(total_score := next.total_score + points);
      }
    }

    /** The progress invariant: no clue counted twice, and the score is the points of the completed clues. */
    ghost predicate WellFormed(pointsOf: nat -> nat)
    {
      NoDuplicates(completed_clues) && total_score == Score(completed_clues, pointsOf)
    }
  }

  /** The sum of the points of the given clues. */
  ghost function Score(ids: seq<nat>, pointsOf: nat -> nat): nat
  {
    if ids == [] then 0 else Score(ids[..|ids| - 1], pointsOf) + pointsOf(ids[|ids| - 1])
  }

  /** `PlayerProgress::new`: a player who has just started and completed nothing. */
  function NewPlayerProgress(player: Address, huntId: nat, currentTime: nat): (p: PlayerProgress)
    ensures p.player == player && p.hunt_id == huntId
    ensures p.completed_clues == [] && p.total_score == 0
    ensures p.started_at == currentTime && p.completed_at == 0
    ensures !p.is_completed && !p.reward_claimed
    ensures forall pointsOf: nat -> nat :: p.WellFormed(pointsOf)
  {
    PlayerProgress(player, huntId, [], 0, currentTime, 0, false, false)
  }

  // ----- Properties of the entities -----

  /** Completing the same clue again, whatever its points, is a no-op. */
  lemma CompleteClueIdempotent(p: PlayerProgress, clueId: nat, points: nat, again: nat)
    ensures p.WithClue(clueId, points).WithClue(clueId, again) == p.WithClue(clueId, points)
  {
  }

  /** Completing a clue keeps the completed list duplicate-free and its earlier entries in order. */
  lemma CompleteClueKeepsOrder(p: PlayerProgress, clueId: nat, points: nat)
    requires NoDuplicates(p.completed_clues)
    ensures NoDuplicates(p.WithClue(clueId, points).completed_clues)
    ensures var c := p.WithClue(clueId, points).completed_clues;
      |p.completed_clues| <= |c| && c[..|p.completed_clues|] == p.completed_clues
  {
    AppendUniqueKeepsNoDuplicates(p.completed_clues, clueId);
    assert p.WithClue(clueId, points).completed_clues == AppendUnique(p.completed_clues, clueId);
  }

  /** When the caller passes the clue's own points, the score stays the sum over completed clues. */
  lemma {:induction false} CompleteClueKeepsScore(p: PlayerProgress, clueId: nat, pointsOf: nat -> nat)
    requires p.WellFormed(pointsOf)
    ensures p.WithClue(clueId, pointsOf(clueId)).WellFormed(pointsOf)
  {
    CompleteClueKeepsOrder(p, clueId, pointsOf(clueId));
    if clueId !in p.completed_clues {
      var c := p.completed_clues + [clueId];
      assert c[..|c| - 1] == p.completed_clues;
      assert Score(c, pointsOf) == Score(p.completed_clues, pointsOf) + pointsOf(clueId);
    }
  }

  /** A hunt that is not active at some time stays inactive at every later time. */
  lemma InactiveStaysInactive(h: Hunt, now: nat, later: nat)
    requires !h.IsActive(now) && now <= later
    ensures !h.IsActive(later)
  {
  }

  /** With a well-formed pool, rewards run out exactly when every winner slot has been claimed. */
  lemma RewardsExhausted(h: Hunt)
    requires h.reward_config.WellFormed()
    ensures !h.HasRewardsAvailable() <==> h.reward_config.claimed_count == h.reward_config.max_winners
  {
  }

  /** The rounding policy on the example pool: 10000 over 3 winners gives 3333, over none gives 0. */
  lemma RewardPerWinnerExamples()
    ensures NewRewardConfig(10000, false, None, 3).RewardPerWinner() == 3333
    ensures NewRewardConfig(10000, false, None, 0).RewardPerWinner() == 0
    ensures NewRewardConfig(-10000, false, None, 3).RewardPerWinner() == -3333
  {
  }
}
