/** The indexed store: hunts by ID, clues by (hunt, clue), progress by (hunt, player), two per-hunt
    enumeration lists and the hunt-ID counter. */
module Storage {
  import opened Wrappers
  import opened Sequences
  import opened Types
  import opened Errors

  /** The stored value under `key`, if any. */
  function Find<K, V>(m: map<K, V>, key: K): (r: Option<V>)
    ensures r.Some? <==> key in m
    ensures r.Some? ==> r.value == m[key]
  {
    if key in m then Some(m[key]) else None
  }

  /** The records stored for `ids` under `hunt`, in list order, skipping IDs that have none. */
  function Gather<I(==), V>(hunt: nat, ids: seq<I>, records: map<(nat, I), V>): (r: seq<V>)
    ensures |r| <= |ids|
  {
    if ids == [] then []
    else
      var init := Gather(hunt, ids[..|ids| - 1], records);
      var key := (hunt, ids[|ids| - 1]);
      if key in records then init + [records[key]] else init
  }

  /** One more ID gathered: its record, if any, goes at the end. */
  lemma GatherStep<I, V>(hunt: nat, ids: seq<I>, records: map<(nat, I), V>, i: nat)
    requires i < |ids|
    ensures Gather(hunt, ids[..i + 1], records) ==
      if (hunt, ids[i]) in records then Gather(hunt, ids[..i], records) + [records[(hunt, ids[i])]]
      else Gather(hunt, ids[..i], records)
  {
    assert ids[..i + 1][..i] == ids[..i];
  }

  /** When every listed ID has a record, the result holds exactly one record per ID, in list order. */
  lemma {:induction false} GatherComplete<I, V>(hunt: nat, ids: seq<I>, records: map<(nat, I), V>)
    requires forall i :: 0 <= i < |ids| ==> (hunt, ids[i]) in records
    ensures |Gather(hunt, ids, records)| == |ids|
    ensures forall i :: 0 <= i < |ids| ==> Gather(hunt, ids, records)[i] == records[(hunt, ids[i])]
  {
    if ids != [] {
      GatherComplete(hunt, ids[..|ids| - 1], records);
    }
  }

  /** Every record gathered is a stored record of one of the listed IDs. */
  lemma {:induction false} GatherSound<I, V>(hunt: nat, ids: seq<I>, records: map<(nat, I), V>, k: nat)
    requires k < |Gather(hunt, ids, records)|
    ensures exists i :: 0 <= i < |ids| && (hunt, ids[i]) in records && Gather(hunt, ids, records)[k] == records[(hunt, ids[i])]
  {
    var init := Gather(hunt, ids[..|ids| - 1], records);
    if k < |init| {
      GatherSound(hunt, ids[..|ids| - 1], records, k);
      var i :| 0 <= i < |ids| - 1 && (hunt, ids[..|ids| - 1][i]) in records && init[k] == records[(hunt, ids[..|ids| - 1][i])];
      assert ids[..|ids| - 1][i] == ids[i];
    } else {
      assert Gather(hunt, ids, records)[k] == records[(hunt, ids[|ids| - 1])];
    }
  }

  /** The list stored for `hunt`; an absent list reads as empty. */
  function ListOf<I>(lists: map<nat, seq<I>>, hunt: nat): seq<I>
  {
    if hunt in lists then lists[hunt] else []
  }

  /** An enumeration index kept in step with its records: every list is duplicate-free, and a record is
      stored under (hunt, id) exactly when `id` is listed for `hunt`. */
  ghost predicate Indexed<I, V>(records: map<(nat, I), V>, lists: map<nat, seq<I>>)
  {
    && (forall k :: k in records ==> k.1 in ListOf(lists, k.0))
    && (forall h :: h in lists ==> NoDuplicates(lists[h]))
    && (forall h, x :: h in lists && x in lists[h] ==> (h, x) in records)
  }

  /** Saving a record and appending its ID unless present keeps the index in step. */
  lemma IndexedAfterSave<I, V>(records: map<(nat, I), V>, lists: map<nat, seq<I>>, hunt: nat, id: I, v: V)
    requires Indexed(records, lists)
    ensures Indexed(records[(hunt, id) := v], lists[hunt := AppendUnique(ListOf(lists, hunt), id)])
  {
    SavedRecordsListed(records, lists, hunt, id, v);
    SavedListsDistinct(lists, hunt, id);
    SavedListsStored(records, lists, hunt, id, v);
  }

  lemma SavedRecordsListed<I, V>(records: map<(nat, I), V>, lists: map<nat, seq<I>>, hunt: nat, id: I, v: V)
    requires forall k :: k in records ==> k.1 in ListOf(lists, k.0)
    ensures var records', lists' := records[(hunt, id) := v], lists[hunt := AppendUnique(ListOf(lists, hunt), id)];
      forall k :: k in records' ==> k.1 in ListOf(lists', k.0)
  {
    var records', lists' := records[(hunt, id) := v], lists[hunt := AppendUnique(ListOf(lists, hunt), id)];
    forall k | k in records' ensures k.1 in ListOf(lists', k.0) {
      if k != (hunt, id) {
        assert k in records;
      }
    }
  }

  lemma SavedListsDistinct<I>(lists: map<nat, seq<I>>, hunt: nat, id: I)
    requires forall h :: h in lists ==> NoDuplicates(lists[h])
    ensures var lists' := lists[hunt := AppendUnique(ListOf(lists, hunt), id)];
      forall h :: h in lists' ==> NoDuplicates(lists'[h])
  {
    AppendUniqueKeepsNoDuplicates(ListOf(lists, hunt), id);
  }

  lemma SavedListsStored<I, V>(records: map<(nat, I), V>, lists: map<nat, seq<I>>, hunt: nat, id: I, v: V)
    requires forall h, x :: h in lists && x in lists[h] ==> (h, x) in records
    ensures var records', lists' := records[(hunt, id) := v], lists[hunt := AppendUnique(ListOf(lists, hunt), id)];
      forall h, x :: h in lists' && x in lists'[h] ==> (h, x) in records'
  {
    var records', lists' := records[(hunt, id) := v], lists[hunt := AppendUnique(ListOf(lists, hunt), id)];
    forall h, x | h in lists' && x in lists'[h] ensures (h, x) in records' {
      if h == hunt && x != id {
        assert x in ListOf(lists, hunt);
      }
    }
  }

  /** Clues sit under their own IDs and the clue lists index them. */
  ghost predicate CluesConsistent(clues: map<(nat, nat), Clue>, lists: map<nat, seq<nat>>)
  {
    (forall k :: k in clues ==> clues[k].clue_id == k.1) && Indexed(clues, lists)
  }

  /** Progress records sit under their own (hunt, player) keys and the player lists index them. */
  ghost predicate PlayersConsistent(progress: map<(nat, Address), PlayerProgress>, lists: map<nat, seq<Address>>)
  {
    (forall k :: k in progress ==> progress[k].hunt_id == k.0 && progress[k].player == k.1)
    && Indexed(progress, lists)
  }

  /** Saving a clue under its own ID and listing the ID unless present keeps the clues consistent. */
  lemma SaveKeepsCluesConsistent(clues: map<(nat, nat), Clue>, lists: map<nat, seq<nat>>, huntId: nat, clue: Clue)
    requires CluesConsistent(clues, lists)
    ensures CluesConsistent(clues[(huntId, clue.clue_id) := clue],
                            lists[huntId := AppendUnique(ListOf(lists, huntId), clue.clue_id)])
    ensures Occurrences(AppendUnique(ListOf(lists, huntId), clue.clue_id), clue.clue_id) == 1
  {
    IndexedAfterSave(clues, lists, huntId, clue.clue_id, clue);
    AppendUniqueKeepsNoDuplicates(ListOf(lists, huntId), clue.clue_id);
    OccursOnce(AppendUnique(ListOf(lists, huntId), clue.clue_id), clue.clue_id);
    var clues' := clues[(huntId, clue.clue_id) := clue];
    forall k | k in clues' ensures clues'[k].clue_id == k.1 {
      if k != (huntId, clue.clue_id) {
        assert k in clues;
      }
    }
  }

  /** Saving a player's progress under its own key and listing the player unless present keeps the
      progress records consistent. */
  lemma SaveKeepsPlayersConsistent(progress: map<(nat, Address), PlayerProgress>, lists: map<nat, seq<Address>>,
                                   p: PlayerProgress)
    requires PlayersConsistent(progress, lists)
    ensures PlayersConsistent(progress[(p.hunt_id, p.player) := p],
                              lists[p.hunt_id := AppendUnique(ListOf(lists, p.hunt_id), p.player)])
    ensures Occurrences(AppendUnique(ListOf(lists, p.hunt_id), p.player), p.player) == 1
  {
    IndexedAfterSave(progress, lists, p.hunt_id, p.player, p);
    AppendUniqueKeepsNoDuplicates(ListOf(lists, p.hunt_id), p.player);
    OccursOnce(AppendUnique(ListOf(lists, p.hunt_id), p.player), p.player);
    var progress' := progress[(p.hunt_id, p.player) := p];
    forall k | k in progress' ensures progress'[k].hunt_id == k.0 && progress'[k].player == k.1 {
      if k != (p.hunt_id, p.player) {
        assert k in progress;
      }
    }
  }

  /** The duplicate scan over a stored list: whether `item` is already in `items`. */
  method Scan<T(==)>(items: seq<T>, item: T) returns (found: bool)
    ensures found <==> item in items
  {
    found := false;
    for i := 0 to |items|
      invariant !found && item !in items[..i]
    {
      if items[i] == item {
        found := true;
        break;
      }
    }
  }

  class Store {
    var hunts: map<nat, Hunt>
    var clues: map<(nat, nat), Clue>
    var progress: map<(nat, Address), PlayerProgress>
    var clueLists: map<nat, seq<nat>>
    var playerLists: map<nat, seq<Address>>
    var counter: nat

    /** The clue IDs listed for a hunt; an absent list reads as empty. */
    function ClueIds(huntId: nat): (ids: seq<nat>)
      reads this`clueLists
      ensures huntId !in clueLists ==> ids == []
    {
      ListOf(clueLists, huntId)
    }

    /** The player addresses listed for a hunt; an absent list reads as empty. */
    function PlayerIds(huntId: nat): (ids: seq<Address>)
      reads this`playerLists
      ensures huntId !in playerLists ==> ids == []
    {
      ListOf(playerLists, huntId)
    }

    /** Every hunt is stored under its own ID. */
    ghost predicate HuntsKeyed()
      reads this`hunts
    {
      forall id :: id in hunts ==> hunts[id].hunt_id == id
    }

    /** `CluesConsistent` of this store's clue fields, framed by those two fields alone. */
    ghost predicate CluesIndexed()
      reads this`clues, this`clueLists
    {
      CluesConsistent(clues, clueLists)
    }

    /** `PlayersConsistent` of this store's progress fields, framed by those two fields alone. */
    ghost predicate PlayersIndexed()
      reads this`progress, this`playerLists
    {
      PlayersConsistent(progress, playerLists)
    }

    ghost predicate Valid()
      reads this
    {
      HuntsKeyed() && CluesIndexed() && PlayersIndexed()
    }

    constructor ()
      ensures Valid()
      ensures hunts == map[] && clues == map[] && progress == map[]
      ensures clueLists == map[] && playerLists == map[] && counter == 0
    {
      hunts, clues, progress := map[], map[], map[];
      clueLists, playerLists := map[], map[];
      counter := 0;
    }

    // ----- Hunts -----

    method SaveHunt(hunt: Hunt)
      requires Valid()
      modifies this
      ensures Valid()
      ensures hunts == old(hunts)[hunt.hunt_id := hunt]
      ensures clues == old(clues) && progress == old(progress)
      ensures clueLists == old(clueLists) && playerLists == old(playerLists) && counter == old(counter)
    {
      hunts := hunts[hunt.hunt_id := hunt];
    }

    method GetHunt(huntId: nat) returns (r: Option<Hunt>)
      requires Valid()
      ensures r.Some? <==> huntId in hunts
      ensures r.Some? ==> r.value == hunts[huntId] && r.value.hunt_id == huntId
    {
      r := Find(hunts, huntId);
    }

    method GetHuntOrError(huntId: nat) returns (r: Result<Hunt, HuntError>)
      requires Valid()
      ensures r.Err? <==> huntId !in hunts
      ensures r.Err? ==> r.error == HuntError.HuntNotFound(huntId)
      ensures r.Ok? ==> r.value == hunts[huntId]
    {
      var stored := GetHunt(huntId);
      r := OkOr(stored, HuntError.HuntNotFound(huntId));
    }

    /** The hunt's clue counter raised by one, for an existing hunt; nothing happens otherwise. */
    method IncrementTotalClues(huntId: nat)
      requires Valid()
      modifies this
      ensures Valid()
      ensures huntId in old(hunts) ==>
        hunts == old(hunts)[huntId := old(hunts)[huntId].(total_clues := old(hunts)[huntId].total_clues + 1)]
      ensures huntId !in old(hunts) ==> hunts == old(hunts)
      ensures clues == old(clues) && progress == old(progress)
      ensures clueLists == old(clueLists) && playerLists == old(playerLists) && counter == old(counter)
    {
      var stored := GetHunt(huntId);
      if stored.Some? {
        var hunt := stored.value;
        SaveHunt(hunt.(total_clues := hunt.total_clues + 1));
      }
    }

    // ----- Clues -----

    method SaveClue(huntId: nat, clue: Clue)
      requires Valid()
      modifies this
      ensures Valid()
      ensures clues == old(clues)[(huntId, clue.clue_id) := clue]
      ensures clueLists == old(clueLists)[huntId := AppendUnique(old(ClueIds(huntId)), clue.clue_id)]
      ensures Occurrences(ClueIds(huntId), clue.clue_id) == 1
      ensures hunts == old(hunts) && progress == old(progress)
      ensures playerLists == old(playerLists) && counter == old(counter)
    {
      SaveKeepsCluesConsistent(clues, clueLists, huntId, clue);
      clues := clues[(huntId, clue.clue_id) := clue];
      AddClueToList(huntId, clue.clue_id);
    }

    /** Appends `clueId` to the hunt's list when it is not there yet; otherwise writes nothing. */
    method AddClueToList(huntId: nat, clueId: nat)
      modifies this
      ensures clueLists == old(clueLists)[huntId := AppendUnique(old(ClueIds(huntId)), clueId)]
      ensures clueId in old(ClueIds(huntId)) ==> clueLists == old(clueLists)
      ensures hunts == old(hunts) && clues == old(clues) && progress == old(progress)
      ensures playerLists == old(playerLists) && counter == old(counter)
    {
      var ids := ClueIds(huntId);
      var found := Scan(ids, clueId);
      if !found {
        clueLists := clueLists[huntId := ids + [clueId]];
      } else {
        assert clueLists == clueLists[huntId := ids];
      }
    }

    method GetClue(huntId: nat, clueId: nat) returns (r: Option<Clue>)
      requires Valid()
      ensures r.Some? <==> (huntId, clueId) in clues
      ensures r.Some? ==> r.value == clues[(huntId, clueId)] && r.value.clue_id == clueId
      ensures r.Some? <==> clueId in ClueIds(huntId)
    {
      r := Find(clues, (huntId, clueId));
    }

    method GetClueOrError(huntId: nat, clueId: nat) returns (r: Result<Clue, HuntError>)
      requires Valid()
      ensures r.Err? <==> (huntId, clueId) !in clues
      ensures r.Err? ==> r.error == HuntError.ClueNotFound(huntId)
      ensures r.Ok? ==> r.value == clues[(huntId, clueId)]
    {
      var stored := GetClue(huntId, clueId);
      r := OkOr(stored, HuntError.ClueNotFound(huntId));
    }

    /** The hunt's clues in the order their IDs were first saved. */
    method ListCluesForHunt(huntId: nat) returns (r: seq<Clue>)
      requires Valid()
      ensures r == Gather(huntId, ClueIds(huntId), clues)
      ensures |r| == |ClueIds(huntId)|
      ensures forall i :: 0 <= i < |r| ==> r[i] == clues[(huntId, ClueIds(huntId)[i])]
    {
      var ids := ClueIds(huntId);
      r := [];
      for i := 0 to |ids|
        invariant r == Gather(huntId, ids[..i], clues)
      {
        GatherStep(huntId, ids, clues, i);
        var stored := GetClue(huntId, ids[i]);
        if stored.Some? {
          r := r + [stored.value];
        }
      }
      assert ids[..|ids|] == ids;
      GatherComplete(huntId, ids, clues);
    }

    // ----- Player progress -----

    method SavePlayerProgress(p: PlayerProgress)
      requires Valid()
      modifies this
      ensures Valid()
      ensures progress == old(progress)[(p.hunt_id, p.player) := p]
      ensures playerLists == old(playerLists)[p.hunt_id := AppendUnique(old(PlayerIds(p.hunt_id)), p.player)]
      ensures Occurrences(PlayerIds(p.hunt_id), p.player) == 1
      ensures hunts == old(hunts) && clues == old(clues)
      ensures clueLists == old(clueLists) && counter == old(counter)
    {
      SaveKeepsPlayersConsistent(progress, playerLists, p);
      progress := progress[(p.hunt_id, p.player) := p];
      AddPlayerToList(p.hunt_id, p.player);
    }

    /** Appends `player` to the hunt's list when it is not there yet; otherwise writes nothing. */
    method AddPlayerToList(huntId: nat, player: Address)
      modifies this
      ensures playerLists == old(playerLists)[huntId := AppendUnique(old(PlayerIds(huntId)), player)]
      ensures player in old(PlayerIds(huntId)) ==> playerLists == old(playerLists)
      ensures hunts == old(hunts) && clues == old(clues) && progress == old(progress)
      ensures clueLists == old(clueLists) && counter == old(counter)
    {
      var players := PlayerIds(huntId);
      var found := Scan(players, player);
      if !found {
        playerLists := playerLists[huntId := players + [player]];
      } else {
        assert playerLists == playerLists[huntId := players];
      }
    }

    method GetPlayerProgress(huntId: nat, player: Address) returns (r: Option<PlayerProgress>)
      requires Valid()
      ensures r.Some? <==> (huntId, player) in progress
      ensures r.Some? ==> r.value == progress[(huntId, player)]
      ensures r.Some? ==> r.value.hunt_id == huntId && r.value.player == player
      ensures r.Some? <==> player in PlayerIds(huntId)
    {
      r := Find(progress, (huntId, player));
    }

    method GetPlayerProgressOrError(huntId: nat, player: Address) returns (r: Result<PlayerProgress, HuntError>)
      requires Valid()
      ensures r.Err? <==> (huntId, player) !in progress
      ensures r.Err? ==> r.error == HuntError.PlayerNotRegistered(huntId)
      ensures r.Ok? ==> r.value == progress[(huntId, player)]
    {
      var stored := GetPlayerProgress(huntId, player);
      r := OkOr(stored, HuntError.PlayerNotRegistered(huntId));
    }

    /** The progress of every registered player, in registration order. */
    method GetHuntPlayers(huntId: nat) returns (r: seq<PlayerProgress>)
      requires Valid()
      ensures r == Gather(huntId, PlayerIds(huntId), progress)
      ensures |r| == |PlayerIds(huntId)|
      ensures forall i :: 0 <= i < |r| ==> r[i] == progress[(huntId, PlayerIds(huntId)[i])]
    {
      var players := PlayerIds(huntId);
      r := [];
      for i := 0 to |players|
        invariant r == Gather(huntId, players[..i], progress)
      {
        GatherStep(huntId, players, progress, i);
        var stored := GetPlayerProgress(huntId, players[i]);
        if stored.Some? {
          r := r + [stored.value];
        }
      }
      assert players[..|players|] == players;
      GatherComplete(huntId, players, progress);
    }

    // ----- The hunt counter -----

    /** Read-increment-write of the counter; the new value is the ID handed out. */
    method NextHuntId() returns (id: nat)
      requires Valid()
      modifies this
      ensures Valid()
      ensures id == old(counter) + 1 && counter == id
      ensures hunts == old(hunts) && clues == old(clues) && progress == old(progress)
      ensures clueLists == old(clueLists) && playerLists == old(playerLists)
    {
      var current := counter;
      id := current + 1;
      counter := id;
    }

    /** The number of hunt IDs handed out so far, read without changing anything. */
    method GetHuntCounter() returns (c: nat)
      requires Valid()
      ensures c == counter
    {
      c := counter;
    }
  }

  /** In a consistent store a hunt's clue list names exactly its stored clues, each once. */
  lemma ClueIdsIndexClues(s: Store, huntId: nat)
    requires s.Valid()
    ensures NoDuplicates(s.ClueIds(huntId))
    ensures forall id :: id in s.ClueIds(huntId) <==> (huntId, id) in s.clues
  {
    forall id | (huntId, id) in s.clues ensures id in s.ClueIds(huntId) {
      assert (huntId, id).1 in ListOf(s.clueLists, (huntId, id).0);
    }
  }

  /** In a consistent store a hunt's player list names exactly its registered players, each once. */
  lemma PlayerIdsIndexPlayers(s: Store, huntId: nat)
    requires s.Valid()
    ensures NoDuplicates(s.PlayerIds(huntId))
    ensures forall a :: a in s.PlayerIds(huntId) <==> (huntId, a) in s.progress
  {
    forall a | (huntId, a) in s.progress ensures a in s.PlayerIds(huntId) {
      assert (huntId, a).1 in ListOf(s.playerLists, (huntId, a).0);
    }
  }

  /** A fresh store has handed out no IDs and lists nothing. */
  method FreshStoreIsEmpty(huntId: nat) returns (count: nat, listed: seq<Clue>, players: seq<PlayerProgress>)
    ensures count == 0 && listed == [] && players == []
  {
    var s := new Store();
    count := s.GetHuntCounter();
    listed := s.ListCluesForHunt(huntId);
    players := s.GetHuntPlayers(huntId);
  }
}
