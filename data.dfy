/** The player point cache of package net.utory.rankpoint.data: the
    per-player record PlayerData with its three guarded mutators, and
    PlayerDataManager, which loads each player's record at most once at a
    time, queues the callers that arrive while a load is in flight, and
    hands the changed balances to the database in one batch. */
module Data {
  import opened Wrappers
  import opened JavaInt

  /** java.util.UUID; the cache only compares identities. */
  datatype Uuid = Uuid(mostSigBits: int, leastSigBits: int)

  /** A Consumer<PlayerData> handed to usePlayerData. What it does when it
      is run is the caller's business; the model records that it was run. */
  datatype Consumer = Consumer(id: nat)

  /** What PlayerData.update() reads from its collaborators: the lookups of
      GroupConfig, the two "maximum rank" labels of Message, and whether
      Bukkit.getPlayer(uuid) finds the player online. */
  datatype RankEnv = RankEnv(
    findGroup: Int32 -> int,
    groupName: int -> string,
    prettyPoint: Int32 -> int,
    totalPoint: int -> int,
    needPoint: (int, Int32) -> int,
    rankMaxTotalPoint: string,
    rankMaxNeedPoint: string,
    isOnline: Uuid -> bool)

  /** Done, or the IllegalArgumentException a mutator throws before changing anything. */
  datatype Status = Done | IllegalArgument

  /** What a mutator does to a balance: store a new point value, or throw. */
  datatype Change = Changed(point: Int32) | Rejected

  /** setPoint: refuses a negative value, otherwise overwrites. */
  function SetPointChange(cur: Int32, v: Int32): (r: Change)
    ensures r.Rejected? <==> v < 0
    ensures r.Changed? ==> 0 <= r.point && r.point == v
  {
    if v < 0 then Rejected else Changed(v)
  }

  /** addPoint: refuses a negative amount; Math.addExact's overflow is caught
      and ignored, so an overflowing sum keeps the old balance. */
  function AddPointChange(cur: Int32, v: Int32): (r: Change)
    ensures r.Rejected? <==> v < 0
    ensures r.Changed? && InRange(cur + v) ==> r.point == cur + v
    ensures r.Changed? && !InRange(cur + v) ==> r.point == cur
    ensures r.Changed? && 0 <= cur ==> 0 <= r.point
  {
    if v < 0 then Rejected
    else
      match AddExact(cur, v)
      case Some(sum) => Changed(sum)
      case None => Changed(cur)
  }

  /** removePoint: the guard `this.point - point < 0` and the update
      `this.point -= point` both use wrapping `int` subtraction. */
  function RemovePointChange(cur: Int32, v: Int32): (r: Change)
    ensures r.Changed? ==> 0 <= r.point
    ensures r.Changed? <==> 0 <= Wrap(cur - v)
    ensures r.Changed? ==> r.point == Wrap(cur - v)
    ensures 0 <= cur && 0 <= v ==> (r.Changed? <==> v <= cur)
    ensures 0 <= cur && 0 <= v && r.Changed? ==> r.point == cur - v
  {
    var d := Wrap(cur - v);
    if d < 0 then Rejected else Changed(d)
  }

  /** Adding then removing the same amount restores the balance, as long as
      the addition did not overflow. */
  lemma AddThenRemove(cur: Int32, v: Int32)
    requires 0 <= cur && 0 <= v && InRange(cur + v)
    ensures AddPointChange(cur, v).Changed?
    ensures RemovePointChange(AddPointChange(cur, v).point, v) == Changed(cur)
  {
  }

  /** When the addition overflows, the balance that addPoint left untouched
      is then reduced by removePoint: the two are not inverse there. */
  lemma AddThenRemoveAfterOverflow()
    ensures AddPointChange(MAX_VALUE, 1) == Changed(MAX_VALUE)
    ensures RemovePointChange(MAX_VALUE, 1) == Changed(MAX_VALUE - 1)
  {
  }

  /** `tmp == -1 ? maxLabel : tmp + ""` in update(). */
  function Label(tmp: int, maxLabel: string): (r: string)
    ensures tmp == -1 ==> r == maxLabel
    ensures tmp != -1 ==> IsNumeral(r) && ParseInt(r) == if InRange(tmp) then Some(tmp) else None
  {
    ParseIntOfToString(tmp);
    if tmp == -1 then maxLabel else ToString(tmp)
  }

  /** As long as the configured label is not itself a numeral, a label is the
      "maximum rank" text exactly when GroupConfig answered -1. */
  lemma LabelIsMaxExactly(tmp: int, maxLabel: string)
    requires !IsNumeral(maxLabel)
    ensures Label(tmp, maxLabel) == maxLabel <==> tmp == -1
  {
  }

  /** Two labels that are both numbers are equal only for equal numbers. */
  lemma LabelDeterminesValue(m: int, n: int, maxLabel: string)
    requires m != -1 && n != -1
    requires Label(m, maxLabel) == Label(n, maxLabel)
    ensures m == n
  {
    ToStringInjective(m, n);
  }

  /** The groups update() passes to GroupConfig.updatePlayerRank: the new
      group, when it is a real group (not -1), differs from the previous one
      and the player is online. */
  function RankHook(oldGroup: int, newGroup: int, online: bool): (r: seq<int>)
    ensures |r| <= 1
    ensures r != [] <==> newGroup != -1 && oldGroup != newGroup && online
    ensures r != [] ==> r[0] == newGroup
  {
    if newGroup != -1 && oldGroup != newGroup && online then [newGroup] else []
  }

  /** net.utory.rankpoint.data.PlayerDataManager.PlayerData. */
  class PlayerData {
    const uuid: Uuid
    var point: Int32
    var group: int
    var displayGroupName: string
    var prettyPoint: int
    var totalPoint: string
    var needPoint: string
    var isChanged: bool
    /** The groups announced through GroupConfig.updatePlayerRank, in order. */
    ghost var rankUpdates: seq<int>

    /** The fields update() derives from point, as env computes them. */
    ghost predicate Derived(env: RankEnv)
      reads this
    {
      && group == env.findGroup(point)
      && displayGroupName == env.groupName(group)
      && prettyPoint == env.prettyPoint(point)
      && totalPoint == Label(env.totalPoint(group), env.rankMaxTotalPoint)
      && needPoint == Label(env.needPoint(group, point), env.rankMaxNeedPoint)
    }

    /** new PlayerData(uuid, point): group starts at -1 and update() runs once,
        so a player loaded into a real group is announced. */
    constructor (uuid: Uuid, point: Int32, env: RankEnv)
      ensures this.uuid == uuid && this.point == point && !isChanged
      ensures Derived(env)
      ensures rankUpdates == RankHook(-1, group, env.isOnline(uuid))
    {
      this.uuid := uuid;
      this.point := point;
      group := -1;
      displayGroupName, prettyPoint, totalPoint, needPoint := "", 0, "", "";
      isChanged := false;
      rankUpdates := [];
      new;
      Update(env);
    }

    /** update(): recompute the derived fields from point and fire the rank
        hook when the group changed to a real one. */
    method Update(env: RankEnv)
      modifies this
      ensures point == old(point) && isChanged == old(isChanged)
      ensures Derived(env)
      ensures rankUpdates == old(rankUpdates) + RankHook(old(group), group, env.isOnline(uuid))
    {
      var oldGroup := group;
      group := env.findGroup(point);
      displayGroupName := env.groupName(group);
      prettyPoint := env.prettyPoint(point);
      var tmp := env.totalPoint(group);
      totalPoint := if tmp == -1 then env.rankMaxTotalPoint else ToString(tmp);
      tmp := env.needPoint(group, point);
      needPoint := if tmp == -1 then env.rankMaxNeedPoint else ToString(tmp);
      if group != -1 && oldGroup != group {
        if env.isOnline(uuid) {
          rankUpdates := rankUpdates + [group];
        }
      }
    }

    /** The final step shared by the three mutators: store, mark, update(). */
    method Commit(p: Int32, env: RankEnv)
      modifies this
      ensures point == p && isChanged && Derived(env)
      ensures rankUpdates == old(rankUpdates) + RankHook(old(group), group, env.isOnline(uuid))
    {
      point := p;
      isChanged := true;
      Update(env);
    }

    method SetPoint(v: Int32, env: RankEnv) returns (status: Status)
      modifies this
      ensures status == IllegalArgument <==> SetPointChange(old(point), v).Rejected?
      ensures status == IllegalArgument ==> unchanged(this)
      ensures status == Done ==> point == SetPointChange(old(point), v).point && isChanged && Derived(env)
      ensures status == Done ==> rankUpdates == old(rankUpdates) + RankHook(old(group), group, env.isOnline(uuid))
    {
      if v < 0 {
        return IllegalArgument;
      }
      Commit(v, env);
      status := Done;
    }

    method AddPoint(v: Int32, env: RankEnv) returns (status: Status)
      modifies this
      ensures status == IllegalArgument <==> AddPointChange(old(point), v).Rejected?
      ensures status == IllegalArgument ==> unchanged(this)
      ensures status == Done ==> point == AddPointChange(old(point), v).point && isChanged && Derived(env)
      ensures status == Done ==> rankUpdates == old(rankUpdates) + RankHook(old(group), group, env.isOnline(uuid))
    {
      if v < 0 {
        return IllegalArgument;
      }
      var sum := AddExact(point, v);
      var p := if sum.Some? then sum.value else point;
      Commit(p, env);
      status := Done;
    }

    method RemovePoint(v: Int32, env: RankEnv) returns (status: Status)
      modifies this
      ensures status == IllegalArgument <==> RemovePointChange(old(point), v).Rejected?
      ensures status == IllegalArgument ==> unchanged(this)
      ensures status == Done ==> point == RemovePointChange(old(point), v).point && isChanged && Derived(env)
      ensures status == Done ==> rankUpdates == old(rankUpdates) + RankHook(old(group), group, env.isOnline(uuid))
    {
      if Wrap(point - v) < 0 {
        return IllegalArgument;
      }
      Commit(Wrap(point - v), env);
      status := Done;
    }
  }

  /** The calls of a drained waiter list: each consumer, in order, with pd. */
  function Deliveries(waiters: seq<Consumer>, pd: PlayerData): (r: seq<(Consumer, PlayerData)>)
    ensures |r| == |waiters|
    ensures forall k :: 0 <= k < |r| ==> r[k] == (waiters[k], pd)
  {
    seq(|waiters|, k requires 0 <= k < |waiters| => (waiters[k], pd))
  }

  /** The loads allPlayerDataLoad starts for players, when the uuids in known
      are already cached or loading: each new uuid once, in first-seen order. */
  function FreshLoads(players: seq<Uuid>, known: set<Uuid>): seq<Uuid> {
    if players == [] then []
    else if players[0] in known then FreshLoads(players[1..], known)
    else [players[0]] + FreshLoads(players[1..], known + {players[0]})
  }

  /** A started load is for a player in the list that was neither cached nor
      loading, and every such player gets one. */
  lemma {:induction false} FreshLoadsExactly(players: seq<Uuid>, known: set<Uuid>)
    ensures forall u :: u in FreshLoads(players, known) <==> u in players && u !in known
  {
    if players != [] {
      var p := players[0];
      if p in known {
        FreshLoadsExactly(players[1..], known);
      } else {
        FreshLoadsExactly(players[1..], known + {p});
        forall u | u in players && u !in known
          ensures u in FreshLoads(players, known)
        {
          if u != p {
            assert u in players[1..];
          }
        }
      }
    }
  }

  /** No uuid is loaded twice by one warm-up. */
  lemma {:induction false} FreshLoadsDistinct(players: seq<Uuid>, known: set<Uuid>)
    ensures forall i, j :: 0 <= i < j < |FreshLoads(players, known)| ==>
      FreshLoads(players, known)[i] != FreshLoads(players, known)[j]
  {
    if players != [] {
      var p := players[0];
      if p in known {
        FreshLoadsDistinct(players[1..], known);
      } else {
        FreshLoadsDistinct(players[1..], known + {p});
        FreshLoadsExactly(players[1..], known + {p});
      }
    }
  }

  /** An empty waiter list for each uuid of s. */
  function EmptyQueues(s: seq<Uuid>): (m: map<Uuid, seq<Consumer>>)
    ensures m.Keys == set u | u in s
    ensures forall u :: u in m ==> m[u] == []
  {
    map u | u in s :: []
  }

  /** The waiter lists allPlayerDataLoad leaves behind, starting from pending
      with the uuids in cached already cached. */
  function WarmUpTasks(players: seq<Uuid>, cached: set<Uuid>, pending: map<Uuid, seq<Consumer>>): map<Uuid, seq<Consumer>> {
    if players == [] then pending
    else if players[0] in cached || players[0] in pending then WarmUpTasks(players[1..], cached, pending)
    else WarmUpTasks(players[1..], cached, pending[players[0] := []])
  }

  /** The warm-up registers an empty waiter list for each fresh load and leaves the rest alone. */
  lemma {:induction false} WarmUpTasksExactly(players: seq<Uuid>, cached: set<Uuid>, pending: map<Uuid, seq<Consumer>>)
    ensures WarmUpTasks(players, cached, pending) == pending + EmptyQueues(FreshLoads(players, cached + pending.Keys))
  {
    if players != [] {
      var p := players[0];
      if p in cached || p in pending {
        WarmUpTasksExactly(players[1..], cached, pending);
      } else {
        var next := pending[p := []];
        WarmUpTasksExactly(players[1..], cached, next);
        assert cached + next.Keys == cached + pending.Keys + {p};
        var rest := FreshLoads(players[1..], cached + next.Keys);
        assert next + EmptyQueues(rest) == pending + EmptyQueues([p] + rest);
      }
    }
  }

  /** A call the cache makes on DatabaseManager. */
  datatype DbCall = LoadPoint(uuid: Uuid) | SavePoint(points: map<Uuid, Int32>) | CloseDatabase

  /** The loadPoint calls for us, in order. */
  function LoadCalls(us: seq<Uuid>): seq<DbCall> {
    if us == [] then [] else [LoadPoint(us[0])] + LoadCalls(us[1..])
  }

  /** One step of a warm-up, as database calls: the first player is loaded
      unless known, and the rest follow. */
  lemma FreshLoadCallsStep(players: seq<Uuid>, known: set<Uuid>)
    requires players != []
    ensures var p := players[0];
      LoadCalls(FreshLoads(players, known)) ==
        if p in known then LoadCalls(FreshLoads(players[1..], known))
        else [LoadPoint(p)] + LoadCalls(FreshLoads(players[1..], known + {p}))
  {
    var p := players[0];
    if p !in known {
      var rest := FreshLoads(players[1..], known + {p});
      assert ([p] + rest)[1..] == rest;
    }
  }

  /** The savePoint call for a batch, or none when the batch is empty. */
  function SaveCalls(batch: map<Uuid, Int32>): seq<DbCall> {
    if batch == map[] then [] else [SavePoint(batch)]
  }

  /** net.utory.rankpoint.data.PlayerDataManager. The database manager is
      seen only through what the cache asks of it: the one log of its
      loadPoint, savePoint and closeDatabase calls, and the loads not yet
      answered. */
  class PlayerDataManager {
    var playerDataMap: map<Uuid, PlayerData>
    var loadingTask: map<Uuid, seq<Consumer>>
    /** The consumer.accept calls made so far, in order. */
    ghost var accepted: seq<(Consumer, PlayerData)>
    /** The DatabaseManager calls made so far, in order. */
    ghost var dbCalls: seq<DbCall>
    /** The uuids whose loadPoint call has not yet called back. */
    ghost var inFlight: set<Uuid>

    /** A uuid is cached or loading, never both; exactly the loading uuids
        have one load in flight; each record is filed under its own uuid. */
    ghost predicate Valid()
      reads this
    {
      && playerDataMap.Keys !! loadingTask.Keys
      && inFlight == loadingTask.Keys
      && forall u :: u in playerDataMap ==> playerDataMap[u].uuid == u
    }

    /** The batch a save sends: every cached record with isChanged, mapped to its point. */
    ghost function DirtyBatch(): map<Uuid, Int32>
      reads this, playerDataMap.Values
    {
      map u | u in playerDataMap && playerDataMap[u].isChanged :: playerDataMap[u].point
    }

    constructor ()
      ensures Valid()
      ensures playerDataMap == map[] && loadingTask == map[]
      ensures accepted == [] && dbCalls == [] && inFlight == {}
    {
      playerDataMap, loadingTask := map[], map[];
      accepted, dbCalls, inFlight := [], [], {};
    }

    /** loadPlayerData: start a load unless the uuid is cached or already loading. */
    method LoadPlayerData(uuid: Uuid)
      requires Valid()
      modifies this`loadingTask, this`dbCalls, this`inFlight
      ensures Valid()
      ensures var known := uuid in old(playerDataMap) || uuid in old(loadingTask);
        && loadingTask == (if known then old(loadingTask) else old(loadingTask)[uuid := []])
        && dbCalls == old(dbCalls) + (if known then [] else [LoadPoint(uuid)])
        && inFlight == (if known then old(inFlight) else old(inFlight) + {uuid})
      ensures dbCalls != old(dbCalls) ==> uuid !in old(inFlight)
    {
      if uuid in playerDataMap || uuid in loadingTask {
        return;
      }
      loadingTask := loadingTask[uuid := []];
      dbCalls := dbCalls + [LoadPoint(uuid)];
      inFlight := inFlight + {uuid};
    }

    /** The loadPoint callback, run later on the main thread with the loaded
        value i: cache a new record, drop the waiter list and run every
        waiter, in the order they queued, on that same record. */
    method CompleteLoad(uuid: Uuid, i: Int32, env: RankEnv) returns (pd: PlayerData)
      requires Valid()
      requires uuid in inFlight
      modifies this`playerDataMap, this`loadingTask, this`inFlight, this`accepted
      ensures Valid()
      ensures fresh(pd) && pd.uuid == uuid && pd.point == i && !pd.isChanged && pd.Derived(env)
      ensures pd.rankUpdates == RankHook(-1, pd.group, env.isOnline(uuid))
      ensures playerDataMap == old(playerDataMap)[uuid := pd]
      ensures uuid !in old(playerDataMap)
      ensures loadingTask == old(loadingTask) - {uuid}
      ensures inFlight == old(inFlight) - {uuid}
      ensures accepted == old(accepted) + Deliveries(old(loadingTask)[uuid], pd)
    {
      assert uuid in loadingTask && uuid !in playerDataMap;
      pd := new PlayerData(uuid, i, env);
      playerDataMap := playerDataMap[uuid := pd];
      var waiters := loadingTask[uuid];
      loadingTask := loadingTask - {uuid};
      inFlight := inFlight - {uuid};
      Drain(waiters, pd);
    }

    /** The `for` loop of the load callback: run each waiter, in order, on pd. */
    method Drain(waiters: seq<Consumer>, pd: PlayerData)
      modifies this`accepted
      ensures accepted == old(accepted) + Deliveries(waiters, pd)
    {
      var k := 0;
      while k < |waiters|
        invariant 0 <= k <= |waiters|
        invariant accepted == old(accepted) + Deliveries(waiters[..k], pd)
      {
        accepted := accepted + [(waiters[k], pd)];
        k := k + 1;
        assert Deliveries(waiters[..k], pd) == Deliveries(waiters[..k - 1], pd) + [(waiters[k - 1], pd)];
      }
      assert waiters[..k] == waiters;
    }

    /** usePlayerData: run the consumer now on a cached record, or queue it
        behind the load in flight, or start a load and queue it. The
        RuntimeException branch is unreachable. */
    method UsePlayerData(uuid: Uuid, consumer: Consumer)
      requires Valid()
      modifies this`loadingTask, this`dbCalls, this`inFlight, this`accepted
      ensures Valid()
      ensures playerDataMap == old(playerDataMap)
      ensures uuid in old(playerDataMap) ==>
        && accepted == old(accepted) + [(consumer, old(playerDataMap)[uuid])]
        && loadingTask == old(loadingTask) && dbCalls == old(dbCalls) && inFlight == old(inFlight)
      ensures uuid !in old(playerDataMap) && uuid in old(loadingTask) ==>
        && loadingTask == old(loadingTask)[uuid := old(loadingTask)[uuid] + [consumer]]
        && accepted == old(accepted) && dbCalls == old(dbCalls) && inFlight == old(inFlight)
      ensures uuid !in old(playerDataMap) && uuid !in old(loadingTask) ==>
        && loadingTask == old(loadingTask)[uuid := [consumer]]
        && dbCalls == old(dbCalls) + [LoadPoint(uuid)]
        && inFlight == old(inFlight) + {uuid}
        && accepted == old(accepted)
    {
      if uuid in playerDataMap {
        accepted := accepted + [(consumer, playerDataMap[uuid])];
        return;
      }
      if uuid in loadingTask {
        loadingTask := loadingTask[uuid := loadingTask[uuid] + [consumer]];
        return;
      }
      LoadPlayerData(uuid);
      if uuid in loadingTask {
        assert loadingTask[uuid] + [consumer] == [consumer];
        loadingTask := loadingTask[uuid := loadingTask[uuid] + [consumer]];
      } else {
        // Neither `else` branch of usePlayerData (lines 60-63) can run: the
        // load just registered uuid.
        assert false;
      }
    }

    /** getPlayerDataOrNull. */
    function GetPlayerDataOrNull(uuid: Uuid): (r: PlayerData?)
      reads this
      ensures r != null <==> uuid in playerDataMap
      ensures r != null ==> r == playerDataMap[uuid]
    {
      if uuid in playerDataMap then playerDataMap[uuid] else null
    }

    /** The loop that builds a save batch, over a snapshot of the cache. */
    method CollectDirty() returns (batch: map<Uuid, Int32>)
      ensures batch == DirtyBatch()
    {
      batch := map[];
      var todo := playerDataMap.Keys;
      while todo != {}
        invariant todo <= playerDataMap.Keys
        invariant batch == map u | u in playerDataMap.Keys - todo && playerDataMap[u].isChanged :: playerDataMap[u].point
        decreases todo
      {
        var u :| u in todo;
        var pd := playerDataMap[u];
        if pd.isChanged {
          batch := batch[u := pd.point];
        }
        todo := todo - {u};
      }
    }

    /** saveAllData: one savePoint call with the dirty batch, none when the
        batch is empty. No map and no isChanged flag changes. */
    method SaveAllData()
      requires Valid()
      modifies this`dbCalls
      ensures Valid()
      ensures dbCalls == old(dbCalls) + SaveCalls(old(DirtyBatch()))
    {
      if playerDataMap == map[] {
        return;
      }
      var points := CollectDirty();
      if points != map[] {
        dbCalls := dbCalls + [SavePoint(points)];
      }
    }

    /** unloadAllData: take the dirty batch, empty the cache, then save the
        batch if it is not empty. Loads in flight are left alone. */
    method UnloadAllData()
      requires Valid()
      modifies this`playerDataMap, this`dbCalls
      ensures Valid()
      ensures playerDataMap == map[]
      ensures dbCalls == old(dbCalls) + SaveCalls(old(DirtyBatch()))
    {
      if playerDataMap == map[] {
        return;
      }
      var willSaveData := CollectDirty();
      playerDataMap := map[];
      if willSaveData == map[] {
        return;
      }
      dbCalls := dbCalls + [SavePoint(willSaveData)];
    }

    /** close: unload everything, saving the dirty batch, and only then
        close the database. */
    method Close()
      requires Valid()
      modifies this`playerDataMap, this`dbCalls
      ensures Valid()
      ensures playerDataMap == map[]
      ensures dbCalls == old(dbCalls) + SaveCalls(old(DirtyBatch())) + [CloseDatabase]
    {
      UnloadAllData();
      dbCalls := dbCalls + [CloseDatabase];
    }

    /** allPlayerDataLoad: loadPlayerData for every online player. */
    method AllPlayerDataLoad(players: seq<Uuid>)
      requires Valid()
      modifies this`loadingTask, this`dbCalls, this`inFlight
      ensures Valid()
      ensures dbCalls == old(dbCalls) + LoadCalls(FreshLoads(players, old(playerDataMap.Keys + loadingTask.Keys)))
      ensures loadingTask == old(loadingTask) + EmptyQueues(FreshLoads(players, old(playerDataMap.Keys + loadingTask.Keys)))
    {
      WarmUpTasksExactly(players, playerDataMap.Keys, loadingTask);
      for i := 0 to |players|
        invariant Valid()
        invariant WarmUpTasks(players[i..], playerDataMap.Keys, loadingTask) == WarmUpTasks(players, playerDataMap.Keys, old(loadingTask))
        invariant dbCalls + LoadCalls(FreshLoads(players[i..], playerDataMap.Keys + loadingTask.Keys))
          == old(dbCalls) + LoadCalls(FreshLoads(players, playerDataMap.Keys + old(loadingTask).Keys))
      {
        assert players[i..][1..] == players[i + 1..];
        WarmUpStep(players[i..]);
      }
      assert players[|players|..] == [];
    }

    /** One turn of the allPlayerDataLoad loop, on the players still to visit:
        it moves the first of them from the warm-up still to come to the
        waiter lists and database calls already made. */
    method WarmUpStep(players: seq<Uuid>)
      requires Valid() && players != []
      modifies this`loadingTask, this`dbCalls, this`inFlight
      ensures Valid()
      ensures WarmUpTasks(players[1..], playerDataMap.Keys, loadingTask)
        == WarmUpTasks(players, playerDataMap.Keys, old(loadingTask))
      ensures dbCalls + LoadCalls(FreshLoads(players[1..], playerDataMap.Keys + loadingTask.Keys))
        == old(dbCalls) + LoadCalls(FreshLoads(players, playerDataMap.Keys + old(loadingTask).Keys))
    {
      var p := players[0];
      FreshLoadCallsStep(players, playerDataMap.Keys + loadingTask.Keys);
      LoadPlayerData(p);
      if p !in playerDataMap && p !in old(loadingTask) {
        assert playerDataMap.Keys + loadingTask.Keys == playerDataMap.Keys + old(loadingTask).Keys + {p};
        ghost var rest := LoadCalls(FreshLoads(players[1..], playerDataMap.Keys + loadingTask.Keys));
        assert old(dbCalls) + ([LoadPoint(p)] + rest) == dbCalls + rest;
      }
    }
  }
}
