/** The keys of a gateway user: three statuses, a quota set by the rate, and what happens when the rate changes. */
module KeyQuota {
  import opened Bytes

  datatype Status = Disabled | Enabled | Revoked

  /** A key; server tells whether its server is loaded, mapped whether its protocol has options. */
  datatype Key = Key(id: nat, status: Status, server: bool, mapped: bool)

  datatype Outcome = Success | Forbidden | Unavailable | Error | Threw

  function Count(keys: seq<Key>, status: Status): nat
    decreases |keys|
  {
    if keys == [] then 0 else Count(keys[..|keys| - 1], status) + if keys[|keys| - 1].status == status then 1 else 0
  }

  ghost predicate WithinQuota(keys: seq<Key>, maxKeys: int)
  {
    Count(keys, Enabled) <= Max(maxKeys, 0)
  }

  // ---- What a change of rate means ----

  /** Every enabled key after the first few is revoked. */
  function Downgraded(keys: seq<Key>, maxKeys: int): seq<Key>
    decreases |keys|
  {
    if keys == [] then []
    else
      var n := |keys| - 1;
      Downgraded(keys[..n], maxKeys) +
      [if keys[n].status.Enabled? && Count(keys[..n], Enabled) >= maxKeys then keys[n].(status := Revoked) else keys[n]]
  }

  /** Some chosen key has no server, so that the loop stopped with an exception. */
  predicate Blocked(keys: seq<Key>, room: int)
    decreases |keys|
  {
    keys != [] &&
    var n := |keys| - 1;
    Blocked(keys[..n], room) || (keys[n].status.Revoked? && Count(keys[..n], Revoked) < room && !keys[n].server)
  }

  /** As many of the first revoked keys as there is room for are enabled again, where the node accepts them. */
  function Upgraded(keys: seq<Key>, room: int, accepted: set<nat>): seq<Key>
    decreases |keys|
  {
    if keys == [] then []
    else
      var n := |keys| - 1;
      var chosen := keys[n].status.Revoked? && Count(keys[..n], Revoked) < room && !Blocked(keys[..n], room);
      Upgraded(keys[..n], room, accepted) +
      [if chosen && keys[n].server && keys[n].mapped && keys[n].id in accepted then keys[n].(status := Enabled) else keys[n]]
  }

  function Rated(keys: seq<Key>, maxKeys: int, accepted: set<nat>): seq<Key>
  {
    var active := Count(keys, Enabled);
    if active >= maxKeys then Downgraded(keys, maxKeys) else Upgraded(keys, maxKeys - active, accepted)
  }

  // ---- The positions a query over the keys visits ----

  /** The positions of the keys with a status, in order. */
  function Positions(keys: seq<Key>, status: Status): seq<nat>
    decreases |keys|
  {
    if keys == [] then []
    else
      var n := |keys| - 1;
      if keys[n].status == status then Positions(keys[..n], status) + [n] else Positions(keys[..n], status)
  }

  lemma {:induction false} PositionsCount(keys: seq<Key>, status: Status)
    ensures |Positions(keys, status)| == Count(keys, status)
    decreases |keys|
  {
    if keys != [] {
      PositionsCount(keys[..|keys| - 1], status);
    }
  }

  /** The m-th position holds the m-th key with the status. */
  lemma {:induction false} PositionRank(keys: seq<Key>, status: Status, m: nat)
    requires m < |Positions(keys, status)|
    ensures var i := Positions(keys, status)[m];
            i < |keys| && keys[i].status == status && Count(keys[..i], status) == m
    decreases |keys|
  {
    var n := |keys| - 1;
    PositionsCount(keys[..n], status);
    if m < |Positions(keys[..n], status)| {
      PositionRank(keys[..n], status, m);
      assert keys[..n][..Positions(keys, status)[m]] == keys[..Positions(keys, status)[m]];
    }
  }

  lemma {:induction false} RankPosition(keys: seq<Key>, status: Status, i: nat)
    requires i < |keys| && keys[i].status == status
    ensures var m := Count(keys[..i], status); m < |Positions(keys, status)| && Positions(keys, status)[m] == i
    decreases |keys|
  {
    var n := |keys| - 1;
    PositionsCount(keys[..n], status);
    if i < n {
      RankPosition(keys[..n], status, i);
      assert keys[..n][..i] == keys[..i];
    }
  }

  lemma {:induction false} DowngradedAt(keys: seq<Key>, maxKeys: int, i: nat)
    requires i < |keys|
    ensures |Downgraded(keys, maxKeys)| == |keys|
    ensures Downgraded(keys, maxKeys)[i] ==
            if keys[i].status.Enabled? && Count(keys[..i], Enabled) >= maxKeys then keys[i].(status := Revoked) else keys[i]
    decreases |keys|
  {
    var n := |keys| - 1;
    if n > 0 {
      DowngradedAt(keys[..n], maxKeys, if i < n then i else 0);
      assert i < n ==> keys[..n][..i] == keys[..i];
    }
  }

  lemma {:induction false} UpgradedAt(keys: seq<Key>, room: int, accepted: set<nat>, i: nat)
    requires i < |keys|
    ensures |Upgraded(keys, room, accepted)| == |keys|
    ensures Upgraded(keys, room, accepted)[i] ==
            var chosen := keys[i].status.Revoked? && Count(keys[..i], Revoked) < room && !Blocked(keys[..i], room);
            if chosen && keys[i].server && keys[i].mapped && keys[i].id in accepted then keys[i].(status := Enabled) else keys[i]
    decreases |keys|
  {
    var n := |keys| - 1;
    if n > 0 {
      UpgradedAt(keys[..n], room, accepted, if i < n then i else 0);
      assert i < n ==> keys[..n][..i] == keys[..i];
    }
  }

  // ---- The quota ----

  lemma {:induction false} CountSnoc(keys: seq<Key>, key: Key, status: Status)
    ensures Count(keys + [key], status) == Count(keys, status) + if key.status == status then 1 else 0
  {
    assert (keys + [key])[..|keys|] == keys;
  }

  lemma {:induction false} CountConcat(a: seq<Key>, b: seq<Key>, status: Status)
    ensures Count(a + b, status) == Count(a, status) + Count(b, status)
    decreases |b|
  {
    if b == [] {
      assert a + b == a;
    } else {
      var n := |b| - 1;
      CountConcat(a, b[..n], status);
      assert (a + b)[..|a + b| - 1] == a + b[..n];
    }
  }

  lemma {:induction false} CountWith(keys: seq<Key>, i: nat, key: Key, status: Status)
    requires i < |keys|
    ensures Count(keys[i := key], status) ==
            Count(keys, status) - (if keys[i].status == status then 1 else 0) + (if key.status == status then 1 else 0)
    ensures Count(keys[..i] + keys[i + 1..], status) == Count(keys, status) - if keys[i].status == status then 1 else 0
  {
    assert keys == keys[..i] + [keys[i]] + keys[i + 1..] && keys[i := key] == keys[..i] + [key] + keys[i + 1..];
    CountSnoc(keys[..i], keys[i], status);
    CountSnoc(keys[..i], key, status);
    CountConcat(keys[..i] + [keys[i]], keys[i + 1..], status);
    CountConcat(keys[..i] + [key], keys[i + 1..], status);
    CountConcat(keys[..i], keys[i + 1..], status);
  }

  lemma {:induction false} CountAtMost(keys: seq<Key>, status: Status)
    ensures Count(keys, status) <= |keys|
    decreases |keys|
  {
    if keys != [] {
      CountAtMost(keys[..|keys| - 1], status);
    }
  }

  lemma {:induction false} DowngradedCount(keys: seq<Key>, maxKeys: int)
    ensures Count(Downgraded(keys, maxKeys), Enabled) == Min(Count(keys, Enabled), Max(maxKeys, 0))
    ensures Count(Downgraded(keys, maxKeys), Revoked) ==
            Count(keys, Revoked) + Count(keys, Enabled) - Min(Count(keys, Enabled), Max(maxKeys, 0))
    decreases |keys|
  {
    if keys != [] {
      var n := |keys| - 1;
      DowngradedCount(keys[..n], maxKeys);
      var rest := Downgraded(keys[..n], maxKeys);
      assert Downgraded(keys, maxKeys)[..|rest|] == rest;
    }
  }

  lemma {:induction false} UpgradedCount(keys: seq<Key>, room: nat, accepted: set<nat>)
    ensures Count(keys, Enabled) <= Count(Upgraded(keys, room, accepted), Enabled)
         <= Count(keys, Enabled) + Min(Count(keys, Revoked), room)
    decreases |keys|
  {
    if keys != [] {
      var n := |keys| - 1;
      UpgradedCount(keys[..n], room, accepted);
      var rest := Upgraded(keys[..n], room, accepted);
      assert Upgraded(keys, room, accepted)[..|rest|] == rest;
    }
  }

  /** A change of rate brings any user within the new quota, whatever went on before and whatever the nodes answer. */
  lemma {:induction false} RatedWithinQuota(keys: seq<Key>, maxKeys: int, accepted: set<nat>)
    ensures WithinQuota(Rated(keys, maxKeys, accepted), maxKeys)
  {
    var active := Count(keys, Enabled);
    if active >= maxKeys {
      DowngradedCount(keys, maxKeys);
    } else {
      UpgradedCount(keys, maxKeys - active, accepted);
    }
  }

  // ---- Down and up again ----

  /** Every key could be enabled on its node. */
  ghost predicate Enableable(keys: seq<Key>, accepted: set<nat>)
  {
    forall k :: k in keys ==> k.server && k.mapped && k.id in accepted
  }

  lemma {:induction false} NeverBlocked(keys: seq<Key>, room: int)
    requires forall k :: k in keys ==> k.server
    ensures !Blocked(keys, room)
    decreases |keys|
  {
    if keys != [] {
      NeverBlocked(keys[..|keys| - 1], room);
    }
  }

  lemma {:induction false} DowngradedServers(keys: seq<Key>, maxKeys: int)
    requires forall k :: k in keys ==> k.server
    ensures forall k :: k in Downgraded(keys, maxKeys) ==> k.server
    decreases |keys|
  {
    if keys != [] {
      DowngradedServers(keys[..|keys| - 1], maxKeys);
    }
  }

  lemma {:induction false} UpgradeUndoes(keys: seq<Key>, maxKeys: int, room: nat, accepted: set<nat>)
    requires Count(keys, Revoked) == 0 && Enableable(keys, accepted)
    requires Count(Downgraded(keys, maxKeys), Revoked) <= room
    ensures Upgraded(Downgraded(keys, maxKeys), room, accepted) == keys
    decreases |keys|
  {
    if keys != [] {
      var n := |keys| - 1;
      var rest := Downgraded(keys[..n], maxKeys);
      assert Downgraded(keys, maxKeys)[..|rest|] == rest;
      assert forall k :: k in keys[..n] ==> k in keys;
      UpgradeUndoes(keys[..n], maxKeys, room, accepted);
      DowngradedServers(keys[..n], maxKeys);
      NeverBlocked(rest, room);
      assert keys[n] in keys;
    }
  }

  lemma {:induction false} DowngradedIdle(keys: seq<Key>, maxKeys: int)
    requires WithinQuota(keys, maxKeys)
    ensures Downgraded(keys, maxKeys) == keys
    decreases |keys|
  {
    if keys != [] {
      DowngradedIdle(keys[..|keys| - 1], maxKeys);
    }
  }

  lemma {:induction false} UpgradedIdle(keys: seq<Key>, room: int, accepted: set<nat>)
    requires Count(keys, Revoked) == 0
    ensures Upgraded(keys, room, accepted) == keys
    decreases |keys|
  {
    if keys != [] {
      UpgradedIdle(keys[..|keys| - 1], room, accepted);
    }
  }

  /** With no key revoked at first and every node answering, a change of rate followed by a second one restores every
      status if and only if the second rate has room for the keys enabled at first. */
  lemma {:induction false} RestoredIff(keys: seq<Key>, first: int, second: int, accepted: set<nat>)
    requires Count(keys, Revoked) == 0 && Enableable(keys, accepted)
    ensures Rated(Rated(keys, first, accepted), second, accepted) == keys <==> Count(keys, Enabled) <= Max(second, 0)
  {
    var once := Rated(keys, first, accepted);
    RatedWithinQuota(once, second, accepted);
    if Count(keys, Enabled) <= Max(second, 0) {
      if Count(keys, Enabled) >= first {
        DowngradedCount(keys, first);
        if Count(once, Enabled) >= second {
          DowngradedIdle(keys, first);
          DowngradedIdle(keys, second);
        } else {
          UpgradeUndoes(keys, first, second - Count(once, Enabled), accepted);
        }
      } else {
        UpgradedIdle(keys, first - Count(keys, Enabled), accepted);
        if Count(keys, Enabled) >= second {
          DowngradedIdle(keys, second);
        } else {
          UpgradedIdle(keys, second - Count(keys, Enabled), accepted);
        }
      }
    }
  }

  // ---- The loops of a change of rate ----

  /** The enabled keys with ranks in a range are revoked, the others are as they were. */
  ghost predicate RevokedBetween(was: seq<Key>, now: seq<Key>, lo: nat, hi: nat)
  {
    && |now| == |was|
    && forall i :: 0 <= i < |was| ==>
         now[i] == if was[i].status.Enabled? && lo <= Count(was[..i], Enabled) < hi then was[i].(status := Revoked) else was[i]
  }

  lemma {:induction false} RevokedOne(was: seq<Key>, now: seq<Key>, lo: nat, m: nat)
    requires RevokedBetween(was, now, lo, m) && lo <= m < |Positions(was, Enabled)|
    ensures var i := Positions(was, Enabled)[m];
            i < |was| && now[i] == was[i] && was[i].status.Enabled? &&
            RevokedBetween(was, now[i := was[i].(status := Revoked)], lo, m + 1)
  {
    PositionRank(was, Enabled, m);
    forall j | 0 <= j < |was| && was[j].status.Enabled? && Count(was[..j], Enabled) == m
      ensures j == Positions(was, Enabled)[m]
    {
      RankPosition(was, Enabled, j);
    }
  }

  lemma {:induction false} RevokedAll(was: seq<Key>, now: seq<Key>, maxKeys: int)
    requires RevokedBetween(was, now, Min(Max(maxKeys, 0), |Positions(was, Enabled)|), |Positions(was, Enabled)|)
    ensures now == Downgraded(was, maxKeys)
  {
    forall i | 0 <= i < |was|
      ensures |Downgraded(was, maxKeys)| == |was| && now[i] == Downgraded(was, maxKeys)[i]
    {
      DowngradedAt(was, maxKeys, i);
      if was[i].status.Enabled? {
        RankPosition(was, Enabled, i);
      }
    }
    assert was == [] ==> Downgraded(was, maxKeys) == [];
  }

  predicate Takes(key: Key, accepted: set<nat>)
  {
    key.server && key.mapped && key.id in accepted
  }

  /** The first k revoked keys have been offered to their nodes, the others are as they were. */
  ghost predicate EnabledUpTo(was: seq<Key>, now: seq<Key>, accepted: set<nat>, k: nat)
  {
    && |now| == |was|
    && (forall i :: 0 <= i < |was| && was[i].status.Revoked? && Count(was[..i], Revoked) < k ==> was[i].server)
    && forall i :: 0 <= i < |was| ==>
         now[i] == if was[i].status.Revoked? && Count(was[..i], Revoked) < k && Takes(was[i], accepted) then was[i].(status := Enabled) else was[i]
  }

  lemma {:induction false} EnabledOne(was: seq<Key>, now: seq<Key>, accepted: set<nat>, k: nat)
    requires EnabledUpTo(was, now, accepted, k) && k < |Positions(was, Revoked)|
    ensures var i := Positions(was, Revoked)[k];
            && i < |was| && now[i] == was[i]
            && (was[i].server ==>
                EnabledUpTo(was, if Takes(was[i], accepted) then now[i := was[i].(status := Enabled)] else now, accepted, k + 1))
  {
    PositionRank(was, Revoked, k);
    forall j | 0 <= j < |was| && was[j].status.Revoked? && Count(was[..j], Revoked) == k
      ensures j == Positions(was, Revoked)[k]
    {
      RankPosition(was, Revoked, j);
    }
  }

  lemma {:induction false} RankMonotone(keys: seq<Key>, status: Status, j: nat, i: nat)
    requires j < i <= |keys| && keys[j].status == status
    ensures Count(keys[..j], status) < Count(keys[..i], status)
    decreases i
  {
    assert keys[..i][..i - 1] == keys[..i - 1];
    if j < i - 1 {
      RankMonotone(keys, status, j, i - 1);
    }
  }

  /** The loop stops at key j. */
  ghost predicate Stops(keys: seq<Key>, room: int, j: nat)
  {
    j < |keys| && keys[j].status.Revoked? && Count(keys[..j], Revoked) < room && !keys[j].server
  }

  lemma {:induction false} BlockedIff(keys: seq<Key>, room: int, i: nat)
    requires i <= |keys|
    ensures Blocked(keys[..i], room) <==> exists j :: 0 <= j < i && Stops(keys, room, j)
    decreases i
  {
    if i > 0 {
      BlockedIff(keys, room, i - 1);
      assert keys[..i][..i - 1] == keys[..i - 1];
      if Stops(keys, room, i - 1) {
        assert Blocked(keys[..i], room);
      }
    }
  }

  lemma {:induction false} UpgradeDone(was: seq<Key>, now: seq<Key>, room: nat, accepted: set<nat>, k: nat)
    requires EnabledUpTo(was, now, accepted, k) && k == Min(room, |Positions(was, Revoked)|)
    ensures now == Upgraded(was, room, accepted) && !Blocked(was, room)
  {
    forall j | 0 <= j < |was| && was[j].status.Revoked? && Count(was[..j], Revoked) < room
      ensures Count(was[..j], Revoked) < k
    {
      RankPosition(was, Revoked, j);
    }
    assert forall j :: !Stops(was, room, j);
    forall i | 0 <= i < |was|
      ensures |Upgraded(was, room, accepted)| == |was| && now[i] == Upgraded(was, room, accepted)[i]
    {
      UpgradedAt(was, room, accepted, i);
      BlockedIff(was, room, i);
    }
    BlockedIff(was, room, |was|);
    assert was[..|was|] == was;
    assert was == [] ==> Upgraded(was, room, accepted) == [];
  }

  lemma {:induction false} UpgradeStopped(was: seq<Key>, now: seq<Key>, room: nat, accepted: set<nat>, k: nat)
    requires EnabledUpTo(was, now, accepted, k) && k < room && k < |Positions(was, Revoked)|
    requires var p := Positions(was, Revoked)[k]; p < |was| && !was[p].server
    ensures now == Upgraded(was, room, accepted) && Blocked(was, room)
  {
    var p := Positions(was, Revoked)[k];
    PositionRank(was, Revoked, k);
    assert Stops(was, room, p);
    forall i | 0 <= i < |was|
      ensures |Upgraded(was, room, accepted)| == |was| && now[i] == Upgraded(was, room, accepted)[i]
    {
      UpgradedAt(was, room, accepted, i);
      BlockedIff(was, room, i);
      if i <= p {
        NoStopBefore(was, now, room, accepted, k, i);
      } else {
        RankMonotone(was, Revoked, p, i);
      }
      if i < p && was[i].status.Revoked? {
        RankMonotone(was, Revoked, i, p);
      }
    }
    BlockedIff(was, room, |was|);
    assert was[..|was|] == was;
  }

  lemma {:induction false} NoStopBefore(was: seq<Key>, now: seq<Key>, room: nat, accepted: set<nat>, k: nat, i: nat)
    requires EnabledUpTo(was, now, accepted, k) && k < |Positions(was, Revoked)| && i <= Positions(was, Revoked)[k]
    ensures forall j :: 0 <= j < i ==> !Stops(was, room, j)
  {
    PositionRank(was, Revoked, k);
    forall j | 0 <= j < i
      ensures !Stops(was, room, j)
    {
      if was[j].status.Revoked? {
        RankMonotone(was, Revoked, j, Positions(was, Revoked)[k]);
      }
    }
  }

  // ---- The services ----

  /** What becomes of a request to put a key on its node. */
  function Remote(key: Key, remote: bool): Outcome
  {
    if !key.server then Threw else if !key.mapped then Unavailable else if !remote then Error else Success
  }

  class User {
    /** The keys in the order of the collection, and the limit of the current rate. */
    var keys: seq<Key>
    var maxKeys: int

    constructor (maxKeys: int)
      ensures keys == [] && this.maxKeys == maxKeys
    {
      keys, this.maxKeys := [], maxKeys;
    }

    /** Adding counts the keys of every status; remote is the node's answer. */
    method AddKey(key: Key, remote: bool) returns (r: Outcome)
      modifies this`keys
      ensures r.Success? <==> |old(keys)| < maxKeys && key.server && key.mapped && remote
      ensures r.Forbidden? <==> |old(keys)| >= maxKeys
      ensures !r.Forbidden? ==> r == Remote(key, remote)
      ensures keys == if r.Success? then old(keys) + [key] else old(keys)
    {
      if |keys| >= maxKeys {
        return Forbidden;
      }
      if !key.server {
        return Threw;
      }
      if !key.mapped {
        return Unavailable;
      }
      if !remote {
        return Error;
      }
      keys := keys + [key];
      return Success;
    }

    method DelKey(i: nat)
      requires i < |keys|
      modifies this`keys
      ensures keys == old(keys)[..i] + old(keys)[i + 1..]
    {
      keys := keys[..i] + keys[i + 1..];
    }

    /** Enables a key without looking at the quota. */
    method ForceEnableKey(i: nat, remote: bool) returns (r: Outcome)
      requires i < |keys|
      modifies this`keys
      ensures r == Remote(old(keys)[i], remote)
      ensures keys == if r.Success? then old(keys)[i := old(keys)[i].(status := Enabled)] else old(keys)
    {
      var key := keys[i];
      if !key.server {
        return Threw;
      }
      if !key.mapped {
        return Unavailable;
      }
      if !remote {
        return Error;
      }
      keys := keys[i := key.(status := Enabled)];
      return Success;
    }

    method CountKeys(status: Status) returns (n: nat)
      ensures n == Count(keys, status)
    {
      n := 0;
      for i := 0 to |keys|
        invariant n == Count(keys[..i], status)
      {
        assert keys[..i + 1][..i] == keys[..i];
        if keys[i].status == status {
          n := n + 1;
        }
      }
      assert keys[..|keys|] == keys;
    }

    method EnableKey(i: nat, remote: bool) returns (r: Outcome)
      requires i < |keys|
      modifies this`keys
      ensures keys == EnabledAt(old(keys), maxKeys, i, remote)
      ensures r.Success? <==> keys[i].status.Enabled?
      ensures !r.Forbidden? && old(keys)[i].status.Disabled? ==> r == Remote(old(keys)[i], remote)
      ensures r.Forbidden? <==> old(keys)[i].status.Revoked? || (old(keys)[i].status.Disabled? && Count(old(keys), Enabled) >= maxKeys)
    {
      match keys[i].status
      case Revoked =>
        return Forbidden;
      case Enabled =>
        return Success;
      case Disabled =>
        var active := CountKeys(Enabled);
        if active >= maxKeys {
          return Forbidden;
        }
        r := ForceEnableKey(i, remote);
    }

    /** The answer of the node is ignored. */
    method DisableKey(i: nat) returns (r: Outcome)
      requires i < |keys|
      modifies this`keys
      ensures r == if old(keys)[i].status.Revoked? then Forbidden else Success
      ensures keys == DisabledAt(old(keys), i)
    {
      match keys[i].status
      case Revoked =>
        return Forbidden;
      case Disabled =>
        return Success;
      case Enabled =>
        keys := keys[i := keys[i].(status := Disabled)];
        return Success;
    }

    method Where(status: Status) returns (r: seq<nat>)
      ensures r == Positions(keys, status)
    {
      r := [];
      for i := 0 to |keys|
        invariant r == Positions(keys[..i], status)
      {
        assert keys[..i + 1][..i] == keys[..i];
        if keys[i].status == status {
          r := r + [i];
        }
      }
      assert keys[..|keys|] == keys;
    }

    /** Applies the rate just assigned; accepted are the keys that the nodes would take. */
    method ChangeRate(accepted: set<nat>) returns (r: Outcome)
      modifies this`keys
      ensures keys == Rated(old(keys), maxKeys, accepted)
      ensures var active := Count(old(keys), Enabled);
              r == if active < maxKeys && Blocked(old(keys), maxKeys - active) then Threw else Success
    {
      if keys == [] {
        return Success;
      }
      var active := CountKeys(Enabled);
      if active >= maxKeys {
        RevokeExcess();
        r := Success;
      } else {
        r := EnableRevoked(maxKeys - active, accepted);
      }
    }

    method RevokeExcess()
      modifies this`keys
      ensures keys == Downgraded(old(keys), maxKeys)
    {
      ghost var was := keys;
      var enabled := Where(Enabled);
      var action := enabled[Min(Max(maxKeys, 0), |enabled|)..];
      ghost var skip := Min(Max(maxKeys, 0), |enabled|);
      for k := 0 to |action|
        invariant RevokedBetween(was, keys, skip, skip + k)
      {
        var i := action[k];
        RevokedOne(was, keys, skip, skip + k);
        ghost var before := keys;
        var _ := DisableKey(i);
        keys := keys[i := keys[i].(status := Revoked)];
        assert keys == before[i := was[i].(status := Revoked)];
      }
      RevokedAll(was, keys, maxKeys);
    }

    method EnableRevoked(room: int, accepted: set<nat>) returns (r: Outcome)
      requires room > 0
      modifies this`keys
      ensures keys == Upgraded(old(keys), room, accepted)
      ensures r == if Blocked(old(keys), room) then Threw else Success
    {
      ghost var was := keys;
      var revoked := Where(Revoked);
      var action := revoked[..Min(room, |revoked|)];
      for k := 0 to |action|
        invariant EnabledUpTo(was, keys, accepted, k)
      {
        EnabledOne(was, keys, accepted, k);
        var i := action[k];
        r := ForceEnableKey(i, keys[i].id in accepted);
        if r.Threw? {
          UpgradeStopped(was, keys, room, accepted, k);
          return;
        }
      }
      UpgradeDone(was, keys, room, accepted, |action|);
      r := Success;
    }
  }

  function EnabledAt(keys: seq<Key>, maxKeys: int, i: nat, remote: bool): seq<Key>
    requires i < |keys|
  {
    if keys[i].status.Disabled? && Count(keys, Enabled) < maxKeys && keys[i].server && keys[i].mapped && remote
    then keys[i := keys[i].(status := Enabled)]
    else keys
  }

  function DisabledAt(keys: seq<Key>, i: nat): seq<Key>
    requires i < |keys|
  {
    if keys[i].status.Enabled? then keys[i := keys[i].(status := Disabled)] else keys
  }

  // ---- Every run ----

  /** What can happen to a user's keys; SetRate assigns a new rate and applies it, Patch assigns one and does not. */
  datatype Event =
    | Add(key: Key, remote: bool)
    | Enable(i: nat, remote: bool)
    | Disable(i: nat)
    | Delete(i: nat)
    | SetRate(limit: int, accepted: set<nat>)
    | Patch(limit: int)

  datatype State = State(keys: seq<Key>, maxKeys: int)

  function Step(s: State, e: Event): State
  {
    match e
    case Add(key, remote) =>
      if |s.keys| < s.maxKeys && key.server && key.mapped && remote then s.(keys := s.keys + [key]) else s
    case Enable(i, remote) => if i < |s.keys| then s.(keys := EnabledAt(s.keys, s.maxKeys, i, remote)) else s
    case Disable(i) => if i < |s.keys| then s.(keys := DisabledAt(s.keys, i)) else s
    case Delete(i) => if i < |s.keys| then s.(keys := s.keys[..i] + s.keys[i + 1..]) else s
    case SetRate(limit, accepted) => State(Rated(s.keys, limit, accepted), limit)
    case Patch(limit) => s.(maxKeys := limit)
  }

  function Run(s: State, events: seq<Event>): State
    decreases |events|
  {
    if events == [] then s else Run(Step(s, events[0]), events[1..])
  }

  /** The services carry out the events. */
  method Perform(user: User, e: Event)
    modifies user
    ensures State(user.keys, user.maxKeys) == Step(State(old(user.keys), old(user.maxKeys)), e)
  {
    match e
    case Add(key, remote) =>
      var _ := user.AddKey(key, remote);
    case Enable(i, remote) =>
      if i < |user.keys| {
        var _ := user.EnableKey(i, remote);
      }
    case Disable(i) =>
      if i < |user.keys| {
        var _ := user.DisableKey(i);
      }
    case Delete(i) =>
      if i < |user.keys| {
        user.DelKey(i);
      }
    case SetRate(limit, accepted) =>
      user.maxKeys := limit;
      var _ := user.ChangeRate(accepted);
    case Patch(limit) =>
      user.maxKeys := limit;
  }

  /** How many enabled keys there are too many. */
  function Excess(s: State): nat
  {
    Max(Count(s.keys, Enabled) - Max(s.maxKeys, 0), 0)
  }

  /** Nothing but a patch adds to the excess. */
  lemma {:induction false} ExcessShrinks(s: State, e: Event)
    requires !e.Patch?
    ensures Excess(Step(s, e)) <= Excess(s)
  {
    match e
    case Add(key, _) =>
      CountSnoc(s.keys, key, Enabled);
      CountAtMost(s.keys, Enabled);
    case Enable(i, _) =>
      if i < |s.keys| {
        CountWith(s.keys, i, s.keys[i].(status := Enabled), Enabled);
      }
    case Disable(i) =>
      if i < |s.keys| {
        CountWith(s.keys, i, s.keys[i].(status := Disabled), Enabled);
      }
    case Delete(i) =>
      if i < |s.keys| {
        CountWith(s.keys, i, s.keys[i], Enabled);
      }
    case SetRate(limit, accepted) =>
      RatedWithinQuota(s.keys, limit, accepted);
  }

  /** A patch that lowers the limit below the number of enabled keys does not fit. */
  predicate PatchFits(s: State, e: Event)
  {
    e.Patch? ==> Count(s.keys, Enabled) <= Max(e.limit, 0)
  }

  /** An operation leaves the quota if and only if it is a patch that does not fit. */
  lemma {:induction false} StepWithinQuota(s: State, e: Event)
    requires WithinQuota(s.keys, s.maxKeys)
    ensures WithinQuota(Step(s, e).keys, Step(s, e).maxKeys) <==> PatchFits(s, e)
  {
    if !e.Patch? {
      ExcessShrinks(s, e);
    }
  }

  /** Every state of a run is within the quota. */
  ghost predicate AlwaysWithin(s: State, events: seq<Event>)
    decreases |events|
  {
    WithinQuota(s.keys, s.maxKeys) && (events != [] ==> AlwaysWithin(Step(s, events[0]), events[1..]))
  }

  predicate PatchesFit(s: State, events: seq<Event>)
    decreases |events|
  {
    events != [] ==> PatchFits(s, events[0]) && PatchesFit(Step(s, events[0]), events[1..])
  }

  /** Over every run: no state is outside the quota if and only if every patch in it fits. */
  lemma {:induction false} QuotaKeptIff(s: State, events: seq<Event>)
    requires WithinQuota(s.keys, s.maxKeys)
    ensures AlwaysWithin(s, events) <==> PatchesFit(s, events)
    decreases |events|
  {
    if events != [] {
      StepWithinQuota(s, events[0]);
      if PatchFits(s, events[0]) {
        QuotaKeptIff(Step(s, events[0]), events[1..]);
      }
    }
  }

  /** If all changes of rate are applied, no reachable state has more enabled keys than the rate allows. */
  lemma {:induction false} QuotaKept(s: State, events: seq<Event>)
    requires WithinQuota(s.keys, s.maxKeys) && forall e :: e in events ==> !e.Patch?
    ensures AlwaysWithin(s, events) && WithinQuota(Run(s, events).keys, Run(s, events).maxKeys)
    decreases |events|
  {
    if events != [] {
      StepWithinQuota(s, events[0]);
      QuotaKept(Step(s, events[0]), events[1..]);
    }
  }

  lemma {:induction false} RunConcat(s: State, a: seq<Event>, b: seq<Event>)
    ensures Run(s, a + b) == Run(Run(s, a), b)
    decreases |a|
  {
    if a == [] {
      assert a + b == b;
    } else {
      assert (a + b)[0] == a[0] && (a + b)[1..] == a[1..] + b;
      RunConcat(Step(s, a[0]), a[1..], b);
    }
  }

  /** Whatever happened before, the next rate that is applied brings the user back within the quota. */
  lemma {:induction false} RateRestoresQuota(s: State, events: seq<Event>, limit: int, accepted: set<nat>)
    ensures var t := Run(s, events + [SetRate(limit, accepted)]);
            t.maxKeys == limit && WithinQuota(t.keys, t.maxKeys)
  {
    var last := SetRate(limit, accepted);
    RunConcat(s, events, [last]);
    assert [last][1..] == [];
    assert Run(Run(s, events), [last]) == Step(Run(s, events), last);
    RatedWithinQuota(Run(s, events).keys, limit, accepted);
  }

  /** A patch takes a user out of the quota if and only if more keys are enabled than the new rate allows. */
  lemma {:induction false} PatchBreaks(s: State, limit: int)
    requires WithinQuota(s.keys, s.maxKeys)
    ensures !AlwaysWithin(s, [Patch(limit)]) <==> Count(s.keys, Enabled) > Max(limit, 0)
  {
    QuotaKeptIff(s, [Patch(limit)]);
    assert [Patch(limit)][1..] == [];
  }
}
