/** The client side of mux: picking a worker, and dispatching a request within a bounded number of attempts. */
module MuxPool {
  import opened MuxSession

  class ClientWorker {
    const manager: SessionManager
    const maxConcurrency: nat
    const maxConnection: nat
    var done: bool

    constructor (maxConcurrency: nat, maxConnection: nat)
      ensures fresh(manager) && manager.Valid() && !IsFull() && !manager.closed && !done
    {
      this.maxConcurrency, this.maxConnection := maxConcurrency, maxConnection;
      manager := new SessionManager();
      done := false;
    }

    predicate IsFull()
      reads this, manager
    {
      || (maxConnection > 0 && manager.count >= maxConnection)
      || done
      || (maxConcurrency > 0 && |manager.sessions| >= maxConcurrency)
    }

    /** Accepts a request exactly when it is not full and its table is open. */
    method Dispatch() returns (ok: bool)
      requires manager.Valid()
      modifies manager`sessions, manager`count
      ensures manager.Valid()
      ensures ok <==> !old(IsFull()) && !manager.closed
      ensures !ok ==> unchanged(manager)
      ensures ok && maxConcurrency > 0 ==> |manager.sessions| <= maxConcurrency
    {
      if IsFull() || done {
        return false;
      }
      ghost var before := manager.sessions;
      var s := manager.Allocate();
      if s == null {
        return false;
      }
      GrowsByOne(before, manager.count, s);
      return true;
    }
  }

  lemma {:induction false} GrowsByOne<K, V>(m: map<K, V>, k: K, v: V)
    ensures |m[k := v]| <= |m| + 1
  {
    assert m[k := v].Keys == m.Keys + {k};
  }

  // ---- What the picks see of the pool ----

  /** A worker is full; or it takes sessions; or its monitor has closed the table and is about to mark it as done. */
  datatype Kind = Full | Open | Closing

  ghost function KindOf(w: ClientWorker): Kind
    reads w, w.manager
  {
    if w.IsFull() then Full else if w.manager.closed then Closing else Open
  }

  /** The first that is not full, or the length. */
  function FirstFree(ks: seq<Kind>): (i: nat)
    ensures i <= |ks|
    ensures forall k :: 0 <= k < i ==> ks[k] == Full
    ensures i < |ks| ==> ks[i] != Full
  {
    if ks == [] then 0 else if ks[0] != Full then 0 else 1 + FirstFree(ks[1..])
  }

  lemma {:induction false} FirstFreeIs(ks: seq<Kind>, i: nat)
    requires i <= |ks| && (forall k :: 0 <= k < i ==> ks[k] == Full) && (i < |ks| ==> ks[i] != Full)
    ensures FirstFree(ks) == i
  {
  }

  /** The list after a pick of index i: it has changed places with the last one. */
  function Swapped<T>(s: seq<T>, i: nat): (r: seq<T>)
    requires i < |s|
    ensures |r| == |s|
  {
    s[|s| - 1 := s[i]][i := s[|s| - 1]]
  }

  /** Some of n attempts picks a worker that takes the session; the pick is read after the swap. */
  predicate Succeeds(ks: seq<Kind>, n: nat)
    requires FirstFree(ks) < |ks|
    decreases n
  {
    var i := FirstFree(ks);
    var next := Swapped(ks, i);
    n > 0 && (next[i] == Open || (StillFree(ks); Succeeds(next, n - 1)))
  }

  /** How many of n attempts are made. */
  function Tries(ks: seq<Kind>, n: nat): (k: nat)
    requires FirstFree(ks) < |ks|
    ensures k <= n && (!Succeeds(ks, n) ==> k == n)
    decreases n
  {
    var i := FirstFree(ks);
    var next := Swapped(ks, i);
    if n == 0 then 0 else if next[i] == Open then 1 else (StillFree(ks); 1 + Tries(next, n - 1))
  }

  /** Success comes early or not at all. */
  lemma {:induction false} FewTries(ks: seq<Kind>, few: nat, n: nat)
    requires FirstFree(ks) < |ks| && few <= n && Succeeds(ks, few)
    ensures Succeeds(ks, n) && Tries(ks, n) <= few
    decreases n
  {
    var i := FirstFree(ks);
    if Swapped(ks, i)[i] != Open {
      StillFree(ks);
      FewTries(Swapped(ks, i), few - 1, n - 1);
    }
  }

  /** If no worker is about to close, the second attempt succeeds at the latest. */
  lemma {:induction false} SecondTry(ks: seq<Kind>)
    requires FirstFree(ks) < |ks| && Closing !in ks
    ensures Promising(ks) && Succeeds(ks, 2)
  {
    var i, last := FirstFree(ks), |ks| - 1;
    var next := Swapped(ks, i);
    StillFree(ks);
    if ks[last] == Full {
      var j := FirstFree(next);
      assert next[last] == ks[i] == Open && Swapped(next, j)[j] == next[last];
    }
  }

  lemma {:induction false} StillFree(ks: seq<Kind>)
    requires FirstFree(ks) < |ks|
    ensures FirstFree(Swapped(ks, FirstFree(ks))) < |ks|
  {
    var i := FirstFree(ks);
    var next := Swapped(ks, i);
    assert next[|ks| - 1] == ks[i];
  }

  /** The only two workers that are ever offered the session: the last one and the first free one; or, if the last one is
      full, the first two free ones. */
  predicate Promising(ks: seq<Kind>)
    requires FirstFree(ks) < |ks|
  {
    var i, n := FirstFree(ks), |ks|;
    || ks[i] == Open
    || (if ks[n - 1] != Full then ks[n - 1] == Open
        else var j := i + 1 + FirstFree(ks[i + 1..]); j < n && ks[j] == Open)
  }

  /** With a free worker in the last place, two attempts decide. */
  lemma {:induction false} LastFreeDecides(ks: seq<Kind>, n: nat)
    requires FirstFree(ks) < |ks| && ks[|ks| - 1] != Full && n >= 2
    ensures Succeeds(ks, n) <==> ks[|ks| - 1] == Open || ks[FirstFree(ks)] == Open
    decreases n
  {
    var i, last := FirstFree(ks), |ks| - 1;
    var next := Swapped(ks, i);
    StillFree(ks);
    FirstFreeIs(next, i);
    if ks[last] != Open && n == 2 {
      assert Swapped(next, i)[i] == ks[i];
      NoAttempts(Swapped(next, i));
    } else if ks[last] != Open {
      LastFreeDecides(next, n - 1);
    }
  }

  lemma {:induction false} NoAttempts(ks: seq<Kind>)
    requires FirstFree(ks) < |ks|
    ensures !Succeeds(ks, 0)
  {
  }

  /** Three attempts decide, and more do not help. */
  lemma {:induction false} SucceedsIff(ks: seq<Kind>, n: nat)
    requires FirstFree(ks) < |ks| && n >= 3
    ensures Succeeds(ks, n) <==> Promising(ks)
  {
    var i, last := FirstFree(ks), |ks| - 1;
    if ks[last] != Full {
      LastFreeDecides(ks, n);
    } else {
      var next := Swapped(ks, i);
      StillFree(ks);
      var j := i + 1 + FirstFree(ks[i + 1..]);
      assert forall k :: i < k < last ==> next[k] == ks[k] == ks[i + 1..][k - i - 1];
      FirstFreeIs(next, if j < last then j else last);
      LastFreeDecides(next, n - 1);
    }
  }

  /** The workers that are not done, in order. */
  ghost function Unfinished(ws: seq<ClientWorker>): seq<ClientWorker>
    reads ws
    decreases |ws|
  {
    if ws == [] then []
    else
      var n := |ws| - 1;
      if ws[n].done then Unfinished(ws[..n]) else Unfinished(ws[..n]) + [ws[n]]
  }

  class IncrementalWorkerPicker {
    var workers: seq<ClientWorker>

    ghost predicate Valid()
      reads this, workers, set w | w in workers :: w.manager, set w, s | w in workers && s in w.manager.sessions.Values :: s
    {
      forall w :: w in workers ==> w.manager.Valid()
    }

    /** The workers are of these kinds. */
    ghost predicate Like(ks: seq<Kind>)
      reads this, workers, set w | w in workers :: w.manager
    {
      |ks| == |workers| && forall i :: 0 <= i < |workers| ==> KindOf(workers[i]) == ks[i]
    }

    constructor ()
      ensures workers == []
    {
      workers := [];
    }

    /** The first worker that is not full, or -1. */
    method FindAvailable(ghost ks: seq<Kind>) returns (idx: int)
      requires Like(ks)
      ensures idx == if FirstFree(ks) < |ks| then FirstFree(ks) else -1
    {
      for i := 0 to |workers|
        invariant forall k :: 0 <= k < i ==> ks[k] == Full
      {
        if !workers[i].IsFull() {
          FirstFreeIs(ks, i);
          return i;
        }
      }
      FirstFreeIs(ks, |ks|);
      return -1;
    }

    method Cleanup()
      modifies this
      ensures workers == Unfinished(old(workers))
    {
      var active := [];
      for i := 0 to |workers|
        invariant workers == old(workers) && active == Unfinished(workers[..i])
      {
        assert workers[..i + 1][..i] == workers[..i];
        if !workers[i].done {
          active := active + [workers[i]];
        }
      }
      assert workers[..|workers|] == workers;
      workers := active;
    }

    /** The branch of pickInternal for a pool with a free worker. The pick is read after the swap, so it is the worker that
        was last. */
    method PickExisting(idx: nat, ghost ks: seq<Kind>) returns (w: ClientWorker)
      requires idx < |workers| && Like(ks)
      modifies this
      ensures workers == Swapped(old(workers), idx) && w == workers[idx] == old(workers)[|old(workers)| - 1]
      ensures Like(Swapped(ks, idx)) && multiset(workers) == multiset(old(workers))
      ensures forall v :: v in workers ==> v in old(workers)
    {
      var n := |workers|;
      SwappedMembers(workers, idx);
      if n > 1 && idx != n - 1 {
        workers := workers[n - 1 := workers[idx]][idx := workers[n - 1]];
      }
      return workers[idx];
    }

    /** The branch for a pool without one: the unfinished workers are kept and a new one goes last. */
    method Create(factoryWorks: bool, maxConcurrency: nat, maxConnection: nat) returns (w: ClientWorker?)
      modifies this
      ensures w != null <==> factoryWorks
      ensures w == null ==> workers == Unfinished(old(workers))
      ensures w != null ==> fresh(w) && fresh(w.manager) && w.manager.Valid() && !w.IsFull() && !w.manager.closed
                            && workers == old(Unfinished(workers)) + [w]
    {
      Cleanup();
      if !factoryWorks {
        return null;
      }
      w := new ClientWorker(maxConcurrency, maxConnection);
      workers := workers + [w];
    }

    method PickAvailable(factoryWorks: bool, maxConcurrency: nat, maxConnection: nat, ghost ks: seq<Kind>) returns (w: ClientWorker?)
      requires Like(ks)
      modifies this
      ensures var i := FirstFree(ks);
              i < |ks| ==>
                && workers == Swapped(old(workers), i) && w == workers[i] && w in old(workers)
                && Like(Swapped(ks, i)) && multiset(workers) == multiset(old(workers))
                && forall v :: v in workers ==> v in old(workers)
      ensures FirstFree(ks) == |ks| ==>
                && (w != null <==> factoryWorks)
                && (w != null ==> fresh(w) && fresh(w.manager) && w.manager.Valid() && !w.IsFull() && !w.manager.closed)
    {
      var idx := FindAvailable(ks);
      if idx >= 0 {
        w := PickExisting(idx, ks);
      } else {
        w := Create(factoryWorks, maxConcurrency, maxConnection);
      }
    }
  }

  lemma {:induction false} SwappedMembers<T>(s: seq<T>, i: nat)
    requires i < |s|
    ensures multiset(Swapped(s, i)) == multiset(s) && forall x :: x in Swapped(s, i) ==> x in s
    ensures i == |s| - 1 ==> Swapped(s, i) == s
  {
  }

  datatype Outcome = Taken | NotTaken | NoWorker

  /** One round: pick a worker and offer it the request. */
  method Attempt(p: IncrementalWorkerPicker, factoryWorks: bool, maxConcurrency: nat, maxConnection: nat, ghost ks: seq<Kind>)
    returns (r: Outcome)
    requires p.Valid() && p.Like(ks)
    modifies p, set w | w in p.workers :: w.manager
    ensures FirstFree(ks) == |ks| ==> r == if factoryWorks then Taken else NoWorker
    ensures FirstFree(ks) < |ks| ==> r == if Swapped(ks, FirstFree(ks))[FirstFree(ks)] == Open then Taken else NotTaken
    ensures FirstFree(ks) < |ks| ==> multiset(p.workers) == old(multiset(p.workers))
    ensures r == NotTaken ==>
              && p.Valid() && FirstFree(ks) < |ks| && p.Like(Swapped(ks, FirstFree(ks)))
              && forall v :: v in p.workers ==> v in old(p.workers)
  {
    var worker := p.PickAvailable(factoryWorks, maxConcurrency, maxConnection, ks);
    if worker == null {
      return NoWorker;
    }
    assert FirstFree(ks) < |ks| ==> KindOf(worker) == Swapped(ks, FirstFree(ks))[FirstFree(ks)];
    var ok := worker.Dispatch();
    return if ok then Taken else NotTaken;
  }

  /** ClientManager.Dispatch, when nothing else touches the pool. With no free worker it succeeds if and only if one can be
      created. Otherwise it succeeds if and only if one of the two workers that are ever picked takes the session, by the
      third attempt; and if neither does, all sixteen attempts fail, although a new worker could have been created. */
  method Dispatch(p: IncrementalWorkerPicker, factoryWorks: bool, maxConcurrency: nat, maxConnection: nat, ghost ks: seq<Kind>)
    returns (ok: bool, attempts: nat)
    requires p.Valid() && p.Like(ks)
    modifies p, set w | w in p.workers :: w.manager
    ensures Ends(ks, factoryWorks, ok, attempts)
    ensures FirstFree(ks) < |ks| ==> multiset(p.workers) == old(multiset(p.workers))
  {
    attempts := 0;
    ghost var now, all := ks, multiset(p.workers);
    Outlook(ks);
    while attempts < 16
      invariant p.Valid() && p.Like(now)
      invariant Going(ks, now, attempts)
      invariant attempts == 16 ==> Ends(ks, factoryWorks, false, attempts)
      invariant multiset(p.workers) == all
      invariant forall v :: v in p.workers ==> v in old(p.workers)
    {
      TryOne(ks, now, attempts, factoryWorks);
      var r := Attempt(p, factoryWorks, maxConcurrency, maxConnection, now);
      attempts := attempts + 1;
      if r == NoWorker {
        return false, attempts;
      }
      if r == Taken {
        return true, attempts;
      }
      now := Swapped(now, FirstFree(now));
    }
    return false, attempts;
  }

  /** How a dispatch over these workers ends, and after how many attempts. */
  predicate Ends(ks: seq<Kind>, factoryWorks: bool, ok: bool, attempts: nat)
  {
    if FirstFree(ks) == |ks| then ok == factoryWorks && attempts == 1
    else ok == Promising(ks) && attempts == Tries(ks, 16)
  }

  /** After some attempts that failed: what is left to try decides. */
  ghost predicate Going(ks: seq<Kind>, now: seq<Kind>, attempts: nat)
  {
    && attempts <= 16
    && (if FirstFree(ks) == |ks| then attempts == 0 && now == ks
        else FirstFree(now) < |now| && (Promising(ks) <==> Succeeds(now, 16 - attempts))
             && attempts + Tries(now, 16 - attempts) == Tries(ks, 16))
  }

  lemma {:induction false} Outlook(ks: seq<Kind>)
    ensures Going(ks, ks, 0)
    ensures FirstFree(ks) < |ks| && Promising(ks) ==> Tries(ks, 16) <= 3
    ensures FirstFree(ks) < |ks| && Closing !in ks ==> Promising(ks) && Tries(ks, 16) <= 2
    ensures FirstFree(ks) < |ks| && !Promising(ks) ==> Tries(ks, 16) == 16
  {
    if FirstFree(ks) < |ks| {
      TriesBounds(ks);
    }
  }

  lemma {:induction false} TryOne(ks: seq<Kind>, now: seq<Kind>, attempts: nat, factoryWorks: bool)
    requires Going(ks, now, attempts) && attempts < 16
    ensures FirstFree(ks) == |ks| ==> FirstFree(now) == |now|
    ensures FirstFree(ks) == |ks| ==> Ends(ks, factoryWorks, factoryWorks, attempts + 1)
    ensures FirstFree(ks) < |ks| ==>
      var i := FirstFree(now);
      && i < |now|
      && if Swapped(now, i)[i] == Open then Ends(ks, factoryWorks, true, attempts + 1)
         else && Going(ks, Swapped(now, i), attempts + 1)
              && (attempts == 15 ==> Ends(ks, factoryWorks, false, 16))
  {
    if FirstFree(ks) < |ks| {
      StillFree(now);
      if attempts == 15 {
        NoAttempts(Swapped(now, FirstFree(now)));
      }
    }
  }

  lemma {:induction false} TriesBounds(ks: seq<Kind>)
    requires FirstFree(ks) < |ks|
    ensures Succeeds(ks, 16) <==> Promising(ks)
    ensures Promising(ks) ==> Tries(ks, 16) <= 3
    ensures Closing !in ks ==> Promising(ks) && Tries(ks, 16) <= 2
  {
    SucceedsIff(ks, 16);
    SucceedsIff(ks, 3);
    if Promising(ks) {
      FewTries(ks, 3, 16);
    }
    if Closing !in ks {
      SecondTry(ks);
      FewTries(ks, 2, 16);
    }
  }

  /** A pool on which every attempt fails, with and without a factory that works: its only free worker is about to close. */
  lemma {:induction false} ClosingPoolFails()
    ensures FirstFree([Full, Closing]) == 1 && !Promising([Full, Closing]) && Tries([Full, Closing], 16) == 16
  {
    var ks := [Full, Closing];
    FirstFreeIs(ks, 1);
    SucceedsIff(ks, 16);
  }
}
