/** The session table of a mux connection; every method is one critical section. */
module MuxSession {

  class Session {
    const id: nat
    const parent: SessionManager
    var closed: bool
    /** How often input has been interrupted and output closed. */
    var released: nat

    constructor (id: nat, parent: SessionManager)
      ensures this.id == id && this.parent == parent && !closed && released == 0
    {
      this.id, this.parent := id, parent;
      closed, released := false, 0;
    }

    /** Close, for a session that is not part of an XUDP association. */
    method Close()
      modifies this, parent`sessions
      ensures closed && released == old(released) + (if old(closed) then 0 else 1)
      ensures parent.sessions == if old(closed) || parent.closed then old(parent.sessions) else old(parent.sessions) - {id}
    {
      if closed {
        return;
      }
      closed := true;
      released := released + 1;
      parent.Remove(id);
    }
  }

  class SessionManager {
    var sessions: map<nat, Session>
    var count: nat
    var closed: bool

    /** Every entry of an open table is an open session under its own identifier; a closed table is empty. */
    ghost predicate Valid()
      reads this, sessions.Values
    {
      && count < 65536
      && (closed ==> sessions == map[])
      && forall id :: id in sessions ==> sessions[id].id == id && sessions[id].parent == this && !sessions[id].closed
    }

    constructor ()
      ensures Valid() && sessions == map[] && count == 0 && !closed
    {
      sessions, count, closed := map[], 0, false;
    }

    method Allocate() returns (s: Session?)
      requires Valid()
      modifies this`sessions, this`count
      ensures Valid()
      ensures closed ==> s == null && count == old(count) && sessions == old(sessions)
      ensures !closed ==> s != null && fresh(s) && s.id == count == (old(count) + 1) % 65536
      ensures !closed ==> sessions == old(sessions)[count := s]
    {
      if closed {
        return null;
      }
      count := (count + 1) % 65536;
      s := new Session(count, this);
      sessions := sessions[s.id := s];
    }

    method Add(s: Session) returns (ok: bool)
      requires Valid() && s.parent == this && !s.closed
      modifies this`sessions, this`count
      ensures Valid() && ok == !closed
      ensures ok ==> sessions == old(sessions)[s.id := s] && count == (old(count) + 1) % 65536
      ensures !ok ==> sessions == old(sessions) && count == old(count)
    {
      if closed {
        return false;
      }
      count := (count + 1) % 65536;
      sessions := sessions[s.id := s];
      return true;
    }

    method Remove(id: nat)
      modifies this`sessions
      ensures sessions == if closed then old(sessions) else old(sessions) - {id}
    {
      if closed {
        return;
      }
      sessions := sessions - {id};
    }

    method Get(id: nat) returns (s: Session?)
      requires Valid()
      ensures s != null <==> !closed && id in sessions
      ensures s != null ==> s == sessions[id] && s.id == id && !s.closed
    {
      if closed || id !in sessions {
        return null;
      }
      return sessions[id];
    }

    method CloseIfNoSession() returns (r: bool)
      requires Valid()
      modifies this`closed
      ensures Valid() && r == closed
      ensures closed <==> old(closed) || sessions == map[]
    {
      if closed {
        return true;
      }
      if |sessions| != 0 {
        return false;
      }
      closed := true;
      return true;
    }

    /** Every session of the table is closed, exactly once; closing again changes nothing. */
    method Close()
      requires Valid()
      modifies this, sessions.Values
      ensures Valid() && closed && sessions == map[] && count == old(count)
      ensures forall s :: s in old(sessions.Values) ==>
                s.closed && s.released == old(s.released) + (if old(closed) then 0 else 1)
    {
      if closed {
        return;
      }
      closed := true;
      ghost var all := sessions;
      var ids := sessions.Keys;
      while ids != {}
        invariant closed && sessions == all && count == old(count) && ids <= all.Keys
        invariant forall id :: id in all ==> all[id].id == id && all[id].parent == this
        invariant forall id :: id in all && id in ids ==> !all[id].closed && all[id].released == old(all[id].released)
        invariant forall id :: id in all && id !in ids ==> all[id].closed && all[id].released == old(all[id].released) + 1
        decreases |ids|
      {
        var id :| id in ids;
        sessions[id].Close();
        ids := ids - {id};
      }
      sessions := map[];
    }
  }

  /** A session closed on its own leaves the table valid: it, or whatever took its identifier, is gone. */
  method CloseOne(m: SessionManager, s: Session)
    requires m.Valid() && s.parent == m
    modifies s, m`sessions
    ensures m.Valid() && s.closed
    ensures forall id :: id in m.sessions ==> m.sessions[id] != s
    ensures m.sessions == if old(s.closed) || m.closed then old(m.sessions) else old(m.sessions) - {s.id}
  {
    s.Close();
  }

  /** Identifiers handed out by a table that is used through Allocate only: two of them are equal exactly when a
      multiple of 65536 allocations lies between them, so the first 65536 are distinct. */
  method AllocateMany(m: SessionManager, n: nat) returns (ids: seq<nat>)
    requires m.Valid() && !m.closed
    modifies m`sessions, m`count
    ensures m.Valid() && !m.closed && |ids| == n
    ensures forall i :: 0 <= i < n ==> ids[i] == (old(m.count) + 1 + i) % 65536
    ensures forall i, j :: 0 <= i <= j < n ==> (ids[i] == ids[j] <==> (j - i) % 65536 == 0)
  {
    ids := [];
    for i := 0 to n
      invariant m.Valid() && !m.closed && |ids| == i && m.count == (old(m.count) + i) % 65536
      invariant forall k :: 0 <= k < i ==> ids[k] == (old(m.count) + 1 + k) % 65536
    {
      var s := m.Allocate();
      ids := ids + [s.id];
    }
    forall i, j | 0 <= i <= j < n
      ensures ids[i] == ids[j] <==> (j - i) % 65536 == 0
    {
      SameIdentifier(old(m.count) + 1, i, j);
    }
  }

  lemma {:induction false} SameIdentifier(start: nat, i: nat, j: nat)
    requires i <= j
    ensures (start + i) % 65536 == (start + j) % 65536 <==> (j - i) % 65536 == 0
  {
  }
}
