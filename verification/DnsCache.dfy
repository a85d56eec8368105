/** The answer cache of the classic name server, against a reference that forgets nothing. */
module DnsCache {
  import opened Bytes

  // ---- Records and answers ----

  datatype IPRecord = IPRecord(ips: seq<seq<byte>>, expire: int, rcode: nat)
  datatype Record = Record(a: Option<IPRecord>, aaaa: Option<IPRecord>)
  datatype Family = A | AAAA
  datatype IPOption = IPOption(ipv4: bool, ipv6: bool)
  datatype Failure = NotFound | RCodeError(code: nat) | EmptyResponse
  datatype Answer = Found(ips: seq<seq<byte>>, ttl: nat) | Failed(reason: Failure)

  /** The clock readings of one query in nanoseconds: for each family the expiry test and then the ttl. */
  datatype Clock = Clock(test4: int, ttl4: int, test6: int, ttl6: int)

  ghost predicate NotBefore(clock: Clock, now: int)
  {
    now <= clock.test4 && now <= clock.ttl4 && now <= clock.test6 && now <= clock.ttl6
  }

  const SECOND := 1_000_000_000

  /** Whole seconds left, truncated toward zero and then to 32 bits: a deadline that passes between the two readings wraps. */
  function Ttl(expire: int, now: int): nat
  {
    var left := expire - now;
    (if left >= 0 then left / SECOND else -((-left) / SECOND)) % 0x1_0000_0000
  }

  function GetIPs(r: Option<IPRecord>, test: int, ttl: int): Answer
  {
    if r.None? || r.value.expire < test then Failed(NotFound)
    else if r.value.rcode != 0 then Failed(RCodeError(r.value.rcode))
    else Found(r.value.ips, Ttl(r.value.expire, ttl))
  }

  function IsNewer(base: Option<IPRecord>, rec: Option<IPRecord>): bool
  {
    if rec.None? then false else if base.None? then true else base.value.expire < rec.value.expire
  }

  function Slot(r: Record, f: Family): Option<IPRecord>
  {
    if f.A? then r.a else r.aaaa
  }

  function Newest(base: Option<IPRecord>, rec: Option<IPRecord>): Option<IPRecord>
  {
    if IsNewer(base, rec) then rec else base
  }

  function Live(r: Option<IPRecord>, now: int): Option<IPRecord>
  {
    if r.Some? && r.value.expire < now then None else r
  }

  /** A found record answers with the addresses of the enabled families; the ttl is that of the last one asked. */
  function AnswerFrom(r: Record, option: IPOption, clock: Clock): Answer
  {
    var four := if option.ipv4 then GetIPs(r.a, clock.test4, clock.ttl4) else Found([], 0);
    var six := if option.ipv6 then GetIPs(r.aaaa, clock.test6, clock.ttl6) else Found([], 0);
    var ips := (if four.Found? then four.ips else []) + (if six.Found? then six.ips else []);
    var ttl := if option.ipv6 then (if six.Found? then six.ttl else 0) else if four.Found? then four.ttl else 0;
    if |ips| > 0 then Found(ips, ttl)
    else if four.Failed? then four
    else if six.Failed? then six
    else Failed(EmptyResponse)
  }

  function AnswerOf(r: Option<Record>, option: IPOption, clock: Clock): Answer
  {
    if r.None? then Failed(NotFound) else AnswerFrom(r.value, option, clock)
  }

  // ---- The cache ----

  type Cache = map<string, Record>

  const BLANK := Record(None, None)

  function At(ips: Cache, domain: string): Record
  {
    if domain in ips then ips[domain] else BLANK
  }

  function Stored(ips: Cache, domain: string): Option<Record>
  {
    if domain in ips then Some(ips[domain]) else None
  }

  function Merged(base: Record, rec: Record): Record
  {
    Record(Newest(base.a, rec.a), Newest(base.aaaa, rec.aaaa))
  }

  function Updated(ips: Cache, domain: string, rec: Record): Cache
  {
    var base := At(ips, domain);
    if IsNewer(base.a, rec.a) || IsNewer(base.aaaa, rec.aaaa) then ips[domain := Merged(base, rec)] else ips
  }

  function Swept(r: Record, now: int): Record
  {
    Record(Live(r.a, now), Live(r.aaaa, now))
  }

  function Cleaned(ips: Cache, now: int): Cache
  {
    map d | d in ips && Swept(ips[d], now) != BLANK :: Swept(ips[d], now)
  }

  class NameServer {
    var ips: Cache
    /** The pending requests by identifier, each with its deadline. */
    var requests: map<nat, int>

    constructor ()
      ensures ips == map[] && requests == map[]
    {
      ips, requests := map[], map[];
    }

    method UpdateIP(domain: string, newRec: Record)
      modifies this`ips
      ensures ips == Updated(old(ips), domain, newRec)
    {
      var rec := if domain in ips then ips[domain] else BLANK;
      var updated := false;
      if IsNewer(rec.a, newRec.a) {
        rec, updated := rec.(a := newRec.a), true;
      }
      if IsNewer(rec.aaaa, newRec.aaaa) {
        rec, updated := rec.(aaaa := newRec.aaaa), true;
      }
      if updated {
        ips := ips[domain := rec];
      }
    }

    /** Reports whether there was anything to do. */
    method Cleanup(now: int) returns (busy: bool)
      modifies this
      ensures busy <==> old(ips) != map[] || old(requests) != map[]
      ensures ips == Cleaned(old(ips), now)
      ensures requests == map id | id in old(requests) && old(requests)[id] >= now :: old(requests)[id]
    {
      if |ips| == 0 && |requests| == 0 {
        return false;
      }
      SweepRecords(now);
      SweepRequests(now);
      return true;
    }

    method SweepRecords(now: int)
      modifies this`ips
      ensures ips == Cleaned(old(ips), now)
    {
      ghost var was := ips;
      var todo := ips.Keys;
      while todo != {}
        invariant todo <= was.Keys && todo <= ips.Keys
        invariant forall d :: d in todo ==> ips[d] == was[d]
        invariant forall d :: d in ips && d !in todo ==> d in Cleaned(was, now) && ips[d] == Cleaned(was, now)[d]
        invariant forall d :: d in Cleaned(was, now) ==> d in ips
        decreases |todo|
      {
        var domain :| domain in todo;
        var record := ips[domain];
        if record.a.Some? && record.a.value.expire < now {
          record := record.(a := None);
        }
        if record.aaaa.Some? && record.aaaa.value.expire < now {
          record := record.(aaaa := None);
        }
        assert record == Swept(was[domain], now);
        if record.a.None? && record.aaaa.None? {
          ips := ips - {domain};
        } else {
          ips := ips[domain := record];
        }
        todo := todo - {domain};
      }
    }

    method SweepRequests(now: int)
      modifies this`requests
      ensures requests == map id | id in old(requests) && old(requests)[id] >= now :: old(requests)[id]
    {
      ghost var was := requests;
      var todo := requests.Keys;
      while todo != {}
        invariant todo <= was.Keys && todo <= requests.Keys <= was.Keys
        invariant forall id :: id in requests ==> requests[id] == was[id] && (id in todo || was[id] >= now)
        invariant forall id :: id in was && was[id] >= now ==> id in requests
        decreases |todo|
      {
        var id :| id in todo;
        if requests[id] < now {
          requests := requests - {id};
        }
        todo := todo - {id};
      }
    }

    method FindIPsForDomain(domain: string, option: IPOption, clock: Clock) returns (answer: Answer)
      ensures answer == AnswerOf(Stored(ips, domain), option, clock)
    {
      if domain !in ips {
        return Failed(NotFound);
      }
      var record := ips[domain];
      var found: seq<seq<byte>>, ttl: nat := [], 0;
      var err4: Option<Failure>, err6: Option<Failure> := None, None;
      if option.ipv4 {
        match GetIPs(record.a, clock.test4, clock.ttl4)
        case Found(some, left) => found, ttl := some, left;
        case Failed(reason) => found, ttl, err4 := [], 0, Some(reason);
      }
      if option.ipv6 {
        match GetIPs(record.aaaa, clock.test6, clock.ttl6)
        case Found(some, left) => found, ttl := found + some, left;
        case Failed(reason) => ttl, err6 := 0, Some(reason);
      }
      if |found| > 0 {
        return Found(found, ttl);
      }
      if err4.Some? {
        return Failed(err4.value);
      }
      if err6.Some? {
        return Failed(err6.value);
      }
      return Failed(EmptyResponse);
    }
  }

  // ---- The reference: every response ever received ----

  datatype Event = Response(domain: string, rec: Record) | Cleanup(now: int)

  /** Everything received for one family of a domain, in order. */
  function Heard(events: seq<Event>, domain: string, f: Family): seq<IPRecord>
  {
    if events == [] then []
    else
      var last := events[|events| - 1];
      var before := Heard(events[..|events| - 1], domain, f);
      if last.Response? && last.domain == domain && Slot(last.rec, f).Some?
      then before + [Slot(last.rec, f).value]
      else before
  }

  /** The latest-expiring response, the earliest received among equals. */
  ghost predicate IsLatest(heard: seq<IPRecord>, best: Option<IPRecord>)
  {
    if heard == [] then best == None
    else best.Some? && exists i :: 0 <= i < |heard| && LatestAt(heard, i) && best.value == heard[i]
  }

  ghost predicate LatestAt(heard: seq<IPRecord>, i: nat)
    requires i < |heard|
  {
    forall j :: 0 <= j < |heard| ==> (if j < i then heard[j].expire < heard[i].expire else heard[j].expire <= heard[i].expire)
  }

  function Latest(heard: seq<IPRecord>): Option<IPRecord>
  {
    if heard == [] then None else Newest(Latest(heard[..|heard| - 1]), Some(heard[|heard| - 1]))
  }

  lemma {:induction false} LatestIsLatest(heard: seq<IPRecord>)
    ensures IsLatest(heard, Latest(heard))
  {
    var n := |heard| - 1;
    if n == 0 {
      assert Latest(heard[..0]) == None;
      assert LatestAt(heard, 0);
    } else if n > 0 {
      var front := heard[..n];
      LatestIsLatest(front);
      var i :| 0 <= i < |front| && LatestAt(front, i) && Latest(front).value == front[i];
      assert forall j :: 0 <= j < n ==> front[j] == heard[j];
      assert LatestAt(heard, if front[i].expire < heard[n].expire then n else i);
    }
  }

  /** No two responses can both be the latest. */
  lemma {:induction false} LatestUnique(heard: seq<IPRecord>, best: Option<IPRecord>, other: Option<IPRecord>)
    requires IsLatest(heard, best) && IsLatest(heard, other)
    ensures best == other
  {
    if heard != [] {
      var i :| 0 <= i < |heard| && LatestAt(heard, i) && best.value == heard[i];
      var j :| 0 <= j < |heard| && LatestAt(heard, j) && other.value == heard[j];
      assert heard[i].expire <= heard[j].expire && heard[j].expire <= heard[i].expire;
    }
  }

  function Remembered(events: seq<Event>, domain: string): Record
  {
    Record(Latest(Heard(events, domain, A)), Latest(Heard(events, domain, AAAA)))
  }

  /** The reference knows a domain once it has received anything for it, and never forgets. */
  function Reference(events: seq<Event>, domain: string): Option<Record>
  {
    var r := Remembered(events, domain);
    if r == BLANK then None else Some(r)
  }

  // ---- Every run of updates and cleanups ----

  function Apply(ips: Cache, event: Event): Cache
  {
    match event
    case Response(domain, rec) => Updated(ips, domain, rec)
    case Cleanup(now) => Cleaned(ips, now)
  }

  function Run(events: seq<Event>): Cache
  {
    if events == [] then map[] else Apply(Run(events[..|events| - 1]), events[|events| - 1])
  }

  method Replay(server: NameServer, events: seq<Event>)
    requires server.ips == map[]
    modifies server
    ensures server.ips == Run(events)
  {
    for i := 0 to |events|
      invariant server.ips == Run(events[..i])
    {
      assert events[..i + 1][..i] == events[..i];
      match events[i]
      case Response(domain, rec) => server.UpdateIP(domain, rec);
      case Cleanup(now) => var _ := server.Cleanup(now);
    }
    assert events[..|events|] == events;
  }

  ghost predicate Dead(r: Option<IPRecord>, now: int)
  {
    r.Some? ==> r.value.expire < now
  }

  /** The cached slot is what the reference remembers, or both have expired. */
  ghost predicate Agree(cached: Option<IPRecord>, remembered: Option<IPRecord>, now: int)
  {
    cached == remembered || (Dead(cached, now) && Dead(remembered, now))
  }

  ghost predicate CleanedBefore(events: seq<Event>, now: int)
  {
    forall i :: 0 <= i < |events| && events[i].Cleanup? ==> events[i].now <= now
  }

  lemma {:induction false} SlotAfter(ips: Cache, event: Event, domain: string, f: Family)
    ensures Slot(At(Apply(ips, event), domain), f) ==
      match event
      case Response(d, rec) => if d == domain then Newest(Slot(At(ips, domain), f), Slot(rec, f)) else Slot(At(ips, domain), f)
      case Cleanup(now) => Live(Slot(At(ips, domain), f), now)
  {
    if event.Cleanup? && domain in ips {
      var swept := Swept(ips[domain], event.now);
      assert swept == BLANK ==> domain !in Cleaned(ips, event.now);
    }
  }

  lemma {:induction false} SlotsAgree(events: seq<Event>, domain: string, f: Family, now: int)
    requires CleanedBefore(events, now)
    ensures Agree(Slot(At(Run(events), domain), f), Latest(Heard(events, domain, f)), now)
    decreases |events|
  {
    if events != [] {
      var n := |events| - 1;
      assert forall i :: 0 <= i < n ==> events[..n][i] == events[i];
      SlotsAgree(events[..n], domain, f, now);
      SlotAfter(Run(events[..n]), events[n], domain, f);
      LatestAfter(events, domain, f);
    }
  }

  lemma {:induction false} LatestAfter(events: seq<Event>, domain: string, f: Family)
    requires events != []
    ensures var n := |events| - 1;
            var before := Latest(Heard(events[..n], domain, f));
            Latest(Heard(events, domain, f)) ==
            if events[n].Response? && events[n].domain == domain then Newest(before, Slot(events[n].rec, f)) else before
  {
    var n := |events| - 1;
    var before := Heard(events[..n], domain, f);
    if events[n].Response? && events[n].domain == domain && Slot(events[n].rec, f).Some? {
      var r := Slot(events[n].rec, f).value;
      assert (before + [r])[..|before|] == before;
    }
  }

  lemma {:induction false} AgreeAnswers(cached: Option<IPRecord>, remembered: Option<IPRecord>, now: int, test: int, ttl: int)
    requires Agree(cached, remembered, now) && now <= test
    ensures GetIPs(cached, test, ttl) == GetIPs(remembered, test, ttl)
  {
  }

  /** Cleanup is invisible: whatever was received and whenever it was cleaned up, a query no earlier than the cleanups and
      asking for at least one family gets the answer of a server that keeps everything. */
  lemma {:induction false} CleanupInvisible(events: seq<Event>, domain: string, option: IPOption, clock: Clock, now: int)
    requires CleanedBefore(events, now) && NotBefore(clock, now) && (option.ipv4 || option.ipv6)
    ensures AnswerOf(Stored(Run(events), domain), option, clock) == AnswerOf(Reference(events, domain), option, clock)
  {
    SlotsAgree(events, domain, A, now);
    SlotsAgree(events, domain, AAAA, now);
    var cached, remembered := At(Run(events), domain), Remembered(events, domain);
    AgreeAnswers(cached.a, remembered.a, now, clock.test4, clock.ttl4);
    AgreeAnswers(cached.aaaa, remembered.aaaa, now, clock.test6, clock.ttl6);
    assert AnswerFrom(cached, option, clock) == AnswerFrom(remembered, option, clock);
    assert AnswerFrom(BLANK, option, clock) == Failed(NotFound);
  }

  ghost predicate Indistinguishable(option: IPOption)
  {
    forall events, domain, clock, now | CleanedBefore(events, now) && NotBefore(clock, now) ::
      AnswerOf(Stored(Run(events), domain), option, clock) == AnswerOf(Reference(events, domain), option, clock)
  }

  /** With no family enabled a cached domain answers "empty" and a cleaned-up one "not found", so the cleanup shows:
      one enabled family is exactly what it takes. */
  lemma {:induction false} InvisibleIff(option: IPOption)
    ensures Indistinguishable(option) <==> option.ipv4 || option.ipv6
  {
    if option.ipv4 || option.ipv6 {
      forall events, domain, clock, now | CleanedBefore(events, now) && NotBefore(clock, now)
        ensures AnswerOf(Stored(Run(events), domain), option, clock) == AnswerOf(Reference(events, domain), option, clock)
      {
        CleanupInvisible(events, domain, option, clock, now);
      }
    } else {
      var heard := Response("a.", Record(Some(IPRecord([], 0, 0)), None));
      CleanupShows(heard, option);
      assert CleanedBefore([heard, Cleanup(1)], 1) && NotBefore(Clock(1, 1, 1, 1), 1);
    }
  }

  lemma {:induction false} CleanupShows(heard: Event, option: IPOption)
    requires heard == Response("a.", Record(Some(IPRecord([], 0, 0)), None)) && !option.ipv4 && !option.ipv6
    ensures var events := [heard, Cleanup(1)];
            && AnswerOf(Stored(Run(events), "a."), option, Clock(1, 1, 1, 1)) == Failed(NotFound)
            && AnswerOf(Reference(events, "a."), option, Clock(1, 1, 1, 1)) == Failed(EmptyResponse)
  {
    var events := [heard, Cleanup(1)];
    assert events[..1] == [heard] && [heard][..0] == [];
    assert Run([heard]) == map["a." := heard.rec];
    assert Heard([heard], "a.", A) == [] + [heard.rec.a.value];
    assert Heard(events, "a.", A) == [heard.rec.a.value];
    assert Swept(heard.rec, 1) == BLANK;
  }

  // ---- What an answer says ----

  /** The latest response of a family is there and has not expired. */
  ghost predicate LiveAt(latest: Option<IPRecord>, now: int)
  {
    latest.Some? && latest.value.expire >= now
  }

  /** It is live, and it is no error. */
  ghost predicate Good(latest: Option<IPRecord>, now: int)
  {
    LiveAt(latest, now) && latest.value.rcode == 0
  }

  /** How a family that brings no addresses explains itself. */
  ghost predicate Explains(latest: Option<IPRecord>, now: int, reason: Failure)
  {
    if !LiveAt(latest, now) then reason == NotFound else latest.value.rcode != 0 && reason == RCodeError(latest.value.rcode)
  }

  /** So many whole seconds are left. */
  ghost predicate SecondsLeft(expire: int, now: int, ttl: nat)
  {
    ttl * SECOND <= expire - now < (ttl + 1) * SECOND
  }

  /** The answer to a query, in terms of the responses that were received: a and b are the latest of either family. */
  ghost predicate Answers(answer: Answer, a: Option<IPRecord>, b: Option<IPRecord>, option: IPOption, clock: Clock)
  {
    var use4, use6 := option.ipv4 && Good(a, clock.test4), option.ipv6 && Good(b, clock.test6);
    var addresses := (if use4 then a.value.ips else []) + (if use6 then b.value.ips else []);
    match answer
    case Found(ips, ttl) =>
      && ips == addresses != []
      && (option.ipv6 && use6 && 0 <= b.value.expire - clock.ttl6 < 0x1_0000_0000 * SECOND ==> SecondsLeft(b.value.expire, clock.ttl6, ttl))
      && (option.ipv6 && !use6 ==> ttl == 0)
      && (!option.ipv6 && 0 <= a.value.expire - clock.ttl4 < 0x1_0000_0000 * SECOND ==> use4 && SecondsLeft(a.value.expire, clock.ttl4, ttl))
    case Failed(reason) =>
      && addresses == []
      && (if option.ipv4 && !use4 then Explains(a, clock.test4, reason)
          else if option.ipv6 && !use6 then Explains(b, clock.test6, reason)
          else reason == EmptyResponse)
  }

  lemma {:induction false} TtlIsSeconds(expire: int, now: int)
    requires 0 <= expire - now < 0x1_0000_0000 * SECOND
    ensures SecondsLeft(expire, now, Ttl(expire, now))
  {
    var left := expire - now;
    assert left / SECOND < 0x1_0000_0000;
  }

  lemma {:induction false} AnswerFromMeans(r: Record, option: IPOption, clock: Clock)
    ensures Answers(AnswerFrom(r, option, clock), r.a, r.aaaa, option, clock)
  {
    if r.a.Some? && 0 <= r.a.value.expire - clock.ttl4 < 0x1_0000_0000 * SECOND {
      TtlIsSeconds(r.a.value.expire, clock.ttl4);
    }
    if r.aaaa.Some? && 0 <= r.aaaa.value.expire - clock.ttl6 < 0x1_0000_0000 * SECOND {
      TtlIsSeconds(r.aaaa.value.expire, clock.ttl6);
    }
  }

  /** Whatever was received and whenever it was cleaned up: a query no earlier than the cleanups, for at least one family, gets
      the addresses of the live and successful latest responses, those of A first; if there are none, the reason of the
      first enabled family that has no success to show, and "empty" only if all have one. */
  lemma {:induction false} AnswerMeans(events: seq<Event>, domain: string, option: IPOption, clock: Clock, now: int,
    a: Option<IPRecord>, b: Option<IPRecord>)
    requires CleanedBefore(events, now) && NotBefore(clock, now) && (option.ipv4 || option.ipv6)
    requires IsLatest(Heard(events, domain, A), a) && IsLatest(Heard(events, domain, AAAA), b)
    ensures Answers(AnswerOf(Stored(Run(events), domain), option, clock), a, b, option, clock)
  {
    CleanupInvisible(events, domain, option, clock, now);
    LatestIsLatest(Heard(events, domain, A));
    LatestIsLatest(Heard(events, domain, AAAA));
    LatestUnique(Heard(events, domain, A), a, Latest(Heard(events, domain, A)));
    LatestUnique(Heard(events, domain, AAAA), b, Latest(Heard(events, domain, AAAA)));
    AnswerFromMeans(Remembered(events, domain), option, clock);
    assert AnswerFrom(BLANK, option, clock) == Failed(NotFound);
  }

  /** There is only one such answer, as long as the deadlines are within 32 bits of seconds. */
  lemma {:induction false} AnswerUnique(x: Answer, y: Answer, a: Option<IPRecord>, b: Option<IPRecord>, option: IPOption, clock: Clock)
    requires Answers(x, a, b, option, clock) && Answers(y, a, b, option, clock)
    requires a.Some? ==> 0 <= a.value.expire - clock.ttl4 < 0x1_0000_0000 * SECOND
    requires b.Some? ==> 0 <= b.value.expire - clock.ttl6 < 0x1_0000_0000 * SECOND
    ensures x == y
  {
  }
}
