/** Dispatchers racing for one client worker: the fullness checks and the allocation are separate steps. */
module MuxDispatch {

  /** Where a dispatcher stands: not dispatching, past the connection check, past the concurrency check too. */
  datatype Phase = Idle | PastCount | PastSize

  /** One worker, its limits (0 means none) and its dispatchers. total counts allocations; the table's counter is
      a uint16. */
  datatype Pool = Pool(size: nat, total: nat, maxConcurrency: nat, maxConnection: nat, phases: seq<Phase>)

  datatype Action = CheckCount(i: nat) | CheckSize(i: nat) | Allocate(i: nat) | EndSession

  predicate Enabled(p: Pool, a: Action)
  {
    match a
    case CheckCount(i) => i < |p.phases| && p.phases[i] == Idle
    case CheckSize(i) => i < |p.phases| && p.phases[i] == PastCount
    case Allocate(i) => i < |p.phases| && p.phases[i] == PastSize
    case EndSession => p.size > 0
  }

  function Next(p: Pool, a: Action): Pool
    requires Enabled(p, a)
  {
    match a
    case CheckCount(i) =>
      var full := p.maxConnection > 0 && p.total % 65536 >= p.maxConnection;
      p.(phases := p.phases[i := if full then Idle else PastCount])
    case CheckSize(i) =>
      var full := p.maxConcurrency > 0 && p.size >= p.maxConcurrency;
      p.(phases := p.phases[i := if full then Idle else PastSize])
    case Allocate(i) => p.(size := p.size + 1, total := p.total + 1, phases := p.phases[i := Idle])
    case EndSession => p.(size := p.size - 1)
  }

  /** Some interleaving of the dispatchers' steps. */
  ghost predicate Runs(p: Pool, actions: seq<Action>)
    decreases |actions|
  {
    actions != [] ==> Enabled(p, actions[0]) && Runs(Next(p, actions[0]), actions[1..])
  }

  function After(p: Pool, actions: seq<Action>): Pool
    requires Runs(p, actions)
    decreases |actions|
  {
    if actions == [] then p else After(Next(p, actions[0]), actions[1..])
  }

  function Start(k: nat, maxConcurrency: nat, maxConnection: nat): Pool
  {
    Pool(0, 0, maxConcurrency, maxConnection, seq(k, _ => Idle))
  }

  /** How many dispatchers are at least at phase f. */
  function Count(phases: seq<Phase>, countToo: bool): (n: nat)
    ensures n <= |phases|
  {
    if phases == [] then 0
    else Count(phases[1..], countToo) + (if phases[0] == PastSize || (countToo && phases[0] == PastCount) then 1 else 0)
  }

  function Weight(f: Phase, countToo: bool): nat
  {
    if f == PastSize || (countToo && f == PastCount) then 1 else 0
  }

  lemma {:induction false} CountUpdate(phases: seq<Phase>, i: nat, f: Phase, countToo: bool)
    requires i < |phases|
    ensures Count(phases[i := f], countToo) == Count(phases, countToo) - Weight(phases[i], countToo) + Weight(f, countToo)
    decreases |phases|
  {
    if i > 0 {
      CountUpdate(phases[1..], i - 1, f, countToo);
      assert phases[i := f][1..] == phases[1..][i - 1 := f];
    } else {
      assert phases[i := f][1..] == phases[1..];
    }
  }

  lemma {:induction false} CountAtMostOthers(phases: seq<Phase>, i: nat, countToo: bool)
    requires i < |phases| && Weight(phases[i], countToo) == 0
    ensures Count(phases, countToo) <= |phases| - 1
    decreases |phases|
  {
    if i > 0 {
      CountAtMostOthers(phases[1..], i - 1, countToo);
    }
  }

  /** Sessions held plus dispatchers that will allocate without looking again. */
  ghost predicate Bounded(p: Pool)
  {
    && (p.maxConcurrency > 0 ==> p.size + Count(p.phases, false) <= p.maxConcurrency + |p.phases| - 1)
    && (p.maxConnection > 0 && p.maxConnection + |p.phases| <= 65536 ==>
          p.total + Count(p.phases, true) <= p.maxConnection + |p.phases| - 1)
  }

  lemma {:induction false} StepKeepsBound(p: Pool, a: Action)
    requires |p.phases| > 0 && Bounded(p) && Enabled(p, a)
    ensures Bounded(Next(p, a)) && |Next(p, a).phases| == |p.phases|
    ensures Next(p, a).maxConcurrency == p.maxConcurrency && Next(p, a).maxConnection == p.maxConnection
  {
    if !a.EndSession? {
      var i, f := a.i, Next(p, a).phases[a.i];
      CountUpdate(p.phases, i, f, false);
      CountUpdate(p.phases, i, f, true);
      if !a.Allocate? {
        CountAtMostOthers(p.phases, i, false);
      }
      if a.CheckCount? {
        CountAtMostOthers(p.phases, i, true);
      }
    }
  }

  lemma {:induction false} RunKeepsBound(p: Pool, actions: seq<Action>)
    requires |p.phases| > 0 && Bounded(p) && Runs(p, actions)
    ensures Bounded(After(p, actions)) && |After(p, actions).phases| == |p.phases|
    ensures After(p, actions).maxConcurrency == p.maxConcurrency && After(p, actions).maxConnection == p.maxConnection
    decreases |actions|
  {
    if actions != [] {
      StepKeepsBound(p, actions[0]);
      RunKeepsBound(Next(p, actions[0]), actions[1..]);
    }
  }

  lemma {:induction false} NobodyInside(k: nat, countToo: bool)
    ensures Count(seq(k, _ => Idle), countToo) == 0
    decreases k
  {
    if k > 0 {
      NobodyInside(k - 1, countToo);
      assert seq(k, _ => Idle)[1..] == seq(k - 1, _ => Idle);
    }
  }

  /** With k dispatchers a worker never holds more than MaxConcurrency + k - 1 sessions (MaxConcurrency if k is 1),
      and never allocates more than MaxConnection + k - 1 in its life, as long as that fits the counter. */
  lemma {:induction false} ConcurrencyBound(k: nat, maxConcurrency: nat, maxConnection: nat, actions: seq<Action>)
    requires k > 0 && Runs(Start(k, maxConcurrency, maxConnection), actions)
    ensures var p := After(Start(k, maxConcurrency, maxConnection), actions);
            && (maxConcurrency > 0 ==> p.size <= maxConcurrency + k - 1)
            && (maxConnection > 0 && maxConnection + k <= 65536 ==> p.total <= maxConnection + k - 1)
  {
    NobodyInside(k, false);
    NobodyInside(k, true);
    RunKeepsBound(Start(k, maxConcurrency, maxConnection), actions);
  }

  // ---- The bound is reached ----

  lemma {:induction false} Chain(p: Pool, a: seq<Action>, b: seq<Action>)
    requires Runs(p, a) && Runs(After(p, a), b)
    ensures Runs(p, a + b) && After(p, a + b) == After(After(p, a), b)
    decreases |a|
  {
    if a == [] {
      assert a + b == b;
    } else {
      assert (a + b)[0] == a[0] && (a + b)[1..] == a[1..] + b;
      Chain(Next(p, a[0]), a[1..], b);
    }
  }

  /** Dispatchers n-1, ..., 0 pass both checks one after the other. */
  lemma {:induction false} AllPass(p: Pool, n: nat) returns (actions: seq<Action>)
    requires n <= |p.phases| && p.size < p.maxConcurrency && p.maxConnection == 0
    requires forall i :: 0 <= i < n ==> p.phases[i] == Idle
    requires forall i :: n <= i < |p.phases| ==> p.phases[i] == PastSize
    ensures Runs(p, actions)
    ensures After(p, actions).size == p.size && |After(p, actions).phases| == |p.phases|
    ensures forall i :: 0 <= i < |p.phases| ==> After(p, actions).phases[i] == PastSize
    decreases n
  {
    actions := [];
    if n > 0 {
      var p1 := Next(p, CheckCount(n - 1));
      var p2 := Next(p1, CheckSize(n - 1));
      var rest := AllPass(p2, n - 1);
      actions := [CheckCount(n - 1), CheckSize(n - 1)] + rest;
      assert actions[1..] == [CheckSize(n - 1)] + rest && actions[1..][1..] == rest;
      assert Runs(p1, actions[1..]);
    }
  }

  /** Then they all allocate. */
  lemma {:induction false} AllAllocate(p: Pool, n: nat) returns (actions: seq<Action>)
    requires n <= |p.phases| && forall i :: 0 <= i < n ==> p.phases[i] == PastSize
    ensures Runs(p, actions) && After(p, actions).size == p.size + n
    decreases n
  {
    actions := [];
    if n > 0 {
      var rest := AllAllocate(Next(p, Allocate(n - 1)), n - 1);
      actions := [Allocate(n - 1)] + rest;
      assert actions[1..] == rest;
    }
  }

  /** One dispatcher alone brings the worker to s sessions below the limit. */
  lemma {:induction false} FillAlone(k: nat, maxConcurrency: nat, s: nat) returns (actions: seq<Action>)
    requires k > 0 && s < maxConcurrency
    ensures Runs(Start(k, maxConcurrency, 0), actions)
    ensures After(Start(k, maxConcurrency, 0), actions) == Start(k, maxConcurrency, 0).(size := s, total := s)
    decreases s
  {
    actions := [];
    if s > 0 {
      var start := Start(k, maxConcurrency, 0);
      var before := FillAlone(k, maxConcurrency, s - 1);
      var p := start.(size := s - 1, total := s - 1);
      var p1 := Next(p, CheckCount(0));
      var p2 := Next(p1, CheckSize(0));
      var p3 := Next(p2, Allocate(0));
      assert p3.phases == p.phases;
      var one := [CheckCount(0), CheckSize(0), Allocate(0)];
      assert one[1..] == [CheckSize(0), Allocate(0)] && one[1..][1..] == [Allocate(0)] && [Allocate(0)][1..] == [];
      assert Runs(p2, [Allocate(0)]) && After(p2, [Allocate(0)]) == p3;
      assert Runs(p1, one[1..]) && After(p1, one[1..]) == p3;
      Chain(start, before, one);
      actions := before + one;
    }
  }

  /** For every k and every limit some interleaving does hold MaxConcurrency + k - 1 sessions at once. */
  lemma {:induction false} BoundIsReached(k: nat, maxConcurrency: nat) returns (actions: seq<Action>)
    requires k > 0 && maxConcurrency > 0
    ensures Runs(Start(k, maxConcurrency, 0), actions)
    ensures After(Start(k, maxConcurrency, 0), actions).size == maxConcurrency + k - 1
  {
    var start := Start(k, maxConcurrency, 0);
    var fill := FillAlone(k, maxConcurrency, maxConcurrency - 1);
    var p := After(start, fill);
    var pass := AllPass(p, k);
    Chain(start, fill, pass);
    var q := After(p, pass);
    var allocate := AllAllocate(q, k);
    Chain(start, fill + pass, allocate);
    actions := fill + pass + allocate;
  }
}
