/** The feature resolver of an instance: callbacks wait for the features they depend on, and may themselves register
    features and require others. */
module Features {
  import opened Bytes

  /** A callback: the feature types of its parameters, what it does with the instance when it is called, and whether it
      then returns an error. */
  datatype Resolution = Resolution(id: nat, optional: bool, deps: seq<string>, body: seq<Action>, fails: bool)
  datatype Action = Require(r: Resolution) | Add(feature: string)

  /** A call of a callback and the features registered at that moment. */
  datatype Firing = Firing(r: Resolution, seen: seq<string>)

  predicate Ready(deps: seq<string>, features: seq<string>)
  {
    forall d :: d in deps ==> d in features
  }

  // ---- A measure for the re-entrant calls ----

  function Weight(r: Resolution): nat
    decreases r
  {
    1 + ActionsWeight(r.body)
  }

  function ActionWeight(a: Action): nat
    decreases a
  {
    match a case Require(r) => 1 + Weight(r) case Add(_) => 1
  }

  function ActionsWeight(actions: seq<Action>): nat
    decreases actions
  {
    if actions == [] then 0 else ActionWeight(actions[0]) + ActionsWeight(actions[1..])
  }

  function ListWeight(list: seq<Resolution>): nat
    decreases |list|
  {
    if list == [] then 0 else ListWeight(list[..|list| - 1]) + Weight(list[|list| - 1])
  }

  lemma {:induction false} ListWeightSnoc(a: seq<Resolution>, r: Resolution)
    ensures ListWeight(a + [r]) == ListWeight(a) + Weight(r)
  {
    assert (a + [r])[..|a|] == a;
  }

  lemma {:induction false} ListWeightConcat(a: seq<Resolution>, b: seq<Resolution>)
    ensures ListWeight(a + b) == ListWeight(a) + ListWeight(b)
    decreases |b|
  {
    if b == [] {
      assert a + b == a;
    } else {
      var n := |b| - 1;
      assert a + b == a + b[..n] + [b[n]];
      ListWeightConcat(a, b[..n]);
      ListWeightSnoc(a + b[..n], b[n]);
    }
  }

  lemma {:induction false} ListWeightCons(r: Resolution, a: seq<Resolution>)
    ensures ListWeight([r] + a) == Weight(r) + ListWeight(a)
  {
    ListWeightConcat([r], a);
    assert [r][..0] == [];
  }

  // ---- Lists that only grow ----

  ghost predicate Extends<T>(a: seq<T>, b: seq<T>)
    decreases |b|
  {
    a == b || (b != [] && Extends(a, b[..|b| - 1]))
  }

  lemma {:induction false} ExtendsSnoc<T>(a: seq<T>, b: seq<T>, x: T)
    requires Extends(a, b)
    ensures Extends(a, b + [x])
  {
    assert (b + [x])[..|b|] == b;
  }

  lemma {:induction false} ExtendsTransitive<T>(a: seq<T>, b: seq<T>, c: seq<T>)
    requires Extends(a, b) && Extends(b, c)
    ensures Extends(a, c)
    decreases |c|
  {
    if b != c {
      ExtendsTransitive(a, b, c[..|c| - 1]);
    }
  }

  lemma {:induction false} ExtendsPrefix<T>(a: seq<T>, b: seq<T>)
    ensures Extends(a, b) <==> a <= b
    decreases |b|
  {
    if b != [] {
      var n := |b| - 1;
      ExtendsPrefix(a, b[..n]);
      if a <= b && a != b {
        assert |a| <= n;
        assert a == b[..n][..|a|];
      }
    }
  }

  lemma {:induction false} ReadyExtends(deps: seq<string>, a: seq<string>, b: seq<string>)
    requires Ready(deps, a) && Extends(a, b)
    ensures Ready(deps, b)
  {
    ExtendsPrefix(a, b);
    assert forall d :: d in a ==> d in b;
  }

  // ---- Who waits and who has been called ----

  /** The last of these callbacks returns an error. */
  predicate LastFails(list: seq<Resolution>)
  {
    list != [] && list[|list| - 1].fails
  }

  /** Everything in the list lacks a feature. */
  ghost predicate Lacking(list: seq<Resolution>, features: seq<string>, optional: bool)
    decreases |list|
  {
    list != [] ==>
      var last := list[|list| - 1];
      last.optional == optional && !Ready(last.deps, features) && Lacking(list[..|list| - 1], features, optional)
  }

  lemma {:induction false} LackingSnoc(list: seq<Resolution>, features: seq<string>, r: Resolution)
    requires Lacking(list, features, r.optional) && !Ready(r.deps, features)
    ensures Lacking(list + [r], features, r.optional)
  {
    assert (list + [r])[..|list|] == list;
  }

  /** Everything was called with all its features registered. */
  ghost predicate CalledInTime(log: seq<Firing>, features: seq<string>)
    decreases |log|
  {
    log != [] ==>
      var last := log[|log| - 1];
      Ready(last.r.deps, last.seen) && Extends(last.seen, features) && CalledInTime(log[..|log| - 1], features)
  }

  lemma {:induction false} CalledInTimeSnoc(log: seq<Firing>, features: seq<string>, r: Resolution)
    requires CalledInTime(log, features) && Ready(r.deps, features)
    ensures CalledInTime(log + [Firing(r, features)], features)
  {
    assert (log + [Firing(r, features)])[..|log|] == log;
  }

  lemma {:induction false} CalledInTimeLater(log: seq<Firing>, features: seq<string>, feature: string)
    requires CalledInTime(log, features)
    ensures CalledInTime(log, features + [feature])
    decreases |log|
  {
    if log != [] {
      ExtendsSnoc(log[|log| - 1].seen, features, feature);
      CalledInTimeLater(log[..|log| - 1], features, feature);
    }
  }

  ghost function Count<T>(list: seq<T>, x: T): nat
    decreases |list|
  {
    if list == [] then 0 else Count(list[..|list| - 1], x) + if list[|list| - 1] == x then 1 else 0
  }

  ghost function Calls(log: seq<Firing>, x: Resolution): nat
    decreases |log|
  {
    if log == [] then 0 else Calls(log[..|log| - 1], x) + if log[|log| - 1].r == x then 1 else 0
  }

  lemma {:induction false} CountSnoc<T>(list: seq<T>, r: T, x: T)
    ensures Count(list + [r], x) == Count(list, x) + if r == x then 1 else 0
  {
    assert (list + [r])[..|list|] == list;
  }

  lemma {:induction false} CountConcat<T>(a: seq<T>, b: seq<T>, x: T)
    ensures Count(a + b, x) == Count(a, x) + Count(b, x)
    decreases |b|
  {
    if b == [] {
      assert a + b == a;
    } else {
      var n := |b| - 1;
      assert a + b == a + b[..n] + [b[n]];
      CountConcat(a, b[..n], x);
      CountSnoc(a + b[..n], b[n], x);
    }
  }

  lemma {:induction false} CountCons<T>(r: T, list: seq<T>, x: T)
    ensures Count([r] + list, x) == Count(list, x) + if r == x then 1 else 0
  {
    CountConcat([r], list, x);
    assert [r][..0] == [];
  }

  /** Whatever was required has been called, is due to be called, or waits: each the right number of times. */
  ghost predicate Balanced(log: seq<Firing>, due: seq<Resolution>, pending: seq<Resolution>, optional: seq<Resolution>,
    required: seq<Resolution>)
  {
    forall x :: Calls(log, x) + Count(due, x) + Count(pending, x) + Count(optional, x) == Count(required, x)
  }

  lemma {:induction false} BalancedRequire(log: seq<Firing>, due: seq<Resolution>, p: seq<Resolution>, o: seq<Resolution>,
    required: seq<Resolution>, r: Resolution)
    requires Balanced(log, due, p, o, required)
    ensures Balanced(log, [r] + due, p, o, required + [r])
    ensures Balanced(log, due, p + [r], o, required + [r])
    ensures Balanced(log, due, p, o + [r], required + [r])
  {
    forall x
      ensures Count(required + [r], x) == Count(required, x) + if r == x then 1 else 0
      ensures Count([r] + due, x) == Count(due, x) + if r == x then 1 else 0
      ensures Count(p + [r], x) == Count(p, x) + if r == x then 1 else 0
      ensures Count(o + [r], x) == Count(o, x) + if r == x then 1 else 0
    {
      CountCons(r, due, x);
      CountSnoc(required, r, x);
      CountSnoc(p, r, x);
      CountSnoc(o, r, x);
    }
  }

  lemma {:induction false} BalancedCall(log: seq<Firing>, due: seq<Resolution>, p: seq<Resolution>, o: seq<Resolution>,
    required: seq<Resolution>, f: Firing)
    requires Balanced(log, [f.r] + due, p, o, required)
    ensures Balanced(log + [f], due, p, o, required)
  {
    assert (log + [f])[..|log|] == log;
    forall x
      ensures Calls(log + [f], x) + Count(due, x) + Count(p, x) + Count(o, x) == Count(required, x)
    {
      CountCons(f.r, due, x);
    }
  }

  lemma {:induction false} CallKeeps(log: seq<Firing>, due: seq<Resolution>, p: seq<Resolution>, o: seq<Resolution>,
    required: seq<Resolution>, features: seq<string>, r: Resolution)
    requires CalledInTime(log, features) && Ready(r.deps, features) && due != [] && due[0] == r && Balanced(log, due, p, o, required)
    ensures CalledInTime(log + [Firing(r, features)], features) && Balanced(log + [Firing(r, features)], due[1..], p, o, required)
  {
    assert due == [r] + due[1..];
    CalledInTimeSnoc(log, features, r);
    BalancedCall(log, due[1..], p, o, required, Firing(r, features));
  }

  // ---- Who asked for what was done ----

  /** What an instance has registered, started, been required to call, and called. */
  datatype Books = Books(features: seq<string>, started: seq<string>, required: seq<Resolution>, log: seq<Firing>)

  /** How often an action was carried out. */
  ghost function Done(b: Books, x: Action): nat
  {
    match x
    case Require(r) => Count(b.required, r)
    case Add(f) => Count(b.features, f) + Count(b.started, f)
  }

  /** How often the callbacks that were called ask for an action. */
  ghost function Asked(log: seq<Firing>, x: Action): nat
    decreases |log|
  {
    if log == [] then 0 else Asked(log[..|log| - 1], x) + Count(log[|log| - 1].r.body, x)
  }

  /** What was done from one moment to another is what the callbacks called in between ask for, and these actions. */
  ghost predicate Does(from: Books, to: Books, actions: seq<Action>)
  {
    forall x :: Done(to, x) - Asked(to.log, x) == Done(from, x) - Asked(from.log, x) + Count(actions, x)
  }

  lemma {:induction false} DoesBoth(a: Books, b: Books, c: Books, first: seq<Action>, second: seq<Action>)
    requires Does(a, b, first) && Does(b, c, second)
    ensures Does(a, c, first + second)
  {
    forall x
      ensures Done(c, x) - Asked(c.log, x) == Done(a, x) - Asked(a.log, x) + Count(first + second, x)
    {
      CountConcat(first, second, x);
    }
  }

  lemma {:induction false} DoesRequire(b: Books, r: Resolution)
    ensures Does(b, b.(required := b.required + [r]), [Require(r)])
  {
    forall x
      ensures Done(b.(required := b.required + [r]), x) == Done(b, x) + Count([Require(r)], x)
    {
      CountSnoc([], Require(r), x);
      assert [] + [Require(r)] == [Require(r)];
      if x.Require? {
        CountSnoc(b.required, r, x.r);
      }
    }
  }

  lemma {:induction false} DoesAdd(b: Books, feature: string)
    ensures Does(b, b.(features := b.features + [feature]), [Add(feature)])
    ensures Does(b, b.(started := b.started + [feature]), [Add(feature)])
  {
    forall x
      ensures Done(b.(features := b.features + [feature]), x) == Done(b, x) + Count([Add(feature)], x)
      ensures Done(b.(started := b.started + [feature]), x) == Done(b, x) + Count([Add(feature)], x)
    {
      CountSnoc([], Add(feature), x);
      assert [] + [Add(feature)] == [Add(feature)];
      if x.Add? {
        CountSnoc(b.features, feature, x.feature);
        CountSnoc(b.started, feature, x.feature);
      }
    }
  }

  /** A callback that is called and does what it asks for leaves nothing open. */
  lemma {:induction false} DoesBody(a: Books, f: Firing, b: Books)
    requires Does(a.(log := a.log + [f]), b, f.r.body)
    ensures Does(a, b, [])
  {
    assert (a.log + [f])[..|a.log|] == a.log;
    forall x
      ensures Done(b, x) - Asked(b.log, x) == Done(a, x) - Asked(a.log, x)
    {
      assert Done(a.(log := a.log + [f]), x) == Done(a, x);
    }
  }

  lemma {:induction false} DoesNothing(b: Books)
    ensures Does(b, b, [])
  {
  }

  // ---- Separating what has become available ----

  function Available(list: seq<Resolution>, features: seq<string>): seq<Resolution>
    decreases |list|
  {
    if list == [] then []
    else
      var n := |list| - 1;
      if Ready(list[n].deps, features) then Available(list[..n], features) + [list[n]] else Available(list[..n], features)
  }

  function Waiting(list: seq<Resolution>, features: seq<string>): seq<Resolution>
    decreases |list|
  {
    if list == [] then []
    else
      var n := |list| - 1;
      if Ready(list[n].deps, features) then Waiting(list[..n], features) else Waiting(list[..n], features) + [list[n]]
  }

  lemma {:induction false} SeparationWeight(list: seq<Resolution>, features: seq<string>)
    ensures ListWeight(Available(list, features)) + ListWeight(Waiting(list, features)) == ListWeight(list)
    decreases |list|
  {
    if list != [] {
      var n := |list| - 1;
      SeparationWeight(list[..n], features);
      ListWeightSnoc(Available(list[..n], features), list[n]);
      ListWeightSnoc(Waiting(list[..n], features), list[n]);
    }
  }

  lemma {:induction false} SeparationCount(list: seq<Resolution>, features: seq<string>, x: Resolution)
    ensures Count(Available(list, features), x) + Count(Waiting(list, features), x) == Count(list, x)
    decreases |list|
  {
    if list != [] {
      var n := |list| - 1;
      SeparationCount(list[..n], features, x);
      CountSnoc(Available(list[..n], features), list[n], x);
      CountSnoc(Waiting(list[..n], features), list[n], x);
    }
  }

  lemma {:induction false} WaitingLacks(list: seq<Resolution>, features: seq<string>, feature: string, optional: bool)
    requires Lacking(list, features, optional)
    ensures Lacking(Waiting(list, features + [feature]), features + [feature], optional)
    decreases |list|
  {
    if list != [] {
      var n := |list| - 1;
      WaitingLacks(list[..n], features, feature, optional);
      if !Ready(list[n].deps, features + [feature]) {
        LackingSnoc(Waiting(list[..n], features + [feature]), features + [feature], list[n]);
      }
    }
  }

  /** Everything in the list has all its features. */
  ghost predicate AllReady(list: seq<Resolution>, features: seq<string>)
    decreases |list|
  {
    list != [] ==> Ready(list[|list| - 1].deps, features) && AllReady(list[..|list| - 1], features)
  }

  lemma {:induction false} AvailableReady(list: seq<Resolution>, features: seq<string>)
    ensures AllReady(Available(list, features), features)
    decreases |list|
  {
    if list != [] {
      AvailableReady(list[..|list| - 1], features);
    }
  }

  lemma {:induction false} AllReadyAt(list: seq<Resolution>, features: seq<string>, i: nat)
    requires AllReady(list, features) && i < |list|
    ensures Ready(list[i].deps, features)
    decreases |list|
  {
    if i < |list| - 1 {
      AllReadyAt(list[..|list| - 1], features, i);
    }
  }

  lemma {:induction false} AllReadyConcat(a: seq<Resolution>, b: seq<Resolution>, features: seq<string>)
    requires AllReady(a, features) && AllReady(b, features)
    ensures AllReady(a + b, features)
    decreases |b|
  {
    if b == [] {
      assert a + b == a;
    } else {
      AllReadyConcat(a, b[..|b| - 1], features);
      assert (a + b)[..|a + b| - 1] == a + b[..|b| - 1];
    }
  }

  lemma {:induction false} BalancedSeparate(log: seq<Firing>, due: seq<Resolution>, p: seq<Resolution>, o: seq<Resolution>,
    required: seq<Resolution>, features: seq<string>)
    requires Balanced(log, due, p, o, required)
    ensures Balanced(log, Available(p, features) + Available(o, features) + due, Waiting(p, features), Waiting(o, features), required)
  {
    var ap, ao := Available(p, features), Available(o, features);
    forall x
      ensures Calls(log, x) + Count(ap + ao + due, x) + Count(Waiting(p, features), x) + Count(Waiting(o, features), x)
           == Count(required, x)
    {
      SeparationCount(p, features, x);
      SeparationCount(o, features, x);
      CountConcat(ap, ao, x);
      CountConcat(ap + ao, due, x);
    }
  }

  lemma {:induction false} ReleaseKeeps(log: seq<Firing>, due: seq<Resolution>, p: seq<Resolution>, o: seq<Resolution>,
    required: seq<Resolution>, features: seq<string>, feature: string)
    requires Lacking(p, features, false) && Lacking(o, features, true) && CalledInTime(log, features)
    requires Balanced(log, due, p, o, required)
    ensures var more := features + [feature];
            var list := Available(p, more) + Available(o, more);
            && Lacking(Waiting(p, more), more, false) && Lacking(Waiting(o, more), more, true) && CalledInTime(log, more)
            && Balanced(log, list + due, Waiting(p, more), Waiting(o, more), required)
            && AllReady(list, more)
            && ListWeight(Waiting(p, more)) + ListWeight(Waiting(o, more)) + ListWeight(list) == ListWeight(p) + ListWeight(o)
  {
    var more := features + [feature];
    WaitingLacks(p, features, feature, false);
    WaitingLacks(o, features, feature, true);
    CalledInTimeLater(log, features, feature);
    BalancedSeparate(log, due, p, o, required, more);
    SeparationWeight(p, more);
    SeparationWeight(o, more);
    AvailableReady(p, more);
    AvailableReady(o, more);
    ListWeightConcat(Available(p, more), Available(o, more));
    AllReadyConcat(Available(p, more), Available(o, more), more);
  }

  // ---- The instance ----

  class Instance {
    var features: seq<string>
    var pending: seq<Resolution>
    var pendingOptional: seq<Resolution>
    var running: bool
    /** The features that came too late to be registered and were only started. */
    var started: seq<string>
    /** Every callback call so far, the resolutions taken off the lists and not called yet, and everything required. */
    ghost var log: seq<Firing>
    ghost var due: seq<Resolution>
    ghost var required: seq<Resolution>

    /** Whatever waits lacks a feature, nothing was called before its features were there, nothing is lost or doubled. */
    ghost predicate Valid()
      reads this
    {
      && Lacking(pending, features, false)
      && Lacking(pendingOptional, features, true)
      && CalledInTime(log, features)
      && Balanced(log, due, pending, pendingOptional, required)
    }

    ghost function Now(): Books
      reads this
    {
      Books(features, started, required, log)
    }

    ghost function Load(): nat
      reads this
    {
      ListWeight(pending) + ListWeight(pendingOptional)
    }

    constructor ()
      ensures Valid() && features == [] && !running && started == [] && log == [] && due == [] && required == []
    {
      features, pending, pendingOptional, running, started := [], [], [], false, [];
      log, due, required := [], [], [];
    }

    method FoundAll(deps: seq<string>) returns (found: bool)
      ensures found <==> Ready(deps, features)
    {
      for i := 0 to |deps|
        invariant forall j :: 0 <= j < i ==> deps[j] in features
      {
        if deps[i] !in features {
          return false;
        }
      }
      return true;
    }

    method Separate(list: seq<Resolution>) returns (available: seq<Resolution>, waiting: seq<Resolution>)
      ensures available == Available(list, features) && waiting == Waiting(list, features)
    {
      available, waiting := [], [];
      for i := 0 to |list|
        invariant available == Available(list[..i], features) && waiting == Waiting(list[..i], features)
      {
        assert list[..i + 1][..i] == list[..i];
        var found := FoundAll(list[i].deps);
        if found {
          available := available + [list[i]];
        } else {
          waiting := waiting + [list[i]];
        }
      }
      assert list[..|list|] == list;
    }

    method RequireFeatures(r: Resolution) returns (err: bool)
      requires Valid()
      modifies this
      ensures err == (Ready(r.deps, old(features)) && r.fails)
      ensures Valid() && due == old(due) && running == old(running)
      ensures Extends(old(features), features) && Extends(old(required) + [r], required)
      ensures Load() <= old(Load()) + Weight(r)
      ensures Does(old(Now()), Now(), [Require(r)])
      ensures running || started == old(started)
      decreases Load() + Weight(r), 3
    {
      DoesRequire(Now(), r);
      BalancedRequire(log, due, pending, pendingOptional, required, r);
      required := required + [r];
      var found := FoundAll(r.deps);
      if found {
        due := [r] + due;
        ghost var between := Now();
        err := Callback(r);
        DoesBoth(old(Now()), between, Now(), [Require(r)], []);
        assert [Require(r)] + [] == [Require(r)];
        return;
      } else if r.optional {
        ListWeightSnoc(pendingOptional, r);
        LackingSnoc(pendingOptional, features, r);
        pendingOptional := pendingOptional + [r];
      } else {
        ListWeightSnoc(pending, r);
        LackingSnoc(pending, features, r);
        pending := pending + [r];
      }
      return false;
    }

    /** Registers a feature and calls everything it completes; on a running instance it is only started. The error is that
        of the last callback. */
    method AddFeature(feature: string) returns (err: bool)
      requires Valid()
      modifies this
      ensures err == (!running && LastFails(old(Completed(feature))))
      ensures running ==> started == old(started) + [feature]
      ensures Valid() && due == old(due) && running == old(running)
      ensures Extends(if running then old(features) else old(features) + [feature], features) && Extends(old(required), required)
      ensures running ==> features == old(features) && log == old(log) && required == old(required)
      ensures Load() <= old(Load())
      ensures Does(old(Now()), Now(), [Add(feature)])
      ensures running || started == old(started)
      decreases Load(), 3
    {
      DoesAdd(Now(), feature);
      if running {
        started := started + [feature];
        return false;
      }
      var list := Release(feature);
      ghost var between := Now();
      err := CallAll(list, old(due));
      DoesBoth(old(Now()), between, Now(), [Add(feature)], []);
      assert [Add(feature)] + [] == [Add(feature)];
    }

    /** What a feature completes, in the order in which it is called. */
    ghost function Completed(feature: string): seq<Resolution>
      reads this
    {
      Available(pending, features + [feature]) + Available(pendingOptional, features + [feature])
    }

    /** The locked part of AddFeature: registers the feature and takes what it completes off the two lists. */
    method Release(feature: string) returns (list: seq<Resolution>)
      requires Valid()
      modifies this
      ensures Valid() && running == old(running) && Now() == old(Now()).(features := old(features) + [feature])
      ensures AllReady(list, features)
      ensures due == list + old(due) && list == old(Completed(feature))
      ensures Load() + ListWeight(list) == old(Load())
    {
      ghost var p, o := pending, pendingOptional;
      ReleaseKeeps(log, due, p, o, required, features, feature);
      features := features + [feature];
      list := TakeAvailable();
      due := list + due;
    }

    /** Takes what has become available off the two lists. */
    method TakeAvailable() returns (list: seq<Resolution>)
      modifies this`pending, this`pendingOptional
      ensures list == Available(old(pending), features) + Available(old(pendingOptional), features)
      ensures pending == Waiting(old(pending), features) && pendingOptional == Waiting(old(pendingOptional), features)
    {
      var available, waiting := Separate(pending);
      pending := waiting;
      var rest, waitingOptional := Separate(pendingOptional);
      pendingOptional := waitingOptional;
      list := available + rest;
    }

    method CallAll(list: seq<Resolution>, ghost rest: seq<Resolution>) returns (err: bool)
      requires Valid() && AllReady(list, features) && due == list + rest
      modifies this
      ensures err == LastFails(list)
      ensures Valid() && due == rest && running == old(running)
      ensures Extends(old(features), features) && Extends(old(required), required)
      ensures Load() <= old(Load()) + ListWeight(list)
      ensures Does(old(Now()), Now(), [])
      ensures running || started == old(started)
      decreases Load() + ListWeight(list), 2
    {
      ghost var features0, required0, bound := features, required, Load() + ListWeight(list);
      DoesNothing(Now());
      err := false;
      for i := 0 to |list|
        invariant err == LastFails(list[..i])
        invariant Valid() && due == list[i..] + rest && running == old(running)
        invariant Extends(features0, features) && Extends(required0, required)
        invariant Load() + ListWeight(list[i..]) <= bound
        invariant Does(old(Now()), Now(), [])
        invariant running || started == old(started)
      {
        ghost var between := Now();
        assert list[i..] == [list[i]] + list[i + 1..];
        Assoc([list[i]], list[i + 1..], rest);
        ListWeightCons(list[i], list[i + 1..]);
        AllReadyAt(list, features0, i);
        ReadyExtends(list[i].deps, features0, features);
        ghost var features1, required1 := features, required;
        assert due == [list[i]] + (list[i + 1..] + rest) && due[1..] == list[i + 1..] + rest;
        err := Callback(list[i]);
        DoesBoth(old(Now()), between, Now(), [], []);
        ExtendsTransitive(features0, features1, features);
        ExtendsTransitive(required0, required1, required);
      }
      assert list[..|list|] == list;
    }

    /** Calls a callback whose features are there. */
    method Callback(r: Resolution) returns (err: bool)
      requires Valid() && Ready(r.deps, features) && due != [] && due[0] == r
      modifies this
      ensures Valid() && due == old(due)[1..] && running == old(running) && err == r.fails
      ensures Extends(old(features), features) && Extends(old(required), required)
      ensures Load() <= old(Load()) + Weight(r)
      ensures Does(old(Now()), Now(), [])
      ensures running || started == old(started)
      decreases Load() + Weight(r), 1
    {
      ghost var rest, f := due[1..], Firing(r, features);
      CallKeeps(log, due, pending, pendingOptional, required, features, r);
      ghost var before := Now();
      due, log := rest, log + [f];
      ghost var called := Now();
      Execute(r.body);
      assert called == before.(log := before.log + [f]);
      DoesBody(before, f, Now());
      err := r.fails;
    }

    method Act(a: Action)
      requires Valid()
      modifies this
      ensures Valid() && due == old(due) && running == old(running)
      ensures Extends(old(features), features) && Extends(old(required), required)
      ensures Load() <= old(Load()) + ActionWeight(a)
      ensures Does(old(Now()), Now(), [a])
      ensures running || started == old(started)
      decreases Load() + ActionWeight(a), 0
    {
      match a {
        case Require(r) =>
          var _ := RequireFeatures(r);
          ExtendsSnoc(old(required), old(required), r);
          ExtendsTransitive(old(required), old(required) + [r], required);
        case Add(feature) =>
          var _ := AddFeature(feature);
          ExtendsSnoc(old(features), old(features), feature);
          if !running {
            ExtendsTransitive(old(features), old(features) + [feature], features);
          }
      }
    }

    /** What a callback, or the program that sets the instance up, does with it. */
    method Execute(actions: seq<Action>)
      requires Valid()
      modifies this
      ensures Valid() && due == old(due) && running == old(running)
      ensures Extends(old(features), features) && Extends(old(required), required)
      ensures Load() <= old(Load()) + ActionsWeight(actions)
      ensures Does(old(Now()), Now(), actions)
      ensures running || started == old(started)
      decreases Load() + ActionsWeight(actions), 1
    {
      ghost var bound := Load() + ActionsWeight(actions);
      DoesNothing(Now());
      var i := 0;
      while i < |actions|
        invariant 0 <= i <= |actions|
        invariant Valid() && due == old(due) && running == old(running)
        invariant Extends(old(features), features) && Extends(old(required), required)
        invariant Load() + ActionsWeight(actions[i..]) <= bound
        invariant Does(old(Now()), Now(), actions[..i])
        invariant running || started == old(started)
      {
        ghost var between := Now();
        ghost var features1, required1 := features, required;
        assert actions[i..][1..] == actions[i + 1..] && actions[i..][0] == actions[i];
        Act(actions[i]);
        ExtendsTransitive(old(features), features1, features);
        ExtendsTransitive(old(required), required1, required);
        DoesBoth(old(Now()), between, Now(), actions[..i], [actions[i]]);
        assert actions[..i + 1] == actions[..i] + [actions[i]];
        i := i + 1;
      }
      assert actions[..|actions|] == actions;
    }
  }

  // ---- What every run leaves ----

  lemma {:induction false} NotCalledEarly(log: seq<Firing>, features: seq<string>, x: Resolution)
    requires CalledInTime(log, features) && Calls(log, x) > 0
    ensures Ready(x.deps, features)
    decreases |log|
  {
    var n := |log| - 1;
    if log[n].r == x {
      ReadyExtends(x.deps, log[n].seen, features);
    } else {
      NotCalledEarly(log[..n], features, x);
    }
  }

  lemma {:induction false} LackingCount(list: seq<Resolution>, features: seq<string>, optional: bool, x: Resolution)
    requires Lacking(list, features, optional) && Count(list, x) > 0
    ensures !Ready(x.deps, features) && x.optional == optional
    decreases |list|
  {
    if list[|list| - 1] != x {
      LackingCount(list[..|list| - 1], features, optional, x);
    }
  }

  /** After any run, what was called is decided by what was required and what is registered: each resolution with all
      its features as often as it was required, any other never; the others wait. */
  lemma {:induction false} CalledExactly(i: Instance, x: Resolution)
    requires i.Valid() && i.due == []
    ensures Calls(i.log, x) == if Ready(x.deps, i.features) then Count(i.required, x) else 0
    ensures Count(if x.optional then i.pendingOptional else i.pending, x) ==
            if Ready(x.deps, i.features) then 0 else Count(i.required, x)
  {
    assert Count(i.required, x) == Calls(i.log, x) + Count(i.due, x) + Count(i.pending, x) + Count(i.pendingOptional, x);
    if Calls(i.log, x) > 0 {
      NotCalledEarly(i.log, i.features, x);
    }
    if Count(i.pending, x) > 0 {
      LackingCount(i.pending, i.features, false, x);
    }
    if Count(i.pendingOptional, x) > 0 {
      LackingCount(i.pendingOptional, i.features, true, x);
    }
  }

  lemma {:induction false} CountPositive(list: seq<Resolution>, x: Resolution)
    ensures Count(list, x) > 0 <==> x in list
    decreases |list|
  {
    if list != [] {
      CountPositive(list[..|list| - 1], x);
      assert list == list[..|list| - 1] + [list[|list| - 1]];
    }
  }

  /** The start-up check for unresolved dependencies passes if and only if every callback that is not optional has all its
      features. */
  lemma {:induction false} AllResolvedIff(i: Instance)
    requires i.Valid() && i.due == []
    ensures i.pending == [] <==> forall x :: x in i.required && !x.optional ==> Ready(x.deps, i.features)
  {
    if i.pending == [] {
      forall x | x in i.required && !x.optional
        ensures Ready(x.deps, i.features)
      {
        CalledExactly(i, x);
        CountPositive(i.required, x);
      }
    } else {
      var x := i.pending[|i.pending| - 1];
      CalledExactly(i, x);
      CountPositive(i.pending, x);
      CountPositive(i.required, x);
    }
  }

  /** How often a program and the callbacks that were called ask for an action. */
  ghost function Wanted(program: seq<Action>, log: seq<Firing>, x: Action): nat
  {
    Count(program, x) + Asked(log, x)
  }

  /** Setting up an instance: every callback is called as often as the program and the callbacks that were called
      require it, if all its features are registered, and never otherwise; the features registered are those that the
      program and these callbacks add. */
  method SetUp(program: seq<Action>) returns (i: Instance)
    ensures i.Valid() && i.due == [] && !i.running
    ensures forall r :: Calls(i.log, r) == if Ready(r.deps, i.features) then Wanted(program, i.log, Require(r)) else 0
    ensures forall f :: Count(i.features, f) == Wanted(program, i.log, Add(f))
  {
    i := new Instance();
    ghost var start := i.Now();
    i.Execute(program);
    forall r
      ensures Calls(i.log, r) == if Ready(r.deps, i.features) then Wanted(program, i.log, Require(r)) else 0
    {
      CalledExactly(i, r);
      DoneBy(start, i.Now(), program, Require(r));
    }
    forall f
      ensures Count(i.features, f) == Wanted(program, i.log, Add(f))
    {
      DoneBy(start, i.Now(), program, Add(f));
    }
  }

  lemma {:induction false} DoneBy(start: Books, b: Books, program: seq<Action>, x: Action)
    requires start == Books([], [], [], []) && Does(start, b, program)
    ensures Done(b, x) == Wanted(program, b.log, x)
  {
  }
}
