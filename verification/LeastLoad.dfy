/** Least-load selection: the observed outbounds are filtered, sorted, and a prefix is chosen by baselines. */
module LeastLoad {
  import opened Bytes

  datatype Ping = Ping(average: int, deviation: int, all: int, fail: int)
  datatype Status = Status(tag: seq<byte>, alive: bool, delay: int, ping: Option<Ping>)
  datatype Node = Node(tag: seq<byte>, countAll: int, countFail: int, average: int, deviation: int, cost: int)

  const MILLISECOND := 1_000_000

  // ---- The comparator ----

  /** The order of byte strings. */
  predicate TagLess(a: seq<byte>, b: seq<byte>)
  {
    if b == [] then false
    else if a == [] then true
    else if a[0] != b[0] then a[0] < b[0]
    else TagLess(a[1..], b[1..])
  }

  predicate Less(left: Node, right: Node)
  {
    if left.cost != right.cost then left.cost < right.cost
    else if left.average != right.average then left.average < right.average
    else if left.countFail != right.countFail then left.countFail < right.countFail
    else if left.countAll != right.countAll then left.countAll > right.countAll
    else TagLess(left.tag, right.tag)
  }

  lemma {:induction false} TagTrichotomy(a: seq<byte>, b: seq<byte>)
    ensures a == b ==> !TagLess(a, b) && !TagLess(b, a)
    ensures a != b ==> (TagLess(a, b) <==> !TagLess(b, a))
    decreases |a|
  {
    if a != [] && b != [] {
      TagTrichotomy(a[1..], b[1..]);
      assert a == [a[0]] + a[1..] && b == [b[0]] + b[1..];
    }
  }

  lemma {:induction false} TagTransitive(a: seq<byte>, b: seq<byte>, c: seq<byte>)
    requires TagLess(a, b) && TagLess(b, c)
    ensures TagLess(a, c)
    decreases |a|
  {
    if a != [] && a[0] == b[0] == c[0] {
      TagTransitive(a[1..], b[1..], c[1..]);
    }
  }

  /** The comparator is a strict total order on nodes with distinct tags. */
  lemma {:induction false} StrictTotalOrder(a: Node, b: Node, c: Node)
    ensures !Less(a, a)
    ensures Less(a, b) && Less(b, c) ==> Less(a, c)
    ensures a.tag != b.tag ==> (Less(a, b) <==> !Less(b, a))
  {
    TagTrichotomy(a.tag, a.tag);
    TagTrichotomy(a.tag, b.tag);
    if TagLess(a.tag, b.tag) && TagLess(b.tag, c.tag) {
      TagTransitive(a.tag, b.tag, c.tag);
    }
  }

  /** "Not after" is transitive whatever the tags. */
  lemma {:induction false} NotAfterTransitive(a: Node, b: Node, c: Node)
    requires !Less(b, a) && !Less(c, b)
    ensures !Less(c, a)
  {
    TagTrichotomy(a.tag, b.tag);
    TagTrichotomy(b.tag, c.tag);
    if TagLess(c.tag, a.tag) {
      if a.tag == b.tag || b.tag == c.tag {
      } else if TagLess(a.tag, b.tag) {
        TagTransitive(c.tag, a.tag, b.tag);
      }
    }
  }

  lemma {:induction false} Asymmetric(a: Node, b: Node)
    requires Less(a, b)
    ensures !Less(b, a)
  {
    TagTrichotomy(a.tag, b.tag);
  }

  // ---- What the comparator compares ----

  /** The first difference decides, or a proper prefix comes first. */
  ghost predicate Before(a: seq<int>, b: seq<int>)
  {
    exists i :: 0 <= i <= |a| && i < |b| && a[..i] == b[..i] && (i < |a| ==> a[i] < b[i])
  }

  /** Cheap, fast and reliable nodes first, then the ones probed more often, then by tag. */
  ghost function Rank(n: Node): seq<int>
  {
    [n.cost, n.average, n.countFail, -n.countAll] + n.tag
  }

  lemma {:induction false} BeforeCons(a: seq<int>, b: seq<int>)
    requires a != [] && b != []
    ensures Before(a, b) <==> a[0] < b[0] || (a[0] == b[0] && Before(a[1..], b[1..]))
  {
    if Before(a, b) && a[0] >= b[0] {
      var i :| 0 <= i <= |a| && i < |b| && a[..i] == b[..i] && (i < |a| ==> a[i] < b[i]);
      assert i > 0 && a[0] == a[..i][0] == b[..i][0];
      assert a[1..][..i - 1] == a[..i][1..] && b[1..][..i - 1] == b[..i][1..];
    }
    if a[0] < b[0] {
      assert a[..0] == b[..0];
    } else if a[0] == b[0] && Before(a[1..], b[1..]) {
      var i :| 0 <= i < |a| && i < |b| - 1 && a[1..][..i] == b[1..][..i] && (i < |a| - 1 ==> a[1..][i] < b[1..][i]);
      assert a[..i + 1] == [a[0]] + a[1..][..i] && b[..i + 1] == [b[0]] + b[1..][..i];
    }
  }

  lemma {:induction false} TagBefore(a: seq<byte>, b: seq<byte>)
    ensures TagLess(a, b) <==> Before(a, b)
    decreases |a|
  {
    if a == [] || b == [] {
      assert a[..0] == b[..0];
    } else {
      BeforeCons(a, b);
      TagBefore(a[1..], b[1..]);
    }
  }

  /** The comparator compares the ranks of the nodes. */
  lemma {:induction false} LessMeans(a: Node, b: Node)
    ensures Less(a, b) <==> Before(Rank(a), Rank(b))
  {
    var r, s := Rank(a), Rank(b);
    BeforeCons(r, s);
    BeforeCons(r[1..], s[1..]);
    BeforeCons(r[1..][1..], s[1..][1..]);
    BeforeCons(r[1..][1..][1..], s[1..][1..][1..]);
    assert r[1..][1..][1..][1..] == a.tag && s[1..][1..][1..][1..] == b.tag;
    TagBefore(a.tag, b.tag);
  }

  // ---- Sorting ----

  ghost predicate Sorted(s: seq<Node>)
  {
    forall i, j :: 0 <= i < j < |s| ==> !Less(s[j], s[i])
  }

  ghost predicate DistinctTags(s: seq<Node>)
  {
    forall i, j :: 0 <= i < j < |s| ==> s[i].tag != s[j].tag
  }

  lemma {:induction false} SameLength(a: seq<Node>, b: seq<Node>)
    requires multiset(a) == multiset(b)
    ensures |a| == |b| && forall x :: x in a ==> x in b
  {
    assert |multiset(a)| == |a| && |multiset(b)| == |b|;
    assert forall x :: x in a ==> x in multiset(b);
  }

  ghost function Position(s: seq<Node>, x: Node): (i: nat)
    requires x in s
    ensures i < |s| && s[i] == x
  {
    var i :| 0 <= i < |s| && s[i] == x;
    i
  }

  lemma {:induction false} Without(s: seq<Node>, i: nat)
    requires i < |s|
    ensures multiset(s[..i] + s[i + 1..]) == multiset(s) - multiset{s[i]}
  {
    assert s == s[..i] + ([s[i]] + s[i + 1..]);
    assert multiset(s) == multiset(s[..i]) + multiset([s[i]] + s[i + 1..]);
  }

  lemma {:induction false} SameWithout(a: seq<Node>, b: seq<Node>, i: nat)
    requires multiset(a) == multiset(b) && a != [] && i < |b| && b[i] == a[0]
    ensures multiset(a[1..]) == multiset(b[..i] + b[i + 1..])
  {
    WithoutFirst(a);
    Without(b, i);
  }

  lemma {:induction false} WithoutFirst(s: seq<Node>)
    requires s != []
    ensures multiset(s[1..]) == multiset(s) - multiset{s[0]}
  {
    assert s == [s[0]] + s[1..];
  }

  /** With distinct tags there is only one sorted arrangement, so the sorting algorithm does not matter. */
  lemma {:induction false} SortingUnique(a: seq<Node>, b: seq<Node>)
    requires Sorted(a) && Sorted(b) && DistinctTags(a) && multiset(a) == multiset(b)
    ensures a == b
    decreases |a|
  {
    SameLength(a, b);
    SameLength(b, a);
    if a != [] {
      SameFirst(a, b);
      WithoutFirst(a);
      WithoutFirst(b);
      SortingUnique(a[1..], b[1..]);
      assert a == [a[0]] + a[1..] && b == [b[0]] + b[1..];
    }
  }

  lemma {:induction false} SameFirst(a: seq<Node>, b: seq<Node>)
    requires Sorted(a) && Sorted(b) && DistinctTags(a) && a != [] && b != [] && b[0] in a && a[0] in b
    ensures a[0] == b[0]
  {
    FirstIsLeast(a, b[0]);
    FirstIsLeast(b, a[0]);
    StrictTotalOrder(a[0], b[0], b[0]);
    assert a[Position(a, b[0])] == b[0];
  }

  lemma {:induction false} FirstIsLeast(s: seq<Node>, x: Node)
    requires Sorted(s) && x in s
    ensures !Less(x, s[0])
  {
    StrictTotalOrder(x, x, x);
    var i :| 0 <= i < |s| && s[i] == x;
  }

  function Insert(s: seq<Node>, x: Node): seq<Node>
  {
    if s == [] then [x] else if Less(x, s[0]) then [x] + s else [s[0]] + Insert(s[1..], x)
  }

  lemma {:induction false} InsertMembers(s: seq<Node>, x: Node)
    ensures multiset(Insert(s, x)) == multiset(s) + multiset{x}
    decreases |s|
  {
    if s != [] {
      InsertMembers(s[1..], x);
      assert s == [s[0]] + s[1..];
    }
  }

  lemma {:induction false} InsertSorted(s: seq<Node>, x: Node)
    requires Sorted(s)
    ensures Sorted(Insert(s, x))
    decreases |s|
  {
    if s != [] {
      forall y | y in s ensures !Less(y, s[0]) {
        FirstIsLeast(s, y);
      }
      if Less(x, s[0]) {
        Asymmetric(x, s[0]);
        forall y | y in s ensures !Less(y, x) {
          NotAfterTransitive(x, s[0], y);
        }
        ConsSorted(x, s);
      } else {
        InsertSorted(s[1..], x);
        InsertMembers(s[1..], x);
        var rest := Insert(s[1..], x);
        assert forall y :: y in rest ==> y in multiset(rest);
        ConsSorted(s[0], rest);
      }
    }
  }

  lemma {:induction false} ConsSorted(x: Node, s: seq<Node>)
    requires Sorted(s) && forall y :: y in s ==> !Less(y, x)
    ensures Sorted([x] + s)
  {
  }

  method LeastLoadSort(nodes: seq<Node>) returns (r: seq<Node>)
    ensures Sorted(r) && multiset(r) == multiset(nodes)
  {
    r := [];
    for i := 0 to |nodes|
      invariant Sorted(r) && multiset(r) == multiset(nodes[..i])
    {
      InsertSorted(r, nodes[i]);
      InsertMembers(r, nodes[i]);
      assert nodes[..i + 1] == nodes[..i] + [nodes[i]];
      r := Insert(r, nodes[i]);
    }
    assert nodes[..|nodes|] == nodes;
  }

  // ---- Which prefix is selected ----

  function CountBelow(nodes: seq<Node>, baseline: int): nat
  {
    if nodes == [] then 0 else (if nodes[0].cost < baseline then 1 else 0) + CountBelow(nodes[1..], baseline)
  }

  lemma {:induction false} CountConcat(a: seq<Node>, b: seq<Node>, baseline: int)
    ensures CountBelow(a + b, baseline) == CountBelow(a, baseline) + CountBelow(b, baseline)
    decreases |a|
  {
    if a == [] {
      assert a + b == b;
    } else {
      assert (a + b)[1..] == a[1..] + b;
      CountConcat(a[1..], b, baseline);
    }
  }

  lemma {:induction false} CountWithout(s: seq<Node>, i: nat, baseline: int)
    requires i < |s|
    ensures CountBelow(s, baseline) == CountBelow(s[..i] + s[i + 1..], baseline) + if s[i].cost < baseline then 1 else 0
  {
    CountConcat(s[..i], s[i + 1..], baseline);
    CountConcat(s[..i], s[i..], baseline);
    assert s == s[..i] + s[i..] && s[i..][1..] == s[i + 1..];
  }

  lemma {:induction false} CountPermuted(a: seq<Node>, b: seq<Node>, baseline: int)
    requires multiset(a) == multiset(b)
    ensures CountBelow(a, baseline) == CountBelow(b, baseline)
    decreases |a|
  {
    SameLength(a, b);
    if a != [] {
      var i := Position(b, a[0]);
      SameWithout(a, b, i);
      CountPermuted(a[1..], b[..i] + b[i + 1..], baseline);
      CountWithout(b, i, baseline);
    }
  }

  /** On costs that never decrease, exactly the first CountBelow nodes are below the baseline. */
  lemma {:induction false} CountIsBoundary(nodes: seq<Node>, baseline: int, k: nat)
    requires Ascending(nodes) && Boundary(nodes, baseline, k)
    ensures CountBelow(nodes, baseline) == k
    decreases |nodes|
  {
    if nodes != [] {
      CountIsBoundary(nodes[1..], baseline, if k > 0 then k - 1 else 0);
    }
  }

  lemma {:induction false} CountAtMost(nodes: seq<Node>, baseline: int)
    ensures CountBelow(nodes, baseline) <= |nodes|
    decreases |nodes|
  {
    if nodes != [] {
      CountAtMost(nodes[1..], baseline);
    }
  }

  /** The first k nodes are below the baseline and the next one is not. */
  ghost predicate Boundary(nodes: seq<Node>, baseline: int, k: nat)
  {
    && k <= |nodes|
    && (forall i :: 0 <= i < k ==> nodes[i].cost < baseline)
    && (k < |nodes| ==> nodes[k].cost >= baseline)
  }

  ghost predicate Ascending(nodes: seq<Node>)
  {
    forall i, j :: 0 <= i < j < |nodes| ==> nodes[i].cost <= nodes[j].cost
  }

  /** The largest of the first baselines. */
  function Highest(baselines: seq<int>): int
    requires baselines != []
  {
    var n := |baselines| - 1;
    if n == 0 then baselines[0] else Max(Highest(baselines[..n]), baselines[n])
  }

  /** The nodes below some of the first baselines. */
  function Reach(nodes: seq<Node>, baselines: seq<int>): nat
  {
    if baselines == [] then 0 else CountBelow(nodes, Highest(baselines))
  }

  function Wanted(expected: int): nat
  {
    if expected <= 0 then 1 else expected
  }

  /** The first k baselines are the fewest that reach the wanted count. */
  ghost predicate Applied(nodes: seq<Node>, baselines: seq<int>, wanted: nat, k: nat)
    requires k <= |baselines|
  {
    && k > 0
    && Reach(nodes, baselines[..k]) >= wanted
    && forall j :: 0 <= j < k ==> Reach(nodes, baselines[..j]) < wanted
  }

  /** How many nodes are selected, in closed form. */
  ghost predicate Selects(nodes: seq<Node>, expected: int, baselines: seq<int>, n: nat)
  {
    if nodes == [] || expected > |nodes| then n == |nodes|
    else if baselines == [] then n == Wanted(expected)
    else if exists k :: 0 <= k <= |baselines| && Applied(nodes, baselines, Wanted(expected), k)
    then exists k :: 0 <= k <= |baselines| && Applied(nodes, baselines, Wanted(expected), k) && n == Reach(nodes, baselines[..k])
    else n == if expected > 0 then expected else 0
  }

  /** The closed form names one length. */
  lemma {:induction false} SelectsUnique(nodes: seq<Node>, expected: int, baselines: seq<int>, n: nat, m: nat)
    requires Selects(nodes, expected, baselines, n) && Selects(nodes, expected, baselines, m)
    ensures n == m
  {
    var wanted := Wanted(expected);
    if nodes != [] && expected <= |nodes| && baselines != [] && exists k :: 0 <= k <= |baselines| && Applied(nodes, baselines, wanted, k) {
      var k :| 0 <= k <= |baselines| && Applied(nodes, baselines, wanted, k) && n == Reach(nodes, baselines[..k]);
      var l :| 0 <= l <= |baselines| && Applied(nodes, baselines, wanted, l) && m == Reach(nodes, baselines[..l]);
      assert !(k < l) && !(l < k);
    }
  }

  /** Only how many nodes lie below each baseline matters, so the order does not. */
  lemma {:induction false} SelectsPermuted(nodes: seq<Node>, other: seq<Node>, expected: int, baselines: seq<int>, n: nat)
    requires multiset(nodes) == multiset(other) && Selects(nodes, expected, baselines, n)
    ensures Selects(other, expected, baselines, n)
  {
    assert |multiset(nodes)| == |nodes| && |multiset(other)| == |other|;
    forall k | 0 <= k <= |baselines|
      ensures Reach(nodes, baselines[..k]) == Reach(other, baselines[..k])
    {
      if k > 0 {
        CountPermuted(nodes, other, Highest(baselines[..k]));
      }
    }
    forall k | 0 <= k <= |baselines|
      ensures Applied(nodes, baselines, Wanted(expected), k) <==> Applied(other, baselines, Wanted(expected), k)
    {
    }
  }

  method Advance(nodes: seq<Node>, start: nat, baseline: int) returns (count: nat)
    requires start <= |nodes|
    ensures start <= count <= |nodes|
    ensures forall i :: start <= i < count ==> nodes[i].cost < baseline
    ensures count < |nodes| ==> nodes[count].cost >= baseline
  {
    count := start;
    for i := start to |nodes|
      invariant count == i
      invariant forall i :: start <= i < count ==> nodes[i].cost < baseline
    {
      if nodes[i].cost >= baseline {
        break;
      }
      count := i + 1;
    }
  }

  lemma {:induction false} HighestNext(nodes: seq<Node>, baselines: seq<int>, b: nat, count: nat, next: nat)
    requires Ascending(nodes) && b < |baselines| && count <= next <= |nodes|
    requires if b == 0 then count == 0 else Boundary(nodes, Highest(baselines[..b]), count)
    requires forall i :: count <= i < next ==> nodes[i].cost < baselines[b]
    requires next < |nodes| ==> nodes[next].cost >= baselines[b]
    ensures Boundary(nodes, Highest(baselines[..b + 1]), next)
    ensures Reach(nodes, baselines[..b + 1]) == next
  {
    assert baselines[..b + 1][..b] == baselines[..b];
    CountIsBoundary(nodes, Highest(baselines[..b + 1]), next);
  }

  method SelectLeastLoad(nodes: seq<Node>, expected: int, baselines: seq<int>) returns (r: seq<Node>)
    ensures |r| <= |nodes| && r == nodes[..|r|]
    ensures Ascending(nodes) ==> Selects(nodes, expected, baselines, |r|)
  {
    if |nodes| == 0 || expected > |nodes| {
      return nodes;
    }
    var wanted := if expected <= 0 then 1 else expected;
    if |baselines| == 0 {
      return nodes[..wanted];
    }
    var count := 0;
    var b := 0;
    while b < |baselines|
      invariant 0 <= b <= |baselines| && 0 <= count <= |nodes| && count < wanted
      invariant Ascending(nodes) ==> count == Reach(nodes, baselines[..b])
      invariant Ascending(nodes) ==> b > 0 ==> Boundary(nodes, Highest(baselines[..b]), count)
      invariant Ascending(nodes) ==> forall j :: 0 <= j <= b ==> Reach(nodes, baselines[..j]) < wanted
    {
      ghost var start := count;
      count := Advance(nodes, count, baselines[b]);
      if Ascending(nodes) {
        HighestNext(nodes, baselines, b, start, count);
      }
      if count >= wanted {
        assert Ascending(nodes) ==> Applied(nodes, baselines, Wanted(expected), b + 1) && count == Reach(nodes, baselines[..b + 1]);
        return nodes[..count];
      }
      b := b + 1;
    }
    if Ascending(nodes) {
      assert baselines[..|baselines|] == baselines;
      assert forall k :: 0 <= k <= |baselines| ==> !Applied(nodes, baselines, wanted, k);
    }
    if expected > 0 && count < wanted {
      count := wanted;
    }
    return nodes[..count];
  }

  // ---- The whole pick ----

  /** Whole milliseconds, truncated toward zero. */
  function Milliseconds(d: int): int
  {
    if d >= 0 then d / MILLISECOND else -((-d) / MILLISECOND)
  }

  predicate Qualifies(v: Status, candidates: seq<seq<byte>>, maxRTT: int)
  {
    v.alive && (v.delay < Milliseconds(maxRTT) || maxRTT == 0) && v.tag in candidates
  }

  /** The node of an observed outbound; weigh is the configured cost table. */
  function NodeOf(v: Status, weigh: (seq<byte>, int) -> int): Node
  {
    var delay := v.delay * MILLISECOND;
    match v.ping
    case None => Node(v.tag, 1, 1, delay, delay, weigh(v.tag, delay))
    case Some(p) => Node(v.tag, p.all, p.fail, p.average, p.deviation, weigh(v.tag, p.deviation))
  }

  function Qualified(status: seq<Status>, candidates: seq<seq<byte>>, maxRTT: int, weigh: (seq<byte>, int) -> int): seq<Node>
  {
    if status == [] then []
    else
      var last := status[|status| - 1];
      var before := Qualified(status[..|status| - 1], candidates, maxRTT, weigh);
      if Qualifies(last, candidates, maxRTT) then before + [NodeOf(last, weigh)] else before
  }

  /** The qualified nodes: alive candidates whose delay, in whole milliseconds, is below the limit if there is one. */
  lemma {:induction false} QualifiedMeans(status: seq<Status>, candidates: seq<seq<byte>>, maxRTT: int, weigh: (seq<byte>, int) -> int, n: Node)
    ensures n in Qualified(status, candidates, maxRTT, weigh) <==>
            exists i :: 0 <= i < |status| && Describes(n, status[i], candidates, maxRTT, weigh)
    decreases |status|
  {
    if status != [] {
      var last := |status| - 1;
      QualifiedMeans(status[..last], candidates, maxRTT, weigh, n);
      DescribesQualified(n, status[last], candidates, maxRTT, weigh);
      assert forall i :: 0 <= i < last ==> status[..last][i] == status[i];
      if n in Qualified(status[..last], candidates, maxRTT, weigh) {
        var i :| 0 <= i < last && Describes(n, status[..last][i], candidates, maxRTT, weigh);
        assert Describes(n, status[i], candidates, maxRTT, weigh);
      }
    }
  }

  /** A node stands for an observed outbound that may be picked: without statistics it counts as probed once and failed. */
  ghost predicate Describes(n: Node, v: Status, candidates: seq<seq<byte>>, maxRTT: int, weigh: (seq<byte>, int) -> int)
  {
    && v.alive && n.tag == v.tag && n.tag in candidates
    && (maxRTT > 0 ==> (v.delay + 1) * MILLISECOND <= maxRTT)
    && (maxRTT < 0 ==> v.delay * MILLISECOND < maxRTT)
    && n.cost == weigh(n.tag, n.deviation)
    && (v.ping.Some? ==> Ping(n.average, n.deviation, n.countAll, n.countFail) == v.ping.value)
    && (v.ping.None? ==> n.average == n.deviation == v.delay * MILLISECOND && n.countAll == n.countFail == 1)
  }

  lemma {:induction false} DescribesQualified(n: Node, v: Status, candidates: seq<seq<byte>>, maxRTT: int, weigh: (seq<byte>, int) -> int)
    ensures Describes(n, v, candidates, maxRTT, weigh) <==> Qualifies(v, candidates, maxRTT) && n == NodeOf(v, weigh)
  {
  }

  /** No observation means no nodes. */
  method GetNodes(observed: Option<seq<Status>>, candidates: seq<seq<byte>>, maxRTT: int, weigh: (seq<byte>, int) -> int) returns (r: seq<Node>)
    ensures Sorted(r)
    ensures multiset(r) == if observed.None? then multiset{} else multiset(Qualified(observed.value, candidates, maxRTT, weigh))
  {
    if observed.None? {
      return [];
    }
    var status := observed.value;
    var nodes := [];
    for i := 0 to |status|
      invariant nodes == Qualified(status[..i], candidates, maxRTT, weigh)
    {
      assert status[..i + 1][..i] == status[..i];
      if Qualifies(status[i], candidates, maxRTT) {
        nodes := nodes + [NodeOf(status[i], weigh)];
      }
    }
    assert status[..|status|] == status;
    r := LeastLoadSort(nodes);
  }

  lemma {:induction false} SortedAscending(s: seq<Node>)
    requires Sorted(s)
    ensures Ascending(s)
  {
  }

  /** The selection is the best part of the qualified outbounds, and its size depends on their costs alone. */
  method PickOutbounds(status: seq<Status>, candidates: seq<seq<byte>>, maxRTT: int, weigh: (seq<byte>, int) -> int,
    expected: int, baselines: seq<int>) returns (selects: seq<Node>, ghost rest: seq<Node>)
    ensures multiset(selects) + multiset(rest) == multiset(Qualified(status, candidates, maxRTT, weigh))
    ensures forall i, j :: 0 <= i < j < |selects| ==> !Before(Rank(selects[j]), Rank(selects[i]))
    ensures forall s, r :: s in selects && r in rest ==> !Before(Rank(r), Rank(s))
    ensures forall s :: s in selects ==> exists i :: 0 <= i < |status| && Describes(s, status[i], candidates, maxRTT, weigh)
    ensures Selects(Qualified(status, candidates, maxRTT, weigh), expected, baselines, |selects|)
  {
    var nodes := GetNodes(Some(status), candidates, maxRTT, weigh);
    SortedAscending(nodes);
    selects := SelectLeastLoad(nodes, expected, baselines);
    rest := nodes[|selects|..];
    assert nodes == selects + rest;
    SelectsPermuted(nodes, Qualified(status, candidates, maxRTT, weigh), expected, baselines, |selects|);
    RanksInOrder(selects, rest);
    forall s | s in selects
      ensures exists i :: 0 <= i < |status| && Describes(s, status[i], candidates, maxRTT, weigh)
    {
      SameLength(nodes, Qualified(status, candidates, maxRTT, weigh));
      QualifiedMeans(status, candidates, maxRTT, weigh, s);
    }
  }

  lemma {:induction false} RanksInOrder(selects: seq<Node>, rest: seq<Node>)
    requires Sorted(selects + rest)
    ensures forall i, j :: 0 <= i < j < |selects| ==> !Before(Rank(selects[j]), Rank(selects[i]))
    ensures forall s, r :: s in selects && r in rest ==> !Before(Rank(r), Rank(s))
  {
    var all := selects + rest;
    forall i, j | 0 <= i < j < |selects|
      ensures !Before(Rank(selects[j]), Rank(selects[i]))
    {
      assert !Less(all[j], all[i]);
      LessMeans(selects[j], selects[i]);
    }
    forall s, r | s in selects && r in rest
      ensures !Before(Rank(r), Rank(s))
    {
      var i, j :| 0 <= i < |selects| && 0 <= j < |rest| && selects[i] == s && rest[j] == r;
      assert !Less(all[|selects| + j], all[i]);
      LessMeans(r, s);
    }
  }
}
