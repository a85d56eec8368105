/** The two-index LRU cache against a plain list of pairs, most recent first. */
module Lru {
  import opened Bytes

  // ---- The reference: a list of pairs ----

  function Lookup<K(==), V>(s: seq<(K, V)>, k: K): Option<V>
  {
    if s == [] then None else if s[0].0 == k then Some(s[0].1) else Lookup(s[1..], k)
  }

  function LookupKey<K, V(==)>(s: seq<(K, V)>, v: V): Option<K>
  {
    if s == [] then None else if s[0].1 == v then Some(s[0].0) else LookupKey(s[1..], v)
  }

  function Drop<T(==)>(s: seq<T>, x: T): seq<T>
  {
    if s == [] then [] else (if s[0] == x then [] else [s[0]]) + Drop(s[1..], x)
  }

  function Touch<T(==)>(s: seq<T>, x: T): seq<T>
  {
    [x] + Drop(s, x)
  }

  /** What a Put means: an old pair moves to the front, a new one goes in front and may push out the last. */
  function PutPair<T(==)>(s: seq<T>, capacity: int, x: T): seq<T>
  {
    if x in s then Touch(s, x)
    else if |s| + 1 > capacity then ([x] + s)[..|s|]
    else [x] + s
  }

  // ---- One index over the list of element handles ----

  ghost predicate Distinct<T>(s: seq<T>)
  {
    forall i, j :: 0 <= i < j < |s| ==> s[i] != s[j]
  }

  /** The index maps exactly the attributes of the listed elements to these elements. */
  ghost predicate Indexed<T>(order: seq<nat>, attribute: map<nat, T>, index: map<T, nat>)
  {
    && (forall h :: h in order ==> h in attribute && attribute[h] in index && index[attribute[h]] == h)
    && (forall t :: t in index ==> index[t] in order && index[t] in attribute && attribute[index[t]] == t)
  }

  lemma {:induction false} SameMembersIndexed<T>(order: seq<nat>, other: seq<nat>, attribute: map<nat, T>, index: map<T, nat>)
    requires Indexed(order, attribute, index) && forall h :: h in other <==> h in order
    ensures Indexed(other, attribute, index)
  {
  }

  lemma {:induction false} PushIndexed<T>(order: seq<nat>, attribute: map<nat, T>, index: map<T, nat>, h: nat, t: T)
    requires Indexed(order, attribute, index) && h !in order && t !in index
    ensures Indexed([h] + order, attribute[h := t], index[t := h])
  {
  }

  lemma {:induction false} EvictIndexed<T>(order: seq<nat>, attribute: map<nat, T>, index: map<T, nat>)
    requires Indexed(order, attribute, index) && Distinct(order) && order != []
    ensures var n := |order| - 1; Indexed(order[..n], attribute, index - {attribute[order[n]]})
  {
    var n := |order| - 1;
    MembersOfFront(order);
  }

  lemma {:induction false} MembersOfFront<T>(s: seq<T>)
    requires Distinct(s) && s != []
    ensures forall x :: x in s[..|s| - 1] <==> x in s && x != s[|s| - 1]
    ensures Distinct(s[..|s| - 1])
  {
    forall x | x in s && x != s[|s| - 1]
      ensures x in s[..|s| - 1]
    {
      var i :| 0 <= i < |s| && s[i] == x;
      assert s[..|s| - 1][i] == x;
    }
  }

  /** A second element with an attribute that is indexed already breaks the index, with or without an eviction. */
  lemma {:induction false} SharedAttributeBreaks<T>(order: seq<nat>, attribute: map<nat, T>, index: map<T, nat>, h: nat, t: T)
    requires Indexed(order, attribute, index) && Distinct(order) && h !in order && t in index
    ensures var pushed, attribute' := [h] + order, attribute[h := t];
            && !Indexed(pushed, attribute', index[t := h])
            && !Indexed(pushed[..|order|], attribute', index[t := h] - {attribute'[pushed[|order|]]})
  {
    var pushed, attribute' := [h] + order, attribute[h := t];
    var g, last := index[t], pushed[|order|];
    assert Distinct(pushed);
    MembersOfFront(pushed);
    assert g in pushed && h in pushed && last != h;
    if last != g {
      assert g in pushed[..|order|] && attribute'[g] == t;
    } else {
      assert h in pushed[..|order|] && attribute'[h] !in index[t := h] - {attribute'[last]};
    }
  }

  /** Changing the attribute of a listed element without re-indexing it breaks the index, in any order. */
  lemma {:induction false} ChangedAttributeBreaks<T>(order: seq<nat>, attribute: map<nat, T>, index: map<T, nat>, h: nat, t: T, other: seq<nat>)
    requires Indexed(order, attribute, index) && h in order && t != attribute[h]
    ensures !Indexed(other, attribute[h := t], index)
  {
    assert index[attribute[h]] == h;
  }

  // ---- The cache ----

  /** The pairs behind a list of element handles. */
  function Pairs<K, V>(order: seq<nat>, keyOf: map<nat, K>, valueOf: map<nat, V>): (r: seq<(K, V)>)
    requires forall h :: h in order ==> h in keyOf && h in valueOf
    ensures |r| == |order|
  {
    if order == [] then [] else [(keyOf[order[0]], valueOf[order[0]])] + Pairs(order[1..], keyOf, valueOf)
  }

  lemma {:induction false} PairsAt<K, V>(order: seq<nat>, keyOf: map<nat, K>, valueOf: map<nat, V>)
    requires forall h :: h in order ==> h in keyOf && h in valueOf
    ensures forall i :: 0 <= i < |order| ==> Pairs(order, keyOf, valueOf)[i] == (keyOf[order[i]], valueOf[order[i]])
    decreases |order|
  {
    if order != [] {
      PairsAt(order[1..], keyOf, valueOf);
      var r, rest := Pairs(order, keyOf, valueOf), Pairs(order[1..], keyOf, valueOf);
      assert forall i :: 0 < i < |order| ==> r[i] == rest[i - 1] && order[i] == order[1..][i - 1];
    }
  }

  /** List and indices describe the same pairs, at most capacity of them. */
  ghost predicate Agree<K, V>(capacity: int, order: seq<nat>, keyOf: map<nat, K>, valueOf: map<nat, V>,
    byKey: map<K, nat>, byValue: map<V, nat>, next: nat)
  {
    && Distinct(order)
    && Indexed(order, keyOf, byKey)
    && Indexed(order, valueOf, byValue)
    && (forall h :: h in order ==> h < next)
    && |order| <= Max(capacity, 0)
  }

  /** The list and the indices after pushing element h for (k, v), given the elements that include it. */
  ghost predicate Pushes<K, V>(capacity: int, order: seq<nat>, keyOf: map<nat, K>, valueOf: map<nat, V>,
    byKey: map<K, nat>, byValue: map<V, nat>, h: nat, k: K, v: V, order': seq<nat>, byKey': map<K, nat>, byValue': map<V, nat>)
  {
    var pushed := [h] + order;
    var last := pushed[|order|];
    if |pushed| > capacity then
      && last in keyOf && last in valueOf
      && order' == pushed[..|order|]
      && byKey' == byKey[k := h] - {keyOf[last]}
      && byValue' == byValue[v := h] - {valueOf[last]}
    else order' == pushed && byKey' == byKey[k := h] && byValue' == byValue[v := h]
  }

  class Cache<K(==), V(==)> {
    const capacity: int
    /** The linked list, as element handles; the elements; the two indices; the next free handle. */
    var order: seq<nat>
    var keyOf: map<nat, K>
    var valueOf: map<nat, V>
    var byKey: map<K, nat>
    var byValue: map<V, nat>
    var next: nat

    ghost predicate Valid()
      reads this
    {
      Agree(capacity, order, keyOf, valueOf, byKey, byValue, next)
    }

    ghost function Model(): seq<(K, V)>
      requires Valid()
      reads this
    {
      Pairs(order, keyOf, valueOf)
    }

    constructor (capacity: int)
      ensures Valid() && Model() == [] && this.capacity == capacity
    {
      this.capacity := capacity;
      order, keyOf, valueOf, byKey, byValue, next := [], map[], map[], map[], map[], 0;
    }

    method MoveToFront(h: nat)
      requires Valid() && h in order
      modifies this`order
      ensures Valid() && Model() == Touch(old(Model()), (keyOf[h], valueOf[h]))
    {
      TouchAgrees(capacity, order, keyOf, valueOf, byKey, byValue, next, h);
      TouchPairs(order, keyOf, valueOf, byKey, h);
      order := [h] + Drop(order, h);
    }

    method Get(key: K) returns (r: Option<V>)
      requires Valid()
      modifies this`order
      ensures Valid() && r == Lookup(old(Model()), key)
      ensures Model() == if r.Some? then Touch(old(Model()), (key, r.value)) else old(Model())
    {
      KeyLookup(order, keyOf, valueOf, byKey, key);
      if key in byKey {
        var h := byKey[key];
        MoveToFront(h);
        return Some(valueOf[h]);
      }
      return None;
    }

    method GetKeyFromValue(value: V) returns (r: Option<K>)
      requires Valid()
      modifies this`order
      ensures Valid() && r == LookupKey(old(Model()), value)
      ensures Model() == if r.Some? then Touch(old(Model()), (r.value, value)) else old(Model())
    {
      ValueLookup(order, keyOf, valueOf, byValue, value);
      if value in byValue {
        var h := byValue[value];
        MoveToFront(h);
        return Some(keyOf[h]);
      }
      return None;
    }

    /** Looks without changing the order. */
    method PeekKeyFromValue(value: V) returns (r: Option<K>)
      requires Valid()
      ensures r == LookupKey(Model(), value)
    {
      ValueLookup(order, keyOf, valueOf, byValue, value);
      if value in byValue {
        return Some(keyOf[byValue[value]]);
      }
      return None;
    }

    /** The pair is in the cache, or neither its key nor its value is. */
    ghost predicate Fits(key: K, value: V)
      requires Valid()
      reads this
    {
      if key in byKey then valueOf[byKey[key]] == value else value !in byValue
    }

    /** Put keeps list and indices in agreement if and only if the pair fits: it changes the value of a cached key
        without touching the value index, and a value cached under another key is re-indexed but stays listed. */
    method Put(key: K, value: V)
      requires Valid()
      modifies this
      ensures Valid() <==> old(Fits(key, value))
      ensures old(Fits(key, value)) ==> Model() == PutPair(old(Model()), capacity, (key, value))
    {
      if key in byKey {
        Replace(key, value);
      } else {
        Insert(key, value);
      }
    }

    /** Put for a cached key: its element gets the new pair and moves to the front. */
    method Replace(key: K, value: V)
      requires Valid() && key in byKey
      modifies this
      ensures Valid() <==> old(valueOf[byKey[key]]) == value
      ensures Valid() ==> Model() == PutPair(old(Model()), capacity, (key, value))
    {
      var h := byKey[key];
      ReplaceOutcome(capacity, order, keyOf, valueOf, byKey, byValue, next, h, value);
      keyOf, valueOf := keyOf[h := key], valueOf[h := value];
      order := [h] + Drop(order, h);
    }

    method Insert(key: K, value: V)
      requires Valid() && key !in byKey
      modifies this
      ensures Valid() <==> value !in old(byValue)
      ensures Valid() ==> Model() == PutPair(old(Model()), capacity, (key, value))
    {
      ghost var before, keys, values, byKey0, byValue0, h := order, keyOf, valueOf, byKey, byValue, next;
      PushFront(key, value);
      PushOutcome(capacity, before, keys, values, byKey0, byValue0, h, key, value, order, byKey, byValue);
    }

    /** The branch of Put for a key that is not cached: a new element in front, the last one out if that is too many. */
    method PushFront(key: K, value: V)
      requires forall h :: h in order ==> h in keyOf && h in valueOf
      modifies this
      ensures next == old(next) + 1 && keyOf == old(keyOf[next := key]) && valueOf == old(valueOf[next := value])
      ensures Pushes(capacity, old(order), keyOf, valueOf, old(byKey), old(byValue), old(next), key, value, order, byKey, byValue)
    {
      var h := next;
      next := next + 1;
      order, keyOf, valueOf := [h] + order, keyOf[h := key], valueOf[h := value];
      byKey, byValue := byKey[key := h], byValue[value := h];
      if |order| > capacity {
        var last := order[|order| - 1];
        order := order[..|order| - 1];
        byKey := byKey - {keyOf[last]};
        byValue := byValue - {valueOf[last]};
      }
    }
  }

  // ---- The indices answer like the list ----

  lemma {:induction false} LookupAt<K, V>(s: seq<(K, V)>, i: nat)
    requires i < |s|
    requires forall j :: 0 <= j < i ==> s[j].0 != s[i].0
    ensures Lookup(s, s[i].0) == Some(s[i].1)
    decreases i
  {
    if i > 0 {
      LookupAt(s[1..], i - 1);
    }
  }

  lemma {:induction false} LookupAbsent<K, V>(s: seq<(K, V)>, k: K)
    requires forall j :: 0 <= j < |s| ==> s[j].0 != k
    ensures Lookup(s, k) == None
    decreases |s|
  {
    if s != [] {
      LookupAbsent(s[1..], k);
    }
  }

  lemma {:induction false} LookupKeyAt<K, V>(s: seq<(K, V)>, i: nat)
    requires i < |s|
    requires forall j :: 0 <= j < i ==> s[j].1 != s[i].1
    ensures LookupKey(s, s[i].1) == Some(s[i].0)
    decreases i
  {
    if i > 0 {
      LookupKeyAt(s[1..], i - 1);
    }
  }

  lemma {:induction false} LookupKeyAbsent<K, V>(s: seq<(K, V)>, v: V)
    requires forall j :: 0 <= j < |s| ==> s[j].1 != v
    ensures LookupKey(s, v) == None
    decreases |s|
  {
    if s != [] {
      LookupKeyAbsent(s[1..], v);
    }
  }

  lemma {:induction false} KeyLookup<K, V>(order: seq<nat>, keyOf: map<nat, K>, valueOf: map<nat, V>, byKey: map<K, nat>, k: K)
    requires Distinct(order) && Indexed(order, keyOf, byKey) && forall h :: h in order ==> h in valueOf
    ensures Lookup(Pairs(order, keyOf, valueOf), k) == if k in byKey then Some(valueOf[byKey[k]]) else None
  {
    var s := Pairs(order, keyOf, valueOf);
    PairsAt(order, keyOf, valueOf);
    if k in byKey {
      var i :| 0 <= i < |order| && order[i] == byKey[k];
      LookupAt(s, i);
    } else {
      LookupAbsent(s, k);
    }
  }

  lemma {:induction false} ValueLookup<K, V>(order: seq<nat>, keyOf: map<nat, K>, valueOf: map<nat, V>, byValue: map<V, nat>, v: V)
    requires Distinct(order) && Indexed(order, valueOf, byValue) && forall h :: h in order ==> h in keyOf
    ensures LookupKey(Pairs(order, keyOf, valueOf), v) == if v in byValue then Some(keyOf[byValue[v]]) else None
  {
    var s := Pairs(order, keyOf, valueOf);
    PairsAt(order, keyOf, valueOf);
    if v in byValue {
      var i :| 0 <= i < |order| && order[i] == byValue[v];
      LookupKeyAt(s, i);
    } else {
      LookupKeyAbsent(s, v);
    }
  }

  /** Key and value lookups of a cache are inverse to each other. */
  lemma {:induction false} LookupsInverse<K, V>(c: Cache<K, V>, k: K, v: V)
    requires c.Valid()
    ensures Lookup(c.Model(), k) == Some(v) <==> LookupKey(c.Model(), v) == Some(k)
  {
    KeyLookup(c.order, c.keyOf, c.valueOf, c.byKey, k);
    ValueLookup(c.order, c.keyOf, c.valueOf, c.byValue, v);
  }

  // ---- Moving to the front, pushing and evicting ----

  lemma {:induction false} DropMembers<T>(s: seq<T>, x: T)
    ensures forall y :: y in Drop(s, x) <==> y in s && y != x
    decreases |s|
  {
    if s != [] {
      DropMembers(s[1..], x);
      assert s == [s[0]] + s[1..];
    }
  }

  lemma {:induction false} DropMember<T>(s: seq<T>, x: T, y: T)
    ensures y in Drop(s, x) <==> y in s && y != x
  {
    DropMembers(s, x);
  }

  lemma {:induction false} DropAbsent<T>(s: seq<T>, x: T)
    requires x !in s
    ensures Drop(s, x) == s
    decreases |s|
  {
    if s != [] {
      DropAbsent(s[1..], x);
    }
  }

  lemma {:induction false} ConsDistinct<T>(x: T, s: seq<T>)
    requires Distinct(s) && x !in s
    ensures Distinct([x] + s)
  {
  }

  lemma {:induction false} DropDistinct<T>(s: seq<T>, x: T)
    requires Distinct(s)
    ensures Distinct(Drop(s, x)) && |Drop(s, x)| == |s| - (if x in s then 1 else 0)
    decreases |s|
  {
    if s != [] {
      DropDistinct(s[1..], x);
      DropMembers(s[1..], x);
      assert s[0] !in s[1..] && s == [s[0]] + s[1..];
      if s[0] == x {
        DropAbsent(s[1..], x);
      } else {
        ConsDistinct(s[0], Drop(s[1..], x));
      }
    }
  }

  lemma {:induction false} TouchFacts<T>(s: seq<T>, x: T)
    requires Distinct(s) && x in s
    ensures Distinct(Touch(s, x)) && |Touch(s, x)| == |s|
    ensures forall y :: y in Touch(s, x) <==> y in s
  {
    DropMembers(s, x);
    DropDistinct(s, x);
    ConsDistinct(x, Drop(s, x));
  }

  lemma {:induction false} TouchPairs<K, V>(order: seq<nat>, keyOf: map<nat, K>, valueOf: map<nat, V>, byKey: map<K, nat>, h: nat)
    requires Distinct(order) && Indexed(order, keyOf, byKey) && h in order && forall g :: g in order ==> g in valueOf
    ensures forall g :: g in Touch(order, h) ==> g in order
    ensures Pairs(Touch(order, h), keyOf, valueOf) == Touch(Pairs(order, keyOf, valueOf), (keyOf[h], valueOf[h]))
  {
    TouchFacts(order, h);
    DropPairs(order, keyOf, valueOf, h);
    assert Touch(order, h)[1..] == Drop(order, h);
  }

  lemma {:induction false} TouchAgrees<K, V>(capacity: int, order: seq<nat>, keyOf: map<nat, K>, valueOf: map<nat, V>,
    byKey: map<K, nat>, byValue: map<V, nat>, next: nat, h: nat)
    requires Agree(capacity, order, keyOf, valueOf, byKey, byValue, next) && h in order
    ensures Agree(capacity, Touch(order, h), keyOf, valueOf, byKey, byValue, next)
  {
    TouchFacts(order, h);
    SameMembersIndexed(order, Touch(order, h), keyOf, byKey);
    SameMembersIndexed(order, Touch(order, h), valueOf, byValue);
  }

  /** Giving a listed element another value in front keeps the agreement exactly if the value is the one it has. */
  lemma {:induction false} ReplaceOutcome<K, V>(capacity: int, order: seq<nat>, keyOf: map<nat, K>, valueOf: map<nat, V>,
    byKey: map<K, nat>, byValue: map<V, nat>, next: nat, h: nat, v: V)
    requires Agree(capacity, order, keyOf, valueOf, byKey, byValue, next) && h in order
    ensures var keys, values := keyOf[h := keyOf[h]], valueOf[h := v];
            && (Agree(capacity, [h] + Drop(order, h), keys, values, byKey, byValue, next) <==> valueOf[h] == v)
            && (valueOf[h] == v ==>
                && Pairs([h] + Drop(order, h), keys, values) == PutPair(Pairs(order, keyOf, valueOf), capacity, (keyOf[h], v)))
  {
    assert keyOf[h := keyOf[h]] == keyOf;
    if valueOf[h] == v {
      assert valueOf[h := v] == valueOf;
      InModel(order, keyOf, valueOf, h);
      TouchAgrees(capacity, order, keyOf, valueOf, byKey, byValue, next, h);
      TouchPairs(order, keyOf, valueOf, byKey, h);
    } else {
      ChangedAttributeBreaks(order, valueOf, byValue, h, v, Touch(order, h));
    }
  }

  lemma {:induction false} DropPairs<K, V>(order: seq<nat>, keyOf: map<nat, K>, valueOf: map<nat, V>, h: nat)
    requires h in keyOf && h in valueOf
    requires forall g :: g in order ==> g in keyOf && g in valueOf && (keyOf[g] == keyOf[h] ==> g == h)
    ensures forall g :: g in Drop(order, h) ==> g in order
    ensures Pairs(Drop(order, h), keyOf, valueOf) == Drop(Pairs(order, keyOf, valueOf), (keyOf[h], valueOf[h]))
    decreases |order|
  {
    if order != [] {
      DropPairs(order[1..], keyOf, valueOf, h);
      assert Pairs(order, keyOf, valueOf)[1..] == Pairs(order[1..], keyOf, valueOf);
      if order[0] != h {
        assert Drop(order, h)[1..] == Drop(order[1..], h);
      } else {
        assert Drop(order, h) == Drop(order[1..], h);
      }
    }
  }

  lemma {:induction false} InModel<K, V>(order: seq<nat>, keyOf: map<nat, K>, valueOf: map<nat, V>, h: nat)
    requires h in order && forall g :: g in order ==> g in keyOf && g in valueOf
    ensures (keyOf[h], valueOf[h]) in Pairs(order, keyOf, valueOf)
  {
    PairsAt(order, keyOf, valueOf);
    var i :| 0 <= i < |order| && order[i] == h;
    assert Pairs(order, keyOf, valueOf)[i] == (keyOf[h], valueOf[h]);
  }

  lemma {:induction false} PushPairs<K, V>(order: seq<nat>, keyOf: map<nat, K>, valueOf: map<nat, V>, byKey: map<K, nat>, h: nat, k: K, v: V)
    requires h !in order && Indexed(order, keyOf, byKey) && k !in byKey && forall g :: g in order ==> g in valueOf
    ensures Pairs([h] + order, keyOf[h := k], valueOf[h := v]) == [(k, v)] + Pairs(order, keyOf, valueOf)
    ensures (k, v) !in Pairs(order, keyOf, valueOf)
  {
    PairsFrame(order, keyOf, valueOf, h, k, v);
    PairsAt(order, keyOf, valueOf);
    assert ([h] + order)[1..] == order;
  }

  lemma {:induction false} PairsFrame<K, V>(order: seq<nat>, keyOf: map<nat, K>, valueOf: map<nat, V>, h: nat, k: K, v: V)
    requires h !in order && forall g :: g in order ==> g in keyOf && g in valueOf
    ensures Pairs(order, keyOf[h := k], valueOf[h := v]) == Pairs(order, keyOf, valueOf)
    decreases |order|
  {
    if order != [] {
      PairsFrame(order[1..], keyOf, valueOf, h, k, v);
    }
  }

  lemma {:induction false} FrontPairs<K, V>(order: seq<nat>, keyOf: map<nat, K>, valueOf: map<nat, V>)
    requires order != [] && forall g :: g in order ==> g in keyOf && g in valueOf
    ensures Pairs(order[..|order| - 1], keyOf, valueOf) == Pairs(order, keyOf, valueOf)[..|order| - 1]
  {
    PairsAt(order, keyOf, valueOf);
    PairsAt(order[..|order| - 1], keyOf, valueOf);
  }

  /** The state after pushing a new element, before any eviction. */
  lemma {:induction false} Pushed<K, V>(order: seq<nat>, keyOf: map<nat, K>, valueOf: map<nat, V>,
    byKey: map<K, nat>, byValue: map<V, nat>, next: nat, k: K, v: V)
    requires Distinct(order) && Indexed(order, keyOf, byKey) && Indexed(order, valueOf, byValue)
    requires (forall h :: h in order ==> h < next) && k !in byKey && v !in byValue
    ensures var o, ko, vo := [next] + order, keyOf[next := k], valueOf[next := v];
            && Distinct(o) && Indexed(o, ko, byKey[k := next]) && Indexed(o, vo, byValue[v := next])
            && Pairs(o, ko, vo) == [(k, v)] + Pairs(order, keyOf, valueOf)
            && (k, v) !in Pairs(order, keyOf, valueOf)
  {
    PushIndexed(order, keyOf, byKey, next, k);
    PushIndexed(order, valueOf, byValue, next, v);
    PushPairs(order, keyOf, valueOf, byKey, next, k, v);
    ConsDistinct(next, order);
  }

  lemma {:induction false} EvictAgrees<K, V>(capacity: int, order: seq<nat>, keyOf: map<nat, K>, valueOf: map<nat, V>,
    byKey: map<K, nat>, byValue: map<V, nat>, next: nat)
    requires Distinct(order) && Indexed(order, keyOf, byKey) && Indexed(order, valueOf, byValue)
    requires (forall h :: h in order ==> h < next) && order != [] && |order| - 1 <= Max(capacity, 0)
    ensures var n := |order| - 1;
            var last := order[n];
            && Agree(capacity, order[..n], keyOf, valueOf, byKey - {keyOf[last]}, byValue - {valueOf[last]}, next)
            && Pairs(order[..n], keyOf, valueOf) == Pairs(order, keyOf, valueOf)[..n]
  {
    EvictIndexed(order, keyOf, byKey);
    EvictIndexed(order, valueOf, byValue);
    MembersOfFront(order);
    FrontPairs(order, keyOf, valueOf);
  }

  lemma {:induction false} PushBreaks<K, V>(capacity: int, order: seq<nat>, keyOf: map<nat, K>, valueOf: map<nat, V>,
    byKey: map<K, nat>, byValue: map<V, nat>, next: nat, k: K, v: V)
    requires Agree(capacity, order, keyOf, valueOf, byKey, byValue, next) && k !in byKey && v in byValue
    ensures var o, ko, vo := [next] + order, keyOf[next := k], valueOf[next := v];
            var last := o[|order|];
            && !Agree(capacity, o, ko, vo, byKey[k := next], byValue[v := next], next + 1)
            && (last in ko && last in vo ==>
                !Agree(capacity, o[..|order|], ko, vo, byKey[k := next] - {ko[last]}, byValue[v := next] - {vo[last]}, next + 1))
  {
    SharedAttributeBreaks(order, valueOf, byValue, next, v);
  }

  /** Pushing a pair whose key is not cached keeps the agreement exactly when its value is not cached either. */
  lemma {:induction false} PushOutcome<K, V>(capacity: int, order: seq<nat>, keyOf: map<nat, K>, valueOf: map<nat, V>,
    byKey: map<K, nat>, byValue: map<V, nat>, next: nat, k: K, v: V, order': seq<nat>, byKey': map<K, nat>, byValue': map<V, nat>)
    requires Agree(capacity, order, keyOf, valueOf, byKey, byValue, next) && k !in byKey
    requires Pushes(capacity, order, keyOf[next := k], valueOf[next := v], byKey, byValue, next, k, v, order', byKey', byValue')
    ensures Agree(capacity, order', keyOf[next := k], valueOf[next := v], byKey', byValue', next + 1) <==> v !in byValue
    ensures v !in byValue ==>
      Pairs(order', keyOf[next := k], valueOf[next := v]) == PutPair(Pairs(order, keyOf, valueOf), capacity, (k, v))
  {
    if v in byValue {
      PushBreaks(capacity, order, keyOf, valueOf, byKey, byValue, next, k, v);
    } else {
      PushKeeps(capacity, order, keyOf, valueOf, byKey, byValue, next, k, v, order', byKey', byValue');
    }
  }

  lemma {:induction false} PushKeeps<K, V>(capacity: int, order: seq<nat>, keyOf: map<nat, K>, valueOf: map<nat, V>,
    byKey: map<K, nat>, byValue: map<V, nat>, next: nat, k: K, v: V, order': seq<nat>, byKey': map<K, nat>, byValue': map<V, nat>)
    requires Agree(capacity, order, keyOf, valueOf, byKey, byValue, next) && k !in byKey && v !in byValue
    requires Pushes(capacity, order, keyOf[next := k], valueOf[next := v], byKey, byValue, next, k, v, order', byKey', byValue')
    ensures Agree(capacity, order', keyOf[next := k], valueOf[next := v], byKey', byValue', next + 1)
    ensures Pairs(order', keyOf[next := k], valueOf[next := v]) == PutPair(Pairs(order, keyOf, valueOf), capacity, (k, v))
  {
    Pushed(order, keyOf, valueOf, byKey, byValue, next, k, v);
    var o, ko, vo, bk, bv := [next] + order, keyOf[next := k], valueOf[next := v], byKey[k := next], byValue[v := next];
    if |order| + 1 > capacity {
      PushEvicts(capacity, o, ko, vo, bk, bv, next + 1, order', byKey', byValue');
    }
  }

  lemma {:induction false} PushEvicts<K, V>(capacity: int, order: seq<nat>, keyOf: map<nat, K>, valueOf: map<nat, V>,
    byKey: map<K, nat>, byValue: map<V, nat>, next: nat, order': seq<nat>, byKey': map<K, nat>, byValue': map<V, nat>)
    requires Distinct(order) && Indexed(order, keyOf, byKey) && Indexed(order, valueOf, byValue)
    requires (forall h :: h in order ==> h < next) && order != [] && |order| - 1 <= Max(capacity, 0)
    requires var last := order[|order| - 1];
             order' == order[..|order| - 1] && byKey' == byKey - {keyOf[last]} && byValue' == byValue - {valueOf[last]}
    ensures Agree(capacity, order', keyOf, valueOf, byKey', byValue', next)
    ensures Pairs(order', keyOf, valueOf) == Pairs(order, keyOf, valueOf)[..|order| - 1]
  {
    EvictAgrees(capacity, order, keyOf, valueOf, byKey, byValue, next);
  }

  // ---- Every run ----

  datatype Op<K, V> = Get(key: K) | KeyOf(value: V) | Peek(value: V) | Put(key: K, value: V)
  datatype Answer<K, V> = Value(found: Option<V>) | Key(foundKey: Option<K>) | Done

  /** What the reference answers, and the list it keeps. */
  function AnswerOf<K(==), V(==)>(s: seq<(K, V)>, op: Op<K, V>): Answer<K, V>
  {
    match op
    case Get(k) => Value(Lookup(s, k))
    case KeyOf(v) => Key(LookupKey(s, v))
    case Peek(v) => Key(LookupKey(s, v))
    case Put(_, _) => Done
  }

  function After<K(==), V(==)>(s: seq<(K, V)>, capacity: int, op: Op<K, V>): seq<(K, V)>
  {
    match op
    case Get(k) => (var r := Lookup(s, k); if r.Some? then Touch(s, (k, r.value)) else s)
    case KeyOf(v) => (var r := LookupKey(s, v); if r.Some? then Touch(s, (r.value, v)) else s)
    case Peek(v) => s
    case Put(k, v) => PutPair(s, capacity, (k, v))
  }

  function AnswersOf<K(==), V(==)>(s: seq<(K, V)>, capacity: int, ops: seq<Op<K, V>>): seq<Answer<K, V>>
    decreases |ops|
  {
    if ops == [] then [] else [AnswerOf(s, ops[0])] + AnswersOf(After(s, capacity, ops[0]), capacity, ops[1..])
  }

  function AfterAll<K(==), V(==)>(s: seq<(K, V)>, capacity: int, ops: seq<Op<K, V>>): seq<(K, V)>
    decreases |ops|
  {
    if ops == [] then s else AfterAll(After(s, capacity, ops[0]), capacity, ops[1..])
  }

  /** Every Put of the run repeats a listed pair or brings a key and a value that are both unlisted. */
  predicate Proper<K(==), V(==)>(s: seq<(K, V)>, capacity: int, ops: seq<Op<K, V>>)
    decreases |ops|
  {
    ops != [] ==>
      && (ops[0].Put? ==>
            var k := Lookup(s, ops[0].key);
            if k.Some? then k.value == ops[0].value else LookupKey(s, ops[0].value).None?)
      && Proper(After(s, capacity, ops[0]), capacity, ops[1..])
  }

  method Perform<K(==), V(==)>(c: Cache<K, V>, op: Op<K, V>) returns (answer: Answer<K, V>)
    requires c.Valid() && Proper(c.Model(), c.capacity, [op])
    modifies c
    ensures c.Valid() && answer == AnswerOf(old(c.Model()), op) && c.Model() == After(old(c.Model()), c.capacity, op)
  {
    match op
    case Get(k) =>
      var r := c.Get(k);
      answer := Value(r);
    case KeyOf(v) =>
      var r := c.GetKeyFromValue(v);
      answer := Key(r);
    case Peek(v) =>
      var r := c.PeekKeyFromValue(v);
      answer := Key(r);
    case Put(k, v) =>
      KeyLookup(c.order, c.keyOf, c.valueOf, c.byKey, k);
      ValueLookup(c.order, c.keyOf, c.valueOf, c.byValue, v);
      c.Put(k, v);
      answer := Done;
  }

  /** Over every proper run the cache answers as the reference does; a new cache then lists the pairs used last. */
  method Serve<K(==), V(==)>(c: Cache<K, V>, ops: seq<Op<K, V>>) returns (answers: seq<Answer<K, V>>)
    requires c.Valid() && Proper(c.Model(), c.capacity, ops)
    modifies c
    ensures c.Valid() && answers == AnswersOf(old(c.Model()), c.capacity, ops)
    ensures c.Model() == AfterAll(old(c.Model()), c.capacity, ops)
    ensures |answers| == |ops| && (old(c.Model()) == [] ==> MostRecent(c.Model(), c.capacity, ops, answers))
  {
    AnswersLength(c.Model(), c.capacity, ops);
    ListsMostRecent(c.capacity, ops);
    answers := [];
    var i := 0;
    while i < |ops|
      invariant 0 <= i <= |ops| && c.Valid() && Proper(c.Model(), c.capacity, ops[i..])
      invariant answers + AnswersOf(c.Model(), c.capacity, ops[i..]) == AnswersOf(old(c.Model()), c.capacity, ops)
      invariant AfterAll(c.Model(), c.capacity, ops[i..]) == AfterAll(old(c.Model()), c.capacity, ops)
    {
      ghost var before, todo := c.Model(), ops[i..];
      assert todo[0] == ops[i] && todo[1..] == ops[i + 1..];
      assert Proper(before, c.capacity, [ops[i]]);
      var answer := Perform(c, ops[i]);
      Assoc(answers, [answer], AnswersOf(c.Model(), c.capacity, ops[i + 1..]));
      answers := answers + [answer];
      i := i + 1;
    }
  }

  // ---- Recency ----

  /** The pair that an operation with its answer uses: one looked up and found, or put. */
  function Used<K, V>(op: Op<K, V>, answer: Answer<K, V>): Option<(K, V)>
  {
    match (op, answer)
    case (Get(k), Value(Some(v))) => Some((k, v))
    case (KeyOf(v), Key(Some(k))) => Some((k, v))
    case (Put(k, v), _) => Some((k, v))
    case _ => None
  }

  /** When a pair was last used in a run with these answers; -1 if never. */
  function LastUse<K(==), V(==)>(ops: seq<Op<K, V>>, answers: seq<Answer<K, V>>, p: (K, V)): int
    requires |ops| == |answers|
  {
    var n := |ops| - 1;
    if n < 0 then -1 else if Used(ops[n], answers[n]) == Some(p) then n else LastUse(ops[..n], answers[..n], p)
  }

  lemma {:induction false} LastUseBounds<K, V>(ops: seq<Op<K, V>>, answers: seq<Answer<K, V>>, p: (K, V))
    requires |ops| == |answers|
    ensures -1 <= LastUse(ops, answers, p) < |ops|
    decreases |ops|
  {
    var n := |ops| - 1;
    if n >= 0 {
      LastUseBounds(ops[..n], answers[..n], p);
    }
  }

  lemma {:induction false} AnswersLength<K, V>(s: seq<(K, V)>, capacity: int, ops: seq<Op<K, V>>)
    ensures |AnswersOf(s, capacity, ops)| == |ops|
    decreases |ops|
  {
    if ops != [] {
      AnswersLength(After(s, capacity, ops[0]), capacity, ops[1..]);
    }
  }

  /** One more operation at the end of a run. */
  lemma {:induction false} RunSnoc<K, V>(s: seq<(K, V)>, capacity: int, ops: seq<Op<K, V>>, op: Op<K, V>)
    ensures AfterAll(s, capacity, ops + [op]) == After(AfterAll(s, capacity, ops), capacity, op)
    ensures AnswersOf(s, capacity, ops + [op]) == AnswersOf(s, capacity, ops) + [AnswerOf(AfterAll(s, capacity, ops), op)]
    ensures Proper(s, capacity, ops + [op]) <==> Proper(s, capacity, ops) && Proper(AfterAll(s, capacity, ops), capacity, [op])
    decreases |ops|
  {
    if ops == [] {
      assert ops + [op] == [op] && [op][1..] == [];
    } else {
      assert (ops + [op])[0] == ops[0] && (ops + [op])[1..] == ops[1..] + [op];
      var t := After(s, capacity, ops[0]);
      RunSnoc(t, capacity, ops[1..], op);
      Assoc([AnswerOf(s, ops[0])], AnswersOf(t, capacity, ops[1..]), [AnswerOf(AfterAll(t, capacity, ops[1..]), op)]);
    }
  }

  /** The pairs used last, the latest first: as many as the capacity allows, and only because of it not all. */
  ghost predicate MostRecent<K, V>(s: seq<(K, V)>, capacity: int, ops: seq<Op<K, V>>, answers: seq<Answer<K, V>>)
    requires |ops| == |answers|
  {
    && |s| <= Max(capacity, 0)
    && ByRecency(s, ops, answers)
    && forall i :: 0 <= i < |ops| && Used(ops[i], answers[i]).Some? ==>
         Used(ops[i], answers[i]).value in s || NoRoomFor(s, capacity, ops, answers, Used(ops[i], answers[i]).value)
  }

  /** The list is full of pairs that were used later. */
  ghost predicate NoRoomFor<K, V>(s: seq<(K, V)>, capacity: int, ops: seq<Op<K, V>>, answers: seq<Answer<K, V>>, p: (K, V))
    requires |ops| == |answers|
  {
    |s| >= capacity && forall q :: q in s ==> LastUse(ops, answers, q) > LastUse(ops, answers, p)
  }

  /** Every pair was used, and before those listed in front of it. */
  ghost predicate ByRecency<K, V>(s: seq<(K, V)>, ops: seq<Op<K, V>>, answers: seq<Answer<K, V>>)
    requires |ops| == |answers|
  {
    && (forall i :: 0 <= i < |s| ==> LastUse(ops, answers, s[i]) >= 0)
    && forall i, j :: 0 <= i < j < |s| ==> LastUse(ops, answers, s[i]) > LastUse(ops, answers, s[j])
  }

  lemma {:induction false} LastUseSnoc<K, V>(ops: seq<Op<K, V>>, answers: seq<Answer<K, V>>, op: Op<K, V>, answer: Answer<K, V>, p: (K, V))
    requires |ops| == |answers|
    ensures LastUse(ops + [op], answers + [answer], p) ==
            if Used(op, answer) == Some(p) then |ops| else LastUse(ops, answers, p)
  {
    SameFront((ops + [op])[..|ops|], [op], ops, [op]);
    SameFront((answers + [answer])[..|ops|], [answer], answers, [answer]);
  }

  lemma {:induction false} UsedAt<K, V>(ops: seq<Op<K, V>>, answers: seq<Answer<K, V>>, p: (K, V))
    requires |ops| == |answers| && LastUse(ops, answers, p) >= 0
    ensures var i := LastUse(ops, answers, p); i < |ops| && Used(ops[i], answers[i]) == Some(p)
    decreases |ops|
  {
    var n := |ops| - 1;
    if Used(ops[n], answers[n]) != Some(p) {
      UsedAt(ops[..n], answers[..n], p);
    }
  }

  lemma {:induction false} ConsByRecency<K, V>(x: (K, V), s: seq<(K, V)>, ops: seq<Op<K, V>>, answers: seq<Answer<K, V>>)
    requires |ops| == |answers| && ByRecency(s, ops, answers) && LastUse(ops, answers, x) >= 0
    requires forall q :: q in s ==> LastUse(ops, answers, x) > LastUse(ops, answers, q)
    ensures ByRecency([x] + s, ops, answers)
  {
    var t := [x] + s;
    forall j | 0 < j < |t|
      ensures t[j] == s[j - 1] && t[j] in s
    {
    }
  }

  lemma {:induction false} DropByRecency<K, V>(s: seq<(K, V)>, ops: seq<Op<K, V>>, answers: seq<Answer<K, V>>, x: (K, V))
    requires |ops| == |answers| && ByRecency(s, ops, answers)
    ensures ByRecency(Drop(s, x), ops, answers)
    ensures |Drop(s, x)| == if x in s then |s| - 1 else |s|
    decreases |s|
  {
    if s != [] {
      var d := Drop(s[1..], x);
      DropByRecency(s[1..], ops, answers, x);
      DropMembers(s[1..], x);
      assert s[0] !in s[1..] && (x in s <==> x == s[0] || x in s[1..]);
      if s[0] == x {
        assert Drop(s, x) == d;
      } else {
        forall q | q in d
          ensures LastUse(ops, answers, s[0]) > LastUse(ops, answers, q)
        {
          DropMember(s[1..], x, q);
          var i :| 0 <= i < |s[1..]| && s[1..][i] == q;
          assert s[i + 1] == q;
        }
        ConsByRecency(s[0], d, ops, answers);
      }
    }
  }

  lemma {:induction false} LookupListed<K, V>(s: seq<(K, V)>, k: K)
    ensures Lookup(s, k).Some? ==> (k, Lookup(s, k).value) in s
    decreases |s|
  {
    if s != [] {
      LookupListed(s[1..], k);
    }
  }

  lemma {:induction false} LookupKeyListed<K, V>(s: seq<(K, V)>, v: V)
    ensures LookupKey(s, v).Some? ==> (LookupKey(s, v).value, v) in s
    decreases |s|
  {
    if s != [] {
      LookupKeyListed(s[1..], v);
    }
  }

  /** An operation that uses a pair changes the list as putting this pair does; any other leaves it alone. */
  lemma {:induction false} AfterUse<K, V>(s: seq<(K, V)>, capacity: int, op: Op<K, V>)
    ensures match Used(op, AnswerOf(s, op))
            case Some(x) => After(s, capacity, op) == PutPair(s, capacity, x) && (op.Put? || x in s)
            case None => After(s, capacity, op) == s && !op.Put?
  {
    match op
    case Get(k) =>
      LookupListed(s, k);
    case KeyOf(v) =>
      LookupKeyListed(s, v);
    case _ =>
  }

  /** A pair used in front of the others, which have not been used since. */
  lemma {:induction false} UsedInFront<K, V>(s: seq<(K, V)>, ops: seq<Op<K, V>>, answers: seq<Answer<K, V>>,
    op: Op<K, V>, answer: Answer<K, V>, x: (K, V))
    requires |ops| == |answers| && ByRecency(s, ops, answers) && Used(op, answer) == Some(x) && x !in s
    ensures ByRecency([x] + s, ops + [op], answers + [answer])
  {
    LastUseSnoc(ops, answers, op, answer, x);
    forall i | 0 <= i < |s|
      ensures 0 <= LastUse(ops + [op], answers + [answer], s[i]) == LastUse(ops, answers, s[i]) < |ops|
    {
      LastUseSnoc(ops, answers, op, answer, s[i]);
      LastUseBounds(ops, answers, s[i]);
    }
  }

  /** Putting a pair: the pair in front of the others, less the last one if there is no room. */
  lemma {:induction false} PutCuts<K, V>(s: seq<(K, V)>, capacity: int, ops: seq<Op<K, V>>, answers: seq<Answer<K, V>>, x: (K, V))
    requires |ops| == |answers| && ByRecency(s, ops, answers) && |s| <= Max(capacity, 0)
    ensures var t, all := PutPair(s, capacity, x), [x] + Drop(s, x);
            && |s| <= |t| <= Max(capacity, 0)
            && (t == all || (t == all[..|all| - 1] && |t| >= capacity && x !in s))
  {
    DropByRecency(s, ops, answers, x);
    if x !in s {
      DropAbsent(s, x);
    }
  }

  /** What is not listed after a pair was put was used before everything listed, and there is no room for it. */
  lemma {:induction false} PutLeavesOut<K, V>(s: seq<(K, V)>, t: seq<(K, V)>, capacity: int, ops: seq<Op<K, V>>, answers: seq<Answer<K, V>>,
    op: Op<K, V>, answer: Answer<K, V>, x: (K, V), p: (K, V))
    requires |ops| == |answers| && Used(op, answer) == Some(x) && |t| >= |s|
    requires var all := [x] + Drop(s, x);
             && ByRecency(all, ops + [op], answers + [answer])
             && (t == all || (t == all[..|all| - 1] && |t| >= capacity))
    requires p == x || p in s || NoRoomFor(s, capacity, ops, answers, p)
    ensures p in t || NoRoomFor(t, capacity, ops + [op], answers + [answer], p)
  {
    var all := [x] + Drop(s, x);
    DropMembers(s, x);
    if p !in all {
      StillNoRoom(s, t, capacity, ops, answers, op, answer, x, p);
    } else if p !in t {
      LastLeftOut(all, capacity, ops + [op], answers + [answer], p);
    }
  }

  lemma {:induction false} LastLeftOut<K, V>(all: seq<(K, V)>, capacity: int, ops: seq<Op<K, V>>, answers: seq<Answer<K, V>>, p: (K, V))
    requires |ops| == |answers| && ByRecency(all, ops, answers) && |all| > capacity && p in all && p !in all[..|all| - 1]
    ensures NoRoomFor(all[..|all| - 1], capacity, ops, answers, p)
  {
    var front := all[..|all| - 1];
    assert all == front + [all[|all| - 1]];
    assert p == all[|all| - 1];
  }

  lemma {:induction false} StillNoRoom<K, V>(s: seq<(K, V)>, t: seq<(K, V)>, capacity: int, ops: seq<Op<K, V>>, answers: seq<Answer<K, V>>,
    op: Op<K, V>, answer: Answer<K, V>, x: (K, V), p: (K, V))
    requires |ops| == |answers| && NoRoomFor(s, capacity, ops, answers, p) && Used(op, answer) == Some(x) && p != x
    requires |t| >= |s| && forall q :: q in t ==> q == x || q in s
    ensures NoRoomFor(t, capacity, ops + [op], answers + [answer], p)
  {
    LastUseSnoc(ops, answers, op, answer, p);
    LastUseBounds(ops, answers, p);
    forall q | q in t
      ensures LastUse(ops + [op], answers + [answer], q) > LastUse(ops + [op], answers + [answer], p)
    {
      LastUseSnoc(ops, answers, op, answer, q);
      LastUseBounds(ops, answers, q);
    }
  }

  lemma {:induction false} PutMostRecent<K, V>(s: seq<(K, V)>, capacity: int, ops: seq<Op<K, V>>, answers: seq<Answer<K, V>>,
    op: Op<K, V>, answer: Answer<K, V>, x: (K, V))
    requires |ops| == |answers| && MostRecent(s, capacity, ops, answers) && Used(op, answer) == Some(x)
    ensures MostRecent(PutPair(s, capacity, x), capacity, ops + [op], answers + [answer])
  {
    DropByRecency(s, ops, answers, x);
    DropMembers(s, x);
    UsedInFront(Drop(s, x), ops, answers, op, answer, x);
    PutCuts(s, capacity, ops, answers, x);
    forall i | 0 <= i <= |ops| && Used((ops + [op])[i], (answers + [answer])[i]).Some?
      ensures var p := Used((ops + [op])[i], (answers + [answer])[i]).value;
              p in PutPair(s, capacity, x) || NoRoomFor(PutPair(s, capacity, x), capacity, ops + [op], answers + [answer], p)
    {
      var p := Used((ops + [op])[i], (answers + [answer])[i]).value;
      assert i < |ops| ==> Used(ops[i], answers[i]) == Some(p);
      PutLeavesOut(s, PutPair(s, capacity, x), capacity, ops, answers, op, answer, x, p);
    }
  }

  lemma {:induction false} IdleMostRecent<K, V>(s: seq<(K, V)>, capacity: int, ops: seq<Op<K, V>>, answers: seq<Answer<K, V>>,
    op: Op<K, V>, answer: Answer<K, V>)
    requires |ops| == |answers| && MostRecent(s, capacity, ops, answers) && Used(op, answer) == None
    ensures MostRecent(s, capacity, ops + [op], answers + [answer])
  {
    forall p: (K, V)
      ensures LastUse(ops + [op], answers + [answer], p) == LastUse(ops, answers, p)
    {
      LastUseSnoc(ops, answers, op, answer, p);
    }
  }

  /** After every run the cache lists exactly the pairs used last, as many as its capacity, in the order of their last use. */
  lemma {:induction false} ListsMostRecent<K, V>(capacity: int, ops: seq<Op<K, V>>)
    ensures |AnswersOf([], capacity, ops)| == |ops|
    ensures MostRecent(AfterAll([], capacity, ops), capacity, ops, AnswersOf([], capacity, ops))
    decreases |ops|
  {
    AnswersLength([], capacity, ops);
    if ops != [] {
      var n := |ops| - 1;
      var front, op := ops[..n], ops[n];
      assert ops == front + [op];
      var s, answers := AfterAll([], capacity, front), AnswersOf([], capacity, front);
      ListsMostRecent(capacity, front);
      RunSnoc([], capacity, front, op);
      AfterUse(s, capacity, op);
      match Used(op, AnswerOf(s, op)) {
        case Some(x) => PutMostRecent(s, capacity, front, answers, op, AnswerOf(s, op), x);
        case None => IdleMostRecent(s, capacity, front, answers, op, AnswerOf(s, op));
      }
    }
  }

  lemma {:induction false} FirstDifference<T>(s: seq<T>, t: seq<T>) returns (i: nat)
    requires s != t
    ensures i <= |s| && i <= |t| && s[..i] == t[..i]
    ensures (i == |s| && i < |t|) || (i == |t| && i < |s|) || (i < |s| && i < |t| && s[i] != t[i])
    decreases |s|
  {
    if s == [] || t == [] || s[0] != t[0] {
      return 0;
    }
    assert s == [s[0]] + s[1..] && t == [t[0]] + t[1..];
    i := FirstDifference(s[1..], t[1..]);
    assert s[..i + 1] == [s[0]] + s[1..][..i] && t[..i + 1] == [t[0]] + t[1..][..i];
    i := i + 1;
  }

  /** There is only one list of the pairs used last. */
  lemma {:induction false} MostRecentUnique<K, V>(s: seq<(K, V)>, t: seq<(K, V)>, capacity: int, ops: seq<Op<K, V>>, answers: seq<Answer<K, V>>)
    requires |ops| == |answers| && MostRecent(s, capacity, ops, answers) && MostRecent(t, capacity, ops, answers)
    ensures s == t
  {
    if s != t {
      var i := FirstDifference(s, t);
      if i < |s| && (i == |t| || LastUse(ops, answers, s[i]) > LastUse(ops, answers, t[i])) {
        NotTheMostRecent(s, t, capacity, ops, answers, i);
      } else {
        if i < |s| && LastUse(ops, answers, s[i]) == LastUse(ops, answers, t[i]) {
          UsedAt(ops, answers, s[i]);
          UsedAt(ops, answers, t[i]);
        }
        NotTheMostRecent(t, s, capacity, ops, answers, i);
      }
    }
  }

  lemma {:induction false} NotTheMostRecent<K, V>(s: seq<(K, V)>, t: seq<(K, V)>, capacity: int, ops: seq<Op<K, V>>,
    answers: seq<Answer<K, V>>, i: nat)
    requires |ops| == |answers| && MostRecent(s, capacity, ops, answers) && ByRecency(t, ops, answers)
    requires i < |s| && i <= |t| && s[..i] == t[..i]
    requires i < |t| ==> LastUse(ops, answers, s[i]) > LastUse(ops, answers, t[i])
    ensures !MostRecent(t, capacity, ops, answers)
  {
    UsedAt(ops, answers, s[i]);
    forall j | 0 <= j < |t|
      ensures t[j] != s[i]
    {
      if j < i {
        assert t[j] == t[..i][j] == s[..i][j] == s[j];
      }
    }
    if i < |t| {
      assert t[i] in t;
    }
  }

  /** The last pair of the list is the one that was used before all others. */
  lemma {:induction false} LastIsOldest<K, V>(s: seq<(K, V)>, ops: seq<Op<K, V>>, answers: seq<Answer<K, V>>, p: (K, V))
    requires |ops| == |answers| && ByRecency(s, ops, answers) && p in s
    ensures p in s[..|s| - 1] <==> exists q :: q in s && q != p && LastUse(ops, answers, q) <= LastUse(ops, answers, p)
  {
    var i :| 0 <= i < |s| && s[i] == p;
    var last := s[|s| - 1];
    if i < |s| - 1 {
      assert s[..|s| - 1][i] == p && last in s;
    }
  }

  /** A pair is pushed out exactly if a pair that is not listed is put into a full cache and all others were used later. */
  lemma {:induction false} PushedOutIff<K, V>(capacity: int, ops: seq<Op<K, V>>, op: Op<K, V>, p: (K, V))
    requires p in AfterAll([], capacity, ops)
    ensures |AnswersOf([], capacity, ops)| == |ops|
    ensures p !in AfterAll([], capacity, ops + [op]) <==>
            var s, answers := AfterAll([], capacity, ops), AnswersOf([], capacity, ops);
            && op.Put? && (op.key, op.value) !in s && |s| == capacity
            && forall q :: q in s && q != p ==> LastUse(ops, answers, q) > LastUse(ops, answers, p)
  {
    var s, answers := AfterAll([], capacity, ops), AnswersOf([], capacity, ops);
    ListsMostRecent(capacity, ops);
    RunSnoc([], capacity, ops, op);
    AfterUse(s, capacity, op);
    var used := Used(op, AnswerOf(s, op));
    if used.Some? {
      DropMembers(s, used.value);
      if used.value !in s && |s| == capacity {
        assert After(s, capacity, op) == [used.value] + s[..|s| - 1];
        LastIsOldest(s, ops, answers, p);
      }
    }
  }
}
