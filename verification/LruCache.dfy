/** The LRU cache: a map from keys to list elements plus a recency list of the same elements. */
module LruCache {
  import opened Common

  type Key = nat

  datatype Pair<V> = Pair(key: Key, value: V)

  // ----- what the cache holds, as a value: most recent first

  ghost predicate Distinct<V>(s: seq<Pair<V>>) {
    forall i, j :: 0 <= i < j < |s| ==> s[i].key != s[j].key
  }

  ghost predicate Has<V>(s: seq<Pair<V>>, key: Key) {
    exists i :: 0 <= i < |s| && s[i].key == key
  }

  /** A position of `key` (the only one, in a cache), or |s| when it is absent. */
  ghost function IndexOf<V>(s: seq<Pair<V>>, key: Key): (i: nat)
    ensures if Has(s, key) then i < |s| && s[i].key == key else i == |s|
  {
    if Has(s, key) then var i :| 0 <= i < |s| && s[i].key == key; i else |s|
  }

  ghost function Lookup<V>(s: seq<Pair<V>>, key: Key): Option<V> {
    var i := IndexOf(s, key);
    if i < |s| then Some(s[i].value) else None
  }

  ghost function Without<V>(s: seq<Pair<V>>, key: Key): seq<Pair<V>> {
    var i := IndexOf(s, key);
    if i < |s| then s[..i] + s[i + 1..] else s
  }

  ghost function AfterGet<V>(s: seq<Pair<V>>, key: Key): seq<Pair<V>> {
    var i := IndexOf(s, key);
    if i < |s| then [s[i]] + Without(s, key) else s
  }

  ghost function AfterPut<V>(capacity: nat, s: seq<Pair<V>>, key: Key, value: V): seq<Pair<V>> {
    if IndexOf(s, key) < |s| then [Pair(key, value)] + Without(s, key)
    else [Pair(key, value)] + if |s| >= capacity && s != [] then s[..|s| - 1] else s
  }

  /** Overwriting a value and moving it to the front. */
  lemma OverwrittenFront<V>(s: seq<Pair<V>>, j: nat, p: Pair<V>)
    requires j < |s| && s[j].key == p.key && Distinct(s[j := p])
    ensures AfterGet(s[j := p], p.key) == [p] + Without(s, p.key)
  {
    var t := s[j := p];
    assert t[j].key == p.key;
    assert IndexOf(t, p.key) == j;
    assert t[IndexOf(s, p.key)].key == p.key;
    assert t[..j] == s[..j] && t[j + 1..] == s[j + 1..];
  }

  // ----- the cache itself

  class Element<V> {
    const key: Key
    var value: V

    constructor (key: Key, value: V)
      ensures this.key == key && this.value == value
    {
      this.key, this.value := key, value;
    }
  }

  ghost function Elements<V>(order: seq<Element<V>>): set<object> {
    set e | e in order
  }

  function ToFront<T>(s: seq<T>, j: nat): seq<T>
    requires j < |s|
  {
    seq(|s|, i requires 0 <= i < |s| => s[if i == 0 then j else if i <= j then i - 1 else i])
  }

  lemma ToFrontParts<T>(s: seq<T>, j: nat)
    requires j < |s|
    ensures ToFront(s, j) == [s[j]] + (s[..j] + s[j + 1..])
  {
  }

  lemma ToFrontIsGet<V>(s: seq<Pair<V>>, key: Key, j: nat)
    requires j < |s| && IndexOf(s, key) == j
    ensures ToFront(s, j) == AfterGet(s, key)
  {
    ToFrontParts(s, j);
  }

  /** Map and list hold the same elements, each once, and the map finds each under its own key. */
  ghost predicate Linked<V>(items: map<Key, Element<V>>, order: seq<Element<V>>) {
    multiset(order) == multiset(items.Values) && forall k :: k in items ==> items[k].key == k
  }

  lemma LinkedElement<V>(items: map<Key, Element<V>>, order: seq<Element<V>>, e: Element<V>)
    requires Linked(items, order) && e in order
    ensures e.key in items && items[e.key] == e
  {
    assert e in multiset(order);
    var k :| k in items && items[k] == e;
  }

  lemma LinkedOnce<V>(items: map<Key, Element<V>>, order: seq<Element<V>>, i: nat, j: nat)
    requires Linked(items, order) && i < |order| && j < |order| && order[i].key == order[j].key
    ensures i == j
  {
    LinkedElement(items, order, order[i]);
    LinkedElement(items, order, order[j]);
    if i != j {
      CountedTwice(order, if i < j then i else j, if i < j then j else i);
    }
  }

  lemma LinkedPush<V>(items: map<Key, Element<V>>, order: seq<Element<V>>, e: Element<V>)
    requires Linked(items, order) && e.key !in items
    ensures Linked(items[e.key := e], [e] + order)
  {
    var items' := items[e.key := e];
    assert e !in items.Values;
    forall x ensures x in items'.Values <==> x in items.Values + {e} {
      if x == e {
        assert items'[e.key] == e;
      } else if x in items.Values {
        var k :| k in items && items[k] == x;
        assert items'[k] == x;
      }
    }
    assert items'.Values == items.Values + {e};
  }

  lemma LinkedPop<V>(items: map<Key, Element<V>>, order: seq<Element<V>>)
    requires Linked(items, order) && order != []
    ensures Linked(items - {order[|order| - 1].key}, order[..|order| - 1])
  {
    var n := |order| - 1;
    var e := order[n];
    LinkedElement(items, order, e);
    var items' := items - {e.key};
    assert order == order[..n] + [e];
    forall x ensures x in items'.Values <==> x in items.Values - {e} {
      if x != e && x in items.Values {
        var k :| k in items && items[k] == x;
        assert items'[k] == x;
      }
    }
    assert items'.Values == items.Values - {e};
    forall x ensures multiset(order[..n])[x] == multiset(items'.Values)[x] {
      assert multiset(order)[x] == multiset(order[..n])[x] + if x == e then 1 else 0;
      assert x == e ==> multiset(items.Values)[x] == 1;
    }
  }

  lemma LinkedToFront<V>(items: map<Key, Element<V>>, order: seq<Element<V>>, j: nat)
    requires Linked(items, order) && j < |order|
    ensures Linked(items, ToFront(order, j)) && Elements(ToFront(order, j)) == Elements(order)
  {
    ToFrontParts(order, j);
    assert order == order[..j] + [order[j]] + order[j + 1..];
    assert multiset(ToFront(order, j)) == multiset([order[j]]) + multiset(order[..j]) + multiset(order[j + 1..]);
    assert multiset(ToFront(order, j)) == multiset(order);
    forall e ensures e in ToFront(order, j) <==> e in order {
      assert e in order <==> e in multiset(order);
      assert e in ToFront(order, j) <==> e in multiset(ToFront(order, j));
    }
  }

  class Cache<V> {
    const capacity: nat
    var items: map<Key, Element<V>>
    var order: seq<Element<V>>  // front = most recent
    ghost var contents: seq<Pair<V>>  // what the list holds

    ghost predicate Valid()
      reads this, order
    {
      && 0 < capacity
      && |order| <= capacity
      && Linked(items, order)
      && |contents| == |order|
      && forall i :: 0 <= i < |order| ==> contents[i] == Pair(order[i].key, order[i].value)
    }

    constructor (capacity: int)
      ensures Valid() && order == []
      ensures this.capacity == if capacity <= 0 then 10000 else capacity
    {
      this.capacity := if capacity <= 0 then 10000 else capacity;
      items, order, contents := map[], [], [];
    }

    /** Where a key is: its element and the position of that element. */
    ghost method Locate(key: Key) returns (j: nat)
      requires Valid()
      ensures j == IndexOf(contents, key)
      ensures if key in items then j < |order| && order[j] == items[key] else j == |order|
    {
      j := IndexOf(contents, key);
      if key in items {
        assert items[key] in multiset(order);
        var i :| 0 <= i < |order| && order[i] == items[key];
        assert contents[i].key == key;
        LinkedOnce(items, order, i, j);
      } else if j < |order| {
        LinkedElement(items, order, order[j]);
      }
    }

    /** Moves an element of the list to the front, as list.MoveToFront does. */
    method MoveToFront(elem: Element<V>)
      requires Valid() && elem in order
      modifies this`order, this`contents
      ensures Valid() && Elements(order) == old(Elements(order))
      ensures contents == AfterGet(old(contents), elem.key)
    {
      var j :| 0 <= j < |order| && order[j] == elem;
      LinkedElement(items, order, elem);
      ghost var k := Locate(elem.key);
      LinkedOnce(items, order, j, k);
      ToFrontIsGet(contents, elem.key, j);
      LinkedToFront(items, order, j);
      order := ToFront(order, j);
      contents := ToFront(contents, j);
    }

    method Get(key: Key) returns (r: Option<V>)
      requires Valid()
      modifies this`order, this`contents
      ensures Valid() && Elements(order) == old(Elements(order))
      ensures r == Lookup(old(contents), key)
      ensures contents == AfterGet(old(contents), key)
    {
      ghost var j := Locate(key);
      if key !in items {
        return None;
      }
      var elem := items[key];
      MoveToFront(elem);
      return Some(elem.value);
    }

    method Put(key: Key, value: V)
      requires Valid()
      modifies this, Elements(order)
      ensures Valid() && fresh(Elements(order) - old(Elements(order)))
      ensures contents == AfterPut(capacity, old(contents), key, value)
    {
      ghost var j := Locate(key);
      if key in items {
        Overwrite(items[key], value);
        return;
      }
      if |order| >= capacity {
        EvictOldest();
      }
      InsertFront(key, value);
    }

    method EvictOldest()
      requires Valid() && order != []
      modifies this
      ensures Valid() && |order| == |old(order)| - 1
      ensures Elements(order) <= old(Elements(order)) && items.Keys <= old(items.Keys)
      ensures contents == old(contents)[..|order|]
    {
      var oldest := order[|order| - 1];
      LinkedPop(items, order);
      order, contents := order[..|order| - 1], contents[..|order| - 1];
      items := items - {oldest.key};
    }

    method Overwrite(elem: Element<V>, value: V)
      requires Valid() && elem in order
      modifies this`order, this`contents, elem
      ensures Valid() && Elements(order) == old(Elements(order))
      ensures contents == [Pair(elem.key, value)] + Without(old(contents), elem.key)
    {
      ghost var j := SetValue(elem, value);
      KeysDistinct();
      OverwrittenFront(old(contents), j, Pair(elem.key, value));
      MoveToFront(elem);
    }

    lemma KeysDistinct()
      requires Valid()
      ensures Distinct(contents)
    {
      forall i, j | 0 <= i < j < |contents| ensures contents[i].key != contents[j].key {
        if contents[i].key == contents[j].key {
          LinkedOnce(items, order, i, j);
        }
      }
    }

    method SetValue(elem: Element<V>, value: V) returns (ghost j: nat)
      requires Valid() && elem in order
      modifies this`contents, elem
      ensures Valid() && j < |contents| && old(contents)[j].key == elem.key
      ensures contents == old(contents)[j := Pair(elem.key, value)]
    {
      LinkedElement(items, order, elem);
      j := Locate(elem.key);
      forall i | 0 <= i < |order| && order[i] == elem ensures i == j {
        LinkedOnce(items, order, i, j);
      }
      elem.value := value;
      contents := contents[j := Pair(elem.key, value)];
    }

    method InsertFront(key: Key, value: V)
      requires Valid() && key !in items && |order| < capacity
      modifies this
      ensures Valid() && fresh(Elements(order) - old(Elements(order)))
      ensures contents == [Pair(key, value)] + old(contents)
    {
      var elem := new Element(key, value);
      LinkedPush(items, order, elem);
      order := [elem] + order;
      items := items[key := elem];
      contents := [Pair(key, value)] + contents;
    }

    method Clear()
      requires Valid()
      modifies this
      ensures Valid() && contents == []
    {
      items, order, contents := map[], [], [];
    }
  }

  // ----- what any run leaves in the cache

  datatype Op<V> = Get(key: Key) | Put(key: Key, value: V) | Clear

  ghost function Apply<V>(capacity: nat, s: seq<Pair<V>>, op: Op<V>): seq<Pair<V>> {
    match op
    case Get(key) => AfterGet(s, key)
    case Put(key, value) => AfterPut(capacity, s, key, value)
    case Clear => []
  }

  ghost function Run<V>(capacity: nat, ops: seq<Op<V>>): seq<Pair<V>> {
    if ops == [] then [] else Apply(capacity, Run(capacity, ops[..|ops| - 1]), ops[|ops| - 1])
  }

  /** The operations since the last Clear that touched a key: every Put, and every Get that hit. */
  ghost function Touches<V>(capacity: nat, ops: seq<Op<V>>): seq<Op<V>> {
    if ops == [] then []
    else
      var n := |ops| - 1;
      var before := Touches(capacity, ops[..n]);
      match ops[n]
      case Clear => []
      case Put(_, _) => before + [ops[n]]
      case Get(key) => if Lookup(Run(capacity, ops[..n]), key).Some? then before + [ops[n]] else before
  }

  /** The last touch of `key`, counted from 1; 0 when it was never touched. */
  function LastTouch<V>(log: seq<Op<V>>, key: Key): nat {
    if log == [] then 0
    else
      var n := |log| - 1;
      if !log[n].Clear? && log[n].key == key then |log| else LastTouch(log[..n], key)
  }

  function LastPut<V>(log: seq<Op<V>>, key: Key): Option<V> {
    if log == [] then None
    else
      var n := |log| - 1;
      if log[n].Put? && log[n].key == key then Some(log[n].value) else LastPut(log[..n], key)
  }

  ghost function TouchedKeys<V>(log: seq<Op<V>>): set<Key> {
    set op | op in log && !op.Clear? :: op.key
  }

  /** `s` is what an LRU cache must hold when keys were last touched in the order of `rank` (0 = never)
      and last put with the values of `put`. */
  ghost predicate HoldsTop<V>(capacity: nat, s: seq<Pair<V>>, rank: Key -> nat, put: Key -> Option<V>) {
    |s| <= capacity && Ranked(s, rank, put) && NoneMissed(capacity, s, rank)
  }

  /** From the most to the least recently touched; each was touched, and holds what was last put there. */
  ghost predicate Ranked<V>(s: seq<Pair<V>>, rank: Key -> nat, put: Key -> Option<V>) {
    && (forall i, j :: 0 <= i < j < |s| ==> rank(s[i].key) > rank(s[j].key))
    && (forall i :: 0 <= i < |s| ==> rank(s[i].key) > 0 && put(s[i].key) == Some(s[i].value))
  }

  /** A touched key is missing only from a full cache whose keys were all touched later. */
  ghost predicate NoneMissed<V>(capacity: nat, s: seq<Pair<V>>, rank: Key -> nat) {
    && (forall key :: rank(key) > 0 && !Has(s, key) ==> |s| == capacity)
    && (forall key, i :: rank(key) > 0 && !Has(s, key) && 0 <= i < |s| ==> rank(s[i].key) > rank(key))
  }

  /** `s` is what an LRU cache must hold after the touches in `log`. */
  ghost predicate MostRecent<V>(capacity: nat, s: seq<Pair<V>>, log: seq<Op<V>>) {
    HoldsTop(capacity, s, (key: Key) => LastTouch(log, key), (key: Key) => LastPut(log, key))
  }

  lemma {:induction false} TouchLast<V>(log: seq<Op<V>>, op: Op<V>, key: Key)
    requires !op.Clear?
    ensures LastTouch(log + [op], key) == if op.key == key then |log| + 1 else LastTouch(log, key)
    ensures LastPut(log + [op], key) == if op.Put? && op.key == key then Some(op.value) else LastPut(log, key)
  {
    assert (log + [op])[..|log|] == log;
  }

  lemma {:induction false} LastTouchInLog<V>(log: seq<Op<V>>, key: Key)
    ensures LastTouch(log, key) <= |log|
    ensures LastTouch(log, key) > 0 <==> key in TouchedKeys(log)
  {
    if log != [] {
      var n := |log| - 1;
      LastTouchInLog(log[..n], key);
      assert log == log[..n] + [log[n]];
    }
  }

  /** What must be left behind `key` when it moves to the front. */
  ghost predicate LeftBehind<V>(capacity: nat, rest: seq<Pair<V>>, key: Key, rank: Key -> nat, put: Key -> Option<V>) {
    && |rest| < capacity
    && Ranked(rest, rank, put)
    && (forall i :: 0 <= i < |rest| ==> rest[i].key != key)
    && (forall k :: k != key && rank(k) > 0 && !Has(rest, k) ==> |rest| + 1 == capacity)
    && (forall k, i :: k != key && rank(k) > 0 && !Has(rest, k) && 0 <= i < |rest| ==>
                         rank(rest[i].key) > rank(k))
  }

  lemma {:induction false} HitLeavesBehind<V>(
    capacity: nat, s: seq<Pair<V>>, i: nat, rank: Key -> nat, put: Key -> Option<V>)
    requires HoldsTop(capacity, s, rank, put) && i < |s|
    ensures LeftBehind(capacity, s[..i] + s[i + 1..], s[i].key, rank, put)
  {
    var rest := s[..i] + s[i + 1..];
    forall a | 0 <= a < |rest| ensures rest[a] == s[if a < i then a else a + 1] && rest[a].key != s[i].key {
      assert rank(rest[a].key) != rank(s[i].key);
    }
    forall k | k != s[i].key && !Has(rest, k) ensures !Has(s, k) {
      forall a | 0 <= a < |s| ensures s[a].key != k {
        assert a < i ==> rest[a] == s[a];
        assert a > i ==> rest[a - 1] == s[a];
      }
    }
  }

  lemma {:induction false} NewKeyLeavesBehind<V>(
    capacity: nat, s: seq<Pair<V>>, key: Key, rank: Key -> nat, put: Key -> Option<V>)
    requires HoldsTop(capacity, s, rank, put) && !Has(s, key) && capacity > 0
    ensures LeftBehind(capacity, if |s| >= capacity then s[..|s| - 1] else s, key, rank, put)
  {
    var rest := if |s| >= capacity then s[..|s| - 1] else s;
    forall k | rank(k) > 0 && !Has(rest, k)
      ensures |rest| + 1 == capacity && forall i :: 0 <= i < |rest| ==> rank(rest[i].key) > rank(k)
    {
      assert forall j :: 0 <= j < |rest| ==> rest[j] == s[j];
    }
  }

  /** Putting `p` in front of what it leaves behind is right when `p` is the latest touch. */
  lemma {:induction false} TouchKeeps<V>(
    capacity: nat, rest: seq<Pair<V>>, p: Pair<V>,
    rank: Key -> nat, put: Key -> Option<V>, rank': Key -> nat, put': Key -> Option<V>)
    requires LeftBehind(capacity, rest, p.key, rank, put)
    requires forall k :: if k == p.key then rank'(k) > 0 else rank'(k) == rank(k)
    requires forall k :: rank'(p.key) > rank(k)
    requires forall k :: put'(k) == if k == p.key then Some(p.value) else put(k)
    ensures HoldsTop(capacity, [p] + rest, rank', put')
  {
    forall i | 0 <= i < |rest|
      ensures rank'(rest[i].key) == rank(rest[i].key) && put'(rest[i].key) == put(rest[i].key)
    {
    }
    RankedFront(rest, p, rank', put');
    forall k | !Has([p] + rest, k) ensures k != p.key && !Has(rest, k) && rank'(k) == rank(k) {
      NotHas(p, rest, k);
    }
  }

  lemma RankedFront<V>(rest: seq<Pair<V>>, p: Pair<V>, rank: Key -> nat, put: Key -> Option<V>)
    requires Ranked(rest, rank, put) && rank(p.key) > 0 && put(p.key) == Some(p.value)
    requires forall i :: 0 <= i < |rest| ==> rank(p.key) > rank(rest[i].key)
    ensures Ranked([p] + rest, rank, put)
  {
  }

  lemma NotHas<V>(p: Pair<V>, rest: seq<Pair<V>>, k: Key)
    requires !Has([p] + rest, k)
    ensures k != p.key && !Has(rest, k)
  {
    var t := [p] + rest;
    assert t[0] == p;
    assert forall i :: 0 <= i < |rest| ==> rest[i] == t[i + 1];
  }

  lemma {:induction false} TouchLogged<V>(capacity: nat, rest: seq<Pair<V>>, p: Pair<V>, log: seq<Op<V>>, op: Op<V>)
    requires LeftBehind(capacity, rest, p.key, (key: Key) => LastTouch(log, key), (key: Key) => LastPut(log, key))
    requires !op.Clear? && op.key == p.key && LastPut(log + [op], p.key) == Some(p.value)
    ensures MostRecent(capacity, [p] + rest, log + [op])
  {
    forall key
      ensures LastTouch(log + [op], key) == (if key == p.key then |log| + 1 else LastTouch(log, key))
      ensures LastTouch(log, key) <= |log|
      ensures LastPut(log + [op], key) == if key == p.key then Some(p.value) else LastPut(log, key)
    {
      TouchLast(log, op, key);
      LastTouchInLog(log, key);
    }
    TouchKeeps(capacity, rest, p, (key: Key) => LastTouch(log, key), (key: Key) => LastPut(log, key),
               (key: Key) => LastTouch(log + [op], key), (key: Key) => LastPut(log + [op], key));
  }

  /** After any run of Get, Put and Clear the cache holds the most recently touched keys. */
  lemma {:induction false} RunHoldsMostRecent<V>(capacity: nat, ops: seq<Op<V>>)
    requires capacity > 0
    ensures MostRecent(capacity, Run(capacity, ops), Touches(capacity, ops))
  {
    if ops != [] {
      var n := |ops| - 1;
      RunHoldsMostRecent(capacity, ops[..n]);
      if !ops[n].Clear? {
        OneTouch(capacity, Run(capacity, ops[..n]), Touches(capacity, ops[..n]), ops[n]);
      }
    }
  }

  lemma {:induction false} OneTouch<V>(capacity: nat, s: seq<Pair<V>>, log: seq<Op<V>>, op: Op<V>)
    requires capacity > 0 && MostRecent(capacity, s, log) && !op.Clear?
    ensures MostRecent(capacity, Apply(capacity, s, op),
                       if op.Put? || Lookup(s, op.key).Some? then log + [op] else log)
  {
    var i := IndexOf(s, op.key);
    if i < |s| {
      HitTouch(capacity, s, log, op, i);
    } else if op.Put? {
      NewTouch(capacity, s, log, op);
    }
  }

  lemma HitTouch<V>(capacity: nat, s: seq<Pair<V>>, log: seq<Op<V>>, op: Op<V>, i: nat)
    requires MostRecent(capacity, s, log) && !op.Clear? && i < |s| && s[i].key == op.key
    ensures var p := Pair(op.key, if op.Put? then op.value else s[i].value);
            MostRecent(capacity, [p] + (s[..i] + s[i + 1..]), log + [op])
  {
    TouchLast(log, op, op.key);
    HitLeavesBehind(capacity, s, i, (key: Key) => LastTouch(log, key), (key: Key) => LastPut(log, key));
    TouchLogged(capacity, s[..i] + s[i + 1..], Pair(op.key, if op.Put? then op.value else s[i].value), log, op);
  }

  lemma NewTouch<V>(capacity: nat, s: seq<Pair<V>>, log: seq<Op<V>>, op: Op<V>)
    requires MostRecent(capacity, s, log) && op.Put? && !Has(s, op.key) && capacity > 0
    ensures MostRecent(capacity, [Pair(op.key, op.value)] + (if |s| >= capacity then s[..|s| - 1] else s), log + [op])
  {
    TouchLast(log, op, op.key);
    NewKeyLeavesBehind(capacity, s, op.key, (key: Key) => LastTouch(log, key), (key: Key) => LastPut(log, key));
    TouchLogged(capacity, if |s| >= capacity then s[..|s| - 1] else s, Pair(op.key, op.value), log, op);
  }

  lemma RunDistinct<V>(capacity: nat, ops: seq<Op<V>>)
    requires capacity > 0
    ensures MostRecent(capacity, Run(capacity, ops), Touches(capacity, ops)) && Distinct(Run(capacity, ops))
  {
    RunHoldsMostRecent(capacity, ops);
    var s, log := Run(capacity, ops), Touches(capacity, ops);
    forall i, j | 0 <= i < j < |s| ensures s[i].key != s[j].key {
      assert LastTouch(log, s[i].key) > LastTouch(log, s[j].key);
    }
  }

  /** ... and as many of them as fit: min(capacity, number of distinct keys touched). */
  lemma {:induction false} RunSize<V>(capacity: nat, ops: seq<Op<V>>)
    requires capacity > 0
    ensures Distinct(Run(capacity, ops))
    ensures |Run(capacity, ops)| == Min(capacity, |TouchedKeys(Touches(capacity, ops))|)
  {
    var s, log := Run(capacity, ops), Touches(capacity, ops);
    RunDistinct(capacity, ops);
    SizeOfMostRecent(capacity, s, log);
  }

  lemma {:induction false} SizeOfMostRecent<V>(capacity: nat, s: seq<Pair<V>>, log: seq<Op<V>>)
    requires MostRecent(capacity, s, log) && Distinct(s)
    ensures |s| == Min(capacity, |TouchedKeys(log)|)
  {
    var held, touched := set i | 0 <= i < |s| :: s[i].key, TouchedKeys(log);
    KeyCount(s);
    forall key ensures LastTouch(log, key) > 0 <==> key in touched {
      LastTouchInLog(log, key);
    }
    SubsetSize(held, touched);
    if |s| < capacity {
      forall key | key in touched ensures key in held {
        assert IndexOf(s, key) < |s|;
      }
      assert held == touched;
    }
  }

  lemma {:induction false} KeyCount<V>(s: seq<Pair<V>>)
    requires Distinct(s)
    ensures |set i | 0 <= i < |s| :: s[i].key| == |s|
  {
    if s != [] {
      var n := |s| - 1;
      KeyCount(s[..n]);
      var before := set i | 0 <= i < n :: s[..n][i].key;
      assert (set i | 0 <= i < |s| :: s[i].key) == before + {s[n].key};
    }
  }

  /** What a Get returns after any run: the value of the last Put of the key since Clear, unless the key is out. */
  lemma {:induction false} GetIsLastPut<V>(capacity: nat, ops: seq<Op<V>>, key: Key)
    requires capacity > 0
    ensures var s := Run(capacity, ops);
            Lookup(s, key) == if Has(s, key) then LastPut(Touches(capacity, ops), key) else None
  {
    RunHoldsMostRecent(capacity, ops);
    var s := Run(capacity, ops);
    var i := IndexOf(s, key);
    if i < |s| {
      assert LastPut(Touches(capacity, ops), s[i].key) == Some(s[i].value);
    }
  }
}
