/**
 The bounded ETag store: a JavaScript `Map` used as a recency list, because a map
 iterates in insertion order and every touch deletes and reinserts the key.
 */
module EtagLru {
  import opened Common

  type Key = string

  /** Map contents in iteration order: oldest first. */
  type Recency<V> = seq<(Key, V)>

  function Keys<V>(es: Recency<V>): set<Key> {
    set i | 0 <= i < |es| :: es[i].0
  }

  ghost predicate DistinctKeys<V>(es: Recency<V>) {
    forall i, j :: 0 <= i < j < |es| ==> es[i].0 != es[j].0
  }

  function Find<V>(es: Recency<V>, key: Key): Option<V> {
    if es == [] then None else if es[0].0 == key then Some(es[0].1) else Find(es[1..], key)
  }

  function Remove<V>(es: Recency<V>, key: Key): Recency<V> {
    if es == [] then []
    else if es[0].0 == key then Remove(es[1..], key)
    else [es[0]] + Remove(es[1..], key)
  }

  /** Drop the oldest entries until the bound holds or nothing is left. */
  function Trim<V>(maxEntries: int, es: Recency<V>): Recency<V> {
    if |es| > maxEntries && es != [] then Trim(maxEntries, es[1..]) else es
  }

  function AfterGet<V>(es: Recency<V>, key: Key): Recency<V> {
    match Find(es, key)
    case None => es
    case Some(v) => Remove(es, key) + [(key, v)]
  }

  function AfterSet<V>(maxEntries: int, es: Recency<V>, key: Key, v: V): Recency<V> {
    Trim(maxEntries, Remove(es, key) + [(key, v)])
  }

  class LruStore<V> {
    const maxEntries: int
    var entries: Recency<V>

    constructor (maxEntries: int)
      ensures this.maxEntries == maxEntries && entries == []
    {
      this.maxEntries, entries := maxEntries, [];
    }

    method Get(key: Key) returns (entry: Option<V>)
      modifies this
      ensures entry == Find(old(entries), key) && entries == AfterGet(old(entries), key)
    {
      entry := Find(entries, key);
      if entry.Some? {
        entries := Remove(entries, key);
        entries := entries + [(key, entry.value)];
      }
    }

    method Set(key: Key, entry: V)
      modifies this
      ensures entries == AfterSet(maxEntries, old(entries), key, entry)
    {
      entries := Remove(entries, key);
      entries := entries + [(key, entry)];
      while |entries| > maxEntries
        invariant Trim(maxEntries, entries) == AfterSet(maxEntries, old(entries), key, entry)
        decreases |entries|
      {
        if entries == [] {
          break;
        }
        entries := entries[1..];
      }
    }
  }

  datatype Op<V> = Get(key: Key) | Set(key: Key, value: V)

  function Apply<V>(maxEntries: int, es: Recency<V>, op: Op<V>): Recency<V> {
    match op
    case Get(k) => AfterGet(es, k)
    case Set(k, v) => AfterSet(maxEntries, es, k, v)
  }

  function Run<V>(maxEntries: int, es: Recency<V>, ops: seq<Op<V>>): Recency<V>
    decreases |ops|
  {
    if ops == [] then es else Run(maxEntries, Apply(maxEntries, es, ops[0]), ops[1..])
  }

  // ---- the list as a finite map ----

  lemma {:induction false} RemoveFacts<V>(es: Recency<V>, key: Key)
    requires DistinctKeys(es)
    ensures var r := Remove(es, key);
            && DistinctKeys(r) && Keys(r) == Keys(es) - {key}
            && |r| == |es| - (if key in Keys(es) then 1 else 0)
            && (forall k :: k != key ==> Find(r, k) == Find(es, k))
  {
    if es != [] {
      RemoveFacts(es[1..], key);
      assert Keys(es) == {es[0].0} + Keys(es[1..]) by { KeysCons(es); }
      if es[0].0 != key {
        var r := [es[0]] + Remove(es[1..], key);
        KeysCons(r);
        assert r[1..] == Remove(es[1..], key);
        forall j | 0 < j < |r| ensures r[j].0 != es[0].0 {
          assert r[j] == r[1..][j - 1] && r[j].0 in Keys(r[1..]);
        }
      }
    }
  }

  lemma KeysCons<V>(es: Recency<V>)
    requires es != []
    ensures Keys(es) == {es[0].0} + Keys(es[1..])
  {
    forall k | k in Keys(es) ensures k in {es[0].0} + Keys(es[1..]) {
      var i :| 0 <= i < |es| && es[i].0 == k;
      assert i > 0 ==> es[1..][i - 1].0 == k;
    }
    forall k | k in Keys(es[1..]) ensures k in Keys(es) {
      var i :| 0 <= i < |es[1..]| && es[1..][i].0 == k;
      assert es[i + 1].0 == k;
    }
  }

  lemma {:induction false} FindAt<V>(es: Recency<V>, i: nat)
    requires DistinctKeys(es) && i < |es|
    ensures Find(es, es[i].0) == Some(es[i].1)
    decreases i
  {
    if i > 0 {
      FindAt(es[1..], i - 1);
    }
  }

  lemma {:induction false} FindIff<V>(es: Recency<V>, key: Key)
    ensures Find(es, key).Some? <==> key in Keys(es)
  {
    if es != [] {
      FindIff(es[1..], key);
      KeysCons(es);
    }
  }

  lemma AppendFacts<V>(es: Recency<V>, key: Key, v: V)
    requires DistinctKeys(es) && key !in Keys(es)
    ensures DistinctKeys(es + [(key, v)]) && Keys(es + [(key, v)]) == Keys(es) + {key}
  {
    var r := es + [(key, v)];
    forall i | 0 <= i < |es| ensures r[i].0 != key {
      assert es[i].0 in Keys(es);
    }
    forall k | k in Keys(r) ensures k in Keys(es) + {key} {
      var i :| 0 <= i < |r| && r[i].0 == k;
      assert i < |es| ==> es[i].0 == k;
    }
    forall k | k in Keys(es) ensures k in Keys(r) {
      var i :| 0 <= i < |es| && es[i].0 == k;
      assert r[i].0 == k;
    }
    assert r[|es|].0 == key;
  }

  // ---- what a store can answer: only what was put in ----

  lemma {:induction false} FindIsMember<V>(es: Recency<V>, key: Key)
    ensures Find(es, key).Some? ==> (key, Find(es, key).value) in es
  {
    if es != [] && es[0].0 != key {
      FindIsMember(es[1..], key);
    }
  }

  lemma {:induction false} RemoveMembers<V>(es: Recency<V>, key: Key)
    ensures forall x :: x in Remove(es, key) ==> x in es
  {
    if es != [] {
      RemoveMembers(es[1..], key);
    }
  }

  lemma {:induction false} TrimMembers<V>(maxEntries: int, es: Recency<V>)
    ensures forall x :: x in Trim(maxEntries, es) ==> x in es
  {
    if |es| > maxEntries && es != [] {
      TrimMembers(maxEntries, es[1..]);
    }
  }

  lemma GetMembers<V>(es: Recency<V>, key: Key)
    ensures forall x :: x in AfterGet(es, key) ==> x in es
  {
    FindIsMember(es, key);
    RemoveMembers(es, key);
  }

  lemma SetMembers<V>(maxEntries: int, es: Recency<V>, key: Key, v: V)
    ensures forall x :: x in AfterSet(maxEntries, es, key, v) ==> x in es || x == (key, v)
  {
    RemoveMembers(es, key);
    TrimMembers(maxEntries, Remove(es, key) + [(key, v)]);
  }

  // ---- refinement of a store with explicit timestamps ----

  /** The reference store: each key with its value and the time it was last touched. */
  datatype Stamped<V> = Stamped(held: map<Key, (V, nat)>, clock: nat)

  ghost predicate IsOldest<V>(held: map<Key, (V, nat)>, k: Key) {
    k in held && forall j :: j in held ==> held[k].1 <= held[j].1
  }

  lemma {:induction false} OldestExists<V>(held: map<Key, (V, nat)>)
    requires held.Keys != {}
    ensures exists k :: IsOldest(held, k)
    decreases |held.Keys|
  {
    var x :| x in held;
    var rest := held - {x};
    if rest.Keys == {} {
      assert held.Keys == {x};
      assert IsOldest(held, x);
    } else {
      assert rest.Keys == held.Keys - {x};
      OldestExists(rest);
      var y :| IsOldest(rest, y);
      var k := if held[x].1 <= held[y].1 then x else y;
      forall j | j in held ensures held[k].1 <= held[j].1 {
        assert j != x ==> rest[j] == held[j] && rest[y] == held[y];
      }
      assert IsOldest(held, k);
    }
  }

  ghost function Oldest<V>(held: map<Key, (V, nat)>): (k: Key)
    requires held.Keys != {}
    ensures IsOldest(held, k)
  {
    OldestExists(held);
    var k :| IsOldest(held, k);
    k
  }

  /** Evict least recently touched keys while more than `maxEntries` are held. */
  ghost function Evict<V>(maxEntries: int, held: map<Key, (V, nat)>): map<Key, (V, nat)>
    decreases held.Keys
  {
    if |held.Keys| > maxEntries && held.Keys != {} then
      Evict(maxEntries, held - {Oldest(held)})
    else held
  }

  ghost function StampedApply<V>(maxEntries: int, st: Stamped<V>, op: Op<V>): Stamped<V> {
    match op
    case Get(k) =>
      if k in st.held then Stamped(st.held[k := (st.held[k].0, st.clock)], st.clock + 1) else st
    case Set(k, v) => Stamped(Evict(maxEntries, st.held[k := (v, st.clock)]), st.clock + 1)
  }

  ghost function StampedRun<V>(maxEntries: int, st: Stamped<V>, ops: seq<Op<V>>): Stamped<V>
    decreases |ops|
  {
    if ops == [] then st else StampedRun(maxEntries, StampedApply(maxEntries, st, ops[0]), ops[1..])
  }

  /** Entries carry the reference's values, and later entries carry later stamps. */
  ghost predicate InStampOrder<V>(es: Recency<V>, held: map<Key, (V, nat)>, clock: nat) {
    && (forall i :: 0 <= i < |es| ==> es[i].0 in held && held[es[i].0].0 == es[i].1 && held[es[i].0].1 < clock)
    && (forall i, j :: 0 <= i < j < |es| ==> held[es[i].0].1 < held[es[j].0].1)
  }

  /** The list holds the reference's keys and values, ordered by timestamp. */
  ghost predicate Mirrors<V>(es: Recency<V>, st: Stamped<V>) {
    DistinctKeys(es) && Keys(es) == st.held.Keys && InStampOrder(es, st.held, st.clock)
  }

  lemma {:induction false} KeysSize<V>(es: Recency<V>)
    requires DistinctKeys(es)
    ensures |Keys(es)| == |es|
  {
    if es != [] {
      KeysSize(es[1..]);
      KeysCons(es);
      assert es[0].0 !in Keys(es[1..]);
    }
  }

  lemma {:induction false} TrimMirrorsEvict<V>(maxEntries: int, es: Recency<V>, st: Stamped<V>)
    requires Mirrors(es, st)
    ensures Mirrors(Trim(maxEntries, es), st.(held := Evict(maxEntries, st.held)))
    decreases |es|
  {
    KeysSize(es);
    if |es| > maxEntries && es != [] {
      KeysCons(es);
      FirstIsOldest(es, st);
      var st' := st.(held := st.held - {es[0].0});
      RestMirrors(es, st);
      TrimMirrorsEvict(maxEntries, es[1..], st');
    }
  }

  lemma FirstIsOldest<V>(es: Recency<V>, st: Stamped<V>)
    requires Mirrors(es, st) && es != []
    ensures st.held.Keys != {} && Oldest(st.held) == es[0].0
  {
    assert es[0].0 in Keys(es);
    var k := Oldest(st.held);
    assert k in Keys(es);
    var i :| 0 <= i < |es| && es[i].0 == k;
  }

  lemma RestMirrors<V>(es: Recency<V>, st: Stamped<V>)
    requires Mirrors(es, st) && es != []
    ensures Mirrors(es[1..], st.(held := st.held - {es[0].0}))
  {
    KeysCons(es);
    assert es[0].0 !in Keys(es[1..]);
  }

  lemma {:induction false} RemoveKeepsStampOrder<V>(es: Recency<V>, held: map<Key, (V, nat)>, clock: nat, key: Key)
    requires InStampOrder(es, held, clock)
    ensures InStampOrder(Remove(es, key), held, clock)
  {
    if es != [] {
      var tail := es[1..];
      var left := Remove(tail, key);
      RemoveKeepsStampOrder(tail, held, clock, key);
      RemoveMembers(tail, key);
      if es[0].0 != key {
        HeadStaysOldest(es[0], tail, left, held, clock);
      }
    }
  }

  lemma HeadStaysOldest<V>(head: (Key, V), tail: Recency<V>, left: Recency<V>, held: map<Key, (V, nat)>, clock: nat)
    requires InStampOrder([head] + tail, held, clock) && InStampOrder(left, held, clock)
    requires forall e :: e in left ==> e in tail
    ensures InStampOrder([head] + left, held, clock)
  {
    var es, r := [head] + tail, [head] + left;
    assert es[0] == head;
    forall j | 1 <= j < |r| ensures held[head.0].1 < held[r[j].0].1 {
      assert r[j] == left[j - 1] && r[j] in tail;
      var m :| 0 <= m < |tail| && tail[m] == r[j];
      assert es[m + 1] == r[j];
    }
    forall i, j | 1 <= i < j < |r| ensures held[r[i].0].1 < held[r[j].0].1 {
      assert r[i] == left[i - 1] && r[j] == left[j - 1];
    }
  }

  lemma TouchMirrors<V>(es: Recency<V>, st: Stamped<V>, key: Key, v: V)
    requires Mirrors(es, st)
    ensures Mirrors(Remove(es, key) + [(key, v)], Stamped(st.held[key := (v, st.clock)], st.clock + 1))
  {
    var r := Remove(es, key);
    RemoveFacts(es, key);
    AppendFacts(r, key, v);
    RemoveKeepsStampOrder(es, st.held, st.clock, key);
    assert forall i :: 0 <= i < |r| ==> r[i].0 in Keys(r);
  }

  /** After any trace the list is the timestamp store in recency order; look-ups therefore agree. */
  lemma {:induction false} LruRefinesTimestamps<V>(maxEntries: int, es: Recency<V>, st: Stamped<V>, ops: seq<Op<V>>)
    requires Mirrors(es, st)
    ensures Mirrors(Run(maxEntries, es, ops), StampedRun(maxEntries, st, ops))
    decreases |ops|
  {
    if ops != [] {
      match ops[0] {
        case Get(k) =>
          FindIff(es, k);
          if k in st.held {
            var i :| 0 <= i < |es| && es[i].0 == k;
            FindAt(es, i);
            TouchMirrors(es, st, k, es[i].1);
          }
        case Set(k, v) =>
          TouchMirrors(es, st, k, v);
          TrimMirrorsEvict(maxEntries, Remove(es, k) + [(k, v)], Stamped(st.held[k := (v, st.clock)], st.clock + 1));
      }
      LruRefinesTimestamps(maxEntries, Apply(maxEntries, es, ops[0]), StampedApply(maxEntries, st, ops[0]), ops[1..]);
    }
  }

  lemma LookupsAgree<V>(es: Recency<V>, st: Stamped<V>, key: Key)
    requires Mirrors(es, st)
    ensures Find(es, key) == if key in st.held then Some(st.held[key].0) else None
  {
    FindIff(es, key);
    if key in st.held {
      var i :| 0 <= i < |es| && es[i].0 == key;
      FindAt(es, i);
    }
  }

  // ---- bounds and inclusion ----

  /** `a` can be had from `b` by deleting entries: same entries, same order. */
  predicate Subsequence<V(==)>(a: Recency<V>, b: Recency<V>)
    decreases |b|
  {
    a == [] || (b != [] && ((a[0] == b[0] && Subsequence(a[1..], b[1..])) || Subsequence(a, b[1..])))
  }

  lemma {:induction false} SubsequenceAppend<V>(a: Recency<V>, b: Recency<V>, x: (Key, V))
    requires Subsequence(a, b)
    ensures Subsequence(a + [x], b + [x]) && Subsequence(a, b + [x])
    decreases |b|
  {
    if b == [] {
      assert [x][1..] == [] && (a + [x])[1..] == [];
    } else {
      assert (b + [x])[1..] == b[1..] + [x];
      if a == [] {
        SubsequenceAppend(a, b[1..], x);
        assert a + [x] == [x];
      } else if a[0] == b[0] && Subsequence(a[1..], b[1..]) {
        SubsequenceAppend(a[1..], b[1..], x);
        assert (a + [x])[1..] == a[1..] + [x];
      } else {
        SubsequenceAppend(a, b[1..], x);
      }
    }
  }

  lemma {:induction false} SubsequenceTail<V>(a: Recency<V>, b: Recency<V>)
    requires Subsequence(a, b) && a != []
    ensures Subsequence(a[1..], b[1..]) && Subsequence(a[1..], b)
    decreases |b|
  {
    if !(a[0] == b[0] && Subsequence(a[1..], b[1..])) {
      SubsequenceTail(a, b[1..]);
    }
  }

  lemma {:induction false} SubsequenceRemove<V>(a: Recency<V>, b: Recency<V>, key: Key)
    requires Subsequence(a, b)
    ensures Subsequence(Remove(a, key), Remove(b, key))
    decreases |b|
  {
    if a != [] {
      if a[0] == b[0] && Subsequence(a[1..], b[1..]) {
        SubsequenceRemove(a[1..], b[1..], key);
        if a[0].0 != key {
          assert Remove(a, key)[1..] == Remove(a[1..], key);
          assert Remove(b, key)[1..] == Remove(b[1..], key);
        }
      } else {
        SubsequenceRemove(a, b[1..], key);
        if b[0].0 != key {
          assert Remove(b, key)[1..] == Remove(b[1..], key);
        }
      }
    }
  }

  lemma {:induction false} SubsequenceKeys<V>(a: Recency<V>, b: Recency<V>)
    requires Subsequence(a, b)
    ensures Keys(a) <= Keys(b) && |a| <= |b|
    decreases |b|
  {
    if a != [] {
      KeysCons(a);
      KeysCons(b);
      if a[0] == b[0] && Subsequence(a[1..], b[1..]) {
        SubsequenceKeys(a[1..], b[1..]);
      } else {
        SubsequenceKeys(a, b[1..]);
      }
    }
  }

  lemma {:induction false} RemoveAbsent<V>(es: Recency<V>, key: Key)
    requires key !in Keys(es)
    ensures Remove(es, key) == es
  {
    if es != [] {
      KeysCons(es);
      RemoveAbsent(es[1..], key);
    }
  }

  /** Two stores driven by one trace, the second at least as large as the first. */
  ghost predicate Nested<V>(small: int, large: int, a: Recency<V>, b: Recency<V>) {
    && DistinctKeys(a) && DistinctKeys(b) && Subsequence(a, b)
    && |b| <= Max(0, large) && |a| == Min(Max(0, small), |b|)
  }

  lemma {:induction false} TrimLength<V>(maxEntries: int, es: Recency<V>)
    ensures Trim(maxEntries, es) == es[|es| - Min(|es|, Max(0, maxEntries))..]
  {
    if |es| > maxEntries && es != [] {
      TrimLength(maxEntries, es[1..]);
    }
  }

  lemma SameValue<V>(a: Recency<V>, b: Recency<V>, key: Key)
    requires DistinctKeys(a) && DistinctKeys(b) && Subsequence(a, b) && key in Keys(a)
    ensures Find(a, key) == Find(b, key)
    decreases |b|
  {
    KeysCons(a);
    KeysCons(b);
    if a[0] == b[0] && Subsequence(a[1..], b[1..]) {
      if a[0].0 != key {
        SameValue(a[1..], b[1..], key);
      }
    } else {
      SubsequenceKeys(a, b[1..]);
      assert b[0].0 !in Keys(b[1..]);
      SameValue(a, b[1..], key);
    }
  }

  /** What a set makes of two lists, before trimming. */
  lemma PutKeepsSubsequence<V>(a: Recency<V>, b: Recency<V>, key: Key, v: V)
    requires DistinctKeys(a) && DistinctKeys(b) && Subsequence(a, b)
    ensures var a', b' := Remove(a, key) + [(key, v)], Remove(b, key) + [(key, v)];
            && DistinctKeys(a') && DistinctKeys(b') && Subsequence(a', b')
            && |a'| == |a| + (if key in Keys(a) then 0 else 1) && |b'| == |b| + (if key in Keys(b) then 0 else 1)
  {
    RemoveFacts(a, key);
    RemoveFacts(b, key);
    AppendFacts(Remove(a, key), key, v);
    AppendFacts(Remove(b, key), key, v);
    SubsequenceRemove(a, b, key);
    SubsequenceAppend(Remove(a, key), Remove(b, key), (key, v));
  }

  /** Trimming by at most one entry keeps two lists nested. */
  lemma TrimKeepsNested<V>(small: int, large: int, a: Recency<V>, b: Recency<V>)
    requires small <= large && a != [] && DistinctKeys(a) && DistinctKeys(b) && Subsequence(a, b)
    requires |a| <= Max(0, small) + 1 && |b| <= Max(0, large) + 1
    requires Min(|a|, Max(0, small)) == Min(|b|, Max(0, small)) && (|b| > Max(0, large) ==> |a| > Max(0, small))
    ensures Nested(small, large, Trim(small, a), Trim(large, b))
  {
    SubsequenceTail(a, b);
    TrimLength(small, a);
    TrimLength(large, b);
  }

  lemma SetKeepsNested<V>(small: int, large: int, a: Recency<V>, b: Recency<V>, key: Key, v: V)
    requires small <= large && Nested(small, large, a, b)
    ensures Nested(small, large, AfterSet(small, a, key, v), AfterSet(large, b, key, v))
  {
    SubsequenceKeys(a, b);
    PutKeepsSubsequence(a, b, key, v);
    var a', b' := Remove(a, key) + [(key, v)], Remove(b, key) + [(key, v)];
    SubsequenceKeys(a', b');
    TrimKeepsNested(small, large, a', b');
  }

  lemma GetKeepsNested<V>(small: int, large: int, a: Recency<V>, b: Recency<V>, key: Key)
    requires small <= large && Nested(small, large, a, b)
    ensures Nested(small, large, AfterGet(a, key), AfterGet(b, key))
  {
    FindIff(a, key);
    FindIff(b, key);
    SubsequenceKeys(a, b);
    if key in Keys(b) {
      var x := (key, Find(b, key).value);
      RemoveFacts(a, key);
      RemoveFacts(b, key);
      AppendFacts(Remove(a, key), key, x.1);
      AppendFacts(Remove(b, key), key, x.1);
      SubsequenceRemove(a, b, key);
      SubsequenceAppend(Remove(a, key), Remove(b, key), x);
      if key in Keys(a) {
        SameValue(a, b, key);
      } else {
        RemoveAbsent(a, key);
      }
    }
  }

  /**
   Inclusion: driven by one trace, a smaller store holds a subsequence of what a larger
   one holds, filled up to its own bound, and neither ever exceeds its bound.
   */
  lemma {:induction false} LruInclusion<V>(small: int, large: int, a: Recency<V>, b: Recency<V>, ops: seq<Op<V>>)
    requires small <= large && Nested(small, large, a, b)
    ensures Nested(small, large, Run(small, a, ops), Run(large, b, ops))
    decreases |ops|
  {
    if ops != [] {
      match ops[0] {
        case Get(k) => GetKeepsNested(small, large, a, b, k);
        case Set(k, v) => SetKeepsNested(small, large, a, b, k, v);
      }
      LruInclusion(small, large, Apply(small, a, ops[0]), Apply(large, b, ops[0]), ops[1..]);
    }
  }

  // ---- what is put in is found ----

  lemma {:induction false} RemoveRemoves<V>(es: Recency<V>, key: Key)
    ensures forall i :: 0 <= i < |Remove(es, key)| ==> Remove(es, key)[i].0 != key
  {
    if es != [] {
      RemoveRemoves(es[1..], key);
    }
  }

  lemma {:induction false} FindLast<V>(es: Recency<V>, key: Key, v: V)
    requires forall i :: 0 <= i < |es| ==> es[i].0 != key
    ensures Find(es + [(key, v)], key) == Some(v)
  {
    if es == [] {
      assert es + [(key, v)] == [(key, v)];
    } else {
      FindLast(es[1..], key, v);
      assert (es + [(key, v)])[1..] == es[1..] + [(key, v)];
    }
  }

  /** A look-up does not change what the next one of its key finds. */
  lemma GetThenFind<V>(es: Recency<V>, key: Key)
    ensures Find(AfterGet(es, key), key) == Find(es, key)
  {
    if Find(es, key).Some? {
      RemoveRemoves(es, key);
      FindLast(Remove(es, key), key, Find(es, key).value);
    }
  }

  /** A store with room for one entry finds what was put in last. */
  lemma SetThenFind<V>(maxEntries: int, es: Recency<V>, key: Key, v: V)
    requires maxEntries >= 1
    ensures Find(AfterSet(maxEntries, es, key, v), key) == Some(v)
  {
    var r := Remove(es, key);
    var all := r + [(key, v)];
    RemoveRemoves(es, key);
    TrimLength(maxEntries, all);
    var n := |all| - Min(|all|, Max(0, maxEntries));
    assert all[n..] == r[n..] + [(key, v)];
    FindLast(r[n..], key, v);
  }
}
