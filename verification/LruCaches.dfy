/**
 The least-recently-used cache that remembers earlier searches, and exactly how
 long a token stays in it.
 */
module LruCaches {
  import opened Wrappers
  import opened Queries

  /** Entries from the least to the most recently used. */
  type Entries = seq<(Token, Past)>

  function KeySet(es: Entries): set<Token> {
    set x | x in es :: x.0
  }

  ghost predicate DistinctKeys(es: Entries) {
    es == [] || (es[0].0 !in KeySet(es[1..]) && DistinctKeys(es[1..]))
  }

  function Lookup(es: Entries, k: Token): (r: Option<Past>)
    ensures r.Some? <==> k in KeySet(es)
    ensures r.Some? ==> (k, r.value) in es
  {
    if es == [] then None
    else
      assert forall x | x in es :: x == es[0] || x in es[1..];
      assert es[0] in es;
      if es[0].0 == k then Some(es[0].1) else Lookup(es[1..], k)
  }

  function Remove(es: Entries, k: Token): (r: Entries)
    ensures forall x :: x in r <==> x in es && x.0 != k
    ensures |r| <= |es|
  {
    if es == [] then []
    else
      var rest := Remove(es[1..], k);
      if es[0].0 == k then rest else [es[0]] + rest
  }

  /** A successful look-up makes the entry the most recently used one. */
  function Touch(es: Entries, k: Token): Entries {
    match Lookup(es, k)
    case None => es
    case Some(v) => Remove(es, k) + [(k, v)]
  }

  /** An insertion evicts the least recently used entry of a full cache. */
  function Put(es: Entries, k: Token, v: Past, capacity: nat): Entries {
    var added := Remove(es, k) + [(k, v)];
    if |added| > capacity then added[1..] else added
  }

  class LruCache {
    const capacity: nat
    var entries: Entries

    constructor (capacity: nat)
      ensures this.capacity == capacity && entries == []
    {
      this.capacity := capacity;
      entries := [];
    }

    method GetMut(k: Token) returns (r: Option<Past>)
      modifies this
      ensures r == Lookup(old(entries), k) && entries == Touch(old(entries), k)
    {
      r := Lookup(entries, k);
      if r.Some? {
        entries := Remove(entries, k) + [(k, r.value)];
      }
    }

    method Insert(k: Token, v: Past)
      modifies this
      ensures entries == Put(old(entries), k, v, capacity)
    {
      entries := Remove(entries, k) + [(k, v)];
      if |entries| > capacity {
        entries := entries[1..];
      }
    }
  }

  // ----- Uses of a cache -----

  datatype Op = Get(key: Token) | Insert(key: Token, value: Past)

  function Apply(es: Entries, op: Op, capacity: nat): Entries {
    match op
    case Get(k) => Touch(es, k)
    case Insert(k, v) => Put(es, k, v, capacity)
  }

  function ApplyAll(es: Entries, ops: seq<Op>, capacity: nat): Entries
    decreases |ops|
  {
    if ops == [] then es else ApplyAll(Apply(es, ops[0], capacity), ops[1..], capacity)
  }

  /** The keys that were inserted or successfully looked up. */
  function Touched(es: Entries, ops: seq<Op>, capacity: nat): set<Token>
    decreases |ops|
  {
    if ops == [] then {}
    else
      var now := if ops[0].Insert? || ops[0].key in KeySet(es) then {ops[0].key} else {};
      now + Touched(Apply(es, ops[0], capacity), ops[1..], capacity)
  }

  /** The cache with k at its place: the entries behind it are the more recent ones. */
  ghost predicate Splits(es: Entries, older: Entries, k: Token, v: Past, newer: Entries) {
    && es == older + [(k, v)] + newer
    && k !in KeySet(older) && k !in KeySet(newer)
    && DistinctKeys(newer)
  }

  lemma {:induction false} LookupSplit(older: Entries, k: Token, v: Past, newer: Entries)
    requires k !in KeySet(older)
    ensures Lookup(older + [(k, v)] + newer, k) == Some(v)
  {
    var es := older + [(k, v)] + newer;
    if older == [] {
    } else {
      assert es[1..] == older[1..] + [(k, v)] + newer;
      assert older[0] in older;
      assert forall x | x in older[1..] :: x in older;
      LookupSplit(older[1..], k, v, newer);
      assert es[0] == older[0];
    }
  }

  lemma {:induction false} RemoveAppend(a: Entries, b: Entries, k: Token)
    ensures Remove(a + b, k) == Remove(a, k) + Remove(b, k)
  {
    if a == [] {
      assert a + b == b;
    } else {
      assert (a + b)[1..] == a[1..] + b;
      RemoveAppend(a[1..], b, k);
    }
  }

  lemma KeySetCons(es: Entries)
    requires es != []
    ensures KeySet(es) == {es[0].0} + KeySet(es[1..])
  {
  }

  lemma KeySetConcat(a: Entries, b: Entries)
    ensures KeySet(a + b) == KeySet(a) + KeySet(b)
  {
  }

  lemma {:induction false} RemoveDistinct(es: Entries, k: Token)
    requires DistinctKeys(es)
    ensures DistinctKeys(Remove(es, k)) && KeySet(Remove(es, k)) == KeySet(es) - {k}
  {
    if es == [] {
    } else {
      RemoveDistinct(es[1..], k);
      KeySetCons(es);
      var rest := Remove(es[1..], k);
      if es[0].0 != k {
        assert Remove(es, k)[1..] == rest;
        KeySetCons(Remove(es, k));
      }
    }
  }

  lemma {:induction false} DistinctAppend(es: Entries, k: Token, v: Past)
    requires DistinctKeys(es) && k !in KeySet(es)
    ensures DistinctKeys(es + [(k, v)]) && KeySet(es + [(k, v)]) == KeySet(es) + {k}
  {
    KeySetConcat(es, [(k, v)]);
    if es == [] {
    } else {
      KeySetCons(es);
      DistinctAppend(es[1..], k, v);
      assert (es + [(k, v)])[1..] == es[1..] + [(k, v)];
    }
  }

  lemma {:induction false} DistinctSize(es: Entries)
    requires DistinctKeys(es)
    ensures |KeySet(es)| == |es|
  {
    if es == [] {
    } else {
      KeySetCons(es);
      DistinctSize(es[1..]);
    }
  }

  lemma {:induction false} RemoveShrinks(es: Entries, k: Token)
    requires k in KeySet(es)
    ensures |Remove(es, k)| < |es|
  {
    KeySetCons(es);
    if es[0].0 == k {
    } else {
      RemoveShrinks(es[1..], k);
    }
  }

  lemma MovedNewer(newer: Entries, j: Token, w: Past)
    requires DistinctKeys(newer)
    ensures var newer' := Remove(newer, j) + [(j, w)];
            DistinctKeys(newer') && KeySet(newer') == KeySet(newer) + {j}
  {
    RemoveDistinct(newer, j);
    DistinctAppend(Remove(newer, j), j, w);
  }

  lemma RemoveSplit(older: Entries, k: Token, v: Past, newer: Entries, j: Token)
    requires j != k
    ensures Remove(older + [(k, v)] + newer, j) == Remove(older, j) + [(k, v)] + Remove(newer, j)
  {
    RemoveAppend(older + [(k, v)], newer, j);
    RemoveAppend(older, [(k, v)], j);
    assert Remove([(k, v)], j) == [(k, v)];
  }

  lemma RemoveKeepsOut(es: Entries, j: Token, k: Token)
    requires k !in KeySet(es)
    ensures k !in KeySet(Remove(es, j))
  {
  }

  /** Moving another key to the end keeps the place of k and lengthens what is newer. */
  lemma {:induction false} MoveToEnd(es: Entries, older: Entries, k: Token, v: Past, newer: Entries, j: Token, w: Past)
    requires Splits(es, older, k, v, newer) && j != k
    ensures var newer' := Remove(newer, j) + [(j, w)];
            && Splits(Remove(es, j) + [(j, w)], Remove(older, j), k, v, newer')
            && KeySet(newer') == KeySet(newer) + {j}
  {
    MovedNewer(newer, j, w);
    RemoveSplit(older, k, v, newer, j);
    RemoveKeepsOut(older, j, k);
    var a, b, c := Remove(older, j), Remove(newer, j), [(j, w)];
    assert a + [(k, v)] + b + c == a + [(k, v)] + (b + c);
  }

  lemma {:induction false} AbsentStaysAbsent(es: Entries, k: Token, ops: seq<Op>, capacity: nat)
    requires k !in KeySet(es) && forall op | op in ops :: op.key != k
    ensures Lookup(ApplyAll(es, ops, capacity), k) == None
    decreases |ops|
  {
    if ops == [] {
    } else {
      assert ops[0] in ops && forall op | op in ops[1..] :: op in ops;
      AbsentStaysAbsent(Apply(es, ops[0], capacity), k, ops[1..], capacity);
    }
  }

  lemma SubsetSize(a: set<Token>, b: set<Token>)
    requires a <= b
    ensures |a| <= |b|
  {
    assert b == a + (b - a);
  }

  /** Exactly how long an entry stays: until as many distinct other keys as the
      capacity were inserted or looked up after it. */
  lemma {:induction false} Residency(
    es: Entries, older: Entries, k: Token, v: Past, newer: Entries, ops: seq<Op>, capacity: nat)
    requires Splits(es, older, k, v, newer) && |es| <= capacity
    requires forall op | op in ops :: op.key != k
    ensures Lookup(ApplyAll(es, ops, capacity), k)
         == if |KeySet(newer) + Touched(es, ops, capacity)| < capacity then Some(v) else None
    decreases |ops|, 2
  {
    if ops == [] {
      LookupSplit(older, k, v, newer);
      DistinctSize(newer);
      assert KeySet(newer) + {} == KeySet(newer);
    } else {
      assert ops[0] in ops && forall op | op in ops[1..] :: op in ops;
      ResidencyStep(es, older, k, v, newer, ops, capacity);
    }
  }

  function Trim(es: Entries, capacity: nat): Entries {
    if |es| > capacity then es[1..] else es
  }

  /** The step after the entries moved: one entry too many is evicted. */
  lemma ResidencyMoved(
    moved: Entries, older: Entries, k: Token, v: Past, newer: Entries, rest: seq<Op>, capacity: nat)
    requires Splits(moved, older, k, v, newer) && |moved| <= capacity + 1
    requires forall op | op in rest :: op.key != k
    ensures Lookup(ApplyAll(Trim(moved, capacity), rest, capacity), k)
         == if |KeySet(newer) + Touched(Trim(moved, capacity), rest, capacity)| < capacity then Some(v) else None
    decreases |rest|, 3
  {
    if |moved| <= capacity {
      Residency(moved, older, k, v, newer, rest, capacity);
    } else if older != [] {
      assert forall x | x in older[1..] :: x in older;
      assert moved[1..] == older[1..] + [(k, v)] + newer;
      Residency(moved[1..], older[1..], k, v, newer, rest, capacity);
    } else {
      assert moved[1..] == newer;
      AbsentStaysAbsent(newer, k, rest, capacity);
      DistinctSize(newer);
      SubsetSize(KeySet(newer), KeySet(newer) + Touched(newer, rest, capacity));
    }
  }

  lemma UnionAssociates(a: set<Token>, b: set<Token>, c: set<Token>)
    ensures a + b + c == a + (b + c)
  {
  }

  lemma {:induction false} ResidencyStep(
    es: Entries, older: Entries, k: Token, v: Past, newer: Entries, ops: seq<Op>, capacity: nat)
    requires Splits(es, older, k, v, newer) && |es| <= capacity && ops != []
    requires ops[0].key != k && forall op | op in ops[1..] :: op.key != k
    ensures Lookup(ApplyAll(es, ops, capacity), k)
         == if |KeySet(newer) + Touched(es, ops, capacity)| < capacity then Some(v) else None
    decreases |ops|, 1
  {
    var op, rest := ops[0], ops[1..];
    var later := Touched(Apply(es, op, capacity), rest, capacity);
    if op.Get? && op.key !in KeySet(es) {
      Residency(es, older, k, v, newer, rest, capacity);
      assert {} + later == later;
    } else {
      var w := if op.Get? then Lookup(es, op.key).value else op.value;
      MoveToEnd(es, older, k, v, newer, op.key, w);
      UnionAssociates(KeySet(newer), {op.key}, later);
      if op.Get? {
        RemoveShrinks(es, op.key);
      }
      ResidencyMoved(Remove(es, op.key) + [(op.key, w)], Remove(older, op.key), k, v,
                     Remove(newer, op.key) + [(op.key, w)], rest, capacity);
    }
  }

  /** A token that was just used stays resolvable, with the same search, exactly as
      long as fewer distinct other tokens than the capacity were used. */
  lemma TokenResolvable(es: Entries, k: Token, v: Past, ops: seq<Op>, capacity: nat)
    requires es != [] && es[|es| - 1] == (k, v) && k !in KeySet(es[..|es| - 1]) && |es| <= capacity
    requires forall op | op in ops :: op.key != k
    ensures Lookup(ApplyAll(es, ops, capacity), k)
         == if |Touched(es, ops, capacity)| < capacity then Some(v) else None
  {
    var older := es[..|es| - 1];
    assert es == older + [(k, v)] + [];
    Residency(es, older, k, v, [], ops, capacity);
    assert KeySet([]) + Touched(es, ops, capacity) == Touched(es, ops, capacity);
  }

  // ----- Insertions alone do not decide -----

  function Gets(keys: seq<Token>): seq<Op> {
    seq(|keys|, i requires 0 <= i < |keys| => Get(keys[i]))
  }

  lemma TouchKeeps(es: Entries, k: Token)
    ensures KeySet(Touch(es, k)) == KeySet(es)
  {
  }

  lemma SetCons(keys: seq<Token>)
    requires keys != []
    ensures (set k | k in keys) == {keys[0]} + (set k | k in keys[1..])
  {
  }

  lemma GetsCons(keys: seq<Token>, b: Token, w: Past)
    requires keys != []
    ensures var ops := Gets(keys) + [Insert(b, w)];
            ops[0] == Get(keys[0]) && ops[1..] == Gets(keys[1..]) + [Insert(b, w)]
  {
  }

  lemma {:induction false} TouchedByGets(es: Entries, keys: seq<Token>, b: Token, w: Past, capacity: nat)
    requires forall k | k in keys :: k in KeySet(es)
    ensures Touched(es, Gets(keys) + [Insert(b, w)], capacity) == (set k | k in keys) + {b}
    decreases |keys|
  {
    var ops := Gets(keys) + [Insert(b, w)];
    if keys == [] {
      assert ops[1..] == [];
    } else {
      var es' := Apply(es, ops[0], capacity);
      GetsCons(keys, b, w);
      assert keys[0] in keys && forall k | k in keys[1..] :: k in keys;
      TouchKeeps(es, keys[0]);
      TouchedByGets(es', keys[1..], b, w, capacity);
      SetCons(keys);
      UnionAssociates({keys[0]}, set k | k in keys[1..], {b});
    }
  }

  function KeysOf(es: Entries): seq<Token> {
    seq(|es|, i requires 0 <= i < |es| => es[i].0)
  }

  lemma KeysOfSet(es: Entries)
    ensures (set x | x in KeysOf(es)) == KeySet(es)
  {
    var keys := KeysOf(es);
    assert forall i | 0 <= i < |es| :: keys[i] == es[i].0 && keys[i] in keys && es[i] in es;
  }

  lemma GetsKeys(keys: seq<Token>, b: Token, w: Past)
    ensures forall op | op in Gets(keys) + [Insert(b, w)] :: op.key in keys || op.key == b
  {
  }

  /** One insertion evicts a token of a full cache if every other one was looked up
      since it was used: counting insertions only is not enough. */
  lemma OneInsertionEvicts(older: Entries, k: Token, v: Past, b: Token, w: Past, capacity: nat)
    requires DistinctKeys(older) && |older| + 1 == capacity
    requires k !in KeySet(older) && b !in KeySet(older) && b != k
    ensures var ops := Gets(KeysOf(older)) + [Insert(b, w)];
            Lookup(ApplyAll(older + [(k, v)], ops, capacity), k) == None
  {
    var es, keys := older + [(k, v)], KeysOf(older);
    var ops := Gets(keys) + [Insert(b, w)];
    KeysOfSet(older);
    KeySetConcat(older, [(k, v)]);
    assert forall x | x in keys :: x in (set y | y in keys);
    TouchedByGets(es, keys, b, w, capacity);
    assert |Touched(es, ops, capacity)| == capacity by { DistinctSize(older); }
    GetsKeys(keys, b, w);
    assert es[..|es| - 1] == older;
    TokenResolvable(es, k, v, ops, capacity);
  }
}
