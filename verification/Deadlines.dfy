/** A least member of a finite set. */
module Sets {

  /** The least member of a finite set of integers. */
  lemma {:induction false} Least(s: set<nat>) returns (q: nat)
    requires s != {}
    ensures q in s && forall p :: p in s ==> q <= p
  {
    var x :| x in s;
    var rest := s - {x};
    assert s == rest + {x};
    q := x;
    if rest != {} {
      var r := Least(rest);
      q := if x <= r then x else r;
    }
  }
}

/** Deadline buckets: a map from an instant to the keys due at it, as sessions and DNS
    transactions keep them. */
module Deadlines {
  import opened Core
  import opened Sets

  type Buckets<K> = map<Instant, set<K>>

  /** One removal and the clock reading it makes. */
  datatype Ending<K> = Ending(key: K, clock: Instant)

  ghost function EndedKeys<K>(endings: seq<Ending<K>>): set<K> {
    set i | 0 <= i < |endings| :: endings[i].key
  }

  /** The removals name each of the keys once, in some order. */
  ghost predicate Enumerates<K(!new)>(endings: seq<Ending<K>>, keys: set<K>) {
    && (forall i, j :: 0 <= i < j < |endings| ==> endings[i].key != endings[j].key)
    && (forall k :: k in keys <==> exists i :: 0 <= i < |endings| && endings[i].key == k)
  }

  lemma EnumeratesMore<K(!new)>(endings: seq<Ending<K>>, keys: set<K>, x: Ending<K>)
    requires Enumerates(endings, keys) && x.key !in keys
    ensures Enumerates(endings + [x], keys + {x.key})
  {
    var longer := endings + [x];
    forall k | k in keys + {x.key} ensures exists i :: 0 <= i < |longer| && longer[i].key == k {
      if k in keys {
        var i :| 0 <= i < |endings| && endings[i].key == k;
        assert longer[i].key == k;
      } else {
        assert longer[|endings|].key == k;
      }
    }
  }

  lemma EnumeratedEnded<K(!new)>(endings: seq<Ending<K>>, keys: set<K>)
    requires Enumerates(endings, keys)
    ensures EndedKeys(endings) == keys
    ensures forall i :: 0 <= i < |endings| ==> endings[i].key in keys
  {
  }

  lemma EndedLast<K>(endings: seq<Ending<K>>)
    requires |endings| > 0
    ensures EndedKeys(endings) == EndedKeys(endings[..|endings| - 1]) + {endings[|endings| - 1].key}
  {
    var front := endings[..|endings| - 1];
    forall x | x in EndedKeys(front) ensures x in EndedKeys(endings) {
      var i :| 0 <= i < |front| && front[i].key == x;
      assert endings[i].key == x;
    }
    forall x | x in EndedKeys(endings) ensures x in EndedKeys(front) + {endings[|endings| - 1].key} {
      var i :| 0 <= i < |endings| && endings[i].key == x;
      if i < |front| { assert front[i].key == x; }
    }
  }

  lemma EndedNone<K>(endings: seq<Ending<K>>)
    requires |endings| == 0
    ensures EndedKeys(endings) == {}
  {
  }

  lemma EndedNot<K>(endings: seq<Ending<K>>, key: K)
    requires forall i :: 0 <= i < |endings| ==> endings[i].key != key
    ensures key !in EndedKeys(endings)
  {
  }

  /** The buckets hold exactly the keys of `due`, each at its instant, and no bucket is empty. */
  ghost predicate Index<K(!new)>(b: Buckets<K>, due: map<K, Instant>) {
    && (forall t :: t in b ==> b[t] != {})
    && (forall t, k :: t in b && k in b[t] ==> k in due && due[k] == t)
    && (forall k :: k in due ==> due[k] in b && k in b[due[k]])
  }

  /** `deadlines.entry(t).or_default().insert(k)`. */
  function Insert<K>(b: Buckets<K>, t: Instant, k: K): (r: Buckets<K>) {
    b[t := (if t in b then b[t] else {}) + {k}]
  }

  /** `remove_deadline`: drop the key and its bucket if that leaves it empty. */
  function Delete<K>(b: Buckets<K>, t: Instant, k: K): (r: Buckets<K>) {
    if t !in b then b
    else if b[t] - {k} == {} then b - {t}
    else b[t := b[t] - {k}]
  }

  /** The buckets left after popping everything due. */
  function Later<K>(b: Buckets<K>, now: Instant): (r: Buckets<K>) {
    map t | t in b && t > now :: b[t]
  }

  lemma {:induction false} InsertIndexes<K(!new)>(b: Buckets<K>, due: map<K, Instant>, t: Instant, k: K)
    requires Index(b, due) && k !in due
    ensures Index(Insert(b, t, k), due[k := t])
  {
  }

  lemma {:induction false} DeleteIndexes<K(!new)>(b: Buckets<K>, due: map<K, Instant>, t: Instant, k: K)
    requires Index(b, due) && k in due && due[k] == t
    ensures Index(Delete(b, t, k), due - {k})
  {
    var r := Delete(b, t, k);
    forall j | j in due && j != k ensures due[j] in r && j in r[due[j]] {
      if due[j] == t { assert j in b[t] - {k}; }
    }
  }

  /** Removing a key that is not due any more changes nothing. */
  lemma {:induction false} DeleteAbsent<K(!new)>(b: Buckets<K>, due: map<K, Instant>, t: Instant, k: K)
    requires Index(b, due) && k !in due
    ensures Delete(b, t, k) == b
  {
    if t in b {
      assert b[t] - {k} == b[t];
    }
  }

  /** Popping every bucket up to `now` leaves the index of what is still to come. */
  lemma {:induction false} LaterIndexes<K(!new)>(b: Buckets<K>, due: map<K, Instant>, now: Instant)
    requires Index(b, due)
    ensures Index(Later(b, now), map k | k in due && due[k] > now :: due[k])
  {
  }

  /** The loop that pops the earliest bucket while it is due: it collects exactly the keys due
      by `now`. */
  method DrainDue<K(!new, ==)>(b: Buckets<K>, ghost due: map<K, Instant>, now: Instant)
          returns (expired: set<K>, rest: Buckets<K>)
    requires Index(b, due)
    ensures rest == Later(b, now)
    ensures forall k :: k in expired <==> k in due && due[k] <= now
  {
    expired, rest := {}, b;
    while rest.Keys != {}
      invariant rest.Keys <= b.Keys
      invariant forall t :: t in rest ==> rest[t] == b[t]
      invariant forall t :: t in b && t !in rest ==> t <= now
      invariant forall k :: k in expired <==> k in due && due[k] !in rest
      decreases rest.Keys
    {
      ghost var earliest := Least(rest.Keys);
      var t :| t in rest.Keys && forall u :: u in rest.Keys ==> t <= u;
      if t > now { break; }
      assert forall k :: k in rest[t] <==> k in due && due[k] == t;
      expired := expired + rest[t];
      rest := rest - {t};
    }
  }
}
