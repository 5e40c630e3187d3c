/**
 * An insertion-ordered map as a sequence of (key, value) entries: the compound
 * representation (`IndexMap` in the text parser and the index operations,
 * `LinkedHashMap` in the binary decoder). Iteration order is sequence order.
 */
module OrderedMap {
  import opened Results

  function Keys<V>(m: seq<(string, V)>): (ks: seq<string>)
    ensures |ks| == |m|
    ensures forall i :: 0 <= i < |m| ==> ks[i] == m[i].0
  {
    if m == [] then [] else [m[0].0] + Keys(m[1..])
  }

  predicate HasKey<V>(m: seq<(string, V)>, k: string) {
    k in Keys(m)
  }

  /** No key occurs twice: what every map the source builds satisfies. */
  predicate UniqueKeys<V>(m: seq<(string, V)>) {
    m == [] || (!HasKey(m[1..], m[0].0) && UniqueKeys(m[1..]))
  }

  /** `Map::get`: the value of the first entry with key `k`, if any. */
  function Find<V>(m: seq<(string, V)>, k: string): (r: Option<V>)
    ensures r.Some? <==> HasKey(m, k)
  {
    if m == [] then None
    else if m[0].0 == k then Some(m[0].1)
    else Find(m[1..], k)
  }

  /** How each query unfolds over a leading entry. */
  lemma Cons<V>(e: (string, V), t: seq<(string, V)>)
    ensures ([e] + t)[0] == e && ([e] + t)[1..] == t
    ensures Keys([e] + t) == [e.0] + Keys(t)
    ensures forall k :: HasKey([e] + t, k) <==> k == e.0 || HasKey(t, k)
    ensures forall k :: Find([e] + t, k) == if k == e.0 then Some(e.1) else Find(t, k)
    ensures UniqueKeys([e] + t) <==> !HasKey(t, e.0) && UniqueKeys(t)
  {
  }

  /** With unique keys, every entry is what `Find` returns for its key. */
  lemma {:induction false} FindEntry<V>(m: seq<(string, V)>, i: nat)
    requires UniqueKeys(m) && i < |m|
    ensures Find(m, m[i].0) == Some(m[i].1)
  {
    if i > 0 {
      assert m[i] == m[1..][i - 1];
      assert Keys(m[1..])[i - 1] == m[i].0;
      FindEntry(m[1..], i - 1);
    }
  }

  /**
   * `IndexMap::insert`, and `entry(k).or_insert(..)` followed by an assignment: an existing
   * key keeps its position and takes the new value; a new key is appended.
   */
  function Put<V>(m: seq<(string, V)>, k: string, v: V): (r: seq<(string, V)>)
    ensures |m| <= |r| <= |m| + 1
  {
    if m == [] then [(k, v)]
    else if m[0].0 == k then [(k, v)] + m[1..]
    else [m[0]] + Put(m[1..], k, v)
  }

  /** After `Put`, `k` maps to `v`. */
  lemma {:induction false} PutFind<V>(m: seq<(string, V)>, k: string, v: V)
    ensures Find(Put(m, k, v), k) == Some(v)
  {
    if m != [] && m[0].0 != k {
      PutFind(m[1..], k, v);
      assert Put(m, k, v) == [m[0]] + Put(m[1..], k, v);
    }
  }

  /** `Put` leaves every other key's value alone. */
  lemma {:induction false} PutFindOther<V>(m: seq<(string, V)>, k: string, v: V, k': string)
    requires k' != k
    ensures Find(Put(m, k, v), k') == Find(m, k')
  {
    if m != [] && m[0].0 != k {
      PutFindOther(m[1..], k, v, k');
      assert Put(m, k, v) == [m[0]] + Put(m[1..], k, v);
    } else if m != [] {
      assert Put(m, k, v) == [(k, v)] + m[1..];
    }
  }

  /** Replacing the value of a present key keeps the keys and their order. */
  lemma {:induction false} PutKeys<V>(m: seq<(string, V)>, k: string, v: V)
    requires HasKey(m, k)
    ensures Keys(Put(m, k, v)) == Keys(m)
  {
    if m[0].0 != k {
      assert Keys(m) == [m[0].0] + Keys(m[1..]);
      PutKeys(m[1..], k, v);
      assert Keys(Put(m, k, v)) == [m[0].0] + Keys(Put(m[1..], k, v));
    } else {
      assert Keys(Put(m, k, v)) == [k] + Keys(m[1..]);
      assert Keys(m) == [k] + Keys(m[1..]);
    }
  }

  /** Putting an absent key appends it. */
  lemma {:induction false} PutAbsent<V>(m: seq<(string, V)>, k: string, v: V)
    requires !HasKey(m, k)
    ensures Put(m, k, v) == m + [(k, v)]
  {
    if m != [] {
      assert Keys(m) == [m[0].0] + Keys(m[1..]);
      PutAbsent(m[1..], k, v);
      assert [m[0]] + (m[1..] + [(k, v)]) == m + [(k, v)];
    }
  }

  /** `Put` keeps keys unique. */
  lemma PutUnique<V>(m: seq<(string, V)>, k: string, v: V)
    requires UniqueKeys(m)
    ensures UniqueKeys(Put(m, k, v))
  {
    if HasKey(m, k) {
      PutKeysUnique(m, k, v);
    } else {
      PutAbsent(m, k, v);
      AppendNew(m, k, v);
    }
  }

  /** Replacing a present key's value keeps keys unique. */
  lemma {:induction false} PutKeysUnique<V>(m: seq<(string, V)>, k: string, v: V)
    requires UniqueKeys(m) && HasKey(m, k)
    ensures UniqueKeys(Put(m, k, v))
  {
    if m[0].0 != k {
      assert Keys(m) == [m[0].0] + Keys(m[1..]);
      PutKeysUnique(m[1..], k, v);
      PutKeys(m[1..], k, v);
      var t := Put(m[1..], k, v);
      assert Put(m, k, v) == [m[0]] + t;
      Cons(m[0], t);
      assert !HasKey(t, m[0].0) by {
        assert Keys(t) == Keys(m[1..]);
      }
    } else {
      Cons((k, v), m[1..]);
      Cons(m[0], m[1..]);
    }
  }

  /** What `Put` does: `k` maps to `v`, every other key is unchanged, the order is kept. */
  lemma PutSpec<V>(m: seq<(string, V)>, k: string, v: V)
    ensures Find(Put(m, k, v), k) == Some(v)
    ensures forall k' :: k' != k ==> Find(Put(m, k, v), k') == Find(m, k')
    ensures HasKey(m, k) ==> Keys(Put(m, k, v)) == Keys(m)
    ensures !HasKey(m, k) ==> Put(m, k, v) == m + [(k, v)]
    ensures UniqueKeys(m) ==> UniqueKeys(Put(m, k, v))
  {
    PutFind(m, k, v);
    forall k' | k' != k
      ensures Find(Put(m, k, v), k') == Find(m, k')
    {
      PutFindOther(m, k, v, k');
    }
    if HasKey(m, k) {
      PutKeys(m, k, v);
    } else {
      PutAbsent(m, k, v);
    }
    if UniqueKeys(m) {
      PutUnique(m, k, v);
    }
  }

  /** `entry(k).or_insert(d)`: unchanged when `k` is present, otherwise `(k, d)` appended. */
  function OrInsert<V>(m: seq<(string, V)>, k: string, d: V): (r: seq<(string, V)>)
    ensures HasKey(m, k) ==> r == m
    ensures !HasKey(m, k) ==> r == m + [(k, d)] && Find(r, k) == Some(d)
    ensures HasKey(r, k)
  {
    if HasKey(m, k) then m else (PutAbsent(m, k, d); PutFind(m, k, d); Put(m, k, d))
  }

  /** All entries but those with key `k`, in order. */
  function Remove<V>(m: seq<(string, V)>, k: string): (r: seq<(string, V)>)
    ensures !HasKey(r, k)
    ensures forall k' :: k' != k ==> Find(r, k') == Find(m, k')
    ensures forall k' :: HasKey(r, k') ==> HasKey(m, k')
    ensures UniqueKeys(m) ==> UniqueKeys(r)
    ensures !HasKey(m, k) ==> r == m
  {
    if m == [] then []
    else if m[0].0 == k then (Cons(m[0], m[1..]); Remove(m[1..], k))
    else
      var t := Remove(m[1..], k);
      Cons(m[0], t);
      Cons(m[0], m[1..]);
      [m[0]] + t
  }

  /**
   * `LinkedHashMap::insert`: the value is replaced and the entry moves to the back
   * (a new key is simply appended).
   */
  function PutBack<V>(m: seq<(string, V)>, k: string, v: V): (r: seq<(string, V)>)
    ensures Find(r, k) == Some(v)
    ensures forall k' :: k' != k ==> Find(r, k') == Find(m, k')
    ensures UniqueKeys(m) ==> UniqueKeys(r)
    ensures |r| > 0 && r[|r| - 1] == (k, v)
    ensures !HasKey(m, k) ==> r == m + [(k, v)]
  {
    var rest := Remove(m, k);
    AppendNew(rest, k, v);
    rest + [(k, v)]
  }

  /** Appending an absent key: it is found, the rest are unchanged, keys stay unique. */
  lemma {:induction false} AppendNew<V>(m: seq<(string, V)>, k: string, v: V)
    requires !HasKey(m, k)
    ensures Find(m + [(k, v)], k) == Some(v)
    ensures forall k' :: k' != k ==> Find(m + [(k, v)], k') == Find(m, k')
    ensures UniqueKeys(m) ==> UniqueKeys(m + [(k, v)])
    ensures Keys(m + [(k, v)]) == Keys(m) + [k]
  {
    if m != [] {
      assert (m + [(k, v)])[1..] == m[1..] + [(k, v)];
      AppendNew(m[1..], k, v);
    }
  }

  /** Putting a key that was just appended replaces the appended value in place. */
  lemma {:induction false} PutLast<V>(m: seq<(string, V)>, k: string, d: V, v: V)
    requires !HasKey(m, k)
    ensures Put(m + [(k, d)], k, v) == m + [(k, v)]
  {
    if m == [] {
      assert m + [(k, d)] == [(k, d)] && m + [(k, v)] == [(k, v)];
    } else {
      var t := m[1..];
      var m' := m + [(k, d)];
      assert Keys(m) == [m[0].0] + Keys(t);
      assert m'[0] == m[0] && m'[1..] == t + [(k, d)];
      PutLast(t, k, d, v);
      assert m + [(k, v)] == [m[0]] + (t + [(k, v)]);
    }
  }

  /** With unique keys, the key of entry `i` does not occur before it. */
  lemma {:induction false} UniqueBefore<V>(m: seq<(string, V)>, i: nat)
    requires UniqueKeys(m) && i < |m|
    ensures !HasKey(m[..i], m[i].0)
  {
    if i > 0 {
      assert m[..i] == [m[0]] + m[1..][..i - 1];
      assert m[i] == m[1..][i - 1];
      assert Keys(m[1..])[i - 1] == m[i].0;
      UniqueBefore(m[1..], i - 1);
      Cons(m[0], m[1..][..i - 1]);
    }
  }

  /** A property of every entry survives `Put` of an entry that has it. */
  lemma {:induction false} PutPreserves<V>(m: seq<(string, V)>, k: string, v: V, P: ((string, V)) -> bool)
    requires forall i :: 0 <= i < |m| ==> P(m[i])
    requires P((k, v))
    ensures forall i :: 0 <= i < |Put(m, k, v)| ==> P(Put(m, k, v)[i])
  {
    if m != [] && m[0].0 != k {
      PutPreserves(m[1..], k, v, P);
      var t := Put(m[1..], k, v);
      assert Put(m, k, v) == [m[0]] + t;
      assert forall i :: 1 <= i < |Put(m, k, v)| ==> Put(m, k, v)[i] == t[i - 1];
    } else if m != [] {
      assert Put(m, k, v) == [(k, v)] + m[1..];
    }
  }
}
