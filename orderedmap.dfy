/**
 * PHP arrays with string keys, as the client uses them for header maps and the
 * default-header table: an ordered list of (key, value) entries. Assigning
 * `$a[$k] = $v` overwrites an existing key where it stands and appends a new
 * key at the end; `foreach` visits the entries in that order; `array_merge` of
 * string-keyed arrays assigns the entries of the second array one by one.
 */
module OrderedMap {
  import opened Wrappers
  import Seqs

  function Keys<K, V>(m: seq<(K, V)>): (ks: seq<K>)
    ensures |ks| == |m|
    ensures forall i :: 0 <= i < |m| ==> ks[i] == m[i].0
  {
    if |m| == 0 then [] else [m[0].0] + Keys(m[1..])
  }

  /** Every key occurs once, as in any PHP array. */
  ghost predicate Unique<K, V>(m: seq<(K, V)>)
  {
    forall i, j :: 0 <= i < j < |m| ==> m[i].0 != m[j].0
  }

  /** `$m[$k]` (NULL when `isset($m[$k])` fails): the value at the key's position. */
  function Get<K(==), V>(m: seq<(K, V)>, k: K): (r: Option<V>)
    ensures r.Some? <==> k in Keys(m)
    ensures r.Some? ==> m[IndexOf(m, k)] == (k, r.value)
  {
    if |m| == 0 then None
    else if m[0].0 == k then Some(m[0].1)
    else
      var r := Get(m[1..], k);
      GetShift(m, k, r);
      r
  }

  /** What `Get` promises of the tail, it promises of the whole when the first key differs. */
  lemma GetShift<K, V>(m: seq<(K, V)>, k: K, r: Option<V>)
    requires |m| > 0 && m[0].0 != k
    requires r.Some? <==> k in Keys(m[1..])
    requires r.Some? ==> m[1..][IndexOf(m[1..], k)] == (k, r.value)
    ensures r.Some? <==> k in Keys(m)
    ensures r.Some? ==> m[IndexOf(m, k)] == (k, r.value)
  {
    IndexOfTail(m, k);
  }

  /** Where the key `k` first stands. */
  function IndexOf<K(==), V>(m: seq<(K, V)>, k: K): (i: nat)
    requires k in Keys(m)
    ensures i < |m| && m[i].0 == k
    ensures forall j :: 0 <= j < i ==> m[j].0 != k
  {
    var ks := Keys(m);
    var i := Seqs.FirstIndex(ks, k);
    assert forall j :: 0 <= j < i ==> ks[..i][j] == ks[j];
    i
  }

  /** Past a first entry with another key, positions shift by one. */
  lemma IndexOfTail<K, V>(m: seq<(K, V)>, k: K)
    requires |m| > 0 && m[0].0 != k
    ensures k in Keys(m) <==> k in Keys(m[1..])
    ensures k in Keys(m) ==> IndexOf(m, k) == 1 + IndexOf(m[1..], k)
  {
    assert Keys(m) == [m[0].0] + Keys(m[1..]);
    if k in Keys(m) {
      var i := IndexOf(m[1..], k);
      assert m[1 + i].0 == k;
      forall j | 0 < j < 1 + i ensures m[j].0 != k {
        assert m[j] == m[1..][j - 1];
      }
    }
  }

  /**
   * `$m[$k] = $v`: an existing key keeps its position and takes the new value;
   * a new key is appended.
   */
  function Put<K(==), V>(m: seq<(K, V)>, k: K, v: V): (r: seq<(K, V)>)
    ensures k in Keys(m) ==> |r| == |m|
    ensures k in Keys(m) ==>
              forall i :: 0 <= i < |m| ==> r[i] == if i == IndexOf(m, k) then (k, v) else m[i]
    ensures k !in Keys(m) ==> r == m + [(k, v)]
  {
    if |m| == 0 then [(k, v)]
    else if m[0].0 == k then [(k, v)] + m[1..]
    else
      IndexOfTail(m, k);
      [m[0]] + Put(m[1..], k, v)
  }

  /** After `$m[$k] = $v`, `$m[$k]` is `$v` and every other key reads as before. */
  lemma {:induction false} GetPut<K, V>(m: seq<(K, V)>, k: K, v: V, k': K)
    ensures Get(Put(m, k, v), k') == if k' == k then Some(v) else Get(m, k')
  {
    if |m| > 0 && m[0].0 != k {
      GetPut(m[1..], k, v, k');
      assert Put(m, k, v)[1..] == Put(m[1..], k, v);
    }
  }

  /** The key order after `$m[$k] = $v`. */
  lemma KeysPut<K, V>(m: seq<(K, V)>, k: K, v: V)
    ensures Keys(Put(m, k, v)) == if k in Keys(m) then Keys(m) else Keys(m) + [k]
  {
  }

  lemma UniquePut<K, V>(m: seq<(K, V)>, k: K, v: V)
    requires Unique(m)
    ensures Unique(Put(m, k, v))
  {
    var r := Put(m, k, v);
    if k in Keys(m) {
      assert forall i :: 0 <= i < |m| ==> r[i].0 == m[i].0;
    } else {
      assert forall i :: 0 <= i < |m| ==> Keys(m)[i] != k;
      assert forall i :: 0 <= i < |m| ==> r[i] == m[i];
    }
  }

  /** Writing the same value twice is writing it once. */
  lemma {:induction false} PutPut<K, V>(m: seq<(K, V)>, k: K, v: V)
    ensures Put(Put(m, k, v), k, v) == Put(m, k, v)
    decreases |m|
  {
    var r := Put(m, k, v);
    if |m| == 0 {
      assert r == [(k, v)];
    } else if m[0].0 == k {
      assert r == [(k, v)] + m[1..] && r[1..] == m[1..];
    } else {
      PutPut(m[1..], k, v);
      assert r == [m[0]] + Put(m[1..], k, v);
      assert r[1..] == Put(m[1..], k, v);
    }
  }

  /** Assigning every entry of `n`, in order: `foreach ($n as $k => $v) $m[$k] = $v;`. */
  function PutAll<K(==), V>(m: seq<(K, V)>, n: seq<(K, V)>): seq<(K, V)>
    decreases |n|
  {
    if |n| == 0 then m else PutAll(Put(m, n[0].0, n[0].1), n[1..])
  }

  /** One more loop iteration is one more assignment. */
  lemma {:induction false} PutAllSnoc<K, V>(m: seq<(K, V)>, n: seq<(K, V)>, e: (K, V))
    ensures PutAll(m, n + [e]) == Put(PutAll(m, n), e.0, e.1)
    decreases |n|
  {
    if |n| == 0 {
      assert n + [e] == [e];
    } else {
      assert (n + [e])[1..] == n[1..] + [e];
      PutAllSnoc(Put(m, n[0].0, n[0].1), n[1..], e);
    }
  }

  /** The loop form of `PutAllSnoc`: assigning entries `0..i` is assigning `0..i-1`, then entry `i`. */
  lemma PutAllStep<K, V>(m: seq<(K, V)>, n: seq<(K, V)>, i: nat)
    requires i < |n|
    ensures PutAll(m, n[..i + 1]) == Put(PutAll(m, n[..i]), n[i].0, n[i].1)
  {
    assert n[..i + 1] == n[..i] + [n[i]];
    PutAllSnoc(m, n[..i], n[i]);
  }

  /** The keys of `ks` that `existing` lacks, in the order of `ks`. */
  function Missing<K(==)>(ks: seq<K>, existing: seq<K>): (r: seq<K>)
  {
    if |ks| == 0 then []
    else (if ks[0] in existing then [] else [ks[0]]) + Missing(ks[1..], existing)
  }

  /** `Missing` keeps exactly the keys of `ks` outside `existing`. */
  lemma {:induction false} MissingMembers<K>(ks: seq<K>, existing: seq<K>, x: K)
    ensures x in Missing(ks, existing) <==> x in ks && x !in existing
  {
    if |ks| > 0 {
      MissingMembers(ks[1..], existing, x);
      assert ks == [ks[0]] + ks[1..];
    }
  }

  /** The first key of a PHP array does not recur after it. */
  lemma UniqueHead<K, V>(n: seq<(K, V)>)
    requires Unique(n) && |n| > 0
    ensures n[0].0 !in Keys(n[1..])
    ensures Unique(n[1..])
  {
    forall j | 0 <= j < |n| - 1 ensures Keys(n[1..])[j] != n[0].0 {
      assert n[1..][j] == n[1 + j];
    }
  }

  /** After the loop the assigned keys read as in `n`, the others as in `m`. */
  lemma {:induction false} GetPutAll<K, V>(m: seq<(K, V)>, n: seq<(K, V)>, k: K)
    requires Unique(n)
    ensures Get(PutAll(m, n), k) == if k in Keys(n) then Get(n, k) else Get(m, k)
    decreases |n|
  {
    if |n| > 0 {
      UniqueHead(n);
      GetPutAll(Put(m, n[0].0, n[0].1), n[1..], k);
      GetPut(m, n[0].0, n[0].1, k);
      assert Keys(n) == [n[0].0] + Keys(n[1..]);
      if k != n[0].0 {
        IndexOfTail(n, k);
      }
    }
  }

  /** The keys of `m` keep their order; the new keys of `n` follow in the order of `n`. */
  lemma {:induction false} KeysPutAll<K, V>(m: seq<(K, V)>, n: seq<(K, V)>)
    requires Unique(n)
    ensures Keys(PutAll(m, n)) == Keys(m) + Missing(Keys(n), Keys(m))
    decreases |n|
  {
    if |n| > 0 {
      var e := n[0];
      var m' := Put(m, e.0, e.1);
      UniqueHead(n);
      KeysPutAll(m', n[1..]);
      KeysPutAllStep(m, n);
    }
  }

  /** One step of KeysPutAll: from the keys after the first assignment to the keys before it. */
  lemma KeysPutAllStep<K, V>(m: seq<(K, V)>, n: seq<(K, V)>)
    requires |n| > 0 && n[0].0 !in Keys(n[1..])
    requires var m' := Put(m, n[0].0, n[0].1);
      Keys(PutAll(m', n[1..])) == Keys(m') + Missing(Keys(n[1..]), Keys(m'))
    ensures Keys(PutAll(m, n)) == Keys(m) + Missing(Keys(n), Keys(m))
  {
    var x := n[0].0;
    var m' := Put(m, x, n[0].1);
    assert PutAll(m, n) == PutAll(m', n[1..]);
    KeysPut(m, x, n[0].1);
    assert Keys(n) == [x] + Keys(n[1..]);
    KeysStep(Keys(PutAll(m, n)), Keys(m), Keys(m'), x, Keys(n[1..]));
  }

  /** The sequence algebra of one step of KeysPutAll, with the maps out of the way. */
  lemma KeysStep<K>(whole: seq<K>, ks: seq<K>, ks': seq<K>, x: K, rest: seq<K>)
    requires x !in rest
    requires ks' == if x in ks then ks else ks + [x]
    requires whole == ks' + Missing(rest, ks')
    ensures whole == ks + Missing([x] + rest, ks)
  {
    MissingCons(x, rest, ks);
    var mRest := Missing(rest, ks);
    if x in ks {
      Rewrite(whole, ks, mRest, [], Missing([x] + rest, ks));
    } else {
      MissingExtended(rest, ks, x);
      Rewrite(whole, ks, mRest, [x], Missing([x] + rest, ks));
    }
  }

  lemma MissingCons<K>(x: K, ks: seq<K>, existing: seq<K>)
    ensures Missing([x] + ks, existing) == (if x in existing then [] else [x]) + Missing(ks, existing)
  {
    assert ([x] + ks)[1..] == ks;
  }

  /** Regrouping of concatenations, kept apart so that the step above stays small. */
  lemma Rewrite<T>(whole: seq<T>, a: seq<T>, c: seq<T>, x: seq<T>, d: seq<T>)
    requires whole == (a + x) + c && d == x + c
    ensures whole == a + d
  {
  }

  lemma {:induction false} MissingExtended<K>(ks: seq<K>, existing: seq<K>, x: K)
    requires x !in ks
    ensures Missing(ks, existing + [x]) == Missing(ks, existing)
  {
    if |ks| > 0 {
      MissingExtended(ks[1..], existing, x);
    }
  }

  lemma {:induction false} UniquePutAll<K, V>(m: seq<(K, V)>, n: seq<(K, V)>)
    requires Unique(m)
    ensures Unique(PutAll(m, n))
    decreases |n|
  {
    if |n| > 0 {
      UniquePut(m, n[0].0, n[0].1);
      UniquePutAll(Put(m, n[0].0, n[0].1), n[1..]);
    }
  }

  /** In a PHP array, the key at position `i` does not occur before it. */
  lemma UniqueFresh<K, V>(n: seq<(K, V)>, i: nat)
    requires Unique(n) && i < |n|
    ensures n[i].0 !in Keys(n[..i])
  {
    var ks := Keys(n[..i]);
    forall j | 0 <= j < i ensures ks[j] != n[i].0 {
      assert ks[j] == n[..i][j].0 == n[j].0;
    }
  }

  /** `array_merge(array(), $n)` is `$n` itself. */
  lemma {:induction false} PutAllIntoEmpty<K, V>(n: seq<(K, V)>)
    requires Unique(n)
    ensures PutAll([], n) == n
  {
    var i := 0;
    while i < |n|
      invariant 0 <= i <= |n|
      invariant PutAll([], n[..i]) == n[..i]
    {
      PutAllStep([], n, i);
      UniqueFresh(n, i);
      assert n[..i + 1] == n[..i] + [n[i]];
      i := i + 1;
    }
    assert n[..|n|] == n;
  }
}
