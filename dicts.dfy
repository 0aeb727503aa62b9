/** Python dictionaries with string keys, as the core uses them: insertion
    ordered, and assignment to an existing key keeps that key's position. */
module Dicts {

  type ODict<V> = seq<(string, V)>

  /** The keys in iteration order. */
  function Keys<V(==)>(d: ODict<V>): (r: seq<string>)
    ensures |r| == |d| && forall i :: 0 <= i < |d| ==> r[i] == d[i].0
  {
    if d == [] then [] else [d[0].0] + Keys(d[1..])
  }

  /** `k in d`. */
  predicate HasKey<V(==)>(d: ODict<V>, k: string) {
    exists i | 0 <= i < |d| :: d[i].0 == k
  }

  /** No key occurs twice, as in every Python dictionary. */
  predicate DistinctKeys<V(==)>(d: ODict<V>) {
    forall i, j :: 0 <= i < j < |d| ==> d[i].0 != d[j].0
  }

  /** `d[k]`; the missing key (a KeyError) is excluded by the precondition. */
  function Get<V(==)>(d: ODict<V>, k: string): (v: V)
    requires HasKey(d, k)
  {
    if d[0].0 == k then d[0].1
    else
      assert HasKey(d[1..], k) by {
        var i :| 0 <= i < |d| && d[i].0 == k;
        assert d[1..][i - 1] == d[i];
      }
      Get(d[1..], k)
  }

  /** `d[k] = v`: overwrites in place when `k` is present, appends otherwise. */
  function Put<V(==)>(d: ODict<V>, k: string, v: V): ODict<V> {
    if d == [] then [(k, v)]
    else if d[0].0 == k then [(k, v)] + d[1..]
    else [d[0]] + Put(d[1..], k, v)
  }

  /** Assignment keeps the key order and adds a new key at the end. */
  lemma {:induction false} PutKeys<V>(d: ODict<V>, k: string, v: V)
    ensures Keys(Put(d, k, v)) == if HasKey(d, k) then Keys(d) else Keys(d) + [k]
  {
    if d != [] && d[0].0 != k {
      var rest := Put(d[1..], k, v);
      PutKeys(d[1..], k, v);
      assert HasKey(d, k) <==> HasKey(d[1..], k) by {
        if HasKey(d, k) {
          var i :| 0 <= i < |d| && d[i].0 == k;
          assert d[1..][i - 1] == d[i];
        }
        if HasKey(d[1..], k) {
          var i :| 0 <= i < |d[1..]| && d[1..][i].0 == k;
          assert d[i + 1] == d[1..][i];
        }
      }
      assert Keys([d[0]] + rest) == [d[0].0] + Keys(rest) by {
        assert ([d[0]] + rest)[1..] == rest;
      }
    } else if d != [] {
      assert Keys([(k, v)] + d[1..]) == [k] + Keys(d[1..]) by {
        assert ([(k, v)] + d[1..])[1..] == d[1..];
      }
      assert Keys(d) == [d[0].0] + Keys(d[1..]);
    }
  }

  lemma HasKeyInKeys<V>(d: ODict<V>, k: string)
    ensures HasKey(d, k) <==> k in Keys(d)
  {
    var kd := Keys(d);
    if k in kd {
      var i :| 0 <= i < |kd| && kd[i] == k;
      assert d[i].0 == k;
    }
  }

  /** The key just assigned is present with the new value. */
  lemma {:induction false} PutGet<V>(d: ODict<V>, k: string, v: V)
    ensures HasKey(Put(d, k, v), k) && Get(Put(d, k, v), k) == v
  {
    var r := Put(d, k, v);
    PutKeys(d, k, v);
    HasKeyInKeys(d, k);
    HasKeyInKeys(r, k);
    assert k in Keys(r);
    if d != [] && d[0].0 != k {
      var t := Put(d[1..], k, v);
      PutGet(d[1..], k, v);
      assert r[1..] == t;
      assert Get(r, k) == Get(t, k);
    }
  }

  /** Every other key keeps its presence and its value. */
  lemma {:induction false} PutOther<V>(d: ODict<V>, k: string, v: V, k': string)
    requires k' != k
    ensures HasKey(Put(d, k, v), k') == HasKey(d, k')
    ensures HasKey(d, k') ==> Get(Put(d, k, v), k') == Get(d, k')
  {
    var r := Put(d, k, v);
    PutKeys(d, k, v);
    var kr := Keys(r);
    var kd := Keys(d);
    assert HasKey(r, k') <==> k' in kr by {
      if k' in kr { var i :| 0 <= i < |kr| && kr[i] == k'; assert r[i].0 == k'; }
    }
    assert HasKey(d, k') <==> k' in kd by {
      if k' in kd { var i :| 0 <= i < |kd| && kd[i] == k'; assert d[i].0 == k'; }
    }
    if d != [] && d[0].0 != k && d[0].0 != k' && HasKey(d, k') {
      assert HasKey(d[1..], k') by {
        var i :| 0 <= i < |d| && d[i].0 == k';
        assert d[1..][i - 1] == d[i];
      }
      PutOther(d[1..], k, v, k');
      assert r[1..] == Put(d[1..], k, v);
    } else if d != [] && d[0].0 == k && HasKey(d, k') {
      assert r[1..] == d[1..];
      assert HasKey(d[1..], k') by {
        var i :| 0 <= i < |d| && d[i].0 == k';
        assert d[1..][i - 1] == d[i];
      }
    }
  }

  /** Assignment keeps the keys distinct. */
  lemma PutDistinct<V>(d: ODict<V>, k: string, v: V)
    requires DistinctKeys(d)
    ensures DistinctKeys(Put(d, k, v))
  {
    var r := Put(d, k, v);
    PutKeys(d, k, v);
    var kr := Keys(r);
    var kd := Keys(d);
    if !HasKey(d, k) {
      forall i | 0 <= i < |d| ensures kr[i] != k { }
    }
    forall i, j | 0 <= i < j < |r| ensures r[i].0 != r[j].0 {
      assert kr[i] == r[i].0 && kr[j] == r[j].0;
      if j < |d| {
        assert kd[i] == d[i].0 && kd[j] == d[j].0;
      } else {
        assert kd[i] == d[i].0;
      }
    }
  }

  /** A property every value has holds for the value of any present key. */
  lemma {:induction false} GetHolds<V>(d: ODict<V>, k: string, P: V -> bool)
    requires HasKey(d, k) && forall i :: 0 <= i < |d| ==> P(d[i].1)
    ensures P(Get(d, k))
  {
    if d[0].0 != k {
      assert HasKey(d[1..], k) by {
        var i :| 0 <= i < |d| && d[i].0 == k;
        assert d[1..][i - 1] == d[i];
      }
      GetHolds(d[1..], k, P);
    }
  }

  /** Assigning a value with a property every value has keeps it so. */
  lemma {:induction false} PutHolds<V>(d: ODict<V>, k: string, v: V, P: V -> bool)
    requires P(v) && forall i :: 0 <= i < |d| ==> P(d[i].1)
    ensures forall i :: 0 <= i < |Put(d, k, v)| ==> P(Put(d, k, v)[i].1)
  {
    if d != [] && d[0].0 != k {
      PutHolds(d[1..], k, v, P);
      assert Put(d, k, v) == [d[0]] + Put(d[1..], k, v);
    }
  }

  /** Assignment adds an entry exactly when the key is new. */
  lemma PutLength<V>(d: ODict<V>, k: string, v: V)
    ensures |Put(d, k, v)| == if HasKey(d, k) then |d| else |d| + 1
  {
    PutKeys(d, k, v);
    assert |Keys(Put(d, k, v))| == |Put(d, k, v)|;
  }

  /** With distinct keys, the key at position `i` looks up the value there. */
  lemma {:induction false} GetAt<V>(d: ODict<V>, i: nat)
    requires DistinctKeys(d) && i < |d|
    ensures HasKey(d, d[i].0) && Get(d, d[i].0) == d[i].1
  {
    if i > 0 {
      var rest := d[1..];
      assert rest[i - 1] == d[i];
      assert DistinctKeys(rest) by {
        forall a, b | 0 <= a < b < |rest| ensures rest[a].0 != rest[b].0 {
          assert rest[a] == d[a + 1] && rest[b] == d[b + 1];
        }
      }
      GetAt(rest, i - 1);
    }
  }

  /** Assigning a new key appends it. */
  lemma {:induction false} PutNew<V>(d: ODict<V>, k: string, v: V)
    requires !HasKey(d, k)
    ensures Put(d, k, v) == d + [(k, v)]
  {
    if d != [] {
      assert d[0].0 != k;
      assert !HasKey(d[1..], k) by {
        forall i | 0 <= i < |d[1..]| ensures d[1..][i].0 != k {
          assert d[1..][i] == d[i + 1];
        }
      }
      PutNew(d[1..], k, v);
      assert [d[0]] + (d[1..] + [(k, v)]) == d + [(k, v)];
    }
  }

  /** Assigning a present key overwrites its entry where it stands. */
  lemma {:induction false} PutAt<V>(d: ODict<V>, k: string, v: V, j: nat)
    requires DistinctKeys(d) && j < |d| && d[j].0 == k
    ensures Put(d, k, v) == d[j := (k, v)]
  {
    if j > 0 {
      var rest := d[1..];
      assert d[0].0 != k;
      assert rest[j - 1] == d[j];
      assert DistinctKeys(rest) by {
        forall a, b | 0 <= a < b < |rest| ensures rest[a].0 != rest[b].0 {
          assert rest[a] == d[a + 1] && rest[b] == d[b + 1];
        }
      }
      PutAt(rest, k, v, j - 1);
      assert [d[0]] + rest[j - 1 := (k, v)] == d[j := (k, v)];
    }
  }
}
