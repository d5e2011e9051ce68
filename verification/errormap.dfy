/** The pages keep validation errors in a plain JavaScript object keyed by
    field name. Such an object remembers the order in which keys were first
    added, assigning to an existing key keeps its position, and assigning
    `undefined` keeps the key with no message. `Errors` models exactly that:
    an ordered list of entries with distinct keys. */
module ErrorMap {
  import opened Wrappers

  /** One own property: a key and its message, `None` for `undefined`. */
  datatype Entry<K, M> = Entry(key: K, message: Option<M>)

  predicate KeysDistinct<K(==), M>(e: seq<Entry<K, M>>) {
    forall i, j :: 0 <= i < j < |e| ==> e[i].key != e[j].key
  }

  /** The value stored under `k`: `None` when the key is absent, `Some(None)`
      when it holds `undefined`. */
  function Lookup<K(==), M>(e: seq<Entry<K, M>>, k: K): Option<Option<M>> {
    if |e| == 0 then None
    else if e[0].key == k then Some(e[0].message)
    else Lookup(e[1..], k)
  }

  /** The message shown for `k`, if the key holds one. */
  function Message<K(==), M>(e: seq<Entry<K, M>>, k: K): Option<M> {
    match Lookup(e, k)
    case Some(Some(m)) => Some(m)
    case _ => None
  }

  predicate HasError<K(==), M>(e: seq<Entry<K, M>>, k: K) {
    Message(e, k).Some?
  }

  predicate HasKey<K(==), M>(e: seq<Entry<K, M>>, k: K) {
    exists i :: 0 <= i < |e| && e[i].key == k
  }

  lemma {:induction false} LookupPresent<K, M>(e: seq<Entry<K, M>>, k: K)
    ensures Lookup(e, k).Some? <==> HasKey(e, k)
    decreases |e|
  {
    if |e| > 0 && e[0].key != k {
      LookupPresent(e[1..], k);
      if HasKey(e[1..], k) {
        var i :| 0 <= i < |e[1..]| && e[1..][i].key == k;
        assert e[i + 1].key == k;
      }
      if HasKey(e, k) {
        var i :| 0 <= i < |e| && e[i].key == k;
        assert e[1..][i - 1].key == k;
      }
    } else if |e| > 0 {
      assert e[0].key == k;
    }
  }

  lemma HasKeyCons<K, M>(x: Entry<K, M>, s: seq<Entry<K, M>>, j: K)
    ensures HasKey([x] + s, j) <==> j == x.key || HasKey(s, j)
  {
    if HasKey([x] + s, j) && j != x.key {
      var i :| 0 <= i < |[x] + s| && ([x] + s)[i].key == j;
      assert s[i - 1].key == j;
    }
    if HasKey(s, j) {
      var i :| 0 <= i < |s| && s[i].key == j;
      assert ([x] + s)[i + 1].key == j;
    }
    if j == x.key {
      assert ([x] + s)[0].key == j;
    }
  }

  lemma KeysDistinctCons<K, M>(x: Entry<K, M>, s: seq<Entry<K, M>>)
    ensures KeysDistinct([x] + s) <==> KeysDistinct(s) && !HasKey(s, x.key)
  {
    var c := [x] + s;
    if KeysDistinct(c) {
      forall i, j | 0 <= i < j < |s| ensures s[i].key != s[j].key {
        assert c[i + 1] == s[i] && c[j + 1] == s[j];
      }
      forall i | 0 <= i < |s| ensures s[i].key != x.key {
        assert c[i + 1] == s[i] && c[0] == x;
      }
    }
    if KeysDistinct(s) && !HasKey(s, x.key) {
      forall i, j | 0 <= i < j < |c| ensures c[i].key != c[j].key {
        if i == 0 {
          assert c[j] == s[j - 1];
        } else {
          assert c[i] == s[i - 1] && c[j] == s[j - 1];
        }
      }
    }
  }

  /** `obj[k] = v`: overwrite the entry for `k` where it stands, or append a
      new entry at the end. */
  function Put<K(==,!new), M>(e: seq<Entry<K, M>>, k: K, v: Option<M>): (r: seq<Entry<K, M>>)
    ensures Lookup(r, k) == Some(v)
    ensures forall j :: j != k ==> Lookup(r, j) == Lookup(e, j)
    ensures |r| == |e| || r == e + [Entry(k, v)]
    ensures forall j :: HasKey(r, j) <==> HasKey(e, j) || j == k
    ensures KeysDistinct(e) ==> KeysDistinct(r)
    ensures HasKey(e, k) && KeysDistinct(e) ==>
      |r| == |e| && forall i :: 0 <= i < |e| ==> r[i] == (if e[i].key == k then Entry(k, v) else e[i])
    ensures !HasKey(e, k) ==> r == e + [Entry(k, v)]
  {
    if |e| == 0 then
      assert HasKey([Entry(k, v)], k) by { assert [Entry(k, v)][0].key == k; }
      [Entry(k, v)]
    else if e[0].key == k then
      var r := [Entry(k, v)] + e[1..];
      assert e == [e[0]] + e[1..];
      assert forall j :: HasKey(r, j) <==> HasKey(e, j) by {
        forall j ensures HasKey(r, j) <==> HasKey(e, j) { HasKeyCons(Entry(k, v), e[1..], j); HasKeyCons(e[0], e[1..], j); }
      }
      KeysDistinctCons(Entry(k, v), e[1..]);
      KeysDistinctCons(e[0], e[1..]);
      assert KeysDistinct(e) ==> forall i :: 1 <= i < |e| ==> e[i].key != e[0].key;
      r
    else
      var rest := Put(e[1..], k, v);
      var r := [e[0]] + rest;
      assert e == [e[0]] + e[1..];
      assert forall j :: HasKey(r, j) <==> HasKey(e, j) || j == k by {
        forall j ensures HasKey(r, j) <==> HasKey(e, j) || j == k { HasKeyCons(e[0], rest, j); HasKeyCons(e[0], e[1..], j); }
      }
      KeysDistinctCons(e[0], rest);
      KeysDistinctCons(e[0], e[1..]);
      assert |rest| != |e[1..]| ==> r == e + [Entry(k, v)];
      PutConsInPlace(e, k, v, rest);
      r
  }

  /** The step of `Put` past a head entry with another key: the head stays
      first, and the tail's in-place overwrite or append carries over. */
  lemma PutConsInPlace<K, M>(e: seq<Entry<K, M>>, k: K, v: Option<M>, rest: seq<Entry<K, M>>)
    requires |e| > 0 && e[0].key != k
    requires HasKey(e[1..], k) && KeysDistinct(e[1..]) ==>
      |rest| == |e| - 1 && forall i :: 0 <= i < |e| - 1 ==>
        rest[i] == (if e[1..][i].key == k then Entry(k, v) else e[1..][i])
    requires !HasKey(e[1..], k) ==> rest == e[1..] + [Entry(k, v)]
    ensures HasKey(e, k) && KeysDistinct(e) ==>
      |[e[0]] + rest| == |e| && forall i :: 0 <= i < |e| ==>
        ([e[0]] + rest)[i] == (if e[i].key == k then Entry(k, v) else e[i])
    ensures !HasKey(e, k) ==> [e[0]] + rest == e + [Entry(k, v)]
  {
    assert e == [e[0]] + e[1..];
    HasKeyCons(e[0], e[1..], k);
    KeysDistinctCons(e[0], e[1..]);
    if HasKey(e, k) && KeysDistinct(e) {
      forall i | 0 <= i < |e|
        ensures ([e[0]] + rest)[i] == (if e[i].key == k then Entry(k, v) else e[i])
      {
        if i > 0 { assert ([e[0]] + rest)[i] == rest[i - 1] && e[1..][i - 1] == e[i]; }
      }
    }
  }

  /** Every entry holds a message; none holds `undefined`. */
  predicate AllDefined<K, M>(e: seq<Entry<K, M>>) {
    forall i :: 0 <= i < |e| ==> e[i].message.Some?
  }

  /** With distinct keys, the entry at index `i` is what `Lookup` finds. */
  lemma {:induction false} LookupFirst<K, M>(e: seq<Entry<K, M>>, i: nat)
    requires KeysDistinct(e) && i < |e|
    ensures Lookup(e, e[i].key) == Some(e[i].message)
    decreases i
  {
    if i > 0 {
      assert e[1..][i - 1] == e[i];
      assert KeysDistinct(e[1..]) by {
        forall a, b | 0 <= a < b < |e[1..]| ensures e[1..][a].key != e[1..][b].key {
          assert e[1..][a] == e[a + 1] && e[1..][b] == e[b + 1];
        }
      }
      LookupFirst(e[1..], i - 1);
    }
  }

  /** With distinct keys and every message defined, the error object is
      empty exactly when no key holds a message. */
  lemma EmptyIffNoErrors<K, M>(e: seq<Entry<K, M>>)
    requires KeysDistinct(e) && AllDefined(e)
    ensures |e| == 0 <==> forall k :: !HasError(e, k)
  {
    if |e| > 0 {
      LookupFirst(e, 0);
      assert HasError(e, e[0].key);
    }
  }

  /** One entry for key `k` when `fails` holds, none otherwise. */
  function EntryIf<K(==), M>(fails: bool, k: K, msg: M): seq<Entry<K, M>> {
    if fails then [Entry(k, Some(msg))] else []
  }

  /** Looking a key up behind an optional entry: the entry answers for its
      own key, everything else is looked up further on. */
  lemma EntryIfAt<K, M>(fails: bool, k: K, msg: M, rest: seq<Entry<K, M>>, j: K)
    ensures Lookup(EntryIf(fails, k, msg) + rest, j) ==
      if fails && j == k then Some(Some(msg)) else Lookup(rest, j)
  {
    var r := EntryIf(fails, k, msg) + rest;
    if fails {
      assert r[1..] == rest;
    } else {
      assert r == rest;
    }
  }

  /** An error object built front to back: each entry holds a message and a
      key that no later entry holds. */
  predicate WellBuilt<K(==), M>(e: seq<Entry<K, M>>)
    decreases |e|
  {
    |e| == 0 ||
    (e[0].message.Some? && Lookup(e[1..], e[0].key).None? && WellBuilt(e[1..]))
  }

  lemma {:induction false} WellBuiltIsWellFormed<K, M>(e: seq<Entry<K, M>>)
    requires WellBuilt(e)
    ensures KeysDistinct(e) && AllDefined(e)
    decreases |e|
  {
    if |e| > 0 {
      WellBuiltIsWellFormed(e[1..]);
      LookupPresent(e[1..], e[0].key);
      KeysDistinctCons(e[0], e[1..]);
      assert e == [e[0]] + e[1..];
      assert forall i | 1 <= i < |e| :: e[i] == e[1..][i - 1];
    }
  }

  /** An optional entry for a key not yet present keeps the error object
      well built. */
  lemma EntryIfWellBuilt<K, M>(fails: bool, k: K, msg: M, rest: seq<Entry<K, M>>)
    requires WellBuilt(rest)
    requires fails ==> Lookup(rest, k).None?
    ensures WellBuilt(EntryIf(fails, k, msg) + rest)
  {
    var r := EntryIf(fails, k, msg) + rest;
    if fails {
      assert r[1..] == rest;
    } else {
      assert r == rest;
    }
  }

  /** When an error object with distinct keys agrees with a per-key verdict,
      its first entry is that key's verdict. */
  lemma FirstEntryAnswers<K, M>(e: seq<Entry<K, M>>, verdict: K -> Option<Option<M>>)
    requires KeysDistinct(e) && |e| > 0
    requires forall k :: Lookup(e, k) == verdict(k)
    ensures verdict(e[0].key) == Some(e[0].message)
  {
    LookupFirst(e, 0);
  }

  /** `if (fails) obj[k] = msg`: one conditional assignment of a message. */
  function SetIf<K(==,!new), M>(e: seq<Entry<K, M>>, fails: bool, k: K, msg: M): (r: seq<Entry<K, M>>)
    ensures fails ==> Lookup(r, k) == Some(Some(msg))
    ensures forall j :: (!fails || j != k) ==> Lookup(r, j) == Lookup(e, j)
    ensures KeysDistinct(e) ==> KeysDistinct(r)
    ensures AllDefined(e) ==> AllDefined(r)
    ensures |r| == 0 <==> |e| == 0 && !fails
  {
    if fails then
      PutDefined(e, k, Some(msg));
      Put(e, k, Some(msg))
    else e
  }

  /** Assigning a message, rather than `undefined`, keeps every entry
      defined. */
  lemma {:induction false} PutDefined<K(!new), M>(e: seq<Entry<K, M>>, k: K, v: Option<M>)
    ensures AllDefined(e) && v.Some? ==> AllDefined(Put(e, k, v))
    decreases |e|
  {
    if AllDefined(e) && v.Some? && |e| > 0 && e[0].key != k {
      assert AllDefined(e[1..]) by {
        forall i | 0 <= i < |e[1..]| ensures e[1..][i].message.Some? {
          assert e[1..][i] == e[i + 1];
        }
      }
      PutDefined(e[1..], k, v);
      var r := Put(e, k, v);
      assert r == [e[0]] + Put(e[1..], k, v);
      forall i | 0 <= i < |r| ensures r[i].message.Some? {
        if i > 0 { assert r[i] == Put(e[1..], k, v)[i - 1]; }
      }
    }
  }
}
