/** Plain JavaScript objects used as filter and parameter bags: an ordered
    list of distinct keys with their values. Key order matters because
    `Object.keys` and `URLSearchParams` follow insertion order. */
module JsObject {

  import opened Js
  import opened Text

  /** The values these bags hold. */
  datatype Value = Str(s: string) | Num(n: int) | Undef | Nul

  /** `String(v)`, as used by template literals and `URLSearchParams`. */
  function ValueText(v: Value): string {
    match v
    case Str(s) => s
    case Num(n) => IntToString(n)
    case Undef => "undefined"
    case Nul => "null"
  }

  datatype Entry = Entry(key: string, value: Value)

  type Obj = seq<Entry>

  /** The keys, in insertion order. */
  function Keys(o: Obj): (ks: seq<string>)
    ensures |ks| == |o| && forall i :: 0 <= i < |o| ==> ks[i] == o[i].key
  {
    if |o| == 0 then [] else [o[0].key] + Keys(o[1..])
  }

  /** No key appears twice. */
  predicate DistinctKeys(o: Obj) {
    forall i, j :: 0 <= i < j < |o| ==> o[i].key != o[j].key
  }

  /** `o[k]`, `None` when the key is absent (reading it gives undefined). */
  function Lookup(o: Obj, k: string): Option<Value>
  {
    if |o| == 0 then None
    else if o[0].key == k then Some(o[0].value)
    else Lookup(o[1..], k)
  }

  /** A lookup finds the first entry with the key, and nothing when no entry has it. */
  lemma {:induction false} LookupFindsEntry(o: Obj, k: string)
    ensures Lookup(o, k).None? <==> k !in Keys(o)
    ensures Lookup(o, k).Some? ==> exists i :: 0 <= i < |o| && o[i] == Entry(k, Lookup(o, k).value)
  {
    if |o| > 0 && o[0].key != k {
      LookupFindsEntry(o[1..], k);
      assert Keys(o) == [o[0].key] + Keys(o[1..]);
      if Lookup(o, k).Some? {
        var i :| 0 <= i < |o[1..]| && o[1..][i] == Entry(k, Lookup(o, k).value);
        assert o[i + 1] == o[1..][i];
      }
    }
  }

  /** Looking up in a list with a first entry. */
  lemma LookupCons(e: Entry, o: Obj, k: string)
    ensures Lookup([e] + o, k) == if e.key == k then Some(e.value) else Lookup(o, k)
  {
    assert ([e] + o)[1..] == o;
  }

  /** `{ ...o, [k]: v }`: an existing key keeps its place and takes the new
      value; a new key goes at the end. */
  function Put(o: Obj, k: string, v: Value): (r: Obj)
    ensures Lookup(r, k) == Some(v)
    ensures forall k' :: k' != k ==> Lookup(r, k') == Lookup(o, k')
  {
    if |o| == 0 then [Entry(k, v)]
    else if o[0].key == k then
      var r := [Entry(k, v)] + o[1..];
      forall k' | k' != k
        ensures Lookup(r, k') == Lookup(o, k')
      {
        LookupCons(Entry(k, v), o[1..], k');
        LookupCons(o[0], o[1..], k');
        assert o == [o[0]] + o[1..];
      }
      r
    else
      var rest := Put(o[1..], k, v);
      var r := [o[0]] + rest;
      LookupCons(o[0], rest, k);
      forall k' | k' != k
        ensures Lookup(r, k') == Lookup(o, k')
      {
        LookupCons(o[0], rest, k');
        LookupCons(o[0], o[1..], k');
        assert o == [o[0]] + o[1..];
      }
      r
  }

  /** Putting an existing key keeps the key order; a new key is appended. */
  lemma {:induction false} PutKeys(o: Obj, k: string, v: Value)
    ensures Keys(Put(o, k, v)) == if Lookup(o, k).Some? then Keys(o) else Keys(o) + [k]
  {
    if |o| > 0 {
      var r := Put(o, k, v);
      assert Keys(o) == [o[0].key] + Keys(o[1..]);
      if o[0].key == k {
        assert Keys(r) == [k] + Keys(o[1..]);
      } else {
        PutKeys(o[1..], k, v);
        assert Lookup(o, k) == Lookup(o[1..], k);
        assert Keys(r) == [o[0].key] + Keys(Put(o[1..], k, v));
      }
    }
  }

  /** Putting a key keeps the keys distinct. */
  lemma PutKeepsDistinct(o: Obj, k: string, v: Value)
    requires DistinctKeys(o)
    ensures DistinctKeys(Put(o, k, v))
  {
    var r := Put(o, k, v);
    PutKeys(o, k, v);
    LookupFindsEntry(o, k);
    forall i, j | 0 <= i < j < |r|
      ensures r[i].key != r[j].key
    {
      assert Keys(r)[i] == r[i].key && Keys(r)[j] == r[j].key;
      if j < |o| {
        assert Keys(o)[i] == o[i].key && Keys(o)[j] == o[j].key;
      } else {
        assert Keys(o)[i] == o[i].key;
      }
    }
  }

  /** `{ ...a, ...b }`: the keys of `b` are put over `a` one by one. */
  function Spread(a: Obj, b: Obj): (r: Obj)
    requires DistinctKeys(b)
    ensures forall k :: Lookup(r, k) == if Lookup(b, k).Some? then Lookup(b, k) else Lookup(a, k)
    decreases |b|
  {
    if |b| == 0 then a
    else
      var p := Put(a, b[0].key, b[0].value);
      var r := Spread(p, b[1..]);
      assert b == [b[0]] + b[1..];
      forall k
        ensures Lookup(r, k) == if Lookup(b, k).Some? then Lookup(b, k) else Lookup(a, k)
      {
        LookupCons(b[0], b[1..], k);
        if k == b[0].key {
          LookupFindsEntry(b[1..], k);
          assert k !in Keys(b[1..]);
        }
      }
      r
  }

  /** Spreading keeps the keys distinct. */
  lemma {:induction false} SpreadKeepsDistinct(a: Obj, b: Obj)
    requires DistinctKeys(a) && DistinctKeys(b)
    ensures DistinctKeys(Spread(a, b))
    decreases |b|
  {
    if |b| > 0 {
      PutKeepsDistinct(a, b[0].key, b[0].value);
      SpreadKeepsDistinct(Put(a, b[0].key, b[0].value), b[1..]);
    }
  }
}
