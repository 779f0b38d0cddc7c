/** Serializer output as ordered dictionaries (solution/core/serializers.py):
    the null-stripping comprehension shared by every `to_representation` and
    the `ClearNullMixin` that first gives a limited promocode an empty target. */
module CoreSerializers {

  /** A serialized value; `Null` is Python's `None`. */
  datatype Json =
    | Null
    | Bool(b: bool)
    | Int(i: int)
    | Str(s: string)
    | Arr(items: seq<Json>)
    | Obj(entries: seq<(string, Json)>)

  /** An `OrderedDict`: entries in insertion order. */
  type Dict = seq<(string, Json)>

  /** A Python dict never holds a key twice. */
  predicate DistinctKeys(d: Dict)
  {
    forall i, j :: 0 <= i < j < |d| ==> d[i].0 != d[j].0
  }

  predicate HasKey(d: Dict, k: string)
  {
    exists i :: 0 <= i < |d| && d[i].0 == k
  }

  predicate NoNulls(d: Dict)
  {
    forall i :: 0 <= i < |d| ==> d[i].1 != Null
  }

  /** `d.get(k)`: the value stored under `k`, or None when `k` is absent. */
  function Get(d: Dict, k: string): (v: Json)
    ensures !HasKey(d, k) ==> v == Null
    ensures HasKey(d, k) ==> (k, v) in d
  {
    if d == [] then Null
    else if d[0].0 == k then d[0].1
    else Get(d[1..], k)
  }

  /** In a dict, the value stored under a key is the one `get` returns. */
  lemma {:induction false} GetMember(d: Dict, k: string, v: Json)
    requires DistinctKeys(d) && (k, v) in d
    ensures Get(d, k) == v
  {
    if d[0] != (k, v) {
      assert d[0].0 != k by {
        var i :| 0 <= i < |d| && d[i] == (k, v);
        assert i != 0;
      }
      GetMember(d[1..], k, v);
    }
  }

  /** `OrderedDict([(key, d[key]) for key in d if d[key] is not None])`. */
  function StripNulls(d: Dict): (r: Dict)
    ensures NoNulls(r)
    ensures forall e :: e in r <==> e in d && e.1 != Null
  {
    if d == [] then []
    else (if d[0].1 == Null then [] else [d[0]]) + StripNulls(d[1..])
  }

  /** Stripping works entry by entry: it commutes with concatenation. */
  lemma {:induction false} StripNullsAppend(a: Dict, b: Dict)
    ensures StripNulls(a + b) == StripNulls(a) + StripNulls(b)
  {
    if a == [] {
      assert a + b == b;
    } else {
      assert (a + b)[1..] == a[1..] + b;
      StripNullsAppend(a[1..], b);
    }
  }

  /** Non-null entries keep their relative order. */
  lemma StripNullsKeepsOrder(d: Dict, i: nat, j: nat)
    requires i < j < |d| && d[i].1 != Null && d[j].1 != Null
    ensures exists i', j' :: 0 <= i' < j' < |StripNulls(d)| &&
                             StripNulls(d)[i'] == d[i] && StripNulls(d)[j'] == d[j]
  {
    var front, back := d[..j], d[j..];
    assert d == front + back;
    StripNullsAppend(front, back);
    assert back == [d[j]] + back[1..];
    StripNullsAppend([d[j]], back[1..]);
    var sf := StripNulls(front);
    assert d[i] in front;
    var i' :| 0 <= i' < |sf| && sf[i'] == d[i];
    assert StripNulls(d)[i'] == d[i];
    assert StripNulls(d)[|sf|] == d[j];
  }

  /** A dict without nulls is left as it is. */
  lemma {:induction false} StripNullsKeepsClean(d: Dict)
    requires NoNulls(d)
    ensures StripNulls(d) == d
  {
    if d != [] {
      StripNullsKeepsClean(d[1..]);
    }
  }

  lemma {:induction false} StripNullsDistinct(d: Dict)
    requires DistinctKeys(d)
    ensures DistinctKeys(StripNulls(d))
  {
    if d != [] {
      StripNullsDistinct(d[1..]);
      var rest := StripNulls(d[1..]);
      forall e | e in rest
        ensures e.0 != d[0].0
      {
        var j :| 0 <= j < |d[1..]| && d[1..][j] == e;
        assert d[j + 1] == e;
      }
    }
  }

  /** Stripping changes no lookup: a null entry and a missing one read alike. */
  lemma StripNullsGet(d: Dict, k: string)
    requires DistinctKeys(d)
    ensures Get(StripNulls(d), k) == Get(d, k)
  {
    var r := StripNulls(d);
    StripNullsDistinct(d);
    var v := Get(d, k);
    if v != Null {
      assert HasKey(d, k);
      GetMember(r, k, v);
    } else if HasKey(r, k) {
      var w := Get(r, k);
      assert (k, w) in d && w != Null;
      GetMember(d, k, w);
      assert false;
    }
  }

  /** `d[k] = v` on an OrderedDict: an existing key is overwritten where it
      stands, a new key is appended. */
  function Assign(d: Dict, k: string, v: Json): (r: Dict)
    ensures !HasKey(d, k) ==> r == d + [(k, v)]
    ensures HasKey(d, k) ==> |r| == |d|
    ensures forall i :: 0 <= i < |d| && d[i].0 != k ==> r[i] == d[i]
    ensures forall e :: e in r ==> e in d || e == (k, v)
    ensures (k, v) in r
  {
    if d == [] then [(k, v)]
    else if d[0].0 == k then [(k, v)] + d[1..]
    else [d[0]] + Assign(d[1..], k, v)
  }

  lemma AssignDistinct(d: Dict, k: string, v: Json)
    requires DistinctKeys(d)
    ensures DistinctKeys(Assign(d, k, v))
  {
    var r := Assign(d, k, v);
    if HasKey(d, k) {
      var m :| 0 <= m < |d| && d[m].0 == k;
      forall i | 0 <= i < |d| && i != m
        ensures r[i] == d[i]
      {
        assert d[i].0 != k;
      }
      assert r[m].0 == k by {
        assert (k, v) in r;
      }
    }
  }

  /** The serialized value takes `target = {}` when it has a `max_count` and
      no target; then every null entry is dropped. */
  predicate NeedsEmptyTarget(d: Dict)
  {
    Get(d, "max_count") != Null && Get(d, "target") == Null
  }

  /** The dict after the in-place write `result["target"] = {}`, when it runs. */
  function WithTarget(d: Dict): (a: Dict)
    requires DistinctKeys(d)
    ensures |d| <= |a|
    ensures forall i :: 0 <= i < |d| && d[i].1 != Null ==> a[i] == d[i]
  {
    if NeedsEmptyTarget(d) then
      assert forall i :: 0 <= i < |d| && d[i].1 != Null ==> d[i].0 != "target" by {
        forall i | 0 <= i < |d| && d[i].1 != Null && d[i].0 == "target"
          ensures false
        {
          GetMember(d, "target", d[i].1);
        }
      }
      Assign(d, "target", Obj([]))
    else d
  }

  /** `ClearNullMixin.to_representation` applied to the serializer's output `d`. */
  function ClearNull(d: Dict): (r: Dict)
    requires DistinctKeys(d)
    ensures NoNulls(r)
    ensures forall e :: e in d && e.1 != Null ==> e in r
  {
    StripNulls(WithTarget(d))
  }

  /** How the target key comes out of `ClearNull`. */
  lemma ClearNullTarget(d: Dict)
    requires DistinctKeys(d)
    ensures NeedsEmptyTarget(d) ==> Get(ClearNull(d), "target") == Obj([])
    ensures Get(d, "max_count") == Null && Get(d, "target") == Null ==>
              !HasKey(ClearNull(d), "target")
    ensures Get(d, "target") != Null ==> Get(ClearNull(d), "target") == Get(d, "target")
  {
    if NeedsEmptyTarget(d) {
      var a := Assign(d, "target", Obj([]));
      AssignDistinct(d, "target", Obj([]));
      StripNullsGet(a, "target");
      GetMember(a, "target", Obj([]));
    } else {
      StripNullsGet(d, "target");
    }
  }

  /** Every key other than `target` reads the same before and after. */
  lemma ClearNullKeepsOthers(d: Dict, k: string)
    requires DistinctKeys(d) && k != "target"
    ensures Get(ClearNull(d), k) == Get(d, k)
  {
    if NeedsEmptyTarget(d) {
      var a := Assign(d, "target", Obj([]));
      AssignDistinct(d, "target", Obj([]));
      StripNullsGet(a, k);
      var v := Get(d, k);
      if v != Null {
        GetMember(a, k, v);
      } else if HasKey(a, k) {
        var w := Get(a, k);
        assert (k, w) in d;
        GetMember(d, k, w);
      }
    } else {
      StripNullsGet(d, k);
    }
  }

  /** Non-null entries keep their values and relative order. */
  lemma ClearNullKeepsOrder(d: Dict, i: nat, j: nat)
    requires DistinctKeys(d)
    requires i < j < |d| && d[i].1 != Null && d[j].1 != Null
    ensures exists i', j' :: 0 <= i' < j' < |ClearNull(d)| &&
                             ClearNull(d)[i'] == d[i] && ClearNull(d)[j'] == d[j]
  {
    var a := WithTarget(d);
    assert ClearNull(d) == StripNulls(a);
    assert a[i] == d[i] && a[j] == d[j];
    StripNullsKeepsOrder(a, i, j);
  }

  /** Serializing an already cleared value again changes nothing. */
  lemma ClearNullIdempotent(d: Dict)
    requires DistinctKeys(d)
    ensures DistinctKeys(ClearNull(d))
    ensures ClearNull(ClearNull(d)) == ClearNull(d)
  {
    var r := ClearNull(d);
    if NeedsEmptyTarget(d) {
      AssignDistinct(d, "target", Obj([]));
      StripNullsDistinct(Assign(d, "target", Obj([])));
    } else {
      StripNullsDistinct(d);
    }
    ClearNullTarget(d);
    ClearNullKeepsOthers(d, "max_count");
    assert !NeedsEmptyTarget(r);
    StripNullsKeepsClean(r);
  }
}
