/** Shared vocabulary of the model: optional values, and the handful of table
    queries the services issue through the ORM (findFirst / findUnique, findMany
    with a where-clause, delete by key). A table is a sequence of rows in
    insertion order, which is the order the ORM returns them in. */
module Common {

  datatype Option<T> = None | Some(value: T)

  /** Index of the first row satisfying `p`: what findFirst returns. */
  function FirstIndex<T>(s: seq<T>, p: T -> bool): (r: Option<nat>)
    ensures r.Some? ==> r.value < |s| && p(s[r.value])
    ensures r.Some? ==> forall j :: 0 <= j < r.value ==> !p(s[j])
    ensures r.None? ==> forall j :: 0 <= j < |s| ==> !p(s[j])
  {
    if |s| == 0 then None
    else if p(s[0]) then Some(0)
    else
      match FirstIndex(s[1..], p)
      case None => None
      case Some(k) => Some(k + 1)
  }

  /** Two tables that agree on `p` row by row give the same findFirst answer. */
  lemma {:induction false} FirstIndexCongruent<T>(s: seq<T>, t: seq<T>, p: T -> bool)
    requires |s| == |t|
    requires forall i :: 0 <= i < |s| ==> p(s[i]) == p(t[i])
    ensures FirstIndex(s, p) == FirstIndex(t, p)
  {
    if |s| > 0 && !p(s[0]) {
      FirstIndexCongruent(s[1..], t[1..], p);
    }
  }

  /** Appending a row changes a findFirst answer only when nothing matched before. */
  lemma {:induction false} FirstIndexAppend<T>(s: seq<T>, x: T, p: T -> bool)
    ensures FirstIndex(s + [x], p) ==
            if FirstIndex(s, p).Some? then FirstIndex(s, p)
            else if p(x) then Some(|s|) else None
  {
    if |s| > 0 {
      assert (s + [x])[1..] == s[1..] + [x];
      if !p(s[0]) {
        FirstIndexAppend(s[1..], x, p);
      }
    }
  }

  /** The rows of `s` that satisfy `p`, in table order: findMany with a where-clause. */
  function Filter<T>(s: seq<T>, p: T -> bool): (r: seq<T>)
    ensures |r| <= |s|
    ensures forall i :: 0 <= i < |r| ==> r[i] in s && p(r[i])
    ensures forall i :: 0 <= i < |s| && p(s[i]) ==> s[i] in r
  {
    if |s| == 0 then []
    else (if p(s[0]) then [s[0]] else []) + Filter(s[1..], p)
  }

  lemma {:induction false} FilterAppend<T>(s: seq<T>, t: seq<T>, p: T -> bool)
    ensures Filter(s + t, p) == Filter(s, p) + Filter(t, p)
  {
    if |s| > 0 {
      assert (s + t)[1..] == s[1..] + t;
      FilterAppend(s[1..], t, p);
    } else {
      assert s + t == t;
    }
  }

  /** The table with row `i` deleted. */
  function RemoveAt<T>(s: seq<T>, i: nat): (r: seq<T>)
    requires i < |s|
    ensures |r| == |s| - 1
    ensures forall j :: 0 <= j < i ==> r[j] == s[j]
    ensures forall j :: i <= j < |r| ==> r[j] == s[j + 1]
  {
    s[..i] + s[i + 1..]
  }

  /** Every row has a key below the table's auto-increment counter, and no two
      rows share a key: what an auto-incremented primary key guarantees. */
  ghost predicate Keyed<T>(s: seq<T>, key: T -> nat, next: nat)
  {
    (forall i :: 0 <= i < |s| ==> key(s[i]) < next) &&
    (forall i, j :: 0 <= i < j < |s| ==> key(s[i]) != key(s[j]))
  }

  /** findUnique on the primary key. */
  function FindByKey<T>(s: seq<T>, key: T -> nat, k: int): (r: Option<nat>)
    ensures r.Some? ==> r.value < |s| && key(s[r.value]) == k
    ensures r.None? ==> forall j :: 0 <= j < |s| ==> key(s[j]) != k
  {
    FirstIndex(s, (x: T) => key(x) == k)
  }

  lemma KeyedAppend<T>(s: seq<T>, key: T -> nat, next: nat, x: T)
    requires Keyed(s, key, next) && key(x) == next
    ensures Keyed(s + [x], key, next + 1)
  {
  }

  lemma KeyedUpdate<T>(s: seq<T>, key: T -> nat, next: nat, i: nat, x: T)
    requires Keyed(s, key, next) && i < |s| && key(x) == key(s[i])
    ensures Keyed(s[i := x], key, next)
  {
  }

  /** Deleting the row with key `key(s[i])` keeps the table keyed and removes
      exactly the rows carrying that key. */
  lemma KeyedRemove<T>(s: seq<T>, key: T -> nat, next: nat, i: nat)
    requires Keyed(s, key, next) && i < |s|
    ensures Keyed(RemoveAt(s, i), key, next)
    ensures forall x :: x in RemoveAt(s, i) <==> x in s && key(x) != key(s[i])
  {
    var r := RemoveAt(s, i);
    forall x
      ensures x in r <==> x in s && key(x) != key(s[i])
    {
      if x in r {
        var j :| 0 <= j < |r| && r[j] == x;
        if j < i { assert s[j] == x; } else { assert s[j + 1] == x; }
      }
      if x in s && key(x) != key(s[i]) {
        var j :| 0 <= j < |s| && s[j] == x;
        assert j != i;
        if j < i { assert r[j] == x; } else { assert r[j - 1] == x; }
      }
    }
  }

  /** With distinct keys, the row found by key is the only one with that key. */
  lemma KeyedFind<T>(s: seq<T>, key: T -> nat, next: nat, i: nat)
    requires Keyed(s, key, next) && i < |s|
    ensures FindByKey(s, key, key(s[i])) == Some(i)
  {
  }

  /** Replacing a row by one with the same key leaves findUnique's answer in place. */
  lemma FindByKeyUpdate<T>(s: seq<T>, key: T -> nat, i: nat, x: T, k: int)
    requires i < |s| && key(x) == key(s[i])
    ensures FindByKey(s[i := x], key, k) == FindByKey(s, key, k)
  {
    FirstIndexCongruent(s, s[i := x], (y: T) => key(y) == k);
  }

  /** update({where: {<key>: k}, data}): the row with that key rewritten by
      `f`; with no such row the table is left as it is. */
  function UpdateByKey<T>(s: seq<T>, key: T -> nat, k: int, f: T -> T): (r: seq<T>)
    ensures |r| == |s|
  {
    match FindByKey(s, key, k)
    case Some(i) => s[i := f(s[i])]
    case None => s
  }

  /** Updating by key with a key-preserving `f` keeps the table keyed, touches
      only the row with that key, and applying two updates in turn is applying
      their composition. */
  lemma UpdateByKeyFacts<T>(s: seq<T>, key: T -> nat, next: nat, k: int, f: T -> T, g: T -> T)
    requires Keyed(s, key, next)
    requires forall x :: key(f(x)) == key(x)
    ensures Keyed(UpdateByKey(s, key, k, f), key, next)
    ensures forall i :: 0 <= i < |s| && key(s[i]) != k ==> UpdateByKey(s, key, k, f)[i] == s[i]
    ensures forall i :: 0 <= i < |s| && key(s[i]) == k ==> UpdateByKey(s, key, k, f)[i] == f(s[i])
    ensures FindByKey(UpdateByKey(s, key, k, f), key, k) == FindByKey(s, key, k)
    ensures UpdateByKey(UpdateByKey(s, key, k, f), key, k, g) ==
            match FindByKey(s, key, k) case Some(i) => s[i := g(f(s[i]))] case None => s
  {
    match FindByKey(s, key, k)
    case Some(i) =>
      KeyedUpdate(s, key, next, i, f(s[i]));
      FindByKeyUpdate(s, key, i, f(s[i]), k);
    case None =>
  }

  /** delete({where: {<key>: k}}): the table without the row carrying key `k`. */
  function DeleteByKey<T>(s: seq<T>, key: T -> nat, k: int): (r: seq<T>)
    ensures |r| <= |s|
  {
    match FindByKey(s, key, k)
    case Some(i) => RemoveAt(s, i)
    case None => s
  }

  /** On a keyed table, deleting by key removes exactly the row with that key,
      so that key is no longer found. */
  lemma DeleteByKeyFacts<T>(s: seq<T>, key: T -> nat, next: nat, k: int)
    requires Keyed(s, key, next)
    ensures Keyed(DeleteByKey(s, key, k), key, next)
    ensures forall x :: x in DeleteByKey(s, key, k) <==> x in s && key(x) != k
    ensures FindByKey(DeleteByKey(s, key, k), key, k).None?
  {
    match FindByKey(s, key, k)
    case Some(i) =>
      KeyedRemove(s, key, next, i);
      var r := RemoveAt(s, i);
      forall j | 0 <= j < |r|
        ensures key(r[j]) != k
      {
        assert r[j] in r;
      }
    case None =>
  }

  /** A single-row response: the status and, on success, the serialised row. */
  datatype Reply<T> = Reply(status: int, body: Option<T>)

  /** A list response: `data` is the serialised list, or None when the
      service answers with a message only. */
  datatype Listing<T> = Listing(status: int, data: Option<seq<T>>)

  /** `id ? id.toString() : null` on a nullable bigint id: 0 is falsy and
      serialises to null like a missing id does. */
  function Serialized(id: Option<nat>): (r: Option<nat>)
    ensures r.Some? <==> id.Some? && id.value > 0
    ensures r.Some? ==> r == id
  {
    if id.Some? && id.value != 0 then id else None
  }

  /** The value an ORM update writes: a field the request leaves undefined
      (None) keeps the column's current value. */
  function Given<T>(p: Option<T>, v: T): T
  {
    if p.Some? then p.value else v
  }

  function GivenOpt<T>(p: Option<T>, v: Option<T>): Option<T>
  {
    if p.Some? then p else v
  }
}
