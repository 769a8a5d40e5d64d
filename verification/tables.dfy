/**
 * The table store the controllers call into (customers, products, orders).
 * A table is the list of entities a full scan returns, in the order it returns
 * them; every entity is addressed by its (partition key, row key) pair.
 * The list queries LINQ performs on a scan (FirstOrDefault, Where) are
 * defined here once.
 */
module Tables {
  import opened Wrappers

  /** An entity as the store holds it: partition key, row key and payload. */
  datatype Entity<T> = Entity(partitionKey: string, rowKey: string, value: T)

  /** Why a store write throws. */
  datatype StoreError = Conflict | Missing

  predicate HasKey<T>(e: Entity<T>, pk: string, rk: string) {
    e.partitionKey == pk && e.rowKey == rk
  }

  /** No two rows share a (partition key, row key) pair. */
  predicate UniqueKeys<T>(t: seq<Entity<T>>) {
    forall i, j :: 0 <= i < |t| && 0 <= j < |t| && HasKey(t[j], t[i].partitionKey, t[i].rowKey) ==> i == j
  }

  /** The position of the first element satisfying p. */
  function FirstIndex<T>(s: seq<T>, p: T -> bool): (r: Option<nat>)
    ensures r.Some? ==> r.value < |s| && p(s[r.value])
    ensures r.Some? ==> forall j :: 0 <= j < r.value ==> !p(s[j])
    ensures r.None? <==> forall j :: 0 <= j < |s| ==> !p(s[j])
    decreases |s|
  {
    if |s| == 0 then None
    else if p(s[0]) then Some(0)
    else
      match FirstIndex(s[1..], p)
      case None =>
        assert forall j :: 1 <= j < |s| ==> s[j] == s[1..][j - 1];
        None
      case Some(i) =>
        assert forall j :: 1 <= j < i + 1 ==> s[j] == s[1..][j - 1];
        Some(i + 1)
  }

  /** LINQ's FirstOrDefault: the first element satisfying p, or null. */
  function FirstOrDefault<T>(s: seq<T>, p: T -> bool): (r: Option<T>)
    ensures r.Some? ==> r.value in s && p(r.value)
    ensures r.Some? ==> exists i :: 0 <= i < |s| && s[i] == r.value && forall j :: 0 <= j < i ==> !p(s[j])
    ensures r.None? <==> forall j :: 0 <= j < |s| ==> !p(s[j])
  {
    match FirstIndex(s, p)
    case None => None
    case Some(i) => Some(s[i])
  }

  /** LINQ's Where: the elements satisfying p, each as often as in s. */
  function Where<T(!new)>(s: seq<T>, p: T -> bool): (r: seq<T>)
    ensures forall x :: multiset(r)[x] == if p(x) then multiset(s)[x] else 0
    ensures forall x :: x in r <==> x in s && p(x)
    ensures |r| <= |s|
    decreases |s|
  {
    if |s| == 0 then []
    else
      assert s == [s[0]] + s[1..];
      var rest := Where(s[1..], p);
      if p(s[0]) then [s[0]] + rest else rest
  }

  /** Where keeps scan order: filtering a concatenation concatenates the filtered parts. */
  lemma {:induction false} WhereConcat<T(!new)>(a: seq<T>, b: seq<T>, p: T -> bool)
    ensures Where(a + b, p) == Where(a, p) + Where(b, p)
    decreases |a|
  {
    if |a| == 0 {
      assert a + b == b;
    } else {
      assert (a + b)[0] == a[0];
      assert (a + b)[1..] == a[1..] + b;
      WhereConcat(a[1..], b, p);
    }
  }

  /** Where on one element keeps it exactly when it satisfies p. */
  lemma WhereSingleton<T(!new)>(x: T, p: T -> bool)
    ensures Where([x], p) == if p(x) then [x] else []
  {
    assert [x][1..] == [];
  }

  /** GetEntityAsync: the row with the given keys, or null. */
  function Get<T>(t: seq<Entity<T>>, pk: string, rk: string): (r: Option<Entity<T>>)
    ensures r.Some? ==> r.value in t && HasKey(r.value, pk, rk)
    ensures r.None? <==> forall i :: 0 <= i < |t| ==> !HasKey(t[i], pk, rk)
  {
    FirstOrDefault(t, (e: Entity<T>) => HasKey(e, pk, rk))
  }

  /** AddEntityAsync: inserts e; throws when its keys are already taken. */
  function Add<T>(t: seq<Entity<T>>, e: Entity<T>): (r: Result<seq<Entity<T>>, StoreError>)
    ensures r.Failure? <==> exists i :: 0 <= i < |t| && HasKey(t[i], e.partitionKey, e.rowKey)
    ensures r.Failure? ==> r.error == Conflict
    ensures r.Success? ==> multiset(r.value) == multiset(t) + multiset{e}
    ensures r.Success? ==> Get(r.value, e.partitionKey, e.rowKey) == Some(e)
  {
    if Get(t, e.partitionKey, e.rowKey).Some? then Failure(Conflict)
    else
      var t' := t + [e];
      assert t'[|t|] == e;
      Success(t')
  }

  /** UpdateEntityAsync as replace-row: throws when no row has e's keys. */
  function Update<T>(t: seq<Entity<T>>, e: Entity<T>): (r: Result<seq<Entity<T>>, StoreError>)
    ensures r.Failure? <==> forall i :: 0 <= i < |t| ==> !HasKey(t[i], e.partitionKey, e.rowKey)
    ensures r.Failure? ==> r.error == Missing
    ensures r.Success? ==> |r.value| == |t|
    ensures r.Success? ==> forall i :: 0 <= i < |t| && !HasKey(t[i], e.partitionKey, e.rowKey) ==> r.value[i] == t[i]
    ensures r.Success? ==> forall i :: 0 <= i < |t| && HasKey(t[i], e.partitionKey, e.rowKey) ==> r.value[i] == e
    ensures r.Success? ==> Get(r.value, e.partitionKey, e.rowKey) == Some(e)
  {
    match FirstIndex(t, (x: Entity<T>) => HasKey(x, e.partitionKey, e.rowKey))
    case None => Failure(Missing)
    case Some(k) =>
      var t' := seq(|t|, i requires 0 <= i < |t| => if HasKey(t[i], e.partitionKey, e.rowKey) then e else t[i]);
      assert t'[k] == e;
      Success(t')
  }

  /** DeleteEntityAsync when it does not throw: every row with the keys is gone, all others stay. */
  function Delete<T(!new)>(t: seq<Entity<T>>, pk: string, rk: string): (r: seq<Entity<T>>)
    ensures forall x :: multiset(r)[x] == if HasKey(x, pk, rk) then 0 else multiset(t)[x]
    ensures Get(r, pk, rk) == None
  {
    Where(t, (e: Entity<T>) => !HasKey(e, pk, rk))
  }

  /** Under unique keys, the row a lookup finds is the one row with those keys. */
  lemma GetFindsUnique<T>(t: seq<Entity<T>>, i: int, pk: string, rk: string)
    requires UniqueKeys(t)
    requires 0 <= i < |t| && HasKey(t[i], pk, rk)
    ensures Get(t, pk, rk) == Some(t[i])
  {
  }

  lemma AddKeepsUnique<T>(t: seq<Entity<T>>, e: Entity<T>)
    requires UniqueKeys(t)
    requires Add(t, e).Success?
    ensures UniqueKeys(Add(t, e).value)
  {
  }

  lemma UpdateKeepsUnique<T>(t: seq<Entity<T>>, e: Entity<T>)
    requires UniqueKeys(t)
    requires Update(t, e).Success?
    ensures UniqueKeys(Update(t, e).value)
  {
  }

  /** A suffix of a table with unique keys has unique keys. */
  lemma TailUnique<T>(t: seq<Entity<T>>)
    requires UniqueKeys(t) && |t| > 0
    ensures UniqueKeys(t[1..])
    ensures forall x :: x in t[1..] ==> !HasKey(x, t[0].partitionKey, t[0].rowKey)
  {
  }

  /** Filtering a table with unique keys keeps them unique. */
  lemma {:induction false} WhereKeepsUnique<T(!new)>(t: seq<Entity<T>>, p: Entity<T> -> bool)
    requires UniqueKeys(t)
    ensures UniqueKeys(Where(t, p))
    decreases |t|
  {
    if |t| > 0 {
      TailUnique(t);
      WhereKeepsUnique(t[1..], p);
      var d := Where(t[1..], p);
      if p(t[0]) {
        var t' := [t[0]] + d;
        forall i, j | 0 <= i < |t'| && 0 <= j < |t'| && i != j
          ensures !HasKey(t'[j], t'[i].partitionKey, t'[i].rowKey)
        {
          if i == 0 {
            assert t'[j] in d;
          } else if j == 0 {
            assert t'[i] in d;
          } else {
            assert !HasKey(d[j - 1], d[i - 1].partitionKey, d[i - 1].rowKey);
          }
        }
      }
    }
  }

  lemma DeleteKeepsUnique<T(!new)>(t: seq<Entity<T>>, pk: string, rk: string)
    requires UniqueKeys(t)
    ensures UniqueKeys(Delete(t, pk, rk))
  {
    WhereKeepsUnique(t, (e: Entity<T>) => !HasKey(e, pk, rk));
  }

  /** Under unique keys, deleting an existing row removes exactly one row. */
  lemma {:induction false} DeleteRemovesOne<T(!new)>(t: seq<Entity<T>>, pk: string, rk: string)
    requires UniqueKeys(t)
    requires Get(t, pk, rk).Some?
    ensures |Delete(t, pk, rk)| == |t| - 1
    decreases |t|
  {
    TailUnique(t);
    var rest := t[1..];
    var d := Delete(rest, pk, rk);
    assert Delete(t, pk, rk) == if HasKey(t[0], pk, rk) then d else [t[0]] + d;
    if HasKey(t[0], pk, rk) {
      forall i | 0 <= i < |rest|
        ensures !HasKey(rest[i], pk, rk)
      {
        assert rest[i] in rest;
      }
      KeepAllWhenNoMatch(rest, pk, rk);
    } else {
      var k :| 0 <= k < |t| && t[k] == Get(t, pk, rk).value;
      assert k > 0 && HasKey(rest[k - 1], pk, rk);
      DeleteRemovesOne(rest, pk, rk);
    }
  }

  /** Deleting keys no row holds leaves the table as it was. */
  lemma {:induction false} KeepAllWhenNoMatch<T(!new)>(t: seq<Entity<T>>, pk: string, rk: string)
    requires forall i :: 0 <= i < |t| ==> !HasKey(t[i], pk, rk)
    ensures Delete(t, pk, rk) == t
    decreases |t|
  {
    if |t| > 0 {
      KeepAllWhenNoMatch(t[1..], pk, rk);
      assert t == [t[0]] + t[1..];
    }
  }
}
