/**
 * SELECT ... ORDER BY time DESC LIMIT n: the newest rows, newest first. Rows without a time
 * come last, and rows with equal times in any order, as in SQLite.
 */
module Query {
  import opened Prelude
  import Text

  /** NULL sorts before every string. */
  predicate Earlier(a: Option<string>, b: Option<string>) {
    b.Some? && (a.None? || Text.Less(a.value, b.value))
  }

  /** keys are the newest n rows of the table, newest first. */
  ghost predicate IsNewest<T(!new)>(times: map<T, Option<string>>, n: nat, keys: seq<T>) {
    && Distinct(keys) && |keys| == Min(n, |times|)
    && (forall i :: 0 <= i < |keys| ==> keys[i] in times)
    && (forall i, j :: 0 <= i < j < |keys| ==> !Earlier(times[keys[i]], times[keys[j]]))
    && (forall i, k :: 0 <= i < |keys| && k in times && k !in keys ==> !Earlier(times[keys[i]], times[k]))
  }

  lemma {:induction false} EarlierTransitive(a: Option<string>, b: Option<string>, c: Option<string>)
    ensures Earlier(a, b) && Earlier(b, c) ==> Earlier(a, c)
    ensures !Earlier(a, b) && !Earlier(b, c) ==> !Earlier(a, c)
    ensures !Earlier(a, a)
  {
    if a.Some? {
      Text.Irreflexive(a.value);
    }
    if a.Some? && b.Some? && c.Some? {
      Text.Total(b.value, a.value);
      Text.Total(c.value, b.value);
      if Text.Less(a.value, b.value) && Text.Less(b.value, c.value) {
        Text.Transitive(a.value, b.value, c.value);
      }
      if Text.Less(b.value, a.value) && Text.Less(a.value, c.value) {
        Text.Transitive(b.value, a.value, c.value);
      }
    }
  }

  /** The row to list next: none of those left has a later time. */
  method Latest<T(==,!new)>(times: map<T, Option<string>>) returns (key: T)
    requires times != map[]
    ensures key in times && forall k :: k in times ==> !Earlier(times[key], times[k])
  {
    key :| key in times;
    var rest := times.Keys - {key};
    EarlierTransitive(times[key], times[key], times[key]);
    while rest != {}
      invariant key in times && rest <= times.Keys && key !in rest
      invariant forall k :: k in times && k !in rest ==> !Earlier(times[key], times[k])
      decreases rest
    {
      var k :| k in rest;
      rest := rest - {k};
      if Earlier(times[key], times[k]) {
        forall j | j in times && j !in rest ensures !Earlier(times[k], times[j]) {
          EarlierTransitive(times[key], times[k], times[j]);
          EarlierTransitive(times[k], times[k], times[k]);
        }
        key := k;
      }
    }
  }

  method Newest<T(==,!new)>(times: map<T, Option<string>>, n: nat) returns (keys: seq<T>)
    ensures IsNewest(times, n, keys)
  {
    hide Earlier;
    keys := [];
    var left := times;
    while left != map[] && |keys| < n
      invariant |keys| <= n && |keys| + |left| == |times|
      invariant Distinct(keys)
      invariant forall k :: k in left <==> k in times && k !in keys
      invariant forall k :: k in left ==> left[k] == times[k]
      invariant forall i :: 0 <= i < |keys| ==> keys[i] in times
      invariant forall i, j :: 0 <= i < j < |keys| ==> !Earlier(times[keys[i]], times[keys[j]])
      invariant forall i, k :: 0 <= i < |keys| && k in left ==> !Earlier(times[keys[i]], times[k])
      decreases |left|
    {
      var key := Latest(left);
      var rest := left - {key};
      assert left == rest[key := left[key]];
      keys := keys + [key];
      left := rest;
    }
  }

  /** Where all rows have different times there is only one answer. */
  lemma {:induction false} NewestUnique<T(!new)>(times: map<T, Option<string>>, n: nat, a: seq<T>, b: seq<T>)
    requires IsNewest(times, n, a) && IsNewest(times, n, b)
    requires forall j, k :: j in times && k in times && j != k ==>
             Earlier(times[j], times[k]) || Earlier(times[k], times[j])
    ensures a == b
  {
    if a != b {
      var i := FirstDifference(a, b);
      AtDifference(times, n, a, b, i);
      AtDifference(times, n, b, a, i);
      assert false;
    }
  }

  lemma {:induction false} FirstDifference<T>(a: seq<T>, b: seq<T>) returns (i: nat)
    requires |a| == |b| && a != b
    ensures i < |a| && (forall j :: 0 <= j < i ==> a[j] == b[j]) && a[i] != b[i]
  {
    i := 0;
    while i < |a| && a[i] == b[i]
      invariant i <= |a| && forall j :: 0 <= j < i ==> a[j] == b[j]
    {
      i := i + 1;
    }
  }

  /** At the first difference, neither answer lists the later of two rows second. */
  lemma {:induction false} AtDifference<T(!new)>(times: map<T, Option<string>>, n: nat, a: seq<T>, b: seq<T>, i: nat)
    requires IsNewest(times, n, a) && IsNewest(times, n, b)
    requires i < |a| && i < |b| && (forall j :: 0 <= j < i ==> a[j] == b[j]) && a[i] != b[i]
    ensures !Earlier(times[a[i]], times[b[i]])
  {
    if b[i] in a {
      var j :| 0 <= j < |a| && a[j] == b[i];
    }
  }

  lemma {:induction false} KeyOf<K, L>(f: map<K, L>, v: L) returns (k: K)
    requires v in f.Values
    ensures k in f && f[k] == v
  {
    k :| k in f && f[k] == v;
  }

  lemma {:induction false} InjectiveSize<K, L>(f: map<K, L>)
    requires forall j, k :: j in f && k in f && j != k ==> f[j] != f[k]
    ensures |f.Values| == |f.Keys|
  {
    if f.Keys != {} {
      var k :| k in f;
      var rest := f - {k};
      InjectiveSize(rest);
      assert f.Keys == rest.Keys + {k};
      forall v ensures v in f.Values <==> v in rest.Values + {f[k]} {
        if v in f.Values && v != f[k] {
          var j :| j in f && f[j] == v;
          assert j in rest && rest[j] == v;
        }
        if v in rest.Values {
          var j :| j in rest && rest[j] == v;
          assert f[j] == v;
        }
      }
      assert f.Values == rest.Values + {f[k]};
      assert f[k] !in rest.Values;
    }
  }

  predicate Images<K(==), L(==)>(f: map<K, L>, keys: seq<K>, images: seq<L>) {
    |images| == |keys| && forall i :: 0 <= i < |keys| ==> keys[i] in f && images[i] == f[keys[i]]
  }

  ghost predicate Injective<K(!new), L>(f: map<K, L>) {
    forall j, k :: j in f && k in f && j != k ==> f[j] != f[k]
  }

  /** The newest rows of a table are the newest ones of any copy of it under other keys. */
  lemma {:induction false} NewestImage<K(!new), L(!new)>(times: map<K, Option<string>>, copy: map<L, Option<string>>,
                                                         f: map<K, L>, n: nat, keys: seq<K>, images: seq<L>)
    requires IsNewest(times, n, keys)
    requires f.Keys == times.Keys && f.Values == copy.Keys
    requires Injective(f) && Images(f, keys, images)
    requires forall k :: k in f ==> f[k] in copy && copy[f[k]] == times[k]
    ensures IsNewest(copy, n, images)
  {
    InjectiveSize(f);
    assert |copy| == |copy.Keys| == |times.Keys| == |times|;
    forall k | k in keys ensures f[k] in images {
      var j :| 0 <= j < |keys| && keys[j] == k;
      assert images[j] == f[k];
    }
    forall i, l | 0 <= i < |images| && l in copy && l !in images ensures !Earlier(copy[images[i]], copy[l]) {
      var k := KeyOf(f, l);
      assert k !in keys;
    }
  }
}
