/** Maps, lists and the unspecified order in which Go iterates a map. */
module Collections {

  datatype Option<T> = None | Some(value: T)

  lemma Assoc<T>(a: seq<T>, b: seq<T>, c: seq<T>)
    ensures (a + b) + c == a + (b + c)
  {
  }

  // Slices, named so that proofs about longer terms need not find them.

  lemma TakeDrop<T>(s: seq<T>, n: nat)
    requires n <= |s|
    ensures s == s[..n] + s[n..]
  {
  }

  lemma DropDrop<T>(s: seq<T>, i: nat, j: nat)
    requires i + j <= |s|
    ensures s[i..][j..] == s[i + j..]
  {
  }

  lemma TakeSlice<T>(s: seq<T>, n: nat, k: nat)
    requires n <= k <= |s|
    ensures s[n..][..k - n] == s[n..k] && s[..k] == s[..n] + s[n..k]
  {
  }

  lemma SliceDrop<T>(s: seq<T>, a: nat, b: nat)
    requires a <= b <= |s|
    ensures s[a..] == s[a..b] + s[b..]
  {
  }

  lemma ConcatTail<T>(a: seq<T>, b: seq<T>)
    requires a != []
    ensures (a + b)[0] == a[0] && (a + b)[1..] == a[1..] + b
  {
  }

  lemma ConcatInit<T>(a: seq<T>, b: seq<T>)
    requires b != []
    ensures (a + b)[|a + b| - 1] == b[|b| - 1] && (a + b)[..|a + b| - 1] == a + b[..|b| - 1]
  {
  }

  lemma MemberInit<T>(s: seq<T>)
    requires s != []
    ensures forall x :: x in s <==> x in s[..|s| - 1] || x == s[|s| - 1]
  {
    assert s == s[..|s| - 1] + [s[|s| - 1]];
  }

  lemma MemberTail<T>(s: seq<T>)
    requires s != []
    ensures forall x :: x in s <==> x == s[0] || x in s[1..]
  {
    assert s == [s[0]] + s[1..];
  }

  /** An iteration order of a finite set of keys: every key, once. */
  ghost predicate IsOrder<K>(order: seq<K>, keys: set<K>) {
    && (forall k :: k in order ==> k in keys)
    && (forall k :: k in keys ==> k in order)
    && forall i, j :: 0 <= i < j < |order| ==> order[i] != order[j]
  }

  lemma OrderEmpty<K>(keys: set<K>)
    requires keys == {}
    ensures IsOrder([], keys)
  {
  }

  /** One step of an iteration that still has to visit `todo`. */
  lemma VisitNext<K>(keys: set<K>, todo: set<K>, order: seq<K>, k: K)
    requires todo <= keys && IsOrder(order, keys - todo) && k in todo
    ensures IsOrder(order + [k], keys - (todo - {k}))
    ensures (order + [k])[..|order + [k]| - 1] == order
  {
    assert keys - (todo - {k}) == (keys - todo) + {k};
  }

  lemma OrderTail<K>(order: seq<K>, keys: set<K>)
    requires IsOrder(order, keys) && order != []
    ensures order[0] in keys && IsOrder(order[1..], keys - {order[0]})
  {
    assert order == [order[0]] + order[1..];
  }

  lemma OrderSnoc<K>(order: seq<K>, keys: set<K>, k: K)
    requires IsOrder(order, keys) && k !in keys
    ensures IsOrder(order + [k], keys + {k})
  {
  }

  lemma OrderConcat<K>(a: seq<K>, ka: set<K>, b: seq<K>, kb: set<K>)
    requires IsOrder(a, ka) && IsOrder(b, kb) && ka !! kb
    ensures IsOrder(a + b, ka + kb)
  {
    var all := a + b;
    forall i, j | 0 <= i < j < |all| ensures all[i] != all[j] {
      assert all[i] in if i < |a| then ka else kb;
      assert all[j] in if j < |a| then ka else kb;
    }
  }

  lemma {:induction false} OrderExists<K>(keys: set<K>) returns (order: seq<K>)
    ensures IsOrder(order, keys)
  {
    if keys == {} {
      order := [];
    } else {
      var k :| k in keys;
      var rest := OrderExists(keys - {k});
      order := [k] + rest;
    }
  }

  lemma {:induction false} OrderLength<K>(order: seq<K>, keys: set<K>)
    requires IsOrder(order, keys)
    ensures |order| == |keys|
  {
    if order != [] {
      var k, rest := order[0], order[1..];
      assert order == [k] + rest;
      assert k !in rest;
      OrderLength(rest, keys - {k});
    } else {
      assert keys == {};
    }
  }

  lemma OrderInit<K>(order: seq<K>, keys: set<K>)
    requires IsOrder(order, keys) && order != []
    ensures IsOrder(order[..|order| - 1], keys - {order[|order| - 1]})
  {
    assert order == order[..|order| - 1] + [order[|order| - 1]];
  }

  lemma OrderCons<K>(order: seq<K>, keys: set<K>, k: K)
    requires IsOrder(order, keys) && k !in keys
    ensures IsOrder([k] + order, keys + {k})
  {
  }

  /** The list without its element k. */
  function Without<K(==)>(order: seq<K>, k: K): (r: seq<K>)
    ensures |r| <= |order| && (k in order ==> |r| < |order|)
    ensures forall x :: x in r ==> x in order
  {
    if order == [] then []
    else if order[0] == k then order[1..]
    else [order[0]] + Without(order[1..], k)
  }

  lemma {:induction false} WithoutOrder<K>(order: seq<K>, keys: set<K>, k: K)
    requires IsOrder(order, keys)
    ensures IsOrder(Without(order, k), keys - {k})
  {
    hide IsOrder;
    if order == [] {
      OrderLength(order, keys);
      assert keys - {k} == keys;
    } else {
      OrderTail(order, keys);
      if order[0] != k {
        var rest := keys - {order[0]};
        WithoutOrder(order[1..], rest, k);
        OrderCons(Without(order[1..], k), rest - {k}, order[0]);
        assert rest - {k} + {order[0]} == keys - {k};
      }
    }
  }
}
