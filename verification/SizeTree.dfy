/** Binary search trees of buffer addresses, ordered by a key that is looked up
    outside the tree: the size tree's keys are computed from the buffer list,
    so they can change while nodes sit in the tree. */
module SizeTree {
  import opened Words

  datatype Tree = Leaf | Node(left: Tree, at: nat, right: Tree)

  type Keys = map<nat, nat>

  function InOrder(t: Tree): seq<nat> {
    match t
    case Leaf => []
    case Node(l, a, r) => InOrder(l) + [a] + InOrder(r)
  }

  ghost predicate Keyed(s: seq<nat>, keys: Keys) {
    forall i :: 0 <= i < |s| ==> s[i] in keys
  }

  ghost predicate Sorted(s: seq<nat>, keys: Keys)
    requires Keyed(s, keys)
  {
    forall i, j :: 0 <= i < j < |s| ==> keys[s[i]] <= keys[s[j]]
  }

  /** Holds of a tree that stores exactly `members`, once each, in key order. */
  ghost predicate Ordered(t: Tree, keys: Keys, members: set<nat>) {
    var s := InOrder(t);
    && Keyed(s, keys)
    && Sorted(s, keys)
    && Distinct(s)
    && (forall a :: a in members <==> a in s)
  }

  /** The descent of the insertion loops: left below a larger key, right otherwise. */
  function Insert(t: Tree, a: nat, keys: Keys): Tree
    requires Keyed(InOrder(t), keys) && a in keys
  {
    match t
    case Leaf => Node(Leaf, a, Leaf)
    case Node(l, b, r) =>
      assert InOrder(t)[|InOrder(l)|] == b;
      assert forall i :: 0 <= i < |InOrder(l)| ==> InOrder(t)[i] == InOrder(l)[i];
      assert forall i :: 0 <= i < |InOrder(r)| ==> InOrder(t)[|InOrder(l)| + 1 + i] == InOrder(r)[i];
      if keys[a] < keys[b] then Node(Insert(l, a, keys), b, r)
      else Node(l, b, Insert(r, a, keys))
  }

  /** Removing a node that is known by its address. */
  function Erase(t: Tree, a: nat): Tree {
    match t
    case Leaf => Leaf
    case Node(l, b, r) =>
      if a == b then Join(l, r)
      else if a in InOrder(l) then Node(Erase(l, a), b, r)
      else Node(l, b, Erase(r, a))
  }

  function Join(l: Tree, r: Tree): (t: Tree)
    ensures InOrder(t) == InOrder(l) + InOrder(r)
  {
    match r
    case Leaf => l
    case Node(rl, b, rr) => Node(Join(l, rl), b, rr)
  }

  /** Position k is where a new key belongs: smaller or equal keys before, larger ones after. */
  ghost predicate SplitsAt(s: seq<nat>, k: nat, a: nat, keys: Keys)
    requires Keyed(s, keys) && a in keys
  {
    && k <= |s|
    && (forall i :: 0 <= i < k ==> keys[s[i]] <= keys[a])
    && (forall i :: k <= i < |s| ==> keys[a] < keys[s[i]])
  }

  lemma SortedParts(l: seq<nat>, b: nat, r: seq<nat>, keys: Keys)
    requires Keyed(l + [b] + r, keys) && Sorted(l + [b] + r, keys)
    ensures Keyed(l, keys) && Sorted(l, keys) && Keyed(r, keys) && Sorted(r, keys) && b in keys
    ensures forall i :: 0 <= i < |l| ==> keys[l[i]] <= keys[b]
    ensures forall i :: 0 <= i < |r| ==> keys[b] <= keys[r[i]]
  {
    var s := l + [b] + r;
    assert forall i :: 0 <= i < |l| ==> s[i] == l[i];
    assert s[|l|] == b;
    assert forall i :: 0 <= i < |r| ==> s[|l| + 1 + i] == r[i];
  }

  lemma SplitsLeft(l: seq<nat>, b: nat, r: seq<nat>, k: nat, a: nat, keys: Keys)
    requires Keyed(l + [b] + r, keys) && Sorted(l + [b] + r, keys) && a in keys && b in keys
    requires Keyed(l, keys) && SplitsAt(l, k, a, keys) && keys[a] < keys[b]
    ensures var s := l + [b] + r;
            SplitsAt(s, k, a, keys) && s[..k] + [a] + s[k..] == l[..k] + [a] + l[k..] + [b] + r
  {
    var s := l + [b] + r;
    SortedParts(l, b, r, keys);
    assert s[..k] == l[..k] && s[k..] == l[k..] + [b] + r;
    forall i | k <= i < |s| ensures keys[a] < keys[s[i]] {
      if i < |l| { assert s[i] == l[i]; } else if i > |l| { assert s[i] == r[i - |l| - 1]; }
    }
  }

  lemma SplitsRight(l: seq<nat>, b: nat, r: seq<nat>, k: nat, a: nat, keys: Keys)
    requires Keyed(l + [b] + r, keys) && Sorted(l + [b] + r, keys) && a in keys && b in keys
    requires Keyed(r, keys) && SplitsAt(r, k, a, keys) && keys[b] <= keys[a]
    ensures var s, k' := l + [b] + r, |l| + 1 + k;
            SplitsAt(s, k', a, keys) && s[..k'] + [a] + s[k'..] == l + [b] + (r[..k] + [a] + r[k..])
  {
    var s, k' := l + [b] + r, |l| + 1 + k;
    SortedParts(l, b, r, keys);
    assert s[..k'] == l + [b] + r[..k] && s[k'..] == r[k..];
    forall i | 0 <= i < k' ensures keys[s[i]] <= keys[a] {
      if i < |l| { assert s[i] == l[i]; } else if i > |l| { assert s[i] == r[i - |l| - 1]; }
    }
    forall i | k' <= i < |s| ensures keys[a] < keys[s[i]] {
      assert s[i] == r[i - |l| - 1];
    }
  }

  /** Insertion puts the new address at one place of the order and keeps the order sorted. */
  lemma {:induction false} InsertSplices(t: Tree, a: nat, keys: Keys) returns (k: nat)
    requires Keyed(InOrder(t), keys) && a in keys && Sorted(InOrder(t), keys)
    ensures SplitsAt(InOrder(t), k, a, keys)
    ensures InOrder(Insert(t, a, keys)) == InOrder(t)[..k] + [a] + InOrder(t)[k..]
  {
    match t
    case Leaf => k := 0;
    case Node(l, b, r) =>
      SortedParts(InOrder(l), b, InOrder(r), keys);
      if keys[a] < keys[b] {
        k := InsertSplices(l, a, keys);
        SplitsLeft(InOrder(l), b, InOrder(r), k, a, keys);
      } else {
        var k' := InsertSplices(r, a, keys);
        SplitsRight(InOrder(l), b, InOrder(r), k', a, keys);
        k := |InOrder(l)| + 1 + k';
      }
  }

  lemma SpliceFacts(s: seq<nat>, k: nat, a: nat, s': seq<nat>)
    requires k <= |s| && s' == s[..k] + [a] + s[k..]
    ensures forall i :: 0 <= i < |s'| ==> s'[i] == if i < k then s[i] else if i == k then a else s[i - 1]
    ensures forall x :: x in s' <==> x == a || x in s
  {
    assert s == s[..k] + s[k..];
  }

  lemma RemoveFacts(s: seq<nat>, k: nat, s': seq<nat>)
    requires k < |s| && s' == s[..k] + s[k + 1..] && Distinct(s)
    ensures forall i :: 0 <= i < |s'| ==> s'[i] == if i < k then s[i] else s[i + 1]
    ensures forall x :: x in s' <==> x in s && x != s[k]
  {
    forall x ensures x in s' <==> x in s && x != s[k] {
      if x in s && x != s[k] {
        var i :| 0 <= i < |s| && s[i] == x;
        assert s'[if i < k then i else i - 1] == x;
      }
      if x in s' {
        var i :| 0 <= i < |s'| && s'[i] == x;
        assert s[if i < k then i else i + 1] == x;
      }
    }
  }

  lemma SpliceSorted(s: seq<nat>, k: nat, a: nat, s': seq<nat>, keys: Keys)
    requires k <= |s| && s' == s[..k] + [a] + s[k..]
    requires Keyed(s, keys) && Sorted(s, keys) && Distinct(s) && a in keys && a !in s
    requires SplitsAt(s, k, a, keys)
    ensures Keyed(s', keys) && Sorted(s', keys) && Distinct(s')
  {
    SpliceFacts(s, k, a, s');
  }

  lemma InsertOrdered(t: Tree, a: nat, keys: Keys, members: set<nat>)
    requires Ordered(t, keys, members) && a in keys && a !in members
    ensures Ordered(Insert(t, a, keys), keys, members + {a})
  {
    var k := InsertSplices(t, a, keys);
    SpliceFacts(InOrder(t), k, a, InOrder(Insert(t, a, keys)));
    SpliceSorted(InOrder(t), k, a, InOrder(Insert(t, a, keys)), keys);
  }

  lemma RemoveFromConcat(l: seq<nat>, b: nat, r: seq<nat>, k: nat)
    requires k < |l| + 1 + |r|
    ensures var s := l + [b] + r;
            s[..k] + s[k + 1..] == if k < |l| then l[..k] + l[k + 1..] + [b] + r
                                   else if k == |l| then l + r
                                   else l + [b] + (r[..k - |l| - 1] + r[k - |l|..])
  {
    var s := l + [b] + r;
    if k < |l| {
      assert s[..k] == l[..k] && s[k + 1..] == l[k + 1..] + [b] + r;
    } else if k == |l| {
      assert s[..k] == l && s[k + 1..] == r;
    } else {
      assert s[..k] == l + [b] + r[..k - |l| - 1] && s[k + 1..] == r[k - |l|..];
    }
  }

  lemma DistinctParts(l: seq<nat>, b: nat, r: seq<nat>)
    requires Distinct(l + [b] + r)
    ensures Distinct(l) && Distinct(r) && b !in l && b !in r
    ensures forall x :: x in l + [b] + r <==> x in l || x == b || x in r
  {
    var s := l + [b] + r;
    assert forall i :: 0 <= i < |l| ==> s[i] == l[i];
    assert s[|l|] == b;
    assert forall i :: 0 <= i < |r| ==> s[|l| + 1 + i] == r[i];
  }

  lemma {:induction false} EraseRemoves(t: Tree, a: nat) returns (k: nat)
    requires a in InOrder(t) && Distinct(InOrder(t))
    ensures k < |InOrder(t)| && InOrder(t)[k] == a
    ensures InOrder(Erase(t, a)) == InOrder(t)[..k] + InOrder(t)[k + 1..]
  {
    hide Distinct, Join;
    var l, b, r := InOrder(t.left), t.at, InOrder(t.right);
    DistinctParts(l, b, r);
    if a == b {
      k := |l|;
      RemoveFromConcat(l, b, r, k);
    } else if a in l {
      k := EraseRemoves(t.left, a);
      RemoveFromConcat(l, b, r, k);
      assert InOrder(Erase(t, a)) == InOrder(Erase(t.left, a)) + [b] + r;
    } else {
      var k' := EraseRemoves(t.right, a);
      k := |l| + 1 + k';
      RemoveFromConcat(l, b, r, k);
      assert InOrder(Erase(t, a)) == l + [b] + InOrder(Erase(t.right, a));
    }
  }

  lemma EraseOrdered(t: Tree, a: nat, keys: Keys, members: set<nat>)
    requires Ordered(t, keys, members) && a in members
    ensures Ordered(Erase(t, a), keys, members - {a})
  {
    var k := EraseRemoves(t, a);
    RemoveFacts(InOrder(t), k, InOrder(Erase(t, a)));
  }

  /** What the best-fit descent guarantees about the node it picked. */
  ghost predicate BestFit(t: Tree, keys: Keys, want: nat, best: nat)
    requires Keyed(InOrder(t), keys)
  {
    var s := InOrder(t);
    exists k :: 0 <= k < |s| && s[k] == best && want <= keys[best]
                && (forall i :: 0 <= i < k ==> keys[s[i]] < want || keys[s[i]] == want == keys[best])
                && (forall i :: k < i < |s| ==> keys[best] <= keys[s[i]])
  }

  /** No member that is large enough is smaller than the best fit. */
  lemma BestFitSmallest(t: Tree, keys: Keys, members: set<nat>, want: nat, best: nat, x: nat)
    requires Ordered(t, keys, members) && BestFit(t, keys, want, best) && x in members
    ensures best in members && x in keys && best in keys && want <= keys[best]
    ensures want <= keys[x] ==> keys[best] <= keys[x]
  {
    var s := InOrder(t);
    var k :| 0 <= k < |s| && s[k] == best && want <= keys[best]
             && (forall i :: 0 <= i < k ==> keys[s[i]] < want || keys[s[i]] == want == keys[best])
             && (forall i :: k < i < |s| ==> keys[best] <= keys[s[i]]);
    assert best in s;
    var i :| 0 <= i < |s| && s[i] == x;
  }

  /** The keys after a split: the chosen node's shrank to the request, the others are as before. */
  ghost predicate Shrunk(keys: Keys, keys': Keys, members: set<nat>, want: nat, best: nat) {
    && best in keys' && keys'[best] == want
    && (forall a :: a in members && a != best ==> a in keys && a in keys' && keys'[a] == keys[a])
  }

  /** Shrinking the chosen node's key to the requested size, while the node is
      still in the tree, leaves the tree sorted. */
  lemma StaleKeySorted(t: Tree, keys: Keys, keys': Keys, members: set<nat>, want: nat, best: nat)
    requires Ordered(t, keys, members) && BestFit(t, keys, want, best)
    requires Shrunk(keys, keys', members, want, best)
    ensures best in members
    ensures Ordered(t, keys', members)
  {
    var s := InOrder(t);
    var k :| 0 <= k < |s| && s[k] == best && want <= keys[best]
             && (forall i :: 0 <= i < k ==> keys[s[i]] < want || keys[s[i]] == want == keys[best])
             && (forall i :: k < i < |s| ==> keys[best] <= keys[s[i]]);
    assert best in s;
    assert forall i :: 0 <= i < |s| && i != k ==> s[i] in members && keys'[s[i]] == keys[s[i]];
  }

  /** So the remainder is inserted into a sorted tree, and erasing the chosen node
      afterwards gives the sorted tree of the free buffers that are left. */
  lemma StaleKeySplit(t: Tree, keys: Keys, keys': Keys, members: set<nat>, want: nat, best: nat, rest: nat)
    requires Ordered(t, keys, members) && BestFit(t, keys, want, best)
    requires Shrunk(keys, keys', members, want, best)
    requires rest !in members && rest in keys'
    ensures best in members && Keyed(InOrder(t), keys')
    ensures Ordered(Erase(Insert(t, rest, keys'), best), keys', members - {best} + {rest})
  {
    StaleKeySorted(t, keys, keys', members, want, best);
    InsertOrdered(t, rest, keys', members);
    EraseOrdered(Insert(t, rest, keys'), best, keys', members + {rest});
    assert members + {rest} - {best} == members - {best} + {rest};
  }

  /** Ordered only reads the keys of the tree's own members. */
  lemma OrderedFrame(t: Tree, keys: Keys, keys': Keys, members: set<nat>)
    requires Ordered(t, keys, members)
    requires forall a :: a in members ==> a in keys' && a in keys && keys'[a] == keys[a]
    ensures Ordered(t, keys', members)
  {
    var s := InOrder(t);
    assert forall i :: 0 <= i < |s| ==> s[i] in members;
  }

  ghost predicate SameKeys(keys: Keys, keys': Keys, members: set<nat>) {
    forall a :: a in members ==> a in keys && a in keys' && keys'[a] == keys[a]
  }

  /** One member leaves; the keys of the others stay. */
  lemma EraseRekeyed(t: Tree, keys: Keys, keys': Keys, members: set<nat>, n: nat)
    requires Ordered(t, keys, members) && n in members && SameKeys(keys, keys', members - {n})
    ensures Ordered(Erase(t, n), keys', members - {n})
  {
    EraseOrdered(t, n, keys, members);
    OrderedFrame(Erase(t, n), keys, keys', members - {n});
  }

  /** One member leaves and comes back with a new key; the keys of the others stay. */
  lemma Reinsert(t: Tree, keys: Keys, keys': Keys, members: set<nat>, p: nat)
    requires Ordered(t, keys, members) && p in members && SameKeys(keys, keys', members - {p}) && p in keys'
    ensures Keyed(InOrder(Erase(t, p)), keys')
    ensures Ordered(Insert(Erase(t, p), p, keys'), keys', members)
  {
    EraseRekeyed(t, keys, keys', members, p);
    InsertOrdered(Erase(t, p), p, keys', members - {p});
    assert members - {p} + {p} == members;
  }

  /** A new member joins. */
  lemma Join1(t: Tree, keys: Keys, members: set<nat>, p: nat)
    requires Ordered(t, keys, members - {p}) && p in members && p in keys
    ensures Keyed(InOrder(t), keys)
    ensures Ordered(Insert(t, p, keys), keys, members)
  {
    InsertOrdered(t, p, keys, members - {p});
    assert members - {p} + {p} == members;
  }
}
