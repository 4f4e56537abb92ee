/**
 The dietary index: an unbalanced binary search tree of user profiles keyed
 by calorie requirement. Insertion goes left on a strictly smaller key, right
 on a strictly larger one, and drops a profile whose key is already present.
 The in-order traversal yields the profiles it would report, in order.
 */
module DietaryBST {
  import opened Records

  datatype Tree = Leaf | Node(left: Tree, profile: Profile, right: Tree)

  /** The keys stored in a tree. */
  function Keys(t: Tree): set<real>
  {
    match t
    case Leaf => {}
    case Node(l, p, r) => Keys(l) + {Key(p)} + Keys(r)
  }

  /** The number of nodes of a tree. */
  function Size(t: Tree): nat
  {
    match t
    case Leaf => 0
    case Node(l, _, r) => Size(l) + 1 + Size(r)
  }

  /** The profiles stored in a tree, with their multiplicities. */
  function Profiles(t: Tree): multiset<Profile>
  {
    match t
    case Leaf => multiset{}
    case Node(l, p, r) => Profiles(l) + multiset{p} + Profiles(r)
  }

  /** The keys of a list of profiles. */
  function KeysOf(ps: seq<Profile>): set<real>
  {
    set q | q in ps :: Key(q)
  }

  /** Every key in a left subtree is strictly below its node's key, every key in a right subtree strictly above. */
  ghost predicate IsBST(t: Tree)
  {
    match t
    case Leaf => true
    case Node(l, p, r) =>
      && IsBST(l)
      && IsBST(r)
      && (forall k :: k in Keys(l) ==> k < Key(p))
      && (forall k :: k in Keys(r) ==> Key(p) < k)
  }

  /** Profiles in strictly increasing key order. */
  ghost predicate StrictlyIncreasing(ps: seq<Profile>)
  {
    forall i, j :: 0 <= i < j < |ps| ==> Key(ps[i]) < Key(ps[j])
  }

  /** Insertion of one profile, returning the new root. */
  function Insert(t: Tree, p: Profile): (r: Tree)
    ensures Keys(r) == Keys(t) + {Key(p)}
    ensures Key(p) !in Keys(t) ==> Size(r) == Size(t) + 1
  {
    match t
    case Leaf => Node(Leaf, p, Leaf)
    case Node(l, q, rt) =>
      if Key(p) < Key(q) then Node(Insert(l, p), q, rt)
      else if Key(p) > Key(q) then Node(l, q, Insert(rt, p))
      else t
  }

  /** The keys of a concatenation are the keys of its parts. */
  lemma KeysOfConcat(a: seq<Profile>, b: seq<Profile>)
    ensures KeysOf(a + b) == KeysOf(a) + KeysOf(b)
  {
  }

  /** The keys of a list are those of all but its last profile, plus the last profile's key. */
  lemma KeysOfLast(ps: seq<Profile>)
    requires |ps| > 0
    ensures KeysOf(ps) == KeysOf(ps[..|ps| - 1]) + {Key(ps[|ps| - 1])}
  {
  }

  /** Left subtree, node, right subtree: the order the traversal reports profiles in. */
  function InOrder(t: Tree): (s: seq<Profile>)
    ensures |s| == Size(t)
    ensures multiset(s) == Profiles(t)
  {
    match t
    case Leaf => []
    case Node(l, p, r) => InOrder(l) + [p] + InOrder(r)
  }

  /** The traversal reports a profile for every key of the tree, and no other keys. */
  lemma {:induction false} InOrderKeys(t: Tree)
    ensures KeysOf(InOrder(t)) == Keys(t)
  {
    match t
    case Leaf =>
    case Node(l, p, r) =>
      InOrderKeys(l);
      InOrderKeys(r);
      KeysOfConcat(InOrder(l), [p]);
      KeysOfConcat(InOrder(l) + [p], InOrder(r));
  }

  /** A profile whose key is new to the tree is added, and nothing is lost. */
  lemma {:induction false} InsertNewKey(t: Tree, p: Profile)
    requires Key(p) !in Keys(t)
    ensures multiset(InOrder(Insert(t, p))) == multiset(InOrder(t)) + multiset{p}
  {
    match t
    case Leaf =>
    case Node(l, q, r) =>
      if Key(p) < Key(q) {
        InsertNewKey(l, p);
        assert Insert(t, p) == Node(Insert(l, p), q, r);
        AddBeforeNode(InOrder(Insert(l, p)), InOrder(l), q, InOrder(r), p);
      } else {
        InsertNewKey(r, p);
        assert Insert(t, p) == Node(l, q, Insert(r, p));
        AddAfterNode(InOrder(l), q, InOrder(Insert(r, p)), InOrder(r), p);
      }
  }

  /** Multiset bookkeeping for an insertion below the left or right child of a node. */
  lemma AddBeforeNode(a: seq<Profile>, b: seq<Profile>, q: Profile, c: seq<Profile>, p: Profile)
    requires multiset(a) == multiset(b) + multiset{p}
    ensures multiset(a + [q] + c) == multiset(b + [q] + c) + multiset{p}
  {
  }

  lemma AddAfterNode(c: seq<Profile>, q: Profile, a: seq<Profile>, b: seq<Profile>, p: Profile)
    requires multiset(a) == multiset(b) + multiset{p}
    ensures multiset(c + [q] + a) == multiset(c + [q] + b) + multiset{p}
  {
  }

  /** Inserting into a search tree keeps it a search tree. */
  lemma {:induction false} InsertPreservesBST(t: Tree, p: Profile)
    requires IsBST(t)
    ensures IsBST(Insert(t, p))
  {
    match t
    case Leaf =>
    case Node(l, q, r) =>
      if Key(p) < Key(q) {
        InsertPreservesBST(l, p);
      } else if Key(p) > Key(q) {
        InsertPreservesBST(r, p);
      }
  }

  /** A profile whose key is already present is dropped: the tree is unchanged. */
  lemma {:induction false} InsertExistingKey(t: Tree, p: Profile)
    requires IsBST(t)
    requires Key(p) in Keys(t)
    ensures Insert(t, p) == t
  {
    match t
    case Node(l, q, r) =>
      if Key(p) < Key(q) {
        InsertExistingKey(l, p);
      } else if Key(p) > Key(q) {
        InsertExistingKey(r, p);
      }
  }

  /** Joining two increasing lists around a key strictly between them keeps the order strict. */
  lemma JoinIncreasing(a: seq<Profile>, p: Profile, b: seq<Profile>)
    requires StrictlyIncreasing(a) && StrictlyIncreasing(b)
    requires forall x :: x in a ==> Key(x) < Key(p)
    requires forall y :: y in b ==> Key(p) < Key(y)
    ensures StrictlyIncreasing(a + [p] + b)
  {
  }

  /** The traversal of a search tree lists its profiles by strictly increasing key. */
  lemma {:induction false} InOrderSorted(t: Tree)
    requires IsBST(t)
    ensures StrictlyIncreasing(InOrder(t))
  {
    match t
    case Leaf =>
    case Node(l, p, r) =>
      InOrderSorted(l);
      InOrderSorted(r);
      InOrderKeys(l);
      InOrderKeys(r);
      var a, b := InOrder(l), InOrder(r);
      forall x | x in a ensures Key(x) < Key(p) {
        assert Key(x) in KeysOf(a);
      }
      forall y | y in b ensures Key(p) < Key(y) {
        assert Key(y) in KeysOf(b);
      }
      JoinIncreasing(a, p, b);
  }

  /** A search tree holds exactly one node per distinct key. */
  lemma {:induction false} SizeIsKeyCount(t: Tree)
    requires IsBST(t)
    ensures Size(t) == |Keys(t)|
  {
    match t
    case Leaf =>
    case Node(l, p, r) =>
      SizeIsKeyCount(l);
      SizeIsKeyCount(r);
      assert Key(p) !in Keys(l) && Key(p) !in Keys(r);
      assert Keys(l) * Keys(r) == {} by {
        forall k | k in Keys(l) ensures k !in Keys(r) {}
      }
      assert |Keys(l) + {Key(p)}| == |Keys(l)| + 1;
      assert (Keys(l) + {Key(p)}) * Keys(r) == {};
  }

  /** The index after inserting the profiles in order into an empty tree. */
  function Build(ps: seq<Profile>): Tree
  {
    if |ps| == 0 then Leaf else Insert(Build(ps[..|ps| - 1]), ps[|ps| - 1])
  }

  /** `ps[i]` is the first profile in `ps` carrying its key. */
  ghost predicate FirstWithKey(ps: seq<Profile>, i: int)
    requires 0 <= i < |ps|
  {
    forall j :: 0 <= j < i ==> Key(ps[j]) != Key(ps[i])
  }

  /** Whatever the insertion order, the index is a search tree. */
  lemma {:induction false} BuildIsBST(ps: seq<Profile>)
    ensures IsBST(Build(ps))
  {
    if |ps| > 0 {
      BuildIsBST(ps[..|ps| - 1]);
      InsertPreservesBST(Build(ps[..|ps| - 1]), ps[|ps| - 1]);
    }
  }

  /** The index holds exactly the keys inserted into it. */
  lemma {:induction false} BuildKeys(ps: seq<Profile>)
    ensures Keys(Build(ps)) == KeysOf(ps)
  {
    if |ps| > 0 {
      var init, p := ps[..|ps| - 1], ps[|ps| - 1];
      BuildKeys(init);
      KeysOfLast(ps);
    }
  }

  /** The traversal of a built index is strictly increasing, one profile per distinct inserted key. */
  lemma BuildInOrder(ps: seq<Profile>)
    ensures StrictlyIncreasing(InOrder(Build(ps)))
    ensures |InOrder(Build(ps))| == |KeysOf(ps)|
  {
    BuildIsBST(ps);
    BuildKeys(ps);
    InOrderSorted(Build(ps));
    SizeIsKeyCount(Build(ps));
  }

  /** `q` is the first profile of `ps` with its key. */
  ghost predicate Kept(ps: seq<Profile>, q: Profile)
  {
    exists i :: 0 <= i < |ps| && ps[i] == q && FirstWithKey(ps, i)
  }

  /** Appending `p` keeps the earlier first occurrences and adds `p` exactly when its key is new. */
  lemma KeptAppend(init: seq<Profile>, p: Profile, q: Profile)
    ensures Kept(init + [p], q) <==> Kept(init, q) || (q == p && Key(p) !in KeysOf(init))
  {
    var ps, n := init + [p], |init|;
    if Kept(ps, q) {
      var i :| 0 <= i < |ps| && ps[i] == q && FirstWithKey(ps, i);
      if i < n {
        assert init[i] == q;
        assert FirstWithKey(init, i) by {
          forall j | 0 <= j < i ensures Key(init[j]) != Key(init[i]) {
            assert ps[j] == init[j];
          }
        }
      } else {
        assert Key(p) !in KeysOf(init) by {
          forall r | r in init ensures Key(r) != Key(p) {
            var j :| 0 <= j < n && init[j] == r;
            assert ps[j] == r;
          }
        }
      }
    }
    if Kept(init, q) {
      var i :| 0 <= i < n && init[i] == q && FirstWithKey(init, i);
      assert ps[i] == q;
      assert FirstWithKey(ps, i) by {
        forall j | 0 <= j < i ensures Key(ps[j]) != Key(ps[i]) {
          assert ps[j] == init[j];
        }
      }
    }
    if q == p && Key(p) !in KeysOf(init) {
      assert ps[n] == q;
      assert FirstWithKey(ps, n) by {
        forall j | 0 <= j < n ensures Key(ps[j]) != Key(ps[n]) {
          assert ps[j] == init[j];
          assert Key(init[j]) in KeysOf(init);
        }
      }
    }
  }

  /** Of several profiles sharing a key, the first inserted is the one the index keeps. */
  lemma {:induction false} BuildKeepsFirst(ps: seq<Profile>)
    ensures forall q :: q in InOrder(Build(ps)) <==> Kept(ps, q)
  {
    if |ps| > 0 {
      var init, p := ps[..|ps| - 1], ps[|ps| - 1];
      assert ps == init + [p];
      BuildKeepsFirst(init);
      BuildIsBST(init);
      BuildKeys(init);
      var t := Build(init);
      if Key(p) in Keys(t) {
        InsertExistingKey(t, p);
        forall q ensures q in InOrder(Build(ps)) <==> Kept(ps, q) {
          KeptAppend(init, p, q);
        }
      } else {
        InsertNewKey(t, p);
        var s := InOrder(Build(ps));
        forall q ensures q in s <==> Kept(ps, q) {
          KeptAppend(init, p, q);
          assert q in s <==> q in multiset(s);
          assert q in InOrder(t) <==> q in multiset(InOrder(t));
        }
      }
    }
  }

  /** Inserting requirements 1500, 1000, 1800 reports them as 1000, 1500, 1800. */
  lemma AscendingTraversalExample(a: Profile, b: Profile, c: Profile)
    requires Key(a) == 1500.0 && Key(b) == 1000.0 && Key(c) == 1800.0
    ensures Build([a, b, c]) == Node(Node(Leaf, b, Leaf), a, Node(Leaf, c, Leaf))
    ensures InOrder(Build([a, b, c])) == [b, a, c]
  {
    BuildThree(a, b, c);
    var t1 := Node(Leaf, a, Leaf);
    assert Insert(Leaf, a) == t1;
    var t2 := Node(Node(Leaf, b, Leaf), a, Leaf);
    assert Insert(t1, b) == t2;
    assert Insert(t2, c) == Node(Node(Leaf, b, Leaf), a, Node(Leaf, c, Leaf));
  }

  /** Two profiles with the same requirement: only the first is kept. */
  lemma DuplicateDroppedExample(a: Profile, b: Profile)
    requires Key(a) == Key(b)
    ensures InOrder(Build([a, b])) == [a]
  {
    assert [a, b][..1] == [a];
    assert [a][..0] == [];
    assert Build([a]) == Insert(Leaf, a) == Node(Leaf, a, Leaf);
    assert Build([a, b]) == Insert(Node(Leaf, a, Leaf), b) == Node(Leaf, a, Leaf);
  }

  /** The demo's insertion order, ascending requirements, builds a right-leaning chain traversed in the same order. */
  lemma DemoInsertionExample(a: Profile, b: Profile, c: Profile)
    requires Key(a) == 1000.0 && Key(b) == 1500.0 && Key(c) == 1800.0
    ensures Build([a, b, c]) == Node(Leaf, a, Node(Leaf, b, Node(Leaf, c, Leaf)))
    ensures InOrder(Build([a, b, c])) == [a, b, c]
  {
    BuildThree(a, b, c);
    DemoChain(a, b, c);
  }

  lemma DemoChain(a: Profile, b: Profile, c: Profile)
    requires Key(a) < Key(b) < Key(c)
    ensures Insert(Insert(Insert(Leaf, a), b), c) == Node(Leaf, a, Node(Leaf, b, Node(Leaf, c, Leaf)))
  {
    var tb := Node(Leaf, b, Leaf);
    assert Insert(Leaf, a) == Node(Leaf, a, Leaf);
    assert Insert(Node(Leaf, a, Leaf), b) == Node(Leaf, a, tb);
    assert Insert(tb, c) == Node(Leaf, b, Node(Leaf, c, Leaf));
  }

  /** Building from three profiles is three inserts in order. */
  lemma BuildThree(a: Profile, b: Profile, c: Profile)
    ensures Build([a, b, c]) == Insert(Insert(Insert(Leaf, a), b), c)
  {
    assert [a, b, c][..2] == [a, b];
    assert [a, b][..1] == [a];
    assert [a][..0] == [];
    assert Build([a]) == Insert(Leaf, a);
    assert Build([a, b]) == Insert(Build([a]), b);
  }
}
