/**
 * The element search that picks the leaf type of a (nested) list: a depth-first, pre-order
 * walk that recurses only into `list` objects, returns the first element that is neither a list
 * nor `None`, and keeps one set of visited list identities for the whole walk.
 */
module ListSearch {
  import opened Proto

  /** What the search finds: an element, nothing (every leaf is `None`), or a revisited list. */
  datatype Found = Element(v: Value) | NoElement | Cyclic

  /** The outcome together with the visited set as the walk leaves it. */
  datatype Search = Search(found: Found, seen: set<NodeId>)

  /** The element is one a list stores, neither `None` nor a `list`. */
  predicate IsLeaf(h: Heap, v: Value) {
    !v.Null? && !v.ListRef? && exists n :: n in h && v in h[n]
  }

  /**
   * The walk of the list `id` with the identities in `seen` already visited: meeting a visited
   * list is Cyclic, otherwise `id` is marked and its elements are walked in order.
   */
  function FindIn(h: Heap, id: NodeId, seen: set<NodeId>): (r: Search)
    requires WellFormed(h) && id in h
    ensures seen <= r.seen
    ensures r.found.Element? ==> IsLeaf(h, r.found.v)
    ensures id in seen <==> r == Search(Cyclic, seen)
    decreases h.Keys - seen, 1
  {
    if id in seen then Search(Cyclic, seen) else FindItems(h, h[id], seen + {id})
  }

  /**
   * The loop over `items`: a `list` element is searched with the shared visited set, and the walk
   * goes on past it only when that search found nothing; `None` is skipped; anything else is the
   * result.
   */
  function FindItems(h: Heap, items: seq<Value>, seen: set<NodeId>): (r: Search)
    requires WellFormed(h) && ItemsIn(h, items)
    ensures seen <= r.seen
    ensures r.found.Element? ==> r.found.v in items || IsLeaf(h, r.found.v)
    ensures r.found.Element? ==> !r.found.v.Null? && !r.found.v.ListRef?
    ensures r.found.NoElement? ==> forall v | v in items :: v.Null? || v.ListRef?
    decreases h.Keys - seen, 2, |items|
  {
    if items == [] then Search(NoElement, seen)
    else
      match items[0]
      case Null => FindItems(h, items[1..], seen)
      case Scalar(_, _) => Search(Element(items[0]), seen)
      case ListRef(c) =>
        assert items[0] in items;
        var sub := FindIn(h, c, seen);
        if sub.found.NoElement? then FindItems(h, items[1..], sub.seen) else sub
  }

  /** Reference definition for a list with no nested lists: its first non-`None` element. */
  function FirstNonNull(items: seq<Value>): (r: Found)
    ensures r.Element? ==> r.v in items && !r.v.Null?
    ensures r.NoElement? <==> forall v | v in items :: v.Null?
    ensures !r.Cyclic?
  {
    if items == [] then NoElement
    else if !items[0].Null? then Element(items[0])
    else FirstNonNull(items[1..])
  }

  /** On a list without nested lists the search is the first non-`None` element, and marks nothing. */
  lemma {:induction false} FlatListFindsFirstNonNull(h: Heap, items: seq<Value>, seen: set<NodeId>)
    requires WellFormed(h) && ItemsIn(h, items)
    requires forall v | v in items :: !v.ListRef?
    ensures FindItems(h, items, seen) == Search(FirstNonNull(items), seen)
  {
    if items != [] {
      assert items[0] in items;
      FlatListFindsFirstNonNull(h, items[1..], seen);
    }
  }

  /**
   * A list whose first element that is not `None` is the list itself (so it meets its own
   * identity again before any leaf) makes the search report a cycle.
   */
  lemma {:induction false} SelfReferenceIsCyclic(h: Heap, id: NodeId, k: nat)
    requires WellFormed(h) && id in h
    requires k < |h[id]| && h[id][k] == ListRef(id)
    requires forall j | 0 <= j < k :: h[id][j].Null?
    ensures FindIn(h, id, {}).found == Cyclic
  {
    assert {} + {id} == {id};
    NullPrefixThenSelf(h, h[id], k, id, {id});
  }

  lemma {:induction false} NullPrefixThenSelf(h: Heap, items: seq<Value>, k: nat, id: NodeId, seen: set<NodeId>)
    requires WellFormed(h) && ItemsIn(h, items) && id in seen
    requires k < |items| && items[k] == ListRef(id)
    requires forall j | 0 <= j < k :: items[j].Null?
    ensures FindItems(h, items, seen).found == Cyclic
  {
    if k > 0 {
      assert items[0].Null?;
      NullPrefixThenSelf(h, items[1..], k - 1, id, seen);
    } else {
      assert items[0] in items;
      assert id in h;
    }
  }

  /**
   * The searched list is marked: `id` is in the visited set the search returns, whether it was
   * entered now or had already been visited.
   */
  lemma {:induction false} SearchMarksRoot(h: Heap, id: NodeId, seen: set<NodeId>)
    requires WellFormed(h) && id in h
    ensures id in FindIn(h, id, seen).seen
  {
    if id !in seen {
      assert seen + {id} <= FindItems(h, h[id], seen + {id}).seen;
    }
  }

  /**
   * The visited set is never unwound: a list that holds the same all-`None` list twice is
   * reported as cyclic although it contains no cycle ...
   */
  lemma SharedNullSublistIsCyclic()
    ensures FindIn(map[0 := [ListRef(1), ListRef(1)], 1 := [Null]], 0, {}).found == Cyclic
  {
    var h := map[0 := [ListRef(1), ListRef(1)], 1 := [Null]];
    var items := [ListRef(1), ListRef(1)];
    assert h[0] == items;
    assert WellFormed(h) by {
      forall n | n in h ensures ItemsIn(h, h[n]) {
        assert n == 0 || n == 1;
      }
    }
    assert {} + {0} == {0} && {0} + {1} == {0, 1};
    var first := FindIn(h, 1, {0});
    assert first == FindItems(h, [Null], {0, 1});
    assert [Null][1..] == [];
    assert first == Search(NoElement, {0, 1});
    assert items[1..] == [ListRef(1)];
    assert FindItems(h, items, {0}) == FindItems(h, [ListRef(1)], {0, 1});
    assert FindIn(h, 1, {0, 1}).found == Cyclic;
  }

  /** ... while the same sharing with a non-`None` leaf is found before the second visit. */
  lemma SharedSublistWithLeafIsFound()
    ensures FindIn(map[0 := [ListRef(1), ListRef(1)], 1 := [Scalar("int", "1")]], 0, {}).found
            == Element(Scalar("int", "1"))
  {
    var h := map[0 := [ListRef(1), ListRef(1)], 1 := [Scalar("int", "1")]];
    assert WellFormed(h) by {
      forall n | n in h ensures ItemsIn(h, h[n]) {
        assert n == 0 || n == 1;
      }
    }
    assert {} + {0} == {0} && {0} + {1} == {0, 1};
    assert FindIn(h, 1, {0}) == FindItems(h, [Scalar("int", "1")], {0, 1});
    assert FindIn(h, 1, {0}).found == Element(Scalar("int", "1"));
    assert FindIn(h, 0, {}) == FindItems(h, [ListRef(1), ListRef(1)], {0});
  }

  /** The same element search meeting a cycle through a nested list: `L = [[L]]` raises DataError. */
  lemma NestedSelfReferenceIsCyclic()
    ensures FindIn(map[0 := [ListRef(1)], 1 := [ListRef(0)]], 0, {}).found == Cyclic
  {
    var h := map[0 := [ListRef(1)], 1 := [ListRef(0)]];
    assert WellFormed(h) by {
      forall n | n in h ensures ItemsIn(h, h[n]) {
        assert n == 0 || n == 1;
      }
    }
    assert {} + {0} == {0} && {0} + {1} == {0, 1};
    assert FindIn(h, 0, {0, 1}) == Search(Cyclic, {0, 1});
    assert FindIn(h, 1, {0}) == FindItems(h, [ListRef(0)], {0, 1});
    assert FindIn(h, 0, {}) == FindItems(h, [ListRef(1)], {0});
  }

  // ---------------------------------------------------------------------------------------------
  // Reachability: whatever the search finds is stored in a list reachable from the one searched.

  /** `p` is a chain of lists of `h`, each one stored as an element of the list before it. */
  predicate IsPath(h: Heap, p: seq<NodeId>) {
    && |p| > 0
    && (forall k | 0 <= k < |p| :: p[k] in h)
    && forall k | 0 <= k < |p| - 1 :: ListRef(p[k + 1]) in h[p[k]]
  }

  /** The list `b` is `a` or is nested, at any depth, inside `a`. */
  ghost predicate Reachable(h: Heap, a: NodeId, b: NodeId) {
    exists p :: IsPath(h, p) && p[0] == a && p[|p| - 1] == b
  }

  /** An element found by searching the list `id` is stored in a list reachable from `id`. */
  lemma {:induction false} FoundIsReachable(h: Heap, id: NodeId, seen: set<NodeId>)
    requires WellFormed(h) && id in h
    ensures var r := FindIn(h, id, seen);
      r.found.Element? ==> exists m :: Reachable(h, id, m) && r.found.v in h[m]
    decreases h.Keys - seen, 1
  {
    if id !in seen {
      FoundInItemsIsReachable(h, h[id], seen + {id});
      var r := FindItems(h, h[id], seen + {id});
      if r.found.Element? {
        if r.found.v in h[id] {
          assert IsPath(h, [id]);
          assert Reachable(h, id, id);
        } else {
          var c, m :| ListRef(c) in h[id] && Reachable(h, c, m) && r.found.v in h[m];
          var p :| IsPath(h, p) && p[0] == c && p[|p| - 1] == m;
          var q := [id] + p;
          forall k | 0 <= k < |q| - 1
            ensures q[k] in h && ListRef(q[k + 1]) in h[q[k]]
          {
            if k > 0 {
              assert q[k] == p[k - 1] && q[k + 1] == p[k];
            }
          }
          assert IsPath(h, q);
          assert Reachable(h, id, m);
        }
      }
    }
  }

  /** An element found in `items` is one of them, or is stored in a list reachable from one of them. */
  lemma {:induction false} FoundInItemsIsReachable(h: Heap, items: seq<Value>, seen: set<NodeId>)
    requires WellFormed(h) && ItemsIn(h, items)
    ensures var r := FindItems(h, items, seen);
      r.found.Element? ==>
        r.found.v in items || exists c, m :: ListRef(c) in items && Reachable(h, c, m) && r.found.v in h[m]
    decreases h.Keys - seen, 2, |items|
  {
    if items != [] {
      assert items[0] in items;
      match items[0]
      case Null =>
        FoundInItemsIsReachable(h, items[1..], seen);
      case Scalar(_, _) =>
      case ListRef(c) =>
        FoundIsReachable(h, c, seen);
        var sub := FindIn(h, c, seen);
        if sub.found.NoElement? {
          FoundInItemsIsReachable(h, items[1..], sub.seen);
        } else if sub.found.Element? {
          var m :| Reachable(h, c, m) && sub.found.v in h[m];
          assert ListRef(c) in items;
        }
    }
  }

  // ---------------------------------------------------------------------------------------------
  // Pre-order: on a list in which no list is met twice, the search finds the first element that
  // is not `None` in the pre-order flattening of the nested lists.

  /**
   * `rank` orders the lists it names: each is a list of `h`, and every list stored in it is named
   * with a smaller rank. Lists outside `rank` are unconstrained, so a list with a rank reaches no
   * cycle, whatever the rest of the heap holds.
   */
  predicate Ranked(h: Heap, rank: map<NodeId, nat>) {
    forall n | n in rank :: n in h && forall v | v in h[n] && v.ListRef? :: v.id in rank && rank[v.id] < rank[n]
  }

  /** Every list stored in `items` ranks below `bound`. */
  predicate Below(rank: map<NodeId, nat>, items: seq<Value>, bound: nat) {
    forall v | v in items && v.ListRef? :: v.id in rank && rank[v.id] < bound
  }

  /** The elements of `items` in pre-order, nested lists expanded in place: `None`s and leaves only. */
  function Flat(h: Heap, rank: map<NodeId, nat>, bound: nat, items: seq<Value>): (r: seq<Value>)
    requires WellFormed(h) && Ranked(h, rank) && ItemsIn(h, items) && Below(rank, items, bound)
    ensures forall v | v in r :: !v.ListRef?
    decreases bound, |items|
  {
    if items == [] then []
    else
      assert items[0] in items;
      var rest := Flat(h, rank, bound, items[1..]);
      match items[0]
      case ListRef(c) => Flat(h, rank, rank[c], h[c]) + rest
      case _ => [items[0]] + rest
  }

  /** The lists a complete pre-order walk of `items` enters, in the order it enters them. */
  function Walk(h: Heap, rank: map<NodeId, nat>, bound: nat, items: seq<Value>): seq<NodeId>
    requires WellFormed(h) && Ranked(h, rank) && ItemsIn(h, items) && Below(rank, items, bound)
    decreases bound, |items|
  {
    if items == [] then []
    else
      assert items[0] in items;
      var rest := Walk(h, rank, bound, items[1..]);
      match items[0]
      case ListRef(c) => [c] + Walk(h, rank, rank[c], h[c]) + rest
      case _ => rest
  }

  /** The pre-order flattening of the list `id`. */
  function Flatten(h: Heap, rank: map<NodeId, nat>, id: NodeId): seq<Value>
    requires WellFormed(h) && Ranked(h, rank) && id in rank
  {
    Flat(h, rank, rank[id], h[id])
  }

  /** The lists a complete walk of `id` enters, `id` first. */
  function ListsOf(h: Heap, rank: map<NodeId, nat>, id: NodeId): seq<NodeId>
    requires WellFormed(h) && Ranked(h, rank) && id in rank
  {
    [id] + Walk(h, rank, rank[id], h[id])
  }

  predicate Distinct(s: seq<NodeId>) {
    forall i, j | 0 <= i < j < |s| :: s[i] != s[j]
  }

  lemma DistinctSplit(a: seq<NodeId>, b: seq<NodeId>)
    requires Distinct(a + b)
    ensures Distinct(a) && Distinct(b) && forall x | x in a :: x !in b
  {
    forall i, j | 0 <= i < j < |b|
      ensures b[i] != b[j]
    {
      assert b[i] == (a + b)[|a| + i] && b[j] == (a + b)[|a| + j];
    }
    forall i, j | 0 <= i < |a| && 0 <= j < |b|
      ensures a[i] != b[j]
    {
      assert a[i] == (a + b)[i] && b[j] == (a + b)[|a| + j];
    }
    forall i, j | 0 <= i < j < |a|
      ensures a[i] != a[j]
    {
      assert a[i] == (a + b)[i] && a[j] == (a + b)[j];
    }
  }

  /** The first non-`None` element of a concatenation is that of the first part, if it has one. */
  lemma {:induction false} FirstNonNullAppend(a: seq<Value>, b: seq<Value>)
    ensures FirstNonNull(a + b) == if FirstNonNull(a).NoElement? then FirstNonNull(b) else FirstNonNull(a)
  {
    if a != [] {
      assert (a + b)[0] == a[0] && (a + b)[1..] == a[1..] + b;
      FirstNonNullAppend(a[1..], b);
    } else {
      assert a + b == b;
    }
  }

  /** The lists named in `s`. */
  function Elems(s: seq<NodeId>): set<NodeId> {
    set n | n in s
  }

  lemma ElemsAppend(a: seq<NodeId>, b: seq<NodeId>)
    ensures Elems(a + b) == Elems(a) + Elems(b)
  {
  }

  /**
   * On `items` whose walk enters no list twice and none already visited, the search finds the
   * first non-`None` element of the flattening; when there is none it has visited exactly the
   * lists of the walk.
   */
  lemma {:induction false} FindItemsInPreOrder(h: Heap, rank: map<NodeId, nat>, bound: nat,
                                               items: seq<Value>, seen: set<NodeId>)
    requires WellFormed(h) && Ranked(h, rank) && ItemsIn(h, items) && Below(rank, items, bound)
    requires Distinct(Walk(h, rank, bound, items))
    requires forall n | n in Walk(h, rank, bound, items) :: n !in seen
    ensures FindItems(h, items, seen).found == FirstNonNull(Flat(h, rank, bound, items))
    ensures FindItems(h, items, seen).found.NoElement? ==>
      FindItems(h, items, seen).seen == seen + Elems(Walk(h, rank, bound, items))
    decreases bound, |items|, 1
  {
    if items != [] {
      assert items[0] in items;
      var rest := items[1..];
      var flatRest := Flat(h, rank, bound, rest);
      match items[0]
      case Null =>
        FindItemsInPreOrder(h, rank, bound, rest, seen);
        assert Flat(h, rank, bound, items) == [Null] + flatRest;
        assert ([Null] + flatRest)[1..] == flatRest;
      case Scalar(_, _) =>
        assert Flat(h, rank, bound, items) == [items[0]] + flatRest;
      case ListRef(c) =>
        NestedListInPreOrder(h, rank, bound, items, seen);
    }
  }

  /** The step of `FindItemsInPreOrder` for `items` starting with a list. */
  lemma {:induction false} NestedListInPreOrder(h: Heap, rank: map<NodeId, nat>, bound: nat,
                                                items: seq<Value>, seen: set<NodeId>)
    requires WellFormed(h) && Ranked(h, rank) && ItemsIn(h, items) && Below(rank, items, bound)
    requires items != [] && items[0].ListRef?
    requires Distinct(Walk(h, rank, bound, items))
    requires forall n | n in Walk(h, rank, bound, items) :: n !in seen
    ensures FindItems(h, items, seen).found == FirstNonNull(Flat(h, rank, bound, items))
    ensures FindItems(h, items, seen).found.NoElement? ==>
      FindItems(h, items, seen).seen == seen + Elems(Walk(h, rank, bound, items))
    decreases bound, |items|, 0
  {
    assert items[0] in items;
    var c := items[0].id;
    var rest := items[1..];
    var wc := Walk(h, rank, rank[c], h[c]);
    var wr := Walk(h, rank, bound, rest);
    assert Walk(h, rank, bound, items) == [c] + wc + wr;
    assert Flat(h, rank, bound, items) == Flat(h, rank, rank[c], h[c]) + Flat(h, rank, bound, rest);
    DistinctSplit([c] + wc, wr);
    DistinctSplit([c], wc);
    assert c in [c] + wc;
    FindItemsInPreOrder(h, rank, rank[c], h[c], seen + {c});
    var sub := FindIn(h, c, seen);
    assert sub == FindItems(h, h[c], seen + {c});
    FirstNonNullAppend(Flat(h, rank, rank[c], h[c]), Flat(h, rank, bound, rest));
    if sub.found.NoElement? {
      forall n | n in wr
        ensures n !in sub.seen
      {
        assert n !in [c] + wc;
      }
      FindItemsInPreOrder(h, rank, bound, rest, sub.seen);
      ElemsAppend([c] + wc, wr);
      ElemsAppend([c], wc);
      assert Elems([c]) == {c};
    }
  }

  /**
   * `_find_list_element` on a list from which no list is reachable twice: the first element in
   * pre-order that is neither `None` nor a list, or nothing when every leaf is `None`.
   */
  lemma FindInIsFirstInPreOrder(h: Heap, rank: map<NodeId, nat>, id: NodeId)
    requires WellFormed(h) && Ranked(h, rank) && id in rank
    requires Distinct(ListsOf(h, rank, id))
    ensures FindIn(h, id, {}).found == FirstNonNull(Flatten(h, rank, id))
  {
    var w := Walk(h, rank, rank[id], h[id]);
    DistinctSplit([id], w);
    assert id in [id];
    assert {} + {id} == {id};
    FindItemsInPreOrder(h, rank, rank[id], h[id], {id});
  }

  /** A tree-shaped list is covered even when its heap also holds an unrelated cyclic list. */
  lemma TreeBesideCycleIsFirstInPreOrder()
    ensures var h := map[0 := [Null, Scalar("int", "1")], 1 := [ListRef(1)]];
      FindIn(h, 0, {}).found == Element(Scalar("int", "1"))
  {
    var h := map[0 := [Null, Scalar("int", "1")], 1 := [ListRef(1)]];
    var rank := map[0 := 0];
    assert ItemsIn(h, h[0]) && ItemsIn(h, h[1]);
    assert Walk(h, rank, 0, h[0]) == [];
    assert Flatten(h, rank, 0) == h[0];
    FindInIsFirstInPreOrder(h, rank, 0);
  }
}
