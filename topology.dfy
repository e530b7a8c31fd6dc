/**
 * Topology expansion: the three forward modes turn configured pairs or groups
 * into directed routes (one `Processor` per route in `src/index.ts`, one
 * `Message_Forwarding` call per route and event in `src/index.tsx`).
 */
module Topology {
  import opened Domain

  /** `单向转发` (one-way), `双向转发` (two-way) and `群聊互联！` (mesh). */
  datatype Mode = OneWay | TwoWay | Mesh

  /** No two positions hold the same route. */
  predicate NoDuplicates(s: seq<Route>)
  {
    forall i, j :: 0 <= i < j < |s| ==> s[i] != s[j]
  }

  /** No route relays a channel into itself. */
  predicate NoSelfLoops(s: seq<Route>)
  {
    forall i :: 0 <= i < |s| ==> s[i].source != s[i].target
  }

  // ---------------------------------------------------------------- one-way, two-way

  /** One-way: one route per configured pair, its six fields copied unchanged. */
  method ExpandOneWay(pairs: seq<Route>) returns (routes: seq<Route>)
    ensures |routes| == |pairs|
    ensures forall i :: 0 <= i < |pairs| ==> routes[i] == pairs[i]
  {
    routes := [];
    for i := 0 to |pairs|
      invariant |routes| == i
      invariant forall k :: 0 <= k < i ==> routes[k] == pairs[k]
    {
      routes := routes + [pairs[i]];
    }
  }

  /** Two-way: per pair, the forward route and then the swapped one; 2N routes. */
  method ExpandTwoWay(pairs: seq<Route>) returns (routes: seq<Route>)
    ensures |routes| == 2 * |pairs|
    ensures forall i :: 0 <= i < |pairs| ==> routes[2 * i] == pairs[i] && routes[2 * i + 1] == Reverse(pairs[i])
  {
    routes := [];
    for i := 0 to |pairs|
      invariant |routes| == 2 * i
      invariant forall k :: 0 <= k < i ==> routes[2 * k] == pairs[k] && routes[2 * k + 1] == Reverse(pairs[k])
    {
      routes := routes + [pairs[i], Reverse(pairs[i])];
    }
  }

  /** Two-way routes are closed under reversal, and have no self-loop when no pair has one. */
  lemma TwoWaySymmetric(pairs: seq<Route>, routes: seq<Route>)
    requires |routes| == 2 * |pairs|
    requires forall i :: 0 <= i < |pairs| ==> routes[2 * i] == pairs[i] && routes[2 * i + 1] == Reverse(pairs[i])
    ensures forall r :: r in routes ==> Reverse(r) in routes
    ensures NoSelfLoops(pairs) ==> NoSelfLoops(routes)
  {
    forall r | r in routes ensures Reverse(r) in routes {
      var k :| 0 <= k < |routes| && routes[k] == r;
      var i := k / 2;
      if k % 2 == 0 {
        assert routes[2 * i] == r;
        assert routes[2 * i + 1] == Reverse(r);
      } else {
        assert routes[2 * i + 1] == r;
        assert Reverse(Reverse(pairs[i])) == pairs[i];
        assert routes[2 * i] == Reverse(r);
      }
    }
    if NoSelfLoops(pairs) {
      forall k | 0 <= k < |routes| ensures routes[k].source != routes[k].target {
        var i := k / 2;
        if k % 2 == 0 { assert routes[2 * i] == pairs[i]; } else { assert routes[2 * i + 1] == Reverse(pairs[i]); }
      }
    }
  }

  // ---------------------------------------------------------------- mesh

  /** Append `x` unless it is already present: the `itemExists` test followed by `push`. */
  function AddNew(acc: seq<Route>, x: Route): seq<Route>
  {
    if x in acc then acc else acc + [x]
  }

  /** The effect of running `AddNew` over `s` from the left, starting with nothing. */
  function Dedup(s: seq<Route>): seq<Route>
    decreases |s|
  {
    if |s| == 0 then [] else AddNew(Dedup(s[..|s| - 1]), s[|s| - 1])
  }

  /** Candidates of index pair loop `c` in `b+1 .. cEnd-1`: `b→c`, then `c→b`. */
  function Row(g: seq<Endpoint>, b: nat, cEnd: nat): seq<Route>
    requires b < |g| && cEnd <= |g|
    decreases cEnd
  {
    if cEnd <= b + 1 then []
    else Row(g, b, cEnd - 1) + [Route(g[b], g[cEnd - 1]), Route(g[cEnd - 1], g[b])]
  }

  /** Candidates of the first `bEnd` iterations of the `b` loop over one group. */
  function GroupRoutes(g: seq<Endpoint>, bEnd: nat): seq<Route>
    requires bEnd <= |g|
    decreases bEnd
  {
    if bEnd == 0 then [] else GroupRoutes(g, bEnd - 1) + Row(g, bEnd - 1, |g|)
  }

  /** Every candidate tuple of the triple loop, in traversal order. */
  function MeshCandidates(groups: seq<seq<Endpoint>>): seq<Route>
    decreases |groups|
  {
    if |groups| == 0 then []
    else MeshCandidates(groups[..|groups| - 1]) + GroupRoutes(groups[|groups| - 1], |groups[|groups| - 1]|)
  }

  /** `r` joins two different members (by position) of one group. */
  ghost predicate IsMeshEdge(groups: seq<seq<Endpoint>>, r: Route)
  {
    exists a, i, j :: 0 <= a < |groups| && 0 <= i < |groups[a]| && 0 <= j < |groups[a]| && i != j &&
      r == Route(groups[a][i], groups[a][j])
  }

  /**
   * Mesh: for every group and every index pair b < c, `b→c` is created iff it
   * is not yet in `existingItems`, then `c→b` under the same test; a created
   * tuple is appended to `existingItems`, which is shared across groups. The
   * routes created are exactly `existingItems`.
   */
  method ExpandMesh(groups: seq<seq<Endpoint>>) returns (existingItems: seq<Route>)
    ensures existingItems == Dedup(MeshCandidates(groups))
    ensures NoDuplicates(existingItems)
    ensures forall r :: r in existingItems <==> IsMeshEdge(groups, r)
  {
    existingItems := [];
    ghost var seen: seq<Route> := [];
    for a := 0 to |groups|
      invariant seen == MeshCandidates(groups[..a])
      invariant existingItems == Dedup(seen)
    {
      existingItems := ExpandGroup(existingItems, groups[a], seen);
      MeshCandidatesStep(groups, a);
      seen := seen + GroupRoutes(groups[a], |groups[a]|);
    }
    assert groups[..|groups|] == groups;
    MeshRoutesCharacterised(groups);
  }

  /**
   * The body of the outer mesh loop for one group `g`: the `b` loop over the
   * group, sharing `existingItems` with earlier groups.
   */
  method ExpandGroup(existingItems: seq<Route>, g: seq<Endpoint>, ghost done: seq<Route>) returns (next: seq<Route>)
    requires existingItems == Dedup(done)
    ensures next == Dedup(done + GroupRoutes(g, |g|))
  {
    next := existingItems;
    ghost var seen := done;
    GroupRoutesStep(done, g, 0);
    for b := 0 to |g|
      invariant seen == done + GroupRoutes(g, b)
      invariant next == Dedup(seen)
    {
      next := ExpandRow(next, g, b, seen);
      GroupRoutesStep(done, g, b);
      seen := seen + Row(g, b, |g|);
    }
  }

  /** The innermost `c` loop for a fixed `b`: test-and-push `b→c`, then `c→b`. */
  method ExpandRow(existingItems: seq<Route>, g: seq<Endpoint>, b: nat, ghost prefix: seq<Route>) returns (next: seq<Route>)
    requires b < |g|
    requires existingItems == Dedup(prefix)
    ensures next == Dedup(prefix + Row(g, b, |g|))
  {
    next := existingItems;
    RowStep(prefix, g, b, b + 1);
    for c := b + 1 to |g|
      invariant next == Dedup(prefix + Row(g, b, c))
    {
      var item := Route(g[b], g[c]);
      var reverseItem := Route(g[c], g[b]);
      MeshStep(prefix, g, b, c);
      if item !in next {
        next := next + [item];
      }
      if reverseItem !in next {
        next := next + [reverseItem];
      }
    }
  }

  /** The mesh routes: no tuple twice, and exactly the ordered pairs of distinct group positions. */
  lemma MeshRoutesCharacterised(groups: seq<seq<Endpoint>>)
    ensures NoDuplicates(Dedup(MeshCandidates(groups)))
    ensures forall r :: r in Dedup(MeshCandidates(groups)) <==> IsMeshEdge(groups, r)
  {
    DedupNoDuplicates(MeshCandidates(groups));
    DedupElements(MeshCandidates(groups));
    MeshCandidatesElements(groups);
  }

  lemma GroupRoutesStep(done: seq<Route>, g: seq<Endpoint>, b: nat)
    requires b <= |g|
    ensures b == 0 ==> done + GroupRoutes(g, b) == done
    ensures b < |g| ==> done + GroupRoutes(g, b + 1) == (done + GroupRoutes(g, b)) + Row(g, b, |g|)
  {
    if b == 0 {
      assert done + [] == done;
    }
  }

  lemma RowStep(prefix: seq<Route>, g: seq<Endpoint>, b: nat, c: nat)
    requires b < c <= |g|
    ensures c == b + 1 ==> prefix + Row(g, b, c) == prefix
    ensures c > b + 1 ==> prefix + Row(g, b, c) == prefix + Row(g, b, c - 1) + [Route(g[b], g[c - 1])] + [Route(g[c - 1], g[b])]
  {
    if c == b + 1 {
      assert prefix + [] == prefix;
    }
  }

  lemma MeshCandidatesStep(groups: seq<seq<Endpoint>>, a: nat)
    requires a < |groups|
    ensures MeshCandidates(groups[..a + 1]) == MeshCandidates(groups[..a]) + GroupRoutes(groups[a], |groups[a]|)
  {
    assert groups[..a + 1][..a] == groups[..a];
  }

  /** One iteration of the innermost loop: test-and-push `b→c`, then `c→b`. */
  lemma MeshStep(prefix: seq<Route>, g: seq<Endpoint>, b: nat, c: nat)
    requires b < c < |g|
    ensures Dedup(prefix + Row(g, b, c + 1)) ==
      AddNew(AddNew(Dedup(prefix + Row(g, b, c)), Route(g[b], g[c])), Route(g[c], g[b]))
  {
    var before := prefix + Row(g, b, c);
    DedupSnoc(before, Route(g[b], g[c]));
    DedupSnoc(before + [Route(g[b], g[c])], Route(g[c], g[b]));
    RowStep(prefix, g, b, c + 1);
  }

  lemma DedupSnoc(s: seq<Route>, x: Route)
    ensures Dedup(s + [x]) == AddNew(Dedup(s), x)
  {
    assert (s + [x])[..|s|] == s;
  }

  /** The deduplicated sequence never holds two equal tuples. */
  lemma {:induction false} DedupNoDuplicates(s: seq<Route>)
    ensures NoDuplicates(Dedup(s))
    decreases |s|
  {
    if |s| > 0 {
      DedupNoDuplicates(s[..|s| - 1]);
    }
  }

  /** Deduplication keeps exactly the elements of its input. */
  lemma {:induction false} DedupElements(s: seq<Route>)
    ensures forall x :: x in Dedup(s) <==> x in s
    decreases |s|
  {
    if |s| > 0 {
      var p := s[..|s| - 1];
      DedupElements(p);
      assert s == p + [s[|s| - 1]];
    }
  }

  /** Appending a duplicate-free block of new tuples appends it unchanged. */
  lemma {:induction false} DedupAppendFresh(p: seq<Route>, s: seq<Route>)
    requires NoDuplicates(s)
    requires forall x :: x in s ==> x !in p
    ensures Dedup(p + s) == Dedup(p) + s
    decreases |s|
  {
    if |s| == 0 {
      assert p + s == p;
    } else {
      var q := s[..|s| - 1];
      var x := s[|s| - 1];
      assert s == q + [x];
      assert p + s == (p + q) + [x];
      FreshPrefix(p, s);
      DedupAppendFresh(p, q);
      DedupSnoc(p + q, x);
      DedupElements(p);
      assert x !in Dedup(p) + q;
    }
  }

  /** Dropping the last route keeps the hypotheses of `DedupAppendFresh`, and the last route is new to both parts. */
  lemma FreshPrefix(p: seq<Route>, s: seq<Route>)
    requires |s| > 0 && NoDuplicates(s)
    requires forall x :: x in s ==> x !in p
    ensures NoDuplicates(s[..|s| - 1])
    ensures forall x :: x in s[..|s| - 1] ==> x !in p
    ensures s[|s| - 1] !in s[..|s| - 1] && s[|s| - 1] !in p
  {
    var q := s[..|s| - 1];
    assert forall i :: 0 <= i < |q| ==> q[i] == s[i];
  }

  lemma {:induction false} RowElements(g: seq<Endpoint>, b: nat, cEnd: nat)
    requires b < |g| && cEnd <= |g|
    ensures forall x :: x in Row(g, b, cEnd) <==>
      exists c :: b < c < cEnd && (x == Route(g[b], g[c]) || x == Route(g[c], g[b]))
    decreases cEnd
  {
    if cEnd > b + 1 {
      RowElements(g, b, cEnd - 1);
    }
  }

  lemma {:induction false} GroupRoutesElements(g: seq<Endpoint>, bEnd: nat)
    requires bEnd <= |g|
    ensures forall x :: x in GroupRoutes(g, bEnd) <==>
      exists b, c :: 0 <= b < bEnd && b < c < |g| && (x == Route(g[b], g[c]) || x == Route(g[c], g[b]))
    decreases bEnd
  {
    if bEnd > 0 {
      GroupRoutesElements(g, bEnd - 1);
      RowElements(g, bEnd - 1, |g|);
    }
  }

  /** The candidates of a whole group are exactly its ordered pairs of distinct positions. */
  lemma GroupEdges(g: seq<Endpoint>)
    ensures forall x :: x in GroupRoutes(g, |g|) <==>
      exists i, j :: 0 <= i < |g| && 0 <= j < |g| && i != j && x == Route(g[i], g[j])
  {
    GroupRoutesElements(g, |g|);
    forall x ensures x in GroupRoutes(g, |g|) <== exists i, j :: 0 <= i < |g| && 0 <= j < |g| && i != j && x == Route(g[i], g[j]) {
      if exists i, j :: 0 <= i < |g| && 0 <= j < |g| && i != j && x == Route(g[i], g[j]) {
        var i, j :| 0 <= i < |g| && 0 <= j < |g| && i != j && x == Route(g[i], g[j]);
        if i < j {
          assert 0 <= i < |g| && i < j < |g| && x == Route(g[i], g[j]);
        } else {
          assert 0 <= j < |g| && j < i < |g| && x == Route(g[i], g[j]);
        }
      }
    }
  }

  lemma {:induction false} MeshCandidatesElements(groups: seq<seq<Endpoint>>)
    ensures forall x :: x in MeshCandidates(groups) <==> IsMeshEdge(groups, x)
    decreases |groups|
  {
    if |groups| > 0 {
      var n := |groups| - 1;
      var init := groups[..n];
      MeshCandidatesElements(init);
      GroupEdges(groups[n]);
      forall x ensures x in MeshCandidates(groups) <==> IsMeshEdge(groups, x) {
        if x in MeshCandidates(init) {
          var a, i, j :| 0 <= a < |init| && 0 <= i < |init[a]| && 0 <= j < |init[a]| && i != j &&
            x == Route(init[a][i], init[a][j]);
          assert groups[a] == init[a];
        } else if x in GroupRoutes(groups[n], |groups[n]|) {
          var i, j :| 0 <= i < |groups[n]| && 0 <= j < |groups[n]| && i != j && x == Route(groups[n][i], groups[n][j]);
          assert IsMeshEdge(groups, x);
        }
        if IsMeshEdge(groups, x) {
          var a, i, j :| 0 <= a < |groups| && 0 <= i < |groups[a]| && 0 <= j < |groups[a]| && i != j &&
            x == Route(groups[a][i], groups[a][j]);
          if a < n {
            assert init[a] == groups[a];
            assert IsMeshEdge(init, x);
          } else {
            assert x in GroupRoutes(groups[n], |groups[n]|);
          }
        }
      }
    }
  }

  // ---------------------------------------------------------------- mesh counting

  /** The endpoints of a group are pairwise distinct. */
  predicate Distinct(g: seq<Endpoint>)
  {
    forall i, j :: 0 <= i < j < |g| ==> g[i] != g[j]
  }

  lemma {:induction false} RowLength(g: seq<Endpoint>, b: nat, cEnd: nat)
    requires b < |g| && cEnd <= |g|
    ensures |Row(g, b, cEnd)| == if cEnd <= b + 1 then 0 else 2 * (cEnd - 1 - b)
    decreases cEnd
  {
    if cEnd > b + 1 {
      RowLength(g, b, cEnd - 1);
    }
  }

  lemma {:induction false} GroupRoutesLength(g: seq<Endpoint>, bEnd: nat)
    requires bEnd <= |g|
    ensures |GroupRoutes(g, bEnd)| == bEnd * (2 * |g| - bEnd - 1)
    decreases bEnd
  {
    if bEnd > 0 {
      GroupRoutesLength(g, bEnd - 1);
      RowLength(g, bEnd - 1, |g|);
      var k := bEnd - 1;
      assert |GroupRoutes(g, bEnd)| == k * (2 * |g| - k - 1) + 2 * (|g| - 1 - k);
      RowCountStep(|g|, k);
    }
  }

  /** Adding row `k` (its `2 * (n - 1 - k)` routes) to the first `k` rows gives the first `k + 1`. */
  lemma RowCountStep(n: int, k: int)
    ensures k * (2 * n - k - 1) + 2 * (n - 1 - k) == (k + 1) * (2 * n - (k + 1) - 1)
  {
  }

  lemma NoDuplicatesAppend(s: seq<Route>, t: seq<Route>)
    requires NoDuplicates(s) && NoDuplicates(t)
    requires forall x :: x in t ==> x !in s
    ensures NoDuplicates(s + t)
  {
    forall i, j | 0 <= i < j < |s + t| ensures (s + t)[i] != (s + t)[j] {
      if j >= |s| && i < |s| {
        assert (s + t)[j] == t[j - |s|];
        assert (s + t)[i] in s;
      } else if i >= |s| {
        assert (s + t)[i] == t[i - |s|] && (s + t)[j] == t[j - |s|];
      }
    }
  }

  lemma {:induction false} RowNoDuplicates(g: seq<Endpoint>, b: nat, cEnd: nat)
    requires Distinct(g) && b < |g| && cEnd <= |g|
    ensures NoDuplicates(Row(g, b, cEnd))
    decreases cEnd
  {
    if cEnd > b + 1 {
      var c := cEnd - 1;
      RowNoDuplicates(g, b, c);
      RowElements(g, b, c);
      var pair := [Route(g[b], g[c]), Route(g[c], g[b])];
      assert g[b] != g[c];
      assert forall c' :: b < c' < c ==> g[c'] != g[c];
      NoDuplicatesAppend(Row(g, b, c), pair);
    }
  }

  /** A group of distinct endpoints yields no tuple twice. */
  lemma {:induction false} GroupRoutesNoDuplicates(g: seq<Endpoint>, bEnd: nat)
    requires Distinct(g) && bEnd <= |g|
    ensures NoDuplicates(GroupRoutes(g, bEnd))
    decreases bEnd
  {
    if bEnd > 0 {
      var b := bEnd - 1;
      GroupRoutesNoDuplicates(g, b);
      RowNoDuplicates(g, b, |g|);
      GroupRoutesElements(g, b);
      RowElements(g, b, |g|);
      forall x | x in Row(g, b, |g|) ensures x !in GroupRoutes(g, b) {
        var c :| b < c < |g| && (x == Route(g[b], g[c]) || x == Route(g[c], g[b]));
        assert forall b' :: 0 <= b' < b ==> g[b'] != g[b] && g[b'] != g[c];
      }
      NoDuplicatesAppend(GroupRoutes(g, b), Row(g, b, |g|));
    }
  }

  /**
   * A group of K pairwise-distinct endpoints none of whose directed edges was
   * seen before adds exactly K×(K−1) routes to `existingItems`.
   */
  lemma MeshGroupAddsAll(prev: seq<Route>, g: seq<Endpoint>)
    requires Distinct(g)
    requires forall i, j :: 0 <= i < |g| && 0 <= j < |g| && i != j ==> Route(g[i], g[j]) !in prev
    ensures Dedup(prev + GroupRoutes(g, |g|)) == Dedup(prev) + GroupRoutes(g, |g|)
    ensures |Dedup(prev + GroupRoutes(g, |g|))| == |Dedup(prev)| + |g| * (|g| - 1)
  {
    GroupRoutesNoDuplicates(g, |g|);
    GroupEdges(g);
    GroupRoutesLength(g, |g|);
    DedupAppendFresh(prev, GroupRoutes(g, |g|));
  }

  /** When every group lists distinct endpoints, no mesh route relays a channel into itself. */
  lemma MeshNoSelfLoops(groups: seq<seq<Endpoint>>)
    requires forall a :: 0 <= a < |groups| ==> Distinct(groups[a])
    ensures NoSelfLoops(Dedup(MeshCandidates(groups)))
  {
    var routes := Dedup(MeshCandidates(groups));
    MeshRoutesCharacterised(groups);
    forall k | 0 <= k < |routes| ensures routes[k].source != routes[k].target {
      assert IsMeshEdge(groups, routes[k]);
      var a, i, j :| 0 <= a < |groups| && 0 <= i < |groups[a]| && 0 <= j < |groups[a]| && i != j &&
        routes[k] == Route(groups[a][i], groups[a][j]);
      assert Distinct(groups[a]);
      if i < j { assert groups[a][i] != groups[a][j]; } else { assert groups[a][j] != groups[a][i]; }
    }
  }

  // ---------------------------------------------------------------- dispatch

  /**
   * The `switch` over the forward mode: the routes the relay serves, one per
   * `Processor` (or per `Message_Forwarding` call on each event).
   */
  method Expand(mode: Mode, pairs: seq<Route>, groups: seq<seq<Endpoint>>) returns (routes: seq<Route>)
    ensures mode == OneWay ==> routes == pairs
    ensures mode == TwoWay ==> |routes| == 2 * |pairs|
    ensures mode == TwoWay ==>
      forall i :: 0 <= i < |pairs| ==> routes[2 * i] == pairs[i] && routes[2 * i + 1] == Reverse(pairs[i])
    ensures mode == Mesh ==> routes == Dedup(MeshCandidates(groups)) && NoDuplicates(routes)
  {
    match mode
    case OneWay =>
      routes := ExpandOneWay(pairs);
    case TwoWay =>
      routes := ExpandTwoWay(pairs);
    case Mesh =>
      routes := ExpandMesh(groups);
  }
}
