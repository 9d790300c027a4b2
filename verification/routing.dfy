/** The routing table's specification: 160 buckets of nodes indexed by XOR
    distance, the bucket rule of `add_node`, and the two scans of
    `get_closest_nodes` as recursive functions. */
module Routing {
  import opened Bencode
  import opened Sets
  import opened Utils

  const Buckets := 160
  const BucketCapacity := 1600
  /** `k_value`'s default in `get_closest_nodes` */
  const K := 8

  type Table = seq<set<Node>>

  /** `get_routing_table_index(xor(a, b))` */
  function BucketIndex(h: Helpers, a: Value, b: Value): (i: int)
    requires h.Valid()
    ensures 0 <= i < Buckets
  {
    h.routingTableIndex(h.xor(a, b))
  }

  ghost predicate InTable(t: Table, n: Node) {
    exists i :: 0 <= i < |t| && n in t[i]
  }

  /** The nodes `fetch_k_closest_nodes` picks from bucket `i`, all of which
      are in the table. */
  function FromBucket(h: Helpers, t: Table, i: int, target: Value, k: nat): (r: set<Node>)
    requires h.Valid() && 0 <= i < |t|
    ensures r <= t[i]
    ensures forall n :: n in r ==> InTable(t, n)
  {
    Elements(h.fetchKClosestNodes(t[i], target, k))
  }

  /** The left scan: from bucket `idx` downward, until `acc` holds `k`
      nodes or bucket 0 has been read. */
  function LeftScan(h: Helpers, t: Table, target: Value, k: nat, idx: int, acc: set<Node>): (r: set<Node>)
    requires h.Valid() && |t| == Buckets && -1 <= idx < Buckets
    requires forall n :: n in acc ==> InTable(t, n)
    ensures acc <= r
    ensures forall n :: n in r ==> InTable(t, n)
    ensures |acc| >= k ==> r == acc
    decreases idx + 1
  {
    if idx < 0 || |acc| >= k then acc
    else LeftScan(h, t, target, k, idx - 1, acc + FromBucket(h, t, idx, target, k))
  }

  /** The right scan: from bucket `idx` upward, until `acc` holds `k` nodes
      or bucket 159 has been read. */
  function RightScan(h: Helpers, t: Table, target: Value, k: nat, idx: int, acc: set<Node>): (r: set<Node>)
    requires h.Valid() && |t| == Buckets && 0 <= idx <= Buckets
    requires forall n :: n in acc ==> InTable(t, n)
    ensures acc <= r
    ensures forall n :: n in r ==> InTable(t, n)
    ensures |acc| >= k ==> r == acc
    decreases Buckets - idx
  {
    if idx >= Buckets || |acc| >= k then acc
    else RightScan(h, t, target, k, idx + 1, acc + FromBucket(h, t, idx, target, k))
  }

  /** `get_closest_nodes(target, k)`: the `k` closest of the nodes gathered
      by a left scan from the target's bucket and a right scan from the next
      one. The answer has at most `k` nodes, all taken from the table. */
  function ClosestNodes(h: Helpers, ownId: Value, t: Table, target: Value, k: nat): (r: seq<Node>)
    requires h.Valid() && |t| == Buckets
    ensures |r| <= k
    ensures forall i :: 0 <= i < |r| ==> InTable(t, r[i])
  {
    var start := BucketIndex(h, ownId, target);
    h.fetchKClosestNodes(LeftScan(h, t, target, k, start, {}) + RightScan(h, t, target, k, start + 1, {}), target, k)
  }

  /** The left scan reads only the buckets at or below where it starts. */
  lemma {:induction false} LeftScanReadsBelow(h: Helpers, t: Table, u: Table, target: Value, k: nat, idx: int, acc: set<Node>)
    requires h.Valid() && |t| == Buckets && |u| == Buckets && -1 <= idx < Buckets
    requires forall n :: n in acc ==> InTable(t, n)
    requires forall n :: n in acc ==> InTable(u, n)
    requires forall j :: 0 <= j <= idx ==> t[j] == u[j]
    ensures LeftScan(h, t, target, k, idx, acc) == LeftScan(h, u, target, k, idx, acc)
    decreases idx + 1
  {
    if idx >= 0 && |acc| < k {
      var next := acc + FromBucket(h, t, idx, target, k);
      assert FromBucket(h, t, idx, target, k) == FromBucket(h, u, idx, target, k);
      LeftScanReadsBelow(h, t, u, target, k, idx - 1, next);
    }
  }

  /** The right scan reads only the buckets at or above where it starts. */
  lemma {:induction false} RightScanReadsAbove(h: Helpers, t: Table, u: Table, target: Value, k: nat, idx: int, acc: set<Node>)
    requires h.Valid() && |t| == Buckets && |u| == Buckets && 0 <= idx <= Buckets
    requires forall n :: n in acc ==> InTable(t, n)
    requires forall n :: n in acc ==> InTable(u, n)
    requires forall j :: idx <= j < Buckets ==> t[j] == u[j]
    ensures RightScan(h, t, target, k, idx, acc) == RightScan(h, u, target, k, idx, acc)
    decreases Buckets - idx
  {
    if idx < Buckets && |acc| < k {
      var next := acc + FromBucket(h, t, idx, target, k);
      assert FromBucket(h, t, idx, target, k) == FromBucket(h, u, idx, target, k);
      RightScanReadsAbove(h, t, u, target, k, idx + 1, next);
    }
  }

  /** The effect of `add_node` on the table: only the node's bucket `i`
      changes; a bucket below capacity takes the node; a full bucket, when the
      coin is true and the node is new, loses exactly one of its members and
      does not take the node; otherwise it stays as it was. */
  ghost predicate AddRule(before: Table, after: Table, i: int, node: Node, coin: bool) {
    && |after| == |before|
    && 0 <= i < |before|
    && (forall j :: 0 <= j < |before| && j != i ==> after[j] == before[j])
    && (|before[i]| < BucketCapacity ==> after[i] == before[i] + {node})
    && (|before[i]| >= BucketCapacity && coin && node !in before[i] ==>
          exists v :: v in before[i] && after[i] == before[i] - {v})
    && (|before[i]| >= BucketCapacity && !(coin && node !in before[i]) ==> after[i] == before[i])
  }

  /** `add_node` raises when it must add the node to, or test it against, a
      set while its id cannot be hashed: below capacity, or on a true coin. */
  predicate AddRaises(h: Helpers, t: Table, ownId: Value, node: Node, coin: bool)
    requires h.Valid() && |t| == Buckets
  {
    !Hashable(node.id) && (|t[BucketIndex(h, node.id, ownId)]| < BucketCapacity || coin)
  }

  /** `add_node` never lets a bucket grow past 1600 nodes, and it never
      changes more than one node of the table. */
  lemma {:induction false} AddRuleKeepsCapacity(before: Table, after: Table, i: int, node: Node, coin: bool)
    requires AddRule(before, after, i, node, coin)
    requires forall j :: 0 <= j < |before| ==> |before[j]| <= BucketCapacity
    ensures forall j :: 0 <= j < |after| ==> |after[j]| <= BucketCapacity
    ensures |before[i]| - 1 <= |after[i]| <= |before[i]| + 1
  {
    if |before[i]| < BucketCapacity {
      if node in before[i] {
        assert before[i] + {node} == before[i];
      } else {
        assert |before[i] + {node}| == |before[i]| + 1;
      }
    } else if coin && node !in before[i] {
      var v :| v in before[i] && after[i] == before[i] - {v};
      assert |after[i]| == |before[i]| - 1;
    }
    forall j | 0 <= j < |after| ensures |after[j]| <= BucketCapacity {
      if j != i {
        assert after[j] == before[j];
      }
    }
  }
}
