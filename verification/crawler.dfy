/** The crawler object: the routing table, the candidate groups, the peer
    searches, the datagrams it sends, and the torrent loads of the storing
    crawler that overrides its hooks. */
module Crawler {
  import opened Wrappers
  import opened Bencode
  import opened Sets
  import opened Utils
  import opened Routing
  import opened Krpc
  import opened Searchers
  import opened Torrents

  /** The candidate list holds at most 16000 groups ... */
  const MaxCandidates := 16000
  /** ... of at most 8 nodes each. */
  const GroupSize := 8
  /** A round of `auto_find_nodes` pops at most 7 groups. */
  const GroupsPerRound := 7

  /** One answer to a searcher (`update_peers_searcher`): `t` names a
      searcher; it is stored back advanced while it has attempts left, and
      otherwise dropped with the load of its peers scheduled. */
  ghost predicate SearcherStep(h: Helpers, s0: map<Value, Searcher>, s1: map<Value, Searcher>,
                               p0: seq<Load>, p1: seq<Load>, t: Value, nodes: set<Node>, values: set<Addr>)
  {
    && t in s0
    && var next := Advance(h, s0[t], nodes, values);
       if next.attempts > 0 then s1 == s0[t := next] && p1 == p0
       else s1 == s0 - {t} && p1 == p0 + [Load(next.infoHash, next.values)]
  }

  /** The candidate list after an unsolicited response: when full, one group
      chosen at random is dropped; then a sample of up to 8 of the response's
      nodes is appended as a new group. */
  ghost predicate CandidateStep(c0: seq<seq<Node>>, c1: seq<seq<Node>>, nodes: set<Node>) {
    && |c1| >= 1
    && var group := c1[|c1| - 1];
       && Distinct(group) && |group| == (if |nodes| < GroupSize then |nodes| else GroupSize)
       && (forall i :: 0 <= i < |group| ==> group[i] in nodes)
       && (|c0| < MaxCandidates ==> c1[..|c1| - 1] == c0)
       && (|c0| >= MaxCandidates ==> exists j :: 0 <= j < |c0| && c1[..|c1| - 1] == c0[..j] + c0[j + 1..])
  }

  /** The branch of `handle_response` on its `t`, from searchers `s0`,
      candidates `c0`, scheduled loads `p0` and sent datagrams `o0`: a
      running search takes the answer (`SearcherStep`) and, when it stays,
      its closest nodes are asked again under `t` in the order `order`; any
      other `t` adds a candidate group (`CandidateStep`) and sends nothing. */
  ghost predicate Absorbed(h: Helpers, t: Value, nodes: set<Node>, values: set<Addr>,
                           s0: map<Value, Searcher>, s1: map<Value, Searcher>, c0: seq<seq<Node>>, c1: seq<seq<Node>>,
                           p0: seq<Load>, p1: seq<Load>, o0: seq<Datagram>, o1: seq<Datagram>, order: seq<Node>)
  {
    && (t in s0 ==> SearcherStep(h, s0, s1, p0, p1, t, nodes, values) && c1 == c0)
    && (t !in s0 ==> CandidateStep(c0, c1, nodes) && s1 == s0 && p1 == p0)
    && (t in s1 ==>
          Enumerates(order, Closest(h, s1[t].nodes, s1[t].infoHash)) && SentGetPeers(o0, o1, order, s1[t].infoHash, t))
    && (t !in s1 ==> order == [] && o1 == o0)
  }

  /** The loads scheduled for the searchers of `s` that have expired at
      `now`, visiting their keys in the order `keys`. */
  function ExpiredLoads(s: map<Value, Searcher>, keys: seq<Value>, now: int): seq<Load>
    decreases |keys|
  {
    if keys == [] then []
    else
      var t := keys[|keys| - 1];
      ExpiredLoads(s, keys[..|keys| - 1], now)
      + if t in s && Expired(now, s[t].timestamp) then [Load(s[t].infoHash, s[t].values)] else []
  }

  /** The searchers of `s` left after visiting the keys `keys` in order and
      removing each one whose searcher has expired at `now`. */
  function Remaining(s: map<Value, Searcher>, keys: seq<Value>, now: int): map<Value, Searcher>
    decreases |keys|
  {
    if keys == [] then s
    else
      var t := keys[|keys| - 1];
      var r := Remaining(s, keys[..|keys| - 1], now);
      if t in s && Expired(now, s[t].timestamp) then r - {t} else r
  }

  /** A key not yet visited still holds its searcher. */
  lemma {:induction false} RemainingKeeps(s: map<Value, Searcher>, keys: seq<Value>, now: int, t: Value)
    requires t in s && t !in keys
    ensures t in Remaining(s, keys, now) && Remaining(s, keys, now)[t] == s[t]
    decreases |keys|
  {
    if keys != [] {
      RemainingKeeps(s, keys[..|keys| - 1], now, t);
    }
  }

  /** Visiting keys removes exactly the visited searchers that expired. */
  lemma {:induction false} RemainingExact(s: map<Value, Searcher>, keys: seq<Value>, now: int)
    ensures forall t :: t in Remaining(s, keys, now) <==> t in s && !(t in keys && Expired(now, s[t].timestamp))
    ensures forall t :: t in Remaining(s, keys, now) ==> Remaining(s, keys, now)[t] == s[t]
    decreases |keys|
  {
    if keys != [] {
      RemainingExact(s, keys[..|keys| - 1], now);
      assert forall u :: u in keys <==> u in keys[..|keys| - 1] || u == keys[|keys| - 1];
    }
  }

  /** The searchers of `s` that have not expired at `now`. */
  function Surviving(s: map<Value, Searcher>, now: int): map<Value, Searcher> {
    map t | t in s && !Expired(now, s[t].timestamp) :: s[t]
  }

  /** Every searcher that has expired has its load scheduled exactly once,
      and nothing else is scheduled. */
  lemma {:induction false} ExpiredLoadsExact(s: map<Value, Searcher>, keys: seq<Value>, now: int)
    requires Distinct(keys)
    ensures forall l :: l in ExpiredLoads(s, keys, now) <==>
              exists t :: t in keys && t in s && Expired(now, s[t].timestamp) && l == Load(s[t].infoHash, s[t].values)
    ensures |ExpiredLoads(s, keys, now)| == |set t | t in keys && t in s && Expired(now, s[t].timestamp)|
    decreases |keys|
  {
    if keys != [] {
      var t := keys[|keys| - 1];
      var init := keys[..|keys| - 1];
      assert Distinct(init);
      ExpiredLoadsExact(s, init, now);
      assert forall u :: u in keys <==> u in init || u == t;
      assert t !in init;
      var before := set u | u in init && u in s && Expired(now, s[u].timestamp);
      var after := set u | u in keys && u in s && Expired(now, s[u].timestamp);
      if t in s && Expired(now, s[t].timestamp) {
        assert after == before + {t};
      } else {
        assert after == before;
      }
    }
  }

  /** The groups' nodes, one group after another (`nodes.extend(group)`). */
  function Concat(groups: seq<seq<Node>>): seq<Node>
    decreases |groups|
  {
    if groups == [] then [] else Concat(groups[..|groups| - 1]) + groups[|groups| - 1]
  }

  /** The query types whose hooks the storing crawler overrides to enqueue
      the info hash. */
  predicate Enqueues(q: Query) {
    q.kind == GetPeers || q.kind == AnnouncePeer
  }

  /** One `add_node(node)` taking the table from `t0` to `t1` and the sent
      datagrams from `o0` to `o1`: it raises on an id that cannot be hashed
      where the set must hash it, and otherwise follows the bucket rule; a
      find_node query goes to the node exactly when its full bucket keeps it
      out. */
  ghost predicate NodeAdded(h: Helpers, ownId: Value, t0: Table, t1: Table, o0: seq<Datagram>, o1: seq<Datagram>,
                            node: Node, coin: bool, raised: bool)
    requires h.Valid() && |t0| == Buckets
  {
    var i := BucketIndex(h, node.id, ownId);
    && raised == AddRaises(h, t0, ownId, node, coin)
    && (raised ==> t1 == t0)
    && (!raised ==> AddRule(t0, t1, i, node, coin))
    && if !raised && |t0[i]| >= BucketCapacity && !(coin && node !in t0[i])
       then |o1| == |o0| + 1 && o1[..|o0|] == o0 && IsFindNode(o1[|o0|], AddrOf(node), None)
       else o1 == o0
  }

  /** One `enqueue_torrent(info_hash)` of a hashable hash, from searchers
      `s0`, counter `n0`, in-progress set `p0` and sent datagrams `o0`: a hash
      neither in progress nor stored is marked and searched for (the counter
      steps, a searcher with 8 attempts starts under its 4-byte id, and the
      16 closest nodes, `asked`, get get_peers queries under that id); any
      other hash changes nothing. */
  ghost predicate Enqueued(h: Helpers, ownId: Value, table: Table, torrents: seq<Metadata>, infoHash: Value, now: int,
                           s0: map<Value, Searcher>, s1: map<Value, Searcher>, n0: int, n1: int,
                           p0: set<Value>, p1: set<Value>, o0: seq<Datagram>, o1: seq<Datagram>, asked: seq<Node>)
    requires h.Valid() && |table| == Buckets && 0 <= n0 <= MaxSeq
  {
    if infoHash !in p0 && !IsStored(torrents, infoHash) then
      && p1 == p0 + {infoHash}
      && n1 == NextSeq(n0)
      && s1 == s0[BStr(TransactionId(n1)) := Searcher(infoHash, {}, {}, InitialAttempts, now)]
      && asked == ClosestNodes(h, ownId, table, infoHash, SearchWidth)
      && SentGetPeers(o0, o1, asked, infoHash, BStr(TransactionId(n1)))
    else
      s1 == s0 && n1 == n0 && p1 == p0 && o1 == o0 && asked == []
  }

  /** What `handle_query` does after its reply to `q`: a get_peers or
      announce_peer query enqueues its info hash, raising before anything
      changes when that hash cannot be hashed; then the sender goes through
      `add_node`. `mid` is what has been sent when `add_node` starts: the
      get_peers queries of a started search come before its find_node. */
  ghost predicate QueryStep(h: Helpers, ownId: Value, torrents: seq<Metadata>, q: Query, addr: Addr, coin: bool, now: int,
                            t0: Table, t1: Table, o0: seq<Datagram>, mid: seq<Datagram>, o1: seq<Datagram>,
                            s0: map<Value, Searcher>, s1: map<Value, Searcher>, n0: int, n1: int,
                            p0: set<Value>, p1: set<Value>, asked: seq<Node>, raised: bool)
    requires h.Valid() && |t0| == Buckets && 0 <= n0 <= MaxSeq
    requires Enqueues(q) ==> "info_hash" in q.args
  {
    if Enqueues(q) && !Hashable(q.args["info_hash"]) then
      raised && t1 == t0 && mid == o0 && o1 == o0 && s1 == s0 && n1 == n0 && p1 == p0 && asked == []
    else
      && (Enqueues(q) ==> Enqueued(h, ownId, t0, torrents, q.args["info_hash"], now, s0, s1, n0, n1, p0, p1, o0, mid, asked))
      && (!Enqueues(q) ==> s1 == s0 && n1 == n0 && p1 == p0 && asked == [] && mid == o0)
      && NodeAdded(h, ownId, t0, t1, mid, o1, Node(q.sender, addr.host, addr.port), coin, raised)
  }

  /** `handle_response(msg, addr)` from table `t0`, sent datagrams `o0`,
      searchers `s0`, candidates `c0` and loads `p0`: a missing or malformed
      field raises before anything changes; otherwise the response is
      `Absorbed` and the responder goes through `add_node`, which starts
      from `sent`. */
  ghost predicate ResponseHandled(h: Helpers, ownId: Value, msg: map<string, Value>, addr: Addr, coin: bool,
                                  t0: Table, t1: Table, o0: seq<Datagram>, sent: seq<Datagram>, o1: seq<Datagram>,
                                  s0: map<Value, Searcher>, s1: map<Value, Searcher>, c0: seq<seq<Node>>, c1: seq<seq<Node>>,
                                  p0: seq<Load>, p1: seq<Load>, order: seq<Node>, raised: bool)
    requires h.Valid() && |t0| == Buckets
  {
    match ParseResponse(h, msg)
    case None => raised && t1 == t0 && o1 == o0 && s1 == s0 && c1 == c0 && p1 == p0
    case Some(r) =>
      && Absorbed(h, r.t, r.nodes, r.values, s0, s1, c0, c1, p0, p1, o0, sent, order)
      && NodeAdded(h, ownId, t0, t1, sent, o1, Node(r.sender, addr.host, addr.port), coin, raised)
  }

  /** `handle_query(msg, addr)` from table `t0`, sent datagrams `o0`,
      searchers `s0`, counter `n0` and in-progress set `p0`: a missing or
      malformed field raises before anything changes; otherwise the reply
      the query type calls for (none for an unknown type) is sent, and
      `QueryStep` follows. */
  ghost predicate QueryHandled(h: Helpers, ownId: Value, torrents: seq<Metadata>, msg: map<string, Value>, addr: Addr,
                               coin: bool, token: Value, now: int,
                               t0: Table, t1: Table, o0: seq<Datagram>, sent: seq<Datagram>, o1: seq<Datagram>,
                               s0: map<Value, Searcher>, s1: map<Value, Searcher>, n0: int, n1: int,
                               p0: set<Value>, p1: set<Value>, asked: seq<Node>, raised: bool)
    requires h.Valid() && |t0| == Buckets && 0 <= n0 <= MaxSeq
  {
    match QueryReply(h, ownId, t0, msg, token)
    case None => raised && t1 == t0 && o1 == o0 && asked == [] && s1 == s0 && n1 == n0 && p1 == p0
    case Some(reply) =>
      QueryStep(h, ownId, torrents, ParseQuery(msg).value, addr, coin, now, t0, t1,
                o0 + (if reply.Some? then [Datagram(reply.value, addr)] else []), sent, o1,
                s0, s1, n0, n1, p0, p1, asked, raised)
  }

  class DHTCrawler {
    const nodeId: Value
    const utils: Helpers
    /** 160 buckets of nodes */
    const routingTable: array<set<Node>>
    /** groups of nodes from responses to queries the crawler did not make */
    var candidates: seq<seq<Node>>
    /** the running peer searches, by transaction id */
    var searchers: map<Value, Searcher>
    var searchersSeq: int
    /** every datagram sent, in order */
    var outbox: seq<Datagram>
    /** info hashes being searched for or loaded */
    var torrentInProgress: set<Value>
    /** loads scheduled and not yet run */
    var pendingLoads: seq<Load>
    /** the `torrents` collection */
    var torrents: seq<Metadata>

    ghost function Table(): Table
      reads routingTable
    {
      routingTable[..]
    }

    /** The bounds the crawler keeps: 160 buckets of at most 1600 nodes, at
        most 16000 candidate groups of at most 8 nodes, a 32-bit counter,
        searchers with between 1 and 8 attempts left, and at most one stored
        record per info hash. */
    ghost predicate Sound()
      reads this`candidates, this`searchersSeq, this`searchers, this`torrents, routingTable
    {
      && utils.Valid()
      && routingTable.Length == Buckets
      && (forall i :: 0 <= i < Buckets ==> |routingTable[i]| <= BucketCapacity)
      && |candidates| <= MaxCandidates
      && (forall i :: 0 <= i < |candidates| ==> |candidates[i]| <= GroupSize)
      && 0 <= searchersSeq <= MaxSeq
      && (forall t :: t in searchers ==> 0 < searchers[t].attempts <= InitialAttempts)
      && UniqueRecords(torrents)
    }

    /** `Sound`, and every info hash being searched for or loaded is marked
        in progress, at most once. */
    ghost predicate Valid()
      reads this`candidates, this`searchersSeq, this`searchers, this`torrents, this`pendingLoads,
            this`torrentInProgress, routingTable
    {
      Sound() && Tracked(searchers, pendingLoads, torrentInProgress)
    }

    /** `DHTCrawler(bootstrap_nodes, node_id)`: a falsy or missing id is
        replaced by a random one. `db` is the torrents collection as the
        storing crawler finds it, holding the records of earlier runs. */
    constructor (id: Option<Value>, helpers: Helpers, db: seq<Metadata>)
      requires helpers.Valid()
      requires UniqueRecords(db)
      ensures Valid()
      ensures id.Some? && Truthy(id.value) ==> nodeId == id.value
      ensures utils == helpers && fresh(routingTable)
      ensures forall i :: 0 <= i < Buckets ==> routingTable[i] == {}
      ensures candidates == [] && searchers == map[] && searchersSeq == 0 && outbox == []
      ensures torrentInProgress == {} && pendingLoads == [] && torrents == db
    {
      if id.Some? && Truthy(id.value) {
        nodeId := id.value;
      } else {
        var drawn: Value :| true; // generate_node_id()
        nodeId := drawn;
      }
      utils := helpers;
      routingTable := new set<Node>[Buckets](_ => {});
      candidates := [];
      searchers := map[];
      searchersSeq := 0;
      outbox := [];
      torrentInProgress := {};
      pendingLoads := [];
      torrents := db;
    }

    /** `find_node(addr, target)`: one find_node query with random `t` and
        `id`; the target is `target` when truthy, a random id otherwise. */
    method FindNode(addr: Addr, target: Option<Value>)
      modifies this`outbox
      ensures |outbox| == |old(outbox)| + 1 && outbox[..|old(outbox)|] == old(outbox)
      ensures IsFindNode(outbox[|old(outbox)|], addr, target)
    {
      var t: Value :| true;  // generate_id()
      var id: Value :| true; // generate_node_id()
      var tgt: Value;
      if target.Some? && Truthy(target.value) {
        tgt := target.value;
      } else {
        tgt :| true;
      }
      assert "id" != "target";
      outbox := outbox + [Datagram(QueryMessage(t, Krpc.FindNode, map["id" := id, "target" := tgt]), addr)];
    }

    /** `get_peers(addr, info_hash, t)`: one get_peers query carrying `t`
        when truthy and a random transaction id otherwise. */
    method SendGetPeers(addr: Addr, infoHash: Value, t: Value)
      modifies this`outbox
      ensures |outbox| == |old(outbox)| + 1 && outbox[..|old(outbox)|] == old(outbox)
      ensures IsGetPeers(outbox[|old(outbox)|], addr, infoHash, t)
    {
      var tid: Value;
      if Truthy(t) {
        tid := t;
      } else {
        tid :| true; // generate_id()
      }
      var id: Value :| true; // generate_node_id()
      assert "id" != "info_hash";
      outbox := outbox + [Datagram(QueryMessage(tid, GetPeers, map["id" := id, "info_hash" := infoHash]), addr)];
    }

    /** The loop `for node in nodes: get_peers((node.host, node.port), info_hash, t)`. */
    method SendGetPeersAll(nodes: seq<Node>, infoHash: Value, t: Value)
      modifies this`outbox
      ensures SentGetPeers(old(outbox), outbox, nodes, infoHash, t)
    {
      var i := 0;
      while i < |nodes|
        invariant 0 <= i <= |nodes|
        invariant SentGetPeers(old(outbox), outbox, nodes[..i], infoHash, t)
      {
        SendGetPeers(AddrOf(nodes[i]), infoHash, t);
        i := i + 1;
      }
      assert nodes[..i] == nodes;
    }

    /** The first loop of `get_closest_nodes`: from bucket `start` downward
        while fewer than `k` nodes are gathered. */
    method ScanLeft(target: Value, k: nat, start: int) returns (left: set<Node>)
      requires Sound() && 0 <= start < Buckets
      ensures left == LeftScan(utils, Table(), target, k, start, {})
    {
      left := {};
      var idx := start;
      while idx >= 0 && |left| < k
        invariant -1 <= idx <= start
        invariant forall n :: n in left ==> InTable(Table(), n)
        invariant LeftScan(utils, Table(), target, k, idx, left) == LeftScan(utils, Table(), target, k, start, {})
        decreases idx + 1
      {
        assert Elements(utils.fetchKClosestNodes(routingTable[idx], target, k)) == FromBucket(utils, Table(), idx, target, k);
        left := left + Elements(utils.fetchKClosestNodes(routingTable[idx], target, k));
        idx := idx - 1;
      }
    }

    /** The second loop of `get_closest_nodes`: from bucket `start` upward
        while fewer than `k` nodes are gathered. */
    method ScanRight(target: Value, k: nat, start: int) returns (right: set<Node>)
      requires Sound() && 0 <= start <= Buckets
      ensures right == RightScan(utils, Table(), target, k, start, {})
    {
      right := {};
      var idx := start;
      while idx < Buckets && |right| < k
        invariant start <= idx <= Buckets
        invariant forall n :: n in right ==> InTable(Table(), n)
        invariant RightScan(utils, Table(), target, k, idx, right) == RightScan(utils, Table(), target, k, start, {})
        decreases Buckets - idx
      {
        assert Elements(utils.fetchKClosestNodes(routingTable[idx], target, k)) == FromBucket(utils, Table(), idx, target, k);
        right := right + Elements(utils.fetchKClosestNodes(routingTable[idx], target, k));
        idx := idx + 1;
      }
    }

    /** `get_closest_nodes(target, k)`: the two scans of the table, computed
        by loops, give what the scan functions specify. */
    method GetClosestNodes(target: Value, k: nat) returns (r: seq<Node>)
      requires Sound()
      ensures r == ClosestNodes(utils, nodeId, Table(), target, k)
    {
      var start := BucketIndex(utils, nodeId, target);
      var left := ScanLeft(target, k, start);
      var right := ScanRight(target, k, start + 1);
      r := utils.fetchKClosestNodes(left + right, target, k);
    }

    /** `add_node(node)`: the node's bucket takes it while below 1600 nodes;
        a full bucket, on a true coin and a new node, drops one random member;
        otherwise the node is sent a find_node query. Adding to or testing
        membership of a set raises on an unhashable id. */
    method AddNode(node: Node, coin: bool) returns (raised: bool)
      requires Sound()
      modifies routingTable, this`outbox
      ensures Sound()
      ensures NodeAdded(utils, nodeId, old(Table()), Table(), old(outbox), outbox, node, coin, raised)
    {
      var i := BucketIndex(utils, node.id, nodeId);
      var rt := routingTable[i];
      ghost var t0 := Table();
      if |rt| < BucketCapacity {
        if !Hashable(node.id) {
          return true;
        }
        routingTable[i] := rt + {node};
      } else if coin && !Hashable(node.id) {
        return true;
      } else if coin && node !in rt {
        var victim :| victim in rt; // random.sample(rt, 1)[0]
        routingTable[i] := rt - {victim};
      } else {
        FindNode(AddrOf(node), None);
      }
      raised := false;
      assert Table() == t0[i := routingTable[i]];
      AddRuleKeepsCapacity(t0, Table(), i, node, coin);
    }

    /** `search_peers(info_hash)`: the counter steps, a searcher with 8
        attempts starts under the counter's 4-byte id, and the 16 closest
        nodes are asked for peers under that id. */
    method SearchPeers(infoHash: Value, now: int) returns (asked: seq<Node>)
      requires Sound()
      modifies this`searchersSeq, this`searchers, this`outbox
      ensures Sound()
      ensures searchersSeq == NextSeq(old(searchersSeq))
      ensures searchers == old(searchers)[BStr(TransactionId(searchersSeq)) := Searcher(infoHash, {}, {}, InitialAttempts, now)]
      ensures asked == ClosestNodes(utils, nodeId, Table(), infoHash, SearchWidth)
      ensures SentGetPeers(old(outbox), outbox, asked, infoHash, BStr(TransactionId(searchersSeq)))
    {
      searchersSeq := NextSeq(searchersSeq);
      var t := BStr(TransactionId(searchersSeq));
      searchers := searchers[t := Searcher(infoHash, {}, {}, InitialAttempts, now)];
      asked := GetClosestNodes(infoHash, SearchWidth);
      SendGetPeersAll(asked, infoHash, t);
    }

    /** `peers_values_received(info_hash, peers)`: the storing crawler
        schedules `load_torrent(info_hash, peers)`. */
    method PeersValuesReceived(infoHash: Value, peers: set<Addr>)
      modifies this`pendingLoads
      ensures pendingLoads == old(pendingLoads) + [Load(infoHash, peers)]
    {
      pendingLoads := pendingLoads + [Load(infoHash, peers)];
    }
  
    /** `update_peers_searcher(t, nodes, values)`: an unknown `t` changes
        nothing; otherwise the searcher advances, and while attempts are left
        it is stored back and its 16 closest nodes are asked again under `t`;
        when none are left the load of its peers is scheduled. */
    method UpdatePeersSearcher(t: Value, nodes: set<Node>, values: set<Addr>) returns (order: seq<Node>)
      requires Valid()
      modifies this`searchers, this`outbox, this`pendingLoads
      ensures Valid()
      ensures t !in old(searchers) ==> searchers == old(searchers) && pendingLoads == old(pendingLoads) && outbox == old(outbox)
      ensures t in old(searchers) ==> SearcherStep(utils, old(searchers), searchers, old(pendingLoads), pendingLoads, t, nodes, values)
      ensures t in old(searchers) && t in searchers ==>
                && Enumerates(order, Closest(utils, searchers[t].nodes, searchers[t].infoHash))
                && SentGetPeers(old(outbox), outbox, order, searchers[t].infoHash, t)
      ensures t !in searchers ==> outbox == old(outbox) && order == []
      ensures Extends(old(outbox), outbox)
    {
      order := [];
      if t !in searchers {
        return;
      }
      var s := searchers[t];
      searchers := searchers - {t};
      var next := Advance(utils, s, nodes, values);
      if next.attempts > 0 {
        TrackedRestore(old(searchers), pendingLoads, torrentInProgress, t, next);
        searchers := searchers[t := next];
        assert searchers == old(searchers)[t := next];
        order := Enumerate(Closest(utils, next.nodes, next.infoHash));
        SendGetPeersAll(order, next.infoHash, t);
      } else {
        TrackedFinish(old(searchers), old(pendingLoads), torrentInProgress, t, next.values);
        PeersValuesReceived(next.infoHash, next.values);
      }
    }

    /** `enqueue_torrent(info_hash)`: a hash neither in progress nor stored
        is marked in progress and searched for; any other hash changes
        nothing. The set membership test raises on an unhashable value. */
    method EnqueueTorrent(infoHash: Value, now: int) returns (raised: bool, asked: seq<Node>)
      requires Valid()
      modifies this`searchersSeq, this`searchers, this`outbox, this`torrentInProgress
      ensures Valid()
      ensures raised <==> !Hashable(infoHash)
      ensures raised ==> && searchers == old(searchers) && searchersSeq == old(searchersSeq)
                         && outbox == old(outbox) && torrentInProgress == old(torrentInProgress) && asked == []
      ensures !raised ==> Enqueued(utils, nodeId, Table(), torrents, infoHash, now, old(searchers), searchers,
                                   old(searchersSeq), searchersSeq, old(torrentInProgress), torrentInProgress,
                                   old(outbox), outbox, asked)
    {
      asked := [];
      if !Hashable(infoHash) {
        return true, asked;
      }
      raised := false;
      if infoHash !in torrentInProgress && !IsStored(torrents, infoHash) {
        TrackedStart(searchers, pendingLoads, torrentInProgress, BStr(TransactionId(NextSeq(searchersSeq))),
                     Searcher(infoHash, {}, {}, InitialAttempts, now));
        torrentInProgress := torrentInProgress + {infoHash};
        asked := SearchPeers(infoHash, now);
      }
    }

    /** The candidate step of `handle_response` for a `t` no searcher owns. */
    method AddCandidates(nodes: set<Node>)
      requires Sound()
      modifies this`candidates
      ensures Sound()
      ensures CandidateStep(old(candidates), candidates, nodes)
    {
      if |candidates| >= MaxCandidates {
        var j :| 0 <= j < |candidates|; // random.randrange(len(candidates))
        candidates := candidates[..j] + candidates[j + 1..];
      }
      ghost var kept := candidates;
      // random.sample(nodes, min(len(nodes), 8)): any enumeration's prefix
      var order := Enumerate(nodes);
      var group := order[..if |nodes| < GroupSize then |nodes| else GroupSize];
      candidates := candidates + [group];
      assert candidates[..|candidates| - 1] == kept;
    }

    /** The branch of `handle_response` on `t`: a response to a running
        search advances it, re-asking its closest nodes in the order `order`;
        any other response adds a candidate group. */
    method AbsorbResponse(t: Value, nodes: set<Node>, values: set<Addr>) returns (order: seq<Node>)
      requires Valid()
      modifies this`outbox, this`searchers, this`candidates, this`pendingLoads
      ensures Valid()
      ensures Absorbed(utils, t, nodes, values, old(searchers), searchers, old(candidates), candidates,
                       old(pendingLoads), pendingLoads, old(outbox), outbox, order)
      ensures |outbox| == |old(outbox)| + |order| && Extends(old(outbox), outbox)
    {
      if t in searchers {
        order := UpdatePeersSearcher(t, nodes, values);
      } else {
        order := [];
        AddCandidates(nodes);
      }
    }

    /** `handle_response(msg, addr)`: `AbsorbResponse`, then the responder is
        added to the routing table. A missing or malformed field raises before
        anything changes. `sent` is what has been sent when `add_node` starts:
        the get_peers queries of the search, if any, come before its
        find_node. */
    method HandleResponse(msg: map<string, Value>, addr: Addr, coin: bool)
      returns (raised: bool, order: seq<Node>, ghost sent: seq<Datagram>)
      requires Valid()
      modifies routingTable, this`outbox, this`searchers, this`candidates, this`pendingLoads
      ensures Valid()
      ensures ResponseHandled(utils, nodeId, msg, addr, coin, old(Table()), Table(), old(outbox), sent, outbox,
                              old(searchers), searchers, old(candidates), candidates, old(pendingLoads), pendingLoads,
                              order, raised)
      ensures Extends(old(outbox), outbox)
    {
      var parsed := ParseResponse(utils, msg);
      if parsed.None? {
        return true, [], outbox;
      }
      var r := parsed.value;
      order := AbsorbResponse(r.t, r.nodes, r.values);
      sent := outbox;
      raised := AddNode(Node(r.sender, addr.host, addr.port), coin);
      assert outbox[..|sent|] == sent;
      ExtendsTransitive(old(outbox), sent, outbox);
    }

    /** What `handle_query` does after its reply: a get_peers or
        announce_peer query enqueues its info hash (the storing crawler's
        hooks; the others are no-ops), then the sender is added to the routing
        table unless the hook raised. */
    method QueryReceived(q: Query, addr: Addr, coin: bool, now: int)
      returns (raised: bool, asked: seq<Node>, ghost sent: seq<Datagram>)
      requires Valid()
      requires Enqueues(q) ==> "info_hash" in q.args
      modifies routingTable, this`outbox, this`searchers, this`searchersSeq, this`torrentInProgress
      ensures Valid()
      ensures Extends(old(outbox), outbox)
      ensures QueryStep(utils, nodeId, torrents, q, addr, coin, now, old(Table()), Table(), old(outbox), sent, outbox,
                        old(searchers), searchers, old(searchersSeq), searchersSeq,
                        old(torrentInProgress), torrentInProgress, asked, raised)
    {
      asked := [];
      if Enqueues(q) {
        raised, asked := EnqueueTorrent(q.args["info_hash"], now);
        if raised {
          return raised, asked, outbox;
        }
      }
      sent := outbox;
      raised := AddNode(Node(q.sender, addr.host, addr.port), coin);
      assert outbox[..|sent|] == sent;
      ExtendsTransitive(old(outbox), sent, outbox);
    }

    /** `handle_query(msg, addr)`: the reply the query type calls for is sent,
        then `QueryReceived` runs. A missing or malformed field raises before
        the reply and changes nothing; an unknown query type gets no reply. */
    method HandleQuery(msg: map<string, Value>, addr: Addr, coin: bool, token: Value, now: int)
      returns (raised: bool, asked: seq<Node>, ghost sent: seq<Datagram>)
      requires Valid()
      modifies routingTable, this`outbox, this`searchers, this`searchersSeq, this`torrentInProgress
      ensures Valid()
      ensures Extends(old(outbox), outbox)
      ensures QueryHandled(utils, nodeId, torrents, msg, addr, coin, token, now, old(Table()), Table(),
                           old(outbox), sent, outbox, old(searchers), searchers, old(searchersSeq), searchersSeq,
                           old(torrentInProgress), torrentInProgress, asked, raised)
    {
      var reply := QueryReply(utils, nodeId, routingTable[..], msg, token);
      if reply.None? {
        return true, [], outbox;
      }
      var q := ParseQuery(msg).value;
      if reply.value.Some? {
        outbox := outbox + [Datagram(reply.value.value, addr)];
      }
      ghost var replied := outbox;
      assert Extends(old(outbox), replied);
      raised, asked, sent := QueryReceived(q, addr, coin, now);
      ExtendsTransitive(old(outbox), replied, outbox);
    }

    /** The dispatch of `handle_message` on the text of `y`: "r" goes to
        `HandleResponse`, "q" to `HandleQuery`, anything else is ignored. */
    method Dispatch(msg: map<string, Value>, kind: Bytes, addr: Addr, coin: bool, token: Value, now: int)
      returns (raised: bool, ghost sent: seq<Datagram>, ghost order: seq<Node>, ghost asked: seq<Node>)
      requires Valid()
      modifies routingTable, this`outbox, this`searchers, this`searchersSeq, this`candidates, this`pendingLoads,
               this`torrentInProgress
      ensures Valid()
      ensures kind == [0x72] ==>
                && ResponseHandled(utils, nodeId, msg, addr, coin, old(Table()), Table(), old(outbox), sent, outbox,
                                   old(searchers), searchers, old(candidates), candidates, old(pendingLoads), pendingLoads,
                                   order, raised)
                && searchersSeq == old(searchersSeq) && torrentInProgress == old(torrentInProgress)
      ensures kind == [0x71] ==>
                && QueryHandled(utils, nodeId, torrents, msg, addr, coin, token, now, old(Table()), Table(),
                                old(outbox), sent, outbox, old(searchers), searchers, old(searchersSeq), searchersSeq,
                                old(torrentInProgress), torrentInProgress, asked, raised)
                && candidates == old(candidates) && pendingLoads == old(pendingLoads)
      ensures kind != [0x72] && kind != [0x71] ==> !raised && unchanged(this) && Table() == old(Table())
    {
      order, asked, sent := [], [], outbox;
      if kind == [0x72] {
        raised, order, sent := HandleResponse(msg, addr, coin);
      } else if kind == [0x71] {
        raised, asked, sent := HandleQuery(msg, addr, coin, token, now);
      } else {
        raised := false;
      }
    }

    /** `handle_message(msg, addr)`: dispatches on the UTF-8 text of `y`;
        `handled` is what has been sent when the handler returns. When the
        handler raises, an error 202 echoing `t` follows. A message that is
        not a dictionary raises again in the error path, sending nothing, and
        an error message from a peer (`y` = "e") is ignored. */
    method HandleMessage(msg: Value, addr: Addr, coin: bool, token: Value, now: int)
      returns (raised: bool, ghost handled: seq<Datagram>, ghost sent: seq<Datagram>,
               ghost order: seq<Node>, ghost asked: seq<Node>)
      requires Valid()
      modifies routingTable, this`outbox, this`searchers, this`searchersSeq, this`candidates, this`pendingLoads,
               this`torrentInProgress
      ensures Valid()
      ensures !msg.BDict? ==> raised && unchanged(this) && Table() == old(Table())
      ensures msg.BDict? ==>
                var kind := Decode(GetOr(msg.entries, "y", BStr([])));
                && (kind.None? ==>
                      && raised && handled == old(outbox) && Table() == old(Table()) && searchers == old(searchers)
                      && searchersSeq == old(searchersSeq) && candidates == old(candidates)
                      && pendingLoads == old(pendingLoads) && torrentInProgress == old(torrentInProgress))
                && (kind == Some([0x72]) ==>
                      && ResponseHandled(utils, nodeId, msg.entries, addr, coin, old(Table()), Table(), old(outbox), sent,
                                         handled, old(searchers), searchers, old(candidates), candidates,
                                         old(pendingLoads), pendingLoads, order, raised)
                      && searchersSeq == old(searchersSeq) && torrentInProgress == old(torrentInProgress))
                && (kind == Some([0x71]) ==>
                      && QueryHandled(utils, nodeId, torrents, msg.entries, addr, coin, token, now, old(Table()), Table(),
                                      old(outbox), sent, handled, old(searchers), searchers, old(searchersSeq), searchersSeq,
                                      old(torrentInProgress), torrentInProgress, asked, raised)
                      && candidates == old(candidates) && pendingLoads == old(pendingLoads))
                && (kind.Some? && kind.value != [0x72] && kind.value != [0x71] ==>
                      !raised && unchanged(this) && Table() == old(Table()))
                && outbox == handled + if raised then [Datagram(ErrorMessage(GetOr(msg.entries, "t", BStr([]))), addr)] else []
      ensures msg.BDict? && GetOr(msg.entries, "y", BStr([])) == ErrorTag ==> !raised && unchanged(this)
    {
      order, asked, sent, handled := [], [], outbox, outbox;
      if !msg.BDict? {
        return true, handled, sent, order, asked;
      }
      AsciiDecodes([0x65]);
      var kind := Decode(GetOr(msg.entries, "y", BStr([])));
      if kind.None? {
        raised := true;
      } else {
        raised, sent, order, asked := Dispatch(msg.entries, kind.value, addr, coin, token, now);
        handled := outbox;
      }
      if raised {
        outbox := outbox + [Datagram(ErrorMessage(GetOr(msg.entries, "t", BStr([]))), addr)];
      }
    }

    /** The loop `for _, host, port in nodes: find_node((host, port), target)`. */
    method FindNodes(nodes: seq<Node>, target: Value)
      requires Truthy(target)
      modifies this`outbox
      ensures SentFindNode(old(outbox), outbox, nodes, target)
    {
      var i := 0;
      while i < |nodes|
        invariant 0 <= i <= |nodes|
        invariant SentFindNode(old(outbox), outbox, nodes[..i], target)
      {
        FindNode(AddrOf(nodes[i]), Some(target));
        i := i + 1;
      }
      assert nodes[..i] == nodes;
    }

    /** The candidate step of `auto_find_nodes`: up to 7 groups, each chosen
        at random, leave the candidate list, and their nodes are returned in
        the order popped. */
    method PopCandidates() returns (popped: seq<Node>, ghost groups: seq<seq<Node>>)
      requires Sound()
      modifies this`candidates
      ensures Sound()
      ensures |groups| == if |old(candidates)| < GroupsPerRound then |old(candidates)| else GroupsPerRound
      ensures |candidates| == |old(candidates)| - |groups|
      ensures multiset(candidates) + multiset(groups) == multiset(old(candidates))
      ensures popped == Concat(groups)
    {
      var n := if |candidates| < GroupsPerRound then |candidates| else GroupsPerRound;
      popped := [];
      groups := [];
      var i := 0;
      while i < n
        invariant 0 <= i <= n
        invariant |groups| == i && |candidates| == |old(candidates)| - i
        invariant multiset(candidates) + multiset(groups) == multiset(old(candidates))
        invariant popped == Concat(groups)
        invariant forall k :: 0 <= k < |candidates| ==> |candidates[k]| <= GroupSize
      {
        var j :| 0 <= j < |candidates|; // random.randrange(len(candidates))
        var g := candidates[j];
        RemoveAt(candidates, j);
        candidates := candidates[..j] + candidates[j + 1..];
        assert multiset(groups + [g]) == multiset(groups) + multiset{g};
        assert (groups + [g])[..i] == groups;
        groups := groups + [g];
        popped := popped + g;
        i := i + 1;
      }
    }

    /** `peers_values_received(item.info_hash, item.values)` followed by
        `searchers.pop(t)`. */
    method RetireSearcher(t: Value)
      requires Valid() && t in searchers
      modifies this`searchers, this`pendingLoads
      ensures Valid()
      ensures searchers == old(searchers) - {t}
      ensures pendingLoads == old(pendingLoads) + [Load(old(searchers)[t].infoHash, old(searchers)[t].values)]
    {
      var item := searchers[t];
      TrackedFinish(searchers, pendingLoads, torrentInProgress, t, item.values);
      PeersValuesReceived(item.infoHash, item.values);
      searchers := searchers - {t};
    }

    /** The expiry step of `auto_find_nodes`: visiting a snapshot of the
        searchers, each one whose age has a seconds field of 60 or more has
        the load of its peers scheduled and is removed. */
    method ExpireSearchers(now: int) returns (order: seq<Value>)
      requires Valid()
      modifies this`searchers, this`pendingLoads
      ensures Valid()
      ensures Enumerates(order, old(searchers).Keys)
      ensures searchers == Surviving(old(searchers), now)
      ensures pendingLoads == old(pendingLoads) + ExpiredLoads(old(searchers), order, now)
    {
      order := Enumerate(searchers.Keys);
      RetireExpired(order, now);
      RemainingExact(old(searchers), order, now);
      assert searchers == Surviving(old(searchers), now);
    }

    /** The loop of the expiry step, visiting the keys `order` of a snapshot
        of the searchers. */
    method RetireExpired(order: seq<Value>, now: int)
      requires Valid() && Distinct(order)
      modifies this`searchers, this`pendingLoads
      ensures Valid()
      ensures searchers == Remaining(old(searchers), order, now)
      ensures pendingLoads == old(pendingLoads) + ExpiredLoads(old(searchers), order, now)
    {
      var snapshot := searchers; // searchers.copy()
      var i := 0;
      while i < |order|
        invariant 0 <= i <= |order|
        invariant Valid()
        invariant searchers == Remaining(snapshot, order[..i], now)
        invariant pendingLoads == old(pendingLoads) + ExpiredLoads(snapshot, order[..i], now)
      {
        var t := order[i];
        assert order[..i + 1][..i] == order[..i] && order[..i + 1][i] == t;
        if t in snapshot && Expired(now, snapshot[t].timestamp) {
          RemainingKeeps(snapshot, order[..i], now, t);
          RetireSearcher(t);
        }
        i := i + 1;
      }
      assert order[..i] == order;
    }

    /** The find_node step of `auto_find_nodes`: `target` is sent find_node
        queries through its 8 closest known nodes and then through the nodes
        of up to 7 candidate groups popped at random. */
    method FindNodesRound(target: Value) returns (sentTo: seq<Node>, ghost groups: seq<seq<Node>>)
      requires Valid() && Truthy(target)
      modifies this`candidates, this`outbox
      ensures Valid()
      ensures sentTo == ClosestNodes(utils, nodeId, Table(), target, K) + Concat(groups)
      ensures SentFindNode(old(outbox), outbox, sentTo, target)
      ensures |groups| == if |old(candidates)| < GroupsPerRound then |old(candidates)| else GroupsPerRound
      ensures multiset(candidates) + multiset(groups) == multiset(old(candidates))
    {
      var closest := GetClosestNodes(target, K);
      var popped;
      popped, groups := PopCandidates();
      sentTo := closest + popped;
      FindNodes(sentTo, target);
    }

    /** One round of `auto_find_nodes` after its sleep: a random target goes
        through `FindNodesRound`, then expired searchers are retired. */
    method AutoFindStep(now: int) returns (target: Value, sentTo: seq<Node>, ghost groups: seq<seq<Node>>, order: seq<Value>)
      requires Valid()
      modifies this`candidates, this`outbox, this`searchers, this`pendingLoads
      ensures Valid()
      ensures Truthy(target)
      ensures sentTo == ClosestNodes(utils, nodeId, Table(), target, K) + Concat(groups)
      ensures SentFindNode(old(outbox), outbox, sentTo, target)
      ensures |groups| == if |old(candidates)| < GroupsPerRound then |old(candidates)| else GroupsPerRound
      ensures multiset(candidates) + multiset(groups) == multiset(old(candidates))
      ensures Enumerates(order, old(searchers).Keys)
      ensures searchers == Surviving(old(searchers), now)
      ensures pendingLoads == old(pendingLoads) + ExpiredLoads(old(searchers), order, now)
    {
      assert Truthy(BInt(1));
      target :| Truthy(target); // generate_node_id()
      sentTo, groups := FindNodesRound(target);
      order := ExpireSearchers(now);
    }

    /** The peer loop of `load_torrent`: the peers are tried in the order
        `order` until one's answer yields a record, which is stored unless
        its hash already is. `answers` stands for what each peer's metadata
        exchange returns. */
    method TryPeers(infoHash: Value, order: seq<Addr>, answers: Addr -> Option<Value>, now: int) returns (found: Option<Metadata>)
      requires UniqueRecords(torrents)
      modifies this`torrents
      ensures found == FirstSuccess(answers, order, infoHash, now)
      ensures torrents == if found.Some? then InsertIfAbsent(old(torrents), found.value) else old(torrents)
      ensures UniqueRecords(torrents)
    {
      found := None;
      var i := 0;
      while i < |order|
        invariant 0 <= i <= |order|
        invariant found.None? && torrents == old(torrents)
        invariant FirstSuccess(answers, order, infoHash, now) == FirstSuccess(answers, order[i..], infoHash, now)
      {
        FirstSuccessFrom(answers, order, i, infoHash, now);
        var attempt := Attempt(answers(order[i]), infoHash, now);
        if attempt.Some? {
          torrents := InsertIfAbsent(torrents, attempt.value);
          found := attempt;
          break;
        }
        i := i + 1;
      }
    }

    /** `load_torrent(info_hash, peers)`: the peers, in some order, go through
        `TryPeers`; finally the hash leaves the in-progress set, which raises
        when it is not there. */
    method LoadTorrent(infoHash: Value, peers: set<Addr>, answers: Addr -> Option<Value>, now: int)
      returns (raised: bool, order: seq<Addr>, found: Option<Metadata>)
      requires UniqueRecords(torrents)
      modifies this`torrents, this`torrentInProgress
      ensures Enumerates(order, peers)
      ensures found == FirstSuccess(answers, order, infoHash, now)
      ensures torrents == if found.Some? then InsertIfAbsent(old(torrents), found.value) else old(torrents)
      ensures UniqueRecords(torrents)
      ensures raised <==> infoHash !in old(torrentInProgress)
      ensures torrentInProgress == old(torrentInProgress) - {infoHash}
    {
      order := Enumerate(peers);
      found := TryPeers(infoHash, order, answers, now);
      if infoHash in torrentInProgress {
        torrentInProgress := torrentInProgress - {infoHash};
        raised := false;
      } else {
        raised := true;
      }
    }

    /** Runs the `i`th scheduled load. Its hash is always in progress, so the
        load never raises, and afterwards no search or load works on it. */
    method RunScheduledLoad(i: int, answers: Addr -> Option<Value>, now: int)
      returns (order: seq<Addr>, found: Option<Metadata>)
      requires Valid() && 0 <= i < |pendingLoads|
      modifies this`pendingLoads, this`torrents, this`torrentInProgress
      ensures Valid()
      ensures pendingLoads == old(pendingLoads[..i] + pendingLoads[i + 1..])
      ensures torrentInProgress == old(torrentInProgress) - {old(pendingLoads[i].infoHash)}
      ensures !InFlight(searchers, pendingLoads, old(pendingLoads[i].infoHash))
      ensures Enumerates(order, old(pendingLoads[i].peers))
      ensures found == FirstSuccess(answers, order, old(pendingLoads[i].infoHash), now)
      ensures torrents == if found.Some? then InsertIfAbsent(old(torrents), found.value) else old(torrents)
    {
      var load := pendingLoads[i];
      TrackedLoad(searchers, pendingLoads, torrentInProgress, i);
      pendingLoads := pendingLoads[..i] + pendingLoads[i + 1..];
      var raised;
      raised, order, found := LoadTorrent(load.infoHash, load.peers, answers, now);
      assert !raised;
    }
  }
}
