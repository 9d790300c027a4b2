/** KRPC messages (BEP 5, "KRPC Protocol"): the dictionaries the crawler
    sends, the fields it reads from what it receives, and the reply it
    chooses for each query type ("DHT Queries"). */
module Krpc {
  import opened Wrappers
  import opened Bencode
  import opened Sets
  import opened Utils
  import opened Routing

  // The text constants of the protocol, as the bytes of their ASCII text.
  /** "ping" */
  const Ping: Bytes := [0x70, 0x69, 0x6E, 0x67]
  /** "find_node" */
  const FindNode: Bytes := [0x66, 0x69, 0x6E, 0x64, 0x5F, 0x6E, 0x6F, 0x64, 0x65]
  /** "get_peers" */
  const GetPeers: Bytes := [0x67, 0x65, 0x74, 0x5F, 0x70, 0x65, 0x65, 0x72, 0x73]
  /** "announce_peer" */
  const AnnouncePeer: Bytes := [0x61, 0x6E, 0x6E, 0x6F, 0x75, 0x6E, 0x63, 0x65, 0x5F, 0x70, 0x65, 0x65, 0x72]
  /** "q", the `y` of a query */
  const QueryTag := BStr([0x71])
  /** "r", the `y` of a reply */
  const ReplyTag := BStr([0x72])
  /** "e", the `y` of an error */
  const ErrorTag := BStr([0x65])
  /** "Server Error" */
  const ServerError := BStr([0x53, 0x65, 0x72, 0x76, 0x65, 0x72, 0x20, 0x45, 0x72, 0x72, 0x6F, 0x72])

  /** The keys of a reply body are distinct. */
  lemma BodyKeysDistinct()
    ensures "id" != "nodes" && "id" != "token" && "nodes" != "token"
  {
    assert |"id"| == 2 && "nodes"[0] == 'n' && "token"[0] == 't';
  }

  /** One `send_message(data, addr)`: a message and where it goes. */
  datatype Datagram = Datagram(msg: Value, addr: Addr)

  function QueryMessage(t: Value, q: Bytes, args: map<string, Value>): Value {
    BDict(map["t" := t, "y" := QueryTag, "q" := BStr(q), "a" := BDict(args)])
  }

  function ReplyMessage(t: Value, body: map<string, Value>): Value {
    BDict(map["t" := t, "y" := ReplyTag, "r" := BDict(body)])
  }

  /** Error 202 of BEP 5, "Errors". */
  function ErrorMessage(t: Value): Value {
    BDict(map["y" := ErrorTag, "e" := BList([BInt(202), ServerError]), "t" := t])
  }

  /** `v` is a query of kind `q` with a transaction id and an argument
      dictionary holding an `id`. */
  predicate IsQuery(v: Value, q: Bytes) {
    && v.BDict?
    && "t" in v.entries
    && "y" in v.entries && v.entries["y"] == QueryTag
    && "q" in v.entries && v.entries["q"] == BStr(q)
    && "a" in v.entries && v.entries["a"].BDict?
    && "id" in v.entries["a"].entries
  }

  function Args(v: Value): map<string, Value>
    requires v.BDict? && "a" in v.entries && v.entries["a"].BDict?
  {
    v.entries["a"].entries
  }

  /** A find_node query to `addr`; its target is `target` when that is a
      truthy id, and a fresh random id otherwise. */
  predicate IsFindNode(d: Datagram, addr: Addr, target: Option<Value>) {
    && d.addr == addr
    && IsQuery(d.msg, FindNode)
    && "target" in Args(d.msg)
    && (target.Some? && Truthy(target.value) ==> Args(d.msg)["target"] == target.value)
  }

  /** A get_peers query to `addr` for `infoHash`; it carries the
      transaction id `t` when that is truthy. */
  predicate IsGetPeers(d: Datagram, addr: Addr, infoHash: Value, t: Value) {
    && d.addr == addr
    && IsQuery(d.msg, GetPeers)
    && "info_hash" in Args(d.msg) && Args(d.msg)["info_hash"] == infoHash
    && (Truthy(t) ==> d.msg.entries["t"] == t)
  }

  /** `after` is `before` with more datagrams sent after it. */
  ghost predicate Extends(before: seq<Datagram>, after: seq<Datagram>) {
    |after| >= |before| && after[..|before|] == before
  }

  lemma ExtendsTransitive(a: seq<Datagram>, b: seq<Datagram>, c: seq<Datagram>)
    requires Extends(a, b) && Extends(b, c)
    ensures Extends(a, c)
    ensures forall i :: 0 <= i < |b| ==> c[i] == b[i]
  {
    assert forall i :: 0 <= i < |b| ==> c[i] == c[..|b|][i];
    assert c[..|b|][..|a|] == c[..|a|];
  }

  /** `after` is `before` followed by one get_peers query for `infoHash`
      with transaction id `t` to each of `nodes`, in that order. */
  ghost predicate SentGetPeers(before: seq<Datagram>, after: seq<Datagram>, nodes: seq<Node>, infoHash: Value, t: Value) {
    && |after| == |before| + |nodes|
    && after[..|before|] == before
    && forall i :: 0 <= i < |nodes| ==> IsGetPeers(after[|before| + i], AddrOf(nodes[i]), infoHash, t)
  }

  /** `after` is `before` followed by one find_node query for `target` to
      each of `nodes`, in that order. */
  ghost predicate SentFindNode(before: seq<Datagram>, after: seq<Datagram>, nodes: seq<Node>, target: Value) {
    && |after| == |before| + |nodes|
    && after[..|before|] == before
    && forall i :: 0 <= i < |nodes| ==> IsFindNode(after[|before| + i], AddrOf(nodes[i]), Some(target))
  }

  /** A reply (`y` = "r") that echoes the transaction id `t` and carries
      the responder's `id`. */
  predicate IsReplyFrom(v: Value, t: Value, id: Value) {
    && v.BDict?
    && "t" in v.entries && v.entries["t"] == t
    && "y" in v.entries && v.entries["y"] == ReplyTag
    && "r" in v.entries && v.entries["r"].BDict?
    && "id" in v.entries["r"].entries && v.entries["r"].entries["id"] == id
  }

  /** The fields `handle_query` reads before it branches. */
  datatype Query = Query(args: map<string, Value>, sender: Value, kind: Bytes)

  /** `msg["a"]`, `args["id"]` and `str(msg["q"], "utf-8")`; None where one
      of them raises. */
  function ParseQuery(msg: map<string, Value>): (r: Option<Query>)
    ensures r.Some? <==> "a" in msg && msg["a"].BDict? && "id" in msg["a"].entries && "q" in msg && Decode(msg["q"]).Some?
    ensures r.Some? ==> msg["a"] == BDict(r.value.args) && "id" in r.value.args
    ensures r.Some? ==> r.value.sender == r.value.args["id"]
    ensures r.Some? ==> Decode(msg["q"]) == Some(r.value.kind)
  {
    if "a" !in msg || !msg["a"].BDict? || "id" !in msg["a"].entries then None
    else if "q" !in msg || Decode(msg["q"]).None? then None
    else Some(Query(msg["a"].entries, msg["a"].entries["id"], msg["q"].bytes))
  }

  /** The four query types of BEP 5, "DHT Queries". */
  predicate IsKnownQuery(kind: Bytes) {
    kind == Ping || kind == FindNode || kind == GetPeers || kind == AnnouncePeer
  }

  /** The argument a query type needs besides `id`; ping needs none. */
  predicate HasRequiredArg(q: Query) {
    if q.kind == FindNode then "target" in q.args
    else if q.kind == GetPeers || q.kind == AnnouncePeer then "info_hash" in q.args
    else true
  }

  /** The id whose closest nodes a find_node or get_peers reply lists. */
  function Target(q: Query): Value
    requires (q.kind == FindNode || q.kind == GetPeers) && HasRequiredArg(q)
  {
    if q.kind == FindNode then q.args["target"] else q.args["info_hash"]
  }

  /** What `handle_query` sends back: None where it raises before sending,
      Some(None) for a query type it does not know, Some(Some(reply))
      otherwise. Every reply echoes the query's `t`, has `y` = "r" and
      carries the crawler's own id; a find_node or get_peers reply also
      carries the compact info of the 8 closest nodes to the target, a
      get_peers reply the token, and the others nothing else. */
  function QueryReply(h: Helpers, ownId: Value, table: Table, msg: map<string, Value>, token: Value): (r: Option<Option<Value>>)
    requires h.Valid() && |table| == Buckets
    ensures r.Some? ==> ParseQuery(msg).Some?
    ensures ParseQuery(msg).Some? && !IsKnownQuery(ParseQuery(msg).value.kind) ==> r == Some(None)
    ensures ParseQuery(msg).Some? && IsKnownQuery(ParseQuery(msg).value.kind) ==>
              (r.Some? <==> "t" in msg && HasRequiredArg(ParseQuery(msg).value)) && (r.Some? ==> r.value.Some?)
    ensures r.Some? && r.value.Some? ==> "t" in msg && IsReplyFrom(r.value.value, msg["t"], ownId)
    ensures r.Some? && r.value.Some? ==> r.value.value.entries["r"].entries == ReplyBody(h, ownId, table, ParseQuery(msg).value, token)
    ensures r.Some? && r.value.Some? && ParseQuery(msg).value.kind in {FindNode, GetPeers} ==>
              var q := ParseQuery(msg).value;
              "nodes" in r.value.value.entries["r"].entries
              && r.value.value.entries["r"].entries["nodes"] == BStr(h.encodeNodes(ClosestNodes(h, ownId, table, Target(q), K)))
    ensures r.Some? && r.value.Some? && ParseQuery(msg).value.kind == GetPeers ==>
              "token" in r.value.value.entries["r"].entries
              && r.value.value.entries["r"].entries["token"] == token
  {
    match ParseQuery(msg)
    case None => None
    case Some(q) =>
      if !IsKnownQuery(q.kind) then Some(None)
      else if !HasRequiredArg(q) || "t" !in msg then None
      else
        var body := ReplyBody(h, ownId, table, q, token);
        ReplyShape(msg["t"], body);
        Some(Some(ReplyMessage(msg["t"], body)))
  }

  /** The `r` dictionary of the reply to a known query: the crawler's id,
      the compact info of the 8 closest nodes to the target for find_node and
      to the info hash for get_peers, and the token for get_peers. */
  function ReplyBody(h: Helpers, ownId: Value, table: Table, q: Query, token: Value): (body: map<string, Value>)
    requires h.Valid() && |table| == Buckets
    requires IsKnownQuery(q.kind) && HasRequiredArg(q)
    ensures "id" in body && body["id"] == ownId
    ensures q.kind == FindNode ==>
              body == map["id" := ownId, "nodes" := BStr(h.encodeNodes(ClosestNodes(h, ownId, table, q.args["target"], K)))]
    ensures q.kind == GetPeers ==>
              body == map["id" := ownId, "nodes" := BStr(h.encodeNodes(ClosestNodes(h, ownId, table, q.args["info_hash"], K))),
                          "token" := token]
    ensures q.kind == Ping || q.kind == AnnouncePeer ==> body == map["id" := ownId]
  {
    BodyKeysDistinct();
    if q.kind == FindNode then
      var nodes := ClosestNodes(h, ownId, table, q.args["target"], K);
      map["id" := ownId, "nodes" := BStr(h.encodeNodes(nodes))]
    else if q.kind == GetPeers then
      var nodes := ClosestNodes(h, ownId, table, q.args["info_hash"], K);
      map["id" := ownId, "nodes" := BStr(h.encodeNodes(nodes)), "token" := token]
    else
      map["id" := ownId]
  }

  lemma ReplyShape(t: Value, body: map<string, Value>)
    requires "id" in body
    ensures IsReplyFrom(ReplyMessage(t, body), t, body["id"])
    ensures ReplyMessage(t, body).entries["r"].entries == body
  {
  }

  /** The fields `handle_response` reads before it changes anything. */
  datatype Response = Response(t: Value, sender: Value, nodes: set<Node>, values: set<Addr>)

  /** `msg["r"]`, `msg["t"]`, `args["id"]`, the decoded `nodes` and `values`
      (absent ones read as empty), and the hashability `t in searchers`
      needs; None where one of them raises. */
  function ParseResponse(h: Helpers, msg: map<string, Value>): (r: Option<Response>)
    ensures r.Some? <==>
              && "r" in msg && "t" in msg && msg["r"].BDict? && "id" in msg["r"].entries && Hashable(msg["t"])
              && h.decodeNodes(GetOr(msg["r"].entries, "nodes", BStr([]))).Some?
              && h.decodeValues(GetOr(msg["r"].entries, "values", BList([]))).Some?
    ensures r.Some? ==> r.value.t == msg["t"] && r.value.sender == msg["r"].entries["id"]
    ensures r.Some? ==> r.value.nodes == Elements(h.decodeNodes(GetOr(msg["r"].entries, "nodes", BStr([]))).value)
    ensures r.Some? ==> r.value.values == Elements(h.decodeValues(GetOr(msg["r"].entries, "values", BList([]))).value)
  {
    if "r" !in msg || "t" !in msg then None
    else
      var args := msg["r"];
      if !args.BDict? || "id" !in args.entries then None
      else
        var nodes := h.decodeNodes(GetOr(args.entries, "nodes", BStr([])));
        var values := h.decodeValues(GetOr(args.entries, "values", BList([])));
        if nodes.None? || values.None? || !Hashable(msg["t"]) then None
        else Some(Response(msg["t"], args.entries["id"], Elements(nodes.value), Elements(values.value)))
  }
}
