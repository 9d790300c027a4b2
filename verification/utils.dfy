/** The helpers the crawler imports from its `utils` module. utils.py is not
    part of this model: each helper is a function value, and `Valid` states
    the only facts about them the crawler relies on. */
module Utils {
  import opened Wrappers
  import opened Bencode

  /** An address `(host, port)`; also a peer as `decode_values` returns it. */
  datatype Addr = Addr(host: string, port: int)

  /** `Node(id, host, port)`: a DHT node as the routing table stores it. */
  datatype Node = Node(id: Value, host: string, port: int)

  function AddrOf(n: Node): Addr {
    Addr(n.host, n.port)
  }

  datatype Helpers = Helpers(
    /** `xor(a, b)`: the XOR distance of two ids */
    xor: (Value, Value) -> Value,
    /** `get_routing_table_index(distance)` */
    routingTableIndex: Value -> int,
    /** `fetch_k_closest_nodes(nodes, target, k)` */
    fetchKClosestNodes: (set<Node>, Value, nat) -> seq<Node>,
    /** `encode_nodes(nodes)`: the compact node info string */
    encodeNodes: seq<Node> -> Bytes,
    /** `decode_nodes(v)`; None where it raises */
    decodeNodes: Value -> Option<seq<Node>>,
    /** `decode_values(v)`; None where it raises */
    decodeValues: Value -> Option<seq<Addr>>)
  {
    /** The contracts assumed of the helpers: a routing-table index lies in
        0..159, and the k closest nodes are at most k members of the input. */
    ghost predicate Valid() {
      && (forall d :: 0 <= routingTableIndex(d) < 160)
      && (forall s, t, k :: |fetchKClosestNodes(s, t, k)| <= k)
      && (forall s, t, k, i :: 0 <= i < |fetchKClosestNodes(s, t, k)| ==> fetchKClosestNodes(s, t, k)[i] in s)
    }
  }
}
