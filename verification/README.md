# Grapefruit DHT crawler — a Dafny model of its bookkeeping

Grapefruit is a Mainline DHT crawler. It joins the BitTorrent DHT (the KRPC
protocol of BEP 5) as a node and keeps a Kademlia-style routing table of 160
buckets indexed by XOR distance. It answers ping, find_node, get_peers and
announce_peer queries. For every info hash it hears about, it searches the DHT
for peers. It then fetches the torrent's metadata from those peers and stores
one record per info hash in a `torrents` collection.

This project models the state that one crawler node keeps and the rules that
update it:

- the routing table and its capacity and eviction rule (`add_node`);
- the outward scan of `get_closest_nodes`;
- the peer searches: a wrapping 32-bit counter, 4-byte transaction ids, the
  attempt budget of `update_peers_searcher`, and expiry after 60 seconds;
- the bounded pool of candidate node groups;
- the KRPC responder and the error 202 reply;
- the storing crawler's torrent bookkeeping:
  - the in-progress set;
  - the file-list rule for single-file and multi-file info dictionaries;
  - the stop at the first peer that yields metadata;
  - the insert-if-absent rule.

Modules:

- `Bencode`: decoded bencode values, Python truthiness and hashability, and
  `str(v, "utf-8")`.
- `Sets`: iterating a Python set in some order.
- `Utils`: the helpers the crawler imports, as function values with the
  contracts the crawler relies on.
- `Routing`: the table and its scans as functions.
- `Krpc`: messages and the reply rule.
- `Searchers`: counter, ids, search update, expiry, and the in-flight
  invariant.
- `Torrents`: metadata records and the collection.
- `Crawler`: the crawler object. `DHTCrawler` is a class whose methods update
  its fields in place. Every handler keeps `Valid()`:
  - 160 buckets of at most 1600 nodes;
  - at most 16000 candidate groups of at most 8 nodes;
  - the counter in [0, 2^32 - 1];
  - every searcher with 1 to 8 attempts left;
  - at most one stored record per info hash;
  - every info hash that a search or a scheduled load works on is marked in
    progress, and at most one search or load works on it at a time.

Sent datagrams are appended to `outbox`. Randomness is a parameter (`coin` for
`get_rand_bool`, `token`) or a nondeterministic choice (random ids, random
indices, samples). Time is an integer number of microseconds, so that
`timedelta.seconds` can be stated exactly. Each handler runs as one atomic
step.

The effect of each handler is a ghost predicate over the state before and
after it: `NodeAdded` (`add_node`), `Enqueued` (`enqueue_torrent`),
`Absorbed` (the searcher-or-candidate branch of `handle_response`),
`QueryStep` (what `handle_query` does after its reply), `ResponseHandled` and
`QueryHandled`. Where one step follows another, a ghost out-parameter names
what had been sent when the later step began, so that the contracts say
which datagrams each step sent and in what order.

## Model

| member | source | states |
|---|---|---|
| `Bencode.AsciiDecodes` | crawler.py:156 | `str(v, "utf-8")` of a byte string of ASCII characters succeeds and gives the same bytes, so the tags "r", "q", "e" and the query names read as themselves |
| `Bencode.MalformedDoesNotDecode` | crawler.py:156 | `str(v, "utf-8")` raises on every byte string that opens with a continuation byte, with 0xC0/0xC1, with a byte above 0xF4, or with a lone lead byte |
| `Sets.Enumerate` | crawler.py:149-150 | iterating a set visits every element exactly once, in some order |
| `Routing.BucketIndex` | crawler.py:106 | the bucket index of an XOR distance lies in 0..159 |
| `Routing.FromBucket` | crawler.py:95 | the nodes picked from one bucket are members of that bucket |
| `Routing.LeftScan` | crawler.py:93-96 | the downward scan keeps what it has gathered, gathers only table nodes, and stops once it holds k nodes |
| `Routing.RightScan` | crawler.py:98-101 | the upward scan keeps what it has gathered, gathers only table nodes, and stops once it holds k nodes |
| `Routing.ClosestNodes` | crawler.py:87-103 | `get_closest_nodes` returns at most k nodes, all of them in the routing table |
| `Routing.LeftScanReadsBelow` | crawler.py:93-96 | the left scan depends only on the buckets at or below its start |
| `Routing.RightScanReadsAbove` | crawler.py:98-101 | the right scan depends only on the buckets at or above its start |
| `Routing.AddRuleKeepsCapacity` | crawler.py:109-116 | the `add_node` rule never lets a bucket exceed 1600 nodes, and it changes the node's bucket by at most one node |
| `Krpc.ParseQuery` | crawler.py:191-193 | a query parses exactly when `a` is a dictionary with an `id` and `q` is UTF-8 text. The parse keeps `a`, takes the sender from `a["id"]` and the type from the text of `q` |
| `Krpc.QueryReply` | crawler.py:190-250 | an unknown query type gets no reply. A known type gets a reply exactly when `t` and its required argument are present. Every reply echoes `t`, has `y` = "r", and its `r` is `ReplyBody`: the crawler's id, for find_node and get_peers `encode_nodes` of the 8 closest nodes to the target or info hash, and for get_peers the token |
| `Krpc.ReplyBody` | crawler.py:197-248 | the `r` dictionary is exactly `{id}` for ping and announce_peer, `{id, nodes}` for find_node and `{id, nodes, token}` for get_peers, where `nodes` is `encode_nodes(get_closest_nodes(x))` for the target or info hash `x` |
| `Krpc.ReplyShape` | crawler.py:198-204 | a reply message built from a body with an `id` is a reply from that id echoing `t` |
| `Krpc.ParseResponse` | crawler.py:172-179 | a response parses exactly when `r` is a dictionary with an `id`, `t` is present and hashable, and `decode_nodes`/`decode_values` accept the fields (absent ones read as empty). The parse keeps `t`, takes the sender from `r["id"]`, and its node and peer sets are the decoded lists' elements |
| `Searchers.NextSeq` | crawler.py:119-122 | the counter steps to (s + 1) mod 2^32 and stays in [0, 2^32 - 1] |
| `Searchers.TransactionId` | crawler.py:124 | the 4-byte big-endian id spells the counter back |
| `Searchers.TransactionIdInjective` | crawler.py:124-125 | distinct counter values give distinct transaction ids |
| `Searchers.Advance` | crawler.py:135-147 | node and value sets become the unions. Attempts drop by exactly one when the 16 closest nodes are unchanged, and never increase |
| `Searchers.RunBounds` | crawler.py:130-152 | over any series of answers the attempts drop by at most one per answer and never increase, and every reported node and peer is kept |
| `Searchers.StaleAnswersExhaust` | crawler.py:141-152 | answers that bring no new node use up one attempt each |
| `Searchers.ExpiryWithinADay` | crawler.py:272 | under one day old, a searcher has expired exactly when it is at least 60 seconds old |
| `Searchers.ExpiryIgnoresADay` | crawler.py:272 | a searcher one day older expires exactly when it did before |
| `Searchers.ExpiryIgnoresWholeDays` | crawler.py:272 | whole days make no difference to the expiry rule, because `timedelta.seconds` leaves them out |
| `Searchers.OneDayTenSecondsNotExpired` | crawler.py:272 | a searcher one day and ten seconds old has not expired |
| `Searchers.TrackedStart` | app.py:89-96 | starting a search for a hash not in progress, and marking it, keeps the in-flight invariant |
| `Searchers.TrackedRestore` | crawler.py:146-147 | storing a searcher back under its key keeps the in-flight invariant |
| `Searchers.TrackedFinish` | crawler.py:151-152 | ending a search and scheduling its load keeps the in-flight invariant |
| `Searchers.TrackedLoad` | app.py:86-87 | running a scheduled load and clearing its hash keeps the invariant, and then nothing works on that hash |
| `Torrents.FileList` | app.py:62-65 | with `files`, the list is kept as it is. Without it, `length` and `name` give the one entry `{"length", "path": [name]}`, with exactly those two keys. With neither, a KeyError |
| `Torrents.Attempt` | app.py:57-72 | a peer's answer yields a record exactly when it is a dictionary with a `name` and a file list. The record carries the info hash, that file list, the name and the time |
| `Torrents.FirstSuccessIsFirst` | app.py:48-83 | the first success is None exactly when no peer's answer yields a record, and otherwise the record of a peer all of whose predecessors yielded none |
| `Torrents.FirstSuccessFrom` | app.py:59-60 | a peer without a record is skipped for the rest; a peer with one ends the search with it |
| `Torrents.InsertIfAbsent` | app.py:80-81 | afterwards the hash is stored, no other hash is added or lost, an existing record is left alone, a new hash appends the record `m` itself after the stored ones, and the collection stays unique |
| `Crawler.ExpiredLoadsExact` | crawler.py:270-274 | expiry schedules the load of each expired searcher exactly once and nothing else |
| `Crawler.RemainingKeeps` | crawler.py:271-274 | a searcher not yet visited by the expiry loop is still present, unchanged |
| `Crawler.RemainingExact` | crawler.py:271-274 | the expiry loop removes exactly the visited searchers that have expired |
| `Crawler.DHTCrawler.constructor` | crawler.py:15-30 | 160 empty buckets and empty candidates, searchers and counter. A truthy given id is kept. The torrents collection is the given one, with its unique index (app.py:18-21, 25-34) |
| `Crawler.DHTCrawler.FindNode` | crawler.py:65-74 | one find_node query to the address, carrying the target when that is truthy |
| `Crawler.DHTCrawler.SendGetPeers` | crawler.py:76-85 | one get_peers query for the info hash to the address, carrying `t` when that is truthy |
| `Crawler.DHTCrawler.SendGetPeersAll` | crawler.py:127-128 | one get_peers query per node, in order |
| `Crawler.DHTCrawler.ScanLeft` | crawler.py:93-96 | the first while loop computes exactly `Routing.LeftScan` from the target's bucket |
| `Crawler.DHTCrawler.ScanRight` | crawler.py:98-101 | the second while loop computes exactly `Routing.RightScan` from the next bucket |
| `Crawler.DHTCrawler.GetClosestNodes` | crawler.py:87-103 | the two while loops compute exactly `Routing.ClosestNodes` |
| `Crawler.DHTCrawler.AddNode` | crawler.py:105-116 | `NodeAdded`: only the node's bucket changes. Below 1600 nodes the bucket takes the node. A full bucket, on a true flag and a new node, loses exactly one member. Otherwise the bucket is unchanged and exactly one find_node query goes to the node. An unhashable id raises before any change. The table keeps its bounds |
| `Crawler.DHTCrawler.SearchPeers` | crawler.py:118-128 | the counter wraps or steps. A searcher with empty sets and 8 attempts is stored under the counter's 4-byte id. The 16 closest nodes, returned, are each sent get_peers under that id |
| `Crawler.DHTCrawler.PeersValuesReceived` | app.py:104-105 | the load of the peers is scheduled |
| `Crawler.DHTCrawler.UpdatePeersSearcher` | crawler.py:130-152 | an unknown `t` changes nothing. Otherwise the searcher is advanced. With attempts left it is stored back and each of its 16 closest nodes is queried again, in the returned order; with none left it is removed and its load scheduled |
| `Crawler.DHTCrawler.EnqueueTorrent` | app.py:89-96 | `Enqueued`: a hash neither in progress nor stored is marked in progress, and a search for it starts as in `SearchPeers`. Any other hash changes nothing. An unhashable one raises before any change |
| `Crawler.DHTCrawler.AddCandidates` | crawler.py:181-185 | when the pool is full, one group is removed before appending. The appended group is a sample of min(\|nodes\|, 8) distinct response nodes. The pool stays within 16000 groups of at most 8 nodes |
| `Crawler.DHTCrawler.AbsorbResponse` | crawler.py:179-185 | `Absorbed`: a `t` owned by a searcher advances it (`SearcherStep`), and while it stays its closest nodes are each sent get_peers under `t`. Any other `t` adds a candidate group (`CandidateStep`) and sends nothing |
| `Crawler.DHTCrawler.HandleResponse` | crawler.py:171-188 | `ResponseHandled`: a malformed response raises and changes nothing. Otherwise the response is absorbed, then the responder goes through `add_node`, whose find_node comes after the search's get_peers queries |
| `Crawler.DHTCrawler.QueryReceived` | crawler.py:236-252 | `QueryStep`: get_peers and announce_peer enqueue their info hash, and an unhashable one raises before any change. Otherwise the sender goes through `add_node`, also for query types that got no reply. The get_peers queries of a started search come before `add_node`'s find_node |
| `Crawler.DHTCrawler.HandleQuery` | crawler.py:190-253 | `QueryHandled`: a query that fails to parse or lacks `t` or its argument raises and changes nothing. Otherwise the reply of `Krpc.QueryReply` is sent first (none for an unknown type), then `QueryStep` |
| `Crawler.DHTCrawler.Dispatch` | crawler.py:156-161 | "r" has the effect of `HandleResponse`, "q" that of `HandleQuery`, and any other type changes nothing and does not raise |
| `Crawler.DHTCrawler.HandleMessage` | crawler.py:154-169 | dispatch on the text of `y` with the handlers' full effects. A `y` that is not text raises. Whenever handling raises, error 202 "Server Error" echoing `t` is sent after what the handler sent. A non-dictionary message raises without sending. An error message from a peer changes nothing |
| `Crawler.DHTCrawler.FindNodes` | crawler.py:267-268 | one find_node query for the target to each node, in order |
| `Sets.RemoveAt` | crawler.py:265 | `list.pop(j)` takes out exactly the element at `j` |
| `Crawler.DHTCrawler.PopCandidates` | crawler.py:264-265 | min(\|candidates\|, 7) groups leave the pool, which loses exactly those groups. Their nodes are returned in order |
| `Crawler.DHTCrawler.RetireSearcher` | crawler.py:273-274 | the searcher's load is scheduled, and it is removed |
| `Crawler.DHTCrawler.RetireExpired` | crawler.py:271-274 | visiting the snapshot's keys removes the expired searchers and schedules their loads in visiting order |
| `Crawler.DHTCrawler.ExpireSearchers` | crawler.py:270-274 | afterwards exactly the unexpired searchers remain, and each expired one has its load scheduled once |
| `Crawler.DHTCrawler.FindNodesRound` | crawler.py:261-268 | find_node queries for the target go to its 8 closest nodes and then to the nodes of min(\|candidates\|, 7) popped groups, in order, and the pool loses exactly those groups |
| `Crawler.DHTCrawler.AutoFindStep` | crawler.py:259-274 | find_node queries for a random truthy target go to the 8 closest nodes and to the nodes of the popped groups, then exactly the expired searchers are retired with their loads scheduled |
| `Crawler.DHTCrawler.TryPeers` | app.py:48-83 | the loop stores the first peer's record (`Torrents.FirstSuccess`), if any, with insert-if-absent |
| `Crawler.DHTCrawler.LoadTorrent` | app.py:40-87 | peers are tried in some order and the first success is stored if absent. On every path the hash leaves the in-progress set, and that raises only when it was not there |
| `Crawler.DHTCrawler.RunScheduledLoad` | app.py:104-105 | a scheduled load never raises, and afterwards no search or load works on its hash |

## Left out

- The asyncio plumbing is not modelled: `datagram_received`, `connection_made`/`connection_lost`, `run`, `stop`, `ensure_future` and `asyncio.sleep`. Each handler is one atomic step. In the running program, `enqueue_torrent` awaits the database between its in-progress test and its `add`. Two get_peers queries for the same hash can both pass the test there, and the second load's `remove` then raises. The model's in-flight invariant holds only for atomic handlers.
- Bencode byte encoding and decoding (`bdecode`, `bencode`) and the UDP transport are not modelled. Messages are decoded values, and `send_message` appends to `outbox`. The `""` default of the error reply's `t` is modelled as the empty byte string, which bencodes the same way.
- The `utils` helpers (`xor`, `get_routing_table_index`, `fetch_k_closest_nodes`, `encode_nodes`, `decode_nodes`, `decode_values`) are not modelled. utils.py is not part of this model: the helpers are function values, and only the contracts in `Utils.Helpers.Valid` are assumed. A helper raising on a malformed argument is modelled only for `decode_nodes` and `decode_values`.
- Crawler.DHTCrawler.AutoFindStep: of the random target, the model uses only that it is truthy. Random transaction ids, node ids and tokens are unconstrained values.
- Crawler.DHTCrawler.ExpireSearchers: `searchers.copy()` is visited in insertion order in Python. The model allows any order, so the order of the scheduled loads is not pinned down.
- MongoDB is not modelled: the collection is an in-memory sequence of records, and the unique index of `create_index` is the `UniqueRecords` invariant. Database failures and a duplicate-key error, which the bare `except` in `load_torrent` would swallow, are not modelled.
- `hexlify` and `decode_bytes` are not modelled: records store the info hash and the values as given. This assumes `hexlify` is injective.
- The metadata exchange (`BitTorrentProtocol`, TCP connections, the one-second timeout) is not modelled. torrent.py is not part of this model; what each peer's exchange returns is the `answers` oracle, with None for a refusal, a timeout or an error.
- The base hooks `ping_received` and `find_node_received` do nothing and are not modelled. Logging, `__main__` and the bootstrap `find_node` calls in `run` are not modelled either.
