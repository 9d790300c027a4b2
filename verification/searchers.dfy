/** The peer-search records of the crawler: the wrapping transaction
    counter and its 4-byte encoding, the update rule of
    `update_peers_searcher`, the expiry rule, and the invariant that keeps at
    most one search or load per info hash in flight. */
module Searchers {
  import opened Bencode
  import opened Sets
  import opened Utils

  /** `2 ** 32 - 1`, the largest counter value */
  const MaxSeq := 0xFFFF_FFFF
  /** A new search may see the closest nodes stall this often. */
  const InitialAttempts := 8
  /** The search compares and queries the 16 closest nodes. */
  const SearchWidth := 16
  const ExpirySeconds := 60
  const MicrosPerSecond := 1_000_000
  const SecondsPerDay := 86400

  /** `Searcher(info_hash, nodes, values, attempts_count, timestamp)`;
      the timestamp is in microseconds. */
  datatype Searcher = Searcher(infoHash: Value, nodes: set<Node>, values: set<Addr>, attempts: int, timestamp: int)

  /** A scheduled `load_torrent(info_hash, peers)`. */
  datatype Load = Load(infoHash: Value, peers: set<Addr>)

  /** The counter step of `search_peers`: back to 0 from 2 ** 32 - 1 and up
      by one otherwise, which is the increment modulo 2 ** 32. */
  function NextSeq(s: int): (r: int)
    requires 0 <= s <= MaxSeq
    ensures 0 <= r <= MaxSeq
    ensures r == (s + 1) % (MaxSeq + 1)
  {
    if s >= MaxSeq then 0 else s + 1
  }

  /** The unsigned number a byte string spells, most significant byte first. */
  function FromBigEndian(b: Bytes): nat
    decreases |b|
  {
    if b == [] then 0 else FromBigEndian(b[..|b| - 1]) * 256 + b[|b| - 1] as int
  }

  /** `n.to_bytes(4, "big")`: four bytes that spell `n` back. */
  function TransactionId(n: int): (r: Bytes)
    requires 0 <= n <= MaxSeq
    ensures |r| == 4
    ensures FromBigEndian(r) == n
  {
    var n1 := n / 256;
    var n2 := n1 / 256;
    var b := [(n2 / 256) as byte, (n2 % 256) as byte, (n1 % 256) as byte, (n % 256) as byte];
    assert b[..1][..0] == [] && b[..2][..1] == b[..1] && b[..3][..2] == b[..2] && b[..4] == b;
    assert FromBigEndian(b[..1]) == n2 / 256;
    assert FromBigEndian(b[..2]) == n2;
    assert FromBigEndian(b[..3]) == n1;
    b
  }

  /** Distinct counter values give distinct transaction ids. */
  lemma TransactionIdInjective(m: int, n: int)
    requires 0 <= m <= MaxSeq && 0 <= n <= MaxSeq
    ensures TransactionId(m) == TransactionId(n) <==> m == n
  {
  }

  /** `set(fetch_k_closest_nodes(nodes, info_hash, 16))` */
  function Closest(h: Helpers, nodes: set<Node>, infoHash: Value): set<Node> {
    Elements(h.fetchKClosestNodes(nodes, infoHash, SearchWidth))
  }

  /** The searcher after one answer (`update_peers_searcher`): the node and
      value sets grow by the answer's, and an attempt is used up exactly when
      the 16 closest nodes did not change. */
  function Advance(h: Helpers, s: Searcher, nodes: set<Node>, values: set<Addr>): (r: Searcher)
    ensures r.infoHash == s.infoHash && r.timestamp == s.timestamp
    ensures r.nodes == s.nodes + nodes && r.values == s.values + values
    ensures s.attempts - 1 <= r.attempts <= s.attempts
    ensures r.attempts < s.attempts <==> Closest(h, r.nodes, s.infoHash) == Closest(h, s.nodes, s.infoHash)
  {
    var merged := s.nodes + nodes;
    var stalled := Closest(h, merged, s.infoHash) == Closest(h, s.nodes, s.infoHash);
    Searcher(s.infoHash, merged, s.values + values, if stalled then s.attempts - 1 else s.attempts, s.timestamp)
  }

  /** The nodes and peers one response carries. */
  datatype Answer = Answer(nodes: set<Node>, values: set<Addr>)

  /** The searcher after a series of answers. */
  function Run(h: Helpers, s: Searcher, answers: seq<Answer>): Searcher
    decreases |answers|
  {
    if answers == [] then s else Run(h, Advance(h, s, answers[0].nodes, answers[0].values), answers[1..])
  }

  /** Over any series of answers the attempts never increase and drop by at
      most one per answer, and every node and peer ever reported is kept. */
  lemma {:induction false} RunBounds(h: Helpers, s: Searcher, answers: seq<Answer>)
    ensures s.attempts - |answers| <= Run(h, s, answers).attempts <= s.attempts
    ensures Run(h, s, answers).infoHash == s.infoHash
    ensures s.nodes <= Run(h, s, answers).nodes && s.values <= Run(h, s, answers).values
    ensures forall i :: 0 <= i < |answers| ==>
              answers[i].nodes <= Run(h, s, answers).nodes && answers[i].values <= Run(h, s, answers).values
    decreases |answers|
  {
    if answers != [] {
      var next := Advance(h, s, answers[0].nodes, answers[0].values);
      RunBounds(h, next, answers[1..]);
      forall i | 0 <= i < |answers|
        ensures answers[i].nodes <= Run(h, s, answers).nodes && answers[i].values <= Run(h, s, answers).values
      {
        if i > 0 {
          assert answers[i] == answers[1..][i - 1];
        }
      }
    }
  }

  /** A search whose answers name no node it does not know already uses up
      one attempt per answer: after `attempts` such answers it is over. */
  lemma {:induction false} StaleAnswersExhaust(h: Helpers, s: Searcher, answers: seq<Answer>)
    requires forall i :: 0 <= i < |answers| ==> answers[i].nodes <= s.nodes
    ensures Run(h, s, answers).attempts == s.attempts - |answers|
    ensures Run(h, s, answers).nodes == s.nodes
    decreases |answers|
  {
    if answers != [] {
      var next := Advance(h, s, answers[0].nodes, answers[0].values);
      assert next.nodes == s.nodes;
      forall i | 0 <= i < |answers[1..]| ensures answers[1..][i].nodes <= next.nodes {
        assert answers[1..][i] == answers[i + 1];
      }
      StaleAnswersExhaust(h, next, answers[1..]);
    }
  }

  /** `(now - timestamp).seconds >= 60` with times in microseconds. Python's
      `timedelta.seconds` is the seconds field of the normalised delta, which
      leaves out whole days and the microseconds. */
  predicate Expired(now: int, timestamp: int) {
    ((now - timestamp) / MicrosPerSecond) % SecondsPerDay >= ExpirySeconds
  }

  /** A searcher between one minute and one day old has expired; a younger
      one has not. */
  lemma ExpiryWithinADay(now: int, timestamp: int)
    requires 0 <= now - timestamp < SecondsPerDay * MicrosPerSecond
    ensures Expired(now, timestamp) <==> now - timestamp >= ExpirySeconds * MicrosPerSecond
  {
    var secs := (now - timestamp) / MicrosPerSecond;
    assert 0 <= secs < SecondsPerDay;
    assert secs % SecondsPerDay == secs;
  }

  /** A day more makes no difference to the rule. */
  lemma ExpiryIgnoresADay(now: int, timestamp: int)
    ensures Expired(now + SecondsPerDay * MicrosPerSecond, timestamp) == Expired(now, timestamp)
  {
    var d := now - timestamp;
    var q := d / MicrosPerSecond;
    assert d == q * MicrosPerSecond + d % MicrosPerSecond;
    assert (d + SecondsPerDay * MicrosPerSecond) / MicrosPerSecond == q + SecondsPerDay;
    assert q == (q / SecondsPerDay) * SecondsPerDay + q % SecondsPerDay;
    assert (q + SecondsPerDay) % SecondsPerDay == q % SecondsPerDay;
  }

  /** Whole days make no difference to the rule: a searcher one day and ten
      seconds old counts as ten seconds old and stays. */
  lemma {:induction false} ExpiryIgnoresWholeDays(now: int, timestamp: int, days: nat)
    ensures Expired(now + days * (SecondsPerDay * MicrosPerSecond), timestamp) == Expired(now, timestamp)
    decreases days
  {
    if days > 0 {
      var earlier := now + (days - 1) * (SecondsPerDay * MicrosPerSecond);
      ExpiryIgnoresWholeDays(now, timestamp, days - 1);
      ExpiryIgnoresADay(earlier, timestamp);
      assert earlier + SecondsPerDay * MicrosPerSecond == now + days * (SecondsPerDay * MicrosPerSecond);
    }
  }

  lemma OneDayTenSecondsNotExpired(timestamp: int)
    ensures !Expired(timestamp + (SecondsPerDay + 10) * MicrosPerSecond, timestamp)
  {
    ExpiryIgnoresWholeDays(timestamp + 10 * MicrosPerSecond, timestamp, 1);
    ExpiryWithinADay(timestamp + 10 * MicrosPerSecond, timestamp);
  }

  /** Some search or scheduled load is working on `infoHash`. */
  ghost predicate InFlight(searchers: map<Value, Searcher>, pending: seq<Load>, infoHash: Value) {
    (exists t :: t in searchers && searchers[t].infoHash == infoHash)
    || (exists i :: 0 <= i < |pending| && pending[i].infoHash == infoHash)
  }

  /** Every info hash a search or a scheduled load works on is marked in
      progress, and no two of them work on the same info hash. */
  ghost predicate Tracked(searchers: map<Value, Searcher>, pending: seq<Load>, inProgress: set<Value>) {
    && (forall t :: t in searchers ==> searchers[t].infoHash in inProgress)
    && (forall i :: 0 <= i < |pending| ==> pending[i].infoHash in inProgress)
    && (forall t, u :: t in searchers && u in searchers && t != u ==> searchers[t].infoHash != searchers[u].infoHash)
    && (forall i, j :: 0 <= i < j < |pending| ==> pending[i].infoHash != pending[j].infoHash)
    && (forall t, i :: t in searchers && 0 <= i < |pending| ==> searchers[t].infoHash != pending[i].infoHash)
  }

  /** Starting a search for a hash not in progress, under any key (a reused
      key drops the search it held), keeps the invariant once the hash is
      marked in progress. */
  lemma TrackedStart(searchers: map<Value, Searcher>, pending: seq<Load>, inProgress: set<Value>, key: Value, s: Searcher)
    requires Tracked(searchers, pending, inProgress) && s.infoHash !in inProgress
    ensures Tracked(searchers[key := s], pending, inProgress + {s.infoHash})
  {
  }

  /** Re-storing a search under its key with the same hash keeps the invariant. */
  lemma TrackedRestore(searchers: map<Value, Searcher>, pending: seq<Load>, inProgress: set<Value>, key: Value, s: Searcher)
    requires Tracked(searchers, pending, inProgress)
    requires key in searchers && s.infoHash == searchers[key].infoHash
    ensures Tracked(searchers[key := s], pending, inProgress)
  {
  }

  /** Ending a search and scheduling the load of its values keeps the invariant. */
  lemma TrackedFinish(searchers: map<Value, Searcher>, pending: seq<Load>, inProgress: set<Value>, key: Value, values: set<Addr>)
    requires Tracked(searchers, pending, inProgress) && key in searchers
    ensures Tracked(searchers - {key}, pending + [Load(searchers[key].infoHash, values)], inProgress)
  {
    var pending' := pending + [Load(searchers[key].infoHash, values)];
    forall t, i | t in searchers - {key} && 0 <= i < |pending'|
      ensures (searchers - {key})[t].infoHash != pending'[i].infoHash
    {
      if i < |pending| {
        assert pending'[i] == pending[i];
      }
    }
  }

  /** Running a scheduled load and clearing its hash keeps the invariant:
      the hash was in progress and nothing else works on it. */
  lemma TrackedLoad(searchers: map<Value, Searcher>, pending: seq<Load>, inProgress: set<Value>, i: int)
    requires Tracked(searchers, pending, inProgress) && 0 <= i < |pending|
    ensures pending[i].infoHash in inProgress
    ensures !InFlight(searchers, pending[..i] + pending[i + 1..], pending[i].infoHash)
    ensures Tracked(searchers, pending[..i] + pending[i + 1..], inProgress - {pending[i].infoHash})
  {
    var rest := pending[..i] + pending[i + 1..];
    assert forall j :: 0 <= j < |rest| ==> rest[j] == if j < i then pending[j] else pending[j + 1];
  }
}
