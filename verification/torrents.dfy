/** The torrent bookkeeping of the storing crawler: the metadata record built
    from a peer's info dictionary, the first peer that yields one, and the
    torrents collection keyed by info hash. */
module Torrents {
  import opened Wrappers
  import opened Bencode
  import opened Utils

  /** A stored torrent: `{"info_hash", "files", "name", "timestamp"}`. */
  datatype Metadata = Metadata(infoHash: Value, files: Value, name: Value, timestamp: int)

  /** One entry of a multi-file list: a dictionary with a length and a path list. */
  predicate IsFileEntry(v: Value) {
    v.BDict? && "length" in v.entries && "path" in v.entries && v.entries["path"].BList?
  }

  /** The file list stored for an info dictionary: its own `files` when it has
      one, otherwise a one-entry list made from `length` and `name`; a
      dictionary with neither raises `KeyError` (None here). */
  function FileList(info: map<string, Value>): (r: Option<Value>)
    ensures "files" in info ==> r == Some(info["files"])
    ensures "files" !in info ==> (r.Some? <==> "length" in info && "name" in info)
    ensures "files" !in info && r.Some? ==>
              && r.value.BList? && |r.value.items| == 1 && IsFileEntry(r.value.items[0])
              && r.value.items[0].entries["length"] == info["length"]
              && r.value.items[0].entries["path"] == BList([info["name"]])
              && r.value.items[0].entries.Keys == {"length", "path"}
  {
    if "files" in info then Some(info["files"])
    else if "length" in info && "name" in info then
      Some(BList([BDict(map["length" := info["length"], "path" := BList([info["name"]])])]))
    else None
  }

  /** What one peer's answer yields: a record when the answer is a non-empty
      dictionary with a name and a file list; anything else (no answer, an
      empty or malformed one, a missing key) moves on to the next peer. */
  function Attempt(answer: Option<Value>, infoHash: Value, now: int): (r: Option<Metadata>)
    ensures r.Some? <==> answer.Some? && answer.value.BDict? && "name" in answer.value.entries
                         && FileList(answer.value.entries).Some?
    ensures r.Some? ==> && r.value.infoHash == infoHash && r.value.timestamp == now
                        && r.value.name == answer.value.entries["name"]
                        && Some(r.value.files) == FileList(answer.value.entries)
  {
    if answer.None? || !Truthy(answer.value) || !answer.value.BDict? then None
    else
      var info := answer.value.entries;
      match FileList(info)
      case None => None
      case Some(files) =>
        if "name" in info then Some(Metadata(infoHash, files, info["name"], now)) else None
  }

  /** The record from the first peer, in the order tried, whose answer
      yields one; None when no peer's does. */
  function FirstSuccess(answers: Addr -> Option<Value>, peers: seq<Addr>, infoHash: Value, now: int): Option<Metadata>
    decreases |peers|
  {
    if peers == [] then None
    else
      var first := Attempt(answers(peers[0]), infoHash, now);
      if first.Some? then first else FirstSuccess(answers, peers[1..], infoHash, now)
  }

  /** `FirstSuccess` is None exactly when no peer's answer yields a record,
      and otherwise the record of a peer all of whose predecessors failed. */
  lemma {:induction false} FirstSuccessIsFirst(answers: Addr -> Option<Value>, peers: seq<Addr>, infoHash: Value, now: int)
    ensures FirstSuccess(answers, peers, infoHash, now).None? <==>
              forall i :: 0 <= i < |peers| ==> Attempt(answers(peers[i]), infoHash, now).None?
    ensures FirstSuccess(answers, peers, infoHash, now).Some? ==>
              exists i :: && 0 <= i < |peers| && FirstSuccess(answers, peers, infoHash, now) == Attempt(answers(peers[i]), infoHash, now)
                          && forall j :: 0 <= j < i ==> Attempt(answers(peers[j]), infoHash, now).None?
    decreases |peers|
  {
    if peers != [] {
      FirstSuccessIsFirst(answers, peers[1..], infoHash, now);
      assert forall i :: 0 < i < |peers| ==> peers[i] == peers[1..][i - 1];
      var r := FirstSuccess(answers, peers, infoHash, now);
      if Attempt(answers(peers[0]), infoHash, now).None? && r.Some? {
        var i :| && 0 <= i < |peers[1..]| && r == Attempt(answers(peers[1..][i]), infoHash, now)
                 && forall j :: 0 <= j < i ==> Attempt(answers(peers[1..][j]), infoHash, now).None?;
        assert r == Attempt(answers(peers[i + 1]), infoHash, now);
        assert forall j :: 0 <= j < i + 1 ==> Attempt(answers(peers[j]), infoHash, now).None?;
      }
    }
  }

  /** Trying the peers from the `i`th on: the `i`th peer's record, or else
      the first success among the rest. */
  lemma FirstSuccessFrom(answers: Addr -> Option<Value>, peers: seq<Addr>, i: int, infoHash: Value, now: int)
    requires 0 <= i < |peers|
    ensures FirstSuccess(answers, peers[i..], infoHash, now) ==
              if Attempt(answers(peers[i]), infoHash, now).Some? then Attempt(answers(peers[i]), infoHash, now)
              else FirstSuccess(answers, peers[i + 1..], infoHash, now)
  {
    assert peers[i..][0] == peers[i] && peers[i..][1..] == peers[i + 1..];
  }

  /** `count(filter={"info_hash": ...}) > 0` */
  predicate IsStored(db: seq<Metadata>, infoHash: Value) {
    exists i :: 0 <= i < |db| && db[i].infoHash == infoHash
  }

  /** The unique index on `info_hash`. */
  predicate UniqueRecords(db: seq<Metadata>) {
    forall i, j :: 0 <= i < j < |db| ==> db[i].infoHash != db[j].infoHash
  }

  /** `if not is_torrent_exists: insert_one(metadata)`: afterwards the hash is
      stored, the index stays unique, and no other hash is added or lost; a
      new hash gets the record `m` itself, after the records already stored. */
  function InsertIfAbsent(db: seq<Metadata>, m: Metadata): (r: seq<Metadata>)
    ensures IsStored(r, m.infoHash)
    ensures forall h :: IsStored(r, h) <==> IsStored(db, h) || h == m.infoHash
    ensures UniqueRecords(db) ==> UniqueRecords(r)
    ensures IsStored(db, m.infoHash) ==> r == db
    ensures !IsStored(db, m.infoHash) ==> r == db + [m]
  {
    if IsStored(db, m.infoHash) then db
    else
      var r := db + [m];
      assert r[|db|].infoHash == m.infoHash;
      assert forall i :: 0 <= i < |db| ==> r[i] == db[i];
      r
  }
}
