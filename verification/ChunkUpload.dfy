/**
 The chunked upload of a file: the client (client/transport.go) cuts it into chunks and sends them one by one, an empty
 chunk last; the server (node/transport/rpc_handler.go) files the chunks under their CIDs and puts the file together when
 the empty chunk arrives.
 */
module ChunkUpload {
  import opened Basics

  const CHUNK_SIZE := 32 * 1024 * 1024

  datatype FileChunkReq = FileChunkReq(
    chunkId: nat, totalLength: nat, totalChunks: nat, chunkCid: Bytes, cid: Bytes, content: Bytes)

  /**
   What becomes of one call: it goes through, it does not arrive, the staging space is short, or a file operation fails and
   leaves the given bytes in the file, if it leaves one.
   */
  datatype Outcome = Fine | Lost | NoSpace | Broken(left: Option<Bytes>)

  /** The directory of one upload: the client's staging path and the CID of the file. */
  type Dir = (Bytes, Bytes)

  datatype ReceivedFileInfo = ReceivedFileInfo(
    cid: Bytes, totalLength: nat, totalChunks: nat, receivedLength: nat, path: Dir, chunkCids: seq<Bytes>)

  function Min(a: int, b: int): int { if a < b then a else b }

  /** Chunk `i` of a file as the client cuts it: a full chunk, the rest, or nothing. */
  function Chunk(content: Bytes, i: nat): Bytes {
    if (i + 1) * CHUNK_SIZE < |content| then content[i * CHUNK_SIZE..(i + 1) * CHUNK_SIZE]
    else if i * CHUNK_SIZE < |content| then content[i * CHUNK_SIZE..]
    else []
  }

  function TotalChunks(content: Bytes): nat { |content| / CHUNK_SIZE + 1 }

  /** The CIDs of the chunks that are used tell them apart, and none is the empty string. */
  ghost predicate Distinguishes(cidOf: Bytes -> Bytes, content: Bytes) {
    && (forall i, j :: 0 <= i < TotalChunks(content) && 0 <= j < TotalChunks(content) ==>
          cidOf(Chunk(content, i)) == cidOf(Chunk(content, j)) ==> Chunk(content, i) == Chunk(content, j))
    && (forall i :: 0 <= i < TotalChunks(content) ==> cidOf(Chunk(content, i)) != [])
  }

  class Server {
    const cidOf: Bytes -> Bytes
    var db: map<Bytes, ReceivedFileInfo>
    var files: map<(Dir, Bytes), Bytes>

    constructor (cidOf: Bytes -> Bytes)
      ensures this.cidOf == cidOf && db == map[] && files == map[]
    {
      this.cidOf := cidOf;
      db, files := map[], map[];
    }

    /** What the record of an upload becomes with one more chunk; chunk 0 starts it afresh. */
    ghost function Recorded(req: FileChunkReq, path: Dir): Option<ReceivedFileInfo>
      requires req.chunkId == 0 ==> req.totalChunks > 0
      requires req.chunkId > 0 && req.cid in db ==> req.chunkId < |db[req.cid].chunkCids|
      reads this
    {
      if req.chunkId == 0 then
        Some(ReceivedFileInfo(req.cid, req.totalLength, req.totalChunks, |req.content|, path,
                              [req.chunkCid] + seq(req.totalChunks - 1, _ => [])))
      else if req.cid !in db then None
      else
        var info := db[req.cid];
        if info.chunkCids[req.chunkId] != [] then Some(info)
        else Some(info.(chunkCids := info.chunkCids[req.chunkId := req.chunkCid],
                        receivedLength := info.receivedLength + |req.content|))
    }

    /** The chunk list is indexed without a check, so its bounds are up to the client. */
    method HandleChunkInfo(req: FileChunkReq, path: Dir)
      requires req.chunkId == 0 ==> req.totalChunks > 0
      requires req.chunkId > 0 && req.cid in db ==> req.chunkId < |db[req.cid].chunkCids|
      modifies this`db
      ensures var r := old(Recorded(req, path)); db == if r.Some? then old(db)[req.cid := r.value] else old(db)
      ensures req.chunkId == 0 ==>
        && req.cid in db && db == old(db)[req.cid := db[req.cid]]
        && var info := db[req.cid];
           && info.cid == req.cid && info.totalLength == req.totalLength && info.totalChunks == req.totalChunks
           && info.path == path && info.receivedLength == |req.content| && |info.chunkCids| == req.totalChunks
           && forall i :: 0 <= i < |info.chunkCids| ==> info.chunkCids[i] == if i == 0 then req.chunkCid else []
      ensures req.chunkId > 0 && req.cid !in old(db) ==> db == old(db)
      ensures req.chunkId > 0 && req.cid in old(db) && old(db)[req.cid].chunkCids[req.chunkId] != [] ==> db == old(db)
      ensures req.chunkId > 0 && req.cid in old(db) && old(db)[req.cid].chunkCids[req.chunkId] == [] ==>
        var info := old(db)[req.cid];
        db == old(db)[req.cid := info.(chunkCids := info.chunkCids[req.chunkId := req.chunkCid],
                                       receivedLength := info.receivedLength + |req.content|)]
    {
      if req.chunkId == 0 {
        var cids: seq<Bytes> := seq(req.totalChunks, _ => []);
        cids := cids[0 := req.chunkCid];
        assert cids == [req.chunkCid] + seq(req.totalChunks - 1, _ => []);
        db := db[req.cid := ReceivedFileInfo(req.cid, req.totalLength, req.totalChunks, |req.content|, path, cids)];
      } else if req.cid in db {
        var info := db[req.cid];
        if info.chunkCids[req.chunkId] == [] {
          info := info.(chunkCids := info.chunkCids[req.chunkId := req.chunkCid]);
          info := info.(receivedLength := info.receivedLength + |req.content|);
          db := db[req.cid := info];
        } else {
          assert db == db[req.cid := info];
        }
      }
    }

    /** Every slot of an upload is filled, and the named files are there. */
    ghost predicate Whole(info: ReceivedFileInfo)
      reads this
    {
      forall i :: 0 <= i < |info.chunkCids| ==> info.chunkCids[i] != [] && (info.path, info.chunkCids[i]) in files
    }

    ghost function Joined(info: ReceivedFileInfo, n: nat): Bytes
      requires n <= |info.chunkCids| && Whole(info)
      reads this
    {
      if n == 0 then [] else Joined(info, n - 1) + files[(info.path, info.chunkCids[n - 1])]
    }

    /** The reassembly loop. An empty slot names the directory itself, which cannot be read. */
    method Reassemble(info: ReceivedFileInfo) returns (r: Option<Bytes>)
      ensures r.Some? <==> Whole(info)
      ensures r.Some? ==> r.value == Joined(info, |info.chunkCids|)
    {
      var fileContent: Bytes := [];
      for i := 0 to |info.chunkCids|
        invariant forall j :: 0 <= j < i ==> info.chunkCids[j] != [] && (info.path, info.chunkCids[j]) in files
        invariant Whole(info) ==> fileContent == Joined(info, i)
      {
        var chunkCid := info.chunkCids[i];
        if chunkCid == [] || (info.path, chunkCid) !in files { return None; }
        fileContent := fileContent + files[(info.path, chunkCid)];
      }
      return Some(fileContent);
    }

    /** The files after an attempt to write one. */
    ghost function Written(key: (Dir, Bytes), content: Bytes, o: Outcome): map<(Dir, Bytes), Bytes>
      reads this
    {
      match o
      case Fine => files[key := content]
      case Broken(Some(left)) => files[key := left]
      case _ => files
    }

    method WriteFile(key: (Dir, Bytes), content: Bytes, o: Outcome) returns (ok: bool)
      modifies this`files
      ensures ok == o.Fine? && files == old(Written(key, content, o))
    {
      match o
      case Fine => files := files[key := content]; return true;
      case Broken(Some(left)) => files := files[key := left]; return false;
      case _ => return false;
    }

    /**
     Upload. The record is updated before the chunk is written, so a failed file operation leaves its slot filled without
     its file. The staging space is looked at only for a chunk with content.
     */
    method Upload(req: FileChunkReq, staging: Bytes, o: Outcome) returns (r: Option<Bytes>)
      requires req.content != [] && req.chunkId == 0 ==> req.totalChunks > 0
      requires req.content != [] && req.chunkId > 0 && req.cid in db ==> req.chunkId < |db[req.cid].chunkCids|
      requires !o.Lost?
      modifies this
      ensures r.Some? ==> r.value == cidOf(req.content)
      ensures req.content != [] ==> (r.Some? <==> o.Fine?)
      ensures req.content != [] ==> files == old(Written(((staging, req.cid), req.chunkCid), req.content, o))
      ensures req.content != [] ==>
        var info := old(Recorded(req, (staging, req.cid)));
        db == if o != NoSpace && info.Some? then old(db)[req.cid := info.value] else old(db)
      ensures req.content == [] ==> db == old(db)
      ensures req.content == [] ==> (r.Some? <==> req.cid in db && old(Whole(db[req.cid])) && !o.Broken?)
      ensures req.content == [] && r.Some? ==>
        files == old(files)[(db[req.cid].path, req.cid) := old(Joined(db[req.cid], |db[req.cid].chunkCids|))]
    {
      var localCid := cidOf(req.content);
      if |req.content| > 0 {
        if o == NoSpace { return None; }
        HandleChunkInfo(req, (staging, req.cid));
        var ok := WriteFile(((staging, req.cid), req.chunkCid), req.content, o);
        if !ok { return None; }
      } else {
        if req.cid !in db { return None; }
        var whole := Reassemble(db[req.cid]);
        if whole.None? { return None; }
        var ok := WriteFile((db[req.cid].path, req.cid), whole.value, if o == NoSpace then Fine else o);
        if !ok { return None; }
      }
      return Some(localCid);
    }

    /** The state of the server when the first `n` chunks of a file have arrived. */
    ghost predicate Received(content: Bytes, dir: Dir, n: nat)
      reads this
    {
      var cid := cidOf(content);
      n > 0 ==>
        && cid in db && |db[cid].chunkCids| == TotalChunks(content) && n <= |db[cid].chunkCids|
        && db[cid].path == dir && db[cid].totalLength == |content| && db[cid].cid == cid
        && db[cid].totalChunks == TotalChunks(content)
        && db[cid].receivedLength == Min(n * CHUNK_SIZE, |content|)
        && (forall i :: 0 <= i < n ==> db[cid].chunkCids[i] == cidOf(Chunk(content, i)))
        && (forall i :: n <= i < |db[cid].chunkCids| ==> db[cid].chunkCids[i] == [])
        && (forall i :: 0 <= i < n ==>
              (dir, cidOf(Chunk(content, i))) in files && files[(dir, cidOf(Chunk(content, i)))] == Chunk(content, i))
    }

    lemma JoinedIsPrefix(content: Bytes, dir: Dir, n: nat, m: nat)
      requires cidOf(content) in db && Whole(db[cidOf(content)]) && Received(content, dir, n)
      requires m <= n == |db[cidOf(content)].chunkCids|
      ensures Joined(db[cidOf(content)], m) == content[..Min(m * CHUNK_SIZE, |content|)]
    {
      if m > 0 {
        JoinedIsPrefix(content, dir, n, m - 1);
        var a, b := Min((m - 1) * CHUNK_SIZE, |content|), Min(m * CHUNK_SIZE, |content|);
        assert Chunk(content, m - 1) == content[a..b];
        assert content[..a] + content[a..b] == content[..b];
      }
    }
  }

  /** The number of chunks with content: all of them, unless the length is a multiple of the chunk size. */
  function FilledChunks(content: Bytes): nat {
    if |content| % CHUNK_SIZE == 0 then TotalChunks(content) - 1 else TotalChunks(content)
  }

  lemma ChunkFilled(content: Bytes, i: nat)
    ensures i < FilledChunks(content) <==> Chunk(content, i) != []
    ensures i < FilledChunks(content) ==> |Chunk(content, i)| == Min((i + 1) * CHUNK_SIZE, |content|) - i * CHUNK_SIZE
    ensures i == FilledChunks(content) ==> |content| <= i * CHUNK_SIZE
  {
  }

  /** The file is there, every chunk slot is filled, and the received length is the total length. */
  ghost predicate Assembled(server: Server, content: Bytes, dir: Dir)
    reads server
  {
    var cid := server.cidOf(content);
    && (dir, cid) in server.files && server.files[(dir, cid)] == content
    && cid in server.db && server.db[cid].receivedLength == server.db[cid].totalLength == |content|
    && server.db[cid].cid == cid && server.db[cid].totalChunks == TotalChunks(content) && server.db[cid].path == dir
    && |server.db[cid].chunkCids| == TotalChunks(content) && forall c :: c in server.db[cid].chunkCids ==> c != []
  }

  method SendChunk(server: Server, staging: Bytes, content: Bytes, i: nat, o: Outcome) returns (r: Option<Bytes>)
    requires Distinguishes(server.cidOf, content) && i < FilledChunks(content)
    requires server.Received(content, (staging, server.cidOf(content)), i)
    modifies server
    ensures r == if o.Fine? then Some(server.cidOf(Chunk(content, i))) else None
    ensures o.Fine? ==> server.Received(content, (staging, server.cidOf(content)), i + 1)
  {
    if o.Lost? { return None; }
    ChunkFilled(content, i);
    var cid, chunk := server.cidOf(content), Chunk(content, i);
    r := server.Upload(
      FileChunkReq(i, |content|, TotalChunks(content), server.cidOf(chunk), cid, chunk), staging, o);
  }

  /** A chunk that arrives again, other than the first, is filed again but counted only once. */
  method ResendChunk(server: Server, staging: Bytes, content: Bytes, n: nat, i: nat)
    requires Distinguishes(server.cidOf, content) && 0 < i < n <= FilledChunks(content)
    requires server.Received(content, (staging, server.cidOf(content)), n)
    modifies server
    ensures server.Received(content, (staging, server.cidOf(content)), n)
    ensures server.db == old(server.db) && server.files == old(server.files)
  {
    ChunkFilled(content, i);
    var cid, chunk := server.cidOf(content), Chunk(content, i);
    var r := server.Upload(
      FileChunkReq(i, |content|, TotalChunks(content), server.cidOf(chunk), cid, chunk), staging, Fine);
  }

  /**
   The client's loop. If nothing fails on the way, the upload succeeds exactly when the length of the file is not a
   multiple of the chunk size; and when it succeeds, the server has the identical file, every chunk slot is filled, and
   the received length is the total length.
   */
  method DoTransport(server: Server, staging: Bytes, content: Bytes, outcome: nat -> Outcome) returns (r: Option<Bytes>)
    requires Distinguishes(server.cidOf, content)
    requires content == [] ==> server.cidOf(content) !in server.db
    modifies server
    ensures (forall i :: 0 <= i <= TotalChunks(content) ==> outcome(i).Fine?) ==> (r.Some? <==> |content| % 33_554_432 != 0)
    ensures r.Some? ==> r.value == server.cidOf(content)
    ensures r.Some? ==> Assembled(server, content, (staging, server.cidOf(content)))
  {
    var contentCid, total := server.cidOf(content), TotalChunks(content);
    ghost var dir, filled := (staging, contentCid), FilledChunks(content);
    var chunkId := 0;
    while chunkId <= total
      invariant chunkId <= filled ==> server.Received(content, dir, chunkId)
      invariant chunkId == 0 ==> server.db == old(server.db)
      invariant chunkId <= filled || (chunkId == total + 1 && filled == total && Assembled(server, content, dir))
      decreases total + 1 - chunkId
    {
      ChunkFilled(content, chunkId);
      var chunk := Chunk(content, chunkId);
      var chunkCid := server.cidOf(chunk);
      var resp;
      if chunk != [] {
        resp := SendChunk(server, staging, content, chunkId, outcome(chunkId));
      } else {
        resp := SendEnd(server, staging, content, chunkId, outcome(chunkId));
      }
      if resp.None? { return None; }
      var sameChunk, wholeFile := resp.value == chunkCid, resp.value == contentCid && |chunk| == 0;
      if sameChunk {
        chunkId := chunkId + 1;
      } else if wholeFile {
        break;
      } else {
        return None;
      }
    }
    return Some(contentCid);
  }

  method SendEnd(server: Server, staging: Bytes, content: Bytes, i: nat, o: Outcome) returns (r: Option<Bytes>)
    requires Distinguishes(server.cidOf, content) && i == FilledChunks(content)
    requires server.Received(content, (staging, server.cidOf(content)), i)
    requires content == [] ==> server.cidOf(content) !in server.db
    modifies server
    ensures r == if (o.Fine? || o == NoSpace) && i == TotalChunks(content) then Some(server.cidOf([])) else None
    ensures r.Some? ==> Assembled(server, content, (staging, server.cidOf(content)))
  {
    if o.Lost? { return None; }
    var cid := server.cidOf(content);
    ghost var dir := (staging, cid);
    ChunkFilled(content, i);
    if i == TotalChunks(content) {
      assert server.Whole(server.db[cid]);
      server.JoinedIsPrefix(content, dir, i, i);
      assert content[..|content|] == content;
    } else if i > 0 {
      assert server.db[cid].chunkCids[i] == [];
    }
    r := server.Upload(FileChunkReq(i, |content|, TotalChunks(content), server.cidOf([]), cid, []), staging, o);
  }
}
