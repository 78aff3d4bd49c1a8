/** The wire protocol between the client (dfc.c) and the storage node
    (dfs.c): every command the client writes is dispatched by the node to
    the handler it names, with the same arguments, and the node's answers
    read back as the client expects. Messages are taken to arrive one per
    recv, as they were sent. */
module Protocol {
  import opened Strings
  import opened Placement
  import opened Client
  import opened Download
  import opened Node
  import Net

  /** "%s %d" reads back a token, a space and a number. */
  lemma TokenThenNumber(name: string, n: int)
    requires IsToken(name)
    ensures ScanNameNumber(name + " " + IntToString(n)) == Some((name, n))
  {
    var rest := " " + IntToString(n);
    Regroup(name, " ", IntToString(n));
    Regroup(name + rest, [], []);
    ScanWordOfToken([], name, rest);
    assert ScanWord(name + " " + IntToString(n)) == Some((name, rest));
    ScanIntAfterSpaces(" ", n);
  }

  /** "%s" reads back a lone token. */
  lemma TokenAlone(name: string)
    requires IsToken(name)
    ensures ScanName(name) == Some(name)
  {
    ScanWordOfToken([], name, []);
    assert [] + (name + []) == name;
  }

  /** put_file's "PUT name size" reaches handle_put with that name and size. */
  lemma PutCommandDispatch(name: string, chunkSize: nat)
    requires IsToken(name)
    ensures ParseRequest(PutCommand(name, chunkSize)) == Put(name, chunkSize)
  {
    var buffer := PutCommand(name, chunkSize);
    assert buffer[..4] == "PUT ";
    assert buffer[4..] == name + " " + IntToString(chunkSize);
    TokenThenNumber(name, chunkSize);
  }

  /** get_file's "GET name n" reaches handle_get for chunk c + 1. */
  lemma GetCommandDispatch(name: string, c: ChunkIndex)
    requires IsToken(name)
    ensures ParseRequest(GetCommand(name, c)) == Get(name, c + 1)
  {
    var buffer := GetCommand(name, c);
    DiffersAt(buffer, "PUT ", 0);
    assert buffer[..4] == "GET ";
    assert buffer[4..] == name + " " + IntToString(c + 1);
    TokenThenNumber(name, c + 1);
  }

  /** check_file_completeness's "CHECK name" reaches handle_check. */
  lemma CheckCommandDispatch(name: string)
    requires IsToken(name)
    ensures ParseRequest(CheckCommand(name)) == Check(name)
  {
    var buffer := CheckCommand(name);
    DiffersAt(buffer, "PUT ", 0);
    DiffersAt(buffer, "GET ", 0);
    DiffersAt(buffer, "LIST", 0);
    assert buffer[..6] == "CHECK ";
    assert buffer[6..] == name;
    TokenAlone(name);
  }

  /** get_file's "SIZE name" reaches handle_size. */
  lemma SizeCommandDispatch(name: string)
    requires IsToken(name)
    ensures ParseRequest(SizeCommand(name)) == Size(name)
  {
    var buffer := SizeCommand(name);
    DiffersAt(buffer, "PUT ", 0);
    DiffersAt(buffer, "GET ", 0);
    DiffersAt(buffer, "LIST", 0);
    DiffersAt(buffer, "CHECK ", 0);
    assert buffer[..5] == "SIZE ";
    assert buffer[5..] == name;
    TokenAlone(name);
  }

  /** list_files's "LIST" reaches handle_list. */
  lemma ListCommandDispatch()
    ensures ParseRequest("LIST") == List
  {
    DiffersAt("LIST", "PUT ", 0);
    DiffersAt("LIST", "GET ", 0);
    assert "LIST"[..4] == "LIST";
  }

  /** The chunk header put_file sends names the 1-based chunk number. */
  lemma ChunkHeaderReadsBack(c: ChunkIndex)
    ensures ChunkNumber(ChunkHeader(c)) == Some(c + 1)
  {
    ChunkNumberOfHeader(c + 1);
  }

  /** The node's SIZE answer reads back, through atol, as the size. */
  lemma SizeAnswerReadsBack(size: int)
    ensures SizeOf(SizeAnswer(size)) == Some(size)
  {
    assert SizeAnswer(size)[5..] == IntToString(size);
    AtoiOfIntToString(size);
  }

  /** The node's CHECK answer confirms exactly when the file was found. */
  lemma CheckAnswerConfirms(found: bool)
    ensures StartsWith(CheckAnswer(found), "EXISTS") <==> found
  {
    DiffersAt("NOT_FOUND", "EXISTS", 0);
    assert "EXISTS"[..6] == "EXISTS";
  }

  /** The node's side of one server's upload: the PUT command, then each
      of the pair's chunks announced by its header and delivered whole. */
  function UploadReceipt(name: string, chunkSize: nat, chunks: seq<seq<byte>>, p: Pair,
                         junk1: nat -> byte, junk2: nat -> byte): Receipt
    requires |chunks| == 4
  {
    Receipt(PutCommand(name, chunkSize),
            Upload(Some(ChunkHeader(p.first)), Net.Exact(chunks[p.first]), junk1),
            Upload(Some(ChunkHeader(p.second)), Net.Exact(chunks[p.second]), junk2))
  }

  /** A node that receives put_file's five messages stores both chunks of
      the pair under name.n with n the 1-based chunk number, and answers
      "ok" -- which put_file as written does not accept, and the corrected
      test does. */
  lemma NodeStoresUpload(dir: Directory, name: string, chunkSize: nat, chunks: seq<seq<byte>>, p: Pair,
                         junk1: nat -> byte, junk2: nat -> byte)
    requires IsToken(name) && |chunks| == 4
    requires |chunks[p.first]| == chunkSize && |chunks[p.second]| == chunkSize
    ensures var (after, reply) := Step(dir, UploadReceipt(name, chunkSize, chunks, p, junk1, junk2));
      && reply == Some(Text("ok"))
      && !AckAcceptedAsWritten(reply.value.text) && AckAccepted(reply.value.text)
      && after.records == dir.records[ChunkKey(name, p.first + 1) := chunks[p.first]]
                                     [ChunkKey(name, p.second + 1) := chunks[p.second]]
  {
    var receipt := UploadReceipt(name, chunkSize, chunks, p, junk1, junk2);
    PutCommandDispatch(name, chunkSize);
    assert Step(dir, receipt) == PutChunks(dir, name, chunkSize, receipt.first, receipt.second);
    assert Delivers(receipt.first, p.first + 1, chunks[p.first]);
    assert Delivers(receipt.second, p.second + 1, chunks[p.second]);
    PutChunksWhole(dir, name, p.first + 1, chunks[p.first], p.second + 1, chunks[p.second], receipt.first, receipt.second);
    DiffersAt("ok", "OK", 0);
    assert "ok"[..2] == "ok";
  }

  /** A directory holding both chunks of the pair serves either of them. */
  lemma PairServed(after: Directory, dir: Directory, name: string, chunks: seq<seq<byte>>, p: Pair, c: ChunkIndex)
    requires |chunks| == 4 && p.Holds(c) && p.first != p.second
    requires after.records == dir.records[ChunkKey(name, p.first + 1) := chunks[p.first]]
                                         [ChunkKey(name, p.second + 1) := chunks[p.second]]
    ensures GetReply(after, name, c + 1) == Bytes(chunks[c])
  {
    ChunkKeysDiffer(name, p.first + 1, p.second + 1);
    var k1, k2 := ChunkKey(name, p.first + 1), ChunkKey(name, p.second + 1);
    var key := ChunkKey(name, c + 1);
    if c == p.second {
      assert key == k2 && key in after.records && after.records[key] == chunks[c];
    } else {
      assert key == k1 && k1 != k2 && key in after.records && after.records[key] == chunks[c];
    }
  }

  /** After the upload, handle_get serves either chunk of the pair back;
      with GetStep, get_file's GET for it is answered with its bytes. */
  lemma NodeServesUploadedChunks(dir: Directory, name: string, chunkSize: nat, chunks: seq<seq<byte>>, p: Pair,
                                 junk1: nat -> byte, junk2: nat -> byte, c: ChunkIndex)
    requires IsToken(name) && |chunks| == 4
    requires |chunks[p.first]| == chunkSize && |chunks[p.second]| == chunkSize
    requires p.Holds(c) && p.first != p.second
    ensures GetReply(Step(dir, UploadReceipt(name, chunkSize, chunks, p, junk1, junk2)).0, name, c + 1) == Bytes(chunks[c])
  {
    NodeStoresUpload(dir, name, chunkSize, chunks, p, junk1, junk2);
    var after := Step(dir, UploadReceipt(name, chunkSize, chunks, p, junk1, junk2)).0;
    PairServed(after, dir, name, chunks, p, c);
  }

  /** A GET turn changes nothing and answers what handle_get answers. */
  lemma GetStep(dir: Directory, name: string, c: ChunkIndex, u: Upload)
    requires IsToken(name)
    ensures Step(dir, Receipt(GetCommand(name, c), u, u)) == (dir, Some(GetReply(dir, name, c + 1)))
  {
    GetCommandDispatch(name, c);
  }
}
