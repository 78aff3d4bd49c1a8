/** The storage node (dfs.c). Each connection is served by handle_client:
    one recv brings a command, which is dispatched on its prefix to
    handle_put, handle_get, handle_list, handle_check or handle_size. The
    node's directory is abstracted as the names of its regular files in
    readdir order (a new file goes to the end, an overwritten one keeps its
    place) and the bytes of each. What the peer sends after a PUT command
    (two chunk headers and two chunk bodies), and the uninitialised memory
    malloc returns, are inputs. */
module Node {
  import opened Strings
  import opened NameTable
  import Net

  /** BUFFER_SIZE: the LIST response buffer. */
  const BufferSize := 4096

  /** The stored file name of chunk n of a file: "%s.%d". */
  function ChunkKey(name: string, n: int): (key: string)
    ensures |key| > |name| + 1 && key[..|name|] == name && key[|name|] == '.'
  {
    name + "." + IntToString(n)
  }

  /** strrchr(s, '.'): the position of the last dot, if any. */
  function LastDot(s: string): (d: Option<nat>)
    ensures d.Some? ==> d.value < |s| && s[d.value] == '.' && forall j :: d.value < j < |s| ==> s[j] != '.'
    ensures d.None? ==> forall j :: 0 <= j < |s| ==> s[j] != '.'
  {
    if s == [] then None
    else if s[|s| - 1] == '.' then Some(|s| - 1)
    else LastDot(s[..|s| - 1])
  }

  /** handle_list's reading of a file name: the part before the last dot,
      for names that have a dot other than at the start. */
  function Base(entry: string): (b: Option<string>)
    ensures b.Some? ==> 0 < |b.value| < |entry| && b.value == entry[..|b.value|] && entry[|b.value|] == '.'
  {
    match LastDot(entry)
    case None => None
    case Some(d) => if d == 0 then None else Some(entry[..d])
  }

  /** sscanf(d_name, "%[^.].%d", base, &n) == 2 as handle_check and
      handle_size write it: the base ends at the FIRST dot, and the number
      must follow that dot. */
  function SplitKeyAsWritten(entry: string): Option<(string, int)>
  {
    var n := Span(entry, NotDot);
    if n == 0 || n == |entry| then None
    else
      match ScanInt(entry[n + 1..])
      case None => None
      case Some((v, _)) => Some((entry[..n], v))
  }

  /** The corrected reading: the base ends at the LAST dot, as in
      handle_list, and the number follows it. */
  function SplitKey(entry: string): Option<(string, int)>
  {
    match LastDot(entry)
    case None => None
    case Some(d) =>
      if d == 0 then None
      else
        match ScanInt(entry[d + 1..])
        case None => None
        case Some((v, _)) => Some((entry[..d], v))
  }

  /** The test handle_check and handle_size apply to each file: its
      first-dot split succeeds and its base is the name. */
  predicate MatchesAsWritten(entry: string, name: string)
  {
    SplitKeyAsWritten(entry).Some? && SplitKeyAsWritten(entry).value.0 == name
  }

  /** The corrected test: the file holds a chunk of the named file. */
  predicate Matches(entry: string, name: string)
  {
    SplitKey(entry).Some? && SplitKey(entry).value.0 == name
  }

  /** The node's directory: file names in readdir order, and their bytes. */
  datatype Directory = Directory(entries: seq<string>, records: map<string, seq<byte>>)
  {
    /** Every file is listed once, and every listed name has contents. */
    ghost predicate Valid()
    {
      Distinct(entries) && forall key :: key in records <==> key in entries
    }
  }

  /** fopen(path, "wb") followed by fwrite: the file is created (at the end
      of the scan order) or truncated and rewritten (in place). */
  function Written(dir: Directory, key: string, data: seq<byte>): (r: Directory)
    ensures dir.Valid() ==> r.Valid()
    ensures r.records == dir.records[key := data]
    ensures key in dir.entries ==> r.entries == dir.entries
    ensures key !in dir.entries ==> r.entries == dir.entries + [key]
  {
    if key in dir.entries then Directory(dir.entries, dir.records[key := data])
    else Directory(dir.entries + [key], dir.records[key := data])
  }

  /** A reply of the node: text, or the raw bytes of a chunk. */
  datatype Reply = Text(text: string) | Bytes(data: seq<byte>)

  /** A command as handle_client recognises it. */
  datatype Request =
    | Put(name: string, size: int)
    | Get(name: string, num: int)
    | List
    | Check(name: string)
    | Size(name: string)
    | Ignored              // no known prefix, or its sscanf fails: no reply

  /** sscanf(arg, "%s %d", name, &n) == 2 (and "%s %ld"). */
  function ScanNameNumber(arg: string): (r: Option<(string, int)>)
    ensures r.Some? ==> IsToken(r.value.0)
  {
    match ScanWord(arg)
    case None => None
    case Some((name, rest)) =>
      ScanWordIsToken(arg);
      match ScanInt(rest)
      case None => None
      case Some((n, _)) => Some((name, n))
  }

  /** sscanf(arg, "%s", name) == 1 */
  function ScanName(arg: string): (r: Option<string>)
    ensures r.Some? ==> IsToken(r.value)
  {
    match ScanWord(arg)
    case None => None
    case Some((name, _)) => ScanWordIsToken(arg); Some(name)
  }

  /** The dispatch of handle_client on one received buffer. */
  function ParseRequest(buffer: string): (r: Request)
    ensures r.Put? || r.Get? || r.Check? || r.Size? ==> IsToken(r.name)
  {
    if StartsWith(buffer, "PUT ") then
      match ScanNameNumber(buffer[4..])
      case None => Ignored
      case Some((name, size)) => Put(name, size)
    else if StartsWith(buffer, "GET ") then
      match ScanNameNumber(buffer[4..])
      case None => Ignored
      case Some((name, num)) => Get(name, num)
    else if StartsWith(buffer, "LIST") then List
    else if StartsWith(buffer, "CHECK ") then
      match ScanName(buffer[6..])
      case None => Ignored
      case Some(name) => Check(name)
    else if StartsWith(buffer, "SIZE ") then
      match ScanName(buffer[5..])
      case None => Ignored
      case Some(name) => Size(name)
    else Ignored
  }

  /** The five command prefixes differ in their first character, so at
      most one of them starts a buffer. */
  lemma PrefixesExclusive(buffer: string)
    ensures StartsWith(buffer, "PUT ") ==> buffer[0] == 'P'
    ensures StartsWith(buffer, "GET ") ==> buffer[0] == 'G'
    ensures StartsWith(buffer, "LIST") ==> buffer[0] == 'L'
    ensures StartsWith(buffer, "CHECK ") ==> buffer[0] == 'C'
    ensures StartsWith(buffer, "SIZE ") ==> buffer[0] == 'S'
  {
    if StartsWith(buffer, "PUT ") { assert buffer[..4][0] == buffer[0]; }
    if StartsWith(buffer, "GET ") { assert buffer[..4][0] == buffer[0]; }
    if StartsWith(buffer, "LIST") { assert buffer[..4][0] == buffer[0]; }
    if StartsWith(buffer, "CHECK ") { assert buffer[..6][0] == buffer[0]; }
    if StartsWith(buffer, "SIZE ") { assert buffer[..5][0] == buffer[0]; }
  }

  /** handle_client routes a buffer to a handler only by its prefix and
      only when that handler's sscanf succeeds, with the arguments sscanf
      read; any other buffer gets no reply. */
  lemma RequestRouting(buffer: string)
    ensures var r := ParseRequest(buffer);
      (r.Put? <==> StartsWith(buffer, "PUT ") && ScanNameNumber(buffer[4..]).Some?) &&
      (r.Put? ==> ScanNameNumber(buffer[4..]) == Some((r.name, r.size)))
    ensures var r := ParseRequest(buffer);
      (r.Get? <==> StartsWith(buffer, "GET ") && ScanNameNumber(buffer[4..]).Some?) &&
      (r.Get? ==> ScanNameNumber(buffer[4..]) == Some((r.name, r.num)))
    ensures ParseRequest(buffer).List? <==> StartsWith(buffer, "LIST")
    ensures var r := ParseRequest(buffer);
      (r.Check? <==> StartsWith(buffer, "CHECK ") && ScanName(buffer[6..]).Some?) &&
      (r.Check? ==> ScanName(buffer[6..]) == Some(r.name))
    ensures var r := ParseRequest(buffer);
      (r.Size? <==> StartsWith(buffer, "SIZE ") && ScanName(buffer[5..]).Some?) &&
      (r.Size? ==> ScanName(buffer[5..]) == Some(r.name))
    ensures (!StartsWith(buffer, "PUT ") && !StartsWith(buffer, "GET ") && !StartsWith(buffer, "LIST") &&
             !StartsWith(buffer, "CHECK ") && !StartsWith(buffer, "SIZE ")) ==> ParseRequest(buffer) == Ignored
  {
    PrefixesExclusive(buffer);
  }

  /** What one chunk of a PUT brings: the header recv (None when it returns
      0 or fails), the segmentation of the body, and the contents of the
      memory malloc hands out for it. */
  datatype Upload = Upload(header: Option<string>, body: Net.Delivery, junk: nat -> byte)

  /** What one turn of handle_client's loop reads: the command buffer, and
      the two chunks a PUT goes on to receive. */
  datatype Receipt = Receipt(buffer: string, first: Upload, second: Upload)

  /** sscanf(chunk_header, "CHUNK %d", &n) == 1 */
  function ChunkNumber(header: string): Option<int>
  {
    if StartsWith(header, "CHUNK") then
      match ScanInt(header[5..])
      case None => None
      case Some((n, _)) => Some(n)
    else None
  }

  /** The uninitialised buffer malloc(size) returns. */
  function Uninitialised(size: nat, junk: nat -> byte): (buf: seq<byte>)
    ensures |buf| == size
  {
    seq(size, j requires 0 <= j => junk(j))
  }

  /** One chunk of handle_put: the directory afterwards, and whether the
      handler goes on. A missing or malformed header stops it; a negative
      size leaves an empty file behind (malloc of it fails); otherwise the
      file holds size bytes: what arrived, then the buffer's old contents. */
  function PutChunk(dir: Directory, name: string, size: int, u: Upload): (r: (Directory, bool))
    ensures dir.Valid() ==> r.0.Valid()
  {
    match u.header
    case None => (dir, false)
    case Some(h) =>
      match ChunkNumber(h)
      case None => (dir, false)
      case Some(n) =>
        if size < 0 then (Written(dir, ChunkKey(name, n), []), false)
        else (Written(dir, ChunkKey(name, n), Net.Fill(Uninitialised(size, u.junk), u.body)), true)
  }

  /** handle_put: two chunks, then "ok" only if both were stored. */
  function PutChunks(dir: Directory, name: string, size: int, first: Upload, second: Upload): (r: (Directory, Option<Reply>))
    ensures dir.Valid() ==> r.0.Valid()
  {
    var (one, more) := PutChunk(dir, name, size, first);
    if !more then (one, None)
    else
      var (two, done) := PutChunk(one, name, size, second);
      if !done then (two, None) else (two, Some(Text("ok")))
  }

  /** handle_get: the bytes of the stored chunk, or an error text. */
  function GetReply(dir: Directory, name: string, num: int): Reply
  {
    var key := ChunkKey(name, num);
    if key in dir.records then Bytes(dir.records[key]) else Text("error file not found")
  }

  /** One file of handle_list's scan: its base is admitted to the table of
      seen names unless seen or the table is full, and appended to the
      response with a newline only while the response stays within its
      buffer. */
  function ListStep(files: seq<string>, response: string, entry: string): (seq<string>, string)
  {
    match Base(entry)
    case None => (files, response)
    case Some(b) =>
      if b in files || |files| >= MaxNames then (files, response)
      else (files + [Truncate(b)], if |response| + |b| + 2 < BufferSize then response + b + "\n" else response)
  }

  /** The table and the response after scanning the given files. */
  function ListState(entries: seq<string>): (r: (seq<string>, string))
    ensures |r.0| <= MaxNames
  {
    if entries == [] then ([], "")
    else
      var (files, response) := ListState(entries[..|entries| - 1]);
      ListStep(files, response, entries[|entries| - 1])
  }

  /** handle_check's answer, as corrected: does any file hold a chunk of
      the named file? */
  predicate CheckFound(entries: seq<string>, name: string)
  {
    exists j :: 0 <= j < |entries| && Matches(entries[j], name)
  }

  /** handle_check's answer as written: does any file pass its first-dot
      test for the name? */
  predicate CheckFoundAsWritten(entries: seq<string>, name: string)
  {
    exists j :: 0 <= j < |entries| && MatchesAsWritten(entries[j], name)
  }

  /** A matching file at index k is found by handle_check. */
  lemma FoundAt(entries: seq<string>, name: string, k: nat)
    requires k < |entries| && MatchesAsWritten(entries[k], name)
    ensures CheckFoundAsWritten(entries, name)
  {
  }

  /** With no matching file, handle_check finds none. */
  lemma NoneFound(entries: seq<string>, name: string)
    requires forall j :: 0 <= j < |entries| ==> !MatchesAsWritten(entries[j], name)
    ensures !CheckFoundAsWritten(entries, name)
  {
  }

  /** handle_size's scan from the k-th file on: the size of the first file
      passing its first-dot test for the name that stat finds, or 0. */
  function SizeFrom(dir: Directory, name: string, k: nat): int
    requires k <= |dir.entries|
    decreases |dir.entries| - k
  {
    if k == |dir.entries| then 0
    else if MatchesAsWritten(dir.entries[k], name) && dir.entries[k] in dir.records then |dir.records[dir.entries[k]]|
    else SizeFrom(dir, name, k + 1)
  }

  function CheckAnswer(found: bool): string {
    if found then "EXISTS" else "NOT_FOUND"
  }

  function SizeAnswer(size: int): string {
    "SIZE " + IntToString(size)
  }

  /** One turn of handle_client: the new directory and the reply, if any. */
  function Step(dir: Directory, receipt: Receipt): (r: (Directory, Option<Reply>))
    ensures dir.Valid() ==> r.0.Valid()
  {
    match ParseRequest(receipt.buffer)
    case Put(name, size) => PutChunks(dir, name, size, receipt.first, receipt.second)
    case Get(name, num) => (dir, Some(GetReply(dir, name, num)))
    case List => (dir, Some(Text(ListState(dir.entries).1)))
    case Check(name) => (dir, Some(Text(CheckAnswer(CheckFoundAsWritten(dir.entries, name)))))
    case Size(name) => (dir, Some(Text(SizeAnswer(SizeFrom(dir, name, 0)))))
    case Ignored => (dir, None)
  }

  /** A buffer handle_client does not route leaves the directory as it was
      and sends nothing back. */
  lemma IgnoredIsSilent(dir: Directory, receipt: Receipt)
    requires ParseRequest(receipt.buffer) == Ignored
    ensures Step(dir, receipt) == (dir, None)
  {
  }

  /** A whole connection: the directory after it and every turn's reply. */
  function Session(dir: Directory, receipts: seq<Receipt>): (r: (Directory, seq<Option<Reply>>))
    ensures dir.Valid() ==> r.0.Valid()
    ensures |r.1| == |receipts|
  {
    if receipts == [] then (dir, [])
    else
      var (before, replies) := Session(dir, receipts[..|receipts| - 1]);
      var (after, reply) := Step(before, receipts[|receipts| - 1]);
      (after, replies + [reply])
  }

  /** The node's directory, changed in place by its handlers. */
  class ChunkStore {
    var entries: seq<string>
    var records: map<string, seq<byte>>

    function Dir(): Directory
      reads this
    {
      Directory(entries, records)
    }

    ghost predicate Valid()
      reads this
    {
      Dir().Valid()
    }

    /** An empty directory. */
    constructor ()
      ensures Valid() && entries == [] && records == map[]
    {
      entries := [];
      records := map[];
    }

    /** fopen(path, "wb") and fwrite of the whole buffer. */
    method Store(key: string, data: seq<byte>)
      requires Valid()
      modifies this
      ensures Valid()
      ensures Dir() == Written(old(Dir()), key, data)
    {
      if key !in entries {
        entries := entries + [key];
      }
      records := records[key := data];
    }

    /** One chunk of handle_put: header, file, buffer, receive loop, write. */
    method ReceiveChunk(name: string, size: int, u: Upload) returns (more: bool)
      requires Valid()
      modifies this
      ensures Valid()
      ensures (Dir(), more) == PutChunk(old(Dir()), name, size, u)
    {
      if u.header.None? {
        return false;
      }
      var n := ChunkNumber(u.header.value);
      if n.None? {
        return false;
      }
      var key := ChunkKey(name, n.value);
      if size < 0 {
        Store(key, []);
        return false;
      }
      var buf := new byte[size](j requires 0 <= j => u.junk(j));
      assert buf[..] == Uninitialised(size, u.junk);
      var got := Net.RecvInto(buf, u.body);
      Store(key, buf[..]);
      more := true;
    }

    /** handle_put. */
    method HandlePut(name: string, size: int, first: Upload, second: Upload) returns (reply: Option<Reply>)
      requires Valid()
      modifies this
      ensures Valid()
      ensures (Dir(), reply) == PutChunks(old(Dir()), name, size, first, second)
    {
      var more := ReceiveChunk(name, size, first);
      if !more {
        return None;
      }
      var done := ReceiveChunk(name, size, second);
      if !done {
        return None;
      }
      reply := Some(Text("ok"));
    }

    /** handle_get. */
    method HandleGet(name: string, num: int) returns (reply: Reply)
      ensures reply == GetReply(Dir(), name, num)
    {
      var key := ChunkKey(name, num);
      if key !in records {
        return Text("error file not found");
      }
      reply := Bytes(records[key]);
    }

    /** handle_list: the readdir loop over the files with the table of
      seen names and the response buffer. */
    method HandleList() returns (response: string)
      ensures response == ListState(entries).1
    {
      var files := new string[MaxNames](_ => "");
      var count: nat := 0;
      response := "";
      for k := 0 to |entries|
        invariant count <= MaxNames
        invariant (files[..count], response) == ListState(entries[..k])
      {
        assert entries[..k + 1][..k] == entries[..k];
        assert ListState(entries[..k + 1]) == ListStep(files[..count], response, entries[k]);
        var base := Base(entries[k]);
        if base.None? {
          continue;
        }
        var found := Find(files, count, base.value);
        if !found && count < MaxNames {
          ghost var seen := files[..count];
          files[count] := Truncate(base.value);
          count := count + 1;
          assert files[..count] == seen + [Truncate(base.value)];
          if |response| + |base.value| + 2 < BufferSize {
            response := response + base.value + "\n";
          }
        }
      }
      assert entries[..|entries|] == entries;
    }

    /** handle_check: the readdir loop, stopping at the first match. */
    method HandleCheck(name: string) returns (response: string)
      ensures response == CheckAnswer(CheckFoundAsWritten(entries, name))
    {
      var found := false;
      for k := 0 to |entries|
        invariant !found
        invariant forall j :: 0 <= j < k ==> !MatchesAsWritten(entries[j], name)
      {
        if MatchesAsWritten(entries[k], name) {
          FoundAt(entries, name, k);
          found := true;
          break;
        }
      }
      if !found {
        NoneFound(entries, name);
      }
      response := CheckAnswer(found);
    }

    /** handle_size: the readdir loop, stopping at the first match whose
        stat succeeds. */
    method HandleSize(name: string) returns (response: string)
      ensures response == SizeAnswer(SizeFrom(Dir(), name, 0))
    {
      var size := 0;
      var k := 0;
      while k < |entries|
        invariant k <= |entries|
        invariant SizeFrom(Dir(), name, k) == SizeFrom(Dir(), name, 0)
      {
        var entry := entries[k];
        if MatchesAsWritten(entry, name) && entry in records {
          size := |records[entry]|;
          break;
        }
        k := k + 1;
      }
      response := SizeAnswer(size);
    }

    /** One turn of handle_client's loop. */
    method HandleRequest(receipt: Receipt) returns (reply: Option<Reply>)
      requires Valid()
      modifies this
      ensures Valid()
      ensures (Dir(), reply) == Step(old(Dir()), receipt)
    {
      match ParseRequest(receipt.buffer)
      case Put(name, size) =>
        reply := HandlePut(name, size, receipt.first, receipt.second);
      case Get(name, num) =>
        var data := HandleGet(name, num);
        reply := Some(data);
      case List =>
        var response := HandleList();
        reply := Some(Text(response));
      case Check(name) =>
        var response := HandleCheck(name);
        reply := Some(Text(response));
      case Size(name) =>
        var response := HandleSize(name);
        reply := Some(Text(response));
      case Ignored =>
        reply := None;
    }

    /** handle_client: serve every received command in turn until the
        peer disconnects. */
    method HandleClient(receipts: seq<Receipt>) returns (replies: seq<Option<Reply>>)
      requires Valid()
      modifies this
      ensures Valid()
      ensures (Dir(), replies) == Session(old(Dir()), receipts)
    {
      replies := [];
      for k := 0 to |receipts|
        invariant Valid()
        invariant (Dir(), replies) == Session(old(Dir()), receipts[..k])
      {
        assert receipts[..k + 1][..k] == receipts[..k];
        var reply := HandleRequest(receipts[k]);
        replies := replies + [reply];
      }
      assert receipts[..|receipts|] == receipts;
    }
  }

  // ----- File names -----

  /** The last dot of name.n is the one ChunkKey puts there. */
  lemma LastDotOfKey(name: string, n: int)
    ensures LastDot(ChunkKey(name, n)) == Some(|name|)
  {
    var key := ChunkKey(name, n);
    assert key[|name|] == '.';
    forall j | |name| < j < |key|
      ensures key[j] != '.'
    {
      assert key[j] == IntToString(n)[j - |name| - 1];
    }
  }

  /** The corrected split reads back the file name and chunk number that
      handle_put stored. */
  lemma SplitKeyOfChunkKey(name: string, n: int)
    requires name != []
    ensures SplitKey(ChunkKey(name, n)) == Some((name, n))
    ensures Matches(ChunkKey(name, n), name)
  {
    var key := ChunkKey(name, n);
    LastDotOfKey(name, n);
    assert key[|name| + 1..] == IntToString(n) + [];
    ScanIntOfIntToString(n, []);
  }

  /** handle_list strips exactly the chunk number handle_put appended. */
  lemma BaseOfChunkKey(name: string, n: int)
    requires name != []
    ensures Base(ChunkKey(name, n)) == Some(name)
  {
    LastDotOfKey(name, n);
  }

  /** A name without a dot. */
  predicate Undotted(name: string)
  {
    forall i :: 0 <= i < |name| ==> name[i] != '.'
  }

  /** For a name without a dot, the first-dot split reads back the name and
      chunk number that handle_put stored. */
  lemma SplitKeyAsWrittenOfChunkKey(name: string, n: int)
    requires name != [] && Undotted(name)
    ensures SplitKeyAsWritten(ChunkKey(name, n)) == Some((name, n))
    ensures MatchesAsWritten(ChunkKey(name, n), name)
  {
    var key := ChunkKey(name, n);
    assert key == name + ("." + IntToString(n));
    SpanOfPrefix(name, "." + IntToString(n), NotDot);
    assert key[|name| + 1..] == IntToString(n) + [];
    ScanIntOfIntToString(n, []);
  }

  /** As written, no file passes the first-dot test for a name with a dot. */
  lemma DottedNameNeverMatches(entry: string, name: string, i: nat)
    requires i < |name| && name[i] == '.'
    ensures !MatchesAsWritten(entry, name)
  {
    var n := Span(entry, NotDot);
    SpanIsMaximal(entry, NotDot);
    if SplitKeyAsWritten(entry).Some? {
      assert SplitKeyAsWritten(entry).value.0 == entry[..n];
      assert n <= i ==> |entry[..n]| != |name|;
      assert n > i ==> entry[..n][i] != '.';
    }
  }

  /** So, as written, a node answers NOT_FOUND to CHECK and "SIZE 0" to
      SIZE for a name with a dot, whatever files it holds. */
  lemma {:induction false} DottedNameNeverFound(dir: Directory, name: string, i: nat)
    requires i < |name| && name[i] == '.'
    ensures !CheckFoundAsWritten(dir.entries, name)
    ensures SizeFrom(dir, name, 0) == 0
  {
    forall j | 0 <= j < |dir.entries|
      ensures !MatchesAsWritten(dir.entries[j], name)
    {
      DottedNameNeverMatches(dir.entries[j], name, i);
    }
    NoneFound(dir.entries, name);
    SizeOfMissingFile(dir, name, 0);
  }

  /** So handle_check, as written, answers NOT_FOUND for a file with a dot
      in its name even when it holds a chunk of it; the corrected split
      answers EXISTS. */
  lemma CheckAsWrittenMissesChunk(name: string, n: int, i: nat)
    requires i < |name| && name[i] == '.'
    ensures !CheckFoundAsWritten([ChunkKey(name, n)], name)
    ensures CheckFound([ChunkKey(name, n)], name)
  {
    var key := ChunkKey(name, n);
    DottedNameNeverMatches(key, name, i);
    SplitKeyOfChunkKey(name, n);
    OneEntry(key, name);
  }

  /** A directory of one file: found exactly when that file matches. */
  lemma OneEntry(key: string, name: string)
    ensures CheckFound([key], name) <==> Matches(key, name)
    ensures CheckFoundAsWritten([key], name) <==> MatchesAsWritten(key, name)
  {
    assert [key][0] == key;
  }

  /** The concrete case: chunk 1 of "a.txt". */
  lemma CheckAsWrittenMissesATxt()
    ensures !CheckFoundAsWritten([ChunkKey("a.txt", 1)], "a.txt")
    ensures CheckFound([ChunkKey("a.txt", 1)], "a.txt")
  {
    CheckAsWrittenMissesChunk("a.txt", 1, 1);
  }

  // ----- PUT, then GET, CHECK and SIZE -----

  /** A chunk header "CHUNK n" reads back n. */
  lemma ChunkNumberOfHeader(n: int)
    ensures ChunkNumber("CHUNK " + IntToString(n)) == Some(n)
  {
    var t := " " + IntToString(n);
    assert "CHUNK " + IntToString(n) == "CHUNK" + t;
    PrefixThen("CHUNK", t);
    ScanIntAfterSpaces(" ", n);
  }

  /** A chunk whose header names n and whose body arrives whole. */
  predicate Delivers(u: Upload, n: int, data: seq<byte>)
  {
    u.header == Some("CHUNK " + IntToString(n)) && u.body == Net.Exact(data)
  }

  /** One chunk that arrives whole is stored whole, and handle_put goes on. */
  lemma PutChunkWhole(dir: Directory, name: string, n: int, data: seq<byte>, u: Upload)
    requires Delivers(u, n, data)
    ensures PutChunk(dir, name, |data|, u) == (Written(dir, ChunkKey(name, n), data), true)
  {
    ChunkNumberOfHeader(n);
    Net.FillExact(Uninitialised(|data|, u.junk), data);
  }

  /** Both chunks of a PUT that arrive whole are stored whole, in order,
      and handle_put answers "ok". */
  lemma PutChunksWhole(dir: Directory, name: string, n1: int, data1: seq<byte>, n2: int, data2: seq<byte>,
                     first: Upload, second: Upload)
    requires Delivers(first, n1, data1) && Delivers(second, n2, data2)
    requires |data1| == |data2|
    ensures PutChunks(dir, name, |data1|, first, second) ==
      (Written(Written(dir, ChunkKey(name, n1), data1), ChunkKey(name, n2), data2), Some(Text("ok")))
  {
    PutChunkWhole(dir, name, n1, data1, first);
    PutChunkWhole(Written(dir, ChunkKey(name, n1), data1), name, n2, data2, second);
  }

  /** After such a PUT, handle_get serves each chunk back, and every other
      file is as before. */
  lemma PutThenGet(dir: Directory, name: string, n1: int, data1: seq<byte>, n2: int, data2: seq<byte>,
                   first: Upload, second: Upload)
    requires Delivers(first, n1, data1) && Delivers(second, n2, data2)
    requires |data1| == |data2|
    ensures var after := PutChunks(dir, name, |data1|, first, second).0;
      && GetReply(after, name, n2) == Bytes(data2)
      && (n1 != n2 ==> GetReply(after, name, n1) == Bytes(data1))
      && after.records == dir.records[ChunkKey(name, n1) := data1][ChunkKey(name, n2) := data2]
  {
    PutChunksWhole(dir, name, n1, data1, n2, data2, first, second);
    ChunkKeysDiffer(name, n1, n2);
  }

  /** Different chunks of a file are stored under different names. */
  lemma ChunkKeysDiffer(name: string, n1: int, n2: int)
    ensures n1 != n2 ==> ChunkKey(name, n1) != ChunkKey(name, n2)
  {
    if n1 != n2 {
      IntToStringInjective(n1, n2);
      assert ChunkKey(name, n1)[|name| + 1..] == IntToString(n1);
      assert ChunkKey(name, n2)[|name| + 1..] == IntToString(n2);
    }
  }

  /** Two numbers print differently. */
  lemma IntToStringInjective(a: int, b: int)
    requires a != b
    ensures IntToString(a) != IntToString(b)
  {
    AtoiOfIntToString(a);
    AtoiOfIntToString(b);
  }

  /** After chunk n of a file without a dot is stored, handle_check finds
      the file. */
  lemma StoredChunkIsFoundAsWritten(dir: Directory, name: string, n: int, data: seq<byte>)
    requires name != [] && Undotted(name)
    ensures CheckFoundAsWritten(Written(dir, ChunkKey(name, n), data).entries, name)
  {
    var r := Written(dir, ChunkKey(name, n), data);
    SplitKeyAsWrittenOfChunkKey(name, n);
    var k :| 0 <= k < |r.entries| && r.entries[k] == ChunkKey(name, n);
    FoundAt(r.entries, name, k);
  }

  /** With the corrected split, after chunk n of any file is stored, the
      file is found. */
  lemma StoredChunkIsFound(dir: Directory, name: string, n: int, data: seq<byte>)
    requires name != []
    ensures CheckFound(Written(dir, ChunkKey(name, n), data).entries, name)
  {
    var r := Written(dir, ChunkKey(name, n), data);
    SplitKeyOfChunkKey(name, n);
    var k :| 0 <= k < |r.entries| && r.entries[k] == ChunkKey(name, n);
  }

  /** handle_size answers the size of the first chunk of the file in scan
      order that stat finds. */
  lemma {:induction false} SizeIsFirstMatch(dir: Directory, name: string, k: nat, i: nat)
    requires k <= i < |dir.entries|
    requires MatchesAsWritten(dir.entries[i], name) && dir.entries[i] in dir.records
    requires forall j :: k <= j < i ==> !(MatchesAsWritten(dir.entries[j], name) && dir.entries[j] in dir.records)
    ensures SizeFrom(dir, name, k) == |dir.records[dir.entries[i]]|
    decreases i - k
  {
    if k < i {
      SizeIsFirstMatch(dir, name, k + 1, i);
    }
  }

  /** handle_size answers "SIZE 0" for a file with no chunk. */
  lemma {:induction false} SizeOfMissingFile(dir: Directory, name: string, k: nat)
    requires k <= |dir.entries|
    requires forall j :: k <= j < |dir.entries| ==> !MatchesAsWritten(dir.entries[j], name)
    ensures SizeFrom(dir, name, k) == 0
    decreases |dir.entries| - k
  {
    if k < |dir.entries| {
      SizeOfMissingFile(dir, name, k + 1);
    }
  }

  /** Storing a chunk of a file the node did not hold makes handle_size
      answer that chunk's size, for a name without a dot. */
  lemma SizeAfterFirstStore(dir: Directory, name: string, n: int, data: seq<byte>)
    requires dir.Valid() && name != [] && Undotted(name)
    requires !CheckFoundAsWritten(dir.entries, name)
    ensures SizeFrom(Written(dir, ChunkKey(name, n), data), name, 0) == |data|
  {
    var key := ChunkKey(name, n);
    var r := Written(dir, key, data);
    SplitKeyAsWrittenOfChunkKey(name, n);
    assert key !in dir.entries;
    assert r.entries[|dir.entries|] == key;
    SizeIsFirstMatch(r, name, 0, |dir.entries|);
  }

  // ----- LIST -----

  /** The base of a listed file fits a table slot unshortened. */
  predicate ShortBase(entry: string)
  {
    Base(entry).Some? ==> |Base(entry).value| <= NameLimit
  }

  /** Every listed name is the base of a scanned file, cut to 255
      characters. */
  lemma {:induction false} ListedNameIsBase(entries: seq<string>, name: string)
    requires name in ListState(entries).0
    ensures exists k :: 0 <= k < |entries| && Base(entries[k]).Some? && name == Truncate(Base(entries[k]).value)
  {
    var init := entries[..|entries| - 1];
    var last := entries[|entries| - 1];
    if name in ListState(init).0 {
      ListedNameIsBase(init, name);
      var k :| 0 <= k < |init| && Base(init[k]).Some? && name == Truncate(Base(init[k]).value);
      assert entries[k] == init[k];
    } else {
      assert name == Truncate(Base(last).value);
    }
  }

  /** handle_list sends no name twice when no base needs shortening. */
  lemma {:induction false} ListedNamesDistinct(entries: seq<string>)
    requires forall k :: 0 <= k < |entries| ==> ShortBase(entries[k])
    ensures Distinct(ListState(entries).0)
  {
    if entries != [] {
      var init := entries[..|entries| - 1];
      ListedNamesDistinct(init);
      var last := entries[|entries| - 1];
      assert ShortBase(last);
      if Base(last).Some? {
        AdmitDistinct(ListState(init).0, Base(last).value);
      }
    }
  }

  /** While fewer than 100 names are listed, every file's base is listed. */
  lemma {:induction false} ListedNamesComplete(entries: seq<string>, k: nat)
    requires k < |entries| && Base(entries[k]).Some? && ShortBase(entries[k])
    requires |ListState(entries).0| < MaxNames
    ensures Base(entries[k]).value in ListState(entries).0
  {
    var init := entries[..|entries| - 1];
    var (files, response) := ListState(init);
    var last := entries[|entries| - 1];
    assert files <= ListState(entries).0;
    if k < |entries| - 1 {
      assert init[k] == entries[k];
      ListedNamesComplete(init, k);
    }
  }

  /** When the names fit the response buffer, the response is exactly the
      listed names, one per line. */
  lemma {:induction false} ListResponseIsJoin(entries: seq<string>)
    requires forall k :: 0 <= k < |entries| ==> ShortBase(entries[k])
    requires |JoinLines(ListState(entries).0)| < BufferSize - 1
    ensures ListState(entries).1 == JoinLines(ListState(entries).0)
  {
    if entries != [] {
      var init := entries[..|entries| - 1];
      var (files, response) := ListState(init);
      var last := entries[|entries| - 1];
      assert ShortBase(last);
      if Base(last).Some? && Base(last).value !in files && |files| < MaxNames {
        var b := Base(last).value;
        JoinLinesSnoc(files, b);
      }
      ListResponseIsJoin(init);
    }
  }

  /** Files stored by handle_put have names without white space. */
  predicate TokenNames(entries: seq<string>)
  {
    forall k :: 0 <= k < |entries| ==> IsToken(entries[k])
  }

  /** When the names fit the buffer, the client's strtok on newlines reads
      back exactly the names handle_list listed. */
  lemma ListReadsBack(entries: seq<string>)
    requires TokenNames(entries)
    requires forall k :: 0 <= k < |entries| ==> ShortBase(entries[k])
    requires |JoinLines(ListState(entries).0)| < BufferSize - 1
    ensures Lines(ListState(entries).1) == ListState(entries).0
  {
    var names := ListState(entries).0;
    ListResponseIsJoin(entries);
    forall i | 0 <= i < |names|
      ensures IsLine(names[i])
    {
      ListedNameIsBase(entries, names[i]);
      var k :| 0 <= k < |entries| && Base(entries[k]).Some? && names[i] == Truncate(Base(entries[k]).value);
      assert IsToken(entries[k]);
      var b := Base(entries[k]).value;
      assert forall j :: 0 <= j < |names[i]| ==> names[i][j] == entries[k][j];
    }
    LinesOfJoinLines(names);
  }
}
