/** The distributed-file client (dfc.c): the server roster read from the
    configuration, splitting a file into four chunks, the upload plan, the
    completeness check, the download and the listing. Sockets are
    abstracted: what the client sends is returned as a trace of messages,
    and what each server replies is an input. MD5 is abstracted as the
    function hashOf. */
module Client {
  import opened Strings
  import opened Placement
  import Net

  const MaxServers := 10
  /** put_file needs at least this many connected servers. */
  const Quorum := 3

  datatype Server = Server(hostname: string, ip: string, port: int, connected: bool)

  // ---------------------------------------------------------------- config

  predicate NotColon(c: char) { c != ':' }

  /** The two words of a line that starts with "server", when
      sscanf(line, "server %s %s", ...) finds both: the name and the
      address. */
  function ServerFields(line: string): (r: Option<(string, string)>)
    ensures r.Some? ==> StartsWith(line, "server") && IsToken(r.value.0)
  {
    if !StartsWith(line, "server") then None
    else
      match ScanWord(line[6..])
      case None => None
      case Some((name, rest)) =>
        ScanWordIsToken(line[6..]);
        match ScanWord(rest)
        case None => None
        case Some((address, _)) => Some((name, address))
  }

  /** One line of dfc.conf: "server <name> <ip>:<port>". A line is used only
      if it has the two words and the address has a colon; the ip is the
      text before the first colon and the port is atoi of the rest. */
  function ParseServerLine(line: string): (r: Option<Server>)
    ensures r.Some? ==> ServerFields(line).Some? && !r.value.connected
    ensures r.Some? ==> StartsWith(line, "server") && IsToken(r.value.hostname)
    ensures r.Some? ==> forall i :: 0 <= i < |r.value.ip| ==> r.value.ip[i] != ':'
  {
    match ServerFields(line)
    case None => None
    case Some((name, address)) => FromFields(name, address)
  }

  /** The server named by the two words: the ip is the text before the
      first colon of the address and the port is atoi of the rest; an
      address without a colon names none. */
  function FromFields(name: string, address: string): (r: Option<Server>)
    ensures r.Some? ==> r.value.hostname == name && !r.value.connected
    ensures r.Some? ==> forall i :: 0 <= i < |r.value.ip| ==> r.value.ip[i] != ':'
    ensures r.None? <==> forall i :: 0 <= i < |address| ==> address[i] != ':'
  {
    var colon := Span(address, NotColon);
    SpanIsMaximal(address, NotColon);
    if colon == |address| then None
    else Some(Server(name, address[..colon], Atoi(address[colon + 1..]), false))
  }

  /** What servers[count] holds after a line with the two words: the
      server they name, or else the old slot with only its hostname
      overwritten. */
  function Filled(slot: Server, name: string, address: string): (r: Server)
    ensures r.hostname == name
    ensures FromFields(name, address).None? ==> r == slot.(hostname := name)
  {
    match FromFields(name, address)
    case Some(s) => s
    case None => slot.(hostname := name)
  }

  /** The address part "<ip>:<port>" is one word and splits at its colon. */
  lemma AddressSplits(ip: string, port: int)
    requires IsToken(ip)
    requires forall i :: 0 <= i < |ip| ==> ip[i] != ':'
    ensures var address := ip + ":" + IntToString(port);
      IsToken(address) && Span(address, NotColon) == |ip| < |address| &&
      address[..|ip|] == ip && Atoi(address[|ip| + 1..]) == port
  {
    var address := ip + ":" + IntToString(port);
    assert address == ip + (":" + IntToString(port));
    TokenAppend(ip, ":" + IntToString(port));
    assert forall i :: 0 <= i < |ip| ==> NotColon(ip[i]);
    SpanOfPrefix(ip, ":" + IntToString(port), NotColon);
    assert address[..|ip|] == ip;
    assert address[|ip| + 1..] == IntToString(port);
    AtoiOfIntToString(port);
  }

  /** How the documented line is laid out around its two words. */
  lemma ServerLineShape(name: string, address: string)
    ensures var line := "server " + name + " " + address + "\n";
      line[..6] == "server" && line[6..] == " " + (name + (" " + (address + "\n")))
  {
    var line := "server " + name + " " + address + "\n";
    assert line == "server" + (" " + (name + (" " + (address + "\n"))));
  }

  /** A line written the documented way is read back as the server it names. */
  lemma ServerLineRoundTrip(name: string, ip: string, port: int)
    requires IsToken(name) && IsToken(ip)
    requires forall i :: 0 <= i < |ip| ==> ip[i] != ':'
    ensures ParseServerLine("server " + name + " " + (ip + ":" + IntToString(port)) + "\n")
      == Some(Server(name, ip, port, false))
  {
    var address := ip + ":" + IntToString(port);
    AddressSplits(ip, port);
    FieldsOfServerLine(name, address);
    assert FromFields(name, address) == Some(Server(name, ip, port, false));
  }

  /** The two words of a line written the documented way are read back. */
  lemma FieldsOfServerLine(name: string, address: string)
    requires IsToken(name) && IsToken(address)
    ensures ServerFields("server " + name + " " + address + "\n") == Some((name, address))
  {
    var tail := " " + (address + "\n");
    ServerLineShape(name, address);
    ScanWordOfToken(" ", name, tail);
    ScanWordOfToken(" ", address, "\n");
  }

  /** What read_config makes of each line of the file. */
  function ParsedLines(lines: seq<string>): (parsed: seq<Option<Server>>)
    ensures |parsed| == |lines|
  {
    seq(|lines|, i requires 0 <= i < |lines| => ParseServerLine(lines[i]))
  }

  /** The two words after "server" on each line of the file, if any. */
  function FieldsOf(lines: seq<string>): (fields: seq<Option<(string, string)>>)
    ensures |fields| == |lines|
  {
    seq(|lines|, i requires 0 <= i < |lines| => ServerFields(lines[i]))
  }

  /** Each of the first n lines that has the two words comes while the
      roster, which holds start servers and those of the lines before it,
      has a free slot. */
  predicate Fits(parsed: seq<Option<Server>>, fields: seq<Option<(string, string)>>, start: nat, n: nat)
    requires n <= |parsed| == |fields|
  {
    n == 0 ||
    (Fits(parsed, fields, start, n - 1) &&
     (fields[n - 1].Some? ==> start + |Kept(parsed, n - 1)| < MaxServers))
  }

  /** Line k of those that fit has its free slot. */
  lemma {:induction false} FitsAt(parsed: seq<Option<Server>>, fields: seq<Option<(string, string)>>, start: nat, n: nat, k: nat)
    requires k < n <= |parsed| == |fields|
    requires Fits(parsed, fields, start, n)
    ensures fields[k].Some? ==> start + |Kept(parsed, k)| < MaxServers
    decreases n
  {
    if k < n - 1 {
      FitsAt(parsed, fields, start, n - 1, k);
    }
  }


  /** The server one parsed line adds: none, or the one it names. */
  function Added(parsed: Option<Server>): (added: seq<Server>)
    ensures |added| <= 1
  {
    if parsed.Some? then [parsed.value] else []
  }

  /** The servers named by the first n parsed lines, in file order. */
  function Kept(parsed: seq<Option<Server>>, n: nat): (servers: seq<Server>)
    requires n <= |parsed|
    ensures |servers| <= n
  {
    if n == 0 then [] else Kept(parsed, n - 1) + Added(parsed[n - 1])
  }

  /** The servers read_config adds, in file order. */
  function Configured(lines: seq<string>): seq<Server>
  {
    Kept(ParsedLines(lines), |lines|)
  }

  /** Later lines never take a server away. */
  lemma {:induction false} KeptGrows(parsed: seq<Option<Server>>, k: nat, n: nat)
    requires k <= n <= |parsed|
    ensures |Kept(parsed, k)| <= |Kept(parsed, n)|
    decreases n
  {
    if k < n {
      KeptGrows(parsed, k, n - 1);
    }
  }

  /** One more line adds the server it names, if any, after those before. */
  lemma KeptStep(roster: seq<Server>, parsed: seq<Option<Server>>, k: nat)
    requires k < |parsed|
    ensures roster + Kept(parsed, k + 1) == (roster + Kept(parsed, k)) + Added(parsed[k])
  {
  }

  /** A parsed line names an unconnected server. */
  predicate Unconnected(parsed: seq<Option<Server>>)
  {
    forall i :: 0 <= i < |parsed| && parsed[i].Some? ==> !parsed[i].value.connected
  }

  /** The servers kept from unconnected entries are unconnected. */
  lemma {:induction false} KeptUnconnected(parsed: seq<Option<Server>>, n: nat)
    requires n <= |parsed| && Unconnected(parsed)
    ensures forall s :: s in Kept(parsed, n) ==> !s.connected
  {
    if n > 0 {
      KeptUnconnected(parsed, n - 1);
      assert Kept(parsed, n) == Kept(parsed, n - 1) + Added(parsed[n - 1]);
    }
  }

  /** Every server read_config adds starts out unconnected. */
  lemma ConfiguredUnconnected(lines: seq<string>)
    ensures forall s :: s in Configured(lines) ==> !s.connected
  {
    var parsed := ParsedLines(lines);
    assert Unconnected(parsed) by {
      forall i | 0 <= i < |parsed| && parsed[i].Some?
        ensures !parsed[i].value.connected
      {
        assert parsed[i] == ParseServerLine(lines[i]);
      }
    }
    KeptUnconnected(parsed, |lines|);
  }

  /** The ServerList structure: a fixed array of MAX_SERVERS entries of
      which the first count are in use. */
  class ServerList {
    var servers: array<Server>
    var count: nat

    ghost predicate Valid()
      reads this
    {
      servers.Length == MaxServers && count <= MaxServers
    }

    function Roster(): seq<Server>
      reads this, servers
      requires Valid()
    {
      servers[..count]
    }

    constructor ()
      ensures Valid() && Roster() == []
      ensures fresh(servers)
    {
      servers := new Server[MaxServers](_ => Server("", "", 0, false));
      count := 0;
    }

    /** Storing a parsed server at servers[count] and counting it. */
    method Add(s: Server)
      requires Valid() && count < MaxServers
      modifies this, servers
      ensures Valid() && servers == old(servers)
      ensures Roster() == old(Roster()) + [s]
      ensures servers[old(count)] == s && servers[old(count) + 1..] == old(servers[count + 1..])
    {
      servers[count] := s;
      count := count + 1;
    }

    /** Copying a scanned hostname into servers[count], the slot after the
        roster, before the line is known to be complete. */
    method Name(name: string)
      requires Valid() && count < MaxServers
      modifies servers
      ensures Roster() == old(Roster())
      ensures servers[count] == old(servers[count]).(hostname := name)
      ensures servers[count + 1..] == old(servers[count + 1..])
    {
      servers[count] := servers[count].(hostname := name);
    }

    /** One line of read_config. A line with the two words has its name
        copied into servers[count] before the colon test, so that slot must
        exist; only a line whose address has a colon fills in the rest of
        the slot and is counted. */
    method ReadLine(line: string, ghost parsed: Option<Server>, ghost fields: Option<(string, string)>)
      requires parsed == ParseServerLine(line) && fields == ServerFields(line)
      requires Valid() && (fields.Some? ==> count < MaxServers)
      modifies this, servers
      ensures Valid() && servers == old(servers)
      ensures Roster() == old(Roster()) + Added(parsed)
      ensures fields.Some? ==> servers[old(count)] == Filled(old(servers[count]), fields.value.0, fields.value.1)
      ensures fields.Some? ==> servers[old(count) + 1..] == old(servers[count + 1..])
      ensures fields.None? ==> servers[..] == old(servers[..])
    {
      var words := ServerFields(line);
      if words.Some? {
        ReadFields(words.value.0, words.value.1);
      }
    }

    /** The rest of a line with the two words: the name goes into
        servers[count] and, if the address has a colon, the slot is
        completed and counted. */
    method ReadFields(name: string, address: string)
      requires Valid() && count < MaxServers
      modifies this, servers
      ensures Valid() && servers == old(servers)
      ensures Roster() == old(Roster()) + Added(FromFields(name, address))
      ensures servers[old(count)] == Filled(old(servers[count]), name, address)
      ensures servers[old(count) + 1..] == old(servers[count + 1..])
    {
      Name(name);
      var server := FromFields(name, address);
      if server.Some? {
        Add(server.value);
      }
    }

    /** The loop of read_config over lines whose parses are given: the
        roster grows by the servers the parsed lines name, in order. */
    method ReadLines(lines: seq<string>, ghost parsed: seq<Option<Server>>, ghost fields: seq<Option<(string, string)>>)
      requires |parsed| == |lines| == |fields|
      requires parsed == ParsedLines(lines) && fields == FieldsOf(lines)
      requires Valid() && Fits(parsed, fields, count, |lines|)
      modifies this, servers
      ensures Valid() && servers == old(servers)
      ensures Roster() == old(Roster()) + Kept(parsed, |lines|)
    {
      ghost var start := Roster();
      for k := 0 to |lines|
        invariant Valid() && servers == old(servers)
        invariant Roster() == start + Kept(parsed, k)
      {
        ReadNext(lines, parsed, fields, k, start);
      }
    }

    /** One turn of read_config's loop: line k of a file whose lines parse
        as parsed and fields adds the server it names after those of the
        lines before it. */
    method ReadNext(lines: seq<string>, ghost parsed: seq<Option<Server>>, ghost fields: seq<Option<(string, string)>>,
                    k: nat, ghost start: seq<Server>)
      requires k < |lines|
      requires parsed == ParsedLines(lines) && fields == FieldsOf(lines)
      requires Valid() && Fits(parsed, fields, |start|, |lines|)
      requires Roster() == start + Kept(parsed, k)
      modifies this, servers
      ensures Valid() && servers == old(servers)
      ensures Roster() == start + Kept(parsed, k + 1)
    {
      KeptStep(start, parsed, k);
      FitsAt(parsed, fields, |start|, |lines|, k);
      ReadLine(lines[k], parsed[k], fields[k]);
    }

    /** read_config over the lines of the file. The source never checks
        MAX_SERVERS before writing servers[count], so every line with the
        two words must come while fewer than MaxServers servers are
        listed. */
    method ReadConfig(lines: seq<string>)
      requires Valid()
      requires Fits(ParsedLines(lines), FieldsOf(lines), count, |lines|)
      modifies this, servers
      ensures Valid() && servers == old(servers)
      ensures Roster() == old(Roster()) + Configured(lines)
    {
      ReadLines(lines, ParsedLines(lines), FieldsOf(lines));
    }
  }

  // ----------------------------------------------------------------- split

  /** (file_size + 3) / 4: the ceiling of a quarter of the file. */
  function ChunkSize(fileSize: nat): (cs: nat)
    ensures 4 * cs >= fileSize && 4 * cs < fileSize + 4
  {
    (fileSize + 3) / 4
  }

  function Zeros(n: nat): (z: seq<byte>)
    ensures |z| == n && forall i :: 0 <= i < n ==> z[i] == 0
  {
    seq(n, _ => 0)
  }

  /** The file followed by the zero bytes that fill the last chunk. */
  function Padded(file: seq<byte>): (p: seq<byte>)
    ensures |p| == 4 * ChunkSize(|file|)
  {
    file + Zeros(4 * ChunkSize(|file|) - |file|)
  }

  /** Chunk c of the file (0-based). */
  function Chunk(file: seq<byte>, c: ChunkIndex): (chunk: seq<byte>)
    ensures |chunk| == ChunkSize(|file|)
  {
    var cs := ChunkSize(|file|);
    Padded(file)[c * cs..(c + 1) * cs]
  }

  function Chunks(file: seq<byte>): (cs: seq<seq<byte>>)
    ensures |cs| == 4 && forall c :: 0 <= c < 4 ==> cs[c] == Chunk(file, c)
  {
    [Chunk(file, 0), Chunk(file, 1), Chunk(file, 2), Chunk(file, 3)]
  }

  function Assemble(chunks: seq<seq<byte>>): seq<byte>
    requires |chunks| == 4
  {
    chunks[0] + chunks[1] + chunks[2] + chunks[3]
  }

  /** The four chunks, written out in order, are the file followed by
      4 * chunk_size - file_size (at most three) zero bytes. */
  lemma ChunksReassemble(file: seq<byte>)
    ensures Assemble(Chunks(file)) == file + Zeros(4 * ChunkSize(|file|) - |file|)
    ensures 4 * ChunkSize(|file|) - |file| < 4
  {
    var cs := ChunkSize(|file|);
    var p := Padded(file);
    assert p[0 * cs..1 * cs] + p[1 * cs..2 * cs] == p[..2 * cs];
    assert p[..2 * cs] + p[2 * cs..3 * cs] == p[..3 * cs];
    assert p[..3 * cs] + p[3 * cs..4 * cs] == p;
  }

  /** Byte t of chunk c is byte c * chunk_size + t of the file, or a zero
      of the padding past its end. */
  lemma ChunkByte(file: seq<byte>, c: ChunkIndex, t: nat)
    requires t < ChunkSize(|file|)
    ensures var at := c * ChunkSize(|file|) + t;
      Chunk(file, c)[t] == if at < |file| then file[at] else 0
  {
  }

  /** The chunk allocation and fread loop of put_file: four zeroed buffers
      of chunk_size bytes, filled one after the other from the file. */
  method SplitFile(file: seq<byte>) returns (chunkSize: nat, chunks: seq<seq<byte>>)
    ensures chunkSize == ChunkSize(|file|)
    ensures chunks == Chunks(file)
  {
    chunkSize := (|file| + 3) / 4;
    chunks := [];
    var start := 0;
    var pos := 0;
    for i := 0 to 4
      invariant |chunks| == i && start == i * chunkSize
      invariant pos == Net.Min(start, |file|)
      invariant forall j :: 0 <= j < i ==> chunks[j] == Chunk(file, j)
    {
      var buf := new byte[chunkSize](_ => 0);
      var n := Net.Min(chunkSize, |file| - pos);
      forall t | 0 <= t < n {
        buf[t] := file[pos + t];
      }
      forall t | 0 <= t < chunkSize
        ensures buf[t] == Chunk(file, i)[t]
      {
        ChunkByte(file, i, t);
      }
      assert buf[..] == Chunk(file, i);
      chunks := chunks + [buf[..]];
      pos := pos + n;
      start := start + chunkSize;
    }
  }

  // ------------------------------------------------------------------- put

  /** What the client writes to a server's socket. */
  datatype Message = Command(text: string) | Payload(data: seq<byte>)

  /** A message sent to roster position server. */
  datatype Sent = Sent(server: nat, msg: Message)

  /** A server that answered the upload, and whether its answer was taken
      as success. Servers that did not answer are not reported. */
  datatype PutReport = PutReport(server: nat, accepted: bool)

  datatype PutOutcome = QuorumFailed | Uploaded(sent: seq<Sent>, reports: seq<PutReport>)

  /** Placement is only defined when the roster is non-empty (hash % count)
      and no connected server sits beyond the four rows of chunk_pairs. */
  predicate PlacementDefined(servers: seq<Server>) {
    |servers| >= 1 && forall i :: 4 <= i < |servers| ==> !servers[i].connected
  }

  /** The number of connected servers among the first n. */
  function LiveCount(servers: seq<Server>, n: nat): (k: nat)
    requires n <= |servers|
    ensures k <= n
  {
    if n == 0 then 0 else LiveCount(servers, n - 1) + (if servers[n - 1].connected then 1 else 0)
  }

  function PutCommand(name: string, chunkSize: nat): string {
    "PUT " + name + " " + IntToString(chunkSize)
  }

  /** Chunk numbers go on the wire 1-based. */
  function ChunkHeader(c: ChunkIndex): string {
    "CHUNK " + IntToString(c + 1)
  }

  /** As written, put_file counts a reply as success only if it starts
      with "OK". */
  predicate AckAcceptedAsWritten(reply: string) {
    StartsWith(reply, "OK")
  }

  /** The corrected acknowledgment test: the storage node answers "ok". */
  predicate AckAccepted(reply: string) {
    StartsWith(reply, "ok")
  }

  /** The five messages sent to server i for its pair p. */
  function ServerPut(i: nat, name: string, chunkSize: nat, chunks: seq<seq<byte>>, p: Pair): seq<Sent>
    requires |chunks| == 4
  {
    [Sent(i, Command(PutCommand(name, chunkSize))),
     Sent(i, Command(ChunkHeader(p.first))), Sent(i, Payload(chunks[p.first])),
     Sent(i, Command(ChunkHeader(p.second))), Sent(i, Payload(chunks[p.second]))]
  }

  lemma ServerPutGoesTo(i: nat, name: string, chunkSize: nat, chunks: seq<seq<byte>>, p: Pair)
    requires |chunks| == 4
    ensures var t := ServerPut(i, name, chunkSize, chunks, p);
      |t| == 5 && forall k :: 0 <= k < |t| ==> t[k].server == i
  {
  }

  /** The upload messages for the first n roster positions. */
  function PutPlan(servers: seq<Server>, n: nat, name: string, chunkSize: nat, chunks: seq<seq<byte>>, x: nat): seq<Sent>
    requires PlacementDefined(servers) && n <= |servers| && |chunks| == 4
  {
    if n == 0 then []
    else
      PutPlan(servers, n - 1, name, chunkSize, chunks, x) +
      (if servers[n - 1].connected then ServerPut(n - 1, name, chunkSize, chunks, PairAt(x, n - 1)) else [])
  }

  /** What put_file prints for the first n servers: one report per
      connected server whose recv brought an answer, judged by the test
      as written. */
  function PutReports(servers: seq<Server>, acks: seq<string>, n: nat): seq<PutReport>
    requires n <= |servers| == |acks|
  {
    if n == 0 then []
    else
      PutReports(servers, acks, n - 1) +
      (if servers[n - 1].connected && |acks[n - 1]| > 0 then [PutReport(n - 1, AckAcceptedAsWritten(acks[n - 1]))] else [])
  }

  /** As written, when every storage node answers the upload with its "ok",
      put_file reports every connected server's upload as failed. */
  lemma {:induction false} NodeAcksReportedFailed(servers: seq<Server>, acks: seq<string>, n: nat)
    requires n <= |servers| == |acks|
    requires forall j :: 0 <= j < |acks| ==> acks[j] == "ok"
    ensures |PutReports(servers, acks, n)| == LiveCount(servers, n)
    ensures forall k :: 0 <= k < |PutReports(servers, acks, n)| ==> !PutReports(servers, acks, n)[k].accepted
  {
    if n > 0 {
      NodeAcksReportedFailed(servers, acks, n - 1);
      assert acks[n - 1][..2] == "ok" != "OK";
    }
  }

  /** The count of connected servers that put_file compares with the quorum. */
  method CountConnected(servers: seq<Server>) returns (available: nat)
    ensures available == LiveCount(servers, |servers|)
  {
    available := 0;
    for i := 0 to |servers|
      invariant available == LiveCount(servers, i)
    {
      if servers[i].connected {
        available := available + 1;
      }
    }
  }

  /** The sending loop of put_file: for every connected server i, the PUT
      command, then each chunk of row i of the rotated table behind its
      CHUNK header, then one recv for the acknowledgment. */
  method SendChunks(servers: seq<Server>, name: string, chunkSize: nat, chunks: seq<seq<byte>>,
                    x: nat, pairs: array2<int>, acks: seq<string>)
    returns (sent: seq<Sent>, reports: seq<PutReport>)
    requires PlacementDefined(servers) && |acks| == |servers| && |chunks| == 4
    requires pairs.Length0 == 4 && pairs.Length1 == 2
    requires forall i :: 0 <= i < 4 ==> pairs[i, 0] == PairAt(x, i).first && pairs[i, 1] == PairAt(x, i).second
    ensures sent == PutPlan(servers, |servers|, name, chunkSize, chunks, x)
    ensures reports == PutReports(servers, acks, |servers|)
  {
    sent := [];
    reports := [];
    for i := 0 to |servers|
      invariant sent == PutPlan(servers, i, name, chunkSize, chunks, x)
      invariant reports == PutReports(servers, acks, i)
    {
      if !servers[i].connected {
        continue;
      }
      var p := Pair(pairs[i, 0], pairs[i, 1]);
      assert p == PairAt(x, i);
      sent := sent + [Sent(i, Command(PutCommand(name, chunkSize))),
                      Sent(i, Command(ChunkHeader(p.first))), Sent(i, Payload(chunks[p.first])),
                      Sent(i, Command(ChunkHeader(p.second))), Sent(i, Payload(chunks[p.second]))];
      if |acks[i]| > 0 {
        reports := reports + [PutReport(i, AckAcceptedAsWritten(acks[i]))];
      }
    }
  }

  /** put_file: split the file, compute the rotation from the hash of the
      name, require a quorum of connected servers, then send every
      connected server i its pair of chunks. acks[i] is what server i
      answers (empty when recv returns nothing). */
  method PutFile(servers: seq<Server>, name: string, file: seq<byte>, hashOf: string -> nat, acks: seq<string>)
    returns (r: PutOutcome)
    requires PlacementDefined(servers) && |acks| == |servers|
    ensures r.QuorumFailed? <==> LiveCount(servers, |servers|) < Quorum
    ensures r.Uploaded? ==>
      r.sent == PutPlan(servers, |servers|, name, ChunkSize(|file|), Chunks(file), Rotation(hashOf(name), |servers|))
    ensures r.Uploaded? ==> r.reports == PutReports(servers, acks, |servers|)
  {
    var chunkSize, chunks := SplitFile(file);
    var x := hashOf(name) % |servers|;
    var available := CountConnected(servers);
    if available < Quorum {
      return QuorumFailed;
    }
    var pairs := RotatePairs(x);
    var sent, reports := SendChunks(servers, name, chunkSize, chunks, x, pairs, acks);
    r := Uploaded(sent, reports);
  }

  /** The messages of a trace that went to server i. */
  function SentTo(trace: seq<Sent>, i: nat): (r: seq<Sent>)
  {
    if trace == [] then []
    else SentTo(trace[..|trace| - 1], i) + (if trace[|trace| - 1].server == i then [trace[|trace| - 1]] else [])
  }

  lemma {:induction false} SentToAppend(a: seq<Sent>, b: seq<Sent>, i: nat)
    ensures SentTo(a + b, i) == SentTo(a, i) + SentTo(b, i)
    decreases |b|
  {
    if b == [] {
      assert a + b == a;
    } else {
      assert (a + b)[..|a + b| - 1] == a + b[..|b| - 1];
      SentToAppend(a, b[..|b| - 1], i);
    }
  }

  lemma SentToOther(trace: seq<Sent>, i: nat)
    requires forall k :: 0 <= k < |trace| ==> trace[k].server != i
    ensures SentTo(trace, i) == []
  {
    if trace != [] {
      SentToOther(trace[..|trace| - 1], i);
    }
  }

  lemma SentToSame(trace: seq<Sent>, i: nat)
    requires forall k :: 0 <= k < |trace| ==> trace[k].server == i
    ensures SentTo(trace, i) == trace
  {
    if trace != [] {
      SentToSame(trace[..|trace| - 1], i);
    }
  }

  /** Server i receives, over the whole upload, exactly the PUT command and
      its own two chunks, each after a 1-based CHUNK header, when it is
      connected, and nothing when it is not. */
  lemma {:induction false} PutPlanPerServer(servers: seq<Server>, n: nat, name: string, chunkSize: nat,
                                            chunks: seq<seq<byte>>, x: nat, i: nat)
    requires PlacementDefined(servers) && n <= |servers| && |chunks| == 4 && i < |servers|
    ensures SentTo(PutPlan(servers, n, name, chunkSize, chunks, x), i) ==
      if i < n && servers[i].connected then ServerPut(i, name, chunkSize, chunks, PairAt(x, i)) else []
  {
    if n > 0 {
      var prev := PutPlan(servers, n - 1, name, chunkSize, chunks, x);
      var last := if servers[n - 1].connected then ServerPut(n - 1, name, chunkSize, chunks, PairAt(x, n - 1)) else [];
      assert PutPlan(servers, n, name, chunkSize, chunks, x) == prev + last;
      if servers[n - 1].connected {
        ServerPutGoesTo(n - 1, name, chunkSize, chunks, PairAt(x, n - 1));
      }
      PutPlanPerServer(servers, n - 1, name, chunkSize, chunks, x, i);
      SentToStep(prev, last, i, n - 1);
    }
  }

  /** Appending messages that all go to server j adds them to j's share
      and nothing to any other server's. */
  lemma SentToStep(prev: seq<Sent>, last: seq<Sent>, i: nat, j: nat)
    requires forall k :: 0 <= k < |last| ==> last[k].server == j
    ensures SentTo(prev + last, i) == SentTo(prev, i) + (if i == j then last else [])
  {
    SentToAppend(prev, last, i);
    if i == j {
      SentToSame(last, i);
    } else {
      SentToOther(last, i);
      assert SentTo(prev, i) + [] == SentTo(prev, i);
    }
  }

  /** Counting argument behind the quorum: if neither of two distinct
      positions h0, h1 < 4 is connected, the connected servers among the
      first n number at most min(n, 4) minus those of h0, h1 below n. */
  lemma {:induction false} LiveCountWithoutTwo(servers: seq<Server>, n: nat, h0: nat, h1: nat)
    requires PlacementDefined(servers) && n <= |servers|
    requires h0 < 4 && h1 < 4 && h0 != h1
    requires h0 < |servers| ==> !servers[h0].connected
    requires h1 < |servers| ==> !servers[h1].connected
    ensures LiveCount(servers, n) + (if h0 < n then 1 else 0) + (if h1 < n then 1 else 0) <= Net.Min(n, 4)
  {
    if n > 0 {
      LiveCountWithoutTwo(servers, n - 1, h0, h1);
    }
  }

  /** Some connected server holds chunk c. */
  predicate Covered(servers: seq<Server>, x: nat, c: ChunkIndex)
    requires PlacementDefined(servers)
  {
    exists i :: 0 <= i < |servers| && servers[i].connected && PairAt(x, i).Holds(c)
  }

  /** With a quorum of three connected servers every chunk is sent to at
      least one of them, whatever the rotation. */
  lemma QuorumCoversEveryChunk(servers: seq<Server>, x: nat, c: ChunkIndex)
    requires PlacementDefined(servers) && LiveCount(servers, |servers|) >= Quorum
    ensures Covered(servers, x, c)
  {
    var hs := Holders(x, c);
    if !Covered(servers, x, c) {
      forall k | 0 <= k < |servers| && servers[k].connected
        ensures k != hs.0 && k != hs.1
      {
        EachChunkInExactlyTwoRows(x, c, k);
      }
      LiveCountWithoutTwo(servers, |servers|, hs.0, hs.1);
      assert false;
    }
  }

  /** Below the quorum the servers do not necessarily cover the file: with
      two connected servers some rotation leaves a chunk on neither. */
  lemma TwoServersMayMissAChunk()
    ensures var servers := [Server("a", "", 0, true), Server("b", "", 0, true), Server("c", "", 0, false), Server("d", "", 0, false)];
      PlacementDefined(servers) && LiveCount(servers, 4) == 2 && !Covered(servers, 0, 3)
  {
    var servers := [Server("a", "", 0, true), Server("b", "", 0, true), Server("c", "", 0, false), Server("d", "", 0, false)];
    assert !PairAt(0, 0).Holds(3) && !PairAt(0, 1).Holds(3);
  }
}
