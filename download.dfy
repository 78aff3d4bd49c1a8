/** The client's read side (dfc.c): check_file_completeness asks every
    connected server whether it holds the file, and get_file downloads the
    chunks from the servers the placement names and writes them out in
    order. What each server answers is an input. */
module Download {
  import opened Strings
  import opened Placement
  import opened Client
  import Net

  // ---------------------------------------------------------- completeness

  function CheckCommand(name: string): string {
    "CHECK " + name
  }

  /** The same command sent to every connected server among the first n. */
  function Broadcast(servers: seq<Server>, n: nat, command: string): (trace: seq<Sent>)
    requires n <= |servers|
    ensures |trace| == LiveCount(servers, n)
  {
    if n == 0 then []
    else Broadcast(servers, n - 1, command) + (if servers[n - 1].connected then [Sent(n - 1, Command(command))] else [])
  }

  /** Server i is connected and its reply to CHECK starts with EXISTS. */
  predicate Confirms(servers: seq<Server>, replies: seq<string>, i: nat)
    requires i < |servers| == |replies|
  {
    servers[i].connected && StartsWith(replies[i], "EXISTS")
  }

  /** Chunk c is marked present by one of the first n servers. */
  function MarkedBy(servers: seq<Server>, x: nat, replies: seq<string>, n: nat, c: ChunkIndex): bool
    requires PlacementDefined(servers) && n <= |servers| == |replies|
  {
    if n == 0 then false
    else MarkedBy(servers, x, replies, n - 1, c) || (Confirms(servers, replies, n - 1) && PairAt(x, n - 1).Holds(c))
  }

  /** What check_file_completeness decides: every chunk is marked present. */
  predicate Complete(servers: seq<Server>, x: nat, replies: seq<string>)
    requires PlacementDefined(servers) && |replies| == |servers|
  {
    forall c: ChunkIndex :: MarkedBy(servers, x, replies, |servers|, c)
  }

  /** A chunk is marked exactly when some connected server that answered
      EXISTS holds it under the placement. */
  lemma {:induction false} MarkedByWitness(servers: seq<Server>, x: nat, replies: seq<string>, n: nat, c: ChunkIndex)
    requires PlacementDefined(servers) && n <= |servers| == |replies|
    ensures MarkedBy(servers, x, replies, n, c) <==>
      exists i :: 0 <= i < n && Confirms(servers, replies, i) && PairAt(x, i).Holds(c)
  {
    if n > 0 {
      MarkedByWitness(servers, x, replies, n - 1, c);
      if Confirms(servers, replies, n - 1) && PairAt(x, n - 1).Holds(c) {
        assert 0 <= n - 1 < n && Confirms(servers, replies, n - 1) && PairAt(x, n - 1).Holds(c);
      }
    }
  }

  /** check_file_completeness: send CHECK to every connected server, mark
      the two chunks of row i for each server i that answers EXISTS, and
      report whether all four chunks were marked. replies[i] is what
      server i answers (empty when recv returns nothing). */
  method CheckFileCompleteness(servers: seq<Server>, name: string, hashOf: string -> nat, replies: seq<string>)
    returns (sent: seq<Sent>, complete: bool)
    requires PlacementDefined(servers) && |replies| == |servers|
    ensures sent == Broadcast(servers, |servers|, CheckCommand(name))
    ensures complete <==> Complete(servers, Rotation(hashOf(name), |servers|), replies)
  {
    var present := new bool[4](_ => false);
    var x := hashOf(name) % |servers|;
    var pairs := RotatePairs(x);
    sent := [];
    for i := 0 to |servers|
      invariant sent == Broadcast(servers, i, CheckCommand(name))
      invariant forall k :: 0 <= k < 4 ==> pairs[k, 0] == PairAt(x, k).first && pairs[k, 1] == PairAt(x, k).second
      invariant forall c :: 0 <= c < 4 ==> present[c] == MarkedBy(servers, x, replies, i, c)
    {
      if servers[i].connected {
        assert i < 4;
        sent := sent + [Sent(i, Command(CheckCommand(name)))];
        if |replies[i]| > 0 && StartsWith(replies[i], "EXISTS") {
          var first, second := pairs[i, 0], pairs[i, 1];
          assert first == PairAt(x, i).first && second == PairAt(x, i).second;
          present[first] := true;
          present[second] := true;
        }
      }
    }
    for c := 0 to 4
      invariant forall d :: 0 <= d < c ==> present[d]
    {
      if !present[c] {
        return sent, false;
      }
    }
    return sent, true;
  }

  /** The roster as the completeness check sees it: a server counts as
      live when it is connected and answered EXISTS. */
  function Answering(servers: seq<Server>, replies: seq<string>): (live: seq<Server>)
    requires |replies| == |servers|
    ensures |live| == |servers|
    ensures forall i :: 0 <= i < |servers| ==> live[i].connected == Confirms(servers, replies, i)
  {
    seq(|servers|, i requires 0 <= i < |servers| => servers[i].(connected := Confirms(servers, replies, i)))
  }

  /** The file is complete exactly when the answering servers cover every
      chunk under the placement. */
  lemma CompleteIsCoverage(servers: seq<Server>, x: nat, replies: seq<string>)
    requires PlacementDefined(servers) && |replies| == |servers|
    ensures PlacementDefined(Answering(servers, replies))
    ensures Complete(servers, x, replies) <==> forall c: ChunkIndex :: Covered(Answering(servers, replies), x, c)
  {
    var live := Answering(servers, replies);
    forall c: ChunkIndex
      ensures MarkedBy(servers, x, replies, |servers|, c) <==> Covered(live, x, c)
    {
      MarkedByWitness(servers, x, replies, |servers|, c);
    }
  }

  /** Three servers that answer EXISTS are enough for the check to pass,
      whatever the other servers answer and whatever the rotation. */
  lemma ThreeConfirmationsSuffice(servers: seq<Server>, x: nat, replies: seq<string>)
    requires PlacementDefined(servers) && |replies| == |servers|
    requires LiveCount(Answering(servers, replies), |servers|) >= Quorum
    ensures Complete(servers, x, replies)
  {
    CompleteIsCoverage(servers, x, replies);
    forall c: ChunkIndex
      ensures Covered(Answering(servers, replies), x, c)
    {
      QuorumCoversEveryChunk(Answering(servers, replies), x, c);
    }
  }

  /** What a server that is not connected would have answered does not
      matter: its reply is never read. */
  lemma {:induction false} UnconnectedRepliesIgnored(servers: seq<Server>, x: nat, replies: seq<string>, other: seq<string>, n: nat, c: ChunkIndex)
    requires PlacementDefined(servers) && n <= |servers| == |replies| == |other|
    requires forall i :: 0 <= i < |servers| && servers[i].connected ==> replies[i] == other[i]
    ensures MarkedBy(servers, x, replies, n, c) == MarkedBy(servers, x, other, n, c)
  {
    if n > 0 {
      UnconnectedRepliesIgnored(servers, x, replies, other, n - 1, c);
    }
  }

  // ------------------------------------------------------------------- get

  function SizeCommand(name: string): string {
    "SIZE " + name
  }

  /** The request for chunk c (0-based), numbered 1-based on the wire. */
  function GetCommand(name: string, c: ChunkIndex): string {
    "GET " + name + " " + IntToString(c + 1)
  }

  /** atol of the text after "SIZE ", when the reply is a SIZE reply. */
  function SizeOf(reply: string): Option<int> {
    if StartsWith(reply, "SIZE ") then Some(Atoi(reply[5..])) else None
  }

  /** Every server's reply to SIZE, read as a size (None: not a SIZE reply). */
  function SizesOf(replies: seq<string>): (sizes: seq<Option<int>>)
    ensures |sizes| == |replies| && forall j :: 0 <= j < |replies| ==> sizes[j] == SizeOf(replies[j])
  {
    seq(|replies|, j requires 0 <= j < |replies| => SizeOf(replies[j]))
  }

  /** The chunk-size loop of get_file as written, from server i on: it stops
      at the first connected server whose reply is a SIZE reply, whatever
      size it names. The result is the chunk size and where the loop
      stopped (the servers before that position were asked). */
  function SizeFromAsWritten(servers: seq<Server>, sizes: seq<Option<int>>, i: nat): (r: (int, nat))
    requires i <= |servers| == |sizes|
    ensures i <= r.1 <= |servers|
    decreases |servers| - i
  {
    if i == |servers| then (0, i)
    else if servers[i].connected && sizes[i].Some? then (sizes[i].value, i + 1)
    else SizeFromAsWritten(servers, sizes, i + 1)
  }

  /** Server j is connected and its SIZE reply names a non-zero size. */
  predicate NamesSize(servers: seq<Server>, sizes: seq<Option<int>>, j: nat)
    requires j < |servers| == |sizes|
  {
    servers[j].connected && sizes[j].Some? && sizes[j].value != 0
  }

  /** The corrected chunk-size loop: it goes on past a
      server that answers "SIZE 0" (one that holds no chunk of the file)
      and stops at the first connected server that names a size. */
  function SizeFrom(servers: seq<Server>, sizes: seq<Option<int>>, i: nat): (r: (int, nat))
    requires i <= |servers| == |sizes|
    ensures i <= r.1 <= |servers|
    decreases |servers| - i
  {
    if i == |servers| then (0, i)
    else if NamesSize(servers, sizes, i) then (sizes[i].value, i + 1)
    else SizeFrom(servers, sizes, i + 1)
  }

  /** One step of get_file's search: a connected server with a SIZE reply
      ends it, any other passes it on. */
  lemma SizeFromAsWrittenStep(servers: seq<Server>, sizes: seq<Option<int>>, i: nat)
    requires i < |servers| == |sizes|
    ensures servers[i].connected && sizes[i].Some? ==> SizeFromAsWritten(servers, sizes, i) == (sizes[i].value, i + 1)
    ensures !(servers[i].connected && sizes[i].Some?) ==>
      SizeFromAsWritten(servers, sizes, i) == SizeFromAsWritten(servers, sizes, i + 1)
  {
  }

  /** get_file's search takes the size of the first connected server that
      sends a SIZE reply, and the servers asked before it sent none; with
      no such server the size is 0 and every server was passed. */
  lemma {:induction false} SizeFromAsWrittenIsFirstReply(servers: seq<Server>, sizes: seq<Option<int>>, i: nat)
    requires i <= |servers| == |sizes|
    ensures var (size, stop) := SizeFromAsWritten(servers, sizes, i);
      stop > i && servers[stop - 1].connected && sizes[stop - 1].Some? ==> sizes[stop - 1] == Some(size)
    ensures var (size, stop) := SizeFromAsWritten(servers, sizes, i);
      forall j :: i <= j < stop - 1 ==> !(servers[j].connected && sizes[j].Some?)
    ensures var (size, stop) := SizeFromAsWritten(servers, sizes, i);
      (stop > i && servers[stop - 1].connected && sizes[stop - 1].Some?) ||
      (size == 0 && stop == |servers| && forall j :: i <= j < |servers| ==> !(servers[j].connected && sizes[j].Some?))
    decreases |servers| - i
  {
    if i < |servers| && !(servers[i].connected && sizes[i].Some?) {
      SizeFromAsWrittenIsFirstReply(servers, sizes, i + 1);
    }
  }

  /** The size chosen is 0 exactly when no connected server from i on
      names a non-zero size. */
  lemma {:induction false} SizeFromZeroIff(servers: seq<Server>, sizes: seq<Option<int>>, i: nat)
    requires i <= |servers| == |sizes|
    ensures SizeFrom(servers, sizes, i).0 != 0 <==> exists j :: i <= j < |servers| && NamesSize(servers, sizes, j)
    decreases |servers| - i
  {
    if i < |servers| && !NamesSize(servers, sizes, i) {
      SizeFromZeroIff(servers, sizes, i + 1);
      assert (exists j :: i <= j < |servers| && NamesSize(servers, sizes, j)) ==
             (exists j :: i + 1 <= j < |servers| && NamesSize(servers, sizes, j));
    }
  }

  /** A non-zero size is the one named by the first connected server that
      names one; the servers asked before it named none. */
  lemma {:induction false} SizeFromIsFirstNamed(servers: seq<Server>, sizes: seq<Option<int>>, i: nat)
    requires i <= |servers| == |sizes|
    ensures var (size, stop) := SizeFrom(servers, sizes, i);
      size != 0 ==> stop > i && NamesSize(servers, sizes, stop - 1) && sizes[stop - 1] == Some(size)
    ensures var stop := SizeFrom(servers, sizes, i).1;
      forall j :: i <= j < stop - 1 ==> !NamesSize(servers, sizes, j)
    decreases |servers| - i
  {
    if i < |servers| && !NamesSize(servers, sizes, i) {
      SizeFromIsFirstNamed(servers, sizes, i + 1);
    }
  }

  /** As written, a first server that holds no chunk of the file (and so
      answers "SIZE 0") ends the search, and get_file gives up although the
      second server names the size; the corrected loop finds it. */
  lemma SizeLoopAsWrittenStopsAtZero(a: Server, b: Server)
    requires a.connected && b.connected
    ensures SizeFromAsWritten([a, b], [Some(0), Some(5)], 0) == (0, 1)
    ensures SizeFrom([a, b], [Some(0), Some(5)], 0) == (5, 2)
  {
    assert !NamesSize([a, b], [Some(0), Some(5)], 0);
    assert NamesSize([a, b], [Some(0), Some(5)], 1);
  }

  /** The chunk-size loop of get_file: SIZE goes to each connected server
      in turn until one answers with a SIZE reply, whose size is taken,
      zero or not. */
  method SelectChunkSize(servers: seq<Server>, name: string, replies: seq<string>)
    returns (sent: seq<Sent>, chunkSize: int)
    requires |replies| == |servers|
    ensures var (size, stop) := SizeFromAsWritten(servers, SizesOf(replies), 0);
      chunkSize == size && sent == Broadcast(servers, stop, SizeCommand(name))
  {
    ghost var sizes := SizesOf(replies);
    chunkSize := 0;
    sent := [];
    var i := 0;
    while i < |servers|
      invariant 0 <= i <= |servers|
      invariant SizeFromAsWritten(servers, sizes, 0) == SizeFromAsWritten(servers, sizes, i)
      invariant chunkSize == 0 && sent == Broadcast(servers, i, SizeCommand(name))
    {
      SizeFromAsWrittenStep(servers, sizes, i);
      assert sizes[i] == SizeOf(replies[i]);
      if servers[i].connected {
        sent := sent + [Sent(i, Command(SizeCommand(name)))];
        assert sent == Broadcast(servers, i + 1, SizeCommand(name));
        if |replies[i]| > 0 && StartsWith(replies[i], "SIZE ") {
          chunkSize := Atoi(replies[i][5..]);
          return;
        }
      }
      i := i + 1;
    }
  }

  /** The contents of chunk c's buffer after the GET loop has visited the
      first n servers: each connected server overwrites the buffers of the
      two chunks of its row with what it delivers. */
  function Fetched(init: seq<byte>, servers: seq<Server>, x: nat, deliveries: seq<(Net.Delivery, Net.Delivery)>,
                   n: nat, c: ChunkIndex): (r: seq<byte>)
    requires PlacementDefined(servers) && n <= |servers| == |deliveries|
    ensures |r| == |init|
  {
    if n == 0 then init
    else
      var before := Fetched(init, servers, x, deliveries, n - 1, c);
      if !servers[n - 1].connected then before
      else RowFilled(before, PairAt(x, n - 1), deliveries[n - 1], c)
  }

  /** The contents of chunk c's buffer after one server's two GETs for the
      chunks of row p: the first answer overwrites the buffer of p.first,
      then the second that of p.second. */
  function RowFilled(before: seq<byte>, p: Pair, d: (Net.Delivery, Net.Delivery), c: ChunkIndex): (r: seq<byte>)
    ensures |r| == |before|
    ensures !p.Holds(c) ==> r == before
  {
    var afterFirst := if p.first == c then Net.Fill(before, d.0) else before;
    if p.second == c then Net.Fill(afterFirst, d.1) else afterFirst
  }

  /** The GET requests of the first n servers: each connected server is
      asked for the two chunks of its row, 1-based. */
  function GetPlan(servers: seq<Server>, n: nat, name: string, x: nat): seq<Sent>
    requires PlacementDefined(servers) && n <= |servers|
  {
    if n == 0 then []
    else
      GetPlan(servers, n - 1, name, x) +
      (if servers[n - 1].connected then
         [Sent(n - 1, Command(GetCommand(name, PairAt(x, n - 1).first))),
          Sent(n - 1, Command(GetCommand(name, PairAt(x, n - 1).second)))]
       else [])
  }

  /** The GET loop of get_file: for each connected server i, request the
      first chunk of row i and receive chunk_size bytes into its buffer,
      then the same for the second chunk. deliveries[i] is how server i's
      two answers arrive. */
  method FetchChunks(servers: seq<Server>, name: string, x: nat, pairs: array2<int>,
                     bufs: seq<array<byte>>, deliveries: seq<(Net.Delivery, Net.Delivery)>)
    returns (sent: seq<Sent>)
    requires PlacementDefined(servers) && |deliveries| == |servers|
    requires pairs.Length0 == 4 && pairs.Length1 == 2
    requires forall k :: 0 <= k < 4 ==> pairs[k, 0] == PairAt(x, k).first && pairs[k, 1] == PairAt(x, k).second
    requires |bufs| == 4 && forall p, q :: 0 <= p < q < 4 ==> bufs[p] != bufs[q]
    modifies bufs[0], bufs[1], bufs[2], bufs[3]
    ensures sent == GetPlan(servers, |servers|, name, x)
    ensures forall c :: 0 <= c < 4 ==> bufs[c][..] == Fetched(old(bufs[c][..]), servers, x, deliveries, |servers|, c)
  {
    sent := [];
    for i := 0 to |servers|
      invariant sent == GetPlan(servers, i, name, x)
      invariant forall c :: 0 <= c < 4 ==> bufs[c][..] == Fetched(old(bufs[c][..]), servers, x, deliveries, i, c)
    {
      if !servers[i].connected {
        continue;
      }
      assert i < 4;
      var first, second := pairs[i, 0], pairs[i, 1];
      assert Pair(first, second) == PairAt(x, i);
      var row := FetchRow(i, name, Pair(first, second), bufs, deliveries[i]);
      sent := sent + row;
    }
  }

  /** One server's turn of the GET loop: request the first chunk of row p
      and receive into its buffer, then the same for the second. */
  method FetchRow(i: nat, name: string, p: Pair, bufs: seq<array<byte>>, d: (Net.Delivery, Net.Delivery))
    returns (sent: seq<Sent>)
    requires |bufs| == 4 && forall p, q :: 0 <= p < q < 4 ==> bufs[p] != bufs[q]
    modifies bufs[0], bufs[1], bufs[2], bufs[3]
    ensures sent == [Sent(i, Command(GetCommand(name, p.first))), Sent(i, Command(GetCommand(name, p.second)))]
    ensures forall c :: 0 <= c < 4 ==> bufs[c][..] == RowFilled(old(bufs[c][..]), p, d, c)
  {
    sent := [Sent(i, Command(GetCommand(name, p.first)))];
    var got := Net.RecvInto(bufs[p.first], d.0);
    sent := sent + [Sent(i, Command(GetCommand(name, p.second)))];
    got := Net.RecvInto(bufs[p.second], d.1);
  }

  /** What get_file ends with. */
  datatype GetResult =
    | Incomplete          // the completeness check failed; no SIZE or GET is sent
    | SizeUnknown         // no server named a chunk size; no GET is sent
    | AllocationFailed    // a negative chunk size: malloc of it fails
    | Downloaded(content: seq<byte>)

  /** The uninitialised memory malloc returns for chunk c. */
  function Uninitialised(junk: (nat, nat) -> byte, c: ChunkIndex, size: nat): (buf: seq<byte>)
    ensures |buf| == size
  {
    seq(size, j requires 0 <= j => junk(c, j))
  }

  /** The file get_file writes: the four chunk buffers in order. */
  function Reassembled(junk: (nat, nat) -> byte, size: nat, servers: seq<Server>, x: nat,
                       deliveries: seq<(Net.Delivery, Net.Delivery)>): (file: seq<byte>)
    requires PlacementDefined(servers) && |deliveries| == |servers|
    ensures |file| == 4 * size
  {
    var n := |servers|;
    Fetched(Uninitialised(junk, 0, size), servers, x, deliveries, n, 0) +
    Fetched(Uninitialised(junk, 1, size), servers, x, deliveries, n, 1) +
    Fetched(Uninitialised(junk, 2, size), servers, x, deliveries, n, 2) +
    Fetched(Uninitialised(junk, 3, size), servers, x, deliveries, n, 3)
  }

  /** The first n parts, one after the other. */
  function Concat(parts: seq<seq<byte>>, n: nat): seq<byte>
    requires n <= |parts|
  {
    if n == 0 then [] else Concat(parts, n - 1) + parts[n - 1]
  }

  /** The fwrite loop of get_file: each buffer in turn, chunk_size bytes each. */
  method WriteOut(bufs: seq<array<byte>>) returns (output: seq<byte>)
    requires |bufs| == 4
    ensures output == Assemble([bufs[0][..], bufs[1][..], bufs[2][..], bufs[3][..]])
  {
    ghost var parts := [bufs[0][..], bufs[1][..], bufs[2][..], bufs[3][..]];
    output := [];
    for c := 0 to 4
      invariant output == Concat(parts, c)
    {
      output := output + bufs[c][..];
    }
    assert Concat(parts, 2) == parts[0] + parts[1];
    assert Concat(parts, 3) == parts[0] + parts[1] + parts[2];
  }

  /** The part of get_file after the chunk size is known: four fresh
      buffers of that size, the GET loop over them, and the write-out. */
  method FetchAll(servers: seq<Server>, name: string, x: nat, pairs: array2<int>, chunkSize: nat,
                  deliveries: seq<(Net.Delivery, Net.Delivery)>, junk: (nat, nat) -> byte)
    returns (sent: seq<Sent>, output: seq<byte>)
    requires PlacementDefined(servers) && |deliveries| == |servers|
    requires pairs.Length0 == 4 && pairs.Length1 == 2
    requires forall k :: 0 <= k < 4 ==> pairs[k, 0] == PairAt(x, k).first && pairs[k, 1] == PairAt(x, k).second
    ensures sent == GetPlan(servers, |servers|, name, x)
    ensures output == Reassembled(junk, chunkSize, servers, x, deliveries)
  {
    var b0 := new byte[chunkSize](j requires 0 <= j => junk(0, j));
    var b1 := new byte[chunkSize](j requires 0 <= j => junk(1, j));
    var b2 := new byte[chunkSize](j requires 0 <= j => junk(2, j));
    var b3 := new byte[chunkSize](j requires 0 <= j => junk(3, j));
    assert b0[..] == Uninitialised(junk, 0, chunkSize) && b1[..] == Uninitialised(junk, 1, chunkSize);
    assert b2[..] == Uninitialised(junk, 2, chunkSize) && b3[..] == Uninitialised(junk, 3, chunkSize);
    var bufs := [b0, b1, b2, b3];
    sent := FetchChunks(servers, name, x, pairs, bufs, deliveries);
    output := WriteOut(bufs);
  }

  /** get_file: check completeness, settle the chunk size, allocate four
      buffers of that size, fetch every connected server's two chunks and
      write the four buffers out in order. */
  method GetFile(servers: seq<Server>, name: string, hashOf: string -> nat, checkReplies: seq<string>,
                 sizeReplies: seq<string>, deliveries: seq<(Net.Delivery, Net.Delivery)>, junk: (nat, nat) -> byte)
    returns (sent: seq<Sent>, result: GetResult)
    requires PlacementDefined(servers)
    requires |checkReplies| == |servers| && |sizeReplies| == |servers| && |deliveries| == |servers|
    ensures var x := Rotation(hashOf(name), |servers|);
      var checks := Broadcast(servers, |servers|, CheckCommand(name));
      var (size, stop) := SizeFromAsWritten(servers, SizesOf(sizeReplies), 0);
      var sizing := checks + Broadcast(servers, stop, SizeCommand(name));
      if !Complete(servers, x, checkReplies) then result == Incomplete && sent == checks
      else if size == 0 then result == SizeUnknown && sent == sizing
      else if size < 0 then result == AllocationFailed && sent == sizing
      else result == Downloaded(Reassembled(junk, size, servers, x, deliveries)) &&
           sent == sizing + GetPlan(servers, |servers|, name, x)
  {
    var checks, complete := CheckFileCompleteness(servers, name, hashOf, checkReplies);
    sent := checks;
    if !complete {
      return sent, Incomplete;
    }
    var x := hashOf(name) % |servers|;
    var pairs := RotatePairs(x);
    var sizing, chunkSize := SelectChunkSize(servers, name, sizeReplies);
    sent := sent + sizing;
    if chunkSize == 0 {
      return sent, SizeUnknown;
    }
    if chunkSize < 0 {
      return sent, AllocationFailed;
    }
    var gets, output := FetchAll(servers, name, x, pairs, chunkSize, deliveries, junk);
    sent := sent + gets;
    result := Downloaded(output);
  }

  /** Every connected server delivers, in full, the two chunks of file that
      its row of the placement names. */
  predicate DeliversChunks(file: seq<byte>, servers: seq<Server>, x: nat, deliveries: seq<(Net.Delivery, Net.Delivery)>)
    requires PlacementDefined(servers) && |deliveries| == |servers|
  {
    forall i :: 0 <= i < |servers| && servers[i].connected ==>
      deliveries[i] == (Net.Exact(Chunk(file, PairAt(x, i).first)), Net.Exact(Chunk(file, PairAt(x, i).second)))
  }

  /** One of the first n servers is connected and holds chunk c. */
  function HeldBy(servers: seq<Server>, x: nat, n: nat, c: ChunkIndex): bool
    requires PlacementDefined(servers) && n <= |servers|
  {
    n > 0 && (HeldBy(servers, x, n - 1, c) || (servers[n - 1].connected && PairAt(x, n - 1).Holds(c)))
  }

  lemma {:induction false} HeldByCovered(servers: seq<Server>, x: nat, n: nat, c: ChunkIndex)
    requires PlacementDefined(servers) && n <= |servers|
    ensures HeldBy(servers, x, n, c) <==> exists i :: 0 <= i < n && servers[i].connected && PairAt(x, i).Holds(c)
  {
    if n > 0 {
      HeldByCovered(servers, x, n - 1, c);
      if servers[n - 1].connected && PairAt(x, n - 1).Holds(c) {
        assert 0 <= n - 1 < n && servers[n - 1].connected && PairAt(x, n - 1).Holds(c);
      }
    }
  }

  /** Under full deliveries a chunk buffer holds the chunk once some server
      holding it has been visited, and its initial contents before. */
  lemma {:induction false} FetchedExact(file: seq<byte>, init: seq<byte>, servers: seq<Server>, x: nat,
                                        deliveries: seq<(Net.Delivery, Net.Delivery)>, n: nat, c: ChunkIndex)
    requires PlacementDefined(servers) && n <= |servers| == |deliveries|
    requires |init| == ChunkSize(|file|) && DeliversChunks(file, servers, x, deliveries)
    ensures Fetched(init, servers, x, deliveries, n, c) == if HeldBy(servers, x, n, c) then Chunk(file, c) else init
  {
    if n > 0 {
      FetchedExact(file, init, servers, x, deliveries, n - 1, c);
      if servers[n - 1].connected {
        var p := PairAt(x, n - 1);
        var before := Fetched(init, servers, x, deliveries, n - 1, c);
        var d := deliveries[n - 1];
        assert d.0 == Net.Exact(Chunk(file, p.first)) && d.1 == Net.Exact(Chunk(file, p.second));
        if p.first == c {
          Net.FillExact(before, Chunk(file, c));
        } else if p.second == c {
          Net.FillExact(before, Chunk(file, c));
        }
      }
    }
  }

  /** Reassembly: when every chunk is held by a connected server and every
      connected server delivers its chunks in full, the file get_file
      writes is the original file followed by the zero padding of the
      last chunk, whatever the buffers held before. */
  lemma DownloadIsPaddedFile(file: seq<byte>, junk: (nat, nat) -> byte, servers: seq<Server>, x: nat,
                             deliveries: seq<(Net.Delivery, Net.Delivery)>)
    requires PlacementDefined(servers) && |deliveries| == |servers|
    requires DeliversChunks(file, servers, x, deliveries)
    requires forall c: ChunkIndex :: Covered(servers, x, c)
    ensures Reassembled(junk, ChunkSize(|file|), servers, x, deliveries) == file + Zeros(4 * ChunkSize(|file|) - |file|)
  {
    var size := ChunkSize(|file|);
    forall c: ChunkIndex
      ensures Fetched(Uninitialised(junk, c, size), servers, x, deliveries, |servers|, c) == Chunk(file, c)
    {
      FetchedExact(file, Uninitialised(junk, c, size), servers, x, deliveries, |servers|, c);
      HeldByCovered(servers, x, |servers|, c);
      assert Covered(servers, x, c);
    }
    ChunksReassemble(file);
  }

  /** After an upload that reached a quorum, a download whose servers
      deliver what they were sent reproduces the padded file. */
  lemma DownloadAfterQuorum(file: seq<byte>, junk: (nat, nat) -> byte, servers: seq<Server>, x: nat,
                            deliveries: seq<(Net.Delivery, Net.Delivery)>)
    requires PlacementDefined(servers) && |deliveries| == |servers|
    requires LiveCount(servers, |servers|) >= Quorum
    requires DeliversChunks(file, servers, x, deliveries)
    ensures Reassembled(junk, ChunkSize(|file|), servers, x, deliveries) == file + Zeros(4 * ChunkSize(|file|) - |file|)
  {
    forall c: ChunkIndex
      ensures Covered(servers, x, c)
    {
      QuorumCoversEveryChunk(servers, x, c);
    }
    DownloadIsPaddedFile(file, junk, servers, x, deliveries);
  }
}
