# Distributed file store and caching proxy, modelled in Dafny

This project models the three programs of a small networking portfolio.

- **The client `dfc.c`.**
  - It reads a roster of storage servers from its configuration.
  - It splits a file into four chunks of `ceil(size / 4)` bytes, zero-padded.
  - It uploads each chunk to two servers. The rows of the pair table `{0,1},{1,2},{2,3},{3,0}` are rotated `hash % count` times, and server `i` gets row `i`. The model takes the roster to be non-empty with no connected server past index 3 (see "## Left out").
  - It refuses to upload with fewer than three connected servers.
  - A file counts as complete when the servers that answer `EXISTS` to `CHECK` together hold all four chunks.
  - It downloads a file by asking the first server that answers for the chunk size and then fetching each server's pair.
  - It lists files by merging every server's `LIST` reply into a duplicate-free table of at most 100 names.
- **The storage node `dfs.c`.** It dispatches each received command to `handle_put`, `handle_get`, `handle_list`, `handle_check` or `handle_size`. These act on a directory of chunk files named `name.n`.
- **The proxy `proxy.c`.**
  - It splits the request line and the URL into method, host, port and path.
  - It serves only `GET`.
  - It answers from a disk cache whose files are fresh for a timeout. Files are keyed by the lowercase hex MD5 of the URL.
  - It relays everything else from the origin server, accumulating a cacheable response in a buffer that doubles as needed.

The modules follow the programs:

- **`Strings`:** the C string routines the programs use (`strncmp` prefixes, `sscanf` `%s`/`%d`, `atoi`, `%d` printing, `strtok` on newlines).
- **`Placement`:** the rotated pair table, written once. The client uses it for put, check and get alike.
- **`Net`:** the "recv until `remaining` is 0" loop, over a peer stream cut into recv-sized pieces.
- **`Client`:** `read_config` and `put_file`.
- **`Download`:** `check_file_completeness` and `get_file`.
- **`NameTable`:** the bounded name table shared by both list loops.
- **`Listing`:** `list_files`.
- **`Node`:** `dfs.c`.
  - `ChunkStore` is a class holding the directory.
  - Its methods are the handlers.
  - Each method is proved against a function over a `Directory` value.
- **`Protocol`:** the client and the node against each other. Each command the client writes reaches the intended handler with the same arguments, and each answer reads back as the client expects.
- **`Proxy`:** `proxy.c`.

What the peer sends, the MD5 hash, the clock and uninitialised memory are all parameters. The client's sends are returned as a trace of `Sent` messages.

Every operation does what the C code does as written, including three defects listed under Findings:

- `put_file` accepts an acknowledgment only when it starts with "OK", but a node answers "ok".
- `handle_check` and `handle_size` split a chunk file's name at its first dot, while `handle_list` splits it at its last dot.
- `get_file` takes the size from the first "SIZE " reply, even "SIZE 0".

For each defect, a corrected definition is kept beside the as-written one, with the intended property proved about it. The operations themselves use the as-written definitions.

`get_file` writes all four chunks in full. A download is therefore the original file followed by up to three zero bytes (`Download.DownloadIsPaddedFile`).

## Model

| member | source | states |
|---|---|---|
| Placement.RotatePairs | dfc.c:263-280 | the in-place rotation loop leaves row `i` of the table equal to `PairAt(x, i)`, the row of the canonical table after `x` left rotations |
| Placement.RotateOnce | dfc.c:268-280 | one rotation moves rows 1, 2 and 3 up by one and row 0 to the bottom |
| Placement.PairAtClosed | dfc.c:263-280 | after `x` rotations, row `k` is canonical row `(k + x) mod 4` |
| Placement.RotationIsPeriodic | dfc.c:268-280 | four rotations give the table back, so only `x mod 4` matters |
| Placement.Rotation | dfc.c:243 | the rotation count `hash % count` is below the server count |
| Placement.Holders | dfc.c:263-265 | every chunk lies in two different rows of the rotated table |
| Placement.EachChunkInExactlyTwoRows | dfc.c:263-280 | chunk `c` is in row `k` exactly when `k` is one of its two holders |
| Placement.RowsHoldDistinctChunks | dfc.c:263-265 | each row holds two different chunks, the second following the first mod 4 |
| Placement.ThreePositionsCoverAllChunks | dfc.c:263-280 | any three different rows together hold all four chunks |
| Placement.TwoPositionsCanMissAChunk | dfc.c:254 | for every rotation, some two rows miss some chunk |
| Net.RecvInto | dfs.c:226-236 | the recv loop leaves the buffer as `Fill` of its old contents with the delivered bytes and counts `Received` bytes |
| Net.FullDelivery | dfs.c:229-236 | when every recv returns at least one byte, the loop receives `min(wanted, available)` bytes |
| Net.FillExact | dfs.c:226-236 | a peer that sends exactly the buffer's size fills the buffer with those bytes |
| Client.ParseServerLine | dfc.c:107-125 | an accepted line has the two words after "server" and a blank-free host name; its ip has no ':' and the server starts unconnected |
| Client.ServerFields | dfc.c:106-112 | the `sscanf` of "server %s %s": a line that gives both words starts with "server", and the name is blank-free |
| Client.FromFields | dfc.c:116-123 | the address names a server exactly when it has a colon; that server has the scanned name, an ip without ':' and starts unconnected |
| Client.AddressSplits | dfc.c:117-121 | "ip:port" splits at its first colon into the ip and, through atoi, the port |
| Client.ServerLineRoundTrip | dfc.c:107-125 | the line "server name ip:port" reads back as that server, unconnected |
| Client.FieldsOfServerLine | dfc.c:112 | the line "server name address" gives back its two words |
| Client.KeptGrows | dfc.c:107-127 | later lines never shrink the roster |
| Client.ConfiguredUnconnected | dfc.c:121-122 | every server read from the file starts out unconnected |
| Client.ServerList.Add | dfc.c:113-123 | stores the server in `servers[count]` and counts it: the roster grows by that server, and every later slot is untouched |
| Client.ServerList.Name | dfc.c:113-114 | copies the scanned name into `servers[count]`, the slot after the roster; nothing else in the array changes |
| Client.ServerList.ReadFields | dfc.c:113-124 | the name goes into `servers[count]`; if the address has a colon, that slot becomes the named server and is counted, otherwise only its hostname changes and the roster stays as it was |
| Client.ServerList.ReadLine | dfc.c:107-127 | a line without the two words changes nothing; a line with them needs a free slot, writes its name to `servers[count]`, and appends its server to the roster when the address has a colon; later slots are untouched |
| Client.ServerList.ReadNext | dfc.c:107-127 | one turn of the loop appends the server of line `k`, if any, after those of the lines before it |
| Client.ServerList.ReadLines | dfc.c:107-127 | the loop over the lines appends, in file order, the server each line that parses names |
| Client.FitsAt | dfc.c:112-113 | when every line with the two words comes while the roster has room, line `k` finds `servers[count]` inside the array |
| Client.ServerList.ReadConfig | dfc.c:95-129 | given that every line with the two words comes while the roster has room, the roster becomes the old roster followed by the servers of the parsed lines, in order |
| Client.ChunkSize | dfc.c:209 | the chunk size is the least `cs` with `4 * cs >= size` |
| Client.ChunksReassemble | dfc.c:209-237 | the four chunks, concatenated, are the file followed by fewer than four zero bytes |
| Client.ChunkByte | dfc.c:223-228 | byte `t` of chunk `c` is byte `c * cs + t` of the file, or 0 past its end |
| Client.SplitFile | dfc.c:209-237 | the malloc, memset and fread loops produce exactly the chunk size and the chunks above |
| Client.CountConnected | dfc.c:247-252 | counts the connected servers |
| Client.SendChunks | dfc.c:283-320 | the send loop's trace is `PutPlan`; its per-server reports are `PutReports`, which accept an acknowledgment only when it starts with "OK" |
| Client.PutFile | dfc.c:195-328 | the upload fails exactly when fewer than 3 servers are connected; otherwise it sends the plan for rotation `hash % count` and reports each acknowledgment as the test as written judges it |
| Client.NodeAcksReportedFailed | dfc.c:307-318 | when every node answers "ok", there is one report per connected server and each reports a failed upload |
| Client.ServerPutGoesTo | dfc.c:288-304 | each server's upload is five messages, all to that server |
| Client.PutPlanPerServer | dfc.c:283-320 | a connected server `i` receives exactly PUT, then CHUNK and data for each chunk of row `i`; other servers receive nothing |
| Client.QuorumCoversEveryChunk | dfc.c:254-280 | with at least 3 connected servers, every chunk is sent to some connected server |
| Client.TwoServersMayMissAChunk | dfc.c:254 | with only 2 connected servers a chunk can reach no server, which is why 3 are required |
| Download.Broadcast | dfc.c:360-365 | one command per connected server |
| Download.MarkedByWitness | dfc.c:359-378 | chunk `c` is marked present exactly when a connected server whose row holds `c` answered "EXISTS" |
| Download.CheckFileCompleteness | dfc.c:331-388 | sends CHECK to every connected server and answers complete exactly when all four chunks are marked |
| Download.Answering | dfc.c:369-375 | the servers whose reply starts with "EXISTS" |
| Download.CompleteIsCoverage | dfc.c:380-387 | complete exactly when the confirming servers cover every chunk |
| Download.ThreeConfirmationsSuffice | dfc.c:359-387 | three confirming servers make a file complete |
| Download.UnconnectedRepliesIgnored | dfc.c:360-361 | replies attributed to unconnected servers change nothing |
| Download.SizesOf | dfc.c:432-435 | each SIZE reply read through atol, or nothing when it is not a SIZE reply |
| Download.SizeLoopAsWrittenStopsAtZero | dfc.c:434-437 | as written, the size loop stops at the first "SIZE 0" reply although a later server names 5 |
| Download.SizeFromZeroIff | dfc.c:421-445 | the corrected size loop finds a non-zero size exactly when some connected server names one |
| Download.SizeFromIsFirstNamed | dfc.c:421-440 | the corrected loop stops at the first connected server that names a non-zero size, and takes that size |
| Download.SizeFromAsWrittenIsFirstReply | dfc.c:421-437 | the loop stops at the first connected server whose reply starts with "SIZE " and takes its size, zero or not; no server before it sent one; with none, the size is 0 and every server was asked |
| Download.SelectChunkSize | dfc.c:421-437 | sends SIZE to the connected servers up to the first "SIZE " reply and returns that reply's size, as `SizeFromAsWritten` selects |
| Download.FetchChunks | dfc.c:461-500 | each server's two GET requests and recv loops leave each chunk buffer as `Fetched` describes |
| Download.FetchRow | dfc.c:466-499 | one server's turn sends GET for the two chunks of its row and leaves each chunk buffer as `RowFilled` describes |
| Download.WriteOut | dfc.c:512-514 | the output is the four buffers written in chunk order |
| Download.FetchAll | dfc.c:447-514 | allocation, fetching and writing give `Reassembled` |
| Download.GetFile | dfc.c:391-524 | incomplete files are refused after CHECK; otherwise the size of the first "SIZE " reply decides: 0 is reported as unknown, a negative one fails to allocate, and any other size downloads `Reassembled`, each with its trace of commands |
| Download.HeldByCovered | dfc.c:461-500 | a chunk is fetched by the loop exactly when a connected server's row holds it |
| Download.FetchedExact | dfc.c:466-499 | when servers send their chunks whole, a fetched buffer holds the chunk and an unfetched one keeps its old bytes |
| Download.DownloadIsPaddedFile | dfc.c:391-524 | when every chunk is held by a connected server that sends it whole, the download is the file followed by its zero padding |
| Download.DownloadAfterQuorum | dfc.c:391-524 | the same holds whenever at least 3 servers are connected, as put_file requires |
| NameTable.Truncate | dfc.c:560-561 | a stored name keeps at most 255 characters, is a prefix of the line, and is the line itself when it is short enough |
| NameTable.AdmitDistinct | dfc.c:550-563 | admitting a short name into a table without duplicates leaves none |
| NameTable.Find | dfc.c:551-557 | the search loop finds the name exactly when it is among the first `count` entries |
| Listing.MergeReply | dfc.c:548-566 | the strtok loop over one reply leaves the table as `MergeLines` of the old table and the reply's lines |
| Listing.CollectNames | dfc.c:533-568 | sends LIST to each connected server and merges each non-empty reply, giving `Listed` |
| Listing.CheckNames | dfc.c:571-577 | each listed name is reported complete exactly when its CHECK replies make it complete |
| Listing.ListFiles | dfc.c:527-582 | the LIST broadcast and merge, then one CHECK broadcast per kept name, in order; an empty roster sends nothing and lists nothing |
| Listing.MergeLinesExtends | dfc.c:559-563 | merging only appends to the table |
| Listing.MergeLinesDistinct | dfc.c:550-563 | merging short lines keeps the table duplicate-free |
| Listing.MergeLinesProvenance | dfc.c:548-566 | every added name is a line of the reply, truncated |
| Listing.MergeLinesComplete | dfc.c:548-566 | while the table has room, every short line ends up in it |
| Listing.ListedDistinct | dfc.c:527-568 | when no line needs truncating, list_files lists no name twice |
| Listing.ListedProvenance | dfc.c:533-568 | every listed name is a truncated line of a connected server's reply |
| Listing.ListedComplete | dfc.c:533-568 | below 100 names, every short line of every connected server's reply is listed |
| Node.ChunkKey | dfs.c:209 | a chunk file's name is the file name, a dot and the number |
| Node.LastDot | dfs.c:351 | strrchr: the position of the last '.', or none when there is none |
| Node.Base | dfs.c:351-354 | the name before the last dot, when that dot is not the first character |
| Node.LastDotOfKey | dfs.c:351 | the last dot of `name.n` is the one before the number |
| Node.BaseOfChunkKey | dfs.c:351-354 | handle_list lists `name.n` as `name`, whatever dots `name` holds |
| Node.SplitKeyAsWrittenOfChunkKey | dfs.c:403-404 | for a name without a dot, the first-dot split of `name.n` gives back the name and `n`, so that file matches |
| Node.DottedNameNeverMatches | dfs.c:403-404 | as written, no file matches a name that contains a dot |
| Node.DottedNameNeverFound | dfs.c:398-455 | so, as written, CHECK of a dotted name finds nothing and SIZE answers 0, whatever the directory holds |
| Node.CheckAsWrittenMissesATxt | dfs.c:403-404 | as written, CHECK a.txt answers NOT_FOUND when a.txt.1 is stored; the corrected test finds it |
| Node.CheckAsWrittenMissesChunk | dfs.c:398-410 | the same for every dotted name and chunk number |
| Node.OneEntry | dfs.c:398-410 | for a single directory entry, each search succeeds exactly when that entry matches, under the corrected and the as-written split alike |
| Node.SplitKeyOfChunkKey | dfs.c:403-404 | the corrected split gives back the name and the number of `name.n` |
| Node.Written | dfs.c:209-239 | writing a file sets its bytes, appends a new name to the directory order and keeps an existing one in place |
| Node.ParseRequest | dfs.c:156-185 | each dispatched request carries a blank-free file name |
| Node.RequestRouting | dfs.c:157-185 | a buffer goes to a handler exactly when it starts with that handler's prefix and its `sscanf` succeeds, with the arguments `sscanf` read; a buffer with none of the five prefixes is ignored |
| Node.IgnoredIsSilent | dfs.c:146-185 | an ignored buffer leaves the directory unchanged and gets no reply |
| Node.ChunkNumberOfHeader | dfs.c:203 | "CHUNK n" reads back as `n` |
| Node.PutChunkWhole | dfs.c:194-240 | a chunk with a good header and a whole body is written under `name.n` |
| Node.PutChunksWhole | dfs.c:193-288 | two whole chunks are both written and answered "ok" |
| Node.PutThenGet | dfs.c:193-330 | after a PUT, GET of either chunk number answers its bytes |
| Node.ChunkKeysDiffer | dfs.c:209 | different chunk numbers give different file names |
| Node.StoredChunkIsFoundAsWritten | dfs.c:398-410 | after chunk `n` of a file without a dot is written, CHECK finds the file |
| Node.StoredChunkIsFound | dfs.c:386-410 | with the corrected split, after chunk `n` of any file is written, the file is found |
| Node.SizeIsFirstMatch | dfs.c:437-455 | SIZE answers the length of the first file, in directory order, whose name split at its first dot gives the requested name and that `stat` finds |
| Node.SizeOfMissingFile | dfs.c:428-462 | SIZE answers 0 when no file's name split at its first dot gives the requested name |
| Node.SizeAfterFirstStore | dfs.c:425-463 | for a name without a dot, the first chunk stored for a file is the one SIZE measures |
| Node.ListedNameIsBase | dfs.c:348-377 | every listed name is the base of some directory entry |
| Node.ListedNamesDistinct | dfs.c:356-369 | LIST names no file twice |
| Node.ListedNamesComplete | dfs.c:348-377 | below 100 names, every base is listed |
| Node.ListResponseIsJoin | dfs.c:370-373 | while it fits the buffer, the response is the listed names, each followed by a newline |
| Node.ListReadsBack | dfs.c:370-382 | the client's newline split of the response gives back the listed names |
| Node.ChunkStore.Store | dfs.c:212-239 | the directory after fopen/fwrite is `Written` of the old one |
| Node.ChunkStore.ReceiveChunk | dfs.c:194-240 | receiving one chunk changes the directory and decides whether to go on, as `PutChunk` does |
| Node.ChunkStore.HandlePut | dfs.c:193-288 | handle_put changes the directory and replies as `PutChunks` does |
| Node.ChunkStore.HandleGet | dfs.c:291-330 | handle_get answers the chunk's bytes or "error file not found" |
| Node.ChunkStore.HandleList | dfs.c:333-383 | the readdir loop with its seen-table answers `ListState`'s response |
| Node.ChunkStore.HandleCheck | dfs.c:386-422 | answers "EXISTS" exactly when some entry's name, split at its first dot, gives the requested name and a number |
| Node.ChunkStore.HandleSize | dfs.c:425-463 | answers "SIZE " and the length of the first entry whose name split at its first dot gives the requested name, or 0 |
| Node.ChunkStore.HandleRequest | dfs.c:146-185 | one turn of the dispatch loop is `Step`, whose CHECK and SIZE use the first-dot split as written |
| Node.ChunkStore.HandleClient | dfs.c:137-190 | a whole connection is `Session` over its commands, with CHECK and SIZE using the first-dot split as written |
| Protocol.PutCommandDispatch | dfs.c:157-163 | the client's "PUT name size" reaches handle_put with that name and size |
| Protocol.GetCommandDispatch | dfs.c:164-170 | "GET name n" reaches handle_get for chunk number `c + 1` |
| Protocol.ListCommandDispatch | dfs.c:171-172 | "LIST" reaches handle_list |
| Protocol.CheckCommandDispatch | dfs.c:173-178 | "CHECK name" reaches handle_check |
| Protocol.SizeCommandDispatch | dfs.c:179-184 | "SIZE name" reaches handle_size |
| Protocol.ChunkHeaderReadsBack | dfs.c:203 | the client's chunk header reads back as the 1-based chunk number |
| Protocol.SizeAnswerReadsBack | dfc.c:434-435 | the node's SIZE answer reads back through atol as the size |
| Protocol.CheckAnswerConfirms | dfc.c:372 | the node's CHECK answer confirms exactly when the file was found |
| Protocol.NodeStoresUpload | dfc.c:306-319 | a node receiving put_file's messages stores both chunks and answers "ok", which put_file as written rejects and the corrected test accepts |
| Protocol.PairServed | dfs.c:291-330 | a directory holding both chunks of a pair answers GET of either with that chunk's bytes |
| Protocol.NodeServesUploadedChunks | dfs.c:291-330 | after the upload, GET of either uploaded chunk answers its bytes |
| Protocol.GetStep | dfs.c:164-170 | a GET turn leaves the directory unchanged and answers what handle_get answers |
| Proxy.NextToken | proxy.c:109 | strtok's next token lies inside the request, past the starting position |
| Proxy.NextTokenIsStrtok | proxy.c:109 | strtok skips the leading blanks, the token is the whole blank-free run after them, and there is none iff only blanks are left |
| Proxy.ParseRequest | proxy.c:105-165 | method and URL are the first two blank-separated tokens, and host, port and path are `UrlTarget` of the URL |
| Proxy.ReadWords | proxy.c:108-118 | the two strtok calls give `RequestWords` of the request |
| Proxy.ReadUrl | proxy.c:120-151 | the scheme strip and strpbrk split give `UrlTarget` of the URL |
| Proxy.AfterStrtokShape | proxy.c:109 | after the first strtok, the request reads as blanks followed by one blank-free token |
| Proxy.HeaderFallbackIsDead | proxy.c:153-164 | the "host: " fallback never changes host or port, because strstr only sees the method token |
| Proxy.RequestWordsOfLine | proxy.c:108-118 | "verb url ..." gives back verb and url |
| Proxy.UrlTargetOfUrl | proxy.c:120-151 | "http://host[:port]path" reads back as host, port (80 by default) and path ("/" by default) |
| Proxy.SplitHostPort | proxy.c:131-147 | "host:port/path" splits into its three parts |
| Proxy.SplitHostPath | proxy.c:131-151 | "host/path" splits into host, port 80 and path |
| Proxy.PortAndPathOf | proxy.c:140-147 | ":port/path" reads back as the port and the path |
| Proxy.UrlTargetShape | proxy.c:120-151 | for every URL: the host is a leading piece without ':' or '/'; the port is 80 unless a ':' ends the host; the path is "/" or a suffix of the URL starting with '/' |
| Proxy.SplitHostShape | proxy.c:131-151 | the same, for the URL after its scheme |
| Proxy.HostOfSplit | proxy.c:131-138 | the host is a leading piece of the URL after its scheme, without ':' or '/' |
| Proxy.PortOfSplit | proxy.c:140-141 | the port differs from 80 only when a ':' ends the host |
| Proxy.PathOfSplit | proxy.c:131-151 | the path starts with '/' and is "/" or a suffix of the URL after its scheme |
| Proxy.PathOfUrl | proxy.c:124-151 | the path starts with '/' and is "/" or a suffix of the whole URL |
| Proxy.PathOfTail | proxy.c:142-147 | the path after a port is "/" or the suffix from the first '/' |
| Proxy.FindFrom | proxy.c:155 | strstr: the result is the first occurrence at or after the start, and there is none exactly when the pattern occurs nowhere from there |
| Proxy.NoHeaderIn | proxy.c:109-155 | after the first strtok, "host: " occurs nowhere in what strstr searches |
| Proxy.Strchr | proxy.c:171 | strchr: the first occurrence of the character, or none when it does not occur |
| Proxy.DynamicIffQuery | proxy.c:170-172 | a URL is dynamic exactly when it contains '?' |
| Proxy.HashKey | proxy.c:47-59 | the sprintf loop writes the hex rendering of the digest |
| Proxy.KeyLength | proxy.c:49-56 | an MD5 digest gives a 32-character key |
| Proxy.HexIsLowercase | proxy.c:54-56 | every key character is a lowercase hex digit |
| Proxy.HexByteOrder | proxy.c:54-56 | digest byte `i` appears at characters `2i` and `2i+1`, high digit first |
| Proxy.UnhexHex | proxy.c:54-56 | the key reads back as the digest, so different digests give different keys |
| Proxy.CacheResponse | proxy.c:81-97 | writing a response sets that key's file to the body and write time and leaves other files alone |
| Proxy.FreshUntilTimeout | proxy.c:62-78 | a file written at `t` is a hit exactly while `now < t + timeout`, so an entry exactly `timeout` seconds old misses |
| Proxy.FreshEarlier | proxy.c:73 | an entry fresh now was fresh at every earlier time |
| Proxy.NoTimeoutNoHits | proxy.c:73 | with a timeout of 0 or less a file is no hit from the time it was written on |
| Proxy.GrownBounds | proxy.c:290-292 | growth makes room for the new bytes, at most doubles what is held, and happens only when they do not fit |
| Proxy.FullResponse.constructor | proxy.c:275-277 | the buffer starts empty with capacity 0 (the NULL pointer) |
| Proxy.FullResponse.Append | proxy.c:289-301 | after realloc and memcpy the buffer holds the old bytes followed by the new ones, and the capacity stays between the bytes held and twice them |
| Proxy.StreamStopsAtEnd | proxy.c:279-284 | the bytes read are those before the first empty read, and nothing after it is read |
| Proxy.Relay | proxy.c:279-309 | the client receives the whole stream, and the bytes passed to the cache are exactly those when the URL is cacheable and the stream is non-empty |
| Proxy.HandleClient | proxy.c:175-318 | a connection's outcome and the new cache are those of `Handle` |
| Proxy.OnlyGetServed | proxy.c:195-202 | a request is rejected exactly when its method is not "GET", and a rejection changes no cache file |
| Proxy.DynamicBypassesCache | proxy.c:208-241 | a URL with '?' is never served from or stored to the cache |
| Proxy.FreshHitServed | proxy.c:212-240 | a static URL with a fresh cache file is served from that file |
| Proxy.MissStoresWhatWasForwarded | proxy.c:279-309 | on a miss, the cache file afterwards holds exactly what the client received |
| Proxy.RepeatIsServedFromCache | proxy.c:212-309 | repeating the request before the timeout is served from the cache with the same bytes |
| Proxy.UpstreamRequestReadsBack | proxy.c:268-270 | the request sent upstream reads back as "GET" and the path |

## Left out

- Sockets, connection setup, the accept loops, threads and signal handlers are I/O or concurrency. What a peer sends is a parameter, and what a program sends is a returned value or trace.
- MD5 is a foreign call. The client's `get_file_hash` is the parameter `hashOf`, and the proxy's digest is the parameter `md5`.
- `time(NULL)` is the parameters `now` and `writtenAt`.
- `gethostbyname` and `connect` are left out. A failed lookup or connection, and the NULL dereference after a failed `gethostbyname`, are not modelled.
- Client.PutFile, Download.CheckFileCompleteness, Download.GetFile: require a non-empty roster with no connected server at index 4 or above (`Client.PlacementDefined`). Otherwise the source divides by zero in `hash % count` (dfc.c:243) or reads `chunk_pairs` past its four rows (dfc.c:295). Neither is modelled.
- Listing.CheckNames, Listing.ListFiles: require `PlacementDefined` only when there is a name to check. An empty roster is accepted: `list_files` then sends nothing, lists nothing and computes no `hash % count` (dfc.c:533, 579-580). A non-empty roster with a connected server at index 4 or above is excluded, for the `chunk_pairs` reason above.
- Failures of `fopen`, `opendir`, `stat`, `malloc` and `realloc` are left out, and so is the error return of `put_file` after a short `fread` (dfc.c:229-236). The exception is a negative chunk size, which is modelled as a failed allocation in `get_file` and as an empty chunk file in `handle_put`.
- Proxy.FullResponse.Append: does not model a NULL return from `realloc`, after which `handleClient` stops caching.
- Fixed-size C buffers are unbounded here. The `%s` and `strcpy` overflows are not modelled, e.g. a method longer than 9 characters or a name longer than 255 characters passed to `handle_put`.
- Every reply read into `buffer[BUFFER_SIZE]` is followed by `buffer[received] = '\0'`: in `put_file` (dfc.c:310), `check_file_completeness` (dfc.c:371), `get_file` (dfc.c:433) and `list_files` (dfc.c:546). That write is one past the buffer when recv returns 4096 bytes. It is not modelled.
- Messages are taken to arrive one per recv, exactly as sent. TCP may merge or split them; the model does not cover that.
- The directory's `readdir` order is modelled as file creation order. Non-regular files are not modelled.
- Integer widths are unbounded. The wrap of `long`/`int` in `atoi`/`atol`, and `(size_t)` of a negative chunk size, are not modelled beyond the failed-allocation case above.
- Client.ServerList.ReadConfig: requires every line with the two words to come while the roster has a free slot. The source writes `servers[count]` without checking `MAX_SERVERS`, so such a line with ten servers listed writes past the array. That write is not modelled.
- Node.SizeAfterFirstStore: holds only for names without a dot. As written, a name with a dot is never found (`Node.DottedNameNeverFound`).
- Node.StoredChunkIsFoundAsWritten: holds only for names without a dot, for the same reason.
- Node.StoredChunkIsFound: states the corrected split, not the code as written. For the code as written, see `Node.StoredChunkIsFoundAsWritten` and `Node.DottedNameNeverFound`.
- Proxy.ParseRequest: tokens missing from the request come back empty. In C they leave the caller's uninitialised buffers unchanged.
- The proxy's cache lookup treats a fresh file as readable, so a failing `fopen` on a hit is not modelled.
- The cache directory is a map from key to write time and body, not the files under `./cache`.
- `main` of each program and the `uftp_*` programs are not part of this model.

## Findings

| source | as written | input that shows it | evidently intended | confidence | as-written member | corrected member |
|---|---|---|---|---|---|---|
| dfc.c:311 | put_file counts an upload as successful only when the reply starts with "OK" | a node receiving the upload answers "ok" (dfs.c:286) | accept the node's "ok" | high; not executed | Client.AckAcceptedAsWritten (shown by Client.NodeAcksReportedFailed and Protocol.NodeStoresUpload) | Client.AckAccepted (proved by Protocol.NodeStoresUpload) |
| dfs.c:403 | handle_check and handle_size split a file name at its first dot with `%[^.].%d` | `CHECK a.txt` with `a.txt.1` stored answers NOT_FOUND | split at the last dot, as handle_list does (dfs.c:351) | high; not executed | Node.SplitKeyAsWritten (shown by Node.CheckAsWrittenMissesATxt and Node.DottedNameNeverFound) | Node.SplitKey (proved by Node.SplitKeyOfChunkKey and Node.StoredChunkIsFound) |
| dfc.c:434-437 | get_file's size loop stops at the first SIZE reply, even "SIZE 0" from a server without the file | first server answers "SIZE 0", second "SIZE 5": chunk size 0, download refused | take the first non-zero size | medium; not executed | Download.SizeFromAsWritten (shown by Download.SizeLoopAsWrittenStopsAtZero) | Download.SizeFrom (proved by Download.SizeFromIsFirstNamed and Download.SizeFromZeroIff) |
