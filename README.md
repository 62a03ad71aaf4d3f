# kk-cardsync: the sync core, modelled in Dafny

kk-cardsync keeps two folders of Koikatsu files in step with a server: a
folder of character cards and a folder of mods. The client is
`BH_CardSync.py`; the server is `burninghellascardupdaterSRV.py`. They talk
over one TCP connection with this protocol:

- The client sends a JSON request with no length prefix.
- The server answers `list_files` with a JSON index and no length prefix.
  The client finds the end of that index with a byte-at-a-time brace
  scanner.
- The server answers `get_file` with a size line (`str(size)` and a
  newline) followed by the raw content. A size of `0` means "not found".
- The client's `upload_file` request is followed by the raw content. The
  server reads it with `recv(4096)` until the declared size is reached.

On the client, the sync logic is:

1. Hash both folder listings.
2. Tag every file name: `local_only`, `server_only`, `local_newer`,
   `server_newer`, or no tag.
3. Download the files tagged server-only or server-newer.
4. Upload the files tagged local-only or local-newer.

This project models that core:

- the client's two readers, `_recv_line` and `_recv_json_message`;
- the size-line framing;
- the classifier, `highlight_files_sync_status`;
- the smart-sync list derivation;
- the download and upload loops;
- the server's `send_file`, `receive_file`, `list_files` and the per-request
  dispatch of `handle_client`.

The model has these modules:

| module | file | what it holds |
|---|---|---|
| `Text` | `text.dfy` | bytes; `strip` (both the `bytes` and the `str` version); ASCII decoding; `int(str)` and `str(int)` |
| `Transport` | `transport.dfy` | the connection: incoming segments, `recv(n)`, and the `sendall` log; see below |
| `Framing` | `framing.dfy` | `_recv_line`, the size line, and the JSON delimiter scanner |
| `Json` | `json.dfy` | decoded JSON values; Python's `bool`, `dict.get`, `int` and `float` on them |
| `Index` | `index.dfy` | folders as maps from names to entries; `list_files` and `_get_local_file_data` |
| `Classifier` | `classifier.dfy` | the per-name tag decision; the two tree views whose tags it rewrites |
| `SmartSync` | `smartsync.dfy` | the download and upload lists; the order of the phases |
| `Download` | `download.dfy` | `download_thread` as loops over a connection, with a pure batch function it is proved against |
| `Upload` | `upload.dfy` | `upload_thread` likewise, with the messages of a batch as the pure side |
| `Server` | `server.dfy` | `send_file`, `receive_file`, the dispatch decision, and `handle_client` as a loop proved against a pure `Serve` |
| `RoundTrip` | `roundtrip.dfy` | the two programs against each other |

The connection in `Transport` is modelled this way:

- Incoming data is a sequence of non-empty segments. A `recv(n)` returns at
  most `n` bytes of the first segment. An empty read means the peer closed.
- Outgoing data is the log of `sendall` calls.
- The peer accepts a given number of further sends, or any number. Once
  that allowance is used up, every later `sendall` raises.

The classes reflect what the source updates in place:

- The connection is a class.
- The server's two shared folders are a class (`Server.Storage`).
- Each tree view is a class whose tags the classifier rewrites (`Classifier.TreeView`).
- Every loop of the source is a `method` with a `while` loop. Its contract
  ties the new state to a pure function of the old state, and the
  properties are lemmas about that function.

Foreign calls are parameters rather than modelled code:

- MD5;
- `json.loads` and `json.dumps`;
- `float` of a string;
- the clock;
- the parse step of the scanner (three outcomes: it parses, it is malformed
  JSON, or it is not UTF-8).

## Model

| member | source | states |
|---|---|---|
| Text.Strip | BH_CardSync.py:110 | the stripped text is no longer than the input and neither starts nor ends with whitespace; it is empty exactly when the input is all whitespace |
| Text.StripRemovesOnlyEnds | BH_CardSync.py:110 | the stripped text is a slice of the input with only whitespace before and after it: `strip()` removes the whitespace at both ends and nothing else |
| Text.DecodeAscii | BH_CardSync.py:110 | decoding succeeds exactly when every byte is ASCII, and then keeps length and code points |
| Text.Decimal | burninghellascardupdaterSRV.py:35 | `str(n)` of a natural number is a non-empty run of ASCII digits with no leading zero |
| Text.DecimalRoundTrip | BH_CardSync.py:261 | `int(str(n)) == n` for every natural `n`, and the text decodes as ASCII |
| Text.NegativeRoundTrip | BH_CardSync.py:261 | `int` accepts a leading minus sign: `"-" + str(n)` reads back as `-n` |
| Text.IntOfText | BH_CardSync.py:261 | `int(str)`: surrounding whitespace, an optional sign, then ASCII digits with single underscores between them; nothing where `int` raises. DecimalRoundTrip and NegativeRoundTrip give its value on `str(n)` and `"-" + str(n)` |
| Transport.RecvFrom | burninghellascardupdaterSRV.py:84 | a `recv(n)` returns at most `n` bytes; it returns nothing exactly at the end of the stream; what it returns is the front of the stream and the rest stays pending |
| Transport.ChunksMeaning | burninghellascardupdaterSRV.py:39-43 | the pieces of successive `read(k)` calls are non-empty, at most `k` long, and concatenate to the file content |
| Transport.RecvOneIsFirstByte | BH_CardSync.py:108 | a `recv(1)` returns exactly the first pending byte whatever the segmentation, and consumes only it |
| Transport.Connection.Recv | burninghellascardupdaterSRV.py:84 | `recv(n)` returns what RecvFrom takes from the pending segments and leaves the rest pending |
| Transport.Connection.SendAll | burninghellascardupdaterSRV.py:35 | `sendall` appends the data to the log and uses one accepted send exactly when the peer still accepts; a refused send logs nothing |
| Framing.RecvLine | BH_CardSync.py:105-111 | returns the decoded, stripped text of the bytes before the first newline (all bytes when the stream ends first); consumes the newline and nothing after it |
| Framing.SizeLineRoundTrip | BH_CardSync.py:260-261 | reading a line from `str(n) + "\n" + rest` gives `str(n)`; `int` of it is `n`; exactly `rest` is left unread |
| Framing.NotFoundIsSizeZero | burninghellascardupdaterSRV.py:142 | the literal `0\n` is the size line of 0, so the client reads it as size 0 and leaves what follows unread |
| Framing.Scan | BH_CardSync.py:118-135 | the scanner reads at most the whole stream; if it reports the closed connection, it has read all of it; any other outcome reads at least one byte |
| Framing.Step | BH_CardSync.py:123-129 | one pass of the loop body once a byte is received; its rules are stated by StepRule |
| Framing.StepRule | BH_CardSync.py:123-129 | the byte is appended to the buffer; `in_string` flips exactly on a quote not preceded by a backslash (under the program's rule); the depth rises exactly on `{` and falls exactly on `}` outside a string, and moves by at most one |
| Framing.RecvByte | BH_CardSync.py:108 | `recv(1)` returns the first pending byte and consumes it, or nothing exactly when the stream has ended |
| Framing.RecvJsonMessage | BH_CardSync.py:113-135 | the loop returns `Scan`'s outcome and leaves exactly the bytes after those `Scan` reads |
| Framing.ScanByte | BH_CardSync.py:119-135 | one pass: at the end of the stream, or when a closing buffer parses or is not UTF-8, it ends with `Scan`'s outcome; otherwise it consumes one byte and the scan continues from the stepped state |
| Framing.RunBuffer | BH_CardSync.py:123 | each byte read is appended to the buffer, and nothing else is |
| Framing.ScanStopsAtFirstStop | BH_CardSync.py:131-135 | at the first prefix where the depth is 0, the stripped buffer opens an object and parsing does not report malformed JSON, the scanner returns that prefix (or the decode error) and reads no further |
| Framing.ScanClosedWithoutStop | BH_CardSync.py:119-121 | with no such prefix the scanner reads the whole stream and raises `ConnectionError`; malformed parses only make it read on |
| Framing.ScanPassesEarlierPrefixes | BH_CardSync.py:131-135 | conversely, no prefix shorter than what the scanner reads stops it |
| Framing.ScanEndsAtStop | BH_CardSync.py:131-133 | a scan that returns or raises does so at a prefix that stops it |
| Framing.ScanDocument | BH_CardSync.py:131-133 | a returned document is the buffer up to where the scanner stopped, and it parses |
| Framing.ScanFindsDocument | BH_CardSync.py:124-133 | a document whose last byte first closes it is returned whole, with what follows left unread |
| Framing.BracesInStringAreInert | BH_CardSync.py:124-129 | a brace and an escaped quote inside a key leave the depth alone; `{"\"}":1}` is returned whole |
| Framing.BraceInStringIsInert | BH_CardSync.py:126-129 | inside a string a closing brace leaves the depth unchanged and does not close the document |
| Framing.EscapedBackslashKeepsStringOpen | BH_CardSync.py:124 | under the single-preceding-byte rule the scanner never returns the valid document `{"\\":1}` on its own (see Findings) |
| Framing.OddRunFindsTrailingBackslash | BH_CardSync.py:124 | under the odd-backslash-run rule the scanner returns `{"\\":1}` exactly and leaves the rest unread |
| Json.Truncate | burninghellascardupdaterSRV.py:150 | `int` of a float truncates toward zero |
| Json.IntOfSize | burninghellascardupdaterSRV.py:150 | `int()` recovers a size `n` from the integer `n`, from its decimal text, from that text with a minus sign (giving `-n`), and from the float `n.0` |
| Index.Listed | burninghellascardupdaterSRV.py:122-131 | the index has a key exactly for each regular file whose information can be read, holding its size, hash and mtime |
| Index.InfoOf | burninghellascardupdaterSRV.py:20-28 | `get_file_info` of a readable regular file: its size, its MD5 digest and its mtime; an unreadable file has no record (Listed, ListedIgnoresOthers) |
| Index.ListFiles | burninghellascardupdaterSRV.py:122-131 | the server's loop over the directory builds exactly `Listed`, whatever the listing order |
| Index.LocalFileData | BH_CardSync.py:179-193 | a missing folder gives an empty index; otherwise every regular file that could be hashed gets a record, as on the server |
| Index.ListedIgnoresOthers | burninghellascardupdaterSRV.py:126-129 | adding a non-file or an unreadable file leaves the index unchanged |
| Index.ListedAfterWrite | burninghellascardupdaterSRV.py:123-129 | writing a readable file changes exactly its own record in the index |
| Classifier.Items | BH_CardSync.py:204-205 | the name-to-item map has exactly the names of the rows, and the final row of the tree gives its name's item |
| Classifier.ItemsLastRow | BH_CardSync.py:204-205 | every name's item holds the hash and mtime of the last row with that name, so the classifier compares the values shown in the trees |
| Classifier.Classify | BH_CardSync.py:218-229 | `local_only` iff only the local list has the name; `server_only` iff only the server list has it; no tag iff neither has it or both have equal hashes |
| Classifier.ClassifyMirror | BH_CardSync.py:219-229 | swapping the two lists swaps the tags except on an mtime tie |
| Classifier.TieGoesToServer | BH_CardSync.py:229 | differing hashes with equal mtimes give `server_newer` whichever list is called local |
| Classifier.NewerMeansLater | BH_CardSync.py:226-229 | with differing hashes: `local_newer` iff the local mtime is later, `server_newer` iff it is not |
| Classifier.HighlightSyncStatus | BH_CardSync.py:202-235 | each tree's tags become `Retag` of the old tags over the union of both lists: each name of the union that has a row here gets the classifier's tag, and every other row keeps its tags |
| Classifier.TagRows | BH_CardSync.py:213-235 | one pass of the loop for one tree processes exactly one more name |
| Classifier.Retag | BH_CardSync.py:209-235 | the tags of a tree after the names of `done` are processed: a processed name with a row here has exactly the classifier's tag, every other row keeps its tags; HighlightSyncStatus ends in it, and HighlightAgrees and HighlightIdempotent state its meaning |
| Classifier.HighlightAgrees | BH_CardSync.py:209-235 | after highlighting, a name on both sides has the same tags in both trees and at most one tag; a one-sided name is tagged as such; names outside the union keep their tags |
| Classifier.HighlightIdempotent | BH_CardSync.py:209-235 | highlighting twice gives the same tags as highlighting once |
| SmartSync.DownloadList | BH_CardSync.py:352 | the download list has no more entries than the server tree has rows |
| SmartSync.UploadList | BH_CardSync.py:353 | the upload list has no more names than the local tree has rows; UploadListExact says which names it holds |
| SmartSync.DownloadListExact | BH_CardSync.py:352 | the download list holds exactly the entries of the server rows tagged `server_newer` or `server_only`; it is empty iff no row is |
| SmartSync.UploadListExact | BH_CardSync.py:353 | the upload list holds exactly the names of the local rows tagged `local_newer` or `local_only`; it is empty iff no row is |
| SmartSync.DownloadListAppend | BH_CardSync.py:352 | the download list keeps tree order |
| SmartSync.UploadListAppend | BH_CardSync.py:353 | the upload list keeps tree order |
| SmartSync.TagAfterRetag | BH_CardSync.py:231-235 | after highlighting, a row of a name in the union carries exactly the classifier's tag |
| SmartSync.ListsDisjoint | BH_CardSync.py:352-353 | after both trees are highlighted, no name is in both the download and the upload list |
| SmartSync.Plan | BH_CardSync.py:355-374 | nothing runs iff both lists are empty; otherwise downloads come first, uploads follow, each only when its list is non-empty, and the refresh comes last |
| Download.FetchedMeaning | BH_CardSync.py:261-281 | once the size is read: a bad size, size 0 (absent), or exactly `size` bytes (none for a negative size), or fewer when the stream ends first |
| Download.FetchFileMeaning | BH_CardSync.py:260-281 | the same for a whole reply, in terms of the size line and what follows it |
| Download.FetchFile | BH_CardSync.py:260-281 | the reply to one `get_file`, read from the stream as a size line and then the content; FetchFileMeaning states its cases |
| Download.Downloads | BH_CardSync.py:253-290 | a batch sends at most one request per file; it sends none exactly when the batch is empty or the first send fails |
| Download.ReceiveContent | BH_CardSync.py:272-281 | reads exactly the declared size when the stream holds it (never more), otherwise everything until the close; `bytes_done` grows by what was read and every posted progress value exceeds the previous one |
| Download.ReceiveReply | BH_CardSync.py:260-290 | after the request, the folder, the unread stream, the go-on flag and the byte count are those of the reply's step |
| Download.ReceiveSized | BH_CardSync.py:266-290 | for a non-zero size: the temporary file is moved into place with the server's mtime once complete, or removed and the batch stopped when the stream ends first |
| Download.DownloadFile | BH_CardSync.py:257-290 | one loop pass: the request is logged when the send succeeds, and the outcome is the file's step |
| Download.BatchStep | BH_CardSync.py:253-290 | one loop pass, stated against the batch: the batch is this file's step followed by the rest of the batch when it goes on |
| Download.DownloadThread | BH_CardSync.py:247-290 | the final folder, unread stream and byte count are the batch's; the sent requests are the batch's first ones; the progress log starts at 0 and increases to `bytes_done` |
| Download.DownloadsTouchOnlyBatch | BH_CardSync.py:253-290 | a batch changes the local folder only at its file names and their temporary names |
| Download.DownloadedFileKept | BH_CardSync.py:283-284 | a file that arrives whole is stored with the server's mtime, and later files of the batch do not undo it |
| Download.ReceivedStep | BH_CardSync.py:272-284 | a whole file's step stores it under its name, drops the temporary file and goes on after its content |
| Download.DownloadErrorStops | BH_CardSync.py:286-290 | a bad size line or a cut stream ends the batch after its one request; a cut stream removes the temporary file |
| Download.AbsentFileSkipped | BH_CardSync.py:262-264 | size 0 skips the file and the batch continues after the size line |
| Upload.ContentsCarryFile | BH_CardSync.py:331-333 | the content messages concatenate to the pieces' bytes and count each byte once |
| Upload.FileMessages | BH_CardSync.py:325-334 | a file's messages start with its request carrying name, size and mtime |
| Upload.ContentsNext | BH_CardSync.py:331 | the next `read(8192)` at an offset returns at most 8192 bytes from there, followed by the remaining pieces |
| Upload.SendPiece | BH_CardSync.py:331-333 | one piece: the sent log gains it if accepted; the counter grows by its length and the new value is posted exactly then; the result says whether it was accepted |
| Upload.SendContent | BH_CardSync.py:330-334 | the sent log gains the accepted prefix of the file's pieces; the counter grows by their bytes; the result is true iff every piece was sent; progress values increase |
| Upload.FileMessagesCarryContent | BH_CardSync.py:325-334 | after the request, a readable file's messages carry exactly its content, and the counter counts its size |
| Upload.UploadFile | BH_CardSync.py:321-337 | one file: the accepted prefix of its messages is logged and counted, and the batch goes on iff the file could be read and every send succeeded |
| Upload.UploadThread | BH_CardSync.py:310-337 | when a name is missing the size sum raises before anything is sent; otherwise the log is the accepted prefix of the batch's messages and the progress values increase to `bytes_done` |
| Upload.UploadCountsEverything | BH_CardSync.py:312-334 | when every name is a readable file, the batch's content adds up to `total_size` |
| Upload.RequestedNames | BH_CardSync.py:316-328 | every requested name is a regular file of the folder |
| Upload.UploadRequestsInOrder | BH_CardSync.py:316-328 | one request per regular file in list order, none after an unreadable file, each with the file's name, size and mtime |
| Upload.UploadFrom | BH_CardSync.py:316-337 | the messages a batch sends from a given name on: for each regular file its request and, when it can be read, its 8192-byte pieces, nothing after an unreadable file; UploadThread, UploadRequestsInOrder and UploadCountsEverything state its meaning |
| Upload.TotalSize | BH_CardSync.py:312 | the sum of the sizes of the regular files of the batch; UploadCountsEverything shows the sent content adds up to it |
| Server.Storage.Write | burninghellascardupdaterSRV.py:55-65 | writes one entry of one shared folder and leaves the other folder alone |
| Server.ReadSize | burninghellascardupdaterSRV.py:59 | a read asks for between 1 and 4096 bytes, and for no more than is missing under the bounded rule |
| Server.ReceiveSpecMeaning | burninghellascardupdaterSRV.py:56-66 | on completion at least the declared size was read, and it is exactly the front of the stream; on a reset everything was read and it is less than declared |
| Server.ReadPiece | burninghellascardupdaterSRV.py:59-66 | an empty read is a reset at end of stream; any other read moves its bytes from the stream to the received data |
| Server.ReceiveLoop | burninghellascardupdaterSRV.py:56-66 | the loop's data, reset flag and remaining stream are those of `ReceiveSpec` |
| Server.ReceiveFile | burninghellascardupdaterSRV.py:51-74 | a complete upload is stored with the client's mtime; a reset leaves the partial file and reports it; a name that cannot be opened changes nothing; the other shared folder is untouched |
| Server.FileReply | burninghellascardupdaterSRV.py:35-43 | a `send_file` reply starts with the size line |
| Server.SendPieces | burninghellascardupdaterSRV.py:38-43 | the sent log gains the accepted prefix of the file's 4096-byte pieces; a failed send ends the loop |
| Server.SendFile | burninghellascardupdaterSRV.py:31-47 | the sent log gains the accepted prefix of the size line and the 4096-byte pieces, and a failed send ends the reply |
| Server.Perform | burninghellascardupdaterSRV.py:101-160 | one action never grows the pending stream and keeps segments non-empty |
| Server.Answer | burninghellascardupdaterSRV.py:101-160 | carrying out an action on the connection and the storage gives `Perform`'s world and go-on flag |
| Server.HandleClient | burninghellascardupdaterSRV.py:78-182 | the client loop ends in the state `Serve` computes from the initial one |
| Server.Serve | burninghellascardupdaterSRV.py:82-182 | the session: receive at most 4096 bytes, decode them as one request, act on it, and repeat until the stream ends or an action ends the loop; ServeKeeps states what a session never does |
| Server.Dispatch | burninghellascardupdaterSRV.py:88-165 | the decision for one decoded request; FolderLookup, GetFileReplies, UploadAccepted, ZeroSizeUploadConsumesNothing and NoReplyRequests state it case by case |
| Server.GetFile | burninghellascardupdaterSRV.py:133-145 | the `get_file` branch once the folder is known; GetFileReplies states its replies |
| Server.UploadFileRequest | burninghellascardupdaterSRV.py:148-156 | the `upload_file` branch once the folder is known; UploadAccepted states when it receives |
| Server.FolderLookup | burninghellascardupdaterSRV.py:114-120 | a folder command naming anything but `cards` or `mods` gets the invalid-folder reply; a request for one share does not depend on the other |
| Server.GetFileReplies | burninghellascardupdaterSRV.py:133-145 | with no file name there is no reply; a regular file is sent with its size; anything else gets `0\n` |
| Server.UploadAccepted | burninghellascardupdaterSRV.py:148-156 | an upload is received iff it names a shared folder, a non-empty file name, a size that converts to a positive integer and an mtime that converts to a float (both default to 0); the accepted values are those |
| Server.ZeroSizeUploadConsumesNothing | burninghellascardupdaterSRV.py:148-153 | an upload request whose size converts to 0 or less (the explicit `"size": 0` the client sends for an empty file, or a missing size) and whose mtime converts to a float consumes no bytes and changes nothing, whatever its file name, and the loop goes on |
| Server.NoReplyRequests | burninghellascardupdaterSRV.py:94-102 | undecodable data, a missing command and an unknown command get no reply; `check_update` gets the bare version `0.6.26` |
| Server.ReceiveCompletesIffEnough | burninghellascardupdaterSRV.py:58-63 | the receive loop completes iff the stream holds at least the declared size, under either read rule |
| Server.BoundedNeverOvershoots | burninghellascardupdaterSRV.py:59 | under the bounded rule no more than the declared size is read |
| Server.BoundedReadsExactly | burninghellascardupdaterSRV.py:59 | under the bounded rule a completed upload is exactly the declared bytes, and the rest stays pending |
| Server.UnboundedExactWhenAligned | burninghellascardupdaterSRV.py:58-66 | as written, the loop reads exactly the declared bytes when the upload ends at a segment boundary |
| Server.PerformKeeps | burninghellascardupdaterSRV.py:101-160 | one action removes no file name, takes back no reply and consumes only the front of the stream |
| Server.ServeKeeps | burninghellascardupdaterSRV.py:82-182 | serving a client removes no file name from either folder, takes back no reply and consumes only the front of the stream |
| RoundTrip.FileReplyBytes | burninghellascardupdaterSRV.py:35-43 | a complete `send_file` reply is the size line followed by the content |
| RoundTrip.SendFileThenFetch | BH_CardSync.py:260-281 | a non-empty file sent by the server is received whole by the download loop, and what follows is left unread |
| RoundTrip.EmptyFileLooksAbsent | BH_CardSync.py:262-264 | the reply for an empty file is byte-for-byte `0\n`, which the client reads as absent |
| RoundTrip.UploadReceivedExactly | burninghellascardupdaterSRV.py:56-66 | the client's content messages for a file are received whole by a bounded receive loop in any segmentation, and the bytes after them are left for the next request |
| RoundTrip.BoundedUploadStores | burninghellascardupdaterSRV.py:148-156 | an accepted upload under the bounded rule stores exactly the declared bytes with the client's mtime and leaves the rest pending |
| RoundTrip.UnboundedSwallowsNextRequest | burninghellascardupdaterSRV.py:59 | as written, a one-byte upload followed in the same segment by `{` stores both bytes and loses the `{` |
| RoundTrip.BoundedKeepsNextRequest | burninghellascardupdaterSRV.py:59 | under the bounded rule the same input stores the one byte and leaves `{` pending |

## Left out

- User interface: the tkinter widgets, message boxes, status texts, button states, `ui_queue` and the progress bar's maximum. The progress values posted are kept, as a sequence.
- Concurrency: the threads of the client and the server's thread-per-connection accept loop (burninghellascardupdaterSRV.py:185-193). Each batch and each connection is one sequential run.
- Connecting: `create_connection` and socket timeouts. The model starts from an open connection. When connecting fails, each thread sends nothing, posts its callback and returns (BH_CardSync.py:239-245, 302-308); in a smart sync the uploads then still run after a failed download connection, as SmartSync.Plan's phase order says, but the failed connection itself is not modelled.
- The client's `update_file_lists`, `_update_file_lists_thread`, `download_selected`, `upload_selected` and `start_smart_sync`. They call the modelled readers, loops and lists but are not part of the sync core.
- Settings persistence (`load_settings`, `save_settings`) and logging: configuration and plumbing.
- `_hash_file_in_chunks`: its result is an MD5 digest or nothing, modelled as a readable or unreadable entry.
- MD5, `json.loads`, `json.dumps` and `float` of a string. These are foreign calls, passed in as functions.
- The clock: `time.time()` in the temporary name is a `stamp` parameter, and the server's `now` is a field of `Env`.
- Floating point: mtimes are `real`. Only their `>` comparison and their values are used; NaN and rounding are not modelled.
- Paths: a file name is a map key. `os.path.join`, separators inside names, and names that reach outside the folder are not modelled.
- Local filesystem failures during a download (`makedirs`, `open` of the temporary file, `utime`, `replace`). In the model they always succeed; in the source they escape the `except` and end the thread.
- Server filesystem failures other than the ones modelled. Modelled: a target that is not a regular file, and a file whose content cannot be read. Not modelled: a shared folder that does not exist (`listdir` raises and ends the client loop) and a failing `utime` in `receive_file`.
- Request framing on the server. One `recv(4096)` is handed to `json.loads` as one request. Whether a split or coalesced request decodes is left to the `loads` parameter.
- Transport.Connection.SendAll: a failing `sendall` is modelled as a peer that accepts a fixed number of further sends. A partial send is not modelled.
- Text.DecodeAscii: it refuses every byte of 128 or more, while `bytes.decode()` accepts valid UTF-8. The size lines the server writes are ASCII.
- Text.IntOfText: it accepts ASCII digits only, with an optional sign, surrounding whitespace and single underscores between digits. Python's `int` also accepts other Unicode decimal digits.
- Tk's conversion of row values: `item(iid)['values']` turns every value that `int()` accepts into an integer (BH_CardSync.py:204-205, 352-353). A file named `0` then reads as falsy and is never tagged (BH_CardSync.py:213); `007` and `7` collide as keys of the comprehension; and a numeric name is sent as a JSON number, on which the server's `os.path.join` raises. The model's names are text, so none of these cases is modelled.
- Classifier.Items: tree row ids are unique in Tk. The model allows repeated names and lets the last row of a name win, as the dict comprehension would.
- Server.SendEntry: the size `os.path.getsize` reports for a directory (the update path) is the parameter `dirSize`.

## Findings

| source | as written | input that shows it | evidently intended | confidence | as-written member | corrected member |
|---|---|---|---|---|---|---|
| BH_CardSync.py:124 | a quote toggles `in_string` unless the single byte before it is a backslash | the index `{"\\":1}` (bytes 123 34 92 92 34 58 49 125), which `json.dumps` writes for a file name ending in a backslash: the closing quote follows an escaped backslash, so the string never closes and the scanner reads past the document. Such a name needs a server whose file system allows a backslash in a name; the Windows folders the server is configured with do not | a quote is escaped only after an odd run of backslashes | not executed | Framing.EscapedBackslashKeepsStringOpen | Framing.OddRunFindsTrailingBackslash |
| burninghellascardupdaterSRV.py:59 | `receive_file` always calls `recv(4096)`, whatever remains of the declared size | a one-byte upload whose byte arrives in the same segment as the `{` of the next request (segments `[[1, 123]]`): both bytes are written to the file and the next request is lost | read at most `min(4096, file_size - received_bytes)`, as the client's download loop does | not executed | RoundTrip.UnboundedSwallowsNextRequest | RoundTrip.BoundedKeepsNextRequest |
