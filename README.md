# A model of a minimal directory-navigation server

The server accepts TCP connections and runs one session per client. A
session reads one chunk of at most 512 bytes, decodes it as a command by
case-sensitive prefix tests, and carries the command out against the
process's working directory:

- `CD <path>` changes the directory and replies `OK` or `ERROR`.
- `DIR` replies with one CR-LF-terminated line per entry, then a blank line.
- `PWD` replies with the working directory.

The session then reads again. It ends when a read fails.

The model has four modules:

- `Protocol` (protocol.dfy) holds the bytes and the three verbs.
  - `Decode` decodes one chunk. It follows the Go slicing exactly, so a chunk shorter than three bytes gives `SlicePanic` rather than a command.
  - The reply encoders are `ChdirReply`, `ListingReply` and `WdReply`.
  - `Request` is the request format of the protocol comment, and `ReadListing` is a client's reading of a listing. These are the partners of `Decode` and `ListingReply` in round-trip lemmas.
- `Os` (os.dfy) is the operating system as the server uses it. `FileSystem` says which paths a directory change accepts and what each directory lists. The class `Process` holds the process-wide working directory, which `Chdir` updates in place.
- `Transport` (transport.dfy) is the connection. The class `Conn` holds the deliveries still pending and the bytes sent so far. `Read` copies at most one buffer's worth into an `array`; the rest of a longer delivery waits for the next read.
- `Session` (session.dfy) holds the three command handlers and the loop.
  - `ChangeDir`, `DirList` and `Pwd` are the three handlers. `DirList` writes name by name in a loop and then writes the blank line on every path.
  - `HandleClient` is the read loop. It is proved equal to the pure specification `Run`, which gives the final directory, the replies in order, how the session ended and the input left unread.

## Model

| member | source | states |
|---|---|---|
| `Protocol.Decode` | ftpServer.go:52-61 | A chunk decodes to `ChangeDirectory(s[3..])` exactly when it starts with "CD" and has at least 3 bytes. It decodes to `DIR` or `PWD` exactly when it starts with that verb, and is dropped exactly when it has 3 or more bytes and starts with no verb. It panics exactly when it is shorter than 3 bytes. |
| `Protocol.RequestRoundTrip` | ftpServer.go:112-117 | A request in the documented format (verb, one space, argument) decodes back to the command it encodes. |
| `Protocol.CdSeparatorUnchecked` | ftpServer.go:55-56 | The byte after "CD" is never checked: any byte there gives the same directory change to the rest of the chunk. |
| `Protocol.CrlfTerminatorKept` | ftpServer.go:55-60 | A CR-LF-terminated request keeps its terminator. For `CD` the terminator ends up inside the path; `DIR` and `PWD` still decode. |
| `Protocol.ChdirReply` | ftpServer.go:66-70 | A directory change always gets a reply. The reply is `OK` exactly when the change succeeded and `ERROR` exactly when it failed. |
| `Protocol.Lines` | ftpServer.go:86-88 | The names, each followed by CR-LF, in order. The result is empty exactly when there are no names. `LinesAppend` shows that writing them one line at a time gives the same bytes. |
| `Protocol.LinesAppend` | ftpServer.go:86-88 | Writing the names one line at a time gives the concatenation of the lines, for any split of the names. |
| `Protocol.ListingReply` | ftpServer.go:74-88 | A listing reply always ends in the CR-LF written on return. It is that CR-LF alone exactly when the listing failed or the directory is empty. What it means to a client is proved in `ListingRoundTrip`, `FailedListingReadsEmpty` and `CrlfInNameSplitsEntry`. |
| `Protocol.WdReply` | ftpServer.go:92-97 | The reply is the path itself, with no framing, when the query succeeds. It is empty exactly when the query failed or the path is empty, so a client cannot tell those two apart. |
| `Protocol.ListingRoundTrip` | ftpServer.go:73-89 | A client reading lines up to the first blank line gets back exactly the listed names, in order, and stops at the end of the reply. This holds when every name is non-empty and holds no CR-LF pair. |
| `Protocol.ReadListing` | ftpServer.go:73-89 | Every listing a client reads is explained by a listing reply: lines of non-empty names, then a blank line. |
| `Protocol.CrlfInNameSplitsEntry` | ftpServer.go:86-88 | A name that holds a CR-LF pair cannot be carried: the client reads it back as two entries. |
| `Protocol.FailedListingReadsEmpty` | ftpServer.go:74-84 | A failed listing (only the deferred blank line) reads, to a client, exactly as an empty directory. |
| `Os.WorkingDirectory` | ftpServer.go:92-96 | The working-directory query succeeds exactly when the working directory is a directory, and then yields that directory. |
| `Os.DirectoryNames` | ftpServer.go:76-84 | The listing succeeds only on a directory and yields that directory's names in the system's order. It succeeds whenever that directory can be read. |
| `Os.Process.Chdir` | ftpServer.go:66 | The change succeeds exactly when the path is a directory, and then sets the working directory to the path verbatim; otherwise nothing changes. The empty path and a path holding a NUL byte are never directories, whatever the filesystem holds. |
| `Os.Process.Getwd` | ftpServer.go:92 | Returns the working directory exactly when it is a directory. |
| `Os.Process.ReadDirNames` | ftpServer.go:76-84 | Returns the names of the working directory, or failure. |
| `Transport.Receive` | ftpServer.go:44-46 | One read delivers at most the buffer size. It loses and reorders no bytes: what it delivers, followed by what stays pending, is the original stream. A failure is delivered as a failure. |
| `Transport.Conn.Read` | ftpServer.go:46 | `buf[..n]` holds the delivered bytes, or the read reports failure. Either way, what stays pending is what `Receive` leaves. |
| `Transport.Conn.Write` | ftpServer.go:67 | Appends the bytes to what has been sent. |
| `Session.Execute` | ftpServer.go:65-98 | `CD` replies `OK` exactly when the path is a directory, and then moves there; otherwise it replies `ERROR`. Only a successful `CD` changes the directory. `DIR` replies with the listing of the working directory's names. `PWD` replies with the working directory, or with nothing when that is not a directory. |
| `Session.DirReplyReadsBack` | ftpServer.go:73-89 | A client reads the `DIR` reply back as exactly the working directory's names, in the system's order, when every name can be carried. When the listing fails, the client reads an empty listing. |
| `Session.React` | ftpServer.go:46-61 | A read stops the session exactly when it fails (closed) or delivers fewer than 3 bytes (panic). Otherwise it produces at most one reply, and exactly one when the chunk is a command. |
| `Session.Run` | ftpServer.go:41-63 | After any input, the working directory is either the initial one or a directory. A session still waiting has read all its input. |
| `Session.ChangeDir` | ftpServer.go:65-71 | Sends exactly `OK` and moves to the path when it is a directory. Otherwise it sends exactly `ERROR` and the directory is unchanged. |
| `Session.DirList` | ftpServer.go:73-89 | Sends each name followed by CR-LF, in the order given, then one CR-LF. On failure it sends only the CR-LF. It does not touch the working directory. |
| `Session.Pwd` | ftpServer.go:91-98 | Sends exactly the working directory, or nothing when it cannot be determined. It does not touch the working directory. |
| `Session.HandleRead` | ftpServer.go:46-61 | One pass of the loop: reads one chunk, then stops the session or changes the directory and sends exactly as `React` says. |
| `Session.HandleClient` | ftpServer.go:41-63 | The final working directory, how the session ended, the input left unread and the bytes sent (the replies of `Run`, in order) are exactly those `Run` gives. |
| `Session.RunAppend` | ftpServer.go:45-62 | Input after a session has ended is never read and changes nothing. Input after a waiting session is handled next, and its replies come after the earlier ones. |
| `Session.ReadErrorEndsSession` | ftpServer.go:46-50 | A failed read closes the session. Nothing after it is read, and nothing more is written. |
| `Session.DroppedChunkIsSilent` | ftpServer.go:55-61 | A chunk that matches no verb gets no reply and leaves the session as it was. |
| `Session.OneReplyPerChunk` | ftpServer.go:52-61 | A chunk that fits the buffer gets at most one reply, and exactly one when it is a command: that command's reply. It panics exactly when shorter than 3 bytes. |
| `Session.PwdIsIdempotent` | ftpServer.go:91-98 | Two `PWD`s in a row get the same reply. |
| `Session.CdThenPwd` | ftpServer.go:65-71 | After `CD path`, a `PWD` reports `path` when the change succeeded. When it failed, the reply is `ERROR` and `PWD` reports what it reported before. |
| `Session.EmptyCdIsRefused` | ftpServer.go:55-69 | A 3-byte chunk `CD` plus any byte asks for the empty path. It gets `ERROR` and leaves the directory where it was. |
| `Session.LongCdIsTruncated` | ftpServer.go:44-56 | A `CD` request longer than the 512-byte buffer is tried with only the first 509 bytes of its path. Its bytes from 512 on are the next read, handled as a request of their own from the resulting directory. |
| `Session.WellFormedRequests` | ftpServer.go:45-62 | Requests in the message format that fit the buffer never make the session panic, and each gets exactly one reply. Without a `CD` among them, the working directory does not change. |

## Left out

- `main` (ftpServer.go:23-39): the listener, the accept loop and the goroutine per connection are left out. One session is modelled. The race between sessions on the process-wide working directory is concurrency and is not modelled.
- A runtime panic in a goroutine ends the whole process, and so every session. The model only ends the one session, with `Panicked`.
- `checkError` and `os.Exit` (ftpServer.go:99-104) are process termination and console output; both are left out.
- `conn.Close` and the deferred close are left out, along with the failure of a write: `Conn.Write` always succeeds, as the ignored return values at ftpServer.go:67, 69, 74, 87, 94 and 97 assume.
- A read with nothing pending blocks in Go. `HandleClient` instead returns `Awaiting` when no delivery is left.
- The operating system is a fixed `FileSystem` value. It does not model:
  - path resolution (relative paths, `.`, `..`, symbolic links);
  - `os.Getwd` returning an absolute path;
  - changes made by other processes during a session.
- `dirList` never closes the directory it opens (ftpServer.go:76). The model's listing does not depend on earlier listings, so running out of file descriptors is not modelled. Once the descriptors run out, opening `.` fails and `DIR` replies with a bare CR-LF.
- Path validity covers only the empty path and the NUL byte. Other reasons the system refuses a path, such as an over-long name or a missing permission, are part of the `FileSystem` value.
- The two failure points of the listing (opening `.` and reading its names) are one failure in the model. They are indistinguishable on the wire.
- The CR-LF line framing described in the comment at ftpServer.go:106-130 is not what the code does. The model follows the code: one read is one message, and `CrlfTerminatorKept` states the consequence.
- Three behaviours of the code are kept as written:
  - The byte after `CD` is not checked, although the message format at ftpServer.go:117 asks for exactly one space.
  - An unknown verb gets no reply at all.
  - The working directory is shared by the whole process, not kept per session.
