/** One client session: read a chunk into a 512-byte buffer, decode it,
    carry out the command against the process's working directory, write the
    reply, and read again, until a read fails or a decode panics.

    Run is the specification: what a session does with everything the peer
    delivers. HandleClient is the loop itself, over the connection and the
    process objects, proved to do what Run says. */
module Session {
  import opened Protocol
  import opened Os
  import opened Transport

  /** Size of the read buffer, the most one read delivers. */
  const BufferSize: nat := 512

  /** The working directory after a command and the reply it sends. */
  datatype Step = Step(wd: Bytes, reply: Bytes)

  function Execute(fs: FileSystem, wd: Bytes, c: Command): (st: Step)
    ensures c.ChangeDirectory? ==> (st.reply == OK || st.reply == ERROR)
    ensures c.ChangeDirectory? ==> (st.reply == OK <==> IsDirectory(fs, c.path))
    ensures c.ChangeDirectory? && IsDirectory(fs, c.path) ==> st.wd == c.path
    ensures st.wd != wd ==> c.ChangeDirectory? && IsDirectory(fs, c.path) && st.wd == c.path
    ensures c == ListDirectory ==> st.reply == ListingReply(DirectoryNames(fs, wd))
    ensures c == PrintWorkingDirectory ==>
              (IsDirectory(fs, wd) && st.reply == wd) || (!IsDirectory(fs, wd) && st.reply == [])
  {
    match c
    case ChangeDirectory(p) =>
      if IsDirectory(fs, p) then Step(p, ChdirReply(true)) else Step(wd, ChdirReply(false))
    case ListDirectory => Step(wd, ListingReply(DirectoryNames(fs, wd)))
    case PrintWorkingDirectory => Step(wd, WdReply(WorkingDirectory(fs, wd)))
  }

  /** The reply to a listing is read back by a client as exactly the names
      of the working directory, in the system's order, when they can be
      carried; a listing that fails reads as an empty one. */
  lemma DirReplyReadsBack(fs: FileSystem, wd: Bytes)
    ensures var names := DirectoryNames(fs, wd);
      var reply := Execute(fs, wd, ListDirectory).reply;
      (names.Some? && (forall n | n in names.value :: Listable(n)) ==>
         ReadListing(reply) == Some(Listing(names.value, []))) &&
      (names.None? ==> ReadListing(reply) == Some(Listing([], [])))
  {
    var names := DirectoryNames(fs, wd);
    var reply := Execute(fs, wd, ListDirectory).reply;
    assert reply + [] == reply;
    if names.Some? && (forall n | n in names.value :: Listable(n)) {
      ListingRoundTrip(names.value, []);
    } else if names.None? {
      FailedListingReadsEmpty([]);
    }
  }

  /** How a session ends: still waiting for input, closed after a failed
      read, or stopped by a slice-bounds panic. */
  datatype Ending = Awaiting | Closed | Panicked

  /** The final working directory, the replies in order, how the session
      ended, and the input it never read. */
  datatype Outcome = Outcome(wd: Bytes, replies: seq<Bytes>, ending: Ending, rest: seq<Read>)

  /** What one read does to the session: end it, or go on from a working
      directory with the replies written for it. */
  datatype Reaction = Stop(ending: Ending) | Proceed(wd: Bytes, replies: seq<Bytes>)

  /** One read: a failure closes the session, a chunk too short to slice
      panics, a command is carried out and answered, anything else is
      ignored. */
  function React(fs: FileSystem, wd: Bytes, read: Read): (x: Reaction)
    ensures x.Stop? <==> read.ReadError? || |read.data| < 3
    ensures x.Stop? ==> (x.ending == Closed <==> read.ReadError?) && x.ending != Awaiting
    ensures x.Proceed? ==> |x.replies| <= 1
    ensures x.Proceed? ==> (|x.replies| == 1 <==> Decode(read.data).Recognized?)
    ensures x.Proceed? && x.wd != wd ==>
              Decode(read.data).Recognized? && x.replies == [OK] && IsDirectory(fs, x.wd)
  {
    match read
    case ReadError => Stop(Closed)
    case Chunk(s) =>
      match Decode(s)
      case SlicePanic => Stop(Panicked)
      case Dropped => Proceed(wd, [])
      case Recognized(c) =>
        var st := Execute(fs, wd, c);
        Proceed(st.wd, [st.reply])
  }

  function Run(fs: FileSystem, wd: Bytes, pending: seq<Read>): (o: Outcome)
    ensures o.wd == wd || IsDirectory(fs, o.wd)
    ensures o.ending == Awaiting ==> o.rest == []
    decreases Volume(pending)
  {
    if pending == [] then Outcome(wd, [], Awaiting, [])
    else
      var r := Receive(pending, BufferSize);
      match React(fs, wd, r.read)
      case Stop(e) => Outcome(wd, [], e, r.rest)
      case Proceed(wd', replies) =>
        var o := Run(fs, wd', r.rest);
        o.(replies := replies + o.replies)
  }

  /** The replies as one byte stream, in order. */
  function Flatten(replies: seq<Bytes>): Bytes {
    if replies == [] then [] else Flatten(replies[..|replies| - 1]) + replies[|replies| - 1]
  }

  lemma {:induction false} FlattenAppend(a: seq<Bytes>, b: seq<Bytes>)
    ensures Flatten(a + b) == Flatten(a) + Flatten(b)
    decreases |b|
  {
    if b == [] {
      assert a + b == a;
    } else {
      var b' := b[..|b| - 1];
      assert (a + b)[..|a + b| - 1] == a + b';
      FlattenAppend(a, b');
    }
  }

  /** chdir: "OK" and the new directory, or "ERROR" and no change. */
  method ChangeDir(conn: Conn, proc: Process, path: Bytes)
    modifies conn, proc
    ensures IsDirectory(proc.fs, path) ==> proc.wd == path && conn.sent == old(conn.sent) + OK
    ensures !IsDirectory(proc.fs, path) ==>
              proc.wd == old(proc.wd) && conn.sent == old(conn.sent) + ERROR
    ensures conn.pending == old(conn.pending)
  {
    var ok := proc.Chdir(path);
    if ok {
      conn.Write(OK);
    } else {
      conn.Write(ERROR);
    }
  }

  /** dirList: a line per name, then the blank line, which is written on
      the failure paths too. */
  method DirList(conn: Conn, proc: Process)
    modifies conn
    ensures conn.sent == old(conn.sent) + ListingReply(DirectoryNames(proc.fs, proc.wd))
    ensures conn.pending == old(conn.pending)
  {
    var names := proc.ReadDirNames();
    if names.Some? {
      var ns := names.value;
      var i := 0;
      while i < |ns|
        invariant 0 <= i <= |ns|
        invariant conn.sent == old(conn.sent) + Lines(ns[..i])
        invariant conn.pending == old(conn.pending)
      {
        conn.Write(ns[i] + CRLF);
        assert ns[..i + 1] == ns[..i] + [ns[i]];
        LinesAppend(ns[..i], [ns[i]]);
        i := i + 1;
      }
      assert ns[..i] == ns;
    }
    conn.Write(CRLF);
  }

  /** pwd: the working directory, or nothing when it cannot be determined. */
  method Pwd(conn: Conn, proc: Process)
    modifies conn
    ensures IsDirectory(proc.fs, proc.wd) ==> conn.sent == old(conn.sent) + proc.wd
    ensures !IsDirectory(proc.fs, proc.wd) ==> conn.sent == old(conn.sent)
    ensures conn.pending == old(conn.pending)
  {
    var wd := proc.Getwd();
    if wd.None? {
      conn.Write([]);
      return;
    }
    conn.Write(wd.value);
  }

  /** One pass of handleClient's loop: read into the buffer, decode what
      was read, carry it out and reply. Returns the ending when the read
      fails or the decode panics. */
  method HandleRead(conn: Conn, proc: Process, buf: array<Byte>) returns (stop: Option<Ending>)
    requires conn.pending != [] && buf.Length == BufferSize
    modifies conn, proc, buf
    ensures var r := Receive(old(conn.pending), BufferSize);
      var x := React(proc.fs, old(proc.wd), r.read);
      conn.pending == r.rest &&
      (x.Stop? ==> stop == Some(x.ending) && proc.wd == old(proc.wd) && conn.sent == old(conn.sent)) &&
      (x.Proceed? ==> stop == None && proc.wd == x.wd && conn.sent == old(conn.sent) + Flatten(x.replies))
  {
    stop := None;
    ghost var r := Receive(conn.pending, BufferSize);
    var n, failed := conn.Read(buf);
    if failed {
      assert React(proc.fs, proc.wd, r.read) == Stop(Closed);
      return Some(Closed);
    }
    var s := buf[..n];
    assert r.read == Chunk(s);
    match Decode(s)
    case SlicePanic =>
      assert React(proc.fs, proc.wd, r.read) == Stop(Panicked);
      return Some(Panicked);
    case Dropped =>
      assert React(proc.fs, proc.wd, r.read) == Proceed(proc.wd, []);
    case Recognized(c) =>
      ghost var st := Execute(proc.fs, proc.wd, c);
      assert React(proc.fs, proc.wd, r.read) == Proceed(st.wd, [st.reply]);
      assert Flatten([st.reply]) == st.reply;
      match c
      case ChangeDirectory(path) => ChangeDir(conn, proc, path);
      case ListDirectory => DirList(conn, proc);
      case PrintWorkingDirectory => Pwd(conn, proc);
  }

  /** handleClient: the read, decode, execute loop of one connection. */
  method HandleClient(conn: Conn, proc: Process) returns (ending: Ending)
    modifies conn, proc
    ensures var o := Run(proc.fs, old(proc.wd), old(conn.pending));
      ending == o.ending && proc.wd == o.wd && conn.pending == o.rest &&
      conn.sent == old(conn.sent) + Flatten(o.replies)
  {
    var buf := new Byte[BufferSize];
    ghost var total := Run(proc.fs, proc.wd, conn.pending);
    ghost var replied: seq<Bytes> := [];
    while conn.pending != []
      invariant buf.Length == BufferSize
      invariant total.replies == replied + Run(proc.fs, proc.wd, conn.pending).replies
      invariant total.wd == Run(proc.fs, proc.wd, conn.pending).wd
      invariant total.ending == Run(proc.fs, proc.wd, conn.pending).ending
      invariant total.rest == Run(proc.fs, proc.wd, conn.pending).rest
      invariant conn.sent == old(conn.sent) + Flatten(replied)
      decreases Volume(conn.pending)
    {
      ghost var wd, pending := proc.wd, conn.pending;
      ghost var x := React(proc.fs, wd, Receive(pending, BufferSize).read);
      var stop := HandleRead(conn, proc, buf);
      if stop.Some? {
        assert Run(proc.fs, wd, pending).replies == [] && replied + [] == replied;
        return stop.value;
      }
      ghost var next := Run(proc.fs, proc.wd, conn.pending);
      ghost var later := next.replies;
      assert Run(proc.fs, wd, pending) == next.(replies := x.replies + later);
      ConcatAssoc(replied, x.replies, later);
      FlattenAppend(replied, x.replies);
      ConcatAssoc(old(conn.sent), Flatten(replied), Flatten(x.replies));
      replied := replied + x.replies;
    }
    assert replied + [] == replied;
    return Awaiting;
  }

  // Properties of a session.

  /** Input that follows a finished session is never read; input that
      follows a session still waiting is handled after it, its replies after
      the earlier ones. */
  lemma {:induction false} RunAppend(fs: FileSystem, wd: Bytes, p: seq<Read>, q: seq<Read>)
    ensures var o := Run(fs, wd, p);
      Run(fs, wd, p + q) ==
        if o.ending == Awaiting then
          var o2 := Run(fs, o.wd, q);
          o2.(replies := o.replies + o2.replies)
        else o.(rest := o.rest + q)
    decreases Volume(p)
  {
    if p != [] {
      ReceiveAppend(p, q, BufferSize);
      var r := Receive(p, BufferSize);
      var x := React(fs, wd, r.read);
      assert p + q != [];
      if x.Stop? {
        assert Run(fs, wd, p) == Outcome(wd, [], x.ending, r.rest);
        assert Run(fs, wd, p + q) == Outcome(wd, [], x.ending, r.rest + q);
      } else {
        RunAppend(fs, x.wd, r.rest, q);
        var o := Run(fs, x.wd, r.rest);
        var oq := Run(fs, x.wd, r.rest + q);
        assert Run(fs, wd, p) == Outcome(o.wd, x.replies + o.replies, o.ending, o.rest);
        assert Run(fs, wd, p + q) == Outcome(oq.wd, x.replies + oq.replies, oq.ending, oq.rest);
        if o.ending == Awaiting {
          var o2 := Run(fs, o.wd, q);
          assert oq == Outcome(o2.wd, o.replies + o2.replies, o2.ending, o2.rest);
          ConcatAssoc(x.replies, o.replies, o2.replies);
        } else {
          assert oq == Outcome(o.wd, o.replies, o.ending, o.rest + q);
        }
      }
    } else {
      assert p + q == q;
    }
  }

  lemma ConcatAssoc<T>(a: seq<T>, b: seq<T>, c: seq<T>)
    ensures a + (b + c) == (a + b) + c
  {
  }

  /** A failed read ends the session: nothing after it is read, and nothing
      more is written. */
  lemma ReadErrorEndsSession(fs: FileSystem, wd: Bytes, p: seq<Read>, q: seq<Read>)
    requires Run(fs, wd, p).ending == Awaiting
    ensures var o := Run(fs, wd, p);
      Run(fs, wd, p + [ReadError] + q) == Outcome(o.wd, o.replies, Closed, q)
  {
    RunAppend(fs, wd, p, [ReadError] + q);
    assert p + [ReadError] + q == p + ([ReadError] + q);
    assert ([ReadError] + q)[1..] == q;
  }

  /** A chunk that is no command is dropped: no reply, no change. */
  lemma DroppedChunkIsSilent(fs: FileSystem, wd: Bytes, s: Bytes, q: seq<Read>)
    requires |s| <= BufferSize && Decode(s) == Dropped
    ensures Run(fs, wd, [Chunk(s)] + q) == Run(fs, wd, q)
  {
    assert ([Chunk(s)] + q)[1..] == q;
  }

  /** A chunk that fits the buffer is one read: at most one command, at most
      one reply. */
  lemma OneReplyPerChunk(fs: FileSystem, wd: Bytes, s: Bytes)
    requires |s| <= BufferSize
    ensures var o := Run(fs, wd, [Chunk(s)]);
      |o.replies| <= 1 &&
      (|o.replies| == 1 <==> Decode(s).Recognized?) &&
      (Decode(s).Recognized? ==> o.replies[0] == Execute(fs, wd, Decode(s).cmd).reply) &&
      (o.ending == Panicked <==> |s| < 3)
  {
    assert [Chunk(s)][1..] == [];
  }

  /** Two working-directory queries in a row get the same reply. */
  lemma PwdIsIdempotent(fs: FileSystem, wd: Bytes, q: seq<Read>)
    ensures var o := Run(fs, wd, [Chunk(PWD), Chunk(PWD)] + q);
      |o.replies| >= 2 && o.replies[0] == o.replies[1] == WdReply(WorkingDirectory(fs, wd))
  {
    var reply := WdReply(WorkingDirectory(fs, wd));
    assert React(fs, wd, Chunk(PWD)) == Proceed(wd, [reply]);
    var p2 := [Chunk(PWD)] + q;
    var p := [Chunk(PWD)] + p2;
    assert [Chunk(PWD), Chunk(PWD)] + q == p;
    assert Receive(p2, BufferSize) == Received(Chunk(PWD), q);
    assert Run(fs, wd, p2).replies == [reply] + Run(fs, wd, q).replies;
    assert Receive(p, BufferSize) == Received(Chunk(PWD), p2);
    assert Run(fs, wd, p).replies == [reply] + Run(fs, wd, p2).replies;
  }

  /** A directory change followed by a query: the query reports the new
      directory when the change succeeded, and the old answer when not. */
  lemma CdThenPwd(fs: FileSystem, wd: Bytes, path: Bytes)
    requires |path| <= BufferSize - 3
    ensures Run(fs, wd, [Chunk(Request(ChangeDirectory(path))), Chunk(Request(PrintWorkingDirectory))]).replies
         == if IsDirectory(fs, path) then [OK, path] else [ERROR, WdReply(WorkingDirectory(fs, wd))]
  {
    var req := Request(ChangeDirectory(path));
    RequestRoundTrip(ChangeDirectory(path));
    var p := [Chunk(req), Chunk(PWD)];
    assert Receive(p, BufferSize) == Received(Chunk(req), [Chunk(PWD)]);
    var st := Execute(fs, wd, ChangeDirectory(path));
    assert Run(fs, wd, p).replies == [st.reply] + Run(fs, st.wd, [Chunk(PWD)]).replies;
    assert Receive([Chunk(PWD)], BufferSize) == Received(Chunk(PWD), []);
    assert Run(fs, st.wd, [Chunk(PWD)]).replies == [WdReply(WorkingDirectory(fs, st.wd))];
  }

  /** "CD" and a separator with nothing after it asks for the empty path,
      which no filesystem accepts: the reply is "ERROR" and the directory
      stays. */
  lemma EmptyCdIsRefused(fs: FileSystem, wd: Bytes, b: Byte)
    ensures Run(fs, wd, [Chunk(CD + [b])]) == Outcome(wd, [ERROR], Awaiting, [])
  {
    CdSeparatorUnchecked(b, []);
    assert CD + [b] + [] == CD + [b];
    assert Receive([Chunk(CD + [b])], BufferSize) == Received(Chunk(CD + [b]), []);
  }

  /** A directory change longer than the buffer is cut at 512 bytes: the
      change is attempted with the first 509 bytes of the path, and the
      bytes from 512 on are the next read, decoded as a request of their
      own. */
  lemma LongCdIsTruncated(fs: FileSystem, wd: Bytes, path: Bytes)
    requires |path| > BufferSize - 3
    ensures var req := Request(ChangeDirectory(path));
      var cut := path[..BufferSize - 3];
      var ok := IsDirectory(fs, cut);
      var o := Run(fs, if ok then cut else wd, [Chunk(req[BufferSize..])]);
      Run(fs, wd, [Chunk(req)]) == o.(replies := [ChdirReply(ok)] + o.replies)
  {
    var req := Request(ChangeDirectory(path));
    var cut := path[..BufferSize - 3];
    var r := Receive([Chunk(req)], BufferSize);
    assert r == Received(Chunk(req[..BufferSize]), [Chunk(req[BufferSize..])]);
    assert req[..BufferSize] == CD + [SP] + cut;
    CdSeparatorUnchecked(SP, cut);
  }

  /** The deliveries of a client that sends one request per read. */
  function Requests(cs: seq<Command>): (p: seq<Read>)
    ensures |p| == |cs|
  {
    if cs == [] then [] else [Chunk(Request(cs[0]))] + Requests(cs[1..])
  }

  /** Requests in the message format, each fitting the buffer, never make the
      session panic, and each gets exactly one reply; without a directory
      change among them the working directory stays where it was. */
  lemma {:induction false} WellFormedRequests(fs: FileSystem, wd: Bytes, cs: seq<Command>)
    requires forall c | c in cs :: |Request(c)| <= BufferSize
    ensures Run(fs, wd, Requests(cs)).ending == Awaiting
    ensures |Run(fs, wd, Requests(cs)).replies| == |cs|
    ensures (forall c | c in cs :: !c.ChangeDirectory?) ==> Run(fs, wd, Requests(cs)).wd == wd
    decreases |cs|
  {
    if cs != [] {
      var p := Requests(cs);
      assert cs[0] in cs;
      RequestRoundTrip(cs[0]);
      assert p[0] == Chunk(Request(cs[0])) && p[1..] == Requests(cs[1..]);
      var st := Execute(fs, wd, cs[0]);
      assert forall c | c in cs[1..] :: c in cs;
      WellFormedRequests(fs, st.wd, cs[1..]);
    }
  }
}
