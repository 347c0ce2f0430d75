/** The wire protocol of the directory server: bytes, the three request
    verbs, how one received chunk is decoded into a command, and how the
    replies are laid out on the wire. Everything here is pure. */
module Protocol {

  /** One octet on the wire. */
  newtype Byte = b: int | 0 <= b < 256

  type Bytes = seq<Byte>

  datatype Option<T> = None | Some(value: T)

  const CR: Byte := 0x0D
  const LF: Byte := 0x0A
  const SP: Byte := 0x20
  const CRLF: Bytes := [CR, LF]

  /** The verbs, case-sensitive ASCII. */
  const CD: Bytes := [0x43, 0x44]          // "CD"
  const DIR: Bytes := [0x44, 0x49, 0x52]   // "DIR"
  const PWD: Bytes := [0x50, 0x57, 0x44]   // "PWD"

  /** The two status replies of a directory change. */
  const OK: Bytes := [0x4F, 0x4B]                    // "OK"
  const ERROR: Bytes := [0x45, 0x52, 0x52, 0x4F, 0x52]  // "ERROR"

  datatype Command =
    | ChangeDirectory(path: Bytes)
    | ListDirectory
    | PrintWorkingDirectory

  /** What the server makes of one chunk: a command, nothing at all (the
      chunk is silently ignored), or a slice-bounds panic of the runtime. */
  datatype Decoded =
    | Recognized(cmd: Command)
    | Dropped
    | SlicePanic

  predicate HasPrefix(s: Bytes, verb: Bytes) {
    |verb| <= |s| && s[..|verb|] == verb
  }

  /** Decodes one chunk exactly as the server's slicing does: the first two
      bytes are compared with "CD" (whose argument is everything from index 3
      on, the separator unchecked), then the first three with "DIR", then with
      "PWD". Taking s[0:2] needs two bytes, s[3:] and s[0:3] need three. */
  function Decode(s: Bytes): (d: Decoded)
    ensures d == SlicePanic <==> |s| < 3
    ensures (d.Recognized? && d.cmd.ChangeDirectory?) <==> 3 <= |s| && HasPrefix(s, CD)
    ensures d.Recognized? && d.cmd.ChangeDirectory? ==> d.cmd.path == s[3..]
    ensures d == Recognized(ListDirectory) <==> HasPrefix(s, DIR)
    ensures d == Recognized(PrintWorkingDirectory) <==> HasPrefix(s, PWD)
    ensures d == Dropped <==>
              3 <= |s| && !HasPrefix(s, CD) && !HasPrefix(s, DIR) && !HasPrefix(s, PWD)
  {
    if |s| < 2 then SlicePanic
    else if s[0..2] == CD then
      // Proof hint only: a chunk starting with "C" cannot start with "DIR"
      // or "PWD", which the iff clauses for those verbs need.
      assert s[0] == CD[0];
      if |s| < 3 then SlicePanic else Recognized(ChangeDirectory(s[3..]))
    else if |s| < 3 then SlicePanic
    else if s[0..3] == DIR then Recognized(ListDirectory)
    else if s[0..3] == PWD then Recognized(PrintWorkingDirectory)
    else Dropped
  }

  /** A request as the protocol's message format lays it out: the verb, and
      for a directory change one space and the path. No line terminator: one
      chunk is one message. */
  function Request(c: Command): (r: Bytes)
  {
    match c
    case ChangeDirectory(p) => CD + [SP] + p
    case ListDirectory => DIR
    case PrintWorkingDirectory => PWD
  }

  lemma RequestRoundTrip(c: Command)
    ensures |Request(c)| >= 3
    ensures Decode(Request(c)) == Recognized(c)
  {
    if c.ChangeDirectory? {
      assert Request(c)[..2] == CD;
      assert Request(c)[3..] == c.path;
    }
  }

  /** The separator after "CD" is never looked at: any byte in its place
      gives the same directory change. */
  lemma CdSeparatorUnchecked(b: Byte, p: Bytes)
    ensures Decode(CD + [b] + p) == Recognized(ChangeDirectory(p))
  {
    assert (CD + [b] + p)[..2] == CD;
    assert (CD + [b] + p)[3..] == p;
  }

  /** A request terminated by CR-LF, as a line-oriented client sends it: the
      terminator is not stripped, so it becomes part of a directory change's
      path, while "DIR" and "PWD" still decode. */
  lemma CrlfTerminatorKept(c: Command)
    ensures c.ChangeDirectory? ==>
              Decode(Request(c) + CRLF) == Recognized(ChangeDirectory(c.path + CRLF))
    ensures !c.ChangeDirectory? ==> Decode(Request(c) + CRLF) == Recognized(c)
  {
    if c.ChangeDirectory? {
      CdSeparatorUnchecked(SP, c.path + CRLF);
      assert Request(c) + CRLF == CD + [SP] + (c.path + CRLF);
    } else {
      assert (Request(c) + CRLF)[..3] == Request(c);
    }
  }

  /** The reply to a directory change: a client tells success from failure
      by the reply alone, and a reply is always sent. */
  function ChdirReply(ok: bool): (r: Bytes)
    ensures r == OK <==> ok
    ensures r == ERROR <==> !ok
  {
    if ok then OK else ERROR
  }

  /** Each name followed by CR-LF, in the order given: empty exactly when
      there are no names, and otherwise ending in a line terminator, so the
      last line is never left open. */
  function Lines(names: seq<Bytes>): (r: Bytes)
    ensures r == [] <==> names == []
  {
    if names == [] then [] else names[0] + CRLF + Lines(names[1..])
  }

  lemma {:induction false} LinesAppend(a: seq<Bytes>, b: seq<Bytes>)
    ensures Lines(a + b) == Lines(a) + Lines(b)
  {
    if a == [] {
      assert a + b == b;
    } else {
      assert (a + b)[0] == a[0];
      assert (a + b)[1..] == a[1..] + b;
      LinesAppend(a[1..], b);
    }
  }

  /** The reply to a listing: the lines of the names, then one blank line,
      which is sent whatever happened; a listing that failed is only that
      blank line. Every reply ends in the blank line, and a failed listing
      is indistinguishable on the wire from an empty directory. */
  function ListingReply(names: Option<seq<Bytes>>): (r: Bytes)
    ensures |r| >= 2 && r[|r| - 2] == CR && r[|r| - 1] == LF
    ensures r == CRLF <==> names.None? || names.value == []
  {
    (if names.Some? then Lines(names.value) else []) + CRLF
  }

  /** The reply to a working-directory query: the path with no framing, or
      nothing at all, so a client cannot tell a failed query from an empty
      path. */
  function WdReply(wd: Option<Bytes>): (r: Bytes)
    ensures wd.Some? ==> r == wd.value
    ensures r == [] <==> wd.None? || wd.value == []
  {
    if wd.Some? then wd.value else []
  }

  // A client's reading of a listing reply, the partner of ListingReply.

  datatype Line = Line(line: Bytes, rest: Bytes)

  /** Splits off the bytes before the first CR-LF. */
  function ReadLine(b: Bytes): (r: Option<Line>)
    ensures r.Some? ==> b == r.value.line + CRLF + r.value.rest
    ensures r.None? ==> forall i | 0 <= i < |b| - 1 :: !(b[i] == CR && b[i + 1] == LF)
  {
    if |b| < 2 then None
    else if b[0] == CR && b[1] == LF then Some(Line([], b[2..]))
    else match ReadLine(b[1..])
      case None => None
      case Some(l) => Some(Line([b[0]] + l.line, l.rest))
  }

  datatype Listing = Listing(names: seq<Bytes>, rest: Bytes)

  /** Reads lines up to and including the first blank one. */
  function ReadListing(b: Bytes): (r: Option<Listing>)
    ensures r.Some? ==> b == Lines(r.value.names) + CRLF + r.value.rest
    ensures r.Some? ==> forall n | n in r.value.names :: n != []
    decreases |b|
  {
    match ReadLine(b)
    case None => None
    case Some(l) =>
      if l.line == [] then Some(Listing([], l.rest))
      else match ReadListing(l.rest)
        case None => None
        case Some(more) => Some(Listing([l.line] + more.names, more.rest))
  }

  /** No CR immediately followed by LF anywhere inside the bytes. */
  predicate NoCrlf(name: Bytes) {
    forall i | 0 <= i < |name| - 1 :: !(name[i] == CR && name[i + 1] == LF)
  }

  /** A name the listing format can carry: not empty (the empty line ends the
      listing) and without a CR-LF pair (which would end its line early). */
  predicate Listable(name: Bytes) {
    name != [] && NoCrlf(name)
  }

  lemma {:induction false} ReadLineOf(name: Bytes, rest: Bytes)
    requires NoCrlf(name)
    ensures ReadLine(name + CRLF + rest) == Some(Line(name, rest))
  {
    var b := name + CRLF + rest;
    if name == [] {
      assert b == CRLF + rest;
      assert b[2..] == rest;
    } else {
      assert b[0] == name[0];
      if |name| >= 2 {
        assert b[1] == name[1];
        assert !(name[0] == CR && name[1] == LF);
      } else {
        assert b[1] == CR;
      }
      assert b[1..] == name[1..] + CRLF + rest;
      assert NoCrlf(name[1..]) by {
        forall i | 0 <= i < |name[1..]| - 1
          ensures !(name[1..][i] == CR && name[1..][i + 1] == LF)
        {
          assert name[1..][i] == name[i + 1] && name[1..][i + 1] == name[i + 2];
        }
      }
      ReadLineOf(name[1..], rest);
      assert [name[0]] + name[1..] == name;
    }
  }

  /** A client that reads lines up to the first blank one gets back exactly
      the names that were listed, and stops at the end of the reply. */
  lemma {:induction false} ListingRoundTrip(names: seq<Bytes>, rest: Bytes)
    requires forall n | n in names :: Listable(n)
    ensures ReadListing(ListingReply(Some(names)) + rest) == Some(Listing(names, rest))
  {
    if names == [] {
      assert ListingReply(Some(names)) + rest == [] + CRLF + rest;
      ReadLineOf([], rest);
    } else {
      var tail := Lines(names[1..]) + CRLF + rest;
      assert ListingReply(Some(names)) + rest == names[0] + CRLF + tail;
      assert names[0] in names;
      ReadLineOf(names[0], tail);
      assert forall n | n in names[1..] :: n in names;
      ListingRoundTrip(names[1..], rest);
      assert ListingReply(Some(names[1..])) + rest == tail;
      assert [names[0]] + names[1..] == names;
    }
  }

  /** A name holding a CR-LF pair, which file systems allow, cannot be
      carried: the client reads it back as two entries. */
  lemma CrlfInNameSplitsEntry(a: Bytes, b: Bytes)
    requires Listable(a) && Listable(b)
    ensures ReadListing(ListingReply(Some([a + CRLF + b]))) == Some(Listing([a, b], []))
  {
    assert [a, b][1..] == [b] && [b][1..] == [];
    assert Lines([b]) == b + CRLF + [];
    assert Lines([a, b]) == a + CRLF + Lines([b]);
    assert Lines([a + CRLF + b]) == a + CRLF + b + CRLF;
    assert ListingReply(Some([a + CRLF + b])) == ListingReply(Some([a, b])) + [];
    ListingRoundTrip([a, b], []);
  }

  /** A listing that failed reads, on the client's side, exactly as an empty
      directory. */
  lemma FailedListingReadsEmpty(rest: Bytes)
    ensures ReadListing(ListingReply(None) + rest) == Some(Listing([], rest))
  {
    ListingRoundTrip([], rest);
  }
}
