/** The command layer of the connection to the brick: system and direct
    command packets with their 16-bit message counter, the checks on the
    replies, and the chunked file download and upload built on system
    commands. The transport is the packets sent so far and the queue of
    packets still to be received. */
module EV3Connections {
  import opened Common
  import opened BinaryBuffer

  // system commands and their status responses
  const BEGIN_DOWNLOAD: byte := 0x92
  const CONTINUE_DOWNLOAD: byte := 0x93
  const BEGIN_UPLOAD: byte := 0x94
  const CONTINUE_UPLOAD: byte := 0x95
  const SUCCESS: byte := 0x00
  const END_OF_FILE: byte := 0x08

  // the command type byte of a request, and the type bytes of its replies
  const DIRECT_COMMAND_REPLY: byte := 0x00
  const SYSTEM_COMMAND_REPLY: byte := 0x01
  const DIRECT_REPLY: byte := 0x02
  const SYSTEM_REPLY: byte := 0x03
  const DIRECT_REPLY_ERROR: byte := 0x04
  const SYSTEM_REPLY_ERROR: byte := 0x05

  /** Payload bytes per file transfer packet. */
  const CHUNKSIZE := 900

  /** Stands for the exception of a transport that has no further packet. */
  const NO_PACKET := "No reply packet available"

  const NO_COUNTER_SYSTEM := "Reply is has no message counter"
  const NO_COUNTER_DIRECT := "Reply has no message counter"
  const WRONG_TYPE := "Reply is not of correct type"
  const REPLY_TOO_SHORT := "Unexpected end of reply"

  // ------------------------------------------------------------ packets

  /** The message counter after messagecounter++ on the 16-bit field. */
  function NextCounter(c: int): (r: int)
    requires 0 <= c < TWO_16
    ensures 0 <= r < TWO_16
    ensures c < TWO_16 - 1 ==> r == c + 1
    ensures c == TWO_16 - 1 ==> r == 0
  {
    (c + 1) % TWO_16
  }

  /** The counter at the head of every packet, low byte first. */
  function CounterBytes(ctr: int): seq<byte>
  {
    [ctr % 256, (ctr / 256) % 256]
  }

  /** The counter a reply carries in its first two bytes. */
  function ReplyCounter(packet: seq<byte>): (c: int)
    requires |packet| >= 2
    ensures 0 <= c < TWO_16
  {
    packet[0] as int + 256 * packet[1] as int
  }

  /** A counter read back from the head of a packet is the counter. */
  lemma CounterRoundTrip(ctr: int, rest: seq<byte>)
    requires 0 <= ctr < TWO_16
    ensures ReplyCounter(CounterBytes(ctr) + rest) == ctr
  {
    var p := CounterBytes(ctr) + rest;
    assert p[0] == ctr % 256 && p[1] == ctr / 256;
  }

  /** SystemCommand's request: counter, SYSTEM_COMMAND_REPLY, the command
      and its arguments; a null argument buffer is the empty sequence. */
  function SystemPacket(ctr: int, command: byte, arguments: seq<byte>): (p: seq<byte>)
    ensures |p| == 4 + |arguments|
    ensures p[2] == SYSTEM_COMMAND_REPLY && p[3] == command && p[4..] == arguments
    ensures 0 <= ctr < TWO_16 ==> ReplyCounter(p) == ctr
  {
    var p := CounterBytes(ctr) + [SYSTEM_COMMAND_REPLY, command] + arguments;
    assert p[4..] == arguments;
    assert 0 <= ctr < TWO_16 ==> ReplyCounter(p) == ctr by {
      if 0 <= ctr < TWO_16 {
        CounterRoundTrip(ctr, p[2..]);
        assert p == CounterBytes(ctr) + p[2..];
      }
    }
    p
  }

  /** The two header bytes of a direct command: the low byte of the global
      size, then its bits 8 and 9 plus the local size shifted by two, cut
      to a byte. */
  function DirectHeader(globalbytes: int, localbytes: int): seq<byte>
  {
    [LowByte(globalbytes), LowByte((globalbytes / 256) % 4 + localbytes * 4)]
  }

  /** DirectCommand's request: counter, DIRECT_COMMAND_REPLY, the header
      and the byte codes. */
  function DirectPacket(ctr: int, globalbytes: int, localbytes: int, bytecodes: seq<byte>): (p: seq<byte>)
    ensures |p| == 5 + |bytecodes|
    ensures p[2] == DIRECT_COMMAND_REPLY && p[3..5] == DirectHeader(globalbytes, localbytes) && p[5..] == bytecodes
  {
    var p := CounterBytes(ctr) + [DIRECT_COMMAND_REPLY] + DirectHeader(globalbytes, localbytes) + bytecodes;
    assert p[3..5] == DirectHeader(globalbytes, localbytes) && p[5..] == bytecodes;
    p
  }

  /** The header of a direct packet decodes back to the counter and to the
      sizes, as long as they fit their 10 and 6 bits. */
  lemma DirectHeaderDecodes(ctr: int, globalbytes: int, localbytes: int, bytecodes: seq<byte>)
    requires 0 <= ctr < TWO_16 && 0 <= globalbytes < 1024 && 0 <= localbytes < 64
    ensures var p := DirectPacket(ctr, globalbytes, localbytes, bytecodes);
            ReplyCounter(p) == ctr
            && p[3] as int + 256 * (p[4] as int % 4) == globalbytes
            && p[4] as int / 4 == localbytes
  {
    var p := DirectPacket(ctr, globalbytes, localbytes, bytecodes);
    CounterRoundTrip(ctr, p[2..]);
    assert p == CounterBytes(ctr) + p[2..];
    var hi := globalbytes / 256;
    assert 0 <= hi < 4 && globalbytes == 256 * hi + globalbytes % 256;
    var h := hi % 4 + localbytes * 4;
    assert hi % 4 == hi;
    assert 0 <= h < 256;
    assert p[3] == globalbytes % 256 && p[4] == h;
    ModUnique(h, 4, localbytes, hi);
  }

  // ------------------------------------------------------------ replies

  /** What the receive loop does with one packet: skip it, fail with the
      exception's message, return null, or return the reply's data. */
  datatype Reply = Skipped | Failed(msg: string) | Null | Data(bytes: seq<byte>)

  /** The command a reply is awaited for. */
  datatype Request = System | Direct(globalbytes: int)

  /** The checks of the receive loops of SystemCommand and DirectCommand
      on one packet, for the request with counter ctr. */
  function Check(req: Request, packet: seq<byte>, ctr: int): (r: Reply)
    ensures r.Skipped? <==> |packet| >= 3 && ReplyCounter(packet) != ctr
    ensures req.System? ==>
              (r.Data? <==> |packet| >= 5 && ReplyCounter(packet) == ctr && packet[2] in {SYSTEM_REPLY, SYSTEM_REPLY_ERROR})
              && (r.Data? ==> r.bytes == packet[4..]) && !r.Null?
    ensures req.Direct? ==>
              (r.Null? <==> |packet| >= 3 && ReplyCounter(packet) == ctr && packet[2] == DIRECT_REPLY_ERROR)
              && (r.Data? <==> |packet| >= 3 && ReplyCounter(packet) == ctr && packet[2] == DIRECT_REPLY
                               && |packet| == req.globalbytes + 3)
              && (r.Data? ==> r.bytes == packet[3..])
  {
    if |packet| < 3 then Failed(if req.System? then NO_COUNTER_SYSTEM else NO_COUNTER_DIRECT)
    else if ReplyCounter(packet) != ctr then Skipped
    else match req
      case System =>
        if packet[2] != SYSTEM_REPLY && packet[2] != SYSTEM_REPLY_ERROR then Failed(WRONG_TYPE)
        else if |packet| < 5 then Failed(REPLY_TOO_SHORT)
        else Data(packet[4..])
      case Direct(gb) =>
        if packet[2] == DIRECT_REPLY_ERROR then Null
        else if packet[2] != DIRECT_REPLY then Failed(WRONG_TYPE)
        else if |packet| != gb + 3 then Failed(SizeMessage(|packet|, gb + 3))
        else Data(packet[3..])
  }

  function SizeMessage(got: int, expected: int): string
  {
    "Reply size unexpected: " + IntToString(got) + " instead of " + IntToString(expected)
  }

  /** The receive loop over the queue of incoming packets: its outcome
      (Ok(None) for a null reply) and how many packets it consumed. */
  function Await(req: Request, packets: seq<seq<byte>>, ctr: int): (r: (Result<Option<seq<byte>>>, nat))
    ensures 1 <= r.1 <= |packets| || (packets == [] && r.1 == 0)
    ensures req.System? && r.0.Ok? ==> r.0.value.Some?
    decreases |packets|
  {
    if packets == [] then (Err(NO_PACKET), 0)
    else match Check(req, packets[0], ctr)
      case Skipped =>
        var rest := Await(req, packets[1..], ctr);
        (rest.0, rest.1 + 1)
      case Failed(m) => (Err(m), 1)
      case Null => (Ok(None), 1)
      case Data(d) => (Ok(Some(d)), 1)
  }

  /** Replies carrying other counters in front of the awaited one are
      skipped: the outcome is that of the first packet with the counter. */
  lemma {:induction false} AwaitSkips(req: Request, stale: seq<seq<byte>>, packets: seq<seq<byte>>, ctr: int)
    requires forall i :: 0 <= i < |stale| ==> |stale[i]| >= 3 && ReplyCounter(stale[i]) != ctr
    ensures Await(req, stale + packets, ctr).0 == Await(req, packets, ctr).0
    ensures Await(req, stale + packets, ctr).1 == |stale| + Await(req, packets, ctr).1
    decreases |stale|
  {
    if stale == [] {
      assert stale + packets == packets;
    } else {
      assert (stale + packets)[1..] == stale[1..] + packets;
      AwaitSkips(req, stale[1..], packets, ctr);
      assert (stale + packets)[0] == stale[0];
      assert Check(req, (stale + packets)[0], ctr).Skipped?;
      var rest := Await(req, stale[1..] + packets, ctr);
      assert Await(req, stale + packets, ctr) == (rest.0, rest.1 + 1);
    }
  }

  /** The brick's reply to a system command, status first, is handed back
      whole, after any stale replies. */
  lemma SystemReplyAccepted(stale: seq<seq<byte>>, ctr: int, command: byte, status: byte, data: seq<byte>, later: seq<seq<byte>>)
    requires 0 <= ctr < TWO_16
    requires forall i :: 0 <= i < |stale| ==> |stale[i]| >= 3 && ReplyCounter(stale[i]) != ctr
    ensures var reply := CounterBytes(ctr) + [SYSTEM_REPLY, command, status] + data;
            Await(System, stale + [reply] + later, ctr) == (Ok(Some([status] + data)), |stale| + 1)
  {
    var reply := CounterBytes(ctr) + [SYSTEM_REPLY, command, status] + data;
    assert stale + [reply] + later == stale + ([reply] + later);
    AwaitSkips(System, stale, [reply] + later, ctr);
    CounterRoundTrip(ctr, reply[2..]);
    assert reply == CounterBytes(ctr) + reply[2..];
    assert reply[4..] == [status] + data;
  }

  // ---------------------------------------------------- status checks

  /** A reply that passes: long enough, and with status SUCCESS or
      END_OF_FILE; any other status throws. */
  predicate StatusOk(response: seq<byte>, minlength: int)
  {
    |response| >= minlength && |response| >= 1 && response[0] in {SUCCESS, END_OF_FILE}
  }

  /** The check CreateEV3File and ReadEV3File make on each system reply. */
  function CheckStatus(response: seq<byte>, minlength: int, operation: string): (r: Result<()>)
    ensures r.Ok? <==> StatusOk(response, minlength)
  {
    if |response| < minlength || |response| == 0 then Err("Response too short for " + operation)
    else if response[0] != SUCCESS && response[0] != END_OF_FILE then
      Err("Unexpected status at " + operation + ": " + IntToString(response[0]))
    else Ok(())
  }

  // ------------------------------------------------------ file download

  /** The chunks CreateEV3File sends: the first shares the packet with the
      file name, the later ones are full chunks but for the last. */
  function DownloadChunks(namelength: nat, content: seq<byte>): seq<seq<byte>>
    requires namelength <= CHUNKSIZE
  {
    var first := Min(|content|, CHUNKSIZE - namelength);
    [content[..first]] + ContinueChunks(content, first)
  }

  function ContinueChunks(content: seq<byte>, pos: nat): seq<seq<byte>>
    requires pos <= |content|
    decreases |content| - pos
  {
    if pos == |content| then []
    else
      var n := Min(|content| - pos, CHUNKSIZE);
      [content[pos..pos + n]] + ContinueChunks(content, pos + n)
  }

  function Concat(chunks: seq<seq<byte>>): seq<byte>
  {
    if chunks == [] then [] else chunks[0] + Concat(chunks[1..])
  }

  lemma {:induction false} ContinueChunksCover(content: seq<byte>, pos: nat)
    requires pos <= |content|
    ensures Concat(ContinueChunks(content, pos)) == content[pos..]
    ensures forall i :: 0 <= i < |ContinueChunks(content, pos)| ==> 1 <= |ContinueChunks(content, pos)[i]| <= CHUNKSIZE
    decreases |content| - pos
  {
    if pos < |content| {
      var n := Min(|content| - pos, CHUNKSIZE);
      ContinueChunksCover(content, pos + n);
      var cs := ContinueChunks(content, pos);
      assert cs[1..] == ContinueChunks(content, pos + n);
      assert content[pos..] == content[pos..pos + n] + content[pos + n..];
    }
  }

  /** The chunks of a download put together are exactly the content; the
      first holds min(length, 900 - name length) bytes, every later one
      between 1 and 900. */
  lemma DownloadChunksCover(namelength: nat, content: seq<byte>)
    requires namelength <= CHUNKSIZE
    ensures Concat(DownloadChunks(namelength, content)) == content
    ensures |DownloadChunks(namelength, content)[0]| == Min(|content|, CHUNKSIZE - namelength)
    ensures forall i :: 1 <= i < |DownloadChunks(namelength, content)| ==> 1 <= |DownloadChunks(namelength, content)[i]| <= CHUNKSIZE
  {
    var first := Min(|content|, CHUNKSIZE - namelength);
    var cs := DownloadChunks(namelength, content);
    ContinueChunksCover(content, first);
    assert cs[1..] == ContinueChunks(content, first);
    assert content == content[..first] + content[first..];
  }

  /** The arguments of BEGIN_DOWNLOAD: the length, the zero-terminated
      name, then the first chunk. */
  function BeginDownloadArguments(name: string, length: int, first: seq<byte>): seq<byte>
  {
    LowBytes(length, 4) + TextBytes(name) + [0] + first
  }

  /** A CONTINUE_DOWNLOAD request carrying one chunk for the handle. */
  ghost predicate ContinuePacket(p: seq<byte>, handle: byte, chunk: seq<byte>)
  {
    |p| >= 5 && p[2] == SYSTEM_COMMAND_REPLY && p[3] == CONTINUE_DOWNLOAD && p[4] == handle && p[5..] == chunk
  }

  /** The packets of CONTINUE_DOWNLOAD requests, one per chunk, all for
      the same handle. */
  ghost predicate ContinuePackets(packets: seq<seq<byte>>, handle: byte, chunks: seq<seq<byte>>)
  {
    |packets| == |chunks|
    && forall i :: 0 <= i < |packets| ==> ContinuePacket(packets[i], handle, chunks[i])
  }

  /** A BEGIN_DOWNLOAD request for the file with its first chunk. */
  ghost predicate BeginPacket(p: seq<byte>, name: string, length: int, first: seq<byte>)
  {
    |p| >= 4 && p[2] == SYSTEM_COMMAND_REPLY && p[3] == BEGIN_DOWNLOAD
    && p[4..] == BeginDownloadArguments(name, length, first)
  }

  /** The packets of a complete download of content under name, the
      later ones for the handle the brick returned. */
  ghost predicate Downloaded(packets: seq<seq<byte>>, name: string, content: seq<byte>, handle: byte)
  {
    |name| <= CHUNKSIZE
    && var chunks := DownloadChunks(|name|, content);
       |packets| >= 1 && BeginPacket(packets[0], name, |content|, chunks[0])
       && ContinuePackets(packets[1..], handle, chunks[1..])
  }

  // ------------------------------------------------------- file upload

  /** The sizes ReadEV3File asks for, min(length - pos, 900) each. */
  function UploadSizes(length: int, pos: int): (r: seq<int>)
    decreases length - pos
  {
    if pos >= length then []
    else
      var n := Min(length - pos, CHUNKSIZE);
      [n] + UploadSizes(length, pos + n)
  }

  function Sum(xs: seq<int>): int
  {
    if xs == [] then 0 else xs[0] + Sum(xs[1..])
  }

  /** The requested sizes add up to the length, and each is 1 to 900. */
  lemma {:induction false} UploadSizesCover(length: int, pos: int)
    requires pos <= length
    ensures Sum(UploadSizes(length, pos)) == length - pos
    ensures forall i :: 0 <= i < |UploadSizes(length, pos)| ==> 1 <= UploadSizes(length, pos)[i] <= CHUNKSIZE
    decreases length - pos
  {
    if pos < length {
      var n := Min(length - pos, CHUNKSIZE);
      UploadSizesCover(length, pos + n);
      assert UploadSizes(length, pos)[1..] == UploadSizes(length, pos + n);
    }
  }

  /** Each reply holds the bytes requested from it after its status and
      handle. */
  ghost predicate UploadFits(replies: seq<seq<byte>>, sizes: seq<int>)
  {
    |replies| == |sizes| && forall i :: 0 <= i < |replies| ==> 0 <= sizes[i] && 2 + sizes[i] <= |replies[i]|
  }

  /** The file's bytes as the CONTINUE_UPLOAD replies deliver them: from
      each reply, the requested number of bytes after the two status and
      handle bytes. */
  function Uploaded(replies: seq<seq<byte>>, sizes: seq<int>): seq<byte>
    requires UploadFits(replies, sizes)
  {
    if replies == [] then []
    else replies[0][2..2 + sizes[0]] + Uploaded(replies[1..], sizes[1..])
  }

  lemma {:induction false} UploadedLength(replies: seq<seq<byte>>, sizes: seq<int>)
    requires UploadFits(replies, sizes)
    ensures |Uploaded(replies, sizes)| == Sum(sizes)
    decreases |replies|
  {
    if replies != [] {
      UploadedLength(replies[1..], sizes[1..]);
    }
  }

  /** The length BEGIN_UPLOAD reports in bytes 1 to 4, as the int the
      source composes with shifts. */
  function ReportedLength(response: seq<byte>): (n: int)
    requires |response| >= 5
    ensures IsInt32(n)
    ensures response[4] < 128 ==> n == LittleEndian(response[1..5])
    ensures response[4] >= 128 ==> n < 0
  {
    LittleEndian4(response[1..5]);
    Wrap32(LittleEndian(response[1..5]))
  }

  /** A BEGIN_UPLOAD request for the file: no content now, then the
      zero-terminated name. */
  ghost predicate BeginUploadPacket(p: seq<byte>, name: string)
  {
    |p| >= 4 && p[2] == SYSTEM_COMMAND_REPLY && p[3] == BEGIN_UPLOAD
    && p[4..] == LowBytes(0, 2) + TextBytes(name) + [0]
  }

  /** A CONTINUE_UPLOAD request for n bytes of the file behind the handle. */
  ghost predicate UploadRequest(p: seq<byte>, handle: byte, n: int)
  {
    |p| >= 4 && p[2] == SYSTEM_COMMAND_REPLY && p[3] == CONTINUE_UPLOAD && p[4..] == [handle] + LowBytes(n, 2)
  }

  /** CONTINUE_UPLOAD requests, one per size, all for the same handle. */
  ghost predicate UploadRequests(packets: seq<seq<byte>>, handle: byte, sizes: seq<int>)
  {
    |packets| == |sizes|
    && forall i :: 0 <= i < |packets| ==> UploadRequest(packets[i], handle, sizes[i])
  }

  /** The packets of a complete upload of a file of the given length. */
  ghost predicate UploadPackets(packets: seq<seq<byte>>, name: string, handle: byte, length: int)
  {
    |packets| >= 1 && BeginUploadPacket(packets[0], name)
    && UploadRequests(packets[1..], handle, UploadSizes(length, 0))
  }

  // --------------------------------------------------------- the link

  /** The connection as the file transfers see it: the message counter,
      the packets sent so far, the packets still to be received, and the
      data of every system reply returned so far. */
  datatype Link = Link(counter: int, sent: seq<seq<byte>>, incoming: seq<seq<byte>>, replies: seq<seq<byte>>)

  /** SystemCommand on the link: the request goes out with the next
      counter, the receive loop consumes the packets up to the awaited
      reply, and that reply's data is the answer. */
  function Exchange(l: Link, command: byte, arguments: seq<byte>): (r: (Link, Result<seq<byte>>))
    requires 0 <= l.counter < TWO_16
    ensures 0 <= r.0.counter < TWO_16
  {
    var c := NextCounter(l.counter);
    var a := Await(System, l.incoming, c);
    var sent := l.sent + [SystemPacket(c, command, arguments)];
    if a.0.Ok? then (Link(c, sent, l.incoming[a.1..], l.replies + [a.0.value.value]), Ok(a.0.value.value))
    else (Link(c, sent, l.incoming[a.1..], l.replies), Err(a.0.msg))
  }

  /** The first chunk of a download: nothing when its size is not
      positive. */
  function FirstChunk(content: seq<byte>, first: int): seq<byte>
    requires first <= |content|
  {
    if first > 0 then content[..first] else []
  }

  /** The BEGIN_DOWNLOAD step of CreateEV3File (BeginDownloadReply). */
  function BeginDownloadOn(l: Link, name: string, content: seq<byte>, first: int): (r: (Link, Result<byte>))
    requires 0 <= l.counter < TWO_16 && first <= |content|
    ensures 0 <= r.0.counter < TWO_16
  {
    var e := Exchange(l, BEGIN_DOWNLOAD, BeginDownloadArguments(name, |content|, FirstChunk(content, first)));
    if e.1.Err? then (e.0, Err(e.1.msg))
    else match CheckStatus(e.1.value, 2, "BEGIN_DOWNLOAD")
      case Err(m) => (e.0, Err(m))
      case Ok(_) => (e.0, Ok(e.1.value[1]))
  }

  /** One CONTINUE_DOWNLOAD step of CreateEV3File (ContinueDownloadReply). */
  function ContinueDownloadOn(l: Link, handle: byte, chunk: seq<byte>): (r: (Link, Result<()>))
    requires 0 <= l.counter < TWO_16
    ensures 0 <= r.0.counter < TWO_16
  {
    var e := Exchange(l, CONTINUE_DOWNLOAD, [handle] + chunk);
    if e.1.Err? then (e.0, Err(e.1.msg)) else (e.0, CheckStatus(e.1.value, 2, "CONTINUE_DOWNLOAD"))
  }

  /** The loop of CreateEV3File from pos on: a CONTINUE_DOWNLOAD per chunk
      of up to 900 bytes, up to the first failure. */
  function DownloadFrom(l: Link, handle: byte, content: seq<byte>, pos: nat): (r: (Link, Result<()>))
    requires 0 <= l.counter < TWO_16 && pos <= |content|
    ensures 0 <= r.0.counter < TWO_16
    decreases |content| - pos
  {
    if pos == |content| then (l, Ok(()))
    else
      var n := Min(|content| - pos, CHUNKSIZE);
      var s := ContinueDownloadOn(l, handle, content[pos..pos + n]);
      if s.1.Err? then s else DownloadFrom(s.0, handle, content, pos + n)
  }

  /** CreateEV3File on the link: BEGIN_DOWNLOAD with as much of the
      content as fits beside the name, then the loop. A name longer than a
      chunk fails. */
  function CreateOn(l: Link, name: string, content: seq<byte>): (r: (Link, Result<()>))
    requires 0 <= l.counter < TWO_16
    ensures 0 <= r.0.counter < TWO_16
    ensures |name| > CHUNKSIZE ==> r.1.Err?
  {
    var first := Min(|content|, CHUNKSIZE - |name|);
    var b := BeginDownloadOn(l, name, content, first);
    if b.1.Err? then (b.0, Err(b.1.msg))
    // the loop's first AppendBytes reads content[pos] with pos < 0
    else if first < 0 then (b.0, Err(ARRAY_INDEX_OUTSIDE))
    else DownloadFrom(b.0, b.1.value, content, first)
  }

  /** The BEGIN_UPLOAD step of ReadEV3File (BeginUploadReply). */
  function BeginUploadOn(l: Link, name: string): (r: (Link, Result<(int, byte)>))
    requires 0 <= l.counter < TWO_16
    ensures 0 <= r.0.counter < TWO_16
  {
    var e := Exchange(l, BEGIN_UPLOAD, LowBytes(0, 2) + TextBytes(name) + [0]);
    if e.1.Err? then (e.0, Err(e.1.msg))
    else match CheckStatus(e.1.value, 6, "BEGIN_UPLOAD")
      case Err(m) => (e.0, Err(m))
      case Ok(_) => (e.0, Ok((ReportedLength(e.1.value), e.1.value[5])))
  }

  /** One CONTINUE_UPLOAD step of ReadEV3File: the n bytes the reply
      carries after its status and handle (ContinueUploadReply). */
  function ContinueUploadOn(l: Link, handle: byte, n: nat): (r: (Link, Result<seq<byte>>))
    requires 0 <= l.counter < TWO_16
    ensures 0 <= r.0.counter < TWO_16
    ensures r.1.Ok? ==> |r.1.value| == n
  {
    var e := Exchange(l, CONTINUE_UPLOAD, [handle] + LowBytes(n, 2));
    if e.1.Err? then (e.0, Err(e.1.msg))
    else match CheckStatus(e.1.value, 2 + n, "CONTINUE_UPLOAD")
      case Err(m) => (e.0, Err(m))
      case Ok(_) => (e.0, Ok(e.1.value[2..2 + n]))
  }

  /** The loop of ReadEV3File from pos on, with the bytes got so far: a
      CONTINUE_UPLOAD for min(length - pos, 900) bytes at a time, up to the
      first failure. */
  function UploadFrom(l: Link, handle: byte, length: int, pos: int, got: seq<byte>): (r: (Link, Result<seq<byte>>))
    requires 0 <= l.counter < TWO_16
    ensures 0 <= r.0.counter < TWO_16
    decreases length - pos
  {
    if pos >= length then (l, Ok(got))
    else
      var n := Min(length - pos, CHUNKSIZE);
      var s := ContinueUploadOn(l, handle, n);
      if s.1.Err? then (s.0, Err(s.1.msg)) else UploadFrom(s.0, handle, length, pos + n, got + s.1.value)
  }

  /** ReadEV3File on the link: BEGIN_UPLOAD, then the loop over the
      reported length; a negative length fails as new byte[len] does. */
  function ReadOn(l: Link, name: string): (r: (Link, Result<seq<byte>>))
    requires 0 <= l.counter < TWO_16
    ensures 0 <= r.0.counter < TWO_16
  {
    var b := BeginUploadOn(l, name);
    if b.1.Err? then (b.0, Err(b.1.msg))
    else if b.1.value.0 < 0 then (b.0, Err(ARITHMETIC_OVERFLOW))
    else UploadFrom(b.0, b.1.value.1, b.1.value.0, 0, [])
  }

  // ------------------------------------------- what the steps send and read

  /** BEGIN_DOWNLOAD sends the length, the name and the first chunk with
      the next counter; it succeeds exactly when the awaited reply arrives
      and passes the status check, and the handle is that reply's second
      byte. */
  lemma BeginDownloadReply(l: Link, name: string, content: seq<byte>, first: int)
    requires 0 <= l.counter < TWO_16 && first <= |content|
    ensures var s := BeginDownloadOn(l, name, content, first);
            var a := Await(System, l.incoming, NextCounter(l.counter));
            && s.0.counter == NextCounter(l.counter)
            && |s.0.sent| == |l.sent| + 1 && l.sent <= s.0.sent
            && BeginPacket(s.0.sent[|l.sent|], name, |content|, FirstChunk(content, first))
            && s.0.incoming == l.incoming[a.1..]
            && (s.0.replies == if a.0.Ok? then l.replies + [a.0.value.value] else l.replies)
            && (s.1.Ok? <==> a.0.Ok? && StatusOk(a.0.value.value, 2))
            && (s.1.Ok? ==> s.1.value == a.0.value.value[1])
  {
    var e := Exchange(l, BEGIN_DOWNLOAD, BeginDownloadArguments(name, |content|, FirstChunk(content, first)));
    assert e.0.sent[|l.sent|] == SystemPacket(e.0.counter, BEGIN_DOWNLOAD, BeginDownloadArguments(name, |content|, FirstChunk(content, first)));
  }

  /** CONTINUE_DOWNLOAD sends the handle and the chunk with the next
      counter, and succeeds exactly when the awaited reply arrives and
      passes the status check. */
  lemma ContinueDownloadReply(l: Link, handle: byte, chunk: seq<byte>)
    requires 0 <= l.counter < TWO_16
    ensures var s := ContinueDownloadOn(l, handle, chunk);
            var a := Await(System, l.incoming, NextCounter(l.counter));
            && s.0.counter == NextCounter(l.counter)
            && |s.0.sent| == |l.sent| + 1 && l.sent <= s.0.sent
            && ContinuePacket(s.0.sent[|l.sent|], handle, chunk)
            && s.0.incoming == l.incoming[a.1..]
            && (s.0.replies == if a.0.Ok? then l.replies + [a.0.value.value] else l.replies)
            && (s.1.Ok? <==> a.0.Ok? && StatusOk(a.0.value.value, 2))
  {
    var e := Exchange(l, CONTINUE_DOWNLOAD, [handle] + chunk);
    var p := e.0.sent[|l.sent|];
    assert p == SystemPacket(e.0.counter, CONTINUE_DOWNLOAD, [handle] + chunk);
    assert p[4..][1..] == p[5..];
  }

  /** BEGIN_UPLOAD sends the name with the next counter; it succeeds
      exactly when the awaited reply arrives and passes the status check
      with six bytes, and then gives the length in bytes 1 to 4 and the
      handle in byte 5. */
  lemma BeginUploadReply(l: Link, name: string)
    requires 0 <= l.counter < TWO_16
    ensures var s := BeginUploadOn(l, name);
            var a := Await(System, l.incoming, NextCounter(l.counter));
            && s.0.counter == NextCounter(l.counter)
            && |s.0.sent| == |l.sent| + 1 && l.sent <= s.0.sent
            && BeginUploadPacket(s.0.sent[|l.sent|], name)
            && s.0.incoming == l.incoming[a.1..]
            && (s.0.replies == if a.0.Ok? then l.replies + [a.0.value.value] else l.replies)
            && (s.1.Ok? <==> a.0.Ok? && StatusOk(a.0.value.value, 6))
            && (s.1.Ok? ==> s.1.value == (ReportedLength(a.0.value.value), a.0.value.value[5]))
  {
    var e := Exchange(l, BEGIN_UPLOAD, LowBytes(0, 2) + TextBytes(name) + [0]);
    assert e.0.sent[|l.sent|] == SystemPacket(e.0.counter, BEGIN_UPLOAD, LowBytes(0, 2) + TextBytes(name) + [0]);
  }

  /** CONTINUE_UPLOAD asks for n bytes of the handle's file with the next
      counter; it succeeds exactly when the awaited reply arrives, passes
      the status check and holds the n bytes, which it gives. */
  lemma ContinueUploadReply(l: Link, handle: byte, n: nat)
    requires 0 <= l.counter < TWO_16
    ensures var s := ContinueUploadOn(l, handle, n);
            var a := Await(System, l.incoming, NextCounter(l.counter));
            && s.0.counter == NextCounter(l.counter)
            && |s.0.sent| == |l.sent| + 1 && l.sent <= s.0.sent
            && UploadRequest(s.0.sent[|l.sent|], handle, n)
            && s.0.incoming == l.incoming[a.1..]
            && (s.0.replies == if a.0.Ok? then l.replies + [a.0.value.value] else l.replies)
            && (s.1.Ok? <==> a.0.Ok? && StatusOk(a.0.value.value, 2 + n))
            && (s.1.Ok? ==> s.1.value == a.0.value.value[2..2 + n])
  {
    var e := Exchange(l, CONTINUE_UPLOAD, [handle] + LowBytes(n, 2));
    assert e.0.sent[|l.sent|] == SystemPacket(e.0.counter, CONTINUE_UPLOAD, [handle] + LowBytes(n, 2));
  }

  // --------------------------------------------------- whole transfers

  /** The download loop only appends to what was sent and to the
      replies. */
  lemma {:induction false} DownloadFromGrows(l: Link, handle: byte, content: seq<byte>, pos: nat)
    requires 0 <= l.counter < TWO_16 && pos <= |content|
    ensures var s := DownloadFrom(l, handle, content, pos);
            l.sent <= s.0.sent && l.replies <= s.0.replies
    decreases |content| - pos
  {
    if pos < |content| {
      var n := Min(|content| - pos, CHUNKSIZE);
      ContinueDownloadReply(l, handle, content[pos..pos + n]);
      var s1 := ContinueDownloadOn(l, handle, content[pos..pos + n]);
      if s1.1.Ok? {
        DownloadFromGrows(s1.0, handle, content, pos + n);
      }
    }
  }

  /** On success the download loop has sent one CONTINUE_DOWNLOAD per
      remaining chunk. */
  lemma {:induction false} DownloadFromSends(l: Link, handle: byte, content: seq<byte>, pos: nat)
    requires 0 <= l.counter < TWO_16 && pos <= |content|
    ensures var s := DownloadFrom(l, handle, content, pos);
            l.sent <= s.0.sent
            && (s.1.Ok? ==> ContinuePackets(s.0.sent[|l.sent|..], handle, ContinueChunks(content, pos)))
    decreases |content| - pos
  {
    DownloadFromGrows(l, handle, content, pos);
    if pos < |content| {
      var n := Min(|content| - pos, CHUNKSIZE);
      var chunk := content[pos..pos + n];
      var s1 := ContinueDownloadOn(l, handle, chunk);
      ContinueDownloadReply(l, handle, chunk);
      if s1.1.Ok? {
        DownloadFromSends(s1.0, handle, content, pos + n);
        var s := DownloadFrom(s1.0, handle, content, pos + n);
        if s.1.Ok? {
          ConsPackets(l.sent, s1.0.sent, s.0.sent, handle, chunk, ContinueChunks(content, pos + n));
          assert ContinueChunks(content, pos) == [chunk] + ContinueChunks(content, pos + n);
        }
      }
    }
  }

  /** On success every reply the download loop accepted passes the status
      check. */
  lemma {:induction false} DownloadFromStatuses(l: Link, handle: byte, content: seq<byte>, pos: nat)
    requires 0 <= l.counter < TWO_16 && pos <= |content|
    ensures var s := DownloadFrom(l, handle, content, pos);
            l.replies <= s.0.replies
            && (s.1.Ok? ==> forall i :: |l.replies| <= i < |s.0.replies| ==> StatusOk(s.0.replies[i], 2))
    decreases |content| - pos
  {
    DownloadFromGrows(l, handle, content, pos);
    if pos < |content| {
      var n := Min(|content| - pos, CHUNKSIZE);
      var chunk := content[pos..pos + n];
      var s1 := ContinueDownloadOn(l, handle, chunk);
      ContinueDownloadReply(l, handle, chunk);
      if s1.1.Ok? {
        DownloadFromStatuses(s1.0, handle, content, pos + n);
        var s := DownloadFrom(s1.0, handle, content, pos + n);
        if s.1.Ok? {
          ConsStatuses(l.replies, s1.0.replies, s.0.replies, 2, 2);
        }
      }
    }
  }

  /** A request in front of the later CONTINUE_DOWNLOAD requests. */
  lemma ConsPackets(a: seq<seq<byte>>, b: seq<seq<byte>>, c: seq<seq<byte>>, handle: byte, chunk: seq<byte>, chunks: seq<seq<byte>>)
    requires |b| == |a| + 1 && a <= b && b <= c
    requires ContinuePacket(b[|a|], handle, chunk) && ContinuePackets(c[|b|..], handle, chunks)
    ensures a <= c && ContinuePackets(c[|a|..], handle, [chunk] + chunks)
  {
    assert c[|a|..] == [b[|a|]] + c[|b|..];
  }

  /** A request in front of the later CONTINUE_UPLOAD requests. */
  lemma ConsRequests(a: seq<seq<byte>>, b: seq<seq<byte>>, c: seq<seq<byte>>, handle: byte, n: int, sizes: seq<int>)
    requires |b| == |a| + 1 && a <= b && b <= c
    requires UploadRequest(b[|a|], handle, n) && UploadRequests(c[|b|..], handle, sizes)
    ensures a <= c && UploadRequests(c[|a|..], handle, [n] + sizes)
  {
    assert c[|a|..] == [b[|a|]] + c[|b|..];
  }

  /** A reply that passes in front of later replies that pass. */
  lemma ConsStatuses(a: seq<seq<byte>>, b: seq<seq<byte>>, c: seq<seq<byte>>, first: int, minlength: int)
    requires |b| == |a| + 1 && a <= b && b <= c && minlength <= first
    requires StatusOk(b[|a|], first)
    requires forall i :: |b| <= i < |c| ==> StatusOk(c[i], minlength)
    ensures a <= c && forall i :: |a| <= i < |c| ==> StatusOk(c[i], minlength)
  {
    assert c[|a|] == b[|a|];
  }

  /** A reply holding n requested bytes in front of later replies. */
  lemma ConsUploaded(a: seq<seq<byte>>, b: seq<seq<byte>>, c: seq<seq<byte>>, n: int, sizes: seq<int>)
    requires |b| == |a| + 1 && a <= b && b <= c && 0 <= n && 2 + n <= |b[|a|]|
    requires UploadFits(c[|b|..], sizes)
    ensures a <= c && UploadFits(c[|a|..], [n] + sizes)
    ensures Uploaded(c[|a|..], [n] + sizes) == b[|a|][2..2 + n] + Uploaded(c[|b|..], sizes)
  {
    var rs := c[|a|..];
    assert rs == [b[|a|]] + c[|b|..];
    assert rs[1..] == c[|b|..] && ([n] + sizes)[1..] == sizes;
  }

  /** On success CreateEV3File has sent a complete download of the content
      under the name, for the handle of the BEGIN_DOWNLOAD reply, and every
      reply passed the status check. */
  lemma CreateDownloaded(l: Link, name: string, content: seq<byte>)
    requires 0 <= l.counter < TWO_16
    ensures var s := CreateOn(l, name, content);
            l.sent <= s.0.sent && l.replies <= s.0.replies
            && (s.1.Ok? ==> |s.0.replies| > |l.replies| && |s.0.replies[|l.replies|]| >= 2
                            && Downloaded(s.0.sent[|l.sent|..], name, content, s.0.replies[|l.replies|][1])
                            && forall i :: |l.replies| <= i < |s.0.replies| ==> StatusOk(s.0.replies[i], 2))
  {
    var first := Min(|content|, CHUNKSIZE - |name|);
    var b := BeginDownloadOn(l, name, content, first);
    BeginDownloadReply(l, name, content, first);
    if b.1.Ok? && first >= 0 {
      var handle := b.1.value;
      DownloadFromSends(b.0, handle, content, first);
      DownloadFromStatuses(b.0, handle, content, first);
      var s := DownloadFrom(b.0, handle, content, first);
      assert s == CreateOn(l, name, content);
      FirstAndRest(l.sent, b.0.sent, s.0.sent);
      FirstAndRest(l.replies, b.0.replies, s.0.replies);
      if s.1.Ok? {
        var chunks := DownloadChunks(|name|, content);
        assert chunks[0] == FirstChunk(content, first);
        assert chunks[1..] == ContinueChunks(content, first);
      }
    }
  }

  /** The upload loop only appends to what was sent and to the replies. */
  lemma {:induction false} UploadFromGrows(l: Link, handle: byte, length: int, pos: int, got: seq<byte>)
    requires 0 <= l.counter < TWO_16
    ensures var s := UploadFrom(l, handle, length, pos, got);
            l.sent <= s.0.sent && l.replies <= s.0.replies
    decreases length - pos
  {
    if pos < length {
      var n := Min(length - pos, CHUNKSIZE);
      var s1 := ContinueUploadOn(l, handle, n);
      ContinueUploadReply(l, handle, n);
      if s1.1.Ok? {
        UploadFromGrows(s1.0, handle, length, pos + n, got + s1.1.value);
      }
    }
  }

  /** On success the upload loop has sent one CONTINUE_UPLOAD per
      requested size. */
  lemma {:induction false} UploadFromRequests(l: Link, handle: byte, length: int, pos: int, got: seq<byte>)
    requires 0 <= l.counter < TWO_16
    ensures var s := UploadFrom(l, handle, length, pos, got);
            l.sent <= s.0.sent
            && (s.1.Ok? ==> UploadRequests(s.0.sent[|l.sent|..], handle, UploadSizes(length, pos)))
    decreases length - pos
  {
    UploadFromGrows(l, handle, length, pos, got);
    if pos < length {
      var n := Min(length - pos, CHUNKSIZE);
      var s1 := ContinueUploadOn(l, handle, n);
      ContinueUploadReply(l, handle, n);
      if s1.1.Ok? {
        UploadFromRequests(s1.0, handle, length, pos + n, got + s1.1.value);
        var s := UploadFrom(s1.0, handle, length, pos + n, got + s1.1.value);
        if s.1.Ok? {
          var rest := UploadSizes(length, pos + n);
          assert UploadSizes(length, pos) == [n] + rest;
          ConsRequests(l.sent, s1.0.sent, s.0.sent, handle, n, rest);
        }
      }
    }
  }

  /** On success every reply the upload loop accepted passes the status
      check. */
  lemma {:induction false} UploadFromStatuses(l: Link, handle: byte, length: int, pos: int, got: seq<byte>)
    requires 0 <= l.counter < TWO_16
    ensures var s := UploadFrom(l, handle, length, pos, got);
            l.replies <= s.0.replies
            && (s.1.Ok? ==> forall i :: |l.replies| <= i < |s.0.replies| ==> StatusOk(s.0.replies[i], 2))
    decreases length - pos
  {
    UploadFromGrows(l, handle, length, pos, got);
    if pos < length {
      var n := Min(length - pos, CHUNKSIZE);
      var s1 := ContinueUploadOn(l, handle, n);
      ContinueUploadReply(l, handle, n);
      if s1.1.Ok? {
        UploadFromStatuses(s1.0, handle, length, pos + n, got + s1.1.value);
        var s := UploadFrom(s1.0, handle, length, pos + n, got + s1.1.value);
        if s.1.Ok? {
          ConsStatuses(l.replies, s1.0.replies, s.0.replies, 2 + n, 2);
        }
      }
    }
  }

  /** On success every reply the upload loop accepted holds the bytes
      asked for. */
  lemma {:induction false} UploadFromFits(l: Link, handle: byte, length: int, pos: int, got: seq<byte>)
    requires 0 <= l.counter < TWO_16
    ensures var s := UploadFrom(l, handle, length, pos, got);
            l.replies <= s.0.replies
            && (s.1.Ok? ==> UploadFits(s.0.replies[|l.replies|..], UploadSizes(length, pos)))
    decreases length - pos
  {
    UploadFromGrows(l, handle, length, pos, got);
    if pos < length {
      var n := Min(length - pos, CHUNKSIZE);
      var s1 := ContinueUploadOn(l, handle, n);
      ContinueUploadReply(l, handle, n);
      if s1.1.Ok? {
        UploadFromFits(s1.0, handle, length, pos + n, got + s1.1.value);
        var s := UploadFrom(s1.0, handle, length, pos + n, got + s1.1.value);
        if s.1.Ok? {
          var rest := UploadSizes(length, pos + n);
          assert UploadSizes(length, pos) == [n] + rest;
          ConsUploaded(l.replies, s1.0.replies, s.0.replies, n, rest);
        }
      }
    }
  }

  /** On success the upload loop's result is the bytes got so far
      followed by those the replies hold. */
  lemma {:induction false} UploadFromReplies(l: Link, handle: byte, length: int, pos: int, got: seq<byte>)
    requires 0 <= l.counter < TWO_16
    ensures var s := UploadFrom(l, handle, length, pos, got);
            l.replies <= s.0.replies
            && (s.1.Ok? ==> var sizes := UploadSizes(length, pos);
                            && UploadFits(s.0.replies[|l.replies|..], sizes)
                            && s.1.value == got + Uploaded(s.0.replies[|l.replies|..], sizes))
    decreases length - pos
  {
    UploadFromFits(l, handle, length, pos, got);
    if pos < length {
      var n := Min(length - pos, CHUNKSIZE);
      var s1 := ContinueUploadOn(l, handle, n);
      ContinueUploadReply(l, handle, n);
      if s1.1.Ok? {
        var chunk := s1.1.value;
        UploadFromReplies(s1.0, handle, length, pos + n, got + chunk);
        var s := UploadFrom(s1.0, handle, length, pos + n, got + chunk);
        if s.1.Ok? {
          var rest := UploadSizes(length, pos + n);
          UploadedCons(l.replies, s1.0.replies, s.0.replies, n, rest, got, chunk, s.1.value);
        }
      }
    }
  }

  /** The step of UploadFromReplies on plain sequences. */
  lemma UploadedCons(a: seq<seq<byte>>, b: seq<seq<byte>>, c: seq<seq<byte>>, n: int, sizes: seq<int>,
                     got: seq<byte>, chunk: seq<byte>, value: seq<byte>)
    requires |b| == |a| + 1 && a <= b && b <= c && 0 <= n && 2 + n <= |b[|a|]|
    requires UploadFits(c[|b|..], sizes) && chunk == b[|a|][2..2 + n]
    requires value == got + chunk + Uploaded(c[|b|..], sizes)
    ensures UploadFits(c[|a|..], [n] + sizes) && value == got + Uploaded(c[|a|..], [n] + sizes)
  {
    ConsUploaded(a, b, c, n, sizes);
    assert got + chunk + Uploaded(c[|b|..], sizes) == got + (chunk + Uploaded(c[|b|..], sizes));
  }

  /** What a successful ReadEV3File leaves behind, from link l to link s:
      it sent BEGIN_UPLOAD for the name and then CONTINUE_UPLOAD requests
      for the BEGIN_UPLOAD reply's handle in the sizes its reported length
      calls for; every reply passed the status check, and the file is the
      reported number of bytes taken in order from the CONTINUE_UPLOAD
      replies. */
  ghost predicate ReadTranscript(l: Link, s: Link, name: string, value: seq<byte>)
  {
    l.sent <= s.sent && l.replies <= s.replies
    && var rs := s.replies[|l.replies|..];
       && |rs| >= 1 && StatusOk(rs[0], 6)
       && var len := ReportedLength(rs[0]);
          && UploadPackets(s.sent[|l.sent|..], name, rs[0][5], len)
          && UploadFits(rs[1..], UploadSizes(len, 0))
          && value == Uploaded(rs[1..], UploadSizes(len, 0))
          && |value| == len
          && forall i :: 1 <= i < |rs| ==> StatusOk(rs[i], 2)
  }

  /** ReadEV3File only appends to what was sent and to the replies, and
      on success leaves the transcript ReadTranscript describes. */
  lemma ReadUploaded(l: Link, name: string)
    requires 0 <= l.counter < TWO_16
    ensures var s := ReadOn(l, name);
            l.sent <= s.0.sent && l.replies <= s.0.replies
            && (s.1.Ok? ==> ReadTranscript(l, s.0, name, s.1.value))
  {
    var b := BeginUploadOn(l, name);
    BeginUploadReply(l, name);
    ReadUnfolds(l, name, b.0, b.1);
    if b.1.Ok? && b.1.value.0 >= 0 {
      var len := b.1.value.0;
      var handle := b.1.value.1;
      UploadFromRequests(b.0, handle, len, 0, []);
      UploadFromReplies(b.0, handle, len, 0, []);
      UploadFromStatuses(b.0, handle, len, 0, []);
      var s := UploadFrom(b.0, handle, len, 0, []);
      FirstAndRest(l.replies, b.0.replies, s.0.replies);
      FirstAndRest(l.sent, b.0.sent, s.0.sent);
      if s.1.Ok? {
        UploadSizesCover(len, 0);
        UploadedLength(s.0.replies[|b.0.replies|..], UploadSizes(len, 0));
      }
    }
  }

  /** ReadEV3File is BEGIN_UPLOAD followed, when that gives a length that
      is not negative, by the upload loop. */
  lemma ReadUnfolds(l: Link, name: string, b: Link, begin: Result<(int, byte)>)
    requires 0 <= l.counter < TWO_16 && (b, begin) == BeginUploadOn(l, name)
    ensures begin.Err? ==> ReadOn(l, name) == (b, Err(begin.msg))
    ensures begin.Ok? && begin.value.0 < 0 ==> ReadOn(l, name) == (b, Err(ARITHMETIC_OVERFLOW))
    ensures begin.Ok? && begin.value.0 >= 0 ==> ReadOn(l, name) == UploadFrom(b, begin.value.1, begin.value.0, 0, [])
  {
  }

  /** What one step appended, followed by what later steps appended. */
  lemma FirstAndRest(a: seq<seq<byte>>, b: seq<seq<byte>>, c: seq<seq<byte>>)
    requires |b| == |a| + 1 && a <= b && b <= c
    ensures a <= c && |c[|a|..]| >= 1 && c[|a|..][0] == b[|a|] && c[|a|..][1..] == c[|b|..]
  {
  }

  // ------------------------------------------------- a brick that accepts

  /** The reply of a brick that carries out a system command: the counter,
      SYSTEM_REPLY, the command, SUCCESS, then the data. */
  function Accept(ctr: int, command: byte, data: seq<byte>): seq<byte>
  {
    CounterBytes(ctr) + [SYSTEM_REPLY, command, SUCCESS] + data
  }

  /** The replies of a brick that accepts every chunk of a download from
      pos on, with the counters the requests carry. */
  function DownloadAccepts(ctr: int, handle: byte, content: seq<byte>, pos: nat): seq<seq<byte>>
    requires 0 <= ctr < TWO_16 && pos <= |content|
    decreases |content| - pos
  {
    if pos == |content| then []
    else
      var c := NextCounter(ctr);
      [Accept(c, CONTINUE_DOWNLOAD, [handle])] + DownloadAccepts(c, handle, content, pos + Min(|content| - pos, CHUNKSIZE))
  }

  /** The replies of a brick that delivers the content from pos on, one
      chunk per CONTINUE_UPLOAD request. */
  function UploadAccepts(ctr: int, handle: byte, content: seq<byte>, pos: nat): seq<seq<byte>>
    requires 0 <= ctr < TWO_16 && pos <= |content|
    decreases |content| - pos
  {
    if pos == |content| then []
    else
      var n := Min(|content| - pos, CHUNKSIZE);
      var c := NextCounter(ctr);
      [Accept(c, CONTINUE_UPLOAD, [handle] + content[pos..pos + n])] + UploadAccepts(c, handle, content, pos + n)
  }

  /** A system command whose reply is the next packet answers with the
      status and the data. */
  lemma ExchangeAccepted(l: Link, command: byte, arguments: seq<byte>, data: seq<byte>, later: seq<seq<byte>>)
    requires 0 <= l.counter < TWO_16
    requires l.incoming == [Accept(NextCounter(l.counter), command, data)] + later
    ensures Exchange(l, command, arguments).1 == Ok([SUCCESS] + data)
    ensures Exchange(l, command, arguments).0.incoming == later
    ensures Exchange(l, command, arguments).0.counter == NextCounter(l.counter)
  {
    var c := NextCounter(l.counter);
    SystemReplyAccepted([], c, command, SUCCESS, data, later);
    assert [] + [Accept(c, command, data)] + later == l.incoming;
  }

  /** A brick that accepts BEGIN_DOWNLOAD hands out its handle. */
  lemma BeginDownloadAccepted(l: Link, name: string, content: seq<byte>, first: int, handle: byte, later: seq<seq<byte>>)
    requires 0 <= l.counter < TWO_16 && first <= |content|
    requires l.incoming == [Accept(NextCounter(l.counter), BEGIN_DOWNLOAD, [handle])] + later
    ensures BeginDownloadOn(l, name, content, first).1 == Ok(handle)
    ensures BeginDownloadOn(l, name, content, first).0.incoming == later
  {
    ExchangeAccepted(l, BEGIN_DOWNLOAD, BeginDownloadArguments(name, |content|, FirstChunk(content, first)), [handle], later);
  }

  /** A brick that accepts a CONTINUE_DOWNLOAD lets the step succeed. */
  lemma ContinueDownloadAccepted(l: Link, handle: byte, chunk: seq<byte>, later: seq<seq<byte>>)
    requires 0 <= l.counter < TWO_16
    requires l.incoming == [Accept(NextCounter(l.counter), CONTINUE_DOWNLOAD, [handle])] + later
    ensures ContinueDownloadOn(l, handle, chunk).1 == Ok(())
    ensures ContinueDownloadOn(l, handle, chunk).0.incoming == later
  {
    ExchangeAccepted(l, CONTINUE_DOWNLOAD, [handle] + chunk, [handle], later);
  }

  /** A brick that accepts BEGIN_UPLOAD reports the length and handle. */
  lemma BeginUploadAccepted(l: Link, name: string, length: nat, handle: byte, later: seq<seq<byte>>)
    requires 0 <= l.counter < TWO_16 && length < TWO_31
    requires l.incoming == [Accept(NextCounter(l.counter), BEGIN_UPLOAD, LowBytes(length, 4) + [handle])] + later
    ensures BeginUploadOn(l, name).1 == Ok((length, handle))
    ensures BeginUploadOn(l, name).0.incoming == later
  {
    var data := LowBytes(length, 4) + [handle];
    ExchangeAccepted(l, BEGIN_UPLOAD, LowBytes(0, 2) + TextBytes(name) + [0], data, later);
    LengthReported(length, handle);
  }

  /** A BEGIN_UPLOAD reply carrying a length below 2^31 reports exactly
      that length. */
  lemma LengthReported(length: nat, handle: byte)
    requires length < TWO_31
    ensures var response := [SUCCESS] + (LowBytes(length, 4) + [handle]);
            |response| == 6 && ReportedLength(response) == length && response[5] == handle
  {
    var response := [SUCCESS] + (LowBytes(length, 4) + [handle]);
    assert response[1..5] == LowBytes(length, 4);
    LowBytesValue(length, 4);
    assert Pow256(4) == TWO_32;
    assert length % TWO_32 == length;
    assert LittleEndian(response[1..5]) == length && IsInt32(length);
  }

  /** A brick that answers a CONTINUE_UPLOAD with a chunk delivers it. */
  lemma ContinueUploadAccepted(l: Link, handle: byte, chunk: seq<byte>, later: seq<seq<byte>>)
    requires 0 <= l.counter < TWO_16
    requires l.incoming == [Accept(NextCounter(l.counter), CONTINUE_UPLOAD, [handle] + chunk)] + later
    ensures ContinueUploadOn(l, handle, |chunk|).1 == Ok(chunk)
    ensures ContinueUploadOn(l, handle, |chunk|).0.incoming == later
  {
    ExchangeAccepted(l, CONTINUE_UPLOAD, [handle] + LowBytes(|chunk|, 2), [handle] + chunk, later);
    assert ([SUCCESS] + ([handle] + chunk))[2..2 + |chunk|] == chunk;
  }

  /** A brick that accepts every chunk lets the download loop succeed,
      having consumed exactly its replies. */
  lemma {:induction false} DownloadFromSucceeds(l: Link, handle: byte, content: seq<byte>, pos: nat, later: seq<seq<byte>>)
    requires 0 <= l.counter < TWO_16 && pos <= |content|
    requires l.incoming == DownloadAccepts(l.counter, handle, content, pos) + later
    ensures DownloadFrom(l, handle, content, pos).1 == Ok(())
    ensures DownloadFrom(l, handle, content, pos).0.incoming == later
    decreases |content| - pos
  {
    if pos < |content| {
      var n := Min(|content| - pos, CHUNKSIZE);
      var c := NextCounter(l.counter);
      var rest := DownloadAccepts(c, handle, content, pos + n);
      assert l.incoming == [Accept(c, CONTINUE_DOWNLOAD, [handle])] + (rest + later);
      ContinueDownloadAccepted(l, handle, content[pos..pos + n], rest + later);
      var s1 := ContinueDownloadOn(l, handle, content[pos..pos + n]);
      ContinueDownloadReply(l, handle, content[pos..pos + n]);
      DownloadFromSucceeds(s1.0, handle, content, pos + n, later);
    }
  }

  /** A brick that accepts every request makes CreateEV3File succeed,
      having consumed exactly its replies: first is the size of the chunk
      that goes with BEGIN_DOWNLOAD. */
  lemma CreateSucceeds(l: Link, name: string, content: seq<byte>, first: nat, handle: byte, later: seq<seq<byte>>)
    requires 0 <= l.counter < TWO_16 && first == Min(|content|, CHUNKSIZE - |name|)
    requires l.incoming == [Accept(NextCounter(l.counter), BEGIN_DOWNLOAD, [handle])]
                           + DownloadAccepts(NextCounter(l.counter), handle, content, first) + later
    ensures CreateOn(l, name, content).1 == Ok(())
    ensures CreateOn(l, name, content).0.incoming == later
  {
    var rest := DownloadAccepts(NextCounter(l.counter), handle, content, first);
    assert l.incoming == [Accept(NextCounter(l.counter), BEGIN_DOWNLOAD, [handle])] + (rest + later);
    var b := CreateBegins(l, name, content, handle, rest + later);
    DownloadFromSucceeds(b, handle, content, first, later);
  }

  /** The BEGIN_DOWNLOAD step of CreateSucceeds: the link it leaves. */
  lemma CreateBegins(l: Link, name: string, content: seq<byte>, handle: byte, later: seq<seq<byte>>) returns (b: Link)
    requires 0 <= l.counter < TWO_16 && 0 <= CHUNKSIZE - |name|
    requires l.incoming == [Accept(NextCounter(l.counter), BEGIN_DOWNLOAD, [handle])] + later
    ensures b.counter == NextCounter(l.counter) && b.incoming == later
    ensures CreateOn(l, name, content) == DownloadFrom(b, handle, content, Min(|content|, CHUNKSIZE - |name|))
  {
    var first := Min(|content|, CHUNKSIZE - |name|);
    BeginDownloadAccepted(l, name, content, first, handle, later);
    BeginDownloadReply(l, name, content, first);
    b := BeginDownloadOn(l, name, content, first).0;
  }

  /** A brick that delivers the content chunk by chunk makes the upload
      loop return exactly the content, having consumed exactly its
      replies. */
  lemma {:induction false} UploadFromDelivers(l: Link, handle: byte, content: seq<byte>, pos: nat, later: seq<seq<byte>>)
    requires 0 <= l.counter < TWO_16 && pos <= |content|
    requires l.incoming == UploadAccepts(l.counter, handle, content, pos) + later
    ensures UploadFrom(l, handle, |content|, pos, content[..pos]).1 == Ok(content)
    ensures UploadFrom(l, handle, |content|, pos, content[..pos]).0.incoming == later
    decreases |content| - pos
  {
    if pos == |content| {
      assert content[..pos] == content;
    } else {
      var n := Min(|content| - pos, CHUNKSIZE);
      var c := NextCounter(l.counter);
      var chunk := content[pos..pos + n];
      var rest := UploadAccepts(c, handle, content, pos + n);
      assert l.incoming == [Accept(c, CONTINUE_UPLOAD, [handle] + chunk)] + (rest + later);
      ContinueUploadAccepted(l, handle, chunk, rest + later);
      ContinueUploadReply(l, handle, n);
      var s1 := ContinueUploadOn(l, handle, n);
      assert content[..pos] + chunk == content[..pos + n];
      UploadFromDelivers(s1.0, handle, content, pos + n, later);
    }
  }

  /** A brick that reports the file's length and handle and then delivers
      it chunk by chunk makes ReadEV3File return exactly the file, having
      consumed exactly its replies. */
  lemma ReadDelivers(l: Link, name: string, handle: byte, content: seq<byte>, later: seq<seq<byte>>)
    requires 0 <= l.counter < TWO_16 && |content| < TWO_31
    requires var c := NextCounter(l.counter);
             l.incoming == [Accept(c, BEGIN_UPLOAD, LowBytes(|content|, 4) + [handle])]
                           + UploadAccepts(c, handle, content, 0) + later
    ensures ReadOn(l, name).1 == Ok(content)
    ensures ReadOn(l, name).0.incoming == later
  {
    var c := NextCounter(l.counter);
    var rest := UploadAccepts(c, handle, content, 0);
    assert l.incoming == [Accept(c, BEGIN_UPLOAD, LowBytes(|content|, 4) + [handle])] + (rest + later);
    BeginUploadAccepted(l, name, |content|, handle, rest + later);
    BeginUploadReply(l, name);
    var b := BeginUploadOn(l, name);
    assert content[..0] == [];
    UploadFromDelivers(b.0, handle, content, 0, later);
  }

  // -------------------------------------------------------- connection

  class Connection {
    /** The counter pairing each request with its reply. */
    var messagecounter: int
    /** The packets handed to SendPacket, in order. */
    var sent: seq<seq<byte>>
    /** The packets ReceivePacket will deliver, in order. */
    var incoming: seq<seq<byte>>
    /** The data of every system reply returned so far. */
    ghost var replies: seq<seq<byte>>

    ghost predicate Valid()
      reads this
    {
      0 <= messagecounter < TWO_16
    }

    /** The connection's state as the file transfers see it. */
    ghost function State(): Link
      reads this
    {
      Link(messagecounter, sent, incoming, replies)
    }

    constructor (packets: seq<seq<byte>>)
      ensures Valid() && messagecounter == 0
      ensures sent == [] && incoming == packets && replies == []
    {
      messagecounter := 0;
      sent := [];
      incoming := packets;
      replies := [];
    }

    method SendPacket(data: seq<byte>)
      modifies this`sent
      ensures sent == old(sent) + [data]
    {
      sent := sent + [data];
    }

    method ReceivePacket() returns (r: Result<seq<byte>>)
      modifies this`incoming
      ensures old(incoming) == [] ==> r == Err(NO_PACKET) && incoming == []
      ensures old(incoming) != [] ==> r == Ok(old(incoming)[0]) && incoming == old(incoming)[1..]
    {
      if incoming == [] {
        return Err(NO_PACKET);
      }
      r := Ok(incoming[0]);
      incoming := incoming[1..];
    }

    /** The receive loop shared by both commands: waits for the reply
        with the current counter. */
    method AwaitReply(req: Request) returns (r: Result<Option<seq<byte>>>)
      modifies this`incoming
      ensures var a := Await(req, old(incoming), messagecounter);
              r == a.0 && incoming == old(incoming)[a.1..]
    {
      ghost var consumed := 0;
      while true
        invariant 0 <= consumed <= |old(incoming)| && incoming == old(incoming)[consumed..]
        invariant var a := Await(req, incoming, messagecounter);
                  Await(req, old(incoming), messagecounter) == (a.0, a.1 + consumed)
        decreases |incoming|
      {
        ghost var before := incoming;
        var packet := ReceivePacket();
        if packet.Err? {
          return Err(packet.msg);
        }
        consumed := consumed + 1;
        assert before[1..] == old(incoming)[consumed..];
        var reply := Check(req, packet.value, messagecounter);
        match reply
        case Skipped =>
        case Failed(m) =>
          return Err(m);
        case Null =>
          return Ok(None);
        case Data(d) =>
          return Ok(Some(d));
      }
    }

    /** SystemCommand: sends the request with the next counter and returns
        the matching reply's data from index 4. */
    method SystemCommand(command: byte, arguments: seq<byte>) returns (r: Result<seq<byte>>)
      requires Valid()
      modifies this
      ensures Valid() && messagecounter == NextCounter(old(messagecounter))
      ensures sent == old(sent) + [SystemPacket(messagecounter, command, arguments)]
      ensures var a := Await(System, old(incoming), messagecounter);
              incoming == old(incoming)[a.1..]
              && (r.Ok? <==> a.0.Ok?)
              && (r.Ok? ==> a.0.value == Some(r.value))
              && (r.Err? ==> r.msg == a.0.msg)
      ensures r.Ok? ==> replies == old(replies) + [r.value]
      ensures r.Err? ==> replies == old(replies)
      ensures (State(), r) == Exchange(old(State()), command, arguments)
    {
      messagecounter := NextCounter(messagecounter);
      SendPacket(SystemPacket(messagecounter, command, arguments));
      var a := AwaitReply(System);
      if a.Err? {
        return Err(a.msg);
      }
      r := Ok(a.value.value);
      replies := replies + [r.value];
    }

    /** DirectCommand: sends the byte codes with the next counter and
        returns the matching reply's data from index 3, or None for the
        error reply. */
    method DirectCommand(bytecodes: seq<byte>, globalbytes: int, localbytes: int) returns (r: Result<Option<seq<byte>>>)
      requires Valid()
      modifies this`messagecounter, this`sent, this`incoming
      ensures Valid() && messagecounter == NextCounter(old(messagecounter))
      ensures sent == old(sent) + [DirectPacket(messagecounter, globalbytes, localbytes, bytecodes)]
      ensures var a := Await(Direct(globalbytes), old(incoming), messagecounter);
              r == a.0 && incoming == old(incoming)[a.1..]
    {
      messagecounter := NextCounter(messagecounter);
      SendPacket(DirectPacket(messagecounter, globalbytes, localbytes, bytecodes));
      r := AwaitReply(Direct(globalbytes));
    }

    /** The BEGIN_DOWNLOAD step of CreateEV3File: the length, the name and
        the first chunk (nothing when first is not positive); the handle
        from a reply whose status passes. */
    method BeginDownload(fullname: string, content: seq<byte>, first: int) returns (r: Result<byte>)
      requires Valid() && first <= |content|
      modifies this
      ensures Valid() && (State(), r) == BeginDownloadOn(old(State()), fullname, content, first)
      ensures |sent| == |old(sent)| + 1 && sent[..|old(sent)|] == old(sent)
      ensures BeginPacket(sent[|old(sent)|], fullname, |content|, FirstChunk(content, first))
      ensures |old(replies)| <= |replies| <= |old(replies)| + 1 && replies[..|old(replies)|] == old(replies)
      ensures |replies| == |old(replies)| + 1 ==> (r.Ok? <==> StatusOk(replies[|old(replies)|], 2))
      ensures r.Ok? ==> |replies| == |old(replies)| + 1 && r.value == replies[|old(replies)|][1]
    {
      BeginDownloadReply(State(), fullname, content, first);
      var response := SystemCommand(BEGIN_DOWNLOAD, BeginDownloadArguments(fullname, |content|, FirstChunk(content, first)));
      if response.Err? {
        return Err(response.msg);
      }
      var status := CheckStatus(response.value, 2, "BEGIN_DOWNLOAD");
      if status.Err? {
        return Err(status.msg);
      }
      r := Ok(response.value[1]);
    }

    /** One CONTINUE_DOWNLOAD step of CreateEV3File. */
    method ContinueDownload(handle: byte, chunk: seq<byte>) returns (r: Result<()>)
      requires Valid()
      modifies this
      ensures Valid() && (State(), r) == ContinueDownloadOn(old(State()), handle, chunk)
      ensures |sent| == |old(sent)| + 1 && sent[..|old(sent)|] == old(sent)
      ensures ContinuePacket(sent[|old(sent)|], handle, chunk)
      ensures |old(replies)| <= |replies| <= |old(replies)| + 1 && replies[..|old(replies)|] == old(replies)
      ensures |replies| == |old(replies)| + 1 ==> (r.Ok? <==> StatusOk(replies[|old(replies)|], 2))
      ensures r.Ok? ==> |replies| == |old(replies)| + 1
    {
      ContinueDownloadReply(State(), handle, chunk);
      var response := SystemCommand(CONTINUE_DOWNLOAD, [handle] + chunk);
      if response.Err? {
        return Err(response.msg);
      }
      r := CheckStatus(response.value, 2, "CONTINUE_DOWNLOAD");
    }

    /** CreateEV3File: BEGIN_DOWNLOAD with the first chunk, then
        CONTINUE_DOWNLOAD per further chunk, each reply's status checked. */
    method CreateEV3File(fullname: string, content: seq<byte>) returns (r: Result<()>)
      requires Valid()
      modifies this
      ensures Valid() && (State(), r) == CreateOn(old(State()), fullname, content)
      ensures old(sent) <= sent && old(replies) <= replies
      ensures r.Ok? ==> |replies| > |old(replies)| && |replies[|old(replies)|]| >= 2
                        && Downloaded(sent[|old(sent)|..], fullname, content, replies[|old(replies)|][1])
      ensures r.Ok? ==> forall i :: |old(replies)| <= i < |replies| ==> StatusOk(replies[i], 2)
      ensures |fullname| > CHUNKSIZE ==> r.Err?
    {
      CreateDownloaded(State(), fullname, content);
      var first := Min(|content|, CHUNKSIZE - |fullname|);
      var handle := BeginDownload(fullname, content, first);
      if handle.Err? {
        return Err(handle.msg);
      }
      if first < 0 {
        // the loop's first AppendBytes reads content[pos] with pos < 0
        return Err(ARRAY_INDEX_OUTSIDE);
      }
      r := DownloadInto(handle.value, content, first);
    }

    /** The loop of CreateEV3File: a CONTINUE_DOWNLOAD per chunk of up to
        900 bytes from pos on, up to the first failure. */
    method DownloadInto(handle: byte, content: seq<byte>, pos: nat) returns (r: Result<()>)
      requires Valid() && pos <= |content|
      modifies this
      ensures Valid() && (State(), r) == DownloadFrom(old(State()), handle, content, pos)
    {
      ghost var start := State();
      var i := pos;
      while i < |content|
        invariant Valid() && pos <= i <= |content|
        invariant DownloadFrom(State(), handle, content, i) == DownloadFrom(start, handle, content, pos)
        decreases |content| - i
      {
        var n := Min(|content| - i, CHUNKSIZE);
        var step := ContinueDownload(handle, content[i..i + n]);
        if step.Err? {
          return step;
        }
        i := i + n;
      }
      r := Ok(());
    }

    /** The BEGIN_UPLOAD step of ReadEV3File: the file's length and the
        handle from a reply whose status passes. */
    method BeginUpload(fullname: string) returns (r: Result<(int, byte)>)
      requires Valid()
      modifies this
      ensures Valid() && (State(), r) == BeginUploadOn(old(State()), fullname)
      ensures |sent| == |old(sent)| + 1 && sent[..|old(sent)|] == old(sent)
      ensures BeginUploadPacket(sent[|old(sent)|], fullname)
      ensures |old(replies)| <= |replies| <= |old(replies)| + 1 && replies[..|old(replies)|] == old(replies)
      ensures |replies| == |old(replies)| + 1 ==> (r.Ok? <==> StatusOk(replies[|old(replies)|], 6))
      ensures r.Ok? ==> |replies| == |old(replies)| + 1
                        && var reply := replies[|old(replies)|];
                           |reply| >= 6 && r.value == (ReportedLength(reply), reply[5])
    {
      BeginUploadReply(State(), fullname);
      var response := SystemCommand(BEGIN_UPLOAD, LowBytes(0, 2) + TextBytes(fullname) + [0]);
      if response.Err? {
        return Err(response.msg);
      }
      var status := CheckStatus(response.value, 6, "BEGIN_UPLOAD");
      if status.Err? {
        return Err(status.msg);
      }
      r := Ok((ReportedLength(response.value), response.value[5]));
    }

    /** One CONTINUE_UPLOAD step of ReadEV3File: asks for n bytes and
        copies them into the buffer from pos. */
    method ContinueUpload(handle: byte, buffer: array<byte>, pos: int, n: int) returns (r: Result<()>)
      requires Valid() && 0 <= pos && 0 <= n && pos + n <= buffer.Length
      modifies this, buffer
      ensures Valid()
      ensures var s := ContinueUploadOn(old(State()), handle, n);
              && State() == s.0 && (r.Ok? <==> s.1.Ok?) && (r.Err? ==> r.msg == s.1.msg)
              && (r.Ok? ==> buffer[..pos + n] == old(buffer[..pos]) + s.1.value)
              && (r.Ok? ==> buffer[pos + n..] == old(buffer[pos + n..]))
              && (r.Err? ==> buffer[..] == old(buffer[..]))
      ensures |sent| == |old(sent)| + 1 && sent[..|old(sent)|] == old(sent)
      ensures UploadRequest(sent[|old(sent)|], handle, n)
      ensures |old(replies)| <= |replies| <= |old(replies)| + 1 && replies[..|old(replies)|] == old(replies)
      ensures |replies| == |old(replies)| + 1 ==> (r.Ok? <==> StatusOk(replies[|old(replies)|], 2 + n))
      ensures r.Ok? ==> |replies| == |old(replies)| + 1
                        && var reply := replies[|old(replies)|];
                           2 + n <= |reply| && buffer[..pos + n] == old(buffer[..pos]) + reply[2..2 + n]
    {
      ContinueUploadReply(State(), handle, n);
      var response := SystemCommand(CONTINUE_UPLOAD, [handle] + LowBytes(n, 2));
      if response.Err? {
        return Err(response.msg);
      }
      var status := CheckStatus(response.value, 2 + n, "CONTINUE_UPLOAD");
      if status.Err? {
        return Err(status.msg);
      }
      CopyChunk(buffer, pos, response.value, n);
      r := Ok(());
    }

    /** The loop of ReadEV3File: CONTINUE_UPLOAD requests for
        min(length - pos, 900) bytes each, copied into the buffer in
        order. */
    method UploadInto(handle: byte, buffer: array<byte>) returns (r: Result<()>)
      requires Valid()
      modifies this, buffer
      ensures Valid()
      ensures (State(), if r.Ok? then Ok(buffer[..]) else Err(r.msg)) == UploadFrom(old(State()), handle, buffer.Length, 0, [])
      ensures old(sent) <= sent && old(replies) <= replies
      ensures r.Ok? ==>
                var sizes := UploadSizes(buffer.Length, 0);
                UploadRequests(sent[|old(sent)|..], handle, sizes)
                && UploadFits(replies[|old(replies)|..], sizes)
                && buffer[..] == Uploaded(replies[|old(replies)|..], sizes)
      ensures r.Ok? ==> forall i :: |old(replies)| <= i < |replies| ==> StatusOk(replies[i], 2)
    {
      ghost var start := State();
      UploadFromRequests(start, handle, buffer.Length, 0, []);
      UploadFromReplies(start, handle, buffer.Length, 0, []);
      UploadFromStatuses(start, handle, buffer.Length, 0, []);
      var pos := 0;
      while pos < buffer.Length
        invariant Valid() && 0 <= pos <= buffer.Length
        invariant UploadFrom(State(), handle, buffer.Length, pos, buffer[..pos]) == UploadFrom(start, handle, buffer.Length, 0, [])
        decreases buffer.Length - pos
      {
        var n := Min(buffer.Length - pos, CHUNKSIZE);
        var step := ContinueUpload(handle, buffer, pos, n);
        if step.Err? {
          return Err(step.msg);
        }
        pos := pos + n;
      }
      assert buffer[..pos] == buffer[..];
      r := Ok(());
    }

    /** ReadEV3File: BEGIN_UPLOAD, a buffer of the reported length, then
        the upload loop filling it. */
    method ReadEV3File(fullname: string) returns (r: Result<seq<byte>>)
      requires Valid()
      modifies this
      ensures Valid() && (State(), r) == ReadOn(old(State()), fullname)
      ensures old(sent) <= sent && old(replies) <= replies
      ensures r.Ok? ==> ReadTranscript(old(State()), State(), fullname, r.value)
    {
      ghost var start := State();
      var begin := BeginUpload(fullname);
      ReadUnfolds(start, fullname, State(), begin);
      if begin.Err? {
        r := Err(begin.msg);
      } else if begin.value.0 < 0 {
        r := Err(ARITHMETIC_OVERFLOW);
      } else {
        var len := begin.value.0;
        var handle := begin.value.1;
        var buffer := new byte[len];
        ghost var u := UploadFrom(State(), handle, buffer.Length, 0, []);
        assert ReadOn(start, fullname) == u;
        var step := UploadInto(handle, buffer);
        if step.Err? {
          r := Err(step.msg);
        } else {
          r := Ok(buffer[..]);
        }
        assert (State(), r) == u;
      }
      ReadUploaded(start, fullname);
    }
  }

  /** The inner loop of ReadEV3File: buffer[pos + i] = response[2 + i]. */
  method CopyChunk(buffer: array<byte>, pos: int, response: seq<byte>, n: int)
    requires 0 <= pos && 0 <= n && pos + n <= buffer.Length && 2 + n <= |response|
    modifies buffer
    ensures buffer[..pos + n] == old(buffer[..pos]) + response[2..2 + n]
    ensures buffer[pos + n..] == old(buffer[pos + n..])
  {
    var i := 0;
    while i < n
      invariant 0 <= i <= n
      invariant buffer[..pos + i] == old(buffer[..pos]) + response[2..2 + i]
      invariant buffer[pos + n..] == old(buffer[pos + n..])
    {
      buffer[pos + i] := response[2 + i];
      assert response[2..2 + i + 1] == response[2..2 + i] + [response[2 + i]];
      assert buffer[..pos + i + 1] == buffer[..pos + i] + [buffer[pos + i]];
      i := i + 1;
    }
  }
}
