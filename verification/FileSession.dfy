/** Runs: any sequence of reads and writes of one file, from an immediate file on. */
module FileSession {
  import opened Errno
  import opened ZoneWords
  import opened BlockMap
  import opened WriteMapSpec
  import opened FileBytes
  import opened FlatFile
  import opened MfsVolume
  import opened MfsReadWrite

  datatype Request = Read(p: nat, n: nat) | Write(p: nat, d: Bytes)

  // cumIo: the bytes transferred, as reported to the caller.
  datatype Reply = Reply(r: int, out: Bytes, cumIo: nat)

  // What the caller knows of a file: its bytes, and whether they are in the inode.
  datatype File = File(immediate: bool, s: Bytes)

  ghost function FileOf(rip: Inode): File
    requires Formatted(rip.sp.g, rip.Img()) && (rip.mode == IMMEDIATE ==> rip.size <= |rip.izone|)
    reads rip, rip.sp
  {
    File(rip.mode == IMMEDIATE, Contents(rip))
  }

  predicate Refuses(sp: Volume, req: Request) {
    req.Write? && (sp.readOnly || req.p + |req.d| > sp.maxSize)
  }

  // The write makes an immediate file regular, on a volume with no zone for it.
  ghost predicate Loses(sp: Volume, f: File, req: Request, inUse: set<Zone>) {
    req.Write? && f.immediate && req.p + |req.d| > IMMEDIATE_MAX && Full(sp.g, inUse)
  }

  // No more bytes are reported as written than there were.
  predicate Counts(req: Request, reply: Reply) {
    req.Write? ==> reply.cumIo <= |req.d|
  }

  predicate AllCount(reqs: seq<Request>, replies: seq<Reply>) {
    |reqs| == |replies| && forall i :: 0 <= i < |reqs| ==> Counts(reqs[i], replies[i])
  }

  // The file after a request, given how many bytes of a write were reported as
  // written and which zones were in use before.
  ghost function After(sp: Volume, f: File, req: Request, reply: Reply, inUse: set<Zone>): File
    requires Counts(req, reply)
  {
    if req.Read? || Refuses(sp, req) then f
    else if Loses(sp, f, req, inUse) then File(false, [])
    else File(f.immediate && req.p + |req.d| <= IMMEDIATE_MAX, FlatWrite(f.s, req.p, req.d[..reply.cumIo]))
  }

  /** What a reply may be. A write that is not refused is complete unless at most
      one zone is left, and what it leaves out begins at the start of a block. */
  ghost predicate Answered(sp: Volume, f: File, req: Request, reply: Reply, inUse: set<Zone>, inUse': set<Zone>)
    requires 0 < sp.g.nr
  {
    match req
    case Read(p, n) =>
      && reply.r == OK && reply.cumIo == |reply.out| && inUse' == inUse
      && reply.out == if f.immediate && p < |f.s| then f.s else FlatRead(f.s, p, n)
    case Write(p, d) =>
      if Refuses(sp, req) then
        reply.r == (if sp.readOnly then EROFS else EFBIG) && reply.cumIo == 0 && inUse' == inUse
      else if Loses(sp, f, req, inUse) then
        reply.r != OK && reply.cumIo == 0
      else
        && reply.cumIo <= |d| && (reply.r == OK <==> reply.cumIo == |d|)
        && (reply.r != OK ==> AlmostFull(sp.g, inUse'))
        && (reply.r != OK && reply.cumIo > 0 ==> BlockOff(sp.g, p + reply.cumIo) == 0)
  }

  // The file after the requests; zones lists the zones in use before each.
  ghost function Replay(sp: Volume, f: File, reqs: seq<Request>, replies: seq<Reply>, zones: seq<set<Zone>>): File
    requires AllCount(reqs, replies) && |reqs| == |zones|
  {
    if reqs == [] then f else
      var last := |reqs| - 1;
      After(sp, Replay(sp, f, reqs[..last], replies[..last], zones[..last]), reqs[last], replies[last], zones[last])
  }

  // Every reply so far is one that the replay of the requests before it calls for.
  ghost predicate AllAnswered(sp: Volume, f: File, reqs: seq<Request>, replies: seq<Reply>, zones: seq<set<Zone>>)
    requires 0 < sp.g.nr && |replies| <= |reqs| && AllCount(reqs[..|replies|], replies) && |zones| == |replies| + 1
  {
    assert forall j: nat | j < |replies| :: reqs[j] == reqs[..|replies|][j];
    forall i: nat | i < |replies| ::
      Answered(sp, Replay(sp, f, reqs[..i], replies[..i], zones[..i]), reqs[i], replies[i], zones[i], zones[i + 1])
  }

  lemma OneMore(sp: Volume, f: File, reqs: seq<Request>, replies: seq<Reply>, zones: seq<set<Zone>>,
                reply: Reply, z: set<Zone>)
    requires 0 < sp.g.nr && |replies| < |reqs| && AllCount(reqs[..|replies|], replies) && |zones| == |replies| + 1
    requires AllAnswered(sp, f, reqs, replies, zones)
    requires var i := |replies|;
             Answered(sp, Replay(sp, f, reqs[..i], replies, zones[..i]), reqs[i], reply, zones[i], z)
    ensures AllCount(reqs[..|replies| + 1], replies + [reply])
    ensures var i := |replies|;
            && AllAnswered(sp, f, reqs, replies + [reply], zones + [z])
            && Replay(sp, f, reqs[..i + 1], replies + [reply], (zones + [z])[..i + 1])
            == After(sp, Replay(sp, f, reqs[..i], replies, zones[..i]), reqs[i], reply, zones[i])
  {
    var i := |replies|;
    var replies', zones' := replies + [reply], zones + [z];
    assert Counts(reqs[i], reply);
    assert reqs[..i + 1][..i] == reqs[..i] && zones'[..i + 1][..i] == zones[..i] && replies'[..i] == replies;
    hide After, Answered;
    forall j: nat | j < |replies'|
      ensures Answered(sp, Replay(sp, f, reqs[..j], replies'[..j], zones'[..j]), reqs[j], replies'[j], zones'[j], zones'[j + 1])
    {
      assert replies'[..j] == replies[..j] && zones'[..j] == zones[..j];
      if j == i { assert replies[..i] == replies; }
    }
  }

  /** The flat file is all there is to see: every reply is one the replay of the
      requests before it calls for, and the replay is what the file holds. No block of
      another file changes. */
  method Session(rip: Inode, reqs: seq<Request>, ghost others: set<Zone>)
    returns (replies: seq<Reply>, ghost zones: seq<set<Zone>>)
    requires ValidFile(rip, others)
    modifies rip, rip.sp
    ensures ValidFile(rip, others) && AllCount(reqs, replies) && |zones| == |reqs| + 1
    ensures zones[0] == old(rip.sp.inUse) && zones[|reqs|] == rip.sp.inUse
    ensures OthersKept(old(rip.sp.disk), rip.sp.disk, others)
    ensures FileOf(rip) == Replay(rip.sp, old(FileOf(rip)), reqs, replies, zones[..|reqs|])
    ensures AllAnswered(rip.sp, old(FileOf(rip)), reqs, replies, zones)
  {
    ghost var f := FileOf(rip);
    ghost var sp := rip.sp;
    ValidShape(rip, others);
    replies, zones := [], [rip.sp.inUse];
    var i := 0;
    assert reqs[..0] == [] && zones[..0] == [];
    hide Contents, ValidFile, FlatWrite, FlatRead, After, Answered, Full, AlmostFull, AllAnswered, Replay,
         OthersKept;
    AlwaysKept(rip.sp.disk, others);
    while i < |reqs|
      invariant 0 <= i <= |reqs| && |replies| == i && AllCount(reqs[..i], replies) && |zones| == i + 1
      invariant ValidFile(rip, others) && Formatted(rip.sp.g, rip.Img()) && rip.sp == sp
      invariant rip.mode == IMMEDIATE ==> rip.size <= |rip.izone|
      invariant OthersKept(old(rip.sp.disk), rip.sp.disk, others)
      invariant zones[0] == old(rip.sp.inUse) && zones[i] == rip.sp.inUse
      invariant FileOf(rip) == Replay(sp, f, reqs[..i], replies, zones[..i])
      invariant AllAnswered(sp, f, reqs, replies, zones)
    {
      ghost var disk := rip.sp.disk;
      var reply := Serve(rip, reqs[i], others);
      OthersKeptThrough(old(rip.sp.disk), disk, rip.sp.disk, others);
      OneMore(sp, f, reqs, replies, zones, reply, rip.sp.inUse);
      replies, zones := replies + [reply], zones + [rip.sp.inUse];
      i := i + 1;
    }
    assert reqs[..i] == reqs;
  }

  // One request.
  method Serve(rip: Inode, req: Request, ghost others: set<Zone>) returns (reply: Reply)
    requires ValidFile(rip, others)
    modifies rip, rip.sp
    ensures ValidFile(rip, others) && Formatted(rip.sp.g, rip.Img())
    ensures rip.mode == IMMEDIATE ==> rip.size <= |rip.izone|
    ensures OthersKept(old(rip.sp.disk), rip.sp.disk, others)
    ensures Counts(req, reply)
    ensures req.Write? && !Refuses(rip.sp, req) && reply.r != OK ==> reply.r == rip.sp.errCode
    ensures Answered(rip.sp, old(FileOf(rip)), req, reply, old(rip.sp.inUse), rip.sp.inUse)
    ensures FileOf(rip) == After(rip.sp, old(FileOf(rip)), req, reply, old(rip.sp.inUse))
  {
    var r, out, cumIo, position;
    ValidShape(rip, others);
    hide Contents, ValidFile, FlatWrite, FlatRead, Full, AlmostFull, Mapped, HoldsFlat, FlatOf, BlockOff;
    match req {
      case Read(p, n) =>
        r, out, cumIo, position := FsReadWrite(rip, READING, p, n, [], others);
        ContentsSize(rip, others);
      case Write(p, d) =>
        r, out, cumIo, position := FsReadWrite(rip, WRITING, p, |d|, d, others);
    }
    ValidShape(rip, others);
    reply := Reply(r, out, cumIo);
  }

  lemma ValidShape(rip: Inode, others: set<Zone>)
    requires ValidFile(rip, others)
    ensures Formatted(rip.sp.g, rip.Img()) && (rip.mode == IMMEDIATE ==> rip.size <= |rip.izone|)
  {
  }

  lemma ContentsSize(rip: Inode, others: set<Zone>)
    requires ValidFile(rip, others)
    ensures |Contents(rip)| == rip.size
  {
  }
}
