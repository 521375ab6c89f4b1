/** `send_recv`: one connected socket is served by two pumps, standard
    input to the socket (sending) and the socket to standard output
    (receiving). When a pump succeeds its thread shuts down its half of the
    socket; when it fails the thread only complains. The socket is closed
    once both threads are done. The two threads are run here one after the
    other, upload first; what each does depends only on its own pump. */
module Relay {
  import opened Pump
  import opened PumpProperties

  datatype Half = ShutWr | ShutRd
  datatype Direction = Sending | Receiving

  /** What a pump's thread does once its pump has returned. */
  datatype Action = Shutdown(how: Half) | Complain(dir: Direction)

  /** The scripts of the four descriptors one connection pumps between. */
  datatype Streams = Streams(stdin: seq<ReadReply>, toPeer: seq<int>, fromPeer: seq<ReadReply>, stdout: seq<int>)

  predicate ReadsWithinBuffer(io: Streams)
  {
    WithinBuffer(io.stdin) && WithinBuffer(io.fromPeer)
  }

  /** The thread of direction `dir` after its pump returned `ret`. */
  function AfterPump(dir: Direction, ret: int): Action
  {
    if ret < 0 then Complain(dir)
    else if dir == Sending then Shutdown(ShutWr)
    else Shutdown(ShutRd)
  }

  /** Both directions of the relay, each through `copyfd` as written. Each
      direction delivers what the pump delivers, and its thread shuts down
      its half of the socket exactly when the pump succeeds, which is exactly
      when the sink took as many bytes as the source yielded; otherwise the
      direction is reported as failed. The bytes taken need not be the
      source's bytes: after a partial write the pump resends the head of
      its chunk. */
  method SendRecv(io: Streams) returns (up: Action, down: Action, peerGot: seq<byte>, stdoutGot: seq<byte>)
    requires ReadsWithinBuffer(io)
    ensures peerGot == Run(io.stdin, io.toPeer, false).sent
    ensures stdoutGot == Run(io.fromPeer, io.stdout, false).sent
    ensures up == AfterPump(Sending, Run(io.stdin, io.toPeer, false).ret)
    ensures down == AfterPump(Receiving, Run(io.fromPeer, io.stdout, false).ret)
    ensures up == Shutdown(ShutWr) <==> |peerGot| == |Input(io.stdin, 0)|
    ensures up != Shutdown(ShutWr) ==> up == Complain(Sending) && |peerGot| < |Input(io.stdin, 0)|
    ensures down == Shutdown(ShutRd) <==> |stdoutGot| == |Input(io.fromPeer, 0)|
    ensures down != Shutdown(ShutRd) ==> down == Complain(Receiving) && |stdoutGot| < |Input(io.fromPeer, 0)|
  {
    var sentRet, sentReads, sentWrites;
    sentRet, peerGot, sentReads, sentWrites := CopyFd(io.stdin, io.toPeer, false);
    AsWrittenReportsInputLength(io.stdin, io.toPeer);
    up := AfterPump(Sending, sentRet);

    var recvRet, recvReads, recvWrites;
    recvRet, stdoutGot, recvReads, recvWrites := CopyFd(io.fromPeer, io.stdout, false);
    AsWrittenReportsInputLength(io.fromPeer, io.stdout);
    down := AfterPump(Receiving, recvRet);
  }

  /** A relay built on the corrected pump would deliver each direction's
      data unchanged: the peer would receive a prefix of standard input, all
      of it exactly when SHUT_WR is issued, and likewise for standard
      output. */
  lemma CorrectedRelayDelivers(io: Streams)
    ensures Run(io.stdin, io.toPeer, true).sent <= Input(io.stdin, 0)
    ensures AfterPump(Sending, Run(io.stdin, io.toPeer, true).ret) == Shutdown(ShutWr)
        <==> Run(io.stdin, io.toPeer, true).sent == Input(io.stdin, 0)
    ensures Run(io.fromPeer, io.stdout, true).sent <= Input(io.fromPeer, 0)
    ensures AfterPump(Receiving, Run(io.fromPeer, io.stdout, true).ret) == Shutdown(ShutRd)
        <==> Run(io.fromPeer, io.stdout, true).sent == Input(io.fromPeer, 0)
  {
    CorrectedRunDeliversInput(io.stdin, io.toPeer);
    CorrectedRunDeliversInput(io.fromPeer, io.stdout);
  }
}
