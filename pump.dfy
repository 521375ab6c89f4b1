/** The byte pump `copyfd`: read a chunk into a fixed buffer, write it out
    (looping on partial writes), repeat until a read returns 0 or less.

    The operating system is replaced by two scripts:
    - `source`, one reply per call of `read(i, buf, BUFLEN)`;
    - `sink`, one entry per call of `write(o, buf, size)`.
    `Reading` and `Writing` define what the pump does with those scripts, one
    function per loop of the source; `CopyFd` is the loop itself, proved to
    agree with them. The lemmas state what the source promises of the pump
    and where the code as written breaks that promise. */
module Pump {

  /** Size of the transfer buffer. */
  const BUFLEN: nat := 65536

  newtype byte = b: int | 0 <= b < 256

  /** One reply of `read`: `Got(data)` returns `|data|` bytes (0 means end of
      stream); `Failed` returns -1. */
  datatype ReadReply = Got(data: seq<byte>) | Failed

  /** The kernel never returns more than the BUFLEN bytes asked for. */
  predicate WithinBuffer(source: seq<ReadReply>)
  {
    forall k :: 0 <= k < |source| && source[k].Got? ==> |source[k].data| <= BUFLEN
  }

  /** What the read call numbered `ri` returns; past the end of the script the
      source is closed and read returns 0. */
  function ReadRet(source: seq<ReadReply>, ri: nat): int
  {
    if ri >= |source| then 0
    else match source[ri]
      case Got(data) => |data|
      case Failed => -1
  }

  /** The write call numbered `wi` reports failure (0 or negative); past the
      end of the script every write returns -1. */
  predicate WriteFails(sink: seq<int>, wi: nat)
  {
    wi >= |sink| || sink[wi] <= 0
  }

  /** What `write(o, buf, size)` returns at call `wi`: a positive script entry
      is the most the sink takes on that call, and the kernel never reports
      more than the `size` bytes it was asked to write. */
  function WriteRet(sink: seq<int>, wi: nat, size: int): (w: int)
    requires size > 0
    ensures w <= size
    ensures w > 0 <==> !WriteFails(sink, wi)
    ensures !WriteFails(sink, wi) && sink[wi] < size ==> w == sink[wi]
  {
    if wi >= |sink| then -1
    else if sink[wi] > size then size
    else sink[wi]
  }

  /** The bytes a write of `w` takes when `size` bytes of `chunk` are still
      unaccounted for. As written (`advance` false) the write is issued from
      the start of the buffer; corrected (`advance` true) it starts after the
      bytes already taken. */
  function Piece(chunk: seq<byte>, size: int, w: int, advance: bool): seq<byte>
    requires 0 < w <= size <= |chunk|
  {
    if advance then chunk[|chunk| - size..|chunk| - size + w] else chunk[..w]
  }

  /** What a pump does: its return value, the bytes the sink received, and
      how many read and write calls it issued. */
  datatype PumpRun = PumpRun(ret: int, sent: seq<byte>, readCalls: nat, writeCalls: nat)

  /** The outer loop, about to issue read call `ri` and, after it, write call
      `wi`, with `total` accounted for so far and `sent` received by the sink. */
  function Reading(source: seq<ReadReply>, ri: nat, sink: seq<int>, wi: nat, advance: bool,
                   total: int, sent: seq<byte>): PumpRun
    requires ri <= |source|
    decreases |source| - ri + 1, 0
  {
    if ReadRet(source, ri) <= 0 then PumpRun(total, sent, ri + 1, wi)
    else
      var chunk := source[ri].data;
      Writing(source, ri + 1, sink, wi, advance, chunk, |chunk|, total, sent)
  }

  /** The inner loop, with `size` bytes of `chunk` still unaccounted for and
      write call `wi` next; `ri` is the next read call. */
  function Writing(source: seq<ReadReply>, ri: nat, sink: seq<int>, wi: nat, advance: bool,
                   chunk: seq<byte>, size: int, total: int, sent: seq<byte>): PumpRun
    requires 0 < ri <= |source|
    requires 0 <= size <= |chunk|
    decreases |source| - ri + 1, size + 1
  {
    if size == 0 then Reading(source, ri, sink, wi, advance, total, sent)
    else if WriteFails(sink, wi) then PumpRun(-1, sent, ri, wi + 1)
    else
      var w := WriteRet(sink, wi, size);
      Writing(source, ri, sink, wi + 1, advance, chunk, size - w, total + w, sent + Piece(chunk, size, w, advance))
  }

  /** The pump started afresh on the two scripts. */
  function Run(source: seq<ReadReply>, sink: seq<int>, advance: bool): PumpRun
  {
    Reading(source, 0, sink, 0, advance, 0, [])
  }

  /** The data the source yields before its first read that returns 0 or less. */
  function Input(source: seq<ReadReply>, ri: nat): seq<byte>
    requires ri <= |source|
    decreases |source| - ri
  {
    if ReadRet(source, ri) <= 0 then [] else source[ri].data + Input(source, ri + 1)
  }

  /** The number of reads that return data before the first one that does not. */
  function Chunks(source: seq<ReadReply>, ri: nat): nat
    requires ri <= |source|
    decreases |source| - ri
  {
    if ReadRet(source, ri) <= 0 then 0 else 1 + Chunks(source, ri + 1)
  }

  /** Read call `ri` into `buf`: returns what read returns and fills the
      buffer's head with the chunk. */
  method ReadInto(source: seq<ReadReply>, ri: nat, buf: array<byte>) returns (n: int)
    requires WithinBuffer(source) && buf.Length == BUFLEN
    modifies buf
    ensures n == ReadRet(source, ri)
    ensures n > 0 ==> ri < |source| && source[ri].Got? && buf[..n] == source[ri].data
    ensures n > 0 ==> buf[n..] == old(buf[n..])
    ensures n <= 0 ==> buf[..] == old(buf[..])
  {
    if ri >= |source| {
      n := 0;
    } else if source[ri].Failed? {
      n := -1;
    } else {
      var data := source[ri].data;
      forall j | 0 <= j < |data| {
        buf[j] := data[j];
      }
      n := |data|;
    }
  }

  lemma SliceOfPrefix(a: seq<byte>, n: int, i: int, j: int)
    requires 0 <= i <= j <= n <= |a|
    ensures a[..n][i..j] == a[i..j]
  {
  }

  /** The inner loop of `copyfd`: write the `n` bytes at the head of `buf`
      until they are all accounted for or a write fails, starting at write
      call `wi`. */
  method WriteChunk(sink: seq<int>, advance: bool, buf: array<byte>, n: int,
                    ghost source: seq<ReadReply>, ghost ri: nat, wi: nat, total: int, sent: seq<byte>)
    returns (failed: bool, total': int, sent': seq<byte>, wi': nat)
    requires 0 < ri <= |source| && 0 < n <= buf.Length
    ensures failed ==> Writing(source, ri, sink, wi, advance, buf[..n], n, total, sent) == PumpRun(-1, sent', ri, wi')
    ensures !failed ==> Writing(source, ri, sink, wi, advance, buf[..n], n, total, sent) == Reading(source, ri, sink, wi', advance, total', sent')
  {
    ghost var chunk := buf[..n];
    ghost var run := Writing(source, ri, sink, wi, advance, chunk, n, total, sent);
    total', sent', wi' := total, sent, wi;
    var size, p := n, 0;
    while size > 0
      invariant 0 <= size <= n
      invariant p == n - size
      invariant chunk == buf[..][..n]
      invariant Writing(source, ri, sink, wi', advance, chunk, size, total', sent') == run
      decreases size
    {
      var w := WriteRet(sink, wi', size);
      if w <= 0 {
        return true, total', sent', wi' + 1;
      }
      var piece := if advance then buf[p..p + w] else buf[..w];
      if advance {
        assert piece == buf[..][p..p + w];
        SliceOfPrefix(buf[..], n, p, p + w);
      } else {
        assert piece == buf[..][..w];
        SliceOfPrefix(buf[..], n, 0, w);
      }
      assert piece == Piece(chunk, size, w, advance);
      assert Writing(source, ri, sink, wi', advance, chunk, size, total', sent')
          == Writing(source, ri, sink, wi' + 1, advance, chunk, size - w, total' + w, sent' + piece);
      total', sent', wi' := total' + w, sent' + piece, wi' + 1;
      size, p := size - w, p + w;
    }
    failed := false;
  }

  /** `copyfd`: read chunks into one buffer of BUFLEN bytes and write each
      out before the next read; -1 at the first failed write, otherwise the
      sum of the write counts once a read returns 0 or less. With `advance`
      false this is the code as written: every write is issued from `buf`
      and the cursor `p` is never used. With `advance` true each write starts
      at `p`, which moves past the bytes the previous write took. */
  method CopyFd(source: seq<ReadReply>, sink: seq<int>, advance: bool)
    returns (total: int, sent: seq<byte>, readCalls: nat, writeCalls: nat)
    requires WithinBuffer(source)
    ensures PumpRun(total, sent, readCalls, writeCalls) == Run(source, sink, advance)
  {
    ghost var run := Run(source, sink, advance);
    total, sent, readCalls, writeCalls := 0, [], 0, 0;
    var buf := new byte[BUFLEN];
    var size := ReadInto(source, readCalls, buf);
    readCalls := readCalls + 1;
    while size > 0
      invariant 1 <= readCalls <= |source| + 1
      invariant size == ReadRet(source, readCalls - 1)
      invariant size > 0 ==> readCalls <= |source| && source[readCalls - 1].Got? && buf[..size] == source[readCalls - 1].data
      invariant Reading(source, readCalls - 1, sink, writeCalls, advance, total, sent) == run
      decreases |source| + 1 - readCalls
    {
      var failed;
      failed, total, sent, writeCalls := WriteChunk(sink, advance, buf, size, source, readCalls, writeCalls, total, sent);
      if failed {
        return -1, sent, readCalls, writeCalls;
      }
      size := ReadInto(source, readCalls, buf);
      readCalls := readCalls + 1;
    }
  }
}
