/** What the pump promises, stated over `Reading`/`Writing` from any state of
    the loops and then for a fresh run. Each inductive pair follows the two
    loops: the `Reading` lemma hands a fresh chunk to the `Writing` lemma, and
    the `Writing` lemma hands back to `Reading` once the chunk is accounted
    for. */
module PumpProperties {
  import opened Pump

  // ---------------------------------------------------------------------
  // Accounting: the count returned is the number of bytes the sink took.

  lemma {:induction false} ReadingAccounts(source: seq<ReadReply>, ri: nat, sink: seq<int>, wi: nat, advance: bool,
                                           total: int, sent: seq<byte>)
    requires ri <= |source|
    ensures sent <= Reading(source, ri, sink, wi, advance, total, sent).sent
    ensures Reading(source, ri, sink, wi, advance, total, sent).ret == -1
         || Reading(source, ri, sink, wi, advance, total, sent).ret == total + |Reading(source, ri, sink, wi, advance, total, sent).sent| - |sent|
    decreases |source| - ri + 1, 0
  {
    if ReadRet(source, ri) > 0 {
      var chunk := source[ri].data;
      WritingAccounts(source, ri + 1, sink, wi, advance, chunk, |chunk|, total, sent);
    }
  }

  lemma {:induction false} WritingAccounts(source: seq<ReadReply>, ri: nat, sink: seq<int>, wi: nat, advance: bool,
                                           chunk: seq<byte>, size: int, total: int, sent: seq<byte>)
    requires 0 < ri <= |source| && 0 <= size <= |chunk|
    ensures sent <= Writing(source, ri, sink, wi, advance, chunk, size, total, sent).sent
    ensures Writing(source, ri, sink, wi, advance, chunk, size, total, sent).ret == -1
         || Writing(source, ri, sink, wi, advance, chunk, size, total, sent).ret == total + |Writing(source, ri, sink, wi, advance, chunk, size, total, sent).sent| - |sent|
    decreases |source| - ri + 1, size + 1
  {
    if size == 0 {
      ReadingAccounts(source, ri, sink, wi, advance, total, sent);
    } else if !WriteFails(sink, wi) {
      var w := WriteRet(sink, wi, size);
      var piece := Piece(chunk, size, w, advance);
      WritingAccounts(source, ri, sink, wi + 1, advance, chunk, size - w, total + w, sent + piece);
    }
  }

  /** `copyfd` returns -1 or exactly the number of bytes the sink received. */
  lemma RunAccounts(source: seq<ReadReply>, sink: seq<int>, advance: bool)
    ensures Run(source, sink, advance).ret == -1 || Run(source, sink, advance).ret == |Run(source, sink, advance).sent|
  {
    ReadingAccounts(source, 0, sink, 0, advance, 0, []);
  }

  // ---------------------------------------------------------------------
  // Where the pump stops: at the first failed write, or at the first read
  // that returns 0 or less.

  lemma {:induction false} ReadingStopsAtFailedWrite(source: seq<ReadReply>, ri: nat, sink: seq<int>, wi: nat, advance: bool,
                                                     total: int, sent: seq<byte>)
    requires ri <= |source| && total >= 0
    ensures Reading(source, ri, sink, wi, advance, total, sent).writeCalls >= wi
    ensures forall k :: wi <= k < Reading(source, ri, sink, wi, advance, total, sent).writeCalls - 1 ==> !WriteFails(sink, k)
    ensures Reading(source, ri, sink, wi, advance, total, sent).ret < 0 ==>
              Reading(source, ri, sink, wi, advance, total, sent).ret == -1 &&
              Reading(source, ri, sink, wi, advance, total, sent).writeCalls > wi &&
              WriteFails(sink, Reading(source, ri, sink, wi, advance, total, sent).writeCalls - 1)
    ensures Reading(source, ri, sink, wi, advance, total, sent).ret >= 0 ==>
              forall k :: wi <= k < Reading(source, ri, sink, wi, advance, total, sent).writeCalls ==> !WriteFails(sink, k)
    decreases |source| - ri + 1, 0
  {
    if ReadRet(source, ri) > 0 {
      var chunk := source[ri].data;
      WritingStopsAtFailedWrite(source, ri + 1, sink, wi, advance, chunk, |chunk|, total, sent);
    }
  }

  lemma {:induction false} WritingStopsAtFailedWrite(source: seq<ReadReply>, ri: nat, sink: seq<int>, wi: nat, advance: bool,
                                                     chunk: seq<byte>, size: int, total: int, sent: seq<byte>)
    requires 0 < ri <= |source| && 0 <= size <= |chunk| && total >= 0
    ensures Writing(source, ri, sink, wi, advance, chunk, size, total, sent).writeCalls >= wi
    ensures forall k :: wi <= k < Writing(source, ri, sink, wi, advance, chunk, size, total, sent).writeCalls - 1 ==> !WriteFails(sink, k)
    ensures Writing(source, ri, sink, wi, advance, chunk, size, total, sent).ret < 0 ==>
              Writing(source, ri, sink, wi, advance, chunk, size, total, sent).ret == -1 &&
              Writing(source, ri, sink, wi, advance, chunk, size, total, sent).writeCalls > wi &&
              WriteFails(sink, Writing(source, ri, sink, wi, advance, chunk, size, total, sent).writeCalls - 1)
    ensures Writing(source, ri, sink, wi, advance, chunk, size, total, sent).ret >= 0 ==>
              forall k :: wi <= k < Writing(source, ri, sink, wi, advance, chunk, size, total, sent).writeCalls ==> !WriteFails(sink, k)
    decreases |source| - ri + 1, size + 1
  {
    if size == 0 {
      ReadingStopsAtFailedWrite(source, ri, sink, wi, advance, total, sent);
    } else if !WriteFails(sink, wi) {
      var w := WriteRet(sink, wi, size);
      WritingStopsAtFailedWrite(source, ri, sink, wi + 1, advance, chunk, size - w, total + w, sent + Piece(chunk, size, w, advance));
    }
  }

  lemma {:induction false} ReadingStopsAtEndOfInput(source: seq<ReadReply>, ri: nat, sink: seq<int>, wi: nat, advance: bool,
                                                    total: int, sent: seq<byte>)
    requires ri <= |source| && total >= 0
    ensures Reading(source, ri, sink, wi, advance, total, sent).readCalls > ri
    ensures forall k :: ri <= k < Reading(source, ri, sink, wi, advance, total, sent).readCalls - 1 ==> ReadRet(source, k) > 0
    ensures Reading(source, ri, sink, wi, advance, total, sent).ret >= 0
        <==> ReadRet(source, Reading(source, ri, sink, wi, advance, total, sent).readCalls - 1) <= 0
    decreases |source| - ri + 1, 0
  {
    if ReadRet(source, ri) > 0 {
      var chunk := source[ri].data;
      WritingStopsAtEndOfInput(source, ri + 1, sink, wi, advance, chunk, |chunk|, total, sent);
    }
  }

  lemma {:induction false} WritingStopsAtEndOfInput(source: seq<ReadReply>, ri: nat, sink: seq<int>, wi: nat, advance: bool,
                                                    chunk: seq<byte>, size: int, total: int, sent: seq<byte>)
    requires 0 < ri <= |source| && 0 <= size <= |chunk| && total >= 0
    ensures Writing(source, ri, sink, wi, advance, chunk, size, total, sent).readCalls >= ri
    ensures forall k :: ri <= k < Writing(source, ri, sink, wi, advance, chunk, size, total, sent).readCalls - 1 ==> ReadRet(source, k) > 0
    ensures Writing(source, ri, sink, wi, advance, chunk, size, total, sent).ret >= 0 ==>
              Writing(source, ri, sink, wi, advance, chunk, size, total, sent).readCalls > ri &&
              ReadRet(source, Writing(source, ri, sink, wi, advance, chunk, size, total, sent).readCalls - 1) <= 0
    ensures Writing(source, ri, sink, wi, advance, chunk, size, total, sent).ret < 0 ==>
              Writing(source, ri, sink, wi, advance, chunk, size, total, sent).readCalls == ri ||
              ReadRet(source, Writing(source, ri, sink, wi, advance, chunk, size, total, sent).readCalls - 1) > 0
    decreases |source| - ri + 1, size + 1
  {
    if size == 0 {
      ReadingStopsAtEndOfInput(source, ri, sink, wi, advance, total, sent);
    } else if !WriteFails(sink, wi) {
      var w := WriteRet(sink, wi, size);
      WritingStopsAtEndOfInput(source, ri, sink, wi + 1, advance, chunk, size - w, total + w, sent + Piece(chunk, size, w, advance));
    }
  }

  /** The inner loop issues no read: it either fails at a write, with read
      call `ri` never issued, or accounts for the whole chunk and hands over
      to the outer loop at read call `ri`. */
  lemma {:induction false} WritingFinishesChunk(source: seq<ReadReply>, ri: nat, sink: seq<int>, wi: nat, advance: bool,
                                                chunk: seq<byte>, size: int, total: int, sent: seq<byte>)
    requires 0 < ri <= |source| && 0 <= size <= |chunk|
    ensures (Writing(source, ri, sink, wi, advance, chunk, size, total, sent).ret == -1 &&
             Writing(source, ri, sink, wi, advance, chunk, size, total, sent).readCalls == ri)
         || exists wi': nat, total': int, sent': seq<byte> :: wi <= wi' && total' == total + size && sent <= sent' &&
              Writing(source, ri, sink, wi, advance, chunk, size, total, sent) == Reading(source, ri, sink, wi', advance, total', sent')
    decreases size
  {
    var r := Writing(source, ri, sink, wi, advance, chunk, size, total, sent);
    if size == 0 {
      assert r == Reading(source, ri, sink, wi, advance, total, sent);
    } else if !WriteFails(sink, wi) {
      var w := WriteRet(sink, wi, size);
      var next := sent + Piece(chunk, size, w, advance);
      assert r == Writing(source, ri, sink, wi + 1, advance, chunk, size - w, total + w, next);
      WritingFinishesChunk(source, ri, sink, wi + 1, advance, chunk, size - w, total + w, next);
      if r.ret != -1 || r.readCalls != ri {
        var wi': nat, total': int, sent': seq<byte> :| wi + 1 <= wi' && total' == total + w + (size - w) && next <= sent' &&
          r == Reading(source, ri, sink, wi', advance, total', sent');
        assert sent <= sent' by {
          assert sent == next[..|sent|] && next == sent'[..|next|];
        }
      }
    }
  }

  // ---------------------------------------------------------------------
  // A read error ends the pump exactly as end of stream does.

  /** Two scripts that differ only at read call `k`, where both stop the pump. */
  predicate DifferOnlyAtStop(s1: seq<ReadReply>, s2: seq<ReadReply>, k: nat)
  {
    |s1| == |s2| && k < |s1| && ReadRet(s1, k) <= 0 && ReadRet(s2, k) <= 0 &&
    forall j :: 0 <= j < |s1| && j != k ==> s1[j] == s2[j]
  }

  lemma {:induction false} ReadingStopIsStop(s1: seq<ReadReply>, s2: seq<ReadReply>, k: nat, ri: nat, sink: seq<int>, wi: nat,
                                             advance: bool, total: int, sent: seq<byte>)
    requires DifferOnlyAtStop(s1, s2, k) && ri <= |s1|
    ensures Reading(s1, ri, sink, wi, advance, total, sent) == Reading(s2, ri, sink, wi, advance, total, sent)
    decreases |s1| - ri + 1, 0
  {
    if ri != k && ri < |s1| {
      assert s1[ri] == s2[ri];
      if ReadRet(s1, ri) > 0 {
        var chunk := s1[ri].data;
        WritingStopIsStop(s1, s2, k, ri + 1, sink, wi, advance, chunk, |chunk|, total, sent);
      }
    }
  }

  lemma {:induction false} WritingStopIsStop(s1: seq<ReadReply>, s2: seq<ReadReply>, k: nat, ri: nat, sink: seq<int>, wi: nat,
                                             advance: bool, chunk: seq<byte>, size: int, total: int, sent: seq<byte>)
    requires DifferOnlyAtStop(s1, s2, k) && 0 < ri <= |s1| && 0 <= size <= |chunk|
    ensures Writing(s1, ri, sink, wi, advance, chunk, size, total, sent) == Writing(s2, ri, sink, wi, advance, chunk, size, total, sent)
    decreases |s1| - ri + 1, size + 1
  {
    if size == 0 {
      ReadingStopIsStop(s1, s2, k, ri, sink, wi, advance, total, sent);
    } else if !WriteFails(sink, wi) {
      var w := WriteRet(sink, wi, size);
      WritingStopIsStop(s1, s2, k, ri, sink, wi + 1, advance, chunk, size - w, total + w, sent + Piece(chunk, size, w, advance));
    }
  }

  /** A read that fails (-1) and a read at end of stream (0) end `copyfd` the
      same way: neither is reported as an error. */
  lemma ReadErrorEndsLikeEndOfStream(source: seq<ReadReply>, k: nat, sink: seq<int>, advance: bool)
    requires k < |source|
    ensures Run(source[k := Failed], sink, advance) == Run(source[k := Got([])], sink, advance)
  {
    ReadingStopIsStop(source[k := Failed], source[k := Got([])], k, 0, sink, 0, advance, 0, []);
  }

  // ---------------------------------------------------------------------
  // With a sink that takes every write whole, the pump copies its input.

  /** From read call `ri` on, every chunk the source yields is taken by the
      sink in one write: the write after read `ri` takes at least the
      chunk's length, and so on until the first read of 0 or less. */
  predicate WholeWrites(source: seq<ReadReply>, ri: nat, sink: seq<int>, wi: nat)
    decreases |source| - ri
  {
    ReadRet(source, ri) <= 0 ||
    (wi < |sink| && sink[wi] >= |source[ri].data| && WholeWrites(source, ri + 1, sink, wi + 1))
  }

  /** A chunk the sink takes in one write: the pump moves on to the next
      read with the chunk delivered. */
  lemma WholeWriteStep(source: seq<ReadReply>, ri: nat, sink: seq<int>, wi: nat, advance: bool,
                       total: int, sent: seq<byte>)
    requires ri < |source| && source[ri].Got? && 0 < |source[ri].data|
    requires wi < |sink| && sink[wi] >= |source[ri].data|
    ensures Reading(source, ri, sink, wi, advance, total, sent)
         == Reading(source, ri + 1, sink, wi + 1, advance, total + |source[ri].data|, sent + source[ri].data)
  {
    var chunk := source[ri].data;
    assert WriteRet(sink, wi, |chunk|) == |chunk|;
    assert Piece(chunk, |chunk|, |chunk|, advance) == chunk;
    assert Reading(source, ri, sink, wi, advance, total, sent)
        == Writing(source, ri + 1, sink, wi, advance, chunk, |chunk|, total, sent)
        == Writing(source, ri + 1, sink, wi + 1, advance, chunk, 0, total + |chunk|, sent + chunk);
  }

  lemma {:induction false} WholeWritesCopyInput(source: seq<ReadReply>, ri: nat, sink: seq<int>, wi: nat, advance: bool,
                                                total: int, sent: seq<byte>)
    requires ri <= |source| && WholeWrites(source, ri, sink, wi)
    ensures Reading(source, ri, sink, wi, advance, total, sent)
         == PumpRun(total + |Input(source, ri)|, sent + Input(source, ri), ri + Chunks(source, ri) + 1, wi + Chunks(source, ri))
    decreases |source| - ri
  {
    if ReadRet(source, ri) > 0 {
      var chunk := source[ri].data;
      WholeWriteStep(source, ri, sink, wi, advance, total, sent);
      WholeWritesCopyInput(source, ri + 1, sink, wi + 1, advance, total + |chunk|, sent + chunk);
      assert sent + chunk + Input(source, ri + 1) == sent + Input(source, ri);
    }
  }

  /** When every write takes the whole chunk, `copyfd` delivers the source's
      data up to its first read of 0 or less and returns its length; it
      issues one read per chunk plus the final one and one write per chunk. */
  lemma {:induction false} RunCopiesInputOnWholeWrites(source: seq<ReadReply>, sink: seq<int>, advance: bool)
    requires WholeWrites(source, 0, sink, 0)
    ensures Run(source, sink, advance)
         == PumpRun(|Input(source, 0)|, Input(source, 0), Chunks(source, 0) + 1, Chunks(source, 0))
  {
    WholeWritesCopyInput(source, 0, sink, 0, advance, 0, []);
  }

  /** As written, `copyfd` returns the length of the source's data exactly
      when none of the writes it issued failed. */
  lemma AsWrittenReportsInputUnlessWriteFails(source: seq<ReadReply>, sink: seq<int>)
    ensures (forall k :: 0 <= k < Run(source, sink, false).writeCalls ==> !WriteFails(sink, k))
        <==> Run(source, sink, false).ret == |Input(source, 0)|
  {
    ReadingStopsAtFailedWrite(source, 0, sink, 0, false, 0, []);
    AsWrittenReportsInputLength(source, sink);
  }

  // ---------------------------------------------------------------------
  // The corrected pump delivers a prefix of its input, all of it on success.

  lemma {:induction false} ReadingDeliversInput(source: seq<ReadReply>, ri: nat, sink: seq<int>, wi: nat,
                                                total: int, sent: seq<byte>)
    requires ri <= |source| && total >= 0
    ensures Reading(source, ri, sink, wi, true, total, sent).sent <= sent + Input(source, ri)
    ensures Reading(source, ri, sink, wi, true, total, sent).ret >= 0 ==>
              Reading(source, ri, sink, wi, true, total, sent).sent == sent + Input(source, ri)
    ensures Reading(source, ri, sink, wi, true, total, sent).ret < 0 ==>
              |Reading(source, ri, sink, wi, true, total, sent).sent| < |sent + Input(source, ri)|
    decreases |source| - ri + 1, 0
  {
    if ReadRet(source, ri) > 0 {
      var chunk := source[ri].data;
      WritingDeliversInput(source, ri + 1, sink, wi, chunk, |chunk|, total, sent);
      assert chunk[0..] == chunk;
      assert sent + chunk + Input(source, ri + 1) == sent + Input(source, ri);
    }
  }

  lemma SplitTail(chunk: seq<byte>, from: int, w: int, sent: seq<byte>, after: seq<byte>)
    requires 0 <= from <= from + w <= |chunk|
    ensures sent + chunk[from..from + w] + chunk[from + w..] + after == sent + chunk[from..] + after
  {
    assert chunk[from..from + w] + chunk[from + w..] == chunk[from..];
  }

  lemma {:induction false} WritingDeliversInput(source: seq<ReadReply>, ri: nat, sink: seq<int>, wi: nat,
                                                chunk: seq<byte>, size: int, total: int, sent: seq<byte>)
    requires 0 < ri <= |source| && 0 <= size <= |chunk| && total >= 0
    ensures Writing(source, ri, sink, wi, true, chunk, size, total, sent).sent
         <= sent + chunk[|chunk| - size..] + Input(source, ri)
    ensures Writing(source, ri, sink, wi, true, chunk, size, total, sent).ret >= 0 ==>
              (Writing(source, ri, sink, wi, true, chunk, size, total, sent).sent
               == sent + chunk[|chunk| - size..] + Input(source, ri))
    ensures Writing(source, ri, sink, wi, true, chunk, size, total, sent).ret < 0 ==>
              |Writing(source, ri, sink, wi, true, chunk, size, total, sent).sent|
              < |sent + chunk[|chunk| - size..] + Input(source, ri)|
    decreases |source| - ri + 1, size + 1
  {
    if size == 0 {
      assert chunk[|chunk|..] == [];
      assert sent + chunk[|chunk| - size..] + Input(source, ri) == sent + Input(source, ri);
      ReadingDeliversInput(source, ri, sink, wi, total, sent);
    } else if !WriteFails(sink, wi) {
      var w := WriteRet(sink, wi, size);
      var from := |chunk| - size;
      var piece := chunk[from..from + w];
      assert piece == Piece(chunk, size, w, true);
      WritingDeliversInput(source, ri, sink, wi + 1, chunk, size - w, total + w, sent + piece);
      SplitTail(chunk, from, w, sent, Input(source, ri));
    }
  }

  /** The corrected `copyfd` never delivers anything but the source's data,
      in order; it succeeds exactly when it has delivered all of it, and then
      returns its length. */
  lemma CorrectedRunDeliversInput(source: seq<ReadReply>, sink: seq<int>)
    ensures Run(source, sink, true).sent <= Input(source, 0)
    ensures Run(source, sink, true).ret >= 0 <==> Run(source, sink, true).sent == Input(source, 0)
    ensures Run(source, sink, true).ret >= 0 ==> Run(source, sink, true).ret == |Input(source, 0)|
  {
    ReadingDeliversInput(source, 0, sink, 0, 0, []);
    ReadingAccounts(source, 0, sink, 0, true, 0, []);
  }

  // ---------------------------------------------------------------------
  // The cursor changes what is sent, never what is counted.

  lemma {:induction false} ReadingSameAccounting(source: seq<ReadReply>, ri: nat, sink: seq<int>, wi: nat,
                                                 total: int, sent1: seq<byte>, sent2: seq<byte>)
    requires ri <= |source|
    ensures Reading(source, ri, sink, wi, false, total, sent1).ret == Reading(source, ri, sink, wi, true, total, sent2).ret
    ensures Reading(source, ri, sink, wi, false, total, sent1).readCalls == Reading(source, ri, sink, wi, true, total, sent2).readCalls
    ensures Reading(source, ri, sink, wi, false, total, sent1).writeCalls == Reading(source, ri, sink, wi, true, total, sent2).writeCalls
    ensures |Reading(source, ri, sink, wi, false, total, sent1).sent| - |sent1| == |Reading(source, ri, sink, wi, true, total, sent2).sent| - |sent2|
    decreases |source| - ri + 1, 0
  {
    if ReadRet(source, ri) > 0 {
      var chunk := source[ri].data;
      WritingSameAccounting(source, ri + 1, sink, wi, chunk, |chunk|, total, sent1, sent2);
    }
  }

  lemma {:induction false} WritingSameAccounting(source: seq<ReadReply>, ri: nat, sink: seq<int>, wi: nat,
                                                 chunk: seq<byte>, size: int, total: int, sent1: seq<byte>, sent2: seq<byte>)
    requires 0 < ri <= |source| && 0 <= size <= |chunk|
    ensures Writing(source, ri, sink, wi, false, chunk, size, total, sent1).ret == Writing(source, ri, sink, wi, true, chunk, size, total, sent2).ret
    ensures Writing(source, ri, sink, wi, false, chunk, size, total, sent1).readCalls == Writing(source, ri, sink, wi, true, chunk, size, total, sent2).readCalls
    ensures Writing(source, ri, sink, wi, false, chunk, size, total, sent1).writeCalls == Writing(source, ri, sink, wi, true, chunk, size, total, sent2).writeCalls
    ensures |Writing(source, ri, sink, wi, false, chunk, size, total, sent1).sent| - |sent1| == |Writing(source, ri, sink, wi, true, chunk, size, total, sent2).sent| - |sent2|
    decreases |source| - ri + 1, size + 1
  {
    if size == 0 {
      ReadingSameAccounting(source, ri, sink, wi, total, sent1, sent2);
    } else if !WriteFails(sink, wi) {
      var w := WriteRet(sink, wi, size);
      WritingSameAccounting(source, ri, sink, wi + 1, chunk, size - w, total + w,
                            sent1 + Piece(chunk, size, w, false), sent2 + Piece(chunk, size, w, true));
    }
  }

  /** As written, `copyfd` reports the same count as the corrected pump and
      the sink takes as many bytes: on success it claims to have copied
      exactly the source's data length, whatever bytes actually went out, and
      it fails exactly when fewer bytes went out. */
  lemma AsWrittenReportsInputLength(source: seq<ReadReply>, sink: seq<int>)
    ensures Run(source, sink, false).ret == Run(source, sink, true).ret
    ensures |Run(source, sink, false).sent| == |Run(source, sink, true).sent| <= |Input(source, 0)|
    ensures Run(source, sink, false).ret >= 0 <==> |Run(source, sink, false).sent| == |Input(source, 0)|
    ensures Run(source, sink, false).ret >= 0 ==> Run(source, sink, false).ret == |Input(source, 0)|
  {
    ReadingSameAccounting(source, 0, sink, 0, 0, [], []);
    CorrectedRunDeliversInput(source, sink);
    var t := Run(source, sink, true).sent;
    assert t == Input(source, 0)[..|t|];
  }

  // ---------------------------------------------------------------------
  // The partial-write defect.

  /** As written, every write of the inner loop, the first or any later
      one, appends the head of the chunk: the `w` bytes it takes are the
      chunk's first `w` bytes, whatever is still unaccounted for. */
  lemma AsWrittenWritesFromHead(source: seq<ReadReply>, ri: nat, sink: seq<int>, wi: nat,
                                chunk: seq<byte>, size: int, total: int, sent: seq<byte>)
    requires 0 < ri <= |source| && 0 < size <= |chunk| && !WriteFails(sink, wi)
    ensures |sent| + WriteRet(sink, wi, size) <= |Writing(source, ri, sink, wi, false, chunk, size, total, sent).sent|
    ensures Writing(source, ri, sink, wi, false, chunk, size, total, sent).sent[|sent|..|sent| + WriteRet(sink, wi, size)]
         == chunk[..WriteRet(sink, wi, size)]
  {
    var w := WriteRet(sink, wi, size);
    var next := sent + chunk[..w];
    WritingAccounts(source, ri, sink, wi + 1, false, chunk, size - w, total + w, next);
    var r := Writing(source, ri, sink, wi + 1, false, chunk, size - w, total + w, next).sent;
    assert r[|sent|..|sent| + w] == next[|sent|..|sent| + w];
  }

  /** Corrected, every write of the inner loop appends the bytes that follow
      the ones already taken: the `w` bytes it takes are the chunk's bytes
      from offset `|chunk| - size` on. */
  lemma CorrectedWritesFromCursor(source: seq<ReadReply>, ri: nat, sink: seq<int>, wi: nat,
                                  chunk: seq<byte>, size: int, total: int, sent: seq<byte>)
    requires 0 < ri <= |source| && 0 < size <= |chunk| && !WriteFails(sink, wi)
    ensures |sent| + WriteRet(sink, wi, size) <= |Writing(source, ri, sink, wi, true, chunk, size, total, sent).sent|
    ensures Writing(source, ri, sink, wi, true, chunk, size, total, sent).sent[|sent|..|sent| + WriteRet(sink, wi, size)]
         == chunk[|chunk| - size..|chunk| - size + WriteRet(sink, wi, size)]
  {
    var w := WriteRet(sink, wi, size);
    var next := sent + chunk[|chunk| - size..|chunk| - size + w];
    WritingAccounts(source, ri, sink, wi + 1, true, chunk, size - w, total + w, next);
    var r := Writing(source, ri, sink, wi + 1, true, chunk, size - w, total + w, next).sent;
    assert r[|sent|..|sent| + w] == next[|sent|..|sent| + w];
  }

  /** As written: after a partial first write of `w` bytes of a chunk, the
      next successful write sends the chunk's first byte again, so the sink's
      byte at offset `w` of this chunk is `chunk[0]`. */
  lemma AsWrittenResendsHead(source: seq<ReadReply>, ri: nat, sink: seq<int>, wi: nat,
                             chunk: seq<byte>, total: int, sent: seq<byte>)
    requires 0 < ri <= |source|
    requires wi + 1 < |sink| && 0 < sink[wi] < |chunk| && sink[wi + 1] > 0
    ensures |sent| + sink[wi] < |Writing(source, ri, sink, wi, false, chunk, |chunk|, total, sent).sent|
    ensures Writing(source, ri, sink, wi, false, chunk, |chunk|, total, sent).sent[|sent| + sink[wi]] == chunk[0]
  {
    var w1 := sink[wi];
    var sent1 := sent + chunk[..w1];
    assert Writing(source, ri, sink, wi, false, chunk, |chunk|, total, sent)
        == Writing(source, ri, sink, wi + 1, false, chunk, |chunk| - w1, total + w1, sent1);
    AsWrittenWritesFromHead(source, ri, sink, wi + 1, chunk, |chunk| - w1, total + w1, sent1);
    var r := Writing(source, ri, sink, wi + 1, false, chunk, |chunk| - w1, total + w1, sent1).sent;
    var w2 := WriteRet(sink, wi + 1, |chunk| - w1);
    assert r[|sent1|..|sent1| + w2][0] == chunk[..w2][0];
  }

  /** Corrected: in the same situation the sink's byte at offset `w` is
      `chunk[w]`, the byte that follows the ones already written. */
  lemma CorrectedContinuesAfterPartialWrite(source: seq<ReadReply>, ri: nat, sink: seq<int>, wi: nat,
                                            chunk: seq<byte>, total: int, sent: seq<byte>)
    requires 0 < ri <= |source|
    requires wi + 1 < |sink| && 0 < sink[wi] < |chunk| && sink[wi + 1] > 0
    ensures |sent| + sink[wi] < |Writing(source, ri, sink, wi, true, chunk, |chunk|, total, sent).sent|
    ensures Writing(source, ri, sink, wi, true, chunk, |chunk|, total, sent).sent[|sent| + sink[wi]] == chunk[sink[wi]]
  {
    var w1 := sink[wi];
    var sent1 := sent + chunk[..w1];
    assert Piece(chunk, |chunk|, w1, true) == chunk[..w1];
    assert Writing(source, ri, sink, wi, true, chunk, |chunk|, total, sent)
        == Writing(source, ri, sink, wi + 1, true, chunk, |chunk| - w1, total + w1, sent1);
    CorrectedWritesFromCursor(source, ri, sink, wi + 1, chunk, |chunk| - w1, total + w1, sent1);
    var r := Writing(source, ri, sink, wi + 1, true, chunk, |chunk| - w1, total + w1, sent1).sent;
    var w2 := WriteRet(sink, wi + 1, |chunk| - w1);
    assert r[|sent1|..|sent1| + w2][0] == chunk[w1..w1 + w2][0];
  }

  /** A two-byte stream and a sink that takes one byte per write: as written
      the sink receives [1, 1] and `copyfd` still reports 2; corrected it
      receives [1, 2]. */
  lemma PartialWriteExample()
    ensures Input([Got([1, 2])], 0) == [1, 2]
    ensures Run([Got([1, 2])], [1, 1], false) == PumpRun(2, [1, 1], 2, 2)
    ensures Run([Got([1, 2])], [1, 1], true) == PumpRun(2, [1, 2], 2, 2)
  {
    var source := [Got([1, 2])];
    var chunk: seq<byte> := [1, 2];
    assert Piece(chunk, 2, 1, false) == [1];
    assert Piece(chunk, 1, 1, false) == [1];
    assert Piece(chunk, 2, 1, true) == [1];
    assert Piece(chunk, 1, 1, true) == [2];
  }
}
