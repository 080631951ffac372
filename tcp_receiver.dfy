/**
 * The receiving half of a TCP endpoint. It learns the zero point from the first
 * SYN, turns each segment's wrapped seqno into a stream index for the
 * reassembler, and reports ackno, window and error back to the peer.
 */
module TcpReceiver {
  import opened Basics
  import opened WrappingIntegers
  import opened TcpMessages

  /**
   * The observers of the inbound byte stream that the receiver consults:
   * bytes_pushed, available_capacity, is_closed and the shared error flag.
   */
  datatype WriterState = WriterState(
    bytesPushed: u64,
    availableCapacity: u64,
    isClosed: bool,
    hasError: bool)

  /** One call `reassembler_.insert(first_index, data, is_last_substring)`. */
  datatype Insertion = Insertion(firstIndex: u64, data: seq<byte>, isLast: bool)

  /**
   * The stream index of a segment's first payload byte: the seqno unwrapped
   * against `bytes_pushed + 1`, plus the SYN flag, minus one, in 64-bit
   * arithmetic (so a non-SYN segment at absolute seqno 0 lands at 2^64 - 1).
   */
  function StreamIndex(seqno: Wrap32, syn: bool, zeroPoint: Wrap32, bytesPushed: u64): (i: u64)
    // The index, plus one for the stream's SYN and less this segment's own SYN, wraps back to its seqno.
    ensures Wrap((i + 1 - (if syn then 1 else 0)) % TWO_TO_64, zeroPoint) == seqno
  {
    var checkpoint := (bytesPushed + 1) % TWO_TO_64;
    var absoluteSeqno := Unwrap(seqno, zeroPoint, checkpoint);
    WrapUnwrap(seqno, zeroPoint, checkpoint);
    var i := (absoluteSeqno + (if syn then 1 else 0) - 1) % TWO_TO_64;
    assert (i + 1 - (if syn then 1 else 0)) % TWO_TO_64 == absoluteSeqno;
    i
  }

  /**
   * A segment whose first payload byte has stream index `k` (so its seqno is
   * the wrap of `k + 1`, or of `k` when it also carries the SYN) is inserted at
   * exactly `k`, provided `k` is within half a period of what was already pushed.
   */
  lemma {:induction false} StreamIndexRecovers(k: u64, syn: bool, zeroPoint: Wrap32, bytesPushed: u64)
    requires bytesPushed + 1 < TWO_TO_64
    requires k + 1 < TWO_TO_64
    requires Dist(k, bytesPushed) < HALF_BASE - 1
    ensures var absoluteSeqno := if syn then k else k + 1;
            StreamIndex(Wrap(absoluteSeqno, zeroPoint), syn, zeroPoint, bytesPushed) == k
  {
    var absoluteSeqno := if syn then k else k + 1;
    var checkpoint := (bytesPushed + 1) % TWO_TO_64;
    assert checkpoint == bytesPushed + 1;
    UnwrapRecovers(absoluteSeqno, zeroPoint, checkpoint);
    var w := Wrap(absoluteSeqno, zeroPoint);
    assert Unwrap(w, zeroPoint, checkpoint) == absoluteSeqno;
    assert absoluteSeqno + (if syn then 1 else 0) - 1 == k;
    assert StreamIndex(w, syn, zeroPoint, bytesPushed) == k % TWO_TO_64;
  }

  class TCPReceiver {
    /** zero_point_: set by the first SYN, then fixed. */
    var zeroPoint: Option<Wrap32>
    /** The reassembler's writer, seen through its observers. */
    var writer: WriterState
    /** Every insertion handed to the reassembler, oldest first. */
    var insertions: seq<Insertion>

    constructor (initialWriter: WriterState)
      ensures zeroPoint == None && writer == initialWriter && insertions == []
    {
      zeroPoint := None;
      writer := initialWriter;
      insertions := [];
    }

    /** Handles one inbound segment. */
    method Receive(message: TCPSenderMessage)
      modifies this
      // An errored stream ignores everything.
      ensures old(writer.hasError) ==>
        zeroPoint == old(zeroPoint) && writer == old(writer) && insertions == old(insertions)
      // RST marks the stream errored and inserts nothing.
      ensures !old(writer.hasError) && message.rst ==>
        zeroPoint == old(zeroPoint) && writer == old(writer).(hasError := true)
        && insertions == old(insertions)
      // Before the connection exists, a segment without SYN is dropped.
      ensures !old(writer.hasError) && !message.rst && old(zeroPoint).None? && !message.syn ==>
        zeroPoint == None && writer == old(writer) && insertions == old(insertions)
      // Otherwise the zero point is the first SYN's seqno and the payload is inserted.
      ensures !old(writer.hasError) && !message.rst && (old(zeroPoint).Some? || message.syn) ==>
        && zeroPoint == (if old(zeroPoint).Some? then old(zeroPoint) else Some(message.seqno))
        && writer == old(writer)
        && insertions == old(insertions) + [Insertion(
             StreamIndex(message.seqno, message.syn, zeroPoint.value, writer.bytesPushed),
             message.payload, message.fin)]
      // A zero point, once set, never changes.
      ensures old(zeroPoint).Some? ==> zeroPoint == old(zeroPoint)
    {
      if writer.hasError {
        return;
      }
      if message.rst {
        writer := writer.(hasError := true);
        return;
      }
      if zeroPoint.None? {
        if !message.syn {
          return;
        }
        zeroPoint := Some(message.seqno);
      }
      var streamIndex := StreamIndex(message.seqno, message.syn, zeroPoint.value, writer.bytesPushed);
      insertions := insertions + [Insertion(streamIndex, message.payload, message.fin)];
    }

    /** The acknowledgement the receiver would send now. */
    function Send(): (m: TCPReceiverMessage)
      reads this
      // The window is the writer's free capacity, clamped to what 16 bits hold.
      ensures m.windowSize <= writer.availableCapacity
      ensures m.windowSize < UINT16_MAX ==> m.windowSize == writer.availableCapacity
      // ackno exists exactly once a SYN has been seen.
      ensures m.ackno.None? <==> zeroPoint.None?
      // The ackno names the next byte the stream expects, counting SYN and a seen FIN.
      ensures m.ackno.Some? && writer.bytesPushed + 2 < TWO_TO_64 ==>
        Unwrap(m.ackno.value, zeroPoint.value, writer.bytesPushed)
          == writer.bytesPushed + 1 + (if writer.isClosed then 1 else 0)
      ensures m.rst == writer.hasError
    {
      var capacity := writer.availableCapacity;
      var windowSize: u16 := if capacity > UINT16_MAX then UINT16_MAX else capacity;
      if zeroPoint.Some? then
        var ackno := (writer.bytesPushed + 1 + (if writer.isClosed then 1 else 0)) % TWO_TO_64;
        var reply := TCPReceiverMessage(Some(Wrap(ackno, zeroPoint.value)), windowSize, writer.hasError);
        if writer.bytesPushed + 2 < TWO_TO_64 then
          UnwrapRecovers(ackno, zeroPoint.value, writer.bytesPushed);
          reply
        else
          reply
      else
        TCPReceiverMessage(None, windowSize, writer.hasError)
    }
  }
}
