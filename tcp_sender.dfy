/**
 * The sending half of a TCP endpoint: it cuts the outgoing byte stream into
 * segments that fit the peer's window, places SYN and FIN, keeps the
 * unacknowledged segments in send order, and retransmits the oldest one with
 * exponential backoff (sections 5.2 to 5.6 of RFC 6298).
 */
module TcpSender {
  import opened Basics
  import opened WrappingIntegers
  import opened TcpMessages

  /** The retransmission timer: a timeout, the time elapsed, and whether it runs. */
  class RetransmissionTimer {
    var rto: nat
    var elapsed: nat
    var isActive: bool

    constructor (initialRto: nat)
      ensures rto == initialRto && elapsed == 0 && !isActive
    {
      rto := initialRto;
      elapsed := 0;
      isActive := false;
    }

    /** Starts the timer; elapsed time and timeout are kept. */
    method Active()
      modifies this`isActive
      ensures isActive
    {
      isActive := true;
    }

    /** Restarts the count of elapsed time; the timeout is kept. */
    method Reset()
      modifies this
      ensures elapsed == 0 && rto == old(rto) && isActive == old(isActive)
    {
      elapsed := 0;
    }

    /** Time passes only for a running timer. */
    method Tick(ms: nat)
      modifies this
      ensures elapsed == old(elapsed) + (if isActive then ms else 0)
      ensures rto == old(rto) && isActive == old(isActive)
    {
      elapsed := elapsed + if isActive then ms else 0;
    }

    /** Exponential backoff: the timeout doubles. */
    method Timeout()
      modifies this
      ensures rto == 2 * old(rto) && elapsed == old(elapsed) && isActive == old(isActive)
    {
      rto := 2 * rto;
    }

    /** Expiry, taken as: running, and at least one timeout has elapsed. */
    predicate IsExpired(): (e: bool)
      reads this
      ensures e ==> isActive
    {
      isActive && elapsed >= rto
    }
  }

  function Flag(b: bool): nat
  {
    if b then 1 else 0
  }

  /** Sequence numbers a queue of segments adds to the in-flight count, `margin` off each. */
  function Counted(q: seq<TCPSenderMessage>, margin: int): int
  {
    if q == [] then 0 else q[0].SequenceLength() - margin + Counted(q[1..], margin)
  }

  lemma {:induction false} CountedAppend(q: seq<TCPSenderMessage>, m: TCPSenderMessage, margin: int)
    ensures Counted(q + [m], margin) == Counted(q, margin) + m.SequenceLength() - margin
  {
    if q != [] {
      assert (q + [m])[1..] == q[1..] + [m];
      CountedAppend(q[1..], m, margin);
    }
  }

  /** Counting one more segment of a prefix. */
  lemma CountedPrefixStep(q: seq<TCPSenderMessage>, i: nat, margin: int)
    requires i < |q|
    ensures Counted(q[..i + 1], margin) == Counted(q[..i], margin) + q[i].SequenceLength() - margin
  {
    assert q[..i + 1] == q[..i] + [q[i]];
    CountedAppend(q[..i], q[i], margin);
  }

  /**
   * No suffix of a queue counts negatively: each segment occupies at least the
   * margin, since a margin of one only ever applies to segments that carry SYN.
   */
  lemma {:induction false} CountedNonNegative(q: seq<TCPSenderMessage>, margin: int)
    requires margin == 0 || (margin == 1 && AllCarrySyn(q))
    ensures Counted(q, margin) >= 0
  {
    if q != [] {
      assert margin == 1 ==> q[0].syn;
      CountedNonNegative(q[1..], margin);
    }
  }

  /**
   * The in-flight count is what the queue counts, each segment less the SYN_
   * discount, plus the SYN itself once it was sent while SYN_ is set.
   */
  ghost predicate InFlightMatches(q: seq<TCPSenderMessage>, inFlight: int, syn: bool, sentSyn: bool)
  {
    inFlight == Counted(q, Flag(syn)) + Flag(syn && sentSyn)
  }

  /** Every segment of the queue has its SYN flag set. */
  ghost predicate AllCarrySyn(q: seq<TCPSenderMessage>)
  {
    forall i :: 0 <= i < |q| ==> q[i].syn
  }

  /** All the payload bytes of a queue of segments, in order. */
  function Payloads(q: seq<TCPSenderMessage>): seq<byte>
  {
    if q == [] then [] else q[0].payload + Payloads(q[1..])
  }

  lemma {:induction false} PayloadsAppend(q: seq<TCPSenderMessage>, m: TCPSenderMessage)
    ensures Payloads(q + [m]) == Payloads(q) + m.payload
  {
    if q != [] {
      assert (q + [m])[1..] == q[1..] + [m];
      PayloadsAppend(q[1..], m);
    }
  }

  /**
   * How many front segments the acknowledgement loop pops: it stops at the
   * first segment for which `ackno <= ack_seq_` or `ackno < ack_seq_ +
   * sequence_length - SYN`, and each pop advances `ack_seq_` by the segment's
   * length less `margin`.
   */
  function AckedCount(q: seq<TCPSenderMessage>, ackSeq: int, ackno: int, margin: int): (k: nat)
    ensures k <= |q|
  {
    if q == [] || ackno <= ackSeq || ackno < ackSeq + q[0].SequenceLength() - Flag(q[0].syn) then 0
    else 1 + AckedCount(q[1..], ackSeq + q[0].SequenceLength() - margin, ackno, margin)
  }

  /** A segment the ackno reaches is popped, and counting goes on after it. */
  lemma AckedCountStep(q: seq<TCPSenderMessage>, ackSeq: int, ackno: int, margin: int)
    requires q != [] && ackSeq < ackno && ackSeq + q[0].SequenceLength() - Flag(q[0].syn) <= ackno
    ensures AckedCount(q, ackSeq, ackno, margin)
            == 1 + AckedCount(q[1..], ackSeq + q[0].SequenceLength() - margin, ackno, margin)
  {
  }

  /**
   * After the pops, the acknowledged count exceeds the ackno by at most the last
   * popped segment's SYN flag less the margin: never by more than one, and not
   * at all when every segment's SYN is discounted.
   */
  lemma {:induction false} AckedWithinAckno(q: seq<TCPSenderMessage>, ackSeq: int, ackno: int, margin: int)
    ensures var k := AckedCount(q, ackSeq, ackno, margin);
            k > 0 ==> ackSeq + Counted(q[..k], margin) <= ackno + Flag(q[k - 1].syn) - margin
  {
    var k := AckedCount(q, ackSeq, ackno, margin);
    if k > 1 {
      var next := ackSeq + q[0].SequenceLength() - margin;
      AckedWithinAckno(q[1..], next, ackno, margin);
      assert q[..k][1..] == q[1..][..k - 1];
    } else if k == 1 {
      assert q[..1][1..] == [];
    }
  }

  /** A later (larger) ackno pops at least as many segments. */
  lemma {:induction false} AckedCountMonotone(q: seq<TCPSenderMessage>, ackSeq: int, ackno1: int, ackno2: int, margin: int)
    requires ackno1 <= ackno2
    ensures AckedCount(q, ackSeq, ackno1, margin) <= AckedCount(q, ackSeq, ackno2, margin)
  {
    if AckedCount(q, ackSeq, ackno1, margin) > 0 {
      AckedCountMonotone(q[1..], ackSeq + q[0].SequenceLength() - margin, ackno1, ackno2, margin);
    }
  }

  /**
   * The pop test subtracts the segment's own SYN flag: when SYN is not
   * discounted (margin 0), a first segment carrying SYN and two payload bytes
   * is popped by an ackno one short of its end.
   */
  lemma SynSegmentPoppedOneEarly(m: TCPSenderMessage)
    requires m.syn && |m.payload| == 2 && !m.fin
    ensures m.SequenceLength() == 3
    ensures AckedCount([m], 0, 2, 0) == 1
  {
  }

  /**
   * A batch of segments sent by one Push: payloads within the maximum, RST as
   * the stream's error flag, SYN on the first when no SYN was sent before, and
   * no FIN before the last.
   */
  ghost predicate WellFormedBatch(sent: seq<TCPSenderMessage>, sentSyn0: bool, maxPayload: nat, error: bool)
  {
    && (forall i :: 0 <= i < |sent| ==> |sent[i].payload| <= maxPayload && sent[i].rst == error)
    && (!sentSyn0 && sent != [] ==> sent[0].syn)
    && (forall i :: 0 <= i < |sent| - 1 ==> !sent[i].fin)
  }

  lemma WellFormedBatchAppend(sent: seq<TCPSenderMessage>, m: TCPSenderMessage, sentSyn0: bool, maxPayload: nat, error: bool)
    requires WellFormedBatch(sent, sentSyn0, maxPayload, error)
    requires |m.payload| <= maxPayload && m.rst == error
    requires !sentSyn0 && sent == [] ==> m.syn
    requires sent != [] ==> !sent[|sent| - 1].fin
    ensures WellFormedBatch(sent + [m], sentSyn0, maxPayload, error)
  {
  }

  /**
   * One segment `m` of Push, started with `inFlight` sequence numbers in
   * flight over `ackSeq` and `bytes` buffered, leaving `inFlightEnd` in flight
   * and `bytesEnd` buffered: it is started only while fewer than `window` are
   * in flight and occupies at least one more; its seqno is the wrap of
   * `ackSeq + inFlight`; SYN is on the connection's first segment and SYN_
   * (`syn`) on later ones; it takes the front of the buffer, as many bytes as
   * the stream, MAX_PAYLOAD_SIZE and the window's room allow (none when `fin`,
   * FIN_, was set before its bytes were read); and it carries FIN exactly when
   * the stream is finished once they are read and the segment, less its SYN
   * discount, still fits the window.
   */
  ghost predicate Packs(m: TCPSenderMessage, isn: Wrap32, ackSeq: int, inFlight: int, bytes: seq<byte>,
                        sentSyn: bool, syn: bool, window: nat, maxPayload: nat, fin: bool, closed: bool,
                        inFlightEnd: int, bytesEnd: seq<byte>)
  {
    var discount := if sentSyn then Flag(syn) else 0;
    && inFlight < window
    && inFlightEnd == inFlight + (m.SequenceLength() - discount)
    && inFlightEnd > inFlight
    && m.seqno == Wrap((ackSeq + inFlight) % TWO_TO_64, isn)
    && m.syn == (!sentSyn || syn)
    && m.payload + bytesEnd == bytes
    && |m.payload| == (if fin then 0 else Min(|bytes|, Min(maxPayload, window - inFlight - Flag(!sentSyn))))
    && (m.fin <==> (fin || (closed && bytesEnd == [])) && |m.payload| + Flag(m.syn) + 1 - discount + inFlight <= window)
  }

  /**
   * The segments of one Push, sent one after another from `inFlight` in
   * flight with `bytes` buffered, each as `Packs` says from where the previous
   * one ended; `fin` is FIN_ as it was before Push read any bytes. After the
   * last, `inFlightEnd` are in flight and `bytesEnd` are still buffered.
   * Stated from the last segment back, so that one more segment unfolds to
   * the batch before it.
   */
  ghost predicate Packetised(sent: seq<TCPSenderMessage>, isn: Wrap32, ackSeq: int, inFlight: int,
                             bytes: seq<byte>, sentSyn: bool, syn: bool, window: nat, maxPayload: nat,
                             fin: bool, closed: bool, inFlightEnd: int, bytesEnd: seq<byte>)
    decreases |sent|
  {
    if sent == [] then inFlightEnd == inFlight && bytesEnd == bytes
    else
      var last := sent[|sent| - 1];
      var synBefore := sentSyn || |sent| > 1;
      var inFlightBefore := inFlightEnd - (last.SequenceLength() - (if synBefore then Flag(syn) else 0));
      var bytesBefore := last.payload + bytesEnd;
      && Packs(last, isn, ackSeq, inFlightBefore, bytesBefore, synBefore, syn, window, maxPayload, fin, closed,
               inFlightEnd, bytesEnd)
      && Packetised(sent[..|sent| - 1], isn, ackSeq, inFlight, bytes, sentSyn, syn, window, maxPayload, fin, closed,
                    inFlightBefore, bytesBefore)
  }



  /**
   * A segment that Push's inner loop and segment builder made where the batch
   * ended extends the batch. FIN_ may have been set during the batch only
   * once the stream ran dry, so it takes no bytes either way.
   */
  lemma PacketisedStep(sent: seq<TCPSenderMessage>, m: TCPSenderMessage, isn: Wrap32, ackSeq: int,
                       inFlight0: int, bytes0: seq<byte>, sentSyn0: bool, syn: bool, window: nat,
                       maxPayload: nat, fin0: bool, closed: bool,
                       inFlight1: int, bytes1: seq<byte>, sentSyn1: bool, fin1: bool,
                       inFlight2: int, bytes2: seq<byte>)
    requires Packetised(sent, isn, ackSeq, inFlight0, bytes0, sentSyn0, syn, window, maxPayload, fin0, closed,
                        inFlight1, bytes1)
    requires sentSyn1 == (sentSyn0 || sent != [])
    requires fin1 == (fin0 || (closed && bytes1 == []))
    requires Packs(m, isn, ackSeq, inFlight1, bytes1, sentSyn1, syn, window, maxPayload, fin1, closed, inFlight2, bytes2)
    ensures Packetised(sent + [m], isn, ackSeq, inFlight0, bytes0, sentSyn0, syn, window, maxPayload, fin0, closed,
                       inFlight2, bytes2)
  {
    assert (sent + [m])[..|sent|] == sent;
    assert fin1 && !fin0 ==> bytes1 == [] && m.payload == [];
  }



  /** The sender's fields that one Push reads or changes, as a value. */
  datatype PushView = PushView(outstanding: seq<TCPSenderMessage>, transmitted: seq<TCPSenderMessage>,
                               outbound: seq<byte>, closed: bool, error: bool,
                               ackSeq: int, inFlight: int, sentSyn: bool, sentFin: bool, fin: bool)

  /**
   * What Push's loop keeps, from the state `v0` it started in to the state
   * `v` now, `sent` being the segments sent so far and `fin0` the FIN_ seen
   * before Push: the segments are queued and transmitted after the earlier
   * ones, carry the bytes taken from the stream in order, SYN goes on the
   * first when none was sent before, FIN only on the last, and at most the
   * window is in flight.
   */
  ghost predicate Progressed(v0: PushView, fin0: bool, v: PushView, sent: seq<TCPSenderMessage>,
                             window: nat, maxPayload: nat)
  {
    && v.outstanding == v0.outstanding + sent
    && v.transmitted == v0.transmitted + sent
    && Payloads(sent) + v.outbound == v0.outbound
    && WellFormedBatch(sent, v0.sentSyn, maxPayload, v.error)
    && (sent != [] ==> v.sentSyn && v.inFlight <= window)
    && (sent == [] ==> v.sentSyn == v0.sentSyn)
    && v.sentFin == (sent != [] && sent[|sent| - 1].fin)
    && v.fin == (fin0 || (v.closed && v.outbound == []))
  }

  /** Before any segment is sent, with FIN still unsent, only FIN_ may differ from the state Push started in. */
  lemma ProgressedStart(v0: PushView, fin0: bool, v: PushView, window: nat, maxPayload: nat)
    requires v == v0.(fin := v.fin) && v.fin == (fin0 || (v.closed && v.outbound == [])) && !v.sentFin
    ensures Progressed(v0, fin0, v, [], window, maxPayload)
  {
  }

  /** One segment sent from state `v1`, reaching `v2`, keeps the loop's progress. */
  lemma ProgressedStep(v0: PushView, fin0: bool, v1: PushView, v2: PushView, m: TCPSenderMessage,
                       sent: seq<TCPSenderMessage>, window: nat, maxPayload: nat)
    requires Progressed(v0, fin0, v1, sent, window, maxPayload)
    requires v2.closed == v1.closed && v2.error == v1.error
    requires !v1.sentFin
    requires v2.outstanding == v1.outstanding + [m] && v2.transmitted == v1.transmitted + [m]
    requires m.payload + v2.outbound == v1.outbound
    requires |m.payload| <= maxPayload && m.rst == v1.error && (!v1.sentSyn ==> m.syn)
    requires v2.sentSyn && v2.inFlight <= window && v2.sentFin == m.fin
    requires v2.fin == (v1.fin || (v2.closed && v2.outbound == []))
    ensures Progressed(v0, fin0, v2, sent + [m], window, maxPayload)
  {
    PayloadsAppend(sent, m);
    WellFormedBatchAppend(sent, m, v0.sentSyn, maxPayload, v1.error);
    assert (v0.outstanding + sent) + [m] == v0.outstanding + (sent + [m]);
    assert (v0.transmitted + sent) + [m] == v0.transmitted + (sent + [m]);
  }

  class TCPSender {
    const isn: Wrap32
    const initialRto: nat
    /** TCPConfig::MAX_PAYLOAD_SIZE. */
    const maxPayloadSize: nat

    /** The outgoing stream, as its reader sees it: buffered bytes and flags. */
    var outbound: seq<byte>
    var outboundClosed: bool
    var outboundError: bool

    /** Absolute next sequence number, bytes acknowledged, and the difference. */
    var nextSeq: nat
    var ackSeq: nat
    var inFlight: nat
    /** The last window the peer advertised. */
    var windowSize: u16
    var sentSyn: bool
    /** FIN_: the outgoing stream has been seen finished. */
    var fin: bool
    var sentFin: bool
    /** SYN_: the SYN flag of every segment after the first, and its discount. */
    var syn: bool
    /** Unacknowledged segments, oldest first. */
    var outstanding: seq<TCPSenderMessage>
    var retransmissions: nat
    var timer: RetransmissionTimer
    /** Every segment handed to `transmit`, in order. */
    var transmitted: seq<TCPSenderMessage>

    function Margin(): nat
      reads this`syn
    {
      Flag(syn)
    }

    /** The window used for packetising: an advertised 0 counts as 1. */
    function EffectiveWindow(): (w: nat)
      reads this`windowSize
      ensures windowSize == 0 ==> w == 1
      ensures windowSize > 0 ==> w == windowSize
    {
      if windowSize == 0 then 1 else windowSize
    }

    predicate Finished()
      reads this`outboundClosed, this`outbound
    {
      outboundClosed && outbound == []
    }

    /**
     * The accounting invariant: the in-flight count is the acknowledged gap
     * `next_seq_ - ack_seq_`, and is what the queue counts, plus the SYN once
     * it has been sent and SYN_ discounts it from every later pop.
     */
    ghost predicate Accounted()
      reads this`ackSeq, this`inFlight, this`nextSeq, this`outstanding, this`syn, this`sentSyn
    {
      && ackSeq + inFlight == nextSeq
      && InFlightMatches(outstanding, inFlight, syn, sentSyn)
      && (syn ==> AllCarrySyn(outstanding))
      && (outstanding != [] ==> sentSyn)
    }

    /** The sender's invariant: the accounting holds, and the timer runs exactly while segments are unacknowledged. */
    ghost predicate Valid()
      reads this`ackSeq, this`inFlight, this`nextSeq, this`outstanding,
              this`syn, this`sentSyn, this`timer, timer`isActive
    {
      && maxPayloadSize > 0
      && Accounted()
      && (timer.isActive <==> outstanding != [])
    }

    constructor (isn: Wrap32, initialRto: nat, maxPayloadSize: nat, initialSyn: bool, initialWindow: u16)
      requires maxPayloadSize > 0
      ensures Valid()
      ensures this.isn == isn && this.initialRto == initialRto && this.maxPayloadSize == maxPayloadSize
      ensures syn == initialSyn && windowSize == initialWindow
      ensures nextSeq == 0 && ackSeq == 0 && inFlight == 0 && outstanding == [] && transmitted == []
      ensures !sentSyn && !fin && !sentFin && retransmissions == 0
      ensures outbound == [] && !outboundClosed && !outboundError
      ensures fresh(timer) && timer.rto == initialRto && timer.elapsed == 0 && !timer.isActive
    {
      this.isn := isn;
      this.initialRto := initialRto;
      this.maxPayloadSize := maxPayloadSize;
      outbound, outboundClosed, outboundError := [], false, false;
      nextSeq, ackSeq, inFlight := 0, 0, 0;
      windowSize := initialWindow;
      sentSyn, fin, sentFin := false, false, false;
      syn := initialSyn;
      outstanding := [];
      retransmissions := 0;
      timer := new RetransmissionTimer(initialRto);
      transmitted := [];
    }

    function SequenceNumbersInFlight(): (n: nat)
      reads this`ackSeq, this`inFlight, this`nextSeq, this`outstanding,
              this`syn, this`sentSyn, this`timer, timer`isActive
      requires Valid()
      ensures n == nextSeq - ackSeq
    {
      inFlight
    }

    function ConsecutiveRetransmissions(): (n: nat)
      reads this`retransmissions
      ensures n == retransmissions
    {
      retransmissions
    }

    /** A segment at absolute `seqno`; RST mirrors the outgoing stream's error. */
    function MakeMessage(seqno: nat, payload: seq<byte>, synFlag: bool, finFlag: bool): (m: TCPSenderMessage)
      reads this`outboundError
      ensures Unwrap(m.seqno, isn, seqno % TWO_TO_64) == seqno % TWO_TO_64
      ensures m.payload == payload && m.syn == synFlag && m.fin == finFlag
      ensures m.SequenceLength() == |payload| + Flag(synFlag) + Flag(finFlag)
      ensures m.rst == outboundError
    {
      UnwrapWrapAtCheckpoint(seqno % TWO_TO_64, isn);
      TCPSenderMessage(Wrap(seqno % TWO_TO_64, isn), synFlag, payload, finFlag, outboundError)
    }

    /** A segment occupying no sequence numbers, at the next sequence number. */
    function MakeEmptyMessage(): (m: TCPSenderMessage)
      reads this`outboundError, this`nextSeq
      ensures m.SequenceLength() == 0
      ensures Unwrap(m.seqno, isn, nextSeq % TWO_TO_64) == nextSeq % TWO_TO_64
      ensures m.rst == outboundError
    {
      MakeMessage(nextSeq, [], false, false)
    }

    /**
     * The inner loop of Push: takes bytes from the front of the stream while
     * the payload, the in-flight count and an unsent SYN leave room in the
     * window and the payload is below MAX_PAYLOAD_SIZE, until the stream has
     * nothing buffered or is finished.
     */
    method ReadPayload(window: nat) returns (payload: seq<byte>)
      requires maxPayloadSize > 0
      requires inFlight + Flag(!sentSyn) <= window
      requires Finished() ==> fin
      modifies this`outbound, this`fin
      ensures payload + outbound == old(outbound)
      ensures |payload| <= maxPayloadSize
      ensures |payload| + inFlight + Flag(!sentSyn) <= window
      ensures fin == (old(fin) || Finished())
      ensures payload == [] ==> outbound == old(outbound) && fin == old(fin)
      // As many bytes as the stream, MAX_PAYLOAD_SIZE and the window's room allow; none once FIN_ is set.
      ensures |payload| == if old(fin) then 0
                           else Min(|old(outbound)|, Min(maxPayloadSize, window - inFlight - Flag(!sentSyn)))
    {
      payload := [];
      var view := outbound;
      var notSyn := Flag(!sentSyn);
      while |payload| + inFlight + notSyn < window && |payload| < maxPayloadSize
        invariant payload + outbound == old(outbound)
        invariant view == outbound
        invariant |payload| <= maxPayloadSize
        invariant |payload| + inFlight + notSyn <= window
        invariant fin == (old(fin) || Finished())
        invariant payload == [] ==> outbound == old(outbound) && fin == old(fin)
        invariant old(fin) ==> payload == []
        invariant payload != [] ==>
          |payload| == Min(|old(outbound)|, Min(maxPayloadSize, window - inFlight - notSyn))
        decreases |outbound|
      {
        if view == [] || fin {
          break;
        }
        var available := Min(maxPayloadSize - |payload|, window - (|payload| + inFlight + notSyn));
        if |view| > available {
          view := view[..available];
        }
        payload := payload + view;
        outbound := outbound[|view|..];
        fin := fin || Finished();
        view := outbound;
      }
    }

    /**
     * The segment Push builds from `payload`: SYN on the connection's first
     * segment (SYN_ on later ones), FIN when the stream is finished and the
     * segment, less its SYN discount, still fits the window.
     */
    function NextSegment(window: nat, payload: seq<byte>): (m: TCPSenderMessage)
      reads this`outboundError, this`nextSeq, this`sentSyn, this`syn, this`fin, this`inFlight
      ensures m.payload == payload && m.rst == outboundError
      ensures m.syn == (!sentSyn || syn)
      ensures m.fin ==> fin
      // FIN is kept exactly when the segment with it, less the discount, fits the window.
      ensures fin ==>
        (m.fin <==> |payload| + Flag(m.syn) + 1 - (if sentSyn then Margin() else 0) + inFlight <= window)
      ensures m.seqno == Wrap(nextSeq % TWO_TO_64, isn)
      ensures Unwrap(m.seqno, isn, nextSeq % TWO_TO_64) == nextSeq % TWO_TO_64
    {
      var msg := MakeMessage(nextSeq, payload, if sentSyn then syn else true, fin);
      var margin := if sentSyn then Margin() else 0;
      if fin && msg.SequenceLength() - margin + inFlight > window then msg.(fin := false) else msg
    }

    /** Sequence numbers a segment adds to the in-flight count when Push sends it. */
    function SegmentSize(m: TCPSenderMessage): int
      reads this`sentSyn, this`syn
    {
      m.SequenceLength() - (if sentSyn then Margin() else 0)
    }

    /** The body of Push's outer loop, from the segment on: queue, count, transmit, arm the timer. */
    method EmitSegment(window: nat, payload: seq<byte>, ghost bytes: seq<byte>, ghost fin0: bool)
      returns (msg: TCPSenderMessage)
      requires Valid()
      requires inFlight < window
      requires |payload| + inFlight + Flag(!sentSyn) <= window
      requires payload != [] || !sentSyn || fin
      // `payload` was read from `bytes` as Push reads it, FIN_ having been `fin0` before.
      requires payload + outbound == bytes && fin == (fin0 || Finished())
      requires |payload| == if fin0 then 0 else Min(|bytes|, Min(maxPayloadSize, window - inFlight - Flag(!sentSyn)))
      modifies this`sentFin, this`sentSyn, this`nextSeq, this`inFlight, this`outstanding, this`transmitted, timer`isActive
      ensures Valid()
      ensures msg.payload == payload && msg.rst == outboundError
      ensures msg.syn == (!old(sentSyn) || syn)
      // FIN rides on the segment exactly when FIN_ is set and the segment, less its discount, fits the window.
      ensures msg.fin <==> fin && |payload| + Flag(msg.syn) + 1 - (if old(sentSyn) then Flag(syn) else 0) + old(inFlight) <= window
      ensures msg.seqno == Wrap(old(nextSeq) % TWO_TO_64, isn)
      ensures inFlight == old(inFlight) + (msg.SequenceLength() - (if old(sentSyn) then Flag(syn) else 0))
      ensures timer.isActive
      ensures outstanding == old(outstanding) + [msg]
      ensures transmitted == old(transmitted) + [msg]
      ensures sentFin == (old(sentFin) || msg.fin)
      ensures inFlight > old(inFlight)
      ensures sentSyn && inFlight <= window
      ensures Packs(msg, isn, ackSeq, old(inFlight), bytes, old(sentSyn), syn, window, maxPayloadSize, fin0,
                    outboundClosed, inFlight, outbound)
    {
      msg := NextSegment(window, payload);
      Enqueue(msg);
    }

    /**
     * Queues and transmits a segment that occupies sequence numbers, counts it
     * as in flight from `next_seq_` on, marks SYN (and FIN, if it carries one)
     * as sent, and starts the timer.
     */
    method Enqueue(msg: TCPSenderMessage)
      requires Valid()
      requires msg.syn == (!sentSyn || syn)
      requires SegmentSize(msg) > 0
      modifies this`sentFin, this`sentSyn, this`nextSeq, this`inFlight, this`outstanding, this`transmitted, timer`isActive
      ensures Valid()
      ensures inFlight == old(inFlight) + old(SegmentSize(msg)) && nextSeq == old(nextSeq) + old(SegmentSize(msg))
      ensures timer.isActive && sentSyn
      ensures outstanding == old(outstanding) + [msg]
      ensures transmitted == old(transmitted) + [msg]
      ensures sentFin == (old(sentFin) || msg.fin)
    {
      if msg.fin {
        sentFin := true;
      }
      var messageSize := SegmentSize(msg);
      CountedAppend(outstanding, msg, Margin());
      outstanding := outstanding + [msg];
      inFlight := inFlight + messageSize;
      nextSeq := nextSeq + messageSize;
      sentSyn := true;
      transmitted := transmitted + [msg];
      if messageSize != 0 {
        timer.Active();
      }
    }

    /** The fields one Push reads or changes. */
    ghost function View(): PushView
      reads this`outstanding, this`transmitted, this`outbound, this`outboundClosed, this`outboundError,
            this`ackSeq, this`inFlight, this`sentSyn, this`sentFin, this`fin
    {
      PushView(outstanding, transmitted, outbound, outboundClosed, outboundError,
               ackSeq, inFlight, sentSyn, sentFin, fin)
    }

    /**
     * What Push's loop keeps from the state `v0` it started in: the invariant,
     * the progress of the segments `sent` so far, and a running timer once
     * any was sent.
     */
    ghost predicate PushProgress(v0: PushView, fin0: bool, window: nat, sent: seq<TCPSenderMessage>)
      reads this, timer
    {
      && Valid()
      && (sent != [] ==> timer.isActive)
      && Progressed(v0, fin0, View(), sent, window, maxPayloadSize)
      && Packetised(sent, isn, ackSeq, v0.inFlight, v0.outbound, v0.sentSyn, syn, window, maxPayloadSize, fin0,
                    outboundClosed, inFlight, outbound)
    }

    /** One turn of Push's loop: read a payload and send it as one segment. */
    method SendSegment(window: nat) returns (m: TCPSenderMessage)
      requires Valid() && inFlight < window && !sentFin && (Finished() ==> fin)
      requires outbound != [] || !sentSyn || fin
      modifies this`outbound, this`fin, this`sentFin, this`sentSyn, this`nextSeq, this`inFlight,
               this`outstanding, this`transmitted, timer`isActive
      ensures Valid()
      ensures outstanding == old(outstanding) + [m] && transmitted == old(transmitted) + [m]
      ensures |m.payload| <= maxPayloadSize && m.rst == outboundError
      ensures m.seqno == Wrap(old(nextSeq) % TWO_TO_64, isn)
      // Seqno, SYN, payload (exactly as long as the stream, MAX_PAYLOAD_SIZE and the window's room allow),
      // FIN rule and in-flight growth, as one step of Push's batch.
      ensures Packs(m, isn, ackSeq, old(inFlight), old(outbound), old(sentSyn), syn, window, maxPayloadSize, old(fin),
                    outboundClosed, inFlight, outbound)
      ensures timer.isActive
      ensures sentFin == m.fin
      ensures fin == (old(fin) || Finished())
      ensures sentSyn && inFlight <= window
    {
      var payload := ReadPayload(window);
      m := EmitSegment(window, payload, old(outbound), old(fin));
    }

    /** Push's loop keeps its progress across one turn. */
    method PushStep(window: nat, ghost v0: PushView, ghost fin0: bool, ghost sent: seq<TCPSenderMessage>)
      returns (ghost sent': seq<TCPSenderMessage>)
      requires PushProgress(v0, fin0, window, sent)
      requires inFlight < window && !sentFin
      requires outbound != [] || !sentSyn || fin
      modifies this`outbound, this`fin, this`sentFin, this`sentSyn, this`nextSeq, this`inFlight,
               this`outstanding, this`transmitted, timer`isActive
      ensures PushProgress(v0, fin0, window, sent')
      ensures inFlight > old(inFlight)
    {
      ghost var v1 := View();
      ghost var inFlight1, outbound1, sentSyn1, fin1 := inFlight, outbound, sentSyn, fin;
      ghost var ackSeq1, syn1, closed1 := ackSeq, syn, outboundClosed;
      var m := SendSegment(window);
      assert ackSeq == ackSeq1 && syn == syn1 && outboundClosed == closed1;
      ProgressedStep(v0, fin0, v1, View(), m, sent, window, maxPayloadSize);
      PacketisedStep(sent, m, isn, ackSeq, v0.inFlight, v0.outbound, v0.sentSyn, syn, window, maxPayloadSize, fin0,
                     outboundClosed, inFlight1, outbound1, sentSyn1, fin1, inFlight, outbound);
      sent' := sent + [m];
    }

    /**
     * Fills the window: while fewer than the window's sequence numbers are in
     * flight and no FIN was sent, read up to the window's remaining room and at
     * most MAX_PAYLOAD_SIZE bytes, put SYN on the connection's first segment,
     * and FIN once the stream is finished if it still fits. Once FIN has been
     * sent, nothing is sent. The retransmission timeout and elapsed time are
     * outside the frame; only whether the timer runs may change.
     */
    method Push() returns (ghost sent: seq<TCPSenderMessage>)
      requires Valid()
      modifies this`outbound, this`fin, this`sentFin, this`sentSyn, this`nextSeq, this`inFlight,
               this`outstanding, this`transmitted, timer`isActive
      ensures Valid()
      ensures old(sentFin) ==>
        && sent == [] && outbound == old(outbound) && fin == (old(fin) || Finished())
        && sentSyn == old(sentSyn) && inFlight == old(inFlight) && nextSeq == old(nextSeq)
        && outstanding == old(outstanding) && transmitted == old(transmitted)
        && sentFin && timer.isActive == old(timer.isActive)
      ensures !old(sentFin) ==>
        PushProgress(old(View()), old(fin), old(EffectiveWindow()), sent)
      ensures !old(sentFin) ==> inFlight >= old(EffectiveWindow()) || sentFin || (outbound == [] && sentSyn && !fin)
      // A Push that sends nothing leaves the timer as it was; one that sends starts it.
      ensures sent == [] ==> timer.isActive == old(timer.isActive)
    {
      var window := EffectiveWindow();
      ghost var fin0 := fin;
      fin := fin || Finished();
      if sentFin {
        return [];
      }
      sent := FillWindow(window, old(View()), fin0);
    }

    /** Push's loop: one segment per turn while the window has room and FIN is unsent. */
    method FillWindow(window: nat, ghost v0: PushView, ghost fin0: bool) returns (ghost sent: seq<TCPSenderMessage>)
      requires Valid() && !sentFin && fin == (fin0 || Finished())
      // `v0` is the state Push started in, before it updated FIN_.
      requires View() == v0.(fin := fin)
      modifies this`outbound, this`fin, this`sentFin, this`sentSyn, this`nextSeq, this`inFlight,
               this`outstanding, this`transmitted, timer`isActive
      ensures PushProgress(v0, fin0, window, sent)
      // It stops only once the window is full, FIN is sent, or there is nothing left to send.
      ensures inFlight >= window || sentFin || (outbound == [] && sentSyn && !fin)
      ensures sent == [] ==> timer.isActive == old(timer.isActive)
    {
      sent := [];
      ProgressedStart(v0, fin0, View(), window, maxPayloadSize);
      while inFlight < window && !sentFin
        invariant PushProgress(v0, fin0, window, sent)
        decreases window - inFlight
      {
        if outbound == [] && sentSyn && !fin {
          break;
        }
        sent := PushStep(window, v0, fin0, sent);
      }
    }

    /**
     * Takes the peer's acknowledgement and window. Without an ackno, a zero
     * window marks the outgoing stream as failed. An ackno beyond the next
     * sequence number is ignored. Otherwise the front segments the ackno
     * reaches are popped, each one advancing the acknowledged count by its
     * length less the SYN_ discount; if any was popped, the timer restarts at
     * the initial timeout (running only while segments remain) and the
     * retransmission count is cleared.
     */
    method Receive(msg: TCPReceiverMessage)
      requires Valid()
      modifies this`windowSize, this`outboundError, this`outstanding, this`inFlight, this`ackSeq,
               this`syn, this`timer, this`retransmissions
      ensures Valid()
      ensures windowSize == msg.windowSize && syn == old(syn)
      ensures msg.ackno.None? ==>
        && outboundError == (old(outboundError) || msg.windowSize == 0)
        && outstanding == old(outstanding) && ackSeq == old(ackSeq) && timer == old(timer)
        && retransmissions == old(retransmissions)
      ensures msg.ackno.Some? ==> outboundError == old(outboundError)
      ensures msg.ackno.Some? && Unwrap(msg.ackno.value, isn, nextSeq % TWO_TO_64) > nextSeq ==>
        && outstanding == old(outstanding) && ackSeq == old(ackSeq) && timer == old(timer)
        && retransmissions == old(retransmissions)
      ensures msg.ackno.Some? && Unwrap(msg.ackno.value, isn, nextSeq % TWO_TO_64) <= nextSeq ==>
        var ackno := Unwrap(msg.ackno.value, isn, nextSeq % TWO_TO_64);
        var k := AckedCount(old(outstanding), old(ackSeq), ackno, Margin());
        && outstanding == old(outstanding)[k..]
        && ackSeq == old(ackSeq) + Counted(old(outstanding)[..k], Margin())
        && (k > 0 ==> ackSeq <= ackno + 1)
        && (k == 0 ==> timer == old(timer) && retransmissions == old(retransmissions))
        && (k > 0 ==> && fresh(timer) && timer.rto == initialRto && timer.elapsed == 0
                      && timer.isActive == (outstanding != []) && retransmissions == 0)
    {
      windowSize := msg.windowSize;
      if msg.ackno.None? {
        if msg.windowSize == 0 {
          outboundError := true;
        }
        return;
      }
      var ackno := Unwrap(msg.ackno.value, isn, nextSeq % TWO_TO_64);
      if ackno > nextSeq {
        return;
      }
      Acknowledge(ackno);
    }

    /**
     * Pops what `ackno` acknowledges; if anything was popped, the timer
     * restarts at the initial timeout, running only while segments remain,
     * and the retransmission count is cleared.
     */
    method Acknowledge(ackno: nat)
      requires Valid() && ackno <= nextSeq
      modifies this`outstanding, this`inFlight, this`ackSeq, this`syn, this`timer, this`retransmissions
      ensures Valid() && syn == old(syn)
      ensures var k := AckedCount(old(outstanding), old(ackSeq), ackno, Margin());
        && outstanding == old(outstanding)[k..]
        && ackSeq == old(ackSeq) + Counted(old(outstanding)[..k], Margin())
        && (k > 0 ==> ackSeq <= ackno + 1)
        && (k == 0 ==> timer == old(timer) && retransmissions == old(retransmissions))
        && (k > 0 ==> && fresh(timer) && timer.rto == initialRto && timer.elapsed == 0
                      && timer.isActive == (outstanding != []) && retransmissions == 0)
    {
      var hasAck := PopAcknowledged(ackno);
      if hasAck {
        timer := new RetransmissionTimer(initialRto);
        if outstanding != [] {
          timer.Active();
        }
        retransmissions := 0;
      }
    }


    /** One turn of the acknowledgement loop: the front segment is popped and counted. */
    method PopFront(ackno: nat, ghost margin: nat)
      requires Accounted() && outstanding != [] && ackno <= nextSeq && margin == Margin()
      modifies this`outstanding, this`inFlight, this`ackSeq, this`syn
      ensures Accounted() && syn == old(syn)
      ensures outstanding == old(outstanding)[1..]
      ensures ackSeq == old(ackSeq) + old(outstanding)[0].SequenceLength() - margin
    {
      var front := outstanding[0];
      CountedNonNegative(outstanding[1..], Margin());
      inFlight := inFlight - (front.SequenceLength() - Margin());
      ackSeq := ackSeq + front.SequenceLength() - Margin();
      syn := if sentSyn then syn else ackno <= nextSeq;
      outstanding := outstanding[1..];
    }

    /**
     * The acknowledgement loop: pops front segments while the ackno reaches
     * past the segment's end (its length less its own SYN flag) and past the
     * acknowledged count, advancing that count by each segment's length less
     * the SYN_ discount.
     */
    method PopAcknowledged(ackno: nat) returns (hasAck: bool)
      requires Accounted() && ackno <= nextSeq
      modifies this`outstanding, this`inFlight, this`ackSeq, this`syn
      ensures Accounted() && syn == old(syn)
      ensures var k := AckedCount(old(outstanding), old(ackSeq), ackno, Margin());
        && hasAck == (k > 0)
        && outstanding == old(outstanding)[k..]
        && ackSeq == old(ackSeq) + Counted(old(outstanding)[..k], Margin())
        && (k > 0 ==> ackSeq <= ackno + 1)
    {
      ghost var q0, ackSeq0, i, margin := outstanding, ackSeq, 0, Margin();
      hasAck := false;
      while outstanding != []
        invariant 0 <= i <= |q0| && outstanding == q0[i..] && hasAck == (i > 0)
        invariant ackSeq == ackSeq0 + Counted(q0[..i], margin)
        invariant AckedCount(q0, ackSeq0, ackno, margin) == i + AckedCount(outstanding, ackSeq, ackno, margin)
        invariant syn == old(syn) && margin == Margin() && Accounted()
        decreases |outstanding|
      {
        var front := outstanding[0];
        var finalSeqno := ackSeq + front.SequenceLength() - Flag(front.syn);
        if ackno <= ackSeq || ackno < finalSeqno {
          break;
        }
        hasAck := true;
        AckedCountStep(outstanding, ackSeq, ackno, margin);
        CountedPrefixStep(q0, i, margin);
        ghost var rest := AckedCount(outstanding[1..], ackSeq + front.SequenceLength() - margin, ackno, margin);
        PopFront(ackno, margin);
        assert AckedCount(outstanding, ackSeq, ackno, margin) == rest;
        i := i + 1;
      }
      assert AckedCount(outstanding, ackSeq, ackno, margin) == 0;
      assert i == AckedCount(q0, ackSeq0, ackno, margin);
      AckedWithinAckno(q0, ackSeq0, ackno, margin);
    }

    /**
     * Time passes on the timer; when it expires, the oldest unacknowledged
     * segment is retransmitted, the timeout doubles unless the peer's window
     * is zero, the elapsed time restarts and the retransmission count grows.
     */
    method Tick(ms: nat)
      requires Valid()
      modifies this`transmitted, this`retransmissions, timer
      ensures Valid()
      ensures timer.isActive == old(timer.isActive)
      ensures var elapsed := old(timer.elapsed) + (if old(timer.isActive) then ms else 0);
              if old(timer.isActive) && elapsed >= old(timer.rto) then
                && outstanding != []
                && transmitted == old(transmitted) + [outstanding[0]]
                && retransmissions == old(retransmissions) + 1
                && timer.elapsed == 0
                && timer.rto == (if windowSize == 0 then old(timer.rto) else 2 * old(timer.rto))
              else
                && transmitted == old(transmitted) && retransmissions == old(retransmissions)
                && timer.elapsed == elapsed && timer.rto == old(timer.rto)
    {
      timer.Tick(ms);
      if timer.IsExpired() {
        transmitted := transmitted + [outstanding[0]];
        if windowSize == 0 {
          timer.Reset();
        } else {
          timer.Timeout();
          timer.Reset();
        }
        retransmissions := retransmissions + 1;
      }
    }
  }
}
