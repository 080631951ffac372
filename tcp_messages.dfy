/** The two segment shapes exchanged between a TCP sender and a TCP receiver. */
module TcpMessages {
  import opened Basics
  import opened WrappingIntegers

  /** What the sender puts on the wire. */
  datatype TCPSenderMessage = TCPSenderMessage(
    seqno: Wrap32,
    syn: bool,
    payload: seq<byte>,
    fin: bool,
    rst: bool)
  {
    /** Sequence numbers the segment occupies: SYN and FIN count one each. */
    function SequenceLength(): (n: nat)
      ensures n >= |payload|
      ensures n == 0 <==> payload == [] && !syn && !fin
    {
      |payload| + (if syn then 1 else 0) + (if fin then 1 else 0)
    }
  }

  /** What the receiver reports back: ackno is absent until a SYN was seen. */
  datatype TCPReceiverMessage = TCPReceiverMessage(
    ackno: Option<Wrap32>,
    windowSize: u16,
    rst: bool)
}
