/**
 * An Ethernet interface that resolves next-hop IP addresses with ARP
 * (RFC 826): a cache of learned addresses, a set of recently requested
 * addresses for which no new request is sent, a queue of datagrams waiting
 * for an address, and ageing of both maps by the milliseconds that pass.
 * Datagrams are of an abstract type; their wire format, and the ARP
 * message's, are the codecs the interface is given.
 */
module NetworkInterfaces {
  import opened Basics

  type EthernetAddress = a: int | 0 <= a < 0x1_0000_0000_0000

  const ETHERNET_BROADCAST: EthernetAddress := 0xFFFF_FFFF_FFFF
  const TYPE_IPv4: u16 := 0x0800
  const TYPE_ARP: u16 := 0x0806
  const OPCODE_REQUEST: u16 := 1
  const OPCODE_REPLY: u16 := 2

  /** How long a request suppresses new requests, and how long a cache entry lives, in ms. */
  const REQUEST_LIFETIME: nat := 5000
  const CACHE_LIFETIME: nat := 30000

  datatype EthernetHeader = EthernetHeader(dst: EthernetAddress, src: EthernetAddress, etherType: u16)

  datatype EthernetFrame = EthernetFrame(header: EthernetHeader, payload: seq<byte>)

  /** The fields of an ARP message the interface reads or sets; the rest keep their defaults. */
  datatype ARPMessage = ARPMessage(opcode: u16, senderEthernet: EthernetAddress, senderIp: u32,
                                   targetEthernet: EthernetAddress, targetIp: u32)

  /** A learned address and how long ago it was learned. */
  datatype CacheEntry = CacheEntry(ethernet: EthernetAddress, age: nat)

  /** A datagram waiting for its next hop's Ethernet address. */
  datatype Queued<Datagram> = Queued(dgram: Datagram, nextHop: u32)

  /** The queued datagrams bound for `ip`, in queue order. */
  function Released<Datagram>(q: seq<Queued<Datagram>>, ip: u32): (r: seq<Queued<Datagram>>)
    ensures |r| <= |q|
  {
    if q == [] then []
    else if q[0].nextHop == ip then [q[0]] + Released(q[1..], ip)
    else Released(q[1..], ip)
  }

  /** The queued datagrams bound elsewhere, in queue order. */
  function Kept<Datagram>(q: seq<Queued<Datagram>>, ip: u32): (r: seq<Queued<Datagram>>)
    ensures |r| <= |q|
  {
    if q == [] then []
    else if q[0].nextHop == ip then Kept(q[1..], ip)
    else [q[0]] + Kept(q[1..], ip)
  }

  lemma {:induction false} ReleasedAppend<Datagram>(q: seq<Queued<Datagram>>, e: Queued<Datagram>, ip: u32)
    ensures Released(q + [e], ip) == Released(q, ip) + (if e.nextHop == ip then [e] else [])
  {
    if q != [] {
      assert (q + [e])[1..] == q[1..] + [e];
      ReleasedAppend(q[1..], e, ip);
    }
  }

  lemma {:induction false} KeptAppend<Datagram>(q: seq<Queued<Datagram>>, e: Queued<Datagram>, ip: u32)
    ensures Kept(q + [e], ip) == Kept(q, ip) + (if e.nextHop == ip then [] else [e])
  {
    if q != [] {
      assert (q + [e])[1..] == q[1..] + [e];
      KeptAppend(q[1..], e, ip);
    }
  }

  /** Erasing, or stepping over, the first entry of the unvisited part of a queue. */
  lemma SplitAt<T>(visited: seq<T>, rest: seq<T>)
    requires rest != []
    ensures var q := visited + rest;
      && q[|visited|] == rest[0]
      && q[..|visited|] + q[|visited| + 1..] == visited + rest[1..]
      && q == (visited + [rest[0]]) + rest[1..]
  {
    var q := visited + rest;
    assert q[..|visited|] == visited;
    assert q[|visited| + 1..] == rest[1..];
  }

  /** Filtering a prefix one entry longer. */
  lemma FilterPrefixStep<Datagram>(q: seq<Queued<Datagram>>, j: nat, ip: u32)
    requires j < |q|
    ensures q[j].nextHop == ip ==>
      Kept(q[..j + 1], ip) == Kept(q[..j], ip) && Released(q[..j + 1], ip) == Released(q[..j], ip) + [q[j]]
    ensures q[j].nextHop != ip ==>
      Kept(q[..j + 1], ip) == Kept(q[..j], ip) + [q[j]] && Released(q[..j + 1], ip) == Released(q[..j], ip)
  {
    assert q[..j + 1] == q[..j] + [q[j]];
    KeptAppend(q[..j], q[j], ip);
    ReleasedAppend(q[..j], q[j], ip);
    assert Kept(q[..j], ip) + [] == Kept(q[..j], ip);
    assert Released(q[..j], ip) + [] == Released(q[..j], ip);
  }

  /** The released entries are exactly those bound for `ip`, the kept ones exactly the others. */
  lemma {:induction false} FilterSelects<Datagram>(q: seq<Queued<Datagram>>, ip: u32)
    ensures forall e :: e in Released(q, ip) <==> e in q && e.nextHop == ip
    ensures forall e :: e in Kept(q, ip) <==> e in q && e.nextHop != ip
  {
    if q != [] {
      FilterSelects(q[1..], ip);
      assert q == [q[0]] + q[1..];
    }
  }

  /**
   * Flushing splits the queue: every entry is either released or kept, none
   * is lost or duplicated, and the lengths add up.
   */
  lemma {:induction false} FlushPartitions<Datagram>(q: seq<Queued<Datagram>>, ip: u32)
    ensures multiset(Released(q, ip)) + multiset(Kept(q, ip)) == multiset(q)
    ensures |Released(q, ip)| + |Kept(q, ip)| == |q|
  {
    if q != [] {
      FlushPartitions(q[1..], ip);
      assert q == [q[0]] + q[1..];
    }
  }

  /** Flushing again for the same address releases nothing and keeps everything. */
  lemma {:induction false} FlushIdempotent<Datagram>(q: seq<Queued<Datagram>>, ip: u32)
    ensures Released(Kept(q, ip), ip) == []
    ensures Kept(Kept(q, ip), ip) == Kept(q, ip)
  {
    if q != [] {
      FlushIdempotent(q[1..], ip);
    }
  }

  /** The suppression map after `ms` pass: every age grows by `ms`; those reaching the lifetime go. */
  function AgeRequests(m: map<u32, nat>, ms: nat): (r: map<u32, nat>)
    ensures r.Keys <= m.Keys
    ensures forall ip :: ip in r ==> r[ip] < REQUEST_LIFETIME
  {
    map ip | ip in m && m[ip] + ms < REQUEST_LIFETIME :: m[ip] + ms
  }

  /** The cache after `ms` pass: every age grows by `ms`; entries reaching the lifetime go. */
  function AgeCache(m: map<u32, CacheEntry>, ms: nat): (r: map<u32, CacheEntry>)
    ensures r.Keys <= m.Keys
    ensures forall ip :: ip in r ==> r[ip].age < CACHE_LIFETIME && r[ip].ethernet == m[ip].ethernet
  {
    map ip | ip in m && m[ip].age + ms < CACHE_LIFETIME :: CacheEntry(m[ip].ethernet, m[ip].age + ms)
  }

  function Sum(ticks: seq<nat>): nat
  {
    if ticks == [] then 0 else ticks[0] + Sum(ticks[1..])
  }

  /** The cache after a series of ticks. */
  function AgeCacheAll(m: map<u32, CacheEntry>, ticks: seq<nat>): map<u32, CacheEntry>
  {
    if ticks == [] then m else AgeCacheAll(AgeCache(m, ticks[0]), ticks[1..])
  }

  /** The suppression map after a series of ticks. */
  function AgeRequestsAll(m: map<u32, nat>, ticks: seq<nat>): map<u32, nat>
  {
    if ticks == [] then m else AgeRequestsAll(AgeRequests(m, ticks[0]), ticks[1..])
  }

  /**
   * A live cache entry survives a series of ticks exactly while its age plus
   * the milliseconds they add stays below 30000, and then keeps its address.
   */
  lemma {:induction false} CacheEntryLifetime(m: map<u32, CacheEntry>, ticks: seq<nat>, ip: u32)
    requires ip in m ==> m[ip].age < CACHE_LIFETIME
    ensures ip in AgeCacheAll(m, ticks) <==> ip in m && m[ip].age + Sum(ticks) < CACHE_LIFETIME
    ensures ip in AgeCacheAll(m, ticks) ==>
      AgeCacheAll(m, ticks)[ip] == CacheEntry(m[ip].ethernet, m[ip].age + Sum(ticks))
  {
    if ticks != [] {
      var aged := AgeCache(m, ticks[0]);
      CacheEntryLifetime(aged, ticks[1..], ip);
      assert ip in aged <==> ip in m && m[ip].age + ticks[0] < CACHE_LIFETIME;
      if ip in aged {
        assert aged[ip] == CacheEntry(m[ip].ethernet, m[ip].age + ticks[0]);
      }
    }
  }

  /**
   * A live request suppresses new requests for its address exactly while its
   * age plus the milliseconds that pass stays below 5000.
   */
  lemma {:induction false} RequestLifetime(m: map<u32, nat>, ticks: seq<nat>, ip: u32)
    requires ip in m ==> m[ip] < REQUEST_LIFETIME
    ensures ip in AgeRequestsAll(m, ticks) <==> ip in m && m[ip] + Sum(ticks) < REQUEST_LIFETIME
    ensures ip in AgeRequestsAll(m, ticks) ==> AgeRequestsAll(m, ticks)[ip] == m[ip] + Sum(ticks)
  {
    if ticks != [] {
      var aged := AgeRequests(m, ticks[0]);
      RequestLifetime(aged, ticks[1..], ip);
      assert ip in aged <==> ip in m && m[ip] + ticks[0] < REQUEST_LIFETIME;
      if ip in aged {
        assert aged[ip] == m[ip] + ticks[0];
      }
    }
  }

  class NetworkInterface<Datagram> {
    const ethernetAddress: EthernetAddress
    const ipAddress: u32
    /** The wire codecs: parsing may fail, serialising cannot. */
    const serializeDatagram: Datagram -> seq<byte>
    const parseDatagram: seq<byte> -> Option<Datagram>
    const serializeArp: ARPMessage -> seq<byte>
    const parseArp: seq<byte> -> Option<ARPMessage>

    /** IP to learned Ethernet address and its age. */
    var arpTable: map<u32, CacheEntry>
    /** IP to the age of the request sent for it. */
    var ipRequest: map<u32, nat>
    /** Datagrams waiting for their next hop's address, oldest first. */
    var pending: seq<Queued<Datagram>>
    /** Datagrams received, oldest first. */
    var received: seq<Datagram>
    /** Every frame handed to the output port, in order. */
    var transmitted: seq<EthernetFrame>

    /** Every request and every cache entry still held is younger than its lifetime. */
    ghost predicate Valid()
      reads this`arpTable, this`ipRequest
    {
      && (forall ip :: ip in arpTable ==> arpTable[ip].age < CACHE_LIFETIME)
      && (forall ip :: ip in ipRequest ==> ipRequest[ip] < REQUEST_LIFETIME)
    }

    constructor (ethernetAddress: EthernetAddress, ipAddress: u32,
                 serializeDatagram: Datagram -> seq<byte>, parseDatagram: seq<byte> -> Option<Datagram>,
                 serializeArp: ARPMessage -> seq<byte>, parseArp: seq<byte> -> Option<ARPMessage>)
      ensures this.ethernetAddress == ethernetAddress && this.ipAddress == ipAddress
      ensures this.serializeDatagram == serializeDatagram && this.parseDatagram == parseDatagram
      ensures this.serializeArp == serializeArp && this.parseArp == parseArp
      ensures Valid()
      ensures arpTable == map[] && ipRequest == map[] && pending == [] && received == [] && transmitted == []
    {
      this.ethernetAddress := ethernetAddress;
      this.ipAddress := ipAddress;
      this.serializeDatagram := serializeDatagram;
      this.parseDatagram := parseDatagram;
      this.serializeArp := serializeArp;
      this.parseArp := parseArp;
      arpTable, ipRequest, pending, received, transmitted := map[], map[], [], [], [];
    }

    /** An IPv4 frame carrying `dgram` from this interface to `dst`. */
    function DatagramFrame(dgram: Datagram, dst: EthernetAddress): (f: EthernetFrame)
      ensures f.header.etherType == TYPE_IPv4 && f.header.src == ethernetAddress && f.header.dst == dst
      ensures f.payload == serializeDatagram(dgram)
    {
      EthernetFrame(EthernetHeader(dst, ethernetAddress, TYPE_IPv4), serializeDatagram(dgram))
    }

    /** An ARP frame carrying `msg` from this interface to `dst`. */
    function ArpFrame(msg: ARPMessage, dst: EthernetAddress): (f: EthernetFrame)
      ensures f.header.etherType == TYPE_ARP && f.header.src == ethernetAddress && f.header.dst == dst
      ensures f.payload == serializeArp(msg)
    {
      EthernetFrame(EthernetHeader(dst, ethernetAddress, TYPE_ARP), serializeArp(msg))
    }

    /** The frames that deliver the queued datagrams `q` to `dst`, in order. */
    function DatagramFrames(q: seq<Queued<Datagram>>, dst: EthernetAddress): (fs: seq<EthernetFrame>)
      ensures |fs| == |q|
    {
      if q == [] then [] else [DatagramFrame(q[0].dgram, dst)] + DatagramFrames(q[1..], dst)
    }

    /** The i-th frame carries the i-th queued datagram. */
    lemma {:induction false} DatagramFramesDeliver(q: seq<Queued<Datagram>>, dst: EthernetAddress)
      ensures forall i :: 0 <= i < |q| ==> DatagramFrames(q, dst)[i] == DatagramFrame(q[i].dgram, dst)
    {
      if q != [] {
        DatagramFramesDeliver(q[1..], dst);
      }
    }

    lemma {:induction false} DatagramFramesAppend(q: seq<Queued<Datagram>>, e: Queued<Datagram>, dst: EthernetAddress)
      ensures DatagramFrames(q + [e], dst) == DatagramFrames(q, dst) + [DatagramFrame(e.dgram, dst)]
    {
      if q != [] {
        assert (q + [e])[1..] == q[1..] + [e];
        DatagramFramesAppend(q[1..], e, dst);
      }
    }

    /**
     * Sends `dgram` towards `nextHop`. A cached address gets the datagram
     * straight away. Otherwise, unless a request for `nextHop` is still
     * recent (then the datagram is dropped), the datagram is queued, the
     * request is recorded with age 0 and an ARP request is broadcast.
     */
    method SendDatagram(dgram: Datagram, nextHop: u32)
      requires Valid()
      modifies this`ipRequest, this`pending, this`transmitted
      ensures Valid()
      ensures arpTable == old(arpTable) && received == old(received)
      ensures nextHop in arpTable ==>
        && transmitted == old(transmitted) + [DatagramFrame(dgram, arpTable[nextHop].ethernet)]
        && ipRequest == old(ipRequest) && pending == old(pending)
      ensures nextHop !in arpTable && nextHop in old(ipRequest) ==>
        transmitted == old(transmitted) && ipRequest == old(ipRequest) && pending == old(pending)
      ensures nextHop !in arpTable && nextHop !in old(ipRequest) ==>
        && ipRequest == old(ipRequest)[nextHop := 0]
        && pending == old(pending) + [Queued(dgram, nextHop)]
        && transmitted == old(transmitted) +
             [ArpFrame(ARPMessage(OPCODE_REQUEST, ethernetAddress, ipAddress, 0, nextHop), ETHERNET_BROADCAST)]
    {
      if nextHop in arpTable {
        transmitted := transmitted + [DatagramFrame(dgram, arpTable[nextHop].ethernet)];
        return;
      }
      if nextHop in ipRequest {
        return;
      }
      ipRequest := ipRequest[nextHop := 0];
      var request := ARPMessage(OPCODE_REQUEST, ethernetAddress, ipAddress, 0, nextHop);
      pending := pending + [Queued(dgram, nextHop)];
      transmitted := transmitted + [ArpFrame(request, ETHERNET_BROADCAST)];
    }

    /** Whether a frame is addressed to this interface, directly or by broadcast. */
    predicate ForUs(frame: EthernetFrame)
    {
      frame.header.dst == ETHERNET_BROADCAST || frame.header.dst == ethernetAddress
    }

    /**
     * Takes in a frame. Frames for other interfaces, of other types or that do
     * not parse are ignored. A datagram is queued for delivery. An ARP message
     * teaches the cache its sender's address unless that IP is cached already;
     * a request then clears the suppression of requests to its sender and,
     * if it asks for this interface's IP, is answered; any other message
     * addressed to this interface's Ethernet address releases the datagrams
     * queued for its sender.
     */
    method RecvFrame(frame: EthernetFrame)
      requires Valid()
      modifies this`arpTable, this`ipRequest, this`pending, this`received, this`transmitted
      ensures Valid()
      ensures !ForUs(frame) ==>
        && arpTable == old(arpTable) && ipRequest == old(ipRequest) && pending == old(pending)
        && received == old(received) && transmitted == old(transmitted)
      ensures ForUs(frame) && frame.header.etherType == TYPE_IPv4 ==>
        && arpTable == old(arpTable) && ipRequest == old(ipRequest) && pending == old(pending)
        && transmitted == old(transmitted)
        && received == old(received) + (match parseDatagram(frame.payload)
                                        case Some(d) => [d]
                                        case None => [])
      ensures ForUs(frame) && frame.header.etherType != TYPE_IPv4 ==> received == old(received)
      ensures (!ForUs(frame) || frame.header.etherType != TYPE_ARP || parseArp(frame.payload).None?) &&
              frame.header.etherType != TYPE_IPv4 ==>
        && arpTable == old(arpTable) && ipRequest == old(ipRequest) && pending == old(pending)
        && transmitted == old(transmitted)
      ensures ForUs(frame) && frame.header.etherType == TYPE_ARP && parseArp(frame.payload).Some? ==>
        var msg := parseArp(frame.payload).value;
        && arpTable == (if msg.senderIp in old(arpTable) then old(arpTable)
                        else old(arpTable)[msg.senderIp := CacheEntry(msg.senderEthernet, 0)])
        && (msg.opcode == OPCODE_REQUEST ==>
              && ipRequest == old(ipRequest) - {msg.senderIp}
              && pending == old(pending)
              && transmitted == old(transmitted) +
                   (if msg.targetIp == ipAddress
                    then [ArpFrame(ARPMessage(OPCODE_REPLY, ethernetAddress, ipAddress,
                                              msg.senderEthernet, msg.senderIp), msg.senderEthernet)]
                    else []))
        && (msg.opcode != OPCODE_REQUEST ==>
              && ipRequest == old(ipRequest)
              && (msg.targetEthernet == ethernetAddress ==>
                    && pending == Kept(old(pending), msg.senderIp)
                    && transmitted == old(transmitted) +
                         DatagramFrames(Released(old(pending), msg.senderIp), msg.senderEthernet))
              && (msg.targetEthernet != ethernetAddress ==>
                    pending == old(pending) && transmitted == old(transmitted)))
    {
      if frame.header.dst != ETHERNET_BROADCAST && frame.header.dst != ethernetAddress {
        return;
      }
      if frame.header.etherType == TYPE_IPv4 {
        var parsed := parseDatagram(frame.payload);
        if parsed.None? {
          return;
        }
        received := received + [parsed.value];
        return;
      }
      if frame.header.etherType == TYPE_ARP {
        var parsed := parseArp(frame.payload);
        if parsed.None? {
          return;
        }
        var msg := parsed.value;
        if msg.senderIp !in arpTable {
          arpTable := arpTable[msg.senderIp := CacheEntry(msg.senderEthernet, 0)];
        }
        if msg.opcode == OPCODE_REQUEST {
          if msg.senderIp in ipRequest {
            ipRequest := ipRequest - {msg.senderIp};
          }
          if msg.targetIp == ipAddress {
            var reply := ARPMessage(OPCODE_REPLY, ethernetAddress, ipAddress, msg.senderEthernet, msg.senderIp);
            transmitted := transmitted + [ArpFrame(reply, msg.senderEthernet)];
          }
          return;
        }
        if msg.targetEthernet == ethernetAddress {
          Flush(msg.senderIp, msg.senderEthernet);
        }
      }
    }

    /**
     * The reply loop: walks the queue, and each datagram bound for `ip` is
     * sent to `dst` and erased in place; the walk goes on from the next one.
     */
    method Flush(ip: u32, dst: EthernetAddress)
      modifies this`pending, this`transmitted
      ensures pending == Kept(old(pending), ip)
      ensures transmitted == old(transmitted) + DatagramFrames(Released(old(pending), ip), dst)
    {
      ghost var q0, j := pending, 0;
      var i := 0;
      while i < |pending|
        invariant 0 <= j <= |q0| && i == |Kept(q0[..j], ip)|
        invariant pending == Kept(q0[..j], ip) + q0[j..]
        invariant transmitted == old(transmitted) + DatagramFrames(Released(q0[..j], ip), dst)
        decreases |pending| - i
      {
        var entry := pending[i];
        SplitAt(Kept(q0[..j], ip), q0[j..]);
        assert q0[j..][1..] == q0[j + 1..];
        FilterPrefixStep(q0, j, ip);
        if entry.nextHop == ip {
          DatagramFramesAppend(Released(q0[..j], ip), entry, dst);
          transmitted := transmitted + [DatagramFrame(entry.dgram, dst)];
          pending := pending[..i] + pending[i + 1..];
        } else {
          i := i + 1;
        }
        j := j + 1;
      }
      assert q0[..j] == q0;
    }

    /**
     * Time passes: every request and every cache entry ages by `ms`; requests
     * reaching 5000 ms and cache entries reaching 30000 ms are erased.
     */
    method Tick(ms: nat)
      requires Valid()
      modifies this`ipRequest, this`arpTable
      ensures Valid()
      ensures ipRequest == AgeRequests(old(ipRequest), ms)
      ensures arpTable == AgeCache(old(arpTable), ms)
    {
      AgeRequestTable(ms);
      AgeArpTable(ms);
    }

    /** The first loop of Tick: ages the requests one key at a time, erasing expired ones. */
    method AgeRequestTable(ms: nat)
      modifies this`ipRequest
      ensures ipRequest == AgeRequests(old(ipRequest), ms)
    {
      ghost var aged := AgeRequests(ipRequest, ms);
      var todo := ipRequest.Keys;
      while todo != {}
        invariant todo <= old(ipRequest).Keys && ipRequest.Keys <= old(ipRequest).Keys
        invariant forall ip :: ip in todo ==> ip in ipRequest && ipRequest[ip] == old(ipRequest)[ip]
        invariant forall ip :: ip in ipRequest && ip !in todo ==> ip in aged && ipRequest[ip] == aged[ip]
        invariant forall ip :: ip in aged ==> ip in ipRequest
        decreases todo
      {
        var ip :| ip in todo;
        var age := ipRequest[ip] + ms;
        if age >= REQUEST_LIFETIME {
          ipRequest := ipRequest - {ip};
        } else {
          ipRequest := ipRequest[ip := age];
        }
        todo := todo - {ip};
      }
    }

    /** The second loop of Tick: ages the cache one key at a time, erasing expired entries. */
    method AgeArpTable(ms: nat)
      modifies this`arpTable
      ensures arpTable == AgeCache(old(arpTable), ms)
    {
      ghost var aged := AgeCache(arpTable, ms);
      var todo := arpTable.Keys;
      while todo != {}
        invariant todo <= old(arpTable).Keys && arpTable.Keys <= old(arpTable).Keys
        invariant forall ip :: ip in todo ==> ip in arpTable && arpTable[ip] == old(arpTable)[ip]
        invariant forall ip :: ip in arpTable && ip !in todo ==> ip in aged && arpTable[ip] == aged[ip]
        invariant forall ip :: ip in aged ==> ip in arpTable
        decreases todo
      {
        var ip :| ip in todo;
        var entry := arpTable[ip];
        if entry.age + ms >= CACHE_LIFETIME {
          arpTable := arpTable - {ip};
        } else {
          arpTable := arpTable[ip := CacheEntry(entry.ethernet, entry.age + ms)];
        }
        todo := todo - {ip};
      }
    }
  }
}
