/** One query through the server: the raw message is decoded, answered from the rules and
    encoded (handle_query); over TCP the message is framed by a two-byte length (the
    decision part of handle_tcp), over UDP it is one datagram (handle_udp). The sockets
    themselves are not modelled: a TCP connection is the byte stream the client sent. */
module Server {
  import opened Wrappers
  import opened Dns
  import opened Entries
  import opened Matcher

  /** The size of the receive buffer. */
  const INBUF_SIZE: nat := 4096

  // ---------------------------------------------------------------------------
  // The TCP length prefix

  /** ntohs on the two bytes of the prefix: high byte first. */
  function DecodeLength(b: seq<Byte>): (n: Uint16)
    requires |b| == 2
    ensures n / 0x100 == b[0] && n % 0x100 == b[1]
  {
    (b[0] as int) * 0x100 + b[1]
  }

  /** htons(answer_size): the size, cut to 16 bits, high byte first. */
  function EncodeLength(size: nat): (b: seq<Byte>)
    ensures |b| == 2
    ensures (b[0] as int) * 0x100 + b[1] == size % UINT16_MOD
  {
    var v := size % UINT16_MOD;
    [v / 0x100, v % 0x100]
  }

  /** A prefix read back gives the size it was made from, modulo 2^16. */
  lemma LengthRoundTrip(size: nat)
    ensures DecodeLength(EncodeLength(size)) == size % UINT16_MOD
    ensures size < UINT16_MOD ==> DecodeLength(EncodeLength(size)) == size
  {
  }

  /** Every two-byte prefix is the encoding of the length it decodes to. */
  lemma PrefixRoundTrip(b: seq<Byte>)
    requires |b| == 2
    ensures EncodeLength(DecodeLength(b)) == b
  {
    var n := DecodeLength(b);
    assert n % UINT16_MOD == n;
    assert EncodeLength(n) == [n / 0x100, n % 0x100];
    assert n / 0x100 == b[0] && n % 0x100 == b[1];
    assert b == [b[0], b[1]];
  }

  // ---------------------------------------------------------------------------
  // handle_query

  /** handle_query: a message that does not decode gets no reply; one that decodes is
      answered from the rules, and with no rule qualifying, or an answer that does not
      encode, there is no reply either. */
  function HandleQuery(inbuf: seq<Byte>, rules: seq<Rule>, t: Transport, codec: Codec): Option<seq<Byte>>
  {
    match codec.decode(inbuf)
    case None => None
    case Some(q) =>
      match AnswerTo(rules, q, t)
      case None => None
      case Some(a) => codec.encode(a)
  }

  /** A reply exists exactly when the message decodes to a query that some rule answers and
      the answer encodes; it is then the encoding of the first qualifying rule's reply,
      with the query's id when the rule says copy_id. */
  lemma HandleQueryReply(inbuf: seq<Byte>, rules: seq<Rule>, t: Transport, codec: Codec)
    ensures HandleQuery(inbuf, rules, t, codec).Some? <==>
            && codec.decode(inbuf).Some?
            && FindMatch(rules, codec.decode(inbuf).value, t).Some?
            && codec.encode(AnswerTo(rules, codec.decode(inbuf).value, t).value).Some?
    ensures HandleQuery(inbuf, rules, t, codec).Some? ==>
            var q := codec.decode(inbuf).value;
            var r := rules[FindMatch(rules, q, t).value];
            HandleQuery(inbuf, rules, t, codec) ==
              codec.encode(r.reply.(id := if r.copyId then q.id else r.reply.id))
  {
  }

  /** The server never answers a message that does not decode, whatever its rules. */
  lemma GarbageGetsNoReply(inbuf: seq<Byte>, rules: seq<Rule>, t: Transport, codec: Codec)
    requires codec.decode(inbuf).None?
    ensures HandleQuery(inbuf, rules, t, codec).None?
  {
  }

  // ---------------------------------------------------------------------------
  // handle_tcp and handle_udp

  /** What a TCP connection gets: closed after a length prefix of INBUF_SIZE or more,
      closed without a reply, or a reply. */
  datatype TcpOutcome = TooLarge(length: Uint16) | NoReply | Reply(bytes: seq<Byte>)

  /** The connection carries a whole prefix and, when the prefix is acceptable, the whole
      query after it (read_n_bytes waits for every byte otherwise). */
  predicate CompleteStream(stream: seq<Byte>)
  {
    |stream| >= 2 && (DecodeLength(stream[..2]) < INBUF_SIZE ==> 2 + DecodeLength(stream[..2]) <= |stream|)
  }

  /** handle_tcp: the length prefix is checked against the buffer, the query bytes after
      it are answered as a TCP query, and the reply goes back behind its own length. */
  function TcpExchange(stream: seq<Byte>, rules: seq<Rule>, codec: Codec): TcpOutcome
    requires CompleteStream(stream)
  {
    var len := DecodeLength(stream[..2]);
    if len >= INBUF_SIZE then TooLarge(len)
    else
      match HandleQuery(stream[2..2 + len], rules, TransportTcp, codec)
      case None => NoReply
      case Some(out) => Reply(EncodeLength(|out|) + out)
  }

  /** A prefix of INBUF_SIZE or more is refused before any query byte is read. */
  lemma TcpRefusesLongQuery(stream: seq<Byte>, rules: seq<Rule>, codec: Codec)
    requires CompleteStream(stream) && DecodeLength(stream[..2]) >= INBUF_SIZE
    ensures TcpExchange(stream, rules, codec) == TooLarge(DecodeLength(stream[..2]))
  {
  }

  /** A client that frames its query with its length gets the reply handle_query makes for
      exactly those bytes, framed the same way; anything it sends after them is ignored. */
  lemma TcpFraming(query: seq<Byte>, extra: seq<Byte>, rules: seq<Rule>, codec: Codec)
    requires |query| < INBUF_SIZE
    ensures CompleteStream(EncodeLength(|query|) + query + extra)
    ensures TcpExchange(EncodeLength(|query|) + query + extra, rules, codec) ==
            match HandleQuery(query, rules, TransportTcp, codec)
            case None => NoReply
            case Some(out) => Reply(EncodeLength(|out|) + out)
  {
    var stream := EncodeLength(|query|) + query + extra;
    assert stream[..2] == EncodeLength(|query|);
    LengthRoundTrip(|query|);
    assert stream[2..2 + |query|] == query;
  }

  /** A reply below 2^16 bytes can be taken apart by the client: its prefix gives the
      length of the rest. */
  lemma TcpReplyDeframes(stream: seq<Byte>, rules: seq<Rule>, codec: Codec)
    requires CompleteStream(stream) && TcpExchange(stream, rules, codec).Reply?
    requires |TcpExchange(stream, rules, codec).bytes| - 2 < UINT16_MOD
    ensures var b := TcpExchange(stream, rules, codec).bytes;
            |b| >= 2 && DecodeLength(b[..2]) == |b| - 2
            && Some(b[2..]) == HandleQuery(stream[2..2 + DecodeLength(stream[..2])], rules, TransportTcp, codec)
  {
    var b := TcpExchange(stream, rules, codec).bytes;
    var out := HandleQuery(stream[2..2 + DecodeLength(stream[..2])], rules, TransportTcp, codec).value;
    assert b == EncodeLength(|out|) + out;
    assert b[..2] == EncodeLength(|out|) && b[2..] == out;
    LengthRoundTrip(|out|);
  }

  /** handle_udp: a datagram of at least one byte is answered as a UDP query; the receive
      buffer keeps its first INBUF_SIZE bytes. */
  function UdpExchange(datagram: seq<Byte>, rules: seq<Rule>, codec: Codec): Option<seq<Byte>>
  {
    if |datagram| < 1 then None
    else
      var n := if |datagram| < INBUF_SIZE then |datagram| else INBUF_SIZE;
      HandleQuery(datagram[..n], rules, TransportUdp, codec)
  }

  /** The same query bytes get the same reply over UDP and TCP from rules that do not look
      at the transport. */
  lemma SameReplyEitherWay(query: seq<Byte>, rules: seq<Rule>, codec: Codec)
    requires 1 <= |query| < INBUF_SIZE
    requires forall k | 0 <= k < |rules| :: rules[k].matchTransport == TransportAny
    ensures UdpExchange(query, rules, codec) == HandleQuery(query, rules, TransportTcp, codec)
  {
    assert query[..|query|] == query;
    match codec.decode(query)
    case None =>
    case Some(q) =>
      AnyTransportRules(rules, q, 0);
  }

  lemma {:induction false} AnyTransportRules(rules: seq<Rule>, q: Packet, i: nat)
    requires i <= |rules|
    requires forall k | 0 <= k < |rules| :: rules[k].matchTransport == TransportAny
    ensures FindMatchFrom(rules, q, TransportUdp, i) == FindMatchFrom(rules, q, TransportTcp, i)
    decreases |rules| - i
  {
    if i < |rules| {
      AnyTransport(rules[i], q);
      AnyTransportRules(rules, q, i + 1);
    }
  }
}
