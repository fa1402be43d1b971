/** The slice of the ldns library the test server relies on, as values: a packet with its
    header and four record sections, records with owner, type and rdata, and the name
    comparison. The library's text and wire codecs are oracles passed in by the caller. */
module Dns {
  import opened Wrappers

  type Byte = x: int | 0 <= x < 0x100
  type Uint16 = x: int | 0 <= x < 0x1_0000
  type Uint32 = x: int | 0 <= x < 0x1_0000_0000

  const UINT16_MOD: nat := 0x1_0000
  const UINT32_MOD: nat := 0x1_0000_0000

  /** The 4-bit header fields. */
  type Opcode = x: int | 0 <= x < 16
  type Rcode = x: int | 0 <= x < 16

  const OPCODE_QUERY: Opcode := 0
  const OPCODE_IQUERY: Opcode := 1
  const OPCODE_STATUS: Opcode := 2
  const OPCODE_NOTIFY: Opcode := 4
  const OPCODE_UPDATE: Opcode := 5

  const RCODE_NOERROR: Rcode := 0
  const RCODE_FORMERR: Rcode := 1
  const RCODE_SERVFAIL: Rcode := 2
  const RCODE_NXDOMAIN: Rcode := 3
  const RCODE_NOTIMPL: Rcode := 4
  const RCODE_YXDOMAIN: Rcode := 6
  const RCODE_YXRRSET: Rcode := 7
  const RCODE_NXRRSET: Rcode := 8
  const RCODE_NOTAUTH: Rcode := 9
  const RCODE_NOTZONE: Rcode := 10

  /** A domain name as its sequence of labels. */
  datatype Dname = Dname(labels: seq<seq<char>>)

  /** One rdata field, as the bytes it holds. */
  datatype Rdf = Rdf(data: seq<Byte>)

  datatype Rr = Rr(owner: Dname, rrType: Uint16, ttl: Uint32, rdata: seq<Rdf>)

  datatype Section = Question | Answer | Authority | Additional

  /** The single-bit header flags a REPLY line can set. */
  datatype Flag = QR | AA | TC | RD | CD | RA | AD

  datatype Packet = Packet(
    id: Uint16,
    opcode: Opcode,
    rcode: Rcode,
    qr: bool, aa: bool, tc: bool, rd: bool, cd: bool, ra: bool, ad: bool,
    question: seq<Rr>,
    answer: seq<Rr>,
    authority: seq<Rr>,
    additional: seq<Rr>)

  /** ldns_pkt_new(): a zero header and four empty sections. */
  function NewPacket(): (p: Packet)
    ensures p.id == 0 && p.opcode == OPCODE_QUERY && p.rcode == RCODE_NOERROR
    ensures forall f :: !FlagOf(p, f)
    ensures forall s :: SectionOf(p, s) == []
  {
    Packet(0, OPCODE_QUERY, RCODE_NOERROR, false, false, false, false, false, false, false,
           [], [], [], [])
  }

  function SectionOf(p: Packet, s: Section): seq<Rr>
  {
    match s
    case Question => p.question
    case Answer => p.answer
    case Authority => p.authority
    case Additional => p.additional
  }

  function FlagOf(p: Packet, f: Flag): bool
  {
    match f
    case QR => p.qr
    case AA => p.aa
    case TC => p.tc
    case RD => p.rd
    case CD => p.cd
    case RA => p.ra
    case AD => p.ad
  }

  /** ldns_pkt_set_qr and its siblings. */
  function SetFlag(p: Packet, f: Flag): (r: Packet)
    ensures FlagOf(r, f)
    ensures forall g :: g != f ==> FlagOf(r, g) == FlagOf(p, g)
    ensures r.id == p.id && r.opcode == p.opcode && r.rcode == p.rcode
    ensures forall s :: SectionOf(r, s) == SectionOf(p, s)
  {
    match f
    case QR => p.(qr := true)
    case AA => p.(aa := true)
    case TC => p.(tc := true)
    case RD => p.(rd := true)
    case CD => p.(cd := true)
    case RA => p.(ra := true)
    case AD => p.(ad := true)
  }

  /** ldns_pkt_push_rr: the record goes to the end of the chosen section; the header and
      the other sections stay as they were. */
  function PushRr(p: Packet, s: Section, rr: Rr): (r: Packet)
    ensures SectionOf(r, s) == SectionOf(p, s) + [rr]
    ensures forall t :: t != s ==> SectionOf(r, t) == SectionOf(p, t)
    ensures r.id == p.id && r.opcode == p.opcode && r.rcode == p.rcode
    ensures forall f :: FlagOf(r, f) == FlagOf(p, f)
  {
    match s
    case Question => p.(question := p.question + [rr])
    case Answer => p.(answer := p.answer + [rr])
    case Authority => p.(authority := p.authority + [rr])
    case Additional => p.(additional := p.additional + [rr])
  }

  /** ldns_rdf2native_int32 of the ldns library this program is part of: a four-byte field
      read in network order. Its width test is taken as `ldns_rdf_size(rd) !=
      LDNS_RDF_SIZE_DOUBLEWORD`, so any other field reads as 0; the library's rdata.c is
      not part of this model. */
  function Native32(f: Rdf): (n: Uint32)
    ensures |f.data| != 4 ==> n == 0
    ensures |f.data| == 4 ==> n / 0x100_0000 == f.data[0] && n % 0x100 == f.data[3]
    ensures |f.data| == 4 ==> (n / 0x1_0000) % 0x100 == f.data[1] && (n / 0x100) % 0x100 == f.data[2]
  {
    if |f.data| != 4 then 0
    else
      var hi := ((f.data[0] as int) * 0x100 + f.data[1] as int) * 0x100 + f.data[2] as int;
      ShiftByte(hi, f.data[3] as int);
      ShiftByte((f.data[0] as int) * 0x100 + f.data[1] as int, f.data[2] as int);
      ShiftByte(f.data[0] as int, f.data[1] as int);
      ShiftTwice(hi * 0x100 + f.data[3] as int);
      ShiftTwice(hi);
      hi * 0x100 + f.data[3] as int
  }

  /** Appending a low byte to x and shifting it out again. */
  lemma ShiftByte(x: nat, b: nat)
    requires b < 0x100
    ensures (x * 0x100 + b) / 0x100 == x && (x * 0x100 + b) % 0x100 == b
  {
  }

  lemma ShiftTwice(x: nat)
    ensures x / 0x1_0000 == (x / 0x100) / 0x100
  {
  }

  /** ASCII case folding, as the canonical name ordering uses it. */
  function LowerChar(c: char): char
  {
    if 'A' <= c <= 'Z' then ((c as int) + 32) as char else c
  }

  predicate SameLabel(a: seq<char>, b: seq<char>)
  {
    |a| == |b| && forall k | 0 <= k < |a| :: LowerChar(a[k]) == LowerChar(b[k])
  }

  /** ldns_dname_compare(a, b) == 0: the names are equal label by label, ignoring the case
      of ASCII letters. */
  predicate SameName(a: Dname, b: Dname)
  {
    |a.labels| == |b.labels| &&
    forall i | 0 <= i < |a.labels| :: SameLabel(a.labels[i], b.labels[i])
  }

  /** Name equality up to case is an equivalence: reflexive, symmetric and transitive. */
  lemma SameNameEquivalence(a: Dname, b: Dname, c: Dname)
    ensures SameName(a, a)
    ensures SameName(a, b) ==> SameName(b, a)
    ensures SameName(a, b) && SameName(b, c) ==> SameName(a, c)
  {
  }

  /** What ldns_rr_new_frm_str reports: a record plus the updated previous owner, or a
      status code. */
  datatype RecordParse = Parsed(rr: Rr, prev: Option<Dname>) | Rejected(status: int)

  /** The library's text parsers, which this model does not reimplement:
      `record(text, defaultTtl, origin, prevOwner)` is ldns_rr_new_frm_str and
      `dname(text)` is ldns_str2rdf_dname. */
  datatype TextParsers = TextParsers(
    record: (seq<char>, Uint32, Option<Dname>, Option<Dname>) -> RecordParse,
    dname: seq<char> -> Option<Dname>)

  /** The library's wire codec: ldns_wire2pkt and ldns_pkt2wire. */
  datatype Codec = Codec(
    decode: seq<Byte> -> Option<Packet>,
    encode: Packet -> Option<seq<Byte>>)
}
