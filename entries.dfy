/** One rule of the datafile (C: struct entry) and the parsers of the three directives
    that fill it in: MATCH, REPLY and ADJUST. Each parser scans the rest of its line token
    by token, left to right; a token is a keyword matched by str_keyword, and an unknown
    token is fatal. The scan is specified as a lexer (the tokens of the line) and an
    applier (what each token sets). */
module Entries {
  import opened Wrappers
  import opened Scanner
  import opened Dns

  /** C: enum transport_type. */
  datatype Transport = TransportAny | TransportUdp | TransportTcp

  /** The value of an entry: its match predicates, its canned reply and its adjustment. */
  datatype Rule = Rule(
    matchOpcode: bool,
    matchQtype: bool,
    matchQname: bool,
    matchSerial: bool,
    ixfrSoaSerial: Uint32,
    matchTransport: Transport,
    reply: Packet,
    copyId: bool)

  /** The entry new_entry allocates. */
  function NewRule(): Rule
  {
    Rule(false, false, false, false, 0, TransportAny, NewPacket(), false)
  }

  /** An entry as the loader holds it while its block is being read. */
  class Entry {
    var matchOpcode: bool
    var matchQtype: bool
    var matchQname: bool
    var matchSerial: bool
    var ixfrSoaSerial: Uint32
    var matchTransport: Transport
    var reply: Packet
    var copyId: bool

    /** new_entry: every predicate off, serial 0, any transport, an empty reply, no
        adjustment. */
    constructor ()
      ensures AsRule() == NewRule()
    {
      matchOpcode := false;
      matchQtype := false;
      matchQname := false;
      matchSerial := false;
      ixfrSoaSerial := 0;
      matchTransport := TransportAny;
      reply := NewPacket();
      copyId := false;
    }

    function AsRule(): Rule
      reads this
    {
      Rule(matchOpcode, matchQtype, matchQname, matchSerial, ixfrSoaSerial, matchTransport,
           reply, copyId)
    }
  }

  /** Why a directive line is fatal, with the cursor position where the scan stopped. */
  datatype DirectiveError =
    | SerialWithoutSeparator(at: nat)
    | UnknownMatchToken(at: nat)
    | UnknownReplyToken(at: nat)
    | UnknownAdjustToken(at: nat)

  /** A token and where the cursor stands after it. */
  datatype Scanned<T> = Scanned(token: T, next: nat)

  /** The (uint32_t) cast of a long. */
  function ToUint32(v: int): (r: Uint32)
    ensures 0 <= v < 0x1_0000_0000 ==> r == v
  {
    v % 0x1_0000_0000
  }

  function Found<T>(line: seq<char>, pos: nat, kw: seq<char>, t: T): (r: Result<Scanned<T>, DirectiveError>)
    requires HasKeywordAt(line, pos, kw)
    ensures r.Ok? && r.value.next == KeywordEnd(line, pos, kw)
  {
    Ok(Scanned(t, KeywordEnd(line, pos, kw)))
  }

  /** The tokens already scanned, in front of the outcome of the rest of the line. */
  function PrependAll<T>(done: seq<T>, r: Result<seq<T>, DirectiveError>): Result<seq<T>, DirectiveError>
  {
    match r
    case Ok(ts) => Ok(done + ts)
    case Err(e) => Err(e)
  }

  lemma PrependAllNothing<T>(done: seq<T>, r: Result<seq<T>, DirectiveError>)
    ensures PrependAll([], r) == r
    ensures PrependAll(done, Ok([])) == Ok(done)
  {
    if r.Ok? {
      assert [] + r.value == r.value;
    }
    assert done + [] == done;
  }

  lemma PrependAllTwice<T>(a: seq<T>, b: seq<T>, r: Result<seq<T>, DirectiveError>)
    ensures PrependAll(a, PrependAll(b, r)) == PrependAll(a + b, r)
  {
    if r.Ok? {
      assert a + (b + r.value) == (a + b) + r.value;
    }
  }

  // ---------------------------------------------------------------------------
  // MATCH

  datatype MatchToken = TokOpcode | TokQtype | TokQname | TokUdp | TokTcp | TokSerial(serial: Uint32)

  /** What follows the keyword `serial`: `=` or `:`, then a decimal number (strtol, cast
      to 32 bits), then white space. */
  function SerialToken(line: seq<char>, p: nat): (r: Result<Scanned<MatchToken>, DirectiveError>)
    requires p <= |line|
    ensures r.Ok? ==> p < r.value.next <= |line|
  {
    if At(line, p) != '=' && At(line, p) != ':' then Err(SerialWithoutSeparator(p))
    else
      var c := Strtol(line, p + 1);
      Ok(Scanned(TokSerial(ToUint32(c.value)), SkipSpaces(line, c.end)))
  }

  /** One iteration of matchline's loop, at a character that does not end the line. */
  function NextMatchToken(line: seq<char>, pos: nat): (r: Result<Scanned<MatchToken>, DirectiveError>)
    requires pos <= |line|
    ensures r.Ok? ==> pos < r.value.next <= |line|
  {
    if HasKeywordAt(line, pos, "opcode") then Found(line, pos, "opcode", TokOpcode)
    else if HasKeywordAt(line, pos, "qtype") then Found(line, pos, "qtype", TokQtype)
    else if HasKeywordAt(line, pos, "qname") then Found(line, pos, "qname", TokQname)
    else if HasKeywordAt(line, pos, "UDP") then Found(line, pos, "UDP", TokUdp)
    else if HasKeywordAt(line, pos, "TCP") then Found(line, pos, "TCP", TokTcp)
    else if HasKeywordAt(line, pos, "serial") then SerialToken(line, KeywordEnd(line, pos, "serial"))
    else Err(UnknownMatchToken(pos))
  }

  /** The tokens of a MATCH line from pos to the first end-of-line character. */
  function MatchTokens(line: seq<char>, pos: nat): Result<seq<MatchToken>, DirectiveError>
    requires pos <= |line|
    decreases |line| - pos
  {
    if IsEndLine(At(line, pos)) then Ok([])
    else
      match NextMatchToken(line, pos)
      case Err(e) => Err(e)
      case Ok(sc) => PrependAll([sc.token], MatchTokens(line, sc.next))
  }

  function ApplyMatch(r: Rule, t: MatchToken): Rule
  {
    match t
    case TokOpcode => r.(matchOpcode := true)
    case TokQtype => r.(matchQtype := true)
    case TokQname => r.(matchQname := true)
    case TokUdp => r.(matchTransport := TransportUdp)
    case TokTcp => r.(matchTransport := TransportTcp)
    case TokSerial(v) => r.(matchSerial := true, ixfrSoaSerial := v)
  }

  /** The tokens applied in line order. */
  function ApplyMatches(r: Rule, ts: seq<MatchToken>): Rule
    decreases |ts|
  {
    if ts == [] then r else ApplyMatch(ApplyMatches(r, ts[..|ts| - 1]), ts[|ts| - 1])
  }

  /** The serial branch of matchline's loop, from the cursor after `serial`. */
  method MatchSerial(line: seq<char>, p: nat, e: Entry) returns (err: Option<DirectiveError>, next: nat)
    requires p <= |line|
    modifies e`matchOpcode, e`matchQtype, e`matchQname, e`matchSerial, e`ixfrSoaSerial, e`matchTransport
    ensures match SerialToken(line, p)
            case Ok(sc) => err == None && next == sc.next && e.AsRule() == ApplyMatch(old(e.AsRule()), sc.token)
            case Err(k) => err == Some(k)
  {
    e.matchSerial := true;
    if At(line, p) != '=' && At(line, p) != ':' {
      return Some(SerialWithoutSeparator(p)), p;
    }
    var c := Strtol(line, p + 1);
    e.ixfrSoaSerial := ToUint32(c.value);
    next := SkipWhitespace(line, c.end);
    err := None;
  }

  /** One iteration of matchline's loop: the keyword at the cursor sets its predicate. */
  method MatchStep(line: seq<char>, parse: nat, e: Entry) returns (err: Option<DirectiveError>, next: nat)
    requires parse <= |line|
    modifies e`matchOpcode, e`matchQtype, e`matchQname, e`matchSerial, e`ixfrSoaSerial, e`matchTransport
    ensures match NextMatchToken(line, parse)
            case Ok(sc) => err == None && next == sc.next && e.AsRule() == ApplyMatch(old(e.AsRule()), sc.token)
            case Err(k) => err == Some(k)
  {
    var found;
    found, next := StrKeyword(line, parse, "opcode");
    if found {
      e.matchOpcode := true;
      assert NextMatchToken(line, parse) == Ok(Scanned(TokOpcode, next));
      return None, next;
    }
    found, next := StrKeyword(line, parse, "qtype");
    if found {
      e.matchQtype := true;
      assert NextMatchToken(line, parse) == Ok(Scanned(TokQtype, next));
      return None, next;
    }
    found, next := StrKeyword(line, parse, "qname");
    if found {
      e.matchQname := true;
      assert NextMatchToken(line, parse) == Ok(Scanned(TokQname, next));
      return None, next;
    }
    found, next := StrKeyword(line, parse, "UDP");
    if found {
      e.matchTransport := TransportUdp;
      assert NextMatchToken(line, parse) == Ok(Scanned(TokUdp, next));
      return None, next;
    }
    found, next := StrKeyword(line, parse, "TCP");
    if found {
      e.matchTransport := TransportTcp;
      assert NextMatchToken(line, parse) == Ok(Scanned(TokTcp, next));
      return None, next;
    }
    found, next := StrKeyword(line, parse, "serial");
    if found {
      assert NextMatchToken(line, parse) == SerialToken(line, next);
      err, next := MatchSerial(line, next, e);
      return;
    }
    return Some(UnknownMatchToken(parse)), parse;
  }

  /** matchline: scans the line after MATCH and sets the entry's predicates. */
  method MatchLine(line: seq<char>, pos: nat, e: Entry) returns (err: Option<DirectiveError>)
    requires pos <= |line|
    modifies e`matchOpcode, e`matchQtype, e`matchQname, e`matchSerial, e`ixfrSoaSerial, e`matchTransport
    ensures match MatchTokens(line, pos)
            case Ok(ts) => err == None && e.AsRule() == ApplyMatches(old(e.AsRule()), ts)
            case Err(k) => err == Some(k)
  {
    var parse := pos;
    ghost var done: seq<MatchToken> := [];
    PrependAllNothing(done, MatchTokens(line, pos));
    while !IsEndLine(At(line, parse))
      invariant pos <= parse <= |line|
      invariant MatchTokens(line, pos) == PrependAll(done, MatchTokens(line, parse))
      invariant e.AsRule() == ApplyMatches(old(e.AsRule()), done)
      decreases |line| - parse
    {
      var stepErr, next := MatchStep(line, parse, e);
      if stepErr.Some? {
        return stepErr;
      }
      ghost var tok := NextMatchToken(line, parse).value.token;
      PrependAllTwice(done, [tok], MatchTokens(line, next));
      assert (done + [tok])[..|done|] == done;
      done := done + [tok];
      parse := next;
    }
    PrependAllNothing(done, Ok([]));
    err := None;
  }

  // ---------------------------------------------------------------------------
  // REPLY

  datatype ReplyToken = SetOpcodeTo(opcode: Opcode) | SetRcodeTo(rcode: Rcode) | RaiseFlag(flag: Flag)

  /** The opcode names of replyline's chain, in the order it tries them. */
  function OpcodeKeyword(line: seq<char>, pos: nat): (r: Option<Scanned<ReplyToken>>)
    requires pos <= |line|
    ensures r.Some? ==> pos < r.value.next <= |line|
  {
    if HasKeywordAt(line, pos, "QUERY") then Some(Scanned(SetOpcodeTo(OPCODE_QUERY), KeywordEnd(line, pos, "QUERY")))
    else if HasKeywordAt(line, pos, "IQUERY") then Some(Scanned(SetOpcodeTo(OPCODE_IQUERY), KeywordEnd(line, pos, "IQUERY")))
    else if HasKeywordAt(line, pos, "STATUS") then Some(Scanned(SetOpcodeTo(OPCODE_STATUS), KeywordEnd(line, pos, "STATUS")))
    else if HasKeywordAt(line, pos, "NOTIFY") then Some(Scanned(SetOpcodeTo(OPCODE_NOTIFY), KeywordEnd(line, pos, "NOTIFY")))
    else if HasKeywordAt(line, pos, "UPDATE") then Some(Scanned(SetOpcodeTo(OPCODE_UPDATE), KeywordEnd(line, pos, "UPDATE")))
    else None
  }

  /** The rcode names of replyline's chain, in the order it tries them. */
  function RcodeKeyword(line: seq<char>, pos: nat): (r: Option<Scanned<ReplyToken>>)
    requires pos <= |line|
    ensures r.Some? ==> pos < r.value.next <= |line|
  {
    if HasKeywordAt(line, pos, "NOERROR") then Some(Scanned(SetRcodeTo(RCODE_NOERROR), KeywordEnd(line, pos, "NOERROR")))
    else if HasKeywordAt(line, pos, "FORMERR") then Some(Scanned(SetRcodeTo(RCODE_FORMERR), KeywordEnd(line, pos, "FORMERR")))
    else if HasKeywordAt(line, pos, "SERVFAIL") then Some(Scanned(SetRcodeTo(RCODE_SERVFAIL), KeywordEnd(line, pos, "SERVFAIL")))
    else if HasKeywordAt(line, pos, "NXDOMAIN") then Some(Scanned(SetRcodeTo(RCODE_NXDOMAIN), KeywordEnd(line, pos, "NXDOMAIN")))
    else if HasKeywordAt(line, pos, "NOTIMPL") then Some(Scanned(SetRcodeTo(RCODE_NOTIMPL), KeywordEnd(line, pos, "NOTIMPL")))
    else if HasKeywordAt(line, pos, "YXDOMAIN") then Some(Scanned(SetRcodeTo(RCODE_YXDOMAIN), KeywordEnd(line, pos, "YXDOMAIN")))
    else if HasKeywordAt(line, pos, "YXRRSET") then Some(Scanned(SetRcodeTo(RCODE_YXRRSET), KeywordEnd(line, pos, "YXRRSET")))
    else if HasKeywordAt(line, pos, "NXRRSET") then Some(Scanned(SetRcodeTo(RCODE_NXRRSET), KeywordEnd(line, pos, "NXRRSET")))
    else if HasKeywordAt(line, pos, "NOTAUTH") then Some(Scanned(SetRcodeTo(RCODE_NOTAUTH), KeywordEnd(line, pos, "NOTAUTH")))
    else if HasKeywordAt(line, pos, "NOTZONE") then Some(Scanned(SetRcodeTo(RCODE_NOTZONE), KeywordEnd(line, pos, "NOTZONE")))
    else None
  }

  /** The header flag names of replyline's chain, in the order it tries them. */
  function FlagKeyword(line: seq<char>, pos: nat): (r: Option<Scanned<ReplyToken>>)
    requires pos <= |line|
    ensures r.Some? ==> pos < r.value.next <= |line|
  {
    if HasKeywordAt(line, pos, "QR") then Some(Scanned(RaiseFlag(QR), KeywordEnd(line, pos, "QR")))
    else if HasKeywordAt(line, pos, "AA") then Some(Scanned(RaiseFlag(AA), KeywordEnd(line, pos, "AA")))
    else if HasKeywordAt(line, pos, "TC") then Some(Scanned(RaiseFlag(TC), KeywordEnd(line, pos, "TC")))
    else if HasKeywordAt(line, pos, "RD") then Some(Scanned(RaiseFlag(RD), KeywordEnd(line, pos, "RD")))
    else if HasKeywordAt(line, pos, "CD") then Some(Scanned(RaiseFlag(CD), KeywordEnd(line, pos, "CD")))
    else if HasKeywordAt(line, pos, "RA") then Some(Scanned(RaiseFlag(RA), KeywordEnd(line, pos, "RA")))
    else if HasKeywordAt(line, pos, "AD") then Some(Scanned(RaiseFlag(AD), KeywordEnd(line, pos, "AD")))
    else None
  }

  /** One iteration of replyline's loop: opcode names, then rcode names, then flags. */
  function NextReplyToken(line: seq<char>, pos: nat): (r: Result<Scanned<ReplyToken>, DirectiveError>)
    requires pos <= |line|
    ensures r.Ok? ==> pos < r.value.next <= |line|
  {
    match OpcodeKeyword(line, pos)
    case Some(sc) => Ok(sc)
    case None =>
      match RcodeKeyword(line, pos)
      case Some(sc) => Ok(sc)
      case None =>
        match FlagKeyword(line, pos)
        case Some(sc) => Ok(sc)
        case None => Err(UnknownReplyToken(pos))
  }

  /** The tokens of a REPLY line from pos to the first end-of-line character. */
  function ReplyTokens(line: seq<char>, pos: nat): Result<seq<ReplyToken>, DirectiveError>
    requires pos <= |line|
    decreases |line| - pos
  {
    if IsEndLine(At(line, pos)) then Ok([])
    else
      match NextReplyToken(line, pos)
      case Err(e) => Err(e)
      case Ok(sc) => PrependAll([sc.token], ReplyTokens(line, sc.next))
  }

  function ApplyReply(p: Packet, t: ReplyToken): Packet
  {
    match t
    case SetOpcodeTo(o) => p.(opcode := o)
    case SetRcodeTo(c) => p.(rcode := c)
    case RaiseFlag(f) => SetFlag(p, f)
  }

  function ApplyReplies(p: Packet, ts: seq<ReplyToken>): Packet
    decreases |ts|
  {
    if ts == [] then p else ApplyReply(ApplyReplies(p, ts[..|ts| - 1]), ts[|ts| - 1])
  }

  /** The opcode names of replyline's chain: a match sets its header field. */
  method ReplyOpcode(line: seq<char>, pos: nat, e: Entry) returns (found: bool, next: nat)
    requires pos <= |line|
    modifies e`reply
    ensures match OpcodeKeyword(line, pos)
            case Some(sc) => found && next == sc.next && e.reply == ApplyReply(old(e.reply), sc.token)
            case None => !found && e.reply == old(e.reply)
  {
    found, next := false, pos;
    found, next := StrKeyword(line, pos, "QUERY");
    if found {
      e.reply := e.reply.(opcode := OPCODE_QUERY);
      return;
    }
    found, next := StrKeyword(line, pos, "IQUERY");
    if found {
      e.reply := e.reply.(opcode := OPCODE_IQUERY);
      return;
    }
    found, next := StrKeyword(line, pos, "STATUS");
    if found {
      e.reply := e.reply.(opcode := OPCODE_STATUS);
      return;
    }
    found, next := StrKeyword(line, pos, "NOTIFY");
    if found {
      e.reply := e.reply.(opcode := OPCODE_NOTIFY);
      return;
    }
    found, next := StrKeyword(line, pos, "UPDATE");
    if found {
      e.reply := e.reply.(opcode := OPCODE_UPDATE);
      return;
    }
  }

  /** The rcode names of replyline's chain: a match sets its header field. */
  method ReplyRcode(line: seq<char>, pos: nat, e: Entry) returns (found: bool, next: nat)
    requires pos <= |line|
    modifies e`reply
    ensures match RcodeKeyword(line, pos)
            case Some(sc) => found && next == sc.next && e.reply == ApplyReply(old(e.reply), sc.token)
            case None => !found && e.reply == old(e.reply)
  {
    found, next := false, pos;
    found, next := StrKeyword(line, pos, "NOERROR");
    if found {
      e.reply := e.reply.(rcode := RCODE_NOERROR);
      return;
    }
    found, next := StrKeyword(line, pos, "FORMERR");
    if found {
      e.reply := e.reply.(rcode := RCODE_FORMERR);
      return;
    }
    found, next := StrKeyword(line, pos, "SERVFAIL");
    if found {
      e.reply := e.reply.(rcode := RCODE_SERVFAIL);
      return;
    }
    found, next := StrKeyword(line, pos, "NXDOMAIN");
    if found {
      e.reply := e.reply.(rcode := RCODE_NXDOMAIN);
      return;
    }
    found, next := StrKeyword(line, pos, "NOTIMPL");
    if found {
      e.reply := e.reply.(rcode := RCODE_NOTIMPL);
      return;
    }
    found, next := StrKeyword(line, pos, "YXDOMAIN");
    if found {
      e.reply := e.reply.(rcode := RCODE_YXDOMAIN);
      return;
    }
    found, next := StrKeyword(line, pos, "YXRRSET");
    if found {
      e.reply := e.reply.(rcode := RCODE_YXRRSET);
      return;
    }
    found, next := StrKeyword(line, pos, "NXRRSET");
    if found {
      e.reply := e.reply.(rcode := RCODE_NXRRSET);
      return;
    }
    found, next := StrKeyword(line, pos, "NOTAUTH");
    if found {
      e.reply := e.reply.(rcode := RCODE_NOTAUTH);
      return;
    }
    found, next := StrKeyword(line, pos, "NOTZONE");
    if found {
      e.reply := e.reply.(rcode := RCODE_NOTZONE);
      return;
    }
  }

  /** The header flag names of replyline's chain: a match sets its header field. */
  method ReplyFlag(line: seq<char>, pos: nat, e: Entry) returns (found: bool, next: nat)
    requires pos <= |line|
    modifies e`reply
    ensures match FlagKeyword(line, pos)
            case Some(sc) => found && next == sc.next && e.reply == ApplyReply(old(e.reply), sc.token)
            case None => !found && e.reply == old(e.reply)
  {
    found, next := false, pos;
    found, next := StrKeyword(line, pos, "QR");
    if found {
      e.reply := SetFlag(e.reply, QR);
      return;
    }
    found, next := StrKeyword(line, pos, "AA");
    if found {
      e.reply := SetFlag(e.reply, AA);
      return;
    }
    found, next := StrKeyword(line, pos, "TC");
    if found {
      e.reply := SetFlag(e.reply, TC);
      return;
    }
    found, next := StrKeyword(line, pos, "RD");
    if found {
      e.reply := SetFlag(e.reply, RD);
      return;
    }
    found, next := StrKeyword(line, pos, "CD");
    if found {
      e.reply := SetFlag(e.reply, CD);
      return;
    }
    found, next := StrKeyword(line, pos, "RA");
    if found {
      e.reply := SetFlag(e.reply, RA);
      return;
    }
    found, next := StrKeyword(line, pos, "AD");
    if found {
      e.reply := SetFlag(e.reply, AD);
      return;
    }
  }

  /** replyline: scans the line after REPLY and sets header fields of the entry's reply. */
  method ReplyLine(line: seq<char>, pos: nat, e: Entry) returns (err: Option<DirectiveError>)
    requires pos <= |line|
    modifies e`reply
    ensures match ReplyTokens(line, pos)
            case Ok(ts) => err == None && e.reply == ApplyReplies(old(e.reply), ts)
            case Err(k) => err == Some(k)
  {
    var parse := pos;
    ghost var done: seq<ReplyToken> := [];
    PrependAllNothing(done, ReplyTokens(line, pos));
    while !IsEndLine(At(line, parse))
      invariant pos <= parse <= |line|
      invariant ReplyTokens(line, pos) == PrependAll(done, ReplyTokens(line, parse))
      invariant e.reply == ApplyReplies(old(e.reply), done)
      decreases |line| - parse
    {
      var found, next := ReplyOpcode(line, parse, e);
      if !found {
        found, next := ReplyRcode(line, parse, e);
      }
      if !found {
        found, next := ReplyFlag(line, parse, e);
      }
      if !found {
        return Some(UnknownReplyToken(parse));
      }
      ghost var tok := NextReplyToken(line, parse).value.token;
      PrependAllTwice(done, [tok], ReplyTokens(line, next));
      assert (done + [tok])[..|done|] == done;
      done := done + [tok];
      parse := next;
    }
    PrependAllNothing(done, Ok([]));
    err := None;
  }

  // ---------------------------------------------------------------------------
  // ADJUST

  datatype AdjustToken = TokCopyId

  function NextAdjustToken(line: seq<char>, pos: nat): (r: Result<Scanned<AdjustToken>, DirectiveError>)
    requires pos <= |line|
    ensures r.Ok? ==> pos < r.value.next <= |line|
  {
    if HasKeywordAt(line, pos, "copy_id") then Found(line, pos, "copy_id", TokCopyId)
    else Err(UnknownAdjustToken(pos))
  }

  function AdjustTokens(line: seq<char>, pos: nat): Result<seq<AdjustToken>, DirectiveError>
    requires pos <= |line|
    decreases |line| - pos
  {
    if IsEndLine(At(line, pos)) then Ok([])
    else
      match NextAdjustToken(line, pos)
      case Err(e) => Err(e)
      case Ok(sc) => PrependAll([sc.token], AdjustTokens(line, sc.next))
  }

  function ApplyAdjusts(r: Rule, ts: seq<AdjustToken>): Rule
    decreases |ts|
  {
    if ts == [] then r else ApplyAdjusts(r, ts[..|ts| - 1]).(copyId := true)
  }

  /** adjustline: scans the line after ADJUST. */
  method AdjustLine(line: seq<char>, pos: nat, e: Entry) returns (err: Option<DirectiveError>)
    requires pos <= |line|
    modifies e`copyId
    ensures match AdjustTokens(line, pos)
            case Ok(ts) => err == None && e.AsRule() == ApplyAdjusts(old(e.AsRule()), ts)
            case Err(k) => err == Some(k)
  {
    var parse := pos;
    ghost var done: seq<AdjustToken> := [];
    PrependAllNothing(done, AdjustTokens(line, pos));
    while !IsEndLine(At(line, parse))
      invariant pos <= parse <= |line|
      invariant AdjustTokens(line, pos) == PrependAll(done, AdjustTokens(line, parse))
      invariant e.AsRule() == ApplyAdjusts(old(e.AsRule()), done)
      decreases |line| - parse
    {
      var found, next := StrKeyword(line, parse, "copy_id");
      if !found {
        return Some(UnknownAdjustToken(parse));
      }
      e.copyId := true;
      assert NextAdjustToken(line, parse) == Ok(Scanned(TokCopyId, next));
      PrependAllTwice(done, [TokCopyId], AdjustTokens(line, next));
      assert (done + [TokCopyId])[..|done|] == done;
      done := done + [TokCopyId];
      parse := next;
    }
    PrependAllNothing(done, Ok([]));
    err := None;
  }

  // ---------------------------------------------------------------------------
  // What the directives set

  predicate IsTransportToken(t: MatchToken)
  {
    t.TokUdp? || t.TokTcp?
  }

  function TransportOf(t: MatchToken): Transport
    requires IsTransportToken(t)
  {
    if t.TokUdp? then TransportUdp else TransportTcp
  }

  /** One MATCH token, field by field. */
  lemma ApplyMatchFields(r: Rule, t: MatchToken)
    ensures ApplyMatch(r, t).reply == r.reply && ApplyMatch(r, t).copyId == r.copyId
    ensures ApplyMatch(r, t).matchOpcode == (r.matchOpcode || t == TokOpcode)
    ensures ApplyMatch(r, t).matchQtype == (r.matchQtype || t == TokQtype)
    ensures ApplyMatch(r, t).matchQname == (r.matchQname || t == TokQname)
    ensures ApplyMatch(r, t).matchSerial == (r.matchSerial || t.TokSerial?)
    ensures ApplyMatch(r, t).matchTransport == if IsTransportToken(t) then TransportOf(t) else r.matchTransport
    ensures ApplyMatch(r, t).ixfrSoaSerial == if t.TokSerial? then t.serial else r.ixfrSoaSerial
  {
  }

  predicate HasSerialToken(ts: seq<MatchToken>)
  {
    exists k | 0 <= k < |ts| :: ts[k].TokSerial?
  }

  lemma HasSerialTokenSnoc(ts: seq<MatchToken>, t: MatchToken)
    ensures HasSerialToken(ts + [t]) <==> HasSerialToken(ts) || t.TokSerial?
  {
    var u := ts + [t];
    if HasSerialToken(u) {
      var k :| 0 <= k < |u| && u[k].TokSerial?;
      if k < |ts| {
        assert ts[k] == u[k];
      }
    }
    if HasSerialToken(ts) {
      var k :| 0 <= k < |ts| && ts[k].TokSerial?;
      assert u[k] == ts[k];
    }
    if t.TokSerial? {
      assert u[|ts|] == t;
    }
  }

  /** MATCH tokens may come in any order: each of opcode, qtype and qname switches its
      predicate on, and serial switches match_serial on; the reply and copy_id are never
      touched. */
  lemma {:induction false} ApplyMatchesFlags(r: Rule, ts: seq<MatchToken>)
    ensures ApplyMatches(r, ts).reply == r.reply
    ensures ApplyMatches(r, ts).copyId == r.copyId
    ensures ApplyMatches(r, ts).matchOpcode <==> r.matchOpcode || TokOpcode in ts
    ensures ApplyMatches(r, ts).matchQtype <==> r.matchQtype || TokQtype in ts
    ensures ApplyMatches(r, ts).matchQname <==> r.matchQname || TokQname in ts
    ensures ApplyMatches(r, ts).matchSerial <==> r.matchSerial || HasSerialToken(ts)
    decreases |ts|
  {
    if ts != [] {
      var init, t := ts[..|ts| - 1], ts[|ts| - 1];
      ApplyMatchesFlags(r, init);
      ApplyMatchFields(ApplyMatches(r, init), t);
      assert ts == init + [t];
      HasSerialTokenSnoc(init, t);
    }
  }

  /** With no UDP or TCP on the MATCH lines the transport stays what it was. */
  lemma {:induction false} ApplyMatchesNoTransport(r: Rule, ts: seq<MatchToken>)
    requires forall k | 0 <= k < |ts| :: !IsTransportToken(ts[k])
    ensures ApplyMatches(r, ts).matchTransport == r.matchTransport
    decreases |ts|
  {
    if ts != [] {
      var n := |ts| - 1;
      assert forall k | 0 <= k < n :: ts[..n][k] == ts[k];
      ApplyMatchesNoTransport(r, ts[..n]);
      ApplyMatchFields(ApplyMatches(r, ts[..n]), ts[n]);
    }
  }

  /** UDP and TCP on one entry: the last of them wins. */
  lemma {:induction false} ApplyMatchesLastTransport(r: Rule, ts: seq<MatchToken>, k: nat)
    requires k < |ts| && IsTransportToken(ts[k])
    requires forall j | k < j < |ts| :: !IsTransportToken(ts[j])
    ensures ApplyMatches(r, ts).matchTransport == TransportOf(ts[k])
    decreases |ts|
  {
    var n := |ts| - 1;
    if k < n {
      assert forall j | k < j < n :: ts[..n][j] == ts[j];
      ApplyMatchesLastTransport(r, ts[..n], k);
    }
    ApplyMatchFields(ApplyMatches(r, ts[..n]), ts[n]);
  }

  /** With no serial=N the threshold stays what it was. */
  lemma {:induction false} ApplyMatchesNoSerial(r: Rule, ts: seq<MatchToken>)
    requires forall k | 0 <= k < |ts| :: !ts[k].TokSerial?
    ensures ApplyMatches(r, ts).ixfrSoaSerial == r.ixfrSoaSerial
    decreases |ts|
  {
    if ts != [] {
      var n := |ts| - 1;
      assert forall k | 0 <= k < n :: ts[..n][k] == ts[k];
      ApplyMatchesNoSerial(r, ts[..n]);
      ApplyMatchFields(ApplyMatches(r, ts[..n]), ts[n]);
    }
  }

  /** Of several serial=N tokens the last one gives ixfr_soa_serial. */
  lemma {:induction false} ApplyMatchesLastSerial(r: Rule, ts: seq<MatchToken>, k: nat)
    requires k < |ts| && ts[k].TokSerial?
    requires forall j | k < j < |ts| :: !ts[j].TokSerial?
    ensures ApplyMatches(r, ts).ixfrSoaSerial == ts[k].serial
    decreases |ts|
  {
    var n := |ts| - 1;
    if k < n {
      assert forall j | k < j < n :: ts[..n][j] == ts[j];
      ApplyMatchesLastSerial(r, ts[..n], k);
    }
    ApplyMatchFields(ApplyMatches(r, ts[..n]), ts[n]);
  }

  /** A word that is none of matchline's keywords is fatal where it starts. */
  lemma UnknownMatchWord(line: seq<char>, pos: nat)
    requires pos < |line| && !IsEndLine(line[pos])
    requires !HasKeywordAt(line, pos, "opcode") && !HasKeywordAt(line, pos, "qtype")
    requires !HasKeywordAt(line, pos, "qname") && !HasKeywordAt(line, pos, "UDP")
    requires !HasKeywordAt(line, pos, "TCP") && !HasKeywordAt(line, pos, "serial")
    ensures MatchTokens(line, pos) == Err(UnknownMatchToken(pos))
  {
  }

  /** A word that is none of replyline's opcode, rcode or flag names is fatal where it
      starts. */
  lemma UnknownReplyWord(line: seq<char>, pos: nat)
    requires pos < |line| && !IsEndLine(line[pos])
    requires OpcodeKeyword(line, pos).None? && RcodeKeyword(line, pos).None?
    requires FlagKeyword(line, pos).None?
    ensures ReplyTokens(line, pos) == Err(UnknownReplyToken(pos))
  {
  }

  /** A word other than copy_id is fatal on an ADJUST line. */
  lemma UnknownAdjustWord(line: seq<char>, pos: nat)
    requires pos < |line| && !IsEndLine(line[pos]) && !HasKeywordAt(line, pos, "copy_id")
    ensures AdjustTokens(line, pos) == Err(UnknownAdjustToken(pos))
  {
  }

  lemma NotKeywordAt(line: seq<char>, pos: nat, kw: seq<char>)
    requires pos < |line| && |kw| > 0 && line[pos] != kw[0]
    ensures !HasKeywordAt(line, pos, kw)
  {
  }

  /** At a word starting with `s`, only `serial` can match. */
  lemma OnlySerialAt(line: seq<char>, pos: nat)
    requires pos < |line| && line[pos] == 's'
    ensures !HasKeywordAt(line, pos, "opcode") && !HasKeywordAt(line, pos, "qtype")
    ensures !HasKeywordAt(line, pos, "qname") && !HasKeywordAt(line, pos, "UDP")
    ensures !HasKeywordAt(line, pos, "TCP")
  {
    NotKeywordAt(line, pos, "opcode");
    NotKeywordAt(line, pos, "qtype");
    NotKeywordAt(line, pos, "qname");
    NotKeywordAt(line, pos, "UDP");
    NotKeywordAt(line, pos, "TCP");
  }

  /** After `serial`, a character other than `=` or `:` is fatal. */
  lemma SerialNeedsSeparator(line: seq<char>, pos: nat)
    requires pos <= |line| && HasKeywordAt(line, pos, "serial")
    requires var p := KeywordEnd(line, pos, "serial"); At(line, p) != '=' && At(line, p) != ':'
    ensures MatchTokens(line, pos) == Err(SerialWithoutSeparator(KeywordEnd(line, pos, "serial")))
  {
    assert line[pos] == line[pos..pos + 6][0] == 's';
    OnlySerialAt(line, pos);
    assert NextMatchToken(line, pos) == Err(SerialWithoutSeparator(KeywordEnd(line, pos, "serial")));
  }

  /** `serial`, `=` or `:`, then N written in decimal and below 2^32, sets the threshold to N;
      white space may stand on either side of the separator, and the cursor moves past the
      number and the white space after it. */
  lemma SerialReadsDecimal(line: seq<char>, pos: nat, n: nat, m: nat)
    requires pos <= |line| && HasKeywordAt(line, pos, "serial")
    requires var sep := KeywordEnd(line, pos, "serial"); sep < |line| && (line[sep] == '=' || line[sep] == ':')
    requires var q := SkipSpaces(line, KeywordEnd(line, pos, "serial") + 1);
             m == q + |Decimal(n)| && m <= |line| && line[q..m] == Decimal(n)
    requires n < 0x1_0000_0000 && (m == |line| || !IsDigit(line[m]))
    ensures NextMatchToken(line, pos) == Ok(Scanned(TokSerial(n), SkipSpaces(line, m)))
  {
    SerialKeyword(line, pos);
    SerialNumber(line, KeywordEnd(line, pos, "serial"), n, m);
  }

  /** `serial=-1` wraps around to the largest threshold, 4294967295. */
  lemma SerialMinusOne(line: seq<char>, pos: nat)
    requires pos + 9 <= |line| && line[pos..pos + 9] == "serial=-1"
    requires pos + 9 == |line| || !IsDigit(line[pos + 9])
    ensures NextMatchToken(line, pos) == Ok(Scanned(TokSerial(0xFFFF_FFFF), SkipSpaces(line, pos + 9)))
  {
    assert line[pos..pos + 6] == line[pos..pos + 9][..6] == "serial";
    assert line[pos + 6] == '=' && line[pos + 7] == '-' && line[pos + 8] == '1';
    assert line[pos + 8..pos + 9] == Decimal(1);
    SerialKeyword(line, pos);
    assert SkipSpaces(line, pos + 6) == pos + 6;
    SerialNegative(line, pos + 6, 1, pos + 9);
  }

  /** The separator, a minus sign and a number after `serial`: the threshold is the negated
      number taken modulo 2^32. */
  lemma SerialNegative(line: seq<char>, p: nat, n: nat, m: nat)
    requires p + 1 < |line| && (line[p] == '=' || line[p] == ':') && line[p + 1] == '-'
    requires m == p + 2 + |Decimal(n)| && m <= |line| && line[p + 2..m] == Decimal(n)
    requires n <= -LONG_MIN && (m == |line| || !IsDigit(line[m]))
    ensures SerialToken(line, p) == Ok(Scanned(TokSerial(ToUint32(-(n as int))), SkipSpaces(line, m)))
  {
    assert SkipSpaces(line, p + 1) == p + 1;
    StrtolReadsDecimal(line, p + 1, p + 2, n);
    assert At(line, p) == line[p] && At(line, p + 1) == '-';
    var c := Strtol(line, p + 1);
    assert c.value == -(n as int) && c.end == m;
  }

  /** At `serial`, the separator is looked for after the keyword and its white space. */
  lemma SerialKeyword(line: seq<char>, pos: nat)
    requires pos <= |line| && HasKeywordAt(line, pos, "serial")
    ensures NextMatchToken(line, pos) == SerialToken(line, KeywordEnd(line, pos, "serial"))
  {
    assert line[pos] == line[pos..pos + 6][0] == 's';
    OnlySerialAt(line, pos);
  }

  /** The separator and the number after `serial`. */
  lemma SerialNumber(line: seq<char>, p: nat, n: nat, m: nat)
    requires p < |line| && (line[p] == '=' || line[p] == ':')
    requires var q := SkipSpaces(line, p + 1); m == q + |Decimal(n)| && m <= |line| && line[q..m] == Decimal(n)
    requires n < 0x1_0000_0000 && (m == |line| || !IsDigit(line[m]))
    ensures SerialToken(line, p) == Ok(Scanned(TokSerial(n), SkipSpaces(line, m)))
  {
    var q := SkipSpaces(line, p + 1);
    assert line[q] == Decimal(n)[0] && IsDigit(line[q]);
    StrtolReadsDecimal(line, p + 1, q, n);
    assert At(line, p) == line[p];
    var c := Strtol(line, p + 1);
    assert c.value == n && c.end == m;
    assert ToUint32(c.value) == n;
  }

  /** One REPLY token, field by field. */
  lemma ApplyReplyFields(p: Packet, t: ReplyToken)
    ensures ApplyReply(p, t).id == p.id
    ensures forall sec :: SectionOf(ApplyReply(p, t), sec) == SectionOf(p, sec)
    ensures forall f :: FlagOf(ApplyReply(p, t), f) == (FlagOf(p, f) || t == RaiseFlag(f))
    ensures ApplyReply(p, t).opcode == if t.SetOpcodeTo? then t.opcode else p.opcode
    ensures ApplyReply(p, t).rcode == if t.SetRcodeTo? then t.rcode else p.rcode
  {
    match t
    case SetOpcodeTo(o) =>
      assert forall f :: FlagOf(p.(opcode := o), f) == FlagOf(p, f);
    case SetRcodeTo(c) =>
      assert forall f :: FlagOf(p.(rcode := c), f) == FlagOf(p, f);
    case RaiseFlag(g) =>
  }

  /** What REPLY tokens do to the packet header: a flag is up exactly when it was up or its
      name occurs; the id and the four sections are left alone. */
  lemma {:induction false} ApplyRepliesFlags(p: Packet, ts: seq<ReplyToken>)
    ensures ApplyReplies(p, ts).id == p.id
    ensures forall sec :: SectionOf(ApplyReplies(p, ts), sec) == SectionOf(p, sec)
    ensures forall f :: FlagOf(ApplyReplies(p, ts), f) <==> FlagOf(p, f) || RaiseFlag(f) in ts
    decreases |ts|
  {
    if ts != [] {
      var init, t := ts[..|ts| - 1], ts[|ts| - 1];
      ApplyRepliesFlags(p, init);
      ApplyReplyFields(ApplyReplies(p, init), t);
      assert ts == init + [t];
      assert forall f :: RaiseFlag(f) in ts <==> RaiseFlag(f) in init || t == RaiseFlag(f);
    }
  }

  /** Without an opcode name on the REPLY lines the opcode stays what it was. */
  lemma {:induction false} ApplyRepliesNoOpcode(p: Packet, ts: seq<ReplyToken>)
    requires forall k | 0 <= k < |ts| :: !ts[k].SetOpcodeTo?
    ensures ApplyReplies(p, ts).opcode == p.opcode
    decreases |ts|
  {
    if ts != [] {
      var n := |ts| - 1;
      assert forall k | 0 <= k < n :: ts[..n][k] == ts[k];
      ApplyRepliesNoOpcode(p, ts[..n]);
      ApplyReplyFields(ApplyReplies(p, ts[..n]), ts[n]);
    }
  }

  /** Of several opcode names on REPLY lines the last one is the reply's opcode. */
  lemma {:induction false} ApplyRepliesLastOpcode(p: Packet, ts: seq<ReplyToken>, k: nat)
    requires k < |ts| && ts[k].SetOpcodeTo?
    requires forall j | k < j < |ts| :: !ts[j].SetOpcodeTo?
    ensures ApplyReplies(p, ts).opcode == ts[k].opcode
    decreases |ts|
  {
    var n := |ts| - 1;
    if k < n {
      assert forall j | k < j < n :: ts[..n][j] == ts[j];
      ApplyRepliesLastOpcode(p, ts[..n], k);
    }
    ApplyReplyFields(ApplyReplies(p, ts[..n]), ts[n]);
  }

  /** Without an rcode name on the REPLY lines the rcode stays what it was. */
  lemma {:induction false} ApplyRepliesNoRcode(p: Packet, ts: seq<ReplyToken>)
    requires forall k | 0 <= k < |ts| :: !ts[k].SetRcodeTo?
    ensures ApplyReplies(p, ts).rcode == p.rcode
    decreases |ts|
  {
    if ts != [] {
      var n := |ts| - 1;
      assert forall k | 0 <= k < n :: ts[..n][k] == ts[k];
      ApplyRepliesNoRcode(p, ts[..n]);
      ApplyReplyFields(ApplyReplies(p, ts[..n]), ts[n]);
    }
  }

  /** Of several rcode names on REPLY lines the last one is the reply's rcode. */
  lemma {:induction false} ApplyRepliesLastRcode(p: Packet, ts: seq<ReplyToken>, k: nat)
    requires k < |ts| && ts[k].SetRcodeTo?
    requires forall j | k < j < |ts| :: !ts[j].SetRcodeTo?
    ensures ApplyReplies(p, ts).rcode == ts[k].rcode
    decreases |ts|
  {
    var n := |ts| - 1;
    if k < n {
      assert forall j | k < j < n :: ts[..n][j] == ts[j];
      ApplyRepliesLastRcode(p, ts[..n], k);
    }
    ApplyReplyFields(ApplyReplies(p, ts[..n]), ts[n]);
  }

  /** ADJUST copy_id turns copy_id on and changes nothing else. */
  lemma {:induction false} ApplyAdjustsEffect(r: Rule, ts: seq<AdjustToken>)
    ensures ApplyAdjusts(r, ts) == r.(copyId := r.copyId || |ts| > 0)
    decreases |ts|
  {
    if ts != [] {
      ApplyAdjustsEffect(r, ts[..|ts| - 1]);
    }
  }
}
