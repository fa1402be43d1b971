/** How the server picks the canned reply for a query (find_match) and builds the answer
    from it (get_answer). The rules are searched in file order and the first whose
    enabled checks all pass wins. */
module Matcher {
  import opened Wrappers
  import opened Dns
  import opened Entries

  // ---------------------------------------------------------------------------
  // What the checks look at

  /** get_qtype: the type of the first question record, 0 when there is none. */
  function GetQtype(p: Packet): (t: Uint16)
    ensures |p.question| == 0 ==> t == 0
    ensures |p.question| > 0 ==> t == p.question[0].rrType
  {
    if |p.question| == 0 then 0 else p.question[0].rrType
  }

  /** get_owner: the owner name of the first question record, none when there is none. */
  function GetOwner(p: Packet): (o: Option<Dname>)
    ensures o.None? <==> |p.question| == 0
    ensures o.Some? ==> o.value == p.question[0].owner
  {
    if |p.question| == 0 then None else Some(p.question[0].owner)
  }

  /** get_serial: the third rdata field of the first authority record (the serial of an
      SOA record), read as a 32-bit number; 0 when the record or the field is missing. */
  function GetSerial(p: Packet): (s: Uint32)
    ensures |p.authority| == 0 ==> s == 0
    ensures |p.authority| > 0 && |p.authority[0].rdata| <= 2 ==> s == 0
    ensures |p.authority| > 0 && |p.authority[0].rdata| > 2 ==> s == Native32(p.authority[0].rdata[2])
  {
    if |p.authority| == 0 then 0
    else if |p.authority[0].rdata| <= 2 then 0
    else Native32(p.authority[0].rdata[2])
  }

  // ---------------------------------------------------------------------------
  // find_match

  /** The checks of find_match's loop body for one entry: each enabled predicate must
      hold, a disabled one is passed over. The query arrived over transport t. */
  predicate Qualifies(r: Rule, q: Packet, t: Transport)
  {
    && (r.matchOpcode ==> q.opcode == r.reply.opcode)
    && (r.matchQtype ==> GetQtype(q) == GetQtype(r.reply))
    && (r.matchQname ==> GetOwner(q).Some? && GetOwner(r.reply).Some?
                          && SameName(GetOwner(q).value, GetOwner(r.reply).value))
    && (r.matchSerial ==> GetSerial(r.reply) == r.ixfrSoaSerial)
    && (r.matchTransport == TransportAny || r.matchTransport == t)
  }

  /** The first rule from index i on that qualifies. */
  function FindMatchFrom(rules: seq<Rule>, q: Packet, t: Transport, i: nat): (m: Option<nat>)
    requires i <= |rules|
    ensures m.Some? ==> i <= m.value < |rules| && Qualifies(rules[m.value], q, t)
    ensures m.Some? ==> forall j | i <= j < m.value :: !Qualifies(rules[j], q, t)
    ensures m.None? <==> forall j | i <= j < |rules| :: !Qualifies(rules[j], q, t)
    decreases |rules| - i
  {
    if i == |rules| then None
    else if Qualifies(rules[i], q, t) then Some(i)
    else FindMatchFrom(rules, q, t, i + 1)
  }

  /** find_match: the index of the first rule in list order that qualifies, or none. */
  function FindMatch(rules: seq<Rule>, q: Packet, t: Transport): (m: Option<nat>)
    ensures m.Some? ==> m.value < |rules| && Qualifies(rules[m.value], q, t)
    ensures m.Some? ==> forall j | 0 <= j < m.value :: !Qualifies(rules[j], q, t)
    ensures m.None? <==> forall j | 0 <= j < |rules| :: !Qualifies(rules[j], q, t)
  {
    FindMatchFrom(rules, q, t, 0)
  }

  /** The rules the loaded entries hold, in list order. */
  function Rules(list: seq<Entry>): (rs: seq<Rule>)
    reads list
    ensures |rs| == |list|
    ensures forall k | 0 <= k < |list| :: rs[k] == list[k].AsRule()
  {
    if list == [] then [] else Rules(list[..|list| - 1]) + [list[|list| - 1].AsRule()]
  }

  /** The loop of find_match over the entry list. */
  method FindEntry(list: seq<Entry>, q: Packet, t: Transport) returns (m: Entry?)
    ensures match FindMatch(Rules(list), q, t)
            case None => m == null
            case Some(i) => m == list[i]
  {
    ghost var rules := Rules(list);
    var i := 0;
    while i < |list|
      invariant i <= |list|
      invariant FindMatchFrom(rules, q, t, i) == FindMatch(rules, q, t)
    {
      if Qualifies(list[i].AsRule(), q, t) {
        return list[i];
      }
      i := i + 1;
    }
    return null;
  }

  // ---------------------------------------------------------------------------
  // get_answer

  /** The reply to send for query q: none when no rule qualifies, otherwise a copy of the
      first qualifying rule's reply, which takes the query's id when the rule says
      copy_id and keeps its own id otherwise. */
  function AnswerTo(rules: seq<Rule>, q: Packet, t: Transport): (a: Option<Packet>)
    ensures a.None? <==> FindMatch(rules, q, t).None?
    ensures a.Some? ==>
              var r := rules[FindMatch(rules, q, t).value];
              a.value == r.reply.(id := if r.copyId then q.id else r.reply.id)
  {
    match FindMatch(rules, q, t)
    case None => None
    case Some(i) =>
      var r := rules[i];
      if r.copyId then Some(r.reply.(id := q.id)) else Some(r.reply)
  }

  /** get_answer: the match's reply is cloned and, with copy_id, given the query's id. */
  method GetAnswer(list: seq<Entry>, q: Packet, t: Transport) returns (a: Option<Packet>)
    ensures a == AnswerTo(Rules(list), q, t)
  {
    var m := FindEntry(list, q, t);
    if m == null {
      return None;
    }
    var answer := m.reply;
    if m.copyId {
      answer := answer.(id := q.id);
    }
    return Some(answer);
  }

  // ---------------------------------------------------------------------------
  // Properties of the matcher

  /** A rule that checks no more than another, on the same reply, serial and with a
      transport that is the other's or any. */
  predicate ChecksNoMore(weak: Rule, strong: Rule)
  {
    && (weak.matchOpcode ==> strong.matchOpcode)
    && (weak.matchQtype ==> strong.matchQtype)
    && (weak.matchQname ==> strong.matchQname)
    && (weak.matchSerial ==> strong.matchSerial)
    && (weak.matchTransport == TransportAny || weak.matchTransport == strong.matchTransport)
    && weak.reply == strong.reply && weak.ixfrSoaSerial == strong.ixfrSoaSerial
  }

  /** A disabled predicate is a wildcard: turning checks off never makes a qualifying rule
      fail. */
  lemma DisabledIsWildcard(weak: Rule, strong: Rule, q: Packet, t: Transport)
    requires ChecksNoMore(weak, strong) && Qualifies(strong, q, t)
    ensures Qualifies(weak, q, t)
  {
  }

  /** A fresh entry, with every predicate off, answers every query over every transport. */
  lemma NewRuleMatchesAll(q: Packet, t: Transport)
    ensures Qualifies(NewRule(), q, t)
  {
  }

  /** A qname check fails when the query or the canned reply has no question. */
  lemma QnameNeedsQuestions(r: Rule, q: Packet, t: Transport)
    requires r.matchQname && (|q.question| == 0 || |r.reply.question| == 0)
    ensures !Qualifies(r, q, t)
  {
  }

  /** The qname check ignores the case of ASCII letters. */
  lemma QnameIgnoresCase(r: Rule, q: Packet, t: Transport)
    requires r.matchQname && |q.question| > 0 && |r.reply.question| > 0
    requires !r.matchOpcode && !r.matchQtype && !r.matchSerial && r.matchTransport == TransportAny
    ensures Qualifies(r, q, t) <==> SameName(q.question[0].owner, r.reply.question[0].owner)
  {
  }

  /** The serial check compares the rule's own canned reply with the rule's threshold: a
      rule that checks the serial qualifies for all queries or for none of them. A reply
      without an authority record has serial 0. */
  lemma SerialOfOwnReply(r: Rule, q: Packet, q': Packet, t: Transport)
    requires r.matchSerial && !r.matchOpcode && !r.matchQtype && !r.matchQname
    ensures Qualifies(r, q, t) == Qualifies(r, q', t)
    ensures |r.reply.authority| == 0 ==>
              (Qualifies(r, q, t) <==>
                 (r.ixfrSoaSerial == 0 && (r.matchTransport == TransportAny || r.matchTransport == t)))
  {
  }

  /** Only the opcode and the first question of a query take part in matching: its id,
      flags, rcode and other records never do. */
  lemma MatchSeesOpcodeAndQuestion(rules: seq<Rule>, q: Packet, q': Packet, t: Transport)
    requires q.opcode == q'.opcode && GetQtype(q) == GetQtype(q') && GetOwner(q) == GetOwner(q')
    ensures FindMatch(rules, q, t) == FindMatch(rules, q', t)
  {
    SameQualifiers(rules, q, q', t, 0);
  }

  lemma {:induction false} SameQualifiers(rules: seq<Rule>, q: Packet, q': Packet, t: Transport, i: nat)
    requires i <= |rules|
    requires q.opcode == q'.opcode && GetQtype(q) == GetQtype(q') && GetOwner(q) == GetOwner(q')
    ensures FindMatchFrom(rules, q, t, i) == FindMatchFrom(rules, q', t, i)
    decreases |rules| - i
  {
    if i < |rules| {
      QualifiesSees(rules[i], q, q', t);
      SameQualifiers(rules, q, q', t, i + 1);
    }
  }

  lemma QualifiesSees(r: Rule, q: Packet, q': Packet, t: Transport)
    requires q.opcode == q'.opcode && GetQtype(q) == GetQtype(q') && GetOwner(q) == GetOwner(q')
    ensures Qualifies(r, q, t) == Qualifies(r, q', t)
  {
  }

  /** A rule that accepts any transport answers UDP and TCP queries alike. */
  lemma AnyTransport(r: Rule, q: Packet)
    requires r.matchTransport == TransportAny
    ensures Qualifies(r, q, TransportUdp) == Qualifies(r, q, TransportTcp)
  {
  }

  /** A rule limited to one transport never answers a query over the other. */
  lemma OtherTransport(r: Rule, q: Packet)
    requires r.matchTransport == TransportUdp
    ensures !Qualifies(r, q, TransportTcp)
  {
  }

  /** First match wins: rules after a qualifying one are never consulted, and when the
      earlier rules do not qualify the search goes on in the later ones. */
  lemma {:induction false} FindMatchAppend(rules: seq<Rule>, more: seq<Rule>, q: Packet, t: Transport)
    ensures FindMatch(rules + more, q, t) ==
            match FindMatch(rules, q, t)
            case Some(i) => Some(i)
            case None =>
              match FindMatch(more, q, t)
              case None => None
              case Some(j) => Some(|rules| + j)
  {
    var all := rules + more;
    match FindMatch(rules, q, t)
    case Some(i) =>
      assert forall j | 0 <= j < i :: all[j] == rules[j];
      FirstQualifying(all, q, t, i);
    case None =>
      assert forall j | 0 <= j < |rules| :: all[j] == rules[j];
      match FindMatch(more, q, t)
      case None =>
        assert forall j | |rules| <= j < |all| :: all[j] == more[j - |rules|];
      case Some(j) =>
        assert forall k | |rules| <= k < |all| :: all[k] == more[k - |rules|];
        FirstQualifying(all, q, t, |rules| + j);
  }

  /** The index that qualifies with none before it is the one FindMatch returns. */
  lemma FirstQualifying(rules: seq<Rule>, q: Packet, t: Transport, i: nat)
    requires i < |rules| && Qualifies(rules[i], q, t)
    requires forall j | 0 <= j < i :: !Qualifies(rules[j], q, t)
    ensures FindMatch(rules, q, t) == Some(i)
  {
  }

  /** The rules are searched in file order, so an earlier entry shadows a later one that
      would answer the same query. */
  lemma EarlierWins(rules: seq<Rule>, i: nat, j: nat, q: Packet, t: Transport)
    requires i < j < |rules| && Qualifies(rules[i], q, t)
    ensures FindMatch(rules, q, t).Some? && FindMatch(rules, q, t).value <= i
    ensures FindMatch(rules, q, t) != Some(j)
  {
  }

  /** The answer is the canned reply in every header field and section except the id, which
      is the query's exactly when the rule says copy_id. */
  lemma AnswerKeepsReply(rules: seq<Rule>, q: Packet, t: Transport)
    requires AnswerTo(rules, q, t).Some?
    ensures var r := rules[FindMatch(rules, q, t).value];
            var a := AnswerTo(rules, q, t).value;
            && a.opcode == r.reply.opcode && a.rcode == r.reply.rcode
            && (forall f :: FlagOf(a, f) == FlagOf(r.reply, f))
            && (forall s :: SectionOf(a, s) == SectionOf(r.reply, s))
            && (a.id == q.id || a.id == r.reply.id)
            && (r.copyId ==> a.id == q.id)
            && (!r.copyId ==> a.id == r.reply.id)
  {
    var r := rules[FindMatch(rules, q, t).value];
    var a := AnswerTo(rules, q, t).value;
    forall f
      ensures FlagOf(a, f) == FlagOf(r.reply, f)
    {
    }
    forall s
      ensures SectionOf(a, s) == SectionOf(r.reply, s)
    {
    }
  }
}
