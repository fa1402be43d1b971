// The canned-reply file: how each line is classified, what it does to the entry being
// built and to the reader's context, and the reader itself (read_datafile).

module Datafile {
  import opened Wrappers
  import opened Scanner
  import opened Dns
  import opened Entries

  // ---------------------------------------------------------------------------
  // Line classification

  /** What a line of the file is, found from its first non-blank characters; `at` is the
      cursor after the keyword and the white space behind it (for a record, the start of
      the record text). */
  datatype LineKind =
    | Blank(at: nat)
    | EntryBegin(at: nat)
    | OriginDirective(at: nat)
    | TtlDirective(at: nat)
    | MatchDirective(at: nat)
    | ReplyDirective(at: nat)
    | AdjustDirective(at: nat)
    | SectionDirective(at: nat)
    | EntryEnd(at: nat)
    | RecordText(at: nat)

  /** The kinds that are only allowed between ENTRY_BEGIN and ENTRY_END. */
  predicate InEntryKind(k: LineKind)
  {
    k.MatchDirective? || k.ReplyDirective? || k.AdjustDirective? || k.SectionDirective? ||
    k.EntryEnd? || k.RecordText?
  }

  /** The keywords that start a line of the file. */
  datatype LineKeyword =
    | KwEntryBegin | KwOrigin | KwTtl | KwMatch | KwReply | KwAdjust | KwSection | KwEntryEnd

  function Spelling(kw: LineKeyword): seq<char>
  {
    match kw
    case KwEntryBegin => "ENTRY_BEGIN"
    case KwOrigin => "$ORIGIN"
    case KwTtl => "$TTL"
    case KwMatch => "MATCH"
    case KwReply => "REPLY"
    case KwAdjust => "ADJUST"
    case KwSection => "SECTION"
    case KwEntryEnd => "ENTRY_END"
  }

  /** The keywords in the order read_datafile tries them: the first three before it looks
      at whether an entry is open, the others after. */
  const LINE_KEYWORDS: seq<LineKeyword> :=
    [KwEntryBegin, KwOrigin, KwTtl, KwMatch, KwReply, KwAdjust, KwSection, KwEntryEnd]

  /** The first keyword from position j of LINE_KEYWORDS that the text at p starts with. */
  function FirstKeyword(line: seq<char>, p: nat, j: nat): (r: Option<LineKeyword>)
    requires j <= |LINE_KEYWORDS|
    ensures r.Some? ==> HasKeywordAt(line, p, Spelling(r.value))
    decreases |LINE_KEYWORDS| - j
  {
    if j == |LINE_KEYWORDS| then None
    else if HasKeywordAt(line, p, Spelling(LINE_KEYWORDS[j])) then Some(LINE_KEYWORDS[j])
    else FirstKeyword(line, p, j + 1)
  }

  /** FirstKeyword finds nothing exactly when none of the keywords from j on starts at p. */
  lemma {:induction false} FirstKeywordNone(line: seq<char>, p: nat, j: nat)
    requires j <= |LINE_KEYWORDS|
    ensures FirstKeyword(line, p, j).None? <==>
              forall i | j <= i < |LINE_KEYWORDS| :: !HasKeywordAt(line, p, Spelling(LINE_KEYWORDS[i]))
    decreases |LINE_KEYWORDS| - j
  {
    if j < |LINE_KEYWORDS| && !HasKeywordAt(line, p, Spelling(LINE_KEYWORDS[j])) {
      FirstKeywordNone(line, p, j + 1);
    }
  }

  /** A keyword from j on that starts at p, with none before it from j on, is the one
      FirstKeyword finds. */
  lemma {:induction false} FirstKeywordEarliest(line: seq<char>, p: nat, j: nat, i: nat)
    requires j <= i < |LINE_KEYWORDS| && HasKeywordAt(line, p, Spelling(LINE_KEYWORDS[i]))
    requires forall i' | j <= i' < i :: !HasKeywordAt(line, p, Spelling(LINE_KEYWORDS[i']))
    ensures FirstKeyword(line, p, j) == Some(LINE_KEYWORDS[i])
    decreases i - j
  {
    if j < i {
      assert !HasKeywordAt(line, p, Spelling(LINE_KEYWORDS[j]));
      FirstKeywordEarliest(line, p, j + 1, i);
    }
  }

  function KindFor(kw: LineKeyword, at: nat): (k: LineKind)
    ensures !k.Blank? && !k.RecordText? && k.at == at
  {
    match kw
    case KwEntryBegin => EntryBegin(at)
    case KwOrigin => OriginDirective(at)
    case KwTtl => TtlDirective(at)
    case KwMatch => MatchDirective(at)
    case KwReply => ReplyDirective(at)
    case KwAdjust => AdjustDirective(at)
    case KwSection => SectionDirective(at)
    case KwEntryEnd => EntryEnd(at)
  }

  /** The kind of a line whose first non-blank character is at p, trying the keywords
      from position j on; the cursor goes past the keyword and the white space after it,
      and a line with none of them is record text. */
  function KindAfter(line: seq<char>, p: nat, j: nat): (k: LineKind)
    requires p <= |line| && j <= |LINE_KEYWORDS|
    ensures k.at <= |line|
  {
    match FirstKeyword(line, p, j)
    case None => RecordText(p)
    case Some(kw) => KindFor(kw, KeywordEnd(line, p, Spelling(kw)))
  }

  /** Leading white space is skipped; an end-of-line character there makes the line blank
      (empty or a comment); otherwise the keywords are tried in order. */
  function KindOf(line: seq<char>): (k: LineKind)
    ensures k.at <= |line|
  {
    var p := SkipSpaces(line, 0);
    if IsEndLine(At(line, p)) then Blank(p) else KindAfter(line, p, 0)
  }

  /** A line is blank exactly when its first non-blank character ends the line, and record
      text exactly when it is not blank and none of the eight keywords starts there. */
  lemma KindOfRecordText(line: seq<char>)
    ensures KindOf(line).Blank? <==> IsEndLine(At(line, SkipSpaces(line, 0)))
    ensures KindOf(line).RecordText? <==>
              && !IsEndLine(At(line, SkipSpaces(line, 0)))
              && forall i | 0 <= i < |LINE_KEYWORDS| :: !HasKeywordAt(line, SkipSpaces(line, 0), Spelling(LINE_KEYWORDS[i]))
    ensures KindOf(line).RecordText? ==> KindOf(line).at == SkipSpaces(line, 0)
  {
    var p := SkipSpaces(line, 0);
    if !IsEndLine(At(line, p)) {
      FirstKeywordNone(line, p, 0);
      assert KindOf(line) == KindAfter(line, p, 0);
    }
  }

  /** A line whose first non-blank text is keyword i, with none of the keywords before it
      in LINE_KEYWORDS starting there, has that keyword's kind, its cursor after the keyword
      and the white space that follows. */
  lemma KindOfKeyword(line: seq<char>, i: nat)
    requires i < |LINE_KEYWORDS| && HasKeywordAt(line, SkipSpaces(line, 0), Spelling(LINE_KEYWORDS[i]))
    requires forall i' | 0 <= i' < i :: !HasKeywordAt(line, SkipSpaces(line, 0), Spelling(LINE_KEYWORDS[i']))
    ensures KindOf(line) == KindFor(LINE_KEYWORDS[i], KeywordEnd(line, SkipSpaces(line, 0), Spelling(LINE_KEYWORDS[i])))
  {
    var p := SkipSpaces(line, 0);
    var w := Spelling(LINE_KEYWORDS[i]);
    assert At(line, p) == line[p..p + |w|][0] == w[0];
    FirstKeywordEarliest(line, p, 0, i);
  }

  /** The section a SECTION line names. */
  function SectionNamed(line: seq<char>, p: nat): (r: Option<Section>)
    requires p <= |line|
    ensures r == Some(Question) <==> HasKeywordAt(line, p, "QUESTION")
    ensures r == Some(Answer) <==> !HasKeywordAt(line, p, "QUESTION") && HasKeywordAt(line, p, "ANSWER")
    ensures r == Some(Authority) <==>
              && !HasKeywordAt(line, p, "QUESTION") && !HasKeywordAt(line, p, "ANSWER")
              && HasKeywordAt(line, p, "AUTHORITY")
    ensures r == Some(Additional) <==>
              && !HasKeywordAt(line, p, "QUESTION") && !HasKeywordAt(line, p, "ANSWER")
              && !HasKeywordAt(line, p, "AUTHORITY") && HasKeywordAt(line, p, "ADDITIONAL")
    ensures r.None? <==>
              && !HasKeywordAt(line, p, "QUESTION") && !HasKeywordAt(line, p, "ANSWER")
              && !HasKeywordAt(line, p, "AUTHORITY") && !HasKeywordAt(line, p, "ADDITIONAL")
  {
    if HasKeywordAt(line, p, "QUESTION") then Some(Question)
    else if HasKeywordAt(line, p, "ANSWER") then Some(Answer)
    else if HasKeywordAt(line, p, "AUTHORITY") then Some(Authority)
    else if HasKeywordAt(line, p, "ADDITIONAL") then Some(Additional)
    else None
  }

  /** The text get_origin hands to the domain name parser: from the cursor up to the first
      white space or end-of-line character. */
  function OriginText(line: seq<char>, p: nat): (t: seq<char>)
    requires p <= |line|
    ensures forall k | 0 <= k < |t| :: !IsSpace(t[k]) && !IsEndLine(t[k])
    ensures p + |t| <= |line| && t == line[p..p + |t|]
    ensures IsSpace(At(line, p + |t|)) || IsEndLine(At(line, p + |t|))
  {
    line[p..NameEnd(line, p)]
  }

  // ---------------------------------------------------------------------------
  // The default TTL

  /** `$TTL` as the reader stores it: atoi's value cast to a 16-bit integer. It is the
      32-bit TTL cut to its low 16 bits, and 0 when the text has no number. */
  function TtlAsWritten(line: seq<char>, p: nat): (t: Uint16)
    requires p <= |line|
    ensures t as int == TtlFromText(line, p) as int % UINT16_MOD
    ensures Strtol(line, p).end == p ==> t == 0
  {
    var v := Strtol(line, p).value;
    LowBitsOfLowBits(v);
    (v % UINT16_MOD) as Uint16
  }

  /** Cutting to 32 bits and then to 16 is cutting to 16. */
  lemma LowBitsOfLowBits(v: int)
    ensures (v % UINT32_MOD) % UINT16_MOD == v % UINT16_MOD
  {
    var q := v / UINT32_MOD;
    assert v == q * UINT32_MOD + v % UINT32_MOD;
    assert q * UINT32_MOD == (q * 0x1_0000) * UINT16_MOD;
  }

  /** `$TTL` as the record parser takes it: atoi's value as a 32-bit unsigned TTL. A
      number that fits is kept as it is; text without a number gives 0. */
  function TtlFromText(line: seq<char>, p: nat): (t: Uint32)
    requires p <= |line|
    ensures 0 <= Strtol(line, p).value < UINT32_MOD ==> t == Strtol(line, p).value
    ensures Strtol(line, p).end == p ==> t == 0
  {
    (Strtol(line, p).value % UINT32_MOD) as Uint32
  }

  // ---------------------------------------------------------------------------
  // The reader as a function of the lines

  datatype FileErrorKind =
    | EntryNotEnded
    | ExpectedEntryBegin
    | BadOrigin
    | BadSection
    | BadDirective(cause: DirectiveError)
    | BadRecord(status: int)

  /** The reader stops at the first error, naming the line (counted from 1). */
  datatype FileError = FileError(lineno: nat, kind: FileErrorKind)

  /** What read_datafile keeps between lines: the entries so far in file order, whether
      the last of them is still open, the section records go to, the default TTL, the
      origin, the previous owner name, and the number of ENTRY_END lines. */
  datatype ParseState = ParseState(
    entries: seq<Rule>,
    open: bool,
    section: Section,
    ttl: Uint32,
    origin: Option<Dname>,
    prev: Option<Dname>,
    entryNum: nat)

  predicate WellFormed(st: ParseState)
  {
    st.open ==> |st.entries| > 0
  }

  function InitialState(): (st: ParseState)
    ensures WellFormed(st) && !st.open && st.entries == []
  {
    ParseState([], false, Question, 0, None, None, 0)
  }

  /** MATCH, REPLY and ADJUST applied to the open entry. */
  function DirectiveStep(r: Rule, k: LineKind, line: seq<char>): Result<Rule, DirectiveError>
    requires k.MatchDirective? || k.ReplyDirective? || k.AdjustDirective?
    requires k.at <= |line|
  {
    match k
    case MatchDirective(p) =>
      (match MatchTokens(line, p)
       case Err(e) => Err(e)
       case Ok(ts) => Ok(ApplyMatches(r, ts)))
    case ReplyDirective(p) =>
      (match ReplyTokens(line, p)
       case Err(e) => Err(e)
       case Ok(ts) => Ok(r.(reply := ApplyReplies(r.reply, ts))))
    case AdjustDirective(p) =>
      (match AdjustTokens(line, p)
       case Err(e) => Err(e)
       case Ok(ts) => Ok(ApplyAdjusts(r, ts)))
  }

  /** What a line does to the open entry, and the previous owner name after it. */
  datatype Edit = Edit(rule: Rule, prev: Option<Dname>)

  /** A record line or a MATCH, REPLY or ADJUST line applied to the open entry: the record
      text is parsed with the current default TTL, origin and previous owner and goes to
      the end of the current section of the reply. */
  function EntryEdit(r: Rule, k: LineKind, line: seq<char>, lineno: nat, ps: TextParsers,
                     section: Section, ttl: Uint32, origin: Option<Dname>, prev: Option<Dname>)
    : Result<Edit, FileError>
    requires k.RecordText? || k.MatchDirective? || k.ReplyDirective? || k.AdjustDirective?
    requires k.at <= |line|
  {
    if k.RecordText? then
      match ps.record(line[k.at..], ttl, origin, prev)
      case Rejected(status) => Err(FileError(lineno, BadRecord(status)))
      case Parsed(rr, next) => Ok(Edit(r.(reply := PushRr(r.reply, section, rr)), next))
    else
      match DirectiveStep(r, k, line)
      case Err(e) => Err(FileError(lineno, BadDirective(e)))
      case Ok(r') => Ok(Edit(r', prev))
  }

  /** A line that belongs inside an entry, with an entry open. */
  function InEntryStep(st: ParseState, k: LineKind, line: seq<char>, lineno: nat, ps: TextParsers)
    : (r: Result<ParseState, FileError>)
    requires st.open && |st.entries| > 0
    requires InEntryKind(k) && k.at <= |line|
    ensures r.Ok? ==> WellFormed(r.value)
  {
    var n := |st.entries| - 1;
    var last := st.entries[n];
    match k
    case EntryEnd(_) => Ok(st.(open := false, entryNum := st.entryNum + 1))
    case SectionDirective(p) =>
      (match SectionNamed(line, p)
       case None => Err(FileError(lineno, BadSection))
       case Some(s) => Ok(st.(section := s)))
    case RecordText(_) | MatchDirective(_) | ReplyDirective(_) | AdjustDirective(_) =>
      (match EntryEdit(last, k, line, lineno, ps, st.section, st.ttl, st.origin, st.prev)
       case Err(e) => Err(e)
       case Ok(ed) => Ok(st.(entries := st.entries[n := ed.rule], prev := ed.prev)))
  }

  /** One line of the file. */
  function LineStep(st: ParseState, line: seq<char>, lineno: nat, ps: TextParsers): (r: Result<ParseState, FileError>)
    requires WellFormed(st)
    ensures r.Ok? ==> WellFormed(r.value)
  {
    KindStep(st, KindOf(line), line, lineno, ps)
  }

  /** One line of the file, once it has been classified as k. */
  function KindStep(st: ParseState, k: LineKind, line: seq<char>, lineno: nat, ps: TextParsers)
    : (r: Result<ParseState, FileError>)
    requires WellFormed(st) && k.at <= |line|
    ensures r.Ok? ==> WellFormed(r.value)
  {
    match k
    case Blank(_) => Ok(st)
    case EntryBegin(_) =>
      if st.open then Err(FileError(lineno, EntryNotEnded))
      else Ok(st.(entries := st.entries + [NewRule()], open := true))
    case OriginDirective(p) =>
      (match ps.dname(OriginText(line, p))
       case None => Err(FileError(lineno, BadOrigin))
       case Some(d) => Ok(st.(origin := Some(d))))
    case TtlDirective(p) => Ok(st.(ttl := TtlFromText(line, p)))
    case _ =>
      if !st.open then Err(FileError(lineno, ExpectedEntryBegin))
      else InEntryStep(st, k, line, lineno, ps)
  }

  /** The whole file, line by line (line i + 1 is lines[i]); an entry still open at the
      end of the file is kept. */
  function ParseFile(lines: seq<seq<char>>, ps: TextParsers): (r: Result<ParseState, FileError>)
    ensures r.Ok? ==> WellFormed(r.value)
    decreases |lines|, 1
  {
    if lines == [] then Ok(InitialState()) else ParseLast(lines, ps)
  }

  /** The file's last line, read in the state the lines before it leave (or their error). */
  function ParseLast(lines: seq<seq<char>>, ps: TextParsers): (r: Result<ParseState, FileError>)
    requires lines != []
    ensures r.Ok? ==> WellFormed(r.value)
    decreases |lines|, 0
  {
    match ParseFile(lines[..|lines| - 1], ps)
    case Err(e) => Err(e)
    case Ok(st) => LineStep(st, lines[|lines| - 1], |lines|, ps)
  }

  // ---------------------------------------------------------------------------
  // The reader

  /** The keyword tests made before the reader looks at whether an entry is open. */
  method ClassifyLine(line: seq<char>) returns (k: LineKind)
    ensures k == KindOf(line)
  {
    var parse := SkipWhitespace(line, 0);
    if IsEndLine(At(line, parse)) {
      return Blank(parse);
    }
    var found, next := StrKeyword(line, parse, "ENTRY_BEGIN");
    if found {
      return EntryBegin(next);
    }
    assert FirstKeyword(line, parse, 0) == FirstKeyword(line, parse, 1);
    found, next := StrKeyword(line, parse, "$ORIGIN");
    if found {
      return OriginDirective(next);
    }
    assert FirstKeyword(line, parse, 1) == FirstKeyword(line, parse, 2);
    found, next := StrKeyword(line, parse, "$TTL");
    if found {
      return TtlDirective(next);
    }
    assert FirstKeyword(line, parse, 2) == FirstKeyword(line, parse, 3);
    k := ClassifyEntryLine(line, parse);
  }

  /** The keyword tests made inside an entry. */
  method ClassifyEntryLine(line: seq<char>, parse: nat) returns (k: LineKind)
    requires parse <= |line|
    ensures k == KindAfter(line, parse, 3)
  {
    var found, next := StrKeyword(line, parse, "MATCH");
    if found {
      return MatchDirective(next);
    }
    assert FirstKeyword(line, parse, 3) == FirstKeyword(line, parse, 4);
    found, next := StrKeyword(line, parse, "REPLY");
    if found {
      return ReplyDirective(next);
    }
    assert FirstKeyword(line, parse, 4) == FirstKeyword(line, parse, 5);
    found, next := StrKeyword(line, parse, "ADJUST");
    if found {
      return AdjustDirective(next);
    }
    assert FirstKeyword(line, parse, 5) == FirstKeyword(line, parse, 6);
    found, next := StrKeyword(line, parse, "SECTION");
    if found {
      return SectionDirective(next);
    }
    assert FirstKeyword(line, parse, 6) == FirstKeyword(line, parse, 7);
    found, next := StrKeyword(line, parse, "ENTRY_END");
    if found {
      return EntryEnd(next);
    }
    assert FirstKeyword(line, parse, 7) == FirstKeyword(line, parse, 8) == None;
    return RecordText(parse);
  }

  /** get_origin: the name is cut at the first white space or end-of-line character and
      handed to the domain name parser. */
  method GetOrigin(line: seq<char>, parse: nat, ps: TextParsers) returns (origin: Option<Dname>)
    requires parse <= |line|
    ensures origin == ps.dname(OriginText(line, parse))
  {
    var end := FindNameEnd(line, parse);
    origin := ps.dname(line[parse..end]);
  }

  /** matchline, replyline or adjustline on the open entry. */
  method DirectiveLine(line: seq<char>, k: LineKind, e: Entry) returns (err: Option<DirectiveError>)
    requires k.MatchDirective? || k.ReplyDirective? || k.AdjustDirective?
    requires k.at <= |line|
    modifies e
    ensures match DirectiveStep(old(e.AsRule()), k, line)
            case Ok(r) => err == None && e.AsRule() == r
            case Err(x) => err == Some(x)
  {
    match k
    case MatchDirective(p) =>
      err := MatchLine(line, p, e);
    case ReplyDirective(p) =>
      err := ReplyLine(line, p, e);
    case AdjustDirective(p) =>
      err := AdjustLine(line, p, e);
  }

  /** The record and directive lines of read_datafile's loop, on the open entry. */
  method EditEntry(line: seq<char>, lineno: nat, k: LineKind, ps: TextParsers, e: Entry,
                   section: Section, ttl: Uint32, origin: Option<Dname>, prev: Option<Dname>)
    returns (err: Option<FileError>, prevOut: Option<Dname>)
    requires k.RecordText? || k.MatchDirective? || k.ReplyDirective? || k.AdjustDirective?
    requires k.at <= |line|
    modifies e
    ensures match EntryEdit(old(e.AsRule()), k, line, lineno, ps, section, ttl, origin, prev)
            case Ok(ed) => err == None && e.AsRule() == ed.rule && prevOut == ed.prev
            case Err(x) => err == Some(x)
  {
    prevOut := prev;
    if k.RecordText? {
      var parsed := ps.record(line[k.at..], ttl, origin, prev);
      if parsed.Rejected? {
        return Some(FileError(lineno, BadRecord(parsed.status))), prev;
      }
      e.reply := PushRr(e.reply, section, parsed.rr);
      prevOut := parsed.prev;
      err := None;
    } else {
      var derr := DirectiveLine(line, k, e);
      if derr.Some? {
        return Some(FileError(lineno, BadDirective(derr.value))), prev;
      }
      err := None;
    }
  }

  /** The reader's variables stand for the parse state st: one object per entry, each
      holding its rule; `current` is the last of them while it is open and is shared
      with none of the others. */
  ghost predicate Mirrors(st: ParseState, list: seq<Entry>, current: Entry?, section: Section,
                          ttl: Uint32, origin: Option<Dname>, prev: Option<Dname>, entryNum: nat)
    reads list
  {
    && |list| == |st.entries|
    && (forall k | 0 <= k < |list| :: list[k].AsRule() == st.entries[k])
    && (current != null) == st.open
    && (st.open ==> |list| > 0 && current == list[|list| - 1] && forall k | 0 <= k < |list| - 1 :: list[k] != current)
    && section == st.section && ttl == st.ttl && origin == st.origin && prev == st.prev
    && entryNum == st.entryNum
  }

  /** The lines that need an open entry: ENTRY_END, SECTION, records and directives. */
  method EntryLine(line: seq<char>, lineno: nat, k: LineKind, ps: TextParsers, ghost st: ParseState,
                   list: seq<Entry>, current: Entry, section: Section, ttl: Uint32,
                   origin: Option<Dname>, prev: Option<Dname>, entryNum: nat)
    returns (err: Option<FileError>, current': Entry?, section': Section, prev': Option<Dname>, entryNum': nat)
    requires WellFormed(st) && st.open && InEntryKind(k) && k.at <= |line|
    requires Mirrors(st, list, current, section, ttl, origin, prev, entryNum)
    modifies current
    ensures match InEntryStep(st, k, line, lineno, ps)
            case Err(x) => err == Some(x)
            case Ok(st') => err == None && Mirrors(st', list, current', section', ttl, origin, prev', entryNum')
  {
    current', section', prev', entryNum' := current, section, prev, entryNum;
    var n := |list| - 1;
    if k.EntryEnd? {
      current' := null;
      entryNum' := entryNum + 1;
    } else if k.SectionDirective? {
      var s := SectionNamed(line, k.at);
      if s.None? {
        return Some(FileError(lineno, BadSection)), current', section', prev', entryNum';
      }
      section' := s.value;
    } else {
      err, prev' := EditEntry(line, lineno, k, ps, current, section, ttl, origin, prev);
      if err.Some? {
        return;
      }
      ghost var ed := EntryEdit(st.entries[n], k, line, lineno, ps, section, ttl, origin, prev).value;
      ghost var st' := st.(entries := st.entries[n := ed.rule], prev := ed.prev);
      assert InEntryStep(st, k, line, lineno, ps) == Ok(st');
      forall j | 0 <= j < n
        ensures list[j].AsRule() == st'.entries[j]
      {
        assert list[j] != current;
      }
    }
    err := None;
  }

  /** The lines read without error and left the state st. */
  ghost predicate ReadsTo(lines: seq<seq<char>>, ps: TextParsers, st: ParseState)
  {
    ParseFile(lines, ps) == Ok(st)
  }

  /** One pass of read_datafile's loop: line i + 1, read in the state st that the lines
      before it leave. */
  method ReadLine(lines: seq<seq<char>>, i: nat, ps: TextParsers, ghost st: ParseState,
                  list: seq<Entry>, current: Entry?, section: Section, ttl: Uint32,
                  origin: Option<Dname>, prev: Option<Dname>, entryNum: nat)
    returns (err: Option<FileError>, list': seq<Entry>, current': Entry?, section': Section, ttl': Uint32,
             origin': Option<Dname>, prev': Option<Dname>, entryNum': nat, ghost st': ParseState)
    requires i < |lines| && ReadsTo(lines[..i], ps, st)
    requires Mirrors(st, list, current, section, ttl, origin, prev, entryNum)
    modifies current
    ensures list' == list || (|list'| == |list| + 1 && list'[..|list|] == list && fresh(list'[|list|]))
    ensures err.Some? ==> ParseFile(lines[..i + 1], ps) == Err(err.value)
    ensures err.None? ==> ReadsTo(lines[..i + 1], ps, st')
    ensures err.None? ==> WellFormed(st') && Mirrors(st', list', current', section', ttl', origin', prev', entryNum')
  {
    ParseFileStep(lines, i, ps);
    var k := ClassifyLine(lines[i]);
    err, list', current', section', ttl', origin', prev', entryNum', st' :=
      ReadKind(lines[i], i + 1, k, ps, st, list, current, section, ttl, origin, prev, entryNum);
  }

  /** The body of read_datafile's loop once the line has been classified as k. */
  method ReadKind(line: seq<char>, lineno: nat, k: LineKind, ps: TextParsers, ghost st: ParseState,
                  list: seq<Entry>, current: Entry?, section: Section, ttl: Uint32,
                  origin: Option<Dname>, prev: Option<Dname>, entryNum: nat)
    returns (err: Option<FileError>, list': seq<Entry>, current': Entry?, section': Section, ttl': Uint32,
             origin': Option<Dname>, prev': Option<Dname>, entryNum': nat, ghost st': ParseState)
    requires WellFormed(st) && k.at <= |line|
    requires Mirrors(st, list, current, section, ttl, origin, prev, entryNum)
    modifies current
    ensures list' == list || (|list'| == |list| + 1 && list'[..|list|] == list && fresh(list'[|list|]))
    ensures KindStep(st, k, line, lineno, ps) == if err.Some? then Err(err.value) else Ok(st')
    ensures err.None? ==> WellFormed(st') && Mirrors(st', list', current', section', ttl', origin', prev', entryNum')
  {
    list', current', section', ttl', origin', prev', entryNum' := list, current, section, ttl, origin, prev, entryNum;
    err := None;
    st' := st;
    match k
    case Blank(_) =>
    case EntryBegin(_) =>
      if current != null {
        err := Some(FileError(lineno, EntryNotEnded));
        return;
      }
      current' := new Entry();
      list' := list + [current'];
      st' := st.(entries := st.entries + [NewRule()], open := true);
      assert forall j | 0 <= j < |list| :: list'[j] == list[j];
    case OriginDirective(p) =>
      origin' := GetOrigin(line, p, ps);
      if origin'.None? {
        err := Some(FileError(lineno, BadOrigin));
        return;
      }
      st' := st.(origin := origin');
    case TtlDirective(p) =>
      ttl' := TtlFromText(line, p);
      st' := st.(ttl := ttl');
    case _ =>
      if current == null {
        err := Some(FileError(lineno, ExpectedEntryBegin));
        return;
      }
      err, current', section', prev', entryNum' :=
        EntryLine(line, lineno, k, ps, st, list, current, section, ttl, origin, prev, entryNum);
      if err.None? {
        st' := InEntryStep(st, k, line, lineno, ps).value;
      }
  }

  /** read_datafile: the entries of the file in file order, each a fresh object, and the
      number of ENTRY_END lines; or the first error. */
  method ReadDatafile(lines: seq<seq<char>>, ps: TextParsers)
    returns (r: Result<seq<Entry>, FileError>, entryCount: nat)
    ensures match ParseFile(lines, ps)
            case Err(e) => r == Err(e)
            case Ok(st) =>
              && r.Ok? && |r.value| == |st.entries|
              && (forall k | 0 <= k < |st.entries| :: r.value[k].AsRule() == st.entries[k])
              && entryCount == st.entryNum
    ensures r.Ok? ==> forall k | 0 <= k < |r.value| :: fresh(r.value[k])
    ensures r.Ok? ==> forall j, k | 0 <= j < k < |r.value| :: r.value[j] != r.value[k]
  {
    var list: seq<Entry> := [];
    var current: Entry? := null;
    var addSection := Question;
    var defaultTtl: Uint32 := 0;
    var origin: Option<Dname> := None;
    var prevRr: Option<Dname> := None;
    var entryNum := 0;
    ghost var st := InitialState();
    var i := 0;
    while i < |lines|
      invariant 0 <= i <= |lines|
      invariant ReadsTo(lines[..i], ps, st)
      invariant forall k | 0 <= k < |list| :: fresh(list[k])
      invariant forall j, k | 0 <= j < k < |list| :: list[j] != list[k]
      invariant Mirrors(st, list, current, addSection, defaultTtl, origin, prevRr, entryNum)
    {
      var err;
      ghost var st';
      ghost var before := list;
      err, list, current, addSection, defaultTtl, origin, prevRr, entryNum, st' :=
        ReadLine(lines, i, ps, st, list, current, addSection, defaultTtl, origin, prevRr, entryNum);
      if err.Some? {
        ReadStopsAtError(lines, i + 1, ps);
        assert ParseFile(lines, ps) == Err(err.value);
        return Err(err.value), 0;
      }
      if list != before {
        assert list == before + [list[|before|]];
      }
      st := st';
      i := i + 1;
    }
    assert lines[..i] == lines;
    assert ParseFile(lines, ps) == Ok(st);
    r := Ok(list);
    entryCount := entryNum;
  }

  // ---------------------------------------------------------------------------
  // Properties of the reader

  /** Reading one more line applies LineStep to the state reached so far. */
  lemma ParseFileStep(lines: seq<seq<char>>, i: nat, ps: TextParsers)
    requires i < |lines| && ParseFile(lines[..i], ps).Ok?
    ensures ParseFile(lines[..i + 1], ps) == LineStep(ParseFile(lines[..i], ps).value, lines[i], i + 1, ps)
  {
    assert lines[..i + 1][..i] == lines[..i];
    assert ParseFile(lines[..i + 1], ps) == ParseLast(lines[..i + 1], ps);
  }

  /** Reading the last line applies LineStep to the state reached before it. */
  lemma ParseFileLast(lines: seq<seq<char>>, ps: TextParsers)
    requires lines != [] && ParseFile(lines[..|lines| - 1], ps).Ok?
    ensures ParseFile(lines, ps) ==
            LineStep(ParseFile(lines[..|lines| - 1], ps).value, lines[|lines| - 1], |lines|, ps)
  {
    assert ParseFile(lines, ps) == ParseLast(lines, ps);
  }

  /** A file whose earlier lines fail fails with their error. */
  lemma ParseFileFailed(lines: seq<seq<char>>, ps: TextParsers)
    requires lines != [] && ParseFile(lines[..|lines| - 1], ps).Err?
    ensures ParseFile(lines, ps) == ParseFile(lines[..|lines| - 1], ps)
  {
    assert ParseFile(lines, ps) == ParseLast(lines, ps);
  }

  /** Once a line fails, the reader never gets past it: the whole file fails with that
      line's error. */
  lemma {:induction false} ReadStopsAtError(lines: seq<seq<char>>, n: nat, ps: TextParsers)
    requires n <= |lines| && ParseFile(lines[..n], ps).Err?
    ensures ParseFile(lines, ps) == ParseFile(lines[..n], ps)
    decreases |lines|
  {
    if n < |lines| {
      var m := |lines| - 1;
      assert lines[..m][..n] == lines[..n];
      ReadStopsAtError(lines[..m], n, ps);
      ParseFileFailed(lines, ps);
    } else {
      assert lines[..n] == lines;
    }
  }

  /** When the file fails, the error names the first line whose step fails: every line
      before it was read without error. */
  lemma {:induction false} FirstError(lines: seq<seq<char>>, ps: TextParsers)
    requires ParseFile(lines, ps).Err?
    ensures var n := ParseFile(lines, ps).error.lineno;
            && 1 <= n <= |lines|
            && ParseFile(lines[..n - 1], ps).Ok?
            && LineStep(ParseFile(lines[..n - 1], ps).value, lines[n - 1], n, ps) == ParseFile(lines, ps)
    decreases |lines|
  {
    var m := |lines| - 1;
    var init := lines[..m];
    if ParseFile(init, ps).Err? {
      ParseFileFailed(lines, ps);
      FirstError(init, ps);
      var n := ParseFile(init, ps).error.lineno;
      assert init[..n - 1] == lines[..n - 1];
    } else {
      ParseFileLast(lines, ps);
      StepErrorLine(ParseFile(init, ps).value, lines[m], |lines|, ps);
    }
  }

  /** A failing line reports its own number. */
  lemma StepErrorLine(st: ParseState, line: seq<char>, lineno: nat, ps: TextParsers)
    requires WellFormed(st) && LineStep(st, line, lineno, ps).Err?
    ensures LineStep(st, line, lineno, ps).error.lineno == lineno
  {
  }

  // What one line does to the shape of the state.

  /** The state a file that reads without error leaves. */
  function Final(lines: seq<seq<char>>, ps: TextParsers): ParseState
    requires ParseFile(lines, ps).Ok?
  {
    ParseFile(lines, ps).value
  }

  /** ENTRY_BEGIN adds an entry and opens it, ENTRY_END closes the open one and counts it,
      and no other line changes the number of entries or whether one is open. */
  lemma StepShape(lines: seq<seq<char>>, ps: TextParsers)
    requires lines != [] && ParseFile(lines, ps).Ok?
    ensures ParseFile(lines[..|lines| - 1], ps).Ok?
    ensures var st := Final(lines[..|lines| - 1], ps);
            var st' := Final(lines, ps);
            var k := KindOf(lines[|lines| - 1]);
            && |st'.entries| == |st.entries| + (if k.EntryBegin? then 1 else 0)
            && st'.entryNum == st.entryNum + (if k.EntryEnd? then 1 else 0)
            && st'.open == (if k.EntryBegin? then true else if k.EntryEnd? then false else st.open)
  {
    if ParseFile(lines[..|lines| - 1], ps).Err? {
      ParseFileFailed(lines, ps);
    } else {
      ParseFileLast(lines, ps);
      var st := Final(lines[..|lines| - 1], ps);
      var line := lines[|lines| - 1];
      KindStepShape(st, KindOf(line), line, |lines|, ps);
    }
  }

  lemma KindStepShape(st: ParseState, k: LineKind, line: seq<char>, lineno: nat, ps: TextParsers)
    requires WellFormed(st) && k.at <= |line| && KindStep(st, k, line, lineno, ps).Ok?
    ensures var st' := KindStep(st, k, line, lineno, ps).value;
            && |st'.entries| == |st.entries| + (if k.EntryBegin? then 1 else 0)
            && st'.entryNum == st.entryNum + (if k.EntryEnd? then 1 else 0)
            && st'.open == (if k.EntryBegin? then true else if k.EntryEnd? then false else st.open)
  {
    match k
    case Blank(_) =>
    case EntryBegin(_) =>
    case OriginDirective(_) =>
    case TtlDirective(_) =>
    case EntryEnd(_) =>
    case SectionDirective(_) =>
    case _ =>
      var n := |st.entries| - 1;
      var ed := EntryEdit(st.entries[n], k, line, lineno, ps, st.section, st.ttl, st.origin, st.prev);
      assert ed.Ok?;
  }

  /** ENTRY_BEGIN is refused while an entry is open, and every in-entry line while none is. */
  lemma StepGrammar(lines: seq<seq<char>>, ps: TextParsers)
    requires lines != [] && ParseFile(lines, ps).Ok?
    ensures ParseFile(lines[..|lines| - 1], ps).Ok?
    ensures var st := Final(lines[..|lines| - 1], ps);
            var k := KindOf(lines[|lines| - 1]);
            && (k.EntryBegin? ==> !st.open)
            && (InEntryKind(k) ==> st.open)
  {
    if ParseFile(lines[..|lines| - 1], ps).Err? {
      ParseFileFailed(lines, ps);
    } else {
      ParseFileLast(lines, ps);
      var line := lines[|lines| - 1];
      KindStepGrammar(Final(lines[..|lines| - 1], ps), KindOf(line), line, |lines|, ps);
    }
  }

  lemma KindStepGrammar(st: ParseState, k: LineKind, line: seq<char>, lineno: nat, ps: TextParsers)
    requires WellFormed(st) && k.at <= |line| && KindStep(st, k, line, lineno, ps).Ok?
    ensures k.EntryBegin? ==> !st.open
    ensures InEntryKind(k) ==> st.open
  {
    match k
    case Blank(_) =>
    case EntryBegin(_) =>
    case OriginDirective(_) =>
    case TtlDirective(_) =>
    case _ =>
  }

  /** Every prefix of a file that reads without error reads without error. */
  lemma PrefixReads(lines: seq<seq<char>>, n: nat, ps: TextParsers)
    requires n <= |lines| && ParseFile(lines, ps).Ok?
    ensures ParseFile(lines[..n], ps).Ok?
  {
    if ParseFile(lines[..n], ps).Err? {
      ReadStopsAtError(lines, n, ps);
    }
  }

  /** The entries that are closed never change again: reading more lines only adds to the
      list or edits its open last entry. */
  function Sealed(st: ParseState): seq<Rule>
    requires WellFormed(st)
  {
    if st.open then st.entries[..|st.entries| - 1] else st.entries
  }

  lemma StepKeepsSealed(lines: seq<seq<char>>, ps: TextParsers)
    requires lines != [] && ParseFile(lines, ps).Ok?
    ensures ParseFile(lines[..|lines| - 1], ps).Ok?
    ensures var st := Final(lines[..|lines| - 1], ps);
            var st' := Final(lines, ps);
            Sealed(st) <= Sealed(st') && Sealed(st') <= st'.entries
  {
    if ParseFile(lines[..|lines| - 1], ps).Err? {
      ParseFileFailed(lines, ps);
    } else {
      ParseFileLast(lines, ps);
      var line := lines[|lines| - 1];
      KindStepSealed(Final(lines[..|lines| - 1], ps), KindOf(line), line, |lines|, ps);
    }
  }

  lemma KindStepSealed(st: ParseState, k: LineKind, line: seq<char>, lineno: nat, ps: TextParsers)
    requires WellFormed(st) && k.at <= |line| && KindStep(st, k, line, lineno, ps).Ok?
    ensures var st' := KindStep(st, k, line, lineno, ps).value;
            Sealed(st) <= Sealed(st') && Sealed(st') <= st'.entries
  {
    var st' := KindStep(st, k, line, lineno, ps).value;
    match k
    case Blank(_) =>
    case EntryBegin(_) =>
      assert st'.entries == st.entries + [NewRule()];
      assert Sealed(st') == st.entries;
    case OriginDirective(_) =>
    case TtlDirective(_) =>
    case EntryEnd(_) =>
    case SectionDirective(_) =>
    case _ =>
      var n := |st.entries| - 1;
      var ed := EntryEdit(st.entries[n], k, line, lineno, ps, st.section, st.ttl, st.origin, st.prev);
      assert ed.Ok? && st'.entries == st.entries[n := ed.value.rule];
      assert Sealed(st') == st.entries[..n] == Sealed(st);
  }

  /** The default TTL, the section and the origin change only on a line of their own kind. */
  lemma StepContext(lines: seq<seq<char>>, ps: TextParsers)
    requires lines != [] && ParseFile(lines, ps).Ok?
    ensures ParseFile(lines[..|lines| - 1], ps).Ok?
    ensures var st := Final(lines[..|lines| - 1], ps);
            var st' := Final(lines, ps);
            var line := lines[|lines| - 1];
            var k := KindOf(line);
            && st'.ttl == (if k.TtlDirective? then TtlFromText(line, k.at) else st.ttl)
            && st'.section == (if k.SectionDirective? then SectionNamed(line, k.at).value else st.section)
            && (k.SectionDirective? ==> SectionNamed(line, k.at).Some?)
            && st'.origin == (if k.OriginDirective? then ps.dname(OriginText(line, k.at)) else st.origin)
            && (k.OriginDirective? ==> ps.dname(OriginText(line, k.at)).Some?)
  {
    if ParseFile(lines[..|lines| - 1], ps).Err? {
      ParseFileFailed(lines, ps);
    } else {
      ParseFileLast(lines, ps);
      var line := lines[|lines| - 1];
      KindStepContext(Final(lines[..|lines| - 1], ps), KindOf(line), line, |lines|, ps);
    }
  }

  lemma KindStepContext(st: ParseState, k: LineKind, line: seq<char>, lineno: nat, ps: TextParsers)
    requires WellFormed(st) && k.at <= |line| && KindStep(st, k, line, lineno, ps).Ok?
    ensures var st' := KindStep(st, k, line, lineno, ps).value;
            && st'.ttl == (if k.TtlDirective? then TtlFromText(line, k.at) else st.ttl)
            && st'.section == (if k.SectionDirective? then SectionNamed(line, k.at).value else st.section)
            && (k.SectionDirective? ==> SectionNamed(line, k.at).Some?)
            && st'.origin == (if k.OriginDirective? then ps.dname(OriginText(line, k.at)) else st.origin)
            && (k.OriginDirective? ==> ps.dname(OriginText(line, k.at)).Some?)
  {
    match k
    case Blank(_) =>
    case EntryBegin(_) =>
    case OriginDirective(_) =>
    case TtlDirective(_) =>
    case EntryEnd(_) =>
    case SectionDirective(_) =>
    case _ =>
      var n := |st.entries| - 1;
      var ed := EntryEdit(st.entries[n], k, line, lineno, ps, st.section, st.ttl, st.origin, st.prev);
      assert ed.Ok?;
  }

  // Counting the lines of a file by kind.

  function BeginCount(lines: seq<seq<char>>): nat
    decreases |lines|
  {
    if lines == [] then 0
    else BeginCount(lines[..|lines| - 1]) + if KindOf(lines[|lines| - 1]).EntryBegin? then 1 else 0
  }

  function EndCount(lines: seq<seq<char>>): nat
    decreases |lines|
  {
    if lines == [] then 0
    else EndCount(lines[..|lines| - 1]) + if KindOf(lines[|lines| - 1]).EntryEnd? then 1 else 0
  }

  /** Whether an entry is open after these lines, judged from ENTRY_BEGIN and ENTRY_END
      alone. */
  function OpenAfter(lines: seq<seq<char>>): bool
    decreases |lines|
  {
    if lines == [] then false
    else
      var k := KindOf(lines[|lines| - 1]);
      if k.EntryBegin? then true
      else if k.EntryEnd? then false
      else OpenAfter(lines[..|lines| - 1])
  }

  /** A file that reads without error has one entry per ENTRY_BEGIN line; entry_num counts
      the ENTRY_END lines, so an entry left open at the end of the file is in the list but
      not in the count. */
  lemma {:induction false} EntryCounts(lines: seq<seq<char>>, ps: TextParsers)
    requires ParseFile(lines, ps).Ok?
    ensures var st := Final(lines, ps);
            && |st.entries| == BeginCount(lines)
            && st.entryNum == EndCount(lines)
            && st.open == OpenAfter(lines)
            && |st.entries| == st.entryNum + if st.open then 1 else 0
    decreases |lines|
  {
    if lines != [] {
      StepShape(lines, ps);
      EntryCounts(lines[..|lines| - 1], ps);
    }
  }

  /** Line j + 1 of a file that reads without error comes where the grammar allows it:
      ENTRY_BEGIN while no entry is open, and every MATCH, REPLY, ADJUST, SECTION,
      ENTRY_END and record line while one is. */
  lemma NestedAt(lines: seq<seq<char>>, j: nat, ps: TextParsers)
    requires j < |lines| && ParseFile(lines, ps).Ok?
    ensures KindOf(lines[j]).EntryBegin? ==> !OpenAfter(lines[..j])
    ensures InEntryKind(KindOf(lines[j])) ==> OpenAfter(lines[..j])
  {
    var pre := lines[..j + 1];
    assert pre[..|pre| - 1] == lines[..j] && pre[|pre| - 1] == lines[j];
    PrefixReads(lines, j + 1, ps);
    StepGrammar(pre, ps);
    EntryCounts(lines[..j], ps);
    assert Final(lines[..j], ps).open == OpenAfter(lines[..j]);
  }

  /** A file that reads without error is well nested. */
  lemma WellNested(lines: seq<seq<char>>, ps: TextParsers)
    requires ParseFile(lines, ps).Ok?
    ensures forall j | 0 <= j < |lines| ::
              && (KindOf(lines[j]).EntryBegin? ==> !OpenAfter(lines[..j]))
              && (InEntryKind(KindOf(lines[j])) ==> OpenAfter(lines[..j]))
  {
    forall j | 0 <= j < |lines|
      ensures KindOf(lines[j]).EntryBegin? ==> !OpenAfter(lines[..j])
      ensures InEntryKind(KindOf(lines[j])) ==> OpenAfter(lines[..j])
    {
      NestedAt(lines, j, ps);
    }
  }

  lemma {:induction false} SealedStable(lines: seq<seq<char>>, n: nat, ps: TextParsers)
    requires n <= |lines| && ParseFile(lines, ps).Ok?
    ensures ParseFile(lines[..n], ps).Ok?
    ensures Sealed(Final(lines[..n], ps)) <= Sealed(Final(lines, ps))
    ensures Sealed(Final(lines[..n], ps)) <= Final(lines, ps).entries
    decreases |lines|
  {
    if n == |lines| {
      assert lines[..n] == lines;
      var st := Final(lines, ps);
      if st.open {
        PrefixTrans(Sealed(st), Sealed(st), st.entries);
      }
    } else {
      var m := |lines| - 1;
      var init := lines[..m];
      assert init[..n] == lines[..n];
      StepKeepsSealed(lines, ps);
      SealedStable(init, n, ps);
      var a := Sealed(Final(lines[..n], ps));
      var st := Final(init, ps);
      var st' := Final(lines, ps);
      PrefixTrans(a, Sealed(st), Sealed(st'));
      PrefixTrans(a, Sealed(st'), st'.entries);
    }
  }

  lemma PrefixTrans<T>(a: seq<T>, b: seq<T>, c: seq<T>)
    requires a <= b && b <= c
    ensures a <= c
  {
    assert c[..|a|] == b[..|a|];
  }

  // The context that survives from line to line.

  /** The default TTL set by the last $TTL line, 0 before any. */
  function LastTtl(lines: seq<seq<char>>): Uint32
    decreases |lines|
  {
    if lines == [] then 0
    else
      var line := lines[|lines| - 1];
      var k := KindOf(line);
      if k.TtlDirective? then TtlFromText(line, k.at) else LastTtl(lines[..|lines| - 1])
  }

  /** The section named by the last SECTION line, the question section before any. */
  function LastSection(lines: seq<seq<char>>): Section
    decreases |lines|
  {
    if lines == [] then Question
    else
      var line := lines[|lines| - 1];
      var k := KindOf(line);
      if k.SectionDirective? && SectionNamed(line, k.at).Some? then SectionNamed(line, k.at).value
      else LastSection(lines[..|lines| - 1])
  }

  /** The origin of the last $ORIGIN line, none before any. */
  function LastOrigin(lines: seq<seq<char>>, ps: TextParsers): Option<Dname>
    decreases |lines|
  {
    if lines == [] then None
    else
      var line := lines[|lines| - 1];
      var k := KindOf(line);
      if k.OriginDirective? && ps.dname(OriginText(line, k.at)).Some? then ps.dname(OriginText(line, k.at))
      else LastOrigin(lines[..|lines| - 1], ps)
  }

  /** The default TTL, the section and the origin are whatever the last line of their own
      kind set, across entry boundaries: ENTRY_BEGIN and ENTRY_END reset none of them. */
  lemma {:induction false} ContextCarriesOver(lines: seq<seq<char>>, ps: TextParsers)
    requires ParseFile(lines, ps).Ok?
    ensures Final(lines, ps).ttl == LastTtl(lines)
    ensures Final(lines, ps).section == LastSection(lines)
    ensures Final(lines, ps).origin == LastOrigin(lines, ps)
    decreases |lines|
  {
    if lines != [] {
      StepContext(lines, ps);
      ContextCarriesOver(lines[..|lines| - 1], ps);
    }
  }

  /** A record line, read in state st: the record text is parsed with the state's TTL,
      origin and previous owner and added at the end of the current section of the open
      entry's reply; every other entry and section stays as it was. */
  lemma RecordStep(st: ParseState, line: seq<char>, lineno: nat, ps: TextParsers)
    requires WellFormed(st) && KindOf(line).RecordText? && LineStep(st, line, lineno, ps).Ok?
    ensures var st' := LineStep(st, line, lineno, ps).value;
            var text := line[KindOf(line).at..];
            && st.open && |st'.entries| == |st.entries|
            && st'.entries[..|st.entries| - 1] == st.entries[..|st.entries| - 1]
            && ps.record(text, st.ttl, st.origin, st.prev).Parsed?
            && var rr := ps.record(text, st.ttl, st.origin, st.prev).rr;
               var before := st.entries[|st.entries| - 1].reply;
               var after := st'.entries[|st.entries| - 1].reply;
               && SectionOf(after, st.section) == SectionOf(before, st.section) + [rr]
               && (forall other | other != st.section :: SectionOf(after, other) == SectionOf(before, other))
               && var n := |st.entries| - 1;
                  st'.entries == st.entries[n := st.entries[n].(reply := PushRr(before, st.section, rr))]
  {
  }

  /** A record line of a file is parsed with the TTL, origin and section the last lines of
      their kinds before it set. */
  lemma RecordLine(lines: seq<seq<char>>, j: nat, ps: TextParsers)
    requires j < |lines| && KindOf(lines[j]).RecordText?
    requires ParseFile(lines[..j + 1], ps).Ok?
    ensures ParseFile(lines[..j], ps).Ok?
    ensures var st := Final(lines[..j], ps);
            var st' := Final(lines[..j + 1], ps);
            var sec := LastSection(lines[..j]);
            var text := lines[j][KindOf(lines[j]).at..];
            && st.open && |st'.entries| == |st.entries|
            && st'.entries[..|st.entries| - 1] == st.entries[..|st.entries| - 1]
            && ps.record(text, LastTtl(lines[..j]), LastOrigin(lines[..j], ps), st.prev).Parsed?
            && var rr := ps.record(text, LastTtl(lines[..j]), LastOrigin(lines[..j], ps), st.prev).rr;
               var before := st.entries[|st.entries| - 1].reply;
               var after := st'.entries[|st.entries| - 1].reply;
               && SectionOf(after, sec) == SectionOf(before, sec) + [rr]
               && (forall other | other != sec :: SectionOf(after, other) == SectionOf(before, other))
               && var n := |st.entries| - 1;
                  st'.entries == st.entries[n := st.entries[n].(reply := PushRr(before, sec, rr))]
  {
    var init := lines[..j + 1][..j];
    assert init == lines[..j];
    PrefixReads(lines[..j + 1], j, ps);
    ParseFileLast(lines[..j + 1], ps);
    ContextCarriesOver(lines[..j], ps);
    RecordStep(Final(lines[..j], ps), lines[j], j + 1, ps);
  }

  // The default TTL.

  /** `$TTL N` with N below 2^32 written in decimal gives the TTL N. */
  lemma TtlReadsDecimal(line: seq<char>, p: nat, n: nat)
    requires n < UINT32_MOD
    requires p + |Decimal(n)| <= |line| && line[p..p + |Decimal(n)|] == Decimal(n)
    requires p + |Decimal(n)| == |line| || !IsDigit(line[p + |Decimal(n)|])
    ensures TtlFromText(line, p) as int == n
  {
    StrtolDecimal(line, p, n);
  }

  /** The 16-bit store keeps N only modulo 65536: any $TTL of 65536 seconds or more
      loses its high bits. */
  lemma TtlAsWrittenTruncates(line: seq<char>, p: nat, n: nat)
    requires n < UINT32_MOD
    requires p + |Decimal(n)| <= |line| && line[p..p + |Decimal(n)|] == Decimal(n)
    requires p + |Decimal(n)| == |line| || !IsDigit(line[p + |Decimal(n)|])
    ensures TtlAsWritten(line, p) as int == n % UINT16_MOD
    ensures n >= UINT16_MOD ==> TtlAsWritten(line, p) as int != TtlFromText(line, p) as int
  {
    StrtolDecimal(line, p, n);
    Truncation(n);
  }

  lemma Truncation(n: nat)
    requires n < UINT32_MOD
    ensures n % UINT32_MOD == n
    ensures n >= UINT16_MOD ==> n % UINT16_MOD != n
  {
  }

  /** `$TTL 86400`, a TTL of one day, is stored as 20864 by the 16-bit store, while the
      32-bit TTL keeps it. */
  lemma TtlOfOneDay(line: seq<char>, p: nat, day: nat)
    requires day == 86400
    requires p + |Decimal(day)| <= |line| && line[p..p + |Decimal(day)|] == Decimal(day)
    requires p + |Decimal(day)| == |line| || !IsDigit(line[p + |Decimal(day)|])
    ensures TtlAsWritten(line, p) == 20864
    ensures TtlFromText(line, p) == 86400
  {
    StrtolDecimal(line, p, day);
    assert 86400 % UINT16_MOD == 20864;
  }
}
