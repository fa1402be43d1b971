# ldns-testns in Dafny

A model of the core of `ldns-testns`, the canned-answer DNS test server. It covers four parts:

- **Datafile reader** (`read_datafile`). It reads the rule file line by line into an ordered list of entries.
  - Lines are `ENTRY_BEGIN`/`ENTRY_END` blocks with `MATCH`, `REPLY`, `ADJUST` and `SECTION` directives and bare record lines, plus the file-scoped `$ORIGIN` and `$TTL`.
  - The first malformed line stops the server with an error that names the line.
- **Directive parsers** (`matchline`, `replyline`, `adjustline`, `str_keyword`, `isendline`). They scan the rest of a line keyword by keyword and set the fields of the open entry.
- **Matcher** (`find_match`, `get_answer` and the accessors `get_qtype`, `get_owner`, `get_serial`).
  - It picks the first entry, in file order, whose enabled checks all pass.
  - It answers with a copy of that entry's reply, which takes the query's id when the entry says `copy_id`.
- **Exchange** (`handle_query`, `handle_udp`, and the decision part of `handle_tcp`).
  - A TCP query is framed by a two-byte big-endian length. A length of 4096 or more closes the connection.
  - The reply goes back behind its own length prefix.

Files:

| file | module | contents |
|---|---|---|
| `wrappers.dfy` | `Wrappers` | `Option` and `Result` |
| `scanner.dfy` | `Scanner` | the C-string cursor: `isendline`, the loop of `str_keyword`, `isspace` skipping, `strtol` |
| `dns.dfy` | `Dns` | packets, records and names as values; the ldns text and wire codecs as oracle parameters |
| `entries.dfy` | `Entries` | the entry record (a `Rule` value and the `Entry` class the reader fills in), and the MATCH/REPLY/ADJUST parsers |
| `datafile.dfy` | `Datafile` | line classification, the reader as a fold over the lines (`ParseFile`), the imperative reader `ReadDatafile` proved against it, and the properties of the fold |
| `matcher.dfy` | `Matcher` | `find_match` and `get_answer`, as functions and as loops over the entry list |
| `server.dfy` | `Server` | `handle_query`, the TCP length prefix and the UDP datagram |

How the model is built:

- **Directive parsers.** Each one is specified twice.
  - A lexer function (`MatchTokens`, `ReplyTokens`, `AdjustTokens`) gives the tokens of the line, or the error at the first word it does not know.
  - An applier function (`ApplyMatches`, `ApplyReplies`, `ApplyAdjusts`) gives what those tokens set.
  - The imperative methods (`MatchLine`, `ReplyLine`, `AdjustLine`) follow the C loops and are proved equal to the composition of the two.
- **Reader.** `ReadDatafile` keeps the C reader's variables: the entry list, the open entry, the section, the default TTL, the origin, the previous owner and the ENTRY_END count. The default TTL is the one exception to following the code: the reader keeps it in 32 bits, where the C keeps it in 16 (see "## Findings"). It is proved to build exactly the entries `ParseFile` describes, each a fresh object and no two the same, or to fail with the same error.
- **Linked list.** The C reader's linked list of entries is a sequence of `Entry` objects, in list order.

Two behaviours of the code that a reader of the file format might not expect; the model keeps both:

- An entry still open at the end of the file is kept. There is no error for it (`Datafile.ParseFile`, `Datafile.EntryCounts`).
- The number the reader reports counts `ENTRY_END` lines, not entries (`Datafile.EntryCounts`).

## Model

All source paths are in `examples/nsd-test/ldns-testns.c`.

| member | source | states |
|---|---|---|
| Scanner.IsSpace | examples/nsd-test/ldns-testns.c:141 | definition: isspace in the C locale (space, tab, newline, carriage return, vertical tab, form feed) |
| Scanner.IsEndLine | examples/nsd-test/ldns-testns.c:125-131 | definition: isendline holds for `;`, `#`, newline and NUL |
| Scanner.HasKeywordAt | examples/nsd-test/ldns-testns.c:136-138 | definition: the strncmp test, true when the keyword lies within the text at the cursor, character by character |
| Scanner.SkipSpaces | examples/nsd-test/ldns-testns.c:313-314 | the white-space run from i: every character skipped is white space and the one it stops at is not |
| Scanner.SkipWhitespace | examples/nsd-test/ldns-testns.c:141-142 | the `while(isspace(*p)) p++` loop ends where SkipSpaces says |
| Scanner.StrKeyword | examples/nsd-test/ldns-testns.c:134-144 | found exactly when the text at the cursor starts with the keyword; on a match the cursor moves past the keyword and the white space after it, otherwise it stays |
| Scanner.NameEnd | examples/nsd-test/ldns-testns.c:275-277 | the name run from i contains no white space or end-of-line character and stops at one |
| Scanner.FindNameEnd | examples/nsd-test/ldns-testns.c:275-277 | get_origin's scan loop ends where NameEnd says |
| Scanner.Strtol | examples/nsd-test/ldns-testns.c:167 | strtol's value lies in the 64-bit long range; with no digits the value is 0 and the end pointer does not move; otherwise the end pointer is just past the last digit, and the value is at most 0 after a minus sign and at least 0 without one |
| Scanner.StrtolReadsDecimal | examples/nsd-test/ldns-testns.c:167 | after white space and an optional sign, strtol reads a decimal number up to the first non-digit: the value is the number, negated after a minus sign, saturated at LONG_MIN or LONG_MAX |
| Scanner.StrtolDecimal | examples/nsd-test/ldns-testns.c:167 | strtol reads back any number up to LONG_MAX written in decimal, up to the first non-digit; larger numbers saturate, as Scanner.StrtolReadsDecimal states |
| Entries.NewRule | examples/nsd-test/ldns-testns.c:249-263 | definition: the value new_entry leaves: every predicate off, serial 0, any transport, ldns_pkt_new's packet, no copy_id; stated by Entries.Entry.constructor and Matcher.NewRuleMatchesAll |
| Entries.Entry.constructor | examples/nsd-test/ldns-testns.c:249-263 | new_entry: every predicate off, serial 0, any transport, an empty reply, no copy_id |
| Entries.ToUint32 | examples/nsd-test/ldns-testns.c:167 | the (uint32_t) cast keeps every value below 2^32 |
| Entries.SerialToken | examples/nsd-test/ldns-testns.c:164-169 | after `serial`, a separator and a number move the cursor forward and stay within the line |
| Entries.NextMatchToken | examples/nsd-test/ldns-testns.c:152-172 | a recognised MATCH keyword moves the cursor forward, within the line |
| Entries.MatchSerial | examples/nsd-test/ldns-testns.c:162-169 | the serial branch sets match_serial and the threshold of the serial token, or fails with the token's error |
| Entries.MatchStep | examples/nsd-test/ldns-testns.c:150-172 | one pass of matchline's loop applies the token at the cursor and moves to where it ends, or fails with its error |
| Entries.MatchLine | examples/nsd-test/ldns-testns.c:146-174 | matchline leaves the entry as the line's tokens applied in order, or reports the lexer's error |
| Entries.OpcodeKeyword | examples/nsd-test/ldns-testns.c:183-192 | an opcode name moves the cursor forward, within the line |
| Entries.RcodeKeyword | examples/nsd-test/ldns-testns.c:194-213 | an rcode name moves the cursor forward, within the line |
| Entries.FlagKeyword | examples/nsd-test/ldns-testns.c:215-228 | a flag name moves the cursor forward, within the line |
| Entries.NextReplyToken | examples/nsd-test/ldns-testns.c:183-231 | a recognised REPLY keyword moves the cursor forward, within the line |
| Entries.ReplyOpcode | examples/nsd-test/ldns-testns.c:183-192 | on an opcode name, sets the reply's opcode to it and moves past it; otherwise changes nothing |
| Entries.ReplyRcode | examples/nsd-test/ldns-testns.c:194-213 | on an rcode name, sets the reply's rcode to it and moves past it; otherwise changes nothing |
| Entries.ReplyFlag | examples/nsd-test/ldns-testns.c:215-228 | on a flag name, raises that flag and moves past it; otherwise changes nothing |
| Entries.ReplyLine | examples/nsd-test/ldns-testns.c:176-233 | replyline leaves the reply as the line's tokens applied in order, or reports the lexer's error |
| Entries.AdjustLine | examples/nsd-test/ldns-testns.c:235-247 | adjustline leaves the entry as the line's copy_id tokens applied, or reports the first unknown word |
| Entries.MatchTokens | examples/nsd-test/ldns-testns.c:149-173 | definition: the tokens of a MATCH line up to its first end-of-line character, or the error of the first bad word; its meaning is stated by Entries.MatchLine and the ApplyMatches lemmas |
| Entries.ApplyMatch | examples/nsd-test/ldns-testns.c:152-169 | definition: one MATCH token turns on its check, sets the transport, or turns on the serial check with its threshold; stated by Entries.ApplyMatchFields |
| Entries.ApplyMatches | examples/nsd-test/ldns-testns.c:152-169 | definition: MATCH tokens applied to the entry in line order; its properties are Entries.ApplyMatchesFlags and the lemmas after it |
| Entries.ReplyTokens | examples/nsd-test/ldns-testns.c:179-232 | definition: the tokens of a REPLY line up to its first end-of-line character, or the error of the first bad word |
| Entries.ApplyReply | examples/nsd-test/ldns-testns.c:183-228 | definition: one REPLY token sets the opcode, sets the rcode or raises a flag; stated by Entries.ApplyReplyFields |
| Entries.ApplyReplies | examples/nsd-test/ldns-testns.c:183-228 | definition: REPLY tokens applied to the reply in line order; its properties are Entries.ApplyRepliesFlags and the lemmas after it |
| Entries.NextAdjustToken | examples/nsd-test/ldns-testns.c:241-245 | a `copy_id` word moves the cursor forward, within the line; any other word is the error at its position (Entries.UnknownAdjustWord) |
| Entries.AdjustTokens | examples/nsd-test/ldns-testns.c:238-246 | definition: the copy_id tokens of an ADJUST line up to its first end-of-line character, or the error of the first other word |
| Entries.ApplyAdjusts | examples/nsd-test/ldns-testns.c:241-242 | definition: each copy_id token turns copy_id on; stated by Entries.ApplyAdjustsEffect |
| Entries.ApplyMatchFields | examples/nsd-test/ldns-testns.c:152-167 | each MATCH token sets only its own field; the reply and copy_id never change |
| Entries.ApplyMatchesFlags | examples/nsd-test/ldns-testns.c:152-167 | after a MATCH line, opcode, qtype, qname and serial checks are on exactly when they were on or their keyword occurs, in any order |
| Entries.ApplyMatchesNoTransport | examples/nsd-test/ldns-testns.c:158-161 | without UDP or TCP the transport stays as it was |
| Entries.ApplyMatchesLastTransport | examples/nsd-test/ldns-testns.c:158-161 | of several UDP/TCP tokens the last one gives the transport |
| Entries.ApplyMatchesNoSerial | examples/nsd-test/ldns-testns.c:162-167 | without serial=N the threshold stays as it was |
| Entries.ApplyMatchesLastSerial | examples/nsd-test/ldns-testns.c:162-167 | of several serial=N tokens the last one gives the threshold |
| Entries.UnknownMatchWord | examples/nsd-test/ldns-testns.c:170-171 | a word that is none of the MATCH keywords makes the line fail where the word starts |
| Entries.UnknownReplyWord | examples/nsd-test/ldns-testns.c:229-231 | a word that is none of the opcode, rcode or flag names makes a REPLY line fail where the word starts |
| Entries.UnknownAdjustWord | examples/nsd-test/ldns-testns.c:243-245 | a word other than copy_id makes an ADJUST line fail where the word starts |
| Entries.SerialNeedsSeparator | examples/nsd-test/ldns-testns.c:164-165 | `serial` followed by anything but `=` or `:` makes the MATCH line fail at that character |
| Entries.SerialReadsDecimal | examples/nsd-test/ldns-testns.c:162-169 | `serial`, `=` or `:`, then N below 2^32, with white space allowed before and after the separator, gives threshold N, with the cursor past N and the white space after it |
| Entries.SerialMinusOne | examples/nsd-test/ldns-testns.c:162-169 | `serial=-1` gives the threshold 4294967295: strtol's -1 cast to 32 bits |
| Entries.SerialNegative | examples/nsd-test/ldns-testns.c:164-167 | a separator, a minus sign and N give the threshold -N modulo 2^32 |
| Entries.ApplyReplyFields | examples/nsd-test/ldns-testns.c:183-228 | each REPLY token changes only its own header field; the id and the sections stay |
| Entries.ApplyRepliesFlags | examples/nsd-test/ldns-testns.c:215-228 | after REPLY tokens a flag is up exactly when it was up or its name occurs; the id and all sections are unchanged |
| Entries.ApplyRepliesNoOpcode | examples/nsd-test/ldns-testns.c:183-192 | without an opcode name the opcode stays as it was |
| Entries.ApplyRepliesLastOpcode | examples/nsd-test/ldns-testns.c:183-192 | of several opcode names the last one gives the opcode |
| Entries.ApplyRepliesNoRcode | examples/nsd-test/ldns-testns.c:194-213 | without an rcode name the rcode stays as it was |
| Entries.ApplyRepliesLastRcode | examples/nsd-test/ldns-testns.c:194-213 | of several rcode names the last one gives the rcode |
| Entries.ApplyAdjustsEffect | examples/nsd-test/ldns-testns.c:241-242 | ADJUST turns copy_id on when copy_id occurs at least once, and changes nothing else |
| Dns.SetFlag | examples/nsd-test/ldns-testns.c:215-228 | setting a header flag raises that flag and leaves the other flags, the header fields and the sections as they were |
| Dns.NewPacket | examples/nsd-test/ldns-testns.c:259 | ldns_pkt_new: id 0, opcode QUERY, rcode NOERROR, no flag raised, all four sections empty |
| Dns.Native32 | examples/nsd-test/ldns-testns.c:403 | ldns_rdf2native_int32: each of the four bytes of a four-byte field is the matching byte of the number, high byte first; any other field reads as 0 |
| Dns.SameName | examples/nsd-test/ldns-testns.c:423-424 | definition: ldns_dname_compare reports equal, taken as the same number of labels, each equal up to ASCII case |
| Dns.SameNameEquivalence | examples/nsd-test/ldns-testns.c:423-424 | the name test of find_match (ldns_dname_compare equal to 0) is reflexive, symmetric and transitive |
| Dns.PushRr | examples/nsd-test/ldns-testns.c:369 | a record is appended to the end of the chosen section; the other sections and the header stay |
| Datafile.KindOf | examples/nsd-test/ldns-testns.c:313-335 | the cursor a line's classification leaves stays within the line |
| Datafile.KindAfter | examples/nsd-test/ldns-testns.c:318-361 | definition: the first keyword from j on that starts at the cursor gives the kind, with the cursor after it and its white space, and a line with none is record text; the cursor stays within the line; stated by Datafile.KindOfRecordText, Datafile.KindOfKeyword and Datafile.ClassifyEntryLine |
| Datafile.FirstKeyword | examples/nsd-test/ldns-testns.c:319-359 | a keyword it finds does start at the cursor |
| Datafile.FirstKeywordNone | examples/nsd-test/ldns-testns.c:319-361 | no keyword is found exactly when none of the remaining keywords starts at the cursor |
| Datafile.FirstKeywordEarliest | examples/nsd-test/ldns-testns.c:319-359 | the keyword found is the earliest in the reader's order that starts at the cursor |
| Datafile.KindFor | examples/nsd-test/ldns-testns.c:319-359 | a keyword line is neither blank nor record text, and its cursor is the one given |
| Datafile.KindOfRecordText | examples/nsd-test/ldns-testns.c:313-361 | a line is blank exactly when its first non-blank character ends the line, and record text exactly when it is not blank and none of the eight keywords starts there; record text keeps the cursor at that character |
| Datafile.KindOfKeyword | examples/nsd-test/ldns-testns.c:319-359 | a line whose first non-blank text is a keyword, with no earlier keyword of the reader's order there, has that keyword's kind, the cursor after the keyword and its white space |
| Datafile.ClassifyLine | examples/nsd-test/ldns-testns.c:313-361 | the keyword tests of the reader's loop classify the line as KindOf says |
| Datafile.ClassifyEntryLine | examples/nsd-test/ldns-testns.c:342-361 | the in-entry keyword tests (MATCH, REPLY, ADJUST, SECTION, ENTRY_END, else a record) classify as KindAfter says |
| Datafile.SectionNamed | examples/nsd-test/ldns-testns.c:349-357 | the names are tried in the order QUESTION, ANSWER, AUTHORITY, ADDITIONAL and the first that starts the text selects its section; none exactly when the text starts with none of the four (the fatal bad-section case) |
| Datafile.OriginText | examples/nsd-test/ldns-testns.c:275-279 | the text handed to the name parser is the part of the line from the cursor up to the first white space or end-of-line character |
| Datafile.GetOrigin | examples/nsd-test/ldns-testns.c:265-286 | get_origin gives the name parser's result on exactly that text |
| Datafile.TtlAsWritten | examples/nsd-test/ldns-testns.c:299-333 | the 16-bit store is the 32-bit TTL cut to its low 16 bits, and 0 when the text holds no number |
| Datafile.TtlFromText | examples/nsd-test/ldns-testns.c:333 | the corrected TTL keeps every number from 0 to 2^32 - 1 as written, and is 0 when the text holds no number |
| Datafile.InitialState | examples/nsd-test/ldns-testns.c:291-302 | the reader starts with no entries and none open |
| Datafile.KindStep | examples/nsd-test/ldns-testns.c:316-370 | one classified line of the loop: blank lines pass, ENTRY_BEGIN opens a new entry (fatal while one is open), $ORIGIN and $TTL set the context, and every other line needs an open entry; the result keeps the open entry as the last one |
| Datafile.LineStep | examples/nsd-test/ldns-testns.c:313-370 | one line of the loop: classification, then KindStep; the result keeps the open entry as the last one |
| Datafile.InEntryStep | examples/nsd-test/ldns-testns.c:342-370 | a line inside an entry: ENTRY_END closes it and counts it, SECTION selects the section (fatal when unknown), a directive or record edits the open entry; the result keeps the open entry as the last one |
| Datafile.EntryEdit | examples/nsd-test/ldns-testns.c:342-369 | definition: a record is parsed with the TTL, origin and previous owner and pushed to the current section; a directive is applied; either failure is fatal with the line number; stated by Datafile.RecordStep and Datafile.EditEntry |
| Datafile.ParseLast | examples/nsd-test/ldns-testns.c:313-372 | definition: the last line read, by LineStep, in the state the lines before it leave, or their error; a state it reaches is well formed; stated by Datafile.ParseFileStep and Datafile.ParseFileLast |
| Datafile.ParseFile | examples/nsd-test/ldns-testns.c:308-373 | a file that reads without error leaves a state whose open entry, if any, is the last one |
| Datafile.DirectiveStep | examples/nsd-test/ldns-testns.c:342-347 | definition: a MATCH, REPLY or ADJUST line is lexed from the cursor and its tokens applied to the entry's rule (match fields, reply, or copy_id), or the lexer's error is returned; stated by Datafile.DirectiveLine and the Entries lemmas on the token folds |
| Datafile.DirectiveLine | examples/nsd-test/ldns-testns.c:342-347 | MATCH, REPLY or ADJUST change the open entry as DirectiveStep says, or report its error |
| Datafile.EditEntry | examples/nsd-test/ldns-testns.c:342-369 | a directive or a record line changes the open entry, and the previous owner, as EntryEdit says; a record the parser rejects is fatal with its status |
| Datafile.EntryLine | examples/nsd-test/ldns-testns.c:342-370 | the lines inside an entry update the reader's variables exactly as InEntryStep updates the parse state |
| Datafile.ReadKind | examples/nsd-test/ldns-testns.c:316-370 | one classified line updates the reader's variables as KindStep updates the state, or fails with KindStep's error; the list only grows by one fresh entry |
| Datafile.ReadLine | examples/nsd-test/ldns-testns.c:308-370 | one pass of the loop takes the state of the first i lines to the state of the first i + 1, or to their error |
| Datafile.ReadDatafile | examples/nsd-test/ldns-testns.c:289-378 | the entries read are the entries ParseFile gives, in file order, each a fresh object and no two the same, with the ENTRY_END count; or the error ParseFile gives |
| Datafile.ParseFileLast | examples/nsd-test/ldns-testns.c:313-372 | reading the last line of a file applies one step to the state the lines before it leave |
| Datafile.ParseFileStep | examples/nsd-test/ldns-testns.c:308-311 | reading one more line applies one step to the state the lines before it leave |
| Datafile.ReadStopsAtError | examples/nsd-test/ldns-testns.c:319-368 | once a prefix of the file fails, the whole file fails with that error |
| Datafile.FirstError | examples/nsd-test/ldns-testns.c:319-368 | a failing file names the first line whose step fails; the lines before it read without error |
| Datafile.StepErrorLine | examples/nsd-test/ldns-testns.c:319-368 | a failing line reports its own line number |
| Datafile.StepShape | examples/nsd-test/ldns-testns.c:318-360 | ENTRY_BEGIN adds an entry and opens it, ENTRY_END closes it and counts it, no other line changes the number of entries or whether one is open |
| Datafile.KindStepShape | examples/nsd-test/ldns-testns.c:318-360 | the same, for one classified line |
| Datafile.StepGrammar | examples/nsd-test/ldns-testns.c:319-341 | ENTRY_BEGIN succeeds only with no entry open; an in-entry line succeeds only with one open |
| Datafile.KindStepGrammar | examples/nsd-test/ldns-testns.c:319-341 | the same, for one classified line |
| Datafile.PrefixReads | examples/nsd-test/ldns-testns.c:308-373 | every prefix of a file that reads without error reads without error |
| Datafile.StepKeepsSealed | examples/nsd-test/ldns-testns.c:318-370 | a line never changes an entry that is already closed |
| Datafile.KindStepSealed | examples/nsd-test/ldns-testns.c:318-370 | the same, for one classified line |
| Datafile.SealedStable | examples/nsd-test/ldns-testns.c:358-360 | once an entry is closed by ENTRY_END, it stays as it was, and in its place, to the end of the file |
| Datafile.StepContext | examples/nsd-test/ldns-testns.c:329-357 | the default TTL changes only on $TTL, the section only on SECTION, the origin only on $ORIGIN; a bad section or origin is fatal |
| Datafile.KindStepContext | examples/nsd-test/ldns-testns.c:329-357 | the same, for one classified line |
| Datafile.EntryCounts | examples/nsd-test/ldns-testns.c:318-360 | a file that reads without error has one entry per ENTRY_BEGIN line, the count is the number of ENTRY_END lines, and entries = count + (1 if the last entry is still open) |
| Datafile.NestedAt | examples/nsd-test/ldns-testns.c:318-341 | each ENTRY_BEGIN line comes when no entry is open and each in-entry line when one is |
| Datafile.WellNested | examples/nsd-test/ldns-testns.c:318-341 | a file that reads without error is well nested at every line |
| Datafile.ContextCarriesOver | examples/nsd-test/ldns-testns.c:298-357 | the default TTL, the section and the origin are those of the last $TTL, SECTION and $ORIGIN lines, across entry boundaries (0, question and none before any) |
| Datafile.RecordStep | examples/nsd-test/ldns-testns.c:361-369 | a record line is parsed with the state's TTL, origin and previous owner, and its record goes to the end of the current section of the open entry's reply; the entries afterwards are the entries before with only that reply replaced, so nothing else changes |
| Datafile.RecordLine | examples/nsd-test/ldns-testns.c:361-369 | a record line of a file is parsed with the TTL and origin of the last $TTL and $ORIGIN lines before it and goes to the end of the section of the last SECTION line; every entry, and every other field of the open entry, is unchanged |
| Datafile.TtlReadsDecimal | examples/nsd-test/ldns-testns.c:333 | `$TTL N`, with N below 2^32 written in decimal, gives the TTL N |
| Datafile.TtlAsWrittenTruncates | examples/nsd-test/ldns-testns.c:299-333 | the 16-bit store keeps N modulo 2^16 and loses every $TTL of 65536 or more |
| Datafile.TtlOfOneDay | examples/nsd-test/ldns-testns.c:299-333 | `$TTL 86400` is stored as 20864, where the record parser should get 86400 |
| Matcher.GetQtype | examples/nsd-test/ldns-testns.c:380-385 | the type of the first question record, 0 when there is none |
| Matcher.GetOwner | examples/nsd-test/ldns-testns.c:387-392 | the owner of the first question record; none exactly when there is no question |
| Matcher.GetSerial | examples/nsd-test/ldns-testns.c:394-406 | the third rdata field of the first authority record as a 32-bit number, 0 when the record or the field is missing |
| Matcher.Qualifies | examples/nsd-test/ldns-testns.c:414-433 | definition: the five tests of find_match's loop body, each applied only when its entry enables it; stated by Matcher.DisabledIsWildcard, Matcher.QnameIgnoresCase, Matcher.SerialOfOwnReply and the transport lemmas |
| Matcher.FindMatchFrom | examples/nsd-test/ldns-testns.c:413-436 | the first index from i on whose rule qualifies; none exactly when no rule from i on qualifies |
| Matcher.FindMatch | examples/nsd-test/ldns-testns.c:409-437 | the first rule in list order that qualifies, with none before it qualifying; none exactly when no rule qualifies |
| Matcher.Rules | examples/nsd-test/ldns-testns.c:413 | the rules of the entry list, in list order |
| Matcher.FindEntry | examples/nsd-test/ldns-testns.c:409-437 | the loop returns the entry at FindMatch's index, or null when FindMatch finds none |
| Matcher.AnswerTo | examples/nsd-test/ldns-testns.c:439-451 | no answer exactly when no rule qualifies; otherwise the first qualifying rule's reply, with the query's id when the rule says copy_id |
| Matcher.GetAnswer | examples/nsd-test/ldns-testns.c:439-451 | get_answer over the entry list gives AnswerTo of its rules |
| Matcher.DisabledIsWildcard | examples/nsd-test/ldns-testns.c:414-433 | a rule that checks no more than a qualifying rule also qualifies |
| Matcher.NewRuleMatchesAll | examples/nsd-test/ldns-testns.c:414-434 | a fresh entry answers every query over every transport |
| Matcher.QnameNeedsQuestions | examples/nsd-test/ldns-testns.c:421-427 | the qname check fails when the query or the canned reply has no question |
| Matcher.QnameIgnoresCase | examples/nsd-test/ldns-testns.c:421-427 | with only the qname check on, a rule qualifies exactly when the owner names are equal up to ASCII case |
| Matcher.SerialOfOwnReply | examples/nsd-test/ldns-testns.c:428-430 | the serial check compares the rule's own reply with its threshold, so it passes for every query or for none |
| Matcher.MatchSeesOpcodeAndQuestion | examples/nsd-test/ldns-testns.c:414-427 | two queries with the same opcode, first-question type and first-question owner find the same rule |
| Matcher.AnyTransport | examples/nsd-test/ldns-testns.c:431-433 | a rule for any transport qualifies over UDP exactly when over TCP |
| Matcher.OtherTransport | examples/nsd-test/ldns-testns.c:431-433 | a UDP-only rule never answers a TCP query |
| Matcher.FindMatchAppend | examples/nsd-test/ldns-testns.c:413-436 | on a list split in two, the search takes the first part's match, and otherwise the second part's, shifted by the first part's length |
| Matcher.FirstQualifying | examples/nsd-test/ldns-testns.c:413-436 | a qualifying index with no qualifying rule before it is the one returned |
| Matcher.EarlierWins | examples/nsd-test/ldns-testns.c:413-436 | a qualifying rule shadows every later rule |
| Matcher.AnswerKeepsReply | examples/nsd-test/ldns-testns.c:446-450 | the answer equals the canned reply in opcode, rcode, every flag and every section; its id is the query's with copy_id and the reply's without |
| Server.HandleQuery | examples/nsd-test/ldns-testns.c:457-490 | definition: decode, answer from the rules, encode; stated by Server.HandleQueryReply and Server.GarbageGetsNoReply |
| Server.TcpExchange | examples/nsd-test/ldns-testns.c:555-596 | definition: the length check, handle_query on the framed bytes, and the framed reply; stated by Server.TcpRefusesLongQuery, Server.TcpFraming and Server.TcpReplyDeframes |
| Server.UdpExchange | examples/nsd-test/ldns-testns.c:492-524 | definition: an empty datagram is dropped, and the first INBUF_SIZE bytes of any other go to handle_query; stated by Server.SameReplyEitherWay |
| Server.DecodeLength | examples/nsd-test/ldns-testns.c:573-574 | the prefix value has the first byte as its high byte and the second as its low byte |
| Server.EncodeLength | examples/nsd-test/ldns-testns.c:591 | the two bytes of htons(answer_size) read back, high byte first, as the size modulo 2^16 |
| Server.LengthRoundTrip | examples/nsd-test/ldns-testns.c:591-592 | a prefix written for a size reads back as the size modulo 2^16, and as the size itself below 2^16 |
| Server.PrefixRoundTrip | examples/nsd-test/ldns-testns.c:573-574 | every two-byte prefix is the encoding of the length it reads as |
| Server.HandleQueryReply | examples/nsd-test/ldns-testns.c:457-490 | there is a reply exactly when the message decodes, a rule answers it and the answer encodes; the reply is then the encoded answer |
| Server.GarbageGetsNoReply | examples/nsd-test/ldns-testns.c:467-471 | a message that does not decode gets no reply, whatever the rules |
| Server.TcpRefusesLongQuery | examples/nsd-test/ldns-testns.c:575-580 | a length prefix of INBUF_SIZE or more closes the connection before any query byte is used |
| Server.TcpFraming | examples/nsd-test/ldns-testns.c:573-593 | a query framed with its length gets the reply handle_query makes for exactly those bytes, framed by its own length; bytes after the query are ignored |
| Server.TcpReplyDeframes | examples/nsd-test/ldns-testns.c:590-593 | a TCP reply below 2^16 bytes carries a prefix that gives the length of the rest, and the rest is handle_query's reply |
| Server.SameReplyEitherWay | examples/nsd-test/ldns-testns.c:492-524 | from rules that do not restrict the transport, the same query bytes get the same reply over UDP and TCP |

## Left out

- Sockets, `select`, `main`, option parsing, `accept`, `close` and `sendto` are not modelled. A TCP connection is the byte sequence the client sent; a UDP exchange is one datagram.
- The `read_n_bytes` and `write_n_bytes` loops are not modelled. A complete stream is required instead (`Server.CompleteStream`): a client that closes early is outside the model.
- Opening the datafile, `fgets` and the `MAX_LINE` cut are not modelled. The file is given as its sequence of lines, and no line is longer than the buffer.
- The ldns text parsers (`ldns_rr_new_frm_str`, `ldns_str2rdf_dname`) and wire codec (`ldns_wire2pkt`, `ldns_pkt2wire`) are foreign code. They are function parameters (`Dns.TextParsers`, `Dns.Codec`) and are not reimplemented.
- Packet cloning is a value copy. The ownership and freeing of ldns objects are not modelled, nor is `malloc` or the too-small `memset` of `new_entry`: every field is assigned after it, so it does not change the entry.
- `printf` diagnostics and the query counter are not modelled. A fatal `error()` exit is the `Err` outcome, carrying the line number and the cause.
- No matching entry: `handle_query` passes a null answer to `ldns_pkt2wire`. The model gives no reply in that case (`Server.HandleQuery`), which is what the comment above `handle_query` (lines 453-456) promises: a buffer to send, or NULL.
- `recvfrom` cuts a datagram to the first `INBUF_SIZE` bytes, and that is the only part of `handle_udp` modelled (`Server.UdpExchange`).
- Server.EncodeLength: `htons(answer_size)` truncates the size to 16 bits. This is modelled as written, so `Server.TcpReplyDeframes` holds only for replies below 2^16 bytes.
- Datafile.ParseFile: the default TTL is kept in 32 bits (`Datafile.TtlFromText`), not in the 16-bit `default_ttl` of the code. After `$TTL 86400` the record parser gets 86400 here and 20864 in the code. The 16-bit store is modelled on its own (`Datafile.TtlAsWritten`), and "## Findings" records the difference.
- Datafile.ReadDatafile: its TTL is the corrected 32-bit one, as for `Datafile.ParseFile` above.
- Datafile.KindStep: a `$TTL` line stores the corrected 32-bit TTL (`Datafile.TtlFromText`), not the `(uint16_t)atoi` of line 333. `Datafile.LineStep` inherits this.
- Datafile.ReadKind: its `$TTL` branch stores the corrected 32-bit TTL, as `Datafile.KindStep` does.
- Datafile.StepContext: the TTL it states after a `$TTL` line is the corrected 32-bit one.
- Datafile.KindStepContext: the TTL it states after a `$TTL` line is the corrected 32-bit one.
- Datafile.ContextCarriesOver: the default TTL it carries over is the corrected 32-bit one (`Datafile.TtlFromText`), not the 16-bit value the code stores.
- Datafile.RecordLine: the TTL handed to the record parser is the corrected 32-bit one (`Datafile.TtlFromText`), not the 16-bit value the code stores.
- Dns.SameName: `ldns_dname_compare` is a canonical ordering. Only its "equal" outcome is used by `find_match`, and the model has that as label-wise equality up to ASCII case.

## Findings

| source | as written | input that shows it | evidently intended | confidence | as-written member | corrected member |
|---|---|---|---|---|---|---|
| examples/nsd-test/ldns-testns.c:299-333 | `default_ttl` is a `uint16_t` and `$TTL` is stored as `(uint16_t)atoi(parse)`, then handed to `ldns_rr_new_frm_str`, which takes a 32-bit TTL | `$TTL 86400` (one day) gives records the TTL 20864 | the 32-bit TTL the line states | not executed | Datafile.TtlOfOneDay | Datafile.TtlReadsDecimal |

For the 16-bit store, `Datafile.TtlAsWritten` and `Datafile.TtlAsWrittenTruncates` show the loss: every `$TTL` of 65536 or more is stored modulo 2^16. The reader uses `Datafile.TtlFromText`, which keeps the value modulo 2^32; `Datafile.TtlReadsDecimal` proves that it gives back every TTL below 2^32.
