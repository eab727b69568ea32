# LiteHTTPD, modelled and proved

LiteHTTPD interprets Apache `.htaccess` files inside OpenLiteSpeed. This project
models its self-contained algorithms in Dafny and proves what each of them is for.

- **ESI filter** (`Esi*.dfy`). A state machine fed body chunks, its hold-back of
  partial tags, include placeholders, and the later joining of fetched fragments.
  `Esi` holds the meaning of a whole body and the step of one call, `EsiStream`
  and `EsiExact` the chunk invariance and its exact limits, `EsiBlocks` what each
  kind of tag does to the page, `EsiContext` the context object, `EsiSplice` and
  `EsiJoin` the placeholder pass.
- **Expressions** (`Expr*.dfy`). Lexer, recursive-descent parser with a depth
  budget, printer and evaluator; the tokenizer object and the appending printer.
  `ExprLaws` has the laws of the evaluator, `ExprTokens` the other spellings.
- **Blocks** (`Block*.dfy`). The parser of container tags, which keeps flags, two
  stacks and a fixed priority order instead of one stack, and the printer: the round
  trip of canonical trees, what holds of every parsed text, lines and blanks
  (`BlockLines`), and what is kept of badly nested files (`BlockRecovery`).
- **Attempt store** (`Shm`, `Attempts`, `AttemptsExact`, `Executors`, `Workers`). An
  open-addressing table that refines a finite map, and the brute-force and rate-limit
  windows on it, with what each window admits exactly.
- **Directory walk** (`Directives`, `DirectiveTables`, `Nodes`, `Merge`, `MergeList`,
  `Overrides`, `OverrideLaws`, `OverrideList`, `ParseCache`, `Dirwalk`). Merging levels, filtering and flattening,
  as functions and on linked nodes with their children and rule conditions, and the
  cache of parsed files that owns such lists.
- **Hashing** (`Sha256`, `Sha256Constants`), the **regex cache** (`RegexCache`), **address ranges**
  (`Cidr`) and **expiry times** (`Durations`, `DurationLaws`).

A model function gives the meaning; a class or method written like the code is
proved to compute it; lemmas prove the properties of the meaning.

## Conditions, and what the code does not keep

Several natural statements do not hold of the code. The ones marked "exactly" are
proved in both directions; the printable domain of expressions and the canonical
nesting of blocks are sufficient conditions only.

- A chunk boundary can be seen exactly when it may split a close tag or leaves a
  known tag over 8192 bytes unfinished (`EsiExact.CutExact`).
- A printed expression reads back exactly when it fits the depth budget; a bare
  `"0"` or `"false"` then changes its truth value (`ExprRoundTrip`). The printable
  domain is: comparison operands are values, file tests, unary address matches or
  function calls, texts hold no single quote, variables and patterns are delimited.
  The `i` flag of a pattern is read and dropped by the code, and so by the model.
- The header of an IfModule reads back exactly for the names of
  `BlockTags.ModuleOK`: the printer quotes a negated name that holds a space, and
  the parser does not look for the negation inside quotes.
- An expression text that stands alone and starts and ends with a double quote of
  its own loses both (`ExprTokens.OwnQuotes`).
- A tree of canonical nesting comes back from its printed text exactly when no
  ElseIf or Else is an orphan (`BlockRoundTrip.ParsePrint`).
- Containers left open in an IfModule leave no trace exactly unless a RequireAll is
  left open in an IfModule that stands in a RequireAny: what follows then leaves the
  RequireAny (`BlockRecovery.OpenInModule`, `BlockRecovery.MarkerLost`).
- Canonical nesting, for the block round trip, is IfModule up to 16 deep, then
  Limit, then RequireAny or RequireAll with the other kind once inside it, then
  Files or FilesMatch, then If chains up to 16 deep; directly inside a RequireAll
  that is inside a RequireAny only Require lines may stand.
- The clean-up forgets clients that are still in their window exactly when the
  brute-force window is above 601 seconds, or the rate-limit window above 600 and
  the rate limit stops requests at all (`Attempts.OwnRunExactly`).
- Filtering and flattening commute exactly on lists that are solid for the mask:
  no Require block is kept for the sake of IfModule blocks that flatten to nothing
  (`Overrides.FilterFlattenExact`).
- The cache can be noticed exactly when two versions of a file have the same
  metadata and are read differently (`Dirwalk.TransparentExactly`). The permission
  bits are not part of the metadata.
- A splice writes within its buffer exactly under `EsiSplice.Roomy`. Each index
  occurs at most once unless page, file or fragment bytes spell a placeholder;
  then it can occur twice and a fragment can need more room than is allocated
  (`EsiJoin.OwnMark`).

Where the code and its documentation differ, the model follows the code:
`include/htaccess_directive.h:332` counts Limit blocks to the Options category and
`src/htaccess_directive.c:121-126` to the Limit category;
`include/htaccess_cidr_table.h` promises a binary search and
`src/htaccess_cidr_table.c:32-45` scans; `src/htaccess_printer.c:4-6` promises a
round trip without the conditions above.

## Model

| member | source | states |
|---|---|---|
| `Esi.BoundedIsRun` | src/htaccess_esi.c:38-55 | a call whose whole output fits in 1 MB does what the filter does with no buffer limit: capacity doubling and refused appends cannot be seen |
| `EsiStream.StreamingIsRendering` | src/htaccess_esi.c:128-379 | chunk invariance of the meaning that the laws of EsiBlocks pin down tag by tag: for every body and every list of chunks, in any reachable starting state, the outputs of the calls and of the final flush concatenate to the one-shot meaning of the whole body, and the same include URIs are recorded in the same order, when each boundary is harmless and each output fits |
| `EsiStream.CutUnseen` | src/htaccess_esi.c:134-212 | one boundary: what is held back together with the later bytes means what the uncut text means, whatever tag, partial tag or block the boundary falls into, unless it splits a close tag or drops a known tag that is longer than the hold buffer |
| `EsiExact.CutExact` | src/htaccess_esi.c:100-362 | a boundary is invisible for every server and every continuation if and only if it is safe: no close tag can be spelled across it and no known tag is over the hold limit |
| `EsiExact.UnsafeIsSeen` | src/htaccess_esi.c:193-212 | for every unsafe boundary there is a continuation that the cut and the uncut stream treat differently |
| `EsiExact.PlainBodyPasses` | src/htaccess_esi.c:172-192 | a body without the tag prefix comes out unchanged under every split, held-back partial prefixes included |
| `EsiContext.FindStr` | src/htaccess_esi.c:70-80 | the byte loop finds the first occurrence or reports that there is none |
| `EsiContext.PartialTagTail` | src/htaccess_esi.c:109-118 | the loop finds the longest of the last four bytes that is a proper prefix of the tag prefix |
| `EsiContext.ExtractSrcOf` | src/htaccess_esi.c:585-611 | the scan over an include tag yields the first usable quoted src value, with the length limits of the code |
| `EsiContext.EsiContext.BufAppend` | src/htaccess_esi.c:38-55 | an append either adds exactly the bytes or leaves the buffer as it was; it fails exactly when the bytes do not fit the limit |
| `EsiContext.EsiContext.EmitPlaceholder` | src/htaccess_esi.c:89-98 | an eight-byte placeholder with the index in little-endian order is appended, or nothing |
| `EsiContext.EsiContext.HoldBytes` | src/htaccess_esi.c:120-126 | the held bytes are the given ones, cut off at 8192 |
| `EsiContext.EsiContext.PassthroughChunk` | src/htaccess_esi.c:172-305 | one turn outside a block computes the specified step, of which EsiBlocks says what each tag does to the page: tag dispatch, hold-back, literal emission of overlong tags |
| `EsiContext.EsiContext.StripChunk` | src/htaccess_esi.c:306-322 | one turn inside a remove or comment block consumes up to the first of the two close tags and emits nothing |
| `EsiContext.EsiContext.VarsChunk` | src/htaccess_esi.c:323-337 | one turn inside a vars block passes the text and drops its close tag |
| `EsiContext.EsiContext.Process` | src/htaccess_esi.c:128-362 | the consuming loop computes the run function on held bytes and chunk, eats the whole chunk, and keeps the object valid; with parked output it refuses the chunk and the held bytes are gone |
| `EsiContext.EsiContext.Finish` | src/htaccess_esi.c:364-379 | the flush hands out what was accumulated followed by the held bytes of a tag that never ended, and nothing stays behind |
| `EsiContext.FilterBody` | src/htaccess_esi.c:128-379 | a body fed chunk by chunk to one context object produces the streamed page of the specification; over harmless chunks that is the page of the whole body, to which the laws of blocks and includes of EsiBlocks apply |
| `EsiBlocks.StripBlock` | src/htaccess_esi.c:306-322 | with no tag prefix before it and neither close tag in it, a remove or comment block in any letter case, with any bytes up to its closing bracket, vanishes: the page is the text before it and the page of what comes after it; either close tag ends either block |
| `EsiBlocks.VarsBlock` | src/htaccess_esi.c:323-337 | with no vars close tag in it, a vars block leaves what it holds as it is, other tags included, and the page goes on behind it |
| `EsiBlocks.UnclosedBlock` | src/htaccess_esi.c:306-337 | a remove or comment block that is never closed hides the rest of the page, an unclosed vars block shows it |
| `EsiBlocks.IncludeLaw` | src/htaccess_esi.c:234-290 | an include is replaced where it stands, by its file, its fragment or nothing, and the page goes on behind it |
| `EsiBlocks.StaticInclude` | src/htaccess_esi.c:246-264 | a readable file under the root that is no script stands where it was included |
| `EsiBlocks.ScriptInclude` | src/htaccess_esi.c:262-284 | a script with a valid address becomes a placeholder and a recorded address; in a fragment, or past the limit, it becomes nothing |
| `EsiBlocks.OtherTag` | src/htaccess_esi.c:298-302 | a tag of any other name loses no byte |
| `EsiBlocks.EndlessTag` | src/htaccess_esi.c:364-379 | a tag that never ends loses no byte |
| `EsiBlocks.StreamedBlocks` | src/htaccess_esi.c:128-379 | the same block laws for a body that arrives in harmless chunks |
| `EsiSplice.SpliceReplaces` | src/htaccess_esi.c:511-551 | splicing a fragment into a clean buffer within the limit replaces the hole of that index and nothing else |
| `EsiSplice.SplicesCommute` | src/htaccess_esi.c:511-551 | splices of two different indices commute |
| `EsiSplice.StripLeavesText` | src/htaccess_esi.c:555-573 | the last pass leaves no placeholder and every text byte |
| `EsiSplice.JoinedIsFilled` | src/mod_htaccess.c:296-307 | splicing any number of fragments in index order and stripping the rest yields the text with each fragment in its place |
| `EsiSplice.FitsExactly` | src/htaccess_esi.c:522-551 | a splice stays inside its new buffer of one byte more than page and fragment together if and only if that reaches 1 MB or the fragments placed beyond the first one are made up for by the placeholders taken out |
| `EsiSplice.RoomyByCount` | src/htaccess_esi.c:522-551 | where 1 MB is not reached the condition is one on the lengths and on how often the index occurs |
| `EsiSplice.JoinFits` | src/mod_htaccess.c:296-307 | where each index occurs once, as the filter emits it, no splice of a join leaves its buffer |
| `EsiJoin.PlaceholdersNumbered` | src/htaccess_esi.c:265-278 | each recorded include has one placeholder, numbered in the order its URI was recorded |
| `EsiJoin.SegmentsClean` | src/htaccess_esi.c:86-98 | files, bodies and fragments without the byte 0x01 keep the rendered text free of stray placeholders |
| `EsiJoin.StreamedPageJoins` | src/mod_htaccess.c:250-308 | end to end: a body streamed in harmless chunks and joined with its fetched fragments equals the page in which every include has been replaced and every block has been treated as EsiBlocks says, and every splice on the way fits its buffer |
| `EsiJoin.OwnMark` | src/mod_htaccess.c:361-385 | a page that holds the bytes of placeholder 0 before its include: after the filter the index occurs twice, and exactly the fragments of more than 17 bytes need more room than the splice allocates |
| `EsiJoin.HoldBuffer.Splice` | src/htaccess_esi.c:511-551 | the copying loop into a buffer of the size the code allocates computes the splice function, under exactly the condition that keeps its writes inside; an index never handed out changes nothing |
| `EsiJoin.HoldBuffer.StripRemaining` | src/htaccess_esi.c:555-573 | the in-place compaction, with one array for reading and writing, computes the strip function |
| `EsiJoin.HoldBuffer.Join` | src/mod_htaccess.c:296-307 | the join loop and the final strip compute the joined text, with missing fragments when the time is up, where every splice fits |
| `ExprRoundTrip.PrintParses` | src/htaccess_expr.c:725-773 | for every expression in the printable domain, parsing its printed text gives the expression with both chains leaning left when the printed text fits the depth budget, and a refusal when it does not |
| `ExprRoundTrip.RoundTripMeansTheSame` | src/htaccess_expr.c:939-1093 | the reparsed expression has the same truth value, under the evaluator whose laws are in ExprLaws, as the original in every session if and only if the original is not a bare "0" or "false", which the parser turns into a comparison with the empty text |
| `ExprRoundTrip.NormMeansTheSame` | src/htaccess_expr.c:939-1093 | re-association of either chain operator changes no truth value, under the evaluator whose laws are in ExprLaws, and no operand text in any session |
| `ExprRoundTrip.OrParses` | src/htaccess_expr.c:699-719 | a printed expression followed by anything that may follow it is read completely and the parser stops right behind it, with the depth counter raised by exactly its chain operators, or reports an error when the budget is exceeded |
| `ExprRoundTrip.AndChain` | src/htaccess_expr.c:674-694 | a printed conjunction is read operand by operand into the left-leaning chain |
| `ExprRoundTrip.OrChain` | src/htaccess_expr.c:699-719 | a printed disjunction is read operand by operand into the left-leaning chain |
| `ExprRoundTrip.CmpParses` | src/htaccess_expr.c:620-649 | a printed comparison is read as the operator between the two operands |
| `ExprRoundTrip.BangParses` | src/htaccess_expr.c:654-669 | a printed negation reads back, parenthesised operand or not, and returns the level it took |
| `ExprRoundTrip.FuncParses` | src/htaccess_expr.c:553-586 | a printed function call reads back with its argument and returns the level it took |
| `ExprRoundTrip.OrSticks` | src/htaccess_expr.c:468-719 | once the error flag is set no parse function clears it |
| `ExprLex.WrittenIsPrinted` | src/htaccess_expr.c:1177-1293 | writing an expression in front of a given text, piece by piece, is the printed expression followed by that text |
| `ExprLex.LexValue` | src/htaccess_expr.c:268-313 | the token in front of a printed value is that value, and the rest of the text is what was printed after it |
| `ExprLex.LexOp` | src/htaccess_expr.c:251-266 | every comparison operator reads back as itself from the text the printer writes for it |
| `ExprBounds.ParsedIsSmall` | src/htaccess_expr.c:725-773 | for a text of any length the returned tree has at most 32 chain operators and a height of at most 99, although the counter is never lowered after a chain operator |
| `ExprBounds.OrBounded` | src/htaccess_expr.c:468-719 | from any depth, the counter moves by exactly the chain operators of what was parsed, stays within 32, and bounds the height |
| `ExprParser.Tokenizer.TokNext` | src/htaccess_expr.c:230-407 | the scanning loops leave the tokenizer with the next token, the remaining text and the error flag of the specification |
| `ExprParser.Tokenizer.constructor` | src/htaccess_expr.c:409-419 | a fresh tokenizer is primed with its first token |
| `ExprParser.Tokenizer.Primary` | src/htaccess_expr.c:500-590 | the method returns the tree and leaves the tokenizer as the function says |
| `ExprParser.Tokenizer.CmpExpr` | src/htaccess_expr.c:620-649 | likewise for comparisons and the binary address match |
| `ExprParser.Tokenizer.NotExpr` | src/htaccess_expr.c:654-669 | likewise for negations |
| `ExprParser.Tokenizer.AndExpr` | src/htaccess_expr.c:674-694 | the loop over the operands computes the chain function |
| `ExprParser.Tokenizer.OrExpr` | src/htaccess_expr.c:699-719 | the loop over the operands computes the chain function |
| `ExprParser.ExprParse` | src/htaccess_expr.c:725-773 | trimming, unquoting, parsing and the wrapping of bare values, on every text |
| `ExprParser.StrBuf.Append` | src/htaccess_expr.c:1138-1159 | the buffer grows by doubling, keeps its contents and ends with the added text |
| `ExprParser.ToStringR` | src/htaccess_expr.c:1177-1293 | the recursive printer appends exactly the printed text to the buffer |
| `ExprParser.ExprToString` | src/htaccess_expr.c:1295-1312 | the result is the printed text |
| `ExprLaws.Connectives` | src/htaccess_expr.c:939-958 | in every session, for all expressions: an expression and its negation never agree, conjunction is the greatest lower and disjunction the least upper bound of truth values, and De Morgan's laws hold |
| `ExprLaws.TextComparisons` | src/htaccess_expr.c:973-1022 | the six comparisons of texts: equality is that of the operand texts, one text is less exactly when it comes first where they first differ or ends there, the others are the complements and the converse, and of less, equal and greater exactly one holds |
| `ExprLaws.TextTransitive` | src/htaccess_expr.c:991-998 | the order of texts is transitive |
| `ExprLaws.IntegerComparisons` | src/htaccess_expr.c:1043-1069 | comparing two written integers that fit a long is comparing the integers |
| `ExprLaws.IntegerLaws` | src/htaccess_expr.c:1043-1069 | for any two operands: both read as integers and exactly one of -lt, -eq and -gt holds, with the other three their complements and -lt and -gt converses, or no integer comparison holds |
| `ExprLaws.NoInteger` | src/htaccess_expr.c:1049-1059 | a text that does not end in a digit, and a number above LONG_MAX, is no integer |
| `ExprLaws.PatternLaws` | src/htaccess_expr.c:822-857 | on a usable pattern =~ and !~ never agree, on an empty, overlong or bad one neither holds; the subject is the left operand |
| `ExprLaws.AddressLaws` | src/htaccess_expr.c:886-933 | the address is the left and the network the right operand of -ipmatch; alone it asks about the client |
| `ExprLaws.FileLaws` | src/htaccess_expr.c:860-884 | what each file test says of the file, and how the tests follow from each other; -L alone does not look through links |
| `ExprLaws.CaseLaws` | src/htaccess_expr.c:795-812 | tolower and toupper change letters only, undo each other up to case, and see the first 4095 characters |
| `ExprLaws.ReadLaws` | src/htaccess_expr.c:939-958 | the laws of the connectives for the trees that parsing the printed texts gives |
| `ExprLaws.NoSuchFile` | src/htaccess_expr.c:654-884 | the text that negates -f of a quoted path holds exactly where no regular file has that path |
| `ExprTokens.TokensDecide` | src/htaccess_expr.c:725-773 | texts with the same tokens are parsed alike, errors and the depth budget included |
| `ExprTokens.TokensRead` | src/htaccess_expr.c:230-407 | whatever spelling is chosen for each token, quotes of either kind, bare words, patterns with or without the flag, -R or -ipmatch, and whatever blanks stand between them, the text has exactly those tokens |
| `ExprTokens.SpelledAlike` | src/htaccess_expr.c:725-773 | between double quotes two spellings of the same tokens are parsed alike |
| `ExprTokens.QuotesOptional` | src/htaccess_expr.c:725-745 | the outer quotes make no difference unless the text itself starts and ends with a double quote |
| `ExprTokens.OwnQuotes` | src/htaccess_expr.c:725-745 | a comparison of two double-quoted words alone is refused, because its first and last quote are taken off; in outer quotes it is read |
| `ExprTokens.AnySpelling` | src/htaccess_expr.c:725-773 | every spelling of the tokens of a printed expression is read back as that expression when it fits the depth budget, and refused when not |
| `ExprTokens.LexUnclosed` | src/htaccess_expr.c:280-294 | a quote that is never closed takes the rest of the text |
| `BlockRoundTrip.ParseAdopted` | src/htaccess_parser.c:2666-3566 | for every canonically nested tree of any size, with branches in any order, and any leaf syntax that reads its own lines, parsing the printed text gives the tree without its orphans, the ElseIf and Else blocks that follow no branch, at every depth: containers, order, rule conditions and If chains are as they were, with conditions re-associated |
| `BlockRoundTrip.ParsePrint` | src/htaccess_parser.c:2666-3566 | the round trip gives the tree itself, conditions re-associated, if and only if no ElseIf or Else at any depth stands where no If or ElseIf comes right before it |
| `BlockRoundTrip.FeedOrphan` | src/htaccess_parser.c:2784-2793 | a branch that follows no branch is skipped as a whole, whatever is nested in it, and leaves no trace |
| `BlockRoundTrip.FeedAll` | src/htaccess_parser.c:2759-3490 | in every canonical parser state, feeding the printed text of a list extends the list of the innermost open container by exactly that list without its orphans and changes nothing else |
| `BlockRoundTrip.OpenStep` | src/htaccess_parser.c:2907-3398 | the opening line of each kind of container, in every place where it may stand, pushes exactly that container |
| `BlockRoundTrip.CloseStep` | src/htaccess_parser.c:2795-3369 | the closing line takes the container with the children read so far and puts it into the list it was opened in, although the code finds that list by a fixed priority and not by a stack |
| `BlockRoundTrip.CloseIfStep` | src/htaccess_parser.c:2937-3007 | a closing If, ElseIf or Else matches its opening, and its condition text parses to the re-associated condition |
| `BlockRoundTrip.CloseModuleStep` | src/htaccess_parser.c:2795-2905 | closing an IfModule discards nothing that was complete and restores the state before it |
| `BlockRoundTrip.OpenIfStep` | src/htaccess_parser.c:3009-3100 | an ElseIf or Else opens a frame exactly behind an If or ElseIf in the same list |
| `BlockRoundTrip.FeedConditions` | src/htaccess_parser.c:3399-3419 | condition lines wait in order and are not put in any list |
| `BlockRoundTrip.PlainAdds` | src/htaccess_parser.c:3415-3484 | a rule takes all waiting conditions, a leaf goes to the innermost list, and only Require lines go into Require blocks |
| `BlockSound.ParsedIsSound` | src/htaccess_parser.c:2666-3566 | for every text, canonical or not, and every leaf syntax: no rewrite condition stands alone, conditions are found only on rules, and only Require lines stand directly in a Require block, at every depth of the result |
| `BlockSound.TagsSound` | src/htaccess_parser.c:2795-3398 | no tag line, whatever is open, moves a directive to where it may not stand |
| `BlockSound.AddLeafSound` | src/htaccess_parser.c:3399-3484 | no leaf line puts a condition in a list or another directive in a Require block |
| `BlockLines.FeedIsRun` | src/htaccess_parser.c:2756-2782 | the parse of a file is the run over its lines that are neither blank nor comments, without the blanks around them, whether the last line is ended or not |
| `BlockLines.FinalBreak` | src/htaccess_parser.c:2759-2779 | for every text and every leaf syntax, a line break at the end of the file changes nothing |
| `BlockLines.PaddedLine` | src/htaccess_parser.c:2763-2773 | blanks and carriage returns before or behind any line change nothing |
| `BlockLines.InsertedLine` | src/htaccess_parser.c:2780-2782 | a blank line or a comment inserted anywhere between lines changes nothing |
| `BlockLines.LinesJoin` | src/htaccess_parser.c:2759-2779 | splitting a text into lines loses no byte |
| `BlockRecovery.OpenAtEnd` | src/htaccess_parser.c:3490-3566 | containers of any kinds opened one inside the other and never closed are thrown away with all they hold; what came before them is read as it is |
| `BlockRecovery.OpenInModule` | src/htaccess_parser.c:2795-2905 | an IfModule anywhere, in which containers are left open, is read as if they were not there, unless it stands in a RequireAny and a RequireAll is one of them; what it holds itself goes to it, or to the container around it when there is one |
| `BlockRecovery.MarkerLost` | src/htaccess_parser.c:2825-2840 | in the excluded case the marker of the innermost Require block is left behind, and the next directive goes outside of the RequireAny |
| `BlockRecovery.WrongClose` | src/htaccess_parser.c:2937-2966 | a branch closed by the tag of another kind of branch goes, with all it holds |
| `BlockRecovery.TooDeep` | src/htaccess_parser.c:2907-3100 | the opening line of a 17th IfModule or a 17th branch is not seen |
| `BlockRecovery.NotARequire` | src/htaccess_parser.c:3415-3484 | in a Require block a directive other than Require goes, a rule with its conditions |
| `BlockRecovery.ConditionsLost` | src/htaccess_parser.c:2824-3369 | conditions that no rule follows before their container is closed are lost, in every kind of container |
| `BlockTags.AnyTag` | src/htaccess_parser.c:2205-2225 | opening and closing tags without an argument are recognised in any letter case and with blanks before the bracket |
| `BlockTags.AnyNamed` | src/htaccess_parser.c:2160-2203 | a tag with a name is read in any letter case, with any blanks around the name, quoted or bare |
| `BlockTags.ModuleLineExact` | src/htaccess_printer.c:290-307 | the header of an IfModule reads back with its name and its negation if and only if the name can be printed so: a negated name with a space, for one, loses its negation |
| `BlockTags.NegationIsLost` | src/htaccess_parser.c:2239-2315 | a negated module name that holds a space comes back as not negated |
| `BlockTags.FilesLine` | src/htaccess_parser.c:2452-2499 | a Files header reads back to its name, quoted or bare |
| `BlockTags.MatchLine` | src/htaccess_parser.c:2160-2203 | a FilesMatch header reads back to its pattern |
| `BlockTags.CondLine` | src/htaccess_parser.c:2347-2391 | the condition between the quotes reads back, with any greater-than signs inside |
| `BlockTags.LimitLine` | src/htaccess_parser.c:2585-2642 | the method list of Limit and LimitExcept reads back |
| `BlockTags.NoTags` | src/htaccess_parser.c:2795-3398 | a line that does not start a tag is left to the leaf parser in every state |
| `BlockScan.IsClose` | src/htaccess_parser.c:2209-2225 | the pointer walk over a line recognises exactly the closing tags of a keyword |
| `BlockScan.NamedOpen` | src/htaccess_parser.c:2160-2203 | the scan of a Files or FilesMatch header finds the specified name, quoted or bare, or nothing |
| `BlockScan.ModuleOpen` | src/htaccess_parser.c:2239-2315 | likewise for IfModule, with its negation |
| `BlockScan.ConditionOpen` | src/htaccess_parser.c:2347-2391 | the search for the last closing bracket from the end, the trimming and the unquoting find the specified condition |
| `BlockScan.LimitOpen` | src/htaccess_parser.c:2585-2642 | the scan up to the first closing bracket finds the specified method list |
| `BlockParser.Parser.Sweep` | src/htaccess_parser.c:2795-2868 | the containers an IfModule did not find open are dropped, the others kept |
| `BlockParser.Parser.ModuleClose` | src/htaccess_parser.c:2795-2905 | flags, stacks and lists change as the step function says |
| `BlockParser.Parser.IfClose` | src/htaccess_parser.c:2937-3007 | likewise, with the mismatch that discards a block |
| `BlockParser.Parser.ElseOpen` | src/htaccess_parser.c:3030-3100 | an orphaned branch raises the skip counter, another one opens a frame |
| `BlockParser.Parser.PreviousSibling` | src/htaccess_parser.c:3035-3044 | the list in which a preceding branch is looked for |
| `BlockParser.Parser.FilesTag` | src/htaccess_parser.c:3102-3213 | FilesMatch and Files tags change the flags and lists as specified |
| `BlockParser.Parser.RequireTag` | src/htaccess_parser.c:3215-3321 | RequireAny and RequireAll tags change the flags, lists and the innermost marker as specified |
| `BlockParser.Parser.LimitTag` | src/htaccess_parser.c:3323-3398 | Limit and LimitExcept tags change the flags and lists as specified |
| `BlockParser.Parser.AddLine` | src/htaccess_parser.c:3399-3484 | a leaf is queued, attached, stored or dropped as specified |
| `BlockParser.Parser.Line` | src/htaccess_parser.c:2781-3490 | one turn of the line loop is one step of the state machine, skipped blocks included |
| `BlockParser.HtaccessParse` | src/htaccess_parser.c:2666-3566 | the loop over the lines of a text, a last line without a line break included, returns the parse function of the text, of which BlockLines says what lines and blanks mean |
| `BlockParser.PrintDirective` | src/htaccess_printer.c:84-986 | the recursive printer appends exactly the printed directive |
| `BlockParser.HtaccessPrint` | src/htaccess_printer.c:992-1024 | the printed list, one line break after each directive, and nothing for an empty list |
| `Shm.ProbeEnds` | src/htaccess_shm.c:172-189 | a probe that meets an empty slot, or has gone all the way round, proves the key absent from the map |
| `Shm.InsertKeepsInv` | src/htaccess_shm.c:191-232 | inserting where a probe may end keeps unique keys and keeps every slot between a key and its hash non-empty |
| `Shm.OverwriteKeepsInv` | src/htaccess_shm.c:200-207 | overwriting a record keeps the table in order and changes one key of the map |
| `Shm.TombstoneKeepsInv` | src/htaccess_shm.c:248-253 | a tombstone keeps every other key reachable and removes one key of the map |
| `Shm.RoomLeft` | src/htaccess_shm.c:142-256 | the map has at most as many keys as there are slots, and fewer while a slot is free |
| `Shm.AllOccupied` | src/htaccess_shm.c:191-232 | a full round without the key or a free slot means that every slot is occupied |
| `Shm.Store.Get` | src/htaccess_shm.c:172-189 | the probing loop returns the record of the key, or nothing exactly when the key is absent |
| `Shm.Store.Update` | src/htaccess_shm.c:191-232 | the map changes at that key only; the update fails exactly when the key is absent and every slot is occupied, and then changes nothing |
| `Shm.Store.Cleanup` | src/htaccess_shm.c:234-256 | after the sweep the map holds exactly the records that had not expired, and the result is the number of those that had |
| `Shm.Store.AtomicIncrement` | src/htaccess_shm.c:327-351 | one more attempt on the record of the key, or a new record with one attempt |
| `Shm.Store.constructor` | src/htaccess_shm.c:151-170 | an empty table is an empty map |
| `Attempts.RunIsOwnRun` | src/htaccess_exec_brute_force.c:223-383 | with room for every key and windows up to the staleness threshold for the features a key uses, the answers to the key in any run of all clients, both features and clean-ups are those of its own requests on a private record |
| `Attempts.OthersUnseen` | src/htaccess_shm.c:234-256 | two runs with the same requests for a key, whatever other keys, clean-ups and the other feature do, give that key the same answers |
| `Attempts.KeysApart` | src/htaccess_exec_ratelimit.c:63-73 | keys of the two features never coincide |
| `Attempts.OwnRunExactly` | src/htaccess_shm.c:234-256 | in every in-order run with room, on keys with the prefix of their feature, every key is answered as on a private record if and only if the brute-force window is at most 601 seconds and the rate-limit window at most 600 or the rate limit stops nothing; every longer window has a run that lets a client through |
| `Attempts.WindowBound` | src/htaccess_exec_brute_force.c:277-358 | each window admits at most the allowed number of counted login attempts per key |
| `Attempts.IntervalBound` | src/htaccess_exec_brute_force.c:277-358 | any half-open stretch of window length admits at most twice the allowed number less one |
| `Attempts.SharedIntervalBound` | src/htaccess_exec_brute_force.c:268-383 | the same bound holds for each client in the shared table, among all others and all clean-ups |
| `Attempts.SharedWindowBound` | src/htaccess_exec_brute_force.c:268-383 | in the shared table each window of a client admits at most the allowed number of login attempts, and only its first blocked request escalates |
| `Attempts.EscalationBound` | src/htaccess_exec_brute_force.c:299-307 | each window escalates on its first blocked request and on no other |
| `Attempts.RlWindowBound` | src/htaccess_exec_ratelimit.c:75-136 | each rate-limit window passes at most requests plus burst |
| `Attempts.SharedRlWindowBound` | src/htaccess_exec_ratelimit.c:75-136 | so does each window of a client in the shared table |
| `AttemptsExact.WindowExact` | src/htaccess_exec_brute_force.c:277-358 | each window admits exactly the smaller of the allowance and the number of login attempts made in it; requests that are no login attempts use up nothing |
| `AttemptsExact.StoppedAfter` | src/htaccess_exec_brute_force.c:287-358 | a request is stopped only when the whole allowance of its window has been used by login attempts before it |
| `AttemptsExact.IdlersUnseen` | src/htaccess_exec_brute_force.c:277-383 | removing from a run the requests that are no login attempts and pass changes no other answer |
| `AttemptsExact.SharedWindowExact` | src/htaccess_exec_brute_force.c:268-383 | in the shared table, among all other clients and all clean-ups, each window of a client admits exactly the smaller of the allowance and its login attempts in it |
| `AttemptsExact.SharedStoppedAfter` | src/htaccess_exec_brute_force.c:268-383 | in the shared table a client is stopped only after its own login attempts have used up the allowance of the window |
| `AttemptsExact.SharedIdlersUnseen` | src/htaccess_exec_brute_force.c:268-383 | in the shared table, removing a client's passing requests that are no login attempts changes none of its other answers |
| `AttemptsExact.RlWindowExact` | src/htaccess_exec_ratelimit.c:75-136 | each rate-limit window passes exactly the smaller of requests plus burst and the requests made in it |
| `AttemptsExact.SharedRlWindowExact` | src/htaccess_exec_ratelimit.c:75-136 | so does each window of a client in the shared table |
| `Executors.ExecBruteForce` | src/htaccess_exec_brute_force.c:268-383 | the executor over the hash table answers and updates as the step function on the map, whose windows AttemptsExact fixes in both directions |
| `Executors.ThrottleVerdict` | src/htaccess_exec_brute_force.c:308-327 | the progressive delay with both caps |
| `Executors.ExecRateLimit` | src/htaccess_exec_ratelimit.c:75-136 | the executor over the hash table answers and updates as the step function on the map |
| `Executors.ServeAll` | src/htaccess_exec_brute_force.c:268-383 | a whole run of requests and clean-ups on one table gives the answers of the run function, of which AttemptsExact says exactly what each window admits |
| `Executors.RunOps` | src/htaccess_shm.c:142-256 | after any sequence of store operations the table is the finite map those operations make |
| `Workers.NoCountLostOrShared` | src/htaccess_shm.c:289-325 | under every interleaving of workers the counts handed out between two resets are distinct and consecutive, and the record holds the last one |
| `Workers.WindowLimit` | src/htaccess_exec_ratelimit.c:96-136 | under every interleaving a window passes no more than requests plus burst, its first write included |
| `Directives.MatchesIsKey` | src/htaccess_dirwalker.c:308-425 | the override test of all directive kinds is equality of keys, so it is symmetric and transitive; kinds without a key are never overridden |
| `Merge.MergeIs` | src/htaccess_dirwalker.c:434-485 | on levels without inner overrides merging is: overrides in place, new entries appended in order; and the result has no inner overrides |
| `Merge.MergeAssociative` | src/htaccess_dirwalker.c:434-485 | merging is associative and the empty list is its identity |
| `Merge.WalkIsDeepest` | src/htaccess_dirwalker.c:901-942 | over any number of levels a walk yields the deepest definition of every key and every accumulating directive of every level in order |
| `Nodes.CopyDirective` | src/htaccess_dirwalker.c:65-275 | the copy, first shallow and then deep by kind, spells the same tree and is made of new nodes at every depth |
| `Nodes.CopyList` | src/htaccess_dirwalker.c:280-298 | a copied list spells the same directives and every node of it at every depth is new |
| `MergeList.MergeDirectives` | src/htaccess_dirwalker.c:434-485 | relinking nodes in place yields a list without shared nodes that spells the functional merge; it has no node in common with the cached list at any depth, whose links are unchanged; every node of the list so far is in the result or freed, never both |
| `MergeList.MergeOne` | src/htaccess_dirwalker.c:447-482 | one child directive: a deep copy takes the place of the node it overrides, which is freed with all beneath it, or goes to the end; the last node is kept track of |
| `MergeList.Replace` | src/htaccess_dirwalker.c:452-470 | replacing a node keeps order, links and the last node right, also at the head and at the end |
| `Overrides.FilterTwice` | src/htaccess_dirwalker.c:611-686 | filtering with one mask after another equals filtering once with both, at every depth, emptied Require blocks included |
| `Overrides.FilterCleans` | src/htaccess_dirwalker.c:611-686 | only permitted directives are left at every depth and no Require block is empty; a list is left alone if and only if it was so already |
| `Overrides.FlattenKeeps` | src/htaccess_dirwalker.c:697-759 | no IfModule is left anywhere, every other directive keeps its place in the order and its depth among the other blocks |
| `Overrides.Idempotent` | src/htaccess_dirwalker.c:611-759 | both passes are idempotent |
| `Overrides.FilterFlattenExact` | src/htaccess_dirwalker.c:944-970 | filtering before and after flattening agree if and only if every Require block that the filter keeps holds a permitted directive other than IfModule blocks and containers that go |
| `Overrides.FilterFlattenCommute` | src/htaccess_dirwalker.c:944-970 | in particular they commute on trees with no IfModule beneath a Require block |
| `Overrides.OrderMatters` | src/htaccess_dirwalker.c:643-652 | a RequireAll around an empty IfModule: filtered first it stays as an empty block, flattened first it goes |
| `Overrides.PermittedBoth` | src/htaccess_directive.c:117-191 | a kind is permitted by two masks if and only if it is permitted by what they share |
| `OverrideLaws.FilterVisible` | src/htaccess_dirwalker.c:611-686 | the filter keeps exactly the directives that are permitted together with every block around them, in order and in the same blocks |
| `OverrideLaws.FlattenVisible` | src/htaccess_dirwalker.c:697-759 | flattening moves no directive out of the order or of a block other than IfModule |
| `OverrideLaws.ConditionsStay` | src/htaccess_dirwalker.c:611-686 | the conditions of a permitted rule stay with it |
| `DirectiveTables.MaskAdmits` | src/htaccess_directive.c:117-191 | which kinds each bit of a mask admits, for all 256 masks; Options needs two bits, and what is in no category is always admitted |
| `DirectiveTables.OverridesBy` | src/htaccess_dirwalker.c:308-425 | for the fields of each kind, when a deeper directive replaces a shallower one |
| `DirectiveTables.Containers` | src/htaccess_dirwalker.c:629-675 | which kinds hold directives of their own |
| `OverrideList.FilterByAllowOverride` | src/htaccess_dirwalker.c:611-686 | taking nodes off the list, filtering beneath them and hanging them behind the result leaves a list that spells the filter; its nodes and the freed ones are exactly the nodes given, and no node is both |
| `OverrideList.FlattenIfmodule` | src/htaccess_dirwalker.c:697-759 | splicing the flattened children of an IfModule block into the list and walking to their end leaves a list that spells the flattening; its nodes and the freed ones are exactly the nodes given, and no node is both |
| `OverrideList.Promote` | src/htaccess_dirwalker.c:704-719 | an IfModule block: the children are cut off the block before it is freed and all of them are in the list |
| `ParseCache.HashString` | src/htaccess_cache.c:240-247 | the hash loop in 64-bit arithmetic |
| `ParseCache.Cache.Locate` | src/htaccess_cache.c:270-293 | the chain walk finds the entry of a path exactly when the map has it |
| `ParseCache.Cache.Get` | src/htaccess_cache.c:270-293 | an answer exactly when the path is known with the same metadata |
| `ParseCache.Cache.Put` | src/htaccess_cache.c:295-342 | a known path is overwritten and its old list freed, a new one refused exactly when 4096 entries are held; the map changes at that path only, and no node is in the lists of two paths |
| `Dirwalk.CacheIsTransparent` | src/htaccess_dirwalker.c:908-940 | over every run of edits, deletions and lookups, on a table of any fill, each answer is that of a fresh read and parse, provided metadata determines what a fresh read yields |
| `Dirwalk.TransparentExactly` | src/htaccess_dirwalker.c:585-598 | over any set of versions of files, every run of edits, deletions and lookups answers as fresh reads do if and only if any two versions of one path with equal time, size and inode mixed with blocks are read alike |
| `Dirwalk.ModeIsNotMetadata` | src/htaccess_dirwalker.c:503-514 | a cached file that becomes writable for others is refused by a fresh read and still served from the cache |
| `Dirwalk.LevelIsFresh` | src/htaccess_dirwalker.c:908-932 | one lookup: a hit, a miss, a refused file, a full table and a file that is gone all give the fresh result |
| `Dirwalk.UseLevel` | src/htaccess_dirwalker.c:908-932 | the lookup, read and store of one level, on the cache object and its linked lists |
| `Dirwalk.ReadAndCache` | src/htaccess_dirwalker.c:490-598 | a refused file leaves nothing, a parsed one belongs to the cache, or to the caller when the cache is full |
| `Dirwalk.HtaccessDirwalk` | src/htaccess_dirwalker.c:901-970 | the level loop over the cache, the filter and the flattening on linked nodes, for every mask: every directive of the result is permitted at every depth and there is no IfModule anywhere; of the merged levels it has exactly what is permitted with everything around it, in order and in the same blocks, and all of it in outline where nothing is filtered; it is what fresh reads of every level would give, in nodes of its own, and the cached lists are as the lookups left them |
| `Dirwalk.OutcomeLaws` | src/htaccess_dirwalker.c:944-970 | the same of the outcome as a value |
| `Dirwalk.TrustedOnly` | src/htaccess_dirwalker.c:490-598 | a file is read exactly when it is a regular file, no link, not writable for others, not empty and within the limit |
| `Sha256.HashPieces` | src/htaccess_botcrypto.c:76-122 | for every message under 2^61 bytes in any number of pieces of any sizes the digest is the one of section 6.2.2 of FIPS 180-4 over the message padded as in section 5.1.1 |
| `Sha256.PadEnds` | src/htaccess_botcrypto.c:89-113 | the one or two last blocks are the end of the padded message |
| `Sha256.HashSnoc` | src/htaccess_botcrypto.c:76-87 | hashing block by block is the fold of the compression function |
| `Sha256.Context.Transform` | src/htaccess_botcrypto.c:42-74 | the schedule loop and the 64 rounds compute the compression function |
| `Sha256.Context.Update` | src/htaccess_botcrypto.c:76-87 | after an update the object stands for the message so far followed by the new bytes |
| `Sha256.Context.Final` | src/htaccess_botcrypto.c:89-122 | the output is the digest of everything fed in |
| `Sha256.Hmac` | src/htaccess_botcrypto.c:134-160 | the result is the definition in section 2 of RFC 2104 for keys of every length |
| `Sha256Constants.RoundConstants` | src/htaccess_botcrypto.c:16-30 | the 64 round constants are the first 32 bits of the fractions of the cube roots of the first 64 primes, in integer arithmetic |
| `Sha256Constants.InitialHash` | src/htaccess_botcrypto.c:32-40 | the initial hash value is that of the square roots of the first eight primes |
| `Sha256Constants.FirstAndLastBit` | src/htaccess_botcrypto.c:50-66 | where each of the four rotation functions sends the highest and the lowest bit |
| `Sha256Constants.Choice` | src/htaccess_botcrypto.c:63-64 | the choice function picks bit by bit |
| `Sha256Constants.Majority` | src/htaccess_botcrypto.c:65-66 | the majority function takes bit by bit what two of three agree on |
| `RegexCache.Cache.GetCached` | src/htaccess_regex.c:74-161 | the result is the compilation of exactly the requested pattern and flags, and the object stays valid with the request added to its history when it compiles |
| `RegexCache.ResidentAgain` | src/htaccess_regex.c:89-97 | asking for a resident key moves it to the front of the resident list |
| `RegexCache.ResidentNew` | src/htaccess_regex.c:138-160 | asking for another key puts it in front and drops the sixteenth |
| `RegexCache.RecentByTime` | src/htaccess_regex.c:74-161 | the list orders keys by their last request |
| `RegexCache.RecentIs` | src/htaccess_regex.c:74-161 | the list holds every requested key exactly once |
| `RegexCache.SlotsAreResident` | src/htaccess_regex.c:74-161 | the occupied slots hold exactly the sixteen most recently requested distinct keys, with distinct keys and stamps |
| `RegexCache.TouchKeepsOrder` | src/htaccess_regex.c:89-97 | a hit keeps the stamps in the order of recency |
| `RegexCache.InsertKeepsOrder` | src/htaccess_regex.c:138-160 | an insertion into an empty or the oldest slot keeps the stamps in the order of recency |
| `RegexCache.Cache.Victim` | src/htaccess_regex.c:138-156 | an empty slot while there is one, else the slot used longest ago |
| `Cidr.V4Exact` | src/htaccess_cidr.c:61-133 | for every prefix an address matches if and only if both addresses agree after division by 2^(32 - prefix), and the table entry gives the same answer |
| `Cidr.V6Exact` | src/htaccess_cidr.c:234-271 | for every prefix a 16-byte address matches if and only if both agree as 128-bit numbers after division by 2^(128 - prefix) |
| `Cidr.MaskedIs` | src/htaccess_cidr.c:61-66 | masking keeps the leading bits as a number and clears the rest |
| `Cidr.MaskIs` | src/htaccess_cidr.c:61-66 | the truncated shift of all ones is the mask with the given number of leading ones |
| `Cidr.MaskHostBits` | src/htaccess_cidr.c:234-245 | the in-place loop clears exactly the host bits |
| `Cidr.MatchV6` | src/htaccess_cidr.c:249-271 | the byte loop decides the match |
| `Cidr.TableFormSame` | src/htaccess_cidr_table.c:54-92 | with full masks the table answers as the prefix form does |
| `Cidr.BuildEntryV6` | src/htaccess_cidr_table.c:54-73 | the mask and the masked network, byte by byte |
| `Cidr.Table.AddV4` | src/htaccess_cidr_table.c:22-30 | an entry is appended, or refused exactly when the table is full |
| `Cidr.Table.AddV6` | src/htaccess_cidr_table.c:54-73 | an entry is appended, or refused exactly when the table is full or the prefix is out of range |
| `Cidr.Table.MatchV4` | src/htaccess_cidr_table.c:32-45 | the scan answers whether any entry matches |
| `Cidr.Table.MatchV6` | src/htaccess_cidr_table.c:75-92 | the nested scan answers whether any entry matches |
| `Cidr.OrderIrrelevant` | src/htaccess_cidr_table.c:113-120 | any reordering of the entries leaves every lookup as it was |
| `Durations.ParseExpiresDuration` | src/htaccess_expires.c:95-190 | the exact mathematical meaning when it is at most LONG_MAX, and -1 when it is larger or the text is malformed |
| `Durations.SumTerms` | src/htaccess_expires.c:139-189 | the loop returns the exact sum of the terms or -1, with every intermediate value inside a long |
| `Durations.OneStep` | src/htaccess_expires.c:147-182 | one term: what it adds, and that an answer is settled once the sum is too large, whatever follows |
| `Durations.Strtol` | src/htaccess_expires.c:151-154 | the numeral of any length, or the largest value and a range error |
| `Durations.DivisionGuards` | src/htaccess_expires.c:171-178 | the division test decides exactly whether the product fits |
| `DurationLaws.ListWorth` | src/htaccess_expires.c:95-190 | a written list of any number of entries, in singular or plural, is worth the sum of its entries, with 60 seconds to the minute, 60 minutes to the hour, 24 hours to the day, 30 days to the month and 365 to the year, after either base word |
| `DurationLaws.CompactWorth` | src/htaccess_expires.c:100-125 | the compact form is worth its number of seconds, for either letter in either case |

## Left out

- Shm.Store.Update: keys hold at most 49 bytes without a NUL, as both executors build them; the comparison of longer keys by their first 49 bytes is not modelled.
- BlockRoundTrip.ParsePrint: claims canonical nesting only, because the fixed priority of `src/htaccess_parser.c:3427-3484` does not rebuild other trees; `BlockSound.ParsedIsSound` covers every text.
- Merge.WalkIsDeepest: levels without inner overrides only; the first level is copied as it is and of two equal keys in one level only the first is replaced.
- EsiJoin.HoldBuffer.Splice: says nothing outside `EsiSplice.Roomy`, where the code writes past its buffer.
- Dirwalk.HtaccessDirwalk: the parser is a function whose result `Nodes.MakeList` puts into nodes; that the nodes are those of `BlockParser` is not modelled.
- System and server calls, sockets, the clock and the session are parameters: requests carry their time, files are values with metadata, and the expression evaluator gets its variables, the state of files, regex matching and address matching from the session.
- PCRE2: compiling and matching are uninterpreted; match limits appear only as an outcome.
- Leaf line formats, about a hundred of them, are one abstract syntax with a reader and a writer; a leaf is assumed to read back its own line where the round trip needs it.
- Allocation failure and NULL arguments are not modelled; of freed memory only which directive nodes are freed, as ghost sets.
- Line numbers of directives and log messages are not modelled; the strings of a directive and the expression of an If block, which nothing in the walk changes, are values, and so are their copies.
- Parked output that the caller has not drained: `EsiContext.EsiContext.Process` refuses the chunk and loses the held bytes as the code does; draining itself is the caller's.
- Trees outside the canonical nesting: the step function models them, the round trip does not claim them; `BlockRecovery` says what is kept of the files it names.
- Parsing of addresses, prefixes and rate-limit settings from text is not modelled; `Cidr` starts from numbers and bytes, `Attempts` from settings.
- Client address choice, whitelist and protected paths of the brute-force executor come before the modelled part and only decide whether it runs.
- The brute-force update of the native shared-memory store is not one locked step; `Workers` covers the rate-limit executor, whose increment is.
- Wrap-around of attempt counters and of the regex clock is not modelled; numbers there are unbounded. SHA-256 words, the hashes and expiry times have their real widths.
- The sort in `cidr_table_finalize` is any reordering; the library's sort itself is not part of this model.
- Regex objects are values: that a returned regex is freed when it is evicted later is not captured.
- Rewrite conditions with `[OR]`, the joint verdict of Require and basic authentication, the simple executors, the bot challenge around the hash, the ESI fetcher, the firewall client and the converter in `tools/` are not part of this model.
- Directory path construction and the AccessFileName and vhost-root settings of the walker: the list of paths is an input.
- The file size limit of the walker is a parameter; that slow parsing lowers it is not modelled.
