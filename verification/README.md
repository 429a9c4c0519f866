# Verified models of the native cleanup, log and test tooling

This project models the hard parts of five pieces of native tooling and proves what they
promise about every input, every run or every reachable state.

* **Source index of the duplicate-code tool** (`tools/cleanup/cpd_patterns.cpp`). `Codec` is
  the UTF-8/UTF-16 codec and `Decoding` says what its reader makes of any bytes; `Lexer` is the C++
  lexer and `LexicalGrammar` says what its tokens are. `Brackets` is the bracket matcher, `Scopes`
  the scan for the owner of a token, `Statements` the statement splitter; `Spellings` tells all three
  by the bytes of the tokens. `Positions` and `SourceSpans` map between lines, columns and tokens;
  `SourceIndexing` is the class that stacks them.
  `OrderedMaps`, `Candidates` and `Consolidation` are the insertion-ordered map and the filter
  of duplicate candidates built on it; `Acceptance` says which occurrences the filter accepts,
  `Retention` what its hits and records hold.
* **Log query** (`tools/logging/log_query_runtime.cpp`). `Queries` is the recursive-descent
  parser, `QueryValues` what words and values denote, `QueryGrammar` the language as concrete
  syntax, `QueryPrinter` a printer;
  `LineReading` is the block-wise line reader and the pre-scan for the last lines.
* **Oracle comparison attempts** (`tools/mmltk.cpp`). `Attempts` is the protocol as a
  transition system over interleaved, crashing invocations, `AttemptInvariant` and
  `AttemptFinish` what every step keeps, `AttemptReceipts` what receipts say about the programs that
  ran, `AttemptProgress` in what order they run, `AttemptRuns` what holds over whole runs; `Evidence`
  holds the two sections that run under the lock, file by file, and ties them to that system.
* **Intervals, suppressions and reports** (`tools/cleanup/review_patterns.cpp`,
  `tools/cleanup/generate_cleanup_json.cpp`). `Sweeping` is the event sweep, `Ranges` the two
  interval unions, `Suppressions` the suppression comments and `SuppressionForms` their forms,
  `Hits` their application, `Fragments` the collapsing of code fragments and `FragmentForms` what a
  fragment is.
* **Text edits and shell words** (`tools/cleanup/declaration_patterns.cpp`,
  `tools/cleanup/audit_includes.cpp`). `Splice` has both edit engines, `CommandWords` the
  command splitter and `CommandGrammar` its syntax.

`Search`, `Sorting`, `Wrappers` and `Basics` hold substring search, the stable sort, `Option` and
facts that several modules use.

## How the code is modelled

Code that works by changing things step by step is a method with loops or a class with mutable
fields, proved against a specification function or predicate; the theorems are lemmas about
that specification. Beside each specification stands a second description that does not use it, by
listed characters, literal texts, counting or a grammar, and a lemma that the two are the same.

* Bytes and UTF-16 units are bounded integers. Shifts and masks work on disjoint bit fields and
  are written as division, remainder and multiplication by powers of two. Sizes and offsets are
  unbounded; no modelled computation comes near 2^64.
* Spans of occurrences are not empty, which `sourceRange` guarantees. The event sweep needs that: it
  would open an empty span after its close and never close it (`Sweeping.EmptyMatchStays`,
  `Sweeping.EmptyCandidateStays`).
* Line numbers count from 1, as everywhere in the reports; ranges hold natural numbers.
* Sorting is insertion sort, which is stable. Where the program's sort is not, the theorem
  covers every order: equal elements cannot be told apart, or distinct starts are required.
* Code that is not modelled is a parameter: case folding, quoting, number reading, field names and
  regular expressions of a query (`Queries.Library`); which headers open a function or a record
  (`Scopes.Headers`); the JSON writer and reader of identities (`Candidates.Library`); the order of
  the locale; how many bytes a read gives at an offset (`LineReading.Reads`).
* In `Attempts` a file replacement is one step, because `oracle_record` writes a partial file and
  renames it; a manifest stands for its own hash. The children, the tests and the order of the
  invocations are arbitrary, and an invocation may die between any two steps. There is one
  checkout, hence one lock.

## Where a natural claim is false

* Reading and writing a byte string gives it back exactly when it is WTF-8: UTF-8 extended by
  encoded surrogates, a high one never before a low one (`Codec.RoundTripBytes`). For RFC 3629
  text, section 4, it always does; the byte 0xFF is lost (`Codec.InvalidByteIsLost`).
* Encoding two pieces of a text one by one gives the bytes of the text exactly when the cut splits
  no surrogate pair (`Codec.Utf8JoinsExactly`). Hence the texts of the tokens join to the bytes of
  the source exactly when every pair lies in a comment or a literal (`Lexer.TextsAreSource`); one
  that stands alone is split (`Lexer.LonePairIsSplit`).
* An occurrence of a token range whose line and column numbers JSON holds exactly
  (`Positions.SafeFields`) resolves to that range exactly when its last token contains no newline
  and neither end stands inside a surrogate pair; with other numbers it is invalid. A string or raw
  string over several lines at the end of the range fails: `occurrence` names the line where that
  token starts, and `sourceRange` refuses a column beyond the line (`Positions.RangeOfOccurrence`,
  `Positions.MultilineLiteral`).
* The root verdict is not always the verdict of the attempt that it names. With the lock free it
  is exactly when that attempt's finisher did not die between its two renames
  (`AttemptRuns.RootLagsExactlyWhenTorn`); `AttemptRuns.TornFinish` is a run in which a passed
  attempt stands under an incomplete root verdict.
* Retained and filtered occurrences of a duplicate candidate are not apart. By the input alone, the
  occurrences that the filter accepts are those of `Acceptance.Chosen`, and each of them is retained.
  An occurrence is listed in a filtered record exactly when at most one of the candidate's occurrences
  is chosen or an equal one is not (`Acceptance.ListedIs`). Hence, where no two occurrences are equal,
  a chosen one is listed as well exactly when it is the only one (`Acceptance.OnlyOneIsInBoth`). One
  that repeats a run of statements is an input of the first kind (`Acceptance.RepeatingIsInBoth`), one
  that is reported twice of the second (`Acceptance.TwinIsInBoth`).
* `commandWords` undoes quoting exactly when every word is WTF-8
  (`CommandWords.CommandWordsRoundTrip`, with the input of `CommandWords.InvalidWordIsLost`).
* `recent(0)` keeps the last line, as `recent(1)` does (`LineReading.Recent`).

## Model

| member | source | states |
|---|---|---|
| Codec.AppendUtf8 | tools/cleanup/cpd_patterns.cpp:127-136 | appends the bytes of one code point to what is there |
| Codec.FromUtf16 | tools/cleanup/cpd_patterns.cpp:310-319 | the loop writes the specification `Utf8`: surrogate pairs as one code point, isolated surrogates as three bytes |
| Codec.ToUtf16 | tools/cleanup/cpd_patterns.cpp:267-309 | the loop reads the specification `Utf16` |
| Codec.ReadHead | tools/cleanup/cpd_patterns.cpp:271-306 | one round reads the longest acceptable tail, and a replacement character for anything malformed |
| Decoding.HeadIs | tools/cleanup/cpd_patterns.cpp:271-306 | for all bytes, one round reads a written code point as its units; otherwise one replacement character stands for the longest start of one, or for one byte when none starts with it |
| Decoding.DecodedIsRead | tools/cleanup/cpd_patterns.cpp:267-309 | the whole result is that reading, round by round, and no other units are |
| Codec.ReadsBack | tools/cleanup/cpd_patterns.cpp:10-14 | reading what was written gives the units, and then whatever the bytes after them say |
| Codec.RoundTripUnits | tools/cleanup/cpd_patterns.cpp:10-14 | every unit sequence survives, isolated surrogates included |
| Codec.RoundTripBytes | tools/cleanup/cpd_patterns.cpp:267-319 | a byte string survives reading and writing if and only if it is WTF-8 |
| Codec.InvalidByteIsLost | tools/cleanup/cpd_patterns.cpp:284-287 | a byte that cannot lead comes back as the three bytes of the replacement character |
| Codec.RoundTripUtf8 | tools/cleanup/cpd_patterns.cpp:267-319 | every string of RFC 3629 section 4 survives |
| Codec.WriterOutput | tools/cleanup/cpd_patterns.cpp:310-319 | all output is WTF-8, and RFC 3629 text exactly when every surrogate is paired |
| Codec.Utf8Joins | tools/cleanup/cpd_patterns.cpp:310-319 | pieces encode separately where the cut splits no pair |
| Codec.Utf8JoinsExactly | tools/cleanup/cpd_patterns.cpp:310-319 | and only there |
| Lexer.QuotedEndScan | tools/cleanup/cpd_patterns.cpp:163-172 | the loop finds the end that `QuotedEnd` specifies |
| Lexer.QuotedIsLiteral | tools/cleanup/cpd_patterns.cpp:163-172 | a quoted literal ends at `end` if and only if what is between the delimiters is a body: no bare delimiter, no backslash without a follower |
| Lexer.RawStringScan | tools/cleanup/cpd_patterns.cpp:178-194 | the scan finds the end that `RawStringEnd` specifies |
| Lexer.RawStringIsLiteral | tools/cleanup/cpd_patterns.cpp:178-194 | a raw string ends at the first place where its own delimiter closes it |
| Lexer.ScanToken | tools/cleanup/cpd_patterns.cpp:328-383 | one round of the lexer: the branch taken, the end and the kind of the token |
| Lexer.TokenizeCpp | tools/cleanup/cpd_patterns.cpp:328-383 | the loop ends on every input and lists the tokens of `TokensFrom`, which are those of `LexicalGrammar.TokensAreTokenized` |
| LexicalGrammar.ScanIsToken | tools/cleanup/cpd_patterns.cpp:328-383 | the lexer gives (end, kind) if and only if that is the token there: a run of listed blanks; `//` up to the newline; `/*` through the first `*/`; a raw string, string or character literal; a number, a word, one of twelve two-unit operators, or one unit |
| LexicalGrammar.RawStringIs | tools/cleanup/cpd_patterns.cpp:178-194 | a raw string is found if and only if one of the five prefixes, R", a delimiter of at most 16 allowed units and its own first close stand there |
| LexicalGrammar.TokensAreTokenized | tools/cleanup/cpd_patterns.cpp:328-383 | a token list is the lexer's if and only if it cuts the source into such tokens from end to end |
| Lexer.TriviaTiles | tools/cleanup/cpd_patterns.cpp:328-383 | with trivia, tokens are non-empty, touch end to start and span the source; each is spelled as the source there |
| Lexer.RereadIsSource | tools/cleanup/cpd_patterns.cpp:328-383 | decoding and joining the texts with trivia gives the source units back |
| Lexer.TextsAreSource | tools/cleanup/cpd_patterns.cpp:328-383 | joining the texts as bytes gives the source bytes if and only if every surrogate pair lies in a comment or a literal |
| Lexer.LonePairIsSplit | tools/cleanup/cpd_patterns.cpp:328-383 | a source that is one surrogate pair alone fails |
| Lexer.SignificantTokens | tools/cleanup/cpd_patterns.cpp:328-383 | without trivia the result is that list less white space and comments |
| Lexer.SignificantEdges | tools/cleanup/cpd_patterns.cpp:328-383 | a significant token neither starts nor ends with white space |
| Brackets.PairsArePartners | tools/cleanup/cpd_patterns.cpp:535-555 | for every token list, i and j are paired if and only if j closes i by counting brackets of every kind, and both are of one kind |
| Brackets.PairsAreLaminar | tools/cleanup/cpd_patterns.cpp:535-555 | pairs are a symmetric matching of brackets of one kind, nested or disjoint |
| Brackets.BalancedIsWellFormed | tools/cleanup/cpd_patterns.cpp:535-556 | `balanced` holds if and only if the brackets are well formed, and then every bracket is paired |
| Scopes.ScopeOwners | tools/cleanup/cpd_patterns.cpp:254-265 | the one-pass stack scan gives every token the enclosing scope that opens last, -1 if and only if none encloses it |
| Scopes.OwnerIsInnermost | tools/cleanup/cpd_patterns.cpp:254-265 | for scopes from matched brackets that owner lies inside every other enclosing scope |
| Scopes.IndexFunctions | tools/cleanup/cpd_patterns.cpp:595-672 | the loop lists the functions and records of `ScopesFrom`, in the order of their braces |
| Scopes.ScopesAre | tools/cleanup/cpd_patterns.cpp:595-672 | a scope is listed if and only if it is a paired brace outside all paired round and square groups, and the header from the last `;`, closing or paired opening brace outside them up to it is accepted |
| Scopes.ScopesAreInOrder | tools/cleanup/cpd_patterns.cpp:595-672 | scopes found between matched brackets open in increasing order, as the owner scan needs |
| Spellings.WordsAreSpelled | tools/cleanup/cpd_patterns.cpp:537-542 | which bytes are brackets of which kind, semicolons and the words before a block |
| Spellings.MatchesArePartners | tools/cleanup/cpd_patterns.cpp:535-555 | pairing by counting the tokens that are spelled as brackets is pairing by symbols |
| Spellings.NestedIsWellFormed | tools/cleanup/cpd_patterns.cpp:535-556 | so is well-formedness of the spelled brackets |
| Spellings.ScopeIsSpelled | tools/cleanup/cpd_patterns.cpp:595-672 | and the condition of `Scopes.ScopesAre`, by `{`, `}`, `;`, `(` and `[` |
| Spellings.StatementIsSpelled | tools/cleanup/cpd_patterns.cpp:569-594 | and the cuts of statements, by these and by `else`, `try`, `do` and `:` before a brace |
| Statements.IndexStatements | tools/cleanup/cpd_patterns.cpp:569-594 | every token gets the interval between its two neighbouring cuts, as start and end, and all tokens of an interval agree on it |
| Statements.NoCutInGroup | tools/cleanup/cpd_patterns.cpp:579-594 | no cut falls inside a matched parenthesis, square-bracket or initializer group |
| Statements.GroupInStatement | tools/cleanup/cpd_patterns.cpp:579-594 | so the statement of any token of a group starts at or before the opening bracket and ends after the closing one |
| Positions.LineStarts | tools/support/cpp_text.cpp:42-47 | 0 and the offsets after newlines, all of them, in order |
| Positions.RangeOfOccurrence | tools/cleanup/cpd_patterns.cpp:727-741 | an occurrence resolves to its own token range if and only if its numbers are safe integers, its last token has no newline and no end splits a surrogate pair; it is invalid otherwise |
| Positions.OccurrenceIs | tools/cleanup/cpd_patterns.cpp:734-741 | an occurrence has the lines and columns that counting newlines and units before its tokens gives |
| SourceSpans.RangeIs | tools/cleanup/cpd_patterns.cpp:481-530 | for every occurrence, with or without columns, the result is (a, b) if and only if these are the offsets at its lines and columns, on existing lines, outside line terminators and surrogate pairs |
| Positions.MultilineLiteral | tools/cleanup/cpd_patterns.cpp:734-741 | a source whose only token cannot be resolved |
| SourceIndexing.SourceIndex.constructor | tools/cleanup/cpd_patterns.cpp:531-562 | the index holds units, lines, tokens, pairs, scopes, owners and statements that satisfy all of the above; pairs, balance, functions and records are told by the bytes of the tokens |
| SourceIndexing.SourceIndex.IndexPairs | tools/cleanup/cpd_patterns.cpp:535-556 | the loop over the tokens pairs i and j if and only if the bracket bytes match by counting, and reports balance if and only if they nest |
| SourceIndexing.SourceIndex.IndexScopes | tools/cleanup/cpd_patterns.cpp:557-559 | the functions and records are those of `Spellings.OpensScope`, in order, and every token has its owners |
| SourceIndexing.SourceIndex.SplitStatements | tools/cleanup/cpd_patterns.cpp:560-594 | statement starts and ends from those scopes |
| SourceIndexing.SourceIndex.OccurrencesResolve | tools/cleanup/cpd_patterns.cpp:727-741 | the round trip of `Positions.RangeOfOccurrence` for every index |
| SourceIndexing.SourceIndex.IndexIsSound | tools/cleanup/cpd_patterns.cpp:531-594 | whatever the source: the tokens are those of the grammar and read back as the source; by the bytes of the tokens, pairs are partners, balance is nesting, and every token has the statement between its two cuts; every owner lies inside all enclosing scopes, and every group inside one statement |
| OrderedMaps.OrderedMap.Find | tools/cleanup/cpd_patterns.cpp:147-150 | the place of a key, if and only if it is present |
| OrderedMaps.OrderedMap.Get | tools/cleanup/cpd_patterns.cpp:151-156 | the place of a key, added at the end when it is absent; nothing else changes |
| OrderedMaps.OrderedMap.Set | tools/cleanup/cpd_patterns.cpp:157 | a replacement keeps its place, a new key goes to the end |
| OrderedMaps.OrderedMap.Size | tools/cleanup/cpd_patterns.cpp:158-161 | the number of entries is the number of keys in the position index |
| OrderedMaps.PutLookup | tools/cleanup/cpd_patterns.cpp:141-162 | setting a key changes its value only, and the key order only by appending a new key |
| OrderedMaps.FilledIs | tools/cleanup/cpd_patterns.cpp:141-162 | filled item by item, a map has its keys in the order of first appearance, and under each key what that key's items alone leave |
| OrderedMaps.PutAllIs | tools/cleanup/cpd_patterns.cpp:141-162 | setting pairs in turn leaves the last value of every key |
| Candidates.WholeGroups | tools/cleanup/cpd_patterns.cpp:1054-1059 | the loop over the occurrences fills the groups of whole operations and records |
| Candidates.PrefixGroups | tools/cleanup/cpd_patterns.cpp:1064-1072 | likewise for function prefixes |
| Candidates.PartGroups | tools/cleanup/cpd_patterns.cpp:1079-1085 | likewise for statement parts |
| Candidates.GroupIs | tools/cleanup/cpd_patterns.cpp:1000-1016 | a key has a group if and only if its entries have at least two identities; the group lists them by first appearance, each with its last entry |
| Candidates.PrefixIsKept | tools/cleanup/cpd_patterns.cpp:1072-1077 | a prefix group is kept if and only if two of its functions differ in their parameter types |
| Candidates.Selection.Keep | tools/cleanup/cpd_patterns.cpp:1042-1053 | the accepted set and the retained hits stay those of the kept groups |
| Candidates.Selection.KeepParts | tools/cleanup/cpd_patterns.cpp:1089-1098 | the loop keeps the parts that no kept part covers |
| Candidates.PartsAreCovered | tools/cleanup/cpd_patterns.cpp:1089-1098 | every group of parts lies inside the kept ones, and no kept one inside those kept before it |
| Candidates.KeptIsSound | tools/cleanup/cpd_patterns.cpp:1054-1108 | every entry of every kept group holds its original occurrence or one of its prefixes or parts, one for each identity |
| Candidates.FilterCandidate | tools/cleanup/cpd_patterns.cpp:1039-1135 | which groups are kept, in which order, and what is filtered; every occurrence has a piece in a retained hit or is listed in a filtered record |
| Candidates.EveryOccurrenceIsAccountedFor | tools/cleanup/cpd_patterns.cpp:1038-1136 | for every occurrence some retained hit has the occurrence or a prefix or part of it, or a filtered record lists it; and hits and records hold nothing else |
| Acceptance.EntriesAre | tools/cleanup/cpd_patterns.cpp:1000-1016 | an entry stands in the group of its key if and only if no later entry has its key and identity |
| Acceptance.GroupAt | tools/cleanup/cpd_patterns.cpp:1011-1016 | there is a group for the key of an entry if and only if some entry with that key has another identity |
| Acceptance.PartIsKept | tools/cleanup/cpd_patterns.cpp:1089-1098 | a group of parts is kept if and only if some part of it lies inside no part of an earlier group, whether that one was kept or not |
| Acceptance.PartGroupsAre | tools/cleanup/cpd_patterns.cpp:1085-1088 | the groups of parts are all there, those with more tokens first |
| Acceptance.AcceptedIsChosen | tools/cleanup/cpd_patterns.cpp:1041-1108 | an occurrence is accepted if and only if one is unbalanced, or it is the last of its key and identity while its key has two identities, or it has the last prefix of a function whose key has two parameter lists, or, where these bring fewer than two, the last of some part in an uncovered group |
| Acceptance.ListedIs | tools/cleanup/cpd_patterns.cpp:1109-1135 | a chosen occurrence is retained; an occurrence is listed in a filtered record if and only if at most one is chosen or an equal occurrence is not |
| Acceptance.OnlyOneIsInBoth | tools/cleanup/cpd_patterns.cpp:1109-1135 | where no two occurrences are equal, a chosen one is both retained and listed if and only if it is the only one chosen |
| Acceptance.OnlyPieces | tools/cleanup/cpd_patterns.cpp:1042-1053 | if one occurrence alone is chosen, all retained hits are made of its pieces |
| Acceptance.RepeatingIsInBoth | tools/cleanup/cpd_patterns.cpp:1078-1135 | two occurrences of which the first repeats a run of statements: the first is in both |
| Acceptance.TwinIsInBoth | tools/cleanup/cpd_patterns.cpp:1054-1118 | one occurrence twice and another with its key: the first of the two is not accepted, so the second is in both |
| Retention.PrefixItemsAre | tools/cleanup/cpd_patterns.cpp:1064-1071 | the grouped prefixes are those of the descriptions, one occurrence after the other, each with its key, place, occurrence and parameter types |
| Retention.PartItemsAre | tools/cleanup/cpd_patterns.cpp:1079-1084 | likewise the parts, each with its token count |
| Retention.HitsAre | tools/cleanup/cpd_patterns.cpp:1042-1108 | a hit is retained if and only if it is a group of whole occurrences, of prefixes with two parameter lists, or of uncovered parts where these bring fewer than two, or holds all of an unbalanced candidate; with its pattern text, key, identities and occurrences |
| Retention.RecordIs | tools/cleanup/cpd_patterns.cpp:1109-1135 | there is no record if and only if all are chosen, at least two; otherwise one, with all occurrences and the reason of `IsReason`, or with those not chosen, in order |
| Retention.ReasonIs | tools/cleanup/cpd_patterns.cpp:1120-1131 | one identity, no executable token, at most one statement each, or else different operations, in this order |
| Candidates.RecordLists | tools/cleanup/cpd_patterns.cpp:1109-1135 | the filtered record lists an occurrence if and only if it is that of an original that was not accepted, or of any original when fewer than two were |
| Candidates.UnbalancedKeepsAll | tools/cleanup/cpd_patterns.cpp:1100-1108 | one occurrence that the index could not balance keeps them all |
| Consolidation.Consolidate | tools/cleanup/cpd_patterns.cpp:1138-1189 | the loop builds the targets of the retained hits and lists the represented ones |
| Consolidation.OneHitPerPattern | tools/cleanup/cpd_patterns.cpp:1142-1154 | one hit per pattern key, in the order of first appearance, made from that pattern's hits alone |
| Consolidation.OccurrencesAreUnion | tools/cleanup/cpd_patterns.cpp:1149-1169 | a consolidated hit has an identity if and only if one of its hits has it, with the occurrence of the hit that decides: the last one that came first with it or beat every token count before it |
| Consolidation.SomeHitDecides | tools/cleanup/cpd_patterns.cpp:1166-1169 | for every identity exactly one hit decides |
| Consolidation.IdentitiesInOrder | tools/cleanup/cpd_patterns.cpp:1149-1169 | the identities stand in the order in which the hits brought them |
| Consolidation.CountIsMax | tools/cleanup/cpd_patterns.cpp:1158-1178 | the token count is the largest of the hits, and no number when one of them has none |
| Consolidation.LinesAreMax | tools/cleanup/cpd_patterns.cpp:1173-1181 | likewise the line count; the pattern is that of the first hit |
| Consolidation.NumericIs | tools/cleanup/cpd_patterns.cpp:1160-1167 | null and false count as 0, true as 1, other fields than numbers are missing |
| Consolidation.HitsAreAccountedFor | tools/cleanup/cpd_patterns.cpp:1143-1182 | as a multiset, the retained hits are the first of each pattern and the others; the targets have the pattern keys of the first ones in order, and exactly the others are listed as represented |
| Consolidation.AllOccurrencesAreAccountedFor | tools/cleanup/cpd_patterns.cpp:1037-1137 | every occurrence of every candidate has a piece in some retained hit or is listed in a filtered record |
| Consolidation.BroughtStands | tools/cleanup/cpd_patterns.cpp:1142-1188 | whatever a retained hit has under an identity, its consolidated hit has an occurrence that was retained under the same pattern and identity |
| Consolidation.FilterCpdCandidates | tools/cleanup/cpd_patterns.cpp:1037-1190 | the report over all candidates, with and without consolidation; in both it accounts for every occurrence of every candidate |
| Queries.QueryParser.PeekWord | tools/logging/log_query_runtime.cpp:284 | whether the next token is this word, unquoted, in any case |
| Queries.QueryParser.Take | tools/logging/log_query_runtime.cpp:285-288 | takes one token or reports the end of the query |
| Queries.QueryParser.Require | tools/logging/log_query_runtime.cpp:289-292 | takes the word or fails |
| Queries.QueryParser.ParseQuery | tools/logging/log_query_runtime.cpp:293-298 | everything for no tokens, otherwise a disjunction that uses up all tokens |
| Queries.QueryParser.Disjunction | tools/logging/log_query_runtime.cpp:299-306 | the loop agrees with the specification `ParseOr` in result, position and failure |
| Queries.QueryParser.Conjunction | tools/logging/log_query_runtime.cpp:307-314 | likewise for `ParseAnd`, with implicit conjunction |
| Queries.QueryParser.PrimaryTerm | tools/logging/log_query_runtime.cpp:315-326 | likewise for `Primary`, with the depth limit |
| Queries.QueryParser.HasTerm | tools/logging/log_query_runtime.cpp:327-334 | likewise for has(field) |
| Queries.QueryParser.SearchTerm | tools/logging/log_query_runtime.cpp:335-363 | likewise for comparisons and search terms |
| Queries.QueryParser.Expectation | tools/logging/log_query_runtime.cpp:344-360 | the compared value, with the rewriting of patterns |
| QueryValues.ExpectedIs | tools/logging/log_query_runtime.cpp:344-360 | a token is compared as v if and only if it denotes v: the text in its quotes, true, false, null, the number or the word it spells; a number for an ordering, for a pattern a text that compiles |
| QueryValues.RefusedIs | tools/logging/log_query_runtime.cpp:342-360 | and refused, with which reason, if and only if it is bare punctuation, denotes nothing, is no number for an ordering, or a pattern that does not compile |
| QueryValues.NativeIsRewritten | tools/logging/log_query_runtime.cpp:348-356 | a pattern keeps its length, and a character changes if and only if it is a `Z` after an odd run of backslashes |
| QueryGrammar.ParserIsGrammar | tools/logging/log_query_runtime.cpp:293-364 | a token list parses to a tree if and only if it is the spelling of a syntax tree that means it, with the values that its tokens denote, or is empty and asks for everything: the language is exactly the grammar |
| QueryGrammar.OrParses | tools/logging/log_query_runtime.cpp:299-306 | every disjunction of the grammar is parsed where it stands, up to its end |
| QueryGrammar.OrParsed | tools/logging/log_query_runtime.cpp:299-306 | whatever is parsed as a disjunction is one of the grammar |
| QueryPrinter.PrintedParses | tools/logging/log_query_runtime.cpp:293-364 | for every tree of field tests, comparisons with every value and operator, patterns and search terms, nested at most 32 deep, parsing undoes printing and uses all tokens, with and without `and` words |
| QueryPrinter.ValueIsRead | tools/logging/log_query_runtime.cpp:51-72 | every value is read back from the token that writes it |
| LineReading.LineReader.Flush | tools/logging/log_query_runtime.cpp:523-532 | delivers the line at hand, numbered, cut and flagged |
| LineReading.LineReader.Take | tools/logging/log_query_runtime.cpp:537-547 | whatever the block, the reader holds the complete lines of all bytes taken so far and the cut rest |
| LineReading.LineReader.Finish | tools/logging/log_query_runtime.cpp:549 | a last line without a newline is delivered too |
| LineReading.Records | tools/logging/log_query_runtime.cpp:518-549 | delivers exactly the physical lines with consecutive numbers, each cut to the limit and flagged if and only if longer, whatever sizes the reads have; fails only if a read gives nothing |
| LineReading.RecordsAre | tools/logging/log_query_runtime.cpp:518-549 | record i has number first + i and the first bytes of line i, all of them up to the limit, and is flagged if and only if some are missing |
| LineReading.LinesAreLines | tools/logging/log_query_runtime.cpp:533-549 | the lines join to the text, and newlines stand only at their ends |
| LineReading.LinesAreUnique | tools/logging/log_query_runtime.cpp:533-549 | and no other split does that |
| LineReading.Recent | tools/logging/log_query_runtime.cpp:463-486 | for every block cut, reading from the new start delivers exactly the last records of the whole file, their numbers included: `n` of them, or all there are, and one when `n` is zero |
| LineReading.StartsAreLines | tools/logging/log_query_runtime.cpp:470-481 | there is one line for every start, and the text from a start on has the lines from there |
| AttemptInvariant.StepKeeps | tools/mmltk.cpp:2267-2306 | every step of every invocation keeps the invariant |
| AttemptRuns.EveryRun | tools/mmltk.cpp:2497-2533 | it holds in every state that any interleaving with crashes reaches |
| AttemptRuns.PassedMeansPassed | tools/mmltk.cpp:2280-2306 | the root names the attempt published last; a passed verdict, at the root or in an attempt, means four passed receipts of that attempt with required cases and the manifest it began with, and that the last run of each of the four programs and every wrapper after it exited with 0 |
| AttemptRuns.ReceiptsAreTold | tools/mmltk.cpp:3072-3103 | in every run, a receipt exists if and only if its program was started; it has passed if and only if that program exited with 0 after its last start and so did every wrapper since, failed if and only if one of them did not, and holds their statuses |
| AttemptRuns.FinishIsExact | tools/mmltk.cpp:2280-2306 | finishing passes an attempt if and only if all four programs passed like that and no case was selected |
| AttemptReceipts.StepTells | tools/mmltk.cpp:2511-2518 | every step, by whatever invocation, keeps that receipts tell the starts, exits and wrapper exits of their target |
| AttemptProgress.EveryoneInTurn | tools/mmltk.cpp:3067-3110 | programs run one after the other, up to the last or to a failure that stops them, and a comparison finishes after its four targets |
| AttemptProgress.TestsAreAdmitted | tools/mmltk.cpp:3027-3030 | whoever runs programs for an attempt was admitted while its verdict was incomplete and for the manifest of that moment |
| AttemptRuns.StepOnDirectory | tools/mmltk.cpp:3027-3030 | no step changes a passed attempt, nor any attempt's record of what it replaced |
| AttemptRuns.PassedIsFinal | tools/mmltk.cpp:3027-3030 | a passed attempt's verdict and receipts never change again |
| AttemptRuns.RootStep | tools/mmltk.cpp:2303-2305 | a step leaves the root alone, publishes a new attempt that keeps the root it replaces, or completes the attempt the root already names |
| AttemptRuns.PublishedGrows | tools/mmltk.cpp:2267-2279 | the list of published attempts only grows |
| AttemptRuns.SupersededForEver | tools/mmltk.cpp:2303-2305 | a superseded attempt never gets the root back, and its successor keeps the root record it left |
| AttemptFinish.FinishKeeps | tools/mmltk.cpp:2280-2306 | every step keeps: an attempt in work has no native build in its verdict, a finished one that the root does not know yet, and one whose finisher died there, has receipts under a pending root |
| AttemptFinish.RootLagsExactly | tools/mmltk.cpp:2302-2305 | in every such state the root verdict is that of the attempt it names if and only if no finisher is, or died, between the two renames |
| AttemptRuns.RootLagsExactlyWhenTorn | tools/mmltk.cpp:2302-2305 | in every reachable state with the lock free, that is if and only if the attempt's finisher did not die there |
| AttemptRuns.TornFinish | tools/mmltk.cpp:2302-2305 | a run in which that happens |
| Evidence.EvidenceDirectory.BeginOracleAttempt | tools/mmltk.cpp:2267-2279 | the files after beginning: the copied root, the attempt's record and the root record, or nothing if the identity exists |
| Evidence.EvidenceDirectory.FinishOracleAttempt | tools/mmltk.cpp:2280-2306 | the files after finishing: the attempt's verdict over its four receipts, and the root only where it still names the attempt |
| Evidence.BeginSection | tools/mmltk.cpp:2497-2499 | the three steps of a begin section in the protocol have the effect of that method |
| Evidence.FinishSection | tools/mmltk.cpp:2523-2525 | likewise for a finish section |
| Sweeping.SweepFile | tools/cleanup/review_patterns.cpp:163-182 | the loop with its active sets and counters is the fold `SweptAll` |
| Sweeping.FileSwept | tools/cleanup/review_patterns.cpp:163-182 | in one file, a candidate gets an id if and only if an occurrence of that match overlaps it |
| Sweeping.EventsByPath | tools/cleanup/review_patterns.cpp:150-162 | every file with a candidate has the events of all its spans |
| Sweeping.AssociateRawMatches | tools/cleanup/review_patterns.cpp:143-184 | candidate i gets exactly the ids of the matches with an occurrence in its file whose half-open span overlaps its own |
| Sweeping.EmptyMatchStays | tools/cleanup/review_patterns.cpp:164-165 | an empty match before a candidate would count as overlapping |
| Sweeping.EmptyCandidateStays | tools/cleanup/review_patterns.cpp:164-165 | so would an empty candidate before a match |
| Ranges.MergeOverlappingRanges | tools/cleanup/generate_cleanup_json.cpp:821-831 | the result is the merge of the ranges |
| Ranges.MergedIsMerge | tools/cleanup/generate_cleanup_json.cpp:821-831 | for well-formed ranges in any order: strictly ordered, disjoint, the same lines, and two neighbouring lines in one range if and only if an input range holds both |
| Ranges.MergeIsUnique | tools/cleanup/generate_cleanup_json.cpp:821-831 | nothing else has these properties |
| Ranges.MergingIsIdempotent | tools/cleanup/generate_cleanup_json.cpp:821-831 | merging again changes nothing |
| Ranges.MergingIgnoresOrder | tools/cleanup/generate_cleanup_json.cpp:821-831 | order and repetition of the ranges do not matter |
| Ranges.UnionLines | tools/cleanup/review_patterns.cpp:128-142 | the count is the number of distinct lines, file by file, that the occurrences cover |
| Ranges.MergedLengthIsUnion | tools/cleanup/generate_cleanup_json.cpp:821-831 | in one file, the merged ranges have that total length |
| Suppressions.MarkersRead | tools/cleanup/generate_cleanup_json.cpp:1094-1136 | the three markers with a reason are recognised with exactly that reason, whatever blanks surround it and the prefix |
| Suppressions.CommentsAreInSource | tools/cleanup/cpd_patterns.cpp:384-389 | the comments of a C++ source stand in source order, and their texts are the source at their places |
| SuppressionForms.MarkerIs | tools/cleanup/generate_cleanup_json.cpp:1094-1144 | a comment is a marker if and only if it has one of five forms: after two slashes and blanks a prefix with a reason on one line, or a terminator that no word unit follows |
| SuppressionForms.TargetIs | tools/cleanup/generate_cleanup_json.cpp:1117-1128 | an ignoring comment speaks of its own line when something stands before it there, otherwise of the first later line with code |
| SuppressionForms.MarksAre | tools/cleanup/generate_cleanup_json.cpp:1112-1148 | the marks are those of the comments with a marker, in order, each with its line and the line it speaks of |
| SuppressionForms.EntriesAre | tools/cleanup/generate_cleanup_json.cpp:1129-1151 | the suppressions are those of the single markers and of the closed regions, in order, with lines, reason and detectors: a CPD region is for that detector alone |
| SuppressionForms.ScanFails | tools/cleanup/generate_cleanup_json.cpp:1140-1147 | the scan fails if and only if a region opens inside another one or a terminator closes none of its family, and reports that line |
| SuppressionForms.ErrorIs | tools/cleanup/generate_cleanup_json.cpp:1140-1159 | every error names the line of such a marker, of a region left open, or of the later of two suppressions that meet |
| Suppressions.NextCode | tools/cleanup/generate_cleanup_json.cpp:1119-1127 | a marker alone on its line ignores the first later line that is neither blank nor a comment, or the place after the last line |
| Suppressions.ParseComments | tools/cleanup/generate_cleanup_json.cpp:1112-1159 | the loop over comments in source order reports what the specification `Parsed` says of their markers |
| Suppressions.ParseInlineSuppressions | tools/cleanup/generate_cleanup_json.cpp:1087-1160 | for every C++ source: the report on the comments that its lexer finds |
| Suppressions.ParserAccepts | tools/cleanup/generate_cleanup_json.cpp:1112-1159 | markers are accepted if and only if regions pair up by family without nesting and all suppressions are pairwise disjoint; the list is then all of them in order, each ending before the next starts |
| Suppressions.ScanKnows | tools/cleanup/generate_cleanup_json.cpp:1137-1151 | a scan without error has every region closed but the one it holds open |
| Suppressions.OpenAtScans | tools/cleanup/generate_cleanup_json.cpp:1137-1151 | and any markers like that are scanned without error |
| Suppressions.FoundIsEntries | tools/cleanup/generate_cleanup_json.cpp:1116-1151 | the scan finds each single line and each closed region once |
| Suppressions.SourceAccepted | tools/cleanup/generate_cleanup_json.cpp:1087-1160 | for every C++ source and its own comments: accepted if and only if regions pair up and suppressions are pairwise disjoint; the list is then all of them, in order |
| Hits.MakeHit | tools/cleanup/generate_cleanup_json.cpp:849-876 | one file per path, its ranges sorted or merged, the number of occurrences and the kind |
| Hits.FirstMatchIsOnly | tools/cleanup/generate_cleanup_json.cpp:1171-1180 | in an accepted list the first match is the only suppression that covers the range |
| Hits.SplitHit | tools/cleanup/generate_cleanup_json.cpp:1164-1189 | the loops split a hit's ranges into suppressed and kept ones |
| Hits.ApplyInlineSuppressions | tools/cleanup/generate_cleanup_json.cpp:1161-1199 | the suppressed list, and every hit with at least two unsuppressed ranges rebuilt from exactly these |
| Hits.RangesAreConserved | tools/cleanup/generate_cleanup_json.cpp:1161-1199 | the input ranges are, as a multiset, the suppressed ones, those of the remaining hits, and the leftovers of dropped hits |
| Hits.SuppressedByCover | tools/cleanup/generate_cleanup_json.cpp:1161-1190 | under accepted lists a range is suppressed by a suppression if and only if that one is for the detector and has the range's first line, or the whole range |
| Hits.KeptAre | tools/cleanup/generate_cleanup_json.cpp:1164-1189 | a range is kept, as often as it stands, if and only if no suppression hides it |
| Hits.RetainedAre | tools/cleanup/generate_cleanup_json.cpp:1191-1197 | a hit is retained, as often as it stands, if and only if at least two of its ranges are kept |
| Fragments.FragmentScan | tools/cleanup/generate_cleanup_json.cpp:473-493 | the inner scan finds the end of a complete fragment or none |
| Fragments.FragmentPlaceholders | tools/cleanup/generate_cleanup_json.cpp:467-504 | the loop writes the specification `CollapsedFrom` |
| Fragments.CollapsesComplete | tools/cleanup/generate_cleanup_json.cpp:467-504 | for every body, exactly the complete fragments are replaced, each the first one after the one before |
| FragmentForms.CompleteIs | tools/cleanup/generate_cleanup_json.cpp:473-493 | the scan accepts a span if and only if it is an opening tag, CDATA sections, entities and plain characters, and the closing tag |
| FragmentForms.EntityIs | tools/cleanup/generate_cleanup_json.cpp:422-429 | an entity is one of the five names or a decimal or hexadecimal reference, in any case |
| FragmentForms.OutputIs | tools/cleanup/generate_cleanup_json.cpp:467-504 | for every body, the output is the body with each such span, the first one after the one before, written as a placeholder |
| Fragments.ReportCollapses | tools/cleanup/generate_cleanup_json.cpp:467-504 | from any place on, markup pieces and complete fragments give the pieces joined by placeholders |
| Fragments.PayloadsDoNotMatter | tools/cleanup/generate_cleanup_json.cpp:467-504 | whatever the CDATA payloads contain, as long as each ends at its first end marker (XML 1.0, section 2.7) |
| Splice.SpliceForward | tools/cleanup/declaration_patterns.cpp:570-581 | sorting and copying writes the specification, or reports an overlap |
| Splice.CollectedInOrder | tools/cleanup/declaration_patterns.cpp:570 | edits are taken by start, then by end, and otherwise as they were collected |
| Splice.CopiesInTurn | tools/cleanup/declaration_patterns.cpp:573-581 | copying succeeds if and only if every edit starts after the ones before it end |
| Splice.OverlapReported | tools/cleanup/declaration_patterns.cpp:570-576 | an overlap is reported if and only if two of the collected edits overlap, wherever they stand in the list |
| Splice.SpliceBackward | tools/cleanup/audit_includes.cpp:559-561 | replacing in place from the last edit on writes its specification |
| Splice.BothSubstitute | tools/cleanup/declaration_patterns.cpp:570-581 | for edits that are pairwise apart with distinct starts both engines write the simultaneous substitution, so both agree |
| Splice.BytesOfCopy | tools/cleanup/declaration_patterns.cpp:573-581 | encoding every slice on its own gives the bytes of the substituted text when edits keep surrogate pairs together |
| CommandWords.CommandWords | tools/cleanup/audit_includes.cpp:160-189 | the loop computes the specification, with both errors |
| CommandGrammar.SplitIsGrammar | tools/cleanup/audit_includes.cpp:160-189 | for every text, the split is r if and only if the text is a line of bare, escaped and quoted pieces between blanks that means r: its words, or the error of what it leaves open |
| CommandWords.UnitLineSplits | tools/cleanup/audit_includes.cpp:160-189 | every list of words, quoted and joined by spaces, splits into itself, as code units |
| CommandWords.CommandWordsRoundTrip | tools/cleanup/audit_includes.cpp:160-189 | as bytes, it does if and only if every word is WTF-8 |
| CommandWords.InvalidWordIsLost | tools/cleanup/audit_includes.cpp:160-189 | a word of the byte 0xFF does not come back |

## Left out

- Scopes.ScopesAre: which headers open a function or a record is a parameter, because the program
  reads names, keywords and parameter lists for that.
- Queries.QueryParser.ParseQuery: that a query is refused is exact, and so is the reason for which a
  value is; which other error is reported is fixed by the specification functions alone.
- Suppressions.ParseInlineSuppressions: covers C++ sources, because the comments of a Rust source are
  found by a scan of their own; `Suppressions.ParseComments` covers any comments in source order.
* Comments of Rust sources (`tools/cleanup/cpd_patterns.cpp:390-476`), parameter lists, local
  names, bindings and the construction of keys and identities: the filter takes descriptions of
  occurrences as given.
* The grouping of occurrences by path before they are described, which only keeps one file's
  index in memory at a time, and the tally of reasons.
* Maps inside maps of the candidate filter are values that are stored back, not references;
  counts are integers or no number, so rounding of counts above 2^53 is not modelled.
* The tokenizer of queries with its limit of 512 tokens, the evaluation of expressions, and the
  texts of error messages.
* Replacement of invalid bytes in log lines, messages that span lines, the branch for whole
  `.json` files and the checks that a log file did not change.
* Docker, builds, processes and signals of the test wrapper: a test program ends with any status
  at any time; a child cannot outlive the lock of its parent's sections.
* The check of the native build's configuration and of the executable's hash around a test
  program (`tools/mmltk.cpp:3084-3086`, `tools/mmltk.cpp:3099`), which can only stop an invocation.
* The parsing of report XML around the collapsed fragments, and the shared directory that a hit shows.
* The order of files whose paths the locale does not tell apart.
* The rule that a suppression is used by the ranges of one start line only
  (`tools/cleanup/generate_cleanup_json.cpp:1200-1209`).
* How declarations and includes are chosen for rewriting; the engines take edits as given.
* Rendering of reports, option parsing and help text.
