# A verified model of the Haystack library

This Dafny project models the parts of the Python library `hs_py` where protocols, codecs and graphs
meet, and proves what they are for. `dafny verify dfyconfig.toml` checks all of it (Dafny 4.11).

Code that computes a value is a function; code that moves a cursor, fills a list or updates an object is
a method or a class, proved against a function of its input or of its old state. The theorems are lemmas
about those functions, over all inputs or all runs.

| files | what they model |
|---|---|
| `Results`, `Text`, `Kinds`, `Entities` | results, text positions and numerals, Haystack values and grids, entities as tag dicts |
| `WsCodec`, `ChunkAssembler` | binary frames, per-chunk compression, and the object that reassembles chunks per request id and op |
| `Scanner`, `Zinc`, `ZincScalars`, `ZincRoundTrip`, `ZincGrid`, `ZincGridRoundTrip` | the Zinc text format: position-based scanners, encoder, grid reader and writer, and the round trips |
| `ZincSpelling`, `ZincGridSpelling`, `ZincSound`, `ZincRefusals` | Zinc text of other writers: any legal spelling of values and grids, what is accepted at all, and what is refused |
| `FilterLexer`, `FilterRefusals`, `FilterParser`, `FilterGrammar`, `FilterPrinting`, `FilterLayout` | the filter language: tokenizer, recursive-descent parser with its depth counter, the grammar it accepts, a printer with the fewest parentheses (the library has none), and the round trips |
| `FilterEval`, `ValueEquality` | the filter evaluator: comparisons, paths through refs, scans |
| `Defs`, `IsGraph`, `Namespace`, `Taxonomy`, `Normalize`, `Reflect` | the ontology: the name index, walks along `is`, the namespace with its indexes and memos, inherited tags, the compiler and its checks, reflection |
| `Watch` | watch deltas: the server's diff and the client's merge |
| `Json`, `JsonDecode`, `JsonRoundTrip`, `JsonSound` | Haystack 4 JSON: the recursive encoder, the fast path through the serializer's hook, the decoder |
| `WsClient`, `WsReplies` | request correlation over a WebSocket: ids, pending futures, batches, timeouts, lost connections, and what JSON replies do |
| `Redis`, `Memory`, `MemoryWatch` | stored entities behind tag indexes, the narrowed and the fast reads, watch subscriptions |
| `ScramText`, `Scram`, `ScramServer`, `ScramLogin` | SCRAM-SHA-256 (RFC 5802, RFC 7677): messages and headers, both sides of the exchange, the server's tables, a whole login |
| `Csv` | CSV export, and a reader for the format of section 2 of RFC 4180 |

Some laws hold only under a condition, and some fail for inputs the code accepts. In those cases the code is
kept as it is, a lemma states exactly when the law holds, and a further lemma gives a concrete input where it
does not:

| the law | holds exactly when | fails for |
|---|---|---|
| a redelivered transfer gives its payload | `ChunkAssembly.ToleratedExactly`: what is left over is a slice of it | `ChunkAssembly.WrongPayload` |
| a call ends by its own reply | `WsClient.StartOrphansExactly`: no call 2^32 later while it waits | `WsClient.WrapOverwrites` |
| a compiled namespace is a partial order | `Normalize.AntisymmetricExactly`: no bare-name alias loops | `Normalize.AliasCycleMissed` |
| subtypes list their parent | `Namespaces.SubtypesListParent`: aliases are current | `Namespaces.StaleSubtype` |
| the narrowed read is the full scan | `Redis.DereferencesExactly`, `Redis.ConjunctionReadsExactly`: dereferenced entities are candidates | `Redis.DereferenceLosesMatches` |
| tag sets are exact after a load | `Redis.LoadedExactly`: no row loses a tag | `Redis.LoadLeavesStale` |
| the tag set answers as a scan | `Memory.FastPathExact`: carried tags are kept | `Memory.DroppedTagRead` |
| a grid survives Zinc | `ZincGridRoundTrip.GridRoundTrip`: no newline in a uri | `ZincGridRoundTrip.NewlineLost` |
| a value survives JSON | `JsonRoundTrip.RoundTrip`: no `_kind` tag | `JsonRoundTrip.KindTagLost` |
| a client has the server's rows | `Watch.DeltaCycle`: a row was sent or the display name is the old one | `Watch.DisplayNameNotSent` |
| an honest SCRAM exchange completes | `Scram.HonestBounds`: salt and iterations in bounds, with SHA-256 | `Scram.Sha512Refused` |

Notes on faithfulness, where the code and a first reading of it differ:

- A limit below one still returns one row, because both adapters append before they compare
  (`src/hs_py/storage/memory.py:176-181`, `src/hs_py/storage/redis.py:506-510`).
- The ref pattern ends in `$`, which also matches before a final newline (`src/hs_py/kinds.py:156`); the JSON
  decoder's check has this too.
- The server knows SHA-256 only, and the client checks the server's signature with SHA-256 whatever hash the exchange
  used (`src/hs_py/auth.py:223-226`); an exchange with SHA-512 does not get that far (`Scram.Sha512Refused`).

## Model

| member | source | states |
|---|---|---|
| WsCodec.OpCodesInvert | src/hs_py/ws_codec.py:94-112 | The op table and the table of codes are inverse to each other and every code fits in a byte. |
| WsCodec.CodesOnTheWire | src/hs_py/ws_codec.py:94-112 | The codes on the wire are 1 to 4 and 10 to 18, for the ops in the listed order. |
| WsCodec.HeaderReadsBack | src/hs_py/ws_codec.py:169-185 | Flags, request id, op and body of a packed header are read back whatever follows it. |
| WsCodec.SingleFrameRoundTrip | src/hs_py/ws_codec.py:169-297 | Encoding succeeds exactly when flags and id fit their fields and the algorithm, if one is used, is known; decoding then returns the same id, op and payload, with the compressed bit set exactly when the payload was packed. |
| WsCodec.FrameRefusedExactly | src/hs_py/ws_codec.py:256-297 | A frame is refused exactly for a short header, an unknown op, or a packed payload without a known algorithm byte or that does not unpack; a chunk frame keeps its body as it came. |
| WsCodec.ChunkedFramesSucceed | src/hs_py/ws_codec.py:317-363 | Chunked encoding succeeds exactly when the op is known, flags, id and chunk count fit, and the algorithm is known. |
| WsCodec.EncodeChunkedFrames | src/hs_py/ws_codec.py:317-363 | The loop over the chunks produces the list of frames defined frame by frame from the slices, and stops at the first field that does not fit. |
| WsCodec.ChunkFrameReadsBack | src/hs_py/ws_codec.py:300-363 | Each chunk frame decodes to its own id and op and to its own index, total and slice, compressed or not. |
| WsCodec.ChunkRefusedExactly | src/hs_py/ws_codec.py:300-313 | A chunk is refused exactly for a short header or, if packed, for the same two reasons. |
| WsCodec.JoinSlices | src/hs_py/ws_codec.py:337-346 | The slices in index order join to the payload, an empty payload and a short last slice included. |
| ChunkAssembly.ChunkAssembler.Feed | src/hs_py/ws_codec.py:383-435 | The object that updates its buffers in place returns, and is left with, what the transition function on its abstract contents says. |
| ChunkAssembly.FeedExactly | src/hs_py/ws_codec.py:412-435 | A chunk touches no other buffer; its own waits while it holds another number of chunks than announced, and with that number it is gone: with its payload if it has every index, and with the gap error otherwise. |
| ChunkAssembly.ChunkAssembler.Cleanup | src/hs_py/ws_codec.py:437-444 | Key by key: a buffer stays, unchanged, exactly when it is no older than the lifetime. |
| ChunkAssembly.AssembledOnlyFromDelivered | src/hs_py/ws_codec.py:383-444 | Safety over every run of arbitrary frames and sweeps: any payload that comes out is the in-order join of exactly one chunk per index 0..total-1, where total is what the chunk that opened the buffer announced; each of them was delivered under the same id and op, no earlier than that chunk; and no sweep since then came more than the lifetime after it. |
| ChunkAssembly.Reassembly | src/hs_py/ws_codec.py:317-435 | For any payload, op, id, chunk size and compression, in any order, with duplicates, interleaved with frames of other ids and ops and with sweeps within the lifetime, from no buffer or from one that holds slices of the same payload: nothing is returned until the last missing index arrives, and then exactly the payload, and the buffer is gone. |
| ChunkAssembly.MixedReassembly | src/hs_py/ws_codec.py:406-435 | The same delivery onto any unfinished buffer of the same total: quiet until the indices are complete, and then the slices delivered with, at the other indices, what was left over. |
| ChunkAssembly.ToleratedExactly | src/hs_py/ws_codec.py:406-435 | Every such delivery gives back the payload exactly when all the chunks left over are slices of it. |
| ChunkAssembly.LateDuplicate | src/hs_py/ws_codec.py:412-435 | A frame that arrives again after completion: with more than one chunk it opens a new buffer with just that slice, with one chunk the whole payload is returned a second time. |
| ChunkAssembly.WrongPayload | src/hs_py/ws_codec.py:412-435 | A concrete run where such a buffer mixes two transfers: after [1, 2], a duplicate of its first chunk and the second chunk of [3, 4], the result is [1, 4]. |
| Scanner.ScanVal | src/hs_py/encoding/scanner.py:299-343 | The position-moving scanner returns the value, end position or error that the recursive specification of the text gives, for every text, position and depth. |
| Scanner.ScanStr | src/hs_py/encoding/scanner.py:346-387 | The loop over escapes agrees with the specification of a quoted string, its length limit and its errors included. |
| Scanner.ScanRef | src/hs_py/encoding/scanner.py:390-408 | A ref with an optional quoted display name, as specified. |
| Scanner.ScanSymbol | src/hs_py/encoding/scanner.py:411-422 | A symbol, as specified; an empty one is an error. |
| Scanner.ScanUri | src/hs_py/encoding/scanner.py:425-450 | The loop over a backquoted uri agrees with its specification. |
| Scanner.ScanList | src/hs_py/encoding/scanner.py:453-475 | The item loop agrees with the specification of a list: separators, missing items, size limit. |
| Scanner.ScanDict | src/hs_py/encoding/scanner.py:478-510 | The tag loop agrees with the specification of a dict: bare names as markers, repeated names overwriting, size limit. |
| Scanner.ScanNumber | src/hs_py/encoding/scanner.py:541-580 | Sign, digits, underscores and unit, as specified. |
| Scanner.ScanTagName | src/hs_py/encoding/scanner.py:583-593 | The longest run of identifier characters. |
| Scanner.ScanKeyword | src/hs_py/encoding/scanner.py:596-640 | Keywords, coordinates and extended strings, as specified. |
| Scanner.ScanCoordBody | src/hs_py/encoding/scanner.py:648-663 | A coordinate body, with its range check. |
| Zinc.EscapeStr | src/hs_py/encoding/scanner.py:258-274 | The loop that escapes a text yields the character-by-character escape. |
| ZincScalars.StrReads | src/hs_py/encoding/scanner.py:258-387 | Unescaping undoes escaping for every text within the length limit. |
| ZincScalars.UriReads | src/hs_py/encoding/zinc.py:209-211 | Scanning an encoded uri gives the uri, escaped backquotes and backslashes included. |
| ZincScalars.NumberReads | src/hs_py/encoding/scanner.py:223-252 | Scanning a formatted whole number gives its value and unit, and is never taken for a date or a time. |
| ZincScalars.RefReads | src/hs_py/encoding/scanner.py:277-288 | Scanning a formatted ref gives its id and display name. |
| ZincScalars.CoordReads | src/hs_py/encoding/zinc.py:160-202 | Scanning an encoded coordinate gives both degrees. |
| ZincScalars.XStrReads | src/hs_py/encoding/zinc.py:160-202 | Scanning an encoded extended string gives its type and text. |
| ZincRoundTrip.ValueReads | src/hs_py/encoding/zinc.py:160-243 | For every nested scalar, list and dict the text can carry, at any position before any legal delimiter and at any starting depth: the scanner returns the value and its exact end position if the nesting stays within the limit, and the depth error otherwise. |
| ZincSpelling.FormReads | src/hs_py/encoding/scanner.py:299-510 | Any legal spelling of a value is read as what it means: escapes of any character, `\u` in upper or lower case, underscores and zero fractions in numbers, blanks and optional commas between items, repeated and bare tags. |
| ZincSpelling.UnicodeReads | src/hs_py/encoding/scanner.py:346-387 | Four hexadecimal digits in either case are read as their code point, or as the error for surrogates. |
| ZincSpelling.CharsLex | src/hs_py/filter/lexer.py:174-205 | The tokenizer of filters reads every such spelling of a text as the same text. |
| ZincSpelling.UnclosedReads | src/hs_py/encoding/scanner.py:453-510 | A list that the text ends in without its bracket is read like one with it. |
| ZincSpelling.UnbracedReads | src/hs_py/encoding/scanner.py:478-510 | A dict that the text ends in without its brace is read like one with it. |
| ZincSpelling.XStrSpelled | src/hs_py/encoding/scanner.py:596-640 | An extended string in any spelling of its text, with its parenthesis or without. |
| ZincSpelling.CoordSpelled | src/hs_py/encoding/scanner.py:648-663 | A coordinate in any spelling of its degrees: read exactly when both are in range, and otherwise the range error. |
| ZincSpelling.UnknownWord | src/hs_py/encoding/scanner.py:596-640 | A word that is no keyword is read as its own text. |
| ZincSound.ScannedSane | src/hs_py/encoding/scanner.py:299-640 | Soundness for every text: what is scanned has legal ids, names, units and degrees, unique tag names, and stays within the length, size and depth limits. |
| ZincRefusals.NumberSpelled | src/hs_py/encoding/scanner.py:541-580 | Whatever is read as a number is spelled as one: sign, digits, perhaps a point and zeros, no exponent, and the rest up to the next stop character as its unit. |
| ZincRefusals.OddRefused | src/hs_py/encoding/scanner.py:299-343 | A character that starts no value is refused with its position. |
| ZincGrid.ParseVerLine | src/hs_py/encoding/zinc.py:246-270 | The loop over the version line agrees with its specification. |
| ZincGrid.ParseColsLine | src/hs_py/encoding/zinc.py:273-315 | The loops over columns and their metadata agree with their specification. |
| ZincGrid.ParseRowLine | src/hs_py/encoding/zinc.py:318-345 | The loop over cells agrees with its specification, whose meaning is ZincGridSpelling.LineReads: missing cells, null cells, extra cells. |
| ZincGrid.DecodeGrid | src/hs_py/encoding/zinc.py:116-152 | The line loops agree with the specification of a decoded grid, whose meaning is ZincGridSpelling.SpelledGridReads: blank lines, size limits, the bare `empty` line. |
| ZincGrid.EncodeGrid | src/hs_py/encoding/zinc.py:79-113 | The encoding loops produce the text defined line by line. |
| ZincGridRoundTrip.GridRoundTrip | src/hs_py/encoding/zinc.py:79-152 | Decoding an encoded grid gives the grid with its rows restricted to the columns and null cells dropped, exactly when no uri in the metadata or in a printed cell holds a newline; with no column, or the single bare column `empty`, only the metadata comes back. Tags that no column prints may be anything. |
| ZincGridRoundTrip.DecodedOneLine | src/hs_py/encoding/zinc.py:116-152 | No text decodes to a grid with a newline in a uri. |
| ZincGridRoundTrip.NewlineLost | src/hs_py/encoding/zinc.py:209-211 | A concrete grid, with one cell that is a uri of one newline, which does not come back. |
| ZincGridSpelling.LineReads | src/hs_py/encoding/zinc.py:318-345 | A data line is read as the row seen through the columns without its nulls, for any spelling of the cells and any choice, per null cell, of writing it or leaving it empty; the line may stop before the last columns or go on after them. |
| ZincGridSpelling.RestrictedHolds | src/hs_py/encoding/zinc.py:318-345 | What that row holds: under the name of each column its cell, and nothing else. |
| ZincGridSpelling.SpelledGridReads | src/hs_py/encoding/zinc.py:116-152 | Any text whose lines, blank ones apart, spell a version line, a column line (tags, display names in quotes) and such data lines decodes to the metadata, the columns and those rows. |
| ZincRefusals.DecodedSane | src/hs_py/encoding/zinc.py:116-152 | Soundness for every text: a decoded grid is within the row and column limits, and no row has a null, a repeated tag or a tag that is not a column. |
| ZincRefusals.VersionNeeded | src/hs_py/encoding/zinc.py:246-250 | A text whose first line is not a version line is refused. |
| FilterLexer.Lexer.Tokenize | src/hs_py/filter/lexer.py:88-148 | The cursor loop returns the token list that the specification of the next token gives from the start of the text. |
| FilterLexer.Lexer.ScanNumber | src/hs_py/filter/lexer.py:263-299 | Digits, fraction, exponent and unit behind a cursor, as specified. |
| FilterParser.Parser.CondOr | src/hs_py/filter/parser.py:92-98 | The loop over `or` builds the left-associated tree of the grammar. |
| FilterParser.Parser.CondAnd | src/hs_py/filter/parser.py:100-106 | The loop over `and` builds the left-associated tree of the grammar. |
| FilterParser.Parser.Term | src/hs_py/filter/parser.py:108-134 | Parentheses, `not`, comparisons and bare paths, as the grammar has them; the depth counter is restored on success. |
| FilterParser.Parser.Parse | src/hs_py/filter/parser.py:83-90 | The whole token list must be consumed; what is left over is reported at its position. |
| FilterParser.Parse | src/hs_py/filter/parser.py:57-69 | Length check, tokenizer and parser together are the parsing function the round trip is about. |
| FilterGrammar.ParsesExactly | src/hs_py/filter/parser.py:83-184 | On any token list that ends in EOF the parser accepts exactly the token lists of the grammar with parentheses nested at most 50 deep, and returns their tree; redundant parentheses included. |
| FilterGrammar.SyntaxParses | src/hs_py/filter/parser.py:83-184 | Deeper nesting gives the nesting error. |
| FilterPrinting.ParseTokens | src/hs_py/filter/parser.py:83-184 | The tokens of any tree, printed with the fewest parentheses, parse back to it: `and` binds tighter than `or` and both associate to the left. More than 50 nested parentheses give the nesting error instead. |
| FilterPrinting.FewestParens | src/hs_py/filter/parser.py:83-134 | The printer nests parentheses no deeper than any other way to write the same tree. |
| FilterLayout.TokenizeLayout | src/hs_py/filter/lexer.py:88-312 | Well-formed tokens spelled out with any legal spacing between them tokenize to themselves and the end token. |
| FilterRefusals.NumberSpelled | src/hs_py/filter/lexer.py:263-299 | Whatever the tokenizer takes for a number is spelled as one, without an exponent. |
| FilterRefusals.OddRefused | src/hs_py/filter/lexer.py:88-148 | A character that starts no token is refused with its position. |
| FilterLayout.RoundTrip | src/hs_py/filter/parser.py:57-184 | For every tree and every legal spacing within the length limit: parsing its text gives the tree back if its parentheses nest at most 50 deep, and the nesting error otherwise. |
| FilterLayout.SyntaxRoundTrip | src/hs_py/filter/parser.py:57-184 | The same for any syntax, with parentheses wherever the writer likes: its tree, or the nesting error exactly beyond depth 50. |
| FilterLayout.ParsedIsGrammatical | src/hs_py/filter/parser.py:57-184 | Conversely, whatever text parses is within the length limit and its tokens are those of some syntax of the tree. |
| FilterLayout.PrintRoundTrip | src/hs_py/filter/parser.py:57-184 | The same for the printer with single spaces. |
| FilterEval.ResolvePath | src/hs_py/filter/eval.py:130-153 | The walk over the names of a path, through refs and a resolver, agrees with its recursive specification. |
| FilterEval.SingleSegmentsLocal | src/hs_py/filter/eval.py:79-110 | A filter without dereferences evaluates the same under any resolver. |
| FilterEval.ResolveNarrowed | src/hs_py/filter/eval.py:130-153 | A resolver that knows only some entities: the walk finds what the full walk finds, or nothing; the two agree exactly when the full walk fails or dereferences only known entities. |
| FilterEval.EvalNarrowed | src/hs_py/filter/eval.py:79-110 | So a filter evaluates through it as through the full one with every path that leaves the known entities leading nowhere. |
| FilterEval.ConjunctionKnown | src/hs_py/filter/eval.py:79-110 | Tags and comparisons joined by `and` hold through it exactly when they hold through the full one and none of their walks leaves the known entities. |
| FilterEval.PositiveLosesOnly | src/hs_py/filter/eval.py:79-110 | A filter without `missing` selects no more through it than through the full one. |
| FilterEval.NumbersCompare | src/hs_py/filter/eval.py:156-190 | The six comparisons of finite numbers: by value whatever the units, equal only with the same unit. |
| FilterEval.TextOrder | src/hs_py/filter/eval.py:177-190 | One text is less than another exactly when they agree up to a place where it ends or has the smaller character. |
| FilterEval.TextTrichotomy | src/hs_py/filter/eval.py:177-190 | Texts are totally ordered: any two are equal or ordered one way only. |
| FilterEval.TextTransitive | src/hs_py/filter/eval.py:177-190 | The order of texts is transitive. |
| FilterEval.TextsCompare | src/hs_py/filter/eval.py:156-190 | The six comparisons of texts agree with that order and with each other. |
| FilterEval.RefCompares | src/hs_py/filter/eval.py:168-176 | A ref literal equals exactly the refs with its id, whatever their display names, and is ordered with nothing. |
| FilterEval.NamesCompare | src/hs_py/filter/eval.py:156-190 | Symbol and uri literals equal themselves only and are ordered with nothing. |
| FilterEval.TextCompares | src/hs_py/filter/eval.py:156-190 | A text literal equals itself only and is ordered with texts only. |
| FilterEval.NumberCompares | src/hs_py/filter/eval.py:156-190 | A number literal, finite or infinite, equals exactly the number of its value and unit, is totally ordered with whatever has a number, and with nothing else. |
| FilterEval.BoundsCompare | src/hs_py/filter/eval.py:156-190 | INF and -INF are the ends of that order, and its finite part is the order of the integers. |
| FilterEval.NaNCompares | src/hs_py/filter/eval.py:156-190 | NaN equals nothing, itself included, and is ordered with nothing. |
| FilterEval.BoolCompares | src/hs_py/filter/eval.py:156-190 | A bool literal equals itself and the plain number 0 or 1, and is ordered as that number. |
| ValueEquality.EqualExactly | src/hs_py/filter/eval.py:168-176 | Python equality of any two values without NaN: exactly when they mean the same, with dicts as maps whatever the order of their tags, lists and grids item by item, and bools as numbers. |
| FilterEval.RefSelects | src/hs_py/filter/eval.py:168-176 | Asking for a ref selects exactly the entities whose tag is a ref with that id. |
| FilterEval.Scan | src/hs_py/storage/memory.py:174-181 | Evaluating entities one by one returns distinct matching entities: all of them, or as many as the limit allows. |
| FilterEval.ReadingCount | src/hs_py/storage/memory.py:174-181 | Such a read has exactly min(limit, matches) rows; a limit below one still gives one row. |
| Defs.AllDefsExact | src/hs_py/ontology/namespace.py:135-146 | The def list holds exactly the defs stored under their own symbol, each once, although the index also holds bare-name aliases. |
| Defs.PartsExact | src/hs_py/ontology/taxonomy.py:25-41 | The parts of a symbol are the only list of dash-free names that joins to it, and it is a conjunct exactly when they are several. |
| Defs.ParentNamed | src/hs_py/ontology/defs.py:57-65 | A def names a supertype exactly when that is the symbol under `is` or one of the symbols of the list there. |
| Defs.PrefixedName | src/hs_py/ontology/defs.py:37-41 | The bare name is what follows the last `::`, whatever the prefix holds. |
| Namespaces.Namespace.AddLib | src/hs_py/ontology/namespace.py:55-91 | Adding a lib keeps the whole invariant: the name index is that of all libs, the subtype and conjunct indexes are exact, and no stale memo survives. |
| Namespaces.Namespace.RebuildSubtypes | src/hs_py/ontology/namespace.py:73-80 | The rebuilt inverse index holds exactly the inverse of `is`. |
| Namespaces.Namespace.Subtypes | src/hs_py/ontology/namespace.py:159-172 | The subtypes of a name are, once each, the current defs of exactly those symbols under which some indexed def lists the name as a parent. |
| Namespaces.SubtypesListParent | src/hs_py/ontology/namespace.py:159-172 | These are the defs that list the name themselves exactly when no bare-name alias holds a def with a parent that the current def of its symbol lacks. |
| Namespaces.StaleSubtype | src/hs_py/ontology/namespace.py:63-80 | A concrete namespace where a def loaded again without its parent is still listed as a subtype. |
| Namespaces.Namespace.RebuildConjunctIndex | src/hs_py/ontology/namespace.py:82-91 | The rebuilt parts index holds exactly the conjunct defs under their part sets. |
| Namespaces.Namespace.FindConjuncts | src/hs_py/ontology/namespace.py:93-107 | For every list of dash-free parts that joins to its symbol, a def is found exactly when it is one of all defs, the parts are several and all among the markers, and the symbol is not; without repetition. |
| Namespaces.Namespace.GetAllDefs | src/hs_py/ontology/namespace.py:135-146 | The memoised list is the list of the current index. |
| Namespaces.Namespace.IsSubtype | src/hs_py/ontology/namespace.py:190-217 | The queue search answers true exactly when there is a walk of any length along `is`, on any graph, cycles included. |
| Namespaces.Namespace.AllSupertypes | src/hs_py/ontology/namespace.py:219-247 | Memoised or not, the answer is a breadth-first list for the current index, whatever libs and queries came before. |
| Namespaces.Namespace.Search | src/hs_py/ontology/namespace.py:230-247 | The queue search visits in order of distance: every ancestor is listed first at its least `is`-distance. |
| IsGraph.SupertypeListExact | src/hs_py/ontology/namespace.py:219-247 | Such a list holds exactly the defs of the defined strict ancestors. |
| IsGraph.ReachTrans | src/hs_py/ontology/namespace.py:190-217 | Reachability along `is` is transitive. |
| Taxonomy.MergedNearest | src/hs_py/ontology/taxonomy.py:44-73 | Merging the listed supertypes finds a tag exactly when some ancestor carries it, and then with the value of an ancestor at the least distance of all that carry it. |
| Taxonomy.EffectiveTags | src/hs_py/ontology/taxonomy.py:44-73 | Own tags first, every other tag from a nearest carrying ancestor, never `def`, `is` or `lib`; on diamonds and cycles too. |
| Normalize.Taxonify | src/hs_py/ontology/normalize.py:67-92 | Each def is replaced by its taxonified form, whose meaning are the next two rows. |
| Normalize.TaxonifiedParents | src/hs_py/ontology/normalize.py:67-92 | After that a def names its old supertypes and, if its symbol joins several dash-free parts, those of them that are defined, and nothing else; its symbol is unchanged. |
| Normalize.TaxonifiedAppends | src/hs_py/ontology/normalize.py:67-92 | The old supertypes keep their places, each new one is added once after them, and the other tags stay. |
| Normalize.HasCycle | src/hs_py/ontology/normalize.py:135-153 | The queue search answers true exactly when the start lies on a cycle. |
| Normalize.Validate | src/hs_py/ontology/normalize.py:115-132 | The faults reported are exactly the supertypes that nobody defines and the defs that lead back to themselves; none exactly when the index is sound. |
| Normalize.CompileNamespace | src/hs_py/ontology/normalize.py:33-64 | Compilation succeeds exactly when the taxonified graph is closed and acyclic, and returns the namespace of the normalised libs; otherwise it reports exactly the faults of that graph. |
| Normalize.NormalizedIndex | src/hs_py/ontology/normalize.py:95-112 | The compiled index has the same names as before, aliases included, standing for the same symbols, each with the last def of its symbol, taxonified. |
| Normalize.UnqualifiedIndex | src/hs_py/ontology/normalize.py:95-112 | Without `::` there are only symbols, each with its last def, taxonified. |
| Normalize.LibNameStandsFor | src/hs_py/ontology/namespace.py:55-71 | In any index of libs a symbol stands for the last def with it, and a name that is no symbol for the first def with that bare name. |
| Normalize.CompiledTaxonomy | src/hs_py/ontology/normalize.py:33-153 | On every compiled namespace all supertypes are defined, `is_subtype` is reflexive and transitive, every def is below each defined one of the several dash-free parts that its symbol joins, and `is_subtype` is antisymmetric exactly when no alias is in a loop with another name. |
| Normalize.AntisymmetricExactly | src/hs_py/ontology/normalize.py:115-153 | The exact condition on any index that passes validation: a partial order exactly when no bare-name alias loops. |
| Normalize.CyclesAreOfAliases | src/hs_py/ontology/normalize.py:115-153 | On such an index some name lies on a cycle exactly when an alias does. |
| Normalize.OwnNamesAcyclic | src/hs_py/ontology/normalize.py:115-153 | If supertypes are named by their own symbols no name lies on a cycle, aliases included. |
| Normalize.OwnSupersOrder | src/hs_py/ontology/normalize.py:33-153 | A condition on the libs before the call: if the supertypes and parts they name are symbols and not bare-name aliases, the compiled namespace is a partial order. |
| Normalize.UnqualifiedOrder | src/hs_py/ontology/normalize.py:33-153 | So it is for libs without `::`. |
| Normalize.AliasCycleMissed | src/hs_py/ontology/normalize.py:33-153 | Concrete libs that compile although two of their names are subtypes of each other through bare-name aliases. |
| Reflect.ReflectTags | src/hs_py/ontology/reflect.py:26-72 | Without repeated symbols, exactly the defs that markers name, the conjuncts all of whose parts are markers, and the defs above those along `is`, one for each symbol, the first kinds before the last; qualified symbols included. |
| Reflect.MarkersExact | src/hs_py/ontology/reflect.py:26-50 | The markers of an entity are the names of its tags whose value is the marker. |
| Reflect.Fits | src/hs_py/ontology/reflect.py:75-88 | True exactly when the target is the symbol or the bare name of such a def. |
| Reflect.NamesExactly | src/hs_py/ontology/reflect.py:75-88 | A target without colons names the def of that symbol and every def whose symbol is a prefix, `::` and the target. |
| Reflect.FitsReachable | src/hs_py/ontology/reflect.py:26-88 | Without `::` an entity fits exactly the symbols that its markers and its conjuncts reach along `is`. |
| Reflect.LibsUnqualified | src/hs_py/ontology/namespace.py:55-71 | Libs whose symbols have no `::` give an index without aliases. |
| Watch.WatchState.ComputeDelta | src/hs_py/watch.py:48-95 | The loops over rows, tags and cached ids produce the changed rows in grid order and then one removal row per vanished entity. |
| Watch.WatchState.Update | src/hs_py/watch.py:97-113 | Afterwards the cache is exactly the state the grid describes. |
| Watch.WatchAccumulator.ApplyDelta | src/hs_py/watch.py:143-172 | The in-place merge is the fold of the row merges. |
| Watch.DeltaCarriesChanges | src/hs_py/watch.py:48-95 | Every row of a delta is a removal of a vanished entity, the whole row of a new one, or for a changed one its id with exactly the tags that are new, changed or gone; and no new, changed or vanished entity goes without. |
| Watch.DeltaCycle | src/hs_py/watch.py:48-172 | Merging a delta takes a client in sync with the old state to one in sync with the new; an entity is the server row itself exactly when a row was sent for it or its display name had not changed. |
| Watch.RunInSync | src/hs_py/watch.py:48-172 | In every run of full-state grids the client has exactly the entities of the server, with their tags, after every step. |
| Watch.DeltaEmpty | src/hs_py/watch.py:82-95 | The delta is empty exactly when no entity came, went or changed a tag. |
| Watch.DisplayNameNotSent | src/hs_py/watch.py:70-76 | A concrete case of what is not sent: a new display name alone. |
| Watch.Push | src/hs_py/watch.py:48-172 | One push cycle on the two objects keeps them in sync. |
| Json.EncodeGrid | src/hs_py/encoding/json.py:364-374 | The column loop of the recursive encoder builds the specified tree. |
| Json.EncodeGridRaw | src/hs_py/encoding/json.py:377-396 | The column loop of the raw encoder builds the dict that still holds raw values. |
| Json.WalkAgrees | src/hs_py/encoding/json.py:184-326 | Native walking with the default hook writes, for every value, what the recursive encoder builds. |
| Json.FastPathAgrees | src/hs_py/encoding/json.py:105-118 | The fast grid path writes the same JSON tree as the recursive grid encoder. |
| JsonRoundTrip.RoundTrip | src/hs_py/encoding/json.py:184-544 | A value decodes to its normal form (unitless finite numbers as plain floats) exactly when no dict in it has a `_kind` tag that is not null and depth, rows and columns are within the limits. |
| JsonRoundTrip.GridRoundTrip | src/hs_py/encoding/json.py:364-544 | The same for grids, nested ones included. |
| JsonRoundTrip.FastGridRoundTrip | src/hs_py/encoding/json.py:105-178 | Through bytes: the fast path, then the decoder, with floats that JSON cannot hold nulled. |
| JsonRoundTrip.DecodedNoKind | src/hs_py/encoding/json.py:403-522 | No input decodes to a dict with a `_kind` tag that is not null. |
| JsonSound.DecodedSound | src/hs_py/encoding/json.py:403-544 | Soundness for every JSON tree: a decoded value meets what the constructors of the kinds demand and the limits of depth, rows and columns. |
| JsonSound.DecodedRoundTrips | src/hs_py/encoding/json.py:184-544 | So whatever the decoder accepts, encoding the result and decoding again gives its normal form. |
| JsonSound.ExplicitDictReads | src/hs_py/encoding/json.py:520-522 | A dict that says so by its kind decodes like the same dict without it. |
| JsonSound.UnknownRefused | src/hs_py/encoding/json.py:428-434 | A kind outside the table of kinds is refused. |
| JsonSound.BareGridReads | src/hs_py/encoding/json.py:525-544 | A grid without parts is the empty grid. |
| JsonSound.RefTextExactly | src/hs_py/encoding/json.py:465-473 | A ref id is one or more ref characters, and perhaps a line feed after them. |
| JsonSound.BoolIsNumber | src/hs_py/encoding/json.py:449-462 | A number may be given as a bool, and an empty unit is none. |
| JsonRoundTrip.KindTagLost | src/hs_py/encoding/json.py:416-424 | A concrete case of a dict with a kind tag: it comes back as a marker. |
| WsClient.WebSocketClient.Call | src/hs_py/ws_client.py:691-701 | A call takes the next id and files its future under it; the counter wraps at 32 bits. |
| WsClient.WebSocketClient.StartBatch | src/hs_py/ws_client.py:648-659 | A batch files its futures in call order. |
| WsClient.WebSocketClient.CollectBatch | src/hs_py/ws_client.py:665-678 | Results in call order, or the first outcome in call order that is no grid. |
| WsClient.WebSocketClient.ResolveGridResponse | src/hs_py/ws_client.py:61-77 | A reply settles the future filed under its id, if it is still waiting, and removes it; other replies change nothing. |
| WsClient.RespondExactly | src/hs_py/ws_client.py:61-77 | A reply takes the entry of its id, even of a call that is done; it ends that call if it waits, touches no other, and without an entry it does nothing. |
| WsClient.WebSocketClient.ReceiveMessage | src/hs_py/ws_client.py:753-785 | Single replies, batch replies, pushes and malformed envelopes act as the events they stand for. |
| WsClient.WebSocketClient.HandleBinaryResponse | src/hs_py/ws_client.py:819-832 | A binary reply settles its future in the same way. |
| WsReplies.ReplyEvents | src/hs_py/ws_client.py:61-77 | A reply envelope with an encoded grid settles the call of its id: with the grid in normal form, or, if its metadata has `err`, with its `dis` or `Unknown error`. |
| WsReplies.BatchMeans | src/hs_py/ws_client.py:753-760 | A batch of replies acts as these replies in order, up to an item that is no envelope, which ends the loop. |
| WsReplies.ReplyEndsCall | src/hs_py/ws_client.py:61-77 | So the reply to a waiting call ends that call in this way, takes its entry, and touches no other call. |
| WsClient.WebSocketClient.AbandonBatch | src/hs_py/ws_client.py:671-677 | A batch that times out abandons all of its calls. |
| WsClient.WebSocketClient.FailPending | src/hs_py/ws_client.py:773-780 | A lost connection fails every waiting future and empties the table. |
| WsClient.DisturbsExactly | src/hs_py/ws_client.py:691-729 | A new call, or giving up on one, takes the table entry of another call that waits exactly when that one is a multiple of 2^32 calls away. |
| WsClient.NoDisturbance | src/hs_py/ws_client.py:691-729 | While ids have not wrapped this happens to no call. |
| WsClient.FewCallsClean | src/hs_py/ws_client.py:691-729 | So it happens in no run of at most 2^32 calls. |
| WsClient.WebSocketClient.CancelWaiting | src/hs_py/ws_client.py:720-729 | A caller that is cancelled while it waits leaves its done future in the table. |
| WsClient.RunIsVerdict | src/hs_py/ws_client.py:61-77 | In every run, of any length and with cancelled callers, in which no event takes the entry of another waiting call: each call ends as the first event that concerns it says (a reply with its own id, its own timeout or cancellation, a lost connection), once, whatever arrives before, after or twice. |
| WsClient.RunTidy | src/hs_py/ws_client.py:61-77 | In every run, with wrapped ids or not, the table holds only calls that wait or that their caller cancelled, each under its own id. |
| WsClient.DoneStays | src/hs_py/ws_client.py:61-77 | A call that is done keeps its outcome in every continuation. |
| WsClient.BatchInCallOrder | src/hs_py/ws_client.py:641-678 | Whatever the order of replies, the futures of a batch hold the grids in call order. |
| WsClient.StartOrphansExactly | src/hs_py/ws_client.py:694-701 | A waiting call loses its entry to a new one exactly when it is a multiple of 2^32 calls back. |
| WsClient.Orphaned | src/hs_py/ws_client.py:61-77 | Without its entry a waiting call is ended by its own timeout or cancellation only, in every continuation. |
| WsClient.WrapOverwrites | src/hs_py/ws_client.py:694-701 | Call number 2^32 overwrites the first future if it still waits, and takes its reply. |
| Redis.RedisAdapter.StoreEntity | src/hs_py/storage/redis.py:366-384 | Document, id and tag sets after a store: new tags added, dropped tags removed; nothing changes if the old document cannot be read. |
| Redis.RedisAdapter.LoadEntities | src/hs_py/storage/redis.py:794-829 | The pipelined bulk load, flushed in batches, has the effect of loading row by row. |
| Redis.RunIndexed | src/hs_py/storage/redis.py:366-829 | Every sequence of stores and loads keeps each tag set a superset of the entities carrying the tag. |
| Redis.StoreKeepsExact | src/hs_py/storage/redis.py:366-384 | A store takes back the tags that are gone, so the tag sets stay exact for its id; other ids are not touched. |
| Redis.LoadedExactly | src/hs_py/storage/redis.py:794-829 | A bulk load keeps the tag sets of an id exact exactly when the last row of that id has every tag that its stored entity or an earlier row of it had. |
| Redis.LoadedRowExactly | src/hs_py/storage/redis.py:794-829 | For one row: exactly when the entity loses no tag. |
| Redis.LoadLeavesStale | src/hs_py/storage/redis.py:794-829 | A concrete bulk reload that leaves an id in the set of a tag it has lost. |
| Redis.MatchCarries | src/hs_py/storage/redis.py:146-157 | Every entity a filter matches carries all of its narrowing tags. |
| Redis.TagsDecide | src/hs_py/storage/redis.py:146-157 | If the filter is only tags joined by `and`, an entity matches exactly when it carries them all. |
| Redis.NarrowingExact | src/hs_py/storage/redis.py:477-512 | For filters without dereferences that name a tag, evaluating the narrowed candidates selects exactly what evaluating every stored entity selects. |
| Redis.FullScanExact | src/hs_py/storage/redis.py:486-489 | Without narrowing tags all entities are candidates as long as there are at most 50,000. |
| Redis.RefReads | src/hs_py/storage/redis.py:477-512 | Asking for a ref reads exactly the entities whose tag is a ref with that id. |
| Redis.RedisAdapter.ReadFallback | src/hs_py/storage/redis.py:477-512 | The fallback returns distinct matching candidates up to the limit; for filters without dereferences that name a tag, and for filters without narrowing tags on at most 50,000 ids, the matches of the full scan. |
| Redis.DereferencesExactly | src/hs_py/storage/redis.py:477-512 | For any filter that names a tag: the narrowed read selects what the full scan selects exactly when on no stored entity the filter depends on a path whose walk leaves the candidates. |
| Redis.KnownWalksExact | src/hs_py/storage/redis.py:477-512 | So it does when every path leads nowhere or dereferences candidates only. |
| Redis.ConjunctionReadsExactly | src/hs_py/storage/redis.py:477-512 | For tags and comparisons joined by `and`: exactly when every entity that a match dereferences is a candidate itself. |
| Redis.PositiveDereferencesExactly | src/hs_py/storage/redis.py:477-512 | For filters without `missing`: exactly when every match remains one without the walks that leave the candidates. |
| Redis.DereferenceLosesMatches | src/hs_py/storage/redis.py:477-512 | A concrete bulk load, its candidates, and a match of the full scan that the narrowed read loses. |
| Redis.StoredReadsBack | src/hs_py/storage/redis.py:125-143 | An entity within the limits of the JSON codec is read back in normal form, without a tag called `_tags`. |
| Memory.InMemoryAdapter.LoadEntities | src/hs_py/storage/memory.py:87-114 | The entities are the last row loaded of each id, and each tag set holds every id that ever carried the tag. |
| Memory.InMemoryAdapter.ReadByFilter | src/hs_py/storage/memory.py:144-181 | The fast path reads the tag set, every other filter scans, both up to the limit. |
| Memory.RefReads | src/hs_py/storage/memory.py:144-181 | The same for the in-memory adapter. |
| Memory.FastPathExact | src/hs_py/storage/memory.py:158-172 | The fast path never misses an entity, and equals the scan exactly when every entity that ever carried the tag still does. |
| Memory.DroppedTagRead | src/hs_py/storage/memory.py:158-172 | A concrete pair of loads after which the fast path returns an entity without the tag. |
| Memory.NoDropKeeps | src/hs_py/storage/memory.py:87-114 | That is so when no reload of an id drops the tag. |
| MemoryWatch.WatchTable.WatchSub | src/hs_py/storage/memory.py:307-334 | A subscription creates or extends the watch and returns the current entities. |
| MemoryWatch.WatchTable.WatchUnsub | src/hs_py/storage/memory.py:336-359 | Unsubscribing removes ids from the watch and from its dirty set; closing removes the watch. |
| MemoryWatch.WatchTable.WatchPoll | src/hs_py/storage/memory.py:361-384 | A poll returns the changed entities, or all on refresh, and clears the dirty set. |
| MemoryWatch.WatchTable.MarkDirty | src/hs_py/storage/memory.py:388-395 | Exactly the watches that subscribe to the id note the change. |
| MemoryWatch.RunMeaning | src/hs_py/storage/memory.py:307-395 | In every run a watch holds exactly the ids subscribed and not ended since, and its dirty set exactly those of them marked while subscribed and not polled or ended since. |
| MemoryWatch.ChangedSubscribed | src/hs_py/storage/memory.py:336-395 | The dirty set stays within the ids. |
| MemoryWatch.PolledOnce | src/hs_py/storage/memory.py:361-395 | After a poll an id is reported again only if it is marked again. |
| ScramText.ParseScramMsg | src/hs_py/auth.py:367-374 | The loop over the parts of a message agrees with its specification; of a repeated key the last counts. |
| ScramText.ParseHeaderParams | src/hs_py/auth.py:335-359 | The loop over header parameters agrees with its specification, with and without a scheme. |
| ScramText.MsgReads | src/hs_py/auth.py:367-374 | A message composed of pairs parses back into them. |
| ScramText.NoisyMsgReads | src/hs_py/auth.py:367-374 | A message with parts that are no pairs gives the pairs of the others. |
| ScramText.HeaderReads | src/hs_py/auth.py:335-359 | A header composed of a scheme and pairs parses back into the pairs. |
| ScramText.SpelledHeaderReads | src/hs_py/auth.py:335-359 | A header with white space anywhere between its tokens and with parts that are no parameters still gives its parameters. |
| ScramText.EscapeUserInjective | src/hs_py/auth.py:145-146 | The escaped user name contains no comma and determines the user name. |
| ScramText.UserReads | src/hs_py/auth.py:145-146 | Undoing the two escapes gives back the user name. |
| Scram.XorTwice | src/hs_py/_scram_core.py:229-239 | The XOR of key and signature, XORed with the signature, is the key. |
| Scram.XorZero | src/hs_py/_scram_core.py:229-239 | A text XORed with itself is zero, and with zero itself. |
| Scram.FirstHalf | src/hs_py/_scram_core.py:157-202 | The server finds the client nonce behind any user name, the client finds nonce, salt and iterations in the reply, and both have the same auth message. |
| Scram.HonestExchange | src/hs_py/auth.py:137-227 | Sections 3 and 5 of RFC 5802: with the matching password the client accepts the challenge, the server recovers the client key and accepts the proof, and the client accepts the signature. |
| Scram.HonestBounds | src/hs_py/auth.py:170-188 | With the right password the client refuses exactly short salts and iteration counts out of bounds. |
| Scram.AcceptedExactly | src/hs_py/_scram_core.py:205-239 | The server accepts a client-final message exactly when it repeats nonce and binding and its proof masks a key that hashes to the stored key; it is unauthorised exactly when there is no proof. |
| Scram.AnsweredExactly | src/hs_py/auth.py:155-206 | The client answers a challenge exactly when it repeats the client nonce, its iterations and salt are within bounds, and the hash is known. |
| Scram.VerifiedExactly | src/hs_py/auth.py:209-227 | The check of the server signature passes exactly when the text under `v` decodes to HMAC(HMAC(salted password, "Server Key"), auth message). |
| Scram.FirstAsInRfc5802 | src/hs_py/_scram_core.py:157-202 | The server-first message and the new state for a client-first message with or without its binding flag, written out as in section 5 of RFC 5802; none without a nonce. |
| Scram.FinalAsInRfc5802 | src/hs_py/auth.py:155-206 | The client-final message, its auth message and its proof written out as section 3 of RFC 5802 defines them, with 4096 iterations if the challenge names none. |
| Scram.Sha512Refused | src/hs_py/_scram_core.py:229-239 | An exchange in which the client uses SHA-512 is forbidden at the last step, whatever the password and the stored credentials. |
| ScramServer.Server.Hello | src/hs_py/_scram_core.py:111-154 | A HELLO of a known user opens a handshake, traced to this HELLO, while fewer than 1000 are alive; otherwise the tables are as stated. |
| ScramServer.Server.ScramStep1 | src/hs_py/_scram_core.py:157-202 | Client-first moves the handshake, with the HELLO it stems from, to a new token with its nonce and auth message. |
| ScramServer.Server.ScramStep2 | src/hs_py/_scram_core.py:205-264 | Client-final ends the handshake; an accepted proof is granted one token for the user of its HELLO, after purging and, at 10000 tokens, evicting an oldest one. |
| ScramServer.Server.HandleScram | src/hs_py/_scram_core.py:287-320 | Dispatch over unknown, late, undecodable and valid steps, with the lifetimes of 60 seconds and an hour. A token is issued for the HELLO of its own handshake, which has led to none before, and to its user; the issuers of other tokens do not change. Over every run both tables stay within their limits and no two live tokens or handshakes share a HELLO. |
| ScramServer.Server.ValidateBearer | src/hs_py/_scram_core.py:267-284 | A bearer token is accepted exactly when it is in the table and at most an hour old; an older one is dropped. |
| ScramServer.Server.OldestToken | src/hs_py/_scram_core.py:250-252 | The evicted token has the least creation time. |
| ScramLogin.SendHello | src/hs_py/auth.py:71-87 | The HELLO header carries the user name to the server and the handshake token back. |
| ScramLogin.SendFirst | src/hs_py/auth.py:244-268 | The client-first header reaches the server and its challenge reaches the client. |
| ScramLogin.SendFinal | src/hs_py/auth.py:270-292 | A token is returned exactly when the reply has status 200, carries it, and carries data that decodes to a server-final message with the right signature. |
| ScramLogin.TokenExactly | src/hs_py/auth.py:270-292 | The same for the headers of any reply, whoever sent it. |
| ScramLogin.Login | src/hs_py/auth.py:235-292 | Through the headers of all three steps an honest login within the timeout ends with a token of the user in the server table. |
| Csv.EncodeGrid | src/hs_py/encoding/csv.py:25-53 | The loops produce the lines of the matrix of header and cell texts. |
| Csv.CellKeeps | src/hs_py/encoding/csv.py:61-87 | Texts and uris are written as they are; a number as text that the Zinc scanner reads back with its unit. |
| Csv.CellScans | src/hs_py/encoding/csv.py:61-87 | A coordinate, symbol, extended string, list or dict is written as text that the Zinc scanner reads back. |
| Csv.CellWords | src/hs_py/encoding/csv.py:61-87 | Markers, bools and refs with and without a display name have fixed texts. |
| Csv.EmptyExactly | src/hs_py/encoding/csv.py:61-87 | A cell is empty exactly for null, NA, remove and the empty text or uri. |
| Csv.HeadingIs | src/hs_py/encoding/csv.py:25-53 | A heading is the display name of the column if it has one, and its name otherwise. |
| Csv.CellReads | src/hs_py/encoding/csv.py:96-106 | An escaped cell is read back as the cell, whatever commas, quotes, CR and LF it holds. |
| Csv.CsvRoundTrip | src/hs_py/encoding/csv.py:25-106 | A reader for section 2 of RFC 4180 (with LF line ends) recovers exactly the matrix of header and cell texts, precisely when the grid has a column. |
| Csv.CellsRecovered | src/hs_py/encoding/csv.py:25-53 | What is recovered: a line of headings, and for each row the text of its cell under each column. |

## Left out

- Sockets, tasks, heartbeats, TLS, HTTP servers, metrics and logging: input and output only. Clocks, random bytes and
  random tokens are parameters.
- Compression, hashing, HMAC, key derivation, base64, UTF-8 and the JSON serializer's own work: foreign code, given by
  functions with the inverses, lengths and alphabets that are known of them.
- Fractional and exponent numbers: numbers are whole, with INF, -INF and NaN beside them; a literal with a fraction
  other than zeros or an exponent is an error of the scanner model. Coordinates are in whole degrees.
- Dates, times and time zones: literals of these shapes are an error of the scanner models, and the JSON kinds for them
  an error of the decoder model.
- Characters outside ASCII: letters, digits, capitals and white space are the ASCII ones. The tokenizer of the filter
  language does not advance on other letters.
- Nested grids in Zinc text: `decode_grid` splits at newlines before it scans, so a nested grid does not survive it; the
  scanner model reports a grid literal as an error.
- Scanner.ScanVal: dates, times and grids between `<<` and `>>` are errors of the model, and so are numbers with a
  fraction or an exponent; the last two also hold of ZincGridRoundTrip.GridRoundTrip.
- Scanner.ScanNumber: fractional values and exponents are errors of the model.
- Scanner.ScanKeyword: coordinates are in whole degrees.
- Scanner.ScanCoordBody: whole degrees only.
- ZincScalars.CoordReads: whole degrees only.
- ZincSpelling.CoordSpelled: whole degrees only.
- ZincSpelling.FormReads: of fractions only zeros, and no exponents.
- ZincRefusals.NumberSpelled: the code also reads fractions and exponents, which are errors of the model.
- FilterRefusals.NumberSpelled: the code also reads fractions and exponents, which are errors of the model.
- FilterLexer.Lexer.Tokenize: dates, times and date-times are errors of the model.
- FilterLexer.Lexer.ScanNumber: fractional values and exponents are errors of the model.
- ZincRoundTrip.ValueReads: plain Python numbers are excluded, as they come back as Haystack numbers; units are those the
  unit scanner accepts.
- Wrong types in JSON input: a field of the wrong JSON type, and numeric text as a number, is an error of the decoder
  model; the code stores some of these unchecked. Integers beyond 64 bits and the serializer's own nesting limit are not
  modelled, nor are the cached datetimes.
- JSON version 3 and the pythonic conversions: lossy.
- Futures as objects: the client model numbers the futures by call; a caller's wait is split at its suspension points.
- The RediSearch branch of `read_by_filter` and the SQL of the relational adapter: their meaning is decided outside the
  library. The response and read caches, whose keys leave out parts of the request.
- The `_tags` field of a Redis document: kept as a set of names, since only RediSearch reads its text. Plain floats that
  JSON cannot hold are kept in the store model.
- FilterEval.Scan: entities are visited in some order; the insertion order of dicts is not modelled there, nor in
  FilterEval.Reading. Comparing lists with `<` is unordered in the model. `evaluate_grid` and its resolver are left out.
- Watch.WatchState.ComputeDelta: tag values are compared structurally, where the code uses Python's `!=`: there a change
  from `True` to the plain number 1.0, or in the order of a dict only, is no change, and a NaN may be one.
- ChunkAssembly.Step: the runs go on after a frame that `feed` rejects with an error; in the client that error ends the
  receive loop, so there the run ends with it.
- Namespaces.Namespace.FindConjuncts: the order of the result is not stated, as the parts index is a dict of sets.
- History, priority arrays, navigation and user records of the storage adapters: easy members beside these.
- ScramText.HeaderParams: header text is ASCII. Iteration counts are read from decimal digits only.
- ScramLogin.Login: starts after the client has chosen SCRAM; the choice of mechanism and the plain text mechanism are
  left out.
- Trio, RDF, content negotiation, role comparison: lossy, or too simple to be worth members.
