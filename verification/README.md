# DeepFind, modelled in Dafny

DeepFind keeps a substring index over a directory tree and answers queries from a
running daemon while the files change. The promise of the whole system is that the
index agrees with a plain linear scan. This project models the four layers that this
promise rests on and proves them one upon the other:

1. **Encoded index.** LEB128 integers (section 7.6 of the DWARF Debugging Information
   Format Version 5), the bit-plane posting codec with patched exceptions, the Robin
   Hood trigram table, the `.dfcs` content shard, the `.dfdb` filename database with its
   block index and one-slot block cache, and the manifest. For each, what a builder
   writes is exactly what a reader finds, and `Layouts` says at which byte of a file each
   field stands.
2. **Query engine.** Rarest-trigram candidates with verification, the boolean filename
   queries and the find-style filter (one grammar, its parser and its printer, and what the
   words and signs that a user types do in it), the glob matcher, and grep-style lines and
   context blocks. Each fast form is proved equal to a declarative meaning.
3. **Hot overlay and its log.** The overlay object refines a plain map in which the last
   writer of a path wins; the log survives being cut at any byte.
4. **Update protocol.** The watcher, compaction, the daily safety-net rebuild and the
   build marker as a step relation with an inductive invariant over every run, and with a
   measure by which the watcher works off all that has arrived.

Layers meet in `QueryEntry`: a query over shards, database and overlay equals a scan of
the indexed files with the overlay's changes applied, and under limits the paths and the size of
the part it returns are stated; and in `UpdateProtocol`, where at every step of every run a
query finds of each path without a pending event what a scan of the files as they are
would. `UpdateProtocol.AnswerAt` states this of the query method itself. By name there is
one window in which it can fail, between the clearing of the overlay and the reload of the
filename reader, and it is described exactly. `UpdateProgress` adds that nothing stays
pending: a batch that waits is taken in, a build that starts can complete, and every run can
come to rest in a state where each plain query is a scan of the files.

Code that updates objects, buffers or arrays in place is modelled by classes and methods
with loops; each is tied by its contract to a function of its inputs or its old state,
and the theorems are lemmas about these functions.

| file | models |
|---|---|
| `Prelude`, `Bytes`, `Bits`, `Decimals`, `Repeated`, `Records`, `Unicode` | results, byte integers, bit arithmetic, record runs, well-formed text |
| `Varint`, `TurboPFor`, `RobinHood`, `Postings`, `TrigramIndex`, `Container` | codecs, table, stored postings, section container |
| `Shard`, `FileDb`, `Manifest`, `ContentBuild` | the files of an index and the build that writes them |
| `Layouts` | the byte layouts of all of them, field by field |
| `Text`, `Candidates`, `Grammar`, `BoolParse`, `BoolQuery`, `Glob`, `Bfs`, `Lines`, `LineHits` | queries |
| `Overlay`, `Wal` | the overlay and its log |
| `Merge`, `ColdLayers`, `QueryEntry`, `LineQuery` | one query over all layers: merging by path and cap, the built layers, the whole, and line mode |
| `UpdateProtocol`, `UpdateProgress`, `UpdateRaces` | the daemon over time: what always holds, that it gets done, and among which events |

Assumptions and conventions

- Texts are byte strings, and stored paths and names well-formed UTF-8 (`Bytes.Str`, section 4 of
  RFC 3629, tied to its section 3 by `Unicode.Utf8Iff`), which every reader checks; case folding
  is ASCII folding on both sides, as the shards do it (`crates/df-content/src/fold.rs:8-21`).
  `hash` is an arbitrary function; zstd and the record serializer are codecs about which only
  `decode(encode(x)) = x` is assumed.
- Integer widths are explicit where the format cuts them (`Cut32`, `Cut64`), and the
  theorems about files carry the sizes that the 32- and 64-bit fields can hold.
- An index, slice or arithmetic check that aborts the original is `Err(Panic)` or
  `None`; the kinds of reported errors are collapsed to those of `Prelude.Error`.
- Docid counters are 32 bits wide: builders are called for fewer than 2^32 - 1 documents.
- Statements that the documentation suggests and that are false of the code are met by the
  exact condition under which they hold:
  - The glob matcher takes a `*` of the text literally, so `*` does not find `*b`. It is right
    unless pattern and text both have a `*` (`Glob.GlobExact`); about every pattern exactly on
    the texts without one (`Glob.GlobExactIff`), and on every text exactly for the patterns
    without one (`Glob.PatternExactIff`).
  - Which expressions of the find-style language can be written at all, quotes included, is
    `Bfs.WritableIff`; a size equality with a negative number, for one, cannot.
  - The filename database reads operators in a query and the overlay does not:
    `BoolQuery.SingleWordIff` says for exactly which queries the two agree on every path, and
    `QueryEntry.PlainIff` for exactly which the layers are a scan of the files.
  - A limit is spent in part on cold hits that the overlay then drops:
    `QueryEntry.QueryBuilt` says when a limited query is as long as the limited scan.
  - A comment says that with a scope the limit counts hits in scope
    (`crates/deepfindd/src/lib.rs:954-955`). That is so of names (`QueryEntry.ScopedLimit`); the
    content layers spend the limit outside the scope too (`QueryEntry.ScopeUsesLimit`).
  - Line mode prints what a line-by-line search prints only for needles that can stand in a line:
    `LineQuery.GrepIff`.
  - A log that does not end with a whole frame loses later appends: `Wal.AppendIff`.
  - Filename queries can be stale while a compaction finishes: `UpdateProtocol.WindowIff`.

## Model

| member | source | states |
|---|---|---|
| `Varint.EncodeU32` | crates/df-core/src/varint.rs:9-21 | the loop appends exactly the LEB128 form of the value |
| `Varint.DecodeU32` | crates/df-core/src/varint.rs:24-42 | the cursor loop computes the recursive decoder: stops at the end of the buffer and after five bytes |
| `Varint.EncodedDigits` | crates/df-core/src/varint.rs:9-21 | byte i carries the seven bits of weight 128^i, and the high bit stands on all but the last |
| `Varint.EncodedLength` | crates/df-core/src/varint.rs:9-21 | an encoding has no more bytes than the value needs |
| `Varint.RoundTrip` | crates/df-core/src/varint.rs:9-42 | every 32-bit value reads back wherever its encoding stands, and the cursor ends right behind it |
| `Varint.DecodeIff` | crates/df-core/src/varint.rs:24-42 | any bytes have a number at a place if and only if one of the next five is below 128, and it is then what the seven bits of each make, modulo 2^32 |
| `Text.FoldInPlace` | crates/df-content/src/fold.rs:8-14 | in-place folding yields the folded text |
| `Text.FoldExact` | crates/df-content/src/fold.rs:8-14 | folding takes each of the 26 capital letters to its small letter and changes no other byte |
| `Text.BasenameExact` | crates/df-content/src/overlay.rs:227-231 | a path is a directory part, empty or ending in `/`, and its last component, which has none |
| `Text.KeyDigits` | crates/df-core/src/trigram.rs:4-23 | a trigram key has the three bytes as digits, the first counting most |
| `Text.KeyInjective` | crates/df-core/src/trigram.rs:12-23 | no two byte triples share a trigram key |
| `Text.TrigramsExact` | crates/df-core/src/trigram.rs:12-23 | the keys extracted are exactly those of the three-byte windows, ascending, each once |
| `Text.ExtractTrigrams` | crates/df-core/src/trigram.rs:12-23 | the push, sort and de-duplicate loop computes that list |
| `Text.TrigramsOfPart` | crates/df-core/src/candidate.rs:28-62 | a text has every trigram of what it contains, the reason a posting covers all hits |
| `TurboPFor.WidthIsOptimal` | crates/df-core/src/turbopfor.rs:61-97 | the chosen width has the least cost of all 1..32, the smallest among equals |
| `TurboPFor.WideWidthsLose` | crates/df-core/src/turbopfor.rs:66-79 | leaving out the widths between the longest value and 32 never changes the choice |
| `TurboPFor.ChooseWidth` | crates/df-core/src/turbopfor.rs:61-100 | the loop over the candidate widths finds that width and its exception count |
| `TurboPFor.BlockSize` | crates/df-core/src/turbopfor.rs:57-126 | the stored exception count is the number of 6-byte records emitted, and a block of n values takes at most 3 + 6n bytes |
| `TurboPFor.EncodeBlock` | crates/df-core/src/turbopfor.rs:57-126 | header, bit planes set bit by bit in the frame, and exceptions are the specified block |
| `TurboPFor.AppendFrame` | crates/df-core/src/turbopfor.rs:105-117 | the nested plane and value loops set exactly the bits of the planes, across byte boundaries |
| `TurboPFor.DecodeBlock` | crates/df-core/src/turbopfor.rs:129-162 | planes gathered back and exceptions overwritten, with the cursor behind the block |
| `TurboPFor.BlockRoundTrip` | crates/df-core/src/turbopfor.rs:57-162 | any block of 1 to 128 values comes back, exceptions included |
| `TurboPFor.RoundTrip` | crates/df-core/src/turbopfor.rs:29-55 | every list of 32-bit values comes back: full blocks, remainder, empty list |
| `Postings.PostingRoundTrip` | crates/df-core/src/db.rs:239-250 | delta coding and the codec together return every ascending docid list |
| `Postings.TableSize` | crates/df-core/src/db.rs:226-232 | the slot count is the power of two between twice and four times the number of keys, and none for no keys |
| `Postings.WriteIndex` | crates/df-core/src/db.rs:225-255 | the table and the lists written answer for the in-memory index |
| `Postings.FetchPosting` | crates/df-core/src/db.rs:475-512 | the masked probe loop, on any bytes, ends and computes the specified lookup |
| `Postings.FetchExact` | crates/df-core/src/db.rs:475-512 | on a written index, lookup finds each key's own list and nothing for any other key |
| `RobinHood.Masked` | crates/df-core/src/db.rs:301-318 | the masked expressions compute home, next slot and probe distance modulo the table size |
| `RobinHood.Insert` | crates/df-core/src/db.rs:306-338 | insertion with displacement ends, keeps the probe-distance invariant, adds exactly the entry and loses none |
| `RobinHood.Build` | crates/df-core/src/db.rs:296-341 | any distinct keys, any hash, any larger power-of-two table: the table stores exactly the entries and is sound |
| `RobinHood.LookupFinds` | crates/df-core/src/db.rs:475-512 | the early exit never passes over a stored key |
| `RobinHood.LookupExact` | crates/df-core/src/db.rs:475-512 | lookup returns a slot exactly when the key is stored, and then its own payload |
| `Container.Write` | crates/df-content/src/shard.rs:174-196 | sections, table of contents and footer are laid out as specified |
| `Container.ReadToc` | crates/df-content/src/shard.rs:231-283 | the cursor loop over the table of contents computes the specified directory, with its error cases |
| `Container.RoundTrip` | crates/df-content/src/shard.rs:174-283 | opening an assembled container finds every known section where it was put |
| `Shard.ShardBuilder.AddFile` | crates/df-content/src/shard.rs:70-86 | keeps the builder's five parallel structures in step with the list of added files |
| `Shard.ShardBuilder.Finish` | crates/df-content/src/shard.rs:98-197 | the bytes are a shard of the added files whenever they stay below 32-bit offsets |
| `Shard.OpenShard` | crates/df-content/src/shard.rs:231-307 | opening computes the specified reader or error on any bytes |
| `Shard.ShardReader.PathOf` | crates/df-content/src/shard.rs:333-354 | the method computes the specified path or error, bytes that are not UTF-8 included |
| `Shard.ShardReader.PostingOfTrigram` | crates/df-content/src/shard.rs:388-435 | the method computes the specified posting or error, on any bytes |
| `Shard.OpenExact` | crates/df-content/src/shard.rs:231-307 | opening a finished shard succeeds and sees every section as written |
| `Shard.DocumentExact` | crates/df-content/src/shard.rs:333-385 | document d has the path, metadata and content added as number d; behind the last there is an error |
| `Shard.PostingSeen` | crates/df-content/src/shard.rs:388-435 | a posting is the ascending list of exactly the documents whose folded content has the trigram, or none |
| `Shard.RoundTrip` | crates/df-content/src/shard.rs:70-435 | everything a finished shard answers, from its bytes alone |
| `Shard.SearchIsScan` | crates/df-content/src/shard.rs:438-466 | searching a shard is the linear scan of its files, for every query, both case modes and any limit |
| `Records.FindPath` | crates/df-core/src/db.rs:94-112 | the scan of length-prefixed paths computes the specified extraction, with an error for bytes that are not UTF-8 |
| `Records.ExtractAny` | crates/df-core/src/db.rs:94-112 | of any records, number d reads back if it is UTF-8, and is an error otherwise |
| `Records.ExtractExact` | crates/df-core/src/db.rs:94-112 | record d reads back as path d, and behind the last there is an error |
| `Records.MetaExact` | crates/df-core/src/db.rs:429-440 | metadata record d reads back, negative sizes and times included |
| `Unicode.Utf8Iff` | crates/df-core/src/db.rs:94-112 | the check that every reader makes of a text: it is the encoding of scalar values one after the other, none of them a surrogate, overlong or too large |
| `Container.SectionInBody` | crates/df-content/src/shard.rs:174-180 | each section lies in the body where its offset says |
| `FileDb.DbBuilder.InsertWith` | crates/df-core/src/db.rs:158-172 | docids are handed out in order and the trigram index covers the inserted paths |
| `FileDb.DbBuilder.Finish` | crates/df-core/src/db.rs:182-279 | the bytes are a database of the inserted documents whenever every length fits its field |
| `FileDb.ChunksFlatten` | crates/df-core/src/db.rs:194-206 | cutting into blocks of 256 paths loses and reorders nothing |
| `FileDb.SearchPartition` | crates/df-core/src/db.rs:449-450 | the library's binary search, as a loop, finds the first block that starts behind the docid |
| `FileDb.PlaceExact` | crates/df-core/src/db.rs:392-455 | prefix-sum starts and partition point lead to the block and place of each docid, and past the end to an error |
| `FileDb.DbReader.DocPath` | crates/df-core/src/db.rs:445-472 | whatever block is cached, the answer is that of the file, and the cache stays a block of the file |
| `FileDb.OpenDb` | crates/df-core/src/db.rs:361-417 | opening computes the specified image or error on any bytes |
| `FileDb.OpenExact` | crates/df-core/src/db.rs:361-417 | opening a finished database succeeds and sees every part as written |
| `FileDb.DocPathExact` | crates/df-core/src/db.rs:445-472 | docid d yields path d through block split, compression and scan; other docids yield errors |
| `FileDb.DocMetaExact` | crates/df-core/src/db.rs:429-440 | docid d yields its metadata; other docids yield errors |
| `FileDb.RoundTrip` | crates/df-core/src/db.rs:182-512 | everything a finished database answers, from its bytes alone |
| `FileDb.SearchIsScan` | crates/df-core/src/db.rs:515-534 | a substring query is the linear scan of the inserted paths |
| `Candidates.ComputeCandidates` | crates/df-core/src/candidate.rs:28-79 | the loops over trigrams and candidates compute the specified list, first error included |
| `Candidates.RarestIsShortest` | crates/df-core/src/candidate.rs:44-62 | the list verified is as short as any posting of the query's trigrams |
| `Candidates.CandidatesComplete` | crates/df-core/src/candidate.rs:28-79 | whichever posting is shortest, every hit is found once, even from unsorted postings |
| `Candidates.CandidatesAreScan` | crates/df-core/src/candidate.rs:28-79 | with ascending postings the result is the first `limit` hits of a linear scan |
| `TrigramIndex.AddText` | crates/df-content/src/shard.rs:76-86 | posting a document keeps the index exact: each trigram lists exactly the texts that have it |
| `BoolParse.Tokenize` | crates/df-core/src/boolquery.rs:34-64 | the character loop computes the specified tokens |
| `BoolParse.TokenizeExact` | crates/df-core/src/boolquery.rs:34-64 | any text spelling a legal token list, however spaced, tokenizes to it |
| `BoolParse.TokensLegal` | crates/df-core/src/boolquery.rs:34-64 | every word token of every text is non-empty, unbroken and no operator |
| `BoolParse.Operators` | crates/df-core/src/boolquery.rs:34-143 | between words, queries in parentheses and negations of these, ` AND `, ` OR `, a blank and a leading `NOT ` parse to exactly these connectives, and a word or group alone to itself |
| `BoolParse.TighterAnd` | crates/df-core/src/boolquery.rs:99-124 | in a text with both, ` AND ` binds tighter than ` OR `, on either side of it |
| `Grammar.Precedence` | crates/df-core/src/boolquery.rs:99-124 | the same of any language of this shape, conjunction written or not |
| `Grammar.Parser.Or` | crates/df-core/src/boolquery.rs:99-107 | the loop with its cursor agrees with the recursive parser, position included |
| `Grammar.Parser.And` | crates/df-core/src/boolquery.rs:109-124 | likewise for explicit and implicit conjunction |
| `Grammar.Parser.Factor` | crates/df-core/src/boolquery.rs:126-143 | likewise for negation, parentheses and primaries |
| `Grammar.ParseExact` | crates/df-core/src/boolquery.rs:70-143 | a token list parses to a tree if and only if the grammar writes that tree so |
| `Grammar.Unambiguous` | crates/df-core/src/boolquery.rs:66-143 | no token list has two readings |
| `Grammar.RoundTrip` | crates/df-core/src/boolquery.rs:66-143 | parsing a printed tree gives the tree back, for any language of this shape |
| `Grammar.PrintShortest` | crates/df-core/src/boolquery.rs:66-143 | the printer uses only the parentheses needed: no rendering of the tree is shorter |
| `BoolParse.QueryExact` | crates/df-core/src/boolquery.rs:70-80 | a query text parses exactly to what the grammar of its tokens means |
| `BoolParse.QueryRoundTrip` | crates/df-core/src/boolquery.rs:34-143 | the printed text of every tree with legal words parses back to it |
| `BoolParse.PrintedIsShortest` | crates/df-core/src/boolquery.rs:66-143 | no way to write a query tree has fewer tokens than the printed one |
| `BoolParse.TextRoundTrip` | crates/df-core/src/boolquery.rs:34-143 | so does any text that spells any well-formed rendering |
| `BoolQuery.TermDocids` | crates/df-core/src/boolquery.rs:151-199 | the two loops compute the specified set through the caching reader |
| `BoolQuery.TermExact` | crates/df-core/src/boolquery.rs:151-199 | one term: exactly the documents whose path matches, by scan or by posting |
| `BoolQuery.MatchIsPart` | crates/df-core/src/boolquery.rs:151-199 | and a path matches a term when it has it as a part, exactly or up to the case of letters |
| `BoolQuery.Evaluate` | crates/df-core/src/boolquery.rs:201-226 | recursion over the tree computes the specified set, first error included |
| `BoolQuery.EvalExact` | crates/df-core/src/boolquery.rs:201-226 | the set is exactly the documents that satisfy the formula |
| `BoolQuery.BooleanIsScan` | crates/df-core/src/boolquery.rs:229-238 | the result is the scan for the formula, ascending and cut to the limit |
| `BoolQuery.QueryIsScan` | crates/df-core/src/query.rs:17-56 | any non-empty query text, well-formed or not, returns the first `limit` documents that a scan selects |
| `BoolQuery.OperatorsSelect` | crates/df-core/src/boolquery.rs:34-226 | which paths a text with an operator selects, by what its two sides select |
| `BoolQuery.WordsReturned` | crates/df-core/src/query.rs:17-56 | document d is among the docids returned for `a AND b`, `a b`, `a OR b` or `NOT a` exactly when its path contains both, one or not a |
| `BoolQuery.SingleWordIff` | crates/df-core/src/query.rs:26-30 | reading a query as a formula and searching for it as it is agree on every path if and only if it is a single word |
| `Glob.GlobImpl` | crates/df-ipc/src/filter.rs:44-67 | the loop with one remembered star ends and computes the specified decision, on all inputs |
| `Glob.MatchConcat` | crates/df-ipc/src/filter.rs:39-67 | a pattern of two parts matches exactly what splits into a match of each |
| `Glob.SignsMatch` | crates/df-ipc/src/filter.rs:39-67 | `*` matches every text, `?` the texts of one byte |
| `Glob.PlainMatch` | crates/df-ipc/src/filter.rs:39-67 | a pattern without signs matches itself alone |
| `Glob.WalkIsEarliest` | crates/df-ipc/src/filter.rs:44-67 | why remembering only the last star loses no match |
| `Glob.AcceptsSound` | crates/df-ipc/src/filter.rs:44-67 | whatever the matcher accepts matches |
| `Glob.GlobExact` | crates/df-ipc/src/filter.rs:44-67 | unless pattern and text both have a `*`, the matcher decides the meaning of `*` and `?` |
| `Glob.GlobExactIff` | crates/df-ipc/src/filter.rs:39-67 | the matcher is right about every pattern if and only if the text has no `*` |
| `Glob.PatternExactIff` | crates/df-ipc/src/filter.rs:39-67 | the matcher is right about every text if and only if the pattern has no `*` |
| `Glob.StarMissesStar` | crates/df-ipc/src/filter.rs:39-67 | a concrete pattern and text on which it is wrong |
| `Bfs.ParseExpr` | crates/df-ipc/src/bfs.rs:56-64 | computes the specified expression or failure |
| `Bfs.ExprExact` | crates/df-ipc/src/bfs.rs:56-143 | a filter text parses exactly to what the grammar of its words means |
| `Bfs.Operators` | crates/df-ipc/src/bfs.rs:83-108 | between predicates, groups in parentheses and negations of these, ` -a `, ` -and ` and a blank parse to a conjunction, ` -o ` and ` -or ` to a disjunction |
| `Bfs.AloneOrNot` | crates/df-ipc/src/bfs.rs:110-128 | one of them alone parses to itself, and behind `! ` or `-not ` to its negation |
| `Bfs.TighterAnd` | crates/df-ipc/src/bfs.rs:83-108 | in a text with both, ` -a ` binds tighter than ` -o `, on either side of it |
| `Bfs.NamesTyped` | crates/df-ipc/src/bfs.rs:130-158 | `-name`, `-path` and `-newer` with an argument, in quotes of either kind or without, parse to that predicate of the argument |
| `Bfs.SizeTyped` | crates/df-ipc/src/bfs.rs:186-205 | `-size` with a sign, digits and a unit parses to the comparison of the sign with the digits times 1, 1024, 1024^2 or 1024^3, saturating |
| `Bfs.SizeForm` | crates/df-ipc/src/bfs.rs:186-205 | every text read as a size has that form, but for one more sign before its digits |
| `Bfs.OnlyPredicates` | crates/df-ipc/src/bfs.rs:130-146 | no other word starts a predicate |
| `Bfs.SizeRoundTrip` | crates/df-ipc/src/bfs.rs:188-205 | a size reads back with its comparison, signs included |
| `Bfs.NegativeEqualityUnwritable` | crates/df-ipc/src/bfs.rs:188-205 | no words read as equality with a negative size |
| `Bfs.ExprRoundTrip` | crates/df-ipc/src/bfs.rs:56-205 | the printed text of every expression, arguments in quotes where they need them, parses back to it |
| `Bfs.WritableIff` | crates/df-ipc/src/bfs.rs:56-205 | some text parses to an expression if and only if no argument has a blank and no size equality is negative |
| `Bfs.EvalExact` | crates/df-ipc/src/bfs.rs:214-247 | evaluation decides the meaning of the expression: sizes and times by arithmetic, an unknown time being false, and globs by their declarative meaning, unless a pattern and the name it meets both have a `*` |
| `Bfs.FileNameIff` | crates/df-ipc/src/bfs.rs:231-236 | the name that a path is matched by: its last component, trailing slashes and dots aside, if that is no `..` |
| `Bfs.NewerFilesSuffice` | crates/df-ipc/src/bfs.rs:162-178 | the times of the listed files are all that evaluation needs |
| `Lines.PiecesExact` | crates/df-content/src/lines.rs:31-45 | splitting into lines loses nothing and puts one terminator at the end of each but the last |
| `Lines.NewlineEnds` | crates/df-content/src/lines.rs:31-45 | lines end at newlines and nowhere else |
| `Lines.LineTextExact` | crates/df-content/src/lines.rs:25-45 | number and text of a match are those of the line it is on |
| `Lines.ContextBlock` | crates/df-content/src/lines.rs:48-101 | the two walks yield exactly lines max(1, L-n) to min(last, L+n) and the first number |
| `LineHits.FindCovers` | crates/df-content/src/lines.rs:12-22 | an occurrence that the non-overlapping search skips overlaps one it finds |
| `LineHits.EmitHits` | crates/deepfindd/src/lib.rs:183-210 | the loop with its seen set computes the hits of one file |
| `LineHits.LineModeIsGrep` | crates/deepfindd/src/lib.rs:183-210 | line mode prints every line containing the needle once, in order, with number and text |
| `LineHits.BlocksSound` | crates/deepfindd/src/lib.rs:183-210 | every block printed is the block around some matching line |
| `LineHits.BlocksCover` | crates/deepfindd/src/lib.rs:183-210 | every matching line is inside some block that is printed, although blocks are dropped by first line |
| `LineHits.BlocksAscend` | crates/deepfindd/src/lib.rs:183-210 | blocks come in the order of their first lines, no two with the same |
| `Overlay.Overlay.ApplyRecord` | crates/df-content/src/overlay.rs:46-94 | keeps the overlay invariant and refines last-writer-wins on the plain map |
| `Overlay.Overlay.ApplyRecords` | crates/df-content/src/overlay.rs:97-101 | replaying a list refines replay on the map |
| `Overlay.Overlay.RemoveDocPostings` | crates/df-content/src/overlay.rs:104-115 | removes exactly this document from the postings and leaves no empty one |
| `Overlay.UnpostStep` | crates/df-content/src/overlay.rs:104-115 | one removal keeps every posting exact |
| `Overlay.ReplayExact` | crates/df-content/src/overlay.rs:46-101 | after replay, a path has the entry of its last record, or its old one |
| `Overlay.ReplayAgain` | crates/df-content/src/overlay.rs:97-101 | replaying the whole log once more changes nothing |
| `Overlay.SameAnswers` | crates/df-content/src/overlay.rs:159-180 | overlays of one meaning give the same unlimited answers |
| `Overlay.Overlay.ContentQuery` | crates/df-content/src/overlay.rs:159-180 | each live matching path once with its metadata; under limit k exactly min(k, matches) of them |
| `Overlay.FoundDocs` | crates/df-content/src/overlay.rs:258-281 | the candidates over unsorted postings are all matching documents, each once |
| `Overlay.Overlay.FilenameQuery` | crates/df-content/src/overlay.rs:210-243 | each live path whose name, or last component, matches, once and with its metadata; under limit k exactly min(k, matches) of them |
| `Overlay.BasenameHit` | crates/df-content/src/overlay.rs:227-231 | a last-component query hits `dir/name` exactly when the needle occurs in `name` |
| `Overlay.Overlay.Suppresses` | crates/df-content/src/overlay.rs:142-144 | a path is suppressed exactly when the map has an entry for it |
| `Overlay.Overlay.ShadowsAnything` | crates/df-content/src/overlay.rs:134-136 | false exactly for the empty map |
| `Wal.DecodeRecords` | crates/df-content/src/overlay.rs:309-328 | the cursor loop computes the specified decoding of any bytes |
| `Wal.CutAnywhere` | crates/df-content/src/overlay.rs:298-328 | a log cut at any byte yields exactly the records whose frames are whole, in order |
| `Wal.WholeExact` | crates/df-content/src/overlay.rs:298-328 | which records these are: the longest prefix of frames that fits |
| `Wal.StopsAtBroken` | crates/df-content/src/overlay.rs:306-328 | behind whole frames, anything that is no whole frame, a record that does not decode included, ends decoding and loses none of them |
| `Wal.RoundTrip` | crates/df-content/src/overlay.rs:298-328 | an uncut log decodes to the records written |
| `Wal.CrashRecovery` | crates/df-index/src/overlay_store.rs:76-85 | recovery rebuilds the overlay of the whole frames |
| `Wal.AppendedDecode` | crates/df-index/src/overlay_store.rs:30-50 | what a recovery finds after appending to any file: the records found before, then what the bytes behind the last whole frame make with the appended ones |
| `Wal.AppendIff` | crates/df-index/src/overlay_store.rs:30-50 | an append to a reopened file loses nothing, whatever is appended, if and only if the file ends with a whole frame |
| `Wal.OverlayStore.Append` | crates/df-index/src/overlay_store.rs:45-50 | appends one frame |
| `Wal.OverlayHandle.constructor` | crates/deepfindd/src/lib.rs:384-406 | opening replays the decodable records; a later recovery agrees with memory exactly when the file ends with a whole frame |
| `Wal.OverlayHandle.RecordAndApply` | crates/deepfindd/src/lib.rs:421-435 | publishes a new snapshot for the batch, leaves the old one untouched, appends its frames, and keeps a recovery of the file in agreement with memory |
| `Wal.OverlayHandle.Clear` | crates/deepfindd/src/lib.rs:438-445 | empties both |
| `Manifest.EncodeManifest` | crates/df-index/src/manifest.rs:28-41 | the loop writes the specified bytes |
| `Manifest.DecodeManifest` | crates/df-index/src/manifest.rs:43-78 | the cursor loop computes the specified manifest or nothing, on any bytes, a name that is not UTF-8 included |
| `Manifest.RoundTrip` | crates/df-index/src/manifest.rs:28-78 | decoding an encoded manifest gives it back |
| `ContentBuild.Consumer.Receive` | crates/df-index/src/content_build.rs:314-336 | one record: the database grows by it, and the shards written and open stay the greedy cut of the content files |
| `ContentBuild.Consumer.Finish` | crates/df-index/src/content_build.rs:337-358 | the last shard is written, ids, bases and sizes are those of the groups |
| `ContentBuild.BuildPartitions` | crates/df-index/src/content_build.rs:304-359 | the shards partition the content files in order of arrival, and the total is their number |
| `ContentBuild.GroupsCut` | crates/df-index/src/content_build.rs:319-336 | no shard is empty, each but the last reaches the threshold with its last file and not before |
| `ContentBuild.GlobalDocid` | crates/df-index/src/content_build.rs:326-335 | each base docid is the number of content files before the shard |
| `ContentBuild.ShardNameInjective` | crates/df-index/src/content_build.rs:322-330 | no shard overwrites another |
| `ContentBuild.ShardNameExact` | crates/df-index/src/content_build.rs:322 | a shard file is named `shard-`, the number in five digits or more, `.dfcs` |
| `ContentBuild.BuildIndex` | crates/df-index/src/content_build.rs:269-482 | whatever the directory held before, the database and the directory left behind, manifest included, index the records, and only the manifest and shard files are written over |
| `Layouts.HeaderLayout` | crates/df-core/src/db.rs:13-15 | magic, version 2 and each header field of a filename database at its byte |
| `Layouts.OpenIff` | crates/df-core/src/db.rs:361-417 | any bytes open as a filename database if and only if magic and version are right and dictionary and block index lie inside |
| `Layouts.DatabaseLayout` | crates/df-core/src/db.rs:13-22 | the sections lie where the header says |
| `Layouts.DocsLayout` | crates/df-core/src/db.rs:16-18 | dictionary and block index of the path section |
| `Layouts.RefLayout` | crates/df-core/src/db.rs:17 | one entry of the block index, 16 bytes |
| `Layouts.BlockOfPath` | crates/df-core/src/db.rs:194-206 | path d is in block d / 256 at place d % 256 |
| `Layouts.MetaLayout` | crates/df-core/src/db.rs:19 | a metadata record: flag, size and time in two's complement, 17 bytes |
| `Layouts.SlotLayout` | crates/df-core/src/db.rs:20-21 | a table slot, 20 bytes |
| `Layouts.TableLayout` | crates/df-core/src/db.rs:20-21 | slot i of the table, and the key that marks an empty one |
| `Layouts.PostingLayout` | crates/df-core/src/turbopfor.rs:15 | version, count and blocks of 128 of a posting |
| `Layouts.BlockLayout` | crates/df-core/src/turbopfor.rs:7-23 | width and exception count of a block, and where bit p of value i stands in its frame |
| `Layouts.PatchLayout` | crates/df-core/src/turbopfor.rs:13 | where the position and value of each exception stand |
| `Layouts.CostIs` | crates/df-core/src/turbopfor.rs:61-79 | the cost that the width minimizes: its bits for every value and 32 for each one that does not fit |
| `Layouts.ContainerLayout` | crates/df-content/src/shard.rs:4-11 | sections, table of contents and footer of a shard |
| `Layouts.ShardNeeds` | crates/df-content/src/shard.rs:231-307 | what opens as a shard has a footer that points right before itself and a first section of version 1, whose fields the reader shows |
| `Layouts.TocLayout` | crates/df-content/src/shard.rs:7-9 | one entry of the table of contents |
| `Layouts.SectionNames` | crates/df-content/src/shard.rs:12-19 | the seven sections and what each holds |
| `Layouts.ShardMetaLayout` | crates/df-content/src/shard.rs:13 | the fields of the first section |
| `Layouts.OffsetLayout` | crates/df-content/src/shard.rs:16-17 | where offset and length of file i stand, and that they name its bytes in the corpus |
| `Layouts.ManifestLayout` | crates/df-index/src/manifest.rs:26-41 | time, totals and entries of the manifest |
| `Layouts.ManifestNeeds` | crates/df-index/src/manifest.rs:43-78 | what decodes as a manifest has its three numbers in front and as many entries as it says |
| `Layouts.EntryLayout` | crates/df-index/src/manifest.rs:26-41 | one entry of the manifest |
| `Layouts.FrameLayout` | crates/df-content/src/overlay.rs:298-304 | a frame of the log: length and record |
| `Merge.Merged.MergeIn` | crates/deepfindd/src/lib.rs:1253-1269 | a new path comes in only below the cap, which stays kept; no other entry changes; a known path keeps its metadata and gains the layer |
| `Merge.Merged.OverrideIn` | crates/deepfindd/src/lib.rs:1232-1250 | likewise, but the metadata is replaced |
| `Merge.CombineKind` | crates/deepfindd/src/lib.rs:1271-1279 | the combined kind names a layer if and only if one of the two does |
| `Merge.FillStep` | crates/deepfindd/src/lib.rs:1232-1269 | one hit more: the map holds what it held before and of the layers joined so far as much as the cap allows |
| `Merge.FilledSize` | crates/deepfindd/src/lib.rs:623-717 | a result under a cap of k has min(k, kept + found) entries |
| `Merge.FirstsTake` | crates/deepfindd/src/lib.rs:630-678 | a limit of k on a source changes nothing of the first k paths that come in |
| `ColdLayers.NamesCapped` | crates/deepfindd/src/lib.rs:630-659 | the rows of the filename layer are the indexed paths that the query selects; a limit leaves a beginning of them, without a scope the first ones |
| `ColdLayers.LimitedNamesAre` | crates/deepfindd/src/lib.rs:630-658 | under every limit the rows are, among the first so many paths that the query selects, those in scope and, if last components are asked for, matching there |
| `ColdLayers.MergeNames` | crates/deepfindd/src/lib.rs:634-658 | the loop over the docids, stopping when the result is full, leaves of these rows what there is room for |
| `ColdLayers.QueryShards` | crates/deepfindd/src/lib.rs:220-250 | the loops over shards and docids compute the specified rows |
| `ColdLayers.AllShardRowsExact` | crates/deepfindd/src/lib.rs:220-250 | an unlimited query of all shards returns exactly the matching content files in scope |
| `ColdLayers.AllShardRowsAre` | crates/deepfindd/src/lib.rs:220-250 | under every limit the rows are those in scope of the first so many matching files of each shard |
| `ColdLayers.AllShardFirsts` | crates/deepfindd/src/lib.rs:220-250 | a limit of k on each shard changes nothing of the first k paths that come in |
| `ColdLayers.LoadShardSet` | crates/deepfindd/src/lib.rs:78-89 | loads the shards the manifest lists, skipping missing ones |
| `ColdLayers.BuiltAnswers` | crates/deepfindd/src/lib.rs:78-98 | what a build wrote, opened and loaded, answers for the records it was built from |
| `QueryEntry.HitIsPart` | crates/deepfindd/src/lib.rs:623-717 | a hit is a name, last component or content that has the text of the query as a part, exactly or up to the case of letters |
| `QueryEntry.BasenameMatches` | crates/deepfindd/src/lib.rs:645-655 | a path whose last component matches matches itself, so the filter by last component loses nothing |
| `QueryEntry.RecordFound` | crates/df-index/src/content_build.rs:315-317 | what a scan returns of an unshadowed record: its own directory flag, size and time, and as kind how it matched |
| `QueryEntry.LayersAreScan` | crates/deepfindd/src/lib.rs:623-717 | for a single word, when the cold layers agree about the unshadowed paths, all layers together are the scan of the updated files, kinds and metadata included |
| `QueryEntry.PlainIff` | crates/deepfindd/src/lib.rs:623-717 | for full paths without a scope this holds of all files and overlays if and only if no names are asked for or the text is a single non-empty word |
| `QueryEntry.LimitExact` | crates/deepfindd/src/lib.rs:623-717 | under any limits and scope, the kept cold paths and those that the overlay gives together reach the length of the limited scan if and only if they fill the cap or none was dropped |
| `QueryEntry.FairFirsts` | crates/deepfindd/src/lib.rs:623-717 | with a limit for all layers alike, full paths and no scope, the cold paths kept are from the first k of all cold hits |
| `QueryEntry.UnshadowedFills` | crates/deepfindd/src/lib.rs:623-717 | so nothing is dropped when the overlay shadows none of these and is limited, if at all, as the result is and without a scope |
| `QueryEntry.ScopedLimit` | crates/deepfindd/src/lib.rs:954-955 | a limited query for names in a scope is as long as the limited scan: the limit counts hits in scope |
| `QueryEntry.ScopeUsesLimit` | crates/deepfindd/src/lib.rs:220-250 | a content query in a scope can spend its limit on a file outside it, and miss one inside |
| `QueryEntry.LimitLosesHits` | crates/deepfindd/src/lib.rs:630-690 | otherwise hits are lost: of two matching files, the first deleted since, a limit of one finds none |
| `QueryEntry.GroundedWithin` | crates/deepfindd/src/lib.rs:623-717 | under any limits a result is part of what the layers hold: same metadata, and no layer named that did not find the path |
| `QueryEntry.QueryOne` | crates/deepfindd/src/lib.rs:623-717 | any text, limits, scope and last components: every entry has its layers as reason; all cold paths that the limits leave unshadowed are kept; of the overlay come as many matches of each kind as its limit allows, those in scope, as far as they fit; so paths and number are known; without limits the result is what the layers hold, unshadowed names judged as a formula and shadowed ones as plain text |
| `QueryEntry.QueryBuilt` | crates/deepfindd/src/lib.rs:623-717 | a content query, or a single word, over one build: without limits the scan of the updated files, under limits a part of it with the paths of `QueryOne`, as long as the limited scan if and only if the limits lose nothing |
| `LineQuery.QueryLines` | crates/deepfindd/src/lib.rs:147-211 | the loops over shards, docids and matches compute the specified hits |
| `LineQuery.OverlayLineHits` | crates/deepfindd/src/lib.rs:573-618 | the hits are those of the shortest beginning of the slots whose hits reach the limit, or of all slots when none do |
| `LineQuery.LineMode` | crates/deepfindd/src/lib.rs:1040-1071 | under any limit, each path is printed whole or not at all: what a scan of the updated files prints for it, if the overlay has no entry and it is among the first so many matching files of its shard, or if its slot is in that shortest beginning; without a limit, every path |
| `LineQuery.ShardLinesExact` | crates/deepfindd/src/lib.rs:159-210 | a shard prints the hits of its first so many matching files, counted without the scope |
| `LineQuery.AllShardLinesExact` | crates/deepfindd/src/lib.rs:147-211 | and the shards together, one after the other; without a limit those of all content files in scope |
| `LineQuery.FileLinesAreGrep` | crates/deepfindd/src/lib.rs:183-210 | and that is, per file, each line containing the needle once, with number and text |
| `LineQuery.LineHitIsPart` | crates/deepfindd/src/lib.rs:183-210 | a line is printed when it has the text of the query as a part, exactly or up to the case of letters |
| `LineQuery.GrepIff` | crates/deepfindd/src/lib.rs:183-210 | line mode prints the matching lines of every file if and only if the needle is not empty and has no newline |
| `UpdateProtocol.StepKeeps` | crates/deepfindd/src/lib.rs:1394-1433 | every step of watcher, compaction, safety net and file system keeps the invariant of every path |
| `UpdateProtocol.CompactionKeeps` | crates/deepfindd/src/lib.rs:344-369 | rebuild, swap, clear, reload and release keep it, including between swap and clear and between clear and reload |
| `UpdateProtocol.NetKeeps` | crates/deepfindd/src/lib.rs:262-286 | so does the concurrent rebuild that does not clear |
| `UpdateProtocol.StaysExclusive` | crates/deepfindd/src/index_job.rs:58-67 | at most one builder runs, and the marker exists exactly while one does |
| `UpdateProtocol.AlwaysCurrent` | crates/deepfindd/src/lib.rs:1394-1433 | in every run, at every step, the content view of each path without a pending event is the file as it is |
| `UpdateProtocol.NamesCurrent` | crates/deepfindd/src/lib.rs:344-369 | so is its name view, except between the clearing of the overlay and the reload of the filename reader |
| `UpdateProtocol.WindowIff` | crates/deepfindd/src/lib.rs:358-363 | in that window it is so if and only if the overlay's dropped entry told what the old reader tells |
| `UpdateProtocol.NamesStaleInWindow` | crates/deepfindd/src/lib.rs:358-363 | a run, marker held, in which no event is pending and a name is seen stale |
| `UpdateProtocol.FoundCurrent` | crates/deepfindd/src/lib.rs:623-717 | at every step a content query or single word finds of each such path what a scan of the files as they are finds |
| `UpdateProtocol.QuietIsExact` | crates/deepfindd/src/lib.rs:623-717 | so when no event is pending it answers for the files as they are: content queries always, names outside the window or where the old reader missed nothing |
| `UpdateProtocol.AnswerAt` | crates/deepfindd/src/lib.rs:623-717 | both, of the query method run on the reader, shards and overlay of a state |
| `UpdateProtocol.MarkerNeeded` | crates/deepfindd/src/index_job.rs:58-67 | without the marker there is a run after which a path without pending events is seen stale |
| `UpdateProgress.EventsTakenIn` | crates/deepfindd/src/lib.rs:1394-1433 | from any state in which events wait, a chain of steps without file changes leads to the whole batch applied: nothing is pending, and of each path that waited the overlay tells what the file is |
| `UpdateProgress.TakenInTells` | crates/deepfindd/src/lib.rs:1400-1421 | of the paths outside the batch the overlay tells what it told before |
| `UpdateProgress.CompactionCompletes` | crates/deepfindd/src/lib.rs:344-369 | a compaction that may start can finish, and then shards and names alone tell every file as it is |
| `UpdateProgress.RebuildCompletes` | crates/deepfindd/src/lib.rs:262-286 | so can a rebuild by the safety net; whatever changes the watcher missed, a path is then seen as it is if and only if the overlay has no entry that tells otherwise |
| `UpdateProgress.WorkShrinks` | crates/deepfindd/src/lib.rs:1394-1433 | every step of the watcher leaves less to do, and nothing but a file change adds to it |
| `UpdateProgress.NeverStuck` | crates/deepfindd/src/lib.rs:1394-1433 | while there is work the watcher can take a step, whatever the safety net does |
| `UpdateProgress.StepsBounded` | crates/deepfindd/src/lib.rs:1394-1433 | so as long as no file changes, in any order of the threads, it takes no more steps than the measure says |
| `UpdateProgress.ComesToRest` | crates/deepfindd/src/lib.rs:1394-1433 | every run, from whatever state it is in, can come to rest without a file changing, with nothing pending, and every plain query is then a scan of the files as they are |
| `UpdateRaces.ChangesAnytime` | crates/deepfindd/src/lib.rs:1394-1433 | any file can change in any state; its path is then pending, and what answers queries is as before |
| `UpdateRaces.AnyStart` | crates/deepfindd/src/lib.rs:1340-1433 | a run can start over any build that was opened and any overlay, and the query method serves that state |
| `UpdateRaces.Races` | crates/deepfindd/src/lib.rs:1394-1433 | the watcher, a compaction and the safety net may find anything of a path that changed since they began to read, and a build may miss it |
| `UpdateRaces.BuildsCanFail` | crates/deepfindd/src/lib.rs:262-286 | a build that is not yet published can fail, which changes nothing but the marker |

## Left out

- Unicode: case folding and blanks beyond ASCII, and lossy conversion of printed lines.
- Regex search, file-type tables, ignore rules and the other command-line filters; only the glob and the find-style filter are modelled.
- Sockets, streaming, sorting, settings, the registry of several databases, and merging across databases.
- zstd, serialization, memory maps and file-system calls, beyond the laws named above; disk failures and partially written files.
- Which paths a scope holds (`crates/df-core/src/scope.rs:16-29`) and when a query tells letter cases apart are parameters: a scope is any set of paths.
- `hash` and the dictionary training are parameters: nothing depends on what they compute.
- Contents that decide whether a file is text (`classify`); records arrive already classified.
- In-place `sort`, `dedup` and the sorted set of docids are functions, not library calls on mutable containers.
- Docids, block starts and line numbers are unbounded inside the overlay, an opened database and the line helpers; they differ from the original only past 32 bits.
- TurboPFor.DecodeBlock: a stored bit width above 32 is an abort, as in a build with arithmetic checks; without them the original shifts modulo 32. No encoder writes such a width.
- A query that overlaps a compaction: the protocol is about states of the daemon, while one running query spans several; and builds started on demand use handles of their own.
- The compaction threshold: whether a compaction starts after a batch is left open, so the theorem covers every threshold and every skipped attempt.
- Debounce and interval timing, flushing of the log to disk, crashes inside a multi-shard build, and the sweep of stale markers at start-up.
