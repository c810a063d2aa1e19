# TokMan: a Dafny model of its stateful core

TokMan compresses the output of command-line tools before it reaches a language
model.  This project models the parts of it that carry algorithmic content and
proves what they guarantee, for every input, every run and every order in which
a Go map may be iterated.

| file | what it covers |
|---|---|
| `Collections`, `Text` | map iteration orders, lists; the Go string functions the rest uses |
| `Dictionary` and five more | the learned codebook: state (`Dictionary`), encoded texts as tokens (`DictionaryTokens`), symbols and conditions (`DictionaryCodes`), texts that come back (`DictionaryRoundTrip`), calls that are not undone (`DictionaryLimits`), and exactly which dictionaries undo all calls (`DictionaryExact`) |
| `BenchmarkDsl`, `DslProperties`, `DslRoundTrip`, `DslExactness` | the benchmark DSL: parser and builder, what every line does, and exactly which definitions survive both |
| `SegmentRewriter`, `RewriterExactness`, `CommandScanner`, `ScannerExactness` | the shell command rewriter: one command, compound commands, and exactly what becomes of each |
| `LruCache`, `LayeredCache`, `MultiLayerCache`, `TokenCache` | the caches; the last one under concurrent threads |
| `Hamming`, `Dedup` | fingerprints of messages and the near-duplicate tracker |
| `CircuitBreaker`, `BudgetAlerts`, `AlertTriggers` | the breaker as a function of its trace; alerts under interleaved evaluators; cooldown and trigger count |
| `TokenBudget`, `Economics`, `Folding` | budget enforcement, merging of usage and savings, line folding |

Objects that the program updates in place are classes.  Their methods are proved
against functions on a value (`View()`), and the theorems are about those
functions over whole runs.  A `for … range` over a Go map is a loop that picks
the remaining keys in any order and records the order it took; theorems quantify
over all such orders (`Collections.IsOrder`).  Lock sections are atomic steps of
a thread, every access outside a lock is a step of its own, and a run is any
sequence of scheduling decisions.  Clock readings are
arguments.

## Main results

1. **Codebook.** Codebook and reverse map stay mutually inverse bijections onto
   `$01 … $NN`; `saved` is exactly the difference in bytes.  All calls on `$`-free
   texts are undone, in any three iteration orders, if and only if every word past
   code 255 is the word of the symbol it continues and one digit, and no word w
   reaches into the symbol s of another word u: w starts with s less its first one
   or two characters, and what follows in w does not contain u (`UndoneExactly`,
   `UndoneExactlyShort` for up to 255 codes).  The theorem leaves out dictionaries
   where a symbol of more than two digits repairs such a reach, and there the text
   does come back (`RepairedComesBack`).  After every run, outputs decode at any
   later time (`RunRoundTrip`).  Each failing direction constructs a call.
2. **DSL.** Every line sets exactly the field it names, or is rejected at its number.
   For every list of definitions and every parameter order, parsing what
   `Build` wrote returns the list if and only if all of its definitions are
   well-formed.
3. **Rewriter.** A command is rewritten exactly when and as its cases say, with the
   longest env prefix kept.  The index scanner refines a recursive splitter, whose
   parts are the only ones cut at every inspected, unquoted operator; separators and
   piped tail survive in order; nothing but white space changes when no segment
   does; rewriting a segment twice is rewriting it once.  The scanner skips one
   character per segment: exactly when this changes the cuts, and exactly when it
   makes one fall inside quotes.
4. **Caches.** The three layers behave like one map.  In the LRU layer the list
   is in last-use order, eviction takes the oldest, and a value is retained while
   fewer other keys than the capacity are used.  A full LFU cache may grow exactly
   if the key `""` is stored and least used.  The token-count cache is
   invisible under every interleaving.
5. **Tracker.** The bit-clearing loop computes a metric, and tracked fingerprints
   are a packing that covers all messages.
6. **State machines.** The breaker opens, admits and closes exactly when its trace
   says; since nothing drains its channel, a sequential client recovers an open
   breaker only for success thresholds up to 2 (the default is 3).  Every rule
   has at most one active alert, and every alert is what its history says; a rule's
   triggers keep its cooldown under every interleaving if and only if it has none
   or can never fire, and whenever its evaluations do not overlap; likewise for
   its trigger count.
7. **Arithmetic.** Greedy budget selection, exactly which lines keep it within
   every limit once joined,
   conservation of merged sums, and losslessness of folding, with the output of
   the log folder characterised uniquely.

## Where the code and its documentation differ

The model follows the code.

- While half-open the breaker is said to let one request at a time through
  (`internal/circuitbreaker/breaker.go:106`); the channel is filled once and never
  drained, so one such request passes in the breaker's whole life
  (`OneTestEver`, `RecoversExactly`).
- `rewriteCompound` means to respect quotes, but after an operator the loop's own
  increment passes over the first character of the next segment, so a quote there
  is not seen (`SkipExactly`, `ScannerCutsUnquoted`, `SkipCutsQuoted`).
- `enforceStrict` reports the cost of the lines without the newlines that join
  them, so its result can exceed every limit by any amount (`StrictOvershoots`,
  `StrictFitsExactly`).
- A parameter whose key is `benchmark`, or starts with `benchmark `, is written
  as a line that the parser takes for a new benchmark (`RoundTripExactly`).
- The LFU cache cannot evict the key `""`, so no capacity bounds it
  (`LfuGrowsExactly`, `LfuOverflows`).
- A rule's cooldown is checked at the start of an evaluation and stamped at its
  end, and its count is incremented without a lock, so overlapping evaluations can
  trigger within the cooldown and lose counts (`CooldownExactly`, `CountExactly`,
  `OverlapStampsTwice`).
- `DiffCrunch` with a negative context maximum claims more folded lines than there
  were (`DiffConservesExactly`).
- The merge functions take addresses of fields of the loop variable; the module's
  Go version gives each iteration its own variable, so nothing is aliased.

## Model

| member | source | states |
|---|---|---|
| `Dictionary.SymbolInjective` | internal/filter/claw_compactor_stages.go:332 | different counters give different symbols |
| `DictionaryCodes.SymbolExamples` | internal/filter/claw_compactor_stages.go:332 | symbols are written in capitals with at least two digits |
| `Dictionary.ReplaceAllLength` | internal/filter/claw_compactor_stages.go:342-348 | replacing shrinks a text by the number of occurrences times the difference in bytes |
| `Dictionary.FrequenciesCount` | internal/filter/claw_compactor_stages.go:319-325 | the frequency map counts exactly the occurrences of the fields longer than three bytes |
| `Text.SpacesAre` | internal/filter/claw_compactor_stages.go:320 | white space is the 25 characters of that Unicode property |
| `Text.Utf8Length` | internal/filter/claw_compactor_stages.go:322 | a character counts for the bytes that encode it in UTF-8 |
| `Text.FieldsSplit` | internal/filter/claw_compactor_stages.go:320 | white space separates the fields on its two sides |
| `Text.FieldsStanding` | internal/filter/claw_compactor_stages.go:320-325 | every word is listed as often as it stands by itself in the text |
| `Dictionary.EncodeLearns` | internal/filter/claw_compactor_stages.go:328-337 | codebook and reverse stay inverse bijections of size `counter`, old codes stay, and exactly the words of more than five bytes that stand by themselves at three or more places are added, whatever the order |
| `Dictionary.DictionaryEncoding.constructor` | internal/filter/claw_compactor_stages.go:309-314 | a fresh dictionary is consistent |
| `Dictionary.DictionaryEncoding.CountWords` | internal/filter/claw_compactor_stages.go:319-325 | the loop computes the frequency map |
| `Dictionary.DictionaryEncoding.LearnWords` | internal/filter/claw_compactor_stages.go:328-337 | the loop learns the words in some iteration order of the map |
| `Dictionary.DictionaryEncoding.Encode` | internal/filter/claw_compactor_stages.go:317-351 | one call is an `Encodes` step for some two orders, keeps the invariant, and `saved` is input bytes minus output bytes |
| `Dictionary.DictionaryEncoding.Apply` | internal/filter/claw_compactor_stages.go:340-350 | the substitution loop, with exact accounting |
| `Dictionary.DictionaryEncoding.Decode` | internal/filter/claw_compactor_stages.go:354-360 | decoding substitutes symbols by words in some order of the reverse map |
| `DictionaryRoundTrip.SeparatedIf` | internal/filter/claw_compactor_stages.go:328-337 | at most 255 codes and no word with `$` or a leading hexadecimal digit make a dictionary separated |
| `DictionaryTokens.ReplaceIsMerge` | internal/filter/claw_compactor_stages.go:345 | where no occurrence starts inside a symbol, substituting a word merges its characters into other tokens and changes nothing else |
| `DictionaryTokens.ReplaceIsUnfold` | internal/filter/claw_compactor_stages.go:356-358 | substituting a symbol of any length takes exactly its own occurrences apart |
| `DictionaryRoundTrip.DecodeAfterEncode` | internal/filter/claw_compactor_stages.go:340-360 | decode after encode, in any orders and with any later dictionary, expands the symbols the text spelled out and changes nothing else |
| `DictionaryRoundTrip.RoundTripIff` | internal/filter/claw_compactor_stages.go:317-360 | for a separated dictionary, text by text: it comes back if and only if it spells out no symbol |
| `DictionaryRoundTrip.RunInvariant` | internal/filter/claw_compactor_stages.go:317-351 | after every run of calls the dictionary is consistent and holds exactly the words some text taught |
| `DictionaryRoundTrip.RunExtends` | internal/filter/claw_compactor_stages.go:317-351 | later calls only add codes |
| `DictionaryLimits.QuietCall` | internal/filter/claw_compactor_stages.go:317-351 | encoding a text without white space is a call that leaves the dictionary as it is |
| `DictionaryLimits.OverlapFails` | internal/filter/claw_compactor_stages.go:340-360 | whenever a word reaches into the symbol of another one and no longer symbol repairs it, a call on a `$`-free text is not undone |
| `DictionaryLimits.RepairedComesBack` | internal/filter/claw_compactor_stages.go:340-360 | where one does, what the two words make of that text comes back in every order |
| `DictionaryLimits.PastLimitFails` | internal/filter/claw_compactor_stages.go:332-360 | a word past code 255 that is not the word of the earlier symbol and a digit is not undone |
| `DictionaryCodes.CompactIf` | internal/filter/claw_compactor_stages.go:332 | with fewer than 0x100000 codes no word fits into a symbol |
| `DictionaryCodes.HexFreeClear` | internal/filter/claw_compactor_stages.go:328-337 | words that start with no hexadecimal digit reach into no symbol |
| `DictionaryExact.MergeMade` | internal/filter/claw_compactor_stages.go:345 | after every pass each symbol was made by a word already done, and up to the next symbol that word is not spelled behind it |
| `DictionaryExact.ClearRoundTrip` | internal/filter/claw_compactor_stages.go:340-360 | what a clear dictionary encodes every later chained one decodes, in any orders, unless the text spells out a symbol |
| `DictionaryExact.UndoneIf` | internal/filter/claw_compactor_stages.go:317-360 | calls of a chained and clear dictionary are undone, whatever its words and number of codes |
| `DictionaryExact.UndoneOnlyIf` | internal/filter/claw_compactor_stages.go:317-360 | calls are undone only by chained dictionaries in which no word harms another one's symbol |
| `DictionaryExact.UndoneExactly` | internal/filter/claw_compactor_stages.go:317-360 | all calls on `$`-free texts are undone if and only if the dictionary is chained and clear, where no reach is repaired |
| `DictionaryExact.UndoneExactlyShort` | internal/filter/claw_compactor_stages.go:317-360 | with at most 255 codes: if and only if no word reaches into another one's symbol |
| `DictionaryExact.UndoneExactlyHexFree` | internal/filter/claw_compactor_stages.go:317-360 | with words that start with no hexadecimal digit: if and only if the dictionary is chained |
| `DictionaryExact.RunPlain` | internal/filter/claw_compactor_stages.go:317-351 | every run of `$`-free texts teaches only words without `$` and white space |
| `DictionaryExact.RunRoundTrip` | internal/filter/claw_compactor_stages.go:317-360 | every output of a run of `$`-free texts decodes to its text, then or any time later, if the dictionary was clear after the call and is chained when decoding |
| `DictionaryExact.RunExactly` | internal/filter/claw_compactor_stages.go:317-360 | after every such run, calls that teach nothing new are undone if and only if the dictionary is chained and clear |
| `DictionaryExact.SpelledSymbolComesBack` | internal/filter/claw_compactor_stages.go:340-360 | a text that spells out a symbol can come back when a word starts with a digit of its own symbol |
| `BenchmarkDsl.DSLParser.ParseLine` | internal/benchmarking/dsl.go:54-87 | one line advances the parser state or reports its error |
| `BenchmarkDsl.DSLParser.Parse` | internal/benchmarking/dsl.go:49-96 | parsing is feeding all lines; on an error the line number is reported and the finished benchmarks stay |
| `DslProperties.PropertyExactly` | internal/benchmarking/dsl.go:85-158 | a property line sets exactly the field it names to the value it gives and leaves all others, or is rejected if the value does not convert |
| `DslProperties.IdleLines` | internal/benchmarking/dsl.go:56-106 | blank lines, comments and the lines of a validate block change nothing |
| `DslProperties.DirectiveExactly` | internal/benchmarking/dsl.go:62-78 | a directive finishes the current benchmark and starts one with 100 iterations, 30 seconds and one warmup |
| `DslProperties.RejectedLines` | internal/benchmarking/dsl.go:80-112 | any other line is rejected before the first benchmark or without an equals sign |
| `DslProperties.FirstErrorReported` | internal/benchmarking/dsl.go:53-88 | the first rejected line ends the parse with its number, what was read before it staying |
| `DslProperties.ParseFailsAt` | internal/benchmarking/dsl.go:49-88 | the error of a parse names a rejected line, counted from 1 |
| `DslProperties.FailureHasLine` | internal/benchmarking/dsl.go:53-88 | and a parse fails only so |
| `DslProperties.ReadValueExactly` | internal/benchmarking/dsl.go:145-154 | an integer if it converts, else a float, else a truth value, else the text without its outer quotes |
| `DslProperties.AtoiSigned` | internal/benchmarking/dsl.go:123 | a sign in front of digits |
| `DslProperties.AtoiZero` | internal/benchmarking/dsl.go:123 | a leading zero changes nothing |
| `DslProperties.AtoiOnlyIf` | internal/benchmarking/dsl.go:123 | nothing else is an integer |
| `DslProperties.ParseBoolExactly` | internal/benchmarking/dsl.go:150 | the twelve truth values |
| `DslProperties.TrimQuotesExactly` | internal/benchmarking/dsl.go:121 | the quotes at both ends go, and nothing else |
| `DslProperties.BuildDefaults` | internal/benchmarking/dsl.go:186-225 | nothing is written for defaults and empty fields |
| `DslProperties.BuildExample` | internal/benchmarking/dsl.go:186-225 | the layout of a definition |
| `BenchmarkDsl.DSLBuilder.AddBenchmark` | internal/benchmarking/dsl.go:173-183 | a new definition with the defaults is appended |
| `BenchmarkDsl.DSLBuilder.WriteHeader` | internal/benchmarking/dsl.go:190-210 | the header lines, defaults and empty fields left out |
| `BenchmarkDsl.DSLBuilder.WriteParameters` | internal/benchmarking/dsl.go:212-219 | one line per parameter, in some iteration order |
| `BenchmarkDsl.DSLBuilder.Build` | internal/benchmarking/dsl.go:186-225 | the text of all definitions, for some parameter orders |
| `DslRoundTrip.AtoiOfItoa` | internal/benchmarking/dsl.go:122-139 | every 64-bit integer reads back |
| `DslRoundTrip.ValueReadsBack` | internal/benchmarking/dsl.go:145-154 | every int, bool and quote-free string reads back with its type; a float as its printed form reads |
| `DslRoundTrip.StepProperty` | internal/benchmarking/dsl.go:98-158 | a written property line assigns exactly its key and value |
| `DslRoundTrip.FeedHeader` | internal/benchmarking/dsl.go:190-210 | the header lines restore all fields, omitted defaults included |
| `DslRoundTrip.FeedDefinition` | internal/benchmarking/dsl.go:186-225 | the lines of a printable definition finish the previous one and restore this one, in any parameter order |
| `DslRoundTrip.FeedAll` | internal/benchmarking/dsl.go:186-225 | the lines of all definitions restore them in order |
| `DslRoundTrip.SplitUnlines` | internal/benchmarking/dsl.go:50 | splitting the built text gives back its lines |
| `DslExactness.FeedShaped` | internal/benchmarking/dsl.go:49-158 | every definition any text parses to has the parser's shape |
| `DslExactness.FeedCounts` | internal/benchmarking/dsl.go:62-93 | a successful parse returns one definition per directive line |
| `DslExactness.ParseOfBuild` | internal/benchmarking/dsl.go:49-225 | parsing what was built from printable definitions returns them, floats read anew |
| `DslExactness.RoundTripExactly` | internal/benchmarking/dsl.go:49-225 | the definitions come back if and only if all are well-formed |
| `SegmentRewriter.ItemStable` | internal/discover/registry.go:124-125 | an item of the env prefix is recognised again by its own text |
| `SegmentRewriter.EnvPrefixStable` | internal/discover/registry.go:124-125 | the maximal env prefix is recovered exactly in front of any text that starts no item |
| `SegmentRewriter.ChangedShape` | internal/discover/registry.go:474-560 | a reported change puts a `tokman` command behind the original env prefix |
| `SegmentRewriter.UnchangedShape` | internal/discover/registry.go:474-560 | without a change the segment is returned as it came or trimmed |
| `SegmentRewriter.RewriteIdempotent` | internal/discover/registry.go:474-560 | a second pass returns the same segment and reports no change |
| `RewriterExactness.ClassesAre` | internal/discover/registry.go:125 | the character classes of the env prefix pattern |
| `RewriterExactness.EnvPrefixIsPrefix` | internal/discover/registry.go:124-125 | the env prefix consists of sudo, env and assignments, each with white space behind it |
| `RewriterExactness.EnvPrefixLongest` | internal/discover/registry.go:124-125 | and it is the longest such prefix |
| `RewriterExactness.NormaliseExactly` | internal/discover/registry.go:495-499 | git options go first, then the directory of the binary; other commands stay |
| `RewriterExactness.RuleApplies` | internal/discover/registry.go:512-573 | the first rule with the command of the last matching pattern puts it in place of its first prefix that applies, between env prefix and arguments |
| `RewriterExactness.RewriteExactly` | internal/discover/registry.go:474-560 | a command is changed if and only if it is open to rewriting and head, tail or a rule applies; the head and tail forms; all else comes back as it is |
| `CommandScanner.PiecesCover` | internal/discover/registry.go:254-354 | the parts put together are the input |
| `CommandScanner.PassOperator` | internal/discover/registry.go:269-342 | the separator written for an operator and the start of the next segment |
| `CommandScanner.RewriteCompound` | internal/discover/registry.go:254-354 | the scanner computes what the recursive splitter and rewriter specify, within bounds |
| `ScannerExactness.CutsExactly` | internal/discover/registry.go:254-354 | the scanner's parts are the only ones cut at every operator it inspects outside quotes and nowhere else; a single `&` cuts only without `>` beside it |
| `ScannerExactness.InsideQuotes` | internal/discover/registry.go:265-268 | inside a quoted span nothing counts but the same quote |
| `ScannerExactness.ReportedExactly` | internal/discover/registry.go:254-354 | a change is reported if and only if a segment that is looked at changes |
| `ScannerExactness.SeparatorExactly` | internal/discover/registry.go:274-341 | one blank on either side of an operator; `;` directly, with a blank behind it if there was one |
| `ScannerExactness.PipedExactly` | internal/discover/registry.go:464-471 | a segment piped out of find, fd or locate is left alone, and no other |
| `ScannerExactness.CommandExactly` | internal/discover/registry.go:227-251 | blank text, here-documents and arithmetic expansions are not attempted; a single tokman command stays |
| `CommandScanner.InputText` | internal/discover/registry.go:254-354 | the input's non-blank text is segments and operators, then the piped tail |
| `CommandScanner.OutputText` | internal/discover/registry.go:254-354 | the output's non-blank text is the same with every segment rewritten, operators and tail unchanged and in order |
| `CommandScanner.UnchangedText` | internal/discover/registry.go:254-354 | without a change both texts agree |
| `CommandScanner.CompoundUnchanged` | internal/discover/registry.go:254-354 | without a change input and output have the same non-blank characters |
| `CommandScanner.InspectingCutsUnquoted` | internal/discover/registry.go:262-269 | a splitter that inspects every character never cuts inside quotes |
| `CommandScanner.RuleKeepsArguments` | internal/discover/registry.go:512-573 | a rule replaces one of its own prefixes by its command, and env prefix and arguments keep every non-blank character in order; no rule rewrites an excluded command |
| `CommandScanner.QuotesApart` | internal/discover/registry.go:262-269 | scans with different quote states never see the same operator |
| `CommandScanner.SkipExactly` | internal/discover/registry.go:262-343 | the scanner cuts as that splitter does if and only if no segment starts with an operator, and one that starts with a quote has no operator behind it under either reading |
| `CommandScanner.ScannerCutsUnquoted` | internal/discover/registry.go:262-343 | for every command, all cuts fall outside quotes if and only if no segment behind an operator, but the last, starts with a quote |
| `CommandScanner.InspectedCutsUnquoted` | internal/discover/registry.go:262-343 | where no segment starts with an operator: if and only if the first segment behind an operator that starts with a quote has no operator behind it once that quote is ignored |
| `CommandScanner.SkipCutsQuoted` | internal/discover/registry.go:300-312 | on `a&&'b;c'` one falls inside |
| `CommandScanner.SkippableExactly` | internal/discover/registry.go:262-343 | skipping a segment's first character is harmless for every continuation if and only if it is plain |
| `CommandScanner.CommandUnchanged` | internal/discover/registry.go:227-251 | a command reported unchanged comes back with its own non-blank characters or not at all |
| `LruCache.LRUCache.Get` | internal/cache/lru.go:54-77 | lookup with expiry, promotion and counters |
| `LruCache.LRUCache.Set` | internal/cache/lru.go:80-105 | update, or eviction loop and insertion at the front |
| `LruCache.RunInvariant` | internal/cache/lru.go:54-119 | in every reachable state map and list hold the same keys in strictly decreasing last use, entries are the last ones set, the size is bounded, hits plus misses equals gets |
| `LruCache.GetExactly` | internal/cache/lru.go:54-77 | a get hits if and only if the entry is there and no older than the time to live, with the counters; an older one is removed |
| `LruCache.GetIsFresh` | internal/cache/lru.go:54-77 | a returned value is the last one set and no older than the time to live |
| `LruCache.EvictionIsLru` | internal/cache/lru.go:92-119 | a new key in a full cache removes exactly the least recently used key |
| `LruCache.Retained` | internal/cache/lru.go:54-119 | a set value is found until it expires while fewer other keys than the capacity are used |
| `LayeredCache.StringLFUCache.Get` | internal/cache/multilayer.go:93-99 | a hit raises the frequency |
| `LayeredCache.StringLFUCache.Evict` | internal/cache/multilayer.go:123-135 | the minimum search removes the first least key of some order, unless it is `""` |
| `LayeredCache.StringLFUCache.Set` | internal/cache/multilayer.go:101-113 | update, or eviction at capacity and insertion |
| `LayeredCache.LeastIsLeast` | internal/cache/multilayer.go:123-131 | the search finds a key of minimum frequency |
| `LayeredCache.LfuSetEvicts` | internal/cache/multilayer.go:101-135 | exactly one key of minimum frequency makes room, and the cache grows if and only if that key is `""` |
| `LayeredCache.LfuGrowsExactly` | internal/cache/multilayer.go:101-135 | a set of a new key can make a full cache grow if and only if it is empty, or `""` is stored and no key is used less; otherwise its size stays in every order |
| `LayeredCache.LfuWithinCapacity` | internal/cache/multilayer.go:101-135 | with non-empty keys every run stays within capacity |
| `LayeredCache.FrequencyIsUses` | internal/cache/multilayer.go:93-113 | in every run the frequency is the number of uses since insertion |
| `LayeredCache.LfuOverflows` | internal/cache/multilayer.go:101-135 | for every capacity and every n a run stores n keys |
| `LayeredCache.StringFIFOCache.Get` | internal/cache/multilayer.go:150-153 | the stored value, if any |
| `LayeredCache.StringFIFOCache.Set` | internal/cache/multilayer.go:155-165 | update in place, or eviction of the first key and insertion at the end |
| `LayeredCache.StringFIFOCache.Delete` | internal/cache/multilayer.go:167-175 | the key leaves map and list |
| `LayeredCache.FifoAfter` | internal/cache/multilayer.go:155-175 | in every run the list names the stored keys, each once, within capacity |
| `LayeredCache.FifoSafeExactly` | internal/cache/multilayer.go:155-165 | no run indexes an empty list if and only if the capacity is at least 1 |
| `LayeredCache.FifoInInsertionOrder` | internal/cache/multilayer.go:155-175 | the list is in strictly increasing insertion time |
| `MultiLayerCache.MultiLayer.Get` | internal/cache/multilayer.go:37-52 | the first layer with a string answers |
| `MultiLayerCache.MultiLayer.Set` | internal/cache/multilayer.go:54-60 | all layers are set |
| `MultiLayerCache.MultiLayer.Remove` | internal/cache/multilayer.go:62-68 | a nil in the LRU layer, deletion in the others |
| `MultiLayerCache.After` | internal/cache/multilayer.go:37-68 | over every run each layer holds a part of the one plain map |
| `MultiLayerCache.HitsAgree` | internal/cache/multilayer.go:37-68 | a hit returns the last value set with no delete since; a deleted key misses |
| `MultiLayerCache.GetExactly` | internal/cache/multilayer.go:37-52 | a key misses if and only if no layer has it; the first layer that has it answers and those behind it are not touched |
| `MultiLayerCache.DeleteExactly` | internal/cache/multilayer.go:62-68 | a nil stays in the LRU layer, the others lose the key |
| `MultiLayerCache.GetAfterSet` | internal/cache/multilayer.go:37-60 | a get right after a set hits, at any time |
| `TokenCache.SharedCache.ReadSection` | internal/core/estimator.go:52-59 | the read section of a lookup |
| `TokenCache.SharedCache.PromoteSection` | internal/core/estimator.go:61-68 | the write section promotes the entry if it is still there |
| `TokenCache.SharedCache.EvictLRU` | internal/core/estimator.go:98-114 | the loop removes a quarter of the capacity, at least one, from the back |
| `TokenCache.SharedCache.Set` | internal/core/estimator.go:73-94 | update and promote, or evict and insert |
| `TokenCache.EvictSound` | internal/core/estimator.go:98-114 | eviction drops exactly the back of the list and keeps map and list in agreement |
| `TokenCache.PutSound` | internal/core/estimator.go:73-94 | storing keeps agreement, size bound and correct counts |
| `TokenCache.PutFinds` | internal/core/estimator.go:73-94 | what was stored is found at the front, and what stays keeps its count |
| `TokenCache.RecentByTouch` | internal/core/estimator.go:61-114 | under every interleaving the list is in the order of the last touch, so eviction takes the least recently used texts |
| `TokenCache.HitsAreServed` | internal/core/estimator.go:69 | the hit counter is the number of results from the cache |
| `TokenCache.Transparent` | internal/core/estimator.go:49-167 | under every interleaving every result is the one without a cache, map and list agree, and the size stays within a positive maximum |
| `Hamming.HammingDistance` | internal/filter/dedup.go:41-49 | the clear-lowest-bit loop ends and counts the differing bits |
| `Hamming.ClearLowest` | internal/filter/dedup.go:46 | `x & (x-1)` removes one bit from the count |
| `Hamming.Metric` | internal/filter/dedup.go:41-49 | at most 64, zero only on equality, symmetric, triangle inequality |
| `Dedup.CrossMessageDedup.DedupMessage` | internal/filter/dedup.go:76-102 | flag and tracked contents do not depend on the iteration order; the reply is the duplicate marker, a diff or marker for a close tracked content, or the content |
| `Dedup.GenerateDiff` | internal/filter/dedup.go:119-156 | the lines only in the old and only in the new content, each once, in some orders |
| `Dedup.DiffShows` | internal/filter/dedup.go:119-156 | a line is shown as removed if and only if only the old content has it, and as added if and only if only the new one has it |
| `Dedup.DiffSilentExactly` | internal/filter/dedup.go:119-156 | the diff is empty if and only if both contents have the same lines, in any order and number |
| `Dedup.CrossMessageDedup.Clear` | internal/filter/dedup.go:105-109 | nothing is tracked |
| `Dedup.RunInvariant` | internal/filter/dedup.go:76-109 | tracked fingerprints are pairwise beyond the threshold, belong to sent messages, and every message since the last clear is close to one |
| `Dedup.NeverOverwritten` | internal/filter/dedup.go:76-102 | a tracked entry keeps its content |
| `Dedup.SharedRepresentative` | internal/filter/dedup.go:87-97 | messages reported close to one entry differ in at most twice the threshold |
| `CircuitBreaker.CircuitBreaker.constructor` | internal/circuitbreaker/breaker.go:69-84 | closed, with defaults for unusable settings |
| `CircuitBreaker.CircuitBreaker.TryAllow` | internal/circuitbreaker/breaker.go:88-116 | admission and the step to half-open |
| `CircuitBreaker.CircuitBreaker.Succeed` | internal/circuitbreaker/breaker.go:119-134 | counting successes and closing |
| `CircuitBreaker.CircuitBreaker.Fail` | internal/circuitbreaker/breaker.go:137-154 | counting failures and opening |
| `CircuitBreaker.CircuitBreaker.ResetAll` | internal/circuitbreaker/breaker.go:164-170 | closed, counters zero |
| `CircuitBreaker.TraceInvariant` | internal/circuitbreaker/breaker.go:88-170 | the counters are functions of the trace and below their thresholds |
| `CircuitBreaker.OpensExactly` | internal/circuitbreaker/breaker.go:137-154 | it opens if and only if a failure completes the streak or strikes a half-open episode |
| `CircuitBreaker.OpenUntilTimeout` | internal/circuitbreaker/breaker.go:96-103 | while open, a request passes if and only if the timeout since the latest failure is over |
| `CircuitBreaker.ClosesExactly` | internal/circuitbreaker/breaker.go:119-134 | half-open closes if and only if reset or the episode's successes reach the threshold |
| `CircuitBreaker.OneTestEver` | internal/circuitbreaker/breaker.go:105-112 | one request passes in half-open in the breaker's whole life |
| `CircuitBreaker.AdmitsExactly` | internal/circuitbreaker/breaker.go:88-116 | when a request passes, in terms of the trace |
| `CircuitBreaker.AtMostTwoPerEpisode` | internal/circuitbreaker/breaker.go:88-116 | a half-open episode admits at most two requests |
| `CircuitBreaker.StuckForever` | internal/circuitbreaker/breaker.go:88-154 | once too few admissions are left, a sequential client never closes the breaker |
| `CircuitBreaker.RecoversExactly` | internal/circuitbreaker/breaker.go:88-154 | such a client can close an open breaker if and only if the success threshold is at most one plus the free test place |
| `BudgetAlerts.Manager.CreateOrUpdateAlert` | internal/budgetalerts/manager.go:367-407 | the search loop's outcome does not depend on the map order |
| `BudgetAlerts.Manager.CheckAutoResolve` | internal/budgetalerts/manager.go:430-449 | the loop resolves exactly the active alert of the rule |
| `BudgetAlerts.Manager.AcknowledgeAlert` | internal/budgetalerts/manager.go:467-487 | acknowledges, or reports an unknown id |
| `BudgetAlerts.Manager.ResolveAlert` | internal/budgetalerts/manager.go:490-512 | resolves with a time, or reports an unknown id |
| `BudgetAlerts.CreateOrUpdateKeeps` | internal/budgetalerts/manager.go:367-407 | keeps one active alert per rule and every history proper |
| `BudgetAlerts.SeverityExactly` | internal/budgetalerts/manager.go:354-365 | the worst severity whose limit the value reaches |
| `BudgetAlerts.CompareExactly` | internal/budgetalerts/manager.go:335-352 | the comparisons of the numbers, and an unknown one never holds |
| `BudgetAlerts.DecideExactly` | internal/budgetalerts/manager.go:313-330 | a value that triggers the rule leaves an active alert; any other resolves it if the rule says so, and else changes nothing |
| `BudgetAlerts.CloseExactly` | internal/budgetalerts/manager.go:467-512 | acknowledging sets the status, resolving also the time; both are recorded, and an unknown id changes nothing |
| `BudgetAlerts.TriggerEffect` | internal/budgetalerts/manager.go:309-322 | the rule ends with one active alert carrying value and severity; a new one only if none was active, stamped and recorded; others unchanged |
| `BudgetAlerts.AutoResolveEffect` | internal/budgetalerts/manager.go:430-449 | the rule ends without an active alert, others unchanged |
| `BudgetAlerts.CloseKeeps` | internal/budgetalerts/manager.go:467-512 | acknowledging and resolving keep the invariant |
| `BudgetAlerts.AlwaysConsistent` | internal/budgetalerts/manager.go:296-512 | under every interleaving with fresh ids: one active alert per rule, one trigger event before all others, status as the last event left it, a resolve time if and only if ever resolved |
| `AlertTriggers.LastIsLatest` | internal/budgetalerts/manager.go:325 | in every run lastTriggered is the latest stamp |
| `AlertTriggers.BeginsExactly` | internal/budgetalerts/manager.go:297-300 | an idle evaluator begins if and only if the rule's latest stamp is at least the cooldown old |
| `AlertTriggers.CooldownHolds` | internal/budgetalerts/manager.go:296-333 | with a clock that does not run backwards and no overlapping evaluations of the rule, its stamps are at least the cooldown apart |
| `AlertTriggers.CooldownExactly` | internal/budgetalerts/manager.go:296-333 | under every interleaving the stamps are at least the cooldown apart if and only if there is none or no value triggers the rule |
| `AlertTriggers.CountBounded` | internal/budgetalerts/manager.go:326 | in every run the trigger count is at most the number of stamps, less those still to be counted |
| `AlertTriggers.CountHolds` | internal/budgetalerts/manager.go:326 | if the rule's evaluations do not overlap it is exactly that |
| `AlertTriggers.CountExactly` | internal/budgetalerts/manager.go:326 | under every interleaving no trigger is lost if and only if no value triggers the rule |
| `AlertTriggers.OverlapStampsTwice` | internal/budgetalerts/manager.go:296-333 | two overlapping evaluations stamp a rule twice at the same time, whatever its cooldown, and count one trigger |
| `TokenBudget.Pass` | internal/core/budget.go:142-164 | a pass keeps the wanted lines that fit, and its count is their cost |
| `TokenBudget.EnforceStrict` | internal/core/budget.go:129-167 | the two passes compute the greedy selection |
| `TokenBudget.StrictBudget` | internal/core/budget.go:129-167 | kept lines cost at most the limit, no dropped line would fit, kept and dropped are all lines, the essential lines kept are the greedy choice among them, and the others follow, chosen likewise in what is left |
| `TokenBudget.JoinedCost` | internal/core/estimator.go:180-187 | joined lines cost at most their sum plus a token per four newlines, and fit exactly when bytes and newlines do |
| `TokenBudget.JoinedCostAttained` | internal/core/estimator.go:180-187 | the bound is attained by lines of multiples of four bytes |
| `TokenBudget.StrictOvershoots` | internal/core/budget.go:129-167 | for every limit and n, 4n + 1 blank lines are kept whole, reported at 0 tokens, and cost n |
| `TokenBudget.StrictFits` | internal/core/budget.go:129-167 | the result is within the limit if and only if its newlines fit into the unused tokens and the rounding of its lines |
| `TokenBudget.StrictFitsExactly` | internal/core/budget.go:129-167 | all contents made of given lines stay within every limit if and only if none of the lines has a multiple of four bytes |
| `TokenBudget.TruncateNonEssential` | internal/core/budget.go:332-378 | sorting into two lists first selects what the two passes select |
| `TokenBudget.Truncated` | internal/core/budget.go:332-378 | its result is within the limit but for the newlines |
| `TokenBudget.EnforceAdaptive` | internal/core/budget.go:170-212 | for every estimator, the stages are applied in order and no further than needed, and the final count is that of the result |
| `TokenBudget.StagesAre` | internal/core/budget.go:181-206 | comments, white space, imports and truncation, one inside the other |
| `TokenBudget.AdaptiveWithin` | internal/core/budget.go:170-212 | with the four-bytes estimate the result is within the limit, or within the newlines' overshoot after all four stages |
| `Economics.Merge` | internal/economics/economics.go:127-214 | the insertion loops and the sort give the sorted periods of the key union |
| `Economics.MergedLabels` | internal/economics/economics.go:127-214 | labels are strictly increasing, and exactly one period per key, with that key's data |
| `Economics.MergeDeterministic` | internal/economics/economics.go:160-168 | the result does not depend on the map order |
| `Economics.MergeConserves` | internal/economics/economics.go:127-214 | merged totals plus the replaced entries are the input sums; with distinct keys nothing is replaced |
| `Economics.ComputeTotals` | internal/economics/economics.go:264-335 | the accumulation loop gives the sums, the average percentage and the three prices |
| `Economics.MetricsExactly` | internal/economics/economics.go:216-262 | each price times its own units is the cost, the savings are the saved tokens at it, and there is one if and only if there are units |
| `Economics.WeightsAre` | internal/economics/economics.go:225-229 | the weights 1, 5, 1.25 and 0.1 |
| `Economics.TotalsByField` | internal/economics/economics.go:269-301 | every total is the sum of its own field over the periods that have it |
| `Economics.LessLexicographic` | internal/economics/economics.go:165-167 | labels are ordered as text |
| `Economics.PeriodWeighted` | internal/economics/economics.go:216-262 | weighted savings never exceed active savings in a period |
| `Economics.TotalWeighted` | internal/economics/economics.go:264-335 | nor in total |
| `Folding.LogCrunch` | internal/filter/claw_compactor_stages.go:113-153 | the loop folds maximal runs, and `saved` is the number of lines less |
| `Folding.CrunchLossless` | internal/filter/claw_compactor_stages.go:113-153 | expanding the items gives back every line |
| `Folding.PreservedSurvive` | internal/filter/claw_compactor_stages.go:127-131 | a preserved line is shown by itself as often as it occurs |
| `Folding.CrunchWellFolded` | internal/filter/claw_compactor_stages.go:125-150 | folded runs are long enough and maximal, other runs too short or preserved |
| `Folding.CrunchExactly` | internal/filter/claw_compactor_stages.go:113-153 | the output is the only well folded list that expands to the input |
| `Folding.ShortUnfolded` | internal/filter/claw_compactor_stages.go:119-121 | the early return gives what the loop would |
| `Folding.DiffCrunch` | internal/filter/claw_compactor_stages.go:192-223 | the loop shows or folds line by line, and `saved` is the number of lines less |
| `Folding.DiffBlock` | internal/filter/claw_compactor_stages.go:201-220 | a block of context lines shows the first ones up to the maximum and a marker with the number of the others |
| `Folding.DiffConserves` | internal/filter/claw_compactor_stages.go:192-223 | every changed line is shown in order, and shown context plus fold counts is all the context |
| `Folding.DiffConservesExactly` | internal/filter/claw_compactor_stages.go:192-223 | the counts add up if and only if the maximum is not negative |

## Left out

- RoundTripIff: for separated dictionaries; with words that start with a digit of a symbol, texts that spell out symbols may or may not come back (`SpelledSymbolComesBack`).  For texts that spell out none, `UndoneExactlyShort` covers every dictionary with at most 255 codes.
- UndoneExactly: leaves out dictionaries with more than 255 codes in which a longer symbol repairs a reach, and symbols long enough to hold a word (from 0x100000 codes on); `UndoneIf` covers the former whenever they are clear.
- LfuWithinCapacity: for non-empty keys; what happens with `""` is in `LfuGrowsExactly` and `LfuOverflows`.
- AddBenchmark: the builder it returns, whose fluent setters write into the slice in place.
- DedupMessage: the cut of a tracked content after fifty bytes, which may split a character, is a parameter.
- Merge: the labels are the given keys; the alignment of week starts in the weekly merge happens before it, and keys that coincide after it are what `MergeConserves` counts as replaced.
- Text is a sequence of Unicode characters; invalid UTF-8 is not modelled.
- Float printing and parsing, and durations, are a parameter (`BenchmarkDsl.Codec`) with the laws stated in `Sound`; validators and setup/teardown blocks are only read as the parser reads them.
- Regular expressions of the rule table, `stripGitGlobalOpts`, `stripAbsolutePath` and the head and tail patterns are parameters (`SegmentRewriter.Engine`); only the env prefix pattern is spelled out.  Idempotence is stated for segments, not for compound commands.
- A FIFO cache with capacity below 1 indexes an empty list on its first set (`FifoSafeExactly`); `Set` has this as a precondition.
- The race of frequency updates under a read lock in the composite cache: it is modelled sequentially.
- Counters and frequencies are unbounded; costs are reals, so rounding is not modelled.
- The tokenizer is a deterministic function that may fail; SimHash is any function to 64 bits.
- Rule creation, update and deletion, muted alerts and notifications; rules are fixed during a run.  Torn reads of lastTriggered, a structure of several words, are not modelled.
- The patterns for essential and preserved lines and the three text stages before truncation are parameters; the soft mode and `Check` are not modelled.
- The text formatting of folded lines, and the `Enabled` switches.
- `PhotonFilter` and `StructuralCollapse`, whose loop has no termination measure when an import line has no continuation.
- The scoring filters, the delta and canary managers, SQLite, HTTP, dashboards and command-line plumbing.
