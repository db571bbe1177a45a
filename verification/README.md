# Verified models of tgnews, cld3 and the BigARTM tooling

This project models the hard logic of a news pipeline (tgnews), of its vendored language detector (cld3)
and of two tools of its topic-modelling library (BigARTM), and proves what that logic is for.
`dafny verify dfyconfig.toml` checks all of it. Code that changes state in place is a class or a loop,
proved against a function of the input; the theorems are lemmas about those functions.

| part | files |
|---|---|
| FML, the feature modelling language of cld3: lexer, parser and printer | `FmlDescriptor`, `FmlPrinter`, `FmlGrammar`, `FmlParser`, `FmlLexing`, `FmlRoundTrip`, `FmlTheorems`, `FmlSyntax`, `FmlSpelling` |
| cpplint: bracket matching over lines, preprocessor stack | `Brackets`, `NestedText`, `ExpressionSearch`, `TemplateText`, `TemplateSearch`, `NestingState` |
| language identification: hash, UTF-8, scripts, n-grams, network, snippets, ranking | `Hash`, `Utf8`, `Scripts`, `Ngrams`, `NgramTheorems`, `EmbeddingLayer`, `DenseLayers`, `EmbeddingNetwork`, `Snippets`, `LanguageRanking` |
| tgnews: four parallel stages, bags of features | `ParallelMap`, `ParallelLoops`, `NewsPipeline`, `BagOfFeatures` |
| BigARTM: splitting a matrix into batches | `Batching`, `BatchingTheorems` |
| shared | `Arithmetic`, `Characters`, `Features`, `Sequences`, `Wrappers` |

## What is modelled, and how

**FML.** `FMLParser` is a class with the cursor, line counters and current item of the source. A failed
`CLD3_DCHECK` is a result (`ok == false`, `None`), as in a build with checks on. `FmlGrammar` says on plain
text what each method computes; termination is by unread input plus one for an unconsumed item. Two
details of the code are kept: a single character leaves the text of the item before in `itemText`, and a
byte from 0x80 on gives a negative item type, so that it can be mistaken for a name, a number or a string.
`FmlSyntax` has a grammar of its own, as trees and the items they are written with, and the parser is proved
to accept exactly that. The grammar in `fml_parser.h` allows one leading argument and then parameters; the
code accepts numbers and parameters in any order, and the model follows the code. `strtol` with base 0 reads
a leading zero as octal, and the result is cut to 32 bits.

**cpplint.** `ExpressionSearch` holds the two searches as they are, with all their guesses about `<`, `>`
and `operator`. `Nested` is a grammar that does not mention stacks; on lines without `<` and `>` both
searches are proved to recognise it, across any number of lines. `TemplateText` has a second grammar, in which
`<` and `>` are brackets or signs depending on what follows, and on any lines the searches are proved to
recognise that (`TemplateSearch`). In `NestingState` the effect of a line on the brace stack is an arbitrary
function of the line, its number and the stack. The function belongs to a file and may look at any other
line of it, so the theorems hold whatever `Update` does with classes, namespaces and blocks.

**Language identification.** `float` is `real`. The hash is exact on 32-bit words. `SpanInterchangeValid`
is any function that takes no more bytes than it is offered; what the network predicts for a span is part
of the span. `std::sort` is represented by an insertion sort with the same comparator, which is harmless
because `RankedIsUnique` shows that there is only one sorted order.

**Parallel stages.** `LoadDocs`, `RecognizeLanguage`, `GenerateFeatures` and `DetectNews` share one scheme,
modelled as a transition system in which spawning and the steps of all workers interleave freely. A worker
reads a document in one step and writes its result back in another, so that a lost update would show if
chunks overlapped; `NoTwoThreadsMeet` says that they do not. Parsing, identification, tagging, the models,
the test of the address and what a move leaves behind are parameters, pure functions of one document.

**Where the code does not do what its names or documentation say**, the exact condition is proved:

- With `batch_size` 1 the first batch holds two documents, because document 0 never closes a batch
  (`BatchesAreFullExactly`; `SizeOneExample`).
- The third field of a vocabulary entry ("appeared in this item") is never set to `True`, so `token_df`
  counts rows and not documents (`FrequencyCountsDocumentsExactly`; `RepeatedTokenExample`).
- A feature dictionary with a repeated name can send a later name past the end of the bag
  (`UpdatesSucceedExactly`; `RepeatedNameExample`).
- `GetUTF8Chars` does not come to its end when a character starts with NUL, and runs past the end when the
  last character is cut off; a NUL inside a character does no harm (`WalkEndsExactly`,
  `WalkTerminatesExactly`; `WalkExamples`).
- Printing and parsing FML only gives a descriptor back if types and parameter names are identifiers and
  values have no quote, which nothing enforces (`RoundTripExactly`; `UnprintableExample`).
- `CloseExpression` from a `<` after another `<` or after `operator`, and `ReverseCloseExpression` from the
  `>` of an arrow or of an operator, pass over that character and may report the end of some other group.
  Which end is found depends on the text beyond, so the condition is exact over all of it: the search ends at
  a partner on every continuation if and only if the character is taken for a bracket (`PartnerExactly`,
  `ReversePartnerExactly`; `ShiftExample`, `ArrowExample`).

## Model

| member | source | states |
|---|---|---|
| `FmlTheorems.RoundTrip` | src/cld3/src/fml_parser.cc:137-283 | parsing the printed text of any printable extractor gives it back, up to feature names and zero arguments, at every nesting depth of the dotted and braced forms |
| `FmlTheorems.RoundTripExactly` | src/cld3/src/fml_parser.cc:97-283 | on ASCII text the round trip succeeds if and only if all types and parameter names are identifiers and no value has a quote |
| `FmlTheorems.UnprintableExample` | src/cld3/src/fml_parser.cc:97-156 | a feature of type 1 is printed, and its text is rejected |
| `FmlTheorems.PrintedExample` | src/cld3/src/fml_parser.cc:241-283 | one feature with an argument, a parameter and two sub-features, printed to the last space |
| `FmlTheorems.TextIdentifies` | src/cld3/src/fml_parser.cc:241-283 | two printable extractors print alike exactly when they agree up to feature names and zero arguments |
| `FmlTheorems.AcceptedIsPrintable` | src/cld3/src/fml_parser.cc:97-239 | whatever the parser accepts from an ASCII source can be printed |
| `FmlTheorems.PrintingStabilises` | src/cld3/src/fml_parser.cc:137-295 | for every accepted ASCII source, parsing and printing once more changes nothing |
| `FmlSyntax.AcceptsExactly` | src/cld3/src/fml_parser.cc:137-239 | the parser accepts a source, with a given result, if and only if its items write a list of trees that mean that result: arguments in any order, values with or without quotes, feature names, dotted and braced sub-features |
| `FmlSyntax.FeatureIsRead` | src/cld3/src/fml_parser.cc:158-212 | whatever tree is written, in front of whatever may follow it, is read with its meaning, and the parser stops there |
| `FmlSyntax.TreeOf` | src/cld3/src/fml_parser.cc:158-212 | and whatever is read as a feature was written as a tree with that meaning |
| `FmlSpelling.SpelledTokens` | src/cld3/src/fml_parser.cc:73-135 | items spelled with any white space and comments between them are the items that the lexer finds |
| `FmlSpelling.SpellingIsAccepted` | src/cld3/src/fml_parser.cc:73-239 | so every spelling of a list of trees is accepted with their meaning |
| `FmlSpelling.BareValueIsRead` | src/cld3/src/fml_parser.cc:214-239 | a value without quotes, an identifier or a number, is read as it would be with quotes |
| `FmlSpelling.MarkIsNoValue` | src/cld3/src/fml_parser.cc:228-229 | the end of the source or a punctuation mark is no value |
| `FmlSpelling.DecimalMeans` | src/cld3/src/utils.cc:26-30 | signed decimal text with anything after it is its value brought into 64 bits and cut to 32 |
| `FmlSpelling.OctalMeans` | src/cld3/src/utils.cc:26-30 | after a leading zero the digits are octal, up to the first that is not |
| `FmlRoundTrip.FeatureReadsBack` | src/cld3/src/fml_parser.cc:158-212 | whatever stops a feature may follow: its printed tail is read back, and the parser stops where the rest starts |
| `FmlRoundTrip.BlockReadsBack` | src/cld3/src/fml_parser.cc:196-212 | the same for any number of sub-features between braces |
| `FmlRoundTrip.MoreParametersReadBack` | src/cld3/src/fml_parser.cc:158-170 | the same for a list of quoted parameters up to the closing parenthesis |
| `FmlLexing.LexName` | src/cld3/src/fml_parser.cc:119-130 | an identifier is one item, unless an identifier character follows |
| `FmlLexing.ItemsByCode` | src/cld3/src/fml_parser.cc:27-43 | which characters start and continue identifiers and numbers, by their codes |
| `FmlLexing.UnclosedString` | src/cld3/src/fml_parser.cc:108-114 | a string without its closing quote fails the check |
| `FmlLexing.LexInt` | src/cld3/src/fml_parser.cc:97-104 | a printed integer is one number item, unless a digit or a dot follows |
| `FmlLexing.ParseInt32OfIntText` | src/cld3/src/utils.cc:26-30 | the base-0 conversion reads back what is printed for every non-zero 32-bit argument |
| `FmlGrammar.SkipBlanksLeavesItem` | src/cld3/src/fml_parser.cc:74-85 | only leading text is skipped, and the rest starts neither with space nor with a comment |
| `FmlParser.FMLParser.Next` | src/cld3/src/fml_parser.cc:61-71 | moves one character and keeps the line number and the line start right |
| `FmlParser.FMLParser.NextItem` | src/cld3/src/fml_parser.cc:73-135 | ends in the next item of the grammar or in a failed check, with the position invariant kept either way |
| `FmlParser.FMLParser.Initialize` | src/cld3/src/fml_parser.cc:50-59 | restarts on a new source from any state, with the text of the last item left over |
| `FmlParser.FMLParser.Parse` | src/cld3/src/fml_parser.cc:137-156 | terminates on every source, with the features the grammar gives or a failed check, and the position invariant kept |
| `FmlParser.FMLParser.ParseFeature` | src/cld3/src/fml_parser.cc:158-212 | the recursive descent reads what the grammar reads and leaves the parser there |
| `FmlParser.FMLParser.ParseParameter` | src/cld3/src/fml_parser.cc:214-239 | the same for one argument or parameter |
| `FmlPrinter.ToFMLFunction` | src/cld3/src/fml_parser.cc:241-261 | appends the type and the parenthesised list, commas only between entries |
| `FmlPrinter.ToFML` | src/cld3/src/fml_parser.cc:263-277 | appends the text of a function with all its sub-features |
| `FmlPrinter.AsFML` | src/cld3/src/fml_parser.cc:279-295 | one line per top-level feature |
| `Brackets.ForwardFindsNested` | src/bigartm/utils/cpplint.py:1385-1460 | from an opening bracket the forward scan stops after n characters exactly when those n characters are properly nested |
| `Brackets.BackwardFindsNested` | src/bigartm/utils/cpplint.py:1507-1581 | from a closing bracket the backward scan stops after n characters exactly when those n characters are properly nested |
| `NestedText.CloseFindsNested` | src/bigartm/utils/cpplint.py:1463-1504 | the forward search ends past a position exactly when the text up to it, over any number of lines, is nested |
| `NestedText.ReverseFindsNested` | src/bigartm/utils/cpplint.py:1584-1619 | the backward search ends at a position exactly when the text from it is nested |
| `NestedText.SearchesAreInverse` | src/bigartm/utils/cpplint.py:1463-1619 | one search finds a bracket from its partner exactly when the other finds the partner from it |
| `NestedText.CloseFails` | src/bigartm/utils/cpplint.py:1496-1504 | the forward search gives up exactly when no nested text starts at the position |
| `NestedText.ReverseCloseFails` | src/bigartm/utils/cpplint.py:1611-1619 | the backward search gives up exactly when no nested text ends at the position |
| `ExpressionSearch.FindEndOfExpressionInLine` | src/bigartm/utils/cpplint.py:1385-1460 | the loop over any line from any stack ends as the scan of the line, with shift operators, `->`, `operator` and template brackets |
| `ExpressionSearch.FindStartOfExpressionInLine` | src/bigartm/utils/cpplint.py:1507-1581 | the backward loop over any line, with the characters it skips |
| `ExpressionSearch.CloseExpression` | src/bigartm/utils/cpplint.py:1463-1504 | on any lines: the position at which the scan, carried from line to line, ends |
| `ExpressionSearch.ReverseCloseExpression` | src/bigartm/utils/cpplint.py:1584-1619 | the same backwards |
| `ExpressionSearch.CloseWithoutAngles` | src/bigartm/utils/cpplint.py:1463-1504 | on lines without `<` and `>` the forward search is the search for nested text in the joined lines |
| `ExpressionSearch.ReverseCloseWithoutAngles` | src/bigartm/utils/cpplint.py:1584-1619 | the same backwards |
| `ExpressionSearch.ExpressionSearchesAreInverse` | src/bigartm/utils/cpplint.py:1385-1619 | there the two functions undo each other |
| `ExpressionSearch.CloseFindsPartner` | src/bigartm/utils/cpplint.py:1385-1504 | on any lines: a search that succeeds ends just past a later bracket of the other kind, unless it starts from a `<` that the scan does not take for a bracket; `PartnerExactly` shows that the exception is needed |
| `ExpressionSearch.ReverseCloseFindsPartner` | src/bigartm/utils/cpplint.py:1507-1619 | the same backwards, unless it starts from a `>` that the scan does not take for a bracket; `ReversePartnerExactly` shows that the exception is needed |
| `ExpressionSearch.PartnerExactly` | src/bigartm/utils/cpplint.py:1402-1413 | whatever stands before a '<', the search from it ends at a later partner or fails on every continuation of the line, with any other lines, if and only if neither another '<' nor `operator` comes before it |
| `ExpressionSearch.ReversePartnerExactly` | src/bigartm/utils/cpplint.py:1529-1537 | for a '>' with no bracket, angle or semicolon before it in the tail of a line, the search starts at an earlier partner or fails on every line with that tail if and only if none of them makes the '>' part of an arrow, a comparison or an operator |
| `ExpressionSearch.IgnoredBracketDoesNotCount` | src/bigartm/utils/cpplint.py:1402-1413 | in those cases the search is the one that starts after that character with nothing open |
| `ExpressionSearch.ShiftExample` | src/bigartm/utils/cpplint.py:1405-1410 | from the second `<` of `<<(a)` the search reports the end of the parentheses |
| `ExpressionSearch.ArrowExample` | src/bigartm/utils/cpplint.py:1529-1537 | from the `>` of `(a)->` the backward search reports the start of the parentheses |
| `TemplateSearch.OperatorExactly` | src/bigartm/utils/cpplint.py:1410 | the text before a `<` ends in the whole word `operator` and white space |
| `TemplateSearch.ComparisonExactly` | src/bigartm/utils/cpplint.py:1532-1536 | the text from the character before a `>` starts with white space, `>=` and white space |
| `TemplateText.ScanFindsGroup` | src/bigartm/utils/cpplint.py:1385-1450 | the scan with template brackets stops after n characters if and only if these are one group of a grammar without stacks, where a `<` is a bracket if its `>` comes in time and otherwise a sign |
| `TemplateSearch.CloseFindsGroup` | src/bigartm/utils/cpplint.py:1385-1504 | on any lines: from a bracket, the search ends just past (m, q) if and only if the text from there to (m, q) is such a group, once arrows, `operator` and the second half of `<<` are marked |
| `TemplateSearch.CloseFindsNoGroup` | src/bigartm/utils/cpplint.py:1453-1504 | and fails if and only if no such group starts there |
| `TemplateSearch.NothingBegins` | src/bigartm/utils/cpplint.py:1487-1488 | nothing is searched from `<<`, from `<=`, or from a character that is no bracket |
| `TemplateSearch.ReverseFindsGroup` | src/bigartm/utils/cpplint.py:1507-1619 | the same backwards, on the text read from its end |
| `TemplateSearch.ReverseFindsNoGroup` | src/bigartm/utils/cpplint.py:1584-1619 | and fails if and only if no such group ends there |
| `NestingState.NestingState.UpdatePreprocessor` | src/bigartm/utils/cpplint.py:2322-2376 | both stacks after a line, for every directive and every unexpected one |
| `NestingState.DirectiveOnText` | src/bigartm/utils/cpplint.py:2343-2362 | on text: white space, #, white space and a whole word; `if`, `ifdef` and `ifndef` save, `else` and `elif` restore, `endif` ends, any other word does nothing |
| `NestingState.NoDirectiveOnText` | src/bigartm/utils/cpplint.py:2343-2362 | a line whose first character that is not white space is not # does nothing |
| `NestingState.EveryLineIsSpelled` | src/bigartm/utils/cpplint.py:2343-2362 | and every line is of one of these two kinds |
| `NestingState.NestingState.Update` | src/bigartm/utils/cpplint.py:2379-2541 | the preprocessor comes first, then whatever the line at this place in the file does to the brace stack |
| `NestingState.NestingState.UpdateAll` | src/bigartm/utils/cpplint.py:2379-2541 | calling `Update` on every line of a file leaves both stacks of the class as the run over those lines has them, which the lemmas below are about |
| `NestingState.ElseBranchesDoNotCount` | src/bigartm/utils/cpplint.py:2322-2376 | outside every else-branch the brace stack is that of the lines outside else-branches, for any effect of each occurrence of a line on it |
| `NestingState.ErasingKeepsState` | src/bigartm/utils/cpplint.py:2322-2376 | a file whose conditionals are closed ends in the same state as the file without its else-branches, for any effect of each occurrence of a line |
| `NestingState.BalancedRestoresPreprocessorStack` | src/bigartm/utils/cpplint.py:2322-2376 | balanced lines leave the preprocessor stack as they found it, at any depth |
| `NestingState.ElseStartsAtIf` | src/bigartm/utils/cpplint.py:2347-2361 | each `#else` or `#elif` starts from the stack its `#if` has found |
| `Hash.Hash32` | src/cld3/src/utils.cc:126-179 | the loop and the fall-through tail compute the hash function that the lemmas are about |
| `Hash.NoCollisionInBlock` | src/cld3/src/utils.cc:126-179 | inputs of one length that differ inside a single aligned word, or inside the tail, never collide, for every seed |
| `Hash.ShortInputsDoNotCollide` | src/cld3/src/utils.cc:126-179 | up to four bytes, equal hashes mean equal inputs of that length |
| `Hash.FourByteHashIsBijective` | src/cld3/src/utils.cc:126-179 | on four bytes the hash is a bijection, with the preimage given |
| `Hash.MixWordInverse` | src/cld3/src/utils.cc:148-151 | multiply, xor-shift and multiply can be undone on every word |
| `Hash.FinalInverse` | src/cld3/src/utils.cc:173-178 | so can the final mix |
| `Hash.KnownHashes` | src/cld3/src/utils.cc:137-183 | the 32-bit values for the empty text, "a", "ab", "abc" and "abcd" with the default seed |
| `Utf8.DecodeInvertsEncode` | src/cld3/src/unicodetext.cc:68-89 | `operator*` gives back every code point from its encoding (section 3 of RFC 3629), and its length comes from the first byte |
| `Utf8.ConstIterator.Advance` | src/cld3/src/unicodetext.cc:91-94 | moves by the length of the character |
| `Utf8.LengthIsLeadingOnes` | src/cld3/src/utils.cc:233-238 | the length table counts the leading one-bits of the first byte, and is one if there are none |
| `Utf8.CodePoints` | src/cld3/src/unicodetext.cc:60-94 | walking a well-formed text visits exactly its code points, in order |
| `Utf8.GetUTF8Chars` | src/cld3/src/utils.cc:218-226 | the loop cuts into its characters every text at whose end it comes to rest |
| `Utf8.CharsPartition` | src/cld3/src/utils.cc:218-238 | the pieces concatenate back to the text, and each is one character |
| `Utf8.CharsOfEncoded` | src/cld3/src/utils.cc:218-238 | on well-formed text the pieces are the encodings of the code points |
| `Utf8.FlattenInjective` | src/cld3/src/utils.cc:233-238 | sequences of characters with one concatenation are equal |
| `Utf8.WalkEndsExactly` | src/cld3/src/utils.cc:218-238 | for every byte string, the loop comes to rest at the end if and only if no character starts with NUL and none is cut off |
| `Utf8.WalkTerminatesExactly` | src/cld3/src/utils.cc:218-238 | for every byte string, the loop ends at all if and only if no character starts with NUL |
| `Utf8.WalkExamples` | src/cld3/src/utils.cc:218-238 | a NUL alone holds the loop for ever, a NUL inside a character is passed, a cut-off character is overrun |
| `Utf8.WalkEndsWithoutNul` | src/cld3/src/utils.cc:218-231 | so on well-formed text the loop reaches the end if and only if there is no NUL |
| `Scripts.GetScriptIsTable` | src/cld3/src/script_detector.h:60-143 | the branch tree over bytes agrees with a table of code-point ranges on every code point |
| `Scripts.CountsAreCodePoints` | src/cld3/src/relevant_script_feature.cc:52-77 | the byte loop counts code points by that table |
| `Scripts.CountsAreRanges` | src/cld3/src/script_detector.h:24-152 | under each id, the number of code points in a given range, such as 0x400 to 0x4FF under 6, or in what is left of a length |
| `Scripts.CountsAddUp` | src/cld3/src/relevant_script_feature.cc:52-77 | the counts of the scripts add up to `total_count` on any bytes, cut-off characters included |
| `Scripts.Evaluate` | src/cld3/src/relevant_script_feature.cc:41-87 | both loops together emit the shares of the scripts that occur |
| `Scripts.SharesAreExact` | src/cld3/src/relevant_script_feature.cc:79-86 | ids ascend, and each weight is the share of a script that occurs |
| `Scripts.SharesAreComplete` | src/cld3/src/relevant_script_feature.cc:79-86 | every script that occurs is emitted |
| `Scripts.WeightsSumToOne` | src/cld3/src/relevant_script_feature.cc:52-86 | the weights sum to one whenever a character counts |
| `Ngrams.AddTerminators` | src/cld3/src/language_identifier_features.cc:61-76 | the rewriting loop |
| `Ngrams.CountNgrams` | src/cld3/src/language_identifier_features.cc:78-96 | the table holds the number of windows of each key, and the sum is the number of windows, for every size |
| `Ngrams.CollectNgram` | src/cld3/src/language_identifier_features.cc:83-91 | the inner loop completes exactly on a window that is to be counted |
| `Ngrams.Evaluate` | src/cld3/src/language_identifier_features.cc:56-110 | one feature per key, each key once, with its weight; the id is the unsigned remainder, below a positive dimension |
| `NgramTheorems.TokensSplit` | src/cld3/src/language_identifier_features.cc:59-60 | tokens joined by spaces are the text, and have no space inside |
| `NgramTheorems.TerminatorsWrapTokens` | src/cld3/src/language_identifier_features.cc:61-76 | the rewritten text is the tokens, each between its terminators, joined by spaces |
| `NgramTheorems.NgramsDecomposeByToken` | src/cld3/src/language_identifier_features.cc:59-96 | with terminators and without spaces, the counted windows are those of the wrapped tokens one after the other, for every size from 1 |
| `NgramTheorems.SettingsMean` | src/cld3/src/language_identifier_features.cc:62-98 | which n-grams of a text are counted under each setting of terminators and spaces |
| `NgramTheorems.WindowsExactly` | src/cld3/src/language_identifier_features.cc:78-98 | the n characters from a place on are counted if and only if spaces are or none of them is 0x20; each place once, in order |
| `NgramTheorems.AllWindows` | src/cld3/src/language_identifier_features.cc:78-98 | where there is no space to skip, all slices of n characters are counted |
| `NgramTheorems.TokenNgrams` | src/cld3/src/language_identifier_features.cc:62-98 | for a token, all slices of the token between 0x5E and 0x24, len + 3 - n of them |
| `NgramTheorems.LetterExample` | src/cld3/src/language_identifier_features.cc:62-98 | the letter a gives the 2-grams ^a and a$ |
| `NgramTheorems.KeysAreFaithful` | src/cld3/src/language_identifier_features.cc:78-96 | the count under a concatenated key is the number of occurrences of exactly that window |
| `NgramTheorems.CountsAddUp` | src/cld3/src/language_identifier_features.cc:92-95 | counting by key loses no window and counts none twice |
| `NgramTheorems.WeightsAreDistribution` | src/cld3/src/language_identifier_features.cc:98-109 | in both weighting modes and any hash order the weights are positive and sum to one, and ids are below a positive dimension; without n-grams nothing is emitted |
| `NgramTheorems.FeaturesMean` | src/cld3/src/language_identifier_features.cc:100-112 | each feature stands for one n-gram that occurs: the remainder of its hash by the dimension, and its share of all n-grams, or an equal share among the different ones |
| `EmbeddingLayer.PointerReadsWeight` | src/cld3/src/embedding_network.h:71-91 | stepping through a row from its byte offset reads the weights of the right vocabulary element, floats or bytes |
| `EmbeddingLayer.EmbeddingMatrix.GetEmbedding` | src/cld3/src/embedding_network.h:71-80 | the checks on the index, the offset of the row, and the scale |
| `EmbeddingLayer.AddRow` | src/cld3/src/embedding_network.cc:118-130 | the innermost loops add one scaled row in place and touch nothing else |
| `EmbeddingLayer.ConcatEmbeddings` | src/cld3/src/embedding_network.cc:74-133 | succeeds exactly when all checks hold; then each entry of the buffer is the sum of all contributions to it |
| `EmbeddingLayer.CheckOffsets` | src/cld3/src/embedding_network.cc:164-171 | the constructor's checks hold exactly for prefix-sum offsets |
| `EmbeddingLayer.OffsetsExactly` | src/cld3/src/embedding_network.cc:164-171 | which means that the first space starts at zero and each other one where the one before it ends |
| `EmbeddingLayer.WritesInBounds` | src/cld3/src/embedding_network.cc:93-98 | with prefix-sum offsets and bases below the feature count every block lies inside the buffer |
| `EmbeddingLayer.InModelPassesChecks` | src/cld3/src/embedding_network.cc:84-98 | with prefix-sum offsets, features whose dimensions, bases and ids fit the model pass every check |
| `EmbeddingLayer.BlocksDisjoint` | src/cld3/src/embedding_network.cc:91-98 | blocks of different spaces, or of different bases, do not overlap |
| `EmbeddingLayer.BlockHolds` | src/cld3/src/embedding_network.cc:74-133 | a block ends as the sum of weight times multiplier over its own features |
| `EmbeddingLayer.BlockOnNumbers` | src/cld3/src/embedding_network.cc:101-131 | a block of a quantized space is the sum of byte less 128, times scale of the row, times weight of the feature; of a float space, without the first two |
| `EmbeddingLayer.OrderDoesNotMatter` | src/cld3/src/embedding_network.cc:91-131 | any permutation of a feature vector adds the same to every entry |
| `EmbeddingLayer.BufferIgnoresOrder` | src/cld3/src/embedding_network.cc:74-133 | the whole buffer is the same for any order of the features of each space |
| `EmbeddingNetwork.ComputeFinalScores` | src/cld3/src/embedding_network.cc:155-162 | the whole pass succeeds exactly when all checks hold, and yields the one- or two-hidden-layer formula on the sums of the embeddings |
| `EmbeddingNetwork.ScoresIgnoreOrder` | src/cld3/src/embedding_network.cc:155-162 | the scores do not depend on the order in which features were extracted |
| `DenseLayers.SimpleAdder.ScaleAddImpl` | src/cld3/src/simple_adder.h:57-63 | in place, destination plus scaled source |
| `DenseLayers.SimpleAdder.LazyScaleAdd` | src/cld3/src/simple_adder.h:43-46 | the same through the adder object |
| `DenseLayers.PartialStep` | src/cld3/src/embedding_network.cc:60-69 | adding one scaled row extends the product by one input, and a zero input may be skipped |
| `DenseLayers.SparseReluProductPlusBias` | src/cld3/src/embedding_network.cc:51-71 | the sparse loop that skips what ReLU sends to zero yields the dense affine map |
| `DenseLayers.FinishComputeFinalScores` | src/cld3/src/embedding_network.cc:135-153 | with one or two hidden layers the scores are the composed formula; other numbers fail the check |
| `DenseLayers.OneHiddenLayer` | src/cld3/src/embedding_network.cc:135-153 | entry by entry: bias plus weighted sum of the inputs, negative values cut off at zero, and again bias plus weighted sum |
| `DenseLayers.TwoHiddenLayers` | src/cld3/src/embedding_network.cc:135-153 | the same with one layer more |
| `Snippets.SnippetsInBounds` | src/cld3/src/nnet_language_identifier.cc:355-383 | snippets are in order and disjoint, and the last ends a whole gap before the end of the text |
| `Snippets.BudgetExactly` | src/cld3/src/nnet_language_identifier.cc:129-130 | one snippet up to five bytes and five beyond; their sizes, and the gaps, use up what there is but for the remainder of a division |
| `Snippets.SnippetsAreEven` | src/cld3/src/nnet_language_identifier.cc:360-379 | when every byte may be taken, snippets and gaps are spread evenly |
| `Snippets.SnippetsLength` | src/cld3/src/nnet_language_identifier.cc:368-380 | the output is at most the snippets and one space each |
| `Snippets.SelectTextGivenBeginAndSize` | src/cld3/src/nnet_language_identifier.cc:355-386 | the loop appends exactly these snippets; the output is at most `max_num_bytes_` plus `num_snippets_` bytes |
| `Snippets.SelectionFillsBudget` | src/cld3/src/nnet_language_identifier.cc:355-386 | when every byte may be taken, byte j of snippet i is byte i * (skip + size) + skip + j of the text, a space follows each, and the output is longer than `max_num_bytes_` |
| `Snippets.SelectionIsWhole` | src/cld3/src/nnet_language_identifier.cc:369-379 | if spans end on character boundaries the output is made of whole characters |
| `LanguageRanking.OrderIsStrictAndTotal` | src/cld3/src/nnet_language_identifier.cc:56-63 | the comparator is a strict total order |
| `LanguageRanking.LexLessExactly` | src/cld3/src/nnet_language_identifier.cc:56-63 | names are compared at the first place where they differ |
| `LanguageRanking.MoreBytesFirst` | src/cld3/src/nnet_language_identifier.cc:321-326 | on numbers: an earlier language has at least as many bytes, and with as many the lesser name |
| `LanguageRanking.RankedIsUnique` | src/cld3/src/nnet_language_identifier.cc:321-326 | a set of pairs has one sorted order, so neither the hash map nor the sort shows |
| `LanguageRanking.GatherStats` | src/cld3/src/nnet_language_identifier.cc:284-315 | the table holds the sums of every language that occurs among the spans long enough |
| `LanguageRanking.KeptExactly` | src/cld3/src/nnet_language_identifier.cc:293-295 | spans of at least `min_num_bytes_` once squeezed are considered, each as often as it occurs |
| `LanguageRanking.RangesExactly` | src/cld3/src/nnet_language_identifier.cc:305-308 | one byte range per chunk of the language, with its start, end and probability, in order |
| `LanguageRanking.RankLanguages` | src/cld3/src/nnet_language_identifier.cc:321-326 | the sorted pairs name each language once, by bytes descending and then by name |
| `LanguageRanking.FindTopNMostFreqLangs` | src/cld3/src/nnet_language_identifier.cc:267-348 | exactly max(0, `num_langs`) results: the head of the ranking with its statistics, then padding |
| `LanguageRanking.ResultsMean` | src/cld3/src/nnet_language_identifier.cc:328-347 | each result is the filler `und`, or of a language that occurs: its share of the bytes, its weighted probability, reliable from 0.7, or from 0.5 for hr and bs, and its ranges |
| `LanguageRanking.MostBytesWin` | src/cld3/src/nnet_language_identifier.cc:316-347 | no later result, and no language without a result, has more bytes than an earlier result |
| `LanguageRanking.AnswerIsUnique` | src/cld3/src/nnet_language_identifier.cc:267-348 | the same spans always give the same results |
| `LanguageRanking.RankingConservesBytes` | src/cld3/src/nnet_language_identifier.cc:290-308 | the byte sums of the languages total `total_num_bytes` |
| `LanguageRanking.ProportionsSumToOne` | src/cld3/src/nnet_language_identifier.cc:328-341 | proportions sum to at most one, and to one when every language has its place |
| `LanguageRanking.ProbabilityIsWeightedMean` | src/cld3/src/nnet_language_identifier.cc:303-336 | each probability is the byte-weighted mean of its chunks, between the least and the greatest of them |
| `ParallelMap.EveryPrefixIsConsistent` | src/news_det.hpp:53-73 | after any part of any schedule chunks are non-empty, disjoint and cover what is assigned, each document is mapped once or untouched, and every result in hand is that of an untouched document |
| `ParallelMap.WorkersDoNotInterfere` | src/news_det.hpp:35-36 | two threads never have the same document in hand, and what one has read is still untouched when it writes |
| `ParallelMap.NoTwoThreadsMeet` | src/news_det.hpp:53-73 | at no point of any schedule do two threads work on one document |
| `ParallelMap.EveryScheduleIsSequential` | src/news_det.hpp:53-73 | every maximal schedule ends in the sequential map, after a read and a write per document and one step per thread |
| `ParallelMap.EveryScheduleIsBounded` | src/langrec.hpp:56-69 | no schedule is longer, and a shorter one is not maximal |
| `ParallelMap.EveryScheduleFinishes` | src/langrec.hpp:56-69 | every schedule can be continued until all threads are done |
| `ParallelMap.AtMostFifteenWorkers` | src/common.h:9 | the number of threads is at most 2 * `kNumThreads` - 1, which 15 documents reach |
| `ParallelLoops.RunTask` | src/news_det.hpp:27-50 | a task maps its chunk in place and nothing else |
| `ParallelLoops.RunThreads` | src/news_det.hpp:57-73 | the chunk loop maps every document once, with its own index |
| `ParallelLoops.MoveOut` | src/news_det.hpp:74-80 | the loop after the joins moves the selected documents out and leaves the others |
| `ParallelLoops.KeepIsStable` | src/langrec.hpp:70-77 | every selected document, no other, once each, in order |
| `NewsPipeline.LoadDocs` | src/io.hpp:19-43 | slot i holds the document of file i |
| `NewsPipeline.RecognizeLanguage` | src/langrec.hpp:35-78 | every document is labelled, the Russian and English ones are moved out in order, and the others stay |
| `NewsPipeline.GenerateFeatures` | src/features.hpp:158-195 | slot i describes document i |
| `NewsPipeline.DetectNews` | src/news_det.hpp:27-81 | every document is judged, the news are moved out in order, and the others stay |
| `NewsPipeline.StagesFuse` | src/tgnews.cpp:25-29 | the stages one after the other, filters between them, are the files taken one at a time |
| `NewsPipeline.NewsExactly` | src/news_det.hpp:27-50 | a file is news if and only if its language is Russian or English and its address mentions news or the model of that language gives more than 0.3 |
| `NewsPipeline.NewsCarriesMeta` | src/features.hpp:158-178 | a news item has the title, the path and the address of its file |
| `NewsPipeline.RecognizeMeans` | src/langrec.hpp:41-52 | the language is that of the site when lists are used and know it, else the one found; nothing else of the document changes |
| `NewsPipeline.NewsAreScheduleIndependent` | src/tgnews.cpp:25-29 | whatever the threads of the four stages do, the possible news are exactly those of the files taken one at a time, in order |
| `BagOfFeatures.ReadFeaturesNames` | src/io.hpp:112-120 | each name has the position of its first occurrence |
| `BagOfFeatures.InRangeExactly` | src/io.hpp:112-120 | no index lies beyond the bag if and only if the first names, as many as there are different ones, are all different |
| `BagOfFeatures.InRangeFitsAll` | src/common.h:35-40 | no index lies beyond the bag if and only if no words whatever make an update fail |
| `BagOfFeatures.UpdatesSucceedExactly` | src/io.hpp:112-120 | so updates never fail if and only if the first names, as many as there are different ones, are all different |
| `BagOfFeatures.RepeatedNameExample` | src/io.hpp:112-120 | the names a, a, b give a bag of two and the index 2 |
| `BagOfFeatures.SegmentsSplit` | src/features.hpp:80-96 | the segments are the text between bars, without a final empty one |
| `BagOfFeatures.BOW.constructor` | src/common.h:28-33 | an empty bag of the size of the dictionary |
| `BagOfFeatures.BOW.Update` | src/common.h:35-40 | a known word adds one to its index and nothing else; an index beyond the bag fails |
| `BagOfFeatures.BOW.UpdateFeats` | src/features.hpp:80-96 | every index gains the number of segments sent to it; fails exactly when some segment is sent outside, with the segments before the first such one counted |
| `BagOfFeatures.CountedThen` | src/features.hpp:80-96 | updates add up, however the words are spread over them |
| `BagOfFeatures.BOW.Normalize` | src/common.h:46-56 | divides by the sum when it is positive |
| `BagOfFeatures.BOW.Clear` | src/common.h:58-60 | every entry is zero again |
| `BagOfFeatures.NormalizedIsDistribution` | src/common.h:46-56 | a non-negative bag becomes a distribution, or all zeros |
| `BagOfFeatures.NormalizedBagIsShare` | src/common.h:28-65 | after any run of updates of a fresh bag, `Normalize` leaves each index its share of the known words |
| `Batching.ParseNwd` | src/bigartm/python/artm/batches_utils.py:220-276 | fails exactly on a missing token or a batch size of zero; otherwise the documents are in the batches once each and in order, every token number refers to its token, and the statistics are those of all occurrences |
| `Batching.AddItem` | src/bigartm/python/artm/batches_utils.py:253-270 | one document: item, local vocabulary and global statistics together; fails exactly on a row without a token |
| `Batching.EntriesExactly` | src/bigartm/python/artm/batches_utils.py:253-256 | the occurrences in a document are its rows above the threshold, with their tokens |
| `Batching.EpsilonMeans` | src/bigartm/python/artm/batches_utils.py:23 | the threshold is one part in ten to the power 37 |
| `BatchingTheorems.BatchesAreFullExactly` | src/bigartm/python/artm/batches_utils.py:272-276 | no batch is over-full and all but the last are full if and only if the batch size is at least two or there is at most one document |
| `BatchingTheorems.SizeOneExample` | src/bigartm/python/artm/batches_utils.py:272-276 | with a batch size of one, two documents end up in one batch |
| `BatchingTheorems.WeightsAddUp` | src/bigartm/python/artm/batches_utils.py:253-270 | all token weights of all items in all batches add up to `global_n` |
| `BatchingTheorems.FrequencyCountsDocumentsExactly` | src/bigartm/python/artm/batches_utils.py:242-263 | `token_df` is the number of documents with the token if and only if none has it in two rows |
| `BatchingTheorems.RepeatedTokenExample` | src/bigartm/python/artm/batches_utils.py:242-263 | one document with a token in two rows has `token_df` 2 |
| `BatchingTheorems.InjectiveVocabularyCountsOnce` | src/bigartm/python/artm/batches_utils.py:242-263 | which holds for a vocabulary without repetitions |
| `BatchingTheorems.CreateDictionary` | src/bigartm/python/artm/batches_utils.py:282-290 | one entry per token, with its statistics |
| `BatchingTheorems.EntryMeans` | src/bigartm/python/artm/batches_utils.py:284-289 | an entry on numbers: the whole part of the total weight of its token, its count, and its share of all weight |
| `BatchingTheorems.TokenValuesSumToOne` | src/bigartm/python/artm/batches_utils.py:282-290 | the token values are a distribution |
| `BatchingTheorems.GlobalNIsPositive` | src/bigartm/python/artm/batches_utils.py:282-290 | the division is safe: `global_n` is positive exactly when there is a token |

## Left out

- FmlTheorems.RoundTripExactly: stated for ASCII text, because a byte from 0x80 on can pass for an item type.
- LanguageRanking.FindTopNMostFreqLangs: the spans and what the network predicts for them are given, not scanned; byte sums are integers, which `float` holds exactly for the 10000 bytes that are read.
- Utf8.GetUTF8Chars: texts at whose end the loop does not come to rest, on which it does not return or reads past the buffer.
- Ngrams.Evaluate: the same texts, and a dimension of zero, on which the remainder is undefined.
- ExpressionSearch.ReversePartnerExactly: with a bracket or a semicolon before the `>` in the tail, the search from a `>` that is passed over may fail on every line, so that only one direction (`ReverseCloseFindsPartner`) is stated.
- ParallelMap.EveryScheduleIsSequential: a worker reads and writes whole documents; the memory model of C++ and a thread that throws are not modelled.
- Builds of cld3 without checks, where a failed check has no effect.
- Descriptors that grow in place: the parser methods take the descriptor so far and return the extended one.
- `StripFML`, the parsing of doubles, and `Split`, `CEscape` and the trimming functions of `utils.cc`.
- NestingState.NestingState.Update: the classes, namespaces and blocks that are pushed and popped are a parameter; the theorems on the preprocessor stack do not depend on them.
- White space and word characters beyond ASCII, and the separators 0x1C to 0x1F, which Python takes for white space in cpplint's lines.
- cpplint's style expressions and `_IncludeState`.
- The decoding of quantization scales (float16); rounding of `float`; `exp` and `log` in the softmax and in the logistic regressions.
- `ScriptFeature::Compute`, `FindLanguage`, and the set-up of features from a descriptor (`Registry`, `TaskContext`, `WorkspaceSet`).
- CLD2: `ScriptScanner`, `CheapSqueezeInplace`, `MapBack`; what they return is part of a span, with at least one byte each.
- HTML parsing, tagging, regular expressions, topic-model inference, JSON and file input and output; the stages after news detection; the shared identifier object of `RecogTask`, which is taken to answer each text by itself.
- Lemma and morphology updates of the feature generator, which feed the same bag.
- Batch identifiers, file names and directory order; the dictionary call into the library.
- Negative batch sizes, what is left on disk when `_parse_n_wd` raises, and network matrices that do not fit together.
