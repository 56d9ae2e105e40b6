# Verified models of the chat, LoRA and codec algorithms

A Dafny project that models the self-contained algorithms of the repository and proves what their
documentation and tests promise about them. `dafny verify dfyconfig.toml` checks everything.

## What is modelled

**Streaming tool calls.** A model's output is parsed again and again while it grows, each parse tree is turned into a
message, and the client only ever sees the differences between neighbouring messages. `JsonText` and `JsonValue` are
JSON text as the parsers write it and a reader for it, `Arrived` is a JSON value of which only the beginning is there.
`Ast` says what a parse tree looks like while its text is still arriving, `AstWalk` what walks and searches over it
find. `Normalize` is the rewriting of Python-style values and `PythonText` what it makes of them, `Gemma4` and
`MiniMax` are the two formats that render a value tree, with their calls in `Gemma4Calls` and `MiniMaxCalls`, `Mapper`
is the event-driven mapper, with its results in `MapperResults`, `TaggedCall` and `PythonCall`, `Visitor` and
`PegStream` the reading of whole trees, `ChatDiff` the deltas. The main results go from parse trees to the client:
`Gemma4.Streams`, `MiniMax.Streams` and `PegStream.StreamsOfForest`. `Permute` is the grammar that lets tagged
arguments come in any order.

**Factored tensors.** `Tensor` has dense tensors of any rank with row-major reshaping, broadcasting and indexing,
`TensorLaws` and `SplitLaws` say what these operations are for, `ProductLaws` what the product of two factors is.
`Lora` is the pair of factors with reshape and permute, `LoraParts` split and the index of the first axis,
`LoraTuples` tuples of indices, `LoraJoins` row scaling, stack and concatenation; `LoraAccepts` says which calls the
class accepts. `LoraChains.ChainCommutes` says that any chain of these operations on the factors means the same on
their product, and `LoraChains.OpExactly` that its condition on each operation is exact.

**Template differencing.** `Segments` cuts template output into markers and text, `DiffLoop` and `DiffSplit` are the
two-ended segment diff, with the exact family of inputs for which its parts no longer add up; `DiffMaximal` shows that
everything shared at the ends is taken out.

**Codecs and small algorithms.** `Base64` (with decoding in place), `Csv`, the legacy file loader `Ggml` with its
tensor loop `GgmlTensors` and its acceptance rules `GgmlLaws`, help text wrapping `Wrap`, message spans `Spans`, the
n-gram table `NgramMod`.

Code that changes things step by step is written as methods with loops, arrays or classes, proved against
specification functions; the theorems are lemmas about those functions. Strings are sequences of code points, in
`Base64`, `Ggml` and `GgmlTensors` sequences of bytes. Token-id generation, the sizes of quantized types and the
parsers under `permute` are parameters.

## Where code and documentation disagree

The models follow the code.

* `common/chat-peg-parser.h:110` promises any order for `permute`; it holds exactly for up to six parsers
  (`Permute.AnyOrderExactly`).
* `common/chat-peg-parser.cpp:159` says that prefix matching keeps streamed partial values monotonic; that fails
  for `T` followed by `x` and for an escape cut in a single-quoted string (`Normalize.StreamedPrefixExactly`
  gives the exact condition, `Normalize.LiteralCanBeWithdrawn` an input).
* `calculate_diff_split` can read a segment a second time after its loop (`DiffSplit.JoinsExactly`); for
  `<a><b>` and `<a><b><b>` it reports no difference (`DiffSplit.DroppedMarker`).
* `compute_diffs` never looks at calls before the last previous one (`ChatDiff.ReconstructsExactly`).
* A string argument whose second or later chunk is empty gets a second opening quote
  (`TaggedCall.StringValueExactly`).
* `LoraTorchTensor` (`convert_lora_to_gguf.py:42`) is meant to behave like the tensor it stands for. It differs in
  these cases, each with its exact condition: `reshape` accepts two open sizes, and any number of rows for a weight
  of rank zero (`Lora.ReshapeCommutes`, `Lora.RankZeroLosesRows`); `permute` lets an axis number beyond the last one
  wrap around (`Lora.PermuteCommutes`); `split` reads an axis below `-ndim` a second time and can lose columns
  (`LoraParts.SplitOutside`, `LoraParts.SplitLosesColumns`); for batches that share an A, an index other than the
  first or last is refused (`LoraParts.IndexCommutes`), a slice can empty A (`LoraParts.PartCommutes`), and `cat`
  gives factors that do not fit (`LoraJoins.CatMeaningfulExactly`); in a tuple, an ellipsis that is not at the end
  stands for as many axes as there are other entries (`LoraTuples.EllipsisExactly`, `LoraTuples.EllipsisMisread`), a
  leading slice leaves A whole, and a row and a column given as positions, or as lists, may be accepted with an axis
  too many (`LoraTuples.TupleExactly`).
* The tensor loop of the legacy loader need not end, and need not go forward: a size whose 64-bit product wraps can
  take the cursor back. `Ggml.EndlessFile` and `Ggml.CrossedFile` are families of whole files for which the loader
  never returns, or accepts crossed data regions; `GgmlTensors.WrappingSizes` gives sizes for both.
  `GgmlTensors.AdvancesExactly`, `GgmlTensors.NeverEndsExactly` and `GgmlTensors.RegionsInOrder` are the exact
  conditions.
* After an overlap, the message `split` ignores all later regions to skip (`Spans.LostRegion`;
  `Spans.RespectedExactly` says when that matters).
* `common_ngram_mod::add` counts a slot that receives the empty mark, and the count then stays wrong
  (`NgramMod.Ngrams.CountedExactly`).

## Model

| member | source | states |
|---|---|---|
| JsonText.EscapedExactly | vendor/nlohmann/json.hpp:19112-19200 | escaped are the quotation mark, the backslash and the control characters, and nothing else |
| JsonText.EscapeIsClean | vendor/nlohmann/json.hpp:19112-19200 | a dumped string has no control character (section 7 of RFC 8259) |
| JsonText.ScanEscape | vendor/nlohmann/json.hpp:19112-19200 | escaped text never ends the string literal it stands in and never changes the brace depth |
| JsonText.BraceDepth | common/chat-peg-parser.cpp:42-68 | the flag-driven loop counts the braces left open outside string literals, as the lexer defines them |
| JsonText.ScanClosers | common/chat-peg-parser.cpp:444-447 | as many closers as the depth bring it back to zero |
| JsonValue.RoundTrip | common/chat-peg-parser.cpp:969-1062 | the canonical printing of every value reads back as that value with nothing left over, so it is a faithful target for the renderers |
| Normalize.NormalizeQuotes | common/chat-peg-parser.cpp:84-186 | the loop with its two quote flags and its look-behind computes the suffix-based specification, of which `PythonText.NormPython` says what it makes of a value |
| Normalize.ScanWord | common/chat-peg-parser.cpp:163-166 | the inner loop finds the whole word under the cursor |
| Normalize.MonotoneExactly | common/chat-peg-parser.cpp:84-186 | from any quote state, the output for a text is a prefix of the output for its continuation if and only if the continuation neither completes a cut escape as an apostrophe nor turns a growing literal into another word |
| Normalize.StreamedPrefixExactly | common/chat-peg-parser.cpp:159-177 | the same for whole values, the exact form of the monotonicity claim |
| Normalize.LiteralCanBeWithdrawn | common/chat-peg-parser.cpp:159-177 | an input for which the claim fails |
| Normalize.Idempotent | common/chat-peg-parser.cpp:84-186 | normalising twice is normalising once, for every input |
| Normalize.UnchangedExactly | common/chat-peg-parser.cpp:84-186 | a text is left alone if and only if, outside double quotes, it has no apostrophe and no bare word that is a Python literal or the beginning of one |
| Normalize.LexersAgree | common/chat-peg-parser.cpp:42-186 | the JSON lexer on the output and a Python lexer on the input agree on depth, quoting and escapes |
| Normalize.DepthPreserved | common/chat-peg-parser.cpp:42-186 | the brace depth of the output is the depth of the input lexed with Python quoting |
| PythonText.NormWord | common/chat-peg-parser.cpp:153-177 | `True`, `False` and `None` become `true`, `false` and `null`, before anything that does not continue the word |
| PythonText.WordCharsSpelled | common/chat-peg-parser.cpp:91 | words are made of letters, digits and underscores |
| PythonText.NormString | common/chat-peg-parser.cpp:100-152 | a string in single quotes, apostrophes escaped, and the same string in double quotes become the same JSON string |
| PythonText.NormPython | common/chat-peg-parser.cpp:84-186 | for every Python value, printed by an independent printer with any white space after commas and colons, the result is the JSON text of the value with the same white space |
| PythonText.NormReads | common/chat-peg-parser.cpp:84-186 | without white space it is the canonical text, and reads back as the value |
| Ast.FindGrows | common/peg-parser.cpp:137-151 | the node found first in a cut tree is found first in the full tree, the same or longer |
| Ast.FindAtomic | common/peg-parser.cpp:137-151 | a name, once found, never changes while the tree grows |
| AstWalk.FindIsFirst | common/peg-parser.cpp:137-151 | the node found is the first with the tag, in document order, among all nodes within the depth limit; nothing is found only if there is none |
| Gemma4.CutRendersPrefix | common/chat-peg-parser.cpp:969-1062 | for every tree and every cut of its right edge the rendering is a prefix of the full rendering |
| Gemma4.RendersValue | common/chat-peg-parser.cpp:969-1062 | a complete tree renders to the canonical printing of the value it stands for |
| Gemma4.RenderedValueReads | common/chat-peg-parser.cpp:969-1062 | that text reads back as the value |
| Gemma4.ToolGrows | common/chat-peg-parser.cpp:1077-1096 | a call shown early is shown again with the same name and continued arguments, those of `Gemma4Calls.CallShown` |
| Gemma4Calls.CallRead | common/chat-peg-parser.cpp:1077-1096 | a tool node with a finished name and arguments that stand for a value is read as the call with that name and the canonical printing of the value |
| Gemma4Calls.TreeCalls | common/chat-peg-parser.cpp:969-1096 | every value has such a node, built of the kinds of the grammar, and the call is read from it |
| Gemma4Calls.MessageCalls | common/chat-peg-parser.cpp:963-1101 | the message of a forest of such nodes, anywhere in it, has just their calls, in order |
| Gemma4Calls.ShowsPart | common/chat-peg-parser.cpp:969-1062 | of a value that is still arriving everything that is there is rendered, open strings, keys and containers included, and nothing else |
| Gemma4Calls.CallShown | common/chat-peg-parser.cpp:1077-1096 | a call is shown once its name is finished, with all of its arguments that is there, and every value they may become continues that text |
| Gemma4Calls.CallNotYet | common/chat-peg-parser.cpp:1077-1096 | a call is shown if and only if a finished name and an arguments node are found, and without arguments until that node has a child |
| Gemma4.Streams | common/chat-peg-parser.cpp:963-1101 | over every stream of growing trees no delta fails and the client ends with the message of the last tree |
| MiniMax.CollectGrows | common/chat-peg-parser.cpp:1103-1115 | collecting entries through nested nodes commutes with cutting the tree |
| MiniMax.ContainerGrows | common/chat-peg-parser.cpp:1142-1180 | an object or array cut anywhere renders to a prefix of what it becomes |
| MiniMax.RendersValue | common/chat-peg-parser.cpp:1182-1203 | a complete value renders to its canonical printing |
| MiniMax.CallArguments | common/chat-peg-parser.cpp:1142-1203 | the arguments of a finished call are the printing of the object written and read back as it |
| MiniMax.ToolGrows | common/chat-peg-parser.cpp:1225-1234 | a call shown early keeps its name and only extends its arguments |
| MiniMaxCalls.CallRead | common/chat-peg-parser.cpp:1225-1234 | a finished tool node with a name and entries that stand for an object is read as the call with that name and the canonical printing of the object |
| MiniMaxCalls.TreeCalls | common/chat-peg-parser.cpp:1103-1234 | every object has such a node, with wrappers around its entries, and the call is read from it |
| MiniMaxCalls.MessageCalls | common/chat-peg-parser.cpp:1205-1240 | the message of a forest of such nodes, anywhere in it, has just their calls, in order |
| MiniMaxCalls.ShowsPart | common/chat-peg-parser.cpp:1142-1203 | of a value that is still arriving everything that is there is rendered, through any wrappers, and nothing else |
| MiniMaxCalls.CallShown | common/chat-peg-parser.cpp:1225-1234 | a call is shown as soon as its name is there, with all of its arguments that is there, and every value they may become continues that text |
| Arrived.ShowBegins | common/chat-peg-parser.cpp:969-1203 | whatever a partly arrived value becomes, its canonical printing continues the text shown so far |
| MiniMax.Streams | common/chat-peg-parser.cpp:1205-1240 | over every stream of growing trees no delta fails and the client ends with the message of the last tree |
| Visitor.StreamsToClient | common/chat-peg-parser.cpp:1064-1101 | the same for any reading of tool nodes that is monotone under cutting, through the id cache and the deltas |
| Visitor.VisitGrows | common/chat-peg-parser.cpp:1064-1101 | the message read from a cut tree grows into that of the full one, earlier calls untouched |
| Visitor.VisitShows | common/chat-peg-parser.cpp:1064-1101 | the message of a forest is the old content and the texts of the outermost content nodes in document order, the same for reasoning, and the calls of the outermost tool nodes in order |
| ChatDiff.StringDiffExactly | common/chat.cpp:57-70 | a delta exists if and only if one text begins the other, and appending it gives the longer one |
| ChatDiff.ComputeDiffs | common/chat.cpp:267-333 | the vector-building code gives the deltas of the specification, errors included |
| ChatDiff.DiffsExactly | common/chat.cpp:267-333 | the deltas exist if and only if no text was rewritten and no call vanished or was renamed; the client then holds the longer texts, the merged last call and the new calls |
| ChatDiff.DeltasFit | common/chat.cpp:281-330 | a delta for the last call has a name or an id only if one of them changed, and then both as they are now; a new call comes whole; text deltas only where text changed |
| ChatDiff.ReconstructsExactly | common/chat.cpp:267-333 | the client reproduces the new message if and only if it extends the old one, earlier calls unchanged |
| ChatDiff.StreamDelivered | common/chat.cpp:267-333 | over every chain of extending messages nothing fails and folding all deltas onto the first gives the last |
| ChatDiff.SetToolCallIds | common/chat.h:107-119 | the loop stamps each call with its cached id and extends the cache |
| ChatDiff.StampedExtends | common/chat.h:107-119 | with the id cache, growth up to ids becomes growth |
| ChatDiff.StampedStream | tools/server/server-task.cpp:183-186 | a stream of growing readings, stamped from one cache, is a stream the deltas can carry |
| Mapper.StepKeepsInv | common/chat-peg-parser.cpp:315-457 | every event keeps the pending call and the current pointer consistent |
| Mapper.StepFreezes | common/chat-peg-parser.cpp:315-457 | an event adds at most one call and changes none but the last |
| Mapper.RunFreezes | common/chat-peg-parser.cpp:284-457 | over every run all calls but the last are frozen |
| Mapper.NothingToFlush | common/chat-peg-parser.cpp:287-298 | the flush of a named pending call never has anything to do |
| Mapper.PegMapper.constructor | common/chat-peg-parser.h:10-33 | a new mapper has the given message and no call under way |
| Mapper.PegMapper.Map | common/chat-peg-parser.cpp:315-457 | one event on the fields of the object is one step of the state machine, whose results `MapperResults` states on the events |
| Mapper.PegMapper.MapClose | common/chat-peg-parser.cpp:433-456 | closing flushes the buffer, the quote and the braces and files or drops the call |
| Mapper.PegMapper.FromAst | common/chat-peg-parser.cpp:284-313 | a whole forest is a run over its events in reading order, then the final clean-up |
| MapperResults.RunText | common/chat-peg-parser.cpp:315-328 | from every state and over every run, the content is the content before and the texts of the content events in order, and the reasoning likewise |
| MapperResults.ForestText | common/chat-peg-parser.cpp:284-328 | the content of a message is the texts of the content nodes of the forest in document order, and the reasoning those of the reasoning nodes unless all of it is blanks and line breaks |
| MapperResults.IdExactly | common/chat-peg-parser.cpp:350-356 | an id is reported without the white space behind it and without one pair of quotes around it |
| MapperResults.NameTrimmed | common/chat-peg-parser.cpp:12-38 | an argument name loses at most one white space character before it and all behind it |
| MapperResults.SpacesSpelled | common/chat-peg-parser.cpp:12-34 | white space is a blank or one of the five control characters from tab to carriage return |
| MapperResults.RunProgress | common/chat-peg-parser.cpp:342-457 | while a call is under way it has the id and the name that arrived last, and stands behind the earlier calls from its first name on |
| MapperResults.CallFields | common/chat-peg-parser.cpp:342-457 | from every state, a call, closed or still open, is reported if and only if a name arrived, as one more call with the last name and the last id |
| MapperResults.JsonCall | common/chat-peg-parser.cpp:358-456 | a call whose arguments arrive as one JSON text reports just that text, trimmed and closed, wherever name and id stand |
| MapperResults.ObjectCall | common/chat-peg-parser.cpp:375-456 | a finished JSON object arrives unchanged and reads back as the object |
| TaggedCall.TaggedCallResult | common/chat-peg-parser.cpp:276-457 | from every state, a tagged call with a name and well-formed values, its name anywhere among the argument events, adds exactly one call whose arguments are `{`, the comma-joined escaped pairs and `}` |
| TaggedCall.NamePlaceIrrelevant | common/chat-peg-parser.cpp:276-373 | where the name arrives makes no difference |
| TaggedCall.OneArg | common/chat-peg-parser.cpp:384-431 | the events of one argument append exactly its escaped pair, with a comma after the first |
| TaggedCall.StringValueExactly | common/chat-peg-parser.cpp:403-431 | a string value in chunks is written as its JSON string if and only if no chunk after the first is empty |
| TaggedCall.ArgumentsRead | common/chat-peg-parser.cpp:388-456 | if the raw values normalise to JSON, the finished arguments read back as the object of the arguments |
| PythonCall.PythonCallResult | common/chat-peg-parser.cpp:84-457 | from every state, a tagged call whose values are strings in pieces or Python values adds one call whose arguments are the canonical text of the object that was meant and read back as it |
| PegStream.ForestEventsGrow | common/chat-peg-parser.cpp:284-313 | the events of a cut forest are early events of the full forest |
| PegStream.StepGrowsExactly | common/chat-peg-parser.cpp:315-457 | from every state, an event only adds to the message if and only if it changes the name of a call of the message, or replaces its arguments, from a node or from the buffer, only by a continuation |
| PegStream.SafeRunExactly | common/chat-peg-parser.cpp:284-457 | for every state and run, safe at each event means just that: the message only grows, event by event |
| PegStream.CutStepGrowsExactly | common/chat-peg-parser.cpp:315-431 | from every state, the early form of an event gives a message that the full form continues if and only if, for a call that is shown, a raw value is cut harmlessly and no empty string chunk follows an open one |
| PegStream.GrowthOfRuns | common/chat-peg-parser.cpp:315-457 | runs over such events give growing messages when the longer run is safe and the last event of the shorter one is cut safely |
| PegStream.FollowedExactly | common/chat-peg-parser.cpp:284-457 | for every state and list of events: whatever arrives first is continued by whatever arrives later, for all early stretches of the list, if and only if each event is safe in each form in which it may arrive |
| PegStream.ReadingGrows | common/chat-peg-parser.cpp:284-457 | the reading of a cut forest grows into the reading of the full one, whenever the arrival is safe |
| PegStream.Streams | tools/server/server-task.cpp:172-186 | from parse trees to the client through the general mapper, over every stream whose arrivals are safe: no delta fails and the last message arrives |
| PegStream.StreamsOfForest | tools/server/server-task.cpp:172-186 | if the events of the last tree are safe in each form, then over every stream of growing trees that ends with it no delta fails and its message arrives |
| Permute.RemainingOf | common/chat-peg-parser.cpp:250-272 | the memoised mask recursion gives the parser of the plain recursion and ends with the set bits |
| Permute.Permute | common/chat-peg-parser.cpp:239-274 | the builder with its three cases gives the specified grammar |
| Permute.RemainingLanguage | common/chat-peg-parser.cpp:250-272 | for every mask the grammar accepts exactly the arrangements of its members |
| Permute.PermuteLanguage | common/chat-peg-parser.cpp:239-274 | up to six parsers: exactly the concatenations of one word of each, in some order |
| Permute.SequenceLanguage | common/chat-peg-parser.cpp:245-248 | the fallback accepts the given order only |
| Permute.AnyOrderExactly | common/chat-peg-parser.h:110-111 | any order is accepted for all parsers if and only if there are at most six |
| Lora.ReshapeCommutes | convert_lora_to_gguf.py:136-160 | for every weight and every shape the class accepts: the tensor accepts it if and only if it leaves at most one size open and, at rank zero, keeps the number of entries; reshaping the factors then reshapes the product |
| LoraAccepts.ReshapeAccepted | convert_lora_to_gguf.py:136-160 | a weight with entries is reshaped if and only if its product can be, the new shape has at least two axes and keeps the row length, and A is a single matrix |
| LoraAccepts.ResolveExactly | convert_lora_to_gguf.py:145-150 | an open size is filled with a number if and only if that gives as many entries as there are |
| LoraAccepts.HolesExactly | convert_lora_to_gguf.py:145-150 | the count of open sizes that the tensor limits to one |
| LoraAccepts.ResolveNothing | convert_lora_to_gguf.py:145-150 | a request without an open size stands for itself |
| Lora.RankZeroLosesRows | convert_lora_to_gguf.py:136-160 | a weight of rank zero with any number of rows is reshaped to any other, which the tensor refuses |
| Lora.PermuteCommutes | convert_lora_to_gguf.py:168-188 | permuting commutes with the product, and the dense result exists if and only if no axis number wraps |
| LoraAccepts.PermuteAccepted | convert_lora_to_gguf.py:168-179 | an order of the axes is accepted if and only if, axis numbers wrapped, the tensor accepts it, and it keeps the row axis last over a single A or transposes a matrix |
| Lora.TransposeMatrix | convert_lora_to_gguf.py:175-176 | transposing a matrix product exchanges and transposes the factors |
| LoraAccepts.TransposeSwaps | convert_lora_to_gguf.py:181-188 | transposing moves every entry to where its two coordinates are exchanged |
| LoraParts.SplitCommutes | convert_lora_to_gguf.py:190-206 | along every axis that the tensor knows the factors split if and only if the product does, into the same parts |
| SplitLaws.ChunksExactly | convert_lora_to_gguf.py:190-206 | an axis can be split if and only if the sizes add up to it, or the one size is positive; the parts have the sizes asked for and are, one after the other, the whole axis |
| SplitLaws.SplitJoins | convert_lora_to_gguf.py:190-206 | putting the parts of the first axis together gives the tensor back |
| SplitLaws.LoraSplitJoins | convert_lora_to_gguf.py:190-206 | the products of the parts of a weight, put together, are its product |
| SplitLaws.JoinSplits | convert_lora_to_gguf.py:190-259 | splitting a concatenation by the sizes of its operands gives each of them back |
| LoraParts.SplitOutside | convert_lora_to_gguf.py:190-206 | the tensor refuses every other axis; the class accepts those from -2 ndim to -ndim - 1, and no more, for which the sizes fit and no part that is kept cuts the rank |
| LoraParts.SplitLosesColumns | convert_lora_to_gguf.py:190-206 | a matrix split along axis -3 into parts no smaller than the rank and narrower than the matrix is accepted, and gives one part, the first columns of the product |
| LoraParts.IndexCommutes | convert_lora_to_gguf.py:66-71 | an index is accepted if and only if the weight is a batch, the tensor accepts the index and, when A is shared, it is the first or the last; it picks the matrix of the product |
| LoraParts.PartCommutes | convert_lora_to_gguf.py:66-76 | a slice, with or without a step, is accepted if and only if the tensor accepts it, a tensor of positions if also the weight is a batch and, when A is shared, they are the first or the last; the factors fit each other, for a slice if and only if a shared A survives it, and are then that part of the product |
| LoraTuples.TupleCommutes | convert_lora_to_gguf.py:77-112 | a tuple whose ellipsis is read alike, with rows and columns that stay and leading slices that are whole or meet a shared A, is accepted if and only if the tensor accepts it, and picks the same part of the product |
| LoraTuples.TupleExactly | convert_lora_to_gguf.py:77-112 | every accepted tuple whose ellipsis is read alike means the same on the factors if and only if its entries are of that kind |
| LoraTuples.EllipsisExactly | convert_lora_to_gguf.py:79-95 | for every tuple with one ellipsis and some other entry, class and tensor read the same entries off it if and only if the ellipsis is last, or there are as many other entries as other axes, or only whole axes follow and there is room |
| LoraTuples.PlainAgrees | convert_lora_to_gguf.py:79-95 | without an ellipsis they do for every tuple that is not longer than the shape |
| LoraAccepts.PairsExactly | convert_lora_to_gguf.py:77-112 | the tensor reads two lists of positions in pairs, or one entry with all of the other list, and refuses other lengths |
| LoraTuples.EllipsisMisread | convert_lora_to_gguf.py:79-95 | for every batch with one leading axis, a slice behind an ellipsis is accepted and taken of the rows, where the tensor takes columns |
| LoraJoins.ScaleCommutes | convert_lora_to_gguf.py:211-216 | a factor is accepted if and only if the tensor accepts it and it is a number or has one entry per row and no extra axes; it may then be pushed onto B, either operand broadcast |
| LoraJoins.StackCommutes | convert_lora_to_gguf.py:234-242 | stacking the factors stacks the products |
| LoraAccepts.StackAccepted | convert_lora_to_gguf.py:234-242 | weights can be stacked if and only if their first factors have one shape and their second factors too |
| LoraJoins.CatAllCommutes | convert_lora_to_gguf.py:243-259 | concatenating any list with one common A, or one A per B, or a single A among empty batches, concatenates the products |
| LoraAccepts.CatAccepted | convert_lora_to_gguf.py:243-259 | batches can be put together if and only if the sizes behind the first axis agree for both factors, matrices if and only if they have the same A |
| LoraJoins.CatMeaningfulExactly | convert_lora_to_gguf.py:243-252 | for every list of batches the factors of the result fit each other if and only if there is a single A or as many A as B |
| LoraJoins.CatFitsExactly | convert_lora_to_gguf.py:243-259 | so a concatenation whose factors fit each other is one of those kinds, unless the numbers of A and B agree by chance |
| LoraJoins.NoChance | convert_lora_to_gguf.py:243-252 | which takes an empty batch: without one the numbers agree if and only if every weight has one A per B |
| LoraChains.OpCommutes | convert_lora_to_gguf.py:58-265 | reshape, permute, transpose, split, index by position, slice or list, tuple, scaling, stack and concatenation, on every weight they are accepted for and within the condition of each, keep the rank and commute with the product |
| LoraChains.OpExactly | convert_lora_to_gguf.py:58-265 | the condition is exact: an accepted operation gives fitting factors of what the tensor gives if and only if it meets the condition (numbers that agree by chance and an ellipsis that is read differently aside) |
| LoraChains.ChainCommutes | convert_lora_to_gguf.py:58-265 | every chain of such operations keeps the rank and commutes with the product, for arbitrary shapes |
| ProductLaws.MatrixEntry | convert_lora_to_gguf.py:42-46 | an entry of the product is the sum over the rank of row times column |
| ProductLaws.RankOne | convert_lora_to_gguf.py:42-46 | of rank one it is one column times one row |
| ProductLaws.ProductAdds | convert_lora_to_gguf.py:42-46 | cutting the rank in two, the products of both parts add up to the product |
| TensorLaws.FlatInOrder | convert_lora_to_gguf.py:156-160 | storage follows row-major order |
| TensorLaws.ReshapeKeepsOrder | convert_lora_to_gguf.py:156-160 | reshaping keeps the entry at every storage position |
| TensorLaws.ReshapeBack | convert_lora_to_gguf.py:156-160 | reshaping back gives the tensor |
| TensorLaws.PermuteMoves | convert_lora_to_gguf.py:168-179 | permuting moves every entry to the permuted index |
| TensorLaws.StackOfRows | convert_lora_to_gguf.py:234-242 | taking the positions of the first axis apart and stacking them gives the tensor back |
| TensorLaws.IndexOfStack | convert_lora_to_gguf.py:234-242 | each stacked tensor is found again at its position |
| TensorLaws.CatHolds | convert_lora_to_gguf.py:243-259 | a concatenation holds both operands, in order |
| TensorLaws.SteppedExactly | convert_lora_to_gguf.py:72-76 | a slice stands for every step-th position of its range, in order, to its end |
| TensorLaws.BoundsExactly | convert_lora_to_gguf.py:72-76 | a bound inside the axis is the index it means, beyond either end that end |
| Segments.SegmentizeMarkers | common/chat-auto-parser-helpers.cpp:266-296 | the loop gives non-empty, well-cut segments whose concatenation is the text |
| Segments.CutExactly | common/chat-auto-parser-helpers.cpp:266-296 | a list of segments is the result if and only if markers run from an opener to its first closer, plain texts are maximal, only the last may be unclosed, and together they are the text |
| Segments.CutIsUnique | common/chat-auto-parser-helpers.cpp:266-296 | there is one such list |
| DiffMaximal.MarkersSpelled | common/chat-auto-parser-helpers.cpp:266-296 | a marker is `<...>` or `[...]` without another closer of its kind, and plain text has neither opener |
| DiffMaximal.PlainIsText | common/chat-auto-parser-helpers.cpp:266-296 | a text without openers is one segment of text |
| DiffSplit.CommonPrefixLen | common/chat-auto-parser-helpers.cpp:66-73 | the longest agreement at the front |
| DiffSplit.CommonSuffixLen | common/chat-auto-parser-helpers.cpp:75-82 | the longest agreement at the back |
| DiffLoop.MeetInTheMiddle | common/chat-auto-parser-helpers.cpp:99-136 | the loop with four indices and two flags reaches the end state of the specification |
| DiffSplit.RefineText | common/chat-auto-parser-helpers.cpp:166-180 | the text refinement, suffix first, prefix on what is left; `DiffMaximal.TextsSplit` says that both are the longest |
| DiffSplit.CalculateDiffSplit | common/chat-auto-parser-helpers.cpp:84-204 | the whole operation: the specified split, which adds up to both inputs if and only if nothing is read twice |
| DiffMaximal.LengthsAreLongest | common/chat-auto-parser-helpers.cpp:66-82 | the counted lengths are the longest common start and end |
| DiffMaximal.TextsSplit | common/chat-auto-parser-helpers.cpp:166-204 | two texts without markers: the suffix is their longest common end and the prefix the longest common start of the rest, unless the left text begins the right one, and then the rest of the right one is reported |
| DiffMaximal.PartsDiffer | common/chat-auto-parser-helpers.cpp:84-204 | for every two inputs, where the segments at an end of what is left are text on both sides, the reported parts share no character at that end |
| DiffMaximal.NoPairLeft | common/chat-auto-parser-helpers.cpp:111-162 | for every two different inputs, where both sides still have segments, neither the first nor the last of them are equal |
| DiffLoop.MeetKeeps | common/chat-auto-parser-helpers.cpp:111-136 | every turn keeps matched parts and unmatched segments of both sides adding up to the inputs |
| DiffLoop.TailKeeps | common/chat-auto-parser-helpers.cpp:138-162 | so does the tail when the loop used up neither side |
| DiffSplit.EqualFlagsJoin | common/chat-auto-parser-helpers.cpp:84-204 | if the loop ends with equal flags, prefix+left+suffix and prefix+right+suffix are the inputs |
| DiffSplit.JoinsExactly | common/chat-auto-parser-helpers.cpp:84-204 | for every two inputs they are, unless one side is two halves of the other and its middle repeats the segment after the first half: the exact condition, on the segments alone |
| DiffSplit.EqualCountsJoin | common/chat-auto-parser-helpers.cpp:84-204 | inputs cut into equally many segments are always put back together |
| DiffSplit.NothingReportedExactly | common/chat-auto-parser-helpers.cpp:182-187 | no difference is reported if and only if the inputs are equal or one has a repeated marker more in its middle |
| DiffSplit.DroppedMarker | common/chat-auto-parser-helpers.cpp:158-162 | the concrete inputs for which a marker goes unnoticed |
| Base64.EncodeBytes | common/base64.hpp:80-144 | the loop encodes every byte string, in the size announced |
| Base64.DecodeInto | common/base64.hpp:200-244 | from one buffer into another or onto itself, the bytes, the length and the error are those of decoding a copy, and nothing behind them is touched |
| Base64.DecodesBack | common/base64.hpp:80-244 | decoding gives back every byte string, in its own alphabet or detecting it |
| Base64.Detects | common/base64.hpp:344-387 | detection is one of the two alphabets and succeeds if and only if one of them does, so a mix is never accepted |
| Base64.EncodesBackExactly | common/base64.hpp:80-244 | encoding gives back a text if and only if it is canonical (section 3.5 of RFC 4648) |
| Base64.EncodeSize | common/base64.hpp:338-341 | the encoded length is the required size |
| Base64.DecodeSize | common/base64.hpp:324-327 | the decoded length is within the maximum and never exceeds the text |
| Csv.ParseRow | common/arg.cpp:1500-1538 | the loop reads the fields of the specification |
| Csv.ParsesBack | common/arg.cpp:1496-1538 | a row of quoted or plain fields reads back as its fields (section 2 of RFC 4180) |
| Csv.PlainExactly | common/arg.cpp:1500-1538 | a field may stay unquoted if and only if it has no comma and does not begin with a quotation mark |
| Ggml.LoadsBack | convert_llama_ggml_to_gguf.py:180-200 | loading a written file gives back header, hyperparameters, vocabulary and tensors with the cursor at the end, or fails for want of the feed-forward tensor exactly as the code does |
| Ggml.LoadModel | convert_llama_ggml_to_gguf.py:180-200 | the loader with its name map computes the specified result or the first error, or does not return |
| Ggml.ReadVocab | convert_llama_ggml_to_gguf.py:84-98 | the vocabulary loop |
| GgmlLaws.HeaderExactly | convert_llama_ggml_to_gguf.py:145-166 | a header is accepted if and only if it has one of three magics with a version known for it |
| GgmlLaws.RefusedExactly | convert_llama_ggml_to_gguf.py:168-187 | a readable file is refused as not eligible if and only if it is quantized and older than the second version of GGJT, or of that version in one of four formats |
| GgmlLaws.TypeExactly | convert_llama_ggml_to_gguf.py:27-72 | the file types are the members of the enumeration |
| GgmlLaws.AbsurdRefused | convert_llama_ggml_to_gguf.py:84-118 | absurd lengths, more than four dimensions and unknown types are refused |
| Ggml.EndlessFile | convert_llama_ggml_to_gguf.py:110-195 | behind any valid file, of any kind, one more tensor header whose size wraps to what takes the cursor back over it: the loader never returns |
| Ggml.CrossedFile | convert_llama_ggml_to_gguf.py:110-200 | behind any valid file without padding, one more header whose size wraps to -16: the loader accepts the file, with two tensors more, the second of which has its region before the first |
| GgmlTensors.ReadTensors | convert_llama_ggml_to_gguf.py:189-195 | the tensor loop, with a map that holds the last tensor of each name; there is no answer if and only if the loop goes on for ever |
| GgmlTensors.AdvancesExactly | convert_llama_ggml_to_gguf.py:110-131 | a turn of the loop moves the cursor forward if and only if the 64-bit size takes it neither back to where it was or before nor beyond 64 bits |
| GgmlTensors.NeverAdvances | convert_llama_ggml_to_gguf.py:110-131 | wherever such a header stands, the cursor stays where it is and the loop never ends |
| GgmlTensors.NeverEndsExactly | convert_llama_ggml_to_gguf.py:189-195 | the loop never ends if and only if it is still running after twice the file length and one turn, since the cursor is then back at an earlier place |
| GgmlTensors.NeverEndsGoesBack | convert_llama_ggml_to_gguf.py:189-195 | a loop that never ends has a turn that does not advance |
| GgmlTensors.Regions | convert_llama_ggml_to_gguf.py:110-131 | a region lies between its start and the next start if and only if its size is not negative and its end fits in 64 bits; in GGJT starts are multiples of 32 |
| GgmlTensors.RegionsInOrder | convert_llama_ggml_to_gguf.py:110-131 | all regions lie in file order without overlap if and only if no size but perhaps the last is negative or ends beyond 64 bits |
| GgmlTensors.RegionsCanGoBack | convert_llama_ggml_to_gguf.py:110-131 | at the end of any file, a header whose size wraps to -16 is accepted, and a second tensor is read out of its name, with a region before the first |
| GgmlTensors.WrappingSizes | convert_llama_ggml_to_gguf.py:126-127 | concrete dimensions for both |
| GgmlTensors.AlignUpIsLeast | convert_llama_ggml_to_gguf.py:124-125 | padding goes to the least multiple of 32 not below the header end |
| Wrap.BreakIntoLines | common/arg.cpp:165-190 | the loops give the specified lines, and their words are the words of the text in order |
| Wrap.WrapLong | common/arg.cpp:169-183 | the word loop is the greedy filling |
| Wrap.WrapKeepsWords | common/arg.cpp:169-185 | a wrapped line keeps its words in order |
| Wrap.WrapFits | common/arg.cpp:169-185 | every resulting line fits or is a single over-long word |
| Wrap.FewestLines | common/arg.cpp:173-184 | no list of acceptable lines with the same words is shorter |
| Spans.FindStarts | common/chat.cpp:156-173 | the walk with its skip iterator finds the starts of the specification, ending lexicographically |
| Spans.Split | common/chat.cpp:153-185 | the spans run from each start to the next |
| Spans.SpanStartsExactly | common/chat.cpp:156-173 | a span with a role starts at a position if and only if it is outside the honoured regions and the first delimiter that matches has that role |
| Spans.SpansTile | common/chat.cpp:175-184 | spans are non-empty and tile the tokens from the first start to the end |
| Spans.AllHonouredExactly | common/chat.cpp:156-162 | all regions are honoured if and only if they are disjoint |
| Spans.RespectedExactly | common/chat.cpp:156-173 | for no tokens and delimiters does a span start inside a region to skip, if and only if the honoured regions cover the others |
| Spans.LostRegion | common/chat.cpp:156-162 | a concrete overlap that loses a later region |
| NgramMod.PolynomialSnoc | common/ngram-mod.cpp:15-25 | the running product is the polynomial sum |
| NgramMod.Ngrams.Idx | common/ngram-mod.cpp:15-25 | the wrapping loop computes the polynomial modulo 2^64, then modulo the size |
| NgramMod.Ngrams.Add | common/ngram-mod.cpp:27-35 | an entry is added to the history, and the count of occupied slots stays right if and only if the token is not the empty mark |
| NgramMod.Ngrams.CountedExactly | common/ngram-mod.cpp:27-35 | over every history the count of occupied slots is right if and only if the empty mark was never added |
| NgramMod.Ngrams.Get | common/ngram-mod.cpp:37-41 | the entry of the table that the history of adds defines |
| NgramMod.Ngrams.Reset | common/ngram-mod.cpp:43-46 | the loop empties the table and the history, and the count is right again |
| NgramMod.LastWins | common/ngram-mod.cpp:27-41 | in that table the last add to a slot wins and untouched slots are empty |

## Left out

- The parsing engine, the grammar builder, the JSON library and the template runtime: parsers are languages, parse trees a datatype, `dump` the string printer.
- That the engine cuts trees as `Ast.Cut` says is taken from `common/peg-parser.cpp:738-790`; the engine is not modelled.
- Invalid UTF-8 and its replacement: strings are code points and `sanitized_text` is the text.
- PegStream.ReadingGrows: under `SafeArrival`. A single reading may go astray and come back; over all stretches of the events the condition is exact (`PegStream.FollowedExactly`).
- PegStream.Streams: under `SafeArrival` at every step, as above.
- PegStream.StreamsOfForest: formats are not modelled one by one; which of them are safe is not decided here.
- Permute.RemainingLanguage: choice is read as union of languages, while the engine takes the first alternative that matches; masks are sequences of flags rather than words.
- ChatDiff.StreamDelivered: messages without content parts, tool results and roles, and with every call shown; the server's withholding of call headers is not modelled.
- LoraChains.OpCommutes: entries are real numbers, so rounding, dtypes and lazy evaluation are not captured.
- LoraTuples.TupleCommutes: index tensors have one axis, and there is at most one ellipsis; tensors of more axes and masks are not modelled.
- LoraParts.PartCommutes: index tensors of one axis.
- LoraChains.OpExactly: leaves out concatenations for which the numbers of A and B agree by chance, and ellipses that are read differently; whether the result is then right depends on the entries.
- LoraJoins.StackCommutes: the axis is 0, as the class asserts; so it is in concatenation.
- The reading of a message when the last one was empty, reasoning formats and prefilled messages in the server.
- `until_common_prefix`, `after_common_suffix` and whitespace pruning beside the diff: a few lines each.
- Base64.DecodeInto: iterators of other kinds than positions in a buffer.
- Ggml.LoadsBack: scores are kept as their four bytes; files are shorter than 2^63 bytes.
- GgmlTensors.ReadTensors: stops when the loop is known never to end, where the code goes on until memory runs out.
- The writing of GGUF, validation of tensor names and the vocabulary conversion.
- `common_chat_input`, span lookups and the rest of the argument parser: they would only add easy members.
- The remaining server, model, kernel and download code.
