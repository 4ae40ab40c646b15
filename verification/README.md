# Kenjaku: verified model

Kenjaku answers questions over a company's documents. This project models the parts of it that carry
state across pieces of input, or that promise something about a whole run, and proves what they promise.

**The answer path.** Gemini sends the answer as slices of one JSON object. `MessageStream` decodes the
`message` string while the slices arrive, `SearchStreaming` turns the decoded pieces into events for the
browser, `SseClient` puts the events together again from arbitrary network reads, and `EndToEnd` joins the
three: the text in the browser is the decoding of the text Gemini sent, however it was cut at either end,
and it is the message itself exactly when the JSON text has no `\u` escape. `KeySearch`, `JsonStrings`,
`LineFeeds` and `MessageMeaning` hold the search for the key, JSON strings, lines, and what the decoded
text means.

**Ingestion.** `Crawler` is the depth-bounded crawl over any link graph, finite or not. `TagStripper` and
`MarkdownCleaner` clean pages, `Chunker` cuts texts into overlapping windows that end at sentence ends, and
`Ingest` embeds and stores the chunks batch by batch. `Cutting`, `Tidying`, `Windowing` and `Embedding`
hold the general parts of their proofs.

**Smaller transformations.** `Prompts` renders templates, `PrefixSearch` escapes user input for LIKE,
`Usage` adds up tokens and costs, `Clustering` groups the result of k-means, and `RefreshBatches` is the
table behind the zero-downtime swap of default suggestions together with the worker that drives it.

Code that works step by step is a method or a class here, specified by a function of its input or of its
old state; the laws are lemmas about that function. Positions are counted in characters.

Where the code does less than its comments or documentation say, the model follows the code and the
condition under which the promise holds is proved:

- Deltas are said to be the decoded message, with a note that `\uXXXX` stays as it is written; they are the
  message exactly when it has no such escape (`MessageMeaning.StreamedIsMessage`).
- The key search skips blank, tab and line feed, but not carriage return, which JSON allows; the value is
  found exactly when there is none around the colon (`KeySearch.FoundUnlessCarriageReturn`).
- The crawl promises the pages up to a given depth. A page first taken from the worklist at the limit is
  not expanded, although a shorter path may lead to it. The promise holds on every link graph exactly for
  limits 0 and 1; for a given graph, `Crawler.CompleteUnlessCutShort` says when.
- Unknown placeholders are said to be kept for a later stage. Two stages are one exactly when no value put in
  first, under a key that a slot can name, has a pair of opening braces or ends with one
  (`Prompts.StagesComposeExactly`).
- The total of tokens is said to be the sum of the two counts; that holds exactly while the sum fits in 32
  bits (`Usage.TotalIsSumUnlessSaturated`).
- A failed batch is said to leave the active one untouched. An error in retention comes after the swap, so
  the batch then marked failed is the active one, and readers see none until the next swap
  (`RefreshBatches.RunServesReaders`). For runs of statements in any order, `RefreshBatches.RunServesThroughout`
  says exactly when readers are served in every state.
- The sentence cut is said to fall in the last 15 % of a window. The code takes 85 % of the bytes and compares
  that with a position in characters, so it can miss the cut (`Chunker.PromisedCutIsMissed`).
  `Chunker.CutIsPromisedCut` says exactly when it makes the promised one.

Proofs by induction are written out; automatic induction is switched off throughout, which keeps the proofs
quick.

## Model

| member | source | states |
|---|---|---|
| JsonStrings.ReadUnitInvertsPrint | crates/kenjaku-infra/src/llm/gemini.rs:1404-1412 | every unit of a JSON string, surrogate pairs included, is read back as itself whatever follows it |
| JsonStrings.EscapeTable | crates/kenjaku-infra/src/llm/gemini.rs:1404-1412 | the eight short escapes of RFC 8259, section 7, and the character that each one means |
| JsonStrings.HexDigitTable | crates/kenjaku-infra/src/llm/gemini.rs:1404-1412 | the 22 hexadecimal digits and their values |
| JsonStrings.PairMeansCharacter | crates/kenjaku-infra/src/llm/gemini.rs:1404-1412 | the surrogate pair of a character beyond the first plane means that character |
| JsonStrings.ReadStringInvertsPrint | crates/kenjaku-infra/src/llm/gemini.rs:1066-1075 | reading a printed string body gives its meaning and the rest of the text |
| JsonStrings.SerdeUnit | crates/kenjaku-api/src/handlers/search.rs:204-207 | what is written for a character is a valid unit that means that character |
| JsonStrings.PrintIsOneLine | crates/kenjaku-api/src/handlers/search.rs:204-209 | a printed string body has no line feed, so it cannot break an event |
| JsonStrings.SerializeRoundTrip | crates/kenjaku-api/src/handlers/search.rs:204-207 | a written string fits on one line and reads back as itself, whatever follows |
| KeySearch.ExamineKey | crates/kenjaku-infra/src/llm/gemini.rs:1285-1316 | what the two skipping loops make of a key that was found |
| KeySearch.FindValueStart | crates/kenjaku-infra/src/llm/gemini.rs:1272-1320 | the scanning loop computes the recursive search, for any key |
| KeySearch.SearchFindsFirstOpening | crates/kenjaku-infra/src/llm/gemini.rs:1263-1320 | the answer is p if and only if p ends the first occurrence of key, blanks, colon, blanks, quote before which every key occurrence is followed by something else than a colon |
| KeySearch.FoundStaysFound | crates/kenjaku-infra/src/llm/gemini.rs:1184-1195 | more text never changes an answer |
| KeySearch.NothingFoundLate | crates/kenjaku-infra/src/llm/gemini.rs:1187-1195 | an answer that only a longer text gives lies beyond the text searched before: a failed search hides nothing |
| KeySearch.DecidedAtFirstKey | crates/kenjaku-infra/src/llm/gemini.rs:1284-1318 | the first key decides the search, unless no colon follows it |
| KeySearch.NonStringSilences | crates/kenjaku-infra/src/llm/gemini.rs:1309-1314 | after a first key and a colon with only blanks, tabs and line feeds around it and then a character that begins no string, nothing is ever found, whatever text follows |
| KeySearch.FoundUnlessCarriageReturn | crates/kenjaku-infra/src/llm/gemini.rs:1288-1308 | with any of the four white-space characters of RFC 8259, section 2, around the colon the value is found if and only if none of them is a carriage return |
| KeySearch.FoundInObject | crates/kenjaku-infra/src/llm/gemini.rs:1272-1320 | the same for a text put together from what stands before the key, the key, white space, colon, white space, quote and rest |
| MessageStream.FindMessageValueStart | crates/kenjaku-infra/src/llm/gemini.rs:1272-1320 | the search for the message key: the recursive search, of which the `KeySearch` rows say what it finds |
| MessageStream.DecodeAppend | crates/kenjaku-infra/src/llm/gemini.rs:1197-1222 | decoding a text in two parts, with the state carried over, is decoding it at once |
| MessageStream.EmittedGrows | crates/kenjaku-infra/src/llm/gemini.rs:1161-1232 | what has been emitted is a prefix of what is emitted for any longer text |
| MessageStream.DeltasTelescope | crates/kenjaku-infra/src/llm/gemini.rs:1161-1232 | chunking invariance: for every cutting, empty chunks included, the deltas add up to the decoding of the whole |
| MessageStream.StepIsFaithful | crates/kenjaku-infra/src/llm/gemini.rs:1341-1432 | every step leaves the automaton the work it has not done; the step that consumes nothing clears the pending escape; NeedMore does not occur on a non-empty rest |
| MessageStream.ScanningSteps | crates/kenjaku-infra/src/llm/gemini.rs:1197-1222 | one turn of the loop keeps the simulation and lowers the unscanned length or else the pending escape |
| MessageStream.ScanningCompletes | crates/kenjaku-infra/src/llm/gemini.rs:1172-1231 | a scan that has come to its end is in the one state, and has emitted the one text, that belong to the whole input |
| MessageStream.MergedJsonStreamParser.constructor | crates/kenjaku-infra/src/llm/gemini.rs:1147-1156 | a new parser is in the state of the empty text |
| MessageStream.MergedJsonStreamParser.DecodeOne | crates/kenjaku-infra/src/llm/gemini.rs:1202-1222 | one step inside the message, on the parser's fields |
| MessageStream.MergedJsonStreamParser.Push | crates/kenjaku-infra/src/llm/gemini.rs:1161-1232 | the whole state after a push is the state of the concatenated text; the delta is exactly what that text adds to what was emitted; the loop ends |
| MessageStream.MergedJsonStreamParser.Finalize | crates/kenjaku-infra/src/llm/gemini.rs:1237-1261 | assets and suggestions are those of one parse of the concatenated text, none when it is blank or malformed |
| MessageStream.EntryIsKept | crates/kenjaku-infra/src/llm/gemini.rs:1047-1060 | an asset entry is kept if and only if its symbol is not blank and its type is one of six names; the symbol is trimmed and the names mean stock or crypto as listed |
| MessageStream.EntriesKeepOrder | crates/kenjaku-infra/src/llm/gemini.rs:1068-1075 | the entries are treated one by one and stay in order |
| MessageMeaning.DecodeReadsTokens | crates/kenjaku-infra/src/llm/gemini.rs:1341-1432 | any text inside the message is tokens, a possible last backslash or the closing quote; the decoding is what the tokens mean |
| MessageMeaning.EmittedIsReceived | crates/kenjaku-infra/src/llm/gemini.rs:1161-1232 | prefix safety: after every push the emitted text is the meaning of all message input but at most one held-back backslash |
| MessageMeaning.DecodeUnits | crates/kenjaku-infra/src/llm/gemini.rs:1341-1432 | a JSON string body up to its closing quote decodes to its streamed form and ends the message |
| MessageMeaning.MessageIsStreamed | crates/kenjaku-infra/src/llm/gemini.rs:1087-1121 | in any chunks, the deltas of a message add up to the decoding that leaves `\u` escapes literal, and the parser ends behind the message |
| MessageMeaning.AnswerIsStreamed | crates/kenjaku-infra/src/llm/gemini.rs:1087-1121 | the same for the JSON text of an answer that starts with the message field, with any JSON white space but a carriage return around the colon |
| MessageMeaning.StreamedIsMessage | crates/kenjaku-infra/src/llm/gemini.rs:1115-1121 | the streamed text is the message if and only if its JSON text has no `\u` escape |
| MessageMeaning.WrittenMessageIsStreamed | crates/kenjaku-infra/src/llm/gemini.rs:1087-1121 | decode undoes encode: a message written by serde_json streams as itself if and only if no character of it needs a `\u` escape |
| SearchStreaming.OnEvent | crates/kenjaku-infra/src/llm/gemini.rs:448-600 | what one Gemini event becomes, and what it does to the parser |
| SearchStreaming.GenerateStream | crates/kenjaku-infra/src/llm/gemini.rs:442-603 | the items of the stream are those of its events, each with the parser in the state of the text before it |
| SearchStreaming.SearchStreaming | crates/kenjaku-api/src/handlers/search.rs:133-297 | when the stream does not open, one error event with the message; else all frames: start, the deltas up to the first item that ends the stream, and a last one, of which `EndToEnd.BrowserSeesAnswer` says what it is |
| SearchStreaming.EventAddsDelta | crates/kenjaku-infra/src/llm/gemini.rs:448-600 | an event adds to the emitted text exactly its delta, dropped events add nothing, and the item ends the stream if and only if the event does |
| SearchStreaming.DeltasAddUp | crates/kenjaku-api/src/handlers/search.rs:199-243 | the deltas sent add up to the decoding of the text received up to the finish, from any parser state |
| SearchStreaming.HarvestIsOneShotParse | crates/kenjaku-infra/src/llm/gemini.rs:1066-1085 | a stream that ends cleanly gathers the same assets and suggestions as one parse of the received text |
| SearchStreaming.EventsCountToTheEnd | crates/kenjaku-infra/src/llm/gemini.rs:448-600 | the events count up to the first done marker, finish reason or transport error, that one included |
| SearchStreaming.HarvestIsReceived | crates/kenjaku-api/src/handlers/search.rs:199-243 | what is gathered, from any state: all grounding sources of the events received, in order, the usage of the last event with one, and the transport error that ends the stream if there is one |
| SearchStreaming.HarvestIsGathered | crates/kenjaku-api/src/handlers/search.rs:244-287 | what completes the answer, in terms of the events alone |
| LineFeeds.SplitIsInverseOfJoin | geto-web/app.js:1256 | the parts of a split text hold no line feed and joined are the text |
| LineFeeds.SplitAppend | geto-web/app.js:1255-1257 | splitting more text needs only the unfinished line of the text before |
| SseClient.StreamReader.Read | geto-web/app.js:1251-1281 | after every read the buffer, the current event, the dispatches and the text are those of all text received so far |
| SseClient.LineForms | geto-web/app.js:1259-1280 | an empty line ends the event, `event:` names it, `data:` with one blank or none dispatches the rest under the name, other lines do nothing; an event without a name is a message |
| SseClient.StreamReader.HandleLine | geto-web/app.js:1260-1279 | what one line does to the current event, the dispatches and the text |
| SseClient.StreamReader.HandleSseEvent | geto-web/app.js:1283-1300 | a delta adds its text; a payload that cannot be read adds nothing |
| SseClient.HandleStreamResponse | geto-web/app.js:1236-1300 | for any cutting into reads, the dispatches and the text are those of the whole text split at once, without its unterminated last line |
| EndToEnd.BrowserSeesFrames | geto-web/app.js:1259-1280 | the browser dispatches exactly the frames sent, in order |
| EndToEnd.BrowserSeesAnswer | crates/kenjaku-api/src/handlers/search.rs:199-287 | for any events and any reads the browser dispatches start, then deltas only, then one last event: the error with its message if a transport error came before the stream ended, otherwise done; that is completed from the emitted text, all sources, the last usage and the lists of one parse of the received text |
| EndToEnd.ReadTextPayloadReadsDeltas | geto-web/app.js:1276-1295 | a JSON reader of the delta payload gets back every delta that the handler wrote |
| EndToEnd.BrowserTextIsEmittedText | crates/kenjaku-api/src/handlers/search.rs:199-243 | for any events and any reads the browser's text is the decoding of the answer text received up to the finish |
| EndToEnd.BrowserShowsMessage | geto-web/app.js:1251-1300 | end to end: the browser shows the streamed form of the message, and the message itself if and only if its JSON text has no `\u` escape |
| EndToEnd.BrowserShowsAnswer | geto-web/app.js:1251-1300 | the same, the hypothesis being the JSON text that Gemini sent |
| Crawler.PushUnseen | crates/kenjaku-ingest/src/crawler.rs:90-94 | the links not yet visited are pushed in order, one level deeper |
| Crawler.UnseenKeepsOrder | crates/kenjaku-ingest/src/crawler.rs:90-94 | the links are looked at one by one and keep their order |
| Crawler.CrawlUrls | crates/kenjaku-ingest/src/crawler.rs:54-107 | a refused entry URL is an error without a request; else the loop ends, and its result and its requests are those of the crawl |
| Crawler.StepLowersWeight | crates/kenjaku-ingest/src/crawler.rs:70-104 | every turn lowers the total size of the bounded link trees on the worklist, also on an infinite link graph |
| Crawler.StepKeepsSound | crates/kenjaku-ingest/src/crawler.rs:70-104 | invariant: whatever waits or was visited is reached by a path of as many links as its depth, at most the limit |
| Crawler.StepKeepsRecorded | crates/kenjaku-ingest/src/crawler.rs:70-104 | invariant: requests and discoveries are without duplicates and are exactly the visited URLs that may be requested, and that are pages |
| Crawler.StepKeepsClosed | crates/kenjaku-ingest/src/crawler.rs:70-104 | invariant: links of pages fetched below the limit are visited or wait |
| Crawler.CrawlIsSound | crates/kenjaku-ingest/src/crawler.rs:54-107 | no URL is requested twice; what is discovered can be fetched and is at most the limit of links away |
| Crawler.CrawlIsClosed | crates/kenjaku-ingest/src/crawler.rs:54-107 | on exit every link of every page fetched below the limit has been visited |
| Crawler.CrawlIsInOrder | crates/kenjaku-ingest/src/crawler.rs:70-104 | the first page discovered is the entry, and every other comes behind one that links to it |
| Crawler.CompleteUnlessCutShort | crates/kenjaku-ingest/src/crawler.rs:53-107 | all pages up to the limit are found if and only if whatever a page cut short links to was found |
| Crawler.CompleteWithoutShortcuts | crates/kenjaku-ingest/src/crawler.rs:53-107 | all pages up to the limit are found on every link graph where no page is reached by a path of exactly that length and also by a shorter one |
| Crawler.UnlimitedCrawlIsExact | crates/kenjaku-ingest/src/crawler.rs:53-107 | if no page was taken at the limit, the discovered pages are exactly the pages that can be reached |
| Crawler.DetourIsCutShort | crates/kenjaku-ingest/src/crawler.rs:71-94 | for every limit from 2 on, a link graph on which a page two links away is not found |
| Crawler.CompleteOnEveryWeb | crates/kenjaku-ingest/src/crawler.rs:53-107 | the promise of the documentation holds on every link graph if and only if the limit is 0 or 1 |
| TagStripper.NextTurn | crates/kenjaku-ingest/src/crawler.rs:254-289 | one turn keeps the text up to the element or behind the look-alike, and advances |
| TagStripper.StripTag | crates/kenjaku-ingest/src/crawler.rs:245-292 | the loop returns the text with every element cut out |
| TagStripper.StripTags | crates/kenjaku-ingest/src/crawler.rs:237-241 | tags are stripped one after the other; the result is a subsequence of the input |
| TagStripper.StripNoiseTags | crates/kenjaku-ingest/src/crawler.rs:231-242 | the eleven noise tags are stripped one after the other; the result is a subsequence of the input |
| TagStripper.StrippedIsSubsequence | crates/kenjaku-ingest/src/crawler.rs:245-292 | for every tag and text, stripping only leaves characters out |
| TagStripper.StripInvertsEmbedding | crates/kenjaku-ingest/src/crawler.rs:244-292 | for every tag name of lower-case letters: of texts with look-alikes, interleaved with any elements that begin `<tag>`, or `<tag` and a blank, tab, line feed or `/` before their attributes, in any letter case, and that hold no closing tag but their own, exactly the texts are left; an element that is never closed takes the rest of the page with it |
| MarkdownCleaner.CleanMarkdown | crates/kenjaku-ingest/src/crawler.rs:178-203 | the loop with its count of blank lines writes the tidied lines; `CleanedHoldsProse` and `CleanedIsClean` say what they hold |
| MarkdownCleaner.ArtifactsAreDebris | crates/kenjaku-ingest/src/crawler.rs:205-226 | a line is an artifact if and only if, trimmed, it is not empty and has only brackets, parentheses, `!`, `-`, `*`, blanks, vertical bars and underscores, or is a link: any number of `<`, then `http://` or `https://`, and no blank |
| MarkdownCleaner.CleanedHoldsProse | crates/kenjaku-ingest/src/crawler.rs:173-203 | the cleaned text holds, in order, every line of the input that is neither blank nor an artifact, without white space at its end, and no other; the first also loses its indentation |
| Tidying.TidyIsTidy | crates/kenjaku-ingest/src/crawler.rs:182-200 | no artifact and no second blank line in a row is left; the content lines are all kept, in order, and two of them are parted by a blank line if and only if they were |
| Tidying.TidyIsLaid | crates/kenjaku-ingest/src/crawler.rs:182-200 | tidy lines are their content lines with exactly one blank line wherever two are parted, and nothing else |
| MarkdownCleaner.CleanedIsClean | crates/kenjaku-ingest/src/crawler.rs:173-203 | the result has no artifact line, no white space at a line's end, and starts and ends with content; it is all content lines of the input with exactly one blank line between two of them where there were any and none elsewhere, but for the indentation of the first |
| MarkdownCleaner.CleaningIsIdempotent | crates/kenjaku-ingest/src/crawler.rs:173-203 | the texts that cleaning leaves unchanged are exactly the clean ones, so cleaning twice is cleaning once |
| Windowing.WindowsAreInOrder | crates/kenjaku-ingest/src/chunker.rs:34-64 | each window starts one step after the one before, and only the last reaches the end |
| Windowing.WindowsReconstruct | crates/kenjaku-ingest/src/chunker.rs:90-114 | the first window and the others without their overlap concatenate to the text |
| Windowing.WindowCount | crates/kenjaku-ingest/src/chunker.rs:90-114 | the number of windows is one more than the rest behind the first window divided by the step, rounded up |
| Chunker.Adjust | crates/kenjaku-ingest/src/chunker.rs:67-87 | if a sentence end lies behind 85 % of the bytes, the text is cut behind the last such end; if none does, or it is the last window, nothing is cut |
| Chunker.CutIsUnique | crates/kenjaku-ingest/src/chunker.rs:67-87 | that fixes the cut |
| Chunker.AdjustToSentenceBoundary | crates/kenjaku-ingest/src/chunker.rs:69-87 | the backwards loop finds that cut; the last window is not cut |
| Chunker.AdjustCutsBehindEnd | crates/kenjaku-ingest/src/chunker.rs:67-87 | a window but the last is cut if and only if one of `.`, `!`, `?` or a line feed stands at an i with 100 (i + 1) > 85 times its bytes, and behind the last such i |
| Chunker.CutIsShort | crates/kenjaku-ingest/src/chunker.rs:74-81 | a cut leaves more than 85 % of the bytes, counted in characters |
| Chunker.CutIsPromisedCut | crates/kenjaku-ingest/src/chunker.rs:67-87 | the cut is the promised one, in the last 15 % of the characters, if and only if a sentence ends behind 85 % of the bytes, or none ends in those 15 %, or the window ends with a sentence end |
| Chunker.NarrowTextIsCutAsPromised | crates/kenjaku-ingest/src/chunker.rs:67-87 | text of one-byte characters is always cut as promised |
| Chunker.PromisedCutIsMissed | crates/kenjaku-ingest/src/chunker.rs:74-81 | a text of ten characters on which the promised cut is missed |
| Chunker.WideTextIsNotCut | crates/kenjaku-ingest/src/chunker.rs:74-81 | text of characters that take two bytes or more is never cut |
| Chunker.ChunkByChars | crates/kenjaku-ingest/src/chunker.rs:90-114 | the loop emits the trimmed windows over characters, without the blank ones |
| Chunker.ChunkText | crates/kenjaku-ingest/src/chunker.rs:16-65 | nothing for a blank text, the text itself when it is short, else the cut and trimmed windows over tokens, or over characters without a tokenizer |
| Chunker.ShortTextIsOneChunk | crates/kenjaku-ingest/src/chunker.rs:16-26 | a blank text has no chunk; a text of at most the size in tokens, or four times as many characters without a tokenizer, is one chunk |
| Chunker.WindowStarts | crates/kenjaku-ingest/src/chunker.rs:34-64 | windows start at multiples of the step |
| Chunker.FallbackIsWindows | crates/kenjaku-ingest/src/chunker.rs:89-114 | without a tokenizer every chunk is a window of four times the size in characters, with four times the overlap, trimmed |
| Chunker.FallbackLosesNothing | crates/kenjaku-ingest/src/chunker.rs:89-114 | without a tokenizer every character but white space is in some chunk, at its place in the text |
| Chunker.CoverageIsNoGap | crates/kenjaku-ingest/src/chunker.rs:34-64 | every character but white space is shown by some window if and only if the gaps that the cuts leave are blank |
| Chunker.ShownIsEmitted | crates/kenjaku-ingest/src/chunker.rs:44-58 | what a window shows is in an emitted chunk, at its place in the text |
| Chunker.FittingCutsLoseNothing | crates/kenjaku-ingest/src/chunker.rs:16-65 | if the most that can be cut from a window is no longer than the tokens it shares with the next one, every character but white space is in some chunk, for any tokenizer |
| Chunker.LongOverlapLosesNothing | crates/kenjaku-ingest/src/chunker.rs:16-65 | the same under a condition on chunk size, overlap and the lengths of the tokens alone |
| Chunker.ChunksStopAtEnds | crates/kenjaku-ingest/src/chunker.rs:34-64 | every chunk is a stretch of the text from one window; unless that is the last, what is kept of it ends behind its last sentence end after 85 % of its bytes and the chunk stops there, up to white space that is trimmed; if there is none the whole window is kept |
| Prompts.Render | crates/kenjaku-core/src/prompts/mod.rs:106-136 | the loop refines parsing the template, filling its slots and printing |
| Prompts.FreeMeansNoPair | crates/kenjaku-core/src/prompts/mod.rs:109-112 | what it means that a text has no pair of braces and may not begin one |
| Prompts.SlotIsReplaced | crates/kenjaku-core/src/prompts/mod.rs:111-124 | a slot, white space around its key or not, is replaced by the value of the first pair with that key, and copied when there is none |
| Prompts.NoSlotStays | crates/kenjaku-core/src/prompts/mod.rs:126-135 | text without an opening pair, and an opening pair that is never closed with all behind it, stay as they are |
| Prompts.RenderNothing | crates/kenjaku-core/src/prompts/mod.rs:90-93 | without values every template is rendered as itself |
| Prompts.ValuesAreNotRescanned | crates/kenjaku-core/src/prompts/mod.rs:80-85 | the output is a skeleton that depends on template and keys alone, with the values put in, whatever they hold |
| Prompts.KeysAreWhatSlotsName | crates/kenjaku-core/src/prompts/mod.rs:113-116 | the keys that some slot can name are those without white space around them and without two closing braces in a row |
| Prompts.StagesCompose | crates/kenjaku-core/src/prompts/mod.rs:90-93 | rendering in two stages is rendering at once if no value of the first that a slot can reach has, or ends like, an opening brace pair |
| Prompts.StagesComposeExactly | crates/kenjaku-core/src/prompts/mod.rs:90-93 | for every list of pairs, stages compose for all templates and later values if and only if its values are such |
| PrefixSearch.EscapeIsEscapeEach | crates/kenjaku-infra/src/postgres/default_suggestions.rs:121-125 | the three replacements in a row escape every character once |
| PrefixSearch.LikeEscaped | crates/kenjaku-infra/src/postgres/default_suggestions.rs:136 | an escaped text in front of a pattern matches itself and nothing else |
| PrefixSearch.PatternMatchesPrefix | crates/kenjaku-infra/src/postgres/default_suggestions.rs:121-136 | the pattern matches a text if and only if the text starts with what the user typed |
| RefreshBatches.Repository.StartBatch | crates/kenjaku-infra/src/postgres/refresh_batches.rs:29-43 | adds one running batch with a new id and changes nothing else |
| RefreshBatches.Repository.SwapActiveAtomic | crates/kenjaku-infra/src/postgres/refresh_batches.rs:69-119 | demotes every other active batch and promotes the given one, if it exists |
| RefreshBatches.Repository.MarkFailed | crates/kenjaku-infra/src/postgres/refresh_batches.rs:123-137 | marks the given batch failed, whatever its status |
| RefreshBatches.Repository.RetainLastN | crates/kenjaku-infra/src/postgres/refresh_batches.rs:142-160 | deletes all finished batches but the n newest and returns how many |
| RefreshBatches.StartedRows | crates/kenjaku-infra/src/postgres/refresh_batches.rs:29-43 | a new batch runs and has no counts; the other rows stay |
| RefreshBatches.SwappedRows | crates/kenjaku-infra/src/postgres/refresh_batches.rs:69-119 | a swap makes its batch active with time and counts and supersedes every other active batch; fingerprints, starts and all else stay |
| RefreshBatches.FailedRows | crates/kenjaku-infra/src/postgres/refresh_batches.rs:123-137 | a failure sets status and time of its batch and nothing else |
| RefreshBatches.RetainedRows | crates/kenjaku-infra/src/postgres/refresh_batches.rs:139-160 | retention keeps every running batch and the wanted number of finished ones, and changes no row it keeps |
| RefreshBatches.LatestSize | crates/kenjaku-infra/src/postgres/refresh_batches.rs:139-160 | exactly n finished batches are kept, or all when there are fewer |
| RefreshBatches.LatestAreNewest | crates/kenjaku-infra/src/postgres/refresh_batches.rs:139-160 | whatever finished batch is kept is newer than whatever is deleted, so it was started no earlier |
| RefreshBatches.StatementsKeepOneActive | crates/kenjaku-infra/src/postgres/refresh_batches.rs:65-160 | every statement, with any arguments, keeps at most one active batch, and a swap establishes it |
| RefreshBatches.WhenActiveRemains | crates/kenjaku-infra/src/postgres/refresh_batches.rs:65-160 | for each statement the exact set of active batches after it |
| RefreshBatches.ExecServes | crates/kenjaku-infra/src/postgres/refresh_batches.rs:29-160 | after any statement one batch is active if and only if one was and the statement keeps it so, or it is a swap that finds its batch |
| RefreshBatches.RunServesThroughout | crates/kenjaku-infra/src/postgres/refresh_batches.rs:65-160 | once a batch is active, every state of a run of statements has exactly one active batch if and only if every statement of the run keeps it so |
| RefreshBatches.DisciplinedRunServes | crates/kenjaku-infra/src/postgres/refresh_batches.rs:65-160 | in a run, however interleaved, where swaps and failures meet running batches and retention keeps at least one while the active batch is the newest finished, every state has one active batch from the first swap on, and none before |
| RefreshBatches.RetainAfterSwap | crates/kenjaku-infra/src/postgres/refresh_batches.rs:139-160 | retention right after the swap of the batch started last is such |
| RefreshBatches.RunCycle | crates/kenjaku-service/src/foundation/worker/suggestion.rs:172-235 | a cycle of the worker, with every way it can end, executes its statements in order |
| RefreshBatches.CycleServesThroughout | crates/kenjaku-service/src/foundation/worker/suggestion.rs:172-235 | once served, readers are served in every state inside a cycle that carries its swap through |
| RefreshBatches.CycleChangesActive | crates/kenjaku-service/src/foundation/worker/suggestion.rs:172-235 | which batch is active after a cycle, for every outcome |
| RefreshBatches.CycleLeavesBatch | crates/kenjaku-service/src/foundation/worker/suggestion.rs:172-235 | the row that a cycle leaves of its own batch, for every outcome; a completed one leaves no more finished batches than it retains |
| RefreshBatches.RunServesReaders | crates/kenjaku-service/src/foundation/worker/suggestion.rs:102-235 | over every run of cycles, each with its own counts and retention, at most one batch is active, and one is if and only if the last cycle that swapped neither failed in retention nor retained nothing |
| RefreshBatches.ReadersSwitchAtSwap | crates/kenjaku-infra/src/postgres/default_suggestions.rs:88-104 | readers see exactly one batch; rows of a batch being built stay hidden, also when it fails, and appear all at once at its swap |
| Clustering.EffectiveKIsLargest | crates/kenjaku-infra/src/clustering/mod.rs:62-63 | the effective k is the largest number up to the wanted one that leaves three vectors per cluster, and at least one |
| Clustering.Kmeans | crates/kenjaku-infra/src/clustering/mod.rs:41-115 | when it fails, and that what it returns is the grouping of the labels by the effective k |
| Clustering.Group | crates/kenjaku-infra/src/clustering/mod.rs:88-104 | one cluster per label with the positions that carry it; labels out of range are ignored |
| Clustering.DropEmpty | crates/kenjaku-infra/src/clustering/mod.rs:106-108 | the clusters with members stay, in order |
| Clustering.Renumber | crates/kenjaku-infra/src/clustering/mod.rs:109-112 | ids count the clusters, nothing else changes |
| Clustering.GroupingPartitions | crates/kenjaku-infra/src/clustering/mod.rs:88-114 | the clusters partition the positions by label, each with its label's centroid and all in order of their labels; ids are dense and no cluster is empty |
| Usage.Round6dpIsNear | crates/kenjaku-core/src/types/usage.rs:29-31 | rounding moves by at most half a microdollar, lands on a whole number of them, and keeps those |
| Usage.RoundOfHalf | crates/kenjaku-core/src/types/usage.rs:29-31 | halves are rounded away from zero |
| Usage.PriceList | crates/kenjaku-infra/src/llm/gemini.rs:1632-1641 | the prices of the three model families, input and output, by what the model's name contains, and which goes first |
| Usage.PriceOfCall | crates/kenjaku-infra/src/llm/gemini.rs:69-78 | the price of a call by rates and tier: half for flex, 1.75 times for priority |
| Usage.EstimateCost | crates/kenjaku-infra/src/llm/gemini.rs:69-78 | an estimate is a whole number of microdollars at most half of one from the price by model and tier |
| Usage.UsageStats.Push | crates/kenjaku-core/src/types/usage.rs:92-98 | counts are the sums of all calls cut off at 32 bits, also the total; the cost is the sum rounded after every call |
| Usage.TotalIsSumUnlessSaturated | crates/kenjaku-core/src/types/usage.rs:59-63 | the reported total is the sum of the reported counts if and only if that sum fits in 32 bits |
| Usage.CostErrorIsSmall | crates/kenjaku-core/src/types/usage.rs:92-98 | after n calls the cost is at most n half microdollars from the exact sum |
| Usage.GridCostIsExact | crates/kenjaku-core/src/types/usage.rs:92-98 | it is the exact sum when every cost is a whole number of microdollars |
| Usage.TotalsIgnoreOrder | crates/kenjaku-core/src/types/usage.rs:106-131 | any order of recording the same calls gives the same totals |
| Embedding.SortSorts | crates/kenjaku-infra/src/embedding/openai.rs:70-74 | the response is put in ascending order of index and stays the same multiset |
| Embedding.SortPutsInPlace | crates/kenjaku-infra/src/embedding/openai.rs:70-74 | a response that carries every position once ends with each vector at its position |
| Embedding.EmbedAligns | crates/kenjaku-infra/src/embedding/openai.rs:31-75 | the vectors come out in the order of the texts, whatever the order of the response |
| Ingest.StoreAll | crates/kenjaku-ingest/src/pipeline.rs:94-134 | what is stored and returned for given chunks: the points of the batches up to the first that cannot be embedded, has a wrong number of vectors or is not accepted by the store, and their number if there is none |
| Ingest.ProcessDocument | crates/kenjaku-ingest/src/pipeline.rs:60-135 | the same for a document, its chunks put into context |
| Ingest.ContextComesFirst | crates/kenjaku-ingest/src/pipeline.rs:78-92 | the chunk is stored as it is; the text embedded for it is the context, an empty line and the chunk, or the chunk alone |
| Ingest.BatchNeedsAllVectors | crates/kenjaku-ingest/src/pipeline.rs:98-123 | a batch becomes points if and only if there are as many vectors as texts, each point with its own |
| Ingest.CallsAreBatches | crates/kenjaku-ingest/src/pipeline.rs:98-134 | a document that is stored takes as many calls as the number of chunks divided by the batch size, rounded up |
| Ingest.StoredPointsAreAligned | crates/kenjaku-ingest/src/pipeline.rs:98-134 | every stored point carries the vector of its own text; the points are the first chunks in order, and all of them if and only if no batch failed |

## Left out

- UTF-8: texts are sequences of characters and positions count characters; `TextDecoder` and byte offsets are not modelled, except for the length in bytes in the sentence cut.
- Letter case: `to_lowercase` folds ASCII letters only, in the tag stripper and in asset types.
- Final JSON parse: `serde_json::from_str` on the buffer is any function; blank text is assumed malformed where the one-shot parse is compared.
- Payloads: `JSON.parse` in the browser is any function, and a concrete reader of the delta payload; start and done payloads are any text without a line feed, and a start payload that cannot be serialized is not modelled.
- Event framing of the web framework: taken to be an `event:` line, a `data:` line and a blank line; keep-alive comments and events for which the client has gone are not modelled.
- Laziness of the stream: `SearchStreaming.GenerateStream` maps all events, the handler takes the items up to the first that ends the stream.
- `complete_stream`, the preamble of a search, and latency: parameters, or not modelled.
- Browser: the page, the other events' effects and the rest of `app.js`.
- Network in the crawler: address check, request and link extraction are one fixed function of the URL; an entry URL that cannot be parsed is not modelled.
- HTML: choosing the main element and converting it to markdown.
- Tokenizer: any function from text to tokens; that tokens concatenate to the text is a hypothesis of the coverage result, and failing decodes are not modelled.
- Sentence cut: 0.85 times a length in `f32` is 85 / 100 on integers.
- Prefix search: locale filter, ordering and limit of the queries, and the lower-case column.
- Batches: two batches of the same start time are ordered by id; a cycle runs under the lock and the clock does not run backwards; conflicts in bulk insertion and database errors other than the listed outcomes are not modelled.
- k-means itself: any labels and centroids of the right number.
- Arithmetic on `f64`: real numbers, so the rounding of binary fractions is not modelled.
- `SharedUsageTracker`: its lock makes records atomic; `Usage.TotalsIgnoreOrder` covers their order.
- Sorting in place: the library's stable sort of the embedding response is a function on values.
- Storage of points: identifiers and timestamps; an upsert that fails is taken to store nothing.
- Parts of longer functions are members of their own here: `ExamineKey`, `DecodeOne`, `OnEvent`, `HandleLine`, `NextTurn`, `PushUnseen`, `PushWindow`, `PushTrimmed`, `ContextualizeChunks`, `StoreOne`, `StoreFirst`, `StoreAll`, `Group`, `DropEmpty`, `Renumber`.
- Login, rate limits, the admin interface, history, tools and configuration: not modelled.
