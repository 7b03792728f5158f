# Verified model of the chat and ingestion logic of a PDF question-answering pipeline

The repository is a small retrieval-augmented chat over a PDF. Most of it is wiring between
libraries: a PDF loader, a text splitter, embeddings, a PostgreSQL/PGVector store and a Gemini
chat model. This project models the parts with logic of their own and proves what they guarantee.

- **Session registry** (`src/chat.py`): a process-wide dictionary from session id to an in-memory
  chat history. A history is created and registered on first lookup. Modelled by the classes
  `Chat.SessionRegistry` and `Chat.ChatHistory`.
- **Fallback filtering and input assembly** (`prepare_inputs` in `src/chat.py`): earlier
  assistant replies that contain the fixed "no information" sentence are dropped from the
  history. A message's role is read from its `type` attribute, or else its `role` attribute, or
  else is `""`. The question, the context and the history go into one record, with `""` for a
  missing question or context. The filter is modelled as a loop (`Chat.FilterFallback`) proved
  equal to the specification function `Chat.Filtered`, and the properties are proved about
  `Chat.Filtered`.
- **Context assembly** (the loop in `main` of `src/chat.py`): an empty search result makes `main`
  print a message and return, which ends the whole chat session. Otherwise each retrieved text
  is cut to its first 300 characters, its newlines become spaces, and the snippets are joined
  with newlines.
- **Chunk cleaning and ids** (`ingest_pdf` in `src/ingest.py`): an empty split list ends the
  script with exit status 0 before anything is stored. Each chunk is re-created with the same text
  and with its metadata stripped of `""` and `None` values. The chunks get ids `doc-0`, `doc-1`, …

Files: `optional.dfy` (an `Option` type), `text.dfy` (the Python string operations the code
uses: substring test, newline replacement, `"\n".join`, decimal formatting; plus splitting at
newlines, counting a character and reading a decimal back, which the code never does and which
serve only to state properties of the joined context and of the ids), `chat.dfy` (module `Chat`),
`ingest.dfy` (module `Ingest`).

Three facts about the code shape the model:
- Roles are free strings resolved by Python's `or` chain.
- Any string, including `""`, is a session id.
- The fallback is matched by substring containment of the sentence without its final full stop.

## Model

| member | source | states |
|---|---|---|
| `Chat.OrElse` | src/chat.py:63 | Python's `x or y` on an optional string: `x` when present and non-empty, otherwise `y` |
| `Chat.EffectiveRole` | src/chat.py:63 | the role is `type` when present and non-empty, else `role` when present and non-empty, else `""`; it is always one of the message's own attributes or `""` |
| `Chat.MessageContent` | src/chat.py:64 | the content is the `content` attribute when present, otherwise `""` |
| `Chat.IsFallbackReply` | src/chat.py:65 | a message is dropped exactly when its effective role is "ai" or "assistant" and the fallback sentence occurs in its content |
| `Text.ContainsSubstringCorrect` | src/chat.py:65 | the substring test behind `FALLBACK in content` holds exactly when the sentence occurs contiguously in the content |
| `Chat.Filtered` | src/chat.py:61-67 | the filtered history is no longer than the raw one and holds no assistant/"ai" message whose content contains the fallback sentence |
| `Chat.KeptIndices` | src/chat.py:61-67 | the kept positions are increasing and in range; a position is kept exactly when its message is not a fallback reply (messages with no role, resolving to `""`, are kept) |
| `Chat.FilteredSelectsKept` | src/chat.py:61-67 | the filtered history is the order-preserving subsequence of the raw history at the kept positions |
| `Chat.FilteredUnchanged` | src/chat.py:61-67 | the filter returns the history unchanged if and only if it holds no fallback reply |
| `Chat.FilteredIdempotent` | src/chat.py:61-67 | filtering an already filtered history changes nothing |
| `Chat.FallbackAnswerDropped` | src/chat.py:57-67 | for any two kept messages followed by a fallback answer, the answer is dropped and the other two are kept in order |
| `Chat.FilterFallback` | src/chat.py:61-67 | the loop builds a new list equal to the filtered history of the input |
| `Optional.Option.GetOr` | src/chat.py:58 | `d.get(key, default)`: the stored value when the key is present, the default when it is missing |
| `Chat.PrepareInputs` | src/chat.py:56-85 | a missing question or context becomes `""`; a missing history becomes the empty list; the returned history is the trimming applied to the filtered history |
| `Chat.ChatHistory.constructor` | src/chat.py:52 | a new history holds no messages |
| `Chat.SessionRegistry.constructor` | src/chat.py:48 | the registry starts empty |
| `Chat.SessionRegistry.GetSessionHistory` | src/chat.py:50-53 | afterwards the id is registered and bound to the result; a registered id returns its existing history and leaves the registry unchanged; a new id gains exactly one fresh, empty history and every other entry is unchanged; distinct sessions keep distinct histories |
| `Chat.SessionRegistry.LookupTwice` | src/chat.py:50-53 | two lookups of one id return the same object, and the second lookup does not change the registry |
| `Text.ReplaceNewlines` | src/chat.py:140 | the result has the input's length, with every newline replaced by a space and every other character kept in place |
| `Chat.Snippet` | src/chat.py:140 | a snippet has at most 300 characters (exactly the text's length when shorter), contains no newline, and matches the text position by position apart from newlines turned into spaces |
| `Chat.Snippets` | src/chat.py:139-141 | there is one snippet per result, in result order |
| `Chat.AssembleContext` | src/chat.py:133-144 | no results yield no context, and the chat session ends; otherwise the context is the newline join of the snippets in result order |
| `Chat.ContextLayout` | src/chat.py:139-144 | for at least one result, the context has exactly one newline fewer than there are results, and splitting it at newlines gives back the snippets in order |
| `Text.JoinLines` | src/chat.py:144 | the join of no pieces is `""`; the join of one or more pieces starts with the first piece and is as long as all pieces plus one separator between each two |
| `Text.SplitJoinLines` | src/chat.py:144 | splitting a newline join of at least one newline-free piece gives the pieces back |
| `Text.SplitLines` | src/chat.py:144 | a newline split has at least one piece and no piece contains a newline |
| `Text.JoinSplitLines` | src/chat.py:144 | joining the pieces of a newline split gives the string back; with `Text.SplitLines` this pins the split to Python's `split("\n")` |
| `Text.JoinLinesNewlineCount` | src/chat.py:144 | the join of n newline-free pieces holds n - 1 newlines |
| `Ingest.IsBlank` | src/ingest.py:43 | a value is blank exactly when it is `None` or the empty string (`v in ("", None)`) |
| `Ingest.CleanMetadata` | src/ingest.py:43 | the cleaned map holds no `""` or `None` value, adds no key, keeps every other entry with the same key and value |
| `Ingest.CleanMetadataIdempotent` | src/ingest.py:43 | cleaning a cleaned map changes nothing |
| `Ingest.EnrichSplits` | src/ingest.py:40-48 | one new document per split, in the same order, with the same page content, the cleaned metadata and no id |
| `Text.NatToDecimal` | src/ingest.py:51 | the decimal form of a number is a non-empty string of digits with no leading zero |
| `Text.DecimalRoundTrip` | src/ingest.py:51 | reading the decimal form back gives the number |
| `Text.NatToDecimalInjective` | src/ingest.py:51 | two numbers have the same decimal form if and only if they are equal |
| `Ingest.DocIds` | src/ingest.py:51 | there is one id per document, and the i-th is `doc-` followed by the decimal form of i |
| `Ingest.DocIdRoundTrip` | src/ingest.py:51 | the i-th id is `doc-` followed by a decimal with no leading zero that reads back as i |
| `Ingest.LeadingZeroRejected` | src/ingest.py:51 | every `doc-` id whose number has two or more digits and a leading zero stands for no position, since `f"doc-{i}"` never writes one |
| `Ingest.DocIdsDistinct` | src/ingest.py:51 | all ids of one ingestion are pairwise distinct |
| `Ingest.IngestPdf` | src/ingest.py:37-51 | the run exits, with status 0, exactly when the split list is empty, and then stores nothing; otherwise the store receives the enriched documents in split order with as many ids, the i-th id standing for position i |

## Left out

- `trim_messages` (src/chat.py:70-78) is a library call whose algorithm is not part of this model. `Chat.PrepareInputs` takes it as a parameter `trim` and applies it to the filtered history. No window, start-on-human or keep-system behaviour is claimed.
- Chat.PrepareInputs: a missing history yields `trim([])`. The model does not claim that this is `[]`, because that depends on the library's trimming.
- Appending turns to a history happens inside the library's history wrapper (src/chat.py:104-110). `Chat.ChatHistory` therefore has no append operation.
- Prompt templates and the Gemini chat model (src/chat.py:17-46, 89-102, 146-151) are library orchestration and model inference.
- `search_prompt` (src/search.py) is template formatting plus a PGVector similarity search. Its results are the input of `Chat.AssembleContext`. The score is carried as a `real` and never used, as in the source.
- PDF loading, the text splitter, embeddings and `store.add_documents` (src/ingest.py:21-34, 53-65) are foreign libraries and database I/O. `Ingest.IngestPdf` starts from the split chunks and returns the documents and ids it would hand to the store.
- Environment configuration, the console loop, exit keywords and `.lower()` (src/chat.py:11-14, 113-128, 153-156) are console and process I/O.
- Concurrency: the source is single-threaded, and nothing concurrent is modelled.
- Python lists are mutable, so the filter could in principle change `raw_history`. Dafny sequences are values, so the guarantee that the input is left untouched holds by construction and is not a separate proof.
- Metadata values are modelled as strings, integers, booleans and `None`. Other value types (floats, lists, nested dictionaries) and the insertion order of metadata keys (Dafny maps are unordered) are not modelled.
- Message content is modelled as an optional string. A content given as a list of parts, which the library also allows, is not modelled.
- The model's `Option` has one `None`, and it means "the key or attribute is missing". A key or attribute that is present but bound to Python's `None` is not modelled, and the source behaves differently for it:
  - payload keys `pergunta` and `contexto` bound to `None`: `payload.get` returns `None`, not `""` (src/chat.py:82-83);
  - a `raw_history` key bound to `None`: iterating over it raises a type error (src/chat.py:58-62);
  - a message whose `content` attribute is `None`: for an "ai"/"assistant" role, `FALLBACK in content` raises a type error (src/chat.py:64-65), while the model reads `""` and keeps the message.
- Characters are Unicode scalar values. Python's slicing by code point agrees with this except for lone surrogates, which are not modelled.
