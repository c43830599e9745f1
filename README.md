# A model of the sugar-datastore Xapian index manager

The OLPC/Sugar datastore keeps a full-text index of journal entries in
`IndexManager` (src/olpc/datastore/xapianindex.py). The manager sits on top
of the secore/Xapian engine. This project models the rules it adds on top
of that engine:

- **Tag expressions.** `_parse_tags` turns an expression such as
  `alpha -beta` into (tag, all, mode) triples. `tag` applies them to the
  `tags` entry of every document in a uid's version chain, then writes
  every document back.
- **Write policy.** `enque` writes CREATE, UPDATE and DELETE to the index
  at once and queues only file-backed updates. `enqueSequence` queues a
  list of records that is applied in one pass.
- **Background worker.** One pass of `indexThread` turns a queue element
  into a batch. It applies the records in order, appends the converted
  text as 2048-character `fulltext` fields, and marks the element done
  only when the whole batch went through.
- **Indexing.** `index` settles a document's uid, version id and engine
  id. It writes the uid and version id back into the properties, builds
  one field per registered property, hands the result to `enque` and
  returns the engine id.
- **Field configuration.** `addField` chooses the engine field actions.
  `versions` and `inplace` are capability tests on the bound store.
- **Queries.**
  - `parse_query` is the hand-written scanner of the web-style query
    language.
  - `search` translates a dictionary query: ranges, OR lists and field
    matches.
  - `get_by_uid_prop` filters a version chain by uid and vid.
  - `get_uniquevaluesfor` strips a field's prefix from its terms.

The engine is a map from engine document id to a `Document` (id, field
list, data map). The queue is a sequence of elements. `IndexManager` is a
class whose methods update those fields in place. Pure rules are
functions, and the proofs are lemmas about them.

- **Python dictionaries.** Loops over a dictionary visit the keys in an
  arbitrary order. The model writes them as loops that pick any remaining
  key.
- **Query parser.** The engine's own query parser is abstract. A term
  handed to it stays in the query tree as `Parsed(text, flags)`.

Files:

- `wrappers.dfy`: Option, Result, Outcome.
- `text.dfy`: whitespace, ASCII lower-casing, `str.split()`.
- `documents.dfy`: documents, work items, queue elements, the backing store.
- `tags.dfy`: tag parsing and tag edits.
- `pipeline.dfy`: the enque policy, full-text chunks, the worker's batch semantics.
- `schema.dfy`: field actions, identity assignment, unique values.
- `queries.dfy`: `parse_query`, structured search, uid look-up.
- `index_manager.dfy`: the `IndexManager` class.

## Model

| member | source | states |
|---|---|---|
| Text.Words | src/olpc/datastore/xapianindex.py:344 | `split()` yields only non-empty words free of whitespace |
| Text.RunStartsAreAll | src/olpc/datastore/xapianindex.py:344 | the run starts listed from a position are exactly the positions holding a non-whitespace character at the start or after whitespace, in increasing order |
| Text.WordsAreRuns | src/olpc/datastore/xapianindex.py:344 | the words of `split()` are exactly the maximal non-whitespace runs, in order: word k runs from the k-th run start to the whitespace or end that follows it |
| Text.RunEnd | src/olpc/datastore/xapianindex.py:620-628 | the end of the `\S+` match at a position lies in the string and is followed by whitespace or the end of the string |
| Text.WordsOfJoin | src/olpc/datastore/xapianindex.py:344 | splitting words joined by single spaces gives back exactly those words |
| Text.JoinIsLower | src/olpc/datastore/xapianindex.py:344 | joining lower-case words keeps the text lower-case, so `lower()` leaves it unchanged |
| Tags.ParseToken | src/olpc/datastore/xapianindex.py:346-356 | a token's triple always has `all` true and is REMOVE exactly when the token begins with `-` |
| Tags.ParseTags | src/olpc/datastore/xapianindex.py:339-358 | one triple per whitespace-separated token of the lower-cased expression, each with `all` true |
| Tags.ParseTagsTokens | src/olpc/datastore/xapianindex.py:339-358 | triple i comes from token i. Its mode is REMOVE iff the token starts with `-`. When the rest of the token after that `-` ends in `:0`, the token is the `-`, the tag and that `:0`; otherwise it is the `-` and the tag. The tag is lower-case and contains no whitespace |
| Tags.ParseTokenShape | src/olpc/datastore/xapianindex.py:349-354 | a token is its triple's mode prefix (`-` for REMOVE) followed by the tag, and then by `:0` exactly when the rest after the prefix ends in `:0` (that one `:0` is stripped) |
| Tags.ParseRevisionSuffix | src/olpc/datastore/xapianindex.py:349-354 | `-photo:0` removes `photo`, and `a:0:0` loses only its last `:0` |
| Tags.ParseTokenChars | src/olpc/datastore/xapianindex.py:349-354 | the tag is a slice of a whitespace-free token, so it has no whitespace, and it is lower-case when the token is |
| Tags.LowerWordsAreLower | src/olpc/datastore/xapianindex.py:344 | every token of `tags.lower().split()` is lower-case |
| Tags.ParseRender | src/olpc/datastore/xapianindex.py:339-358 | parsing the rendering of expressible triples returns exactly those triples (round trip) |
| Tags.ParseDash | src/olpc/datastore/xapianindex.py:344-356 | the expression `-` parses to the single triple ("", all, REMOVE) |
| Tags.ParseAlphaBeta | src/olpc/datastore/xapianindex.py:339-358 | `alpha beta` parses to two ADD triples, in order |
| Tags.ParseMinusAlpha | src/olpc/datastore/xapianindex.py:339-358 | `-alpha` parses to one REMOVE triple for `alpha` |
| Tags.Dedup | src/olpc/datastore/xapianindex.py:395 | `set(...)` of the stored list: duplicate-free, with the same elements |
| Tags.Without | src/olpc/datastore/xapianindex.py:396-397 | `existing.remove(tag)`: duplicate-free, with exactly the elements other than the tag |
| Tags.EditData | src/olpc/datastore/xapianindex.py:380-403 | `-` deletes the tags entry. Otherwise the stored set loses the tag when present in REMOVE mode and gains it in every other case, and is stored duplicate-free. No other entry changes |
| Tags.RemoveOfAbsentTagAdds | src/olpc/datastore/xapianindex.py:396-399 | REMOVE of a tag the document lacks adds that tag |
| Tags.ApplyEditsKeepsOtherEntries | src/olpc/datastore/xapianindex.py:380-403 | a sequence of triples changes no data entry other than `tags` |
| Tags.ClearLast | src/olpc/datastore/xapianindex.py:380-384 | whatever came before, a trailing `-` leaves no tags entry |
| Tags.AddTwoThenRemoveOne | src/olpc/datastore/xapianindex.py:372-403 | on an untagged document, adding a and b and then removing a leaves exactly {b} |
| Tags.AlphaBetaScenario | src/olpc/datastore/xapianindex.py:360-403 | tagging `alpha beta` and then `-alpha` leaves exactly {beta} |
| Tags.RetagStep | src/olpc/datastore/xapianindex.py:372-403 | applying one more triple edits the data that the earlier triples produced |
| Tags.Retagged | src/olpc/datastore/xapianindex.py:372-409 | chain documents get the edited data, every other document is unchanged, and the key set is unchanged |
| Tags.RetaggedChangesOnlyTags | src/olpc/datastore/xapianindex.py:380-409 | retagging keeps each document's identity, field list and every data entry other than `tags` |
| Tags.RetaggedDashClearsChain | src/olpc/datastore/xapianindex.py:380-384 | the expression `-` removes the tags entry from every version in the chain |
| Documents.Get | src/olpc/datastore/xapianindex.py:485-488 | look-up by id succeeds exactly when the id is present; otherwise it is the KeyError carrying the id |
| Schema.FieldActions | src/olpc/datastore/xapianindex.py:285-300 | STORE_CONTENT iff stored, and then first. The indexing action comes next: INDEX_EXACT for an exact field, otherwise INDEX_FREETEXT with the `language` option (the index's default when absent) and the other options. SORTABLE with the type iff sortable, and then right after the indexing action. COLLAPSE iff collapsed, and then last. The count adds up |
| Schema.FreetextSettings | src/olpc/datastore/xapianindex.py:285-295 | a free-text action occurs only for a field that is not exact. It carries the `language` option (the index's default when absent) and the options other than `language` |
| Schema.OneIndexingAction | src/olpc/datastore/xapianindex.py:289-295 | every field is indexed in exactly one way, exact or free text |
| Schema.AssignIdentity | src/olpc/datastore/xapianindex.py:417-446 | a missing or empty uid is created and makes CREATE, otherwise UPDATE. A versioned store gives the document a fresh id and keeps the supplied vid. Otherwise the id is the uid and vid is `1`. vid is never empty |
| Schema.VersionedCreateSeparatesIds | src/olpc/datastore/xapianindex.py:426-444 | with distinct fresh ids, a versioned CREATE gives the document an id different from its uid |
| Schema.StampedProps | src/olpc/datastore/xapianindex.py:451-452 | uid and vid are written back into the properties, and every other property is kept |
| Schema.MimeType | src/olpc/datastore/xapianindex.py:461-462 | the `mime_type` property when given, else `text/plain` |
| Schema.FileInfo | src/olpc/datastore/xapianindex.py:456-465 | file information exists iff a file name is given, and pairs the absolute path with the mime type |
| Schema.BuildFields | src/olpc/datastore/xapianindex.py:470-478 | one field per registered property, with its engine value. Nothing for any other key. No key twice |
| Schema.UnregisteredKeysSkipped | src/olpc/datastore/xapianindex.py:473-476 | a property whose key is not registered contributes no field |
| Schema.TermValue | src/olpc/datastore/xapianindex.py:585-590 | a term yields a value iff it is longer than the prefix. If the character after the prefix is `:`, the term is the prefix, `:` and the value (the colon is dropped). Otherwise it is the prefix and the value, which is non-empty and does not start with `:` |
| Schema.UniqueValues | src/olpc/datastore/xapianindex.py:581-590 | every value comes from a term `prefix:value`, or from `prefix value` where the value does not start with `:`. With UniqueValueOfTerm this is the exact set |
| Schema.UniqueValueOfTerm | src/olpc/datastore/xapianindex.py:585-590 | conversely, the value of every term `prefix:value` is in the set, and so is that of every term `prefix value` whose value is non-empty and does not start with `:` |
| Schema.UniqueValuesExact | src/olpc/datastore/xapianindex.py:581-590 | a string is a unique value iff the terms hold `prefix:value`, or hold `prefix value` and the value does not start with `:` |
| Pipeline.Chunks | src/olpc/datastore/xapianindex.py:245-248 | every chunk is non-empty and at most 2048 long. All but the last are exactly 2048. No chunks iff the text is empty |
| Pipeline.ChunksRoundTrip | src/olpc/datastore/xapianindex.py:245-248 | the chunks concatenate to the converter's output |
| Pipeline.ChunkCount | src/olpc/datastore/xapianindex.py:245-248 | the number of chunks is the length divided by 2048, rounded up |
| Pipeline.ReadFulltext | src/olpc/datastore/xapianindex.py:245-248 | the read loop appends exactly one `fulltext` field per chunk, in order |
| Pipeline.FulltextRoundTrip | src/olpc/datastore/xapianindex.py:245-248 | every appended field is `fulltext`, and their values concatenate to the converted text |
| Pipeline.ApplyItem | src/olpc/datastore/xapianindex.py:215-261 | DELETE removes the uid. UPDATE raises iff it has no file information, or conversion succeeds with no document. A failed conversion changes nothing. Otherwise the document is replaced with the chunks appended, and the file is removed iff the store is versioned and not in place. Any other operation changes nothing |
| Pipeline.RunBatchCompleted | src/olpc/datastore/xapianindex.py:213-264 | a batch completes iff no item raises on the store the earlier items left |
| Pipeline.RunBatchAppend | src/olpc/datastore/xapianindex.py:204-219 | one batch of a then b is the batch a followed, if it completed, by the batch b |
| Pipeline.RunBatchFrame | src/olpc/datastore/xapianindex.py:215-261 | a document that no item of the batch names is unchanged |
| Pipeline.UnlinkOnlyWhenVersionedCopy | src/olpc/datastore/xapianindex.py:252-255 | an unversioned or in-place store never has files removed |
| Pipeline.Normalise | src/olpc/datastore/xapianindex.py:203-211 | a single record is a one-item batch, and a list is its own items. An empty list has no batch (the worker dies) |
| Pipeline.EnquePolicy | src/olpc/datastore/xapianindex.py:151-181 | CREATE/UPDATE put the document at once and fail without one. DELETE removes the uid. A record is queued iff not DELETE and file information is given, and then as an UPDATE |
| Pipeline.QueuedItemApplies | src/olpc/datastore/xapianindex.py:225-227 | a record queued by `enque` always has file information and a document, so the worker never raises on it |
| Pipeline.EnqueThenIndex | src/olpc/datastore/xapianindex.py:157-250 | a file-backed write followed by the worker's pass stores the document with the converted text's chunks appended |
| Queries.FindChar | src/olpc/datastore/xapianindex.py:630-639 | a position found lies in range and holds the character |
| Queries.FindCharFirst | src/olpc/datastore/xapianindex.py:630-639 | no earlier position in range holds the character. When none is found, no position in range does |
| Queries.FindCharAt | src/olpc/datastore/xapianindex.py:630-639 | conversely, the first position holding the character is the one found |
| Queries.Emit | src/olpc/datastore/xapianindex.py:648-655 | a non-empty field name gives a field match on the word and leaves the flags unchanged. Otherwise the word is a parsed term carrying the flags, and WILDCARD is added iff the word ends in `*`. No flag other than WILDCARD changes |
| Queries.StepWith | src/olpc/datastore/xapianindex.py:626-655 | a pass moves forward and never clears flags. The clause is a field match iff the token has a `:` and the part before it is a registered, non-empty field name, which is the field. With a closing quote, PHRASE is set, the next pass starts two characters after the quote, and the word is the token from its start (field prefix included) through the quote. Without one, the next pass starts two characters after the token, and the word is the part after the first `:`, or the whole token. LOVEHATE is unchanged. WILDCARD is added iff a parsed term's word ends in `*` |
| Queries.PhraseQuote | src/olpc/datastore/xapianindex.py:638-640 | there is no closing quote unless the word (after the first `:`, if any) opens with `"`. A closing quote is the first `"` from two characters after the token on. If none is found for a word opening with `"`, there is no `"` in that range |
| Queries.Step | src/olpc/datastore/xapianindex.py:624-655 | one pass over a token starts the next pass strictly later |
| Queries.ParseQuery | src/olpc/datastore/xapianindex.py:603-657 | the loop returns the AND of exactly the clauses the scan collects |
| Queries.ScanClauseKinds | src/olpc/datastore/xapianindex.py:630-655 | every clause is a field match on a registered, non-empty field, or a parsed term |
| Queries.ScanFlagsGrow | src/olpc/datastore/xapianindex.py:615-652 | flags are never cleared. Each parsed term carries the initial flags, and later terms carry those of earlier ones |
| Queries.StepOfPlainWord | src/olpc/datastore/xapianindex.py:624-655 | one pass over a plain word (no `:`, no opening `"`, no trailing `*`) reads it as a parsed term with the flags unchanged, and the next pass starts two characters after it |
| Queries.ScanOverWord | src/olpc/datastore/xapianindex.py:624-628 | a plain word becomes one parsed term, and scanning resumes one character after it |
| Queries.ScanPlainWords | src/olpc/datastore/xapianindex.py:623-656 | plain words separated by single spaces give one parsed term per word, in order |
| Queries.ScanStopsAtDoubleSpace | src/olpc/datastore/xapianindex.py:623-628 | after two spaces nothing more is read |
| Queries.ScanPrefixedWord | src/olpc/datastore/xapianindex.py:630-636 | `name:` is always cut off. The result is a field match iff the name is registered and non-empty, and otherwise a parsed term of the bare word |
| Queries.TitleFirstStep | src/olpc/datastore/xapianindex.py:638-646 | the phrase token `title:"hello world"` is consumed through its closing quote and sets PHRASE |
| Queries.TitlePhraseExample | src/olpc/datastore/xapianindex.py:638-646 | `title:"hello world" -spam` gives a field match valued with the whole token (prefix and quotes included), then `-spam` inheriting PHRASE |
| Queries.EntryClause | src/olpc/datastore/xapianindex.py:536-554 | a nested dictionary is a range, from `start` (default 0) to `end` (default sys.maxint). A list is an OR of field matches, one per item in order. A scalar is a field match |
| Queries.OrderLength | src/olpc/datastore/xapianindex.py:536 | an iteration order has one position per dictionary key |
| Queries.CollectEntries | src/olpc/datastore/xapianindex.py:536-554 | the loop visits each remaining entry once, in some order of the keys, and the clauses are one per entry in that order |
| Queries.TranslateQuery | src/olpc/datastore/xapianindex.py:522-558 | a falsy argument matches everything. A string is scanned. A dictionary loses its `query` entry, which is scanned first (a non-string is an error). If nothing is left it matches everything; otherwise it is the AND of the parsed query and one clause per remaining entry in iteration order |
| Queries.StructuredExample | src/olpc/datastore/xapianindex.py:536-556 | a list entry and a range entry give their OR and range clauses, whatever the iteration order |
| Queries.SortKey | src/olpc/datastore/xapianindex.py:560-562 | a non-empty list of sort keys is cut to its first key. Anything else is kept |
| Queries.ResolveRev | src/olpc/datastore/xapianindex.py:495-499 | no revision means no vid filter. `tip` asks the store, and fails when none is bound. Any other revision is used as given |
| Queries.UidQuery | src/olpc/datastore/xapianindex.py:490-502 | results 0 to 1000 sorted by `-vid`, with a query that matches exactly the documents of the uid's chain (and version) |
| IndexManagement.IndexManager.constructor | src/olpc/datastore/xapianindex.py:67-80 | an empty index, queue and field set, with the given default language and no store |
| IndexManagement.IndexManager.BindTo | src/olpc/datastore/xapianindex.py:106-108 | the store is bound, and nothing else changes |
| IndexManagement.IndexManager.Versions | src/olpc/datastore/xapianindex.py:327-331 | true iff a store is bound and has the `versions` capability |
| IndexManagement.IndexManager.Inplace | src/olpc/datastore/xapianindex.py:333-337 | true iff a store is bound and has the `inplace` capability |
| IndexManagement.IndexManager.AddField | src/olpc/datastore/xapianindex.py:282-303 | the field's actions are registered in order and its name is recorded. Nothing else changes |
| IndexManagement.IndexManager.Enque | src/olpc/datastore/xapianindex.py:151-181 | the index and queue become what `EnquePolicy` says, and each queued element adds one to the unfinished count |
| IndexManagement.IndexManager.EnqueSequence | src/olpc/datastore/xapianindex.py:145-149 | the records are queued as one element |
| IndexManagement.IndexManager.Delete | src/olpc/datastore/xapianindex.py:506-510 | the uid's document goes at once, and nothing is queued |
| IndexManagement.IndexManager.ApplyWorkItem | src/olpc/datastore/xapianindex.py:215-261 | the index and removed files become what `ApplyItem` says, or stay as they were when the item raises |
| IndexManagement.IndexManager.WorkerStep | src/olpc/datastore/xapianindex.py:196-264 | the head element is taken and its batch is run. It is marked done only when the batch completed. An empty list ends the worker. Nothing happens with an empty queue |
| IndexManagement.IndexManager.Index | src/olpc/datastore/xapianindex.py:412-483 | returns the settled id and the caller's properties as written back, with uid and vid set. The document under the id holds exactly the registered properties' fields, and nothing else in the index changes. The file is queued iff a file name is given |
| IndexManagement.IndexManager.Matching | src/olpc/datastore/xapianindex.py:500 | the ids of exactly the documents the exact query matches |
| IndexManagement.IndexManager.GetByUidProp | src/olpc/datastore/xapianindex.py:490-502 | exactly the documents of the uid's chain (or of the named version), and an error for `tip` without a store |
| IndexManagement.IndexManager.Search | src/olpc/datastore/xapianindex.py:514-564 | the request carries the translated query, the index range and the sort key |
| IndexManagement.IndexManager.Tag | src/olpc/datastore/xapianindex.py:360-409 | with `tip` and no store it fails with that error. Otherwise it fails, changing nothing, iff the chain is empty, and the only failure is the unknown uid; on a non-empty chain it passes and every chain document is replaced by its retagged copy |
| IndexManagement.IndexManager.EditCopies | src/olpc/datastore/xapianindex.py:372-403 | each chain document's copy has every triple applied, in order |
| IndexManagement.IndexManager.ReplaceAll | src/olpc/datastore/xapianindex.py:407-409 | every edited copy replaces the document under its identity, and nothing else changes |

## Left out

- Threading is left out: the worker thread, its start and stop, queue blocking and polling, `Queue.join`, `complete_indexing` and the write lock. One pass of the worker is modelled as `WorkerStep`.
- The engine itself is abstract. This covers `flush`/`reopen` and the split into write and read connections (the model has one index), the engine's search (replaced by exact matching over the map), result estimates, ContentMappingIter and `allterms`.
- The engine's own query parser is abstract. `_query_parse` is not modelled, nor its retry at line 673, which refers to the undefined name `string`.
- The engine's `add` and `replace` are both modelled as insert-or-overwrite under the document id.
- The result limit of 1000 and the `-vid` ordering in `get_by_uid_prop` are recorded in the request but not applied to the result set.
- `str(sortby)` in `_search` is left out.
- File-system calls are parameters or left out. `os.path.abspath` is a parameter. The `os.path.exists` warning is left out. `os.unlink` is recorded as the removed file name. The `isinstance(filename, file)` unwrapping is left out.
- The converter is a parameter that returns the converted text or nothing.
- `create_uid` is a parameter that returns the i-th fresh id.
- `_mapProperties` and the data model are not modelled. Properties are a map from key to value, and `for_xapian` is a parameter. Dynamic field registration through the data model, and `model.Content` wrapping, are not part of this model.
- `parse_timestamp_or_float` and the `propertyByKind` conversion are left out. Range bounds and unique values stay as given.
- IndexManagement.IndexManager.Index: an index document starts with an empty data map, because the engine's stored data is not modelled.
- Tags.EditData: the stored tags are read from the `tags` entry of the document's data. `get_property('tags')` of model.Content is not part of this model.
- Tags.Dedup: Python sets have an arbitrary order. The model keeps first occurrences in order, and contracts state only the element set and that there are no duplicates.
- Lower-casing covers ASCII letters only.
- Whitespace is the six ASCII whitespace characters, for both `split()` and `\S`.
- `sys.maxint` is taken as the 32-bit value 2147483647.
- `index` writes uid and vid into the caller's dictionary. The model returns that dictionary as written back from `Index`, since on a versioned store it is the only way the caller learns the uid; it is not shared with the caller.
- `search` pops `query` from the caller's dictionary, and `start` and `end` from the nested range dictionaries. The translation reads those entries, but the emptied dictionaries are not handed back to the caller.
- Default arguments are explicit parameters: `start_index=0`, `end_index=4096` and `order_by=None` of `search`, `store=True`, `exact=False`, `sortable=False`, `type='string'` and `collapse=False` of `addField`.
- Logging is left out: the `logger` calls (`info`, `debug`, `warn`, `warning`, `exception`) and `warnings.warn`.
- IndexManagement.IndexManager.WorkerStep: `versions` and `inplace` are parameters, the values the worker read when it started.
