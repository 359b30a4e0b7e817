# Kardia companion core, modelled in Dafny

Kardia is a desktop and SMS "AI companion" application. This project models
the parts of it that hold plain sequential logic. Each part is written as
immutable data and pure functions, with proofs of what it promises:

- **Long-term memory store** (`memory_store.dfy`, `memory_queries.dfy`,
  `memory_import.dfy`). This covers:
  - the list of `Memory` records and the key index;
  - the keyed upsert of `add_memory`, deletion and the importance clamp;
  - the touch-on-read queries and case-insensitive search;
  - shared and companion-specific partitioning;
  - the context selection and its summary text;
  - statistics;
  - the JSON export envelope and the decoded body of `import_memories`.

  Records are held through explicit object handles (`Ref`), because the
  Python index holds object references. Ids are not unique in general, and
  an index entry names one object among several that may share a key.
- **Memory extraction** (`memory_extractor.py`, modelled in
  `memory_extractor.dfy`). This covers:
  - locating the `[...]` span of a model reply;
  - per-item sanitisation;
  - the user-message window of deep extraction;
  - the quick-fact rules, including the name guard and the preference keys;
  - the two message-count cadences;
  - the search-then-important merge of `get_relevant_memories`.
- **SMS companion mapping and commands** (`sms_companions.dfy`). This covers:
  - phone normalisation to digits;
  - the mapping keyed by the normalised number;
  - command recognition and dispatch;
  - the companion-selection rule of `switch`;
  - the `list`, `who` and `reset` replies.
- **Personality questionnaire** (`questionnaire.dfy`). This covers:
  - the fifty-question table in eight categories;
  - the line-based `Q<n>:` answer parser;
  - the profile formatter with its placeholders;
  - the defaulting of the prompt generator.
- **Companion and conversation models** (`companion_models.dfy`). This covers:
  - the display-field fallbacks;
  - message append and the last-N context window;
  - the preset and custom dictionaries, with preset-first lookup;
  - `create_companion`;
  - the gender and trait filter.
- **Proactive messaging rules** (`proactive.dfy`). This covers:
  - `HH:MM` parsing and the time window, including overnight windows;
  - the deterministic guards of `should_send_message`;
  - the per-companion daily counter;
  - the tone to template-category map;
  - one scheduler pass;
  - the settings updates.

The helper modules are:

- `optional.dfy` holds the `Option` type.
- `text.dfy` models the Python string built-ins used here:
  - `lower`, `title`, `strip`, `split`, `split(sep, 1)`;
  - `startswith` and `in`;
  - `str(n)` and `int(s)`.
- `seqs.dfy` holds comprehensions, maps, Python slices and the stable
  descending sort.

These things become parameters:

- the clock, as `now` (a natural number per operation, or a day plus
  microseconds for the scheduler);
- fresh ids, as `mint`, applied to a handle counter;
- the regex engine, as captured groups or a `search` function;
- `json.loads`, as a decoder function or already-decoded items;
- the language model's reply;
- the random draws;
- the webhook outcome.

## Model

| member | source | states |
|---|---|---|
| MemoryStore.ParseType | memory.py:10-20 | A memory type is recognised exactly when the string is one of the nine enum values, and the recognised member has that value. |
| MemoryStore.Clamp | memory.py:209 | The clamped importance lies in 1..5: a value already in range is kept, anything below becomes 1, anything above becomes 5. |
| MemoryStore.TouchRefs | memory.py:48-51 | Touching a set of objects refreshes each one's access time and raises its access count by one; every other record, the index and the handles are unchanged. |
| MemoryStore.AddMemory | memory.py:97-138 | With a non-empty key that is already indexed, the indexed record gets the new content and value and the larger importance, and it is returned. Nothing else changes. Otherwise exactly one fresh record is appended, indexed under its key if it has one, and returned; its importance is stored unclamped. The store stays valid. |
| MemoryStore.AddMemoryCanonical | memory.py:123-138 | On a store with at most one record per key, `add_memory` keeps at most one record per key, and the index points at it. |
| MemoryStore.UpsertTwice | memory.py:123-131 | Two calls with the same new key leave one record with that key. The store is one record longer, the second call returns the same object, and the record holds the second content and value and the larger importance. |
| MemoryStore.GetMemoryByKey | memory.py:140-146 | A record comes back exactly when the key is indexed. It is the indexed record, touched, and only that record is touched. An unindexed key changes nothing. |
| MemoryStore.DeleteMemory | memory.py:194-203 | Returns true exactly when some record has the id. It removes the first such record and its key's index entry, and leaves the other records in order. When no record has the id, nothing changes. |
| MemoryStore.DeleteCanonical | memory.py:194-203 | Deleting keeps at most one record per key, and keeps the index pointing at those records. |
| MemoryStore.DeleteUndoesAdd | memory.py:194-203 | Adding a record under a fresh id and a new key (or none), then deleting that id, restores the records and the index exactly. |
| MemoryStore.UpdateMemoryImportance | memory.py:205-212 | Returns true exactly when some record has the id. The first such record's importance becomes the value clamped into 1..5, and nothing else changes. When no record has the id, nothing changes. |
| MemoryStore.RebuildIndexLastWins | memory.py:90-95 | The rebuilt index holds exactly the keys in use, and each key points at the last record holding it. |
| MemoryStore.RebuildIndexCanonical | memory.py:90-95 | On a store with one record per key, rebuilding the index gives back the index the store already has. |
| MemoryQueries.GetMemoriesByType | memory.py:148-154 | Returns the records of that type in store order, each touched once. Every record of the type is listed, no object twice, and only those records are touched. |
| MemoryQueries.GetImportantMemories | memory.py:156-162 | Returns a permutation of the records with importance at or above the threshold, each touched once, sorted by importance with the largest first. Only those records are touched. |
| MemoryQueries.GetRecentMemories | memory.py:164-174 | Returns as many records as the Python slice `[:limit]` keeps, taken in order of access time before the call, latest first. Each returned record is touched once, and every record left out was accessed no later than every record returned. |
| MemoryQueries.GetMemoriesForContext | memory.py:214-222 | Returns at most `max_count` records with no object twice, the important ones (3 or more) first. When the limit allows, every important record is included. The result is non-empty whenever the store and the limit are. |
| MemoryQueries.GroupByTypePartitions | memory.py:233-238 | The one-pass grouping has one non-empty group per type present, and no type twice. Each group holds exactly the records of its type, in store order. |
| MemoryQueries.GroupByTypeFirstSeen | memory.py:233-238 | The groups come in the order in which their types first appear among the records, which is the insertion order of the `by_type` dictionary. |
| MemoryQueries.SummarizeLayout | memory.py:224-264 | The whole summary, for any list of records. Take the record types with no repeats, in order of first appearance. For each, a heading (fixed label or title-cased name) and the item lines of the first five records of that type, one per line: `- key: value` when both are set, `- content` otherwise. The sections are joined by blank lines. The no-information sentence comes back for no records. |
| MemoryQueries.SummarizeNoInformation | memory.py:228-264 | The "No information about the user yet." sentence comes back exactly when no record is selected. |
| MemoryQueries.SummaryOfOneFact | memory.py:241-262 | A single keyed `personal_info` record `name: Alice` is summarised as `Personal Information:` followed by the line `- name: Alice`. |
| MemoryQueries.GetContextSummary | memory.py:224-264 | The summary is the no-information sentence exactly when the store is empty. |
| MemoryQueries.CountByCompanionCounts | memory.py:278-284 | The per-companion counters name exactly the companion ids present (an empty id counts as "unknown"), each with its number of records. |
| MemoryQueries.GetStats | memory.py:266-276 | Reports the number of records and the count for every memory type, zero included. It reports the number of records with importance 3 or more, and touches exactly those records. It also reports the per-companion counts. |
| MemoryQueries.GetAllMemories | memory.py:176-182 | Returns a permutation of all records, sorted by access time with the latest first. |
| MemoryQueries.SearchMemories | memory.py:184-192 | A record is found exactly when its content, key or value contains the query, ignoring case. Results are records of the store, each once, in store order. |
| MemoryQueries.SearchIgnoresQueryCase | memory.py:186 | The search result does not depend on the case of the query. |
| MemoryQueries.SearchFinds | memory.py:184-192 | The empty query finds every record, and a record's own content or key finds it. |
| MemoryQueries.GetSharedMemories | memory.py:495-497 | Exactly the shared records. When the store lists each object once, so does the result, and it keeps store order. |
| MemoryQueries.GetCompanionSpecificMemories | memory.py:499-504 | Exactly the companion's own unshared records. When the store lists each object once, so does the result, and it keeps store order. |
| MemoryQueries.GetMemoriesForCompanion | memory.py:506-518 | A store record is listed exactly when it is shared or belongs to the companion, and every listed record is such a store record. All shared records come before all specific ones. When the store lists each object once, no record is listed twice, and within each part the records keep store order. |
| MemoryQueries.CompanionsShareOnlyShared | memory.py:506-518 | A record seen by two different companions is a shared record. |
| MemoryImport.FromItem | memory.py:437-443 | A readable element keeps its id, type, content, key and value. A missing `is_shared` reads as shared, while `false` or `null` reads as companion-specific. A given importance is kept, and a missing one reads as 1. |
| MemoryImport.MissingSharedFlagMeansShared | memory.py:439-441 | An element without `is_shared` is imported as shared, and one with `is_shared: false` or `is_shared: null` is companion-specific. |
| MemoryImport.ImportOne | memory.py:437-472 | A malformed element is skipped and changes nothing. With merging, a record whose non-empty key is indexed updates that record's value, content and importance (the larger one) and counts as updated. With a `null` importance, its value and content are overwritten, its importance is kept, and the element counts as skipped. Every other record is appended and indexed. |
| MemoryImport.NullImportanceMergeSkipped | memory.py:445-452 | Merging a `null`-importance record under an indexed key reports one skipped element and nothing added or updated. The indexed record's value and content are overwritten and its importance is kept. |
| MemoryImport.ImportMemories | memory.py:412-482 | Anything but an envelope or a list fails with "Invalid import file format" and leaves the store alone. So does an envelope whose record list cannot be iterated (`null`, a number, a boolean), with Python's "… object is not iterable" message. Otherwise added + updated + skipped is the number of elements, skipped is at least the number of unreadable ones. It is exactly that number without merging, or when no element has a `null` importance. The total is added + updated. Without merging, the store holds exactly the added records and nothing counts as updated; with merging, the store grows by the added count. A list reports version and date "unknown". An envelope reports its own values, "unknown" for an absent key, and `None` for a `null` one. |
| MemoryImport.Reported | memory.py:415-416 | `data.get(field, "unknown")`: "unknown" only when the key is absent, `None` for a JSON `null`, the value otherwise. |
| MemoryImport.ImportMemoriesAsWritten | memory.py:412-493 | As written, an envelope whose record list cannot be iterated still fails with the "not iterable" message. Without merging it first empties the store; with merging the store is kept. Every other file is imported as by ImportMemories. |
| MemoryImport.NullMemoriesEmptiesStore | memory.py:428-437 | Replacing from an envelope whose `memories` is `null` fails. As written it leaves a store that held records empty, while ImportMemories leaves the store as it was. |
| MemoryImport.ReplaceAppendsAll | memory.py:428-465 | Without merging, every accepted record is appended in file order. The index is the one `_rebuild_index` would build, so the last record with a key wins. |
| MemoryImport.MergeKeepsCanonical | memory.py:445-465 | Merging into a store with one record per key keeps one record per key. |
| MemoryImport.ReplaceKeepsDuplicateKeys | memory.py:454-459 | Replacing with a file that holds two records under one key keeps both records, and the key points at the second. |
| MemoryImport.ExportMemories | memory.py:286-377 | JSON export is a version "1.0" envelope carrying the export date. Its elements are read back as exactly the store's records, none malformed, and the count is the number of records. Text export reports the count. Any other format fails with "Unknown format: …". |
| MemoryImport.ExportImportRoundTrip | memory.py:300-465 | Importing a store's JSON export into an empty store without merging gives back the same records, none skipped. The added count equals the exported count, and the export's version and date are reported. |
| MemoryExtractor.SpanBounds | memory_extractor.py:141-143 | The match runs from the first `[` that has a `]` after it to the last `]`. No such pair means no match. |
| MemoryExtractor.SanitizeType | memory_extractor.py:152-158 | The type is kept when it names a memory type and becomes `important_fact` otherwise, so it always names a memory type. |
| MemoryExtractor.OptionalText | memory_extractor.py:163-164 | A falsy key or value becomes None. A non-empty text is kept, cut to its length limit. |
| MemoryExtractor.SanitizeImportance | memory_extractor.py:165 | An integer importance is clamped to 1..5 and a boolean ends at 1. Any other value raises. |
| MemoryExtractor.Sanitize | memory_extractor.py:148-166 | A sanitised item has a valid type, content of at most 500 characters, a non-empty key of at most 100 or none, a non-empty value of at most 200 or none, and importance in 1..5. Importance is 2 when absent, and a missing or falsy key or value becomes none. |
| MemoryExtractor.ParseExtractionResponse | memory_extractor.py:137-175 | With no bracket span the result is empty. Every item is well formed. A non-empty result means the span decoded to an array, with one item per dictionary in it. |
| MemoryExtractor.ParseSeesOnlySpan | memory_extractor.py:141-145 | Two replies with the same bracket span parse alike, whatever prose surrounds it. |
| MemoryExtractor.NoBracketsNoItems | memory_extractor.py:141-143 | A reply without a `[`...`]` pair parses to nothing, whatever the decoder would return. |
| MemoryExtractor.SanitizeKeepsGoodItem | memory_extractor.py:148-166 | A well-formed item with a known type, short strings and an importance in range comes through unchanged. |
| MemoryExtractor.UserMessages | memory_extractor.py:42-45 | The contents of the user-role messages among the last ten: at most ten, each from such a message, and every such message's content present. |
| MemoryExtractor.UserMessagesAppend | memory_extractor.py:42-45 | The list is empty with no history. One more message drops the oldest of the last ten (its content leaves the list if it came from the user) and appends the new message's content when it comes from the user. Together these fix the list, in order, for every history. |
| MemoryExtractor.ExtractFromConversation | memory_extractor.py:23-80 | Nothing changes and nothing is returned when no user message is among the last ten, which includes the empty conversation, or when the model gives no answer. When the model answers, one memory is returned per parsed item, and each item that no later item overrides by key is held by its memory: content, value and key, at least its importance, and for a keyless item its type and exact importance. The store only grows, keeps one record per key and can read every returned memory. |
| MemoryExtractor.CommitAllHolds | memory_extractor.py:62-76 | After the `add_memory` loop, each item that no later item names by key is held by the memory returned for it: content, value and key as given, importance at least the item's, and for a keyless item the type and exact importance too. |
| MemoryExtractor.CommitAllKeeps | memory_extractor.py:62-76 | Items none of which carries a record's own non-empty key leave that record exactly as it was. |
| MemoryExtractor.AddMemoryHeld | memory.py:123-136 | The memory `add_memory` returns carries the item given: a merged record takes its content and value, keeps the same key through the index, and raises its importance to at least the item's; a fresh record carries everything. |
| MemoryExtractor.AddMemoryKeepsOther | memory.py:123-136 | A call whose key is empty or differs from a record's own key leaves that record unchanged. |
| MemoryExtractor.ExtractionSeesOnlyRecentUserMessages | memory_extractor.py:41-57 | Deep extraction depends on nothing but the contents of the user messages among the last ten. |
| MemoryExtractor.AssistantMessagesIgnored | memory_extractor.py:42-45 | An assistant message is never shown to the model. It only pushes the oldest of the last ten out of view. |
| MemoryExtractor.CommitRule | memory_extractor.py:204-220 | A name is committed with key `name` and importance 5 only when no `name` record already holds that very title-cased value. The lookup touches the existing record. |
| MemoryExtractor.NameGuardIdempotent | memory_extractor.py:208-210 | A name already on record is not written again. |
| MemoryExtractor.NameScenario | memory_extractor.py:196-220 | "My name is Alice" commits one `name: Alice` record with importance 5, and the same message again adds nothing. |
| MemoryExtractor.RuleFact | memory_extractor.py:253-264 | A `favorite` pattern keys the record `favorite_<thing>` with the second capture as value. The other patterns key it `<relation>_<value>`. |
| MemoryExtractor.PreferenceFacts | memory_extractor.py:245-275 | The preference table commits `preference` records with importances loves 3, hates 3, likes 2, dislikes 3 and favorite 4, under the keys above. |
| MemoryExtractor.PreferenceKeysDistinct | memory_extractor.py:253-264 | Different preference rules never write the same key, and no preference key is `name` or `location`. |
| MemoryExtractor.ApplyRules | memory_extractor.py:204-277 | The rule loops commit at most one memory per rule and change nothing when no rule matches. The store only grows, keeps one record per key and can read every returned memory. |
| MemoryExtractor.Step | memory_extractor.py:204-277 | One rule: a pattern that does not match leaves the store and the handles as they were. A matching rule that is not the name rule always yields a memory. A match of any rule leaves its fact's value indexed under its key. |
| MemoryExtractor.ApplyRulesFacts | memory_extractor.py:204-277 | After the loop, each matching fact that no later match overrides is the value held under its key. Every key no match names keeps the value it had. |
| MemoryExtractor.ApplyRulesCount | memory_extractor.py:204-277 | The loop returns no more memories than rules matched, and no fewer than the matches minus the name-rule matches, which the name guard may skip. |
| MemoryExtractor.ApplyRulesAppend | memory_extractor.py:204-277 | Running the loop over two rule lists in turn is running it over their concatenation, with the returned memories in rule order. |
| MemoryExtractor.ExtractQuickFacts | memory_extractor.py:177-277 | At most twelve memories come from the twelve patterns, and nothing changes when no pattern matches. There are at least as many memories as matches minus name-rule matches. Each match not overridden by a later one is held under its key afterwards. Every other key keeps its value. The store only grows and keeps one record per key. |
| MemoryExtractor.CadencesCompare | memory_extractor.py:322 | Deep extraction (every ten messages) and the five-message trigger agree on multiples of ten. They disagree exactly on odd multiples of five. |
| MemoryExtractor.LastUserMessage | memory_extractor.py:307-312 | The content of the last user-role message, if any. |
| MemoryExtractor.ProcessConversation | memory_extractor.py:289-333 | The store only grows and keeps one record per key. The reported new-memory count is the number of returned memories, every one of them live. The reported total is the record count after the call. |
| MemoryExtractor.OffCadenceIgnoresModel | memory_extractor.py:321-327 | Off the ten-message cadence the result does not depend on the model's reply or the decoder. |
| MemoryExtractor.OnCadenceCommitsReply | memory_extractor.py:321-327 | On the cadence, with user messages to show and an answer from the model, the count of new memories reported is the quick pass's count plus the number of parsed items of the reply. |
| MemoryExtractor.NoUserMessageNothingNew | memory_extractor.py:304-327 | A conversation with no user message yields no new memory. |
| MemoryExtractor.Unseen | memory_extractor.py:344-348 | The appended records come from the important list, have ids not seen before, and never share an id. |
| MemoryExtractor.UnseenCovers | memory_extractor.py:344-348 | Every important record's id ends up seen. |
| MemoryExtractor.GetRelevantMemories | memory_extractor.py:335-350 | Returns at most `limit` records. The search hits come first, in their order. After them come important records (3 or more) whose ids the hits lack, largest importance first. Without repeated ids among the hits, there are none in the result. When the limit allows, every important record is present by id. Exactly the important records are touched. |
| MemoryExtractor.ImportantCovered | memory_extractor.py:341-348 | Every record of importance 3 or more is among the hits by id, or among the appended records. |
| SmsCompanions.Normalize | sms_companion_manager.py:102-116 | The normalised number holds only digits and is no longer than the input. |
| SmsCompanions.NormalizeAppend | sms_companion_manager.py:116 | Normalisation works piece by piece, so the digits keep their order. |
| SmsCompanions.NormalizeChar | sms_companion_manager.py:116 | A digit survives normalisation, and any other character disappears. |
| SmsCompanions.NormalizeIdempotent | sms_companion_manager.py:102-116 | Normalising twice is normalising once. |
| SmsCompanions.GetCompanionId | sms_companion_manager.py:47-62 | The companion mapped under the normalised number, or none. |
| SmsCompanions.SetCompanionId | sms_companion_manager.py:64-82 | The number's entry names the companion, with the companion name defaulting to its id, and records the number as given. Every other entry is unchanged. |
| SmsCompanions.SetThenGet | sms_companion_manager.py:47-82 | After setting, any spelling of the same number finds the companion. |
| SmsCompanions.SetKeepsOthers | sms_companion_manager.py:64-82 | Setting one number leaves what every other number finds unchanged. |
| SmsCompanions.UpdateLastInteraction | sms_companion_manager.py:84-89 | Only a known number's last-interaction time changes. |
| SmsCompanions.RemoveMapping | sms_companion_manager.py:91-96 | The number is forgotten, and the other entries are kept. |
| SmsCompanions.RemoveThenGet | sms_companion_manager.py:91-96 | After removal no spelling of the number finds a companion, and every other number finds what it found before. |
| SmsCompanions.SwitchScanFrom | sms_companion_manager.py:207-216 | The scan picks the first exact case-insensitive name match if there is one. Otherwise it picks the first companion whose name contains the query. |
| SmsCompanions.ExactBeatsEarlierPartial | sms_companion_manager.py:208-216 | An exact match wins over an earlier companion whose name merely contains the query. |
| SmsCompanions.CmdSwitch | sms_companion_manager.py:201-231 | On a match, the number is mapped to the chosen companion (named after it) and its id is returned. Otherwise the mapping is unchanged and no id is returned. |
| SmsCompanions.SwitchReportsMapping | sms_companion_manager.py:218-227 | After a successful switch, the number answers to the chosen companion. |
| SmsCompanions.CmdList | sms_companion_manager.py:233-257 | The mapping is unchanged. The reply is the header naming the current companion, then the numbered line of each of the first ten companions, marking the current one, and no other line, then "... and N more" when more than ten are listed, then the hint. |
| SmsCompanions.CmdWho | sms_companion_manager.py:278-292 | The mapping is unchanged. Without a current companion, or with one that is not listed, the reply is the no-companion text. Otherwise the reply describes the first listed companion with that id: its name, its gender and the first fifty characters of its personality. |
| SmsCompanions.CmdReset | sms_companion_manager.py:294-298 | The number's mapping is removed and the reset text is returned. |
| SmsCompanions.SlashRoute | sms_companion_manager.py:189-195 | The first word after the slash, lower-cased, picks the command. The remaining words joined by single spaces are its arguments, or none. |
| SmsCompanions.HandleCommand | sms_companion_manager.py:174-199 | Every handled message counts as a command and gets a reply. An unknown command gets the unknown-command reply and changes nothing. A reported new companion is the number's mapping afterwards. |
| SmsCompanions.BareSwitch | sms_companion_manager.py:189-205 | A bare `/switch` raises as written. As corrected, it answers and leaves the mapping alone. |
| SmsCompanions.ParseMessage | sms_companion_manager.py:147-172 | A message counts as a command exactly when, after stripping, it starts with `/` or `switch to`, starts with `who are you`, or is one of the help or list aliases. Anything else is (False, None, None) and changes nothing. |
| SmsCompanions.UnknownSlashCommand | sms_companion_manager.py:189-199 | A slash message whose first word is no known command gets the unknown-command reply and changes nothing. |
| SmsCompanions.WhoAreYouAlias | sms_companion_manager.py:164-165 | "who are you ..." is answered as `/who`. |
| SmsCompanions.HelpAlias | sms_companion_manager.py:166-167 | "help", "help me" and "commands" are answered as `/help`. |
| SmsCompanions.ListAlias | sms_companion_manager.py:168-169 | "list", "list companions" and "show companions" are answered as `/list`. |
| Companions.DisplayName | companion_data/models.py:26-29 | The custom name when it is a non-empty string, otherwise the original name. |
| Companions.DisplayPersonality | companion_data/models.py:31-34 | The custom personality when it is non-empty, otherwise the original. |
| Companions.DisplayInterests | companion_data/models.py:36-39 | The custom interests when they are a non-empty list, otherwise the original. |
| Companions.AddMessage | companion_data/models.py:142-145 | Exactly one message is appended at the end, the earlier ones are kept, and the last update becomes its timestamp. |
| Companions.ContextMessages | companion_data/models.py:147-150 | For n > 0 the result is the last min(n, len) messages, in order, as role and content pairs. For n = 0 it is every message. For n < 0 it is every message after the first -n, none when -n is at least the length. |
| Companions.ContextAfterAdd | companion_data/models.py:142-150 | After one more message, the window of n is the previous window of n - 1 followed by the new message. |
| Companions.Put | companion_data/models.py:192 | An existing key keeps its position and takes the new value. A new key is appended. |
| Companions.Remove | companion_data/models.py:204 | The item under the key goes, and the others keep their order. |
| Companions.FromList | companion_data/models.py:179-188 | Each loaded record is stored under its id, once. A record that no later record with the same id follows is the one stored under that id, so the last wins. Every stored id is the id of some loaded record. |
| Companions.SaveCustom | companion_data/models.py:190-193 | After saving, the custom lookup of the id gives the record. Every other custom lookup and the presets are unchanged. |
| Companions.DeleteCustom | companion_data/models.py:201-207 | Returns true exactly when the id was a custom companion. Afterwards it is not one, and nothing else changes. |
| Companions.GetCompanion | companion_data/models.py:217-219 | The preset when there is one, otherwise the custom companion. Whatever is found carries the id. |
| Companions.AllCompanions | companion_data/models.py:221-231 | Every preset, then every custom companion, each in insertion order. |
| Companions.PresetShadowsCustom | companion_data/models.py:217-231 | A custom companion that shadows a preset id is listed by `get_all_companions`, but never returned by `get_companion`. |
| Companions.CreateCompanion | companion_data/models.py:233-252 | Returns no companion exactly when the id is neither a preset nor a custom one. Otherwise it returns the stored fields, with pronouns defaulting to "", plus the customisations. The greeting, relationship goal and background are copied from the stored companion. |
| Companions.CreatedDisplayName | companion_data/models.py:233-252 | A created companion displays its custom name when one was given, and the stored name otherwise. |
| Companions.FilterList | companion_data/models.py:260-279 | A companion is kept exactly when it passes the gender test and the trait test, and the result is no longer than the input. |
| Companions.FilterListInOrder | companion_data/models.py:260-279 | The two passes keep the selected companions in their original order. |
| Companions.FilterCompanions | companion_data/models.py:254-279 | Exactly the companions of the preset and custom list that pass both tests. |
| Companions.FilterPresets | companion_data/models.py:281-306 | Exactly the presets that pass both tests. |
| Companions.GenderAliases | companion_data/models.py:262-270 | "Female" keeps exactly the companions whose gender is "female", ignoring case. "enby" keeps "non-binary" and "genderfluid". An unrecognised gender keeps everyone. |
| Questionnaire.AllQuestionsNumbered | personality_questionnaire.py:83-88 | The flattened table is the fifty questions numbered 1 to 50, in order, category after category. |
| Questionnaire.Classify | personality_questionnaire.py:163-173 | A line is blank exactly when it is empty. It opens an answer exactly when it is non-empty and starts with one of `Q1:` to `Q50:`, and then its key is the text before the first colon. |
| Questionnaire.OpenerParts | personality_questionnaire.py:179-181 | A line that starts with `Q<n>:` opens question n's answer with the rest of the line. |
| Questionnaire.ParsedKeys | personality_questionnaire.py:146-190 | The parser only produces the keys `Q1` to `Q50`. |
| Questionnaire.RunAppend | personality_questionnaire.py:161-185 | The loop over two blocks of lines is the loop over the first, followed by the loop over the second. |
| Questionnaire.PreambleIgnored | personality_questionnaire.py:161-185 | Lines before the first answer line, blank or not, leave nothing behind. |
| Questionnaire.BlankLineSkipped | personality_questionnaire.py:162-165 | A blank line changes nothing. |
| Questionnaire.ContinuationsAppended | personality_questionnaire.py:182-184 | Continuation lines are stripped and added to the open answer, in order. |
| Questionnaire.LastBlockWins | personality_questionnaire.py:174-189 | Whatever came before, a `Q<n>:` line followed only by continuation lines stores under `Q<n>` the rest of that line and the continuations, joined by single spaces and stripped. |
| Questionnaire.AnswerFor | personality_questionnaire.py:208-212 | The shown answer is the placeholder `[<question> - Not answered]` when the key is missing. It is the stored answer when that does not start with `Q<n>:`, and otherwise the rest after that prefix, stripped. |
| Questionnaire.EveryQuestionOnce | personality_questionnaire.py:203-215 | The question lines of the formatted profile are exactly those of questions 1 to 50, once each, in table order, each with its answer or placeholder. |
| Questionnaire.ParsedAnswersShown | personality_questionnaire.py:146-215 | Every answer the parser keeps belongs to one of the questions the profile lists. |
| Questionnaire.PromptDefaults | personality_questionnaire.py:100-114 | An absent name reads "Companion" and absent pronouns "they/them". An absent gender, tone, background, relationship goal or greeting reads "", and a present one is used as given. An absent or empty interest list reads "various topics". The traits are the selected ones joined by commas, or the personality when none are selected. |
| Questionnaire.PromptQuestionLines | personality_questionnaire.py:139 | The prompt's question list is one `Q<n>. <question>` line per question, 1 to 50, in order. |
| Proactive.ParseTimeNeedsColon | proactive_messenger.py:51-54 | A time without a colon raises. |
| Proactive.ParseTimeTwoColons | proactive_messenger.py:51-54 | A time with two colons raises. |
| Proactive.ParseTimeRoundTrip | proactive_messenger.py:51-54 | `HH:MM`, written with two digits each, reads back as that hour and minute. |
| Proactive.ClockTime | proactive_messenger.py:63-64 | An hour outside 0..23 or a minute outside 0..59 raises. Otherwise the result is that time of day. |
| Proactive.InWindow | proactive_messenger.py:66-69 | When the end is not before the start, the window is start ≤ now ≤ end. Otherwise it is now ≥ start or now ≤ end. |
| Proactive.OvernightIsComplement | proactive_messenger.py:66-68 | An overnight window holds exactly the times outside the daytime gap between its end and its start. |
| Proactive.WithinWindow | proactive_messenger.py:57-69 | The window test on the current time of day, or an error when either bound does not parse. |
| Proactive.WindowOfClock | proactive_messenger.py:57-69 | A window written as `HH:MM` is tested against those hours and minutes. |
| Proactive.DefaultWindow | proactive_messenger.py:29-38 | The default window runs from 09:00 through 22:00:00 sharp. |
| Proactive.SendChance | proactive_messenger.py:72-107 | No draw when the last message is less than four hours old. No draw when it was today and today's count has reached the daily count, which defaults to the global frequency and then to 3. No draw when the companion is disabled. Otherwise the draw uses the companion's frequency. |
| Proactive.FreshCompanionDraws | proactive_messenger.py:29-38 | Under the default configuration a companion with no history draws with frequency 3. |
| Proactive.RecordSend | proactive_messenger.py:249-261 | The last-message time becomes now. On a new day the counter restarts at 1 with today's date, and on the same day it goes up by one. Nothing else changes. |
| Proactive.Send | proactive_messenger.py:225-268 | When `send_webhook_notification` raises, the configuration is unchanged. When it returns, the send is recorded. |
| Proactive.SendHoldsOff | proactive_messenger.py:80-85 | Right after a send, the companion is held back for four hours. |
| Proactive.SendsCounted | proactive_messenger.py:252-261 | After several sends on one day, the counter holds their number, plus the day's earlier count when that day was already recorded. |
| Proactive.DailyCapHolds | proactive_messenger.py:87-93 | Once a companion has sent its daily count on a fresh day, it cannot send again that day. |
| Proactive.ToneCategory | proactive_messenger.py:160-174 | The category is looked up in lower case, and a tone the map does not know gets "friendly". |
| Proactive.ToneIgnoresCase | proactive_messenger.py:174 | The tone lookup ignores case. |
| Proactive.ToneHasTemplates | proactive_messenger.py:174-175 | Every tone lands in a category that has templates. |
| Proactive.MessageTemplate | proactive_messenger.py:157-176 | The message is one of the templates of the tone's category. |
| Proactive.ShouldRunNow | proactive_messenger.py:195-204 | False when messaging is disabled. Otherwise the result is the window test on the configured bounds, which default to 09:00 and 22:00. |
| Proactive.AvailableCompanions | proactive_messenger.py:206-223 | A companion is available exactly when it is listed and not disabled. |
| Proactive.TickSendsOnce | proactive_messenger.py:270-283 | In one scheduler pass, each companion's send is recorded at most once, and only available companions send. Each companion that sent is then held back for four hours. |
| Proactive.SecondListingDraws | proactive_messenger.py:276-279 | A companion listed twice in one pass draws afresh at its second listing. When it loses the first draw and wins the second, it sends once and is then held back. |
| Proactive.SetGlobalSettings | proactive_messenger.py:323-335 | Only the settings passed change. The per-companion settings and message times are kept. |
| Proactive.SetGlobalSettingsLaws | proactive_messenger.py:323-335 | Passing nothing changes nothing, and settings passed twice keep the second value. |
| Proactive.UpdateCompanionSettings | proactive_messenger.py:318-321 | The companion's settings are replaced whole, and other companions and message times are kept. |
| Proactive.DisabledNeverSends | proactive_messenger.py:98-100 | A companion switched off neither draws nor counts as available. |

## Left out

- JSON loading and saving, the text export's file contents, and every file write are left out. The export's `total_memories` field is not modelled, because import never reads it. Exceptions raised by file I/O are not modelled either.
- `uuid.uuid4()` is a parameter: a fresh-id function applied to a handle counter.
- `datetime.now()` is a parameter: a natural number standing for the ISO timestamp, or a day plus microseconds in the scheduler. Timestamps compare as those numbers, not as ISO strings.
- The regex engine and `json.loads` are abstract functions passed in. The name, location and preference patterns are given as captured groups.
- The language-model call is a parameter: its reply, or its failure.
- `random.random()`, the float chance `frequency / 48`, `random.choice` and the webhook call are parameters. `lucky` decides the draw, `pick` chooses the template and `returned` says whether `send_webhook_notification` returned rather than raised. `lucky` and `returned` are indexed by position in the pass, so each listing of a companion gets its own draw. That call only starts background threads whose failures are swallowed (api_server.py:59-76), so returning does not mean any webhook received the message.
- `lower`, `title` and `isdigit`/`\d` are modelled on ASCII letters and digits only. Python's Unicode case mappings and Unicode digits are left out.
- The prompt texts of the extractor and the questionnaire are not modelled as strings, apart from the question list and the defaulted fields.
- The scheduler thread, `time.sleep`, `start`, `stop` and `get_config` are left out. So is the per-call clock inside one pass: the model uses one `now` for the whole pass.
- The exception path of `_get_available_companions`, a malformed `last_messages` string and a failing `should_send_message` are left out. Only the window-parse failure of `_should_run_now` is modelled.
- Questionnaire: the table holds each question by its number. The model does not keep a separate string numbering for each category; the flattening lemma shows the numbers run 1 to 50 in order.
- MemoryExtractor.Sanitize: JSON numbers are integers and text fields are strings in this model. An item whose `content`, `key` or `value` is a non-empty JSON list is treated as raising, which empties the whole parse. Python slices the list and commits a record that holds it. `Memory` declares these fields as text (memory.py:28-30), and list-valued fields would have to be carried through every store operation.
- MemoryExtractor.OptionalText: a non-empty list is treated as raising, where Python slices it. The reason is the one given for MemoryExtractor.Sanitize.
- MemoryExtractor.SanitizeImportance: a float importance cannot be represented. Python keeps 2.5 (`max(1, min(5, 2.5))`) and stores a float importance. `Memory` declares the importance as an integer (memory.py:31), and the store's importance comparisons are modelled on integers.
- MemoryExtractor.ParseExtractionResponse: inherits the list and float gaps of MemoryExtractor.Sanitize and MemoryExtractor.SanitizeImportance. For example, `[{"content":"x","value":["a"]}]` parses to no items here.
- MemoryImport.FromItem: a record appended with a `null` importance is stored with importance 1. Python stores `None`, after which every importance comparison on the store raises. A `null` timestamp, access count or companion id is likewise read as the absent default. Only `null` in `is_shared`, and a `null` importance on the merge path, are modelled as Python behaves. Fields of the wrong JSON type are not modelled either: `cls(**data)` checks no types, so `"importance": "3"` or `2.5`, `"content": 7` or `null`, or `"id": 7` is appended as given. On the merge path `max` then raises after `value` and `content` were overwritten, where a `null` importance is the only such case the model follows.
- MemoryImport.ImportMemories: a `version` or `export_date` that is a number, list or dictionary is reported as given in Python. The model carries these two fields as text or `null` only.
- Questionnaire.PromptDefaults: each input field is absent or given. A key present with value `null` is not representable: `dict.get` returns `None` for it rather than the default, which would put "None" into the prompt.
- Proactive.DailyCount: the per-companion and global settings are absent or given. A key present with value `null` is not representable, though `dict.get` returns `None` for it rather than the default.
- Companions.CreateCompanion: customisations are limited to the three custom display fields. Arbitrary keyword arguments, and the `TypeError` they can raise, are not modelled.
- MemoryQueries.GetContextSummary: its own contract states only when the no-information sentence appears. The full text of the summary for any records is stated by SummarizeLayout.
- SmsCompanions.CmdWho: a stored companion without a `personality` field is not representable, because `CompanionData` requires the field. The source shows 'Friendly' for such a companion.
- Companions.CreateCompanion: a stored companion whose `pronouns` is `null` is not representable. `data.get("pronouns", "")` gives `None` for it, while the model's absent pronouns become "".

## Findings

| source | as written | input that shows it | evidently intended | confidence | as-written member | corrected member |
|---|---|---|---|---|---|---|
| sms_companion_manager.py:189-205 | A `/switch` with no argument passes `args = None` to `_cmd_switch`, which calls `None.lower()` and raises `AttributeError`. | the SMS message `/switch` | Answer as a switch that found nothing: a reply and no change to the mapping. | not executed | SmsCompanions.HandleCommandAsWritten (shown by SmsCompanions.BareSwitch) | SmsCompanions.HandleCommand |
| memory.py:428-437 | Without merging, the store is emptied before the loop, and the loop header iterates `memories_data` outside the per-element `try`. A `memories` of `null`, a number or a boolean raises `TypeError` there. The outer handler reports failure with the store already emptied, and the next `save` writes the empty store. | `{"memories": null}` imported with `merge=False` into a store with records | Reject the file like any other malformed one and keep the store. | not executed | MemoryImport.ImportMemoriesAsWritten (shown by MemoryImport.NullMemoriesEmptiesStore) | MemoryImport.ImportMemories |
