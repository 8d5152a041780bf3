# De-identification and session store, modelled in Dafny

This project models three Python files of a medical-document service.

- `spacy1.py` is the redactor the server calls. A string is redacted in three steps:
  - it collects the spans of the recognised PERSON, GPE and DATE entities, then every match of nine fixed patterns;
  - it sorts the spans by start, descending;
  - it splices each span's `{{LABEL}}` placeholder into the text, right to left.

  The same step runs over a JSON document's root `text`, each page's `text`, and every string cell of every table (page tables and root tables).
- `deidentify.py` does the same redaction. It also builds a PHI inventory:
  - seven lists (names, phones, emails, SSNs, MRNs, dates, addresses) are filled by routing each entity and each match;
  - the inventories are merged key by key over the whole document;
  - duplicates are removed at the end.
- `auth.py` keeps users and login sessions in two dictionaries. It has `register_user`, `authenticate_user`, `verify_token` and `logout`.

Modules, one per file:

- `Spans` (spans.dfy): Python's clamping slices and the splice loop. It also holds the stable descending sort, and a left-to-right rebuild that the loop is proved to agree with when the spans are disjoint.
- `Detection` (detection.dfy): entities, patterns, the collection loops, and `Redact`, the text both redactors produce.
- `Documents` (documents.dfy): the document shape and the functions that say what the walk writes out.
- `Spacy1` (spacy1.dfy): the loops of `spacy1.py`, each proved equal to those functions.
- `Inventory` (inventory.dfy): the inventory record, name cleaning, routing, merging, and what each list ends up holding.
- `Deidentify` (deidentify.dfy): the loops of `deidentify.py`, each proved to compute the redacted value and the inventory.
- `Auth` (auth.dfy): the two maps as a `Store` value with one transition function per operation, and the lemmas about those transitions. It also holds a class `AuthHandler` whose methods update the `users` and `sessions` fields in place and are proved to follow the transitions.

The recogniser (spaCy) and the regular-expression engine (`re.finditer`) are supplied as the two functions of a `Detectors` value. bcrypt is supplied as the two functions of a `Hasher`. The session token, the salt and the current time are arguments.

The model follows the code. In particular:

- Overlapping spans are not merged. Each one is spliced at its offsets in the original text, but into a text that earlier splices have already changed. Two things can go wrong:
  - text outside every span can be lost (`Spans.DuplicateSpanDropsText`);
  - text inside a span can be copied to the output unredacted. A PERSON span over "Rao" inside a NAME_PREFIX match over "Ms. Rao Sharma" gives "{{NAME_PREFIX}} Sharma" (`Spans.NestedSpanLeaksText`).

  The "every character outside a span is kept" guarantee is proved only for pairwise disjoint spans (`Spans.CleanRedaction`, `Detection.RedactDisjoint`).
- The recogniser's location label is GPE, and GPE texts go to `addresses`. ORG entities are neither masked nor recorded.
- The inventory is merged by extending lists. Duplicates are removed once, at the end of the document walk. The inventory that `process_table_data` returns is not deduplicated.
- Masked labels are PERSON, GPE and DATE. The AGE, REG_NO and NAME_PREFIX matches are masked in the text but recorded in no list.

## Model

| member | source | states |
|---|---|---|
| Spans.ReplaceSpans | spacy1.py:43-45 | The replacement loop leaves the text obtained by splicing every span into the current text, in list order (the same loop is deidentify.py:97-99). |
| Spans.SortByStartDesc | spacy1.py:40-41 | The sort by start, descending, is sorted, is a permutation of the collected spans, and is stable: for every start it keeps the spans of that start in collection order. |
| Spans.SortIsUnique | spacy1.py:40-41 | Any list that is sorted by descending start and keeps each start's spans in collection order is exactly the sort's result. |
| Spans.SortSeparateIsChain | spacy1.py:40-41 | Sorting pairwise disjoint, non-empty, in-bounds spans by descending start gives a chain in which each span ends before the previous one starts. |
| Spans.RightToLeftIsRebuild | spacy1.py:43-45 | Splicing such a chain right to left equals the left-to-right rebuild. The rebuild copies the text between spans unchanged and puts each placeholder in place of its span. |
| Spans.CleanRedaction | spacy1.py:40-45 | For disjoint in-bounds spans, sorting and then splicing gives that rebuild. |
| Spans.DuplicateSpanDropsText | deidentify.py:94-99 | As written, two identical DATE spans over "01/02/2020" in "on 01/02/2020 ok" give "on {{DATE}}k". The second splice removes " o", which lies outside both spans. |
| Spans.NestedSpanLeaksText | spacy1.py:40-45 | As written, a PERSON span over "Rao" nested inside a NAME_PREFIX span over all of "Ms. Rao Sharma" sorts first. The outer splice then keeps " Sharma" from the rewritten text, so the result is "{{NAME_PREFIX}} Sharma" and text inside a span is left unredacted. |
| Detection.CollectSpans | spacy1.py:27-38 | The collected list is the recogniser's masked spans in its order, followed by the spans of every pattern's matches in table order. |
| Detection.MaskEntities | spacy1.py:29-33 | The entity loop appends one span per PERSON, GPE or DATE entity, with its label's placeholder, and nothing for other labels. |
| Detection.AppendPatterns | spacy1.py:35-38 | The pattern loop appends the match spans of each table entry in table order. |
| Detection.AppendMatches | spacy1.py:37-38 | The match loop appends one span per match, carrying the pattern's key as placeholder. |
| Detection.NerSpansMembers | spacy1.py:30-33 | A span comes from the recogniser iff some PERSON, GPE or DATE entity has that range and label. ORG and every other label contribute nothing. |
| Detection.PatternSpansMembers | spacy1.py:36-38 | A span comes from the patterns iff some listed pattern has a match with that range, and the span carries that pattern's key. |
| Detection.SpliceOrder | spacy1.py:40-41 | Spans are spliced in descending start order. Among spans with the same start, the recogniser's come first, then the patterns' in table order. |
| Detection.NothingMaskedKeepsText | spacy1.py:22-47 | With no PERSON, GPE or DATE entity and no pattern match (only ORG entities, say), the text comes back unchanged. |
| Detection.RedactDisjoint | spacy1.py:22-47 | When the collected spans are pairwise disjoint and in bounds, the redacted text is the left-to-right rebuild over them. |
| Documents.RedactCellsAt | spacy1.py:56-63 | A processed row has the row's length, and each cell is redacted in its own place. |
| Documents.TableShape | spacy1.py:49-67 | A non-list table is unchanged. A list keeps its row count. A list row keeps its length: string cells are redacted and other cells are unchanged. A non-list row is unchanged. |
| Documents.CellIsText | spacy1.py:58-60 | A string cell comes out exactly as the same string would as a page text. |
| Documents.WalkTouchesOnlyPresent | spacy1.py:80-97 | The walk keeps every key's presence and every other entry. It keeps the page and table counts, and leaves pages and tables without those keys as they were. |
| Documents.WalkKeepsWellFormed | spacy1.py:80-97 | The walk writes only the `text`, `pages`, `tables` and `data` entries it looks up. A document that holds those keys only in their own fields, and never among the other entries, still does so after the walk. |
| Documents.NothingMaskedKeepsValue | spacy1.py:22-24 | A non-string is returned as it is, and so is a string with nothing to mask. |
| Spacy1.DeidentifyText | spacy1.py:22-47 | Collect, sort, splice: the result is the redaction of the value. |
| Spacy1.ProcessTableData | spacy1.py:49-67 | The row loop builds the redacted table. |
| Spacy1.ProcessRow | spacy1.py:56-64 | The cell loop builds the redacted row. |
| Spacy1.ProcessCell | spacy1.py:58-63 | A string cell is redacted; any other cell is kept. |
| Spacy1.ProcessTables | spacy1.py:94-97 | The table loop replaces each `data` present with the processed table and leaves the rest. |
| Spacy1.ProcessPage | spacy1.py:86-91 | A page's `text` and its tables' `data` are replaced when present. |
| Spacy1.ProcessJsonFile | spacy1.py:76-97 | The document written out is the redacted document. |
| Inventory.Before | deidentify.py:42-45 | `s.split(sep)[0]` is the prefix of s that contains no occurrence of sep and ends where sep first begins, or at the end of s. |
| Inventory.CleanNameIsFirstCut | deidentify.py:42-45 | The recorded name is the prefix of the entity text that ends where the first line break, " Sample" or " Age" begins. None of the three starts earlier in the text. |
| Inventory.Route | deidentify.py:58-67 | PHONE, EMAIL, SSN and MRN matches each go to their own list, and DOB and DATE matches to the dates. AGE, REG_NO and NAME_PREFIX matches go nowhere, and nothing goes to names or addresses. |
| Inventory.AddEntitiesBuckets | deidentify.py:40-52 | The entity loop adds cleaned PERSON names to the names and appends GPE texts to the addresses and DATE texts to the dates. It leaves the other four lists alone. |
| Inventory.AddPatternsBucket | deidentify.py:54-67 | The pattern loop extends each list by the match texts of the patterns routed to it, in table order. |
| Inventory.RoutedNever | deidentify.py:55-67 | No pattern match is ever recorded as a name or an address. |
| Inventory.RoutingTable | deidentify.py:23-69 | The inventory of a string, list by list. Names come from PERSON entities and addresses from GPE entities. Dates are DATE entities then DOB and DATE matches. Phones, e-mails, SSNs and MRNs each come from their own pattern's matches. |
| Inventory.NamesFromFacts | deidentify.py:41-48 | The names list never holds an empty name or a repeat. It holds exactly the non-empty cleaned texts of the PERSON entities. |
| Inventory.TextPhiNames | deidentify.py:40-50 | A value is a name iff it is the non-empty cleaned text of some PERSON entity, with no name repeated. It is an address iff it is the text of some GPE entity. |
| Inventory.TextPhiDates | deidentify.py:51-67 | A value is a date iff it is the text of a DATE entity or of a DOB or DATE match. |
| Inventory.TextPhiMatches | deidentify.py:54-65 | A value is a phone, e-mail, SSN or MRN iff it is the text of a match of that pattern. |
| Inventory.Merge | deidentify.py:122-123 | After the merge loop, every key's list is the old list followed by the other inventory's list for that key. The empty dictionary `{}` adds nothing. |
| Inventory.CellsPhiBucket | deidentify.py:117-125 | Merging over a row's cells appends, for each key, the lists of the string cells' inventories in cell order. |
| Inventory.RowsPhiBucket | deidentify.py:114-128 | Merging over the rows appends the string cells' lists in row-major order. Non-list rows contribute nothing. |
| Inventory.TablePhiBucket | deidentify.py:103-130 | A non-list table yields `{}`. A list table's inventory lists are the concatenated lists of its string cells. |
| Inventory.TablesPhiBucket | deidentify.py:171-177 | Merging over a list of tables appends the lists of the string cells of each `data` present, in order. |
| Inventory.PagePhiBucket | deidentify.py:157-168 | A page contributes its text's lists, then its tables' lists. |
| Inventory.PagesPhiBucket | deidentify.py:155-168 | The pages contribute in page order. |
| Inventory.DocBuckets | deidentify.py:147-177 | Before duplicates are removed, each list of the document's inventory is the concatenation, in visiting order, of that list over every string the walk redacts. |
| Inventory.DocMembers | deidentify.py:147-177 | A value is listed under a key iff the inventory of some string the walk redacts lists it under that key. |
| Inventory.Distinct | deidentify.py:188-189 | `list(set(xs))` has no repeats and exactly the members of xs. |
| Deidentify.ExtractPhiInfo | deidentify.py:23-69 | A non-string gives `{}`. A string gives the entity loop's inventory extended by the pattern loop's. |
| Deidentify.RecordEntities | deidentify.py:40-52 | The entity loop computes the entity part of the inventory. |
| Deidentify.RecordPatterns | deidentify.py:55-67 | The loop over the pattern table computes the pattern part. |
| Deidentify.RecordMatches | deidentify.py:56-67 | The loop over one pattern's matches records each match text under its route. |
| Deidentify.RecordMatch | deidentify.py:57-67 | The label test appends the match text to the routed list, or to none. |
| Deidentify.DeidentifyText | deidentify.py:71-101 | Returns the redacted value together with the value's inventory; a non-string comes back as it is with `{}`. |
| Deidentify.MergeInto | deidentify.py:122-123 | The loop over the seven keys performs the merge. |
| Deidentify.RemoveDuplicates | deidentify.py:187-189 | Afterwards no list has a repeat, and each list has exactly the members it had. |
| Deidentify.ProcessTableData | deidentify.py:103-130 | Returns the redacted table and the table's inventory (`{}` for a non-list). |
| Deidentify.ProcessRow | deidentify.py:116-126 | The cell loop builds the redacted row and merges each string cell's inventory in order. |
| Deidentify.ProcessCell | deidentify.py:117-125 | One cell is redacted and its inventory is merged. |
| Deidentify.ProcessTables | deidentify.py:171-177 | The table loop redacts each `data` present and merges each table's inventory. |
| Deidentify.ProcessPage | deidentify.py:157-168 | A page's text and its tables are redacted and their inventories merged. |
| Deidentify.ProcessPages | deidentify.py:155-168 | The page loop, in page order. |
| Deidentify.ProcessJsonFile | deidentify.py:141-191 | The document written out is the redacted document. The returned inventory has no repeated value in any list. A value is listed under a key iff `extract_phi_info` of some string the walk redacts lists it there. |
| Auth.StatusCode | auth.py:54-102 | A taken username is a 400. Bad credentials, an unknown token and an expired token are each a 401. |
| Auth.Register | auth.py:52-68 | A taken name is refused and nothing changes. Otherwise exactly that name is added, with the hashed password, the role and the time; no other user and no session changes. |
| Auth.Authenticate | auth.py:70-91 | An unknown name or a failed password check is refused and nothing changes. Otherwise the token maps to a session for that user with the stored role, expiring 24 hours from now. Other sessions and all users are kept. |
| Auth.Verify | auth.py:93-104 | Success iff the token is known and its expiry is not before now; the session is returned and nothing changes. An unknown token is refused with nothing changed. An expired token is refused and only its session is deleted. |
| Auth.Logout | auth.py:106-110 | The token's session is gone and every other session and user is kept. An unknown token changes nothing. |
| Auth.OperationsKeepSessionsOwned | auth.py:52-110 | Every operation keeps each session tied to a registered user and to that user's role. |
| Auth.RegisterThenLogin | auth.py:58-91 | Register a new name, then log in with the same password (when bcrypt accepts a password against its own hash): the login succeeds with a session carrying the registered role. |
| Auth.SessionLifetime | auth.py:80-104 | A session issued at time now verifies unchanged up to and including now + 24 h. After that it is refused as expired and evicted. |
| Auth.ExpiredThenUnknown | auth.py:99-102 | A token refused as expired is afterwards unknown. |
| Auth.LogoutIdempotent | auth.py:106-110 | Logging out twice equals logging out once, and a logged-out token is unknown. |
| Auth.AuthHandler.constructor | auth.py:24-40 | The handler starts from the stored users and sessions. |
| Auth.AuthHandler.RegisterUser | auth.py:52-68 | The result and the new `users` and `sessions` fields are those of `Register`. The role defaults to `Auth.DefaultRole` ("user") when none is given. |
| Auth.AuthHandler.AuthenticateUser | auth.py:70-91 | The result and the new fields are those of `Authenticate`. |
| Auth.AuthHandler.VerifyToken | auth.py:93-104 | The result and the new fields are those of `Verify`, including the deletion of an expired session. |
| Auth.AuthHandler.LogoutToken | auth.py:106-110 | The new fields are those of `Logout`. |

## Left out

- The spaCy model and the nine regular expressions are not modelled. Their output is the two functions of `Detectors`: the entity list of a text, and the match list of a pattern over a text. Both calls to the recogniser in `deidentify_text` see the same entities. Offsets are character positions, as in Python strings.
- Reading and writing the JSON files, `time.time` and `print` are left out. The walk takes the parsed document and returns the document that would be written.
- The blanket `except` and the success flag are left out. The model types `pages` and `tables` as lists of objects, so it cannot represent a document where they are something else. Python raises and returns `False` on some such entries (null, a number, or a string or list that contains "text", "tables" or "data"). It passes the others through unchanged, because `in` on a string is a substring test and on a list a membership test.
- JSON objects keep the keys the walk looks up (`text`, `pages`, `tables`, `data`) in their own fields. The model's values may also carry those keys among the other entries. That case represents no JSON object, and `Documents.WellFormedDocument` excludes it.
- JSON numbers, booleans, null and objects are one opaque case, `JOther`. The walk never looks into them, and neither does the source.
- Dictionaries and lists that the source mutates in place (`page['text'] = …`, `table['data'] = …` on a shallow copy of the input) are modelled as values. The aliasing that makes the input document change too is not captured.
- The `people` list in `deidentify_text` is filled and never read; it is not modelled.
- Deidentify.RemoveDuplicates: `list(set(xs))` orders its result in a way Python leaves unspecified. The contract states only that no value repeats and that membership is unchanged.
- The placeholder text itself is not checked against the patterns or the recogniser. Whether redacting twice gives the same text depends on the recogniser, which is a parameter.
- bcrypt's `hashpw` and `checkpw` are the two functions of `Hasher`, and the random salt is an argument. `secrets.token_urlsafe` becomes a token argument. `datetime.now` becomes an integer count of seconds, and the ISO timestamp strings become those integers. So `created_at` is an integer, and `expires_at` is now + 24 × 3600.
- `_load_users`, `_load_sessions`, `_save_users` and `_save_sessions` are left out. The constructor receives what the files held, or empty maps when a file is missing.
- The FastAPI dependency `get_current_user` and the HTTP layer are not part of this model. The raised `HTTPException`s are `Err` results carrying the error whose status `Auth.StatusCode` gives.
