# contrato-club — a Dafny model of the contract core

This project models the core of the membership-contract application of a
beauty studio. The application has two implementations: a Next.js/TypeScript
one (`nodejs/src/lib/…`, `nodejs/src/app/api/…`) and an older Python one
(`database.py`, `contract_text.py`, `pdf_generator.py`). The model covers the
following parts:

- **Plan catalog and plan resolution** (`plans.dfy`). These are the four
  `PLANOS` entries, and how a free-text plan id resolves to one of them. The
  TypeScript `getPlanInfo` uses an exact key, then a substring fallback. The
  Python `get_plano_info_texto` uses an exact key, a case-insensitive key, then
  the same fallback.
- **Contract-text composers** (`contract_text.py`). `getContratoCompleto` and
  `get_contrato_completo` are modelled as the record of values they substitute
  into the fixed template: the plan-choice clause, discount, loyalty months,
  premium bonus, company defaults and date.
- **Contract numbers** (`numbering.dfy`). The format is `CTR-<year>-<4 digits>`,
  with a round trip and year separation.
- **The TypeScript contracts table** (`store.dfy`). It covers creation with
  count-based numbering and the UNIQUE constraint, archive, restore, delete,
  tag updates, listing newest first with a status filter, name search, and
  lookup by number.
- **The Python contracts table** (`pystore.dfy`). A simulation relation ties it
  to the TypeScript table.
- **Tags** (`tags.dfy`). `getAllTags` collects the comma-separated tags of all
  rows, trimmed, without empties or duplicates, sorted.
- **Settings** (`settings.dfy`). This is the key/value table, its seeded
  defaults, `getSetting`, `setSetting` and `getCompanySettings`.
- **The HTTP handlers** of `/api/contracts` (`contracts_route.dfy`) and
  `/api/settings` (`settings_route.dfy`).
- **The PDF line classifier** (`pdf_lines.dfy`). `generate_contract_pdf` turns
  the contract text into PDF elements line by line, with a skip mode for the
  old ASCII header block. The file also models the data-URI split of the
  signature.

Every operation is a pure function over immutable data. The database is a
value holding the rows in insertion order, the next id and the settings
table. A write returns the new value. The clock is a parameter: the year for
numbering, and the day, month and year for `formatDate`.

## Model

| member | source | states |
|---|---|---|
| Plans.CatalogInvariants | nodejs/src/lib/contracts.ts:7-50 | Each entry's period field matches its key. Loyalty is 6 or 12 months by period. BASIC allows 1 reschedule and a 30% discount; PREMIUM allows 2 and 50%. Only annual plans carry an annual saving, equal to 12 times the monthly difference from the semestral price. |
| Plans.KeyKeywords | nodejs/src/lib/contracts.ts:71-81 | The upper-cased key name contains PREMIUM, BASIC, SEMESTRAL or ANUAL exactly according to the key's tier and period. |
| Plans.KeyNameInjective | nodejs/src/lib/contracts.ts:7-50 | The four key strings are pairwise distinct. |
| Plans.ExactKey | nodejs/src/lib/contracts.ts:68-70 | The own-key lookup finds the key whose name is exactly the id, or reports that no key has that name. |
| Plans.ExactKeyOfKeyName | contract_text.py:252 | Looking up a key's own name finds that key. |
| Plans.FallbackKey | nodejs/src/lib/contracts.ts:72-81 | The fallback picks PREMIUM iff the upper-cased id mentions PREMIUM, and semestral iff it mentions SEMESTRAL. |
| Plans.FallbackOfKeyName | nodejs/src/lib/contracts.ts:67-82 | Every key name falls back to its own key, so the exact-match step never changes the outcome for a valid key. |
| Plans.ResolveTs | nodejs/src/lib/contracts.ts:67-82 | Resolution is total. An id equal to a key name resolves to that key, and every id resolves to its fallback key. |
| Plans.ResolveEmpty | nodejs/src/lib/contracts.ts:72-81 | The empty id resolves to BASIC - Anual. |
| Plans.CaseInsensitiveKey | contract_text.py:196-202 | The case-insensitive loop finds a key equal to the id up to case, or there is none. |
| Plans.ResolvePy | contract_text.py:190-216 | The Python three-step resolution always yields the fallback key: the exact and case-insensitive steps never disagree with it. |
| Plans.ResolversAgree | contract_text.py:190-216 | Python and TypeScript resolve every id to the same plan. |
| Plans.KeyNamesNotInherited | nodejs/src/lib/contracts.ts:68 | No catalog key is a name inherited from `Object.prototype`. |
| Plans.GetPlanInfoAsWritten | nodejs/src/lib/contracts.ts:67-82 | As written, `getPlanInfo` returns a non-plan iff the id is an inherited `Object.prototype` name. Otherwise it returns the resolved catalog plan. |
| Plans.InheritedNameResolvesToNoPlan | nodejs/src/lib/contracts.ts:68-69 | "toString" yields an inherited member as written, although the corrected resolution gives BASIC - Anual. |
| Plans.GetPlanInfo | nodejs/src/lib/contracts.ts:67-82 | The corrected lookup always returns a catalog plan. It is the plan of the keyword fallback, semestral iff the id mentions SEMESTRAL and with 2 reschedules iff it mentions PREMIUM. |
| Plans.CorrectionAgreesOnOwnNames | nodejs/src/lib/contracts.ts:67-82 | On every id that is not an inherited `Object.prototype` name, the corrected lookup returns what the written code returns. |
| ContractText.OrElse | nodejs/src/lib/contracts.ts:130 | `a \|\| b` yields the default exactly when the value is missing or empty (or equals the default), and otherwise yields the value. |
| ContractText.PlanChoiceTs | nodejs/src/lib/contracts.ts:84-94 | The tier is BASIC iff the upper-cased id mentions BASIC. The period is annual iff the id mentions ANUAL or does not mention SEMESTRAL. The price is the fallback plan's. |
| ContractText.EmptyIdTierMismatch | nodejs/src/lib/contracts.ts:84-94 | The empty id shows tier PREMIUM with the BASIC - Anual price of 60. |
| ContractText.BonusTs | nodejs/src/lib/contracts.ts:100-104 | The bonus line appears iff the upper-cased id mentions PREMIUM. Otherwise the result is empty. |
| ContractText.MonthIndex | nodejs/src/lib/contracts.ts:107-110 | A month name maps to its position in the month table. |
| ContractText.SplitFormatDate | nodejs/src/lib/contracts.ts:106-113 | A formatted date splits on spaces into day, "de", month name, "de", year. |
| ContractText.FormatDateRoundTrip | nodejs/src/lib/contracts.ts:106-113 | The rendered date reads back as the same day, month and year. |
| ContractText.ComposeTs | nodejs/src/lib/contracts.ts:115-130 | Discount is 50% iff the id mentions PREMIUM, and the bonus line appears iff the discount is 50%. Loyalty is 6 iff the id mentions SEMESTRAL. The company name is never empty and defaults exactly for a missing or empty value. The date round-trips. |
| ContractText.SemestralSubsumed | contract_text.py:226 | The explicit "Semestral" check is subsumed by the upper-cased SEMESTRAL check. |
| ContractText.PlanChoicePy | contract_text.py:190-231 | The tier is BASIC iff the upper-cased id mentions BASIC, and the period is semestral iff it mentions SEMESTRAL. The price is the fallback plan's. |
| ContractText.ReschedulePy | contract_text.py:233-239 | Both branches give the same text, whatever the plan. |
| ContractText.BonusPy | contract_text.py:241-245 | The bonus line appears iff PREMIUM occurs in the id with that exact case. |
| ContractText.ComposePy | contract_text.py:247-276 | Discount and loyalty come from the exact key only, with defaults "30%" and 6. The bonus follows exact-case PREMIUM. The company name defaults only when the key is absent. |
| ContractText.PlanChoicesCompared | contract_text.py:226-231 | The two composers agree on tier and price. They disagree on the period exactly when the id mentions both ANUAL and SEMESTRAL, and then TypeScript says annual. |
| ContractText.BonusCompared | contract_text.py:243 | A Python bonus line implies a TypeScript one. |
| ContractText.ComposersAgreeOnKeys | contract_text.py:247-258 | On the four exact keys both composers insert the same plan choice, discount, loyalty and bonus. |
| ContractText.CaseVariantComposedPy | contract_text.py:252-258 | For "Premium - Anual", Python shows the PREMIUM annual price of 100 but falls back to "30%" and 6 months, with no bonus line. |
| ContractText.CaseVariantComposedTs | nodejs/src/lib/contracts.ts:116-123 | For the same id and any date, TypeScript inserts "50%", 12 months and the bonus line. |
| Numbering.SequenceFormat | nodejs/src/lib/database.ts:109-110 | The padded sequence is all digits. It has exactly four digits below 10000, and from there on it is the plain decimal. |
| Numbering.SequenceRoundTrip | database.py:54-55 | The padded sequence reads back as its number. |
| Numbering.ContractNumberRoundTrip | nodejs/src/lib/database.ts:102-111 | A generated number starts with its year's count prefix and reads back as its sequence number. |
| Numbering.ContractNumberInjective | nodejs/src/lib/database.ts:109-110 | Different sequence numbers of one year give different contract numbers. |
| Numbering.ContractNumberYear | nodejs/src/lib/database.ts:105-107 | A number matches the `CTR-<year>-%` prefix of its own year and of no other year. |
| Store.WithPrefix | nodejs/src/lib/database.ts:105-107 | The numbers matching the year prefix are exactly those in the table that start with it. |
| Store.GenerateContractNumber | nodejs/src/lib/database.ts:102-111 | The result carries the year prefix and reads back as the year's count plus one. It is four digits long while the count is below 9999. |
| Store.CreateContract | nodejs/src/lib/database.ts:114-134 | The insert succeeds iff the generated number is not taken, and otherwise fails with a UNIQUE violation on that number. On success one row is appended with status active, empty tags and NULL for an empty signature. Earlier rows and the settings are unchanged. |
| Store.UpdateKeepsNumbers | nodejs/src/lib/database.ts:193-226 | An update never changes a contract number. |
| Store.ArchiveContract | nodejs/src/lib/database.ts:193-199 | The row with the number now has status archived and is otherwise unchanged. Every row with another number is unchanged, and the table keeps its length. The result is true iff some row has the number. |
| Store.RestoreContract | nodejs/src/lib/database.ts:202-208 | The row with the number now has status active and is otherwise unchanged. Every row with another number is unchanged, and the table keeps its length. The result is true iff some row has the number. |
| Store.UpdateContractTags | nodejs/src/lib/database.ts:220-226 | The row with the number now has the given tags and is otherwise unchanged. Every row with another number is unchanged, and the table keeps its length. The result is true iff some row has the number. |
| Store.RemoveNumber | nodejs/src/lib/database.ts:211-217 | The rows kept are exactly those with another number, and a table without the number is left as it is. |
| Store.RemoveNumberAt | nodejs/src/lib/database.ts:211-217 | With unique numbers, removing the number of row i removes that row alone and keeps the other rows in order. |
| Store.DeleteContract | nodejs/src/lib/database.ts:211-217 | Exactly the rows with the number go, whatever their status. The result is true iff one existed. |
| Store.DeleteKeepsOrder | nodejs/src/lib/database.ts:211-217 | With unique numbers, deleting an existing contract reports true and leaves the other rows in their order. |
| Store.GetAllContracts | nodejs/src/lib/database.ts:137-155 | The listing holds exactly the rows the filter admits, without the signature; 'active' also admits a NULL status. |
| Store.ListAllNewestFirst | nodejs/src/lib/database.ts:152 | Without a filter every row is listed, in reverse insertion order. |
| Store.NameLikeIgnoresCase | nodejs/src/lib/database.ts:165-166 | The name match ignores ASCII case on either side, and the empty pattern matches every name. |
| Store.SearchContracts | nodejs/src/lib/database.ts:158-177 | The search returns exactly the admitted rows whose name contains the pattern up to case. |
| Store.ListingIsSelection | nodejs/src/lib/database.ts:137-155 | For every status filter, the listing is the newest-first listing of the whole table narrowed to the admitted rows, in the same order. |
| Store.SearchIsSelection | nodejs/src/lib/database.ts:158-177 | For every status filter, the search result is the newest-first listing narrowed to the admitted rows whose name matches, in the same order. |
| Store.SearchNarrowsListing | nodejs/src/lib/database.ts:158-177 | The search result is the listing narrowed to matching names. |
| Store.GetContractByNumber | nodejs/src/lib/database.ts:180-190 | The lookup returns null iff no row has the number, and otherwise a row with that number, signature included. |
| Store.CreatedIsListedFirst | nodejs/src/lib/database.ts:114-155 | A created contract is listed first among all contracts and among active ones, and is found by its number. |
| Store.ArchiveMovesBetweenListings | nodejs/src/lib/database.ts:137-155 | Archiving puts the contract in the archived listing and removes its number from the active one. |
| Store.ArchiveIdempotent | nodejs/src/lib/database.ts:193-199 | Archiving twice reports true both times and leaves the same table. |
| Store.RestoreMovesBetweenListings | nodejs/src/lib/database.ts:202-208 | Restoring puts the contract into the active listing and takes it out of the archived one. |
| Store.ArchiveThenRestore | nodejs/src/lib/database.ts:193-208 | Archiving then restoring is restoring: an active row comes back unchanged, and the contract with the number ends active even if its status was NULL. |
| Store.DeleteThenGet | nodejs/src/lib/database.ts:180-217 | After deletion, the lookup by that number returns null. |
| Store.DenseMeansFresh | nodejs/src/lib/database.ts:102-134 | When a year's numbers are exactly 0001 to n, the generated number is unused and the insert succeeds. |
| Store.NumbersDiffer | nodejs/src/lib/database.ts:109-110 | Distinct sequence numbers give distinct contract numbers. |
| Store.CreatePreservesDense | nodejs/src/lib/database.ts:114-134 | Creating a contract keeps every dense year dense. |
| Store.CreatePreservesUnique | nodejs/src/lib/database.ts:114-134 | Creating a contract keeps contract numbers unique. |
| Store.DeleteBreaksNumbering | nodejs/src/lib/database.ts:102-217 | Count-based numbering collides after a deletion. Create two contracts of a year and delete the first: the table is no longer dense, and the next creation regenerates the second's number and fails on the UNIQUE constraint. |
| PyStore.GenerateContractNumber | database.py:41-55 | The Python number carries the year prefix and reads back as the year's count plus one. |
| PyStore.CreateContract | database.py:57-85 | The insert succeeds iff the number is unused, and the row is appended with the signature stored as given. Otherwise it fails with a UNIQUE violation. |
| PyStore.GetAllContracts | database.py:87-106 | The listing has one entry per row: position i holds the i-th newest row without its signature. |
| PyStore.SearchContracts | database.py:108-128 | The search returns exactly the rows whose name contains the pattern up to ASCII case. |
| PyStore.SearchIsMatching | database.py:108-128 | The search result is the newest-first listing narrowed to the rows whose name matches, in the same order. |
| PyStore.EmptySearchListsAll | database.py:108-128 | An empty search lists every contract. |
| PyStore.GetContractByNumber | database.py:130-150 | The lookup returns None iff the number is absent, and otherwise a row with that number. |
| PyStore.MirrorsSameNumbers | database.py:41-55 | Mirrored Python and TypeScript tables have the same number column. |
| PyStore.CreateMirrors | database.py:57-85 | From mirrored tables both implementations generate the same number. They succeed or fail together and stay mirrored, for any signature other than "". |
| PyStore.EmptySignatureDiverges | database.py:80 | An empty signature is stored as "" by Python and as NULL by TypeScript. |
| PyStore.ListingMirrors | database.py:87-106 | The Python listing has the length of the TypeScript unfiltered listing, and position by position it is that listing without status and tags. |
| Tags.TagsOf | nodejs/src/lib/database.ts:236-242 | A string is collected from a column iff it is the non-empty trim of one of its comma-separated pieces. |
| Tags.TagsAreTrimmed | nodejs/src/lib/database.ts:239-240 | A collected tag is non-empty and already trimmed. |
| Tags.EmptyColumnHasNoTags | nodejs/src/lib/database.ts:232 | An empty column yields no tags, so the query's `tags != ''` condition loses nothing. |
| Tags.Insert | nodejs/src/lib/database.ts:240-245 | Adding a tag to a strictly sorted set keeps it strictly sorted, and its members are the old ones plus the tag. |
| Tags.DistinctColumns | nodejs/src/lib/database.ts:231-233 | SELECT DISTINCT returns each non-empty tags value of the table once. |
| Tags.ColumnsCoverRows | nodejs/src/lib/database.ts:231-243 | A tag occurs in a distinct column iff it occurs in some row. |
| Tags.GetAllTags | nodejs/src/lib/database.ts:229-246 | The result is strictly sorted, and a string is in it iff it is a tag of some row. |
| Tags.AllTagsTrimmed | nodejs/src/lib/database.ts:229-246 | Every listed tag is trimmed and non-empty. |
| Tags.StrictlySortedUnique | nodejs/src/lib/database.ts:245 | Two strictly sorted sequences with the same members are equal, so sorting a set has one result. |
| Tags.TagsDependOnlyOnOccurrence | nodejs/src/lib/database.ts:229-246 | The tag list depends only on which tags occur, not on row order or repetitions. |
| Tags.SingleTag | nodejs/src/lib/database.ts:238-241 | A trimmed tag without commas is read back as itself. |
| Tags.TaggedContractListed | nodejs/src/lib/database.ts:220-246 | After an existing contract is tagged with one trimmed tag, that tag is listed. |
| Settings.InsertOrIgnore | nodejs/src/lib/database.ts:69 | INSERT OR IGNORE adds the key only when it is absent, and changes no other key. |
| Settings.Seed | nodejs/src/lib/database.ts:62-72 | Seeding adds the three company keys and sets each default only where the key was absent. |
| Settings.SeedIdempotent | nodejs/src/lib/database.ts:62-72 | Opening the database again seeds nothing more. |
| Settings.GetSetting | nodejs/src/lib/database.ts:249-253 | The result is the stored value, or "" for a missing key or a NULL value. |
| Settings.SetSetting | nodejs/src/lib/database.ts:256-259 | INSERT OR REPLACE sets the key to the value whatever it held, and changes no other key. |
| Settings.SetThenGet | nodejs/src/lib/database.ts:249-259 | What is set is read back ("" for NULL), and other keys read as before. |
| Settings.SeedKeepsSetValues | nodejs/src/lib/database.ts:62-72 | Seeding never overrides a value that was set. |
| Settings.FreshCompanySettings | nodejs/src/lib/database.ts:262-268 | A fresh database reports the seeded company data. |
| ContractsRoute.StatusFilter | nodejs/src/app/api/contracts/route.ts:19-24 | The filter is active iff the status is absent, empty or 'active', and archived iff it is 'archived'; any other value lists all. |
| ContractsRoute.Get | nodejs/src/app/api/contracts/route.ts:15-32 | The contracts are the newest-first listing of the table narrowed to the rows the status admits and, for a non-empty search, whose name matches. Tags are in the response iff `includeTags` is 'true'. They are then strictly sorted and contain exactly the tags of the rows. |
| ContractsRoute.DefaultHidesArchived | nodejs/src/app/api/contracts/route.ts:22-24 | Without a status, no archived contract is listed, and every active or NULL-status contract is. |
| ContractsRoute.UnknownStatusListsAll | nodejs/src/app/api/contracts/route.ts:19-24 | An unknown status behaves like 'all' and lists every row. |
| ContractsRoute.EmptySearchIsListing | nodejs/src/app/api/contracts/route.ts:22-24 | An empty search parameter is no search. |
| ContractsRoute.FirstMissing | nodejs/src/app/api/contracts/route.ts:47-55 | The result is the first required field that is absent or empty, and there is none iff all are present. |
| ContractsRoute.Post | nodejs/src/app/api/contracts/route.ts:42-70 | The response is 400 iff a required field is missing, naming the first one. It is 200 with the number iff the body is complete and the insert succeeds, and 500 otherwise. The table changes only on 200. |
| ContractsRoute.CompletePostCreates | nodejs/src/app/api/contracts/route.ts:42-62 | On a dense year a complete body creates the contract, which the default listing then shows first. |
| ContractsRoute.MissingNomeReportedFirst | nodejs/src/app/api/contracts/route.ts:47-55 | On any table and year, with the name missing the response names `nome` whatever else is missing, and the table is unchanged. |
| ContractsRoute.MissingPlanoReportedLast | nodejs/src/app/api/contracts/route.ts:47-55 | On any table and year, a missing plan is reported when every other field is present, and the table is unchanged. |
| SettingsRoute.GetAfterOpen | nodejs/src/app/api/settings/route.ts:9-12 | On an opened database, GET reports for each company key the value stored before opening ("" for NULL), or the default when the key was absent. |
| SettingsRoute.Put | nodejs/src/app/api/settings/route.ts:22-47 | An unreadable body gives 500 and changes nothing. Otherwise only the three company keys may change, and the response is the read-back of the new table. |
| SettingsRoute.PutThenGet | nodejs/src/app/api/settings/route.ts:22-39 | A field the body carries is read back as sent ("" for null), and a field it omits keeps its value. |
| SettingsRoute.EmptyPutIsGet | nodejs/src/app/api/settings/route.ts:9-39 | A PUT with no fields is a GET. |
| PdfLines.Latin1 | pdf_generator.py:210 | The result has the same length and is Latin-1. Latin-1 characters are kept and every other character becomes '?', so Latin-1 text is left alone. |
| PdfLines.Latin1Idempotent | pdf_generator.py:197 | Replacing twice is replacing once. |
| PdfLines.Prefix | pdf_generator.py:214-215 | `s[:n]` is a prefix of length min(\|s\|, n). |
| PdfLines.ClauseTitleOf | pdf_generator.py:181-186 | A clause title is drawn as one cell iff the line has no '-'. Otherwise it is drawn as the stripped parts before and after the first '-'. |
| PdfLines.ClassifySpec | pdf_generator.py:165-215 | A line is dropped iff it is a separator or a table line other than the header. The table is drawn iff the line is the header, and a clause title iff it mentions CLAUSULA. Subtitles are short, body text is the truncated Latin-1 text, and the empty-line gap is unreachable. |
| PdfLines.BodyLines | pdf_generator.py:192-215 | A non-table, non-clause line is a subtitle iff it looks like one and is shorter than 100 characters, and otherwise it is body text. |
| PdfLines.StepSpec | pdf_generator.py:151-163 | The skip flag is set by a CONTRATADA/MICAELA line and cleared by a "Doravante denominado" line. Trigger lines and skipped lines draw nothing. |
| PdfLines.FoldAppend | pdf_generator.py:151 | Processing a concatenation processes the parts one after the other, threading the skip flag. |
| PdfLines.RenderAppend | pdf_generator.py:148-229 | The same holds for the concrete line step. |
| PdfLines.RenderedItems | pdf_generator.py:148-229 | No drawn element is an empty-line gap. Body texts are Latin-1 with 1 to 300 characters, and subtitles are Latin-1 and shorter than 100. |
| PdfLines.SkippedBlockIsSilent | pdf_generator.py:162-163 | In skip mode nothing is drawn until the end marker. |
| PdfLines.StartLineSilent | pdf_generator.py:156-158 | The CONTRATADA/MICAELA line draws nothing and enters skip mode. |
| PdfLines.EndLineResumes | pdf_generator.py:159-161 | The end-marker line draws nothing and leaves skip mode. |
| PdfLines.HeaderBlockDropped | pdf_generator.py:155-163 | The whole header block, from the CONTRATADA line to the end marker, draws nothing and leaves skip mode off. |
| PdfLines.Base64Payload | pdf_generator.py:68-71 | Without a comma the payload is the whole string. With one, it is the text after the first comma up to the next comma or the end. |
| PdfLines.DataUriPayload | pdf_generator.py:68-69 | A data URI `<header>,<payload>` yields its payload. |

## Left out

- Database I/O, connections, transactions and concurrency are not modelled. Each operation is one atomic step on a value.
- `created_at` ordering is modelled as reverse insertion order. Ties between equal `CURRENT_TIMESTAMP` values, which SQLite may return in any order, are not modelled.
- Store.NameLike: SQLite LIKE is modelled as an ASCII case-insensitive substring test. The `%` and `_` wildcards inside the searched name are not interpreted.
- Numbering.YearPrefix: the count query's LIKE is modelled as an exact prefix test. SQLite's ASCII case folding of the prefix is not modelled, because the application writes only upper-case prefixes.
- Text.Upper: `toUpperCase`/`upper()` are modelled on ASCII letters only, and `.lower()` likewise. Non-ASCII case mappings are not modelled.
- PdfLines.IsPyUpper: `isupper`, `islower` and `isdigit` are modelled on ASCII and Latin-1 only.
- Tags.Insert: the ordering is lexicographic by code point. JavaScript's default `sort` compares UTF-16 code units, which differs only for characters beyond the Basic Multilingual Plane.
- The clock is a parameter: the year for numbering, the date for `formatDate`, and the `strftime` date string for Python.
- The fixed legal prose of the contract template is not modelled. The composers return the values they insert.
- The PDF layout (fonts, cells, colours, page breaks, the client box, the signature page), `render_comparison_table`, `render_signatures` and base64/PIL image decoding are not modelled. Neither are the ASCII fallback `except` branches, since Latin-1 replacement never raises.
- ContractText.PlanChoiceTs: built on the corrected lookup `Plans.GetPlanInfo`. For the names a plain object inherits from `Object.prototype` ("toString", "constructor", ...) the source as written prints period SEMESTRAL and price "undefined EUR/mês", while the model prints the ANUAL period and the BASIC - Anual price (tier PREMIUM in both).
- ContractText.ComposeTs: built on the corrected lookup. For the inherited names the source inserts "undefined" as the discount and as the loyalty months, and the plan choice above; the model inserts the BASIC - Anual values.
- ContractsRoute.Post: a body that is not JSON is one "no body" case. Non-string JSON values in fields are not modelled.
- SettingsRoute.Put: each field is a string or JSON null. Other JSON values are not modelled. For a boolean or object the source's `setSetting` throws after the earlier keys were written, giving a 500 with a partial update. A number is stored in the TEXT `value` column (database.ts:56-59) and read back as its decimal text.
- The other route files (`[id]`, `[id]/manage`, `[id]/pdf`), the React pages, `app.py` (the Streamlit front end) and the Python PDF wrapper are not part of this model.

## Findings

| source | as written | input that shows it | evidently intended | confidence | as-written member | corrected member |
|---|---|---|---|---|---|---|
| nodejs/src/lib/contracts.ts:68-69 | `plano in PLANOS` is also true for names inherited from `Object.prototype`, so `getPlanInfo` returns a function or object instead of a plan | `plano = "toString"` | only the four own keys match exactly; any other id goes to the substring fallback (BASIC - Anual for "toString") | not executed | Plans.GetPlanInfoAsWritten, Plans.InheritedNameResolvesToNoPlan | Plans.GetPlanInfo |
