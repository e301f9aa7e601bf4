# LitRes catalogue importer — a Dafny model

This project models the core of the ZhSh LitRes WordPress plugin. The plugin reads a LitRes
catalogue export, which is a semicolon-separated file with one book per row and an optional UTF-8
byte-order mark. It offers the catalogue's genres and authors as filters. It then imports the
matching books as posts, one page of 500 at a time, in steps driven by WP-Cron.

The model has five parts.

- **php_strings.dfy** (`PhpStrings`): the PHP string semantics the core relies on.
  - `trim` with PHP's default character list.
  - PHP truthiness of a string: `""` and `"0"` are false.
  - ASCII `strtolower`.
- **parser.dfy** (`Parser`): `Parser::extract_genres`, `extract_authors` and `parse_books`.
  - Each one is an imperative method with a loop over the file's rows.
  - Each method is proved equal to a specification function on the rows: `Facet` for the facet lists, and `Page(Matching(...))` for a page of books.
  - Lemmas prove what those functions mean:
    - The facet lists hold trimmed, truthy, distinct values, in order of first appearance.
    - A match passes both filters, and every complete row passes the empty filter.
    - Pages taken at offsets 0, n, 2n, … put together give all the matches.
    - A leading byte-order mark is skipped, and only one.
- **batch_processor.dfy** (`BatchProcessing`): `Batch_Processor`.
  - A class holds the persisted import options, the content store and a "next step scheduled" flag.
  - Its methods `StartImport`, `CountMatchingBooks`, `ProcessBatch`, `ImportBooksBatch`, `GetImportStatus` and `StopImport` are proved against pure functions: `Matching` (for the count), `Started`, `Step`, `ImportAll`, `Report` and `StoppedOptions`.
  - Lemmas about those functions prove what they mean:
    - The store stays free of duplicate book ids, and existing posts are never lost.
    - Re-importing a page creates nothing.
    - `processed` never runs ahead of `offset`.
    - A step advances the offset by exactly `BATCH_SIZE`, and every way a step can stop is described exactly.
- **scenarios.dfy** (`Scenarios`): a symbolic three-row catalogue. It shows a whole session: two steps, the second finding an empty page, and a stopped session that still imports.
- **autoloader.dfy** (`Autoload`) and **escape_html.dfy** (`HtmlEscape`): the class autoloader closure of `zhsh-litres.php` and the admin script's `escapeHtml`, as pure functions with their properties.

Side effects of the plugin become explicit data:

- **Files:** the file system is a map from path to bytes.
- **CSV tokenizer:** `fgetcsv` is a parameter `csv` that turns the bytes after the byte-order mark into rows.
- **WordPress options:** become an `Options` value whose fields are `Option`s. `None` means the option was never written.
- **Posts and terms:** form a `Store` value.
- **Insert success or failure:** whether `wp_insert_post` and `wp_insert_term` succeed for the k-th book of a page is an oracle parameter.

Where one might expect otherwise, the code does this, and the model follows it:

- `process_batch` never looks at the import status. A stopped import still imports when a step runs. One trigger is the admin page's direct AJAX driver (`includes/class-admin.php:240-248`), which calls `process_batch` whatever the status. See `StepIgnoresStatus` and `StoppedSessionStillImports`.
- Duplicate books are detected per record, by a lookup on the stored `zhsh_litres_book_id`. Genre and author terms are looked up by name for every book, with no in-memory cache.
- `start_import` does not clear a previous error message.
- `extract_genres` and `extract_authors` scan the whole file, with no cap on the number of rows, and so does the count of the total.
- An import reaches `completed` only on the step after the last page, the first step that finds no match left.
- The file declares `strict_types`. So when the file option was never written, `file_exists(false)` throws a TypeError, and `process_batch` ends without writing anything (outcome `Aborted`).

## Model

| member | source | states |
|---|---|---|
| PhpStrings.IsTrimChar | includes/class-parser.php:33 | definition: the characters PHP's `trim` strips by default (space, tab, LF, CR, NUL, vertical tab); `Trim`, `TrimLeftDropsOnlyTrimChars` and `TrimRightDropsOnlyTrimChars` are stated with it |
| PhpStrings.Truthy | includes/class-parser.php:32-34 | definition: a string is truthy unless it is `""` or `"0"`, the negation of `empty` (also used by the term blocks at includes/class-batch-processor.php lines 151 and 164); `ColumnValueIsTrimmedTruthyCell` and `ResolveTerm` are stated with it |
| PhpStrings.Trim | includes/class-parser.php:33 | the result is no longer than the input and has no PHP whitespace at either end, and text without such whitespace at its ends is returned unchanged |
| PhpStrings.TrimIsBothTrims | includes/class-parser.php:33 | trimming both ends is trimming the left end and then the right end, so the result is a slice of the input |
| Parser.AfterBom | includes/class-parser.php:23-27 | exactly the three bytes EF BB BF are skipped when the file starts with them, otherwise the whole file is read |
| Parser.DataRows | includes/class-parser.php:23-31 | definition: the rows read after the byte-order mark, without the header row; its meaning is proved by `BomIsSkipped`, `OnlyOneBomIsSkipped` and `HeaderOnlyFileHasNoData` |
| Parser.DataRowsAt | includes/class-parser.php:17-21 | definition: a file that cannot be opened has no rows; `ExtractColumn`, `ParseBooks` and `CountMatchingBooks` are proved to return nothing for it |
| Parser.BomIsSkipped | includes/class-parser.php:83-89 | a file with a byte-order mark yields the same data rows as the same file without it |
| Parser.OnlyOneBomIsSkipped | includes/class-parser.php:84-87 | a doubled byte-order mark leaves the second one in the data |
| Parser.HeaderOnlyFileHasNoData | includes/class-parser.php:29 | the first row is always consumed as the header, so a file of one row has no data |
| Parser.ExtractColumn | includes/class-parser.php:15-42 | the facet scan returns exactly `Facet` of the file's data rows for that column, and nothing for a file that cannot be opened |
| Parser.ExtractGenres | includes/class-parser.php:15-42 | the genre list is the facet of column 3 |
| Parser.ExtractAuthors | includes/class-parser.php:44-71 | the author list is the facet of column 12 |
| Parser.ColumnValue | includes/class-parser.php:32-34 | definition: what one row contributes to a facet; its meaning is proved by `ColumnValueIsTrimmedTruthyCell` |
| Parser.ColumnValues | includes/class-parser.php:32-36 | at most one value per row is kept, and every kept value is truthy |
| Parser.ColumnValueIsTrimmedTruthyCell | includes/class-parser.php:32-34 | a row contributes to a facet exactly when its trimmed cell is truthy, and it contributes the trimmed cell |
| Parser.Facet | includes/class-parser.php:31-41 | definition: the distinct contributed values; its meaning is proved by `FacetMembers`, `FacetIsOrderedAndDistinct`, `FacetIgnoresRow` and `FacetSnoc` |
| Parser.FacetMembers | includes/class-parser.php:31-41 | a value is in the facet if and only if some data row contributes it |
| Parser.FacetIsOrderedAndDistinct | includes/class-parser.php:35-41 | the facet has no duplicates and lists values in order of their first appearance in the file |
| Parser.FacetIgnoresRow | includes/class-parser.php:32-34 | a row whose cell is missing, empty or only whitespace has no effect on the facet |
| Parser.FacetSnoc | includes/class-parser.php:35 | a new row appends its value only if the value is not already listed, as a keyed array assignment does |
| Parser.Dedup | includes/class-parser.php:35-41 | definition: keyed assignment followed by `array_unique`; its meaning is proved by `DedupMembers`, `DedupDistinct` and `DedupFirstAppearanceOrder` |
| Parser.DedupMembers | includes/class-parser.php:41 | duplicate removal keeps exactly the values of its input |
| Parser.DedupDistinct | includes/class-parser.php:41 | duplicate removal leaves no value twice |
| Parser.DedupFirstAppearanceOrder | includes/class-parser.php:41 | duplicate removal keeps the first occurrence of each value, in input order |
| Parser.DedupOfDistinct | includes/class-parser.php:35-41 | the final `array_unique` changes nothing on a list that is already distinct |
| Parser.IndexOf | includes/class-parser.php:35 | the first position of a value in a list |
| Parser.Cell | includes/class-parser.php:96-97 | definition: a trimmed cell, or `''` when the column is missing |
| Parser.HasRequiredColumns | includes/class-parser.php:92-94 | definition: columns 0, 1 and 3 are set |
| Parser.Passes | includes/class-parser.php:99-100 | definition: an empty selection or strict membership; `MatchingPassesFilter` proves every match passes |
| Parser.Matches | includes/class-parser.php:92-102 | definition: the row test; `RowMatches` is proved to agree with it and `MatchingMembers` proves it selects exactly the returned books |
| Parser.ToBook | includes/class-parser.php:108-117 | definition: the record of a row with trimmed fields; `MatchingMembers` proves every returned book is one |
| Parser.ParseBooks | includes/class-parser.php:73-125 | the scan returns exactly the page of matching books from `offset` (a negative offset skips nothing), at most `limit` of them (none when limit <= 0), and none for a file that cannot be opened |
| Parser.ScanPage | includes/class-parser.php:91-120 | the loop over the data rows, skipping `offset` matches and stopping at `limit` books, returns exactly the page of the matches |
| Parser.RowMatches | includes/class-parser.php:92-100 | the row test (columns 0, 1 and 3 present, trimmed category and author pass their filters) holds exactly when the row matches |
| Parser.Matching | includes/class-parser.php:91-120 | there are never more matching books than rows |
| Parser.MatchingAppend | includes/class-parser.php:91-120 | matching is row by row: the matches of two row blocks are the matches of each, in file order |
| Parser.MatchingSnoc | includes/class-parser.php:92-120 | one more row adds its book exactly when it has columns 0, 1 and 3 and passes both filters |
| Parser.MatchingMembers | includes/class-parser.php:92-117 | a book is matched if and only if it is the record built from some complete, passing row |
| Parser.MatchedFrom | includes/class-parser.php:92-117 | every returned book is the record of some data row that has the required columns and passes the filters |
| Parser.MatchedRow | includes/class-parser.php:92-117 | every data row that has the required columns and passes the filters contributes its record |
| Parser.MatchingPassesFilter | includes/class-parser.php:96-102 | every matched book's category is one of the selected genres (or none is selected), and likewise its author |
| Parser.WildcardMatchesEveryCompleteRow | includes/class-parser.php:99-100 | with no genre and no author selected, every row with columns 0, 1 and 3 is a match |
| Parser.FilterComplete | includes/class-parser.php:92-94 | only rows with columns 0, 1 and 3 are kept |
| Parser.Page | includes/class-parser.php:103-119 | the page length is min(limit, matches after offset), with negative values clamped to zero |
| Parser.PageElements | includes/class-parser.php:103-119 | the k-th book of a page is match offset+k (a negative offset counts as 0) |
| Parser.PageSlice | includes/class-parser.php:103-119 | from an offset within the matches, a page is the slice of at most `limit` matches from there; from an offset past them, it is empty |
| Parser.SkipStep | includes/class-parser.php:103-106 | a skipped match keeps the skip counter equal to min(offset, matches seen) |
| Parser.TakeStep | includes/class-parser.php:108-119 | a taken match is appended, and the page stays within the limit |
| Parser.PageOfScan | includes/class-parser.php:91 | stopping at the end of the file or at `limit` books gives exactly the page |
| Parser.PagesReassemble | includes/class-batch-processor.php:94-107 | the pages from a given offset, one per step, concatenate to all the matches from that offset |
| Parser.PagesFromStep | includes/class-batch-processor.php:94-107 | a step at an offset inside the matches reads the next page and continues from offset + page size |
| Parser.PagesFromEnd | includes/class-batch-processor.php:96-99 | a step at an offset past the last match reads an empty page, and the paging ends |
| Parser.PagingCoversAllMatches | includes/class-batch-processor.php:94-107 | stepping the offset by the page size from 0 reads every match exactly once and in order |
| BatchProcessing.ResolveTerm | includes/class-batch-processor.php:150-174 | a term is attached if and only if the name is truthy and the term exists or its insert succeeds; the attached term is the one under that exact name; an existing term leaves the taxonomy unchanged |
| BatchProcessing.ResolveTermGrowsTaxonomy | includes/class-batch-processor.php:150-174 | existing terms keep their ids, only the name itself can be added, and a new id is fresh and below the next free id |
| BatchProcessing.HasBook | includes/class-batch-processor.php:119-129 | definition: the `get_posts` lookup of a stored book id; `ImportOne` and `ReimportCreatesNothing` use it for skipping |
| BatchProcessing.ImportOne | includes/class-batch-processor.php:117-176 | a book counts as imported if and only if its id is not yet stored and its post insert succeeds; then exactly one post with that id is appended, otherwise nothing changes |
| BatchProcessing.ImportAll | includes/class-batch-processor.php:114-188 | the count is at most the page size, and the store grows by exactly the count of posts, with the old posts kept in front |
| BatchProcessing.ImportAllSnoc | includes/class-batch-processor.php:117-182 | the books of a page are imported one after the other, in page order |
| BatchProcessing.ImportOneKeepsValid | includes/class-batch-processor.php:119-176 | one import keeps book ids unique and term ids below the next free id |
| BatchProcessing.ImportAllKeepsValid | includes/class-batch-processor.php:114-188 | importing a page keeps book ids unique and term ids below the next free id |
| BatchProcessing.PostsOnlyGrow | includes/class-batch-processor.php:114-188 | a stored book is never removed by an import |
| BatchProcessing.ImportAllCoversPage | includes/class-batch-processor.php:119-143 | after a page is imported, every book whose insert succeeded is stored |
| BatchProcessing.ReimportCreatesNothing | includes/class-batch-processor.php:119-129 | importing books that are all stored already creates nothing and counts zero |
| BatchProcessing.CountBoundedByAcceptedInserts | includes/class-batch-processor.php:141-176 | the count never exceeds the number of successful post inserts |
| BatchProcessing.InsertsAccepted | includes/class-batch-processor.php:132-143 | the number of successful inserts among the first n books is at most n |
| BatchProcessing.ImportOneAttachesTerms | includes/class-batch-processor.php:150-174 | the new post has a genre (author) term if and only if the name is truthy and the term exists or was inserted; an existing term is reused; a new term's id was not in use |
| BatchProcessing.SessionPage | includes/class-batch-processor.php:81-94 | definition: the page read from the stored options; its meaning is proved by `StepReadsPage` and `SessionPageReads` |
| BatchProcessing.Step | includes/class-batch-processor.php:80-112 | definition: `process_batch` as a transition; its meaning is proved by `StepAdvances`, `StepStopsWithoutProgress`, `StepStatusWrites`, `StepIgnoresStatus`, `StepKeepsValid` and `StepKeepsProgressBound` |
| BatchProcessing.Advance | includes/class-batch-processor.php:96-107 | definition: a step after its page is read; its meaning is proved by `AdvanceIgnoresStatus` and `StepAdvances` |
| BatchProcessing.StepAdvances | includes/class-batch-processor.php:101-107 | a non-empty page moves the offset by exactly 500 and `processed` by the imported count, which is at most the page size, and writes nothing else |
| BatchProcessing.StepStopsWithoutProgress | includes/class-batch-processor.php:87-99 | a missing file, an empty page and an unset file option each happen exactly in their case, write status `error` with the message, `completed`, or nothing, and never touch the store |
| BatchProcessing.StepStatusWrites | includes/class-batch-processor.php:87-111 | a step writes status only `error` or `completed`, so it never sets `running` |
| BatchProcessing.StepReadsPage | includes/class-batch-processor.php:93-94 | once the file exists, a step reads the page of `BATCH_SIZE` matches from the stored offset, with the stored filters (empty when unset) |
| BatchProcessing.SessionPageReads | includes/class-batch-processor.php:81-94 | the page a step reads depends only on the stored file, filters and offset |
| BatchProcessing.StepIgnoresStatus | includes/class-batch-processor.php:80-111 | the stored status has no effect on what a step imports or on the counters it writes |
| BatchProcessing.AdvanceIgnoresStatus | includes/class-batch-processor.php:96-107 | after the page is read, the stored status changes neither the import nor the counters; only `completed` replaces it |
| BatchProcessing.CompletedStepIsIdempotent | includes/class-batch-processor.php:96-99 | after a step has found the page empty, further steps change nothing |
| BatchProcessing.Started | includes/class-batch-processor.php:26-32 | definition: the options written by `start_import`; its meaning is proved by `StartEstablishesProgressBound` |
| BatchProcessing.StoppedOptions | includes/class-batch-processor.php:201 | definition: the options written by `stop_import`; its meaning is proved by `StopKeepsCounters` |
| BatchProcessing.Report | includes/class-batch-processor.php:190-197 | definition: `get_import_status` with the option defaults; its meaning is proved by `FreshSiteReportsIdle` and `StopKeepsCounters` |
| BatchProcessing.StartEstablishesProgressBound | includes/class-batch-processor.php:26-32 | starting sets status running, processed 0 and the total, keeps the old error, and leaves processed not ahead of offset |
| BatchProcessing.StepKeepsProgressBound | includes/class-batch-processor.php:101-107 | every step keeps `processed` not ahead of `offset` |
| BatchProcessing.StepKeepsValid | includes/class-batch-processor.php:80-112 | no step stores one book id on two posts or reuses a term id, so this holds across any number of steps and sessions |
| BatchProcessing.StopKeepsCounters | includes/class-batch-processor.php:199-202 | stopping changes only the reported status |
| BatchProcessing.FreshSiteReportsIdle | includes/class-batch-processor.php:190-197 | with no option written, the status reads idle, 0 of 0, with no error |
| BatchProcessing.BatchProcessor.constructor | includes/class-batch-processor.php:14-16 | the processor starts from the persisted options, store and schedule |
| BatchProcessing.BatchProcessor.StartImport | includes/class-batch-processor.php:18-43 | returns the number of matching books, writes the session options (`Started`), keeps the store and leaves a step scheduled |
| BatchProcessing.BatchProcessor.CountMatchingBooks | includes/class-batch-processor.php:45-78 | the count equals the number of books `parse_books` would match over the whole file, and is zero for a file that cannot be opened |
| BatchProcessing.BatchProcessor.ProcessBatch | includes/class-batch-processor.php:80-112 | the new options and store are those of `Step`, and a further step is scheduled exactly when a page was imported |
| BatchProcessing.BatchProcessor.ImportBooksBatch | includes/class-batch-processor.php:114-188 | the store and the returned count are those of `ImportAll` over the page, and the options are untouched |
| BatchProcessing.BatchProcessor.ImportBook | includes/class-batch-processor.php:117-176 | one pass of the loop body changes the store and the count exactly as `ImportOne`, and leaves the options alone |
| BatchProcessing.BatchProcessor.AttachTerm | includes/class-batch-processor.php:150-161 | the lookup-or-insert of one term agrees with `ResolveTerm` |
| BatchProcessing.BatchProcessor.GetImportStatus | includes/class-batch-processor.php:190-197 | the status snapshot reads the options with their defaults |
| BatchProcessing.BatchProcessor.StopImport | includes/class-batch-processor.php:199-202 | the pending step is cleared, status becomes `stopped`, and nothing else changes |
| Scenarios.FictionFilter | includes/class-parser.php:92-102 | of a catalogue with rows Fiction, Poetry, Fiction, the genre filter Fiction passes the first and third |
| Scenarios.FictionMatches | includes/class-parser.php:91-121 | those two rows are the matches, in file order |
| Scenarios.TwoNewBooksImported | includes/class-batch-processor.php:117-176 | two books with distinct ids both import into an empty store |
| Scenarios.FirstPageHoldsBoth | includes/class-parser.php:91-120 | the first page of the Fiction import holds the two Fiction books, which have different ids |
| Scenarios.TwoBookStep | includes/class-batch-processor.php:94-107 | a page of two new books imports both, moves the offset by 500 and `processed` by 2 |
| Scenarios.FictionFirstStep | includes/class-batch-processor.php:94-107 | the first step of the Fiction session on a two-book page leaves offset 500 and processed 2 |
| Scenarios.FirstStepImportsBoth | includes/class-batch-processor.php:80-107 | on the three-row catalogue, the first step imports both Fiction books |
| Scenarios.SecondStepCompletes | includes/class-batch-processor.php:94-99 | the step at offset 500 finds the page empty, sets `completed` and leaves the store alone |
| Scenarios.FictionImportNeedsTwoSteps | includes/class-batch-processor.php:18-111 | the first step imports both books and reports running 2 of 2; only the second step reports completed |
| Scenarios.StoppedSessionStillImports | includes/class-batch-processor.php:80-111 | a step run after `stop_import` still imports, advances the offset, and the status stays stopped |
| PhpStrings.TrimLeft | includes/class-parser.php:33 | the result is a suffix of the input that does not start with PHP whitespace |
| PhpStrings.TrimLeftDropsOnlyTrimChars | includes/class-parser.php:33 | every character removed from the front is PHP whitespace |
| PhpStrings.TrimRight | includes/class-parser.php:33 | the result is a prefix of the input that does not end with PHP whitespace |
| PhpStrings.TrimRightDropsOnlyTrimChars | includes/class-parser.php:33 | every character removed from the end is PHP whitespace |
| PhpStrings.LowerChar | zhsh-litres.php:41 | each ASCII capital becomes its own lower-case letter, and every other character is unchanged |
| Autoload.DashesForUnderscores | zhsh-litres.php:41 | every underscore becomes a dash, and every other character stays in place |
| Autoload.Lower | zhsh-litres.php:41 | the name is lowered character by character, keeping its length |
| Autoload.StrncmpEqual | zhsh-litres.php:35-36 | definition: `strncmp(...) === 0`; its meaning is proved by `PrefixTest` |
| Autoload.Stem | zhsh-litres.php:41 | definition: `strtolower(str_replace('_', '-', ...))`; its meaning is proved by `DashesForUnderscores`, `Lower` and `CaseInsensitive` |
| Autoload.ClassFile | zhsh-litres.php:31-41 | definition: the closure from class name to file path; its meaning is proved by `ForeignClassLoadsNothing`, `NamespacedClassFile`, `BackslashesKept`, `SameFileIffSameStem` and `CaseInsensitive` |
| Autoload.Autoloaded | zhsh-litres.php:43-45 | a file is required if and only if the class maps to a file and that file exists |
| Autoload.PrefixTest | zhsh-litres.php:35-38 | the `strncmp` test holds exactly when the class name starts with `ZhSh\Litres\` |
| Autoload.ForeignClassLoadsNothing | zhsh-litres.php:35-38 | a class outside the namespace maps to no file |
| Autoload.NamespacedClassFile | zhsh-litres.php:32-41 | a namespaced class maps to `includes/class-` + the transformed name after the prefix + `.php` |
| Autoload.BackslashesKept | zhsh-litres.php:41 | a backslash in the relative name stays a backslash in the file name |
| Autoload.SameFileIffSameStem | zhsh-litres.php:41 | two namespaced classes share a file if and only if their transformed names agree |
| Autoload.CaseInsensitive | zhsh-litres.php:41 | names differing only in letter case map to the same file |
| Autoload.StemOfBatchProcessor | zhsh-litres.php:41 | `Batch_Processor` becomes `batch-processor` |
| Autoload.ClassFileOfStem | zhsh-litres.php:40-41 | the file is determined by the transformed relative name alone |
| Autoload.BatchProcessorFile | zhsh-litres.php:31-41 | `ZhSh\Litres\Batch_Processor` loads `includes/class-batch-processor.php` |
| HtmlEscape.Entity | admin/assets/js/admin.js:432-438 | every entity starts with `&` and ends with `;` |
| HtmlEscape.EscapeChar | admin/assets/js/admin.js:432-439 | one character's replacement is never empty and contains none of `< > " '` |
| HtmlEscape.Escape | admin/assets/js/admin.js:431-440 | the output is at least as long as the input and contains none of `< > " '` |
| HtmlEscape.UnescapeEscape | admin/assets/js/admin.js:432-439 | decoding the five entities recovers the input exactly |
| HtmlEscape.UnescapeChar | admin/assets/js/admin.js:432-439 | each character's replacement decodes back to that character, whatever follows |
| HtmlEscape.EscapeInjective | admin/assets/js/admin.js:432-439 | two texts escape to the same output if and only if they are equal |
| HtmlEscape.EscapeAppend | admin/assets/js/admin.js:439 | escaping works character by character, in order: the escape of a concatenation is the concatenation of the escapes |
| HtmlEscape.PlainTextUnchanged | admin/assets/js/admin.js:439 | text with none of the five characters is copied unchanged |
| HtmlEscape.LengthGrowsIffSpecial | admin/assets/js/admin.js:432-439 | the output is exactly as long as the input if and only if the input has none of `& < > " '` |
| HtmlEscape.SinglePass | admin/assets/js/admin.js:439 | a special character on its own becomes exactly its entity |
| HtmlEscape.EntityEscapedOnlyOnce | admin/assets/js/admin.js:439 | `<` becomes `&lt;`, and only a second call turns that into `&amp;lt;`, so one call makes a single pass |

## Left out

- The CSV tokenizer (`fgetcsv` with `;`, quoting and multi-line fields) is a parameter. Blank lines, which `fgetcsv` returns as a row with one null cell, are treated like any row too short for the columns read.
- `fopen` failing for a file that exists, and `fread`/`rewind` errors: a path is readable exactly when it is in the file map.
- Parser.ToBook: the price cell is kept as its text (`PriceText`), not cast with `(float)`, because floating point is not modelled.
- BatchProcessing.ImportOne: the post title, content and excerpt are stored as the raw title and description. `wp_strip_all_tags`, `wp_kses_post` and `wp_trim_words` are WordPress library code, and the excerpt is not stored.
- BatchProcessing.ImportOne: the duplicate lookup compares book ids exactly. WordPress's own handling of an empty `meta_value` in `get_posts` is library code.
- BatchProcessing.ResolveTerm: `get_term_by('name', …)` is an exact-name lookup. Database collation, case folding and slug clashes inside `wp_insert_term` are library code and appear only as the oracle's success or failure.
- `wp_cache_flush` (every 100 imports and at the end of a page) and `@ini_set` have no effect on the modelled state and are left out.
- BatchProcessing.BatchProcessor.StartImport: `wp_next_scheduled`, `wp_schedule_single_event`, `spawn_cron` and `wp_clear_scheduled_hook` are reduced to the `scheduled` flag. Event times and the cron runner itself are not modelled.
- BatchProcessing.BatchProcessor.ProcessBatch: a step run by WP-Cron has used up its own event, so after a step that ends missing file, empty page or unset option nothing is pending. The model keeps the old `scheduled` flag there, because the cron runner is not modelled.
- BatchProcessing.BatchProcessor.StartImport: the checks of the admin handler (`includes/class-admin.php:195-201`: the file exists and at least one genre is chosen) are not assumed. `start_import` checks nothing itself, so its model is stated for every input.
- `time()` and the cron delay of two seconds are clocks and are left out.
- The admin pages and AJAX handlers (`includes/class-admin.php`): nonces, capabilities, uploads and JSON responses are not part of this model.
- Concurrency: two steps running at once (a cron step and the admin page's direct driver) are not modelled. Each step is atomic here.
- HtmlEscape.Escape: characters are Dafny `char`s, not JavaScript UTF-16 code units. None of the five characters is a surrogate, so the replacement is the same.
- Autoload.Autoloaded: the autoloader's `require` of the found file, and the plugin directory constant, are parameters (`pluginDir`, the set of existing files).
