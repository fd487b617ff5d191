# A Dafny model of the DMS pipeline and the MyEverything `find` builders

This project models two parts of one repository.

**The document-management system (DMS)** under `dms_util/` keeps one
aggregate, the state file `.dms_state.json`. It holds metadata, an
ordered list of categories, and the documents keyed by path. A chain of
run-to-completion stages reads and writes it:

- `dms_init.py` writes a fresh state.
- `dms_scan.py` compares the Doc directory with the stored documents and
  reports new, changed and missing files.
- `dms_image_to_text.py` converts images, PDFs and Word files into
  `md_outputs/`.
- `dms_summarize.py` asks a language model for a summary and a category
  for each new or changed file and writes a pending file.
- `dms_review.py` lets the user approve, edit, skip or quit over the
  pending summaries and writes the approved file.
- `dms_apply.py` merges the approved summaries into the state and
  re-renders the index.
- `dms_categories.py` and `dms_categories_interactive.py` add, move,
  rename and delete categories.
- `dms_render.py` and `dms_render_iphone.py` group the documents by
  category into the HTML index.
- `dms_backfill_file_mtime.py` fills in missing file modification times.

Each stage is a module (`Scan`, `ImageToText`, `Summarize`, `Review`,
`Apply`, `Categories`, `CategoriesMenu`, `Render`, `RenderIphone`,
`Init`, `Backfill`). The state is the datatype `DmsState.State`. The
filesystem is a map from relative path to a file's digest, text, size
and modification time. The stages that work by loops are methods with
loop invariants, proved equal to a specification function. The
properties are proved about those functions as lemmas. They include
disjoint classification, no duplicate categories, "nothing else
changes", order-preserving subsequences and count identities. Each
stage's `main` returns its exit code and what it writes: a method
where the stage loops, and a function (`Scan.ScanMain`) where it does
not.

**The MyEverything `find` front ends** are four Tk windows that build a
`find` command from a form:

- `MyEverything.py` is modelled by `FindBasic`: an argument list run
  without a shell.
- `MyEverything/MyEverything.py` is modelled by `FindFilters` and the
  class `FindFilters.FinderWindow`. It uses a filter table, a shell line
  when the other arguments hold a pipe, and a status ladder.
- `MyEverything/MyEverything.py-chatgpt.py` is modelled by `FindShell`
  and `FindResults.ResultsPanel`. It builds a quoted shell line and fills
  a results table.
- `MyEverything/MyEverything.py.trashed.by.claude.py` is modelled by
  `FindShell` and `FindTrashed.SearchPanel`. It has the same builder, a
  worker, an output queue and a final status.

The central property of the shell builders is about the shell itself.
`Shlex` models `shlex.quote` and the quoting and word-splitting rules of
the POSIX Shell Command Language (sections 2.2 and 2.3). With it, the
model proves that the line handed to `bash` is read back as exactly the
intended `find` argument list.

Shared helpers are in three modules:

- `Strings` gives Python's `strip`, `split`, `PurePath.name`, `stem` and
  `suffix`, integer formatting, and `lower`/`upper` and `int()` restricted
  to ASCII letters and digits, and the sequence identities (regrouping,
  cutting and splicing) that the proofs of every module use.
- `Order` gives Python's string order and its stable sort.
- `FindArgs` gives the flag/value pairs and the result rows.

The model follows the code, also where the code does something a reader
might not expect:

- A document whose stored hash is missing or empty is reported as
  changed.
- The scanner has no ignore filter.
- The summarizer has no retry loop.
- A file inside a hidden directory is scanned; only a file whose own
  name starts with `.` is skipped.
- PDF conversions are written as `<stem>.md`, but the summarizer only
  looks for `.txt` conversions.

The cross-stage consequence of a missing hash is proved as a lemma
(`Scan.EmptyStoredHashIsChanged`). A changed file reaches the state with
the hash `""`, so the next scan reports it as changed again.

The interactive manager's hints suggest names such as
`Archived-Workflows`. `check_similar_names` warns about exactly those
names, because they contain an existing category
(`CategoriesMenu.PrefixedNameWarns`).

## Model

| member | source | states |
|---|---|---|
| Scan.HashOf | dms_util/dms_scan.py:20-26 | the hash recorded for a file starts with `sha256:` and so is never empty |
| Scan.CollectDiskFiles | dms_util/dms_scan.py:67-76 | the walk loop collects, in walk order, every regular file whose own name does not start with `.`, keyed by its `./`-relative path |
| Scan.DiskFilesExactly | dms_util/dms_scan.py:67-76 | a path is on the disk listing if and only if some walked, visible file has it |
| Scan.DiskFilesDistinct | dms_util/dms_scan.py:67-76 | distinct walked files never share a listing path |
| Scan.DiskPathsAreVisible | dms_util/dms_scan.py:67-76 | the listed paths are exactly the paths of the visible walked files |
| Scan.FirstOriginalIsFirst | dms_util/dms_scan.py:93-104 | the original found for a readable version is absent exactly when no other file carries its stem, and otherwise is the first such file in listing order |
| Scan.FindOriginal | dms_util/dms_scan.py:93-104 | the inner search loop returns that first matching original |
| Scan.PairReadables | dms_util/dms_scan.py:78-108 | the pairing loop leaves exactly the readable-version map and orphan set that `PairingOf` defines over all listed files, so the pairing lemmas hold for it |
| Scan.PairsAreFirstMatches | dms_util/dms_scan.py:78-108 | every original in the readable-version map lies outside `md_outputs/` and pairs with the text file it is mapped to |
| Scan.LastReadableWins | dms_util/dms_scan.py:78-108 | the text file an original is mapped to is the last listed one that pairs with it |
| Scan.CandidatesArePaired | dms_util/dms_scan.py:78-108 | every readable file with a matching original leaves that original in the pairing map |
| Scan.OrphansExactly | dms_util/dms_scan.py:78-108 | a path is an orphan if and only if it is a listed `md_outputs/*.txt` file for which no original exists |
| Scan.ClassifyFiles | dms_util/dms_scan.py:110-161 | the classification loop returns exactly `NewFilesOf` and `ChangedFilesOf` of the listed files, in listing order, so the classification lemmas hold for it |
| Scan.NewFilesExactly | dms_util/dms_scan.py:110-130 | an entry is new if and only if it comes from a listed file outside `md_outputs/` that the state does not track |
| Scan.ChangedFilesExactly | dms_util/dms_scan.py:131-161 | an entry is changed if and only if it comes from a tracked listed file whose stored hash differs from the fresh one |
| Scan.NoneNew | dms_util/dms_scan.py:110-161 | when every listed file is tracked, no file is reported new |
| Scan.NoneChanged | dms_util/dms_scan.py:110-161 | when every stored hash matches, no file is reported changed |
| Scan.FindMissing | dms_util/dms_scan.py:163-169 | the missing-file loop returns, in state order, the tracked paths absent from the listing |
| Scan.MissingExactly | dms_util/dms_scan.py:163-169 | an entry is missing if and only if its path is tracked and absent, and it carries the category the state records |
| Scan.NoneMissing | dms_util/dms_scan.py:163-169 | when every tracked path is on the listing, nothing is missing |
| Scan.ScanDirectory | dms_util/dms_scan.py:52-171 | the whole scan returns the report specified by the listing and the state |
| Scan.ScanNewFiles | dms_util/dms_scan.py:52-171 | the new files of the report are exactly the entries of visible, untracked files outside `md_outputs/` |
| Scan.ScanChangedFiles | dms_util/dms_scan.py:52-171 | the changed files of the report are exactly the entries of visible, tracked files whose hash changed |
| Scan.ScanMissingFiles | dms_util/dms_scan.py:52-171 | the missing files of the report are exactly the tracked paths no visible file has |
| Scan.ChangedIffHashDiffers | dms_util/dms_scan.py:131-161 | a tracked, visible file outside `md_outputs/` is reported changed if and only if its stored hash is not its fresh hash |
| Scan.NewIffUntracked | dms_util/dms_scan.py:118-130 | a listed file outside `md_outputs/` is reported new if and only if it is untracked |
| Scan.EmptyStoredHashIsChanged | dms_util/dms_scan.py:131-138 | a tracked file whose stored hash is empty is always reported changed |
| Scan.HiddenFileNeverScanned | dms_util/dms_scan.py:72-73 | a file whose name starts with `.` is never new or changed, and is reported missing when the state tracks it |
| Scan.MdOutputsNeverTracked | dms_util/dms_scan.py:112-114 | nothing under `md_outputs/` is reported new or changed |
| Scan.ReportDisjoint | dms_util/dms_scan.py:52-171 | no path is both new and changed, and no missing path is new or changed |
| Scan.ScanIdempotent | dms_util/dms_scan.py:52-171 | when the state tracks every visible file with its current hash and nothing else, the scan reports nothing |
| Scan.Preview | dms_util/dms_scan.py:178-196 | a group shows its first ten paths at most, the rest is counted as more, and `--status` shows only counts |
| Scan.PrintReport | dms_util/dms_scan.py:173-204 | the total counts all three groups, and the report is up to date exactly when all three are empty |
| Scan.CheckForImages | dms_util/dms_scan.py:206-210 | the images found are exactly the new files with an image suffix |
| Scan.ScanMain | dms_util/dms_scan.py:212-278 | a missing directory exits 1; otherwise the scan file is written exactly when not in `--status` mode and the report is not empty, and it holds the report, with the image hint computed from its new files |
| Summarize.ScanItems | dms_util/dms_summarize.py:221-222 | the files to summarize are the scan's new files, with hash and size, followed by its changed files, without them |
| Summarize.AlreadyDone | dms_util/dms_summarize.py:228-240 | after a readable pending file, the done set is exactly the paths of its summaries; otherwise it is empty |
| Summarize.FilesToProcess | dms_util/dms_summarize.py:242-243 | the files to process are exactly the scanned files whose path is not done |
| Summarize.FilesToProcessKeepsOrder | dms_util/dms_summarize.py:242-243 | the filter keeps the scan's order |
| Summarize.ReadFileContent | dms_util/dms_summarize.py:45-52 | a text file gives its whole text when shorter than 2000 characters, and otherwise its first 2000 characters; any other file gives the `[Binary file: name]` placeholder |
| Summarize.FindTextConversion | dms_util/dms_summarize.py:54-69 | a conversion is found if and only if `md_outputs/<name>.txt` or `md_outputs/<stem>.txt` exists; the full-name one is preferred, and its text is clipped to 2000 characters |
| Summarize.RecordedConversion | dms_util/dms_summarize.py:266-274 | the readable version recorded for a converted file is a `./md_outputs/….txt` path |
| Summarize.ContentAndRecordCanDisagree | dms_util/dms_summarize.py:54-69 | when both conversions exist, the content is read from the full-name file while the stem file is recorded as the readable version |
| Summarize.NonTxtConversionIgnored | dms_util/dms_summarize.py:54-69 | adding a file that does not end in `.txt` changes neither the content found nor the recorded conversion |
| Summarize.FindImageForTextFile | dms_util/dms_summarize.py:157-183 | only a `.txt` file has an image; the name without `.txt` is taken as is when it exists, otherwise an existing image suffix is appended (which one depends on the set's iteration order), and nothing is found exactly when neither exists |
| Summarize.FirstWithSuffix | dms_util/dms_summarize.py:176-181 | no path is found exactly when no suffix gives an existing file, and a found path is the base plus an existing suffix |
| Summarize.JsonFenceBetween | dms_util/dms_summarize.py:126-128 | with one ```` ```json ```` fence, the JSON text is what lies between it and the next closing fence, stripped |
| Summarize.JsonPlainFence | dms_util/dms_summarize.py:129-130 | with only plain fences, the JSON text is what lies between the first two, stripped |
| Summarize.JsonNoFence | dms_util/dms_summarize.py:125-126 | without a fence, the reply itself is parsed |
| Summarize.Generate | dms_util/dms_summarize.py:82-146 | no reply or unparsable JSON gives no result; a missing category defaults to `Guides`, a missing flag to false, a missing summary to empty; a present summary is passed on stripped, a present category and flag unchanged |
| Summarize.TruncateSummary | dms_util/dms_summarize.py:148-155 | the summary is truncated exactly when it has more words than the limit; an untruncated one is returned unchanged and a truncated one ends with `…` |
| Summarize.TruncatedWords | dms_util/dms_summarize.py:148-155 | a truncated summary has exactly the limit's number of words: the first ones, the last with `…` attached |
| Summarize.ContentOf | dms_util/dms_summarize.py:257-281 | only images and PDFs can have a text conversion; any other file is read directly |
| Summarize.BuildRecord | dms_util/dms_summarize.py:286-327 | a record keeps the scanned path, hash (empty by default) and size (0 by default), takes the stem as title, the generated category and flag, the given readable version and time stamp, and as summary the generated one truncated to 50 words, so never more than 50 words |
| Summarize.ProcessFile | dms_util/dms_summarize.py:247-329 | a file missing from disk gives no record; a file on disk gets a record exactly when the model's reply to its content yields a summary, and that record is the one built from the reply with the file's readable version; a record always has the scanned path, stem title, hash and size and at most 50 words of summary |
| Summarize.NewRecordsStep | dms_util/dms_summarize.py:247-329 | one more file adds its record when summarizing succeeds and nothing otherwise |
| Summarize.SummarizeLoop | dms_util/dms_summarize.py:247-329 | the loop appends, in order, the record of every file that could be summarized to the resumed summaries |
| Summarize.RecordsPerSuccess | dms_util/dms_summarize.py:247-329 | there are at most as many new records as files, and each is the record of some file |
| Summarize.SummarizeMain | dms_util/dms_summarize.py:185-348 | a missing directory or unreachable model exits 1; otherwise the exit is 0, and the pending file is written exactly when there are files and it is not a dry run, holding the resumed summaries followed by the new records |
| Summarize.ResumeSkipsDone | dms_util/dms_summarize.py:228-243 | no new record is made for a file already summarized in the pending file |
| Summarize.ScanItemsOutsideMdOutputs | dms_util/dms_summarize.py:221-222 | no file under `md_outputs/` is ever summarized, since the scan never reports one |
| Summarize.ChangedRecordHasEmptyHash | dms_util/dms_summarize.py:305-309 | a record made for a changed file carries an empty hash, since the scan's changed entries have none |
| Review.Choice | dms_util/dms_review.py:41-44 | the choice read from a line is never empty, and a blank line counts as `a` |
| Review.DecideSpec | dms_util/dms_review.py:27-64 | a decision consumes at least one input line and leaves the rest; only the summary or the category can change, and only when the record is approved |
| Review.ApproveSummary | dms_util/dms_review.py:27-64 | the prompt loop returns exactly the decision `Decide` gives for the remaining input, and with it the approve, edit, skip and quit rules proved of `Decide` |
| Review.EnterApproves | dms_util/dms_review.py:41-47 | a blank answer approves the record unchanged |
| Review.EditApproves | dms_util/dms_review.py:48-58 | `e` and `c` approve the record, replacing the summary or the category with the next line when that line is not blank |
| Review.SkipAndQuit | dms_util/dms_review.py:59-62 | `s` skips and `q` quits, leaving the record unchanged |
| Review.UnknownChoiceReprompts | dms_util/dms_review.py:63-64 | any other answer is ignored and the prompt repeats |
| Review.ReviewFrom | dms_util/dms_review.py:99-111 | reviewing from a record onwards decides it, then stops on quit or end of input, or else adds it to the approved or the skipped and goes on |
| Review.ReviewLoop | dms_util/dms_review.py:99-111 | the review loop returns exactly the tally `Review` gives, so the subsequence and count lemmas about `Review` hold for it |
| Review.ReviewCounts | dms_util/dms_review.py:99-111 | approved plus skipped never exceeds the number of summaries, and equals it exactly when the review was not cut short |
| Review.ApprovedInOrder | dms_util/dms_review.py:99-111 | the approved records are the reviewed ones in their original order, each possibly edited |
| Review.QuitAfterApprovals | dms_util/dms_review.py:99-111 | answering Enter k times and then `q` approves exactly the first k summaries unchanged |
| Review.ReviewMain | dms_util/dms_review.py:66-136 | a missing directory exits 1; no pending summaries exits 0 writing nothing; `--all` approves every summary; otherwise the approved file holds the approved records with the pending timestamp, it is written only when some record was approved, and the pending file is deleted exactly when the approved file is written |
| Apply.FromRecord | dms_util/dms_review.py:121-126 | an approved record, as written by the review, provides the path, hash, category, summary and title the apply step reads |
| Apply.EntryFields | dms_util/dms_apply.py:58-76 | the new state entry takes the hash (empty by default), the category (`Junk` by default), the summary (empty by default), the title (the file stem by default), marks the summary approved, stamps the time, drops any earlier modification time, and keeps a readable version only when one is given and not empty |
| Apply.BuildEntry | dms_util/dms_apply.py:58-76 | the method builds exactly that entry |
| Apply.ApplyOne | dms_util/dms_apply.py:57-82 | one approval replaces its path's entry, appends its category to the list when it is new, and counts it under its category |
| Apply.ApplyBatch | dms_util/dms_apply.py:54-82 | the loop leaves the documents, the category list and the per-category counts of the whole batch applied in order |
| Apply.ApplyChanges | dms_util/dms_apply.py:35-121 | an empty batch exits 0 writing nothing; otherwise the state is written with the batch applied, and the exit code is 0 and the approved file deleted exactly when rendering succeeds |
| Apply.ApplyMain | dms_util/dms_apply.py:128-144 | a missing directory exits 1; a missing or empty approved file exits 0 writing nothing; otherwise the stored state (or a fresh one) gets the batch applied, the per-category counts are the batch's, and the exit code and the removal of the approved file follow the render run |
| Apply.LastFor | dms_util/dms_apply.py:57-78 | a path has a last approval exactly when the batch mentions it, and that approval is in the batch and is for that path |
| Apply.DocKeysAfterApply | dms_util/dms_apply.py:57-78 | after applying, the tracked paths are the earlier ones plus the batch's |
| Apply.DocsAfterApply | dms_util/dms_apply.py:57-78 | each path's entry comes from the batch's last approval for it, or is the earlier entry when the batch does not mention it |
| Apply.LaterEntryWins | dms_util/dms_apply.py:78 | the last approval for a path decides its entry |
| Apply.LastIsLast | dms_util/dms_apply.py:57-78 | an approval with no later one for the same path is the last one for that path |
| Apply.UntouchedDocs | dms_util/dms_apply.py:78 | an entry whose path the batch does not mention is unchanged |
| Apply.CategoriesAfterApply | dms_util/dms_apply.py:80-82 | the category list keeps the old list as a prefix, gains only the batch's categories, contains every one of them, and stays free of duplicates |
| Apply.CountsAfterApply | dms_util/dms_apply.py:54-62 | the per-category counts have exactly the batch's categories as keys, each counting its approvals |
| Apply.CountOverCovering | dms_util/dms_apply.py:54-62 | counting over distinct keys that cover every category of the batch gives the batch's size |
| Apply.TotalIsCountOver | dms_util/dms_apply.py:84-87 | the counts reported per category sum to the approvals whose category is listed |
| Apply.NotCountedIsZero | dms_util/dms_apply.py:54-62 | a category no approval has counts zero |
| Apply.CountsSumToBatch | dms_util/dms_apply.py:54-87 | the reported counts, over the batch's categories, sum to the batch's size |
| Apply.CategoriesStayDistinct | dms_util/dms_apply.py:80-82 | a category of the batch appears in the list exactly once when the old list had no duplicates |
| Apply.ChangedFileStaysChanged | dms_util/dms_apply.py:65-78 | an approval without a hash (which is what a changed file's record carries) leaves the file reported changed by the next scan |
| DmsState.Reassign | dms_util/dms_categories.py:110-115 | every document of the old category moves to the new one, every other document is unchanged, and no path is added or lost |
| DmsState.MembersOf | dms_util/dms_categories.py:43 | the members of a category are exactly the documents whose category is that name |
| DmsState.RemoveFirst | dms_util/dms_categories.py:140 | removing a name from the list drops one element; in a list without duplicates, the name is gone and every other name stays |
| DmsState.RemoveFirstSplices | dms_util/dms_categories.py:140 | `list.remove` cuts out exactly the first occurrence (the position `IndexOf` gives) and keeps the elements before and after it in order |
| DmsState.IndexOf | dms_util/dms_categories.py:107 | the index found is the first position holding the name |
| Categories.ReassignLoop | dms_util/dms_categories.py:110-115 | the document loop leaves every member of the old category in the new one and counts exactly those members |
| Categories.ReassignDone | dms_util/dms_categories.py:110-115 | once every path has been visited, the loop's map is the reassignment and its count is the member count |
| Categories.Add | dms_util/dms_categories.py:58-69 | adding an existing name fails with 1 and saves nothing; otherwise the name is appended and the state saved |
| Categories.Move | dms_util/dms_categories.py:71-91 | moving an untracked file or into an undeclared category fails with 1; otherwise the file gets the category and the state is saved |
| Categories.Rename | dms_util/dms_categories.py:93-121 | renaming fails with 1 when the old name is undeclared or the new one declared; otherwise the name is replaced in place, its documents follow, and the count reported is their number |
| Categories.Delete | dms_util/dms_categories.py:123-146 | deleting an undeclared name fails with 1; otherwise its documents move to `Junk`, the name is removed, and the count is their number |
| Categories.CountsOf | dms_util/dms_categories.py:42-44 | the listing has one count per declared category |
| Categories.CountsAreDeclaredDocs | dms_util/dms_categories.py:42-44 | the listed counts sum to the number of documents in a declared category |
| Categories.CountsCoverDocuments | dms_util/dms_categories.py:42-53 | the declared counts and the orphaned documents together account for every document |
| Categories.OrphansExactly | dms_util/dms_categories.py:47-48 | a category is orphaned if and only if it is undeclared and some document uses it |
| Categories.AddFacts | dms_util/dms_categories.py:58-69 | after adding, the list is still free of duplicates, contains the name, and the name is no longer an orphan |
| Categories.MoveFacts | dms_util/dms_categories.py:71-91 | moving changes only the file's category and creates no orphan |
| Categories.RenameFacts | dms_util/dms_categories.py:93-121 | renaming keeps the list's length and order, removes the old name, merges its members into the new name and leaves no orphan under the new name |
| Categories.RenameRoundTrip | dms_util/dms_categories.py:93-121 | renaming a category to an unused name and back restores the state |
| Categories.DeleteFacts | dms_util/dms_categories.py:123-146 | deleting cuts the name out of a duplicate-free list keeping the others in order, and `Junk` gains exactly its members |
| Categories.DeleteKeepsOrphans | dms_util/dms_categories.py:123-146 | when `Junk` is declared, deleting another category creates no orphan |
| Categories.DeleteWithoutCatchAllOrphans | dms_util/dms_categories.py:132-140 | when `Junk` is not declared, deleting a category that has documents leaves `Junk` orphaned |
| Categories.CategoriesMain | dms_util/dms_categories.py:148-192 | no command exits 0; a missing directory or state file exits 1; each command's outcome is the one specified, `list` never saves, and every other command saves exactly when it succeeds |
| CategoriesMenu.PickIndex | dms_util/dms_categories_interactive.py:79-81 | a typed number picks an entry exactly when it reads as an integer between 1 and the number of entries, giving the 0-based index; text that is no number and a number out of range pick nothing alike |
| CategoriesMenu.FirstSimilarSpec | dms_util/dms_categories_interactive.py:232-245 | the warning names the first existing category that contains, or is contained in, the new name ignoring case without being equal to it, and there is none exactly when no category is like that |
| CategoriesMenu.PrefixedNameWarns | dms_util/dms_categories_interactive.py:232-245 | a name that extends an existing one, such as `Old-Workflows` for `Workflows`, draws the warning |
| CategoriesMenu.AddDialog | dms_util/dms_categories_interactive.py:247-293 | the dialog consumes input, keeps the documents and metadata, and changes nothing when it reports no change |
| CategoriesMenu.RenameDialog | dms_util/dms_categories_interactive.py:295-365 | the dialog consumes input, keeps the documents and metadata, and changes nothing when it reports no change |
| CategoriesMenu.DeleteDialog | dms_util/dms_categories_interactive.py:367-410 | the dialog consumes input, keeps the documents and metadata, and changes nothing when it reports no change |
| CategoriesMenu.AddDialogFacts | dms_util/dms_categories_interactive.py:272-293 | a blank or existing name cancels with no change; an added name is non-blank, appended, and leaves the list free of duplicates |
| CategoriesMenu.RenameDialogFacts | dms_util/dms_categories_interactive.py:309-359 | a rename happens only for a valid number and a non-blank, unused new name, replaces that entry in place and leaves the list free of duplicates |
| CategoriesMenu.DeleteDialogFacts | dms_util/dms_categories_interactive.py:381-402 | a delete happens only for a valid number confirmed with `y`; it is the delete of that category (its documents to `Junk`), cutting exactly that name out of the list and keeping the others in order |
| CategoriesMenu.RenameCategory | dms_util/dms_categories_interactive.py:295-365 | the rename dialog with its document loop gives exactly what `RenameDialog` gives, so the rename lemmas hold for it |
| CategoriesMenu.DeleteCategory | dms_util/dms_categories_interactive.py:367-410 | the delete dialog with its document loop gives exactly what `DeleteDialog` gives, so the delete lemmas hold for it |
| CategoriesMenu.InCategoryOrder | dms_util/dms_categories_interactive.py:82 | the documents collected for a category all belong to it |
| CategoriesMenu.InCategoryOrderComplete | dms_util/dms_categories_interactive.py:82 | every document of the category is collected, each once |
| CategoriesMenu.InCategoryOrderWithin | dms_util/dms_categories_interactive.py:82 | only tracked paths are collected |
| CategoriesMenu.ByPath | dms_util/dms_categories_interactive.py:92 | sorting the collected documents keeps exactly the same paths |
| CategoriesMenu.ByPathSorted | dms_util/dms_categories_interactive.py:92 | the files are numbered in path order |
| CategoriesMenu.MovedAll | dms_util/dms_categories_interactive.py:164-167 | moving a list of files keeps the set of tracked paths |
| CategoriesMenu.MoveAllIsReassign | dms_util/dms_categories_interactive.py:196-197 | moving every file of a category is the same as reassigning that category |
| CategoriesMenu.MoveLoop | dms_util/dms_categories_interactive.py:164-167 | the move loop gives every listed file the target category |
| CategoriesMenu.ParseIndices | dms_util/dms_categories_interactive.py:137 | a comma-separated selection parses exactly when every piece is a number, each giving its 0-based index; one bad piece rejects the whole selection |
| CategoriesMenu.PickPaths | dms_util/dms_categories_interactive.py:138-139 | indices out of range are dropped, and when all are in range the picked files are the numbered ones in the order typed |
| CategoriesMenu.Selection | dms_util/dms_categories_interactive.py:127-146 | a selection, `all` or numbered, only ever picks files of the category |
| CategoriesMenu.MoveOneDialog | dms_util/dms_categories_interactive.py:107-115 | moving one file consumes input, keeps the category list, and changes nothing when it reports no change |
| CategoriesMenu.MoveSomeDialog | dms_util/dms_categories_interactive.py:117-173 | moving a selection consumes input, keeps the category list, and changes nothing when it reports no change |
| CategoriesMenu.MoveAllDialog | dms_util/dms_categories_interactive.py:176-203 | moving the whole category consumes input, keeps the category list, and changes nothing when it reports no change |
| CategoriesMenu.ViewDialog | dms_util/dms_categories_interactive.py:68-209 | viewing a category consumes input, keeps the category list, and changes nothing when it reports no change |
| CategoriesMenu.MoveAllDialogChanges | dms_util/dms_categories_interactive.py:187-201 | moving a non-empty category elsewhere, when reported as a change, really changes the documents, since the target must differ |
| CategoriesMenu.SelectionWithinCategory | dms_util/dms_categories_interactive.py:127-146 | every selected file is a tracked member of the category being viewed |
| CategoriesMenu.MoveSome | dms_util/dms_categories_interactive.py:117-173 | the selection dialog with its move loop gives exactly what `MoveSomeDialog` gives: the selected files are moved and nothing else changes |
| CategoriesMenu.MoveEvery | dms_util/dms_categories_interactive.py:176-203 | the move-all dialog with its move loop gives exactly what `MoveAllDialog` gives, including its refusal to move files to their current category |
| CategoriesMenu.ListFilesForCategory | dms_util/dms_categories_interactive.py:68-209 | the view dialog gives exactly what `ViewDialog` gives for the same input |
| CategoriesMenu.InteractiveMenu | dms_util/dms_categories_interactive.py:412-479 | the menu loop ends as the session specification says: `6` writes the state only when something changed, `7` leaves without writing, and running out of input ends with 1 |
| CategoriesMenu.AddDialogKeeps | dms_util/dms_categories_interactive.py:247-293 | adding leaves a state the menu can go on from: same documents and metadata, no duplicate categories |
| CategoriesMenu.RenameDialogKeeps | dms_util/dms_categories_interactive.py:295-365 | renaming leaves a state the menu can go on from |
| CategoriesMenu.DeleteDialogKeeps | dms_util/dms_categories_interactive.py:367-410 | deleting leaves a state the menu can go on from |
| CategoriesMenu.AfterDialogEndsWell | dms_util/dms_categories_interactive.py:436-454 | whatever follows a well-behaved dialog ends with 0 or 1, and writes only on 0 a state with the same documents and metadata and no duplicate categories |
| CategoriesMenu.SessionEndsWell | dms_util/dms_categories_interactive.py:412-479 | every session ends with 0 or 1, and writes only on 0 a state with the starting documents and metadata and no duplicate categories |
| CategoriesMenu.LeaveWithoutSaving | dms_util/dms_categories_interactive.py:470-476 | `7` with no change leaves with 0 writing nothing; with a change it leaves only after `y` and otherwise returns to the menu |
| CategoriesMenu.SaveOnlyChanges | dms_util/dms_categories_interactive.py:456-468 | `6` ends with 0 and writes the state exactly when something changed |
| CategoriesMenu.InteractiveMain | dms_util/dms_categories_interactive.py:481-511 | a missing directory or state exits 1; `list` exits 0 and any other action 1 without writing; no action runs the menu |
| ImageToText.FindConvertible | dms_util/dms_image_to_text.py:27-51 | the sorting loop returns the images, the PDFs and the Word files of the scan, each list in scan order |
| ImageToText.OfKindMembers | dms_util/dms_image_to_text.py:37-45 | a path is in a kind's list if and only if it was scanned and its lower-cased suffix is of that kind |
| ImageToText.OfKindInOrder | dms_util/dms_image_to_text.py:37-45 | each list keeps the scan's order |
| ImageToText.PartitionCounts | dms_util/dms_image_to_text.py:37-45 | every scanned file lands in exactly one of the three lists or in none |
| ImageToText.OutputName | dms_util/dms_image_to_text.py:63 | an image's output name ends in `.txt`, a PDF's or Word file's in `.md` (the same naming at lines 109 and 158) |
| ImageToText.PdfMarkdownFacts | dms_util/dms_image_to_text.py:132 | the markdown written for a PDF opens with its stem as a heading and ends with the extracted text unchanged |
| ImageToText.MissingSourceFails | dms_util/dms_image_to_text.py:56-60 | a file missing from the directory fails every converter, whatever the tool would do (the same check at lines 102-106 and 151-155) |
| ImageToText.AlreadyConvertedOnlyForImages | dms_util/dms_image_to_text.py:66-68 | an image whose text output exists counts as converted without the tool; a PDF or Word file never does |
| ImageToText.PdfSucceedsIff | dms_util/dms_image_to_text.py:99-135 | a PDF converts exactly when it exists and the tool exits 0 with non-blank text, and the extracted text follows the header |
| ImageToText.Batch | dms_util/dms_image_to_text.py:230-251 | a batch never counts more successes than files, and never loses an output |
| ImageToText.ConvertLoop | dms_util/dms_image_to_text.py:232-234 | each conversion loop counts the successes of its batch and leaves their outputs |
| ImageToText.SameStemSecondSkips | dms_util/dms_image_to_text.py:63-68 | of two images with the same stem, the second counts as converted once the first has succeeded, since it finds the first one's output |
| ImageToText.ImageToTextMain | dms_util/dms_image_to_text.py:194-264 | a missing directory exits 1; the total is the three lists' lengths; nothing to convert exits 0; otherwise the converted count is the sum of the image, PDF and Word batches run one after another, the outputs are those left by the last batch, and the exit code is that of the next step after `y`, 0 after any other answer, and 1 when the input runs out |
| Render.EscapeEndsWith | dms_util/dms_render.py:414-417 | escaping a path keeps whether it ends with a suffix free of HTML special characters |
| Render.LowerEscape | dms_util/dms_render.py:414-417 | lower-casing an escaped path is escaping the lower-cased path |
| Render.LabelIgnoresEscape | dms_util/dms_render.py:413-437 | the link label chosen from the escaped readable version is the one the raw readable version would give |
| Render.TxtLabel | dms_util/dms_render.py:432-434 | a readable version ending in `.txt` is labelled `View OCR Text` |
| Render.MdLabel | dms_util/dms_render.py:420-428 | a `.md` readable version of a PDF is labelled `View PDF Text`, and one of a Word file `View Document` |
| Render.ConvertedLabel | dms_util/dms_render.py:413-437 | the output of each converter is labelled after its kind: OCR text for images, PDF text for PDFs, document for Word files |
| Render.MembersSpec | dms_util/dms_render.py:42-46 | a category's documents are exactly those grouped under it, in state order and each once |
| Render.DeclareGroups | dms_util/dms_render.py:38-40 | every declared category starts with an empty group, each once |
| Render.GroupDocuments | dms_util/dms_render.py:37-46 | every document lands in the group of its category (`Junk` when it has none); declared categories always have a group, an undeclared one only when some document uses it; the groups hold every document once |
| Render.SortGroups | dms_util/dms_render.py:48-50 | every group is sorted by title, falling back to the path |
| Render.SortedGroupSpec | dms_util/dms_render.py:48-50 | a sorted group is ordered by title and is a permutation of the category's documents |
| Render.ShownIff | dms_util/dms_render.py:72-74 | a document appears on the page exactly when its category is declared, and then in that category's section only |
| Render.ExtTag | dms_util/dms_render.py:406 | the tag is the upper-cased suffix without its dot, or `N/A` for a file without one |
| Render.FormatFileMtime | dms_util/dms_render.py:17-25 | the shown time is empty exactly when there is no time or it does not parse |
| Render.ItemOf | dms_util/dms_render.py:405-450 | an entry has a link exactly when the readable version is set and not empty, labelled from it; it shows a time exactly when one is recorded; a missing title falls back to the escaped stem |
| Render.SectionOf | dms_util/dms_render.py:398-460 | an empty category gives no section; otherwise the section carries the escaped name and as many entries as the group has documents |
| Render.SectionItems | dms_util/dms_render.py:404-450 | the section's entries are the group's documents in group order, each built by `ItemOf` |
| Render.CategorySections | dms_util/dms_render.py:72-74 | the page has one section slot per declared category, in declared order |
| Render.SortedGroupsAre | dms_util/dms_render.py:37-50 | the sorted groups the loops build are the sorted members of each category |
| Render.RenderMain | dms_util/dms_render.py:27-63 | a missing directory or state exits 1; otherwise the page has one section per declared category, built from its sorted members, and counts every document |
| RenderIphone.ItemOf | dms_util/dms_render_iphone.py:276-290 | a mobile entry carries the escaped path, title (the escaped stem by default) and summary (empty by default), and the escaped readable version exactly when it is set and not empty |
| RenderIphone.SectionOf | dms_util/dms_render_iphone.py:269-299 | an empty category gives no section; otherwise the section carries the escaped name and as many items as the group has documents |
| RenderIphone.SectionItems | dms_util/dms_render_iphone.py:275-297 | the section's items are the group's documents in group order, each built by `ItemOf` |
| RenderIphone.CategorySections | dms_util/dms_render_iphone.py:71-75 | the page has one section slot per declared category, in declared order |
| RenderIphone.RenderIphoneMain | dms_util/dms_render_iphone.py:27-63 | a missing directory or state exits 1; otherwise the page has one section per declared category, built from its members sorted by title, and counts every document |
| RenderIphone.SameListing | dms_util/dms_render_iphone.py:269-299 | the mobile page lists the same sections with the same entries as the desktop page: same path, title and summary, and a readable version exactly where the desktop page has a link |
| Init.InitialState | dms_util/dms_init.py:34-49 | a fresh state records its creation time, has no scan or apply time, no documents, and the six default categories ending with `Junk` |
| Init.InitDms | dms_util/dms_init.py:19-88 | initialising always exits 0, creates the directory exactly when it is missing, writes the fresh state, and reports the index rendered exactly when the render script exists and succeeds |
| Init.InitialCategoriesValid | dms_util/dms_init.py:40-47 | the default categories have no duplicates and include `Junk`, which category deletion relies on |
| Init.InitialIndexEmpty | dms_util/dms_init.py:54-78 | rendering a fresh state gives no section for any category |
| Init.InitialListing | dms_util/dms_init.py:34-49 | listing a fresh state's categories shows zero files each and no orphans |
| Backfill.Backfilled | dms_util/dms_backfill_file_mtime.py:39-60 | backfilling a document changes at most its modification time, only when it had none and the file could be read, and then sets the file's time |
| Backfill.BackfilledAll | dms_util/dms_backfill_file_mtime.py:39-60 | backfilling keeps the set of tracked paths |
| Backfill.Outcomes | dms_util/dms_backfill_file_mtime.py:39-60 | every document gets exactly one outcome |
| Backfill.SelPartition | dms_util/dms_backfill_file_mtime.py:39-60 | the four outcomes split the documents |
| Backfill.BackfillLoop | dms_util/dms_backfill_file_mtime.py:35-60 | the loop leaves every document backfilled and counts the updated, skipped and missing ones |
| Backfill.CountsCoverDocuments | dms_util/dms_backfill_file_mtime.py:35-68 | updated, skipped, missing and failed together count every document, and nothing fails exactly when no document has a failing outcome |
| Backfill.BackfillIdempotent | dms_util/dms_backfill_file_mtime.py:1-6 | running the backfill a second time changes nothing |
| Backfill.BackfillFillsReadable | dms_util/dms_backfill_file_mtime.py:39-57 | every document whose file exists and can be read has a modification time afterwards |
| Backfill.BackfillMain | dms_util/dms_backfill_file_mtime.py:22-87 | a missing directory or state exits 1 writing nothing; otherwise the state is saved with its documents backfilled, and the three counts cover every document when nothing fails |
| Shlex.Quote | MyEverything.py:174 | a quoted word is never empty; a word made only of safe characters is left as it is, and any other word is wrapped in single quotes |
| Shlex.QuoteIdentity | MyEverything.py:174 | quoting leaves a word unchanged exactly when it is non-empty and made only of safe characters |
| Shlex.QuoteReads | MyEverything.py:174 | the shell reads a quoted word back as exactly the original word, whatever characters it holds |
| Shlex.JoinReads | MyEverything.py:174 | words that each read back, joined by single spaces, read back as the list of their values |
| Shlex.QuotedJoinReads | MyEverything.py:174 | any argument list, quoted word by word and joined by spaces, is read by the shell as that same list |
| Shlex.SafeTextReads | MyEverything/MyEverything.py-chatgpt.py:221-285 | a non-empty word made only of safe characters reads back as itself |
| FindArgs.FlagOfText | MyEverything.py:134-163 | every test's command-line spelling names that test back |
| FindArgs.Flatten | MyEverything.py:134-163 | flag/value pairs take two words each on the command line |
| FindArgs.UnflattenFlatten | MyEverything.py:134-163 | the flag/value words of a command read back as the same list of pairs |
| FindArgs.LookupAppend | MyEverything.py:134-163 | the value of a test in two runs of pairs is the first run's when it has one, else the second's |
| FindArgs.CountAppend | MyEverything.py:134-163 | a test occurs in two runs of pairs as often as in each run together |
| FindArgs.LookupCount | MyEverything.py:134-163 | a test has a value exactly when it occurs at least once |
| FindArgs.OptIfLookup | MyEverything.py:142-151 | a conditionally added pair carries the test's value exactly when it is added |
| FindArgs.AddMaybe | MyEverything.py:142-151 | extending the list by a flag and value when present is adding that pair to the list's pairs |
| FindArgs.RStripSlashes | MyEverything.py:191 | stripping trailing slashes leaves a prefix that does not end in `/` |
| FindArgs.SplitPath | MyEverything.py:191 | `os.path.split` gives a name holding no `/` that ends the path, and a folder that begins it |
| FindArgs.RowsFor | MyEverything/MyEverything.py-chatgpt.py:354-370 | one row per kept output line |
| FindArgs.RowsForSnoc | MyEverything/MyEverything.py-chatgpt.py:368-370 | one more line adds the row of that line tagged by the count so far |
| FindArgs.StripedAppend | MyEverything/MyEverything.py-chatgpt.py:368-370 | rows appended at the count keep the tags alternating `even`/`odd` from the top, and every new row's name holds no `/` |
| FindArgs.Kept | MyEverything/MyEverything.py-chatgpt.py:354-357 | the output lines that become rows are stripped and never blank |
| FindArgs.KeptSnoc | MyEverything/MyEverything.py-chatgpt.py:354-357 | one more output line adds its stripped text, unless it is blank |
| FindArgs.KeptAll | MyEverything/MyEverything.py-chatgpt.py:354-357 | there are never more rows than lines, and as many exactly when no line is blank |
| FindBasic.BuildFindCommand | MyEverything.py:134-163 | the argument list is `find`, the start path, the tests' flag/value pairs and `-print` |
| FindBasic.OptionsSpec | MyEverything.py:142-159 | `-type` appears with the type exactly when one is chosen; exactly one of `-iname`/`-name`, per the case box, with the raw pattern; `-size` with the stripped size when not blank; at most one time test, `-mtime` before `-atime` before `-ctime`, each with its stripped value |
| FindBasic.TypeAndName | MyEverything.py:142-147 | the type and name tests as above, for any values |
| FindBasic.SizeAndTime | MyEverything.py:149-159 | the size and time tests as above, for any values |
| FindBasic.TimeTests | MyEverything.py:153-159 | after tests that hold no time test, exactly the first non-blank of mtime, atime and ctime is added |
| FindBasic.TimeSpec | MyEverything.py:153-159 | at most one time test, chosen in the order mtime, atime, ctime |
| FindBasic.CommandReadsBack | MyEverything.py:134-163 | the list starts with `find` and the start path, ends with `-print`, and the words between read back as exactly the tests built from the form |
| FindBasic.StatusLineReadsBack | MyEverything.py:174 | the `Running:` line, read by a shell, gives back exactly the argument list that is run |
| FindFilters.FilterValues | MyEverything/MyEverything.py:28-34 | the form supplies one value per row of the filter table |
| FindFilters.StripAll | MyEverything/MyEverything.py:492-494 | every table value is stripped before use |
| FindFilters.BuildFindPart | MyEverything/MyEverything.py:479-497 | the first part of the command is `find`, the start path, the name test when a name is typed, and one pair per table row whose stripped value is not blank |
| FindFilters.FinderWindow.constructor | MyEverything/MyEverything.py:40-67 | a new window is in list mode with no process, thread or error text, the error heading `Command Errors (stderr):`, an empty table and the status `Ready.` |
| FindFilters.FinderWindow.LogError | MyEverything/MyEverything.py:454-471 | the error box holds the message, headed `Command Errors (stderr):` when it is empty and otherwise by whether it came from an exception |
| FindFilters.FinderWindow.BuildFindCommand | MyEverything/MyEverything.py:473-536 | a pipe character among the other arguments selects shell mode and a single quoted-and-joined line; otherwise an argument list; the shlex warning is logged exactly when a list is built and the other arguments fail to parse |
| FindFilters.FinderWindow.FinalizeSearch | MyEverything/MyEverything.py:364-387 | the search is marked over, the status follows the ladder message, error, stderr or non-zero exit, no results, success, with its colour, and the error box is written as that ladder says |
| FindFilters.TableFacts | MyEverything/MyEverything.py:28-34 | the table names each test once and never the name tests |
| FindFilters.FilterLookup | MyEverything/MyEverything.py:492-497 | after the table loop, each table test carries its stripped value exactly when that value is not blank, once |
| FindFilters.FilterAbsent | MyEverything/MyEverything.py:492-497 | a test not in the table is never added by the table loop |
| FindFilters.OptionsSpec | MyEverything/MyEverything.py:484-497 | the name test appears once exactly when a name is typed, per the case box and with the raw text; every table test appears once with its stripped value exactly when that value is not blank |
| FindFilters.ShellLineReadsBack | MyEverything/MyEverything.py:505-511 | a shell reads the shell-mode line as the unquoted find part followed by whatever the other arguments say |
| FindFilters.ListLayout | MyEverything/MyEverything.py:479-536 | the list is `find`, the quoted start path, the tests, the other arguments, then `-print` exactly when they name no action among `-exec`, `-delete`, `-ok`, `-print0` |
| FindFilters.ExtraSpec | MyEverything/MyEverything.py:514-521 | no other arguments add nothing; parsed ones add their words; unparsable ones add their whitespace-separated words |
| FindFilters.ListStartPath | MyEverything/MyEverything.py:531-534 | the start path handed to `find` in list mode equals the typed path exactly when quoting leaves it unchanged, so a path with a space reaches `find` with quote marks in it |
| FindFilters.DisplayReadsBack | MyEverything/MyEverything.py:252-257 | the shown command, for a list, reads back in a shell as exactly the list run |
| FindFilters.EndingColors | MyEverything/MyEverything.py:335-385 | after a search ends, the status is green exactly for a clean run with results, orange for a clean run without, red for a hard error, stderr or non-zero exit, and blue for a cancel |
| FindFilters.EndingLog | MyEverything/MyEverything.py:335-385 | the error box is written exactly for a hard error (as an exception) or a run with stderr or a non-zero exit, and stderr is shown in preference to the exit code |
| FindShell.SuffixSpec | MyEverything/MyEverything.py-chatgpt.py:247-250 | the size suffix is one of `c`, `k`, `M`, `G`: `B` gives `c`, `K` gives `k`, and any unit outside B, K and G gives the default `M` |
| FindShell.SizeSpec | MyEverything/MyEverything.py-chatgpt.py:241-259 | a blank size value adds nothing; a numeric one adds `-size` and a value that `find` reads as the chosen comparison (`>` more, `<` less, anything else exact), the typed number and the unit's suffix |
| FindShell.SizeValueReads | MyEverything/MyEverything.py-chatgpt.py:251-259 | the sign, number and suffix written into a `-size` value are read back by `find` as that comparison, that number and that suffix |
| FindShell.DatePartSpec | MyEverything/MyEverything.py-chatgpt.py:262-276 | a date row adds nothing or a flag and a value; `within` gives the row's flag and a minus sign followed by the day count; `since` with a date gives `-newermt` and the date, quoted so the shell reads it as one word; no flag is used otherwise, and the part is empty exactly when neither case applies |
| FindShell.BuildFindCommand | MyEverything/MyEverything.py-chatgpt.py:221-286 | the command line is the list of `find` words (start, name test, type, size, the three date rows, the other text) joined by single spaces |
| FindShell.LineReadsBack | MyEverything/MyEverything.py-chatgpt.py:221-286 | when the size value is a plain number, the shell reads the built line back as exactly the intended `find` argument list, followed by whatever the shell reads from the other text |
| FindShell.FindWordsRead | MyEverything/MyEverything.py-chatgpt.py:222-276 | every word placed before the other text is read by the shell as the intended argument, and there is at least the word `find` |
| FindShell.PairReads | MyEverything/MyEverything.py-chatgpt.py:224-231 | a safe flag followed by a quoted value is read by the shell as the flag and the unquoted value |
| FindShell.TextSafe | MyEverything/MyEverything.py-chatgpt.py:229-276 | every fixed flag word is non-empty and needs no quoting |
| FindShell.TextReads | MyEverything/MyEverything.py-chatgpt.py:229-276 | every fixed flag word is read by the shell as itself |
| FindShell.TypeReads | MyEverything/MyEverything.py-chatgpt.py:234-238 | the type part (`-type f`, `-type d`, or nothing) is read by the shell as itself |
| FindShell.SizeReads | MyEverything/MyEverything.py-chatgpt.py:241-259 | a size part built from a plain number is read by the shell as itself, unquoted though it is |
| FindShell.DaysReads | MyEverything/MyEverything.py-chatgpt.py:264-266 | the `-N` day value is read by the shell as itself, for any day count |
| FindShell.DateReads | MyEverything/MyEverything.py-chatgpt.py:262-276 | every date part is read by the shell as its intended arguments, the `-newermt` date unquoted |
| FindShell.WithinReads | MyEverything/MyEverything.py-chatgpt.py:263-266 | a `within` part, a safe flag and a `-N` value, is read by the shell as itself |
| FindShell.SinceReads | MyEverything/MyEverything.py-chatgpt.py:267-271 | a `since` part is read by the shell as `-newermt` followed by the date exactly as typed |
| FindResults.ResultsPanel.constructor | MyEverything/MyEverything.py-chatgpt.py:33-77 | a new window is idle, with the status `Ready.`, an empty preview, an empty stderr box and an empty table |
| FindResults.ResultsPanel.PreviewFind | MyEverything/MyEverything.py-chatgpt.py:287-291 | the preview shows the command line the search would run, and the status says the preview was updated |
| FindResults.ResultsPanel.ClearResults | MyEverything/MyEverything.py-chatgpt.py:347-350 | the table is emptied and the count reset, which keeps the table consistent |
| FindResults.ResultsPanel.AppendStderr | MyEverything/MyEverything.py-chatgpt.py:342-345 | the text and a newline are added at the end of the stderr box, which keeps what it held |
| FindResults.ResultsPanel.StartSearch | MyEverything/MyEverything.py-chatgpt.py:293-307 | a search starts exactly when no process is set; a refused start changes nothing; a started one shows the command line, says `Running...`, and empties the stderr box and the table |
| FindResults.ResultsPanel.BeginSearch | MyEverything/MyEverything.py-chatgpt.py:299-306 | once the command is built, the preview shows it, the status says `Running...`, and the stderr box and the table are empty |
| FindResults.ResultsPanel.ProcessStarted | MyEverything/MyEverything.py-chatgpt.py:312 | once the worker starts `bash`, a process is set |
| FindResults.ResultsPanel.PopulateResults | MyEverything/MyEverything.py-chatgpt.py:352-370 | each non-blank line, stripped, is added as the next row: its name and folder split from the path, and a tag alternating with the running count; blank lines add nothing; the count grows by the number of rows added, and a table striped from the top stays striped |
| FindResults.ResultsPanel.SearchFinished | MyEverything/MyEverything.py-chatgpt.py:313-322 | after a normal end no process is set; the error text, when there is any, is appended to the stderr box; the non-blank lines become rows; and the status counts every output line |
| FindResults.ResultsPanel.SearchFailed | MyEverything/MyEverything.py-chatgpt.py:323-325 | when the worker raises, the message is appended to the stderr box and the status is `Error` |
| FindResults.ResultsPanel.CancelSearch | MyEverything/MyEverything.py-chatgpt.py:332-340 | a set process that has not exited is terminated and the status says `Cancelled`, unless terminating raises, when the message goes to the stderr box and the status is kept; otherwise the status says there is no running search |
| FindResults.FinishedCount | MyEverything/MyEverything.py-chatgpt.py:317-320 | the count in the finished status equals the number of rows added exactly when the output had no blank line; otherwise the status overcounts |
| FindResults.FinishedStatusCounts | MyEverything/MyEverything.py-chatgpt.py:320-322 | two finished status lines are equal only for equal counts |
| FindTrashed.ResultItems | MyEverything/MyEverything.py.trashed.by.claude.py:342-345 | the worker queues one result item per kept output line |
| FindTrashed.SearchPanel.constructor | MyEverything/MyEverything.py.trashed.by.claude.py:30-77 | a new window is idle, with the status `Ready.`, an empty table, no process, no thread, an empty queue and an empty preview |
| FindTrashed.SearchPanel.PreviewFind | MyEverything/MyEverything.py.trashed.by.claude.py:287-291 | the preview shows the command line the search would run, and the status says the preview was updated |
| FindTrashed.SearchPanel.ClearResults | MyEverything/MyEverything.py.trashed.by.claude.py:453-456 | the table is emptied and the count reset |
| FindTrashed.SearchPanel.StartSearch | MyEverything/MyEverything.py.trashed.by.claude.py:293-321 | a search starts exactly when neither a process nor a thread is set; a refused start changes nothing; a started one shows the command line, says `Searching...`, clears the held stderr text and the table, and sets the thread |
| FindTrashed.SearchPanel.BeginSearch | MyEverything/MyEverything.py.trashed.by.claude.py:298-318 | once the command is built, the preview shows it, the status says `Searching...`, the held stderr text and the table are empty, and the thread is set |
| FindTrashed.SearchPanel.ProcessStarted | MyEverything/MyEverything.py.trashed.by.claude.py:336 | once the worker starts `bash`, the worker's process is set |
| FindTrashed.SearchPanel.RunWorker | MyEverything/MyEverything.py.trashed.by.claude.py:324-356 | the worker queues, in order, one result per non-blank stripped output line, the error text when there is any, and the return code; or one hard error for an exception; and afterwards no worker process is set |
| FindTrashed.SearchPanel.CancelSearch | MyEverything/MyEverything.py.trashed.by.claude.py:437-446 | a worker process that has not exited is terminated and a `cancelled` item is queued; otherwise the queue is unchanged |
| FindTrashed.SearchPanel.InsertResult | MyEverything/MyEverything.py.trashed.by.claude.py:388-410 | an empty path is ignored; any other becomes the next row with a tag alternating with the count, the count grows by one, and every tenth row the status shows the count |
| FindTrashed.SearchPanel.FinalizeSearch | MyEverything/MyEverything.py.trashed.by.claude.py:412-435 | process and thread are cleared; the status reports the error, or errors for held stderr text or a non-zero return code, or no results, or the count, in that order of precedence; and the held stderr text is cleared |
| FindTrashed.SearchPanel.ProcessStreamOutput | MyEverything/MyEverything.py.trashed.by.claude.py:360-386 | the queue is drained in order until the first `complete` or `hard_error` item, which closes the search; results are inserted, error text is held, `cancelled` is ignored, and items after the closing one stay queued |
| FindTrashed.InsertConsistent | MyEverything/MyEverything.py.trashed.by.claude.py:388-410 | inserting a result keeps the table striped from the top with the count equal to its length, and adds one row exactly when the path is non-empty |
| FindTrashed.DrainConsistent | MyEverything/MyEverything.py.trashed.by.claude.py:360-386 | draining the queue keeps the table consistent |
| FindTrashed.FinalStatusClean | MyEverything/MyEverything.py.trashed.by.claude.py:422-433 | the final status starts with `Search complete` exactly when there was no error, no stderr text and no non-zero return code |
| FindTrashed.FinalStatusEmpty | MyEverything/MyEverything.py.trashed.by.claude.py:430-431 | the final status reports no results exactly for a clean run with a count of zero |
| FindTrashed.DrainResults | MyEverything/MyEverything.py.trashed.by.claude.py:364-371 | draining a run of result items and then the rest is the same as inserting those paths one by one and then draining the rest |
| FindTrashed.InsertAllRows | MyEverything/MyEverything.py.trashed.by.claude.py:388-406 | inserting non-empty paths one by one adds exactly their rows, tagged from the running count, and raises the count by their number |
| FindTrashed.WorkerDrain | MyEverything/MyEverything.py.trashed.by.claude.py:324-386 | draining what a worker queued for one finished run adds a row per kept output line, closes the search, leaves the items after it queued, and sets the final status from the run's error text and return code |

## Left out

- Reading and writing JSON files, `rglob`, `exists` and `stat`. The directory walk is the input `listing`, in walk order. The disk is a map. A state file is present or absent as an `Option`. Loading and saving are the identity on the model's values.
- Python dict iteration order is an explicit `keys` sequence wherever order is observable: missing files, reassignment loops, render grouping and the backfill loop.
- The SHA-256 computation. A file carries its digest, and the stored hash is `"sha256:" + digest`. A file that cannot be opened makes `compute_file_hash` raise, which ends the scan with a traceback; every file of the model's disk can be read, so `Scan.HashOf` has no error case.
- The language model, its HTTP call, `check_ollama` and `json.loads`. These are the oracles `llm` and `parse`. Only the unreachable-server exit and the fence extraction around the reply are modelled.
- The converters (tesseract, pdftotext, pandoc) and the render subprocess called from apply and init. They are oracles that give an exit status, standard output and whether the output file exists.
- Summarize.Generate: a key present in the reply with a JSON null is read as absent. In the code a null summary raises `AttributeError` on `.strip()`, so the file gets no record, and a null category or flag is stored as `None`. The model gives the defaults instead.
- Apply.EntryFields: the same holds for the approved record. A `None` category is filed by the code under `None` and added to the category list, and `sorted` then raises `TypeError` once another category is present. The model files it under `Junk`. The documents of the state (`DmsState.Doc`) likewise have no JSON null.
- Render.GroupDocuments: a document whose category is a JSON null is grouped under `None` by the code and under `Junk` by the model.
- Strings.Lower: `Lower` and `Upper` change ASCII letters only. Wherever the code calls `lower()` or `upper()` (the suffix tests of the converter and the renderers, the `ExtTag` column, the similar-name check) a non-ASCII letter keeps its case in the model.
- Summarize.ReadFileContent: the `[Error reading file: …]` text returned when reading raises is not modelled. A file on the disk map is always readable.
- CategoriesMenu.FirstSimilarSpec: case is ignored for ASCII letters only (`Strings.Lower`). Python's `str.lower` also folds other letters, so for `Über` and `übersicht` the code asks "Add anyway?" and the model adds without asking.
- CategoriesMenu.PickIndex: a typed number is read by `Strings.ParseInt`, which accepts ASCII digits only. `int()` also accepts `_` separators (`1_0`) and non-ASCII digits, which the model treats as no number.
- CategoriesMenu.ParseIndices: each piece is read by `Strings.ParseInt`, with the same narrowing as `CategoriesMenu.PickIndex`.
- Summarize.FindImageForTextFile: the order in which a Python set of image suffixes is iterated is not defined. It is the parameter `extOrder`, which may be any order of that set.
- The clock (`datetime.now`, `isoformat`), and the parsing and formatting done by `format_file_mtime`. The clock is the parameter `now`. The parser is an oracle that either fails or gives the formatted text.
- Console output: `print`, the banners and the help text. What `print_report` and `cmd_list` show is modelled as values (counts, previews, orphan sets), not as text.
- The HTML, CSS and JavaScript templates of both renderers. A section is modelled by the values the template interpolates into it.
- `input()` is a sequence of typed lines. An `EOFError` is the end of that sequence. A `KeyboardInterrupt` is not modelled.
- Scan: a walked file's path is written `./<relative path>`, as in the `disk_files` keys. Stored document keys are compared with it as they are; the model gives no meaning to a key written another way.
- Shlex.Lex: reads only part of POSIX word splitting: blanks, plain characters, single-quoted runs, and double-quoted runs without `$`, a backquote or a backslash. A line holding anything else, such as a pipe, `$`, a backslash or a redirection typed among the other arguments, is read as `None` (not understood). It is never read as a wrong list.
- FindFilters.BuildFindCommand: `shlex.split` of the other arguments is the input `parsed`. `None` stands for its `ValueError`, and then the model falls back to a whitespace split, as the code does.
- FindShell.DatePartSpec: the Tk text-to-integer conversion is not modelled. `IntVar.get` truncates a decimal entry such as `7.5` to 7, and empty or non-numeric text raises `TclError`. The model takes the resulting integer as `days`. A negative count gives the word `--n`, as in the code.
- FindResults.ResultsPanel.SearchFinished: `out.splitlines()` is the input `lines`. Only the line-break character `\n` of Python's line-break set is modelled elsewhere (`FindTrashed.OutputPaths`).
- FindTrashed.SearchPanel.constructor: the worker's `process` starts out unset. The code never sets `self.process` in `__init__`, so a cancel before the worker has started raises `AttributeError` instead. That exception is not modelled.
- FindTrashed.SearchPanel.CancelSearch: an exception raised by `terminate()`, which queues a `hard_error` item, is not modelled. The code never sets `search_process`, so the start guard depends on `search_thread` alone.
- Threads, `after()` rescheduling and the race between `queue.empty()` and `get_nowait()` in the MyEverything windows. A worker's run and one pass over the queue are each atomic steps (`RunWorker`, `ProcessStreamOutput`).
- The rest of the MyEverything windows: widget construction, `os.stat` and the size, date and time columns of a result row, `_human_readable_size` (floating point), column sorting, opening a file or folder, and the help popup. A row is modelled by its name, folder and stripe tag.
- The streaming, cancel and row-insertion methods of `MyEverything/MyEverything.py`, and the loop in `MyEverything.py` that runs `find` and fills its table. Their statuses are modelled only through `FindFilters.FinderWindow.FinalizeSearch` and `FindFilters.EndingStatus`.
- `dms_menu.py`, the OneDrive heartbeat scripts and the other GUI fragments of the repository are not part of this model.
