# DocTestTool catalogue, search and configuration model

DocTestTool is a Qt desktop tool that keeps a catalogue of documents. Each
document is stored in a numbered sub-folder of a `docs` folder, next to an
`info.json` sidecar holding its name, its tags and a comment. A
`config.json` file holds the default tags and named tag templates. The tool
has three working screens:

- **upload** stages picked files, lets the user set tags, comments and
  names on the selected rows, and commits them into new numbered folders;
- **search** filters the catalogue by tags (greedy or strict), by comment
  or by name, removes rows from the result and exports the result to a zip
  archive;
- **edit** maintains the default tag list and the templates, and writes
  them back into `config.json`.

This project models, in Dafny:

- the shared store (`SaveData`);
- the three screens, as classes whose fields are the lists the screens
  edit in place;
- the text operations the screens rely on: `QString::simplified`,
  splitting on and joining with `", "`, `QString::arg`, the subset of JSON
  the configuration uses, and the sort orders.

The file system is abstracted:

- whether the working folder exists is a parameter;
- `config.json` is the JSON document it holds (`None` when it cannot be
  read);
- the `docs` folder is a map from sub-folder name to what the sub-folder's
  `info.json` holds;
- selected rows of a list widget are a sequence of row numbers.

Files:

- `option.dfy`: the Option type.
- `text.dfy`: whitespace simplification, splitting, joining, substring
  search, decimal numbers, path names.
- `ordering.dfy`: QString order, sorting, QMap key order.
- `rows.dfy`: removing selected rows, the subsequence relation.
- `json.dfy`: the JSON values, a parser for the subset the tool writes, and
  the text builders.
- `arg.dfy`: `QString::arg`.
- `docinfo.dfy`: the document record.
- `savedata.dfy`: the store and its properties.
- `compose.dfy`: the double-click rule.
- `searchscreen.dfy`, `uploadscreen.dfy`, `editscreen.dfy`: the three
  screens and their properties.

## Model

| member | source | states |
|---|---|---|
| Text.Split | DocTestTool/constants.cpp:12 | splitting on ", " always yields at least one token, and joining the tokens with ", " gives the text back |
| Text.Tokens | DocTestTool/searchscreen.cpp:231 | the tokens of an input box join back to its simplified text, and there is at least one of them |
| Text.SimplifiedIsNormal | DocTestTool/searchscreen.cpp:231 | simplified text has only single spaces as whitespace, none at either end and never two in a row |
| Text.BlankSimplifiesToEmpty | DocTestTool/searchscreen.cpp:231 | text made only of whitespace simplifies to the empty string |
| Text.SplitJoin | DocTestTool/uploadscreen.cpp:152 | splitting the join of parts that hold no delimiter gives the parts back |
| Text.SplitAppend | DocTestTool/uploadscreen.cpp:158 | appending ", " and more text appends that text's tokens |
| Text.NumberTextInjective | DocTestTool/uploadscreen.cpp:355-356 | different folder numbers have different decimal names |
| Text.BaseName | DocTestTool/uploadscreen.cpp:92-96 | the file name holds no '/', is a suffix of the path, and is either the whole path or follows a '/' |
| Text.PathJoin | DocTestTool/savedata.cpp:185 | a path built in a folder ends with "/" and the name |
| Ordering.SortStrings | DocTestTool/savedata.cpp:79 | QStringList::sort gives a sorted permutation of its input |
| Ordering.SortBy | DocTestTool/editscreen.cpp:185-187 | sorting gives a permutation of the input, sorted by the key in code-point order (QStringList::sort; it also stands in for the list widget's sortItems at editscreen.cpp:210, see Left out) |
| Ordering.SortedKeys | DocTestTool/uploadscreen.cpp:24-31 | walking a QMap from constBegin to constEnd visits its keys in ascending order, each once |
| Ordering.SortedSetStrictlyAscending | DocTestTool/savedata.cpp:108-122 | a QMap is walked in strictly ascending key order, each key once |
| Ordering.LexLeTransitive | DocTestTool/savedata.cpp:79 | the string order used for sorting is transitive |
| Rows.RemoveRows | DocTestTool/searchscreen.cpp:139-153 | removing the selected rows highest first removes exactly the selected rows of the original list and keeps the rest in order |
| Rows.RemoveBelowRemoved | DocTestTool/searchscreen.cpp:150-153 | removing a row below all rows removed so far removes that row of the original list |
| Rows.KeepRowsIsSubseq | DocTestTool/searchscreen.cpp:150-153 | what is left after removing rows is a subsequence of the list |
| Rows.KeepRowsLength | DocTestTool/uploadscreen.cpp:223-226 | the list shrinks by exactly the number of selected rows that exist |
| JsonText.ArrayReadBack | DocTestTool/savedata.cpp:105 | a quoted, ", "-joined list of plain strings in brackets parses back to the array of those strings, with the text after it untouched |
| JsonText.ObjectReadBack | DocTestTool/savedata.cpp:107-122 | the "name":[...] members joined by ", " in braces parse back to the object mapping each name to its array |
| JsonText.MembersReadBack | DocTestTool/savedata.cpp:111-120 | the members of a template object read back one by one |
| JsonText.Strings | DocTestTool/savedata.cpp:56-59 | the strings of an array of JSON strings are the strings written |
| JsonText.AsStrings | DocTestTool/savedata.cpp:56-59 | reading an array keeps its length, and each string element reads as itself |
| Placeholders.FirstSubstitution | DocTestTool/savedata.cpp:125 | the first arg call replaces %1 and leaves the %2 marker in place |
| Placeholders.SecondSubstitution | DocTestTool/savedata.cpp:125 | the second arg call replaces the %2 marker |
| Placeholders.SecondSubstitutionTwice | DocTestTool/savedata.cpp:125 | when the first call's text brought in another %2, the second call replaces both |
| Placeholders.Arg | DocTestTool/savedata.cpp:125 | a text without place markers, in particular one without '%', comes back unchanged |
| Placeholders.MarkerAt | DocTestTool/savedata.cpp:124 | a place marker is '%' and a number below 100, at least two characters long |
| Docs.NewDoc | DocTestTool/uploadscreen.cpp:94-97 | a staged record keeps the picked path and has no tags and no comment |
| Docs.NewDocName | DocTestTool/uploadscreen.cpp:96 | a staged record's name is the last component of its path |
| SaveStore.SaveData.constructor | DocTestTool/savedata.h:10-15 | the store starts with no tags, no templates, an empty catalogue and the folder counter at 0 |
| SaveStore.SaveData.ConfigFilePath | DocTestTool/savedata.cpp:82-89 | config.json is in the working folder when it exists, in "base" otherwise |
| SaveStore.SaveData.DocsFilePath | DocTestTool/savedata.cpp:91-98 | the docs folder is in the working folder when it exists, in "base" otherwise |
| SaveStore.SaveData.LoadConfig | DocTestTool/savedata.cpp:41-80 | the default tags become the document's tags array, sorted, or none; the document's templates are written over the ones held and the others are kept; nothing else changes |
| SaveStore.SaveData.ExportTagsToFile | DocTestTool/savedata.cpp:100-142 | the result is true iff the text the two chained arg calls build (tags, then templates in key order) parses; what is written is that document, and only when the file can be opened |
| SaveStore.ArgConfig | DocTestTool/savedata.cpp:124-125 | the pattern with the tags text substituted first and the templates text second; when the tags text holds no '%' it is the intended text, each part in its place |
| SaveStore.SaveData.LoadFilesData | DocTestTool/savedata.cpp:144-192 | the catalogue is rebuilt from scratch, with one record per sub-folder in listing order whose info.json holds a non-empty object; nothing else changes |
| SaveStore.DocFromSidecar | DocTestTool/savedata.cpp:162-185 | a catalogue record's path is its name inside its folder; a tags field that is an array gives its strings, a comment or filename field that is a string gives that string; a missing or mistyped tags field gives no tags, a missing or mistyped comment gives "", a missing or mistyped filename gives the name "" and the path of the folder followed by '/' |
| SaveStoreProperties.ConfigRoundTrip | DocTestTool/savedata.cpp:41-142 | with tags and names free of '"', '\\' and control characters, the exported text parses, and reading it gives the same tags and exactly the same templates |
| SaveStoreProperties.ConfigDocument | DocTestTool/savedata.cpp:124-129 | the exported text parses to the object {"tags": array, "templates": object} |
| SaveStore.PatternAgrees | DocTestTool/savedata.cpp:124-125 | the two arg calls give the intended text whenever the tags text holds no '%' |
| SaveStoreProperties.ExportRoundTrip | DocTestTool/savedata.cpp:41-142 | when no default tag holds '%', the exported text is the intended one; with plain tags and names it parses and reads back as the same tags and exactly the same templates |
| SaveStoreProperties.ArgConfigMarkerTag | DocTestTool/savedata.cpp:124-125 | a tags text holding %2 has the templates text substituted inside it as well |
| SaveStoreProperties.ArgConfigLosesMarkerTag | DocTestTool/savedata.cpp:124-125 | the tag "%2" with no templates is written as the tag "" and reads back as [""] instead of ["%2"] |
| SaveStoreProperties.ArgConfigRejectsMarkerTag | DocTestTool/savedata.cpp:124-128 | the tag "%1" with no templates makes the exported text invalid JSON, so the export fails, while the intended text parses |
| SaveStoreProperties.LeftMarkerFails | DocTestTool/savedata.cpp:126-128 | the text {"tags":[""], "templates":{%2}} is rejected by the JSON reader |
| SaveStoreProperties.SidecarReadBack | DocTestTool/uploadscreen.cpp:365-370 | a sidecar written for a record is non-empty and reads back as the record, its path now inside the folder |
| SaveStoreProperties.CatalogueRecords | DocTestTool/savedata.cpp:146-191 | a record is in the catalogue iff some listed sub-folder has a non-empty info.json describing it |
| Compose.ComposeInput | DocTestTool/uploadscreen.cpp:143-162 | double-clicking an empty key changes nothing; a template name puts its tags in the box; any other key ends the new text; the same rule is at searchscreen.cpp:100-120 |
| Compose.TemplateTokens | DocTestTool/uploadscreen.cpp:149-153 | picking a template brings back exactly its tags as tokens |
| Compose.AppendedToken | DocTestTool/uploadscreen.cpp:155-160 | picking a plain tag keeps the tokens typed so far and adds the tag as the last token |
| Compose.ComposeEdit | DocTestTool/editscreen.cpp:102-136 | the edit screen applies the same rule to the tags box when the combo shows "Tags", else to the second box, and leaves the other box alone |
| Search.ZipName | DocTestTool/searchscreen.cpp:173-176 | the archive name ends with ".zip", and ".zip" is added only when it was missing |
| Search.SearchScreen.constructor | DocTestTool/searchscreen.cpp:15-18 | the result list starts empty |
| Search.SearchScreen.AppendAnyMatches | DocTestTool/searchscreen.cpp:233-243 | the nested loop with break appends, in catalogue order, exactly the records some token hits |
| Search.SearchScreen.DoGreedySearch | DocTestTool/searchscreen.cpp:226-245 | appends the records with at least one token among their tags, nothing for empty text |
| Search.SearchScreen.DoStrictSearch | DocTestTool/searchscreen.cpp:247-271 | appends the records that carry every token, nothing for empty text |
| Search.SearchScreen.FindTags | DocTestTool/searchscreen.cpp:206-224 | the old result is dropped; the new one is the strict or greedy search as the box says |
| Search.SearchScreen.FindComments | DocTestTool/searchscreen.cpp:273-300 | the result is the records whose comment contains a token; the strict box plays no part |
| Search.SearchScreen.FindName | DocTestTool/searchscreen.cpp:302-329 | the result is the records whose name contains a token; the strict box plays no part |
| Search.SearchScreen.DeleteFromDocs | DocTestTool/searchscreen.cpp:129-154 | exactly the selected result rows are removed, the rest stay in order |
| Search.SearchScreen.Save | DocTestTool/searchscreen.cpp:156-204 | nothing is written for no results or no name; the archive name gets ".zip"; entries are numbered 1, 2, ... over the files that open, as number, separator, name |
| SearchProperties.FilterMembers | DocTestTool/searchscreen.cpp:233-243 | a record is in a result iff it is in the catalogue and matches |
| SearchProperties.FilterIsSubseq | DocTestTool/searchscreen.cpp:233-243 | every result is a subsequence of the catalogue, so each entry appears at most once and in order |
| SearchProperties.GreedyFinds | DocTestTool/searchscreen.cpp:226-245 | greedy search finds a record iff the text is non-empty and one token is one of its tags |
| SearchProperties.StrictFinds | DocTestTool/searchscreen.cpp:247-271 | strict search finds a record iff the text is non-empty and every token is one of its tags |
| SearchProperties.CommentFinds | DocTestTool/searchscreen.cpp:273-300 | comment search finds a record iff the text is non-empty and its comment contains a token |
| SearchProperties.NameFinds | DocTestTool/searchscreen.cpp:302-329 | name search finds a record iff the text is non-empty and its name contains a token |
| SearchProperties.StrictWithinGreedy | DocTestTool/searchscreen.cpp:231-268 | the strict result is a subsequence of the greedy result for the same text |
| SearchProperties.EntriesNumbered | DocTestTool/searchscreen.cpp:180-198 | the j-th entry is numbered j + 1 and names the j-th result whose file opened |
| SearchProperties.EntryNamesDistinct | DocTestTool/searchscreen.cpp:187 | no two entries of one archive share a name |
| Upload.TagsFrom | DocTestTool/uploadscreen.cpp:260-267 | empty text gives no tags, other text gives tokens joining back to its simplified form |
| Upload.Staged | DocTestTool/uploadscreen.cpp:75-100 | staging keeps the records already listed as a prefix |
| Upload.UploadScreen.Init | DocTestTool/uploadscreen.cpp:53-73 | the list is staged afresh from the picked files; true iff any file was picked |
| Upload.UploadScreen.constructor | DocTestTool/uploadscreen.cpp:16-32 | the screen opens with no records, and its tags list holds the default tags in their order followed by the template names in key order |
| Upload.UploadScreen.IsListed | DocTestTool/uploadscreen.cpp:79-87 | the scan reports a duplicate iff some listed record already has the path |
| Upload.UploadScreen.LoadDocs | DocTestTool/uploadscreen.cpp:75-100 | each picked path that no listed record has yet gets a new record at the end |
| Upload.UploadScreen.SetTags | DocTestTool/uploadscreen.cpp:244-270 | each selected row that exists gets the tags of the text, and gets some tags when the text is non-empty; nothing else changes |
| Upload.UploadScreen.SetComment | DocTestTool/uploadscreen.cpp:272-291 | each selected row that exists gets the text as comment; nothing else changes |
| Upload.UploadScreen.SetName | DocTestTool/uploadscreen.cpp:293-312 | each selected row that exists gets the text as name; nothing else changes |
| Upload.UploadScreen.DeleteFromDocs | DocTestTool/uploadscreen.cpp:202-227 | exactly the selected rows leave the list, the rest stay in order |
| Upload.UploadScreen.MissingTagIndex | DocTestTool/uploadscreen.cpp:324-333 | the first row without tags, or -1 iff every row has tags |
| Upload.UploadScreen.CommitBatch | DocTestTool/uploadscreen.cpp:349-382 | the counter rises by the number of records and the docs folder becomes the commit of the list |
| Upload.UploadScreen.FinishUpload | DocTestTool/uploadscreen.cpp:314-388 | the outcome is EmptyBatch iff the list is empty, MissingTag (naming the first row without tags) iff a non-empty list has a row without tags, Committed otherwise; only a commit changes anything: the counter rises by the list's length, new folders get the sidecars and the catalogue is reread |
| UploadProperties.StagedDistinct | DocTestTool/uploadscreen.cpp:79-98 | staging never gives two records the same path |
| UploadProperties.StagedCovers | DocTestTool/uploadscreen.cpp:77-98 | every picked path has a record afterwards |
| UploadProperties.StagedNew | DocTestTool/uploadscreen.cpp:89-97 | the records added are fresh records of picked paths |
| UploadProperties.CommitKeeps | DocTestTool/uploadscreen.cpp:357 | folders that existed before a commit keep what they held |
| UploadProperties.CommitKeys | DocTestTool/uploadscreen.cpp:355-359 | a commit adds exactly the folders numbered counter + 1 to counter + n |
| UploadProperties.CommitPlaces | DocTestTool/uploadscreen.cpp:355-379 | the k-th record lands, with its sidecar, in folder counter + 1 + k when that folder was free |
| UploadProperties.CommitSkipsTaken | DocTestTool/uploadscreen.cpp:357 | a record whose folder number is taken is not stored, but its number is used up |
| UploadProperties.UploadedListed | DocTestTool/uploadscreen.cpp:349-383 | after a commit, each record that got a new folder is in the reread catalogue |
| Edit.TemplatesOf | DocTestTool/editscreen.cpp:239-244 | the rebuilt map has a key for exactly the names listed |
| Edit.ListTemplates | DocTestTool/editscreen.cpp:20-28 | the walk over the template map makes one item per template, name and tags, in ascending key order |
| Edit.EditScreen.constructor | DocTestTool/editscreen.cpp:11-28 | the lists start as the store's default tags and its templates in key order |
| Edit.EditScreen.AddTags | DocTestTool/editscreen.cpp:146-171 | empty text changes nothing; otherwise the list becomes the sorted merge of the typed tokens and the listed tags |
| Edit.EditScreen.AddTemplates | DocTestTool/editscreen.cpp:173-211 | either box empty changes nothing; otherwise each typed name replaces the first item of that name, with the sorted typed tags, and the list is sorted by name in code-point order |
| Edit.EditScreen.RemoveItems | DocTestTool/editscreen.cpp:189-201 | one removal of the first item of each name, in order |
| Edit.EditScreen.RemoveFirstItem | DocTestTool/editscreen.cpp:191-200 | the first item of the name, if any, leaves the list |
| Edit.EditScreen.AddItems | DocTestTool/editscreen.cpp:203-209 | one new item per name, carrying the typed tags, at the end |
| Edit.EditScreen.DeleteTags | DocTestTool/editscreen.cpp:213-228 | exactly the selected entries leave both lists |
| Edit.EditScreen.StoreLists | DocTestTool/editscreen.cpp:232-244 | the store's tags become the listed tags in order, and its templates are rebuilt from the items |
| Edit.EditScreen.FinishEdit | DocTestTool/editscreen.cpp:230-260 | the store takes the lists; if config.json exists, the outcome is Saved iff the text the two arg calls build parses, and then the store rereads it, so plain tags without '%' and plain templates come back sorted and unchanged |
| Edit.RemoveFirstAt | DocTestTool/editscreen.cpp:191-200 | removing the first item of a name found at row i removes row i |
| EditProperties.MergeMembers | DocTestTool/editscreen.cpp:157-167 | the merged list holds exactly the typed tokens and the listed tags |
| EditProperties.MergeAddsOnce | DocTestTool/editscreen.cpp:159-167 | a listed tag is added at most once, and only when it was not typed |
| EditProperties.AddTagsKeeps | DocTestTool/editscreen.cpp:157-170 | after adding tags the list is sorted, loses no tag and gains only typed ones |
| EditProperties.RemoveFirstKeeps | DocTestTool/editscreen.cpp:191-200 | removing by name keeps every item of another name |
| EditProperties.RemoveNamedKeeps | DocTestTool/editscreen.cpp:189-201 | an item whose name was not typed survives all removals |
| EditProperties.RemoveFirstCount | DocTestTool/editscreen.cpp:191-200 | at most one item goes per name, and none when no item has it |
| EditProperties.TemplatesAddedSpec | DocTestTool/editscreen.cpp:184-210 | after adding templates the list is sorted by name in code-point order, every typed name has an item with the typed tags, and untyped names keep their items |
| EditProperties.TemplatesOfLast | DocTestTool/editscreen.cpp:239-244 | each name maps to the tags of the last item with that name |

## Left out

- Widgets, colours, status messages, progress bars, scrolling and the
  opening of documents in a viewer are not modelled. They change no data.
- Copying the document file into its new folder and streaming bytes into
  the zip archive are not modelled. The model keeps the folder names, the
  sidecars and the entry names only.
- Whether a file opens is a parameter (`canWrite`, `opens`,
  `archiveOpens`). The zip entry writer failing for one file is not
  modelled.
- Qt's JSON writer re-indents the text it writes. The model stores the
  parsed document instead of the indented text.
- Search.SearchScreen.Save: an entry's source path is not checked against
  the file system.
- JsonText.ParseDocument accepts only strings without escape sequences,
  arrays and objects. Qt's parser also accepts escapes, numbers, true,
  false and null. The round trip is therefore stated only for plain
  strings (no '"', no '\\', no control characters).
- SaveStore.SaveData.ExportTagsToFile / Edit.EditScreen.FinishEdit: the
  export writes tags and template texts unescaped, and the model's reader
  takes no escape sequences. Any backslash in a tag or a template text
  therefore makes the model report invalid JSON (ok false, outcome
  Invalid). The source may instead save, and reload the tag with a valid
  escape decoded: the tag `C:\temp` comes back as "C:", a tab and "emp".
  Likewise, a tag whose '"' closes the string early and continues with a
  number, true, false or null may parse in the source and not in the model.
- JsonText.AsStringList reads a non-string element of a template array as
  "". QVariant::toStringList converts numbers and booleans to their text;
  the tool never writes such elements.
- Text.Simplified treats only ASCII whitespace as space. Unicode
  whitespace is not modelled.
- Placeholders.IsDigit / Ordering.LexLe: a place-marker digit is only
  '0' to '9', while Qt's marker scan also takes other Unicode decimal
  digits. LexLe compares code points, while QString compares UTF-16 code
  units; the two orders differ between characters beyond U+FFFF and
  characters from U+E000 to U+FFFF.
- LexLe compares characters by code point. The directory listing is
  modelled in this order; it may differ from QDir's case-insensitive order
  for names other than the tool's numbered folders.
- PathJoin concatenates with "/". QDir's absolute-path resolution and path
  cleaning are not modelled.
- SaveStore.SaveData.LoadConfig takes the document's template keys in no
  fixed order: it picks any key still pending. The order does not matter,
  because the keys are distinct and each one writes only its own entry.
- The folder counter has no declaration and no initial value in the
  source. The model starts it at 0 and does not persist it.
- Upload.UploadScreen.FinishUpload takes one `canWrite` flag for all
  sidecars of a commit. A sidecar that fails to write leaves a folder
  without info.json, and that folder is skipped by the catalogue.
- Ordering.SortBy / Edit.EditScreen.AddTemplates: the template list is
  sorted by name in code-point order with a stable sort. The source's
  sortItems compares the names with QString::localeAwareCompare, which can
  order names differently, and uses an unstable sort. So when two items
  share a name, which of them finishEdit writes last is fixed in the model
  but not in the source.
- Edit.EditScreen.FinishEdit: when the export parses but the file cannot
  be written, the store rereads the previous file contents, given as a
  parameter.
- Selected rows are assumed to be in range and listed once each, as the
  list widgets report them. QList::removeAt requires this.
- The login screen's folder creation, the main screen, the Google Drive
  sign-in code and the early single-window version in
  DocTestTool/doctesttool.cpp are not part of this model. They are GUI
  wiring, file-system set-up or network code outside the catalogue.

## Findings

| source | as written | input that shows it | evidently intended | confidence | as-written member | corrected member |
|---|---|---|---|---|---|---|
| DocTestTool/savedata.cpp:124-125 | the config text is built with two chained QString::arg calls; the second call replaces the lowest marker left, including one the tags text brought in | default tags ["%2"] and no templates: the text becomes {"tags":[""], ...}, which reads back as the tag "" | the tags and templates texts put in place literally, so that exporting and reloading restores every tag | not executed | SaveStoreProperties.ArgConfigLosesMarkerTag | SaveStoreProperties.ConfigRoundTrip |
| DocTestTool/savedata.cpp:124-128 | the same chained arg calls; a tags text holding a marker numbered below 2 takes the second call's substitution, and the templates' %2 marker is left in the text | default tags ["%1"] and no templates: the text becomes {"tags":[""], "templates":{%2}}, which is not JSON, so the export reports invalid JSON and writes nothing (tags such as "%0" or "%01" act the same way) | the same as above: every tag written literally, so the export succeeds | not executed | SaveStoreProperties.ArgConfigRejectsMarkerTag | SaveStoreProperties.ConfigRoundTrip |

The export in the model (SaveStore.ArgConfig, used by
SaveStore.SaveData.ExportTagsToFile and Edit.EditScreen.FinishEdit)
follows the code as written. The intended text is SaveStore.ConfigText,
and SaveStoreProperties.ConfigRoundTrip proves the round trip for it.
SaveStoreProperties.ExportRoundTrip shows that the two agree whenever no
default tag holds '%'.
