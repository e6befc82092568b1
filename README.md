# Photo gallery updater, modelled in Dafny

`update_gallery.py` keeps the photo list of a Flutter gallery widget up to date. It
has four steps:

1. It reads each photo's date. The date comes from the EXIF data when there is any.
   Otherwise it comes from the file name, through three patterns:
   - WhatsApp's `IMG-YYYYMMDD-WA<n>`;
   - `WhatsApp Image YYYY-MM-DD at H.M.S`;
   - the leftmost `YYYYMMDD` or `YYYY-MM-DD` anywhere in the name.
2. It files every photo under a category key. A photo of 2025 goes under a month
   key (`2025 - January`). A photo of any other year goes under a year key (`2019`).
   A photo without a date goes under `Unknown`.
3. It sorts each list newest first, and sorts the keys in descending `sort_key`
   order.
4. It emits two Dart methods as text. These are the photo list and the mapping from
   each photo to its category, together with a Dart comparator that re-sorts the keys.
   That text replaces the block the pattern of line 321 finds.

The model has one module per concern:

| module | what it models |
|---|---|
| `Options` | Python's `None` |
| `Text` | ASCII digits, `int()`, `str.find`, `str.split`, `'\n'.join` |
| `Dates` | `datetime`: validity, comparison, adding microseconds with its overflow |
| `FilenameDate` | `extract_date_from_filename`, with its regular expressions as functions on strings |
| `Categories` | category keys, `sort_key`, and the emitted Dart key comparator |
| `Sorting` | Python's stable `sort(key=…, reverse=True)` |
| `Grouping` | the dictionary that is built, for any key function |
| `Organizer` | `organize_photos_by_date` as methods with loops, proved against `Grouping` |
| `DartEmitter` | `generate_dart_code` as a method that appends lines, proved against a line-list function; its output read back |

**Exceptions.** An exception the source does not catch is a value in the model:
- `FilenameDate.Raises` names the inputs that end the call. These are the
  OverflowError of an addition past year 9999, and an hour, minute or second
  outside a C `int`.
- `Organizer.OrganizePhotosByDate` returns `None` when any file raises.

**Unknown goes first.** The comment on line 145 says `Unknown` goes "at the end".
But `(9999, 13)` under `reverse=True` puts it first. The model follows the code:
`Unknown` is the first key of the dictionary (`Organizer.OrganizeUnknownFirst`).
The emitted Dart comparator puts it last (`Categories.DartPutsUnknownLast`).

## Model

| member | source | states |
|---|---|---|
| FilenameDate.ExtractDateFromFilename | update_gallery.py:35-81 | Only pattern 1 can give a datetime with microseconds. A name that matches neither WhatsApp pattern gives exactly what the generic scan gives: midnight of a date spelled in the name, or None. |
| FilenameDate.MatchWa | update_gallery.py:38 | When the WhatsApp pattern matches, its groups are eight digits and a non-empty digit run. The name then starts with `IMG-`, those eight digits, `-WA`, the run and a dot, followed by one of the six extensions. |
| FilenameDate.WaFileNameMatch | update_gallery.py:38 | Pattern 1 matches every `IMG-<YYYYMMDD>-WA<digits>.<ext>` name with any tail, and yields that date and counter. |
| FilenameDate.CompactDateSpelling | update_gallery.py:43 | Eight digits parse as a date exactly when they are that date's `%Y%m%d` spelling. |
| FilenameDate.WaFileNameExtract | update_gallery.py:38-47 | A WhatsApp name raises exactly when date plus counter microseconds passes year 9999. Otherwise it yields exactly that sum. |
| FilenameDate.WaCounterWithinDay | update_gallery.py:44-45 | A counter below one day's microseconds keeps the photo's day, and sets the time of day to the counter. |
| FilenameDate.WaLargerCounterIsLater | update_gallery.py:44-45 | Of two WhatsApp names from the same day, the larger counter gives a strictly later datetime. If the larger one does not raise, the smaller one does not either. |
| FilenameDate.WaExample | update_gallery.py:37-45 | `IMG-20250122-WA0005.jpg` gives 2025-01-22 00:00:00.000005. |
| FilenameDate.WaAttempt | update_gallery.py:38-47 | Pattern 1 falls through exactly when it does not match or its eight digits are no date. It raises only on a valid date, the OverflowError. A datetime it returns has the counter, modulo one day, as its time of day. |
| FilenameDate.WaInvalidDateFallsThrough | update_gallery.py:38-47 | A pattern-1 name whose eight digits are no date does not raise, and yields what the generic scan yields. |
| FilenameDate.WaInvalidDateExample | update_gallery.py:38-81 | `IMG-20251301-WA1.jpg` (month 13) gives None. |
| FilenameDate.MatchLongForm | update_gallery.py:50 | When the long WhatsApp pattern matches, its date groups have 4, 2 and 2 digits, and its clock groups are digit runs. |
| FilenameDate.MatchLongFormShape | update_gallery.py:50 | A name pattern 2 matches starts with `WhatsApp Image `, its date groups joined by dashes, ` at `, its clock groups each followed by a dot, and then one of the six extensions. |
| FilenameDate.LongFormFileNameMatch | update_gallery.py:38-50 | A long WhatsApp name never matches pattern 1. Pattern 2 reads back exactly its six fields. |
| FilenameDate.LongFormFileNameExtract | update_gallery.py:49-61 | A long name raises exactly when a clock field exceeds a C `int`. Otherwise it yields its datetime when that is valid, and falls through to the generic scan when it is not. |
| FilenameDate.LongAttempt | update_gallery.py:49-61 | Without a match pattern 2 falls through. It raises only when a clock field exceeds a C `int`. A datetime it returns has exactly the six matched fields and no microseconds. |
| FilenameDate.LongFormFallback | update_gallery.py:59-74 | An invalid long name with short clock fields and no digits after the extension falls back to its own `YYYY-MM-DD` at midnight, or None when that date is invalid too. |
| FilenameDate.GenericScan | update_gallery.py:63-79 | A result is midnight of a date spelled in the name as `YYYYMMDD` or `YYYY-MM-DD`. |
| FilenameDate.GenericScanCompact | update_gallery.py:64-74 | When the leftmost run of eight digits spells a valid date, the result is that date at midnight. |
| FilenameDate.GenericScanDashed | update_gallery.py:64-79 | When the first pattern gives no date, the result is the leftmost `YYYY-MM-DD` at midnight if it is a valid date, and None if it is not. |
| FilenameDate.GenericScanNone | update_gallery.py:64-81 | When the first pattern gives no date and no `YYYY-MM-DD` occurs, the result is None. |
| FilenameDate.DotField | update_gallery.py:38-50 | `(\d+)\.` takes a non-empty run of digits, and what it splits off reassembles the input. |
| FilenameDate.SearchCompact | update_gallery.py:65-70 | `re.search` for eight digits: the leftmost start, or none anywhere. |
| FilenameDate.SearchDashed | update_gallery.py:66-70 | `re.search` for `dddd-dd-dd`: the leftmost start, or none anywhere. |
| FilenameDate.GenericCompactFound | update_gallery.py:63-74 | A valid `YYYYMMDD` after a digit-free prefix is found, whatever follows it. |
| FilenameDate.GenericDashedFound | update_gallery.py:63-74 | A valid `YYYY-MM-DD` in a name with no other digits is found. |
| FilenameDate.GenericOnlyLeftmostCompactTried | update_gallery.py:69-79 | When the leftmost eight digits are no date, a valid `YYYYMMDD` further right is never tried. |
| FilenameDate.GenericInvalidCompactMovesOn | update_gallery.py:69-79 | An invalid leftmost eight-digit run hands over to a later `YYYY-MM-DD`. |
| Text.ParseInt | update_gallery.py:149-159 | On the digit strings and key parts the script passes, `int()` succeeds exactly when the string is non-empty ASCII digits, and gives a non-negative value. |
| Text.NatToStringRoundTrip | update_gallery.py:121-128 | `str(year)` reads back as the year. |
| Text.IndexOf | update_gallery.py:147 | `' - ' in key`: the leftmost occurrence at or after a position, or none at all. |
| Text.Split | update_gallery.py:149-150 | `key.split(' - ')` has at least one part. Without the separator it is the key alone. Otherwise it has two or more parts, and the first is the text before the leftmost separator. |
| Text.JoinLinesStartsWith | update_gallery.py:289 | Lines joined by newlines start with the first line. |
| Text.JoinLinesEndsWith | update_gallery.py:289 | Lines joined by newlines end with the last two lines and the newline between them. |
| Dates.CodeOrder | update_gallery.py:140 | The integer code of a datetime orders datetimes exactly as Python compares them. |
| Dates.AddMicroseconds | update_gallery.py:45 | The result overflows exactly when the day carry of `n` microseconds moves the date past the last representable day. Otherwise its date is the date that many days later, and its clock is the remainder. |
| Dates.AddMicrosecondsWithinDay | update_gallery.py:45 | An offset that stays within the day never overflows. It keeps the date and advances the clock by exactly the offset. |
| Dates.AddMicrosecondsMonotone | update_gallery.py:45 | A larger offset gives a strictly later datetime, and never overflows sooner. |
| Dates.NextDay | update_gallery.py:45 | The next calendar day is the least date after `d`. It is None exactly on 9999-12-31. |
| Categories.Categorize | update_gallery.py:111-136 | A photo has the Unknown category exactly when it has no date. Otherwise it has its year, plus its month in 2025 only. |
| Categories.Label | update_gallery.py:121-136 | A key is `Unknown` exactly for the Unknown category. |
| Categories.RankInjective | update_gallery.py:121-136 | Two categories share a key, or a place in the order, only when they are equal. |
| Categories.LabelSeparator | update_gallery.py:121-147 | Only month keys contain `' - '`. |
| Categories.MonthIndex | update_gallery.py:155 | `month_names.index(name)` gives a position whose name is `name`. It raises exactly when `name` is not a month name. |
| Categories.MonthIndexOfName | update_gallery.py:155 | `month_names.index` finds each month name at its own position. |
| Categories.SortKey | update_gallery.py:143-160 | `Unknown` gets `(9999, 13)`. Every tuple's month part lies between 0 and 13. |
| Categories.SortKeyOfLabel | update_gallery.py:143-160 | `sort_key` reads every key back as its category's rank, with no exception. |
| Categories.KeyCategoryOfLabel | update_gallery.py:143-160 | Every key names a category, and reading it back through `sort_key` gives that category. |
| Categories.SortCodeOrder | update_gallery.py:143-162 | The integer code of a key orders keys as `sort_key`'s tuples do. |
| Categories.SortCodeInjective | update_gallery.py:143-162 | Two keys share a place in the order only when they are equal. |
| Categories.UnknownRanksFirst | update_gallery.py:144-145 | `(9999, 13)` is above every other category's tuple. |
| Categories.CategorizeMonotone | update_gallery.py:111-160 | A later photo never lands in a category ranked below an earlier photo's. |
| Categories.CompareTo | update_gallery.py:260-276 | Dart's `compareTo` is negative, zero or positive exactly as `x < y`, `x == y` or `x > y`. |
| Categories.DartCompareKeys | update_gallery.py:249-279 | The comparator returns 1 when `a` is `Unknown`, and -1 when only `b` is. |
| Categories.DartYearOnlyReadsOnlyYear | update_gallery.py:267-273 | A year-only key compared with a month key reads only that key's year, never its month name. On different years the later year comes first, and on the same year the month key comes first. |
| Categories.DartYearOnlyExample | update_gallery.py:267-273 | `2024` against `2024 - Foo` returns 1, although `Foo` is no month name. |
| Categories.DartAgreesWithSortKey | update_gallery.py:249-279 | On keys other than `Unknown`, the Dart comparator never throws. It puts `a` first exactly when `sort_key` ranks `a` above `b`. |
| Categories.DartPutsUnknownLast | update_gallery.py:250-251 | The Dart comparator puts `Unknown` after every other key, while `sort_key` ranks it above them. |
| Sorting.SortDesc | update_gallery.py:140 | The sorted list is a permutation of the input in non-increasing key order. |
| Sorting.SortDescStable | update_gallery.py:140 | Among equal keys, the input order is kept. |
| Sorting.SortDescUnique | update_gallery.py:140 | Any non-increasing, stable rearrangement of the input is the sorted list. |
| Sorting.SortDescStrict | update_gallery.py:162 | With pairwise distinct keys, the sorted order is strictly decreasing. |
| Grouping.FirstSeenKeys | update_gallery.py:123-136 | A key is in the dictionary exactly when some file has it. |
| Grouping.FirstSeenDistinct | update_gallery.py:123-136 | No key is created twice. |
| Grouping.MembersHaveKey | update_gallery.py:125-136 | Every file listed under a key is an input file with that key. |
| Grouping.GroupSortedPartition | update_gallery.py:103-168 | Every input file appears in the lists exactly as often as in the input. No key occurs twice. |
| Grouping.GroupSortedBucket | update_gallery.py:103-166 | Every list is non-empty. It holds exactly the files of its key, newest first, and equal dates stay in input order. |
| Grouping.GroupSortedKeyOrder | update_gallery.py:162-166 | Keys come in non-increasing rank. When no two keys share a rank, they are strictly decreasing. |
| Organizer.OrganizePhotosByDate | update_gallery.py:101-168 | The call raises exactly when some file has no EXIF date and a name that raises. Otherwise it returns the dictionary `Organize` describes. |
| Organizer.PhotoDate | update_gallery.py:109 | A photo's date is its EXIF date when it has one, and otherwise the date its file name gives. |
| Organizer.SortTime | update_gallery.py:140 | The sort time is the photo's date. A photo without one sorts as `datetime.min`, which no datetime precedes. |
| Organizer.OrganizeExifWins | update_gallery.py:106-136 | When no file raises, a photo with an EXIF date is in the list keyed by that date's category, whatever its file name spells. |
| Organizer.PhotoKey | update_gallery.py:106-136 | One photo's key, or failure exactly when line 109 raises for it. |
| Organizer.FileByKey | update_gallery.py:103-136 | The loop fails exactly when a file raises. Otherwise keys are created in order of first use, and each list holds exactly that key's files in input order. |
| Organizer.FileOne | update_gallery.py:105-136 | One iteration files the next photo under its key, and keeps the loop invariant. |
| Organizer.SortGroups | update_gallery.py:138-140 | Each list is replaced by its newest-first stable sort. The key set is unchanged. |
| Organizer.Rebuild | update_gallery.py:164-166 | The new dictionary lists the entries in the order of the sorted keys. |
| Organizer.OrganizeWith | update_gallery.py:103-168 | The whole function for a named key function: None exactly on a raising file, otherwise the grouped and sorted dictionary. |
| Organizer.OrganizeBucket | update_gallery.py:103-140 | Each list is non-empty. It holds exactly the files whose date falls in its category, and no photo precedes a later one. |
| Organizer.OrganizeKeyOrder | update_gallery.py:143-166 | `sort_key` reads every key without raising, and the keys come in strictly descending tuple order. |
| Organizer.OrganizeUnknownFirst | update_gallery.py:133-166 | `Unknown` is the first key exactly when some photo has no date. |
| Organizer.DartKeyOrder | update_gallery.py:143-166 | The emitted comparator agrees with the dictionary's key order on every pair of keys, except that it moves `Unknown` from first to last. |
| DartEmitter.GenerateDartCode | update_gallery.py:170-289 | The text is the lines `DartLines` lists, joined by newlines. The lemmas below read that text back. |
| DartEmitter.AppendPhotoList | update_gallery.py:177-182 | The loop appends a comment and the asset lines for each category that has photos. |
| DartEmitter.AppendPhotoLines | update_gallery.py:181-182 | The inner loop appends one asset line per photo, in order. |
| DartEmitter.AppendEntries | update_gallery.py:199-201 | The loop appends one `organized` entry per category that has photos. |
| DartEmitter.AppendAssignments | update_gallery.py:208-210 | The loop appends one `photoCategories` entry per photo. |
| DartEmitter.AppendAssignmentLines | update_gallery.py:209-210 | The inner loop appends one entry per photo of a category, each naming that category. |
| DartEmitter.DartCodeMatchesAnchor | update_gallery.py:173-321 | The generated text starts with the `_loadGalleryPhotos` signature and ends with `return sortedOrganized;`, a newline and `  }`. The pattern of line 321 therefore finds it again on the next run. |
| DartEmitter.PhotoListRoundTrip | update_gallery.py:177-182 | Reading the photo list back gives every photo of the dictionary in order, and the keys of the categories that have photos. |
| DartEmitter.EntriesRoundTrip | update_gallery.py:199-201 | Reading the `organized` entries back gives the keys of the categories that have photos. |
| DartEmitter.AssignmentsFollowKeys | update_gallery.py:208-210 | When each list holds only photos of its key, `photoCategories` maps each photo of the flat list, in order, to its own key. |
| DartEmitter.EmittedGallery | update_gallery.py:101-289 | For what `organize_photos_by_date` returns, the photo list names every file exactly as often as it was given, and comments every key. `organized` has an entry for every key. `photoCategories` gives each listed photo its own key. |

## Left out

- `extract_exif_date` (lines 14-33) opens the image file. It becomes the parameter `Organizer.Exif`, a function from file name to optional datetime.
- `get_image_files` (lines 83-99), `update_gallery_dart` (lines 291-337) and `main` (lines 339-362) are not part of this model. They list a directory, read and write files, and print.
- The search and substitution of lines 321-325 on the existing Dart file are also left out. `DartEmitter.MatchesAnchor` states only that the generated text is one complete match of the pattern. It takes the pattern's `\s*` as empty and ignores the lazy `[\s\S]*?` finding an earlier end inside the text.
- `Text.ParseInt` accepts only non-empty ASCII digit strings. Python's `int()` also accepts a sign, surrounding whitespace and underscores. Dart's `int.parse` also accepts a sign and a `0x` prefix. The script only passes digit groups of its patterns and parts of the keys it builds, so these forms never reach it. Python's limit of 4300 digits for `int()` is not modelled. For pattern 1's counter it would raise at line 41, outside the `try`. For a field of pattern 2 or 3 (lines 53-58, 73) it would raise a ValueError inside the `try`, which the source catches and moves on from; `FilenameDate.LongAttempt` instead treats an hour, minute or second of that size as an uncaught overflow. File names on common file systems are at most 255 bytes long, so they cannot hold that many digits.
- Regular expressions are modelled over ASCII digits. Python's `\d` also matches other Unicode decimal digits, which `int()` accepts.
- Code that runs in the Flutter app is emitted as fixed text and not modelled:
  - `_extractDateFromFileName`;
  - `_exifDates`;
  - the within-category photo sort of lines 230-245.
- `_getMonthNumber` is not defined in the script. `Categories.MonthNumber` takes it to be the month's position counted from 1.
- `Organizer.OrganizePhotosByDate`: an exception from line 109 becomes `None`. The model does not say which exception or after how many files it is raised.
- `FilenameDate.ExtractDateFromFilename` requires `!Raises(name)`, because the source raises on those names rather than returning. `Raises` states exactly which names they are.
- The `len(match.groups()) == 1` branch (lines 75-77) is unreachable, because both patterns have three groups, so it has no counterpart.
- Line 140 calls `extract_exif_date` and `extract_date_from_filename` a second time for each file. The model takes the same date again, which assumes the EXIF data does not change between the two reads.
