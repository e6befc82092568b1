/** `generate_dart_code` (lines 170-289): the source of the two Dart methods the
    gallery widget is patched with, `_loadGalleryPhotos` (the photo list) and
    `_organizePhotosByDate` (the category of each photo, and the key comparator),
    as lines joined with newlines. */
module DartEmitter {
  import opened Options
  import opened Text
  import opened Grouping
  import opened Categories
  import opened Organizer

  /** Line 173, which is also where the pattern of line 321 starts. */
  const Signature: string := "  Future<void> _loadGalleryPhotos() async {"

  /** Lines 173-175: the first method opens its list of asset paths. */
  const Head: seq<string> := [Signature, "    // List all photos from the gallery folder", "    final List<String> photoFiles = ["]

  /** Lines 184-197: the list closes, the first method ends and the second one
      opens its dictionary of categories. */
  const LoadTail: seq<string> := [
    "    ];",
    "    ",
    "    _allPhotos = photoFiles;",
    "    await _loadExifDates(photoFiles);",
    "    _organizedPhotos = _organizePhotosByDate(photoFiles);",
    "    await _loadImageSizes();",
    "  }",
    "",
    "  Map<String, List<String>> _organizePhotosByDate(List<String> photoPaths) {",
    "    // Use the organization determined by the Python script with EXIF data",
    "    // This is more reliable than trying to read EXIF in Flutter web",
    "    final Map<String, List<String>> organized = {"
  ]

  /** Lines 203-206: the dictionary closes and the map from photo to category opens. */
  const Between: seq<string> := [
    "    };",
    "",
    "    // Manually organize based on the Python script results",
    "    final Map<String, String> photoCategories = {"
  ]

  /** Lines 212-285: the map closes; the rest files every photo under its category,
      sorts each list and sorts the keys with the comparator that
      `Categories.DartCompareKeys` models. */
  const Tail: seq<string> := [
    "    };",
    "",
    "    for (String photoPath in photoPaths) {",
    "      final String category = photoCategories[photoPath] ?? 'Unknown';",
    "      ",
    "      if (!organized.containsKey(category)) {",
    "        organized[category] = [];",
    "      }",
    "      organized[category]!.add(photoPath);",
    "",
    "      if (kDebugMode) {",
    "        print('Organizing $photoPath: category = $category');",
    "      }",
    "    }",
    "",
    "    // Remove empty categories",
    "    organized.removeWhere((key, value) => value.isEmpty);",
    "",
    "    // Sort photos within each category by actual taken date (newest first)",
    "    organized.forEach((key, photos) {",
    "      photos.sort((a, b) {",
    "        // Use EXIF date if available, otherwise fall back to filename date",
    "        final dateA =",
    "            _exifDates[a] ?? _extractDateFromFileName(a.split('/').last);",
    "        final dateB =",
    "            _exifDates[b] ?? _extractDateFromFileName(b.split('/').last);",
    "",
    "        if (dateA == null && dateB == null) return 0;",
    "        if (dateA == null) return 1;",
    "        if (dateB == null) return -1;",
    "",
    "        return dateB.compareTo(dateA); // Newest first",
    "      });",
    "    });",
    "",
    "    // Sort the keys",
    "    final sortedKeys = organized.keys.toList()",
    "      ..sort((a, b) {",
    "        if (a == 'Unknown') return 1;",
    "        if (b == 'Unknown') return -1;",
    "",
    "        if (a.contains(' - ')) {",
    "          // This is a year-month key (2025)",
    "          final yearA = int.parse(a.split(' - ')[0]);",
    "          final monthA = _getMonthNumber(a.split(' - ')[1]);",
    "          if (b.contains(' - ')) {",
    "            final yearB = int.parse(b.split(' - ')[0]);",
    "            final monthB = _getMonthNumber(b.split(' - ')[1]);",
    "            if (yearA != yearB) return yearB.compareTo(yearA);",
    "            return monthB.compareTo(monthA);",
    "          } else {",
    "            final yearB = int.parse(b);",
    "            if (yearA != yearB) return yearB.compareTo(yearA);",
    "            return -1; // Year-month comes before year-only",
    "          }",
    "        } else {",
    "          // This is a year-only key",
    "          final yearA = int.parse(a);",
    "          if (b.contains(' - ')) {",
    "            final yearB = int.parse(b.split(' - ')[0]);",
    "            if (yearA != yearB) return yearB.compareTo(yearA);",
    "            return 1; // Year-only comes after year-month",
    "          } else {",
    "            final yearB = int.parse(b);",
    "            return yearB.compareTo(yearA);",
    "          }",
    "        }",
    "      });",
    "",
    "    final Map<String, List<String>> sortedOrganized = {};",
    "    for (String key in sortedKeys) {",
    "      sortedOrganized[key] = organized[key]!;",
    "    }",
    ""
  ]

  /** Lines 286-287: the second method returns its dictionary and ends. */
  const Closing: seq<string> := ["    " + ReturnStatement, ClosingBrace]

  const ReturnStatement: string := "return sortedOrganized;"
  const ClosingBrace: string := "  }"

  const AssetPrefix: string := "      'assets/gallery/"
  const CommentPrefix: string := "      // "

  /** Line 180 */
  function CommentLine(category: string): string {
    CommentPrefix + category
  }

  /** Line 182 */
  function PhotoLine(photo: string): string {
    AssetPrefix + photo + "',"
  }

  /** Line 201 */
  function EntryLine(category: string): string {
    "      '" + category + "': [],"
  }

  /** Line 210 */
  function AssignmentLine(photo: string, category: string): string {
    AssetPrefix + photo + "': '" + category + "',"
  }

  function PhotoLines(photos: seq<string>): (lines: seq<string>)
    ensures |lines| == |photos|
  {
    if photos == [] then [] else PhotoLines(photos[..|photos| - 1]) + [PhotoLine(photos[|photos| - 1])]
  }

  /** Lines 178-182: a comment naming each category that has photos, followed by
      its photos. */
  function PhotoList(bs: seq<Bucket>): seq<string> {
    if bs == [] then []
    else
      var b := bs[|bs| - 1];
      PhotoList(bs[..|bs| - 1]) + (if b.photos != [] then [CommentLine(b.key)] + PhotoLines(b.photos) else [])
  }

  /** Lines 199-201: an empty list for each category that has photos. */
  function CategoryEntries(bs: seq<Bucket>): seq<string> {
    if bs == [] then []
    else
      var b := bs[|bs| - 1];
      CategoryEntries(bs[..|bs| - 1]) + (if b.photos != [] then [EntryLine(b.key)] else [])
  }

  function AssignmentLines(photos: seq<string>, category: string): (lines: seq<string>)
    ensures |lines| == |photos|
  {
    if photos == [] then []
    else AssignmentLines(photos[..|photos| - 1], category) + [AssignmentLine(photos[|photos| - 1], category)]
  }

  /** Lines 208-210: an entry from each photo to its category. */
  function Assignments(bs: seq<Bucket>): seq<string> {
    if bs == [] then []
    else Assignments(bs[..|bs| - 1]) + AssignmentLines(bs[|bs| - 1].photos, bs[|bs| - 1].key)
  }

  /** The lines `generate_dart_code` builds for the dictionary `bs`. */
  function DartLines(bs: seq<Bucket>): seq<string> {
    Head + PhotoList(bs) + LoadTail + CategoryEntries(bs) + Between + Assignments(bs) + Tail + Closing
  }

  /** Lines 170-289: the lines grown one `append` at a time, then joined. */
  method GenerateDartCode(organized: seq<Bucket>) returns (code: string)
    ensures code == JoinLines(DartLines(organized))
  {
    var lines := Head;
    lines := AppendPhotoList(lines, organized);
    lines := lines + LoadTail;
    lines := AppendEntries(lines, organized);
    lines := lines + Between;
    lines := AppendAssignments(lines, organized);
    lines := lines + Tail;
    lines := lines + Closing;
    code := JoinLines(lines);
  }

  /** Lines 178-182 */
  method AppendPhotoList(lines: seq<string>, organized: seq<Bucket>) returns (lines': seq<string>)
    ensures lines' == lines + PhotoList(organized)
  {
    lines' := lines;
    for i := 0 to |organized|
      invariant lines' == lines + PhotoList(organized[..i])
    {
      PrefixStep(organized, i);
      var category, photos := organized[i].key, organized[i].photos;
      if photos != [] {
        lines' := lines' + [CommentLine(category)];
        lines' := AppendPhotoLines(lines', photos);
      }
    }
    assert organized[..|organized|] == organized;
  }

  /** Lines 181-182 */
  method AppendPhotoLines(lines: seq<string>, photos: seq<string>) returns (lines': seq<string>)
    ensures lines' == lines + PhotoLines(photos)
  {
    lines' := lines;
    for j := 0 to |photos|
      invariant lines' == lines + PhotoLines(photos[..j])
    {
      PrefixStep(photos, j);
      lines' := lines' + [PhotoLine(photos[j])];
    }
    assert photos[..|photos|] == photos;
  }

  /** Lines 199-201 */
  method AppendEntries(lines: seq<string>, organized: seq<Bucket>) returns (lines': seq<string>)
    ensures lines' == lines + CategoryEntries(organized)
  {
    lines' := lines;
    for i := 0 to |organized|
      invariant lines' == lines + CategoryEntries(organized[..i])
    {
      PrefixStep(organized, i);
      if organized[i].photos != [] {
        lines' := lines' + [EntryLine(organized[i].key)];
      }
    }
    assert organized[..|organized|] == organized;
  }

  /** Lines 208-210 */
  method AppendAssignments(lines: seq<string>, organized: seq<Bucket>) returns (lines': seq<string>)
    ensures lines' == lines + Assignments(organized)
  {
    lines' := lines;
    for i := 0 to |organized|
      invariant lines' == lines + Assignments(organized[..i])
    {
      PrefixStep(organized, i);
      lines' := AppendAssignmentLines(lines', organized[i].photos, organized[i].key);
    }
    assert organized[..|organized|] == organized;
  }

  /** Lines 209-210 */
  method AppendAssignmentLines(lines: seq<string>, photos: seq<string>, category: string) returns (lines': seq<string>)
    ensures lines' == lines + AssignmentLines(photos, category)
  {
    lines' := lines;
    for j := 0 to |photos|
      invariant lines' == lines + AssignmentLines(photos[..j], category)
    {
      PrefixStep(photos, j);
      lines' := lines' + [AssignmentLine(photos[j], category)];
    }
    assert photos[..|photos|] == photos;
  }

  // ---------------------------------------------------------------------------
  // What the generated code says

  /** What the pattern of line 321 requires after its start: `return
      sortedOrganized;`, a newline and the closing brace (its `\s*` taken as empty). */
  const AnchorEnd: string := ReturnStatement + "\n" + ClosingBrace

  /** The pattern of line 321 matches all of `s`. */
  predicate MatchesAnchor(s: string) {
    |Signature| + |AnchorEnd| <= |s| && StartsWith(s, Signature) && EndsWith(s, AnchorEnd)
  }

  /** The generated code is again a block the pattern of line 321 finds, so the
      script can patch its own output on the next run. */
  lemma DartCodeMatchesAnchor(bs: seq<Bucket>)
    ensures MatchesAnchor(JoinLines(DartLines(bs)))
  {
    var body := Head + PhotoList(bs) + LoadTail + CategoryEntries(bs) + Between + Assignments(bs) + Tail;
    assert DartLines(bs) == body + Closing;
    assert body[0] == Signature;
    AnchorOfLines(body);
  }

  /** Lines that start with the signature and end with `Closing`, joined. */
  lemma AnchorOfLines(body: seq<string>)
    requires 1 <= |body| && body[0] == Signature
    ensures MatchesAnchor(JoinLines(body + Closing))
  {
    var lines := body + Closing;
    var n := |lines|;
    assert lines[n - 2] == Closing[0] && lines[n - 1] == Closing[1];
    JoinLinesLastTwo(lines);
    assert lines[..n - 2] == body;
    JoinLinesStartsWith(body);
    AnchorOfText(JoinLines(body));
  }

  /** Text that starts with the signature, followed by the closing lines. */
  lemma AnchorOfText(first: string)
    requires StartsWith(first, Signature)
    ensures MatchesAnchor(first + "\n" + Closing[0] + "\n" + Closing[1])
  {
    var code := first + "\n" + Closing[0] + "\n" + Closing[1];
    assert code == (first + "\n    ") + AnchorEnd;
    assert code[..|Signature|] == first[..|Signature|];
    EndsWithConcat(first + "\n    ", AnchorEnd);
  }

  /** What `read` recovers from each line of `lines` it recognises, in order. */
  function Collect(lines: seq<string>, read: string -> Option<string>): seq<string> {
    if lines == [] then []
    else
      var r := read(lines[|lines| - 1]);
      Collect(lines[..|lines| - 1], read) + (if r.Some? then [r.value] else [])
  }

  lemma {:induction false} CollectAppend(a: seq<string>, b: seq<string>, read: string -> Option<string>)
    ensures Collect(a + b, read) == Collect(a, read) + Collect(b, read)
    decreases |b|
  {
    if b == [] {
      assert a + b == a;
    } else {
      var init := b[..|b| - 1];
      CollectAppend(a, init, read);
      assert (a + b)[..|a + b| - 1] == a + init;
    }
  }

  /** The photo an asset line of the list names. */
  function ReadPhoto(line: string): Option<string> {
    if |AssetPrefix| + 2 <= |line| && StartsWith(line, AssetPrefix) && EndsWith(line, "',")
    then Some(line[|AssetPrefix|..|line| - 2])
    else None
  }

  /** The category a comment line of the list names. */
  function ReadComment(line: string): Option<string> {
    if StartsWith(line, CommentPrefix) then Some(line[|CommentPrefix|..]) else None
  }

  /** The category an entry of the `organized` dictionary names. */
  function ReadEntry(line: string): Option<string> {
    if 13 <= |line| && StartsWith(line, "      '") && EndsWith(line, "': [],")
    then Some(line[7..|line| - 6])
    else None
  }

  lemma ReadPhotoLine(photo: string)
    ensures ReadPhoto(PhotoLine(photo)) == Some(photo)
    ensures ReadComment(PhotoLine(photo)).None?
  {
    var line := PhotoLine(photo);
    assert line[..|AssetPrefix|] == AssetPrefix;
    assert line[|line| - 2..] == "',";
    assert line[|AssetPrefix|..|line| - 2] == photo;
    assert line[6] != CommentPrefix[6];
  }

  lemma ReadCommentLine(category: string)
    ensures ReadComment(CommentLine(category)) == Some(category)
    ensures ReadPhoto(CommentLine(category)).None?
  {
    var line := CommentLine(category);
    assert line[..|CommentPrefix|] == CommentPrefix;
    assert line[6] != AssetPrefix[6];
  }

  lemma ReadEntryLine(category: string)
    ensures ReadEntry(EntryLine(category)) == Some(category)
  {
    var line := EntryLine(category);
    assert line[..7] == "      '";
    assert line[|line| - 6..] == "': [],";
    assert line[7..|line| - 6] == category;
  }

  /** The keys of the buckets that have photos, in order. */
  function NonEmptyKeys(bs: seq<Bucket>): seq<string> {
    if bs == [] then []
    else
      var b := bs[|bs| - 1];
      NonEmptyKeys(bs[..|bs| - 1]) + (if b.photos != [] then [b.key] else [])
  }

  lemma {:induction false} PhotoLinesRead(photos: seq<string>)
    ensures Collect(PhotoLines(photos), ReadPhoto) == photos
    ensures Collect(PhotoLines(photos), ReadComment) == []
    decreases |photos|
  {
    if photos != [] {
      var init, last := photos[..|photos| - 1], photos[|photos| - 1];
      PhotoLinesRead(init);
      CollectAppend(PhotoLines(init), [PhotoLine(last)], ReadPhoto);
      CollectAppend(PhotoLines(init), [PhotoLine(last)], ReadComment);
      ReadPhotoLine(last);
      assert [PhotoLine(last)][..0] == [];
    }
  }

  /** Reading the photo list back gives every photo of the dictionary in order,
      and the categories that have photos in order. */
  lemma {:induction false} PhotoListRoundTrip(bs: seq<Bucket>)
    ensures Collect(PhotoList(bs), ReadPhoto) == Flatten(bs)
    ensures Collect(PhotoList(bs), ReadComment) == NonEmptyKeys(bs)
    decreases |bs|
  {
    if bs != [] {
      var init, b := bs[..|bs| - 1], bs[|bs| - 1];
      PhotoListRoundTrip(init);
      var block := if b.photos != [] then [CommentLine(b.key)] + PhotoLines(b.photos) else [];
      assert PhotoList(bs) == PhotoList(init) + block;
      CollectAppend(PhotoList(init), block, ReadPhoto);
      CollectAppend(PhotoList(init), block, ReadComment);
      if b.photos != [] {
        BlockRead(b.key, b.photos);
      }
    }
  }

  /** The lines one category with photos contributes to the list. */
  lemma BlockRead(category: string, photos: seq<string>)
    ensures Collect([CommentLine(category)] + PhotoLines(photos), ReadPhoto) == photos
    ensures Collect([CommentLine(category)] + PhotoLines(photos), ReadComment) == [category]
  {
    CollectAppend([CommentLine(category)], PhotoLines(photos), ReadPhoto);
    CollectAppend([CommentLine(category)], PhotoLines(photos), ReadComment);
    ReadCommentLine(category);
    assert [CommentLine(category)][..0] == [];
    PhotoLinesRead(photos);
  }

  /** Reading the `organized` entries back gives the categories that have photos. */
  lemma {:induction false} EntriesRoundTrip(bs: seq<Bucket>)
    ensures Collect(CategoryEntries(bs), ReadEntry) == NonEmptyKeys(bs)
    decreases |bs|
  {
    if bs != [] {
      var init, b := bs[..|bs| - 1], bs[|bs| - 1];
      EntriesRoundTrip(init);
      if b.photos != [] {
        CollectAppend(CategoryEntries(init), [EntryLine(b.key)], ReadEntry);
        ReadEntryLine(b.key);
        assert [EntryLine(b.key)][..0] == [];
      } else {
        assert CategoryEntries(bs) == CategoryEntries(init) + [] == CategoryEntries(init);
        assert NonEmptyKeys(bs) == NonEmptyKeys(init) + [] == NonEmptyKeys(init);
      }
    }
  }

  /** One `photoCategories` entry per photo, in order, naming `keyOf` of the photo. */
  function AssignAll(photos: seq<string>, keyOf: string -> string): (lines: seq<string>)
    ensures |lines| == |photos|
  {
    if photos == [] then []
    else AssignAll(photos[..|photos| - 1], keyOf) + [AssignmentLine(photos[|photos| - 1], keyOf(photos[|photos| - 1]))]
  }

  lemma {:induction false} AssignAllAppend(a: seq<string>, b: seq<string>, keyOf: string -> string)
    ensures AssignAll(a + b, keyOf) == AssignAll(a, keyOf) + AssignAll(b, keyOf)
    decreases |b|
  {
    if b == [] {
      assert a + b == a;
    } else {
      AssignAllAppend(a, b[..|b| - 1], keyOf);
      assert (a + b)[..|a + b| - 1] == a + b[..|b| - 1];
    }
  }

  lemma {:induction false} AssignmentLinesOfKey(photos: seq<string>, category: string, keyOf: string -> string)
    requires forall f :: f in photos ==> keyOf(f) == category
    ensures AssignmentLines(photos, category) == AssignAll(photos, keyOf)
    decreases |photos|
  {
    if photos != [] {
      AssignmentLinesOfKey(photos[..|photos| - 1], category, keyOf);
    }
  }

  /** Every photo of each bucket has the bucket's key. */
  predicate KeyConsistent(bs: seq<Bucket>, keyOf: string -> string) {
    forall i, f :: 0 <= i < |bs| && f in bs[i].photos ==> keyOf(f) == bs[i].key
  }

  /** `photoCategories` lists, for each photo of the flat list in order, the
      photo and its key. */
  lemma {:induction false} AssignmentsFollowKeys(bs: seq<Bucket>, keyOf: string -> string)
    requires KeyConsistent(bs, keyOf)
    ensures Assignments(bs) == AssignAll(Flatten(bs), keyOf)
    decreases |bs|
  {
    if bs != [] {
      var init, b := bs[..|bs| - 1], bs[|bs| - 1];
      assert KeyConsistent(init, keyOf);
      AssignmentsFollowKeys(init, keyOf);
      AssignmentLinesOfKey(b.photos, b.key, keyOf);
      AssignAllAppend(Flatten(init), b.photos, keyOf);
    }
  }

  /** The keys of the buckets, in order. */
  function Keys(bs: seq<Bucket>): (keys: seq<string>)
    ensures |keys| == |bs|
  {
    if bs == [] then [] else Keys(bs[..|bs| - 1]) + [bs[|bs| - 1].key]
  }

  lemma {:induction false} NonEmptyKeysAll(bs: seq<Bucket>)
    requires forall i :: 0 <= i < |bs| ==> bs[i].photos != []
    ensures NonEmptyKeys(bs) == Keys(bs)
    decreases |bs|
  {
    if bs != [] {
      NonEmptyKeysAll(bs[..|bs| - 1]);
    }
  }

  /** The dictionary `organize_photos_by_date` builds has no empty list, and each
      list holds only photos of its key. */
  lemma GroupSortedShape(keyOf: string -> string, time: string -> int, rank: string -> int, files: seq<string>)
    ensures var bs := GroupSorted(keyOf, time, rank, files);
      KeyConsistent(bs, keyOf) && forall i :: 0 <= i < |bs| ==> bs[i].photos != []
  {
    var bs := GroupSorted(keyOf, time, rank, files);
    forall i | 0 <= i < |bs|
      ensures bs[i].photos != [] && forall f :: f in bs[i].photos ==> keyOf(f) == bs[i].key
    {
      GroupSortedBucket(keyOf, time, rank, files, i);
    }
  }

  /** The code generated for what `organize_photos_by_date` returns: its list names
      every photo exactly once and every category in a comment before its photos,
      the `organized` dictionary has an entry for every category, and
      `photoCategories` gives every photo of the list, in the same order, the key
      of its date. */
  lemma EmittedGallery(exif: Exif, files: seq<string>)
    ensures var bs := Organize(exif, files);
      && multiset(Collect(PhotoList(bs), ReadPhoto)) == multiset(files)
      && Collect(PhotoList(bs), ReadComment) == Keys(bs)
      && Collect(CategoryEntries(bs), ReadEntry) == Keys(bs)
      && Assignments(bs) == AssignAll(Collect(PhotoList(bs), ReadPhoto), KeyFn(exif))
  {
    var bs := Organize(exif, files);
    GroupSortedPartition(KeyFn(exif), TimeFn(exif), SortCode, files);
    GroupSortedShape(KeyFn(exif), TimeFn(exif), SortCode, files);
    NonEmptyKeysAll(bs);
    PhotoListRoundTrip(bs);
    EntriesRoundTrip(bs);
    AssignmentsFollowKeys(bs, KeyFn(exif));
  }
}
