/** `organize_photos_by_date`: every photo is filed under the key of its date,
    each list is sorted newest first, and the keys are put in descending `sort_key`
    order. `extract_exif_date` is a parameter: a function from a file to the
    datetime its EXIF data holds, if any. */
module Organizer {
  import opened Options
  import opened Dates
  import opened FilenameDate
  import opened Categories
  import opened Sorting
  import opened Grouping

  /** `extract_exif_date` applied to a photo of the gallery directory. */
  type Exif = string -> Option<Timestamp>

  /** Line 109 raises for `f`: no EXIF date, and the filename parser raises. */
  predicate Fails(exif: Exif, f: string) {
    exif(f).None? && Raises(f)
  }

  /** Line 109: the EXIF date if there is one, else the date in the file name.
      A file that `Fails` ends the whole call, so its value here is never used. */
  function PhotoDate(exif: Exif, f: string): (r: Option<Timestamp>)
    ensures exif(f).Some? ==> r == exif(f)
    ensures !Fails(exif, f) && exif(f).None? ==> r == ExtractDateFromFilename(f)
  {
    if exif(f).Some? then exif(f) else if Raises(f) then None else ExtractDateFromFilename(f)
  }

  /** The key of a file for which line 109 raises: no category has it. */
  const Raised: string := ""

  /** Lines 111-136: the key each photo is filed under. */
  function KeyFn(exif: Exif): string -> string {
    f => if Fails(exif, f) then Raised else Label(Categorize(PhotoDate(exif, f)))
  }

  /** Line 140: `date or datetime.min`. The lambda there recomputes line 109 for the
      file, which gives the same date again. */
  function SortTime(exif: Exif, f: string): (r: Timestamp)
    ensures PhotoDate(exif, f).Some? ==> r == PhotoDate(exif, f).value
    ensures PhotoDate(exif, f).None? ==> forall t: Timestamp :: !Before(t, r)
  {
    if PhotoDate(exif, f).Some? then PhotoDate(exif, f).value else Min
  }

  /** The sort key of line 140 as a number in the same order as the datetime. */
  function TimeFn(exif: Exif): string -> int {
    f => Code(SortTime(exif, f))
  }

  /** What `organize_photos_by_date` returns when line 109 raises for no file. */
  function Organize(exif: Exif, files: seq<string>): seq<Bucket> {
    GroupSorted(KeyFn(exif), TimeFn(exif), SortCode, files)
  }

  /** Mentioning `Probe(f)` instantiates the quantifier of `Agrees` for `f` alone,
      so the filename parser is unfolded only where a file is looked at. */
  predicate Probe(f: string) {
    true
  }

  /** `keyOf` gives each file's key. */
  ghost predicate Agrees(exif: Exif, keyOf: string -> string) {
    forall f {:trigger Probe(f)} :: keyOf(f) == KeyFn(exif)(f)
  }

  /** Lines 101-168. None stands for the exception line 109 lets through. */
  method OrganizePhotosByDate(files: seq<string>, exif: Exif) returns (result: Option<seq<Bucket>>)
    ensures result.None? <==> exists f :: f in files && Fails(exif, f)
    ensures result.Some? ==> result.value == Organize(exif, files)
  {
    result := OrganizeWith(files, exif, TimeFn(exif), KeyFn(exif));
  }

  /** Lines 106-136 for one photo: its date (line 109), then its key. */
  method PhotoKey(filename: string, exif: Exif, ghost keyOf: string -> string)
    returns (failed: bool, key: string)
    requires Agrees(exif, keyOf)
    ensures failed <==> keyOf(filename) == Raised
    ensures !failed ==> key == keyOf(filename)
  {
    assert Probe(filename);
    var date: Option<Timestamp>;
    if exif(filename).Some? {
      date := exif(filename);
    } else if Raises(filename) {
      return true, "";
    } else {
      date := ExtractDateFromFilename(filename);
    }
    return false, Label(Categorize(date));
  }

  /** Lines 103-136: every photo appended to the list of its key, keys created
      in order of first use. `failed` is the exception of line 109. */
  method FileByKey(files: seq<string>, exif: Exif, ghost keyOf: string -> string)
    returns (failed: bool, groups: map<string, seq<string>>, order: seq<string>)
    requires Agrees(exif, keyOf)
    ensures failed <==> exists f :: f in files && keyOf(f) == Raised
    ensures !failed ==> order == FirstSeen(keyOf, files)
    ensures !failed ==> forall k :: k in groups <==> k in order
    ensures !failed ==> forall k :: k in order ==> groups[k] == Members(keyOf, files, k)
  {
    groups, order := map[], [];
    for n := 0 to |files|
      invariant Raised !in order
      invariant order == FirstSeen(keyOf, files[..n])
      invariant groups == GroupsOf(keyOf, files[..n])
    {
      var failedHere;
      failedHere, groups, order := FileOne(files, n, exif, keyOf, groups, order);
      if failedHere {
        return true, groups, order;
      }
    }
    assert files[..|files|] == files;
    FirstSeenKeys(keyOf, files, Raised);
    NoMembers(keyOf, files, Raised);
    GroupsOfKeys(keyOf, files);
    failed := false;
  }

  /** Lines 106-136 for the photo at position `n`. */
  method FileOne(files: seq<string>, n: nat, exif: Exif, ghost keyOf: string -> string,
                 groups: map<string, seq<string>>, order: seq<string>)
    returns (failed: bool, groups': map<string, seq<string>>, order': seq<string>)
    requires Agrees(exif, keyOf) && n < |files|
    requires Raised !in order
    requires order == FirstSeen(keyOf, files[..n]) && groups == GroupsOf(keyOf, files[..n])
    ensures failed ==> files[n] in files && keyOf(files[n]) == Raised
    ensures !failed ==> Raised !in order'
    ensures !failed ==> order' == FirstSeen(keyOf, files[..n + 1])
    ensures !failed ==> groups' == GroupsOf(keyOf, files[..n + 1])
  {
    var filename := files[n];
    var key;
    failed, key := PhotoKey(filename, exif, keyOf);
    if failed {
      return true, groups, order;
    }
    GroupsOfMembers(keyOf, files[..n], key);
    FirstSeenKeys(keyOf, files[..n], key);
    FirstSeenStep(keyOf, files, n);
    GroupsOfStep(keyOf, files, n);
    groups', order' := groups, order;
    if key !in groups' {
      groups' := groups'[key := []];
      order' := order' + [key];
    }
    groups' := groups'[key := groups'[key] + [filename]];
    AppendUnderKey(groups, key, filename);
  }

  /** Lines 138-140: each list sorted in place by `time`, latest first; `order` is
      the dictionary's key order. */
  method SortGroups(groups: map<string, seq<string>>, order: seq<string>, time: string -> int)
    returns (sorted: map<string, seq<string>>)
    requires forall k :: k in groups <==> k in order
    requires forall i, j :: 0 <= i < j < |order| ==> order[i] != order[j]
    ensures sorted.Keys == groups.Keys
    ensures forall k :: k in groups ==> sorted[k] == SortDesc(groups[k], time)
  {
    sorted := groups;
    for i := 0 to |order|
      invariant sorted.Keys == groups.Keys
      invariant forall j :: 0 <= j < i ==> sorted[order[j]] == SortDesc(groups[order[j]], time)
      invariant forall j :: i <= j < |order| ==> sorted[order[j]] == groups[order[j]]
    {
      var key := order[i];
      assert forall j :: 0 <= j < |order| && j != i ==> order[j] != key;
      sorted := sorted[key := SortDesc(sorted[key], time)];
    }
    forall k | k in groups
      ensures sorted[k] == SortDesc(groups[k], time)
    {
      var j :| 0 <= j < |order| && order[j] == k;
    }
  }

  /** Lines 164-166: a new dictionary filled in the order of `keys`. */
  method Rebuild(groups: map<string, seq<string>>, keys: seq<string>) returns (organized: seq<Bucket>)
    requires forall k :: k in keys ==> k in groups
    ensures organized == Entries(groups, keys)
  {
    organized := [];
    for i := 0 to |keys|
      invariant organized == Entries(groups, keys[..i])
    {
      PrefixStep(keys, i);
      organized := organized + [Bucket(keys[i], groups[keys[i]])];
    }
    assert keys[..|keys|] == keys;
  }

  /** Lines 103-168 with the key function named, so that the proof looks at the
      filename parser one file at a time. */
  method OrganizeWith(files: seq<string>, exif: Exif, time: string -> int, ghost keyOf: string -> string)
    returns (result: Option<seq<Bucket>>)
    requires Agrees(exif, keyOf)
    ensures result.None? <==> exists f :: f in files && keyOf(f) == Raised
    ensures result.Some? ==> result.value == GroupSorted(keyOf, time, SortCode, files)
  {
    var failed, groups, order := FileByKey(files, exif, keyOf);
    if failed {
      return None;
    }
    FirstSeenDistinct(keyOf, files);
    groups := SortGroups(groups, order, time);
    var sortedKeys := SortDesc(order, SortCode);
    forall k | k in sortedKeys
      ensures k in groups
    {
      assert k in multiset(sortedKeys);
    }
    var organized := Rebuild(groups, sortedKeys);
    EntriesAreBuckets(keyOf, time, files, groups, sortedKeys);
    return Some(organized);
  }

  // ---------------------------------------------------------------------------
  // What the returned dictionary is, when line 109 raises for no file

  /** Line 109 raises for none of `files`. */
  predicate NoneFails(exif: Exif, files: seq<string>) {
    forall f :: f in files ==> !Fails(exif, f)
  }

  /** Bucket `i`: never empty; exactly the photos whose date falls in its category;
      latest first, with no date counting as the earliest. */
  lemma OrganizeBucket(exif: Exif, files: seq<string>, i: nat)
    requires NoneFails(exif, files) && i < |Organize(exif, files)|
    ensures var b := Organize(exif, files)[i];
      && b.photos != []
      && (forall f :: f in b.photos <==> f in files && Label(Categorize(PhotoDate(exif, f))) == b.key)
      && forall j, k :: 0 <= j < k < |b.photos| ==> !Before(SortTime(exif, b.photos[j]), SortTime(exif, b.photos[k]))
  {
    var b := Organize(exif, files)[i];
    GroupSortedBucket(KeyFn(exif), TimeFn(exif), SortCode, files, i);
    forall j, k | 0 <= j < k < |b.photos|
      ensures !Before(SortTime(exif, b.photos[j]), SortTime(exif, b.photos[k]))
    {
      CodeOrder(SortTime(exif, b.photos[j]), SortTime(exif, b.photos[k]));
    }
  }

  /** Every file's key is the key of some category. */
  predicate KeysOfCategories(keyOf: string -> string, files: seq<string>) {
    forall f :: f in files ==> IsKey(keyOf(f))
  }

  lemma KeysAreKeys(exif: Exif, files: seq<string>)
    requires NoneFails(exif, files)
    ensures KeysOfCategories(KeyFn(exif), files)
  {
    forall f | f in files
      ensures IsKey(KeyFn(exif)(f))
    {
      KeyCategoryOfLabel(Categorize(PhotoDate(exif, f)));
    }
  }

  /** A key of the dictionary is read back by `sort_key` as its category's rank. */
  lemma BucketKeyIsKey(keyOf: string -> string, time: string -> int, files: seq<string>, i: nat)
    requires KeysOfCategories(keyOf, files) && i < |GroupSorted(keyOf, time, SortCode, files)|
    ensures var key := GroupSorted(keyOf, time, SortCode, files)[i].key;
      IsKey(key) && SortKey(key) == Some(Rank(KeyCategory(key)))
  {
    var b := GroupSorted(keyOf, time, SortCode, files)[i];
    GroupSortedBucket(keyOf, time, SortCode, files, i);
    assert b.photos[0] in files;
    SortKeyOfLabel(KeyCategory(b.key));
  }

  /** Two files whose keys share a place in the order share the key. */
  lemma SortCodeInjectiveOnFiles(keyOf: string -> string, files: seq<string>)
    requires KeysOfCategories(keyOf, files)
    ensures forall f, g :: f in files && g in files && SortCode(keyOf(f)) == SortCode(keyOf(g)) ==> keyOf(f) == keyOf(g)
  {
    forall f, g | f in files && g in files && SortCode(keyOf(f)) == SortCode(keyOf(g))
      ensures keyOf(f) == keyOf(g)
    {
      SortCodeInjective(keyOf(f), keyOf(g));
    }
  }

  /** `sort_key` reads every key, and strictly descends along the dictionary. */
  predicate DescendingKeys(bs: seq<Bucket>) {
    forall i, j :: 0 <= i < j < |bs| ==>
      SortKey(bs[i].key).Some? && SortKey(bs[j].key).Some? && PairLess(SortKey(bs[j].key).value, SortKey(bs[i].key).value)
  }

  /** Lines 162-166 for keys of categories: strictly descending `sort_key` order. */
  lemma KeyOrder(keyOf: string -> string, time: string -> int, files: seq<string>)
    requires KeysOfCategories(keyOf, files)
    ensures DescendingKeys(GroupSorted(keyOf, time, SortCode, files))
  {
    var bs := GroupSorted(keyOf, time, SortCode, files);
    SortCodeInjectiveOnFiles(keyOf, files);
    GroupSortedKeyOrder(keyOf, time, SortCode, files);
    forall i, j | 0 <= i < j < |bs|
      ensures SortKey(bs[i].key).Some? && SortKey(bs[j].key).Some? && PairLess(SortKey(bs[j].key).value, SortKey(bs[i].key).value)
    {
      BucketKeyIsKey(keyOf, time, files, i);
      BucketKeyIsKey(keyOf, time, files, j);
      KeyPairOrder(bs[i].key, bs[j].key);
    }
  }

  lemma KeyPairOrder(a: string, b: string)
    requires IsKey(a) && IsKey(b) && SortCode(a) > SortCode(b)
    ensures SortKey(a).Some? && SortKey(b).Some? && PairLess(SortKey(b).value, SortKey(a).value)
  {
    SortKeyOfLabel(KeyCategory(a));
    SortKeyOfLabel(KeyCategory(b));
    SortCodeOrder(b, a);
  }

  /** Only the first key can be 'Unknown': `(9999, 13)` is above every other key. */
  lemma UnknownOnlyFirst(keyOf: string -> string, time: string -> int, files: seq<string>, i: nat)
    requires KeysOfCategories(keyOf, files) && 0 < i < |GroupSorted(keyOf, time, SortCode, files)|
    ensures GroupSorted(keyOf, time, SortCode, files)[i].key != UnknownKey
  {
    var bs := GroupSorted(keyOf, time, SortCode, files);
    KeyOrder(keyOf, time, files);
    BucketKeyIsKey(keyOf, time, files, 0);
    BucketKeyIsKey(keyOf, time, files, i);
    var c := KeyCategory(bs[0].key);
    if bs[i].key == UnknownKey && !c.Unknown? {
      UnknownRanksFirst(c);
    }
  }

  /** The Dart comparator of lines 250-276 orders keys of categories as `sort_key`
      descending does, except that it moves 'Unknown' after every other key. */
  lemma DartOrder(keyOf: string -> string, time: string -> int, files: seq<string>)
    requires KeysOfCategories(keyOf, files)
    ensures var bs := GroupSorted(keyOf, time, SortCode, files);
      forall i, j :: 0 <= i < j < |bs| && bs[i].key != UnknownKey ==>
        DartCompareKeys(bs[i].key, bs[j].key).Some? && DartCompareKeys(bs[i].key, bs[j].key).value < 0
  {
    var bs := GroupSorted(keyOf, time, SortCode, files);
    KeyOrder(keyOf, time, files);
    forall i, j | 0 <= i < j < |bs| && bs[i].key != UnknownKey
      ensures DartCompareKeys(bs[i].key, bs[j].key).Some? && DartCompareKeys(bs[i].key, bs[j].key).value < 0
    {
      UnknownOnlyFirst(keyOf, time, files, j);
      BucketKeyIsKey(keyOf, time, files, i);
      BucketKeyIsKey(keyOf, time, files, j);
      DartAgreesWithSortKey(KeyCategory(bs[i].key), KeyCategory(bs[j].key));
    }
  }

  /** Lines 162-166: the keys come in strictly descending `sort_key` order. */
  lemma OrganizeKeyOrder(exif: Exif, files: seq<string>)
    requires NoneFails(exif, files)
    ensures DescendingKeys(Organize(exif, files))
  {
    KeysAreKeys(exif, files);
    KeyOrder(KeyFn(exif), TimeFn(exif), files);
  }

  /** 'Unknown' is the first key exactly when some photo has no date. */
  lemma OrganizeUnknownFirst(exif: Exif, files: seq<string>)
    requires NoneFails(exif, files)
    ensures (exists f :: f in files && PhotoDate(exif, f).None?)
        <==> |Organize(exif, files)| > 0 && Organize(exif, files)[0].key == UnknownKey
  {
    var bs := Organize(exif, files);
    KeysAreKeys(exif, files);
    if f :| f in files && PhotoDate(exif, f).None? {
      GroupSortedPartition(KeyFn(exif), TimeFn(exif), SortCode, files);
      assert f in multiset(Flatten(bs));
      var i := FlattenHas(bs, f);
      OrganizeBucket(exif, files, i);
      if i > 0 {
        UnknownOnlyFirst(KeyFn(exif), TimeFn(exif), files, i);
      }
    }
    if |bs| > 0 && bs[0].key == UnknownKey {
      OrganizeBucket(exif, files, 0);
      var f := bs[0].photos[0];
      assert f in files && PhotoDate(exif, f).None?;
    }
  }

  /** Line 109 reads the EXIF date first: a photo with one is filed under that date's
      category, whatever its file name spells. */
  lemma OrganizeExifWins(exif: Exif, files: seq<string>, f: string)
    requires NoneFails(exif, files) && f in files && exif(f).Some?
    ensures exists i :: 0 <= i < |Organize(exif, files)| &&
              Organize(exif, files)[i].key == Label(Categorize(exif(f))) && f in Organize(exif, files)[i].photos
  {
    var bs := Organize(exif, files);
    GroupSortedPartition(KeyFn(exif), TimeFn(exif), SortCode, files);
    assert f in multiset(Flatten(bs));
    var i := FlattenHas(bs, f);
    OrganizeBucket(exif, files, i);
  }

  /** The generated Dart code re-sorts the keys; it keeps the dictionary's order
      except that 'Unknown' goes from first to last. */
  lemma DartKeyOrder(exif: Exif, files: seq<string>)
    requires NoneFails(exif, files)
    ensures var bs := Organize(exif, files);
      forall i, j :: 0 <= i < j < |bs| && bs[i].key != UnknownKey ==>
        DartCompareKeys(bs[i].key, bs[j].key).Some? && DartCompareKeys(bs[i].key, bs[j].key).value < 0
    ensures var bs := Organize(exif, files);
      forall i :: 0 < i < |bs| && bs[0].key == UnknownKey ==> DartCompareKeys(bs[0].key, bs[i].key) == Some(1)
  {
    KeysAreKeys(exif, files);
    DartOrder(KeyFn(exif), TimeFn(exif), files);
  }
}
