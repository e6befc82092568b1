/** The dictionary `organize_photos_by_date` builds, described for any key
    function: files appended to the list of their key, lists sorted newest first,
    keys sorted by rank, highest first. Python dictionaries iterate in insertion
    order, so a dictionary is a sequence of buckets here. */
module Grouping {
  import opened Sorting

  /** One entry of a dictionary from key to list of file names. */
  datatype Bucket = Bucket(key: string, photos: seq<string>)

  /** No element occurs twice. */
  predicate Distinct(s: seq<string>) {
    forall i, j :: 0 <= i < j < |s| ==> s[i] != s[j]
  }

  /** The files appended under `key`, in input order. */
  function Members(keyOf: string -> string, files: seq<string>, key: string): seq<string> {
    if files == [] then []
    else
      var last := files[|files| - 1];
      Members(keyOf, files[..|files| - 1], key) + (if keyOf(last) == key then [last] else [])
  }

  /** The keys in the order a dictionary first receives them. */
  function FirstSeen(keyOf: string -> string, files: seq<string>): seq<string> {
    if files == [] then []
    else
      var seen, key := FirstSeen(keyOf, files[..|files| - 1]), keyOf(files[|files| - 1]);
      if key in seen then seen else seen + [key]
  }

  /** Every file listed under a key is one of the files, and has that key. */
  lemma {:induction false} MembersHaveKey(keyOf: string -> string, files: seq<string>, key: string)
    ensures forall f :: f in Members(keyOf, files, key) ==> f in files && keyOf(f) == key
    decreases |files|
  {
    if files != [] {
      var init := files[..|files| - 1];
      MembersHaveKey(keyOf, init, key);
      assert files == init + [files[|files| - 1]];
    }
  }

  /** A key is among the keys exactly when some file has it. */
  lemma {:induction false} FirstSeenKeys(keyOf: string -> string, files: seq<string>, key: string)
    ensures key in FirstSeen(keyOf, files) <==> Members(keyOf, files, key) != []
    decreases |files|
  {
    if files != [] {
      FirstSeenKeys(keyOf, files[..|files| - 1], key);
    }
  }

  /** No key is received twice. */
  lemma {:induction false} FirstSeenDistinct(keyOf: string -> string, files: seq<string>)
    ensures forall i, j :: 0 <= i < j < |FirstSeen(keyOf, files)| ==> FirstSeen(keyOf, files)[i] != FirstSeen(keyOf, files)[j]
    decreases |files|
  {
    if files != [] {
      FirstSeenDistinct(keyOf, files[..|files| - 1]);
    }
  }

  /** The bucket of each of `keys`, its list sorted by `time`, latest first. */
  function BucketsOf(keyOf: string -> string, time: string -> int, files: seq<string>, keys: seq<string>): (bs: seq<Bucket>)
    ensures |bs| == |keys|
    ensures forall i :: 0 <= i < |keys| ==> bs[i].key == keys[i]
  {
    if keys == [] then []
    else
      var k := keys[|keys| - 1];
      BucketsOf(keyOf, time, files, keys[..|keys| - 1]) + [Bucket(k, SortDesc(Members(keyOf, files, k), time))]
  }

  /** The whole dictionary: files grouped by `keyOf`, each list sorted by `time`
      and the keys sorted by `rank`, both in descending order. */
  function GroupSorted(keyOf: string -> string, time: string -> int, rank: string -> int, files: seq<string>): seq<Bucket> {
    BucketsOf(keyOf, time, files, SortDesc(FirstSeen(keyOf, files), rank))
  }

  /** The dictionary's entries listed in the order of `keys`. */
  function Entries(groups: map<string, seq<string>>, keys: seq<string>): (bs: seq<Bucket>)
    requires forall k :: k in keys ==> k in groups
    ensures |bs| == |keys|
    ensures forall i :: 0 <= i < |keys| ==> bs[i] == Bucket(keys[i], groups[keys[i]])
  {
    if keys == [] then []
    else
      var k := keys[|keys| - 1];
      Entries(groups, keys[..|keys| - 1]) + [Bucket(k, groups[k])]
  }

  /** All the photos of the buckets, bucket after bucket. */
  function Flatten(bs: seq<Bucket>): seq<string> {
    if bs == [] then [] else Flatten(bs[..|bs| - 1]) + bs[|bs| - 1].photos
  }

  lemma PrefixStep<T>(s: seq<T>, n: nat)
    requires n < |s|
    ensures s[..n + 1][..n] == s[..n] && s[..n + 1][n] == s[n]
  {
  }

  lemma FirstSeenStep(keyOf: string -> string, files: seq<string>, n: nat)
    requires n < |files|
    ensures var key, seen := keyOf(files[n]), FirstSeen(keyOf, files[..n]);
      FirstSeen(keyOf, files[..n + 1]) == if key in seen then seen else seen + [key]
  {
    PrefixStep(files, n);
  }

  /** The dictionary after filing `files` one by one: each appended to the list
      of its key, the list created empty on first use. */
  function GroupsOf(keyOf: string -> string, files: seq<string>): map<string, seq<string>> {
    if files == [] then map[]
    else
      var groups, last := GroupsOf(keyOf, files[..|files| - 1]), files[|files| - 1];
      var key := keyOf(last);
      groups[key := (if key in groups then groups[key] else []) + [last]]
  }

  lemma GroupsOfStep(keyOf: string -> string, files: seq<string>, n: nat)
    requires n < |files|
    ensures var groups, key := GroupsOf(keyOf, files[..n]), keyOf(files[n]);
      GroupsOf(keyOf, files[..n + 1]) == groups[key := (if key in groups then groups[key] else []) + [files[n]]]
  {
    PrefixStep(files, n);
  }

  /** Creating the list on first use and then appending to it is appending to the
      list the key has, or to an empty one. */
  lemma AppendUnderKey(groups: map<string, seq<string>>, key: string, f: string)
    ensures var created := if key in groups then groups else groups[key := []];
      created[key := created[key] + [f]] == groups[key := (if key in groups then groups[key] else []) + [f]]
  {
  }

  /** The dictionary holds a key exactly when some file has it, and under it the
      files that have it, in input order. */
  lemma {:induction false} GroupsOfMembers(keyOf: string -> string, files: seq<string>, key: string)
    ensures key in GroupsOf(keyOf, files) <==> Members(keyOf, files, key) != []
    ensures key in GroupsOf(keyOf, files) ==> GroupsOf(keyOf, files)[key] == Members(keyOf, files, key)
    decreases |files|
  {
    if files != [] {
      GroupsOfMembers(keyOf, files[..|files| - 1], key);
    }
  }

  /** The dictionary's keys are the keys first seen, and each list is `Members`. */
  lemma GroupsOfKeys(keyOf: string -> string, files: seq<string>)
    ensures forall k :: k in GroupsOf(keyOf, files) <==> k in FirstSeen(keyOf, files)
    ensures forall k :: k in FirstSeen(keyOf, files) ==> GroupsOf(keyOf, files)[k] == Members(keyOf, files, k)
  {
    forall k
      ensures k in GroupsOf(keyOf, files) <==> k in FirstSeen(keyOf, files)
      ensures k in FirstSeen(keyOf, files) ==> GroupsOf(keyOf, files)[k] == Members(keyOf, files, k)
    {
      GroupsOfMembers(keyOf, files, k);
      FirstSeenKeys(keyOf, files, k);
    }
  }

  /** A key with no members is the key of no file. */
  lemma {:induction false} NoMembers(keyOf: string -> string, files: seq<string>, key: string)
    requires Members(keyOf, files, key) == []
    ensures forall f :: f in files ==> keyOf(f) != key
    decreases |files|
  {
    if files != [] {
      var init := files[..|files| - 1];
      NoMembers(keyOf, init, key);
      assert files == init + [files[|files| - 1]];
    }
  }

  lemma {:induction false} BucketAt(keyOf: string -> string, time: string -> int, files: seq<string>, keys: seq<string>, i: nat)
    requires i < |keys|
    ensures BucketsOf(keyOf, time, files, keys)[i] == Bucket(keys[i], SortDesc(Members(keyOf, files, keys[i]), time))
    decreases |keys|
  {
    if i < |keys| - 1 {
      BucketAt(keyOf, time, files, keys[..|keys| - 1], i);
    }
  }

  /** Reading the sorted lists out of the dictionary in key order gives the buckets. */
  lemma EntriesAreBuckets(keyOf: string -> string, time: string -> int, files: seq<string>,
                          groups: map<string, seq<string>>, keys: seq<string>)
    requires forall k :: k in keys ==> k in groups && groups[k] == SortDesc(Members(keyOf, files, k), time)
    ensures Entries(groups, keys) == BucketsOf(keyOf, time, files, keys)
  {
    var es, bs := Entries(groups, keys), BucketsOf(keyOf, time, files, keys);
    forall i | 0 <= i < |keys|
      ensures es[i] == bs[i]
    {
      BucketAt(keyOf, time, files, keys, i);
    }
  }

  /** A file is listed under its own key as often as it occurs, and under no other. */
  lemma {:induction false} MembersCount(keyOf: string -> string, files: seq<string>, key: string, f: string)
    ensures multiset(Members(keyOf, files, key))[f] == if keyOf(f) == key then multiset(files)[f] else 0
    decreases |files|
  {
    if files != [] {
      var init := files[..|files| - 1];
      MembersCount(keyOf, init, key, f);
      assert files == init + [files[|files| - 1]];
    }
  }

  /** Each key is received once if some file has it, and never otherwise. */
  lemma {:induction false} FirstSeenCount(keyOf: string -> string, files: seq<string>, key: string)
    ensures multiset(FirstSeen(keyOf, files))[key] == if Members(keyOf, files, key) != [] then 1 else 0
    decreases |files|
  {
    if files != [] {
      var init := files[..|files| - 1];
      FirstSeenCount(keyOf, init, key);
      FirstSeenKeys(keyOf, init, key);
    }
  }

  /** Listing the buckets of distinct `keys` lists each file as often as it
      occurs when its key is one of them, and not at all otherwise. */
  lemma {:induction false} BucketsOfCount(keyOf: string -> string, time: string -> int, files: seq<string>,
                                          keys: seq<string>, f: string)
    requires Distinct(keys)
    ensures multiset(Flatten(BucketsOf(keyOf, time, files, keys)))[f]
         == if keyOf(f) in keys then multiset(files)[f] else 0
    decreases |keys|
  {
    if keys != [] {
      var init, k := keys[..|keys| - 1], keys[|keys| - 1];
      BucketsOfCount(keyOf, time, files, init, f);
      var ms := SortDesc(Members(keyOf, files, k), time);
      FlattenSnoc(BucketsOf(keyOf, time, files, keys), BucketsOf(keyOf, time, files, init), Bucket(k, ms));
      MembersCount(keyOf, files, k, f);
      assert keys == init + [k];
      assert k !in init;
    }
  }

  lemma FlattenSnoc(bs: seq<Bucket>, init: seq<Bucket>, b: Bucket)
    requires bs == init + [b]
    ensures Flatten(bs) == Flatten(init) + b.photos
  {
    assert bs[..|bs| - 1] == init;
  }

  lemma TwoCopies<T>(s: seq<T>, i: nat, j: nat)
    requires i < j < |s| && s[i] == s[j]
    ensures multiset(s)[s[i]] >= 2
  {
    assert s == s[..j] + s[j..];
    assert s[i] in s[..j] && s[j] in s[j..];
  }

  /** No key is used twice in the dictionary. */
  lemma GroupSortedDistinct(keyOf: string -> string, rank: string -> int, files: seq<string>)
    ensures Distinct(SortDesc(FirstSeen(keyOf, files), rank))
  {
    var keys := SortDesc(FirstSeen(keyOf, files), rank);
    forall i, j | 0 <= i < j < |keys|
      ensures keys[i] != keys[j]
    {
      if keys[i] == keys[j] {
        TwoCopies(keys, i, j);
        FirstSeenCount(keyOf, files, keys[i]);
      }
    }
  }

  /** Every file lands in exactly one list, exactly once, and no key is used twice. */
  lemma GroupSortedPartition(keyOf: string -> string, time: string -> int, rank: string -> int, files: seq<string>)
    ensures multiset(Flatten(GroupSorted(keyOf, time, rank, files))) == multiset(files)
    ensures var bs := GroupSorted(keyOf, time, rank, files);
      forall i, j :: 0 <= i < j < |bs| ==> bs[i].key != bs[j].key
  {
    var keys := SortDesc(FirstSeen(keyOf, files), rank);
    var bs := BucketsOf(keyOf, time, files, keys);
    forall f
      ensures multiset(Flatten(bs))[f] == multiset(files)[f]
    {
      GroupSortedCount(keyOf, time, rank, files, f);
    }
    GroupSortedDistinct(keyOf, rank, files);
    forall i, j | 0 <= i < j < |bs|
      ensures bs[i].key != bs[j].key
    {
      assert bs[i].key == keys[i] && bs[j].key == keys[j];
    }
  }

  lemma GroupSortedCount(keyOf: string -> string, time: string -> int, rank: string -> int, files: seq<string>, f: string)
    ensures multiset(Flatten(GroupSorted(keyOf, time, rank, files)))[f] == multiset(files)[f]
  {
    var keys := SortDesc(FirstSeen(keyOf, files), rank);
    GroupSortedDistinct(keyOf, rank, files);
    BucketsOfCount(keyOf, time, files, keys, f);
    FirstSeenCount(keyOf, files, keyOf(f));
    MembersCount(keyOf, files, keyOf(f), f);
    assert keyOf(f) in keys <==> keyOf(f) in multiset(FirstSeen(keyOf, files));
  }

  /** The list of bucket `i`: never empty, all the files of its key and no other,
      latest first, files of equal time in input order. */
  lemma GroupSortedBucket(keyOf: string -> string, time: string -> int, rank: string -> int, files: seq<string>, i: nat)
    requires i < |GroupSorted(keyOf, time, rank, files)|
    ensures var b := GroupSorted(keyOf, time, rank, files)[i];
      && b.photos != []
      && (forall f :: f in b.photos <==> f in files && keyOf(f) == b.key)
      && NonIncreasing(b.photos, time)
      && forall t :: Filter(b.photos, time, t) == Filter(Members(keyOf, files, b.key), time, t)
  {
    var keys := SortDesc(FirstSeen(keyOf, files), rank);
    var key := keys[i];
    BucketAt(keyOf, time, files, keys, i);
    var ms := Members(keyOf, files, key);
    var b := GroupSorted(keyOf, time, rank, files)[i];
    assert key in multiset(FirstSeen(keyOf, files));
    FirstSeenKeys(keyOf, files, key);
    assert ms != [] ==> multiset(ms)[ms[0]] > 0;
    forall f
      ensures f in b.photos <==> f in files && keyOf(f) == key
    {
      MembersCount(keyOf, files, key, f);
    }
    forall t
      ensures Filter(b.photos, time, t) == Filter(ms, time, t)
    {
      SortDescStable(ms, time, t);
    }
  }

  /** The keys in descending rank; strictly descending when no two keys of the
      files share a rank. */
  lemma GroupSortedKeyOrder(keyOf: string -> string, time: string -> int, rank: string -> int, files: seq<string>)
    ensures var bs := GroupSorted(keyOf, time, rank, files);
      forall i, j :: 0 <= i < j < |bs| ==> rank(bs[i].key) >= rank(bs[j].key)
    ensures (forall f, g :: f in files && g in files && rank(keyOf(f)) == rank(keyOf(g)) ==> keyOf(f) == keyOf(g))
      ==> var bs := GroupSorted(keyOf, time, rank, files);
          forall i, j :: 0 <= i < j < |bs| ==> rank(bs[i].key) > rank(bs[j].key)
  {
    var seen := FirstSeen(keyOf, files);
    var keys := SortDesc(seen, rank);
    if forall f, g :: f in files && g in files && rank(keyOf(f)) == rank(keyOf(g)) ==> keyOf(f) == keyOf(g) {
      FirstSeenDistinct(keyOf, files);
      forall i, j | 0 <= i < j < |seen|
        ensures rank(seen[i]) != rank(seen[j])
      {
        var f := KeyWitness(keyOf, files, seen[i]);
        var g := KeyWitness(keyOf, files, seen[j]);
      }
      SortDescStrict(seen, rank);
    }
  }

  /** A file that has a key the dictionary received. */
  lemma KeyWitness(keyOf: string -> string, files: seq<string>, key: string) returns (f: string)
    requires key in FirstSeen(keyOf, files)
    ensures f in files && keyOf(f) == key
  {
    FirstSeenKeys(keyOf, files, key);
    MembersHaveKey(keyOf, files, key);
    f := Members(keyOf, files, key)[0];
  }

  /** A photo of the flattened dictionary is in one of its buckets. */
  lemma {:induction false} FlattenHas(bs: seq<Bucket>, f: string) returns (i: nat)
    requires f in Flatten(bs)
    ensures i < |bs| && f in bs[i].photos
    decreases |bs|
  {
    var init := bs[..|bs| - 1];
    if f in Flatten(init) {
      i := FlattenHas(init, f);
    } else {
      i := |bs| - 1;
    }
  }
}
