/** The gallery's categories: which one a date falls in, the text of its key, the
    Python `sort_key` that orders the keys, and the key comparator the generated
    Dart code carries. */
module Categories {
  import opened Options
  import opened Text
  import opened Dates

  /** The one year whose photos are grouped by month. */
  const MonthBucketYear: int := 2025

  const MonthNames: seq<string> := ["January", "February", "March", "April", "May", "June",
                                    "July", "August", "September", "October", "November", "December"]

  const UnknownKey: string := "Unknown"

  const Separator: string := " - "

  datatype Category = YearMonth(year: int, month: int) | YearOnly(year: int) | Unknown

  /** The categories a key can be made from (any year a datetime can carry). */
  predicate WellFormed(c: Category) {
    match c
    case YearMonth(y, m) => MinYear <= y <= MaxYear && 1 <= m <= 12
    case YearOnly(y) => MinYear <= y <= MaxYear
    case Unknown => true
  }

  /** The categories `organize_photos_by_date` creates: months of 2025 only, and
      every other year whole. */
  predicate Reachable(c: Category) {
    WellFormed(c) &&
    match c
    case YearMonth(y, _) => y == MonthBucketYear
    case YearOnly(y) => y != MonthBucketYear
    case Unknown => true
  }

  /** Lines 111-136: the bucket of a photo with date `date` (None when no date was found). */
  function Categorize(date: Option<Timestamp>): (c: Category)
    ensures Reachable(c)
    ensures c.Unknown? <==> date.None?
    ensures date.Some? ==> c.year == date.value.year
    ensures c.YearMonth? ==> c.month == date.value.month
  {
    match date
    case None => Unknown
    case Some(t) => if t.year == MonthBucketYear then YearMonth(t.year, t.month) else YearOnly(t.year)
  }

  /** The dictionary key: `f'{year} - {month_names[month - 1]}'`, `str(year)` or `'Unknown'`. */
  function Label(c: Category): (key: string)
    requires WellFormed(c)
    ensures key == UnknownKey <==> c.Unknown?
    ensures 1 <= |key|
  {
    assert !IsDigit(UnknownKey[0]);
    match c
    case YearMonth(y, m) => NatToString(y) + Separator + MonthNames[m - 1]
    case YearOnly(y) => NatToString(y)
    case Unknown => UnknownKey
  }

  /** Only month keys contain the separator `sort_key` tests for. */
  lemma LabelSeparator(c: Category)
    requires WellFormed(c)
    ensures Contains(Label(c), Separator) <==> c.YearMonth?
  {
    match c
    case YearMonth(y, m) =>
      SeparatorAfterDigits(NatToString(y), MonthNames[m - 1]);
    case YearOnly(y) =>
      NoSeparatorInDigits(NatToString(y));
    case Unknown =>
      NoSeparatorWithoutSpaces(UnknownKey);
  }

  predicate NoSpaces(s: string) {
    forall i :: 0 <= i < |s| ==> s[i] != ' '
  }

  lemma NoSeparatorWithoutSpaces(s: string)
    requires NoSpaces(s)
    ensures IndexOf(s, Separator, 0).None?
  {
    forall k: nat | k + 3 <= |s|
      ensures !OccursAt(s, Separator, k)
    {
      assert s[k..k + 3][0] == s[k];
    }
  }

  lemma NoSeparatorInDigits(s: string)
    requires AllDigits(s)
    ensures !Contains(s, Separator)
  {
    NoSeparatorWithoutSpaces(s);
  }

  lemma MonthNamesHaveNoSpaces()
    ensures forall i :: 0 <= i < 12 ==> NoSpaces(MonthNames[i])
  {
  }

  /** In `digits + " - " + name`, the first separator is the one after the digits. */
  lemma SeparatorAfterDigits(digits: string, name: string)
    requires 1 <= |digits| && AllDigits(digits)
    ensures IndexOf(digits + Separator + name, Separator, 0) == Some(|digits|)
    ensures digits + Separator + name != UnknownKey
  {
    var s := digits + Separator + name;
    assert OccursAt(s, Separator, |digits|) by {
      assert s[|digits|..|digits| + 3] == Separator;
    }
    forall k: nat | k < |digits|
      ensures !OccursAt(s, Separator, k)
    {
      assert s[k..k + 3][0] == s[k] == digits[k];
    }
    assert s[0] == digits[0];
  }

  /** `month_names.index(name)`: the first position of `name`; None where Python
      raises ValueError. */
  function MonthIndex(name: string): (r: Option<nat>)
    ensures r.Some? ==> r.value < 12 && MonthNames[r.value] == name
    ensures r.None? <==> name !in MonthNames
  {
    FirstIndex(MonthNames, name, 0)
  }

  function FirstIndex(xs: seq<string>, x: string, from: nat): (r: Option<nat>)
    ensures r.Some? ==> from <= r.value < |xs| && xs[r.value] == x
    ensures r.Some? ==> forall k :: from <= k < r.value ==> xs[k] != x
    ensures r.None? <==> forall k :: from <= k < |xs| ==> xs[k] != x
    decreases |xs| - from
  {
    if from >= |xs| then None
    else if xs[from] == x then Some(from)
    else FirstIndex(xs, x, from + 1)
  }

  /** Each month name is found at its own position. */
  lemma MonthIndexOfName(i: nat)
    requires i < 12
    ensures MonthIndex(MonthNames[i]) == Some(i)
  {
  }

  /** The nested `sort_key` (lines 143-160); None where it raises (`int()` or
      `list.index` on a key the function never builds). */
  function SortKey(key: string): (r: Option<(int, int)>)
    ensures key == UnknownKey ==> r == Some((9999, 13))
    ensures r.Some? ==> 0 <= r.value.1 <= 13
  {
    if key == UnknownKey then Some((9999, 13))
    else if Contains(key, Separator) then
      var parts := Split(key, Separator);
      match ParseInt(parts[0])
      case None => None
      case Some(year) =>
        match MonthIndex(parts[1])
        case None => None
        case Some(i) => Some((year, i + 1))
    else
      match ParseInt(key)
      case None => None
      case Some(year) => Some((year, 0))
  }

  /** Python's `<` on pairs. */
  predicate PairLess(a: (int, int), b: (int, int)) {
    a.0 < b.0 || (a.0 == b.0 && a.1 < b.1)
  }

  /** What `sort_key` gives a category's key. */
  function Rank(c: Category): (int, int) {
    match c
    case YearMonth(y, m) => (y, m)
    case YearOnly(y) => (y, 0)
    case Unknown => (9999, 13)
  }

  lemma SortKeyOfLabel(c: Category)
    requires WellFormed(c)
    ensures SortKey(Label(c)) == Some(Rank(c))
  {
    match c
    case YearMonth(y, m) =>
      SortKeyOfMonthKey(y, m - 1);
    case YearOnly(y) =>
      NoSeparatorInDigits(NatToString(y));
      ParseNatToString(y);
    case Unknown =>
  }

  lemma SortKeyOfMonthKey(y: nat, i: nat)
    requires i < 12
    ensures SortKey(NatToString(y) + Separator + MonthNames[i]) == Some((y, i + 1))
  {
    var digits, name := NatToString(y), MonthNames[i];
    SeparatorAfterDigits(digits, name);
    MonthNamesHaveNoSpaces();
    SplitMonthKey(digits, name);
    ParseNatToString(y);
    MonthIndexOfName(i);
  }

  /** A month key splits at its separator into the year digits and the month name. */
  lemma SplitMonthKey(digits: string, name: string)
    requires 1 <= |digits| && AllDigits(digits) && NoSpaces(name)
    ensures Split(digits + Separator + name, Separator) == [digits, name]
  {
    var key := digits + Separator + name;
    SeparatorAfterDigits(digits, name);
    assert key[|digits| + 3..] == name;
    NoSeparatorWithoutSpaces(name);
    assert key[..|digits|] == digits;
  }

  /** The pair `sort_key` returns, read as one integer in the same order. */
  function SortCode(key: string): int {
    match SortKey(key)
    case Some(k) => Radix(k.0, k.1, 14)
    case None => 0
  }

  /** Comparing the integers is comparing the pairs. */
  lemma SortCodeOrder(a: string, b: string)
    requires SortKey(a).Some? && SortKey(b).Some?
    ensures SortCode(a) < SortCode(b) <==> PairLess(SortKey(a).value, SortKey(b).value)
    ensures SortCode(a) == SortCode(b) <==> SortKey(a) == SortKey(b)
  {
    var ka, kb := SortKey(a).value, SortKey(b).value;
    RadixOrder(ka.0, ka.1, kb.0, kb.1, 14);
  }

  function RankCode(c: Category): int {
    Radix(Rank(c).0, Rank(c).1, 14)
  }

  lemma SortCodeOfLabel(c: Category)
    requires WellFormed(c)
    ensures SortCode(Label(c)) == RankCode(c)
  {
    SortKeyOfLabel(c);
  }

  /** The category a key names, read back through `sort_key`. */
  function KeyCategory(key: string): Category {
    match SortKey(key)
    case None => Unknown
    case Some(k) =>
      if k == (9999, 13) then Unknown
      else if k.1 == 0 then YearOnly(k.0)
      else YearMonth(k.0, k.1)
  }

  /** The strings that are some category's key. */
  predicate IsKey(key: string) {
    WellFormed(KeyCategory(key)) && Label(KeyCategory(key)) == key
  }

  /** A key is read back as the category it was made from. */
  lemma KeyCategoryOfLabel(c: Category)
    requires WellFormed(c)
    ensures KeyCategory(Label(c)) == c
    ensures IsKey(Label(c))
  {
    SortKeyOfLabel(c);
  }

  /** Different keys never share a place in the order, so the order is total. */
  lemma SortCodeInjective(a: string, b: string)
    requires IsKey(a) && IsKey(b)
    ensures SortCode(a) == SortCode(b) <==> a == b
  {
    var ca, cb := KeyCategory(a), KeyCategory(b);
    SortCodeOfLabel(ca);
    SortCodeOfLabel(cb);
    RankInjective(ca, cb);
  }

  /** Different categories never share a key nor a place in the order. */
  lemma RankInjective(a: Category, b: Category)
    requires WellFormed(a) && WellFormed(b)
    ensures RankCode(a) == RankCode(b) <==> a == b
    ensures Label(a) == Label(b) <==> a == b
  {
    RadixOrder(Rank(a).0, Rank(a).1, Rank(b).0, Rank(b).1, 14);
    SortKeyOfLabel(a);
    SortKeyOfLabel(b);
  }

  /** `(9999, 13)` is above every other key, so with `reverse=True` 'Unknown' is
      the first key, not the last. */
  lemma UnknownRanksFirst(c: Category)
    requires WellFormed(c) && !c.Unknown?
    ensures PairLess(Rank(c), Rank(Unknown))
    ensures RankCode(c) < RankCode(Unknown)
  {
    RadixOrder(Rank(c).0, Rank(c).1, 9999, 13, 14);
  }

  /** A later photo never lands in a category ordered below an earlier one's. */
  lemma CategorizeMonotone(t1: Timestamp, t2: Timestamp)
    requires Before(t1, t2)
    ensures RankCode(Categorize(Some(t1))) <= RankCode(Categorize(Some(t2)))
  {
    var c1, c2 := Categorize(Some(t1)), Categorize(Some(t2));
    RadixOrder(Rank(c1).0, Rank(c1).1, Rank(c2).0, Rank(c2).1, 14);
  }

  // ---------------------------------------------------------------------------
  // The key comparator of the generated Dart code (lines 249-279)

  /** `x.compareTo(y)` on Dart integers. */
  function CompareTo(x: int, y: int): (r: int)
    ensures r < 0 <==> x < y
    ensures r == 0 <==> x == y
    ensures -1 <= r <= 1
  {
    if x < y then -1 else if x == y then 0 else 1
  }

  /** `_getMonthNumber(name)`, taken to be the month's position counted from 1. */
  function MonthNumber(name: string): (r: Option<int>)
    ensures r.Some? ==> 1 <= r.value <= 12
  {
    match MonthIndex(name)
    case None => None
    case Some(i) => Some(i + 1)
  }

  /** Year and month of a key with a separator; None where Dart would throw. */
  function DartYearMonth(key: string): Option<(int, int)>
  {
    var parts := Split(key, Separator);
    match ParseInt(parts[0])
    case None => None
    case Some(year) =>
      if |parts| < 2 then None
      else
        match MonthNumber(parts[1])
        case None => None
        case Some(month) => Some((year, month))
  }

  /** The emitted `sortedKeys` comparator; None where it would throw. */
  function DartCompareKeys(a: string, b: string): (r: Option<int>)
    ensures a == UnknownKey ==> r == Some(1)
    ensures a != UnknownKey && b == UnknownKey ==> r == Some(-1)
  {
    if a == UnknownKey then Some(1)
    else if b == UnknownKey then Some(-1)
    else if Contains(a, Separator) then
      match DartYearMonth(a)
      case None => None
      case Some(ka) =>
        if Contains(b, Separator) then
          match DartYearMonth(b)
          case None => None
          case Some(kb) =>
            if ka.0 != kb.0 then Some(CompareTo(kb.0, ka.0)) else Some(CompareTo(kb.1, ka.1))
        else
          match ParseInt(b)
          case None => None
          case Some(yearB) => if ka.0 != yearB then Some(CompareTo(yearB, ka.0)) else Some(-1)
    else
      match ParseInt(a)
      case None => None
      case Some(yearA) =>
        if Contains(b, Separator) then
          match ParseInt(Split(b, Separator)[0])
          case None => None
          case Some(yearB) => if yearA != yearB then Some(CompareTo(yearB, yearA)) else Some(1)
        else
          match ParseInt(b)
          case None => None
          case Some(yearB) => Some(CompareTo(yearB, yearA))
  }

  /** Against a month key, a year-only key reads only the other key's year: the
      month name after the separator is never looked at. */
  lemma DartYearOnlyReadsOnlyYear(a: string, digits: string, name1: string, name2: string)
    requires a != UnknownKey && !Contains(a, Separator)
    requires 1 <= |digits| && AllDigits(digits)
    ensures DartCompareKeys(a, digits + Separator + name1) == DartCompareKeys(a, digits + Separator + name2)
    ensures ParseInt(a).Some? ==>
              DartCompareKeys(a, digits + Separator + name1) ==
              Some(if ParseInt(a).value != DigitsValue(digits) then CompareTo(DigitsValue(digits), ParseInt(a).value) else 1)
  {
    YearOfMonthKey(digits, name1);
    YearOfMonthKey(digits, name2);
  }

  /** A month key has the separator, is not 'Unknown', and its first part is its year. */
  lemma YearOfMonthKey(digits: string, name: string)
    requires 1 <= |digits| && AllDigits(digits)
    ensures var key := digits + Separator + name;
      key != UnknownKey && Contains(key, Separator) && Split(key, Separator)[0] == digits
  {
    SeparatorAfterDigits(digits, name);
    assert (digits + Separator + name)[..|digits|] == digits;
  }

  /** `2024` against a month key of 2024 goes after it, whatever its month name. */
  lemma DartYearOnlyExample()
    ensures DartCompareKeys("2024", "2024 - Foo") == Some(1)
  {
    assert "2024"[..3] == "202" && "202"[..2] == "20" && "20"[..1] == "2" && "2"[..0] == [];
    assert DigitsValue("2024") == 2024;
    NoSeparatorInDigits("2024");
    assert "2024 - Foo" == "2024" + Separator + "Foo";
    DartYearOnlyReadsOnlyYear("2024", "2024", "Foo", "Foo");
  }

  lemma DartYearMonthOfLabel(c: Category)
    requires WellFormed(c) && c.YearMonth?
    ensures DartYearMonth(Label(c)) == Some(Rank(c))
  {
    SortKeyOfLabel(c);
  }

  /** What the comparator needs to know of a key: whether it has the separator, and
      the year and month it spells. */
  predicate Spells(key: string, c: Category) {
    && key != UnknownKey
    && (Contains(key, Separator) <==> c.YearMonth?)
    && (c.YearMonth? ==> DartYearMonth(key) == Some(Rank(c)))
    && (c.YearOnly? ==> ParseInt(key) == Some(c.year))
  }

  lemma SpellsLabel(c: Category)
    requires WellFormed(c) && !c.Unknown?
    ensures Spells(Label(c), c)
  {
    LabelSeparator(c);
    if c.YearMonth? {
      DartYearMonthOfLabel(c);
    } else {
      ParseNatToString(c.year);
    }
  }

  lemma DartComparesRanks(a: string, b: string, ca: Category, cb: Category)
    requires !ca.Unknown? && !cb.Unknown?
    requires Spells(a, ca) && Spells(b, cb)
    ensures DartCompareKeys(a, b).Some?
    ensures DartCompareKeys(a, b).value < 0 <==> PairLess(Rank(cb), Rank(ca))
    ensures DartCompareKeys(a, b).value > 0 <==> PairLess(Rank(ca), Rank(cb))
  {
  }

  /** On two keys other than 'Unknown', the Dart comparator puts `a` first exactly
      when Python's descending `sort_key` order does, and never calls them equal. */
  lemma DartAgreesWithSortKey(a: Category, b: Category)
    requires WellFormed(a) && WellFormed(b) && !a.Unknown? && !b.Unknown?
    ensures DartCompareKeys(Label(a), Label(b)).Some?
    ensures DartCompareKeys(Label(a), Label(b)).value < 0 <==> PairLess(Rank(b), Rank(a))
    ensures DartCompareKeys(Label(a), Label(b)).value > 0 <==> PairLess(Rank(a), Rank(b))
  {
    SpellsLabel(a);
    SpellsLabel(b);
    DartComparesRanks(Label(a), Label(b), a, b);
  }

  /** The Dart comparator sends 'Unknown' after every other key, where the Python
      order puts it before them. */
  lemma DartPutsUnknownLast(c: Category)
    requires WellFormed(c) && !c.Unknown?
    ensures DartCompareKeys(Label(c), UnknownKey) == Some(-1)
    ensures DartCompareKeys(UnknownKey, Label(c)) == Some(1)
    ensures SortCode(Label(c)) < SortCode(UnknownKey)
  {
    SortCodeOfLabel(c);
    UnknownRanksFirst(c);
  }
}
