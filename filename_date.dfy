/** `extract_date_from_filename`: three filename patterns tried in order, the first
    that yields a valid datetime wins, a ValueError moves on to the next pattern,
    and nothing found gives None. Regular expressions are modelled over ASCII digits:
    `re.match` as a test on a prefix, `re.search` as a scan for the leftmost start. */
module FilenameDate {
  import opened Options
  import opened Text
  import opened Dates

  const Extensions: seq<string> := ["jpg", "jpeg", "png", "gif", "bmp", "webp"]

  /** The group `(jpg|jpeg|png|gif|bmp|webp)`; the pattern is not anchored at the
      end, so only the start of the rest has to match. */
  predicate StartsWithExtension(s: string) {
    StartsWith(s, "jpg") || StartsWith(s, "jpeg") || StartsWith(s, "png") ||
    StartsWith(s, "gif") || StartsWith(s, "bmp") || StartsWith(s, "webp")
  }

  /** The length of the run of digits that starts at `i`. */
  function DigitRun(s: string, i: nat): (n: nat)
    requires i <= |s|
    ensures i + n <= |s| && AllDigits(s[i..i + n])
    ensures i + n == |s| || !IsDigit(s[i + n])
    decreases |s| - i
  {
    if i < |s| && IsDigit(s[i]) then
      var n := DigitRun(s, i + 1);
      assert s[i..i + 1 + n] == [s[i]] + s[i + 1..i + 1 + n];
      1 + n
    else 0
  }

  /** `(\d+)\.` at the start of `t`: `\d+` is followed by a non-digit, so it takes
      the whole run of digits. The group and what follows the dot. */
  function DotField(t: string): (r: Option<(string, string)>)
    ensures r.Some? ==> 1 <= |r.value.0| && AllDigits(r.value.0)
    ensures r.Some? ==> t == r.value.0 + "." + r.value.1
  {
    var n := DigitRun(t, 0);
    if 0 < n && n < |t| && t[n] == '.' then
      assert t == t[..n] + "." + t[n + 1..];
      Some((t[..n], t[n + 1..]))
    else None
  }

  // ---------------------------------------------------------------------------
  // Pattern 1: IMG-YYYYMMDD-WA<n>.<ext>

  datatype WaGroups = WaGroups(date: string, number: string)

  /** `IMG-(\d{8})-WA`: the fixed-width head of pattern 1. */
  predicate WaHead(name: string) {
    StartsWith(name, "IMG-") && 15 <= |name| && AllDigits(name[4..12]) && name[12..15] == "-WA"
  }

  /** `re.match(r'IMG-(\d{8})-WA(\d+)\.(jpg|jpeg|png|gif|bmp|webp)', name)` */
  function MatchWa(name: string): (m: Option<WaGroups>)
    ensures m.Some? ==> |m.value.date| == 8 && AllDigits(m.value.date)
    ensures m.Some? ==> 1 <= |m.value.number| && AllDigits(m.value.number)
    ensures m.Some? ==> var head := "IMG-" + m.value.date + "-WA" + m.value.number + ".";
              StartsWith(name, head) && StartsWithExtension(name[|head|..])
  {
    if WaHead(name) then
      match DotField(name[15..])
      case None => None
      case Some((number, rest)) =>
        if StartsWithExtension(rest) then Some(WaGroups(name[4..12], number)) else None
    else None
  }

  /** `datetime(year, month, day)`, None where it raises ValueError. */
  function DateFromFields(year: int, month: int, day: int): (r: Option<Date>)
  {
    if ValidDate(Date(year, month, day)) then Some(Date(year, month, day)) else None
  }

  /** Eight digits read as YYYYMMDD. This is `datetime.strptime(s, '%Y%m%d')`: `%Y`
      takes four digits and a one-digit month or day would leave characters
      unconverted, so only the 4-2-2 split can succeed. It is equally the generic
      scan's `datetime(int(g1), int(g2), int(g3))`. */
  function CompactDate(s: string): (r: Option<Date>)
    requires |s| == 8 && AllDigits(s)
    ensures r.Some? ==> ValidDate(r.value)
  {
    DateFromFields(DigitsValue(s[..4]), DigitsValue(s[4..6]), DigitsValue(s[6..]))
  }

  /** What one attempt at a pattern does: fall through to the next pattern (no match,
      or a caught ValueError), return a datetime, or raise an exception the function
      does not catch. */
  datatype Attempt = Falls | Parsed(t: Timestamp) | Uncaught

  /** Lines 38-47: a valid date plus `n` microseconds; the OverflowError of an
      addition past year 9999 is not a ValueError and escapes. */
  function WaAttempt(name: string): (r: Attempt)
    ensures r.Falls? <==> MatchWa(name).None? || CompactDate(MatchWa(name).value.date).None?
    ensures r.Uncaught? ==> MatchWa(name).Some? && CompactDate(MatchWa(name).value.date).Some?
    ensures r.Parsed? ==>
              MatchWa(name).Some? && TimeOfDay(r.t) == DigitsValue(MatchWa(name).value.number) % MicrosPerDay
  {
    match MatchWa(name)
    case None => Falls
    case Some(g) =>
      match CompactDate(g.date)
      case None => Falls
      case Some(d) =>
        match AddMicroseconds(Midnight(d), DigitsValue(g.number))
        case None => Uncaught
        case Some(t) => Parsed(t)
  }

  // ---------------------------------------------------------------------------
  // Pattern 2: WhatsApp Image YYYY-MM-DD at H.M.S.<ext>

  datatype LongGroups = LongGroups(year: string, month: string, day: string,
                                   hour: string, minute: string, second: string)

  /** `WhatsApp Image (\d{4})-(\d{2})-(\d{2}) at `: the fixed-width head of pattern 2. */
  predicate LongFormHead(name: string) {
    StartsWith(name, "WhatsApp Image ") && 29 <= |name|
    && AllDigits(name[15..19]) && name[19] == '-' && AllDigits(name[20..22]) && name[22] == '-'
    && AllDigits(name[23..25]) && name[25..29] == " at "
  }

  /** The three date groups of the head. */
  function LongFormDate(name: string): (r: Option<(string, string, string)>)
    ensures r.Some? ==> 29 <= |name|
    ensures r.Some? ==> |r.value.0| == 4 && |r.value.1| == 2 && |r.value.2| == 2
    ensures r.Some? ==> AllDigits(r.value.0) && AllDigits(r.value.1) && AllDigits(r.value.2)
    ensures r.Some? ==> name[..29] == DatePart(r.value.0, r.value.1, r.value.2)
  {
    if LongFormHead(name) then Some((name[15..19], name[20..22], name[23..25])) else None
  }

  /** `(\d+)\.(\d+)\.(\d+)\.` at the start of `t`: the three clock groups and what
      follows the last dot. */
  function ClockFields(t: string): (r: Option<(string, string, string, string)>)
    ensures r.Some? ==> AllDigits(r.value.0) && AllDigits(r.value.1) && AllDigits(r.value.2)
    ensures r.Some? ==> t == ClockPart(r.value.0, r.value.1, r.value.2) + r.value.3
  {
    match DotField(t)
    case None => None
    case Some((hour, t1)) =>
      match DotField(t1)
      case None => None
      case Some((minute, t2)) =>
        match DotField(t2)
        case None => None
        case Some((second, rest)) => Some((hour, minute, second, rest))
  }

  /** `WhatsApp Image YYYY-MM-DD at ` for the three date groups. */
  function DatePart(year: string, month: string, day: string): string {
    "WhatsApp Image " + year + "-" + month + "-" + day + " at "
  }

  /** `H.M.S.` for the three clock groups. */
  function ClockPart(hour: string, minute: string, second: string): string {
    hour + "." + minute + "." + second + "."
  }

  /** What pattern 2 consumes before the extension group, for the groups `g`. */
  function LongFormHeadOf(g: LongGroups): string {
    DatePart(g.year, g.month, g.day) + ClockPart(g.hour, g.minute, g.second)
  }

  /** `re.match(r'WhatsApp Image (\d{4})-(\d{2})-(\d{2}) at (\d+)\.(\d+)\.(\d+)\.(ext)', name)` */
  function MatchLongForm(name: string): (m: Option<LongGroups>)
    ensures m.Some? ==> |m.value.year| == 4 && |m.value.month| == 2 && |m.value.day| == 2
    ensures m.Some? ==> AllDigits(m.value.year) && AllDigits(m.value.month) && AllDigits(m.value.day)
    ensures m.Some? ==> AllDigits(m.value.hour) && AllDigits(m.value.minute) && AllDigits(m.value.second)
  {
    match LongFormDate(name)
    case None => None
    case Some((year, month, day)) =>
      match ClockFields(name[29..])
      case None => None
      case Some((hour, minute, second, rest)) =>
        if StartsWithExtension(rest) then Some(LongGroups(year, month, day, hour, minute, second))
        else None
  }

  /** Conversely, a name pattern 2 matches is the long form of its groups, followed
      by one of the extensions. */
  lemma MatchLongFormShape(name: string)
    requires MatchLongForm(name).Some?
    ensures var head := LongFormHeadOf(MatchLongForm(name).value);
      StartsWith(name, head) && StartsWithExtension(name[|head|..])
  {
    var g := MatchLongForm(name).value;
    var d := LongFormDate(name).value;
    var c := ClockFields(name[29..]).value;
    assert g == LongGroups(d.0, d.1, d.2, c.0, c.1, c.2);
    PrefixThen(name, 29, ClockPart(c.0, c.1, c.2), c.3);
  }

  /** A piece that follows position `k` extends the prefix up to `k`. */
  lemma PrefixThen(s: string, k: nat, piece: string, rest: string)
    requires k <= |s| && s[k..] == piece + rest
    ensures StartsWith(s, s[..k] + piece) && s[|s[..k] + piece|..] == rest
  {
    assert s == s[..k] + piece + rest;
  }

  /** The largest value `datetime()` accepts for an argument before it raises
      OverflowError instead of ValueError (a C `int`). */
  const CIntMax: int := 0x7FFF_FFFF

  /** Lines 50-61: `datetime(year, month, day, hour, minute, second)`. */
  function LongAttempt(name: string): (r: Attempt)
    ensures MatchLongForm(name).None? ==> r.Falls?
    ensures r.Uncaught? ==>
              MatchLongForm(name).Some? &&
              var g := MatchLongForm(name).value;
              DigitsValue(g.hour) > CIntMax || DigitsValue(g.minute) > CIntMax || DigitsValue(g.second) > CIntMax
    ensures r.Parsed? ==>
              MatchLongForm(name).Some? && r.t.microsecond == 0 &&
              var g := MatchLongForm(name).value;
              DateOf(r.t) == Date(DigitsValue(g.year), DigitsValue(g.month), DigitsValue(g.day)) &&
              r.t.hour == DigitsValue(g.hour) && r.t.minute == DigitsValue(g.minute) && r.t.second == DigitsValue(g.second)
  {
    match MatchLongForm(name)
    case None => Falls
    case Some(g) =>
      var t := DateTime(DigitsValue(g.year), DigitsValue(g.month), DigitsValue(g.day),
                        DigitsValue(g.hour), DigitsValue(g.minute), DigitsValue(g.second), 0);
      if t.hour > CIntMax || t.minute > CIntMax || t.second > CIntMax then Uncaught
      else if Valid(t) then Parsed(t)
      else Falls
  }

  // ---------------------------------------------------------------------------
  // Pattern 3: the leftmost YYYYMMDD, then the leftmost YYYY-MM-DD

  predicate CompactAt(s: string, i: nat) {
    i + 8 <= |s| && AllDigits(s[i..i + 8])
  }

  predicate DashedAt(s: string, i: nat) {
    i + 10 <= |s| && AllDigits(s[i..i + 4]) && s[i + 4] == '-' &&
    AllDigits(s[i + 5..i + 7]) && s[i + 7] == '-' && AllDigits(s[i + 8..i + 10])
  }

  /** `re.search(r'(\d{4})(\d{2})(\d{2})', s)` from `from` on: the leftmost start of eight digits. */
  function SearchCompact(s: string, from: nat): (r: Option<nat>)
    ensures r.Some? ==> from <= r.value && CompactAt(s, r.value)
    ensures r.Some? ==> forall k :: from <= k < r.value ==> !CompactAt(s, k)
    ensures r.None? ==> forall k :: from <= k ==> !CompactAt(s, k)
    decreases |s| - from
  {
    if from + 8 > |s| then None
    else if CompactAt(s, from) then Some(from)
    else SearchCompact(s, from + 1)
  }

  /** `re.search(r'(\d{4})-(\d{2})-(\d{2})', s)` from `from` on. */
  function SearchDashed(s: string, from: nat): (r: Option<nat>)
    ensures r.Some? ==> from <= r.value && DashedAt(s, r.value)
    ensures r.Some? ==> forall k :: from <= k < r.value ==> !DashedAt(s, k)
    ensures r.None? ==> forall k :: from <= k ==> !DashedAt(s, k)
    decreases |s| - from
  {
    if from + 10 > |s| then None
    else if DashedAt(s, from) then Some(from)
    else SearchDashed(s, from + 1)
  }

  /** The ten characters YYYY-MM-DD at `i` read as `datetime(int(g1), int(g2), int(g3))`. */
  function DashedDate(s: string, i: nat): (r: Option<Date>)
    requires DashedAt(s, i)
    ensures r.Some? ==> ValidDate(r.value)
  {
    DateFromFields(DigitsValue(s[i..i + 4]), DigitsValue(s[i + 5..i + 7]), DigitsValue(s[i + 8..i + 10]))
  }

  /** `d` is spelled somewhere in `s` in one of the two generic shapes. */
  ghost predicate SpelledIn(s: string, d: Date) {
    exists i: nat :: (CompactAt(s, i) && CompactDate(s[i..i + 8]) == Some(d)) ||
                (DashedAt(s, i) && DashedDate(s, i) == Some(d))
  }

  /** Lines 63-79. The three-group branch is the one taken for both patterns (the
      one-group `strptime` branch at lines 75-77 is never reached). */
  function GenericScan(name: string): (r: Option<Timestamp>)
    ensures r.Some? ==> r.value == Midnight(DateOf(r.value)) && SpelledIn(name, DateOf(r.value))
  {
    var compact := match SearchCompact(name, 0)
      case Some(i) => CompactDate(name[i..i + 8])
      case None => None;
    if compact.Some? then
      var i := SearchCompact(name, 0).value;
      assert CompactAt(name, i) && CompactDate(name[i..i + 8]) == compact;
      Some(Midnight(compact.value))
    else
      match SearchDashed(name, 0)
      case None => None
      case Some(i) =>
        match DashedDate(name, i)
        case None => None
        case Some(d) =>
          assert DashedAt(name, i) && DashedDate(name, i) == Some(d);
          Some(Midnight(d))
  }

  /** The eight-digit window at `i` is the leftmost one, the one `re.search` finds. */
  ghost predicate FirstCompactAt(name: string, i: nat) {
    CompactAt(name, i) && forall k: nat :: k < i ==> !CompactAt(name, k)
  }

  /** The `YYYY-MM-DD` shape at `p` is the leftmost one. */
  ghost predicate FirstDashedAt(name: string, p: nat) {
    DashedAt(name, p) && forall k: nat :: k < p ==> !DashedAt(name, k)
  }

  /** The first generic pattern gives no date: there are no eight digits in a row,
      or the leftmost eight are no valid date. */
  ghost predicate CompactYieldsNothing(name: string) {
    forall i: nat :: FirstCompactAt(name, i) ==> CompactDate(name[i..i + 8]).None?
  }

  lemma FirstCompactIsSearch(name: string, i: nat)
    requires FirstCompactAt(name, i)
    ensures SearchCompact(name, 0) == Some(i)
  {
    assert SearchCompact(name, 0).Some?;
  }

  lemma FirstDashedIsSearch(name: string, p: nat)
    requires FirstDashedAt(name, p)
    ensures SearchDashed(name, 0) == Some(p)
  {
    assert SearchDashed(name, 0).Some?;
  }

  /** Lines 69-74 for the first pattern: when the leftmost eight digits spell a
      valid date, that date at midnight is the result. */
  lemma GenericScanCompact(name: string, i: nat)
    requires FirstCompactAt(name, i) && CompactDate(name[i..i + 8]).Some?
    ensures GenericScan(name) == Some(Midnight(CompactDate(name[i..i + 8]).value))
  {
    FirstCompactIsSearch(name, i);
  }

  /** Lines 69-79 for the second pattern: when the first gives nothing, the result
      is the leftmost `YYYY-MM-DD` at midnight if that is a valid date, else None. */
  lemma GenericScanDashed(name: string, p: nat)
    requires CompactYieldsNothing(name) && FirstDashedAt(name, p)
    ensures GenericScan(name) == if DashedDate(name, p).Some? then Some(Midnight(DashedDate(name, p).value)) else None
  {
    FirstDashedIsSearch(name, p);
    CompactSearchYieldsNothing(name);
  }

  /** Lines 69-81: with neither pattern giving a date, the result is None. */
  lemma GenericScanNone(name: string)
    requires CompactYieldsNothing(name) && forall k: nat :: !DashedAt(name, k)
    ensures GenericScan(name).None?
  {
    CompactSearchYieldsNothing(name);
    assert SearchDashed(name, 0).None?;
  }

  lemma CompactSearchYieldsNothing(name: string)
    requires CompactYieldsNothing(name)
    ensures SearchCompact(name, 0).Some? ==> CompactDate(name[SearchCompact(name, 0).value..SearchCompact(name, 0).value + 8]).None?
  {
    if SearchCompact(name, 0).Some? {
      assert FirstCompactAt(name, SearchCompact(name, 0).value);
    }
  }

  // ---------------------------------------------------------------------------
  // The whole function

  /** The inputs on which `extract_date_from_filename` raises instead of returning. */
  predicate Raises(name: string) {
    WaAttempt(name).Uncaught? || (WaAttempt(name).Falls? && LongAttempt(name).Uncaught?)
  }

  /** `extract_date_from_filename(name)` */
  function ExtractDateFromFilename(name: string): (r: Option<Timestamp>)
    requires !Raises(name)
    ensures MatchWa(name).None? && r.Some? ==> r.value.microsecond == 0
    ensures MatchWa(name).None? && MatchLongForm(name).None? && r.Some? ==>
              TimeOfDay(r.value) == 0 && SpelledIn(name, DateOf(r.value))
    ensures MatchWa(name).None? && MatchLongForm(name).None? ==> r == GenericScan(name)
  {
    match WaAttempt(name)
    case Parsed(t) => Some(t)
    case _ =>
      match LongAttempt(name)
      case Parsed(t) => Some(t)
      case _ => GenericScan(name)
  }

  // ---------------------------------------------------------------------------
  // Digit runs

  /** A run of `n` digits that ends at a non-digit (or at the end) is the run at `i`. */
  lemma {:induction false} DigitRunExact(s: string, i: nat, n: nat)
    requires i + n <= |s| && AllDigits(s[i..i + n])
    requires i + n == |s| || !IsDigit(s[i + n])
    ensures DigitRun(s, i) == n
    decreases n
  {
    if n > 0 {
      assert IsDigit(s[i..i + n][0]);
      assert s[i + 1..i + n] == s[i..i + n][1..];
      DigitRunExact(s, i + 1, n - 1);
    }
  }

  // ---------------------------------------------------------------------------
  // Dates spelled as digits

  /** `%02d` */
  function Pad2(n: nat): (s: string)
    requires n < 100
    ensures |s| == 2 && AllDigits(s) && DigitsValue(s) == n
  {
    var s := [DigitChar(n / 10), DigitChar(n % 10)];
    DigitsValueTwo(s);
    s
  }

  /** `%04d` */
  function Pad4(n: nat): (s: string)
    requires n < 10000
    ensures |s| == 4 && AllDigits(s) && DigitsValue(s) == n
  {
    var hi, lo := Pad2(n / 100), Pad2(n % 100);
    DigitsValueAppend(hi, lo);
    assert Pow10(2) == 100;
    hi + lo
  }

  /** Two digits are the padded spelling of their own value. */
  lemma Pad2OfDigits(t: string)
    requires |t| == 2 && AllDigits(t)
    ensures DigitsValue(t) < 100
    ensures Pad2(DigitsValue(t)) == t
  {
    DigitsValueTwo(t);
  }

  lemma Pad4OfDigits(t: string)
    requires |t| == 4 && AllDigits(t)
    ensures DigitsValue(t) < 10000
    ensures Pad4(DigitsValue(t)) == t
  {
    var hi, lo := t[..2], t[2..];
    assert t == hi + lo;
    DigitsValueAppend(hi, lo);
    assert Pow10(2) == 100;
    Pad2OfDigits(hi);
    Pad2OfDigits(lo);
    HundredsSplit(DigitsValue(hi), DigitsValue(lo));
  }

  lemma HundredsSplit(a: nat, b: nat)
    requires a < 100 && b < 100
    ensures (a * 100 + b) / 100 == a && (a * 100 + b) % 100 == b && a * 100 + b < 10000
  {
  }

  /** `d.strftime('%Y%m%d')` */
  function CompactDigits(d: Date): (s: string)
    requires ValidDate(d)
    ensures |s| == 8 && AllDigits(s)
  {
    Pad4(d.year) + Pad2(d.month) + Pad2(d.day)
  }

  /** `d.strftime('%Y-%m-%d')` */
  function DashedDigits(d: Date): (s: string)
    requires ValidDate(d)
    ensures |s| == 10
  {
    Pad4(d.year) + "-" + Pad2(d.month) + "-" + Pad2(d.day)
  }

  /** Eight digits read as a date exactly when they are that date's YYYYMMDD. */
  lemma CompactDateSpelling(s: string, d: Date)
    requires |s| == 8 && AllDigits(s)
    ensures CompactDate(s) == Some(d) <==> ValidDate(d) && s == CompactDigits(d)
  {
    if ValidDate(d) && s == CompactDigits(d) {
      assert s[..4] == Pad4(d.year);
      assert s[4..6] == Pad2(d.month);
      assert s[6..] == Pad2(d.day);
    }
    if CompactDate(s) == Some(d) {
      Pad4OfDigits(s[..4]);
      Pad2OfDigits(s[4..6]);
      Pad2OfDigits(s[6..]);
      assert s == s[..4] + s[4..6] + s[6..];
    }
  }

  // ---------------------------------------------------------------------------
  // Pattern 1 on the names WhatsApp gives to images

  function WaFileName(d: Date, number: string, ext: string, tail: string): string
    requires ValidDate(d)
  {
    "IMG-" + CompactDigits(d) + "-WA" + number + "." + ext + tail
  }

  lemma ExtensionThenTail(ext: string, tail: string)
    requires ext in Extensions
    ensures StartsWithExtension(ext + tail)
  {
    StartsWithConcat(ext, tail);
  }

  lemma WaFileNameMatch(d: Date, number: string, ext: string, tail: string)
    requires ValidDate(d) && 1 <= |number| && AllDigits(number) && ext in Extensions
    ensures MatchWa(WaFileName(d, number, ext, tail)) == Some(WaGroups(CompactDigits(d), number))
  {
    var name := WaFileName(d, number, ext, tail);
    assert name[..4] == "IMG-";
    assert name[4..12] == CompactDigits(d);
    assert name[12..15] == "-WA";
    assert WaHead(name);
    assert name[15..] == number + "." + (ext + tail);
    DotFieldOf(number, ext + tail);
    ExtensionThenTail(ext, tail);
  }

  /** `IMG-YYYYMMDD-WA<n>.<ext>` gives the date plus `n` microseconds, and raises
      exactly when that sum passes year 9999. */
  lemma WaFileNameExtract(d: Date, number: string, ext: string, tail: string)
    requires ValidDate(d) && 1 <= |number| && AllDigits(number) && ext in Extensions
    ensures Raises(WaFileName(d, number, ext, tail)) <==> AddMicroseconds(Midnight(d), DigitsValue(number)).None?
    ensures !Raises(WaFileName(d, number, ext, tail)) ==>
              ExtractDateFromFilename(WaFileName(d, number, ext, tail)) == AddMicroseconds(Midnight(d), DigitsValue(number))
  {
    var name := WaFileName(d, number, ext, tail);
    WaFileNameMatch(d, number, ext, tail);
    CompactDateSpelling(CompactDigits(d), d);
    var r := AddMicroseconds(Midnight(d), DigitsValue(number));
    if r.Some? {
      assert WaAttempt(name) == Parsed(r.value);
    } else {
      assert WaAttempt(name) == Uncaught;
    }
  }

  /** Below one day's worth, the counter only sets the clock: `WA0005` is five
      microseconds past midnight of the same day. */
  lemma WaCounterWithinDay(d: Date, number: string, ext: string, tail: string)
    requires ValidDate(d) && 1 <= |number| && AllDigits(number) && ext in Extensions
    requires DigitsValue(number) < MicrosPerDay
    ensures !Raises(WaFileName(d, number, ext, tail))
    ensures ExtractDateFromFilename(WaFileName(d, number, ext, tail)).Some?
    ensures DateOf(ExtractDateFromFilename(WaFileName(d, number, ext, tail)).value) == d
    ensures TimeOfDay(ExtractDateFromFilename(WaFileName(d, number, ext, tail)).value) == DigitsValue(number)
  {
    AddMicrosecondsWithinDay(Midnight(d), DigitsValue(number));
    WaFileNameExtract(d, number, ext, tail);
  }

  /** Of two photos from the same day, the larger WhatsApp counter is the later one. */
  lemma WaLargerCounterIsLater(d: Date, n1: string, n2: string, ext1: string, ext2: string,
                               tail1: string, tail2: string)
    requires ValidDate(d) && ext1 in Extensions && ext2 in Extensions
    requires 1 <= |n1| && AllDigits(n1) && 1 <= |n2| && AllDigits(n2)
    requires DigitsValue(n1) < DigitsValue(n2)
    requires !Raises(WaFileName(d, n2, ext2, tail2))
    ensures !Raises(WaFileName(d, n1, ext1, tail1))
    ensures ExtractDateFromFilename(WaFileName(d, n1, ext1, tail1)).Some?
    ensures ExtractDateFromFilename(WaFileName(d, n2, ext2, tail2)).Some?
    ensures Before(ExtractDateFromFilename(WaFileName(d, n1, ext1, tail1)).value,
                   ExtractDateFromFilename(WaFileName(d, n2, ext2, tail2)).value)
  {
    WaFileNameExtract(d, n1, ext1, tail1);
    WaFileNameExtract(d, n2, ext2, tail2);
    AddMicrosecondsMonotone(Midnight(d), DigitsValue(n1), DigitsValue(n2));
  }

  lemma WaExampleSpelling()
    ensures WaFileName(Date(2025, 1, 22), "0005", "jpg", "") == "IMG-20250122-WA0005.jpg"
  {
    ExampleDigits();
  }

  lemma ExampleDigits()
    ensures CompactDigits(Date(2025, 1, 22)) == "20250122"
  {
    assert Pad4(2025) == "2025" by {
      assert Pad2(20) == "20" && Pad2(25) == "25";
    }
    assert Pad2(1) == "01";
    assert Pad2(22) == "22";
  }

  lemma WaExampleCounter()
    ensures DigitsValue("0005") == 5
  {
    assert "0005"[..3] == "000" && "000"[..2] == "00" && "00"[..1] == "0" && "0"[..0] == [];
  }

  lemma WaExample()
    ensures !Raises("IMG-20250122-WA0005.jpg")
    ensures ExtractDateFromFilename("IMG-20250122-WA0005.jpg") == Some(DateTime(2025, 1, 22, 0, 0, 0, 5))
  {
    var d := Date(2025, 1, 22);
    WaExampleSpelling();
    WaExampleCounter();
    WaCounterWithinDay(d, "0005", "jpg", "");
    var t := ExtractDateFromFilename(WaFileName(d, "0005", "jpg", "")).value;
    SubSecondTimeOfDay(t);
  }

  /** Lines 43-47: a pattern-1 name whose eight digits are no date raises a ValueError
      that is caught, and the name goes on to the generic scan (pattern 2 cannot match
      a name that starts with `IMG-`). */
  lemma WaInvalidDateFallsThrough(name: string)
    requires MatchWa(name).Some? && CompactDate(MatchWa(name).value.date).None?
    ensures !Raises(name) && ExtractDateFromFilename(name) == GenericScan(name)
  {
    ImgIsNotLongForm(name);
    assert WaAttempt(name).Falls? && LongAttempt(name).Falls?;
  }

  /** A name that starts with `IMG-` does not start with `WhatsApp Image `. */
  lemma ImgIsNotLongForm(name: string)
    requires MatchWa(name).Some?
    ensures LongFormDate(name).None? && MatchLongForm(name).None?
  {
    assert name[0] == 'I';
  }

  /** `IMG-20251301-WA1.jpg` has month 13: pattern 1 falls through, the generic scan
      tries the same eight digits, and no `YYYY-MM-DD` follows, so the result is None. */
  lemma WaInvalidDateExample()
    ensures !Raises("IMG-20251301-WA1.jpg")
    ensures ExtractDateFromFilename("IMG-20251301-WA1.jpg") == None
  {
    var name := "IMG-20251301-WA1.jpg";
    ExampleMatch();
    MonthThirteen();
    WaInvalidDateFallsThrough(name);
    ExampleScan();
  }

  lemma ExampleMatch()
    ensures MatchWa("IMG-20251301-WA1.jpg") == Some(WaGroups("20251301", "1"))
  {
    var name := "IMG-20251301-WA1.jpg";
    assert name[..4] == "IMG-" && name[12..15] == "-WA" && name[4..12] == "20251301";
    assert AllDigits("20251301") && "jpg" in Extensions;
    assert WaHead(name);
    assert name[15..] == "1" + "." + ("jpg" + "");
    DotFieldOf("1", "jpg" + "");
    ExtensionThenTail("jpg", "");
  }

  lemma MonthThirteen()
    ensures AllDigits("20251301") && CompactDate("20251301").None?
  {
    assert "20251301"[4..6] == "13" && "13"[..1] == "1" && "1"[..0] == [];
  }

  lemma ExampleScan()
    ensures GenericScan("IMG-20251301-WA1.jpg") == None
  {
    var name := "IMG-20251301-WA1.jpg";
    assert name[4..12] == "20251301";
    MonthThirteen();
    assert SearchCompact(name, 4) == Some(4);
    assert name[3..11][0] == '-' && SearchCompact(name, 3) == Some(4);
    assert name[2..10][1] == '-' && SearchCompact(name, 2) == Some(4);
    assert name[1..9][2] == '-' && SearchCompact(name, 1) == Some(4);
    assert name[0..8][3] == '-' && SearchCompact(name, 0) == Some(4);
    assert SearchDashed(name, 0).None?;
  }

  // ---------------------------------------------------------------------------
  // Pattern 2 on the long names WhatsApp gives to images

  function LongFormFileName(year: string, month: string, day: string, hour: string, minute: string,
                            second: string, ext: string, tail: string): string
  {
    "WhatsApp Image " + year + "-" + month + "-" + day + " at " + hour + "." + minute + "." + second + "." + ext + tail
  }

  /** The datetime the six groups of a long name spell. */
  function LongFormTime(year: string, month: string, day: string, hour: string, minute: string,
                        second: string): DateTime
    requires AllDigits(year) && AllDigits(month) && AllDigits(day)
    requires AllDigits(hour) && AllDigits(minute) && AllDigits(second)
  {
    DateTime(DigitsValue(year), DigitsValue(month), DigitsValue(day),
             DigitsValue(hour), DigitsValue(minute), DigitsValue(second), 0)
  }

  /** The shape of a long name's digit groups that pattern 2 accepts. */
  predicate LongFormFields(year: string, month: string, day: string, hour: string, minute: string,
                           second: string, ext: string)
  {
    |year| == 4 && |month| == 2 && |day| == 2 &&
    AllDigits(year) && AllDigits(month) && AllDigits(day) &&
    1 <= |hour| && 1 <= |minute| && 1 <= |second| &&
    AllDigits(hour) && AllDigits(minute) && AllDigits(second) &&
    ext in Extensions
  }

  /** A digit group followed by a dot is read back as that group. */
  lemma DotFieldOf(field: string, rest: string)
    requires 1 <= |field| && AllDigits(field)
    ensures DotField(field + "." + rest) == Some((field, rest))
  {
    var t := field + "." + rest;
    var n := |field|;
    assert t[0..n] == field;
    DigitRunExact(t, 0, n);
    assert t[..n] == field && t[n + 1..] == rest;
  }

  /** The clock `H.M.S.` read back. */
  lemma ClockFieldsOf(hour: string, minute: string, second: string, rest: string)
    requires 1 <= |hour| && 1 <= |minute| && 1 <= |second|
    requires AllDigits(hour) && AllDigits(minute) && AllDigits(second)
    ensures ClockFields(hour + "." + (minute + "." + (second + "." + rest))) == Some((hour, minute, second, rest))
  {
    DotFieldOf(hour, minute + "." + (second + "." + rest));
    DotFieldOf(minute, second + "." + rest);
    DotFieldOf(second, rest);
  }

  /** Where the fixed part of a long name sits. */
  lemma LongFormHeadLayout(year: string, month: string, day: string, hour: string, minute: string,
                           second: string, ext: string, tail: string)
    requires LongFormFields(year, month, day, hour, minute, second, ext)
    ensures var name := LongFormFileName(year, month, day, hour, minute, second, ext, tail);
            29 <= |name| &&
            name[..4] == "What" && name[..15] == "WhatsApp Image " &&
            name[15..19] == year && name[19] == '-' && name[20..22] == month && name[22] == '-' &&
            name[23..25] == day && name[25..29] == " at " &&
            name[29..] == hour + "." + (minute + "." + (second + "." + (ext + tail)))
  {
    var name := LongFormFileName(year, month, day, hour, minute, second, ext, tail);
    var head := "WhatsApp Image " + year + "-" + month + "-" + day + " at ";
    var body := hour + "." + (minute + "." + (second + "." + (ext + tail)));
    assert name == head + body;
    assert |head| == 29;
  }

  lemma LongFormFileNameMatch(year: string, month: string, day: string, hour: string, minute: string,
                              second: string, ext: string, tail: string)
    requires LongFormFields(year, month, day, hour, minute, second, ext)
    ensures MatchWa(LongFormFileName(year, month, day, hour, minute, second, ext, tail)).None?
    ensures MatchLongForm(LongFormFileName(year, month, day, hour, minute, second, ext, tail)) ==
              Some(LongGroups(year, month, day, hour, minute, second))
  {
    var name := LongFormFileName(year, month, day, hour, minute, second, ext, tail);
    LongFormHeadLayout(year, month, day, hour, minute, second, ext, tail);
    assert LongFormHead(name);
    ClockFieldsOf(hour, minute, second, ext + tail);
    ExtensionThenTail(ext, tail);
  }

  /** A long name raises exactly when an hour, minute or second field exceeds a C
      `int`; otherwise it gives its datetime when that is valid, and falls through
      to the generic scan when it is not. */
  lemma LongFormFileNameExtract(year: string, month: string, day: string, hour: string, minute: string,
                                second: string, ext: string, tail: string)
    requires LongFormFields(year, month, day, hour, minute, second, ext)
    ensures Raises(LongFormFileName(year, month, day, hour, minute, second, ext, tail)) <==>
              DigitsValue(hour) > CIntMax || DigitsValue(minute) > CIntMax || DigitsValue(second) > CIntMax
    ensures !Raises(LongFormFileName(year, month, day, hour, minute, second, ext, tail)) &&
            Valid(LongFormTime(year, month, day, hour, minute, second)) ==>
              ExtractDateFromFilename(LongFormFileName(year, month, day, hour, minute, second, ext, tail)) ==
                Some(LongFormTime(year, month, day, hour, minute, second))
    ensures !Raises(LongFormFileName(year, month, day, hour, minute, second, ext, tail)) &&
            !Valid(LongFormTime(year, month, day, hour, minute, second)) ==>
              ExtractDateFromFilename(LongFormFileName(year, month, day, hour, minute, second, ext, tail)) ==
                GenericScan(LongFormFileName(year, month, day, hour, minute, second, ext, tail))
  {
    var name := LongFormFileName(year, month, day, hour, minute, second, ext, tail);
    LongFormFileNameMatch(year, month, day, hour, minute, second, ext, tail);
    ExtractOfLongMatch(name, LongGroups(year, month, day, hour, minute, second));
  }

  /** What the whole function does with a name only pattern 2 matches. */
  lemma ExtractOfLongMatch(name: string, g: LongGroups)
    requires MatchWa(name).None? && MatchLongForm(name) == Some(g)
    ensures var t := LongFormTime(g.year, g.month, g.day, g.hour, g.minute, g.second);
      && (Raises(name) <==> t.hour > CIntMax || t.minute > CIntMax || t.second > CIntMax)
      && (!Raises(name) && Valid(t) ==> ExtractDateFromFilename(name) == Some(t))
      && (!Raises(name) && !Valid(t) ==> ExtractDateFromFilename(name) == GenericScan(name))
  {
    assert WaAttempt(name) == Falls;
  }

  // ---------------------------------------------------------------------------
  // Names without an eight-digit run

  /** No run of eight digits anywhere in `s`. */
  ghost predicate NoCompact(s: string) {
    forall k: nat :: !CompactAt(s, k)
  }

  /** A non-digit inside `[i, i + n)` means no run of `n` digits starts at `i`. */
  lemma NonDigitIn(s: string, i: nat, n: nat, j: nat)
    requires i <= j < i + n && j < |s| && !IsDigit(s[j])
    ensures !(i + n <= |s| && AllDigits(s[i..i + n]))
  {
    if i + n <= |s| {
      assert s[i..i + n][j - i] == s[j];
    }
  }

  lemma NoCompactShort(s: string)
    requires |s| < 8
    ensures NoCompact(s)
  {
  }

  lemma NoCompactNoDigits(s: string)
    requires NoDigits(s)
    ensures NoCompact(s)
  {
    forall k: nat
      ensures !CompactAt(s, k)
    {
      if k < |s| {
        NonDigitIn(s, k, 8, k);
      }
    }
  }

  /** Joining two pieces without an eight-digit run at a non-digit makes none. */
  lemma NoCompactAppend(a: string, b: string)
    requires NoCompact(a) && NoCompact(b)
    requires a == [] || b == [] || !IsDigit(a[|a| - 1]) || !IsDigit(b[0])
    ensures NoCompact(a + b)
  {
    var s := a + b;
    forall k: nat
      ensures !CompactAt(s, k)
    {
      if k + 8 <= |a| {
        assert s[k..k + 8] == a[k..k + 8];
        assert !CompactAt(a, k);
      } else if |a| <= k {
        if k + 8 <= |s| {
          assert s[k..k + 8] == b[k - |a|..k - |a| + 8];
          assert !CompactAt(b, k - |a|);
        }
      } else if k + 8 <= |s| {
        if !IsDigit(a[|a| - 1]) {
          assert s[|a| - 1] == a[|a| - 1];
          NonDigitIn(s, k, 8, |a| - 1);
        } else {
          assert s[|a|] == b[0];
          NonDigitIn(s, k, 8, |a|);
        }
      }
    }
  }

  lemma ExtensionNoDigits(ext: string)
    requires ext in Extensions
    ensures NoDigits(ext) && 1 <= |ext| < 8
  {
  }

  /** With no digit in the prefix, the leftmost ten characters of the form
      YYYY-MM-DD are the ones at the end of the prefix. */
  lemma SearchDashedAfterPrefix(s: string, p: nat)
    requires p <= |s| && NoDigits(s[..p]) && DashedAt(s, p)
    ensures SearchDashed(s, 0) == Some(p)
  {
    forall k: nat | k < p
      ensures !DashedAt(s, k)
    {
      assert s[..p][k] == s[k];
      NonDigitIn(s, k, 4, k);
    }
  }

  lemma SearchCompactAfterPrefix(s: string, p: nat)
    requires p <= |s| && NoDigits(s[..p]) && CompactAt(s, p)
    ensures SearchCompact(s, 0) == Some(p)
  {
    forall k: nat | k < p
      ensures !CompactAt(s, k)
    {
      assert s[..p][k] == s[k];
      NonDigitIn(s, k, 8, k);
    }
  }

  /** When a long name's clock fields are too short to hold eight digits, the
      generic scan finds the name's own YYYY-MM-DD and returns that day at
      midnight if it is a valid date. */
  lemma LongFormFallback(year: string, month: string, day: string, hour: string, minute: string,
                         second: string, ext: string, tail: string)
    requires LongFormFields(year, month, day, hour, minute, second, ext)
    requires |hour| < 8 && |minute| < 8 && |second| < 8 && NoDigits(tail)
    ensures GenericScan(LongFormFileName(year, month, day, hour, minute, second, ext, tail)) ==
              if ValidDate(Date(DigitsValue(year), DigitsValue(month), DigitsValue(day)))
              then Some(Midnight(Date(DigitsValue(year), DigitsValue(month), DigitsValue(day))))
              else None
  {
    var name := LongFormFileName(year, month, day, hour, minute, second, ext, tail);
    LongFormNoCompact(year, month, day, hour, minute, second, ext, tail);
    LongFormHeadLayout(year, month, day, hour, minute, second, ext, tail);
    ImageHeadNoDigits(name);
    assert DashedAt(name, 15);
    SearchDashedAfterPrefix(name, 15);
    ScanWithoutCompact(name, 15);
  }

  lemma ImageHeadNoDigits(name: string)
    requires 15 <= |name| && name[..15] == "WhatsApp Image "
    ensures NoDigits(name[..15])
  {
  }

  /** With no eight-digit run, the scan reads the leftmost YYYY-MM-DD. */
  lemma ScanWithoutCompact(name: string, p: nat)
    requires NoCompact(name) && SearchDashed(name, 0) == Some(p)
    ensures GenericScan(name) == match DashedDate(name, p)
      case None => None
      case Some(d) => Some(Midnight(d))
  {
    assert SearchCompact(name, 0).None?;
  }

  lemma LongFormNoCompact(year: string, month: string, day: string, hour: string, minute: string,
                          second: string, ext: string, tail: string)
    requires LongFormFields(year, month, day, hour, minute, second, ext)
    requires |hour| < 8 && |minute| < 8 && |second| < 8 && NoDigits(tail)
    ensures NoCompact(LongFormFileName(year, month, day, hour, minute, second, ext, tail))
  {
    var p := "WhatsApp Image ";
    ExtensionNoDigits(ext);
    NoCompactNoDigits(p);
    NoCompactNoDigits(tail);
    var acc := p;
    NoCompactAppend(acc, year);
    acc := acc + year;
    NoCompactAppend(acc, "-");
    acc := acc + "-";
    NoCompactAppend(acc, month);
    acc := acc + month;
    NoCompactAppend(acc, "-");
    acc := acc + "-";
    NoCompactAppend(acc, day);
    acc := acc + day;
    NoCompactAppend(acc, " at ");
    acc := acc + " at ";
    NoCompactAppend(acc, hour);
    acc := acc + hour;
    NoCompactAppend(acc, ".");
    acc := acc + ".";
    NoCompactAppend(acc, minute);
    acc := acc + minute;
    NoCompactAppend(acc, ".");
    acc := acc + ".";
    NoCompactAppend(acc, second);
    acc := acc + second;
    NoCompactAppend(acc, ".");
    acc := acc + ".";
    NoCompactAppend(acc, ext);
    acc := acc + ext;
    NoCompactAppend(acc, tail);
  }

  // ---------------------------------------------------------------------------
  // Pattern 3 on other names

  /** A compact date after a digit-free prefix is found, whatever follows it. */
  lemma GenericCompactFound(prefix: string, d: Date, suffix: string)
    requires NoDigits(prefix) && ValidDate(d)
    ensures GenericScan(prefix + CompactDigits(d) + suffix) == Some(Midnight(d))
  {
    var name := prefix + CompactDigits(d) + suffix;
    assert name[..|prefix|] == prefix;
    assert name[|prefix|..|prefix| + 8] == CompactDigits(d);
    SearchCompactAfterPrefix(name, |prefix|);
    CompactDateSpelling(CompactDigits(d), d);
  }

  lemma NoCompactDashedDigits(d: Date)
    requires ValidDate(d)
    ensures NoCompact(DashedDigits(d))
  {
    var acc := Pad4(d.year);
    NoCompactAppend(acc, "-");
    acc := acc + "-";
    NoCompactAppend(acc, Pad2(d.month));
    acc := acc + Pad2(d.month);
    NoCompactAppend(acc, "-");
    acc := acc + "-";
    NoCompactAppend(acc, Pad2(d.day));
  }

  /** A YYYY-MM-DD date in a name with no other digits is found. */
  lemma GenericDashedFound(prefix: string, d: Date, suffix: string)
    requires NoDigits(prefix) && NoDigits(suffix) && ValidDate(d)
    ensures GenericScan(prefix + DashedDigits(d) + suffix) == Some(Midnight(d))
  {
    var name := prefix + DashedDigits(d) + suffix;
    NoCompactNoDigits(prefix);
    NoCompactNoDigits(suffix);
    NoCompactDashedDigits(d);
    NoCompactAppend(prefix, DashedDigits(d));
    NoCompactAppend(prefix + DashedDigits(d), suffix);
    var p := |prefix|;
    assert name[..p] == prefix;
    assert name[p..p + 4] == Pad4(d.year) && name[p + 4] == '-';
    assert name[p + 5..p + 7] == Pad2(d.month) && name[p + 7] == '-';
    assert name[p + 8..p + 10] == Pad2(d.day);
    SearchDashedAfterPrefix(name, p);
  }

  /** Without a dash between two digit-free ends there is no YYYY-MM-DD. */
  lemma NoDashedBetween(s: string, lo: nat, hi: nat)
    requires lo <= hi <= |s| && NoDigits(s[..lo]) && NoDigits(s[hi..])
    requires forall j :: lo <= j < hi ==> s[j] != '-'
    ensures SearchDashed(s, 0).None?
  {
    forall k: nat
      ensures !DashedAt(s, k)
    {
      if k < lo {
        assert s[..lo][k] == s[k];
        NonDigitIn(s, k, 4, k);
      } else if hi <= k + 5 {
        if k + 10 <= |s| {
          assert s[hi..][k + 5 - hi] == s[k + 5];
          NonDigitIn(s, k + 5, 2, k + 5);
        }
      } else {
        assert s[k + 4] != '-';
      }
    }
  }

  /** Digits and underscores only. */
  lemma NoDashInDigitsAround(x: string, y: string)
    requires AllDigits(x) && AllDigits(y)
    ensures forall j :: 0 <= j < |x + "_" + y| ==> (x + "_" + y)[j] != '-'
  {
    forall j | 0 <= j < |x + "_" + y|
      ensures (x + "_" + y)[j] != '-'
    {
      if j < |x| {
        assert IsDigit(x[j]);
      } else if j > |x| {
        assert IsDigit(y[j - |x| - 1]);
      }
    }
  }

  /** Only the leftmost run of eight digits is tried: when it is not a date, a valid
      YYYYMMDD further on is ignored. */
  lemma GenericOnlyLeftmostCompactTried(prefix: string, eight: string, d: Date, suffix: string)
    requires NoDigits(prefix) && NoDigits(suffix) && ValidDate(d)
    requires |eight| == 8 && AllDigits(eight) && CompactDate(eight).None?
    ensures GenericScan(prefix + eight + "_" + CompactDigits(d) + suffix).None?
  {
    var mid := eight + "_" + CompactDigits(d);
    var name := prefix + eight + "_" + CompactDigits(d) + suffix;
    var lo, hi := |prefix|, |prefix| + 17;
    assert name == prefix + mid + suffix;
    assert name[..lo] == prefix && name[hi..] == suffix;
    assert name[lo..lo + 8] == eight;
    SearchCompactAfterPrefix(name, lo);
    NoDashInDigitsAround(eight, CompactDigits(d));
    assert forall j :: lo <= j < hi ==> name[j] == mid[j - lo];
    NoDashedBetween(name, lo, hi);
  }

  /** An eight-digit run that is not a date sends the scan on to YYYY-MM-DD. */
  lemma GenericInvalidCompactMovesOn(prefix: string, eight: string, d: Date, suffix: string)
    requires NoDigits(prefix) && ValidDate(d)
    requires |eight| == 8 && AllDigits(eight) && CompactDate(eight).None?
    ensures GenericScan(prefix + eight + "_" + DashedDigits(d) + suffix) == Some(Midnight(d))
  {
    var name := prefix + eight + "_" + DashedDigits(d) + suffix;
    var lo := |prefix|;
    var p := lo + 9;
    assert name[..lo] == prefix;
    assert name[lo..lo + 8] == eight;
    assert name[lo + 8] == '_';
    SearchCompactAfterPrefix(name, lo);
    assert name[p..p + 4] == Pad4(d.year) && name[p + 4] == '-';
    assert name[p + 5..p + 7] == Pad2(d.month) && name[p + 7] == '-';
    assert name[p + 8..p + 10] == Pad2(d.day);
    NoDashedBeforeYear(name, lo, p);
    ScanAfterInvalidCompact(name, lo, p);
  }

  /** Eight digits, an underscore, then four digits: no YYYY-MM-DD starts before those four. */
  lemma NoDashedBeforeYear(name: string, lo: nat, p: nat)
    requires p == lo + 9 && p + 4 <= |name| && NoDigits(name[..lo])
    requires AllDigits(name[lo..lo + 8]) && name[lo + 8] == '_' && AllDigits(name[p..p + 4])
    ensures forall k: nat :: k < p ==> !DashedAt(name, k)
  {
    forall k: nat | k < p
      ensures !DashedAt(name, k)
    {
      if k < lo {
        assert name[..lo][k] == name[k];
        NonDigitIn(name, k, 4, k);
      } else if k + 4 < lo + 8 {
        assert name[k + 4] == name[lo..lo + 8][k + 4 - lo];
      } else if lo + 8 < k + 4 {
        assert name[k + 4] == name[p..p + 4][k + 4 - p];
      }
    }
  }

  /** An eight-digit run that is no date leaves the result to the leftmost YYYY-MM-DD. */
  lemma ScanAfterInvalidCompact(name: string, lo: nat, p: nat)
    requires SearchCompact(name, 0) == Some(lo) && CompactDate(name[lo..lo + 8]).None?
    requires DashedAt(name, p) && forall k: nat :: k < p ==> !DashedAt(name, k)
    ensures GenericScan(name) == match DashedDate(name, p)
      case None => None
      case Some(d) => Some(Midnight(d))
  {
    assert SearchDashed(name, 0) == Some(p);
  }
}
