/** The text helpers of an asset row: the playback duration rendered as
    "H hours M min S sec", and a date rendered in the device's date format.
    The part values a date-time formatter produces (month, day, year, hour,
    minute, second, period) are given as strings; parsing a date and the
    locale formatting itself are not modelled. */
module AssetRowFormat {
  import opened AssetModel

  // ----- JavaScript integer arithmetic -----

  /** `Math.floor(a / d)` for a positive divisor: Dafny's division rounds the
      same way when the divisor is positive. */
  function FloorDiv(a: int, d: int): (q: int)
    requires d > 0
    ensures q * d <= a < q * d + d
  {
    a / d
  }

  /** JavaScript `%`: the remainder carries the sign of the dividend. */
  function JsRemainder(a: int, d: int): (r: int)
    requires d > 0
    ensures a >= 0 ==> r == a % d
    ensures a < 0 ==> -d < r <= 0
    ensures (a - r) % d == 0
  {
    if a >= 0 then
      assert a - a % d == (a / d) * d;
      MultipleMod(a / d, d);
      a % d
    else
      var q, m := (-a) / d, (-a) % d;
      assert a + m == (-q) * d;
      MultipleMod(-q, d);
      -m
  }

  lemma {:induction false} ProductAtLeast(t: nat, d: int)
    requires d > 0 && t >= 1
    ensures t * d >= d
    decreases t
  {
    if t > 1 {
      ProductAtLeast(t - 1, d);
      assert t * d == (t - 1) * d + d;
    }
  }

  /** A multiple of a positive divisor leaves no remainder. */
  lemma MultipleMod(q: int, d: int)
    requires d > 0
    ensures (q * d) % d == 0
  {
    var x := q * d;
    var t := q - x / d;
    assert x == (x / d) * d + x % d;
    assert t * d == x % d;
    if t > 0 {
      ProductAtLeast(t, d);
    }
  }

  function Hours(secInt: int): int { FloorDiv(secInt, 3600) }
  function Minutes(secInt: int): int { JsRemainder(FloorDiv(secInt, 60), 60) }
  function Secs(secInt: int): int { JsRemainder(secInt, 60) }

  /** For a non-negative count of seconds the three units split it exactly,
      with minutes and seconds below 60. */
  lemma DurationSplit(secInt: int)
    requires secInt >= 0
    ensures Hours(secInt) * 3600 + Minutes(secInt) * 60 + Secs(secInt) == secInt
    ensures 0 <= Hours(secInt) && 0 <= Minutes(secInt) < 60 && 0 <= Secs(secInt) < 60
  {
    var q, s := secInt / 60, secInt % 60;
    var h, m := q / 60, q % 60;
    assert secInt == q * 60 + s;
    assert q == h * 60 + m;
    assert secInt == h * 3600 + (m * 60 + s);
    assert 0 <= m * 60 + s < 3600;
    assert secInt / 3600 == h;
  }

  /** A negative count shows no unit at all. */
  lemma NegativeDurationSplit(secInt: int)
    requires secInt < 0
    ensures Hours(secInt) < 0 && Minutes(secInt) <= 0 && Secs(secInt) <= 0
  {
  }

  // ----- Decimal numerals -----

  predicate IsDigit(c: char) { '0' <= c <= '9' }

  predicate AllDigits(s: string) { forall i :: 0 <= i < |s| ==> IsDigit(s[i]) }

  function DigitChar(d: nat): (c: char)
    requires d < 10
    ensures IsDigit(c) && c as int - '0' as int == d
  {
    ('0' as int + d) as char
  }

  /** `${n}` for a non-negative integer: its decimal numeral, without leading zeros. */
  function Decimal(n: nat): (s: string)
    ensures s != [] && AllDigits(s)
    ensures |s| == 1 || s[0] != '0'
    ensures n > 0 ==> s[0] != '0'
  {
    if n < 10 then [DigitChar(n)]
    else
      var front := Decimal(n / 10);
      assert (front + [DigitChar(n % 10)])[0] == front[0];
      front + [DigitChar(n % 10)]
  }

  /** The number a numeral denotes (a character that is not a digit counts as 0). */
  function DigitsValue(s: string): nat
  {
    if s == [] then 0
    else
      var c := s[|s| - 1];
      DigitsValue(s[..|s| - 1]) * 10 + (if IsDigit(c) then c as int - '0' as int else 0)
  }

  lemma {:induction false} DecimalValue(n: nat)
    ensures DigitsValue(Decimal(n)) == n
  {
    if n >= 10 {
      DecimalValue(n / 10);
      var s := Decimal(n);
      assert s[..|s| - 1] == Decimal(n / 10);
    }
  }

  /** Where the run of digits that starts at position `i` of `s` ends. */
  function DigitRunEnd(s: string, i: nat): (j: nat)
    requires i <= |s|
    ensures i <= j <= |s|
    ensures j == |s| || !IsDigit(s[j])
    ensures forall k :: i <= k < j ==> IsDigit(s[k])
    decreases |s| - i
  {
    if i < |s| && IsDigit(s[i]) then DigitRunEnd(s, i + 1) else i
  }

  /** The digit run of a numeral followed by a non-digit ends with the numeral. */
  lemma {:induction false} DigitRunOf(d: string, t: string, i: nat)
    requires i <= |d| && AllDigits(d) && (t == [] || !IsDigit(t[0]))
    ensures DigitRunEnd(d + t, i) == |d|
    decreases |d| - i
  {
    if i < |d| {
      assert (d + t)[i] == d[i];
      DigitRunOf(d, t, i + 1);
    } else if t != [] {
      assert (d + t)[i] == t[0];
    }
  }

  // ----- formatDuration -----

  /** The text that follows a unit's count. */
  function UnitSuffix(k: nat): string
    requires k < 3
  {
    if k == 0 then " hours " else if k == 1 then " min " else " sec"
  }

  /** `count` units of kind `k`, in seconds (each case a multiplication by a constant). */
  function Scaled(count: int, k: nat): int
    requires k < 3
  {
    if k == 0 then count * 3600 else if k == 1 then count * 60 else count
  }

  /** What `formatDuration` appends for one unit: nothing unless the count is positive. */
  function Segment(count: int, k: nat): string
    requires k < 3
  {
    if count > 0 then Decimal(count) + UnitSuffix(k) else ""
  }

  /** `formatDuration(seconds)`, with `seconds` already through `parseInt`:
      `None` stands for `NaN`, against which every `> 0` test is false. */
  method FormatDuration(seconds: Option<int>) returns (durationString: string)
    ensures seconds.Some? ==>
      durationString == Segment(Hours(seconds.value), 0) + Segment(Minutes(seconds.value), 1) + Segment(Secs(seconds.value), 2)
    ensures seconds.Some? ==>
      durationString == Render(Pieces(Hours(seconds.value), Minutes(seconds.value), Secs(seconds.value)), 0)
    ensures durationString == [] <==> seconds.None? || seconds.value <= 0
    ensures seconds.Some? && seconds.value >= 0 ==> ParseDuration(durationString) == Some(seconds.value)
  {
    durationString := "";
    if seconds.None? {
      return;
    }
    var secInt := seconds.value;

    var hours := FloorDiv(secInt, 3600);
    if hours > 0 {
      durationString := durationString + Decimal(hours) + " hours ";
    }
    assert durationString == Segment(hours, 0);

    var minutes := JsRemainder(FloorDiv(secInt, 60), 60);
    ghost var before := durationString;
    if minutes > 0 {
      durationString := durationString + Decimal(minutes) + " min ";
    }
    assert durationString == before + Segment(minutes, 1);

    var secs := JsRemainder(secInt, 60);
    before := durationString;
    if secs > 0 {
      durationString := durationString + Decimal(secs) + " sec";
    }
    assert durationString == before + Segment(secs, 2);
    assert hours == Hours(secInt) && minutes == Minutes(secInt) && secs == Secs(secInt);
    PiecesRender(hours, minutes, secs);
    RenderedDuration(secInt);
  }

  /** What the rendered pieces of a count of seconds say about that count:
      nothing is shown exactly when it is not positive, and a non-negative
      count is read back exactly. */
  lemma RenderedDuration(secInt: int)
    ensures var text := Render(Pieces(Hours(secInt), Minutes(secInt), Secs(secInt)), 0);
      && (text == [] <==> secInt <= 0)
      && (secInt >= 0 ==> ParseDuration(text) == Some(secInt))
  {
    var h, m, s := Hours(secInt), Minutes(secInt), Secs(secInt);
    PiecesOfCount(secInt);
    RenderEmpty(Pieces(h, m, s), 0);
    if secInt >= 0 {
      DurationSplit(secInt);
      DurationParses(h, m, s);
    }
  }

  /** A count of seconds has a piece to show exactly when it is positive. */
  lemma PiecesOfCount(secInt: int)
    ensures Pieces(Hours(secInt), Minutes(secInt), Secs(secInt)) == [] <==> secInt <= 0
  {
    var h, m, s := Hours(secInt), Minutes(secInt), Secs(secInt);
    PiecesEmpty(h, m, s);
    if secInt >= 0 {
      DurationSplit(secInt);
    } else {
      NegativeDurationSplit(secInt);
    }
  }

  /** There is no piece exactly when no unit's count is positive. */
  lemma PiecesEmpty(h: int, m: int, s: int)
    ensures Pieces(h, m, s) == [] <==> h <= 0 && m <= 0 && s <= 0
  {
    if h > 0 {
      assert Pieces(h, m, s)[0] == Piece(h, 0);
    } else if m > 0 {
      assert Pieces(h, m, s)[0] == Piece(m, 1);
    } else if s > 0 {
      assert Pieces(h, m, s)[0] == Piece(s, 2);
    }
  }

  // ----- reading a duration back -----

  /** The unit whose label starts `rest`, if any. The labels differ in their
      second character, which picks the only candidate. */
  function UnitLabelAt(rest: string): (k: Option<nat>)
    ensures k.Some? ==> k.value < 3 && |UnitSuffix(k.value)| <= |rest|
    ensures k.Some? ==> rest[..|UnitSuffix(k.value)|] == UnitSuffix(k.value)
  {
    if |rest| < 2 then None
    else
      var unit := if rest[1] == 'h' then 0 else if rest[1] == 'm' then 1 else 2;
      var suffix := UnitSuffix(unit);
      if |suffix| <= |rest| && rest[..|suffix|] == suffix then Some(unit) else None
  }

  function Plus(v: Option<int>, n: int): Option<int> {
    match v
    case None => None
    case Some(x) => Some(x + n)
  }

  /** One segment read from the front of a text: its count, its unit and what follows. */
  datatype Reading = Reading(count: nat, unit: nat, rest: string)

  /** Reads a positive count and the label of a unit from `from` on. */
  function ParseSegment(s: string, from: nat): (r: Option<Reading>)
    ensures r.Some? ==> from <= r.value.unit < 3 && 0 < r.value.count && |r.value.rest| < |s|
  {
    var n := DigitRunEnd(s, 0);
    var value := DigitsValue(s[..n]);
    if n == 0 || value == 0 then None
    else
      match UnitLabelAt(s[n..])
      case None => None
      case Some(k) =>
        if k < from then None else Some(Reading(value, k, s[n..][|UnitSuffix(k)|..]))
  }

  /** Reads a duration text: positive counts, each followed by its unit, the
      units at most once each and in the order hours, min, sec (from unit
      `from` on). */
  function ParseDurationFrom(s: string, from: nat): Option<int>
    decreases |s|
  {
    if s == [] then Some(0)
    else
      match ParseSegment(s, from)
      case None => None
      case Some(g) => Plus(ParseDurationFrom(g.rest, g.unit + 1), Scaled(g.count, g.unit))
  }

  function ParseDuration(s: string): Option<int> {
    ParseDurationFrom(s, 0)
  }

  /** A unit's label, followed by anything, is recognised as that unit. */
  lemma UnitLabelOf(k: nat, t: string)
    requires k < 3
    ensures UnitLabelAt(UnitSuffix(k) + t) == Some(k)
  {
    var rest := UnitSuffix(k) + t;
    assert rest[1] == UnitSuffix(k)[1];
    assert rest[..|UnitSuffix(k)|] == UnitSuffix(k);
  }

  /** A rendered segment is read back as its count and unit, leaving what follows it. */
  lemma SegmentReads(n: nat, k: nat, from: nat, t: string)
    requires 0 < n && from <= k < 3
    ensures ParseSegment(Decimal(n) + UnitSuffix(k) + t, from) == Some(Reading(n, k, t))
  {
    var d := Decimal(n);
    var tail := UnitSuffix(k) + t;
    var s := d + tail;
    assert d + UnitSuffix(k) + t == s;
    assert DigitRunEnd(s, 0) == |d| by {
      assert tail[0] == ' ';
      DigitRunOf(d, tail, 0);
    }
    assert s[..|d|] == d;
    DecimalValue(n);
    assert s[|d|..] == tail;
    UnitLabelOf(k, t);
    assert tail[|UnitSuffix(k)|..] == t;
  }

  /** One step of reading a duration: a text whose front reads as a segment
      is worth that segment plus what the rest reads as. */
  lemma ParseStep(text: string, from: nat)
    requires ParseSegment(text, from).Some?
    ensures var g := ParseSegment(text, from).value;
      ParseDurationFrom(text, from) == Plus(ParseDurationFrom(g.rest, g.unit + 1), Scaled(g.count, g.unit))
  {
    assert text != [];
  }

  /** A rendered segment followed by any text is read back as its count
      times its unit, plus what the rest reads as. */
  lemma SegmentParses(n: nat, k: nat, from: nat, t: string)
    requires 0 < n && from <= k < 3
    ensures ParseDurationFrom(Decimal(n) + UnitSuffix(k) + t, from) == Plus(ParseDurationFrom(t, k + 1), Scaled(n, k))
  {
    SegmentReads(n, k, from, t);
    ParseStep(Decimal(n) + UnitSuffix(k) + t, from);
  }

  /** A positive count of one unit, as `formatDuration` renders it. */
  datatype Piece = Piece(count: nat, unit: nat)

  /** Positive counts with units in strictly increasing order, from unit `from` on. */
  predicate Ascending(ps: seq<Piece>, from: nat)
    decreases |ps|
  {
    ps == [] || (0 < ps[0].count && from <= ps[0].unit < 3 && Ascending(ps[1..], ps[0].unit + 1))
  }

  function Render(ps: seq<Piece>, from: nat): string
    requires Ascending(ps, from)
    decreases |ps|
  {
    if ps == [] then "" else Decimal(ps[0].count) + UnitSuffix(ps[0].unit) + Render(ps[1..], ps[0].unit + 1)
  }

  function Total(ps: seq<Piece>, from: nat): int
    requires Ascending(ps, from)
    decreases |ps|
  {
    if ps == [] then 0 else Scaled(ps[0].count, ps[0].unit) + Total(ps[1..], ps[0].unit + 1)
  }

  /** Any rendered list of pieces reads back as its total. */
  lemma {:induction false} RenderParses(ps: seq<Piece>, from: nat)
    requires Ascending(ps, from)
    ensures ParseDurationFrom(Render(ps, from), from) == Some(Total(ps, from))
    decreases |ps|
  {
    if ps != [] {
      var p := ps[0];
      RenderParses(ps[1..], p.unit + 1);
      SegmentParses(p.count, p.unit, from, Render(ps[1..], p.unit + 1));
    }
  }

  /** The pieces `formatDuration` renders for a split: the positive ones, in unit order. */
  function Pieces(h: int, m: int, s: int): (ps: seq<Piece>)
    ensures Ascending(ps, 0)
  {
    if h > 0 then [Piece(h, 0)] + MinutePieces(m, s) else MinutePieces(m, s)
  }

  function MinutePieces(m: int, s: int): (ps: seq<Piece>)
    ensures Ascending(ps, 1)
  {
    if m > 0 then [Piece(m, 1)] + SecondPieces(s) else SecondPieces(s)
  }

  function SecondPieces(s: int): (ps: seq<Piece>)
    ensures Ascending(ps, 2)
  {
    if s > 0 then [Piece(s, 2)] else []
  }

  lemma HeadAndTail(p: Piece, ps: seq<Piece>)
    ensures ([p] + ps)[0] == p && ([p] + ps)[1..] == ps
  {
  }

  /** Only an empty list of pieces renders as the empty text. */
  lemma RenderEmpty(ps: seq<Piece>, from: nat)
    requires Ascending(ps, from)
    ensures Render(ps, from) == [] <==> ps == []
  {
    if ps != [] {
      assert |Render(ps, from)| >= |Decimal(ps[0].count)| > 0;
    }
  }

  /** Units from a later one on are also units from an earlier one on. */
  lemma AscendingFromEarlier(ps: seq<Piece>, from: nat, earlier: nat)
    requires Ascending(ps, from) && earlier <= from
    ensures Ascending(ps, earlier) && Render(ps, earlier) == Render(ps, from) && Total(ps, earlier) == Total(ps, from)
  {
  }

  lemma SecondPiecesRender(s: int)
    ensures Render(SecondPieces(s), 2) == Segment(s, 2)
  {
    if s > 0 {
      HeadAndTail(Piece(s, 2), []);
    }
  }

  lemma MinutePiecesRender(m: int, s: int)
    ensures Render(MinutePieces(m, s), 1) == Segment(m, 1) + Segment(s, 2)
  {
    SecondPiecesRender(s);
    AscendingFromEarlier(SecondPieces(s), 2, 1);
    if m > 0 {
      HeadAndTail(Piece(m, 1), SecondPieces(s));
    }
  }

  /** The pieces of a split render as the three segments `formatDuration` appends. */
  lemma PiecesRender(h: int, m: int, s: int)
    ensures Render(Pieces(h, m, s), 0) == Segment(h, 0) + Segment(m, 1) + Segment(s, 2)
  {
    MinutePiecesRender(m, s);
    AscendingFromEarlier(MinutePieces(m, s), 1, 0);
    if h > 0 {
      HeadAndTail(Piece(h, 0), MinutePieces(m, s));
      ConcatAssociative(Segment(h, 0), Segment(m, 1), Segment(s, 2));
    }
  }

  /** The pieces of a non-negative split total its seconds. */
  lemma PiecesTotal(h: int, m: int, s: int)
    requires 0 <= h && 0 <= m && 0 <= s
    ensures Total(Pieces(h, m, s), 0) == h * 3600 + m * 60 + s
  {
    if s > 0 {
      HeadAndTail(Piece(s, 2), []);
    }
    AscendingFromEarlier(SecondPieces(s), 2, 1);
    if m > 0 {
      HeadAndTail(Piece(m, 1), SecondPieces(s));
    }
    AscendingFromEarlier(MinutePieces(m, s), 1, 0);
    if h > 0 {
      HeadAndTail(Piece(h, 0), MinutePieces(m, s));
    }
  }

  /** The rendered pieces of a split read back as their total. */
  lemma PiecesParse(h: int, m: int, s: int)
    ensures ParseDuration(Render(Pieces(h, m, s), 0)) == Some(Total(Pieces(h, m, s), 0))
  {
    RenderParses(Pieces(h, m, s), 0);
  }

  /** Reading back what `formatDuration` renders for a split gives the total. */
  lemma DurationParses(h: int, m: int, s: int)
    requires 0 <= h && 0 <= m && 0 <= s
    ensures ParseDuration(Render(Pieces(h, m, s), 0)) == Some(h * 3600 + m * 60 + s)
  {
    PiecesParse(h, m, s);
    PiecesTotal(h, m, s);
  }

  // ----- formatDate -----

  /** The parts a date-time formatter yields for a valid date. */
  datatype DateParts = DateParts(
    month: string, day: string, year: string,
    hour: string, minute: string, second: string,
    dayPeriod: Option<string>)

  datatype FieldOrder = MonthDayYear | DayMonthYear | YearMonthDay

  /** The characters the format is split on: `/[\/\-\.]/`. */
  predicate IsFormatSeparator(c: char) { c == '/' || c == '-' || c == '.' }

  /** The separator used in the rendered date. */
  function Separator(dateFormat: string): (sep: char)
    ensures IsFormatSeparator(sep)
    ensures sep == '/' <==> '/' in dateFormat || ('-' !in dateFormat && '.' !in dateFormat)
    ensures sep == '-' <==> '/' !in dateFormat && '-' in dateFormat
    ensures sep == '.' <==> '/' !in dateFormat && '-' !in dateFormat && '.' in dateFormat
  {
    if '/' in dateFormat then '/'
    else if '-' in dateFormat then '-'
    else if '.' in dateFormat then '.'
    else '/'
  }

  /** `dateFormat.split(/[\/\-\.]/)[0]`: the format up to its first separator. */
  function FirstSegment(dateFormat: string): (seg: string)
    ensures seg <= dateFormat
    ensures forall i :: 0 <= i < |seg| ==> !IsFormatSeparator(seg[i])
    ensures |seg| == |dateFormat| || IsFormatSeparator(dateFormat[|seg|])
  {
    if dateFormat == [] || IsFormatSeparator(dateFormat[0]) then []
    else [dateFormat[0]] + FirstSegment(dateFormat[1..])
  }

  /** `s.includes(t)`. */
  predicate Contains(s: string, t: string) {
    t <= s || (s != [] && Contains(s[1..], t))
  }

  /** The field order, chosen by the first segment of the format; formats
      that name none of the fields fall back to month-day-year. */
  function OrderOf(dateFormat: string): (order: FieldOrder)
    ensures var seg := FirstSegment(dateFormat);
      && (order == DayMonthYear <==> !Contains(seg, "mm") && Contains(seg, "dd"))
      && (order == YearMonthDay <==> !Contains(seg, "mm") && !Contains(seg, "dd") && Contains(seg, "yyyy"))
      && (Contains(seg, "mm") ==> order == MonthDayYear)
  {
    var seg := FirstSegment(dateFormat);
    if Contains(seg, "mm") then MonthDayYear
    else if Contains(seg, "dd") then DayMonthYear
    else if Contains(seg, "yyyy") then YearMonthDay
    else MonthDayYear
  }

  /** The three date fields in the order a format asks for. */
  function OrderedFields(order: FieldOrder, month: string, day: string, year: string): seq<string> {
    match order
    case MonthDayYear => [month, day, year]
    case DayMonthYear => [day, month, year]
    case YearMonthDay => [year, month, day]
  }

  function DatePart(order: FieldOrder, sep: char, month: string, day: string, year: string): string {
    match order
    case MonthDayYear => month + [sep] + day + [sep] + year
    case DayMonthYear => day + [sep] + month + [sep] + year
    case YearMonthDay => year + [sep] + month + [sep] + day
  }

  /** ` AM`/` PM` on a 12-hour clock when the formatter yields a period. */
  function Period(parts: DateParts, use24HourClock: bool): string {
    if !use24HourClock && parts.dayPeriod.Some? then " " + parts.dayPeriod.value else ""
  }

  function TimePart(parts: DateParts, use24HourClock: bool): string {
    parts.hour + ":" + parts.minute + ":" + parts.second + Period(parts, use24HourClock)
  }

  /** `formatDate(date, dateFormat, use24HourClock)`. `date` is `None` when
      null or undefined; `isValidDate` is whether `new Date(date)` is valid. */
  function FormatDate(date: Option<string>, isValidDate: bool, dateFormat: string, parts: DateParts, use24HourClock: bool): (r: string)
    ensures date.None? || date.value == [] ==> r == []
    ensures date.Some? && date.value != [] && !isValidDate ==> r == date.value
    ensures date.Some? && date.value != [] && isValidDate ==> |r| > 0
  {
    if date.None? || date.value == [] then ""
    else if !isValidDate then date.value
    else
      var sep := Separator(dateFormat);
      DatePart(OrderOf(dateFormat), sep, parts.month, parts.day, parts.year) + " " + TimePart(parts, use24HourClock)
  }

  // ----- reading a rendered date back -----

  /** `s.split(c)` for a one-character separator. */
  function Split(s: string, c: char): (pieces: seq<string>)
    ensures |pieces| >= 1
    decreases |s|
  {
    if s == [] then [[]]
    else if s[0] == c then [[]] + Split(s[1..], c)
    else
      var rest := Split(s[1..], c);
      [[s[0]] + rest[0]] + rest[1..]
  }

  lemma {:induction false} SplitWithout(a: string, c: char)
    requires c !in a
    ensures Split(a, c) == [a]
    decreases |a|
  {
    if a != [] {
      SplitWithout(a[1..], c);
      assert [a[0]] + a[1..] == a;
    }
  }

  lemma {:induction false} SplitAt(a: string, b: string, c: char)
    requires c !in a
    ensures Split(a + [c] + b, c) == [a] + Split(b, c)
    decreases |a|
  {
    var s := a + [c] + b;
    if a == [] {
      assert s[1..] == b;
    } else {
      assert s[1..] == a[1..] + [c] + b;
      SplitAt(a[1..], b, c);
      assert [a[0]] + a[1..] == a;
    }
  }

  lemma SplitThree(x: string, y: string, z: string, c: char)
    requires c !in x && c !in y && c !in z
    ensures Split(x + [c] + y + [c] + z, c) == [x, y, z]
  {
    assert x + [c] + y + [c] + z == x + [c] + (y + [c] + z);
    SplitAt(x, y + [c] + z, c);
    SplitAt(y, z, c);
    SplitWithout(z, c);
  }

  /** The rendered date decomposes back into its parts: split on spaces it
      is the date, the time and (on a 12-hour clock) the period; the date
      splits on the separator into the fields in the format's order, and the
      time splits on colons into hour, minute and second. This holds when no
      part contains the character it is split on. */
  lemma FormatDateLayout(date: string, dateFormat: string, parts: DateParts, use24HourClock: bool)
    requires date != []
    requires var sep := Separator(dateFormat);
      && sep !in parts.month && sep !in parts.day && sep !in parts.year
      && ' ' !in parts.month && ' ' !in parts.day && ' ' !in parts.year
      && ' ' !in parts.hour && ' ' !in parts.minute && ' ' !in parts.second
      && ':' !in parts.hour && ':' !in parts.minute && ':' !in parts.second
      && (parts.dayPeriod.Some? ==> ' ' !in parts.dayPeriod.value)
    ensures var words := Split(FormatDate(Some(date), true, dateFormat, parts, use24HourClock), ' ');
      && |words| == (if Period(parts, use24HourClock) == [] then 2 else 3)
      && Split(words[0], Separator(dateFormat)) == OrderedFields(OrderOf(dateFormat), parts.month, parts.day, parts.year)
      && Split(words[1], ':') == [parts.hour, parts.minute, parts.second]
      && (|words| == 3 ==> words[2] == parts.dayPeriod.value)
  {
    var sep := Separator(dateFormat);
    var order := OrderOf(dateFormat);
    var d := DatePart(order, sep, parts.month, parts.day, parts.year);
    var clock := parts.hour + [':'] + parts.minute + [':'] + parts.second;
    var p := Period(parts, use24HourClock);
    var r := FormatDate(Some(date), true, dateFormat, parts, use24HourClock);
    assert r == d + [' '] + (clock + p);
    assert ' ' !in d;
    SplitAt(d, clock + p, ' ');
    assert ' ' !in clock;
    if p == [] {
      assert clock + p == clock;
      SplitWithout(clock, ' ');
    } else {
      assert clock + p == clock + [' '] + parts.dayPeriod.value;
      SplitAt(clock, parts.dayPeriod.value, ' ');
      SplitWithout(parts.dayPeriod.value, ' ');
    }
    SplitThree(parts.hour, parts.minute, parts.second, ':');
    match order
    case MonthDayYear => SplitThree(parts.month, parts.day, parts.year, sep);
    case DayMonthYear => SplitThree(parts.day, parts.month, parts.year, sep);
    case YearMonthDay => SplitThree(parts.year, parts.month, parts.day, sep);
  }
}
