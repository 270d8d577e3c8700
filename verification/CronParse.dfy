/** Reading the five fields of a cron expression (`parse_cron` and its helpers in cron.py). */
module CronParse {
  import opened Common
  import opened Splitting
  import opened Decimal
  import opened Cron

  /** The position of the first `c`, as `raw.split(c, 1)` finds it. */
  function Find(raw: string, c: char): (i: nat)
    ensures i <= |raw|
    ensures c !in raw[..i] && (i < |raw| ==> raw[i] == c)
  {
    if raw == "" || raw[0] == c then 0 else Find(raw[1..], c) + 1
  }

  /** Digits, with single underscores between them; `value` is what was read so far. */
  function Digits(raw: string, value: int): Option<int>
  {
    if raw == "" || !IsDigit(raw[0]) then None
    else
      var next := value * 10 + DigitValue(raw[0]);
      if |raw| == 1 then Some(next)
      else if raw[1] == '_' then Digits(raw[2..], next)
      else Digits(raw[1..], next)
  }

  /** `int(raw)` on ASCII text without blanks. */
  function ToInt(raw: string): Option<int>
  {
    if raw != "" && raw[0] == '+' then Digits(raw[1..], 0)
    else if raw != "" && raw[0] == '-' then
      var n := Digits(raw[1..], 0);
      if n.Some? then Some(-n.value) else None
    else Digits(raw, 0)
  }

  /** `_parse_int` */
  function ParseInt(raw: string, minimum: int, maximum: int): (r: Option<int>)
    ensures r.Some? ==> minimum <= r.value <= maximum
  {
    var n := ToInt(raw);
    if n.Some? && minimum <= n.value <= maximum then n else None
  }

  /** `_split_step` */
  function SplitStep(item: string): (r: Option<(string, int)>)
    ensures r.Some? ==> r.value.1 >= 1
  {
    if '/' !in item then Some((item, 1))
    else
      var i := Find(item, '/');
      var step := ParseInt(item[i + 1..], 1, 10_000);
      if step.None? then None else Some((if item[..i] == "" then "*" else item[..i], step.value))
  }

  predicate OnStep(v: int, start: int, step: int)
    requires step >= 1
  {
    (v - start) % step == 0
  }

  /** `set(range(start, end + 1, step))` */
  function Range(start: int, end: int, step: int): set<int>
    requires step >= 1
  {
    set v | start <= v <= end && OnStep(v, start, step)
  }

  /** `_parse_segment` */
  function ParseSegment(item: string, minimum: int, maximum: int, sundayAlias: bool): (r: Option<set<int>>)
    requires minimum <= maximum && (sundayAlias ==> minimum <= 0)
    ensures r.Some? ==> r.value != {} && forall v <- r.value :: minimum <= v <= maximum
  {
    var split := SplitStep(item);
    if split.None? then None
    else
      var (base, step) := split.value;
      if base == "*" then
        assert minimum in Range(minimum, maximum, step);
        Some(Range(minimum, maximum, step))
      else if '-' in base then
        var i := Find(base, '-');
        var start := ParseInt(base[..i], minimum, maximum);
        var end := ParseInt(base[i + 1..], minimum, maximum);
        if start.None? || end.None? || end.value < start.value then None
        else
          assert start.value in Range(start.value, end.value, step);
          Some(Range(start.value, end.value, step))
      else
        var value := ParseInt(base, minimum, maximum);
        if value.None? then None else Some({if sundayAlias && value.value == 7 then 0 else value.value})
  }

  /** The union of all segments, or nothing when one of them is malformed. */
  function Segments(items: seq<string>, minimum: int, maximum: int, sundayAlias: bool): (r: Option<set<int>>)
    requires minimum <= maximum && (sundayAlias ==> minimum <= 0)
    ensures r.Some? ==> forall v <- r.value :: minimum <= v <= maximum
    ensures r.Some? && items != [] ==> r.value != {}
  {
    if items == [] then Some({})
    else
      var first := if items[0] == "" then None else ParseSegment(items[0], minimum, maximum, sundayAlias);
      var later := Segments(items[1..], minimum, maximum, sundayAlias);
      if first.None? || later.None? then None else Some(first.value + later.value)
  }

  /** Sunday written as 7 is 0. */
  function FoldSunday(values: set<int>): set<int>
  {
    set v | v in values :: if v == 7 then 0 else v
  }

  function FieldValues(raw: string, minimum: int, maximum: int, sundayAlias: bool): Option<set<int>>
    requires minimum <= maximum && (sundayAlias ==> minimum <= 0)
  {
    var values := Segments(SplitOn(raw, ','), minimum, maximum, sundayAlias);
    if values.Some? && sundayAlias then Some(FoldSunday(values.value)) else values
  }

  /** `_parse_field`: segment by segment; `None` stands for the `ValueError`. */
  method ParseField(raw: string, minimum: int, maximum: int, sundayAlias: bool) returns (r: Option<set<int>>)
    requires minimum <= maximum && (sundayAlias ==> minimum <= 0)
    ensures r == FieldValues(raw, minimum, maximum, sundayAlias)
  {
    hide ParseSegment;
    var values: set<int> := {};
    var items := SplitOn(raw, ',');
    ghost var all := Segments(items, minimum, maximum, sundayAlias);
    assert items[0..] == items && (all.Some? ==> {} + all.value == all.value);
    for i := 0 to |items|
      invariant var later := Segments(items[i..], minimum, maximum, sundayAlias);
                all == if later.None? then None else Some(values + later.value)
    {
      var item := items[i];
      assert items[i..][1..] == items[i + 1..];
      if item == "" {
        return None;
      }
      var segment := ParseSegment(item, minimum, maximum, sundayAlias);
      if segment.None? {
        return None;
      }
      ghost var later := Segments(items[i + 1..], minimum, maximum, sundayAlias);
      assert later.Some? ==> values + (segment.value + later.value) == values + segment.value + later.value;
      values := values + segment.value;
    }
    r := Some(if sundayAlias then FoldSunday(values) else values);
  }

  /** `parse_cron`, on the expression already split at blanks. */
  function ParseCron(parts: seq<string>): (r: Option<CronSpec>)
    ensures r.Some? ==> InRange(r.value)
  {
    if |parts| != 5 then None
    else
      var minutes := FieldValues(parts[0], 0, 59, false);
      var hours := FieldValues(parts[1], 0, 23, false);
      var days := FieldValues(parts[2], 1, 31, false);
      var months := FieldValues(parts[3], 1, 12, false);
      var weekdays := FieldValues(parts[4], 0, 7, true);
      if minutes.None? || hours.None? || days.None? || months.None? || weekdays.None? then None
      else
        assert weekdays.value != {} && forall v <- weekdays.value :: 0 <= v <= 6 by {
          WeekdaysInRange(parts[4]);
        }
        Some(CronSpec(minutes.value, hours.value, days.value, months.value, weekdays.value))
  }

  lemma WeekdaysInRange(raw: string)
    requires FieldValues(raw, 0, 7, true).Some?
    ensures var w := FieldValues(raw, 0, 7, true).value; w != {} && forall v <- w :: 0 <= v <= 6
  {
    var values := Segments(SplitOn(raw, ','), 0, 7, true).value;
    assert exists v :: v in values by {
      assert (forall v :: v !in values) ==> values == {};
    }
    var v :| v in values;
    assert (if v == 7 then 0 else v) in FoldSunday(values);
  }

  // ---------------------------------------------------------------- writing a set and reading it back

  lemma {:induction false} DigitsSnoc(front: string, c: char, value: int)
    requires front != "" && (forall d <- front :: IsDigit(d)) && IsDigit(c)
    ensures Digits(front, value).Some?
    ensures Digits(front + [c], value) == Some(Digits(front, value).value * 10 + DigitValue(c))
    decreases |front|
  {
    var next := value * 10 + DigitValue(front[0]);
    assert (front + [c])[1..] == front[1..] + [c];
    if |front| == 1 {
      assert front[1..] == "" && front[1..] + [c] == [c];
    } else {
      DigitsSnoc(front[1..], c, next);
    }
  }

  lemma {:induction false} RenderReadsBack(n: nat)
    ensures Digits(Render(n), 0) == Some(n)
  {
    if n >= 10 {
      RenderReadsBack(n / 10);
      DigitsSnoc(Render(n / 10), DigitChar(n % 10), 0);
    }
  }

  /** A segment as it is meant: all values, one value, or a span, the first and last with an optional step. */
  datatype Item = Star(step: Option<nat>) | Single(n: nat, step: Option<nat>) | Span(a: nat, b: nat, step: Option<nat>)

  predicate ItemOk(item: Item, minimum: int, maximum: int)
  {
    && (item.step.Some? ==> 1 <= item.step.value <= 10_000)
    && (item.Single? ==> minimum <= item.n <= maximum)
    && (item.Span? ==> minimum <= item.a <= item.b <= maximum)
  }

  function RenderBase(item: Item): string
  {
    match item
    case Star(_) => "*"
    case Single(n, _) => Render(n)
    case Span(a, b, _) => Render(a) + "-" + Render(b)
  }

  function RenderItem(item: Item): string
  {
    RenderBase(item) + if item.step.Some? then "/" + Render(item.step.value) else ""
  }

  function RenderItems(items: seq<Item>): string
    requires items != []
  {
    if |items| == 1 then RenderItem(items[0]) else RenderItem(items[0]) + "," + RenderItems(items[1..])
  }

  /** The values an item stands for; a step on a single value has no effect. */
  predicate Denotes(item: Item, minimum: int, maximum: int, v: int)
    requires ItemOk(item, minimum, maximum)
  {
    var step := if item.step.Some? then item.step.value else 1;
    match item
    case Star(_) => minimum <= v <= maximum && (v - minimum) % step == 0
    case Single(n, _) => v == n
    case Span(a, b, _) => a <= v <= b && (v - a) % step == 0
  }

  predicate SomeDenotes(items: seq<Item>, minimum: int, maximum: int, v: int)
    requires forall item <- items :: ItemOk(item, minimum, maximum)
  {
    exists item <- items :: Denotes(item, minimum, maximum, v)
  }

  function Denoted(items: seq<Item>, minimum: int, maximum: int): set<int>
    requires forall item <- items :: ItemOk(item, minimum, maximum)
  {
    set v | minimum <= v <= maximum && SomeDenotes(items, minimum, maximum, v)
  }

  /** Splitting once, at the first occurrence. */
  lemma FindAt(front: string, back: string, c: char)
    requires c !in front
    ensures var whole := front + [c] + back;
            c in whole && Find(whole, c) == |front| && whole[..|front|] == front && whole[|front| + 1..] == back
  {
    var whole := front + [c] + back;
    assert whole[|front|] == c;
    var i := Find(whole, c);
    assert forall k :: 0 <= k < |front| ==> whole[k] == front[k];
    assert forall k :: 0 <= k < i ==> whole[k] == whole[..i][k] != c;
  }

  lemma NumberReadsBack(n: nat, minimum: int, maximum: int)
    requires minimum <= n <= maximum
    ensures ParseInt(Render(n), minimum, maximum) == Some(n)
    ensures Render(n) != "*" && '/' !in Render(n) && '-' !in Render(n) && ',' !in Render(n)
  {
    RenderReadsBack(n);
    assert IsDigit(Render(n)[0]);
  }

  lemma StepReadsBack(item: Item, minimum: int, maximum: int)
    requires 0 <= minimum <= maximum && ItemOk(item, minimum, maximum)
    ensures SplitStep(RenderItem(item)) == Some((RenderBase(item), if item.step.Some? then item.step.value else 1))
    ensures ',' !in RenderItem(item) && RenderItem(item) != ""
  {
    var base := RenderBase(item);
    BasePlain(item, minimum, maximum);
    if item.step.Some? {
      NumberReadsBack(item.step.value, 1, 10_000);
      FindAt(base, Render(item.step.value), '/');
      assert RenderItem(item) == base + ['/'] + Render(item.step.value);
    } else {
      assert RenderItem(item) == base;
    }
  }

  lemma BasePlain(item: Item, minimum: int, maximum: int)
    requires 0 <= minimum <= maximum && ItemOk(item, minimum, maximum)
    ensures var base := RenderBase(item); base != "" && '/' !in base && ',' !in base
  {
    match item
    case Star(_) =>
    case Single(n, _) => NumberReadsBack(n, minimum, maximum);
    case Span(a, b, _) =>
      NumberReadsBack(a, minimum, maximum);
      NumberReadsBack(b, minimum, maximum);
  }

  /** Up to Sunday written as 7. */
  ghost predicate SameDays(read: set<int>, meant: set<int>, sundayAlias: bool)
  {
    if sundayAlias then FoldSunday(read) == FoldSunday(meant) else read == meant
  }

  lemma StarSegment(raw: string, step: int, minimum: int, maximum: int, sundayAlias: bool)
    requires minimum <= maximum && (sundayAlias ==> minimum <= 0) && step >= 1 && SplitStep(raw) == Some(("*", step))
    ensures ParseSegment(raw, minimum, maximum, sundayAlias) == Some(Range(minimum, maximum, step))
  {}

  lemma SingleSegment(raw: string, n: nat, step: int, minimum: int, maximum: int, sundayAlias: bool)
    requires minimum <= n <= maximum && (sundayAlias ==> minimum <= 0) && SplitStep(raw) == Some((Render(n), step))
    ensures ParseSegment(raw, minimum, maximum, sundayAlias) == Some({if sundayAlias && n == 7 then 0 else n as int})
  {
    NumberReadsBack(n, minimum, maximum);
    hide SplitStep, ParseInt, Render;
  }

  lemma SpanSegment(raw: string, a: nat, b: nat, step: int, minimum: int, maximum: int, sundayAlias: bool)
    requires minimum <= a <= b <= maximum && (sundayAlias ==> minimum <= 0)
    requires step >= 1 && SplitStep(raw) == Some((Render(a) + "-" + Render(b), step))
    ensures ParseSegment(raw, minimum, maximum, sundayAlias) == Some(Range(a, b, step))
  {
    NumberReadsBack(a, minimum, maximum);
    NumberReadsBack(b, minimum, maximum);
    FindAt(Render(a), Render(b), '-');
    hide SplitStep, ParseInt, Render, Find;
    var base := Render(a) + "-" + Render(b);
    assert base == Render(a) + ['-'] + Render(b);
    assert |base| > 1 && base != "*";
  }

  lemma DenotedAlone(item: Item, minimum: int, maximum: int)
    requires ItemOk(item, minimum, maximum)
    ensures forall v ::
            v in Denoted([item], minimum, maximum) <==> minimum <= v <= maximum && Denotes(item, minimum, maximum, v)
  {
    hide Denotes;
    assert [item][0] == item;
  }

  lemma BaseOf(item: Item)
    ensures item.Star? ==> RenderBase(item) == "*"
    ensures item.Single? ==> RenderBase(item) == Render(item.n)
    ensures item.Span? ==> RenderBase(item) == Render(item.a) + "-" + Render(item.b)
  {}

  lemma StarMeans(item: Item, minimum: int, maximum: int)
    requires item.Star? && ItemOk(item, minimum, maximum)
    ensures Range(minimum, maximum, if item.step.Some? then item.step.value else 1) == Denoted([item], minimum, maximum)
  {
    DenotedAlone(item, minimum, maximum);
    hide Denoted;
  }

  lemma SpanMeans(item: Item, minimum: int, maximum: int)
    requires item.Span? && ItemOk(item, minimum, maximum)
    ensures Range(item.a, item.b, if item.step.Some? then item.step.value else 1) == Denoted([item], minimum, maximum)
  {
    DenotedAlone(item, minimum, maximum);
    hide Denoted;
  }

  lemma SingleMeans(item: Item, minimum: int, maximum: int, sundayAlias: bool)
    requires item.Single? && ItemOk(item, minimum, maximum)
    ensures SameDays({if sundayAlias && item.n == 7 then 0 else item.n as int}, Denoted([item], minimum, maximum),
                     sundayAlias)
  {
    DenotedAlone(item, minimum, maximum);
    hide Denoted;
    assert Denoted([item], minimum, maximum) == {item.n as int};
    if sundayAlias && item.n == 7 {
      assert FoldSunday({0}) == {0} == FoldSunday({7});
    }
  }

  lemma EqualSameDays(values: set<int>, sundayAlias: bool)
    ensures SameDays(values, values, sundayAlias)
  {}

  /** A written segment reads back as the values it stands for. */
  lemma SegmentReadsBack(item: Item, minimum: int, maximum: int, sundayAlias: bool)
    requires 0 <= minimum <= maximum && (sundayAlias ==> minimum == 0 && maximum == 7) && ItemOk(item, minimum, maximum)
    ensures var read := ParseSegment(RenderItem(item), minimum, maximum, sundayAlias);
            read.Some? && SameDays(read.value, Denoted([item], minimum, maximum), sundayAlias)
  {
    StepReadsBack(item, minimum, maximum);
    hide *;
    var raw := RenderItem(item);
    var step := if item.step.Some? then item.step.value else 1;
    match item
    case Star(_) =>
      BaseOf(item);
      StarSegment(raw, step, minimum, maximum, sundayAlias);
      StarMeans(item, minimum, maximum);
      EqualSameDays(Range(minimum, maximum, step), sundayAlias);
    case Single(n, _) =>
      BaseOf(item);
      SingleSegment(raw, n, step, minimum, maximum, sundayAlias);
      SingleMeans(item, minimum, maximum, sundayAlias);
    case Span(a, b, _) =>
      BaseOf(item);
      SpanSegment(raw, a, b, step, minimum, maximum, sundayAlias);
      SpanMeans(item, minimum, maximum);
      EqualSameDays(Range(a, b, step), sundayAlias);
  }

  lemma SameDaysUnion(a: set<int>, b: set<int>, c: set<int>, d: set<int>, sundayAlias: bool)
    requires SameDays(a, c, sundayAlias) && SameDays(b, d, sundayAlias)
    ensures SameDays(a + b, c + d, sundayAlias)
  {
    if sundayAlias {
      assert FoldSunday(a + b) == FoldSunday(a) + FoldSunday(b);
      assert FoldSunday(c + d) == FoldSunday(c) + FoldSunday(d);
    }
  }

  lemma {:induction false} ItemsReadBack(items: seq<Item>, minimum: int, maximum: int, sundayAlias: bool)
    requires 0 <= minimum <= maximum && (sundayAlias ==> minimum == 0 && maximum == 7) && items != []
    requires forall item <- items :: ItemOk(item, minimum, maximum)
    ensures var read := Segments(SplitOn(RenderItems(items), ','), minimum, maximum, sundayAlias);
            read.Some? && SameDays(read.value, Denoted(items, minimum, maximum), sundayAlias)
    decreases |items|
  {
    hide ParseSegment, RenderItem, FoldSunday, SameDays;
    var first := RenderItem(items[0]);
    StepReadsBack(items[0], minimum, maximum);
    SegmentReadsBack(items[0], minimum, maximum, sundayAlias);
    var one := ParseSegment(first, minimum, maximum, sundayAlias).value;
    if |items| == 1 {
      SplitPlain(first, ',');
      assert [first][1..] == [] && items == [items[0]] && one + {} == one;
    } else {
      var later := RenderItems(items[1..]);
      assert RenderItems(items) == first + [','] + later;
      SplitPlain(first, ',');
      SplitAppend(first, later, ',');
      assert ([first] + SplitOn(later, ','))[1..] == SplitOn(later, ',');
      ItemsReadBack(items[1..], minimum, maximum, sundayAlias);
      var rest := Segments(SplitOn(later, ','), minimum, maximum, sundayAlias).value;
      SameDaysUnion(one, rest, Denoted([items[0]], minimum, maximum), Denoted(items[1..], minimum, maximum),
                    sundayAlias);
      DenotedCons(items, minimum, maximum);
    }
  }

  lemma DenotedCons(items: seq<Item>, minimum: int, maximum: int)
    requires items != [] && forall item <- items :: ItemOk(item, minimum, maximum)
    ensures Denoted(items, minimum, maximum) == Denoted([items[0]], minimum, maximum)
            + Denoted(items[1..], minimum, maximum)
  {
    hide Denotes;
    assert items == [items[0]] + items[1..];
    assert forall item :: item in items <==> item in [items[0]] || item in items[1..];
  }

  /** A field written as a comma-separated list of segments denotes exactly the values its segments stand for. */
  lemma FieldReadsBack(items: seq<Item>, minimum: int, maximum: int, sundayAlias: bool)
    requires 0 <= minimum <= maximum && (sundayAlias ==> minimum == 0 && maximum == 7) && items != []
    requires forall item <- items :: ItemOk(item, minimum, maximum)
    ensures FieldValues(RenderItems(items), minimum, maximum, sundayAlias) ==
            Some(if sundayAlias then FoldSunday(Denoted(items, minimum, maximum)) else Denoted(items, minimum, maximum))
  {
    ItemsReadBack(items, minimum, maximum, sundayAlias);
  }

  /** A whole expression of five written fields: minute, hour, day of the month, month, day of the week. */
  lemma CronReadsBack(minutes: seq<Item>, hours: seq<Item>, days: seq<Item>, months: seq<Item>, weekdays: seq<Item>)
    requires minutes != [] && hours != [] && days != [] && months != [] && weekdays != []
    requires (forall i <- minutes :: ItemOk(i, 0, 59)) && (forall i <- hours :: ItemOk(i, 0, 23))
    requires (forall i <- days :: ItemOk(i, 1, 31)) && (forall i <- months :: ItemOk(i, 1, 12))
    requires forall i <- weekdays :: ItemOk(i, 0, 7)
    ensures ParseCron([RenderItems(minutes), RenderItems(hours), RenderItems(days), RenderItems(months),
                       RenderItems(weekdays)])
         == Some(CronSpec(Denoted(minutes, 0, 59), Denoted(hours, 0, 23), Denoted(days, 1, 31), Denoted(months, 1, 12),
                          FoldSunday(Denoted(weekdays, 0, 7))))
  {
    hide FieldValues, Denoted, RenderItems, ItemOk, FoldSunday;
    FieldReadsBack(minutes, 0, 59, false);
    FieldReadsBack(hours, 0, 23, false);
    FieldReadsBack(days, 1, 31, false);
    FieldReadsBack(months, 1, 12, false);
    FieldReadsBack(weekdays, 0, 7, true);
  }
}
