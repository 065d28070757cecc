/**
 * The relative-time engine of `time_ago.ts`: a table of 21 minute bands,
 * searched with `BinarySearch`, gives a unit, a tense and a value for a
 * minute delta; the span picks an English template key, which the
 * translation table renders with the value in place of `%s`.
 */
module TimeAgo {
  import opened Wrappers
  import opened Numbers
  import opened Strings
  import opened BinarySearch
  import I18n

  datatype Unit = Years | Months | Days | Hours | Minutes {

    /** The enum's string value, used as the noun of the phrase. */
    function Name(): (s: string)
      ensures 3 <= |s| && s[|s| - 1] != 's'
    {
      match this
      case Years => "year"
      case Months => "month"
      case Days => "day"
      case Hours => "hour"
      case Minutes => "minute"
    }
  }

  /** Two variants only: the source's throw for any other tense cannot arise. */
  datatype Tense = Past | Future

  datatype TimeSpan = TimeSpan(unit: Unit, tense: Tense, value: int) {

    /** The unit name, with the plural "s" exactly when the value exceeds one. */
    function Noun(): (s: string)
      ensures s == unit.Name() || s == unit.Name() + "s"
      ensures s[|s| - 1] == 's' <==> value > 1
    {
      if value > 1 then unit.Name() + "s" else unit.Name()
    }

    /** The two spans that get a fixed phrase instead of a number. */
    predicate IsZeroMinute() {
      unit == Minutes && value == 0
    }

    /**
     * The English template key. The zero-minute spans get phrases without a
     * placeholder; every other span gets a template whose first `%s` stands
     * at the front (past) or after "in " (future).
     */
    function Template(): (s: string)
      ensures IsZeroMinute() && tense == Future ==> s == "in a minute"
      ensures IsZeroMinute() && tense == Past ==> s == "less than a minute ago"
      ensures IsZeroMinute() ==> Absent(s, "%s")
      ensures !IsZeroMinute() && tense == Past ==>
        FirstOccurrence(s, "%s", 0) && s[2..] == " " + Noun() + " ago"
      ensures !IsZeroMinute() && tense == Future ==>
        FirstOccurrence(s, "%s", 3) && s[..3] == "in " && s[5..] == " " + Noun()
    {
      if IsZeroMinute() && tense == Future then
        AbsentWithoutFirstChar("in a minute", "%s");
        "in a minute"
      else if IsZeroMinute() && tense == Past then
        AbsentWithoutFirstChar("less than a minute ago", "%s");
        "less than a minute ago"
      else if tense == Past then
        PastTemplateShape(Noun());
        "%s " + Noun() + " ago"
      else
        assert tense.Future? && !IsZeroMinute();
        FutureTemplateShape(Noun());
        "in %s " + Noun()
    }
  }

  lemma PastTemplateShape(noun: string)
    ensures FirstOccurrence("%s " + noun + " ago", "%s", 0)
    ensures ("%s " + noun + " ago")[2..] == " " + noun + " ago"
  {
    var s := "%s " + noun + " ago";
    assert s[0..2] == "%s";
  }

  lemma FutureTemplateShape(noun: string)
    ensures FirstOccurrence("in %s " + noun, "%s", 3)
    ensures ("in %s " + noun)[..3] == "in "
    ensures ("in %s " + noun)[5..] == " " + noun
  {
    var s := "in %s " + noun;
    assert s[3..5] == "%s";
    assert s[0] == 'i' && s[1] == 'n' && s[2] == ' ';
  }

  /** The fixed-length approximations the value rules divide by. */
  const MinutesPerYear: int := 525960
  const MinutesPerMonth: int := 43200
  const MinutesPerDay: int := 1440
  const MinutesPerHour: int := 60

  /** A band's value rule. */
  datatype Resolver =
    | Constant(c: nat)
      /** `parseInt(Math.abs(m / per).toFixed(), 10)` */
    | MagnitudeOver(per: int)
      /** `parseInt((m / per).toFixed(), 10)` */
    | QuotientOver(per: int)

  function Resolve(rule: Resolver, m: real): (n: int)
    requires !rule.Constant? ==> rule.per > 0
    ensures rule.Constant? ==> n == rule.c
    ensures rule.MagnitudeOver? ==> 0 <= n && n as real - 0.5 <= Abs(m / rule.per as real) < n as real + 0.5
    ensures rule.QuotientOver? && 0.0 <= m ==> 0 <= n && n as real - 0.5 <= m / rule.per as real < n as real + 0.5
  {
    match rule
    case Constant(c) => c
    case MagnitudeOver(per) => RoundHalfUp(Abs(m / per as real))
    case QuotientOver(per) => ToFixedZero(m / per as real)
  }

  /** One row of `minuteRanges`: the band starts at `key` and ends at the next row's key. */
  datatype Band = Band(key: Key, unit: Unit, tense: Tense, rule: Resolver)

  /** `minuteRanges` without its sentinel row. */
  const Bands: seq<Band> := [
    Band(NegInfinity,        Years,   Future, MagnitudeOver(MinutesPerYear)),
    Band(Finite(-529600.0),  Years,   Future, Constant(1)),
    Band(Finite(-486400.0),  Months,  Future, MagnitudeOver(MinutesPerMonth)),
    Band(Finite(-43200.0),   Months,  Future, Constant(1)),
    Band(Finite(-41760.0),   Days,    Future, MagnitudeOver(MinutesPerDay)),
    Band(Finite(-1440.0),    Days,    Future, Constant(1)),
    Band(Finite(-1380.0),    Hours,   Future, MagnitudeOver(MinutesPerHour)),
    Band(Finite(-45.0),      Hours,   Future, Constant(1)),
    Band(Finite(-44.0),      Minutes, Future, MagnitudeOver(1)),
    Band(Finite(-1.0),       Minutes, Future, Constant(0)),
    Band(Finite(0.0),        Minutes, Past,   Constant(0)),
    Band(Finite(1.0),        Minutes, Past,   Constant(1)),
    Band(Finite(2.0),        Minutes, Past,   QuotientOver(1)),
    Band(Finite(45.0),       Hours,   Past,   Constant(1)),
    Band(Finite(90.0),       Hours,   Past,   QuotientOver(MinutesPerHour)),
    Band(Finite(1440.0),     Days,    Past,   Constant(1)),
    Band(Finite(2880.0),     Days,    Past,   QuotientOver(MinutesPerDay)),
    Band(Finite(43200.0),    Months,  Past,   Constant(1)),
    Band(Finite(86400.0),    Months,  Past,   QuotientOver(MinutesPerMonth)),
    Band(Finite(529600.0),   Years,   Past,   Constant(1)),
    Band(Finite(1051200.0),  Years,   Past,   QuotientOver(MinutesPerYear))
  ]

  /**
   * The table's layout: ten future rows, then eleven past rows starting at
   * key 0; the five rows in minutes sit around zero, from key -44 to key 2.
   */
  lemma BandsLayout()
    ensures |Bands| == 21
    ensures forall i :: 0 <= i < |Bands| ==> (Bands[i].tense == Future <==> i < 10)
    ensures forall i :: 0 <= i < |Bands| ==> (Bands[i].unit == Minutes <==> 8 <= i <= 12)
    ensures Bands[0].key == NegInfinity && Bands[10].key == Finite(0.0)
    ensures Bands[8].key == Finite(-44.0) && Bands[12].key == Finite(2.0)
  {
  }

  /** `Number.MAX_VALUE`, exactly: 2^1024 - 2^971. */
  const MaxValue: real := 179769313486231570814527423731704356798070567525844996598917476803157260780028538760589558632766878171540458953514382464234321326889464182768467546703537516986049910576551282076245490090389328944075868508455133942304583236903222948165808559332123348274797826204144723168738177180919299881250404026184124858368.0

  /** The keys the search runs over: every band's key, then the `MAX_VALUE` sentinel. */
  const MinuteKeys: seq<Key> := KeysOf(Bands) + [Finite(MaxValue)]

  function KeysOf(bands: seq<Band>): (keys: seq<Key>)
    ensures |keys| == |bands|
    ensures forall i :: 0 <= i < |bands| ==> keys[i] == bands[i].key
  {
    if bands == [] then [] else [bands[0].key] + KeysOf(bands[1..])
  }

  /** The table's keys strictly ascend from negative infinity to the sentinel. */
  lemma MinuteKeysAscending()
    ensures |MinuteKeys| == |Bands| + 1 == 22
    ensures MinuteKeys[0] == NegInfinity && MinuteKeys[21] == Finite(MaxValue)
    ensures Ascending(MinuteKeys)
  {
    assert forall i :: 0 <= i < |Bands| - 1 ==> KeyLt(Bands[i].key, Bands[i + 1].key);
    assert AdjacentAscending(MinuteKeys);
    AdjacentAscendingIsAscending(MinuteKeys);
  }

  /**
   * The band a minute delta falls in: every delta below the sentinel lies in
   * exactly one band, and the sentinel row is never the answer.
   */
  function Lookup(minutes: real): (i: nat)
    requires minutes < MaxValue
    ensures i < |Bands|
    ensures Brackets(MinuteKeys, i, minutes)
    ensures forall j :: Brackets(MinuteKeys, j, minutes) ==> j == i
  {
    MinuteKeysAscending();
    Search(MinuteKeys, minutes)
  }

  /** Every rounding rule divides by a positive number of minutes. */
  predicate RulesWellFormed(bands: seq<Band>) {
    forall i :: 0 <= i < |bands| ==> (!bands[i].rule.Constant? ==> bands[i].rule.per > 0)
  }

  /** The span band `i` gives for a minute delta. */
  function SpanAt(i: nat, minutes: real): (s: TimeSpan)
    requires i < |Bands|
    ensures s.unit == Bands[i].unit && s.tense == Bands[i].tense
    ensures Bands[i].rule.Constant? ==> s.value == Bands[i].rule.c
    ensures s.tense == Future || 0.0 <= minutes ==> 0 <= s.value
  {
    assert forall j :: 0 <= j < |Bands| && Bands[j].tense == Future ==> !Bands[j].rule.QuotientOver?;
    assert RulesWellFormed(Bands);
    var b := Bands[i];
    TimeSpan(b.unit, b.tense, Resolve(b.rule, minutes))
  }

  /**
   * Reference definition of the band table, read as a chain of thresholds
   * on the minute delta (negative deltas lie in the future), with each
   * magnitude rounded half up.
   */
  function ReferenceSpan(m: real): (s: TimeSpan)
    ensures s.tense == Past <==> 0.0 <= m
    ensures 0 <= s.value
    ensures s.value == 0 <==> -1.0 <= m < 1.0
    ensures s.unit == Minutes <==> -44.0 <= m < 45.0
  {
    if m < -529600.0 then TimeSpan(Years, Future, RoundHalfUp(-m / 525960.0))
    else if m < -486400.0 then TimeSpan(Years, Future, 1)
    else if m < -43200.0 then TimeSpan(Months, Future, RoundHalfUp(-m / 43200.0))
    else if m < -41760.0 then TimeSpan(Months, Future, 1)
    else if m < -1440.0 then TimeSpan(Days, Future, RoundHalfUp(-m / 1440.0))
    else if m < -1380.0 then TimeSpan(Days, Future, 1)
    else if m < -45.0 then TimeSpan(Hours, Future, RoundHalfUp(-m / 60.0))
    else if m < -44.0 then TimeSpan(Hours, Future, 1)
    else if m < -1.0 then TimeSpan(Minutes, Future, RoundHalfUp(-m))
    else if m < 0.0 then TimeSpan(Minutes, Future, 0)
    else if m < 1.0 then TimeSpan(Minutes, Past, 0)
    else if m < 2.0 then TimeSpan(Minutes, Past, 1)
    else if m < 45.0 then TimeSpan(Minutes, Past, RoundHalfUp(m))
    else if m < 90.0 then TimeSpan(Hours, Past, 1)
    else if m < 1440.0 then TimeSpan(Hours, Past, RoundHalfUp(m / 60.0))
    else if m < 2880.0 then TimeSpan(Days, Past, 1)
    else if m < 43200.0 then TimeSpan(Days, Past, RoundHalfUp(m / 1440.0))
    else if m < 86400.0 then TimeSpan(Months, Past, 1)
    else if m < 529600.0 then TimeSpan(Months, Past, RoundHalfUp(m / 43200.0))
    else if m < 1051200.0 then TimeSpan(Years, Past, 1)
    else TimeSpan(Years, Past, RoundHalfUp(m / 525960.0))
  }

  /** Band `i` holds delta `m`: its key is at or below `m`, the next key above. */
  predicate InBand(i: nat, m: real)
    requires i < |Bands|
  {
    AtOrBelow(Bands[i].key, m) && (i + 1 < |Bands| ==> Above(Bands[i + 1].key, m))
  }

  /** Bands 0 to 4: a year or more down to a day or more ahead. */
  lemma FarFutureBandsMatchReference(i: nat, m: real)
    requires i <= 4 && InBand(i, m)
    ensures SpanAt(i, m) == ReferenceSpan(m)
  {
  }

  /** Bands 5 to 9: a day down to less than a minute ahead. */
  lemma NearFutureBandsMatchReference(i: nat, m: real)
    requires 5 <= i <= 9 && InBand(i, m)
    ensures SpanAt(i, m) == ReferenceSpan(m)
  {
  }

  /** Bands 10 to 15: less than a minute up to a day back. */
  lemma NearPastBandsMatchReference(i: nat, m: real)
    requires 10 <= i <= 15 && InBand(i, m)
    ensures SpanAt(i, m) == ReferenceSpan(m)
  {
  }

  /** Bands 16 to 20: days up to years back. */
  lemma FarPastBandsMatchReference(i: nat, m: real)
    requires 16 <= i <= 20 && InBand(i, m)
    ensures SpanAt(i, m) == ReferenceSpan(m)
  {
  }

  /** The band the search finds yields the span the threshold chain gives. */
  lemma LookupMatchesReference(m: real)
    requires m < MaxValue
    ensures SpanAt(Lookup(m), m) == ReferenceSpan(m)
  {
    var i := Lookup(m);
    assert MinuteKeys[i] == Bands[i].key;
    assert i + 1 < |Bands| ==> MinuteKeys[i + 1] == Bands[i + 1].key;
    assert InBand(i, m);
    if i <= 4 {
      FarFutureBandsMatchReference(i, m);
    } else if i <= 9 {
      NearFutureBandsMatchReference(i, m);
    } else if i <= 15 {
      NearPastBandsMatchReference(i, m);
    } else {
      FarPastBandsMatchReference(i, m);
    }
  }

  /**
   * `getTimeSpan` on a minute delta: look the band up and apply its value
   * rule. The tense is Past exactly for non-negative deltas, the value is
   * never negative, and it is zero exactly for deltas in [-1, 1).
   */
  function SpanOf(minutes: real): (s: TimeSpan)
    requires minutes < MaxValue
    ensures s == ReferenceSpan(minutes)
    ensures s.tense == Past <==> 0.0 <= minutes
    ensures 0 <= s.value
  {
    LookupMatchesReference(minutes);
    SpanAt(Lookup(minutes), minutes)
  }

  /** A JavaScript `Date` time value: milliseconds within 8.64e15 of the epoch. */
  predicate ValidTime(ms: int) {
    -8_640_000_000_000_000 <= ms <= 8_640_000_000_000_000
  }

  /** `(+to - +from) / 60000`: the minutes from `from` to `to`, exactly. */
  function MinutesBetween(fromMs: int, toMs: int): (m: real)
    ensures m * 60000.0 == (toMs - fromMs) as real
    ensures m < 0.0 <==> toMs < fromMs
  {
    (toMs - fromMs) as real / 60000.0
  }

  /**
   * `getTimeSpan(from, to)`. The span is Past exactly when `from` is not
   * after `to`, and its value is zero exactly when the two instants are
   * less than a minute apart; a difference of exactly -60000 ms still has
   * value 0 and renders as "in a minute".
   */
  function GetTimeSpan(fromMs: int, toMs: int): (s: TimeSpan)
    requires ValidTime(fromMs) && ValidTime(toMs)
    ensures s.tense == Past <==> fromMs <= toMs
    ensures 0 <= s.value
    ensures s.value == 0 <==> -60000 <= toMs - fromMs < 60000
    ensures s.unit == Minutes <==> -44 * 60000 <= toMs - fromMs < 45 * 60000
    ensures s == ReferenceSpan(MinutesBetween(fromMs, toMs))
  {
    assert MinutesBetween(fromMs, toMs) < MaxValue;
    SpanOf(MinutesBetween(fromMs, toMs))
  }

  /** The English phrase a span stands for, with its value written in decimal. */
  function Phrase(span: TimeSpan): string {
    if span.IsZeroMinute() then
      (if span.tense == Past then "less than a minute ago" else "in a minute")
    else if span.tense == Past then
      IntToString(span.value) + " " + span.Noun() + " ago"
    else
      "in " + IntToString(span.value) + " " + span.Noun()
  }

  /** Filling a past template, `%s` at the front, with the value. */
  lemma FillPast(t: I18n.Translations, span: TimeSpan)
    requires !span.IsZeroMinute() && span.tense == Past
    requires I18n.Get(t, span.Template()) == span.Template()
    ensures I18n.Translate(t, span.Template(), IntToString(span.value)) == Phrase(span)
  {
    FillPastWith(t, span, IntToString(span.value));
  }

  lemma FillPastWith(t: I18n.Translations, span: TimeSpan, v: string)
    requires !span.IsZeroMinute() && span.tense == Past
    requires I18n.Get(t, span.Template()) == span.Template()
    ensures I18n.Translate(t, span.Template(), v) == v + " " + span.Noun() + " ago"
  {
    var tmpl := span.Template();
    assert I18n.Translate(t, tmpl, v) == tmpl[..0] + v + tmpl[2..];
    assert tmpl[..0] + v == v;
  }

  /** Filling a future template, `%s` after "in ", with the value. */
  lemma FillFuture(t: I18n.Translations, span: TimeSpan)
    requires !span.IsZeroMinute() && span.tense == Future
    requires I18n.Get(t, span.Template()) == span.Template()
    ensures I18n.Translate(t, span.Template(), IntToString(span.value)) == Phrase(span)
  {
    FillFutureWith(t, span, IntToString(span.value));
  }

  lemma FillFutureWith(t: I18n.Translations, span: TimeSpan, v: string)
    requires !span.IsZeroMinute() && span.tense == Future
    requires I18n.Get(t, span.Template()) == span.Template()
    ensures I18n.Translate(t, span.Template(), v) == "in " + v + " " + span.Noun()
  {
    var tmpl := span.Template();
    assert I18n.Translate(t, tmpl, v) == tmpl[..3] + v + tmpl[5..];
  }

  /**
   * Rendering a span through a table that leaves its template untranslated
   * gives the English phrase.
   */
  lemma RenderUntranslated(t: I18n.Translations, span: TimeSpan)
    ensures I18n.Get(t, span.Template()) == span.Template() ==>
      I18n.Translate(t, span.Template(), IntToString(span.value)) == Phrase(span)
  {
    if I18n.Get(t, span.Template()) != span.Template() || span.IsZeroMinute() {
    } else if span.tense == Past {
      FillPast(t, span);
    } else {
      FillFuture(t, span);
    }
  }

  /**
   * `inWords(from, to)`: the template of the span between the two instants,
   * translated, with the value in place of its first `%s`.
   */
  function InWords(t: I18n.Translations, fromMs: int, toMs: int): (s: string)
    requires ValidTime(fromMs) && ValidTime(toMs)
    ensures var span := GetTimeSpan(fromMs, toMs);
      I18n.Get(t, span.Template()) == span.Template() ==> s == Phrase(span)
    ensures var span := GetTimeSpan(fromMs, toMs);
      Absent(I18n.Get(t, span.Template()), "%s") ==> s == I18n.Get(t, span.Template())
    ensures var span := GetTimeSpan(fromMs, toMs);
      var g := I18n.Get(t, span.Template());
      forall i: nat :: FirstOccurrence(g, "%s", i) ==> s == g[..i] + IntToString(span.value) + g[i + 2..]
  {
    var span := GetTimeSpan(fromMs, toMs);
    RenderUntranslated(t, span);
    I18n.Translate(t, span.Template(), IntToString(span.value))
  }

  /** Which of the three kinds of template a span uses. */
  datatype Form = LessThanOne | Singular | Plural

  /** What a template key records about a span: unit, tense and form. */
  datatype Shape = Shape(unit: Unit, tense: Tense, form: Form)

  function ShapeOf(span: TimeSpan): Shape {
    Shape(span.unit, span.tense,
      if span.IsZeroMinute() then LessThanOne else if span.value > 1 then Plural else Singular)
  }

  /** Reads a noun back as its unit and whether it carries the plural "s". */
  function ParseNoun(noun: string): Option<(Unit, bool)> {
    var plural := 0 < |noun| && noun[|noun| - 1] == 's';
    var stem := if plural then noun[..|noun| - 1] else noun;
    if stem == "year" then Some((Years, plural))
    else if stem == "month" then Some((Months, plural))
    else if stem == "day" then Some((Days, plural))
    else if stem == "hour" then Some((Hours, plural))
    else if stem == "minute" then Some((Minutes, plural))
    else None
  }

  /** Reads a template key back as the shape of the spans it serves. */
  function ParseTemplate(key: string): Option<Shape> {
    if key == "in a minute" then Some(Shape(Minutes, Future, LessThanOne))
    else if key == "less than a minute ago" then Some(Shape(Minutes, Past, LessThanOne))
    else if 6 <= |key| && key[..6] == "in %s " then
      match ParseNoun(key[6..])
      case Some((u, plural)) => Some(Shape(u, Future, if plural then Plural else Singular))
      case None => None
    else if 7 <= |key| && key[..3] == "%s " && key[|key| - 4..] == " ago" then
      match ParseNoun(key[3..|key| - 4])
      case Some((u, plural)) => Some(Shape(u, Past, if plural then Plural else Singular))
      case None => None
    else None
  }

  lemma ParseNounRoundTrip(span: TimeSpan)
    ensures ParseNoun(span.Noun()) == Some((span.unit, span.value > 1))
  {
    var noun := span.Noun();
    if span.value > 1 {
      assert noun[..|noun| - 1] == span.unit.Name();
    }
  }

  lemma PastTemplateRoundTrip(span: TimeSpan)
    requires !span.IsZeroMinute() && span.tense == Past
    ensures ParseTemplate(span.Template()) == Some(ShapeOf(span))
  {
    var key := span.Template();
    ParseNounRoundTrip(span);
    assert key[0] == '%';
    assert key[3..|key| - 4] == span.Noun();
  }

  lemma FutureTemplateRoundTrip(span: TimeSpan)
    requires !span.IsZeroMinute() && span.tense == Future
    ensures ParseTemplate(span.Template()) == Some(ShapeOf(span))
  {
    var key := span.Template();
    ParseNounRoundTrip(span);
    assert key[3] == '%';
    assert key[6..] == span.Noun();
  }

  /** A span's template key can be read back as the span's shape. */
  lemma TemplateRoundTrip(span: TimeSpan)
    ensures ParseTemplate(span.Template()) == Some(ShapeOf(span))
  {
    if span.IsZeroMinute() {
    } else if span.tense == Past {
      PastTemplateRoundTrip(span);
    } else {
      FutureTemplateRoundTrip(span);
    }
  }

  /** Two spans share a template key exactly when they share unit, tense and form. */
  lemma TemplateDeterminesShape(a: TimeSpan, b: TimeSpan)
    ensures a.Template() == b.Template() <==> ShapeOf(a) == ShapeOf(b)
  {
    TemplateRoundTrip(a);
    TemplateRoundTrip(b);
  }
}
