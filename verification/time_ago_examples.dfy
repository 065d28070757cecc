/**
 * The outputs the repository's tests expect, restated over the millisecond
 * difference between the two instants instead of calendar dates.
 */
module TimeAgoExamples {
  import opened Wrappers
  import opened Numbers
  import opened TimeAgo
  import I18n

  const MinuteMs: int := 60000

  /** With the default table every span renders as its English phrase. */
  lemma DefaultRendering(fromMs: int, toMs: int)
    requires ValidTime(fromMs) && ValidTime(toMs)
    ensures InWords(I18n.Defaults(), fromMs, toMs) == Phrase(GetTimeSpan(fromMs, toMs))
  {
    I18n.GetDefaultsIsIdentity(GetTimeSpan(fromMs, toMs).Template());
  }

  /** Reduces an example to the span its difference yields and that span's phrase. */
  lemma RendersAs(fromMs: int, toMs: int, span: TimeSpan, phrase: string)
    requires ValidTime(fromMs) && ValidTime(toMs)
    requires ReferenceSpan(MinutesBetween(fromMs, toMs)) == span
    requires Phrase(span) == phrase
    ensures InWords(I18n.Defaults(), fromMs, toMs) == phrase
  {
    DefaultRendering(fromMs, toMs);
  }

  lemma LessThanAMinuteAgo(fromMs: int, toMs: int)
    requires ValidTime(fromMs) && ValidTime(toMs)
    requires 0 <= toMs - fromMs < MinuteMs
    ensures InWords(I18n.Defaults(), fromMs, toMs) == "less than a minute ago"
  {
    DefaultRendering(fromMs, toMs);
  }

  lemma InAMinute(fromMs: int, toMs: int)
    requires ValidTime(fromMs) && ValidTime(toMs)
    requires -MinuteMs <= toMs - fromMs < 0
    ensures InWords(I18n.Defaults(), fromMs, toMs) == "in a minute"
  {
    DefaultRendering(fromMs, toMs);
  }

  lemma OneMinuteAgo(fromMs: int, toMs: int)
    requires ValidTime(fromMs) && ValidTime(toMs)
    requires toMs - fromMs == MinuteMs
    ensures InWords(I18n.Defaults(), fromMs, toMs) == "1 minute ago"
  {
    assert MinutesBetween(fromMs, toMs) == 1.0;
    PastPhrase(Minutes, 1, "1");
    RendersAs(fromMs, toMs, TimeSpan(Minutes, Past, 1), "1 minute ago");
  }

  lemma FortyFourMinutesAgo(fromMs: int, toMs: int)
    requires ValidTime(fromMs) && ValidTime(toMs)
    requires toMs - fromMs == 44 * MinuteMs
    ensures InWords(I18n.Defaults(), fromMs, toMs) == "44 minutes ago"
  {
    assert MinutesBetween(fromMs, toMs) == 44.0;
    RoundHalfUpUnique(44.0, 44);
    PastPhrase(Minutes, 44, "44");
    RendersAs(fromMs, toMs, TimeSpan(Minutes, Past, 44), "44 minutes ago");
  }

  lemma FortyFiveMinutesAgo(fromMs: int, toMs: int)
    requires ValidTime(fromMs) && ValidTime(toMs)
    requires toMs - fromMs == 45 * MinuteMs
    ensures InWords(I18n.Defaults(), fromMs, toMs) == "1 hour ago"
  {
    assert MinutesBetween(fromMs, toMs) == 45.0;
    PastPhrase(Hours, 1, "1");
    RendersAs(fromMs, toMs, TimeSpan(Hours, Past, 1), "1 hour ago");
  }

  lemma InTwoMinutes(fromMs: int, toMs: int)
    requires ValidTime(fromMs) && ValidTime(toMs)
    requires toMs - fromMs == -2 * MinuteMs
    ensures InWords(I18n.Defaults(), fromMs, toMs) == "in 2 minutes"
  {
    assert MinutesBetween(fromMs, toMs) == -2.0;
    RoundHalfUpUnique(2.0, 2);
    FuturePhrase(Minutes, 2, "2");
    RendersAs(fromMs, toMs, TimeSpan(Minutes, Future, 2), "in 2 minutes");
  }

  lemma InFortyFourMinutes(fromMs: int, toMs: int)
    requires ValidTime(fromMs) && ValidTime(toMs)
    requires toMs - fromMs == -44 * MinuteMs
    ensures InWords(I18n.Defaults(), fromMs, toMs) == "in 44 minutes"
  {
    assert MinutesBetween(fromMs, toMs) == -44.0;
    RoundHalfUpUnique(44.0, 44);
    FuturePhrase(Minutes, 44, "44");
    RendersAs(fromMs, toMs, TimeSpan(Minutes, Future, 44), "in 44 minutes");
  }

  lemma InFortyFiveMinutes(fromMs: int, toMs: int)
    requires ValidTime(fromMs) && ValidTime(toMs)
    requires toMs - fromMs == -45 * MinuteMs
    ensures InWords(I18n.Defaults(), fromMs, toMs) == "in 1 hour"
  {
    assert MinutesBetween(fromMs, toMs) == -45.0;
    FuturePhrase(Hours, 1, "1");
    RendersAs(fromMs, toMs, TimeSpan(Hours, Future, 1), "in 1 hour");
  }

  /** 2016-01-01 to 2018-01-01: 731 days. */
  lemma TwoYearsAgo(fromMs: int, toMs: int)
    requires ValidTime(fromMs) && ValidTime(toMs)
    requires toMs - fromMs == 731 * 1440 * MinuteMs
    ensures InWords(I18n.Defaults(), fromMs, toMs) == "2 years ago"
  {
    assert MinutesBetween(fromMs, toMs) == 1052640.0;
    RoundHalfUpUnique(1052640.0 / 525960.0, 2);
    PastPhrase(Years, 2, "2");
    RendersAs(fromMs, toMs, TimeSpan(Years, Past, 2), "2 years ago");
  }

  /** 2019-01-01 seen from 2018-01-01: 365 days ahead. */
  lemma InOneYear(fromMs: int, toMs: int)
    requires ValidTime(fromMs) && ValidTime(toMs)
    requires toMs - fromMs == -365 * 1440 * MinuteMs
    ensures InWords(I18n.Defaults(), fromMs, toMs) == "in 1 year"
  {
    assert MinutesBetween(fromMs, toMs) == -525600.0;
    FuturePhrase(Years, 1, "1");
    RendersAs(fromMs, toMs, TimeSpan(Years, Future, 1), "in 1 year");
  }

  lemma PastPhrase(u: Unit, value: nat, digits: string)
    requires 0 < value && IntToString(value) == digits
    ensures Phrase(TimeSpan(u, Past, value)) == digits + " " + TimeSpan(u, Past, value).Noun() + " ago"
  {
  }

  lemma FuturePhrase(u: Unit, value: nat, digits: string)
    requires 0 < value && IntToString(value) == digits
    ensures Phrase(TimeSpan(u, Future, value)) == "in " + digits + " " + TimeSpan(u, Future, value).Noun()
  {
  }

  /** A translation set for "less than a minute ago" replaces that phrase. */
  lemma CustomLessThanAMinuteAgo(fromMs: int, toMs: int)
    requires ValidTime(fromMs) && ValidTime(toMs)
    requires 0 <= toMs - fromMs < MinuteMs
    ensures InWords(I18n.Merged(I18n.Defaults(), Some(map["less than a minute ago" := Some("abc")])), fromMs, toMs) == "abc"
  {
    var t := I18n.Merged(I18n.Defaults(), Some(map["less than a minute ago" := Some("abc")]));
    assert I18n.Get(t, "less than a minute ago") == "abc";
    Strings.AbsentWithoutFirstChar("abc", "%s");
  }

  /** A translation set for "in a minute" replaces that phrase. */
  lemma CustomInAMinute(fromMs: int, toMs: int)
    requires ValidTime(fromMs) && ValidTime(toMs)
    requires -MinuteMs <= toMs - fromMs < 0
    ensures InWords(I18n.Merged(I18n.Defaults(), Some(map["in a minute" := Some("abc")])), fromMs, toMs) == "abc"
  {
    var t := I18n.Merged(I18n.Defaults(), Some(map["in a minute" := Some("abc")]));
    assert I18n.Get(t, "in a minute") == "abc";
    Strings.AbsentWithoutFirstChar("abc", "%s");
  }

  /**
   * A delta between one and one and a half minutes ahead uses the template
   * "in %s minute", which is not among the base keys; `get` falls back to the
   * key itself, so the default rendering is still "in 1 minute".
   */
  lemma SingularFutureMinuteKeyNotBase(fromMs: int, toMs: int)
    requires ValidTime(fromMs) && ValidTime(toMs)
    requires toMs - fromMs == -75000
    ensures GetTimeSpan(fromMs, toMs).Template() == "in %s minute"
    ensures "in %s minute" !in I18n.Defaults()
    ensures InWords(I18n.Defaults(), fromMs, toMs) == "in 1 minute"
  {
    SeventyFiveSecondsAhead(fromMs, toMs);
    SingularFutureMinuteTemplate();
    SingularFutureMinuteNotBaseKey();
    InOneAndAQuarterMinutes(fromMs, toMs);
  }

  lemma InOneAndAQuarterMinutes(fromMs: int, toMs: int)
    requires ValidTime(fromMs) && ValidTime(toMs)
    requires toMs - fromMs == -75000
    ensures InWords(I18n.Defaults(), fromMs, toMs) == "in 1 minute"
  {
    assert MinutesBetween(fromMs, toMs) == -1.25;
    RoundHalfUpUnique(1.25, 1);
    FuturePhrase(Minutes, 1, "1");
    RendersAs(fromMs, toMs, TimeSpan(Minutes, Future, 1), "in 1 minute");
  }

  lemma SingularFutureMinuteTemplate()
    ensures TimeSpan(Minutes, Future, 1).Template() == "in %s minute"
  {
    assert TimeSpan(Minutes, Future, 1).Noun() == "minute";
  }

  lemma SeventyFiveSecondsAhead(fromMs: int, toMs: int)
    requires ValidTime(fromMs) && ValidTime(toMs)
    requires toMs - fromMs == -75000
    ensures ReferenceSpan(MinutesBetween(fromMs, toMs)) == TimeSpan(Minutes, Future, 1)
    ensures GetTimeSpan(fromMs, toMs) == TimeSpan(Minutes, Future, 1)
  {
    assert MinutesBetween(fromMs, toMs) == -1.25;
    RoundHalfUpUnique(1.25, 1);
  }

  lemma SingularFutureMinuteNotBaseKey()
    ensures "in %s minute" !in I18n.Defaults()
  {
    forall i | 0 <= i < |I18n.BaseKeys| ensures I18n.BaseKeys[i] != "in %s minute" {
      if |I18n.BaseKeys[i]| == 12 {
        assert I18n.BaseKeys[i][6] != 'm' || I18n.BaseKeys[i][11] != 'e';
      }
    }
    assert "in %s minute" !in I18n.BaseKeys;
  }
}
