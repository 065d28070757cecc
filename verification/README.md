# time-ago-in-words, modelled in Dafny

This project models the relative-time engine of the `time-ago-in-words`
TypeScript library and proves properties of it. The engine turns two instants
into an English phrase such as "3 years ago", "in 2 minutes" or "less than a
minute ago". It works in three steps:

1. **Interval search** (`lib/binary_search.ts`). A recursive lower/pos/upper
   search runs over entries sorted by key. It finds the entry whose half-open
   interval `[key_i, key_i+1)` holds the query. Module `BinarySearch` models it
   over the sequence of keys and returns the index of the entry.
2. **Range classification and templating** (`lib/time_ago.ts`). A table of 21
   bands plus a `Number.MAX_VALUE` sentinel maps a signed minute delta to a
   unit, a tense and a value rule. `getTimeSpan` looks the delta up, and
   `TimeSpan.template()` picks the English template key. Module `TimeAgo`
   models this step.
3. **Translation** (`lib/i18n.ts`). A key→template map has `reset`, a merging
   `set`, a falling-back `get`, and `translate`, which puts the value in place
   of the first `%s`. Module `I18n` models it. The process-wide map becomes an
   explicit `Translations` value that operations take and return.

Supporting modules:
- `Numbers`: `Math.abs`, `toFixed()` read back by `parseInt`, and integer `toString`.
- `Strings`: `indexOf` and the first-occurrence `replace`.
- `Wrappers`: `Option`, standing for `null`.
- `TimeAgoExamples`: restates the repository's test expectations as lemmas
  over millisecond differences.

Modelling choices:
- Minute deltas are exact `real`s.
- Key `NegInfinity` stands for `Number.NEGATIVE_INFINITY`.
- The sentinel key is `Number.MAX_VALUE`, written exactly as 2^1024 - 2^971.
- Instants are millisecond time values within the `Date` range of the
  ECMAScript specification (±8.64e15 ms). The source's search has no answer
  for an invalid date (NaN), so callers must pass valid ones.

The default table has no key for the singular future minute:
- `baseTranslations` (lib/i18n.ts:8-33) holds 21 keys, and `"in %s minute"`
  is not among them. The engine produces that key for deltas between one and
  one and a half minutes ahead. Rendering is unaffected, because `get` falls
  back to the key itself. `TimeAgoExamples.SingularFutureMinuteKeyNotBase`
  states this.

## Model

| member | source | states |
|---|---|---|
| `BinarySearch.InnerSearch` | lib/binary_search.ts:12-20 | Input: keys strictly ascending, the target between `keys[lower]` and the key after `upper`, `pos` the floor midpoint. Result: an index in `[lower, upper]` whose interval holds the value. Every `array[pos + 1]` read is in bounds, because `pos` is below the last index once `keys[pos] <= value`. The measure `upper - lower` shrinks on every call. |
| `BinarySearch.Search` | lib/binary_search.ts:22-24 | Input: at least two strictly ascending keys, `keys[0] <= value < keys[last]`. The search starts at `0`, `len-1` and the midpoint `(len-1)/2`. It returns the one index `i` with `keys[i] <= value < keys[i+1]`. The last entry is never returned. |
| `BinarySearch.BracketsUnique` | lib/binary_search.ts:13 | In a strictly ascending table, at most one half-open interval holds a value. |
| `BinarySearch.SearchIsLinearScan` | lib/binary_search.ts:12-24 | The search returns the same entry as a scan from the end for the last key at or below the value. |
| `BinarySearch.AdjacentAscendingIsAscending` | lib/binary_search.ts:12-24 | Keys that ascend between neighbours ascend between every pair, which is the order the search relies on. |
| `Numbers.Abs` | lib/time_ago.ts:71 | `Math.abs`: the result is non-negative and is the value or its negation. |
| `Numbers.RoundHalfUp` | lib/time_ago.ts:79 | `parseInt(x.toFixed(), 10)` on a non-negative `x` is the integer `n` with `n - 1/2 <= x < n + 1/2`, i.e. the nearest integer with halves rounded up. |
| `Numbers.RoundHalfUpUnique` | lib/time_ago.ts:79 | Only one integer satisfies that characterisation. |
| `Numbers.ToFixedZero` | lib/time_ago.ts:83 | `parseInt(x.toFixed(), 10)` on any `x` is within 1/2 of `x`. It equals the half-up rounding for `x >= 0` and the negated rounding of `-x` for `x < 0`. |
| `Numbers.NatToString` | lib/time_ago.ts:106 | The decimal form of a natural is non-empty, made of digits, with no leading zero, one digit exactly below ten. |
| `Numbers.NatToStringRoundTrip` | lib/time_ago.ts:106 | Reading the decimal digits back yields the number written. |
| `Numbers.IntToString` | lib/time_ago.ts:106 | `value.toString()` on an integer: a non-empty string that starts with `-` exactly for negative values, followed by decimal digits without a leading zero. |
| `Numbers.IntToStringRoundTrip` | lib/time_ago.ts:106 | `value.toString()` on an integer, parsed back, yields the integer. |
| `Strings.IndexOf` | lib/i18n.ts:68 | Returns a position exactly when the pattern occurs, and the position is the first occurrence. |
| `Strings.ReplaceFirst` | lib/i18n.ts:68 | Without an occurrence the string is returned unchanged. Otherwise only the first occurrence is replaced, and text before and after it is kept. |
| `I18n.BaseKeysDistinct` | lib/i18n.ts:9-32 | The 21 keys of `baseTranslations` differ pairwise. |
| `I18n.Defaults` | lib/i18n.ts:8-33 | The default table has exactly the base keys, 21 of them, each mapped to `null`. |
| `I18n.Reset` | lib/i18n.ts:37-43 | The copying loop yields the default table whatever table was held before, so a second reset changes nothing. |
| `I18n.Merged` | lib/i18n.ts:47-55 | A `null` argument leaves the table unchanged. Otherwise the keys are the union, overridden keys take the new values, and all other keys keep theirs. |
| `I18n.Set` | lib/i18n.ts:47-55 | The key-by-key loop of `set` produces exactly the merged table. |
| `I18n.SetLastWriterWins` | lib/i18n.ts:52-54 | Two successive `set` calls equal one `set` of the combined overrides, in which the later value wins on shared keys. |
| `I18n.Get` | lib/i18n.ts:57-63 | A stored non-empty string is returned. A missing key, a `null` entry or an empty string falls back to the phrase. |
| `I18n.GetDefaultsIsIdentity` | lib/i18n.ts:57-63 | After `reset`, `get(p) == p` for every phrase `p`. |
| `I18n.GetAfterSet` | lib/i18n.ts:47-63 | After `set` writes a non-empty translation for a phrase, `get` returns that translation. |
| `I18n.Translate` | lib/i18n.ts:65-69 | If the looked-up template has no `%s`, it is returned as is and the value is dropped. Otherwise the value replaces the first `%s` and the rest is kept. |
| `TimeAgo.Unit.Name` | lib/time_ago.ts:12-18 | The enum's string value ("year" … "minute"): at least three characters, never ending in "s". |
| `TimeAgo.TimeSpan.Noun` | lib/time_ago.ts:51-57 | The noun is the unit name or the name plus "s". It ends in "s" exactly when the value exceeds one. |
| `TimeAgo.TimeSpan.Template` | lib/time_ago.ts:37-49 | A zero-minute span gives "in a minute" (future) or "less than a minute ago" (past), neither containing `%s`. Any other past span gives "%s <noun> ago", with its first `%s` at the front. Any other future span gives "in %s <noun>", with its first `%s` after "in ". |
| `TimeAgo.TemplateRoundTrip` | lib/time_ago.ts:37-57 | The template key can be parsed back into the span's unit, tense and form (zero-minute, singular or plural). |
| `TimeAgo.PastTemplateRoundTrip` | lib/time_ago.ts:37-57 | For a past span other than zero minutes, the "%s <noun> ago" key parses back into the span's unit, tense and form. |
| `TimeAgo.FutureTemplateRoundTrip` | lib/time_ago.ts:37-57 | For a future span other than zero minutes, the "in %s <noun>" key parses back into the span's unit, tense and form. |
| `TimeAgo.TemplateDeterminesShape` | lib/time_ago.ts:37-57 | Two spans share a template key exactly when they share unit, tense and form. |
| `TimeAgo.Resolve` | lib/time_ago.ts:71-91 | A constant rule yields its constant. A magnitude rule yields a non-negative integer within 1/2 of `abs(m / per)`. A quotient rule, for `m >= 0`, yields a non-negative integer within 1/2 of `m / per`. |
| `TimeAgo.SpanAt` | lib/time_ago.ts:100 | The span built from a matched row has the row's unit and tense. A constant rule gives its constant. The value is non-negative for every future row and, for a non-negative delta, for every row. |
| `TimeAgo.BandsLayout` | lib/time_ago.ts:70-91 | `minuteRanges` without its sentinel has 21 rows: the first ten are future, the eleven from key 0 on are past, the first key is negative infinity, and exactly the five rows from key -44 to key 2 are in minutes. |
| `TimeAgo.MinuteKeysAscending` | lib/time_ago.ts:70-93 | The 22 keys strictly ascend. The first is negative infinity and the last is the `MAX_VALUE` sentinel. |
| `TimeAgo.Lookup` | lib/time_ago.ts:98 | Every minute delta below `MAX_VALUE` lies in exactly one of the 21 real bands, and the sentinel is never chosen. |
| `TimeAgo.ReferenceSpan` | lib/time_ago.ts:70-93 | Reading the table as thresholds: the tense is Past iff the delta is `>= 0`, and the value is never negative. The value is 0 iff the delta is in [-1, 1). The unit is Minutes iff the delta is in [-44, 45). |
| `TimeAgo.FarFutureBandsMatchReference` | lib/time_ago.ts:71-75 | Each future band from years down to days, applied to a delta inside it, gives the span of the threshold reading. |
| `TimeAgo.NearFutureBandsMatchReference` | lib/time_ago.ts:76-80 | Each future band from one day down to less than a minute, applied to a delta inside it, gives the span of the threshold reading. |
| `TimeAgo.NearPastBandsMatchReference` | lib/time_ago.ts:81-86 | Each past band from less than a minute up to one day, applied to a delta inside it, gives the span of the threshold reading. |
| `TimeAgo.FarPastBandsMatchReference` | lib/time_ago.ts:87-91 | Each past band from days up to years, applied to a delta inside it, gives the span of the threshold reading. |
| `TimeAgo.LookupMatchesReference` | lib/time_ago.ts:95-101 | The band the search selects, with its value rule applied, gives the span of the threshold reading. |
| `TimeAgo.SpanOf` | lib/time_ago.ts:98-100 | For a minute delta: the tense is Past exactly for non-negative deltas, and the value is never negative. The span agrees with the threshold reading. |
| `TimeAgo.MinutesBetween` | lib/time_ago.ts:96 | `(+to - +from) / 60000`: the result times 60000 is the millisecond difference, and it is negative exactly when `to` is before `from`. |
| `TimeAgo.GetTimeSpan` | lib/time_ago.ts:95-101 | The span is the band's unit and tense with its resolved value for the minute difference, i.e. the threshold reading of `(to - from) / 60000`. It is Past exactly when `from` is not after `to`, its value is non-negative and is 0 exactly when the instants are less than a minute apart, and its unit is Minutes exactly when the difference is in [-44, 45) minutes. |
| `TimeAgo.FillPast` | lib/time_ago.ts:103-107 | An untranslated past template filled with the value's decimal form gives "<value> <noun> ago". |
| `TimeAgo.FillFuture` | lib/time_ago.ts:103-107 | An untranslated future template filled with the value's decimal form gives "in <value> <noun>". |
| `TimeAgo.RenderUntranslated` | lib/time_ago.ts:103-107 | When the table leaves a span's template untranslated, filling it with the value's decimal form gives the English phrase, e.g. "44 minutes ago" or "in 1 hour". |
| `TimeAgo.InWords` | lib/time_ago.ts:103-107 | With the template untranslated, the result is the English phrase of the span between the two instants. With a translation that has no `%s`, the result is that translation. With a translation that has `%s`, the value's decimal form takes the place of its first `%s` and the rest of the translation is kept. |
| `TimeAgoExamples.LessThanAMinuteAgo` | test/time_ago.spec.ts:204-221 | Defaults, difference in [0, 1) minute: "less than a minute ago". |
| `TimeAgoExamples.InAMinute` | test/time_ago.spec.ts:223-241 | Defaults, difference in [-1, 0) minute: "in a minute". |
| `TimeAgoExamples.OneMinuteAgo` | test/time_ago.spec.ts:195 | Defaults, one minute back: "1 minute ago". |
| `TimeAgoExamples.FortyFourMinutesAgo` | test/time_ago.spec.ts:185 | Defaults, 44 minutes back: "44 minutes ago". |
| `TimeAgoExamples.FortyFiveMinutesAgo` | test/time_ago.spec.ts:172 | Defaults, 45 minutes back: "1 hour ago". |
| `TimeAgoExamples.InTwoMinutes` | test/time_ago.spec.ts:247 | Defaults, 2 minutes ahead: "in 2 minutes". |
| `TimeAgoExamples.InFortyFourMinutes` | test/time_ago.spec.ts:259 | Defaults, 44 minutes ahead: "in 44 minutes". |
| `TimeAgoExamples.InFortyFiveMinutes` | test/time_ago.spec.ts:272 | Defaults, 45 minutes ahead: "in 1 hour". |
| `TimeAgoExamples.TwoYearsAgo` | test/time_ago.spec.ts:59 | Defaults, 731 days back (2016-01-01 to 2018-01-01): "2 years ago". |
| `TimeAgoExamples.InOneYear` | test/time_ago.spec.ts:335 | Defaults, 365 days ahead (2019-01-01 from 2018-01-01): "in 1 year". |
| `TimeAgoExamples.CustomLessThanAMinuteAgo` | test/time_ago.spec.ts:17-26 | After setting "less than a minute ago" to "abc", a difference in [0, 1) minute renders "abc". |
| `TimeAgoExamples.CustomInAMinute` | test/time_ago.spec.ts:28-37 | After setting "in a minute" to "abc", a difference in [-1, 0) minute renders "abc". |
| `TimeAgoExamples.SingularFutureMinuteKeyNotBase` | lib/i18n.ts:18-21 | 75 seconds ahead uses the template "in %s minute". The default table lacks that key, and the phrase still renders as "in 1 minute". |

## Left out

- Calendar dates and local time zones: the model takes millisecond time values. The tests' `new Date(...)` cases are restated as millisecond differences.
- The clock read in the default argument `to = new Date()`: callers pass both instants.
- IEEE-754 arithmetic: minute deltas are exact reals, so double rounding of `(to - from) / 60000` and of `m / per` near .5 boundaries is not modelled.
- `toFixed()` on values of 1e21 or more switches to exponential notation. Date time values cannot reach that, so it is not modelled.
- The process-wide `translations` variable and the `reset()` run at import: the table is an explicit state value passed to and returned by each operation.
- The `throw` for an unknown tense: `Tense` has two variants, so that case cannot arise.
- The sentinel row's `null` unit, tense and resolver: the sentinel is kept only as the last search key.
- Search inputs the source does not handle (empty or unsorted tables, values outside the first and last key, NaN) are excluded by preconditions; in the source they recurse without end or read past the array.
- I18n.Translate: special `$` patterns in the replacement string of `String.prototype.replace` are not modelled; the engine only passes decimal digits.
- I18n.Get: JavaScript object-prototype keys such as `"constructor"` and non-string stored values are not modelled; the engine only looks up its own templates.
- The `Translator` re-export of `reset` and `set` (lib/time_ago.ts:109): it exposes the same operations as `I18n.Reset` and `I18n.Set`.
- Module wiring: time_ago.ts calls `BinarySearch.search` and `I18n.translate` (lib/time_ago.ts:8-9, 98, 106), while binary_search.ts and i18n.ts export top-level `binarySearch` and `translate`; the tests import `timeAgoInWords`, `timeAgoReset` and `timeAgoSet` (test/time_ago.spec.ts:9), which time_ago.ts does not export. The model links each call to the operation it evidently names.
