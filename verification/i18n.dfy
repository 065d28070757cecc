/**
 * The translation table of `i18n.ts`: a map from English template keys to
 * translated templates. `null` entries are `None`. The table is an explicit
 * state value: `Reset` and `Set` return the next state, `Get` and
 * `Translate` read it.
 */
module I18n {
  import opened Wrappers
  import opened Strings

  type Translations = map<string, Option<string>>

  /** The keys of `baseTranslations`, in declaration order. */
  const BaseKeys: seq<string> := [
    "in %s year", "in %s years",
    "in %s month", "in %s months",
    "in %s day", "in %s days",
    "in %s hour", "in %s hours",
    "in %s minutes",
    "in a minute",
    "less than a minute ago",
    "%s minute ago", "%s minutes ago",
    "%s hour ago", "%s hours ago",
    "%s day ago", "%s days ago",
    "%s month ago", "%s months ago",
    "%s year ago", "%s years ago"
  ]

  predicate Distinct(s: seq<string>) {
    forall i, j :: 0 <= i < j < |s| ==> s[i] != s[j]
  }

  /** The 21 base keys differ pairwise: length, fourth and seventh character tell them apart. */
  lemma BaseKeysDistinct()
    ensures Distinct(BaseKeys)
  {
    forall i, j | 0 <= i < j < |BaseKeys| ensures BaseKeys[i] != BaseKeys[j] {
      if |BaseKeys[i]| == |BaseKeys[j]| {
        assert BaseKeys[i][3] != BaseKeys[j][3] || BaseKeys[i][6] != BaseKeys[j][6];
      }
    }
  }

  /** A sequence without repetitions has as many elements as its set. */
  lemma {:induction false} DistinctCardinality(s: seq<string>)
    requires Distinct(s)
    ensures |set x | x in s| == |s|
  {
    if |s| > 0 {
      var init := s[..|s| - 1];
      assert Distinct(init);
      DistinctCardinality(init);
      assert (set x | x in s) == (set x | x in init) + {s[|s| - 1]};
      assert s[|s| - 1] !in (set x | x in init);
    }
  }

  /** `baseTranslations`: the 21 base keys, none translated. */
  function Defaults(): (t: Translations)
    ensures forall k :: k in t <==> k in BaseKeys
    ensures forall k :: k in t ==> t[k] == None
    ensures |t| == 21
  {
    var t := map k | k in BaseKeys :: None;
    BaseKeysDistinct();
    DistinctCardinality(BaseKeys);
    assert t.Keys == set x | x in BaseKeys;
    t
  }

  /**
   * `reset`: start from an empty table and copy every base key into it.
   * The table held before is discarded, so resetting twice is the same as
   * resetting once.
   */
  method Reset(current: Translations) returns (t: Translations)
    ensures t == Defaults()
  {
    t := map[];
    var i := 0;
    while i < |BaseKeys|
      invariant 0 <= i <= |BaseKeys|
      invariant t == map k | k in BaseKeys[..i] :: None
    {
      assert BaseKeys[..i + 1] == BaseKeys[..i] + [BaseKeys[i]];
      t := t[BaseKeys[i] := None];
      i := i + 1;
    }
    assert BaseKeys[..i] == BaseKeys;
  }

  /**
   * Reference definition of `set`: no overrides leave the table alone;
   * otherwise every overridden key takes its new value and every other key
   * keeps its old one.
   */
  function Merged(t: Translations, overrides: Option<Translations>): (r: Translations)
    ensures overrides.None? ==> r == t
    ensures overrides.Some? ==> r.Keys == t.Keys + overrides.value.Keys
    ensures overrides.Some? ==> forall k :: k in overrides.value ==> r[k] == overrides.value[k]
    ensures overrides.Some? ==> forall k :: k in t && k !in overrides.value ==> r[k] == t[k]
  {
    match overrides
    case None => t
    case Some(m) => t + m
  }

  /**
   * `set`: a `null` or `undefined` argument is ignored; otherwise each key
   * of the argument is written into the table in turn.
   */
  method Set(current: Translations, overrides: Option<Translations>) returns (t: Translations)
    ensures t == Merged(current, overrides)
  {
    if overrides.None? {
      return current;
    }
    var m := overrides.value;
    t := current;
    var pending := m.Keys;
    while pending != {}
      invariant pending <= m.Keys
      invariant t == current + map k | k in m.Keys - pending :: m[k]
      decreases pending
    {
      var k :| k in pending;
      t := t[k := m[k]];
      pending := pending - {k};
    }
    assert m == map k | k in m.Keys - pending :: m[k];
  }

  /** Two `set` calls: the later one wins on the keys both write. */
  lemma SetLastWriterWins(t: Translations, a: Translations, b: Translations)
    ensures Merged(Merged(t, Some(a)), Some(b)) == Merged(t, Some(a + b))
    ensures forall k :: k in a && k in b ==> Merged(Merged(t, Some(a)), Some(b))[k] == b[k]
  {
  }

  /**
   * `get`: a stored non-empty string is the translation; a missing key, a
   * `null` entry or an empty string falls back to the phrase itself.
   */
  function Get(t: Translations, phrase: string): (r: string)
    ensures phrase in t && t[phrase].Some? && t[phrase].value != "" ==> r == t[phrase].value
    ensures phrase !in t || t[phrase] == None || t[phrase] == Some("") ==> r == phrase
  {
    if phrase in t && t[phrase].Some? && t[phrase].value != "" then t[phrase].value else phrase
  }

  /** With the default table, every phrase is its own translation. */
  lemma GetDefaultsIsIdentity(phrase: string)
    ensures Get(Defaults(), phrase) == phrase
  {
  }

  /** A non-empty translation written by `set` is what `get` returns. */
  lemma GetAfterSet(t: Translations, m: Translations, phrase: string, translated: string)
    requires phrase in m && m[phrase] == Some(translated) && translated != ""
    ensures Get(Merged(t, Some(m)), phrase) == translated
  {
  }

  /**
   * `translate`: look the phrase up, then put `value` in place of the first
   * `%s` of the result; a result without `%s` is returned unchanged.
   */
  function Translate(t: Translations, phrase: string, value: string): (r: string)
    ensures Absent(Get(t, phrase), "%s") ==> r == Get(t, phrase)
    ensures forall i: nat :: FirstOccurrence(Get(t, phrase), "%s", i) ==>
      r == Get(t, phrase)[..i] + value + Get(t, phrase)[i + 2..]
  {
    ReplaceFirst(Get(t, phrase), "%s", value)
  }
}
