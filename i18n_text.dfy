/**
 * The per-locale translations of one translatable text
 * (`Php/Entities/I18NText.php`): an ordered list of `{locale, text}` entries
 * with upsert and lookup by locale key, and the step of the
 * `stats/translated` endpoint that lists locales without any translation.
 */
module I18N {
  import opened Wrappers
  import opened Strings

  /** One `['locale' => ..., 'text' => ...]` entry. */
  datatype Translation = Translation(locale: string, text: string)

  /** The position of the first entry for `locale`, if there is one. */
  function FindLocale(ts: seq<Translation>, locale: string): (r: Option<nat>)
    ensures r.None? <==> forall i :: 0 <= i < |ts| ==> ts[i].locale != locale
    ensures r.Some? ==> r.value < |ts| && ts[r.value].locale == locale
    ensures r.Some? ==> forall j :: 0 <= j < r.value ==> ts[j].locale != locale
  {
    if ts == [] then None
    else if ts[0].locale == locale then Some(0)
    else
      var r := FindLocale(ts[1..], locale);
      if r.None? then None else Some(r.value + 1)
  }

  /** The first entry for `locale` is at `i`. */
  lemma FindLocaleIs(ts: seq<Translation>, locale: string, i: nat)
    requires i < |ts| && ts[i].locale == locale
    requires forall j :: 0 <= j < i ==> ts[j].locale != locale
    ensures FindLocale(ts, locale) == Some(i)
  {
    var f := FindLocale(ts, locale);
    assert f.Some?;
    assert !(f.value < i) && !(i < f.value);
  }

  /** What `setTranslation` leaves in the list. */
  function Upsert(ts: seq<Translation>, locale: string, text: string): seq<Translation> {
    match FindLocale(ts, locale)
    case Some(i) => ts[i := Translation(locale, text)]
    case None => ts + [Translation(locale, text)]
  }

  /** What `getTranslation` returns: `None` is PHP's implicit `null`. */
  function Lookup(ts: seq<Translation>, locale: string): (r: Option<string>)
    ensures r.None? <==> forall i :: 0 <= i < |ts| ==> ts[i].locale != locale
    ensures r.Some? ==> exists i :: 0 <= i < |ts| && ts[i] == Translation(locale, r.value)
    ensures r.Some? ==> FindLocale(ts, locale).Some? && r.value == ts[FindLocale(ts, locale).value].text
  {
    match FindLocale(ts, locale)
    case Some(i) => Some(ts[i].text)
    case None => None
  }

  /** A locale already present: only its first entry changes, to the new text. */
  lemma UpsertReplacesFirst(ts: seq<Translation>, locale: string, text: string, i: nat)
    requires i < |ts| && ts[i].locale == locale
    requires forall j :: 0 <= j < i ==> ts[j].locale != locale
    ensures var r := Upsert(ts, locale, text);
      |r| == |ts| && r[i] == Translation(locale, text)
      && forall j :: 0 <= j < |ts| && j != i ==> r[j] == ts[j]
  {
    FindLocaleIs(ts, locale, i);
  }

  /** A locale not present: a new entry goes at the end and nothing else changes. */
  lemma UpsertAppends(ts: seq<Translation>, locale: string, text: string)
    requires forall j :: 0 <= j < |ts| ==> ts[j].locale != locale
    ensures Upsert(ts, locale, text) == ts + [Translation(locale, text)]
  {
  }

  /** After `setTranslation(l, t)`, `getTranslation(l)` is `t`; other locales read as before. */
  lemma LookupUpsert(ts: seq<Translation>, locale: string, text: string, other: string)
    ensures Lookup(Upsert(ts, locale, text), locale) == Some(text)
    ensures other != locale ==> Lookup(Upsert(ts, locale, text), other) == Lookup(ts, other)
  {
    var r := Upsert(ts, locale, text);
    match FindLocale(ts, locale)
    case Some(i) =>
      FindLocaleIs(r, locale, i);
      if other != locale {
        match FindLocale(ts, other)
        case Some(k) => FindLocaleIs(r, other, k);
        case None =>
      }
    case None =>
      FindLocaleIs(r, locale, |ts|);
      if other != locale {
        match FindLocale(ts, other)
        case Some(k) => FindLocaleIs(r, other, k);
        case None =>
      }
  }

  /** Setting the same translation twice gives the list of setting it once. */
  lemma UpsertIdempotent(ts: seq<Translation>, locale: string, text: string)
    ensures Upsert(Upsert(ts, locale, text), locale, text) == Upsert(ts, locale, text)
  {
    var r := Upsert(ts, locale, text);
    match FindLocale(ts, locale)
    case Some(i) =>
      FindLocaleIs(r, locale, i);
      assert r[i := Translation(locale, text)] == r;
    case None =>
      FindLocaleIs(r, locale, |ts|);
      assert r[|ts| := Translation(locale, text)] == r;
  }

  /** One translatable text. */
  class I18NText {
    var translations: seq<Translation>

    constructor ()
      ensures translations == []
    {
      translations := [];
    }

    /** `setTranslation($locale, $text)`. */
    method SetTranslation(locale: string, text: string)
      modifies this`translations
      ensures translations == Upsert(old(translations), locale, text)
    {
      var ts := translations;
      for i := 0 to |ts|
        invariant forall j :: 0 <= j < i ==> ts[j].locale != locale
      {
        if ts[i].locale == locale {
          translations := ts[i := Translation(locale, text)];
          return;
        }
      }
      translations := ts + [Translation(locale, text)];
    }

    /** `getTranslation($locale)`. */
    method GetTranslation(locale: string) returns (r: Option<string>)
      ensures r == Lookup(translations, locale)
    {
      for i := 0 to |translations|
        invariant forall j :: 0 <= j < i ==> translations[j].locale != locale
      {
        if translations[i].locale == locale {
          return Some(translations[i].text);
        }
      }
      return None;
    }

    /** `hasTranslation($locale)`: a missing entry, `""` and `"0"` all count as absent. */
    method HasTranslation(locale: string) returns (b: bool)
      ensures b <==> exists i :: 0 <= i < |translations| && translations[i].locale == locale
                       && PhpTruthy(translations[i].text) && forall j :: 0 <= j < i ==> translations[j].locale != locale
    {
      var t := GetTranslation(locale);
      b := t.Some? && PhpTruthy(t.value);
      if t.Some? {
        var i := FindLocale(translations, locale).value;
        assert translations[i].text == t.value;
      }
    }
  }

  /** A locale as the endpoint lists it. */
  datatype LocaleRef = LocaleRef(key: string, localeLabel: string)

  /** One row of the endpoint's `translations`: a locale and how many texts it translates. */
  datatype LocaleCount = LocaleCount(locale: LocaleRef, count: nat)

  /** The row for `key` is among `rows`. */
  predicate Listed(rows: seq<LocaleCount>, key: string) {
    exists k :: 0 <= k < |rows| && rows[k].locale.key == key
  }

  /** The missing-locale loop as a fold over the locales: a locale without a row gets one with count 0. */
  function FillMissing(rows: seq<LocaleCount>, locales: seq<LocaleRef>): seq<LocaleCount> {
    if locales == [] then rows
    else
      var prev := FillMissing(rows, locales[..|locales| - 1]);
      var l := locales[|locales| - 1];
      if Listed(prev, l.key) then prev else prev + [LocaleCount(l, 0)]
  }

  /** The aggregate rows stay first, unchanged, and only zero-count rows of locales follow. */
  lemma {:induction false} FillMissingExtends(rows: seq<LocaleCount>, locales: seq<LocaleRef>)
    ensures var r := FillMissing(rows, locales);
      |rows| <= |r| && r[..|rows|] == rows
      && forall k :: |rows| <= k < |r| ==> r[k].count == 0 && r[k].locale in locales
  {
    if locales != [] {
      var init := locales[..|locales| - 1];
      FillMissingExtends(rows, init);
      var prev := FillMissing(rows, init);
      assert forall k :: |rows| <= k < |prev| ==> prev[k].locale in locales by {
        forall k | |rows| <= k < |prev| ensures prev[k].locale in locales {
          var m :| 0 <= m < |init| && init[m] == prev[k].locale;
          assert locales[m] == init[m];
        }
      }
    }
  }

  /** Every locale has a row afterwards. */
  lemma {:induction false} FillMissingCovers(rows: seq<LocaleCount>, locales: seq<LocaleRef>)
    ensures forall m :: 0 <= m < |locales| ==> Listed(FillMissing(rows, locales), locales[m].key)
  {
    if locales != [] {
      var init := locales[..|locales| - 1];
      FillMissingCovers(rows, init);
      var prev := FillMissing(rows, init);
      var r := FillMissing(rows, locales);
      FillMissingExtends(rows, init);
      forall m | 0 <= m < |locales| ensures Listed(r, locales[m].key) {
        if m < |init| {
          assert init[m] == locales[m];
          var k :| 0 <= k < |prev| && prev[k].locale.key == locales[m].key;
          assert r[k] == prev[k];
        } else if !Listed(prev, locales[m].key) {
          assert r[|prev|].locale.key == locales[m].key;
        }
      }
    }
  }

  /** No two rows share a locale key. */
  predicate DistinctKeys(rows: seq<LocaleCount>) {
    forall i, j :: 0 <= i < j < |rows| ==> rows[i].locale.key != rows[j].locale.key
  }

  /** A locale that already has a row gets no second one, so distinct keys stay distinct. */
  lemma {:induction false} FillMissingDistinct(rows: seq<LocaleCount>, locales: seq<LocaleRef>)
    requires DistinctKeys(rows)
    ensures DistinctKeys(FillMissing(rows, locales))
  {
    if locales != [] {
      var init := locales[..|locales| - 1];
      FillMissingDistinct(rows, init);
      var prev := FillMissing(rows, init);
      var l := locales[|locales| - 1];
      if !Listed(prev, l.key) {
        var r := prev + [LocaleCount(l, 0)];
        forall i, j | 0 <= i < j < |r| ensures r[i].locale.key != r[j].locale.key {
          if j == |prev| {
            assert r[i] == prev[i];
          }
        }
      }
    }
  }

  /**
   * The missing-locale loop of `stats/translated`: for each locale, look for
   * its row among the rows so far, and append a zero-count row if there is none.
   */
  method FillMissingLocales(rows: seq<LocaleCount>, locales: seq<LocaleRef>) returns (r: seq<LocaleCount>)
    ensures r == FillMissing(rows, locales)
  {
    r := rows;
    for m := 0 to |locales|
      invariant r == FillMissing(rows, locales[..m])
    {
      var l := locales[m];
      assert locales[..m + 1][..m] == locales[..m];
      var found := false;
      for k := 0 to |r|
        invariant found <==> exists j :: 0 <= j < k && r[j].locale.key == l.key
      {
        if r[k].locale.key == l.key {
          found := true;
          break;
        }
      }
      if !found {
        r := r + [LocaleCount(l, 0)];
      }
    }
    assert locales[..|locales|] == locales;
  }

  /** The response of `stats/translated`, before sorting. */
  datatype TranslatedStats = TranslatedStats(localesTotal: nat, textsTotal: nat, translations: seq<LocaleCount>)

  /**
   * `stats/translated` given the text count, the locales and the aggregate
   * rows (locales with at least one non-empty translation).
   */
  method Stats(textsTotal: nat, locales: seq<LocaleRef>, aggregate: seq<LocaleCount>) returns (r: TranslatedStats)
    ensures r.textsTotal == textsTotal && r.localesTotal == |locales|
    ensures locales == [] ==> r.translations == []
    ensures locales != [] ==> r.translations == FillMissing(aggregate, locales)
  {
    if |locales| == 0 {
      return TranslatedStats(0, textsTotal, []);
    }
    var rows := FillMissingLocales(aggregate, locales);
    return TranslatedStats(|locales|, textsTotal, rows);
  }
}
