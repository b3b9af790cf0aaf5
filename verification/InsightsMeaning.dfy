/** What the sanitized insights mean in terms of the raw ones (src/insights.ts). */
module InsightsMeaning {
  import opened Common
  import opened JsText
  import opened Insights
  import opened SiteLinks

  // ---------------------------------------------------------------- one entry

  /** The guard accepts exactly the absolute paths that stay on the site they are found on. */
  lemma SafeStaysOnSite(url: JsString)
    ensures IsSafe(url) <==> StaysOnSite(url)
  {
    if StartsAuthority(url) {
      TwoSlashesLeave(url);
    } else if url != [] && url[0] == SOLIDUS {
      OneSlashStays(url);
    }
  }

  /** The references are the trimmed texts that are not blank, in their order; the link is kept,
      trimmed, exactly if it is an absolute path that stays on the site. */
  ghost predicate EntryMeans(e: Entry, raw: RawEntryFields) {
    && raw.refs.Is? && e.refs == Kept(raw.refs.value, AsRef) != []
    && (e.drilldown.Some? <==> raw.drilldown.Is? && StaysOnSite(Trim(raw.drilldown.value)))
    && (e.drilldown.Some? ==> e.drilldown.value == Trim(raw.drilldown.value))
  }

  lemma SanitizedEntryMeans(raw: RawEntry)
    ensures SanitizeEntry(raw).Some? ==> raw.Is? && EntryMeans(SanitizeEntry(raw).value, raw.value)
    ensures SanitizeEntry(raw).None? <==>
      raw.Other? || raw.value.refs.Other? || Kept(raw.value.refs.value, AsRef) == []
  {
    if raw.Is? && raw.value.drilldown.Is? { SafeStaysOnSite(Trim(raw.value.drilldown.value)); }
    assert !StaysOnSite([]);
  }

  // ---------------------------------------------------------------- which entry is chosen

  /** A valid entry whose key reads as the index `c` is written for. */
  predicate Names(entries: seq<(JsString, RawEntry)>, i: nat, c: JsString)
    requires i < |entries|
  {
    var key := entries[i].0;
    && IsDigits(key) && ValueOf(key) < 0x20_0000_0000_0000 && DecimalText(ValueOf(key)) == c
    && SanitizeEntry(entries[i].1).Some?
  }

  /** The first valid entry under the very key; without any, the first under another spelling. */
  ghost predicate ChosenAt(entries: seq<(JsString, RawEntry)>, c: JsString, i: nat) {
    && i < |entries| && Names(entries, i, c)
    && if entries[i].0 == c
       then forall j :: 0 <= j < i ==> !(entries[j].0 == c && Names(entries, j, c))
       else (forall j :: 0 <= j < |entries| ==> !(entries[j].0 == c && Names(entries, j, c)))
            && (forall j :: 0 <= j < i ==> !Names(entries, j, c))
  }

  lemma {:induction false} FirstExactAt(entries: seq<(JsString, RawEntry)>, c: JsString) returns (i: nat)
    ensures FirstExact(entries, c).None? ==>
      forall j :: 0 <= j < |entries| ==> !(entries[j].0 == c && Names(entries, j, c))
    ensures FirstExact(entries, c).Some? ==>
      && i < |entries| && entries[i].0 == c && Names(entries, i, c)
      && FirstExact(entries, c) == SanitizeEntry(entries[i].1)
      && forall j :: 0 <= j < i ==> !(entries[j].0 == c && Names(entries, j, c))
  {
    i := 0;
    if entries != [] {
      var n := |entries| - 1;
      i := FirstExactAt(entries[..n], c);
      assert forall j :: 0 <= j < n ==> Names(entries[..n], j, c) == Names(entries, j, c);
      if FirstExact(entries[..n], c).None? { i := n; }
    }
  }

  lemma {:induction false} FirstSpellingAt(entries: seq<(JsString, RawEntry)>, c: JsString) returns (i: nat)
    ensures FirstSpelling(entries, c).None? ==> forall j :: 0 <= j < |entries| ==> !Names(entries, j, c)
    ensures FirstSpelling(entries, c).Some? ==>
      && i < |entries| && Names(entries, i, c) && FirstSpelling(entries, c) == SanitizeEntry(entries[i].1)
      && forall j :: 0 <= j < i ==> !Names(entries, j, c)
  {
    i := 0;
    if entries != [] {
      var n := |entries| - 1;
      i := FirstSpellingAt(entries[..n], c);
      assert forall j :: 0 <= j < n ==> Names(entries[..n], j, c) == Names(entries, j, c);
      if FirstSpelling(entries[..n], c).None? { i := n; }
    }
  }

  lemma ChosenMeans(entries: seq<(JsString, RawEntry)>, c: JsString) returns (i: nat)
    ensures Chosen(entries, c).Some? <==> exists j: nat :: j < |entries| && Names(entries, j, c)
    ensures Chosen(entries, c).Some? ==> ChosenAt(entries, c, i) && Chosen(entries, c) == SanitizeEntry(entries[i].1)
  {
    var exact := FirstExactAt(entries, c);
    var spelled := FirstSpellingAt(entries, c);
    i := if FirstExact(entries, c).Some? then exact else spelled;
    if FirstExact(entries, c).Some? { assert Names(entries, exact, c); }
  }

  // ---------------------------------------------------------------- sections

  /** The index now of raw item `i`: the number of valid items before it. */
  function IndexNow<R, T>(items: seq<R>, valid: R -> Option<T>, i: nat): nat
    requires i <= |items|
  {
    |Kept(items[..i], valid)|
  }

  ghost predicate EntryFrom(e: Entry, entries: seq<(JsString, RawEntry)>, c: JsString, j: nat) {
    ChosenAt(entries, c, j) && entries[j].1.Is? && EntryMeans(e, entries[j].1.value)
  }

  /** For a raw item that survives and that some valid entry names, the section has an entry
      under its index now, made from the chosen raw entry. */
  lemma SectionKeeps<R, T>(out: Option<Section>, raw: RawSection, items: seq<R>, valid: R -> Option<T>, i: nat, n: nat)
    returns (j: nat)
    requires Follows(out, raw, items, valid)
    requires i < |items| && valid(items[i]).Some? && n < |EntriesOf(raw)| && Names(EntriesOf(raw), n, DecimalText(i))
    ensures var k := DecimalText(IndexNow(items, valid, i));
      k in OrEmpty(out) && EntryFrom(OrEmpty(out)[k], EntriesOf(raw), DecimalText(i), j)
  {
    j := ChosenMeans(EntriesOf(raw), DecimalText(i));
    var k := DecimalText(IndexNow(items, valid, i));
    assert Refers(EntriesOf(raw), items, valid, i);
    assert Lands(EntriesOf(raw), items, valid, i, k);
    assert FollowsAt(OrEmpty(out), EntriesOf(raw), items, valid, k);
    SanitizedEntryMeans(EntriesOf(raw)[j].1);
  }

  /** And every entry of a section is there for that reason. */
  lemma SectionOnlyKeeps<R, T>(out: Option<Section>, raw: RawSection, items: seq<R>, valid: R -> Option<T>, k: JsString)
    returns (i: nat, j: nat)
    requires Follows(out, raw, items, valid) && k in OrEmpty(out)
    ensures i < |items| && valid(items[i]).Some? && k == DecimalText(IndexNow(items, valid, i))
    ensures EntryFrom(OrEmpty(out)[k], EntriesOf(raw), DecimalText(i), j)
  {
    assert FollowsAt(OrEmpty(out), EntriesOf(raw), items, valid, k);
    i :| Lands(EntriesOf(raw), items, valid, i, k);
    j := ChosenMeans(EntriesOf(raw), DecimalText(i));
    SanitizedEntryMeans(EntriesOf(raw)[j].1);
  }

  ghost predicate LinksStay(section: Option<Section>) {
    forall k :: k in OrEmpty(section) && OrEmpty(section)[k].drilldown.Some? ==>
      StaysOnSite(OrEmpty(section)[k].drilldown.value)
  }

  lemma SectionLinksStay<R, T>(out: Option<Section>, raw: RawSection, items: seq<R>, valid: R -> Option<T>)
    requires Follows(out, raw, items, valid)
    ensures LinksStay(out)
  {
    forall k | k in OrEmpty(out) && OrEmpty(out)[k].drilldown.Some?
      ensures StaysOnSite(OrEmpty(out)[k].drilldown.value)
    {
      var i, j := SectionOnlyKeeps(out, raw, items, valid, k);
    }
  }

  // ---------------------------------------------------------------- the whole result

  /** Every link of a result leads to the site it is found on. */
  lemma AllLinksStay(raw: Raw<RawInsights>, requireTs: bool, r: DailyInsights)
    requires IsSanitized(raw, requireTs, Some(r)) && r.dataRefs.Some?
    ensures LinksStay(r.dataRefs.value.topics) && LinksStay(r.dataRefs.value.questions)
    ensures LinksStay(r.dataRefs.value.deltas)
  {
    var sections, d := SectionsOf(raw.value.dataRefs), r.dataRefs.value;
    SectionLinksStay(d.topics, sections.topics, ListOf(raw.value.topics), AsTopic);
    SectionLinksStay(d.questions, sections.questions, ListOf(raw.value.questions), AsText);
    SectionLinksStay(d.deltas, sections.deltas, ListOf(raw.value.deltas), AsText);
  }

  /** The reference of a raw topic that survives is in the result, and its link is kept exactly
      if it is an absolute path that stays on the site; likewise for the other two lists. */
  lemma TopicEntryKept(raw: RawInsights, requireTs: bool, r: DailyInsights, i: nat, n: nat) returns (j: nat)
    requires IsSanitized(Is(raw), requireTs, Some(r))
    requires i < |ListOf(raw.topics)| && AsTopic(ListOf(raw.topics)[i]).Some?
    requires var entries := EntriesOf(SectionsOf(raw.dataRefs).topics);
      n < |entries| && Names(entries, n, DecimalText(i))
    ensures r.dataRefs.Some? && r.dataRefs.value.topics.Some?
    ensures var section, k := r.dataRefs.value.topics.value, DecimalText(IndexNow(ListOf(raw.topics), AsTopic, i));
      k in section && EntryFrom(section[k], EntriesOf(SectionsOf(raw.dataRefs).topics), DecimalText(i), j)
  {
    var d := if r.dataRefs.Some? then r.dataRefs.value else DataRefs(None, None, None);
    j := SectionKeeps(d.topics, SectionsOf(raw.dataRefs).topics, ListOf(raw.topics), AsTopic, i, n);
  }

  lemma QuestionEntryKept(raw: RawInsights, requireTs: bool, r: DailyInsights, i: nat, n: nat) returns (j: nat)
    requires IsSanitized(Is(raw), requireTs, Some(r))
    requires i < |ListOf(raw.questions)| && AsText(ListOf(raw.questions)[i]).Some?
    requires var entries := EntriesOf(SectionsOf(raw.dataRefs).questions);
      n < |entries| && Names(entries, n, DecimalText(i))
    ensures r.dataRefs.Some? && r.dataRefs.value.questions.Some?
    ensures var section, k := r.dataRefs.value.questions.value, DecimalText(IndexNow(ListOf(raw.questions), AsText, i));
      k in section && EntryFrom(section[k], EntriesOf(SectionsOf(raw.dataRefs).questions), DecimalText(i), j)
  {
    var d := if r.dataRefs.Some? then r.dataRefs.value else DataRefs(None, None, None);
    j := SectionKeeps(d.questions, SectionsOf(raw.dataRefs).questions, ListOf(raw.questions), AsText, i, n);
  }

  lemma DeltaEntryKept(raw: RawInsights, requireTs: bool, r: DailyInsights, i: nat, n: nat) returns (j: nat)
    requires IsSanitized(Is(raw), requireTs, Some(r))
    requires i < |ListOf(raw.deltas)| && AsText(ListOf(raw.deltas)[i]).Some?
    requires var entries := EntriesOf(SectionsOf(raw.dataRefs).deltas);
      n < |entries| && Names(entries, n, DecimalText(i))
    ensures r.dataRefs.Some? && r.dataRefs.value.deltas.Some?
    ensures var section, k := r.dataRefs.value.deltas.value, DecimalText(IndexNow(ListOf(raw.deltas), AsText, i));
      k in section && EntryFrom(section[k], EntriesOf(SectionsOf(raw.dataRefs).deltas), DecimalText(i), j)
  {
    var d := if r.dataRefs.Some? then r.dataRefs.value else DataRefs(None, None, None);
    j := SectionKeeps(d.deltas, SectionsOf(raw.dataRefs).deltas, ListOf(raw.deltas), AsText, i, n);
  }

  // ---------------------------------------------------------------- metadata

  /** The three checked fields stay exactly if they are texts, or a share between 0 and 1; the
      rest stays; metadata with nothing left is dropped. */
  lemma MetadataMeans(raw: Raw<Metadata>)
    ensures SanitizeMetadata(raw).Some? ==>
      var m, clean := raw.value, SanitizeMetadata(raw).value;
      && raw.Is? && clean.rest == m.rest
      && (clean.generatedAt.Some? <==> m.generatedAt.Some? && m.generatedAt.value.MetaText?)
      && (clean.observatoryRef.Some? <==> m.observatoryRef.Some? && m.observatoryRef.value.MetaText?)
      && (clean.uncertainty.Some? <==>
           && m.uncertainty.Some? && m.uncertainty.value.MetaNumber? && m.uncertainty.value.number.Finite?
           && !(m.uncertainty.value.number.value < 0.0) && !(m.uncertainty.value.number.value > 1.0))
      && (clean.generatedAt.Some? ==> clean.generatedAt == m.generatedAt)
      && (clean.observatoryRef.Some? ==> clean.observatoryRef == m.observatoryRef)
      && (clean.uncertainty.Some? ==> clean.uncertainty == m.uncertainty)
    ensures SanitizeMetadata(raw).None? <==>
      || raw.Other?
      || (&& raw.value.rest == map[]
          && !(raw.value.generatedAt.Some? && raw.value.generatedAt.value.MetaText?)
          && !(raw.value.observatoryRef.Some? && raw.value.observatoryRef.value.MetaText?)
          && !(raw.value.uncertainty.Some? && raw.value.uncertainty.value.MetaNumber?
               && raw.value.uncertainty.value.number.Finite?
               && 0.0 <= raw.value.uncertainty.value.number.value <= 1.0))
  {
  }
}
