/** The re-indexing sanitizer of daily insights (src/insights.ts).  Every raw value is either
    of the shape the code looks for or something else it discards. */
module Insights {
  import opened Common
  import opened JsText

  type RawText = Raw<JsString>

  /** A JSON number as read; `NaN` and infinities are not finite. */
  datatype Number = Finite(value: real) | NotFinite

  datatype Topic = Topic(name: JsString, weight: real)

  /** A two-element array of a string and a number. */
  type RawTopic = Raw<(JsString, Number)>

  /** An object with `refs` and `drilldown_url`. */
  type RawEntry = Raw<RawEntryFields>
  datatype RawEntryFields = RawEntryFields(refs: Raw<seq<RawText>>, drilldown: RawText)

  datatype Entry = Entry(refs: seq<JsString>, drilldown: Option<JsString>)

  /** An object in the order `Object.entries` lists it. */
  type RawSection = Raw<seq<(JsString, RawEntry)>>

  type Section = map<JsString, Entry>

  datatype RawDataRefs = RawDataRefs(topics: RawSection, questions: RawSection, deltas: RawSection)
  datatype DataRefs = DataRefs(topics: Option<Section>, questions: Option<Section>, deltas: Option<Section>)

  datatype MetaValue = MetaText(text: JsString) | MetaNumber(number: Number) | MetaOther(id: nat)

  /** An object's own fields: the three the code checks, and the rest. */
  datatype Metadata = Metadata(generatedAt: Option<MetaValue>, observatoryRef: Option<MetaValue>,
                               uncertainty: Option<MetaValue>, rest: map<JsString, MetaValue>)

  datatype RawInsights = RawInsights(
    ts: RawText, topics: Raw<seq<RawTopic>>, questions: Raw<seq<RawText>>, deltas: Raw<seq<RawText>>,
    source: RawText, dataRefs: Raw<RawDataRefs>, metadata: Raw<Metadata>)

  datatype DailyInsights = DailyInsights(
    ts: JsString, topics: seq<Topic>, questions: seq<JsString>, deltas: seq<JsString>,
    source: Option<JsString>, dataRefs: Option<DataRefs>, metadata: Option<Metadata>)

  // ---------------------------------------------------------------- items

  /** `isTopic` */
  function AsTopic(raw: RawTopic): Option<Topic> {
    if raw.Is? && raw.value.1.Finite? then Some(Topic(raw.value.0, raw.value.1.value)) else None
  }

  /** `isString` */
  function AsText(raw: RawText): Option<JsString> {
    if raw.Is? then Some(raw.value) else None
  }

  /** The items an array keeps. */
  function Kept<R, T>(raw: seq<R>, valid: R -> Option<T>): (r: seq<T>)
    ensures |r| <= |raw|
  {
    if raw == [] then []
    else
      var init, last := Kept(raw[..|raw| - 1], valid), valid(raw[|raw| - 1]);
      if last.Some? then init + [last.value] else init
  }

  function Items<R, T>(raw: Raw<seq<R>>, valid: R -> Option<T>): seq<T> {
    if raw.Is? then Kept(raw.value, valid) else []
  }

  /** Where a kept item ends up: after the kept ones before it. */
  ghost predicate IsIndexMap<R, T>(m: map<nat, nat>, raw: seq<R>, valid: R -> Option<T>) {
    && (forall i: nat :: i in m <==> i < |raw| && valid(raw[i]).Some?)
    && (forall i :: i in m ==> m[i] == |Kept(raw[..i], valid)|)
  }

  /** `sanitizeIndexedItems` */
  method SanitizeIndexedItems<R, T>(raw: Raw<seq<R>>, valid: R -> Option<T>)
    returns (items: seq<T>, indexMap: map<nat, nat>)
    ensures items == Items(raw, valid)
    ensures IsIndexMap(indexMap, if raw.Is? then raw.value else [], valid)
  {
    items, indexMap := [], map[];
    if raw.Other? {
      return;
    }
    for index := 0 to |raw.value|
      invariant items == Kept(raw.value[..index], valid)
      invariant forall i: nat :: i in indexMap <==> i < index && valid(raw.value[i]).Some?
      invariant forall i :: i in indexMap ==> indexMap[i] == |Kept(raw.value[..i], valid)|
    {
      var item := valid(raw.value[index]);
      assert raw.value[..index + 1][..index] == raw.value[..index];
      if item.None? {
        continue;
      }
      indexMap := indexMap[index := |items|];
      items := items + [item.value];
    }
    assert raw.value[..|raw.value|] == raw.value;
  }

  lemma {:induction false} KeptGrows<R, T>(raw: seq<R>, valid: R -> Option<T>, i: nat, j: nat)
    requires i < j <= |raw|
    ensures Kept(raw[..i], valid) <= Kept(raw[..j], valid)
    ensures valid(raw[i]).Some? ==>
      && |Kept(raw[..i], valid)| < |Kept(raw[..j], valid)|
      && Kept(raw[..j], valid)[|Kept(raw[..i], valid)|] == valid(raw[i]).value
    decreases j
  {
    assert raw[..j][..j - 1] == raw[..j - 1];
    if i < j - 1 { KeptGrows(raw, valid, i, j - 1); }
  }

  lemma {:induction false} KeptComesFrom<R, T>(raw: seq<R>, valid: R -> Option<T>, k: nat) returns (i: nat)
    requires k < |Kept(raw, valid)|
    ensures i < |raw| && valid(raw[i]).Some? && |Kept(raw[..i], valid)| == k
  {
    var n := |raw| - 1;
    if k < |Kept(raw[..n], valid)| {
      i := KeptComesFrom(raw[..n], valid, k);
      assert raw[..n][..i] == raw[..i];
    } else {
      i := n;
    }
  }

  ghost predicate Injective(m: map<nat, nat>) {
    forall i, j :: i in m && j in m && m[i] == m[j] ==> i == j
  }

  /** The index map is a strictly increasing bijection from the valid positions onto
      0..n-1, and each position keeps its item. */
  lemma IndexMapIsBijection<R, T>(m: map<nat, nat>, raw: seq<R>, valid: R -> Option<T>)
    requires IsIndexMap(m, raw, valid)
    ensures forall i, j :: i in m && j in m && i < j ==> m[i] < m[j]
    ensures Injective(m)
    ensures forall i :: i in m ==> m[i] < |Kept(raw, valid)| && Kept(raw, valid)[m[i]] == valid(raw[i]).value
    ensures forall k: nat :: k in m.Values <==> k < |Kept(raw, valid)|
  {
    assert raw[..|raw|] == raw;
    forall i, j | i in m && j in m && i < j ensures m[i] < m[j] { KeptGrows(raw, valid, i, j); }
    forall i, j | i in m && j in m && i != j ensures m[i] != m[j] {
      if i < j { KeptGrows(raw, valid, i, j); } else { KeptGrows(raw, valid, j, i); }
    }
    forall i | i in m
      ensures m[i] < |Kept(raw, valid)| && Kept(raw, valid)[m[i]] == valid(raw[i]).value
    {
      KeptGrows(raw, valid, i, |raw|);
    }
    forall k: nat
      ensures k in m.Values <==> k < |Kept(raw, valid)|
    {
      if k < |Kept(raw, valid)| {
        var i := KeptComesFrom(raw, valid, k);
        assert i in m && m[i] == k;
      }
      if k in m.Values {
        var i :| i in m && m[i] == k;
      }
    }
  }

  // ---------------------------------------------------------------- entries

  const SLASH: CodeUnit := 47

  /** `isSafeDrilldownUrl`: one leading slash, not two. */
  predicate IsSafe(url: JsString) {
    url != [] && url[0] == SLASH && (|url| == 1 || url[1] != SLASH)
  }

  /** A reference: text that is more than white space, trimmed. */
  function AsRef(raw: RawText): Option<JsString> {
    if raw.Is? && Trim(raw.value) != [] then Some(Trim(raw.value)) else None
  }

  function CleanRefs(raw: seq<RawText>): seq<JsString> { Kept(raw, AsRef) }

  /** `sanitizeDataRefEntry` */
  function SanitizeEntry(raw: RawEntry): Option<Entry> {
    if raw.Other? then None
    else
      var refs := if raw.value.refs.Is? then CleanRefs(raw.value.refs.value) else [];
      if refs == [] then None
      else
        var url := if raw.value.drilldown.Is? then Trim(raw.value.drilldown.value) else [];
        Some(Entry(refs, if IsSafe(url) then Some(url) else None))
  }

  // ---------------------------------------------------------------- sections

  const SAFE_INTEGER: nat := 0x20_0000_0000_0000 // 2^53

  /** A digit string `Number` reads exactly. */
  predicate IsIndexKey(key: JsString) {
    IsDigits(key) && ValueOf(key) < SAFE_INTEGER
  }

  /** `String(Number(key))` */
  function CanonicalKey(key: JsString): JsString
    requires IsIndexKey(key)
  {
    DecimalText(ValueOf(key))
  }

  predicate Spells(key: JsString, canonical: JsString) {
    IsIndexKey(key) && CanonicalKey(key) == canonical
  }

  /** The first valid entry under any spelling of the key. */
  function FirstSpelling(entries: seq<(JsString, RawEntry)>, canonical: JsString): Option<Entry> {
    if entries == [] then None
    else
      var (key, raw) := entries[|entries| - 1];
      var earlier := FirstSpelling(entries[..|entries| - 1], canonical);
      if earlier.Some? then earlier else if Spells(key, canonical) then SanitizeEntry(raw) else None
  }

  /** The first valid entry under the canonical key itself. */
  function FirstExact(entries: seq<(JsString, RawEntry)>, canonical: JsString): Option<Entry> {
    if entries == [] then None
    else
      var (key, raw) := entries[|entries| - 1];
      var earlier := FirstExact(entries[..|entries| - 1], canonical);
      if earlier.Some? then earlier
      else if key == canonical && Spells(key, canonical) then SanitizeEntry(raw) else None
  }

  /** A valid canonical key beats every other spelling; otherwise the first valid one wins. */
  function Chosen(entries: seq<(JsString, RawEntry)>, canonical: JsString): Option<Entry> {
    if FirstExact(entries, canonical).Some? then FirstExact(entries, canonical) else FirstSpelling(entries, canonical)
  }

  ghost predicate IsSection(section: Section, entries: seq<(JsString, RawEntry)>) {
    && (forall c :: c in section <==> Chosen(entries, c).Some?)
    && (forall c :: c in section ==> section[c] == Chosen(entries, c).value)
  }

  lemma {:induction false} ExactIsSpelling(entries: seq<(JsString, RawEntry)>, c: JsString)
    requires FirstExact(entries, c).Some?
    ensures FirstSpelling(entries, c).Some?
  {
    var init := entries[..|entries| - 1];
    if FirstExact(init, c).Some? { ExactIsSpelling(init, c); }
  }

  lemma {:induction false} ChosenIsIndexKey(entries: seq<(JsString, RawEntry)>, c: JsString)
    requires FirstSpelling(entries, c).Some?
    ensures IsIndexKey(c) && CanonicalKey(c) == c
  {
    var init, key := entries[..|entries| - 1], entries[|entries| - 1].0;
    if FirstSpelling(init, c).Some? {
      ChosenIsIndexKey(init, c);
    } else {
      DecimalTextRoundTrip(ValueOf(key));
    }
  }

  /** What one more entry changes: only its own canonical key, and that only if it is
      valid and comes first, or is the first exact one. */
  lemma ChosenStep(entries: seq<(JsString, RawEntry)>, i: nat, c: JsString)
    requires i < |entries|
    ensures var (key, raw) := entries[i];
      var before, after := entries[..i], entries[..i + 1];
      var entry := SanitizeEntry(raw);
      if !Spells(key, c) || entry.None? then
        Chosen(after, c) == Chosen(before, c) && FirstExact(after, c) == FirstExact(before, c)
      else
        && (FirstExact(after, c).Some? <==> FirstExact(before, c).Some? || key == c)
        && Chosen(after, c) ==
             if Chosen(before, c).None? || (FirstExact(before, c).None? && key == c) then entry else Chosen(before, c)
  {
    var before, after := entries[..i], entries[..i + 1];
    assert after[..i] == before && after[i] == entries[i];
    if FirstExact(before, c).Some? { ExactIsSpelling(before, c); }
  }

  /** `sanitizeDataRefSection`; `None` is `undefined`. */
  method SanitizeSection(raw: RawSection) returns (r: Option<Section>)
    ensures r.Some? ==> raw.Is? && r.value != map[] && IsSection(r.value, raw.value)
    ensures r.None? && raw.Is? ==> IsSection(map[], raw.value)
  {
    if raw.Other? {
      return None;
    }
    var section: Section, canonicalSources: map<JsString, bool> := map[], map[];
    for i := 0 to |raw.value|
      invariant IsSection(section, raw.value[..i])
      invariant forall c :: c in section <==> c in canonicalSources
      invariant forall c :: c in section ==> canonicalSources[c] == FirstExact(raw.value[..i], c).Some?
    {
      var (key, value) := raw.value[i];
      forall c { ChosenStep(raw.value, i, c); }
      if !IsIndexKey(key) {
        continue;
      }
      var canonicalKey := CanonicalKey(key);
      var entry := SanitizeEntry(value);
      if entry.None? {
        continue;
      }
      var currentIsCanonical := canonicalKey in canonicalSources && canonicalSources[canonicalKey];
      if canonicalKey !in section || (!currentIsCanonical && key == canonicalKey) {
        section := section[canonicalKey := entry.value];
        canonicalSources := canonicalSources[canonicalKey := key == canonicalKey];
      }
    }
    assert raw.value[..|raw.value|] == raw.value;
    return if section != map[] then Some(section) else None;
  }

  // ---------------------------------------------------------------- remapping

  /** A section's keys are canonical index keys, as `sanitizeDataRefSection` leaves them. */
  ghost predicate Canonical(section: Section) {
    forall k :: k in section ==> IsIndexKey(k) && CanonicalKey(k) == k
  }

  /** An entry under raw index `i` moves to the index the item has now. */
  ghost predicate RemappedAt(remapped: Section, section: Section, m: map<nat, nat>, k: JsString) {
    && (k in remapped <==> exists i :: i in m && DecimalText(i) in section && k == DecimalText(m[i]))
    && (forall i :: i in m && DecimalText(i) in section && k == DecimalText(m[i]) ==>
         k in remapped && remapped[k] == section[DecimalText(i)])
  }

  ghost predicate IsRemapped(remapped: Section, section: Section, m: map<nat, nat>) {
    forall k :: RemappedAt(remapped, section, m, k)
  }

  lemma RemapStep(remapped: Section, done: Section, section: Section, m: map<nat, nat>, key: JsString)
    requires Canonical(section) && Injective(m) && key in section && key !in done
    requires IsRemapped(remapped, done, m)
    ensures var i := ValueOf(key);
      IsRemapped(if i in m then remapped[DecimalText(m[i]) := section[key]] else remapped, done[key := section[key]], m)
  {
    var n := ValueOf(key);
    var more := done[key := section[key]];
    var next := if n in m then remapped[DecimalText(m[n]) := section[key]] else remapped;
    forall k
      ensures RemappedAt(next, more, m, k)
    {
      assert RemappedAt(remapped, done, m, k);
      forall i | i in m
        ensures DecimalText(i) in more <==> DecimalText(i) in done || i == n
        ensures n in m && DecimalText(m[i]) == DecimalText(m[n]) ==> i == n
      {
        DecimalTextRoundTrip(i);
        DecimalTextRoundTrip(m[i]);
        if n in m { DecimalTextRoundTrip(m[n]); }
      }
      if n in m && k == DecimalText(m[n]) {
        assert DecimalText(n) in more;
      }
    }
  }

  /** `remapDataRefSection` */
  method RemapSection(section: Option<Section>, m: map<nat, nat>) returns (r: Option<Section>)
    requires section.Some? ==> Canonical(section.value)
    requires Injective(m)
    ensures r.Some? ==> r.value != map[]
    ensures section.Some? ==> IsRemapped(if r.Some? then r.value else map[], section.value, m)
    ensures section.None? ==> r.None?
  {
    if section.None? || m == map[] {
      return None;
    }
    var remapped: Section := map[];
    var keys := section.value.Keys;
    ghost var done: Section := map[];
    while keys != {}
      invariant keys == section.value.Keys - done.Keys && done.Keys <= section.value.Keys
      invariant forall k :: k in done ==> done[k] == section.value[k]
      invariant IsRemapped(remapped, done, m)
      decreases keys
    {
      var key :| key in keys;
      RemapStep(remapped, done, section.value, m, key);
      keys := keys - {key};
      var index := ValueOf(key);
      if index in m {
        remapped := remapped[DecimalText(m[index]) := section.value[key]];
      }
      done := done[key := section.value[key]];
    }
    forall k | k in section.value ensures k in done { assert k !in section.value.Keys - done.Keys; }
    assert done == section.value;
    return if remapped != map[] then Some(remapped) else None;
  }

  // ---------------------------------------------------------------- what references mean

  function EntriesOf(raw: RawSection): seq<(JsString, RawEntry)> {
    if raw.Is? then raw.value else []
  }

  function OrEmpty(s: Option<Section>): Section {
    if s.Some? then s.value else map[]
  }

  /** Raw item `i` survives and some valid entry refers to it. */
  predicate Refers<R, T>(entries: seq<(JsString, RawEntry)>, items: seq<R>, valid: R -> Option<T>, i: nat) {
    i < |items| && valid(items[i]).Some? && Chosen(entries, DecimalText(i)).Some?
  }

  /** `k` is the index now of raw item `i`, which is referred to. */
  predicate Lands<R, T>(entries: seq<(JsString, RawEntry)>, items: seq<R>, valid: R -> Option<T>, i: nat, k: JsString) {
    Refers(entries, items, valid, i) && k == DecimalText(|Kept(items[..i], valid)|)
  }

  /** The section has an entry under `k` exactly if some surviving item that is referred to
      has the index `k` now, and it is the entry chosen for the item's raw index. */
  ghost predicate FollowsAt<R, T>(out: Section, entries: seq<(JsString, RawEntry)>, items: seq<R>,
                                  valid: R -> Option<T>, k: JsString) {
    && (k in out <==> exists i: nat :: Lands(entries, items, valid, i, k))
    && (forall i: nat :: Lands(entries, items, valid, i, k) ==>
         k in out && out[k] == Chosen(entries, DecimalText(i)).value)
  }

  /** A section whose references follow their items. */
  ghost predicate Follows<R, T>(out: Option<Section>, raw: RawSection, items: seq<R>, valid: R -> Option<T>) {
    && (out.Some? ==> out.value != map[])
    && forall k :: FollowsAt(OrEmpty(out), EntriesOf(raw), items, valid, k)
  }

  lemma RemappedFollows<R, T>(out: Option<Section>, section: Section, raw: RawSection, items: seq<R>,
                              valid: R -> Option<T>, m: map<nat, nat>)
    requires IsSection(section, EntriesOf(raw)) && IsIndexMap(m, items, valid)
    requires IsRemapped(OrEmpty(out), section, m) && (out.Some? ==> out.value != map[])
    ensures Follows(out, raw, items, valid)
  {
    forall k
      ensures FollowsAt(OrEmpty(out), EntriesOf(raw), items, valid, k)
    {
      forall i: nat
        ensures Lands(EntriesOf(raw), items, valid, i, k) <==>
          i in m && DecimalText(i) in section && k == DecimalText(m[i])
      {
        assert DecimalText(i) in section <==> Chosen(EntriesOf(raw), DecimalText(i)).Some?;
      }
      assert RemappedAt(OrEmpty(out), section, m, k);
      if k in OrEmpty(out) {
        var i :| i in m && DecimalText(i) in section && k == DecimalText(m[i]);
        assert Lands(EntriesOf(raw), items, valid, i, k);
      }
    }
  }

  /** One list of the result: sanitized items, and the section that refers to them. */
  method SanitizeList<R, T>(rawItems: Raw<seq<R>>, valid: R -> Option<T>, rawSection: RawSection)
    returns (items: seq<T>, section: Option<Section>)
    ensures items == Items(rawItems, valid)
    ensures Follows(section, rawSection, if rawItems.Is? then rawItems.value else [], valid)
  {
    var raw := if rawItems.Is? then rawItems.value else [];
    var m;
    items, m := SanitizeIndexedItems(rawItems, valid);
    var sanitized := SanitizeSection(rawSection);
    IndexMapIsBijection(m, raw, valid);
    forall c | c in OrEmpty(sanitized) ensures IsIndexKey(c) && CanonicalKey(c) == c {
      if FirstExact(EntriesOf(rawSection), c).Some? { ExactIsSpelling(EntriesOf(rawSection), c); }
      ChosenIsIndexKey(EntriesOf(rawSection), c);
    }
    section := RemapSection(sanitized, m);
    assert IsSection(OrEmpty(sanitized), EntriesOf(rawSection));
    RemappedFollows(section, OrEmpty(sanitized), rawSection, raw, valid, m);
  }

  // ---------------------------------------------------------------- the whole result

  /** `sanitizeMetadata` */
  function SanitizeMetadata(raw: Raw<Metadata>): Option<Metadata> {
    if raw.Other? then None
    else
      var m := raw.value;
      var text := (v: Option<MetaValue>) => if v.Some? && v.value.MetaText? then v else None;
      var share := if m.uncertainty.Some? && m.uncertainty.value.MetaNumber? && m.uncertainty.value.number.Finite?
                      && 0.0 <= m.uncertainty.value.number.value <= 1.0 then m.uncertainty else None;
      var clean := Metadata(text(m.generatedAt), text(m.observatoryRef), share, m.rest);
      if clean == Metadata(None, None, None, map[]) then None else Some(clean)
  }

  function TextOr(raw: RawText): JsString {
    if raw.Is? then Trim(raw.value) else []
  }

  function SectionsOf(raw: Raw<RawDataRefs>): RawDataRefs {
    if raw.Is? then raw.value else RawDataRefs(Other, Other, Other)
  }

  function ListOf<R>(raw: Raw<seq<R>>): seq<R> {
    if raw.Is? then raw.value else []
  }

  ghost predicate RefsFollow(out: Option<DataRefs>, raw: RawInsights) {
    var d := if out.Some? then out.value else DataRefs(None, None, None);
    var sections := SectionsOf(raw.dataRefs);
    && (out.Some? ==> d != DataRefs(None, None, None))
    && Follows(d.topics, sections.topics, ListOf(raw.topics), AsTopic)
    && Follows(d.questions, sections.questions, ListOf(raw.questions), AsText)
    && Follows(d.deltas, sections.deltas, ListOf(raw.deltas), AsText)
  }

  ghost predicate IsSanitized(raw: Raw<RawInsights>, requireTs: bool, r: Option<DailyInsights>) {
    && (r.None? <==>
         || raw.Other?
         || (TextOr(raw.value.ts) == [] &&
              (|| requireTs
               || (Items(raw.value.topics, AsTopic) == [] && Items(raw.value.questions, AsText) == []
                   && Items(raw.value.deltas, AsText) == []))))
    && (r.Some? ==>
         && r.value.ts == TextOr(raw.value.ts)
         && r.value.topics == Items(raw.value.topics, AsTopic)
         && r.value.questions == Items(raw.value.questions, AsText)
         && r.value.deltas == Items(raw.value.deltas, AsText)
         && r.value.source == AsText(raw.value.source)
         && RefsFollow(r.value.dataRefs, raw.value)
         && r.value.metadata == SanitizeMetadata(raw.value.metadata))
  }

  /** `sanitizeDailyInsights`; `None` is null. */
  method SanitizeDailyInsights(raw: Raw<RawInsights>, requireTs: bool) returns (r: Option<DailyInsights>)
    ensures IsSanitized(raw, requireTs, r)
  {
    if raw.Other? {
      return None;
    }
    var data := raw.value;
    var ts := TextOr(data.ts);
    if requireTs && ts == [] {
      return None;
    }
    var sections := SectionsOf(data.dataRefs);
    var topics, topicRefs := SanitizeList(data.topics, AsTopic, sections.topics);
    var questions, questionRefs := SanitizeList(data.questions, AsText, sections.questions);
    var deltas, deltaRefs := SanitizeList(data.deltas, AsText, sections.deltas);
    if ts == [] && topics == [] && questions == [] && deltas == [] {
      return None;
    }
    var refs := DataRefs(topicRefs, questionRefs, deltaRefs);
    return Some(DailyInsights(ts, topics, questions, deltas, AsText(data.source),
                              if refs == DataRefs(None, None, None) then None else Some(refs),
                              SanitizeMetadata(data.metadata)));
  }

  // ---------------------------------------------------------------- idempotence

  /** An entry as the code leaves it. */
  predicate Clean(e: Entry) {
    && e.refs != [] && (forall i :: 0 <= i < |e.refs| ==> e.refs[i] != [] && Trimmed(e.refs[i]))
    && (e.drilldown.Some? ==> Trimmed(e.drilldown.value) && IsSafe(e.drilldown.value))
  }

  lemma {:induction false} CleanRefsAreClean(raw: seq<RawText>)
    ensures forall i :: 0 <= i < |CleanRefs(raw)| ==> CleanRefs(raw)[i] != [] && Trimmed(CleanRefs(raw)[i])
  {
    if raw != [] {
      var n := |raw| - 1;
      CleanRefsAreClean(raw[..n]);
      var init, last := CleanRefs(raw[..n]), AsRef(raw[n]);
      assert CleanRefs(raw) == if last.Some? then init + [last.value] else init;
      if raw[n].Is? { TrimIsTrimmed(raw[n].value); }
    }
  }

  lemma SanitizedEntriesAreClean(raw: RawEntry)
    requires SanitizeEntry(raw).Some?
    ensures Clean(SanitizeEntry(raw).value)
  {
    if raw.value.refs.Is? { CleanRefsAreClean(raw.value.refs.value); }
    if raw.value.drilldown.Is? { TrimIsTrimmed(raw.value.drilldown.value); }
  }

  function TextsBack(s: seq<JsString>): (r: seq<RawText>)
    ensures |r| == |s| && forall i :: 0 <= i < |s| ==> r[i] == Is(s[i])
  {
    seq(|s|, i requires 0 <= i < |s| => Is(s[i]))
  }

  function TopicsBack(s: seq<Topic>): (r: seq<RawTopic>)
    ensures |r| == |s| && forall i :: 0 <= i < |s| ==> r[i] == Is((s[i].name, Finite(s[i].weight)))
  {
    seq(|s|, i requires 0 <= i < |s| => Is((s[i].name, Finite(s[i].weight))))
  }

  /** A sanitized entry read back in; an undefined `drilldown_url` is no string. */
  function EntryBack(e: Entry): RawEntry {
    Is(RawEntryFields(Is(TextsBack(e.refs)), if e.drilldown.Some? then Is(e.drilldown.value) else Other))
  }

  lemma {:induction false} CleanRefsStay(refs: seq<JsString>)
    requires forall i :: 0 <= i < |refs| ==> refs[i] != [] && Trimmed(refs[i])
    ensures CleanRefs(TextsBack(refs)) == refs
  {
    if refs != [] {
      var n := |refs| - 1;
      assert TextsBack(refs)[..n] == TextsBack(refs[..n]);
      CleanRefsStay(refs[..n]);
      TrimIsTrimmed(refs[n]);
    }
  }

  lemma CleanEntriesStay(e: Entry)
    requires Clean(e)
    ensures SanitizeEntry(EntryBack(e)) == Some(e)
  {
    CleanRefsStay(e.refs);
    if e.drilldown.Some? { TrimIsTrimmed(e.drilldown.value); }
  }

  /** Entries of the section, read back in. */
  ghost predicate TakenFrom(entries: seq<(JsString, RawEntry)>, section: Section) {
    forall i :: 0 <= i < |entries| ==> entries[i].0 in section && entries[i].1 == EntryBack(section[entries[i].0])
  }

  ghost predicate HasKey(entries: seq<(JsString, RawEntry)>, key: JsString) {
    exists i :: 0 <= i < |entries| && entries[i].0 == key
  }

  /** `entries` lists the section in some order. */
  ghost predicate Lists(entries: seq<(JsString, RawEntry)>, section: Section) {
    TakenFrom(entries, section) && forall k :: k in section ==> HasKey(entries, k)
  }

  ghost predicate CleanSection(section: Section) {
    Canonical(section) && forall k :: k in section ==> Clean(section[k])
  }

  lemma LastKey(entries: seq<(JsString, RawEntry)>, c: JsString)
    requires entries != []
    ensures var n := |entries| - 1; HasKey(entries, c) <==> HasKey(entries[..n], c) || entries[n].0 == c
  {
    var n := |entries| - 1;
    if i :| 0 <= i < n && entries[i].0 == c { assert entries[..n][i].0 == c; }
    if i :| 0 <= i < n && entries[..n][i].0 == c { assert entries[i].0 == c; }
  }

  lemma {:induction false} ChosenBack(entries: seq<(JsString, RawEntry)>, section: Section, c: JsString)
    requires CleanSection(section) && TakenFrom(entries, section)
    ensures HasKey(entries, c) ==> c in section && FirstExact(entries, c) == Some(section[c])
    ensures !HasKey(entries, c) ==> FirstExact(entries, c).None? && FirstSpelling(entries, c).None?
  {
    if entries != [] {
      var n := |entries| - 1;
      var key := entries[n].0;
      ChosenBack(entries[..n], section, c);
      LastKey(entries, c);
      CleanEntriesStay(section[key]);
      assert Spells(key, c) <==> key == c && Spells(key, key);
    }
  }

  lemma SectionBack(entries: seq<(JsString, RawEntry)>, section: Section, c: JsString)
    requires CleanSection(section) && Lists(entries, section)
    ensures Chosen(entries, c) == if c in section then Some(section[c]) else None
  {
    ChosenBack(entries, section, c);
    if HasKey(entries, c) {
      var i :| 0 <= i < |entries| && entries[i].0 == c;
    }
  }

  lemma {:induction false} ChosenIsClean(entries: seq<(JsString, RawEntry)>, c: JsString)
    ensures FirstExact(entries, c).Some? ==> Clean(FirstExact(entries, c).value)
    ensures FirstSpelling(entries, c).Some? ==> Clean(FirstSpelling(entries, c).value)
  {
    if entries != [] {
      var n := |entries| - 1;
      ChosenIsClean(entries[..n], c);
      if SanitizeEntry(entries[n].1).Some? { SanitizedEntriesAreClean(entries[n].1); }
    }
  }

  lemma {:induction false} KeptIsShorter<R, T>(items: seq<R>, valid: R -> Option<T>)
    ensures |Kept(items, valid)| <= |items|
    ensures (forall i :: 0 <= i < |items| ==> valid(items[i]).Some?) ==> |Kept(items, valid)| == |items|
  {
    if items != [] { KeptIsShorter(items[..|items| - 1], valid); }
  }

  /** The keys of a resulting section are indices of its list, and its entries are clean. */
  lemma LandedIsClean<R, T>(entries: seq<(JsString, RawEntry)>, items: seq<R>, valid: R -> Option<T>,
                            i: nat, k: JsString)
    requires Lands(entries, items, valid, i, k)
    ensures exists j: nat :: j < |Kept(items, valid)| && k == DecimalText(j)
    ensures IsIndexKey(k) && CanonicalKey(k) == k
    ensures Clean(Chosen(entries, DecimalText(i)).value)
  {
    var c, j := DecimalText(i), |Kept(items[..i], valid)|;
    if FirstExact(entries, c).Some? { ExactIsSpelling(entries, c); }
    ChosenIsIndexKey(entries, c);
    ChosenIsClean(entries, c);
    DecimalTextRoundTrip(i);
    KeptIsShorter(items[..i], valid);
    DecimalTextRoundTrip(j);
    KeptGrows(items, valid, i, |items|);
    assert items[..|items|] == items;
  }

  lemma FollowingKeyIsClean<R, T>(out: Option<Section>, raw: RawSection, items: seq<R>, valid: R -> Option<T>,
                                  k: JsString)
    requires Follows(out, raw, items, valid) && k in OrEmpty(out)
    ensures exists j: nat :: j < |Kept(items, valid)| && k == DecimalText(j)
    ensures IsIndexKey(k) && CanonicalKey(k) == k && Clean(OrEmpty(out)[k])
  {
    assert FollowsAt(OrEmpty(out), EntriesOf(raw), items, valid, k);
    var i: nat :| Lands(EntriesOf(raw), items, valid, i, k);
    LandedIsClean(EntriesOf(raw), items, valid, i, k);
  }

  ghost predicate ReadsBack(raw: RawSection, out: Option<Section>) {
    if out.Some? then raw.Is? && Lists(raw.value, out.value) else raw.Other?
  }

  ghost predicate AllValid<R, T>(items: seq<R>, valid: R -> Option<T>) {
    forall i :: 0 <= i < |items| ==> valid(items[i]).Some?
  }

  lemma AllValidLands<R, T>(entries: seq<(JsString, RawEntry)>, items: seq<R>, valid: R -> Option<T>,
                            i: nat, k: JsString)
    requires AllValid(items, valid)
    ensures Lands(entries, items, valid, i, k) <==> i < |items| && k == DecimalText(i) && Chosen(entries, k).Some?
  {
    if i <= |items| { KeptIsShorter(items[..i], valid); }
  }

  /** Against a list of valid items only, references keep their indices. */
  lemma AllValidKeepsIndices<R, T>(again: Option<Section>, raw: RawSection, items: seq<R>, valid: R -> Option<T>,
                                   k: JsString)
    requires AllValid(items, valid) && Follows(again, raw, items, valid)
    ensures k in OrEmpty(again) <==>
      Chosen(EntriesOf(raw), k).Some? && exists j: nat :: j < |items| && k == DecimalText(j)
    ensures k in OrEmpty(again) ==> OrEmpty(again)[k] == Chosen(EntriesOf(raw), k).value
  {
    assert FollowsAt(OrEmpty(again), EntriesOf(raw), items, valid, k);
    if k in OrEmpty(again) {
      var i: nat :| Lands(EntriesOf(raw), items, valid, i, k);
      AllValidLands(EntriesOf(raw), items, valid, i, k);
    }
    if Chosen(EntriesOf(raw), k).Some? && exists j: nat :: j < |items| && k == DecimalText(j) {
      var j: nat :| j < |items| && k == DecimalText(j);
      AllValidLands(EntriesOf(raw), items, valid, j, k);
    }
  }

  lemma FollowingIsClean<R, T>(out: Option<Section>, raw: RawSection, items: seq<R>, valid: R -> Option<T>)
    requires Follows(out, raw, items, valid)
    ensures CleanSection(OrEmpty(out))
  {
    forall k | k in OrEmpty(out)
      ensures IsIndexKey(k) && CanonicalKey(k) == k && Clean(OrEmpty(out)[k])
    {
      FollowingKeyIsClean(out, raw, items, valid, k);
    }
  }

  lemma ChosenAgain(out: Option<Section>, rawAgain: RawSection, k: JsString)
    requires CleanSection(OrEmpty(out)) && ReadsBack(rawAgain, out)
    ensures Chosen(EntriesOf(rawAgain), k) == if k in OrEmpty(out) then Some(OrEmpty(out)[k]) else None
  {
    if out.Some? { SectionBack(rawAgain.value, out.value, k); }
  }

  /** Sanitizing a resulting section again, against its own list, gives it back. */
  lemma SectionIdempotent<R, T>(out: Option<Section>, raw: RawSection, items: seq<R>, valid: R -> Option<T>,
                                again: Option<Section>, rawAgain: RawSection, itemsAgain: seq<R>)
    requires Follows(out, raw, items, valid) && ReadsBack(rawAgain, out)
    requires |itemsAgain| == |Kept(items, valid)| && AllValid(itemsAgain, valid)
    requires Follows(again, rawAgain, itemsAgain, valid)
    ensures again == out
  {
    FollowingIsClean(out, raw, items, valid);
    forall k
      ensures k in OrEmpty(again) ==> k in OrEmpty(out) && OrEmpty(again)[k] == OrEmpty(out)[k]
      ensures k in OrEmpty(out) ==> k in OrEmpty(again)
    {
      ChosenAgain(out, rawAgain, k);
      AllValidKeepsIndices(again, rawAgain, itemsAgain, valid, k);
      if k in OrEmpty(out) { FollowingKeyIsClean(out, raw, items, valid, k); }
    }
    assert OrEmpty(again) == OrEmpty(out);
  }

  /** The result, fed back in; its sections may be listed in any order. */
  ghost predicate ResultBack(raw: RawInsights, r: DailyInsights) {
    var d := if r.dataRefs.Some? then r.dataRefs.value else DataRefs(None, None, None);
    && raw.ts == Is(r.ts)
    && raw.topics == Is(TopicsBack(r.topics))
    && raw.questions == Is(TextsBack(r.questions)) && raw.deltas == Is(TextsBack(r.deltas))
    && raw.source == (if r.source.Some? then Is(r.source.value) else Other)
    && (r.dataRefs.None? <==> raw.dataRefs.Other?)
    && ReadsBack(SectionsOf(raw.dataRefs).topics, d.topics)
    && ReadsBack(SectionsOf(raw.dataRefs).questions, d.questions)
    && ReadsBack(SectionsOf(raw.dataRefs).deltas, d.deltas)
    && raw.metadata == (if r.metadata.Some? then Is(r.metadata.value) else Other)
  }

  lemma {:induction false} TextsKept(s: seq<JsString>)
    ensures Kept(TextsBack(s), AsText) == s
  {
    if s != [] {
      var n := |s| - 1;
      assert TextsBack(s)[..n] == TextsBack(s[..n]);
      TextsKept(s[..n]);
    }
  }

  lemma {:induction false} TopicsKept(s: seq<Topic>)
    ensures Kept(TopicsBack(s), AsTopic) == s
  {
    if s != [] {
      var n := |s| - 1;
      assert TopicsBack(s)[..n] == TopicsBack(s[..n]);
      TopicsKept(s[..n]);
    }
  }

  lemma RefsIdempotent(raw: RawInsights, r: DailyInsights, rawAgain: RawInsights, again: Option<DataRefs>)
    requires r.topics == Items(raw.topics, AsTopic) && r.questions == Items(raw.questions, AsText)
    requires r.deltas == Items(raw.deltas, AsText)
    requires RefsFollow(r.dataRefs, raw) && ResultBack(rawAgain, r) && RefsFollow(again, rawAgain)
    ensures again == r.dataRefs
  {
    var d := if r.dataRefs.Some? then r.dataRefs.value else DataRefs(None, None, None);
    var e := if again.Some? then again.value else DataRefs(None, None, None);
    var s, t := SectionsOf(raw.dataRefs), SectionsOf(rawAgain.dataRefs);
    SectionIdempotent(d.topics, s.topics, ListOf(raw.topics), AsTopic, e.topics, t.topics, ListOf(rawAgain.topics));
    SectionIdempotent(d.questions, s.questions, ListOf(raw.questions), AsText,
                      e.questions, t.questions, ListOf(rawAgain.questions));
    SectionIdempotent(d.deltas, s.deltas, ListOf(raw.deltas), AsText, e.deltas, t.deltas, ListOf(rawAgain.deltas));
  }

  /** Sanitizing is idempotent: a non-null result, fed back in, comes out unchanged. */
  lemma SanitizingIsIdempotent(raw: Raw<RawInsights>, requireTs: bool, r: DailyInsights,
                               rawAgain: RawInsights, again: Option<DailyInsights>)
    requires IsSanitized(raw, requireTs, Some(r)) && ResultBack(rawAgain, r)
    requires IsSanitized(Is(rawAgain), requireTs, again)
    ensures again == Some(r)
  {
    TopicsKept(r.topics);
    TextsKept(r.questions);
    TextsKept(r.deltas);
    if raw.value.ts.Is? { TrimIsTrimmed(raw.value.ts.value); }
    TrimIsTrimmed(r.ts);
    assert TextOr(rawAgain.ts) == r.ts;
    RefsIdempotent(raw.value, r, rawAgain, again.value.dataRefs);
  }
}
