/** Script-safe JSON: `serializeEcosystemMapNavigation`
    (src/controllers/ecosystemMapNavigation.ts) and a reader for what it writes, with the
    string escapes of section 7 of RFC 8259. */
module NavigationJson {
  import opened Common
  import opened JsText

  /** The JSON values a navigation list is made of. */
  datatype Json =
    | JNull
    | JText(text: JsString)
    | JArray(items: seq<Json>)
    | JObject(members: seq<Member>)

  datatype Member = Member(key: JsString, value: Json)

  const QUOTE: CodeUnit := 0x22
  const BACKSLASH: CodeUnit := 0x5C
  const COMMA: CodeUnit := 0x2C
  const COLON: CodeUnit := 0x3A
  const OPEN_ARRAY: CodeUnit := 0x5B
  const CLOSE_ARRAY: CodeUnit := 0x5D
  const OPEN_OBJECT: CodeUnit := 0x7B
  const CLOSE_OBJECT: CodeUnit := 0x7D
  const LETTER_U: CodeUnit := 0x75
  const NULL_WORD: JsString := [0x6E, 0x75, 0x6C, 0x6C]

  // ---------------------------------------------------------------- JSON.stringify

  /** A lower-case hexadecimal digit. */
  function Hex(n: nat): CodeUnit
    requires n < 16
  {
    if n < 10 then 0x30 + n as CodeUnit else 0x61 + (n - 10) as CodeUnit
  }

  /** `\uXXXX` */
  function UnicodeEscape(c: CodeUnit): (r: JsString)
    ensures |r| == 6
  {
    var n := c as nat;
    [BACKSLASH, LETTER_U, Hex(n / 4096), Hex(n / 256 % 16), Hex(n / 16 % 16), Hex(n % 16)]
  }

  predicate IsHigh(c: CodeUnit) { 0xD800 <= c <= 0xDBFF }

  predicate IsLow(c: CodeUnit) { 0xDC00 <= c <= 0xDFFF }

  /** One code unit that is not half of a surrogate pair. */
  function EscapeUnit(c: CodeUnit): JsString {
    if c == QUOTE || c == BACKSLASH then [BACKSLASH, c]
    else if c == 0x08 then [BACKSLASH, 0x62]
    else if c == 0x09 then [BACKSLASH, 0x74]
    else if c == 0x0A then [BACKSLASH, 0x6E]
    else if c == 0x0C then [BACKSLASH, 0x66]
    else if c == 0x0D then [BACKSLASH, 0x72]
    else if c < 0x20 || IsHigh(c) || IsLow(c) then UnicodeEscape(c)
    else [c]
  }

  predicate StartsPair(s: JsString) {
    |s| >= 2 && IsHigh(s[0]) && IsLow(s[1])
  }

  /** String content; surrogate pairs are copied, lone surrogates escaped. */
  function Escape(s: JsString): JsString {
    if s == [] then []
    else if StartsPair(s) then s[..2] + Escape(s[2..])
    else EscapeUnit(s[0]) + Escape(s[1..])
  }

  function Quoted(s: JsString): JsString { [QUOTE] + Escape(s) + [QUOTE] }

  /** `JSON.stringify` without indentation. */
  function Stringify(v: Json): JsString
    decreases v, 1
  {
    match v
    case JNull => NULL_WORD
    case JText(text) => Quoted(text)
    case JArray(items) => [OPEN_ARRAY] + StringifyItems(items) + [CLOSE_ARRAY]
    case JObject(members) => [OPEN_OBJECT] + StringifyMembers(members) + [CLOSE_OBJECT]
  }

  function StringifyItems(items: seq<Json>): JsString
    decreases items, 0
  {
    if items == [] then []
    else if |items| == 1 then Stringify(items[0])
    else Stringify(items[0]) + [COMMA] + StringifyItems(items[1..])
  }

  function StringifyMembers(members: seq<Member>): JsString
    decreases members, 0
  {
    if members == [] then []
    else
      var first := Quoted(members[0].key) + [COLON] + Stringify(members[0].value);
      if |members| == 1 then first else first + [COMMA] + StringifyMembers(members[1..])
  }

  // ---------------------------------------------------------------- the replacements

  const LESS_THAN: CodeUnit := 0x3C
  const GREATER_THAN: CodeUnit := 0x3E
  const AMPERSAND: CodeUnit := 0x26
  const LINE_SEPARATOR: CodeUnit := 0x2028
  const PARAGRAPH_SEPARATOR: CodeUnit := 0x2029

  predicate IsUnsafe(c: CodeUnit) {
    c == LESS_THAN || c == GREATER_THAN || c == AMPERSAND || c == LINE_SEPARATOR || c == PARAGRAPH_SEPARATOR
  }

  /** `text.replace(/c/g, replacement)` */
  function ReplaceAll(text: JsString, c: CodeUnit, replacement: JsString): JsString {
    if text == [] then []
    else (if text[0] == c then replacement else [text[0]]) + ReplaceAll(text[1..], c, replacement)
  }

  /** The five replacements, one after the other. */
  function Harden(text: JsString): JsString {
    var t1 := ReplaceAll(text, LESS_THAN, UnicodeEscape(LESS_THAN));
    var t2 := ReplaceAll(t1, GREATER_THAN, UnicodeEscape(GREATER_THAN));
    var t3 := ReplaceAll(t2, AMPERSAND, UnicodeEscape(AMPERSAND));
    var t4 := ReplaceAll(t3, LINE_SEPARATOR, UnicodeEscape(LINE_SEPARATOR));
    ReplaceAll(t4, PARAGRAPH_SEPARATOR, UnicodeEscape(PARAGRAPH_SEPARATOR))
  }

  lemma {:induction false} ReplaceAllConcat(a: JsString, b: JsString, c: CodeUnit, r: JsString)
    ensures ReplaceAll(a + b, c, r) == ReplaceAll(a, c, r) + ReplaceAll(b, c, r)
  {
    if a == [] {
      assert a + b == b;
    } else {
      assert (a + b)[1..] == a[1..] + b;
      ReplaceAllConcat(a[1..], b, c, r);
      var first := if a[0] == c then r else [a[0]];
      Associate(first, ReplaceAll(a[1..], c, r), ReplaceAll(b, c, r));
    }
  }

  lemma HardenConcat(a: JsString, b: JsString)
    ensures Harden(a + b) == Harden(a) + Harden(b)
  {
    var a1 := ReplaceAll(a, LESS_THAN, UnicodeEscape(LESS_THAN));
    var b1 := ReplaceAll(b, LESS_THAN, UnicodeEscape(LESS_THAN));
    var a2 := ReplaceAll(a1, GREATER_THAN, UnicodeEscape(GREATER_THAN));
    var b2 := ReplaceAll(b1, GREATER_THAN, UnicodeEscape(GREATER_THAN));
    var a3 := ReplaceAll(a2, AMPERSAND, UnicodeEscape(AMPERSAND));
    var b3 := ReplaceAll(b2, AMPERSAND, UnicodeEscape(AMPERSAND));
    var a4 := ReplaceAll(a3, LINE_SEPARATOR, UnicodeEscape(LINE_SEPARATOR));
    var b4 := ReplaceAll(b3, LINE_SEPARATOR, UnicodeEscape(LINE_SEPARATOR));
    ReplaceAllConcat(a, b, LESS_THAN, UnicodeEscape(LESS_THAN));
    ReplaceAllConcat(a1, b1, GREATER_THAN, UnicodeEscape(GREATER_THAN));
    ReplaceAllConcat(a2, b2, AMPERSAND, UnicodeEscape(AMPERSAND));
    ReplaceAllConcat(a3, b3, LINE_SEPARATOR, UnicodeEscape(LINE_SEPARATOR));
    ReplaceAllConcat(a4, b4, PARAGRAPH_SEPARATOR, UnicodeEscape(PARAGRAPH_SEPARATOR));
  }

  lemma {:induction false} NothingToReplace(text: JsString, c: CodeUnit, r: JsString)
    requires c !in text
    ensures ReplaceAll(text, c, r) == text
  {
    if text != [] {
      NothingToReplace(text[1..], c, r);
      assert [text[0]] + text[1..] == text;
    }
  }

  lemma SafeStays(text: JsString)
    requires forall c :: c in text ==> !IsUnsafe(c)
    ensures Harden(text) == text
  {
    NothingToReplace(text, LESS_THAN, UnicodeEscape(LESS_THAN));
    NothingToReplace(text, GREATER_THAN, UnicodeEscape(GREATER_THAN));
    NothingToReplace(text, AMPERSAND, UnicodeEscape(AMPERSAND));
    NothingToReplace(text, LINE_SEPARATOR, UnicodeEscape(LINE_SEPARATOR));
    NothingToReplace(text, PARAGRAPH_SEPARATOR, UnicodeEscape(PARAGRAPH_SEPARATOR));
  }

  lemma EscapesAreSafe(c: CodeUnit)
    ensures forall d :: d in UnicodeEscape(c) ==> !IsUnsafe(d)
  {
  }

  lemma ReplaceOne(c: CodeUnit, d: CodeUnit, r: JsString)
    ensures ReplaceAll([c], d, r) == if c == d then r else [c]
  {
    assert [c][1..] == [];
  }

  /** No replacement touches what an earlier one wrote: a unit becomes its escape or stays. */
  lemma HardenUnit(c: CodeUnit)
    ensures Harden([c]) == if IsUnsafe(c) then UnicodeEscape(c) else [c]
  {
    if !IsUnsafe(c) {
      SafeStays([c]);
    } else {
      EscapesAreSafe(c);
      var e := UnicodeEscape(c);
      ReplaceOne(c, LESS_THAN, UnicodeEscape(LESS_THAN));
      ReplaceOne(c, GREATER_THAN, UnicodeEscape(GREATER_THAN));
      ReplaceOne(c, AMPERSAND, UnicodeEscape(AMPERSAND));
      ReplaceOne(c, LINE_SEPARATOR, UnicodeEscape(LINE_SEPARATOR));
      ReplaceOne(c, PARAGRAPH_SEPARATOR, UnicodeEscape(PARAGRAPH_SEPARATOR));
      NothingToReplace(e, GREATER_THAN, UnicodeEscape(GREATER_THAN));
      NothingToReplace(e, AMPERSAND, UnicodeEscape(AMPERSAND));
      NothingToReplace(e, LINE_SEPARATOR, UnicodeEscape(LINE_SEPARATOR));
      NothingToReplace(e, PARAGRAPH_SEPARATOR, UnicodeEscape(PARAGRAPH_SEPARATOR));
    }
  }

  /** Nothing of the result can end a script element or a line of it. */
  lemma {:induction false} HardenedIsSafe(text: JsString)
    ensures forall c :: c in Harden(text) ==> !IsUnsafe(c)
  {
    if text == [] {
      SafeStays(text);
    } else {
      var first, rest := [text[0]], text[1..];
      assert text == first + rest;
      HardenConcat(first, rest);
      HardenUnit(text[0]);
      EscapesAreSafe(text[0]);
      HardenedIsSafe(rest);
    }
  }

  // ---------------------------------------------------------------- reading strings

  function HexValue(c: CodeUnit): Option<nat> {
    if 0x30 <= c <= 0x39 then Some((c - 0x30) as nat)
    else if 0x61 <= c <= 0x66 then Some((c - 0x61) as nat + 10)
    else if 0x41 <= c <= 0x46 then Some((c - 0x41) as nat + 10)
    else None
  }

  /** The code unit of four hexadecimal digits. */
  function ReadHex(s: JsString): (r: Option<CodeUnit>)
    requires |s| == 4
  {
    var a, b, c, d := HexValue(s[0]), HexValue(s[1]), HexValue(s[2]), HexValue(s[3]);
    if a.Some? && b.Some? && c.Some? && d.Some? && a.value < 16 && b.value < 16 && c.value < 16 && d.value < 16
    then Some((a.value * 4096 + b.value * 256 + c.value * 16 + d.value) as CodeUnit)
    else None
  }

  /** What a two-character escape stands for. */
  function ShortEscape(c: CodeUnit): Option<CodeUnit> {
    if c == QUOTE || c == BACKSLASH || c == 0x2F then Some(c)
    else if c == 0x62 then Some(0x08)
    else if c == 0x66 then Some(0x0C)
    else if c == 0x6E then Some(0x0A)
    else if c == 0x72 then Some(0x0D)
    else if c == 0x74 then Some(0x09)
    else None
  }

  /** One character of string content: the unit it stands for, and the rest. */
  function ReadUnit(s: JsString): (r: Option<(CodeUnit, JsString)>)
    ensures r.Some? ==> |r.value.1| < |s|
  {
    if s == [] || s[0] == QUOTE || s[0] < 0x20 then None
    else if s[0] != BACKSLASH then Some((s[0], s[1..]))
    else if |s| >= 2 && ShortEscape(s[1]).Some? then Some((ShortEscape(s[1]).value, s[2..]))
    else if |s| >= 6 && s[1] == LETTER_U && ReadHex(s[2..6]).Some? then Some((ReadHex(s[2..6]).value, s[6..]))
    else None
  }

  /** String content up to its closing quote. */
  function ReadText(s: JsString): (r: Option<(JsString, JsString)>)
    ensures r.Some? ==> |r.value.1| < |s|
    decreases |s|
  {
    if s != [] && s[0] == QUOTE then Some(([], s[1..]))
    else
      match ReadUnit(s)
      case None => None
      case Some((c, rest)) =>
        match ReadText(rest)
        case None => None
        case Some((text, after)) => Some(([c] + text, after))
  }

  lemma HexRoundTrip(n: nat)
    requires n < 16
    ensures HexValue(Hex(n)) == Some(n)
  {
  }

  lemma FourDigits(n: nat)
    requires n < 0x10000
    ensures n / 4096 < 16
    ensures n == n / 4096 * 4096 + n / 256 % 16 * 256 + n / 16 % 16 * 16 + n % 16
  {
  }

  lemma ReadHexRoundTrip(c: CodeUnit)
    ensures var n := c as nat;
      ReadHex([Hex(n / 4096), Hex(n / 256 % 16), Hex(n / 16 % 16), Hex(n % 16)]) == Some(c)
  {
    var n := c as nat;
    FourDigits(n);
    HexRoundTrip(n / 4096);
    HexRoundTrip(n / 256 % 16);
    HexRoundTrip(n / 16 % 16);
    HexRoundTrip(n % 16);
  }

  lemma UnicodeEscapeRoundTrip(c: CodeUnit, rest: JsString)
    ensures ReadUnit(UnicodeEscape(c) + rest) == Some((c, rest))
  {
    var n, s := c as nat, UnicodeEscape(c) + rest;
    ReadHexRoundTrip(c);
    assert s[2..6] == [Hex(n / 4096), Hex(n / 256 % 16), Hex(n / 16 % 16), Hex(n % 16)];
    assert s[6..] == rest;
  }

  lemma ShortEscapeRoundTrip(c: CodeUnit, rest: JsString)
    requires |EscapeUnit(c)| == 2
    ensures ReadUnit(EscapeUnit(c) + rest) == Some((c, rest))
  {
    assert (EscapeUnit(c) + rest)[2..] == rest;
  }

  lemma PlainRoundTrip(c: CodeUnit, rest: JsString)
    requires EscapeUnit(c) == [c]
    ensures ReadUnit([c] + rest) == Some((c, rest))
  {
    assert ([c] + rest)[1..] == rest;
  }

  lemma EscapedIsSafe(c: CodeUnit)
    requires !IsUnsafe(c)
    ensures Harden(EscapeUnit(c)) == EscapeUnit(c)
  {
    EscapesAreSafe(c);
    SafeStays(EscapeUnit(c));
  }

  /** A hardened single unit reads back as itself, whatever follows. */
  lemma UnitRoundTrip(c: CodeUnit, rest: JsString)
    ensures ReadUnit(Harden(EscapeUnit(c)) + rest) == Some((c, rest))
    ensures Harden(EscapeUnit(c)) != [] && Harden(EscapeUnit(c))[0] != QUOTE
  {
    if IsUnsafe(c) {
      HardenUnit(c);
      UnicodeEscapeRoundTrip(c, rest);
    } else {
      EscapedIsSafe(c);
      if EscapeUnit(c) == UnicodeEscape(c) {
        UnicodeEscapeRoundTrip(c, rest);
      } else if |EscapeUnit(c)| == 2 {
        ShortEscapeRoundTrip(c, rest);
      } else {
        PlainRoundTrip(c, rest);
      }
    }
  }

  /** One more unit in front of content that reads back. */
  lemma ReadsOneMore(front: JsString, c: CodeUnit, text: JsString, after: JsString, tail: JsString)
    requires front != [] && front[0] != QUOTE && ReadUnit(front + tail) == Some((c, tail))
    requires ReadText(tail) == Some((text, after))
    ensures ReadText(front + tail) == Some(([c] + text, after))
  {
    assert (front + tail)[0] == front[0];
  }

  lemma PairRoundTrip(s: JsString, text: JsString, after: JsString, tail: JsString)
    requires StartsPair(s) && ReadText(tail) == Some((text, after))
    ensures ReadText(s[..2] + tail) == Some((s[..2] + text, after))
  {
    var second := [s[1]] + tail;
    assert second[1..] == tail;
    ReadsOneMore([s[1]], s[1], text, after, tail);
    assert ([s[0]] + second)[1..] == second;
    ReadsOneMore([s[0]], s[0], [s[1]] + text, after, second);
    assert s[..2] + tail == [s[0]] + second;
    assert s[..2] + text == [s[0]] + ([s[1]] + text);
  }

  /** Every string content reads back, runs of backslashes included. */
  lemma {:induction false} TextRoundTrip(s: JsString, rest: JsString)
    ensures ReadText(Harden(Escape(s)) + ([QUOTE] + rest)) == Some((s, rest))
    decreases |s|
  {
    var tail := [QUOTE] + rest;
    if s == [] {
      SafeStays([]);
      assert [] + tail == tail && tail[1..] == rest;
    } else if StartsPair(s) {
      TextRoundTrip(s[2..], rest);
      PairRoundTrip(s, s[2..], rest, Harden(Escape(s[2..])) + tail);
      HardenConcat(s[..2], Escape(s[2..]));
      SafeStays(s[..2]);
      Associate(s[..2], Harden(Escape(s[2..])), tail);
      assert s[..2] + s[2..] == s;
    } else {
      TextRoundTrip(s[1..], rest);
      var front := Harden(EscapeUnit(s[0]));
      UnitRoundTrip(s[0], Harden(Escape(s[1..])) + tail);
      ReadsOneMore(front, s[0], s[1..], rest, Harden(Escape(s[1..])) + tail);
      HardenConcat(EscapeUnit(s[0]), Escape(s[1..]));
      Associate(front, Harden(Escape(s[1..])), tail);
      assert [s[0]] + s[1..] == s;
    }
  }

  lemma Associate(a: JsString, b: JsString, c: JsString)
    ensures a + b + c == a + (b + c)
  {
  }

  // ---------------------------------------------------------------- reading values

  function ReadValue(s: JsString): (r: Option<(Json, JsString)>)
    ensures r.Some? ==> |r.value.1| < |s|
    decreases |s|, 0
  {
    if NULL_WORD <= s then Some((JNull, s[4..]))
    else if s == [] then None
    else if s[0] == QUOTE then
      match ReadText(s[1..])
      case None => None
      case Some((text, rest)) => Some((JText(text), rest))
    else if s[0] == OPEN_ARRAY then
      if |s| > 1 && s[1] == CLOSE_ARRAY then Some((JArray([]), s[2..]))
      else
        match ReadItems(s[1..])
        case None => None
        case Some((items, rest)) => Some((JArray(items), rest))
    else if s[0] == OPEN_OBJECT then
      if |s| > 1 && s[1] == CLOSE_OBJECT then Some((JObject([]), s[2..]))
      else
        match ReadMembers(s[1..])
        case None => None
        case Some((members, rest)) => Some((JObject(members), rest))
    else None
  }

  /** One or more items and the closing bracket. */
  function ReadItems(s: JsString): (r: Option<(seq<Json>, JsString)>)
    ensures r.Some? ==> |r.value.1| < |s|
    decreases |s|, 1
  {
    match ReadValue(s)
    case None => None
    case Some((v, rest)) =>
      if rest == [] then None
      else if rest[0] == CLOSE_ARRAY then Some(([v], rest[1..]))
      else if rest[0] == COMMA then
        match ReadItems(rest[1..])
        case None => None
        case Some((more, after)) => Some(([v] + more, after))
      else None
  }

  function ReadMember(s: JsString): (r: Option<(Member, JsString)>)
    ensures r.Some? ==> |r.value.1| < |s|
    decreases |s|, 0
  {
    if s == [] || s[0] != QUOTE then None
    else
      match ReadText(s[1..])
      case None => None
      case Some((key, rest)) =>
        if rest == [] || rest[0] != COLON then None
        else
          match ReadValue(rest[1..])
          case None => None
          case Some((v, after)) => Some((Member(key, v), after))
  }

  /** One or more members and the closing brace. */
  function ReadMembers(s: JsString): (r: Option<(seq<Member>, JsString)>)
    ensures r.Some? ==> |r.value.1| < |s|
    decreases |s|, 1
  {
    match ReadMember(s)
    case None => None
    case Some((m, rest)) =>
      if rest == [] then None
      else if rest[0] == CLOSE_OBJECT then Some(([m], rest[1..]))
      else if rest[0] == COMMA then
        match ReadMembers(rest[1..])
        case None => None
        case Some((more, after)) => Some(([m] + more, after))
      else None
  }

  lemma HardenWrapped(open: CodeUnit, x: JsString, close: CodeUnit, rest: JsString)
    requires !IsUnsafe(open) && !IsUnsafe(close)
    ensures Harden([open] + x + [close]) + rest == [open] + (Harden(x) + ([close] + rest))
  {
    HardenConcat([open] + x, [close]);
    HardenConcat([open], x);
    SafeStays([open]);
    SafeStays([close]);
    Associate([open], Harden(x), [close]);
    Associate([open], Harden(x) + [close], rest);
    Associate(Harden(x), [close], rest);
  }

  /** A separator between two texts. */
  lemma HardenSeparated(a: JsString, c: CodeUnit, b: JsString, rest: JsString)
    requires !IsUnsafe(c)
    ensures Harden(a + [c] + b) + rest == Harden(a) + ([c] + (Harden(b) + rest))
  {
    HardenConcat(a + [c], b);
    HardenConcat(a, [c]);
    SafeStays([c]);
    Associate(Harden(a), [c], Harden(b));
    Associate(Harden(a), [c] + Harden(b), rest);
    Associate([c], Harden(b), rest);
  }

  lemma QuotedRoundTrip(s: JsString, rest: JsString)
    ensures var text := Harden(Quoted(s)) + rest;
      text[0] == QUOTE && ReadText(text[1..]) == Some((s, rest))
  {
    HardenWrapped(QUOTE, Escape(s), QUOTE, rest);
    var inner := Harden(Escape(s)) + ([QUOTE] + rest);
    assert ([QUOTE] + inner)[1..] == inner;
    TextRoundTrip(s, rest);
  }

  /** The first unit tells a value from a closing bracket. */
  lemma ValueStarts(v: Json, rest: JsString)
    ensures var text := Harden(Stringify(v)) + rest;
      text != [] && text[0] != CLOSE_ARRAY && text[0] != CLOSE_OBJECT
  {
    match v {
      case JNull => SafeStays(NULL_WORD);
      case JText(t) => HardenWrapped(QUOTE, Escape(t), QUOTE, rest);
      case JArray(items) => HardenWrapped(OPEN_ARRAY, StringifyItems(items), CLOSE_ARRAY, rest);
      case JObject(members) => HardenWrapped(OPEN_OBJECT, StringifyMembers(members), CLOSE_OBJECT, rest);
    }
  }

  /** Every value reads back from its hardened text, whatever follows. */
  lemma {:induction false} ValueRoundTrip(v: Json, rest: JsString)
    ensures ReadValue(Harden(Stringify(v)) + rest) == Some((v, rest))
    decreases v, 1
  {
    match v {
      case JNull =>
        SafeStays(NULL_WORD);
        assert (NULL_WORD + rest)[4..] == rest;
      case JText(text) =>
        QuotedRoundTrip(text, rest);
      case JArray(items) =>
        if items != [] { ItemsRoundTrip(items, rest); }
        ArrayReads(items, rest);
      case JObject(members) =>
        if members != [] { MembersRoundTrip(members, rest); }
        ObjectReads(members, rest);
    }
  }

  /** After an opening bracket: at once the closing one, or one or more items. */
  lemma ArrayOpens(inner: JsString)
    requires inner != []
    ensures ReadValue([OPEN_ARRAY] + inner) ==
      if inner[0] == CLOSE_ARRAY then Some((JArray([]), inner[1..]))
      else
        match ReadItems(inner)
        case None => None
        case Some((items, rest)) => Some((JArray(items), rest))
  {
    var s := [OPEN_ARRAY] + inner;
    assert s[1..] == inner && s[2..] == inner[1..];
  }

  lemma ObjectOpens(inner: JsString)
    requires inner != []
    ensures ReadValue([OPEN_OBJECT] + inner) ==
      if inner[0] == CLOSE_OBJECT then Some((JObject([]), inner[1..]))
      else
        match ReadMembers(inner)
        case None => None
        case Some((members, rest)) => Some((JObject(members), rest))
  {
    var s := [OPEN_OBJECT] + inner;
    assert s[1..] == inner && s[2..] == inner[1..];
  }

  /** An array reads back if its items do. */
  lemma ArrayReads(items: seq<Json>, rest: JsString)
    requires var inner := Harden(StringifyItems(items)) + ([CLOSE_ARRAY] + rest);
      items != [] ==> inner[0] != CLOSE_ARRAY && ReadItems(inner) == Some((items, rest))
    ensures ReadValue(Harden(Stringify(JArray(items))) + rest) == Some((JArray(items), rest))
  {
    HardenWrapped(OPEN_ARRAY, StringifyItems(items), CLOSE_ARRAY, rest);
    ArrayOpens(Harden(StringifyItems(items)) + ([CLOSE_ARRAY] + rest));
    if items == [] { SafeStays([]); }
  }

  lemma ObjectReads(members: seq<Member>, rest: JsString)
    requires var inner := Harden(StringifyMembers(members)) + ([CLOSE_OBJECT] + rest);
      members != [] ==> inner[0] != CLOSE_OBJECT && ReadMembers(inner) == Some((members, rest))
    ensures ReadValue(Harden(Stringify(JObject(members))) + rest) == Some((JObject(members), rest))
  {
    HardenWrapped(OPEN_OBJECT, StringifyMembers(members), CLOSE_OBJECT, rest);
    ObjectOpens(Harden(StringifyMembers(members)) + ([CLOSE_OBJECT] + rest));
    if members == [] { SafeStays([]); }
  }

  lemma {:induction false} ItemsRoundTrip(items: seq<Json>, rest: JsString)
    requires items != []
    ensures var text := Harden(StringifyItems(items)) + ([CLOSE_ARRAY] + rest);
      text[0] != CLOSE_ARRAY && ReadItems(text) == Some((items, rest))
    decreases items, 0
  {
    var tail := [CLOSE_ARRAY] + rest;
    if |items| == 1 {
      ValueRoundTrip(items[0], tail);
      ValueStarts(items[0], tail);
      assert tail[1..] == rest && [items[0]] == items;
    } else {
      var more := Harden(StringifyItems(items[1..])) + tail;
      HardenSeparated(Stringify(items[0]), COMMA, StringifyItems(items[1..]), tail);
      ValueRoundTrip(items[0], [COMMA] + more);
      ValueStarts(items[0], [COMMA] + more);
      ItemsRoundTrip(items[1..], rest);
      assert ([COMMA] + more)[1..] == more && [items[0]] + items[1..] == items;
    }
  }

  lemma {:induction false} MemberRoundTrip(m: Member, rest: JsString)
    ensures var text := Harden(Quoted(m.key) + [COLON] + Stringify(m.value)) + rest;
      text[0] == QUOTE && ReadMember(text) == Some((m, rest))
    decreases m, 2
  {
    var value := Harden(Stringify(m.value)) + rest;
    HardenSeparated(Quoted(m.key), COLON, Stringify(m.value), rest);
    QuotedRoundTrip(m.key, [COLON] + value);
    ValueRoundTrip(m.value, rest);
    assert ([COLON] + value)[1..] == value;
  }

  lemma {:induction false} MembersRoundTrip(members: seq<Member>, rest: JsString)
    requires members != []
    ensures var text := Harden(StringifyMembers(members)) + ([CLOSE_OBJECT] + rest);
      text[0] != CLOSE_OBJECT && ReadMembers(text) == Some((members, rest))
    decreases members, 0
  {
    var tail := [CLOSE_OBJECT] + rest;
    if |members| == 1 {
      MemberRoundTrip(members[0], tail);
      assert tail[1..] == rest && [members[0]] == members;
    } else {
      var more := Harden(StringifyMembers(members[1..])) + tail;
      var first := Quoted(members[0].key) + [COLON] + Stringify(members[0].value);
      HardenSeparated(first, COMMA, StringifyMembers(members[1..]), tail);
      MemberRoundTrip(members[0], [COMMA] + more);
      MembersRoundTrip(members[1..], rest);
      assert ([COMMA] + more)[1..] == more && [members[0]] + members[1..] == members;
    }
  }

  // ---------------------------------------------------------------- navigation

  /** `EcosystemMapNodeNavigation`; the two unions of string literals are kept as strings. */
  datatype NodeNavigation = NodeNavigation(
    mermaidId: JsString, nodeId: JsString, name: JsString, href: JsString, title: JsString, targetKind: JsString,
    sourceHref: JsString, purpose: JsString, lifecycleState: JsString, reviewedAt: Option<JsString>)

  function Ascii(s: string): (r: JsString)
    ensures |r| == |s|
  {
    seq(|s|, i requires 0 <= i < |s| => if s[i] < 128 as char then (s[i] as int) as CodeUnit else 0xFFFD)
  }

  function TextOrNull(t: Option<JsString>): Json {
    if t.Some? then JText(t.value) else JNull
  }

  /** The object literal the list is built from, in its own field order. */
  function ToJson(n: NodeNavigation): Json {
    JObject([
      Member(Ascii("mermaid_id"), JText(n.mermaidId)),
      Member(Ascii("node_id"), JText(n.nodeId)),
      Member(Ascii("label"), JText(n.name)),
      Member(Ascii("href"), JText(n.href)),
      Member(Ascii("title"), JText(n.title)),
      Member(Ascii("target_kind"), JText(n.targetKind)),
      Member(Ascii("source_href"), JText(n.sourceHref)),
      Member(Ascii("purpose"), JText(n.purpose)),
      Member(Ascii("lifecycle_state"), JText(n.lifecycleState)),
      Member(Ascii("lifecycle_reviewed_at"), TextOrNull(n.reviewedAt))])
  }

  function ListToJson(navigation: seq<NodeNavigation>): Json {
    JArray(seq(|navigation|, i requires 0 <= i < |navigation| => ToJson(navigation[i])))
  }

  /** `serializeEcosystemMapNavigation` */
  function Serialize(navigation: seq<NodeNavigation>): JsString {
    Harden(Stringify(ListToJson(navigation)))
  }

  /** Parsing the serialized list gives its value back, nothing is left over, and no unit of
      it could end the script element it is put into. */
  lemma SerializeRoundTrip(navigation: seq<NodeNavigation>)
    ensures ReadValue(Serialize(navigation)) == Some((ListToJson(navigation), []))
    ensures forall c :: c in Serialize(navigation) ==> !IsUnsafe(c)
  {
    ValueRoundTrip(ListToJson(navigation), []);
    assert Serialize(navigation) + [] == Serialize(navigation);
    HardenedIsSafe(Stringify(ListToJson(navigation)));
  }

  /** Property lookup; the last member of a name counts. */
  function Find(members: seq<Member>, key: JsString): Option<Json>
    decreases |members|
  {
    if members == [] then None
    else if members[|members| - 1].key == key then Some(members[|members| - 1].value)
    else Find(members[..|members| - 1], key)
  }

  function Property(v: Json, name: string): Option<Json> {
    if v.JObject? then Find(v.members, Ascii(name)) else None
  }

  lemma {:induction false} FindAt(members: seq<Member>, i: nat)
    requires i < |members| && forall j :: i < j < |members| ==> members[j].key != members[i].key
    ensures Find(members, members[i].key) == Some(members[i].value)
    decreases |members|
  {
    if i < |members| - 1 { FindAt(members[..|members| - 1], i); }
  }

  lemma NamesDiffer(a: string, b: string)
    requires |a| != |b| || (|a| > 0 && a[0] < 128 as char && b[0] < 128 as char && a[0] != b[0])
    ensures Ascii(a) != Ascii(b)
  {
    if |a| == |b| { assert Ascii(a)[0] != Ascii(b)[0]; }
  }

  /** The members' names, in their order. */
  function Names(): (r: seq<string>)
    ensures |r| == 10
  {
    ["mermaid_id", "node_id", "label", "href", "title", "target_kind", "source_href", "purpose", "lifecycle_state",
     "lifecycle_reviewed_at"]
  }

  lemma NamesAreDistinct(i: nat, j: nat)
    requires i < j < 10
    ensures Ascii(Names()[i]) != Ascii(Names()[j])
  {
    NamesDiffer(Names()[i], Names()[j]);
  }

  lemma MemberFound(n: NodeNavigation, i: nat)
    requires i < 10
    ensures Property(ToJson(n), Names()[i]) == Some(ToJson(n).members[i].value)
  {
    var members := ToJson(n).members;
    assert forall k :: 0 <= k < 10 ==> members[k].key == Ascii(Names()[k]);
    forall j | i < j < |members| ensures members[j].key != members[i].key { NamesAreDistinct(i, j); }
    FindAt(members, i);
  }

  lemma TextsFound(n: NodeNavigation)
    ensures Property(ToJson(n), "mermaid_id") == Some(JText(n.mermaidId))
    ensures Property(ToJson(n), "node_id") == Some(JText(n.nodeId))
    ensures Property(ToJson(n), "label") == Some(JText(n.name))
    ensures Property(ToJson(n), "href") == Some(JText(n.href))
    ensures Property(ToJson(n), "title") == Some(JText(n.title))
  {
    MemberFound(n, 0);
    MemberFound(n, 1);
    MemberFound(n, 2);
    MemberFound(n, 3);
    MemberFound(n, 4);
  }

  lemma MoreFound(n: NodeNavigation)
    ensures Property(ToJson(n), "target_kind") == Some(JText(n.targetKind))
    ensures Property(ToJson(n), "source_href") == Some(JText(n.sourceHref))
    ensures Property(ToJson(n), "purpose") == Some(JText(n.purpose))
    ensures Property(ToJson(n), "lifecycle_state") == Some(JText(n.lifecycleState))
    ensures Property(ToJson(n), "lifecycle_reviewed_at")
      == Some(if n.reviewedAt.Some? then JText(n.reviewedAt.value) else JNull)
  {
    MemberFound(n, 5);
    MemberFound(n, 6);
    MemberFound(n, 7);
    MemberFound(n, 8);
    MemberFound(n, 9);
  }

  /** In the parsed list, each node has each field under that field's name. */
  lemma FieldsRoundTrip(navigation: seq<NodeNavigation>, i: nat)
    requires i < |navigation|
    ensures var parsed := ReadValue(Serialize(navigation));
      && parsed.Some? && parsed.value.1 == [] && parsed.value.0.JArray? && |parsed.value.0.items| == |navigation|
      && var item, n := parsed.value.0.items[i], navigation[i];
      && Property(item, "mermaid_id") == Some(JText(n.mermaidId))
      && Property(item, "node_id") == Some(JText(n.nodeId))
      && Property(item, "label") == Some(JText(n.name))
      && Property(item, "href") == Some(JText(n.href))
      && Property(item, "title") == Some(JText(n.title))
      && Property(item, "target_kind") == Some(JText(n.targetKind))
      && Property(item, "source_href") == Some(JText(n.sourceHref))
      && Property(item, "purpose") == Some(JText(n.purpose))
      && Property(item, "lifecycle_state") == Some(JText(n.lifecycleState))
      && Property(item, "lifecycle_reviewed_at")
         == Some(if n.reviewedAt.Some? then JText(n.reviewedAt.value) else JNull)
  {
    SerializeRoundTrip(navigation);
    TextsFound(navigation[i]);
    MoreFound(navigation[i]);
  }

  /** So two lists with the same serialization are the same list. */
  lemma SerializeInjective(a: seq<NodeNavigation>, b: seq<NodeNavigation>)
    requires Serialize(a) == Serialize(b)
    ensures a == b
  {
    SerializeRoundTrip(a);
    SerializeRoundTrip(b);
    var x, y := ListToJson(a).items, ListToJson(b).items;
    forall i | 0 <= i < |a|
      ensures a[i] == b[i]
    {
      assert x[i] == y[i];
      assert ToJson(a[i]).members[0] == ToJson(b[i]).members[0] && ToJson(a[i]).members[1] == ToJson(b[i]).members[1];
      assert ToJson(a[i]).members[2] == ToJson(b[i]).members[2] && ToJson(a[i]).members[3] == ToJson(b[i]).members[3];
      assert ToJson(a[i]).members[4] == ToJson(b[i]).members[4] && ToJson(a[i]).members[5] == ToJson(b[i]).members[5];
      assert ToJson(a[i]).members[6] == ToJson(b[i]).members[6] && ToJson(a[i]).members[7] == ToJson(b[i]).members[7];
      assert ToJson(a[i]).members[8] == ToJson(b[i]).members[8] && ToJson(a[i]).members[9] == ToJson(b[i]).members[9];
    }
  }
}
