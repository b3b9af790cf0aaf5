/** The bytes `release_tree_sha256` feeds to SHA-256 (scripts/leitstand-release.py), and the
    decoder that shows they determine the listing they came from. */
module DigestStream {
  import opened Common
  import opened ByteCodec

  datatype Record =
    | DirRecord(name: Bytes)
    | LinkRecord(name: Bytes, target: Bytes)
    | FileRecord(name: Bytes, executable: bool, content: Bytes)

  const D: byte := 68
  const F: byte := 70
  const L: byte := 76

  /** Names and link targets come from the file system, which knows no NUL. */
  predicate Plausible(r: Record) {
    NulFree(r.name) && (r.LinkRecord? ==> NulFree(r.target))
  }

  function Flag(executable: bool): Bytes { [if executable then ZERO + 1 else ZERO] }

  /** The header of one record; a file's bytes follow it. */
  function Header(r: Record): Bytes {
    match r
    case DirRecord(name) => [D, NUL] + name + [NUL]
    case LinkRecord(name, target) => [L, NUL] + name + [NUL] + target + [NUL]
    case FileRecord(name, executable, content) =>
      [F, NUL] + name + [NUL] + Flag(executable) + [NUL] + Decimal(|content|) + [NUL]
  }

  function Encode(r: Record): Bytes {
    if r.FileRecord? then Header(r) + r.content else Header(r)
  }

  function Stream(records: seq<Record>): Bytes {
    if records == [] then [] else Encode(records[0]) + Stream(records[1..])
  }

  /** The same bytes, written as a decoder meets them. */
  function Layout(r: Record, rest: Bytes): Bytes {
    match r
    case DirRecord(name) => [D, NUL] + Field(name, rest)
    case LinkRecord(name, target) => [L, NUL] + Field(name, Field(target, rest))
    case FileRecord(name, executable, content) =>
      [F, NUL] + Field(name, Field(Flag(executable), Field(Decimal(|content|), content + rest)))
  }

  lemma PrependTag(tag: Bytes, x: Bytes, rest: Bytes)
    ensures tag + x + [NUL] + rest == tag + Field(x, rest)
  {
  }

  lemma EncodeIsLayout(r: Record, rest: Bytes)
    ensures Encode(r) + rest == Layout(r, rest)
  {
    match r {
      case DirRecord(name) => PrependTag([D, NUL], name, rest);
      case LinkRecord(name, target) =>
        PrependTag([L, NUL] + name + [NUL], target, rest);
        PrependTag([L, NUL], name, Field(target, rest));
      case FileRecord(name, executable, content) =>
        var tag := [F, NUL] + name + [NUL];
        var size := Decimal(|content|);
        assert Encode(r) + rest == Header(r) + (content + rest);
        PrependTag(tag + Flag(executable) + [NUL], size, content + rest);
        PrependTag(tag, Flag(executable), Field(size, content + rest));
        PrependTag([F, NUL], name, Field(Flag(executable), Field(size, content + rest)));
    }
  }

  /** Reads one record off the front. */
  function DecodeOne(s: Bytes): (r: Option<(Record, Bytes)>)
    ensures r.Some? ==> |r.value.1| < |s|
  {
    if |s| < 2 || s[1] != NUL then None
    else
      match UntilNul(s[2..])
      case None => None
      case Some((name, rest)) =>
        if s[0] == D then Some((DirRecord(name), rest))
        else if s[0] == L then DecodeLink(name, rest)
        else if s[0] == F then DecodeFile(name, rest)
        else None
  }

  function DecodeLink(name: Bytes, s: Bytes): (r: Option<(Record, Bytes)>)
    ensures r.Some? ==> |r.value.1| < |s|
  {
    match UntilNul(s)
    case None => None
    case Some((target, rest)) => Some((LinkRecord(name, target), rest))
  }

  function DecodeFile(name: Bytes, s: Bytes): (r: Option<(Record, Bytes)>)
    ensures r.Some? ==> |r.value.1| < |s|
  {
    match UntilNul(s)
    case None => None
    case Some((flag, rest)) => DecodeSized(name, flag == Flag(true), rest)
  }

  function DecodeSized(name: Bytes, executable: bool, s: Bytes): (r: Option<(Record, Bytes)>)
    ensures r.Some? ==> |r.value.1| < |s|
  {
    match UntilNul(s)
    case None => None
    case Some((digits, rest)) =>
      match FromDecimal(digits)
      case None => None
      case Some(size) =>
        if size > |rest| then None else Some((FileRecord(name, executable, rest[..size]), rest[size..]))
  }

  function Decode(s: Bytes): Option<seq<Record>>
    decreases |s|
  {
    if s == [] then Some([])
    else
      match DecodeOne(s)
      case None => None
      case Some((r, rest)) =>
        match Decode(rest)
        case None => None
        case Some(more) => Some([r] + more)
  }

  lemma DecodesLayout(r: Record, rest: Bytes)
    requires Plausible(r)
    ensures DecodeOne(Layout(r, rest)) == Some((r, rest))
  {
    var s := Layout(r, rest);
    match r {
      case DirRecord(name) =>
        assert s[2..] == Field(name, rest);
        FieldRoundTrip(name, rest);
      case LinkRecord(name, target) =>
        assert s[2..] == Field(name, Field(target, rest));
        FieldRoundTrip(name, Field(target, rest));
        FieldRoundTrip(target, rest);
      case FileRecord(name, executable, content) =>
        var sized := Field(Decimal(|content|), content + rest);
        assert s[2..] == Field(name, Field(Flag(executable), sized));
        FieldRoundTrip(name, Field(Flag(executable), sized));
        DecodesBody(name, executable, content, rest);
    }
  }

  lemma DecodesBody(name: Bytes, executable: bool, content: Bytes, rest: Bytes)
    ensures DecodeFile(name, Field(Flag(executable), Field(Decimal(|content|), content + rest)))
      == Some((FileRecord(name, executable, content), rest))
  {
    FieldRoundTrip(Flag(executable), Field(Decimal(|content|), content + rest));
    DecodesSized(name, executable, content, rest);
  }

  lemma DecodesSized(name: Bytes, executable: bool, content: Bytes, rest: Bytes)
    ensures DecodeSized(name, executable, Field(Decimal(|content|), content + rest))
      == Some((FileRecord(name, executable, content), rest))
  {
    DecimalRoundTrip(|content|);
    FieldRoundTrip(Decimal(|content|), content + rest);
    CutsBack(content, rest);
  }

  lemma CutsBack(content: Bytes, rest: Bytes)
    ensures (content + rest)[..|content|] == content && (content + rest)[|content|..] == rest
  {
  }

  /** The stream can be decoded, so equal streams mean equal listings. */
  lemma {:induction false} StreamRoundTrip(records: seq<Record>)
    requires forall r :: r in records ==> Plausible(r)
    ensures Decode(Stream(records)) == Some(records)
  {
    if records != [] {
      var rest := Stream(records[1..]);
      EncodeIsLayout(records[0], rest);
      DecodesLayout(records[0], rest);
      StreamRoundTrip(records[1..]);
      assert [records[0]] + records[1..] == records;
    }
  }

  lemma StreamInjective(a: seq<Record>, b: seq<Record>)
    requires (forall r :: r in a ==> Plausible(r)) && (forall r :: r in b ==> Plausible(r))
    requires Stream(a) == Stream(b)
    ensures a == b
  {
    StreamRoundTrip(a);
    StreamRoundTrip(b);
  }

  lemma StreamOfOne(a: Record)
    ensures Stream([a]) == Encode(a)
  {
    assert [a][1..] == [] && Encode(a) + [] == Encode(a);
  }

  lemma StreamOfMore(a: Record, rest: seq<Record>)
    ensures Stream([a] + rest) == Encode(a) + Stream(rest)
  {
    assert ([a] + rest)[1..] == rest;
  }

  lemma StreamOfThree(a: Record, b: Record, c: Record)
    ensures Stream([a, b, c]) == Encode(a) + (Encode(b) + Encode(c))
  {
    assert [a, b, c] == [a] + ([b] + [c]);
    StreamOfMore(a, [b] + [c]);
    StreamOfMore(b, [c]);
    StreamOfOne(c);
  }

  lemma TwelveInDecimal()
    ensures Decimal(12) == [49, 50]
  {
    assert Decimal(1) == [49] && Digit(2) == 50;
  }

  lemma FileExample(content: Bytes)
    requires |content| == 12
    ensures Encode(FileRecord([100], true, content)) == [70, 0, 100, 0, 49, 0, 49, 50, 0] + content
  {
    TwelveInDecimal();
    var tag: Bytes := [70, 0];
    assert tag + [100] + [0] == [70, 0, 100, 0];
    assert Header(FileRecord([100], true, content)) == [70, 0, 100, 0] + [49] + [0] + [49, 50] + [0];
  }

  /** A directory `a`, a link `b` to `c` and an executable file `d` of twelve bytes, written out. */
  lemma FormatExample(content: Bytes)
    requires |content| == 12
    ensures Stream([DirRecord([97]), LinkRecord([98], [99]), FileRecord([100], true, content)])
      == [68, 0, 97, 0] + ([76, 0, 98, 0, 99, 0] + ([70, 0, 100, 0, 49, 0, 49, 50, 0] + content))
  {
    StreamOfThree(DirRecord([97]), LinkRecord([98], [99]), FileRecord([100], true, content));
    FileExample(content);
    assert Encode(DirRecord([97])) == [68, 0, 97, 0];
    assert Encode(LinkRecord([98], [99])) == [76, 0, 98, 0, 99, 0];
  }

  const CHUNK: nat := 1024 * 1024

  /** One file's bytes, read in chunks. */
  method Feed(digest: Bytes, content: Bytes) returns (r: Bytes)
    ensures r == digest + content
  {
    r := digest;
    var offset := 0;
    while offset < |content|
      invariant 0 <= offset <= |content|
      invariant r == digest + content[..offset]
    {
      var next := if offset + CHUNK < |content| then offset + CHUNK else |content|;
      assert content[..next] == content[..offset] + content[offset..next];
      r := r + content[offset..next];
      offset := next;
    }
    assert content[..|content|] == content;
  }

  lemma {:induction false} StreamConcat(a: seq<Record>, b: seq<Record>)
    ensures Stream(a + b) == Stream(a) + Stream(b)
  {
    if a == [] {
      assert a + b == b;
    } else {
      assert (a + b)[0] == a[0] && (a + b)[1..] == a[1..] + b;
      StreamConcat(a[1..], b);
      assert Encode(a[0]) + (Stream(a[1..]) + Stream(b)) == Encode(a[0]) + Stream(a[1..]) + Stream(b);
    }
  }

  lemma HashStep(before: Bytes, r: Record, rest: Bytes)
    ensures r.FileRecord? ==> before + Header(r) + r.content + rest == before + (Encode(r) + rest)
    ensures !r.FileRecord? ==> before + Header(r) + rest == before + (Encode(r) + rest)
  {
    var e := Encode(r);
    assert before + e + rest == before + (e + rest);
    if r.FileRecord? {
      assert before + Header(r) + r.content == before + e;
    }
  }

  /** The hashing loop: headers in walk order, file bytes in chunks.  `digest` stands for
      what has been fed to the hash object before and after. */
  method HashListing(fed: Bytes, listing: seq<Record>) returns (digest: Bytes)
    ensures digest == fed + Stream(listing)
  {
    digest := fed;
    for i := 0 to |listing|
      invariant digest + Stream(listing[i..]) == fed + Stream(listing)
    {
      var r := listing[i];
      ghost var before := digest;
      assert listing[i..][0] == r && listing[i..][1..] == listing[i + 1..];
      HashStep(before, r, Stream(listing[i + 1..]));
      digest := digest + Header(r);
      if r.FileRecord? {
        digest := Feed(digest, r.content);
      }
    }
    assert digest + [] == digest;
  }
}
