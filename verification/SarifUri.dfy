/**
  How source paths become URIs in SARIF reports: percent-encoding of path
  segments, relative references, and `file:` URIs.
 */
module SarifUri {
  import opened Outcomes

  /** Paths and URIs as the bytes of their UTF-8 text. */
  type Byte = x: int | 0 <= x < 256
  type Bytes = seq<Byte>

  const SLASH: Byte := 0x2F
  const BACKSLASH: Byte := 0x5C
  const PERCENT: Byte := 0x25
  const COLON: Byte := 0x3A

  // ----- Segments ---------------------------------------------------------------

  predicate IsAlphanumeric(b: Byte) {
    0x41 <= b <= 0x5A || 0x61 <= b <= 0x7A || 0x30 <= b <= 0x39
  }

  /** A byte that stands for itself in a path segment (`pchar` of section 3.3 of RFC 3986, without `%`). */
  predicate IsPlain(b: Byte) {
    || IsAlphanumeric(b)
    || b in {0x2D, 0x2E, 0x5F, 0x7E}                                            // - . _ ~
    || b in {0x21, 0x24, 0x26, 0x27, 0x28, 0x29, 0x2A, 0x2B, 0x2C, 0x3B, 0x3D}  // sub-delimiters
    || b == COLON || b == 0x40
  }

  /** The same bytes by exclusion: the visible ASCII characters without `"`, `#`, `%`, `/`, `<`, `>`, `?`, brackets, braces, backslash, `^`, backtick and bar. */
  lemma PlainByExclusion(b: Byte)
    ensures IsPlain(b) <==>
      && 0x21 <= b <= 0x7E
      && b !in {0x22, 0x23, 0x25, 0x2F, 0x3C, 0x3E, 0x3F, 0x5B, 0x5C, 0x5D, 0x5E, 0x60, 0x7B, 0x7C, 0x7D}
  {
  }

  function HexDigit(n: int): Byte
    requires 0 <= n < 16
  {
    if n < 10 then 0x30 + n else 0x41 + n - 10
  }

  function HexValue(b: Byte): Option<int> {
    if 0x30 <= b <= 0x39 then Some(b - 0x30)
    else if 0x41 <= b <= 0x46 then Some(b - 0x41 + 10)
    else if 0x61 <= b <= 0x66 then Some(b - 0x61 + 10)
    else None
  }

  function EncodeByte(b: Byte): Bytes {
    if IsPlain(b) then [b] else [PERCENT, HexDigit(b / 16), HexDigit(b % 16)]
  }

  function Encode(segment: Bytes): Bytes {
    if segment == [] then [] else EncodeByte(segment[0]) + Encode(segment[1..])
  }

  lemma EncodeStep(out: Bytes, segment: Bytes, i: nat)
    requires i < |segment|
    ensures out + Encode(segment[i..]) == out + EncodeByte(segment[i]) + Encode(segment[i + 1..])
  {
    assert segment[i..][1..] == segment[i + 1..];
  }

  method EncodePathSegment(segment: Bytes) returns (out: Bytes)
    ensures out == Encode(segment)
  {
    out := [];
    assert segment[0..] == segment;
    for i := 0 to |segment|
      invariant out + Encode(segment[i..]) == Encode(segment)
    {
      EncodeStep(out, segment, i);
      if IsPlain(segment[i]) {
        out := out + [segment[i]];
      } else {
        out := out + [PERCENT, HexDigit(segment[i] / 16), HexDigit(segment[i] % 16)];
      }
    }
  }

  /** The bytes a segment stands for; `None` unless it is a sequence of `pchar`s. */
  function Decode(s: Bytes): Option<Bytes>
    decreases |s|
  {
    if s == [] then Some([])
    else if s[0] == PERCENT then
      if |s| < 3 || HexValue(s[1]).None? || HexValue(s[2]).None? then None
      else Prepend(HexValue(s[1]).value * 16 + HexValue(s[2]).value, Decode(s[3..]))
    else if IsPlain(s[0]) then Prepend(s[0], Decode(s[1..]))
    else None
  }

  function Prepend(b: Byte, rest: Option<Bytes>): Option<Bytes> {
    if rest.None? then None else Some([b] + rest.value)
  }

  /** Decoding undoes encoding, and the encoding is a sequence of `pchar`s. */
  lemma {:induction false} DecodeEncode(segment: Bytes)
    ensures Decode(Encode(segment)) == Some(segment)
  {
    if segment != [] {
      DecodeEncode(segment[1..]);
      var b, rest := segment[0], Encode(segment[1..]);
      var e := EncodeByte(b) + rest;
      assert segment == [b] + segment[1..] && !IsPlain(PERCENT);
      if IsPlain(b) {
        assert e[1..] == rest;
      } else {
        assert e[0] == PERCENT && e[1] == HexDigit(b / 16) && e[2] == HexDigit(b % 16) && e[3..] == rest;
        assert b / 16 * 16 + b % 16 == b;
      }
    }
  }

  lemma {:induction false} EncodeHasNoSlash(segment: Bytes)
    ensures SLASH !in Encode(segment)
  {
    if segment != [] {
      EncodeHasNoSlash(segment[1..]);
    }
  }

  // ----- Splitting and joining at slashes -------------------------------------------

  function Split(s: Bytes): (r: seq<Bytes>)
    ensures r != []
  {
    if s == [] then [[]]
    else
      var rest := Split(s[1..]);
      if s[0] == SLASH then [[]] + rest else [[s[0]] + rest[0]] + rest[1..]
  }

  function Join(segments: seq<Bytes>): Bytes {
    if segments == [] then []
    else if |segments| == 1 then segments[0]
    else segments[0] + [SLASH] + Join(segments[1..])
  }

  predicate SlashFree(segments: seq<Bytes>) {
    forall i :: 0 <= i < |segments| ==> SLASH !in segments[i]
  }

  lemma {:induction false} JoinSplit(s: Bytes)
    ensures Join(Split(s)) == s && SlashFree(Split(s))
  {
    if s != [] {
      JoinSplit(s[1..]);
      var rest := Split(s[1..]);
      assert s == [s[0]] + s[1..];
      if s[0] == SLASH {
        assert ([[]] + rest)[1..] == rest;
        assert [] + [SLASH] + Join(rest) == s;
      } else {
        var r := [[s[0]] + rest[0]] + rest[1..];
        assert r[1..] == rest[1..] && Split(s) == r;
        if |rest| > 1 {
          assert ([s[0]] + rest[0]) + [SLASH] + Join(rest[1..]) == [s[0]] + (rest[0] + [SLASH] + Join(rest[1..]));
        }
        assert SlashFree(r) by {
          forall i | 0 <= i < |r| ensures SLASH !in r[i] {
            assert i > 0 ==> r[i] == rest[i];
          }
        }
      }
    }
  }

  lemma {:induction false} SplitPlain(s: Bytes)
    requires SLASH !in s
    ensures Split(s) == [s]
  {
    if s != [] {
      SplitPlain(s[1..]);
      assert s == [s[0]] + s[1..];
    }
  }

  lemma {:induction false} SplitFirst(a: Bytes, rest: Bytes)
    requires SLASH !in a
    ensures Split(a + [SLASH] + rest) == [a] + Split(rest)
  {
    var s := a + [SLASH] + rest;
    if a == [] {
      assert s[1..] == rest;
    } else {
      assert s[1..] == a[1..] + [SLASH] + rest;
      SplitFirst(a[1..], rest);
      assert a == [a[0]] + a[1..];
      assert ([a[1..]] + Split(rest))[1..] == Split(rest);
    }
  }

  lemma {:induction false} SplitJoin(segments: seq<Bytes>)
    requires segments != [] && SlashFree(segments)
    ensures Split(Join(segments)) == segments
  {
    if |segments| == 1 {
      SplitPlain(segments[0]);
    } else {
      SplitJoin(segments[1..]);
      SplitFirst(segments[0], Join(segments[1..]));
    }
  }

  // ----- Relative references ---------------------------------------------------------

  function Normalise(path: Bytes): Bytes {
    seq(|path|, i requires 0 <= i < |path| => if path[i] == BACKSLASH then SLASH else path[i])
  }

  function EncodeAll(segments: seq<Bytes>): seq<Bytes> {
    seq(|segments|, i requires 0 <= i < |segments| => Encode(segments[i]))
  }

  function RelativeUri(path: Bytes): Bytes {
    Join(EncodeAll(Split(Normalise(path))))
  }

  /** Decodes segment by segment and joins the results. */
  function DecodeSegments(segments: seq<Bytes>): Option<seq<Bytes>> {
    if segments == [] then Some([])
    else
      var first, rest := Decode(segments[0]), DecodeSegments(segments[1..]);
      if first.None? || rest.None? then None else Some([first.value] + rest.value)
  }

  function DecodePath(uri: Bytes): Option<Bytes> {
    var segments := DecodeSegments(Split(uri));
    if segments.None? then None else Some(Join(segments.value))
  }

  lemma {:induction false} DecodeSegmentsExact(encoded: seq<Bytes>, segments: seq<Bytes>)
    requires |encoded| == |segments|
    requires forall i :: 0 <= i < |segments| ==> Decode(encoded[i]) == Some(segments[i])
    ensures DecodeSegments(encoded) == Some(segments)
  {
    if encoded != [] {
      DecodeSegmentsExact(encoded[1..], segments[1..]);
      assert segments == [segments[0]] + segments[1..];
    }
  }

  lemma {:induction false} DecodeSegmentsFails(encoded: seq<Bytes>, i: nat)
    requires i < |encoded| && Decode(encoded[i]).None?
    ensures DecodeSegments(encoded).None?
  {
    if i > 0 {
      DecodeSegmentsFails(encoded[1..], i - 1);
    }
  }

  /** The reference decodes back to the path with its backslashes turned into slashes. */
  lemma RelativeUriDecodes(path: Bytes)
    ensures DecodePath(RelativeUri(path)) == Some(Normalise(path))
  {
    var segments := Split(Normalise(path));
    var encoded := EncodeAll(segments);
    JoinSplit(Normalise(path));
    forall i | 0 <= i < |segments| ensures SLASH !in encoded[i] && Decode(encoded[i]) == Some(segments[i]) {
      EncodeHasNoSlash(segments[i]);
      DecodeEncode(segments[i]);
    }
    SplitJoin(encoded);
    DecodeSegmentsExact(encoded, segments);
  }

  lemma RelativeUriInjective(a: Bytes, b: Bytes)
    requires RelativeUri(a) == RelativeUri(b)
    ensures Normalise(a) == Normalise(b)
  {
    RelativeUriDecodes(a);
    RelativeUriDecodes(b);
  }

  /** Two paths have one URI exactly if they differ only in the direction of their slashes. */
  lemma SameUriIff(a: Bytes, b: Bytes)
    ensures RelativeUri(a) == RelativeUri(b) <==>
      |a| == |b| && forall i :: 0 <= i < |a| ==> a[i] == b[i] || (a[i] in {0x2F, 0x5C} && b[i] in {0x2F, 0x5C})
  {
    if RelativeUri(a) == RelativeUri(b) {
      RelativeUriInjective(a, b);
      forall i | 0 <= i < |a| ensures a[i] == b[i] || (a[i] in {0x2F, 0x5C} && b[i] in {0x2F, 0x5C}) {
        assert Normalise(a)[i] == Normalise(b)[i];
      }
    } else {
      assert Normalise(a) != Normalise(b);
    }
  }

  /**
    A relative-path reference must not have a colon in its first segment
    (section 4.2 of RFC 3986). The encoder lets colons through, so its output
    meets that rule exactly for the paths that already do.
   */
  lemma ColonInFirstSegment(path: Bytes)
    ensures COLON in Split(RelativeUri(path))[0] <==> COLON in Split(Normalise(path))[0]
  {
    var segments := Split(Normalise(path));
    var encoded := EncodeAll(segments);
    forall i | 0 <= i < |segments| ensures SLASH !in encoded[i] {
      EncodeHasNoSlash(segments[i]);
    }
    SplitJoin(encoded);
    EncodeKeepsColon(segments[0]);
  }

  lemma {:induction false} EncodeKeepsColon(segment: Bytes)
    ensures COLON in Encode(segment) <==> COLON in segment
  {
    if segment != [] {
      EncodeKeepsColon(segment[1..]);
      assert segment == [segment[0]] + segment[1..];
    }
  }

  // ----- `file:` URIs ----------------------------------------------------------------

  /** Two bytes ending in a colon: taken for a drive and left as they are. */
  predicate LooksLikeDrive(segment: Bytes) {
    |segment| == 2 && segment[1] == COLON
  }

  function EncodeFileSegment(segment: Bytes): Bytes {
    if segment == [] || LooksLikeDrive(segment) then segment else Encode(segment)
  }

  function EncodeFileSegments(segments: seq<Bytes>): seq<Bytes> {
    seq(|segments|, i requires 0 <= i < |segments| => EncodeFileSegment(segments[i]))
  }

  function EncodeFilePath(path: Bytes): Bytes {
    Join(EncodeFileSegments(Split(path)))
  }

  function TrimSlashes(s: Bytes): Bytes {
    if s != [] && s[0] == SLASH then TrimSlashes(s[1..]) else s
  }

  function LeadingSlashes(s: Bytes): (n: nat)
    ensures n <= |s|
  {
    if s != [] && s[0] == SLASH then 1 + LeadingSlashes(s[1..]) else 0
  }

  /** `file:` followed by two slashes. */
  const FILE: Bytes := [0x66, 0x69, 0x6C, 0x65, 0x3A, 0x2F, 0x2F]

  predicate StartsWith(s: Bytes, prefix: Bytes) {
    |prefix| <= |s| && s[..|prefix|] == prefix
  }

  function FileUri(path: Bytes): Bytes {
    var forward := Normalise(path);
    var encoded := EncodeFilePath(forward);
    if StartsWith(forward, [SLASH, SLASH]) && !StartsWith(forward, [SLASH, SLASH, SLASH]) then
      FILE + TrimSlashes(encoded)
    else FILE + [SLASH] + TrimSlashes(encoded)
  }

  lemma EncodeFileSegmentShape(segment: Bytes)
    requires SLASH !in segment
    ensures SLASH !in EncodeFileSegment(segment)
    ensures EncodeFileSegment(segment) == [] <==> segment == []
  {
    EncodeHasNoSlash(segment);
    if segment != [] {
      assert |EncodeByte(segment[0])| > 0;
    }
  }

  /** Leading slashes survive the encoding one to one, so trimming them commutes with it. */
  lemma {:induction false} TrimCommutes(path: Bytes)
    ensures TrimSlashes(EncodeFilePath(path)) == EncodeFilePath(path[LeadingSlashes(path)..])
    ensures path != [] && path[0] != SLASH ==> EncodeFilePath(path) != [] && EncodeFilePath(path)[0] != SLASH
  {
    JoinSplit(path);
    if path != [] && path[0] == SLASH {
      var rest := path[1..];
      TrimCommutes(rest);
      var segments := Split(rest);
      var encoded := EncodeFileSegments([[]] + segments);
      assert encoded == [[]] + EncodeFileSegments(segments);
      assert encoded[1..] == EncodeFileSegments(segments);
      assert EncodeFilePath(path) == [] + [SLASH] + EncodeFilePath(rest);
      assert EncodeFilePath(path)[1..] == EncodeFilePath(rest);
      assert path[LeadingSlashes(path)..] == rest[LeadingSlashes(rest)..];
    } else if path != [] {
      var segments := Split(path);
      EncodeFileSegmentShape(segments[0]);
      var encoded := EncodeFileSegments(segments);
      assert encoded[0] != [] && encoded[0][0] != SLASH;
      assert Join(encoded)[0] == encoded[0][0];
    }
  }

  lemma PrefixSlashes(s: Bytes)
    ensures StartsWith(s, [SLASH, SLASH]) <==> LeadingSlashes(s) >= 2
    ensures StartsWith(s, [SLASH, SLASH, SLASH]) <==> LeadingSlashes(s) >= 3
  {
    if |s| >= 1 {
      assert s[..1] == [s[0]];
    }
    if |s| >= 2 {
      assert s[..2] == [s[0], s[1]] && s[1..][0] == s[1];
    }
    if |s| >= 3 {
      assert s[..3] == [s[0], s[1], s[2]] && s[1..][1..][0] == s[2];
    }
  }

  /** What follows the scheme: the path without its leading slashes, after two of them exactly for a UNC path. */
  lemma FileUriShape(path: Bytes)
    ensures var forward := Normalise(path);
      var k := LeadingSlashes(forward);
      FileUri(path) == (if k == 2 then FILE else FILE + [SLASH]) + EncodeFilePath(forward[k..])
  {
    TrimCommutes(Normalise(path));
    PrefixSlashes(Normalise(path));
  }

  /** The part between the two slashes after the scheme and the next slash. */
  function Authority(uri: Bytes): Bytes
    requires |uri| >= |FILE|
  {
    Split(uri[|FILE|..])[0]
  }

  lemma FirstSegment(s: Bytes)
    ensures Split(s)[0] != [] <==> s != [] && s[0] != SLASH
  {
  }

  lemma AfterScheme(uri: Bytes, unc: bool, rest: Bytes)
    requires uri == (if unc then FILE else FILE + [SLASH]) + EncodeFilePath(rest)
    requires rest == [] || rest[0] != SLASH
    ensures |uri| >= |FILE| && (Authority(uri) != [] <==> unc && rest != [])
  {
    FirstSegment(uri[|FILE|..]);
    if unc {
      assert uri[|FILE|..] == EncodeFilePath(rest);
      TrimCommutes(rest);
      assert rest == [] ==> EncodeFilePath(rest) == [];
    } else {
      assert uri[|FILE|] == SLASH;
    }
  }

  /** A `file:` URI names a host exactly when the path has two leading slashes and something after them. */
  lemma AuthorityIffUnc(path: Bytes)
    ensures |FileUri(path)| >= |FILE|
    ensures var forward := Normalise(path);
      Authority(FileUri(path)) != [] <==> LeadingSlashes(forward) == 2 && |forward| > 2
  {
    var forward := Normalise(path);
    var k := LeadingSlashes(forward);
    FileUriShape(path);
    RestStartsPlain(forward);
    AfterScheme(FileUri(path), k == 2, forward[k..]);
  }

  lemma {:induction false} RestStartsPlain(s: Bytes)
    ensures var rest := s[LeadingSlashes(s)..]; rest == [] || rest[0] != SLASH
  {
    if s != [] && s[0] == SLASH {
      RestStartsPlain(s[1..]);
      assert s[LeadingSlashes(s)..] == s[1..][LeadingSlashes(s[1..])..];
    }
  }

  /** A segment taken for a drive whose first byte cannot stand for itself. */
  predicate Malformed(segment: Bytes) {
    LooksLikeDrive(segment) && !IsPlain(segment[0])
  }

  lemma FileSegmentDecodes(segment: Bytes)
    ensures Malformed(segment) ==> Decode(EncodeFileSegment(segment)).None?
    ensures !Malformed(segment) ==> Decode(EncodeFileSegment(segment)) == Some(segment)
  {
    DecodeEncode(segment);
    if LooksLikeDrive(segment) {
      assert segment[1..] == [COLON] && [COLON][1..] == [];
      assert Decode([COLON]) == Some([COLON]);
      assert segment == [segment[0]] + [COLON];
    }
  }

  /** The encoded path decodes back to the path if and only if it has no malformed drive segment. */
  lemma FilePathDecodes(path: Bytes)
    ensures DecodePath(EncodeFilePath(path)) == Some(path) <==>
            forall i :: 0 <= i < |Split(path)| ==> !Malformed(Split(path)[i])
    ensures DecodePath(EncodeFilePath(path)).None? <==>
            exists i :: 0 <= i < |Split(path)| && Malformed(Split(path)[i])
  {
    var segments := Split(path);
    var encoded := EncodeFileSegments(segments);
    JoinSplit(path);
    forall i | 0 <= i < |segments| ensures SLASH !in encoded[i] {
      EncodeFileSegmentShape(segments[i]);
    }
    SplitJoin(encoded);
    forall i | 0 <= i < |segments|
      ensures Malformed(segments[i]) ==> Decode(encoded[i]).None?
      ensures !Malformed(segments[i]) ==> Decode(encoded[i]) == Some(segments[i])
    {
      FileSegmentDecodes(segments[i]);
    }
    if i :| 0 <= i < |segments| && Malformed(segments[i]) {
      DecodeSegmentsFails(encoded, i);
    } else {
      DecodeSegmentsExact(encoded, segments);
    }
  }
}
