/** Properties of the image-reference parser: agreement with a
    position-based reference definition, the shape of the rendered name,
    the round trip through `FullName` and idempotence of parsing. */
module ReferenceProperties {
  import opened Results
  import opened Text
  import opened DockerContainer

  /** Reference definition of the parser by positions in the raw string, with
      no lists of segments: the name and tag are the two sides of the one `:`
      after the last `/`, and hostname and path come from the text before the
      first and the last `/`. */
  function SpecParse(raw: string): (r: Result<Container, ParseError>)
  {
    Assemble(SpecHostnameAndPath(raw), SpecNameAndTag(raw[LastIndexOf(raw, '/') + 1..]))
  }

  /** Name and tag by position: the text before and after the first `:`,
      provided no second `:` follows. */
  function SpecNameAndTag(last: string): (r: Result<(string, string), ValueError>)
  {
    var k := IndexOf(last, ':');
    if k == |last| || ':' in last[k + 1..] then Failure(InvalidDockerImagePath)
    else Success((last[..k], last[k + 1..]))
  }

  /** Hostname and path by position. When the text before the first `/`
      holds a dot it is the hostname and the path is the text strictly
      between the first and the last `/`; otherwise the hostname is the
      default and the path is all the text before the last `/`. */
  function SpecHostnameAndPath(raw: string): (r: (string, string))
  {
    var i := LastIndexOf(raw, '/');
    var j := IndexOf(raw, '/');
    var first := raw[..j];
    if '.' in first then (first, if j < i then raw[j + 1..i] else "")
    else (DefaultHostname, if 0 <= i then raw[..i] else "")
  }

  /** The last `/`-segment is the text after the last `/`. */
  lemma LastSegment(raw: string)
    ensures Split(raw, '/')[|Split(raw, '/')| - 1] == raw[LastIndexOf(raw, '/') + 1..]
  {
    SeparatorPositions(raw, '/');
    if LastIndexOf(raw, '/') < 0 {
      assert raw[LastIndexOf(raw, '/') + 1..] == raw;
      SplitNoSeparator(raw, '/');
    } else {
      SplitAtLast(raw, '/');
    }
  }

  /** Name and tag by positions agree with the split on `:`. */
  lemma NameAndTagMatch(last: string)
    ensures ParseNameAndTag(last) == SpecNameAndTag(last)
  {
    SplitInTwo(last, ':');
  }

  /** Hostname and path from the segment list agree with the positions. */
  lemma HostnameAndPathMatch(raw: string)
    ensures ParseHostnameAndPath(Split(raw, '/')) == SpecHostnameAndPath(raw)
  {
    FirstSegment(raw);
    MiddleMatch(raw);
    LeadingMatch(raw);
  }

  /** The first `/`-segment is the text before the first `/`. */
  lemma FirstSegment(raw: string)
    ensures Split(raw, '/')[0] == raw[..IndexOf(raw, '/')]
  {
    SeparatorPositions(raw, '/');
    if LastIndexOf(raw, '/') < 0 {
      SplitNoSeparator(raw, '/');
      assert raw[..IndexOf(raw, '/')] == raw;
    } else {
      SplitAtFirst(raw, '/');
    }
  }

  /** The segments strictly between the first and the last join to the text
      strictly between the first and the last `/` (none when there are fewer
      than two separators). */
  lemma MiddleMatch(raw: string)
    ensures var cs, j, i := Split(raw, '/'), IndexOf(raw, '/'), LastIndexOf(raw, '/');
      Join(if |cs| >= 2 then cs[1..|cs| - 1] else [], '/') == if j < i then raw[j + 1..i] else ""
  {
    var cs, j, i := Split(raw, '/'), IndexOf(raw, '/'), LastIndexOf(raw, '/');
    SeparatorPositions(raw, '/');
    if i < 0 {
      SplitNoSeparator(raw, '/');
    } else if j == i {
      SplitAtOnly(raw, '/');
    } else {
      MiddleOfSeveral(raw);
    }
  }

  /** With two or more separators, the inner segments join to the text
      strictly between the first and the last `/`. */
  lemma MiddleOfSeveral(raw: string)
    requires IndexOf(raw, '/') < LastIndexOf(raw, '/')
    ensures var cs := Split(raw, '/');
      |cs| >= 2 && Join(cs[1..|cs| - 1], '/') == raw[IndexOf(raw, '/') + 1..LastIndexOf(raw, '/')]
  {
    var cs, j, i := Split(raw, '/'), IndexOf(raw, '/'), LastIndexOf(raw, '/');
    SplitBetween(raw, '/');
    assert cs[1..|cs| - 1] == Split(raw[j + 1..i], '/');
    JoinSplit(raw[j + 1..i], '/');
  }

  /** All segments but the last join to the text before the last `/`. */
  lemma LeadingMatch(raw: string)
    ensures var cs, i := Split(raw, '/'), LastIndexOf(raw, '/');
      Join(cs[..|cs| - 1], '/') == if 0 <= i then raw[..i] else ""
  {
    var cs, i := Split(raw, '/'), LastIndexOf(raw, '/');
    SeparatorPositions(raw, '/');
    if i < 0 {
      SplitNoSeparator(raw, '/');
    } else {
      SplitAtLast(raw, '/');
      assert cs[..|cs| - 1] == Split(raw[..i], '/');
      JoinSplit(raw[..i], '/');
    }
  }

  /** Dropping the first and last element of `[a] + m + [b]` leaves `m`. */
  lemma InnerOfWrapped<T>(a: T, m: seq<T>, b: T)
    ensures var w := [a] + m + [b]; w[1..|w| - 1] == m
  {
  }

  /** A sequence of two or more is its first, its inner part and its last. */
  lemma Unwrap<T>(w: seq<T>)
    requires |w| >= 2
    ensures w == [w[0]] + w[1..|w| - 1] + [w[|w| - 1]]
  {
  }

  /** The list-based parser and the position-based definition agree on
      every input, failures included. */
  lemma ParseMatchesSpec(raw: string)
    ensures Parse(raw) == SpecParse(raw)
  {
    var cs := Split(raw, '/');
    var last := raw[LastIndexOf(raw, '/') + 1..];
    LastSegment(raw);
    NameAndTagMatch(last);
    HostnameAndPathMatch(raw);
    ParseInTermsOfSteps(raw);
  }

  /** `Parse` assembled from its two steps. */
  lemma ParseInTermsOfSteps(raw: string)
    ensures var cs := Split(raw, '/');
      Assemble(ParseHostnameAndPath(cs), ParseNameAndTag(cs[|cs| - 1])) == Parse(raw)
  {
  }

  /** The reference built from a hostname and path and the outcome of the
      name and tag step. */
  function Assemble(hostAndPath: (string, string), nameAndTag: Result<(string, string), ValueError>): (r: Result<Container, ParseError>)
  {
    match nameAndTag
    case Failure(e) => Failure(ParsingError(e))
    case Success(nt) => Success(Container(hostAndPath.0, hostAndPath.1, nt.0, nt.1))
  }

  /** The `/`-segments of a rendered reference: the hostname, the segments
      of the path when it is not empty, and `name:tag`. */
  lemma FullNameSegments(r: Container)
    requires WellFormed(r)
    ensures Split(FullName(r), '/') ==
      [r.hostname] + (if r.path == "" then [] else Split(r.path, '/')) + [r.containerName + ":" + r.tag]
  {
    var nameTag := r.containerName + ":" + r.tag;
    assert '/' !in nameTag by {
      assert nameTag == r.containerName + [':'] + r.tag;
    }
    SplitNoSeparator(r.hostname, '/');
    SplitNoSeparator(nameTag, '/');
    if r.path == "" {
      assert FullName(r) == r.hostname + ['/'] + nameTag;
      SplitConcat(r.hostname, nameTag, '/');
    } else {
      assert FullName(r) == r.hostname + ['/'] + (r.path + ['/'] + nameTag);
      SplitConcat(r.hostname, r.path + ['/'] + nameTag, '/');
      SplitConcat(r.path, nameTag, '/');
    }
  }

  /** Every well-formed reference is what its rendering parses to; with
      `Parse` only producing well-formed references, these are exactly the
      values a parse can produce. */
  lemma ParseFullName(r: Container)
    requires WellFormed(r)
    ensures Parse(FullName(r)) == Success(r)
  {
    var nameTag := r.containerName + ":" + r.tag;
    var mid := if r.path == "" then [] else Split(r.path, '/');
    var cs := Split(FullName(r), '/');
    FullNameSegments(r);
    InnerOfWrapped(r.hostname, mid, nameTag);
    assert cs[1..|cs| - 1] == mid;
    assert Join(mid, '/') == r.path by {
      if r.path != "" {
        JoinSplit(r.path, '/');
      }
    }
    assert Split(nameTag, ':') == [r.containerName, r.tag] by {
      SplitConcat(r.containerName, r.tag, ':');
      SplitNoSeparator(r.containerName, ':');
      SplitNoSeparator(r.tag, ':');
    }
  }

  /** Parsing is an idempotent canonicalisation: parsing the rendering of a
      parse result gives the same four fields back, also when the hostname
      was defaulted and the rendering gained a `docker.io/` prefix. */
  lemma ParseIdempotent(raw: string)
    ensures Parse(raw).Success? ==> Parse(FullName(Parse(raw).value)) == Parse(raw)
  {
    if Parse(raw).Success? {
      ParseFullName(Parse(raw).value);
    }
  }

  /** Exactly when rendering reproduces the input: the first `/`-segment
      holds a dot, there are at least two segments, and the segments between
      the first and the last are not a single empty one (`h//n:t` renders as
      `h/n:t`). */
  lemma RoundTripExactly(raw: string)
    ensures var cs := Split(raw, '/');
      Parse(raw).Success? ==>
        (FullName(Parse(raw).value) == raw <==>
          |cs| >= 2 && '.' in cs[0] && cs[1..|cs| - 1] != [""])
  {
    var cs := Split(raw, '/');
    if Parse(raw).Success? {
      if |cs| >= 2 && '.' in cs[0] && cs[1..|cs| - 1] != [""] {
        RoundTripWhenExplicit(raw);
      }
      if FullName(Parse(raw).value) == raw {
        RoundTripOnlyWhenExplicit(raw);
      }
    }
  }

  /** The fields of a successful parse in terms of the `/`-segments. */
  lemma ParsedFields(raw: string)
    requires Parse(raw).Success?
    ensures var cs, r := Split(raw, '/'), Parse(raw).value;
      && r.hostname == (if '.' in cs[0] then cs[0] else DefaultHostname)
      && r.path == (if '.' in cs[0] then Join(if |cs| >= 2 then cs[1..|cs| - 1] else [], '/')
                    else Join(cs[..|cs| - 1], '/'))
      && r.containerName + ":" + r.tag == cs[|cs| - 1]
  {
    var cs := Split(raw, '/');
    var hp := ParseHostnameAndPath(cs);
    assert Parse(raw).value.hostname == hp.0 && Parse(raw).value.path == hp.1;
  }

  /** The "if" half of `RoundTripExactly`: with the hostname written out and
      a path that renders back to its own segments, rendering gives the
      input back. */
  lemma RoundTripWhenExplicit(raw: string)
    requires Parse(raw).Success?
    requires var cs := Split(raw, '/'); |cs| >= 2 && '.' in cs[0] && cs[1..|cs| - 1] != [""]
    ensures FullName(Parse(raw).value) == raw
  {
    var cs, r := Split(raw, '/'), Parse(raw).value;
    var inner := cs[1..|cs| - 1];
    ParsedFields(raw);
    SplitPiecesFree(raw, '/');
    RenderOfSegments(r, inner, cs[|cs| - 1]);
    Unwrap(cs);
    JoinSplit(raw, '/');
  }

  /** A well-formed reference whose path joins some `/`-free segments,
      other than one empty segment, renders as the join of the hostname,
      those segments and `name:tag`. */
  lemma RenderOfSegments(r: Container, inner: seq<string>, nameTag: string)
    requires WellFormed(r)
    requires r.path == Join(inner, '/') && inner != [""]
    requires forall k :: 0 <= k < |inner| ==> '/' !in inner[k]
    requires r.containerName + ":" + r.tag == nameTag
    ensures FullName(r) == Join([r.hostname] + inner + [nameTag], '/')
  {
    assert (if r.path == "" then [] else Split(r.path, '/')) == inner by {
      if inner != [] {
        SplitJoin(inner, '/');
      }
    }
    FullNameSegments(r);
    JoinSplit(FullName(r), '/');
  }

  /** The "only if" half of `RoundTripExactly`: a rendering always has a
      dotted first segment, at least two segments and a middle other than
      one empty segment, so an input that renders to itself has them too. */
  lemma RoundTripOnlyWhenExplicit(raw: string)
    requires Parse(raw).Success?
    requires FullName(Parse(raw).value) == raw
    ensures var cs := Split(raw, '/'); |cs| >= 2 && '.' in cs[0] && cs[1..|cs| - 1] != [""]
  {
    var cs, r := Split(raw, '/'), Parse(raw).value;
    FullNameSegments(r);
    ParsedFields(raw);
    assert |cs| >= 2 && cs[0] == r.hostname;
  }

  /** After a dotted first segment the path is empty exactly when there is
      no middle segment, or the middle is one empty segment as in
      `host.io//name:tag`. There is no middle segment when the input is
      `host/name:tag`, as `cloud.example/my-app:latest` is, or when the
      input is the single segment itself, as `a.b:c` is. */
  lemma EmptyPath(raw: string)
    requires Parse(raw).Success?
    requires '.' in Split(raw, '/')[0]
    ensures var cs := Split(raw, '/');
      Parse(raw).value.path == "" <==> |cs| <= 2 || cs[1..|cs| - 1] == [""]
  {
    var cs := Split(raw, '/');
    ParsedFields(raw);
    JoinEmpty(if |cs| >= 2 then cs[1..|cs| - 1] else [], '/');
  }

  /** The round trip in its common form: a dotted first segment, at least
      two segments and no empty segment make rendering reproduce the input,
      as for `docker.io/library/nginx:latest`. */
  lemma RoundTrip(raw: string)
    requires var cs := Split(raw, '/');
      |cs| >= 2 && '.' in cs[0] && forall k :: 0 <= k < |cs| ==> cs[k] != ""
    ensures Parse(raw).Success? ==> FullName(Parse(raw).value) == raw
  {
    var cs := Split(raw, '/');
    RoundTripExactly(raw);
    if |cs| == 3 {
      assert cs[1] != "";
      assert cs[1..|cs| - 1] == [cs[1]];
    }
  }
}
