/** Parsing of a container image reference such as
    `registry.example.com/my-org/app:v2.0` into its hostname, path, container
    name and tag, and rendering those four fields back into a reference. */
module DockerContainer {
  import opened Results
  import opened Text

  /** The registry assumed when the first segment does not name one. */
  const DefaultHostname: string := "docker.io"

  /** The four fields of a parsed image reference. */
  datatype Container = Container(hostname: string, path: string, containerName: string, tag: string)

  /** The `ValueError` raised when the last segment is not `name:tag`. */
  datatype ValueError = InvalidDockerImagePath {
    function Message(): string {
      "Invalid docker image path"
    }
  }

  /** The only way a parse can fail: the `ValueError` re-raised as a
      `ParsingError`, whose message wraps the original one. */
  datatype ParseError = ParsingError(cause: ValueError) {
    function Message(): string {
      "Failed to parse container info: " + cause.Message()
    }
  }

  /** The shape every parsed reference has: a hostname with a dot and no
      slash, and a name and tag free of both separators. The path is any
      string at all. */
  predicate WellFormed(r: Container)
  {
    && '.' in r.hostname && '/' !in r.hostname
    && '/' !in r.containerName && ':' !in r.containerName
    && '/' !in r.tag && ':' !in r.tag
  }

  /** Decides hostname and path from the `/`-segments of a reference. A first
      segment with a dot is the hostname and the path is the segments strictly
      between it and the last one; otherwise the hostname is the default and the
      path is every segment but the last. A single segment leaves the path empty
      (Python's `[1:-1]` and `[:-1]` of a one-element list are both empty). */
  function ParseHostnameAndPath(components: seq<string>): (r: (string, string))
    requires |components| >= 1
    ensures '.' in r.0
    ensures r.0 == components[0] || r.0 == DefaultHostname
    ensures '/' !in components[0] ==> '/' !in r.0
  {
    assert DefaultHostname[6] == '.';
    if '.' in components[0] then
      (components[0], Join(if |components| >= 2 then components[1..|components| - 1] else [], '/'))
    else
      (DefaultHostname, Join(components[..|components| - 1], '/'))
  }

  /** Splits the last segment on `:`, which must give exactly two pieces. */
  function ParseNameAndTag(s: string): (r: Result<(string, string), ValueError>)
    ensures r.Success? <==> Count(s, ':') == 1
    ensures r.Success? ==> r.value.0 + ":" + r.value.1 == s
    ensures r.Success? ==> ':' !in r.value.0 && ':' !in r.value.1
    ensures r.Failure? ==> r.error == InvalidDockerImagePath
  {
    var nameArray := Split(s, ':');
    SplitCount(s, ':');
    if |nameArray| != 2 then Failure(InvalidDockerImagePath)
    else
      JoinSplit(s, ':');
      SplitPiecesFree(s, ':');
      assert nameArray[1..] == [nameArray[1]];
      Success((nameArray[0], nameArray[1]))
  }

  /** Builds a `Container` from a raw reference string, or fails with
      `ParsingError` and builds nothing. */
  function Parse(raw: string): (r: Result<Container, ParseError>)
    ensures r.Failure? ==> r.error == ParsingError(InvalidDockerImagePath)
    ensures r.Success? ==> WellFormed(r.value)
    ensures r.Success? ==> r.value.hostname == Split(raw, '/')[0] || r.value.hostname == DefaultHostname
    ensures r.Success? ==>
      r.value.containerName + ":" + r.value.tag == Split(raw, '/')[|Split(raw, '/')| - 1]
  {
    var components := Split(raw, '/');
    SplitPiecesFree(raw, '/');
    var hostAndPath := ParseHostnameAndPath(components);
    var last := components[|components| - 1];
    match ParseNameAndTag(last)
    case Failure(e) => Failure(ParsingError(e))
    case Success(nameAndTag) =>
      NoCharInParts(nameAndTag.0, nameAndTag.1, last, '/');
      Success(Container(hostAndPath.0, hostAndPath.1, nameAndTag.0, nameAndTag.1))
  }

  /** Parsing succeeds exactly when the last `/`-segment holds exactly one
      `:`; no colon, or two or more, is a `ParsingError`. */
  lemma ParseAcceptance(raw: string)
    ensures var cs := Split(raw, '/');
      Parse(raw).Success? <==> Count(cs[|cs| - 1], ':') == 1
  {
    var cs := Split(raw, '/');
    assert ParseNameAndTag(cs[|cs| - 1]).Success? <==> Parse(raw).Success?;
  }

  /** A character absent from `name:tag` is absent from both sides. */
  lemma NoCharInParts(name: string, tag: string, s: string, ch: char)
    requires name + ":" + tag == s
    requires ch !in s
    ensures ch !in name && ch !in tag
  {
    assert name == s[..|name|];
    assert tag == s[|name| + 1..];
  }

  /** The reference as a string: `hostname/name:tag` when the path is empty,
      `hostname/path/name:tag` otherwise. Either way it opens with the
      hostname and a `/` and closes with `/name:tag`. */
  function FullName(r: Container): (s: string)
    ensures r.hostname + "/" <= s
    ensures var nameTag := "/" + r.containerName + ":" + r.tag;
      |nameTag| <= |s| && s[|s| - |nameTag|..] == nameTag
  {
    if r.path == "" then r.hostname + "/" + r.containerName + ":" + r.tag
    else r.hostname + "/" + r.path + "/" + r.containerName + ":" + r.tag
  }
}
