/** The references the project's tests use, and the edge cases the parser
    accepts or rejects, each derived from the general lemmas. References
    that parse are written as the concatenation `FullName` builds. */
module ReferenceExamples {
  import opened Results
  import opened Text
  import opened DockerContainer
  import opened ReferenceProperties

  /** The reference the full-name test uses: it parses into its four fields
      and renders back to itself. */
  lemma NginxParsesAndRenders()
    ensures Parse("docker.io" + "/" + "library" + "/" + "nginx" + ":" + "latest")
         == Success(Container("docker.io", "library", "nginx", "latest"))
    ensures FullName(Parse("docker.io" + "/" + "library" + "/" + "nginx" + ":" + "latest").value)
         == "docker.io" + "/" + "library" + "/" + "nginx" + ":" + "latest"
  {
    var r := Container("docker.io", "library", "nginx", "latest");
    assert WellFormed(r);
    ParseFullName(r);
  }

  /** Consecutive rows of the tests' table: a longer dotted hostname, the
      `docker.io` hostname written out, and a path of several segments that
      keeps its inner `/`. */
  lemma TableRowsParse()
    ensures Parse("registry.example.com" + "/" + "my-org" + "/" + "app" + ":" + "v2.0")
         == Success(Container("registry.example.com", "my-org", "app", "v2.0"))
    ensures Parse("docker.io" + "/" + "stable" + "/" + "mysql" + ":" + "latest")
         == Success(Container("docker.io", "stable", "mysql", "latest"))
    ensures Parse("gitlab.com" + "/" + "group/repo" + "/" + "image" + ":" + "v3.0")
         == Success(Container("gitlab.com", "group/repo", "image", "v3.0"))
  {
    var registry := Container("registry.example.com", "my-org", "app", "v2.0");
    var stable := Container("docker.io", "stable", "mysql", "latest");
    var gitlab := Container("gitlab.com", "group/repo", "image", "v3.0");
    assert WellFormed(registry) && WellFormed(stable) && WellFormed(gitlab);
    ParseFullName(registry);
    ParseFullName(stable);
    ParseFullName(gitlab);
  }

  /** A dotted hostname directly followed by `name:tag` gives an empty path,
      and the reference renders back to itself. */
  lemma EmptyPathParses()
    ensures Parse("cloud.example" + "/" + "my-app" + ":" + "latest")
         == Success(Container("cloud.example", "", "my-app", "latest"))
    ensures FullName(Container("cloud.example", "", "my-app", "latest"))
         == "cloud.example" + "/" + "my-app" + ":" + "latest"
  {
    var r := Container("cloud.example", "", "my-app", "latest");
    assert WellFormed(r);
    ParseFullName(r);
  }

  /** A reference without a colon is rejected. */
  lemma InvalidFormatRejected()
    ensures Parse("invalid-format") == Failure(ParsingError(InvalidDockerImagePath))
  {
    NoColonRejected("invalid-format");
  }

  /** Any single-segment reference without a colon is rejected. */
  lemma NoColonRejected(raw: string)
    requires '/' !in raw && ':' !in raw
    ensures Parse(raw) == Failure(ParsingError(InvalidDockerImagePath))
  {
    SplitNoSeparator(raw, '/');
    CountZero(raw, ':');
    ParseAcceptance(raw);
  }

  /** A lone colon is accepted, with an empty name and an empty tag and the
      default hostname. */
  lemma EmptyNameAndTagAccepted()
    ensures Parse(":") == Success(Container("docker.io", "", "", ""))
  {
  }

  /** A single dotted segment is taken whole as the hostname, colon and tag
      included, while the same segment also supplies the name and tag. The
      dot may sit in the tag alone, as in `nginx:1.25`. */
  lemma DottedSingleSegment()
    ensures Parse("a.b" + ":" + "c") == Success(Container("a.b" + ":" + "c", "", "a.b", "c"))
    ensures Parse("nginx" + ":" + "1.25") == Success(Container("nginx" + ":" + "1.25", "", "nginx", "1.25"))
  {
    SingleSegmentWithHost("a.b", "c");
    SingleSegmentWithHost("nginx", "1.25");
  }

  /** A single segment `name:tag` holding a dot, in the name or in the tag,
      parses with that whole segment as hostname and an empty path. */
  lemma SingleSegmentWithHost(name: string, tag: string)
    requires '.' in name + ":" + tag
    requires '/' !in name && ':' !in name && '/' !in tag && ':' !in tag
    ensures Parse(name + ":" + tag) == Success(Container(name + ":" + tag, "", name, tag))
  {
    var raw := name + ":" + tag;
    assert raw == name + [':'] + tag;
    assert '/' !in raw && '.' in raw;
    SplitNoSeparator(raw, '/');
    SplitConcat(name, tag, ':');
    SplitNoSeparator(name, ':');
    SplitNoSeparator(tag, ':');
  }

  /** A tag that itself holds a colon is rejected. */
  lemma ColonInTagRejected()
    ensures Parse("quay.io" + "/" + "app" + ":" + "v1" + ":" + "rc") == Failure(ParsingError(InvalidDockerImagePath))
  {
    TwoColonsRejected("quay.io", "app", "v1", "rc");
  }

  /** `prefix/name:tag:more` is rejected whatever the prefix, as long as the
      last segment holds no `/`: its two colons make three pieces. */
  lemma TwoColonsRejected(prefix: string, name: string, tag: string, more: string)
    requires '/' !in name && '/' !in tag && '/' !in more
    ensures Parse(prefix + "/" + name + ":" + tag + ":" + more) == Failure(ParsingError(InvalidDockerImagePath))
  {
    var last := name + ":" + tag + ":" + more;
    var raw := prefix + "/" + name + ":" + tag + ":" + more;
    assert raw == prefix + ['/'] + last;
    assert '/' !in last by {
      assert last == name + [':'] + tag + [':'] + more;
    }
    SplitConcat(prefix, last, '/');
    SplitNoSeparator(last, '/');
    assert Count(last, ':') >= 2 by {
      assert last == name + [':'] + (tag + [':'] + more);
      SplitConcat(name, tag + [':'] + more, ':');
      SplitConcat(tag, more, ':');
      SplitCount(last, ':');
    }
    ParseAcceptance(raw);
  }

  /** Without a dotted first segment the hostname is defaulted, so the
      rendering gains a `docker.io/` prefix. */
  lemma DefaultHostnameAdded()
    ensures Parse("library" + "/" + "nginx" + ":" + "latest")
         == Success(Container("docker.io", "library", "nginx", "latest"))
    ensures FullName(Container("docker.io", "library", "nginx", "latest"))
         == "docker.io" + "/" + "library" + "/" + "nginx" + ":" + "latest"
  {
    UndottedTwoSegments("library", "nginx", "latest");
  }

  /** `path/name:tag` with an undotted, slash-free first segment. */
  lemma UndottedTwoSegments(path: string, name: string, tag: string)
    requires '.' !in path && '/' !in path
    requires '/' !in name && ':' !in name && '/' !in tag && ':' !in tag
    ensures Parse(path + "/" + name + ":" + tag) == Success(Container(DefaultHostname, path, name, tag))
  {
    var last := name + ":" + tag;
    var raw := path + "/" + name + ":" + tag;
    assert raw == path + ['/'] + last;
    assert '/' !in last by {
      assert last == name + [':'] + tag;
    }
    SplitConcat(path, last, '/');
    SplitNoSeparator(path, '/');
    SplitNoSeparator(last, '/');
    SplitConcat(name, tag, ':');
    SplitNoSeparator(name, ':');
    SplitNoSeparator(tag, ':');
    assert Split(raw, '/')[..1] == [path];
  }
}
