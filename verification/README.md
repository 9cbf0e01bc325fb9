# Container image reference parser

A Dafny model of the image-reference parser of `docker-container-utils`. The
`DockerContainer` class splits a reference such as
`registry.example.com/my-org/app:v2.0` into four fields: hostname, path,
container name and tag. Its `full_name` property renders those fields back
into a reference.

The model follows the Python code step by step.

- `Text.Split` and `Text.Join` give `str.split` and `str.join` for a
  one-character separator. `Split` always returns at least one piece.
- `DockerContainer.ParseHostnameAndPath` is `_parse_hostname_and_path`.
  - A dotted first segment becomes the hostname, and the path is the join of
    the segments strictly between the first and the last.
  - Otherwise the hostname is `DefaultHostname` (`docker.io`), and the path is
    every segment but the last.
  - Python's `[1:-1]` and `[:-1]` of a one-element list are empty, and the
    model keeps that.
- `DockerContainer.ParseNameAndTag` is `_parse_name_and_tag`. The last segment
  must split on `:` into exactly two pieces, or a `ValueError` is raised.
- `DockerContainer.Parse` is the constructor together with
  `extract_container_info`. It returns `Success(Container(...))` or
  `Failure(ParsingError(InvalidDockerImagePath))`, the `ValueError` re-raised
  as `ParsingError`.
- `DockerContainer.FullName` is `full_name`.

The properties proved:

- **Acceptance.** A reference parses exactly when its last `/`-segment holds
  exactly one `:`.
- **Shape.** Every result is `WellFormed`:
  - the hostname has a dot and no `/`;
  - name and tag hold neither `/` nor `:`;
  - conversely, every well-formed container is reached by parsing its own
    rendering.
- **Reference definition.** An independent position-based definition,
  `ReferenceProperties.SpecParse`, agrees with `Parse` on every input. It is
  built from the first and last `/` and the first `:`, with no lists.
- **Round trip.** Rendering reproduces the input exactly when:
  - there are at least two segments;
  - the first segment is dotted;
  - the middle segments are not a single empty one.
- **Idempotence.** Parsing a rendered result gives that result back.
- **Examples.** The tests' examples and the edge cases follow from these
  properties.

Some behaviour of the code is easy to misread. The model follows the code:

- The name and tag are not required to be non-empty: `":"` parses to
  `Container("docker.io", "", "", "")`.
- The failure message is the fixed text
  `Failed to parse container info: Invalid docker image path`. It does not
  include the offending reference.
- The docstring of `extract_container_info` says it returns `None` for an
  invalid name. It never does: it either returns the four fields or raises,
  so the constructor's `ValueError` branch cannot be reached.
- A single dotted segment such as `a.b:c` becomes the hostname in full,
  `a.b:c`, and it also supplies the name `a.b` and the tag `c`. A dot in the
  tag alone is enough: `nginx:1.25` gets hostname `nginx:1.25`.

## Model

| member | source | states |
|---|---|---|
| Text.Split | src/docker_container_utils/docker_container.py:74 | splitting never yields an empty list of pieces, as Python's `str.split` guarantees; `components[0]` and `components[-1]` always exist |
| Text.SplitCount | src/docker_container_utils/docker_container.py:117-118 | the number of pieces is the number of separators plus one, so "two pieces" means "exactly one `:`" |
| Text.SplitPiecesFree | src/docker_container_utils/docker_container.py:74 | no piece of a split contains the separator |
| Text.Join | src/docker_container_utils/docker_container.py:99-100 | Python's `"/".join`; it carries no contract of its own, and its meaning is stated by `Text.JoinCount`, `Text.JoinSplit` and `Text.SplitJoin` |
| Text.JoinCount | src/docker_container_utils/docker_container.py:99-100 | joining `n` separator-free pieces puts exactly `n - 1` separators into the result, one between each pair of neighbours |
| Text.JoinSplit | src/docker_container_utils/docker_container.py:99-100 | joining the pieces of a split with the same separator restores the original string |
| Text.SplitJoin | src/docker_container_utils/docker_container.py:99-100 | splitting a join of separator-free pieces gives back those pieces |
| Text.SplitConcat | src/docker_container_utils/docker_container.py:74 | splitting `a + c + b` on `c` gives the pieces of `a` followed by the pieces of `b` |
| Text.JoinEmpty | src/docker_container_utils/docker_container.py:99 | a join is empty exactly for no pieces or one empty piece |
| DockerContainer.ParseHostnameAndPath | src/docker_container_utils/docker_container.py:98-100 | the chosen hostname always contains a dot; it is either the first segment or `docker.io`; it has no `/` when the first segment has none |
| DockerContainer.ParseNameAndTag | src/docker_container_utils/docker_container.py:117-120 | succeeds exactly when the segment has one `:`; then `name + ":" + tag` is the segment and neither part contains `:`; otherwise the error is the invalid-path `ValueError` |
| DockerContainer.Parse | src/docker_container_utils/docker_container.py:73-84 | every failure is `ParsingError` wrapping the invalid-path error; every success is well formed; its hostname is the first segment or `docker.io`; `name:tag` is the last segment |
| DockerContainer.FullName | src/docker_container_utils/docker_container.py:123-127 | a rendering opens with the hostname and a `/` and closes with `/name:tag`, whether or not the path is empty |
| DockerContainer.ParseAcceptance | src/docker_container_utils/docker_container.py:74-84 | a reference parses exactly when its last `/`-segment holds exactly one `:`; no colon or two or more colons are rejected |
| ReferenceProperties.HostnameAndPathMatch | src/docker_container_utils/docker_container.py:98-100 | hostname and path chosen from the list of `/`-segments equal the position-based choice: the text before the first `/` when it holds a dot, with the text strictly between the first and last `/` as path; otherwise `docker.io`, with all the text before the last `/` as path |
| ReferenceProperties.NameAndTagMatch | src/docker_container_utils/docker_container.py:117-120 | splitting the last segment on `:` equals taking the text on either side of its first `:`, and fails exactly when there is no `:` or a second one follows |
| ReferenceProperties.ParseMatchesSpec | src/docker_container_utils/docker_container.py:73-120 | the list-based parser equals, on every input and failures included, the definition by first/last `/` and first `:` positions |
| ReferenceProperties.FullNameSegments | src/docker_container_utils/docker_container.py:123-127 | the rendering of a well-formed container splits on `/` into the hostname, the path's segments when the path is non-empty, and `name:tag` |
| ReferenceProperties.ParseFullName | src/docker_container_utils/docker_container.py:98-127 | every well-formed container is recovered exactly by parsing its rendering, so `WellFormed` describes precisely the results of parsing |
| ReferenceProperties.ParseIdempotent | src/docker_container_utils/docker_container.py:98-127 | re-parsing the rendering of a parse result gives the same result, including when `docker.io/` was added |
| ReferenceProperties.RoundTripExactly | src/docker_container_utils/docker_container.py:98-127 | for a reference that parses, rendering reproduces it if and only if it has at least two segments, a dotted first segment and middle segments other than one empty segment |
| ReferenceProperties.RoundTrip | src/docker_container_utils/docker_container.py:98-127 | a dotted first segment, at least two segments and no empty segment make rendering reproduce the input |
| ReferenceProperties.EmptyPath | src/docker_container_utils/docker_container.py:99 | after a dotted first segment the path is empty exactly when there is no middle segment (the input is `host/name:tag`, or the single segment itself) or the middle is one empty segment |
| ReferenceExamples.NginxParsesAndRenders | tests/test_docker_container.py:35-43 | `docker.io/library/nginx:latest` parses into its four fields and renders back to itself |
| ReferenceExamples.TableRowsParse | tests/test_docker_container.py:9-11 | `registry.example.com/my-org/app:v2.0`, `docker.io/stable/mysql:latest` and `gitlab.com/group/repo/image:v3.0` parse into the table's four fields; the last keeps `group/repo` as its path |
| ReferenceExamples.EmptyPathParses | tests/test_docker_container.py:14 | `cloud.example/my-app:latest` has an empty path and renders back to itself |
| ReferenceExamples.InvalidFormatRejected | tests/test_docker_container.py:28-32 | `invalid-format` is a `ParsingError` |
| ReferenceExamples.NoColonRejected | src/docker_container_utils/docker_container.py:117-119 | any single segment without a colon is rejected |
| ReferenceExamples.EmptyNameAndTagAccepted | src/docker_container_utils/docker_container.py:117-120 | a lone `:` is accepted, with empty name and tag and the default hostname |
| ReferenceExamples.SingleSegmentWithHost | src/docker_container_utils/docker_container.py:98-99 | a single `name:tag` segment with a dot anywhere, in the name or only in the tag, is the hostname in full and the path is empty |
| ReferenceExamples.DottedSingleSegment | src/docker_container_utils/docker_container.py:98-99 | `a.b:c` parses to hostname `a.b:c`, empty path, name `a.b`, tag `c`; `nginx:1.25` likewise gets hostname `nginx:1.25`, name `nginx`, tag `1.25` |
| ReferenceExamples.TwoColonsRejected | src/docker_container_utils/docker_container.py:117-119 | a last segment with two colons is rejected whatever comes before its `/`, slashes included |
| ReferenceExamples.ColonInTagRejected | src/docker_container_utils/docker_container.py:117-119 | `quay.io/app:v1:rc` is rejected |
| ReferenceExamples.UndottedTwoSegments | src/docker_container_utils/docker_container.py:100 | `path/name:tag` with an undotted first segment gets hostname `docker.io` and keeps the first segment as its path |
| ReferenceExamples.DefaultHostnameAdded | tests/test_docker_container.py:39-42 | `library/nginx:latest` parses with hostname `docker.io` and so renders with an added `docker.io/` prefix |

## Left out

- The Docker SDK import, the module-level client and the conditional base
  class (src/docker_container_utils/docker_container.py:8-24). They are a
  foreign library and process state.
- The `enable_client` branch of the constructor
  (src/docker_container_utils/docker_container.py:44-45). It initialises the
  SDK base class and has no effect on the four fields.
- The constructor's `ValueError("Invalid docker image path")` branch
  (src/docker_container_utils/docker_container.py:55-56). It cannot be
  reached, because `extract_container_info` either returns a non-empty
  dictionary or raises.
- `__repr__` (src/docker_container_utils/docker_container.py:129-142). It is
  cosmetic formatting only.
- The `info` dictionary and the instance attributes. `Parse` returns the four
  fields as one immutable `Container`, and there is no object identity or
  mutation.
- The text of Python's exception chaining. The error is modelled as the
  datatypes `ParsingError(InvalidDockerImagePath)`, whose `Message` functions
  give the fixed message text.
- The bulk load/tag/push pipeline
  (src/docker_container_utils/retag_and_push_from_dir.py). It consists of
  threads, queues and calls to an external `docker` process, none of which
  belong to the reference parser.
- Text.Join: it has no `ensures` of its own. Any fact attached to `Join`
  travels into every proof about `Parse` and makes those proofs costly. Its
  behaviour is stated instead by the lemmas `Text.JoinCount`,
  `Text.JoinSplit` and `Text.SplitJoin`.
- DockerContainer.FullName: its own contract fixes only how the rendering
  opens and closes. The whole rendering is stated by
  `ReferenceProperties.FullNameSegments`, and its inverse by
  `ReferenceProperties.ParseFullName`.
