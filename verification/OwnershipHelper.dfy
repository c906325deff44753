// The privileged ownership helper: which requests it serves, how it matches observed paths to requested
// roots, and that the client accepts what it answers.

module OwnershipHelper {
  import opened Wrappers
  import opened Paths
  import opened Retained

  const PROTOCOL_VERSION: nat := 2
  const CONFIG_VERSION: nat := 1
  const MAX_REQUEST_ROOTS: nat := 2048
  const MAX_MATCHED_OBSERVATIONS: nat := 250000
  const BACKEND: string := "macos_privileged_lsof_global"
  const CAPTURE_BACKEND: string := "lsof_global"

  datatype OsPath = OsPath(absolute: bool, parts: Path)

  /** A path on the wire; malformed when its hexadecimal form does not decode. */
  datatype Wire = Encoded(path: OsPath) | Malformed

  datatype Request = Request(version: nat, id: nat, roots: seq<Wire>)

  datatype Config = Config(version: nat, uid: nat, roots: seq<Wire>)

  /** How paths resolve, and which are directories; an unresolved path is an error. */
  datatype FileSystem = FileSystem(canonical: map<OsPath, OsPath>, directories: set<OsPath>)

  datatype EvidenceKind = ProcessCwd | ProcessRoot | MappedFile | OpenFile | LsofPath | TestOverride

  datatype PathKind = CwdPath | RootPath | MappedPath | OpenPath

  datatype Raw = Raw(pid: Option<nat>, kind: EvidenceKind, path: OsPath)

  datatype Capture = Capture(complete: bool, backend: string, observations: seq<Raw>)

  datatype Observation = Observation(pid: Option<nat>, kind: PathKind, observed: Wire, matched: Wire)

  datatype Service = Service(uid: nat, roots: seq<Wire>)

  datatype Response = Response(
    version: nat,
    id: nat,
    backend: string,
    hash: Option<string>,
    complete: bool,
    error: bool,
    observations: seq<Observation>,
    service: Option<Service>)

  // ---- sorted, deduplicated roots ----

  predicate Ascending(paths: seq<Path>) {
    forall i, j | 0 <= i < j < |paths| :: PathBefore(paths[i], paths[j])
  }

  function InsertPath(sorted: seq<Path>, p: Path): (r: seq<Path>)
    requires Ascending(sorted)
    ensures Ascending(r)
    ensures forall q :: q in r <==> q == p || q in sorted
  {
    if sorted == [] then [p]
    else if p == sorted[0] then sorted
    else
      PathOrder(p, sorted[0], sorted[0]);
      if PathBefore(p, sorted[0]) then
        assert forall k | 0 <= k < |sorted| :: PathBefore(p, sorted[k]) by {
          forall k | 0 <= k < |sorted| ensures PathBefore(p, sorted[k]) {
            PathOrder(p, sorted[0], sorted[k]);
          }
        }
        [p] + sorted
      else
        var rest := InsertPath(sorted[1..], p);
        assert forall k | 0 <= k < |rest| :: PathBefore(sorted[0], rest[k]) by {
          forall k | 0 <= k < |rest| ensures PathBefore(sorted[0], rest[k]) {
            assert rest[k] in rest;
          }
        }
        [sorted[0]] + rest
  }

  /** `sort` followed by `dedup`. */
  function SortDedup(paths: seq<Path>): (r: seq<Path>)
    ensures Ascending(r)
    ensures forall q :: q in r <==> q in paths
  {
    if paths == [] then [] else InsertPath(SortDedup(paths[..|paths| - 1]), paths[|paths| - 1])
  }

  predicate DistinctPaths(paths: seq<Path>) {
    forall i, j | 0 <= i < j < |paths| :: paths[i] != paths[j]
  }

  lemma AscendingIsDistinct(paths: seq<Path>)
    requires Ascending(paths)
    ensures DistinctPaths(paths)
  {
    forall i, j | 0 <= i < j < |paths| ensures paths[i] != paths[j] {
      PathOrder(paths[i], paths[j], paths[j]);
    }
  }

  // ---- validation of configuration and request ----

  /** What a root given on the wire canonicalizes to; nothing when it is malformed, relative or unresolved. */
  function Canonicalized(w: Wire, fs: FileSystem): Option<OsPath> {
    if w.Encoded? && w.path.absolute && w.path in fs.canonical then Some(fs.canonical[w.path]) else None
  }

  /** The wire holds an absolute path that resolves to itself. */
  ghost predicate IsCanonical(w: Wire, fs: FileSystem) {
    && w.Encoded? && w.path.absolute
    && w.path in fs.canonical && fs.canonical[w.path] == w.path
  }

  ghost predicate ConfigOk(config: Config, fs: FileSystem) {
    && config.version == CONFIG_VERSION && config.uid != 0 && config.roots != []
    && forall w | w in config.roots :: IsCanonical(w, fs) && w.path in fs.directories
  }

  ghost predicate Allowed(config: Config, p: Path) {
    exists w | w in config.roots :: w.Encoded? && Above(w.path.parts, p)
  }

  ghost predicate RequestOk(request: Request, config: Config, fs: FileSystem) {
    && request.version == PROTOCOL_VERSION && |request.roots| <= MAX_REQUEST_ROOTS && ConfigOk(config, fs)
    && forall w | w in request.roots :: IsCanonical(w, fs) && Allowed(config, w.path.parts)
  }

  /** The paths are those on the wire. */
  ghost predicate SamePaths(paths: seq<Path>, wires: seq<Wire>) {
    forall p :: p in paths <==> Encoded(OsPath(true, p)) in wires
  }

  method CanonicalConfigRoots(config: Config, fs: FileSystem) returns (roots: Option<seq<Path>>)
    ensures roots.Some? <==> ConfigOk(config, fs)
    ensures roots.Some? ==> Ascending(roots.value) && SamePaths(roots.value, config.roots)
  {
    if config.version != CONFIG_VERSION || config.uid == 0 || config.roots == [] { return None; }
    var found: seq<Path> := [];
    for i := 0 to |config.roots|
      invariant forall w | w in config.roots[..i] :: IsCanonical(w, fs) && w.path in fs.directories
      invariant SamePaths(found, config.roots[..i])
    {
      var w := config.roots[i];
      assert w in config.roots;
      var canonical := Canonicalized(w, fs);
      if canonical.None? || canonical.value != w.path || w.path !in fs.directories { return None; }
      found := found + [w.path.parts];
      assert config.roots[..i + 1] == config.roots[..i] + [w];
      assert w == Encoded(OsPath(true, w.path.parts));
    }
    assert config.roots[..|config.roots|] == config.roots;
    roots := Some(SortDedup(found));
  }

  /** The requested roots, each once and in order, when every one is canonical and allowed; nothing otherwise. */
  method ValidatedRequestRoots(request: Request, config: Config, fs: FileSystem) returns (roots: Option<seq<Path>>)
    ensures roots.Some? <==> RequestOk(request, config, fs)
    ensures roots.Some? ==> Ascending(roots.value) && SamePaths(roots.value, request.roots)
  {
    if request.version != PROTOCOL_VERSION || |request.roots| > MAX_REQUEST_ROOTS { return None; }
    var allowed := CanonicalConfigRoots(config, fs);
    if allowed.None? { return None; }
    var found: seq<Path> := [];
    for i := 0 to |request.roots|
      invariant forall w | w in request.roots[..i] :: IsCanonical(w, fs) && Allowed(config, w.path.parts)
      invariant SamePaths(found, request.roots[..i])
    {
      var w := request.roots[i];
      assert w in request.roots;
      var canonical := Canonicalized(w, fs);
      if canonical.None? || canonical.value != w.path { return None; }
      AllowedByRoots(config, fs, allowed.value, w.path.parts);
      if !(exists root | root in allowed.value :: Above(root, w.path.parts)) { return None; }
      found := found + [w.path.parts];
      assert request.roots[..i + 1] == request.roots[..i] + [w];
      assert w == Encoded(OsPath(true, w.path.parts));
    }
    assert request.roots[..|request.roots|] == request.roots;
    roots := Some(SortDedup(found));
  }

  lemma AllowedByRoots(config: Config, fs: FileSystem, allowed: seq<Path>, p: Path)
    requires ConfigOk(config, fs) && SamePaths(allowed, config.roots)
    ensures (exists root | root in allowed :: Above(root, p)) <==> Allowed(config, p)
  {
    if Allowed(config, p) {
      var w :| w in config.roots && w.Encoded? && Above(w.path.parts, p);
      assert w == Encoded(OsPath(true, w.path.parts));
      assert w.path.parts in allowed;
    }
    if root :| root in allowed && Above(root, p) {
      assert Encoded(OsPath(true, root)) in config.roots;
    }
  }

  // ---- matching ----

  predicate StartsWith(path: OsPath, root: Path) {
    path.absolute && Above(root, path.parts)
  }

  /** Every index whose root the path starts with, by testing each root. */
  function NaiveIndices(path: OsPath, roots: seq<Path>): (indices: seq<nat>)
    ensures forall i: nat :: i in indices <==> i < |roots| && StartsWith(path, roots[i])
    ensures Increasing(indices)
  {
    if roots == [] then []
    else
      var front := roots[..|roots| - 1];
      var before := NaiveIndices(path, front);
      assert forall k | 0 <= k < |before| :: before[k] in before;
      assert forall i | 0 <= i < |front| :: roots[i] == front[i];
      if StartsWith(path, roots[|roots| - 1]) then before + [|roots| - 1] else before
  }

  predicate Increasing(indices: seq<nat>) {
    forall j, k | 0 <= j < k < |indices| :: indices[j] < indices[k]
  }

  /** Index i is the last one of this path. */
  predicate LastAt(roots: seq<Path>, i: nat, p: Path) {
    i < |roots| && roots[i] == p && forall j | i < j < |roots| :: roots[j] != p
  }

  /** `enumerate().collect()` into a hash map: a later occurrence of a root replaces an earlier one. */
  function RootIndices(roots: seq<Path>): (m: map<Path, nat>)
    ensures forall p :: p in m <==> p in roots
    ensures forall p | p in m :: LastAt(roots, m[p], p)
  {
    if roots == [] then map[]
    else
      var last := |roots| - 1;
      var m := RootIndices(roots[..last]);
      assert roots == roots[..last] + [roots[last]];
      assert forall p | p in m && p != roots[last] :: LastAt(roots, m[p], p) by {
        forall p | p in m && p != roots[last] ensures LastAt(roots, m[p], p) {
          LastStays(roots, m[p], p);
        }
      }
      m[roots[last] := last]
  }

  lemma LastStays(roots: seq<Path>, i: nat, p: Path)
    requires roots != [] && p != roots[|roots| - 1] && LastAt(roots[..|roots| - 1], i, p)
    ensures LastAt(roots, i, p)
  {
    forall j | i < j < |roots| ensures roots[j] != p {
      if j < |roots| - 1 {
        assert roots[..|roots| - 1][j] == roots[j];
      }
    }
  }

  /** Indices found for the ancestors of length at most n, longest first. */
  function AncestorMatches(path: Path, n: nat, indices: map<Path, nat>): (found: seq<nat>)
    requires n <= |path|
    ensures forall i :: i in found <==> exists k | 0 <= k <= n :: path[..k] in indices && indices[path[..k]] == i
  {
    var here := if path[..n] in indices then [indices[path[..n]]] else [];
    if n == 0 then here else here + AncestorMatches(path, n - 1, indices)
  }

  function InsertIndex(sorted: seq<nat>, i: nat): (r: seq<nat>)
    requires Increasing(sorted) && i !in sorted
    ensures Increasing(r)
    ensures forall j :: j in r <==> j == i || j in sorted
  {
    if sorted == [] || i < sorted[0] then [i] + sorted
    else
      var rest := InsertIndex(sorted[1..], i);
      assert forall k | 0 <= k < |rest| :: rest[k] in rest;
      [sorted[0]] + rest
  }

  predicate NoRepeats(s: seq<nat>) {
    forall j, k | 0 <= j < k < |s| :: s[j] != s[k]
  }

  function SortIndices(s: seq<nat>): (r: seq<nat>)
    requires NoRepeats(s)
    ensures Increasing(r)
    ensures forall j :: j in r <==> j in s
  {
    if s == [] then [] else
      assert s[0] !in s[1..];
      InsertIndex(SortIndices(s[1..]), s[0])
  }

  lemma {:induction false} MatchesDiffer(path: Path, n: nat, roots: seq<Path>)
    requires n <= |path|
    ensures NoRepeats(AncestorMatches(path, n, RootIndices(roots)))
  {
    if n > 0 {
      MatchesDiffer(path, n - 1, roots);
      var m := RootIndices(roots);
      var rest := AncestorMatches(path, n - 1, m);
      if path[..n] in m {
        forall k | 0 <= k <= n - 1 && path[..k] in m ensures m[path[..k]] != m[path[..n]] {
          assert |path[..k]| != |path[..n]|;
        }
        assert m[path[..n]] !in rest;
      }
    }
  }

  /** `matching_root_indices`: look every ancestor up, then sort. */
  function MatchingRootIndices(path: OsPath, roots: seq<Path>): (indices: seq<nat>)
    ensures Increasing(indices)
  {
    if !path.absolute then []
    else
      MatchesDiffer(path.parts, |path.parts|, roots);
      SortIndices(AncestorMatches(path.parts, |path.parts|, RootIndices(roots)))
  }

  /** The matcher finds a root exactly when the path starts with it and it does not occur again later. */
  lemma MatchedIndices(path: OsPath, roots: seq<Path>, i: nat)
    ensures i in MatchingRootIndices(path, roots) <==>
              i < |roots| && StartsWith(path, roots[i]) && LastAt(roots, i, roots[i])
  {
    if path.absolute {
      var m := RootIndices(roots);
      var found := AncestorMatches(path.parts, |path.parts|, m);
      MatchesDiffer(path.parts, |path.parts|, roots);
      if i < |roots| && StartsWith(path, roots[i]) && LastAt(roots, i, roots[i]) {
        assert path.parts[..|roots[i]|] == roots[i];
        assert LastAt(roots, m[roots[i]], roots[i]);
        assert i in found;
      }
      if i in found {
        var k :| 0 <= k <= |path.parts| && path.parts[..k] in m && m[path.parts[..k]] == i;
      }
    }
  }

  lemma FrontMembers(a: seq<nat>)
    requires Increasing(a) && a != []
    ensures Increasing(a[..|a| - 1])
    ensures forall i: nat :: i in a[..|a| - 1] <==> i in a && i != a[|a| - 1]
  {
    assert a == a[..|a| - 1] + [a[|a| - 1]];
  }

  lemma {:induction false} IncreasingUnique(a: seq<nat>, b: seq<nat>)
    requires Increasing(a) && Increasing(b) && forall i: nat :: i in a <==> i in b
    ensures a == b
    decreases |a|
  {
    assert a != [] ==> a[0] in b;
    assert b != [] ==> b[0] in a;
    if a != [] {
      var x, y := a[|a| - 1], b[|b| - 1];
      assert x in b && y in a;
      assert x == y;
      FrontMembers(a);
      FrontMembers(b);
      var front, rest := a[..|a| - 1], b[..|b| - 1];
      forall i: nat ensures i in front <==> i in rest {
        assert i in front <==> i in a && i != x;
        assert i in rest <==> i in b && i != y;
      }
      IncreasingUnique(front, rest);
      assert a == a[..|a| - 1] + [x] && b == b[..|b| - 1] + [x];
    }
  }

  /** Hashing the ancestors agrees with testing every root on every path exactly when the roots are distinct. */
  lemma MatcherIsNaiveExactlyWhenDistinct(roots: seq<Path>)
    ensures (forall path :: MatchingRootIndices(path, roots) == NaiveIndices(path, roots)) <==> DistinctPaths(roots)
  {
    if DistinctPaths(roots) {
      forall path ensures MatchingRootIndices(path, roots) == NaiveIndices(path, roots) {
        MatcherIsNaive(path, roots);
      }
    } else {
      var i, j :| 0 <= i < j < |roots| && roots[i] == roots[j];
      var path := OsPath(true, roots[i]);
      MatchedIndices(path, roots, i);
      assert !LastAt(roots, i, roots[i]);
      assert i in NaiveIndices(path, roots) && i !in MatchingRootIndices(path, roots);
    }
  }

  lemma MatcherIsNaive(path: OsPath, roots: seq<Path>)
    requires DistinctPaths(roots)
    ensures MatchingRootIndices(path, roots) == NaiveIndices(path, roots)
  {
    forall i: nat ensures i in MatchingRootIndices(path, roots) <==> i in NaiveIndices(path, roots) {
      MatchedIndices(path, roots, i);
    }
    IncreasingUnique(MatchingRootIndices(path, roots), NaiveIndices(path, roots));
  }

  /** Of the first n indices those whose root the path starts with and is not listed again later. */
  function ExpectedUpTo(path: OsPath, roots: seq<Path>, n: nat): (indices: seq<nat>)
    requires n <= |roots|
    ensures forall i: nat :: i in indices <==> i < n && StartsWith(path, roots[i]) && LastAt(roots, i, roots[i])
    ensures Increasing(indices)
  {
    if n == 0 then []
    else
      var before := ExpectedUpTo(path, roots, n - 1);
      assert forall k | 0 <= k < |before| :: before[k] in before;
      if StartsWith(path, roots[n - 1]) && LastAt(roots, n - 1, roots[n - 1]) then before + [n - 1] else before
  }

  /** One index for every root the path starts with, by testing each root. */
  function ExpectedIndices(path: OsPath, roots: seq<Path>): (indices: seq<nat>)
    ensures forall i: nat :: i in indices <==> i < |roots| && StartsWith(path, roots[i]) && LastAt(roots, i, roots[i])
    ensures Increasing(indices)
  {
    ExpectedUpTo(path, roots, |roots|)
  }

  /** Hashing the ancestors finds every root the path starts with once, however often the roots are listed. */
  lemma MatcherIsExpected(path: OsPath, roots: seq<Path>)
    ensures MatchingRootIndices(path, roots) == ExpectedIndices(path, roots)
  {
    hide MatchingRootIndices, ExpectedIndices;
    forall i: nat ensures i in MatchingRootIndices(path, roots) <==> i in ExpectedIndices(path, roots) {
      MatchedIndices(path, roots, i);
    }
    IncreasingUnique(MatchingRootIndices(path, roots), ExpectedIndices(path, roots));
  }

  // ---- the response ----

  datatype Match = Match(raw: Raw, root: Path)

  /** One observation with each of the roots at these indices. */
  function MatchesAt(raw: Raw, roots: seq<Path>, indices: seq<nat>): (matches: seq<Match>)
    requires forall k | 0 <= k < |indices| :: indices[k] < |roots|
    ensures |matches| == |indices|
  {
    seq(|indices|, k requires 0 <= k < |indices| => Match(raw, roots[indices[k]]))
  }

  lemma IndicesInRange(path: OsPath, roots: seq<Path>)
    ensures forall k | 0 <= k < |ExpectedIndices(path, roots)| :: ExpectedIndices(path, roots)[k] < |roots|
  {
    forall k | 0 <= k < |ExpectedIndices(path, roots)| ensures ExpectedIndices(path, roots)[k] < |roots| {
      assert ExpectedIndices(path, roots)[k] in ExpectedIndices(path, roots);
    }
  }

  /** Every observation with every root its path starts with, once each and in order: what an answer should hold. */
  function ExpectedMatches(raws: seq<Raw>, roots: seq<Path>): seq<Match> {
    if raws == [] then []
    else
      var last := raws[|raws| - 1];
      IndicesInRange(last.path, roots);
      ExpectedMatches(raws[..|raws| - 1], roots) + MatchesAt(last, roots, ExpectedIndices(last.path, roots))
  }

  function KindOf(kind: EvidenceKind): Option<PathKind> {
    match kind
    case ProcessCwd => Some(CwdPath)
    case ProcessRoot => Some(RootPath)
    case MappedFile => Some(MappedPath)
    case OpenFile => Some(OpenPath)
    case LsofPath => Some(OpenPath)
    case TestOverride => None
  }

  predicate Reports(o: Observation, m: Match) {
    && KindOf(m.raw.kind).Some?
    && o == Observation(m.raw.pid, KindOf(m.raw.kind).value, Encoded(m.raw.path), Encoded(OsPath(true, m.root)))
  }

  predicate ReportsAll(observations: seq<Observation>, matches: seq<Match>) {
    |observations| == |matches| && forall k | 0 <= k < |matches| :: Reports(observations[k], matches[k])
  }

  function Refusal(id: nat): Response {
    Response(PROTOCOL_VERSION, id, BACKEND, None, false, true, [], None)
  }

  /** A capture can be answered when it is whole, trusted, small enough, and holds no test evidence that matches. */
  predicate Answerable(capture: Capture, roots: seq<Path>) {
    && capture.complete && capture.backend == CAPTURE_BACKEND
    && |ExpectedMatches(capture.observations, roots)| <= MAX_MATCHED_OBSERVATIONS
    && forall m | m in ExpectedMatches(capture.observations, roots) :: !m.raw.kind.TestOverride?
  }

  lemma {:induction false} MatchesPrefix(raws: seq<Raw>, roots: seq<Path>, k: nat)
    requires k <= |raws|
    ensures ExpectedMatches(raws[..k], roots) <= ExpectedMatches(raws, roots)
    decreases |raws|
  {
    if k == |raws| {
      assert raws[..k] == raws;
    } else {
      MatchesPrefix(raws[..|raws| - 1], roots, k);
      assert raws[..|raws| - 1][..k] == raws[..k];
    }
  }

  lemma MatchesNext(raws: seq<Raw>, roots: seq<Path>, k: nat)
    requires k < |raws|
    ensures forall i | 0 <= i < |ExpectedIndices(raws[k].path, roots)| ::
              ExpectedIndices(raws[k].path, roots)[i] < |roots|
    ensures ExpectedMatches(raws[..k + 1], roots)
         == ExpectedMatches(raws[..k], roots) + MatchesAt(raws[k], roots, ExpectedIndices(raws[k].path, roots))
  {
    hide ExpectedIndices, MatchesAt;
    IndicesInRange(raws[k].path, roots);
    var upTo := raws[..k + 1];
    assert upTo[..k] == raws[..k] && upTo[k] == raws[k];
  }

  lemma PrefixOfSum(a: seq<Match>, b: seq<Match>, j: nat, all: seq<Match>)
    requires a + b <= all && j <= |b|
    ensures a + b[..j] <= all
  {
    assert a + b[..j] == (a + b)[..|a| + j];
  }

  lemma MatchesSoFar(raws: seq<Raw>, roots: seq<Path>, k: nat, indices: seq<nat>, j: nat)
    requires k < |raws| && indices == ExpectedIndices(raws[k].path, roots) && j <= |indices|
    ensures forall i | 0 <= i < |indices| :: indices[i] < |roots|
    ensures ExpectedMatches(raws[..k], roots) + MatchesAt(raws[k], roots, indices)[..j] <= ExpectedMatches(raws, roots)
    ensures ExpectedMatches(raws[..k + 1], roots)
         == ExpectedMatches(raws[..k], roots) + MatchesAt(raws[k], roots, indices)
  {
    hide ExpectedIndices, ExpectedMatches, MatchesAt;
    MatchesNext(raws, roots, k);
    MatchesPrefix(raws, roots, k + 1);
    PrefixOfSum(ExpectedMatches(raws[..k], roots), MatchesAt(raws[k], roots, indices), j, ExpectedMatches(raws, roots));
  }

  /** The answer to a capture: every expected match in order, or a refusal that carries nothing. */
  method PrivilegedResponse(id: nat, roots: seq<Path>, capture: Capture, hash: string) returns (response: Response)
    ensures !Answerable(capture, roots) ==>
              response == Response(PROTOCOL_VERSION, id, BACKEND, None, false, true, [], None)
    ensures Answerable(capture, roots) ==>
              && response
                 == Response(PROTOCOL_VERSION, id, BACKEND, Some(hash), true, false, response.observations, None)
              && ReportsAll(response.observations, ExpectedMatches(capture.observations, roots))
  {
    hide ExpectedMatches, ExpectedIndices, MatchingRootIndices, Reports, MatchesAt;
    if !capture.complete || capture.backend != CAPTURE_BACKEND { return Refusal(id); }
    ghost var all := ExpectedMatches(capture.observations, roots);
    var observations: seq<Observation> := [];
    NoMatches(capture.observations, roots);
    for k := 0 to |capture.observations|
      invariant ReportsAll(observations, ExpectedMatches(capture.observations[..k], roots))
      invariant |observations| <= MAX_MATCHED_OBSERVATIONS
    {
      var raw := capture.observations[k];
      var indices := MatchingRootIndices(raw.path, roots);
      MatcherIsExpected(raw.path, roots);
      MatchesSoFar(capture.observations, roots, k, indices, 0);
      ghost var before := ExpectedMatches(capture.observations[..k], roots);
      ghost var here := MatchesAt(raw, roots, indices);
      assert before + here[..0] == before;
      for j := 0 to |indices|
        invariant ReportsAll(observations, before + here[..j])
        invariant |observations| <= MAX_MATCHED_OBSERVATIONS
      {
        MatchesSoFar(capture.observations, roots, k, indices, j + 1);
        assert here[..j + 1] == here[..j] + [here[j]];
        MatchAt(raw, roots, indices, j);
        assert (before + here[..j + 1])[|observations|] == here[j];
        if |observations| >= MAX_MATCHED_OBSERVATIONS {
          assert |before + here[..j + 1]| > MAX_MATCHED_OBSERVATIONS;
          return Refusal(id);
        }
        var kind := KindOf(raw.kind);
        if kind.None? {
          assert all[|observations|] == here[j];
          return Refusal(id);
        }
        var o := Observation(raw.pid, kind.value, Encoded(raw.path), Encoded(OsPath(true, roots[indices[j]])));
        OneMoreReport(observations, before + here[..j], o, here[j]);
        assert before + here[..j] + [here[j]] == before + here[..j + 1];
        observations := observations + [o];
      }
      assert here[..|indices|] == here;
    }
    assert capture.observations[..|capture.observations|] == capture.observations;
    NoTestEvidence(observations, all);
    response := Response(PROTOCOL_VERSION, id, BACKEND, Some(hash), true, false, observations, None);
  }

  lemma NoMatches(raws: seq<Raw>, roots: seq<Path>)
    ensures ExpectedMatches(raws[..0], roots) == [] && ReportsAll([], [])
  {
  }

  lemma MatchAt(raw: Raw, roots: seq<Path>, indices: seq<nat>, j: nat)
    requires (forall k | 0 <= k < |indices| :: indices[k] < |roots|) && j < |indices|
    ensures MatchesAt(raw, roots, indices)[j] == Match(raw, roots[indices[j]])
  {
  }

  lemma OneMoreReport(observations: seq<Observation>, matches: seq<Match>, o: Observation, m: Match)
    requires ReportsAll(observations, matches) && KindOf(m.raw.kind).Some?
    requires o == Observation(m.raw.pid, KindOf(m.raw.kind).value, Encoded(m.raw.path), Encoded(OsPath(true, m.root)))
    ensures ReportsAll(observations + [o], matches + [m])
  {
  }

  lemma NoTestEvidence(observations: seq<Observation>, matches: seq<Match>)
    requires ReportsAll(observations, matches)
    ensures forall m | m in matches :: !m.raw.kind.TestOverride?
  {
    forall m | m in matches ensures !m.raw.kind.TestOverride? {
      var k :| 0 <= k < |matches| && matches[k] == m;
      assert Reports(observations[k], matches[k]);
    }
  }

  // ---- the client's check ----

  predicate IsLowerHexSha256(value: string) {
    |value| == 64 && forall c | c in value :: '0' <= c <= '9' || 'a' <= c <= 'f'
  }

  predicate DistinctWires(wires: seq<Wire>) {
    forall i, j | 0 <= i < j < |wires| :: wires[i] != wires[j]
  }

  predicate ServiceOk(service: Service) {
    && service.uid != 0 && service.roots != []
    && (forall w | w in service.roots :: w.Encoded? && w.path.absolute)
    && DistinctWires(service.roots)
  }

  predicate ObservationOk(o: Observation, requested: seq<Wire>) {
    && o.matched.Encoded? && o.observed.Encoded? && o.matched in requested
    && o.observed.path.absolute == o.matched.path.absolute && Above(o.matched.path.parts, o.observed.path.parts)
  }

  /** `validate_response`. */
  predicate ValidResponse(request: Request, response: Response) {
    && response.version == PROTOCOL_VERSION && response.id == request.id && response.backend == BACKEND
    && if !response.complete then response.observations == [] && response.service.None? && response.hash.None?
    else
      && !response.error && response.hash.Some? && IsLowerHexSha256(response.hash.value)
      && if request.roots == [] then
        response.observations == [] && response.service.Some? && ServiceOk(response.service.value)
      else
        && response.service.None?
        && (forall w | w in request.roots :: w.Encoded?)
        && forall o | o in response.observations :: ObservationOk(o, request.roots)
  }

  lemma {:induction false} MatchesStart(raws: seq<Raw>, roots: seq<Path>)
    ensures forall m | m in ExpectedMatches(raws, roots) :: m.root in roots && StartsWith(m.raw.path, m.root)
  {
    if raws != [] {
      MatchesStart(raws[..|raws| - 1], roots);
      var last := raws[|raws| - 1];
      var indices := ExpectedIndices(last.path, roots);
      IndicesInRange(last.path, roots);
      forall m | m in MatchesAt(last, roots, indices) ensures m.root in roots && StartsWith(m.raw.path, m.root) {
        var k :| 0 <= k < |indices| && MatchesAt(last, roots, indices)[k] == m;
        assert indices[k] in indices;
      }
    }
  }

  lemma ReportedAreOk(observations: seq<Observation>, raws: seq<Raw>, roots: seq<Path>, requested: seq<Wire>)
    requires ReportsAll(observations, ExpectedMatches(raws, roots)) && SamePaths(roots, requested)
    ensures forall o | o in observations :: ObservationOk(o, requested)
  {
    MatchesStart(raws, roots);
    var matches := ExpectedMatches(raws, roots);
    forall o | o in observations ensures ObservationOk(o, requested) {
      var k :| 0 <= k < |observations| && observations[k] == o;
      assert Reports(observations[k], matches[k]) && matches[k] in matches;
    }
  }

  lemma SameEmptiness(roots: seq<Path>, wires: seq<Wire>, fs: FileSystem)
    requires SamePaths(roots, wires) && forall w | w in wires :: IsCanonical(w, fs)
    ensures roots == [] <==> wires == []
  {
    if wires != [] {
      assert wires[0] in wires;
      assert wires[0] == Encoded(OsPath(true, wires[0].path.parts));
      assert wires[0].path.parts in roots;
    }
    if roots != [] {
      assert roots[0] in roots;
    }
  }

  /** Set cardinality, as sorting and removing repetitions computes it, tells whether a list repeats. */
  lemma {:induction false} DistinctSize(wires: seq<Wire>)
    ensures DistinctWires(wires) <==> |Range(wires)| == |wires|
    ensures |Range(wires)| <= |wires|
  {
    if wires == [] {
      assert Range(wires) == {};
    } else {
      var front, last := wires[..|wires| - 1], wires[|wires| - 1];
      DistinctSize(front);
      assert Range(wires) == Range(front) + {last};
      hide DistinctWires;
      DistinctFront(wires);
    }
  }

  lemma DistinctFront(wires: seq<Wire>)
    requires wires != []
    ensures var front, last := wires[..|wires| - 1], wires[|wires| - 1];
            DistinctWires(wires) <==> DistinctWires(front) && last !in front
  {
  }

  /** What a client learns from an answer it accepts, whoever sent it. */
  ghost predicate Trusted(request: Request, response: Response) {
    && response.version == 2 && response.id == request.id && response.backend == "macos_privileged_lsof_global"
    && (!response.complete ==> response.observations == [] && response.service == None && response.hash == None)
    && (response.complete ==>
      && !response.error
      && exists h :: response.hash == Some(h) && |h| == 64 && forall c | c in h :: c in "0123456789abcdef")
    && (response.complete && request.roots != [] ==>
      && response.service == None && Malformed !in request.roots
      && forall o | o in response.observations :: WithinSome(o, request.roots))
    && (response.complete && request.roots == [] ==>
      && response.observations == []
      && exists uid, roots :: response.service == Some(Service(uid, roots)) && Lists(uid, roots))
  }

  /** The observation is of a path at or below a root that was asked for. */
  ghost predicate WithinSome(o: Observation, requested: seq<Wire>) {
    exists absolute, root: Path, rest: Path ::
      && Encoded(OsPath(absolute, root)) in requested
      && o.matched == Encoded(OsPath(absolute, root)) && o.observed == Encoded(OsPath(absolute, root + rest))
  }

  /** A client other than root, and absolute roots, at least one, none twice. */
  ghost predicate Lists(uid: nat, roots: seq<Wire>) {
    && uid != 0 && roots != [] && |Range(roots)| == |roots|
    && forall w | w in roots :: exists p :: w == Encoded(OsPath(true, p))
  }

  lemma WithinIsOk(o: Observation, requested: seq<Wire>)
    ensures ObservationOk(o, requested) <==> WithinSome(o, requested)
  {
    if ObservationOk(o, requested) {
      var p, q := o.observed.path, o.matched.path;
      assert p.parts == q.parts + p.parts[|q.parts|..];
      assert o.matched == Encoded(OsPath(q.absolute, q.parts));
    }
  }

  lemma ListsIsOk(service: Service)
    ensures ServiceOk(service) <==> Lists(service.uid, service.roots)
  {
    DistinctSize(service.roots);
    if ServiceOk(service) {
      forall w | w in service.roots ensures exists p :: w == Encoded(OsPath(true, p)) {
        assert w == Encoded(OsPath(true, w.path.parts));
      }
    }
  }

  lemma AcceptedExactlyTrusted(request: Request, response: Response)
    ensures ValidResponse(request, response) <==> Trusted(request, response)
  {
    hide ObservationOk, WithinSome, ServiceOk, Lists;
    forall o: Observation ensures ObservationOk(o, request.roots) <==> WithinSome(o, request.roots) {
      WithinIsOk(o, request.roots);
    }
    if response.service.Some? {
      ListsIsOk(response.service.value);
      assert response.service.value == Service(response.service.value.uid, response.service.value.roots);
    }
    if Malformed !in request.roots {
      assert forall w | w in request.roots :: w.Encoded?;
    }
  }

  // ---- what an answer tells ----

  ghost function RequestedRoots(request: Request): set<Path> {
    set w | w in request.roots && w.Encoded? :: w.path.parts
  }

  /** Which captured observation lies below which root. */
  ghost function Uses(raws: seq<Raw>, roots: set<Path>): (uses: set<(nat, Path)>)
    ensures forall use | use in uses :: use.0 < |raws|
  {
    set i: nat, p | i < |raws| && p in roots && raws[i].path.absolute && Above(p, raws[i].path.parts) :: (i, p)
  }

  /** Kinds of evidence as they are told. */
  predicate SameKind(kind: EvidenceKind, told: PathKind) {
    match told
    case CwdPath => kind.ProcessCwd?
    case RootPath => kind.ProcessRoot?
    case MappedPath => kind.MappedFile?
    case OpenPath => kind.OpenFile? || kind.LsofPath?
  }

  predicate Tells(o: Observation, raw: Raw, root: Path) {
    && o.pid == raw.pid && SameKind(raw.kind, o.kind)
    && o.observed == Encoded(raw.path) && o.matched == Encoded(OsPath(true, root))
  }

  ghost predicate SomeTells(observations: seq<Observation>, raw: Raw, root: Path) {
    exists o | o in observations :: Tells(o, raw, root)
  }

  ghost predicate ToldOf(o: Observation, raws: seq<Raw>, uses: set<(nat, Path)>) {
    exists use | use in uses && use.0 < |raws| :: Tells(o, raws[use.0], use.1)
  }

  /** Every use is told, once, and nothing else is. */
  ghost predicate TellsAll(observations: seq<Observation>, raws: seq<Raw>, roots: set<Path>) {
    && |observations| == |Uses(raws, roots)|
    && (forall use | use in Uses(raws, roots) :: SomeTells(observations, raws[use.0], use.1))
    && (forall o | o in observations :: ToldOf(o, raws, Uses(raws, roots)))
  }

  /** The capture can be told: whole, by the trusted backend, not too large, and without test evidence on a root. */
  ghost predicate CanTell(capture: Capture, roots: set<Path>) {
    && capture.complete && capture.backend == CAPTURE_BACKEND
    && |Uses(capture.observations, roots)| <= MAX_MATCHED_OBSERVATIONS
    && forall use | use in Uses(capture.observations, roots) :: !capture.observations[use.0].kind.TestOverride?
  }

  function Range<T>(s: seq<T>): set<T> {
    set x | x in s
  }

  lemma {:induction false} DistinctCount<T>(s: seq<T>)
    requires forall i, j | 0 <= i < j < |s| :: s[i] != s[j]
    ensures |Range(s)| == |s|
  {
    if s == [] {
      assert Range(s) == {};
    } else {
      var front, last := s[..|s| - 1], s[|s| - 1];
      DistinctCount(front);
      assert Range(s) == Range(front) + {last} && last !in Range(front);
    }
  }

  /** The roots a path starts with. */
  ghost function RootsOver(path: OsPath, roots: seq<Path>): set<Path> {
    set p | p in roots && StartsWith(path, p)
  }

  lemma IndicesCount(path: OsPath, roots: seq<Path>)
    ensures |ExpectedIndices(path, roots)| == |RootsOver(path, roots)|
  {
    var indices := ExpectedIndices(path, roots);
    assert forall k | 0 <= k < |indices| :: indices[k] in indices;
    var found := seq(|indices|, k requires 0 <= k < |indices| => roots[indices[k]]);
    forall i, j | 0 <= i < j < |found| ensures found[i] != found[j] {
      assert LastAt(roots, indices[i], roots[indices[i]]) && indices[i] < indices[j];
    }
    DistinctCount(found);
    forall p ensures p in Range(found) <==> p in RootsOver(path, roots) {
      if p in RootsOver(path, roots) {
        LastOf(roots, p);
        var i: nat :| LastAt(roots, i, p);
        assert i in indices;
        var k :| 0 <= k < |indices| && indices[k] == i;
        assert found[k] == p;
      }
    }
    assert Range(found) == RootsOver(path, roots);
  }

  lemma LastOf(roots: seq<Path>, p: Path)
    requires p in roots
    ensures exists i: nat :: LastAt(roots, i, p)
  {
    assert LastAt(roots, RootIndices(roots)[p], p);
  }

  /** The uses one observation makes. */
  ghost function Tagged(n: nat, over: set<Path>): set<(nat, Path)> {
    set p | p in over :: (n, p)
  }

  lemma {:induction false} TaggedCount(n: nat, over: set<Path>)
    ensures |Tagged(n, over)| == |over|
    decreases |over|
  {
    if over == {} {
      assert Tagged(n, over) == {};
    } else {
      var q :| q in over;
      TaggedCount(n, over - {q});
      assert Tagged(n, over) == Tagged(n, over - {q}) + {(n, q)};
    }
  }

  lemma UseSplits(raws: seq<Raw>, roots: seq<Path>, i: nat, p: Path)
    requires raws != []
    ensures var n := |raws| - 1;
            (i, p) in Uses(raws, Range(roots)) <==>
            if i == n then p in RootsOver(raws[n].path, roots) else (i, p) in Uses(raws[..n], Range(roots))
  {
    var n := |raws| - 1;
    if i < n { assert raws[..n][i] == raws[i]; }
  }

  /** The uses made by one more observation. */
  lemma UsesMore(raws: seq<Raw>, roots: seq<Path>)
    requires raws != []
    ensures var n := |raws| - 1;
            && |Uses(raws, Range(roots))| == |Uses(raws[..n], Range(roots))| + |RootsOver(raws[n].path, roots)|
            && forall i: nat, p :: (i, p) in Uses(raws, Range(roots)) <==>
                 if i == n then p in RootsOver(raws[n].path, roots) else (i, p) in Uses(raws[..n], Range(roots))
  {
    hide Uses, RootsOver, Range;
    var n := |raws| - 1;
    var over := RootsOver(raws[n].path, roots);
    var before, all, here := Uses(raws[..n], Range(roots)), Uses(raws, Range(roots)), Tagged(n, over);
    forall i: nat, p ensures (i, p) in all <==> if i == n then p in over else (i, p) in before {
      UseSplits(raws, roots, i, p);
    }
    forall use ensures use in all <==> use in before || use in here {
      assert use == (use.0, use.1);
    }
    assert all == before + here && before !! here;
    TaggedCount(n, over);
  }

  lemma {:induction false} MatchesCount(raws: seq<Raw>, roots: seq<Path>)
    ensures |ExpectedMatches(raws, roots)| == |Uses(raws, Range(roots))|
  {
    if raws == [] {
      assert Uses(raws, Range(roots)) == {};
    } else {
      hide Uses, ExpectedIndices, RootsOver;
      var n := |raws| - 1;
      MatchesCount(raws[..n], roots);
      IndicesCount(raws[n].path, roots);
      IndicesInRange(raws[n].path, roots);
      UsesMore(raws, roots);
    }
  }

  /** The matches are the uses. */
  lemma {:induction false} MatchesAreUses(raws: seq<Raw>, roots: seq<Path>)
    ensures forall use | use in Uses(raws, Range(roots)) ::
              Match(raws[use.0], use.1) in ExpectedMatches(raws, roots)
    ensures forall m | m in ExpectedMatches(raws, roots) ::
              exists use | use in Uses(raws, Range(roots)) :: m == Match(raws[use.0], use.1)
  {
    if raws != [] {
      var n := |raws| - 1;
      MatchesAreUses(raws[..n], roots);
      UsesMore(raws, roots);
      MatchesOfLast(raws[n], roots);
      IndicesInRange(raws[n].path, roots);
      var last := MatchesAt(raws[n], roots, ExpectedIndices(raws[n].path, roots));
      assert ExpectedMatches(raws, roots) == ExpectedMatches(raws[..n], roots) + last;
      hide Uses, ExpectedMatches, ExpectedIndices, RootsOver, MatchesAt;
      forall use | use in Uses(raws, Range(roots)) ensures Match(raws[use.0], use.1) in ExpectedMatches(raws, roots) {
        if use.0 != n {
          assert (use.0, use.1) in Uses(raws[..n], Range(roots));
          UseIndex(raws[..n], roots, use);
          assert raws[..n][use.0] == raws[use.0];
        } else {
          assert (use.0, use.1) == use;
        }
      }
      forall m | m in ExpectedMatches(raws, roots)
        ensures exists use | use in Uses(raws, Range(roots)) :: m == Match(raws[use.0], use.1)
      {
        if m in last {
          assert (n, m.root) in Uses(raws, Range(roots)) && m == Match(raws[(n, m.root).0], (n, m.root).1);
        } else {
          var use :| use in Uses(raws[..n], Range(roots)) && m == Match(raws[..n][use.0], use.1);
          UseIndex(raws[..n], roots, use);
          assert (use.0, use.1) == use && use in Uses(raws, Range(roots)) && raws[..n][use.0] == raws[use.0];
        }
      }
    }
  }

  lemma UseIndex(raws: seq<Raw>, roots: seq<Path>, use: (nat, Path))
    requires use in Uses(raws, Range(roots))
    ensures use.0 < |raws|
  {
  }

  lemma MatchesOfLast(raw: Raw, roots: seq<Path>)
    ensures forall k | 0 <= k < |ExpectedIndices(raw.path, roots)| :: ExpectedIndices(raw.path, roots)[k] < |roots|
    ensures forall m :: m in MatchesAt(raw, roots, ExpectedIndices(raw.path, roots)) <==>
              m.raw == raw && m.root in RootsOver(raw.path, roots)
  {
    IndicesInRange(raw.path, roots);
    var indices := ExpectedIndices(raw.path, roots);
    var matches := MatchesAt(raw, roots, indices);
    forall m ensures m in matches <==> m.raw == raw && m.root in RootsOver(raw.path, roots) {
      if m in matches {
        var k :| 0 <= k < |matches| && matches[k] == m;
        assert indices[k] in indices;
      }
      if m.raw == raw && m.root in RootsOver(raw.path, roots) {
        LastOf(roots, m.root);
        var i: nat :| LastAt(roots, i, m.root);
        assert i in indices;
        var k :| 0 <= k < |indices| && indices[k] == i;
        assert matches[k] == m;
      }
    }
  }

  lemma ReportTells(o: Observation, m: Match)
    requires Reports(o, m)
    ensures Tells(o, m.raw, m.root)
  {
  }

  /** What is reported tells all uses. */
  lemma ReportedTellsAll(observations: seq<Observation>, raws: seq<Raw>, roots: seq<Path>)
    requires ReportsAll(observations, ExpectedMatches(raws, roots))
    ensures TellsAll(observations, raws, Range(roots))
  {
    hide ExpectedMatches, Uses, Reports, Tells;
    var matches := ExpectedMatches(raws, roots);
    MatchesAreUses(raws, roots);
    MatchesCount(raws, roots);
    forall use | use in Uses(raws, Range(roots)) ensures SomeTells(observations, raws[use.0], use.1) {
      var k :| 0 <= k < |matches| && matches[k] == Match(raws[use.0], use.1);
      ReportTells(observations[k], matches[k]);
    }
    forall o | o in observations ensures ToldOf(o, raws, Uses(raws, Range(roots))) {
      var k :| 0 <= k < |observations| && observations[k] == o;
      assert matches[k] in matches;
      var use :| use in Uses(raws, Range(roots)) && matches[k] == Match(raws[use.0], use.1);
      ReportTells(o, matches[k]);
      UseIndex(raws, roots, use);
    }
  }

  lemma AnswerableMeans(capture: Capture, roots: seq<Path>)
    ensures Answerable(capture, roots) <==> CanTell(capture, Range(roots))
  {
    hide ExpectedMatches, Uses;
    var raws := capture.observations;
    MatchesAreUses(raws, roots);
    MatchesCount(raws, roots);
    if Answerable(capture, roots) {
      forall use | use in Uses(raws, Range(roots)) ensures use.0 < |raws| && !raws[use.0].kind.TestOverride? {
        UseIndex(raws, roots, use);
        assert Match(raws[use.0], use.1) in ExpectedMatches(raws, roots);
      }
    }
    if CanTell(capture, Range(roots)) {
      forall m | m in ExpectedMatches(raws, roots) ensures !m.raw.kind.TestOverride? {
        var use :| use in Uses(raws, Range(roots)) && m == Match(raws[use.0], use.1);
      }
    }
  }

  lemma SameRoots(roots: seq<Path>, request: Request, fs: FileSystem)
    requires SamePaths(roots, request.roots) && forall w | w in request.roots :: IsCanonical(w, fs)
    ensures Range(roots) == RequestedRoots(request)
  {
    forall p ensures p in RequestedRoots(request) <==> p in roots {
      if p in RequestedRoots(request) {
        var w :| w in request.roots && w.Encoded? && w.path.parts == p;
        assert w == Encoded(OsPath(true, p));
      }
    }
  }

  /**
   * A request is answered exactly when it is valid and, if it asks for roots, the capture can be told. The answer
   * then tells every use of every requested root, and nothing else. Every answer passes the client's check, except
   * that a status request is answered with the configured roots as they are, which the client rejects when one is
   * listed twice.
   */
  method Answer(request: Request, config: Config, fs: FileSystem, capture: Capture, hash: string)
    returns (response: Response)
    requires IsLowerHexSha256(hash)
    ensures ValidResponse(request, response) <==>
              (request.roots == [] && RequestOk(request, config, fs) ==> DistinctWires(config.roots))
    ensures response.complete <==>
              RequestOk(request, config, fs) && (request.roots == [] || CanTell(capture, RequestedRoots(request)))
    ensures response.complete && request.roots != [] ==>
              TellsAll(response.observations, capture.observations, RequestedRoots(request))
    ensures response.complete ==> response.hash == Some(hash)
    ensures !response.complete ==>
              response == Response(PROTOCOL_VERSION, request.id, BACKEND, None, false, true, [], None)
    ensures request.roots == [] && response.complete ==> response.service == Some(Service(config.uid, config.roots))
  {
    hide ExpectedMatches, IsLowerHexSha256, ReportsAll, Answerable, TellsAll, CanTell, Uses, RequestedRoots, Range;
    var roots := ValidatedRequestRoots(request, config, fs);
    if roots.None? { return Refusal(request.id); }
    SameEmptiness(roots.value, request.roots, fs);
    if roots.value == [] {
      return Response(PROTOCOL_VERSION, request.id, BACKEND, Some(hash), true, false, [],
        Some(Service(config.uid, config.roots)));
    }
    SameRoots(roots.value, request, fs);
    AnswerableMeans(capture, roots.value);
    response := PrivilegedResponse(request.id, roots.value, capture, hash);
    if response.complete {
      ReportedAreOk(response.observations, capture.observations, roots.value, request.roots);
      ReportedTellsAll(response.observations, capture.observations, roots.value);
    }
  }

  // ---- a root configured twice ----

  function Data(): OsPath {
    OsPath(true, ["data"])
  }

  /** One canonical directory, listed twice. */
  function TwiceListed(uid: nat): Config {
    Config(CONFIG_VERSION, uid, [Encoded(Data()), Encoded(Data())])
  }

  function OneDirectory(): FileSystem {
    FileSystem(map[Data() := Data()], {Data()})
  }

  /** A status request on such a configuration is served, and the client rejects what it is told. */
  method StatusOfRepeatedRoot(uid: nat, id: nat, capture: Capture, hash: string) returns (response: Response)
    requires uid != 0 && IsLowerHexSha256(hash)
    ensures RequestOk(Request(PROTOCOL_VERSION, id, []), TwiceListed(uid), OneDirectory())
    ensures response.complete && response.service == Some(Service(uid, TwiceListed(uid).roots))
    ensures !ValidResponse(Request(PROTOCOL_VERSION, id, []), response)
  {
    hide IsLowerHexSha256;
    assert TwiceListed(uid).roots[0] == TwiceListed(uid).roots[1];
    response := Answer(Request(PROTOCOL_VERSION, id, []), TwiceListed(uid), OneDirectory(), capture, hash);
  }
}
