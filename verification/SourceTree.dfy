/**
  The release's source baseline.  The builder hashes a length-prefixed stream of case-folded paths and file
  contents in path order; the verifier recomputes it on the shipped tree.

  The path encoding, the case folding and the hash are parameters.
 */
module SourceTree {
  import opened Wrappers
  import opened Octets
  import opened Sequences

  datatype File = File(path: string, payload: Bytes)

  datatype Entry = Entry(path: string, payload: Bytes)

  datatype BaselineFile = BaselineFile(path: string, sha256: string, bytes: nat)

  datatype Baseline = Baseline(
    activeSourceRoot: string,
    treeAlgorithm: string,
    treeSha256: Option<string>,
    aggregateSha256: Option<string>,
    files: seq<BaselineFile>)

  datatype TreeError =
    | PathCollision
    | LengthOverflow
    | WrongRoot
    | FilesDiffer
    | UnsupportedAlgorithm
    | TreeHashDiffers

  const ROOT := "backend/src/pilot_assessment"
  const PREFIX := "backend/src/pilot_assessment/"
  const ALGORITHM := "pilot-assessment-source-tree-v2"

  // fold maps one character; folding a folded character changes nothing.
  datatype Codec = Codec(fold: char -> string, utf8: string -> Bytes, sha256: Bytes -> string)

  function Casefold(codec: Codec, s: string): string {
    if s == [] then [] else codec.fold(s[0]) + Casefold(codec, s[1..])
  }

  ghost predicate FoldsOnce(codec: Codec) {
    && (forall c :: Casefold(codec, codec.fold(c)) == codec.fold(c))
    && Casefold(codec, PREFIX) == PREFIX
  }

  // ----- Lengths -----

  function BigEndian(n: nat, width: nat): (b: Bytes)
    ensures |b| == width
  {
    if width == 0 then [] else BigEndian(n / 256, width - 1) + [(n % 256) as byte]
  }

  function Power256(width: nat): nat {
    if width == 0 then 1 else 256 * Power256(width - 1)
  }

  const TWO_TO_THE_64 := 0x1_0000_0000_0000_0000

  lemma {:induction false} BigEndianInjective(m: nat, n: nat, width: nat)
    requires m < Power256(width) && n < Power256(width) && BigEndian(m, width) == BigEndian(n, width)
    ensures m == n
  {
    if width > 0 {
      var a, b := BigEndian(m, width), BigEndian(n, width);
      assert a[..width - 1] == BigEndian(m / 256, width - 1) && b[..width - 1] == BigEndian(n / 256, width - 1);
      assert a[width - 1] == b[width - 1];
      BigEndianInjective(m / 256, n / 256, width - 1);
    }
  }

  lemma EightBytes()
    ensures Power256(8) == TWO_TO_THE_64
  {
    assert Power256(2) == 256 * 256;
    assert Power256(4) == 256 * 256 * Power256(2);
    assert Power256(6) == 256 * 256 * Power256(4);
  }

  // ----- The stream -----

  function Header(codec: Codec): Bytes {
    codec.utf8(ALGORITHM) + [0]
  }

  function Prefixed(b: Bytes): Bytes {
    BigEndian(|b|, 8) + b
  }

  function Frame(codec: Codec, e: Entry): Bytes {
    Prefixed(codec.utf8(e.path)) + Prefixed(e.payload)
  }

  function Frames(codec: Codec, entries: seq<Entry>): Bytes {
    if entries == [] then []
    else Frames(codec, entries[..|entries| - 1]) + Frame(codec, entries[|entries| - 1])
  }

  function Stream(codec: Codec, entries: seq<Entry>): Bytes {
    Header(codec) + Frames(codec, entries)
  }

  predicate Fits(codec: Codec, e: Entry) {
    |codec.utf8(e.path)| < TWO_TO_THE_64 && |e.payload| < TWO_TO_THE_64
  }

  predicate AllFit(codec: Codec, entries: seq<Entry>) {
    forall k :: 0 <= k < |entries| ==> Fits(codec, entries[k])
  }

  // ----- The tree in order -----

  function FoldedPath(codec: Codec): File -> string {
    (f: File) => Casefold(codec, f.path)
  }

  function Folded(codec: Codec): File -> Entry {
    (f: File) => Entry(Casefold(codec, f.path), f.payload)
  }

  function PathOf(e: Entry): string { e.path }

  // The candidates by folded path, each with it.
  function Entries(codec: Codec, candidates: seq<File>): seq<Entry> {
    Map(Folded(codec), SortBy(candidates, FoldedPath(codec)))
  }

  function PathsUpTo(entries: seq<Entry>, n: nat): set<string>
    requires n <= |entries|
  {
    set k | 0 <= k < n :: entries[k].path
  }

  // What stops a pass over the first n entries: the first path seen before, or length over eight bytes.
  function FirstProblem(codec: Codec, entries: seq<Entry>, n: nat): Option<TreeError>
    requires n <= |entries|
  {
    if n == 0 then None
    else if FirstProblem(codec, entries, n - 1).Some? then FirstProblem(codec, entries, n - 1)
    else if entries[n - 1].path in PathsUpTo(entries, n - 1) then Some(PathCollision)
    else if !Fits(codec, entries[n - 1]) then Some(LengthOverflow)
    else None
  }

  function Listed(codec: Codec, e: Entry): BaselineFile {
    BaselineFile(PREFIX + e.path, codec.sha256(e.payload), |e.payload|)
  }

  function Listing(codec: Codec): Entry -> BaselineFile {
    (e: Entry) => Listed(codec, e)
  }

  function Build(codec: Codec, candidates: seq<File>): Result<Baseline, TreeError> {
    BuildFrom(codec, Entries(codec, candidates))
  }

  function BuildFrom(codec: Codec, entries: seq<Entry>): Result<Baseline, TreeError> {
    var problem := FirstProblem(codec, entries, |entries|);
    if problem.Some? then Err(problem.value)
    else
      var digest := codec.sha256(Stream(codec, entries));
      Ok(Baseline(ROOT, ALGORITHM, Some(digest), Some(digest), Map(Listing(codec), entries)))
  }

  method UpdateFrame(before: Bytes, pathBytes: Bytes, payload: Bytes) returns (hashed: Bytes)
    ensures hashed == before + (Prefixed(pathBytes) + Prefixed(payload))
  {
    hashed := before + BigEndian(|pathBytes|, 8);
    hashed := hashed + pathBytes;
    hashed := hashed + BigEndian(|payload|, 8);
    hashed := hashed + payload;
  }

  lemma OneMorePath(entries: seq<Entry>, i: nat)
    requires i < |entries|
    ensures PathsUpTo(entries, i + 1) == PathsUpTo(entries, i) + {entries[i].path}
  {
  }

  // One more entry through the loop.
  lemma OneMoreFrame(codec: Codec, entries: seq<Entry>, i: nat)
    requires i < |entries|
    ensures Stream(codec, entries[..i + 1]) == Stream(codec, entries[..i]) + Frame(codec, entries[i])
    ensures Map(Listing(codec), entries[..i + 1]) == Map(Listing(codec), entries[..i]) + [Listed(codec, entries[i])]
  {
    assert entries[..i + 1][..i] == entries[..i];
  }

  method SourceBaseline(codec: Codec, candidates: seq<File>) returns (r: Result<Baseline, TreeError>)
    ensures r == Build(codec, candidates)
  {
    var sorted := SortBy(candidates, FoldedPath(codec));
    var problem, aggregate, files := HashFiles(codec, sorted, Entries(codec, candidates));
    if problem.Some? {
      return Err(problem.value);
    }
    var digest := codec.sha256(aggregate);
    return Ok(Baseline(ROOT, ALGORITHM, Some(digest), Some(digest), files));
  }

  // The builder's loop over the sorted candidates.
  method HashFiles(codec: Codec, sorted: seq<File>, ghost entries: seq<Entry>)
    returns (problem: Option<TreeError>, aggregate: Bytes, files: seq<BaselineFile>)
    requires |sorted| == |entries| && forall k :: 0 <= k < |sorted| ==> entries[k] == Folded(codec)(sorted[k])
    ensures problem == FirstProblem(codec, entries, |entries|)
    ensures problem.None? ==> aggregate == Stream(codec, entries) && files == Map(Listing(codec), entries)
  {
    files, aggregate := [], Header(codec);
    var seen: set<string> := {};
    for i := 0 to |sorted|
      invariant Hashed(codec, entries, i, aggregate, files, seen)
    {
      problem, aggregate, files, seen := HashFile(codec, sorted[i], entries, i, aggregate, files, seen);
      if problem.Some? {
        FirstProblemStays(codec, entries, i + 1);
        return;
      }
    }
    assert entries[..|entries|] == entries;
    return None, aggregate, files;
  }

  // What the loop has made of the first i entries.
  ghost predicate Hashed(codec: Codec, entries: seq<Entry>, i: nat, aggregate: Bytes, files: seq<BaselineFile>,
                         seen: set<string>)
    requires i <= |entries|
  {
    && FirstProblem(codec, entries, i).None? && seen == PathsUpTo(entries, i)
    && aggregate == Stream(codec, entries[..i]) && files == Map(Listing(codec), entries[..i])
  }

  // One turn of the builder's loop.
  method HashFile(codec: Codec, file: File, ghost entries: seq<Entry>, ghost i: nat, before: Bytes,
                  listed: seq<BaselineFile>, known: set<string>)
    returns (problem: Option<TreeError>, aggregate: Bytes, files: seq<BaselineFile>, seen: set<string>)
    requires i < |entries| && entries[i] == Folded(codec)(file) && Hashed(codec, entries, i, before, listed, known)
    ensures problem == FirstProblem(codec, entries, i + 1)
    ensures problem.None? ==> Hashed(codec, entries, i + 1, aggregate, files, seen)
  {
    aggregate, files, seen := before, listed, known;
    var relative := Casefold(codec, file.path);
    var payload := file.payload;
    assert entries[i] == Entry(relative, payload);
    if relative in seen {
      return Some(PathCollision), aggregate, files, seen;
    }
    OneMorePath(entries, i);
    seen := seen + {relative};
    var pathBytes := codec.utf8(relative);
    if |pathBytes| >= TWO_TO_THE_64 || |payload| >= TWO_TO_THE_64 {
      return Some(LengthOverflow), aggregate, files, seen;
    }
    aggregate := UpdateFrame(aggregate, pathBytes, payload);
    files := files + [BaselineFile(PREFIX + relative, codec.sha256(payload), |payload|)];
    OneMoreFrame(codec, entries, i);
    return None, aggregate, files, seen;
  }

  lemma {:induction false} FirstProblemStays(codec: Codec, entries: seq<Entry>, n: nat)
    requires n <= |entries| && FirstProblem(codec, entries, n).Some?
    ensures FirstProblem(codec, entries, |entries|) == FirstProblem(codec, entries, n)
    decreases |entries| - n
  {
    if n < |entries| {
      FirstProblemStays(codec, entries, n + 1);
    }
  }

  ghost predicate Distinct(entries: seq<Entry>) {
    DistinctBy(entries, PathOf)
  }

  // A pass succeeds exactly on trees without case-insensitive collisions or over-long files.
  lemma {:induction false} NoProblemExactly(codec: Codec, entries: seq<Entry>, n: nat)
    requires n <= |entries|
    ensures FirstProblem(codec, entries, n).None? <==> Distinct(entries[..n]) && AllFit(codec, entries[..n])
  {
    if n > 0 {
      NoProblemExactly(codec, entries, n - 1);
      assert entries[..n][..n - 1] == entries[..n - 1];
      assert entries[..n][n - 1] == entries[n - 1];
      assert forall k :: 0 <= k < n - 1 ==> entries[..n][k] == entries[..n - 1][k] == entries[k];
    }
  }

  // ----- Enumeration order -----

  lemma EntriesAreSorted(codec: Codec, candidates: seq<File>)
    ensures Sorted(Entries(codec, candidates), PathOf)
  {
    SortBySorts(candidates, FoldedPath(codec));
  }

  lemma OrderedTheSame(codec: Codec, one: seq<File>, other: seq<File>)
    requires multiset(one) == multiset(other) && Distinct(Entries(codec, one))
    ensures Entries(codec, one) == Entries(codec, other)
  {
    var key := FoldedPath(codec);
    SortBySorts(one, key);
    SortBySorts(other, key);
    assert DistinctBy(SortBy(one, key), key) by {
      var a := Entries(codec, one);
      assert forall k :: 0 <= k < |one| ==> PathOf(a[k]) == key(SortBy(one, key)[k]);
    }
    SortedPermutation(SortBy(one, key), SortBy(other, key), key);
  }

  lemma BuildsExactly(codec: Codec, candidates: seq<File>)
    ensures Build(codec, candidates).Ok? <==>
            Distinct(Entries(codec, candidates)) && AllFit(codec, Entries(codec, candidates))
  {
    var entries := Entries(codec, candidates);
    NoProblemExactly(codec, entries, |entries|);
    assert entries[..|entries|] == entries;
  }

  // The order a directory walk happens to yield makes no difference, to the baseline or to whether there is one.
  lemma OrderDoesNotMatter(codec: Codec, one: seq<File>, other: seq<File>)
    requires multiset(one) == multiset(other)
    ensures Build(codec, one).Ok? == Build(codec, other).Ok?
    ensures Build(codec, one).Ok? ==> Build(codec, one) == Build(codec, other)
  {
    BuildsExactly(codec, one);
    BuildsExactly(codec, other);
    if Build(codec, one).Ok? {
      OrderedTheSame(codec, one, other);
    } else if Build(codec, other).Ok? {
      OrderedTheSame(codec, other, one);
    }
  }

  // ----- Injectivity -----

  lemma {:induction false} FramesFromFront(codec: Codec, entries: seq<Entry>)
    requires entries != []
    ensures Frames(codec, entries) == Frame(codec, entries[0]) + Frames(codec, entries[1..])
    decreases |entries|
  {
    var n := |entries| - 1;
    if n == 0 {
      assert entries[..0] == [] && entries[1..] == [];
    } else {
      FramesFromFront(codec, entries[..n]);
      assert entries[..n][1..] == entries[1..][..n - 1];
      assert entries[1..][n - 1] == entries[n];
    }
  }

  lemma PrefixedParse(a: Bytes, x: Bytes, b: Bytes, y: Bytes)
    requires |a| < TWO_TO_THE_64 && |b| < TWO_TO_THE_64 && Prefixed(a) + x == Prefixed(b) + y
    ensures a == b && x == y
  {
    var s := Prefixed(a) + x;
    assert s[..8] == BigEndian(|a|, 8) && s[..8] == BigEndian(|b|, 8);
    EightBytes();
    BigEndianInjective(|a|, |b|, 8);
    assert a == s[8..8 + |a|] && b == s[8..8 + |b|];
    assert x == s[8 + |a|..] && y == s[8 + |b|..];
  }

  lemma FrameParse(codec: Codec, e: Entry, x: Bytes, f: Entry, y: Bytes)
    requires forall s, t :: codec.utf8(s) == codec.utf8(t) ==> s == t
    requires Fits(codec, e) && Fits(codec, f) && Frame(codec, e) + x == Frame(codec, f) + y
    ensures e == f && x == y
  {
    var p, q := codec.utf8(e.path), codec.utf8(f.path);
    ConcatAssociates(Prefixed(p), Prefixed(e.payload), x);
    ConcatAssociates(Prefixed(q), Prefixed(f.payload), y);
    PrefixedParse(p, Prefixed(e.payload) + x, q, Prefixed(f.payload) + y);
    PrefixedParse(e.payload, x, f.payload, y);
  }

  lemma {:induction false} FramesParse(codec: Codec, a: seq<Entry>, b: seq<Entry>)
    requires forall s, t :: codec.utf8(s) == codec.utf8(t) ==> s == t
    requires AllFit(codec, a) && AllFit(codec, b) && Frames(codec, a) == Frames(codec, b)
    ensures a == b
    decreases |a|
  {
    if a != [] {
      FramesFromFront(codec, a);
    }
    if b != [] {
      FramesFromFront(codec, b);
    }
    if a != [] && b != [] {
      FrameParse(codec, a[0], Frames(codec, a[1..]), b[0], Frames(codec, b[1..]));
      FramesParse(codec, a[1..], b[1..]);
      assert a == [a[0]] + a[1..] && b == [b[0]] + b[1..];
    }
  }

  // ----- Contents -----

  function Contents(entries: seq<Entry>): map<string, Bytes> {
    if entries == [] then map[]
    else
      var last := entries[|entries| - 1];
      Contents(entries[..|entries| - 1])[last.path := last.payload]
  }

  lemma {:induction false} ContentsExactly(entries: seq<Entry>, e: Entry)
    requires Distinct(entries)
    ensures e in entries <==> e.path in Contents(entries) && Contents(entries)[e.path] == e.payload
    ensures e.path in Contents(entries) ==> Entry(e.path, Contents(entries)[e.path]) in entries
    decreases |entries|
  {
    if entries != [] {
      var n := |entries| - 1;
      ContentsExactly(entries[..n], e);
      assert entries == entries[..n] + [entries[n]];
      assert forall k :: 0 <= k < n ==> PathOf(entries[..n][k]) != PathOf(entries[n]);
    }
  }

  lemma SameContentsSameEntries(codec: Codec, one: seq<File>, other: seq<File>)
    requires Distinct(Entries(codec, one)) && Distinct(Entries(codec, other))
    requires Contents(Entries(codec, one)) == Contents(Entries(codec, other))
    ensures Entries(codec, one) == Entries(codec, other)
  {
    var a, b := Entries(codec, one), Entries(codec, other);
    EntriesAreSorted(codec, one);
    EntriesAreSorted(codec, other);
    forall e ensures e in a <==> e in b {
      ContentsExactly(a, e);
      ContentsExactly(b, e);
    }
    SortedOnce(a, b, PathOf);
  }

  /**
    The hashed stream is a canonical form of the tree: two trees that can be hashed have the same stream exactly
    when they map the same case-folded paths to the same bytes.
   */
  lemma StreamIsCanonical(codec: Codec, one: seq<File>, other: seq<File>)
    requires forall s, t :: codec.utf8(s) == codec.utf8(t) ==> s == t
    requires Build(codec, one).Ok? && Build(codec, other).Ok?
    ensures var a, b := Entries(codec, one), Entries(codec, other);
            Stream(codec, a) == Stream(codec, b) <==> Contents(a) == Contents(b)
  {
    var a, b := Entries(codec, one), Entries(codec, other);
    BuildsExactly(codec, one);
    BuildsExactly(codec, other);
    if Stream(codec, a) == Stream(codec, b) {
      assert Frames(codec, a) == Stream(codec, a)[|Header(codec)|..];
      assert Frames(codec, b) == Stream(codec, b)[|Header(codec)|..];
      FramesParse(codec, a, b);
    }
    if Contents(a) == Contents(b) {
      SameContentsSameEntries(codec, one, other);
    }
  }

  // ----- The verifier -----

  // Logical path to content hash, of the live tree ...
  function Actual(codec: Codec, entries: seq<Entry>): map<string, string> {
    if entries == [] then map[]
    else
      var last := entries[|entries| - 1];
      Actual(codec, entries[..|entries| - 1])[PREFIX + last.path := codec.sha256(last.payload)]
  }

  // ... and of the recorded baseline.
  function Recorded(codec: Codec, files: seq<BaselineFile>): map<string, string> {
    if files == [] then map[]
    else
      var last := files[|files| - 1];
      Recorded(codec, files[..|files| - 1])[Casefold(codec, last.path) := last.sha256]
  }

  // The recorded tree hash, under either of its names.
  function ExpectedHash(b: Baseline): Option<string> {
    if b.treeSha256.Some? && b.treeSha256.value != "" then b.treeSha256 else b.aggregateSha256
  }

  function Verify(codec: Codec, b: Baseline, live: seq<File>): Result<nat, TreeError> {
    var entries := Entries(codec, live);
    var problem := FirstProblem(codec, entries, |entries|);
    if b.activeSourceRoot != ROOT then Err(WrongRoot)
    else if problem.Some? then Err(problem.value)
    else if Actual(codec, entries) != Recorded(codec, b.files) then Err(FilesDiffer)
    else if b.treeAlgorithm != ALGORITHM then Err(UnsupportedAlgorithm)
    else if ExpectedHash(b) != Some(codec.sha256(Stream(codec, entries))) then Err(TreeHashDiffers)
    else Ok(|entries|)
  }

  method VerifySourceBaseline(codec: Codec, b: Baseline, live: seq<File>) returns (r: Result<nat, TreeError>)
    ensures r == Verify(codec, b, live)
  {
    if b.activeSourceRoot != ROOT {
      return Err(WrongRoot);
    }
    var sorted := SortBy(live, FoldedPath(codec));
    var problem, digest, actual := RehashFiles(codec, sorted, Entries(codec, live));
    if problem.Some? {
      return Err(problem.value);
    }
    var recorded := RecordedMap(codec, b.files);
    if actual != recorded {
      return Err(FilesDiffer);
    }
    var expected := ExpectedHash(b);
    if b.treeAlgorithm != ALGORITHM {
      return Err(UnsupportedAlgorithm);
    }
    if expected != Some(codec.sha256(digest)) {
      return Err(TreeHashDiffers);
    }
    return Ok(|actual|);
  }

  // The verifier's loop over the sorted candidates.
  method RehashFiles(codec: Codec, sorted: seq<File>, ghost entries: seq<Entry>)
    returns (problem: Option<TreeError>, digest: Bytes, actual: map<string, string>)
    requires |sorted| == |entries| && forall k :: 0 <= k < |sorted| ==> entries[k] == Folded(codec)(sorted[k])
    ensures problem == FirstProblem(codec, entries, |entries|)
    ensures problem.None? ==>
              digest == Stream(codec, entries) && actual == Actual(codec, entries) && |actual| == |entries|
  {
    actual, digest := map[], Header(codec);
    for i := 0 to |sorted|
      invariant Rehashed(codec, entries, i, digest, actual)
    {
      problem, digest, actual := RehashFile(codec, sorted[i], entries, i, digest, actual);
      if problem.Some? {
        FirstProblemStays(codec, entries, i + 1);
        return;
      }
    }
    assert entries[..|entries|] == entries;
    return None, digest, actual;
  }

  // What the loop has made of the first i entries.
  ghost predicate Rehashed(codec: Codec, entries: seq<Entry>, i: nat, digest: Bytes, actual: map<string, string>)
    requires i <= |entries|
  {
    && FirstProblem(codec, entries, i).None? && digest == Stream(codec, entries[..i])
    && actual == Actual(codec, entries[..i]) && |actual| == i && actual.Keys == LogicalPathsUpTo(entries, i)
  }

  // One turn of the verifier's loop.
  method RehashFile(codec: Codec, file: File, ghost entries: seq<Entry>, ghost i: nat, before: Bytes,
                    known: map<string, string>)
    returns (problem: Option<TreeError>, digest: Bytes, actual: map<string, string>)
    requires i < |entries| && entries[i] == Folded(codec)(file) && Rehashed(codec, entries, i, before, known)
    ensures problem == FirstProblem(codec, entries, i + 1)
    ensures problem.None? ==> Rehashed(codec, entries, i + 1, digest, actual)
  {
    digest, actual := before, known;
    var relative := Casefold(codec, file.path);
    var logical := PREFIX + relative;
    var payload := file.payload;
    assert entries[i] == Entry(relative, payload);
    SeenByLogicalPath(entries, i, relative);
    if logical in actual {
      return Some(PathCollision), digest, actual;
    }
    var pathBytes := codec.utf8(relative);
    if |pathBytes| >= TWO_TO_THE_64 || |payload| >= TWO_TO_THE_64 {
      return Some(LengthOverflow), digest, actual;
    }
    digest := UpdateFrame(digest, pathBytes, payload);
    OneMoreFrame(codec, entries, i);
    actual := RecordHash(codec, actual, entries, i, logical, payload);
    return None, digest, actual;
  }

  method RecordHash(codec: Codec, before: map<string, string>, ghost entries: seq<Entry>, ghost i: nat,
                    logical: string, payload: Bytes)
    returns (actual: map<string, string>)
    requires i < |entries| && logical == PREFIX + entries[i].path && payload == entries[i].payload && logical !in before
    requires before == Actual(codec, entries[..i]) && |before| == i && before.Keys == LogicalPathsUpTo(entries, i)
    ensures actual == Actual(codec, entries[..i + 1]) && |actual| == i + 1
    ensures actual.Keys == LogicalPathsUpTo(entries, i + 1)
  {
    actual := before[logical := codec.sha256(payload)];
    assert entries[..i + 1][..i] == entries[..i];
    OneMoreKey(before, logical, codec.sha256(payload));
    OneMoreLogicalPath(entries, i);
  }

  lemma OneMoreKey(m: map<string, string>, key: string, value: string)
    requires key !in m
    ensures m[key := value].Keys == m.Keys + {key} && |m[key := value]| == |m| + 1
  {
    var more := m[key := value];
    assert more.Keys == m.Keys + {key};
    assert |more| == |more.Keys| && |m| == |m.Keys|;
  }

  lemma OneMoreLogicalPath(entries: seq<Entry>, i: nat)
    requires i < |entries|
    ensures LogicalPathsUpTo(entries, i + 1) == LogicalPathsUpTo(entries, i) + {PREFIX + entries[i].path}
  {
  }

  function LogicalPathsUpTo(entries: seq<Entry>, n: nat): set<string>
    requires n <= |entries|
  {
    set k | 0 <= k < n :: PREFIX + entries[k].path
  }

  lemma SeenByLogicalPath(entries: seq<Entry>, i: nat, path: string)
    requires i <= |entries|
    ensures PREFIX + path in LogicalPathsUpTo(entries, i) <==> path in PathsUpTo(entries, i)
  {
    forall k | 0 <= k < i ensures PREFIX + entries[k].path == PREFIX + path <==> entries[k].path == path {
      SamePrefix(PREFIX, entries[k].path, path);
    }
  }

  lemma SamePrefix(prefix: string, a: string, b: string)
    ensures prefix + a == prefix + b <==> a == b
  {
    assert (prefix + a)[|prefix|..] == a && (prefix + b)[|prefix|..] == b;
  }

  method RecordedMap(codec: Codec, files: seq<BaselineFile>) returns (recorded: map<string, string>)
    ensures recorded == Recorded(codec, files)
  {
    recorded := map[];
    for i := 0 to |files|
      invariant recorded == Recorded(codec, files[..i])
    {
      assert files[..i + 1][..i] == files[..i];
      recorded := recorded[Casefold(codec, files[i].path) := files[i].sha256];
    }
    assert files[..|files|] == files;
  }

  // ----- Builder and verifier -----

  lemma {:induction false} CasefoldConcat(codec: Codec, a: string, b: string)
    ensures Casefold(codec, a + b) == Casefold(codec, a) + Casefold(codec, b)
  {
    if a == [] {
      assert a + b == b;
    } else {
      CasefoldConcat(codec, a[1..], b);
      assert (a + b)[1..] == a[1..] + b;
    }
  }

  lemma {:induction false} CasefoldTwice(codec: Codec, s: string)
    requires FoldsOnce(codec)
    ensures Casefold(codec, Casefold(codec, s)) == Casefold(codec, s)
  {
    if s != [] {
      CasefoldTwice(codec, s[1..]);
      CasefoldConcat(codec, codec.fold(s[0]), Casefold(codec, s[1..]));
    }
  }

  ghost predicate AllFolded(codec: Codec, entries: seq<Entry>) {
    forall k :: 0 <= k < |entries| ==> Casefold(codec, entries[k].path) == entries[k].path
  }

  lemma EntriesAreFolded(codec: Codec, candidates: seq<File>)
    requires FoldsOnce(codec)
    ensures AllFolded(codec, Entries(codec, candidates))
  {
    var sorted := SortBy(candidates, FoldedPath(codec));
    forall k | 0 <= k < |sorted|
      ensures Casefold(codec, Entries(codec, candidates)[k].path) == Entries(codec, candidates)[k].path
    {
      CasefoldTwice(codec, sorted[k].path);
    }
  }

  // The paths the builder writes read back as themselves.
  lemma {:induction false} RecordsWhatItLists(codec: Codec, entries: seq<Entry>)
    requires FoldsOnce(codec) && AllFolded(codec, entries)
    ensures Recorded(codec, Map(Listing(codec), entries)) == Actual(codec, entries)
    decreases |entries|
  {
    if entries != [] {
      var n := |entries| - 1;
      var files := Map(Listing(codec), entries);
      assert files[..n] == Map(Listing(codec), entries[..n]);
      RecordsWhatItLists(codec, entries[..n]);
      CasefoldConcat(codec, PREFIX, entries[n].path);
    }
  }

  lemma {:induction false} ActualExactly(codec: Codec, entries: seq<Entry>, path: string)
    requires Distinct(entries)
    ensures PREFIX + path in Actual(codec, entries) <==> path in Contents(entries)
    ensures path in Contents(entries) ==>
              Actual(codec, entries)[PREFIX + path] == codec.sha256(Contents(entries)[path])
    decreases |entries|
  {
    if entries != [] {
      var n := |entries| - 1;
      ActualExactly(codec, entries[..n], path);
      SamePrefix(PREFIX, path, entries[n].path);
    }
  }

  lemma {:induction false} ActualPaths(codec: Codec, entries: seq<Entry>)
    ensures forall k <- Actual(codec, entries) :: |k| >= |PREFIX| && k == PREFIX + k[|PREFIX|..]
    decreases |entries|
  {
    if entries != [] {
      var n := |entries| - 1;
      ActualPaths(codec, entries[..n]);
      var logical := PREFIX + entries[n].path;
      assert logical[|PREFIX|..] == entries[n].path;
    }
  }

  // The same paths, with payloads of the same hash under each.
  ghost predicate SameHashes(codec: Codec, a: seq<Entry>, b: seq<Entry>) {
    && Contents(a).Keys == Contents(b).Keys
    && forall p :: p in Contents(a) && p in Contents(b) ==>
         codec.sha256(Contents(a)[p]) == codec.sha256(Contents(b)[p])
  }

  lemma ActualGivesHashes(codec: Codec, a: seq<Entry>, b: seq<Entry>)
    requires Distinct(a) && Distinct(b) && Actual(codec, a) == Actual(codec, b)
    ensures SameHashes(codec, a, b)
  {
    forall p
      ensures p in Contents(a) <==> p in Contents(b)
      ensures p in Contents(a) && p in Contents(b) ==>
                codec.sha256(Contents(a)[p]) == codec.sha256(Contents(b)[p])
    {
      ActualExactly(codec, a, p);
      ActualExactly(codec, b, p);
    }
  }

  lemma HashesGiveActual(codec: Codec, a: seq<Entry>, b: seq<Entry>)
    requires Distinct(a) && Distinct(b) && SameHashes(codec, a, b)
    ensures Actual(codec, a) == Actual(codec, b)
  {
    ActualPaths(codec, a);
    ActualPaths(codec, b);
    forall k | k in Actual(codec, a) || k in Actual(codec, b)
      ensures k in Actual(codec, a) && k in Actual(codec, b) && Actual(codec, a)[k] == Actual(codec, b)[k]
    {
      ActualExactly(codec, a, k[|PREFIX|..]);
      ActualExactly(codec, b, k[|PREFIX|..]);
    }
  }

  /**
    For any hash: the verifier accepts a tree against the baseline of another exactly when the tree has no
    case-insensitive collision, fits the length fields, has the same case-folded paths with payloads of the same
    hash, and streams of the same hash.
   */
  lemma VerifierAcceptsExactly(codec: Codec, built: seq<File>, live: seq<File>)
    requires FoldsOnce(codec) && Build(codec, built).Ok?
    ensures var a, b := Entries(codec, built), Entries(codec, live);
            Verify(codec, Build(codec, built).value, live).Ok? <==>
            && Distinct(b) && AllFit(codec, b) && SameHashes(codec, a, b)
            && codec.sha256(Stream(codec, a)) == codec.sha256(Stream(codec, b))
  {
    var a, b := Entries(codec, built), Entries(codec, live);
    BuildsExactly(codec, built);
    BuildsExactly(codec, live);
    EntriesAreFolded(codec, built);
    RecordsWhatItLists(codec, a);
    if Distinct(b) {
      if Actual(codec, a) == Actual(codec, b) {
        ActualGivesHashes(codec, a, b);
      }
      if SameHashes(codec, a, b) {
        HashesGiveActual(codec, a, b);
      }
    }
  }

  // No file of one tree collides with the file under the same path in the other.
  ghost predicate NoFileCollides(codec: Codec, a: seq<Entry>, b: seq<Entry>) {
    forall p :: p in Contents(a) && p in Contents(b) && codec.sha256(Contents(a)[p]) == codec.sha256(Contents(b)[p])
      ==> Contents(a)[p] == Contents(b)[p]
  }

  // Unless two files under one path collide, what is accepted is the built tree itself, and the hash of the
  // whole stream adds nothing.
  lemma AcceptedIsUnchanged(codec: Codec, built: seq<File>, live: seq<File>)
    requires FoldsOnce(codec) && Build(codec, built).Ok?
    requires NoFileCollides(codec, Entries(codec, built), Entries(codec, live))
    ensures var a, b := Entries(codec, built), Entries(codec, live);
            Verify(codec, Build(codec, built).value, live).Ok? <==>
            Distinct(b) && AllFit(codec, b) && Contents(a) == Contents(b)
  {
    var a, b := Entries(codec, built), Entries(codec, live);
    VerifierAcceptsExactly(codec, built, live);
    BuildsExactly(codec, built);
    if Distinct(b) && Contents(a) == Contents(b) {
      SameContentsSameEntries(codec, built, live);
    }
  }

  // So an unchanged tree passes, in whatever order it is walked, and its files are all counted.
  lemma VerifierAcceptsTheBuiltTree(codec: Codec, built: seq<File>, live: seq<File>)
    requires FoldsOnce(codec) && Build(codec, built).Ok? && multiset(built) == multiset(live)
    ensures Verify(codec, Build(codec, built).value, live) == Ok(|live|)
  {
    BuildsExactly(codec, built);
    OrderedTheSame(codec, built, live);
    EntriesAreFolded(codec, built);
    RecordsWhatItLists(codec, Entries(codec, built));
  }
}
