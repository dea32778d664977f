/** The hashed stream and the manifest, read by the rules of their format. */
module SourceTreeFormat {
  import opened Wrappers
  import opened Octets
  import opened Sequences
  import opened SourceTree

  // ----- A reader of the stream -----

  // The number that bytes say, the most significant first.
  function Value(b: Bytes): nat {
    if b == [] then 0 else 256 * Value(b[..|b| - 1]) + b[|b| - 1] as nat
  }

  lemma {:induction false} BigEndianSays(n: nat, width: nat)
    requires n < Power256(width)
    ensures Value(BigEndian(n, width)) == n
  {
    if width > 0 {
      BigEndianSays(n / 256, width - 1);
      assert BigEndian(n, width)[..width - 1] == BigEndian(n / 256, width - 1);
    }
  }

  // A field is eight bytes that say its length, and as many bytes.
  function ReadField(s: Bytes): Option<(Bytes, Bytes)> {
    if |s| < 8 || |s| - 8 < Value(s[..8]) then None
    else
      var end := 8 + Value(s[..8]);
      Some((s[8..end], s[end..]))
  }

  function ReadFields(s: Bytes): Option<seq<Bytes>>
    decreases |s|
  {
    if s == [] then Some([])
    else
      match ReadField(s)
      case None => None
      case Some((field, rest)) =>
        var more := ReadFields(rest);
        if more.None? then None else Some([field] + more.value)
  }

  // The path and the contents of each file, in turn.
  function FieldsOf(codec: Codec, entries: seq<Entry>): seq<Bytes> {
    if entries == [] then []
    else [codec.utf8(entries[0].path), entries[0].payload] + FieldsOf(codec, entries[1..])
  }

  lemma PrefixedReads(b: Bytes, rest: Bytes)
    requires |b| < TWO_TO_THE_64
    ensures ReadField(Prefixed(b) + rest) == Some((b, rest))
  {
    var s := Prefixed(b) + rest;
    EightBytes();
    BigEndianSays(|b|, 8);
    assert s[..8] == BigEndian(|b|, 8);
    assert s[8..8 + |b|] == b && s[8 + |b|..] == rest;
  }

  // Two fields and more.
  lemma FrameReads(path: Bytes, payload: Bytes, rest: Bytes, fields: seq<Bytes>)
    requires |path| < TWO_TO_THE_64 && |payload| < TWO_TO_THE_64 && ReadFields(rest) == Some(fields)
    ensures ReadFields(Prefixed(path) + (Prefixed(payload) + rest)) == Some([path] + ([payload] + fields))
  {
    var after := Prefixed(payload) + rest;
    PrefixedReads(path, after);
    PrefixedReads(payload, rest);
    assert ReadFields(after) == Some([payload] + fields);
  }

  lemma {:induction false} FramesRead(codec: Codec, entries: seq<Entry>)
    requires AllFit(codec, entries)
    ensures ReadFields(Frames(codec, entries)) == Some(FieldsOf(codec, entries))
  {
    if entries != [] {
      var e, tail := entries[0], entries[1..];
      var path, fields := codec.utf8(e.path), FieldsOf(codec, entries[1..]);
      assert forall k :: 0 <= k < |tail| ==> tail[k] == entries[k + 1];
      FramesRead(codec, tail);
      FramesFromFront(codec, entries);
      ConcatAssociates(Prefixed(path), Prefixed(e.payload), Frames(codec, tail));
      FrameReads(path, e.payload, Frames(codec, tail), fields);
      ConcatAssociates([path], [e.payload], fields);
      assert [path] + [e.payload] == [path, e.payload];
    }
  }

  // A reader that knows the format gets every path and every file back: after the algorithm's name and a zero byte,
  // each length in eight bytes, the most significant first, and as many bytes.
  lemma StreamReads(codec: Codec, candidates: seq<File>)
    requires Build(codec, candidates).Ok?
    ensures var entries := Entries(codec, candidates);
            var s := Stream(codec, entries);
            var name := codec.utf8("pilot-assessment-source-tree-v2");
            && |s| > |name| && s[..|name|] == name && s[|name|] == 0
            && ReadFields(s[|name| + 1..]) == Some(FieldsOf(codec, entries))
  {
    var entries := Entries(codec, candidates);
    BuildsExactly(codec, candidates);
    FramesRead(codec, entries);
    assert Stream(codec, entries)[|Header(codec)|..] == Frames(codec, entries);
  }

  // ----- What the baseline says -----

  // The entries are the files, under their folded paths.
  lemma EntriesAreTheFiles(codec: Codec, candidates: seq<File>, e: Entry)
    ensures e in Entries(codec, candidates) <==>
            exists f <- candidates :: e == Entry(Casefold(codec, f.path), f.payload)
  {
    var sorted, entries := SortBy(candidates, FoldedPath(codec)), Entries(codec, candidates);
    if e in entries {
      var k :| 0 <= k < |entries| && entries[k] == e;
      assert sorted[k] in candidates;
    }
    if f :| f in candidates && e == Entry(Casefold(codec, f.path), f.payload) {
      var k :| 0 <= k < |sorted| && sorted[k] == f;
      assert entries[k] == e;
    }
  }

  // The files in the order of their folded paths, each with its own hash and size, and the hash of the whole stream.
  lemma BaselineSays(codec: Codec, candidates: seq<File>)
    requires Build(codec, candidates).Ok?
    ensures var b, entries := Build(codec, candidates).value, Entries(codec, candidates);
            && b.activeSourceRoot == "backend/src/pilot_assessment"
            && b.treeAlgorithm == "pilot-assessment-source-tree-v2"
            && b.treeSha256 == b.aggregateSha256 == Some(codec.sha256(Stream(codec, entries)))
            && |b.files| == |entries| == |candidates| && Sorted(entries, PathOf)
            && forall k :: 0 <= k < |entries| ==>
                 b.files[k] == BaselineFile("backend/src/pilot_assessment/" + entries[k].path,
                                            codec.sha256(entries[k].payload), |entries[k].payload|)
  {
    EntriesAreSorted(codec, candidates);
  }

  // ----- Any manifest against any tree -----

  // The hash a manifest records for a logical path: that of the last file listed under it.
  ghost predicate Records(codec: Codec, files: seq<BaselineFile>, path: string, hash: string) {
    exists k :: 0 <= k < |files| && LastAt(codec, files, path, hash, k)
  }

  ghost predicate Maps(m: map<string, string>, path: string, hash: string) {
    path in m && m[path] == hash
  }

  ghost predicate LastAt(codec: Codec, files: seq<BaselineFile>, path: string, hash: string, k: nat)
    requires k < |files|
  {
    && Casefold(codec, files[k].path) == path && files[k].sha256 == hash
    && forall j :: k < j < |files| ==> Casefold(codec, files[j].path) != path
  }

  lemma LastAtMore(codec: Codec, files: seq<BaselineFile>, path: string, hash: string, k: nat, last: BaselineFile)
    requires k < |files| && Casefold(codec, last.path) != path
    ensures LastAt(codec, files, path, hash, k) <==> LastAt(codec, files + [last], path, hash, k)
  {
    var all := files + [last];
    assert forall j :: 0 <= j < |files| ==> all[j] == files[j];
  }

  lemma {:induction false} RecordedExactly(codec: Codec, files: seq<BaselineFile>, path: string, hash: string)
    ensures Maps(Recorded(codec, files), path, hash) <==> Records(codec, files, path, hash)
    decreases |files|
  {
    if files != [] {
      var n := |files| - 1;
      var init, last := files[..n], files[n];
      assert files == init + [last];
      if Casefold(codec, last.path) == path {
        assert LastAt(codec, files, path, last.sha256, n);
      } else {
        RecordedExactly(codec, init, path, hash);
        forall k | 0 <= k < n ensures LastAt(codec, init, path, hash, k) == LastAt(codec, files, path, hash, k) {
          LastAtMore(codec, init, path, hash, k, last);
        }
      }
    }
  }

  // The live file under a logical path has that hash.
  ghost predicate Holds(codec: Codec, entries: seq<Entry>, path: string, hash: string) {
    exists e <- entries :: path == PREFIX + e.path && codec.sha256(e.payload) == hash
  }

  lemma ActualHolds(codec: Codec, entries: seq<Entry>, path: string, hash: string)
    requires Distinct(entries)
    ensures Maps(Actual(codec, entries), path, hash) <==> Holds(codec, entries, path, hash)
  {
    ActualPaths(codec, entries);
    if path in Actual(codec, entries) {
      var relative := path[|PREFIX|..];
      ActualExactly(codec, entries, relative);
      ContentsExactly(entries, Entry(relative, Contents(entries)[relative]));
    }
    if Holds(codec, entries, path, hash) {
      var e :| e in entries && path == PREFIX + e.path && codec.sha256(e.payload) == hash;
      ContentsExactly(entries, e);
      ActualExactly(codec, entries, e.path);
    }
  }

  lemma SameMaps(a: map<string, string>, b: map<string, string>)
    requires forall path, hash :: Maps(a, path, hash) <==> Maps(b, path, hash)
    ensures a == b
  {
    forall path | path in a || path in b ensures path in a && path in b && a[path] == b[path] {
      assert path in a ==> Maps(a, path, a[path]);
      assert path in b ==> Maps(b, path, b[path]);
    }
  }

  /**
    Any manifest is accepted for a tree exactly when it names the source root and the algorithm, the tree has no
    case-insensitive collision and fits the length fields, the manifest records for each path the hash the file there
    has and no other path, and the stream's hash is the recorded tree hash or, without one, the aggregate hash.
   */
  lemma ManifestAcceptedExactly(codec: Codec, b: Baseline, live: seq<File>)
    ensures var entries := Entries(codec, live);
            var recordedHash := if b.treeSha256 in {None, Some("")} then b.aggregateSha256 else b.treeSha256;
            Verify(codec, b, live).Ok? <==>
            && b.activeSourceRoot == "backend/src/pilot_assessment"
            && b.treeAlgorithm == "pilot-assessment-source-tree-v2"
            && Distinct(entries) && AllFit(codec, entries)
            && (forall path, hash :: Holds(codec, entries, path, hash) <==> Records(codec, b.files, path, hash))
            && recordedHash == Some(codec.sha256(Stream(codec, entries)))
  {
    var entries := Entries(codec, live);
    NoProblemExactly(codec, entries, |entries|);
    assert entries[..|entries|] == entries;
    if Distinct(entries) {
      forall path, hash
        ensures Maps(Actual(codec, entries), path, hash)
                <==> Holds(codec, entries, path, hash)
        ensures Maps(Recorded(codec, b.files), path, hash)
                <==> Records(codec, b.files, path, hash)
      {
        ActualHolds(codec, entries, path, hash);
        RecordedExactly(codec, b.files, path, hash);
      }
      if forall path, hash :: Holds(codec, entries, path, hash) <==> Records(codec, b.files, path, hash) {
        SameMaps(Actual(codec, entries), Recorded(codec, b.files));
      }
    }
  }

  // The first reason for a refusal, in the order of the checks.
  lemma RefusalsInOrder(codec: Codec, b: Baseline, live: seq<File>)
    ensures var r := Verify(codec, b, live);
            && (r == Err(WrongRoot) <==> b.activeSourceRoot != ROOT)
            && (r.Ok? || r == Err(TreeHashDiffers) ==> b.treeAlgorithm == ALGORITHM)
            && (r.Ok? ==> r.value == |live|)
            && (r == Err(UnsupportedAlgorithm) ==>
                  b.treeAlgorithm != ALGORITHM && Actual(codec, Entries(codec, live)) == Recorded(codec, b.files))
  {
    if FirstProblem(codec, Entries(codec, live), |live|).Some? {
      ProblemKinds(codec, Entries(codec, live), |live|);
    }
  }

  lemma {:induction false} ProblemKinds(codec: Codec, entries: seq<Entry>, n: nat)
    requires n <= |entries| && FirstProblem(codec, entries, n).Some?
    ensures FirstProblem(codec, entries, n).value in {PathCollision, LengthOverflow}
  {
    if FirstProblem(codec, entries, n - 1).Some? {
      ProblemKinds(codec, entries, n - 1);
    }
  }
}
