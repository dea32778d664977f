/**
  The byte stream hashed for the identity of a project's models: one line per object, its fields separated by
  NUL.  Fields are the encoded column values.
 */
module ModelIdentity {
  import opened Octets
  import Delimited
  import Sequences

  datatype Row = Row(identity: Bytes, contentHash: Bytes, layoutHash: Bytes)

  const NUL: byte := 0
  const LINE_FEED: byte := 10
  const NODE: Bytes := [110, 111, 100, 101]
  const SCHEME: Bytes := [115, 99, 104, 101, 109, 101]

  function Fields(kind: Bytes, row: Row): seq<Bytes> {
    [kind, row.identity, row.contentHash, row.layoutHash]
  }

  function Line(kind: Bytes, row: Row): Bytes {
    Delimited.Join(Fields(kind, row), NUL) + [LINE_FEED]
  }

  function Lines(kind: Bytes, rows: seq<Row>): Bytes {
    if rows == [] then [] else Lines(kind, rows[..|rows| - 1]) + Line(kind, rows[|rows| - 1])
  }

  function IdentityStream(nodes: seq<Row>, schemes: seq<Row>): Bytes {
    Lines(NODE, nodes) + Lines(SCHEME, schemes)
  }

  lemma JoinFour(a: Bytes, b: Bytes, c: Bytes, d: Bytes)
    ensures Delimited.Join([a, b, c, d], NUL) == a + [NUL] + (b + [NUL] + (c + [NUL] + d))
  {
    assert [a, b, c, d][1..] == [b, c, d] && [b, c, d][1..] == [c, d] && [c, d][1..] == [d];
    assert Delimited.Join([c, d], NUL) == c + [NUL] + d;
    assert Delimited.Join([b, c, d], NUL) == b + [NUL] + (c + [NUL] + d);
  }

  lemma UpdatesAreALine(hashed: Bytes, kind: Bytes, row: Row)
    ensures hashed + kind + [NUL] + row.identity + [NUL] + row.contentHash + [NUL] + row.layoutHash + [LINE_FEED]
            == hashed + Line(kind, row)
  {
    JoinFour(kind, row.identity, row.contentHash, row.layoutHash);
  }

  method UpdateRow(before: Bytes, kind: Bytes, row: Row) returns (hashed: Bytes)
    ensures hashed == before + Line(kind, row)
  {
    hashed := before;
    hashed := hashed + kind + [NUL];
    hashed := hashed + row.identity + [NUL];
    hashed := hashed + row.contentHash + [NUL];
    hashed := hashed + row.layoutHash + [LINE_FEED];
    UpdatesAreALine(before, kind, row);
  }

  method UpdateRows(before: Bytes, kind: Bytes, rows: seq<Row>) returns (hashed: Bytes)
    ensures hashed == before + Lines(kind, rows)
  {
    hashed := before;
    for i := 0 to |rows|
      invariant hashed == before + Lines(kind, rows[..i])
    {
      assert rows[..i + 1][..i] == rows[..i];
      hashed := UpdateRow(hashed, kind, rows[i]);
    }
    assert rows[..|rows|] == rows;
  }

  method ModelIdentity(nodes: seq<Row>, schemes: seq<Row>, sha256: Bytes -> string)
    returns (digest: string, nodeCount: nat, schemeCount: nat)
    ensures digest == sha256(IdentityStream(nodes, schemes))
    ensures nodeCount == |nodes| && schemeCount == |schemes|
  {
    var hashed := UpdateRows([], NODE, nodes);
    hashed := UpdateRows(hashed, SCHEME, schemes);
    assert hashed == IdentityStream(nodes, schemes);
    return sha256(hashed), |nodes|, |schemes|;
  }

  // ----- The stream as parts between NULs -----

  datatype Kind = Node | Scheme

  function Name(kind: Kind): Bytes {
    if kind.Node? then NODE else SCHEME
  }

  // One line of the stream.
  datatype Item = Item(kind: Kind, row: Row)

  function Tagged(kind: Kind, rows: seq<Row>): seq<Item> {
    seq(|rows|, k requires 0 <= k < |rows| => Item(kind, rows[k]))
  }

  function Items(nodes: seq<Row>, schemes: seq<Row>): seq<Item> {
    Tagged(Node, nodes) + Tagged(Scheme, schemes)
  }

  function Emit(items: seq<Item>): Bytes {
    if items == [] then []
    else
      var last := items[|items| - 1];
      Emit(items[..|items| - 1]) + Line(Name(last.kind), last.row)
  }

  lemma {:induction false} LinesAreEmitted(kind: Kind, rows: seq<Row>)
    ensures Lines(Name(kind), rows) == Emit(Tagged(kind, rows))
  {
    if rows != [] {
      var n := |rows| - 1;
      LinesAreEmitted(kind, rows[..n]);
      assert Tagged(kind, rows)[..n] == Tagged(kind, rows[..n]);
    }
  }

  lemma {:induction false} EmitConcat(a: seq<Item>, b: seq<Item>)
    ensures Emit(a + b) == Emit(a) + Emit(b)
    decreases |b|
  {
    if b == [] {
      assert a + b == a;
    } else {
      var n := |b| - 1;
      EmitConcat(a, b[..n]);
      assert (a + b)[..|a + b| - 1] == a + b[..n] && (a + b)[|a + b| - 1] == b[n];
      Sequences.ConcatAssociates(Emit(a), Emit(b[..n]), Line(Name(b[n].kind), b[n].row));
    }
  }

  lemma StreamIsEmitted(nodes: seq<Row>, schemes: seq<Row>)
    ensures IdentityStream(nodes, schemes) == Emit(Items(nodes, schemes))
  {
    LinesAreEmitted(Node, nodes);
    LinesAreEmitted(Scheme, schemes);
    EmitConcat(Tagged(Node, nodes), Tagged(Scheme, schemes));
  }

  // A line's layout hash, its line feed and the next line's kind share a part.
  function Parts(items: seq<Item>): (parts: seq<Bytes>)
    ensures |parts| == 3 * |items| + 1
  {
    if items == [] then [[]]
    else
      var last := items[|items| - 1];
      WithLine(Parts(items[..|items| - 1]), Name(last.kind), last.row)
  }

  function WithLine(before: seq<Bytes>, kind: Bytes, row: Row): (parts: seq<Bytes>)
    requires |before| >= 1
    ensures |parts| == |before| + 3
  {
    var n := |before| - 1;
    before[..n] + [before[n] + kind] + [row.identity] + [row.contentHash] + [row.layoutHash + [LINE_FEED]]
  }

  lemma WithLineJoined(before: seq<Bytes>, kind: Bytes, row: Row)
    requires |before| >= 1
    ensures Delimited.Join(WithLine(before, kind, row), NUL) == Delimited.Join(before, NUL) + Line(kind, row)
  {
    var n := |before| - 1;
    var one := before[..n] + [before[n] + kind];
    var two := one + [row.identity];
    var three := two + [row.contentHash];
    var joined := Delimited.Join(before, NUL);
    Delimited.JoinLengthensLast(before, kind, NUL);
    Delimited.JoinAppend(one, row.identity, NUL);
    Delimited.JoinAppend(two, row.contentHash, NUL);
    Delimited.JoinAppend(three, row.layoutHash + [LINE_FEED], NUL);
    UpdatesAreALine(joined, kind, row);
    Sequences.ConcatAssociates(
      joined + kind + [NUL] + row.identity + [NUL] + row.contentHash + [NUL], row.layoutHash, [LINE_FEED]);
  }

  lemma {:induction false} EmittedIsJoined(items: seq<Item>)
    ensures Emit(items) == Delimited.Join(Parts(items), NUL)
  {
    if items != [] {
      var n := |items| - 1;
      EmittedIsJoined(items[..n]);
      WithLineJoined(Parts(items[..n]), Name(items[n].kind), items[n].row);
    }
  }

  // ----- Injectivity -----

  predicate NulFree(row: Row) {
    NUL !in row.identity && NUL !in row.contentHash && NUL !in row.layoutHash
  }

  ghost predicate AllNulFree(rows: seq<Row>) {
    forall k :: 0 <= k < |rows| ==> NulFree(rows[k])
  }

  ghost predicate ItemsNulFree(items: seq<Item>) {
    forall k :: 0 <= k < |items| ==> NulFree(items[k].row)
  }

  lemma {:induction false} PartsAreFree(items: seq<Item>)
    requires ItemsNulFree(items)
    ensures Delimited.Free(Parts(items), NUL)
  {
    if items != [] {
      var n := |items| - 1;
      PartsAreFree(items[..n]);
      assert NUL !in Name(items[n].kind);
    }
  }

  // The kinds' names end differently, so a shared part tells which kind follows the line feed.
  lemma LastKind(a: Bytes, b: Bytes, kind: Kind, kind': Kind)
    requires a + Name(kind) == b + Name(kind')
    ensures a == b && kind == kind'
  {
    var s, name, name' := a + Name(kind), Name(kind), Name(kind');
    assert s[|s| - 2] == name[|name| - 2] && s[|s| - 2] == name'[|name'| - 2];
    assert a == s[..|s| - |name|] && b == s[..|s| - |name'|];
  }

  lemma WithLineUnique(p: seq<Bytes>, a: Item, p': seq<Bytes>, b: Item)
    requires |p| == |p'| >= 1 && WithLine(p, Name(a.kind), a.row) == WithLine(p', Name(b.kind), b.row)
    ensures p == p' && a == b
  {
    var n := |p| - 1;
    var w, w' := WithLine(p, Name(a.kind), a.row), WithLine(p', Name(b.kind), b.row);
    assert w[n] == p[n] + Name(a.kind) && w'[n] == p'[n] + Name(b.kind);
    assert w[n + 1] == a.row.identity && w'[n + 1] == b.row.identity;
    assert w[n + 2] == a.row.contentHash && w'[n + 2] == b.row.contentHash;
    assert w[n + 3] == a.row.layoutHash + [LINE_FEED] && w'[n + 3] == b.row.layoutHash + [LINE_FEED];
    assert a.row.layoutHash == w[n + 3][..|w[n + 3]| - 1] && b.row.layoutHash == w'[n + 3][..|w'[n + 3]| - 1];
    LastKind(p[n], p'[n], a.kind, b.kind);
    assert w[..n] == p[..n] && w'[..n] == p'[..n];
    assert p == p[..n] + [p[n]] && p' == p'[..n] + [p'[n]];
  }

  lemma LastItemUnique(a: seq<Item>, b: seq<Item>, n: nat)
    requires |a| == |b| == n + 1 && Parts(a) == Parts(b)
    ensures Parts(a[..n]) == Parts(b[..n]) && a[n] == b[n]
  {
    WithLineUnique(Parts(a[..n]), a[n], Parts(b[..n]), b[n]);
  }

  lemma SameWithLast(a: seq<Item>, b: seq<Item>, n: nat)
    requires |a| == |b| == n + 1 && a[..n] == b[..n] && a[n] == b[n]
    ensures a == b
  {
    assert a == a[..n] + [a[n]];
    assert b == b[..n] + [b[n]];
  }

  lemma {:induction false} PartsAreUnique(a: seq<Item>, b: seq<Item>)
    requires Parts(a) == Parts(b)
    ensures a == b
  {
    assert |a| == |b| by {
      assert |Parts(a)| == 3 * |a| + 1 && |Parts(b)| == 3 * |b| + 1;
    }
    if |a| > 0 {
      var n := |a| - 1;
      LastItemUnique(a, b, n);
      PartsAreUnique(a[..n], b[..n]);
      SameWithLast(a, b, n);
    }
  }

  // The rows of one kind.
  function RowsOf(items: seq<Item>, kind: Kind): seq<Row> {
    if items == [] then []
    else (if items[0].kind == kind then [items[0].row] else []) + RowsOf(items[1..], kind)
  }

  lemma {:induction false} RowsOfConcat(a: seq<Item>, b: seq<Item>, kind: Kind)
    ensures RowsOf(a + b, kind) == RowsOf(a, kind) + RowsOf(b, kind)
  {
    if a == [] {
      assert a + b == b;
    } else {
      RowsOfConcat(a[1..], b, kind);
      assert (a + b)[1..] == a[1..] + b;
      var first := if a[0].kind == kind then [a[0].row] else [];
      Sequences.ConcatAssociates(first, RowsOf(a[1..], kind), RowsOf(b, kind));
    }
  }

  lemma {:induction false} RowsOfTagged(tag: Kind, rows: seq<Row>, kind: Kind)
    ensures RowsOf(Tagged(tag, rows), kind) == if tag == kind then rows else []
  {
    if rows != [] {
      RowsOfTagged(tag, rows[1..], kind);
      assert Tagged(tag, rows)[1..] == Tagged(tag, rows[1..]);
      assert rows == [rows[0]] + rows[1..];
    }
  }

  lemma ItemsSeparate(nodes: seq<Row>, schemes: seq<Row>)
    ensures RowsOf(Items(nodes, schemes), Node) == nodes && RowsOf(Items(nodes, schemes), Scheme) == schemes
  {
    RowsOfConcat(Tagged(Node, nodes), Tagged(Scheme, schemes), Node);
    RowsOfConcat(Tagged(Node, nodes), Tagged(Scheme, schemes), Scheme);
    RowsOfTagged(Node, nodes, Node);
    RowsOfTagged(Node, nodes, Scheme);
    RowsOfTagged(Scheme, schemes, Node);
    RowsOfTagged(Scheme, schemes, Scheme);
  }

  lemma StreamHasItsParts(nodes: seq<Row>, schemes: seq<Row>)
    requires AllNulFree(nodes) && AllNulFree(schemes)
    ensures Delimited.Split(IdentityStream(nodes, schemes), NUL) == Parts(Items(nodes, schemes))
  {
    var items := Items(nodes, schemes);
    StreamIsEmitted(nodes, schemes);
    EmittedIsJoined(items);
    PartsAreFree(items);
    Delimited.SplitJoin(Parts(items), NUL);
  }

  // Equal identity streams come from equal objects when no field holds a NUL; line feeds do no harm.
  lemma IdentityIsInjective(nodes: seq<Row>, schemes: seq<Row>, nodes': seq<Row>, schemes': seq<Row>)
    requires AllNulFree(nodes) && AllNulFree(schemes) && AllNulFree(nodes') && AllNulFree(schemes')
    requires IdentityStream(nodes, schemes) == IdentityStream(nodes', schemes')
    ensures nodes == nodes' && schemes == schemes'
  {
    StreamHasItsParts(nodes, schemes);
    StreamHasItsParts(nodes', schemes');
    PartsAreUnique(Items(nodes, schemes), Items(nodes', schemes'));
    ItemsSeparate(nodes, schemes);
    ItemsSeparate(nodes', schemes');
  }

  // ----- When a stream has one source -----

  function Nuls(s: Bytes): nat {
    if s == [] then 0 else (if s[0] == NUL then 1 else 0) + Nuls(s[1..])
  }

  lemma {:induction false} NulsConcat(a: Bytes, b: Bytes)
    ensures Nuls(a + b) == Nuls(a) + Nuls(b)
  {
    if a == [] {
      assert a + b == b;
    } else {
      NulsConcat(a[1..], b);
      assert (a + b)[1..] == a[1..] + b;
    }
  }

  lemma {:induction false} NoNuls(s: Bytes)
    ensures Nuls(s) == 0 <==> NUL !in s
  {
    if s != [] {
      NoNuls(s[1..]);
      assert s == [s[0]] + s[1..];
    }
  }

  lemma NulsThen(a: Bytes, b: Bytes)
    ensures Nuls(a + [NUL] + b) == Nuls(a) + 1 + Nuls(b)
  {
    NulsConcat(a + [NUL], b);
    NulsConcat(a, [NUL]);
    assert Nuls([NUL]) == 1 by { assert [NUL][1..] == []; }
  }

  lemma NulsInLine(kind: Bytes, row: Row)
    requires NUL !in kind
    ensures Nuls(Line(kind, row)) >= 3
    ensures Nuls(Line(kind, row)) == 3 <==> NulFree(row)
  {
    var tail := row.contentHash + [NUL] + row.layoutHash;
    JoinFour(kind, row.identity, row.contentHash, row.layoutHash);
    NulsConcat(kind + [NUL] + (row.identity + [NUL] + tail), [LINE_FEED]);
    NulsThen(kind, row.identity + [NUL] + tail);
    NulsThen(row.identity, tail);
    NulsThen(row.contentHash, row.layoutHash);
    NoNuls(kind);
    NoNuls([LINE_FEED]);
    NoNuls(row.identity);
    NoNuls(row.contentHash);
    NoNuls(row.layoutHash);
  }

  lemma FreeWithLast(items: seq<Item>, n: nat)
    requires |items| == n + 1
    ensures ItemsNulFree(items) <==> ItemsNulFree(items[..n]) && NulFree(items[n].row)
  {
    assert forall k :: 0 <= k < n ==> items[..n][k] == items[k];
  }

  // Three NULs a line, and more exactly when some field has one.
  lemma {:induction false} NulsInStream(items: seq<Item>)
    ensures Nuls(Emit(items)) >= 3 * |items|
    ensures Nuls(Emit(items)) == 3 * |items| <==> ItemsNulFree(items)
  {
    if items != [] {
      var n := |items| - 1;
      NulsInStream(items[..n]);
      NulsInLine(Name(items[n].kind), items[n].row);
      NulsConcat(Emit(items[..n]), Line(Name(items[n].kind), items[n].row));
      FreeWithLast(items, n);
    }
  }

  lemma NulsOfPair(nodes: seq<Row>, schemes: seq<Row>)
    ensures Nuls(IdentityStream(nodes, schemes)) >= 3 * (|nodes| + |schemes|)
    ensures Nuls(IdentityStream(nodes, schemes)) == 3 * (|nodes| + |schemes|)
            <==> AllNulFree(nodes) && AllNulFree(schemes)
  {
    var items := Items(nodes, schemes);
    StreamIsEmitted(nodes, schemes);
    NulsInStream(items);
    assert forall k :: 0 <= k < |nodes| ==> items[k].row == nodes[k];
    assert forall k :: 0 <= k < |schemes| ==> items[|nodes| + k].row == schemes[k];
    assert forall k :: 0 <= k < |items| ==>
             items[k].row == if k < |nodes| then nodes[k] else schemes[k - |nodes|];
  }

  function FirstNul(s: Bytes): (i: nat)
    requires NUL in s
    ensures i < |s| && s[i] == NUL
  {
    if s[0] == NUL then 0 else 1 + FirstNul(s[1..])
  }

  predicate HashesNulFree(row: Row) {
    NUL !in row.contentHash && NUL !in row.layoutHash
  }

  ghost predicate AllHashesNulFree(rows: seq<Row>) {
    forall k :: 0 <= k < |rows| ==> HashesNulFree(rows[k])
  }

  // The same line cut into fields elsewhere, with the same identity if a hash holds a NUL.
  function Shifted(row: Row): Row
    requires !NulFree(row)
  {
    if NUL in row.contentHash then
      var i := FirstNul(row.contentHash);
      Row(row.identity, row.contentHash[..i], row.contentHash[i + 1..] + [NUL] + row.layoutHash)
    else if NUL in row.layoutHash then
      var i := FirstNul(row.layoutHash);
      Row(row.identity, row.contentHash + [NUL] + row.layoutHash[..i], row.layoutHash[i + 1..])
    else
      var i := FirstNul(row.identity);
      Row(row.identity[..i], row.identity[i + 1..] + [NUL] + row.contentHash, row.layoutHash)
  }

  lemma Spread(a: Bytes, x: Bytes, y: Bytes)
    ensures a + (x + [NUL] + y) == a + x + [NUL] + y
  {
  }

  // A line as it is hashed, one update after another.
  function Updates(kind: Bytes, row: Row): Bytes {
    kind + [NUL] + row.identity + [NUL] + row.contentHash + [NUL] + row.layoutHash + [LINE_FEED]
  }

  lemma LineIsUpdates(kind: Bytes, row: Row)
    ensures Line(kind, row) == Updates(kind, row)
  {
    UpdatesAreALine([], kind, row);
    assert [] + kind == kind && [] + Line(kind, row) == Line(kind, row);
  }

  // One node and one scheme: "node" and "scheme", each with its identity, content hash and layout hash behind it.
  lemma StreamOfTwo(node: Row, scheme: Row)
    ensures IdentityStream([node], [scheme]) ==
            Updates([110, 111, 100, 101], node) + Updates([115, 99, 104, 101, 109, 101], scheme)
  {
    OneLine(NODE, node);
    OneLine(SCHEME, scheme);
    assert NODE == [110, 111, 100, 101] && SCHEME == [115, 99, 104, 101, 109, 101];
  }

  lemma OneLine(kind: Bytes, row: Row)
    ensures Lines(kind, [row]) == Updates(kind, row)
  {
    var rows := [row];
    LineIsUpdates(kind, row);
    assert rows[..0] == [];
    assert Lines(kind, rows) == Lines(kind, rows[..0]) + Line(kind, row);
    assert [] + Line(kind, row) == Line(kind, row);
  }

  lemma ShiftedUpdates(kind: Bytes, row: Row)
    requires !NulFree(row)
    ensures Shifted(row) != row && Updates(kind, Shifted(row)) == Updates(kind, row)
  {
    var r := Shifted(row);
    var start := kind + [NUL];
    if NUL in row.contentHash {
      var i := FirstNul(row.contentHash);
      var x, y := row.contentHash[..i], row.contentHash[i + 1..];
      assert row.contentHash == x + [NUL] + y;
      Spread(start + row.identity + [NUL], x, y);
      Spread(start + row.identity + [NUL] + x + [NUL], y, row.layoutHash);
      assert |r.contentHash| < |row.contentHash|;
    } else if NUL in row.layoutHash {
      var i := FirstNul(row.layoutHash);
      var x, y := row.layoutHash[..i], row.layoutHash[i + 1..];
      assert row.layoutHash == x + [NUL] + y;
      Spread(start + row.identity + [NUL] + row.contentHash + [NUL], x, y);
      Spread(start + row.identity + [NUL], row.contentHash, x);
      assert |r.layoutHash| < |row.layoutHash|;
    } else {
      var i := FirstNul(row.identity);
      var x, y := row.identity[..i], row.identity[i + 1..];
      assert row.identity == x + [NUL] + y;
      Spread(start, x, y);
      Spread(start + x + [NUL], y, row.contentHash);
      assert |r.identity| < |row.identity|;
    }
  }

  lemma ShiftedLine(kind: Bytes, row: Row)
    requires !NulFree(row)
    ensures Shifted(row) != row && Line(kind, Shifted(row)) == Line(kind, row)
  {
    ShiftedUpdates(kind, row);
    LineIsUpdates(kind, row);
    LineIsUpdates(kind, Shifted(row));
  }

  lemma {:induction false} SameLineSameLines(kind: Bytes, rows: seq<Row>, k: nat, row: Row)
    requires k < |rows| && Line(kind, row) == Line(kind, rows[k])
    ensures Lines(kind, rows[k := row]) == Lines(kind, rows)
  {
    var n := |rows| - 1;
    if k == n {
      assert rows[k := row][..n] == rows[..n];
    } else {
      SameLineSameLines(kind, rows[..n], k, row);
      assert rows[k := row][..n] == rows[..n][k := row];
    }
  }

  function Keys(rows: seq<Row>): seq<Bytes> {
    seq(|rows|, k requires 0 <= k < |rows| => rows[k].identity)
  }

  lemma OtherRows(kind: Bytes, rows: seq<Row>, k: nat) returns (others: seq<Row>)
    requires k < |rows| && !NulFree(rows[k])
    ensures |others| == |rows| && others != rows && Lines(kind, others) == Lines(kind, rows)
    ensures !HashesNulFree(rows[k]) ==> Keys(others) == Keys(rows)
  {
    ShiftedLine(kind, rows[k]);
    SameLineSameLines(kind, rows, k, Shifted(rows[k]));
    others := rows[k := Shifted(rows[k])];
    assert others[k] != rows[k];
  }

  // A NUL in any field moves a boundary inside its line: other rows, as many of each kind, with the same stream; and
  // with the same keys, if a hash holds one.
  lemma NulInAFieldConfuses(nodes: seq<Row>, schemes: seq<Row>) returns (nodes': seq<Row>, schemes': seq<Row>)
    requires !AllNulFree(nodes) || !AllNulFree(schemes)
    ensures |nodes'| == |nodes| && |schemes'| == |schemes| && (nodes' != nodes || schemes' != schemes)
    ensures IdentityStream(nodes', schemes') == IdentityStream(nodes, schemes)
    ensures !AllHashesNulFree(nodes) || !AllHashesNulFree(schemes) ==>
              Keys(nodes') == Keys(nodes) && Keys(schemes') == Keys(schemes)
  {
    nodes', schemes' := nodes, schemes;
    if k :| 0 <= k < |nodes| && !HashesNulFree(nodes[k]) {
      nodes' := OtherRows(NODE, nodes, k);
    } else if k :| 0 <= k < |schemes| && !HashesNulFree(schemes[k]) {
      schemes' := OtherRows(SCHEME, schemes, k);
    } else if k :| 0 <= k < |nodes| && !NulFree(nodes[k]) {
      nodes' := OtherRows(NODE, nodes, k);
    } else {
      var k :| 0 <= k < |schemes| && !NulFree(schemes[k]);
      schemes' := OtherRows(SCHEME, schemes, k);
    }
  }

  ghost predicate OnlySourceOfItsCounts(nodes: seq<Row>, schemes: seq<Row>) {
    forall nodes', schemes' ::
      (|nodes'| == |nodes| && |schemes'| == |schemes|
       && IdentityStream(nodes', schemes') == IdentityStream(nodes, schemes))
      ==> nodes' == nodes && schemes' == schemes
  }

  lemma SameCountsSameRows(nodes: seq<Row>, schemes: seq<Row>, nodes': seq<Row>, schemes': seq<Row>)
    requires AllNulFree(nodes) && AllNulFree(schemes) && |nodes'| + |schemes'| == |nodes| + |schemes|
    requires IdentityStream(nodes', schemes') == IdentityStream(nodes, schemes)
    ensures nodes' == nodes && schemes' == schemes
  {
    NulsOfPair(nodes, schemes);
    NulsOfPair(nodes', schemes');
    IdentityIsInjective(nodes, schemes, nodes', schemes');
  }

  // With the two counts that are returned beside the digest, the stream determines the objects, among all lists of
  // rows, exactly when no field holds a NUL.
  lemma CountsAndStreamDetermine(nodes: seq<Row>, schemes: seq<Row>)
    ensures OnlySourceOfItsCounts(nodes, schemes) <==> AllNulFree(nodes) && AllNulFree(schemes)
  {
    if AllNulFree(nodes) && AllNulFree(schemes) {
      forall nodes', schemes' | |nodes'| == |nodes| && |schemes'| == |schemes|
                                && IdentityStream(nodes', schemes') == IdentityStream(nodes, schemes)
        ensures nodes' == nodes && schemes' == schemes
      {
        SameCountsSameRows(nodes, schemes, nodes', schemes');
      }
    } else {
      var nodes', schemes' := NulInAFieldConfuses(nodes, schemes);
    }
  }

  // Two lines as one row whose layout field runs on into the second line.
  function Merged(row: Row, kind: Bytes, next: Row): Row {
    row.(layoutHash := row.layoutHash + [LINE_FEED] + Delimited.Join(Fields(kind, next), NUL))
  }

  lemma MergedLine(first: Bytes, row: Row, kind: Bytes, next: Row)
    ensures Line(first, Merged(row, kind, next)) == Line(first, row) + Line(kind, next)
  {
    LineIsUpdates(first, row);
    LineIsUpdates(first, Merged(row, kind, next));
    var start := first + [NUL] + row.identity + [NUL] + row.contentHash + [NUL];
    var body := Delimited.Join(Fields(kind, next), NUL);
    assert start + (row.layoutHash + [LINE_FEED] + body) + [LINE_FEED]
           == start + row.layoutHash + [LINE_FEED] + (body + [LINE_FEED]);
  }

  // All but the last of the rows, that one merged into them.
  function WithoutLast(kind: Bytes, rows: seq<Row>): seq<Row>
    requires |rows| >= 2
  {
    var n := |rows|;
    rows[..n - 2] + [Merged(rows[n - 2], kind, rows[n - 1])]
  }

  lemma LastTwoMerge(kind: Bytes, rows: seq<Row>)
    requires |rows| >= 2
    ensures Lines(kind, WithoutLast(kind, rows)) == Lines(kind, rows)
    ensures Keys(WithoutLast(kind, rows)) == Keys(rows)[..|rows| - 1]
  {
    var n := |rows|;
    var before, a, b := Lines(kind, rows[..n - 2]), Line(kind, rows[n - 2]), Line(kind, rows[n - 1]);
    var merged := WithoutLast(kind, rows);
    MergedLine(kind, rows[n - 2], kind, rows[n - 1]);
    assert rows[..n - 1][..n - 2] == rows[..n - 2] && merged[..n - 2] == rows[..n - 2];
    assert before + (a + b) == before + a + b;
  }

  ghost predicate OnlySource(nodes: seq<Row>, schemes: seq<Row>) {
    forall nodes', schemes' ::
      IdentityStream(nodes', schemes') == IdentityStream(nodes, schemes) ==> nodes' == nodes && schemes' == schemes
  }

  lemma LastNodeTakesScheme(nodes: seq<Row>, scheme: Row)
    requires nodes != []
    ensures var n := |nodes| - 1;
            var nodes' := nodes[..n] + [Merged(nodes[n], SCHEME, scheme)];
            Keys(nodes') == Keys(nodes) && IdentityStream(nodes', []) == IdentityStream(nodes, [scheme])
  {
    var n := |nodes| - 1;
    var nodes' := nodes[..n] + [Merged(nodes[n], SCHEME, scheme)];
    MergedLine(NODE, nodes[n], SCHEME, scheme);
    assert nodes'[..n] == nodes[..n] && [scheme][..0] == [];
    var before, a, b := Lines(NODE, nodes[..n]), Line(NODE, nodes[n]), Line(SCHEME, scheme);
    assert [] + b == b && Lines(SCHEME, [scheme]) == b;
    assert before + (a + b) + [] == before + a + b;
  }

  // Two lines always have a second reading, as one row with NULs in it.
  lemma TwoLinesMerge(nodes: seq<Row>, schemes: seq<Row>) returns (nodes': seq<Row>, schemes': seq<Row>)
    requires |nodes| + |schemes| >= 2
    ensures |nodes'| + |schemes'| < |nodes| + |schemes|
    ensures IdentityStream(nodes', schemes') == IdentityStream(nodes, schemes)
    ensures Keys(nodes') <= Keys(nodes) && Keys(schemes') <= Keys(schemes)
  {
    if |schemes| >= 2 {
      LastTwoMerge(SCHEME, schemes);
      nodes', schemes' := nodes, WithoutLast(SCHEME, schemes);
    } else if schemes == [] {
      LastTwoMerge(NODE, nodes);
      nodes', schemes' := WithoutLast(NODE, nodes), schemes;
    } else {
      var n := |nodes| - 1;
      LastNodeTakesScheme(nodes, schemes[0]);
      nodes', schemes' := nodes[..n] + [Merged(nodes[n], SCHEME, schemes[0])], [];
      assert schemes == [schemes[0]];
    }
  }

  // Without the counts, among all lists of rows, a stream has one source exactly when that is at most one row,
  // free of NUL.
  lemma StreamAloneDetermines(nodes: seq<Row>, schemes: seq<Row>)
    ensures OnlySource(nodes, schemes) <==> |nodes| + |schemes| <= 1 && AllNulFree(nodes) && AllNulFree(schemes)
  {
    if !AllNulFree(nodes) || !AllNulFree(schemes) {
      var nodes', schemes' := NulInAFieldConfuses(nodes, schemes);
    } else if |nodes| + |schemes| >= 2 {
      var nodes', schemes' := TwoLinesMerge(nodes, schemes);
      assert nodes' != nodes || schemes' != schemes;
    } else {
      forall nodes', schemes' | IdentityStream(nodes', schemes') == IdentityStream(nodes, schemes)
        ensures nodes' == nodes && schemes' == schemes
      {
        NulsOfPair(nodes, schemes);
        NulsOfPair(nodes', schemes');
        IdentityIsInjective(nodes, schemes, nodes', schemes');
      }
    }
  }

  // ----- Among query results -----

  // What a query can return: its keys are identifiers, which hold no NUL, in the order of the column's collation.
  ghost predicate QueryResult(rows: seq<Row>, precedes: (Bytes, Bytes) -> bool) {
    && (forall k :: 0 <= k < |rows| ==> NUL !in Keys(rows)[k])
    && (forall j, k :: 0 <= j < k < |rows| ==> precedes(Keys(rows)[j], Keys(rows)[k]))
  }

  lemma SameKeysSameOrder(rows: seq<Row>, others: seq<Row>, precedes: (Bytes, Bytes) -> bool)
    requires QueryResult(rows, precedes) && Keys(others) <= Keys(rows)
    ensures QueryResult(others, precedes)
  {
    assert |others| == |Keys(others)| <= |Keys(rows)| == |rows|;
  }

  ghost predicate OnlyResultOfItsCounts(nodes: seq<Row>, schemes: seq<Row>, precedes: (Bytes, Bytes) -> bool) {
    forall nodes', schemes' ::
      (QueryResult(nodes', precedes) && QueryResult(schemes', precedes)
       && |nodes'| == |nodes| && |schemes'| == |schemes|
       && IdentityStream(nodes', schemes') == IdentityStream(nodes, schemes))
      ==> nodes' == nodes && schemes' == schemes
  }

  ghost predicate OnlyResult(nodes: seq<Row>, schemes: seq<Row>, precedes: (Bytes, Bytes) -> bool) {
    forall nodes', schemes' ::
      (QueryResult(nodes', precedes) && QueryResult(schemes', precedes)
       && IdentityStream(nodes', schemes') == IdentityStream(nodes, schemes))
      ==> nodes' == nodes && schemes' == schemes
  }

  /**
    The digest's promise: among all query results, what is hashed and the two counts determine every object, if and
    only if no hash column holds a NUL; what is hashed alone does if and only if, besides, there is at most one row.
   */
  lemma IdentityDeterminesResults(nodes: seq<Row>, schemes: seq<Row>, precedes: (Bytes, Bytes) -> bool)
    requires QueryResult(nodes, precedes) && QueryResult(schemes, precedes)
    ensures var free := AllHashesNulFree(nodes) && AllHashesNulFree(schemes);
            && (OnlyResultOfItsCounts(nodes, schemes, precedes) <==> free)
            && (OnlyResult(nodes, schemes, precedes) <==> free && |nodes| + |schemes| <= 1)
  {
    assert forall k :: 0 <= k < |nodes| ==> Keys(nodes)[k] == nodes[k].identity;
    assert forall k :: 0 <= k < |schemes| ==> Keys(schemes)[k] == schemes[k].identity;
    if !AllHashesNulFree(nodes) || !AllHashesNulFree(schemes) {
      var nodes', schemes' := NulInAFieldConfuses(nodes, schemes);
      SameKeysSameOrder(nodes, nodes', precedes);
      SameKeysSameOrder(schemes, schemes', precedes);
    } else {
      CountsAndStreamDetermine(nodes, schemes);
      StreamAloneDetermines(nodes, schemes);
      if |nodes| + |schemes| >= 2 {
        var nodes', schemes' := TwoLinesMerge(nodes, schemes);
        SameKeysSameOrder(nodes, nodes', precedes);
        SameKeysSameOrder(schemes, schemes', precedes);
        assert nodes' != nodes || schemes' != schemes;
      }
    }
  }
}
