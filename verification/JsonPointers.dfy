/**
  JSON pointers (RFC 6901): their text form, and reading and writing an object tree through them.
 */
module JsonPointers {
  import opened Wrappers
  import opened JsonValues
  import Delimited

  type Members = seq<Member>
  type Segments = seq<string>

  // ----- Text -----

  // Left to right, without overlaps.
  function Replace(s: string, pattern: string, to: string): string
    requires pattern != []
  {
    if |s| < |pattern| then s
    else if s[..|pattern|] == pattern then to + Replace(s[|pattern|..], pattern, to)
    else [s[0]] + Replace(s[1..], pattern, to)
  }

  function Escape(value: string): string {
    Replace(Replace(value, "~", "~0"), "/", "~1")
  }

  function Unescape(value: string): string {
    Replace(Replace(value, "~1", "/"), "~0", "~")
  }

  // One character of a segment in each of the three stages.
  function Escaped(c: char): string {
    if c == '~' then "~0" else if c == '/' then "~1" else [c]
  }

  function Tilded(c: char): string {
    if c == '~' then "~0" else [c]
  }

  lemma {:induction false} ReplaceChar(a: string, s: string, p: char, to: string)
    ensures Replace(a + s, [p], to) == Replace(a, [p], to) + Replace(s, [p], to)
  {
    if a == [] {
      assert a + s == s;
    } else {
      assert (a + s)[1..] == a[1..] + s;
      assert (a + s)[..1] == [a[0]] && a[..1] == [a[0]];
      ReplaceChar(a[1..], s, p, to);
    }
  }

  lemma TildedChar(c: char)
    ensures Replace([c], "~", "~0") == Tilded(c)
    ensures Replace(Tilded(c), "/", "~1") == Escaped(c)
  {
    assert [c][1..] == [] && [c][..1] == [c];
    if c == '~' {
      assert "~0"[1..] == "0" && "~0"[..1] == "~" && "0"[1..] == [] && "0"[..1] == "0";
      assert Replace("0", "/", "~1") == "0";
    }
  }

  lemma EscapeCons(c: char, s: string)
    ensures Escape([c] + s) == Escaped(c) + Escape(s)
  {
    TildedChar(c);
    ReplaceChar([c], s, '~', "~0");
    ReplaceChar(Tilded(c), Replace(s, "~", "~0"), '/', "~1");
  }

  lemma UnescapeSlashes(c: char, s: string)
    ensures Replace(Escaped(c) + s, "~1", "/") == Tilded(c) + Replace(s, "~1", "/")
  {
    var t := Escaped(c) + s;
    if c == '~' {
      assert t[..2] == "~0" && t[1..] == "0" + s;
      var u := "0" + s;
      assert |u| >= 2 ==> u[..2][0] == '0';
      assert u[1..] == s;
      assert Replace(u, "~1", "/") == "0" + Replace(s, "~1", "/");
    } else if c == '/' {
      assert t[..2] == "~1" && t[2..] == s;
    } else {
      assert |t| >= 2 ==> t[..2][0] == c;
      assert t[1..] == s;
    }
  }

  lemma UnescapeTildes(c: char, s: string)
    ensures Replace(Tilded(c) + s, "~0", "~") == [c] + Replace(s, "~0", "~")
  {
    var t := Tilded(c) + s;
    if c == '~' {
      assert t[..2] == "~0" && t[2..] == s;
    } else {
      assert |t| >= 2 ==> t[..2][0] == c;
      assert t[1..] == s;
    }
  }

  lemma {:induction false} UnescapeEscape(s: string)
    ensures Unescape(Escape(s)) == s
    ensures '/' !in Escape(s)
  {
    if s != [] {
      var c, rest := s[0], s[1..];
      assert s == [c] + rest;
      UnescapeEscape(rest);
      EscapeCons(c, rest);
      UnescapeSlashes(c, Escape(rest));
      UnescapeTildes(c, Replace(Escape(rest), "~1", "/"));
    }
  }

  function Pointer(segments: Segments): string {
    if segments == [] then "" else "/" + Escape(segments[0]) + Pointer(segments[1..])
  }

  function UnescapeAll(parts: seq<string>): Segments {
    seq(|parts|, i requires 0 <= i < |parts| => Unescape(parts[i]))
  }

  // None: the text is not a pointer below the root.
  function Parse(pointer: string): (r: Option<Segments>)
    ensures r.Some? ==> |r.value| >= 1
  {
    if pointer == "" || pointer[0] != '/' then None
    else Some(UnescapeAll(Delimited.Split(pointer[1..], '/')))
  }

  lemma ParseOne(s: string)
    ensures Parse("/" + Escape(s)) == Some([s])
  {
    UnescapeEscape(s);
    assert ("/" + Escape(s))[1..] == Escape(s);
    Delimited.SplitWhole(Escape(s), '/');
    assert UnescapeAll([Escape(s)]) == [s];
  }

  lemma ParseMore(s: string, tail: string)
    ensures Parse("/" + Escape(s) + ("/" + tail)) == Some([s] + Parse("/" + tail).value)
  {
    UnescapeEscape(s);
    assert ("/" + Escape(s) + ("/" + tail))[1..] == Escape(s) + "/" + tail;
    assert ("/" + tail)[1..] == tail;
    Delimited.SplitAt(Escape(s), tail, '/');
    var parts := Delimited.Split(tail, '/');
    assert UnescapeAll([Escape(s)] + parts) == [s] + UnescapeAll(parts);
  }

  // Printing a path and parsing it back gives the path; so different paths have different texts.
  lemma {:induction false} ParsePointer(segments: Segments)
    requires segments != []
    ensures Parse(Pointer(segments)) == Some(segments)
  {
    var s, rest := segments[0], segments[1..];
    assert segments == [s] + rest;
    if rest == [] {
      assert segments == [s];
      assert Pointer(segments) == "/" + Escape(s);
      ParseOne(s);
    } else {
      ParsePointer(rest);
      var tail := Escape(rest[0]) + Pointer(rest[1..]);
      assert Pointer(rest) == "/" + tail;
      ParseMore(s, tail);
    }
  }

  lemma {:induction false} PointerConcat(a: Segments, b: Segments)
    ensures Pointer(a + b) == Pointer(a) + Pointer(b)
  {
    if a == [] {
      assert a + b == b;
    } else {
      assert (a + b)[1..] == a[1..] + b;
      PointerConcat(a[1..], b);
    }
  }

  // ----- Reading and writing -----

  function Child(members: Members, name: string): Json {
    var found := Lookup(members, name);
    if found.Some? then found.value else JNull
  }

  function MembersOf(e: Json): Members {
    if e.JObject? then e.members else []
  }

  // The value a pointer names, null where there is none.
  function Get(e: Json, at: Segments): Json
    decreases |at|
  {
    if at == [] then e
    else if e.JObject? then Get(Child(e.members, at[0]), at[1..])
    else JNull
  }

  // A known name keeps its place, a new one goes last.
  function Put(members: Members, name: string, value: Json): Members {
    if members == [] then [Member(name, value)]
    else if members[0].name == name then [Member(name, value)] + members[1..]
    else [members[0]] + Put(members[1..], name, value)
  }

  // Objects missing on the way, or holding something else, become empty objects first.
  function SetAtPointer(members: Members, at: Segments, value: Json): Members
    requires at != []
    decreases |at|
  {
    if |at| == 1 then Put(members, at[0], value)
    else Put(members, at[0], JObject(SetAtPointer(MembersOf(Child(members, at[0])), at[1..], value)))
  }

  lemma {:induction false} ChildOfPut(members: Members, name: string, value: Json, other: string)
    ensures Lookup(Put(members, name, value), other) ==
            if other == name then Some(value) else Lookup(members, other)
  {
    if members != [] && members[0].name != name {
      ChildOfPut(members[1..], name, value, other);
    }
  }

  lemma {:induction false} GetOfNull(at: Segments)
    ensures Get(JNull, at) == JNull
  {
  }

  predicate Comparable(p: Segments, q: Segments) {
    p <= q || q <= p
  }

  // Writing is seen at the pointer and below it.
  lemma {:induction false} GetAfterSet(members: Members, at: Segments, value: Json, below: Segments)
    requires at != []
    ensures Get(JObject(SetAtPointer(members, at, value)), at + below) == Get(value, below)
    decreases |at|
  {
    assert (at + below)[0] == at[0] && (at + below)[1..] == at[1..] + below;
    if |at| == 1 {
      ChildOfPut(members, at[0], value, at[0]);
      assert at[1..] + below == below;
    } else {
      var inner := MembersOf(Child(members, at[0]));
      GetAfterSet(inner, at[1..], value, below);
      ChildOfPut(members, at[0], JObject(SetAtPointer(inner, at[1..], value)), at[0]);
    }
  }

  // Writing is seen nowhere else.
  lemma {:induction false} SetFrame(members: Members, at: Segments, value: Json, q: Segments)
    requires at != [] && !Comparable(at, q)
    ensures Get(JObject(SetAtPointer(members, at, value)), q) == Get(JObject(members), q)
    decreases |at|
  {
    assert q != [];
    if |at| == 1 {
      ChildOfPut(members, at[0], value, q[0]);
      assert at == [at[0]] && q == [q[0]] + q[1..];
    } else {
      var child := Child(members, at[0]);
      var inner := MembersOf(child);
      ChildOfPut(members, at[0], JObject(SetAtPointer(inner, at[1..], value)), q[0]);
      if q[0] == at[0] {
        assert at == [at[0]] + at[1..] && q == [q[0]] + q[1..];
        assert !Comparable(at[1..], q[1..]);
        SetFrame(inner, at[1..], value, q[1..]);
        assert q[1..] != [];
        if !child.JObject? {
          assert Lookup(inner, q[1..][0]) == None;
          GetOfNull(q[1..][1..]);
        }
      }
    }
  }
}
