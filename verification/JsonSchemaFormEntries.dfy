/** What typing into a form stores: from the schema and the text alone, whatever was edited before. */
module JsonSchemaFormEntries {
  import opened Wrappers
  import opened JsonValues
  import opened JsonPointers
  import opened JsonSchemaFormModel

  // ----- Kinds -----

  // Controls decide the kind of a plain property, except that a selection needs an enumeration.
  lemma HintsDecide(schema: Members, hint: Hint)
    requires !Has(schema, "oneOf") && !Has(schema, "anyOf") && !Has(schema, "allOf")
    requires !Child(schema, "enum").JArray?
    ensures Kind(schema, Some(hint)) ==
            match hint.control
            case NumberControl => Number
            case Slider => Number
            case TextControl => Text
            case Formula => Text
            case MultiSelect => Array
            case Checkbox => Boolean
            case Select => Kind(schema, None)
  {
  }

  // ----- The field of a property -----

  // q names a property that is a field, at a level that the schema describes; leaf is its own schema, and required
  // the list of required names of that level.
  ghost predicate Described(schema: Json, q: Segments, leaf: Members, required: Json)
    decreases |q|, 1
  {
    DescribedAmong(Properties(MembersOf(schema)), Child(MembersOf(schema), "required"), q, leaf, required)
  }

  ghost predicate DescribedAmong(properties: Members, listed: Json, q: Segments, leaf: Members, required: Json)
    decreases |q|, 0
  {
    q != [] && Has(properties, q[0]) &&
    var property := Lookup(properties, q[0]).value;
    if |q| == 1 then !IsContainer(property) && leaf == MembersOf(property) && required == listed
    else IsContainer(property) && Described(property, q[1..], leaf, required)
  }

  // The field says what the property's schema and hint say.
  ghost predicate Mirrors(f: Field, leaf: Members, name: string, required: Json, hint: Option<Hint>,
                          format: Json -> string) {
    && f.kind == Kind(leaf, hint) && (f.isReadOnly <==> f.kind.Unsupported?)
    && (f.isRequired <==> required.JArray? && JString(name) in required.items)
    && f.groupId == (if hint.Some? then hint.value.groupId else "parameters")
    && f.options == EnumOptions(leaf, format)
    && f.minimum == Bound(leaf, "minimum") && f.maximum == Bound(leaf, "maximum")
  }

  function HintAt(hints: Hints, path: string): Option<Hint> {
    if path in hints then Some(hints[path]) else None
  }

  ghost predicate Offered(fields: seq<Field>, at: Segments, leaf: Members, required: Json, hints: Hints,
                          format: Json -> string) {
    at != [] &&
    exists i :: 0 <= i < |fields| && fields[i].path == Pointer(at)
                && Mirrors(fields[i], leaf, at[|at| - 1], required, HintAt(hints, Pointer(at)), format)
  }

  lemma OfferedConcat(a: seq<Field>, b: seq<Field>, at: Segments, leaf: Members, required: Json, hints: Hints,
                      format: Json -> string)
    requires Offered(a, at, leaf, required, hints, format) || Offered(b, at, leaf, required, hints, format)
    ensures Offered(a + b, at, leaf, required, hints, format)
  {
    if Offered(a, at, leaf, required, hints, format) {
      var i :| 0 <= i < |a| && a[i].path == Pointer(at)
               && Mirrors(a[i], leaf, at[|at| - 1], required, HintAt(hints, Pointer(at)), format);
      assert (a + b)[i] == a[i];
    } else {
      var i :| 0 <= i < |b| && b[i].path == Pointer(at)
               && Mirrors(b[i], leaf, at[|at| - 1], required, HintAt(hints, Pointer(at)), format);
      assert (a + b)[|a| + i] == b[i];
    }
  }

  lemma DeclaredMirrors(schema: Members, key: string, parent: Segments, required: Json, hints: Hints,
                        format: Json -> string, value: Json)
    ensures Offered([DeclaredField(schema, key, parent, required, hints, format, value)], parent + [key], schema,
                    required, hints, format)
  {
    var f := DeclaredField(schema, key, parent, required, hints, format, value);
    var at := parent + [key];
    assert at[|at| - 1] == key;
    if required.JArray? && JString(key) in required.items {
      var i :| 0 <= i < |required.items| && required.items[i] == JString(key);
    }
    assert [f][0] == f && Mirrors(f, schema, key, required, HintAt(hints, Pointer(at)), format);
  }

  lemma {:induction false} DescribedOffered(schema: Json, values: Members, parent: Segments, q: Segments,
                                            leaf: Members, required: Json, hints: Hints, format: Json -> string)
    requires NamesUnique(schema) && Described(schema, q, leaf, required)
    ensures Offered(BuildObjectFields(schema, values, parent, hints, format).fields, parent + q, leaf, required, hints,
                    format)
    decreases Size(schema), 0
  {
    var s := MembersOf(schema);
    var properties := Properties(s);
    ChildIsSmaller(s, "properties");
    assert UniqueMembers(s);
    UniqueChild(s, "properties");
    PropertiesOffered(properties, Child(s, "required"), values, parent, q, leaf, required, hints, format);
    var b := BuildProperties(properties, Child(s, "required"), values, parent, hints, format);
    OfferedConcat(b.fields, PreservedFields(b.values, properties, parent), parent + q, leaf, required, hints, format);
  }

  lemma {:induction false} PropertiesOffered(properties: Members, listed: Json, values: Members, parent: Segments,
                                             q: Segments, leaf: Members, required: Json, hints: Hints,
                                             format: Json -> string)
    requires UniqueMembers(properties) && DescribedAmong(properties, listed, q, leaf, required)
    ensures Offered(BuildProperties(properties, listed, values, parent, hints, format).fields, parent + q, leaf,
                    required, hints, format)
    decreases MembersSize(properties), 1
  {
    UniqueTail(properties);
    var key, schema, tail := properties[0].name, properties[0].value, properties[1..];
    if IsContainer(schema) {
      LevelOffered(properties, listed, values, parent, q, leaf, required, hints, format);
    } else {
      var first := DeclaredField(MembersOf(schema), key, parent, listed, hints, format, Child(values, key));
      if key == q[0] {
        DeclaredMirrors(MembersOf(schema), key, parent, listed, hints, format, Child(values, key));
        PathJoins(parent, q);
      } else {
        PropertiesOffered(tail, listed, values, parent, q, leaf, required, hints, format);
      }
      OfferedConcat([first], BuildProperties(tail, listed, values, parent, hints, format).fields, parent + q, leaf,
                    required, hints, format);
    }
  }

  // The first property is a level of the tree.
  lemma {:induction false} LevelOffered(properties: Members, listed: Json, values: Members, parent: Segments,
                                        q: Segments, leaf: Members, required: Json, hints: Hints,
                                        format: Json -> string)
    requires UniqueMembers(properties) && DescribedAmong(properties, listed, q, leaf, required)
    requires properties != [] && IsContainer(properties[0].value)
    ensures Offered(BuildProperties(properties, listed, values, parent, hints, format).fields, parent + q, leaf,
                    required, hints, format)
    decreases MembersSize(properties), 0
  {
    UniqueTail(properties);
    var key, schema, tail := properties[0].name, properties[0].value, properties[1..];
    var inner := MembersOf(Child(values, key));
    var b := BuildObjectFields(schema, inner, parent + [key], hints, format);
    var widened := Put(values, key, JObject(b.values));
    if key == q[0] {
      OpenedOffered(schema, inner, parent, q, leaf, required, hints, format);
    } else {
      PropertiesOffered(tail, listed, widened, parent, q, leaf, required, hints, format);
    }
    OfferedConcat(b.fields, BuildProperties(tail, listed, widened, parent, hints, format).fields, parent + q, leaf,
                  required, hints, format);
  }

  lemma {:induction false} OpenedOffered(schema: Json, inner: Members, parent: Segments, q: Segments, leaf: Members,
                                         required: Json, hints: Hints, format: Json -> string)
    requires NamesUnique(schema) && |q| > 1 && Described(schema, q[1..], leaf, required)
    ensures Offered(BuildObjectFields(schema, inner, parent + [q[0]], hints, format).fields, parent + q, leaf, required,
                    hints, format)
    decreases Size(schema), 1
  {
    DescribedOffered(schema, inner, parent + [q[0]], q[1..], leaf, required, hints, format);
    PathJoins(parent, q);
  }

  lemma PathJoins(parent: Segments, q: Segments)
    requires q != []
    ensures parent + [q[0]] + q[1..] == parent + q
    ensures |q| == 1 ==> parent + [q[0]] == parent + q
  {
  }

  // ----- Which fields there are -----

  // The schema describes a member at q, or describes the level it is at and not the member.
  ghost predicate Spoken(schema: Json, q: Segments) {
    Undeclared(schema, q) || exists leaf, required :: Described(schema, q, leaf, required)
  }

  ghost predicate Belongs(f: Field, schema: Json, parent: Segments) {
    exists q :: f.path == Pointer(parent + q) && Spoken(schema, q)
  }

  lemma DescribedIsBelow(schema: Json, q: Segments, leaf: Members, required: Json)
    requires Described(schema, q, leaf, required)
    ensures q != []
  {
    assert DescribedAmong(Properties(MembersOf(schema)), Child(MembersOf(schema), "required"), q, leaf, required);
  }

  lemma SpokenInside(schema: Json, key: string, q: Segments)
    requires Has(Properties(MembersOf(schema)), key) && IsContainer(Lookup(Properties(MembersOf(schema)), key).value)
    requires Spoken(Lookup(Properties(MembersOf(schema)), key).value, q)
    ensures Spoken(schema, [key] + q)
  {
    var property := Lookup(Properties(MembersOf(schema)), key).value;
    assert ([key] + q)[1..] == q && ([key] + q)[0] == key;
    if !Undeclared(property, q) {
      var leaf, required :| Described(property, q, leaf, required);
      DescribedIsBelow(property, q, leaf, required);
      assert Described(schema, [key] + q, leaf, required);
    }
  }

  // Every field of a level is for a member of it that the schema describes, or that it does not.
  lemma {:induction false} FieldsBelong(schema: Json, values: Members, parent: Segments, hints: Hints,
                                        format: Json -> string)
    requires NamesUnique(schema)
    ensures forall f <- BuildObjectFields(schema, values, parent, hints, format).fields :: Belongs(f, schema, parent)
    decreases Size(schema), 0
  {
    var s := MembersOf(schema);
    var properties := Properties(s);
    ChildIsSmaller(s, "properties");
    assert UniqueMembers(s);
    UniqueChild(s, "properties");
    PropertyFieldsBelong(schema, properties, values, parent, hints, format);
    var b := BuildProperties(properties, Child(s, "required"), values, parent, hints, format);
    PreservedBelong(schema, b.values, parent);
  }

  lemma {:induction false} PreservedBelong(schema: Json, members: Members, parent: Segments)
    ensures forall f <- PreservedFields(members, Properties(MembersOf(schema)), parent) :: Belongs(f, schema, parent)
  {
    if members != [] {
      PreservedBelong(schema, members[1..], parent);
      var key := members[0].name;
      if !Has(Properties(MembersOf(schema)), key) {
        assert Undeclared(schema, [key]) && Spoken(schema, [key]);
        assert Belongs(PreservedField(key, parent, members[0].value), schema, parent);
      }
    }
  }

  // The same of the fields that some of the level's properties make.
  lemma {:induction false} PropertyFieldsBelong(schema: Json, properties: Members, values: Members, parent: Segments,
                                                hints: Hints, format: Json -> string)
    requires UniqueMembers(properties)
    requires forall k :: Has(properties, k) ==>
               Lookup(properties, k) == Lookup(Properties(MembersOf(schema)), k)
    ensures var required := Child(MembersOf(schema), "required");
            forall f <- BuildProperties(properties, required, values, parent, hints, format).fields ::
              Belongs(f, schema, parent)
    decreases MembersSize(properties), 1
  {
    if properties != [] {
      UniqueTail(properties);
      var key, property, tail := properties[0].name, properties[0].value, properties[1..];
      var required := Child(MembersOf(schema), "required");
      assert Has(properties, key) && Lookup(Properties(MembersOf(schema)), key) == Some(property);
      if IsContainer(property) {
        var inner := MembersOf(Child(values, key));
        var b := BuildObjectFields(property, inner, parent + [key], hints, format);
        FieldsBelong(property, inner, parent + [key], hints, format);
        forall f <- b.fields ensures Belongs(f, schema, parent) {
          OpenedBelongs(f, schema, key, parent);
        }
        PropertyFieldsBelong(schema, tail, Put(values, key, JObject(b.values)), parent, hints, format);
      } else {
        var leaf := MembersOf(property);
        assert Described(schema, [key], leaf, required);
        assert Spoken(schema, [key]);
        assert Belongs(DeclaredField(leaf, key, parent, required, hints, format, Child(values, key)), schema, parent);
        PropertyFieldsBelong(schema, tail, values, parent, hints, format);
      }
    }
  }

  lemma OpenedBelongs(f: Field, schema: Json, key: string, parent: Segments)
    requires Has(Properties(MembersOf(schema)), key) && IsContainer(Lookup(Properties(MembersOf(schema)), key).value)
    requires Belongs(f, Lookup(Properties(MembersOf(schema)), key).value, parent + [key])
    ensures Belongs(f, schema, parent)
  {
    var q :| f.path == Pointer(parent + [key] + q) && Spoken(Lookup(Properties(MembersOf(schema)), key).value, q);
    SpokenInside(schema, key, q);
    assert parent + [key] + q == parent + ([key] + q);
  }

  // So a form has a field for each described property, one for each member present that is not described, and no other.
  lemma NoOtherFields(schema: Json, parameters: Members, hints: Hints, format: Json -> string)
    requires NamesUnique(schema) && CreateForm(schema, parameters, hints, format).Some?
    ensures forall f <- CreateForm(schema, parameters, hints, format).value.fields ::
              exists q :: f.path == Pointer(q) && Spoken(schema, q)
  {
    FieldsBelong(schema, parameters, [], hints, format);
    forall f <- CreateForm(schema, parameters, hints, format).value.fields
      ensures exists q :: f.path == Pointer(q) && Spoken(schema, q)
    {
      var q :| f.path == Pointer([] + q) && Spoken(schema, q);
      assert [] + q == q;
    }
  }

  // ----- When there is a form at all -----

  // The schema describes the members of q as a level of the tree, by this.
  ghost predicate Level(schema: Json, q: Segments, level: Json)
    decreases |q|, 1
  {
    if q == [] then level == schema else LevelAmong(Properties(MembersOf(schema)), q, level)
  }

  ghost predicate LevelAmong(properties: Members, q: Segments, level: Json)
    decreases |q|, 0
  {
    && q != [] && Has(properties, q[0]) && IsContainer(Lookup(properties, q[0]).value)
    && Level(Lookup(properties, q[0]).value, q[1..], level)
  }

  // The list of required names holds names.
  ghost predicate NamesListed(level: Json) {
    var required := Child(MembersOf(level), "required");
    required.JArray? ==> forall e <- required.items :: e.JString? || e.JNull?
  }

  // There is a hint, or the description, if any, is a text.
  ghost predicate Explained(leaf: Members, at: Segments, hints: Hints) {
    var description := Child(leaf, "description");
    Pointer(at) in hints || description.JString? || description.JNull?
  }

  ghost predicate LevelsListed(schema: Json) {
    forall q, level :: Level(schema, q, level) ==> NamesListed(level)
  }

  ghost predicate LeavesExplained(schema: Json, parent: Segments, hints: Hints) {
    forall q, leaf, required :: Described(schema, q, leaf, required) ==> Explained(leaf, parent + q, hints)
  }

  ghost predicate AmongListed(properties: Members) {
    forall q, level :: LevelAmong(properties, q, level) ==> NamesListed(level)
  }

  ghost predicate AmongExplained(properties: Members, parent: Segments, hints: Hints) {
    forall q, listed, leaf, required ::
      DescribedAmong(properties, listed, q, leaf, required) ==> Explained(leaf, parent + q, hints)
  }

  lemma {:induction false} ReadableLevels(schema: Json, parent: Segments, hints: Hints)
    requires NamesUnique(schema)
    ensures Readable(schema, parent, hints) <==> LevelsListed(schema) && LeavesExplained(schema, parent, hints)
    decreases Size(schema), 0
  {
    var s := MembersOf(schema);
    var properties := Properties(s);
    ChildIsSmaller(s, "properties");
    assert UniqueMembers(s);
    UniqueChild(s, "properties");
    ReadableAmong(properties, parent, hints);
    LevelsOfSchema(schema, parent, hints);
  }

  // A schema's levels are itself and those among its properties, and so for what it describes.
  lemma LevelsOfSchema(schema: Json, parent: Segments, hints: Hints)
    ensures LevelsListed(schema) <==> NamesListed(schema) && AmongListed(Properties(MembersOf(schema)))
    ensures LeavesExplained(schema, parent, hints) <==> AmongExplained(Properties(MembersOf(schema)), parent, hints)
  {
    var properties, listed := Properties(MembersOf(schema)), Child(MembersOf(schema), "required");
    if LevelsListed(schema) {
      assert Level(schema, [], schema);
      forall q, level | LevelAmong(properties, q, level) ensures NamesListed(level) {
        assert Level(schema, q, level);
      }
    }
    if LeavesExplained(schema, parent, hints) {
      forall q, other, leaf, required | DescribedAmong(properties, other, q, leaf, required)
        ensures Explained(leaf, parent + q, hints)
      {
        assert Described(schema, q, leaf, if |q| == 1 then listed else required);
      }
    }
    if NamesListed(schema) && AmongListed(properties) {
      forall q, level | Level(schema, q, level) ensures NamesListed(level) {
        assert q != [] ==> LevelAmong(properties, q, level);
      }
    }
    if AmongExplained(properties, parent, hints) {
      forall q, leaf, required | Described(schema, q, leaf, required) ensures Explained(leaf, parent + q, hints) {
        assert DescribedAmong(properties, listed, q, leaf, required);
      }
    }
  }

  lemma {:induction false} ReadableAmong(properties: Members, parent: Segments, hints: Hints)
    requires UniqueMembers(properties)
    ensures ReadableProperties(properties, parent, hints) <==>
            AmongListed(properties) && AmongExplained(properties, parent, hints)
    decreases MembersSize(properties), 1
  {
    if properties != [] {
      UniqueTail(properties);
      var key, schema, tail := properties[0].name, properties[0].value, properties[1..];
      ReadableAmong(tail, parent, hints);
      FirstOrOther(properties, parent, hints);
      if IsContainer(schema) {
        ReadableLevels(schema, parent + [key], hints);
      }
    }
  }

  // What holds among the properties holds of the first, as a level or a leaf, and among the others.
  lemma FirstOrOther(properties: Members, parent: Segments, hints: Hints)
    requires properties != [] && !Has(properties[1..], properties[0].name)
    ensures var key, schema, tail := properties[0].name, properties[0].value, properties[1..];
            && (AmongListed(properties) <==> AmongListed(tail) && (IsContainer(schema) ==> LevelsListed(schema)))
            && (AmongExplained(properties, parent, hints) <==>
                  && AmongExplained(tail, parent, hints)
                  && (IsContainer(schema) ==> LeavesExplained(schema, parent + [key], hints))
                  && (!IsContainer(schema) ==> Explained(MembersOf(schema), parent + [key], hints)))
  {
    FirstOrOtherListed(properties);
    FirstOrOtherExplained(properties, parent, hints);
  }

  lemma FirstOrOtherListed(properties: Members)
    requires properties != [] && !Has(properties[1..], properties[0].name)
    ensures AmongListed(properties) <==>
            && AmongListed(properties[1..])
            && (IsContainer(properties[0].value) ==> LevelsListed(properties[0].value))
  {
    var key, schema, tail := properties[0].name, properties[0].value, properties[1..];
    if AmongListed(properties) {
      forall q, level | LevelAmong(tail, q, level) ensures NamesListed(level) {
        assert LevelAmong(properties, q, level);
      }
      forall q, level | IsContainer(schema) && Level(schema, q, level) ensures NamesListed(level) {
        assert ([key] + q)[1..] == q;
        assert LevelAmong(properties, [key] + q, level);
      }
    }
    if AmongListed(tail) && (IsContainer(schema) ==> LevelsListed(schema)) {
      forall q, level | LevelAmong(properties, q, level) ensures NamesListed(level) {
        assert q[0] != key ==> LevelAmong(tail, q, level);
        assert q[0] == key ==> Level(schema, q[1..], level);
      }
    }
  }

  lemma FirstOrOtherExplained(properties: Members, parent: Segments, hints: Hints)
    requires properties != [] && !Has(properties[1..], properties[0].name)
    ensures var key, schema := properties[0].name, properties[0].value;
            AmongExplained(properties, parent, hints) <==>
            && AmongExplained(properties[1..], parent, hints)
            && (IsContainer(schema) ==> LeavesExplained(schema, parent + [key], hints))
            && (!IsContainer(schema) ==> Explained(MembersOf(schema), parent + [key], hints))
  {
    var key, schema, tail := properties[0].name, properties[0].value, properties[1..];
    if AmongExplained(properties, parent, hints) {
      forall q, listed, leaf, required | DescribedAmong(tail, listed, q, leaf, required)
        ensures Explained(leaf, parent + q, hints)
      {
        assert DescribedAmong(properties, listed, q, leaf, required);
      }
      if IsContainer(schema) {
        forall q, leaf, required | Described(schema, q, leaf, required)
          ensures Explained(leaf, parent + [key] + q, hints)
        {
          DescribedIsBelow(schema, q, leaf, required);
          assert ([key] + q)[1..] == q && parent + [key] + q == parent + ([key] + q);
          assert DescribedAmong(properties, JNull, [key] + q, leaf, required);
        }
      } else {
        assert DescribedAmong(properties, JNull, [key], MembersOf(schema), JNull);
      }
    }
    if && AmongExplained(tail, parent, hints)
       && (IsContainer(schema) ==> LeavesExplained(schema, parent + [key], hints))
       && (!IsContainer(schema) ==> Explained(MembersOf(schema), parent + [key], hints))
    {
      forall q, listed, leaf, required | DescribedAmong(properties, listed, q, leaf, required)
        ensures Explained(leaf, parent + q, hints)
      {
        if q[0] == key {
          PathJoins(parent, q);
          assert IsContainer(schema) ==> Described(schema, q[1..], leaf, required);
        } else {
          assert DescribedAmong(tail, listed, q, leaf, required);
        }
      }
    }
  }

  // A form is created exactly when every level's required names are names, and every property's description is a text
  // or replaced by a hint.
  lemma CreatesExactly(schema: Json, parameters: Members, hints: Hints, format: Json -> string)
    requires NamesUnique(schema)
    ensures CreateForm(schema, parameters, hints, format).Some? <==>
            LevelsListed(schema) && LeavesExplained(schema, [], hints)
  {
    ReadableLevels(schema, [], hints);
  }

  // ----- From the schema and the text to the stored value -----

  // After any edits the one field at a described property's path still mirrors its schema.
  lemma StillOffered(p: Parsers, schema: Json, parameters: Members, hints: Hints, format: Json -> string,
                     edits: seq<TextEdit>, q: Segments, leaf: Members, required: Json)
    requires NamesUnique(schema) && UniqueMembers(parameters) && CreateForm(schema, parameters, hints, format).Some?
    requires Described(schema, q, leaf, required)
    ensures var before := EditAll(p, CreateForm(schema, parameters, hints, format).value, edits);
            var i := FindField(before.fields, Pointer(q));
            && Lens(before) && i >= 0
            && Mirrors(before.fields[i], leaf, q[|q| - 1], required, HintAt(hints, Pointer(q)), format)
  {
    var created := CreateForm(schema, parameters, hints, format).value;
    var before := EditAll(p, created, edits);
    CreateIsLens(schema, parameters, hints, format);
    EditsKeepReadOnly(p, created, edits);
    DescribedOffered(schema, parameters, [], q, leaf, required, hints, format);
    assert [] + q == q;
    ParsePointer(q);
    var k :| 0 <= k < |created.fields| && created.fields[k].path == Pointer(q)
             && Mirrors(created.fields[k], leaf, q[|q| - 1], required, HintAt(hints, Pointer(q)), format);
    assert before.fields[k].path == Pointer(q);
    OnlyFieldThere(before.fields, k);
  }

  // What a text is for a schema: the value of that type it spells.
  ghost predicate Spells(p: Parsers, leaf: Members, text: string, v: Json) {
    if Child(leaf, "enum").JArray? then v == JString(text)
    else
      match SchemaType(leaf)
      case None => false
      case Some(t) =>
        || (t == "string" && v == JString(text))
        || (t == "number" && v.JDecimal? && p.number(text) == Some(v.number))
        || (t == "integer" && v.JInteger? && p.integer(text) == Some(v.whole))
        || (t == "boolean" && v.JBool? && p.boolean(text) == Some(v.flag))
        || (t == "array" && v.JArray? && p.json(text) == Some(v))
        || (t == "object" && v.JObject? && p.json(text) == Some(v))
  }

  // A schema without combinators, whose enumeration, if it has one, is of strings that print as themselves.
  ghost predicate Plain(leaf: Members, format: Json -> string) {
    && !Has(leaf, "oneOf") && !Has(leaf, "anyOf") && !Has(leaf, "allOf")
    && (Child(leaf, "enum").JArray? ==>
          && (SchemaType(leaf) == None || SchemaType(leaf) == Some("string"))
          && forall e <- Child(leaf, "enum").items :: e.JString? && format(e) == e.text)
  }

  lemma EnumeratedExactly(p: Parsers, f: Field, leaf: Members, format: Json -> string, text: string, v: Json)
    requires Plain(leaf, format) && Child(leaf, "enum").JArray?
    requires f.kind == Kind(leaf, None) && f.options == EnumOptions(leaf, format)
    ensures ParseText(p, f, text) == Some(v) <==> Spells(p, leaf, text, v) && Conforms(leaf, v)
  {
    var items := Child(leaf, "enum").items;
    if text in f.options {
      var i :| 0 <= i < |items| && f.options[i] == text;
      assert items[i] in items && items[i] == JString(text);
    }
    if JString(text) in items {
      var i :| 0 <= i < |items| && items[i] == JString(text);
      assert f.options[i] == text;
    }
  }

  lemma TypedExactly(p: Parsers, f: Field, leaf: Members, text: string, v: Json)
    requires !Has(leaf, "oneOf") && !Has(leaf, "anyOf") && !Has(leaf, "allOf") && !Child(leaf, "enum").JArray?
    requires f.kind == Kind(leaf, None)
    requires f.minimum == Bound(leaf, "minimum") && f.maximum == Bound(leaf, "maximum")
    ensures ParseText(p, f, text) == Some(v) <==> Spells(p, leaf, text, v) && Conforms(leaf, v)
  {
    AcceptedExactly(p, f, text, v);
  }

  /**
    Typing into the field of a plain property without a hint, after any edits: the text is accepted as a value exactly
    when it spells that value in the schema's type and the value conforms to the schema, and that value is then stored
    at the property's path.
   */
  lemma EntryIsStoredExactly(p: Parsers, schema: Json, parameters: Members, hints: Hints, format: Json -> string,
                             edits: seq<TextEdit>, q: Segments, leaf: Members, required: Json, text: string)
    requires NamesUnique(schema) && UniqueMembers(parameters) && CreateForm(schema, parameters, hints, format).Some?
    requires Described(schema, q, leaf, required) && Pointer(q) !in hints && Plain(leaf, format)
    ensures var created := CreateForm(schema, parameters, hints, format).value;
            var before := EditAll(p, created, edits);
            var after := EditAll(p, created, edits + [TextEdit(Pointer(q), text)]);
            && (forall v :: EditedValue(p, before, Pointer(q), text) == Some(v) <==>
                  Spells(p, leaf, text, v) && Conforms(leaf, v))
            && (forall v :: Spells(p, leaf, text, v) && Conforms(leaf, v) ==> Get(JObject(after.parameters), q) == v)
  {
    var before := EditAll(p, CreateForm(schema, parameters, hints, format).value, edits);
    StillOffered(p, schema, parameters, hints, format, edits, q, leaf, required);
    ParsePointer(q);
    var f := before.fields[FindField(before.fields, Pointer(q))];
    forall v ensures ParseText(p, f, text) == Some(v) <==> Spells(p, leaf, text, v) && Conforms(leaf, v) {
      if Child(leaf, "enum").JArray? {
        EnumeratedExactly(p, f, leaf, format, text, v);
      } else {
        TypedExactly(p, f, leaf, text, v);
      }
    }
    EditAllAppends(p, CreateForm(schema, parameters, hints, format).value, edits, TextEdit(Pointer(q), text));
    if EditedValue(p, before, Pointer(q), text).Some? {
      EditedTree(p, before, Pointer(q), text);
    }
  }
}
