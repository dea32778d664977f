/**
  Saving and reopening a parameter form: the form created from the parameters an edited form hands back is that
  edited form again.
 */
module JsonSchemaFormReopening {
  import opened Wrappers
  import opened JsonValues
  import opened JsonPointers
  import opened Sequences
  import opened JsonSchemaFormModel

  // A field without its value: what the schema, the hints and the names in the tree decide.
  function Blanked(f: Field): Field {
    f.(value := JNull)
  }

  function Shape(fields: seq<Field>): seq<Field> {
    Map(Blanked, fields)
  }

  // ----- Creating again what was created -----

  // W holds, under the properties' names, what building the level left there.
  ghost predicate AgreesOn(properties: Members, w: Members, built: Members) {
    forall k :: Has(properties, k) ==> Lookup(w, k) == Lookup(built, k)
  }

  lemma {:induction false} LevelRebuilt(schema: Json, values: Members, parent: Segments, hints: Hints,
                                        format: Json -> string)
    requires NamesUnique(schema) && UniqueMembers(values)
    ensures var b := BuildObjectFields(schema, values, parent, hints, format);
            var again := BuildObjectFields(schema, b.values, parent, hints, format);
            again.values == b.values && Shape(again.fields) == Shape(b.fields)
    decreases Size(schema), 0
  {
    var s := MembersOf(schema);
    var properties, required := Properties(s), Child(s, "required");
    ChildIsSmaller(s, "properties");
    assert UniqueMembers(s);
    UniqueChild(s, "properties");
    var b := BuildProperties(properties, required, values, parent, hints, format);
    PropertiesRebuilt(properties, required, values, b.values, parent, hints, format);
    var again := BuildProperties(properties, required, b.values, parent, hints, format);
    MapConcat(Blanked, b.fields, PreservedFields(b.values, properties, parent));
    MapConcat(Blanked, again.fields, PreservedFields(b.values, properties, parent));
  }

  lemma {:induction false} PropertiesRebuilt(properties: Members, required: Json, values: Members, w: Members,
                                             parent: Segments, hints: Hints, format: Json -> string)
    requires UniqueMembers(properties) && UniqueMembers(values)
    requires AgreesOn(properties, w, BuildProperties(properties, required, values, parent, hints, format).values)
    ensures var b := BuildProperties(properties, required, values, parent, hints, format);
            var again := BuildProperties(properties, required, w, parent, hints, format);
            again.values == w && Shape(again.fields) == Shape(b.fields)
    decreases MembersSize(properties), 1
  {
    if properties != [] {
      UniqueTail(properties);
      var key, schema, tail := properties[0].name, properties[0].value, properties[1..];
      assert Has(properties, key) && forall k :: Has(tail, k) ==> Has(properties, k);
      if IsContainer(schema) {
        ContainerRebuilt(properties, required, values, w, parent, hints, format);
      } else {
        PropertiesRebuilt(tail, required, values, w, parent, hints, format);
        var was := DeclaredField(MembersOf(schema), key, parent, required, hints, format, Child(values, key));
        var now := DeclaredField(MembersOf(schema), key, parent, required, hints, format, Child(w, key));
        MapConcat(Blanked, [was], BuildProperties(tail, required, values, parent, hints, format).fields);
        MapConcat(Blanked, [now], BuildProperties(tail, required, w, parent, hints, format).fields);
        assert Shape([was]) == Shape([now]);
      }
    }
  }

  lemma {:induction false} ContainerRebuilt(properties: Members, required: Json, values: Members, w: Members,
                                            parent: Segments, hints: Hints, format: Json -> string)
    requires UniqueMembers(properties) && UniqueMembers(values)
    requires properties != [] && IsContainer(properties[0].value)
    requires AgreesOn(properties, w, BuildProperties(properties, required, values, parent, hints, format).values)
    ensures var b := BuildProperties(properties, required, values, parent, hints, format);
            var again := BuildProperties(properties, required, w, parent, hints, format);
            again.values == w && Shape(again.fields) == Shape(b.fields)
    decreases MembersSize(properties), 0
  {
    UniqueTail(properties);
    var key, schema, tail := properties[0].name, properties[0].value, properties[1..];
    var inner := MembersOf(Child(values, key));
    UniqueChild(values, key);
    BuildWell(schema, inner, parent + [key], hints, format);
    LevelRebuilt(schema, inner, parent + [key], hints, format);
    var b := BuildObjectFields(schema, inner, parent + [key], hints, format);
    var widened := Put(values, key, JObject(b.values));
    WidenedMembers(values, key, b.values);
    PropertiesWell(tail, required, widened, parent, hints, format);
    var rest := BuildProperties(tail, required, widened, parent, hints, format);
    assert forall k :: Has(tail, k) ==> Has(properties, k) && Lookup(w, k) == Lookup(rest.values, k);
    assert Has(properties, key) && Lookup(w, key) == Some(JObject(b.values));
    PutStored(w, key);
    PropertiesRebuilt(tail, required, widened, w, parent, hints, format);
    var again := BuildObjectFields(schema, b.values, parent + [key], hints, format);
    MapConcat(Blanked, b.fields, rest.fields);
    MapConcat(Blanked, again.fields, BuildProperties(tail, required, w, parent, hints, format).fields);
  }

  // ----- Writing at a field keeps what decides the fields -----

  // A path to a declared property that is not a level of the tree.
  ghost predicate DeclaredLeaf(schema: Json, at: Segments)
    decreases |at|
  {
    at != [] &&
    var properties := Properties(MembersOf(schema));
    && Has(properties, at[0])
    && var property := Lookup(properties, at[0]).value;
       if |at| == 1 then !IsContainer(property) else IsContainer(property) && DeclaredLeaf(property, at[1..])
  }

  lemma {:induction false} PreservedPut(values: Members, properties: Members, parent: Segments, name: string,
                                        value: Json)
    requires Has(properties, name)
    ensures PreservedFields(Put(values, name, value), properties, parent) == PreservedFields(values, properties, parent)
  {
    if values != [] {
      if values[0].name == name {
        assert Put(values, name, value)[1..] == values[1..];
      } else {
        PreservedPut(values[1..], properties, parent, name, value);
        assert Put(values, name, value)[1..] == Put(values[1..], name, value);
      }
    } else {
      assert Put(values, name, value)[1..] == [];
    }
  }

  // Replacing what is stored under one leaf or level, where that level keeps its own shape, keeps the shape.
  lemma {:induction false} LevelWritten(schema: Json, v: Members, at: Segments, value: Json, parent: Segments,
                                        hints: Hints, format: Json -> string)
    requires NamesUnique(schema) && UniqueMembers(v) && NamesUnique(value)
    requires DeclaredLeaf(schema, at) && LevelsHoldObjects(schema, v)
    ensures var w := SetAtPointer(v, at, value);
            && UniqueMembers(w) && LevelsHoldObjects(schema, w)
            && Shape(BuildObjectFields(schema, w, parent, hints, format).fields)
               == Shape(BuildObjectFields(schema, v, parent, hints, format).fields)
    decreases Size(schema), 1
  {
    var s := MembersOf(schema);
    var properties, required := Properties(s), Child(s, "required");
    ChildIsSmaller(s, "properties");
    assert UniqueMembers(s);
    UniqueChild(s, "properties");
    var w := SetAtPointer(v, at, value);
    ChildWritten(schema, v, at, value, parent, hints, format);
    PropertiesWritten(properties, required, v, w, at[0], parent, hints, format);
    LevelKept(schema, v, parent, hints, format);
    LevelKept(schema, w, parent, hints, format);
    var stored := Lookup(w, at[0]).value;
    PreservedPut(v, properties, parent, at[0], stored);
    var a := BuildProperties(properties, required, v, parent, hints, format);
    var b := BuildProperties(properties, required, w, parent, hints, format);
    MapConcat(Blanked, a.fields, PreservedFields(v, properties, parent));
    MapConcat(Blanked, b.fields, PreservedFields(w, properties, parent));
  }

  // What the write stores under the first name of its path.
  ghost predicate Kept(schema: Json, v: Json, w: Json, parent: Segments, hints: Hints, format: Json -> string) {
    IsContainer(schema) ==>
      && v.JObject? && w.JObject? && UniqueMembers(v.members) && UniqueMembers(w.members)
      && LevelsHoldObjects(schema, v.members) && LevelsHoldObjects(schema, w.members)
      && Shape(BuildObjectFields(schema, w.members, parent, hints, format).fields)
         == Shape(BuildObjectFields(schema, v.members, parent, hints, format).fields)
  }

  lemma {:induction false} ChildWritten(schema: Json, v: Members, at: Segments, value: Json, parent: Segments,
                                        hints: Hints, format: Json -> string)
    requires NamesUnique(schema) && UniqueMembers(v) && NamesUnique(value)
    requires DeclaredLeaf(schema, at) && LevelsHoldObjects(schema, v)
    ensures var w := SetAtPointer(v, at, value);
            var property := Lookup(Properties(MembersOf(schema)), at[0]).value;
            && UniqueMembers(w)
            && Lookup(w, at[0]).Some? && w == Put(v, at[0], Lookup(w, at[0]).value)
            && (forall k :: k != at[0] ==> Lookup(w, k) == Lookup(v, k))
            && Kept(property, Child(v, at[0]), Child(w, at[0]), parent + [at[0]], hints, format)
    decreases Size(schema), 0
  {
    var s := MembersOf(schema);
    var properties := Properties(s);
    ChildIsSmaller(s, "properties");
    assert UniqueMembers(s);
    UniqueChild(s, "properties");
    UniqueChild(properties, at[0]);
    ChildIsSmaller(properties, at[0]);
    var property := Lookup(properties, at[0]).value;
    if |at| == 1 {
      UniquePut(v, at[0], value);
      forall k ensures Lookup(Put(v, at[0], value), k) == if k == at[0] then Some(value) else Lookup(v, k) {
        ChildOfPut(v, at[0], value, k);
      }
    } else {
      LevelHeld(properties, v, at[0]);
      var inner := MembersOf(Child(v, at[0]));
      UniqueChild(v, at[0]);
      LevelWritten(property, inner, at[1..], value, parent + [at[0]], hints, format);
      var after := SetAtPointer(inner, at[1..], value);
      WidenedMembers(v, at[0], after);
    }
  }

  // A level named among the properties holds an object.
  lemma {:induction false} LevelHeld(properties: Members, values: Members, key: string)
    requires PropertiesHoldObjects(properties, values)
    requires Has(properties, key) && IsContainer(Lookup(properties, key).value)
    ensures Child(values, key).JObject? && LevelsHoldObjects(Lookup(properties, key).value, Child(values, key).members)
    decreases |properties|
  {
    if properties[0].name != key {
      LevelHeld(properties[1..], values, key);
    }
  }

  lemma {:induction false} PropertiesWritten(properties: Members, required: Json, v: Members, w: Members, key: string,
                                             parent: Segments, hints: Hints, format: Json -> string)
    requires UniqueMembers(properties) && UniqueMembers(v) && UniqueMembers(w) && PropertiesHoldObjects(properties, v)
    requires forall k :: k != key ==> Lookup(w, k) == Lookup(v, k)
    requires Has(properties, key) ==>
               Kept(Lookup(properties, key).value, Child(v, key), Child(w, key), parent + [key], hints, format)
    ensures PropertiesHoldObjects(properties, w)
    ensures Shape(BuildProperties(properties, required, w, parent, hints, format).fields)
            == Shape(BuildProperties(properties, required, v, parent, hints, format).fields)
    decreases MembersSize(properties), 1
  {
    if properties != [] {
      UniqueTail(properties);
      var name, schema, tail := properties[0].name, properties[0].value, properties[1..];
      assert Has(tail, key) ==> Lookup(tail, key) == Lookup(properties, key);
      PropertiesWritten(tail, required, v, w, key, parent, hints, format);
      assert Kept(schema, Child(v, name), Child(w, name), parent + [name], hints, format) by {
        UniqueChild(v, name);
      }
      if IsContainer(schema) {
        ContainerWritten(properties, required, v, w, parent, hints, format);
      } else {
        FieldWritten(properties, required, v, w, parent, hints, format);
      }
    }
  }

  // The field of a first property, joined to those of the rest.
  lemma FieldWritten(properties: Members, required: Json, v: Members, w: Members, parent: Segments,
                     hints: Hints, format: Json -> string)
    requires properties != [] && !IsContainer(properties[0].value)
    requires Shape(BuildProperties(properties[1..], required, w, parent, hints, format).fields)
             == Shape(BuildProperties(properties[1..], required, v, parent, hints, format).fields)
    ensures Shape(BuildProperties(properties, required, w, parent, hints, format).fields)
            == Shape(BuildProperties(properties, required, v, parent, hints, format).fields)
  {
    var name, schema, tail := properties[0].name, properties[0].value, properties[1..];
    var a := DeclaredField(MembersOf(schema), name, parent, required, hints, format, Child(v, name));
    var b := DeclaredField(MembersOf(schema), name, parent, required, hints, format, Child(w, name));
    MapConcat(Blanked, [a], BuildProperties(tail, required, v, parent, hints, format).fields);
    MapConcat(Blanked, [b], BuildProperties(tail, required, w, parent, hints, format).fields);
    assert Shape([a]) == Shape([b]);
  }

  // The fields of a first property that is a level, joined to those of the rest.
  lemma ContainerWritten(properties: Members, required: Json, v: Members, w: Members, parent: Segments,
                         hints: Hints, format: Json -> string)
    requires properties != [] && IsContainer(properties[0].value) && NamesUnique(properties[0].value)
    requires var name := properties[0].name;
             Kept(properties[0].value, Child(v, name), Child(w, name), parent + [name], hints, format)
    requires Shape(BuildProperties(properties[1..], required, w, parent, hints, format).fields)
             == Shape(BuildProperties(properties[1..], required, v, parent, hints, format).fields)
    ensures Shape(BuildProperties(properties, required, w, parent, hints, format).fields)
            == Shape(BuildProperties(properties, required, v, parent, hints, format).fields)
  {
    var name, schema, tail := properties[0].name, properties[0].value, properties[1..];
    StoredLevel(schema, v, name, parent, hints, format);
    StoredLevel(schema, w, name, parent, hints, format);
    var a := BuildObjectFields(schema, Child(v, name).members, parent + [name], hints, format);
    var b := BuildObjectFields(schema, Child(w, name).members, parent + [name], hints, format);
    MapConcat(Blanked, a.fields, BuildProperties(tail, required, v, parent, hints, format).fields);
    MapConcat(Blanked, b.fields, BuildProperties(tail, required, w, parent, hints, format).fields);
  }

  // Building a level that holds objects throughout stores back what is there.
  lemma StoredLevel(schema: Json, values: Members, key: string, parent: Segments, hints: Hints, format: Json -> string)
    requires NamesUnique(schema) && Child(values, key).JObject? && UniqueMembers(Child(values, key).members)
    requires LevelsHoldObjects(schema, Child(values, key).members)
    ensures var inner := BuildObjectFields(schema, Child(values, key).members, parent + [key], hints, format);
            Put(values, key, JObject(inner.values)) == values
  {
    LevelKept(schema, Child(values, key).members, parent + [key], hints, format);
    PutStored(values, key);
  }

  // ----- Editable fields are declared -----

  ghost predicate Leaf(schema: Json, f: Field, parent: Segments) {
    f.isReadOnly ||
    (&& Parse(f.path).Some? && parent <= Parse(f.path).value
     && DeclaredLeaf(schema, Parse(f.path).value[|parent|..]))
  }

  lemma {:induction false} EditableAreLeaves(schema: Json, values: Members, parent: Segments, hints: Hints,
                                             format: Json -> string)
    requires NamesUnique(schema)
    ensures forall f <- BuildObjectFields(schema, values, parent, hints, format).fields :: Leaf(schema, f, parent)
    decreases Size(schema), 0
  {
    var s := MembersOf(schema);
    var properties, required := Properties(s), Child(s, "required");
    ChildIsSmaller(s, "properties");
    assert UniqueMembers(s);
    UniqueChild(s, "properties");
    PropertyLeaves(schema, properties, required, values, parent, hints, format);
    var b := BuildProperties(properties, required, values, parent, hints, format);
    PreservedReadOnly(b.values, properties, parent);
  }

  lemma {:induction false} PreservedReadOnly(values: Members, properties: Members, parent: Segments)
    ensures forall f <- PreservedFields(values, properties, parent) :: f.isReadOnly
  {
    if values != [] {
      PreservedReadOnly(values[1..], properties, parent);
    }
  }

  lemma {:induction false} PropertyLeaves(level: Json, properties: Members, required: Json, values: Members,
                                          parent: Segments, hints: Hints, format: Json -> string)
    requires UniqueMembers(properties)
    requires forall k :: Has(properties, k) ==> Lookup(Properties(MembersOf(level)), k) == Lookup(properties, k)
    ensures forall f <- BuildProperties(properties, required, values, parent, hints, format).fields ::
              Leaf(level, f, parent)
    decreases MembersSize(properties), 1
  {
    if properties != [] {
      UniqueTail(properties);
      var key, schema, tail := properties[0].name, properties[0].value, properties[1..];
      assert Has(properties, key) && forall k :: Has(tail, k) ==> Lookup(tail, k) == Lookup(properties, k);
      if IsContainer(schema) {
        var inner := BuildObjectFields(schema, MembersOf(Child(values, key)), parent + [key], hints, format);
        EditableAreLeaves(schema, MembersOf(Child(values, key)), parent + [key], hints, format);
        forall f <- inner.fields ensures Leaf(level, f, parent) {
          LeafOutside(level, schema, f, parent, key);
        }
        PropertyLeaves(level, tail, required, Put(values, key, JObject(inner.values)), parent, hints, format);
      } else {
        var f := DeclaredField(MembersOf(schema), key, parent, required, hints, format, Child(values, key));
        ParsePointer(parent + [key]);
        assert (parent + [key])[|parent|..] == [key];
        assert Leaf(level, f, parent);
        PropertyLeaves(level, tail, required, values, parent, hints, format);
      }
    }
  }

  lemma LeafOutside(level: Json, schema: Json, f: Field, parent: Segments, key: string)
    requires Leaf(schema, f, parent + [key]) && IsContainer(schema)
    requires Lookup(Properties(MembersOf(level)), key) == Some(schema)
    ensures Leaf(level, f, parent)
  {
    if !f.isReadOnly {
      var at, below := Parse(f.path).value, parent + [key];
      assert below <= at && at[|parent|] == below[|parent|] == key;
      assert parent <= at;
      assert at[|parent|..][1..] == at[|below|..];
    }
  }

  // ----- Reopening -----

  ghost predicate Reopens(schema: Json, form: Form, hints: Hints, format: Json -> string) {
    CreateForm(schema, form.parameters, hints, format) == Some(form)
  }

  // Lists of one shape that show the same tree are the same.
  lemma SameShapeSameFields(a: seq<Field>, b: seq<Field>, parameters: Members)
    requires Shape(a) == Shape(b)
    requires forall i :: 0 <= i < |a| ==> Shows(parameters, a[i])
    requires forall i :: 0 <= i < |b| ==> Shows(parameters, b[i])
    ensures a == b
  {
    assert |a| == |Shape(a)| == |b|;
    forall i | 0 <= i < |a| ensures a[i] == b[i] {
      assert Shape(a)[i] == Blanked(a[i]) && Shape(b)[i] == Blanked(b[i]);
      assert a[i].path == Blanked(a[i]).path == b[i].path;
      assert a[i] == Blanked(a[i]).(value := a[i].value) && b[i] == Blanked(b[i]).(value := b[i].value);
    }
  }

  lemma CreatedReopens(schema: Json, given: Members, hints: Hints, format: Json -> string)
    requires NamesUnique(schema) && UniqueMembers(given) && CreateForm(schema, given, hints, format).Some?
    ensures var form := CreateForm(schema, given, hints, format).value;
            Reopens(schema, form, hints, format) && UniqueMembers(form.parameters)
  {
    var form := CreateForm(schema, given, hints, format).value;
    BuildWell(schema, given, [], hints, format);
    LevelRebuilt(schema, given, [], hints, format);
    CreateIsLens(schema, given, hints, format);
    CreateIsLens(schema, form.parameters, hints, format);
    var again := CreateForm(schema, form.parameters, hints, format).value;
    SameShapeSameFields(again.fields, form.fields, form.parameters);
  }

  // Parsed JSON repeats no member name.
  ghost predicate Strict(p: Parsers) {
    forall text :: p.json(text).Some? ==> NamesUnique(p.json(text).value)
  }

  // Writing at an editable field keeps the tree well formed and the shape of its fields.
  lemma WrittenTree(schema: Json, form: Form, hints: Hints, format: Json -> string, i: nat, value: Json)
    requires NamesUnique(schema) && UniqueMembers(form.parameters) && Reopens(schema, form, hints, format)
    requires i < |form.fields| && !form.fields[i].isReadOnly && NamesUnique(value)
    ensures Parse(form.fields[i].path).Some?
    ensures var w := SetAtPointer(form.parameters, Parse(form.fields[i].path).value, value);
            && UniqueMembers(w) && CreateForm(schema, w, hints, format).Some?
            && CreateForm(schema, w, hints, format).value.parameters == w
            && Shape(CreateForm(schema, w, hints, format).value.fields) == Shape(form.fields)
  {
    EditableAreLeaves(schema, form.parameters, [], hints, format);
    assert form.fields[i] in form.fields;
    var at := Parse(form.fields[i].path).value;
    assert at[0..] == at;
    LevelKept(schema, form.parameters, [], hints, format);
    LevelWritten(schema, form.parameters, at, value, [], hints, format);
    LevelKept(schema, SetAtPointer(form.parameters, at, value), [], hints, format);
  }

  lemma EditKeepsShape(p: Parsers, form: Form, path: string, text: string)
    ensures Shape(Edit(p, form, path, text).fields) == Shape(form.fields)
  {
    EditedFields(p, form, path, text);
  }

  lemma AcceptedIsStrict(p: Parsers, field: Field, text: string)
    requires Strict(p) && ParseText(p, field, text).Some?
    ensures NamesUnique(ParseText(p, field, text).value)
  {
  }

  lemma EditReopens(p: Parsers, schema: Json, form: Form, hints: Hints, format: Json -> string, path: string,
                    text: string)
    requires NamesUnique(schema) && UniqueMembers(form.parameters) && Reopens(schema, form, hints, format) && Strict(p)
    ensures var after := Edit(p, form, path, text);
            Reopens(schema, after, hints, format) && UniqueMembers(after.parameters)
  {
    if EditedValue(p, form, path, text).Some? {
      var after, i := Edit(p, form, path, text), FindField(form.fields, path);
      AcceptedIsStrict(p, form.fields[i], text);
      WrittenTree(schema, form, hints, format, i, EditedValue(p, form, path, text).value);
      EditKeepsShape(p, form, path, text);
      CreateIsLens(schema, form.parameters, hints, format);
      CreateIsLens(schema, after.parameters, hints, format);
      EditKeepsLens(p, form, path, text);
      var again := CreateForm(schema, after.parameters, hints, format).value;
      SameShapeSameFields(again.fields, after.fields, after.parameters);
    }
  }

  lemma {:induction false} EditsReopen(p: Parsers, schema: Json, form: Form, hints: Hints, format: Json -> string,
                                       edits: seq<TextEdit>)
    requires NamesUnique(schema) && UniqueMembers(form.parameters) && Reopens(schema, form, hints, format) && Strict(p)
    ensures Reopens(schema, EditAll(p, form, edits), hints, format)
    decreases |edits|
  {
    if edits != [] {
      EditReopens(p, schema, form, hints, format, edits[0].path, edits[0].text);
      EditsReopen(p, schema, Edit(p, form, edits[0].path, edits[0].text), hints, format, edits[1..]);
    }
  }

  /**
    Whatever is edited, a form created from the parameters handed back is the edited form: the same fields in the
    same order, showing the same values, over the same tree.
   */
  lemma ReopensAsSaved(p: Parsers, schema: Json, given: Members, hints: Hints, format: Json -> string,
                       edits: seq<TextEdit>)
    requires NamesUnique(schema) && UniqueMembers(given) && Strict(p)
    requires CreateForm(schema, given, hints, format).Some?
    ensures var after := EditAll(p, CreateForm(schema, given, hints, format).value, edits);
            CreateForm(schema, after.parameters, hints, format) == Some(after)
  {
    CreatedReopens(schema, given, hints, format);
    EditsReopen(p, schema, CreateForm(schema, given, hints, format).value, hints, format, edits);
  }
}
