/**
  The parameter form of an operator: a list of fields that are lenses into one tree of parameters.
 */
module JsonSchemaFormModel {
  import opened Wrappers
  import opened JsonValues
  import opened JsonPointers

  datatype FieldKind = Text | Number | Integer | Boolean | Enum | Array | Object | Unsupported

  datatype ControlKind = NumberControl | Slider | TextControl | Select | MultiSelect | Checkbox | Formula

  datatype Hint = Hint(groupId: string, control: ControlKind)

  type Hints = map<string, Hint>

  datatype Field = Field(
    path: string,
    groupId: string,
    kind: FieldKind,
    isRequired: bool,
    isReadOnly: bool,
    options: seq<string>,
    minimum: Option<real>,
    maximum: Option<real>,
    value: Json)

  // ----- Reading a schema -----

  function Properties(schema: Members): Members {
    MembersOf(Child(schema, "properties"))
  }

  function SchemaType(schema: Members): Option<string> {
    var t := Child(schema, "type");
    if t.JString? then Some(t.text) else None
  }

  predicate Has(schema: Members, name: string) {
    Lookup(schema, name).Some?
  }

  // A property with properties of its own is not a field but a level of the tree.
  predicate IsContainer(schema: Json) {
    && schema.JObject?
    && SchemaType(schema.members) == Some("object")
    && Child(schema.members, "properties").JObject?
  }

  function HintedKind(control: ControlKind): FieldKind {
    match control
    case NumberControl => Number
    case Slider => Number
    case TextControl => Text
    case Formula => Text
    case Select => Enum
    case MultiSelect => Array
    case Checkbox => Boolean
  }

  function TypedKind(schema: Members): FieldKind {
    match SchemaType(schema)
    case None => Unsupported
    case Some(t) =>
      if t == "string" then Text
      else if t == "number" then Number
      else if t == "integer" then Integer
      else if t == "boolean" then Boolean
      else if t == "array" then Array
      else if t == "object" then Object
      else Unsupported
  }

  function Kind(schema: Members, hint: Option<Hint>): FieldKind {
    if Has(schema, "oneOf") || Has(schema, "anyOf") || Has(schema, "allOf") then Unsupported
    else if Child(schema, "enum").JArray? then Enum
    else if hint.Some? && !HintedKind(hint.value.control).Enum? then HintedKind(hint.value.control)
    else TypedKind(schema)
  }

  predicate RequiredNames(required: Json, name: string) {
    required.JArray? && exists i :: 0 <= i < |required.items| && required.items[i] == JString(name)
  }

  function Bound(schema: Members, key: string): Option<real> {
    match Child(schema, key)
    case JInteger(n) => Some(n as real)
    case JDecimal(x) => Some(x)
    case _ => None
  }

  function OptionTexts(items: seq<Json>, format: Json -> string): seq<string> {
    seq(|items|, i requires 0 <= i < |items| => format(items[i]))
  }

  function EnumOptions(schema: Members, format: Json -> string): seq<string> {
    var options := Child(schema, "enum");
    if options.JArray? then OptionTexts(options.items, format) else []
  }

  // ----- Building the fields -----

  // format prints a JSON value, for the texts an enumeration offers.
  function DeclaredField(schema: Members, key: string, parent: Segments, required: Json,
                         hints: Hints, format: Json -> string, value: Json): Field {
    var path := Pointer(parent + [key]);
    var hint := if path in hints then Some(hints[path]) else None;
    var kind := Kind(schema, hint);
    Field(path,
          if hint.Some? then hint.value.groupId else "parameters",
          kind,
          RequiredNames(required, key),
          kind.Unsupported?,
          EnumOptions(schema, format),
          Bound(schema, "minimum"),
          Bound(schema, "maximum"),
          value)
  }

  function PreservedField(key: string, parent: Segments, value: Json): Field {
    Field(Pointer(parent + [key]), "preserved", Unsupported, false, true, [], None, None, value)
  }

  // The members the schema does not describe, in their own order.
  function PreservedFields(values: Members, properties: Members, parent: Segments): seq<Field> {
    if values == [] then []
    else
      (if Has(properties, values[0].name) then []
       else [PreservedField(values[0].name, parent, values[0].value)])
      + PreservedFields(values[1..], properties, parent)
  }

  datatype Built = Built(values: Members, fields: seq<Field>)

  function Size(e: Json): nat
    decreases e, 0
  {
    1 + (if e.JObject? then MembersSize(e.members) else 0)
  }

  function MembersSize(members: Members): nat
    decreases members, 1
  {
    if members == [] then 0 else 1 + Size(members[0].value) + MembersSize(members[1..])
  }

  lemma {:induction false} ChildIsSmaller(members: Members, name: string)
    ensures Lookup(members, name).Some? ==> Size(Lookup(members, name).value) < MembersSize(members)
  {
    if members != [] && members[0].name != name {
      ChildIsSmaller(members[1..], name);
    }
  }

  function BuildObjectFields(schema: Json, values: Members, parent: Segments, hints: Hints,
                             format: Json -> string): Built
    decreases Size(schema), 0
  {
    var s := MembersOf(schema);
    var properties := Properties(s);
    ChildIsSmaller(s, "properties");
    var built := BuildProperties(properties, Child(s, "required"), values, parent, hints, format);
    Built(built.values, built.fields + PreservedFields(built.values, properties, parent))
  }

  function BuildProperties(properties: Members, required: Json, values: Members, parent: Segments,
                           hints: Hints, format: Json -> string): Built
    decreases MembersSize(properties), 1
  {
    if properties == [] then Built(values, [])
    else
      var key, schema, value := properties[0].name, properties[0].value, Child(values, properties[0].name);
      if IsContainer(schema) then
        var inner := BuildObjectFields(schema, MembersOf(value), parent + [key], hints, format);
        var widened := Put(values, key, JObject(inner.values));
        var rest := BuildProperties(properties[1..], required, widened, parent, hints, format);
        Built(rest.values, inner.fields + rest.fields)
      else
        var rest := BuildProperties(properties[1..], required, values, parent, hints, format);
        var field := DeclaredField(MembersOf(schema), key, parent, required, hints, format, value);
        Built(rest.values, [field] + rest.fields)
  }

  // Reading a schema throws on a required list or a description that is not made of strings.
  predicate Readable(schema: Json, parent: Segments, hints: Hints)
    decreases Size(schema), 0
  {
    var s := MembersOf(schema);
    var required := Child(s, "required");
    ChildIsSmaller(s, "properties");
    && (required.JArray? ==>
          forall i :: 0 <= i < |required.items| ==> required.items[i].JString? || required.items[i].JNull?)
    && ReadableProperties(Properties(s), parent, hints)
  }

  predicate ReadableProperties(properties: Members, parent: Segments, hints: Hints)
    decreases MembersSize(properties), 1
  {
    properties == [] ||
    (var path, schema := parent + [properties[0].name], properties[0].value;
     && (if IsContainer(schema) then Readable(schema, path, hints)
         else
           var description := Child(MembersOf(schema), "description");
           Pointer(path) in hints || description.JString? || description.JNull?)
     && ReadableProperties(properties[1..], parent, hints))
  }

  // ----- The form -----

  datatype Form = Form(parameters: Members, fields: seq<Field>)

  function CreateForm(schema: Json, parameters: Members, hints: Hints, format: Json -> string): Option<Form> {
    if !Readable(schema, [], hints) then None
    else
      var built := BuildObjectFields(schema, parameters, [], hints, format);
      Some(Form(built.values, built.fields))
  }

  // How texts are read: None where the .NET parser refuses the text.
  datatype Parsers = Parsers(
    number: string -> Option<real>,
    integer: string -> Option<int>,
    boolean: string -> Option<bool>,
    json: string -> Option<Json>)

  predicate Within(x: real, field: Field) {
    (field.minimum.Some? ==> field.minimum.value <= x) && (field.maximum.Some? ==> x <= field.maximum.value)
  }

  function ParseText(p: Parsers, field: Field, text: string): Option<Json> {
    match field.kind
    case Text => Some(JString(text))
    case Number =>
      var x := p.number(text);
      if x.None? || !Within(x.value, field) then None else Some(JDecimal(x.value))
    case Integer =>
      var n := p.integer(text);
      if n.None? || !Within(n.value as real, field) then None else Some(JInteger(n.value))
    case Boolean =>
      var b := p.boolean(text);
      if b.None? then None else Some(JBool(b.value))
    case Enum => if text in field.options then Some(JString(text)) else None
    case Array =>
      var e := p.json(text);
      if e.None? || !e.value.JArray? then None else e
    case Object =>
      var e := p.json(text);
      if e.None? || !e.value.JObject? then None else e
    case Unsupported => None
  }

  function FindField(fields: seq<Field>, path: string): (i: int)
    ensures -1 <= i < |fields|
    ensures i >= 0 ==> fields[i].path == path
    ensures i == -1 ==> forall j :: 0 <= j < |fields| ==> fields[j].path != path
  {
    if fields == [] then -1
    else if fields[0].path == path then 0
    else
      var rest := FindField(fields[1..], path);
      assert forall j :: 1 <= j < |fields| ==> fields[j] == fields[1..][j - 1];
      if rest == -1 then -1 else rest + 1
  }

  // None: the edit is refused and the form stays as it is.
  function EditedValue(p: Parsers, form: Form, path: string, text: string): Option<Json> {
    var i := FindField(form.fields, path);
    if i < 0 || form.fields[i].isReadOnly || Parse(path).None? then None
    else ParseText(p, form.fields[i], text)
  }

  function Edit(p: Parsers, form: Form, path: string, text: string): Form {
    var value := EditedValue(p, form, path, text);
    if value.None? then form
    else
      var i := FindField(form.fields, path);
      Form(SetAtPointer(form.parameters, Parse(path).value, value.value),
           form.fields[i := form.fields[i].(value := value.value)])
  }

  datatype TextEdit = TextEdit(path: string, text: string)

  function EditAll(p: Parsers, form: Form, edits: seq<TextEdit>): Form
    decreases |edits|
  {
    if edits == [] then form else EditAll(p, Edit(p, form, edits[0].path, edits[0].text), edits[1..])
  }

  // ----- The lens invariant -----

  // Field i shows the value stored at its path.
  ghost predicate Shows(parameters: Members, field: Field) {
    Parse(field.path).Some? && field.value == Get(JObject(parameters), Parse(field.path).value)
  }

  ghost predicate NotAbove(a: Field, b: Field) {
    Parse(a.path).Some? && Parse(b.path).Some? ==> !(Parse(a.path).value <= Parse(b.path).value)
  }

  // No field's path is a prefix of another's; in particular paths are distinct.
  ghost predicate Apart(fields: seq<Field>) {
    forall i, j :: 0 <= i < |fields| && 0 <= j < |fields| && i != j ==> NotAbove(fields[i], fields[j])
  }

  ghost predicate Lens(form: Form) {
    && (forall i :: 0 <= i < |form.fields| ==> Shows(form.parameters, form.fields[i]))
    && Apart(form.fields)
    && (forall i :: 0 <= i < |form.fields| ==> form.fields[i].isReadOnly == form.fields[i].kind.Unsupported?)
  }

  // A successful edit is seen at its path and below it, and nowhere else in the tree.
  lemma EditedTree(p: Parsers, form: Form, path: string, text: string)
    requires EditedValue(p, form, path, text).Some?
    ensures var after, at := Edit(p, form, path, text), Parse(path).value;
            var value := EditedValue(p, form, path, text).value;
            && Get(JObject(after.parameters), at) == value
            && forall q :: !Comparable(at, q) ==> Get(JObject(after.parameters), q) == Get(JObject(form.parameters), q)
  {
    var at, value := Parse(path).value, EditedValue(p, form, path, text).value;
    GetAfterSet(form.parameters, at, value, []);
    assert at + [] == at;
    forall q | !Comparable(at, q)
      ensures Get(JObject(SetAtPointer(form.parameters, at, value)), q) == Get(JObject(form.parameters), q)
    {
      SetFrame(form.parameters, at, value, q);
    }
  }

  // An edit changes the value of the one field found by its path, or nothing.
  lemma EditedFields(p: Parsers, form: Form, path: string, text: string)
    ensures var after, i := Edit(p, form, path, text), FindField(form.fields, path);
            var value := EditedValue(p, form, path, text);
            && |after.fields| == |form.fields|
            && (forall j :: 0 <= j < |form.fields| ==>
                  after.fields[j] ==
                  if j == i && value.Some? then form.fields[j].(value := value.value) else form.fields[j])
            && (value.None? ==> after == form)
            && (value.Some? ==> !form.fields[i].isReadOnly)
  {
  }

  lemma EditKeepsLens(p: Parsers, form: Form, path: string, text: string)
    requires Lens(form)
    ensures Lens(Edit(p, form, path, text))
  {
    EditedFields(p, form, path, text);
    if EditedValue(p, form, path, text).Some? {
      EditedTree(p, form, path, text);
      var after, i := Edit(p, form, path, text), FindField(form.fields, path);
      forall j | 0 <= j < |form.fields| ensures Shows(after.parameters, after.fields[j]) {
        if j != i {
          assert NotAbove(form.fields[i], form.fields[j]) && NotAbove(form.fields[j], form.fields[i]);
        }
      }
      forall j, k | 0 <= j < |form.fields| && 0 <= k < |form.fields| && j != k
        ensures NotAbove(after.fields[j], after.fields[k])
      {
        assert NotAbove(form.fields[j], form.fields[k]);
      }
    }
  }

  // ----- What a field accepts -----

  // The text stands for this value in a field of that kind.
  ghost predicate Stands(p: Parsers, kind: FieldKind, text: string, v: Json) {
    match v
    case JString(s) => (kind.Text? || kind.Enum?) && s == text
    case JDecimal(x) => kind.Number? && p.number(text) == Some(x)
    case JInteger(n) => kind.Integer? && p.integer(text) == Some(n)
    case JBool(b) => kind.Boolean? && p.boolean(text) == Some(b)
    case JArray(_) => kind.Array? && p.json(text) == Some(v)
    case JObject(_) => kind.Object? && p.json(text) == Some(v)
    case JNull => false
  }

  // The field has no objection to this value.
  ghost predicate Permits(field: Field, v: Json) {
    && (field.kind.Enum? ==> exists i :: 0 <= i < |field.options| && v == JString(field.options[i]))
    && (v.JDecimal? && field.minimum.Some? ==> v.number >= field.minimum.value)
    && (v.JDecimal? && field.maximum.Some? ==> v.number <= field.maximum.value)
    && (v.JInteger? && field.minimum.Some? ==> v.whole as real >= field.minimum.value)
    && (v.JInteger? && field.maximum.Some? ==> v.whole as real <= field.maximum.value)
  }

  // A text is accepted as a value exactly when it stands for it and the field permits it.
  lemma AcceptedExactly(p: Parsers, field: Field, text: string, v: Json)
    ensures ParseText(p, field, text) == Some(v) <==> Stands(p, field.kind, text, v) && Permits(field, v)
  {
    if field.kind.Enum? && text in field.options {
      var i :| 0 <= i < |field.options| && field.options[i] == text;
      assert JString(text) == JString(field.options[i]);
    }
  }

  lemma TextIsTaken(p: Parsers, field: Field, text: string)
    ensures forall v :: ParseText(p, field, text) == Some(v) <==> Stands(p, field.kind, text, v) && Permits(field, v)
  {
    forall v ensures ParseText(p, field, text) == Some(v) <==> Stands(p, field.kind, text, v) && Permits(field, v) {
      AcceptedExactly(p, field, text, v);
    }
  }

  lemma OnlyFieldThere(fields: seq<Field>, i: nat)
    requires Apart(fields) && i < |fields| && Parse(fields[i].path).Some?
    ensures forall j :: 0 <= j < |fields| && fields[j].path == fields[i].path ==> j == i
  {
    forall j | 0 <= j < |fields| && fields[j].path == fields[i].path ensures j == i {
      var apart := NotAbove(fields[i], fields[j]);
    }
  }

  // The field at the path shows, and the tree holds there, what the text stands for.
  ghost predicate Holds(p: Parsers, form: Form, path: string, text: string) {
    exists i :: 0 <= i < |form.fields| && form.fields[i].path == path && HoldsAt(p, form, i, text)
  }

  ghost predicate HoldsAt(p: Parsers, form: Form, i: nat, text: string)
    requires i < |form.fields|
  {
    var f := form.fields[i];
    && !f.isReadOnly && Stands(p, f.kind, text, f.value) && Permits(f, f.value)
    && Parse(f.path).Some? && Get(JObject(form.parameters), Parse(f.path).value) == f.value
  }

  // No field there takes the text for any value.
  ghost predicate Refuses(p: Parsers, form: Form, path: string, text: string) {
    forall i, v :: 0 <= i < |form.fields| && form.fields[i].path == path && !form.fields[i].isReadOnly ==>
                     !Stands(p, form.fields[i].kind, text, v) || !Permits(form.fields[i], v)
  }

  // An edit puts what was typed where it belongs, or was impossible.
  lemma EditHolds(p: Parsers, form: Form, path: string, text: string)
    requires Lens(form)
    ensures if EditedValue(p, form, path, text).Some? then Holds(p, Edit(p, form, path, text), path, text)
            else Edit(p, form, path, text) == form && Refuses(p, form, path, text)
  {
    var i := FindField(form.fields, path);
    if i >= 0 {
      assert Shows(form.parameters, form.fields[i]);
      OnlyFieldThere(form.fields, i);
      TextIsTaken(p, form.fields[i], text);
      if EditedValue(p, form, path, text).Some? {
        EditedTree(p, form, path, text);
        var after := Edit(p, form, path, text);
        assert after.fields[i].path == path && HoldsAt(p, after, i, text);
      }
    }
  }

  // ----- What is accepted, against the schema -----

  predicate HasType(t: string, v: Json) {
    if t == "string" then v.JString?
    else if t == "number" then v.JInteger? || v.JDecimal?
    else if t == "integer" then v.JInteger? || (v.JDecimal? && Whole(v.number))
    else if t == "boolean" then v.JBool?
    else if t == "array" then v.JArray?
    else if t == "object" then v.JObject?
    else true
  }

  predicate Whole(x: real) {
    x.Floor as real == x
  }

  predicate AtLeast(v: Json, bound: real) {
    (v.JInteger? ==> v.whole as real >= bound) && (v.JDecimal? ==> v.number >= bound)
  }

  predicate AtMost(v: Json, bound: real) {
    (v.JInteger? ==> v.whole as real <= bound) && (v.JDecimal? ==> v.number <= bound)
  }

  // The value satisfies the schema's type, enum, minimum and maximum.
  predicate Conforms(schema: Members, v: Json) {
    && (SchemaType(schema).Some? ==> HasType(SchemaType(schema).value, v))
    && (Child(schema, "enum").JArray? ==> v in Child(schema, "enum").items)
    && (Bound(schema, "minimum").Some? ==> AtLeast(v, Bound(schema, "minimum").value))
    && (Bound(schema, "maximum").Some? ==> AtMost(v, Bound(schema, "maximum").value))
  }

  // The kind of control suits the schema's type; a number control suits an integer only at a whole number.
  predicate Suits(kind: FieldKind, schema: Members, v: Json) {
    match SchemaType(schema)
    case None => true
    case Some(t) =>
      if t == "string" then kind.Text? || kind.Enum?
      else if t == "number" then kind.Number? || kind.Integer?
      else if t == "integer" then kind.Integer? || (kind.Number? && v.JDecimal? && Whole(v.number))
      else if t == "boolean" then kind.Boolean?
      else if t == "array" then kind.Array?
      else if t == "object" then kind.Object?
      else true
  }

  /**
    A value accepted by a declared field satisfies the property's schema exactly when the control suits the
    schema's type and, for a choice, the text chosen is itself one of the enumerated values.
   */
  lemma AcceptedValuesFit(p: Parsers, schema: Members, key: string, parent: Segments, required: Json, hints: Hints,
                          format: Json -> string, shown: Json, text: string)
    ensures var field := DeclaredField(schema, key, parent, required, hints, format, shown);
            var v := ParseText(p, field, text);
            v.Some? ==>
              (Conforms(schema, v.value) <==>
               && Suits(field.kind, schema, v.value)
               && (field.kind.Enum? ==> JString(text) in Child(schema, "enum").items))
  {
  }

  // So without a hint, and with only strings to choose from, whatever is accepted satisfies the schema.
  lemma UnhintedValuesFit(p: Parsers, schema: Members, key: string, parent: Segments, required: Json, hints: Hints,
                          format: Json -> string, shown: Json, text: string)
    requires Pointer(parent + [key]) !in hints
    requires Child(schema, "enum").JArray? ==>
               && (SchemaType(schema) == None || SchemaType(schema) == Some("string"))
               && forall e <- Child(schema, "enum").items :: e.JString? && format(e) == e.text
    ensures var v := ParseText(p, DeclaredField(schema, key, parent, required, hints, format, shown), text);
            v.Some? ==> Conforms(schema, v.value)
  {
    var field := DeclaredField(schema, key, parent, required, hints, format, shown);
    AcceptedValuesFit(p, schema, key, parent, required, hints, format, shown, text);
    if field.kind.Enum? && text in field.options {
      var items := Child(schema, "enum").items;
      var i :| 0 <= i < |items| && field.options[i] == text;
      assert items[i] in items && items[i] == JString(text);
    }
  }

  // A slider over an integer takes fractions, ...
  lemma SliderTakesFractions(p: Parsers, required: Json, format: Json -> string, text: string)
    requires p.number(text) == Some(0.5)
    ensures var schema := [Member("type", JString("integer"))];
            var field := DeclaredField(schema, "n", [], required, map["/n" := Hint("g", Slider)], format, JNull);
            ParseText(p, field, text) == Some(JDecimal(0.5)) && !Conforms(schema, JDecimal(0.5))
  {
    var schema := [Member("type", JString("integer"))];
    AbsentNames("type", JString("integer"));
    EscapeOne('n');
    var none: Segments := [];
    assert none + ["n"] == [['n']] && "/" + ['n'] == "/n";
    assert Kind(schema, Some(Hint("g", Slider))) == Number;
    assert Bound(schema, "minimum") == None && Bound(schema, "maximum") == None;
    assert (0.5).Floor == 0;
    assert "integer"[0] == 'i' && "string"[0] == 's' && "number"[0] == 'n';
    assert !HasType("integer", JDecimal(0.5));
  }

  // ... and choosing one of several numbers stores its text.
  lemma ChosenNumberBecomesText(p: Parsers, required: Json, format: Json -> string)
    ensures var schema := [Member("enum", JArray([JInteger(1)]))];
            var field := DeclaredField(schema, "n", [], required, map[], format, JInteger(1));
            var v := ParseText(p, field, format(JInteger(1)));
            v == Some(JString(format(JInteger(1)))) && !Conforms(schema, v.value)
  {
    AbsentNames("enum", JArray([JInteger(1)]));
    var options := OptionTexts([JInteger(1)], format);
    assert options[0] == format(JInteger(1)) && options[0] in options;
  }

  lemma AbsentNames(name: string, value: Json)
    requires name == "type" || name == "enum"
    ensures forall other :: Lookup([Member(name, value)], other) == if other == name then Some(value) else None
    ensures "oneOf" != name && "anyOf" != name && "allOf" != name && "minimum" != name && "maximum" != name
    ensures "type" != "enum"
  {
    assert [Member(name, value)][1..] == [];
    assert "oneOf"[0] == 'o' && "anyOf"[0] == 'a' && "allOf"[0] == 'a' && "minimum"[0] == 'm' && "maximum"[0] == 'm';
    assert "type"[0] == 't' && "enum"[0] == 'e';
  }

  lemma EscapeOne(c: char)
    requires c != '~' && c != '/'
    ensures Pointer([[c]]) == "/" + [c]
  {
    TildedChar(c);
    assert [[c]][1..] == [];
    assert Replace([c], "/", "~1") == [c];
  }

  // Over any sequence of edits the lens stays and read-only fields do not change.
  lemma {:induction false} EditsKeepReadOnly(p: Parsers, form: Form, edits: seq<TextEdit>)
    requires Lens(form)
    ensures var after := EditAll(p, form, edits);
            && Lens(after)
            && |after.fields| == |form.fields|
            && forall i :: 0 <= i < |form.fields| ==>
                 && after.fields[i].(value := form.fields[i].value) == form.fields[i]
                 && (form.fields[i].isReadOnly ==> after.fields[i] == form.fields[i])
    decreases |edits|
  {
    if edits != [] {
      EditKeepsLens(p, form, edits[0].path, edits[0].text);
      EditedFields(p, form, edits[0].path, edits[0].text);
      EditsKeepReadOnly(p, Edit(p, form, edits[0].path, edits[0].text), edits[1..]);
    }
  }

  // ----- Creation establishes the lens -----

  // The field lies below parent and shows the value v has there.
  ghost predicate Located(f: Field, parent: Segments, v: Members) {
    && Parse(f.path).Some?
    && |parent| < |Parse(f.path).value|
    && parent <= Parse(f.path).value
    && f.value == Get(JObject(v), Parse(f.path).value[|parent|..])
    && f.isReadOnly == f.kind.Unsupported?
  }

  // The member of the object at parent that the field belongs to.
  ghost function Key(f: Field, parent: Segments): string {
    if Parse(f.path).Some? && |parent| < |Parse(f.path).value| then Parse(f.path).value[|parent|] else ""
  }

  lemma DifferentKeysApart(f: Field, g: Field, parent: Segments, v: Members)
    requires Located(f, parent, v) && Located(g, parent, v) && Key(f, parent) != Key(g, parent)
    ensures NotAbove(f, g) && NotAbove(g, f)
  {
  }

  // A field depends on its own member only.
  lemma LocatedByChild(f: Field, parent: Segments, v: Members, w: Members)
    requires Located(f, parent, v) && Child(w, Key(f, parent)) == Child(v, Key(f, parent))
    ensures Located(f, parent, w)
  {
    assert Parse(f.path).value[|parent|..][0] == Key(f, parent);
  }

  // A field below a nested object, seen from the object that holds it.
  lemma LocatedOutside(f: Field, parent: Segments, key: string, inner: Members, v: Members)
    requires Located(f, parent + [key], inner)
    requires MembersOf(Child(v, key)) == inner
    ensures Located(f, parent, v) && Key(f, parent) == key
  {
    var at, below := Parse(f.path).value, parent + [key];
    assert at[|parent|] == below[|parent|] == key;
    assert at[|parent|..][0] == key && at[|parent|..][1..] == at[|below|..];
    assert parent <= below <= at;
    var rest := at[|below|..];
    if !Child(v, key).JObject? {
      assert inner == [] && Child(inner, rest[0]) == JNull;
      GetOfNull(rest[1..]);
    }
  }

  lemma FieldLocated(f: Field, parent: Segments, key: string, v: Members)
    requires f.path == Pointer(parent + [key]) && f.value == Child(v, key) && f.isReadOnly == f.kind.Unsupported?
    ensures Located(f, parent, v) && Key(f, parent) == key
  {
    ParsePointer(parent + [key]);
    var below := (parent + [key])[|parent|..];
    assert below == [key] && below[1..] == [];
  }

  ghost predicate UniqueMembers(members: Members) {
    NamesUnique(JObject(members))
  }

  lemma {:induction false} LookupUnique(members: Members, i: nat)
    requires UniqueMembers(members) && i < |members|
    ensures Lookup(members, members[i].name) == Some(members[i].value)
  {
    if i > 0 {
      UniqueTail(members);
      assert members[1..][i - 1] == members[i];
      LookupUnique(members[1..], i - 1);
    }
  }

  lemma UniqueTail(members: Members)
    requires UniqueMembers(members) && members != []
    ensures UniqueMembers(members[1..]) && NamesUnique(members[0].value) && !Has(members[1..], members[0].name)
  {
    var tail := members[1..];
    assert forall i :: 0 <= i < |tail| ==> tail[i] == members[i + 1];
    if Has(tail, members[0].name) {
      LookupName(tail, members[0].name);
    }
  }

  lemma {:induction false} LookupName(members: Members, name: string)
    requires Lookup(members, name).Some?
    ensures exists i :: 0 <= i < |members| && members[i].name == name && members[i].value == Lookup(members, name).value
  {
    if members[0].name != name {
      LookupName(members[1..], name);
      var i :| 0 <= i < |members[1..]| && members[1..][i].name == name
               && members[1..][i].value == Lookup(members[1..], name).value;
      assert members[i + 1].name == name;
    }
  }

  lemma UniqueChild(members: Members, name: string)
    requires UniqueMembers(members)
    ensures NamesUnique(Child(members, name)) && UniqueMembers(MembersOf(Child(members, name)))
  {
    if Lookup(members, name).Some? {
      LookupName(members, name);
    }
  }

  lemma {:induction false} UniquePut(members: Members, name: string, value: Json)
    requires UniqueMembers(members) && NamesUnique(value)
    ensures UniqueMembers(Put(members, name, value))
    ensures forall k :: Has(Put(members, name, value), k) <==> k == name || Has(members, k)
  {
    forall k ensures Has(Put(members, name, value), k) <==> k == name || Has(members, k) {
      ChildOfPut(members, name, value, k);
    }
    if members != [] {
      UniqueTail(members);
      var tail, after := members[1..], Put(members, name, value);
      if members[0].name == name {
        assert forall i :: 1 <= i < |after| ==> after[i] == members[i];
      } else {
        UniquePut(tail, name, value);
        var rest := Put(tail, name, value);
        assert forall i :: 1 <= i < |after| ==> after[i] == rest[i - 1];
        forall i | 0 <= i < |rest| ensures rest[i].name != members[0].name {
          LookupUnique(rest, i);
          assert Has(rest, rest[i].name);
        }
      }
    }
  }

  lemma ApartConcat(a: seq<Field>, b: seq<Field>)
    requires Apart(a) && Apart(b)
    requires forall i, j :: 0 <= i < |a| && 0 <= j < |b| ==> NotAbove(a[i], b[j]) && NotAbove(b[j], a[i])
    ensures Apart(a + b)
  {
    var all := a + b;
    forall i, j | 0 <= i < |all| && 0 <= j < |all| && i != j ensures NotAbove(all[i], all[j]) {
      if i < |a| && j < |a| {
        assert all[i] == a[i] && all[j] == a[j];
      } else if i < |a| {
        assert all[i] == a[i] && all[j] == b[j - |a|];
      } else if j < |a| {
        assert all[i] == b[i - |a|] && all[j] == a[j];
      } else {
        assert all[i] == b[i - |a|] && all[j] == b[j - |a|];
      }
    }
  }

  ghost predicate AllBelow(fields: seq<Field>, parent: Segments, v: Members) {
    forall i :: 0 <= i < |fields| ==> Located(fields[i], parent, v)
  }

  ghost predicate KeysIn(fields: seq<Field>, parent: Segments, members: Members) {
    forall i :: 0 <= i < |fields| ==> Has(members, Key(fields[i], parent))
  }

  ghost predicate KeysNotIn(fields: seq<Field>, parent: Segments, members: Members) {
    forall i :: 0 <= i < |fields| ==> !Has(members, Key(fields[i], parent))
  }

  // Fields of members of one list stand apart from fields of members outside it.
  lemma SeparateKeysApart(first: seq<Field>, rest: seq<Field>, parent: Segments, members: Members, v: Members)
    requires Apart(first) && Apart(rest) && AllBelow(first, parent, v) && AllBelow(rest, parent, v)
    requires KeysNotIn(first, parent, members) && KeysIn(rest, parent, members)
    ensures Apart(first + rest) && Apart(rest + first)
  {
    forall i, j | 0 <= i < |first| && 0 <= j < |rest|
      ensures NotAbove(first[i], rest[j]) && NotAbove(rest[j], first[i])
    {
      DifferentKeysApart(first[i], rest[j], parent, v);
    }
    ApartConcat(first, rest);
    ApartConcat(rest, first);
  }

  // Fields keep showing a tree that differs only in members they do not belong to.
  lemma OthersMove(fields: seq<Field>, parent: Segments, v: Members, w: Members)
    requires AllBelow(fields, parent, v)
    requires forall i :: 0 <= i < |fields| ==> Lookup(w, Key(fields[i], parent)) == Lookup(v, Key(fields[i], parent))
    ensures AllBelow(fields, parent, w)
  {
    forall i | 0 <= i < |fields| ensures Located(fields[i], parent, w) {
      LocatedByChild(fields[i], parent, v, w);
    }
  }

  lemma InnerOutside(fields: seq<Field>, parent: Segments, key: string, inner: Members, v: Members)
    requires AllBelow(fields, parent + [key], inner) && MembersOf(Child(v, key)) == inner
    ensures AllBelow(fields, parent, v)
    ensures forall i :: 0 <= i < |fields| ==> Key(fields[i], parent) == key
  {
    forall i | 0 <= i < |fields| ensures Located(fields[i], parent, v) && Key(fields[i], parent) == key {
      LocatedOutside(fields[i], parent, key, inner, v);
    }
  }

  lemma BelowConcat(a: seq<Field>, b: seq<Field>, parent: Segments, v: Members)
    requires AllBelow(a, parent, v) && AllBelow(b, parent, v)
    ensures AllBelow(a + b, parent, v)
  {
  }

  // Building a level: every field shows both the new tree's value and the original one, the fields stand apart,
  // and members the properties do not name are untouched.
  lemma {:induction false} BuildWell(schema: Json, values: Members, parent: Segments, hints: Hints,
                                     format: Json -> string)
    requires NamesUnique(schema) && UniqueMembers(values)
    ensures var b := BuildObjectFields(schema, values, parent, hints, format);
            && UniqueMembers(b.values) && Apart(b.fields)
            && AllBelow(b.fields, parent, b.values) && AllBelow(b.fields, parent, values)
    decreases Size(schema), 0
  {
    var s := MembersOf(schema);
    var properties := Properties(s);
    ChildIsSmaller(s, "properties");
    assert UniqueMembers(s);
    UniqueChild(s, "properties");
    PropertiesWell(properties, Child(s, "required"), values, parent, hints, format);
    var b := BuildProperties(properties, Child(s, "required"), values, parent, hints, format);
    PreservedWell(b.values, properties, parent, b.values);
    var preserved := PreservedFields(b.values, properties, parent);
    OthersMove(preserved, parent, b.values, values);
    SeparateKeysApart(preserved, b.fields, parent, properties, b.values);
    BelowConcat(b.fields, preserved, parent, b.values);
    BelowConcat(b.fields, preserved, parent, values);
  }

  lemma {:induction false} PropertiesWell(properties: Members, required: Json, values: Members, parent: Segments,
                                          hints: Hints, format: Json -> string)
    requires UniqueMembers(properties) && UniqueMembers(values)
    ensures var b := BuildProperties(properties, required, values, parent, hints, format);
            && UniqueMembers(b.values) && Apart(b.fields) && KeysIn(b.fields, parent, properties)
            && AllBelow(b.fields, parent, b.values) && AllBelow(b.fields, parent, values)
            && forall k :: !Has(properties, k) ==> Lookup(b.values, k) == Lookup(values, k)
    decreases MembersSize(properties), 1
  {
    if properties != [] {
      UniqueTail(properties);
      var key, schema, tail := properties[0].name, properties[0].value, properties[1..];
      if IsContainer(schema) {
        LevelWell(properties, required, values, parent, hints, format);
      } else {
        PropertiesWell(tail, required, values, parent, hints, format);
        var rest := BuildProperties(tail, required, values, parent, hints, format);
        var first := [DeclaredField(MembersOf(schema), key, parent, required, hints, format, Child(values, key))];
        FieldLocated(first[0], parent, key, values);
        FieldLocated(first[0], parent, key, rest.values);
        PropertyJoined(properties, first, rest.fields, parent, values, rest.values);
      }
    }
  }

  // The first property is a level of the tree.
  lemma {:induction false} LevelWell(properties: Members, required: Json, values: Members, parent: Segments,
                                     hints: Hints, format: Json -> string)
    requires UniqueMembers(properties) && UniqueMembers(values)
    requires properties != [] && IsContainer(properties[0].value)
    ensures var b := BuildProperties(properties, required, values, parent, hints, format);
            && UniqueMembers(b.values) && Apart(b.fields) && KeysIn(b.fields, parent, properties)
            && AllBelow(b.fields, parent, b.values) && AllBelow(b.fields, parent, values)
            && forall k :: !Has(properties, k) ==> Lookup(b.values, k) == Lookup(values, k)
    decreases MembersSize(properties), 0
  {
    UniqueTail(properties);
    var key, schema, tail := properties[0].name, properties[0].value, properties[1..];
    var inner := MembersOf(Child(values, key));
    UniqueChild(values, key);
    BuildWell(schema, inner, parent + [key], hints, format);
    var b := BuildObjectFields(schema, inner, parent + [key], hints, format);
    var widened := Put(values, key, JObject(b.values));
    WidenedMembers(values, key, b.values);
    PropertiesWell(tail, required, widened, parent, hints, format);
    var rest := BuildProperties(tail, required, widened, parent, hints, format);
    InnerOutside(b.fields, parent, key, b.values, rest.values);
    InnerOutside(b.fields, parent, key, inner, values);
    OthersMove(rest.fields, parent, widened, values);
    PropertyJoined(properties, b.fields, rest.fields, parent, values, rest.values);
  }

  lemma WidenedMembers(values: Members, key: string, inner: Members)
    requires UniqueMembers(values) && UniqueMembers(inner)
    ensures var widened := Put(values, key, JObject(inner));
            && UniqueMembers(widened)
            && forall k :: Lookup(widened, k) == if k == key then Some(JObject(inner)) else Lookup(values, k)
  {
    UniquePut(values, key, JObject(inner));
    forall k
      ensures Lookup(Put(values, key, JObject(inner)), k) ==
              if k == key then Some(JObject(inner)) else Lookup(values, k)
    {
      ChildOfPut(values, key, JObject(inner), k);
    }
  }

  // The fields of the first property and those of the rest, put together.
  lemma PropertyJoined(properties: Members, first: seq<Field>, rest: seq<Field>, parent: Segments, v: Members,
                       w: Members)
    requires properties != [] && !Has(properties[1..], properties[0].name)
    requires Apart(first) && Apart(rest) && KeysIn(rest, parent, properties[1..])
    requires forall i :: 0 <= i < |first| ==> Key(first[i], parent) == properties[0].name
    requires AllBelow(first, parent, v) && AllBelow(rest, parent, v)
    requires AllBelow(first, parent, w) && AllBelow(rest, parent, w)
    ensures Apart(first + rest) && KeysIn(first + rest, parent, properties)
    ensures AllBelow(first + rest, parent, v) && AllBelow(first + rest, parent, w)
  {
    SeparateKeysApart(first, rest, parent, properties[1..], v);
    BelowConcat(first, rest, parent, v);
    BelowConcat(first, rest, parent, w);
    forall i | 0 <= i < |first + rest| ensures Has(properties, Key((first + rest)[i], parent)) {
      if i >= |first| {
        assert Has(properties[1..], Key(rest[i - |first|], parent));
      }
    }
  }

  // The preserved fields of some members of v.
  lemma {:induction false} PreservedWell(members: Members, properties: Members, parent: Segments, v: Members)
    requires UniqueMembers(members)
    requires forall k :: Has(members, k) ==> Lookup(v, k) == Lookup(members, k)
    ensures var fields := PreservedFields(members, properties, parent);
            && Apart(fields) && AllBelow(fields, parent, v)
            && KeysIn(fields, parent, members) && KeysNotIn(fields, parent, properties)
  {
    if members != [] {
      UniqueTail(members);
      var tail, key := members[1..], members[0].name;
      PreservedWell(tail, properties, parent, v);
      var rest := PreservedFields(tail, properties, parent);
      if !Has(properties, key) {
        var first := [PreservedField(key, parent, members[0].value)];
        FieldLocated(first[0], parent, key, v);
        PropertyJoined(members, first, rest, parent, v, v);
      } else {
        assert PreservedFields(members, properties, parent) == rest;
        forall i | 0 <= i < |rest| ensures Has(members, Key(rest[i], parent)) {
          assert Has(tail, Key(rest[i], parent));
        }
      }
    }
  }

  // A new form is a lens whose every field shows the value the given parameters had at its path.
  lemma CreateIsLens(schema: Json, parameters: Members, hints: Hints, format: Json -> string)
    requires NamesUnique(schema) && UniqueMembers(parameters) && CreateForm(schema, parameters, hints, format).Some?
    ensures var form := CreateForm(schema, parameters, hints, format).value;
            && Lens(form)
            && forall i :: 0 <= i < |form.fields| ==> Shows(parameters, form.fields[i])
  {
    BuildWell(schema, parameters, [], hints, format);
    var form := CreateForm(schema, parameters, hints, format).value;
    forall i | 0 <= i < |form.fields|
      ensures Shows(form.parameters, form.fields[i]) && Shows(parameters, form.fields[i])
      ensures form.fields[i].isReadOnly == form.fields[i].kind.Unsupported?
    {
      assert Located(form.fields[i], [], form.parameters) && Located(form.fields[i], [], parameters);
      var at := Parse(form.fields[i].path).value;
      assert at[0..] == at;
    }
  }

  // q names a member the schema does not describe, at some level that it does.
  ghost predicate Undeclared(schema: Json, q: Segments)
    decreases |q|
  {
    q != [] &&
    var properties := Properties(MembersOf(schema));
    if |q| == 1 then !Has(properties, q[0])
    else
      && Has(properties, q[0]) && IsContainer(Lookup(properties, q[0]).value)
      && Undeclared(Lookup(properties, q[0]).value, q[1..])
  }

  ghost predicate Present(values: Members, q: Segments)
    decreases |q|
  {
    q != [] && if |q| == 1 then Has(values, q[0]) else Present(MembersOf(Child(values, q[0])), q[1..])
  }

  ghost predicate Listed(fields: seq<Field>, path: string) {
    exists i :: 0 <= i < |fields| && Preserves(fields[i], path)
  }

  predicate Preserves(f: Field, path: string) {
    f.path == path && f.isReadOnly && f.groupId == "preserved"
  }

  lemma ListedConcat(a: seq<Field>, b: seq<Field>, path: string)
    ensures Listed(a, path) || Listed(b, path) ==> Listed(a + b, path)
  {
    if Listed(a, path) {
      var i :| 0 <= i < |a| && Preserves(a[i], path);
      assert (a + b)[i] == a[i];
    } else if Listed(b, path) {
      var i :| 0 <= i < |b| && Preserves(b[i], path);
      assert (a + b)[|a| + i] == b[i];
    }
  }

  lemma {:induction false} UndeclaredListed(schema: Json, values: Members, parent: Segments, q: Segments,
                                            hints: Hints, format: Json -> string)
    requires NamesUnique(schema) && UniqueMembers(values) && Undeclared(schema, q) && Present(values, q)
    ensures Listed(BuildObjectFields(schema, values, parent, hints, format).fields, Pointer(parent + q))
    decreases Size(schema), 0
  {
    var s := MembersOf(schema);
    var properties, required := Properties(s), Child(s, "required");
    ChildIsSmaller(s, "properties");
    assert UniqueMembers(s);
    UniqueChild(s, "properties");
    var b := BuildProperties(properties, required, values, parent, hints, format);
    var preserved := PreservedFields(b.values, properties, parent);
    if |q| == 1 {
      PropertiesWell(properties, required, values, parent, hints, format);
      PreservedListed(b.values, properties, parent, q[0]);
      assert q == [q[0]];
    } else {
      PropertiesListed(properties, required, values, parent, q, hints, format);
    }
    ListedConcat(b.fields, preserved, Pointer(parent + q));
  }

  lemma {:induction false} PropertiesListed(properties: Members, required: Json, values: Members, parent: Segments,
                                            q: Segments, hints: Hints, format: Json -> string)
    requires UniqueMembers(properties) && UniqueMembers(values) && |q| > 1
    requires Has(properties, q[0]) && IsContainer(Lookup(properties, q[0]).value)
    requires Undeclared(Lookup(properties, q[0]).value, q[1..]) && Present(values, q)
    ensures Listed(BuildProperties(properties, required, values, parent, hints, format).fields, Pointer(parent + q))
    decreases MembersSize(properties), 1
  {
    UniqueTail(properties);
    var key, schema, tail := properties[0].name, properties[0].value, properties[1..];
    if IsContainer(schema) {
      var inner := MembersOf(Child(values, key));
      UniqueChild(values, key);
      BuildWell(schema, inner, parent + [key], hints, format);
      var b := BuildObjectFields(schema, inner, parent + [key], hints, format);
      var widened := Put(values, key, JObject(b.values));
      WidenedMembers(values, key, b.values);
      if key == q[0] {
        OpenedListed(schema, inner, parent, key, q, hints, format);
      } else {
        PresentElsewhere(values, widened, q);
        PropertiesListed(tail, required, widened, parent, q, hints, format);
      }
      var rest := BuildProperties(tail, required, widened, parent, hints, format);
      ListedConcat(b.fields, rest.fields, Pointer(parent + q));
    } else {
      PropertiesListed(tail, required, values, parent, q, hints, format);
      var first := [DeclaredField(MembersOf(schema), key, parent, required, hints, format, Child(values, key))];
      ListedConcat(first, BuildProperties(tail, required, values, parent, hints, format).fields, Pointer(parent + q));
    }
  }

  lemma {:induction false} OpenedListed(schema: Json, inner: Members, parent: Segments, key: string, q: Segments,
                                        hints: Hints, format: Json -> string)
    requires NamesUnique(schema) && UniqueMembers(inner) && |q| > 1 && q[0] == key
    requires Undeclared(schema, q[1..]) && Present(inner, q[1..])
    ensures Listed(BuildObjectFields(schema, inner, parent + [key], hints, format).fields, Pointer(parent + q))
    decreases Size(schema), 1
  {
    UndeclaredListed(schema, inner, parent + [key], q[1..], hints, format);
    assert parent + [key] + q[1..] == parent + q;
  }

  lemma PresentElsewhere(v: Members, w: Members, q: Segments)
    requires Present(v, q) && Lookup(v, q[0]) == Lookup(w, q[0])
    ensures Present(w, q)
  {
  }

  lemma {:induction false} PreservedListed(members: Members, properties: Members, parent: Segments, name: string)
    requires Has(members, name) && !Has(properties, name)
    ensures Listed(PreservedFields(members, properties, parent), Pointer(parent + [name]))
  {
    var first := if Has(properties, members[0].name) then []
                 else [PreservedField(members[0].name, parent, members[0].value)];
    if members[0].name == name {
      assert Preserves(first[0], Pointer(parent + [name]));
    } else {
      PreservedListed(members[1..], properties, parent, name);
    }
    ListedConcat(first, PreservedFields(members[1..], properties, parent), Pointer(parent + [name]));
  }

  // Whatever is edited, the parameters handed back hold at every read-only field's path, and at the path of
  // every member the schema does not describe, exactly what was given.
  lemma UndeclaredSurvives(p: Parsers, schema: Json, parameters: Members, hints: Hints, format: Json -> string,
                           edits: seq<TextEdit>)
    requires NamesUnique(schema) && UniqueMembers(parameters) && CreateForm(schema, parameters, hints, format).Some?
    ensures var form := CreateForm(schema, parameters, hints, format).value;
            var after := EditAll(p, form, edits);
            && (forall i :: 0 <= i < |form.fields| && form.fields[i].isReadOnly ==>
                  Parse(form.fields[i].path).Some?
                  && Get(JObject(after.parameters), Parse(form.fields[i].path).value)
                     == Get(JObject(parameters), Parse(form.fields[i].path).value))
            && (forall q :: Undeclared(schema, q) && Present(parameters, q) ==>
                  Get(JObject(after.parameters), q) == Get(JObject(parameters), q))
  {
    CreateIsLens(schema, parameters, hints, format);
    var form := CreateForm(schema, parameters, hints, format).value;
    var after := EditAll(p, form, edits);
    EditsKeepReadOnly(p, form, edits);
    forall i | 0 <= i < |form.fields| && form.fields[i].isReadOnly
      ensures Parse(form.fields[i].path).Some?
      ensures Get(JObject(after.parameters), Parse(form.fields[i].path).value)
           == Get(JObject(parameters), Parse(form.fields[i].path).value)
    {
      assert Shows(parameters, form.fields[i]) && Shows(after.parameters, after.fields[i]);
    }
    forall q | Undeclared(schema, q) && Present(parameters, q)
      ensures Get(JObject(after.parameters), q) == Get(JObject(parameters), q)
    {
      UndeclaredListed(schema, parameters, [], q, hints, format);
      assert [] + q == q;
      ParsePointer(q);
    }
  }

  // ----- When creation keeps the tree -----

  // Every property that is a level of the tree holds an object, and so within it.
  ghost predicate LevelsHoldObjects(schema: Json, values: Members)
    decreases Size(schema), 0
  {
    ChildIsSmaller(MembersOf(schema), "properties");
    PropertiesHoldObjects(Properties(MembersOf(schema)), values)
  }

  ghost predicate PropertiesHoldObjects(properties: Members, values: Members)
    decreases MembersSize(properties), 1
  {
    properties == [] ||
    (var schema, value := properties[0].value, Child(values, properties[0].name);
     && (IsContainer(schema) ==> value.JObject? && LevelsHoldObjects(schema, value.members))
     && PropertiesHoldObjects(properties[1..], values))
  }

  lemma {:induction false} PutStored(members: Members, name: string)
    requires Lookup(members, name).Some?
    ensures Put(members, name, Lookup(members, name).value) == members
  {
    if members[0].name != name {
      PutStored(members[1..], name);
    }
  }

  lemma {:induction false} LevelKept(schema: Json, values: Members, parent: Segments, hints: Hints,
                                     format: Json -> string)
    requires NamesUnique(schema) && UniqueMembers(values)
    ensures BuildObjectFields(schema, values, parent, hints, format).values == values
            <==> LevelsHoldObjects(schema, values)
    decreases Size(schema), 0
  {
    var s := MembersOf(schema);
    ChildIsSmaller(s, "properties");
    assert UniqueMembers(s);
    UniqueChild(s, "properties");
    PropertiesKept(Properties(s), Child(s, "required"), values, parent, hints, format);
  }

  lemma {:induction false} PropertiesKept(properties: Members, required: Json, values: Members, parent: Segments,
                                          hints: Hints, format: Json -> string)
    requires UniqueMembers(properties) && UniqueMembers(values)
    ensures BuildProperties(properties, required, values, parent, hints, format).values == values
            <==> PropertiesHoldObjects(properties, values)
    decreases MembersSize(properties), 1
  {
    if properties != [] {
      UniqueTail(properties);
      var key, schema, tail := properties[0].name, properties[0].value, properties[1..];
      if IsContainer(schema) {
        ContainerKept(properties, required, values, parent, hints, format);
      } else {
        PropertiesKept(tail, required, values, parent, hints, format);
      }
    }
  }

  // The first property is a level: what creation stores there stays, so the tree is kept only if that is what
  // was there.
  lemma {:induction false} ContainerKept(properties: Members, required: Json, values: Members, parent: Segments,
                                         hints: Hints, format: Json -> string)
    requires UniqueMembers(properties) && UniqueMembers(values)
    requires properties != [] && IsContainer(properties[0].value)
    ensures BuildProperties(properties, required, values, parent, hints, format).values == values
            <==> PropertiesHoldObjects(properties, values)
    decreases MembersSize(properties), 0
  {
    UniqueTail(properties);
    var key, schema, tail := properties[0].name, properties[0].value, properties[1..];
    var inner := MembersOf(Child(values, key));
    UniqueChild(values, key);
    LevelKept(schema, inner, parent + [key], hints, format);
    BuildWell(schema, inner, parent + [key], hints, format);
    var b := BuildObjectFields(schema, inner, parent + [key], hints, format);
    var widened := Put(values, key, JObject(b.values));
    WidenedMembers(values, key, b.values);
    PropertiesWell(tail, required, widened, parent, hints, format);
    var rest := BuildProperties(tail, required, widened, parent, hints, format);
    assert Lookup(rest.values, key) == Some(JObject(b.values));
    if Lookup(values, key) == Some(JObject(b.values)) {
      PutStored(values, key);
      PropertiesKept(tail, required, values, parent, hints, format);
    }
  }

  // Creation keeps the parameters it was given exactly when every property that is a level of the tree holds an
  // object, at every depth.
  lemma CreationKeepsExactly(schema: Json, parameters: Members, hints: Hints, format: Json -> string)
    requires NamesUnique(schema) && UniqueMembers(parameters) && CreateForm(schema, parameters, hints, format).Some?
    ensures CreateForm(schema, parameters, hints, format).value.parameters == parameters
            <==> LevelsHoldObjects(schema, parameters)
  {
    LevelKept(schema, parameters, [], hints, format);
  }

  // A level that is missing is added, and so is one that holds something else.
  lemma EmptyParametersAreFilled(hints: Hints, format: Json -> string)
    ensures var level := JObject([Member("type", JString("object")), Member("properties", JObject([]))]);
            var schema := JObject([Member("properties", JObject([Member("window", level)]))]);
            && NamesUnique(schema)
            && CreateForm(schema, [], hints, format).Some?
            && CreateForm(schema, [], hints, format).value.parameters == [Member("window", JObject([]))]
  {
    var inside := [Member("type", JString("object")), Member("properties", JObject([]))];
    var level := JObject(inside);
    var properties := [Member("window", level)];
    var schema := JObject([Member("properties", JObject(properties))]);
    assert "type"[0] != "properties"[0];
    assert Lookup(inside[1..], "properties") == Some(JObject([]));
    assert IsContainer(level) && Properties(inside) == [];
    assert Lookup(inside[1..][1..], "required") == None;
    assert Lookup(inside[1..], "required") == None;
    assert properties[1..] == [];
    assert Lookup([Member("properties", JObject(properties))][1..], "required") == None;
    assert "properties"[0] != "required"[0];
  }

  // A value that is not an object, under a property that has properties of its own, is not kept: creation
  // replaces it by an object.
  lemma ContainersBecomeObjects(schema: Json, parameters: Members, hints: Hints, format: Json -> string, key: string)
    requires NamesUnique(schema) && UniqueMembers(parameters) && CreateForm(schema, parameters, hints, format).Some?
    requires Has(Properties(MembersOf(schema)), key) && IsContainer(Lookup(Properties(MembersOf(schema)), key).value)
    ensures Child(CreateForm(schema, parameters, hints, format).value.parameters, key).JObject?
    ensures !Child(parameters, key).JObject? ==>
              Get(JObject(CreateForm(schema, parameters, hints, format).value.parameters), [key])
              != Get(JObject(parameters), [key])
  {
    var s := MembersOf(schema);
    assert UniqueMembers(s);
    UniqueChild(s, "properties");
    ContainerOpened(Properties(s), Child(s, "required"), parameters, [], hints, format, key);
    assert [key][1..] == [];
  }

  lemma {:induction false} ContainerOpened(properties: Members, required: Json, values: Members, parent: Segments,
                                           hints: Hints, format: Json -> string, key: string)
    requires UniqueMembers(properties) && UniqueMembers(values)
    requires Has(properties, key) && IsContainer(Lookup(properties, key).value)
    ensures Child(BuildProperties(properties, required, values, parent, hints, format).values, key).JObject?
    decreases |properties|
  {
    UniqueTail(properties);
    var first, schema, tail := properties[0].name, properties[0].value, properties[1..];
    if IsContainer(schema) {
      var inner := MembersOf(Child(values, first));
      UniqueChild(values, first);
      BuildWell(schema, inner, parent + [first], hints, format);
      var b := BuildObjectFields(schema, inner, parent + [first], hints, format);
      WidenedMembers(values, first, b.values);
      var widened := Put(values, first, JObject(b.values));
      if first == key {
        PropertiesWell(tail, required, widened, parent, hints, format);
      } else {
        ContainerOpened(tail, required, widened, parent, hints, format, key);
      }
    } else {
      ContainerOpened(tail, required, values, parent, hints, format, key);
    }
  }

  // ----- The form object -----

  // The first loop of a level: declared properties, entering the nested levels.
  method BuildDeclared(properties: Members, required: Json, values: Members, parent: Segments,
                       hints: Hints, format: Json -> string)
    returns (tree: Members, fields: seq<Field>)
    ensures Built(tree, fields) == BuildProperties(properties, required, values, parent, hints, format)
    decreases MembersSize(properties), 1
  {
    ghost var whole := BuildProperties(properties, required, values, parent, hints, format);
    tree, fields := values, [];
    var i := 0;
    while i < |properties|
      invariant 0 <= i <= |properties|
      invariant Continues(whole, fields, BuildProperties(properties[i..], required, tree, parent, hints, format))
    {
      var key, property := properties[i].name, properties[i].value;
      ghost var tail := properties[i..];
      assert tail[0] == properties[i] && tail[1..] == properties[i + 1..];
      ghost var before := fields;
      if IsContainer(property) {
        SizeOfElement(properties, i);
        var inner, innerFields := BuildLevel(property, MembersOf(Child(tree, key)), parent + [key], hints, format);
        tree := Put(tree, key, JObject(inner));
        fields := fields + innerFields;
        ContinueWith(whole, before, innerFields,
                     BuildProperties(properties[i + 1..], required, tree, parent, hints, format));
      } else {
        var field := DeclaredField(MembersOf(property), key, parent, required, hints, format, Child(tree, key));
        fields := fields + [field];
        ContinueWith(whole, before, [field],
                     BuildProperties(properties[i + 1..], required, tree, parent, hints, format));
      }
      i := i + 1;
    }
    assert properties[i..] == [];
    assert whole.fields == fields;
  }

  ghost predicate Continues(whole: Built, done: seq<Field>, rest: Built) {
    whole.values == rest.values && whole.fields == done + rest.fields
  }

  lemma ContinueWith(whole: Built, done: seq<Field>, more: seq<Field>, rest: Built)
    requires Continues(whole, done, Built(rest.values, more + rest.fields))
    ensures Continues(whole, done + more, rest)
  {
  }

  // The second loop: the members of the tree that no property names.
  method BuildPreserved(tree: Members, properties: Members, parent: Segments) returns (fields: seq<Field>)
    ensures fields == PreservedFields(tree, properties, parent)
  {
    fields := [];
    var i := 0;
    while i < |tree|
      invariant 0 <= i <= |tree|
      invariant PreservedFields(tree, properties, parent) == fields + PreservedFields(tree[i..], properties, parent)
    {
      if !Has(properties, tree[i].name) {
        fields := fields + [PreservedField(tree[i].name, parent, tree[i].value)];
      }
      i := i + 1;
    }
  }

  method BuildLevel(schema: Json, values: Members, parent: Segments, hints: Hints, format: Json -> string)
    returns (tree: Members, fields: seq<Field>)
    ensures Built(tree, fields) == BuildObjectFields(schema, values, parent, hints, format)
    decreases Size(schema), 0
  {
    var properties := Properties(MembersOf(schema));
    ChildIsSmaller(MembersOf(schema), "properties");
    tree, fields := BuildDeclared(properties, Child(MembersOf(schema), "required"), values, parent, hints, format);
    var preserved := BuildPreserved(tree, properties, parent);
    fields := fields + preserved;
  }

  lemma {:induction false} SizeOfElement(members: Members, i: nat)
    requires i < |members|
    ensures Size(members[i].value) < MembersSize(members)
  {
    if i > 0 {
      assert members[1..][i - 1] == members[i];
      SizeOfElement(members[1..], i - 1);
    }
  }

  lemma {:induction false} EditAllAppends(p: Parsers, form: Form, edits: seq<TextEdit>, e: TextEdit)
    ensures EditAll(p, form, edits + [e]) == Edit(p, EditAll(p, form, edits), e.path, e.text)
    decreases |edits|
  {
    if edits == [] {
      assert [] + [e] == [e] && [e][1..] == [];
    } else {
      assert (edits + [e])[1..] == edits[1..] + [e];
      EditAllAppends(p, Edit(p, form, edits[0].path, edits[0].text), edits[1..], e);
    }
  }

  class FormModel {
    const parsers: Parsers
    var parameters: Members
    var fields: seq<Field>
    // What the form was created from and every edit tried since.
    ghost const schema: Json
    ghost const given: Members
    ghost const hints: Hints
    ghost const format: Json -> string
    ghost var edits: seq<TextEdit>

    constructor (parsers: Parsers, schema: Json, given: Members, hints: Hints, format: Json -> string)
      requires NamesUnique(schema) && UniqueMembers(given) && Readable(schema, [], hints)
      ensures Valid() && edits == [] && this.parsers == parsers
      ensures this.schema == schema && this.given == given && this.hints == hints && this.format == format
    {
      var tree, list := BuildLevel(schema, given, [], hints, format);
      this.parsers, parameters, fields := parsers, tree, list;
      this.schema, this.given, this.hints, this.format, edits := schema, given, hints, format, [];
    }

    // None: reading the schema throws.
    static method Create(parsers: Parsers, schema: Json, given: Members, hints: Hints, format: Json -> string)
      returns (form: Option<FormModel>)
      requires NamesUnique(schema) && UniqueMembers(given)
      ensures form.Some? <==> Readable(schema, [], hints)
      ensures form.Some? ==> fresh(form.value) && form.value.Valid() && form.value.edits == []
      ensures form.Some? ==> CreateForm(schema, given, hints, format) == Some(form.value.View())
    {
      if !Readable(schema, [], hints) {
        return None;
      }
      var created := new FormModel(parsers, schema, given, hints, format);
      return Some(created);
    }

    function View(): Form
      reads this
    {
      Form(parameters, fields)
    }

    ghost predicate Valid()
      reads this
    {
      && NamesUnique(schema) && UniqueMembers(given)
      && CreateForm(schema, given, hints, format).Some?
      && View() == EditAll(parsers, CreateForm(schema, given, hints, format).value, edits)
    }

    method TrySetValue(path: string, text: string) returns (ok: bool)
      requires Valid()
      modifies this`parameters, this`fields, this`edits
      ensures Valid() && edits == old(edits) + [TextEdit(path, text)]
      ensures ok == EditedValue(parsers, old(View()), path, text).Some?
      ensures View() == Edit(parsers, old(View()), path, text) && Lens(View())
      ensures ok ==> Holds(parsers, View(), path, text)
      ensures !ok ==> View() == old(View()) && Refuses(parsers, View(), path, text)
    {
      ghost var created := CreateForm(schema, given, hints, format).value;
      CreateIsLens(schema, given, hints, format);
      EditsKeepReadOnly(parsers, created, edits);
      EditAllAppends(parsers, created, edits, TextEdit(path, text));
      EditHolds(parsers, View(), path, text);
      edits := edits + [TextEdit(path, text)];
      ok := SetValue(path, text);
    }

    // The search and the update in place.
    method SetValue(path: string, text: string) returns (ok: bool)
      requires Lens(View())
      modifies this`parameters, this`fields
      ensures ok == EditedValue(parsers, old(View()), path, text).Some?
      ensures View() == Edit(parsers, old(View()), path, text) && Lens(View())
    {
      EditKeepsLens(parsers, View(), path, text);
      var index := 0;
      while index < |fields| && fields[index].path != path
        invariant 0 <= index <= |fields|
        invariant FindField(fields, path) ==
                  if FindField(fields[index..], path) == -1 then -1 else index + FindField(fields[index..], path)
      {
        index := index + 1;
      }
      if index == |fields| || fields[index].isReadOnly {
        return false;
      }
      var value := ParseText(parsers, fields[index], text);
      if value.None? {
        return false;
      }
      assert Shows(parameters, fields[index]);
      parameters := SetAtPointer(parameters, Parse(path).value, value.value);
      fields := fields[index := fields[index].(value := value.value)];
      return true;
    }

    // What is handed back holds what every field shows, and, whatever was edited, what was given at every
    // read-only field and for every member the schema does not describe.
    method BuildParameters() returns (copy: Members)
      requires Valid()
      ensures Form(copy, fields) == EditAll(parsers, CreateForm(schema, given, hints, format).value, edits)
      ensures forall i :: 0 <= i < |fields| ==> Shows(copy, fields[i])
      ensures forall i :: 0 <= i < |fields| && fields[i].isReadOnly ==> Shows(given, fields[i])
      ensures forall q :: Undeclared(schema, q) && Present(given, q) ==>
                Get(JObject(copy), q) == Get(JObject(given), q)
    {
      ghost var created := CreateForm(schema, given, hints, format).value;
      CreateIsLens(schema, given, hints, format);
      EditsKeepReadOnly(parsers, created, edits);
      UndeclaredSurvives(parsers, schema, given, hints, format, edits);
      assert forall i :: 0 <= i < |fields| && fields[i].isReadOnly ==> fields[i] == created.fields[i];
      copy := [];
      var i := 0;
      while i < |parameters|
        invariant 0 <= i <= |parameters| && copy == parameters[..i]
      {
        copy := copy + [parameters[i]];
        i := i + 1;
      }
      assert copy == parameters;
    }
  }
}
