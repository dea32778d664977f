/** JSON values.  Object members keep their document order, and a parsed text may repeat a name. */
module JsonValues {
  import opened Wrappers

  datatype Member = Member(name: string, value: Json)

  datatype Json =
    | JNull
    | JBool(flag: bool)
    | JInteger(whole: int)
    | JDecimal(number: real)
    | JString(text: string)
    | JArray(items: seq<Json>)
    | JObject(members: seq<Member>)

  // The value of the first member of that name.
  function Lookup(members: seq<Member>, name: string): Option<Json> {
    if members == [] then None
    else if members[0].name == name then Some(members[0].value)
    else Lookup(members[1..], name)
  }

  // Every object inside e, at any depth, has pairwise different member names.
  ghost predicate NamesUnique(e: Json)
    decreases e
  {
    match e
    case JObject(members) =>
      && (forall i, j :: 0 <= i < j < |members| ==> members[i].name != members[j].name)
      && (forall i :: 0 <= i < |members| ==> NamesUnique(members[i].value))
    case JArray(items) =>
      forall i :: 0 <= i < |items| ==> NamesUnique(items[i])
    case _ => true
  }

  // Container nesting: scalars have depth 0.
  function Depth(e: Json): nat
    decreases e, 0
  {
    match e
    case JArray(items) => 1 + ItemsDepth(items)
    case JObject(members) => 1 + MembersDepth(members)
    case _ => 0
  }

  function ItemsDepth(items: seq<Json>): nat
    decreases items, 1
  {
    if items == [] then 0
    else
      var d, rest := Depth(items[0]), ItemsDepth(items[1..]);
      if d > rest then d else rest
  }

  function MembersDepth(members: seq<Member>): nat
    decreases members, 1
  {
    if members == [] then 0
    else
      var d, rest := Depth(members[0].value), MembersDepth(members[1..]);
      if d > rest then d else rest
  }
}
