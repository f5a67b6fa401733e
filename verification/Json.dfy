/** JSON values, their size and depth, and the limits one projection is held to. */
module Json {
  import opened Prelude

  /** Text is the sequence of its UTF-8 code units, so its length is the byte length of the source. */

  /** An object keeps its members in the order its map would visit them. */
  datatype Json =
    | Null
    | Bool(b: bool)
    | Number(literal: Text)
    | Str(text: Text)
    | Arr(items: seq<Json>)
    | Obj(members: seq<Member>)

  datatype Member = Member(name: Text, value: Json)

  datatype Limits = Limits(
    maxInputBytes: nat,
    maxDepth: nat,
    maxNodes: nat,
    maxArrayItems: nat,
    maxStringBytes: nat,
    maxOutputBytes: nat)

  /** The number of JSON nodes of a value, itself included. */
  function NodeCount(v: Json): (n: nat)
    ensures 1 <= n
    decreases v, 1
  {
    match v
    case Arr(items) => 1 + ItemNodes(items)
    case Obj(members) => 1 + MemberNodes(members)
    case _ => 1
  }

  function ItemNodes(items: seq<Json>): nat
    decreases items, 0
  {
    if items == [] then 0 else NodeCount(items[0]) + ItemNodes(items[1..])
  }

  function MemberNodes(members: seq<Member>): nat
    decreases members, 0
  {
    if members == [] then 0 else NodeCount(members[0].value) + MemberNodes(members[1..])
  }

  /**
   * A value whose root sits at `depth` keeps every limit: no node is deeper than the depth limit, and arrays,
   * strings and member names are within their lengths.
   */
  predicate Fits(limits: Limits, v: Json, depth: nat)
    decreases v, 1
  {
    && depth <= limits.maxDepth
    && match v
       case Str(text) => |text| <= limits.maxStringBytes
       case Arr(items) => |items| <= limits.maxArrayItems && ItemsFit(limits, items, depth + 1)
       case Obj(members) => MembersFit(limits, members, depth + 1)
       case _ => true
  }

  predicate ItemsFit(limits: Limits, items: seq<Json>, depth: nat)
    decreases items, 0
  {
    items != [] ==> Fits(limits, items[0], depth) && ItemsFit(limits, items[1..], depth)
  }

  predicate MembersFit(limits: Limits, members: seq<Member>, depth: nat)
    decreases members, 0
  {
    members != [] ==>
      && |members[0].name| <= limits.maxStringBytes
      && Fits(limits, members[0].value, depth)
      && MembersFit(limits, members[1..], depth)
  }

  /** Looks a member up by name. */
  function Find(members: seq<Member>, name: Text): (r: Option<Json>)
    ensures r.Some? ==> exists i :: 0 <= i < |members| && members[i] == Member(name, r.value)
    ensures r.None? <==> forall i :: 0 <= i < |members| ==> members[i].name != name
  {
    if members == [] then None
    else if members[0].name == name then Some(members[0].value)
    else
      var rest := Find(members[1..], name);
      assert rest.Some? ==> forall i :: 0 <= i < |members[1..]| ==> members[1..][i] == members[i + 1];
      assert rest.None? ==> forall i :: 1 <= i < |members| ==> members[i] == members[1..][i - 1];
      rest
  }
}
