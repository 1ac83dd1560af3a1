/**
 * The parsed input document: an order-preserving YAML mapping, as `yaml.MapSlice` gives it,
 * and the typed-coercion helpers the generator uses on its nodes.
 */
module Yaml {
  import opened Wrappers

  /** One parsed YAML value. Nested mappings keep their key order. */
  datatype Node =
    | Null
    | Str(s: string)
    | Int(i: int)
    | Bool(b: bool)
    | List(items: seq<Node>)
    | Mapping(entries: seq<Item>)

  /** One entry of an ordered mapping; a `None` key is a nil key (an entry already consumed). */
  datatype Item = Item(key: Option<string>, value: Node)

  /** The empty entry that replaces a consumed one. */
  const Consumed: Item := Item(None, Null)

  /** Every fatal condition of the generator. */
  datatype Error =
    | NotAString
    | NotAnInt
    | NotABool
    | NotAList
    | NotAMapping
    | UnknownEntry(key: string)
    | MalformedEnvVar(entry: string)
    | MalformedServiceAccount(path: string)
    | MissingSection(name: string)
    | IndexOutOfRange

  type Res<T> = Result<T, Error>

  // The coercion helpers are strict type assertions: any other shape is fatal.

  function GetString(n: Node): Res<string> {
    if n.Str? then Ok(n.s) else Err(NotAString)
  }

  /** `getString` applied to a mapping key. */
  function GetKeyString(k: Option<string>): Res<string> {
    if k.Some? then Ok(k.value) else Err(NotAString)
  }

  function GetInt(n: Node): Res<int> {
    if n.Int? then Ok(n.i) else Err(NotAnInt)
  }

  function GetBool(n: Node): Res<bool> {
    if n.Bool? then Ok(n.b) else Err(NotABool)
  }

  function GetInterfaceArray(n: Node): Res<seq<Node>> {
    if n.List? then Ok(n.items) else Err(NotAList)
  }

  function GetMapSlice(n: Node): Res<seq<Item>> {
    if n.Mapping? then Ok(n.entries) else Err(NotAMapping)
  }

  /** The strings of a list of nodes, failing on the first node that is not a string. */
  function StringsOf(nodes: seq<Node>): (r: Res<seq<string>>)
    ensures r.Ok? <==> forall i :: 0 <= i < |nodes| ==> nodes[i].Str?
    ensures r.Ok? ==> |r.value| == |nodes| && forall i :: 0 <= i < |nodes| ==> r.value[i] == nodes[i].s
  {
    if nodes == [] then Ok([])
    else
      var head :- GetString(nodes[0]);
      var tail :- StringsOf(nodes[1..]);
      Ok([head] + tail)
  }

  function GetStringArray(n: Node): Res<seq<string>> {
    var nodes :- GetInterfaceArray(n);
    StringsOf(nodes)
  }
}
