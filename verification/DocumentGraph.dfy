/** Submitted documents as the JavaScript values they are: possibly shared, possibly cyclic containers. */
module DocumentGraph {
  import opened Wrappers
  import opened Diagnostics

  /** `Alien` stands for values JSON does not have, such as functions or infinities. */
  datatype Value = Null | Bool(b: bool) | Num(n: real) | Str(s: string) | Alien | Ref(id: nat)

  /** `keys` is the order in which the checker visits the fields of a record. */
  datatype Node = List(items: seq<Value>) | Record(keys: seq<string>, fields: map<string, Value>)

  type Heap = map<nat, Node>

  /** A finite JSON value without identity. */
  datatype Json =
    | JNull | JBool(b: bool) | JNum(n: real) | JStr(s: string)
    | JArr(items: seq<Json>) | JObj(fields: map<string, Json>)

  ghost predicate Distinct<T(!new)>(items: seq<T>) {
    forall i, j | 0 <= i < j < |items| :: items[i] != items[j]
  }

  ghost predicate Present(heap: Heap, v: Value) {
    v.Ref? ==> v.id in heap
  }

  ghost predicate WellFormed(heap: Heap, node: Node) {
    match node
    case List(items) => forall v <- items :: Present(heap, v)
    case Record(keys, fields) =>
      Distinct(keys) && (forall key :: key in keys <==> key in fields)
        && forall key <- fields :: Present(heap, fields[key])
  }

  ghost predicate Closed(heap: Heap) {
    forall id <- heap :: WellFormed(heap, heap[id])
  }

  predicate IsList(heap: Heap, v: Value) {
    v.Ref? && v.id in heap && heap[v.id].List?
  }

  predicate IsRecord(heap: Heap, v: Value) {
    v.Ref? && v.id in heap && heap[v.id].Record?
  }

  /** The JSON value `v` stands for, if it holds no cycle, no alien value, and at most `depth` nested containers. */
  function Unfold(heap: Heap, v: Value, depth: nat): Option<Json>
    decreases depth, 1
  {
    match v
    case Null => Some(JNull)
    case Bool(b) => Some(JBool(b))
    case Num(n) => Some(JNum(n))
    case Str(s) => Some(JStr(s))
    case Alien => None
    case Ref(id) => if depth == 0 || id !in heap then None else UnfoldNode(heap, heap[id], depth - 1)
  }

  function UnfoldNode(heap: Heap, node: Node, depth: nat): (json: Option<Json>)
    ensures json.Some? && node.List? ==> json.value.JArr? && |json.value.items| == |node.items|
    ensures json.Some? && node.List? ==>
              forall i | 0 <= i < |node.items| :: Unfold(heap, node.items[i], depth) == Some(json.value.items[i])
    ensures json.Some? && node.Record? ==> json.value.JObj? && json.value.fields.Keys == node.fields.Keys
    ensures json.Some? && node.Record? ==>
              forall key <- node.fields :: Unfold(heap, node.fields[key], depth) == Some(json.value.fields[key])
    decreases depth, 2
  {
    match node
    case List(items) =>
      if forall v <- items :: Unfold(heap, v, depth).Some?
      then Some(JArr(seq(|items|, i requires 0 <= i < |items| => Unfold(heap, items[i], depth).value))) else None
    case Record(_, fields) =>
      if forall key <- fields :: Unfold(heap, fields[key], depth).Some?
      then Some(JObj(map key | key in fields :: Unfold(heap, fields[key], depth).value)) else None
  }

  lemma {:induction false} UnfoldDeeper(heap: Heap, v: Value, depth: nat, deeper: nat)
    requires depth <= deeper && Unfold(heap, v, depth).Some?
    ensures Unfold(heap, v, deeper) == Unfold(heap, v, depth)
    decreases depth
  {
    if v.Ref? {
      match heap[v.id]
      case List(items) =>
        forall item <- items ensures Unfold(heap, item, deeper - 1) == Unfold(heap, item, depth - 1) {
          UnfoldDeeper(heap, item, depth - 1, deeper - 1);
        }
        var less, more := UnfoldNode(heap, heap[v.id], depth - 1), UnfoldNode(heap, heap[v.id], deeper - 1);
        forall i | 0 <= i < |items| ensures less.value.items[i] == more.value.items[i] {
          assert items[i] in items;
        }
        assert less.value.items == more.value.items;
      case Record(_, fields) =>
        forall key <- fields ensures Unfold(heap, fields[key], deeper - 1) == Unfold(heap, fields[key], depth - 1) {
          UnfoldDeeper(heap, fields[key], depth - 1, deeper - 1);
        }
        var less, more := UnfoldNode(heap, heap[v.id], depth - 1), UnfoldNode(heap, heap[v.id], deeper - 1);
        assert less.value.fields == more.value.fields;
    }
  }

  /** Follows a path from a value; `None` when it leads nowhere. */
  function Lookup(heap: Heap, v: Value, path: FieldPath): Option<Value>
    decreases |path|
  {
    if path == [] then Some(v)
    else
      match Lookup(heap, v, path[..|path| - 1])
      case None => None
      case Some(parent) => Child(heap, parent, path[|path| - 1])
  }

  function Child(heap: Heap, parent: Value, part: PathPart): Option<Value> {
    if IsList(heap, parent) && part.Index? && part.index < |heap[parent.id].items|
    then Some(heap[parent.id].items[part.index])
    else if IsRecord(heap, parent) && part.Key? && part.name in heap[parent.id].fields
    then Some(heap[parent.id].fields[part.name])
    else None
  }

  lemma LookupChild(heap: Heap, root: Value, path: FieldPath, part: PathPart)
    ensures Lookup(heap, root, path).Some? ==>
              Lookup(heap, root, path + [part]) == Child(heap, Lookup(heap, root, path).value, part)
  {
    assert (path + [part])[..|path|] == path;
  }
}
