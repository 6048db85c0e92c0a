/** The preview as a JSON value, and how its changes are undone. */
module Undo {
  import opened Wrappers
  import opened Diagnostics
  import opened DocumentGraph
  import opened Preview
  import opened Omission

  /** `json`, which lies at `path` of a document, without the fields at the removed paths. */
  ghost function Pruned(json: Json, path: FieldPath, gone: set<FieldPath>): Json {
    match json
    case JArr(items) => JArr(seq(|items|, i requires 0 <= i < |items| => Pruned(items[i], path + [Index(i)], gone)))
    case JObj(fields) =>
      JObj(map key | key in fields && path + [Key(key)] !in gone :: Pruned(fields[key], path + [Key(key)], gone))
    case _ => json
  }

  /** Follows a path inside a JSON value. */
  ghost function Inside(json: Json, path: FieldPath): Option<Json> {
    if path == [] then Some(json)
    else if json.JArr? && path[0].Index? && path[0].index < |json.items|
      then Inside(json.items[path[0].index], path[1..])
    else if json.JObj? && path[0].Key? && path[0].name in json.fields then Inside(json.fields[path[0].name], path[1..])
    else None
  }

  /** Defines the field at `path` as `value`. */
  ghost function Restore(json: Json, path: FieldPath, value: Json): Json {
    if path == [] then value
    else if json.JArr? && path[0].Index? && path[0].index < |json.items| then
      JArr(json.items[path[0].index := Restore(json.items[path[0].index], path[1..], value)])
    else if json.JObj? && path[0].Key? && |path| == 1 then JObj(json.fields[path[0].name := value])
    else if json.JObj? && path[0].Key? && path[0].name in json.fields then
      JObj(json.fields[path[0].name := Restore(json.fields[path[0].name], path[1..], value)])
    else json
  }

  /** Undoes removals one by one, with the values the fields had before. */
  ghost function Undone(json: Json, changes: seq<FieldPath>, before: FieldPath -> Json): Json
    decreases |changes|
  {
    if changes == [] then json else Undone(Restore(json, changes[0], before(changes[0])), changes[1..], before)
  }

  // ------------------------------------------------------------ the preview is the pruned document

  lemma {:induction false} PreviewIsPruned(heap: Heap, nodes: Heap, tr: Trace, gone: set<FieldPath>, v: Value,
                                           v': Value, path: FieldPath, depth: nat)
    requires IsPreview(heap, nodes, tr, gone) && Like(tr, v, v', path) && Unfold(heap, v, depth).Some?
    ensures Unfold(nodes, v', depth) == Some(Pruned(Unfold(heap, v, depth).value, path, gone))
    decreases depth
  {
    hide Unfold, UnfoldNode, IsPreview, Pruned, Trimmed;
    if v.Ref? {
      CopyOf(heap, nodes, tr, gone, v, v', path);
      UnfoldContainer(heap, v, depth);
      UnfoldContainer(nodes, v', depth);
      match heap[v.id]
      case List(items) =>
        ItemsAreTrimmed(heap, nodes, tr, gone, v'.id);
        forall i | 0 <= i < |items|
          ensures Unfold(nodes, nodes[v'.id].items[i], depth - 1)
               == Some(Pruned(Unfold(heap, items[i], depth - 1).value, path + [Index(i)], gone))
        {
          PreviewIsPruned(heap, nodes, tr, gone, items[i], nodes[v'.id].items[i], path + [Index(i)], depth - 1);
        }
        PrunedItems(heap, nodes, heap[v.id], nodes[v'.id], path, gone, depth - 1);
      case Record(keys, fields) =>
        FieldsAreTrimmed(heap, nodes, tr, gone, v'.id);
        forall key <- nodes[v'.id].fields
          ensures Unfold(nodes, nodes[v'.id].fields[key], depth - 1)
               == Some(Pruned(Unfold(heap, fields[key], depth - 1).value, path + [Key(key)], gone))
        {
          PreviewIsPruned(heap, nodes, tr, gone, fields[key], nodes[v'.id].fields[key], path + [Key(key)], depth - 1);
        }
        PrunedFields(heap, nodes, heap[v.id], nodes[v'.id], path, gone, depth - 1);
    } else {
      ScalarIsItself(heap, nodes, v, path, gone, depth);
    }
  }

  lemma CopyOf(heap: Heap, nodes: Heap, tr: Trace, gone: set<FieldPath>, v: Value, v': Value, path: FieldPath)
    requires IsPreview(heap, nodes, tr, gone) && Like(tr, v, v', path) && v.Ref?
    ensures v.id in heap && v'.id in nodes && tr[v'.id].place == path && Trimmed(heap, nodes, tr, gone, v'.id)
  {
    assert Trimmed(heap, nodes, tr, gone, v'.id);
  }

  lemma ItemsAreTrimmed(heap: Heap, nodes: Heap, tr: Trace, gone: set<FieldPath>, c: nat)
    requires Trimmed(heap, nodes, tr, gone, c) && heap[tr[c].source].List?
    ensures nodes[c].List? && |nodes[c].items| == |heap[tr[c].source].items|
    ensures forall i | 0 <= i < |nodes[c].items| ::
              Like(tr, heap[tr[c].source].items[i], nodes[c].items[i], tr[c].place + [Index(i)])
  {
  }

  lemma FieldsAreTrimmed(heap: Heap, nodes: Heap, tr: Trace, gone: set<FieldPath>, c: nat)
    requires Trimmed(heap, nodes, tr, gone, c) && heap[tr[c].source].Record?
    ensures nodes[c].Record?
    ensures forall key ::
              key in nodes[c].fields <==> key in heap[tr[c].source].fields && tr[c].place + [Key(key)] !in gone
    ensures forall key <- nodes[c].fields ::
              Like(tr, heap[tr[c].source].fields[key], nodes[c].fields[key], tr[c].place + [Key(key)])
  {
  }

  /** A container that unfolds does so through its entries. */
  lemma UnfoldContainer(heap: Heap, v: Value, depth: nat)
    requires v.Ref? && v.id in heap
    ensures Unfold(heap, v, depth) == if depth == 0 then None else UnfoldNode(heap, heap[v.id], depth - 1)
  {
  }

  lemma ScalarIsItself(heap: Heap, nodes: Heap, v: Value, path: FieldPath, gone: set<FieldPath>, depth: nat)
    requires !v.Ref? && Unfold(heap, v, depth).Some?
    ensures Unfold(nodes, v, depth) == Some(Pruned(Unfold(heap, v, depth).value, path, gone))
  {
  }

  lemma PrunedItems(heap: Heap, nodes: Heap, node: Node, node': Node, path: FieldPath, gone: set<FieldPath>, depth: nat)
    requires node.List? && node'.List? && |node'.items| == |node.items| && UnfoldNode(heap, node, depth).Some?
    requires forall i | 0 <= i < |node.items| ::
      Unfold(nodes, node'.items[i], depth)
          == Some(Pruned(Unfold(heap, node.items[i], depth).value, path + [Index(i)], gone))
    ensures UnfoldNode(nodes, node', depth) == Some(Pruned(UnfoldNode(heap, node, depth).value, path, gone))
  {
    hide Unfold;
    forall v <- node'.items ensures Unfold(nodes, v, depth).Some? {
      var i :| 0 <= i < |node'.items| && node'.items[i] == v;
    }
    var one, two := UnfoldNode(heap, node, depth).value, UnfoldNode(nodes, node', depth).value;
    assert two.items == Pruned(one, path, gone).items;
  }

  lemma PrunedFields(heap: Heap, nodes: Heap, node: Node, node': Node, path: FieldPath, gone: set<FieldPath>,
                     depth: nat)
    requires node.Record? && node'.Record? && UnfoldNode(heap, node, depth).Some?
    requires forall key :: key in node'.fields <==> key in node.fields && path + [Key(key)] !in gone
    requires forall key <- node'.fields ::
      Unfold(nodes, node'.fields[key], depth)
          == Some(Pruned(Unfold(heap, node.fields[key], depth).value, path + [Key(key)], gone))
    ensures UnfoldNode(nodes, node', depth) == Some(Pruned(UnfoldNode(heap, node, depth).value, path, gone))
  {
    hide Unfold;
    var one, two := UnfoldNode(heap, node, depth).value, UnfoldNode(nodes, node', depth).value;
    assert two.fields == Pruned(one, path, gone).fields;
  }

  // ------------------------------------------------------------ putting a field back

  lemma {:induction false} PrunedElsewhere(json: Json, path: FieldPath, gone: set<FieldPath>, other: FieldPath)
    requires !Encloses(path, other)
    ensures Pruned(json, path, gone + {other}) == Pruned(json, path, gone)
  {
    match json
    case JArr(items) =>
      forall i | 0 <= i < |items|
        ensures Pruned(items[i], path + [Index(i)], gone + {other}) == Pruned(items[i], path + [Index(i)], gone)
      {
        StillElsewhere(path, Index(i), other);
        PrunedElsewhere(items[i], path + [Index(i)], gone, other);
      }
      assert Pruned(json, path, gone + {other}).items == Pruned(json, path, gone).items;
    case JObj(fields) =>
      forall key <- fields
        ensures Pruned(fields[key], path + [Key(key)], gone + {other}) == Pruned(fields[key], path + [Key(key)], gone)
             && path + [Key(key)] != other
      {
        StillElsewhere(path, Key(key), other);
        PrunedElsewhere(fields[key], path + [Key(key)], gone, other);
      }
      assert Pruned(json, path, gone + {other}).fields == Pruned(json, path, gone).fields;
    case _ =>
  }

  lemma StillElsewhere(path: FieldPath, part: PathPart, other: FieldPath)
    requires !Encloses(path, other)
    ensures !Encloses(path + [part], other) && path + [part] != other
  {
    assert (path + [part])[..|path|] == path;
    if |path| < |other| { assert other[..|path| + 1][..|path|] == other[..|path|]; }
  }

  lemma {:induction false} PrunedOfNothing(json: Json, path: FieldPath, gone: set<FieldPath>)
    requires forall other <- gone :: !Encloses(path, other)
    ensures Pruned(json, path, gone) == json
  {
    match json
    case JArr(items) =>
      forall i | 0 <= i < |items| ensures Pruned(items[i], path + [Index(i)], gone) == items[i] {
        forall other <- gone ensures !Encloses(path + [Index(i)], other) { StillElsewhere(path, Index(i), other); }
        PrunedOfNothing(items[i], path + [Index(i)], gone);
      }
      assert Pruned(json, path, gone).items == items;
    case JObj(fields) =>
      forall key <- fields
        ensures path + [Key(key)] !in gone && Pruned(fields[key], path + [Key(key)], gone) == fields[key] {
        forall other <- gone ensures !Encloses(path + [Key(key)], other) && path + [Key(key)] != other {
          StillElsewhere(path, Key(key), other);
        }
        PrunedOfNothing(fields[key], path + [Key(key)], gone);
      }
      assert Pruned(json, path, gone).fields == fields;
    case _ =>
  }

  /** The removed field at `path + rest`, which no other removal touches. */
  ghost predicate Alone(path: FieldPath, rest: FieldPath, gone: set<FieldPath>) {
    && path + rest !in gone
    && (forall other <- gone :: !Encloses(other, path + rest) && !Encloses(path + rest, other))
  }

  lemma {:induction false} RestoreOne(json: Json, path: FieldPath, rest: FieldPath, gone: set<FieldPath>)
    requires rest != [] && rest[|rest| - 1].Key? && Inside(json, rest).Some? && Alone(path, rest, gone)
    ensures Restore(Pruned(json, path, gone + {path + rest}), rest, Inside(json, rest).value)
              == Pruned(json, path, gone)
    decreases |rest|
  {
    var part := rest[0];
    assert path + rest == path + [part] + rest[1..];
    if |rest| == 1 {
      assert rest == [part];
      RestoreField(json, path, part.name, gone);
    } else {
      RestoreOne(if json.JArr? then json.items[part.index] else json.fields[part.name], path + [part], rest[1..], gone);
      if json.JArr? {
        RestoreInList(json, path, rest, gone);
      } else {
        RestoreInRecord(json, path, rest, gone);
      }
    }
  }

  lemma RestoreField(json: Json, path: FieldPath, name: string, gone: set<FieldPath>)
    requires json.JObj? && name in json.fields && Alone(path, [Key(name)], gone)
    ensures Restore(Pruned(json, path, gone + {path + [Key(name)]}), [Key(name)], json.fields[name])
              == Pruned(json, path, gone)
  {
    var fields, own := json.fields, path + [Key(name)];
    PrunedOfNothing(fields[name], own, gone);
    forall key <- fields | key != name
      ensures Pruned(fields[key], path + [Key(key)], gone + {own}) == Pruned(fields[key], path + [Key(key)], gone)
           && path + [Key(key)] != own
    {
      DifferentParts(path, Key(key), Key(name), []);
      PrunedElsewhere(fields[key], path + [Key(key)], gone, own);
    }
    var pruned := Pruned(json, path, gone + {own});
    assert pruned.fields[name := fields[name]] == Pruned(json, path, gone).fields;
  }

  lemma DifferentParts(path: FieldPath, part: PathPart, other: PathPart, rest: FieldPath)
    requires part != other
    ensures !Encloses(path + [part], path + [other] + rest) && path + [part] != path + [other] + rest
  {
    assert (path + [part])[|path|] == part && (path + [other] + rest)[|path|] == other;
  }

  lemma RestoreInList(json: Json, path: FieldPath, rest: FieldPath, gone: set<FieldPath>)
    requires json.JArr? && |rest| > 1 && rest[0].Index? && rest[0].index < |json.items| && Inside(json, rest).Some?
    requires Restore(Pruned(json.items[rest[0].index], path + [rest[0]], gone + {path + rest}), rest[1..],
                     Inside(json, rest).value)
          == Pruned(json.items[rest[0].index], path + [rest[0]], gone)
    ensures Restore(Pruned(json, path, gone + {path + rest}), rest, Inside(json, rest).value)
              == Pruned(json, path, gone)
  {
    var items := json.items;
    assert path + rest == path + [rest[0]] + rest[1..];
    forall i | 0 <= i < |items| && i != rest[0].index
      ensures Pruned(items[i], path + [Index(i)], gone + {path + rest}) == Pruned(items[i], path + [Index(i)], gone)
    {
      DifferentParts(path, Index(i), rest[0], rest[1..]);
      PrunedElsewhere(items[i], path + [Index(i)], gone, path + rest);
    }
    assert Restore(Pruned(json, path, gone + {path + rest}), rest, Inside(json, rest).value).items
             == Pruned(json, path, gone).items;
  }

  lemma RestoreInRecord(json: Json, path: FieldPath, rest: FieldPath, gone: set<FieldPath>)
    requires json.JObj? && |rest| > 1 && rest[0].Key? && rest[0].name in json.fields && Inside(json, rest).Some?
    requires Alone(path, rest, gone)
    requires Restore(Pruned(json.fields[rest[0].name], path + [rest[0]], gone + {path + rest}), rest[1..],
                     Inside(json, rest).value)
          == Pruned(json.fields[rest[0].name], path + [rest[0]], gone)
    ensures Restore(Pruned(json, path, gone + {path + rest}), rest, Inside(json, rest).value)
              == Pruned(json, path, gone)
  {
    hide Restore, Pruned, Inside;
    var fields, name, all := json.fields, rest[0].name, path + rest;
    assert all == path + [rest[0]] + rest[1..];
    assert Encloses(path + [rest[0]], all);
    assert path + [rest[0]] !in gone;
    forall key <- fields | key != name
      ensures Pruned(fields[key], path + [Key(key)], gone + {all}) == Pruned(fields[key], path + [Key(key)], gone)
           && path + [Key(key)] != all
    {
      DifferentParts(path, Key(key), rest[0], rest[1..]);
      PrunedElsewhere(fields[key], path + [Key(key)], gone, all);
    }
    PrunedRecord(json, path, gone);
    PrunedRecord(json, path, gone + {all});
    RestoreStep(Pruned(json, path, gone + {all}), rest, Inside(json, rest).value);
    assert Restore(Pruned(json, path, gone + {all}), rest, Inside(json, rest).value).fields
             == Pruned(json, path, gone).fields;
  }

  lemma PrunedRecord(json: Json, path: FieldPath, gone: set<FieldPath>)
    requires json.JObj?
    ensures Pruned(json, path, gone).JObj?
    ensures forall key :: key in Pruned(json, path, gone).fields <==> key in json.fields && path + [Key(key)] !in gone
    ensures forall key <- Pruned(json, path, gone).fields ::
      Pruned(json, path, gone).fields[key] == Pruned(json.fields[key], path + [Key(key)], gone)
  {
  }

  lemma RestoreStep(json: Json, path: FieldPath, value: Json)
    requires json.JObj? && |path| > 1 && path[0].Key? && path[0].name in json.fields
    ensures Restore(json, path, value)
              == JObj(json.fields[path[0].name := Restore(json.fields[path[0].name], path[1..], value)])
  {
  }

  /** Removals that exist in `json`, and of which none lies inside another. */
  ghost predicate Independent(json: Json, changes: seq<FieldPath>) {
    && (forall path: FieldPath | path in changes :: path != [] && path[|path| - 1].Key? && Inside(json, path).Some?)
    && (forall i, j | 0 <= i < j < |changes| ::
          changes[i] != changes[j] && !Encloses(changes[i], changes[j]) && !Encloses(changes[j], changes[i]))
  }

  /** Undoing the removals with the values removed gives the document back. */
  lemma {:induction false} UndoRestores(json: Json, changes: seq<FieldPath>, before: FieldPath -> Json)
    requires Independent(json, changes)
    requires forall path <- changes :: Inside(json, path) == Some(before(path))
    ensures Undone(Pruned(json, [], PathsOf(changes)), changes, before) == json
  {
    hide Pruned, Restore, Inside, Encloses;
    if changes == [] {
      assert PathsOf(changes) == {};
      PrunedOfNothing(json, [], {});
    } else {
      var first, rest := changes[0], changes[1..];
      assert forall i | 0 <= i < |rest| :: rest[i] == changes[i + 1];
      assert PathsOf(changes) == PathsOf(rest) + {first};
      assert [] + first == first;
      FirstIsAlone(changes);
      RestoreOne(json, [], first, PathsOf(rest));
      UndoRestores(json, rest, before);
    }
  }

  lemma FirstIsAlone(changes: seq<FieldPath>)
    requires changes != []
    requires forall i, j | 0 <= i < j < |changes| ::
               changes[i] != changes[j] && !Encloses(changes[i], changes[j]) && !Encloses(changes[j], changes[i])
    ensures Alone([], changes[0], PathsOf(changes[1..]))
  {
    var first, rest := changes[0], changes[1..];
    assert [] + first == first;
    forall other <- PathsOf(rest) ensures first != other && !Encloses(other, first) && !Encloses(first, other) {
      var i :| 0 <= i < |rest| && rest[i] == other;
      assert changes[i + 1] == other;
    }
  }
}
