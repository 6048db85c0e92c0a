/** Removing the proposed fields from the clone, and what the finished preview then looks like. */
module Omission {
  import opened Wrappers
  import opened Diagnostics
  import opened DocumentGraph
  import opened Preview

  /** The keys a record at `path` keeps when the fields at the paths in `gone` are removed. */
  ghost function Remaining(keys: seq<string>, path: FieldPath, gone: set<FieldPath>): (kept: seq<string>)
    ensures forall key :: key in kept <==> key in keys && path + [Key(key)] !in gone
  {
    if keys == [] then []
    else (if path + [Key(keys[0])] in gone then [] else [keys[0]]) + Remaining(keys[1..], path, gone)
  }

  function Without(keys: seq<string>, key: string): (kept: seq<string>)
    ensures forall k :: k in kept <==> k in keys && k != key
  {
    if keys == [] then [] else (if keys[0] == key then [] else [keys[0]]) + Without(keys[1..], key)
  }

  /** The copy `c` holds the entries of its original, in order, except the removed ones. */
  ghost predicate Trimmed(heap: Heap, nodes: Heap, tr: Trace, gone: set<FieldPath>, c: nat) {
    && c in tr && c in nodes && tr[c].source in heap
    && match heap[tr[c].source]
       case List(items) =>
         nodes[c].List? && |nodes[c].items| == |items|
         && (forall i | 0 <= i < |items| :: Like(tr, items[i], nodes[c].items[i], tr[c].place + [Index(i)]))
       case Record(keys, fields) =>
         nodes[c].Record? && nodes[c].keys == Remaining(keys, tr[c].place, gone)
         && (forall key :: key in nodes[c].fields <==> key in fields && tr[c].place + [Key(key)] !in gone)
         && (forall key <- nodes[c].fields :: Like(tr, fields[key], nodes[c].fields[key], tr[c].place + [Key(key)]))
  }

  ghost predicate IsPreview(heap: Heap, nodes: Heap, tr: Trace, gone: set<FieldPath>) {
    && nodes.Keys == tr.Keys
    && Separated(tr)
    && (forall c <- nodes :: Trimmed(heap, nodes, tr, gone, c))
  }

  ghost predicate IsRoot(nodes: Heap, tr: Trace, root: nat) {
    0 in nodes && 0 in tr && tr[0].source == root && tr[0].place == []
  }

  // ------------------------------------------------------------ the clone is the preview without changes

  lemma {:induction false} NothingRemoved(keys: seq<string>, path: FieldPath)
    ensures Remaining(keys, path, {}) == keys
  {
    if keys != [] { NothingRemoved(keys[1..], path); }
  }

  lemma CopiedIsTrimmed(heap: Heap, nodes: Heap, tr: Trace, c: nat)
    requires Closed(heap) && IsCopied(heap, nodes, tr, c)
    ensures Trimmed(heap, nodes, tr, {}, c)
  {
    var original, copy := heap[tr[c].source], nodes[c];
    assert WellFormed(heap, original);
    match original
    case List(items) =>
      forall i | 0 <= i < |items| ensures Like(tr, items[i], copy.items[i], tr[c].place + [Index(i)]) {
        assert PartAt(original, i) == Index(i) && ValueAt(original, i) == items[i] && ValueAt(copy, i) == copy.items[i];
      }
    case Record(keys, fields) =>
      NothingRemoved(keys, tr[c].place);
      forall i | 0 <= i < |keys|
        ensures copy.keys[i] == keys[i] && Like(tr, fields[keys[i]], copy.fields[keys[i]], tr[c].place + [Key(keys[i])])
      {
        assert PartAt(copy, i) == PartAt(original, i);
        assert keys[i] in keys && copy.keys[i] in copy.keys;
        assert ValueAt(original, i) == fields[keys[i]] && ValueAt(copy, i) == copy.fields[keys[i]];
      }
      assert copy.keys == keys;
  }

  lemma CloneIsPreview(heap: Heap, nodes: Heap, tr: Trace)
    requires Closed(heap) && FullCopy(heap, nodes, tr)
    ensures IsPreview(heap, nodes, tr, {})
  {
    hide IsCopied, Separated, Trimmed;
    forall c <- nodes ensures Trimmed(heap, nodes, tr, {}, c) {
      CopiedIsTrimmed(heap, nodes, tr, c);
    }
  }

  // ------------------------------------------------------------ removing one field

  ghost predicate Encloses(path: FieldPath, other: FieldPath) {
    |path| < |other| && other[..|path|] == path
  }

  /** A removable field: it exists in the document, in a record. */
  ghost predicate Removable(heap: Heap, root: nat, path: FieldPath) {
    && path != [] && path[|path| - 1].Key?
    && Lookup(heap, Ref(root), path).Some?
  }

  lemma LookupLast(heap: Heap, v: Value, path: FieldPath)
    requires path != [] && Lookup(heap, v, path).Some?
    ensures var parent := Lookup(heap, v, path[..|path| - 1]);
            parent.Some? && Child(heap, parent.value, path[|path| - 1]) == Lookup(heap, v, path)
  {
  }

  lemma OutsideParent(gone: set<FieldPath>, path: FieldPath)
    requires path != [] && forall p <- gone :: !Encloses(p, path)
    ensures path[..|path| - 1] !in gone && forall p <- gone :: !Encloses(p, path[..|path| - 1])
  {
    assert Encloses(path[..|path| - 1], path);
    forall p <- gone ensures !Encloses(p, path[..|path| - 1]) {
      assert |p| <= |path| - 1 ==> path[..|path| - 1][..|p|] == path[..|p|];
    }
  }

  /** Paths that pass through no removed field lead to the copy made for them. */
  lemma {:induction false} FollowIsLike(heap: Heap, nodes: Heap, tr: Trace, gone: set<FieldPath>, root: nat,
                                        path: FieldPath)
    requires IsPreview(heap, nodes, tr, gone) && IsRoot(nodes, tr, root)
    requires Lookup(heap, Ref(root), path).Some?
    requires path !in gone && forall p <- gone :: !Encloses(p, path)
    ensures Lookup(nodes, Ref(0), path).Some?
    ensures Like(tr, Lookup(heap, Ref(root), path).value, Lookup(nodes, Ref(0), path).value, path)
    decreases |path|
  {
    hide Lookup, IsPreview, Encloses, Like, IsRoot;
    if path == [] {
      RootIsLike(heap, nodes, tr, root);
    } else {
      var parent, part := path[..|path| - 1], path[|path| - 1];
      LookupLast(heap, Ref(root), path);
      assert parent + [part] == path;
      OutsideParent(gone, path);
      FollowIsLike(heap, nodes, tr, gone, root, parent);
      var from, to := Lookup(heap, Ref(root), parent).value, Lookup(nodes, Ref(0), parent).value;
      ChildIsLike(heap, nodes, tr, gone, from, to, parent, part);
      LookupChild(nodes, Ref(0), parent, part);
    }
  }

  lemma RootIsLike(heap: Heap, nodes: Heap, tr: Trace, root: nat)
    requires IsRoot(nodes, tr, root)
    ensures Lookup(heap, Ref(root), []) == Some(Ref(root)) && Lookup(nodes, Ref(0), []) == Some(Ref(0))
    ensures Like(tr, Ref(root), Ref(0), [])
  {
  }

  lemma ChildIsLike(heap: Heap, nodes: Heap, tr: Trace, gone: set<FieldPath>, from: Value, to: Value, path: FieldPath,
                    part: PathPart)
    requires IsPreview(heap, nodes, tr, gone) && Like(tr, from, to, path)
    requires Child(heap, from, part).Some? && path + [part] !in gone
    ensures Child(nodes, to, part).Some?
    ensures Like(tr, Child(heap, from, part).value, Child(nodes, to, part).value, path + [part])
  {
    hide Separated;
    assert Trimmed(heap, nodes, tr, gone, to.id);
  }

  lemma {:induction false} WithoutOne(keys: seq<string>, path: FieldPath, gone: set<FieldPath>, key: string)
    ensures Without(Remaining(keys, path, gone), key) == Remaining(keys, path, gone + {path + [Key(key)]})
  {
    if keys != [] {
      WithoutOne(keys[1..], path, gone, key);
      var rest := Remaining(keys[1..], path, gone);
      assert path + [Key(keys[0])] == path + [Key(key)] <==> keys[0] == key by {
        assert (path + [Key(keys[0])])[|path|] == Key(keys[0]) && (path + [Key(key)])[|path|] == Key(key);
      }
      if path + [Key(keys[0])] in gone {
        assert Remaining(keys, path, gone) == [] + rest == rest;
      } else {
        assert ([keys[0]] + rest)[1..] == rest;
        assert Without([keys[0]] + rest, key) == (if keys[0] == key then [] else [keys[0]]) + Without(rest, key);
      }
    }
  }

  /** Where the record holding a field lies. */
  lemma PlaceOfField(path: FieldPath, other: FieldPath, part: PathPart)
    requires path != [] && other != path[..|path| - 1]
    ensures other + [part] != path
  {
    assert (other + [part])[..|other|] == other;
  }

  lemma {:induction false} OthersRemain(keys: seq<string>, path: FieldPath, gone: set<FieldPath>, removed: FieldPath)
    requires removed != [] && path != removed[..|removed| - 1]
    ensures Remaining(keys, path, gone + {removed}) == Remaining(keys, path, gone)
  {
    if keys != [] {
      PlaceOfField(removed, path, Key(keys[0]));
      OthersRemain(keys[1..], path, gone, removed);
    }
  }

  lemma OthersAreTrimmed(heap: Heap, nodes: Heap, tr: Trace, gone: set<FieldPath>, path: FieldPath, c: nat)
    requires Trimmed(heap, nodes, tr, gone, c) && path != [] && tr[c].place != path[..|path| - 1]
    ensures Trimmed(heap, nodes, tr, gone + {path}, c)
  {
    if heap[tr[c].source].Record? {
      OthersRemain(heap[tr[c].source].keys, tr[c].place, gone, path);
      forall key: string ensures tr[c].place + [Key(key)] != path { PlaceOfField(path, tr[c].place, Key(key)); }
    }
  }

  function Drop(node: Node, key: string): Node {
    match node
    case List(_) => node
    case Record(keys, fields) => Record(Without(keys, key), fields - {key})
  }

  lemma DroppedIsTrimmed(heap: Heap, nodes: Heap, tr: Trace, gone: set<FieldPath>, path: FieldPath, c: nat)
    requires Trimmed(heap, nodes, tr, gone, c) && path != [] && tr[c].place == path[..|path| - 1]
             && path[|path| - 1].Key?
    ensures Trimmed(heap, nodes[c := Drop(nodes[c], path[|path| - 1].name)], tr, gone + {path}, c)
  {
    hide Like, Remaining, Without;
    var key, place := path[|path| - 1].name, tr[c].place;
    assert path == place + [Key(key)];
    var nodes' := nodes[c := Drop(nodes[c], key)];
    if heap[tr[c].source].Record? {
      WithoutOne(heap[tr[c].source].keys, place, gone, key);
      FieldsOfPlace(place, gone, key);
      assert nodes'[c].keys == Remaining(heap[tr[c].source].keys, place, gone + {path});
    } else {
      assert nodes' == nodes;
    }
  }

  lemma FieldsOfPlace(place: FieldPath, gone: set<FieldPath>, key: string)
    ensures forall k: string {:trigger Key(k)} ::
      place + [Key(k)] in gone + {place + [Key(key)]} <==> place + [Key(k)] in gone || k == key
  {
    forall k: string ensures place + [Key(k)] == place + [Key(key)] <==> k == key {
      assert (place + [Key(k)])[|place|] == Key(k) && (place + [Key(key)])[|place|] == Key(key);
    }
  }

  lemma OneMoreRemoved(heap: Heap, nodes: Heap, tr: Trace, gone: set<FieldPath>, path: FieldPath, c: nat)
    requires IsPreview(heap, nodes, tr, gone) && c in nodes && path != [] && path[|path| - 1].Key?
    requires tr[c].place == path[..|path| - 1]
    ensures IsPreview(heap, nodes[c := Drop(nodes[c], path[|path| - 1].name)], tr, gone + {path})
  {
    hide Trimmed, Drop;
    var nodes' := nodes[c := Drop(nodes[c], path[|path| - 1].name)];
    assert nodes'.Keys == nodes.Keys;
    forall other <- nodes' ensures Trimmed(heap, nodes', tr, gone + {path}, other) {
      assert Trimmed(heap, nodes, tr, gone, other);
      if other == c {
        DroppedIsTrimmed(heap, nodes, tr, gone, path, c);
      } else {
        assert tr[other].place != path[..|path| - 1];
        OthersAreTrimmed(heap, nodes, tr, gone, path, other);
        SameNode(heap, nodes, nodes', tr, gone + {path}, other);
      }
    }
  }

  lemma SameNode(heap: Heap, nodes: Heap, nodes': Heap, tr: Trace, gone: set<FieldPath>, c: nat)
    requires Trimmed(heap, nodes, tr, gone, c) && c in nodes' && nodes'[c] == nodes[c]
    ensures Trimmed(heap, nodes', tr, gone, c)
  {
  }

  // ------------------------------------------------------------ the whole preview

  ghost predicate Outside(gone: set<FieldPath>, path: FieldPath) {
    path !in gone && forall p <- gone :: !Encloses(p, path)
  }

  lemma OutsidePrefix(gone: set<FieldPath>, path: FieldPath, n: nat)
    requires Outside(gone, path) && n <= |path|
    ensures Outside(gone, path[..n])
  {
    assert n == |path| ==> path[..n] == path;
    assert n < |path| ==> Encloses(path[..n], path);
    forall p <- gone ensures !Encloses(p, path[..n]) && p != path[..n] {
      assert !Encloses(p, path);
      if |p| <= n { assert path[..n][..|p|] == path[..|p|]; }
    }
  }

  lemma {:induction false} PrefixExists(heap: Heap, v: Value, path: FieldPath, n: nat)
    requires Lookup(heap, v, path).Some? && n <= |path|
    ensures Lookup(heap, v, path[..n]).Some?
    decreases |path|
  {
    if n < |path| {
      PrefixExists(heap, v, path[..|path| - 1], n);
      assert path[..|path| - 1][..n] == path[..n];
    } else {
      assert path[..n] == path;
    }
  }

  /** A set of removable fields, none inside another. */
  ghost predicate Proper(heap: Heap, root: nat, changes: seq<FieldPath>) {
    && (forall path <- changes :: Removable(heap, root, path))
    && (forall i, j | 0 <= i < j < |changes| ::
          changes[i] != changes[j] && !Encloses(changes[i], changes[j]) && !Encloses(changes[j], changes[i]))
  }

  ghost function PathsOf(changes: seq<FieldPath>): (paths: set<FieldPath>) {
    set path <- changes
  }

  lemma OneMorePath(heap: Heap, root: nat, changes: seq<FieldPath>, i: nat)
    requires Proper(heap, root, changes) && i < |changes|
    ensures PathsOf(changes[..i + 1]) == PathsOf(changes[..i]) + {changes[i]}
    ensures Outside(PathsOf(changes[..i]), changes[i]) && Removable(heap, root, changes[i])
  {
    assert changes[..i + 1] == changes[..i] + [changes[i]];
    assert changes[i] in changes;
  }

  /** The next step along the path of a change stays in the preview. */
  lemma NextStep(heap: Heap, nodes: Heap, tr: Trace, gone: set<FieldPath>, root: nat, path: FieldPath, n: nat)
    requires IsPreview(heap, nodes, tr, gone) && IsRoot(nodes, tr, root) && Outside(gone, path)
    requires Lookup(heap, Ref(root), path).Some? && n < |path|
    requires Lookup(nodes, Ref(0), path[..n]).Some?
    ensures var parent := Lookup(nodes, Ref(0), path[..n]).value;
            && Child(nodes, parent, path[n]).Some?
            && Lookup(nodes, Ref(0), path[..n + 1]) == Child(nodes, parent, path[n])
  {
    hide IsPreview, IsRoot, Lookup, Like, Child;
    OutsidePrefix(gone, path, n + 1);
    PrefixExists(heap, Ref(root), path, n + 1);
    FollowIsLike(heap, nodes, tr, gone, root, path[..n + 1]);
    assert path[..n] + [path[n]] == path[..n + 1];
    LookupChild(nodes, Ref(0), path[..n], path[n]);
  }

  lemma HolderIsCopy(heap: Heap, nodes: Heap, tr: Trace, gone: set<FieldPath>, root: nat, path: FieldPath)
    requires IsPreview(heap, nodes, tr, gone) && IsRoot(nodes, tr, root) && Outside(gone, path)
    requires Removable(heap, root, path)
    ensures var holder := Lookup(nodes, Ref(0), path[..|path| - 1]);
            holder.Some? && holder.value.Ref? && holder.value.id in nodes && holder.value.id in tr
            && tr[holder.value.id].place == path[..|path| - 1]
  {
    hide IsRoot, Lookup, Trimmed, Separated;
    OutsidePrefix(gone, path, |path| - 1);
    LookupLast(heap, Ref(root), path);
    FollowIsLike(heap, nodes, tr, gone, root, path[..|path| - 1]);
  }

  lemma RootIsTraced(heap: Heap, nodes: Heap, tr: Trace, root: nat)
    requires FullCopy(heap, nodes, tr) && 0 in nodes && tr[0].source == root && tr[0].place == []
    ensures IsRoot(nodes, tr, root)
  {
  }

  lemma DropKeepsRoot(nodes: Heap, tr: Trace, root: nat, c: nat, node: Node)
    requires IsRoot(nodes, tr, root)
    ensures IsRoot(nodes[c := node], tr, root)
  {
  }

  /** In the preview, the path of a removed field leads nowhere. */
  lemma RemovedIsMissing(heap: Heap, nodes: Heap, tr: Trace, gone: set<FieldPath>, root: nat, path: FieldPath)
    requires IsPreview(heap, nodes, tr, gone) && IsRoot(nodes, tr, root)
    requires path in gone && Removable(heap, root, path) && forall p <- gone :: !Encloses(p, path)
    ensures Lookup(nodes, Ref(0), path).None?
  {
    hide IsRoot, Lookup, Separated;
    var parent, last := path[..|path| - 1], path[|path| - 1];
    OutsideParent(gone, path);
    LookupLast(heap, Ref(root), path);
    FollowIsLike(heap, nodes, tr, gone, root, parent);
    assert parent + [last] == path;
    LookupChild(nodes, Ref(0), parent, last);
    var holder := Lookup(nodes, Ref(0), parent).value;
    if holder.Ref? { assert Trimmed(heap, nodes, tr, gone, holder.id); }
  }

  lemma ChangesAreMissing(heap: Heap, nodes: Heap, tr: Trace, root: nat, changes: seq<FieldPath>)
    requires IsPreview(heap, nodes, tr, PathsOf(changes)) && IsRoot(nodes, tr, root) && Proper(heap, root, changes)
    ensures forall path <- changes :: Lookup(nodes, Ref(0), path).None?
  {
    hide IsPreview, IsRoot, Lookup, Removable;
    forall path <- changes ensures Lookup(nodes, Ref(0), path).None? {
      RemovedIsMissing(heap, nodes, tr, PathsOf(changes), root, path);
    }
  }

  /** The clone of a document without the fields at the given paths. */
  method CreatePreview(heap: Heap, root: nat, changes: seq<FieldPath>) returns (nodes: Heap, ghost tr: Trace)
    requires Closed(heap) && root in heap && Unfold(heap, Ref(root), CLONE_DEPTH).Some?
    requires Proper(heap, root, changes)
    ensures IsPreview(heap, nodes, tr, PathsOf(changes)) && IsRoot(nodes, tr, root)
    ensures forall path <- changes :: Lookup(nodes, Ref(0), path).None?
  {
    hide Unfold, IsPreview, IsRoot, Lookup, Child, Outside, Proper, Drop;
    nodes, tr := Clone(heap, root);
    CloneIsPreview(heap, nodes, tr);
    RootIsTraced(heap, nodes, tr, root);
    assert PathsOf(changes[..0]) == {};
    for i := 0 to |changes|
      invariant IsPreview(heap, nodes, tr, PathsOf(changes[..i])) && IsRoot(nodes, tr, root)
    {
      var path := changes[i];
      OneMorePath(heap, root, changes, i);
      var parent := Ref(0);
      RootIsLike(heap, nodes, tr, root);
      for j := 0 to |path| - 1
        invariant Lookup(nodes, Ref(0), path[..j]) == Some(parent)
      {
        NextStep(heap, nodes, tr, PathsOf(changes[..i]), root, path, j);
        parent := Child(nodes, parent, path[j]).value;
      }
      HolderIsCopy(heap, nodes, tr, PathsOf(changes[..i]), root, path);
      OneMoreRemoved(heap, nodes, tr, PathsOf(changes[..i]), path, parent.id);
      DropKeepsRoot(nodes, tr, root, parent.id, Drop(nodes[parent.id], path[|path| - 1].name));
      nodes := nodes[parent.id := Drop(nodes[parent.id], path[|path| - 1].name)];
    }
    assert changes[..|changes|] == changes;
    ChangesAreMissing(heap, nodes, tr, root, changes);
  }
}
