/** The preview of a document: a copy of every occurrence of every container, without the omitted fields. */
module Preview {
  import opened Wrappers
  import opened Diagnostics
  import opened DocumentGraph

  // ------------------------------------------------------------ entries of a container

  function Size(node: Node): nat {
    match node
    case List(items) => |items|
    case Record(keys, _) => |keys|
  }

  function PartAt(node: Node, i: nat): PathPart
    requires i < Size(node)
  {
    match node
    case List(_) => Index(i)
    case Record(keys, _) => Key(keys[i])
  }

  function ValueAt(node: Node, i: nat): Value
    requires i < Size(node)
  {
    match node
    case List(items) => items[i]
    case Record(keys, fields) => if keys[i] in fields then fields[keys[i]] else Null
  }

  function Empty(node: Node): Node {
    match node
    case List(_) => List([])
    case Record(_, _) => Record([], map[])
  }

  /** Defines the next entry of a container being copied. */
  function Put(node: Node, part: PathPart, v: Value): Node {
    match node
    case List(items) => List(items + [v])
    case Record(keys, fields) => if part.Key? then Record(keys + [part.name], fields[part.name := v]) else node
  }

  // ------------------------------------------------------------ copies

  /**
   * Where a copy comes from: its original, the path of the occurrence it stands for, how deep the
   * original unfolds, and the entry of which copy led to it.
   */
  datatype Origin = Origin(source: nat, place: FieldPath, depth: nat, parent: nat, entry: nat)

  type Trace = map<nat, Origin>

  /** `v'` is a copy of `v` made for the occurrence at `path`. */
  ghost predicate Like(tr: Trace, v: Value, v': Value, path: FieldPath) {
    if v.Ref?
    then v'.Ref? && v'.id in tr && tr[v'.id].source == v.id && tr[v'.id].place == path
    else v' == v
  }

  /** The first `n` entries of `original`, and no others, have been copied into `copy`, which lies at `path`. */
  ghost predicate Mirrors(tr: Trace, original: Node, copy: Node, path: FieldPath, n: nat) {
    && n == Size(copy) <= Size(original)
    && original.List? == copy.List?
    && (copy.Record? ==> Distinct(copy.keys) && (forall key :: key in copy.keys <==> key in copy.fields))
    && (forall i | 0 <= i < n ::
          PartAt(copy, i) == PartAt(original, i)
          && Like(tr, ValueAt(original, i), ValueAt(copy, i), path + [PartAt(original, i)]))
  }

  ghost predicate MirrorsUpTo(heap: Heap, nodes: Heap, tr: Trace, c: nat, n: nat) {
    && c in nodes && c in tr && tr[c].source in heap
    && Mirrors(tr, heap[tr[c].source], nodes[c], tr[c].place, n)
  }

  ghost predicate IsCopied(heap: Heap, nodes: Heap, tr: Trace, c: nat) {
    && c in tr && tr[c].source in heap
    && MirrorsUpTo(heap, nodes, tr, c, Size(heap[tr[c].source]))
  }

  /** No two copies stand for the same occurrence. */
  ghost predicate Separated(tr: Trace) {
    forall a, b | a in tr && b in tr && tr[a].place == tr[b].place :: a == b
  }

  /** A finished copy: every node mirrors its original completely. */
  ghost predicate FullCopy(heap: Heap, nodes: Heap, tr: Trace) {
    && nodes.Keys == tr.Keys
    && Separated(tr)
    && forall c <- nodes :: IsCopied(heap, nodes, tr, c)
  }

  // ------------------------------------------------------------ how many occurrences are left to copy

  function Occurrences(heap: Heap, v: Value, depth: nat): nat
    decreases depth, 0, 0
  {
    if !v.Ref? || v.id !in heap || depth == 0 then 0 else 1 + OccurrencesFrom(heap, heap[v.id], 0, depth - 1)
  }

  function OccurrencesFrom(heap: Heap, node: Node, i: nat, depth: nat): nat
    decreases depth, 1, Size(node) - i
  {
    if i >= Size(node) then 0
    else Occurrences(heap, ValueAt(node, i), depth) + OccurrencesFrom(heap, node, i + 1, depth)
  }

  ghost function Left(heap: Heap, pending: seq<(nat, nat)>, tr: Trace): nat {
    if pending == [] then 0
    else
      var (from, to) := pending[|pending| - 1];
      Left(heap, pending[..|pending| - 1], tr) + Occurrences(heap, Ref(from), if to in tr then tr[to].depth else 0)
  }

  lemma {:induction false} LeftIgnoresOthers(heap: Heap, pending: seq<(nat, nat)>, tr: Trace, c: nat, origin: Origin)
    requires !Waiting(pending, c)
    ensures Left(heap, pending, tr[c := origin]) == Left(heap, pending, tr)
  {
    hide Occurrences;
    if pending != [] {
      assert pending[|pending| - 1] in pending;
      assert forall entry <- pending[..|pending| - 1] :: entry in pending;
      LeftIgnoresOthers(heap, pending[..|pending| - 1], tr, c, origin);
    }
  }

  lemma ChildUnfolds(heap: Heap, v: Value, depth: nat, i: nat)
    requires Closed(heap) && v.Ref? && v.id in heap && Unfold(heap, v, depth).Some? && i < Size(heap[v.id])
    ensures depth > 0 && Unfold(heap, ValueAt(heap[v.id], i), depth - 1).Some?
    ensures Present(heap, ValueAt(heap[v.id], i))
  {
    assert WellFormed(heap, heap[v.id]);
  }

  lemma PartsDiffer(heap: Heap, id: nat, i: nat, j: nat)
    requires Closed(heap) && id in heap && i < j < Size(heap[id])
    ensures PartAt(heap[id], i) != PartAt(heap[id], j)
  {
    assert WellFormed(heap, heap[id]);
  }

  // ------------------------------------------------------------ the cloning loop

  ghost predicate Waiting(pending: seq<(nat, nat)>, c: nat) {
    exists entry <- pending :: entry.1 == c
  }

  /** A copy was made for one of the entries already copied of another. */
  ghost predicate Descends(heap: Heap, nodes: Heap, tr: Trace, c: nat) {
    && c in tr && tr[c].parent in nodes && tr[c].entry < Size(nodes[tr[c].parent])
    && tr[c].parent in tr && tr[tr[c].parent].source in heap && tr[c].entry < Size(heap[tr[tr[c].parent].source])
    && tr[c].place == tr[tr[c].parent].place + [PartAt(heap[tr[tr[c].parent].source], tr[c].entry)]
  }

  /** Every copy is traced, and no two stand for the same occurrence. */
  ghost predicate Traced(heap: Heap, root: nat, nodes: Heap, next: nat, tr: Trace) {
    && (forall c: nat :: c in nodes <==> c < next)
    && nodes.Keys == tr.Keys
    && 0 in tr && tr[0].source == root && tr[0].place == []
    && Separated(tr)
    && (forall c <- tr :: tr[c].source in heap && Unfold(heap, Ref(tr[c].source), tr[c].depth).Some?)
    && (forall c {:trigger Descends(heap, nodes, tr, c)} | c in nodes && c != 0 :: Descends(heap, nodes, tr, c))
  }

  /** The containers waiting to be filled are empty, and wait once. */
  ghost predicate Queued(heap: Heap, nodes: Heap, pending: seq<(nat, nat)>, tr: Trace) {
    && (forall i, j | 0 <= i < j < |pending| :: pending[i].1 != pending[j].1)
    && (forall entry <- pending ::
          entry.1 in nodes && entry.1 in tr && tr[entry.1].source == entry.0 && entry.0 in heap
          && nodes[entry.1] == Empty(heap[entry.0]))
  }

  /** Every copy that is neither waiting nor being filled is complete. */
  ghost predicate Complete(heap: Heap, nodes: Heap, pending: seq<(nat, nat)>, tr: Trace, filling: Option<nat>) {
    forall c <- nodes | !Waiting(pending, c) && filling != Some(c) :: IsCopied(heap, nodes, tr, c)
  }

  ghost predicate Filling(heap: Heap, root: nat, nodes: Heap, next: nat, pending: seq<(nat, nat)>, tr: Trace, to: nat,
                          i: nat)
  {
    && Traced(heap, root, nodes, next, tr)
    && Queued(heap, nodes, pending, tr)
    && Complete(heap, nodes, pending, tr, Some(to))
    && to in nodes && !Waiting(pending, to)
    && MirrorsUpTo(heap, nodes, tr, to, i)
  }

  lemma MirrorsGrow(tr: Trace, original: Node, copy: Node, path: FieldPath, n: nat, c: nat, origin: Origin)
    requires Mirrors(tr, original, copy, path, n) && c !in tr
    ensures Mirrors(tr[c := origin], original, copy, path, n)
  {
  }

  lemma MirrorsPut(tr: Trace, heap: Heap, id: nat, copy: Node, path: FieldPath, i: nat, v: Value)
    requires Closed(heap) && id in heap && i < Size(heap[id])
    requires Mirrors(tr, heap[id], copy, path, i)
    requires Like(tr, ValueAt(heap[id], i), v, path + [PartAt(heap[id], i)])
    ensures Mirrors(tr, heap[id], Put(copy, PartAt(heap[id], i), v), path, i + 1)
  {
    var original := heap[id];
    var more := Put(copy, PartAt(original, i), v);
    assert WellFormed(heap, original);
    if original.Record? {
      forall j | 0 <= j < i ensures copy.keys[j] != original.keys[i] {
        assert PartAt(copy, j) == PartAt(original, j);
      }
    }
    forall j | 0 <= j < i + 1
      ensures PartAt(more, j) == PartAt(original, j)
           && Like(tr, ValueAt(original, j), ValueAt(more, j), path + [PartAt(original, j)])
    {
      if j < i {
        assert PartAt(more, j) == PartAt(copy, j) && ValueAt(more, j) == ValueAt(copy, j);
      }
    }
  }

  /** Changing the container being filled disturbs nothing else. */
  lemma OthersAreUndisturbed(heap: Heap, nodes: Heap, pending: seq<(nat, nat)>, tr: Trace, to: nat, node: Node)
    requires Queued(heap, nodes, pending, tr) && Complete(heap, nodes, pending, tr, Some(to))
    requires to in nodes && !Waiting(pending, to)
    ensures Queued(heap, nodes[to := node], pending, tr)
    ensures Complete(heap, nodes[to := node], pending, tr, Some(to))
  {
    hide Mirrors;
    forall c <- nodes[to := node] | !Waiting(pending, c) && c != to ensures IsCopied(heap, nodes[to := node], tr, c) {
      assert IsCopied(heap, nodes, tr, c);
    }
  }

  lemma TraceIsUndisturbed(heap: Heap, root: nat, nodes: Heap, next: nat, tr: Trace, to: nat, node: Node)
    requires Traced(heap, root, nodes, next, tr) && to in nodes && Size(nodes[to]) <= Size(node)
    ensures Traced(heap, root, nodes[to := node], next, tr)
  {
    hide Unfold, Separated;
    assert nodes[to := node].Keys == nodes.Keys;
    forall c | c in nodes && c != 0 ensures Descends(heap, nodes[to := node], tr, c) {
      assert Descends(heap, nodes, tr, c);
    }
  }

  /** Copying a scalar entry. */
  lemma ScalarIsCopied(heap: Heap, root: nat, nodes: Heap, next: nat, pending: seq<(nat, nat)>, tr: Trace, to: nat,
                       i: nat)
    requires Closed(heap) && Filling(heap, root, nodes, next, pending, tr, to, i)
    requires i < Size(heap[tr[to].source]) && !ValueAt(heap[tr[to].source], i).Ref?
    ensures var original := heap[tr[to].source];
            Filling(heap, root, nodes[to := Put(nodes[to], PartAt(original, i), ValueAt(original, i))], next, pending,
                    tr, to, i + 1)
  {
    var original := heap[tr[to].source];
    var node := Put(nodes[to], PartAt(original, i), ValueAt(original, i));
    MirrorsPut(tr, heap, tr[to].source, nodes[to], tr[to].place, i, ValueAt(original, i));
    assert Size(node) == i + 1 && Size(nodes[to]) == i;
    TraceIsUndisturbed(heap, root, nodes, next, tr, to, node);
    hide Queued, Complete, Mirrors;
    OthersAreUndisturbed(heap, nodes, pending, tr, to, node);
  }

  lemma QueueGrows(heap: Heap, nodes: Heap, pending: seq<(nat, nat)>, tr: Trace, c: nat, origin: Origin)
    requires nodes.Keys == tr.Keys && Queued(heap, nodes, pending, tr)
    requires c !in nodes && origin.source in heap
    ensures Queued(heap, nodes[c := Empty(heap[origin.source])], pending + [(origin.source, c)], tr[c := origin])
    ensures forall other :: Waiting(pending + [(origin.source, c)], other) <==> Waiting(pending, other) || other == c
  {
    var more := pending + [(origin.source, c)];
    forall other ensures Waiting(more, other) <==> Waiting(pending, other) || other == c {
      assert (origin.source, c) in more;
      assert forall entry <- pending :: entry in more;
    }
    forall i, j | 0 <= i < j < |more| ensures more[i].1 != more[j].1 {
      if j == |pending| { assert pending[i] in pending; }
    }
  }

  lemma CompletenessGrows(heap: Heap, nodes: Heap, pending: seq<(nat, nat)>, more: seq<(nat, nat)>, tr: Trace,
                          to: nat, c: nat, origin: Origin, node: Node)
    requires nodes.Keys == tr.Keys && Complete(heap, nodes, pending, tr, Some(to))
    requires c !in nodes && forall other :: Waiting(more, other) <==> Waiting(pending, other) || other == c
    ensures Complete(heap, nodes[c := node], more, tr[c := origin], Some(to))
  {
    hide Mirrors, Waiting;
    forall other <- nodes[c := node] | !Waiting(more, other) && other != to
      ensures IsCopied(heap, nodes[c := node], tr[c := origin], other)
    {
      assert IsCopied(heap, nodes, tr, other);
      MirrorsGrow(tr, heap[tr[other].source], nodes[other], tr[other].place, Size(heap[tr[other].source]), c, origin);
    }
  }

  /** The occurrence at entry `i` of the container being filled has no copy yet. */
  lemma PlaceIsNew(heap: Heap, root: nat, nodes: Heap, next: nat, tr: Trace, to: nat, i: nat, c: nat)
    requires Closed(heap) && Traced(heap, root, nodes, next, tr) && to in nodes && Size(nodes[to]) == i
    requires i < Size(heap[tr[to].source]) && c in nodes
    ensures tr[c].place != tr[to].place + [PartAt(heap[tr[to].source], i)]
  {
    hide Unfold;
    var path := tr[to].place + [PartAt(heap[tr[to].source], i)];
    if c != 0 && tr[c].place == path {
      assert Descends(heap, nodes, tr, c);
      var parent, entry := tr[c].parent, tr[c].entry;
      assert path[..|path| - 1] == tr[to].place && path[|path| - 1] == PartAt(heap[tr[to].source], i);
      assert tr[c].place[..|path| - 1] == tr[parent].place;
      assert parent == to;
      PartsDiffer(heap, tr[to].source, entry, i);
    }
  }

  lemma TraceGrows(heap: Heap, root: nat, nodes: Heap, nodes': Heap, next: nat, tr: Trace, to: nat, i: nat,
                   origin: Origin)
    requires Closed(heap) && Traced(heap, root, nodes, next, tr) && to in nodes && Size(nodes[to]) == i
    requires i < Size(heap[tr[to].source])
    requires origin.source in heap && Unfold(heap, Ref(origin.source), origin.depth).Some?
    requires origin.parent == to && origin.entry == i && origin.place == tr[to].place + [PartAt(heap[tr[to].source], i)]
    requires nodes'.Keys == nodes.Keys + {next} && i < Size(nodes'[to])
    requires forall c <- nodes :: Size(nodes[c]) <= Size(nodes'[c])
    ensures Traced(heap, root, nodes', next + 1, tr[next := origin])
  {
    hide Unfold, Size, PartAt, Separated, Descends, Closed;
    var tr' := tr[next := origin];
    PlacesStaySeparate(heap, root, nodes, next, tr, to, i, origin);
    NewCopyDescends(heap, root, nodes, nodes', next, tr, to, i, origin);
    forall c | c in nodes' && c != 0 ensures Descends(heap, nodes', tr', c) {
      if c != next {
        assert Descends(heap, nodes, tr, c);
        DescentStays(heap, nodes, nodes', tr, c, next, origin);
      }
    }
  }

  lemma NewCopyDescends(heap: Heap, root: nat, nodes: Heap, nodes': Heap, next: nat, tr: Trace, to: nat, i: nat,
                        origin: Origin)
    requires Traced(heap, root, nodes, next, tr) && to in nodes && to in nodes'
    requires i < Size(heap[tr[to].source]) && i < Size(nodes'[to])
    requires origin.parent == to && origin.entry == i && origin.place == tr[to].place + [PartAt(heap[tr[to].source], i)]
    ensures Descends(heap, nodes', tr[next := origin], next)
  {
    hide Unfold, Separated;
  }

  lemma PlacesStaySeparate(heap: Heap, root: nat, nodes: Heap, next: nat, tr: Trace, to: nat, i: nat, origin: Origin)
    requires Closed(heap) && Traced(heap, root, nodes, next, tr) && to in nodes && Size(nodes[to]) == i
    requires i < Size(heap[tr[to].source]) && origin.place == tr[to].place + [PartAt(heap[tr[to].source], i)]
    ensures Separated(tr[next := origin])
  {
    hide Unfold, Separated, Descends, PartAt, Size;
    forall c <- tr ensures tr[c].place != origin.place {
      PlaceIsNew(heap, root, nodes, next, tr, to, i, c);
    }
    SeparationGrows(tr, next, origin);
  }

  lemma SeparationGrows(tr: Trace, c: nat, origin: Origin)
    requires Separated(tr) && c !in tr && forall other <- tr :: tr[other].place != origin.place
    ensures Separated(tr[c := origin])
  {
  }

  lemma DescentStays(heap: Heap, nodes: Heap, nodes': Heap, tr: Trace, c: nat, added: nat, origin: Origin)
    requires c in nodes && Descends(heap, nodes, tr, c)
    requires added !in tr && added !in nodes
    requires forall other <- nodes :: other in nodes' && Size(nodes[other]) <= Size(nodes'[other])
    ensures Descends(heap, nodes', tr[added := origin], c)
  {
  }

  /** A container met at entry `i` gets a new, empty copy, which joins the waiting ones. */
  lemma ContainerIsCopied(heap: Heap, root: nat, nodes: Heap, next: nat, pending: seq<(nat, nat)>, tr: Trace, to: nat,
                          i: nat, origin: Origin)
    requires Filling(heap, root, nodes, next, pending, tr, to, i) && i < Size(heap[tr[to].source])
    requires Closed(heap) && ValueAt(heap[tr[to].source], i) == Ref(origin.source)
    requires origin.source in heap && Unfold(heap, Ref(origin.source), origin.depth).Some?
    requires origin.parent == to && origin.entry == i && origin.place == tr[to].place + [PartAt(heap[tr[to].source], i)]
    ensures var nodes' :=
            nodes[to := Put(nodes[to], PartAt(heap[tr[to].source], i), Ref(next))][next := Empty(heap[origin.source])];
            Filling(heap, root, nodes', next + 1, pending + [(origin.source, next)], tr[next := origin], to, i + 1)
  {
    hide Unfold, Separated, Descends;
    var original := heap[tr[to].source];
    var node := Put(nodes[to], PartAt(original, i), Ref(next));
    assert next !in nodes && next != to && next !in tr;
    assert Size(node) == i + 1 && Size(nodes[to]) == i;
    TraceGrows(heap, root, nodes, nodes[to := node][next := Empty(heap[origin.source])], next, tr, to, i, origin);
    MirrorsGrow(tr, original, nodes[to], tr[to].place, i, next, origin);
    MirrorsPut(tr[next := origin], heap, tr[to].source, nodes[to], tr[to].place, i, Ref(next));
    hide Mirrors, Complete, Queued, Waiting;
    OthersAreUndisturbed(heap, nodes, pending, tr, to, node);
    assert nodes[to := node].Keys == tr.Keys;
    hide Traced;
    QueueGrows(heap, nodes[to := node], pending, tr, next, origin);
    CompletenessGrows(heap, nodes[to := node], pending, pending + [(origin.source, next)], tr, to, next, origin,
                      Empty(heap[origin.source]));
  }

  /** Filling done: the container is complete like the others. */
  lemma FillingEnds(heap: Heap, root: nat, nodes: Heap, next: nat, pending: seq<(nat, nat)>, tr: Trace, to: nat)
    requires to in tr && tr[to].source in heap
    requires Filling(heap, root, nodes, next, pending, tr, to, Size(heap[tr[to].source]))
    ensures Complete(heap, nodes, pending, tr, None)
  {
    hide Mirrors, Waiting, Traced, Queued;
    forall c <- nodes | !Waiting(pending, c) ensures IsCopied(heap, nodes, tr, c) {
      if c != to { assert IsCopied(heap, nodes, tr, c); }
    }
  }

  /** Taking the last waiting container out of the queue starts its filling. */
  lemma FillingStarts(heap: Heap, root: nat, nodes: Heap, next: nat, pending: seq<(nat, nat)>, tr: Trace, from: nat,
                      to: nat)
    requires Traced(heap, root, nodes, next, tr) && Queued(heap, nodes, pending + [(from, to)], tr)
    requires Complete(heap, nodes, pending + [(from, to)], tr, None)
    ensures Filling(heap, root, nodes, next, pending, tr, to, 0) && tr[to].source == from
  {
    hide Traced, IsCopied;
    var all := pending + [(from, to)];
    assert all[|pending|] == (from, to) && (from, to) in all;
    forall entry <- pending ensures entry in all && entry.1 != to {
      var i :| 0 <= i < |pending| && pending[i] == entry;
      assert all[i] == entry;
    }
    forall i, j | 0 <= i < j < |pending| ensures pending[i].1 != pending[j].1 {
      assert all[i] == pending[i] && all[j] == pending[j];
    }
    forall c <- nodes | !Waiting(pending, c) && c != to ensures IsCopied(heap, nodes, tr, c) {
      assert !Waiting(all, c);
    }
  }

  lemma TopIsLeft(heap: Heap, pending: seq<(nat, nat)>, tr: Trace, from: nat, to: nat)
    requires Closed(heap) && to in tr && from in heap && Unfold(heap, Ref(from), tr[to].depth).Some?
    ensures tr[to].depth > 0
    ensures Left(heap, pending + [(from, to)], tr)
         == Left(heap, pending, tr) + 1 + OccurrencesFrom(heap, heap[from], 0, tr[to].depth - 1)
  {
    assert (pending + [(from, to)])[..|pending|] == pending;
    hide OccurrencesFrom, UnfoldNode;
  }

  lemma PushedIsLeft(heap: Heap, pending: seq<(nat, nat)>, tr: Trace, c: nat, origin: Origin)
    requires !Waiting(pending, c)
    ensures Left(heap, pending + [(origin.source, c)], tr[c := origin])
         == Left(heap, pending, tr) + Occurrences(heap, Ref(origin.source), origin.depth)
  {
    hide Occurrences;
    assert (pending + [(origin.source, c)])[..|pending|] == pending;
    LeftIgnoresOthers(heap, pending, tr, c, origin);
  }

  /** What is known of the entry about to be copied. */
  lemma EntryIsFinite(heap: Heap, root: nat, nodes: Heap, next: nat, pending: seq<(nat, nat)>, tr: Trace, to: nat,
                      i: nat)
    requires Closed(heap) && Filling(heap, root, nodes, next, pending, tr, to, i) && i < Size(heap[tr[to].source])
    ensures var v := ValueAt(heap[tr[to].source], i);
            && tr[to].depth > 0 && Unfold(heap, v, tr[to].depth - 1).Some? && Present(heap, v)
            && OccurrencesFrom(heap, heap[tr[to].source], i, tr[to].depth - 1)
            == Occurrences(heap, v, tr[to].depth - 1)
                + OccurrencesFrom(heap, heap[tr[to].source], i + 1, tr[to].depth - 1)
            && (!v.Ref? ==> Occurrences(heap, v, tr[to].depth - 1) == 0)
  {
    hide Queued, Complete, MirrorsUpTo, Mirrors, Descends, Separated, Unfold;
    ChildUnfolds(heap, Ref(tr[to].source), tr[to].depth, i);
  }

  const CLONE_DEPTH := 68

  lemma CloneStarts(heap: Heap, root: nat, depth: nat, nodes: Heap, tr: Trace)
    requires root in heap && Unfold(heap, Ref(root), depth).Some?
    requires nodes == map[0 := Empty(heap[root])] && tr == map[0 := Origin(root, [], depth, 0, 0)]
    ensures Traced(heap, root, nodes, 1, tr) && Queued(heap, nodes, [(root, 0)], tr)
    ensures Complete(heap, nodes, [(root, 0)], tr, None)
  {
    hide Unfold;
    assert (root, 0) in [(root, 0)];
  }

  lemma CloneEnds(heap: Heap, root: nat, nodes: Heap, next: nat, tr: Trace)
    requires Traced(heap, root, nodes, next, tr) && Complete(heap, nodes, [], tr, None)
    ensures FullCopy(heap, nodes, tr) && 0 in nodes && tr[0].source == root && tr[0].place == []
  {
    hide IsCopied, Unfold, Separated, Descends;
    forall c <- nodes ensures IsCopied(heap, nodes, tr, c) {
      assert !Waiting([], c);
    }
  }

  /**
   * Clones a document with an explicit stack.  Every occurrence of a container gets a copy of its own,
   * so nothing is shared with the input or within the copy.
   */
  method Clone(heap: Heap, root: nat) returns (nodes: Heap, ghost tr: Trace)
    requires Closed(heap) && root in heap && Unfold(heap, Ref(root), CLONE_DEPTH).Some?
    ensures FullCopy(heap, nodes, tr)
    ensures 0 in nodes && tr[0].source == root && tr[0].place == []
  {
    hide Unfold, Traced, Queued, Complete, IsCopied, Left, Occurrences, OccurrencesFrom, Closed, Waiting, Size, PartAt,
         ValueAt, Put;
    nodes, tr := map[0 := Empty(heap[root])], map[0 := Origin(root, [], CLONE_DEPTH, 0, 0)];
    var next, pending := 1, [(root, 0)];
    CloneStarts(heap, root, CLONE_DEPTH, nodes, tr);
    while pending != []
      invariant Traced(heap, root, nodes, next, tr) && Queued(heap, nodes, pending, tr)
      invariant Complete(heap, nodes, pending, tr, None)
      decreases Left(heap, pending, tr)
    {
      var (from, to) := pending[|pending| - 1];
      assert pending == pending[..|pending| - 1] + [(from, to)];
      ghost var left := Left(heap, pending, tr);
      FillingStarts(heap, root, nodes, next, pending[..|pending| - 1], tr, from, to);
      ToIsFinite(heap, root, nodes, next, pending[..|pending| - 1], tr, to);
      TopIsLeft(heap, pending[..|pending| - 1], tr, from, to);
      pending := pending[..|pending| - 1];
      nodes, next, pending, tr := Fill(heap, root, nodes, next, pending, tr, from, to);
    }
    CloneEnds(heap, root, nodes, next, tr);
  }

  lemma ToIsFinite(heap: Heap, root: nat, nodes: Heap, next: nat, pending: seq<(nat, nat)>, tr: Trace, to: nat)
    requires Filling(heap, root, nodes, next, pending, tr, to, 0)
    ensures tr[to].source in heap && Unfold(heap, Ref(tr[to].source), tr[to].depth).Some?
  {
    hide Unfold, Descends, Separated;
  }

  /** Copies the entries of one container, queueing a new copy for each container among them. */
  method Fill(heap: Heap, root: nat, nodes0: Heap, next0: nat, pending0: seq<(nat, nat)>, ghost tr0: Trace, from: nat,
              to: nat)
    returns (nodes: Heap, next: nat, pending: seq<(nat, nat)>, ghost tr: Trace)
    requires Closed(heap) && Filling(heap, root, nodes0, next0, pending0, tr0, to, 0) && tr0[to].source == from
    requires Unfold(heap, Ref(from), tr0[to].depth).Some? && tr0[to].depth > 0
    ensures Traced(heap, root, nodes, next, tr) && Queued(heap, nodes, pending, tr)
    ensures Complete(heap, nodes, pending, tr, None)
    ensures Left(heap, pending, tr)
         == Left(heap, pending0, tr0) + OccurrencesFrom(heap, heap[from], 0, tr0[to].depth - 1)
  {
    hide Unfold, Traced, Queued, Complete, Left, Occurrences, OccurrencesFrom, Closed, Waiting, PartAt, ValueAt, Put,
         Mirrors;
    nodes, next, pending, tr := nodes0, next0, pending0, tr0;
    ghost var depth := tr0[to].depth - 1;
    var i := 0;
    while i < Size(heap[from])
      invariant i <= Size(heap[from]) && Filling(heap, root, nodes, next, pending, tr, to, i)
      invariant to in tr && tr[to].source == from && tr[to].depth == depth + 1
      invariant Left(heap, pending, tr) + OccurrencesFrom(heap, heap[from], i, depth)
             == Left(heap, pending0, tr0) + OccurrencesFrom(heap, heap[from], 0, depth)
    {
      var original, part := heap[from], PartAt(heap[from], i);
      var v := ValueAt(original, i);
      EntryIsFinite(heap, root, nodes, next, pending, tr, to, i);
      NextIsNew(heap, root, nodes, next, pending, tr, to, i);
      if v.Ref? {
        ghost var origin := Origin(v.id, tr[to].place + [part], depth, to, i);
        ContainerIsCopied(heap, root, nodes, next, pending, tr, to, i, origin);
        PushedIsLeft(heap, pending, tr, next, origin);
        nodes := nodes[to := Put(nodes[to], part, Ref(next))][next := Empty(heap[v.id])];
        pending := pending + [(v.id, next)];
        tr := tr[next := origin];
        next := next + 1;
      } else {
        ScalarIsCopied(heap, root, nodes, next, pending, tr, to, i);
        nodes := nodes[to := Put(nodes[to], part, v)];
      }
      i := i + 1;
    }
    FillingEnds(heap, root, nodes, next, pending, tr, to);
    NothingLeft(heap, heap[from], i, depth);
  }

  lemma NothingLeft(heap: Heap, node: Node, i: nat, depth: nat)
    requires i >= Size(node)
    ensures OccurrencesFrom(heap, node, i, depth) == 0
  {
  }

  lemma NextIsNew(heap: Heap, root: nat, nodes: Heap, next: nat, pending: seq<(nat, nat)>, tr: Trace, to: nat, i: nat)
    requires Filling(heap, root, nodes, next, pending, tr, to, i)
    ensures next !in nodes && next !in tr && next != to && !Waiting(pending, next) && to in nodes && to in tr
  {
    hide Unfold, Descends, Separated, Complete, Mirrors;
  }
}
