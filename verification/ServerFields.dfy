/** Fields whose values the server decides, such as identifiers and publication times, in a creation preview. */
module ServerFields {
  import opened Wrappers
  import opened Diagnostics
  import opened DocumentGraph

  datatype Change =
    | Remove(path: FieldPath, before: Value)
    | Replace(path: FieldPath, before: Value, after: Value)
    | Add(path: FieldPath, after: Value)

  /** A document a server-owned field belongs to, and which of its keys spell the property. */
  datatype Target = Target(keys: seq<string>, fields: map<string, Value>, spells: string -> bool, path: FieldPath)
  {
    ghost predicate Valid() {
      Distinct(keys) && forall key :: key in keys <==> key in fields
    }
  }

  datatype Supply = Supply(entry: Value, path: FieldPath)

  function ItemSupplies(items: seq<Value>, from: nat, path: FieldPath): (supplies: seq<Supply>)
    ensures forall supply :: supply in supplies <==>
      exists i :: from <= i < |items| && !items[i].Null? && supply == Supply(items[i], path + [Index(i)])
    decreases |items| - from
  {
    if from >= |items| then []
    else
      (if items[from].Null? then [] else [Supply(items[from], path + [Index(from)])])
      + ItemSupplies(items, from + 1, path)
  }

  /** The non-null values one key supplies. */
  function KeySupplies(heap: Heap, target: Target, key: string): seq<Supply> {
    if key !in target.fields || !target.spells(key) then []
    else
      var v, path := target.fields[key], target.path + [Key(key)];
      if IsList(heap, v) then ItemSupplies(heap[v.id].items, 0, path)
      else if v.Null? then [] else [Supply(v, path)]
  }

  function Supplies(heap: Heap, target: Target, keys: seq<string>): seq<Supply> {
    if keys == [] then [] else KeySupplies(heap, target, keys[0]) + Supplies(heap, target, keys[1..])
  }

  /** What a document supplies is nothing exactly when every spelling is absent, null, or a list of nulls. */
  lemma {:induction false} NothingSupplied(heap: Heap, target: Target, keys: seq<string>)
    ensures Supplies(heap, target, keys) == []
       <==> forall key <- keys | key in target.fields && target.spells(key) ::
              if IsList(heap, target.fields[key]) then forall item <- heap[target.fields[key].id].items :: item.Null?
              else target.fields[key].Null?
  {
    if keys != [] {
      NothingSupplied(heap, target, keys[1..]);
      var first, rest := KeySupplies(heap, target, keys[0]), Supplies(heap, target, keys[1..]);
      assert first + rest == [] <==> first == [] && rest == [];
      if keys[0] in target.fields && target.spells(keys[0]) && IsList(heap, target.fields[keys[0]]) {
        NoItems(heap[target.fields[keys[0]].id].items, target.path + [Key(keys[0])]);
      }
      assert forall key :: key in keys <==> key == keys[0] || key in keys[1..];
    }
  }

  lemma NoItems(items: seq<Value>, path: FieldPath)
    ensures ItemSupplies(items, 0, path) == [] <==> forall item <- items :: item.Null?
  {
    var supplies := ItemSupplies(items, 0, path);
    if item :| item in items && !item.Null? {
      var i :| 0 <= i < |items| && items[i] == item;
      assert Supply(items[i], path + [Index(i)]) in supplies;
    }
    if supplies != [] { assert supplies[0] in supplies; }
  }

  function FirstSpelling(target: Target, keys: seq<string>): Option<string> {
    if keys == [] then None else if target.spells(keys[0]) then Some(keys[0]) else FirstSpelling(target, keys[1..])
  }

  /** The requested spelling if the document has it, else the first other one it has, else the requested one. */
  function ChosenKey(target: Target, source: string): string {
    if source in target.fields then source
    else if FirstSpelling(target, target.keys).Some? then FirstSpelling(target, target.keys).value else source
  }

  /** The chosen spelling: as requested, if the document has it or spells the property nowhere; else its first one. */
  lemma {:induction false} FirstSpellingIsFirst(target: Target, keys: seq<string>)
    ensures var first := FirstSpelling(target, keys);
            && (first.None? <==> forall key <- keys :: !target.spells(key))
            && (first.Some? ==> exists i :: 0 <= i < |keys| && keys[i] == first.value && target.spells(keys[i])
                                         && forall j | 0 <= j < i :: !target.spells(keys[j]))
  {
    if keys != [] {
      FirstSpellingIsFirst(target, keys[1..]);
      assert forall key :: key in keys <==> key == keys[0] || key in keys[1..];
      if !target.spells(keys[0]) && FirstSpelling(target, keys[1..]).Some? {
        var k :| 0 <= k < |keys| - 1 && keys[1..][k] == FirstSpelling(target, keys[1..]).value
                 && target.spells(keys[1..][k]) && forall j | 0 <= j < k :: !target.spells(keys[1..][j]);
        forall j | 0 <= j < k + 1 ensures !target.spells(keys[j]) { if j > 0 { assert keys[j] == keys[1..][j - 1]; } }
        assert keys[k + 1] == keys[1..][k];
      }
    }
  }

  lemma ChosenKeyInWords(target: Target, source: string)
    ensures var key := ChosenKey(target, source);
            && (source in target.fields || (forall other <- target.keys :: !target.spells(other)) ==> key == source)
            && (source !in target.fields && (exists other <- target.keys :: target.spells(other)) ==>
                  exists i :: 0 <= i < |target.keys| && target.keys[i] == key && target.spells(key)
                              && forall j | 0 <= j < i :: !target.spells(target.keys[j]))
  {
    FirstSpellingIsFirst(target, target.keys);
  }

  /** A value a key supplies: its own, at its path, or an item of its list, at the item's; null is none. */
  ghost predicate IsSupply(heap: Heap, target: Target, key: string, supply: Supply) {
    && key in target.fields && target.spells(key)
    && var v := target.fields[key];
       if IsList(heap, v) then
         exists i :: 0 <= i < |heap[v.id].items| && heap[v.id].items[i] != Null
           && supply == Supply(heap[v.id].items[i], target.path + [Key(key), Index(i)])
       else v != Null && supply == Supply(v, target.path + [Key(key)])
  }

  lemma {:induction false} SuppliesInWords(heap: Heap, target: Target, keys: seq<string>)
    ensures forall supply :: supply in Supplies(heap, target, keys) <==>
                               exists key <- keys :: IsSupply(heap, target, key, supply)
  {
    if keys != [] {
      SuppliesInWords(heap, target, keys[1..]);
      assert forall key :: key in keys <==> key == keys[0] || key in keys[1..];
      forall supply ensures supply in KeySupplies(heap, target, keys[0]) <==> IsSupply(heap, target, keys[0], supply) {
        KeySuppliesInWords(heap, target, keys[0], supply);
      }
      hide IsSupply, KeySupplies;
    }
  }

  lemma KeySuppliesInWords(heap: Heap, target: Target, key: string, supply: Supply)
    ensures supply in KeySupplies(heap, target, key) <==> IsSupply(heap, target, key, supply)
  {
    var path := target.path + [Key(key)];
    assert forall i: nat :: path + [Index(i)] == target.path + [Key(key), Index(i)];
  }

  /** The position of the omission at a path. */
  function OmissionAt(changes: seq<Change>, path: FieldPath): (found: Option<nat>)
    ensures found.Some? ==> found.value < |changes| && changes[found.value].Remove? && changes[found.value].path == path
    ensures found.None? ==> forall change <- changes :: !(change.Remove? && change.path == path)
  {
    if changes == [] then None
    else if changes[0].Remove? && changes[0].path == path then Some(0)
    else
      var rest := OmissionAt(changes[1..], path);
      if rest.None? then None else Some(rest.value + 1)
  }

  function WithoutOmission(changes: seq<Change>, path: FieldPath): seq<Change> {
    var found := OmissionAt(changes, path);
    if found.None? then changes else changes[..found.value] + changes[found.value + 1..]
  }

  function Conflicts(supplies: seq<Supply>): (diagnostics: seq<Diagnostic>)
    ensures |diagnostics| == |supplies|
    ensures forall i | 0 <= i < |supplies| :: diagnostics[i] == Diagnostic(ServerOwnedFieldConflict, supplies[i].path)
  {
    seq(|supplies|, i requires 0 <= i < |supplies| => Diagnostic(ServerOwnedFieldConflict, supplies[i].path))
  }

  /** Every path is changed at most once. */
  ghost predicate OncePerPath(changes: seq<Change>) {
    forall i, j | 0 <= i < j < |changes| :: changes[i].path != changes[j].path
  }

  /** No server value has been assigned at a path yet. */
  ghost predicate Unassigned(changes: seq<Change>, path: FieldPath) {
    forall change <- changes | change.path == path :: change.Remove?
  }

  method ReportConflicts(supplies: seq<Supply>, reporter: Reporter)
    requires reporter.Valid()
    modifies reporter
    ensures reporter.Valid() && reporter.reported == old(reporter.reported) + Conflicts(supplies)
  {
    hide Shown, Finished;
    for i := 0 to |supplies|
      invariant reporter.Valid() && reporter.reported == old(reporter.reported) + Conflicts(supplies)[..i]
    {
      assert Conflicts(supplies)[..i + 1] == Conflicts(supplies)[..i] + [Conflicts(supplies)[i]];
      reporter.Report(Diagnostic(ServerOwnedFieldConflict, supplies[i].path));
    }
    assert Conflicts(supplies)[..|supplies|] == Conflicts(supplies);
  }

  /**
   * Compares what a document supplies for a server-owned property with the server's value: the same
   * single value is kept, anything else conflicts at every place, and nothing at all is filled in.
   */
  method ProposeServerField(heap: Heap, target: Target, source: string, value: string, reporter: Reporter,
                            changes: seq<Change>)
    returns (after: seq<Change>)
    requires target.Valid() && reporter.Valid()
    modifies reporter
    ensures reporter.Valid()
    ensures var supplies := Supplies(heap, target, target.keys);
            if supplies == [] then
              var key := ChosenKey(target, source);
              var path := target.path + [Key(key)];
              && reporter.reported == old(reporter.reported)
              && after == WithoutOmission(changes, path)
                        + [if key in target.fields then Replace(path, target.fields[key], Str(value))
                           else Add(path, Str(value))]
            else
              && after == changes
              && reporter.reported == old(reporter.reported)
                 + (if |supplies| == 1 && supplies[0].entry == Str(value) then [] else Conflicts(supplies))
  {
    hide Supplies, WithoutOmission, ChosenKey, Conflicts;
    var supplies := Supplies(heap, target, target.keys);
    after := changes;
    if supplies != [] {
      if |supplies| != 1 || supplies[0].entry != Str(value) {
        ReportConflicts(supplies, reporter);
      }
      return;
    }
    var key := ChosenKey(target, source);
    var path := target.path + [Key(key)];
    after := WithoutOmission(after, path);
    after := after
        + [if key in target.fields then Replace(path, target.fields[key], Str(value)) else Add(path, Str(value))];
  }

  lemma KeptAreOthers(changes: seq<Change>, path: FieldPath, k: nat)
    requires OncePerPath(changes) && k < |changes| && changes[k].path == path
    ensures forall c :: c in changes[..k] + changes[k + 1..] <==> c in changes && c.path != path
  {
    var kept := changes[..k] + changes[k + 1..];
    forall c ensures c in kept <==> c in changes && c.path != path {
      if c in changes && c.path != path {
        var i :| 0 <= i < |changes| && changes[i] == c;
        assert kept[if i < k then i else i - 1] == c;
      }
      if c in kept {
        var i :| 0 <= i < |kept| && kept[i] == c;
        assert changes[if i < k then i else i + 1] == c;
      }
    }
  }

  lemma KeptOncePerPath(changes: seq<Change>, k: nat)
    requires OncePerPath(changes) && k < |changes|
    ensures OncePerPath(changes[..k] + changes[k + 1..])
  {
    var kept := changes[..k] + changes[k + 1..];
    forall i, j | 0 <= i < j < |kept| ensures kept[i].path != kept[j].path {
      assert kept[i] == changes[if i < k then i else i + 1] && kept[j] == changes[if j < k then j else j + 1];
    }
  }

  lemma OneMoreChange(changes: seq<Change>, change: Change)
    requires OncePerPath(changes) && forall c <- changes :: c.path != change.path
    ensures OncePerPath(changes + [change])
  {
  }

  /** An assignment takes the place of the omission at its path: still, no path is changed twice. */
  lemma AssignmentReplacesOmission(changes: seq<Change>, path: FieldPath, change: Change)
    requires OncePerPath(changes) && Unassigned(changes, path) && change.path == path && !change.Remove?
    ensures OncePerPath(WithoutOmission(changes, path) + [change])
    ensures forall c ::
              c in WithoutOmission(changes, path) + [change] <==> c == change || (c in changes && c.path != path)
  {
    hide OncePerPath;
    var found, kept := OmissionAt(changes, path), WithoutOmission(changes, path);
    if found.Some? {
      KeptAreOthers(changes, path, found.value);
      KeptOncePerPath(changes, found.value);
    } else {
      forall c <- changes ensures c.path != path { assert c.Remove? || c.path != path; }
    }
    OneMoreChange(kept, change);
  }
}
