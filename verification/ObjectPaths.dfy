/** The JSON objects of a received document, by path: finding them, reading one, and putting another in its place. */
module ObjectPaths {
  import opened Wrappers

  /** `Undefined` is what reading a missing member gives. */
  datatype Tree = Undefined | Scalar(n: int) | Arr(items: seq<Tree>) | Obj(entries: seq<Entry>)
  datatype Entry = Entry(key: string, value: Tree)
  datatype Part = Index(i: nat) | Key(key: string)
  type Path = seq<Part>

  /** No object has a key twice. */
  ghost predicate WellFormed(json: Tree) {
    match json
    case Arr(items) => forall item <- items :: WellFormed(item)
    case Obj(entries) =>
      && (forall i, j | 0 <= i < j < |entries| :: entries[i].key != entries[j].key)
      && (forall entry <- entries :: WellFormed(entry.value))
    case _ => true
  }

  function Find(entries: seq<Entry>, key: string): (found: Option<nat>)
    ensures found.Some? ==> found.value < |entries| && entries[found.value].key == key
    ensures found.None? ==> forall entry <- entries :: entry.key != key
  {
    if entries == [] then None
    else if entries[0].key == key then Some(0)
    else
      var rest := Find(entries[1..], key);
      if rest.None? then None else Some(rest.value + 1)
  }

  /** One step into a value; `None` where there is nothing. */
  function Child(json: Tree, part: Part): Option<Tree> {
    if json.Arr? && part.Index? && part.i < |json.items| then Some(json.items[part.i])
    else if json.Obj? && part.Key? && Find(json.entries, part.key).Some?
      then Some(json.entries[Find(json.entries, part.key).value].value)
    else None
  }

  /** The value at a path, if the path leads anywhere. */
  function At(json: Tree, path: Path): Option<Tree>
    decreases |path|
  {
    if path == [] then Some(json)
    else
      match At(json, path[..|path| - 1])
      case None => None
      case Some(parent) => Child(parent, path[|path| - 1])
  }

  function ValueAt(json: Tree, path: Path): Tree {
    var found := At(json, path);
    if found.Some? then found.value else Undefined
  }

  predicate Contextless(path: Path) { Key("@context") !in path }

  // ------------------------------------------------------------ listing the objects

  datatype Place = Place(value: Tree, path: Path)

  function ItemPlaces(items: seq<Tree>, from: nat, path: Path): (places: seq<Place>)
    ensures |places| == if from < |items| then |items| - from else 0
    ensures forall i | 0 <= i < |places| :: places[i] == Place(items[from + i], path + [Index(from + i)])
    decreases |items| - from
  {
    if from >= |items| then [] else [Place(items[from], path + [Index(from)])] + ItemPlaces(items, from + 1, path)
  }

  function EntryPlaces(entries: seq<Entry>, path: Path): (places: seq<Place>)
    ensures forall place <- places :: exists entry <- entries ::
      entry.key != "@context" && place == Place(entry.value, path + [Key(entry.key)])
    ensures forall entry <- entries | entry.key != "@context" :: Place(entry.value, path + [Key(entry.key)]) in places
  {
    if entries == [] then []
    else
      (if entries[0].key == "@context" then [] else [Place(entries[0].value, path + [Key(entries[0].key)])])
          + EntryPlaces(entries[1..], path)
  }

  /** The values directly inside a value, but contexts. */
  function Children(place: Place): seq<Place> {
    match place.value
    case Arr(items) => ItemPlaces(items, 0, place.path)
    case Obj(entries) => EntryPlaces(entries, place.path)
    case _ => []
  }

  function AllChildren(level: seq<Place>): seq<Place> {
    if level == [] then [] else Children(level[0]) + AllChildren(level[1..])
  }

  function ObjectsOf(level: seq<Place>): (paths: seq<Path>)
    ensures forall path :: path in paths <==> exists place <- level :: place.value.Obj? && place.path == path
  {
    if level == [] then [] else (if level[0].value.Obj? then [level[0].path] else []) + ObjectsOf(level[1..])
  }

  // The number of values in a document bounds the search.
  function Size(json: Tree): nat {
    match json
    case Arr(items) => 1 + ItemsSize(items)
    case Obj(entries) => 1 + EntriesSize(entries)
    case _ => 1
  }

  function ItemsSize(items: seq<Tree>): nat {
    if items == [] then 0 else Size(items[0]) + ItemsSize(items[1..])
  }

  function EntriesSize(entries: seq<Entry>): nat {
    if entries == [] then 0 else Size(entries[0].value) + EntriesSize(entries[1..])
  }

  function LevelSize(level: seq<Place>): nat {
    if level == [] then 0 else Size(level[0].value) + LevelSize(level[1..])
  }

  lemma {:induction false} LevelSizeConcat(some: seq<Place>, rest: seq<Place>)
    ensures LevelSize(some + rest) == LevelSize(some) + LevelSize(rest)
  {
    if some == [] {
      assert some + rest == rest;
    } else {
      assert (some + rest)[1..] == some[1..] + rest;
      LevelSizeConcat(some[1..], rest);
    }
  }

  lemma {:induction false} ItemPlacesSize(items: seq<Tree>, from: nat, path: Path)
    requires from <= |items|
    ensures LevelSize(ItemPlaces(items, from, path)) == ItemsSize(items[from..])
    decreases |items| - from
  {
    if from < |items| {
      ItemPlacesSize(items, from + 1, path);
      assert items[from..][1..] == items[from + 1..];
      var rest := ItemPlaces(items, from + 1, path);
      assert ItemPlaces(items, from, path)[1..] == rest;
    }
  }

  lemma {:induction false} EntryPlacesSize(entries: seq<Entry>, path: Path)
    ensures LevelSize(EntryPlaces(entries, path)) <= EntriesSize(entries)
  {
    if entries != [] {
      EntryPlacesSize(entries[1..], path);
      var rest := EntryPlaces(entries[1..], path);
      var first := if entries[0].key == "@context" then [] else [Place(entries[0].value, path + [Key(entries[0].key)])];
      LevelSizeConcat(first, rest);
      assert first != [] ==> LevelSize(first) == Size(entries[0].value) by { assert first != [] ==> first[1..] == []; }
    }
  }

  lemma ChildrenAreSmaller(place: Place)
    ensures LevelSize(Children(place)) < Size(place.value)
  {
    match place.value
    case Arr(items) => ItemPlacesSize(items, 0, place.path); assert items[0..] == items;
    case Obj(entries) => EntryPlacesSize(entries, place.path);
    case _ =>
  }

  lemma {:induction false} NextLevelIsSmaller(level: seq<Place>)
    ensures level != [] ==> LevelSize(AllChildren(level)) < LevelSize(level)
    ensures level == [] ==> AllChildren(level) == []
  {
    if level != [] {
      ChildrenAreSmaller(level[0]);
      NextLevelIsSmaller(level[1..]);
      LevelSizeConcat(Children(level[0]), AllChildren(level[1..]));
    }
  }

  /** A level holds the places of the paths of one length, each once. */
  ghost predicate IsLevel(json: Tree, level: seq<Place>, n: nat) {
    && (forall place <- level ::
          |place.path| == n && Contextless(place.path) && At(json, place.path) == Some(place.value))
    && (forall path: Path | |path| == n && Contextless(path) && At(json, path).Some? ::
          Place(At(json, path).value, path) in level)
    && (forall i, j | 0 <= i < j < |level| :: level[i].path != level[j].path)
  }

  lemma {:induction false} InAllChildren(level: seq<Place>, child: Place)
    ensures child in AllChildren(level) <==> exists place <- level :: child in Children(place)
  {
    if level != [] {
      InAllChildren(level[1..], child);
      assert forall place :: place in level <==> place == level[0] || place in level[1..];
    }
  }

  /** The children of a place are what one more step reaches, without contexts. */
  lemma ChildrenAreSteps(place: Place, child: Place)
    requires WellFormed(place.value)
    ensures child in Children(place)
       <==> exists part ::
           part != Key("@context") && child.path == place.path + [part] && Child(place.value, part) == Some(child.value)
  {
    if child in Children(place) {
      match place.value
      case Arr(items) =>
        var i :| 0 <= i < |Children(place)| && Children(place)[i] == child;
        assert Child(place.value, Index(i)) == Some(child.value);
      case Obj(entries) =>
        var entry :| entry in entries && entry.key != "@context"
          && child == Place(entry.value, place.path + [Key(entry.key)]);
        FindsEntry(entries, entry);
        assert Child(place.value, Key(entry.key)) == Some(child.value);
    }
    if part :|
      part != Key("@context") && child.path == place.path + [part] && Child(place.value, part) == Some(child.value)
    {
      if place.value.Arr? {
        assert Children(place)[part.i] == child;
      } else {
        var entry := place.value.entries[Find(place.value.entries, part.key).value];
        assert entry in place.value.entries;
      }
    }
  }

  lemma FindsEntry(entries: seq<Entry>, entry: Entry)
    requires entry in entries && forall i, j | 0 <= i < j < |entries| :: entries[i].key != entries[j].key
    ensures Find(entries, entry.key).Some? && entries[Find(entries, entry.key).value] == entry
  {
    var i :| 0 <= i < |entries| && entries[i] == entry;
  }

  ghost predicate DistinctPaths(level: seq<Place>) {
    forall i, j | 0 <= i < j < |level| :: level[i].path != level[j].path
  }

  lemma {:induction false} EntriesAreDistinct(entries: seq<Entry>, path: Path)
    requires forall i, j | 0 <= i < j < |entries| :: entries[i].key != entries[j].key
    ensures DistinctPaths(EntryPlaces(entries, path))
  {
    if entries != [] {
      assert forall i | 0 <= i < |entries| - 1 :: entries[1..][i] == entries[i + 1];
      EntriesAreDistinct(entries[1..], path);
      var rest := EntryPlaces(entries[1..], path);
      forall place <- rest ensures place.path != path + [Key(entries[0].key)] {
        var entry :| entry in entries[1..] && place == Place(entry.value, path + [Key(entry.key)]);
        var i :| 0 <= i < |entries[1..]| && entries[1..][i] == entry;
        assert place.path[|path|] == Key(entry.key) && (path + [Key(entries[0].key)])[|path|] == Key(entries[0].key);
      }
    }
  }

  lemma ChildrenAreDistinct(place: Place)
    requires WellFormed(place.value)
    ensures DistinctPaths(Children(place))
  {
    match place.value
    case Arr(items) =>
      var places := Children(place);
      forall i, j | 0 <= i < j < |places| ensures places[i].path != places[j].path {
        assert places[i].path[|place.path|] == Index(i) && places[j].path[|place.path|] == Index(j);
      }
    case Obj(entries) => EntriesAreDistinct(entries, place.path);
    case _ =>
  }

  lemma ChildrenExtend(place: Place)
    requires WellFormed(place.value)
    ensures forall child <- Children(place) ::
              |child.path| == |place.path| + 1 && child.path[..|place.path|] == place.path
  {
    forall child <- Children(place)
      ensures |child.path| == |place.path| + 1 && child.path[..|place.path|] == place.path {
      ChildrenAreSteps(place, child);
    }
  }

  lemma DistinctConcat(some: seq<Place>, rest: seq<Place>)
    requires DistinctPaths(some) && DistinctPaths(rest)
    requires forall a, b | a in some && b in rest :: a.path != b.path
    ensures DistinctPaths(some + rest)
  {
    var all := some + rest;
    forall i, j | 0 <= i < j < |all| ensures all[i].path != all[j].path {
      if i < |some| <= j { assert all[i] in some && all[j] in rest; }
    }
  }

  /** No two places of the next level share a path. */
  lemma {:induction false} AllChildrenAreDistinct(level: seq<Place>, n: nat)
    requires DistinctPaths(level) && forall place <- level :: WellFormed(place.value) && |place.path| == n
    ensures DistinctPaths(AllChildren(level))
    ensures forall child <- AllChildren(level) ::
              |child.path| == n + 1 && exists place <- level :: child.path[..n] == place.path
  {
    hide WellFormed, Children;
    if level != [] {
      assert forall i | 0 <= i < |level| - 1 :: level[1..][i] == level[i + 1];
      AllChildrenAreDistinct(level[1..], n);
      ChildrenAreDistinct(level[0]);
      ChildrenExtend(level[0]);
      var some, rest := Children(level[0]), AllChildren(level[1..]);
      forall a, b | a in some && b in rest ensures a.path != b.path {
        var place :| place in level[1..] && b.path[..n] == place.path;
        var i :| 0 <= i < |level[1..]| && level[1..][i] == place;
        assert level[0].path != level[i + 1].path;
      }
      DistinctConcat(some, rest);
      forall child <- AllChildren(level)
        ensures |child.path| == n + 1 && exists place <- level :: child.path[..n] == place.path {
        if child in some {
          assert child.path[..n] == level[0].path && level[0] in level;
        } else {
          var place :| place in level[1..] && child.path[..n] == place.path;
          assert place in level;
        }
      }
    }
  }

  lemma {:induction false} PartsAreWellFormed(json: Tree, path: Path)
    requires WellFormed(json) && At(json, path).Some?
    ensures WellFormed(At(json, path).value)
    decreases |path|
  {
    if path != [] {
      PartsAreWellFormed(json, path[..|path| - 1]);
      var parent := At(json, path[..|path| - 1]).value;
      StepIsWellFormed(parent, path[|path| - 1]);
    }
  }

  lemma StepIsWellFormed(json: Tree, part: Part)
    requires WellFormed(json) && Child(json, part).Some?
    ensures WellFormed(Child(json, part).value)
  {
    if json.Arr? {
      assert json.items[part.i] in json.items;
    } else {
      assert json.entries[Find(json.entries, part.key).value] in json.entries;
    }
  }

  lemma AtChild(json: Tree, path: Path, part: Part)
    ensures At(json, path + [part]) == if At(json, path).Some? then Child(At(json, path).value, part) else None
    ensures Contextless(path + [part]) <==> Contextless(path) && part != Key("@context")
  {
    assert (path + [part])[..|path|] == path;
  }

  /** One step further from a level is the next level. */
  lemma NextIsLevel(json: Tree, level: seq<Place>, n: nat)
    requires WellFormed(json) && IsLevel(json, level, n)
    ensures IsLevel(json, AllChildren(level), n + 1)
  {
    hide WellFormed, Children, Child, At, AllChildren;
    forall place <- level ensures WellFormed(place.value) { PartsAreWellFormed(json, place.path); }
    AllChildrenAreDistinct(level, n);
    forall child <- AllChildren(level)
      ensures |child.path| == n + 1 && Contextless(child.path) && At(json, child.path) == Some(child.value)
    {
      InAllChildren(level, child);
      var place :| place in level && child in Children(place);
      ChildrenAreSteps(place, child);
      var part :| part != Key("@context") && child.path == place.path + [part]
        && Child(place.value, part) == Some(child.value);
      AtChild(json, place.path, part);
    }
    forall path: Path | |path| == n + 1 && Contextless(path) && At(json, path).Some?
      ensures Place(At(json, path).value, path) in AllChildren(level)
    {
      var init, part := path[..n], path[n];
      assert path == init + [part];
      AtChild(json, init, part);
      var place, child := Place(At(json, init).value, init), Place(At(json, path).value, path);
      assert place in level;
      ChildrenAreSteps(place, child);
      InAllChildren(level, child);
    }
  }

  /** What the search has listed: the objects at contextless paths shorter than `n`, each once, shorter paths first. */
  ghost predicate Listed(json: Tree, paths: seq<Path>, n: nat) {
    && (forall path ::
          path in paths <==> |path| < n && Contextless(path) && At(json, path).Some? && At(json, path).value.Obj?)
    && (forall i, j | 0 <= i < j < |paths| :: paths[i] != paths[j] && |paths[i]| <= |paths[j]|)
  }

  lemma {:induction false} ObjectsAreDistinct(level: seq<Place>)
    requires DistinctPaths(level)
    ensures forall i, j | 0 <= i < j < |ObjectsOf(level)| :: ObjectsOf(level)[i] != ObjectsOf(level)[j]
  {
    if level != [] {
      var rest := ObjectsOf(level[1..]);
      assert forall i | 0 <= i < |level| - 1 :: level[1..][i] == level[i + 1];
      ObjectsAreDistinct(level[1..]);
      forall path <- rest ensures path != level[0].path {
        var place :| place in level[1..] && place.path == path;
        var i :| 0 <= i < |level[1..]| && level[1..][i] == place;
        assert level[0].path != level[i + 1].path;
      }
      var all := ObjectsOf(level);
      assert all == rest || all == [level[0].path] + rest;
      forall i, j | 0 <= i < j < |all| ensures all[i] != all[j] {
        if |all| > |rest| {
          assert all == [level[0].path] + rest;
          assert all[j] == rest[j - 1] && rest[j - 1] in rest;
          if i > 0 { assert all[i] == rest[i - 1]; }
        }
      }
    }
  }

  lemma ObjectsOfLevel(json: Tree, level: seq<Place>, n: nat)
    requires IsLevel(json, level, n)
    ensures forall path :: path in ObjectsOf(level)
              <==> |path| == n && Contextless(path) && At(json, path).Some? && At(json, path).value.Obj?
  {
    hide At, Contextless;
    forall path
      ensures path in ObjectsOf(level) <==>
                |path| == n && Contextless(path) && At(json, path).Some? && At(json, path).value.Obj?
    {
      if path in ObjectsOf(level) { var place :| place in level && place.value.Obj? && place.path == path; }
    }
  }

  lemma LongerFollow(paths: seq<Path>, objects: seq<Path>, n: nat)
    requires forall i, j | 0 <= i < j < |paths| :: paths[i] != paths[j] && |paths[i]| <= |paths[j]|
    requires forall i, j | 0 <= i < j < |objects| :: objects[i] != objects[j]
    requires (forall path <- paths :: |path| < n) && (forall path <- objects :: |path| == n)
    ensures var more := paths + objects; forall i, j | 0 <= i < j < |more| ::
              more[i] != more[j] && |more[i]| <= |more[j]|
  {
    var more := paths + objects;
    forall i, j | 0 <= i < j < |more| ensures more[i] != more[j] && |more[i]| <= |more[j]| {
      if j < |paths| {
        assert more[i] == paths[i] && more[j] == paths[j];
      } else if i < |paths| {
        assert more[i] in paths && more[j] in objects;
      } else {
        assert more[i] == objects[i - |paths|] && more[j] == objects[j - |paths|];
        assert more[i] in objects && more[j] in objects;
      }
    }
  }

  lemma OneMoreLevel(json: Tree, paths: seq<Path>, level: seq<Place>, n: nat)
    requires Listed(json, paths, n) && IsLevel(json, level, n)
    ensures Listed(json, paths + ObjectsOf(level), n + 1)
  {
    hide At, Contextless, ObjectsOf;
    ObjectsAreDistinct(level);
    ObjectsOfLevel(json, level, n);
    LongerFollow(paths, ObjectsOf(level), n);
  }

  lemma LevelHolds(json: Tree, level: seq<Place>, n: nat, path: Path)
    requires IsLevel(json, level, n) && |path| == n && Contextless(path) && At(json, path).Some?
    ensures level != []
  {
    hide At;
    assert Place(At(json, path).value, path) in level;
  }

  lemma {:induction false} NothingDeeper(json: Tree, n: nat, path: Path)
    requires IsLevel(json, [], n) && |path| >= n && Contextless(path)
    ensures At(json, path).None?
    decreases |path|
  {
    if |path| == n {
      if At(json, path).Some? { LevelHolds(json, [], n, path); }
    } else {
      NothingDeeper(json, n, path[..|path| - 1]);
    }
  }

  /** Every JSON object of a document outside its contexts, once each, shallowest first. */
  method ObjectPaths(json: Tree) returns (paths: seq<Path>)
    requires WellFormed(json)
    ensures forall path :: path in paths <==> Contextless(path) && At(json, path).Some? && At(json, path).value.Obj?
    ensures forall i, j | 0 <= i < j < |paths| :: paths[i] != paths[j] && |paths[i]| <= |paths[j]|
  {
    hide WellFormed, At, AllChildren, LevelSize, IsLevel;
    paths := [];
    var level := [Place(json, [])];
    ghost var n := 0;
    FirstLevel(json);
    while level != []
      invariant IsLevel(json, level, n) && Listed(json, paths, n)
      decreases LevelSize(level)
    {
      OneMoreLevel(json, paths, level, n);
      NextIsLevel(json, level, n);
      NextLevelIsSmaller(level);
      paths := paths + ObjectsOf(level);
      level := AllChildren(level);
      n := n + 1;
    }
    forall path: Path | |path| >= n && Contextless(path) ensures At(json, path).None? { NothingDeeper(json, n, path); }
  }

  lemma FirstLevel(json: Tree)
    ensures IsLevel(json, [Place(json, [])], 0)
  {
  }

  // ------------------------------------------------------------ reading and replacing

  function Put(entries: seq<Entry>, key: string, value: Tree): (after: seq<Entry>)
  {
    var found := Find(entries, key);
    if found.Some? then entries[found.value := Entry(key, value)] else entries + [Entry(key, value)]
  }

  function Member(json: Tree, part: Part): Tree {
    var child := Child(json, part);
    if child.Some? then child.value else Undefined
  }

  /** The document with another value at a path; a missing array index changes nothing, a missing member is added. */
  function ReplaceAt(json: Tree, path: Path, value: Tree): Tree
    decreases |path|
  {
    if path == [] then value
    else
      match json
      case Arr(items) =>
        if path[0].Index? && path[0].i < |items|
          then Arr(items[path[0].i := ReplaceAt(items[path[0].i], path[1..], value)]) else json
      case Obj(entries) =>
        if path[0].Key? then Obj(Put(entries, path[0].key, ReplaceAt(Member(json, path[0]), path[1..], value)))
          else json
      case _ => json
  }

  /** A path can be followed from its first step. */
  lemma {:induction false} AtFirst(json: Tree, path: Path)
    requires path != []
    ensures At(json, path) == if Child(json, path[0]).Some? then At(Child(json, path[0]).value, path[1..]) else None
    decreases |path|
  {
    hide Child;
    if |path| == 1 {
      assert path[..0] == [] && path[1..] == [];
    } else {
      var init, last := path[..|path| - 1], path[|path| - 1];
      AtFirst(json, init);
      assert init[0] == path[0] && init[1..] == path[1..][..|path[1..]| - 1] && path[1..][|path[1..]| - 1] == last;
    }
  }

  lemma PutOfFirst(entries: seq<Entry>, key: string, value: Tree)
    requires entries != []
    ensures Put(entries, key, value)
         == if entries[0].key == key then [Entry(key, value)] + entries[1..]
           else [entries[0]] + Put(entries[1..], key, value)
  {
  }

  lemma {:induction false} FindPut(entries: seq<Entry>, key: string, value: Tree)
    ensures var after := Put(entries, key, value);
            Find(after, key).Some?
            && after[Find(after, key).value].value == value
  {
    hide Put;
    if entries == [] {
      PutInNothing(key, value);
    } else {
      PutOfFirst(entries, key, value);
      FindPut(entries[1..], key, value);
      assert ([entries[0]] + Put(entries[1..], key, value))[1..] == Put(entries[1..], key, value);
    }
  }

  lemma PutInNothing(key: string, value: Tree)
    ensures Put([], key, value) == [Entry(key, value)]
  {
  }

  lemma {:induction false} FindPutOther(entries: seq<Entry>, key: string, value: Tree, other: string)
    requires other != key
    ensures var after := Put(entries, key, value);
            && (Find(after, other).Some? <==> Find(entries, other).Some?)
            && (Find(entries, other).Some? ==>
                  after[Find(after, other).value].value == entries[Find(entries, other).value].value)
  {
    hide Put;
    if entries == [] {
      PutInNothing(key, value);
    } else {
      PutOfFirst(entries, key, value);
      FindPutOther(entries[1..], key, value, other);
      assert ([entries[0]] + Put(entries[1..], key, value))[1..] == Put(entries[1..], key, value);
      assert ([Entry(key, value)] + entries[1..])[1..] == entries[1..];
    }
  }

  /** The step a replacement takes first leads to the replaced part, and every other step where it led before. */
  lemma ReplaceSteps(json: Tree, path: Path, value: Tree, part: Part)
    requires path != [] && Child(json, path[0]).Some?
    ensures var after := ReplaceAt(json, path, value);
            && Child(after, path[0]) == Some(ReplaceAt(Child(json, path[0]).value, path[1..], value))
            && (part != path[0] ==> Child(after, part) == Child(json, part))
  {
    if json.Obj? {
      var inner := ReplaceAt(Member(json, path[0]), path[1..], value);
      FindPut(json.entries, path[0].key, inner);
      if part.Key? && part != path[0] { FindPutOther(json.entries, path[0].key, inner, part.key); }
    }
  }

  /** Reading what was put gives it back. */
  lemma {:induction false} PutThenGet(json: Tree, path: Path, value: Tree)
    requires At(json, path).Some?
    ensures ValueAt(ReplaceAt(json, path, value), path) == value
    decreases |path|
  {
    hide Child, At;
    if path == [] {
      AtNothing(json);
      AtNothing(value);
    } else {
      AtFirst(json, path);
      PutThenGet(Child(json, path[0]).value, path[1..], value);
      ReplaceSteps(json, path, value, path[0]);
      AtFirst(ReplaceAt(json, path, value), path);
    }
  }

  lemma AtNothing(json: Tree)
    ensures At(json, []) == Some(json)
  {
  }

  /** Putting back what was read changes nothing. */
  lemma {:induction false} GetThenPut(json: Tree, path: Path)
    requires At(json, path).Some?
    ensures ReplaceAt(json, path, ValueAt(json, path)) == json
    decreases |path|
  {
    hide At;
    if path == [] {
      AtNothing(json);
    } else {
      AtFirst(json, path);
      GetThenPut(Child(json, path[0]).value, path[1..]);
      match json
      case Arr(items) =>
      case Obj(entries) =>
        var found := Find(entries, path[0].key).value;
        assert entries[found] == Entry(path[0].key, entries[found].value);
    }
  }

  /** The second of two replacements at one path wins. */
  lemma {:induction false} PutTwice(json: Tree, path: Path, value: Tree, other: Tree)
    requires At(json, path).Some?
    ensures ReplaceAt(ReplaceAt(json, path, value), path, other) == ReplaceAt(json, path, other)
    decreases |path|
  {
    hide At;
    if path != [] {
      AtFirst(json, path);
      var inner := Child(json, path[0]).value;
      PutTwice(inner, path[1..], value, other);
      match json
      case Arr(items) =>
      case Obj(entries) =>
          PutEntriesTwice(entries, path[0].key, ReplaceAt(inner, path[1..], value), ReplaceAt(inner, path[1..], other));
    }
  }

  lemma PutEntriesTwice(entries: seq<Entry>, key: string, value: Tree, other: Tree)
    requires Find(entries, key).Some?
    ensures Find(Put(entries, key, value), key).Some?
            && Put(Put(entries, key, value), key, other) == Put(entries, key, other)
    ensures var after := Put(entries, key, value); after[Find(after, key).value].value == value
  {
    FindPut(entries, key, value);
    SamePlace(entries, key, value);
  }

  lemma {:induction false} SamePlace(entries: seq<Entry>, key: string, value: Tree)
    requires Find(entries, key).Some?
    ensures Find(Put(entries, key, value), key) == Find(entries, key)
  {
    if entries[0].key != key {
      SamePlace(entries[1..], key, value);
      assert Put(entries, key, value)[1..] == Put(entries[1..], key, value);
    }
  }

  predicate IsPrefix(some: Path, all: Path) {
    |some| <= |all| && all[..|some|] == some
  }

  /** A replacement leaves every path alone that neither leads to its own nor continues it. */
  lemma {:induction false} OthersStay(json: Tree, path: Path, value: Tree, other: Path)
    requires At(json, path).Some? && !IsPrefix(path, other) && !IsPrefix(other, path)
    ensures At(ReplaceAt(json, path, value), other) == At(json, other)
    decreases |path|
  {
    hide At, Child;
    AtFirst(json, path);
    AtFirst(json, other);
    AtFirst(ReplaceAt(json, path, value), other);
    ReplaceSteps(json, path, value, other[0]);
    if other[0] == path[0] {
      TailsStayApart(path, other);
      OthersStay(Child(json, path[0]).value, path[1..], value, other[1..]);
    }
  }

  lemma TailsStayApart(path: Path, other: Path)
    requires path != [] && other != [] && path[0] == other[0] && !IsPrefix(path, other) && !IsPrefix(other, path)
    ensures !IsPrefix(path[1..], other[1..]) && !IsPrefix(other[1..], path[1..])
  {
    assert path == [path[0]] + path[1..] && other == [other[0]] + other[1..];
    assert |path| <= |other| ==> other[..|path|] == [other[0]] + other[1..][..|path| - 1];
    assert |other| <= |path| ==> path[..|other|] == [path[0]] + path[1..][..|other| - 1];
  }

  // ------------------------------------------------------------ the embedded object

  const MAX_PROBES := 64

  /** A place an object may be embedded at: a JSON object outside contexts, but not the document itself. */
  ghost predicate IsPlace(json: Tree, path: Path) {
    path != [] && Contextless(path) && At(json, path).Some? && At(json, path).value.Obj?
  }

  /** All places, each once, shallowest first. */
  ghost predicate ListsPlaces(json: Tree, paths: seq<Path>) {
    && (forall path :: path in paths <==> IsPlace(json, path))
    && InOrder(paths)
  }

  ghost predicate InOrder(paths: seq<Path>) {
    forall i, j | 0 <= i < j < |paths| :: paths[i] != paths[j] && |paths[i]| <= |paths[j]|
  }

  function Inner(paths: seq<Path>): (inner: seq<Path>)
    ensures forall path :: path in inner <==> path in paths && path != []
  {
    if paths == [] then [] else (if paths[0] == [] then [] else [paths[0]]) + Inner(paths[1..])
  }

  lemma {:induction false} InnerKeepsOrder(paths: seq<Path>)
    requires InOrder(paths)
    ensures InOrder(Inner(paths))
  {
    if paths != [] {
      RestInOrder(paths);
      hide InOrder;
      InnerKeepsOrder(paths[1..]);
      if paths[0] != [] { InFront(paths[0], Inner(paths[1..])); } else { assert Inner(paths) == Inner(paths[1..]); }
    }
  }

  lemma RestInOrder(paths: seq<Path>)
    requires InOrder(paths) && paths != []
    ensures InOrder(paths[1..]) && forall path <- paths[1..] :: path != paths[0] && |paths[0]| <= |path|
  {
  }

  lemma InFront(path: Path, rest: seq<Path>)
    requires InOrder(rest) && forall other <- rest :: other != path && |path| <= |other|
    ensures InOrder([path] + rest)
  {
  }

  lemma InnerAreThePlaces(json: Tree, all: seq<Path>)
    requires InOrder(all)
    requires forall path :: path in all <==> Contextless(path) && At(json, path).Some? && At(json, path).value.Obj?
    ensures ListsPlaces(json, Inner(all))
  {
    InnerKeepsOrder(all);
    hide At, InOrder, Contextless;
    forall path ensures path in Inner(all) <==> IsPlace(json, path) { assert path in all <==> path in all; }
  }

  /**
   * The value at the shallowest place that proves to be the activity's object, among the first 64
   * places of the document; nothing if none of these does.
   */
  method EmbeddedObject(json: Tree, isObject: Path -> bool) returns (found: Option<Tree>, ghost places: seq<Path>)
    requires WellFormed(json)
    ensures ListsPlaces(json, places)
    ensures found.Some? ==>
              exists k ::
                && 0 <= k < |places| && k < MAX_PROBES && isObject(places[k])
                && found == Some(ValueAt(json, places[k]))
                && forall j | 0 <= j < k :: !isObject(places[j])
    ensures found.None? ==> forall k | 0 <= k < |places| && k < MAX_PROBES :: !isObject(places[k])
    ensures found.Some? ==>
              exists path :: IsPlace(json, path) && isObject(path) && found == Some(ValueAt(json, path))
                && forall other | IsPlace(json, other) && |other| < |path| :: !isObject(other)
  {
    hide At, Inner, ListsPlaces, IsPlace;
    var all := ObjectPaths(json);
    var paths := Inner(all);
    InnerAreThePlaces(json, all);
    places := paths;
    var limit := if |paths| < MAX_PROBES then |paths| else MAX_PROBES;
    for k := 0 to limit
      invariant forall j | 0 <= j < k :: !isObject(paths[j])
    {
      if isObject(paths[k]) {
        ShallowerCameBefore(json, isObject, places, k);
        return Some(ValueAt(json, paths[k])), places;
      }
    }
    return None, places;
  }

  lemma ShallowerCameBefore(json: Tree, isObject: Path -> bool, places: seq<Path>, k: nat)
    requires ListsPlaces(json, places) && k < |places| && forall j | 0 <= j < k :: !isObject(places[j])
    ensures IsPlace(json, places[k]) && forall other | IsPlace(json, other) && |other| < |places[k]| :: !isObject(other)
  {
    hide IsPlace;
    assert places[k] in places;
    forall other | IsPlace(json, other) && |other| < |places[k]| ensures !isObject(other) {
      assert other in places;
      var j :| 0 <= j < |places| && places[j] == other;
      assert j < k;
    }
  }
}
