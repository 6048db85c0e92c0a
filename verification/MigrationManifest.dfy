/** Migration names, manifests, and the comparison of a manifest with the bundled directories. */
module MigrationManifest {
  import opened Wrappers
  import opened Calendar
  import opened Keyset

  datatype Identity = Identity(name: string, sha256: string)
  /** An entry of a manifest file as read: a name and a hash, or something else. */
  datatype RawEntry = Entry(name: string, sha256: string) | Malformed
  /**
   * A manifest file as read: a record with these keys, the version and the list being `None` when
   * they are no such thing.
   */
  datatype RawManifest =
    | Record(keys: set<string>, formatVersion: Option<int>, migrations: Option<seq<RawEntry>>)
    | NoRecord

  // ------------------------------------------------------------ names

  predicate IsNameChar(c: char) {
    'a' <= c <= 'z' || 'A' <= c <= 'Z' || '0' <= c <= '9' || c == '_' || c == '-'
  }

  predicate IsName(name: string) {
    |name| > 15 && AllDigits(name[..14]) && name[14] == '_' && forall c <- name[15..] :: IsNameChar(c)
  }

  function Stamp(name: string): string
    requires IsName(name)
  {
    name[..14]
  }

  function MomentOf(name: string): Moment
    requires IsName(name)
  {
    Moment(Number(name[..4]), Number(name[4..6]), Number(name[6..8]), Number(name[8..10]), Number(name[10..12]),
           Number(name[12..14]), 0)
  }

  /** The time in a name, in milliseconds since the epoch, if the name has the form and the time exists. */
  function Timestamp(name: string): Option<int> {
    if IsName(name) && MomentOf(name).Valid() then Some(Millis(MomentOf(name))) else None
  }

  lemma StampParts(name: string)
    requires IsName(name)
    ensures Stamp(name) == name[..4] + (name[4..6] + (name[6..8] + (name[8..10] + (name[10..12] + name[12..14]))))
    ensures AllDigits(name[..4]) && AllDigits(name[4..6]) && AllDigits(name[6..8])
    ensures AllDigits(name[8..10]) && AllDigits(name[10..12]) && AllDigits(name[12..14])
    ensures name == Stamp(name) + name[14..]
  {
    assert forall c <- name[..4] + name[4..6] + name[6..8] + name[8..10] + name[10..12] + name[12..14] ::
             c in name[..14];
  }

  /** A name: a time in fourteen digits, year first, then an underscore and a title. */
  function Spelled(t: Moment, title: string): string
    requires t.Valid() && t.year >= 0
  {
    Padded(t.year, 4) + Padded(t.month, 2) + Padded(t.day, 2)
    + Padded(t.hour, 2) + Padded(t.minute, 2) + Padded(t.second, 2) + "_" + title
  }

  const LOWER := "abcdefghijklmnopqrstuvwxyz"
  const UPPER := "ABCDEFGHIJKLMNOPQRSTUVWXYZ"

  predicate IsLabel(title: string) {
    title != "" && forall c <- title :: c in LOWER || c in UPPER || c in "0123456789" || c in "_-"
  }

  lemma LettersAreListed(i: nat)
    requires i < 26
    ensures LOWER[i] == 'a' + i as char && UPPER[i] == 'A' + i as char
  {
  }

  lemma LowerChars(c: char)
    ensures c in LOWER <==> 'a' <= c <= 'z'
  {
    if 'a' <= c <= 'z' { LettersAreListed((c - 'a') as int); }
    if i :| 0 <= i < |LOWER| && LOWER[i] == c { LettersAreListed(i); }
    assert |LOWER| == 26;
    hide LOWER;
  }

  lemma UpperChars(c: char)
    ensures c in UPPER <==> 'A' <= c <= 'Z'
  {
    if 'A' <= c <= 'Z' { LettersAreListed((c - 'A') as int); }
    if i :| 0 <= i < |UPPER| && UPPER[i] == c { LettersAreListed(i); }
    assert |UPPER| == 26;
    hide UPPER;
  }

  lemma LabelChars(c: char)
    ensures IsNameChar(c) <==> c in LOWER || c in UPPER || c in "0123456789" || c in "_-"
  {
    LowerChars(c);
    UpperChars(c);
    hide LOWER, UPPER;
    if '0' <= c <= '9' { assert "0123456789"[(c - '0') as int] == c; }
  }

  lemma LabelsAreNamed(title: string)
    ensures IsLabel(title) <==> title != "" && forall c <- title :: IsNameChar(c)
  {
    hide IsNameChar, LOWER, UPPER;
    forall c <- title
      ensures IsNameChar(c) <==> c in LOWER || c in UPPER || c in "0123456789" || c in "_-"
    {
      LabelChars(c);
    }
  }

  lemma SpelledParts(t: Moment, title: string)
    requires t.Valid() && 0 <= t.year
    ensures var name := Spelled(t, title);
            && |name| == 15 + |title| && name[14] == '_' && name[15..] == title
            && name[..4] == Padded(t.year, 4) && name[4..6] == Padded(t.month, 2) && name[6..8] == Padded(t.day, 2)
            && name[8..10] == Padded(t.hour, 2) && name[10..12] == Padded(t.minute, 2)
            && name[12..14] == Padded(t.second, 2)
  {
    hide Padded;
  }

  /** A well-formed name is read as the time it spells. */
  lemma SpelledNamesAreRead(t: Moment, title: string)
    requires t.Valid() && 0 <= t.year <= 9999 && t.micro == 0 && IsLabel(title)
    ensures Timestamp(Spelled(t, title)) == Some(Millis(t))
  {
    hide Padded, Number, Millis, DaysInMonth, IsLabel;
    LabelsAreNamed(title);
    SpelledParts(t, title);
    assert Power(1) == 10 && Power(2) == 100 && Power(3) == 1000 && Power(4) == 10000;
    assert t.month <= 12 && t.day <= 31 by {
      assert DaysInMonth(t.year, t.month) <= 31 by { MonthsAreShort(t.year, t.month); }
    }
    NumberOfPadded(t.year, 4);
    NumberOfPadded(t.month, 2);
    NumberOfPadded(t.day, 2);
    NumberOfPadded(t.hour, 2);
    NumberOfPadded(t.minute, 2);
    NumberOfPadded(t.second, 2);
    var name := Spelled(t, title);
    assert name[..14] == name[..4] + name[4..6] + name[6..8] + name[8..10] + name[10..12] + name[12..14];
  }

  lemma MonthsAreShort(y: int, m: int)
    ensures DaysInMonth(y, m) <= 31
  {
  }

  /** ... and every name that is read spells its time. */
  lemma ReadNamesAreSpelled(name: string) returns (t: Moment, title: string)
    requires Timestamp(name).Some?
    ensures t.Valid() && 0 <= t.year <= 9999 && t.micro == 0 && IsLabel(title)
    ensures name == Spelled(t, title) && Timestamp(name) == Some(Millis(t))
  {
    hide Padded, Number, Millis, Moment.Valid, IsLabel;
    t, title := MomentOf(name), name[15..];
    LabelsAreNamed(title);
    StampParts(name);
    NumberIsSmall(name[..4]);
    assert Power(1) == 10 && Power(2) == 100 && Power(3) == 1000 && Power(4) == 10000;
    PaddedNumber(name[..4]);
    PaddedNumber(name[4..6]);
    PaddedNumber(name[6..8]);
    PaddedNumber(name[8..10]);
    PaddedNumber(name[10..12]);
    PaddedNumber(name[12..14]);
    assert name[14..] == "_" + title;
  }

  /** Stamps compared as text are the moments compared field by field. */
  lemma StampOrderIsFieldOrder(a: string, b: string)
    requires IsName(a) && IsName(b)
    ensures TextBefore(Stamp(a), Stamp(b)) <==> MomentOf(a).Before(MomentOf(b))
    ensures Stamp(a) == Stamp(b) <==> MomentOf(a) == MomentOf(b)
  {
    hide TextBefore, Number, AllDigits;
    StampParts(a);
    StampParts(b);
    TextOrderOfParts(a[..4], a[4..6] + (a[6..8] + (a[8..10] + (a[10..12] + a[12..14]))), b[..4],
                     b[4..6] + (b[6..8] + (b[8..10] + (b[10..12] + b[12..14]))));
    TextOrderOfParts(a[4..6], a[6..8] + (a[8..10] + (a[10..12] + a[12..14])), b[4..6],
                     b[6..8] + (b[8..10] + (b[10..12] + b[12..14])));
    TextOrderOfParts(a[6..8], a[8..10] + (a[10..12] + a[12..14]), b[6..8], b[8..10] + (b[10..12] + b[12..14]));
    TextOrderOfParts(a[8..10], a[10..12] + a[12..14], b[8..10], b[10..12] + b[12..14]);
    TextOrderOfParts(a[10..12], a[12..14], b[10..12], b[12..14]);
    DigitOrderIsNumberOrder(a[..4], b[..4]);
    DigitOrderIsNumberOrder(a[4..6], b[4..6]);
    DigitOrderIsNumberOrder(a[6..8], b[6..8]);
    DigitOrderIsNumberOrder(a[8..10], b[8..10]);
    DigitOrderIsNumberOrder(a[10..12], b[10..12]);
    DigitOrderIsNumberOrder(a[12..14], b[12..14]);
  }

  /** For accepted names, text order of the stamps is calendar order in milliseconds. */
  lemma NameOrderIsTimeOrder(a: string, b: string)
    requires Timestamp(a).Some? && Timestamp(b).Some?
    ensures TextBefore(Stamp(a), Stamp(b)) <==> Timestamp(a).value < Timestamp(b).value
    ensures Stamp(a) == Stamp(b) <==> Timestamp(a).value == Timestamp(b).value
  {
    hide TextBefore, MomentOf, Millis, Micros;
    StampOrderIsFieldOrder(a, b);
    FieldOrderIsTimeOrder(MomentOf(a), MomentOf(b));
    assert MomentOf(a).micro == 0 && MomentOf(b).micro == 0 by { AtFullSecond(a); AtFullSecond(b); }
    MillisAreMicros(MomentOf(a));
    MillisAreMicros(MomentOf(b));
  }

  lemma AtFullSecond(name: string)
    requires IsName(name)
    ensures MomentOf(name).micro == 0
  {
  }

  /** An earlier migration has the smaller name. */
  lemma EarlierIsSmallerName(a: string, b: string)
    requires Timestamp(a).Some? && Timestamp(b).Some? && Timestamp(a).value < Timestamp(b).value
    ensures TextBefore(a, b)
  {
    hide TextBefore, MomentOf, Millis;
    NameOrderIsTimeOrder(a, b);
    StampParts(a);
    StampParts(b);
    TextOrderOfParts(Stamp(a), a[14..], Stamp(b), b[14..]);
  }

  // ------------------------------------------------------------ manifests

  predicate IsHash(text: string) {
    |text| == 64 && forall c <- text :: 'a' <= c <= 'f' || '0' <= c <= '9'
  }

  /** Valid hashes, and strictly increasing times. */
  ghost predicate Lawful(manifest: seq<Identity>) {
    && (forall i | 0 <= i < |manifest| :: Timestamp(manifest[i].name).Some? && IsHash(manifest[i].sha256))
    && (forall i, j | 0 <= i < j < |manifest| :: Timestamp(manifest[i].name).value < Timestamp(manifest[j].name).value)
  }

  ghost predicate Reads(entries: seq<RawEntry>, manifest: seq<Identity>) {
    && |entries| == |manifest|
    && (forall i | 0 <= i < |entries| :: entries[i] == Entry(manifest[i].name, manifest[i].sha256))
  }

  /** A file of format 1 with nothing but its version and the entries of a manifest. */
  ghost predicate ReadsFile(file: RawManifest, manifest: seq<Identity>) {
    && file.Record? && file.keys == {"formatVersion", "migrations"} && file.formatVersion == Some(1)
    && file.migrations.Some? && Reads(file.migrations.value, manifest)
  }

  /** Accepts exactly the files of a lawful manifest, and returns its entries. */
  method ParseMigrationManifest(file: RawManifest) returns (manifest: Option<seq<Identity>>)
    ensures manifest.Some? ==> ReadsFile(file, manifest.value) && Lawful(manifest.value)
    ensures manifest.None? ==> forall m :: ReadsFile(file, m) ==> !Lawful(m)
  {
    hide Timestamp, IsHash;
    if !file.Record? || file.formatVersion != Some(1) || file.keys != {"formatVersion", "migrations"}
      || file.migrations.None? {
      return None;
    }
    var entries := file.migrations.value;
    var previous: Option<int> := None;
    var migrations: seq<Identity> := [];
    for i := 0 to |entries|
      invariant Reads(entries[..i], migrations) && Lawful(migrations)
      invariant if i == 0 then previous == None else previous == Timestamp(migrations[i - 1].name)
    {
      match entries[i] {
        case Malformed => return None;
        case Entry(name, sha256) =>
          var timestamp := Timestamp(name);
          if !IsHash(sha256) || timestamp.None? { return None; }
          if previous.Some? && timestamp.value <= previous.value {
            forall m: seq<Identity> | Reads(entries, m) ensures !Lawful(m) {
              assert m[i - 1].name == migrations[i - 1].name && m[i].name == name;
            }
            return None;
          }
          previous := timestamp;
          migrations := migrations + [Identity(name, sha256)];
      }
    }
    assert entries[..|entries|] == entries;
    return Some(migrations);
  }

  /** Every historical entry is still there, at its place. */
  method KeepsHistory(baseline: seq<Identity>, current: seq<Identity>) returns (kept: bool)
    ensures kept <==> baseline <= current
  {
    for i := 0 to |baseline|
      invariant i <= |current| && baseline[..i] == current[..i]
    {
      if i >= |current| || current[i].name != baseline[i].name || current[i].sha256 != baseline[i].sha256 {
        return false;
      }
    }
    assert baseline[..|baseline|] == baseline;
    return true;
  }

  // ------------------------------------------------------------ the bundled directories

  function NamesOf(manifest: seq<Identity>): (names: seq<string>)
    ensures |names| == |manifest| && forall i | 0 <= i < |names| :: names[i] == manifest[i].name
  {
    if manifest == [] then [] else [manifest[0].name] + NamesOf(manifest[1..])
  }

  /** A lawful manifest is already in the order of its names. */
  lemma ManifestIsSorted(manifest: seq<Identity>)
    requires Lawful(manifest)
    ensures Ascending(TextBefore, NamesOf(manifest))
  {
    hide TextBefore, Timestamp;
    var names := NamesOf(manifest);
    forall i, j | 0 <= i < j < |names| ensures TextBefore(names[i], names[j]) {
      EarlierIsSmallerName(manifest[i].name, manifest[j].name);
    }
  }

  /** The names of a directory's entries, which are distinct, in text order. */
  ghost predicate IsSortedListing(directories: set<string>, sorted: seq<string>) {
    Ascending(TextBefore, sorted) && forall name :: name in sorted <==> name in directories
  }

  /** The comparison entry by entry of the sorted directories with the manifest. */
  method DirectoriesMatch(sorted: seq<string>, manifest: seq<Identity>) returns (same: bool)
    ensures same <==> sorted == NamesOf(manifest)
  {
    if |sorted| != |manifest| { return false; }
    for i := 0 to |sorted|
      invariant forall k | 0 <= k < i :: sorted[k] == manifest[k].name
    {
      if sorted[i] != manifest[i].name { return false; }
    }
    return true;
  }

  /** It passes exactly when the directories are those the manifest names. */
  lemma DirectoriesMatchExactlyWhenEqual(directories: set<string>, sorted: seq<string>, manifest: seq<Identity>)
    requires Lawful(manifest) && IsSortedListing(directories, sorted)
    ensures sorted == NamesOf(manifest) <==> forall name :: name in directories <==> name in NamesOf(manifest)
  {
    hide TextBefore, Timestamp;
    TextOrderIsTotalOrder();
    ManifestIsSorted(manifest);
    hide TotalOrder, Ascending, Lawful;
    if forall name :: name in directories <==> name in NamesOf(manifest) {
      SameElements(TextBefore, sorted, NamesOf(manifest));
    }
  }
}
