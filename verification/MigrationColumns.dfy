/** The verdicts on a migration history, over the columns of its rows. */
module MigrationColumns {
  import opened Wrappers
  import opened Calendar
  import opened MigrationManifest
  import opened MigrationState

  // ------------------------------------------------------------ one column, one row

  /** A column holds this number: as a number of either kind, or in decimal digits. */
  predicate Holds(raw: Raw, n: int) {
    && 0 <= n <= 9007199254740991
    && match raw
       case Num(m) => m == n
       case Big(m) => m == n
       case Text(s) => s != "" && (forall c <- s :: '0' <= c <= '9') && Number(s) == n
       case _ => false
  }

  /** Rows of a legacy history, and those whose metadata was filled in later, may keep milliseconds. */
  predicate KeepsMilliseconds(row: Row, format: Format) {
    format == Legacy || row.appliedAt == NullValue
  }

  /** The time a row records, to the second where it may keep milliseconds. */
  ghost predicate HoldsTime(row: Row, format: Format, date: int) {
    if KeepsMilliseconds(row, format)
    then date % 1000 == 0 && exists n :: Holds(row.createdAt, n) && 0 <= n - date < 1000
    else Holds(row.createdAt, date)
  }

  /** A row with this number, time and hash; in the current format its name has the same time. */
  ghost predicate IsRow(row: Row, format: Format, id: int, date: int, hash: string) {
    && Holds(row.id, id) && HoldsTime(row, format, date)
    && row.hash == Text(hash) && |hash| == 64 && (forall c <- hash :: 'a' <= c <= 'f' || '0' <= c <= '9')
    && (format == Current ==> row.name.Text? && Timestamp(row.name.s) == Some(date))
  }

  lemma ColumnsHoldIntegers(raw: Raw, n: int)
    ensures Integer(raw) == Some(n) <==> Holds(raw, n)
  {
  }

  lemma TimesAreHeld(row: Row, format: Format, date: int)
    ensures HoldsTime(row, format, date) <==>
              && Integer(row.createdAt).Some?
              && var n := Integer(row.createdAt).value;
                 date == if KeepsMilliseconds(row, format) then n / 1000 * 1000 else n
  {
    hide Integer, Holds;
    forall n ensures Integer(row.createdAt) == Some(n) <==> Holds(row.createdAt, n) {
      ColumnsHoldIntegers(row.createdAt, n);
    }
    if Integer(row.createdAt).Some? {
      var n := Integer(row.createdAt).value;
      assert Holds(row.createdAt, n);
      assert 0 <= n - n / 1000 * 1000 < 1000 && n / 1000 * 1000 % 1000 == 0;
    }
  }

  /** The identity the comparison reads off a row is what its columns hold. */
  lemma IdentityInColumns(row: Row, format: Format, id: int, date: int, hash: string)
    ensures IsRow(row, format, id, date, hash) <==>
              && HistoryIdentity(row, format).Some?
              && var identity := HistoryIdentity(row, format).value;
                 identity.id == id && identity.date == date && identity.hash == hash
    ensures HistoryIdentity(row, format).Some? ==>
              HistoryIdentity(row, format).value.name == if row.name.Text? then Some(row.name.s) else None
  {
    hide Timestamp, Integer, Holds, HoldsTime;
    ColumnsHoldIntegers(row.id, id);
    TimesAreHeld(row, format, date);
  }

  // ------------------------------------------------------------ recorded entries

  /** The row has this number, the hash and the name of the entry, and its time, or one within its second. */
  ghost predicate IsRecordOf(row: Row, entry: Identity, format: Format, id: int)
    requires Timestamp(entry.name).Some?
  {
    && Holds(row.id, id) && row.hash == Text(entry.sha256)
    && (exists n :: Holds(row.createdAt, n)
          && (if KeepsMilliseconds(row, format) then 0 <= n - Timestamp(entry.name).value < 1000
              else n == Timestamp(entry.name).value))
    && (format == Current ==> row.name == Text(entry.name))
  }

  ghost predicate Rising(numbers: seq<int>) {
    forall i, j | 0 <= i < j < |numbers| :: numbers[i] < numbers[j]
  }

  /** The rows are records of the first entries, under positive and rising numbers. */
  ghost predicate AreRecordsOf(rows: seq<Row>, manifest: seq<Identity>, format: Format, ids: seq<int>)
    requires Lawful(manifest)
  {
    && |ids| == |rows| <= |manifest| && Rising(ids)
    && (forall i | 0 <= i < |rows| :: ids[i] > 0 && IsRecordOf(rows[i], manifest[i], format, ids[i]))
  }

  ghost predicate Recorded(rows: seq<Row>, manifest: seq<Identity>, format: Format)
    requires Lawful(manifest)
  {
    exists ids :: AreRecordsOf(rows, manifest, format, ids)
  }

  lemma NamesAreAtFullSeconds(name: string)
    ensures Timestamp(name).Some? ==> Timestamp(name).value % 1000 == 0
  {
    hide Days, IsName, MomentOf;
  }

  lemma RecordsInColumns(row: Row, entry: Identity, format: Format, id: int)
    requires Timestamp(entry.name).Some? && IsHash(entry.sha256)
    ensures IsRecordOf(row, entry, format, id) <==>
              Records(row, entry, format) && HistoryIdentity(row, format).value.id == id
  {
    hide Timestamp, Integer, Holds, HoldsTime, HistoryIdentity;
    var date := Timestamp(entry.name).value;
    IdentityInColumns(row, format, id, date, entry.sha256);
    NamesAreAtFullSeconds(entry.name);
    TimesInSecond(row, format, date);
    if HistoryIdentity(row, format).Some? && format == Current { NamedInCurrentFormat(row, entry); }
  }

  lemma TimesInSecond(row: Row, format: Format, date: int)
    requires date % 1000 == 0
    ensures HoldsTime(row, format, date) <==>
              exists n :: Holds(row.createdAt, n)
                && (if KeepsMilliseconds(row, format) then 0 <= n - date < 1000 else n == date)
  {
    hide Holds;
  }

  lemma NamedInCurrentFormat(row: Row, entry: Identity)
    requires HistoryIdentity(row, Current).Some?
    ensures HistoryIdentity(row, Current).value.name == Some(entry.name) <==> row.name == Text(entry.name)
  {
    hide Timestamp, Integer, IsHash;
  }

  predicate AllRead(rows: seq<Row>, format: Format) {
    forall i | 0 <= i < |rows| :: HistoryIdentity(rows[i], format).Some?
  }

  function IdsOf(rows: seq<Row>, format: Format): (ids: seq<int>)
    requires AllRead(rows, format)
    ensures |ids| == |rows| && forall i | 0 <= i < |rows| :: ids[i] == HistoryIdentity(rows[i], format).value.id
  {
    seq(|rows|, i requires 0 <= i < |rows| => HistoryIdentity(rows[i], format).value.id)
  }

  lemma PrefixInColumns(manifest: seq<Identity>, rows: seq<Row>, format: Format)
    requires Lawful(manifest)
    ensures Prefix(manifest, rows, format) <==> Recorded(rows, manifest, format)
  {
    hide Timestamp, HistoryIdentity, IsHash, Records, IsRecordOf;
    if Prefix(manifest, rows, format) {
      var ids := IdsOf(rows, format);
      forall i | 0 <= i < |rows| ensures ids[i] > 0 && IsRecordOf(rows[i], manifest[i], format, ids[i]) {
        RecordsInColumns(rows[i], manifest[i], format, ids[i]);
      }
      assert AreRecordsOf(rows, manifest, format, ids);
    }
    if ids :| AreRecordsOf(rows, manifest, format, ids) {
      forall i | 0 <= i < |rows|
        ensures Records(rows[i], manifest[i], format) && HistoryIdentity(rows[i], format).Some?
        ensures HistoryIdentity(rows[i], format).value.id == ids[i]
      {
        RecordsInColumns(rows[i], manifest[i], format, ids[i]);
        RecordedIsSome(rows[i], manifest[i], format);
      }
    }
  }

  /**
   * The compatible verdicts over the columns: a legacy history needs an upgrade, and a current one is
   * uninitialized, ready or pending, exactly when its rows are records of the first entries.
   */
  lemma CompatibleInColumns(manifest: seq<Identity>, rows: seq<Row>, format: Format, state: State)
    requires Lawful(manifest) && Classified(manifest, rows, format, state)
    ensures state.status == UpgradeRequired <==> format == Legacy && Recorded(rows, manifest, format)
    ensures state.status == Uninitialized <==> format == Current && rows == []
    ensures state.status == Ready <==>
              format == Current && 0 < |rows| == |manifest| && Recorded(rows, manifest, format)
    ensures state.status == Pending <==>
              format == Current && 0 < |rows| < |manifest| && Recorded(rows, manifest, format)
    ensures if Recorded(rows, manifest, format) then state.applied == |rows| && state.pending == manifest[|rows|..]
            else state.applied == 0 && state.pending == []
  {
    hide IsModified, IsNewer, Prefix, Recorded;
    PrefixInColumns(manifest, rows, format);
    if rows == [] { NoRowsAreRecorded(manifest, format); }
    if Recorded(rows, manifest, format) { RecordedAreFew(rows, manifest, format); }
  }

  lemma NoRowsAreRecorded(manifest: seq<Identity>, format: Format)
    requires Lawful(manifest)
    ensures Recorded([], manifest, format)
  {
    assert AreRecordsOf([], manifest, format, []);
  }

  lemma RecordedAreFew(rows: seq<Row>, manifest: seq<Identity>, format: Format)
    requires Lawful(manifest) && Recorded(rows, manifest, format)
    ensures |rows| <= |manifest|
  {
  }

  // ------------------------------------------------------------ refusals

  /** Row `i` is the record its entry should have but for its hash, behind records of all earlier entries. */
  ghost predicate IsModifiedRow(
    rows: seq<Row>, manifest: seq<Identity>, format: Format, i: nat, ids: seq<int>, hash: string)
    requires Lawful(manifest)
  {
    && i < |rows| && i < |manifest| && |ids| == i + 1 && Rising(ids) && ids[i] > 0
    && AreRecordsOf(rows[..i], manifest, format, ids[..i])
    && hash != manifest[i].sha256 && IsRow(rows[i], format, ids[i], Timestamp(manifest[i].name).value, hash)
    && (format == Current ==> rows[i].name == Text(manifest[i].name))
  }

  /** Behind records of the whole manifest, rows go on with rising numbers and times. */
  ghost predicate AreNewer(rows: seq<Row>, manifest: seq<Identity>, format: Format, ids: seq<int>, dates: seq<int>)
    requires Lawful(manifest)
  {
    && |rows| > |manifest| > 0 && |ids| == |dates| == |rows| && Rising(ids) && Rising(dates)
    && AreRecordsOf(rows[..|manifest|], manifest, format, ids[..|manifest|])
    && (forall i | 0 <= i < |rows| :: ids[i] > 0 && exists hash :: IsRow(rows[i], format, ids[i], dates[i], hash))
  }

  function DatesOf(rows: seq<Row>, format: Format): (dates: seq<int>)
    requires AllRead(rows, format)
    ensures |dates| == |rows| && forall i | 0 <= i < |rows| :: dates[i] == HistoryIdentity(rows[i], format).value.date
  {
    seq(|rows|, i requires 0 <= i < |rows| => HistoryIdentity(rows[i], format).value.date)
  }

  /** The numbers of recorded rows are those their columns hold. */
  lemma RecordedIds(rows: seq<Row>, manifest: seq<Identity>, format: Format, ids: seq<int>)
    requires Lawful(manifest)
    ensures AreRecordsOf(rows, manifest, format, ids) <==>
              && Prefix(manifest, rows, format) && |ids| == |rows|
              && forall i | 0 <= i < |rows| ::
                   HistoryIdentity(rows[i], format).Some? && ids[i] == HistoryIdentity(rows[i], format).value.id
  {
    hide Timestamp, HistoryIdentity, IsHash, IsRecordOf;
    if |ids| == |rows| <= |manifest| {
      forall i | 0 <= i < |rows|
        ensures IsRecordOf(rows[i], manifest[i], format, ids[i]) <==>
                  Records(rows[i], manifest[i], format) && HistoryIdentity(rows[i], format).value.id == ids[i]
      {
        RecordsInColumns(rows[i], manifest[i], format, ids[i]);
      }
    }
  }

  lemma ModifiedInColumns(manifest: seq<Identity>, rows: seq<Row>, format: Format)
    requires Lawful(manifest)
    ensures IsModified(manifest, rows, format) <==>
              exists i: nat, ids, hash :: IsModifiedRow(rows, manifest, format, i, ids, hash)
  {
    hide Timestamp, HistoryIdentity, IsRow, ModifiedAt;
    if i: nat :| ModifiedAt(manifest, rows, format, i) {
      ModifiedIsInside(manifest, rows, format, i);
      ModifiedHasIds(manifest, rows, format, i);
      ModifiedIsModifiedRow(manifest, rows, format, i);
    }
    if i: nat, ids, hash :| IsModifiedRow(rows, manifest, format, i, ids, hash) {
      ModifiedRowIsModified(manifest, rows, format, i, ids, hash);
    }
  }

  lemma ModifiedHasIds(manifest: seq<Identity>, rows: seq<Row>, format: Format, i: nat)
    requires ModifiedAt(manifest, rows, format, i)
    ensures AllRead(rows[..i + 1], format)
  {
    hide HistoryIdentity;
  }

  lemma ModifiedIsModifiedRow(manifest: seq<Identity>, rows: seq<Row>, format: Format, i: nat)
    requires Lawful(manifest) && ModifiedAt(manifest, rows, format, i)
    requires AllRead(rows[..i + 1], format)
    ensures IsModifiedRow(rows, manifest, format, i, IdsOf(rows[..i + 1], format),
                          HistoryIdentity(rows[i], format).value.hash)
  {
    hide Timestamp, HistoryIdentity, IsRow, AreRecordsOf;
    var ids, identity := IdsOf(rows[..i + 1], format), HistoryIdentity(rows[i], format).value;
    assert rows[..i + 1][i] == rows[i];
    forall k | 0 <= k < i ensures rows[..i][k] == rows[..i + 1][k] {}
    RecordedIds(rows[..i], manifest, format, ids[..i]);
    IdentityInColumns(rows[i], format, identity.id, identity.date, identity.hash);
    if format == Current { NamedInCurrentFormat(rows[i], manifest[i]); }
  }

  lemma ModifiedRowIsModified(
    manifest: seq<Identity>, rows: seq<Row>, format: Format, i: nat, ids: seq<int>, hash: string)
    requires Lawful(manifest) && IsModifiedRow(rows, manifest, format, i, ids, hash)
    ensures ModifiedAt(manifest, rows, format, i)
  {
    hide Timestamp, HistoryIdentity, IsRow, AreRecordsOf;
    RecordedIds(rows[..i], manifest, format, ids[..i]);
    IdentityInColumns(rows[i], format, ids[i], Timestamp(manifest[i].name).value, hash);
    if format == Current { NamedInCurrentFormat(rows[i], manifest[i]); }
    var some := rows[..i + 1];
    assert some[i] == rows[i];
    forall k | 0 <= k <= i
      ensures HistoryIdentity(some[k], format).Some? && HistoryIdentity(some[k], format).value.id == ids[k]
      ensures ids[k] > 0
    {
      if k < i { assert some[k] == rows[..i][k]; PositiveRecord(rows[..i], manifest, format, ids[..i], k); }
    }
  }

  lemma PositiveRecord(rows: seq<Row>, manifest: seq<Identity>, format: Format, ids: seq<int>, k: nat)
    requires Lawful(manifest) && AreRecordsOf(rows, manifest, format, ids) && k < |rows|
    ensures ids[k] > 0
  {
    hide IsRecordOf;
  }

  lemma NewerInColumns(manifest: seq<Identity>, rows: seq<Row>, format: Format)
    requires Lawful(manifest)
    ensures IsNewer(manifest, rows, format) <==> exists ids, dates :: AreNewer(rows, manifest, format, ids, dates)
  {
    hide Timestamp, HistoryIdentity, IsRow, AreRecordsOf, Prefix;
    if IsNewer(manifest, rows, format) {
      var ids, dates := IdsOf(rows, format), DatesOf(rows, format);
      forall i | 0 <= i < |rows| ensures ids[i] > 0 && exists hash :: IsRow(rows[i], format, ids[i], dates[i], hash) {
        IdentityInColumns(rows[i], format, ids[i], dates[i], HistoryIdentity(rows[i], format).value.hash);
      }
      RecordedIds(rows[..|manifest|], manifest, format, ids[..|manifest|]);
      assert AreNewer(rows, manifest, format, ids, dates);
    }
    if ids, dates :| AreNewer(rows, manifest, format, ids, dates) {
      forall i | 0 <= i < |rows|
        ensures HistoryIdentity(rows[i], format).Some?
        ensures HistoryIdentity(rows[i], format).value.id == ids[i]
                && HistoryIdentity(rows[i], format).value.date == dates[i]
      {
        var hash :| IsRow(rows[i], format, ids[i], dates[i], hash);
        IdentityInColumns(rows[i], format, ids[i], dates[i], hash);
      }
      RecordedIds(rows[..|manifest|], manifest, format, ids[..|manifest|]);
    }
  }

  /** The refusals over the columns; they list nothing as pending, and whatever else is found has diverged. */
  lemma RefusalsInColumns(manifest: seq<Identity>, rows: seq<Row>, format: Format, state: State)
    requires Lawful(manifest) && Classified(manifest, rows, format, state)
    ensures state.status == Modified <==>
              exists i: nat, ids, hash :: IsModifiedRow(rows, manifest, format, i, ids, hash)
    ensures state.status == Newer <==> exists ids, dates :: AreNewer(rows, manifest, format, ids, dates)
    ensures state.status == Diverged <==>
              && !Recorded(rows, manifest, format)
              && !(exists i: nat, ids, hash :: IsModifiedRow(rows, manifest, format, i, ids, hash))
              && !(exists ids, dates :: AreNewer(rows, manifest, format, ids, dates))
  {
    hide IsModified, IsNewer, Prefix, Recorded, IsModifiedRow, AreNewer;
    VerdictsAreExact(manifest, rows, format, state);
    PrefixInColumns(manifest, rows, format);
    ModifiedInColumns(manifest, rows, format);
    NewerInColumns(manifest, rows, format);
  }
}
