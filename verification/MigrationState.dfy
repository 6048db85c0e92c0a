/** The comparison of a recorded migration history with a manifest. */
module MigrationState {
  import opened Wrappers
  import opened Calendar
  import opened MigrationManifest

  /** A column as the driver returns it. */
  datatype Raw = Num(n: int) | Fraction | Big(n: int) | Text(s: string) | NullValue | Missing

  datatype Row = Row(id: Raw, createdAt: Raw, hash: Raw, name: Raw, appliedAt: Raw)
  datatype Format = Current | Legacy
  datatype Status = Ready | Pending | Uninitialized | UpgradeRequired | Modified | Newer | Diverged
  datatype State = State(status: Status, applied: nat, pending: seq<Identity>)

  const MAX_SAFE := 9007199254740991

  /** A non-negative safe integer, however it is written. */
  function Integer(raw: Raw): Option<int> {
    var n := match raw
             case Num(n) => Some(n)
             case Big(n) => Some(n)
             case Text(s) => if s != "" && AllDigits(s) then Some(Number(s)) else None
             case _ => None;
    if n.Some? && 0 <= n.value <= MAX_SAFE then n else None
  }

  datatype Recorded = Recorded(id: int, date: int, hash: string, name: Option<string>)

  /** What a row records; dates of legacy rows, upgraded or not, count to the second. */
  function HistoryIdentity(row: Row, format: Format): Option<Recorded> {
    var id, rawDate := Integer(row.id), Integer(row.createdAt);
    if id.None? || rawDate.None? || !row.hash.Text? || !IsHash(row.hash.s) then None
    else
      var date := if format == Legacy || row.appliedAt == NullValue then rawDate.value / 1000 * 1000 else rawDate.value;
      var name := if row.name.Text? then Some(row.name.s) else None;
      if format == Current && (name.None? || Timestamp(name.value) != Some(date)) then None
      else Some(Recorded(id.value, date, row.hash.s, name))
  }

  function Incompatible(status: Status): State { State(status, 0, []) }

  function Compatible(manifest: seq<Identity>, applied: nat, format: Format): State
    requires applied <= |manifest|
  {
    State(if format == Legacy then UpgradeRequired
          else if applied == 0 then Uninitialized
          else if applied == |manifest| then Ready else Pending,
          applied, manifest[applied..])
  }

  // ------------------------------------------------------------ what a compatible history is

  /** Row `i` records entry `i` of the manifest. */
  ghost predicate Records(row: Row, entry: Identity, format: Format) {
    var recorded := HistoryIdentity(row, format);
    && recorded.Some? && Timestamp(entry.name) == Some(recorded.value.date) && recorded.value.hash == entry.sha256
    && (format == Current ==> recorded.value.name == Some(entry.name))
  }

  ghost predicate IdsRise(rows: seq<Row>, format: Format) {
    && (forall i | 0 <= i < |rows| ::
          HistoryIdentity(rows[i], format).Some? && HistoryIdentity(rows[i], format).value.id > 0)
    && (forall i, j | 0 <= i < j < |rows| ::
          HistoryIdentity(rows[i], format).value.id < HistoryIdentity(rows[j], format).value.id)
  }

  /** The rows record the first entries of the manifest, one by one and in order. */
  ghost predicate Prefix(manifest: seq<Identity>, rows: seq<Row>, format: Format) {
    && |rows| <= |manifest|
    && (forall i | 0 <= i < |rows| :: Records(rows[i], manifest[i], format))
    && IdsRise(rows, format)
  }

  ghost predicate DatesRise(rows: seq<Row>, format: Format) {
    && (forall i | 0 <= i < |rows| :: HistoryIdentity(rows[i], format).Some?)
    && (forall i, j | 0 <= i < j < |rows| ::
          HistoryIdentity(rows[i], format).value.date < HistoryIdentity(rows[j], format).value.date)
  }

  /** The first row that does not record its entry has the number, time and name it should have, but another hash. */
  ghost predicate ModifiedAt(manifest: seq<Identity>, rows: seq<Row>, format: Format, i: nat) {
    && i < |rows| && i < |manifest| && Prefix(manifest, rows[..i], format) && IdsRise(rows[..i + 1], format)
    && var recorded := HistoryIdentity(rows[i], format);
       && recorded.Some? && Timestamp(manifest[i].name) == Some(recorded.value.date)
       && (format == Current ==> recorded.value.name == Some(manifest[i].name))
       && recorded.value.hash != manifest[i].sha256
  }

  ghost predicate IsModified(manifest: seq<Identity>, rows: seq<Row>, format: Format) {
    exists i: nat :: ModifiedAt(manifest, rows, format, i)
  }

  /** The whole of a manifest is recorded, and numbers and times go on rising after it. */
  ghost predicate IsNewer(manifest: seq<Identity>, rows: seq<Row>, format: Format) {
    && |rows| > |manifest| > 0 && Prefix(manifest, rows[..|manifest|], format)
    && IdsRise(rows, format) && DatesRise(rows, format)
  }

  /**
   * The verdict on a history: the compatible state of a prefix, and otherwise a refusal that lists
   * nothing as pending.
   */
  ghost predicate Classified(manifest: seq<Identity>, rows: seq<Row>, format: Format, state: State) {
    if Prefix(manifest, rows, format) then state == Compatible(manifest, |rows|, format)
    else if IsModified(manifest, rows, format) then state == Incompatible(Modified)
    else if IsNewer(manifest, rows, format) then state == Incompatible(Newer)
    else state == Incompatible(Diverged)
  }

  // ------------------------------------------------------------ one row after another

  /** Row `i` is readable, and its number and time are larger than those before it. */
  ghost predicate GoesOn(rows: seq<Row>, format: Format, i: nat)
    requires i < |rows|
  {
    var recorded := HistoryIdentity(rows[i], format);
    && recorded.Some? && recorded.value.id > 0
    && (i > 0 ==>
          var previous := HistoryIdentity(rows[i - 1], format);
          previous.Some? && previous.value.id < recorded.value.id && previous.value.date < recorded.value.date)
  }

  /** Row `i` gives no reason to stop. */
  ghost predicate Fits(manifest: seq<Identity>, rows: seq<Row>, format: Format, i: nat)
    requires i < |rows|
  {
    GoesOn(rows, format, i) && if i < |manifest| then Records(rows[i], manifest[i], format) else manifest != []
  }

  lemma {:induction false} GoingRises(rows: seq<Row>, format: Format, n: nat)
    requires n <= |rows| && forall k: nat | k < n :: GoesOn(rows, format, k)
    ensures IdsRise(rows[..n], format) && DatesRise(rows[..n], format)
  {
    hide HistoryIdentity;
    if n > 0 {
      GoingRises(rows, format, n - 1);
      var more := rows[..n];
      assert GoesOn(rows, format, n - 1);
      forall k | 0 <= k < n - 1
        ensures HistoryIdentity(more[k], format).value.id < HistoryIdentity(more[n - 1], format).value.id
        ensures HistoryIdentity(more[k], format).value.date < HistoryIdentity(more[n - 1], format).value.date
      {
        assert more[k] == rows[..n - 1][k] && rows[..n - 1][n - 2] == rows[n - 2];
      }
      forall k | 0 <= k < n - 1 ensures more[k] == rows[..n - 1][k] {}
    }
  }

  lemma RisingGoesOn(rows: seq<Row>, format: Format, i: nat)
    requires i < |rows| && IdsRise(rows[..i + 1], format) && DatesRise(rows[..i + 1], format)
    ensures GoesOn(rows, format, i)
  {
    hide HistoryIdentity;
    var some := rows[..i + 1];
    assert some[i] == rows[i];
    if i > 0 { assert some[i - 1] == rows[i - 1]; }
  }

  /** The times of a recorded prefix rise with the manifest's. */
  lemma PrefixDatesRise(manifest: seq<Identity>, rows: seq<Row>, format: Format)
    requires Lawful(manifest) && Prefix(manifest, rows, format)
    ensures DatesRise(rows, format)
  {
    hide HistoryIdentity, Timestamp, IsHash, Records;
    forall i | 0 <= i < |rows| ensures HistoryIdentity(rows[i], format).Some? {
      RecordedIsSome(rows[i], manifest[i], format);
    }
    forall i, j | 0 <= i < j < |rows|
      ensures HistoryIdentity(rows[i], format).value.date < HistoryIdentity(rows[j], format).value.date
    {
      RecordedDate(rows[i], manifest[i], format);
      RecordedDate(rows[j], manifest[j], format);
    }
  }

  lemma RecordedDate(row: Row, entry: Identity, format: Format)
    requires Records(row, entry, format)
    ensures HistoryIdentity(row, format).Some? && Timestamp(entry.name) == Some(HistoryIdentity(row, format).value.date)
  {
  }

  lemma RecordedIsSome(row: Row, entry: Identity, format: Format)
    requires Records(row, entry, format)
    ensures HistoryIdentity(row, format).Some?
  {
  }

  lemma PrefixFits(manifest: seq<Identity>, rows: seq<Row>, format: Format, n: nat, k: nat)
    requires Lawful(manifest) && k < n <= |rows| && Prefix(manifest, rows[..n], format)
    ensures Fits(manifest, rows, format, k)
  {
    hide HistoryIdentity, Timestamp, Records;
    var some := rows[..n];
    PrefixDatesRise(manifest, some, format);
    assert some[..k + 1] == rows[..k + 1] && some[k] == rows[k];
    FewerRise(some, format, k + 1);
    RisingGoesOn(rows, format, k);
  }

  lemma FewerRise(rows: seq<Row>, format: Format, n: nat)
    requires n <= |rows|
    ensures IdsRise(rows, format) ==> IdsRise(rows[..n], format)
    ensures DatesRise(rows, format) ==> DatesRise(rows[..n], format)
  {
    hide HistoryIdentity;
  }

  lemma NewerFits(manifest: seq<Identity>, rows: seq<Row>, format: Format, k: nat)
    requires Lawful(manifest) && IsNewer(manifest, rows, format) && k < |rows|
    ensures Fits(manifest, rows, format, k)
  {
    hide HistoryIdentity, Timestamp, Records;
    if k < |manifest| {
      PrefixFits(manifest, rows, format, |manifest|, k);
    } else {
      FewerRise(rows, format, k + 1);
      RisingGoesOn(rows, format, k);
    }
  }

  lemma ModifiedFits(manifest: seq<Identity>, rows: seq<Row>, format: Format, i: nat)
    requires Lawful(manifest) && ModifiedAt(manifest, rows, format, i)
    ensures forall k: nat | k < i :: Fits(manifest, rows, format, k)
    ensures GoesOn(rows, format, i) && !Records(rows[i], manifest[i], format)
  {
    forall k: nat | k < i ensures Fits(manifest, rows, format, k) { PrefixFits(manifest, rows, format, i, k); }
    DatesAreNatural(rows[i], format);
    if i > 0 {
      assert Fits(manifest, rows, format, i - 1);
      RecordedDate(rows[i - 1], manifest[i - 1], format);
    }
    hide HistoryIdentity, Timestamp, IsHash;
    var some := rows[..i + 1];
    assert some[i] == rows[i];
    if i > 0 { assert some[i - 1] == rows[i - 1]; }
  }

  /** The first row that does not fit decides. */
  lemma FirstMisfit(manifest: seq<Identity>, rows: seq<Row>, format: Format, i: nat)
    requires Lawful(manifest) && i < |rows| && (forall k: nat | k < i :: Fits(manifest, rows, format, k))
    requires !Fits(manifest, rows, format, i)
    ensures !Prefix(manifest, rows, format) && !IsNewer(manifest, rows, format)
    ensures IsModified(manifest, rows, format) <==> ModifiedAt(manifest, rows, format, i)
    ensures IsModified(manifest, rows, format) ==> GoesOn(rows, format, i)
  {
    hide HistoryIdentity, Timestamp, Records, Prefix, IsNewer, ModifiedAt, GoesOn;
    if Prefix(manifest, rows, format) {
      assert rows[..|rows|] == rows;
      PrefixFits(manifest, rows, format, |rows|, i);
    }
    if IsNewer(manifest, rows, format) { NewerFits(manifest, rows, format, i); }
    forall j: nat | ModifiedAt(manifest, rows, format, j) ensures j == i && GoesOn(rows, format, i) {
      ModifiedIsInside(manifest, rows, format, j);
      ModifiedFits(manifest, rows, format, j);
      MisfitOfModified(manifest, rows, format, j);
    }
  }

  lemma ModifiedIsInside(manifest: seq<Identity>, rows: seq<Row>, format: Format, i: nat)
    requires ModifiedAt(manifest, rows, format, i)
    ensures i < |rows| && i < |manifest|
  {
  }

  /** If every row fits, the history is a prefix, or goes on after the manifest. */
  lemma AllFit(manifest: seq<Identity>, rows: seq<Row>, format: Format)
    requires Lawful(manifest) && (forall k: nat | k < |rows| :: Fits(manifest, rows, format, k))
    ensures |rows| <= |manifest| ==> Prefix(manifest, rows, format)
    ensures |rows| > |manifest| ==> IsNewer(manifest, rows, format) && !Prefix(manifest, rows, format)
    ensures !IsModified(manifest, rows, format)
  {
    hide HistoryIdentity, Timestamp, Records, ModifiedAt;
    forall k: nat | k < |rows| ensures GoesOn(rows, format, k) { assert Fits(manifest, rows, format, k); }
    GoingRises(rows, format, |rows|);
    assert rows[..|rows|] == rows;
    var n := if |rows| < |manifest| then |rows| else |manifest|;
    FewerRise(rows, format, n);
    forall k | 0 <= k < n ensures Records(rows[k], manifest[k], format) { assert Fits(manifest, rows, format, k); }
    if |rows| > |manifest| { assert Fits(manifest, rows, format, |manifest|); }
    forall j: nat | ModifiedAt(manifest, rows, format, j) ensures false {
      ModifiedIsInside(manifest, rows, format, j);
      ModifiedFits(manifest, rows, format, j);
      MisfitOfModified(manifest, rows, format, j);
    }
  }

  /** After the manifest, a rising time is later than its last entry. */
  lemma LaterThanLast(manifest: seq<Identity>, rows: seq<Row>, format: Format, i: nat)
    requires Lawful(manifest) && manifest != [] && |manifest| <= i < |rows| && GoesOn(rows, format, i)
    requires forall k: nat | k < i :: Fits(manifest, rows, format, k)
    ensures HistoryIdentity(rows[i], format).Some?
    ensures HistoryIdentity(rows[i], format).value.date > Timestamp(manifest[|manifest| - 1].name).value
  {
    hide HistoryIdentity, Timestamp, Records;
    var last := |manifest| - 1;
    forall k: nat | k <= i ensures GoesOn(rows, format, k) { if k < i { assert Fits(manifest, rows, format, k); } }
    GoingRises(rows, format, i + 1);
    assert rows[..i + 1][last] == rows[last] && rows[..i + 1][i] == rows[i];
    assert Fits(manifest, rows, format, last);
    RecordedDate(rows[last], manifest[last], format);
  }

  // ------------------------------------------------------------ the classifier

  /** Compares the rows one by one; the first that does not fit decides. */
  method ClassifyMigrationHistory(manifest: seq<Identity>, rows: seq<Row>, format: Format) returns (state: State)
    requires Lawful(manifest)
    ensures Classified(manifest, rows, format, state)
  {
    hide Timestamp, IsHash, Integer, HistoryIdentity, IdsRise, DatesRise, Prefix, IsNewer, IsModified;
    var previousId, previousDate, newer := 0, -1, false;
    for i := 0 to |rows|
      invariant forall k: nat | k < i :: Fits(manifest, rows, format, k)
      invariant i > 0 ==> HistoryIdentity(rows[i - 1], format).Some?
      invariant previousId == if i == 0 then 0 else HistoryIdentity(rows[i - 1], format).value.id
      invariant previousDate == if i == 0 then -1 else HistoryIdentity(rows[i - 1], format).value.date
      invariant i > 0 ==> previousId > 0
      invariant newer == (i > |manifest|)
    {
      var identity := HistoryIdentity(rows[i], format);
      DatesAreNatural(rows[i], format);
      if identity.None? || identity.value.id <= previousId || identity.value.date <= previousDate {
        FirstMisfit(manifest, rows, format, i);
        return Incompatible(Diverged);
      }
      previousId := identity.value.id;
      previousDate := identity.value.date;
      if i >= |manifest| {
        if |manifest| > 0 { LaterThanLast(manifest, rows, format, i); }
        if |manifest| == 0 || identity.value.date <= Timestamp(manifest[|manifest| - 1].name).value {
          FirstMisfit(manifest, rows, format, i);
          return Incompatible(Diverged);
        }
        newer := true;
        continue;
      }
      var expected := manifest[i];
      if Timestamp(expected.name).value != identity.value.date
        || (format == Current && identity.value.name != Some(expected.name)) {
        FirstMisfit(manifest, rows, format, i);
        return Incompatible(Diverged);
      }
      if identity.value.hash != expected.sha256 {
        FirstMisfit(manifest, rows, format, i);
        ModifiedHere(manifest, rows, format, i);
        return Incompatible(Modified);
      }
    }
    AllFit(manifest, rows, format);
    if newer {
      return Incompatible(Newer);
    }
    return Compatible(manifest, |rows|, format);
  }

  lemma ModifiedHere(manifest: seq<Identity>, rows: seq<Row>, format: Format, i: nat)
    requires Lawful(manifest) && i < |rows| && i < |manifest| && GoesOn(rows, format, i)
    requires forall k: nat | k < i :: Fits(manifest, rows, format, k)
    requires var recorded := HistoryIdentity(rows[i], format);
             && Timestamp(manifest[i].name) == Some(recorded.value.date)
             && (format == Current ==> recorded.value.name == Some(manifest[i].name))
             && recorded.value.hash != manifest[i].sha256
    ensures ModifiedAt(manifest, rows, format, i)
  {
    hide HistoryIdentity, Timestamp, Records;
    forall k: nat | k <= i ensures GoesOn(rows, format, k) { if k < i { assert Fits(manifest, rows, format, k); } }
    GoingRises(rows, format, i + 1);
    FewerRise(rows[..i + 1], format, i);
    assert rows[..i + 1][..i] == rows[..i];
    forall k | 0 <= k < i ensures Records(rows[..i][k], manifest[k], format) { assert Fits(manifest, rows, format, k); }
  }

  lemma DatesAreNatural(row: Row, format: Format)
    ensures HistoryIdentity(row, format).Some? ==> HistoryIdentity(row, format).value.date >= 0
  {
    hide Timestamp, IsHash;
  }

  // ------------------------------------------------------------ what the verdicts mean

  /** Ready and pending decide prefixes exactly, and what is applied and what is pending make up the manifest. */
  lemma VerdictsAreExact(manifest: seq<Identity>, rows: seq<Row>, format: Format, state: State)
    requires Lawful(manifest) && Classified(manifest, rows, format, state)
    ensures state.status == Ready <==>
              format == Current && rows != [] && |rows| == |manifest| && Prefix(manifest, rows, format)
    ensures state.status == Pending <==> format == Current && 0 < |rows| < |manifest| && Prefix(manifest, rows, format)
    ensures state.status == Newer <==> IsNewer(manifest, rows, format)
    ensures state.status == Modified <==> IsModified(manifest, rows, format)
    ensures state.status == Diverged <==>
              !Prefix(manifest, rows, format) && !IsNewer(manifest, rows, format) && !IsModified(manifest, rows, format)
    ensures Prefix(manifest, rows, format) ==>
              state.applied == |rows| && manifest[..state.applied] + state.pending == manifest
  {
    VerdictsExclude(manifest, rows, format);
    hide Records, IdsRise, IsNewer, IsModified;
    if Prefix(manifest, rows, format) { assert manifest[..|rows|] + manifest[|rows|..] == manifest; }
  }

  lemma VerdictsExclude(manifest: seq<Identity>, rows: seq<Row>, format: Format)
    requires Lawful(manifest)
    ensures IsModified(manifest, rows, format) ==> !Prefix(manifest, rows, format) && !IsNewer(manifest, rows, format)
    ensures IsNewer(manifest, rows, format) ==> !Prefix(manifest, rows, format)
  {
    hide HistoryIdentity, Timestamp, Records, ModifiedAt, IdsRise, DatesRise, Fits;
    forall i: nat | ModifiedAt(manifest, rows, format, i)
      ensures !Prefix(manifest, rows, format) && !IsNewer(manifest, rows, format) {
      ModifiedIsInside(manifest, rows, format, i);
      ModifiedFits(manifest, rows, format, i);
      MisfitOfModified(manifest, rows, format, i);
      FirstMisfit(manifest, rows, format, i);
    }
  }

  lemma MisfitOfModified(manifest: seq<Identity>, rows: seq<Row>, format: Format, i: nat)
    requires i < |rows| && i < |manifest| && !Records(rows[i], manifest[i], format)
    ensures !Fits(manifest, rows, format, i)
  {
  }

  /** Recording valid rows for everything pending makes a history ready. */
  lemma AppendingPendingIsReady(manifest: seq<Identity>, rows: seq<Row>, more: seq<Row>, state: State)
    requires manifest != [] && Prefix(manifest, rows, Current)
    requires |more| == |Compatible(manifest, |rows|, Current).pending|
    requires forall k | 0 <= k < |more| :: Records(more[k], Compatible(manifest, |rows|, Current).pending[k], Current)
    requires IdsRise(rows + more, Current)
    requires Classified(manifest, rows + more, Current, state)
    ensures state.status == Ready
  {
    hide Records, IdsRise;
    var all := rows + more;
    forall i | 0 <= i < |all| ensures Records(all[i], manifest[i], Current) {
      if i >= |rows| { assert all[i] == more[i - |rows|] && manifest[i] == manifest[|rows|..][i - |rows|]; }
    }
  }

  /** A legacy row with its metadata filled in: named like its migration, applied at an unknown time. */
  function Upgraded(rows: seq<Row>, manifest: seq<Identity>): (upgraded: seq<Row>)
    requires |rows| <= |manifest|
    ensures |upgraded| == |rows|
    ensures forall i | 0 <= i < |rows| ::
      upgraded[i] == Row(rows[i].id, rows[i].createdAt, rows[i].hash, Text(manifest[i].name), NullValue)
  {
    seq(|rows|,
        i requires 0 <= i < |rows| =>
            Row(rows[i].id, rows[i].createdAt, rows[i].hash, Text(manifest[i].name), NullValue))
  }

  lemma UpgradedRowRecords(row: Row, entry: Identity)
    requires Records(row, entry, Legacy)
    ensures var upgraded := Row(row.id, row.createdAt, row.hash, Text(entry.name), NullValue);
            Records(upgraded, entry, Current)
            && HistoryIdentity(upgraded, Current).value.id == HistoryIdentity(row, Legacy).value.id
  {
    hide Timestamp, IsHash, Integer;
  }

  /** Upgrading the metadata of a legacy history changes neither what is applied nor what is pending. */
  lemma UpgradeKeepsProgress(manifest: seq<Identity>, rows: seq<Row>, legacy: State, upgraded: State)
    requires Classified(manifest, rows, Legacy, legacy) && legacy.status == UpgradeRequired
    requires Classified(manifest, Upgraded(rows, manifest), Current, upgraded)
    ensures Prefix(manifest, Upgraded(rows, manifest), Current)
    ensures upgraded.applied == legacy.applied && upgraded.pending == legacy.pending
  {
    hide HistoryIdentity, Records;
    var after := Upgraded(rows, manifest);
    forall i | 0 <= i < |rows|
      ensures Records(after[i], manifest[i], Current) && HistoryIdentity(after[i], Current).Some?
      ensures HistoryIdentity(rows[i], Legacy).Some?
              && HistoryIdentity(after[i], Current).value.id == HistoryIdentity(rows[i], Legacy).value.id
    {
      UpgradedRowRecords(rows[i], manifest[i]);
      RecordedIsSome(after[i], manifest[i], Current);
      RecordedIsSome(rows[i], manifest[i], Legacy);
    }
  }

  /** A database that was ready for a baseline is ready or pending for every manifest that keeps its history. */
  lemma BaselineStaysCompatible(baseline: seq<Identity>, current: seq<Identity>, rows: seq<Row>, state: State)
    requires baseline <= current && rows != [] && |rows| == |baseline| && Prefix(baseline, rows, Current)
    requires Classified(current, rows, Current, state)
    ensures state.status == if |baseline| == |current| then Ready else Pending
    ensures state.pending == current[|baseline|..]
  {
    hide Records, IdsRise;
    forall i | 0 <= i < |rows| ensures Records(rows[i], current[i], Current) { assert current[i] == baseline[i]; }
  }

  function RowFor(entry: Identity, id: int): Row {
    Row(Num(id), Num(if Timestamp(entry.name).Some? then Timestamp(entry.name).value else 0), Text(entry.sha256),
        Text(entry.name), Missing)
  }

  /** A manifest can be recorded as a whole exactly when its times are safe integers from 1970 on. */
  lemma CanBeRecordedExactlyWhen(manifest: seq<Identity>)
    requires Lawful(manifest) && |manifest| <= MAX_SAFE
    ensures (exists rows :: |rows| == |manifest| && Prefix(manifest, rows, Current)) <==> SafeTimes(manifest)
  {
    hide Prefix, SafeTimes, Lawful, RowFor;
    if rows :| |rows| == |manifest| && Prefix(manifest, rows, Current) { RecordedTimesAreSafe(manifest, rows); }
    if SafeTimes(manifest) {
      SafeTimesAreRecorded(manifest);
      assert |RowsFor(manifest)| == |manifest|;
    }
  }

  /** Some history is found ready exactly when the manifest has entries, and all of them can be recorded. */
  lemma CanBeReadyExactlyWhen(manifest: seq<Identity>)
    requires Lawful(manifest) && |manifest| <= MAX_SAFE
    ensures (exists rows, state :: Classified(manifest, rows, Current, state) && state.status == Ready)
       <==> manifest != [] && SafeTimes(manifest)
  {
    hide Prefix, SafeTimes, RowFor, IsModified, IsNewer, Classified;
    CanBeRecordedExactlyWhen(manifest);
    if rows, state :| Classified(manifest, rows, Current, state) && state.status == Ready {
      VerdictsAreExact(manifest, rows, Current, state);
    }
    if manifest != [] && SafeTimes(manifest) {
      var rows :| |rows| == |manifest| && Prefix(manifest, rows, Current);
      PrefixIsReady(manifest, rows);
    }
  }

  lemma PrefixIsReady(manifest: seq<Identity>, rows: seq<Row>)
    requires manifest != [] && |rows| == |manifest| && Prefix(manifest, rows, Current)
    ensures Classified(manifest, rows, Current, Compatible(manifest, |rows|, Current))
    ensures Compatible(manifest, |rows|, Current).status == Ready
  {
    hide Prefix;
  }

  const EARLY_NAME := "19691231235959_init"

  function EarlyManifest(): seq<Identity> { [Identity(EARLY_NAME, seq(64, _ => '0'))] }

  /** For one, no history is ever found ready for a migration named one second before 1970. */
  lemma EarlyMigrationStaysPending()
    ensures Lawful(EarlyManifest()) && Timestamp(EARLY_NAME) == Some(-1000)
    ensures forall rows, state :: Classified(EarlyManifest(), rows, Current, state) ==> state.status != Ready
    ensures forall rows :: |rows| == 1 ==> !Prefix(EarlyManifest(), rows, Current)
  {
    EarlyTime();
    hide Timestamp, Prefix, HistoryIdentity, Classified;
    CanBeRecordedExactlyWhen(EarlyManifest());
    CanBeReadyExactlyWhen(EarlyManifest());
    assert Timestamp(EarlyManifest()[0].name) == Some(-1000);
    assert !SafeTimes(EarlyManifest());
  }

  lemma EarlyTime()
    ensures Timestamp(EARLY_NAME) == Some(-1000)
  {
    EarlyName();
    hide IsName, MomentOf;
    EpochIsDayZero();
    NextDateIsNextDay(1969, 12, 31);
  }

  lemma EarlyName()
    ensures IsName(EARLY_NAME) && MomentOf(EARLY_NAME) == Moment(1969, 12, 31, 23, 59, 59, 0)
  {
    var name := EARLY_NAME;
    hide IsHash, Number;
    assert name[..4] == "1969" && name[4..6] == "12" && name[6..8] == "31" && name[8..10] == "23"
           && name[10..12] == "59" && name[12..14] == "59";
    TwoDigits('1', '2');
    TwoDigits('3', '1');
    TwoDigits('2', '3');
    TwoDigits('5', '9');
    FourDigits('1', '9', '6', '9');
  }

  lemma TwoDigits(a: char, b: char)
    requires IsDigit(a) && IsDigit(b)
    ensures Number([a, b]) == 10 * DigitValue(a) + DigitValue(b)
  {
    assert [a, b][..1] == [a] && [a][..0] == [];
    assert Number([a]) == DigitValue(a);
  }

  lemma FourDigits(a: char, b: char, c: char, d: char)
    requires IsDigit(a) && IsDigit(b) && IsDigit(c) && IsDigit(d)
    ensures Number([a, b, c, d]) == 1000 * DigitValue(a) + 100 * DigitValue(b) + 10 * DigitValue(c) + DigitValue(d)
  {
    assert [a, b, c, d][..3] == [a, b, c] && [a, b, c][..2] == [a, b];
    TwoDigits(a, b);
  }

  ghost predicate SafeTimes(manifest: seq<Identity>) {
    forall i | 0 <= i < |manifest| ::
      Timestamp(manifest[i].name).Some? && 0 <= Timestamp(manifest[i].name).value <= MAX_SAFE
  }

  function RowsFor(manifest: seq<Identity>): (rows: seq<Row>)
    ensures |rows| == |manifest| && forall i | 0 <= i < |rows| :: rows[i] == RowFor(manifest[i], i + 1)
  {
    seq(|manifest|, i requires 0 <= i < |manifest| => RowFor(manifest[i], i + 1))
  }

  lemma RecordedTimesAreSafe(manifest: seq<Identity>, rows: seq<Row>)
    requires |rows| == |manifest| && Prefix(manifest, rows, Current)
    ensures SafeTimes(manifest)
  {
    hide HistoryIdentity, Timestamp, IdsRise;
    forall i | 0 <= i < |manifest|
      ensures Timestamp(manifest[i].name).Some? && 0 <= Timestamp(manifest[i].name).value <= MAX_SAFE
    {
      assert Records(rows[i], manifest[i], Current);
      SafeDates(rows[i]);
    }
  }

  lemma SafeTimesAreRecorded(manifest: seq<Identity>)
    requires Lawful(manifest) && |manifest| <= MAX_SAFE && SafeTimes(manifest)
    ensures Prefix(manifest, RowsFor(manifest), Current)
  {
    hide HistoryIdentity, Timestamp, IsHash, Records;
    var rows := RowsFor(manifest);
    forall i | 0 <= i < |rows|
      ensures Records(rows[i], manifest[i], Current)
      ensures HistoryIdentity(rows[i], Current).Some? && HistoryIdentity(rows[i], Current).value.id == i + 1
    {
      RowForRecords(manifest[i], i + 1);
    }
  }

  lemma SafeDates(row: Row)
    ensures HistoryIdentity(row, Current).Some? ==> 0 <= HistoryIdentity(row, Current).value.date <= MAX_SAFE
  {
    hide Timestamp, IsHash;
  }

  lemma RowForRecords(entry: Identity, id: int)
    requires Timestamp(entry.name).Some? && IsHash(entry.sha256) && 0 <= Timestamp(entry.name).value <= MAX_SAFE
             && 0 < id <= MAX_SAFE
    ensures Records(RowFor(entry, id), entry, Current)
    ensures HistoryIdentity(RowFor(entry, id), Current).Some?
            && HistoryIdentity(RowFor(entry, id), Current).value.id == id
  {
    hide Timestamp, IsHash;
  }
}
