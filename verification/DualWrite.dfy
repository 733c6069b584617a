/**
 Dual-write persistence of a config document (core-console/backend/db.go:137-209,
 core-console/backend/alertrules.go:139-171, 211-251): a JSON file renamed into place, then the
 same document upserted into the database; crashes and database failures in between; and the
 reconciliation at boot that decides which copy wins by comparing times.
 */
module DualWrite {
  import opened Wrappers

  /** A document with the file's mtime or the row's updated_at. Documents are never empty JSON. */
  datatype Stamped = Stamped(doc: string, at: int)

  /** One store: its file and its singleton row. */
  datatype Store = Store(file: Option<Stamped>, row: Option<Stamped>)

  /** What became of a persist: cut before the rename, file only (no database, failed, or cut), or both. */
  datatype Outcome = Cut | FileOnly | Both(dbAt: int)

  datatype Step =
    | Persist(doc: string, at: int, outcome: Outcome)
    | Boot(dbUp: bool, timeRead: bool, pushOk: bool, at: int)

  /**
   The file must be pushed: it exists, is not empty, and the row is absent or strictly older. A row
   whose time could not be read counts as absent.
   */
  predicate NeedsPush(s: Store, timeRead: bool) {
    s.file.Some? && s.file.value.doc != "" && (!timeRead || s.row.None? || s.file.value.at > s.row.value.at)
  }

  /** A push that fails, or whose file cannot be read, changes nothing. */
  function Reconcile(s: Store, timeRead: bool, pushOk: bool, at: int): Store {
    if NeedsPush(s, timeRead) && pushOk then s.(row := Some(Stamped(s.file.value.doc, at))) else s
  }

  function PersistStep(s: Store, doc: string, at: int, outcome: Outcome): Store {
    match outcome
    case Cut => s
    case FileOnly => s.(file := Some(Stamped(doc, at)))
    case Both(dbAt) => Store(Some(Stamped(doc, at)), Some(Stamped(doc, dbAt)))
  }

  function Apply(s: Store, st: Step): Store {
    match st
    case Persist(doc, at, outcome) => PersistStep(s, doc, at, outcome)
    case Boot(dbUp, timeRead, pushOk, at) => if dbUp then Reconcile(s, timeRead, pushOk, at) else s
  }

  /** Database first when it answers with a row, else the file; None seeds the built-ins. */
  function Load(s: Store, dbUp: bool): Option<string> {
    if dbUp && s.row.Some? then Some(s.row.value.doc)
    else if s.file.Some? && s.file.value.doc != "" then Some(s.file.value.doc)
    else None
  }

  // ---------- the program's stores

  const NO_ANSWER := "the database does not answer"

  class ConfigDocs {
    /** Files by path, rows by table. */
    var files: map<string, Stamped>
    var rows: map<string, Stamped>

    function View(table: string, path: string): Store
      reads this
    {
      Store(Lookup(files, path), Lookup(rows, table))
    }

    method SaveConfigDoc(table: string, doc: string, ok: bool, now: int)
      modifies `rows
      ensures rows == if ok then old(rows)[table := Stamped(doc, now)] else old(rows)
    {
      if ok {
        rows := rows[table := Stamped(doc, now)];
      }
    }

    /** Ok(None) when the row is absent; a database that does not answer is an error. */
    method LoadConfigDoc(table: string, answers: bool) returns (res: Result<Option<string>>)
      ensures res == if !answers then Err(NO_ANSWER)
                     else Ok(if table in rows then Some(rows[table].doc) else None)
    {
      if !answers { return Err(NO_ANSWER); }
      if table in rows { return Ok(Some(rows[table].doc)); }
      return Ok(None);
    }

    /** A store at boot: the database if one is configured and holds a row, else a non-empty file. */
    method LoadStore(table: string, path: string, configured: bool, answers: bool) returns (doc: Option<string>)
      ensures doc == Load(View(table, path), configured && answers)
    {
      if configured {
        var res := LoadConfigDoc(table, answers);
        if res.Ok? && res.value.Some? { return res.value; }
      }
      if path in files && files[path].doc != "" { return Some(files[path].doc); }
      return None;
    }

    /** The temporary file is written and renamed, then the row is upserted; any of these may not happen. */
    method PersistLocked(table: string, path: string, doc: string, at: int, outcome: Outcome)
      modifies this
      ensures View(table, path) == PersistStep(old(View(table, path)), doc, at, outcome)
      ensures files == if outcome.Cut? then old(files) else old(files)[path := Stamped(doc, at)]
      ensures rows == if outcome.Both? then old(rows)[table := Stamped(doc, outcome.dbAt)] else old(rows)
    {
      if outcome.Cut? { return; }
      files := files[path := Stamped(doc, at)];
      if outcome.Both? {
        SaveConfigDoc(table, doc, true, outcome.dbAt);
      }
    }

    /**
     reconcileConfigDocs over the registered stores; reading row i's time and push i, at time at[i],
     may fail.
     */
    method ReconcileConfigDocs(stores: seq<(string, string)>, timeRead: seq<bool>, pushOk: seq<bool>, at: seq<int>)
      requires |timeRead| == |pushOk| == |at| == |stores|
      requires forall i, j :: 0 <= i < j < |stores| ==> stores[i].0 != stores[j].0
      modifies `rows
      ensures forall i :: 0 <= i < |stores| ==>
        View(stores[i].0, stores[i].1) == Reconcile(old(View(stores[i].0, stores[i].1)), timeRead[i], pushOk[i], at[i])
      ensures forall t :: (forall i :: 0 <= i < |stores| ==> stores[i].0 != t) ==>
        Lookup(rows, t) == Lookup(old(rows), t)
    {
      var i := 0;
      while i < |stores|
        invariant 0 <= i <= |stores|
        invariant forall k :: 0 <= k < i ==>
          View(stores[k].0, stores[k].1) ==
            Reconcile(old(View(stores[k].0, stores[k].1)), timeRead[k], pushOk[k], at[k])
        invariant forall t :: (forall k :: 0 <= k < i ==> stores[k].0 != t) ==> Lookup(rows, t) == Lookup(old(rows), t)
      {
        var table, path := stores[i].0, stores[i].1;
        assert Lookup(rows, table) == Lookup(old(rows), table);
        if path in files {
          var updated := if timeRead[i] && table in rows then Some(rows[table].at) else None;
          if updated.None? || files[path].at > updated.value {
            if files[path].doc != "" {
              SaveConfigDoc(table, files[path].doc, pushOk[i], at[i]);
            }
          }
        }
        i := i + 1;
      }
    }
  }

  // ---------- recovery

  /** Times a step touches the clock with. */
  predicate After(st: Step, clock: int) {
    match st
    case Persist(doc, at, outcome) => doc != "" && clock < at && (outcome.Both? ==> at < outcome.dbAt)
    case Boot(_, _, _, at) => clock < at
  }

  function EndOf(st: Step): int {
    match st
    case Persist(_, at, outcome) => if outcome.Both? then outcome.dbAt else at
    case Boot(_, _, _, at) => at
  }

  function Clock(steps: seq<Step>, start: int): int {
    if steps == [] then start else EndOf(steps[|steps| - 1])
  }

  /** Strictly increasing times throughout. */
  predicate Ordered(steps: seq<Step>, start: int) {
    steps == [] ||
    (Ordered(steps[..|steps| - 1], start) && After(steps[|steps| - 1], Clock(steps[..|steps| - 1], start)))
  }

  function Run(steps: seq<Step>): Store {
    if steps == [] then Store(None, None) else Apply(Run(steps[..|steps| - 1]), steps[|steps| - 1])
  }

  /** The document of the last persist that reached the rename. */
  function LastRenamed(steps: seq<Step>): Option<string> {
    if steps == [] then None
    else if steps[|steps| - 1].Persist? && !steps[|steps| - 1].outcome.Cut? then Some(steps[|steps| - 1].doc)
    else LastRenamed(steps[..|steps| - 1])
  }

  /** The file is the last renamed document; a row that is not older agrees with it. */
  ghost predicate Consistent(s: Store, last: Option<string>, clock: int) {
    && (s.file.Some? <==> last.Some?)
    && (s.file.Some? ==> s.file.value.doc == last.value && last.value != "" && s.file.value.at <= clock)
    && (s.row.Some? ==> s.file.Some? && s.row.value.at <= clock)
    && (s.row.Some? && s.file.value.at <= s.row.value.at ==> s.row.value.doc == s.file.value.doc)
  }

  lemma StepConsistent(s: Store, st: Step, last: Option<string>, clock: int)
    requires Consistent(s, last, clock) && After(st, clock)
    ensures Consistent(Apply(s, st), if st.Persist? && !st.outcome.Cut? then Some(st.doc) else last, EndOf(st))
  {
  }

  lemma {:induction false} RunConsistent(steps: seq<Step>, start: int)
    requires Ordered(steps, start)
    ensures Consistent(Run(steps), LastRenamed(steps), Clock(steps, start))
  {
    if steps != [] {
      var init := steps[..|steps| - 1];
      RunConsistent(init, start);
      StepConsistent(Run(init), steps[|steps| - 1], LastRenamed(init), Clock(init, start));
    }
  }

  /**
   Whatever writes, crashes, database failures, unread row times and restarts came before, a boot
   loads the last renamed document, except in exactly one case: the push was needed and failed
   while the database still answered the load with an older, different document.
   */
  lemma BootLoadsLastRenamed(
    steps: seq<Step>, start: int, dbUp: bool, timeRead: bool, pushOk: bool, at: int, loadUp: bool)
    requires Ordered(steps + [Boot(dbUp, timeRead, pushOk, at)], start) && (loadUp ==> dbUp)
    ensures var s := Run(steps);
      Load(Run(steps + [Boot(dbUp, timeRead, pushOk, at)]), loadUp) == LastRenamed(steps) <==>
      !(loadUp && NeedsPush(s, timeRead) && !pushOk && s.row.Some? && s.row.value.doc != s.file.value.doc)
  {
    var all := steps + [Boot(dbUp, timeRead, pushOk, at)];
    assert all[..|all| - 1] == steps;
    RunConsistent(steps, start);
  }

  /** With a successful push nothing is ever lost. */
  lemma SuccessfulPushRecovers(steps: seq<Step>, start: int, dbUp: bool, timeRead: bool, at: int, loadUp: bool)
    requires Ordered(steps + [Boot(dbUp, timeRead, true, at)], start) && (loadUp ==> dbUp)
    ensures Load(Run(steps + [Boot(dbUp, timeRead, true, at)]), loadUp) == LastRenamed(steps)
  {
    BootLoadsLastRenamed(steps, start, dbUp, timeRead, true, at, loadUp);
  }

  /** In steady state, after a persist that reached both copies, a boot that reads the row's time pushes nothing. */
  lemma SteadyStateIsQuiet(steps: seq<Step>, start: int, doc: string, at: int, dbAt: int)
    requires Ordered(steps + [Persist(doc, at, Both(dbAt))], start)
    ensures !NeedsPush(Run(steps + [Persist(doc, at, Both(dbAt))]), true)
  {
    var all := steps + [Persist(doc, at, Both(dbAt))];
    assert all[..|all| - 1] == steps;
  }

  // ---------- the steps in the store's own terms

  /**
   A boot whose database answers overwrites the row iff the push goes through, the file is there
   and not empty, and the row is absent, of unknown age, or strictly older; the file never changes.
   */
  lemma BootMeans(s: Store, timeRead: bool, pushOk: bool, at: int)
    ensures var s' := Apply(s, Boot(true, timeRead, pushOk, at));
      && s'.file == s.file
      && s'.row == (if pushOk && s.file.Some? && s.file.value.doc != "" &&
                       (s.row.None? || !timeRead || s.row.value.at < s.file.value.at)
                    then Some(Stamped(s.file.value.doc, at)) else s.row)
    ensures Apply(s, Boot(false, timeRead, pushOk, at)) == s
  {
  }
}
