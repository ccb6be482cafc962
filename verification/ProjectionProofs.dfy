/** What the projection keeps: identities are never merged,
    signed results stay, ended runs stay ended, and exactly when each of these
    or the projection itself can fail. */
module ProjectionProofs {
  import opened Basics
  import opened Projection

  const EMPTY := Db([], [], {}, {})

  // ---- the queries ---------------------------------------------------------------

  lemma {:induction false} PlaceElements(row: Native, sorted: seq<Native>)
    ensures forall r :: r in Place(row, sorted) <==> r == row || r in sorted
    decreases |sorted|
  {
    if sorted != [] && row.history < sorted[0].history {
      PlaceElements(row, sorted[1..]);
      assert sorted == [sorted[0]] + sorted[1..];
    }
  }

  lemma {:induction false} NewestElements(rows: seq<Native>)
    ensures forall r :: r in Newest(rows) <==> r in rows
    decreases |rows|
  {
    if rows == [] {
    } else {
      NewestElements(rows[1..]);
      PlaceElements(rows[0], Newest(rows[1..]));
      assert rows == [rows[0]] + rows[1..];
    }
  }

  ghost predicate Descending(rows: seq<Native>) {
    forall i, j | 0 <= i < j < |rows| :: rows[i].history >= rows[j].history
  }

  lemma {:induction false} PlaceSorts(row: Native, sorted: seq<Native>)
    requires Descending(sorted)
    ensures Descending(Place(row, sorted))
    decreases |sorted|
  {
    if sorted != [] && row.history < sorted[0].history {
      var rest := Place(row, sorted[1..]);
      PlaceSorts(row, sorted[1..]);
      PlaceElements(row, sorted[1..]);
      forall j | 0 <= j < |rest| ensures sorted[0].history >= rest[j].history {
        assert rest[j] in rest;
        if rest[j] != row {
          var k :| 0 <= k < |sorted[1..]| && sorted[1..][k] == rest[j];
          assert sorted[k + 1] == rest[j];
        }
      }
    }
  }

  /** Rows come newest first, and nothing is lost or invented by sorting. */
  lemma {:induction false} NewestSorts(rows: seq<Native>)
    ensures Descending(Newest(rows)) && forall r :: r in Newest(rows) <==> r in rows
    decreases |rows|
  {
    NewestElements(rows);
    if rows == [] {
    } else {
      NewestSorts(rows[1..]);
      PlaceSorts(rows[0], Newest(rows[1..]));
    }
  }

  lemma {:induction false} WithBaseElements(native: seq<Native>, base: Base)
    ensures forall r :: r in WithBase(native, base) <==> r in native && r.base == base
    decreases |native|
  {
    if native == [] {
    } else {
      WithBaseElements(native[1..], base);
      assert native == [native[0]] + native[1..];
    }
  }

  lemma {:induction false} FirstWithIdFinds(rows: seq<Native>, ids: set<(nat, string)>, id: string)
    ensures var r := FirstWithId(rows, ids, id);
            && (r.Some? ==> r.value in rows && (r.value.history, id) in ids)
            && (r.None? ==> forall x | x in rows :: (x.history, id) !in ids)
    decreases |rows|
  {
    if rows == [] {
    } else {
      FirstWithIdFinds(rows[1..], ids, id);
      assert rows == [rows[0]] + rows[1..];
    }
  }

  lemma {:induction false} GroupElements(db: Db, rows: seq<Native>, e: Event, fit: nat)
    ensures forall r | r in Group(db, rows, e, fit) :: r in rows && Eligible(db, r, e) && Fit(db, r, e) == fit
    decreases |rows|
  {
    if rows == [] {
    } else {
      GroupElements(db, rows[1..], e, fit);
      assert rows == [rows[0]] + rows[1..];
    }
  }

  lemma {:induction false} CandidateElements(db: Db, base: Base)
    ensures forall r | r in Candidates(db, base) :: r in db.native && r.base == base
    ensures |Candidates(db, base)| <= 20
  {
    WithBaseElements(db.native, base);
    NewestElements(WithBase(db.native, base));
  }

  lemma {:induction false} FindByFitFacts(db: Db, e: Event)
    ensures var r := FindByFit(db, e);
            r.Some? ==> r.value in db.native && r.value.base == BaseOf(e) && Eligible(db, r.value, e)
                        && Fit(db, r.value, e) <= 2
  {
    var rows := Candidates(db, BaseOf(e));
    CandidateElements(db, BaseOf(e));
    GroupElements(db, rows, e, 0);
    GroupElements(db, rows, e, 1);
    GroupElements(db, rows, e, 2);
  }

  lemma {:induction false} GroupComplete(db: Db, rows: seq<Native>, e: Event, fit: nat, r: Native)
    requires r in rows && Eligible(db, r, e) && Fit(db, r, e) == fit
    ensures r in Group(db, rows, e, fit)
    decreases |rows|
  {
    if rows[0] != r {
      assert rows == [rows[0]] + rows[1..];
      GroupComplete(db, rows[1..], e, fit, r);
    }
  }

  /** The choice is made among the first group that is not empty. */
  lemma {:induction false} FirstGroup(db: Db, e: Event) returns (best: nat)
    ensures best <= 2 && FindByFit(db, e) == Only(Group(db, Candidates(db, BaseOf(e)), e, best))
    ensures forall fit: nat | fit < best :: Group(db, Candidates(db, BaseOf(e)), e, fit) == []
    ensures best < 2 ==> Group(db, Candidates(db, BaseOf(e)), e, best) != []
  {
    var rows := Candidates(db, BaseOf(e));
    best := if Group(db, rows, e, 0) != [] then 0 else if Group(db, rows, e, 1) != [] then 1 else 2;
  }

  /** Never a guess: a row chosen by its interval fits strictly better than every
      other candidate; and when none is chosen although one fits, the best fit
      is shared. */
  lemma {:induction false} NeverGuesses(db: Db, e: Event, r: Native)
    requires r in Candidates(db, BaseOf(e)) && Eligible(db, r, e)
    ensures var found := FindByFit(db, e);
            && (found.Some? && r != found.value ==> Fit(db, found.value, e) < Fit(db, r, e))
            && (found.None? && Fit(db, r, e) <= 2 ==>
                  exists best: nat | best <= Fit(db, r, e) :: |Group(db, Candidates(db, BaseOf(e)), e, best)| >= 2)
  {
    hide Candidates, Group, Eligible, Fit, FindByFit;
    var rows := Candidates(db, BaseOf(e));
    var best := FirstGroup(db, e);
    GroupComplete(db, rows, e, Fit(db, r, e), r);
    GroupElements(db, rows, e, best);
    assert best <= Fit(db, r, e);
  }

  lemma {:induction false} FindExactFacts(db: Db, e: Event)
    requires IdOf(e) != ""
    ensures var r := FindExact(db, e);
            && (r.Some? ==> r.value in db.native && r.value.base == BaseOf(e) && (r.value.history, IdOf(e)) in db.ids)
            && (r.None? ==> forall n | n in db.native && n.base == BaseOf(e) :: (n.history, IdOf(e)) !in db.ids)
  {
    var own := WithBase(db.native, BaseOf(e));
    WithBaseElements(db.native, BaseOf(e));
    NewestElements(own);
    FirstWithIdFinds(Newest(own), db.ids, IdOf(e));
  }

  /** What `_find_run` guarantees: a row of the event's own execution base,
      carrying the event's identity already or none of its kind; and a row that
      carries the identity is never missed. */
  lemma {:induction false} FindRunFacts(db: Db, e: Event)
    ensures var r := FindRun(db, e);
            r.Some? ==>
              && r.value in db.native && r.value.base == BaseOf(e)
              && (IdOf(e) == "" || (r.value.history, IdOf(e)) in db.ids || !HasOther(db.ids, r.value.history, IdOf(e)))
    ensures IdOf(e) != "" ==>
              forall n | n in db.native && n.base == BaseOf(e) && (n.history, IdOf(e)) in db.ids ::
                FindRun(db, e).Some? && (FindRun(db, e).value.history, IdOf(e)) in db.ids
  {
    if IdOf(e) != "" { FindExactFacts(db, e); }
    FindByFitFacts(db, e);
  }

  // ---- well-formed tables -----------------------------------------------------------

  ghost predicate SameKey(a: Run, b: Run) {
    a.runner == b.runner && a.job == b.job && a.started == b.started
  }

  ghost predicate UniqueKeys(runs: seq<Run>) {
    forall i, j | 0 <= i < j < |runs| :: !SameKey(runs[i], runs[j])
  }

  ghost predicate Referenced(db: Db) {
    && (forall n | n in db.native :: n.history < |db.runs|)
    && (forall p | p in db.ids :: p.0 < |db.runs|)
    && (forall p | p in db.names :: p.0 < |db.runs|)
  }

  ghost predicate Tables(db: Db) {
    UniqueKeys(db.runs) && Referenced(db)
  }

  /** Each run has one native row. */
  ghost predicate OneRowPerRun(native: seq<Native>) {
    forall i, j | 0 <= i < j < |native| :: native[i].history != native[j].history
  }

  /** Each run carries at most one hook identity and at most one forge identity. */
  ghost predicate OneIdPerKind(ids: set<(nat, string)>) {
    forall p, q | p in ids && q in ids && p.0 == q.0 && SameKind(p.1, q.1) :: p.1 == q.1
  }

  /** An identity within one (runner, provider, run, attempt) belongs to at
      most one run. */
  ghost predicate OneRunPerId(native: seq<Native>, ids: set<(nat, string)>) {
    forall n, m, id | n in native && m in native && n.base == m.base && (n.history, id) in ids
        && (m.history, id) in ids ::
      n.history == m.history
  }

  ghost predicate AliasSound(db: Db) {
    OneIdPerKind(db.ids) && OneRunPerId(db.native, db.ids)
  }

  ghost predicate Inv(db: Db) {
    Tables(db) && OneRowPerRun(db.native) && AliasSound(db)
  }

  /** The insert of a new run hits the UNIQUE key and is ignored. */
  ghost predicate Ignored(db: Db, e: Event) {
    FindRun(db, e).None? && KeyHolder(db.runs, e.runner, JobOf(e), e.at).Some?
  }

  lemma {:induction false} RenameKeepsKeys(runs: seq<Run>, h: nat, job: string)
    requires UniqueKeys(runs) && h < |runs| && Rename(runs, h, job).Some?
    ensures UniqueKeys(Rename(runs, h, job).value)
    ensures |Rename(runs, h, job).value| == |runs|
  {
    var holder := KeyHolder(runs, runs[h].runner, job, runs[h].started);
    if holder.Some? {
      assert runs[h := runs[h].(job := job)] == runs;
    }
  }

  lemma {:induction false} CloseKeepsKeys(runs: seq<Run>, h: nat, e: Event)
    requires UniqueKeys(runs) && h < |runs|
    ensures UniqueKeys(Close(runs, h, e))
  {
  }

  /** Two native tables that agree on which row belongs to which run. */
  ghost predicate SameRows(a: seq<Native>, b: seq<Native>) {
    |a| == |b| && forall i | 0 <= i < |a| :: a[i].base == b[i].base && a[i].history == b[i].history
  }

  lemma {:induction false} SameRowsSound(a: seq<Native>, b: seq<Native>, ids: set<(nat, string)>)
    requires SameRows(a, b) && OneRowPerRun(a) && OneRunPerId(a, ids)
    ensures OneRowPerRun(b) && OneRunPerId(b, ids)
  {
    forall n, m, id | n in b && m in b && n.base == m.base && (n.history, id) in ids && (m.history, id) in ids
      ensures n.history == m.history
    {
      var i :| 0 <= i < |b| && b[i] == n;
      var j :| 0 <= j < |b| && b[j] == m;
      assert a[i] in a && a[j] in a;
    }
  }

  // ---- every projection keeps the tables ------------------------------------------------

  /** What ProjectKnown may change, whichever way it goes. */
  lemma {:induction false} KnownShape(db: Db, row: Native, e: Event)
    requires Tables(db) && row.history < |db.runs| && ProjectKnown(db, row, e).Some?
    ensures var after := ProjectKnown(db, row, e).value;
            && SameRows(db.native, after.native) && |after.runs| == |db.runs|
            && after.ids == WithAliases(db, row.history, e).ids && after.names == WithAliases(db, row.history, e).names
            && UniqueKeys(after.runs)
  {
    var h := row.history;
    if Rename(db.runs, h, JobOf(e)).Some? {
      RenameKeepsKeys(db.runs, h, JobOf(e));
      CloseKeepsKeys(Rename(db.runs, h, JobOf(e)).value, h, e);
    }
    CloseKeepsKeys(db.runs, h, e);
  }

  lemma {:induction false} KnownKeepsTables(db: Db, row: Native, e: Event)
    requires Tables(db) && row.history < |db.runs| && ProjectKnown(db, row, e).Some?
    ensures Tables(ProjectKnown(db, row, e).value)
  {
    KnownShape(db, row, e);
    var after := ProjectKnown(db, row, e).value;
    forall n | n in after.native ensures n.history < |after.runs| {
      var i :| 0 <= i < |after.native| && after.native[i] == n;
      assert db.native[i] in db.native;
    }
  }

  lemma {:induction false} NewKeepsTables(db: Db, e: Event)
    requires Tables(db)
    ensures Tables(ProjectNew(db, e))
  {
    var holder := KeyHolder(db.runs, e.runner, JobOf(e), e.at);
    var h := if holder.Some? then holder.value else |db.runs|;
    var runs := if holder.Some? then db.runs
                else db.runs + [Run(e.runner, JobOf(e), e.at, None, None, None, None)];
    assert UniqueKeys(runs);
    CloseKeepsKeys(runs, h, e);
  }

  lemma {:induction false} ProjectKeepsTables(db: Db, e: Event)
    requires Tables(db) && Project(db, e).Some?
    ensures Tables(Project(db, e).value)
  {
    if FindRun(db, e).None? {
      NewKeepsTables(db, e);
    } else {
      KnownKeepsTables(db, FindRun(db, e).value, e);
    }
  }

  // ---- identities are never merged ---------------------------------------------------------

  lemma {:induction false} KnownKeepsSound(db: Db, e: Event)
    requires Inv(db) && FindRun(db, e).Some? && Project(db, e).Some?
    ensures Inv(Project(db, e).value)
  {
    var row := FindRun(db, e).value;
    var h, id := row.history, IdOf(e);
    var after := Project(db, e).value;
    KnownShape(db, row, e);
    KnownKeepsTables(db, row, e);
    FindRunFacts(db, e);
    assert OneIdPerKind(after.ids);
    assert OneRunPerId(db.native, after.ids);
    SameRowsSound(db.native, after.native, after.ids);
  }

  /** An ignored insert ties the event to a run it was not matched with. This is
      when that merges two known executions: the run already has another
      identity of the event's kind; or an execution base now reaches one
      identity through two runs. */
  ghost predicate Merges(db: Db, e: Event, h: nat) {
    var id := IdOf(e);
    || (id != "" && HasOther(db.ids, h, id))
    || (exists n, x | n in db.native && (n.history, x) in db.ids ::
          n.base == BaseOf(e) && n.history != h && (h, x) in db.ids)
    || (id != "" && exists n, m | n in db.native && m in db.native ::
          n.history == h && m.base == n.base && m.history != h && (m.history, id) in db.ids)
  }

  ghost function Learned(ids: set<(nat, string)>, h: nat, id: string): set<(nat, string)> {
    if id == "" then ids else ids + {(h, id)}
  }

  lemma {:induction false} NewShape(db: Db, e: Event)
    ensures var holder := KeyHolder(db.runs, e.runner, JobOf(e), e.at);
            var h := if holder.Some? then holder.value else |db.runs|;
            var after := ProjectNew(db, e);
            && after.native == db.native + [Native(BaseOf(e), JobOf(e), h, e.source, e.at)]
            && after.ids == Learned(db.ids, h, IdOf(e))
            && |after.runs| == |db.runs| + if holder.Some? then 0 else 1
  {
  }

  /** Tying a new row and an identity to run `h` keeps soundness, unless it merges. */
  lemma {:induction false} TieKeepsSound(db: Db, e: Event, h: nat, row: Native)
    requires AliasSound(db) && FindRun(db, e).None? && !Merges(db, e, h)
    requires row.base == BaseOf(e) && row.history == h
    ensures OneIdPerKind(Learned(db.ids, h, IdOf(e)))
    ensures OneRunPerId(db.native + [row], Learned(db.ids, h, IdOf(e)))
  {
    FindRunFacts(db, e);
    var ids, native := Learned(db.ids, h, IdOf(e)), db.native + [row];
    assert OneIdPerKind(ids);
    forall n, m, x | n in native && m in native && n.base == m.base && (n.history, x) in ids && (m.history, x) in ids
      ensures n.history == m.history
    {
      if n.history != m.history {
        TieOne(db, e, h, row, n, m, x);
      }
    }
  }

  lemma {:induction false} TieOne(db: Db, e: Event, h: nat, row: Native, n: Native, m: Native, x: string)
    requires AliasSound(db) && FindRun(db, e).None? && row.base == BaseOf(e) && row.history == h
    requires n in db.native + [row] && m in db.native + [row] && n.base == m.base && n.history != m.history
    requires (n.history, x) in Learned(db.ids, h, IdOf(e)) && (m.history, x) in Learned(db.ids, h, IdOf(e))
    ensures Merges(db, e, h)
  {
    FindRunFacts(db, e);
    var a, b := if n in db.native then n else m, if n in db.native then m else n;
    assert a in db.native;
    if b in db.native {
      assert (a.history, x) !in db.ids || (b.history, x) !in db.ids;
    }
  }

  lemma {:induction false} MergeIsUnsound(db: Db, e: Event, h: nat, row: Native)
    requires FindRun(db, e).None? && Merges(db, e, h)
    requires row.base == BaseOf(e) && row.history == h
    ensures !(OneIdPerKind(Learned(db.ids, h, IdOf(e))) && OneRunPerId(db.native + [row], Learned(db.ids, h, IdOf(e))))
  {
    var id, ids, native := IdOf(e), Learned(db.ids, h, IdOf(e)), db.native + [row];
    if id != "" && HasOther(db.ids, h, id) {
      var pair :| pair in db.ids && pair.0 == h && SameKind(pair.1, id) && pair.1 != id;
      assert pair in ids && (h, id) in ids;
    } else if n, x :|
      n in db.native && (n.history, x) in db.ids && n.base == BaseOf(e) && n.history != h && (h, x) in db.ids {
      assert n in native && row in native && (n.history, x) in ids && (h, x) in ids;
    } else {
      var n, m :| n in db.native && m in db.native && n.history == h && m.base == n.base && m.history != h
          && (m.history, id) in db.ids;
      assert n in native && m in native && (h, id) in ids && (m.history, id) in ids;
    }
  }

  /** When an unmatched event keeps identities apart: always if its insert is
      not ignored, and otherwise if and only if tying it to the key's holder
      merges nothing. */
  lemma {:induction false} NewSoundExactly(db: Db, e: Event)
    requires Inv(db) && FindRun(db, e).None?
    ensures AliasSound(ProjectNew(db, e)) <==>
            !(Ignored(db, e) && Merges(db, e, KeyHolder(db.runs, e.runner, JobOf(e), e.at).value))
  {
    NewShape(db, e);
    var holder := KeyHolder(db.runs, e.runner, JobOf(e), e.at);
    var h := if holder.Some? then holder.value else |db.runs|;
    var row := Native(BaseOf(e), JobOf(e), h, e.source, e.at);
    if holder.None? {
      assert !Merges(db, e, h);
    }
    if Merges(db, e, h) {
      MergeIsUnsound(db, e, h, row);
    } else {
      TieKeepsSound(db, e, h, row);
    }
  }

  lemma {:induction false} NewKeepsInv(db: Db, e: Event)
    requires Inv(db) && FindRun(db, e).None? && !Ignored(db, e)
    ensures Inv(ProjectNew(db, e))
  {
    NewKeepsTables(db, e);
    NewSoundExactly(db, e);
    NewShape(db, e);
  }

  lemma {:induction false} ProjectKeepsInv(db: Db, e: Event)
    requires Inv(db) && !Ignored(db, e) && Project(db, e).Some?
    ensures Inv(Project(db, e).value)
  {
    if FindRun(db, e).None? { NewKeepsInv(db, e); } else { KnownKeepsSound(db, e); }
  }

  // ---- whole ledgers ----------------------------------------------------------------------

  function Take(db: Db, e: Event): Option<Db> {
    if Projects(e) then Project(db, e) else Some(db)
  }

  /** The tables after projecting a whole ledger in order, if no event of it is refused. */
  function Replay(db: Db, ledger: seq<Event>): Option<Db>
    decreases |ledger|
  {
    if ledger == [] then Some(db)
    else if Take(db, ledger[0]).None? then None
    else Replay(Take(db, ledger[0]).value, ledger[1..])
  }

  /** No event of the ledger has its insert ignored when its turn comes. */
  ghost predicate NoneIgnored(db: Db, ledger: seq<Event>)
    decreases |ledger|
  {
    ledger == [] || ((Projects(ledger[0]) ==> !Ignored(db, ledger[0]))
                     && (Take(db, ledger[0]).Some? ==> NoneIgnored(Take(db, ledger[0]).value, ledger[1..])))
  }

  /** Alias soundness over every ledger: as long as no insert is ignored, every
      identity belongs to one run and every run to one execution of each kind. */
  lemma {:induction false} ReplayKeepsInv(db: Db, ledger: seq<Event>)
    requires Inv(db) && NoneIgnored(db, ledger) && Replay(db, ledger).Some?
    ensures Inv(Replay(db, ledger).value)
    decreases |ledger|
  {
    if ledger == [] {
    } else {
      if Projects(ledger[0]) { ProjectKeepsInv(db, ledger[0]); }
      ReplayKeepsInv(Take(db, ledger[0]).value, ledger[1..]);
    }
  }

  lemma {:induction false} IdentitiesNeverMerge(ledger: seq<Event>)
    requires NoneIgnored(EMPTY, ledger) && Replay(EMPTY, ledger).Some?
    ensures var db := Replay(EMPTY, ledger).value;
            && (forall p, q | p in db.ids && q in db.ids && p.0 == q.0 && IsHook(p.1) == IsHook(q.1) :: p.1 == q.1)
            && (forall n, m, id | n in db.native && m in db.native && n.base == m.base
                                  && (n.history, id) in db.ids && (m.history, id) in db.ids :: n.history == m.history)
            && OneRowPerRun(db.native)
  {
    ReplayKeepsInv(EMPTY, ledger);
  }

  // ---- signed proof --------------------------------------------------------------------------

  /** A signed event has closed run `h`. */
  ghost predicate SignedClosed(db: Db, h: nat) {
    h < |db.runs| && db.runs[h].ended.Some? && exists n | n in db.native :: n.history == h && n.source == Forge
  }

  /** The one way a worker event reaches a run it was not matched with: its own
      insert is ignored in favour of that run, and it closes it. */
  ghost predicate Overwrites(db: Db, e: Event, h: nat) {
    Ignored(db, e) && KeyHolder(db.runs, e.runner, JobOf(e), e.at) == Some(h) && e.state == Finished
  }

  /** A signed finish that is projected leaves its run signed and closed. */
  lemma {:induction false} SignedFinishCloses(db: Db, e: Event)
    requires Tables(db) && e.source == Forge && e.state == Finished && Project(db, e).Some?
    ensures exists h | 0 <= h < |Project(db, e).value.runs| ::
              SignedClosed(Project(db, e).value, h)
              && Project(db, e).value.runs[h].ended == Some(e.at)
              && Project(db, e).value.runs[h].result == ResultOf(e.result)
  {
    var after := Project(db, e).value;
    FindRunFacts(db, e);
    if FindRun(db, e).None? {
      NewShape(db, e);
      var h := after.native[|db.native|].history;
      assert after.native[|db.native|] in after.native;
      assert SignedClosed(after, h);
    } else {
      var row := FindRun(db, e).value;
      KnownShape(db, row, e);
      var i :| 0 <= i < |db.native| && db.native[i] == row;
      assert after.native[i] in after.native && after.native[i].history == row.history
          && after.native[i].source == Forge;
      assert SignedClosed(after, row.history);
    }
  }

  /** A matched event touches only its own run, never that run's start, never
      un-ends it, and from a worker never a run that signed proof has closed. */
  lemma {:induction false} KnownRuns(db: Db, row: Native, e: Event, h: nat)
    requires row.history < |db.runs| && h < |db.runs| && ProjectKnown(db, row, e).Some?
    ensures var after := ProjectKnown(db, row, e).value;
            && |after.runs| == |db.runs|
            && (h != row.history ==> after.runs[h] == db.runs[h])
            && after.runs[h].started == db.runs[h].started && after.runs[h].runner == db.runs[h].runner
            && (db.runs[h].ended.Some? ==> after.runs[h].ended.Some?)
            && (e.source == Worker && row.source == Forge && db.runs[row.history].ended.Some? ==>
                  after.runs == db.runs && after.native == db.native)
  {
  }

  lemma {:induction false} NewRuns(db: Db, e: Event, h: nat)
    requires h < |db.runs|
    ensures var after := ProjectNew(db, e);
            var holder := KeyHolder(db.runs, e.runner, JobOf(e), e.at);
            h < |after.runs| && after.runs[h] ==
              if holder == Some(h) && e.state == Finished then Close(db.runs, h, e)[h] else db.runs[h]
  {
  }

  /** What a worker event does to a run closed by signed proof, exactly: it
      replaces the run's end and result if its ignored insert lands there, and
      otherwise changes nothing of the run. */
  lemma {:induction false} WorkerOnSigned(db: Db, e: Event, h: nat)
    requires Inv(db) && SignedClosed(db, h) && e.source == Worker && Project(db, e).Some?
    ensures var after := Project(db, e).value;
            h < |after.runs| && after.runs[h] == if Overwrites(db, e, h) then Close(db.runs, h, e)[h] else db.runs[h]
    ensures SignedClosed(Project(db, e).value, h)
  {
    var after := Project(db, e).value;
    var n :| n in db.native && n.history == h && n.source == Forge;
    var i :| 0 <= i < |db.native| && db.native[i] == n;
    if FindRun(db, e).None? {
      NewShape(db, e);
      NewRuns(db, e, h);
      assert after.native[i] in after.native;
    } else {
      FindRunFacts(db, e);
      var row := FindRun(db, e).value;
      KnownRuns(db, row, e, h);
      if row.history == h {
        var j :| 0 <= j < |db.native| && db.native[j] == row;
        assert i == j;
      } else {
        KnownRowStays(db, row, e, i);
      }
    }
  }

  lemma {:induction false} KnownRowStays(db: Db, row: Native, e: Event, i: nat)
    requires row.history < |db.runs| && ProjectKnown(db, row, e).Some?
    requires i < |db.native| && db.native[i].history != row.history
    ensures db.native[i] in ProjectKnown(db, row, e).value.native
  {
    var after := ProjectKnown(db, row, e).value;
    assert after.native[i] == db.native[i];
  }

  /** Signed proof is sticky: over any later sequence of worker events, the
      signed end and result of a run stay, as long as no insert is ignored. */
  lemma {:induction false} SignedProofSticks(db: Db, ledger: seq<Event>, h: nat)
    requires Inv(db) && SignedClosed(db, h)
    requires forall i | 0 <= i < |ledger| :: ledger[i].source == Worker
    requires NoneIgnored(db, ledger) && Replay(db, ledger).Some?
    ensures var after := Replay(db, ledger).value;
            h < |after.runs| && after.runs[h] == db.runs[h] && SignedClosed(after, h)
    decreases |ledger|
  {
    if ledger == [] {
    } else {
      if Projects(ledger[0]) {
        WorkerOnSigned(db, ledger[0], h);
        ProjectKeepsInv(db, ledger[0]);
      }
      SignedProofSticks(Take(db, ledger[0]).value, ledger[1..], h);
    }
  }

  /** From the start of the ledger: once a signed finish has been projected,
      what it said of its run is what the run says after any worker events. */
  lemma {:induction false} SignedResultIsFinal(ledger: seq<Event>, e: Event, later: seq<Event>)
    requires e.source == Forge && e.state == Finished
    requires NoneIgnored(EMPTY, ledger) && Replay(EMPTY, ledger).Some?
    requires !Ignored(Replay(EMPTY, ledger).value, e) && Project(Replay(EMPTY, ledger).value, e).Some?
    requires var db := Project(Replay(EMPTY, ledger).value, e).value;
             NoneIgnored(db, later) && Replay(db, later).Some? && forall i | 0 <= i < |later| ::
                 later[i].source == Worker
    ensures var runs := Replay(Project(Replay(EMPTY, ledger).value, e).value, later).value.runs;
            exists h | 0 <= h < |runs| :: runs[h].ended == Some(e.at) && runs[h].result == ResultOf(e.result)
  {
    ReplayKeepsInv(EMPTY, ledger);
    var db := Replay(EMPTY, ledger).value;
    ProjectKeepsInv(db, e);
    SignedFinishCloses(db, e);
    var closed := Project(db, e).value;
    var h :| 0 <= h < |closed.runs| && SignedClosed(closed, h)
             && closed.runs[h].ended == Some(e.at) && closed.runs[h].result == ResultOf(e.result);
    SignedProofSticks(closed, later, h);
  }

  /** No event, signed or not, matched or not, reopens a run that has ended or
      moves its start. */
  lemma {:induction false} StepNeverReopens(db: Db, e: Event, h: nat)
    requires Tables(db) && h < |db.runs| && Project(db, e).Some?
    ensures var after := Project(db, e).value;
            && h < |after.runs| && after.runs[h].started == db.runs[h].started
            && after.runs[h].runner == db.runs[h].runner
            && (db.runs[h].ended.Some? ==> after.runs[h].ended.Some?)
  {
    if FindRun(db, e).None? {
      NewRuns(db, e, h);
    } else {
      KnownRuns(db, FindRun(db, e).value, e, h);
    }
  }

  lemma {:induction false} NeverReopened(db: Db, ledger: seq<Event>, h: nat)
    requires Tables(db) && h < |db.runs| && Replay(db, ledger).Some?
    ensures var after := Replay(db, ledger).value;
            && h < |after.runs| && after.runs[h].started == db.runs[h].started
            && (db.runs[h].ended.Some? ==> after.runs[h].ended.Some?)
    decreases |ledger|
  {
    if ledger == [] {
    } else {
      if Projects(ledger[0]) {
        StepNeverReopens(db, ledger[0], h);
        ProjectKeepsTables(db, ledger[0]);
      }
      NeverReopened(Take(db, ledger[0]).value, ledger[1..], h);
    }
  }

  // ---- refusal ---------------------------------------------------------------------------------

  /** Exactly which events are refused: a signed event whose job name is already
      taken, for this runner and start instant, by a run other than its own. */
  lemma {:induction false} RefusedExactly(db: Db, e: Event)
    requires Tables(db)
    ensures Project(db, e).None? <==>
              e.source == Forge && FindRun(db, e).Some?
              && exists other | 0 <= other < |db.runs| ::
                   FindRun(db, e).value.history < |db.runs| && other != FindRun(db, e).value.history
                   && SameKey(db.runs[other], db.runs[FindRun(db, e).value.history].(job := JobOf(e)))
  {
    FindRunFacts(db, e);
    if FindRun(db, e).Some? {
      var h := FindRun(db, e).value.history;
      var holder := KeyHolder(db.runs, db.runs[h].runner, JobOf(e), db.runs[h].started);
    }
  }

  // ---- what the assumption on the insert shuts out -----------------------------------------------

  function Signed(run: string, job: string, id: string, state: JobState, at: int, result: Option<string>): Event {
    Event(1, "runner", "github", Some(run), Some("1"), Some(job), Some(id), state, at, Forge, result, at)
  }

  function Local(run: string, job: string, id: string, state: JobState, at: int): Event {
    Event(2, "runner", "github", Some(run), Some("1"), Some(job), Some(id), state, at, Worker, None, at)
  }

  lemma {:induction false} ReplayTwo(a: Event, b: Event)
    requires Projects(a) && Projects(b) && Project(EMPTY, a).Some?
    ensures Replay(EMPTY, [a, b]) == Project(Project(EMPTY, a).value, b)
  {
    assert [a, b][1..] == [b];
    var first := Project(EMPTY, a).value;
    assert Replay(EMPTY, [a, b]) == Replay(first, [b]);
    if Project(first, b).Some? {
      assert Replay(first, [b]) == Replay(Project(first, b).value, [b][1..]);
    }
  }

  /** The first event of a history opens run 0. */
  lemma {:induction false} FirstRun(e: Event)
    ensures FindRun(EMPTY, e).None? && !Ignored(EMPTY, e)
    ensures var db := ProjectNew(EMPTY, e);
            && |db.runs| == 1 && db.native == [Native(BaseOf(e), JobOf(e), 0, e.source, e.at)]
            && db.runs[0].runner == e.runner && db.runs[0].job == JobOf(e) && db.runs[0].started == e.at
            && db.ids == (if IdOf(e) == "" then {} else {(0, IdOf(e))})
            && db.runs[0].ended == (if e.state == Finished then Some(e.at) else None)
  {
  }

  /** A run of another execution base is never found. */
  lemma {:induction false} OtherBaseNotFound(db: Db, e: Event)
    requires |db.native| == 1 && db.native[0].base != BaseOf(e)
    ensures FindRun(db, e).None?
  {
    FindRunFacts(db, e);
  }

  /** A worker event can erase signed proof: a local finish of another workflow
      run, with the same job name at the same instant on the same runner, has
      its insert ignored and closes the signed run over again, without a result. */
  lemma {:induction false} IgnoredInsertErasesProof()
    ensures var ledger := [Signed("1", "verify", "", Finished, 0, Some("success")),
        Local("2", "verify", "", Finished, 0)];
            && Replay(EMPTY, ledger[..1]).Some? && SignedClosed(Replay(EMPTY, ledger[..1]).value, 0)
            && Replay(EMPTY, ledger[..1]).value.runs[0].result == Some("Succeeded")
            && Replay(EMPTY, ledger).Some? && |Replay(EMPTY, ledger).value.runs| == 1
            && Replay(EMPTY, ledger).value.runs[0].result == None
  {
    var a, b := Signed("1", "verify", "", Finished, 0, Some("success")), Local("2", "verify", "", Finished, 0);
    assert [a, b][..1] == [a] && [a][1..] == [];
    FirstRun(a);
    var db := ProjectNew(EMPTY, a);
    assert db.native[0] in db.native;
    ReplayTwo(a, b);
    OtherBaseNotFound(db, b);
    NewRuns(db, b, 0);
    NewShape(db, b);
  }

  /** Two signed executions can end up as one run the same way. */
  lemma {:induction false} IgnoredInsertMergesIdentities()
    ensures var ledger := [Signed("1", "verify", "456", Started, 0, None),
        Signed("2", "verify", "789", Started, 0, None)];
            && Replay(EMPTY, ledger).Some? && |Replay(EMPTY, ledger).value.runs| == 1
            && (0, "456") in Replay(EMPTY, ledger).value.ids && (0, "789") in Replay(EMPTY, ledger).value.ids
  {
    var a, b := Signed("1", "verify", "456", Started, 0, None), Signed("2", "verify", "789", Started, 0, None);
    FirstRun(a);
    var db := ProjectNew(EMPTY, a);
    ReplayTwo(a, b);
    OtherBaseNotFound(db, b);
    NewShape(db, b);
  }

  /** The only candidate of an execution base, when it fits exactly, is found. */
  lemma {:induction false} SingleCandidate(db: Db, e: Event, row: Native)
    requires WithBase(db.native, BaseOf(e)) == [row] && FindExact(db, e).None?
    requires Eligible(db, row, e) && Fit(db, row, e) == 0
    ensures FindRun(db, e) == Some(row)
  {
    assert [row][1..] == [];
    assert Newest([row]) == [row];
    assert Group(db, [row], e, 0) == [row];
  }

  /** Two runs of one runner with one start, one hidden behind a signed name. */
  lemma {:induction false} TwoRuns(a: Event, b: Event) returns (second: Db)
    requires a == Signed("1", "lint", "1", Started, 0, None) && b == Local("2", "test", "", Started, 0)
    ensures second == ProjectNew(ProjectNew(EMPTY, a), b)
    ensures Project(EMPTY, a) == Some(ProjectNew(EMPTY, a)) && Project(ProjectNew(EMPTY, a), b) == Some(second)
    ensures |second.native| == 2 && second.native[0].base == BaseOf(a) && second.ids == {(0, "1")}
    ensures second.native[1] == Native(BaseOf(b), "test", 1, Worker, 0)
    ensures |second.runs| == 2 && second.runs[0].job == "lint"
    ensures second.runs[1] == Run("runner", "test", 0, None, None, None, None)
    ensures second.runs[0].runner == "runner" && second.runs[0].started == 0 && Tables(second)
  {
    FirstRun(a);
    var first := ProjectNew(EMPTY, a);
    OtherBaseNotFound(first, b);
    second := ProjectNew(first, b);
  }

  /** A ledger whose third event is refused: a signed name already taken by
      another run of the same runner at the same start. */
  lemma {:induction false} RefusalReachable()
    ensures var first := ProjectNew(EMPTY, Signed("1", "lint", "1", Started, 0, None));
            var second := ProjectNew(first, Local("2", "test", "", Started, 0));
            && Project(EMPTY, Signed("1", "lint", "1", Started, 0, None)) == Some(first)
            && Project(first, Local("2", "test", "", Started, 0)) == Some(second)
            && Project(second, Signed("2", "lint", "2", Started, 0, None)).None?
  {
    var c := Signed("2", "lint", "2", Started, 0, None);
    var second := TwoRuns(Signed("1", "lint", "1", Started, 0, None), Local("2", "test", "", Started, 0));
    hide ProjectNew, FindRun, Project;
    var row := second.native[1];
    assert WithBase(second.native, BaseOf(c)) == [row] by {
      assert second.native[1..] == [row] && [row][1..] == [];
      assert WithBase([row], BaseOf(c)) == [row];
    }
    assert FindExact(second, c).None? by { FindExactFacts(second, c); }
    SingleCandidate(second, c, row);
    RefusedExactly(second, c);
    assert SameKey(second.runs[0], second.runs[1].(job := JobOf(c)));
  }
}
