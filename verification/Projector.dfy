/** `NativeHistory` as an object: the tables it updates in place, statement by
    statement, inside one transaction per event. The loops of `_find_run` and
    the updates of `_project` are proved to do what FindRun and Project say. */
module Projector {
  import opened Basics
  import opened Projection

  function Eligibles(db: Db, rows: seq<Native>, e: Event): seq<Native> {
    if rows == [] then []
    else Eligibles(db, rows[..|rows| - 1], e) + (if Eligible(db, rows[|rows| - 1], e) then [rows[|rows| - 1]] else [])
  }

  function Fitting(db: Db, rows: seq<Native>, e: Event, fit: nat): seq<Native> {
    if rows == [] then []
    else Fitting(db, rows[..|rows| - 1], e, fit)
         + (if Fit(db, rows[|rows| - 1], e) == fit then [rows[|rows| - 1]] else [])
  }

  lemma {:induction false} GroupAppends(db: Db, rows: seq<Native>, row: Native, e: Event, fit: nat)
    ensures Group(db, rows + [row], e, fit)
            == Group(db, rows, e, fit) + (if Eligible(db, row, e) && Fit(db, row, e) == fit then [row] else [])
    decreases |rows|
  {
    if rows == [] {
      assert [] + [row] == [row] && [row][1..] == [];
    } else {
      assert (rows + [row])[1..] == rows[1..] + [row];
      GroupAppends(db, rows[1..], row, e, fit);
    }
  }

  lemma {:induction false} FittingAppends(db: Db, rows: seq<Native>, row: Native, e: Event, fit: nat)
    ensures Fitting(db, rows + [row], e, fit)
            == Fitting(db, rows, e, fit) + (if Fit(db, row, e) == fit then [row] else [])
  {
    assert (rows + [row])[..|rows|] == rows;
  }

  /** Filtering in two passes, as the loops do, is one selection. */
  lemma {:induction false} FittingIsGroup(db: Db, rows: seq<Native>, e: Event, fit: nat)
    ensures Fitting(db, Eligibles(db, rows, e), e, fit) == Group(db, rows, e, fit)
    decreases |rows|
  {
    if rows == [] {
    } else {
      var init, last := rows[..|rows| - 1], rows[|rows| - 1];
      assert rows == init + [last];
      GroupAppends(db, init, last, e, fit);
      FittingIsGroup(db, init, e, fit);
      if Eligible(db, last, e) {
        FittingAppends(db, Eligibles(db, init, e), last, e, fit);
      } else {
        assert Eligibles(db, init, e) + [] == Eligibles(db, init, e);
      }
    }
  }

  class NativeHistory {
    const path: string
    var runs: seq<Run>
    var native: seq<Native>
    var names: set<(nat, string)>
    var ids: set<(nat, string)>
    var cursors: map<string, nat>

    constructor (path: string)
      ensures this.path == path && View() == Db([], [], {}, {}) && cursors == map[]
    {
      this.path, runs, native, names, ids, cursors := path, [], [], {}, {}, map[];
    }

    function View(): Db
      reads this
    {
      Db(runs, native, names, ids)
    }

    method Sequence() returns (sequence: nat)
      ensures sequence == if path in cursors then cursors[path] else 0
    {
      sequence := if path in cursors then cursors[path] else 0;
    }

    method FindRun(e: Event) returns (row: Option<Native>)
      ensures row == Projection.FindRun(View(), e)
    {
      ghost var db := View();
      if IdOf(e) != "" {
        var exact := FirstWithId(Newest(WithBase(native, BaseOf(e))), ids, IdOf(e));
        if exact.Some? {
          return exact;
        }
      }
      var candidates := Candidates(View(), BaseOf(e));
      var eligible: seq<Native> := [];
      for k := 0 to |candidates|
        invariant eligible == Eligibles(db, candidates[..k], e)
      {
        assert candidates[..k + 1][..k] == candidates[..k];
        if Eligible(View(), candidates[k], e) {
          eligible := eligible + [candidates[k]];
        }
      }
      assert candidates[..|candidates|] == candidates;
      var at, inside, near: seq<Native> := [], [], [];
      for k := 0 to |eligible|
        invariant at == Fitting(db, eligible[..k], e, 0)
        invariant inside == Fitting(db, eligible[..k], e, 1)
        invariant near == Fitting(db, eligible[..k], e, 2)
      {
        assert eligible[..k + 1] == eligible[..k] + [eligible[k]];
        FittingAppends(db, eligible[..k], eligible[k], e, 0);
        FittingAppends(db, eligible[..k], eligible[k], e, 1);
        FittingAppends(db, eligible[..k], eligible[k], e, 2);
        var fit := Fit(View(), eligible[k], e);
        if fit == 0 {
          at := at + [eligible[k]];
        } else if fit == 1 {
          inside := inside + [eligible[k]];
        } else if fit == 2 {
          near := near + [eligible[k]];
        }
      }
      assert eligible[..|eligible|] == eligible;
      FittingIsGroup(db, candidates, e, 0);
      FittingIsGroup(db, candidates, e, 1);
      FittingIsGroup(db, candidates, e, 2);
      if at != [] {
        return Only(at);
      }
      if inside != [] {
        return Only(inside);
      }
      return Only(near);
    }

    /** `_project`; on false a UNIQUE key refused an update and the tables are
        whatever they were by then, for the transaction to roll back. */
    method Project(e: Event) returns (ok: bool)
      modifies this`runs, this`native, this`names, this`ids
      ensures ok <==> Projection.Project(old(View()), e).Some?
      ensures ok ==> View() == Projection.Project(old(View()), e).value
    {
      var row := FindRun(e);
      var h: nat;
      if row.None? {
        var holder := KeyHolder(runs, e.runner, JobOf(e), e.at);
        if holder.Some? {
          h := holder.value;
        } else {
          h := |runs|;
          runs := runs + [Run(e.runner, JobOf(e), e.at, None, None, None, None)];
        }
        native := native + [Native(BaseOf(e), JobOf(e), h, e.source, e.at)];
        Learn(h, e);
      } else {
        h := row.value.history;
        if h >= |runs| {
          return false;
        }
        var ended := runs[h].ended.Some?;
        Learn(h, e);
        if e.at < row.value.at && e.source != Forge {
          return true;
        }
        if row.value.source == Forge && e.source != Forge && ended {
          return true;
        }
        if e.state == Started && ended {
          if e.source == Forge {
            native := Retitle(native, h, JobOf(e), Forge, None);
            var renamed := Rename(runs, h, JobOf(e));
            if renamed.None? {
              return false;
            }
            runs := renamed.value;
          }
          return true;
        }
        native := Retitle(native, h, if e.source == Forge then JobOf(e) else row.value.job, e.source, Some(e.at));
        if e.source == Forge {
          var renamed := Rename(runs, h, JobOf(e));
          if renamed.None? {
            return false;
          }
          runs := renamed.value;
        }
      }
      if e.state == Finished {
        runs := Close(runs, h, e);
      }
      return true;
    }

    method Learn(h: nat, e: Event)
      modifies this`names, this`ids
      ensures View() == WithAliases(old(View()), h, e)
    {
      names := names + {(h, JobOf(e))};
      if IdOf(e) != "" {
        ids := ids + {(h, IdOf(e))};
      }
    }

    /** `record`: projection and cursor commit together or not at all. */
    method Record(e: Event) returns (ok: bool)
      modifies this
      ensures var before := old(if path in cursors then cursors[path] else 0);
              if path in old(cursors) && before >= e.sequence then
                ok && View() == old(View()) && cursors == old(cursors)
              else if Projects(e) && Projection.Project(old(View()), e).None? then
                !ok && View() == old(View()) && cursors == old(cursors)
              else
                && ok && cursors == old(cursors)[path := e.sequence]
                && View() == if Projects(e) then Projection.Project(old(View()), e).value else old(View())
    {
      if path in cursors && cursors[path] >= e.sequence {
        return true;
      }
      var runs', native', names', ids' := runs, native, names, ids;
      if Projects(e) {
        ok := Project(e);
        if !ok {
          runs, native, names, ids := runs', native', names', ids';   // rollback
          return false;
        }
      }
      cursors := cursors[path := e.sequence];
      return true;
    }
  }
}
