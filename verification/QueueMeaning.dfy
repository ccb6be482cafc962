/** What a sweep of a forge's queue and a recheck between sweeps do to a queued job's alarm,
    told label by label (dashboard/alarms.py `observe_queue`, `recheck_queue`, `can_run`,
    `hosted`). */
module QueueMeaning {
  import opened Basics
  import opened Alarms

  // ---- labels, up to case and blanks -------------------------------------------------

  function LowerCase(c: char): char {
    if 'A' <= c <= 'Z' then (c as int + 32) as char else c
  }

  /** From i to j the text has no blank at either end, and outside there are only blanks. */
  predicate Core(text: string, i: nat, j: nat) {
    && i < j <= |text| && text[i] != ' ' && text[j - 1] != ' '
    && (forall k | 0 <= k < i :: text[k] == ' ') && (forall k | j <= k < |text| :: text[k] == ' ')
  }

  /** The text is this label: the same letters, whatever their case, between blanks. */
  ghost predicate Reads(text: string, tag: string) {
    exists i: nat, j: nat :: Core(text, i, j) && |tag| == j - i
                             && forall k | 0 <= k < |tag| :: tag[k] == LowerCase(text[i + k])
  }

  /** One of these texts is this label. */
  ghost predicate Bears(texts: seq<string>, tag: string) {
    exists text | text in texts :: Reads(text, tag)
  }

  /** A single online runner carries every label asked for. */
  ghost predicate SomeoneCan(asked: seq<string>, online: seq<seq<string>>) {
    exists r | 0 <= r < |online| :: forall tag | Bears(asked, tag) :: Bears(online[r], tag)
  }

  /** A job of the forge's own runners: it asks for nothing, or, not naming self-hosted, for
      a label no runner here has ever carried. */
  ghost predicate ForTheForge(asked: seq<string>, known: set<string>) {
    || (forall tag :: !Bears(asked, tag))
    || (!Bears(asked, "self-hosted")
        && exists tag :: Bears(asked, tag) && forall text | text in known :: !Reads(text, tag))
  }

  lemma {:induction false} TrimIsCore(text: string)
    ensures Trim(text) == "" <==> forall k | 0 <= k < |text| :: text[k] == ' '
    ensures Trim(text) != "" ==> exists i: nat, j: nat :: Core(text, i, j) && text[i..j] == Trim(text)
    decreases |text|
  {
    if text == "" {
    } else if text[0] == ' ' {
      var rest := text[1..];
      TrimIsCore(rest);
      assert forall k | 1 <= k < |text| :: text[k] == rest[k - 1];
      assert forall k | 0 <= k < |rest| :: rest[k] == text[k + 1];
      if Trim(text) != "" {
        var i: nat, j: nat :| Core(rest, i, j) && rest[i..j] == Trim(rest);
        assert Core(text, i + 1, j + 1) && text[i + 1..j + 1] == rest[i..j];
      }
    } else if text[|text| - 1] == ' ' {
      var init := text[..|text| - 1];
      TrimIsCore(init);
      assert text[0] == init[0];
      var i: nat, j: nat :| Core(init, i, j) && init[i..j] == Trim(init);
      assert Core(text, i, j) && text[i..j] == init[i..j];
    } else {
      assert Core(text, 0, |text|) && text[0..|text|] == text;
    }
  }

  lemma {:induction false} OneCore(text: string, i: nat, j: nat, i': nat, j': nat)
    requires Core(text, i, j) && Core(text, i', j')
    ensures i == i' && j == j'
  {
  }

  lemma {:induction false} LowerIsLowerCase(s: string)
    ensures |Lower(s)| == |s| && forall k | 0 <= k < |s| :: Lower(s)[k] == LowerCase(s[k])
  {
  }

  lemma {:induction false} ReadsExactly(text: string, tag: string)
    ensures Reads(text, tag) <==> Trim(text) != "" && tag == Lower(Trim(text))
  {
    TrimIsCore(text);
    if Trim(text) != "" {
      var i: nat, j: nat :| Core(text, i, j) && text[i..j] == Trim(text);
      LowerIsLowerCase(Trim(text));
      if i': nat, j': nat :| Core(text, i', j') && |tag| == j' - i'
                             && forall k | 0 <= k < |tag| :: tag[k] == LowerCase(text[i' + k]) {
        OneCore(text, i, j, i', j');
        assert tag == Lower(Trim(text));
      }
    } else if i': nat, j': nat :| Core(text, i', j') && |tag| == j' - i' {
      assert text[i'] != ' ';
    }
  }

  lemma {:induction false} BearsExactly(texts: seq<string>, tag: string)
    ensures Bears(texts, tag) <==> tag in Normal(texts)
  {
    forall text ensures Reads(text, tag) <==> Trim(text) != "" && tag == Lower(Trim(text)) {
      ReadsExactly(text, tag);
    }
    hide Reads, Trim, Lower;
  }

  lemma {:induction false} CanRunExactly(asked: seq<string>, online: seq<seq<string>>)
    ensures CanRun(asked, online) <==> SomeoneCan(asked, online)
  {
    hide Bears, Normal;
    forall r | 0 <= r < |online|
      ensures Normal(asked) <= Normal(online[r]) <==> forall tag | Bears(asked, tag) :: Bears(online[r], tag)
    {
      IncludesExactly(asked, online[r]);
    }
    if r :| 0 <= r < |online| && Normal(asked) <= Normal(online[r]) {
      assert forall tag | Bears(asked, tag) :: Bears(online[r], tag);
    }
    if r :| 0 <= r < |online| && forall tag | Bears(asked, tag) :: Bears(online[r], tag) {
      assert Normal(asked) <= Normal(online[r]);
    }
  }

  lemma {:induction false} IncludesExactly(asked: seq<string>, have: seq<string>)
    ensures Normal(asked) <= Normal(have) <==> forall tag | Bears(asked, tag) :: Bears(have, tag)
  {
    forall tag ensures Bears(asked, tag) <==> tag in Normal(asked) { BearsExactly(asked, tag); }
    forall tag ensures Bears(have, tag) <==> tag in Normal(have) { BearsExactly(have, tag); }
    hide Bears, Normal;
  }

  lemma {:induction false} HostedExactly(asked: seq<string>, known: set<string>)
    ensures Hosted(asked, known) <==> ForTheForge(asked, known)
  {
    forall tag ensures Bears(asked, tag) <==> tag in Normal(asked) { BearsExactly(asked, tag); }
    forall text, tag ensures Reads(text, tag) <==> Trim(text) != "" && tag == Lower(Trim(text)) {
      ReadsExactly(text, tag);
    }
    hide Bears, Normal, Reads, Trim, Lower;
    var wanted := Normal(asked);
    if wanted == {} {
    } else {
      var tag := Member(wanted);
      assert Bears(asked, tag);
    }
  }

  // ---- a sweep --------------------------------------------------------------------------

  /** The job waits for a runner of ours, and none online can take it. */
  ghost predicate Stuck(job: Job, sweep: Sweep) {
    !ForTheForge(job.labels, sweep.known) && !SomeoneCan(job.labels, sweep.online)
  }

  ghost predicate Takeable(job: Job, sweep: Sweep) {
    !ForTheForge(job.labels, sweep.known) && SomeoneCan(job.labels, sweep.online)
  }

  ghost predicate FirstStuck(id: string, jobs: seq<Job>, sweep: Sweep, f: nat) {
    && f < |jobs| && jobs[f].id == id && Stuck(jobs[f], sweep)
    && forall k | 0 <= k < f && jobs[k].id == id :: !Stuck(jobs[k], sweep)
  }

  ghost predicate LastStuck(id: string, jobs: seq<Job>, sweep: Sweep, l: nat) {
    && l < |jobs| && jobs[l].id == id && Stuck(jobs[l], sweep)
    && forall k | l < k < |jobs| && jobs[k].id == id :: !Stuck(jobs[k], sweep)
  }

  ghost predicate FoundStuck(id: string, jobs: seq<Job>, sweep: Sweep) {
    exists k | 0 <= k < |jobs| :: jobs[k].id == id && Stuck(jobs[k], sweep)
  }

  ghost predicate FoundTakeable(id: string, jobs: seq<Job>, sweep: Sweep) {
    exists k | 0 <= k < |jobs| :: jobs[k].id == id && Takeable(jobs[k], sweep)
  }

  /** What is found waiting is watched: since the row there was began, or since the job
      says, or since now; and raised, once, when that is the threshold ago. */
  ghost predicate WatchedOn(row: Option<Row>, first: Job, last: Job, threshold: nat, now: real, after: Outcome) {
    var since :=
      if row.Some? then row.value.since
      else if first.since != None && first.since != Some(0) then first.since.value else now.Floor;
    var old_ := if row.Some? then row.value.raised else None;
    var raises := old_.None? && now - since as real >= threshold as real;
    && after.row.Some? && after.row.value.kind == JobQueued && after.row.value.since == since
    && after.row.value.raised == (if raises then Some(now.Floor) else old_)
    && after.row.value.acked == (if row.Some? then row.value.acked else None)
    && after.row.value.detail == Detail(last.labels, last.repo, "")
    && after.events == (if raises then [Raised(JobQueued, since, now.Floor)] else [])
  }

  /** The row goes, and its resolve is told if it had been raised. */
  predicate Ends(row: Row, now: real, after: Outcome) {
    && after.row.None?
    && after.events == if row.raised.Some? then [Resolved(row.kind, row.since, row.raised.value, now.Floor)] else []
  }

  lemma {:induction false} WatchIsWatchedOn(row: Option<Row>, job: Job, threshold: nat, now: real)
    requires row.Some? ==> row.value.kind == JobQueued
    ensures WatchedOn(row, job, job, threshold, now,
                      Watch(row, JobQueued, Detail(job.labels, job.repo, ""), SinceOf(job, now), threshold, now))
  {
  }

  lemma {:induction false} WatchAgain(
    row: Option<Row>, first: Job, before: Job, job: Job, threshold: nat, now: real, so: Outcome)
    requires row.Some? ==> row.value.kind == JobQueued
    requires WatchedOn(row, first, before, threshold, now, so)
    ensures
      var again := Watch(so.row, JobQueued, Detail(job.labels, job.repo, ""), SinceOf(job, now), threshold, now);
      WatchedOn(row, first, job, threshold, now, Outcome(again.row, so.events + again.events))
  {
    var again := Watch(so.row, JobQueued, Detail(job.labels, job.repo, ""), SinceOf(job, now), threshold, now);
    assert so.events + [] == so.events;
  }

  ghost predicate FoundSo(
    row: Option<Row>, id: string, jobs: seq<Job>, sweep: Sweep, threshold: nat, now: real, found: Finding)
  {
    && (found.waiting <==> FoundStuck(id, jobs, sweep)) && (found.taken <==> FoundTakeable(id, jobs, sweep))
    && (!found.waiting ==> found.outcome == Outcome(row, []))
    && (found.waiting ==>
          exists f: nat, l: nat ::
            && FirstStuck(id, jobs, sweep, f) && LastStuck(id, jobs, sweep, l)
            && WatchedOn(row, jobs[f], jobs[l], threshold, now, found.outcome))
  }

  lemma {:induction false} StuckGrows(id: string, jobs: seq<Job>, sweep: Sweep, job: Job)
    ensures FoundStuck(id, jobs + [job], sweep) <==> FoundStuck(id, jobs, sweep) || (job.id == id && Stuck(job, sweep))
    ensures FoundTakeable(id, jobs + [job], sweep) <==>
      (FoundTakeable(id, jobs, sweep) || (job.id == id && Takeable(job, sweep)))
  {
    hide Stuck, Takeable;
    var all := jobs + [job];
    assert all[|jobs|] == job;
    assert forall k | 0 <= k < |jobs| :: all[k] == jobs[k];
    if k :| 0 <= k < |all| && all[k].id == id && Stuck(all[k], sweep) { assert k < |jobs| ==> jobs[k] == all[k]; }
    if k :| 0 <= k < |all| && all[k].id == id && Takeable(all[k], sweep) { assert k < |jobs| ==> jobs[k] == all[k]; }
    if k :| 0 <= k < |jobs| && jobs[k].id == id && Stuck(jobs[k], sweep) { assert all[k].id == id; }
    if k :| 0 <= k < |jobs| && jobs[k].id == id && Takeable(jobs[k], sweep) { assert all[k].id == id; }
  }

  /** The job found next is not stuck, or not this one. */
  lemma {:induction false} OtherJob(
    row: Option<Row>, id: string, jobs: seq<Job>, job: Job, sweep: Sweep, threshold: nat, now: real, found: Finding)
    requires FoundSo(row, id, jobs, sweep, threshold, now, found) && !(job.id == id && Stuck(job, sweep))
    ensures FoundSo(row, id, jobs + [job], sweep, threshold, now,
                    found.(taken := found.taken || (job.id == id && Takeable(job, sweep))))
  {
    hide Stuck, Takeable, WatchedOn, FoundStuck, FoundTakeable;
    StuckGrows(id, jobs, sweep, job);
    if found.waiting {
      var f: nat, l: nat :| FirstStuck(id, jobs, sweep, f) && LastStuck(id, jobs, sweep, l)
                            && WatchedOn(row, jobs[f], jobs[l], threshold, now, found.outcome);
      assert FirstStuck(id, jobs + [job], sweep, f) && LastStuck(id, jobs + [job], sweep, l);
    }
  }

  lemma {:induction false} StuckJob(
    row: Option<Row>, id: string, jobs: seq<Job>, job: Job, sweep: Sweep, threshold: nat, now: real, found: Finding)
    requires row.Some? ==> row.value.kind == JobQueued
    requires FoundSo(row, id, jobs, sweep, threshold, now, found) && job.id == id && Stuck(job, sweep)
    ensures
      var again := Watch(found.outcome.row, JobQueued, Detail(job.labels, job.repo, ""), SinceOf(job, now),
          threshold, now);
      FoundSo(row, id, jobs + [job], sweep, threshold, now,
              found.(waiting := true, outcome := Outcome(again.row, found.outcome.events + again.events)))
  {
    hide ForTheForge, SomeoneCan, WatchedOn, FoundStuck, FoundTakeable, Watch, SinceOf;
    StuckGrows(id, jobs, sweep, job);
    var all := jobs + [job];
    assert LastStuck(id, all, sweep, |jobs|);
    if found.waiting {
      var f: nat, l: nat :| FirstStuck(id, jobs, sweep, f) && LastStuck(id, jobs, sweep, l)
                            && WatchedOn(row, jobs[f], jobs[l], threshold, now, found.outcome);
      assert FirstStuck(id, all, sweep, f) && all[f] == jobs[f];
      WatchAgain(row, jobs[f], jobs[l], job, threshold, now, found.outcome);
    } else {
      NoneStuck(id, jobs, sweep);
      assert FirstStuck(id, all, sweep, |jobs|);
      WatchIsWatchedOn(row, job, threshold, now);
      var again := Watch(row, JobQueued, Detail(job.labels, job.repo, ""), SinceOf(job, now), threshold, now);
      assert [] + again.events == again.events;
    }
  }

  lemma {:induction false} NoneStuck(id: string, jobs: seq<Job>, sweep: Sweep)
    requires !FoundStuck(id, jobs, sweep)
    ensures forall k | 0 <= k < |jobs| && jobs[k].id == id :: !Stuck(jobs[k], sweep)
  {
  }

  lemma {:induction false} WaitsExactly(job: Job, sweep: Sweep)
    ensures Waits(job, sweep) <==> Stuck(job, sweep)
    ensures Taken(job, sweep) <==> Takeable(job, sweep)
  {
    CanRunExactly(job.labels, sweep.online);
    HostedExactly(job.labels, sweep.known);
  }

  lemma {:induction false} FoundIsSo(
    row: Option<Row>, forge: string, id: string, jobs: seq<Job>, sweep: Sweep, threshold: nat, now: real)
    requires row.Some? ==> row.value.kind == JobQueued
    ensures FoundSo(row, id, jobs, sweep, threshold, now,
                    Found(row, QueueKey(forge, id), forge, jobs, sweep, threshold, now))
    decreases |jobs|
  {
    hide FoundSo, Stuck, Takeable, Waits, Taken, Watch, SinceOf;
    if jobs == [] {
      NothingFound(row, id, sweep, threshold, now);
    } else {
      var init, job := jobs[..|jobs| - 1], jobs[|jobs| - 1];
      assert jobs == init + [job];
      FoundIsSo(row, forge, id, init, sweep, threshold, now);
      var before := Found(row, QueueKey(forge, id), forge, init, sweep, threshold, now);
      WaitsExactly(job, sweep);
      NotBoth(job, sweep);
      if job.id == id && Stuck(job, sweep) {
        StuckJob(row, id, init, job, sweep, threshold, now, before);
      } else {
        OtherJob(row, id, init, job, sweep, threshold, now, before);
        assert before.(taken := before.taken) == before;
      }
    }
  }

  lemma {:induction false} NotBoth(job: Job, sweep: Sweep)
    ensures !(Stuck(job, sweep) && Takeable(job, sweep))
  {
  }

  lemma {:induction false} NothingFound(row: Option<Row>, id: string, sweep: Sweep, threshold: nat, now: real)
    ensures FoundSo(row, id, [], sweep, threshold, now, Finding(false, false, Outcome(row, [])))
  {
  }

  /** What a sweep does to a queued job. Found waiting, that is, asking for a label, not for
      one only the forge has, and with no single online runner that carries all its labels,
      it is watched and, when due, raised. Not found waiting, its row is resolved when a
      runner can take it, or its repository was swept, or is no longer listed; and else
      stays as it is. */
  lemma {:induction false} SweepMeans(
    row: Option<Row>, forge: string, id: string, sweep: Sweep, threshold: nat, now: real)
    requires row.Some? ==> row.value.kind == JobQueued
    ensures
      var after := Step(row, QueueKey(forge, id), QueueSwept(forge, sweep, threshold, now));
      && (FoundStuck(id, sweep.jobs, sweep) ==>
            exists f: nat, l: nat ::
              && FirstStuck(id, sweep.jobs, sweep, f) && LastStuck(id, sweep.jobs, sweep, l)
              && WatchedOn(row, sweep.jobs[f], sweep.jobs[l], threshold, now, after))
      && (!FoundStuck(id, sweep.jobs, sweep) && row.None? ==> after == Outcome(None, []))
      && (!FoundStuck(id, sweep.jobs, sweep) && row.Some? ==>
            var repo := row.value.detail.repo;
            if FoundTakeable(id, sweep.jobs, sweep) || repo in sweep.swept
               || (sweep.listed.Some? && repo !in sweep.listed.value)
            then Ends(row.value, now, after) else after == Outcome(row, []))
  {
    hide FoundStuck, FoundTakeable, FirstStuck, LastStuck, Found;
    FoundIsSo(row, forge, id, sweep.jobs, sweep, threshold, now);
    var found := Found(row, QueueKey(forge, id), forge, sweep.jobs, sweep, threshold, now);
    if row.Some? { assert [] + Resolve(row, now).events == Resolve(row, now).events; }
  }

  /** A sweep of one forge leaves the queued jobs of another alone, and every key that is
      not a queued job's. */
  lemma {:induction false} SweepLeavesOthers(
    row: Option<Row>, key: Key, forge: string, sweep: Sweep, threshold: nat, now: real)
    requires KindFits(key, row) && !(key.QueueKey? && key.forge == forge)
    ensures Step(row, key, QueueSwept(forge, sweep, threshold, now)) == Outcome(row, [])
  {
    OtherKey(row, key, forge, sweep.jobs, sweep, threshold, now);
  }

  lemma {:induction false} OtherKey(
    row: Option<Row>, key: Key, forge: string, jobs: seq<Job>, sweep: Sweep, threshold: nat, now: real)
    requires !(key.QueueKey? && key.forge == forge)
    ensures Found(row, key, forge, jobs, sweep, threshold, now) == Finding(false, false, Outcome(row, []))
    decreases |jobs|
  {
    if jobs == [] {
    } else {
      OtherKey(row, key, forge, jobs[..|jobs| - 1], sweep, threshold, now);
    }
  }

  /** What a recheck does to a queued job that is watched: it is resolved when one online
      runner carries all its labels, and otherwise watched on and, when due, raised. */
  lemma {:induction false} RecheckMeans(
    row: Row, forge: string, id: string, online: seq<seq<string>>, threshold: nat, now: real)
    requires row.kind == JobQueued
    ensures
      var after := Step(Some(row), QueueKey(forge, id), Recheck(forge, online, threshold, now));
      var raises := row.raised.None? && now - row.since as real >= threshold as real;
      && (SomeoneCan(row.detail.labels, online) ==> Ends(row, now, after))
      && (!SomeoneCan(row.detail.labels, online) ==>
            && after.row == Some(row.(raised := if raises then Some(now.Floor) else row.raised))
            && after.events == if raises then [Raised(JobQueued, row.since, now.Floor)] else [])
  {
    CanRunExactly(row.detail.labels, online);
  }

  /** It leaves other forges' jobs, and everything that is not watched, alone. */
  lemma {:induction false} RecheckLeavesOthers(
    row: Option<Row>, key: Key, forge: string, online: seq<seq<string>>, threshold: nat, now: real)
    requires KindFits(key, row) && (row.None? || !key.QueueKey? || key.forge != forge)
    ensures Step(row, key, Recheck(forge, online, threshold, now)) == Outcome(row, [])
  {
  }
}
