/** One runner's spool directory as agent/job_event_stream.py's `OwnedSpool` reads and
    empties it. A file holds one event, or something `_body` refuses. */
module OwnedSpool {
  import opened Basics
  import opened JobEvents

  datatype Content = Junk | Body(event: Event)

  datatype Entry = Entry(name: string, event: Event)

  const MAX_FILES := 256

  /** `[0-9a-f]{32}\.json` */
  predicate Named(name: string) {
    && |name| == 37 && name[32..] == ".json"
    && forall i | 0 <= i < 32 :: IsDigit(name[i]) || 'a' <= name[i] <= 'f'
  }

  predicate HexDigit(c: char) {
    c in "0123456789abcdef"
  }

  /** A file's name is 32 lower-case hexadecimal digits and ".json", and only such names count. */
  lemma {:induction false} NamedExactly(name: string)
    ensures Named(name) <==>
      exists hex :: |hex| == 32 && (forall i | 0 <= i < 32 :: HexDigit(hex[i])) && name == hex + ".json"
  {
    forall c ensures HexDigit(c) <==> IsDigit(c) || 'a' <= c <= 'f' {}
    if Named(name) {
      assert name == name[..32] + ".json";
    }
    if hex :| |hex| == 32 && (forall i | 0 <= i < 32 :: HexDigit(hex[i])) && name == hex + ".json" {
      assert name[32..] == ".json";
    }
  }

  /** The event a directory entry yields, if it yields one. */
  function Readable(files: map<string, Content>, name: string, runner: string): Option<Event> {
    if Named(name) && name in files && files[name].Body? && Valid(files[name].event, runner)
    then Some(files[name].event)
    else None
  }

  /** Everything readable, in the order the directory lists it. */
  function AllOf(files: map<string, Content>, listing: seq<string>, runner: string): seq<Entry> {
    if listing == [] then []
    else
      var last := listing[|listing| - 1];
      var event := Readable(files, last, runner);
      AllOf(files, listing[..|listing| - 1], runner) + (if event.Some? then [Entry(last, event.value)] else [])
  }

  function FirstFiles(entries: seq<Entry>): seq<Entry> {
    if |entries| <= MAX_FILES then entries else entries[..MAX_FILES]
  }

  lemma {:induction false} AllOfPrefix(files: map<string, Content>, listing: seq<string>, runner: string, k: nat)
    requires k <= |listing|
    ensures AllOf(files, listing[..k], runner) <= AllOf(files, listing, runner)
    decreases |listing|
  {
    if k < |listing| {
      AllOfPrefix(files, listing[..|listing| - 1], runner, k);
      assert listing[..|listing| - 1][..k] == listing[..k];
    } else {
      assert listing[..k] == listing;
    }
  }

  class OwnedSpool {
    var files: map<string, Content>

    constructor (files: map<string, Content>)
      ensures this.files == files
    {
      this.files := files;
    }

    /** Up to 256 readable events in listing order, whatever junk lies between them. A
        stop is looked for every 256 entries; it cuts the answer to a prefix. */
    method Read(runner: string, listing: seq<string>, stopped: nat -> bool) returns (found: seq<Entry>)
      ensures found <= FirstFiles(AllOf(files, listing, runner))
      ensures (forall n: nat :: !stopped(n)) ==> found == FirstFiles(AllOf(files, listing, runner))
    {
      found := [];
      for index := 0 to |listing|
        invariant found == AllOf(files, listing[..index], runner) && |found| < MAX_FILES
      {
        AllOfPrefix(files, listing, runner, index);
        if index % MAX_FILES == 0 && stopped(index / MAX_FILES) { return; }
        assert listing[..index + 1][..index] == listing[..index];
        AllOfPrefix(files, listing, runner, index + 1);
        var event := Readable(files, listing[index], runner);
        if event.Some? {
          found := found + [Entry(listing[index], event.value)];
          if |found| >= MAX_FILES { return; }
        }
      }
      assert listing[..|listing|] == listing;
    }

    /** Deletes the file only while it still holds exactly the expected event. */
    method Acknowledge(name: string, expected: Event) returns (deleted: bool)
      modifies this
      ensures deleted <==> Readable(old(files), name, expected.runner) == Some(expected)
      ensures files == if deleted then old(files) - {name} else old(files)
    {
      if !Named(name) || name !in files { return false; }
      if files[name].Junk? || !Valid(files[name].event, expected.runner) || files[name].event != expected {
        return false;
      }
      files := files - {name};
      return true;
    }

    /** One round of a watcher that records every event it reads: each readable file
        read is acknowledged, and no other file is touched. */
    method Round(runner: string, listing: seq<string>) returns (taken: seq<Entry>)
      modifies this
      ensures taken == FirstFiles(AllOf(old(files), listing, runner))
      ensures files == old(files) - Names(taken)
    {
      taken := Read(runner, listing, n => false);
      assert Names([]) == {} && files == files - Names(taken[..0]);
      for k := 0 to |taken|
        invariant files == old(files) - Names(taken[..k])
      {
        assert taken[..k + 1][..k] == taken[..k];
        FromListing(old(files), listing, runner, k);
        var deleted := Acknowledge(taken[k].name, taken[k].event);
        assert files == old(files) - Names(taken[..k + 1]);
      }
      assert taken[..|taken|] == taken;
    }
  }

  function Names(entries: seq<Entry>): set<string> {
    if entries == [] then {} else Names(entries[..|entries| - 1]) + {entries[|entries| - 1].name}
  }

  lemma {:induction false} AllOfReadable(files: map<string, Content>, listing: seq<string>, runner: string, k: nat)
    requires k < |AllOf(files, listing, runner)|
    ensures
      var entry := AllOf(files, listing, runner)[k];
      entry.name in listing && Readable(files, entry.name, runner) == Some(entry.event)
    decreases |listing|
  {
    var init := listing[..|listing| - 1];
    if k < |AllOf(files, init, runner)| {
      AllOfReadable(files, init, runner, k);
    }
  }

  lemma {:induction false} FromListing(files: map<string, Content>, listing: seq<string>, runner: string, k: nat)
    requires k < |FirstFiles(AllOf(files, listing, runner))|
    ensures
      var entry := FirstFiles(AllOf(files, listing, runner))[k];
      entry.name in files && Readable(files, entry.name, runner) == Some(entry.event)
  {
    AllOfReadable(files, listing, runner, k);
  }

  // ---- draining -------------------------------------------------------------------

  /** The files left after a round that takes what a listing shows. */
  function AfterRound(files: map<string, Content>, listing: seq<string>, runner: string): map<string, Content> {
    files - Names(FirstFiles(AllOf(files, listing, runner)))
  }

  /** What a listing of the directory is: every file there, no name twice. */
  ghost predicate Lists(listing: seq<string>, files: map<string, Content>) {
    NoneTwice(listing) && forall name | name in files :: name in listing
  }

  ghost predicate NoneTwice(listing: seq<string>) {
    forall j, k | 0 <= j < k < |listing| :: listing[j] != listing[k]
  }

  ghost predicate NamesApart(entries: seq<Entry>) {
    forall j, k | 0 <= j < k < |entries| :: entries[j].name != entries[k].name
  }

  /** The files that hold an event of this runner. */
  function Unread(files: map<string, Content>, runner: string): set<string> {
    set name | name in files && Readable(files, name, runner).Some?
  }

  lemma {:induction false} NamesMean(entries: seq<Entry>, name: string)
    ensures name in Names(entries) <==> exists k | 0 <= k < |entries| :: entries[k].name == name
    decreases |entries|
  {
    if entries == [] {
    } else {
      NamesMean(entries[..|entries| - 1], name);
    }
  }

  lemma {:induction false} NamesAppend(entries: seq<Entry>, entry: Entry)
    ensures Names(entries + [entry]) == Names(entries) + {entry.name}
  {
    assert (entries + [entry])[..|entries|] == entries;
  }

  lemma {:induction false} NamesCount(entries: seq<Entry>)
    requires NamesApart(entries)
    ensures |Names(entries)| == |entries|
    decreases |entries|
  {
    if entries == [] {
    } else {
      var init := entries[..|entries| - 1];
      NamesCount(init);
      NamesMean(init, entries[|entries| - 1].name);
    }
  }

  lemma {:induction false} AllOfDistinct(files: map<string, Content>, listing: seq<string>, runner: string)
    requires NoneTwice(listing)
    ensures NamesApart(AllOf(files, listing, runner))
    decreases |listing|
  {
    if listing == [] {
    } else {
      var init, last := listing[..|listing| - 1], listing[|listing| - 1];
      AllOfDistinct(files, init, runner);
      forall j | 0 <= j < |AllOf(files, init, runner)| ensures AllOf(files, init, runner)[j].name != last {
        AllOfReadable(files, init, runner, j);
      }
    }
  }

  lemma {:induction false} AllOfNames(files: map<string, Content>, listing: seq<string>, runner: string, name: string)
    ensures name in Names(AllOf(files, listing, runner)) <==> name in listing && Readable(files, name, runner).Some?
    decreases |listing|
  {
    if listing == [] {
    } else {
      var init, last := listing[..|listing| - 1], listing[|listing| - 1];
      AllOfNames(files, init, runner, name);
      var all, before := AllOf(files, listing, runner), AllOf(files, init, runner);
      assert name in listing <==> name in init || name == last;
      if Readable(files, last, runner).Some? {
        NamesAppend(before, Entry(last, Readable(files, last, runner).value));
      } else {
        assert all == before;
      }
    }
  }

  lemma {:induction false} NamesOfPrefix(entries: seq<Entry>, k: nat)
    requires k <= |entries|
    ensures Names(entries[..k]) <= Names(entries)
  {
    forall name | name in Names(entries[..k]) ensures name in Names(entries) {
      NamesMean(entries[..k], name);
      NamesMean(entries, name);
    }
  }

  /** A round takes 256 of the files that hold an event, or all there are. */
  lemma {:induction false} RoundTakes(files: map<string, Content>, listing: seq<string>, runner: string)
    requires Lists(listing, files)
    ensures |Unread(AfterRound(files, listing, runner), runner)| == Max(0, |Unread(files, runner)| - MAX_FILES)
  {
    hide AllOf, Names, Readable;
    var all := AllOf(files, listing, runner);
    var first, before := FirstFiles(all), Unread(files, runner);
    assert all[..|first|] == first;
    AllOfDistinct(files, listing, runner);
    AllAreUnread(files, listing, runner);
    NamesCount(all);
    NamesCount(first);
    NamesOfPrefix(all, |first|);
    UnreadAfter(files, Names(first), runner);
    SetMinus(before, Names(first));
  }

  lemma {:induction false} AllAreUnread(files: map<string, Content>, listing: seq<string>, runner: string)
    requires Lists(listing, files)
    ensures Names(AllOf(files, listing, runner)) == Unread(files, runner)
  {
    hide AllOf, Names;
    forall name ensures name in Names(AllOf(files, listing, runner)) <==> name in Unread(files, runner) {
      AllOfNames(files, listing, runner, name);
    }
  }

  lemma {:induction false} UnreadAfter(files: map<string, Content>, gone: set<string>, runner: string)
    ensures Unread(files - gone, runner) == Unread(files, runner) - gone
  {
    forall name ensures name in Unread(files - gone, runner) <==> name in Unread(files, runner) - gone {}
  }

  lemma {:induction false} SetMinus(a: set<string>, b: set<string>)
    requires b <= a
    ensures |a - b| == |a| - |b|
  {
  }

  /** The files after one round for each listing. */
  function AfterRounds(files: map<string, Content>, listings: seq<seq<string>>, runner: string): map<string, Content>
    decreases |listings|
  {
    if listings == [] then files else AfterRounds(AfterRound(files, listings[0], runner), listings[1..], runner)
  }

  /** Each round lists the directory as it is by then, in whatever order. */
  ghost predicate AllList(listings: seq<seq<string>>, files: map<string, Content>, runner: string)
    decreases |listings|
  {
    listings == []
    || (Lists(listings[0], files) && AllList(listings[1..], AfterRound(files, listings[0], runner), runner))
  }

  /** Junk cannot keep an event waiting, and rounds drain any spool: however many files,
      whatever lies between them and in whatever order each round lists them, after r
      rounds exactly n - 256 r of n events are left, and none from then on. */
  lemma {:induction false} RoundsDrain(files: map<string, Content>, listings: seq<seq<string>>, runner: string)
    requires AllList(listings, files, runner)
    ensures |Unread(AfterRounds(files, listings, runner), runner)|
         == Max(0, |Unread(files, runner)| - MAX_FILES * |listings|)
    decreases |listings|
  {
    if listings == [] {
    } else {
      RoundTakes(files, listings[0], runner);
      RoundsDrain(AfterRound(files, listings[0], runner), listings[1..], runner);
    }
  }
}
