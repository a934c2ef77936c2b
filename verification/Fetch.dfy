/** The fetch engine: download every archive that the cursor does not know, check it, promote it into the
    mirror or set it aside, and save the cursor once at the end. */
module Fetch {
  import opened Wrappers
  import opened FetchCursors

  /** What happens to one download: the connection fails, or bytes arrive and the moves that follow succeed or
      not. */
  datatype Answer =
    | TransportError(partial: string)
    | Arrived(bytes: string, renamed: bool, movedAside: bool)

  /** What is on disk. */
  datatype Disk = Disk(
    saved: Option<Cursor>,
    mirror: map<ArchiveName, string>,
    parts: map<ArchiveName, string>,
    quarantine: map<ArchiveName, string>)

  function Loaded(d: Disk): Cursor {
    if d.saved.Some? then d.saved.value else EMPTY
  }

  /** Every saved entry has a mirror file that passed integrity, with the recorded digest and size. */
  predicate Sound(d: Disk, good: string -> bool) {
    var c := Loaded(d);
    && Named(c) && NewestBaseline(c)
    && forall n | n in c.fetched :: n in d.mirror && good(d.mirror[n]) && Describes(c.fetched[n], d.mirror[n])
  }

  /** The entry has the digest and the size of the bytes. */
  predicate Describes(e: Entry, bytes: string) {
    e.digest == bytes && e.size == |bytes|
  }

  /** No mirror file of a saved entry has been touched, and the saved cursor is the same. */
  predicate LeavesSaved(d: Disk, d': Disk) {
    d'.saved == d.saved && forall n | n in Loaded(d).fetched && n in d.mirror :: n in d'.mirror && d'.mirror[n] == d.mirror[n]
  }

  function ToFetch(c: Cursor, listing: seq<ArchiveName>): seq<ArchiveName> {
    if listing == [] then []
    else
      var last := listing[|listing| - 1];
      ToFetch(c, listing[..|listing| - 1]) + if last in c.fetched then [] else [last]
  }

  /** The answer that ends a run early. */
  predicate Hard(a: Answer, good: string -> bool) {
    a.TransportError? || (good(a.bytes) && !a.renamed)
  }

  /** How many downloads are gone through before a hard error, all of them when there is none. */
  function Processed(answers: seq<Answer>, good: string -> bool): (n: nat)
    ensures n <= |answers|
    ensures forall i | 0 <= i < n :: !Hard(answers[i], good)
    ensures n < |answers| ==> Hard(answers[n], good)
  {
    if answers == [] || Hard(answers[0], good) then 0 else 1 + Processed(answers[1..], good)
  }

  predicate Promoted(a: Answer, good: string -> bool) {
    a.Arrived? && good(a.bytes)
  }

  /** The cursor after the first `n` downloads. */
  function After(c: Cursor, names: seq<ArchiveName>, answers: seq<Answer>, n: nat, good: string -> bool): Cursor
    requires n <= |names| && n <= |answers|
  {
    if n == 0 then c
    else
      var before := After(c, names, answers, n - 1, good);
      if Promoted(answers[n - 1], good) then Recorded(before, names[n - 1], answers[n - 1].bytes) else before
  }

  /** The last good download of `name` among the first `n`, counted from 1; 0 when there is none. */
  function LastGood(names: seq<ArchiveName>, answers: seq<Answer>, n: nat, good: string -> bool, name: ArchiveName): (i: nat)
    requires n <= |names| && n <= |answers|
    ensures i <= n
    ensures i > 0 ==> names[i - 1] == name && Promoted(answers[i - 1], good)
    ensures forall j | i <= j < n && names[j] == name :: !Promoted(answers[j], good)
  {
    if n == 0 then 0
    else if names[n - 1] == name && Promoted(answers[n - 1], good) then n
    else LastGood(names, answers, n - 1, good, name)
  }

  /** The entries after a prefix are the old ones and those of the good downloads in it, each with the bytes
      of its last good download; nothing is removed. */
  lemma {:induction false} ExactlyTheGoodOnes(
    c: Cursor, names: seq<ArchiveName>, answers: seq<Answer>, n: nat, good: string -> bool, name: ArchiveName)
    requires n <= |names| && n <= |answers|
    ensures name in After(c, names, answers, n, good).fetched <==>
      name in c.fetched || exists i :: 0 <= i < n && names[i] == name && answers[i].Arrived? && good(answers[i].bytes)
    ensures var f, i := After(c, names, answers, n, good).fetched, LastGood(names, answers, n, good, name);
      && (name in f <==> name in c.fetched || i > 0)
      && (name in f ==> f[name] == if i > 0 then EntryFor(name, answers[i - 1].bytes) else c.fetched[name])
  {
    if n > 0 {
      ExactlyTheGoodOnes(c, names, answers, n - 1, good, name);
    }
  }

  class Fetcher {
    var disk: Disk
    /** every state of the disk so far, newest last: where a crash can leave it */
    ghost var history: seq<Disk>
    const good: string -> bool

    constructor (good: string -> bool)
      ensures this.good == good && disk == Disk(None, map[], map[], map[]) && history == [disk]
      ensures Valid()
    {
      this.good := good;
      disk := Disk(None, map[], map[], map[]);
      history := [Disk(None, map[], map[], map[])];
    }

    ghost predicate Valid()
      reads this
    {
      && Sound(disk, good)
      && forall i | 0 <= i < |history| :: Sound(history[i], good)
    }

    /** A write that leaves what the saved cursor stands for alone. */
    method Write(d: Disk)
      requires Valid() && LeavesSaved(disk, d)
      modifies this`disk, this`history
      ensures Valid() && disk == d && history == old(history) + [d]
    {
      disk := d;
      history := history + [d];
    }

    /** Saving a cursor whose every entry is mirrored. */
    method Save(c: Cursor)
      requires Valid() && Mirrored(c, disk.mirror, good)
      modifies this`disk, this`history
      ensures Valid() && disk == old(disk).(saved := Some(c)) && history == old(history) + [disk]
    {
      disk := disk.(saved := Some(c));
      history := history + [disk];
    }

    /** `plan`: the listed archives that the saved cursor does not have, repeats included: each of them as often
        as it is listed and in the order of the listing, and nothing else. */
    method Plan(listing: seq<ArchiveName>) returns (names: seq<ArchiveName>)
      ensures names == ToFetch(Loaded(disk), listing)
      ensures forall n :: multiset(names)[n] == if n in Loaded(disk).fetched then 0 else multiset(listing)[n]
      ensures InOrderOf(names, listing)
    {
      var cursor := Loaded(disk);
      names := [];
      for i := 0 to |listing|
        invariant names == ToFetch(cursor, listing[..i])
      {
        assert listing[..i + 1][..i] == listing[..i];
        if listing[i] !in cursor.fetched {
          names := names + [listing[i]];
        }
      }
      assert listing[..|listing|] == listing;
      PlanCounts(cursor, listing);
      PlanOrder(cursor, listing);
    }

    /** `fetch_one`: the cursor advances only after the rename, which follows the integrity check. */
    method FetchOne(name: ArchiveName, a: Answer, cursor: FetchCursor) returns (hard: bool)
      requires Valid() && name !in Loaded(disk).fetched
      modifies this`disk, this`history, cursor
      ensures Valid() && old(history) <= history && disk.saved == old(disk.saved)
      ensures hard <==> Hard(a, good)
      ensures cursor.View() == if !hard && Promoted(a, good) then Recorded(old(cursor.View()), name, a.bytes) else old(cursor.View())
      ensures disk.mirror == if !hard && Promoted(a, good) then old(disk.mirror)[name := a.bytes] else old(disk.mirror)
      ensures disk.quarantine ==
        if a.Arrived? && !good(a.bytes) && a.movedAside then old(disk.quarantine)[name := a.bytes] else old(disk.quarantine)
      ensures disk.parts == if hard then old(disk.parts)[name := if a.Arrived? then a.bytes else a.partial] else old(disk.parts) - {name}
    {
      if a.TransportError? {
        Write(disk.(parts := disk.parts[name := a.partial]));
        return true;
      }
      Write(disk.(parts := disk.parts[name := a.bytes]));
      if good(a.bytes) {
        if !a.renamed {
          return true;
        }
        Write(disk.(mirror := disk.mirror[name := a.bytes], parts := disk.parts - {name}));
        cursor.Record(name, a.bytes);
      } else {
        SetAside(name, a);
      }
      hard := false;
    }

    /** A corrupt download goes to the quarantine, or is dropped if it cannot be moved there. */
    method SetAside(name: ArchiveName, a: Answer)
      requires Valid() && a.Arrived?
      modifies this`disk, this`history
      ensures Valid() && old(history) <= history
      ensures disk == old(disk).(
        quarantine := if a.movedAside then old(disk.quarantine)[name := a.bytes] else old(disk.quarantine),
        parts := old(disk.parts) - {name})
    {
      if a.movedAside {
        Write(disk.(quarantine := disk.quarantine[name := a.bytes], parts := disk.parts - {name}));
      } else {
        Write(disk.(parts := disk.parts - {name}));
      }
    }

    /** The download loop: one archive after another until the first hard error. */
    method FetchAll(names: seq<ArchiveName>, answers: seq<Answer>, cursor: FetchCursor) returns (n: nat)
      requires Valid() && |names| <= |answers| && Mirrored(cursor.View(), disk.mirror, good)
      requires forall i | 0 <= i < |names| :: names[i] !in Loaded(disk).fetched
      modifies this`disk, this`history, cursor
      ensures Valid() && old(history) <= history && disk.saved == old(disk.saved)
      ensures n == Processed(answers[..|names|], good) <= |names|
      ensures cursor.View() == After(old(cursor.View()), names, answers, n, good)
      ensures Mirrored(cursor.View(), disk.mirror, good)
    {
      n := 0;
      var hard := false;
      while n < |names| && !hard
        invariant n <= |names| && Valid() && old(history) <= history && disk.saved == old(disk.saved)
        invariant forall i | 0 <= i < n :: !Hard(answers[i], good)
        invariant hard ==> n < |names| && Hard(answers[n], good)
        invariant cursor.View() == After(old(cursor.View()), names, answers, n, good)
        invariant Mirrored(cursor.View(), disk.mirror, good)
        decreases |names| - n, !hard
      {
        ghost var c, mirror := cursor.View(), disk.mirror;
        hard := FetchOne(names[n], answers[n], cursor);
        if !hard {
          StaysMirrored(c, mirror, names[n], answers[n].bytes, good);
          n := n + 1;
        }
      }
    }

    /** `run`.  A crash can leave any state of the history behind; the cursor is saved even when a hard error
        ends the run early.  `saves` says whether that write succeeds. */
    method Run(listing: seq<ArchiveName>, answers: seq<Answer>, saves: bool) returns (ok: bool)
      requires Valid() && |answers| >= |listing|
      modifies this`disk, this`history
      ensures Valid() && old(history) <= history
      ensures var names := ToFetch(Loaded(old(disk)), listing);
        && |names| <= |answers|
        && var n := Processed(answers[..|names|], good);
           && disk.saved == (if saves then Some(After(Loaded(old(disk)), names, answers, n, good)) else old(disk.saved))
           && (ok <==> saves && n == |names|)
           && (ok <==> saves && forall i | 0 <= i < |names| ::
                 answers[i].Arrived? && (good(answers[i].bytes) ==> answers[i].renamed))
           && (ok && AllPromoted(answers[..|names|], good) ==> Complete(Loaded(disk), listing))
    {
      var names := Plan(listing);
      var cursor := new FetchCursor(Loaded(disk));
      PlannedAreNew(Loaded(disk), listing);
      var n := FetchAll(names, answers, cursor);
      if saves {
        Save(cursor.View());
      }
      ok := saves && n == |names|;
      EndsWell(answers, |names|, good);
      if ok && AllPromoted(answers[..|names|], good) {
        AllFetched(Loaded(old(disk)), listing, names, answers, good);
      }
    }
  }

  /** Every entry of the cursor in hand has its file in the mirror. */
  predicate Mirrored(c: Cursor, mirror: map<ArchiveName, string>, good: string -> bool) {
    && Named(c) && NewestBaseline(c)
    && forall n | n in c.fetched :: n in mirror && good(mirror[n]) && Describes(c.fetched[n], mirror[n])
  }

  lemma StaysMirrored(c: Cursor, mirror: map<ArchiveName, string>, name: ArchiveName, bytes: string, good: string -> bool)
    requires Mirrored(c, mirror, good)
    ensures good(bytes) ==> Mirrored(Recorded(c, name, bytes), mirror[name := bytes], good)
  {
  }

  // --- What a plan misses, and when nothing is left to fetch -------------------------------------

  lemma {:induction false} PlanCounts(c: Cursor, listing: seq<ArchiveName>)
    ensures forall n :: multiset(ToFetch(c, listing))[n] == if n in c.fetched then 0 else multiset(listing)[n]
  {
    if listing != [] {
      var last := |listing| - 1;
      PlanCounts(c, listing[..last]);
      assert listing == listing[..last] + [listing[last]];
    }
  }

  /** Where in the listing each planned archive stands. */
  predicate Places(at: seq<nat>, plan: seq<ArchiveName>, listing: seq<ArchiveName>) {
    && |at| == |plan|
    && (forall i, j | 0 <= i < j < |at| :: at[i] < at[j])
    && forall i | 0 <= i < |at| :: at[i] < |listing| && listing[at[i]] == plan[i]
  }

  ghost predicate InOrderOf(plan: seq<ArchiveName>, listing: seq<ArchiveName>) {
    exists at: seq<nat> :: Places(at, plan, listing)
  }

  lemma {:induction false} PlanOrder(c: Cursor, listing: seq<ArchiveName>)
    ensures InOrderOf(ToFetch(c, listing), listing)
  {
    if listing == [] {
      assert Places([], [], listing);
    } else {
      var last := |listing| - 1;
      PlanOrder(c, listing[..last]);
      var at: seq<nat> :| Places(at, ToFetch(c, listing[..last]), listing[..last]);
      if listing[last] in c.fetched {
        assert Places(at, ToFetch(c, listing), listing);
      } else {
        assert Places(at + [last], ToFetch(c, listing), listing);
      }
    }
  }

  /** Every listed archive is recorded. */
  predicate Complete(c: Cursor, listing: seq<ArchiveName>) {
    forall n | n in listing :: n in c.fetched
  }

  predicate AllPromoted(answers: seq<Answer>, good: string -> bool) {
    forall i | 0 <= i < |answers| :: Promoted(answers[i], good)
  }

  /** Nothing is planned exactly when every listed archive is recorded. */
  lemma NothingLeft(c: Cursor, listing: seq<ArchiveName>)
    ensures ToFetch(c, listing) == [] <==> Complete(c, listing)
  {
    var plan := ToFetch(c, listing);
    PlanCounts(c, listing);
    forall n | n in listing && n !in c.fetched ensures plan != [] {
      assert multiset(listing)[n] > 0 && multiset(plan)[n] > 0;
    }
    if plan != [] {
      assert plan[0] in multiset(plan) && multiset(plan)[plan[0]] > 0;
      assert multiset(listing)[plan[0]] > 0;
    }
  }

  /** No download ends a run early exactly if each arrived and each good one could be renamed. */
  lemma EndsWell(answers: seq<Answer>, m: nat, good: string -> bool)
    requires m <= |answers|
    ensures Processed(answers[..m], good) == m <==>
      forall i | 0 <= i < m :: answers[i].Arrived? && (good(answers[i].bytes) ==> answers[i].renamed)
  {
    var n := Processed(answers[..m], good);
    if n < m {
      assert Hard(answers[..m][n], good) && answers[..m][n] == answers[n];
    } else {
      forall i | 0 <= i < m ensures answers[i].Arrived? && (good(answers[i].bytes) ==> answers[i].renamed) {
        assert !Hard(answers[..m][i], good);
      }
    }
  }

  /** When every download was good, everything listed is recorded. */
  lemma AllFetched(c: Cursor, listing: seq<ArchiveName>, names: seq<ArchiveName>, answers: seq<Answer>, good: string -> bool)
    requires names == ToFetch(c, listing) && |names| <= |answers| && AllPromoted(answers[..|names|], good)
    ensures Complete(After(c, names, answers, |names|, good), listing)
  {
    PlanCounts(c, listing);
    forall n | n in listing ensures n in After(c, names, answers, |names|, good).fetched {
      if n in c.fetched {
        ExactlyTheGoodOnes(c, names, answers, |names|, good, n);
      } else {
        assert multiset(listing)[n] > 0 && n in multiset(names);
        var i :| 0 <= i < |names| && names[i] == n;
        assert Promoted(answers[..|names|][i], good);
        GoodIsRecorded(c, names, answers, good, i);
      }
    }
  }

  lemma GoodIsRecorded(c: Cursor, names: seq<ArchiveName>, answers: seq<Answer>, good: string -> bool, i: nat)
    requires i < |names| <= |answers| && Promoted(answers[i], good)
    ensures names[i] in After(c, names, answers, |names|, good).fetched
  {
    ExactlyTheGoodOnes(c, names, answers, |names|, good, names[i]);
  }

  lemma {:induction false} PlannedAreNew(c: Cursor, listing: seq<ArchiveName>)
    ensures |ToFetch(c, listing)| <= |listing|
    ensures forall i | 0 <= i < |ToFetch(c, listing)| :: ToFetch(c, listing)[i] !in c.fetched
  {
    if listing != [] {
      PlannedAreNew(c, listing[..|listing| - 1]);
    }
  }

}
