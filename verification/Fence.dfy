/** The outbox and its high-water fence.  Writers allocate change numbers in one order and commit in
    another; a builder freezes the largest number it sees and never looks below it again.  The fence makes
    that safe: no number at or below the frozen one can become visible afterwards. */
module Fence {

  datatype Event = Event(number: nat, corpus: string)

  datatype Builder =
    | Resting
    | Fenced                                                   // exclusive fence held, nothing read yet
    | Frozen(high: nat, snapshot: set<Event>, holding: bool)   // snapshot taken

  datatype Ledger = Ledger(
    /** change numbers handed out so far; an aborted one is not handed out again */
    issued: nat,
    /** open writers that have emitted, each holding the shared fence, with what they have emitted */
    open: map<int, set<Event>>,
    committed: set<Event>,
    builder: Builder,
    /** the newest package's high-water mark */
    low: nat,
    /** the events of each package built so far */
    delivered: seq<set<Event>>)

  datatype Action =
    | Emit(writer: int, corpus: string)
    | Commit(writer: int)
    | Abort(writer: int)
    | Acquire
    | Freeze
    | Release
    | Build(media: bool)
    | Fail

  function Open(l: Ledger, writer: int): set<Event> {
    if writer in l.open then l.open[writer] else {}
  }

  /** `SELECT COALESCE(max(change_seq), 0)` */
  ghost predicate IsHighest(events: set<Event>, high: nat) {
    && (forall e | e in events :: e.number <= high)
    && (high == 0 || exists e :: e in events && e.number == high)
  }

  /** The scopes changed for `corpus` in `(low, high]`, as the snapshot shows them. */
  function Window(snapshot: set<Event>, corpus: string, low: nat, high: nat): set<Event> {
    set e | e in snapshot && e.corpus == corpus && low < e.number <= high
  }

  function Apply(l: Ledger, a: Action, corpus: string, high: nat): Ledger {
    match a
    case Emit(w, c) =>
      l.(issued := l.issued + 1, open := l.open[w := Open(l, w) + {Event(l.issued + 1, c)}])
    case Commit(w) => l.(committed := l.committed + Open(l, w), open := l.open - {w})
    case Abort(w) => l.(open := l.open - {w})
    case Acquire => l.(builder := Fenced)
    case Freeze => l.(builder := Frozen(high, l.committed, true))
    case Release => if l.builder.Frozen? then l.(builder := l.builder.(holding := false)) else l
    case Build(media) =>
      if !l.builder.Frozen? then l
      else
        var scopes := Window(l.builder.snapshot, corpus, l.low, l.builder.high);
        if scopes == {} && !media then l.(builder := Resting)
        else l.(builder := Resting, low := l.builder.high, delivered := l.delivered + [scopes])
    case Fail => l.(builder := Resting)
  }

  /** Whether the builder holds the exclusive fence. */
  predicate Exclusive(b: Builder) {
    b.Fenced? || (b.Frozen? && b.holding)
  }

  /** Emitting takes the shared fence first, and keeps it until the writer commits or aborts; the exclusive
      fence waits for every holder.  `guarded` is false for a builder that freezes without waiting. */
  ghost predicate Enabled(l: Ledger, a: Action, high: nat, guarded: bool) {
    match a
    case Emit(_, _) => !Exclusive(l.builder)
    case Commit(w) => w in l.open
    case Abort(w) => w in l.open
    case Acquire => l.builder == Resting && (guarded ==> l.open == map[])
    case Freeze => l.builder == Fenced && IsHighest(l.committed, high)
    case Release => l.builder.Frozen?
    case Build(_) => l.builder.Frozen? && !l.builder.holding
    case Fail => true
  }

  /** One step: the action and, for a freeze, the number read. */
  datatype Move = Move(action: Action, high: nat)

  function After(l: Ledger, run: seq<Move>, corpus: string): Ledger {
    if run == [] then l
    else var last := run[|run| - 1]; Apply(After(l, run[..|run| - 1], corpus), last.action, corpus, last.high)
  }

  ghost predicate Legal(l: Ledger, run: seq<Move>, corpus: string, guarded: bool) {
    run != [] ==>
      var last := run[|run| - 1];
      && Legal(l, run[..|run| - 1], corpus, guarded)
      && Enabled(After(l, run[..|run| - 1], corpus), last.action, last.high, guarded)
  }

  const EMPTY := Ledger(0, map[], {}, Resting, 0, [])

  // --- The invariant --------------------------------------------------------------------------

  /** The events of the packages so far. */
  function Shipped(delivered: seq<set<Event>>): set<Event> {
    if delivered == [] then {} else Shipped(delivered[..|delivered| - 1]) + delivered[|delivered| - 1]
  }

  ghost predicate Disjoint(delivered: seq<set<Event>>) {
    forall i, j | 0 <= i < j < |delivered| :: delivered[i] !! delivered[j]
  }

  /** The lowest number below which nothing can still become visible. */
  function Floor(l: Ledger): nat {
    if l.builder.Frozen? && l.builder.high > l.low then l.builder.high else l.low
  }

  ghost predicate Inv(l: Ledger, corpus: string) {
    && (forall e | e in l.committed :: e.number <= l.issued)
    && (forall w, e | w in l.open && e in l.open[w] :: Floor(l) < e.number <= l.issued)
    && Floor(l) <= l.issued
    && (Exclusive(l.builder) ==> l.open == map[])
    && (l.builder.Frozen? ==>
          && l.low <= l.builder.high
          && (l.builder.high == 0 || exists e :: e in l.committed && e.number == l.builder.high)
          && l.builder.snapshot == set e | e in l.committed && e.number <= l.builder.high)
    && Disjoint(l.delivered)
    && Shipped(l.delivered) == Window(l.committed, corpus, 0, l.low)
    && (l.low == 0 || exists e :: e in l.committed && e.number == l.low)
    && (forall e | e in l.committed :: e.number > 0)
  }

  lemma {:induction false} ShippedDisjoint(delivered: seq<set<Event>>, more: set<Event>)
    requires Disjoint(delivered) && Shipped(delivered) !! more
    ensures Disjoint(delivered + [more]) && Shipped(delivered + [more]) == Shipped(delivered) + more
  {
    assert (delivered + [more])[..|delivered|] == delivered;
    forall i | 0 <= i < |delivered| ensures delivered[i] !! more {
      IsShipped(delivered, i);
    }
  }

  lemma {:induction false} IsShipped(delivered: seq<set<Event>>, i: nat)
    requires i < |delivered|
    ensures delivered[i] <= Shipped(delivered)
  {
    if i < |delivered| - 1 {
      IsShipped(delivered[..|delivered| - 1], i);
    }
  }

  lemma BuildKeeps(l: Ledger, media: bool, corpus: string)
    requires Inv(l, corpus) && l.builder.Frozen? && !l.builder.holding
    ensures Inv(Apply(l, Build(media), corpus, 0), corpus)
  {
    var high := l.builder.high;
    var scopes := Window(l.builder.snapshot, corpus, l.low, high);
    if scopes != {} || media {
      assert Disjoint(l.delivered + [scopes])
          && Shipped(l.delivered + [scopes]) == Window(l.committed, corpus, 0, high)
          && scopes == Window(l.committed, corpus, l.low, high) by {
        ShippedDisjoint(l.delivered, scopes);
      }
    }
  }

  lemma CommitKeeps(l: Ledger, w: int, corpus: string)
    requires Inv(l, corpus) && w in l.open
    ensures Inv(Apply(l, Commit(w), corpus, 0), corpus)
  {
  }

  lemma FreezeKeeps(l: Ledger, high: nat, corpus: string)
    requires Inv(l, corpus) && l.builder == Fenced && IsHighest(l.committed, high)
    ensures Inv(Apply(l, Freeze, corpus, high), corpus)
  {
  }

  lemma StepKeepsInv(l: Ledger, a: Action, corpus: string, high: nat)
    requires Inv(l, corpus) && Enabled(l, a, high, true)
    ensures Inv(Apply(l, a, corpus, high), corpus)
  {
    match a {
      case Emit(w, c) =>
      case Commit(w) => CommitKeeps(l, w, corpus);
      case Abort(w) =>
      case Acquire =>
      case Freeze => FreezeKeeps(l, high, corpus);
      case Release =>
      case Build(media) => BuildKeeps(l, media, corpus);
      case Fail =>
    }
  }

  lemma {:induction false} RunKeepsInv(l: Ledger, run: seq<Move>, corpus: string)
    requires Inv(l, corpus) && Legal(l, run, corpus, true)
    ensures Inv(After(l, run, corpus), corpus)
  {
    if run != [] {
      var n := |run| - 1;
      RunKeepsInv(l, run[..n], corpus);
      StepKeepsInv(After(l, run[..n], corpus), run[n].action, corpus, run[n].high);
    }
  }

  // --- What the fence is for ------------------------------------------------------------------

  /** Nothing is lost and nothing is shipped twice: after any run with the fence, the packages together hold
      exactly the committed events of the corpus up to the newest high-water mark, each in one package. */
  lemma EachEventShippedOnce(run: seq<Move>, corpus: string)
    requires Legal(EMPTY, run, corpus, true)
    ensures var l := After(EMPTY, run, corpus);
      && Shipped(l.delivered) == Window(l.committed, corpus, 0, l.low)
      && forall i, j | 0 <= i < j < |l.delivered| :: l.delivered[i] !! l.delivered[j]
  {
    assert Inv(EMPTY, corpus);
    RunKeepsInv(EMPTY, run, corpus);
  }

  /** Writers come and go and the fence is released, but the build does not end. */
  predicate Ingesting(run: seq<Move>) {
    forall i | 0 <= i < |run| :: run[i].action.Emit? || run[i].action.Commit? || run[i].action.Abort? || run[i].action.Release?
  }

  /** A build that has frozen `high` may release the fence and read the scopes as late as it likes: no event
      numbered at or below `high` that ever commits is missing from the snapshot. */
  lemma {:induction false} FrozenSnapshotIsComplete(l: Ledger, run: seq<Move>, corpus: string)
    requires Inv(l, corpus) && l.builder.Frozen? && Legal(l, run, corpus, true)
    requires Ingesting(run)
    ensures var late := After(l, run, corpus);
      && late.builder.Frozen? && late.builder.high == l.builder.high && late.builder.snapshot == l.builder.snapshot
      && forall e | e in late.committed && e.number <= l.builder.high :: e in l.builder.snapshot
  {
    RunKeepsInv(l, run, corpus);
    StaysFrozen(l, run, corpus);
  }

  lemma {:induction false} StaysFrozen(l: Ledger, run: seq<Move>, corpus: string)
    requires l.builder.Frozen? && Legal(l, run, corpus, true)
    requires Ingesting(run)
    ensures After(l, run, corpus).builder.Frozen?
    ensures After(l, run, corpus).builder.high == l.builder.high
    ensures After(l, run, corpus).builder.snapshot == l.builder.snapshot
  {
    if run != [] {
      var n := |run| - 1;
      StaysFrozen(l, run[..n], corpus);
    }
  }

  /** The set of events at or below the newest high-water mark is settled: later runs never add to it. */
  lemma {:induction false} WindowsAreSettled(l: Ledger, run: seq<Move>, corpus: string)
    requires Inv(l, corpus) && Legal(l, run, corpus, true)
    ensures l.low <= After(l, run, corpus).low
    ensures forall e | e in After(l, run, corpus).committed && e.number <= l.low :: e in l.committed
  {
    if run != [] {
      var n := |run| - 1;
      WindowsAreSettled(l, run[..n], corpus);
      RunKeepsInv(l, run[..n], corpus);
    }
  }

  /** One writer emits 1 and stays open, another emits and commits 2, and a build freezes 2. */
  lemma FrozenTooEarly() returns (l: Ledger, run: seq<Move>)
    ensures Legal(EMPTY, run, "core", false) && After(EMPTY, run, "core") == l
    ensures 1 in l.open && l.open[1] == {Event(1, "core")} && l.low == 0 && l.delivered == []
    ensures l.builder == Frozen(2, {Event(2, "core")}, true)
  {
    l, run := EMPTY, [];
    l, run := Extend(l, run, Move(Emit(1, "core"), 0));
    l, run := Extend(l, run, Move(Emit(2, "core"), 0));
    l, run := Extend(l, run, Move(Commit(2), 0));
    l, run := Extend(l, run, Move(Acquire, 0));
    assert l.committed == {Event(2, "core")};
    l, run := Extend(l, run, Move(Freeze, 2));
  }

  /** The build goes on and ships 2 alone. */
  lemma ShippedTooEarly() returns (l: Ledger, run: seq<Move>)
    ensures Legal(EMPTY, run, "core", false) && After(EMPTY, run, "core") == l
    ensures 1 in l.open && l.open[1] == {Event(1, "core")} && l.low == 2 && l.delivered == [{Event(2, "core")}]
  {
    l, run := FrozenTooEarly();
    l, run := Extend(l, run, Move(Release, 0));
    assert Window(l.builder.snapshot, "core", 0, 2) == {Event(2, "core")};
    l, run := Extend(l, run, Move(Build(false), 0));
  }

  /** Without waiting for the open writers a committed event can be lost for ever: the build ships up to 2, and
      only then is 1 committed. */
  lemma UnguardedBuildLosesAnEvent() returns (run: seq<Move>)
    ensures Legal(EMPTY, run, "core", false)
    ensures var l := After(EMPTY, run, "core");
      Event(1, "core") in l.committed && 1 <= l.low && Event(1, "core") !in Shipped(l.delivered)
  {
    var l: Ledger;
    l, run := ShippedTooEarly();
    ShippedOne(l.delivered, {Event(2, "core")});
    l, run := Extend(l, run, Move(Commit(1), 0));
  }

  lemma ShippedOne(delivered: seq<set<Event>>, scopes: set<Event>)
    requires delivered == [scopes]
    ensures Shipped(delivered) == scopes
  {
    assert delivered[..0] == [];
  }

  lemma Extend(l: Ledger, run: seq<Move>, m: Move) returns (l': Ledger, longer: seq<Move>)
    requires Legal(EMPTY, run, "core", false) && After(EMPTY, run, "core") == l && Enabled(l, m.action, m.high, false)
    ensures l' == Apply(l, m.action, "core", m.high) && longer == run + [m]
    ensures Legal(EMPTY, longer, "core", false) && After(EMPTY, longer, "core") == l'
  {
    l', longer := Apply(l, m.action, "core", m.high), run + [m];
    assert longer[..|run|] == run;
  }
}
