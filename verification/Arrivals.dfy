/** Why the publish protocol may treat ingest as arriving in the order of its change numbers.  Transactions
    commit in any order, so numbers become visible out of order; but seen through the windows that fenced
    builds freeze, each batch of changes lies above everything seen before. */
module Arrivals {
  import Fence
  import opened PublishState
  import opened PublishRuns

  function Numbers(events: set<Fence.Event>): set<nat> {
    set e | e in events :: e.number
  }

  /** What the packages built so far have settled: the newest high-water mark, and the changes of the corpus up
      to it. */
  function Seen(l: Fence.Ledger, corpus: string, w: World): World {
    w.(top := l.low, changes := Numbers(Fence.Window(l.committed, corpus, 0, l.low)))
  }

  /** The batch that a step of the ledger settles, if it settles one. */
  function Batch(l: Fence.Ledger, a: Fence.Action, corpus: string): seq<Action> {
    if a.Build? && l.builder.Frozen? then
      var scopes := Fence.Window(l.builder.snapshot, corpus, l.low, l.builder.high);
      if scopes == {} && !a.media then [] else [Ingest(Numbers(scopes), l.builder.high)]
    else []
  }

  /** Each step of the fenced ledger is an arrival that the publish protocol allows, or is not seen by it.  A
      build finds a change in its window exactly when it has scopes to ship. */
  lemma StepArrives(l: Fence.Ledger, a: Fence.Action, corpus: string, high: nat, w: World)
    requires Fence.Inv(l, corpus) && Fence.Enabled(l, a, high, true)
    ensures Ran(Seen(l, corpus, w), Batch(l, a, corpus), Seen(Fence.Apply(l, a, corpus, high), corpus, w))
    ensures a.Build? && Batch(l, a, corpus) != [] ==>
      (HasChange(Seen(Fence.Apply(l, a, corpus, high), corpus, w).changes, l.low, l.builder.high) <==>
        Fence.Window(l.builder.snapshot, corpus, l.low, l.builder.high) != {})
  {
    if Batch(l, a, corpus) != [] {
      ShipArrives(l, a, corpus, high, w);
    } else {
      NothingArrives(l, a, corpus, high);
      assert Ran(Seen(l, corpus, w), [], Seen(l, corpus, w));
    }
  }

  lemma NothingArrives(l: Fence.Ledger, a: Fence.Action, corpus: string, high: nat)
    requires Fence.Inv(l, corpus) && Fence.Enabled(l, a, high, true) && Batch(l, a, corpus) == []
    ensures var l' := Fence.Apply(l, a, corpus, high);
      l'.low == l.low && Fence.Window(l'.committed, corpus, 0, l.low) == Fence.Window(l.committed, corpus, 0, l.low)
  {
  }

  lemma ShipArrives(l: Fence.Ledger, a: Fence.Action, corpus: string, high: nat, w: World)
    requires Fence.Inv(l, corpus) && Fence.Enabled(l, a, high, true) && Batch(l, a, corpus) != []
    ensures Ran(Seen(l, corpus, w), Batch(l, a, corpus), Seen(Fence.Apply(l, a, corpus, high), corpus, w))
    ensures HasChange(Seen(Fence.Apply(l, a, corpus, high), corpus, w).changes, l.low, l.builder.high) <==>
      Fence.Window(l.builder.snapshot, corpus, l.low, l.builder.high) != {}
  {
    var scopes := Fence.Window(l.builder.snapshot, corpus, l.low, l.builder.high);
    var before := Fence.Window(l.committed, corpus, 0, l.low);
    var after := Fence.Window(l.committed, corpus, 0, l.builder.high);
    assert after == before + scopes;
    assert Numbers(after) == Numbers(before) + Numbers(scopes);
    var run := [Ingest(Numbers(scopes), l.builder.high)];
    assert run[..0] == [] && After(Seen(l, corpus, w), []) == Seen(l, corpus, w);
    assert Enabled(Seen(l, corpus, w), run[0]);
    if e :| e in scopes {
      assert e.number in Numbers(after);
    }
  }

  /** The arrivals of a whole run. */
  function Arrivals(l: Fence.Ledger, run: seq<Fence.Move>, corpus: string): seq<Action> {
    if run == [] then []
    else
      var n := |run| - 1;
      Arrivals(l, run[..n], corpus) + Batch(Fence.After(l, run[..n], corpus), run[n].action, corpus)
  }

  /** However writers and fenced builds interleave, what the builds settle is a run of legal arrivals. */
  lemma {:induction false} FenceRefinesIngest(run: seq<Fence.Move>, corpus: string, w: World)
    requires Fence.Legal(Fence.EMPTY, run, corpus, true)
    ensures Ran(Seen(Fence.EMPTY, corpus, w), Arrivals(Fence.EMPTY, run, corpus),
                Seen(Fence.After(Fence.EMPTY, run, corpus), corpus, w))
  {
    if run != [] {
      var n := |run| - 1;
      FenceRefinesIngest(run[..n], corpus, w);
      assert Fence.Inv(Fence.EMPTY, corpus);
      Fence.RunKeepsInv(Fence.EMPTY, run[..n], corpus);
      var l := Fence.After(Fence.EMPTY, run[..n], corpus);
      StepArrives(l, run[n].action, corpus, run[n].high, w);
      RunsCompose(Seen(Fence.EMPTY, corpus, w), Arrivals(Fence.EMPTY, run[..n], corpus), Batch(l, run[n].action, corpus));
    }
  }
}
