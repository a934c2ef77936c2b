/** Where an installed client gets by following one plan after another. */
module CatchupPlans {
  import opened Wrappers
  import opened Packages
  import opened RemoteManifest

  /** Where a plan takes a client that stands at `at`. */
  function Next(r: Remote, at: nat): Option<nat> {
    match PlanCatchup(r, Some(at))
    case UpToDate => Some(at)
    case LoadBaseline(baseline) => Some(baseline.sequence)
    case ApplyChain(chain) => Some(if chain == [] then at else chain[|chain| - 1].to)
    case Blocked => None
  }

  /** Where it stands after following `steps` plans. */
  function Follow(r: Remote, at: nat, steps: nat): Option<nat>
    decreases steps
  {
    if steps == 0 then Some(at)
    else match Next(r, at)
      case None => None
      case Some(there) => Follow(r, there, steps - 1)
  }

  ghost predicate CatchesUp(r: Remote, at: nat) {
    exists steps: nat :: Follow(r, at, steps) == Some(r.head)
  }

  /** The packages from `at` on are all retained. */
  predicate InWindow(c: seq<Row>, retain: nat, at: nat) {
    LastMedia(c) + 1 <= at && |c| - at <= retain
  }

  /** The newest media row is a rebaseline ahead of `at`, and nothing since it has been dropped.  A retention of
      zero lists no incremental at all, and then the media root itself is the head. */
  predicate RootAhead(c: seq<Row>, retain: nat, at: nat)
    requires LastMedia(c) < |c|
  {
    var k := LastMedia(c);
    c[k].kind == Rebaseline && at < k + 1 && (|c| - (k + 1) <= retain || retain == 0)
  }

  // --- In terms of the manifest -----------------------------------------------------------------

  lemma WithinWindow(r: Remote, at: nat)
    requires WellShaped(r) && r.minAvailable <= at < r.head
    ensures PlanCatchup(r, Some(at)).ApplyChain? && Next(r, at) == Some(r.head)
  {
    ReachesHead(r, at);
  }

  predicate SupersededAt(r: Remote, at: nat) {
    r.active.kind == Rebaseline && at < r.active.sequence
  }

  lemma BelowWindow(r: Remote, at: nat)
    requires WellShaped(r) && at < r.minAvailable && at < r.head
    ensures if SupersededAt(r, at) then PlanCatchup(r, Some(at)) == LoadBaseline(r.active) && Next(r, at) == Some(r.active.sequence)
            else PlanCatchup(r, Some(at)) == Blocked && Next(r, at) == None
  {
  }

  lemma FromTheRoot(r: Remote)
    requires WellShaped(r)
    ensures r.active.sequence == r.minAvailable ==> Next(r, r.active.sequence) == Some(r.head)
    ensures r.active.sequence < r.minAvailable ==> Next(r, r.active.sequence) == None
  {
    if r.active.sequence < r.minAvailable {
      BelowWindow(r, r.active.sequence);
    } else if r.active.sequence < r.head {
      WithinWindow(r, r.active.sequence);
    }
  }

  lemma FollowTwo(r: Remote, at: nat)
    ensures Follow(r, at, 1) == Next(r, at)
    ensures Follow(r, at, 2) == match Next(r, at) case None => None case Some(there) => Next(r, there)
  {
  }

  lemma Stranded(r: Remote, at: nat)
    requires at != r.head
    requires Next(r, at) == None || (Next(r, at) != Some(r.head) && Next(r, Next(r, at).value) == None)
    ensures !CatchesUp(r, at)
  {
    forall steps: nat ensures Follow(r, at, steps) != Some(r.head) {
      if steps >= 2 && Next(r, at).Some? {
        assert Follow(r, at, steps) == Follow(r, Next(r, at).value, steps - 1);
      }
    }
  }

  lemma ByManifest(r: Remote, at: nat)
    requires WellShaped(r) && at < r.head
    ensures CatchesUp(r, at) <==> r.minAvailable <= at || (SupersededAt(r, at) && r.active.sequence == r.minAvailable)
    ensures CatchesUp(r, at) ==> Follow(r, at, 2) == Some(r.head)
  {
    FollowTwo(r, at);
    FromTheRoot(r);
    if r.minAvailable <= at {
      WithinWindow(r, at);
      assert PlanCatchup(r, Some(r.head)) == UpToDate;
      assert Follow(r, at, 1) == Some(r.head);
    } else {
      BelowWindow(r, at);
      if SupersededAt(r, at) && r.active.sequence == r.minAvailable {
        assert Follow(r, at, 2) == Some(r.head);
      } else {
        Stranded(r, at);
      }
    }
  }

  // --- In terms of the catalog ------------------------------------------------------------------

  lemma WindowOf(c: seq<Row>, served: map<PackageId, Dir>, retain: nat, at: nat)
    requires Chain(c) && RemoteFor(c, served, retain).Success? && LastMedia(c) < |c|
    requires at < RemoteFor(c, served, retain).value.head
    ensures var r := RemoteFor(c, served, retain).value;
      && (r.minAvailable <= at <==> InWindow(c, retain, at))
      && (SupersededAt(r, at) && r.active.sequence == r.minAvailable <==> RootAhead(c, retain, at))
      && r.active.sequence == LastMedia(c) + 1
  {
    BuiltIsSound(c, served, retain);
  }

  /** An installed client behind the head gets there exactly if all it misses is retained or the newest media row
      is a rebaseline ahead of it with nothing dropped since; it needs two plans at most, and loads that rebaseline
      only in the second case.  A client ahead of the head is blocked. */
  lemma InstalledClientCatchesUp(c: seq<Row>, served: map<PackageId, Dir>, retain: nat, at: nat)
    requires Chain(c) && RemoteFor(c, served, retain).Success? && LastMedia(c) < |c|
    ensures var r := RemoteFor(c, served, retain).value;
      && (at < r.head ==> (CatchesUp(r, at) <==> InWindow(c, retain, at) || RootAhead(c, retain, at)))
      && (at < r.head && CatchesUp(r, at) ==> Follow(r, at, 2) == Some(r.head))
      && (at < r.head && InWindow(c, retain, at) ==> Follow(r, at, 1) == Some(r.head) && PlanCatchup(r, Some(at)).ApplyChain?)
      && (at < r.head && RootAhead(c, retain, at) ==>
            Follow(r, at, 1) == Some(LastMedia(c) + 1) && PlanCatchup(r, Some(at)) == LoadBaseline(r.active))
      && (at > r.head ==> PlanCatchup(r, Some(at)) == Blocked)
  {
    BuiltIsSound(c, served, retain);
    var r := RemoteFor(c, served, retain).value;
    if at < r.head {
      WindowOf(c, served, retain, at);
      ByManifest(r, at);
      FollowTwo(r, at);
      if InWindow(c, retain, at) {
        WithinWindow(r, at);
      } else {
        BelowWindow(r, at);
      }
    }
  }
}
