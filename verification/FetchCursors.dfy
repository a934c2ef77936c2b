/** The per-source fetch cursor: which archives are mirrored, and which of them is the newest baseline. */
module FetchCursors {
  import opened Wrappers

  datatype ArchiveKind = Baseline | Delta

  /** An archive file name; the timestamp and the kind are parsed from it. */
  datatype ArchiveName = ArchiveName(kind: ArchiveKind, timestamp: nat, tail: string)

  /** The bytes stand for their digest. */
  datatype Entry = Entry(timestamp: nat, kind: ArchiveKind, digest: string, size: nat)

  datatype Cursor = Cursor(baseline: Option<ArchiveName>, fetched: map<ArchiveName, Entry>)

  const EMPTY := Cursor(None, map[])

  function EntryFor(name: ArchiveName, bytes: string): Entry {
    Entry(name.timestamp, name.kind, bytes, |bytes|)
  }

  /** Entries carry what their names say. */
  predicate Named(c: Cursor) {
    forall n | n in c.fetched :: c.fetched[n].timestamp == n.timestamp && c.fetched[n].kind == n.kind
  }

  /** The baseline is a recorded baseline that no other is newer than; there is none only when no baseline is
      recorded. */
  predicate NewestBaseline(c: Cursor) {
    match c.baseline
    case None => forall n | n in c.fetched :: n.kind != Baseline
    case Some(b) =>
      b in c.fetched && b.kind == Baseline && forall n | n in c.fetched && n.kind == Baseline :: n.timestamp <= b.timestamp
  }

  /** The cursor after `record`. */
  function Recorded(c: Cursor, name: ArchiveName, bytes: string): Cursor {
    var newer :=
      && name.kind == Baseline
      && (c.baseline.Some? && c.baseline.value in c.fetched ==> name.timestamp > c.fetched[c.baseline.value].timestamp);
    Cursor(if newer then Some(name) else c.baseline, c.fetched[name := EntryFor(name, bytes)])
  }

  lemma RecordKeeps(c: Cursor, name: ArchiveName, bytes: string)
    requires Named(c) && NewestBaseline(c)
    ensures Named(Recorded(c, name, bytes)) && NewestBaseline(Recorded(c, name, bytes))
    ensures c.fetched.Keys <= Recorded(c, name, bytes).fetched.Keys
    ensures c.baseline.Some? && name.timestamp <= c.baseline.value.timestamp ==> Recorded(c, name, bytes).baseline == c.baseline
  {
  }

  class FetchCursor {
    var baseline: Option<ArchiveName>
    var fetched: map<ArchiveName, Entry>

    function View(): Cursor
      reads this
    {
      Cursor(baseline, fetched)
    }

    constructor (c: Cursor)
      ensures View() == c
    {
      baseline, fetched := c.baseline, c.fetched;
    }

    method Record(name: ArchiveName, bytes: string)
      modifies this
      ensures View() == Recorded(old(View()), name, bytes)
      ensures old(Named(View()) && NewestBaseline(View())) ==> Named(View()) && NewestBaseline(View())
    {
      ghost var before := View();
      if name.kind == Baseline {
        var newer := true;
        if baseline.Some? && baseline.value in fetched {
          newer := name.timestamp > fetched[baseline.value].timestamp;
        }
        if newer {
          baseline := Some(name);
        }
      }
      fetched := fetched[name := EntryFor(name, bytes)];
      if Named(before) && NewestBaseline(before) {
        RecordKeeps(before, name, bytes);
      }
    }
  }
}
