/** The result of `fetch_time_entries`: a `defaultdict` of `defaultdict(str)`
    from user id and slot label to the description of the entry written
    there. It is kept here as one map keyed by (user id, slot label); a read of
    a key never written gives the reader's default. */
module Occupancy {
  import opened Wrappers
  import opened Stamps
  import opened Slots

  type Grid = map<(string, string), string>

  /** A user id with the entry list the API returned for it. */
  datatype Batch = Batch(userId: string, entries: seq<Entry>)

  /** `time_entries[user].get(time_slot, default)`. */
  function Read(g: Grid, user: string, slot: string, fallback: string): string {
    if (user, slot) in g then g[(user, slot)] else fallback
  }

  /** The description last written to (user, slot), if any. */
  function Lookup(g: Grid, user: string, slot: string): Option<string> {
    if (user, slot) in g then Some(g[(user, slot)]) else None
  }

  /** One pass of the `while` loop for one entry: every slot of the entry
      now holds its description; every other cell is untouched. */
  function WriteLabels(g: Grid, user: string, labels: seq<string>, desc: string): (r: Grid)
    ensures forall k :: k in r <==> k in g || (k.0 == user && k.1 in labels)
    ensures forall k :: k in r ==> r[k] == if k.0 == user && k.1 in labels then desc else g[k]
    decreases |labels|
  {
    if |labels| == 0 then g
    else WriteLabels(g[(user, labels[0]) := desc], user, labels[1..], desc)
  }

  /** All entries of one user, in the order the API returned them. */
  function WriteEntries(g: Grid, user: string, es: seq<Entry>, w: Window, now: Stamp): (r: Grid)
    ensures forall k :: k in r && k.0 != user ==> k in g && r[k] == g[k]
    ensures forall k :: k in g ==> k in r
  {
    if |es| == 0 then g
    else
      var last := es[|es| - 1];
      WriteLabels(WriteEntries(g, user, es[..|es| - 1], w, now), user, EntryLabels(w, last, now), last.description)
  }

  /** `fetch_time_entries`: the outer loop over the user ids. */
  function FetchTimeEntries(g: Grid, batches: seq<Batch>, w: Window, now: Stamp): Grid
  {
    if |batches| == 0 then g
    else
      var last := batches[|batches| - 1];
      WriteEntries(FetchTimeEntries(g, batches[..|batches| - 1], w, now), last.userId, last.entries, w, now)
  }

  /** Reference definition: the description of the last entry in `es`
      whose slots cover `slot`. */
  function LastCover(es: seq<Entry>, slot: string, w: Window, now: Stamp): Option<string> {
    if |es| == 0 then None
    else if slot in EntryLabels(w, es[|es| - 1], now) then Some(es[|es| - 1].description)
    else LastCover(es[..|es| - 1], slot, w, now)
  }

  /** The entries of all batches for `user`, concatenated in order. */
  function EntriesOf(batches: seq<Batch>, user: string): seq<Entry> {
    if |batches| == 0 then []
    else
      var last := batches[|batches| - 1];
      EntriesOf(batches[..|batches| - 1], user) + (if last.userId == user then last.entries else [])
  }

  /** Last write wins within one user: a cell holds the description of the
      last covering entry, or what it held before when none covers it. */
  lemma {:induction false} WriteEntriesLastWins(g: Grid, user: string, es: seq<Entry>, w: Window, now: Stamp, slot: string)
    ensures Lookup(WriteEntries(g, user, es, w, now), user, slot)
         == if LastCover(es, slot, w, now).Some? then LastCover(es, slot, w, now) else Lookup(g, user, slot)
  {
    if |es| > 0 {
      WriteEntriesLastWins(g, user, es[..|es| - 1], w, now, slot);
    }
  }

  /** A cover found in a later list overrides one from an earlier list. */
  lemma {:induction false} LastCoverAppend(a: seq<Entry>, b: seq<Entry>, slot: string, w: Window, now: Stamp)
    ensures LastCover(a + b, slot, w, now)
         == if LastCover(b, slot, w, now).Some? then LastCover(b, slot, w, now) else LastCover(a, slot, w, now)
  {
    if |b| > 0 {
      assert (a + b)[..|a + b| - 1] == a + b[..|b| - 1];
      assert (a + b)[|a + b| - 1] == b[|b| - 1];
      LastCoverAppend(a, b[..|b| - 1], slot, w, now);
    } else {
      assert a + b == a;
    }
  }

  /** Last write wins across the whole fetch: starting from an empty
      result, (user, slot) holds the description of the last entry, over
      all of that user's batches in order, that covers the slot. */
  lemma {:induction false} FetchLastWriteWins(batches: seq<Batch>, w: Window, now: Stamp, user: string, slot: string)
    ensures Lookup(FetchTimeEntries(map[], batches, w, now), user, slot)
         == LastCover(EntriesOf(batches, user), slot, w, now)
  {
    if |batches| > 0 {
      var prefix, last := batches[..|batches| - 1], batches[|batches| - 1];
      var before := FetchTimeEntries(map[], prefix, w, now);
      FetchLastWriteWins(prefix, w, now, user, slot);
      WriteEntriesLastWins(before, last.userId, last.entries, w, now, slot);
      if last.userId == user {
        LastCoverAppend(EntriesOf(prefix, user), last.entries, slot, w, now);
      } else {
        assert EntriesOf(batches, user) == EntriesOf(prefix, user) + [];
        assert EntriesOf(prefix, user) + [] == EntriesOf(prefix, user);
      }
    }
  }

  /** Fetching one user's entries leaves every other user's cells as they
      were. */
  lemma FetchOtherUsersUnchanged(g: Grid, user: string, es: seq<Entry>, w: Window, now: Stamp, other: string, slot: string)
    requires other != user
    ensures Lookup(WriteEntries(g, user, es, w, now), other, slot) == Lookup(g, other, slot)
  {
  }
}
