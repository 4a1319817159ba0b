/** One synchronisation cycle (src/core/app.ts, runCycle): diff both
    sources against the last synced state, reconcile with Google Tasks
    taking priority, apply the result to the synced state, and diff each
    source against the new synced state to get what must be pushed to it.
    Fetching the states and pushing the changes are left out. */
module App {
  import opened Model
  import opened StateHelpers

  /** One collection of the synced state after a cycle. */
  function SyncBucket<F>(synced: seq<Entity<F>>, notion: seq<Entity<F>>, google: seq<Entity<F>>, variant: Variant): seq<Entity<F>>
  {
    ApplyBucket(synced, Reconcile(Compare(synced, notion), Compare(synced, google), variant), variant)
  }

  /** runCycle, once both states have been fetched. */
  method RunCycle(syncState: SyncState, notionState: SyncState, googleTaskState: SyncState)
    returns (changesToNotionState: SyncStateChanges, changesToGoogleTaskState: SyncStateChanges)
    requires syncState != notionState && syncState != googleTaskState
    modifies syncState
    ensures syncState.tasklists == SyncBucket(old(syncState.tasklists), notionState.tasklists, googleTaskState.tasklists, AsWritten)
    ensures syncState.tasks == SyncBucket(old(syncState.tasks), notionState.tasks, googleTaskState.tasks, AsWritten)
    ensures changesToNotionState.taskLists == Compare(notionState.tasklists, syncState.tasklists)
    ensures changesToNotionState.tasks == Compare(notionState.tasks, syncState.tasks)
    ensures changesToGoogleTaskState.taskLists == Compare(googleTaskState.tasklists, syncState.tasklists)
    ensures changesToGoogleTaskState.tasks == Compare(googleTaskState.tasks, syncState.tasks)
  {
    var notionChanges := CompareStates(syncState, notionState);
    var googleTaskChanges := CompareStates(syncState, googleTaskState);
    var finalChanges := ReconcileChanges(notionChanges, googleTaskChanges);
    ApplyChangesToState(syncState, finalChanges);
    changesToNotionState := CompareStates(notionState, syncState);
    changesToGoogleTaskState := CompareStates(googleTaskState, syncState);
  }

  lemma {:induction false} ApplyNoChanges<F>(xs: seq<Entity<F>>, variant: Variant)
    ensures ApplyBucket(xs, NoChanges(), variant) == xs
  {
    assert xs + [] == xs;
  }

  /** Reconciling against Notion changes that are empty yields Google's. */
  lemma {:induction false} ReconcileWithEmptyNotion<F>(google: Changes<F>, variant: Variant)
    ensures Reconcile(NoChanges(), google, variant) == google
  {
    assert google.added + [] == google.added;
    assert google.updated + [] == google.updated;
    assert google.deleted + [] == google.deleted;
  }

  /** When both fetched snapshots hold the synced state's own objects, a
      cycle keeps the synced state and has nothing to push to either side.
      No fetch returns those objects: FreshObjectsDropNotionEdit shows what
      a cycle does with the fresh objects the fetches build. */
  lemma {:induction false} QuiescentCycle<F>(synced: seq<Entity<F>>, variant: Variant)
    requires UniqueIds(synced)
    ensures SyncBucket(synced, synced, synced, variant) == synced
    ensures Compare(synced, SyncBucket(synced, synced, synced, variant)) == NoChanges()
  {
    CompareSelfIsEmpty(synced);
    ReconcileWithEmptyGoogle(NoChanges<F>(), variant);
    ApplyNoChanges(synced, variant);
  }

  /** Finding, seen from a whole cycle: Google edits an entity (a new object
      with the same id) and Notion does not. As written the synced state
      keeps the old entity and the cycle pushes it back to Google, undoing
      the edit; as intended the edit is kept and pushed to Notion. */
  lemma {:induction false} GoogleEditRevertedAsWritten<F>(a: Entity<F>, b: Entity<F>)
    requires a.id == b.id && a.ref != b.ref
    ensures SyncBucket([a], [a], [b], AsWritten) == [a]
    ensures Compare([b], SyncBucket([a], [a], [b], AsWritten)) == Changes([], [Update(a.id, a)], [])
    ensures SyncBucket([a], [a], [b], Intended) == [b]
    ensures Compare([b], SyncBucket([a], [a], [b], Intended)) == NoChanges()
    ensures Compare([a], SyncBucket([a], [a], [b], Intended)) == Changes([], [Update(b.id, b)], [])
  {
    CompareSelfIsEmpty([a]);
    CompareSelfIsEmpty([b]);
    ReconcileWithEmptyNotion(Compare([a], [b]), AsWritten);
    ReconcileWithEmptyNotion(Compare([a], [b]), Intended);
    RoundTripFailsAsWritten(a, b);
    RoundTripFailsAsWritten(b, a);
  }

  /** With the corrected apply, and when the other side's snapshot holds the
      synced state's own objects, a change made on one side reaches the
      synced state: it ends up holding exactly the changed side's entities,
      each id once. */
  lemma {:induction false} OneSidedEditsPropagateIntended<F>(synced: seq<Entity<F>>, changed: seq<Entity<F>>)
    requires UniqueIds(synced) && UniqueIds(changed) && SameObjectSameValue(synced, changed)
    ensures forall x :: x in SyncBucket(synced, synced, changed, Intended) <==> x in changed
    ensures forall x :: x in SyncBucket(synced, changed, synced, Intended) <==> x in changed
    ensures UniqueIds(SyncBucket(synced, synced, changed, Intended))
    ensures UniqueIds(SyncBucket(synced, changed, synced, Intended))
  {
    CompareSelfIsEmpty(synced);
    ReconcileWithEmptyNotion(Compare(synced, changed), Intended);
    ReconcileWithEmptyGoogle(Compare(synced, changed), Intended);
    ApplyCompareRoundTrip(synced, changed);
  }

  // Finding: every fetch builds new objects (the Google Tasks client returns
  // fresh API objects, the Notion parsers fresh literals), so compareStates
  // reports every id the synced state shares with a snapshot as updated, on
  // both sides, and reconcileChanges keeps Google's update.

  /** As written, one entity `a` synced, and fresh objects `n` from Notion
      and `g` from Google with the same id: the synced state keeps `a` and
      the cycle pushes `a` back to both sides as an update. With the
      corrected apply, Google's object wins whatever Notion holds, so an
      edit made in Notion is overwritten. */
  lemma {:induction false} FreshObjectsDropNotionEdit<F>(a: Entity<F>, n: Entity<F>, g: Entity<F>)
    requires a.id == n.id && a.id == g.id
    requires a.ref != n.ref && a.ref != g.ref && n.ref != g.ref
    ensures SyncBucket([a], [n], [g], AsWritten) == [a]
    ensures Compare([n], SyncBucket([a], [n], [g], AsWritten)) == Changes([], [Update(a.id, a)], [])
    ensures Compare([g], SyncBucket([a], [n], [g], AsWritten)) == Changes([], [Update(a.id, a)], [])
    ensures SyncBucket([a], [n], [g], Intended) == [g]
    ensures Compare([n], SyncBucket([a], [n], [g], Intended)) == Changes([], [Update(g.id, g)], [])
    ensures Compare([g], SyncBucket([a], [n], [g], Intended)) == NoChanges()
  {
    RoundTripFailsAsWritten(a, n);
    RoundTripFailsAsWritten(a, g);
    BothUpdatedKeepsGoogles(a.id, n, g, AsWritten);
    BothUpdatedKeepsGoogles(a.id, n, g, Intended);
    RoundTripFailsAsWritten(n, a);
    RoundTripFailsAsWritten(g, a);
    RoundTripFailsAsWritten(n, g);
    CompareSelfIsEmpty([g]);
  }

  /** One collection of the synced state after a cycle that compares
      entities by their fields. */
  function SyncBucketByValue<F(==)>(synced: seq<Entity<F>>, notion: seq<Entity<F>>, google: seq<Entity<F>>, variant: Variant): seq<Entity<F>>
  {
    ApplyBucket(synced, Reconcile(CompareByValue(synced, notion), CompareByValue(synced, google), variant), variant)
  }

  /** Comparing by value, fetched snapshots that are fresh copies of the
      synced state leave it as it is, and nothing is pushed to either side. */
  lemma {:induction false} FreshCopiesKeepSyncedState<F>(synced: seq<Entity<F>>, notion: seq<Entity<F>>, google: seq<Entity<F>>, variant: Variant)
    requires UniqueIds(synced) && IsCopyOf(notion, synced) && IsCopyOf(google, synced)
    ensures SyncBucketByValue(synced, notion, google, variant) == synced
    ensures CompareByValue(notion, SyncBucketByValue(synced, notion, google, variant)) == NoChanges()
    ensures CompareByValue(google, SyncBucketByValue(synced, notion, google, variant)) == NoChanges()
  {
    FreshCopyUnchangedByValue(synced, notion);
    FreshCopyUnchangedByValue(synced, google);
    ReconcileWithEmptyGoogle(NoChanges<F>(), variant);
    ApplyNoChanges(synced, variant);
    CopyBack(synced, notion);
    CopyBack(synced, google);
  }

  /** A copy of a snapshot with unique ids has unique ids and the snapshot
      is a copy of it. */
  lemma {:induction false} CopyBack<F>(xs: seq<Entity<F>>, copy: seq<Entity<F>>)
    requires UniqueIds(xs) && IsCopyOf(copy, xs)
    ensures UniqueIds(copy) && IsCopyOf(xs, copy)
    ensures CompareByValue(copy, xs) == NoChanges()
  {
    FreshCopyUnchangedByValue(copy, xs);
  }

  /** Comparing by value, with the corrected apply: one entity `a` synced,
      Notion holds an edited copy `n` and Google an unedited copy `g`. The
      synced state takes Notion's edit and the cycle pushes it to Google
      and nothing to Notion. */
  lemma {:induction false} NotionEditKeptByValue<F>(a: Entity<F>, n: Entity<F>, g: Entity<F>)
    requires a.id == n.id && a.id == g.id && a.ref != n.ref
    requires n.fields != a.fields && g.fields == a.fields
    ensures SyncBucketByValue([a], [n], [g], Intended) == [n]
    ensures CompareByValue([n], SyncBucketByValue([a], [n], [g], Intended)) == NoChanges()
    ensures CompareByValue([g], SyncBucketByValue([a], [n], [g], Intended)) == Changes([], [Update(n.id, n)], [])
  {
    CompareByValueEdit(a, n);
    FreshCopyUnchangedByValue([a], [g]);
    ReconcileWithEmptyGoogle(Changes([], [Update(n.id, n)], []), Intended);
    RoundTripFailsAsWritten(a, n);
    FreshCopyUnchangedByValue([n], [n]);
    CompareByValueEdit(g, n);
  }
}
