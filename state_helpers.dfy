/** The state-reconciliation core of src/helpers/stateHelpers.ts:
    compareStates (diff two snapshots), reconcileChanges (merge the Notion
    and the Google change-sets, Google first) and applyChangesToState (fold a
    change-set into a snapshot in place).

    The source repeats every step once for task lists and once for tasks;
    here each step is written once over a collection of `Entity<F>` and the
    entry points apply it to both collections. */
module StateHelpers {
  import opened Model

  // =====================================================================
  // Ids and id maps (createTaskListMap, createTaskMap)

  predicate HasId<F>(xs: seq<Entity<F>>, id: Id)
  {
    exists i :: 0 <= i < |xs| && xs[i].id == id
  }

  /** The ids of a snapshot's collection are unique. */
  predicate UniqueIds<F>(xs: seq<Entity<F>>)
  {
    forall i, j :: 0 <= i < j < |xs| ==> xs[i].id != xs[j].id
  }

  /** No entry after `xs[i]` has its id. */
  predicate LastWithId<F>(xs: seq<Entity<F>>, i: int)
    requires 0 <= i < |xs|
  {
    forall k :: i < k < |xs| ==> xs[k].id != xs[i].id
  }

  /** The ids of xs, in order. */
  function IdsOf<F>(xs: seq<Entity<F>>): (ids: seq<Id>)
    ensures |ids| == |xs|
  {
    seq(|xs|, i requires 0 <= i < |xs| => xs[i].id)
  }

  lemma {:induction false} HasIdSnoc<F>(xs: seq<Entity<F>>, x: Entity<F>, id: Id)
    ensures HasId(xs + [x], id) <==> HasId(xs, id) || x.id == id
  {
    if HasId(xs, id) {
      var i :| 0 <= i < |xs| && xs[i].id == id;
      assert (xs + [x])[i].id == id;
    }
    if HasId(xs + [x], id) && x.id != id {
      var i :| 0 <= i < |xs + [x]| && (xs + [x])[i].id == id;
      assert xs[i].id == id;
    }
    if x.id == id {
      assert (xs + [x])[|xs|].id == id;
    }
  }

  lemma {:induction false} MemberHasId<F>(xs: seq<Entity<F>>, x: Entity<F>)
    requires x in xs
    ensures HasId(xs, x.id)
  {
    var i :| 0 <= i < |xs| && xs[i] == x;
    assert xs[i].id == x.id;
  }

  /** The Map that `map.set(x.id, x)` for every x of xs, in order, builds. */
  function IdMap<F>(xs: seq<Entity<F>>): map<Id, Entity<F>>
  {
    if xs == [] then map[] else IdMap(xs[..|xs| - 1])[xs[|xs| - 1].id := xs[|xs| - 1]]
  }

  /** The id map holds exactly the ids of xs, and for a duplicated id the last entry wins. */
  lemma {:induction false} IdMapSpec<F>(xs: seq<Entity<F>>)
    ensures forall id :: id in IdMap(xs) <==> HasId(xs, id)
    ensures forall i :: 0 <= i < |xs| && LastWithId(xs, i) ==>
              xs[i].id in IdMap(xs) && IdMap(xs)[xs[i].id] == xs[i]
  {
    if xs != [] {
      var p, x := xs[..|xs| - 1], xs[|xs| - 1];
      assert xs == p + [x];
      IdMapSpec(p);
      forall id ensures id in IdMap(xs) <==> HasId(xs, id) {
        HasIdSnoc(p, x, id);
      }
      forall i | 0 <= i < |xs| && LastWithId(xs, i)
        ensures xs[i].id in IdMap(xs) && IdMap(xs)[xs[i].id] == xs[i]
      {
        if i < |p| {
          assert LastWithId(p, i);
          assert xs[i] == p[i];
        }
      }
    }
  }

  /** With unique ids, the id map sends each id to the one entry that has it. */
  lemma {:induction false} IdMapOfUnique<F>(xs: seq<Entity<F>>)
    requires UniqueIds(xs)
    ensures forall i :: 0 <= i < |xs| ==> xs[i].id in IdMap(xs) && IdMap(xs)[xs[i].id] == xs[i]
  {
    IdMapSpec(xs);
    forall i | 0 <= i < |xs| ensures xs[i].id in IdMap(xs) && IdMap(xs)[xs[i].id] == xs[i] {
      assert LastWithId(xs, i);
    }
  }

  /** createTaskListMap / createTaskMap */
  method CreateIdMap<F>(xs: seq<Entity<F>>) returns (m: map<Id, Entity<F>>)
    ensures m == IdMap(xs)
  {
    m := map[];
    for i := 0 to |xs|
      invariant m == IdMap(xs[..i])
    {
      assert xs[..i + 1][..i] == xs[..i];
      m := m[xs[i].id := xs[i]];
    }
    assert xs[..|xs|] == xs;
  }

  // =====================================================================
  // compareStates

  /** The entries of news whose id the old id map lacks, in news' order. */
  function AddedOf<F>(oldMap: map<Id, Entity<F>>, news: seq<Entity<F>>): seq<Entity<F>>
  {
    if news == [] then []
    else
      var n := news[|news| - 1];
      AddedOf(oldMap, news[..|news| - 1]) + (if n.id in oldMap then [] else [n])
  }

  /** `{id, newValue}` for each entry of news whose id the old id map holds
      with a different object, in news' order. */
  function UpdatedOf<F>(oldMap: map<Id, Entity<F>>, news: seq<Entity<F>>): seq<Update<F>>
  {
    if news == [] then []
    else
      var n := news[|news| - 1];
      UpdatedOf(oldMap, news[..|news| - 1])
        + (if n.id in oldMap && oldMap[n.id].ref != n.ref then [Update(n.id, n)] else [])
  }

  /** The ids of the entries of olds whose id the new id map lacks, in olds' order. */
  function DeletedOf<F>(olds: seq<Entity<F>>, newMap: map<Id, Entity<F>>): seq<Id>
  {
    if olds == [] then []
    else
      var o := olds[|olds| - 1];
      DeletedOf(olds[..|olds| - 1], newMap) + (if o.id in newMap then [] else [o.id])
  }

  /** A change-set with all three lists empty. */
  function NoChanges<F>(): Changes<F>
  {
    Changes([], [], [])
  }

  /** The change-set compareStates computes for one entity type. */
  function Compare<F>(olds: seq<Entity<F>>, news: seq<Entity<F>>): Changes<F>
  {
    Changes(AddedOf(IdMap(olds), news), UpdatedOf(IdMap(olds), news), DeletedOf(olds, IdMap(news)))
  }

  /** compareStates, for one collection */
  method CompareCollections<F>(olds: seq<Entity<F>>, news: seq<Entity<F>>) returns (c: Changes<F>)
    ensures c == Compare(olds, news)
  {
    var oldMap := CreateIdMap(olds);
    var newMap := CreateIdMap(news);
    var added: seq<Entity<F>> := [];
    var updated: seq<Update<F>> := [];
    var deleted: seq<Id> := [];
    for i := 0 to |news|
      invariant added == AddedOf(oldMap, news[..i])
      invariant updated == UpdatedOf(oldMap, news[..i])
    {
      assert news[..i + 1][..i] == news[..i];
      var n := news[i];
      if n.id !in oldMap {
        added := added + [n];
      } else if oldMap[n.id].ref != n.ref {
        updated := updated + [Update(n.id, n)];
      }
    }
    for i := 0 to |olds|
      invariant deleted == DeletedOf(olds[..i], newMap)
    {
      assert olds[..i + 1][..i] == olds[..i];
      if olds[i].id !in newMap {
        deleted := deleted + [olds[i].id];
      }
    }
    assert news[..|news|] == news && olds[..|olds|] == olds;
    c := Changes(added, updated, deleted);
  }

  /** compareStates(oldState, newState) */
  method CompareStates(oldState: SyncState, newState: SyncState) returns (changes: SyncStateChanges)
    ensures changes.taskLists == Compare(oldState.tasklists, newState.tasklists)
    ensures changes.tasks == Compare(oldState.tasks, newState.tasks)
  {
    var taskLists := CompareCollections(oldState.tasklists, newState.tasklists);
    var tasks := CompareCollections(oldState.tasks, newState.tasks);
    changes := SyncStateChanges(tasks, taskLists);
  }

  lemma {:induction false} AddedOfSpec<F>(oldMap: map<Id, Entity<F>>, news: seq<Entity<F>>, x: Entity<F>)
    ensures x in AddedOf(oldMap, news) <==> x in news && x.id !in oldMap
  {
    if news != [] {
      var p := news[..|news| - 1];
      assert news == p + [news[|news| - 1]];
      AddedOfSpec(oldMap, p, x);
    }
  }

  lemma {:induction false} UpdatedOfSpec<F>(oldMap: map<Id, Entity<F>>, news: seq<Entity<F>>, u: Update<F>)
    ensures u in UpdatedOf(oldMap, news) <==>
              u.newValue in news && u.id == u.newValue.id && u.id in oldMap && oldMap[u.id].ref != u.newValue.ref
  {
    if news != [] {
      var p := news[..|news| - 1];
      assert news == p + [news[|news| - 1]];
      UpdatedOfSpec(oldMap, p, u);
    }
  }

  lemma {:induction false} DeletedOfSpec<F>(olds: seq<Entity<F>>, newMap: map<Id, Entity<F>>, d: Id)
    ensures d in DeletedOf(olds, newMap) <==> HasId(olds, d) && d !in newMap
  {
    if olds != [] {
      var p, o := olds[..|olds| - 1], olds[|olds| - 1];
      assert olds == p + [o];
      DeletedOfSpec(p, newMap, d);
      HasIdSnoc(p, o, d);
    }
  }

  lemma {:induction false} AddedOfConcat<F>(oldMap: map<Id, Entity<F>>, a: seq<Entity<F>>, b: seq<Entity<F>>)
    ensures AddedOf(oldMap, a + b) == AddedOf(oldMap, a) + AddedOf(oldMap, b)
  {
    if b == [] {
      assert a + b == a;
    } else {
      var p := b[..|b| - 1];
      assert (a + b)[..|a + b| - 1] == a + p;
      AddedOfConcat(oldMap, a, p);
    }
  }

  lemma {:induction false} UpdatedOfConcat<F>(oldMap: map<Id, Entity<F>>, a: seq<Entity<F>>, b: seq<Entity<F>>)
    ensures UpdatedOf(oldMap, a + b) == UpdatedOf(oldMap, a) + UpdatedOf(oldMap, b)
  {
    if b == [] {
      assert a + b == a;
    } else {
      var p := b[..|b| - 1];
      assert (a + b)[..|a + b| - 1] == a + p;
      UpdatedOfConcat(oldMap, a, p);
    }
  }

  lemma {:induction false} DeletedOfConcat<F>(a: seq<Entity<F>>, b: seq<Entity<F>>, newMap: map<Id, Entity<F>>)
    ensures DeletedOf(a + b, newMap) == DeletedOf(a, newMap) + DeletedOf(b, newMap)
  {
    if b == [] {
      assert a + b == a;
    } else {
      var p := b[..|b| - 1];
      assert (a + b)[..|a + b| - 1] == a + p;
      DeletedOfConcat(a, p, newMap);
    }
  }

  /** An entity of new is added exactly when old has no entity with its id. */
  lemma {:induction false} CompareAdded<F>(olds: seq<Entity<F>>, news: seq<Entity<F>>)
    ensures forall x :: x in Compare(olds, news).added <==> x in news && !HasId(olds, x.id)
  {
    IdMapSpec(olds);
    forall x ensures x in Compare(olds, news).added <==> x in news && !HasId(olds, x.id) {
      AddedOfSpec(IdMap(olds), news, x);
    }
  }

  /** An entity of new whose id old holds is reported updated exactly when it
      is a different object from old's, whatever its fields; every update
      carries its own id and an entity of new. */
  lemma {:induction false} CompareUpdated<F>(olds: seq<Entity<F>>, news: seq<Entity<F>>)
    requires UniqueIds(olds)
    ensures forall u :: u in Compare(olds, news).updated ==>
              u.newValue in news && u.id == u.newValue.id && HasId(olds, u.id)
    ensures forall n, o :: n in news && o in olds && n.id == o.id ==>
              (Update(n.id, n) in Compare(olds, news).updated <==> n.ref != o.ref)
  {
    IdMapSpec(olds);
    IdMapOfUnique(olds);
    forall u | u in Compare(olds, news).updated
      ensures u.newValue in news && u.id == u.newValue.id && HasId(olds, u.id)
    {
      UpdatedOfSpec(IdMap(olds), news, u);
    }
    forall n, o | n in news && o in olds && n.id == o.id
      ensures Update(n.id, n) in Compare(olds, news).updated <==> n.ref != o.ref
    {
      var k :| 0 <= k < |olds| && olds[k] == o;
      assert IdMap(olds)[o.id] == o;
      UpdatedOfSpec(IdMap(olds), news, Update(n.id, n));
    }
  }

  /** An id is deleted exactly when old has it and new does not. */
  lemma {:induction false} CompareDeleted<F>(olds: seq<Entity<F>>, news: seq<Entity<F>>)
    ensures forall d :: d in Compare(olds, news).deleted <==> HasId(olds, d) && !HasId(news, d)
  {
    IdMapSpec(news);
    forall d ensures d in Compare(olds, news).deleted <==> HasId(olds, d) && !HasId(news, d) {
      DeletedOfSpec(olds, IdMap(news), d);
    }
  }

  /** added and updated follow new's order, deleted follows old's order. */
  lemma {:induction false} CompareKeepsOrder<F>(olds: seq<Entity<F>>, news1: seq<Entity<F>>, news2: seq<Entity<F>>)
    ensures Compare(olds, news1 + news2).added == Compare(olds, news1).added + Compare(olds, news2).added
    ensures Compare(olds, news1 + news2).updated == Compare(olds, news1).updated + Compare(olds, news2).updated
    ensures Compare(news1 + news2, olds).deleted == Compare(news1, olds).deleted + Compare(news2, olds).deleted
  {
    AddedOfConcat(IdMap(olds), news1, news2);
    UpdatedOfConcat(IdMap(olds), news1, news2);
    DeletedOfConcat(news1, news2, IdMap(olds));
  }

  lemma {:induction false} AddedOfNoneNew<F>(oldMap: map<Id, Entity<F>>, news: seq<Entity<F>>)
    requires forall i :: 0 <= i < |news| ==> news[i].id in oldMap
    ensures AddedOf(oldMap, news) == []
  {
    if news != [] {
      AddedOfNoneNew(oldMap, news[..|news| - 1]);
    }
  }

  lemma {:induction false} UpdatedOfNoneChanged<F>(oldMap: map<Id, Entity<F>>, news: seq<Entity<F>>)
    requires forall i :: 0 <= i < |news| ==> news[i].id in oldMap ==> oldMap[news[i].id].ref == news[i].ref
    ensures UpdatedOf(oldMap, news) == []
  {
    if news != [] {
      UpdatedOfNoneChanged(oldMap, news[..|news| - 1]);
    }
  }

  lemma {:induction false} DeletedOfNoneGone<F>(olds: seq<Entity<F>>, newMap: map<Id, Entity<F>>)
    requires forall i :: 0 <= i < |olds| ==> olds[i].id in newMap
    ensures DeletedOf(olds, newMap) == []
  {
    if olds != [] {
      DeletedOfNoneGone(olds[..|olds| - 1], newMap);
    }
  }

  /** A snapshot with unique ids compared with itself yields an empty change-set
      (two empty snapshots included). */
  lemma {:induction false} CompareSelfIsEmpty<F>(s: seq<Entity<F>>)
    requires UniqueIds(s)
    ensures Compare(s, s) == NoChanges()
  {
    IdMapOfUnique(s);
    AddedOfNoneNew(IdMap(s), s);
    UpdatedOfNoneChanged(IdMap(s), s);
    DeletedOfNoneGone(s, IdMap(s));
  }

  lemma {:induction false} AddedOfAllNew<F>(oldMap: map<Id, Entity<F>>, news: seq<Entity<F>>)
    requires forall i :: 0 <= i < |news| ==> news[i].id !in oldMap
    ensures AddedOf(oldMap, news) == news
  {
    if news != [] {
      var p := news[..|news| - 1];
      AddedOfAllNew(oldMap, p);
      assert news == p + [news[|news| - 1]];
    }
  }

  lemma {:induction false} DeletedOfAllGone<F>(olds: seq<Entity<F>>, newMap: map<Id, Entity<F>>)
    requires forall i :: 0 <= i < |olds| ==> olds[i].id !in newMap
    ensures DeletedOf(olds, newMap) == IdsOf(olds)
  {
    if olds != [] {
      var p := olds[..|olds| - 1];
      DeletedOfAllGone(p, newMap);
      assert IdsOf(olds) == IdsOf(p) + [olds[|olds| - 1].id];
    }
  }

  /** Snapshots with no id in common: every new entity is added, every old
      id deleted in old's order, nothing updated. */
  lemma {:induction false} CompareDisjoint<F>(olds: seq<Entity<F>>, news: seq<Entity<F>>)
    requires forall i, j :: 0 <= i < |olds| && 0 <= j < |news| ==> olds[i].id != news[j].id
    ensures Compare(olds, news) == Changes(news, [], IdsOf(olds))
  {
    IdMapSpec(olds);
    IdMapSpec(news);
    assert forall j :: 0 <= j < |news| ==> news[j].id !in IdMap(olds);
    assert forall i :: 0 <= i < |olds| ==> olds[i].id !in IdMap(news);
    AddedOfAllNew(IdMap(olds), news);
    DeletedOfAllGone(olds, IdMap(news));
    var us := Compare(olds, news).updated;
    if us != [] {
      UpdatedOfSpec(IdMap(olds), news, us[0]);
      assert false;
    }
  }

  // Finding: `oldTaskList !== newTaskList` compares objects, not values.
  // Every fetch builds new objects, so a snapshot never shares an object
  // with the synced state and every id both hold is reported updated. The
  // intended comparison looks at the fields.

  /** `{id, newValue}` for each entry of news whose id the old id map holds
      with different fields, in news' order. */
  function UpdatedByValueOf<F(==)>(oldMap: map<Id, Entity<F>>, news: seq<Entity<F>>): seq<Update<F>>
  {
    if news == [] then []
    else
      var n := news[|news| - 1];
      UpdatedByValueOf(oldMap, news[..|news| - 1])
        + (if n.id in oldMap && oldMap[n.id].fields != n.fields then [Update(n.id, n)] else [])
  }

  /** compareStates as intended: an entity is updated when its fields changed. */
  function CompareByValue<F(==)>(olds: seq<Entity<F>>, news: seq<Entity<F>>): Changes<F>
  {
    Changes(AddedOf(IdMap(olds), news), UpdatedByValueOf(IdMap(olds), news), DeletedOf(olds, IdMap(news)))
  }

  /** A copy of a snapshot: the same ids and fields at the same positions,
      whatever objects hold them. */
  predicate IsCopyOf<F(==)>(copy: seq<Entity<F>>, xs: seq<Entity<F>>)
  {
    SameIds(copy, xs) && forall k :: 0 <= k < |xs| ==> copy[k].fields == xs[k].fields
  }

  lemma {:induction false} UpdatedByValueOfNoneChanged<F>(oldMap: map<Id, Entity<F>>, news: seq<Entity<F>>)
    requires forall i :: 0 <= i < |news| ==> news[i].id in oldMap ==> oldMap[news[i].id].fields == news[i].fields
    ensures UpdatedByValueOf(oldMap, news) == []
  {
    if news != [] {
      UpdatedByValueOfNoneChanged(oldMap, news[..|news| - 1]);
    }
  }

  /** As written, a fresh copy of a snapshot is reported as an update of
      every entity, so only the very same objects compare as unchanged. */
  lemma {:induction false} FreshCopyAllUpdated<F>(olds: seq<Entity<F>>, news: seq<Entity<F>>)
    requires UniqueIds(olds) && IsCopyOf(news, olds)
    requires forall k :: 0 <= k < |olds| ==> news[k].ref != olds[k].ref
    ensures Compare(olds, news).added == [] && Compare(olds, news).deleted == []
    ensures |Compare(olds, news).updated| == |news|
    ensures forall k :: 0 <= k < |news| ==> Compare(olds, news).updated[k] == Update(news[k].id, news[k])
  {
    IdMapOfUnique(olds);
    IdMapSpec(news);
    AddedOfNoneNew(IdMap(olds), news);
    forall i | 0 <= i < |olds| ensures olds[i].id in IdMap(news) {
      assert news[i].id == olds[i].id;
    }
    DeletedOfNoneGone(olds, IdMap(news));
    UpdatedOfAll(IdMap(olds), news, olds);
  }

  lemma {:induction false} UpdatedOfAll<F>(oldMap: map<Id, Entity<F>>, news: seq<Entity<F>>, olds: seq<Entity<F>>)
    requires SameIds(news, olds)
    requires forall k :: 0 <= k < |olds| ==> olds[k].id in oldMap && oldMap[olds[k].id] == olds[k]
    requires forall k :: 0 <= k < |olds| ==> news[k].ref != olds[k].ref
    ensures |UpdatedOf(oldMap, news)| == |news|
    ensures forall k :: 0 <= k < |news| ==> UpdatedOf(oldMap, news)[k] == Update(news[k].id, news[k])
  {
    if news != [] {
      var n := |news| - 1;
      UpdatedOfAll(oldMap, news[..n], olds[..n]);
    }
  }

  /** As intended, a fresh copy of a snapshot with unique ids compares as
      unchanged. */
  lemma {:induction false} FreshCopyUnchangedByValue<F>(olds: seq<Entity<F>>, news: seq<Entity<F>>)
    requires UniqueIds(olds) && IsCopyOf(news, olds)
    ensures CompareByValue(olds, news) == NoChanges()
  {
    IdMapOfUnique(olds);
    IdMapSpec(news);
    AddedOfNoneNew(IdMap(olds), news);
    UpdatedByValueOfNoneChanged(IdMap(olds), news);
    forall i | 0 <= i < |olds| ensures olds[i].id in IdMap(news) {
      assert news[i].id == olds[i].id;
    }
    DeletedOfNoneGone(olds, IdMap(news));
  }

  /** As intended, comparing one entity with an edited copy (same id, other
      fields) reports the copy updated, and added and deleted stay empty. */
  lemma {:induction false} CompareByValueEdit<F>(a: Entity<F>, b: Entity<F>)
    requires a.id == b.id && a.fields != b.fields
    ensures CompareByValue([a], [b]) == Changes([], [Update(b.id, b)], [])
  {
    assert [a][..0] == [] && [b][..0] == [];
    assert IdMap([a]) == map[a.id := a];
    assert IdMap([b]) == map[b.id := b];
    assert UpdatedByValueOf(map[a.id := a], [b]) == UpdatedByValueOf(map[a.id := a], []) + [Update(b.id, b)];
    assert AddedOf(map[a.id := a], [b]) == AddedOf(map[a.id := a], []) + [];
    assert DeletedOf([a], map[b.id := b]) == DeletedOf([], map[b.id := b]) + [];
  }

  // =====================================================================
  // reconcileChanges

  /** Which reading of the source a definition follows: the code as
      written, or what it evidently intends (the two differ only where the
      README's Findings say). */
  datatype Variant = AsWritten | Intended

  /** `ids.find(x => x === id)`: the first element equal to id, if any. */
  function FindId(ids: seq<Id>, id: Id): (found: Option<Id>)
    ensures found == if id in ids then Some(id) else None
  {
    if ids == [] then None
    else if ids[0] == id then Some(ids[0])
    else FindId(ids[1..], id)
  }

  /** `us.find(u => u.id === id)`: the first update with that id, if any. */
  function FindUpdate<F>(us: seq<Update<F>>, id: Id): (found: Option<Update<F>>)
    ensures found.Some? <==> exists k :: 0 <= k < |us| && us[k].id == id
    ensures found.Some? ==> found.value.id == id
  {
    if us == [] then None
    else if us[0].id == id then Some(us[0])
    else FindUpdate(us[1..], id)
  }

  /** `xs.find(x => x.id === id)`: the first entity with that id, if any. */
  function FindEntity<F>(xs: seq<Entity<F>>, id: Id): (found: Option<Entity<F>>)
    ensures found.Some? <==> HasId(xs, id)
    ensures found.Some? ==> found.value.id == id
  {
    if xs == [] then None
    else if xs[0].id == id then Some(xs[0])
    else
      var r := FindEntity(xs[1..], id);
      assert HasId(xs[1..], id) ==> HasId(xs, id) by {
        if HasId(xs[1..], id) {
          var i :| 0 <= i < |xs[1..]| && xs[1..][i].id == id;
          assert xs[i + 1].id == id;
        }
      }
      assert HasId(xs, id) ==> HasId(xs[1..], id) by {
        if HasId(xs, id) {
          var i :| 0 <= i < |xs| && xs[i].id == id;
          assert i > 0 && xs[1..][i - 1].id == id;
        }
      }
      r
  }

  /** Does Google's `deleted` list stop a Notion change of `id`?  As written
      this is the truthiness of what `find` returns. */
  predicate FoundInDeleted(deleted: seq<Id>, id: Id, variant: Variant)
  {
    match variant
    case AsWritten => Truthy(FindId(deleted, id))
    case Intended => id in deleted
  }

  /** A Notion update or deletion of `id` survives when Google neither
      deleted nor updated that id. */
  predicate NotionChangeSurvives<F>(google: Changes<F>, id: Id, variant: Variant)
  {
    FindUpdate(google.updated, id).None? && !FoundInDeleted(google.deleted, id, variant)
  }

  function SurvivingUpdates<F>(us: seq<Update<F>>, google: Changes<F>, variant: Variant): seq<Update<F>>
  {
    if us == [] then []
    else
      var u := us[|us| - 1];
      SurvivingUpdates(us[..|us| - 1], google, variant)
        + (if NotionChangeSurvives(google, u.id, variant) then [u] else [])
  }

  function SurvivingDeletes<F>(ds: seq<Id>, google: Changes<F>, variant: Variant): seq<Id>
  {
    if ds == [] then []
    else
      var d := ds[|ds| - 1];
      SurvivingDeletes(ds[..|ds| - 1], google, variant)
        + (if NotionChangeSurvives(google, d, variant) then [d] else [])
  }

  /** Notion additions whose id Google did not add too. */
  function SurvivingAdds<F>(xs: seq<Entity<F>>, google: Changes<F>): seq<Entity<F>>
  {
    if xs == [] then []
    else
      var x := xs[|xs| - 1];
      SurvivingAdds(xs[..|xs| - 1], google)
        + (if FindEntity(google.added, x.id).None? then [x] else [])
  }

  /** The merged change-set for one entity type: every Google entry first,
      then the Notion entries that survive. */
  function Reconcile<F>(notion: Changes<F>, google: Changes<F>, variant: Variant): Changes<F>
  {
    Changes(
      google.added + SurvivingAdds(notion.added, google),
      google.updated + SurvivingUpdates(notion.updated, google, variant),
      google.deleted + SurvivingDeletes(notion.deleted, google, variant))
  }

  /** reconcileChanges, for one entity type */
  method ReconcileBucket<F>(notion: Changes<F>, google: Changes<F>) returns (r: Changes<F>)
    ensures r == Reconcile(notion, google, AsWritten)
  {
    var updated: seq<Update<F>> := [];
    var deleted: seq<Id> := [];
    var added: seq<Entity<F>> := [];
    // Google's entries, unconditionally
    for i := 0 to |google.updated|
      invariant updated == google.updated[..i]
    {
      updated := updated + [google.updated[i]];
    }
    for i := 0 to |google.deleted|
      invariant deleted == google.deleted[..i]
    {
      deleted := deleted + [google.deleted[i]];
    }
    for i := 0 to |google.added|
      invariant added == google.added[..i]
    {
      added := added + [google.added[i]];
    }
    assert updated == google.updated && deleted == google.deleted && added == google.added;
    // Notion's entries, filtered
    var keptUpdates := KeepNotionUpdates(notion.updated, google);
    var keptDeletes := KeepNotionDeletes(notion.deleted, google);
    var keptAdds := KeepNotionAdds(notion.added, google);
    updated, deleted, added := updated + keptUpdates, deleted + keptDeletes, added + keptAdds;
    r := Changes(added, updated, deleted);
  }

  /** The Notion updates reconcileChanges pushes: those whose id Google
      neither deleted nor updated. */
  method KeepNotionUpdates<F>(us: seq<Update<F>>, google: Changes<F>) returns (kept: seq<Update<F>>)
    ensures kept == SurvivingUpdates(us, google, AsWritten)
  {
    kept := [];
    for i := 0 to |us|
      invariant kept == SurvivingUpdates(us[..i], google, AsWritten)
    {
      assert us[..i + 1][..i] == us[..i];
      var u := us[i];
      if !Truthy(FindId(google.deleted, u.id)) && FindUpdate(google.updated, u.id).None? {
        kept := kept + [u];
      }
    }
    assert us[..|us|] == us;
  }

  /** The Notion deletions reconcileChanges pushes: those whose id Google
      neither updated nor deleted. */
  method KeepNotionDeletes<F>(ds: seq<Id>, google: Changes<F>) returns (kept: seq<Id>)
    ensures kept == SurvivingDeletes(ds, google, AsWritten)
  {
    kept := [];
    for i := 0 to |ds|
      invariant kept == SurvivingDeletes(ds[..i], google, AsWritten)
    {
      assert ds[..i + 1][..i] == ds[..i];
      var d := ds[i];
      if FindUpdate(google.updated, d).None? && !Truthy(FindId(google.deleted, d)) {
        kept := kept + [d];
      }
    }
    assert ds[..|ds|] == ds;
  }

  /** The Notion additions reconcileChanges pushes: those whose id Google
      did not add too. */
  method KeepNotionAdds<F>(xs: seq<Entity<F>>, google: Changes<F>) returns (kept: seq<Entity<F>>)
    ensures kept == SurvivingAdds(xs, google)
  {
    kept := [];
    for i := 0 to |xs|
      invariant kept == SurvivingAdds(xs[..i], google)
    {
      assert xs[..i + 1][..i] == xs[..i];
      var a := xs[i];
      if FindEntity(google.added, a.id).None? {
        kept := kept + [a];
      }
    }
    assert xs[..|xs|] == xs;
  }

  /** reconcileChanges(notionChanges, googleTaskChanges) */
  method ReconcileChanges(notionChanges: SyncStateChanges, googleTaskChanges: SyncStateChanges)
    returns (finalChanges: SyncStateChanges)
    ensures finalChanges.tasks == Reconcile(notionChanges.tasks, googleTaskChanges.tasks, AsWritten)
    ensures finalChanges.taskLists == Reconcile(notionChanges.taskLists, googleTaskChanges.taskLists, AsWritten)
  {
    var tasks := ReconcileBucket(notionChanges.tasks, googleTaskChanges.tasks);
    var taskLists := ReconcileBucket(notionChanges.taskLists, googleTaskChanges.taskLists);
    finalChanges := SyncStateChanges(tasks, taskLists);
  }

  /** Google holds a conflicting change of `id`: an update, or a deletion
      that the lookup in its `deleted` list sees (as written, not for ""). */
  predicate GoogleConflicts<F>(google: Changes<F>, id: Id, variant: Variant)
  {
    (exists k :: 0 <= k < |google.updated| && google.updated[k].id == id)
    || (id in google.deleted && (variant == Intended || id != ""))
  }

  lemma {:induction false} SurvivingUpdatesSpec<F>(us: seq<Update<F>>, google: Changes<F>, variant: Variant, u: Update<F>)
    ensures u in SurvivingUpdates(us, google, variant) <==> u in us && !GoogleConflicts(google, u.id, variant)
  {
    if us != [] {
      var p := us[..|us| - 1];
      assert us == p + [us[|us| - 1]];
      SurvivingUpdatesSpec(p, google, variant, u);
    }
  }

  lemma {:induction false} SurvivingDeletesSpec<F>(ds: seq<Id>, google: Changes<F>, variant: Variant, d: Id)
    ensures d in SurvivingDeletes(ds, google, variant) <==> d in ds && !GoogleConflicts(google, d, variant)
  {
    if ds != [] {
      var p := ds[..|ds| - 1];
      assert ds == p + [ds[|ds| - 1]];
      SurvivingDeletesSpec(p, google, variant, d);
    }
  }

  lemma {:induction false} SurvivingAddsSpec<F>(xs: seq<Entity<F>>, google: Changes<F>, x: Entity<F>)
    ensures x in SurvivingAdds(xs, google) <==> x in xs && !HasId(google.added, x.id)
  {
    if xs != [] {
      var p := xs[..|xs| - 1];
      assert xs == p + [xs[|xs| - 1]];
      SurvivingAddsSpec(p, google, x);
    }
  }

  /** Google's entries come first and unchanged in all three lists; a
      Notion update or deletion is kept exactly when Google has no
      conflicting change of its id; a Notion addition is kept exactly when
      Google did not add that id. */
  lemma {:induction false} ReconcileMembers<F>(notion: Changes<F>, google: Changes<F>, variant: Variant)
    ensures Reconcile(notion, google, variant).added[..|google.added|] == google.added
    ensures Reconcile(notion, google, variant).updated[..|google.updated|] == google.updated
    ensures Reconcile(notion, google, variant).deleted[..|google.deleted|] == google.deleted
    ensures forall x :: x in Reconcile(notion, google, variant).added <==>
              x in google.added || (x in notion.added && !HasId(google.added, x.id))
    ensures forall u :: u in Reconcile(notion, google, variant).updated <==>
              u in google.updated || (u in notion.updated && !GoogleConflicts(google, u.id, variant))
    ensures forall d :: d in Reconcile(notion, google, variant).deleted <==>
              d in google.deleted || (d in notion.deleted && !GoogleConflicts(google, d, variant))
  {
    var r := Reconcile(notion, google, variant);
    forall x ensures x in r.added <==> x in google.added || (x in notion.added && !HasId(google.added, x.id)) {
      SurvivingAddsSpec(notion.added, google, x);
    }
    forall u ensures u in r.updated <==> u in google.updated || (u in notion.updated && !GoogleConflicts(google, u.id, variant)) {
      SurvivingUpdatesSpec(notion.updated, google, variant, u);
    }
    forall d ensures d in r.deleted <==> d in google.deleted || (d in notion.deleted && !GoogleConflicts(google, d, variant)) {
      SurvivingDeletesSpec(notion.deleted, google, variant, d);
    }
  }

  lemma {:induction false} SurvivingUpdatesConcat<F>(google: Changes<F>, variant: Variant, a: seq<Update<F>>, b: seq<Update<F>>)
    ensures SurvivingUpdates(a + b, google, variant) == SurvivingUpdates(a, google, variant) + SurvivingUpdates(b, google, variant)
  {
    if b == [] {
      assert a + b == a;
    } else {
      assert (a + b)[..|a + b| - 1] == a + b[..|b| - 1];
      SurvivingUpdatesConcat(google, variant, a, b[..|b| - 1]);
    }
  }

  lemma {:induction false} SurvivingDeletesConcat<F>(google: Changes<F>, variant: Variant, a: seq<Id>, b: seq<Id>)
    ensures SurvivingDeletes(a + b, google, variant) == SurvivingDeletes(a, google, variant) + SurvivingDeletes(b, google, variant)
  {
    if b == [] {
      assert a + b == a;
    } else {
      assert (a + b)[..|a + b| - 1] == a + b[..|b| - 1];
      SurvivingDeletesConcat(google, variant, a, b[..|b| - 1]);
    }
  }

  lemma {:induction false} SurvivingAddsConcat<F>(google: Changes<F>, a: seq<Entity<F>>, b: seq<Entity<F>>)
    ensures SurvivingAdds(a + b, google) == SurvivingAdds(a, google) + SurvivingAdds(b, google)
  {
    if b == [] {
      assert a + b == a;
    } else {
      assert (a + b)[..|a + b| - 1] == a + b[..|b| - 1];
      SurvivingAddsConcat(google, a, b[..|b| - 1]);
    }
  }

  /** The surviving Notion entries keep their original order: filtering a
      concatenation is concatenating the filtered parts. */
  lemma {:induction false} NotionSurvivorsKeepOrder<F>(notion1: Changes<F>, notion2: Changes<F>, google: Changes<F>, variant: Variant)
    ensures Reconcile(Changes(notion1.added + notion2.added, notion1.updated + notion2.updated,
                              notion1.deleted + notion2.deleted), google, variant).added
            == google.added + SurvivingAdds(notion1.added, google) + SurvivingAdds(notion2.added, google)
    ensures Reconcile(Changes(notion1.added + notion2.added, notion1.updated + notion2.updated,
                              notion1.deleted + notion2.deleted), google, variant).updated
            == google.updated + SurvivingUpdates(notion1.updated, google, variant)
               + SurvivingUpdates(notion2.updated, google, variant)
    ensures Reconcile(Changes(notion1.added + notion2.added, notion1.updated + notion2.updated,
                              notion1.deleted + notion2.deleted), google, variant).deleted
            == google.deleted + SurvivingDeletes(notion1.deleted, google, variant)
               + SurvivingDeletes(notion2.deleted, google, variant)
  {
    SurvivingAddsConcat(google, notion1.added, notion2.added);
    SurvivingUpdatesConcat(google, variant, notion1.updated, notion2.updated);
    SurvivingDeletesConcat(google, variant, notion1.deleted, notion2.deleted);
    ConcatAssoc(google.added, SurvivingAdds(notion1.added, google), SurvivingAdds(notion2.added, google));
    ConcatAssoc(google.updated, SurvivingUpdates(notion1.updated, google, variant), SurvivingUpdates(notion2.updated, google, variant));
    ConcatAssoc(google.deleted, SurvivingDeletes(notion1.deleted, google, variant), SurvivingDeletes(notion2.deleted, google, variant));
  }

  lemma {:induction false} ConcatAssoc<T>(a: seq<T>, b: seq<T>, c: seq<T>)
    ensures a + (b + c) == a + b + c
  {
  }

  lemma {:induction false} AllUpdatesSurviveEmptyGoogle<F>(us: seq<Update<F>>, variant: Variant)
    ensures SurvivingUpdates(us, NoChanges(), variant) == us
  {
    if us != [] {
      AllUpdatesSurviveEmptyGoogle(us[..|us| - 1], variant);
      assert us == us[..|us| - 1] + [us[|us| - 1]];
    }
  }

  lemma {:induction false} AllDeletesSurviveEmptyGoogle<F>(ds: seq<Id>, variant: Variant)
    ensures SurvivingDeletes(ds, NoChanges<F>(), variant) == ds
  {
    if ds != [] {
      AllDeletesSurviveEmptyGoogle<F>(ds[..|ds| - 1], variant);
      assert ds == ds[..|ds| - 1] + [ds[|ds| - 1]];
    }
  }

  lemma {:induction false} AllAddsSurviveEmptyGoogle<F>(xs: seq<Entity<F>>)
    ensures SurvivingAdds(xs, NoChanges()) == xs
  {
    if xs != [] {
      AllAddsSurviveEmptyGoogle(xs[..|xs| - 1]);
      assert xs == xs[..|xs| - 1] + [xs[|xs| - 1]];
    }
  }

  /** With nothing from Google, the Notion change-set passes through unchanged. */
  lemma {:induction false} ReconcileWithEmptyGoogle<F>(notion: Changes<F>, variant: Variant)
    ensures Reconcile(notion, NoChanges(), variant) == notion
  {
    AllUpdatesSurviveEmptyGoogle(notion.updated, variant);
    AllDeletesSurviveEmptyGoogle<F>(notion.deleted, variant);
    AllAddsSurviveEmptyGoogle(notion.added);
  }

  /** A Notion deletion is never checked against Google's additions: when
      Google re-adds an id that Notion deleted (and has no other change of
      it), the merged change-set both adds and deletes that id. */
  lemma {:induction false} DeletionIgnoresGoogleAdds<F>(notion: Changes<F>, google: Changes<F>, variant: Variant, d: Id)
    requires d in notion.deleted && HasId(google.added, d) && !GoogleConflicts(google, d, variant)
    ensures d in Reconcile(notion, google, variant).deleted
    ensures HasId(Reconcile(notion, google, variant).added, d)
  {
    ReconcileMembers(notion, google, variant);
    var i :| 0 <= i < |google.added| && google.added[i].id == d;
    assert Reconcile(notion, google, variant).added[i] == google.added[i];
  }

  /** The example of a Google edit racing a Notion deletion: Google's update
      of the task is kept and Notion's deletion of it is dropped. */
  lemma {:induction false} GoogleUpdateBeatsNotionDelete<F>(id: Id, v: Entity<F>, variant: Variant)
    ensures Reconcile(Changes([], [], [id]), Changes([], [Update(id, v)], []), variant)
         == Changes([], [Update(id, v)], [])
  {
    var google := Changes([], [Update(id, v)], []);
    assert [id][..0] == [];
    assert FindUpdate(google.updated, id).Some?;
    assert SurvivingDeletes([id], google, variant) == [];
    assert SurvivingUpdates([], google, variant) == [];
  }

  /** The same list added on both sides appears once, as Google's entry. */
  lemma {:induction false} BothAddedKeepsGoogles<F>(fromNotion: Entity<F>, fromGoogle: Entity<F>, variant: Variant)
    requires fromNotion.id == fromGoogle.id
    ensures Reconcile(Changes([fromNotion], [], []), Changes([fromGoogle], [], []), variant).added == [fromGoogle]
  {
    assert HasId([fromGoogle], fromNotion.id) by { assert [fromGoogle][0].id == fromNotion.id; }
    assert [fromNotion][..0] == [];
    assert SurvivingAdds([fromNotion], Changes([fromGoogle], [], [])) == [];
  }

  /** The same entity updated on both sides merges into Google's update alone. */
  lemma {:induction false} BothUpdatedKeepsGoogles<F>(id: Id, fromNotion: Entity<F>, fromGoogle: Entity<F>, variant: Variant)
    ensures Reconcile(Changes([], [Update(id, fromNotion)], []), Changes([], [Update(id, fromGoogle)], []), variant)
         == Changes([], [Update(id, fromGoogle)], [])
  {
    var google := Changes([], [Update(id, fromGoogle)], []);
    assert [Update(id, fromNotion)][..0] == [];
    assert FindUpdate(google.updated, id).Some?;
    assert SurvivingUpdates([Update(id, fromNotion)], google, variant) == [];
  }

  // Finding: `deleted.find(x => x === id)` returns the matching string, and
  // the empty string is falsy, so an entry with id "" is never dropped by a
  // Google deletion.

  /** As written: a Notion update and a Notion deletion of "" both survive a
      Google deletion of "", so the merged change-set updates and deletes ""
      and deletes it twice. */
  lemma {:induction false} EmptyIdEscapesGoogleDeletion<F>(v: Entity<F>)
    requires v.id == ""
    ensures Reconcile(Changes([], [Update("", v)], [""]), Changes([], [], [""]), AsWritten)
         == Changes([], [Update("", v)], ["", ""])
    ensures Reconcile(Changes([], [Update("", v)], [""]), Changes([], [], [""]), Intended)
         == Changes([], [], [""])
  {
    var google: Changes<F> := Changes([], [], [""]);
    assert [""][..0] == [];
    assert [Update("", v)][..0] == [];
    assert FindId(google.deleted, "") == Some("");
    assert SurvivingUpdates([Update("", v)], google, AsWritten) == [Update("", v)];
    assert SurvivingDeletes([""], google, AsWritten) == [""];
    assert SurvivingUpdates([Update("", v)], google, Intended) == [];
    assert SurvivingDeletes([""], google, Intended) == [];
  }

  lemma {:induction false} SurvivingUpdatesVariantsAgree<F>(us: seq<Update<F>>, google: Changes<F>)
    requires "" !in google.deleted
    ensures SurvivingUpdates(us, google, AsWritten) == SurvivingUpdates(us, google, Intended)
  {
    if us != [] {
      SurvivingUpdatesVariantsAgree(us[..|us| - 1], google);
    }
  }

  lemma {:induction false} SurvivingDeletesVariantsAgree<F>(ds: seq<Id>, google: Changes<F>)
    requires "" !in google.deleted
    ensures SurvivingDeletes(ds, google, AsWritten) == SurvivingDeletes(ds, google, Intended)
  {
    if ds != [] {
      SurvivingDeletesVariantsAgree(ds[..|ds| - 1], google);
    }
  }

  /** The reconciliation as written and as intended agree whenever Google
      deleted no entity with the empty id. */
  lemma {:induction false} ReconcileVariantsAgree<F>(notion: Changes<F>, google: Changes<F>)
    requires "" !in google.deleted
    ensures Reconcile(notion, google, AsWritten) == Reconcile(notion, google, Intended)
  {
    SurvivingUpdatesVariantsAgree(notion.updated, google);
    SurvivingDeletesVariantsAgree(notion.deleted, google);
  }

  /** As intended: a Notion update or deletion is dropped exactly when Google
      updated or deleted the same id; a Notion addition exactly when Google
      added the same id. */
  lemma {:induction false} ReconcileIntendedDropsConflicts<F>(notion: Changes<F>, google: Changes<F>)
    ensures forall u :: u in SurvivingUpdates(notion.updated, google, Intended) <==>
              u in notion.updated && u.id !in google.deleted && !(exists k :: 0 <= k < |google.updated| && google.updated[k].id == u.id)
    ensures forall d :: d in SurvivingDeletes(notion.deleted, google, Intended) <==>
              d in notion.deleted && d !in google.deleted && !(exists k :: 0 <= k < |google.updated| && google.updated[k].id == d)
    ensures forall x :: x in SurvivingAdds(notion.added, google) <==> x in notion.added && !HasId(google.added, x.id)
  {
    forall u ensures u in SurvivingUpdates(notion.updated, google, Intended) <==>
              u in notion.updated && u.id !in google.deleted && !(exists k :: 0 <= k < |google.updated| && google.updated[k].id == u.id)
    {
      SurvivingUpdatesSpec(notion.updated, google, Intended, u);
    }
    forall d ensures d in SurvivingDeletes(notion.deleted, google, Intended) <==>
              d in notion.deleted && d !in google.deleted && !(exists k :: 0 <= k < |google.updated| && google.updated[k].id == d)
    {
      SurvivingDeletesSpec(notion.deleted, google, Intended, d);
    }
    forall x ensures x in SurvivingAdds(notion.added, google) <==> x in notion.added && !HasId(google.added, x.id) {
      SurvivingAddsSpec(notion.added, google, x);
    }
  }

  // =====================================================================
  // applyChangesToState

  /** `xs.filter(x => x.id !== id)` */
  function RemoveId<F>(xs: seq<Entity<F>>, id: Id): seq<Entity<F>>
  {
    if xs == [] then []
    else
      var x := xs[|xs| - 1];
      RemoveId(xs[..|xs| - 1], id) + (if x.id != id then [x] else [])
  }

  /** One `filter` per deleted id, in the order of `ds`. */
  function RemoveIds<F>(xs: seq<Entity<F>>, ds: seq<Id>): seq<Entity<F>>
  {
    if ds == [] then xs else RemoveId(RemoveIds(xs, ds[..|ds| - 1]), ds[|ds| - 1])
  }

  /** xs with its first entry that has `id` replaced by v. */
  function ReplaceFirst<F>(xs: seq<Entity<F>>, id: Id, v: Entity<F>): seq<Entity<F>>
  {
    if xs == [] then []
    else if xs[0].id == id then [v] + xs[1..]
    else [xs[0]] + ReplaceFirst(xs[1..], id, v)
  }

  /** The `updated` list folded into xs: an update whose id is missing
      appends its newValue; one whose id is present leaves xs as it is (as
      written, only a local variable is rebound) or replaces the first entry
      with that id (as intended). */
  function ApplyUpdates<F>(xs: seq<Entity<F>>, us: seq<Update<F>>, variant: Variant): seq<Entity<F>>
  {
    if us == [] then xs
    else
      var ys := ApplyUpdates(xs, us[..|us| - 1], variant);
      var u := us[|us| - 1];
      if FindEntity(ys, u.id).None? then ys + [u.newValue]
      else if variant == AsWritten then ys
      else ReplaceFirst(ys, u.id, u.newValue)
  }

  /** One collection after applyChangesToState: added, then updated, then deleted. */
  function ApplyBucket<F>(xs: seq<Entity<F>>, c: Changes<F>, variant: Variant): seq<Entity<F>>
  {
    RemoveIds(ApplyUpdates(xs + c.added, c.updated, variant), c.deleted)
  }

  /** applyChangesToState, for one collection */
  method ApplyToCollection<F>(xs: seq<Entity<F>>, c: Changes<F>) returns (ys: seq<Entity<F>>)
    ensures ys == ApplyBucket(xs, c, AsWritten)
  {
    ys := xs;
    for i := 0 to |c.added|
      invariant ys == xs + c.added[..i]
    {
      ys := ys + [c.added[i]];
    }
    assert c.added[..|c.added|] == c.added;
    for i := 0 to |c.updated|
      invariant ys == ApplyUpdates(xs + c.added, c.updated[..i], AsWritten)
    {
      assert c.updated[..i + 1][..i] == c.updated[..i];
      var update := c.updated[i];
      var found := FindEntity(ys, update.id);
      if found.Some? {
        found := Some(update.newValue);  // rebinds the local only
      } else {
        ys := ys + [update.newValue];
      }
    }
    assert c.updated[..|c.updated|] == c.updated;
    ghost var updatedState := ys;
    for i := 0 to |c.deleted|
      invariant ys == RemoveIds(updatedState, c.deleted[..i])
    {
      assert c.deleted[..i + 1][..i] == c.deleted[..i];
      ys := RemoveId(ys, c.deleted[i]);
    }
    assert c.deleted[..|c.deleted|] == c.deleted;
  }

  /** applyChangesToState(stateToUpdate, changes): task lists first, then tasks. */
  method ApplyChangesToState(stateToUpdate: SyncState, changes: SyncStateChanges)
    modifies stateToUpdate
    ensures stateToUpdate.tasklists == ApplyBucket(old(stateToUpdate.tasklists), changes.taskLists, AsWritten)
    ensures stateToUpdate.tasks == ApplyBucket(old(stateToUpdate.tasks), changes.tasks, AsWritten)
  {
    stateToUpdate.tasklists := ApplyToCollection(stateToUpdate.tasklists, changes.taskLists);
    stateToUpdate.tasks := ApplyToCollection(stateToUpdate.tasks, changes.tasks);
  }

  lemma {:induction false} RemoveIdMember<F>(xs: seq<Entity<F>>, id: Id, x: Entity<F>)
    ensures x in RemoveId(xs, id) <==> x in xs && x.id != id
  {
    if xs != [] {
      var p := xs[..|xs| - 1];
      assert xs == p + [xs[|xs| - 1]];
      RemoveIdMember(p, id, x);
    }
  }

  lemma {:induction false} RemoveIdAbsent<F>(xs: seq<Entity<F>>, id: Id)
    requires !HasId(xs, id)
    ensures RemoveId(xs, id) == xs
  {
    if xs != [] {
      var p := xs[..|xs| - 1];
      assert !HasId(p, id) by { HasIdSnoc(p, xs[|xs| - 1], id); assert xs == p + [xs[|xs| - 1]]; }
      RemoveIdAbsent(p, id);
      assert xs == p + [xs[|xs| - 1]];
    }
  }

  lemma {:induction false} RemoveIdConcat<F>(a: seq<Entity<F>>, b: seq<Entity<F>>, id: Id)
    ensures RemoveId(a + b, id) == RemoveId(a, id) + RemoveId(b, id)
  {
    if b == [] {
      assert a + b == a;
    } else {
      assert (a + b)[..|a + b| - 1] == a + b[..|b| - 1];
      RemoveIdConcat(a, b[..|b| - 1], id);
    }
  }

  lemma {:induction false} RemoveIdKeepsUnique<F>(xs: seq<Entity<F>>, id: Id)
    requires UniqueIds(xs)
    ensures UniqueIds(RemoveId(xs, id))
  {
    if xs != [] {
      var p, x := xs[..|xs| - 1], xs[|xs| - 1];
      RemoveIdKeepsUnique(p, id);
      var r := RemoveId(p, id);
      if x.id != id {
        forall i | 0 <= i < |r| ensures r[i].id != x.id {
          RemoveIdMember(p, id, r[i]);
          var k :| 0 <= k < |p| && p[k] == r[i];
          assert xs[k] == p[k];
        }
      }
    }
  }

  /** A deletion removes every entry with that id, keeps every other entry
      in order, and is a no-op for an absent id. */
  lemma {:induction false} DeleteRemovesEveryEntry<F>(xs: seq<Entity<F>>, id: Id, ys: seq<Entity<F>>)
    ensures !HasId(RemoveId(xs, id), id)
    ensures forall x :: x in RemoveId(xs, id) <==> x in xs && x.id != id
    ensures RemoveId(xs + ys, id) == RemoveId(xs, id) + RemoveId(ys, id)
    ensures !HasId(xs, id) ==> RemoveId(xs, id) == xs
  {
    forall x ensures x in RemoveId(xs, id) <==> x in xs && x.id != id {
      RemoveIdMember(xs, id, x);
    }
    if HasId(RemoveId(xs, id), id) {
      var r := RemoveId(xs, id);
      var i :| 0 <= i < |r| && r[i].id == id;
      RemoveIdMember(xs, id, r[i]);
      assert false;
    }
    RemoveIdConcat(xs, ys, id);
    if !HasId(xs, id) {
      RemoveIdAbsent(xs, id);
    }
  }

  lemma {:induction false} RemoveIdsMember<F>(xs: seq<Entity<F>>, ds: seq<Id>, x: Entity<F>)
    ensures x in RemoveIds(xs, ds) <==> x in xs && x.id !in ds
  {
    if ds != [] {
      var p := ds[..|ds| - 1];
      assert ds == p + [ds[|ds| - 1]];
      RemoveIdsMember(xs, p, x);
      RemoveIdMember(RemoveIds(xs, p), ds[|ds| - 1], x);
    }
  }

  lemma {:induction false} RemoveIdsKeepsUnique<F>(xs: seq<Entity<F>>, ds: seq<Id>)
    requires UniqueIds(xs)
    ensures UniqueIds(RemoveIds(xs, ds))
  {
    if ds != [] {
      RemoveIdsKeepsUnique(xs, ds[..|ds| - 1]);
      RemoveIdKeepsUnique(RemoveIds(xs, ds[..|ds| - 1]), ds[|ds| - 1]);
    }
  }

  /** Every update carries the id of its new value. */
  predicate WellFormedUpdates<F>(us: seq<Update<F>>)
  {
    forall k :: 0 <= k < |us| ==> us[k].id == us[k].newValue.id
  }

  /** As written, updates only ever append: the existing entries stay as they
      are, every appended entry is the newValue of an update, each
      (well-formed) update's id is present afterwards, and when every
      update's id is already present the collection is unchanged. */
  lemma {:induction false} UpdatesOnlyAppend<F>(xs: seq<Entity<F>>, us: seq<Update<F>>)
    ensures |ApplyUpdates(xs, us, AsWritten)| >= |xs|
    ensures ApplyUpdates(xs, us, AsWritten)[..|xs|] == xs
    ensures forall k :: |xs| <= k < |ApplyUpdates(xs, us, AsWritten)| ==>
              exists j :: 0 <= j < |us| && ApplyUpdates(xs, us, AsWritten)[k] == us[j].newValue && !HasId(xs, us[j].id)
    ensures WellFormedUpdates(us) ==> forall j :: 0 <= j < |us| ==> HasId(ApplyUpdates(xs, us, AsWritten), us[j].id)
    ensures (forall j :: 0 <= j < |us| ==> HasId(xs, us[j].id)) ==> ApplyUpdates(xs, us, AsWritten) == xs
  {
    if us != [] {
      var p, u := us[..|us| - 1], us[|us| - 1];
      UpdatesOnlyAppend(xs, p);
      var ys := ApplyUpdates(xs, p, AsWritten);
      var r := ApplyUpdates(xs, us, AsWritten);
      forall k | |xs| <= k < |r| ensures exists j :: 0 <= j < |us| && r[k] == us[j].newValue && !HasId(xs, us[j].id) {
        if k < |ys| {
          var j :| 0 <= j < |p| && ys[k] == p[j].newValue && !HasId(xs, p[j].id);
          assert r[k] == us[j].newValue && us[j] == p[j];
        } else {
          assert r[k] == us[|us| - 1].newValue;
        }
      }
      if WellFormedUpdates(us) {
        assert WellFormedUpdates(p);
        forall j | 0 <= j < |us| ensures HasId(r, us[j].id) {
          if j < |p| {
            var i :| 0 <= i < |ys| && ys[i].id == p[j].id;
            assert r[i] == ys[i];
          } else if FindEntity(ys, u.id).None? {
            assert r[|ys|] == u.newValue;
          }
        }
      }
      if forall j :: 0 <= j < |us| ==> HasId(xs, us[j].id) {
        assert forall j :: 0 <= j < |p| ==> HasId(xs, p[j].id) by {
          forall j | 0 <= j < |p| ensures HasId(xs, p[j].id) { assert p[j] == us[j]; }
        }
        assert ys == xs;
        assert HasId(xs, us[|us| - 1].id);
      }
    }
  }

  /** What one collection holds after applyChangesToState as written: the
      deleted ids are gone, every old or added entry with another id is
      there, and nothing else but the newValue of some update is. */
  lemma {:induction false} ApplyAsWritten<F>(xs: seq<Entity<F>>, c: Changes<F>)
    ensures forall j :: 0 <= j < |c.deleted| ==> !HasId(ApplyBucket(xs, c, AsWritten), c.deleted[j])
    ensures forall x :: x in xs + c.added && x.id !in c.deleted ==> x in ApplyBucket(xs, c, AsWritten)
    ensures forall x :: x in ApplyBucket(xs, c, AsWritten) ==>
              x.id !in c.deleted && (x in xs + c.added || exists j :: 0 <= j < |c.updated| && x == c.updated[j].newValue)
  {
    var ys := ApplyUpdates(xs + c.added, c.updated, AsWritten);
    var r := ApplyBucket(xs, c, AsWritten);
    UpdatesOnlyAppend(xs + c.added, c.updated);
    forall j | 0 <= j < |c.deleted| ensures !HasId(r, c.deleted[j]) {
      if HasId(r, c.deleted[j]) {
        var i :| 0 <= i < |r| && r[i].id == c.deleted[j];
        RemoveIdsMember(ys, c.deleted, r[i]);
        assert false;
      }
    }
    forall x | x in xs + c.added && x.id !in c.deleted ensures x in r {
      RemoveIdsMember(ys, c.deleted, x);
      var i :| 0 <= i < |xs + c.added| && (xs + c.added)[i] == x;
      assert ys[i] == x;
    }
    forall x | x in r
      ensures x.id !in c.deleted && (x in xs + c.added || exists j :: 0 <= j < |c.updated| && x == c.updated[j].newValue)
    {
      RemoveIdsMember(ys, c.deleted, x);
      var i :| 0 <= i < |ys| && ys[i] == x;
      if i < |xs + c.added| {
        assert (xs + c.added)[i] == x;
      }
    }
  }

  /** Finding: an `updated` entry whose id the state already holds changes
      nothing, so applying the change-set compareStates found between a
      state and its edited copy does not produce the edited copy. */
  lemma {:induction false} RoundTripFailsAsWritten<F>(a: Entity<F>, b: Entity<F>)
    requires a.id == b.id && a.ref != b.ref
    ensures Compare([a], [b]) == Changes([], [Update(b.id, b)], [])
    ensures ApplyBucket([a], Compare([a], [b]), AsWritten) == [a]
    ensures ApplyBucket([a], Compare([a], [b]), Intended) == [b]
  {
    assert [a][..0] == [] && [b][..0] == [];
    assert IdMap([a]) == map[a.id := a];
    assert IdMap([b]) == map[b.id := b];
    var c := Compare([a], [b]);
    assert AddedOf(map[a.id := a], [b]) == AddedOf(map[a.id := a], []) + [];
    assert UpdatedOf(map[a.id := a], [b]) == UpdatedOf(map[a.id := a], []) + [Update(b.id, b)];
    assert DeletedOf([a], map[b.id := b]) == DeletedOf([], map[b.id := b]) + [];
    assert c == Changes([], [Update(b.id, b)], []);
    assert c.updated[..0] == [];
    assert [a] + c.added == [a];
    assert ApplyUpdates([a], [], AsWritten) == [a];
    assert ApplyUpdates([a], [], Intended) == [a];
    assert HasId([a], b.id);
    assert ApplyUpdates([a], c.updated, AsWritten) == [a];
    assert ApplyUpdates([a], c.updated, Intended) == ReplaceFirst([a], b.id, b) == [b];
  }

  /** The same ids at the same positions. */
  predicate SameIds<F>(a: seq<Entity<F>>, b: seq<Entity<F>>)
  {
    |a| == |b| && forall k :: 0 <= k < |a| ==> a[k].id == b[k].id
  }

  lemma {:induction false} SameIdsTransfer<F>(a: seq<Entity<F>>, b: seq<Entity<F>>, id: Id)
    requires SameIds(a, b)
    ensures HasId(a, id) <==> HasId(b, id)
    ensures UniqueIds(a) <==> UniqueIds(b)
  {
  }

  lemma {:induction false} UniqueSameId<F>(xs: seq<Entity<F>>, a: Entity<F>, b: Entity<F>)
    requires UniqueIds(xs) && a in xs && b in xs
    ensures a.id == b.id ==> a == b
  {
    var i :| 0 <= i < |xs| && xs[i] == a;
    var j :| 0 <= j < |xs| && xs[j] == b;
  }

  /** Replacing the entry with id by a value with that id keeps every
      position's id; with unique ids, exactly that entry is swapped for v. */
  lemma {:induction false} ReplaceFirstSpec<F>(xs: seq<Entity<F>>, id: Id, v: Entity<F>, x: Entity<F>)
    requires v.id == id
    ensures SameIds(ReplaceFirst(xs, id, v), xs)
    ensures UniqueIds(xs) && HasId(xs, id) ==>
              (x in ReplaceFirst(xs, id, v) <==> (x in xs && x.id != id) || x == v)
  {
    if xs != [] {
      var t := xs[1..];
      assert xs == [xs[0]] + t;
      if xs[0].id != id {
        ReplaceFirstSpec(t, id, v, x);
        if UniqueIds(xs) && HasId(xs, id) {
          var i :| 0 <= i < |xs| && xs[i].id == id;
          assert t[i - 1].id == id;
        }
      } else if UniqueIds(xs) {
        assert forall k :: 0 <= k < |t| ==> t[k].id != id by {
          forall k | 0 <= k < |t| ensures t[k].id != id {
            assert t[k] == xs[k + 1];
          }
        }
      }
    }
  }

  /** Some entry of us carries id. */
  predicate UpdatesId<F>(us: seq<Update<F>>, id: Id)
  {
    exists k :: 0 <= k < |us| && us[k].id == id
  }

  predicate UniqueUpdateIds<F>(us: seq<Update<F>>)
  {
    forall i, j :: 0 <= i < j < |us| ==> us[i].id != us[j].id
  }

  /** As intended, updates of ids the state holds replace the entries in
      place: the ids stay, and each updated id now holds its newValue. */
  lemma {:induction false} IntendedUpdatesKeepIds<F>(ys: seq<Entity<F>>, us: seq<Update<F>>)
    requires WellFormedUpdates(us)
    requires forall k :: 0 <= k < |us| ==> HasId(ys, us[k].id)
    ensures SameIds(ApplyUpdates(ys, us, Intended), ys)
  {
    if us != [] {
      var p, u := us[..|us| - 1], us[|us| - 1];
      assert forall k :: 0 <= k < |p| ==> p[k] == us[k];
      IntendedUpdatesKeepIds(ys, p);
      var r0 := ApplyUpdates(ys, p, Intended);
      assert HasId(ys, u.id);
      SameIdsTransfer(r0, ys, u.id);
      ReplaceFirstSpec(r0, u.id, u.newValue, u.newValue);
    }
  }

  /** Some entry of us has x as its newValue. */
  ghost predicate SetsValue<F>(us: seq<Update<F>>, x: Entity<F>)
  {
    exists k :: 0 <= k < |us| && us[k].newValue == x
  }

  lemma {:induction false} UpdatesSnoc<F>(p: seq<Update<F>>, u: Update<F>, x: Entity<F>)
    ensures UpdatesId(p + [u], x.id) <==> UpdatesId(p, x.id) || u.id == x.id
    ensures SetsValue(p + [u], x) <==> SetsValue(p, x) || u.newValue == x
  {
    if UpdatesId(p + [u], x.id) {
      var k :| 0 <= k < |p + [u]| && (p + [u])[k].id == x.id;
      if k < |p| { assert p[k].id == x.id; }
    }
    if SetsValue(p + [u], x) {
      var k :| 0 <= k < |p + [u]| && (p + [u])[k].newValue == x;
      if k < |p| { assert p[k].newValue == x; }
    }
    if u.id == x.id {
      assert (p + [u])[|p|].id == x.id;
    }
    if u.newValue == x {
      assert (p + [u])[|p|].newValue == x;
    }
    if UpdatesId(p, x.id) {
      var k :| 0 <= k < |p| && p[k].id == x.id;
      assert (p + [u])[k].id == x.id;
    }
    if SetsValue(p, x) {
      var k :| 0 <= k < |p| && p[k].newValue == x;
      assert (p + [u])[k].newValue == x;
    }
  }

  lemma {:induction false} IntendedUpdates<F>(ys: seq<Entity<F>>, us: seq<Update<F>>, x: Entity<F>)
    requires UniqueIds(ys) && WellFormedUpdates(us) && UniqueUpdateIds(us)
    requires forall k :: 0 <= k < |us| ==> HasId(ys, us[k].id)
    ensures x in ApplyUpdates(ys, us, Intended) <==> (x in ys && !UpdatesId(us, x.id)) || SetsValue(us, x)
  {
    if us != [] {
      var p, u := us[..|us| - 1], us[|us| - 1];
      assert us == p + [u];
      UpdatesPrefix(ys, p, u);
      IntendedUpdates(ys, p, x);
      IntendedUpdatesKeepIds(ys, p);
      var r0 := ApplyUpdates(ys, p, Intended);
      SameIdsTransfer(r0, ys, u.id);
      ReplaceFirstSpec(r0, u.id, u.newValue, x);
      UpdatesSnoc(p, u, x);
      if SetsValue(p, x) {
        var k :| 0 <= k < |p| && p[k].newValue == x;
      }
    }
  }

  /** All but the last of a run of updates keep its hypotheses, and none of
      them shares the last one's id. */
  lemma {:induction false} UpdatesPrefix<F>(ys: seq<Entity<F>>, p: seq<Update<F>>, u: Update<F>)
    requires WellFormedUpdates(p + [u]) && UniqueUpdateIds(p + [u])
    requires forall k :: 0 <= k < |p + [u]| ==> HasId(ys, (p + [u])[k].id)
    ensures WellFormedUpdates(p) && UniqueUpdateIds(p) && HasId(ys, u.id)
    ensures forall k :: 0 <= k < |p| ==> HasId(ys, p[k].id) && p[k].id != u.id
  {
    assert forall k :: 0 <= k < |p| ==> p[k] == (p + [u])[k];
    assert (p + [u])[|p|] == u;
  }

  lemma {:induction false} AddedOfUnique<F>(oldMap: map<Id, Entity<F>>, news: seq<Entity<F>>)
    requires UniqueIds(news)
    ensures UniqueIds(AddedOf(oldMap, news))
  {
    if news != [] {
      var p, n := news[..|news| - 1], news[|news| - 1];
      AddedOfUnique(oldMap, p);
      var a := AddedOf(oldMap, p);
      forall i | 0 <= i < |a| ensures a[i].id != n.id {
        AddedOfSpec(oldMap, p, a[i]);
        var j :| 0 <= j < |p| && p[j] == a[i];
        assert news[j] == p[j];
      }
    }
  }

  lemma {:induction false} UpdatedOfUnique<F>(oldMap: map<Id, Entity<F>>, news: seq<Entity<F>>)
    requires UniqueIds(news)
    ensures UniqueUpdateIds(UpdatedOf(oldMap, news))
  {
    if news != [] {
      var p, n := news[..|news| - 1], news[|news| - 1];
      UpdatedOfUnique(oldMap, p);
      var us := UpdatedOf(oldMap, p);
      forall i | 0 <= i < |us| ensures us[i].id != n.id {
        UpdatedOfSpec(oldMap, p, us[i]);
        var j :| 0 <= j < |p| && p[j] == us[i].newValue;
        assert news[j] == p[j];
      }
    }
  }

  /** The change-set compareStates finds between two snapshots with unique
      ids adds entities with fresh ids, and updates each id of the old
      snapshot at most once. */
  lemma {:induction false} CompareWellFormed<F>(olds: seq<Entity<F>>, news: seq<Entity<F>>)
    requires UniqueIds(olds) && UniqueIds(news)
    ensures UniqueIds(olds + Compare(olds, news).added)
    ensures WellFormedUpdates(Compare(olds, news).updated)
    ensures UniqueUpdateIds(Compare(olds, news).updated)
    ensures forall k :: 0 <= k < |Compare(olds, news).updated| ==> HasId(olds, Compare(olds, news).updated[k].id)
  {
    var m := IdMap(olds);
    var c := Compare(olds, news);
    IdMapSpec(olds);
    AddedOfUnique(m, news);
    UpdatedOfUnique(m, news);
    forall j | 0 <= j < |c.added| ensures !HasId(olds, c.added[j].id) {
      AddedOfSpec(m, news, c.added[j]);
    }
    var y0 := olds + c.added;
    forall i, j | 0 <= i < j < |y0| ensures y0[i].id != y0[j].id {
      if j >= |olds| && i < |olds| {
        assert y0[j] == c.added[j - |olds|];
      } else if i >= |olds| {
        assert y0[i] == c.added[i - |olds|] && y0[j] == c.added[j - |olds|];
      }
    }
    forall k | 0 <= k < |c.updated| ensures c.updated[k].id == c.updated[k].newValue.id && HasId(olds, c.updated[k].id) {
      UpdatedOfSpec(m, news, c.updated[k]);
    }
  }

  /** Two snapshots agree on every object they share. */
  ghost predicate SameObjectSameValue<F>(olds: seq<Entity<F>>, news: seq<Entity<F>>)
  {
    forall i, j :: 0 <= i < |olds| && 0 <= j < |news| && olds[i].ref == news[j].ref ==> olds[i] == news[j]
  }

  /** Which entities the corrected apply of a compareStates change-set keeps. */
  lemma {:induction false} RoundTripShape<F>(olds: seq<Entity<F>>, news: seq<Entity<F>>, x: Entity<F>)
    requires UniqueIds(olds) && UniqueIds(news)
    ensures var c := Compare(olds, news);
      x in ApplyBucket(olds, c, Intended) <==>
        ((x in olds + c.added && !UpdatesId(c.updated, x.id)) || SetsValue(c.updated, x)) && x.id !in c.deleted
  {
    var c := Compare(olds, news);
    CompareWellFormed(olds, news);
    var y0 := olds + c.added;
    forall k | 0 <= k < |c.updated| ensures HasId(y0, c.updated[k].id) {
      var i :| 0 <= i < |olds| && olds[i].id == c.updated[k].id;
      assert y0[i] == olds[i];
    }
    var y1 := ApplyUpdates(y0, c.updated, Intended);
    RemoveIdsMember(y1, c.deleted, x);
    IntendedUpdates(y0, c.updated, x);
  }

  lemma {:induction false} RoundTripComplete<F>(olds: seq<Entity<F>>, news: seq<Entity<F>>, x: Entity<F>)
    requires UniqueIds(olds) && UniqueIds(news) && SameObjectSameValue(olds, news) && x in news
    ensures var c := Compare(olds, news);
      ((x in olds + c.added && !UpdatesId(c.updated, x.id)) || SetsValue(c.updated, x)) && x.id !in c.deleted
  {
    var m := IdMap(olds);
    var c := Compare(olds, news);
    IdMapSpec(olds);
    IdMapSpec(news);
    MemberHasId(news, x);
    DeletedOfSpec(olds, IdMap(news), x.id);
    if HasId(olds, x.id) {
      IdMapOfUnique(olds);
      var i :| 0 <= i < |olds| && olds[i].id == x.id;
      UpdatedOfSpec(m, news, Update(x.id, x));
      if olds[i].ref != x.ref {
        var k :| 0 <= k < |c.updated| && c.updated[k] == Update(x.id, x);
        assert c.updated[k].newValue == x;
      } else {
        var j :| 0 <= j < |news| && news[j] == x;
        assert olds[i] == x;
        forall k | 0 <= k < |c.updated| ensures c.updated[k].id != x.id {
          UpdatedOfSpec(m, news, c.updated[k]);
          UniqueSameId(news, c.updated[k].newValue, x);
        }
      }
    } else {
      AddedOfSpec(m, news, x);
      forall k | 0 <= k < |c.updated| ensures c.updated[k].id != x.id {
        UpdatedOfSpec(m, news, c.updated[k]);
      }
    }
  }

  lemma {:induction false} RoundTripSound<F>(olds: seq<Entity<F>>, news: seq<Entity<F>>, x: Entity<F>)
    requires UniqueIds(olds) && UniqueIds(news) && SameObjectSameValue(olds, news) && x !in news
    ensures var c := Compare(olds, news);
      !(((x in olds + c.added && !UpdatesId(c.updated, x.id)) || SetsValue(c.updated, x)) && x.id !in c.deleted)
  {
    var m := IdMap(olds);
    var c := Compare(olds, news);
    AddedOfSpec(m, news, x);
    forall k | 0 <= k < |c.updated| ensures c.updated[k].newValue != x {
      UpdatedOfSpec(m, news, c.updated[k]);
    }
    if x in olds {
      IdMapSpec(news);
      MemberHasId(olds, x);
      DeletedOfSpec(olds, IdMap(news), x.id);
      if HasId(news, x.id) {
        var i :| 0 <= i < |olds| && olds[i] == x;
        var j :| 0 <= j < |news| && news[j].id == x.id;
        var t := news[j];
        IdMapOfUnique(olds);
        UpdatedOfSpec(m, news, Update(t.id, t));
        var k :| 0 <= k < |c.updated| && c.updated[k] == Update(t.id, t);
        assert c.updated[k].id == x.id;
      }
    }
  }

  lemma {:induction false} IntendedRoundTripMember<F>(olds: seq<Entity<F>>, news: seq<Entity<F>>, x: Entity<F>)
    requires UniqueIds(olds) && UniqueIds(news) && SameObjectSameValue(olds, news)
    ensures x in ApplyBucket(olds, Compare(olds, news), Intended) <==> x in news
  {
    RoundTripShape(olds, news, x);
    if x in news {
      RoundTripComplete(olds, news, x);
    } else {
      RoundTripSound(olds, news, x);
    }
  }

  /** Corrected applyChangesToState completes the round trip: applying to a
      snapshot the change-set compareStates found between it and another
      snapshot yields exactly the other snapshot's entities, each id once. */
  lemma {:induction false} ApplyCompareRoundTrip<F>(olds: seq<Entity<F>>, news: seq<Entity<F>>)
    requires UniqueIds(olds) && UniqueIds(news) && SameObjectSameValue(olds, news)
    ensures forall x :: x in ApplyBucket(olds, Compare(olds, news), Intended) <==> x in news
    ensures UniqueIds(ApplyBucket(olds, Compare(olds, news), Intended))
  {
    forall x ensures x in ApplyBucket(olds, Compare(olds, news), Intended) <==> x in news {
      IntendedRoundTripMember(olds, news, x);
    }
    var c := Compare(olds, news);
    CompareWellFormed(olds, news);
    var y0 := olds + c.added;
    forall k | 0 <= k < |c.updated| ensures HasId(y0, c.updated[k].id) {
      var i :| 0 <= i < |olds| && olds[i].id == c.updated[k].id;
      assert y0[i] == olds[i];
    }
    var y1 := ApplyUpdates(y0, c.updated, Intended);
    IntendedUpdatesKeepIds(y0, c.updated);
    SameIdsTransfer(y1, y0, "");
    RemoveIdsKeepsUnique(y1, c.deleted);
  }

  lemma {:induction false} RemoveIdsConcat<F>(a: seq<Entity<F>>, b: seq<Entity<F>>, ds: seq<Id>)
    ensures RemoveIds(a + b, ds) == RemoveIds(a, ds) + RemoveIds(b, ds)
  {
    if ds != [] {
      var p := ds[..|ds| - 1];
      RemoveIdsConcat(a, b, p);
      RemoveIdConcat(RemoveIds(a, p), RemoveIds(b, p), ds[|ds| - 1]);
    }
  }

  lemma {:induction false} RemoveIdsAbsent<F>(xs: seq<Entity<F>>, ds: seq<Id>)
    requires forall i :: 0 <= i < |xs| ==> xs[i].id !in ds
    ensures RemoveIds(xs, ds) == xs
  {
    if ds != [] {
      var p := ds[..|ds| - 1];
      assert forall i :: 0 <= i < |xs| ==> xs[i].id !in p by {
        forall i | 0 <= i < |xs| ensures xs[i].id !in p {
          assert ds == p + [ds[|ds| - 1]];
        }
      }
      RemoveIdsAbsent(xs, p);
      assert ds[|ds| - 1] in ds;
      RemoveIdAbsent(xs, ds[|ds| - 1]);
    }
  }

  lemma {:induction false} RemoveIdsAllGone<F>(xs: seq<Entity<F>>, ds: seq<Id>)
    requires forall i :: 0 <= i < |xs| ==> xs[i].id in ds
    ensures RemoveIds(xs, ds) == []
  {
    var r := RemoveIds(xs, ds);
    if r != [] {
      RemoveIdsMember(xs, ds, r[0]);
      assert false;
    }
  }

  /** No entry left by the filters carries a deleted id. */
  lemma {:induction false} SurvivorsNotDeleted<F>(ys: seq<Entity<F>>, ds: seq<Id>)
    ensures forall i :: 0 <= i < |RemoveIds(ys, ds)| ==> RemoveIds(ys, ds)[i].id !in ds
  {
    var r := RemoveIds(ys, ds);
    forall i | 0 <= i < |r| ensures r[i].id !in ds {
      RemoveIdsMember(ys, ds, r[i]);
    }
  }

  /** Re-applying well-formed updates to what the filters left of ys, where
      every update's id was present, appends only entries whose id was
      deleted. */
  lemma {:induction false} ReappliedUpdatesWereDeleted<F>(ys: seq<Entity<F>>, ds: seq<Id>, us: seq<Update<F>>)
    requires WellFormedUpdates(us)
    requires forall j :: 0 <= j < |us| ==> HasId(ys, us[j].id)
    ensures forall k :: |RemoveIds(ys, ds)| <= k < |ApplyUpdates(RemoveIds(ys, ds), us, AsWritten)| ==>
              ApplyUpdates(RemoveIds(ys, ds), us, AsWritten)[k].id in ds
  {
    var r := RemoveIds(ys, ds);
    var y := ApplyUpdates(r, us, AsWritten);
    UpdatesOnlyAppend(r, us);
    forall k | |r| <= k < |y| ensures y[k].id in ds {
      var j :| 0 <= j < |us| && y[k] == us[j].newValue && !HasId(r, us[j].id);
      var i :| 0 <= i < |ys| && ys[i].id == us[j].id;
      RemoveIdsMember(ys, ds, ys[i]);
      if us[j].id !in ds {
        MemberHasId(r, ys[i]);
      }
    }
  }

  /** Re-applying the updates of a change-set that adds nothing, as written,
      keeps what one application left (none of it deleted) and appends only
      entries whose id the change-set deletes. */
  lemma {:induction false} ReapplyAddsOnlyDeleted<F>(xs: seq<Entity<F>>, c: Changes<F>)
    requires c.added == [] && WellFormedUpdates(c.updated)
    ensures var r1 := ApplyBucket(xs, c, AsWritten);
            var y2 := ApplyUpdates(r1, c.updated, AsWritten);
            |y2| >= |r1| && y2[..|r1|] == r1
            && (forall i :: 0 <= i < |r1| ==> r1[i].id !in c.deleted)
            && (forall k :: |r1| <= k < |y2| ==> y2[k].id in c.deleted)
  {
    assert xs + c.added == xs;
    var y1 := ApplyUpdates(xs, c.updated, AsWritten);
    UpdatesOnlyAppend(xs, c.updated);
    UpdatesOnlyAppend(RemoveIds(y1, c.deleted), c.updated);
    ReappliedUpdatesWereDeleted(y1, c.deleted, c.updated);
    SurvivorsNotDeleted(y1, c.deleted);
  }

  /** Applying the same change-set twice, as written, is applying it once,
      provided it adds nothing (added entities are appended again) and every
      update carries its own id. */
  lemma {:induction false} ApplyIdempotentAsWritten<F>(xs: seq<Entity<F>>, c: Changes<F>)
    requires c.added == [] && WellFormedUpdates(c.updated)
    ensures ApplyBucket(ApplyBucket(xs, c, AsWritten), c, AsWritten) == ApplyBucket(xs, c, AsWritten)
  {
    ReapplyAddsOnlyDeleted(xs, c);
    var r1 := ApplyBucket(xs, c, AsWritten);
    assert r1 + c.added == r1;
    var y2 := ApplyUpdates(r1, c.updated, AsWritten);
    var extra := y2[|r1|..];
    assert y2 == r1 + extra;
    assert forall i :: 0 <= i < |extra| ==> extra[i].id in c.deleted by {
      assert forall i :: 0 <= i < |extra| ==> extra[i] == y2[|r1| + i];
    }
    RemoveIdsConcat(r1, extra, c.deleted);
    RemoveIdsAbsent(r1, c.deleted);
    RemoveIdsAllGone(extra, c.deleted);
  }
  /** As written, a change-set that adds an entity whose id it does not
      delete appends that entity again on every application: applying it
      twice gives a longer state than applying it once. */
  lemma {:induction false} ReapplyAppendsAgain<F>(xs: seq<Entity<F>>, c: Changes<F>, x: Entity<F>)
    requires x in c.added && x.id !in c.deleted
    ensures |ApplyBucket(ApplyBucket(xs, c, AsWritten), c, AsWritten)| > |ApplyBucket(xs, c, AsWritten)|
    ensures ApplyBucket(ApplyBucket(xs, c, AsWritten), c, AsWritten) != ApplyBucket(xs, c, AsWritten)
    ensures c == Changes([x], [], []) ==>
              ApplyBucket(ApplyBucket(xs, c, AsWritten), c, AsWritten) == ApplyBucket(xs, c, AsWritten) + [x]
  {
    var r1 := ApplyBucket(xs, c, AsWritten);
    forall i | 0 <= i < |r1| ensures r1[i].id !in c.deleted {
      RemoveIdsMember(ApplyUpdates(xs + c.added, c.updated, AsWritten), c.deleted, r1[i]);
    }
    RemoveIdsAbsent(r1, c.deleted);
    var y2 := ApplyUpdates(r1 + c.added, c.updated, AsWritten);
    UpdatesOnlyAppend(r1 + c.added, c.updated);
    var extra := y2[|r1 + c.added|..];
    assert y2 == (r1 + c.added) + extra;
    RemoveIdsConcat(r1 + c.added, extra, c.deleted);
    RemoveIdsConcat(r1, c.added, c.deleted);
    RemoveIdsMember(c.added, c.deleted, x);
    if c == Changes([x], [], []) {
      assert r1 == xs + [x];
    }
  }


}
