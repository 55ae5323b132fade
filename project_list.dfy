/**
 * The project dropdown's data: every project document normalised to
 * { id, createdAt: createdAt || 0, updatedAt: updatedAt || createdAt || 0 } and sorted by
 * updatedAt, newest first (app.js:68-103 and js/project.js:60-89 do the same).
 */
module ProjectList {
  import opened Wrappers
  import opened Listing
  import opened Sorting
  import opened DocStore

  datatype ProjectEntry = ProjectEntry(id: Name, createdAt: int, updatedAt: int)

  /** JavaScript truthiness of an optional timestamp: a missing field and 0 are both falsy. */
  predicate Truthy(t: Option<int>) {
    t.Some? && t.value != 0
  }

  /** `t || fallback` on an optional timestamp. */
  function OrElse(t: Option<int>, fallback: int): int {
    if Truthy(t) then t.value else fallback
  }

  /** One entry of the list: missing or zero timestamps fall back, updatedAt to createdAt, createdAt to 0. */
  function Normalise(id: Name, doc: ProjectDoc): (e: ProjectEntry)
    ensures e.id == id
    ensures Truthy(doc.createdAt) ==> e.createdAt == doc.createdAt.value
    ensures !Truthy(doc.createdAt) ==> e.createdAt == 0
    ensures Truthy(doc.updatedAt) ==> e.updatedAt == doc.updatedAt.value
    ensures !Truthy(doc.updatedAt) ==> e.updatedAt == e.createdAt
    ensures e.updatedAt == 0 <==> !Truthy(doc.updatedAt) && !Truthy(doc.createdAt)
  {
    var created := OrElse(doc.createdAt, 0);
    ProjectEntry(id, created, OrElse(doc.updatedAt, created))
  }

  /** The sort key of the comparator `(a, b) => b.updatedAt - a.updatedAt`. */
  function UpdatedKey(e: ProjectEntry): int {
    e.updatedAt
  }

  /** The option values of a list of entries (the same shape as LegacyView.Names, over entries). */
  function Ids(es: seq<ProjectEntry>): (ids: seq<Name>)
    ensures |ids| == |es|
    ensures forall i :: 0 <= i < |es| ==> ids[i] == es[i].id
  {
    seq(|es|, i requires 0 <= i < |es| => es[i].id)
  }

  /**
   * es is what loading shows for store s: one normalised entry per stored project (so a
   * permutation of the stored documents), newest updatedAt first.
   */
  ghost predicate IsProjectList(s: Store, es: seq<ProjectEntry>) {
    && |es| == |s.projects|
    && (forall i :: 0 <= i < |es| ==> es[i].id in s.projects && es[i] == Normalise(es[i].id, s.projects[es[i].id]))
    && (forall id :: id in s.projects ==> Normalise(id, s.projects[id]) in es)
    && NonIncreasing(es, UpdatedKey)
  }

  /** Reads the projects collection, pushes one entry per document and sorts the array. */
  method LoadProjectList(s: Store) returns (es: seq<ProjectEntry>)
    ensures IsProjectList(s, es)
  {
    var ids := Enumerate(s.projects.Keys);
    ListingFacts(ids, s.projects.Keys);
    var projects: seq<ProjectEntry> := [];
    var i := 0;
    while i < |ids|
      invariant i <= |ids|
      invariant |projects| == i
      invariant forall j :: 0 <= j < i ==> projects[j] == Normalise(ids[j], s.projects[ids[j]])
    {
      projects := projects + [Normalise(ids[i], s.projects[ids[i]])];
      i := i + 1;
    }
    es := SortDesc(projects, UpdatedKey);
    forall id | id in s.projects
      ensures Normalise(id, s.projects[id]) in es
    {
      var j :| 0 <= j < |ids| && ids[j] == id;
      assert projects[j] in multiset(es);
    }
    forall k | 0 <= k < |es|
      ensures es[k].id in s.projects && es[k] == Normalise(es[k].id, s.projects[es[k].id])
    {
      assert es[k] in multiset(projects);
      var j :| 0 <= j < |projects| && projects[j] == es[k];
    }
  }

  /** A non-empty list puts the most recently updated project first. */
  lemma FirstIsNewest(s: Store, es: seq<ProjectEntry>)
    requires IsProjectList(s, es)
    requires es != []
    ensures es[0].id in s.projects
    ensures forall id :: id in s.projects ==> Normalise(id, s.projects[id]).updatedAt <= es[0].updatedAt
  {
    forall id | id in s.projects
      ensures Normalise(id, s.projects[id]).updatedAt <= es[0].updatedAt
    {
      var e := Normalise(id, s.projects[id]);
      var j :| 0 <= j < |es| && es[j] == e;
      assert j == 0 || UpdatedKey(es[0]) >= UpdatedKey(es[j]);
    }
  }

  /** `find(o => o.value === x)`: the position of the first x in xs. */
  function FirstIndex(xs: seq<Name>, x: Name): (i: nat)
    requires x in xs
    ensures i < |xs| && xs[i] == x && x !in xs[..i]
  {
    if xs[0] == x then 0 else FirstIndex(xs[1..], x) + 1
  }

  /**
   * `Array.from(select.options).find(o => o.value === x)?.remove()`: drops the first x only;
   * the options before it stay where they are and the ones after it move up by one.
   */
  function RemoveFirst(xs: seq<Name>, x: Name): (r: seq<Name>)
    ensures x !in xs ==> r == xs
    ensures x in xs ==> |r| == |xs| - 1
    ensures x in xs ==> forall j :: 0 <= j < |r| ==> r[j] == if j < FirstIndex(xs, x) then xs[j] else xs[j + 1]
    ensures multiset(r) == multiset(xs) - multiset{x}
  {
    if x !in xs then xs
    else
      var i := FirstIndex(xs, x);
      assert xs == xs[..i] + [x] + xs[i + 1..];
      xs[..i] + xs[i + 1..]
  }
}
