/**
 * The document store as the board uses it: three maps keyed by path,
 *   projects/{p}, projects/{p}/categories/{c} and projects/{p}/categories/{c}/{kind}/{id}.
 * A sub-collection is not owned by its parent document: removing a category document leaves
 * the task documents under its path in place. `update` of a missing document fails and
 * changes nothing; `set` creates or overwrites; `delete` of a missing document succeeds.
 */
module DocStore {
  import opened Wrappers
  import opened Constants

  type Name = string

  /** Store-generated document id of a task. */
  type TaskId = nat

  datatype ProjectDoc = ProjectDoc(createdAt: Option<int>, updatedAt: Option<int>)

  datatype CategoryDoc = CategoryDoc(createdAt: Option<int>)

  /** Older tasks carry `title`, newer ones `text`. */
  datatype TaskDoc = TaskDoc(title: Option<string>, text: Option<string>, status: Option<string>, createdAt: Option<int>)

  datatype CategoryPath = CategoryPath(project: Name, category: Name)

  datatype TaskPath = TaskPath(project: Name, category: Name, kind: ActionKind, id: TaskId)

  /** nextId stands for the store's auto-id generator: every id it hands out is fresh. */
  datatype Store = Store(
    projects: map<Name, ProjectDoc>,
    categories: map<CategoryPath, CategoryDoc>,
    tasks: map<TaskPath, TaskDoc>,
    nextId: TaskId)
  {
    ghost predicate Valid() {
      forall t :: t in tasks ==> t.id < nextId
    }
  }

  const EmptyStore := Store(map[], map[], map[], 0)

  /** projects.doc(p).set(doc): creates or overwrites the one document, nothing else. */
  function SetProject(s: Store, p: Name, doc: ProjectDoc): (r: Store)
    ensures p in r.projects && r.projects[p] == doc
    ensures r.projects - {p} == s.projects - {p}
    ensures r.categories == s.categories && r.tasks == s.tasks && r.nextId == s.nextId
  {
    s.(projects := s.projects[p := doc])
  }

  /** projects.doc(p).update({ updatedAt: now }); fails when the document is missing. */
  function Touch(s: Store, p: Name, now: int): (r: Store)
    ensures p !in s.projects ==> r == s
    ensures p in s.projects ==> p in r.projects && r.projects[p].updatedAt == Some(now) && r.projects[p].createdAt == s.projects[p].createdAt
    ensures r.projects.Keys == s.projects.Keys && r.projects - {p} == s.projects - {p}
    ensures r.categories == s.categories && r.tasks == s.tasks && r.nextId == s.nextId
  {
    if p in s.projects then s.(projects := s.projects[p := s.projects[p].(updatedAt := Some(now))])
    else s
  }

  function DeleteProjectDoc(s: Store, p: Name): Store {
    s.(projects := s.projects - {p})
  }

  /** projects/{p}/categories.doc(c).set(doc): creates or overwrites, whether or not project p exists. */
  function SetCategory(s: Store, p: Name, c: Name, doc: CategoryDoc): (r: Store)
    ensures CategoryPath(p, c) in r.categories && r.categories[CategoryPath(p, c)] == doc
    ensures r.categories - {CategoryPath(p, c)} == s.categories - {CategoryPath(p, c)}
    ensures r.projects == s.projects && r.tasks == s.tasks && r.nextId == s.nextId
  {
    s.(categories := s.categories[CategoryPath(p, c) := doc])
  }

  /** Deletes the category document only: the task documents under its path stay. */
  function DeleteCategoryDoc(s: Store, p: Name, c: Name): (r: Store)
    ensures CategoryPath(p, c) !in r.categories
    ensures r.categories - {CategoryPath(p, c)} == s.categories - {CategoryPath(p, c)}
    ensures r.projects == s.projects && r.tasks == s.tasks && r.nextId == s.nextId
  {
    s.(categories := s.categories - {CategoryPath(p, c)})
  }

  /** Names of the category documents of project p. */
  function CategoriesOf(s: Store, p: Name): set<Name> {
    set cp | cp in s.categories && cp.project == p :: cp.category
  }

  /** Ids of the task documents in bucket k of category c of project p. */
  function Bucket(s: Store, p: Name, c: Name, k: ActionKind): set<TaskId> {
    set t | t in s.tasks && t.project == p && t.category == c && t.kind == k :: t.id
  }

  /** collection(k).add(doc): a fresh id, returned with the new store. */
  function AddTaskDoc(s: Store, p: Name, c: Name, k: ActionKind, doc: TaskDoc): (res: (Store, TaskId))
    ensures var (r, id) := res;
      && TaskPath(p, c, k, id) in r.tasks && r.tasks[TaskPath(p, c, k, id)] == doc
      && r.tasks - {TaskPath(p, c, k, id)} == s.tasks - {TaskPath(p, c, k, id)}
      && r.projects == s.projects && r.categories == s.categories
      && (s.Valid() ==> TaskPath(p, c, k, id) !in s.tasks && r.Valid())
  {
    (s.(tasks := s.tasks[TaskPath(p, c, k, s.nextId) := doc], nextId := s.nextId + 1), s.nextId)
  }

  /** doc.update({ status }): changes that one field, or nothing when the document is missing. */
  function UpdateStatus(s: Store, t: TaskPath, status: string): (r: Store)
    ensures t !in s.tasks ==> r == s
    ensures t in s.tasks ==> t in r.tasks && r.tasks[t].status == Some(status) && r.tasks[t].(status := s.tasks[t].status) == s.tasks[t]
    ensures r.tasks.Keys == s.tasks.Keys && r.tasks - {t} == s.tasks - {t}
    ensures r.projects == s.projects && r.categories == s.categories && r.nextId == s.nextId
  {
    if t in s.tasks then s.(tasks := s.tasks[t := s.tasks[t].(status := Some(status))]) else s
  }

  /** doc.update({ title }): changes that one field, or nothing when the document is missing. */
  function UpdateTitle(s: Store, t: TaskPath, title: string): (r: Store)
    ensures t !in s.tasks ==> r == s
    ensures t in s.tasks ==> t in r.tasks && r.tasks[t].title == Some(title) && r.tasks[t].(title := s.tasks[t].title) == s.tasks[t]
    ensures r.tasks.Keys == s.tasks.Keys && r.tasks - {t} == s.tasks - {t}
    ensures r.projects == s.projects && r.categories == s.categories && r.nextId == s.nextId
  {
    if t in s.tasks then s.(tasks := s.tasks[t := s.tasks[t].(title := Some(title))]) else s
  }

  /** doc.update({ text, title: FieldValue.delete() }): status and createdAt stay; a missing document is left missing. */
  function UpdateTextDropTitle(s: Store, t: TaskPath, text: string): (r: Store)
    ensures t !in s.tasks ==> r == s
    ensures t in s.tasks ==> t in r.tasks && r.tasks[t].text == Some(text) && r.tasks[t].title == None
    ensures t in s.tasks ==> r.tasks[t].status == s.tasks[t].status && r.tasks[t].createdAt == s.tasks[t].createdAt
    ensures r.tasks.Keys == s.tasks.Keys && r.tasks - {t} == s.tasks - {t}
    ensures r.projects == s.projects && r.categories == s.categories && r.nextId == s.nextId
  {
    if t in s.tasks then s.(tasks := s.tasks[t := s.tasks[t].(text := Some(text), title := None)]) else s
  }

  /** doc.delete(): succeeds, and changes nothing, when the document is already gone. */
  function DeleteTaskDoc(s: Store, t: TaskPath): (r: Store)
    ensures t !in r.tasks && r.tasks - {t} == s.tasks - {t}
    ensures t !in s.tasks ==> r == s
    ensures r.projects == s.projects && r.categories == s.categories && r.nextId == s.nextId
  {
    s.(tasks := s.tasks - {t})
  }

  /** Deletes every task document of one bucket (a batch, or one delete per document). */
  function ClearBucket(s: Store, p: Name, c: Name, k: ActionKind): (r: Store)
    ensures Bucket(r, p, c, k) == {}
    ensures forall t :: t in r.tasks ==> t in s.tasks && r.tasks[t] == s.tasks[t]
    ensures r.projects == s.projects && r.categories == s.categories && r.nextId == s.nextId
  {
    s.(tasks := map t | t in s.tasks && !(t.project == p && t.category == c && t.kind == k) :: s.tasks[t])
  }

  /** Writing a category document and bumping its project lists the category in that project. */
  lemma AddedCategoryListed(s: Store, p: Name, c: Name, doc: CategoryDoc, now: int)
    ensures CategoriesOf(Touch(SetCategory(s, p, c, doc), p, now), p) == CategoriesOf(s, p) + {c}
  {
    var r := Touch(SetCategory(s, p, c, doc), p, now);
    assert CategoryPath(p, c) in r.categories;
    forall x | x in CategoriesOf(r, p) ensures x in CategoriesOf(s, p) + {c} {
      var cp :| cp in r.categories && cp.project == p && cp.category == x;
      if cp != CategoryPath(p, c) {
        assert cp in s.categories;
      }
    }
    forall x | x in CategoriesOf(s, p) ensures x in CategoriesOf(r, p) {
      var cp :| cp in s.categories && cp.project == p && cp.category == x;
      assert cp in r.categories;
    }
  }

  /** Clearing a bucket empties it and leaves every other document as it was. */
  lemma ClearBucketExact(s: Store, p: Name, c: Name, k: ActionKind)
    ensures var r := ClearBucket(s, p, c, k);
      && Bucket(r, p, c, k) == {}
      && r.projects == s.projects && r.categories == s.categories && r.nextId == s.nextId
      && (forall t :: t in r.tasks <==> t in s.tasks && !(t.project == p && t.category == c && t.kind == k))
      && (forall t :: t in r.tasks ==> r.tasks[t] == s.tasks[t])
  {
  }

  /** Task documents whose path lies in bucket k of category c of project p. */
  lemma BucketMember(s: Store, p: Name, c: Name, k: ActionKind, id: TaskId)
    ensures id in Bucket(s, p, c, k) <==> TaskPath(p, c, k, id) in s.tasks
  {
    if TaskPath(p, c, k, id) in s.tasks {
      assert TaskPath(p, c, k, id).id == id;
    }
  }

  /** A task in category c of project p. */
  predicate InCategory(t: TaskPath, p: Name, c: Name) {
    t.project == p && t.category == c
  }

  /** Clears the buckets ks of category c one after the other, in the order of ks. */
  function ClearKinds(s: Store, p: Name, c: Name, ks: seq<ActionKind>): Store
    decreases |ks|
  {
    if ks == [] then s
    else ClearBucket(ClearKinds(s, p, c, ks[..|ks| - 1]), p, c, ks[|ks| - 1])
  }

  /** Clearing several buckets removes exactly their tasks and nothing else. */
  lemma {:induction false} ClearKindsExact(s: Store, p: Name, c: Name, ks: seq<ActionKind>)
    ensures var r := ClearKinds(s, p, c, ks);
      && r.projects == s.projects && r.categories == s.categories && r.nextId == s.nextId
      && (forall t :: t in r.tasks <==> t in s.tasks && !(InCategory(t, p, c) && t.kind in ks))
      && (forall t :: t in r.tasks ==> r.tasks[t] == s.tasks[t])
    decreases |ks|
  {
    if ks != [] {
      var init := ks[..|ks| - 1];
      ClearKindsExact(s, p, c, init);
      assert ks == init + [ks[|ks| - 1]];
    }
  }

  /**
   * The category cascade of app.js: the tasks of all four buckets, then the category
   * document.
   */
  function CascadeCategory(s: Store, p: Name, c: Name): Store {
    DeleteCategoryDoc(ClearKinds(s, p, c, AllKinds), p, c)
  }

  /** After the cascade no task of the category is left, and nothing outside it changed. */
  lemma CascadeCategoryExact(s: Store, p: Name, c: Name)
    ensures var r := CascadeCategory(s, p, c);
      && r.projects == s.projects && r.nextId == s.nextId
      && (forall cp :: cp in r.categories <==> cp in s.categories && cp != CategoryPath(p, c))
      && (forall t :: t in r.tasks <==> t in s.tasks && !InCategory(t, p, c))
      && (forall t :: t in r.tasks ==> r.tasks[t] == s.tasks[t])
      && (r.Valid() <== s.Valid())
  {
    ClearKindsExact(s, p, c, AllKinds);
    forall t: TaskPath ensures t.kind in AllKinds {
      assert AllKinds[IndexOf(t.kind)] == t.kind;
    }
  }

  /** The project cascade of app.js: the category cascade for each listed category, in order. */
  function CascadeCategories(s: Store, p: Name, cs: seq<Name>): Store
    decreases |cs|
  {
    if cs == [] then s
    else CascadeCategory(CascadeCategories(s, p, cs[..|cs| - 1]), p, cs[|cs| - 1])
  }

  lemma {:induction false} CascadeCategoriesExact(s: Store, p: Name, cs: seq<Name>)
    ensures var r := CascadeCategories(s, p, cs);
      && r.projects == s.projects && r.nextId == s.nextId
      && (forall cp :: cp in r.categories <==> cp in s.categories && !(cp.project == p && cp.category in cs))
      && (forall t :: t in r.tasks <==> t in s.tasks && !(t.project == p && t.category in cs))
      && (forall t :: t in r.tasks ==> r.tasks[t] == s.tasks[t])
      && (r.Valid() <== s.Valid())
    decreases |cs|
  {
    if cs != [] {
      var init := cs[..|cs| - 1];
      CascadeCategoriesExact(s, p, init);
      CascadeCategoryExact(CascadeCategories(s, p, init), p, cs[|cs| - 1]);
      assert cs == init + [cs[|cs| - 1]];
    }
  }
}
