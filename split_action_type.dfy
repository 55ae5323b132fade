/**
 * loadCategory and renderActionType of js/action-type.js: what a category element shows
 * for the store, and the handlers of its toggle, its delete button, its add-action-type
 * button and its sections. Unlike app.js, deleting a category leaves its tasks in the
 * store, and neither removing a section nor adding a task bumps the project's updatedAt.
 */
module SplitActionType {
  import opened Wrappers
  import opened Text
  import opened Constants
  import opened Listing
  import opened DocStore
  import opened Preferences
  import opened SplitPage
  import opened SplitTask
  import SplitEmoji

  const DuplicateKindNotice := "This action type already exists in this category."
  const TaskNameMissing := "Please enter a task name."

  /** The section title: the action emoji of main.js and the type's label. */
  function SectionHeading(k: ActionKind): string {
    SplitEmoji.ActionEmoji(KeyOf(k)) + " " + LabelOf(k)
  }

  function CategoryHeading(c: Name): string {
    SplitEmoji.CategoryEmoji(c) + " " + c
  }

  /** The kinds whose bucket query returns at least one document. */
  function NonEmptyKinds(s: Store, p: Name, c: Name): set<ActionKind> {
    set k | k in AllKinds && Bucket(s, p, c, k) != {}
  }

  lemma NonEmptyKindsMember(s: Store, p: Name, c: Name, k: ActionKind)
    ensures k in NonEmptyKinds(s, p, c) <==> Bucket(s, p, c, k) != {}
  {
    assert AllKinds[IndexOf(k)] == k;
  }

  /** A stored task as the auto-render shows it: renderTask, then hidden when green and hiding is on. */
  function LoadedNode(id: TaskId, doc: TaskDoc, hideDone: bool): (n: TaskNode)
    ensures n == RenderTask(id, doc).(hidden := n.hidden)
    ensures NodeOK(n, !hideDone)
  {
    var n := RenderTask(id, doc);
    n.(hidden := hideDone && n.colour == "green")
  }

  /** sec shows bucket k: every document of the bucket once, in the store's order, each rendered from its data. */
  ghost predicate RendersSection(s: Store, p: Name, c: Name, k: ActionKind, hideDone: bool, sec: Section) {
    && sec.kind == k
    && sec.heading == SectionHeading(k)
    && sec.notice == ""
    && IsListing(NodeIds(sec.nodes), Bucket(s, p, c, k))
    && forall i :: 0 <= i < |sec.nodes| ==>
         TaskPath(p, c, k, sec.nodes[i].id) in s.tasks
         && sec.nodes[i] == LoadedNode(sec.nodes[i].id, s.tasks[TaskPath(p, c, k, sec.nodes[i].id)], hideDone)
  }

  /**
   * One bucket of the auto-render (js/action-type.js:67-75 with renderActionType): the
   * snapshot's documents become task elements, and green ones are hidden when hiding is on.
   */
  method RenderSection(s: Store, p: Name, c: Name, k: ActionKind, hideDone: bool) returns (sec: Section)
    ensures RendersSection(s, p, c, k, hideDone, sec)
    ensures SectionOK(sec, !hideDone)
  {
    var ids := Enumerate(Bucket(s, p, c, k));
    ListingFacts(ids, Bucket(s, p, c, k));
    var nodes: seq<TaskNode> := [];
    var i := 0;
    while i < |ids|
      invariant i <= |ids| && |nodes| == i
      invariant forall j :: 0 <= j < i ==>
        nodes[j].id == ids[j] && TaskPath(p, c, k, ids[j]) in s.tasks
        && nodes[j] == LoadedNode(ids[j], s.tasks[TaskPath(p, c, k, ids[j])], hideDone)
    {
      BucketMember(s, p, c, k, ids[i]);
      nodes := nodes + [LoadedNode(ids[i], s.tasks[TaskPath(p, c, k, ids[i])], hideDone)];
      i := i + 1;
    }
    sec := Section(k, SectionHeading(k), nodes, "");
    assert NodeIds(nodes) == ids;
  }

  /**
   * cv is what loadCategory shows for category c of project p: the heading, the toggle
   * checked unless the preference hides completed tasks, and one section per non-empty
   * bucket, in whatever order the four queries complete.
   */
  ghost predicate RendersCategory(s: Store, local: LocalStorage, p: Name, c: Name, cv: CategoryView) {
    && cv.project == p && cv.name == c
    && cv.heading == CategoryHeading(c)
    && cv.toggleChecked == !HidesCompleted(local, p, c)
    && cv.notice == ""
    && IsListing(Kinds(cv.sections), NonEmptyKinds(s, p, c))
    && forall i :: 0 <= i < |cv.sections| ==>
         RendersSection(s, p, c, cv.sections[i].kind, HidesCompleted(local, p, c), cv.sections[i])
  }

  /** The sections of the auto-render, one per kind, in the order the bucket queries complete. */
  method RenderSections(s: Store, p: Name, c: Name, completed: seq<ActionKind>, hideDone: bool) returns (sections: seq<Section>)
    ensures Kinds(sections) == completed
    ensures forall j :: 0 <= j < |sections| ==> RendersSection(s, p, c, completed[j], hideDone, sections[j])
    ensures forall j :: 0 <= j < |sections| ==> SectionOK(sections[j], !hideDone)
  {
    sections := [];
    var i := 0;
    while i < |completed|
      invariant i <= |completed| && |sections| == i
      invariant forall j :: 0 <= j < i ==> sections[j].kind == completed[j]
      invariant forall j :: 0 <= j < i ==> RendersSection(s, p, c, completed[j], hideDone, sections[j])
      invariant forall j :: 0 <= j < i ==> SectionOK(sections[j], !hideDone)
    {
      var sec := RenderSection(s, p, c, completed[i], hideDone);
      sections := sections + [sec];
      i := i + 1;
    }
  }

  /** loadCategory (js/action-type.js:4-80), with every bucket query run to completion. */
  method LoadCategory(s: Store, local: LocalStorage, p: Name, c: Name) returns (cv: CategoryView)
    ensures RendersCategory(s, local, p, c, cv)
    ensures CategoryOK(cv)
  {
    var hideDone := HidesCompleted(local, p, c);
    var completed := Enumerate(NonEmptyKinds(s, p, c));
    ListingFacts(completed, NonEmptyKinds(s, p, c));
    var sections := RenderSections(s, p, c, completed, hideDone);
    cv := CategoryView(p, c, CategoryHeading(c), !hideDone, "", sections);
  }

  /** A bucket emptied by a section's remove button gets no section on the next load. */
  lemma ClearedBucketNotLoaded(s: Store, p: Name, c: Name, k: ActionKind)
    ensures k !in NonEmptyKinds(ClearBucket(s, p, c, k), p, c)
  {
    ClearBucketExact(s, p, c, k);
    NonEmptyKindsMember(ClearBucket(s, p, c, k), p, c, k);
  }

  /**
   * Deleting a category removes only its document: its tasks stay, and a category created
   * again under the same name shows the old tasks.
   */
  lemma {:induction false} DeletedCategoryKeepsTasks(s: Store, p: Name, c: Name, doc: CategoryDoc)
    ensures DeleteCategoryDoc(s, p, c).tasks == s.tasks
    ensures CategoriesOf(DeleteCategoryDoc(s, p, c), p) == CategoriesOf(s, p) - {c}
    ensures NonEmptyKinds(SetCategory(DeleteCategoryDoc(s, p, c), p, c, doc), p, c) == NonEmptyKinds(s, p, c)
  {
    var r := DeleteCategoryDoc(s, p, c);
    forall x ensures x in CategoriesOf(r, p) <==> x in CategoriesOf(s, p) - {c} {
      if x in CategoriesOf(s, p) - {c} {
        assert CategoryPath(p, x) in r.categories;
      }
    }
    forall k ensures Bucket(SetCategory(r, p, c, doc), p, c, k) == Bucket(s, p, c, k) { }
  }

  /** A task of the category survives this delete, while app.js's cascade removes it. */
  lemma PlainDeleteVersusCascade(s: Store, p: Name, c: Name, t: TaskPath)
    requires t in s.tasks && InCategory(t, p, c)
    ensures t in DeleteCategoryDoc(s, p, c).tasks
    ensures t !in CascadeCategory(s, p, c).tasks
  {
    CascadeCategoryExact(s, p, c);
  }

  /** The element of a task just added (js/action-type.js:134). */
  function NewTaskNode(id: TaskId, text: string): TaskNode {
    RenderTask(id, TaskDoc(None, Some(text), Some("white"), None))
  }

  /** The stored document of a task added through a section's form (js/action-type.js:129-133). */
  function NewTaskDoc(text: string, now: int): TaskDoc {
    TaskDoc(None, Some(text), Some("white"), Some(now))
  }

  /**
   * The appended element is what a load of the new document shows, whatever the toggle:
   * white, shown, its text and `taskText` the new text.
   */
  lemma NewTaskMatchesLoad(s: Store, p: Name, c: Name, k: ActionKind, text: string, now: int, hideDone: bool)
    ensures var (r, id) := AddTaskDoc(s, p, c, k, NewTaskDoc(text, now));
      && id in Bucket(r, p, c, k)
      && NewTaskNode(id, text) == LoadedNode(id, r.tasks[TaskPath(p, c, k, id)], hideDone)
      && NewTaskNode(id, text).taskText == Some(text) && !NewTaskNode(id, text).hidden
  {
    var (r, id) := AddTaskDoc(s, p, c, k, NewTaskDoc(text, now));
    BucketMember(r, p, c, k, id);
  }

  /**
   * The loop of the toggle's change handler over the category's green tasks
   * (js/action-type.js:31-34). It has the shape of LegacyView.ApplyToggle, over this board's
   * own CategoryView type.
   */
  method ApplyToggle(cv: CategoryView, checked: bool) returns (r: CategoryView)
    ensures r == ToggleView(cv, checked)
  {
    var sections: seq<Section> := [];
    var i := 0;
    while i < |cv.sections|
      invariant i <= |cv.sections| && |sections| == i
      invariant forall j :: 0 <= j < i ==> sections[j] == ToggleSection(cv.sections[j], checked)
    {
      var sec := cv.sections[i];
      var nodes: seq<TaskNode> := [];
      var j := 0;
      while j < |sec.nodes|
        invariant j <= |sec.nodes| && |nodes| == j
        invariant forall m :: 0 <= m < j ==> nodes[m] == ToggleNode(sec.nodes[m], checked)
      {
        var n := sec.nodes[j];
        if n.colour == "green" {
          n := n.(hidden := !checked);
        }
        nodes := nodes + [n];
        j := j + 1;
      }
      sections := sections + [sec.(nodes := nodes)];
      i := i + 1;
    }
    r := cv.(toggleChecked := checked, sections := sections);
  }

  /**
   * The toggle's change handler (js/action-type.js:27-35): stores 'true' when unchecked and
   * 'false' when checked, and shows or hides the category's green tasks. No read-only check.
   */
  method ToggleCompleted(page: Page, ci: nat)
    requires page.Valid() && ci < |page.view|
    modifies page
    ensures page.db == old(page.db) && page.options == old(page.options) && page.selected == old(page.selected) &&
      page.projectNotice == old(page.projectNotice) && page.categoryNotice == old(page.categoryNotice) &&
      page.readOnly == old(page.readOnly) && page.deleteDialog == old(page.deleteDialog)
    ensures page.Valid()
    ensures var cv := old(page.view[ci]);
      && page.local == old(page.local)[ToggleKey(cv.project, cv.name) := StoredFlag(!cv.toggleChecked)]
      && page.view == old(page.view)[ci := ToggleView(cv, !cv.toggleChecked)]
  {
    var cv := page.view[ci];
    var checked := !cv.toggleChecked;
    page.local := page.local[ToggleKey(cv.project, cv.name) := StoredFlag(checked)];
    var shown := ApplyToggle(cv, checked);
    ToggleKeepsRule(cv, checked);
    page.view := page.view[ci := shown];
    assert Names(page.view) == Names(old(page.view));
  }

  /**
   * The category's delete button (js/action-type.js:14-20): after confirmation only the
   * category document is deleted and its element removed; no reload, no updatedAt bump.
   */
  method DeleteCategory(page: Page, ci: nat)
    requires page.Valid() && ci < |page.view|
    modifies page
    ensures page.local == old(page.local) && page.options == old(page.options) && page.selected == old(page.selected) &&
      page.projectNotice == old(page.projectNotice) && page.categoryNotice == old(page.categoryNotice) &&
      page.readOnly == old(page.readOnly) && page.deleteDialog == old(page.deleteDialog)
    ensures page.Valid()
    ensures page.readOnly ==> page.db == old(page.db) && page.view == old(page.view)
    ensures !page.readOnly ==>
      var cv := old(page.view[ci]);
      && page.db == DeleteCategoryDoc(old(page.db), cv.project, cv.name)
      && page.db.tasks == old(page.db).tasks
      && page.view == RemoveCategory(old(page.view), ci)
      && cv.name !in Names(page.view)
  {
    if page.readOnly {
      return;
    }
    var cv := page.view[ci];
    RemoveCategoryNames(page.view, ci);
    page.db := DeleteCategoryDoc(page.db, cv.project, cv.name);
    page.view := RemoveCategory(page.view, ci);
  }

  /**
   * The add-action-type button (js/action-type.js:47-65): a kind the category already shows
   * sets the explainer; any other kind hides it and gets an empty section at the end.
   */
  method AddBucket(page: Page, ci: nat, k: ActionKind)
    requires page.Valid() && ci < |page.view|
    modifies page
    ensures page.db == old(page.db) && page.local == old(page.local) && page.options == old(page.options) &&
      page.selected == old(page.selected) && page.projectNotice == old(page.projectNotice) &&
      page.categoryNotice == old(page.categoryNotice) && page.readOnly == old(page.readOnly) &&
      page.deleteDialog == old(page.deleteDialog)
    ensures page.Valid()
    ensures page.readOnly ==> page.view == old(page.view)
    ensures !page.readOnly && k in Kinds(old(page.view[ci]).sections) ==>
      page.view == old(page.view)[ci := old(page.view[ci]).(notice := DuplicateKindNotice)]
    ensures !page.readOnly && k !in Kinds(old(page.view[ci]).sections) ==>
      page.view == old(page.view)[ci := AddSection(old(page.view[ci]).(notice := ""), k, SectionHeading(k))]
  {
    if page.readOnly {
      return;
    }
    var cv := page.view[ci];
    if k in Kinds(cv.sections) {
      page.view := page.view[ci := cv.(notice := DuplicateKindNotice)];
    } else {
      page.view := page.view[ci := AddSection(cv.(notice := ""), k, SectionHeading(k))];
    }
    assert Names(page.view) == Names(old(page.view));
  }

  /**
   * A section's remove button (js/action-type.js:88-98): after confirmation every document
   * of the bucket is deleted in one batch and the section removed; no updatedAt bump.
   */
  method RemoveBucket(page: Page, ci: nat, si: nat)
    requires page.Valid() && ci < |page.view| && si < |page.view[ci].sections|
    modifies page
    ensures page.local == old(page.local) && page.options == old(page.options) && page.selected == old(page.selected) &&
      page.projectNotice == old(page.projectNotice) && page.categoryNotice == old(page.categoryNotice) &&
      page.readOnly == old(page.readOnly) && page.deleteDialog == old(page.deleteDialog)
    ensures page.Valid()
    ensures page.readOnly ==> page.db == old(page.db) && page.view == old(page.view)
    ensures !page.readOnly ==>
      var cv := old(page.view[ci]);
      && page.db == ClearBucket(old(page.db), cv.project, cv.name, cv.sections[si].kind)
      && page.db.projects == old(page.db).projects
      && Bucket(page.db, cv.project, cv.name, cv.sections[si].kind) == {}
      && page.view == old(page.view)[ci := RemoveSection(cv, si)]
  {
    if page.readOnly {
      return;
    }
    var cv := page.view[ci];
    var k := cv.sections[si].kind;
    ClearBucketExact(page.db, cv.project, cv.name, k);
    page.db := ClearBucket(page.db, cv.project, cv.name, k);
    page.view := page.view[ci := RemoveSection(cv, si)];
    assert Names(page.view) == Names(old(page.view));
  }

  /**
   * A section's add-task form (js/action-type.js:114-137): a blank name shows the explainer;
   * otherwise the explainer is cleared, the task is stored with its text, white and the
   * time, and its element appended; no updatedAt bump.
   */
  method AddTask(page: Page, ci: nat, si: nat, input: string, now: int)
    requires page.Valid() && ci < |page.view| && si < |page.view[ci].sections|
    modifies page
    ensures page.local == old(page.local) && page.options == old(page.options) && page.selected == old(page.selected) &&
      page.projectNotice == old(page.projectNotice) && page.categoryNotice == old(page.categoryNotice) &&
      page.readOnly == old(page.readOnly) && page.deleteDialog == old(page.deleteDialog)
    ensures page.Valid()
    ensures page.readOnly ==> page.db == old(page.db) && page.view == old(page.view)
    ensures !page.readOnly && Trim(input) == "" ==>
      page.db == old(page.db) && page.view == old(page.view)[ci := SetTaskNotice(old(page.view[ci]), si, TaskNameMissing)]
    ensures !page.readOnly && Trim(input) != "" ==>
      var cv := old(page.view[ci]);
      var (added, id) := AddTaskDoc(old(page.db), cv.project, cv.name, cv.sections[si].kind, NewTaskDoc(Trim(input), now));
      && page.db == added
      && page.db.projects == old(page.db).projects
      && page.view == old(page.view)[ci := AppendNode(cv, si, NewTaskNode(id, Trim(input)), "")]
  {
    if page.readOnly {
      return;
    }
    var cv := page.view[ci];
    var text := Trim(input);
    if text == "" {
      page.view := page.view[ci := SetTaskNotice(cv, si, TaskNameMissing)];
      assert Names(page.view) == Names(old(page.view));
      return;
    }
    var (added, id) := AddTaskDoc(page.db, cv.project, cv.name, cv.sections[si].kind, NewTaskDoc(text, now));
    page.db := added;
    page.view := page.view[ci := AppendNode(cv, si, NewTaskNode(id, text), "")];
    assert Names(page.view) == Names(old(page.view));
  }
}
