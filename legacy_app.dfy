/**
 * The single-file board of app.js as one object: the store it writes to, the browser's
 * localStorage, the project dropdown, the rendered categories under #app, the add-project
 * explainer, the read-only flag and the project-delete dialog. Each handler is a method;
 * handlers that the read-only filters cancel (app.js:975-1015) change nothing when
 * Access.ClickCancelled or Access.SubmitCancelled says so. Confirmation dialogs are taken
 * as confirmed, and every asynchronous chain runs to completion before the next event.
 */
module LegacyApp {
  import opened Wrappers
  import opened Text
  import opened Constants
  import opened Listing
  import opened DocStore
  import opened Preferences
  import opened ProjectList
  import opened Access
  import opened LegacyView

  /**
   * The store after project p is deleted (app.js:872-904): the project document, every
   * category document of p, and the tasks under those categories are gone; tasks stored
   * under a category name that has no category document are not listed, so they stay.
   */
  ghost predicate ProjectDeleted(s: Store, r: Store, p: Name) {
    && r.projects == s.projects - {p}
    && r.nextId == s.nextId
    && (forall cp :: cp in r.categories <==> cp in s.categories && cp.project != p)
    && (forall t :: t in r.tasks <==> t in s.tasks && !(t.project == p && CategoryPath(p, t.category) in s.categories))
    && (forall t :: t in r.tasks ==> r.tasks[t] == s.tasks[t])
  }

  /** Cascading over any listing of the categories, then deleting the project document, deletes the project. */
  lemma {:induction false} DeleteProjectExact(s: Store, p: Name, cs: seq<Name>)
    requires IsListing(cs, CategoriesOf(s, p))
    ensures ProjectDeleted(s, DeleteProjectDoc(CascadeCategories(s, p, cs), p), p)
    ensures s.Valid() ==> DeleteProjectDoc(CascadeCategories(s, p, cs), p).Valid()
  {
    ListingFacts(cs, CategoriesOf(s, p));
    CascadeCategoriesExact(s, p, cs);
    forall c ensures c in cs <==> CategoryPath(p, c) in s.categories {
      if CategoryPath(p, c) in s.categories {
        assert CategoryPath(p, c).category == c;
      }
    }
  }

  /** A project deletion leaves p with no category, and a task of p survives exactly when its category had no document. */
  lemma ProjectDeletedLeavesOrphans(s: Store, r: Store, p: Name, t: TaskPath)
    requires ProjectDeleted(s, r, p)
    requires t in s.tasks && t.project == p
    ensures CategoriesOf(r, p) == {}
    ensures t in r.tasks <==> CategoryPath(p, t.category) !in s.categories
  {
    if c :| c in CategoriesOf(r, p) {
      assert false;
    }
  }

  /** After the category cascade the category is gone from its project's list and nothing else is. */
  lemma CascadeRemovesCategory(s: Store, p: Name, c: Name)
    ensures CategoriesOf(CascadeCategory(s, p, c), p) == CategoriesOf(s, p) - {c}
  {
    var r := CascadeCategory(s, p, c);
    CascadeCategoryExact(s, p, c);
    forall x ensures x in CategoriesOf(r, p) <==> x in CategoriesOf(s, p) - {c} {
      if x in CategoriesOf(s, p) - {c} {
        assert CategoryPath(p, x) in r.categories;
      }
      if x in CategoriesOf(r, p) {
        assert CategoryPath(p, x) in r.categories;
      }
    }
  }

  /** A removed bucket stays away on reload: the auto-render pass finds it empty. */
  lemma RemovedBucketStaysGone(s: Store, p: Name, c: Name, k: ActionKind, have: seq<ActionKind>, now: int)
    ensures k !in NewKinds(Touch(ClearBucket(s, p, c, k), p, now), p, c, have, AllKinds)
  {
    ClearBucketExact(s, p, c, k);
    assert Bucket(Touch(ClearBucket(s, p, c, k), p, now), p, c, k) == Bucket(ClearBucket(s, p, c, k), p, c, k);
  }

  /**
   * The deletion chain of the project-delete dialog (app.js:875-904): the category cascade
   * for every category document of p, in the order the store lists them, then the project
   * document.
   */
  method DeleteProject(s: Store, p: Name) returns (r: Store)
    ensures ProjectDeleted(s, r, p)
    ensures s.Valid() ==> r.Valid()
  {
    var names := Enumerate(CategoriesOf(s, p));
    r := s;
    var i := 0;
    while i < |names|
      invariant i <= |names|
      invariant r == CascadeCategories(s, p, names[..i])
    {
      assert names[..i + 1][..i] == names[..i];
      r := CascadeCategory(r, p, names[i]);
      i := i + 1;
    }
    assert names[..|names|] == names;
    DeleteProjectExact(s, p, names);
    r := DeleteProjectDoc(r, p);
  }

  const ProjectNameMissing := "Please enter a project name."

  /** The add-bucket explainer for a kind the category already shows (app.js:673). */
  function DuplicateNotice(k: ActionKind): (msg: string)
    ensures |msg| > |LabelOf(k)| && msg[..|LabelOf(k)|] == LabelOf(k)
  {
    LabelOf(k) + " action type already exists in this category."
  }

  class Board {
    var db: Store
    var local: LocalStorage
    /** The values of the project dropdown's options, in order. */
    var options: seq<Name>
    /** The dropdown's value; "" while it has no option selected. */
    var selected: Name
    /** The category elements under #app. */
    var view: seq<CategoryView>
    /** Whether #app holds the "No projects found" paragraph. */
    var emptyState: bool
    /** The add-project form's explainer. */
    var explainer: string
    /** window.isReadOnlyUser; falsy until the auth callback has run. */
    var readOnly: bool
    /** The project whose delete dialog is open. */
    var deleteDialog: Option<Name>

    /** The dropdown's value is one of its options, and #app shows categories of that project only. */
    ghost predicate Valid()
      reads this`db, this`options, this`selected, this`view
    {
      && db.Valid()
      && (selected == "" || selected in options)
      && (forall i :: 0 <= i < |view| ==> view[i].project == selected && CategoryOK(view[i]))
    }

    /** The page before DOMContentLoaded: an empty dropdown and an empty #app. */
    constructor(store: Store, storage: LocalStorage)
      requires store.Valid()
      ensures Valid()
      ensures db == store && local == storage
      ensures options == [] && selected == "" && view == [] && !emptyState && explainer == ""
      ensures !readOnly && deleteDialog == None
    {
      db := store;
      local := storage;
      options := [];
      selected := "";
      view := [];
      emptyState := false;
      explainer := "";
      readOnly := false;
      deleteDialog := None;
    }

    /** The auth callback: everyone but the exact role "admin" is read-only (app.js:19-27). */
    method SignIn(role: Option<string>)
      modifies this
      ensures db == old(db) && local == old(local) && options == old(options) && selected == old(selected) &&
        view == old(view) && emptyState == old(emptyState) && explainer == old(explainer) && deleteDialog == old(deleteDialog)
      ensures readOnly == IsReadOnly(role)
    {
      readOnly := role != Some("admin");
    }

    /** Empties #app and loads the categories of the selected project into it. */
    method Reload()
      requires db.Valid() && (selected == "" || selected in options)
      modifies this
      ensures db == old(db) && local == old(local) && options == old(options) && selected == old(selected) &&
        explainer == old(explainer) && readOnly == old(readOnly) && deleteDialog == old(deleteDialog)
      ensures Valid()
      ensures ShowsProject(db, local, selected, view) && !emptyState
    {
      view := RenderCategories(db, local, selected);
      emptyState := false;
    }

    /**
     * DOMContentLoaded (app.js:68-103): the projects, normalised and newest first, are
     * appended to the dropdown; the first becomes the selection and its categories are shown.
     */
    method LoadProjects() returns (entries: seq<ProjectEntry>)
      requires Valid()
      modifies this
      ensures db == old(db) && local == old(local) && explainer == old(explainer) && readOnly == old(readOnly) &&
        deleteDialog == old(deleteDialog)
      ensures Valid()
      ensures IsProjectList(db, entries)
      ensures options == old(options) + Ids(entries)
      ensures entries == [] ==> selected == old(selected) && view == old(view) && emptyState == old(emptyState)
      ensures entries != [] ==> selected == entries[0].id && ShowsProject(db, local, selected, view) && !emptyState
    {
      entries := LoadProjectList(db);
      FillDropdown(entries);
      if entries != [] {
        Reload();
      }
    }

    /** Appends one option per entry; the first appended option becomes the dropdown's value (app.js:85-91). */
    method FillDropdown(entries: seq<ProjectEntry>)
      requires db.Valid() && (selected == "" || selected in options)
      modifies this
      ensures db == old(db) && local == old(local) && view == old(view) && emptyState == old(emptyState) &&
        explainer == old(explainer) && readOnly == old(readOnly) && deleteDialog == old(deleteDialog)
      ensures options == old(options) + Ids(entries)
      ensures selected == if entries == [] then old(selected) else entries[0].id
      ensures selected == "" || selected in options
    {
      var i := 0;
      while i < |entries|
        invariant i <= |entries|
        invariant options == old(options) + Ids(entries)[..i]
        invariant selected == if i == 0 then old(selected) else entries[0].id
        invariant selected == "" || selected in options
        invariant db == old(db) && local == old(local) && view == old(view) && emptyState == old(emptyState)
        invariant explainer == old(explainer) && readOnly == old(readOnly) && deleteDialog == old(deleteDialog)
      {
        options := options + [entries[i].id];
        if i == 0 {
          selected := entries[i].id;
        }
        i := i + 1;
      }
      assert Ids(entries)[..|entries|] == Ids(entries);
    }

    /** Switching the dropdown (app.js:106-115): #app is emptied and reloaded for the new value. */
    method SelectProject(p: Name)
      requires Valid() && p in options
      modifies this
      ensures db == old(db) && local == old(local) && options == old(options) && explainer == old(explainer) &&
        readOnly == old(readOnly) && deleteDialog == old(deleteDialog)
      ensures Valid()
      ensures selected == p && !emptyState
      ensures p == "" ==> view == []
      ensures p != "" ==> ShowsProject(db, local, p, view)
    {
      selected := p;
      view := [];
      emptyState := false;
      if p != "" {
        Reload();
      }
    }

    /**
     * The add-project form (app.js:140-189): a blank name shows the explainer; otherwise the
     * project document is written with both timestamps, put first in the dropdown, selected
     * and shown.
     */
    method AddProject(input: string, now: int)
      requires Valid()
      modifies this
      ensures local == old(local) && readOnly == old(readOnly) && deleteDialog == old(deleteDialog)
      ensures Valid()
      ensures SubmitCancelled(readOnly) ==>
        db == old(db) && options == old(options) && selected == old(selected) && view == old(view)
        && emptyState == old(emptyState) && explainer == old(explainer)
      ensures !SubmitCancelled(readOnly) && Trim(input) == "" ==>
        db == old(db) && options == old(options) && selected == old(selected) && view == old(view)
        && emptyState == old(emptyState) && explainer == ProjectNameMissing
      ensures !SubmitCancelled(readOnly) && Trim(input) != "" ==>
        && explainer == ""
        && db == SetProject(old(db), Trim(input), ProjectDoc(Some(now), Some(now)))
        && options == [Trim(input)] + old(options)
        && selected == Trim(input)
        && ShowsProject(db, local, selected, view) && !emptyState
    {
      if SubmitCancelled(readOnly) {
        return;
      }
      var name := Trim(input);
      if name == "" {
        explainer := ProjectNameMissing;
        return;
      }
      explainer := "";
      db := SetProject(db, name, ProjectDoc(Some(now), Some(now)));
      options := [name] + options;
      selected := name;
      Reload();
    }

    /**
     * The add-category form (app.js:197-231): with a non-blank name and a selected project,
     * the category document is written, the project's updatedAt is bumped and the project is
     * reloaded, now listing the new category.
     */
    method AddCategory(input: string, now: int)
      requires Valid()
      modifies this
      ensures local == old(local) && options == old(options) && selected == old(selected) && explainer == old(explainer) &&
        readOnly == old(readOnly) && deleteDialog == old(deleteDialog)
      ensures Valid()
      ensures SubmitCancelled(readOnly) || Trim(input) == "" || selected == "" ==>
        db == old(db) && view == old(view) && emptyState == old(emptyState)
      ensures !SubmitCancelled(readOnly) && Trim(input) != "" && selected != "" ==>
        && db == Touch(SetCategory(old(db), selected, Trim(input), CategoryDoc(Some(now))), selected, now)
        && ShowsProject(db, local, selected, view) && !emptyState
        && CategoriesOf(db, selected) == CategoriesOf(old(db), selected) + {Trim(input)}
        && Trim(input) in Names(view)
    {
      if SubmitCancelled(readOnly) {
        return;
      }
      var name := Trim(input);
      if name != "" && selected != "" {
        AddedCategoryListed(db, selected, name, CategoryDoc(Some(now)), now);
        db := Touch(SetCategory(db, selected, name, CategoryDoc(Some(now))), selected, now);
        Reload();
        ListingFacts(Names(view), CategoriesOf(db, selected));
      }
    }

    /**
     * The completed-tasks toggle (app.js:290-303): the preference is stored and the green
     * tasks of that category are shown or hidden. The read-only filter lets it through.
     */
    method ToggleCompleted(ci: nat)
      requires Valid() && ci < |view|
      modifies this
      ensures db == old(db) && options == old(options) && selected == old(selected) && emptyState == old(emptyState) &&
        explainer == old(explainer) && readOnly == old(readOnly) && deleteDialog == old(deleteDialog)
      ensures Valid()
      ensures var cv := old(view[ci]);
        && local == old(local)[ToggleKey(cv.project, cv.name) := StoredFlag(!cv.toggleChecked)]
        && view == old(view)[ci := ToggleView(cv, !cv.toggleChecked)]
    {
      var cv := view[ci];
      var checked := !cv.toggleChecked;
      local := local[ToggleKey(cv.project, cv.name) := StoredFlag(checked)];
      var shown := ApplyToggle(cv, checked);
      ToggleShowsExactly(cv, checked);
      view := view[ci := shown];
    }

    /**
     * The category delete button (app.js:312-337): every bucket's tasks, then the category
     * document, then a reload of the project.
     */
    method DeleteCategory(ci: nat)
      requires Valid() && ci < |view|
      modifies this
      ensures local == old(local) && options == old(options) && selected == old(selected) && explainer == old(explainer) &&
        readOnly == old(readOnly) && deleteDialog == old(deleteDialog)
      ensures Valid()
      ensures ClickCancelled(readOnly, [DeleteCategoryButton]) ==>
        db == old(db) && view == old(view) && emptyState == old(emptyState)
      ensures !ClickCancelled(readOnly, [DeleteCategoryButton]) ==>
        && db == CascadeCategory(old(db), selected, old(view[ci]).name)
        && ShowsProject(db, local, selected, view) && !emptyState
        && old(view[ci]).name !in Names(view)
    {
      if ClickCancelled(readOnly, [DeleteCategoryButton]) {
        return;
      }
      var cv := view[ci];
      CascadeCategoryExact(db, cv.project, cv.name);
      CascadeRemovesCategory(db, cv.project, cv.name);
      db := CascadeCategory(db, cv.project, cv.name);
      Reload();
      ListingFacts(Names(view), CategoriesOf(db, selected));
    }

    /**
     * The add-bucket button (app.js:668-687): a kind the category already shows sets the
     * explainer; any other kind gets an empty section at the end and clears it.
     */
    method AddBucket(ci: nat, k: ActionKind)
      requires Valid() && ci < |view|
      modifies this
      ensures db == old(db) && local == old(local) && options == old(options) && selected == old(selected) &&
        emptyState == old(emptyState) && explainer == old(explainer) && readOnly == old(readOnly) && deleteDialog == old(deleteDialog)
      ensures Valid()
      ensures ClickCancelled(readOnly, [AddBucketButton]) ==> view == old(view)
      ensures !ClickCancelled(readOnly, [AddBucketButton]) && k in Kinds(old(view[ci]).sections) ==>
        view == old(view)[ci := old(view[ci]).(notice := DuplicateNotice(k))]
      ensures !ClickCancelled(readOnly, [AddBucketButton]) && k !in Kinds(old(view[ci]).sections) ==>
        view == old(view)[ci := AddSection(old(view[ci]).(notice := ""), k)]
    {
      if ClickCancelled(readOnly, [AddBucketButton]) {
        return;
      }
      var cv := view[ci];
      if k in Kinds(cv.sections) {
        view := view[ci := cv.(notice := DuplicateNotice(k))];
      } else {
        view := view[ci := AddSection(cv.(notice := ""), k)];
      }
    }

    /**
     * A section's remove button (app.js:372-397): the bucket's tasks are deleted, the
     * section is removed and the project's updatedAt is bumped.
     */
    method RemoveBucket(ci: nat, si: nat, now: int)
      requires Valid() && ci < |view| && si < |view[ci].sections|
      modifies this
      ensures local == old(local) && options == old(options) && selected == old(selected) && emptyState == old(emptyState) &&
        explainer == old(explainer) && readOnly == old(readOnly) && deleteDialog == old(deleteDialog)
      ensures Valid()
      ensures ClickCancelled(readOnly, [RemoveBucketButton]) ==> db == old(db) && view == old(view)
      ensures !ClickCancelled(readOnly, [RemoveBucketButton]) ==>
        var cv := old(view[ci]);
        && db == Touch(ClearBucket(old(db), cv.project, cv.name, cv.sections[si].kind), cv.project, now)
        && view == old(view)[ci := RemoveSection(cv, si)]
        && Bucket(db, cv.project, cv.name, cv.sections[si].kind) == {}
    {
      if ClickCancelled(readOnly, [RemoveBucketButton]) {
        return;
      }
      var cv := view[ci];
      var k := cv.sections[si].kind;
      ClearBucketExact(db, cv.project, cv.name, k);
      db := Touch(ClearBucket(db, cv.project, cv.name, k), cv.project, now);
      view := view[ci := RemoveSection(cv, si)];
    }

    /**
     * A section's add-task form (app.js:409-504): a non-blank title is stored as a new white
     * task, the project is bumped, and a node without a title editor is appended.
     */
    method AddTask(ci: nat, si: nat, input: string, now: int)
      requires Valid() && ci < |view| && si < |view[ci].sections|
      modifies this
      ensures local == old(local) && options == old(options) && selected == old(selected) && emptyState == old(emptyState) &&
        explainer == old(explainer) && readOnly == old(readOnly) && deleteDialog == old(deleteDialog)
      ensures Valid()
      ensures SubmitCancelled(readOnly) || Trim(input) == "" ==> db == old(db) && view == old(view)
      ensures !SubmitCancelled(readOnly) && Trim(input) != "" ==>
        var cv := old(view[ci]);
        var (added, id) := AddTaskDoc(old(db), cv.project, cv.name, cv.sections[si].kind, NewTaskDoc(Trim(input), now));
        && db == Touch(added, cv.project, now)
        && view == old(view)[ci := AppendNode(cv, si, NewTaskNode(id, Trim(input)))]
    {
      if SubmitCancelled(readOnly) {
        return;
      }
      var title := Trim(input);
      if title == "" {
        return;
      }
      var cv := view[ci];
      var (added, id) := AddTaskDoc(db, cv.project, cv.name, cv.sections[si].kind, NewTaskDoc(title, now));
      db := Touch(added, cv.project, now);
      view := view[ci := AppendNode(cv, si, NewTaskNode(id, title))];
    }

    /**
     * A status option (app.js:565-593, and 443-473 on a freshly added node): the stored status
     * is updated and the project bumped; then the node's colour and display are set. When the
     * document is gone the update fails and nothing follows.
     */
    method SetStatus(ci: nat, si: nat, ni: nat, choice: StatusChoice, now: int)
      requires Valid() && ci < |view| && si < |view[ci].sections| && ni < |view[ci].sections[si].nodes|
      modifies this
      ensures local == old(local) && options == old(options) && selected == old(selected) && emptyState == old(emptyState) &&
        explainer == old(explainer) && readOnly == old(readOnly) && deleteDialog == old(deleteDialog)
      ensures Valid()
      ensures var cv := old(view[ci]);
        var t := TaskPath(cv.project, cv.name, cv.sections[si].kind, cv.sections[si].nodes[ni].id);
        if ClickCancelled(readOnly, [StatusOption]) || t !in old(db).tasks then db == old(db) && view == old(view)
        else
          && db == Touch(UpdateStatus(old(db), t, ColourOf(choice)), cv.project, now)
          && view == old(view)[ci := UpdateNode(cv, si, ni, StatusNode(cv, cv.sections[si].nodes[ni], choice))]
    {
      var cv := view[ci];
      var t := TaskPath(cv.project, cv.name, cv.sections[si].kind, cv.sections[si].nodes[ni].id);
      if ClickCancelled(readOnly, [StatusOption]) || t !in db.tasks {
        return;
      }
      db := Touch(UpdateStatus(db, t, ColourOf(choice)), cv.project, now);
      view := view[ci := UpdateNode(cv, si, ni, StatusNode(cv, cv.sections[si].nodes[ni], choice))];
    }

    /**
     * Editing a rendered task's title (app.js:534-561): only nodes with an editor, only when
     * not read-only (the filter does not cover the span), and only a non-blank new title that
     * differs from `data.title`. No updatedAt bump.
     */
    method EditTitle(ci: nat, si: nat, ni: nat, input: string)
      requires Valid() && ci < |view| && si < |view[ci].sections| && ni < |view[ci].sections[si].nodes|
      modifies this
      ensures local == old(local) && options == old(options) && selected == old(selected) && emptyState == old(emptyState) &&
        explainer == old(explainer) && readOnly == old(readOnly) && deleteDialog == old(deleteDialog)
      ensures Valid()
      ensures var cv := old(view[ci]);
        var n := cv.sections[si].nodes[ni];
        var t := TaskPath(cv.project, cv.name, cv.sections[si].kind, n.id);
        if !n.editable || readOnly || !TitleEditCommits(input, n.dataTitle) || t !in old(db).tasks then
          db == old(db) && view == old(view)
        else
          && db == UpdateTitle(old(db), t, Trim(input))
          && view == old(view)[ci := UpdateNode(cv, si, ni, EditedNode(n, Trim(input)))]
    {
      var cv := view[ci];
      var n := cv.sections[si].nodes[ni];
      if !n.editable || readOnly {
        return;
      }
      var title := Trim(input);
      var t := TaskPath(cv.project, cv.name, cv.sections[si].kind, n.id);
      if title != "" && Some(title) != n.dataTitle && t in db.tasks {
        var edited := EditedNode(n, title);
        assert edited.hidden ==> edited.colour == "green" by {
          assert SectionOK(cv.sections[si]);
        }
        db := UpdateTitle(db, t, title);
        view := view[ci := UpdateNode(cv, si, ni, edited)];
      }
    }

    /** A task's delete option (app.js:599-612): the document is deleted, the project bumped, the node removed. */
    method DeleteTask(ci: nat, si: nat, ni: nat, now: int)
      requires Valid() && ci < |view| && si < |view[ci].sections| && ni < |view[ci].sections[si].nodes|
      modifies this
      ensures local == old(local) && options == old(options) && selected == old(selected) && emptyState == old(emptyState) &&
        explainer == old(explainer) && readOnly == old(readOnly) && deleteDialog == old(deleteDialog)
      ensures Valid()
      ensures ClickCancelled(readOnly, [DeleteTaskOption]) ==> db == old(db) && view == old(view)
      ensures !ClickCancelled(readOnly, [DeleteTaskOption]) ==>
        var cv := old(view[ci]);
        var t := TaskPath(cv.project, cv.name, cv.sections[si].kind, cv.sections[si].nodes[ni].id);
        && db == Touch(DeleteTaskDoc(old(db), t), cv.project, now)
        && t !in db.tasks
        && view == old(view)[ci := RemoveNode(cv, si, ni)]
    {
      if ClickCancelled(readOnly, [DeleteTaskOption]) {
        return;
      }
      var cv := view[ci];
      var t := TaskPath(cv.project, cv.name, cv.sections[si].kind, cv.sections[si].nodes[ni].id);
      db := Touch(DeleteTaskDoc(db, t), cv.project, now);
      view := view[ci := RemoveNode(cv, si, ni)];
    }

    /** The delete-project button (app.js:61-65): opens the dialog for the selected project, if any. */
    method RequestDeleteProject()
      modifies this
      ensures db == old(db) && local == old(local) && options == old(options) && selected == old(selected) &&
        view == old(view) && emptyState == old(emptyState) && explainer == old(explainer) && readOnly == old(readOnly)
      ensures ClickCancelled(readOnly, [DeleteProjectButton]) || selected == "" ==> deleteDialog == old(deleteDialog)
      ensures !ClickCancelled(readOnly, [DeleteProjectButton]) && selected != "" ==> deleteDialog == Some(selected)
    {
      if ClickCancelled(readOnly, [DeleteProjectButton]) || selected == "" {
        return;
      }
      deleteDialog := Some(selected);
    }

    /** The dialog's cancel button closes it. */
    method CancelDeleteProject()
      modifies this
      ensures db == old(db) && local == old(local) && options == old(options) && selected == old(selected) &&
        view == old(view) && emptyState == old(emptyState) && explainer == old(explainer) && readOnly == old(readOnly)
      ensures deleteDialog == if ClickCancelled(readOnly, [CancelButton]) then old(deleteDialog) else None
    {
      if !ClickCancelled(readOnly, [CancelButton]) {
        deleteDialog := None;
      }
    }

    /**
     * The dialog's confirm button, enabled only while the input reads exactly "Delete"
     * (app.js:868-925): each category is cascaded, the project document deleted, its option
     * removed; the first remaining option is selected and shown, or #app says there are no
     * projects.
     */
    method ConfirmDeleteProject(typed: string)
      requires Valid() && deleteDialog.Some?
      modifies this
      ensures local == old(local) && explainer == old(explainer) && readOnly == old(readOnly)
      ensures Valid()
      ensures !DeleteGateOpen(typed) || ClickCancelled(readOnly, [ConfirmButton]) ==>
        db == old(db) && options == old(options) && selected == old(selected) && view == old(view)
        && emptyState == old(emptyState) && deleteDialog == old(deleteDialog)
      ensures DeleteGateOpen(typed) && !ClickCancelled(readOnly, [ConfirmButton]) ==>
        var p := old(deleteDialog).value;
        && deleteDialog == None
        && ProjectDeleted(old(db), db, p)
        && options == RemoveFirst(old(options), p)
        && (options != [] ==> selected == options[0] && ShowsProject(db, local, selected, view) && !emptyState)
        && (options == [] ==> selected == "" && view == [] && emptyState)
    {
      if !DeleteGateOpen(typed) || ClickCancelled(readOnly, [ConfirmButton]) {
        return;
      }
      DeleteDialogProject();
    }

    /** The confirmed deletion (app.js:871-922): the dialog closes, the project goes, and its option with it. */
    method DeleteDialogProject()
      requires Valid() && deleteDialog.Some?
      modifies this
      ensures local == old(local) && explainer == old(explainer) && readOnly == old(readOnly)
      ensures Valid()
      ensures var p := old(deleteDialog).value;
        && deleteDialog == None
        && ProjectDeleted(old(db), db, p)
        && options == RemoveFirst(old(options), p)
        && (options != [] ==> selected == options[0] && ShowsProject(db, local, selected, view) && !emptyState)
        && (options == [] ==> selected == "" && view == [] && emptyState)
    {
      var p := deleteDialog.value;
      var r := DeleteProject(db, p);
      var remaining := RemoveFirst(options, p);
      db, options, deleteDialog := r, remaining, None;
      assert local == old(local) && explainer == old(explainer) && readOnly == old(readOnly);
      ShowFirstProject();
    }

    /** After a deletion (app.js:911-920): the first option is selected and shown, or #app says there are no projects. */
    method ShowFirstProject()
      requires db.Valid()
      modifies this
      ensures db == old(db) && local == old(local) && options == old(options) && explainer == old(explainer) &&
        readOnly == old(readOnly) && deleteDialog == old(deleteDialog)
      ensures Valid()
      ensures options != [] ==> selected == options[0] && ShowsProject(db, local, selected, view) && !emptyState
      ensures options == [] ==> selected == "" && view == [] && emptyState
    {
      if options != [] {
        selected := options[0];
        Reload();
      } else {
        selected := "";
        view := [];
        emptyState := true;
      }
    }
  }
}
