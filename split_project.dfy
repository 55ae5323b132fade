/**
 * js/project.js: the add-project form, the project dropdown (loading, selection) and the
 * delete-project button. The split copy never deletes a project: the dialog the button
 * opens (js/modal.js) only closes again.
 */
module SplitProject {
  import opened Wrappers
  import opened Text
  import opened DocStore
  import opened ProjectList
  import opened Access
  import opened SplitPage
  import opened SplitCategory

  const ProjectNameMissing := "Please enter a project name."

  /**
   * The add-project form (js/project.js:11-53): a blank name shows the explainer; otherwise
   * the project document is set with both timestamps (overwriting one of the same name),
   * its option is put first in the dropdown, selected, and its categories shown.
   */
  method AddProject(page: Page, input: string, now: int)
    requires page.Valid()
    modifies page
    ensures page.local == old(page.local) && page.categoryNotice == old(page.categoryNotice) &&
      page.readOnly == old(page.readOnly) && page.deleteDialog == old(page.deleteDialog)
    ensures page.Valid()
    ensures Trim(input) == "" ==>
      page.db == old(page.db) && page.options == old(page.options) && page.selected == old(page.selected) &&
      page.view == old(page.view) && page.projectNotice == ProjectNameMissing
    ensures Trim(input) != "" ==>
      && page.projectNotice == ""
      && page.db == SetProject(old(page.db), Trim(input), ProjectDoc(Some(now), Some(now)))
      && page.options == [Trim(input)] + old(page.options)
      && page.selected == Trim(input)
      && ShowsProject(page.db, page.local, page.selected, page.view)
  {
    var name := Trim(input);
    if name == "" {
      page.projectNotice := ProjectNameMissing;
      return;
    }
    page.projectNotice := "";
    page.db := SetProject(page.db, name, ProjectDoc(Some(now), Some(now)));
    page.options := [name] + page.options;
    page.selected := name;
    Reload(page);
  }

  /**
   * setupProjectDropdown's query (js/project.js:60-89): the projects, normalised and newest
   * first, are appended to the dropdown; the first becomes the selection and its categories
   * are shown.
   */
  method LoadProjects(page: Page) returns (entries: seq<ProjectEntry>)
    requires page.Valid()
    modifies page
    ensures page.db == old(page.db) && page.local == old(page.local) && page.projectNotice == old(page.projectNotice) &&
      page.categoryNotice == old(page.categoryNotice) && page.readOnly == old(page.readOnly) &&
      page.deleteDialog == old(page.deleteDialog)
    ensures page.Valid()
    ensures IsProjectList(page.db, entries)
    ensures page.options == old(page.options) + Ids(entries)
    ensures entries == [] ==> page.selected == old(page.selected) && page.view == old(page.view)
    ensures entries != [] ==> page.selected == entries[0].id && ShowsProject(page.db, page.local, page.selected, page.view)
  {
    entries := LoadProjectList(page.db);
    FillDropdown(page, entries);
    if entries != [] {
      Reload(page);
    }
  }

  /** Appends one option per entry; the option at index 0 becomes the dropdown's value (js/project.js:73-79). */
  method FillDropdown(page: Page, entries: seq<ProjectEntry>)
    requires page.db.Valid() && (page.selected == "" || page.selected in page.options)
    modifies page
    ensures page.db == old(page.db) && page.local == old(page.local) && page.view == old(page.view) &&
      page.projectNotice == old(page.projectNotice) && page.categoryNotice == old(page.categoryNotice) &&
      page.readOnly == old(page.readOnly) && page.deleteDialog == old(page.deleteDialog)
    ensures page.options == old(page.options) + Ids(entries)
    ensures page.selected == if entries == [] then old(page.selected) else entries[0].id
    ensures page.selected == "" || page.selected in page.options
  {
    var i := 0;
    while i < |entries|
      invariant i <= |entries|
      invariant page.options == old(page.options) + Ids(entries)[..i]
      invariant page.selected == if i == 0 then old(page.selected) else entries[0].id
      invariant page.selected == "" || page.selected in page.options
      invariant page.db == old(page.db) && page.local == old(page.local) && page.view == old(page.view)
      invariant page.projectNotice == old(page.projectNotice) && page.categoryNotice == old(page.categoryNotice)
      invariant page.readOnly == old(page.readOnly) && page.deleteDialog == old(page.deleteDialog)
    {
      page.options := page.options + [entries[i].id];
      if i == 0 {
        page.selected := entries[i].id;
      }
      i := i + 1;
    }
    assert Ids(entries)[..|entries|] == Ids(entries);
  }

  /** The dropdown's change handler (js/project.js:91-100): #app is emptied and, for a non-empty value, reloaded. */
  method SelectProject(page: Page, p: Name)
    requires page.Valid() && p in page.options
    modifies page
    ensures page.db == old(page.db) && page.local == old(page.local) && page.options == old(page.options) &&
      page.projectNotice == old(page.projectNotice) && page.categoryNotice == old(page.categoryNotice) &&
      page.readOnly == old(page.readOnly) && page.deleteDialog == old(page.deleteDialog)
    ensures page.Valid()
    ensures page.selected == p
    ensures p == "" ==> page.view == []
    ensures p != "" ==> ShowsProject(page.db, page.local, p, page.view)
  {
    page.selected := p;
    page.view := [];
    if p != "" {
      Reload(page);
    }
  }

  /** The delete-project button (js/project.js:111-116): with a project selected, opens its dialog. */
  method RequestDeleteProject(page: Page)
    modifies page
    ensures page.db == old(page.db) && page.local == old(page.local) && page.options == old(page.options) &&
      page.selected == old(page.selected) && page.view == old(page.view) && page.projectNotice == old(page.projectNotice) &&
      page.categoryNotice == old(page.categoryNotice) && page.readOnly == old(page.readOnly)
    ensures page.deleteDialog == if page.selected == "" then old(page.deleteDialog) else Some(page.selected)
  {
    if page.selected == "" {
      return;
    }
    page.deleteDialog := Some(page.selected);
  }

  /**
   * The dialog's confirm button (js/modal.js:73-80), enabled only while the input reads
   * exactly "Delete": it closes the dialog and deletes nothing.
   */
  method ConfirmDeleteProject(page: Page, typed: string)
    requires page.deleteDialog.Some?
    modifies page
    ensures page.db == old(page.db) && page.local == old(page.local) && page.options == old(page.options) &&
      page.selected == old(page.selected) && page.view == old(page.view) && page.projectNotice == old(page.projectNotice) &&
      page.categoryNotice == old(page.categoryNotice) && page.readOnly == old(page.readOnly)
    ensures page.deleteDialog == if DeleteGateOpen(typed) then None else old(page.deleteDialog)
  {
    if DeleteGateOpen(typed) {
      page.deleteDialog := None;
    }
  }

  /** The dialog's cancel button (js/modal.js:82-84) closes it. */
  method CancelDeleteProject(page: Page)
    modifies page
    ensures page.db == old(page.db) && page.local == old(page.local) && page.options == old(page.options) &&
      page.selected == old(page.selected) && page.view == old(page.view) && page.projectNotice == old(page.projectNotice) &&
      page.categoryNotice == old(page.categoryNotice) && page.readOnly == old(page.readOnly)
    ensures page.deleteDialog == None
  {
    page.deleteDialog := None;
  }
}
