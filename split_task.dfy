/**
 * renderTask of js/task.js: the element a task document becomes, its text editor and its
 * status options. Each handler runs its store write and then its `.then` step; when the
 * write fails (an update of a missing document, or an update with an undefined status)
 * nothing after it happens.
 */
module SplitTask {
  import opened Wrappers
  import opened Text
  import opened Constants
  import opened Listing
  import opened DocStore
  import opened SplitPage

  /** `taskData.title || taskData.text`: a non-empty title, otherwise the text field as it is. */
  function TaskText(doc: TaskDoc): (r: Option<string>)
    ensures doc.title.Some? && doc.title.value != "" ==> r == doc.title
    ensures !(doc.title.Some? && doc.title.value != "") ==> r == doc.text
  {
    if doc.title.Some? && doc.title.value != "" then doc.title else doc.text
  }

  /** `taskData.status || "white"`: the status string itself, or white when it is missing or empty. */
  function ColourClass(status: Option<string>): (r: string)
    ensures r != ""
    ensures status.Some? && status.value != "" ==> r == status.value
    ensures !(status.Some? && status.value != "") ==> r == "white"
  {
    if status.Some? && status.value != "" then status.value else "white"
  }

  /** The element renderTask builds for a document: shown, its text span filled from TaskText. */
  function RenderTask(id: TaskId, doc: TaskDoc): TaskNode {
    TaskNode(id, TaskText(doc).GetOr(""), ColourClass(doc.status), false, TaskText(doc))
  }

  /** The blur handler commits when the trimmed input is non-empty and differs from the captured `taskText`. */
  predicate EditCommits(input: string, taskText: Option<string>) {
    Trim(input) != "" && Some(Trim(input)) != taskText
  }

  /** A committed edit changes the text span only; the captured `taskText` is never reassigned. */
  function EditedNode(n: TaskNode, text: string): (m: TaskNode)
    ensures m == n.(text := text)
  {
    n.(text := text)
  }

  /** The stored document after a committed edit: text set, title deleted. */
  function EditedDoc(doc: TaskDoc, text: string): (d: TaskDoc)
    ensures d == doc.(text := Some(text), title := None)
  {
    doc.(text := Some(text), title := None)
  }

  /**
   * An edit shows in place the text a reload would show, but the reloaded element would
   * compare later edits against the new text while the edited one keeps the old `taskText`.
   */
  lemma EditInPlaceVsReload(id: TaskId, doc: TaskDoc, input: string)
    requires EditCommits(input, RenderTask(id, doc).taskText)
    ensures var text := Trim(input);
      && EditedNode(RenderTask(id, doc), text).text == RenderTask(id, EditedDoc(doc, text)).text
      && EditedNode(RenderTask(id, doc), text).taskText == TaskText(doc)
      && RenderTask(id, EditedDoc(doc, text)).taskText == Some(text)
      && TaskText(doc) != Some(text)
  {
  }

  /**
   * Because `taskText` is stale, changing a task from a to b and then back to a loses the
   * second edit: it does not commit, and the store keeps b.
   */
  lemma EditBackIsDropped(n: TaskNode, a: string, b: string)
    requires Trim(a) == a && a != "" && n.taskText == Some(a)
    requires EditCommits(b, n.taskText)
    ensures !EditCommits(a, EditedNode(n, Trim(b)).taskText)
    ensures EditedNode(n, Trim(b)).text == Trim(b) != a
  {
  }

  /** The status options' labels and the colour each writes (js/task.js:124-128). */
  function StatusOfLabel(caption: string): (r: Option<string>)
    ensures r == Some("white") <==> caption == "To Do"
    ensures r == Some("orange") <==> caption == "In Progress"
    ensures r == Some("green") <==> caption == "Done"
    ensures r.None? <==> caption !in {"To Do", "In Progress", "Done"}
  {
    if caption == "To Do" then Some("white")
    else if caption == "In Progress" then Some("orange")
    else if caption == "Done" then Some("green")
    else None
  }

  /** The option label that shows a colour. */
  function LabelOfStatus(colour: string): (caption: string)
    requires colour in StatusClasses
  {
    if colour == "white" then "To Do" else if colour == "orange" then "In Progress" else "Done"
  }

  /** The label map is a bijection between the three labels and STATUS_CLASSES; "Delete" writes no status. */
  lemma StatusLabelsBijective(colour: string, caption: string)
    requires colour in StatusClasses
    ensures StatusOfLabel(LabelOfStatus(colour)) == Some(colour)
    ensures StatusOfLabel(caption) == Some(colour) <==> caption == LabelOfStatus(colour)
    ensures StatusOfLabel(caption).Some? ==> StatusOfLabel(caption).value in StatusClasses
    ensures StatusOfLabel("Delete").None?
  {
    StatusClassesIdentity();
  }

  /**
   * The `.then` step of a status change (js/task.js:135-145): the class becomes the status,
   * and the task is hidden exactly when the status is green and its category's toggle
   * exists and is unchecked.
   */
  function StatusNode(n: TaskNode, colour: string, toggle: Option<bool>): (m: TaskNode)
    ensures m == n.(colour := colour, hidden := m.hidden)
    ensures m.hidden <==> colour == "green" && toggle == Some(false)
  {
    n.(colour := colour, hidden := colour == "green" && toggle == Some(false))
  }

  /** A status change keeps the display rule when the lookup finds the task's own toggle. */
  lemma StatusKeepsRule(n: TaskNode, colour: string, checked: bool)
    ensures NodeOK(StatusNode(n, colour, Some(checked)), checked)
  {
  }

  /** The status written in place is the colour a reload shows for the updated document. */
  lemma StatusInPlaceMatchesRender(id: TaskId, doc: TaskDoc, colour: string, toggle: Option<bool>)
    requires colour in StatusClasses
    ensures StatusNode(RenderTask(id, doc), colour, toggle).colour == RenderTask(id, doc.(status := Some(colour))).colour
  {
  }

  /**
   * The edit handler (js/task.js:20-78): nothing for a read-only user or when Escape ends
   * the edit; otherwise a blur with a committing input writes the text, deletes the title,
   * bumps the project's updatedAt and puts the new text in the span.
   */
  method EditTask(page: Page, ci: nat, si: nat, ni: nat, input: string, escaped: bool, now: int)
    requires page.Valid() && ci < |page.view| && si < |page.view[ci].sections| && ni < |page.view[ci].sections[si].nodes|
    modifies page
    ensures page.local == old(page.local) && page.options == old(page.options) && page.selected == old(page.selected) &&
      page.projectNotice == old(page.projectNotice) && page.categoryNotice == old(page.categoryNotice) &&
      page.readOnly == old(page.readOnly) && page.deleteDialog == old(page.deleteDialog)
    ensures page.Valid()
    ensures var cv := old(page.view[ci]);
      var n := cv.sections[si].nodes[ni];
      var t := TaskPath(cv.project, cv.name, cv.sections[si].kind, n.id);
      if page.readOnly || escaped || !EditCommits(input, n.taskText) || t !in old(page.db).tasks then
        page.db == old(page.db) && page.view == old(page.view)
      else
        && page.db == Touch(UpdateTextDropTitle(old(page.db), t, Trim(input)), cv.project, now)
        && page.db.tasks[t] == EditedDoc(old(page.db).tasks[t], Trim(input))
        && page.view == old(page.view)[ci := UpdateNode(cv, si, ni, EditedNode(n, Trim(input)))]
  {
    if page.readOnly || escaped {
      return;
    }
    var cv := page.view[ci];
    var n := cv.sections[si].nodes[ni];
    var text := Trim(input);
    var t := TaskPath(cv.project, cv.name, cv.sections[si].kind, n.id);
    if text != "" && Some(text) != n.taskText && t in page.db.tasks {
      var edited := EditedNode(n, text);
      assert NodeOK(edited, cv.toggleChecked) by {
        assert SectionOK(cv.sections[si], cv.toggleChecked);
      }
      page.db := Touch(UpdateTextDropTitle(page.db, t, text), cv.project, now);
      page.view := page.view[ci := UpdateNode(cv, si, ni, edited)];
    }
  }

  /**
   * A click on the status options (js/task.js:102-148): nothing for a read-only user.
   * "Delete" (confirmed) deletes the document and removes the element, with no updatedAt
   * bump. A colour label updates the stored status, bumps the project and sets the class
   * and display. Any other label maps to undefined, which the store refuses.
   */
  method ChooseStatus(page: Page, ci: nat, si: nat, ni: nat, caption: string, now: int)
    requires page.Valid() && ci < |page.view| && si < |page.view[ci].sections| && ni < |page.view[ci].sections[si].nodes|
    modifies page
    ensures page.local == old(page.local) && page.options == old(page.options) && page.selected == old(page.selected) &&
      page.projectNotice == old(page.projectNotice) && page.categoryNotice == old(page.categoryNotice) &&
      page.readOnly == old(page.readOnly) && page.deleteDialog == old(page.deleteDialog)
    ensures page.Valid()
    ensures var cv := old(page.view[ci]);
      var n := cv.sections[si].nodes[ni];
      var t := TaskPath(cv.project, cv.name, cv.sections[si].kind, n.id);
      var choice := Trim(caption);
      if page.readOnly || (choice != "Delete" && (StatusOfLabel(choice).None? || t !in old(page.db).tasks)) then
        page.db == old(page.db) && page.view == old(page.view)
      else if choice == "Delete" then
        && page.db == DeleteTaskDoc(old(page.db), t)
        && t !in page.db.tasks
        && page.view == old(page.view)[ci := RemoveNode(cv, si, ni)]
      else
        var colour := StatusOfLabel(choice).value;
        && page.db == Touch(UpdateStatus(old(page.db), t, colour), cv.project, now)
        && page.view == old(page.view)[ci := UpdateNode(cv, si, ni, StatusNode(n, colour, Some(cv.toggleChecked)))]
  {
    if page.readOnly {
      return;
    }
    var cv := page.view[ci];
    var n := cv.sections[si].nodes[ni];
    var t := TaskPath(cv.project, cv.name, cv.sections[si].kind, n.id);
    var choice := Trim(caption);
    if choice == "Delete" {
      RemoveTask(page, ci, si, ni);
      return;
    }
    var colour := StatusOfLabel(choice);
    if colour.None? || t !in page.db.tasks {
      return;
    }
    SetTaskStatus(page, ci, si, ni, colour.value, now);
  }

  /** The "Delete" option (js/task.js:114-121): the document goes, then the element. */
  method RemoveTask(page: Page, ci: nat, si: nat, ni: nat)
    requires page.Valid() && ci < |page.view| && si < |page.view[ci].sections| && ni < |page.view[ci].sections[si].nodes|
    modifies page
    ensures page.local == old(page.local) && page.options == old(page.options) && page.selected == old(page.selected) &&
      page.projectNotice == old(page.projectNotice) && page.categoryNotice == old(page.categoryNotice) &&
      page.readOnly == old(page.readOnly) && page.deleteDialog == old(page.deleteDialog)
    ensures page.Valid()
    ensures var cv := old(page.view[ci]);
      var t := TaskPath(cv.project, cv.name, cv.sections[si].kind, cv.sections[si].nodes[ni].id);
      && page.db == DeleteTaskDoc(old(page.db), t)
      && t !in page.db.tasks
      && page.view == old(page.view)[ci := RemoveNode(cv, si, ni)]
  {
    var cv := page.view[ci];
    var t := TaskPath(cv.project, cv.name, cv.sections[si].kind, cv.sections[si].nodes[ni].id);
    page.db := DeleteTaskDoc(page.db, t);
    page.view := page.view[ci := RemoveNode(cv, si, ni)];
  }

  /**
   * A colour option (js/task.js:130-145): the status is stored and the project bumped, then
   * the element takes the class and follows the toggle that the selector finds.
   */
  method SetTaskStatus(page: Page, ci: nat, si: nat, ni: nat, colour: string, now: int)
    requires page.Valid() && ci < |page.view| && si < |page.view[ci].sections| && ni < |page.view[ci].sections[si].nodes|
    modifies page
    ensures page.local == old(page.local) && page.options == old(page.options) && page.selected == old(page.selected) &&
      page.projectNotice == old(page.projectNotice) && page.categoryNotice == old(page.categoryNotice) &&
      page.readOnly == old(page.readOnly) && page.deleteDialog == old(page.deleteDialog)
    ensures page.Valid()
    ensures var cv := old(page.view[ci]);
      var n := cv.sections[si].nodes[ni];
      var t := TaskPath(cv.project, cv.name, cv.sections[si].kind, n.id);
      && page.db == Touch(UpdateStatus(old(page.db), t, colour), cv.project, now)
      && page.view == old(page.view)[ci := UpdateNode(cv, si, ni, StatusNode(n, colour, Some(cv.toggleChecked)))]
  {
    var cv := page.view[ci];
    var n := cv.sections[si].nodes[ni];
    var t := TaskPath(cv.project, cv.name, cv.sections[si].kind, n.id);
    LiveToggleOwn(page.view, ci);
    var toggle := LiveToggle(page.view, cv.name);
    assert toggle == Some(cv.toggleChecked);
    var db := Touch(UpdateStatus(page.db, t, colour), cv.project, now);
    assert db.Valid();
    var node := StatusNode(n, colour, toggle);
    StatusKeepsRule(n, colour, cv.toggleChecked);
    var updated := UpdateNode(cv, si, ni, node);
    assert CategoryOK(updated) && updated.project == cv.project;
    var view := page.view[ci := updated];
    assert Names(view) == Names(page.view);
    page.db, page.view := db, view;
  }
}
