/**
 * Read-only mode in app.js: who is read-only (app.js:25), the two capture-phase filters
 * that cancel submits and clicks for a read-only user before any handler sees them
 * (app.js:975-1015), which form controls applyReadOnlyMode leaves enabled (app.js:943-954),
 * and the typed confirmation that arms project deletion (app.js:867-869).
 */
module Access {
  import opened Wrappers

  /** `role !== "admin"`: a missing role, or any other value, makes the user read-only. */
  predicate IsReadOnly(role: Option<string>) {
    role != Some("admin")
  }

  /** Only the exact, case-sensitive role "admin" may change things. */
  lemma ReadOnlyUnlessAdmin(role: Option<string>)
    ensures !IsReadOnly(role) <==> role.Some? && role.value == "admin"
    ensures IsReadOnly(None) && IsReadOnly(Some("Admin")) && IsReadOnly(Some(""))
  {
  }

  /** The part of a DOM element the click filter looks at. */
  datatype Element = Element(tag: string, id: string, classes: set<string>)

  /** `el.closest(sel)` for an id or class selector: the element or one of its ancestors matches. */
  predicate ClosestHasClass(path: seq<Element>, cls: string) {
    exists i :: 0 <= i < |path| && cls in path[i].classes
  }

  predicate ClosestHasId(path: seq<Element>, id: string) {
    exists i :: 0 <= i < |path| && path[i].id == id
  }

  /** Targets the filter always lets through: project switching, the sidebar, logout and the completed-tasks toggle. */
  predicate Exempt(path: seq<Element>)
    requires |path| > 0
  {
    || path[0].id == "project-select"
    || "sidebar-toggle" in path[0].classes
    || ClosestHasClass(path, "hamburger")
    || ClosestHasId(path, "logout-btn")
    || ClosestHasClass(path, "toggle-done-btn")
    || ClosestHasClass(path, "form-check-input")
  }

  /** Targets the filter stops: any button, and the status, remove-bucket and delete-category controls. */
  predicate Guarded(target: Element) {
    || target.tag == "BUTTON"
    || "status-option" in target.classes
    || "remove-action-btn" in target.classes
    || "delete-category-btn" in target.classes
  }

  /**
   * Whether the document-level capture listener cancels a click. path[0] is the target and
   * the rest are its ancestors, innermost first.
   */
  function ClickCancelled(readOnly: bool, path: seq<Element>): (r: bool)
    requires |path| > 0
    ensures !readOnly ==> !r
    ensures r ==> Guarded(path[0]) && !Exempt(path)
    ensures readOnly && Guarded(path[0]) && !Exempt(path) ==> r
  {
    readOnly && !Exempt(path) && Guarded(path[0])
  }

  /** The submit listener cancels every form submission of a read-only user. */
  function SubmitCancelled(readOnly: bool): (r: bool)
    ensures r <==> readOnly
  {
    readOnly
  }

  /** The controls of the board, as the filter sees them. */
  const DeleteCategoryButton := Element("BUTTON", "", {"delete-category-btn"})
  const RemoveBucketButton := Element("BUTTON", "", {"remove-action-btn"})
  const AddBucketButton := Element("BUTTON", "", {"add-action-type-btn"})
  const StatusOption := Element("DIV", "", {"status-option"})
  const DeleteTaskOption := Element("DIV", "", {"status-option", "delete"})
  const TaskTitle := Element("SPAN", "", {"task-title"})
  const CompletedToggle := Element("INPUT", "", {"form-check-input"})
  const DeleteProjectButton := Element("BUTTON", "", {"delete-project-btn"})
  const ConfirmButton := Element("BUTTON", "", {"confirm"})
  const CancelButton := Element("BUTTON", "", {"cancel"})
  const ProjectSelect := Element("SELECT", "project-select", {"project-select"})

  /**
   * For a read-only user every destructive control is cancelled, while the completed-tasks
   * toggle, the project dropdown and the task title are not: the title's edit handler
   * needs its own read-only check.
   */
  lemma FilterOnControls(readOnly: bool)
    ensures ClickCancelled(readOnly, [DeleteCategoryButton]) == readOnly
    ensures ClickCancelled(readOnly, [RemoveBucketButton]) == readOnly
    ensures ClickCancelled(readOnly, [AddBucketButton]) == readOnly
    ensures ClickCancelled(readOnly, [StatusOption]) == readOnly
    ensures ClickCancelled(readOnly, [DeleteTaskOption]) == readOnly
    ensures ClickCancelled(readOnly, [DeleteProjectButton]) == readOnly
    ensures ClickCancelled(readOnly, [ConfirmButton]) == readOnly
    ensures ClickCancelled(readOnly, [CancelButton]) == readOnly
    ensures !ClickCancelled(readOnly, [CompletedToggle])
    ensures !ClickCancelled(readOnly, [ProjectSelect])
    ensures !ClickCancelled(readOnly, [TaskTitle])
  {
    assert [CompletedToggle][0] == CompletedToggle;
  }

  /** A click anywhere inside the logout button gets through, even on a button. */
  lemma LogoutAlwaysClickable(readOnly: bool, target: Element, ancestors: seq<Element>)
    requires exists i :: 0 <= i < |ancestors| && ancestors[i].id == "logout-btn"
    ensures !ClickCancelled(readOnly, [target] + ancestors)
  {
    var i :| 0 <= i < |ancestors| && ancestors[i].id == "logout-btn";
    assert ([target] + ancestors)[i + 1] == ancestors[i];
  }

  /** applyReadOnlyMode disables every input, button, select and textarea but these. */
  predicate StaysEnabled(el: Element) {
    || el.id == "project-select"
    || "toggle-done-btn" in el.classes
    || el.id == "logout-btn"
    || "form-check-input" in el.classes
    || "hamburger" in el.classes
  }

  lemma EnabledControls()
    ensures StaysEnabled(ProjectSelect) && StaysEnabled(CompletedToggle)
    ensures !StaysEnabled(DeleteCategoryButton) && !StaysEnabled(AddBucketButton)
    ensures !StaysEnabled(DeleteProjectButton) && !StaysEnabled(ConfirmButton)
  {
  }

  /** The project-delete confirm button is enabled exactly while the input reads "Delete". */
  function DeleteGateOpen(typed: string): (open: bool)
    ensures open <==> typed == "Delete"
  {
    typed == "Delete"
  }

  /** The gate is exact: no trimming and no case folding. */
  lemma DeleteGateExact()
    ensures DeleteGateOpen("Delete")
    ensures !DeleteGateOpen("delete") && !DeleteGateOpen("DELETE")
    ensures !DeleteGateOpen(" Delete") && !DeleteGateOpen("Delete ") && !DeleteGateOpen("")
  {
  }
}
