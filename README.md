# task-flow board, modelled in Dafny

task-flow is a browser task board backed by a document store. A **project** holds
**categories**. Each category has four **action-type buckets** (Fix, Add, Update, Optional), and
each bucket holds **tasks**. A task has a title or text, a status colour (white, orange, green) and
a creation time. A user whose role is not exactly `"admin"` is read-only.

The repository carries the board twice, and the model keeps the two apart:

- **the single-file board** `app.js`: module `LegacyApp` (class `Board`), with `LegacyView` for
  what a category shows and `LegacyEmoji`;
- **the split board** under `js/` (`task.js`, `action-type.js`, `category.js`, `project.js`,
  `main.js`, `constants.js`, and the parts of `auth.js` and `modal.js` its handlers depend on):
  modules `SplitPage` (class `Page` and the view values), `SplitTask`, `SplitActionType`,
  `SplitCategory`, `SplitProject` and `SplitEmoji`.

Shared modules:

- `DocStore`: the store as three path-keyed maps. Sub-collections outlive their parent document.
  `update` of a missing document changes nothing. `set` overwrites. `delete` of a missing document
  succeeds.
- `Listing`: a query returns every key once, in an order the store chooses.
- `Sorting` and `ProjectList`: the project dropdown's normalise-and-sort.
- `Preferences`: the hide-completed flag in localStorage.
- `Text`: `trim`, `toLowerCase` and `includes`.
- `Constants`: the action types and status classes.
- `CategoryKeywords`: the keyword table behind `getCategoryEmoji`.
- `Access`: read-only mode.

Each page is a class whose fields the handlers update: the store, localStorage, the dropdown's
options and value, the rendered categories, the notices, the read-only flag and the open delete
dialog. Each event handler is a method. Its `ensures` gives the new store and screen in terms of
the old ones, and the page invariant `Valid()` is preserved. Specification functions and
predicates (`RendersCategory`, `ShowsProject`, `ProjectDeleted`, `IsProjectList`) say what a
correct rendering or deletion is. Loops (the rendering passes, the project cascade, the toggle
loop, the sort) are methods proved against them.

The model follows the code as written. Behaviours worth noting:

- The split board's category delete removes only the category document (`js/action-type.js:17`).
  It keeps the tasks, while `app.js` cascades.
- The split board's project-delete confirm only closes the dialog (`js/modal.js:77-80`). Nothing
  is deleted.
- The split board's add-task and remove-bucket handlers do not bump the project's `updatedAt`.
  The split board's task delete does not either.
- `app.js` reloads the whole project after a category delete; it does not remove just the one
  element.
- `app.js` decides whether a status change hides a task by the toggle value read when the
  category was loaded, not by the live toggle (`LegacyView.StatusIgnoresLiveToggle`).
- The project cascade of `app.js` deletes only the tasks of categories that have a document.
  Tasks under a category name without a document stay (`LegacyApp.ProjectDeletedLeavesOrphans`).
- In `app.js`, read-only mode stops most handlers only through the document-level capture
  filters. The title editor has its own check. The completed-tasks toggle is let through in both
  boards.
- The split board's text editor compares against the text captured when the task was rendered.
  After an edit from a to b, editing back to a writes nothing (`SplitTask.EditBackIsDropped`).
- Neither board fails closed. `LegacyApp.Board.constructor` and `SplitPage.Page.constructor`
  start with the read-only flag off, and only `SignIn` sets it. When the role lookup fails or
  never completes, the user stays a writer.

## Model

| member | source | states |
|---|---|---|
| Text.TrimEmptyIffBlank | app.js:142-147 | A trimmed input is empty exactly when the input is nothing but white space, so each blank-name guard rejects exactly the all-white-space inputs |
| Text.TrimIsSlice | js/task.js:32 | `trim` returns a contiguous slice of its input, with only white space cut on either side and no white space left at either end |
| Text.TrimIdempotent | app.js:544-545 | Trimming a trimmed value changes nothing |
| Text.LowerChar | js/main.js:15 | A to Z move up by 32 code points; every other character is kept |
| Text.ToLower | app.js:715 | Same length, every character lowered, no ASCII capital left |
| Text.ToLowerIdempotent | js/main.js:24 | Lowering a lowered string changes nothing |
| Constants.ActionTypesInOrder | js/constants.js:4-9 | Exactly four action types, keys Fix, Add, Update, Optional in that order; each kind sits at its own index |
| Constants.KeysDistinct | app.js:4-9 | Keys are pairwise distinct; key to kind and kind to key round-trip, both directions |
| Constants.LabelsNonEmpty | app.js:4-9 | Every action type has a non-empty label |
| Constants.StatusClassesIdentity | js/constants.js:11-15 | STATUS_CLASSES has exactly the keys white, orange, green, each mapped to itself |
| Constants.StatusClass | app.js:522 | `STATUS_CLASSES[status] \|\| "white"`: a known colour is kept, anything else gives white; the result is always a status class |
| Constants.FindIn | app.js:638 | `ACTION_TYPES.find` by key: the first entry with that key, or none exactly when no entry has it |
| Constants.KindOfKey | js/action-type.js:50 | The kind found has exactly that key; no kind is found exactly when no kind's key equals it |
| Sorting.SortDesc | app.js:82 | The sorted list is a permutation of the input, same length, keys non-increasing |
| Sorting.InsertKeepsOrder | js/project.js:72 | Inserting into a non-increasing list keeps it non-increasing and adds exactly the new element |
| DocStore.AddedCategoryListed | app.js:207-218 | Setting a category document and bumping its project adds exactly that name to the project's categories |
| DocStore.ClearBucketExact | js/action-type.js:91-95 | After clearing, the bucket is empty, exactly its tasks are gone and every other document is unchanged |
| DocStore.ClearKindsExact | app.js:321-329 | Clearing a list of buckets removes exactly the tasks of those buckets and nothing else |
| DocStore.CascadeCategoryExact | app.js:316-334 | The category cascade removes the category document and every task under it, keeps everything else, and keeps the store valid |
| DocStore.SetProject | app.js:159-164 | `set` creates or overwrites project p's document with the given fields; every other project, category and task is unchanged |
| DocStore.Touch | app.js:216-218 | `update` of updatedAt: a missing project document is left missing and nothing changes; otherwise only that project's updatedAt becomes now |
| DocStore.SetCategory | app.js:207-211 | `set` creates or overwrites the one category document, whether or not its project exists; nothing else changes |
| DocStore.DeleteCategoryDoc | js/action-type.js:17 | The category document is gone; every task under its path stays, as does everything else |
| DocStore.AddTaskDoc | app.js:414-423 | `add` stores the document under a new id no existing task has; no other task changes and the store stays valid |
| DocStore.UpdateStatus | app.js:571 | `update({ status })`: only that field of that task changes; a missing task is left missing and nothing changes |
| DocStore.UpdateTitle | app.js:546 | `update({ title })`: only that field of that task changes; a missing task is left missing and nothing changes |
| DocStore.UpdateTextDropTitle | js/task.js:41-45 | `update` sets the text and deletes the title, keeping status and createdAt; a missing task is left missing and nothing changes |
| DocStore.DeleteTaskDoc | app.js:605 | `delete` removes the task and nothing else; deleting a missing task succeeds and changes nothing |
| DocStore.ClearBucket | js/action-type.js:91-95 | The bucket is left empty; no task is added or altered, and projects and categories are unchanged |
| Listing.Enumerate | app.js:245 | `snapshot.forEach` visits every document of the query exactly once, in an order the store chooses |
| DocStore.CascadeCategoriesExact | app.js:878-899 | Cascading a list of categories removes exactly their documents and tasks and keeps everything else |
| Preferences.ToggleKeyCollides | app.js:269 | Project "a-b" with category "c" and project "a" with category "b-c" share one preference key |
| Preferences.StoredFlag | js/action-type.js:29 | The toggle stores "true" exactly when it is unchecked, and otherwise "false" |
| Preferences.StoredFlagRoundTrip | app.js:270-292 | Reading back a stored toggle hides completed tasks exactly when it was unchecked; a missing key shows them |
| CategoryKeywords.FirstMatch | app.js:714-773 | Returns the first group with a keyword in the name (no earlier group matches), or none exactly when no group matches |
| CategoryKeywords.CarGroupMatch | app.js:717-724 | The car group matches exactly when the name contains drive, driver, driving, car or cars |
| CategoryKeywords.ShuttleGroupMatch | app.js:726-734 | The shuttle group matches exactly when the name contains one of its six keywords |
| CategoryKeywords.HotelGroupMatch | app.js:736-744 | The hotel group matches exactly when the name contains one of its six keywords |
| CategoryKeywords.MoneyGroupMatch | app.js:746-752 | The money group matches exactly when the name contains one of its four keywords |
| CategoryKeywords.ReceiptGroupMatch | app.js:754-762 | The receipt group matches exactly when the name contains one of its six keywords |
| CategoryKeywords.GearGroupMatch | app.js:764-770 | The settings group matches exactly when the name contains one of its four keywords |
| CategoryKeywords.FolderOnlyWithoutMatch | app.js:772 | The folder emoji is given exactly when no group matches the lower-cased name |
| CategoryKeywords.LongerKeywordsRedundant | app.js:718-722 | A name that contains a keyword also contains every prefix of it, so "driver", "cars", "shuttles", "buses", "transportation", "hotels", "guests", "rooms", "expenses", "invoices" and "payments" never decide a match |
| CategoryKeywords.DecidingKeywords | app.js:720 | "driving" contains neither "drive" nor "car", and "bills" does not contain "billing" (app.js:755-756), so these longer keywords do decide matches of their own |
| LegacyEmoji.ActionEmojiExact | app.js:699-712 | Each of the four keys has its own emoji; any other key, including "fix" or "Fix ", gets "" |
| LegacyEmoji.CategoryEmojiIsTable | app.js:714-773 | The if-chain gives the same emoji as the keyword table for every name |
| LegacyEmoji.CategoryEmojiIgnoresCase | app.js:715 | A name and its lower-case form get the same emoji |
| LegacyView.NewKinds | app.js:635-640 | A kind gets a section exactly when it is tried, not already shown and its bucket is non-empty; no kind is added twice |
| LegacyView.NewKindsInOrder | app.js:622-641 | The sections the auto-render adds follow the order of ACTION_TYPES |
| LegacyView.NewKindsStep | app.js:636-639 | One round adds kind i exactly when it is new and its bucket is non-empty |
| LegacyView.RenderedNode | app.js:519-533 | A loaded task keeps its id and `data.title`, has a status class, and is hidden exactly when completed tasks were hidden at load and its status is green |
| LegacyView.RenderSection | app.js:509-618 | The section lists every dated task of the bucket once, ascending by createdAt, each rendered from its document; only green nodes are hidden |
| LegacyView.AutoRender | app.js:622-641 | Sections already shown are kept; after them come exactly the sections of the non-empty buckets not yet shown, each correctly rendered |
| LegacyView.AddedSections | app.js:635-640 | The loop's result is exactly the rendered sections for the new non-empty kinds |
| LegacyView.AutoRenderStep | app.js:635-640 | One loop round keeps the loop invariant for the next kind |
| LegacyView.RenderCategory | app.js:256-697 | loadCategory shows the heading, the toggle from the stored preference and the auto-rendered sections, in type order; the display invariant holds |
| LegacyView.RenderCategories | app.js:235-253 | One rendered category per category document of the project (a listing of them), each satisfying the invariant |
| LegacyView.UpdateNode | app.js:579-588 | Node ni of section si becomes the new node; every other node, every other section and the category's other fields are unchanged; kinds are kept, and the invariant when the new node is hidden only if green |
| LegacyView.RemoveNode | app.js:609 | `task.remove()`: section si loses exactly node ni, the nodes before it stay in place and those after it move up; every other section is unchanged; kinds and invariant are kept |
| LegacyView.AppendNode | app.js:500 | The node is appended at the end of section si; every other section and the category's other fields are unchanged |
| LegacyView.RemoveSection | app.js:387 | The sections are the old ones without section si, in the same order and with the same contents; its kind is gone and the invariant holds |
| LegacyView.AddSection | app.js:686 | The old sections are kept as they were, followed by one empty section of the kind with its heading; the invariant holds when the kind was not shown yet |
| LegacyView.ToggleShowsExactly | app.js:290-303 | After the toggle every task is hidden exactly when it is green and the toggle is off; nothing else about the tasks changes |
| LegacyView.ToggleLastWins | app.js:290-303 | Two toggle changes in a row leave what the last one alone would |
| LegacyView.ApplyToggle | app.js:297-302 | The loop over the category's tasks gives the toggled category |
| LegacyView.ColourOf | app.js:594-598 | Each status option writes a status class that STATUS_CLASSES maps to itself |
| LegacyView.StatusNode | app.js:575-589 | The node takes the option's colour and is hidden exactly when it was loaded with completed tasks hidden and the option is Done |
| LegacyView.StatusInPlaceMatchesRender | app.js:571-589 | The in-place status change yields the node a reload of the updated store would render |
| LegacyView.StatusIgnoresLiveToggle | app.js:584-588 | In a category loaded with completed tasks hidden, marking a task Done hides it even after the toggle was switched to show them |
| LegacyView.TitleEditSettles | app.js:534-561 | After a committed title edit, blurring again with the same input writes nothing, and the node equals a fresh render of the updated store |
| LegacyView.NewTaskMatchesRender | app.js:419-439 | The appended node is what a reload would render for the new document, except that it has no title editor; the new task is in its bucket's dated query |
| LegacyView.ToggleSurvivesReload | app.js:269-292 | A category loaded after a toggle change comes back with the toggle and visibility as they were left |
| Access.ReadOnlyUnlessAdmin | app.js:25 | A user may change things exactly when the role is the string "admin"; a missing role, "Admin" or "" is read-only |
| Access.ClickCancelled | app.js:986-1014 | No click is cancelled for a writer; for a read-only user a click is cancelled exactly when it hits a guarded control outside the allow-list |
| Access.SubmitCancelled | app.js:974-984 | Every form submission is cancelled exactly when the user is read-only |
| Access.FilterOnControls | app.js:986-1014 | For a read-only user the delete, remove, add, status and dialog buttons are cancelled; the toggle, dropdown and task title are not |
| Access.LogoutAlwaysClickable | app.js:993-996 | A click on anything inside the logout button is never cancelled |
| Access.EnabledControls | app.js:943-954 | applyReadOnlyMode leaves the dropdown and the completed-tasks toggle enabled and disables the delete, add and confirm buttons |
| Access.DeleteGateOpen | app.js:867-869 | The confirm button is enabled exactly while the input reads "Delete" |
| Access.DeleteGateExact | js/modal.js:73-75 | The gate neither trims nor folds case: "delete", "DELETE", " Delete", "Delete " and "" keep it shut |
| ProjectList.Normalise | app.js:73-78 | The entry keeps the id; a missing or zero createdAt becomes 0; a missing or zero updatedAt falls back to createdAt |
| ProjectList.LoadProjectList | app.js:68-82 | The list holds one normalised entry per stored project (a permutation), newest updatedAt first |
| ProjectList.FirstIsNewest | app.js:93-101 | The first entry is a stored project whose updatedAt is at least every other project's |
| ProjectList.FirstIndex | app.js:907-909 | `find` gives the position of the first option with that value: it holds the value and no earlier option does |
| ProjectList.RemoveFirst | app.js:905-910 | A missing name changes nothing; otherwise exactly the first occurrence goes: the options before it keep their places, the ones after it move up by one, and the multiset loses one copy of the name |
| LegacyApp.DeleteProjectExact | app.js:875-904 | Cascading every listed category, in any listing order, then deleting the project document gives the specified project deletion and keeps the store valid |
| LegacyApp.ProjectDeletedLeavesOrphans | app.js:875-881 | After a project deletion the project has no category, and a task of it survives exactly when its category had no document |
| LegacyApp.CascadeRemovesCategory | app.js:312-337 | After the category cascade the project lists every category but that one |
| LegacyApp.RemovedBucketStaysGone | app.js:372-397 | A removed bucket gets no section from the auto-render after a reload |
| LegacyApp.DeleteProject | app.js:875-904 | The deletion chain performs exactly the specified project deletion and keeps the store valid |
| LegacyApp.DuplicateNotice | app.js:673 | The duplicate-bucket explainer starts with the type's label |
| LegacyApp.Board.constructor | app.js:45-49 | Before loading, the dropdown and #app are empty and the user is not yet read-only |
| LegacyApp.Board.SignIn | app.js:19-27 | The read-only flag becomes "role is not admin"; nothing else changes |
| LegacyApp.Board.Reload | app.js:96-101 | #app shows exactly the selected project's categories, correctly rendered |
| LegacyApp.Board.LoadProjects | app.js:68-103 | The dropdown gains the sorted project list; a non-empty list selects and shows the newest project |
| LegacyApp.Board.FillDropdown | app.js:85-91 | One option per entry is appended, and the first entry becomes the value |
| LegacyApp.Board.SelectProject | app.js:106-115 | The chosen project becomes the value and #app shows its categories (empty for "") |
| LegacyApp.Board.AddProject | app.js:140-189 | Read-only: nothing. Blank: only the explainer. Otherwise the project document is written with both timestamps, its option goes first, and it is selected and shown |
| LegacyApp.Board.AddCategory | app.js:197-231 | With a non-blank name and a selection, the category is set, the project bumped, and the reload lists the new category; otherwise nothing changes |
| LegacyApp.Board.ToggleCompleted | app.js:290-303 | Stores the flipped preference and shows or hides exactly the category's green tasks, even when read-only |
| LegacyApp.Board.DeleteCategory | app.js:312-337 | Unless read-only: the category cascade, then a reload in which the category is gone |
| LegacyApp.Board.AddBucket | app.js:668-687 | A kind already shown sets the duplicate explainer; any other kind clears it and gets an empty section at the end; read-only: nothing |
| LegacyApp.Board.RemoveBucket | app.js:372-397 | Unless read-only: the bucket's tasks are deleted, the project bumped, the section removed, and the bucket is empty |
| LegacyApp.Board.AddTask | app.js:409-504 | Unless read-only or blank: a new white task with title and time is stored, the project bumped, and its node appended |
| LegacyApp.Board.SetStatus | app.js:565-593 | Unless read-only or the document is gone: the status is stored, the project bumped, and the node recoloured and shown or hidden |
| LegacyApp.Board.EditTitle | app.js:534-561 | Only on a node with an editor, for a writer, and for a non-blank changed title: the title is stored (no bump) and shown in the node |
| LegacyApp.Board.DeleteTask | app.js:599-612 | Unless read-only: the document is deleted, the project bumped and the node removed |
| LegacyApp.Board.RequestDeleteProject | app.js:61-65 | Opens the dialog for the selected project; with no selection or for a read-only user nothing happens |
| LegacyApp.Board.CancelDeleteProject | app.js:927-929 | Closes the dialog, unless the read-only filter cancels the click |
| LegacyApp.Board.ConfirmDeleteProject | app.js:867-925 | With the gate open: the project is deleted as specified, its option removed, and the first remaining project shown, or the empty state when none remain; with the gate shut nothing changes |
| LegacyApp.Board.DeleteDialogProject | app.js:871-922 | The confirmed chain: dialog closed, project deleted, option removed, first project or empty state shown |
| LegacyApp.Board.ShowFirstProject | app.js:911-920 | The first remaining option is selected and shown, or #app shows the empty state |
| SplitEmoji.FixKeyEmoji | js/main.js:16 | "Fix" gets the tools emoji |
| SplitEmoji.AddKeyEmoji | js/main.js:17 | "Add" gets the sparkles emoji |
| SplitEmoji.UpdateKeyEmoji | js/main.js:18 | "Update" gets the cycle emoji and not the Add emoji |
| SplitEmoji.OptionalKeyEmoji | js/main.js:19 | "Optional" gets the bulb emoji |
| SplitEmoji.ActionEmojiOfKinds | js/main.js:14-21 | The four keys get their four emoji; a key with no known word gets the arrow |
| SplitEmoji.UpdateLacksAdd | js/main.js:17-18 | "update" does not contain "add", so the add test does not catch Update |
| SplitEmoji.ActionEmojiIgnoresCase | js/main.js:15 | A key and its lower-case form get the same emoji |
| SplitEmoji.PrefixKeyEmoji | js/main.js:16 | A key that merely contains "fix" ("prefix") gets the tools emoji |
| SplitEmoji.ActionEmojiVersionsDiffer | js/main.js:14-21 | The two getActionEmoji agree on Fix and Update and differ on Add, Optional and non-exact keys |
| SplitEmoji.CategoryEmojiIsTable | js/main.js:23-32 | The split chain gives the keyword table's emoji for every name |
| SplitEmoji.CategoryEmojiVersionsAgree | js/main.js:23-32 | The two getCategoryEmoji give every name the same emoji |
| SplitPage.LiveToggle | js/task.js:136-140 | The selector finds nothing exactly when no category element has that name; what it finds is the toggle state of an element with that name |
| SplitPage.LiveToggleOwn | js/task.js:136-140 | With distinct category names, the toggle lookup by name finds the task's own category toggle |
| SplitPage.UpdateNode | js/task.js:135-145 | Element ni of section si becomes the new element; every other element and section is unchanged; kinds kept, and the display rule when the new element obeys it |
| SplitPage.RemoveNode | js/task.js:119 | `taskElement.remove()`: section si loses exactly element ni, the others keep their order; every other section is unchanged; kinds and display rule are kept |
| SplitPage.AppendNode | js/action-type.js:133-135 | The element is appended to section si and its explainer set; every other section is unchanged; the rule is kept when the element obeys it |
| SplitPage.SetTaskNotice | js/action-type.js:119-128 | Only section si's add-task explainer changes: its elements and every other section are unchanged |
| SplitPage.RemoveSection | js/action-type.js:95 | The sections are the old ones without section si, in order and unchanged; its kind is gone and the rule holds |
| SplitPage.AddSection | js/action-type.js:62-64 | The old sections are kept as they were, followed by one empty section of the kind; the invariant holds when the kind was new |
| SplitPage.ToggleKeepsRule | js/action-type.js:27-35 | After the toggle every task is hidden exactly when green and the toggle is off; nothing else changes |
| SplitPage.RemoveCategory | js/action-type.js:18 | `categoryEl.remove()` drops exactly that element and keeps the others in order |
| SplitPage.Page.constructor | js/main.js:4-11 | Before loading, dropdown, #app and notices are empty and the user is not yet read-only |
| SplitPage.Page.SignIn | js/auth.js:9-11 | The read-only flag is set exactly when the role is not "admin"; nothing else changes |
| SplitTask.TaskText | js/task.js:16 | `title \|\| text`: a non-empty title wins, otherwise the text field as stored |
| SplitTask.ColourClass | js/task.js:18 | `status \|\| "white"`: never empty; a non-empty status is kept as the class |
| SplitTask.EditInPlaceVsReload | js/task.js:31-53 | The edited span shows what a reload would, but keeps the old captured text while a reload captures the new one |
| SplitTask.EditBackIsDropped | js/task.js:40-53 | After editing a to b, an edit back to a does not commit, so the store keeps b |
| SplitTask.StatusOfLabel | js/task.js:124-129 | "To Do", "In Progress", "Done" map to white, orange, green (both directions); every other label maps to nothing |
| SplitTask.StatusLabelsBijective | js/task.js:114-129 | The labels and the three status classes correspond one to one; "Delete" writes no status |
| SplitTask.StatusNode | js/task.js:135-145 | The class becomes the status; the task is hidden exactly when green and its toggle exists and is unchecked |
| SplitTask.StatusKeepsRule | js/task.js:141-145 | With the task's own toggle found, a status change keeps the display rule |
| SplitTask.StatusInPlaceMatchesRender | js/task.js:135 | The class written in place is the class a reload renders |
| SplitTask.EditTask | js/task.js:20-78 | Read-only, Escape, a non-committing input or a missing document: nothing. Otherwise text written, title deleted, project bumped, span updated |
| SplitTask.ChooseStatus | js/task.js:102-148 | Read-only: nothing. "Delete": document deleted, element removed, no bump. A colour label: status stored, project bumped, class and display set. Any other label: nothing |
| SplitTask.RemoveTask | js/task.js:114-121 | The task document is deleted, its element removed from its section, nothing else changes, and the page invariant holds |
| SplitTask.SetTaskStatus | js/task.js:123-145 | The status is stored and the project bumped; the element takes the colour and, since the lookup finds its own category's toggle, is hidden exactly when green with the toggle unchecked; the page invariant holds |
| SplitActionType.LoadedNode | js/action-type.js:69-75 | A loaded task is renderTask's element, hidden exactly when green and hiding is on |
| SplitActionType.RenderSection | js/action-type.js:67-75 | Every document of the bucket once, in store order, each loaded from its data; the display rule holds |
| SplitActionType.RenderSections | js/action-type.js:66-78 | One correctly loaded section per completed query, in completion order |
| SplitActionType.LoadCategory | js/action-type.js:4-80 | Heading, toggle from the preference, and one section per non-empty bucket in some completion order; the invariant holds |
| SplitActionType.ClearedBucketNotLoaded | js/action-type.js:88-98 | A bucket emptied by remove gets no section on the next load |
| SplitActionType.DeletedCategoryKeepsTasks | js/action-type.js:14-20 | The delete keeps every task; the name leaves the category list; re-creating the category shows the old buckets again |
| SplitActionType.PlainDeleteVersusCascade | js/action-type.js:17 | A task of the category survives this delete, while the cascade of app.js removes it |
| SplitActionType.NewTaskMatchesLoad | js/action-type.js:129-134 | The appended element is what a load of the stored document shows: white, shown, captured text = the new text |
| SplitActionType.ApplyToggle | js/action-type.js:31-34 | The loop over the green tasks gives the toggled category |
| SplitActionType.ToggleCompleted | js/action-type.js:27-35 | Stores the flipped preference and shows or hides exactly the category's green tasks; no read-only check |
| SplitActionType.DeleteCategory | js/action-type.js:14-20 | Unless read-only: only the category document is deleted (tasks stay), and its element is removed |
| SplitActionType.AddBucket | js/action-type.js:47-65 | Read-only: nothing. A kind already shown sets the explainer; any other kind hides it and gets an empty section at the end |
| SplitActionType.RemoveBucket | js/action-type.js:88-98 | Unless read-only: the bucket is emptied (no bump) and the section removed |
| SplitActionType.AddTask | js/action-type.js:114-137 | Read-only: nothing. Blank: the explainer. Otherwise a white task with text and time is stored (no bump) and its element appended |
| SplitCategory.LoadCategoriesForProject | js/category.js:50-64 | One loaded category per category document, names distinct, all of that project, each keeping the invariant |
| SplitCategory.Reload | js/category.js:37-41 | #app shows exactly the selected project's categories |
| SplitCategory.AddCategory | js/category.js:12-47 | Blank: the explainer. Otherwise, with a selection, the category is set, the project bumped, and the reload lists it; no read-only check |
| SplitProject.AddProject | js/project.js:11-53 | Blank: the explainer. Otherwise the project document is set (overwriting), its option goes first, and it is selected and shown; no read-only check |
| SplitProject.LoadProjects | js/project.js:60-89 | The dropdown gains the sorted project list; a non-empty list selects and shows the newest project |
| SplitProject.FillDropdown | js/project.js:73-79 | One option per entry is appended; the first entry becomes the value |
| SplitProject.SelectProject | js/project.js:91-100 | The chosen project becomes the value; #app is emptied and, for a non-empty value, shows its categories |
| SplitProject.RequestDeleteProject | js/project.js:111-116 | With a project selected, opens its dialog; otherwise nothing |
| SplitProject.ConfirmDeleteProject | js/modal.js:73-80 | With the gate open the dialog closes and nothing is deleted; with the gate shut nothing changes |
| SplitProject.CancelDeleteProject | js/modal.js:82-84 | Closes the dialog and changes nothing else |

## Left out

- Asynchrony. Each handler's chain of store calls runs to completion before the next event, so
  races between outstanding writes and reloads are not modelled. The one order the split board
  leaves to completion timing is kept: its four bucket queries add sections in any order.
- Store failures other than `update` of a missing document (network, permission) are not
  modelled. Failed writes are only logged, so the model treats every other call as succeeding.
- Confirmation dialogs (`showConfirmation`) are taken as confirmed. Cancelling one changes nothing.
- Each handler takes a single `now` for all its `Date.now()` calls.
- Store iteration order and Firestore's default document-id order are left arbitrary.
- DOM styling is not modelled: scroll restoring, explainer timeouts, `matchMedia` (which of the
  text or the edit button starts an edit), pointer-events dimming, the read-only banner, and the
  clearing of input fields after a write.
- The `disabled` attributes set by the split board's `applyReadOnlyMode` (js/auth.js:40-125) are
  not modelled. Its handlers are modelled with their own read-only checks. Handlers without one
  (add project, add category, the toggle, the delete-project button) stay reachable.
- The `app.js` action-type selector's change handler only clears the explainer; it is not
  modelled.
- A role that is not a string is not modelled. `SignIn` takes the role as an optional string.
- LegacyApp.Board.AddProject: project names are taken as single document keys. The store client
  reads a name containing "/" as a path: "a/b" throws, so nothing is written, and
  "a/categories/b" writes category b of project a. The model adds a project under the whole name.
- LegacyApp.Board.AddCategory: category names are taken as single document keys. A name
  containing "/" is a path to the store client: one slash makes `.doc` throw, so nothing is set,
  bumped or reloaded, and two slashes write a document of another sub-collection. The model sets
  the category, bumps the project and lists the category.
- SplitProject.AddProject: project names are taken as single document keys, as in
  `LegacyApp.Board.AddProject`; a name containing "/" throws or writes another document.
- SplitCategory.AddCategory: category names are taken as single document keys, as in
  `LegacyApp.Board.AddCategory`; a name containing "/" throws or writes another document.
- `typeof db === "undefined"` guards (app.js:152-157, js/project.js:25-28) are not modelled; the
  store is always present.
- Text.ToLower: folds ASCII letters only. `toLowerCase` also folds other scripts. The only
  non-ASCII characters whose lower case is ASCII are U+212A (to "k") and U+0130 (to "i"
  followed by U+0307). No category keyword or action-type key contains "k" or ends in "i", so
  every name and key gets the same emoji either way.
- Constants.StatusClass: in app.js a stored status naming an `Object.prototype` member (such as
  "constructor") looks up that member rather than falling back to white. The model gives white.
- SplitTask.StatusOfLabel: labels naming `Object.prototype` members look up a function, which
  the store refuses like undefined. The model maps them to no status, with the same no-change
  outcome.
- SplitTask.ColourClass: a stored status containing white space makes `classList.add` throw and
  stops `renderTask`. The model still renders that task.
- SplitTask.ChooseStatus: a category name containing a quote or backslash makes the toggle lookup
  throw after the class is set. The model assumes the lookup succeeds.
- SplitTask.SetTaskStatus: the same selector failure applies here. The model assumes the lookup
  succeeds and finds the task's own category.
- LegacyApp.Board.SetStatus: a task id with a quote would break the `data-task-id` selector. The
  model assumes generated ids, which never contain one.
- ProjectList.Normalise: timestamps are integers. Non-numeric values and the NaN comparisons they
  would cause in the sort are not modelled.
- Authentication, sign-out redirect, the sidebar toggle and `login.html` are outside this model;
  `js/auth.js` beyond the role check is not part of it.
