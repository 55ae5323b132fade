/**
 * The page the split modules under js/ share through globals: the store, localStorage, the
 * project dropdown, the category elements under #app, the two form explainers, the
 * read-only flag and the project-delete dialog. The rendered elements are values; the
 * handlers in SplitTask, SplitActionType, SplitCategory and SplitProject update a Page.
 */
module SplitPage {
  import opened Wrappers
  import opened Constants
  import opened Listing
  import opened DocStore
  import opened Preferences

  /**
   * A task element of renderTask (js/task.js:4-151): its id, the text span's content, its
   * colour class, whether it is display:none, and the `taskText` its edit handler compares
   * against.
   */
  datatype TaskNode = TaskNode(id: TaskId, text: string, colour: string, hidden: bool, taskText: Option<string>)

  /** An action-type section of renderActionType; notice is its add-task explainer. */
  datatype Section = Section(kind: ActionKind, heading: string, nodes: seq<TaskNode>, notice: string)

  /**
   * A category element of loadCategory: toggleChecked is the live completed-tasks checkbox,
   * notice the add-action-type explainer.
   */
  datatype CategoryView = CategoryView(
    project: Name, name: Name, heading: string, toggleChecked: bool, notice: string, sections: seq<Section>)

  // Kinds, NodeIds, Names, RemoveNodeIds and the in-place edits below have the same shape as
  // their LegacyView namesakes; they are written again because this board's TaskNode and
  // Section carry different fields (the captured task text, the add-task explainer).

  /** The kinds of a list of sections, in order. */
  function Kinds(sections: seq<Section>): (ks: seq<ActionKind>)
    ensures |ks| == |sections|
    ensures forall i :: 0 <= i < |sections| ==> ks[i] == sections[i].kind
  {
    seq(|sections|, i requires 0 <= i < |sections| => sections[i].kind)
  }

  lemma KindsConcat(a: seq<Section>, b: seq<Section>)
    ensures Kinds(a + b) == Kinds(a) + Kinds(b)
  {
  }

  function NodeIds(nodes: seq<TaskNode>): (ids: seq<TaskId>)
    ensures |ids| == |nodes|
    ensures forall i :: 0 <= i < |nodes| ==> ids[i] == nodes[i].id
  {
    seq(|nodes|, i requires 0 <= i < |nodes| => nodes[i].id)
  }

  function Names(view: seq<CategoryView>): (names: seq<Name>)
    ensures |names| == |view|
    ensures forall i :: 0 <= i < |view| ==> names[i] == view[i].name
  {
    seq(|view|, i requires 0 <= i < |view| => view[i].name)
  }

  /** A task is hidden exactly when it is green and its category's toggle is unchecked. */
  predicate NodeOK(n: TaskNode, checked: bool) {
    n.hidden <==> n.colour == "green" && !checked
  }

  ghost predicate SectionOK(sec: Section, checked: bool) {
    forall i :: 0 <= i < |sec.nodes| ==> NodeOK(sec.nodes[i], checked)
  }

  /** At most one section per kind, and every task's display follows the category's toggle. */
  ghost predicate CategoryOK(cv: CategoryView) {
    && (forall i, j :: 0 <= i < j < |cv.sections| ==> cv.sections[i].kind != cv.sections[j].kind)
    && forall i :: 0 <= i < |cv.sections| ==> SectionOK(cv.sections[i], cv.toggleChecked)
  }

  /**
   * `document.querySelector('[data-category-name="c"] .toggle-completed-tasks')`: the toggle
   * of the first category element named c, if there is one.
   */
  function LiveToggle(view: seq<CategoryView>, c: Name): (r: Option<bool>)
    ensures r.None? <==> forall i :: 0 <= i < |view| ==> view[i].name != c
    ensures r.Some? ==> exists i :: 0 <= i < |view| && view[i].name == c && view[i].toggleChecked == r.value
  {
    if view == [] then None
    else if view[0].name == c then Some(view[0].toggleChecked)
    else
      var r := LiveToggle(view[1..], c);
      assert r.Some? ==> exists i :: 0 <= i < |view| && view[i].name == c && view[i].toggleChecked == r.value by {
        if r.Some? {
          var j :| 0 <= j < |view[1..]| && view[1..][j].name == c && view[1..][j].toggleChecked == r.value;
          assert view[j + 1] == view[1..][j];
        }
      }
      assert (forall i :: 0 <= i < |view| ==> view[i].name != c) <== (forall i :: 0 <= i < |view[1..]| ==> view[1..][i].name != c) by {
        if forall i :: 0 <= i < |view[1..]| ==> view[1..][i].name != c {
          forall i | 1 <= i < |view| ensures view[i].name != c {
            assert view[i] == view[1..][i - 1];
          }
        }
      }
      r
  }

  /** When category names are distinct, a task's toggle lookup finds its own category. */
  lemma {:induction false} LiveToggleOwn(view: seq<CategoryView>, ci: nat)
    requires ci < |view| && Distinct(Names(view))
    ensures LiveToggle(view, view[ci].name) == Some(view[ci].toggleChecked)
  {
    if ci > 0 {
      assert Names(view)[0] != Names(view)[ci];
      assert Names(view[1..]) == Names(view)[1..];
      assert view[1..][ci - 1] == view[ci];
      LiveToggleOwn(view[1..], ci - 1);
    }
  }

  // In-place edits of a category element

  /** Replaces node ni of section si. */
  function UpdateNode(cv: CategoryView, si: nat, ni: nat, n: TaskNode): (r: CategoryView)
    requires si < |cv.sections| && ni < |cv.sections[si].nodes|
    ensures r == cv.(sections := r.sections)
    ensures |r.sections| == |cv.sections|
    ensures forall j :: 0 <= j < |cv.sections| && j != si ==> r.sections[j] == cv.sections[j]
    ensures r.sections[si] == cv.sections[si].(nodes := cv.sections[si].nodes[ni := n])
    ensures Kinds(r.sections) == Kinds(cv.sections)
    ensures CategoryOK(cv) && NodeOK(n, cv.toggleChecked) ==> CategoryOK(r)
  {
    var sec := cv.sections[si];
    cv.(sections := cv.sections[si := sec.(nodes := sec.nodes[ni := n])])
  }

  /** Removes node ni of section si (`taskElement.remove()`). */
  function RemoveNode(cv: CategoryView, si: nat, ni: nat): (r: CategoryView)
    requires si < |cv.sections| && ni < |cv.sections[si].nodes|
    ensures r == cv.(sections := r.sections)
    ensures |r.sections| == |cv.sections|
    ensures forall j :: 0 <= j < |cv.sections| && j != si ==> r.sections[j] == cv.sections[j]
    ensures r.sections[si] == cv.sections[si].(nodes := cv.sections[si].nodes[..ni] + cv.sections[si].nodes[ni + 1..])
    ensures Kinds(r.sections) == Kinds(cv.sections)
    ensures multiset(NodeIds(r.sections[si].nodes)) == multiset(NodeIds(cv.sections[si].nodes)) - multiset{cv.sections[si].nodes[ni].id}
    ensures CategoryOK(cv) ==> CategoryOK(r)
  {
    var sec := cv.sections[si];
    var nodes := sec.nodes[..ni] + sec.nodes[ni + 1..];
    RemoveNodeIds(sec.nodes, ni);
    assert SectionOK(sec, cv.toggleChecked) ==> SectionOK(sec.(nodes := nodes), cv.toggleChecked) by {
      forall j | 0 <= j < |nodes| ensures nodes[j] == sec.nodes[if j < ni then j else j + 1] { }
    }
    cv.(sections := cv.sections[si := sec.(nodes := nodes)])
  }

  lemma RemoveNodeIds(nodes: seq<TaskNode>, ni: nat)
    requires ni < |nodes|
    ensures multiset(NodeIds(nodes[..ni] + nodes[ni + 1..])) == multiset(NodeIds(nodes)) - multiset{nodes[ni].id}
  {
    var ids := NodeIds(nodes);
    assert ids == ids[..ni] + [ids[ni]] + ids[ni + 1..];
    assert NodeIds(nodes[..ni] + nodes[ni + 1..]) == ids[..ni] + ids[ni + 1..];
  }

  /** Appends a node to section si and sets the section's add-task explainer. */
  function AppendNode(cv: CategoryView, si: nat, n: TaskNode, notice: string): (r: CategoryView)
    requires si < |cv.sections|
    ensures r == cv.(sections := r.sections)
    ensures |r.sections| == |cv.sections|
    ensures forall j :: 0 <= j < |cv.sections| && j != si ==> r.sections[j] == cv.sections[j]
    ensures r.sections[si] == cv.sections[si].(nodes := cv.sections[si].nodes + [n], notice := notice)
    ensures Kinds(r.sections) == Kinds(cv.sections)
    ensures CategoryOK(cv) && NodeOK(n, cv.toggleChecked) ==> CategoryOK(r)
  {
    var sec := cv.sections[si];
    cv.(sections := cv.sections[si := sec.(nodes := sec.nodes + [n], notice := notice)])
  }

  /** Sets the add-task explainer of section si. */
  function SetTaskNotice(cv: CategoryView, si: nat, notice: string): (r: CategoryView)
    requires si < |cv.sections|
    ensures r == cv.(sections := r.sections)
    ensures |r.sections| == |cv.sections|
    ensures forall j :: 0 <= j < |cv.sections| && j != si ==> r.sections[j] == cv.sections[j]
    ensures r.sections[si] == cv.sections[si].(notice := notice)
    ensures Kinds(r.sections) == Kinds(cv.sections)
    ensures CategoryOK(cv) ==> CategoryOK(r)
  {
    cv.(sections := cv.sections[si := cv.sections[si].(notice := notice)])
  }

  /** Removes section si (`actionTypeEl.remove()`). */
  function RemoveSection(cv: CategoryView, si: nat): (r: CategoryView)
    requires si < |cv.sections|
    ensures r == cv.(sections := r.sections)
    ensures r.sections == cv.sections[..si] + cv.sections[si + 1..]
    ensures Kinds(r.sections) == Kinds(cv.sections[..si]) + Kinds(cv.sections[si + 1..])
    ensures CategoryOK(cv) ==> CategoryOK(r) && cv.sections[si].kind !in Kinds(r.sections)
  {
    var r := cv.(sections := cv.sections[..si] + cv.sections[si + 1..]);
    KindsConcat(cv.sections[..si], cv.sections[si + 1..]);
    assert cv.sections == cv.sections[..si] + [cv.sections[si]] + cv.sections[si + 1..];
    KindsConcat(cv.sections[..si] + [cv.sections[si]], cv.sections[si + 1..]);
    KindsConcat(cv.sections[..si], [cv.sections[si]]);
    r
  }

  /** Appends an empty section of kind k (renderActionType without tasks). */
  function AddSection(cv: CategoryView, k: ActionKind, heading: string): (r: CategoryView)
    ensures r == cv.(sections := r.sections)
    ensures |r.sections| == |cv.sections| + 1 && r.sections[..|cv.sections|] == cv.sections
    ensures r.sections[|cv.sections|] == Section(k, heading, [], "")
    ensures Kinds(r.sections) == Kinds(cv.sections) + [k]
    ensures CategoryOK(cv) && k !in Kinds(cv.sections) ==> CategoryOK(r)
  {
    KindsConcat(cv.sections, [Section(k, heading, [], "")]);
    cv.(sections := cv.sections + [Section(k, heading, [], "")])
  }

  /** The toggle's change handler on one node: green nodes follow the toggle, others are left alone. */
  function ToggleNode(n: TaskNode, checked: bool): TaskNode {
    if n.colour == "green" then n.(hidden := !checked) else n
  }

  function ToggleSection(sec: Section, checked: bool): Section {
    sec.(nodes := seq(|sec.nodes|, i requires 0 <= i < |sec.nodes| => ToggleNode(sec.nodes[i], checked)))
  }

  /** The category after its toggle is set to checked. */
  function ToggleView(cv: CategoryView, checked: bool): CategoryView {
    cv.(toggleChecked := checked,
        sections := seq(|cv.sections|, i requires 0 <= i < |cv.sections| => ToggleSection(cv.sections[i], checked)))
  }

  /**
   * The toggle keeps the display rule: afterwards every task is hidden exactly when it is green
   * and the toggle is off; ids, texts and colours are kept.
   */
  lemma ToggleKeepsRule(cv: CategoryView, checked: bool)
    requires CategoryOK(cv)
    ensures var r := ToggleView(cv, checked);
      && r.toggleChecked == checked
      && Kinds(r.sections) == Kinds(cv.sections)
      && CategoryOK(r)
      && (forall i :: 0 <= i < |cv.sections| ==> |r.sections[i].nodes| == |cv.sections[i].nodes|)
      && (forall i, j :: 0 <= i < |cv.sections| && 0 <= j < |cv.sections[i].nodes| ==>
            r.sections[i].nodes[j] == cv.sections[i].nodes[j].(hidden := r.sections[i].nodes[j].hidden))
  {
    var r := ToggleView(cv, checked);
    assert Kinds(r.sections) == Kinds(cv.sections);
    forall i | 0 <= i < |cv.sections| ensures SectionOK(r.sections[i], checked) {
      assert SectionOK(cv.sections[i], cv.toggleChecked);
    }
  }

  /** Removes category element ci (`categoryEl.remove()`). */
  function RemoveCategory(view: seq<CategoryView>, ci: nat): (r: seq<CategoryView>)
    requires ci < |view|
    ensures |r| == |view| - 1
    ensures forall i :: 0 <= i < |r| ==> r[i] == view[if i < ci then i else i + 1]
  {
    view[..ci] + view[ci + 1..]
  }

  /** Removing a category element keeps the other names distinct and drops its name. */
  lemma RemoveCategoryNames(view: seq<CategoryView>, ci: nat)
    requires ci < |view| && Distinct(Names(view))
    ensures Distinct(Names(RemoveCategory(view, ci)))
    ensures view[ci].name !in Names(RemoveCategory(view, ci))
  {
    var r := RemoveCategory(view, ci);
    forall i, j | 0 <= i < j < |r| ensures Names(r)[i] != Names(r)[j] {
      assert Names(view)[if i < ci then i else i + 1] != Names(view)[if j < ci then j else j + 1];
    }
    forall i | 0 <= i < |r| ensures Names(r)[i] != view[ci].name {
      assert Names(view)[if i < ci then i else i + 1] != Names(view)[ci];
    }
  }

  class Page {
    var db: Store
    var local: LocalStorage
    /** The values of the project dropdown's options, in order. */
    var options: seq<Name>
    /** The dropdown's value; "" while it has no option selected. */
    var selected: Name
    /** The category elements under #app. */
    var view: seq<CategoryView>
    /** The add-project form's explainer. */
    var projectNotice: string
    /** The add-category form's explainer. */
    var categoryNotice: string
    /** window.isReadOnlyUser; undefined, hence falsy, until the auth callback has run. */
    var readOnly: bool
    /** The project whose delete dialog is open. */
    var deleteDialog: Option<Name>

    /**
     * The dropdown's value is one of its options; #app shows categories of that project only,
     * each at most once, and each keeps the display rule.
     */
    ghost predicate Valid()
      reads this`db, this`options, this`selected, this`view
    {
      && db.Valid()
      && (selected == "" || selected in options)
      && Distinct(Names(view))
      && (forall i :: 0 <= i < |view| ==> view[i].project == selected && CategoryOK(view[i]))
    }

    /** The page before DOMContentLoaded: an empty dropdown and an empty #app. */
    constructor(store: Store, storage: LocalStorage)
      requires store.Valid()
      ensures Valid()
      ensures db == store && local == storage
      ensures options == [] && selected == "" && view == [] && projectNotice == "" && categoryNotice == ""
      ensures !readOnly && deleteDialog == None
    {
      db := store;
      local := storage;
      options := [];
      selected := "";
      view := [];
      projectNotice := "";
      categoryNotice := "";
      readOnly := false;
      deleteDialog := None;
    }

    /** The auth callback (js/auth.js:9-11): everyone but the exact role "admin" is read-only. */
    method SignIn(role: Option<string>)
      modifies this
      ensures db == old(db) && local == old(local) && options == old(options) && selected == old(selected) &&
        view == old(view) && projectNotice == old(projectNotice) && categoryNotice == old(categoryNotice) &&
        deleteDialog == old(deleteDialog)
      ensures readOnly <==> role != Some("admin")
    {
      readOnly := role != Some("admin");
    }
  }
}
