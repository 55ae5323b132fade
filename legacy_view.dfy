/**
 * What app.js's loadCategory puts on screen for one category, as values: the heading, the
 * completed-tasks toggle, and one section per bucket kind with its task nodes
 * (app.js:256-697). The render methods read the store and build these values; the
 * predicates say which values are correct renderings of a store.
 */
module LegacyView {
  import opened Wrappers
  import opened Constants
  import opened Listing
  import opened Sorting
  import opened DocStore
  import opened Preferences
  import LegacyEmoji
  import Text

  /**
   * A task element: its id, the title span's text, its colour class, whether it is
   * display:none, whether a title-edit handler is attached, and that handler's `data.title`.
   */
  datatype TaskNode = TaskNode(
    id: TaskId, title: string, colour: string, hidden: bool, editable: bool, dataTitle: Option<string>)

  datatype Section = Section(kind: ActionKind, heading: string, nodes: seq<TaskNode>)

  /**
   * One category element. completedVisible is the value read from the preference when the
   * category was loaded; toggleChecked is the live checkbox. notice is the add-bucket explainer.
   */
  datatype CategoryView = CategoryView(
    project: Name, name: Name, heading: string, completedVisible: bool, toggleChecked: bool,
    notice: string, sections: seq<Section>)

  function SectionHeading(k: ActionKind): string {
    LegacyEmoji.ActionEmoji(KeyOf(k)) + " " + LabelOf(k)
  }

  function CategoryHeading(c: Name): string {
    LegacyEmoji.CategoryEmoji(c) + " " + c
  }

  /** The kinds of a list of sections, in order. */
  function Kinds(sections: seq<Section>): (ks: seq<ActionKind>)
    ensures |ks| == |sections|
    ensures forall i :: 0 <= i < |sections| ==> ks[i] == sections[i].kind
  {
    seq(|sections|, i requires 0 <= i < |sections| => sections[i].kind)
  }

  lemma KindsConcat(a: seq<Section>, b: seq<Section>)
    ensures Kinds(a + b) == Kinds(a) + Kinds(b)
  {
  }

  function NodeIds(nodes: seq<TaskNode>): (ids: seq<TaskId>)
    ensures |ids| == |nodes|
    ensures forall i :: 0 <= i < |nodes| ==> ids[i] == nodes[i].id
  {
    seq(|nodes|, i requires 0 <= i < |nodes| => nodes[i].id)
  }

  /**
   * The kinds the auto-render loop adds, trying ks in order: a kind gets a section when its
   * bucket has a document and no section of that kind exists yet, counting the sections the
   * loop itself has added (app.js:635-640).
   */
  function NewKinds(s: Store, p: Name, c: Name, have: seq<ActionKind>, ks: seq<ActionKind>): (r: seq<ActionKind>)
    ensures forall k :: k in r <==> k in ks && k !in have && Bucket(s, p, c, k) != {}
    ensures forall i, j :: 0 <= i < j < |r| ==> r[i] != r[j]
    decreases |ks|
  {
    if ks == [] then []
    else
      var front := NewKinds(s, p, c, have, ks[..|ks| - 1]);
      var k := ks[|ks| - 1];
      assert ks == ks[..|ks| - 1] + [k];
      if k !in have + front && Bucket(s, p, c, k) != {} then front + [k] else front
  }

  /** Kinds listed in the order of ActionTypes. */
  predicate InTypeOrder(ks: seq<ActionKind>) {
    forall i, j :: 0 <= i < j < |ks| ==> IndexOf(ks[i]) < IndexOf(ks[j])
  }

  /** Sections are added in the order of ActionTypes. */
  lemma {:induction false} NewKindsInOrder(s: Store, p: Name, c: Name, have: seq<ActionKind>, n: nat)
    requires n <= |AllKinds|
    ensures InTypeOrder(NewKinds(s, p, c, have, AllKinds[..n]))
    ensures forall k :: k in NewKinds(s, p, c, have, AllKinds[..n]) ==> IndexOf(k) < n
  {
    if n > 0 {
      NewKindsInOrder(s, p, c, have, n - 1);
      assert AllKinds[..n][..n - 1] == AllKinds[..n - 1];
      var front := NewKinds(s, p, c, have, AllKinds[..n - 1]);
      var k := AllKinds[n - 1];
      assert IndexOf(k) == n - 1;
      var r := NewKinds(s, p, c, have, AllKinds[..n]);
      assert r == if k !in have + front && Bucket(s, p, c, k) != {} then front + [k] else front;
      assert forall x :: x in front ==> IndexOf(x) < n - 1;
      if r != front {
        assert r == front + [k];
        forall i, j | 0 <= i < j < |r| ensures IndexOf(r[i]) < IndexOf(r[j]) {
          if j < |front| {
            assert r[i] == front[i] && r[j] == front[j];
            assert IndexOf(front[i]) < IndexOf(front[j]);
          } else {
            assert j == |front| && r[j] == k;
            assert r[i] == front[i] && front[i] in front;
            assert IndexOf(front[i]) < n - 1;
          }
        }
      }
    }
  }

  /** A task's createdAt for the orderBy query (0 when missing; missing ones are not listed). */
  function CreatedAt(s: Store, t: TaskPath): int {
    if t in s.tasks && s.tasks[t].createdAt.Some? then s.tasks[t].createdAt.value else 0
  }

  /** The ids `orderBy("createdAt")` returns: documents without the field are left out. */
  function Dated(s: Store, p: Name, c: Name, k: ActionKind): set<TaskId> {
    set t | t in s.tasks && t.project == p && t.category == c && t.kind == k && s.tasks[t].createdAt.Some? :: t.id
  }

  lemma DatedMember(s: Store, p: Name, c: Name, k: ActionKind, id: TaskId)
    ensures id in Dated(s, p, c, k) <==> TaskPath(p, c, k, id) in s.tasks && s.tasks[TaskPath(p, c, k, id)].createdAt.Some?
  {
    var t := TaskPath(p, c, k, id);
    if t in s.tasks && s.tasks[t].createdAt.Some? {
      assert t.id == id;
    }
  }

  /** The element the query loop builds for a stored task (app.js:519-533). */
  function RenderedNode(s: Store, t: TaskPath, completedVisible: bool): (n: TaskNode)
    requires t in s.tasks
    ensures n.id == t.id && n.editable && n.dataTitle == s.tasks[t].title
    ensures n.colour in StatusClasses
    ensures n.hidden <==> !completedVisible && s.tasks[t].status == Some("green")
    ensures n.hidden ==> n.colour == "green"
  {
    var d := s.tasks[t];
    TaskNode(t.id, d.title.GetOr(""), StatusClass(d.status), !completedVisible && d.status == Some("green"), true, d.title)
  }

  /** sec shows bucket k: every dated task once, ascending by createdAt, each rendered from its document. */
  ghost predicate RendersSection(s: Store, p: Name, c: Name, k: ActionKind, completedVisible: bool, sec: Section) {
    && sec.kind == k
    && sec.heading == SectionHeading(k)
    && IsListing(NodeIds(sec.nodes), Dated(s, p, c, k))
    && (forall i :: 0 <= i < |sec.nodes| ==>
          TaskPath(p, c, k, sec.nodes[i].id) in s.tasks
          && sec.nodes[i] == RenderedNode(s, TaskPath(p, c, k, sec.nodes[i].id), completedVisible))
    && (forall i, j :: 0 <= i < j < |sec.nodes| ==>
          CreatedAt(s, TaskPath(p, c, k, sec.nodes[i].id)) <= CreatedAt(s, TaskPath(p, c, k, sec.nodes[j].id)))
  }

  /** No node is hidden unless it is green. */
  ghost predicate SectionOK(sec: Section) {
    forall i :: 0 <= i < |sec.nodes| ==> sec.nodes[i].hidden ==> sec.nodes[i].colour == "green"
  }

  /** At most one section per kind, and every section is OK. */
  ghost predicate CategoryOK(cv: CategoryView) {
    && (forall i, j :: 0 <= i < j < |cv.sections| ==> cv.sections[i].kind != cv.sections[j].kind)
    && forall i :: 0 <= i < |cv.sections| ==> SectionOK(cv.sections[i])
  }

  ghost predicate ViewOK(view: seq<CategoryView>) {
    forall i :: 0 <= i < |view| ==> CategoryOK(view[i])
  }

  /** createSectionAndQuery with hasTasks: the query ordered by createdAt, one node per document. */
  method RenderSection(s: Store, p: Name, c: Name, k: ActionKind, completedVisible: bool) returns (sec: Section)
    ensures RendersSection(s, p, c, k, completedVisible, sec)
    ensures SectionOK(sec)
  {
    var dated := Dated(s, p, c, k);
    var ids := Enumerate(dated);
    var ordered := SortDesc(ids, (id: TaskId) => -CreatedAt(s, TaskPath(p, c, k, id)));
    var nodes: seq<TaskNode> := [];
    var i := 0;
    while i < |ordered|
      invariant i <= |ordered| && |nodes| == i
      invariant forall j :: 0 <= j < i ==>
        TaskPath(p, c, k, ordered[j]) in s.tasks
        && nodes[j] == RenderedNode(s, TaskPath(p, c, k, ordered[j]), completedVisible)
    {
      assert ordered[i] in multiset(ids);
      assert ordered[i] in multiset(dated);
      DatedMember(s, p, c, k, ordered[i]);
      nodes := nodes + [RenderedNode(s, TaskPath(p, c, k, ordered[i]), completedVisible)];
      i := i + 1;
    }
    sec := Section(k, SectionHeading(k), nodes);
    assert NodeIds(nodes) == ordered;
  }

  /** sections holds exactly one rendered section per non-empty bucket, in ActionTypes order. */
  ghost predicate RendersSections(s: Store, p: Name, c: Name, completedVisible: bool, have: seq<ActionKind>, added: seq<Section>) {
    && Kinds(added) == NewKinds(s, p, c, have, AllKinds)
    && forall i :: 0 <= i < |added| ==> RendersSection(s, p, c, added[i].kind, completedVisible, added[i])
  }

  /**
   * The auto-render pass (app.js:622-641): for each kind in order, a section with the
   * bucket's tasks when the bucket is non-empty and the category shows no such section yet.
   */
  method AutoRender(s: Store, cv: CategoryView) returns (r: CategoryView)
    ensures r == cv.(sections := r.sections)
    ensures |r.sections| >= |cv.sections| && r.sections[..|cv.sections|] == cv.sections
    ensures RendersSections(s, cv.project, cv.name, cv.completedVisible, Kinds(cv.sections), r.sections[|cv.sections|..])
    ensures forall i :: |cv.sections| <= i < |r.sections| ==> SectionOK(r.sections[i])
  {
    var added := AddedSections(s, cv.project, cv.name, cv.completedVisible, cv.sections);
    r := cv.(sections := cv.sections + added);
    assert r.sections[|cv.sections|..] == added;
  }

  /** The loop of the auto-render pass: the sections it appends after those already shown. */
  method AddedSections(s: Store, p: Name, c: Name, completedVisible: bool, shown: seq<Section>) returns (added: seq<Section>)
    ensures RendersSections(s, p, c, completedVisible, Kinds(shown), added)
    ensures forall j :: 0 <= j < |added| ==> SectionOK(added[j])
  {
    var have := Kinds(shown);
    added := [];
    var i := 0;
    while i < |AllKinds|
      invariant i <= |AllKinds|
      invariant AddedSoFar(s, p, c, completedVisible, have, i, added)
    {
      added := AutoRenderStep(s, p, c, completedVisible, shown, i, added);
      i := i + 1;
    }
    assert AllKinds[..|AllKinds|] == AllKinds;
  }

  /** What the auto-render loop has appended after trying the first i kinds. */
  ghost predicate AddedSoFar(s: Store, p: Name, c: Name, completedVisible: bool, have: seq<ActionKind>, i: nat, added: seq<Section>)
    requires i <= |AllKinds|
  {
    && Kinds(added) == NewKinds(s, p, c, have, AllKinds[..i])
    && forall j :: 0 <= j < |added| ==> RendersSection(s, p, c, added[j].kind, completedVisible, added[j]) && SectionOK(added[j])
  }

  /**
   * One round of the auto-render loop (app.js:635-640): kind i gets a section when the
   * category shows none of that kind and its bucket has a document.
   */
  method AutoRenderStep(s: Store, p: Name, c: Name, completedVisible: bool, shown: seq<Section>, i: nat, added: seq<Section>)
    returns (next: seq<Section>)
    requires i < |AllKinds| && AddedSoFar(s, p, c, completedVisible, Kinds(shown), i, added)
    ensures AddedSoFar(s, p, c, completedVisible, Kinds(shown), i + 1, next)
  {
    var k := AllKinds[i];
    KindsConcat(shown, added);
    var existing := k in Kinds(shown + added);
    var hasTasks := Bucket(s, p, c, k) != {};
    NewKindsStep(s, p, c, Kinds(shown), i);
    next := added;
    if !existing && hasTasks {
      var sec := RenderSection(s, p, c, k, completedVisible);
      AppendSection(s, p, c, completedVisible, added, sec);
      next := added + [sec];
    }
  }

  /** Appending a rendered section keeps the loop's facts about the sections added so far. */
  lemma AppendSection(s: Store, p: Name, c: Name, completedVisible: bool, added: seq<Section>, sec: Section)
    requires forall j :: 0 <= j < |added| ==> RendersSection(s, p, c, added[j].kind, completedVisible, added[j]) && SectionOK(added[j])
    requires RendersSection(s, p, c, sec.kind, completedVisible, sec) && SectionOK(sec)
    ensures Kinds(added + [sec]) == Kinds(added) + [sec.kind]
    ensures forall j :: 0 <= j < |added + [sec]| ==>
      RendersSection(s, p, c, (added + [sec])[j].kind, completedVisible, (added + [sec])[j]) && SectionOK((added + [sec])[j])
  {
    KindsConcat(added, [sec]);
  }

  /** One round of the auto-render loop: the kind is added exactly when it is new and non-empty. */
  lemma NewKindsStep(s: Store, p: Name, c: Name, have: seq<ActionKind>, i: nat)
    requires i < |AllKinds|
    ensures var k := AllKinds[i];
      var front := NewKinds(s, p, c, have, AllKinds[..i]);
      NewKinds(s, p, c, have, AllKinds[..i + 1])
        == if k !in have + front && Bucket(s, p, c, k) != {} then front + [k] else front
  {
    assert AllKinds[..i + 1][..i] == AllKinds[..i];
  }

  /** cv is what loadCategory shows for category c of project p. */
  ghost predicate RendersCategory(s: Store, local: LocalStorage, p: Name, c: Name, cv: CategoryView) {
    && cv.project == p && cv.name == c
    && cv.heading == CategoryHeading(c)
    && cv.completedVisible == !HidesCompleted(local, p, c)
    && cv.toggleChecked == cv.completedVisible
    && cv.notice == ""
    && RendersSections(s, p, c, cv.completedVisible, [], cv.sections)
  }

  /** loadCategory: heading, toggle from the stored preference, then the auto-render pass. */
  method RenderCategory(s: Store, local: LocalStorage, p: Name, c: Name) returns (cv: CategoryView)
    ensures RendersCategory(s, local, p, c, cv)
    ensures CategoryOK(cv)
    ensures InTypeOrder(Kinds(cv.sections))
  {
    var completedVisible := !HidesCompleted(local, p, c);
    var header := CategoryView(p, c, CategoryHeading(c), completedVisible, completedVisible, "", []);
    cv := AutoRender(s, header);
    assert cv.sections[0..] == cv.sections;
    assert Kinds(cv.sections) == NewKinds(s, p, c, [], AllKinds);
    NewKindsInOrder(s, p, c, [], |AllKinds|);
    assert AllKinds[..|AllKinds|] == AllKinds;
  }

  function Names(view: seq<CategoryView>): (names: seq<Name>)
    ensures |names| == |view|
    ensures forall i :: 0 <= i < |view| ==> names[i] == view[i].name
  {
    seq(|view|, i requires 0 <= i < |view| => view[i].name)
  }

  /** view is what loadCategoriesForProject shows for project p: one rendered category per category document. */
  ghost predicate ShowsProject(s: Store, local: LocalStorage, p: Name, view: seq<CategoryView>) {
    && IsListing(Names(view), CategoriesOf(s, p))
    && forall i :: 0 <= i < |view| ==> RendersCategory(s, local, p, view[i].name, view[i])
  }

  /** loadCategoriesForProject (app.js:235-253): one category element per category document, in store order. */
  method RenderCategories(s: Store, local: LocalStorage, p: Name) returns (view: seq<CategoryView>)
    ensures ShowsProject(s, local, p, view)
    ensures ViewOK(view)
  {
    var names := Enumerate(CategoriesOf(s, p));
    view := [];
    var i := 0;
    while i < |names|
      invariant i <= |names| && |view| == i
      invariant forall j :: 0 <= j < i ==> view[j].name == names[j]
      invariant forall j :: 0 <= j < i ==> RendersCategory(s, local, p, view[j].name, view[j]) && CategoryOK(view[j])
    {
      var cv := RenderCategory(s, local, p, names[i]);
      view := view + [cv];
      i := i + 1;
    }
    assert Names(view) == names;
  }

  // In-place edits of the rendered board

  /** Replaces node ni of section si. */
  function UpdateNode(cv: CategoryView, si: nat, ni: nat, n: TaskNode): (r: CategoryView)
    requires si < |cv.sections| && ni < |cv.sections[si].nodes|
    ensures r == cv.(sections := r.sections)
    ensures |r.sections| == |cv.sections|
    ensures forall j :: 0 <= j < |cv.sections| && j != si ==> r.sections[j] == cv.sections[j]
    ensures r.sections[si] == cv.sections[si].(nodes := cv.sections[si].nodes[ni := n])
    ensures Kinds(r.sections) == Kinds(cv.sections)
    ensures CategoryOK(cv) && (n.hidden ==> n.colour == "green") ==> CategoryOK(r)
  {
    var sec := cv.sections[si];
    cv.(sections := cv.sections[si := sec.(nodes := sec.nodes[ni := n])])
  }

  /** Removes node ni of section si (`task.remove()`). */
  function RemoveNode(cv: CategoryView, si: nat, ni: nat): (r: CategoryView)
    requires si < |cv.sections| && ni < |cv.sections[si].nodes|
    ensures r == cv.(sections := r.sections)
    ensures |r.sections| == |cv.sections|
    ensures forall j :: 0 <= j < |cv.sections| && j != si ==> r.sections[j] == cv.sections[j]
    ensures r.sections[si] == cv.sections[si].(nodes := cv.sections[si].nodes[..ni] + cv.sections[si].nodes[ni + 1..])
    ensures Kinds(r.sections) == Kinds(cv.sections)
    ensures |r.sections[si].nodes| == |cv.sections[si].nodes| - 1
    ensures multiset(NodeIds(r.sections[si].nodes)) == multiset(NodeIds(cv.sections[si].nodes)) - multiset{cv.sections[si].nodes[ni].id}
    ensures CategoryOK(cv) ==> CategoryOK(r)
  {
    var sec := cv.sections[si];
    var nodes := sec.nodes[..ni] + sec.nodes[ni + 1..];
    RemoveNodeIds(sec.nodes, ni);
    assert SectionOK(sec) ==> SectionOK(sec.(nodes := nodes)) by {
      forall j | 0 <= j < |nodes| ensures nodes[j] == sec.nodes[if j < ni then j else j + 1] { }
    }
    cv.(sections := cv.sections[si := sec.(nodes := nodes)])
  }

  lemma RemoveNodeIds(nodes: seq<TaskNode>, ni: nat)
    requires ni < |nodes|
    ensures multiset(NodeIds(nodes[..ni] + nodes[ni + 1..])) == multiset(NodeIds(nodes)) - multiset{nodes[ni].id}
  {
    var ids := NodeIds(nodes);
    assert ids == ids[..ni] + [ids[ni]] + ids[ni + 1..];
    assert NodeIds(nodes[..ni] + nodes[ni + 1..]) == ids[..ni] + ids[ni + 1..];
  }

  /** Appends a node at the end of section si (`actionDiv.appendChild`). */
  function AppendNode(cv: CategoryView, si: nat, n: TaskNode): (r: CategoryView)
    requires si < |cv.sections|
    ensures r == cv.(sections := r.sections)
    ensures |r.sections| == |cv.sections|
    ensures forall j :: 0 <= j < |cv.sections| && j != si ==> r.sections[j] == cv.sections[j]
    ensures r.sections[si] == cv.sections[si].(nodes := cv.sections[si].nodes + [n])
    ensures Kinds(r.sections) == Kinds(cv.sections)
    ensures CategoryOK(cv) && (n.hidden ==> n.colour == "green") ==> CategoryOK(r)
  {
    var sec := cv.sections[si];
    cv.(sections := cv.sections[si := sec.(nodes := sec.nodes + [n])])
  }

  /** Removes section si (`categoryContainer.removeChild(actionDiv)`). */
  function RemoveSection(cv: CategoryView, si: nat): (r: CategoryView)
    requires si < |cv.sections|
    ensures r == cv.(sections := r.sections)
    ensures r.sections == cv.sections[..si] + cv.sections[si + 1..]
    ensures Kinds(r.sections) == Kinds(cv.sections[..si]) + Kinds(cv.sections[si + 1..])
    ensures CategoryOK(cv) ==> CategoryOK(r) && cv.sections[si].kind !in Kinds(r.sections)
  {
    var r := cv.(sections := cv.sections[..si] + cv.sections[si + 1..]);
    KindsConcat(cv.sections[..si], cv.sections[si + 1..]);
    assert cv.sections == cv.sections[..si] + [cv.sections[si]] + cv.sections[si + 1..];
    KindsConcat(cv.sections[..si] + [cv.sections[si]], cv.sections[si + 1..]);
    KindsConcat(cv.sections[..si], [cv.sections[si]]);
    r
  }

  /** An empty section of kind k at the end, added only when there is none of that kind yet (app.js:668-687). */
  function AddSection(cv: CategoryView, k: ActionKind): (r: CategoryView)
    ensures r == cv.(sections := r.sections)
    ensures |r.sections| == |cv.sections| + 1 && r.sections[..|cv.sections|] == cv.sections
    ensures r.sections[|cv.sections|] == Section(k, SectionHeading(k), [])
    ensures Kinds(r.sections) == Kinds(cv.sections) + [k]
    ensures CategoryOK(cv) && k !in Kinds(cv.sections) ==> CategoryOK(r)
  {
    KindsConcat(cv.sections, [Section(k, SectionHeading(k), [])]);
    cv.(sections := cv.sections + [Section(k, SectionHeading(k), [])])
  }

  /** The toggle's change handler on one node: green nodes follow the toggle, others are left alone. */
  function ToggleNode(n: TaskNode, checked: bool): TaskNode {
    if n.colour == "green" then n.(hidden := !checked) else n
  }

  function ToggleSection(sec: Section, checked: bool): Section {
    sec.(nodes := seq(|sec.nodes|, i requires 0 <= i < |sec.nodes| => ToggleNode(sec.nodes[i], checked)))
  }

  /** The category after its toggle is set to checked (app.js:290-303); completedVisible keeps its load-time value. */
  function ToggleView(cv: CategoryView, checked: bool): CategoryView {
    cv.(toggleChecked := checked,
        sections := seq(|cv.sections|, i requires 0 <= i < |cv.sections| => ToggleSection(cv.sections[i], checked)))
  }

  /**
   * After the toggle every node is hidden exactly when it is green and the toggle is off;
   * kinds, ids, titles and colours are kept, and the invariant holds.
   */
  lemma ToggleShowsExactly(cv: CategoryView, checked: bool)
    requires CategoryOK(cv)
    ensures var r := ToggleView(cv, checked);
      && r.toggleChecked == checked && r.completedVisible == cv.completedVisible
      && Kinds(r.sections) == Kinds(cv.sections)
      && CategoryOK(r)
      && (forall i :: 0 <= i < |cv.sections| ==> |r.sections[i].nodes| == |cv.sections[i].nodes|)
      && (forall i, j :: 0 <= i < |cv.sections| && 0 <= j < |cv.sections[i].nodes| ==>
            var m, n := r.sections[i].nodes[j], cv.sections[i].nodes[j];
            m == n.(hidden := m.hidden) && (m.hidden <==> n.colour == "green" && !checked))
  {
    var r := ToggleView(cv, checked);
    assert Kinds(r.sections) == Kinds(cv.sections);
    forall i, j | 0 <= i < |cv.sections| && 0 <= j < |cv.sections[i].nodes|
      ensures cv.sections[i].nodes[j].hidden ==> cv.sections[i].nodes[j].colour == "green"
    {
      assert SectionOK(cv.sections[i]);
    }
  }

  /** Only the last toggle counts. */
  lemma ToggleLastWins(cv: CategoryView, a: bool, b: bool)
    ensures ToggleView(ToggleView(cv, a), b) == ToggleView(cv, b)
  {
    var l, r := ToggleView(ToggleView(cv, a), b), ToggleView(cv, b);
    forall i | 0 <= i < |cv.sections| ensures l.sections[i] == r.sections[i] {
      assert l.sections[i].nodes == r.sections[i].nodes;
    }
    assert l.sections == r.sections;
  }

  /** The loop of the toggle's change handler, over every task of the category. */
  method ApplyToggle(cv: CategoryView, checked: bool) returns (r: CategoryView)
    ensures r == ToggleView(cv, checked)
  {
    var sections: seq<Section> := [];
    var i := 0;
    while i < |cv.sections|
      invariant i <= |cv.sections| && |sections| == i
      invariant forall j :: 0 <= j < i ==> sections[j] == ToggleSection(cv.sections[j], checked)
    {
      var sec := cv.sections[i];
      var nodes: seq<TaskNode> := [];
      var j := 0;
      while j < |sec.nodes|
        invariant j <= |sec.nodes| && |nodes| == j
        invariant forall m :: 0 <= m < j ==> nodes[m] == ToggleNode(sec.nodes[m], checked)
      {
        var n := sec.nodes[j];
        if n.colour == "green" {
          n := n.(hidden := !checked);
        }
        nodes := nodes + [n];
        j := j + 1;
      }
      sections := sections + [sec.(nodes := nodes)];
      i := i + 1;
    }
    r := cv.(toggleChecked := checked, sections := sections);
  }

  /** The three status options of a task and the colour each writes. */
  datatype StatusChoice = InProgress | Done | Unmark

  function ColourOf(choice: StatusChoice): (colour: string)
    ensures colour in StatusClasses && StatusClass(Some(colour)) == colour
  {
    match choice
    case InProgress => "orange"
    case Done => "green"
    case Unmark => "white"
  }

  /**
   * A status option applied in place (app.js:575-589 and 460-469): the colour class, and the
   * display decided by the completedVisible read when the category was loaded.
   */
  function StatusNode(cv: CategoryView, n: TaskNode, choice: StatusChoice): (m: TaskNode)
    ensures m == n.(colour := ColourOf(choice), hidden := m.hidden)
    ensures m.hidden <==> !cv.completedVisible && choice == Done
    ensures m.hidden ==> m.colour == "green"
  {
    n.(colour := StatusClass(Some(ColourOf(choice))), hidden := !cv.completedVisible && ColourOf(choice) == "green")
  }

  /** Updating a rendered node in place gives the node a fresh render of the updated store would show. */
  lemma StatusInPlaceMatchesRender(s: Store, t: TaskPath, cv: CategoryView, choice: StatusChoice)
    requires t in s.tasks
    ensures StatusNode(cv, RenderedNode(s, t, cv.completedVisible), choice)
      == RenderedNode(UpdateStatus(s, t, ColourOf(choice)), t, cv.completedVisible)
  {
  }

  /**
   * The status handler ignores the live toggle: in a category loaded with completed tasks
   * hidden, marking a task done hides it even after the toggle was switched to show them.
   */
  lemma StatusIgnoresLiveToggle(cv: CategoryView, n: TaskNode)
    requires !cv.completedVisible
    ensures ToggleView(cv, true).toggleChecked
    ensures StatusNode(ToggleView(cv, true), n, Done).hidden
  {
  }

  /** The title editor's blur commits when the trimmed input is non-empty and differs from `data.title`. */
  predicate TitleEditCommits(input: string, dataTitle: Option<string>) {
    Text.Trim(input) != "" && Some(Text.Trim(input)) != dataTitle
  }

  /** A committed title edit: the span's text and `data.title` (app.js:546-551). */
  function EditedNode(n: TaskNode, title: string): (m: TaskNode)
    ensures m == n.(title := title, dataTitle := Some(title))
  {
    n.(title := title, dataTitle := Some(title))
  }

  /**
   * A committed edit updates `data.title`, so blurring again with the same input writes
   * nothing, and the edited node is what a fresh render of the updated store shows.
   */
  lemma TitleEditSettles(s: Store, t: TaskPath, cv: CategoryView, input: string)
    requires t in s.tasks
    requires TitleEditCommits(input, RenderedNode(s, t, cv.completedVisible).dataTitle)
    ensures var title := Text.Trim(input);
      && !TitleEditCommits(input, EditedNode(RenderedNode(s, t, cv.completedVisible), title).dataTitle)
      && EditedNode(RenderedNode(s, t, cv.completedVisible), title)
        == RenderedNode(UpdateTitle(s, t, title), t, cv.completedVisible)
  {
  }

  /** The stored document of a task added through a section's form (app.js:419-423). */
  function NewTaskDoc(title: string, now: int): TaskDoc {
    TaskDoc(Some(title), None, Some("white"), Some(now))
  }

  /** The node the add-task handler appends: white, shown, and without a title editor (app.js:429-439). */
  function NewTaskNode(id: TaskId, title: string): TaskNode {
    TaskNode(id, title, "white", false, false, Some(title))
  }

  /**
   * The appended node agrees with what a reload would show for the new document, except that
   * it has no title editor; the new task is in the dated query of its bucket.
   */
  lemma NewTaskMatchesRender(s: Store, p: Name, c: Name, k: ActionKind, title: string, now: int, completedVisible: bool)
    ensures var (r, id) := AddTaskDoc(s, p, c, k, NewTaskDoc(title, now));
      && id in Dated(r, p, c, k)
      && NewTaskNode(id, title) == RenderedNode(r, TaskPath(p, c, k, id), completedVisible).(editable := false)
  {
    var (r, id) := AddTaskDoc(s, p, c, k, NewTaskDoc(title, now));
    DatedMember(r, p, c, k, id);
  }

  /** A toggle change survives a reload: the category comes back with the toggle as it was left. */
  lemma ToggleSurvivesReload(s: Store, local: LocalStorage, p: Name, c: Name, checked: bool, cv: CategoryView)
    requires RendersCategory(s, local[ToggleKey(p, c) := StoredFlag(checked)], p, c, cv)
    ensures cv.completedVisible == checked && cv.toggleChecked == checked
  {
    StoredFlagRoundTrip(local, p, c, checked);
  }
}
