/**
 * js/category.js: loading every category of a project into #app, and the add-category
 * form, which writes the category, bumps the project's updatedAt and reloads.
 */
module SplitCategory {
  import opened Wrappers
  import opened Text
  import opened Listing
  import opened DocStore
  import opened Preferences
  import opened SplitPage
  import opened SplitActionType

  const CategoryNameMissing := "Please enter a category name."

  /** view is what loadCategoriesForProject shows for project p: one loaded category per category document. */
  ghost predicate ShowsProject(s: Store, local: LocalStorage, p: Name, view: seq<CategoryView>) {
    && IsListing(Names(view), CategoriesOf(s, p))
    && forall i :: 0 <= i < |view| ==> RendersCategory(s, local, p, view[i].name, view[i])
  }

  /** loadCategoriesForProject (js/category.js:50-64): loadCategory once per category document, in store order. */
  method LoadCategoriesForProject(s: Store, local: LocalStorage, p: Name) returns (view: seq<CategoryView>)
    ensures ShowsProject(s, local, p, view)
    ensures Distinct(Names(view))
    ensures forall i :: 0 <= i < |view| ==> view[i].project == p && CategoryOK(view[i])
  {
    var names := Enumerate(CategoriesOf(s, p));
    view := [];
    var i := 0;
    while i < |names|
      invariant i <= |names| && |view| == i
      invariant forall j :: 0 <= j < i ==> view[j].name == names[j]
      invariant forall j :: 0 <= j < i ==> RendersCategory(s, local, p, view[j].name, view[j]) && CategoryOK(view[j])
    {
      var cv := LoadCategory(s, local, p, names[i]);
      view := view + [cv];
      i := i + 1;
    }
    assert Names(view) == names;
    ListingFacts(names, CategoriesOf(s, p));
  }

  /** Empties #app and loads the categories of the selected project into it. */
  method Reload(page: Page)
    requires page.db.Valid() && (page.selected == "" || page.selected in page.options)
    modifies page
    ensures page.db == old(page.db) && page.local == old(page.local) && page.options == old(page.options) &&
      page.selected == old(page.selected) && page.projectNotice == old(page.projectNotice) &&
      page.categoryNotice == old(page.categoryNotice) && page.readOnly == old(page.readOnly) &&
      page.deleteDialog == old(page.deleteDialog)
    ensures page.Valid()
    ensures ShowsProject(page.db, page.local, page.selected, page.view)
  {
    page.view := LoadCategoriesForProject(page.db, page.local, page.selected);
  }

  /**
   * The add-category form (js/category.js:12-47): a blank name shows the explainer; otherwise
   * the explainer is cleared and, when a project is selected, the category document is set,
   * the project's updatedAt bumped and the project reloaded, now listing the category.
   * The handler has no read-only check of its own.
   */
  method AddCategory(page: Page, input: string, now: int)
    requires page.Valid()
    modifies page
    ensures page.local == old(page.local) && page.options == old(page.options) && page.selected == old(page.selected) &&
      page.projectNotice == old(page.projectNotice) && page.readOnly == old(page.readOnly) &&
      page.deleteDialog == old(page.deleteDialog)
    ensures page.Valid()
    ensures page.categoryNotice == if Trim(input) == "" then CategoryNameMissing else ""
    ensures Trim(input) == "" || page.selected == "" ==> page.db == old(page.db) && page.view == old(page.view)
    ensures Trim(input) != "" && page.selected != "" ==>
      && page.db == Touch(SetCategory(old(page.db), page.selected, Trim(input), CategoryDoc(Some(now))), page.selected, now)
      && ShowsProject(page.db, page.local, page.selected, page.view)
      && CategoriesOf(page.db, page.selected) == CategoriesOf(old(page.db), page.selected) + {Trim(input)}
      && Trim(input) in Names(page.view)
  {
    var name := Trim(input);
    if name == "" {
      page.categoryNotice := CategoryNameMissing;
      return;
    }
    page.categoryNotice := "";
    if page.selected != "" {
      AddedCategoryListed(page.db, page.selected, name, CategoryDoc(Some(now)), now);
      page.db := Touch(SetCategory(page.db, page.selected, name, CategoryDoc(Some(now))), page.selected, now);
      Reload(page);
      ListingFacts(Names(page.view), CategoriesOf(page.db, page.selected));
    }
  }
}
