/**
 * The hide-completed preference in localStorage, shared by both copies of the board
 * (app.js:269-292 and js/action-type.js:23-29): one string per project and category under
 * the key `toggleDone-{project}-{category}`, "true" meaning completed tasks are hidden.
 */
module Preferences {
  import opened DocStore

  type LocalStorage = map<string, string>

  function ToggleKey(p: Name, c: Name): string {
    "toggleDone-" + p + "-" + c
  }

  /**
   * The key is a plain concatenation, so two different project/category pairs can share one
   * preference when the names contain '-'.
   */
  lemma ToggleKeyCollides()
    ensures ToggleKey("a-b", "c") == ToggleKey("a", "b-c")
  {
    assert "toggleDone-" + "a-b" + "-" + "c" == "toggleDone-a-b-c";
    assert "toggleDone-" + "a" + "-" + "b-c" == "toggleDone-a-b-c";
  }

  /** Completed tasks are hidden exactly when the stored value is the string "true". */
  predicate HidesCompleted(local: LocalStorage, p: Name, c: Name) {
    ToggleKey(p, c) in local && local[ToggleKey(p, c)] == "true"
  }

  /** What a toggle change stores: `String(!checked)`, the same as `!checked ? 'true' : 'false'`. */
  function StoredFlag(checked: bool): (v: string)
    ensures v == "true" <==> !checked
    ensures v == "true" || v == "false"
  {
    if checked then "false" else "true"
  }

  /** Storing the toggle and reading it back gives the toggle's state; a missing key reads as shown. */
  lemma StoredFlagRoundTrip(local: LocalStorage, p: Name, c: Name, checked: bool)
    ensures HidesCompleted(local[ToggleKey(p, c) := StoredFlag(checked)], p, c) <==> !checked
    ensures ToggleKey(p, c) !in local ==> !HidesCompleted(local, p, c)
  {
  }
}
