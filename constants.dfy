/**
 * The board's enumerations: the four action-type buckets with their labels, and the
 * status colour classes (the same in app.js:3-16 and js/constants.js).
 */
module Constants {
  import opened Wrappers

  /** The closed set of bucket kinds; a bucket is a task sub-collection named by the kind's key. */
  datatype ActionKind = Fix | Add | Update | Optional

  datatype ActionType = ActionType(key: string, caption: string)

  /** ACTION_TYPES, in declaration order. */
  const ActionTypes: seq<ActionType> := [
    ActionType("Fix", "Fix Bugs"),
    ActionType("Add", "Add Features"),
    ActionType("Update", "Update Existing Features"),
    ActionType("Optional", "Optional Features")
  ]

  /** The kinds, in the order of ActionTypes. */
  const AllKinds: seq<ActionKind> := [Fix, Add, Update, Optional]

  /** Position of a kind in ActionTypes. */
  function IndexOf(k: ActionKind): (i: nat)
    ensures i < |AllKinds| == |ActionTypes| && AllKinds[i] == k
  {
    match k
    case Fix => 0
    case Add => 1
    case Update => 2
    case Optional => 3
  }

  /** The ActionTypes entry of a kind. */
  function TypeOf(k: ActionKind): ActionType {
    ActionTypes[IndexOf(k)]
  }

  /** The collection key of a kind ("Fix", "Add", "Update", "Optional"). */
  function KeyOf(k: ActionKind): string {
    TypeOf(k).key
  }

  function LabelOf(k: ActionKind): string {
    TypeOf(k).caption
  }

  /** ACTION_TYPES.find(type => type.key === key) over a list of types. */
  function FindIn(types: seq<ActionType>, key: string): (r: Option<nat>)
    ensures r.Some? ==> r.value < |types| && types[r.value].key == key
    ensures r.Some? ==> forall j :: 0 <= j < r.value ==> types[j].key != key
    ensures r.None? ==> forall j :: 0 <= j < |types| ==> types[j].key != key
  {
    if types == [] then None
    else if types[0].key == key then Some(0)
    else match FindIn(types[1..], key)
      case Some(i) => Some(i + 1)
      case None => None
  }

  /** The kind whose key is exactly key, if any (case-sensitive). */
  function KindOfKey(key: string): (r: Option<ActionKind>)
    ensures r.Some? ==> KeyOf(r.value) == key
    ensures r.None? ==> forall k: ActionKind :: KeyOf(k) != key
  {
    match FindIn(ActionTypes, key)
    case Some(i) => Some(AllKinds[i])
    case None => None
  }

  /** There are exactly four action types, Fix, Add, Update, Optional, in that order. */
  lemma ActionTypesInOrder()
    ensures |ActionTypes| == 4
    ensures ActionTypes[0].key == "Fix" && ActionTypes[1].key == "Add"
    ensures ActionTypes[2].key == "Update" && ActionTypes[3].key == "Optional"
    ensures forall k :: AllKinds[IndexOf(k)] == k
  {
  }

  /** Keys are pairwise distinct, so a lookup by key finds one entry: key and kind round-trip. */
  lemma {:induction false} KeysDistinct(k: ActionKind, key: string)
    ensures forall i, j :: 0 <= i < j < |ActionTypes| ==> ActionTypes[i].key != ActionTypes[j].key
    ensures KindOfKey(KeyOf(k)) == Some(k)
    ensures KindOfKey(key) == Some(k) <==> key == KeyOf(k)
  {
    var r := FindIn(ActionTypes, KeyOf(k));
    assert ActionTypes[IndexOf(k)].key == KeyOf(k);
    assert r.Some?;
    assert r.value == IndexOf(k);
  }

  /** Every action type has a non-empty label. */
  lemma LabelsNonEmpty()
    ensures forall i :: 0 <= i < |ActionTypes| ==> ActionTypes[i].caption != ""
  {
  }

  /** STATUS_CLASSES. */
  const StatusClasses: map<string, string> :=
    map["white" := "white", "orange" := "orange", "green" := "green"]

  /** STATUS_CLASSES is the identity on exactly white, orange and green. */
  lemma StatusClassesIdentity()
    ensures StatusClasses.Keys == {"white", "orange", "green"}
    ensures forall s :: s in StatusClasses ==> StatusClasses[s] == s
  {
  }

  /** `STATUS_CLASSES[status] || "white"`: a known colour is kept, anything else is white. */
  function StatusClass(status: Option<string>): (r: string)
    ensures r in StatusClasses
    ensures status.Some? && status.value in StatusClasses ==> r == status.value
    ensures !(status.Some? && status.value in StatusClasses) ==> r == "white"
  {
    if status.Some? && status.value in StatusClasses then StatusClasses[status.value] else "white"
  }
}
