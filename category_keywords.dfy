/**
 * The keyword table behind getCategoryEmoji, written once as data: six groups, tried in
 * order on the lower-cased category name; the first group with a keyword occurring in the
 * name gives the emoji, and a name that matches none gets the folder.
 * Both copies of getCategoryEmoji (app.js:714-773 and js/main.js:23-32) are proved equal
 * to this reference.
 */
module CategoryKeywords {
  import opened Wrappers
  import opened Text

  const CarEmoji := "\U{1F697}"
  const ShuttleEmoji := "\U{1F690}"
  const HotelEmoji := "\U{1F3E8}"
  const MoneyEmoji := "\U{1F4B0}"
  const ReceiptEmoji := "\U{1F9FE}"
  const GearEmoji := "\U{2699}\U{FE0F}"
  const FolderEmoji := "\U{1F4C1}"

  datatype Group = Group(words: seq<string>, emoji: string)

  /** The groups in the order they are tried. */
  const Groups: seq<Group> := [
    Group(["drive", "driver", "driving", "car", "cars"], CarEmoji),
    Group(["shuttle", "shuttles", "bus", "buses", "transport", "transportation"], ShuttleEmoji),
    Group(["hotel", "hotels", "guest", "guests", "room", "rooms"], HotelEmoji),
    Group(["expense", "expenses", "spend", "cost"], MoneyEmoji),
    Group(["billing", "bills", "invoice", "invoices", "payment", "payments"], ReceiptEmoji),
    Group(["general", "settings", "setup", "config"], GearEmoji)
  ]

  /** Some keyword of the list occurs in name. */
  predicate AnyIn(name: string, words: seq<string>) {
    exists w :: w in words && Contains(name, w)
  }

  /** Index of the first group with a keyword in name. */
  function FirstMatch(groups: seq<Group>, name: string): (r: Option<nat>)
    ensures r.Some? ==> r.value < |groups| && AnyIn(name, groups[r.value].words)
    ensures r.Some? ==> forall j :: 0 <= j < r.value ==> !AnyIn(name, groups[j].words)
    ensures r.None? ==> forall j :: 0 <= j < |groups| ==> !AnyIn(name, groups[j].words)
  {
    if groups == [] then None
    else if AnyIn(name, groups[0].words) then Some(0)
    else match FirstMatch(groups[1..], name)
      case Some(i) => Some(i + 1)
      case None => None
  }

  /** The emoji the table gives a category name, matching case-insensitively. */
  function Reference(name: string): string {
    match FirstMatch(Groups, ToLower(name))
    case Some(i) => Groups[i].emoji
    case None => FolderEmoji
  }

  /** Group 0 matches exactly when one of its keywords, in the order listed, occurs in name. */
  lemma CarGroupMatch(name: string)
    ensures AnyIn(name, Groups[0].words) <==> (Contains(name, "drive") || Contains(name, "driver") || Contains(name, "driving") || Contains(name, "car") || Contains(name, "cars"))
  {
    var words := Groups[0].words;
    assert |words| == 5 && words[0] == "drive" && words[1] == "driver" && words[2] == "driving" && words[3] == "car" && words[4] == "cars";
  }

  /** Group 1 matches exactly when one of its keywords, in the order listed, occurs in name. */
  lemma ShuttleGroupMatch(name: string)
    ensures AnyIn(name, Groups[1].words) <==> (Contains(name, "shuttle") || Contains(name, "shuttles") || Contains(name, "bus") || Contains(name, "buses") || Contains(name, "transport") || Contains(name, "transportation"))
  {
    var words := Groups[1].words;
    assert |words| == 6 && words[0] == "shuttle" && words[1] == "shuttles" && words[2] == "bus" && words[3] == "buses" && words[4] == "transport" && words[5] == "transportation";
  }

  /** Group 2 matches exactly when one of its keywords, in the order listed, occurs in name. */
  lemma HotelGroupMatch(name: string)
    ensures AnyIn(name, Groups[2].words) <==> (Contains(name, "hotel") || Contains(name, "hotels") || Contains(name, "guest") || Contains(name, "guests") || Contains(name, "room") || Contains(name, "rooms"))
  {
    var words := Groups[2].words;
    assert |words| == 6 && words[0] == "hotel" && words[1] == "hotels" && words[2] == "guest" && words[3] == "guests" && words[4] == "room" && words[5] == "rooms";
  }

  /** Group 3 matches exactly when one of its keywords, in the order listed, occurs in name. */
  lemma MoneyGroupMatch(name: string)
    ensures AnyIn(name, Groups[3].words) <==> (Contains(name, "expense") || Contains(name, "expenses") || Contains(name, "spend") || Contains(name, "cost"))
  {
    var words := Groups[3].words;
    assert |words| == 4 && words[0] == "expense" && words[1] == "expenses" && words[2] == "spend" && words[3] == "cost";
  }

  /** Group 4 matches exactly when one of its keywords, in the order listed, occurs in name. */
  lemma ReceiptGroupMatch(name: string)
    ensures AnyIn(name, Groups[4].words) <==> (Contains(name, "billing") || Contains(name, "bills") || Contains(name, "invoice") || Contains(name, "invoices") || Contains(name, "payment") || Contains(name, "payments"))
  {
    var words := Groups[4].words;
    assert |words| == 6 && words[0] == "billing" && words[1] == "bills" && words[2] == "invoice" && words[3] == "invoices" && words[4] == "payment" && words[5] == "payments";
  }

  /** Group 5 matches exactly when one of its keywords, in the order listed, occurs in name. */
  lemma GearGroupMatch(name: string)
    ensures AnyIn(name, Groups[5].words) <==> (Contains(name, "general") || Contains(name, "settings") || Contains(name, "setup") || Contains(name, "config"))
  {
    var words := Groups[5].words;
    assert |words| == 4 && words[0] == "general" && words[1] == "settings" && words[2] == "setup" && words[3] == "config";
  }

  /** The emoji of every group is distinct from the folder, so "no match" is visible. */
  lemma {:induction false} FolderOnlyWithoutMatch(name: string)
    ensures Reference(name) == FolderEmoji <==> forall j :: 0 <= j < |Groups| ==> !AnyIn(ToLower(name), Groups[j].words)
  {
    match FirstMatch(Groups, ToLower(name))
    case Some(i) =>
      assert Groups[i].emoji != FolderEmoji by {
        assert Groups[i].emoji[0] != FolderEmoji[0];
      }
    case None =>
  }

  /**
   * A keyword that extends an earlier keyword of its group never decides a match: a name
   * containing "driver" or "cars" already contains "drive" or "car", and the same holds for
   * "shuttles", "buses", "transportation", "hotels", "guests", "rooms", "expenses",
   * "invoices" and "payments".
   */
  lemma {:induction false} LongerKeywordsRedundant(name: string, short: string, long: string)
    requires Contains(name, long)
    requires StartsWith(long, short)
    ensures Contains(name, short)
  {
    var i :| 0 <= i <= |name| - |long| && OccursAt(name, long, i);
    assert name[i..i + |long|] == long;
    assert name[i..i + |short|] == name[i..i + |long|][..|short|];
    assert OccursAt(name, short, i);
  }

  /**
   * Not every longer keyword is redundant: "driving" contains neither "drive" nor "car", so
   * "Driving school" gets the car only through "driving"; "bills" does not contain "billing".
   */
  lemma DecidingKeywords()
    ensures !Contains("driving", "drive") && !Contains("driving", "car")
    ensures !Contains("bills", "billing")
  {
    NotContainsChar("driving", "drive", 'e');
    NotContainsChar("driving", "car", 'c');
    NotContainsChar("bills", "billing", 'n');
  }
}
