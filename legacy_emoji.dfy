/**
 * The emoji helpers of app.js: getActionEmoji is an exact, case-sensitive switch on the key
 * (app.js:699-712); getCategoryEmoji is an ordered chain of `includes` tests on the
 * lower-cased name (app.js:714-773).
 */
module LegacyEmoji {
  import opened Text
  import opened Constants
  import opened CategoryKeywords

  const ToolsEmoji := "\U{1F6E0}"
  const HeavyPlusEmoji := "\U{271A}"
  const CycleEmoji := "\U{1F504}"
  const SparklesEmoji := "\U{2728}"

  function ActionEmoji(key: string): string {
    if key == "Fix" then ToolsEmoji
    else if key == "Add" then HeavyPlusEmoji
    else if key == "Update" then CycleEmoji
    else if key == "Optional" then SparklesEmoji
    else ""
  }

  /** Each action type has its own emoji, and any key that is not exactly an action-type key gets "". */
  lemma ActionEmojiExact(key: string)
    ensures ActionEmoji(KeyOf(Fix)) == ToolsEmoji && ActionEmoji(KeyOf(Add)) == HeavyPlusEmoji
    ensures ActionEmoji(KeyOf(Update)) == CycleEmoji && ActionEmoji(KeyOf(Optional)) == SparklesEmoji
    ensures ActionEmoji(key) != "" <==> KindOfKey(key).Some?
    ensures ActionEmoji("fix") == "" && ActionEmoji("Fix ") == ""
  {
    KeysDistinct(Fix, key);
    if KindOfKey(key).Some? {
      KeysDistinct(KindOfKey(key).value, key);
    }
  }

  function CategoryEmoji(name: string): string {
    var name := ToLower(name);
    if Contains(name, "drive") || Contains(name, "driver") || Contains(name, "driving")
      || Contains(name, "car") || Contains(name, "cars")
    then CarEmoji
    else if Contains(name, "shuttle") || Contains(name, "shuttles") || Contains(name, "bus")
      || Contains(name, "buses") || Contains(name, "transport") || Contains(name, "transportation")
    then ShuttleEmoji
    else if Contains(name, "hotel") || Contains(name, "hotels") || Contains(name, "guest")
      || Contains(name, "guests") || Contains(name, "room") || Contains(name, "rooms")
    then HotelEmoji
    else if Contains(name, "expense") || Contains(name, "expenses") || Contains(name, "spend")
      || Contains(name, "cost")
    then MoneyEmoji
    else if Contains(name, "billing") || Contains(name, "bills") || Contains(name, "invoice")
      || Contains(name, "invoices") || Contains(name, "payment") || Contains(name, "payments")
    then ReceiptEmoji
    else if Contains(name, "general") || Contains(name, "settings") || Contains(name, "setup")
      || Contains(name, "config")
    then GearEmoji
    else FolderEmoji
  }

  /** The if-chain is the keyword table: first matching group in order, folder otherwise. */
  lemma CategoryEmojiIsTable(name: string)
    ensures CategoryEmoji(name) == Reference(name)
  {
    var l := ToLower(name);
    CarGroupMatch(l);
    ShuttleGroupMatch(l);
    HotelGroupMatch(l);
    MoneyGroupMatch(l);
    ReceiptGroupMatch(l);
    GearGroupMatch(l);
  }

  /** Matching ignores ASCII case: a name and its lower-case form get the same emoji. */
  lemma CategoryEmojiIgnoresCase(name: string)
    ensures CategoryEmoji(name) == CategoryEmoji(ToLower(name))
  {
    ToLowerIdempotent(name);
  }
}
