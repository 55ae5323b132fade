/**
 * The emoji helpers of js/main.js. getActionEmoji lower-cases the key and tests substrings
 * in the order fix, add, update, optional, with an arrow as the fallback (js/main.js:15-21);
 * getCategoryEmoji repeats app.js's keyword chain (js/main.js:23-32).
 */
module SplitEmoji {
  import opened Text
  import opened Constants
  import opened CategoryKeywords
  import LegacyEmoji

  const ToolsEmoji := "\U{1F6E0}"
  const SparklesEmoji := "\U{2728}"
  const CycleEmoji := "\U{1F504}"
  const BulbEmoji := "\U{1F4A1}"
  const ArrowEmoji := "\U{27A1}\U{FE0F}"

  function ActionEmoji(key: string): string {
    var key := ToLower(key);
    if Contains(key, "fix") then ToolsEmoji
    else if Contains(key, "add") then SparklesEmoji
    else if Contains(key, "update") then CycleEmoji
    else if Contains(key, "optional") then BulbEmoji
    else ArrowEmoji
  }

  lemma FixKeyEmoji()
    ensures ActionEmoji("Fix") == ToolsEmoji
  {
    assert ToLower("Fix") == "fix";
    ContainsSelf("fix");
  }

  lemma AddKeyEmoji()
    ensures ActionEmoji("Add") == SparklesEmoji
  {
    assert ToLower("Add") == "add";
    NotContainsChar("add", "fix", 'f');
    ContainsSelf("add");
  }

  lemma UpdateKeyEmoji()
    ensures ActionEmoji("Update") == CycleEmoji
  {
    assert ToLower("Update") == "update";
    NotContainsChar("update", "fix", 'f');
    UpdateLacksAdd();
    ContainsSelf("update");
  }

  lemma OptionalKeyEmoji()
    ensures ActionEmoji("Optional") == BulbEmoji
  {
    assert ToLower("Optional") == "optional";
    NotContainsChar("optional", "fix", 'f');
    NotContainsChar("optional", "add", 'd');
    NotContainsChar("optional", "update", 'u');
    ContainsSelf("optional");
  }

  /** The emoji of each action type key, and the arrow for a key that contains no known word. */
  lemma ActionEmojiOfKinds()
    ensures ActionEmoji(KeyOf(Fix)) == ToolsEmoji && ActionEmoji(KeyOf(Add)) == SparklesEmoji
    ensures ActionEmoji(KeyOf(Update)) == CycleEmoji && ActionEmoji(KeyOf(Optional)) == BulbEmoji
    ensures ActionEmoji("") == ArrowEmoji
  {
    ActionTypesInOrder();
    FixKeyEmoji();
    AddKeyEmoji();
    UpdateKeyEmoji();
    OptionalKeyEmoji();
    NotContainsChar("", "fix", 'f');
    NotContainsChar("", "add", 'a');
    NotContainsChar("", "update", 'u');
    NotContainsChar("", "optional", 'o');
  }

  /** "add" has two adjacent d's, "update" none. */
  lemma UpdateLacksAdd()
    ensures !Contains("update", "add")
  {
    var s := "update";
    forall i | 0 <= i <= 3
      ensures !OccursAt(s, "add", i)
    {
      assert !(s[i + 1] == 'd' && s[i + 2] == 'd');
      assert s[i..i + 3][1] == s[i + 1] && s[i..i + 3][2] == s[i + 2];
    }
  }

  /** The key is matched without regard to ASCII case. */
  lemma ActionEmojiIgnoresCase(key: string)
    ensures ActionEmoji(key) == ActionEmoji(ToLower(key))
  {
    ToLowerIdempotent(key);
  }

  /** A key that merely contains "fix" gets the tools emoji. */
  lemma PrefixKeyEmoji()
    ensures ActionEmoji("prefix") == ToolsEmoji
  {
    assert ToLower("prefix") == "prefix";
    assert OccursAt("prefix", "fix", 3);
  }

  /** The two copies of getActionEmoji agree on Fix and Update and differ on Add and Optional. */
  lemma ActionEmojiVersionsDiffer()
    ensures ActionEmoji(KeyOf(Fix)) == LegacyEmoji.ActionEmoji(KeyOf(Fix))
    ensures ActionEmoji(KeyOf(Update)) == LegacyEmoji.ActionEmoji(KeyOf(Update))
    ensures ActionEmoji(KeyOf(Add)) != LegacyEmoji.ActionEmoji(KeyOf(Add))
    ensures ActionEmoji(KeyOf(Optional)) != LegacyEmoji.ActionEmoji(KeyOf(Optional))
    ensures ActionEmoji("prefix") != LegacyEmoji.ActionEmoji("prefix")
  {
    ActionEmojiOfKinds();
    LegacyEmoji.ActionEmojiExact("");
    PrefixKeyEmoji();
  }

  function CategoryEmoji(name: string): string {
    var name := ToLower(name);
    if Contains(name, "drive") || Contains(name, "driver") || Contains(name, "driving")
      || Contains(name, "car") || Contains(name, "cars")
    then CarEmoji
    else if Contains(name, "shuttle") || Contains(name, "shuttles") || Contains(name, "bus")
      || Contains(name, "buses") || Contains(name, "transport") || Contains(name, "transportation")
    then ShuttleEmoji
    else if Contains(name, "hotel") || Contains(name, "hotels") || Contains(name, "guest")
      || Contains(name, "guests") || Contains(name, "room") || Contains(name, "rooms")
    then HotelEmoji
    else if Contains(name, "expense") || Contains(name, "expenses") || Contains(name, "spend")
      || Contains(name, "cost")
    then MoneyEmoji
    else if Contains(name, "billing") || Contains(name, "bills") || Contains(name, "invoice")
      || Contains(name, "invoices") || Contains(name, "payment") || Contains(name, "payments")
    then ReceiptEmoji
    else if Contains(name, "general") || Contains(name, "settings") || Contains(name, "setup")
      || Contains(name, "config")
    then GearEmoji
    else FolderEmoji
  }

  /** This chain is the keyword table too. */
  lemma CategoryEmojiIsTable(name: string)
    ensures CategoryEmoji(name) == Reference(name)
  {
    var l := ToLower(name);
    CarGroupMatch(l);
    ShuttleGroupMatch(l);
    HotelGroupMatch(l);
    MoneyGroupMatch(l);
    ReceiptGroupMatch(l);
    GearGroupMatch(l);
  }

  /** The two copies of getCategoryEmoji give every name the same emoji. */
  lemma CategoryEmojiVersionsAgree(name: string)
    ensures CategoryEmoji(name) == LegacyEmoji.CategoryEmoji(name)
  {
    CategoryEmojiIsTable(name);
    LegacyEmoji.CategoryEmojiIsTable(name);
  }
}
