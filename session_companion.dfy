/**
 * The session companion: a carousel of mantras grouped by category, with the
 * user's own category, and a guided reflection journal.
 */
module SessionCompanion {
  import opened Wrappers
  import opened Text
  import opened Constants
  import opened Calendar
  import T = Types

  // ================================================================ mantras

  /** The category selected on first use. */
  const FirstCategory: string := "For Calm"

  /** The index after `i` in a carousel of `n`, wrapping round. */
  function NextIndex(i: int, n: int): (r: int)
    requires i >= 0 && n > 0
    ensures 0 <= r < n
    ensures i < n - 1 ==> r == i + 1
    ensures i == n - 1 ==> r == 0
  {
    (i + 1) % n
  }

  /** The index before `i` in a carousel of `n`, wrapping round. */
  function PrevIndex(i: int, n: int): (r: int)
    requires i >= 0 && n > 0
    ensures 0 <= r < n
    ensures 0 < i < n ==> r == i - 1
    ensures i == 0 ==> r == n - 1
  {
    (i - 1 + n) % n
  }

  /** Next and previous undo each other. */
  lemma NextPrevInverse(i: int, n: int)
    requires 0 <= i < n
    ensures PrevIndex(NextIndex(i, n), n) == i
    ensures NextIndex(PrevIndex(i, n), n) == i
  {
  }

  /** Going forward `n` times from any index comes back to it. */
  lemma {:induction false} NextCycles(i: int, n: int, k: nat)
    requires 0 <= i < n
    ensures NextSteps(i, n, k) == (i + k) % n
    decreases k
  {
    if k > 0 {
      NextCycles(i, n, k - 1);
      var j := (i + k - 1) % n;
      assert NextSteps(i, n, k) == NextIndex(j, n);
      ModStep(i + k - 1, n);
    }
  }

  lemma ModStep(m: int, n: int)
    requires m >= 0 && n > 0
    ensures (m % n + 1) % n == (m + 1) % n
  {
    var q, r := m / n, m % n;
    assert m == n * q + r;
    if r + 1 < n {
      DivModUnique(m + 1, n, q, r + 1);
      DivModUnique(r + 1, n, 0, r + 1);
    } else {
      assert m + 1 == n * (q + 1) + 0;
      DivModUnique(m + 1, n, q + 1, 0);
      DivModUnique(r + 1, n, 1, 0);
    }
  }

  /** `k` presses of "next". */
  function NextSteps(i: int, n: int, k: nat): (r: int)
    requires 0 <= i < n
    ensures 0 <= r < n
  {
    if k == 0 then i else NextIndex(NextSteps(i, n, k - 1), n)
  }

  /** `s` without the element at index `k`; unchanged when `k` is out of range. */
  function RemoveAt(s: seq<string>, k: int): (r: seq<string>)
    ensures 0 <= k < |s| ==> r == s[..k] + s[k + 1..]
    ensures !(0 <= k < |s|) ==> r == s
  {
    if 0 <= k < |s| then s[..k] + s[k + 1..] else s
  }

  ghost predicate Distinct(s: seq<string>) {
    forall i, j :: 0 <= i < j < |s| ==> s[i] != s[j]
  }

  /** `[...new Set(s)]`: the first occurrence of each element, in order. */
  function Dedup(s: seq<string>): (r: seq<string>)
    ensures Distinct(r)
    ensures forall x :: x in r <==> x in s
    ensures |r| <= |s|
  {
    if s == [] then []
    else
      var init := Dedup(s[..|s| - 1]);
      var last := s[|s| - 1];
      assert forall x :: x in s <==> x in s[..|s| - 1] || x == last by {
        assert s == s[..|s| - 1] + [last];
      }
      if last in init then init else init + [last]
  }

  /** Deduplicating a longer list starts with the deduplicated shorter one. */
  lemma {:induction false} DedupPrefix(s: seq<string>, t: seq<string>)
    ensures |Dedup(s)| <= |Dedup(s + t)| && Dedup(s + t)[..|Dedup(s)|] == Dedup(s)
    decreases |t|
  {
    if t == [] {
      assert s + t == s;
    } else {
      var u := t[..|t| - 1];
      assert (s + t)[..|s + t| - 1] == s + u;
      DedupPrefix(s, u);
    }
  }

  /** A list without duplicates is its own deduplication. */
  lemma {:induction false} DedupOfDistinct(s: seq<string>)
    requires Distinct(s)
    ensures Dedup(s) == s
  {
    if s != [] {
      var init := s[..|s| - 1];
      DedupOfDistinct(init);
      assert s[|s| - 1] !in init;
      assert s == init + [s[|s| - 1]];
    }
  }

  /**
   * Merging the old list into "My Mantras" keeps every mantra of both and
   * repeats none; when the category had no duplicates its list comes first
   * and unchanged.
   */
  lemma MergeKeepsMantras(mine: seq<string>, legacy: seq<string>)
    ensures Distinct(Dedup(mine + legacy))
    ensures forall x :: x in Dedup(mine + legacy) <==> x in mine || x in legacy
    ensures Distinct(mine) ==> |mine| <= |Dedup(mine + legacy)| && Dedup(mine + legacy)[..|mine|] == mine
  {
    DedupPrefix(mine, legacy);
    if Distinct(mine) {
      DedupOfDistinct(mine);
    }
  }

  /** What the pre-category storage key held. */
  datatype LegacyMantras = NoLegacy | Malformed | NotAList | LegacyList(items: seq<string>)

  function Category(m: map<string, seq<string>>, c: string): seq<string> {
    if c in m then m[c] else []
  }

  /** The categories after migrating a non-empty old list into "My Mantras". */
  function Migrated(stored: map<string, seq<string>>, legacy: LegacyMantras): (m: map<string, seq<string>>)
    ensures legacy.LegacyList? && legacy.items != [] ==>
              m == stored[MyMantras := Dedup(Category(stored, MyMantras) + legacy.items)]
    ensures !(legacy.LegacyList? && legacy.items != []) ==> m == stored
  {
    if legacy.LegacyList? && legacy.items != [] then
      stored[MyMantras := Dedup(Category(stored, MyMantras) + legacy.items)]
    else stored
  }

  class Mantras {
    var mantrasByCategory: map<string, seq<string>>
    var selectedCategory: string
    var currentIndex: int
    var newMantra: string
    var isAddingMantra: bool
    /** Whether the old storage key still holds something. */
    var legacyStored: bool

    /** The mantras of the selected category; none for an unknown category. */
    function CurrentMantras(): seq<string>
      reads this
    {
      Category(mantrasByCategory, selectedCategory)
    }

    /** The index is never negative, and is either 0 or a position of the current list. */
    ghost predicate Valid()
      reads this
    {
      currentIndex >= 0 && (currentIndex == 0 || currentIndex < |CurrentMantras()|)
    }

    /**
     * Loads the stored categories and category, then migrates the old list:
     * a non-empty list is merged and its key removed; an unreadable value is
     * removed too; anything else stays.
     */
    constructor(stored: map<string, seq<string>>, storedCategory: Option<string>, legacy: LegacyMantras)
      ensures Valid()
      ensures mantrasByCategory == Migrated(stored, legacy)
      ensures selectedCategory == storedCategory.GetOr(FirstCategory)
      ensures currentIndex == 0 && newMantra == "" && !isAddingMantra
      ensures legacyStored == !(legacy == Malformed || (legacy.LegacyList? && legacy.items != []) || legacy == NoLegacy)
    {
      mantrasByCategory := Migrated(stored, legacy);
      selectedCategory := storedCategory.GetOr(FirstCategory);
      currentIndex := 0;
      newMantra := "";
      isAddingMantra := false;
      legacyStored := legacy.NotAList? || (legacy.LegacyList? && legacy.items == []);
    }

    method HandleNext()
      requires Valid()
      modifies this
      ensures Valid()
      ensures CurrentMantras() == [] ==> currentIndex == old(currentIndex)
      ensures CurrentMantras() != [] ==> currentIndex == NextIndex(old(currentIndex), |CurrentMantras()|)
      ensures mantrasByCategory == old(mantrasByCategory) && selectedCategory == old(selectedCategory)
      ensures newMantra == old(newMantra) && isAddingMantra == old(isAddingMantra) && legacyStored == old(legacyStored)
    {
      var n := |CurrentMantras()|;
      if n == 0 {
        return;
      }
      currentIndex := NextIndex(currentIndex, n);
    }

    method HandlePrev()
      requires Valid()
      modifies this
      ensures Valid()
      ensures CurrentMantras() == [] ==> currentIndex == old(currentIndex)
      ensures CurrentMantras() != [] ==> currentIndex == PrevIndex(old(currentIndex), |CurrentMantras()|)
      ensures mantrasByCategory == old(mantrasByCategory) && selectedCategory == old(selectedCategory)
      ensures newMantra == old(newMantra) && isAddingMantra == old(isAddingMantra) && legacyStored == old(legacyStored)
    {
      var n := |CurrentMantras()|;
      if n == 0 {
        return;
      }
      currentIndex := PrevIndex(currentIndex, n);
    }

    /**
     * A non-blank entry is trimmed and appended to "My Mantras", which becomes
     * the selected category, showing the new mantra; a blank one changes nothing.
     */
    method HandleAddMantraSubmit()
      requires Valid()
      modifies this
      ensures Valid()
      ensures Trim(old(newMantra)) == [] ==> unchanged(this)
      ensures Trim(old(newMantra)) != [] ==>
                && mantrasByCategory == old(mantrasByCategory)[MyMantras :=
                                         Category(old(mantrasByCategory), MyMantras) + [Trim(old(newMantra))]]
                && selectedCategory == MyMantras
                && currentIndex == |CurrentMantras()| - 1
                && CurrentMantras()[currentIndex] == Trim(old(newMantra))
                && newMantra == "" && !isAddingMantra && legacyStored == old(legacyStored)
    {
      var text := Trim(newMantra);
      if text == [] {
        return;
      }
      AddToMyMantras(text);
    }

    /** The non-blank branch of the submit handler. */
    method AddToMyMantras(text: string)
      requires Valid()
      modifies this
      ensures Valid()
      ensures mantrasByCategory == old(mantrasByCategory)[MyMantras :=
                                     Category(old(mantrasByCategory), MyMantras) + [text]]
      ensures selectedCategory == MyMantras
      ensures currentIndex == |CurrentMantras()| - 1 && CurrentMantras()[currentIndex] == text
      ensures newMantra == "" && !isAddingMantra && legacyStored == old(legacyStored)
    {
      var updated := Category(mantrasByCategory, MyMantras) + [text];
      mantrasByCategory := mantrasByCategory[MyMantras := updated];
      newMantra := "";
      if selectedCategory != MyMantras {
        selectedCategory := MyMantras;
      }
      currentIndex := |updated| - 1;
      isAddingMantra := false;
    }

    /**
     * Only in a non-empty "My Mantras": removes the mantra at the index and
     * moves the index back to the last mantra when it falls off the end.
     */
    method HandleDelete()
      requires Valid()
      modifies this
      ensures Valid()
      ensures old(selectedCategory) != MyMantras || old(CurrentMantras()) == [] ==>
                mantrasByCategory == old(mantrasByCategory) && currentIndex == old(currentIndex)
      ensures old(selectedCategory) == MyMantras && old(CurrentMantras()) != [] ==>
                var updated := RemoveAt(old(CurrentMantras()), old(currentIndex));
                && mantrasByCategory == old(mantrasByCategory)[MyMantras := updated]
                && |updated| == |old(CurrentMantras())| - 1
                && currentIndex == (if old(currentIndex) >= |updated| then Max0(|updated| - 1) else old(currentIndex))
      ensures selectedCategory == old(selectedCategory) && newMantra == old(newMantra)
      ensures isAddingMantra == old(isAddingMantra) && legacyStored == old(legacyStored)
    {
      var current := CurrentMantras();
      if selectedCategory != MyMantras || |current| == 0 {
        return;
      }
      var updated := RemoveAt(current, currentIndex);
      mantrasByCategory := mantrasByCategory[selectedCategory := updated];
      if currentIndex >= |updated| {
        currentIndex := Max0(|updated| - 1);
      }
    }

    /** Choosing a category starts it from its first mantra. */
    method HandleCategoryChange(category: string)
      modifies this
      ensures Valid()
      ensures selectedCategory == category && currentIndex == 0
      ensures mantrasByCategory == old(mantrasByCategory) && newMantra == old(newMantra)
      ensures isAddingMantra == old(isAddingMantra) && legacyStored == old(legacyStored)
    {
      selectedCategory := category;
      currentIndex := 0;
    }
  }

  function Max0(n: int): (r: nat)
    ensures r >= n
    ensures n >= 0 ==> r == n
    ensures n < 0 ==> r == 0
  {
    if n > 0 then n else 0
  }

  // ================================================================ reflections

  const MaxEntries: int := 50
  const FinalThoughtsHeading: string := "**Final Thoughts**\n"

  /** The texts of the user's messages, in order. */
  function UserTexts(messages: seq<T.ChatMessage>): (r: seq<string>)
    ensures |r| <= |messages|
    ensures forall t :: t in r ==> exists m :: m in messages && m.sender == T.User && m.text == t
  {
    if messages == [] then []
    else
      var init := UserTexts(messages[..|messages| - 1]);
      var last := messages[|messages| - 1];
      assert forall m :: m in messages[..|messages| - 1] ==> m in messages;
      if last.sender == T.User then init + [last.text] else init
  }

  /** Appending a guide message adds no answer; appending a user message adds its text. */
  lemma UserTextsAppend(messages: seq<T.ChatMessage>, m: T.ChatMessage)
    ensures UserTexts(messages + [m]) == UserTexts(messages) + (if m.sender == T.User then [m.text] else [])
  {
    assert (messages + [m])[..|messages|] == messages;
  }

  /** A heading for a prompt: the prompt in bold on a line of its own. */
  function PromptHeading(i: int): (heading: string)
    requires 0 <= i < |ReflectionPrompts|
    ensures |heading| == |ReflectionPrompts[i]| + 5
    ensures heading[2..|heading| - 3] == ReflectionPrompts[i]
  {
    "**" + ReflectionPrompts[i] + "**\n"
  }

  /**
   * The parts of a new reflection: each of the first four answers under its
   * prompt, then the remaining answers, one per line, under "Final Thoughts".
   */
  function FormattedParts(answers: seq<string>): (parts: seq<string>)
    ensures var k := if |answers| < |ReflectionPrompts| then |answers| else |ReflectionPrompts|;
            && |parts| == k + (if |answers| > |ReflectionPrompts| then 1 else 0)
            && (forall i :: 0 <= i < k ==> parts[i] == PromptHeading(i) + answers[i])
            && (|answers| > |ReflectionPrompts| ==>
                  parts[k] == FinalThoughtsHeading + Join(answers[|ReflectionPrompts|..], "\n"))
  {
    var n := |ReflectionPrompts|;
    var promptAnswers := if |answers| < n then answers else answers[..n];
    var finalThoughts := if |answers| < n then [] else answers[n..];
    var formatted := seq(|promptAnswers|, i requires 0 <= i < |promptAnswers| => PromptHeading(i) + promptAnswers[i]);
    if |finalThoughts| > 0 then formatted + [FinalThoughtsHeading + Join(finalThoughts, "\n")]
    else formatted
  }

  /** Each answer can be read back from its part by dropping the heading. */
  lemma AnswersRecoverable(answers: seq<string>, i: int)
    requires 0 <= i < |answers| && i < |ReflectionPrompts|
    ensures FormattedParts(answers)[i][|PromptHeading(i)|..] == answers[i]
  {
    var part := FormattedParts(answers)[i];
    assert part == PromptHeading(i) + answers[i];
  }

  /** The newest entry first, keeping at most 50. */
  function Capped(entries: seq<T.ReflectionEntry>): (r: seq<T.ReflectionEntry>)
    ensures |r| == if |entries| <= MaxEntries then |entries| else MaxEntries
    ensures r == entries[..|r|]
  {
    if |entries| <= MaxEntries then entries else entries[..MaxEntries]
  }

  /** Saving a new entry puts it first and drops only the oldest entries beyond 50. */
  lemma NewEntryFirst(entry: T.ReflectionEntry, entries: seq<T.ReflectionEntry>)
    ensures var r := Capped([entry] + entries);
            && r[0] == entry && |r| <= MaxEntries
            && r[1..] == entries[..|r| - 1]
            && (|entries| < MaxEntries ==> r[1..] == entries)
  {
  }

  /** The entries with id `id` get `text` and `timestamp`; the others stay as they are. */
  function EditWhere(entries: seq<T.ReflectionEntry>, id: int, text: string, timestamp: string): (r: seq<T.ReflectionEntry>)
    ensures |r| == |entries|
    ensures forall i :: 0 <= i < |r| ==>
              if entries[i].id == id then r[i] == entries[i].(text := text, timestamp := timestamp)
              else r[i] == entries[i]
  {
    seq(|entries|, i requires 0 <= i < |entries| =>
      if entries[i].id == id then entries[i].(text := text, timestamp := timestamp) else entries[i])
  }

  /**
   * The entries with id `id` get `suffix` after their own current text, the
   * timestamp and the chat; the others stay as they are.
   */
  function AppendWhere(entries: seq<T.ReflectionEntry>, id: int, suffix: string, timestamp: string,
                       history: seq<T.ChatMessage>): (r: seq<T.ReflectionEntry>)
    ensures |r| == |entries|
    ensures forall i :: 0 <= i < |r| ==>
              if entries[i].id == id then
                && r[i].id == id && r[i].text == entries[i].text + suffix
                && r[i].timestamp == timestamp && r[i].chatHistory == Some(history)
              else r[i] == entries[i]
  {
    seq(|entries|, i requires 0 <= i < |entries| =>
      if entries[i].id == id then
        entries[i].(text := entries[i].text + suffix, timestamp := timestamp, chatHistory := Some(history))
      else entries[i])
  }

  /** The entries whose id is not `id`, in order. */
  function RemoveEntry(entries: seq<T.ReflectionEntry>, id: int): (r: seq<T.ReflectionEntry>)
    ensures forall e :: e in r <==> e in entries && e.id != id
    ensures |r| <= |entries|
  {
    if entries == [] then []
    else
      var rest := RemoveEntry(entries[1..], id);
      assert entries == [entries[0]] + entries[1..];
      if entries[0].id != id then [entries[0]] + rest else rest
  }

  /**
   * Deletion keeps the order and the copies of the other entries: it
   * distributes over concatenation, and a single entry stays exactly when its
   * id is another one.
   */
  lemma {:induction false} RemoveEntryConcat(a: seq<T.ReflectionEntry>, b: seq<T.ReflectionEntry>, id: int)
    ensures RemoveEntry(a + b, id) == RemoveEntry(a, id) + RemoveEntry(b, id)
  {
    if a == [] {
      assert a + b == b;
    } else {
      var keep := if a[0].id != id then [a[0]] else [];
      calc {
        RemoveEntry(a + b, id);
        { assert a + b == [a[0]] + (a[1..] + b); }
        RemoveEntry([a[0]] + (a[1..] + b), id);
        { RemoveEntryCons(a[0], a[1..] + b, id); }
        keep + RemoveEntry(a[1..] + b, id);
        { RemoveEntryConcat(a[1..], b, id); }
        keep + (RemoveEntry(a[1..], id) + RemoveEntry(b, id));
        { AppendAssoc(keep, RemoveEntry(a[1..], id), RemoveEntry(b, id)); }
        (keep + RemoveEntry(a[1..], id)) + RemoveEntry(b, id);
        { RemoveEntryCons(a[0], a[1..], id); assert a == [a[0]] + a[1..]; }
        RemoveEntry(a, id) + RemoveEntry(b, id);
      }
    }
  }

  lemma AppendAssoc<X>(k: seq<X>, x: seq<X>, y: seq<X>)
    ensures k + (x + y) == (k + x) + y
  {
  }

  /** One entry in front stays exactly when its id is another one; so does a single entry. */
  lemma RemoveEntryCons(e: T.ReflectionEntry, rest: seq<T.ReflectionEntry>, id: int)
    ensures RemoveEntry([e] + rest, id) == (if e.id != id then [e] else []) + RemoveEntry(rest, id)
    ensures RemoveEntry([e], id) == if e.id != id then [e] else []
  {
    assert ([e] + rest)[1..] == rest;
    assert [e][1..] == [];
  }

  /** What a delete confirmation applies to. */
  datatype DeleteTarget = NoTarget | All | One(entry: T.ReflectionEntry)

  /**
   * The text added to a continued entry: a heading with the time it was
   * added, then the new answers one per line, ending the text.
   */
  function AddedText(stamp: string, answers: seq<string>): (r: string)
    ensures var body := Join(answers, "\n");
            && |r| == 16 + |stamp| + |body|
            && r[..13] == "\n\n**Added on " && r[13..13 + |stamp|] == stamp
            && r[|r| - |body|..] == body
  {
    "\n\n**Added on " + stamp + "**\n" + Join(answers, "\n")
  }

  /** The chat with the pending input, trimmed, as a last user message when it is not blank. */
  function FinalHistory(chat: seq<T.ChatMessage>, input: string): (r: seq<T.ChatMessage>)
    ensures Trim(input) == [] ==> r == chat
    ensures Trim(input) != [] ==> r == chat + [T.ChatMessage(T.User, Trim(input))]
  {
    if Trim(input) != [] then chat + [T.ChatMessage(T.User, Trim(input))] else chat
  }

  class Reflections {
    var entries: seq<T.ReflectionEntry>
    var editingId: Option<int>
    var editText: string
    var entryToDelete: DeleteTarget
    var isChatActive: bool
    var chatHistory: seq<T.ChatMessage>
    var currentPromptIndex: int
    var currentUserInput: string
    var entryToContinue: Option<T.ReflectionEntry>

    constructor(stored: seq<T.ReflectionEntry>)
      ensures entries == stored && editingId == None && editText == "" && entryToDelete == NoTarget
      ensures Idle()
    {
      entries := stored;
      editingId := None;
      editText := "";
      entryToDelete := NoTarget;
      isChatActive := false;
      chatHistory := [];
      currentPromptIndex := 0;
      currentUserInput := "";
      entryToContinue := None;
    }

    /** The guided chat's part of the state, which the journal's edit and delete controls leave alone. */
    ghost function Chat(): (bool, seq<T.ChatMessage>, int, string, Option<T.ReflectionEntry>)
      reads this
    {
      (isChatActive, chatHistory, currentPromptIndex, currentUserInput, entryToContinue)
    }

    /** No chat is under way. */
    ghost predicate Idle()
      reads this
    {
      !isChatActive && chatHistory == [] && currentPromptIndex == 0 && currentUserInput == ""
      && entryToContinue == None
    }

    /** Every guided prompt has been answered. */
    predicate IsLastPrompt()
      reads this
    {
      currentPromptIndex >= |ReflectionPrompts|
    }

    /**
     * Continuing an entry with a chat resumes that chat past the prompts;
     * otherwise a new chat opens with the first prompt.
     */
    method StartChat(entry: Option<T.ReflectionEntry>)
      modifies this
      ensures entry.Some? && entry.value.chatHistory.Some? ==>
                entryToContinue == entry && chatHistory == entry.value.chatHistory.value
                && currentPromptIndex == |ReflectionPrompts|
      ensures !(entry.Some? && entry.value.chatHistory.Some?) ==>
                entryToContinue == None && chatHistory == [T.ChatMessage(T.Guide, ReflectionPrompts[0])]
                && currentPromptIndex == 0
      ensures isChatActive && currentUserInput == ""
      ensures entries == old(entries) && editingId == old(editingId) && editText == old(editText)
      ensures entryToDelete == old(entryToDelete)
    {
      if entry.Some? && entry.value.chatHistory.Some? {
        entryToContinue := entry;
        chatHistory := entry.value.chatHistory.value;
        currentPromptIndex := |ReflectionPrompts|;
      } else {
        entryToContinue := None;
        chatHistory := [T.ChatMessage(T.Guide, ReflectionPrompts[0])];
        currentPromptIndex := 0;
      }
      isChatActive := true;
      currentUserInput := "";
    }

    method ResetChat()
      modifies this
      ensures Idle()
      ensures entries == old(entries) && editingId == old(editingId) && editText == old(editText)
      ensures entryToDelete == old(entryToDelete)
    {
      isChatActive := false;
      chatHistory := [];
      currentPromptIndex := 0;
      currentUserInput := "";
      entryToContinue := None;
    }

    method SetUserInput(text: string)
      modifies this
      ensures currentUserInput == text
      ensures entries == old(entries) && chatHistory == old(chatHistory)
      ensures currentPromptIndex == old(currentPromptIndex) && isChatActive == old(isChatActive)
      ensures entryToContinue == old(entryToContinue) && editingId == old(editingId)
      ensures editText == old(editText) && entryToDelete == old(entryToDelete)
    {
      currentUserInput := text;
    }

    /**
     * A blank answer is ignored. Otherwise the trimmed answer joins the chat,
     * followed by the next prompt while prompts remain, and the prompt index
     * moves on by one.
     */
    method HandleChatSubmit()
      modifies this
      ensures Trim(old(currentUserInput)) == [] ==> unchanged(this)
      ensures Trim(old(currentUserInput)) != [] ==>
                var answered := old(chatHistory) + [T.ChatMessage(T.User, Trim(old(currentUserInput)))];
                var next := old(currentPromptIndex) + 1;
                && currentPromptIndex == next
                && chatHistory == (if 0 <= next < |ReflectionPrompts|
                                   then answered + [T.ChatMessage(T.Guide, ReflectionPrompts[next])]
                                   else answered)
                && currentUserInput == ""
      ensures entries == old(entries) && isChatActive == old(isChatActive)
      ensures entryToContinue == old(entryToContinue) && editingId == old(editingId)
      ensures editText == old(editText) && entryToDelete == old(entryToDelete)
    {
      var answer := Trim(currentUserInput);
      if answer == [] {
        return;
      }
      var newHistory := chatHistory + [T.ChatMessage(T.User, answer)];
      var nextPromptIndex := currentPromptIndex + 1;
      if 0 <= nextPromptIndex < |ReflectionPrompts| {
        newHistory := newHistory + [T.ChatMessage(T.Guide, ReflectionPrompts[nextPromptIndex])];
        currentPromptIndex := nextPromptIndex;
      } else {
        currentPromptIndex := nextPromptIndex;
      }
      chatHistory := newHistory;
      currentUserInput := "";
    }

    /**
     * Saves the chat. A continued entry gets the new answers appended under
     * an "Added on" heading; a new chat becomes a formatted entry placed
     * first, keeping at most 50. Without new answers nothing is saved. The
     * chat is reset either way; `logged` tells whether the reflection
     * activity was recorded, which happens for a new entry only.
     */
    method HandleSaveReflection(nowId: int, isoNow: string, addedStamp: string) returns (logged: bool)
      modifies this
      ensures Idle()
      ensures var final := FinalHistory(old(chatHistory), old(currentUserInput));
              old(entryToContinue).Some? ==>
                var e := old(entryToContinue).value;
                var since := UserTexts(Drop(final, |e.chatHistory.GetOr([])|));
                && !logged
                && (since == [] ==> entries == old(entries))
                && (since != [] ==>
                      entries == AppendWhere(old(entries), e.id, AddedText(addedStamp, since), isoNow, final))
      ensures var final := FinalHistory(old(chatHistory), old(currentUserInput));
              old(entryToContinue).None? ==>
                var answers := UserTexts(final);
                && (logged <==> answers != [])
                && (answers == [] ==> entries == old(entries))
                && (answers != [] ==>
                      entries == Capped([T.ReflectionEntry(nowId, isoNow, Join(FormattedParts(answers), "\n\n"),
                                                           Some(final))] + old(entries)))
      ensures editingId == old(editingId) && editText == old(editText) && entryToDelete == old(entryToDelete)
    {
      if entryToContinue.Some? {
        SaveContinued(isoNow, addedStamp);
        logged := false;
      } else {
        logged := SaveNew(nowId, isoNow);
      }
    }

    /** The continued-entry half of `HandleSaveReflection`. */
    method SaveContinued(isoNow: string, addedStamp: string)
      requires entryToContinue.Some?
      modifies this
      ensures Idle()
      ensures var final := FinalHistory(old(chatHistory), old(currentUserInput));
              var e := old(entryToContinue).value;
              var since := UserTexts(Drop(final, |e.chatHistory.GetOr([])|));
              && (since == [] ==> entries == old(entries))
              && (since != [] ==>
                    entries == AppendWhere(old(entries), e.id, AddedText(addedStamp, since), isoNow, final))
      ensures editingId == old(editingId) && editText == old(editText) && entryToDelete == old(entryToDelete)
    {
      var finalHistory := FinalHistory(chatHistory, currentUserInput);
      var e := entryToContinue.value;
      var since := UserTexts(Drop(finalHistory, |e.chatHistory.GetOr([])|));
      if since != [] {
        entries := AppendWhere(entries, e.id, AddedText(addedStamp, since), isoNow, finalHistory);
      }
      ResetChat();
    }

    /** The new-entry half of `HandleSaveReflection`. */
    method SaveNew(nowId: int, isoNow: string) returns (logged: bool)
      modifies this
      ensures Idle()
      ensures var final := FinalHistory(old(chatHistory), old(currentUserInput));
              var answers := UserTexts(final);
              && (logged <==> answers != [])
              && (answers == [] ==> entries == old(entries))
              && (answers != [] ==>
                    entries == Capped([T.ReflectionEntry(nowId, isoNow, Join(FormattedParts(answers), "\n\n"),
                                                         Some(final))] + old(entries)))
      ensures editingId == old(editingId) && editText == old(editText) && entryToDelete == old(entryToDelete)
    {
      var finalHistory := FinalHistory(chatHistory, currentUserInput);
      var answers := UserTexts(finalHistory);
      logged := answers != [];
      if logged {
        var newEntry := T.ReflectionEntry(nowId, isoNow, Join(FormattedParts(answers), "\n\n"), Some(finalHistory));
        entries := Capped([newEntry] + entries);
      }
      ResetChat();
    }

    /**
     * Enter saves after the last prompt or when continuing an entry, and
     * submits the answer otherwise.
     */
    method HandleEnter(nowId: int, isoNow: string, addedStamp: string) returns (logged: bool)
      modifies this
      ensures old(IsLastPrompt()) || old(entryToContinue).Some? ==> Idle()
      ensures var final := FinalHistory(old(chatHistory), old(currentUserInput));
              old(entryToContinue).Some? ==>
                var e := old(entryToContinue).value;
                var since := UserTexts(Drop(final, |e.chatHistory.GetOr([])|));
                && !logged
                && (since == [] ==> entries == old(entries))
                && (since != [] ==>
                      entries == AppendWhere(old(entries), e.id, AddedText(addedStamp, since), isoNow, final))
      ensures var final := FinalHistory(old(chatHistory), old(currentUserInput));
              old(IsLastPrompt()) && old(entryToContinue).None? ==>
                var answers := UserTexts(final);
                && (logged <==> answers != [])
                && (answers == [] ==> entries == old(entries))
                && (answers != [] ==>
                      entries == Capped([T.ReflectionEntry(nowId, isoNow, Join(FormattedParts(answers), "\n\n"),
                                                           Some(final))] + old(entries)))
      ensures !(old(IsLastPrompt()) || old(entryToContinue).Some?) ==>
                && !logged && entries == old(entries) && isChatActive == old(isChatActive)
                && entryToContinue == old(entryToContinue)
                && (Trim(old(currentUserInput)) == [] ==>
                      chatHistory == old(chatHistory) && currentPromptIndex == old(currentPromptIndex)
                      && currentUserInput == old(currentUserInput))
                && (Trim(old(currentUserInput)) != [] ==>
                      var answered := old(chatHistory) + [T.ChatMessage(T.User, Trim(old(currentUserInput)))];
                      var next := old(currentPromptIndex) + 1;
                      && currentPromptIndex == next
                      && chatHistory == (if 0 <= next < |ReflectionPrompts|
                                         then answered + [T.ChatMessage(T.Guide, ReflectionPrompts[next])]
                                         else answered)
                      && currentUserInput == "")
      ensures editingId == old(editingId) && editText == old(editText) && entryToDelete == old(entryToDelete)
    {
      if IsLastPrompt() || entryToContinue.Some? {
        logged := HandleSaveReflection(nowId, isoNow, addedStamp);
      } else {
        HandleChatSubmit();
        logged := false;
      }
    }

    method HandleStartEdit(entry: T.ReflectionEntry)
      modifies this
      ensures Chat() == old(Chat())
      ensures editingId == Some(entry.id) && editText == entry.text
      ensures entries == old(entries) && entryToDelete == old(entryToDelete)
    {
      editingId := Some(entry.id);
      editText := entry.text;
    }

    method HandleCancelEdit()
      modifies this
      ensures Chat() == old(Chat())
      ensures editingId == None && editText == ""
      ensures entries == old(entries) && entryToDelete == old(entryToDelete)
    {
      editingId := None;
      editText := "";
    }

    /**
     * Without an entry being edited, or with blank text, nothing happens.
     * Otherwise the edited entry gets the trimmed text and a new timestamp,
     * the others stay, and editing ends.
     */
    method HandleSaveEdit(isoNow: string)
      modifies this
      ensures Chat() == old(Chat())
      ensures old(editingId).None? || Trim(old(editText)) == [] ==>
                entries == old(entries) && editingId == old(editingId) && editText == old(editText)
      ensures old(editingId).Some? && Trim(old(editText)) != [] ==>
                entries == EditWhere(old(entries), old(editingId).value, Trim(old(editText)), isoNow)
                && editingId == None && editText == ""
      ensures entryToDelete == old(entryToDelete)
    {
      if editingId.None? || Trim(editText) == [] {
        return;
      }
      entries := EditWhere(entries, editingId.value, Trim(editText), isoNow);
      HandleCancelEdit();
    }

    method HandleDeleteRequest(target: DeleteTarget)
      modifies this
      ensures Chat() == old(Chat())
      ensures entryToDelete == target
      ensures entries == old(entries) && editingId == old(editingId) && editText == old(editText)
    {
      entryToDelete := target;
    }

    /**
     * "All" empties the journal; one entry removes every entry with its id,
     * and ends an edit of it. The request is then cleared.
     */
    method HandleConfirmDelete()
      modifies this
      ensures Chat() == old(Chat())
      ensures old(entryToDelete) == NoTarget ==>
                entries == old(entries) && editingId == old(editingId) && editText == old(editText)
      ensures old(entryToDelete) == All ==>
                entries == [] && editingId == old(editingId) && editText == old(editText)
      ensures old(entryToDelete).One? ==>
                var id := old(entryToDelete).entry.id;
                && entries == RemoveEntry(old(entries), id)
                && (old(editingId) == Some(id) ==> editingId == None && editText == "")
                && (old(editingId) != Some(id) ==> editingId == old(editingId) && editText == old(editText))
      ensures entryToDelete == NoTarget
    {
      if entryToDelete == NoTarget {
        return;
      }
      if entryToDelete == All {
        entries := [];
      } else {
        entries := RemoveEntry(entries, entryToDelete.entry.id);
      }
      if entryToDelete.One? && editingId == Some(entryToDelete.entry.id) {
        HandleCancelEdit();
      }
      entryToDelete := NoTarget;
    }
  }

  /** `slice(n)`: everything from index `n` on, nothing when `n` is past the end. */
  function Drop<X>(s: seq<X>, n: nat): (r: seq<X>)
    ensures n <= |s| ==> r == s[n..]
    ensures n > |s| ==> r == []
  {
    if n <= |s| then s[n..] else []
  }
}
