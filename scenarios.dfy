/**
  Worked examples on the seed data: the search for "Анна", the initials of a
  seed name, and sending a message from the initial page state.
 */
module Scenarios {
  import opened Strings
  import opened Messenger

  /** A case mapping for the seed data: basic Latin and Cyrillic capitals
      (including Ѐ..Џ) to their lower-case letters, everything else to
      itself. */
  function CyrillicLower(c: char): char {
    if 'A' <= c <= 'Z' then (c as int + 32) as char
    else if '\U{410}' <= c <= '\U{42F}' then (c as int + 32) as char
    else if '\U{400}' <= c <= '\U{40F}' then (c as int + 80) as char
    else c
  }

  lemma LowersTo(s: string, r: string)
    requires |s| == |r|
    requires forall i :: 0 <= i < |s| ==> CyrillicLower(s[i]) == r[i]
    ensures LowerCase(s, CyrillicLower) == r
  {
  }

  /** A string in which two neighbouring characters of `t` never appear side
      by side does not include `t`. */
  lemma AbsentPairExcludes(s: string, t: string, k: nat)
    requires k + 1 < |t|
    requires forall j :: 0 <= j < |s| - 1 ==> !(s[j] == t[k] && s[j + 1] == t[k + 1])
    ensures !Includes(s, t)
  {
    if i: nat :| OccursAt(s, t, i) {
      assert false;
    }
  }

  /** The lower-cased name of a seed chat has no "нн", so it cannot include
      "анна". */
  lemma NoAnna(name: string, lowered: string)
    requires |name| == |lowered|
    requires forall i :: 0 <= i < |name| ==> CyrillicLower(name[i]) == lowered[i]
    requires forall j :: 0 <= j < |lowered| - 1 ==> !(lowered[j] == 'н' && lowered[j + 1] == 'н')
    ensures !Includes(LowerCase(name, CyrillicLower), "анна")
  {
    LowersTo(name, lowered);
    AbsentPairExcludes(lowered, "анна", 1);
  }

  lemma AnnaMatchesFirst()
    ensures Matches(MockChats[0], "Анна", CyrillicLower)
  {
  }

  lemma AnnaMissesSecond()
    ensures !Matches(MockChats[1], "Анна", CyrillicLower)
  {
    LowersTo("Анна", "анна");
    NoAnna("Дмитрий Петров", "дмитрий петров");
  }

  lemma AnnaMissesThird()
    ensures !Matches(MockChats[2], "Анна", CyrillicLower)
  {
    LowersTo("Анна", "анна");
    NoAnna("Команда проекта", "команда проекта");
  }

  lemma AnnaMissesFourth()
    ensures !Matches(MockChats[3], "Анна", CyrillicLower)
  {
    LowersTo("Анна", "анна");
    NoAnna("Мария Козлова", "мария козлова");
  }

  lemma AnnaMissesFifth()
    ensures !Matches(MockChats[4], "Анна", CyrillicLower)
  {
    LowersTo("Анна", "анна");
    NoAnna("Александр", "александр");
  }

  /** Searching the seed list for "Анна" leaves only "Анна Смирнова". */
  lemma SearchAnnaExample()
    ensures FilterChats(MockChats, "Анна", CyrillicLower) == [MockChats[0]]
  {
    AnnaMatchesFirst();
    AnnaMissesSecond();
    AnnaMissesThird();
    AnnaMissesFourth();
    AnnaMissesFifth();
    assert FilterChats(MockChats[4..], "Анна", CyrillicLower) == [];
    assert FilterChats(MockChats[3..], "Анна", CyrillicLower) == [];
    assert FilterChats(MockChats[2..], "Анна", CyrillicLower) == [];
    assert FilterChats(MockChats[1..], "Анна", CyrillicLower) == [];
  }

  /** The avatar of the first seed chat reads "АС". */
  lemma InitialsExample()
    ensures Initials("Анна Смирнова") == "АС"
  {
    SplitAnna();
    HeadsOfAnna();
  }

  /** The seed name "Анна Смирнова" splits at its one space into two parts. */
  lemma SplitAnna()
    ensures Split("Анна Смирнова", ' ') == ["Анна", "Смирнова"]
  {
    var parts := ["Анна", "Смирнова"];
    assert "Анна Смирнова" == Join(parts, ' ');
    SplitJoin(parts, ' ');
  }

  /** The first characters of "Анна" and "Смирнова", joined. */
  lemma HeadsOfAnna()
    ensures JoinDefined(FirstChars(["Анна", "Смирнова"])) == "АС"
  {
    assert FirstChars(["Анна", "Смирнова"]) == [Some('А'), Some('С')];
    assert JoinDefined([Some('А'), Some('С')]) == "АС";
  }

  /** Composing "Привет" and sending it adds a sixth, sent message and empties
      the composer; sending a blank composer afterwards changes nothing. */
  method SendExample() {
    var page := new IndexPage(CyrillicLower);
    page.SetMessageText("Привет");
    assert !IsWhiteSpace("Привет"[0]);
    page.SendMessage("15:00");
    assert |page.messages| == 6;
    assert page.messages[5] == Message(6, "Привет", "15:00", true);
    assert page.messages[..5] == MockMessages;
    assert page.messageText == "";

    page.SetMessageText(" \t ");
    page.SendMessage("15:01");
    assert |page.messages| == 6;
    assert page.messageText == " \t ";

    page.SwitchTab(Calls);
    assert page.selectedChat == None && |page.messages| == 6;
  }
}
