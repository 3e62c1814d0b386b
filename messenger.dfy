/**
  The messenger page: its two record types, the seed data it starts from,
  the search filter over the chat list, the avatar initials, and the page
  controller whose five pieces of state the user's clicks and keystrokes
  update one handler at a time.
 */
module Messenger {
  import opened Strings

  datatype Option<T> = None | Some(value: T)

  /** The four sections of the bottom navigation bar. */
  datatype Tab = Chats | Calls | Status | Settings

  /** One conversation in the chat list. */
  datatype Chat = Chat(id: int, name: string, lastMessage: string, time: string,
                       unread: int, avatar: string, online: bool)

  /** One entry of the conversation pane; `sent` is true for messages the
      local user wrote. */
  datatype Message = Message(id: int, text: string, time: string, sent: bool)

  const MockChats: seq<Chat> := [
    Chat(1, "Анна Смирнова", "Отлично, до встречи!", "14:23", 2, "", true),
    Chat(2, "Дмитрий Петров", "Отправил файлы", "13:45", 0, "", true),
    Chat(3, "Команда проекта", "Максим: Готово ✅", "12:30", 5, "", false),
    Chat(4, "Мария Козлова", "Спасибо большое!", "11:20", 0, "", false),
    Chat(5, "Александр", "Созвонимся завтра?", "Вчера", 1, "", true)
  ]

  const MockMessages: seq<Message> := [
    Message(1, "Привет! Как дела?", "14:20", false),
    Message(2, "Привет! Всё отлично, спасибо", "14:21", true),
    Message(3, "Ты завтра свободен?", "14:22", false),
    Message(4, "Да, что планируешь?", "14:22", true),
    Message(5, "Отлично, до встречи!", "14:23", false)
  ]

  // ----- Message identifiers -----

  /** The message at index `i` has identifier `i + 1`. */
  ghost predicate IdsConsecutive(messages: seq<Message>) {
    forall i :: 0 <= i < |messages| ==> messages[i].id == i + 1
  }

  /** Consecutive identifiers are strictly increasing, hence unique, so they
      can serve as the keys of the rendered message list. */
  lemma ConsecutiveIdsIncrease(messages: seq<Message>, i: int, j: int)
    requires IdsConsecutive(messages)
    requires 0 <= i < j < |messages|
    ensures messages[i].id < messages[j].id
  {
  }

  /** Appending a message whose identifier is the old length plus one keeps
      the identifiers consecutive. */
  lemma AppendKeepsIdsConsecutive(messages: seq<Message>, m: Message)
    requires IdsConsecutive(messages)
    requires m.id == |messages| + 1
    ensures IdsConsecutive(messages + [m])
  {
  }

  // ----- The send guard -----

  /** `if (messageText.trim())`: the trimmed text is a non-empty, hence
      truthy, string exactly when the text is not blank. */
  predicate HasContent(text: string)
    ensures HasContent(text) <==> !IsBlank(text)
  {
    Trim(text) != ""
  }

  // ----- Chat search -----

  /** The search test: the lower-cased chat name contains the lower-cased
      query as a substring, at some index. */
  predicate Matches(chat: Chat, query: string, lower: char -> char)
    ensures Matches(chat, query, lower) <==>
              exists i: nat :: OccursAt(LowerCase(chat.name, lower), LowerCase(query, lower), i)
  {
    Includes(LowerCase(chat.name, lower), LowerCase(query, lower))
  }

  /** `r` keeps some of the elements of `s`, in their order in `s`. */
  ghost predicate IsSubsequence(r: seq<Chat>, s: seq<Chat>)
    decreases |s|
  {
    if r == [] then true
    else if s == [] then false
    else (r[0] == s[0] && IsSubsequence(r[1..], s[1..])) || IsSubsequence(r, s[1..])
  }

  /** The chats shown for a search query: the order-preserving subsequence
      of `chats` made of every chat that matches the query, each as often as
      it occurs in `chats`, and nothing else. */
  function FilterChats(chats: seq<Chat>, query: string, lower: char -> char): (r: seq<Chat>)
    ensures IsSubsequence(r, chats)
    ensures forall c :: multiset(r)[c] == if Matches(c, query, lower) then multiset(chats)[c] else 0
    ensures forall c :: c in r <==> c in chats && Matches(c, query, lower)
  {
    if chats == [] then []
    else
      var rest := FilterChats(chats[1..], query, lower);
      assert chats == [chats[0]] + chats[1..];
      if Matches(chats[0], query, lower) then [chats[0]] + rest else rest
  }

  /** Every chat name includes the empty string: an empty query shows the
      whole list, in order. */
  lemma {:induction false} FilterEmptyQuery(chats: seq<Chat>, lower: char -> char)
    ensures FilterChats(chats, "", lower) == chats
  {
    if chats != [] {
      FilterEmptyQuery(chats[1..], lower);
      assert Matches(chats[0], "", lower);
    }
  }

  /** Filtering an already filtered list with the same query keeps it. */
  lemma {:induction false} FilterIdempotent(chats: seq<Chat>, query: string, lower: char -> char)
    ensures FilterChats(FilterChats(chats, query, lower), query, lower) == FilterChats(chats, query, lower)
  {
    if chats != [] {
      FilterIdempotent(chats[1..], query, lower);
    }
  }

  // ----- Avatar initials -----

  /** `n[0]`: the first character of a part, undefined for the empty part. */
  function FirstChar(part: string): (r: Option<char>)
    ensures r == None <==> part == ""
    ensures forall c :: r == Some(c) ==> [c] <= part
  {
    if part == [] then None else Some(part[0])
  }

  /** `parts.map(n => n[0])`: entry `i` is the first character of part `i`. */
  function FirstChars(parts: seq<string>): (r: seq<Option<char>>)
    ensures |r| == |parts|
    ensures forall i :: 0 <= i < |parts| ==> r[i] == FirstChar(parts[i])
  {
    if parts == [] then [] else [FirstChar(parts[0])] + FirstChars(parts[1..])
  }

  /** `xs.join('')`, where an undefined element joins as the empty string:
      the defined characters, in order, and nothing else. */
  function JoinDefined(xs: seq<Option<char>>): (r: string)
    ensures |r| <= |xs|
    ensures forall c <- r :: Some(c) in xs
    ensures (forall x <- xs :: x == None) ==> r == ""
    ensures (forall x <- xs :: x != None) ==> |r| == |xs|
    ensures (forall i :: 0 <= i < |xs| ==> xs[i].Some?) ==>
              forall i :: 0 <= i < |xs| ==> r[i] == xs[i].value
  {
    if xs == [] then ""
    else
      assert xs[0] in xs && forall x <- xs[1..] :: x in xs;
      (if xs[0].Some? then [xs[0].value] else "") + JoinDefined(xs[1..])
  }

  /** String concatenation is associative. */
  lemma ConcatAssociative(a: string, b: string, c: string)
    ensures a + (b + c) == (a + b) + c
  {
  }

  /** The head of a non-empty list comes first in the join of that list
      followed by another. */
  lemma JoinDefinedAppendStep(xs: seq<Option<char>>, ys: seq<Option<char>>)
    requires xs != []
    ensures JoinDefined(xs + ys) ==
              (if xs[0].Some? then [xs[0].value] else "") + JoinDefined(xs[1..] + ys)
  {
    var zs := xs + ys;
    assert zs[0] == xs[0];
    assert zs[1..] == xs[1..] + ys;
  }

  /** `join('')` distributes over concatenation: joining two lists one after
      the other is joining their concatenation. With the one-element cases of
      `JoinDefined`'s contract this pins down the join of every list. */
  lemma {:induction false} JoinDefinedAppend(xs: seq<Option<char>>, ys: seq<Option<char>>)
    ensures JoinDefined(xs + ys) == JoinDefined(xs) + JoinDefined(ys)
  {
    if xs != [] {
      var head: string := if xs[0].Some? then [xs[0].value] else "";
      JoinDefinedAppend(xs[1..], ys);
      JoinDefinedAppendStep(xs, ys);
      ConcatAssociative(head, JoinDefined(xs[1..]), JoinDefined(ys));
    } else {
      assert xs + ys == ys;
    }
  }

  /** Reference definition of the initials, read straight off the name: each
      non-space character that starts the name or follows a space, in order.
      `atStart` says whether the previous character was a space (or there
      was none). */
  function WordStarts(s: string, atStart: bool): (r: string)
    ensures |r| <= |s|
    ensures forall c <- r :: c in s && c != ' '
  {
    if s == [] then ""
    else (if atStart && s[0] != ' ' then [s[0]] else "") + WordStarts(s[1..], s[0] == ' ')
  }

  /** The heads of all parts of `s` are its word starts; the heads of all parts
      but the first are its word starts after a non-space. */
  lemma {:induction false} HeadsAreWordStarts(s: string, atStart: bool)
    ensures var parts := Split(s, ' ');
            JoinDefined(FirstChars(if atStart then parts else parts[1..])) == WordStarts(s, atStart)
    decreases |s|
  {
    if s != [] {
      var rest := Split(s[1..], ' ');
      if s[0] == ' ' {
        HeadsAreWordStarts(s[1..], true);
        assert Split(s, ' ') == [""] + rest;
        assert ([""] + rest)[1..] == rest;
      } else {
        HeadsAreWordStarts(s[1..], false);
        var parts := [[s[0]] + rest[0]] + rest[1..];
        assert Split(s, ' ') == parts;
        assert parts[1..] == rest[1..];
        if atStart {
          assert FirstChars(parts) == [Some(s[0])] + FirstChars(rest[1..]);
        }
      }
    }
  }

  /** The avatar fallback text, `name.split(' ').map(n => n[0]).join('')`:
      the first character of every space-separated word of the name; empty
      parts from repeated, leading or trailing spaces contribute nothing. */
  function Initials(name: string): (r: string)
    ensures r == WordStarts(name, true)
  {
    HeadsAreWordStarts(name, true);
    JoinDefined(FirstChars(Split(name, ' ')))
  }

  // ----- The page controller -----

  /** The state of the messenger page and its event handlers. `chats` is the
      chat list the page renders, which is always the seed list; `lower` is
      the platform's lower-case mapping used by the search. */
  class IndexPage {
    var activeTab: Tab
    var selectedChat: Option<Chat>
    var messages: seq<Message>
    var messageText: string
    var searchQuery: string
    const chats: seq<Chat>
    const lower: char -> char

    /** Message identifiers run 1..n, and a selected chat is always one of
        the page's chats. */
    ghost predicate Valid()
      reads this
    {
      && IdsConsecutive(messages)
      && (selectedChat.Some? ==> selectedChat.value in chats)
    }

    /** The initial state: the chat list tab, the first chat open, the seed
        messages, and empty composer and search fields. */
    constructor (lower: char -> char)
      ensures Valid()
      ensures activeTab == Chats && selectedChat == Some(MockChats[0])
      ensures messages == MockMessages
      ensures messageText == "" && searchQuery == ""
      ensures chats == MockChats && this.lower == lower
    {
      chats := MockChats;
      activeTab := Chats;
      selectedChat := Some(MockChats[0]);
      messages := MockMessages;
      messageText := "";
      searchQuery := "";
      this.lower := lower;
    }

    /** The chats listed under the search field: the page's chats matching
        the current query, in list order. */
    function FilteredChats(): (r: seq<Chat>)
      reads this
      ensures forall c :: c in r <==> c in chats && Matches(c, searchQuery, lower)
    {
      FilterChats(chats, searchQuery, lower)
    }

    /** Send button or Enter in the composer. Blank text (empty or white
        space only) changes nothing; otherwise exactly one message, carrying
        the untrimmed text, the next identifier, the time `now` and the sent
        flag, is appended and the composer is cleared. */
    method SendMessage(now: string)
      requires Valid()
      modifies this
      ensures Valid()
      ensures IsBlank(old(messageText)) ==>
                messages == old(messages) && messageText == old(messageText)
      ensures !IsBlank(old(messageText)) ==>
                && messages == old(messages) + [Message(|old(messages)| + 1, old(messageText), now, true)]
                && messageText == ""
      ensures activeTab == old(activeTab) && selectedChat == old(selectedChat)
      ensures searchQuery == old(searchQuery)
    {
      if HasContent(messageText) {
        var newMessage := Message(|messages| + 1, messageText, now, true);
        AppendKeepsIdsConsecutive(messages, newMessage);
        messages := messages + [newMessage];
        messageText := "";
      }
    }

    /** Click on a chat in the list: open it. Only listed chats have a
        button, so the chat is one of `FilteredChats()`. The message list is
        shared by all chats and stays as it is. */
    method SelectChat(chat: Chat)
      requires Valid()
      requires chat in FilteredChats()
      modifies this
      ensures Valid()
      ensures selectedChat == Some(chat)
      ensures activeTab == old(activeTab) && messages == old(messages)
      ensures messageText == old(messageText) && searchQuery == old(searchQuery)
    {
      selectedChat := Some(chat);
    }

    /** The back arrow of the conversation pane: close the open chat. */
    method Back()
      requires Valid()
      modifies this
      ensures Valid()
      ensures selectedChat == None
      ensures activeTab == old(activeTab) && messages == old(messages)
      ensures messageText == old(messageText) && searchQuery == old(searchQuery)
    {
      selectedChat := None;
    }

    /** A button of the navigation bar: show that section and close the open
        chat, whatever was open before. */
    method SwitchTab(tab: Tab)
      requires Valid()
      modifies this
      ensures Valid()
      ensures activeTab == tab && selectedChat == None
      ensures messages == old(messages)
      ensures messageText == old(messageText) && searchQuery == old(searchQuery)
    {
      activeTab := tab;
      selectedChat := None;
    }

    /** Typing in the search field replaces the query verbatim. */
    method SetSearchQuery(query: string)
      requires Valid()
      modifies this
      ensures Valid()
      ensures searchQuery == query
      ensures activeTab == old(activeTab) && selectedChat == old(selectedChat)
      ensures messages == old(messages) && messageText == old(messageText)
    {
      searchQuery := query;
    }

    /** Typing in the composer replaces its text verbatim. */
    method SetMessageText(text: string)
      requires Valid()
      modifies this
      ensures Valid()
      ensures messageText == text
      ensures activeTab == old(activeTab) && selectedChat == old(selectedChat)
      ensures messages == old(messages) && searchQuery == old(searchQuery)
    {
      messageText := text;
    }
  }
}
