# Messenger page controller, modelled in Dafny

The messenger page `src/pages/Index.tsx` renders a chat list, a conversation
pane and a navigation bar over in-memory seed data. Behind the layout sits a
small controller with five pieces of state: the active tab, the selected
chat, the message list, the composer text and the search query. Its handlers
change that state:

- sending a message (ignored when the composer is blank after `trim()`,
  otherwise an append with identifier `length + 1` and a cleared composer);
- selecting a chat from the list, and the back arrow that clears the selection;
- switching tab, which also clears the selection;
- typing into the search field and into the composer.

Two pure string computations sit beside the controller. One is the chat
search: a case-insensitive substring test on chat names. The other is the
avatar initials `name.split(' ').map(n => n[0]).join('')`.

The project has three modules:

- `Strings` (`strings.dfy`) models the JavaScript string primitives the page
  uses. `Trim` strips exactly the ECMA-262 WhiteSpace and LineTerminator code
  points (sections 12.2 and 12.3 of ECMA-262). `Includes` models
  `String.prototype.includes`. `Split` and `Join` model the one-character
  `split` and `join`. `LowerCase` models `toLowerCase` and takes the case
  mapping as a per-character function parameter.
- `Messenger` (`messenger.dfy`) holds the `Chat`, `Message` and `Tab` types,
  the seed data, the search filter `FilterChats`, the avatar `Initials`, and
  the class `IndexPage`. The class has the five state fields and one method
  per handler. Each method states its whole new state. Its invariant
  `Valid()` says two things: the message at index `i` has identifier `i + 1`,
  and a selected chat is one of the page's chats. The page's chat list is a
  constant field that the constructor sets to the seed chats. The constructor (the seed
  state) establishes `Valid()` and every handler preserves it, so it holds
  after any sequence of user actions.
- `Scenarios` (`scenarios.dfy`) gives worked examples on the seed data. A
  search for "Анна" keeps only "Анна Смирнова". The initials of "Анна
  Смирнова" are "АС". Sending "Привет" from the initial state adds a sixth,
  sent message and empties the composer. A blank composer is ignored.

The page builds the selection handler only for the chats it renders, so
`IndexPage.SelectChat` requires that the chat is one of `FilteredChats()`.

## Model

| member | source | states |
|---|---|---|
| `Strings.WhiteSpaceIsEcmaSets` | src/pages/Index.tsx:50 | The characters `IsWhiteSpace` accepts, which are the characters `trim()` strips, are exactly the WhiteSpace code points of section 12.2 of ECMA-262 together with the LineTerminator code points of section 12.3. |
| `Strings.Trim` | src/pages/Index.tsx:50 | `trim()` returns a slice of the text with only white space cut off on either side, and that slice neither starts nor ends with white space. It is empty, so the send guard fails, exactly when the text is blank. |
| `Strings.TrimmedAfterFirst` | src/pages/Index.tsx:50 | A white-space character cut off the front of the text lies outside the slice `trim()` keeps, and the text is blank exactly when the rest is. |
| `Strings.TrimmedBeforeLast` | src/pages/Index.tsx:50 | The same for a white-space character cut off the back of the text. |
| `Strings.TrimmedUnique` | src/pages/Index.tsx:50 | Two slices of a text that leave only white space outside them, neither start nor end with white space, and are empty together, are the same slice. |
| `Strings.TrimDetermined` | src/pages/Index.tsx:50 | `Trim`'s contract determines its result: any slice meeting that contract equals `trim()` of the text. |
| `Strings.TrimIdempotent` | src/pages/Index.tsx:50 | Trimming a trimmed text changes nothing. |
| `Strings.LowerCase` | src/pages/Index.tsx:63 | The length is kept. The body maps each character through the case mapping `lower`. |
| `Strings.OccursAfterFirst` | src/pages/Index.tsx:63 | Dropping the first character of a string moves every occurrence of a query one index back, and no occurrence appears or disappears otherwise. |
| `Strings.Includes` | src/pages/Index.tsx:63 | `includes(t)` holds exactly when `t` occurs as a contiguous slice at some index of the string. The empty query occurs everywhere. |
| `Strings.Split` | src/pages/Index.tsx:98 | `split(' ')` returns at least one part, no part contains a space, and joining the parts with spaces gives back the name. |
| `Strings.SplitJoin` | src/pages/Index.tsx:98 | The converse round trip: space-free parts joined with spaces split back into the same parts. |
| `Strings.SplitAtFirstSep` | src/pages/Index.tsx:98 | `split` cuts a string at its first separator: the part before it comes first, then the parts of the rest. |
| `Strings.SplitNoSep` | src/pages/Index.tsx:98 | A string without a separator splits into itself alone. |
| `Messenger.HasContent` | src/pages/Index.tsx:50 | The guard `if (messageText.trim())` passes exactly when the text is not blank, that is, when it has a character that is not white space. |
| `Messenger.Matches` | src/pages/Index.tsx:63 | A chat matches exactly when its lower-cased name contains the lower-cased query as a slice at some index. |
| `Messenger.FilterChats` | src/pages/Index.tsx:62-64 | The visible chats keep the list order and contain every chat whose lower-cased name includes the lower-cased query, as often as it occurs in the list, and no other chat. |
| `Messenger.FilterEmptyQuery` | src/pages/Index.tsx:62-64 | With an empty query the filter returns the whole list unchanged, in order. |
| `Messenger.FilterIdempotent` | src/pages/Index.tsx:62-64 | Filtering the filtered list again with the same query returns it unchanged. |
| `Messenger.FirstChar` | src/pages/Index.tsx:98 | `n[0]` is undefined exactly for the empty part. Otherwise it is a character that the part starts with. |
| `Messenger.FirstChars` | src/pages/Index.tsx:98 | `map(n => n[0])` yields one entry per part, and entry `i` is the first character of part `i`, or undefined when that part is empty. |
| `Messenger.JoinDefined` | src/pages/Index.tsx:98 | `join('')` over the first characters is no longer than the list and holds only characters that are defined entries. An all-undefined list joins to "". When no entry is undefined, the result has one character per entry, and character `i` is the value of entry `i`. |
| `Messenger.JoinDefinedAppend` | src/pages/Index.tsx:98 | Joining the concatenation of two lists is joining each and concatenating. With the one-entry cases of `JoinDefined` (a defined entry gives its character, an undefined one gives "") this determines the join of every list, in order. |
| `Messenger.HeadsAreWordStarts` | src/pages/Index.tsx:98 | The first characters of the split parts, joined with undefined entries as empty strings, are the characters that start a word. The first characters of every part after the first are the word starts after a non-space. |
| `Messenger.Initials` | src/pages/Index.tsx:98 | The avatar initials are the first character of every space-separated word of the name, in order. The empty parts that repeated, leading or trailing spaces produce contribute nothing. The header avatar (`src/pages/Index.tsx:169`) applies the same expression to the selected chat's name. |
| `Messenger.ConsecutiveIdsIncrease` | src/pages/Index.tsx:34-40 | When message identifiers run 1..n by position, they strictly increase along the list, so they are unique keys. |
| `Messenger.AppendKeepsIdsConsecutive` | src/pages/Index.tsx:52-57 | Appending a message whose identifier is the old length plus one keeps identifiers consecutive. |
| `Messenger.IndexPage.constructor` | src/pages/Index.tsx:43-47 | The initial state is the chats tab, the first seed chat selected, the five seed messages, and empty composer and search text. The page's chat list is the seed list. The invariant holds. |
| `Messenger.IndexPage.FilteredChats` | src/pages/Index.tsx:62-64 | The listed chats are exactly the page's chats, which are the seed chats, whose lower-cased name includes the lower-cased current query. |
| `Messenger.IndexPage.SendMessage` | src/pages/Index.tsx:49-60 | A blank composer leaves the messages and the composer unchanged. Otherwise exactly one message is appended, with id old length + 1, the untrimmed text, the given time and `sent` true, and the composer becomes empty. Tab, selection and query are unchanged, and identifiers stay consecutive. |
| `Messenger.IndexPage.SelectChat` | src/pages/Index.tsx:86-89 | The clicked chat, one of the listed chats, becomes the selection. Messages, tab, composer and query are unchanged, because the one message list is shared by all chats. |
| `Messenger.IndexPage.Back` | src/pages/Index.tsx:163 | The selection is cleared and nothing else changes. |
| `Messenger.IndexPage.SwitchTab` | src/pages/Index.tsx:252-255 | The tab is set and the selection cleared, whatever it was. Messages, composer and query are unchanged. |
| `Messenger.IndexPage.SetSearchQuery` | src/pages/Index.tsx:78 | The query is replaced verbatim and nothing else changes. |
| `Messenger.IndexPage.SetMessageText` | src/pages/Index.tsx:223 | The composer text is replaced verbatim and nothing else changes. |
| `Scenarios.SearchAnnaExample` | src/pages/Index.tsx:26-32 | On the seed chats, the query "Анна" leaves only "Анна Смирнова". |
| `Scenarios.InitialsExample` | src/pages/Index.tsx:27 | The initials of "Анна Смирнова" are "АС". |

## Left out

- Rendering: the JSX layout, CSS class strings, responsive hidden/flex panes and the unread badge (`src/pages/Index.tsx:66-265`). These are presentation only.
- The UI library components `Icon`, `Avatar`, `Input`, `Button`, `Badge` and `ScrollArea`. They are external code that the model cannot see.
- The clock and locale formatting of a sent message's time (`toLocaleTimeString('ru-RU', …)`). `SendMessage` takes the time string as a parameter.
- Strings.LowerCase: the case mapping is a per-character function supplied by the caller. Unicode mappings that change the length (such as U+0130) and context-dependent ones (final sigma) are not modelled. `Scenarios.CyrillicLower` covers only basic Latin and Cyrillic capitals.
- Messenger.FirstChar: strings are sequences of Unicode scalar values, so `n[0]` yields a whole character. JavaScript's UTF-16 indexing, which returns half of a surrogate pair for characters outside the Basic Multilingual Plane, is not modelled.
- Strings.IsWhiteSpace: the Unicode "Zs" category is fixed at its current members. It does not follow later Unicode versions.
- React's state scheduling, batching and stale closures. Each handler is one atomic transition on the current state.
- Selecting a chat by identifier, with a no-op when the identifier is unknown, is not modelled. The code at `src/pages/Index.tsx:89` does no lookup: it sets the chat object whose button was clicked, and the model does the same.
- Per-conversation message histories. The code keeps one message list that every chat shows and appends to, and the model keeps it that way.
