# Game Forum: a verified model of the forum page's state logic

The forum is a single-page React mock-up. A page (`src/pages/Index.tsx`) holds a list of
sections, each with topics. An administrator can pin, lock, hide or author-ban each topic;
the page also keeps the selected topic, an admin-mode switch and the forum's name. Around it
sit a section list that filters hidden topics, a topic view with a thread of posts, a
sign-in dialog, a ban panel and a header whose title can be renamed.

This project models that state logic in Dafny and proves what each handler promises:

- `text.dfy` (`Text`): the JavaScript string operations the handlers rely on. `trim` strips
  the ECMAScript white-space and line-terminator set. `toLowerCase` covers ASCII and basic
  Cyrillic letters. `.length` counts UTF-16 code units. `String(n)` is the decimal rendering.
- `seqs.dfy` (`Seqs`): `filter` and a first-match search with their order and search facts.
  The source's `find` calls become that search for the first matching position, followed by
  indexing at it.
- `catalog.dfy` (`Catalog`): the `Topic` and `Section` records of `ForumSection.tsx`, the
  per-viewer list of topics, the row icon, the ban marker and the callbacks a row fires.
- `forum_page.dfy` (`ForumPage`): `Index.tsx`. Its pure part is the `updateTopic` rewrite of
  `sections`, the topic lookup and the two totals. The class `Page` holds the page state and
  its handlers. The seed `INITIAL_SECTIONS` is proved to have unique section and topic ids.
- `auth.dfy` (`Auth`): `AuthModal.tsx`. `LoginResult` and `RegisterResult` say what a login
  or a registration ends in. The class `AuthForm` holds the dialog's fields, and its early-return
  handlers are proved against those two functions.
- `moderation.dfy` (`Moderation`): `AdminPanel.tsx`. It has the ban-request normalisation,
  the button and badge conditions, and the class `BanForm`.
- `thread.dfy` (`Thread`): `TopicView.tsx`. It has the seed thread, adding and hiding posts,
  the per-viewer filter, the lock gate and the class `ThreadView`.
- `header.dfy` (`Header`): `ForumHeader.tsx`. It has the rename result and the two-field
  editor class `Editor`.
- `wrappers.dfy` (`Wrappers`): `Option` and `Result`.

Callback props (`onAuth`, `onRegister`, `onClose`, `onBanUser`, `onUnbanUser`, `onNameChange`)
are not modelled as calls. Each becomes the value a handler returns: the effects it fires, the
ban request, or the new name. The clock and the random number generator (`Date.now()`,
`toLocaleDateString`, the `Math.random` author suffix) become parameters (`id`, `date`, `roll`).

Two behaviours one might expect are not in the code, and the model follows the code:

- One might expect a reply to a locked topic to be rejected. `handleAddPost` does not check
  the lock; the topic view just renders no reply form for a locked topic. `ThreadView.AddPost`
  therefore has no lock condition, and `ThreadView.Reply` models pressing the rendered form.
- One might expect a signed-in user's role to drive admin mode. The page's `isAdmin` is a
  plain switch toggled from the header, so no link between the two is modelled.

## Model

| member | source | states |
|---|---|---|
| Text.Trim | src/components/ForumHeader.tsx:18-19 | `trim` never lengthens a string |
| Text.TrimmedEdges | src/components/ForumHeader.tsx:19 | a trimmed string neither starts nor ends with white space |
| Text.TrimIsMiddle | src/components/ForumHeader.tsx:19 | `trim` keeps the middle of the string: once the leading white space is dropped it is a prefix of the rest, and only white space follows it |
| Text.TrimEmptyIff | src/components/ForumHeader.tsx:18 | `!s.trim()` holds exactly when every character of `s` is white space |
| Text.TrimIdempotent | src/components/ForumHeader.tsx:19 | trimming a trimmed string changes nothing |
| Text.Lower | src/components/AuthModal.tsx:43 | `toLowerCase` keeps the length and lowercases character by character |
| Text.JsLength | src/components/AuthModal.tsx:63-67 | `.length` counts between one and two code units per character |
| Text.JsLengthBasicPlane | src/components/AuthModal.tsx:63-67 | for names and passwords without supplementary-plane characters, `.length` is the character count |
| Text.Decimal | src/components/TopicView.tsx:36 | `String(n)` is a non-empty string of decimal digits with no leading zero |
| Text.DecimalRoundTrip | src/components/TopicView.tsx:36 | the decimal rendering of a number reads back as that number |
| Seqs.Filter | src/components/ForumSection.tsx:36 | the filtered list is no longer than the input and holds only elements that satisfy the predicate |
| Seqs.FilterMultiset | src/components/ForumSection.tsx:36 | every element that satisfies the predicate is kept as often as it occurs; no other element is kept |
| Seqs.FilterSubsequence | src/components/ForumSection.tsx:36 | the filtered list keeps the original relative order |
| Seqs.FilterUnique | src/components/ForumSection.tsx:36 | any order-preserving selection with those elements equals the filtered list |
| Seqs.FilterAppend | src/components/TopicView.tsx:47 | filtering a list with one element appended filters the list, then keeps or drops the new element |
| Seqs.FilterEmptyIff | src/components/ForumSection.tsx:53 | the filtered list is empty exactly when no element satisfies the predicate |
| Seqs.FindIndex | src/pages/Index.tsx:117-118 | `None` exactly when no element matches; otherwise the first matching position |
| Catalog.Toggled | src/pages/Index.tsx:97-111 | a toggle's updater flips its own flag and keeps the other three flags and every other field |
| Catalog.ToggledTwice | src/pages/Index.tsx:97-111 | flipping the same flag twice gives back the topic |
| Catalog.ToggledCommute | src/pages/Index.tsx:97-111 | two toggles give the same topic in either order |
| Catalog.VisibleTopics | src/components/ForumSection.tsx:36 | an admin gets every topic in order; anyone else gets exactly the unhidden topics, in order, each as often as in the section |
| Catalog.TopicCount | src/components/ForumSection.tsx:49 | the header count is every topic for an admin and never more than the section holds |
| Catalog.ShowsEmptyNotice | src/components/ForumSection.tsx:53-56 | the empty-section notice appears for an admin exactly when the section has no topics, and for others exactly when every topic is hidden |
| Catalog.TopicCountNonAdmin | src/components/ForumSection.tsx:36-49 | the count a non-admin sees is the number of topics minus the hidden ones |
| Catalog.RowIndicator | src/components/ForumSection.tsx:65-71 | pin icon exactly when pinned, lock icon exactly when locked and not pinned, message icon otherwise |
| Catalog.IndicatorPrecedence | src/components/ForumSection.tsx:65-71 | locking a pinned topic keeps the pin icon; hiding or banning never changes the icon |
| Catalog.BanMarkerToggles | src/components/ForumSection.tsx:82-87 | only the ban toggle switches the ban marker, and it always does |
| Catalog.RowActions | src/components/ForumSection.tsx:76-133 | each row callback carries `(section.id, topic.id)`; opening is always offered; each of the four moderation callbacks is offered exactly when the viewer is an admin |
| ForumPage.MapTopics | src/pages/Index.tsx:91 | same length; a topic with the matching id is replaced by the updater's result, every other topic is kept |
| ForumPage.WithTopicUpdated | src/pages/Index.tsx:87-95 | number and order of sections and of each section's topics are kept; a topic changes only when both its section id and its own id match the address; section headers never change |
| ForumPage.UnresolvedLeavesSections | src/pages/Index.tsx:88-93 | an address that names no topic leaves `sections` as it was |
| ForumPage.ToggleTwiceRestores | src/pages/Index.tsx:97-111 | applying the same toggle handler twice restores `sections` |
| ForumPage.ToggleFlipsOneFlag | src/pages/Index.tsx:97-111 | after a toggle, each topic keeps its data and other flags; its own flag flips exactly when the topic is addressed |
| ForumPage.TotalTopics | src/pages/Index.tsx:120 | `totalTopics` is zero exactly when every section is empty, and at least any one section's topic count |
| ForumPage.TotalPosts | src/pages/Index.tsx:121 | `totalPosts` is zero when every section is empty; with no negative reply counter it is non-negative and at least any one section's sum |
| ForumPage.TotalsKept | src/pages/Index.tsx:120-121 | an updater that keeps ids and reply counts keeps `totalTopics` and `totalPosts` |
| ForumPage.ToggleKeepsTotals | src/pages/Index.tsx:120-121 | no flag toggle changes `totalTopics` or `totalPosts` |
| ForumPage.CurrentTopic | src/pages/Index.tsx:117-118 | nothing is current without a selection; a current topic belongs to a listed section with the selected section id and has the selected topic id |
| ForumPage.ShowsTopicView | src/pages/Index.tsx:133 | the topic view is shown only for a selection whose address names a topic |
| ForumPage.ShowsTopicViewIff | src/pages/Index.tsx:117-133 | with distinct section ids, the topic view is shown exactly when some section with the selected id holds a topic with the selected id |
| ForumPage.ViewSurvivesUpdate | src/pages/Index.tsx:117-133 | an id-keeping update neither opens nor closes the topic view |
| ForumPage.IdsKept | src/pages/Index.tsx:87-95 | an id-keeping update keeps the list of topic ids and the distinctness of section ids |
| ForumPage.SameIdSameTopic | src/pages/Index.tsx:15-76 | with distinct topic ids, two positions holding the same id are the same position |
| ForumPage.AddressUnambiguous | src/pages/Index.tsx:87-95 | with distinct section ids and topic ids, at most one topic answers an address |
| ForumPage.SeedIdsDistinct | src/pages/Index.tsx:7-79 | the seed sections have distinct ids, and the seventeen seed topics have distinct ids across all sections |
| ForumPage.SeedTopicCount | src/pages/Index.tsx:120 | the seed holds seventeen topics |
| ForumPage.Page.constructor | src/pages/Index.tsx:82-85 | the page starts as "Game Forum", in user mode, with the seed sections, nothing selected, and the id invariant holding |
| ForumPage.Page.UpdateTopic | src/pages/Index.tsx:87-95 | `sections` becomes the rewritten list and nothing else changes; an id-keeping updater keeps the topic ids and the invariant |
| ForumPage.Page.Toggle | src/pages/Index.tsx:97-111 | a pin, lock, hide or ban handler rewrites `sections` with its flag's updater; it keeps the invariant, both totals and whether the topic view is open |
| ForumPage.Page.SelectTopic | src/pages/Index.tsx:113-115 | the selection becomes the given address and nothing else changes |
| ForumPage.Page.Dispatch | src/pages/Index.tsx:157-161 | a row's open callback selects its topic; a moderation callback runs its toggle on the row's address |
| ForumPage.Page.Back | src/pages/Index.tsx:138 | the selection is cleared and the section list is shown |
| ForumPage.Page.ToggleAdmin | src/pages/Index.tsx:129 | `isAdmin` is negated and nothing else changes, so two presses restore it |
| ForumPage.Page.StartRename | src/pages/Index.tsx:125-130 | the header's pencil, given the page's mode and name, opens the editor on the forum name only for an admin whose editor is closed; in user mode the editor is left as it was |
| ForumPage.Page.SaveName | src/pages/Index.tsx:126-127 | the header's save renames the forum to the trimmed input when it is not blank, keeps the name otherwise, and closes the editor |
| Header.SaveResult | src/components/ForumHeader.tsx:17-22 | no new name exactly when the input is blank; otherwise the trimmed, non-empty input |
| Header.SavedNameIsTrimmed | src/components/ForumHeader.tsx:19 | a saved name is already trimmed |
| Header.Editor.constructor | src/components/ForumHeader.tsx:14-15 | the editor starts closed, holding the current name |
| Header.Editor.StartEdit | src/components/ForumHeader.tsx:53 | the pencil copies the forum name into the input and opens the editor |
| Header.Editor.PressPencil | src/components/ForumHeader.tsx:51-58 | the pencil exists only for an admin while the title is not being edited: pressing it there opens the editor on the forum name, and in every other state nothing changes |
| Header.Editor.SetEditValue | src/components/ForumHeader.tsx:36 | typing replaces the input and keeps the editor state |
| Header.Editor.Save | src/components/ForumHeader.tsx:17-22 | save hands over `SaveResult` of the input and closes the editor whatever the outcome |
| Header.Editor.Cancel | src/components/ForumHeader.tsx:44 | cancel closes the editor and hands over nothing |
| Auth.LoginResult | src/components/AuthModal.tsx:37-52 | "Заполните все поля" exactly when a trimmed field is blank; "Пользователь не найден" exactly when the fields are filled and no user matches; otherwise the first user whose lowercased name equals the lowercased trimmed input |
| Auth.LoginIgnoresPassword | src/components/AuthModal.tsx:38-49 | any two non-blank passwords give the same login outcome |
| Auth.LoginCaseInsensitive | src/components/AuthModal.tsx:42-44 | names equal up to case and surrounding white space give the same login outcome |
| Auth.NewUser | src/components/AuthModal.tsx:78-83 | the new record has role "user" and the given id and date |
| Auth.NewUserNameTrimmed | src/components/AuthModal.tsx:80 | the new record's name is already trimmed, and it is empty exactly when the input was blank |
| Auth.RegisterResult | src/components/AuthModal.tsx:54-83 | the checks run in order with the first failure winning: blank field, password mismatch compared untrimmed, trimmed name shorter than 3, untrimmed password shorter than 4, name taken; success exactly when all pass, with the trimmed name, role "user" and the given id and date |
| Auth.RegisterKeepsNamesUnique | src/components/AuthModal.tsx:71-84 | adding a freshly registered user keeps the names unique up to case |
| Auth.RegisterThenLogin | src/components/AuthModal.tsx:71-83 | a user just registered logs in with the name they registered under |
| Auth.AuthForm.constructor | src/components/AuthModal.tsx:22-26 | the dialog starts on the login tab with every field empty |
| Auth.AuthForm.Reset | src/components/AuthModal.tsx:30-35 | the three inputs and the error are cleared |
| Auth.AuthForm.SelectTab | src/components/AuthModal.tsx:106-118 | a tab button switches tab and clears the error only |
| Auth.AuthForm.SetUsername | src/components/AuthModal.tsx:126 | typing a name replaces it and clears the error |
| Auth.AuthForm.SetPassword | src/components/AuthModal.tsx:136 | typing a password replaces it and clears the error |
| Auth.AuthForm.SetConfirm | src/components/AuthModal.tsx:148 | typing the confirmation replaces it and clears the error |
| Auth.AuthForm.Login | src/components/AuthModal.tsx:37-52 | on success it fires `onAuth` with the found user, then `onClose`, and clears the form; on failure it shows `LoginResult`'s error, fires nothing and keeps the inputs |
| Auth.AuthForm.Register | src/components/AuthModal.tsx:54-88 | on success it fires `onRegister`, `onAuth` with the new user, then `onClose`, and clears the form; on failure it shows the first failing check's error, fires nothing and keeps the inputs |
| Auth.AuthForm.Submit | src/components/AuthModal.tsx:139-164 | the submit button and Enter run the login on the login tab and the registration on the other, with that handler's effects, inputs and error |
| Moderation.NormalizeBan | src/components/AdminPanel.tsx:29-34 | no request exactly when the name is blank; otherwise the trimmed non-empty name, with the trimmed reason or "Нарушение правил" when the reason is blank |
| Moderation.BanRequestNormalized | src/components/AdminPanel.tsx:31 | a request's name and reason are non-empty and trimmed; normalising it again gives the same request |
| Moderation.BanButtonDisabled | src/components/AdminPanel.tsx:89 | the ban button is disabled exactly when the name is all white space |
| Moderation.ButtonDisabledIff | src/components/AdminPanel.tsx:89 | the ban button is disabled exactly when a submit would be ignored |
| Moderation.Badge | src/components/AdminPanel.tsx:62-64 | the badge is shown exactly when the list is non-empty, and it shows the list's length; the "no bans" notice of the list tab shows in exactly the other case |
| Moderation.UnbanTargets | src/components/AdminPanel.tsx:105-116 | each row's unban button passes that record's own id |
| Moderation.BanForm.constructor | src/components/AdminPanel.tsx:23-25 | both inputs start empty on the ban tab |
| Moderation.BanForm.SetName | src/components/AdminPanel.tsx:74 | typing the name replaces it only |
| Moderation.BanForm.SetReason | src/components/AdminPanel.tsx:83 | typing the reason replaces it only |
| Moderation.BanForm.SelectTab | src/components/AdminPanel.tsx:52-58 | a tab button switches tab only |
| Moderation.BanForm.Ban | src/components/AdminPanel.tsx:29-34 | it hands over `NormalizeBan` of the inputs; a submitted ban clears both inputs, a rejected one leaves them as they were |
| Thread.AuthorLabel | src/components/TopicView.tsx:36 | "Admin" for an admin; otherwise "User_" followed by digits with no leading zero that read back as the random number |
| Thread.NewPost | src/components/TopicView.tsx:33-39 | no post exactly when the draft is blank; otherwise a post with the given id, the author label, the trimmed non-empty content, date "Сейчас" and not hidden |
| Thread.AddedPosts | src/components/TopicView.tsx:33-39 | a blank draft leaves `posts` as it was; otherwise exactly one post is appended and the earlier posts are unchanged |
| Thread.AddedPostVisible | src/components/TopicView.tsx:34-47 | a new post appears to every viewer at the end of what they saw before |
| Thread.HideToggled | src/components/TopicView.tsx:44 | length, order and all other fields are kept; `isHidden` flips exactly on the posts with the given id |
| Thread.HideTwice | src/components/TopicView.tsx:44 | hiding the same post twice restores the thread |
| Thread.VisiblePosts | src/components/TopicView.tsx:47 | an admin sees every post; anyone else sees exactly the unhidden posts, in order |
| Thread.MockPostsAllVisible | src/components/TopicView.tsx:22-26 | the seed thread hides nothing, so every viewer sees all of it |
| Thread.ReplyDisabled | src/components/TopicView.tsx:103 | the reply button is disabled exactly when the draft is all white space |
| Thread.ReplyDisabledIff | src/components/TopicView.tsx:103 | the reply button is disabled exactly when pressing it would add nothing |
| Thread.ThreadView.constructor | src/components/TopicView.tsx:29-30 | the view starts with the seed thread and an empty draft |
| Thread.ThreadView.SetDraft | src/components/TopicView.tsx:99 | typing replaces the draft only |
| Thread.ThreadView.AddPost | src/components/TopicView.tsx:32-41 | `posts` becomes `AddedPosts` of the draft; the draft is cleared after an add and kept after a blank one |
| Thread.ThreadView.Reply | src/components/TopicView.tsx:95-115 | a locked topic shows the closed notice instead of the form, so nothing changes; otherwise the reply adds the post, and the draft is cleared after an add and kept after a blank one |
| Thread.ThreadView.HidePost | src/components/TopicView.tsx:43-45 | `posts` becomes `HideToggled` of the given id and the draft is kept |

## Left out

- `src/components/ForumStats.tsx` renders the numbers it is given; the hard-coded user and
  online counts of `src/pages/Index.tsx:142` are constants with no logic.
- JSX markup, CSS classes, icons, hover effects and the open/close rendering of the dialogs.
- The stores behind the callback props: the registered-user list, the ban list with its ban
  and unban mutations, and any session. The model states the arguments each callback receives.
- Password storage and checking: the code never compares a password with anything stored.
- React hooks and re-rendering: each handler is one atomic step on its component's state.
- Text.Lower: lowercases ASCII and basic Cyrillic (U+0400 to U+042F) only, not the full
  Unicode case mapping of `toLowerCase`.
- Text.JsLength: a Dafny `char` is a Unicode scalar value, so lone surrogates in a JavaScript
  string cannot be represented.
- Thread.AuthorLabel: `roll` is any natural number; the source draws it from 0 to 999.
- ForumPage.SeedTopicCount: the seed's reply total (`totalPosts` at start) is not stated.
