# db_team feed store and client helpers, in Dafny

db_team is a small photo-and-text social feed written in Java and Swing.
Users sign up and log in. They post a picture with a text body, see the
newest posts, search them, and press LIKE or DISLIKE. They comment, and
they edit or delete their own posts.

Everything goes through one contract, `SnsPort`. This project models:

- the contract's records, its reaction states and its default methods (`SnsPort`);
- its three backends:
  - the in-memory store `FakeSnsAdapter` (`FakeSns`);
  - the current relational store `MySnsPort` over the USER, POST, REACTION and COMMENT tables (`MySns`);
  - the older relational store of the `TwitterLiteTest` tree, over USER, POST, LIKE_OR_DISLIKE and COMMENT (`LegacyMySns`);
- the four client classes that carry logic of their own:
  - the post form (`PostWriteForm`);
  - the sign-up form (`SignupForm`);
  - the feed table (`PostListView`);
  - the post detail window (`PostDetail`).

The feed table and the post detail window are modelled over the current
relational store (`MySns.MySnsPort`), the only store in the `src` tree that
implements the whole current contract.

Shared modules:

- `JavaLang`: the `java.lang.String` operations the code relies on, such as trim, isBlank and toLowerCase.
- `Ordering`: `ORDER BY … DESC LIMIT n`, `Stream.sorted(...).limit(n)` and reversal.
- `SqlText`: SQL `=` and `LIKE` under an abstract collation.
- `FileLookup`: the "first candidate path that is a regular file" loop that both windows use.

`BackendAgreement` proves that the three stores agree on reactions. Each
relational table, read per post, is the in-memory store's reaction map.
Each store's toggle makes the same transition on that map. The counts and
states they report are equal.

Modelling conventions:

- A Java `null` is `Option.None`.
- Each SQL statement is the map update it denotes on tables keyed by their primary keys. AUTO_INCREMENT counters are fields.
- Clock readings (`NOW()`, `now()`, `System.currentTimeMillis()`) are parameters.
- The file system is a parameter: which paths are regular files, the absolute path of each, and the separator.
- What the user types or picks in a dialog is a method parameter.
- The collation of the text columns is the parameter `fold`, a map applied to each character. The collation is not part of the repository, so nothing here assumes case sensitivity or insensitivity. It covers collations that compare character by character; the kinds it cannot express are listed under Left out.
- `LIKE` follows MySQL's default escape character: `\` makes the next pattern character literal, and a trailing `\` is itself literal.
- Java's case mappings (`Character.toUpperCase`, `Character.toLowerCase`, and the locale-dependent `String.toLowerCase()`) are the parameter `cases`. The Unicode tables and the default locale are not part of this model, so nothing here fixes them.
- Where the database leaves an order open among rows with equal upload times, the model breaks ties by row id, which is one order the database may return.
- A login query has no ORDER BY: when several rows match, the model returns any one of them.

## Model

| member | source | states |
|---|---|---|
| JavaLang.TrimStart | src/ui/PostWriteDialog.java:264-266 | the number of leading characters `trim` drops: all are at most U+0020, and the next one is not |
| JavaLang.TrimEnd | src/ui/PostWriteDialog.java:264-266 | the length left once trailing characters at most U+0020 are dropped |
| JavaLang.Trim | src/ui/PostWriteDialog.java:264-266 | `String.trim`: empty exactly when every character is at most U+0020; otherwise starts and ends with a kept character; a contiguous slice of the input |
| JavaLang.TrimIdempotent | src/ui/PostWriteDialog.java:264-266 | trimming twice is trimming once |
| JavaLang.TrimAndBlankDisagree | src/ui/PostWriteDialog.java:264-266 | `isBlank` and `trim` disagree both ways: NUL is not white space but is trimmed; U+3000 is white space but is kept |
| JavaLang.MapChars | src/service/port/MySnsPort.java:18 | the collation's per-character map, as `=` and LIKE apply it: the length is kept and each position is mapped |
| JavaLang.DecimalString | TwitterLiteTest/src/service/port/MySnsPort.java:34-36 | the decimal rendering of a long: non-empty, digits only, no leading zero |
| JavaLang.DecimalStringInjective | TwitterLiteTest/src/service/port/MySnsPort.java:34-36 | different values have different decimal renderings |
| JavaLang.IntString | src/ui/PostListPanel.java:254 | the ID cell's text: the digits of the id, after a minus sign for a negative one |
| JavaLang.IntStringInjective | src/ui/PostListPanel.java:254 | two ids show the same text exactly when they are equal |
| SnsPort.ReactionName | src/service/port/SnsPort.java:38 | a reaction travels as one of "NONE", "LIKE", "DISLIKE" |
| SnsPort.ReactionNameInjective | src/service/port/SnsPort.java:38 | distinct reactions travel as distinct strings |
| SnsPort.Toggled | src/service/fake/FakeSnsAdapter.java:111-112 | the next state is the requested one or NONE; pressing the held state gives NONE; for LIKE or DISLIKE, NONE exactly when it was held |
| SnsPort.LocalEmail | src/service/port/SnsPort.java:29-31 | the default two-argument register uses the e-mail address `username + "@local"` |
| SnsPort.DefaultLoginByEmail | src/service/port/SnsPort.java:21-23 | the default e-mail login finds nobody |
| SnsPort.DefaultRegister | src/service/port/SnsPort.java:25-27 | the default three-argument register fails as unsupported |
| SnsPort.DefaultRegisterWithoutEmail | src/service/port/SnsPort.java:29-31 | the default two-argument register delegates with `username@local` and so fails as well |
| Ordering.Take | src/service/fake/FakeSnsAdapter.java:92 | `limit(n)`: a prefix of length min(n, size), none for n ≤ 0 |
| Ordering.Reverse | src/service/fake/FakeSnsAdapter.java:91 | position i holds the element at position size-1-i |
| Ordering.ReverseSameMembers | src/service/fake/FakeSnsAdapter.java:91 | reversal keeps the same elements |
| Ordering.TopExists | src/service/port/MySnsPort.java:94 | every non-empty set of rows has a first row in the descending order |
| Ordering.Top | src/service/port/MySnsPort.java:94 | the first row in the descending order |
| Ordering.SortDesc | src/service/port/MySnsPort.java:94 | `ORDER BY … DESC`: every row exactly once, strictly descending |
| Ordering.TopN | src/service/port/MySnsPort.java:94-95 | `ORDER BY … DESC LIMIT n`: min(n, rows) rows from the set, descending; every row left out ranks below every row kept |
| Ordering.TakeSortedKeepsTop | src/service/port/MySnsPort.java:94-95 | cutting a descending list keeps the top rows |
| Ordering.TextBeforeIrreflexive | src/ui/PostListPanel.java:60 | in the text order the sorter uses, no text comes before itself |
| Ordering.TextBeforeTransitive | src/ui/PostListPanel.java:60 | the text order is transitive |
| Ordering.TextBeforeTotal | src/ui/PostListPanel.java:60 | of two different texts one comes first |
| SqlText.LikeAnything | src/service/port/MySnsPort.java:134 | `%` matches every string |
| SqlText.LikeLiteralPrefix | src/service/port/MySnsPort.java:134 | `k%`, for k with no `%`, `_` or `\`, matches exactly the strings that start with k under the collation |
| SqlText.LikeAnySuffix | src/service/port/MySnsPort.java:134 | `%q` matches every string that ends in a match of q |
| SqlText.LikeContains | src/service/port/MySnsPort.java:134 | `%k%`, for k with no `%`, `_` or `\`, matches exactly the strings that contain k under the collation |
| SqlText.LikeEmptyKeyword | src/service/port/MySnsPort.java:134 | the pattern built from an empty keyword matches every string |
| SqlText.EscapeInKeyword | src/service/port/MySnsPort.java:134 | a keyword holding `\` is not searched for literally: `%a\b%` matches "ab", which does not contain `a\b` |
| FakeSns.React | src/service/fake/FakeSnsAdapter.java:124-128 | afterwards the user's state is the given one (NONE as no entry); other users' entries are unchanged; no entry says NONE |
| FakeSns.CardWithout | src/service/fake/FakeSnsAdapter.java:126 | removing one user changes the number of holders by exactly one or zero |
| FakeSns.OthersKeepHolding | src/service/fake/FakeSnsAdapter.java:124-128 | a reaction by one user leaves every other user's holding unchanged |
| FakeSns.ReactCounts | src/service/fake/FakeSnsAdapter.java:124-128 | a reaction moves each count by at most one: the old state's count drops by one and the new state's rises by one |
| FakeSns.FindPost | src/service/fake/FakeSnsAdapter.java:130-133 | the position of the first post with that id; none exactly when no post has it |
| FakeSns.AuthorName | src/service/fake/FakeSnsAdapter.java:135-137 | the first user's name with that id, "Unknown" when there is none |
| FakeSns.FirstLogin | src/service/fake/FakeSnsAdapter.java:80-84 | the first user whose name passes equalsIgnoreCase under Java's case mappings and whose password is equal; none exactly when no user passes |
| FakeSns.FilterMatching | src/service/fake/FakeSnsAdapter.java:99-101 | the filter keeps stored order: ascending ids stay ascending, and the result is no longer than the input |
| FakeSns.FilterMatchingSelects | src/service/fake/FakeSnsAdapter.java:139-142 | the filter keeps exactly the posts whose lower-cased file name or author name contains the lower-cased keyword, under Java's case mappings |
| FakeSns.EmptyKeywordKeepsAll | src/service/fake/FakeSnsAdapter.java:140 | the empty keyword keeps every post |
| FakeSns.Views | src/service/fake/FakeSnsAdapter.java:144-156 | one view per post, position by position |
| FakeSns.Newest | src/service/fake/FakeSnsAdapter.java:90-92 | with ids in storage order, sort-by-id-descending then limit gives the last `limit` posts, newest first; every post left out is older |
| FakeSns.Ranked | src/service/fake/FakeSnsAdapter.java:90-93 | sort by id descending, limit, then view: min(limit, posts) views, strictly descending ids, position i the i-th newest post, every post left out older, none for a negative limit |
| FakeSns.FakeSnsAdapter.constructor | src/service/fake/FakeSnsAdapter.java:39-61 | the seeded state: Alice, Bob and Charlie with "1111", four posts, Alice's LIKE on post 1 and Bob's DISLIKE on post 3; the given case mappings |
| FakeSns.FakeSnsAdapter.Login | src/service/fake/FakeSnsAdapter.java:76-85 | both inputs trimmed, null read as ""; the first user passing the login test, none when nobody does |
| FakeSns.FakeSnsAdapter.ListRecent | src/service/fake/FakeSnsAdapter.java:89-95 | fails exactly for a negative limit; otherwise min(limit, posts) views, strictly descending ids, position i the i-th newest post, and every post left out is older |
| FakeSns.FakeSnsAdapter.Search | src/service/fake/FakeSnsAdapter.java:98-106 | fails exactly for a negative limit; otherwise Ranked over the posts passing the filter for the trimmed keyword (null read as ""), which stay in ascending id order |
| FakeSns.FakeSnsAdapter.EmptyTrimmedSearchIsListRecent | src/service/fake/FakeSnsAdapter.java:98-106 | a null keyword, or one that trims to empty, searches exactly like listRecent lists (a blank keyword that trim keeps, such as U+3000, is searched for as it is) |
| FakeSns.FakeSnsAdapter.ReactOn | src/service/fake/FakeSnsAdapter.java:124-128 | only the named post's reaction map changes, as React says |
| FakeSns.FakeSnsAdapter.ToggleReaction | src/service/fake/FakeSnsAdapter.java:109-115 | unknown post: fails with nothing changed; otherwise returns Toggled(previous, requested) and stores it for that user on that post only |
| FakeSns.FakeSnsAdapter.CreatePost | src/service/fake/FakeSnsAdapter.java:117-120 | appends a post with the next id and no reactions; its id is above every earlier id |
| MySns.NameLogins | src/service/port/MySnsPort.java:18 | exactly the rows whose name and password are equal under the collation |
| MySns.EmailLogins | src/service/port/MySnsPort.java:34 | exactly the rows whose e-mail address and password are equal under the collation |
| MySns.NameLoginUnique | src/service/port/MySnsPort.java:18-25 | with unique accounts a name login selects at most one row |
| MySns.EmailLoginUnique | src/service/port/MySnsPort.java:34-41 | with unique accounts an e-mail login selects at most one row |
| MySns.RegisteredNameTaken | src/service/port/MySnsPort.java:51-56 | a name just registered fails the duplicate test for any later e-mail address |
| MySns.InsertKeepsUnique | src/service/port/MySnsPort.java:49-73 | inserting an account that passed the duplicate test keeps names and addresses unique |
| MySns.Joined | src/service/port/MySnsPort.java:92-93 | exactly the posts whose author row exists |
| MySns.RowCountIsHolders | src/service/port/MySnsPort.java:89-90 | the COUNT(*) of a post's rows of one type is the number of users holding it |
| MySns.FirstOfPairs | src/service/port/MySnsPort.java:89-90 | rows of one post are as many as their distinct users, because (User_id, Post_id) is the key |
| MySns.Page | src/service/port/MySnsPort.java:94-95 | `ORDER BY Post_id DESC LIMIT`: min(limit, rows) ids, strictly descending, every id left out smaller; none for a negative limit |
| MySns.SearchRows | src/service/port/MySnsPort.java:127 | exactly the joined posts whose text, file name or author name is LIKE the pattern |
| MySns.EmptyKeywordSelectsAll | src/service/port/MySnsPort.java:127-134 | the empty keyword selects every joined post |
| MySns.PostComments | src/service/port/MySnsPort.java:230-232 | exactly the post's comments whose author row exists |
| MySns.Thread | src/service/port/MySnsPort.java:233 | every selected comment once, in ascending upload time |
| MySns.ThreadAscending | src/service/port/MySnsPort.java:233 | in a thread the upload times never decrease and no comment repeats |
| MySns.MySnsPort.constructor | src/service/port/MySnsPort.java:10-12 | a port on a database in the given state |
| MySns.MySnsPort.Login | src/service/port/MySnsPort.java:17-30 | null exactly when no row has that name and password; otherwise one such row's id and name |
| MySns.MySnsPort.LoginByEmail | src/service/port/MySnsPort.java:33-46 | null exactly when no row has that address and password; otherwise one such row's id and name |
| MySns.MySnsPort.Register | src/service/port/MySnsPort.java:49-78 | null with nothing inserted when the name or address is taken; otherwise one row with the next id; account uniqueness preserved |
| MySns.MySnsPort.RegisterWithoutEmail | src/service/port/SnsPort.java:29-31 | the inherited two-argument register with `username@local`, with the same outcome |
| MySns.MySnsPort.ListRecent | src/service/port/MySnsPort.java:83-113 | one view per id of Page over the joined posts, in that order |
| MySns.MySnsPort.Search | src/service/port/MySnsPort.java:116-152 | one view per id of Page over the posts matching `%keyword%`, in that order |
| MySns.MySnsPort.ToggleReaction | src/service/port/MySnsPort.java:157-200 | deletes a row of the requested type and returns NONE; otherwise updates or inserts the requested type and returns it; equal to Toggled(current state, requested) |
| MySns.MySnsPort.CreatePost | src/service/port/MySnsPort.java:205-216 | one new POST row under the next id, with no update time |
| MySns.MySnsPort.CreatePostWithoutText | src/service/port/MySnsPort.java:218-221 | the four-argument form with the empty text |
| MySns.MySnsPort.ListComments | src/service/port/MySnsPort.java:226-247 | one comment view per comment of the thread, oldest first |
| MySns.MySnsPort.AddComment | src/service/port/MySnsPort.java:250-260 | one new COMMENT row under the next id |
| MySns.MySnsPort.DeletePost | src/service/port/MySnsPort.java:263-273 | removes the post only when the caller is its author; otherwise nothing changes |
| MySns.MySnsPort.UpdatePost | src/service/port/MySnsPort.java:276-287 | the author's own post gets the new text and update time; every other row is unchanged |
| MySns.RegisterTwice | src/service/port/MySnsPort.java:51-56 | after a successful registration, a second one under the same name fails |
| LegacyMySns.StoredEmail | TwitterLiteTest/src/service/port/MySnsPort.java:34-36 | the given address, or `user<millis>@example.com` when it is null or empty |
| LegacyMySns.Joined | TwitterLiteTest/src/service/port/MySnsPort.java:70-71 | exactly the posts whose author row exists |
| LegacyMySns.Page | TwitterLiteTest/src/service/port/MySnsPort.java:74-75 | `ORDER BY Upload_time DESC LIMIT`: min(limit, rows) ids, upload times non-increasing, every post left out no newer |
| LegacyMySns.BareView | TwitterLiteTest/src/service/port/MySnsPort.java:116-120 | a search row reports zero counts and NONE |
| LegacyMySns.SearchRows | TwitterLiteTest/src/service/port/MySnsPort.java:106-108 | exactly the joined posts whose file name or author name is LIKE the pattern |
| LegacyMySns.ReadFeedRows | TwitterLiteTest/src/service/port/MySnsPort.java:83-95 | the read loop: one view per result row, in order |
| LegacyMySns.ReadSearchRows | TwitterLiteTest/src/service/port/MySnsPort.java:115-121 | the read loop of search: one bare view per result row, in order |
| LegacyMySns.ReadCommentRows | TwitterLiteTest/src/service/port/MySnsPort.java:185-190 | the read loop of listComments: one comment view per result row, in order |
| LegacyMySns.ActionFor | TwitterLiteTest/src/service/port/MySnsPort.java:148-170 | insert only from NONE to a reaction; delete only to NONE; update between reactions; nothing from NONE to NONE |
| LegacyMySns.MySnsPort.constructor | TwitterLiteTest/src/service/port/MySnsPort.java:15-17 | a port on a database in the given state, with no row saying NONE |
| LegacyMySns.MySnsPort.Register | TwitterLiteTest/src/service/port/MySnsPort.java:33-48 | one USER row with the next id, with no duplicate test; the address as StoredEmail gives it |
| LegacyMySns.MySnsPort.ListRecent | TwitterLiteTest/src/service/port/MySnsPort.java:52-100 | one view per id of Page over the joined posts, latest upload first, with row counts and the viewer's state |
| LegacyMySns.MySnsPort.Search | TwitterLiteTest/src/service/port/MySnsPort.java:104-124 | one bare view per id of Page over the matching posts |
| LegacyMySns.MySnsPort.CreatePost | TwitterLiteTest/src/service/port/MySnsPort.java:127-135 | one new POST row under the next id |
| LegacyMySns.MySnsPort.ToggleReaction | TwitterLiteTest/src/service/port/MySnsPort.java:138-173 | returns Toggled(current, requested), and inserts, deletes, updates or keeps the row as ActionFor says; no row ever says NONE |
| LegacyMySns.MySnsPort.ListComments | TwitterLiteTest/src/service/port/MySnsPort.java:177-193 | one comment view per comment of the thread, oldest first |
| LegacyMySns.MySnsPort.AddComment | TwitterLiteTest/src/service/port/MySnsPort.java:196-204 | one new COMMENT row under the next id |
| BackendAgreement.LiveUsers | src/service/port/MySnsPort.java:89-91 | exactly the users holding LIKE or DISLIKE on the post |
| BackendAgreement.PostLive | src/service/fake/FakeSnsAdapter.java:24-25 | a table read as one post's in-memory map: the non-NONE rows, with their types |
| BackendAgreement.StatesAgree | src/service/port/MySnsPort.java:89-91 | the state a relational store reports is the one the in-memory store reports for the same reactions |
| BackendAgreement.CountsAgree | src/service/port/MySnsPort.java:89-90 | the counts a relational store reports are the in-memory store's counts |
| BackendAgreement.OtherPostsUnchanged | src/service/port/MySnsPort.java:168-191 | a change at one (user, post) key changes no other post's map |
| BackendAgreement.MySnsToggleAgrees | src/service/port/MySnsPort.java:157-200 | the current relational toggle changes the post's map exactly as the in-memory react(Toggled(...)) does, and no other post |
| BackendAgreement.LegacyToggleAgrees | TwitterLiteTest/src/service/port/MySnsPort.java:138-173 | so does the older relational toggle, which also keeps NONE out of the table |
| BackendAgreement.RepeatedPresses | src/service/fake/FakeSnsAdapter.java:112 | from NONE, pressing one button n times ends in NONE for even n and in that reaction for odd n |
| BackendAgreement.SwitchIsDirect | src/service/fake/FakeSnsAdapter.java:112 | pressing the other reaction switches to it directly |
| FileLookup.FirstFileIndex | src/ui/PostListPanel.java:214-217 | the position of the first candidate that is a regular file, or the count when none is |
| FileLookup.Lookup | src/ui/PostListPanel.java:214-218 | null exactly when no candidate is a regular file; otherwise the absolute path of the first candidate that is one |
| FileLookup.FirstExisting | src/ui/PostListPanel.java:214-218 | the candidate loop returns Lookup's answer |
| FileLookup.EndsWithAppend | src/ui/PostListPanel.java:206-212 | a joined path ends with the file name |
| PostWriteForm.BlankToNull | src/ui/PostWriteDialog.java:264-266 | null exactly for null or blank input; otherwise the trimmed input |
| PostWriteForm.BlankToNullCanKeepEmpty | src/ui/PostWriteDialog.java:264-266 | blankToNull can return "" and is not idempotent |
| PostWriteForm.PostWriteDialog.constructor | src/ui/PostWriteDialog.java:24-26 | empty fields, not approved |
| PostWriteForm.PostWriteDialog.Fill | src/ui/PostWriteDialog.java:214-217 | the typed or chosen field contents replace the old ones |
| PostWriteForm.PostWriteDialog.Cancel | src/ui/PostWriteDialog.java:163-166 | not approved, closed, fields kept |
| PostWriteForm.PostWriteDialog.Save | src/ui/PostWriteDialog.java:167-170 | approved, closed, fields kept |
| PostWriteForm.PostWriteDialog.FilePath | src/ui/PostWriteDialog.java:190-192 | null exactly when the folder field is blank; otherwise it trimmed |
| PostWriteForm.PostWriteDialog.FileName | src/ui/PostWriteDialog.java:194-198 | null whenever the folder is blank; otherwise null exactly when the name field is blank, else it trimmed |
| PostWriteForm.PostWriteDialog.Content | src/ui/PostWriteDialog.java:200-203 | null exactly when the text is blank; otherwise it trimmed |
| SignupForm.Validate | TwitterLiteTest/src/ui/SignupDialog.java:69-86 | in order: any empty field (name and address trimmed) rejects, then differing passwords, then a password under 4 characters; otherwise accepted with the trimmed name and address |
| SignupForm.AcceptedIsClean | TwitterLiteTest/src/ui/SignupDialog.java:70-87 | an accepted sign-up has a non-empty trimmed name and address and a password of at least 4 characters |
| SignupForm.SignupDialog.constructor | TwitterLiteTest/src/ui/SignupDialog.java:19-21 | empty fields and the do-nothing callback |
| SignupForm.SignupDialog.Fill | TwitterLiteTest/src/ui/SignupDialog.java:70-73 | the typed contents replace the old ones |
| SignupForm.SignupDialog.OnSubmit | TwitterLiteTest/src/ui/SignupDialog.java:92-95 | installs the callback, or the do-nothing one for null, and returns the same form |
| SignupForm.SignupDialog.Cancel | TwitterLiteTest/src/ui/SignupDialog.java:56 | closes the form without calling the callback; fields and callback kept |
| SignupForm.SignupDialog.Submit | TwitterLiteTest/src/ui/SignupDialog.java:69-89 | a rejection calls nothing and keeps the form open; acceptance calls the installed callback once with the trimmed name, trimmed address and password, then closes |
| PostListView.Candidates | src/ui/PostListPanel.java:204-213 | none exactly when folder and name are both blank; folder and name give the one path folder + separator + name; a folder alone gives itself; a name alone gives it in ./images/, ./img/, ./assets/, ./ |
| PostListView.FindExistingPath | src/ui/PostListPanel.java:204-219 | Lookup over those candidates |
| PostListView.PreviewCases | src/ui/PostListPanel.java:152-188 | no attachment named: always the comment offer; otherwise the viewer exactly when a candidate is a file, else a placeholder |
| PostListView.HiddenFields | src/ui/PostListPanel.java:251-263 | the author id, the folder and the text are shown in no column |
| PostListView.CellsDetermineShownFields | src/ui/PostListPanel.java:251-263 | the seven cells determine id, author, file name, time, both counts and state |
| PostListView.ShownAboveTotal | src/ui/PostListPanel.java:58-60 | of two different model rows the sorter shows one above the other |
| PostListView.ShownAboveTransitive | src/ui/PostListPanel.java:58-60 | the sorter's row order is transitive |
| PostListView.AboveAll | src/ui/PostListPanel.java:58-60 | a row shown above the top of a sorted list is shown above all of it |
| PostListView.Insert | src/ui/PostListPanel.java:58-60 | adding one model row to a sorted list keeps it sorted by ID text, with the same rows plus the new one |
| PostListView.SortRows | src/ui/PostListPanel.java:58-60 | the first n model rows, each once, sorted by ID text with ties in model order |
| PostListView.ViewOrder | src/ui/PostListPanel.java:58-60 | the table's order: every model row once, ascending by the ID cell's text (the column has no declared class), ties in model order |
| PostListView.ViewRowsDistinct | src/ui/PostListPanel.java:58-60 | a sorted list shows no model row twice |
| PostListView.ViewExample | src/ui/PostListPanel.java:58-60 | posts 11, 10, 9 are shown as 10, 11, 9, so post 10 is the top row |
| PostListView.PostListPanel.ModelIndex | src/ui/PostListPanel.java:143 | the model row the sorter places at a table row |
| PostListView.PostListPanel.TableInTextOrder | src/ui/PostListPanel.java:58-60 | the table, top to bottom, lists the posts strictly ascending by ID text, not by number |
| PostListView.PostListPanel.constructor | src/ui/PostListPanel.java:32-121 | a new panel shows the recent feed with nothing selected |
| PostListView.PostListPanel.Reload | src/ui/PostListPanel.java:124 | the rows are listRecent's views of up to 100 posts; the selection is cleared |
| PostListView.PostListPanel.Search | src/ui/PostListPanel.java:125 | the rows are search's views of up to 100 posts; the selection is cleared |
| PostListView.PostListPanel.Press | src/ui/PostListPanel.java:75-80 | a press on a row selects it; a press elsewhere keeps the selection |
| PostListView.PostListPanel.EnsureSelected | src/ui/PostListPanel.java:129-139 | keeps a selection, else selects the first table row; -1 exactly for an empty table |
| PostListView.PostListPanel.DefaultIsFirstInTextOrder | src/ui/PostListPanel.java:58-60 | with nothing selected, actions apply to the post whose ID text comes first |
| PostListView.PostListPanel.Toggle | src/ui/PostListPanel.java:141-149 | toggles the post at the selected table row (or the top row): the reaction row for (user, post) is removed when it held the button, else set to it, and Toggled(state, button) is reported; users, posts, comments and id counters unchanged; reloads and reselects the same table row if it still exists; nothing for an empty table |
| PostListView.PostListPanel.OpenComments | src/ui/PostListPanel.java:191-199 | the post at the selected table row, or at the top row when nothing is selected (which then becomes selected); none for an empty table |
| PostListView.PostListPanel.OpenPreview | src/ui/PostListPanel.java:152-188 | the preview decision for the post at the selected table row, or at the top row when nothing is selected (which then becomes selected); none for an empty table |
| PostDetail.DetailCandidates | src/ui/PostDetailDialog.java:141-149 | none without a file name; otherwise folder+name first when a folder is given, then ./images/, ./img/, ./ |
| PostDetail.FindExistingPath | src/ui/PostDetailDialog.java:141-156 | Lookup over those candidates |
| PostDetail.PictureCases | src/ui/PostDetailDialog.java:50-59 | no picture exactly without a file name; from disk exactly when a candidate is a file |
| PostDetail.FolderOnlyPost | src/ui/PostDetailDialog.java:142-143 | a folder without a name: the panel looks up the folder, the detail window looks up nothing |
| PostDetail.DetailFoundImpliesPanelFound | src/ui/PostDetailDialog.java:147-149 | for a bare file name, the panel finds a file whenever the detail window does |
| PostDetail.OwnerButtonsMatchStore | src/ui/PostDetailDialog.java:91 | the edit and delete buttons appear exactly when the store would act on this viewer's delete or update |
| PostDetail.EditAcceptsBlankText | src/ui/PostDetailDialog.java:132 | the edit check accepts a lone U+3000, which is blank |
| PostDetail.PostDetailDialog.constructor | src/ui/PostDetailDialog.java:23-28 | open, no refresh yet |
| PostDetail.PostDetailDialog.DoDelete | src/ui/PostDetailDialog.java:117-126 | once confirmed: the store deletes the post if this viewer owns it, the window closes, the opener refreshes; users, reactions, comments and id counters never change; unconfirmed: nothing changes |
| PostDetail.PostDetailDialog.DoEdit | src/ui/PostDetailDialog.java:128-139 | non-null input that is not empty once trimmed replaces the owned post's text with the trimmed input, then closes and refreshes; other posts, users, reactions, comments and id counters never change; other input changes nothing |

## Left out

- SQLException paths: every statement is taken to succeed. Where the code catches an exception and returns null, "NONE" or an empty list, that path is not modelled. One exception: a negative LIMIT, whose caught error gives an empty list.
- Foreign keys and cascades: the table definitions are not part of this model. Deleting a post removes only its POST row. A toggle or comment on a missing post is stored rather than rejected.
- Null parameters to SQL statements (for example a null user name): a comparison with NULL matches nothing there, but the model's arguments are plain strings.
- Reaction types other than LIKE, DISLIKE and NONE: no caller passes any other string.
- Collation: the server's collation is unknown, so `=` and `LIKE` compare through the abstract `fold`.
- SqlText.SqlEquals: compares character by character through `fold`. It cannot express a PAD SPACE collation, under which `=` ignores trailing spaces, or one that treats a character pair as equal to a single character (as `ß` and `ss` are under some collations).
- The `ESCAPE` clause and the NO_BACKSLASH_ESCAPES server mode: the pattern is taken to use MySQL's default escape character `\`.
- Date formatting: `DATE_FORMAT`, `DateTimeFormatter` and the string form of timestamps. Timestamps are integers.
- Login and loginByEmail of the older relational store: the same statement as the current store, so it is not modelled twice.
- Uniqueness constraints of the older schema: unknown. Its register inserts with no check of its own.
- FakeSnsAdapter's listComments, addComment, deletePost and updatePost: the in-memory store does not define them, and it builds the nine-field view of the older contract.
- Java `String.length` counts UTF-16 units, while the model counts characters. This differs only for characters outside the Basic Multilingual Plane, and only in the 4-character password minimum.
- Image decoding, scaling and placeholders (ImageIO, ImageUtils, ImageViewerDialog): the model stops at which file or placeholder is chosen.
- Swing layout, fonts, key bindings and message boxes. Confirmation and input boxes are parameters.
- PostListView.PostListPanel.ModelIndex: the collator's order is modelled as character order, which agrees with it on digit-only texts. How a collator weighs a minus sign is not modelled; AUTO_INCREMENT ids are positive.
- Re-sorting by clicking a column header is not modelled: the table keeps its initial sort on the ID column.
- The comment window (CommentDialog), the login and home frames, and App wiring: these are context, not core.
- The feed table and the post detail window running over the in-memory store, as `src/App.java` wires them: the in-memory store builds the nine-field view of the older contract and lacks the comment and edit operations, so the windows are modelled over the current relational store only.
- MySns.MySnsPort.CreatePost: its INSERT names no Update_time, so the stored value comes from a column default the repository does not define. The model assumes NULL; no query reads the column.
- LegacyMySns.MySnsPort.CreatePost and LegacyMySns.MySnsPort.AddComment: their INSERTs name no Upload_time, so the stored time comes from a column default. The table definitions are not part of the repository; the model assumes the default is the current time, the parameter `now`.
- Concurrency: each operation runs alone, against a database nobody else changes during it.
