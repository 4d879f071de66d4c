# Posting app: post store model

A model of the state logic of the posting app's single page script
(`posting_app/script.js`). The app keeps a `posts` array shared by the handlers
(a local of the page-load callback), newest first, each post with its list of
comments. The handlers mutate that array:

- the composer form's submit handler creates a post;
- the delegated click handler deletes a post after a confirmation prompt, or appends a comment to one.

After every successful mutation the app overwrites a snapshot of the array in
browser storage under the key `blogPosts`. The write can fail (storage full or
disabled): the handler has then already changed the array and stops, and the
old snapshot stays stored until the next successful write. On start-up `loadPosts` restores the
array from that snapshot when one exists.

The model has three modules:

- `Text` (text.dfy): ECMAScript `String.prototype.trim` over the ECMAScript
  whitespace set (WhiteSpace and LineTerminator), and the `"Anonymous"` default
  for blank names.
- `Posts` (posts.dfy): the `Post` and `Comment` records, and the pure list
  operations the handlers use: building a post or comment from the form fields,
  `filter` by id, `findIndex` by id and the comment append. Beside them are the
  lemmas about these operations.
- `Store` (store.dfy): class `PostStore` with the `posts` collection and the
  `saved` snapshot (`None` while nothing is stored). Its methods are the three
  handlers, each with a `storageAccepts` flag saying whether the write
  succeeds. `Valid()` says that reloading the page shows exactly the current
  collection. Start-up and every successful write establish it; a rejected
  write breaks it until the next successful one. Four client methods
  (`CreateSession`, `CommentSession`, `ReloadSession`, `FailedSaveSession`)
  walk through the start-up, create, comment, delete, reload and failed-write
  scenarios using only the contracts.

`Date.now()`, the locale-formatted timestamp and the answer to `confirm()` are
parameters of the methods. The `alert` on an empty post is the `None` result
of `CreatePost`.

Two invariants are kept by every operation:

- `WellFormed`: every stored name and text is non-empty and trimmed.
- `NewestFirst`: ids strictly decrease along the collection. For a create, this
  holds only when the clock is ahead of every stored id.

The app does not check either one when it loads the snapshot. So each method
states them as "preserved if they held before".

## Model

| member | source | states |
|---|---|---|
| `Text.LeadingBlanks` | posting_app/script.js:53-54 | counts the whitespace run at the start: all of it is whitespace, and the next character (if any) is not |
| `Text.TrailingBlanks` | posting_app/script.js:53-54 | counts the whitespace run at the end: all of it is whitespace, and the character before it (if any) is not |
| `Text.Trim` | posting_app/script.js:203-204 | `trim()` returns the infix with only whitespace around it and no whitespace at either end; it is empty exactly when the field is blank |
| `Text.NameOrAnonymous` | posting_app/script.js:62-65 | a name field becomes its trimmed text, or "Anonymous" when blank; the result is never empty and always trimmed |
| `Text.TrimOfTrimmed` | posting_app/script.js:53-54 | a string with no whitespace at either end is unchanged by trim |
| `Text.TrimIdempotent` | posting_app/script.js:203-204 | trimming an already trimmed value changes nothing |
| `Posts.ComposePost` | posting_app/script.js:53-74 | blank content is rejected; otherwise the post has the trimmed content, the defaulted name, the given id and timestamp, and no comments, and it is well formed |
| `Posts.ComposeComment` | posting_app/script.js:203-218 | blank text is rejected; otherwise the comment has the trimmed text, the defaulted name, the given id and timestamp, and it is well formed |
| `Posts.WithoutId` | posting_app/script.js:179 | `filter` by id keeps exactly the posts whose id differs, with the same multiplicities, as a subsequence (original relative order) |
| `Posts.FindIndex` | posting_app/script.js:221 | `findIndex` is -1 exactly when no post has the id; otherwise it is the first index with that id |
| `Posts.AppendComment` | posting_app/script.js:220-225 | the first post with the id gains the comment at the end of its comments; every other post is unchanged; with no such post nothing changes |
| `Posts.WithoutAbsentId` | posting_app/script.js:179 | deleting an id no post carries leaves the collection unchanged |
| `Posts.WithoutIdIdempotent` | posting_app/script.js:179 | deleting the same id twice equals deleting it once |
| `Posts.DeleteUndoesCreate` | posting_app/script.js:176-180 | deleting a post just put at the front, whose id was unused, restores the previous collection |
| `Posts.CreateKeepsNewestFirst` | posting_app/script.js:68-77 | a post newer than all stored ones, put at the front, keeps ids strictly decreasing |
| `Posts.CreateKeepsWellFormed` | posting_app/script.js:56-77 | a well-formed post put at the front keeps every stored field non-empty and trimmed |
| `Posts.WithoutIdKeepsNewestFirst` | posting_app/script.js:179 | filtering keeps ids strictly decreasing |
| `Posts.WithoutIdKeepsWellFormed` | posting_app/script.js:179 | filtering keeps every stored field non-empty and trimmed |
| `Posts.AppendCommentKeepsNewestFirst` | posting_app/script.js:221-223 | appending a comment changes no id, so the order invariant is kept |
| `Posts.AppendCommentKeepsWellFormed` | posting_app/script.js:203-223 | appending a well-formed comment keeps every stored field non-empty and trimmed |
| `Store.PostStore.Load` | posting_app/script.js:23-26 | at start-up the collection is the stored snapshot, or empty when nothing is stored; the store is then consistent with its snapshot |
| `Store.PostStore.Save` | posting_app/script.js:16-18 | when storage accepts the write, the snapshot is overwritten with the current collection and `Valid()` holds; when it rejects it, the old snapshot stays |
| `Store.PostStore.CreatePost` | posting_app/script.js:49-85 | blank content leaves the collection and the snapshot unchanged; otherwise the new post (trimmed content, defaulted name, given id and timestamp, no comments) is at index 0, the old posts follow in order, and the snapshot equals the collection when the write succeeds (it stays the old one when storage rejects it); `Valid()` holds after a successful write; both invariants are kept |
| `Store.PostStore.DeletePost` | posting_app/script.js:176-184 | an unconfirmed delete changes nothing; a confirmed one leaves exactly `WithoutId` of the old posts, with no post of that id, unchanged when the id was absent, and writes the snapshot (kept old when storage rejects it); `Valid()` holds after a successful write; both invariants are kept |
| `Store.PostStore.AddComment` | posting_app/script.js:198-225 | blank text, or an id no longer present, changes neither the collection nor the snapshot; otherwise the collection is `AppendComment` of the old one with the built comment, and it is written to the snapshot (kept old when storage rejects it); `Valid()` holds after a successful write; both invariants are kept |

## Left out

- Rendering: `createPostElement`, `createCommentElement`, `prepend`, `remove`,
  `insertAdjacentHTML` and `innerHTML`. They build the display and never change
  the stored state. This includes the comment element that is inserted on screen
  even when its post is no longer in the collection (script.js:227-230).
- The like toggle and the comments-section show/hide (script.js:186-195). They
  are class flips on display elements and are never stored.
- Listener wiring and the Enter / Shift+Enter redirects (script.js:39-46,
  234-247). They only trigger the submit and post-comment controls. Form and
  input resets after a submission are also left out.
- `localStorage` and JSON. The stored value is modelled as the sequence it
  serialises, and the JSON round trip is taken to be exact for these records.
  A write failure is modelled only as "the snapshot is not replaced"; the
  thrown exception itself, and the skipped display update after it, are not.
- Stored values the app did not write are not modelled. Two cases behave
  differently in the app:
  - A value that is not valid JSON makes `JSON.parse` throw inside `loadPosts`.
    The listeners are already registered (script.js:250), so the app goes on
    with `posts` empty. The first successful write then replaces the unreadable
    value.
  - A value that parses to something other than an array (such as `null` or
    `{}`) becomes `posts`. Rendering then throws (script.js:29), and so does
    every later create, delete or comment, because `unshift`, `filter` and
    `findIndex` do not exist on it.
- `Date.now()`, `toLocaleString`, `alert` and `confirm` are parameters or results
  of the methods, not modelled functions.
- Posts are values. The in-place `comments.push` on `posts[postIndex]` becomes a
  replacement of that element. No two entries of the array share an object,
  because each comes from an object literal or from `JSON.parse`, so no aliasing
  is lost.
- Ids are unbounded integers. JavaScript numbers are doubles, which is exact for
  millisecond clock values.
- Strings are sequences of Unicode scalar values, while JavaScript strings are
  UTF-16 code units. Trimming is unaffected, because every character `trim`
  strips is a single code unit. An input holding a lone surrogate cannot be
  represented.
- Whitespace follows the space separators (category Zs) of current Unicode. A
  change to that category in a later Unicode version is not tracked.
- `Store.PostStore.CreatePost`: it keeps `NewestFirst` only when the supplied
  clock value is greater than every stored id. The app itself never checks ids
  for collisions.
