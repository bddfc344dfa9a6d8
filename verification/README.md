# Chat store, prompts, paragraph rendering and web-search formatting

A Dafny model of the parts of the chat application that can be stated as
pure functions:

- **The database.** `lib/db/schema.ts` and `lib/db/queries.ts` become an
  immutable `Store` record (`schema.dfy`). It holds one row sequence per
  table (chats, messages, votes, documents, suggestions) and the set of
  guest-user ids. Every modelled query is a function over that record
  (`queries.dfy`). A write returns an `Outcome`: the store after the write,
  plus a `Result` carrying the value or the database error.
  - The transaction in the guest-to-user transfer rolls back on error.
  - The multi-statement deletes that run outside a transaction return the
    store as far as they got.
  - `Valid` collects the constraints the database enforces: primary keys
    never repeat, and every foreign key names an existing row. Every write
    is proved to keep `Valid`.
  - `ChatsSinglyOwned` is the application-level rule that exactly one of
    the two owner columns is set. Chat creation and the transfer are proved
    to keep it.
- **Prompt assembly** (`lib/ai/prompts.ts`, `prompts.dfy`): the request-hints
  prompt, the system prompt chosen by model id, and the document-update
  prompt chosen by artifact kind.
- **The markdown `p` renderer's control-token handling**
  (`components/markdown.tsx`, `markdown.dfy`). This covers JavaScript
  `trim`, `includes` and `replaceAll` over strings.
- **The web-search tool's reply** (`lib/ai/tools/search-web.ts`,
  `search_web.dfy`). The HTTP exchange is an input value: either it threw,
  or a response came back with an `ok` flag and an optional parsed body.

Supporting modules:

- `results.dfy`: `Option` and `Result`.
- `tables.dfy`: selecting rows, rewriting rows in place, and distinct keys.
- `sorting.dfy`: a stable insertion sort by an integer pair key. It models
  `ORDER BY`.
- `strings.dfy`: template rendering of `undefined`/`null`, decimal
  numbers, `split` and `join`.

Modelling choices:

- A uuid is the number it spells (`nat`). That gives `ORDER BY id DESC` its
  total order.
- Timestamps are integer milliseconds.
- The current time (`now`) and any fresh ids are parameters.
- Cursors are `Option<Uuid>`. `None` stands for both `null` and the empty
  string, which JavaScript treats as false.

Two places where the code does less than its own comments or names
suggest; the model follows the code:

- The owner comments at lib/db/schema.ts:45-51 say that the owner column a
  chat does not use is null. The schema only declares two nullable
  columns, and the database does not enforce that exactly one is set. So
  the model proves that the operations which write owners keep the rule
  (`ChatsSinglyOwned`), rather than assuming it.
- `deleteChatById` (lib/db/queries.ts:177-191) is not a cascade. It runs
  three separate statements with no transaction. The message delete fails
  when another chat's vote still points at one of the chat's messages, and
  the votes deleted before that failure stay deleted. `DeleteChatById`
  models exactly that.

## Model

| member | source | states |
|---|---|---|
| Schema.EmptyStore | lib/db/schema.ts:40-153 | The empty database satisfies every declared primary and foreign key, and trivially the single-owner rule |
| Queries.CreateGuestUser | lib/db/queries.ts:70-82 | Inserting a guest with a fresh id succeeds exactly when the id is unused. On success the guest set grows by that id and nothing else changes. On a clash the store is untouched and the error is a constraint violation |
| Queries.TransferGuestDataToUser | lib/db/queries.ts:93-143 | Fails exactly when the guest row is missing, and then the store is unchanged (rollback). On success, every chat, document and suggestion the guest owned has the user as regular owner and no guest owner. All other rows and fields are unchanged, and no row still names the guest. The guest row is gone. The returned id lists cover exactly the guest's rows, and the deleted id is the guest's. Validity and single ownership are kept |
| Queries.TransferKeepsValid | lib/db/queries.ts:103-131 | The rewritten store is the transferred state with no guest rows left. It is valid and singly owned whenever the original was |
| Queries.GetChatById | lib/db/queries.ts:242-250 | Returns a chat with the requested id exactly when one exists. With distinct ids it is that chat |
| Queries.SaveChat | lib/db/queries.ts:149-175 | Fails, leaving the store unchanged, exactly on a duplicate id or a guest owner with no guest row. Otherwise it appends one chat with the given id, title and timestamp and private visibility. That chat has exactly one owner column set: the guest column when `isGuest`, the regular column otherwise. Only the chats change, and validity and single ownership are kept |
| Queries.DeleteChatById | lib/db/queries.ts:177-190 | Fails exactly when a vote filed under another chat points at one of this chat's messages. Then only the chat's votes are gone. Otherwise the chat, its messages and its votes are gone and every other row stays. The result is the deleted chat, or nothing when no chat had that id. Validity is kept either way |
| Queries.UpdateChatVisibilityById | lib/db/queries.ts:252-265 | Rewrites the visibility of the chat with that id, and only that field and that chat. An unknown id leaves the store equal. Validity and single ownership are kept |
| Queries.ListChats | lib/db/queries.ts:203-235 | Fetches `limit + 1` rows newest first and keeps `limit` of them. Rejects a negative database limit. The page holds only the user's chats in the window, ordered by createdAt then id, both descending. It has `min(limit, matches)` rows drawn from the matches, and every match left out is older than every row on the page. `hasMore` holds exactly when more than `limit` chats matched |
| Queries.CursorWindow | lib/db/queries.ts:218-230 | The cursor in use is `startingAfter` when given, else `endingBefore`. The lookup fails exactly when that cursor names no chat, and the error names it. Otherwise the window admits exactly the timestamps strictly after the `startingAfter` chat's createdAt, or strictly before the `endingBefore` chat's, or every timestamp when there is no cursor |
| Queries.GetChatsByUserId | lib/db/queries.ts:193-240 | Fails exactly on a limit below -1 (a negative database limit) or an unknown cursor that is in use. Otherwise it returns at most `limit` chats, all owned by the user as a regular user, inside the cursor's window, newest first. `hasMore` holds exactly when more than `limit` of the user's chats lie in that window |
| Queries.StartingAfterBound | lib/db/queries.ts:220-223 | With `startingAfter`, every returned chat is strictly newer than the cursor chat |
| Queries.EndingBeforeBound | lib/db/queries.ts:224-227 | With only `endingBefore`, every returned chat is strictly older than the cursor chat |
| Queries.StartingAfterWins | lib/db/queries.ts:220-230 | When both cursors are given, `endingBefore` makes no difference: the result equals the one with `startingAfter` alone |
| Queries.SaveMessages | lib/db/queries.ts:271-274 | Appends the messages in order. Fails with the store unchanged on an empty batch, a repeated id, or a message whose chat does not exist. Votes are untouched and validity is kept |
| Queries.GetMessagesByChatId | lib/db/queries.ts:276-279 | Exactly the chat's messages, each as often as stored, in non-decreasing createdAt. There is no tie-break |
| Queries.DeleteMessagesByChatIdAfterTimestamp | lib/db/queries.ts:284-293 | Removes the chat's votes on messages created at or after the timestamp (inclusive), then those messages. With distinct ids the remaining messages are exactly the others. Fails, keeping all messages, exactly when another chat's vote references a doomed message. Only messages and votes change, and validity is kept |
| Queries.DeleteMessagesAfterIdempotent | lib/db/queries.ts:284-293 | Running the truncation twice gives the same store and result as running it once |
| Queries.GetMessageCountByUserId | lib/db/queries.ts:295-315 | With distinct message ids, the count is the number of messages with role `user`, created at or after `now - hours * 3600000`, in chats the user owns as a regular user |
| Queries.CountIgnoresOtherChats | lib/db/queries.ts:300-313 | A message added to a chat the user does not own as a regular user, including a guest-owned one, leaves the count unchanged |
| Queries.CountsNewUserMessage | lib/db/queries.ts:300-313 | A new user-role message inside the window, in one of the user's regular chats, raises the count by exactly one |
| Queries.CountWindowMonotone | lib/db/queries.ts:295-315 | A wider window never counts fewer messages |
| Queries.VoteMessage | lib/db/queries.ts:321-328 | Upsert on (chatId, messageId). An existing vote has its polarity set to `type == up`. Otherwise a vote is inserted, which fails with the store unchanged exactly when the chat or message is missing. After success the pair has a vote and all such votes carry the requested polarity. Votes on other pairs are unchanged and validity is kept |
| Queries.VoteLatestWins | lib/db/queries.ts:321-328 | Voting twice on one pair is the same as casting only the second vote. Repeating the same vote is therefore idempotent |
| Queries.GetVotesByChatId | lib/db/queries.ts:329-332 | Exactly the chat's votes, drawn from the stored ones |
| Queries.SaveDocument | lib/db/queries.ts:338-368 | Appends one version carrying the given fields and a regular owner. Fails with the store unchanged exactly when the (id, createdAt) key exists. Only documents change, and validity is kept |
| Queries.GetDocumentsById | lib/db/queries.ts:370-383 | Every version with the id, each as often as stored, oldest first |
| Queries.GetDocumentById | lib/db/queries.ts:385-398 | Nothing exactly when no version has the id. Otherwise a version with the id that no other version of it postdates |
| Queries.SavedDocumentIsLatest | lib/db/queries.ts:338-398 | Saving a version newer than every existing one makes it the one the latest-version lookup returns |
| Queries.DeleteDocumentsByIdAfterTimestamp | lib/db/queries.ts:400-430 | Never fails. Removes the suggestions on versions created strictly after the timestamp, then those versions, and returns exactly the removed versions. Removed and remaining versions add up to the original count, and validity is kept |
| Queries.DeleteDocumentsAfterIdempotent | lib/db/queries.ts:400-430 | A second deletion with the same arguments removes nothing and leaves the store as the first left it |
| Queries.SaveSuggestions | lib/db/queries.ts:436-449 | Appends the suggestions in order. Fails with the store unchanged on an empty batch, a repeated id, a missing document version or a missing guest owner. Only suggestions change, and validity is kept |
| Queries.GetSuggestionsByDocumentId | lib/db/queries.ts:451-468 | Exactly the suggestions on any version of the document, drawn from the stored ones |
| Prompts.RequestPrompt | lib/ai/prompts.ts:115-122 | The request prompt is its lines joined by newlines: a blank line, the header, then the labelled time, latitude, longitude, city and country (missing ones as `undefined`), and an empty final line |
| Prompts.RequestPromptLines | lib/ai/prompts.ts:115-122 | When no hint contains a newline, the request prompt splits into exactly these lines: a blank line, the header, then time, latitude, longitude, city and country (missing ones as `undefined`), and a final empty line |
| Prompts.RequestPromptInjective | lib/ai/prompts.ts:115-122 | Two single-line hint sets that give the same request prompt agree on every hint as rendered |
| Prompts.SystemPrompt | lib/ai/prompts.ts:127-139 | For the reasoning model: the regular, enhanced-search and request prompts joined by blank lines. For any other model: the artifacts prompt is also included before the request prompt. It always starts with the regular prompt and ends with the request prompt |
| Prompts.ArtifactsInserted | lib/ai/prompts.ts:136-138 | Any other model's prompt is the reasoning model's prompt with the artifacts prompt and a blank line inserted after the enhanced-search prompt, and is longer by exactly that much |
| Prompts.UpdateDocumentPrompt | lib/ai/prompts.ts:163-173 | Empty exactly for a kind with no instruction (image). Otherwise the kind's instruction, a blank line, then the current content, with a missing content shown as `null` |
| Prompts.UpdatePromptDeterminesRequest | lib/ai/prompts.ts:163-172 | For editable kinds, the prompt determines both the kind and the content as rendered |
| Markdown.Trim | components/markdown.tsx:88 | The result is a slice of the input with only JavaScript whitespace cut from either end, and neither end of a non-empty result is whitespace |
| Markdown.TrimIdempotent | components/markdown.tsx:88 | Trimming twice is trimming once |
| Markdown.RenderParagraph | components/markdown.tsx:87-106 | Renders the empty icon exactly when the trimmed text is the token. Otherwise, if the trimmed text contains the token, every occurrence is replaced by the empty string, and the text shrinks by 19 characters per replaced occurrence. Otherwise the original children pass through untrimmed |
| Markdown.ReplaceAllIsSplitJoin | components/markdown.tsx:101 | Replacing every occurrence literally is splitting at the leftmost non-overlapping occurrences and joining with the replacement. For a replacement without `$`, such as the empty string used here, this is what `replaceAll` computes |
| Markdown.ReplaceAllLength | components/markdown.tsx:101 | Replacing changes the length by the length difference once per occurrence |
| Markdown.OccurrencesContains | components/markdown.tsx:100-101 | The occurrence count is positive exactly when `includes` holds |
| Markdown.ReplacementCanSpliceToken | components/markdown.tsx:100-102 | There is a paragraph whose rendered text still contains the token: removing an inner occurrence joins the parts around it into a new one |
| SearchWeb.Search | lib/ai/tools/search-web.ts:1-34 | A missing or empty API key is an error raised before any request. Otherwise the tool answers with role `tool` and the reply content |
| SearchWeb.Content | lib/ai/tools/search-web.ts:5-32 | The reply is never empty. It is the fixed error text exactly when the exchange threw, the response was not ok, there was no body, or a shown entry was null. It is the fixed no-results text exactly when nothing was shown |
| SearchWeb.ReplyListsShownResults | lib/ai/tools/search-web.ts:20-29 | For a well-formed response, the reply is the first five results formatted and joined by blank lines, or the no-results text when the list is empty |
| SearchWeb.MissingOrganicIsEmpty | lib/ai/tools/search-web.ts:20 | A body without an organic list is treated as an empty list |
| SearchWeb.OnlyFirstFiveShown | lib/ai/tools/search-web.ts:21 | Results after the fifth never affect the reply |
| SearchWeb.NullEntryFailsOnlyWhenShown | lib/ai/tools/search-web.ts:21-32 | When the list has a null entry, the search fails exactly when one of the first five entries is null |
| SearchWeb.EntryIsLines | lib/ai/tools/search-web.ts:24-25 | Entry i is three lines: the number i+1 with a dot and the title, the snippet, and the source label with the link |
| SearchWeb.EntryNumberReadsBack | lib/ai/tools/search-web.ts:24-25 | The digits that open entry i read back as i+1 |
| SearchWeb.FormatSplitsIntoLines | lib/ai/tools/search-web.ts:24-27 | When no field contains a newline, the joined text splits into each entry's three lines, with one empty line between entries |
| SearchWeb.FormatShape | lib/ai/tools/search-web.ts:24-29 | The joined text is empty exactly when there are no entries, and otherwise starts with the first entry, numbered `1. ` |
| SearchWeb.FailureTextsDiffer | lib/ai/tools/search-web.ts:29-31 | The no-results text, the error text and any non-empty result listing are pairwise distinct |

## Left out

- The `User` table, `getUser`, `createUser` (its password hashing is a foreign call), and `getMessageById`: they are outside the modelled queries. Foreign keys to `User` are not checked, because the model does not hold that table.
- Queries.CreateGuestUser: the email built from the current time is not modelled. The guest gets the fresh id it is given.
- Database client set-up, connection handling and console logging in lib/db/queries.ts: these are I/O.
- Queries.ListChats: `limit` is an integer. A `NaN` or fractional limit is not modelled.
- Queries.GetMessageCountByUserId: `differenceInHours` is an integer, so fractional hours are not modelled. The inner join is modelled as "the message's chat exists and is owned by the user". That counts each message once, as the join does when chat ids are distinct.
- Queries.GetMessagesByChatId: the order of messages created at the same instant is left open, as the query leaves it.
- Queries.SaveMessages: the failure on an empty batch comes from the query builder rejecting `values([])`. It is modelled as the `EmptyValues` error. The same holds for Queries.SaveSuggestions.
- Queries.GetChatsByUserId: a cursor string that is not a uuid is a database type error. Such cursors are not modelled.
- Queries.DeleteChatById: concurrent writers between its three statements are not modelled. The statements run one after another against one store.
- Schema defaults: the `text` default for a document's kind and the `false` default for a suggestion's `isResolved` are constants only. `saveDocument` always passes a kind, and `saveSuggestions` inserts the rows it is given.
- The regular, enhanced-search and artifacts prompts are taken as given strings. Their text embeds the date at which the module was loaded.
- Markdown.RenderParagraph: `children` is the paragraph's text as `String(children)` renders it. The React node structure, the element props and the other markdown components are not modelled.
- SearchWeb.Search: the HTTP request, the search query argument and the response's JSON decoding are abstracted into the `Exchange` input. Non-array `organic` values and non-string fields are not modelled. Logging is left out.
- Markdown.ReplaceAll: the replacement is taken literally. JavaScript expands `$` patterns such as `$&` and `$$` in a replacement string, so the model agrees with `replaceAll` only for replacements without `$`. The renderer's only replacement is the empty string.
- Queries.ListChats: the model assumes the query builder passes a negative `LIMIT` on to the database, which rejects it, so `limit < -1` is the `NegativeLimit` error. The builder's source is not part of this model. A builder that drops a negative limit would instead run the query unlimited and return `slice(0, limit)` with JavaScript's negative-end meaning and `hasMore` true; that behaviour is not modelled. `limit = -1` gives `LIMIT 0` either way.
- Queries.GetChatsByUserId: its `limit < -1` error rests on the same query-builder assumption as Queries.ListChats.
