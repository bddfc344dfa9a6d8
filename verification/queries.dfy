/** The exported queries of lib/db/queries.ts as pure functions over a
    `Store`. A query that writes returns the store it leaves behind together
    with its result; a thrown error is an `Err`. The one transaction (the
    guest-to-user transfer) leaves the store untouched when it fails; the
    other multi-statement deletes are not transactional, so a failing later
    statement leaves the earlier statements' effects in place. */
module Queries {
  import opened Results
  import opened Tables
  import opened Sorting
  import opened Schema

  /** What a query can throw. */
  datatype DbError =
    | EmptyValues             // an insert given no rows at all
    | ConstraintViolation     // a primary-key or foreign-key constraint rejected the statement
    | GuestNotFound(guestId: Uuid)
    | CursorNotFound(chatId: Uuid)
    | NegativeLimit           // the database refuses a negative LIMIT

  /** The store after a writing query, and what the query returned or threw. */
  datatype Outcome<+T> = Outcome(store: Store, result: Result<T, DbError>)

  /** Only the listed tables differ between `a` and `b`. */
  ghost predicate OnlyChatsChanged(a: Store, b: Store) {
    a.messages == b.messages && a.votes == b.votes && a.documents == b.documents
    && a.suggestions == b.suggestions && a.guests == b.guests
  }

  ghost predicate OnlyMessagesAndVotesChanged(a: Store, b: Store) {
    a.chats == b.chats && a.documents == b.documents
    && a.suggestions == b.suggestions && a.guests == b.guests
  }

  ghost predicate OnlyVotesChanged(a: Store, b: Store) {
    a.messages == b.messages && OnlyMessagesAndVotesChanged(a, b)
  }

  ghost predicate OnlyDocumentsAndSuggestionsChanged(a: Store, b: Store) {
    a.chats == b.chats && a.messages == b.messages && a.votes == b.votes && a.guests == b.guests
  }

  // ---------------------------------------------------------------------------
  // Guest users and the guest-to-user transfer
  // ---------------------------------------------------------------------------

  /** `createGuestUser`: inserts a `GuestUser` row under the id the database
      generated for it (`freshId`). */
  function CreateGuestUser(s: Store, freshId: Uuid): (r: Outcome<Uuid>)
    ensures r.result.Err? <==> freshId in s.guests
    ensures r.result.Err? ==> r.store == s && r.result.error == ConstraintViolation
    ensures r.result.Ok? ==> r.result.value == freshId && r.store.guests == s.guests + {freshId}
    ensures r.store == s.(guests := r.store.guests)
    ensures Valid(s) ==> Valid(r.store)
  {
    if freshId in s.guests then Outcome(s, Err(ConstraintViolation))
    else Outcome(s.(guests := s.guests + {freshId}), Ok(freshId))
  }

  /** The owner columns after `SET regularUserId = newUserId, guestUserId = NULL
      WHERE guestUserId = guestId`. */
  function Promote(o: Owners, guestId: Uuid, newUserId: Uuid): Owners {
    if o.guestUserId == Some(guestId) then Owners(Some(newUserId), None) else o
  }

  function PromoteChat(guestId: Uuid, newUserId: Uuid): Chat -> Chat {
    (c: Chat) => c.(owners := Promote(c.owners, guestId, newUserId))
  }

  function PromoteDocument(guestId: Uuid, newUserId: Uuid): Document -> Document {
    (d: Document) => d.(owners := Promote(d.owners, guestId, newUserId))
  }

  function PromoteSuggestion(guestId: Uuid, newUserId: Uuid): Suggestion -> Suggestion {
    (x: Suggestion) => x.(owners := Promote(x.owners, guestId, newUserId))
  }

  function ChatOfGuest(guestId: Uuid): Chat -> bool { (c: Chat) => c.owners.guestUserId == Some(guestId) }
  function DocumentOfGuest(guestId: Uuid): Document -> bool { (d: Document) => d.owners.guestUserId == Some(guestId) }
  function SuggestionOfGuest(guestId: Uuid): Suggestion -> bool { (x: Suggestion) => x.owners.guestUserId == Some(guestId) }

  /** What the transfer returns: the ids of the rows it rewrote, per table,
      and the id of the guest row it deleted. */
  datatype TransferSummary = TransferSummary(
    updatedChats: seq<Uuid>,
    updatedDocuments: seq<Uuid>,
    updatedSuggestions: seq<Uuid>,
    deletedGuestId: Uuid)

  function ChatIdList(s: seq<Chat>): seq<Uuid> { seq(|s|, i requires 0 <= i < |s| => s[i].id) }
  function DocumentIdList(s: seq<Document>): seq<Uuid> { seq(|s|, i requires 0 <= i < |s| => s[i].id) }
  function SuggestionIdList(s: seq<Suggestion>): seq<Uuid> { seq(|s|, i requires 0 <= i < |s| => s[i].id) }

  /** `row` in `after` is `row` in `before` handed from `guestId` to `newUserId`
      when the guest owned it, and untouched otherwise. */
  ghost predicate Handed(before: Owners, after: Owners, guestId: Uuid, newUserId: Uuid) {
    if before.guestUserId == Some(guestId)
    then after.regularUserId == Some(newUserId) && after.guestUserId.None?
    else after == before
  }

  /** The state a successful transfer commits: every chat, document and
      suggestion of the guest now belongs to the user, nothing else changed,
      and the guest row is gone. */
  ghost predicate Transferred(s: Store, t: Store, guestId: Uuid, newUserId: Uuid) {
    && |t.chats| == |s.chats| && |t.documents| == |s.documents| && |t.suggestions| == |s.suggestions|
    && (forall i :: 0 <= i < |s.chats| ==>
          t.chats[i].(owners := s.chats[i].owners) == s.chats[i]
          && Handed(s.chats[i].owners, t.chats[i].owners, guestId, newUserId))
    && (forall i :: 0 <= i < |s.documents| ==>
          t.documents[i].(owners := s.documents[i].owners) == s.documents[i]
          && Handed(s.documents[i].owners, t.documents[i].owners, guestId, newUserId))
    && (forall i :: 0 <= i < |s.suggestions| ==>
          t.suggestions[i].(owners := s.suggestions[i].owners) == s.suggestions[i]
          && Handed(s.suggestions[i].owners, t.suggestions[i].owners, guestId, newUserId))
    && t.messages == s.messages && t.votes == s.votes
    && t.guests == s.guests - {guestId}
  }

  /** No row of `t` still names `guestId` as its owner. */
  ghost predicate NoGuestRows(t: Store, guestId: Uuid) {
    && (forall c :: c in t.chats ==> c.owners.guestUserId != Some(guestId))
    && (forall d :: d in t.documents ==> d.owners.guestUserId != Some(guestId))
    && (forall x :: x in t.suggestions ==> x.owners.guestUserId != Some(guestId))
  }

  /** `transferGuestDataToUserTransactional`: inside one transaction, hands
      every chat, document and suggestion of the guest to the registered
      user, then deletes the guest row; when there is no guest row to delete
      it throws and the transaction rolls everything back. */
  function TransferGuestDataToUser(s: Store, guestId: Uuid, newUserId: Uuid): (r: Outcome<TransferSummary>)
    ensures r.result.Err? <==> guestId !in s.guests
    ensures r.result.Err? ==> r.store == s && r.result.error == GuestNotFound(guestId)
    ensures r.result.Ok? ==> Transferred(s, r.store, guestId, newUserId) && NoGuestRows(r.store, guestId)
    ensures r.result.Ok? ==> r.result.value.deletedGuestId == guestId
    ensures r.result.Ok? ==>
      && (set k | k in r.result.value.updatedChats) == GuestChatIds(s, guestId)
      && (set k | k in r.result.value.updatedDocuments) == GuestDocumentIds(s, guestId)
      && (set k | k in r.result.value.updatedSuggestions) == GuestSuggestionIds(s, guestId)
    ensures Valid(s) ==> Valid(r.store)
    ensures ChatsSinglyOwned(s) ==> ChatsSinglyOwned(r.store)
  {
    // the three UPDATEs report the rows they changed
    var summary := TransferSummary(
      ChatIdList(Filter(s.chats, ChatOfGuest(guestId))),
      DocumentIdList(Filter(s.documents, DocumentOfGuest(guestId))),
      SuggestionIdList(Filter(s.suggestions, SuggestionOfGuest(guestId))),
      guestId);
    // then the DELETE of the guest row, and the rollback when it found none
    if guestId !in s.guests then Outcome(s, Err(GuestNotFound(guestId)))
    else
      var t := TransferredStore(s, guestId, newUserId);
      TransferKeepsValid(s, t, guestId, newUserId);
      TransferSummaryIds(s, guestId);
      Outcome(t, Ok(summary))
  }

  ghost function GuestChatIds(s: Store, guestId: Uuid): set<Uuid> {
    set c | c in s.chats && c.owners.guestUserId == Some(guestId) :: c.id
  }

  ghost function GuestDocumentIds(s: Store, guestId: Uuid): set<Uuid> {
    set d | d in s.documents && d.owners.guestUserId == Some(guestId) :: d.id
  }

  ghost function GuestSuggestionIds(s: Store, guestId: Uuid): set<Uuid> {
    set x | x in s.suggestions && x.owners.guestUserId == Some(guestId) :: x.id
  }

  /** The id lists the transfer reports name exactly the guest's rows. */
  lemma TransferSummaryIds(s: Store, guestId: Uuid)
    ensures (set k | k in ChatIdList(Filter(s.chats, ChatOfGuest(guestId)))) == GuestChatIds(s, guestId)
    ensures (set k | k in DocumentIdList(Filter(s.documents, DocumentOfGuest(guestId)))) == GuestDocumentIds(s, guestId)
    ensures (set k | k in SuggestionIdList(Filter(s.suggestions, SuggestionOfGuest(guestId)))) == GuestSuggestionIds(s, guestId)
  {
    GuestChatIdList(s, guestId);
    GuestDocumentIdList(s, guestId);
    GuestSuggestionIdList(s, guestId);
  }

  lemma GuestChatIdList(s: Store, guestId: Uuid)
    ensures (set k | k in ChatIdList(Filter(s.chats, ChatOfGuest(guestId)))) == GuestChatIds(s, guestId)
  {
    var fc := Filter(s.chats, ChatOfGuest(guestId));
    var lc := ChatIdList(fc);
    forall k | k in GuestChatIds(s, guestId) ensures k in lc {
      var c :| c in s.chats && c.owners.guestUserId == Some(guestId) && c.id == k;
      assert c in fc;
      var i :| 0 <= i < |fc| && fc[i] == c;
      assert lc[i] == k;
    }
    forall k | k in lc ensures k in GuestChatIds(s, guestId) {
      var i :| 0 <= i < |lc| && lc[i] == k;
      assert fc[i] in fc;
    }
  }

  lemma GuestDocumentIdList(s: Store, guestId: Uuid)
    ensures (set k | k in DocumentIdList(Filter(s.documents, DocumentOfGuest(guestId)))) == GuestDocumentIds(s, guestId)
  {
    var fd := Filter(s.documents, DocumentOfGuest(guestId));
    var ld := DocumentIdList(fd);
    forall k | k in GuestDocumentIds(s, guestId) ensures k in ld {
      var d :| d in s.documents && d.owners.guestUserId == Some(guestId) && d.id == k;
      assert d in fd;
      var i :| 0 <= i < |fd| && fd[i] == d;
      assert ld[i] == k;
    }
    forall k | k in ld ensures k in GuestDocumentIds(s, guestId) {
      var i :| 0 <= i < |ld| && ld[i] == k;
      assert fd[i] in fd;
    }
  }

  lemma GuestSuggestionIdList(s: Store, guestId: Uuid)
    ensures (set k | k in SuggestionIdList(Filter(s.suggestions, SuggestionOfGuest(guestId)))) == GuestSuggestionIds(s, guestId)
  {
    var fx := Filter(s.suggestions, SuggestionOfGuest(guestId));
    var lx := SuggestionIdList(fx);
    forall k | k in GuestSuggestionIds(s, guestId) ensures k in lx {
      var x :| x in s.suggestions && x.owners.guestUserId == Some(guestId) && x.id == k;
      assert x in fx;
      var i :| 0 <= i < |fx| && fx[i] == x;
      assert lx[i] == k;
    }
    forall k | k in lx ensures k in GuestSuggestionIds(s, guestId) {
      var i :| 0 <= i < |lx| && lx[i] == k;
      assert fx[i] in fx;
    }
  }

  /** The store the transfer commits when the guest exists. */
  function TransferredStore(s: Store, guestId: Uuid, newUserId: Uuid): Store {
    Store(MapRows(s.chats, PromoteChat(guestId, newUserId)), s.messages, s.votes,
          MapRows(s.documents, PromoteDocument(guestId, newUserId)),
          MapRows(s.suggestions, PromoteSuggestion(guestId, newUserId)), s.guests - {guestId})
  }

  lemma TransferKeepsValid(s: Store, t: Store, guestId: Uuid, newUserId: Uuid)
    requires guestId in s.guests
    requires t == TransferredStore(s, guestId, newUserId)
    ensures Transferred(s, t, guestId, newUserId) && NoGuestRows(t, guestId)
    ensures Valid(s) ==> Valid(t)
    ensures ChatsSinglyOwned(s) ==> ChatsSinglyOwned(t)
  {
    if Valid(s) {
      TransferKeepsKeys(s, t, guestId, newUserId);
      TransferKeepsReferences(s, t, guestId, newUserId);
    }
    if ChatsSinglyOwned(s) {
      forall c | c in t.chats ensures SingleOwner(c.owners) {
        var i :| 0 <= i < |t.chats| && t.chats[i] == c;
        assert s.chats[i] in s.chats;
      }
    }
  }

  lemma TransferKeepsKeys(s: Store, t: Store, guestId: Uuid, newUserId: Uuid)
    requires t == TransferredStore(s, guestId, newUserId)
    requires KeysUnique(s)
    ensures KeysUnique(t)
  {
    MapRowsKeysDistinct(s.chats, PromoteChat(guestId, newUserId), ChatKey);
    MapRowsKeysDistinct(s.documents, PromoteDocument(guestId, newUserId), DocumentKey);
    MapRowsKeysDistinct(s.suggestions, PromoteSuggestion(guestId, newUserId), SuggestionKey);
  }

  lemma TransferKeepsReferences(s: Store, t: Store, guestId: Uuid, newUserId: Uuid)
    requires t == TransferredStore(s, guestId, newUserId)
    requires ReferencesResolve(s)
    ensures ReferencesResolve(t)
  {
    MapRowsKeys(s.chats, PromoteChat(guestId, newUserId), ChatKey);
    MapRowsKeys(s.documents, PromoteDocument(guestId, newUserId), DocumentKey);
    assert ChatIds(t) == ChatIds(s) && MessageIds(t) == MessageIds(s) && DocumentKeys(t) == DocumentKeys(s);
    assert t.messages == s.messages && t.votes == s.votes;
    forall x | x in t.suggestions ensures (x.documentId, x.documentCreatedAt) in DocumentKeys(t) {
      var i :| 0 <= i < |t.suggestions| && t.suggestions[i] == x;
      assert s.suggestions[i] in s.suggestions;
    }
    TransferKeepsGuestRefs(s, t, guestId, newUserId);
  }

  lemma TransferKeepsGuestRefs(s: Store, t: Store, guestId: Uuid, newUserId: Uuid)
    requires t == TransferredStore(s, guestId, newUserId)
    requires forall c :: c in s.chats ==> GuestRefOk(c.owners, s.guests)
    requires forall d :: d in s.documents ==> GuestRefOk(d.owners, s.guests)
    requires forall x :: x in s.suggestions ==> GuestRefOk(x.owners, s.guests)
    ensures forall c :: c in t.chats ==> GuestRefOk(c.owners, t.guests)
    ensures forall d :: d in t.documents ==> GuestRefOk(d.owners, t.guests)
    ensures forall x :: x in t.suggestions ==> GuestRefOk(x.owners, t.guests)
  {
    forall c | c in t.chats ensures GuestRefOk(c.owners, t.guests) {
      var i :| 0 <= i < |t.chats| && t.chats[i] == c;
      assert s.chats[i] in s.chats;
    }
    forall d | d in t.documents ensures GuestRefOk(d.owners, t.guests) {
      var i :| 0 <= i < |t.documents| && t.documents[i] == d;
      assert s.documents[i] in s.documents;
    }
    forall x | x in t.suggestions ensures GuestRefOk(x.owners, t.guests) {
      var i :| 0 <= i < |t.suggestions| && t.suggestions[i] == x;
      assert s.suggestions[i] in s.suggestions;
    }
  }

  // ---------------------------------------------------------------------------
  // Chats
  // ---------------------------------------------------------------------------

  function ChatWithId(id: Uuid): Chat -> bool { (c: Chat) => c.id == id }

  /** The chat row a query `SELECT … WHERE id = ?` yields first, if any. */
  function FindChat(s: Store, id: Uuid): (r: Option<Chat>)
    ensures r.Some? ==> r.value in s.chats && r.value.id == id
    ensures r.None? <==> id !in ChatIds(s)
  {
    var found := Filter(s.chats, ChatWithId(id));
    if |found| == 0 then
      assert id !in ChatIds(s) by {
        forall i | 0 <= i < |s.chats| ensures s.chats[i].id != id {
          assert s.chats[i] in s.chats;
        }
      }
      None
    else
      assert found[0] in found;
      KeyOfRow(s.chats, ChatKey, found[0]);
      Some(found[0])
  }

  /** `getChatById`. */
  function GetChatById(s: Store, id: Uuid): (r: Option<Chat>)
    ensures r.Some? ==> r.value in s.chats && r.value.id == id
    ensures r.None? <==> id !in ChatIds(s)
    ensures KeysDistinct(s.chats, ChatKey) ==> forall c :: c in s.chats && c.id == id ==> r == Some(c)
  {
    var r := FindChat(s, id);
    assert KeysDistinct(s.chats, ChatKey) ==> forall c :: c in s.chats && c.id == id ==> r == Some(c) by {
      if KeysDistinct(s.chats, ChatKey) {
        forall c | c in s.chats && c.id == id ensures r == Some(c) {
          KeyDeterminesRow(s.chats, ChatKey, c, r.value);
        }
      }
    }
    r
  }

  /** The row `saveChat` inserts: the user id goes into the guest column for
      a guest and into the regular column otherwise; visibility takes its
      column default. */
  function NewChat(id: Uuid, userId: Uuid, isGuest: bool, title: string, now: Timestamp): Chat {
    Chat(id, now, title,
         Owners(if isGuest then None else Some(userId), if isGuest then Some(userId) else None),
         DEFAULT_VISIBILITY)
  }

  /** `saveChat`: inserts a chat created at `now`. The insert fails on a
      duplicate id, and on a guest id with no `GuestUser` row. */
  function SaveChat(s: Store, id: Uuid, userId: Uuid, isGuest: bool, title: string, now: Timestamp): (r: Outcome<()>)
    ensures r.result.Err? <==> id in ChatIds(s) || (isGuest && userId !in s.guests)
    ensures r.result.Err? ==> r.store == s && r.result.error == ConstraintViolation
    ensures r.result.Ok? ==>
      && |r.store.chats| == |s.chats| + 1
      && r.store.chats[..|s.chats|] == s.chats
      && var c := r.store.chats[|s.chats|];
         c.id == id && c.createdAt == now && c.title == title && c.visibility == Private
         && SingleOwner(c.owners)
         && (if isGuest then c.owners.guestUserId == Some(userId) else c.owners.regularUserId == Some(userId))
    ensures OnlyChatsChanged(s, r.store)
    ensures Valid(s) ==> Valid(r.store)
    ensures ChatsSinglyOwned(s) ==> ChatsSinglyOwned(r.store)
  {
    if id in Keys(s.chats, ChatKey) || (isGuest && userId !in s.guests) then
      Outcome(s, Err(ConstraintViolation))
    else
      var c := NewChat(id, userId, isGuest, title, now);
      var t := s.(chats := s.chats + [c]);
      assert t.chats[..|s.chats|] == s.chats;
      SaveChatKeepsValid(s, c);
      Outcome(t, Ok(()))
  }

  lemma SaveChatKeepsValid(s: Store, c: Chat)
    requires c.id !in ChatIds(s)
    requires GuestRefOk(c.owners, s.guests)
    ensures Valid(s) ==> Valid(s.(chats := s.chats + [c]))
  {
    var t := s.(chats := s.chats + [c]);
    if Valid(s) {
      AppendKeysDistinct(s.chats, [c], ChatKey);
      assert ChatIds(s) <= ChatIds(t) by {
        forall k | k in ChatIds(s) ensures k in ChatIds(t) {
          var x := RowOfKey(s.chats, ChatKey, k);
          KeyOfRow(t.chats, ChatKey, x);
        }
      }
    }
  }

  function VoteOutsideChat(id: Uuid): Vote -> bool { (v: Vote) => v.chatId != id }
  function MessageInChat(id: Uuid): Message -> bool { (m: Message) => m.chatId == id }

  /** Some vote recorded under another chat points at a message of chat `id`. */
  ghost predicate ForeignVoteOn(s: Store, id: Uuid) {
    exists v, m :: v in s.votes && m in s.messages && m.chatId == id && v.chatId != id && v.messageId == m.id
  }

  /** `deleteChatById`: deletes the chat's votes, then its messages, then the
      chat, as three separate statements, returning the deleted chat (or
      nothing when there was none). The message delete fails if a vote
      recorded under another chat still references one of the messages; the
      votes deleted before it stay deleted. */
  function DeleteChatById(s: Store, id: Uuid): (r: Outcome<Option<Chat>>)
    ensures r.result.Err? <==> ForeignVoteOn(s, id)
    ensures r.result.Err? ==>
      && r.result.error == ConstraintViolation
      && r.store == s.(votes := r.store.votes)
      && (forall v :: v in r.store.votes <==> v in s.votes && v.chatId != id)
    ensures r.result.Ok? ==>
      && (forall c :: c in r.store.chats <==> c in s.chats && c.id != id)
      && (forall m :: m in r.store.messages <==> m in s.messages && m.chatId != id)
      && (forall v :: v in r.store.votes <==> v in s.votes && v.chatId != id)
      && OnlyMessagesAndVotesChanged(s, r.store.(chats := s.chats))
      && (r.result.value.Some? <==> id in ChatIds(s))
      && (r.result.value.Some? ==> r.result.value.value in s.chats && r.result.value.value.id == id)
    ensures Valid(s) ==> Valid(r.store)
    ensures ChatsSinglyOwned(s) ==> ChatsSinglyOwned(r.store)
  {
    var votes := Filter(s.votes, VoteOutsideChat(id));
    var doomed := Filter(s.messages, MessageInChat(id));
    var afterVotes := s.(votes := votes);
    if exists v :: v in votes && v.messageId in Keys(doomed, MessageKey) then
      ForeignVoteWitness(s, id);
      DeleteVotesKeepsValid(s, VoteOutsideChat(id));
      Outcome(afterVotes, Err(ConstraintViolation))
    else
      var t := afterVotes.(messages := Filter(s.messages, Not(MessageInChat(id))),
                           chats := Filter(s.chats, Not(ChatWithId(id))));
      ForeignVoteWitness(s, id);
      DeleteChatKeepsValid(s, id, t);
      Outcome(t, Ok(FindChat(s, id)))
  }

  /** The check `DeleteChatById` performs, after deleting the chat's own
      votes, is exactly the existence of a foreign vote. */
  lemma ForeignVoteWitness(s: Store, id: Uuid)
    ensures ForeignVoteOn(s, id) <==>
      exists v :: v in Filter(s.votes, VoteOutsideChat(id))
               && v.messageId in Keys(Filter(s.messages, MessageInChat(id)), MessageKey)
  {
    var votes := Filter(s.votes, VoteOutsideChat(id));
    var doomed := Filter(s.messages, MessageInChat(id));
    if ForeignVoteOn(s, id) {
      var v, m :| v in s.votes && m in s.messages && m.chatId == id && v.chatId != id && v.messageId == m.id;
      KeyOfRow(doomed, MessageKey, m);
      assert v in votes;
    }
    if exists v :: v in votes && v.messageId in Keys(doomed, MessageKey) {
      var v :| v in votes && v.messageId in Keys(doomed, MessageKey);
      var m := RowOfKey(doomed, MessageKey, v.messageId);
      assert m in s.messages && m.chatId == id;
    }
  }

  /** Deleting votes never breaks a constraint. */
  lemma DeleteVotesKeepsValid(s: Store, keep: Vote -> bool)
    ensures Valid(s) ==> Valid(s.(votes := Filter(s.votes, keep)))
  {
    if Valid(s) {
      FilterKeysDistinct(s.votes, keep, VoteKey);
    }
  }

  lemma DeleteChatKeepsValid(s: Store, id: Uuid, t: Store)
    requires !ForeignVoteOn(s, id)
    requires t == s.(votes := Filter(s.votes, VoteOutsideChat(id)),
                     messages := Filter(s.messages, Not(MessageInChat(id))),
                     chats := Filter(s.chats, Not(ChatWithId(id))))
    ensures Valid(s) ==> Valid(t)
  {
    if Valid(s) {
      FilterKeysDistinct(s.chats, Not(ChatWithId(id)), ChatKey);
      FilterKeysDistinct(s.messages, Not(MessageInChat(id)), MessageKey);
      FilterKeysDistinct(s.votes, VoteOutsideChat(id), VoteKey);
      DeleteChatMessageRefs(s, id, t);
      DeleteChatVoteRefs(s, id, t);
      assert KeysUnique(t);
      assert forall x :: x in t.suggestions ==> (x.documentId, x.documentCreatedAt) in DocumentKeys(t);
      assert forall c :: c in t.chats ==> GuestRefOk(c.owners, t.guests);
      assert forall d :: d in t.documents ==> GuestRefOk(d.owners, t.guests);
      assert forall x :: x in t.suggestions ==> GuestRefOk(x.owners, t.guests);
    }
  }

  lemma DeleteChatMessageRefs(s: Store, id: Uuid, t: Store)
    requires forall m :: m in s.messages ==> m.chatId in ChatIds(s)
    requires t.chats == Filter(s.chats, Not(ChatWithId(id)))
    requires t.messages == Filter(s.messages, Not(MessageInChat(id)))
    ensures forall m :: m in t.messages ==> m.chatId in ChatIds(t)
  {
    forall m | m in t.messages ensures m.chatId in ChatIds(t) {
      var c := RowOfKey(s.chats, ChatKey, m.chatId);
      assert c in t.chats;
      KeyOfRow(t.chats, ChatKey, c);
    }
  }

  lemma DeleteChatVoteRefs(s: Store, id: Uuid, t: Store)
    requires !ForeignVoteOn(s, id)
    requires forall v :: v in s.votes ==> v.chatId in ChatIds(s) && v.messageId in MessageIds(s)
    requires t.chats == Filter(s.chats, Not(ChatWithId(id)))
    requires t.messages == Filter(s.messages, Not(MessageInChat(id)))
    requires t.votes == Filter(s.votes, VoteOutsideChat(id))
    ensures forall v :: v in t.votes ==> v.chatId in ChatIds(t) && v.messageId in MessageIds(t)
  {
    forall v | v in t.votes ensures v.chatId in ChatIds(t) && v.messageId in MessageIds(t) {
      var c := RowOfKey(s.chats, ChatKey, v.chatId);
      assert c in t.chats;
      KeyOfRow(t.chats, ChatKey, c);
      var m := RowOfKey(s.messages, MessageKey, v.messageId);
      assert m.chatId != id;
      assert m in t.messages;
      KeyOfRow(t.messages, MessageKey, m);
    }
  }

  function SetVisibility(chatId: Uuid, visibility: Visibility): Chat -> Chat {
    (c: Chat) => if c.id == chatId then c.(visibility := visibility) else c
  }

  /** Rewriting chats in place without touching their ids or owners keeps
      every constraint. */
  lemma UpdateChatsKeepsValid(s: Store, f: Chat -> Chat)
    requires forall c :: c in s.chats ==> f(c).id == c.id && f(c).owners == c.owners
    ensures Valid(s) ==> Valid(s.(chats := MapRows(s.chats, f)))
    ensures ChatsSinglyOwned(s) ==> ChatsSinglyOwned(s.(chats := MapRows(s.chats, f)))
  {
    var t := s.(chats := MapRows(s.chats, f));
    MapRowsKeys(s.chats, f, ChatKey);
    if Valid(s) {
      MapRowsKeysDistinct(s.chats, f, ChatKey);
      forall c | c in t.chats ensures GuestRefOk(c.owners, t.guests) {
        var i :| 0 <= i < |t.chats| && t.chats[i] == c;
        assert s.chats[i] in s.chats;
      }
    }
    if ChatsSinglyOwned(s) {
      forall c | c in t.chats ensures SingleOwner(c.owners) {
        var i :| 0 <= i < |t.chats| && t.chats[i] == c;
        assert s.chats[i] in s.chats;
      }
    }
  }

  /** `updateChatVisiblityById`: sets the visibility of the chat with that id;
      no matching chat means no change. */
  function UpdateChatVisibilityById(s: Store, chatId: Uuid, visibility: Visibility): (t: Store)
    ensures |t.chats| == |s.chats|
    ensures forall i :: 0 <= i < |s.chats| ==>
      if s.chats[i].id == chatId then t.chats[i] == s.chats[i].(visibility := visibility)
      else t.chats[i] == s.chats[i]
    ensures OnlyChatsChanged(s, t)
    ensures chatId !in ChatIds(s) ==> t == s
    ensures Valid(s) ==> Valid(t)
    ensures ChatsSinglyOwned(s) ==> ChatsSinglyOwned(t)
  {
    var f := SetVisibility(chatId, visibility);
    var t := s.(chats := MapRows(s.chats, f));
    UpdateChatsKeepsValid(s, f);
    assert chatId !in ChatIds(s) ==> t == s by {
      if chatId !in ChatIds(s) {
        forall i | 0 <= i < |s.chats| ensures t.chats[i] == s.chats[i] {
          KeyOfRow(s.chats, ChatKey, s.chats[i]);
        }
      }
    }
    t
  }

  // ---------------------------------------------------------------------------
  // Listing a user's chats, a page at a time
  // ---------------------------------------------------------------------------

  /** The `createdAt` bound a cursor puts on the listing. */
  datatype Window = Unbounded | NewerThan(createdAt: Timestamp) | OlderThan(createdAt: Timestamp)

  predicate InWindow(w: Window, t: Timestamp) {
    match w
    case Unbounded => true
    case NewerThan(bound) => t > bound
    case OlderThan(bound) => t < bound
  }

  /** The `WHERE` of the listing: the user's own chats (by the regular owner
      column only) inside the window. */
  function ListedFor(id: Uuid, w: Window): Chat -> bool {
    (c: Chat) => c.owners.regularUserId == Some(id) && InWindow(w, c.createdAt)
  }

  /** `ORDER BY createdAt DESC, id DESC`, as an ascending key. */
  function NewestFirst(c: Chat): Key {
    Key(-c.createdAt, -(c.id as int))
  }

  /** `a` may be listed before `b`: it is newer, or as new with an id at
      least as large. */
  predicate ListedBefore(a: Chat, b: Chat) {
    a.createdAt > b.createdAt || (a.createdAt == b.createdAt && a.id >= b.id)
  }

  /** What `getChatsByUserId` returns. */
  datatype ChatPage = ChatPage(chats: seq<Chat>, hasMore: bool)

  function Min(a: int, b: int): int {
    if a <= b then a else b
  }

  /** The listing query for one window: fetch up to `limit + 1` matching
      chats newest first, report whether more than `limit` came back, and
      keep the first `limit`. The database rejects a negative `LIMIT`. */
  function ListChats(s: Store, id: Uuid, limit: int, w: Window): (r: Result<ChatPage, DbError>)
    ensures r.Err? <==> limit + 1 < 0
    ensures r.Err? ==> r.error == NegativeLimit
    ensures r.Ok? ==>
      var page := r.value.chats;
      var matching := Filter(s.chats, ListedFor(id, w));
      && (forall c :: c in page ==> c in s.chats && c.owners.regularUserId == Some(id) && InWindow(w, c.createdAt))
      && (forall i, j :: 0 <= i < j < |page| ==> ListedBefore(page[i], page[j]))
      && |page| == (if limit <= 0 then 0 else Min(limit, |matching|))
      && (r.value.hasMore <==> |matching| > limit)
      && multiset(page) <= multiset(matching)
      && (forall c, d :: c in matching && c !in page && d in page ==> ListedBefore(d, c))
  {
    if limit + 1 < 0 then Err(NegativeLimit)
    else
      var matching := Filter(s.chats, ListedFor(id, w));
      var sorted := SortBy(matching, NewestFirst);
      var k := if limit <= 0 then 0 else Min(limit, |sorted|);
      var fetched := PageOfRows(sorted, limit);
      NewestPrefix(matching, sorted, k);
      Ok(ChatPage(fetched.0, fetched.1))
  }

  /** `.limit(limit + 1)` and then the page of at most `limit` rows: the
      first `min(limit, n)` rows, and whether more than `limit` rows came
      back, which happens exactly when more than `limit` were available. */
  function PageOfRows<T>(sorted: seq<T>, limit: int): (r: (seq<T>, bool))
    requires limit + 1 >= 0
    ensures r.0 == sorted[..if limit <= 0 then 0 else Min(limit, |sorted|)]
    ensures r.1 <==> |sorted| > limit
  {
    var rows := if limit + 1 <= |sorted| then sorted[..limit + 1] else sorted;
    var hasMore := |rows| > limit;
    (if hasMore then rows[..if limit < 0 then 0 else limit] else rows, hasMore)
  }

  /** The first `k` chats of the sorted listing are in order, come from the
      matching rows, and are at least as new as every matching row left out. */
  lemma NewestPrefix(matching: seq<Chat>, sorted: seq<Chat>, k: nat)
    requires SortedBy(sorted, NewestFirst) && multiset(sorted) == multiset(matching)
    requires k <= |sorted|
    ensures forall i, j :: 0 <= i < j < k ==> ListedBefore(sorted[..k][i], sorted[..k][j])
    ensures multiset(sorted[..k]) <= multiset(matching)
    ensures forall c :: c in sorted[..k] ==> c in matching
    ensures forall c, d :: c in matching && c !in sorted[..k] && d in sorted[..k] ==> ListedBefore(d, c)
  {
    PrefixOfPermutation(matching, sorted, k);
    PrefixBeatsRest(matching, sorted, k);
  }

  /** A prefix of a reordering of `matching` draws its rows from `matching`. */
  lemma PrefixOfPermutation<T>(matching: seq<T>, sorted: seq<T>, k: nat)
    requires multiset(sorted) == multiset(matching) && k <= |sorted|
    ensures multiset(sorted[..k]) <= multiset(matching)
    ensures forall c :: c in sorted[..k] ==> c in matching
  {
    assert sorted == sorted[..k] + sorted[k..];
    assert multiset(sorted) == multiset(sorted[..k]) + multiset(sorted[k..]);
    forall c | c in sorted[..k] ensures c in matching {
      assert c in multiset(sorted[..k]);
      assert c in multiset(matching);
    }
  }

  lemma PrefixBeatsRest(matching: seq<Chat>, sorted: seq<Chat>, k: nat)
    requires SortedBy(sorted, NewestFirst) && multiset(sorted) == multiset(matching)
    requires k <= |sorted|
    ensures forall c, d :: c in matching && c !in sorted[..k] && d in sorted[..k] ==> ListedBefore(d, c)
  {
    var page := sorted[..k];
    forall c, d | c in matching && c !in page && d in page ensures ListedBefore(d, c) {
      assert c in multiset(sorted);
      var p :| 0 <= p < |sorted| && sorted[p] == c;
      var q :| 0 <= q < |page| && page[q] == d;
      assert KeyLe(NewestFirst(sorted[q]), NewestFirst(sorted[p]));
    }
  }

  /** The cursor that decides the window: `startingAfter` when given, else
      `endingBefore`. */
  function CursorInUse(startingAfter: Option<Uuid>, endingBefore: Option<Uuid>): Option<Uuid> {
    if startingAfter.Some? then startingAfter else endingBefore
  }

  /** The window a cursor selects, or the cursor that names no chat. The
      `startingAfter` cursor is consulted first and the other is then ignored. */
  function CursorWindow(s: Store, startingAfter: Option<Uuid>, endingBefore: Option<Uuid>): (r: Result<Window, DbError>)
    ensures var cursor := CursorInUse(startingAfter, endingBefore);
      r.Err? <==> cursor.Some? && cursor.value !in ChatIds(s)
    ensures r.Err? ==> r.error == CursorNotFound(CursorInUse(startingAfter, endingBefore).value)
    ensures r.Ok? && startingAfter.Some? ==>
      && FindChat(s, startingAfter.value).Some?
      && forall t :: InWindow(r.value, t) <==> t > FindChat(s, startingAfter.value).value.createdAt
    ensures r.Ok? && startingAfter.None? && endingBefore.Some? ==>
      && FindChat(s, endingBefore.value).Some?
      && forall t :: InWindow(r.value, t) <==> t < FindChat(s, endingBefore.value).value.createdAt
    ensures r.Ok? && startingAfter.None? && endingBefore.None? ==> forall t :: InWindow(r.value, t)
  {
    match (startingAfter, endingBefore)
    case (Some(a), _) =>
      (match FindChat(s, a)
       case None => Err(CursorNotFound(a))
       case Some(k) => Ok(NewerThan(k.createdAt)))
    case (None, Some(b)) =>
      (match FindChat(s, b)
       case None => Err(CursorNotFound(b))
       case Some(k) => Ok(OlderThan(k.createdAt)))
    case (None, None) => Ok(Unbounded)
  }

  /** `getChatsByUserId`: the cursor chat is looked up first (an unknown id
      throws), then the listing runs in the window it selects. */
  function GetChatsByUserId(s: Store, id: Uuid, limit: int, startingAfter: Option<Uuid>, endingBefore: Option<Uuid>)
    : (r: Result<ChatPage, DbError>)
    ensures startingAfter.Some? && startingAfter.value !in ChatIds(s) ==> r == Err(CursorNotFound(startingAfter.value))
    ensures startingAfter.None? && endingBefore.Some? && endingBefore.value !in ChatIds(s) ==>
      r == Err(CursorNotFound(endingBefore.value))
    ensures r.Err? <==>
      || limit + 1 < 0
      || (startingAfter.Some? && startingAfter.value !in ChatIds(s))
      || (startingAfter.None? && endingBefore.Some? && endingBefore.value !in ChatIds(s))
    ensures r.Ok? ==>
      && (forall c :: c in r.value.chats ==> c in s.chats && c.owners.regularUserId == Some(id))
      && (forall i, j :: 0 <= i < j < |r.value.chats| ==> ListedBefore(r.value.chats[i], r.value.chats[j]))
      && |r.value.chats| <= (if limit < 0 then 0 else limit)
    ensures r.Ok? ==>
      var w := CursorWindow(s, startingAfter, endingBefore);
      && w.Ok?
      && (forall c :: c in r.value.chats ==> InWindow(w.value, c.createdAt))
      && (r.value.hasMore <==> |Filter(s.chats, ListedFor(id, w.value))| > limit)
  {
    var window := CursorWindow(s, startingAfter, endingBefore);
    if window.Err? then Err(window.error)
    else ListChats(s, id, limit, window.value)
  }

  /** Every chat listed after the `startingAfter` cursor is strictly newer
      than the cursor chat; `endingBefore` is ignored. */
  lemma StartingAfterBound(s: Store, id: Uuid, limit: int, startingAfter: Uuid, endingBefore: Option<Uuid>)
    ensures var r := GetChatsByUserId(s, id, limit, Some(startingAfter), endingBefore);
      r.Ok? ==>
        && FindChat(s, startingAfter).Some?
        && forall c :: c in r.value.chats ==> c.createdAt > FindChat(s, startingAfter).value.createdAt
  {
    var r := GetChatsByUserId(s, id, limit, Some(startingAfter), endingBefore);
    if r.Ok? {
      var k := FindChat(s, startingAfter).value;
      assert r == ListChats(s, id, limit, NewerThan(k.createdAt));
    }
  }

  /** Every chat listed before the `endingBefore` cursor (with no
      `startingAfter`) is strictly older than the cursor chat. */
  lemma EndingBeforeBound(s: Store, id: Uuid, limit: int, endingBefore: Uuid)
    ensures var r := GetChatsByUserId(s, id, limit, None, Some(endingBefore));
      r.Ok? ==>
        && FindChat(s, endingBefore).Some?
        && forall c :: c in r.value.chats ==> c.createdAt < FindChat(s, endingBefore).value.createdAt
  {
    var r := GetChatsByUserId(s, id, limit, None, Some(endingBefore));
    if r.Ok? {
      var k := FindChat(s, endingBefore).value;
      assert r == ListChats(s, id, limit, OlderThan(k.createdAt));
    }
  }

  /** When both cursors are given, the `endingBefore` one makes no difference. */
  lemma StartingAfterWins(s: Store, id: Uuid, limit: int, startingAfter: Uuid, endingBefore: Option<Uuid>)
    ensures GetChatsByUserId(s, id, limit, Some(startingAfter), endingBefore)
         == GetChatsByUserId(s, id, limit, Some(startingAfter), None)
  {
  }

  // ---------------------------------------------------------------------------
  // Messages
  // ---------------------------------------------------------------------------

  /** `saveMessages`: inserts all the rows in one statement, so either all
      of them land or none does. An empty batch throws before reaching the
      database; a repeated id or an unknown chat fails the statement. */
  function SaveMessages(s: Store, messages: seq<Message>): (r: Outcome<()>)
    ensures r.result.Err? <==>
      || |messages| == 0
      || !KeysDistinct(s.messages + messages, MessageKey)
      || (exists m :: m in messages && m.chatId !in ChatIds(s))
    ensures r.result.Err? ==> r.store == s
    ensures r.result.Err? ==> r.result.error == (if |messages| == 0 then EmptyValues else ConstraintViolation)
    ensures r.result.Ok? ==>
      && |r.store.messages| == |s.messages| + |messages|
      && r.store.messages[..|s.messages|] == s.messages
      && r.store.messages[|s.messages|..] == messages
    ensures OnlyMessagesAndVotesChanged(s, r.store) && r.store.votes == s.votes
    ensures Valid(s) ==> Valid(r.store)
  {
    if |messages| == 0 then Outcome(s, Err(EmptyValues))
    else if !KeysDistinct(s.messages + messages, MessageKey) || (exists m :: m in messages && m.chatId !in ChatIds(s)) then
      Outcome(s, Err(ConstraintViolation))
    else
      var t := s.(messages := s.messages + messages);
      assert t.messages[..|s.messages|] == s.messages && t.messages[|s.messages|..] == messages;
      SaveMessagesKeepsValid(s, messages);
      Outcome(t, Ok(()))
  }

  lemma SaveMessagesKeepsValid(s: Store, messages: seq<Message>)
    requires KeysDistinct(s.messages + messages, MessageKey)
    requires forall m :: m in messages ==> m.chatId in ChatIds(s)
    ensures Valid(s) ==> Valid(s.(messages := s.messages + messages))
  {
    var t := s.(messages := s.messages + messages);
    if Valid(s) {
      assert MessageIds(s) <= MessageIds(t) by {
        forall k | k in MessageIds(s) ensures k in MessageIds(t) {
          var x := RowOfKey(s.messages, MessageKey, k);
          KeyOfRow(t.messages, MessageKey, x);
        }
      }
    }
  }

  /** `ORDER BY createdAt`, with no further tie-break. */
  function OldestMessageFirst(m: Message): Key {
    Key(m.createdAt, 0)
  }

  /** `getMessagesByChatId`: the chat's messages, oldest first. Messages
      created at the same instant come in no promised order. */
  function GetMessagesByChatId(s: Store, id: Uuid): (r: seq<Message>)
    ensures forall m :: m in r <==> m in s.messages && m.chatId == id
    ensures multiset(r) == multiset(Filter(s.messages, MessageInChat(id)))
    ensures forall i, j :: 0 <= i < j < |r| ==> r[i].createdAt <= r[j].createdAt
  {
    SortBy(Filter(s.messages, MessageInChat(id)), OldestMessageFirst)
  }

  /** The messages of `chatId` created at or after `timestamp`. */
  function MessageInChatFrom(chatId: Uuid, timestamp: Timestamp): Message -> bool {
    (m: Message) => m.chatId == chatId && m.createdAt >= timestamp
  }

  function VoteInChatOn(chatId: Uuid, ids: set<Uuid>): Vote -> bool {
    (v: Vote) => v.chatId == chatId && v.messageId in ids
  }

  function MessageInChatAmong(chatId: Uuid, ids: set<Uuid>): Message -> bool {
    (m: Message) => m.chatId == chatId && m.id in ids
  }

  /** The ids of the messages the truncation removes. */
  ghost function DoomedIds(s: Store, chatId: Uuid, timestamp: Timestamp): set<Uuid> {
    set m | m in s.messages && m.chatId == chatId && m.createdAt >= timestamp :: m.id
  }

  /** `deleteMessagesByChatIdAfterTimestamp`: selects the ids of the chat's
      messages created at or after `timestamp` (inclusive); when there are
      any, deletes the chat's votes on them and then the messages, as two
      separate statements. The message delete fails while a vote recorded
      under another chat still references one of them, leaving the vote
      delete in place. */
  function DeleteMessagesByChatIdAfterTimestamp(s: Store, chatId: Uuid, timestamp: Timestamp): (r: Outcome<()>)
    ensures r.result.Err? <==>
      exists v :: v in s.votes && v.chatId != chatId && v.messageId in DoomedIds(s, chatId, timestamp)
    ensures r.result.Err? ==> r.result.error == ConstraintViolation && r.store.messages == s.messages
    ensures forall v :: v in r.store.votes <==>
      v in s.votes && !(v.chatId == chatId && v.messageId in DoomedIds(s, chatId, timestamp))
    ensures r.result.Ok? ==> forall m :: m in r.store.messages <==>
      m in s.messages && !(m.chatId == chatId && m.id in DoomedIds(s, chatId, timestamp))
    ensures r.result.Ok? && KeysDistinct(s.messages, MessageKey) ==> forall m :: m in r.store.messages <==>
      m in s.messages && !(m.chatId == chatId && m.createdAt >= timestamp)
    ensures OnlyMessagesAndVotesChanged(s, r.store)
    ensures Valid(s) ==> Valid(r.store)
  {
    var ids := Keys(Filter(s.messages, MessageInChatFrom(chatId, timestamp)), MessageKey);
    DoomedIdsSelected(s, chatId, timestamp);
    if ids == {} then
      Outcome(s, Ok(()))
    else
      var afterVotes := s.(votes := Filter(s.votes, Not(VoteInChatOn(chatId, ids))));
      DeleteVotesKeepsValid(s, Not(VoteInChatOn(chatId, ids)));
      if exists v :: v in afterVotes.votes && v.messageId in ids then
        Outcome(afterVotes, Err(ConstraintViolation))
      else
        var t := afterVotes.(messages := Filter(s.messages, Not(MessageInChatAmong(chatId, ids))));
        TruncateKeepsValid(afterVotes, chatId, ids, t);
        TruncateByTime(s, chatId, timestamp, t.messages);
        Outcome(t, Ok(()))
  }

  /** The ids the delete selects are exactly `DoomedIds`. */
  lemma DoomedIdsSelected(s: Store, chatId: Uuid, timestamp: Timestamp)
    ensures Keys(Filter(s.messages, MessageInChatFrom(chatId, timestamp)), MessageKey) == DoomedIds(s, chatId, timestamp)
  {
    var f := Filter(s.messages, MessageInChatFrom(chatId, timestamp));
    forall k | k in DoomedIds(s, chatId, timestamp) ensures k in Keys(f, MessageKey) {
      var m :| m in s.messages && m.chatId == chatId && m.createdAt >= timestamp && m.id == k;
      KeyOfRow(f, MessageKey, m);
    }
    forall k | k in Keys(f, MessageKey) ensures k in DoomedIds(s, chatId, timestamp) {
      var m := RowOfKey(f, MessageKey, k);
    }
  }

  /** With distinct message ids, removing the chat's messages whose ids were
      selected by time removes exactly the chat's messages from that time on. */
  lemma TruncateByTime(s: Store, chatId: Uuid, timestamp: Timestamp, kept: seq<Message>)
    requires kept == Filter(s.messages, Not(MessageInChatAmong(chatId, DoomedIds(s, chatId, timestamp))))
    ensures KeysDistinct(s.messages, MessageKey) ==> forall m :: m in kept <==>
      m in s.messages && !(m.chatId == chatId && m.createdAt >= timestamp)
  {
    if KeysDistinct(s.messages, MessageKey) {
      forall m | m in s.messages && m.chatId == chatId && m.id in DoomedIds(s, chatId, timestamp)
        ensures m.createdAt >= timestamp
      {
        var n :| n in s.messages && n.chatId == chatId && n.createdAt >= timestamp && n.id == m.id;
        KeyDeterminesRow(s.messages, MessageKey, m, n);
      }
    }
  }

  lemma TruncateKeepsValid(s: Store, chatId: Uuid, ids: set<Uuid>, t: Store)
    requires !exists v :: v in s.votes && v.messageId in ids
    requires t == s.(messages := Filter(s.messages, Not(MessageInChatAmong(chatId, ids))))
    ensures Valid(s) ==> Valid(t)
  {
    if Valid(s) {
      FilterKeysDistinct(s.messages, Not(MessageInChatAmong(chatId, ids)), MessageKey);
      forall v | v in t.votes ensures v.messageId in MessageIds(t) {
        var m := RowOfKey(s.messages, MessageKey, v.messageId);
        assert m in t.messages;
        KeyOfRow(t.messages, MessageKey, m);
      }
    }
  }

  /** Truncating a chat twice at the same time is truncating it once,
      whether the first run succeeded or failed half way. */
  lemma DeleteMessagesAfterIdempotent(s: Store, chatId: Uuid, timestamp: Timestamp)
    ensures var once := DeleteMessagesByChatIdAfterTimestamp(s, chatId, timestamp);
      DeleteMessagesByChatIdAfterTimestamp(once.store, chatId, timestamp) == once
  {
    var once := DeleteMessagesByChatIdAfterTimestamp(s, chatId, timestamp);
    var ids := Keys(Filter(s.messages, MessageInChatFrom(chatId, timestamp)), MessageKey);
    if ids != {} {
      FilterTwice(s.votes, Not(VoteInChatOn(chatId, ids)));
      if once.result.Ok? {
        var kept := once.store.messages;
        FilterEmpty(kept, MessageInChatFrom(chatId, timestamp));
        assert Filter(kept, MessageInChatFrom(chatId, timestamp)) == [];
      }
    }
  }

  // ---------------------------------------------------------------------------
  // Counting a user's recent messages
  // ---------------------------------------------------------------------------

  const MS_PER_HOUR: int := 60 * 60 * 1000

  /** The ids of the chats whose regular owner is `id`; guest-owned chats
      never qualify. */
  function RegularChatIds(s: Store, id: Uuid): set<Uuid> {
    set c | c in s.chats && c.owners.regularUserId == Some(id) :: c.id
  }

  /** The rows the count's inner join and `WHERE` keep. */
  function CountedMessage(chatIds: set<Uuid>, since: Timestamp): Message -> bool {
    (m: Message) => m.chatId in chatIds && m.createdAt >= since && m.role == "user"
  }

  /** A message the count is about: sent by the user (`role = 'user'`), at
      or after `since`, in a chat the user owns as a regular user. */
  ghost predicate Counted(s: Store, id: Uuid, since: Timestamp, m: Message) {
    && m.role == "user"
    && m.createdAt >= since
    && exists c :: c in s.chats && c.id == m.chatId && c.owners.regularUserId == Some(id)
  }

  /** `getMessageCountByUserId`: how many user messages the user sent in
      their own chats during the last `differenceInHours` hours before `now`. */
  function GetMessageCountByUserId(s: Store, id: Uuid, differenceInHours: int, now: Timestamp): (n: nat)
    ensures n <= |s.messages|
    ensures KeysDistinct(s.messages, MessageKey) ==>
      n == |set m | m in s.messages && Counted(s, id, now - differenceInHours * MS_PER_HOUR, m)|
  {
    var since := now - differenceInHours * MS_PER_HOUR;
    var keep := CountedMessage(RegularChatIds(s, id), since);
    CountIsCardinality(s, id, since);
    |Filter(s.messages, keep)|
  }

  /** With distinct message ids, the number of joined rows is the number of
      counted messages. */
  lemma CountIsCardinality(s: Store, id: Uuid, since: Timestamp)
    ensures KeysDistinct(s.messages, MessageKey) ==>
      |Filter(s.messages, CountedMessage(RegularChatIds(s, id), since))|
      == |set m | m in s.messages && Counted(s, id, since, m)|
  {
    if KeysDistinct(s.messages, MessageKey) {
      var keep := CountedMessage(RegularChatIds(s, id), since);
      DistinctFilterSize(s.messages, keep, MessageKey);
      CountedMatches(s, id, since);
      var a := Selected(s.messages, keep);
      var b := set m | m in s.messages && Counted(s, id, since, m);
      assert a == b by {
        forall m | m in a ensures m in b {
          assert keep(m);
        }
        forall m | m in b ensures m in a {
          assert Counted(s, id, since, m);
        }
      }
    }
  }

  /** The join on the owned chats' ids selects exactly the counted messages. */
  lemma CountedMatches(s: Store, id: Uuid, since: Timestamp)
    ensures forall m :: CountedMessage(RegularChatIds(s, id), since)(m) <==> Counted(s, id, since, m)
  {
    forall m ensures CountedMessage(RegularChatIds(s, id), since)(m) <==> Counted(s, id, since, m) {
      if m.chatId in RegularChatIds(s, id) {
        var c :| c in s.chats && c.owners.regularUserId == Some(id) && c.id == m.chatId;
      }
    }
  }

  /** A message saved into a chat the user does not own as a regular user
      leaves the user's count unchanged; in particular, messages in guest
      chats are never counted. */
  lemma CountIgnoresOtherChats(s: Store, id: Uuid, differenceInHours: int, now: Timestamp, m: Message)
    requires forall c :: c in s.chats && c.id == m.chatId ==> c.owners.regularUserId != Some(id)
    ensures GetMessageCountByUserId(SaveMessages(s, [m]).store, id, differenceInHours, now)
         == GetMessageCountByUserId(s, id, differenceInHours, now)
  {
    var t := SaveMessages(s, [m]).store;
    if t != s {
      var keep := CountedMessage(RegularChatIds(s, id), now - differenceInHours * MS_PER_HOUR);
      assert t.messages == s.messages + [m];
      FilterAppend(s.messages, [m], keep);
      assert Filter([m], keep) == [];
    }
  }

  /** Saving a user message in one of the user's own chats inside the window
      raises the count by exactly one. */
  lemma CountsNewUserMessage(s: Store, id: Uuid, differenceInHours: int, now: Timestamp, m: Message)
    requires SaveMessages(s, [m]).result.Ok?
    requires m.role == "user" && m.createdAt >= now - differenceInHours * MS_PER_HOUR
    requires exists c :: c in s.chats && c.id == m.chatId && c.owners.regularUserId == Some(id)
    ensures GetMessageCountByUserId(SaveMessages(s, [m]).store, id, differenceInHours, now)
         == GetMessageCountByUserId(s, id, differenceInHours, now) + 1
  {
    var t := SaveMessages(s, [m]).store;
    var keep := CountedMessage(RegularChatIds(s, id), now - differenceInHours * MS_PER_HOUR);
    assert t.messages == s.messages + [m];
    FilterAppend(s.messages, [m], keep);
    var c :| c in s.chats && c.id == m.chatId && c.owners.regularUserId == Some(id);
    assert m.chatId in RegularChatIds(s, id);
    assert Filter([m], keep) == [m];
  }

  /** A longer window never counts fewer messages. */
  lemma CountWindowMonotone(s: Store, id: Uuid, shorter: int, longer: int, now: Timestamp)
    requires shorter <= longer
    ensures GetMessageCountByUserId(s, id, shorter, now) <= GetMessageCountByUserId(s, id, longer, now)
  {
    var ids := RegularChatIds(s, id);
    assert now - shorter * MS_PER_HOUR >= now - longer * MS_PER_HOUR by {
      assert (longer - shorter) * MS_PER_HOUR >= 0;
    }
    FilterMonotone(s.messages, CountedMessage(ids, now - shorter * MS_PER_HOUR),
                   CountedMessage(ids, now - longer * MS_PER_HOUR));
  }

  // ---------------------------------------------------------------------------
  // Votes
  // ---------------------------------------------------------------------------

  datatype VoteType = Up | Down

  function SetUpvoted(chatId: Uuid, messageId: Uuid, isUpvoted: bool): Vote -> Vote {
    (v: Vote) => if VoteKey(v) == (chatId, messageId) then v.(isUpvoted := isUpvoted) else v
  }

  /** `voteMessage`: an upsert keyed by (chatId, messageId). An existing vote
      has its polarity rewritten in place; otherwise a new vote is inserted,
      which fails unless the chat and the message exist. */
  function VoteMessage(s: Store, chatId: Uuid, messageId: Uuid, voteType: VoteType): (r: Outcome<()>)
    ensures r.result.Err? <==>
      (chatId, messageId) !in Keys(s.votes, VoteKey) && (chatId !in ChatIds(s) || messageId !in MessageIds(s))
    ensures r.result.Err? ==> r.store == s && r.result.error == ConstraintViolation
    ensures r.result.Ok? ==> (chatId, messageId) in Keys(r.store.votes, VoteKey)
    ensures forall v :: v in r.store.votes && VoteKey(v) == (chatId, messageId) ==> v.isUpvoted == (voteType == Up)
    ensures forall v :: VoteKey(v) != (chatId, messageId) ==> (v in r.store.votes <==> v in s.votes)
    ensures OnlyVotesChanged(s, r.store)
    ensures Valid(s) ==> Valid(r.store)
  {
    var isUpvoted := voteType == Up;
    if (chatId, messageId) in Keys(s.votes, VoteKey) then
      var t := s.(votes := MapRows(s.votes, SetUpvoted(chatId, messageId, isUpvoted)));
      UpdateVotesKeepsValid(s, chatId, messageId, isUpvoted);
      Outcome(t, Ok(()))
    else if chatId !in ChatIds(s) || messageId !in MessageIds(s) then
      Outcome(s, Err(ConstraintViolation))
    else
      var v := Vote(chatId, messageId, isUpvoted);
      var t := s.(votes := s.votes + [v]);
      KeyOfRow(t.votes, VoteKey, v);
      InsertVoteKeepsValid(s, v);
      Outcome(t, Ok(()))
  }

  lemma UpdateVotesKeepsValid(s: Store, chatId: Uuid, messageId: Uuid, isUpvoted: bool)
    requires (chatId, messageId) in Keys(s.votes, VoteKey)
    ensures var t := s.(votes := MapRows(s.votes, SetUpvoted(chatId, messageId, isUpvoted)));
      && (chatId, messageId) in Keys(t.votes, VoteKey)
      && (forall v :: v in t.votes && VoteKey(v) == (chatId, messageId) ==> v.isUpvoted == isUpvoted)
      && (forall v :: VoteKey(v) != (chatId, messageId) ==> (v in t.votes <==> v in s.votes))
      && (Valid(s) ==> Valid(t))
  {
    var f := SetUpvoted(chatId, messageId, isUpvoted);
    var t := s.(votes := MapRows(s.votes, f));
    MapRowsKeys(s.votes, f, VoteKey);
    UpdatedVoteRows(s.votes, chatId, messageId, isUpvoted);
    if Valid(s) {
      MapRowsKeysDistinct(s.votes, f, VoteKey);
      forall v | v in t.votes ensures v.chatId in ChatIds(t) && v.messageId in MessageIds(t) {
        var i :| 0 <= i < |t.votes| && t.votes[i] == v;
        assert s.votes[i] in s.votes;
      }
    }
  }

  /** Rewriting the polarity of one vote leaves every other vote as it was. */
  lemma UpdatedVoteRows(votes: seq<Vote>, chatId: Uuid, messageId: Uuid, isUpvoted: bool)
    ensures var updated := MapRows(votes, SetUpvoted(chatId, messageId, isUpvoted));
      && (forall v :: v in updated && VoteKey(v) == (chatId, messageId) ==> v.isUpvoted == isUpvoted)
      && (forall v :: VoteKey(v) != (chatId, messageId) ==> (v in updated <==> v in votes))
  {
    var updated := MapRows(votes, SetUpvoted(chatId, messageId, isUpvoted));
    forall v | v in updated && VoteKey(v) == (chatId, messageId) ensures v.isUpvoted == isUpvoted {
      var i :| 0 <= i < |updated| && updated[i] == v;
    }
    forall v | VoteKey(v) != (chatId, messageId) ensures v in updated <==> v in votes {
      if v in updated {
        var i :| 0 <= i < |updated| && updated[i] == v;
        assert votes[i] in votes;
      }
      if v in votes {
        var i :| 0 <= i < |votes| && votes[i] == v;
        assert updated[i] == v;
      }
    }
  }

  lemma InsertVoteKeepsValid(s: Store, v: Vote)
    requires VoteKey(v) !in Keys(s.votes, VoteKey)
    requires v.chatId in ChatIds(s) && v.messageId in MessageIds(s)
    ensures Valid(s) ==> Valid(s.(votes := s.votes + [v]))
  {
    if Valid(s) {
      AppendKeysDistinct(s.votes, [v], VoteKey);
    }
  }

  /** The stored polarity is that of the latest vote: voting twice on the
      same message is voting once with the second polarity. Taking the same
      polarity twice shows the upsert is idempotent. */
  lemma VoteLatestWins(s: Store, chatId: Uuid, messageId: Uuid, first: VoteType, second: VoteType)
    ensures VoteMessage(VoteMessage(s, chatId, messageId, first).store, chatId, messageId, second)
         == VoteMessage(s, chatId, messageId, second)
  {
    var once := VoteMessage(s, chatId, messageId, first);
    if once.result.Ok? {
      if (chatId, messageId) in Keys(s.votes, VoteKey) {
        RewriteTwice(s.votes, chatId, messageId, first == Up, second == Up);
      } else {
        RewriteInserted(s.votes, chatId, messageId, first == Up, second == Up);
      }
    }
  }

  /** Rewriting a polarity twice is rewriting it once, to the second value. */
  lemma RewriteTwice(votes: seq<Vote>, chatId: Uuid, messageId: Uuid, first: bool, second: bool)
    ensures MapRows(MapRows(votes, SetUpvoted(chatId, messageId, first)), SetUpvoted(chatId, messageId, second))
         == MapRows(votes, SetUpvoted(chatId, messageId, second))
  {
    var once := MapRows(votes, SetUpvoted(chatId, messageId, first));
    var twice := MapRows(once, SetUpvoted(chatId, messageId, second));
    var direct := MapRows(votes, SetUpvoted(chatId, messageId, second));
    assert |twice| == |direct|;
    forall i | 0 <= i < |direct| ensures twice[i] == direct[i] {
      assert once[i] == SetUpvoted(chatId, messageId, first)(votes[i]);
    }
  }

  /** Rewriting the polarity of a just-inserted vote whose key was new is
      inserting it with the rewritten polarity. */
  lemma RewriteInserted(votes: seq<Vote>, chatId: Uuid, messageId: Uuid, first: bool, second: bool)
    requires (chatId, messageId) !in Keys(votes, VoteKey)
    ensures MapRows(votes + [Vote(chatId, messageId, first)], SetUpvoted(chatId, messageId, second))
         == votes + [Vote(chatId, messageId, second)]
  {
    var once := votes + [Vote(chatId, messageId, first)];
    var twice := MapRows(once, SetUpvoted(chatId, messageId, second));
    var direct := votes + [Vote(chatId, messageId, second)];
    assert |twice| == |direct|;
    forall i | 0 <= i < |direct| ensures twice[i] == direct[i] {
      if i < |votes| {
        assert once[i] == votes[i];
        KeyOfRow(votes, VoteKey, votes[i]);
      }
    }
  }

  function VoteInChat(id: Uuid): Vote -> bool { (v: Vote) => v.chatId == id }

  /** `getVotesByChatId`: the chat's votes, in storage order. */
  function GetVotesByChatId(s: Store, id: Uuid): (r: seq<Vote>)
    ensures forall v :: v in r <==> v in s.votes && v.chatId == id
    ensures multiset(r) <= multiset(s.votes)
  {
    Filter(s.votes, VoteInChat(id))
  }

  // ---------------------------------------------------------------------------
  // Documents
  // ---------------------------------------------------------------------------

  /** `saveDocument`: inserts a new version of document `id`, created at
      `now` and owned by the regular user `userId`; the insert fails when
      that id already has a version at the same instant. Returns the row. */
  function SaveDocument(s: Store, id: Uuid, title: string, kind: ArtifactKind, content: string, userId: Uuid, now: Timestamp)
    : (r: Outcome<Document>)
    ensures r.result.Err? <==> (id, now) in DocumentKeys(s)
    ensures r.result.Err? ==> r.store == s && r.result.error == ConstraintViolation
    ensures r.result.Ok? ==>
      var d := r.result.value;
      && d.id == id && d.createdAt == now && d.title == title && d.kind == kind && d.content == Some(content)
      && d.owners == Owners(Some(userId), None)
      && r.store.documents == s.documents + [d]
    ensures OnlyDocumentsAndSuggestionsChanged(s, r.store) && r.store.suggestions == s.suggestions
    ensures Valid(s) ==> Valid(r.store)
  {
    if (id, now) in DocumentKeys(s) then Outcome(s, Err(ConstraintViolation))
    else
      var d := Document(id, now, title, Some(content), kind, Owners(Some(userId), None));
      SaveDocumentKeepsValid(s, d);
      Outcome(s.(documents := s.documents + [d]), Ok(d))
  }

  lemma SaveDocumentKeepsValid(s: Store, d: Document)
    requires DocumentKey(d) !in DocumentKeys(s)
    requires GuestRefOk(d.owners, s.guests)
    ensures Valid(s) ==> Valid(s.(documents := s.documents + [d]))
  {
    var t := s.(documents := s.documents + [d]);
    if Valid(s) {
      AppendKeysDistinct(s.documents, [d], DocumentKey);
      forall x | x in t.suggestions ensures (x.documentId, x.documentCreatedAt) in DocumentKeys(t) {
        var e := RowOfKey(s.documents, DocumentKey, (x.documentId, x.documentCreatedAt));
        KeyOfRow(t.documents, DocumentKey, e);
      }
    }
  }

  function DocumentWithId(id: Uuid): Document -> bool { (d: Document) => d.id == id }

  /** `ORDER BY createdAt` and `ORDER BY createdAt DESC`. */
  function OldestVersionFirst(d: Document): Key { Key(d.createdAt, 0) }
  function LatestVersionFirst(d: Document): Key { Key(-d.createdAt, 0) }

  /** `getDocumentsById`: every version of the document, oldest first. */
  function GetDocumentsById(s: Store, id: Uuid): (r: seq<Document>)
    ensures forall d :: d in r <==> d in s.documents && d.id == id
    ensures multiset(r) == multiset(Filter(s.documents, DocumentWithId(id)))
    ensures forall i, j :: 0 <= i < j < |r| ==> r[i].createdAt <= r[j].createdAt
  {
    SortBy(Filter(s.documents, DocumentWithId(id)), OldestVersionFirst)
  }

  /** `getDocumentById`: the first row of the versions newest first, that is
      the latest version, or nothing when the document has no version. */
  function GetDocumentById(s: Store, id: Uuid): (r: Option<Document>)
    ensures r.None? <==> forall d :: d in s.documents ==> d.id != id
    ensures r.Some? ==> r.value in s.documents && r.value.id == id
    ensures r.Some? ==> forall d :: d in s.documents && d.id == id ==> d.createdAt <= r.value.createdAt
  {
    var versions := SortBy(Filter(s.documents, DocumentWithId(id)), LatestVersionFirst);
    if |versions| == 0 then None
    else
      assert versions[0] in versions;
      HeadIsLatest(s.documents, id, versions);
      Some(versions[0])
  }

  /** The first of the versions ordered newest first is no older than any. */
  lemma HeadIsLatest(docs: seq<Document>, id: Uuid, versions: seq<Document>)
    requires |versions| > 0 && SortedBy(versions, LatestVersionFirst)
    requires forall d :: d in versions <==> d in docs && d.id == id
    ensures forall d :: d in docs && d.id == id ==> d.createdAt <= versions[0].createdAt
  {
    forall d | d in docs && d.id == id ensures d.createdAt <= versions[0].createdAt {
      var k :| 0 <= k < |versions| && versions[k] == d;
      if k > 0 {
        assert KeyLe(LatestVersionFirst(versions[0]), LatestVersionFirst(versions[k]));
      }
    }
  }

  /** Saving a version newer than every existing one makes it the version
      `getDocumentById` returns. */
  lemma SavedDocumentIsLatest(s: Store, id: Uuid, title: string, kind: ArtifactKind, content: string, userId: Uuid, now: Timestamp)
    requires forall d :: d in s.documents && d.id == id ==> d.createdAt < now
    ensures var r := SaveDocument(s, id, title, kind, content, userId, now);
      r.result.Ok? && GetDocumentById(r.store, id) == Some(r.result.value)
  {
    var r := SaveDocument(s, id, title, kind, content, userId, now);
    if (id, now) in DocumentKeys(s) {
      var e := RowOfKey(s.documents, DocumentKey, (id, now));
    }
    var d := r.result.value;
    assert d in r.store.documents;
    var latest := GetDocumentById(r.store, id);
    assert latest.value.createdAt >= now;
  }

  function VersionAfter(id: Uuid, timestamp: Timestamp): Document -> bool {
    (d: Document) => d.id == id && d.createdAt > timestamp
  }

  function SuggestionOnVersionAfter(id: Uuid, timestamp: Timestamp): Suggestion -> bool {
    (x: Suggestion) => x.documentId == id && x.documentCreatedAt > timestamp
  }

  /** `deleteDocumentsByIdAfterTimestamp`: deletes the suggestions on the
      versions created strictly after `timestamp`, then those versions,
      returning the deleted versions. The suggestions go first, so the
      document delete never trips the suggestions' foreign key. */
  function DeleteDocumentsByIdAfterTimestamp(s: Store, id: Uuid, timestamp: Timestamp): (r: Outcome<seq<Document>>)
    ensures r.result.Ok?
    ensures forall d :: d in r.result.value <==> d in s.documents && d.id == id && d.createdAt > timestamp
    ensures forall d :: d in r.store.documents <==> d in s.documents && !(d.id == id && d.createdAt > timestamp)
    ensures forall x :: x in r.store.suggestions <==>
      x in s.suggestions && !(x.documentId == id && x.documentCreatedAt > timestamp)
    ensures |r.result.value| + |r.store.documents| == |s.documents|
    ensures OnlyDocumentsAndSuggestionsChanged(s, r.store)
    ensures Valid(s) ==> Valid(r.store)
  {
    var suggestions := Filter(s.suggestions, Not(SuggestionOnVersionAfter(id, timestamp)));
    var deleted := Filter(s.documents, VersionAfter(id, timestamp));
    var t := s.(suggestions := suggestions, documents := Filter(s.documents, Not(VersionAfter(id, timestamp))));
    FilterSplits(s.documents, VersionAfter(id, timestamp));
    DeleteVersionsKeepsValid(s, id, timestamp, t);
    Outcome(t, Ok(deleted))
  }

  lemma DeleteVersionsKeepsValid(s: Store, id: Uuid, timestamp: Timestamp, t: Store)
    requires t == s.(suggestions := Filter(s.suggestions, Not(SuggestionOnVersionAfter(id, timestamp))),
                     documents := Filter(s.documents, Not(VersionAfter(id, timestamp))))
    ensures Valid(s) ==> Valid(t)
  {
    if Valid(s) {
      FilterKeysDistinct(s.documents, Not(VersionAfter(id, timestamp)), DocumentKey);
      FilterKeysDistinct(s.suggestions, Not(SuggestionOnVersionAfter(id, timestamp)), SuggestionKey);
      forall x | x in t.suggestions ensures (x.documentId, x.documentCreatedAt) in DocumentKeys(t) {
        var d := RowOfKey(s.documents, DocumentKey, (x.documentId, x.documentCreatedAt));
        assert d in t.documents;
        KeyOfRow(t.documents, DocumentKey, d);
      }
    }
  }

  /** Truncating a document's history twice at the same time deletes nothing
      the second time. */
  lemma DeleteDocumentsAfterIdempotent(s: Store, id: Uuid, timestamp: Timestamp)
    ensures var once := DeleteDocumentsByIdAfterTimestamp(s, id, timestamp);
      DeleteDocumentsByIdAfterTimestamp(once.store, id, timestamp) == Outcome(once.store, Ok([]))
  {
    var once := DeleteDocumentsByIdAfterTimestamp(s, id, timestamp);
    FilterTwice(s.documents, Not(VersionAfter(id, timestamp)));
    FilterTwice(s.suggestions, Not(SuggestionOnVersionAfter(id, timestamp)));
    FilterEmpty(once.store.documents, VersionAfter(id, timestamp));
  }

  // ---------------------------------------------------------------------------
  // Suggestions
  // ---------------------------------------------------------------------------

  /** `saveSuggestions`: inserts all the rows in one statement. An empty
      batch throws before reaching the database; a repeated id, a missing
      document version or an unknown guest owner fails the statement. */
  function SaveSuggestions(s: Store, suggestions: seq<Suggestion>): (r: Outcome<()>)
    ensures r.result.Err? <==>
      || |suggestions| == 0
      || !KeysDistinct(s.suggestions + suggestions, SuggestionKey)
      || (exists x :: x in suggestions &&
            ((x.documentId, x.documentCreatedAt) !in DocumentKeys(s) || !GuestRefOk(x.owners, s.guests)))
    ensures r.result.Err? ==> r.store == s
    ensures r.result.Err? ==> r.result.error == (if |suggestions| == 0 then EmptyValues else ConstraintViolation)
    ensures r.result.Ok? ==>
      && |r.store.suggestions| == |s.suggestions| + |suggestions|
      && r.store.suggestions[..|s.suggestions|] == s.suggestions
      && r.store.suggestions[|s.suggestions|..] == suggestions
    ensures OnlyDocumentsAndSuggestionsChanged(s, r.store) && r.store.documents == s.documents
    ensures Valid(s) ==> Valid(r.store)
  {
    if |suggestions| == 0 then Outcome(s, Err(EmptyValues))
    else if || !KeysDistinct(s.suggestions + suggestions, SuggestionKey)
            || (exists x :: x in suggestions &&
                  ((x.documentId, x.documentCreatedAt) !in DocumentKeys(s) || !GuestRefOk(x.owners, s.guests)))
    then
      Outcome(s, Err(ConstraintViolation))
    else
      var t := s.(suggestions := s.suggestions + suggestions);
      assert t.suggestions[..|s.suggestions|] == s.suggestions && t.suggestions[|s.suggestions|..] == suggestions;
      Outcome(t, Ok(()))
  }

  function SuggestionOn(documentId: Uuid): Suggestion -> bool { (x: Suggestion) => x.documentId == documentId }

  /** `getSuggestionsByDocumentId`: the suggestions on any version of the
      document, in storage order. */
  function GetSuggestionsByDocumentId(s: Store, documentId: Uuid): (r: seq<Suggestion>)
    ensures forall x :: x in r <==> x in s.suggestions && x.documentId == documentId
    ensures multiset(r) <= multiset(s.suggestions)
  {
    Filter(s.suggestions, SuggestionOn(documentId))
  }
}
