/** The tables of the chat database (lib/db/schema.ts) as immutable rows, and
    the store that holds them. A store is valid when it satisfies the
    constraints the database itself enforces: primary keys never repeat and
    every foreign key names an existing row. */
module Schema {
  import opened Results
  import opened Tables

  /** A uuid column, represented by the 128-bit number it spells; the
      database compares uuids in exactly this numeric order. */
  type Uuid = nat

  /** A `timestamp` column, in milliseconds. */
  type Timestamp = int

  /** A `json` column, kept as its serialised text; the core never looks inside. */
  type Json = string

  datatype Visibility = Public | Private

  /** The `kind` column of a document (the column is named `text`). */
  datatype ArtifactKind = Text | Code | Image | Sheet

  const DEFAULT_VISIBILITY: Visibility := Private
  const DEFAULT_KIND: ArtifactKind := Text
  const DEFAULT_IS_RESOLVED: bool := false

  /** The pair of nullable owner columns carried by chats, documents and
      suggestions: one references `User`, the other `GuestUser`. */
  datatype Owners = Owners(regularUserId: Option<Uuid>, guestUserId: Option<Uuid>)

  /** Exactly one of the two owner columns is set, as the schema comments
      describe; the database itself does not enforce this. */
  predicate SingleOwner(o: Owners) {
    o.regularUserId.Some? != o.guestUserId.Some?
  }

  datatype Chat = Chat(
    id: Uuid,
    createdAt: Timestamp,
    title: string,
    owners: Owners,
    visibility: Visibility)

  datatype Message = Message(
    id: Uuid,
    chatId: Uuid,
    role: string,
    parts: Json,
    attachments: Json,
    createdAt: Timestamp)

  datatype Vote = Vote(chatId: Uuid, messageId: Uuid, isUpvoted: bool)

  datatype Document = Document(
    id: Uuid,
    createdAt: Timestamp,
    title: string,
    content: Option<string>,
    kind: ArtifactKind,
    owners: Owners)

  datatype Suggestion = Suggestion(
    id: Uuid,
    documentId: Uuid,
    documentCreatedAt: Timestamp,
    originalText: string,
    suggestedText: string,
    description: Option<string>,
    isResolved: bool,
    owners: Owners,
    createdAt: Timestamp)

  /** The database: one sequence of rows per table, in storage order, and the
      ids of the `GuestUser` rows. The `User` table is not part of this model. */
  datatype Store = Store(
    chats: seq<Chat>,
    messages: seq<Message>,
    votes: seq<Vote>,
    documents: seq<Document>,
    suggestions: seq<Suggestion>,
    guests: set<Uuid>)

  // Primary keys.

  function ChatKey(c: Chat): Uuid { c.id }
  function MessageKey(m: Message): Uuid { m.id }
  /** Votes are keyed by the pair (chatId, messageId). */
  function VoteKey(v: Vote): (Uuid, Uuid) { (v.chatId, v.messageId) }
  /** Documents are keyed by (id, createdAt): one id may have several versions. */
  function DocumentKey(d: Document): (Uuid, Timestamp) { (d.id, d.createdAt) }
  function SuggestionKey(s: Suggestion): Uuid { s.id }

  function ChatIds(s: Store): set<Uuid> { Keys(s.chats, ChatKey) }
  function MessageIds(s: Store): set<Uuid> { Keys(s.messages, MessageKey) }
  function DocumentKeys(s: Store): set<(Uuid, Timestamp)> { Keys(s.documents, DocumentKey) }

  /** No primary key repeats within its table. */
  ghost predicate KeysUnique(s: Store) {
    && KeysDistinct(s.chats, ChatKey)
    && KeysDistinct(s.messages, MessageKey)
    && KeysDistinct(s.votes, VoteKey)
    && KeysDistinct(s.documents, DocumentKey)
    && KeysDistinct(s.suggestions, SuggestionKey)
  }

  /** A guest owner column, when set, names an existing guest. */
  predicate GuestRefOk(o: Owners, guests: set<Uuid>) {
    o.guestUserId.Some? ==> o.guestUserId.value in guests
  }

  /** Every foreign key the schema declares names an existing row: a
      message's chat, a vote's chat and message, a suggestion's document
      version, and every guest owner. */
  ghost predicate ReferencesResolve(s: Store) {
    && (forall m :: m in s.messages ==> m.chatId in ChatIds(s))
    && (forall v :: v in s.votes ==> v.chatId in ChatIds(s) && v.messageId in MessageIds(s))
    && (forall x :: x in s.suggestions ==> (x.documentId, x.documentCreatedAt) in DocumentKeys(s))
    && (forall c :: c in s.chats ==> GuestRefOk(c.owners, s.guests))
    && (forall d :: d in s.documents ==> GuestRefOk(d.owners, s.guests))
    && (forall x :: x in s.suggestions ==> GuestRefOk(x.owners, s.guests))
  }

  /** The constraints the database enforces on every committed state. */
  ghost predicate Valid(s: Store) {
    KeysUnique(s) && ReferencesResolve(s)
  }

  /** Every chat has exactly one owner: the application-level invariant that
      `saveChat` establishes and the ownership transfer keeps. */
  ghost predicate ChatsSinglyOwned(s: Store) {
    forall c :: c in s.chats ==> SingleOwner(c.owners)
  }

  /** The empty database. */
  function EmptyStore(): (s: Store)
    ensures Valid(s) && ChatsSinglyOwned(s)
  {
    Store([], [], [], [], [], {})
  }
}
