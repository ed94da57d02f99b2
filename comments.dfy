/**
 * The live comment tree of a hike page (src/components/CommentsSection.tsx).
 *
 * The remote store is not modelled: a snapshot arrives as a sequence of
 * documents `(id, fields)`, a listener handle is an opaque number handed out
 * by a counter, and every write the component would send is returned as a
 * `CommentWrite` value ("intent").  `CommentsSync` holds the state the
 * component keeps between callbacks: the comment list and the `replyUnsubs`
 * registry.
 */
module Comments {
  import opened Wrappers
  import opened Text
  import opened Seqs

  datatype Timestamp = Timestamp(seconds: int, nanoseconds: int)

  /** A stored `likes` field: an array of user ids, or anything else (missing, null, not an array). */
  datatype LikesField = LikesArray(uids: seq<string>) | NotAnArray

  /** `d.data()` of a comment or reply document; `None` stands for a missing or null field. */
  datatype DocFields = DocFields(
    text: Option<string>,
    authorUid: Option<string>,
    authorName: Option<string>,
    createdAt: Option<Timestamp>,
    updatedAt: Option<Timestamp>,
    likes: LikesField,
    photoURL: Option<string>)

  /** One document of a snapshot. */
  datatype SnapshotDoc = SnapshotDoc(id: string, fields: DocFields)

  /**
   * The `Comment` interface.  Replies use the same record with `replies == []`;
   * a comment whose `replies` field is absent is represented with `[]` too,
   * since every reader of the field (`existing?.replies ?? []`) treats both alike.
   */
  datatype Comment = Comment(
    id: string,
    text: string,
    authorUid: string,
    authorName: string,
    createdAt: Option<Timestamp>,
    updatedAt: Option<Timestamp>,
    likes: seq<string>,
    photoURL: Option<string>,
    replies: seq<Comment>)

  const Anonymous: string := "Anonyme"

  function LikesOrEmpty(l: LikesField): seq<string> {
    match l
    case LikesArray(u) => u
    case NotAnArray => []
  }

  /**
   * A document read into a `Comment` with the defaults of the source: the
   * fields a snapshot carries are kept, the missing ones get `""`, `""`,
   * `"Anonyme"`, `null`, `null`, `[]`, `null`.
   */
  function FromDoc(d: SnapshotDoc, replies: seq<Comment>): (c: Comment)
    ensures c.id == d.id && c.replies == replies
    ensures d.fields.text.Some? ==> c.text == d.fields.text.value
    ensures d.fields.text.None? ==> c.text == ""
    ensures d.fields.authorUid.Some? ==> c.authorUid == d.fields.authorUid.value
    ensures d.fields.authorUid.None? ==> c.authorUid == ""
    ensures d.fields.authorName.Some? ==> c.authorName == d.fields.authorName.value
    ensures d.fields.authorName.None? ==> c.authorName == Anonymous
    ensures c.createdAt == d.fields.createdAt && c.updatedAt == d.fields.updatedAt
    ensures d.fields.likes.LikesArray? ==> c.likes == d.fields.likes.uids
    ensures d.fields.likes.NotAnArray? ==> c.likes == []
    ensures c.photoURL == d.fields.photoURL
  {
    var f := d.fields;
    Comment(d.id, f.text.GetOr(""), f.authorUid.GetOr(""), f.authorName.GetOr(Anonymous),
            f.createdAt, f.updatedAt, LikesOrEmpty(f.likes), f.photoURL, replies)
  }

  /** A reply read from a replies snapshot: the same defaults, and no replies of its own. */
  function ReplyFromDoc(d: SnapshotDoc): (c: Comment)
    ensures c.id == d.id && c.replies == []
  {
    FromDoc(d, [])
  }

  function Ids(docs: seq<SnapshotDoc>): (r: seq<string>)
    ensures |r| == |docs| && forall i :: 0 <= i < |docs| ==> r[i] == docs[i].id
  {
    Map((d: SnapshotDoc) => d.id, docs)
  }

  function CommentIds(cs: seq<Comment>): (r: seq<string>)
    ensures |r| == |cs| && forall i :: 0 <= i < |cs| ==> r[i] == cs[i].id
  {
    Map((c: Comment) => c.id, cs)
  }

  /** Position of the first comment with that id, or -1. */
  function FirstIndexOf(prev: seq<Comment>, id: string): (k: int)
    ensures -1 <= k < |prev|
    ensures k == -1 <==> id !in CommentIds(prev)
    ensures k >= 0 ==> prev[k].id == id && id !in CommentIds(prev[..k])
  {
    if prev == [] then -1
    else if prev[0].id == id then 0
    else
      var k := FirstIndexOf(prev[1..], id);
      assert CommentIds(prev) == [prev[0].id] + CommentIds(prev[1..]);
      assert k >= 0 ==> CommentIds(prev[..k + 1]) == [prev[0].id] + CommentIds(prev[1..][..k]);
      if k < 0 then -1 else k + 1
  }

  /** `prev.find(c => c.id === id)`: the first comment with that id. */
  function FindById(prev: seq<Comment>, id: string): (r: Option<Comment>)
    ensures r.None? <==> id !in CommentIds(prev)
    ensures r.Some? ==> exists k :: 0 <= k < |prev| && prev[k] == r.value && r.value.id == id
                                    && id !in CommentIds(prev[..k])
  {
    var k := FirstIndexOf(prev, id);
    if k < 0 then None else Some(prev[k])
  }

  /** The replies a comment already in `prev` holds, or `[]` for a comment new to the list. */
  function HeldReplies(prev: seq<Comment>, id: string): seq<Comment> {
    match FindById(prev, id)
    case Some(c) => c.replies
    case None => []
  }

  function MergeOne(prev: seq<Comment>, d: SnapshotDoc): Comment {
    FromDoc(d, HeldReplies(prev, d.id))
  }

  /**
   * The list after a comments snapshot: one comment per snapshot document, in
   * snapshot order, with the document's fields, and the replies the previous
   * list held for that id (`[]` for an id new to the list).
   */
  function MergeTopLevel(prev: seq<Comment>, docs: seq<SnapshotDoc>): (r: seq<Comment>)
    ensures |r| == |docs| && CommentIds(r) == Ids(docs)
    ensures forall i :: 0 <= i < |docs| ==> r[i] == FromDoc(docs[i], r[i].replies)
    ensures forall i :: 0 <= i < |docs| && docs[i].id !in CommentIds(prev) ==> r[i].replies == []
    ensures forall i, k :: (0 <= i < |docs| && 0 <= k < |prev| && prev[k].id == docs[i].id
                            && docs[i].id !in CommentIds(prev[..k])) ==> r[i].replies == prev[k].replies
  {
    var r := Map((d: SnapshotDoc) => MergeOne(prev, d), docs);
    forall i, k | 0 <= i < |docs| && 0 <= k < |prev| && prev[k].id == docs[i].id
                  && docs[i].id !in CommentIds(prev[..k])
      ensures r[i].replies == prev[k].replies
    {
      FirstMatchUnique(prev, docs[i].id, k);
    }
    r
  }

  /** Only one index can be the first with a given id. */
  lemma FirstMatchUnique(prev: seq<Comment>, id: string, k: int)
    requires 0 <= k < |prev| && prev[k].id == id && id !in CommentIds(prev[..k])
    ensures FindById(prev, id) == Some(prev[k])
  {
    var ids := CommentIds(prev);
    assert ids[k] == id;
    var j := FirstIndexOf(prev, id);
    assert CommentIds(prev[..k]) == ids[..k];
    assert CommentIds(prev[..j]) == ids[..j];
    forall i | 0 <= i < k ensures ids[i] != id {
      assert ids[..k][i] == ids[i];
    }
    forall i | 0 <= i < j ensures ids[i] != id {
      assert ids[..j][i] == ids[i];
    }
  }

  /**
   * Once populated, a comment's replies survive every later comments snapshot
   * that still lists the comment: a top-level merge never resets them.
   */
  lemma TopLevelKeepsReplies(prev: seq<Comment>, docs: seq<SnapshotDoc>, i: int)
    requires 0 <= i < |docs| && docs[i].id in CommentIds(prev)
    ensures MergeTopLevel(prev, docs)[i].replies == FindById(prev, docs[i].id).value.replies
  {
    var k := FirstIndexOf(prev, docs[i].id);
    assert FindById(prev, docs[i].id) == Some(prev[k]);
  }

  /** Merging the same comments snapshot twice gives the same list as merging it once. */
  lemma MergeTopLevelIdempotent(prev: seq<Comment>, docs: seq<SnapshotDoc>)
    ensures MergeTopLevel(MergeTopLevel(prev, docs), docs) == MergeTopLevel(prev, docs)
  {
    var once := MergeTopLevel(prev, docs);
    forall i | 0 <= i < |docs| ensures MergeTopLevel(once, docs)[i] == once[i] {
      IdempotentAt(prev, docs, i);
    }
  }

  lemma IdempotentAt(prev: seq<Comment>, docs: seq<SnapshotDoc>, i: int)
    requires 0 <= i < |docs|
    ensures MergeTopLevel(MergeTopLevel(prev, docs), docs)[i] == MergeTopLevel(prev, docs)[i]
  {
    var once := MergeTopLevel(prev, docs);
    var id := docs[i].id;
    assert CommentIds(once)[i] == id;
    var k := FirstIndexOf(once, id);
    TopLevelKeepsReplies(once, docs, i);
    assert FindById(once, id) == Some(once[k]);
    assert CommentIds(once)[k] == docs[k].id;
    SameIdSameReplies(prev, docs, i, k);
  }

  /** Two snapshot positions with one id receive the same replies. */
  lemma SameIdSameReplies(prev: seq<Comment>, docs: seq<SnapshotDoc>, i: int, k: int)
    requires 0 <= i < |docs| && 0 <= k < |docs| && docs[i].id == docs[k].id
    ensures MergeTopLevel(prev, docs)[i].replies == MergeTopLevel(prev, docs)[k].replies
  {
    var r := MergeTopLevel(prev, docs);
    var id := docs[i].id;
    if id in CommentIds(prev) {
      TopLevelKeepsReplies(prev, docs, i);
      TopLevelKeepsReplies(prev, docs, k);
    }
  }

  /**
   * The list after a replies snapshot for comment `parentId`: the comment(s)
   * with that id get exactly `replies`; every other comment, and every other
   * field, is unchanged.
   */
  function MergeReplies(tree: seq<Comment>, parentId: string, replies: seq<Comment>): (r: seq<Comment>)
    ensures |r| == |tree| && CommentIds(r) == CommentIds(tree)
    ensures forall i :: 0 <= i < |tree| ==> r[i].(replies := tree[i].replies) == tree[i]
    ensures forall i :: 0 <= i < |tree| && tree[i].id == parentId ==> r[i].replies == replies
    ensures forall i :: 0 <= i < |tree| && tree[i].id != parentId ==> r[i] == tree[i]
  {
    Map((c: Comment) => if c.id == parentId then c.(replies := replies) else c, tree)
  }

  /** A replies snapshot for a comment no longer in the list changes nothing (no resurrection). */
  lemma MergeRepliesAbsentIsNoOp(tree: seq<Comment>, parentId: string, replies: seq<Comment>)
    requires parentId !in CommentIds(tree)
    ensures MergeReplies(tree, parentId, replies) == tree
  {
    var r := MergeReplies(tree, parentId, replies);
    forall i | 0 <= i < |tree| ensures r[i] == tree[i] {
      assert CommentIds(tree)[i] == tree[i].id;
    }
  }

  /**
   * Replies merged for a comment are still there after a later comments
   * snapshot that lists the comment.
   */
  lemma RepliesSurviveTopLevel(tree: seq<Comment>, parentId: string, replies: seq<Comment>,
                               docs: seq<SnapshotDoc>, i: int)
    requires parentId in CommentIds(tree)
    requires 0 <= i < |docs| && docs[i].id == parentId
    ensures MergeTopLevel(MergeReplies(tree, parentId, replies), docs)[i].replies == replies
  {
    var t := MergeReplies(tree, parentId, replies);
    assert parentId in CommentIds(t);
    TopLevelKeepsReplies(t, docs, i);
    var c := FindById(t, parentId).value;
    var k :| 0 <= k < |t| && t[k] == c && c.id == parentId;
    assert tree[k].id == parentId;
  }

  /** `snapR.docs.map(...)`: one reply per document, in order, with the defaults. */
  function RepliesFromSnapshot(docs: seq<SnapshotDoc>): (r: seq<Comment>)
    ensures |r| == |docs|
    ensures forall i :: 0 <= i < |docs| ==> r[i] == ReplyFromDoc(docs[i])
  {
    Map(ReplyFromDoc, docs)
  }

  // ---------------------------------------------------------------------------
  // Writes ("intents")
  // ---------------------------------------------------------------------------

  /** The signed-in user as the component receives it. */
  datatype Author = Author(uid: string, name: string, photo: Option<string>)

  datatype CommentWrite =
    | AddCommentDoc(fields: DocFields)
    | AddReplyDoc(commentId: string, fields: DocFields)
    | EditCommentText(commentId: string, text: string, updatedAt: Timestamp)
    | EditReplyText(commentId: string, replyId: string, text: string, updatedAt: Timestamp)
    | DeleteCommentDoc(commentId: string)
    | DeleteReplyDoc(commentId: string, replyId: string)
    | LikeUnion(commentId: string, uid: string)
    | LikeRemove(commentId: string, uid: string)

  /** `(texts[key] || "").trim()`: a missing entry reads as the empty string. */
  function EntryText(texts: map<string, string>, key: string): string {
    Trim(if key in texts then texts[key] else "")
  }

  /**
   * `handleAddComment`: blank input writes nothing; otherwise one new comment
   * document with the trimmed text, the author, no likes, and the server time
   * `now` as `createdAt`.
   */
  function AddComment(input: string, author: Author, now: Timestamp): (w: Option<CommentWrite>)
    ensures w.None? <==> IsBlank(input)
    ensures w.Some? ==> w.value.AddCommentDoc?
                        && w.value.fields == DocFields(Some(Trim(input)), Some(author.uid), Some(author.name),
                                                       Some(now), None, LikesArray([]), author.photo)
  {
    TrimEmptyIffBlank(input);
    var text := Trim(input);
    if text == [] then None
    else Some(AddCommentDoc(DocFields(Some(text), Some(author.uid), Some(author.name),
                                      Some(now), None, LikesArray([]), author.photo)))
  }

  /**
   * `handleAddReply(commentId)`: the draft for that comment, trimmed; a blank or
   * missing draft writes nothing; a reply document carries no `likes` field.
   */
  function AddReply(replyTexts: map<string, string>, commentId: string, author: Author, now: Timestamp)
    : (w: Option<CommentWrite>)
    ensures w.None? <==> (commentId !in replyTexts || IsBlank(replyTexts[commentId]))
    ensures w.Some? ==> w.value == AddReplyDoc(commentId, DocFields(Some(Trim(replyTexts[commentId])),
                          Some(author.uid), Some(author.name), Some(now), None, NotAnArray, author.photo))
  {
    TrimEmptyIffBlank(if commentId in replyTexts then replyTexts[commentId] else "");
    var text := EntryText(replyTexts, commentId);
    if text == [] then None
    else Some(AddReplyDoc(commentId, DocFields(Some(text), Some(author.uid), Some(author.name),
                                               Some(now), None, NotAnArray, author.photo)))
  }

  /** `saveEditComment(commentId)`: the edited text, trimmed, unless it is blank. */
  function SaveEditComment(editingTexts: map<string, string>, commentId: string, now: Timestamp)
    : (w: Option<CommentWrite>)
    ensures w.None? <==> (commentId !in editingTexts || IsBlank(editingTexts[commentId]))
    ensures w.Some? ==> w.value == EditCommentText(commentId, Trim(editingTexts[commentId]), now)
  {
    TrimEmptyIffBlank(if commentId in editingTexts then editingTexts[commentId] else "");
    var text := EntryText(editingTexts, commentId);
    if text == [] then None else Some(EditCommentText(commentId, text, now))
  }

  /** `saveEditReply(commentId, replyId)`: the draft is looked up by the reply's id. */
  function SaveEditReply(editingTexts: map<string, string>, commentId: string, replyId: string, now: Timestamp)
    : (w: Option<CommentWrite>)
    ensures w.None? <==> (replyId !in editingTexts || IsBlank(editingTexts[replyId]))
    ensures w.Some? ==> w.value == EditReplyText(commentId, replyId, Trim(editingTexts[replyId]), now)
  {
    TrimEmptyIffBlank(if replyId in editingTexts then editingTexts[replyId] else "");
    var text := EntryText(editingTexts, replyId);
    if text == [] then None else Some(EditReplyText(commentId, replyId, text, now))
  }

  datatype LikeOutcome = GoToLogin | LikeWrite(write: CommentWrite)

  /**
   * `toggleLike(commentId, likes)`: an anonymous visitor is sent to `/login`
   * and nothing is written; otherwise the user's id is removed from the likes
   * when it is there and added when it is not.
   */
  function ToggleLike(userUid: string, commentId: string, likes: seq<string>): (o: LikeOutcome)
    ensures o.GoToLogin? <==> userUid == ""
    ensures userUid != "" && userUid in likes ==> o == LikeWrite(LikeRemove(commentId, userUid))
    ensures userUid != "" && userUid !in likes ==> o == LikeWrite(LikeUnion(commentId, userUid))
  {
    if userUid == "" then GoToLogin
    else if userUid in likes then LikeWrite(LikeRemove(commentId, userUid))
    else LikeWrite(LikeUnion(commentId, userUid))
  }

  // ---------------------------------------------------------------------------
  // What a write does to the stored comments of one hike (the store's semantics)
  // ---------------------------------------------------------------------------

  /** `arrayUnion(u)`: appends `u` unless present; a non-array field becomes `[u]`. */
  function ArrayUnion(l: LikesField, u: string): LikesField {
    match l
    case LikesArray(s) => if u in s then l else LikesArray(s + [u])
    case NotAnArray => LikesArray([u])
  }

  /** `arrayRemove(u)`: removes every `u`; a non-array field becomes `[]`. */
  function ArrayRemove(l: LikesField, u: string): LikesField {
    LikesArray(Filter((x: string) => x != u, LikesOrEmpty(l)))
  }

  /**
   * The comments collection of a hike after a write.  `newId` is the id the
   * store assigns to an added document.  Writes to a missing document fail in
   * the store; the component swallows the failure, so nothing changes.
   */
  function ApplyWrite(store: map<string, DocFields>, w: CommentWrite, newId: string): map<string, DocFields> {
    match w
    case AddCommentDoc(f) => store[newId := f]
    case EditCommentText(id, t, now) =>
      if id in store then store[id := store[id].(text := Some(t), updatedAt := Some(now))] else store
    case DeleteCommentDoc(id) => store - {id}
    case LikeUnion(id, u) => if id in store then store[id := store[id].(likes := ArrayUnion(store[id].likes, u))] else store
    case LikeRemove(id, u) => if id in store then store[id := store[id].(likes := ArrayRemove(store[id].likes, u))] else store
    case _ => store
  }

  /**
   * A like toggle by a signed-in user, made with the likes the page shows,
   * flips whether that user likes the stored comment.
   */
  lemma ToggleLikeFlips(store: map<string, DocFields>, commentId: string, userUid: string, newId: string)
    requires commentId in store && userUid != ""
    ensures var likes := LikesOrEmpty(store[commentId].likes);
            var after := ApplyWrite(store, ToggleLike(userUid, commentId, likes).write, newId);
            commentId in after
            && (userUid in LikesOrEmpty(after[commentId].likes) <==> userUid !in likes)
            && after.Keys == store.Keys
  {
    var likes := LikesOrEmpty(store[commentId].likes);
    if userUid in likes {
      FilterMembership((x: string) => x != userUid, likes, userUid);
    }
  }

  /**
   * A comment written by `AddComment`, seen in the next comments snapshot for
   * the first time, carries the trimmed text, the author, no likes and no replies.
   */
  lemma AddedCommentReadBack(prev: seq<Comment>, input: string, author: Author, now: Timestamp, newId: string)
    requires !IsBlank(input) && newId !in CommentIds(prev)
    ensures var f := AddComment(input, author, now).value.fields;
            var c := MergeTopLevel(prev, [SnapshotDoc(newId, f)])[0];
            c.id == newId && c.text == Trim(input) && c.text != "" && c.authorUid == author.uid
            && c.authorName == author.name && c.likes == [] && c.replies == []
  {
    TrimEmptyIffBlank(input);
  }

  // ---------------------------------------------------------------------------
  // The listener registry and the held list
  // ---------------------------------------------------------------------------

  /** An unsubscribe handle, opaque to the component. */
  type Handle = nat

  /** The ids, in order, that get a new replies listener: first occurrences of ids not in `known`. */
  function Unregistered(docs: seq<SnapshotDoc>, known: set<string>): seq<string> {
    if docs == [] then []
    else
      var pre := docs[..|docs| - 1];
      var id := docs[|docs| - 1].id;
      if id in known || id in Ids(pre) then Unregistered(pre, known) else Unregistered(pre, known) + [id]
  }

  /**
   * One replies listener is subscribed per snapshot id that had none, and no id
   * gets two: the subscribed ids are distinct and are exactly the missing ones.
   */
  lemma {:induction false} UnregisteredExactlyMissing(docs: seq<SnapshotDoc>, known: set<string>)
    ensures var u := Unregistered(docs, known);
            (forall i, j :: 0 <= i < j < |u| ==> u[i] != u[j])
            && (forall x :: x in u <==> x in Ids(docs) && x !in known)
  {
    if docs != [] {
      var pre := docs[..|docs| - 1];
      UnregisteredExactlyMissing(pre, known);
      assert Ids(docs) == Ids(pre) + [docs[|docs| - 1].id];
    }
  }

  /** Ids of a one-longer prefix. */
  lemma IdsSnoc(docs: seq<SnapshotDoc>, i: int)
    requires 0 <= i < |docs|
    ensures Ids(docs[..i + 1]) == Ids(docs[..i]) + [docs[i].id]
  {
    var a, b := Ids(docs[..i + 1]), Ids(docs[..i]) + [docs[i].id];
    assert |a| == |b|;
    assert forall j :: 0 <= j < |a| ==> a[j] == b[j];
  }

  lemma UnregisteredStep(docs: seq<SnapshotDoc>, i: int, known: set<string>)
    requires 0 <= i < |docs|
    ensures Unregistered(docs[..i + 1], known)
            == Unregistered(docs[..i], known)
               + (if docs[i].id in known || docs[i].id in Ids(docs[..i]) then [] else [docs[i].id])
  {
    assert docs[..i + 1][..i] == docs[..i];
  }

  /** The subscription log after one more document of the snapshot. */
  lemma LogStep(docs: seq<SnapshotDoc>, i: int, known: set<string>, seen: set<string>,
                keys: set<string>, before: seq<string>, after: seq<string>, baseLog: seq<string>)
    requires 0 <= i < |docs|
    requires keys == known + seen
    requires forall x :: x in seen <==> x in Ids(docs[..i])
    requires before == baseLog + Unregistered(docs[..i], known)
    requires docs[i].id in keys ==> after == before
    requires docs[i].id !in keys ==> after == before + [docs[i].id]
    ensures after == baseLog + Unregistered(docs[..i + 1], known)
  {
    UnregisteredStep(docs, i, known);
  }

  /**
   * The registry after the comments callback, from its two halves: dropping
   * the vanished ids from `before` gives `kept`, registering the snapshot's
   * ids into `kept` gives `after`.
   */
  lemma RegistryCompose(before: map<string, Handle>, kept: map<string, Handle>, after: map<string, Handle>,
                        ids: seq<string>, next: Handle)
    requires kept == map k | k in before && k in ids :: before[k]
    requires forall k :: k in after <==> k in kept || k in ids
    requires forall k :: k in kept ==> after[k] == kept[k]
    requires forall k :: k in after && k !in kept ==> after[k] >= next
    requires forall k :: k in before ==> before[k] < next
    ensures forall k :: k in after <==> k in ids
    ensures forall k :: k in after && k in before ==> after[k] == before[k]
    ensures forall k :: k in after && k !in before ==> after[k] >= next
    ensures kept.Keys == set k | k in before && k in ids
  {
  }

  class CommentsSync {
    /** `comments` state. */
    var comments: seq<Comment>
    /** `replyUnsubs`: comment id -> unsubscribe handle of its replies listener. */
    var replyListeners: map<string, Handle>
    /** `unsubComments`. */
    var commentsListener: Handle
    /** Next handle the store hands out. */
    var nextHandle: Handle
    /** Comment ids whose replies listener was subscribed, in order. */
    var subscribed: seq<string>
    /** Handles whose unsubscribe has been called. */
    var closed: set<Handle>

    /** Handles are distinct and were all handed out already. */
    ghost predicate Valid()
      reads this
    {
      && commentsListener < nextHandle
      && (forall k :: k in replyListeners ==> replyListeners[k] < nextHandle)
      && (forall k :: k in replyListeners ==> replyListeners[k] != commentsListener)
      && (forall k, k' :: k in replyListeners && k' in replyListeners && k != k' ==> replyListeners[k] != replyListeners[k'])
    }

    /** Mounting: the comments listener is subscribed; no replies listener exists yet. */
    constructor (initial: seq<Comment>)
      ensures Valid()
      ensures comments == initial && replyListeners == map[] && subscribed == [] && closed == {}
    {
      comments := initial;
      replyListeners := map[];
      commentsListener := 0;
      nextHandle := 1;
      subscribed := [];
      closed := {};
    }

    /**
     * The comments listener's callback.  Afterwards the registry holds exactly
     * the snapshot's ids: vanished ids were unsubscribed and removed, missing
     * ids got a new listener, registered ids kept theirs; the list is the
     * top-level merge of the snapshot with the list held before.
     */
    method OnCommentsSnapshot(docs: seq<SnapshotDoc>)
      requires Valid()
      modifies this
      ensures Valid()
      ensures comments == MergeTopLevel(old(comments), docs)
      ensures forall k :: k in replyListeners <==> k in Ids(docs)
      ensures forall k :: k in replyListeners && k in old(replyListeners) ==> replyListeners[k] == old(replyListeners[k])
      ensures forall k :: k in replyListeners && k !in old(replyListeners) ==> replyListeners[k] >= old(nextHandle)
      ensures closed == old(closed) + set k | k in old(replyListeners) && k !in Ids(docs) :: old(replyListeners[k])
      ensures subscribed == old(subscribed) + Unregistered(docs, set k | k in old(replyListeners) && k in Ids(docs))
      ensures commentsListener == old(commentsListener)
    {
      var prev := comments;
      var currentIds := Ids(docs);
      DropVanished(currentIds);
      ghost var kept := replyListeners;
      var merged := RegisterAndMerge(prev, docs);
      RegistryCompose(old(replyListeners), kept, replyListeners, currentIds, old(nextHandle));
      comments := merged;
    }

    /**
     * The second half of the comments callback (`snapshot.docs.map(...)`):
     * one merged comment per document, and a replies listener opened for
     * every id not yet registered.
     */
    method RegisterAndMerge(prev: seq<Comment>, docs: seq<SnapshotDoc>) returns (merged: seq<Comment>)
      requires Valid()
      modifies this`replyListeners, this`subscribed, this`nextHandle
      ensures Valid()
      ensures merged == MergeTopLevel(prev, docs)
      ensures forall k :: k in replyListeners <==> k in old(replyListeners) || k in Ids(docs)
      ensures forall k :: k in old(replyListeners) ==> replyListeners[k] == old(replyListeners[k])
      ensures forall k :: k in replyListeners && k !in old(replyListeners) ==> replyListeners[k] >= old(nextHandle)
      ensures subscribed == old(subscribed) + Unregistered(docs, old(replyListeners).Keys)
    {
      ghost var known := replyListeners.Keys;
      ghost var seen: set<string> := {};
      var i := 0;
      assert Unregistered(docs[..0], known) == [];
      while i < |docs|
        invariant 0 <= i <= |docs|
        invariant Valid()
        invariant replyListeners.Keys == old(replyListeners).Keys + seen
        invariant forall x :: x in seen <==> x in Ids(docs[..i])
        invariant forall k :: k in old(replyListeners) ==> replyListeners[k] == old(replyListeners[k])
        invariant forall k :: k in replyListeners && k !in old(replyListeners) ==> old(nextHandle) <= replyListeners[k]
        invariant old(nextHandle) <= nextHandle
        invariant subscribed == old(subscribed) + Unregistered(docs[..i], old(replyListeners).Keys)
      {
        seen := RegisterNext(docs, i, seen, old(replyListeners), old(nextHandle), old(subscribed));
        i := i + 1;
      }
      assert docs[..|docs|] == docs;
      assert forall k :: k in replyListeners <==> k in old(replyListeners) || k in Ids(docs);
      merged := MergeTopLevel(prev, docs);
    }

    /** One step of `snapshot.docs.map(...)`: the listener check for `docs[i]`. */
    method RegisterNext(docs: seq<SnapshotDoc>, i: int, ghost seen: set<string>,
                        ghost base: map<string, Handle>, ghost baseNext: Handle, ghost baseLog: seq<string>)
      returns (ghost seen': set<string>)
      requires 0 <= i < |docs|
      requires Valid()
      requires replyListeners.Keys == base.Keys + seen
      requires forall x :: x in seen <==> x in Ids(docs[..i])
      requires forall k :: k in base ==> replyListeners[k] == base[k]
      requires forall k :: k in replyListeners && k !in base ==> baseNext <= replyListeners[k]
      requires baseNext <= nextHandle
      requires subscribed == baseLog + Unregistered(docs[..i], base.Keys)
      modifies this`replyListeners, this`subscribed, this`nextHandle
      ensures Valid()
      ensures replyListeners.Keys == base.Keys + seen'
      ensures forall x :: x in seen' <==> x in Ids(docs[..i + 1])
      ensures forall k :: k in base ==> replyListeners[k] == base[k]
      ensures forall k :: k in replyListeners && k !in base ==> baseNext <= replyListeners[k]
      ensures baseNext <= nextHandle
      ensures subscribed == baseLog + Unregistered(docs[..i + 1], base.Keys)
    {
      var d := docs[i];
      ghost var keysBefore, before := replyListeners.Keys, subscribed;
      EnsureListener(d.id);
      seen' := seen + {d.id};
      IdsSnoc(docs, i);
      LogStep(docs, i, base.Keys, seen, keysBefore, before, subscribed, baseLog);
    }

    /** `if (!replyUnsubs[id]) replyUnsubs[id] = onSnapshot(...)`: open a listener only where none is registered. */
    method EnsureListener(id: string)
      requires Valid()
      modifies this`replyListeners, this`subscribed, this`nextHandle
      ensures Valid()
      ensures id in old(replyListeners) ==>
                replyListeners == old(replyListeners) && subscribed == old(subscribed) && nextHandle == old(nextHandle)
      ensures id !in old(replyListeners) ==>
                replyListeners == old(replyListeners)[id := old(nextHandle)]
                && subscribed == old(subscribed) + [id] && nextHandle == old(nextHandle) + 1
    {
      if id !in replyListeners {
        replyListeners := replyListeners[id := nextHandle];
        subscribed := subscribed + [id];
        nextHandle := nextHandle + 1;
      }
    }

    /**
     * The first half of the comments callback: every registered id missing
     * from `currentIds` is unsubscribed and deleted from the registry.
     */
    method DropVanished(currentIds: seq<string>)
      requires Valid()
      modifies this`replyListeners, this`closed
      ensures Valid()
      ensures replyListeners == map k | k in old(replyListeners) && k in currentIds :: old(replyListeners[k])
      ensures closed == old(closed) + set k | k in old(replyListeners) && k !in currentIds :: old(replyListeners[k])
    {
      ghost var was := replyListeners;
      var pending := replyListeners.Keys;
      while pending != {}
        invariant pending <= was.Keys
        invariant replyListeners == map k | k in was && (k in pending || k in currentIds) :: was[k]
        invariant closed == old(closed) + set k | k in was && k !in pending && k !in currentIds :: was[k]
        decreases pending
      {
        var cid :| cid in pending;
        if cid !in currentIds {
          closed := closed + {replyListeners[cid]};
          replyListeners := replyListeners - {cid};
        }
        pending := pending - {cid};
      }
    }

    /**
     * The replies listener's callback for comment `parentId`: only that
     * comment's `replies` change.
     */
    method OnRepliesSnapshot(parentId: string, replyDocs: seq<SnapshotDoc>)
      modifies this`comments
      ensures comments == MergeReplies(old(comments), parentId, RepliesFromSnapshot(replyDocs))
    {
      var replies := RepliesFromSnapshot(replyDocs);
      comments := MergeReplies(comments, parentId, replies);
    }

    /**
     * Cleanup on unmount: the comments listener and every registered replies
     * listener are unsubscribed.  A throwing unsubscribe is caught and the loop
     * goes on, so every handle is called.
     */
    method Detach()
      modifies this`closed
      ensures closed == old(closed) + {commentsListener} + replyListeners.Values
    {
      closed := closed + {commentsListener};
      var pending := replyListeners.Values;
      while pending != {}
        invariant pending <= replyListeners.Values
        invariant closed == old(closed) + {commentsListener} + (replyListeners.Values - pending)
        decreases pending
      {
        var h :| h in pending;
        closed := closed + {h};
        pending := pending - {h};
      }
    }
  }
}
