/**
 * User names (src/utils/firestoreUtils.ts): the e-mail prefix, the name
 * chosen when a user signs in, the record `addUserToFirestore` writes to
 * the `users` collection, and the name `getUserName` reads back.
 */
module UserNames {
  import opened Wrappers
  import opened Text

  /** The fields of the signed-in user that the name logic reads. */
  datatype AuthUser = AuthUser(uid: string, email: Option<string>, displayName: Option<string>)

  /** The `displayName` field of a stored user document (absent or any string). */
  datatype UserDoc = UserDoc(displayName: Option<string>, email: Option<string>)

  /** The outcome of a `getDoc`: the document, no such document, or a thrown error. */
  datatype Lookup<T> = Found(doc: T) | Missing | Failed

  /** JavaScript's `a || b` on an optional string: `a` when it is a non-empty string, else `b`. */
  function OrElse(a: Option<string>, b: string): (r: string)
    ensures a.Some? && a.value != "" ==> r == a.value
    ensures a.None? || a.value == "" ==> r == b
  {
    if a.Some? && a.value != "" then a.value else b
  }

  /** `getUserNameFromEmail`: the text before the first `@`, or the whole address when it has none. */
  function NameFromEmail(email: string): (prefix: string)
    ensures |prefix| <= |email| && prefix == email[..|prefix|] && '@' !in prefix
    ensures |prefix| < |email| ==> email[|prefix|] == '@'
    ensures '@' !in email ==> prefix == email
    ensures prefix == "" <==> email == "" || email[0] == '@'
  {
    BeforeFirst(email, '@')
  }

  /**
   * The name chosen for a user with an address: the `name` argument, else
   * the account's display name, else the e-mail prefix, empty strings
   * counting as absent.
   */
  function ChosenName(name: Option<string>, user: AuthUser, email: string): (chosen: string)
    ensures name.Some? && name.value != "" ==> chosen == name.value
    ensures (name.None? || name.value == "") && user.displayName.Some? && user.displayName.value != "" ==>
              chosen == user.displayName.value
    ensures (name.None? || name.value == "") && (user.displayName.None? || user.displayName.value == "") ==>
              chosen == NameFromEmail(email)
    ensures chosen == "" <==> (name.None? || name.value == "") && (user.displayName.None? || user.displayName.value == "")
                              && (email == "" || email[0] == '@')
  {
    OrElse(name, OrElse(user.displayName, NameFromEmail(email)))
  }

  /** The two writes of `addUserToFirestore`; `now` is the `new Date()` of the call. */
  datatype UserWrite =
    | MergeUser(uid: string, email: string, lastUpdated: int, displayName: string)
    | CreateUser(uid: string, displayName: string, email: string, createdAt: int)

  /**
   * `addUserToFirestore(user, name)`: nothing without an address or when the
   * read fails; for a stored user, a merge that keeps a non-empty stored
   * name; for a new user, a record with the chosen name.
   */
  function AddUserWrite(user: AuthUser, name: Option<string>, stored: Lookup<UserDoc>, now: int): (w: Option<UserWrite>)
    ensures user.email.None? || user.email.value == "" || stored.Failed? ==> w.None?
    ensures w.Some? ==> w.value.uid == user.uid && w.value.email == user.email.value
    ensures w.Some? && stored.Found? ==>
              w.value == MergeUser(user.uid, user.email.value, now,
                                   OrElse(stored.doc.displayName, ChosenName(name, user, user.email.value)))
    ensures w.Some? && stored.Missing? ==>
              w.value == CreateUser(user.uid, ChosenName(name, user, user.email.value), user.email.value, now)
    ensures w.None? ==> user.email.None? || user.email.value == "" || stored.Failed?
  {
    if user.email.None? || user.email.value == "" then None
    else
      var email := user.email.value;
      var displayName := ChosenName(name, user, email);
      match stored
      case Failed => None
      case Found(d) => Some(MergeUser(user.uid, email, now, OrElse(d.displayName, displayName)))
      case Missing => Some(CreateUser(user.uid, displayName, email, now))
  }

  /** The `users` collection after a write; a merge leaves other fields as they were. */
  function ApplyUserWrite(users: map<string, UserDoc>, w: UserWrite): map<string, UserDoc> {
    match w
    case MergeUser(uid, email, _, n) =>
      var prev := if uid in users then users[uid] else UserDoc(None, None);
      users[uid := prev.(displayName := Some(n), email := Some(email))]
    case CreateUser(uid, n, email, _) => users[uid := UserDoc(Some(n), Some(email))]
  }

  function LookupIn(users: map<string, UserDoc>, uid: string): Lookup<UserDoc> {
    if uid in users then Found(users[uid]) else Missing
  }

  /** `getUserName`: the stored display name; `""` when it is empty, the user is unknown or the read fails. */
  function GetUserName(stored: Lookup<UserDoc>): (name: string)
    ensures stored.Found? && stored.doc.displayName.Some? ==> name == stored.doc.displayName.value
    ensures stored.Missing? || stored.Failed? || (stored.Found? && stored.doc.displayName.None?) ==> name == ""
  {
    match stored
    case Found(d) => OrElse(d.displayName, "")
    case _ => ""
  }

  /**
   * After a sign-in, `getUserName` reads back the name written: the one
   * already stored when it was non-empty, else the chosen name; it is
   * non-empty when the chosen name is.
   */
  lemma SignInThenGetName(users: map<string, UserDoc>, user: AuthUser, name: Option<string>, now: int)
    requires user.email.Some? && user.email.value != ""
    ensures var w := AddUserWrite(user, name, LookupIn(users, user.uid), now);
            var chosen := ChosenName(name, user, user.email.value);
            w.Some?
            && GetUserName(LookupIn(ApplyUserWrite(users, w.value), user.uid))
               == (if user.uid in users then OrElse(users[user.uid].displayName, chosen) else chosen)
            && (chosen != "" ==> GetUserName(LookupIn(ApplyUserWrite(users, w.value), user.uid)) != "")
  {
  }

  /**
   * A second sign-in never renames a user: whatever name the second call is
   * given, the stored name stays the one the first call wrote, provided it
   * was non-empty.
   */
  lemma SecondSignInKeepsName(users: map<string, UserDoc>, user: AuthUser, first: Option<string>, second: Option<string>,
                              t1: int, t2: int)
    requires user.email.Some? && user.email.value != ""
    requires ChosenName(first, user, user.email.value) != ""
    ensures var w1 := AddUserWrite(user, first, LookupIn(users, user.uid), t1).value;
            var after1 := ApplyUserWrite(users, w1);
            var w2 := AddUserWrite(user, second, LookupIn(after1, user.uid), t2).value;
            var after2 := ApplyUserWrite(after1, w2);
            GetUserName(LookupIn(after2, user.uid)) == GetUserName(LookupIn(after1, user.uid))
  {
    var w1 := AddUserWrite(user, first, LookupIn(users, user.uid), t1).value;
    var after1 := ApplyUserWrite(users, w1);
    SignInThenGetName(users, user, first, t1);
    assert after1[user.uid].displayName.Some? && after1[user.uid].displayName.value != "";
  }
}

/**
 * The hike page (src/pages/HikeView.tsx): the hike it shows with its
 * author's name, the pictures, the name shown for the visitor and the
 * comment it adds.
 */
module HikeView {
  import opened Wrappers
  import opened Text
  import opened HikeDocs
  import opened UserNames

  const NotFound := "Randonn\U{E9}e introuvable"
  const UnknownAuthor := "Utilisateur inconnu"
  const Anonymous := "Anonyme"
  const DefaultMainImage := "https://images.unsplash.com/photo-1501785888041-af3ef285b470?auto=format&fit=crop&w=1200&q=60"

  /** The hike as the page holds it: its id, its stored fields and the author name looked up. */
  datatype ViewedHike = ViewedHike(id: string, doc: HikeDoc, createdByName: Option<string>)

  /**
   * `createdByName`: looked up only when the hike names its author; the
   * author's stored name, or "Utilisateur inconnu" when it is empty, the
   * author is unknown or the read fails.
   */
  function AuthorName(createdBy: Option<string>, author: Lookup<UserDoc>): (name: Option<string>)
    ensures name.Some? <==> createdBy.Some? && createdBy.value != ""
    ensures name.Some? && author.Found? && author.doc.displayName.Some? && author.doc.displayName.value != "" ==>
              name.value == author.doc.displayName.value
    ensures name.Some? && !(author.Found? && author.doc.displayName.Some? && author.doc.displayName.value != "") ==>
              name.value == UnknownAuthor
  {
    if createdBy.None? || createdBy.value == "" then None
    else match author
      case Found(d) => Some(OrElse(d.displayName, UnknownAuthor))
      case _ => Some(UnknownAuthor)
  }

  /** A named author always gets a non-empty name, and it is the one `getUserName` would give when that is non-empty. */
  lemma AuthorNameAgreesWithGetUserName(createdBy: Option<string>, author: Lookup<UserDoc>)
    requires createdBy.Some? && createdBy.value != ""
    ensures AuthorName(createdBy, author).Some? && AuthorName(createdBy, author).value != ""
    ensures AuthorName(createdBy, author).value == OrElse(Some(GetUserName(author)), UnknownAuthor)
  {
  }

  /** The state of the page that the hike listener updates. */
  class HikePage {
    var hike: Option<ViewedHike>
    var loading: bool
    var error: Option<string>

    constructor ()
      ensures hike.None? && loading && error.None?
    {
      hike := None;
      loading := true;
      error := None;
    }

    /**
     * The hike listener: no id, no subscription; a missing hike sets the
     * error and stops loading; otherwise the hike is stored, with its
     * author's name when it names one, and loading stops.
     */
    method OnHikeSnapshot(hikeId: string, snapshot: Option<HikeDoc>, author: Lookup<UserDoc>)
      modifies this
      ensures hikeId == "" ==> hike == old(hike) && loading == old(loading) && error == old(error)
      ensures hikeId != "" && snapshot.None? ==> error == Some(NotFound) && !loading && hike == old(hike)
      ensures hikeId != "" && snapshot.Some? ==>
                hike == Some(ViewedHike(hikeId, snapshot.value, AuthorName(snapshot.value.createdBy, author)))
                && !loading && error == old(error)
    {
      if hikeId == "" {
        return;
      }
      if snapshot.None? {
        error := Some(NotFound);
        loading := false;
        return;
      }
      var data := ViewedHike(hikeId, snapshot.value, None);
      if data.doc.createdBy.Some? && data.doc.createdBy.value != "" {
        match author {
          case Found(d) =>
            data := data.(createdByName := Some(OrElse(d.displayName, UnknownAuthor)));
          case Missing =>
            data := data.(createdByName := Some(UnknownAuthor));
          case Failed =>
            data := data.(createdByName := Some(UnknownAuthor));
        }
      }
      hike := Some(data);
      loading := false;
    }
  }

  /** The header picture: the first stored picture, or the default one when there is none or it is empty. */
  function MainImage(imageUrls: Option<seq<string>>): (src: string)
    ensures src != ""
    ensures imageUrls.Some? && |imageUrls.value| > 0 && imageUrls.value[0] != "" ==> src == imageUrls.value[0]
    ensures imageUrls.None? || |imageUrls.value| == 0 || imageUrls.value[0] == "" ==> src == DefaultMainImage
  {
    OrElse(FirstUrl(imageUrls), DefaultMainImage)
  }

  /** The secondary gallery: the pictures after the first, shown only when there are at least two. */
  function Gallery(imageUrls: Option<seq<string>>): (g: seq<string>)
    ensures |g| > 0 <==> imageUrls.Some? && |imageUrls.value| > 1
    ensures |g| > 0 ==> |g| == |imageUrls.value| - 1 && forall i :: 0 <= i < |g| ==> g[i] == imageUrls.value[i + 1]
  {
    if imageUrls.Some? && |imageUrls.value| > 1 then imageUrls.value[1..] else []
  }

  /**
   * Header and gallery together show every stored picture once, in order,
   * when the first is a real URL; an empty list shows the default picture
   * and no gallery.
   */
  lemma PageShowsEveryPicture(urls: seq<string>)
    ensures |urls| > 0 && urls[0] != "" ==> [MainImage(Some(urls))] + Gallery(Some(urls)) == urls
    ensures urls == [] ==> MainImage(Some(urls)) == DefaultMainImage && Gallery(Some(urls)) == []
  {
    if |urls| > 0 && urls[0] != "" {
      if |urls| == 1 {
        assert Gallery(Some(urls)) == [];
      } else {
        assert Gallery(Some(urls)) == urls[1..];
      }
    }
  }

  /**
   * `userName`: the visitor's trimmed display name, else their e-mail
   * prefix, else "Anonyme"; never empty.
   */
  function VisitorName(user: Option<AuthUser>): (name: string)
    ensures name != ""
    ensures user.Some? && user.value.displayName.Some? && Trim(user.value.displayName.value) != "" ==>
              name == Trim(user.value.displayName.value)
    ensures user.Some? && !(user.value.displayName.Some? && Trim(user.value.displayName.value) != "")
            && user.value.email.Some? && NameFromEmail(user.value.email.value) != "" ==>
              name == NameFromEmail(user.value.email.value)
    ensures user.None? ==> name == Anonymous
    ensures user.Some? && !(user.value.displayName.Some? && Trim(user.value.displayName.value) != "")
            && (user.value.email.None? || NameFromEmail(user.value.email.value) == "") ==>
              name == Anonymous
  {
    if user.None? then Anonymous
    else
      var u := user.value;
      var trimmed := if u.displayName.Some? then Some(Trim(u.displayName.value)) else None;
      var prefix := if u.email.Some? then Some(NameFromEmail(u.email.value)) else None;
      OrElse(trimmed, OrElse(prefix, Anonymous))
  }

  /** The comment `addComment` adds to the hike's `comments` sub-collection (its date is the server's). */
  datatype NewComment = NewComment(hikeId: string, text: string, authorUid: string, authorName: string)

  /**
   * `addComment`: nothing without a user, an id or a non-blank text; the
   * stored text is the trimmed input and the author the user's display
   * name, or "Anonyme".
   */
  function AddComment(user: Option<AuthUser>, hikeId: string, text: Option<string>): (c: Option<NewComment>)
    ensures c.Some? <==> user.Some? && hikeId != "" && text.Some? && Trim(text.value) != ""
    ensures c.Some? ==> c.value == NewComment(hikeId, Trim(text.value), user.value.uid,
                                              OrElse(user.value.displayName, Anonymous))
  {
    if user.None? || hikeId == "" then None
    else if text.None? then None
    else
      var t := Trim(text.value);
      if t == "" then None
      else Some(NewComment(hikeId, t, user.value.uid, OrElse(user.value.displayName, Anonymous)))
  }

  /**
   * A comment is added exactly when the text is not blank, and its text is
   * already trimmed and not blank.
   */
  lemma AddedCommentIsTrimmed(user: AuthUser, hikeId: string, text: string)
    requires hikeId != ""
    ensures AddComment(Some(user), hikeId, Some(text)).Some? <==> !IsBlank(text)
    ensures AddComment(Some(user), hikeId, Some(text)).Some? ==>
              var t := AddComment(Some(user), hikeId, Some(text)).value.text;
              Trim(t) == t && !IsBlank(t)
  {
    TrimEmptyIffBlank(text);
    TrimIdempotent(text);
    TrimEmptyIffBlank(Trim(text));
  }

  /** A user without a display name signs every comment "Anonyme", whatever their e-mail address. */
  lemma CommentAuthorIgnoresEmail(u: AuthUser, hikeId: string, text: string)
    requires u.displayName.None? && hikeId != "" && !IsBlank(text)
    ensures AddComment(Some(u), hikeId, Some(text)) == Some(NewComment(hikeId, Trim(text), u.uid, Anonymous))
  {
    TrimEmptyIffBlank(text);
    assert OrElse(u.displayName, Anonymous) == Anonymous;
  }

  /**
   * The name greeting the visitor and the author name stored with their
   * comment are computed differently: a user with no display name is
   * greeted by their e-mail prefix but signs comments "Anonyme".
   */
  lemma GreetingAndAuthorMayDiffer(u: AuthUser, hikeId: string, text: string)
    requires u.displayName.None? && u.email.Some? && hikeId != "" && !IsBlank(text)
    requires NameFromEmail(u.email.value) != "" && NameFromEmail(u.email.value) != Anonymous
    ensures AddComment(Some(u), hikeId, Some(text)).Some?
    ensures VisitorName(Some(u)) == NameFromEmail(u.email.value)
    ensures VisitorName(Some(u)) != AddComment(Some(u), hikeId, Some(text)).value.authorName
  {
    CommentAuthorIgnoresEmail(u, hikeId, text);
  }
}
