# hikee — a verified model of the app's list, form and comment logic

hikee is a React web app for sharing mountain hikes, with Firebase (Firestore and Storage) behind it. This project models in Dafny the parts of the app that compute something, and proves what they promise:

- **The live comment tree of a hike page** (`Comments`). A comments snapshot is merged into the held list. Each comment keeps its replies, and a new comment starts with none. A replies snapshot replaces the replies of one comment only. The `replyUnsubs` registry of replies listeners always ends up holding exactly the snapshot's ids. The guards on adding, replying, editing and liking are modelled too. The class `CommentsSync` holds the list, the registry and the log of listeners opened and closed.
- **The trail list** (`HikeFilter`). It has a difficulty filter, a region filter and a deduplicated list of region buttons. Both copies of the component share these expressions.
- **The home page's rows and search box** (`HomeSearch`).
- **The featured grid** (`FeatureTiles`). It shows the first three hikes with a call-to-action tile spliced in at index 1, in both copies of the component.
- **The creation and edit forms** (`HikeStore`, `HikeNew`, `HikeEdit`):
  - their schemas;
  - the picture and GPX state their handlers keep, as the classes `NewForm` and `EditForm`;
  - the writes their submit sends, as a sequence of store operations;
  - the effect of those writes on the `hikes` collection.
- **The site menu** (`Menu`): which links appear for visitors, users and administrators, and which link is highlighted.
- **User names** (`UserNames`, `HikeView`):
  - the e-mail prefix fallback;
  - the name recorded at sign-in and read back;
  - the author name shown on a hike;
  - the visitor's greeting name;
  - the comment added from the hike page.
- **The hike page** (`HikeView`): its pictures and its load.

Firestore and Storage are not modelled as services. A snapshot is an input value, and a write is a returned value: a `CommentWrite`, a `StoreOp` or a `UserWrite`. `ApplyWrite`, `ApplyAll` and `ApplyUserWrite` give the effect of a write on a collection, so that round trips can be stated. Download URLs are a function parameter `url`. Clocks are a `now` parameter.

All files are verified together: `dafny verify *.dfy`.

## Model

| member | source | states |
|---|---|---|
| Comments.FromDoc | src/components/CommentsSection.tsx:129-139 | a snapshot document becomes a comment with its own fields; missing fields default to `""`, `""`, `"Anonyme"`, null, null, `[]` (also for a `likes` that is not an array), null |
| Comments.ReplyFromDoc | src/components/CommentsSection.tsx:107-118 | a reply keeps the document's id and never has replies of its own |
| Comments.RepliesFromSnapshot | src/components/CommentsSection.tsx:107-119 | one reply per document of the replies snapshot, in order |
| Comments.FirstIndexOf | src/components/CommentsSection.tsx:100 | the position of the first comment with the id, or -1 exactly when no comment has it |
| Comments.FindById | src/components/CommentsSection.tsx:100 | `prev.find`: absent iff no comment has the id; otherwise the first comment with that id |
| Comments.MergeTopLevel | src/components/CommentsSection.tsx:98-140 | the merged list has the snapshot's ids in snapshot order and each document's fields; a comment already held keeps the replies of the first held comment with its id; a new one gets `[]` |
| Comments.FirstMatchUnique | src/components/CommentsSection.tsx:100 | the first position holding an id is the comment `find` returns |
| Comments.TopLevelKeepsReplies | src/components/CommentsSection.tsx:100-138 | a comments snapshot never resets the replies of a comment it still lists |
| Comments.MergeTopLevelIdempotent | src/components/CommentsSection.tsx:98-140 | merging the same snapshot twice gives the list merging it once gives |
| Comments.SameIdSameReplies | src/components/CommentsSection.tsx:100-138 | two snapshot positions with one id receive the same replies |
| Comments.MergeReplies | src/components/CommentsSection.tsx:122-124 | a replies snapshot sets the replies of the comment with that id; every other comment and every other field is unchanged |
| Comments.MergeRepliesAbsentIsNoOp | src/components/CommentsSection.tsx:122-124 | replies for a comment no longer listed change nothing |
| Comments.RepliesSurviveTopLevel | src/components/CommentsSection.tsx:98-138 | replies merged for a comment survive the next comments snapshot that lists it |
| Comments.AddComment | src/components/CommentsSection.tsx:157-175 | blank input writes nothing; otherwise one document with the trimmed text, the author, no likes and `createdAt` |
| Comments.AddReply | src/components/CommentsSection.tsx:178-198 | a missing or blank draft writes nothing; otherwise a reply under that comment with the trimmed draft and no `likes` field |
| Comments.SaveEditComment | src/components/CommentsSection.tsx:222-234 | a missing or blank edit writes nothing; otherwise the trimmed text and `updatedAt` |
| Comments.SaveEditReply | src/components/CommentsSection.tsx:241-253 | the same, with the draft looked up by the reply's id |
| Comments.ToggleLike | src/components/CommentsSection.tsx:200-215 | an empty user id goes to `/login` and writes nothing; otherwise `arrayRemove` when the id is among the likes, `arrayUnion` when it is not |
| Comments.ToggleLikeFlips | src/components/CommentsSection.tsx:206-211 | applied to the store, a toggle made with the stored likes flips whether the user likes the comment and keeps the set of comments |
| Comments.AddedCommentReadBack | src/components/CommentsSection.tsx:157-170 | a comment added and then seen in a snapshot has the trimmed non-empty text, the author, no likes and no replies |
| Comments.UnregisteredExactlyMissing | src/components/CommentsSection.tsx:103-127 | the ids given a new replies listener are distinct, and are exactly the snapshot ids not registered before |
| Comments.RegistryCompose | src/components/CommentsSection.tsx:86-127 | removing the vanished ids, then registering the missing ones, leaves exactly the snapshot's ids, with the handles kept for those already registered |
| Comments.CommentsSync.constructor | src/components/CommentsSection.tsx:82-84 | on mount, the comments listener is open and the registry is empty |
| Comments.CommentsSync.OnCommentsSnapshot | src/components/CommentsSection.tsx:84-142 | afterwards the list is the top-level merge; the registry keys are exactly the snapshot ids; vanished handles are closed; missing ids get new handles; registered ids keep theirs |
| Comments.CommentsSync.RegisterAndMerge | src/components/CommentsSection.tsx:98-140 | the loop over the snapshot registers each missing id once, in order, and returns the merged list |
| Comments.CommentsSync.RegisterNext | src/components/CommentsSection.tsx:103-127 | one iteration of that loop preserves the registry invariant for the next prefix |
| Comments.CommentsSync.EnsureListener | src/components/CommentsSection.tsx:103-127 | a registered id keeps its listener; an unregistered one gets the next handle |
| Comments.CommentsSync.DropVanished | src/components/CommentsSection.tsx:89-96 | the registry keeps exactly the ids still listed; the handles of the others are closed |
| Comments.CommentsSync.OnRepliesSnapshot | src/components/CommentsSection.tsx:106-125 | the list becomes the reply merge for that comment |
| Comments.CommentsSync.Detach | src/components/CommentsSection.tsx:144-153 | cleanup closes the comments listener and every registered replies listener |
| HikeDocs.DifficultyLabel | src/pages/HikeView.tsx:231 | "Facile" iff easy, "Modérée" iff moderate, "Difficile" for any other value; both tile copies (src/components/hikes/HikeFeatureTiles.tsx:55, HikeFeatureTiles.tsx:68) use the same labels |
| HikeDocs.FirstUrl | src/components/hikes/HikeFeatureTiles.tsx:188 | `imageUrls?.[0]`: present iff the list exists and is not empty, and then it is the first entry |
| HikeFilter.FilteredHikes | src/components/hikes/HikeFiltrerList.tsx:27-30 | every kept hike matches the difficulty filter unless it is `all`, and the region filter unless it is `all`; the older copy (src/components/HikeFiltrerList.tsx:20-23) filters alike |
| HikeFilter.FilteredIsMatchingSubsequence | src/components/hikes/HikeFiltrerList.tsx:27-30 | the result is an order-preserving subsequence holding each matching hike as often as the list does, and no other |
| HikeFilter.InitialFiltersKeepAll | src/components/hikes/HikeFiltrerList.tsx:19-30 | with both filters at their initial `all`, the list is unchanged (in the older copy too, src/components/HikeFiltrerList.tsx:17-23) |
| HikeFilter.FiltersCompose | src/components/hikes/HikeFiltrerList.tsx:27-30 | filtering by both equals filtering by difficulty, then by region; a hike is kept iff each filter alone keeps it |
| HikeFilter.Regions | src/components/hikes/HikeFiltrerList.tsx:32 | region buttons have no duplicates, and hold exactly the regions of the hikes (the older copy builds them alike, src/components/HikeFiltrerList.tsx:25) |
| HikeFilter.RegionsInFirstAppearanceOrder | src/components/hikes/HikeFiltrerList.tsx:32 | the buttons follow the order in which regions first occur |
| HikeFilter.RegionButtonNeverEmpty | src/components/hikes/HikeFiltrerList.tsx:27-32 | clicking any region button shows at least one hike |
| HomeSearch.RowOf | src/pages/Home.tsx:30-36 | a row carries the document's id, title, difficulty, region and `image` field |
| HomeSearch.Rows | src/pages/Home.tsx:29-37 | one row per document, in snapshot order |
| HomeSearch.Search | src/pages/Home.tsx:43-47 | every row kept matches the search |
| HomeSearch.SearchKeepsExactlyMatches | src/pages/Home.tsx:43-47 | the result is an order-preserving subsequence; a row is kept iff its lower-cased title or region contains the lower-cased term |
| HomeSearch.EmptySearchKeepsAll | src/pages/Home.tsx:26 | the initial empty term shows every hike |
| HomeSearch.SearchIgnoresCase | src/pages/Home.tsx:45-46 | terms equal up to letter case find the same hikes |
| HomeSearch.SearchSameAsLowercased | src/pages/Home.tsx:45-46 | typing the term in lower case changes nothing |
| FeatureTiles.ComposeGrid | HikeFeatureTiles.tsx:189-211 | the grid has min(n,3)+1 ≤ 4 items: the first hikes in order, with the only call-to-action at index 1, or at 0 when there are no hikes; the section is rendered iff there is at least one hike; the other copy (src/components/hikes/HikeFeatureTiles.tsx:111-115, 144-146) composes it alike |
| FeatureTiles.CardImage | HikeFeatureTiles.tsx:44 | an absent or empty image falls back to `/images/home-bg.jpg` |
| FeatureTiles.FeaturedCardImage | src/components/hikes/HikeFeatureTiles.tsx:188 | the card shows the first stored picture, else the default |
| FeatureTiles.HomeCardImage | HikeFeatureTiles.tsx:256 | the root copy's card shows the row's `image`, else the default |
| FeatureTiles.HomeCardIgnoresUploads | src/pages/Home.tsx:35 | a hike without an `image` field always shows the default picture on the home page |
| FeatureTiles.HomeCardIgnoresUploadsExample | src/pages/Home.tsx:35 | a hike with one uploaded picture: the home card shows the default, the other copy's card the upload |
| FeatureTiles.RowOfIntended | src/pages/Home.tsx:30-36 | the corrected row takes its picture from `imageUrls[0]` |
| FeatureTiles.IntendedHomeCardShowsFirstUpload | src/pages/Home.tsx:35 | with the corrected row, the home card and the other copy's card agree |
| FeatureTiles.IntendedRowSearchesAlike | src/pages/Home.tsx:43-47 | the correction does not change what the search finds |
| HikeStore.SelectRegion | src/pages/HikeNew.tsx:223-231 | `other` clears the region and shows the free-text field; any other value becomes the region and hides it |
| HikeStore.GpxPathsDiffer | src/pages/HikeNew.tsx:143-155 | a chosen track (`uploads/gpx/{uid}/{hikeId}.gpx`) and the default track (`…-default.gpx`) never share a path |
| HikeStore.Uploads | src/pages/HikeNew.tsx:161-169 | one download URL per file, in file order, for `uploads/images/{uid}/{hikeId}/{name}` |
| HikeStore.ImageUploadOps | src/pages/HikeNew.tsx:162-166 | one upload per file, in file order |
| HikeStore.UploadsKeepDocs | src/pages/HikeNew.tsx:162-169 | storage uploads change no document |
| HikeNew.DefaultForm | src/pages/HikeNew.tsx:53-57 | the form starts with one blank step, 0.1 km and 0 m |
| HikeNew.AcceptedFormHasPictures | src/pages/HikeNew.tsx:18-33 | a form the schema accepts stores at least one picture, the first file's first |
| HikeNew.DefaultStepRejected | src/pages/HikeNew.tsx:27-32 | the blank default step fails the schema |
| HikeNew.CreatedDoc | src/pages/HikeNew.tsx:124-138 | the created document has the form's values, the author, no GPX path, an empty picture list and no `image` |
| HikeNew.SubmitStoresHike | src/pages/HikeNew.tsx:119-180 | after a submit the new hike holds the form's values, the chosen or default GPX path and the uploaded URLs in order; no other hike changes |
| HikeNew.CreatedHikeHasDefaultHomeCard | src/pages/HikeNew.tsx:124-170 | a hike created here always shows the default picture on the home page |
| HikeNew.NewForm.constructor | src/pages/HikeNew.tsx:41-46 | no picture, no track, empty region |
| HikeNew.NewForm.HandleImageChange | src/pages/HikeNew.tsx:64-79 | no selection or more than five pictures in all: nothing changes; otherwise the files are appended in order and there is one preview per file |
| HikeNew.NewForm.RemoveImage | src/pages/HikeNew.tsx:81-86 | exactly position i is removed, the others keep their order, and there is one preview per file |
| HikeNew.NewForm.HandleGpxChange | src/pages/HikeNew.tsx:89-93 | the first picked file becomes the track; no file, no change |
| HikeNew.NewForm.RemoveGpx | src/pages/HikeNew.tsx:112-116 | the track is forgotten |
| HikeNew.NewForm.OnRegionSelect | src/pages/HikeNew.tsx:223-231 | the region and the free-text flag are those `SelectRegion` gives |
| HikeNew.NewForm.UploadPictures | src/pages/HikeNew.tsx:161-169 | one upload per file, in order, and the download URLs in file order |
| HikeNew.NewForm.Submit | src/pages/HikeNew.tsx:119-180 | no user: no write; otherwise create, upload the track, record its path, upload each picture in order, record the URLs when there is at least one |
| HikeEdit.CreatedFormsPassEdit | src/pages/HikeEdit.tsx:18-33 | a form the creation schema accepts passes the edit schema iff its region has at least 2 characters |
| HikeEdit.EditAllowsEmptyItinerary | src/pages/HikeEdit.tsx:27-32 | the edit schema accepts an empty itinerary, which the creation schema refuses |
| HikeEdit.LoadedItinerary | src/pages/HikeEdit.tsx:78 | the stored steps, or one blank step when there are none |
| HikeEdit.LoadedImages | src/pages/HikeEdit.tsx:82-84 | after the load, the kept URLs are the stored ones, each shown in order, and no file is picked |
| HikeEdit.RemovedUrl | src/pages/HikeEdit.tsx:137-150 | a deletion is requested iff the thumbnail at the index is a kept URL, and then it is that URL |
| HikeEdit.AsWrittenKeepsFileBound | src/pages/HikeEdit.tsx:120-157 | as written, adding or removing keeps at most five picked files |
| HikeEdit.RemoveAsWrittenDropsKeptUrl | src/pages/HikeEdit.tsx:140-153 | removing a kept URL drops it from the kept URLs and one thumbnail |
| HikeEdit.AddAsWrittenLosesEarlierThumbnails | src/pages/HikeEdit.tsx:130 | picking twice keeps both files but shows only the second pick's thumbnail |
| HikeEdit.AddAsWrittenExceedsLimit | src/pages/HikeEdit.tsx:123-124 | four stored pictures and a pick of three give seven pictures |
| HikeEdit.RemoveAsWrittenKeepsFile | src/pages/HikeEdit.tsx:152-153 | removing a file's thumbnail after a stored picture keeps that file |
| HikeEdit.AddIntendedKeepsConsistent | src/pages/HikeEdit.tsx:120-134 | the corrected add keeps thumbnails = kept URLs then files, and at most five pictures |
| HikeEdit.RemoveIntendedKeepsConsistent | src/pages/HikeEdit.tsx:136-157 | the corrected remove drops exactly the thumbnail at the index and the URL or file it shows |
| HikeEdit.FinalGpxPath | src/pages/HikeEdit.tsx:209-223 | a chosen file gives `{uid}/{id}.gpx`; no file and no stored path gives the default; otherwise the stored path |
| HikeEdit.KeptTrackWritesNothing | src/pages/HikeEdit.tsx:209-227 | a stored track with no new file means no upload and no path write |
| HikeEdit.ImageListWrittenIffFilesPicked | src/pages/HikeEdit.tsx:230-241 | as written, the picture list is written iff a file was picked |
| HikeEdit.RemovalOnlyEditNotSaved | src/pages/HikeEdit.tsx:239-241 | a hike with two pictures whose first is removed keeps both in the store after the submit |
| HikeEdit.IntendedSubmitStoresShownPictures | src/pages/HikeEdit.tsx:230-241 | with the corrected write, the stored pictures are the kept URLs followed by the uploads |
| HikeEdit.EditForm.constructor | src/pages/HikeEdit.tsx:44-58 | no picture, no track, no stored path, one blank step, 0 km and 0 m |
| HikeEdit.EditForm.Load | src/pages/HikeEdit.tsx:64-117 | no id or no document: nothing changes; otherwise the form is reset, the stored URLs are kept and shown, a non-empty track is remembered, and an unlisted region turns on the free-text field |
| HikeEdit.EditForm.HandleImageChange | src/pages/HikeEdit.tsx:120-134 | the state becomes `AddAsWritten`; the selection is refused iff the picked files would exceed five |
| HikeEdit.EditForm.RemoveImage | src/pages/HikeEdit.tsx:136-157 | the state becomes `RemoveAsWritten`; the deletion requested is `RemovedUrl` |
| HikeEdit.EditForm.HandleGpxChange | src/pages/HikeEdit.tsx:160-164 | the first picked file becomes the track |
| HikeEdit.EditForm.RemoveGpx | src/pages/HikeEdit.tsx:183-187 | the picked track is forgotten and the stored path stays, so the next submit keeps the stored track |
| HikeEdit.EditForm.OnRegionSelect | src/pages/HikeEdit.tsx:295-304 | the region and the free-text flag are those `SelectRegion` gives; the rest of the form is unchanged |
| HikeEdit.EditForm.GpxWrites | src/pages/HikeEdit.tsx:209-227 | the track upload, then the path write when the path changed |
| HikeEdit.EditForm.UploadPictures | src/pages/HikeEdit.tsx:230-237 | one upload per file, in order; the URLs are the kept ones followed by the uploaded ones |
| HikeEdit.EditForm.Submit | src/pages/HikeEdit.tsx:190-251 | no user or id: no write; otherwise the form update, the GPX writes and the picture writes, in that order |
| Menu.NavLinks | src/components/Menu.tsx:20-29 | home and hikes first, in that order; profile iff there is a user; admin iff a user who is an administrator; never sign in |
| Menu.AuthLink | src/components/Menu.tsx:31 | the sign-in link, for visitors only |
| Menu.DesktopLinks | src/components/Menu.tsx:32 | the menu links, then sign in, last, iff there is no user |
| Menu.MobileSameAsDesktop | src/components/Menu.tsx:135 | the mobile menu shows exactly the desktop links, in order |
| Menu.VisitorLinks | src/components/Menu.tsx:20-32 | a visitor sees home, hikes and sign in, and never admin |
| Menu.ActiveIndices | src/components/Menu.tsx:33 | a link is highlighted iff its target equals the path exactly |
| Menu.OneActiveLink | src/components/Menu.tsx:20-54 | targets are pairwise distinct, so they can serve as keys; at most one link is highlighted, and one is iff the path is a menu target |
| UserNames.NameFromEmail | src/utils/firestoreUtils.ts:6 | the text before the first `@`, or the whole address without one; empty iff the address is empty or starts with `@` |
| UserNames.ChosenName | src/utils/firestoreUtils.ts:19 | the `name` argument, else the display name, else the e-mail prefix, empty strings counting as absent |
| UserNames.AddUserWrite | src/utils/firestoreUtils.ts:9-45 | no address or a failed read: no write; a stored user: a merge of e-mail, date and the stored name when non-empty; a new user: exactly name, e-mail and creation date |
| UserNames.GetUserName | src/utils/firestoreUtils.ts:48-61 | the stored display name, or `""` when it is missing, the user is unknown or the read fails |
| UserNames.SignInThenGetName | src/utils/firestoreUtils.ts:19-55 | after a sign-in, the name read back is the stored non-empty name, else the chosen one |
| UserNames.SecondSignInKeepsName | src/utils/firestoreUtils.ts:21-33 | a second sign-in never renames a user with a non-empty name |
| HikeView.AuthorName | src/pages/HikeView.tsx:74-86 | looked up only when the hike names an author; the stored name, or "Utilisateur inconnu" when it is empty, missing or the read fails |
| HikeView.AuthorNameAgreesWithGetUserName | src/pages/HikeView.tsx:74-86 | the author name is never empty, and it is what `getUserName` gives, with "Utilisateur inconnu" in place of `""` |
| HikeView.HikePage.constructor | src/pages/HikeView.tsx:50-53 | no hike, loading, no error |
| HikeView.HikePage.OnHikeSnapshot | src/pages/HikeView.tsx:61-93 | no id: nothing; a missing hike: the error "Randonnée introuvable" and loading stops; otherwise the hike with its author name, and loading stops |
| HikeView.MainImage | src/pages/HikeView.tsx:169 | the first stored picture, else the default picture; never empty |
| HikeView.Gallery | src/pages/HikeView.tsx:192-194 | the pictures after the first, shown iff there are at least two |
| HikeView.PageShowsEveryPicture | src/pages/HikeView.tsx:169-194 | the header and the gallery show every stored picture once, in order |
| HikeView.VisitorName | src/pages/HikeView.tsx:172 | the trimmed display name, else the e-mail prefix, else "Anonyme"; never empty |
| HikeView.AddComment | src/pages/HikeView.tsx:95-111 | nothing without a user, an id or a non-blank text; the stored text is trimmed and the author is the display name or "Anonyme" |
| HikeView.AddedCommentIsTrimmed | src/pages/HikeView.tsx:98-99 | a comment is added iff the text is not blank, and its text is trimmed and not blank |
| HikeView.CommentAuthorIgnoresEmail | src/pages/HikeView.tsx:104 | a user without a display name signs comments "Anonyme" |
| HikeView.GreetingAndAuthorMayDiffer | src/pages/HikeView.tsx:172 | such a user is greeted by their e-mail prefix, which differs from the comment's author name |
| Text.Trim | src/components/CommentsSection.tsx:159 | `trim()`: the result neither starts nor ends with white space |
| Text.TrimIsInfix | src/components/CommentsSection.tsx:159 | `trim()` removes only white space, and only at the two ends: the result is an infix with blank text before and after it |
| Text.TrimEmptyIffBlank | src/components/CommentsSection.tsx:159-160 | the trimmed text is empty iff the input is white space only |
| Text.BeforeFirst | src/utils/firestoreUtils.ts:6 | `split(c)[0]`: the longest prefix without `c` |
| Text.Lower | src/pages/Home.tsx:45-46 | `toLowerCase()` keeps the length and lowers each capital |
| Seqs.Distinct | src/components/hikes/HikeFiltrerList.tsx:32 | `Array.from(new Set(...))`: no duplicates, the same elements, first appearance order |
| Seqs.InsertAt | src/components/hikes/HikeFeatureTiles.tsx:114 | `splice(i, 0, x)` with the index clamped to the length |

## Left out

- Firestore and Storage. The model has no service:
  - reads and `onSnapshot` deliveries are inputs;
  - writes, uploads and deletions are returned values;
  - the order in which callbacks interleave is not modelled.
- A write that throws. The source catches it and stops the handler. Each submit model gives the writes of a run in which every write succeeds.
  - HikeNew.NewForm.Submit: the writes of a successful run; after a failure the source stops at a prefix of them.
  - HikeEdit.EditForm.Submit: the same.
- GPX parsing (`FileReader`, `DOMParser`, `parseFloat`) and the map polyline: foreign XML APIs that produce floating-point numbers.
- zod, react-hook-form and `useFieldArray`. The schemas are plain predicates over the submitted values, and their error messages are left out. zod counts string lengths in UTF-16 code units; the model counts characters.
- `URL.createObjectURL`. A picked file's thumbnail is `Local(file)`. This assumes an object URL never equals a stored download URL, so `includes` on stored URLs never matches a picked file.
- The storage path that `removeImage` derives from a URL by splitting on `/` and `?`. HikeEdit.RemovedUrl gives the URL whose deletion is requested, not that path.
- Timestamps (`createdAt`, `updatedAt`, `lastUpdated`) and `favoritesCount` in the hike writes. In the user and comment writes, the date is a `now` parameter.
- Loading flags, toasts, navigation after submit, the logout handler, the mobile menu toggle, the edit-field focusing and every animation (GSAP, ScrollTrigger, framer-motion).
- `deleteComment` and `deleteReply`: one unguarded delete each. Their effect is the `DeleteCommentDoc` and `DeleteReplyDoc` cases of `ApplyWrite`.
- Text.Trim: recognises the ASCII white space, U+00A0, U+FEFF, U+2028 and U+2029, but not the other Unicode space separators that JavaScript's `trim` also removes.
- Text.Lower: lowers ASCII and Latin-1 capitals only, not the rest of Unicode.
- HomeSearch.Search: the source throws when a document has no `title` or `region`. The model's rows always carry strings.
- Only `title` through `image` of a hike document are modelled. The other fields (`polyline`, `favoritesCount`, dates) are not read by the modelled logic.
- The free-text region input and the itinerary editor (`append` and `remove` of steps): form widgets with no logic beyond storing the typed value.

## Findings

| source | as written | input that shows it | evidently intended | confidence | as-written member | corrected member |
|---|---|---|---|---|---|---|
| src/pages/Home.tsx:35 | the home rows copy a document's `image` field, but both forms store pictures only in `imageUrls`, so a featured card on the home page always shows the default picture | a hike created with one picture `https://img/1.jpg` | take the picture from `imageUrls[0]`, as the other tile copy (src/components/hikes/HikeFeatureTiles.tsx:188) and the favourites list do | not executed; high | FeatureTiles.HomeCardIgnoresUploadsExample | FeatureTiles.RowOfIntended |
| src/pages/HikeEdit.tsx:123-124 | the limit of five counts only the newly picked files, not the stored pictures kept, though the add button (470-472) counts both | four stored pictures, then a pick of three files | refuse when stored + picked + selected > 5 | not executed; high | HikeEdit.AddAsWrittenExceedsLimit | HikeEdit.AddIntended |
| src/pages/HikeEdit.tsx:130 | an accepted pick rebuilds the thumbnails from the stored ones and this pick only, dropping the thumbnails of files picked earlier, while the files are kept | pick one file, then another | append the new thumbnails to the current ones | not executed; high | HikeEdit.AddAsWrittenLosesEarlierThumbnails | HikeEdit.AddIntended |
| src/pages/HikeEdit.tsx:152 | `removeImage` applies the thumbnail index to the picked files too, though the thumbnails start with the stored pictures | one stored picture and one picked file; remove thumbnail 1 | drop the file at index − (number of stored pictures shown) | not executed; high | HikeEdit.RemoveAsWrittenKeepsFile | HikeEdit.RemoveIntended |
| src/pages/HikeEdit.tsx:239 | the list is compared by length with itself plus the uploads, so it is written only when a file was picked; a removal-only edit is never saved, and the store keeps a URL whose file was deleted | a hike with two pictures; remove the first; submit with no file | write the list when it differs from the one loaded | not executed; high | HikeEdit.RemovalOnlyEditNotSaved | HikeEdit.ImageOpsIntended |

Each corrected definition has its property proved:
- HikeEdit.AddIntendedKeepsConsistent and HikeEdit.RemoveIntendedKeepsConsistent: the thumbnails stay the kept URLs followed by the picked files, and there are never more than five pictures.
- HikeEdit.IntendedSubmitStoresShownPictures: the store ends with exactly the pictures shown.
- FeatureTiles.IntendedHomeCardShowsFirstUpload: the home card shows the first upload.

The classes `NewForm` and `EditForm` follow the source as written.
