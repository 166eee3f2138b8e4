# HedgeDoc backend: a verified model

HedgeDoc's backend is a set of services over one relational store and one media backend. This project
models that store as a class with a field per table, the services as methods that change it, and proves
what the services keep true over any run: who may read and write a note, which API tokens are accepted,
what an import does to a history, when the files of the media backend and the records of the database
agree, what a deletion takes along, and which text a note's revisions tell.

`dafny verify dfyconfig.toml` checks all of it.

## How it is laid out

- `Common`, `Text`: results, errors, lists; `includes`, `split`, `join`, `trim` and their laws.
- `Base64Url`, `ConfigUtils`, `Duplicates`: the three stand-alone algorithms. The encoder is compared with
  section 5 of RFC 4648 ("The Base16, Base32, and Base64 Data Encodings") stated on bit strings.
- `Schema`: the entities, the class `Store`, the declared foreign keys with their `onDelete` rules, and the
  removal of a row with everything that cascades from it.
- `Permissions`, `Users`, `Auth`, `Notes`, `History`, `Revisions`, `Media`: one module per service.
- `Api`: the guarded steps of the controllers. `TokenCap`: token creation cut into its read and its save.
- `Runs`: any sequence of requests, with the invariant every request keeps. `Origins`: table by table, whose
  requests can add, change or take a row, and what follows for whole runs.

Every operation that changes state is a method. Its postcondition equates the new state and the answer with
a function of the old state (`...Step`, `...Api`, on the value `Db` that `Store.State()` returns); the laws
are lemmas about those functions: for each, when it succeeds, what it answers and what it leaves, in terms
of the rows, and `Runs` composes the same functions into whole runs. Times are inputs;
random bytes, generated ids and the outcome of a backend call are inputs too. Queries that may answer with
any of several rows are relations (`Matches`, `Resolves`, `IsFirst`), and the lemmas hold for every answer.

## Where code and documentation disagree

The model follows the code.

- docs/content/dev/2.0.md:14 calls the special group `everyone`; the code asks for `everybody`
  (src/permissions/permissions.service.ts:110).
- docs/content/dev/2.0.md:15 says `loggedIn` stands for all logged-in users; the code accepts such a grant
  without looking at the user (src/permissions/permissions.service.ts:105-107). `LoggedInAdmitsEveryUser` is
  the documented half, `GuestAccess` says exactly when there is access without a user, and
  `LoggedInAdmitsGuests` is a guest who gets in.
- `updateNote` is documented to change the content; it also empties both permission lists
  (src/notes/notes.service.ts:247-248), stated by `UpdateNoteEndsSharing`.
- `setHistory` finds notes by internal id or alias (src/history/history.service.ts:161-168), other look-ups
  by public id or alias (src/notes/notes.service.ts:160-167). Export followed by import is therefore the
  identity only under the condition of `ExportImportIdentity`; `MisleadingAlias` is a history that fails it.
- A token whose time is exactly up is still accepted (src/auth/auth.service.ts:147) but already purged
  (src/auth/auth.service.ts:219): `PurgeIsInvisible` is about later presentations, `PurgeAtTheInstantShows`
  about that instant, and `ExpiringNow` is such a token.
- When the final removal in `deleteUser` is refused, the user stays but the uploads are already gone
  (src/api/private/me/me.controller.ts:41-51): `RefusedDeletionTakesUploads` says exactly what is lost,
  `BlockedDeletion` is such a user.
- The columns keep aliases apart from each other, not from public ids (src/notes/notes.service.ts:90-93):
  `LookupByAlias` and `LookupByPublicId` say exactly when a look-up is unambiguous, `CollidingLookup` is a
  pair of notes where it is not.

## Model

| member | source | states |
|---|---|---|
| Base64Url.EncodesAsRfc4648 | src/auth/auth.service.ts:65-74 | for every byte string, Base64 followed by the three rewrites is the unpadded encoding of RFC 4648, section 5, defined on bits |
| Base64Url.DecodeEncode | src/auth/auth.service.ts:65-74 | decoding gives the bytes back |
| Base64Url.EncodingIsInjective | src/auth/auth.service.ts:65-74 | distinct byte strings have distinct encodings |
| Base64Url.EncodingLength | src/auth/auth.service.ts:65-74 | the length is the ceiling of 4n/3 |
| Base64Url.EncodingIsUrlSafe | src/auth/auth.service.ts:65-74 | only URL-safe characters; never '.', '=', '+' or '/' |
| Text.SplitAfterJoin | src/config/utils.ts:15 | for any non-empty separator, splitting undoes joining iff every part but the last, followed by the separator, meets it first at its own end, and the last part has none |
| Text.JoinAfterSplit | src/config/utils.ts:15 | joining undoes splitting for every text and non-empty separator, and what splitting makes is always such a list |
| Text.OverlappingSeparator | src/config/utils.ts:15 | it is not enough that no part contains the separator: one that overlaps itself is found too early |
| Text.TrimCuts | src/config/utils.ts:13-15 | trimming cuts blanks off both ends until neither end is one, and nothing else |
| Text.BlanksAre | src/config/utils.ts:13-15 | the blanks are the 25 white-space characters and line terminators of ECMAScript |
| ConfigUtils.ToArrayConfigUndoesJoin | src/config/utils.ts:8-16 | reading a setting gives back the items written into it, with any surrounding blanks, if the parts are separable and the list is not one bare empty item; and only then, unless blanks may hide a wrong cut |
| ConfigUtils.TrimmingRepairsACut | src/config/utils.ts:15 | with a separator that begins with a blank they may: a list that is not separable and still read back |
| ConfigUtils.OneCharacterSeparator | src/config/utils.ts:8-16 | for a separator of one character, as in every call, every list whose written items are free of it is read back, except the single bare empty item |
| ConfigUtils.EmptySeparator | src/config/utils.ts:8-16 | with the empty separator exactly the lists of single characters are read back |
| ConfigUtils.FastPathAgrees | src/config/utils.ts:12-15 | for every separator, without it the fast path computes what split, trim would |
| ConfigUtils.SettingHasItems | src/config/utils.ts:8-11 | an absent or empty setting, and no other, is the empty list; every item is trimmed |
| Duplicates.DuplicatesFound | src/utils/arrayDuplicatCheck.ts:7-9 | comparing the set's size with the length detects exactly the repetitions |
| Schema.Store.RemoveNote | src/notes/notes.service.ts:230-232 | removes the note and its dependants, or is refused and changes nothing, exactly when an upload still references the note |
| Schema.Store.RemoveUser | src/users/users.service.ts:53-59 | removes the user and dependants, or is refused and changes nothing, by what references them without a delete rule |
| Schema.UserRemovalIsTheCascade | src/notes/note.entity.ts:54-58 | the rows gone with a user are exactly those at the end of some chain of cascading references from it |
| Schema.NoteRemovalIsTheCascade | src/revisions/revision.entity.ts:60-61 | the same for a note |
| Schema.UserRemovableMeans | src/media/media-upload.entity.ts:26-34 | a user can be removed iff no reference without a delete rule points into its cascade |
| Schema.NoteRemovableMeans | src/media/media-upload.entity.ts:26-29 | the same for a note |
| Schema.RemovalKeepsRows | src/notes/note.entity.ts:54-58 | every row a removal leaves is as it was, but for the members of groups |
| Schema.LinkedMeans | src/history/history-entry.entity.ts:13-23 | the invariant used throughout is: no row references a row that is not there |
| Schema.RemovalKeepsConsistent | src/authors/author.entity.ts:48-49 | a removal nothing holds up leaves no dangling reference and no duplicate in a unique column |
| Permissions.PermissionsService.MayRead | src/permissions/permissions.service.ts:23-32 | true iff the user owns the note or some user or group grant applies |
| Permissions.PermissionsService.MayWrite | src/permissions/permissions.service.ts:34-43 | the same for grants that allow editing |
| Permissions.PermissionsService.MayCreate | src/permissions/permissions.service.ts:45-58 | any user may create; a guest iff the guest permission is CREATE or CREATE_ALIAS |
| Permissions.PermissionsService.IsOwner | src/permissions/permissions.service.ts:60-64 | true iff there is a user and the note's owner is that user |
| Permissions.PermissionsService.HasPermissionUser | src/permissions/permissions.service.ts:66-83 | the early-exit loop finds a grant to the user, to write one with canEdit, iff there is one |
| Permissions.PermissionsService.HasPermissionGroup | src/permissions/permissions.service.ts:85-128 | the nested loops find a grant to an applicable group, to write one with canEdit, iff there is one |
| Permissions.ReadMeans | src/permissions/permissions.service.ts:23-32 | reading, with the guest setting spelled out: the owner, or anybody some grant applies to, whatever right it carries |
| Permissions.WriteMeans | src/permissions/permissions.service.ts:34-43 | writing: the owner, or anybody some grant with canEdit applies to, everybody only from the setting WRITE on |
| Permissions.ReadOnlyGrants | src/permissions/permissions.service.ts:77 | grants without canEdit throughout let only the owner write |
| Permissions.ReadIgnoresCanEdit | src/permissions/permissions.service.ts:102 | flipping canEdit in any grants changes nothing for reading |
| Permissions.WriteIsReadOfEditable | src/permissions/permissions.service.ts:66-128 | writing is reading once the grants without canEdit are struck out |
| Permissions.OrderIsInvisible | src/permissions/permissions.service.ts:66-128 | only the set of grants decides: order and repetition, in the lists and inside groups, are invisible |
| Permissions.PermutationInvariant | src/permissions/permissions.service.ts:66-128 | in particular every permutation of the lists and of the member lists is |
| Permissions.Additive | src/permissions/permissions.service.ts:66-128 | concatenated lists allow what one of the parts allows |
| Permissions.WriteImpliesRead | src/permissions/permissions.service.ts:23-43 | whoever may write may read |
| Permissions.MonotoneInGuestPermission | src/permissions/permissions.service.ts:45-58 | raising the guest permission takes no access and no right to create away |
| Permissions.GuestAccess | src/permissions/permissions.service.ts:101-117 | when exactly there is access without a user |
| Permissions.LoggedInAdmitsEveryUser | src/permissions/permissions.service.ts:104-108 | a sufficient grant to the special group loggedIn admits every user |
| Permissions.LoggedInAdmitsGuests | src/permissions/permissions.service.ts:104-108 | the documented other half fails: such a grant lets a guest read and write even when guests are denied |
| Permissions.LoadedNoteAgrees | src/notes/notes.service.ts:159-176 | evaluating the loaded lists is evaluating the permission tables, whatever order the rows came in |
| Permissions.MayAccessMeans | src/permissions/permissions.service.ts:60-128 | access in terms of the stored rows: the owner column, a row of the user, a row of a group that lets the user in |
| Users.GetUserByUsername | src/users/users.service.ts:79-92 | the one user of that name, or an error if there is none |
| Users.CreateUser | src/users/users.service.ts:32-45 | adds the user iff the name is free; otherwise nothing changes |
| Users.CreateUserIff | src/users/users.service.ts:32-45 | created iff nobody has the name, with the names as given and nothing else changed; a refusal is AlreadyInDB and changes nothing |
| Users.NewUserIsFound | src/users/users.service.ts:79-92 | afterwards that name, and no other, leads to the new user |
| Users.CreateUserKeeps | src/users/user.entity.ts:29-32 | user names stay unique and no reference breaks |
| Auth.ValidateToken | src/auth/auth.service.ts:37-53 | the checks in their order, the mark of the last use, and the user the token stands for |
| Auth.SetLastUsedToken | src/auth/auth.service.ts:119-128 | marks exactly that token, or reports it missing |
| Auth.CreateTokenForUser | src/auth/auth.service.ts:76-117 | refuses an unknown user, a 200th-plus-one token and a clash of unique columns, else stores exactly the new token |
| Auth.RemoveToken | src/auth/auth.service.ts:165-173 | removes exactly that token, or reports it missing |
| Auth.RemoveInvalidTokens | src/auth/auth.service.ts:214-232 | the purge loop removes exactly the tokens with validUntil at or before the time, and counts them |
| Auth.ValidateTokenIff | src/auth/auth.service.ts:37-53 | accepted iff the first two parts are the key id and the secret issued for a stored token that is not past its expiry; it stands for that token's user |
| Auth.RejectionSaysWhy | src/auth/auth.service.ts:37-50 | which of the two errors a rejected text gets |
| Auth.PresentationMarksUse | src/auth/auth.service.ts:119-128 | an accepted text leaves all tokens in place and changes nothing but the last use of the one presented; a rejected one changes nothing |
| Auth.AcceptedAgain | src/auth/auth.service.ts:37-53 | a token let in is let in again, for the same user, up to its expiry and no longer |
| Auth.PresentationsAreIndependent | src/auth/auth.service.ts:37-53 | in any sequence of presentations each is answered as if it were the only one |
| Auth.ComparesFirst72 | src/auth/auth.service.ts:55-63 | a comparison succeeds iff the first 72 characters agree |
| Auth.DrawnParts | src/auth/auth.service.ts:89-90 | 54 random bytes make exactly the 72 characters bcrypt looks at, without the separator |
| Auth.IssuedTokenIsAccepted | src/auth/auth.service.ts:76-117 | the text handed out is accepted for its user through the requested time, at most two years, and no longer; anything after a second separator is ignored |
| Auth.IssueIff | src/auth/auth.service.ts:76-117 | a known user gets a token iff fewer than 200 are stored and neither key id nor hash clashes; a refusal says which and changes nothing |
| Auth.IssueStores | src/auth/auth.service.ts:89-116 | the stored row column by column, its expiry at most two years ahead, every other row as before, and the answer with the secret |
| Auth.IssueForNobody | src/auth/auth.service.ts:81 | an unknown user name is NotInDB and changes nothing |
| Auth.RevokedForGood | src/auth/auth.service.ts:165-173 | exactly that token goes, no text with its key id is let in any more, and every other text is answered as before |
| Auth.PurgeTakesExpired | src/auth/auth.service.ts:214-227 | a purge leaves exactly the tokens that expire later, unchanged |
| Auth.IssueKeepsTokenInv | src/auth/auth.service.ts:93-112 | every stored token keeps the hash of its issued secret and an expiry at most 63,072,000,000 ms after its creation |
| Auth.PurgeBounds | src/auth/auth.service.ts:214-227 | right after a purge every stored token is valid for more than zero and at most two more years |
| Auth.PurgeIsInvisible | src/auth/auth.service.ts:145-154 | any sequence of later presentations is answered alike, with the same users, whether or not the purge ran |
| Auth.PurgeAtTheInstantShows | src/auth/auth.service.ts:219 | presenting at the instant of a purge shows it exactly for a token expiring at that instant |
| Auth.ExpiringNow | src/auth/auth.service.ts:147 | such a token: let in at that instant, unknown after the purge of that instant |
| TokenCap.CapHolds | src/auth/auth.service.ts:81-117 | with at most k creations of a user in flight, every interleaving with saves, removals and purges leaves at most 199 + k tokens |
| TokenCap.CapFromEmpty | src/auth/auth.service.ts:81-88 | from an empty store the bound holds for every run, 200 when creations do not overlap |
| TokenCap.CapIsReached | src/auth/auth.service.ts:81-117 | for every k some interleaving ends with exactly 199 + k |
| TokenCap.CreateIsReadThenSave | src/auth/auth.service.ts:81-117 | an uninterrupted creation is one read followed by one save |
| TokenCap.RefusedCreation | src/auth/auth.service.ts:81-117 | one refused for the number stops at its read, one refused for a clash at its save |
| TokenCap.OtherEventsAreOperations | src/auth/auth.service.ts:119-227 | the events in between are the service's revocation, purge and use |
| Notes.CreateNote | src/notes/notes.service.ts:80-113 | the new note with its first revision, or the refusal of a forbidden or taken alias |
| Notes.CreateNoteIff | src/notes/notes.service.ts:90-112 | created exactly unless the alias is forbidden or taken; a refusal changes nothing |
| Notes.CreateNoteStores | src/notes/notes.service.ts:85-99 | the new row has the given public id, owner and alias (none for an empty one) and one revision with the text; nothing else changes; a refusal is ForbiddenId or AlreadyInDB |
| Notes.NewNoteIsFound | src/notes/notes.service.ts:159-167 | the new note is found by exactly its public id and its alias, every other note as before |
| Notes.NewNoteIsPrivate | src/notes/notes.service.ts:85-97 | only the owner has access to a new note |
| Notes.CreateNoteKeeps | src/notes/notes.service.ts:90-93 | aliases stay pairwise distinct, non-empty and not forbidden |
| Notes.GetNoteByIdOrAlias | src/notes/notes.service.ts:153-188 | a note of that public id or alias with its permission rows, or the right error |
| Notes.LoadNote | src/notes/notes.service.ts:168-175 | the loaded lists hold exactly the note's permission rows |
| Notes.LookupByAlias | src/notes/notes.service.ts:159-167 | a look-up by alias can only answer that note iff no other note's public id is that text |
| Notes.LookupByPublicId | src/notes/notes.service.ts:159-167 | a look-up by public id can only answer that note iff no other note has it as public id or alias |
| Notes.CollidingLookup | src/notes/notes.service.ts:90-93 | such a collision can be created: a new note may take another note's public id as its alias |
| Notes.UpdateNote | src/notes/notes.service.ts:242-250 | one more revision with that content, and both permission lists emptied |
| Notes.UpdateNoteChanges | src/notes/notes.service.ts:242-250 | the other notes' permission rows, the earlier revisions and the other tables stay |
| Notes.UpdateNoteEndsSharing | src/notes/notes.service.ts:247-248 | after a content update nobody but the owner has access |
| Notes.GetGroupByName | src/groups/groups.service.ts:31-39 | the one group of that name with its members, or an error |
| Notes.ResolveUsers | src/notes/notes.service.ts:287-297 | the loop resolves the shares in order, and fails iff some name is unknown |
| Notes.ResolveGroups | src/notes/notes.service.ts:300-310 | the same for groups |
| Notes.EntriesAreDistinct | src/notes/notes.service.ts:273-281 | the new lists hold no user and no group twice, because names are distinct |
| Notes.SavedIsRequested | src/notes/notes.service.ts:283-312 | saving the resolved lists stores exactly what the request says of each name |
| Notes.UpdateNotePermissions | src/notes/notes.service.ts:261-313 | the stored grants become the requested ones, or nothing changes; the note returned lists the request in order |
| Notes.UpdatePermissionsIff | src/notes/notes.service.ts:265-310 | accepted iff no user and no group is named twice and each exists; naming twice is reported first; a refusal changes nothing |
| Notes.UpdatePermissionsStores | src/notes/notes.service.ts:283-312 | for the note a row for exactly the users and groups named, with the given canEdit; other notes' rows and other tables stay |
| Notes.AccessAfterUpdate | src/notes/notes.service.ts:261-313 | after an update anyone but the owner may read, or with canEdit write, iff the request grants it, directly or through a group |
| Notes.DtoIsTheRequest | src/notes/notes.service.ts:348-360 | the answer's lists are the request's lists |
| History.UpdateHistoryEntryTimestamp | src/history/history.service.ts:79-94 | refreshes the time and keeps the pin, or creates the entry unpinned |
| History.TouchChanges | src/history/history.service.ts:79-94 | the entry has the time of the visit and the pin it had; no other entry and no other table changes |
| History.UpdateHistoryEntry | src/history/history.service.ts:104-112 | changes the pin of exactly that entry, whose update-date column then takes the time of the save, or reports it missing |
| History.PinChanges | src/history/history.service.ts:104-112 | needs the entry; the pin is as asked for, no other entry and no other table changes, an error changes nothing |
| History.DeleteHistoryEntry | src/history/history.service.ts:121-125 | removes exactly that entry, or reports it missing |
| History.DeleteEntryChanges | src/history/history.service.ts:121-125 | needs the entry, takes exactly it; an error changes nothing |
| History.DeleteHistory | src/history/history.service.ts:132-137 | the loop removes exactly the user's entries |
| History.ClearedHistory | src/history/history.service.ts:132-137 | no entry of the user is left, every other entry is as it was |
| History.SetHistory | src/history/history.service.ts:146-185 | the transaction: rebuilt from the list with the notes the look-ups answered, or the whole table as it was |
| History.ImportChanges | src/history/history.service.ts:146-185 | on success the user's entries are for exactly the notes the list led to, with the last import's pin and time, everything else as before; on an error the whole store is as before |
| History.ImportAnswer | src/history/history.service.ts:158-178 | the first entry that is forbidden or unknown decides the error |
| History.ExportedEntry | src/history/history.service.ts:192-200 | an entry is exported under the note's alias if it has one, else its id, with pin and time |
| History.CheckImportIff | src/history/history.service.ts:158-178 | it goes through iff every entry is allowed and known |
| History.ImportedEntries | src/history/history.service.ts:151-183 | exactly one entry per note of the list, with pin and time of the last entry resolving to it; other users' entries as before |
| History.ExportImportIdentity | src/history/history.service.ts:146-200 | importing the export leaves the whole store as it is, in any order and for every answer of the look-ups, iff every exported identifier is allowed and leads back to its note only |
| History.FaithfulWhen | src/history/history.service.ts:192-200 | which holds if no identifier is forbidden and no alias is another note's id |
| History.MisleadingAlias | src/history/history.service.ts:161-168 | a consistent store whose alias equal to another note's id makes an accepted import answer a different history |
| Revisions.GetLatestRevision | src/revisions/revisions.service.ts:52-66 | the row that is last by creation time and then id; an error iff there is none |
| Revisions.LatestIsUnique | src/revisions/revisions.service.ts:57-60 | that row is unique, because the id breaks ties |
| Revisions.LatestIsLastWritten | src/revisions/revisions.service.ts:52-66 | it is the last text written |
| Revisions.FirstHasCreationTime | src/revisions/revisions.service.ts:68-81 | whatever row the first-revision query answers, it carries the time of the first write |
| Revisions.FirstIsFirstWritten | src/revisions/revisions.service.ts:67-81 | there is an earliest row, that of the first write |
| Revisions.RevisionCount | src/revisions/revisions.service.ts:29-35 | as many revisions as writes |
| Revisions.RevisionIsWritten | src/revisions/revisions.service.ts:37-50 | a revision query answers what was written to that note under that id, and nothing of another note |
| Media.MediaBackend.SaveFile | src/media/media-backend.interface.ts:16 | stores the file, or fails and changes nothing |
| Media.MediaBackend.DeleteFile | src/media/media-backend.interface.ts:24 | deletes the file, or fails and changes nothing |
| Media.SaveFile | src/media/media.service.ts:79-106 | file and record both appear, or neither, with the right error |
| Media.SaveFileIff | src/media/media.service.ts:50-106 | stored iff the type is one of the twelve and the backend takes the file, under the random name and extension, with its user and note; a refusal says why and changes nothing |
| Media.DeleteFile | src/media/media.service.ts:114-117 | file and record both go, or neither |
| Media.RemoveNoteFromMediaUpload | src/media/media.service.ts:178-185 | only that record loses its note |
| Media.DeleteAll | src/api/public/notes/notes.controller.ts:165-171 | the loop drops uploads from both stores until one fails, and fails iff some are left |
| Media.UploadLists | src/media/media.service.ts:146-170 | the uploads the loops go through are exactly those of the user, or of the note |
| Media.DroppedAndUnlinked | src/media/media.service.ts:108-117 | exactly those files and records go, or exactly those records lose their note; every other record is as it was |
| Api.PostNote | src/api/public/notes/notes.controller.ts:86-98 | creates a note for those who may |
| Api.PostNoteIff | src/api/public/notes/notes.controller.ts:86-100 | created iff a user asks or guests may create, and the alias is neither forbidden nor taken |
| Api.GetNote | src/api/public/notes/notes.controller.ts:107-116 | touches the history of a user who may read |
| Api.GetNoteIff | src/api/public/notes/notes.controller.ts:103-120 | shown iff the user owns the note or a stored grant applies; only then is the history refreshed |
| Api.PutNote | src/api/public/notes/notes.controller.ts:185-197 | updates the note for a user who may write |
| Api.PutNoteIff | src/api/public/notes/notes.controller.ts:185-197 | the text changes iff the user owns the note or a stored grant with canEdit applies; a refusal leaves the whole store as it was |
| Api.PutPermissions | src/api/public/notes/notes.controller.ts:241-252 | updates the permissions for the owner and answers with the request |
| Api.PutPermissionsIff | src/api/public/notes/notes.controller.ts:246-256 | updated iff the owner asks and the request is in order; otherwise nothing changes |
| Api.DeleteNote | src/api/public/notes/notes.controller.ts:156-176 | media loop, then removal; an interruption leaves the uploads not yet deleted and the note |
| Api.UnlinkAll | src/api/public/notes/notes.controller.ts:165-171 | the loop takes the note off exactly the given uploads |
| Api.DeleteNoteIff | src/api/public/notes/notes.controller.ts:161-175 | succeeds iff asked by the owner; what becomes of every file and upload record |
| Api.DeleteNoteIsTheCascade | src/api/public/notes/notes.controller.ts:173 | of the other tables it takes precisely what the declared cascades reach |
| Api.DeleteNoteKeepsRows | src/api/public/notes/notes.controller.ts:156-177 | every row it leaves is as it was |
| Api.InterruptedKeepsTheNote | src/api/public/notes/notes.controller.ts:164-173 | a failing backend is reported; exactly the uploads it got through are gone, the note and all else is there |
| Api.RetryReachesTheEnd | src/api/public/notes/notes.controller.ts:164-173 | after any number of interruptions, one run with a working backend ends where an uninterrupted run would have |
| Api.DeleteMedia | src/api/public/media/media.controller.ts:126-149 | the uploader's request drops the upload from both stores |
| Api.DeleteMediaIff | src/api/public/media/media.controller.ts:139-147 | comparing user names admits the uploader and nobody else; file and record are gone then, and nothing else; the error otherwise |
| Api.DeleteUser | src/api/private/me/me.controller.ts:41-51 | media loop, then removal, with the state after each failure |
| Api.DeleteUserIff | src/api/private/me/me.controller.ts:41-51 | succeeds iff all uploads on the user's notes are the user's own and no author row stands for the user; takes exactly the user's uploads and the cascade |
| Api.DeleteUserKeepsRows | src/api/private/me/me.controller.ts:41-51 | every row it leaves is as it was, as are everybody else's uploads and files |
| Api.InterruptedKeepsTheUser | src/api/private/me/me.controller.ts:41-51 | a failing backend is reported, and nothing but uploads is gone |
| Api.RefusedDeletionTakesUploads | src/api/private/me/me.controller.ts:41-51 | a deletion the database refuses has dropped exactly the user's uploads: the stores are unchanged iff there were none |
| Api.BlockedDeletion | src/api/private/me/me.controller.ts:41-51 | such a user: another user's upload on their note keeps the user, whose own file is gone |
| Api.UserRetryReachesTheEnd | src/api/private/me/me.controller.ts:41-51 | after any number of interruptions the user is still there, and one run with a working backend answers and ends as an uninterrupted run would |
| Runs.RunKeepsInv | src/api/public/notes/notes.controller.ts:86-252 | every run keeps: no dangling reference, unique columns unique, aliases allowed, files equal records, tokens as issued and capped, revisions exactly the texts written |
| Runs.FreshIsFine | src/groups/group.entity.ts:21-24 | a new installation has all of that |
| Runs.SharingGrowsByOwnerOnly | src/api/public/notes/notes.controller.ts:156-252 | a request adds to the sharing of a note only if it is a permission update by the note's owner; none changes the owner |
| Runs.AccessComesFromTheOwner | src/api/public/notes/notes.controller.ts:246-251 | over any run, whoever gains read or write access to a note gains it at such an update: the access is missing right before it and there right after it |
| Runs.OwnerIsForever | src/notes/note.entity.ts:54-58 | a note's owner never changes while the note exists |
| Runs.RevisionsOverRuns | src/notes/notes.service.ts:80-113 | from its creation on, a note's latest revision is the last text written, its first carries the creation time, and there is one more than there were updates |
| Runs.RevisionsAreStable | src/revisions/revisions.service.ts:37-50 | a revision keeps answering with the same content while its note exists, and never for another note |
| Runs.PurgeOverRuns | src/auth/auth.service.ts:214-227 | the bounds after a purge hold after any run |
| Runs.TokensOverRuns | src/auth/auth.service.ts:37-53 | after any run from a new installation, the exact condition of acceptance, the cap of 200, files equal to records and no dangling reference |
| Origins.RevisionComesFromAWriter | src/api/public/notes/notes.controller.ts:185-197 | over any run, every new revision was written by a user with write access at that time, or with the note itself |
| Origins.NewRevisionIsWritten | src/notes/notes.service.ts:242-250 | a request adds a revision only that way, and changes none |
| Origins.TokenStaysUntilTaken | src/auth/auth.service.ts:119-227 | over any run a token stays as issued, but for its last use, until its revocation, a purge at or after its time, or the deletion of its user |
| Origins.LetInUntilTaken | src/auth/auth.service.ts:37-53 | until then the same text is let in for the same user up to the expiry, whatever else happens |
| Origins.NewTokenIsIssued | src/auth/auth.service.ts:76-117 | a token that was not there was just issued, to the user it was asked for |
| Origins.NoteLeavesBy | src/api/public/notes/notes.controller.ts:156-177 | a note goes only when its owner deletes it or their account |
| Origins.UserLeavesBy | src/api/private/me/me.controller.ts:41-51 | a user goes only at their own request |
| Origins.HistoryChangesBy | src/history/history.service.ts:79-185 | a history entry changes only at a request of its user, or goes with the user or the note |
| Origins.UploadChangesBy | src/media/media.service.ts:79-185 | an upload's record is made by its user, taken by its uploader, and taken or unlinked by the owner of its note, in no other way |
| Origins.SharedWriterWrites | src/api/public/notes/notes.controller.ts:185-256 | in every reachable store an owner can share a note with a user, who can then write it; readers get that text, and the sharing has ended |
| Origins.UniqueOverRuns | src/users/user.entity.ts:29-32 | after any run no two users or groups have one name, no two notes one alias, no two tokens one hash, and no alias is empty or forbidden |
| Origins.TokenRequestsTakeEffect | src/auth/auth.service.ts:76-227 | within a run a revoked token is gone, a purge leaves none past its time, a use is on record, an issued token is stored |
| Origins.HistoryRequestsTakeEffect | src/history/history.service.ts:79-185 | within a run entries are entered, pinned, forgotten, cleared and imported |
| Origins.RemovalsTakeEffect | src/api/private/me/me.controller.ts:41-51 | within a run the owner's note and the deletable user are gone |
| Origins.MediaRequestsTakeEffect | src/media/media.service.ts:79-117 | within a run an allowed upload is on record, and the uploader's deletion takes file and record |
| Origins.RegistrationTakesEffect | src/users/users.service.ts:32-45 | within a run a user registered under a free name is found by it |

## Left out

- ToArrayConfigUndoesJoin: exact unless the separator begins with a blank and items are written with blanks around them; there the condition is sufficient, and `TrimmingRepairsACut` shows it is not necessary. The empty separator is in `EmptySeparator`, for items written bare.
- SetHistory: a list that names one note twice with the same time and different pins saves a row whose time is unchanged, which the update-date column might stamp anew; the imported time is kept here.
- TokensOverRuns: requests are atomic here; only token creation is interleaved, in `TokenCap`.
- RunKeepsInv: the database itself does not fail; only the media backend does, and its calls take effect wholly or not at all.
- DrawnParts: bcrypt is an abstract hash that keeps the first 72 characters; its byte-level truncation, salting cost and NUL handling are not modelled.
- Strings count Unicode characters where the original counts UTF-16 code units; issued secrets are ASCII, so acceptance is the same.
- Freshness of generated user, note and file ids is an input condition (a reused file name overwrites, as a save on an existing key does); a clash of key ids or hashes is modelled as a refused save.
- Clock readings inside one request are one time, except for a token's expiry and its creation time.
- Group administration: the groups are set up beforehand; only the deletion of a user changes their members.
- Titles, descriptions, tags, view counts, photos, e-mail addresses and display-name changes: carried along without rules.
- The history entry attached in `createNote` is not stored, because its relation declares no cascade (src/notes/note.entity.ts:61).
- `calculateUpdateUser`, edits and the session, identity and edit tables: their cascades are of the same kind as those modelled.
- File type detection, file URLs and backend data, and the concrete backends (file system, S3, Azure, Imgur, WebDAV).
- Public ids come from a library encoder that is not part of this model.
- Controllers of the private API act for a fixed user name; the steps here take the user as an argument.
- Configuration schemas, `replaceAuthErrorsWithEnvironmentVariables`, logging, guards, pipes and HTTP status codes.
