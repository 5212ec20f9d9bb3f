# solvcon-bot, modelled and proved

solvcon-bot is a polling daemon. On every tick it reads approvals and @-mentions from GitHub, asks a
reviewer for a review of the pull request's diff, and posts it as a comment. It must post exactly one
comment for each thing that asked for one, although calls fail, posts throw after they have landed,
saves are lost and the process may die at any moment. GitHub's own comment list, through a marker
hidden in each comment, is its recovery log.

This project models that protocol and the code under it, and proves what the code is for:

* **The dispatch protocol** (`Markers`, `Mention`, `IssueUrl`, `StateStore`, `Context`, `Reports`,
  `Protocol`, `Approvals`, `Blocking`, `QuotedKeys`, `RefusedLogins`, `WatcherIo`, `Watcher`, `Errors`, `Daemon`). `Protocol` holds the invariants over values:
  no trigger has two comments; every comment was asked for by a collaborator; every pull request in the
  reviewed set, in memory and in the file, and every mention that the cursor has passed is served, which
  means by a comment posted for it, unless its key was quoted (see below).
  `Watcher` is the bot as a class whose methods keep them on every path, and `Daemon.Run` carries them
  through any number of processes, ticks, failures and crashes. A crash is a call that answers `Dies`:
  nothing after it runs, and the next process starts from whatever the state file then holds. Between
  processes GitHub goes on changing.
* **The GitHub client** (`Http`, `LinkHeader`, `PageCache`, `Collaborators`): bounded retries and what
  counts as fatal, capped downloads, the ETag cache against a plain walk, collaborator answers of
  bounded age.
* **Diffs and the payload** (`Diff`, `Trim`, `DiffRender`, `Payload`, `Wording`, `Fences`, `MetaFences`): unique splitting, greedy
  trimming, paths read back from git's rendering, and fences that decode into what was sent: the diff, the files, the title and
  the description.
* **Text codecs** (`Utf8`, `Json`, `UrlPath`).
* **The child process** (`Subprocess`, `ChildEnv`): the poll loop for every schedule, and the environment.

Code that works step by step is a method here, proved against a function or a predicate that does not
mention the steps; the lemmas then say what that function means. Bytes are `char`s in `seq<char>` where the
source only compares and copies them, and numbers below 256 where it computes with them.

## What is assumed of the outside

* One instance runs at a time. Comments of the bot are neither deleted nor edited, and nobody else writes under
  its handle while the history lasts; what was written by hand before is `World.foreign`. A comment the bot posts
  appears under its handle, up to letter case, with the text that was posted, and with a new id.
* `list_pr_comments` answers with all comments of the thread; `list_issue_comments` with at least
  all comments updated at or after the given time. Times compare as text, as ISO 8601 times in UTC do.
* A comment version that appears after a listing has a key (update time, id) strictly after every key listed
  so far, and strictly after the last cursor seed. Without it an edit within the same second could hide
  behind the cursor. `Protocol.Later` is where it is said; the horizon is the latest key listed or seeded.
* The version in the marker has no `>`, and the nonce is one line that occurs in no piece of the payload.
* For one URL, equal ETags mean an equal first page and an equal `Link` header, over all time (section 8.8.3 of
  RFC 9110), and the server does not change while one walk lasts.

All that GitHub and the reviewer answer is on record in a log, `World.events`, in order, so that the theorems can say
in which call, and after what, an answer was given. A thrown error counts as a fault, except the refusal of a login;
errors that end the process are told from others where they are raised, and after such an error, as after a crash,
no call can be made.

Every other answer of the environment is arbitrary: other users' comments, edits and deletions, approvals,
diffs, file contents, failures of any call, and crashes.

## Where the code and its promises differ

* The dedupe test looks for the key anywhere in a comment of the bot's, the reviewer's text included. A review that
  quotes the key of a mention on the same pull request silences that mention: it is handled, the cursor moves on, and
  nothing is posted for it. `QuotedKeys.QuotedKeySilencesAMention` is such a world. The exact condition is
  `Markers.PostingCarriesExactly` for one comment and `Protocol.CarriesExactly` for a thread, and `Daemon.Run` carries it
  through every run: where no recorded reviewer output contains a key, every marker found is one that was posted.
* `is_collaborator` refuses every login with other characters than letters, digits and hyphens, such as
  `dependabot[bot]`, with an error that is neither fatal nor remembered (src/github_client.cpp:758-765). On the ping path
  it escapes, so a mention by such a login on an open pull request stops the path at that comment, on every tick, and all
  later mentions wait behind it. On the auto path such an approval hides later ones. `Watcher.ReviewPr` states exactly
  when a pull request becomes reviewed, and `Watcher.Tick` when a tick passes its whole listing. `RefusedLogins` has an
  input for each path, and the proofs that such a pull request is never reviewed and such a mention never passed.
* `sleep_backoff` is commented `1,2,4,8,16,32,60`. Attempts are counted from 1 before it is called, so the waits
  are 2, 4, 8, 16, 32 seconds (src/github_client.cpp:339, 424). `Http.WaitExactly` states the code's.
* `walk_pages` stops when there is no next link, `walk_pages_conditional` also when the next link, stripped of
  its origin, is empty. The two agree exactly when nothing stands behind such a link:
  `PageCache.PlainIsConditionalThenRest`. `LinkHeader.BareOriginIsEmptyPath` says which headers bring that about, and
  `PageCache.WalksDiffer` shows a site.
* The download cap is checked while bytes arrive, before the status is looked at. An error response with a body over
  the cap therefore counts as a truncated diff or file (src/github_client.cpp:820-837).
  `Http.FetchCapped` states it, and that this is the only way for an unmarked 403 not to be fatal.
* A section without `---`/`+++` lines, as git writes for binary files and for mode changes, is never taken for a
  deletion, and shows what follows the last ` b/` of its first line. `DiffRender.ShownRightExactly` is the exact
  condition for a file to be read right.
* Environment names are not checked for `=`. One entry per name then depends on the order: `A=B`, `A` gives one entry,
  `A`, `A=B` gives two (`ChildEnv.BuilderRepeatsAName`). `ChildEnv.DistinctExactly` says when each name stands once.

## Model

| member | source | states |
|---|---|---|
| Markers.MarkersDiscriminate | src/watcher.cpp:52-78 | a marker contains the key of a trigger if and only if it is its own trigger's, for all sources, PR numbers, comment ids and versions without `>` |
| Markers.KeysAtTheEndAgree | src/watcher.cpp:64-73 | two texts that end in keys are equal only if the triggers are: printing a key is injective |
| Markers.PostedForHasKey | src/watcher.cpp:52-78 | whatever follows the marker, and whatever version wrote it, the dedupe test finds the trigger's key in the comment |
| Markers.PostedForOneTrigger | src/watcher.cpp:52-73 | a comment was posted for at most one trigger, across versions of the bot |
| Markers.PostingCarriesExactly | src/watcher.cpp:52-78 | a posted comment passes the dedupe test of a trigger if and only if it was posted for it or its text quotes the key; so whatever the reviewer writes is part of the test |
| Markers.PingMarkerText | src/watcher.cpp:44-73 | the marker of a mention, letter by letter |
| Markers.AutoMarkerText | src/watcher.cpp:44-73 | the marker of a first approval, letter by letter |
| QuotedKeys.QuotedKeySilencesAMention | src/watcher.cpp:325-352 | the failing input, a world and a memory that satisfy the whole invariant: a review whose text is the key of a collaborator's mention on the same open pull request; the mention is handled and passed, and nothing was posted for it |
| Mention.MentionMatches | src/mention.cpp:41-72 | true iff `@handle` stands somewhere, up to case, with no handle character right before or after it, and the handle has 1 to 39 characters |
| Mention.MentionsExactly | src/mention.cpp:41-72 | a mention is some text, an at sign, the handle up to ASCII case, and some text, where neither text has a letter, digit or hyphen next to it |
| Mention.StartsWithIgnoringCase | src/mention.cpp:25-37 | true iff the needle stands at the offset up to ASCII case |
| Mention.EqLogin | src/mention.cpp:74-82 | true iff the logins are equal up to ASCII case |
| Mention.SameIgnoringCaseExactly | src/mention.cpp:74-82 | equal up to case means equal length, and at each place the same character or the two cases of one letter |
| IssueUrl.ParseIssueNumberFromUrl | src/github_types.cpp:227-249 | the number in the digits before any trailing slashes, if a slash or nothing stands before them; else -1 |
| IssueUrl.IssueNumberOfUrl | src/github_types.cpp:227-249 | a number printed into a URL is read back, for every base, number and trailing slashes; -1 beyond the width of an int |
| IssueUrl.IssueNumberExactly | src/github_types.cpp:227-249 | a URL has a number if and only if it is a base that is empty or ends in a slash, digits of a value below 2^31, and slashes; and then it is theirs |
| StateStore.StateStore.constructor | src/state_store.cpp:129-158 | memory starts as the file's content, or empty without a file |
| StateStore.StateStore.MarkReviewed | src/state_store.cpp:165-168 | adds exactly that pull request, and the old state is an earlier state of the new one |
| StateStore.StateStore.MarkHandled | src/state_store.cpp:175-178 | adds exactly that comment, and the old state is an earlier state of the new one |
| StateStore.StateStore.AdvanceCursor | src/state_store.cpp:180-188 | the cursor becomes the key if the key is later, which the first differing character of the times decides and then the id; nothing else changes |
| StateStore.StateStore.InitCursorIfEmpty | src/state_store.cpp:190-199 | seeds the cursor iff it is empty and there is a time to seed it with |
| StateStore.StateStore.IsAtOrBeforeCursor | src/state_store.cpp:201-206 | true iff the key is not later than the cursor, by the first differing character of the times and then the id |
| StateStore.StateStore.Save | src/state_store.cpp:208-258 | the file becomes the memory or stays as it was, and stays if the call throws |
| StateStore.CursorIsTheMaximum | src/state_store.cpp:180-188 | after any sequence of advances the cursor is the start or one of the keys, and none of them is later |
| StateStore.CursorIgnoresOrder | src/state_store.cpp:180-188 | only the set of keys matters, not their order or repetition |
| StateStore.KeyOrder | src/state_store.cpp:180-206 | the tuple order that the cursor tests compute is a strict total order |
| Text.LessExactly | src/state_store.cpp:180-206 | a text is less than another exactly if, after some common characters, it ends first or has the smaller character |
| StateStore.KeyLessExactly | src/state_store.cpp:180-206 | the tuple order is: later by the first differing character, or the same time and a larger id |
| StateStore.LaterFromOneCharacter | src/state_store.cpp:180-206 | of two times that differ first at one character, the one with the larger character moves the cursor and is not yet seen, whatever follows and whatever the ids |
| Context.GatherRespectsCaps | src/watcher.cpp:501-526 | collected files come from the changed paths in order, are complete, free of NUL and within the total, per-file and count caps |
| Context.ContextIsOk | src/watcher.cpp:447-478 | a request whose diff fits the budget and whose context was gathered for it respects every cap |
| Context.GatheredExactly | src/watcher.cpp:501-526 | answer by answer, a file joins the context if and only if it is there, whole, free of NUL, and fits what the others have left |
| Context.TotalIsTheLength | src/watcher.cpp:501-526 | what is counted against the total cap is the length of all contents together |
| Protocol.PostKeepsAtMostOnce | src/watcher.cpp:186-233 | a post for a trigger whose key no bot comment carries leaves every trigger with at most one comment, even if the environment moved meanwhile |
| Protocol.PostKeepsJustified | src/watcher.cpp:150-182 | every comment posted for a trigger stays backed by GitHub's answers in their order: the reviews, strangers, and then a collaborator; or the listing of the mention, then an open pull request, then a collaborator |
| Protocol.PostKeepsAllWritten | src/watcher.cpp:398-490 | every comment the bot has posted stays the report of a diff that GitHub gave of that pull request and of what the reviewer said when it was given that diff |
| Protocol.WrittenCarriesExactly | src/watcher.cpp:190-203 | such a comment carries a key if and only if it was posted for that trigger or the reviewer's part of it quotes the key |
| Protocol.CarriesExactly | src/watcher.cpp:186-233 | the marker test over a thread succeeds if and only if the trigger has its comment or its key was quoted there |
| Protocol.UnquotedIsPosted | src/watcher.cpp:325-352 | where no recorded reviewer output, and no comment written by hand under the handle, contains the key, served means that a comment was posted for the trigger |
| Protocol.DispatchKeepsProtocol | src/watcher.cpp:398-490 | one dispatch, or none, keeps the whole invariant of world, memory and file, in which the file is an earlier state of the memory |
| Protocol.StateOkPersists | src/watcher.cpp:184-241 | what memory and file claim stays true under every step of the environment and every post |
| Protocol.DecideKeepsStateOk | src/watcher.cpp:368-385 | moving the cursor to the next comment of the sorted listing drops no mention: all that is passed is settled by what GitHub said after it listed the mention, or by a comment posted for it unless its key was quoted |
| Protocol.PassedIsTheNext | src/watcher.cpp:264-270 | between the cursor and the next listed comment there is no other comment to lose |
| Protocol.HandledSettles | src/watcher.cpp:286 | a comment id that was handled is settled for its later versions too |
| Protocol.RaisingTheHorizon | src/watcher.cpp:248-257 | listing comments keeps the invariant |
| Protocol.SeedingKeepsProtocol | src/main.cpp:79-95 | seeding an empty cursor keeps the invariant, for memory and file alike |
| Protocol.SaveIsSafe | src/state_store.cpp:208-258 | whether or not a save took effect, a restart finds a state that the invariant allows |
| Approvals.AutoCompleteStep | src/watcher.cpp:136-243 | each pull request looked at is reviewed, or GitHub has listed its reviews since then and called every approver a stranger, or an approver who cannot be looked up came first |
| Approvals.RefusalHides | src/watcher.cpp:165-176 | where an approver who cannot be looked up comes first, no later approval counts |
| RefusedLogins.AnnIsHidden | src/watcher.cpp:150-176 | the input: a collaborator's approval behind that of an app never counts, whatever GitHub says of her |
| RefusedLogins.HiddenIsNeverReviewed | src/watcher.cpp:150-176 | in every reachable state: while every listing of the reviews is like that, nothing has been posted for the approvals |
| RefusedLogins.AppBlocksThePath | src/watcher.cpp:315-322 | the input: a world that satisfies the invariant, in which every allowed memory has its cursor before an app's mention |
| Blocking.NeverAnswerableIsNeverPassed | src/watcher.cpp:317-322 | in every reachable state: a mention by a login that cannot be looked up, on an issue GitHub only ever called an open pull request, is not handled and not reached by the cursor, and so nothing behind it is |
| Blocking.AskedNext | src/watcher.cpp:270-394 | one more comment extends the record of what was asked, and blocks the pass exactly if it is such a mention |
| Protocol.PassedAtTheEnd | src/watcher.cpp:270-395 | when the listing is worked through, no comment up to the horizon is after the cursor |
| Protocol.CountRepeats | src/watcher.cpp:368-394 | the decided comments are a prefix of the sorted listing, and every other one is strictly after the cursor |
| Protocol.DecideAllExactly | src/watcher.cpp:368-385 | after a listing the cursor is at the latest key, the reviewed set is as before, and the newly handled ids are those of the mentions that were looked at |
| Protocol.NothingIsAskedTwice | src/watcher.cpp:270-300 | a mention that was looked at is not looked at again in any version, nor is anything the cursor has reached |
| WatcherIo.WatcherIo.PostComment | src/watcher.hpp:34 | at most one comment lands, with that body on that thread; it may land although the call throws or the process dies |
| WatcherIo.WatcherIo.ListPrComments | src/watcher.hpp:30 | an answer holds all comments of the thread and no others |
| WatcherIo.WatcherIo.ListIssueComments | src/watcher.hpp:31-32 | an answer holds all comments updated at or after the given time, as of one moment |
| WatcherIo.WatcherIo.IsCollaborator | src/github_client.cpp:758-765 | logins outside letters, digits and hyphens are refused, every time; others may get an answer, which is on record |
| WatcherIo.ListingInHand | src/watcher.cpp:248-268 | the sorted listing covers every comment that is not newer than it |
| Watcher.SortSorts | src/watcher.cpp:264-268 | the sort puts the oldest first, by the first differing character of the times and then by id, and keeps the elements |
| Watcher.Watcher.Post | src/watcher.cpp:401-415 | posts marker, blank line and text for the trigger; what lands stands for exactly that trigger and is made of the reviewer's words and the bot's |
| Reports.TrimNoteCounts | src/watcher.cpp:466-469 | the note under a trimmed review gives the budget, then the number of sections reviewed, then the number omitted |
| Reports.NoticesGiveTheLimit | src/watcher.cpp:407-459 | the notices name the limit that was exceeded |
| Watcher.Watcher.CollectContextFiles | src/watcher.cpp:492-527 | the files are what GitHub's answers of this call for the changed paths make under the caps; without faults it stops only at the end, at the count cap or at the first usable file that does not fit; errors, fatal ones included, never leave it |
| Watcher.Watcher.FitToBudget | src/watcher.cpp:443-476 | trims exactly the over-budget diffs, within the budget, with the note that belongs to it, and refuses exactly when no section fits beside the preamble |
| Watcher.Watcher.DispatchReview | src/watcher.cpp:398-490 | on return one comment has landed, saying what the diff that GitHub gave in this call and the reviewer's output call for; the reviewer was asked with that diff, those omissions, and the title, description and context that GitHub gave in this call, all of them if nothing failed; on every exit at most one landed and no cap was exceeded; fatal errors come out |
| Watcher.Watcher.ReviewAndPost | src/watcher.cpp:432-486 | the request carries title, description and context if and only if the metadata came |
| Watcher.Watcher.AlreadyPosted | src/watcher.cpp:190-203 | true iff a comment of the bot's in the listing carries the key |
| Watcher.Watcher.PostOnce | src/watcher.cpp:184-233 | the invariant is kept on every exit; a decision means that GitHub had the key when it was asked, or that a dispatch in this call delivered its comment; an error escapes exactly if it is fatal |
| Watcher.Watcher.TryApproval | src/watcher.cpp:152-241 | a stranger's approval changes nothing, and the next counts; an approver who cannot be looked up ends the look and changes nothing; a collaborator's, without faults, gets the pull request reviewed and saved |
| Watcher.Watcher.ReviewPr | src/watcher.cpp:135-243 | without faults a pull request becomes reviewed if and only if, in this call, GitHub listed an approval and called its author a collaborator and everyone who approved before a stranger; else it said that all are strangers, or an approver could not be looked up |
| Watcher.Watcher.ReviewApproved | src/watcher.cpp:184-241 | the approval that counts is reviewed, marked and saved |
| Watcher.Watcher.RunAutoPath | src/watcher.cpp:121-244 | the open pull requests are those GitHub listed in this call; each is dealt with on what GitHub says in this call, except one for each call that failed; only approved ones are marked; a fatal error of any call leaves the path, and nothing else but a crash does |
| Watcher.Watcher.Classify | src/watcher.cpp:282-365 | a mention is decided only on what GitHub says in this call: by a comment posted for it (or a quoted key), or no usable URL, no open pull request, or no collaborator; without faults what escapes is exactly a mention that blocks |
| Watcher.Watcher.AnswerOnOpenPr | src/watcher.cpp:315-364 | on an open pull request the author is looked up in this call: a stranger gets no answer, a collaborator is served, a login that cannot be looked up always ends the path, and without faults nothing else does |
| Watcher.Watcher.HandleComment | src/watcher.cpp:270-394 | the decision is committed to memory exactly when it was made, and saved unless something failed |
| Watcher.Watcher.RunPingPath | src/watcher.cpp:246-396 | the comments worked through are those GitHub listed in this call from the cursor on, sorted, and they cover all that is not newer; on every exit memory is what deciding a prefix of them makes of it, and all others are strictly after the cursor; without faults and crashes it reaches the end if and only if no listed mention blocks |
| Watcher.Watcher.WorkThrough | src/watcher.cpp:270-395 | the loop stops at the first undecided comment, with everything before it saved |
| Watcher.Watcher.Tick | src/watcher.cpp:115-119 | keeps the invariant; without faults and crashes every pull request that GitHub lists as open in the tick is dealt with, what changed is saved, and the whole listing that GitHub gives in the tick is passed if and only if no mention in it is by a login that cannot be looked up, on an issue GitHub then says is an open pull request; fatal errors leave it |
| Daemon.FreshInstallIsAtRest | src/main.cpp:79-95 | a repository the bot has never posted in, without a state file, satisfies the invariant, comments written by hand under its handle included |
| Daemon.RestartIsValid | src/state_store.cpp:129-158 | reloading memory from the file after any stop gives a valid state |
| Daemon.RestingIsSafe | src/state_store.cpp:129-158 | whatever GitHub does while no process runs, the file stays one to start from |
| Daemon.RunProcess | src/main.cpp:65-158 | one process, ended by a signal, a fatal error or a crash, leaves a world and a file that the next one can start from; its first poll finds the loaded memory, or one with a first cursor that is saved already; if nothing throws and it does not die, it polls until it is told to stop, and its memory is then in the file |
| Daemon.PollOn | src/main.cpp:108-150 | the loop polls until it is told to stop, and stops earlier exactly for a crash or an error that no retry can clear; every poll in which nothing threw is complete: the open pull requests dealt with, what changed saved, the listing passed unless a mention blocks it |
| Daemon.KeysMeanComments | src/watcher.cpp:186-352 | wherever a key is quoted nowhere, what carries it was posted for its trigger, for every trigger at once |
| Daemon.Run | src/main.cpp:65-158 | after any number of processes, with GitHub changing between and under them: at most one comment per trigger, each asked for and a true report, no payload over its caps; every saved reviewed pull request is served; every mention the saved cursor has passed was, after it was listed, served or had its reason for silence; served means by a comment posted for it unless its key was quoted |
| Http.SleepBackoff | src/github_client.cpp:413-428 | the wait of that attempt, 1 to 600 seconds |
| Http.WaitExactly | src/github_client.cpp:413-428 | what the server asked for, up to 600 seconds; else 2, 4, 8, 16, 32 and then 60 seconds by attempt |
| Http.Request | src/github_client.cpp:324-411 | a GET is sent at most 6 times, a POST once; the sleep is exactly the waits after the attempts before the last, 3000 seconds at most; the error is fatal iff the last response was a 401, a 422 or a 403 without rate-limit markers |
| Http.StopsOnce | src/github_client.cpp:340-411 | the number of attempts, and so the outcome, is determined by the server's responses |
| Http.GetsTheFirstAnswer | src/github_client.cpp:340-411 | a GET is repeated as long as failures may pass, up to six times: it ends with the first other answer among them, or with the sixth failure |
| Http.FetchesTheFirstAnswer | src/github_client.cpp:812-875 | the same for a download; a 2xx within the cap is the whole file, a 404 is absence where that is allowed, and a body over the cap is cut there |
| Http.Receive | src/github_client.cpp:697-709 | the body is the stream, or its first `cap` bytes exactly when it is longer, however it is cut into chunks |
| Http.FetchCapped | src/github_client.cpp:812-875 | the same bounds for a download, and when it is cut off; the error is fatal iff the response was a 401, a 422 or an unmarked 403 whose body fit the cap |
| Http.StreamDiff | src/github_client.cpp:789-875 | a diff is never longer than the fetch cap, and marked truncated exactly when it was cut off |
| Http.GetFileAtRef | src/github_client.cpp:655-756 | nothing is sent exactly for refused paths and refs, which count as absent; a complete file is within the cap |
| LinkHeader.ParseLinkNext | src/github_client.cpp:28-57 | the URL of the first link, from the left, marked as next |
| LinkHeader.NextUrlOfRendered | src/github_client.cpp:28-57 | the next URL is read from every header rendered from a list of links, in any order |
| LinkHeader.MarkedUrlOfRendered | src/github_client.cpp:28-57 | the same for any property of a link's parameters, from any link on |
| LinkHeader.BareOriginIsEmptyPath | src/github_client.cpp:291-307 | the next path is empty if and only if the next URL is a bare origin, or empty |
| LinkHeader.QuotedRelDecides | src/github_client.cpp:28-57 | a link with a quoted relation is taken for the next one if and only if the relation is `next` |
| LinkHeader.UnquotedRelDecides | src/github_client.cpp:28-57 | with an unquoted one, if and only if it starts with `next` |
| LinkHeader.StripsTheOrigin | src/github_client.cpp:291-307 | the path is what follows the configured origin, or else the public one; other URLs are kept |
| PageCache.PageCache.WalkPages | src/github_client.cpp:431-454 | the concatenation of the pages along the next links, or an error exactly if one of them is not served |
| PageCache.PageCache.WalkPagesConditional | src/github_client.cpp:480-581 | exactly the items a walk finds now, from the cache or not, or an error exactly if one of the pages is not served; the cache then holds the listing if it is a single tagged page and drops it otherwise, and is untouched by a failure |
| PageCache.PageCache.FollowLinks | src/github_client.cpp:534-554 | the pages after the first, in order, or an error exactly if one is not served |
| PageCache.PageCache.FreshEntry | src/github_client.cpp:499-511 | a 304 vouches for the stored page and for its being the only one |
| PageCache.PlainIsConditionalThenRest | src/github_client.cpp:431-454 | the plain walk is the conditional walk and then what stands behind an empty link; they agree iff that is nothing |
| PageCache.WalksDiffer | src/github_client.cpp:448-452 | a site of two pages on which they do not agree |
| PageCache.TagsTellNow | src/github_client.cpp:480-512 | the ETag law between servers over time makes every stored entry trustworthy now |
| PageCache.History | src/github_client.cpp:480-581 | for every history of server changes, failing requests and calls on any keys, each result is what the server has now, or the error that the failing request calls for |
| Collaborators.UrlPathSegmentEncode | src/github_client.cpp:142-154 | accepts exactly logins of 1 to 39 letters, digits and hyphens, unchanged |
| Collaborators.CollaboratorCache.IsCollaborator | src/github_client.cpp:758-787 | an answer is that of a definitive lookup less than 900 seconds old; a new lookup records what the server said; errors are never remembered, and fatal exactly for a 401, a 422 or an unmarked 403; no lookup is made while a recent one exists |
| Collaborators.HitsAreRecent | src/github_client.cpp:767-772 | the cache answers exactly when some definitive lookup is younger than the TTL, and then with its answer |
| Collaborators.LearningKeepsCacheOk | src/github_client.cpp:773-781 | remembering an answer keeps entries backed and lookups of one user a TTL apart |
| Collaborators.RecentAnswersAgree | src/github_client.cpp:233-239 | within the TTL a user cannot be both a collaborator and not one |
| Collaborators.AskAll | src/github_client.cpp:758-787 | over every run on a clock that never goes back, each answer is the server's to a question about that user asked less than 900 seconds before, and two lookups of a user are at least 900 seconds apart |
| Diff.SplitExists | src/reviewer.cpp:383-412 | every text has a split: a preamble and sections that each hold a line-start marker only at their head, concatenating to the text |
| Diff.SplitUnique | src/reviewer.cpp:383-412 | it has no other |
| Diff.SplitDiffByFile | src/reviewer.cpp:383-412 | the method computes that split, with path and deletion of each section |
| Diff.FindStarts | src/reviewer.cpp:388-398 | lists exactly the section starts, in order |
| Diff.Junction | src/reviewer.cpp:383-398 | no section start appears, vanishes or moves where two texts meet at a line end |
| Diff.ComputeSectionPath | src/reviewer.cpp:333-379 | the path of the `---`/`+++` header or of the first line, and whether the file is deleted |
| Trim.TrimDiffToBudget | src/reviewer.cpp:414-452 | the method computes the greedy trim of the split |
| Trim.KeepWhatFits | src/reviewer.cpp:433-449 | the loop keeps and lists what the greedy pass keeps and drops |
| Trim.KeptExactlyWhenItFits | src/reviewer.cpp:435-445 | a section is kept exactly when it fits what the sections kept before it have left |
| Trim.DroppedExactlyWhenItDoesNotFit | src/reviewer.cpp:433-449 | and dropped, and listed, exactly when it does not |
| Trim.TrimKeepsWhatFits | src/reviewer.cpp:414-452 | a trim keeps and lists just what the greedy pass keeps and drops; it keeps something if and only if the preamble fits and some section fits beside it |
| Trim.EntriesTellPathAndSize | src/reviewer.cpp:424-448 | the entry of an omitted section tells its path and its size |
| Trim.TrimAccountsForEverything | src/reviewer.cpp:414-452 | the result fits the budget; kept and omitted counts add up to the sections; preamble, kept and dropped bytes add up to the input |
| Trim.TrimOfSmallDiff | src/reviewer.cpp:414-452 | a diff within the budget comes back unchanged, with nothing omitted |
| Trim.TrimmedSplitsIntoKept | src/reviewer.cpp:414-452 | splitting the trimmed diff gives the same preamble and exactly the kept sections, in order |
| Trim.TrimmedPathsAreChangedPaths | src/reviewer.cpp:454-464 | trimming makes no changed path appear |
| Trim.ChangedPaths | src/reviewer.cpp:454-464 | the method computes the changed paths of the split |
| Trim.ChangedInExactly | src/reviewer.cpp:454-464 | they are exactly the nonempty paths of sections that are not deletions, each once |
| DiffRender.ChangedPathsAreShown | src/reviewer.cpp:454-464 | for any list of files, patches or header-only, with arbitrary hunk lines: the changed paths are the paths shown, first occurrences in order |
| DiffRender.ChangedPathsOfRendered | src/reviewer.cpp:454-464 | parsing undoes rendering: these are the new-side paths of the files not deleted, if every file is read right |
| DiffRender.ShownRightExactly | src/reviewer.cpp:333-379 | the exact condition: a patch always; a header-only file that is not deleted iff its new name does not contain ` b/`; a header-only deletion iff its name leaves nothing to show |
| DiffRender.OneFileExactly | src/reviewer.cpp:454-464 | the condition cannot be weakened: it decides the diff of a single file |
| DiffRender.RenderedSplits | src/reviewer.cpp:383-412 | a rendered diff of any files, header-only ones included, splits into one section per file, byte for byte |
| DiffRender.RenderedPath | src/reviewer.cpp:333-379 | the header of a rendered file is read back, whatever its extended headers and hunks: the new path, or the old one and that the file is deleted; what follows a tab is no part of it |
| DiffRender.HeaderOnlyPath | src/reviewer.cpp:366-379 | without a header the path is what follows the last ` b/` of the first line, whatever the old name, and the file never counts as deleted |
| DiffRender.HunksEndTheHeader | src/reviewer.cpp:358-379 | where neither side can be read, nothing behind the first `@@` is taken for a header |
| Payload.AssembleReviewStdin | src/reviewer.cpp:232-311 | the method writes the pieces in their order, with the optional ones exactly when present |
| Payload.SanitizeFencePath | src/reviewer.cpp:219-228 | control characters of a path become question marks, and nothing else changes |
| Payload.LinesOfBlock | src/reviewer.cpp:210-214 | a block has the lines of its text, and ends each of them |
| Fences.DiffFencesEncloseTheDiff | src/reviewer.cpp:232-311 | if the nonce is in no piece, the two diff fences are unique lines, and the lines between them are exactly the diff's |
| Fences.DecodeDiffOfAssembled | src/reviewer.cpp:293-295 | a reader gets the diff back, up to one added final newline |
| Fences.DecodeFilesOfAssembled | src/reviewer.cpp:297-303 | reading the FILE fences in order gives back every sanitized path and every content |
| Fences.LeadUnmarked | src/reviewer.cpp:257-291 | nothing before the diff can be taken for a diff or file fence |
| MetaFences.MetaFencesEncloseTheMeta | src/reviewer.cpp:277-291 | if there is a title, a description or an omitted file, the two metadata fences are unique lines, and between them are exactly the title line, the heading, the lines of the description, and the omitted files if there are any |
| MetaFences.NoMetaNoFences | src/reviewer.cpp:246-248 | otherwise neither fence is a line |
| MetaFences.DecodeMetaOfAssembled | src/reviewer.cpp:277-291 | a reader gets them back if and only if there is something to read |
| MetaFences.PromptComesFirst | src/reviewer.cpp:250-311 | the lines of the payload in order: the prompt's, an empty one, the instruction, the metadata, the diff, the files |
| MetaFences.InstructionNamesTheFences | src/reviewer.cpp:253-275 | the instruction names the fence lines of every region that is there |
| MetaFences.InstructionCloses | src/reviewer.cpp:265-275 | and ends with the sentence for several regions if and only if there is more than the diff |
| Wording.SourceProseIsSound | src/reviewer.cpp:257-291 | the wording the source sends meets what the fence theorems assume of it |
| Utf8.AppendUtf8 | src/github_types.cpp:73-97 | keeps what was there and, for a scalar value, adds exactly one well-formed character that decodes to it |
| Utf8.EncodeDecodes | src/github_types.cpp:73-97 | the encoding of a scalar value is one well-formed character that decodes back to it |
| Utf8.DecodeEncodes | src/github_types.cpp:73-97 | no other well-formed character decodes to it: the encoding is the shortest form |
| Json.JsonEscapeUtf8 | src/github_client.cpp:108-140 | the method escapes byte by byte |
| Json.EscapeIsJsonText | src/github_client.cpp:108-140 | the result can stand between quotes: no raw control byte, no bare quote, no dangling backslash |
| Json.EscapesOnlyWhatItMust | src/github_client.cpp:108-140 | a byte is written as it is if and only if JSON allows that |
| Json.EscapesShort | src/github_client.cpp:108-140 | exactly seven bytes get a two-byte escape |
| Json.ParseHex4 | src/github_types.cpp:56-71 | the value of four hex digits, or -1 if there are not four |
| Json.ReadToken | src/github_types.cpp:119-188 | one step reads the token at that offset: a byte, an escape, a code unit or a surrogate pair |
| Json.JsonUnescape | src/github_types.cpp:119-188 | the loop decodes the whole text token by token |
| Json.UnescapeOfEscape | src/github_client.cpp:108-140 | unescaping undoes escaping, for every byte string |
| Json.UnescapeOfSpelled | src/github_types.cpp:119-188 | any sequence of scalar values, each spelled as its UTF-16 code units with four hex digits in either case, is read back as their UTF-8 |
| Json.LoneSurrogateIsReplaced | src/github_types.cpp:144-178 | one unit of a surrogate pair without the other is read as U+FFFD |
| Json.ShortEscapesAre | src/github_types.cpp:134-143 | what the eight two-byte escapes stand for |
| Json.OtherBytesStand | src/github_types.cpp:119-188 | every byte at which no escape stands is kept, a backslash too |
| Json.PointsAreScalar | src/github_types.cpp:150-178 | the encoder only ever gets scalar values, unpaired surrogates included |
| Json.UnescapeKeepsUtf8 | src/github_types.cpp:119-188 | valid UTF-8 stays valid for every input, malformed escapes included |
| UrlPath.UrlEncodePath | src/github_client.cpp:156-194 | empty exactly for paths that are refused (empty, absolute, with a control byte, or with an empty or dot segment); else the encoded path |
| UrlPath.DecodeOfEncode | src/github_client.cpp:156-194 | percent-decoding gives the path back, and the text is unreserved characters, slashes and `%XX` only |
| UrlPath.EncodePathInjective | src/github_client.cpp:156-194 | different paths get different URLs, and only refused ones get the empty one |
| UrlPath.SegmentsOfEncoded | src/github_client.cpp:156-194 | encoding works segment by segment: same count, and no new empty or dot segment |
| UrlPath.EncodesOnlyWhatItMust | src/github_client.cpp:156-194 | slashes and the unreserved characters of RFC 3986 are kept, and nothing else |
| UrlPath.SegmentsMakeThePath | src/github_client.cpp:156-194 | a path is its segments with slashes between them |
| UrlPath.RefusedExactly | src/github_client.cpp:156-194 | refused is what has a control byte, or a segment that is empty, `.` or `..` |
| Subprocess.AppendCapped | src/subprocess.cpp:88-103 | the buffer stays the capture of the stream: the stream if it fits, else its first bytes and the footer, whatever the chunks |
| Subprocess.Capture.Drain | src/subprocess.cpp:429-478 | reads until the pipe is empty, ended or broken, capturing all that was read |
| Subprocess.Feed | src/subprocess.cpp:387-421 | the child gets exactly the next bytes, as many as the kernel took, and writing is done when all is delivered or a write failed hard |
| Subprocess.DoneMeansDeliveredOrBroken | src/subprocess.cpp:387-421 | over every schedule, writing ends exactly with everything delivered or with a hard failure that the schedule contains |
| Subprocess.WritesFollowTheKernel | src/subprocess.cpp:399-421 | as long as no write fails hard, what is delivered is as much as the kernel took in all, up to the whole input |
| Subprocess.WritesStopAtABreak | src/subprocess.cpp:399-421 | from the first hard failure on nothing more is written |
| Subprocess.OpenPipeYieldsAll | src/subprocess.cpp:429-478 | while a pipe is open, all that is read from it is taken |
| Subprocess.EndedPipeYieldsNoMore | src/subprocess.cpp:429-478 | the round in which it ends or fails is the last that is read |
| Subprocess.Pump | src/subprocess.cpp:319-481 | for every schedule, the bytes delivered, both captures, and where and why the loop stops |
| ChildEnv.Upsert | src/subprocess.cpp:129-145 | replaces the first entry that starts with `NAME=`, else adds one at the end, for every name |
| ChildEnv.DistinctAfter | src/subprocess.cpp:129-145 | an insertion leaves the names pairwise different if and only if they were and it does not clash: no entry starts with `NAME=`, and one has the name that the new entry reads as |
| ChildEnv.DistinctExactly | src/subprocess.cpp:129-166 | after any sequence of insertions each name stands once if and only if none of them clashed |
| ChildEnv.ReadsExactly | src/subprocess.cpp:129-166 | and the list then reads as the map that the insertions make |
| ChildEnv.PlainNamesNeverClash | src/subprocess.cpp:129-166 | names without `=` never clash, whatever the values and the order |
| ChildEnv.PrefixIsName | src/subprocess.cpp:131-141 | comparing with `NAME=` finds exactly the entry of that name |
| ChildEnv.BuildSanitizedEnv | src/subprocess.cpp:114-172 | for all inputs: each name at most once iff no insertion clashes, and then a map; for names without `=`: kept names overridden by passed-through ones, overridden by explicit values, and no others |
| ChildEnv.BuilderRepeatsAName | src/subprocess.cpp:163-166 | the failing input: two explicit values in one order give two entries named A, in the other order one |

## Left out

- Sockets, TLS, cpp-httplib, fork, exec, kill, flock and fsync: their outcomes are the arbitrary answers above; `save` is an atomic replacement or nothing.
- The reaping of the child and the final `waitpid` (src/subprocess.cpp:485 on): no claim is made that every exit reaps or that the call ends in time.
- The solvcon JSON parser and serializer: list endpoints answer with typed values, a page's body is its list of items, and the state file is an exact copy of the state. A state file that cannot be read ends the process before it starts, and is not modelled.
- The text of comments as the parser leaves it (src/github_types.hpp:70-73): a body is given bytes, and GitHub is assumed to list a posted marker unchanged.
- HTTP-date parsing: `parse_retry_after` is any function from text to an optional number.
- Logging, configuration from the environment, the reviewer's check at startup, the codexmon and mock reviewers, the tee to stderr, scripts and tools.
- The randomness of the nonce: only its absence from the payload is assumed.
- The English wording around the fences is a parameter `Prose` of the fence theorems; what they use of it is `SoundProse`, which the source's own wording meets.
- GitHub's `since` filter and its clock: the listing is complete from the given text on, and the ten minutes by which the seed lies in the past do not matter to what is proved.
- Integer widths of ids, counts and sizes, except where the source truncates or refuses: `stoi`, bytes and hex quads.
- The server behind `Http.Request` and `Http.FetchCapped` is a function from the attempt's number to its response, so a run is any sequence of responses.
- PageCache.PageCache.WalkPages: takes the finite list of paths that the next links form as a ghost argument, because an endless chain of links would never return.
- Subprocess.Pump: runs along a finite schedule, and says StillRunning when the schedule ends first, because the loop may wait for ever between two events. A pipe's fate within one round does not depend on the other pipes, so their order is fixed.
- Daemon.Run: bounds the number of ticks of a process, and the number of processes, by arbitrary numbers, because a daemon does not end by itself.
- `getenv` is a map from names to values; the parent's environment as a list is not modelled.
- Git's quoting of unusual names on the `diff --git` line and in the `---`/`+++` header: names are as they are.
- The order of changed paths after trimming: a dropped first occurrence moves a path back, so only inclusion is proved.
