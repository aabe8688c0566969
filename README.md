# Forum content store and tracker rules, in Dafny

This project models the forum content store of a women's-health tracker web app.
The store exists in three places, and all three follow the same rules:

- `localForumApi` in `script.js` is the browser's offline replica. It lives in two localStorage keys.
- `forum-server.js` is a Node server that keeps one JSON data file.
- `api/_lib/forum-store.js` is a serverless store over a key-value database.

All three share the slug normaliser. They check a new topic in the same order: name too short, empty slug, name too long, description too long, then duplicate slug. New posts go to the front of the list. The replica and the key-value store cap a topic at 2000 posts; the file server has no cap. Only the replica has replies, capped at 500 per post.

Beside the store, the project models these parts of `script.js`:

- the client that picks an API base and falls back to the replica;
- retention pruning of stored lists and the once-a-day records;
- `escapeHtml`;
- the embed allowlist;
- the integer rules of the cycle tracker.

Modules, one per file:

| file | module | models |
|---|---|---|
| `text.dfy` | `Text` | `trim`, `slice`, `Option`, decimal digits |
| `slug.dfy` | `Slug` | the slug normaliser, shared by all three stores |
| `forum_model.dfy` | `ForumModel` | topics, posts, replies, validation rules, author defaulting, capped prepend |
| `date_sort.dfy` | `DateSort` | `sortPostsByDateDesc` / `sortByDateDesc` (a stable sort, newest first) |
| `routes.dfy` | `Routes` | the path patterns `/topics`, `/topics/:slug/posts`, `/topics/:slug/posts/:id/replies` |
| `local_forum.dfy` | `LocalForum` | `getLocalForumState`, `saveLocalForumState`, `localForumApi` |
| `forum_server.dfy` | `ForumServer` | `seedData`, `readDb`, `readBody`, the request handler |
| `kv_forum.dfy` | `KvForum` | `defaultTopics`, `postsKey`, `ensureTopics`, `createTopic`, `getPosts`, `createPost` |
| `agreement.dfy` | `Agreement` | the file server and the replica answer topic and post creation alike |
| `forum_client.dfy` | `ForumClient` | `getForumApiCandidates`, `getDefaultForumApiBase`, `resolveForumApiBase`, `forumApi`, the fallback notice |
| `retention.dfy` | `Retention` | `getRetentionForKey`, `pruneArrayByRetention`, `saveHydrationToday` and the other daily record functions |
| `html.dfy` | `Html` | `escapeHtml` |
| `embed_hosts.dfy` | `EmbedHosts` | `isAllowlistedHost` |
| `cycle.dfy` | `Cycle` | `getCyclePhase`, calendar marks, `calculatePredictions` |

Each operation that changes stored state has two forms:

- a pure step function from the old state to the result and the new state;
- a class method that does the source's push, unshift, slice or index write.

Each method's `ensures` says that it matches its step function. The properties themselves are lemmas about the step functions.

The clock (`Date.now()`, `new Date()`) and the random post and reply ids are parameters. The network is a pair of oracle functions. JSON parsing of a request body is an oracle function too.

Slug normalisation is not idempotent: `.slice(0, 48)` runs after hyphens are trimmed, so a cut that lands just after a hyphen leaves a trailing `-`, and a second pass removes it. `Slug.NormalizeTwice` states exactly when normalising twice is the same as normalising once. `Slug.NotIdempotentWitness` gives an input where it is not.

## Model

| member | source | states |
|---|---|---|
| Text.Trim | script.js:2377 | `trim()` returns the slice between leading and trailing white space; that slice neither starts nor ends with white space |
| Text.TrimStart | script.js:2377 | the leading white space is dropped and the rest is a suffix that does not start with white space |
| Text.TrimEnd | script.js:2377 | the trailing white space is dropped and the rest is a prefix that does not end with white space |
| Text.TrimIdempotent | script.js:2377 | trimming a trimmed string changes nothing |
| Text.Take | script.js:2847 | `slice(0, n)` is the prefix of length min(length, n) |
| Text.Digits | forum-server.js:35 | `Date.now()` written in decimal is non-empty, all digits and has no leading zero |
| Text.DigitsRoundTrip | forum-server.js:35 | the decimal digits written for `Date.now()` in the seed post id read back as the same number |
| Slug.NormalizeSlug | script.js:2839-2848 | the slug uses only `a-z`, `0-9` and `-`; it is at most 48 long; it never starts with `-`; it never holds `--`; it ends with `-` only when it is exactly 48 long |
| Slug.LowerAscii | script.js:2843 | lower-casing leaves no capital letter, and a character is a letter or digit afterwards exactly when it was one before or was a capital |
| Slug.Fold | script.js:2841-2843 | after the combining marks are deleted and the text is lower-cased, no combining mark and no capital is left |
| Slug.Hyphenate | script.js:2844 | each run of other characters becomes one `-`; the output has only slug characters and no `--` |
| Slug.TrimHyphens | script.js:2845 | the result neither starts nor ends with `-`, and it keeps the slug-character and no-`--` properties |
| Slug.CollapseHyphens | script.js:2846 | the `-{2,}` step changes nothing on text that has no `--` |
| Slug.Trimmed | script.js:2840-2846 | before the cut, the text has only slug characters, no `--`, and no `-` at either end |
| Slug.NormalizeFixedPoints | script.js:2839-2848 | a string normalises to itself exactly when it is a canonical slug |
| Slug.NormalizeTwice | script.js:2845-2847 | normalising a slug again leaves it unchanged exactly when it is empty or does not end in `-` |
| Slug.CutLeavesHyphen | script.js:2845-2847 | 47 letters or digits, then a space and a letter, normalise to those 47 characters and a trailing `-` |
| Slug.SecondPassDropsHyphen | script.js:2845 | a second pass drops that trailing `-` |
| Slug.NotIdempotentWitness | script.js:2839-2848 | there is an input whose slug, normalised again, changes |
| Slug.SlugKeepsLetters | script.js:2839-2848 | the slug's letters and digits are a prefix of the input's own letters and digits, in order |
| Slug.EmptySlugIff | script.js:2839-2848 | the slug is empty exactly when the folded input has no ASCII letter or digit |
| ForumModel.DefaultTopics | script.js:2318-2326 | the defaults are `cycle`, `menopause`, `fitness` and `mental`, in that order, and share one `createdAt` |
| ForumModel.DefaultTopicsWellFormed | script.js:2318-2326 | the default slugs are distinct and canonical |
| ForumModel.TopicInputError | script.js:2380-2383 | gives the first broken topic rule in the order short name, empty slug, long name, long description; no rule is broken exactly when it gives none |
| ForumModel.AcceptedTopicShape | script.js:2377-2383 | an accepted topic has a trimmed name of 3 to 60 characters and a description of at most 180; its slug is non-empty and normalised |
| ForumModel.TopicRuleFailure | script.js:2380-2383 | every topic-input failure is a validation error (status 400) |
| ForumModel.PostInputError | script.js:2406-2408 | gives the first broken post rule in the order missing title or content, long title, long content; none when all hold |
| ForumModel.PostRuleFailure | script.js:2406-2408 | every post-input failure is a validation error |
| ForumModel.ReplyInputError | script.js:2431-2433 | gives the first broken reply rule in the order missing post id, missing content, content over 1500; none when all hold |
| ForumModel.ReplyRuleFailure | script.js:2431-2433 | a missing post id reports "Post not found" as a not-found error; the content rules report validation errors |
| ForumModel.AuthorOf | script.js:2404 | the author is the trimmed text cut to 60 characters, or "Anonymous" when the trimmed text is empty; it is never empty |
| ForumModel.PrependCapped | script.js:2418-2419 | unshift then `slice(0, cap)`: the new item is first, the old items follow in order, and the length is min(old + 1, cap) |
| ForumModel.PrependBelowCap | script.js:2418-2419 | below the cap nothing is dropped |
| ForumModel.PrependAtCap | script.js:2418-2419 | at the cap the oldest item is dropped |
| ForumModel.WithPostList | script.js:2387 | the slug gets an empty post list if it has none; every other entry is unchanged |
| ForumModel.FindPost | script.js:2435 | `find` returns the first post with the id, or none when no post has it |
| ForumModel.WithReply | script.js:2437-2445 | only the target post changes; its replies become the new reply followed by the old ones, capped at 500 |
| DateSort.SortByDateDesc | script.js:2362-2364 | the result is sorted newest first and is a permutation of the input |
| DateSort.SortIsStable | script.js:2362-2364 | posts with the same date keep their relative order |
| DateSort.SortOfSorted | script.js:2362-2364 | a list already sorted newest first comes back unchanged |
| DateSort.InsertByDate | script.js:2363 | inserting into a sorted list keeps it sorted and adds exactly that post |
| Routes.ParseRoute | script.js:2392 | a matched slug or post-id segment is non-empty and has no `/` |
| Routes.ParseRoutePath | script.js:2392-2424 | parsing the path of a route gives back that route |
| Routes.ParsedPathIsRoutePath | script.js:2392-2424 | a path that matches a route is exactly that route's path |
| Routes.PostsRoutePath | script.js:2392 | `/topics/<segment>/posts` matches the posts route with that segment |
| Routes.RepliesRoutePath | script.js:2424 | `/topics/<segment>/posts/<id>/replies` matches the replies route with both segments |
| LocalForum.ListTopicsStep | script.js:2371-2374 | GET `/topics` always succeeds with a non-empty topic list |
| LocalForum.CreateTopicStep | script.js:2376-2390 | a created topic carries the call's time as `createdAt` |
| LocalForum.AddTopicOn | script.js:2384-2389 | a successful append answers with exactly the topic it appended |
| LocalForum.FreshStoreListsDefaults | script.js:2345-2347 | with no stored topics, the list is the four defaults, and they are saved |
| LocalForum.LoadValid | script.js:2328-2349 | loading keeps the store invariant |
| LocalForum.Load | script.js:2328-2349 | the loaded topic list is never empty; a stored non-empty list and the post lists are kept |
| LocalForum.CreateTopicOutcome | script.js:2376-2390 | input errors come first, in the rule order, and save nothing; otherwise the call succeeds exactly when the slug is free, and it is the append step on the loaded state |
| LocalForum.AddTopicOutcome | script.js:2384-2389 | a taken slug gives the duplicate error and saves nothing; otherwise the topic is appended at the end, earlier topics and post lists are unchanged, and the slug gets an empty post list if it had none |
| LocalForum.AddedTopicIsTaken | script.js:2384-2386 | after a topic is added, its slug is taken |
| LocalForum.CreateTopicTwiceConflicts | script.js:2384 | creating a second topic with the same slug fails with the duplicate error |
| LocalForum.CreatedTopicIsListed | script.js:2371-2390 | a created topic appears in the next topic listing |
| LocalForum.ListPostsOnOutcome | script.js:2395-2397 | the listing fails with "Topic not found" exactly when the slug is empty or unknown; otherwise it returns the stored posts sorted newest first, and nothing is saved |
| LocalForum.ListPostsOutcome | script.js:2393-2398 | the same, stated for the raw path segment |
| LocalForum.ListPostsStep | script.js:2393-2398 | a successful listing is sorted newest first |
| LocalForum.ListPostsOn | script.js:2395-2397 | the same, on the loaded state and the normalised slug |
| LocalForum.CreatePostStep | script.js:2409-2416 | a created post carries the given id and time |
| LocalForum.AddPostOn | script.js:2405-2421 | a created post carries the given id and time |
| LocalForum.AddPostOutcome | script.js:2405-2421 | an unknown or empty slug fails before the title and content checks; on success the post is first, the old posts follow in order up to 2000, the author is defaulted, and topics and other slugs are unchanged; a failure saves nothing |
| LocalForum.CreatePostOutcome | script.js:2400-2422 | the same order of errors for the raw path segment; on success the topics are the loaded ones and the new post heads its topic |
| LocalForum.AddedPostIsListed | script.js:2393-2421 | a created post appears in the next listing of its topic |
| LocalForum.CreatedPostIsListed | script.js:2393-2422 | the same, stated for the raw path segment |
| LocalForum.AddReplyErrors | script.js:2430-2436 | the errors come in order: unknown topic, then reply rules, then an unknown post id; a failure saves nothing; the reply succeeds exactly when none of these happens |
| LocalForum.CreateReplyErrors | script.js:2425-2436 | the same order of errors, including "Post not found." for an unknown post id, and the same success condition, for the raw path segments |
| LocalForum.ReplyToUnknownPostFails | script.js:2435-2436 | a reply to an id that no post in the topic has fails |
| LocalForum.AddReplyOutcome | script.js:2434-2447 | a reply succeeds only on the first post with the id; the saved state differs only in that post's replies |
| LocalForum.CreateReplyStep | script.js:2425-2448 | a created reply carries the given id and time |
| LocalForum.AddReplyOn | script.js:2430-2447 | the same, on the loaded state and the normalised slug |
| LocalForum.CreateReplyOutcome | script.js:2425-2447 | the same, stated for the raw path segments |
| LocalForum.AppendTopicKeepsValid | script.js:2386-2387 | appending a new topic with a free, normalised slug keeps the store invariant |
| LocalForum.PrependPostKeepsValid | script.js:2417-2419 | the capped prepend keeps every post list within 2000 |
| LocalForum.AddReplyKeepsValid | script.js:2444-2445 | the capped reply prepend keeps every reply list within 500 |
| LocalForum.CreateTopicKeepsValid | script.js:2376-2390 | topic creation keeps the slugs distinct and normalised |
| LocalForum.AddPostOnKeepsValid | script.js:2405-2421 | adding a post to the loaded state keeps the store invariant |
| LocalForum.CreatePostKeepsValid | script.js:2400-2422 | post creation keeps every list within its cap |
| LocalForum.AddReplyOnKeepsValid | script.js:2430-2447 | adding a reply to the loaded state keeps the store invariant |
| LocalForum.CreateReplyKeepsValid | script.js:2425-2448 | reply creation keeps every list within its cap |
| LocalForum.LocalApiKeepsValid | script.js:2366-2451 | every call to the replica keeps the store invariant |
| LocalForum.LocalApiStep | script.js:2366-2451 | a call that throws saves nothing |
| LocalForum.LocalForumStore.constructor | script.js:2328-2337 | a fresh store has no topics and no post lists |
| LocalForum.LocalForumStore.Save | script.js:2351-2354 | saving stores both keys as given |
| LocalForum.LocalForumStore.ListTopics | script.js:2371-2374 | the method returns and saves what the listing step gives |
| LocalForum.LocalForumStore.CreateTopic | script.js:2376-2390 | the push-based method returns and saves what the topic-creation step gives |
| LocalForum.LocalForumStore.ListPosts | script.js:2393-2398 | the method returns the stored posts of the slug sorted newest first, and changes nothing |
| LocalForum.LocalForumStore.CreatePost | script.js:2400-2422 | the unshift-and-slice method returns and saves what the post-creation step gives |
| LocalForum.LocalForumStore.CreateReply | script.js:2425-2448 | the method that updates the reply list in place returns and saves what the reply step gives |
| LocalForum.LocalForumStore.Handle | script.js:2366-2451 | the dispatch by method and path matches the replica step; an unmatched request fails with "Forum endpoint unavailable." |
| ForumServer.SeedData | forum-server.js:24-31 | the seed topics are `cycle`, `menopause`, `fitness` and `mental` |
| ForumServer.SeedShape | forum-server.js:24-47 | the seed has one welcome post under `cycle`, empty lists for the others, and distinct slugs |
| ForumServer.ReadDbOutcome | forum-server.js:49-65 | a missing file gives the seed and writes it; an unreadable file gives the seed without writing; a present file is not rewritten, and an empty topic list stays empty |
| ForumServer.ReadDbStep | forum-server.js:49-65 | the file changes only when it was missing, and then it is written |
| ForumServer.ReadBody | forum-server.js:81-101 | the chunk loop equals the body outcome: over 1 MiB is rejected, an empty body is `{}`, bad JSON is "Invalid JSON body" |
| ForumServer.BodyOutcome | forum-server.js:81-101 | a parsed body is at most 1 MiB; a failure is "Payload too large" or "Invalid JSON body"; an empty body is `{}` |
| ForumServer.TooLargeStaysTooLarge | forum-server.js:84-89 | once the body is over 1 MiB, more chunks cannot bring it back |
| ForumServer.ServerRoute | forum-server.js:167 | the server never matches the replies path |
| ForumServer.PreflightAnswered | forum-server.js:108-116 | OPTIONS gets 204 with no body, and the file is untouched |
| ForumServer.RepliesPathNotFound | forum-server.js:167-220 | the replies path gets 404 "Not found." |
| ForumServer.HandleExchange | forum-server.js:107-224 | every answer has one of the statuses the handler uses, and the data file changes only on a 201 or when it was missing |
| ForumServer.CreateTopicInputOutcome | forum-server.js:133-153 | a body error is answered 500; a broken topic rule is answered 400 in the same order as the replica; otherwise the file is read and the append step runs |
| ForumServer.CreateTopicExchange | forum-server.js:133-165 | the status is 201, 400, 409 or 500; only a 201 carries the topic; any other answer leaves the file as it was or as `readDb` left it |
| ForumServer.AddTopicOutcome | forum-server.js:154-164 | a taken slug gives 409 and writes nothing; otherwise 201, and the topic is appended with the other topics and post lists unchanged |
| ForumServer.ListPostsOutcome | forum-server.js:167-179 | 404 exactly when the slug is unknown; otherwise 200 with the stored posts sorted newest first; nothing is written |
| ForumServer.CreatePostErrors | forum-server.js:181-204 | an unknown topic gives 404 before the body is looked at; a body error gives 500; nothing is written unless the status is 201 |
| ForumServer.CreatePostSuccess | forum-server.js:205-217 | the post goes in front of all old posts with no cap and no `replies` field; the topics are unchanged |
| ForumServer.CreatePostExchange | forum-server.js:181-218 | the status is 201, 400, 404 or 500; only a 201 carries the post; any other answer leaves the file as `readDb` left it |
| ForumServer.CreatePostOn | forum-server.js:184-217 | the same, on what `readDb` returned |
| ForumServer.FileServer.constructor | forum-server.js:7 | the server starts on the given data file |
| ForumServer.FileServer.ReadDb | forum-server.js:49-65 | the method's reads and writes match `readDb` |
| ForumServer.FileServer.CreateTopic | forum-server.js:133-165 | the push-and-write method matches the topic exchange |
| ForumServer.FileServer.CreatePost | forum-server.js:181-218 | the unshift-and-write method matches the post exchange |
| ForumServer.FileServer.Handle | forum-server.js:107-224 | the handler matches the routed exchange, with 404 for anything unmatched |
| KvForum.PostsKey | api/_lib/forum-store.js:30-32 | the key is `forum:posts:` followed by the slug |
| KvForum.PostsKeyInjective | api/_lib/forum-store.js:30-32 | different slugs get different keys |
| KvForum.PostsKeyIsNotTopicsKey | api/_lib/forum-store.js:3-32 | no posts key is the topics key |
| KvForum.EnsureTopicsStep | api/_lib/forum-store.js:38-45 | the returned topics are non-empty and are what is stored afterwards; no other key changes |
| KvForum.EnsureTopicsOutcome | api/_lib/forum-store.js:38-45 | a stored non-empty list is returned and nothing is written; otherwise the four defaults, with one shared `createdAt`, are stored and returned |
| KvForum.CreateTopicInputOutcome | api/_lib/forum-store.js:51-66 | a broken rule gives status 400 before the store is read; otherwise the append step runs on the ensured topics |
| KvForum.CreateTopicStep | api/_lib/forum-store.js:51-75 | a created topic carries the call's time, and no key other than the topic list changes |
| KvForum.AddTopicOutcome | api/_lib/forum-store.js:67-74 | a taken slug gives 409 and no write; otherwise the stored topics become the old ones plus the new one at the end, and no other key changes |
| KvForum.GetPostsStep | api/_lib/forum-store.js:86-88 | a listing is sorted newest first |
| KvForum.GetPostsOutcome | api/_lib/forum-store.js:77-85 | an empty slug gives 404 before any store access; otherwise the listing runs on the ensured topics, and the posts key is unaffected by that |
| KvForum.ListPostsOutcome | api/_lib/forum-store.js:82-88 | 404 exactly when the topic is unknown; otherwise the stored posts, or none for a non-array value, sorted newest first |
| KvForum.CreatePostStep | api/_lib/forum-store.js:111-117 | a created post carries the given id and time |
| KvForum.AddPostOutcome | api/_lib/forum-store.js:97-122 | an unknown topic gives 404 before the title and content checks; on success the stored list becomes the new post, then the old posts in order, cut to 2000, and only the posts key of that slug is written |
| KvForum.AddPostKeepsTopics | api/_lib/forum-store.js:118-121 | creating a post does not change the stored topics |
| KvForum.CreatePostKeepsTopics | api/_lib/forum-store.js:91-121 | after a post call, the stored topics are the ensured ones |
| KvForum.AddedPostIsListed | api/_lib/forum-store.js:82-121 | a created post appears in the next listing of its topic |
| KvForum.CreatedPostIsListed | api/_lib/forum-store.js:77-123 | the same, stated for the raw slug input |
| KvForum.KvForumStore.constructor | api/_lib/forum-store.js:1 | the store starts on the given key-value contents |
| KvForum.KvForumStore.EnsureTopics | api/_lib/forum-store.js:38-45 | the method matches the ensure step |
| KvForum.KvForumStore.GetTopics | api/_lib/forum-store.js:47-49 | the method matches the topic listing step |
| KvForum.KvForumStore.CreateTopic | api/_lib/forum-store.js:51-75 | the method matches the topic creation step |
| KvForum.KvForumStore.GetPosts | api/_lib/forum-store.js:77-89 | the method matches the post listing step |
| KvForum.KvForumStore.CreatePost | api/_lib/forum-store.js:91-123 | the method matches the post creation step |
| Agreement.AddTopicAgrees | forum-server.js:154-164 | on the same database, the server's append and the replica's append give the same status, the same topic and the same stored data |
| Agreement.CreateTopicAgrees | forum-server.js:133-165 | for a parsed body and a non-empty stored topic list, the server and the replica create the same topic or fail with the same error |
| Agreement.AddPostAgrees | forum-server.js:184-216 | the server's and the replica's post steps agree on status, error and post, apart from the replica's empty `replies` |
| Agreement.CreatePostAgrees | forum-server.js:181-218 | the same for the whole request, with a non-empty slug |
| ForumClient.StripTrailingSlashes | script.js:2307 | `replace(/\/+$/, '')` removes exactly the trailing slashes |
| ForumClient.NonEmpty | script.js:2461 | `filter(Boolean)` keeps exactly the non-empty entries |
| ForumClient.Distinct | script.js:2461 | `[...new Set(list)]` has the same members and no duplicates |
| ForumClient.DistinctOfPrefix | script.js:2461 | the set keeps first-occurrence order: deduplicating a prefix gives a prefix of the result |
| ForumClient.DistinctStartsWithFirst | script.js:2461 | the first entry stays first |
| ForumClient.CandidatesShape | script.js:2453-2462 | the candidates are distinct, include `http://localhost:8787/api`, are exactly the pushed non-empty bases, and none ends in `/` |
| ForumClient.Candidates | script.js:2453-2462 | the local development server is always a candidate |
| ForumClient.DefaultBaseIsFirstCandidate | script.js:2305-2312 | the default base is the first candidate |
| ForumClient.DefaultBase | script.js:2305-2312 | the default base never ends in `/`, and it is empty only when the stored base is nothing but slashes |
| ForumClient.NoticeStep | script.js:2356-2360 | after the notice step, the notice has been shown |
| ForumClient.NoticeAtMostOnce | script.js:2356-2360 | the notice is shown at most once, and a second call does nothing |
| ForumClient.ResolveOutcome | script.js:2482-2495 | a resolved base is kept; otherwise the first healthy candidate, in candidate order, is chosen and remembered, or the default base when none is healthy; resolving again changes nothing |
| ForumClient.ResolveStep | script.js:2482-2495 | the returned base is the one remembered, the notice is untouched, and a base once resolved is kept |
| ForumClient.CallOrder | script.js:2504 | the preferred base comes first, followed by the other candidates; no other base is added |
| ForumClient.CallOrderKeepsOrder | script.js:2504 | the preferred base, then the other candidates in their order: all of them when the preferred base is not a candidate, all but its one position otherwise |
| ForumClient.Without | script.js:2504 | `filter(base => base !== preferred)` removes exactly that base |
| ForumClient.WithoutAbsent | script.js:2504 | filtering out a base that is not a candidate leaves the candidates unchanged |
| ForumClient.WithoutRemovesAt | script.js:2504 | filtering out a base that occurs once removes only its position and keeps the other candidates in order |
| ForumClient.FirstWhere | script.js:2507-2515 | the loop stops at the first base that satisfies the test, or there is none |
| ForumClient.CallOutcomes | script.js:2497-2533 | the replica answers exactly when no base answers `ok`, including bases that send an `{error}` payload; then its result or error is the call's, and the notice is shown; otherwise the first base in call order that answers `ok` gives its payload and is remembered, and the replica is untouched |
| ForumClient.CallStep | script.js:2497-2533 | a remote answer leaves the replica untouched and remembers its base; a fallback shows the notice |
| ForumClient.CallKeepsNoticeOnce | script.js:2527 | however many calls fall back, the notice is shown at most once |
| ForumClient.Client.constructor | script.js:2316 | a page load starts with no resolved base and no notice |
| ForumClient.Client.EnsureNotice | script.js:2356-2360 | the method matches the notice step |
| ForumClient.Client.ResolveBase | script.js:2482-2495 | the probing loop matches the resolve step |
| ForumClient.FirstAccepted | script.js:2507-2525 | returns the index of the first base in call order that answered `ok`, and that base did answer `ok`; none when no base did |
| ForumClient.Client.Call | script.js:2497-2533 | the request loop and the fallback match the call step |
| Retention.PolicyFor | script.js:2854-2866 | every policy has positive limits |
| Retention.PostsKeysPolicy | script.js:2864 | keys that start with `femHealthPosts_` keep 500 items for 1825 days |
| Retention.Filter | script.js:2873 | `filter` keeps exactly the matching items, in order, as a subsequence |
| Retention.PruneOutcome | script.js:2868-2885 | with no policy the list is unchanged; otherwise the result is a subsequence of objects only, at most `maxItems` long, the last `maxItems` of the age-filtered list, and undated or non-positive dates are never dropped for age |
| Retention.Prune | script.js:2868-2885 | the pruned list is never longer than the input, and within the key's item cap |
| Retention.FindToday | script.js:3258-3264 | `findIndex` returns the first record for today, or none |
| Retention.UpsertOutcome | script.js:3258-3267 | today's record replaces the existing one or is pushed at the end; the other records are unchanged |
| Retention.Upsert | script.js:3258-3267 | the list grows by at most one and holds the new record |
| Retention.PruneKeepsTodayFirst | script.js:2875-2879 | an in-age record for today is still the first such record after age filtering |
| Retention.PushedStaysLast | script.js:3267 | a record pushed on a day with no earlier record is the only one for today after age filtering |
| Retention.SaveThenLoad | script.js:3255-3282 | after a save, loading today's value gives the saved value, provided no record for today existed or the list was within its cap |
| Retention.SaveThenLoadPushed | script.js:3258-3282 | when there was no record for today, loading after a save gives the saved value |
| Retention.SaveThenLoadReplaced | script.js:3258-3282 | when a record for today existed and the list was within its cap, replacing it does not lengthen the list, so loading after a save gives the saved value |
| Retention.SaveToday | script.js:3255-3269 | a save adds at most one record and leaves the list within its cap |
| Retention.LoadToday | script.js:3271-3282 | with no record for today the default is returned; otherwise the value is the content of the first record for today, as `find` returns it |
| Retention.DailyStore.constructor | script.js:3256 | both lists start empty |
| Retention.DailyStore.SaveHydrationToday | script.js:3255-3269 | the in-place upsert and prune equal the save step on the hydration list; supplements are untouched |
| Retention.DailyStore.SaveSupplementsToday | script.js:3284-3298 | the same for the supplements list; hydration is untouched |
| Html.ReplaceAll | script.js:1569 | after a global replace, the character is left only if the entity holds it |
| Html.EscapeHtml | script.js:1567-1574 | the output holds none of `<`, `>`, `"` and `'` |
| Html.EscapeChar | script.js:1569-1573 | each of the five characters becomes its entity; any other character stays as it is; no entity holds `<`, `>`, `"` or `'` |
| Html.EscapeHtmlAppend | script.js:1567-1574 | escaping a concatenation is the concatenation of the escapes |
| Html.ChainIsPerCharacter | script.js:1568-1573 | because `&` is replaced first, the chain equals escaping each character once |
| Html.EscapedIsSafe | script.js:1567-1574 | the output has no `<`, `>`, `"` or `'`, and every `&` starts one of the five entities |
| Html.PlainTextUnchanged | script.js:1567-1574 | text with none of the five characters comes back unchanged |
| Html.UnescapeEscape | script.js:1567-1574 | reading the entities back gives the original text |
| EmbedHosts.LowerHost | script.js:1361 | `toLowerCase()` lower-cases each ASCII letter and keeps the length |
| EmbedHosts.AnyMatches | script.js:1362 | `some` holds exactly when one listed domain matches |
| EmbedHosts.IsAllowlistedHost | script.js:1344-1363 | a host is allowed exactly when, lower-cased, it matches `pregnancyarchive.com` |
| EmbedHosts.MatchesIff | script.js:1362 | a host matches a domain exactly when it is the domain, or ends in the domain right after a `.` |
| EmbedHosts.CaseBlind | script.js:1361 | upper-case letters make no difference |
| EmbedHosts.ListedDomainAccepted | script.js:1362 | the listed domain, in any letter case, is allowed |
| EmbedHosts.SubdomainAccepted | script.js:1362 | every subdomain of an allowed host is allowed |
| EmbedHosts.LookalikeRejected | script.js:1362 | a host that ends in the domain without a `.` before it, such as `evilpregnancyarchive.com`, is refused |
| Cycle.JsRem | script.js:2941 | JavaScript's `%` takes the sign of the dividend and stays below the divisor in size |
| Cycle.CycleLength | script.js:2936 | `parseInt(...) \|\| 28`: a missing or zero length becomes 28, any other parsed value is kept, and the length is never zero |
| Cycle.DaysBetween | script.js:2941 | `Math.floor` of the difference in days |
| Cycle.PhaseMeaning | script.js:2934-2946 | menstruation up to day 5, follicular up to 12, ovulation up to 15, luteal after; never unknown for a set date |
| Cycle.CyclePhase | script.js:2934-2946 | `unknown` exactly when the field is empty; an unreadable date gives `luteal` |
| Cycle.FutureDateIsMenstruation | script.js:2941-2942 | a last period in the future gives `menstruation` |
| Cycle.PhaseRepeats | script.js:2941 | after the last period, the phase repeats every cycle length |
| Cycle.CycleDay | script.js:290-292 | a cell's cycle day is -1 or more, and it is 0 or more exactly when the last period is readable and on or before the cell |
| Cycle.CalendarMarks | script.js:287-307 | the ovulation day is inside the fertile window, no day is both a period day and a fertile day, and only days on or after the last period get a period or fertile mark |
| Cycle.NoMarksBefore | script.js:287-292 | days before the last period, and unreadable dates, get no mark |
| Cycle.MarksRepeat | script.js:292 | the calendar marks repeat every cycle length |
| Cycle.Predict | script.js:410-422 | the next period is one cycle after the last; ovulation is 14 days before it; the fertile window runs from 5 days before ovulation to the day after |
| Cycle.NextPeriodIsMarked | script.js:411-412 | the calendar marks the predicted next period as a period day |
| Cycle.PredictedOvulationMarkedIff | script.js:414-416 | the calendar marks the predicted ovulation date as ovulation exactly when the cycle is 28 days |

## Left out

- Unicode NFKD and full `toLowerCase`: the slug normaliser takes text that is already decomposed, deletes U+0300 to U+036F, and lower-cases ASCII only. Lengths are counted in characters, not UTF-16 code units.
- `decodeURIComponent` on path segments is not modelled. A segment is used as it arrives.
- URL parsing is not modelled: the server's `new URL(...)`, `parseForumUrl`, and the host name handed to `isAllowlistedHost`. A missing host name counts as the empty string.
- I/O is abstract. localStorage, the data file and the key-value database are fields holding parsed values. JSON encoding is not modelled, and a value of the wrong shape is `None` or an absent key.
- A call reads the clock once. The source calls `new Date()` several times in one call, and the model uses one `now` for all of them.
- Random ids are parameters. `Date.now()` and `Math.random()` in post and reply ids are not modelled.
- JSON parsing of a request body is an oracle function. Its failure is "Invalid JSON body".
- The health route returns only a status and the time; its payload is not modelled further.
- The reply route of the key-value deployment, `api/topics/[slug]/posts/[postId]/replies.js`, is not modelled. It exists, but it always fails. An OPTIONS request gets 204 and any other method except POST gets 405. A POST parses the body and then calls `createReply`, which `api/_lib/forum-store.js` does not export (lines 125-130), so the call throws a `TypeError` inside the `try`. The route then answers 500 with that error's message, or with "Invalid JSON body" when the body does not parse. The key-value store itself keeps no replies.
- A failure of `writeDb`, `fs` or `kv.set` is not modelled.
- A `null` entry in a stored post list makes the replica's `find` skip it, but it makes `findIndex` in the daily records throw. Stored lists here hold only records and objects, so neither case arises.
- `RETENTION_POLICY[key]` also matches inherited keys such as `constructor`. Only the five listed keys and the posts prefix are modelled.
- The fetch timeout of `isForumApiAvailable` is not modelled. That call becomes the oracle `health(base)`, and each request becomes `remote(base)`.
- Retention.SaveThenLoad: stated only when no record for today existed or the list was within its cap. The replaced record can be lost only when the stored list is already longer than `maxItems`, because pruning then keeps only the newest `maxItems` items.
- KvForum.CreatedPostIsListed: requires a non-empty slug, because `getPosts` reports 404 for an empty one.
- Agreement.CreateTopicAgrees: requires a non-empty stored topic list. On an empty list, the replica falls back to the four defaults and the server does not.
- Agreement.CreatePostAgrees: requires a non-empty stored topic list and a non-empty slug, for the same reasons.
- Local dates and daylight saving time are not modelled. The daily records take a `dayOf` function from a time to its local day. The cycle rules count days as whole multiples of 24 hours from the millisecond times. `setDate(getDate() + n)` is modelled as adding n such days.
- `parseInt` is not modelled as string parsing. The cycle length field arrives already parsed, or as `None` for `NaN`.
- `calculatePredictions` for an unreadable date is not modelled, because it then displays "Invalid Date".
- `loadHydrationToday` and `loadSupplementsToday` are modelled by their shared find-and-default rule, with the default value as a parameter.
- Where `escapeHtml` is used to build the report is not modelled. Only the function itself is.
- The replica throws plain `Error`s that carry only a message. The model gives each failure a kind (validation, not found, conflict, unexpected) so the replica can be compared with the stores that answer with a status; that kind is the model's own.
- `escapeHtml` starts with `String(value ?? '')`: `null` and `undefined` become `''`, and numbers become their text. The model takes a string and does not model that conversion.
- A record's date is read in two ways in the source. Pruning reads `new Date(item.date || 0)`, so a missing date counts as time 0. The daily lookup reads `new Date(i.date)`, so a missing date is an invalid date and never today. The model keeps one `time` per record and reads a missing date as 0, so the daily lookup would take a record without a date as today's on the day that contains the epoch, and on no other day.
