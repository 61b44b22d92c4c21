# Post controller of a MERN blog, modelled in Dafny

This project models the deterministic logic inside the post handlers of the
blog's API (`api/controllers/post.controller.js`): the slug a new post gets
from its title, the authorisation and required-field gates of `create`,
`deletepost` and `updatepost`, the document `create` saves and the `$set`
that `updatepost` sends, the query that `getposts` builds from its optional
query parameters (filter, sort direction, offset, limit), and the "one month
ago" date behind the `lastMonthPosts` count. Everything is pure: each handler
is a function from the request to either the error it forwards or the one
store call it makes, and the list query is given a reference meaning over an
in-memory sequence of posts.

Modules (one file each):

- `Wrappers` (`wrappers.dfy`): `Option`, for a property that may be `undefined`.
- `Slug` (`slug.dfy`): `split(' ')`, `join('-')`, ASCII `toLowerCase`, and the
  `[^a-zA-Z0-9-]` removal, composed as `Slugify`; `SlugOf` is a
  per-character reference definition proved equal to it.
- `Calendar` (`calendar.dfy`): Gregorian dates, the normalisation of
  `new Date(year, monthIndex, day)` (`MakeDate`), and `OneMonthAgo`.
- `Numbers` (`numbers.dfy`): `parseInt` without a radix (leading white space,
  sign, `0x` prefix, longest digit prefix) and the `|| default` that follows.
- `PostQuery` (`query.dfy`): the `getposts` parameters, filter, sort
  direction, offset and limit; the page, `totalPosts` and `lastMonthPosts`
  over a `seq<Post>`.
- `PostController` (`controller.dfy`): the gates, the create document, the
  update `$set`, and the `Create`, `Delete` and `Update` handlers.

Behaviour of the code worth knowing, each pinned by a lemma:

- the title is split on the single character `' '`, so two spaces give two
  hyphens and a tab is simply dropped (`Slug.SlugDoubleSpace`);
- `parseInt(...) || 9` turns a non-numeric `limit` into 9, and `"0"` too
  (`PostQuery.ZeroLimitBecomesNine`);
- the `lastMonthPosts` window starts one calendar month back, with
  JavaScript's date normalisation: 31 March gives 3 March, or 2 March in a
  leap year (`Calendar.OneMonthAgo`, `Calendar.OneMonthAgoMarch31Common`).

## Model

| member | source | states |
|---|---|---|
| `Slug.Split` | api/controllers/post.controller.js:12 | `split(' ')` always yields at least one piece (`""` gives `[""]`) |
| `Slug.SplitPiecesAvoidSeparator` | api/controllers/post.controller.js:12 | no piece of the split contains the separator |
| `Slug.SplitPieceCount` | api/controllers/post.controller.js:12 | the split has one more piece than the title has separators |
| `Slug.Join` | api/controllers/post.controller.js:13 | `join(sep)` of at least one piece, none containing `sep`, splits back on `sep` into exactly those pieces |
| `Slug.SplitOfPiece` | api/controllers/post.controller.js:12-13 | a piece without the separator splits into itself alone |
| `Slug.SplitAfterPiece` | api/controllers/post.controller.js:12-13 | a piece, the separator and a rest split into the piece followed by the split of the rest |
| `Slug.JoinSplitRoundTrip` | api/controllers/post.controller.js:12-13 | joining the pieces with the separator itself restores the string |
| `Slug.JoinSplitIsReplace` | api/controllers/post.controller.js:12-13 | `split(c).join(d)` replaces every `c` by exactly one `d` |
| `Slug.ToLowerLowers` | api/controllers/post.controller.js:14 | `toLowerCase` keeps the length, maps each character by the ASCII lower-case rule, and leaves no upper-case letter |
| `Slug.KeepAllowed` | api/controllers/post.controller.js:16 | the removal keeps only characters of `[a-zA-Z0-9-]`, keeps every occurrence of each of them, and never lengthens the string |
| `Slug.KeepAllowedConcat` | api/controllers/post.controller.js:16 | the removal of a concatenation is the concatenation of the removals, so kept characters stay in order |
| `Slug.KeepAllowedChar` | api/controllers/post.controller.js:16 | a single character stays iff it is in `[a-zA-Z0-9-]` |
| `Slug.Slugify` | api/controllers/post.controller.js:11-16 | the chain split/join/lower-case/replace equals the per-character rule `SlugOf` (space to `-`, upper-case letter to its lower case, `[a-z0-9-]` kept, everything else dropped, in order); every slug character is in `[a-z0-9-]` and the slug is no longer than the title |
| `Slug.SlugHyphenCount` | api/controllers/post.controller.js:11-16 | hyphens in the slug = spaces in the title + hyphens in the title |
| `Slug.SlugConcat` | api/controllers/post.controller.js:11-16 | the slug of a concatenation is the concatenation of the slugs |
| `Slug.SlugOfSlugString` | api/controllers/post.controller.js:11-16 | a string already made of `[a-z0-9-]` is its own slug |
| `Slug.SlugIdempotent` | api/controllers/post.controller.js:11-16 | deriving the slug twice equals deriving it once |
| `Slug.SlugEmpty` | api/controllers/post.controller.js:11-16 | the empty title gives the empty slug |
| `Slug.SlugHelloWorld` | api/controllers/post.controller.js:11-16 | `"Hello World!!!"` gives `"hello-world"` |
| `Slug.SlugDoubleSpace` | api/controllers/post.controller.js:12-13 | two consecutive spaces give two hyphens (`"a  b"` gives `"a--b"`) |
| `Calendar.DaysInMonth` | api/controllers/post.controller.js:73-77 | month lengths of the Gregorian calendar: 31 exactly for the seven long months, 30 for April, June, September and November, February 29 in leap years and 28 otherwise |
| `Calendar.RollDay` | api/controllers/post.controller.js:73-77 | any day number counted from the first of a month rolls into a valid date, and a day that fits is kept as it is |
| `Calendar.NextDay` | api/controllers/post.controller.js:73-77 | the day after a valid date is a valid, strictly later date |
| `Calendar.RollDayNext` | api/controllers/post.controller.js:73-77 | one more day number rolls to the next day, so a day past the end of a month continues into the following months and a day before the first goes back into the preceding ones |
| `Calendar.FullYear` | api/controllers/post.controller.js:73-77 | a year argument from 0 to 99 stands for 1900 to 1999; any other year is taken as it is |
| `Calendar.MakeDate` | api/controllers/post.controller.js:73-77 | `new Date(y, monthIndex, d)` always denotes a valid date |
| `Calendar.MakeDateInYear` | api/controllers/post.controller.js:73-77 | a month index from 0 to 11 is that month (1-based) of the year, read by the two-digit-year rule, with the day rolled |
| `Calendar.MakeDateCarry` | api/controllers/post.controller.js:73-77 | twelve more months give the same date as one more year, for years read literally |
| `Calendar.MakeDateOfValid` | api/controllers/post.controller.js:73-77 | a valid date outside the years 0 to 99, given as year, 0-based month and day, is itself |
| `Calendar.MakeDateTwoDigitYear` | api/controllers/post.controller.js:73-77 | the year arguments 0 to 99 give the same date as 1900 to 1999 |
| `Calendar.OneMonthAgo` | api/controllers/post.controller.js:73-77 | the date one month back is a valid date |
| `Calendar.OneMonthAgoInJanuary` | api/controllers/post.controller.js:73-77 | in January it is the same day of December of the previous year |
| `Calendar.OneMonthAgoDayFits` | api/controllers/post.controller.js:73-77 | otherwise it is the same day of the previous month when that month has it |
| `Calendar.OneMonthAgoRollsForward` | api/controllers/post.controller.js:73-77 | when the previous month is too short it is day `d - daysIn(m-1)` of the current month |
| `Calendar.OneMonthAgoIsEarlier` | api/controllers/post.controller.js:73-77 | the result is strictly earlier than today |
| `Calendar.OneMonthAgoMarch31Common` | api/controllers/post.controller.js:73-77 | 31 March 2023 gives 3 March 2023 |
| `Calendar.OneMonthAgoMarch31Leap` | api/controllers/post.controller.js:73-77 | 31 March 2024 gives 2 March 2024 |
| `Calendar.OneMonthAgoTwoDigitYear` | api/controllers/post.controller.js:73-77 | a clock year of 50 is read back as 1950: 15 March 50 gives 15 February 1950 |
| `Numbers.TrimStart` | api/controllers/post.controller.js:34-35 | what `parseInt` reads after the leading white space: a suffix of the input, everything dropped before it is white space, and it does not start with white space |
| `Numbers.DigitPrefixLength` | api/controllers/post.controller.js:34-35 | the longest prefix of digits of the radix |
| `Numbers.ParseDigits` | api/controllers/post.controller.js:34-35 | the digit prefix is NaN exactly when the first character is no digit |
| `Numbers.ParseInt` | api/controllers/post.controller.js:34-35 | `parseInt(s)` without radix: NaN for an absent parameter, and otherwise NaN exactly when no digit follows the white space and the sign (after `0x` a hexadecimal digit); else the value of the digit prefix, negated after a `-` |
| `Numbers.ParseIntOr` | api/controllers/post.controller.js:34-35 | `parseInt(s) \|\| d`: NaN and 0 give `d`, any other number is kept; a non-zero default never yields 0 |
| `Numbers.ParseDecimal` | api/controllers/post.controller.js:34-35 | `parseInt` reads back the decimal numeral of every natural number |
| `Numbers.ParseNegativeDecimal` | api/controllers/post.controller.js:34-35 | `"-"` followed by a numeral reads back as the negative number |
| `Numbers.ParseStopsAtNonDigit` | api/controllers/post.controller.js:34-35 | `"12abc"` parses as 12 |
| `Numbers.ParseNoDigits` | api/controllers/post.controller.js:34-35 | `"abc"` is NaN |
| `Numbers.ParseEmpty` | api/controllers/post.controller.js:34-35 | `""` and an absent parameter are NaN |
| `Numbers.ZeroTakesDefault` | api/controllers/post.controller.js:35 | `"0"` becomes the default 9 |
| `PostQuery.Entry` | api/controllers/post.controller.js:54-58 | a conditional spread adds its key exactly when the parameter is a non-empty string, with the parameter's value |
| `PostQuery.BuildFilter` | api/controllers/post.controller.js:53-63 | `userId`, `category`, `slug`, `_id` (from `postId`) and `$or` (from `searchTerm`) are in the filter iff their parameter is non-empty, no other key is, and each carries its parameter's value verbatim |
| `PostQuery.NoParamsEmptyFilter` | api/controllers/post.controller.js:53-64 | without parameters the filter object is empty |
| `PostQuery.MatchesIsConjunction` | api/controllers/post.controller.js:53-63 | a post matches a filter iff it meets every one of the filter's conjuncts (one per key of the query object) |
| `PostQuery.ConjunctsFollowParams` | api/controllers/post.controller.js:53-63 | the built filter has one equality conjunct per non-empty `userId`, `category`, `slug` and `postId` (as `_id`), in that order and with the parameter's value, then the `$or` conjunct iff the search term is non-empty; as many conjuncts as non-empty parameters |
| `PostQuery.MatchesBuiltFilter` | api/controllers/post.controller.js:53-63 | a post matches iff it meets every non-empty parameter's condition, the search term matching title or content ignoring case |
| `PostQuery.NoParamsMatchesAll` | api/controllers/post.controller.js:53-64 | the empty filter matches every post |
| `PostQuery.SortDirection` | api/controllers/post.controller.js:36 | ascending (1) iff `order` is exactly `"asc"`, descending (-1) otherwise, absent included |
| `PostQuery.OrderIsCaseSensitive` | api/controllers/post.controller.js:36 | `"ASC"` sorts descending |
| `PostQuery.BuildQuery` | api/controllers/post.controller.js:34-36 | offset is the parsed `startIndex` or 0; limit is the parsed `limit`, or 9 when NaN or 0, and never 0 |
| `PostQuery.DefaultQuery` | api/controllers/post.controller.js:34-36 | no parameters: empty filter, descending, offset 0, limit 9 |
| `PostQuery.ZeroLimitBecomesNine` | api/controllers/post.controller.js:35 | `limit=0` gives limit 9 |
| `PostQuery.Select` | api/controllers/post.controller.js:53-64 | the selected posts all match, are a sub-multiset of the store, and include every matching post of the store |
| `PostQuery.SelectMembers` | api/controllers/post.controller.js:53-64 | every selected post matches and is in the store |
| `PostQuery.Insert` | api/controllers/post.controller.js:65 | inserting a post adds exactly that post |
| `PostQuery.InsertMembers` | api/controllers/post.controller.js:65 | insertion brings in no post but the inserted one |
| `PostQuery.InsertSorted` | api/controllers/post.controller.js:65 | insertion into a sorted list keeps it sorted on `updatedAt` |
| `PostQuery.SortPosts` | api/controllers/post.controller.js:65 | `.sort({ updatedAt: d })` yields a permutation sorted in direction `d` |
| `PostQuery.SortMembers` | api/controllers/post.controller.js:65 | sorting brings in no new post |
| `PostQuery.Drop` | api/controllers/post.controller.js:66 | `.skip(k)` leaves `max(0, n - k)` posts, the i-th being the (k+i)-th of the input |
| `PostQuery.Take` | api/controllers/post.controller.js:67 | `.limit(n)` keeps the first `min(n, length)` posts, for the non-zero limits `getposts` passes |
| `PostQuery.Page` | api/controllers/post.controller.js:53-67 | the page exists iff offset and limit are non-negative, and then holds at most `limit` posts |
| `PostQuery.PageBounds` | api/controllers/post.controller.js:53-67 | the page has `min(limit, max(0, matches - skip))` posts, is the run of the sorted matches starting at the offset, and is sorted |
| `PostQuery.PageMembers` | api/controllers/post.controller.js:53-67 | every post on the page matches the filter and comes from the store |
| `PostQuery.CountSince` | api/controllers/post.controller.js:79-81 | `countDocuments({ createdAt: { $gte: since } })` is the number of positions of the store holding a post created on `since` or later, at most the store size |
| `PostQuery.GetPosts` | api/controllers/post.controller.js:53-87 | the response carries the page, `totalPosts` = all posts unfiltered, `lastMonthPosts` = posts created on or after one month ago, and, all three read from one snapshot of the store, the latter never exceeds the former |
| `PostQuery.GetPostsPageSize` | api/controllers/post.controller.js:65-67 | the page is no longer than the limit nor than the posts left after the offset |
| `PostQuery.RecentPostsCounted` | api/controllers/post.controller.js:71-81 | the count of posts created today or later never exceeds `lastMonthPosts` |
| `PostController.Field` | api/controllers/post.controller.js:114-117 | a body field reads as its value when present and `undefined` otherwise |
| `PostController.Present` | api/controllers/post.controller.js:8 | `req.body[key]` is truthy iff the field is neither `undefined` nor the empty string |
| `PostController.CreateGate` | api/controllers/post.controller.js:5-10 | forbidden iff the caller is no admin; for an admin, a bad request iff title or content is not truthy; proceed iff admin with both present |
| `PostController.CreateGateNonAdmin` | api/controllers/post.controller.js:5-10 | a non-admin is forbidden whatever the body contains |
| `PostController.OwnerGate` | api/controllers/post.controller.js:94 | delete and update proceed iff the caller is an admin whose id equals the path's `userId`, and are never a bad request |
| `PostController.NewPostDocument` | api/controllers/post.controller.js:18-23 | the saved document has the body's fields plus `slug` (derived from the title) and `userId` (the caller's id), which override the body's |
| `PostController.NewPostIgnoresBodySlugAndUser` | api/controllers/post.controller.js:18-23 | a `slug` or `userId` supplied in the body has no effect on the saved document |
| `PostController.UpdateSet` | api/controllers/post.controller.js:113-118 | the `$set` names exactly `title`, `content`, `category` and `image`, each the body's value verbatim or `undefined` |
| `PostController.UpdateLeavesSlugAlone` | api/controllers/post.controller.js:110-118 | the update never writes `slug` or `userId` |
| `PostController.UpdateDependsOnlyOnItsFields` | api/controllers/post.controller.js:113-118 | bodies that agree on the four fields give the same update |
| `PostController.UpdateTitleOnly` | api/controllers/post.controller.js:113-118 | a body with only a title sets content, category and image to `undefined` |
| `PostController.Create` | api/controllers/post.controller.js:4-23 | 403 for a non-admin, 400 for an admin without title or content, otherwise a save of the new document: the body's fields verbatim, the derived slug and the caller's id |
| `PostController.Delete` | api/controllers/post.controller.js:93-98 | a delete by the path's post id iff admin and caller id equals the path's `userId`, otherwise 403 |
| `PostController.Update` | api/controllers/post.controller.js:105-119 | an update by the path's post id with the four-field `$set` iff admin and caller id equals the path's `userId`, otherwise 403 |
| `PostController.RefusalsMakeNoStoreCall` | api/controllers/post.controller.js:5-10 | a refused create saves nothing; a refused delete or update makes no store call |
| `PostController.CreateWithoutContent` | api/controllers/post.controller.js:8-10 | an admin's create with a title but no content is a 400 |

## Left out

- `api/models/comment.model.js`: a schema declaration with no logic of its own; nothing in it keeps `numberOfLikes` in step with `likes`.
- The store calls themselves (`save`, `find`, `countDocuments`, `findByIdAndUpdate`, `findByIdAndDelete`): the model stops at the document, filter and `$set` handed to them; how the store treats `undefined` inside `$set`, schema casting and strict-mode field stripping are the store's behaviour.
- `PostQuery.Page`: a negative offset or limit is passed to the store as is; what the store does with it is not modelled (the page is `None`).
- `PostQuery.GetPosts`: the page, `totalPosts` and `lastMonthPosts` come from three separately awaited store calls, between which other requests may write; the model reads all three from one snapshot of the store, and `lastMonthPosts <= totalPosts` holds only for that snapshot (a post created between the two counts can make `lastMonthPosts` exceed `totalPosts`).
- `PostQuery.Take`: the store reads `limit(0)` as no limit at all; `BuildQuery` never yields a limit of 0, so the model takes 0 literally and no `getposts` call reaches that case.
- `PostQuery.SortPosts`: the store's order among posts with equal `updatedAt` is unspecified; the model keeps store order.
- `PostQuery.MatchesIgnoringCase`: the search term is a regular expression; the model treats it as a literal substring, which agrees only for terms without metacharacters, and folds case for ASCII letters only.
- `Numbers.ParseInt`: the result is an unbounded integer; JavaScript's rounding of numbers beyond 2^53 is not modelled.
- Query parameters (`PostQuery.Params`, `PostQuery.Truthy`, `PostQuery.Entry`) are strings or absent; the arrays and objects Express's query parser builds from repeated or bracketed parameters (`?userId[$ne]=x`) are not modelled, for the filter or for `parseInt`.
- `Slug.ToLower`, `Slug.Slugify`: `toLowerCase` is modelled for ASCII letters only; non-ASCII characters whose lower case contains ASCII letters are not modelled.
- Request bodies hold only string values; a non-string `title` (which would make `split` throw) and other JSON types are not modelled.
- `Calendar.OneMonthAgo`: the wall clock is a parameter (today's local date); the time of day, the time zone and JavaScript's limit on representable dates are not modelled. A post's `createdAt` is compared at day resolution, which matches a comparison with the local midnight that `new Date(y, m, d)` denotes.
- `Calendar.MakeDateOfValid`, `Calendar.OneMonthAgoInJanuary`, `Calendar.OneMonthAgoDayFits`, `Calendar.OneMonthAgoRollsForward`: stated for years outside 0 to 99 only, because `new Date` reads those years as 1900 to 1999 (`Calendar.MakeDateTwoDigitYear`, `Calendar.OneMonthAgoTwoDigitYear`).
- `Calendar.OneMonthAgoIsEarlier`: stated for clock years outside 0 to 99 only; in those years the computed date falls in 1900 to 1999, after today.
- `PostQuery.RecentPostsCounted`: stated for clock years outside 0 to 99 only, for the same reason.
- HTTP responses, forwarding of store errors to the error handler (`../utils/error.js` is not part of this model), and the asynchronous plumbing.
