# Book API core in Dafny

This project models the core of a small book-rating web API. The API is an
Express server with Mongoose models. It has two parts:

- the authentication middleware (`BackEnd/middleware/auth.js`);
- the book controllers (`BackEnd/controllers/books.js`): list, read, create,
  modify, delete, rate, and top three by average.

The middleware reads the `Authorization` header and takes the second
space-separated field as the token. It has the token verified, then either
records the caller and calls `next()` or answers 401. The controllers act on
two things: the book collection and the images directory. Modify and delete
are gated on ownership. Rating is gated on "has not rated yet".

Modules:

- `Wrappers`: `Option`, which stands in for `undefined` and `null`.
- `Users`: the `UserId` type shared by the middleware and the book documents.
- `JsStrings`: JavaScript `indexOf` and `split` with a non-empty string
  separator, array indexing on the pieces, and `join`. It includes the
  split/join round trip.
- `Auth`: the middleware's decision as a pure function `Gate`, lemmas about
  it, and the middleware itself as the method `Authenticate`. The method acts
  on an `Exchange` object that holds `req.auth`, the reply sent, and the
  number of `next()` calls.
- `Ratings`: rating entries, the grade and rater projections, and the
  arithmetic mean.
- `BookModel`: book documents, the client payload, HTTP statuses, and the
  pure parts of the controllers:
  - the record `createBook` builds;
  - the update `modifyBook` applies, with `$set` semantics;
  - the rating `createRating` appends;
  - the image URL, and the file name cut back out of it.
- `Ranking`: a stable sort by descending average, and the first three books.
- `BookStore`: a `Store` class holds the collection as `books` (a map by id),
  `order` (listing order) and `images` (a set of file names). Each controller
  that changes state is a method whose `ensures` gives the whole new state on
  every branch, and every method keeps the `Valid()` invariant. The three read
  controllers are functions over the store. `Walkthrough` plays the
  create / rate / rate again / delete scenario on a store.

Some external effects are parameters:

- Token verification (`jwt.verify` with the server secret) is a parameter
  `verify: string -> Option<UserId>`.
- The `average` module is not part of this model. It is a parameter
  `average: seq<int> -> real`, and `Ratings.MeanOrZero` is the arithmetic
  mean to pass for it.
- Whether the database accepts a write is the input `dbAccepts`. This covers
  `save`, `updateOne` and `deleteOne` failing on schema validation, a
  duplicate key or the connection.
- The id Mongoose assigns to a new book is the input `newId`.

Where the controllers' code and their documented intent differ, the model
follows the code:

- `getOneBook` on a well-formed id that is not stored answers 200 with a
  `null` body: `findOne` resolves to `null`, so the 404 branch is not taken.
  (A malformed id makes `findOne` reject, which answers 404; read rejections
  are listed under "Left out".)
  `modifyBook`, `deleteBook` and `createRating` do answer 404 in that case,
  because reading a field of `null` throws inside `.then` and the `.catch`
  turns that into 404.
- `createRating` stores the body's `userId` in the rating entry, not the
  caller's. When the two differ, the caller is still not recorded as a rater
  (`SpoofedRaterNotRecorded`).
- `createRating` answers 200 as soon as the update starts, so 200 is also
  the answer when the write fails.
- `modifyBook` removes only `_userId` from the update. A `userId` sent by the
  owner hands the book to that user (`UpdateCanReassignOwner`). The update can
  also overwrite `ratings` and `averageRating`.
- `createBook` stores the first client grade as the average. That is the
  mean for a single rating (`NewBookAverage`), and in general not the mean
  when there are several ratings (`NewBookAverageNotMean`).
  Without an uploaded file or a first rating, building the record throws and
  the server answers 500.
- `deleteBook` unlinks the image before it deletes the record. So a refused
  delete answers 400 with the image already gone.
- An empty `Authorization` header is falsy and gets "Token manquant", the
  same as a missing one.
- The unlinked file is the second piece of `imageUrl.split("/images/")`. It is
  the uploaded file if "/images/" does not start inside the URL's origin
  (`ImageUrlRoundTrip`). A host named `images` breaks this
  (`HostNamedImagesBreaksRoundTrip`). When there is no second piece, the
  template string passes `images/undefined`.

## Model

| member | source | states |
|---|---|---|
| JsStrings.IndexOf | BackEnd/middleware/auth.js:13 | the result is an occurrence of the separator, no occurrence comes earlier, and None exactly when the separator does not occur |
| JsStrings.Split | BackEnd/controllers/books.js:90 | split always yields at least one piece, and no piece contains the separator |
| JsStrings.JoinSplit | BackEnd/middleware/auth.js:13 | joining the pieces of a split with the separator gives back the original string |
| JsStrings.SecondFieldIffContains | BackEnd/controllers/books.js:127 | `split(sep)[1]` is defined exactly when the separator occurs in the string |
| JsStrings.SplitAfterFirst | BackEnd/controllers/books.js:90 | if the separator first occurs right after `a`, the pieces of `a + sep + rest` are `a` followed by the pieces of `rest` |
| Auth.Token | BackEnd/middleware/auth.js:13 | `authHeader.split(" ")[1]`: defined exactly when the header contains a space, and never containing a space itself |
| Auth.Gate | BackEnd/middleware/auth.js:8-23 | the middleware's decision: "Token manquant" exactly when the header is absent or empty; every refusal carries one of the two messages; an admitted caller has a header with a token, and verify maps that token to the admitted id |
| Auth.MissingHeaderRejected | BackEnd/middleware/auth.js:8-11 | an absent or empty header is refused with "Token manquant", whatever verify says |
| Auth.TokenIsSecondField | BackEnd/middleware/auth.js:13-20 | for "scheme token" and "scheme token more", the token is the second field and verify(token) alone decides admission and the user id |
| Auth.SchemeNeverInspected | BackEnd/middleware/auth.js:13 | two headers that differ only in the word before the first space get the same decision |
| Auth.HeaderWithoutSpaceRejected | BackEnd/middleware/auth.js:13-23 | a non-empty header without a space has no token and gets "Requête non authentifiée" |
| Auth.AdmittedOnlyByVerify | BackEnd/middleware/auth.js:5-24 | a caller is admitted if and only if the header is non-empty, has a token and verify accepts it; the admitted id is the one verify returns; a verifier that rejects everything admits nobody |
| Auth.Authenticate | BackEnd/middleware/auth.js:5-24 | when admitted, `req.auth` is set and next is called once with no reply; otherwise a 401 with the Gate message is sent and `req.auth` and next are untouched; exactly one of "next called" and "reply sent" happens |
| Ratings.Grades | BackEnd/controllers/books.js:170 | the grades, one per rating, in order |
| Ratings.Raters | BackEnd/controllers/books.js:161 | the user ids, one per rating, in order |
| Ratings.ValidGrade | BackEnd/controllers/books.js:152 | the grades the rating endpoint admits, 0 to 5 inclusive |
| Ratings.AppendRating | BackEnd/controllers/books.js:169-170 | pushing a rating appends its grade to the grades and its user to the raters |
| Ratings.AppendKeepsOneRatingPerUser | BackEnd/controllers/books.js:161-169 | appending a rating by a user not yet among the raters keeps the ratings at one per user |
| Ratings.MeanInRange | BackEnd/controllers/books.js:152 | grades admitted by the 0..5 check have a mean between 0 and 5 |
| Ratings.MeanAfterAppend | BackEnd/controllers/books.js:170-171 | the mean after a new grade is the old sum plus the grade, over one more |
| Ratings.MeanOfOne | BackEnd/controllers/books.js:35 | a single grade is its own mean |
| BookModel.IsOwner | BackEnd/controllers/books.js:85 | the ownership gate of modifyBook and deleteBook: the stored `userId` is the caller's id |
| BookModel.ImageUrl | BackEnd/controllers/books.js:32-34 | the URL starts with protocol, "://" and host, ends with the uploaded file name, has exactly the length of its parts, and contains "/images/" |
| BookModel.UnlinkTarget | BackEnd/controllers/books.js:127-128 | the file given to fs.unlink: "undefined" when the URL has no "/images/", otherwise a piece that contains no "/images/" |
| BookModel.ImageUrlRoundTrip | BackEnd/controllers/books.js:90 | when "/images/" does not start in the origin and is not in the file name, the file cut out of the built URL is `resized_` plus the uploaded file name |
| BookModel.HostNamedImagesBreaksRoundTrip | BackEnd/controllers/books.js:127 | behind host `images`, the file cut out of the URL is not the uploaded one |
| BookModel.FirstPieceIsPrefix | BackEnd/controllers/books.js:127 | the first piece of a split is a prefix of the string |
| BookModel.NewBook | BackEnd/controllers/books.js:20-36 | a record is built exactly when there is an upload and a first rating; it has the new id, the caller as owner, the client's ratings and other fields, the first grade as average, and the built image URL |
| BookModel.NewBookIgnoresClientIdentity | BackEnd/controllers/books.js:24-35 | the client's `_id`, `_userId`, `userId`, `imageUrl` and `averageRating` never change the new record |
| BookModel.NewBookAverage | BackEnd/controllers/books.js:35 | with a single client rating, the initial average is the mean of the grades |
| BookModel.NewBookAverageNotMean | BackEnd/controllers/books.js:35 | with client grades 4 and 2, the stored average is 4 and the mean is 3 |
| BookModel.UpdateDocument | BackEnd/controllers/books.js:69-79 | the update never carries `_userId`; it keeps the client's `userId`, `ratings` and `averageRating`; its image URL is the new one exactly when a file was uploaded |
| BookModel.ApplyPatch | BackEnd/controllers/books.js:96-99 | the updated book keeps the route id; each field present in the update replaces the stored one, and absent fields and metadata keys are left as they were |
| BookModel.UpdateIgnoresUnderscoreFields | BackEnd/controllers/books.js:79-98 | the client's `_id` and `_userId` have no effect on the stored result of an update |
| BookModel.UpdateCanReassignOwner | BackEnd/controllers/books.js:79 | an update that carries `userId` makes that user the owner |
| BookModel.NewRating | BackEnd/controllers/books.js:154 | the pushed entry carries the body's `userId` and the rating as its grade |
| BookModel.RatedBook | BackEnd/controllers/books.js:169-181 | the old ratings are kept as a prefix, one entry from the body is appended, the grades and raters grow by that entry, the average is `average` of all grades, and nothing else changes |
| BookModel.RatedBookMean | BackEnd/controllers/books.js:170-171 | with the arithmetic mean as `average`, the new average is the old sum plus the grade, over the old count plus one |
| BookModel.RatedBookAverageInRange | BackEnd/controllers/books.js:152-178 | with the arithmetic mean as `average`, a book whose grades all passed the 0..5 check keeps a stored average between 0 and 5 after an admitted rating |
| BookModel.RatingKeepsOneRatingPerUser | BackEnd/controllers/books.js:160-169 | a first rating by the caller, carrying the caller's id, keeps the ratings at one per user |
| BookModel.RaterRecorded | BackEnd/controllers/books.js:164-169 | after such a rating the caller is among the raters, so a second attempt is refused |
| BookModel.RaterStaysRecorded | BackEnd/controllers/books.js:169 | a user who is among the raters stays among them after any further rating |
| BookModel.SpoofedRaterNotRecorded | BackEnd/controllers/books.js:154 | when the body's `userId` is not the caller, the caller is still not among the raters afterwards |
| Ranking.Insert | BackEnd/controllers/books.js:207 | inserting into a list sorted by descending average keeps it sorted and adds exactly the inserted book |
| Ranking.SortDescending | BackEnd/controllers/books.js:207 | the result is sorted by descending average and is a permutation of the input |
| Ranking.BestRating | BackEnd/controllers/books.js:206-208 | the result has min(3, n) books, in descending average, drawn from the input without repeating any more often than it occurs there, and no book left out has a higher average than one returned |
| BookStore.Without | BackEnd/controllers/books.js:130 | removes exactly the deleted id from the listing and keeps the listing free of duplicates |
| BookStore.BestOfListing | BackEnd/controllers/books.js:206-209 | the best books of a complete listing without repeated ids are stored books with different ids, and no stored book left out has a higher average than one returned |
| BookStore.Store.GetAllBooks | BackEnd/controllers/books.js:6-17 | every stored book exactly once, each equal to its stored document |
| BookStore.Store.GetOneBook | BackEnd/controllers/books.js:52-63 | always 200; the body is the stored book when the id exists, and null otherwise |
| BookStore.Store.GetBestRating | BackEnd/controllers/books.js:203-211 | min(3, number stored) different stored books in descending average, none beaten by a stored book left out |
| BookStore.Store.CreateBook | BackEnd/controllers/books.js:20-49 | 500 with nothing stored when the record cannot be built; 201 with the record added and listed last when the save succeeds; 400 with nothing changed otherwise; images are untouched |
| BookStore.Store.ModifyBook | BackEnd/controllers/books.js:67-114 | 404 for an unknown id and 403 for a non-owner, both with nothing changed; for the owner, the old image is unlinked only when a file was uploaded, then the patched book is stored (200) or the write is refused (400) |
| BookStore.Store.DeleteBook | BackEnd/controllers/books.js:117-146 | 404 and 403 with nothing changed; for the owner, the image is unlinked, then the record is removed from the collection and the listing (200) or kept (400) |
| BookStore.Store.CreateRating | BackEnd/controllers/books.js:150-201 | 400 for a grade outside 0..5, 404 for an unknown id, 403 after an earlier rating by the caller, all with nothing changed; otherwise 200, with the rated book stored when the write is accepted |
| BookStore.Walkthrough | BackEnd/controllers/books.js:20-201 | create with grade 4, rate 2, rate again, delete by another user, then delete by the owner: statuses 201, 200, 403, 403, 200; averages 4, 3, 3; then getOneBook answers 200 with null |

## Left out

- User signup and login (`BackEnd/controllers/user.js`), the routes, `app.js`, the Mongoose schemas and multer's image resizing are not part of this model.
- Database read failures: `find`/`findOne` rejecting. The 404 `.catch` branches of getAllBooks, getOneBook and getBestRating are therefore not modelled. The 404 of the other controllers on an unknown id is modelled.
- Concurrency: each controller runs atomically on the store. Interleaved requests and the lost update between `findOne` and `updateOne` in createRating are not modelled.
- BookStore.Store.CreateRating: the later 201 or 400 from the update's callbacks comes after the 200 already sent, so it is not modelled as a second response. An update the database refuses leaves the book unchanged.
- BookStore.Store.CreateRating: the JavaScript coercions in `0 <= req.body.rating <= 5` (strings, `null`, non-numbers) and non-integer grades are not modelled. Grades are integers. The 400 text ("between 1 and 5") says 1, but the condition admits 0. The model follows the condition.
- BookStore.Store.ModifyBook and BookStore.Store.DeleteBook: the ownership test in the source uses the loose `!=`. Ids are strings here, so it is plain inequality.
- BookStore.Store.ModifyBook: the update document is the same `ClientBook` whether it comes from `JSON.parse(req.body.book)` or from `req.body`. Malformed JSON (a synchronous throw) is not modelled. Mongoose's strict mode, which drops fields outside the schema, is not modelled. Metadata fields merge key by key.
- BookStore.Store.CreateBook: which fields the schema accepts is folded into `dbAccepts`. A non-JSON `book` field is not modelled.
- Auth.Authenticate: `jwt.verify` is the parameter `verify`. Token expiry, the signing secret and a token whose payload has no `userId` are not modelled; `verify` returns either a user id or nothing.
- BookModel.RatedBook: the `average` module's implementation and any rounding are outside this model, so the contract holds for any `average`.
- Filesystem: `fs.unlink` is removing a name from `images`. It succeeds or leaves the set unchanged. Its asynchrony and its error logging are not modelled.
- Ranking.BestRating: the database's order among books with equal averages is unspecified. The model sorts stably, which is one admissible order.
