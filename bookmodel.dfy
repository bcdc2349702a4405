/**
 * The book documents of BackEnd/controllers/books.js and the pure parts of
 * its controllers: the record createBook builds, the update modifyBook
 * applies, the rating createRating appends, and the image URL built at
 * upload time together with the file name cut back out of it before
 * fs.unlink.
 */
module BookModel {
  import opened Wrappers
  import opened JsStrings
  import opened Users
  import opened Ratings

  type BookId = string

  /** A stored book document. `metadata` holds title, author, year, genre and any other field. */
  datatype Book = Book(
    id: BookId,
    userId: UserId,
    imageUrl: string,
    ratings: seq<Rating>,
    averageRating: real,
    metadata: map<string, string>)

  /**
   * The book fields a client sends (`JSON.parse(req.body.book)` or
   * `req.body`); each named field may be absent.  `underscoreId` and
   * `underscoreUserId` are the client's `_id` and `_userId`.
   */
  datatype ClientBook = ClientBook(
    underscoreId: Option<BookId>,
    underscoreUserId: Option<UserId>,
    userId: Option<UserId>,
    imageUrl: Option<string>,
    ratings: Option<seq<Rating>>,
    averageRating: Option<real>,
    metadata: map<string, string>)

  /** The outcome of a controller, as the HTTP status it answers with. */
  datatype Status = Ok | Created | BadRequest | Forbidden | NotFound | ServerError {
    function Code(): int {
      match this
      case Ok => 200
      case Created => 201
      case BadRequest => 400
      case Forbidden => 403
      case NotFound => 404
      case ServerError => 500
    }
  }

  /** The ownership gate of modifyBook and deleteBook. */
  predicate IsOwner(b: Book, callerId: UserId) {
    b.userId == callerId
  }

  const ImagesSegment := "/images/"
  const ResizedPrefix := "resized_"

  /** `${req.protocol}://${req.get("host")}/images/resized_${req.file.filename}`. */
  function ImageUrl(protocol: string, host: string, filename: string): (url: string)
    ensures |url| == |protocol| + 3 + |host| + |ImagesSegment| + |ResizedPrefix| + |filename|
    ensures url[..|protocol| + 3 + |host|] == protocol + "://" + host
    ensures url[|url| - |filename|..] == filename
    ensures Contains(url, ImagesSegment)
  {
    var url := protocol + "://" + host + ImagesSegment + ResizedPrefix + filename;
    assert OccursAt(url, ImagesSegment, |protocol| + 3 + |host|);
    url
  }

  /**
   * The file, relative to the images directory, that fs.unlink is given for a
   * stored URL: `imageUrl.split("/images/")[1]`, where an undefined piece
   * becomes the name "undefined" in the template string.
   */
  function UnlinkTarget(imageUrl: string): (name: string)
    ensures !Contains(imageUrl, ImagesSegment) ==> name == "undefined"
    ensures Contains(imageUrl, ImagesSegment) ==> !Contains(name, ImagesSegment)
  {
    SecondFieldIffContains(imageUrl, ImagesSegment);
    Field(imageUrl, ImagesSegment, 1).GetOr("undefined")
  }

  /**
   * Round trip: the file unlinked for a URL built at upload time is the
   * resized upload, provided "/images/" does not already start inside the
   * URL's origin and does not occur in the uploaded file name.
   */
  lemma ImageUrlRoundTrip(protocol: string, host: string, filename: string)
    requires !Contains(protocol + "://" + host + "/images", ImagesSegment)
    requires !Contains(filename, ImagesSegment)
    ensures UnlinkTarget(ImageUrl(protocol, host, filename)) == ResizedPrefix + filename
  {
    var origin := protocol + "://" + host;
    var rest := ResizedPrefix + filename;
    assert ImagesSegment[..|ImagesSegment| - 1] == "/images";
    assert ImageUrl(protocol, host, filename) == origin + ImagesSegment + rest;
    SplitAfterFirst(origin, ImagesSegment, rest);
    ContainsAfterPrefix(ResizedPrefix, filename, ImagesSegment);
    SplitWithout(rest, ImagesSegment);
  }

  /**
   * The origin condition of the round trip is needed: behind a host named
   * "images" the split cuts inside "//images/images/", and a different file
   * is unlinked than the one uploaded.
   */
  lemma HostNamedImagesBreaksRoundTrip(filename: string)
    ensures UnlinkTarget(ImageUrl("http", "images", filename)) != ResizedPrefix + filename
  {
    var rest := "images/" + ResizedPrefix + filename;
    assert ImageUrl("http", "images", filename) == "http:/" + ImagesSegment + rest;
    SchemeSlashHasNoSegment();
    SplitAfterFirst("http:/", ImagesSegment, rest);
    FirstPieceIsPrefix(rest, ImagesSegment);
  }

  /** "/images/" does not start inside "http://images". */
  lemma SchemeSlashHasNoSegment()
    ensures ImagesSegment[..|ImagesSegment| - 1] == "/images"
    ensures !Contains("http:/" + "/images", ImagesSegment)
  {
    var head := "http:/" + "/images";
    forall k: nat
      ensures !OccursAt(head, ImagesSegment, k)
    {
      if k + |ImagesSegment| <= |head| {
        if k < 5 {
          assert head[k..k + |ImagesSegment|][0] == head[k] != '/';
        } else {
          assert head[k..k + |ImagesSegment|][1] == head[6] != 'i';
        }
      }
    }
  }

  /** The first piece of a split is a prefix of the string. */
  lemma FirstPieceIsPrefix(s: string, sep: string)
    requires sep != ""
    ensures |Split(s, sep)[0]| <= |s| && s[..|Split(s, sep)[0]|] == Split(s, sep)[0]
  {
  }

  /**
   * The record createBook saves, or None when building it throws (no
   * uploaded file, or no first rating to read the grade from).  The client's
   * `_id` and `_userId` are deleted; `userId`, `imageUrl` and
   * `averageRating` are overridden; the rest is kept.
   */
  function NewBook(newId: BookId, callerId: UserId, body: ClientBook, upload: Option<string>,
                   protocol: string, host: string): (r: Option<Book>)
    ensures r.Some? <==> upload.Some? && body.ratings.Some? && |body.ratings.value| > 0
    ensures r.Some? ==> r.value.id == newId && IsOwner(r.value, callerId)
    ensures r.Some? ==> r.value.ratings == body.ratings.value && r.value.metadata == body.metadata
    ensures r.Some? ==> r.value.averageRating == body.ratings.value[0].grade as real
    ensures r.Some? ==> r.value.imageUrl == ImageUrl(protocol, host, upload.value)
  {
    if upload.None? || body.ratings.None? || |body.ratings.value| == 0 then None
    else
      var rs := body.ratings.value;
      Some(Book(newId, callerId, ImageUrl(protocol, host, upload.value), rs, rs[0].grade as real, body.metadata))
  }

  /** Whatever the client says about `_id`, `_userId`, `userId`, `imageUrl` and `averageRating` has no effect on the new record. */
  lemma NewBookIgnoresClientIdentity(newId: BookId, callerId: UserId, body: ClientBook, upload: Option<string>,
                                     protocol: string, host: string,
                                     id': Option<BookId>, hidden': Option<UserId>, owner': Option<UserId>,
                                     url': Option<string>, average': Option<real>)
    ensures NewBook(newId, callerId, body, upload, protocol, host)
         == NewBook(newId, callerId,
                    body.(underscoreId := id', underscoreUserId := hidden', userId := owner',
                          imageUrl := url', averageRating := average'),
                    upload, protocol, host)
  {
  }

  /**
   * The initial average is the first client grade.  With a single client
   * rating that is the mean of the grades; with several it in general is not
   * (NewBookAverageNotMean).
   */
  lemma NewBookAverage(newId: BookId, callerId: UserId, body: ClientBook, upload: Option<string>,
                       protocol: string, host: string)
    requires NewBook(newId, callerId, body, upload, protocol, host).Some?
    ensures var b := NewBook(newId, callerId, body, upload, protocol, host).value;
      |b.ratings| == 1 ==> b.averageRating == Mean(Grades(b.ratings))
  {
    var b := NewBook(newId, callerId, body, upload, protocol, host).value;
    if |b.ratings| == 1 {
      assert Grades(b.ratings) == [b.ratings[0].grade];
      MeanOfOne(b.ratings[0].grade);
    }
  }

  /** With two client ratings 4 and 2 the stored average is 4, not their mean 3. */
  lemma NewBookAverageNotMean(newId: BookId, callerId: UserId, u1: UserId, u2: UserId, filename: string,
                              protocol: string, host: string)
    ensures var body := ClientBook(None, None, None, None, Some([Rating(u1, 4), Rating(u2, 2)]), None, map[]);
      var b := NewBook(newId, callerId, body, Some(filename), protocol, host).value;
      b.averageRating == 4.0 && Mean(Grades(b.ratings)) == 3.0
  {
    var rs := [Rating(u1, 4), Rating(u2, 2)];
    assert Grades(rs) == [4, 2];
    assert [4, 2][..1] == [4];
    assert [4][..0] == [];
    assert Sum([4, 2]) == 6;
  }

  /**
   * The update document modifyBook sends: the parsed `book` field plus the
   * new image URL when a file was uploaded, the plain body otherwise, minus
   * `_userId` only.
   */
  function UpdateDocument(body: ClientBook, upload: Option<string>, protocol: string, host: string): (p: ClientBook)
    ensures p.underscoreUserId.None?
    ensures p.userId == body.userId && p.ratings == body.ratings && p.averageRating == body.averageRating
    ensures p.imageUrl == if upload.Some? then Some(ImageUrl(protocol, host, upload.value)) else body.imageUrl
  {
    var withImage := if upload.Some? then body.(imageUrl := Some(ImageUrl(protocol, host, upload.value))) else body;
    withImage.(underscoreUserId := None)
  }

  /**
   * `updateOne({_id: id}, {...p, _id: id})`: each field present in `p`
   * replaces the stored one, `_id` stays the route id.
   */
  function ApplyPatch(b: Book, p: ClientBook, routeId: BookId): (r: Book)
    ensures r.id == routeId
    ensures r.userId == p.userId.GetOr(b.userId)
    ensures r.imageUrl == p.imageUrl.GetOr(b.imageUrl)
    ensures r.ratings == p.ratings.GetOr(b.ratings) && r.averageRating == p.averageRating.GetOr(b.averageRating)
    ensures r.metadata.Keys == b.metadata.Keys + p.metadata.Keys
    ensures forall k :: k in p.metadata ==> r.metadata[k] == p.metadata[k]
    ensures forall k :: k in b.metadata && k !in p.metadata ==> r.metadata[k] == b.metadata[k]
  {
    Book(routeId,
         p.userId.GetOr(b.userId),
         p.imageUrl.GetOr(b.imageUrl),
         p.ratings.GetOr(b.ratings),
         p.averageRating.GetOr(b.averageRating),
         b.metadata + p.metadata)
  }

  /** The client's `_id` and `_userId` have no effect on the stored result of an update. */
  lemma UpdateIgnoresUnderscoreFields(b: Book, body: ClientBook, upload: Option<string>, protocol: string, host: string,
                                      routeId: BookId, id': Option<BookId>, hidden': Option<UserId>)
    ensures ApplyPatch(b, UpdateDocument(body.(underscoreId := id', underscoreUserId := hidden'), upload, protocol, host), routeId)
         == ApplyPatch(b, UpdateDocument(body, upload, protocol, host), routeId)
  {
  }

  /**
   * Only `_userId` is removed from the update, so an owner who sends a
   * `userId` hands the book over to that user.
   */
  lemma UpdateCanReassignOwner(b: Book, body: ClientBook, upload: Option<string>, protocol: string, host: string,
                               routeId: BookId, newOwner: UserId)
    requires body.userId == Some(newOwner)
    ensures IsOwner(ApplyPatch(b, UpdateDocument(body, upload, protocol, host), routeId), newOwner)
  {
  }

  /** The rating entry createRating pushes: `{...req.body, grade: req.body.rating}`, carrying the body's userId. */
  function NewRating(bodyUserId: UserId, rating: int): (r: Rating)
    ensures r.userId == bodyUserId && r.grade == rating
  {
    Rating(bodyUserId, rating)
  }

  /**
   * The book after a successful rating: one entry appended at the end of
   * the ratings, the average recomputed over all grades, nothing else
   * changed.
   */
  function RatedBook(b: Book, bodyUserId: UserId, rating: int, average: seq<int> -> real): (r: Book)
    ensures r == b.(ratings := r.ratings, averageRating := r.averageRating)
    ensures |r.ratings| == |b.ratings| + 1 && r.ratings[..|b.ratings|] == b.ratings
    ensures r.ratings[|b.ratings|] == NewRating(bodyUserId, rating)
    ensures Grades(r.ratings) == Grades(b.ratings) + [rating]
    ensures Raters(r.ratings) == Raters(b.ratings) + [bodyUserId]
    ensures r.averageRating == average(Grades(b.ratings) + [rating])
  {
    var newRatings := b.ratings + [NewRating(bodyUserId, rating)];
    AppendRating(b.ratings, NewRating(bodyUserId, rating));
    assert newRatings[..|b.ratings|] == b.ratings;
    b.(ratings := newRatings, averageRating := average(Grades(newRatings)))
  }

  /** With the arithmetic mean as `average`, the new average is the old total plus the new grade over one more rating. */
  lemma RatedBookMean(b: Book, bodyUserId: UserId, rating: int)
    ensures RatedBook(b, bodyUserId, rating, MeanOrZero).averageRating
         == (Sum(Grades(b.ratings)) + rating) as real / (|b.ratings| + 1) as real
  {
    MeanAfterAppend(Grades(b.ratings), rating);
  }

  /**
   * With the arithmetic mean as `average`, a book whose grades all passed the
   * 0..5 check keeps an average between 0 and 5 after an admitted rating.
   */
  lemma RatedBookAverageInRange(b: Book, bodyUserId: UserId, rating: int)
    requires forall i :: 0 <= i < |b.ratings| ==> ValidGrade(b.ratings[i].grade)
    requires ValidGrade(rating)
    ensures 0.0 <= RatedBook(b, bodyUserId, rating, MeanOrZero).averageRating <= 5.0
  {
    var gs := Grades(b.ratings) + [rating];
    assert forall i :: 0 <= i < |gs| ==> ValidGrade(gs[i]);
    MeanInRange(gs);
  }

  /** When the body's userId is the caller, a new rater keeps the ratings one per user. */
  lemma RatingKeepsOneRatingPerUser(b: Book, callerId: UserId, bodyUserId: UserId, rating: int, average: seq<int> -> real)
    requires OneRatingPerUser(b.ratings) && callerId !in Raters(b.ratings)
    requires bodyUserId == callerId
    ensures OneRatingPerUser(RatedBook(b, bodyUserId, rating, average).ratings)
  {
    AppendKeepsOneRatingPerUser(b.ratings, NewRating(bodyUserId, rating));
  }

  /** When the body's userId is the caller, the caller is a rater afterwards, so a second attempt is refused. */
  lemma RaterRecorded(b: Book, callerId: UserId, bodyUserId: UserId, rating: int, average: seq<int> -> real)
    requires bodyUserId == callerId
    ensures callerId in Raters(RatedBook(b, bodyUserId, rating, average).ratings)
  {
    assert Raters(RatedBook(b, bodyUserId, rating, average).ratings)[|b.ratings|] == callerId;
  }

  /** Once a user is among the raters, further ratings by anybody keep them there. */
  lemma RaterStaysRecorded(b: Book, u: UserId, bodyUserId: UserId, rating: int, average: seq<int> -> real)
    requires u in Raters(b.ratings)
    ensures u in Raters(RatedBook(b, bodyUserId, rating, average).ratings)
  {
    var i :| 0 <= i < |b.ratings| && Raters(b.ratings)[i] == u;
    assert Raters(RatedBook(b, bodyUserId, rating, average).ratings)[i] == u;
  }

  /**
   * When the body names a userId other than the caller, the entry is stored
   * under that name and the caller is still not a rater: the duplicate check
   * does not stop them rating again.
   */
  lemma SpoofedRaterNotRecorded(b: Book, callerId: UserId, bodyUserId: UserId, rating: int, average: seq<int> -> real)
    requires callerId !in Raters(b.ratings) && bodyUserId != callerId
    ensures callerId !in Raters(RatedBook(b, bodyUserId, rating, average).ratings)
  {
  }
}
