/**
 * The controllers of BackEnd/controllers/books.js over one store: the book
 * collection (a map from id to document, plus the collection's listing
 * order) and the images directory (a set of file names).  Each controller
 * runs atomically.  Mutating controllers take the caller id the
 * authentication middleware put in `req.auth.userId`; whether the database
 * accepts a write (schema validation, duplicate key, connection) is decided
 * by code outside this model and is an input `dbAccepts`.
 */
module BookStore {
  import opened Wrappers
  import opened Users
  import opened Ratings
  import opened BookModel
  import opened Ranking

  /** No id is listed twice. */
  predicate Distinct(s: seq<BookId>) {
    forall i, j :: 0 <= i < j < |s| ==> s[i] != s[j]
  }

  /** `order` with every occurrence of `id` taken out. */
  function Without(order: seq<BookId>, id: BookId): (r: seq<BookId>)
    ensures forall x :: x in r <==> x in order && x != id
    ensures Distinct(order) ==> Distinct(r)
    decreases |order|
  {
    if order == [] then []
    else if order[0] == id then Without(order[1..], id)
    else
      assert Distinct(order) ==> Distinct(order[1..]) && order[0] !in order[1..];
      [order[0]] + Without(order[1..], id)
  }

  /** A list without repetitions has as many elements as the set of its elements. */
  lemma {:induction false} DistinctSize(s: seq<BookId>)
    requires Distinct(s)
    ensures |set x | x in s| == |s|
    decreases |s|
  {
    if s != [] {
      DistinctSize(s[1..]);
      assert (set x | x in s) == {s[0]} + (set x | x in s[1..]);
      assert s[0] !in (set x | x in s[1..]);
    }
  }

  /** A value listed at two positions occurs at least twice in the listing's multiset. */
  lemma RepeatedTwice(r: seq<Book>, i: nat, j: nat)
    requires i < j < |r| && r[i] == r[j]
    ensures multiset(r)[r[i]] >= 2
  {
    var x := r[i];
    assert r == r[..i] + [x] + r[i + 1..j] + [x] + r[j + 1..];
  }

  /** In a listing with no repeated id, every book occurs at most once. */
  lemma {:induction false} DistinctIdsOnce(s: seq<Book>, x: Book)
    requires forall i, j :: 0 <= i < j < |s| ==> s[i].id != s[j].id
    ensures multiset(s)[x] <= 1
    decreases |s|
  {
    if s != [] {
      DistinctIdsOnce(s[1..], x);
      assert s == [s[0]] + s[1..];
      if x == s[0] {
        assert x !in s[1..];
      }
    }
  }

  /**
   * The best-rated books of a complete listing of `books` are distinct
   * stored books, and beat every stored book left out.
   */
  lemma BestOfListing(books: map<BookId, Book>, all: seq<Book>)
    requires forall i :: 0 <= i < |all| ==> all[i].id in books && books[all[i].id] == all[i]
    requires forall id :: id in books ==> books[id] in all
    requires forall i, j :: 0 <= i < j < |all| ==> all[i].id != all[j].id
    ensures var r := BestRating(all);
      && (forall k :: 0 <= k < |r| ==> r[k].id in books && books[r[k].id] == r[k])
      && (forall i, j :: 0 <= i < j < |r| ==> r[i].id != r[j].id)
      && (forall id, k :: id in books && books[id] !in r && 0 <= k < |r| ==> books[id].averageRating <= r[k].averageRating)
  {
    var r := BestRating(all);
    forall k | 0 <= k < |r|
      ensures r[k].id in books && books[r[k].id] == r[k]
    {
      assert r[k] in multiset(r);
      assert r[k] in multiset(all);
      var i :| 0 <= i < |all| && all[i] == r[k];
    }
    forall i, j | 0 <= i < j < |r|
      ensures r[i].id != r[j].id
    {
      if r[i].id == r[j].id {
        assert r[i] == books[r[i].id] == r[j];
        RepeatedTwice(r, i, j);
        DistinctIdsOnce(all, r[i]);
        assert false;
      }
    }
    forall id, k | id in books && books[id] !in r && 0 <= k < |r|
      ensures books[id].averageRating <= r[k].averageRating
    {
      assert books[id] in multiset(all);
      assert books[id] !in multiset(r);
      assert books[id] in multiset(all) - multiset(r);
    }
  }

  /** What getOneBook answers: a status and the JSON body (null when nothing is found). */
  datatype Lookup = Lookup(status: Status, book: Option<Book>)

  class Store {
    /** The book collection, by `_id`. */
    var books: map<BookId, Book>
    /** The collection's listing order (the order `Book.find()` returns). */
    var order: seq<BookId>
    /** The file names in the images directory. */
    var images: set<string>

    ghost predicate Valid()
      reads this
    {
      && (forall id :: id in books ==> books[id].id == id)
      && (forall i :: 0 <= i < |order| ==> order[i] in books)
      && (forall id :: id in books ==> id in order)
      && Distinct(order)
    }

    /** An empty collection over an images directory holding `files`. */
    constructor (files: set<string>)
      ensures Valid()
      ensures books == map[] && order == [] && images == files
    {
      books, order, images := map[], [], files;
    }

    /** getAllBooks: every stored book exactly once, in listing order. */
    function GetAllBooks(): (r: seq<Book>)
      reads this
      requires Valid()
      ensures |r| == |books|
      ensures forall i :: 0 <= i < |r| ==> r[i].id in books && books[r[i].id] == r[i]
      ensures forall id :: id in books ==> books[id] in r
      ensures forall i, j :: 0 <= i < j < |r| ==> r[i].id != r[j].id
    {
      var bs, ids := books, order;
      DistinctSize(ids);
      assert (set x | x in ids) == bs.Keys;
      var r := seq(|ids|, i requires 0 <= i < |ids| && ids[i] in bs => bs[ids[i]]);
      assert forall id :: id in bs ==> exists i :: 0 <= i < |ids| && ids[i] == id && r[i] == bs[id];
      r
    }

    /**
     * getOneBook: the stored book with 200.  A missing id also answers 200,
     * with a null body: Mongoose's findOne resolves to null rather than
     * failing, so the 404 branch is not taken.
     */
    function GetOneBook(id: BookId): (r: Lookup)
      reads this
      requires Valid()
      ensures r.status == Ok
      ensures r.book.Some? <==> id in books
      ensures r.book.Some? ==> r.book.value == books[id] && r.book.value.id == id
    {
      if id in books then Lookup(Ok, Some(books[id])) else Lookup(Ok, None)
    }

    /**
     * getBestRating: at most three different stored books, fewer only when
     * fewer are stored, highest average first, and no stored book left out
     * has a strictly higher average than a returned one.
     */
    function GetBestRating(): (r: seq<Book>)
      reads this
      requires Valid()
      ensures |r| == if |books| < Limit then |books| else Limit
      ensures NonIncreasing(r)
      ensures forall k :: 0 <= k < |r| ==> r[k].id in books && books[r[k].id] == r[k]
      ensures forall i, j :: 0 <= i < j < |r| ==> r[i].id != r[j].id
      ensures forall id, k :: id in books && books[id] !in r && 0 <= k < |r| ==> books[id].averageRating <= r[k].averageRating
    {
      var all := GetAllBooks();
      BestOfListing(books, all);
      BestRating(all)
    }

    /**
     * createBook: stores the client's book under a fresh id, owned by the
     * caller, with the built image URL and the first client grade as its
     * average.  Building the record throws (500, nothing stored) without an
     * uploaded file or a first rating; a refused save answers 400.
     */
    method CreateBook(callerId: UserId, body: ClientBook, upload: Option<string>,
                      protocol: string, host: string, newId: BookId, dbAccepts: bool)
      returns (status: Status)
      requires Valid()
      modifies this
      ensures Valid() && images == old(images)
      ensures var nb := NewBook(newId, callerId, body, upload, protocol, host);
        if nb.None? then status == ServerError && books == old(books) && order == old(order)
        else if dbAccepts && newId !in old(books) then
          status == Created && books == old(books)[newId := nb.value] && order == old(order) + [newId]
        else status == BadRequest && books == old(books) && order == old(order)
    {
      var book := NewBook(newId, callerId, body, upload, protocol, host);
      if book.None? {
        return ServerError;
      }
      // a duplicate `_id` is a duplicate-key error from save()
      if !dbAccepts || newId in books {
        return BadRequest;
      }
      books := books[newId := book.value];
      order := order + [newId];
      status := Created;
    }

    /**
     * modifyBook: refuses a missing book (404) and a caller who is not the
     * owner (403) before any write.  For the owner it unlinks the old image
     * only when a new file was uploaded, then writes the update document with
     * `_id` forced to the route id.
     */
    method ModifyBook(id: BookId, callerId: UserId, body: ClientBook, upload: Option<string>,
                      protocol: string, host: string, dbAccepts: bool)
      returns (status: Status)
      requires Valid()
      modifies this
      ensures Valid() && order == old(order)
      ensures id !in old(books) ==> status == NotFound && books == old(books) && images == old(images)
      ensures id in old(books) && !IsOwner(old(books)[id], callerId) ==>
        status == Forbidden && books == old(books) && images == old(images)
      ensures id in old(books) && IsOwner(old(books)[id], callerId) ==>
        && images == (if upload.Some? then old(images) - {UnlinkTarget(old(books)[id].imageUrl)} else old(images))
        && (dbAccepts ==>
              && status == Ok
              && books == old(books)[id := ApplyPatch(old(books)[id], UpdateDocument(body, upload, protocol, host), id)])
        && (!dbAccepts ==> status == BadRequest && books == old(books))
    {
      var bookObject := UpdateDocument(body, upload, protocol, host);
      if id !in books {
        return NotFound;
      }
      var book := books[id];
      if !IsOwner(book, callerId) {
        return Forbidden;
      }
      var filename := UnlinkTarget(book.imageUrl);
      if upload.Some? {
        images := images - {filename};
      }
      if !dbAccepts {
        return BadRequest;
      }
      books := books[id := ApplyPatch(book, bookObject, id)];
      status := Ok;
    }

    /**
     * deleteBook: the same 404 and 403 refusals, with nothing changed.  For
     * the owner it unlinks the image, then removes the record whatever the
     * unlink did; a refused delete answers 400 with the image already gone.
     */
    method DeleteBook(id: BookId, callerId: UserId, dbAccepts: bool) returns (status: Status)
      requires Valid()
      modifies this
      ensures Valid()
      ensures id !in old(books) ==> status == NotFound && books == old(books) && order == old(order) && images == old(images)
      ensures id in old(books) && !IsOwner(old(books)[id], callerId) ==>
        status == Forbidden && books == old(books) && order == old(order) && images == old(images)
      ensures id in old(books) && IsOwner(old(books)[id], callerId) ==>
        && images == old(images) - {UnlinkTarget(old(books)[id].imageUrl)}
        && (dbAccepts ==> status == Ok && books == old(books) - {id} && order == Without(old(order), id) && id !in books)
        && (!dbAccepts ==> status == BadRequest && books == old(books) && order == old(order))
    {
      if id !in books {
        return NotFound;
      }
      var book := books[id];
      if !IsOwner(book, callerId) {
        return Forbidden;
      }
      var filename := UnlinkTarget(book.imageUrl);
      images := images - {filename};
      if !dbAccepts {
        return BadRequest;
      }
      assert forall x :: x in order ==> x in books;
      books := books - {id};
      order := Without(order, id);
      status := Ok;
    }

    /**
     * createRating: a grade outside [0, 5] is refused (400) before any
     * lookup; a missing book is 404; a caller already among the raters is
     * 403; otherwise one entry (with the body's userId) is appended and the
     * average recomputed.  The 200 is sent as soon as the update is started,
     * so it is also the answer when the database refuses the write.
     */
    method CreateRating(id: BookId, callerId: UserId, bodyUserId: UserId, rating: int,
                        average: seq<int> -> real, dbAccepts: bool)
      returns (status: Status)
      requires Valid()
      modifies this
      ensures Valid() && order == old(order) && images == old(images)
      ensures !ValidGrade(rating) ==> status == BadRequest && books == old(books)
      ensures ValidGrade(rating) && id !in old(books) ==> status == NotFound && books == old(books)
      ensures ValidGrade(rating) && id in old(books) && callerId in Raters(old(books)[id].ratings) ==>
        status == Forbidden && books == old(books)
      ensures ValidGrade(rating) && id in old(books) && callerId !in Raters(old(books)[id].ratings) ==>
        status == Ok &&
        books == if dbAccepts then old(books)[id := RatedBook(old(books)[id], bodyUserId, rating, average)] else old(books)
    {
      if !ValidGrade(rating) {
        return BadRequest;
      }
      var ratingObject := NewRating(bodyUserId, rating);
      if id !in books {
        return NotFound;
      }
      var book := books[id];
      var newRatings := book.ratings;
      if callerId in Raters(newRatings) {
        return Forbidden;
      }
      newRatings := newRatings + [ratingObject];
      var averageGrades := average(Grades(newRatings));
      if dbAccepts {
        books := books[id := book.(ratings := newRatings, averageRating := averageGrades)];
      }
      status := Ok;
    }
  }

  /**
   * The walk-through of the rating and ownership rules: U1 creates a book
   * with grade 4 (average 4), U2 rates it 2 (average 3), U2's second rating
   * is refused, U3 may not delete it, U1 deletes it, and the book is gone
   * (getOneBook then answers 200 with a null body).
   */
  method Walkthrough(u1: UserId, u2: UserId, u3: UserId, id: BookId, filename: string)
    returns (statuses: seq<Status>, averages: seq<real>, finally: Lookup)
    requires u1 != u2 && u2 != u3 && u1 != u3
    ensures statuses == [Created, Ok, Forbidden, Forbidden, Ok]
    ensures averages == [4.0, 3.0, 3.0]
    ensures finally == Lookup(Ok, None)
  {
    var store := new Store({});
    var body := ClientBook(None, None, None, None, Some([Rating(u1, 4)]), None, map["title" := "B"]);
    var s1 := store.CreateBook(u1, body, Some(filename), "http", "localhost:4000", id, true);
    var a1 := store.books[id].averageRating;
    assert Raters([Rating(u1, 4)]) == [u1];
    var s2 := store.CreateRating(id, u2, u2, 2, MeanOrZero, true);
    var a2 := store.books[id].averageRating;
    assert Grades([Rating(u1, 4), Rating(u2, 2)]) == [4, 2];
    assert [4, 2][..1] == [4] && [4][..0] == [];
    assert Grades([Rating(u1, 4)]) + [2] == [4, 2];
    assert Sum([4, 2]) == 6;
    assert MeanOrZero([4, 2]) == 3.0;
    assert Raters(store.books[id].ratings) == [u1, u2];
    var s3 := store.CreateRating(id, u2, u2, 5, MeanOrZero, true);
    var a3 := store.books[id].averageRating;
    var s4 := store.DeleteBook(id, u3, true);
    var s5 := store.DeleteBook(id, u1, true);
    statuses, averages := [s1, s2, s3, s4, s5], [a1, a2, a3];
    finally := store.GetOneBook(id);
  }
}
