/** Identities shared by the middleware and the book documents. */
module Users {

  /** A user id, as `req.auth.userId` and the `userId` fields of books and ratings carry it. */
  type UserId = string
}
