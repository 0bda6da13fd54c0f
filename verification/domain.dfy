/**
  The records the screens and view-models exchange with the backend.
  `Comment` follows its Kotlin data class field for field. The `Post` class
  is not part of this model; its fields are those the post form and the
  post-details screen read and copy (id, title, a nullable description,
  a nullable author, a nullable photo URL and a timestamp).
 */
module Domain {
  import opened Outcomes

  /** A profile stored in the users collection. */
  datatype User = User(id: string, firstname: string, lastname: string)

  datatype Post = Post(
    id: string,
    title: string,
    description: Option<string>,
    author: Option<User>,
    photoUrl: Option<string>,
    timestamp: int)

  /** `Post()`: every field at its default; the default timestamp is taken as 0. */
  const DefaultPost: Post := Post("", "", None, None, None, 0)

  datatype Comment = Comment(
    id: string,
    authorId: string,
    authorName: string,
    content: string,
    timestamp: int)

  /** The sign-up and sign-in timestamps the auth service keeps for an account. */
  datatype AuthMetadata = AuthMetadata(creationTimestamp: int, lastSignInTimestamp: int)

  /** The signed-in account as the auth service reports it; email and metadata may be missing. */
  datatype AuthUser = AuthUser(uid: string, email: Option<string>, metadata: Option<AuthMetadata>)

  /** A content URI handed out by the image picker. */
  type Uri = string
}
