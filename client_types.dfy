/** The browser's view of a user (the `User` interface of the auth context), shared
    by the pages. */
module ClientTypes {
  import opened Optional

  datatype Role = Player | Admin

  /** `isOnline` is absent until a status update has been merged into the row. */
  datatype User = User(
    id: string,
    username: string,
    email: string,
    displayName: Option<string>,
    avatarUrl: Option<string>,
    role: Role,
    bananaCount: int,
    isBlocked: bool,
    isDeleted: bool,
    createdAt: string,
    updatedAt: string,
    isOnline: Option<bool>)
}
