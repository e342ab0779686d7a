/**
 * The feed store contract: the value records every backend returns, the
 * reaction states, the state machine behind toggleReaction, and the default
 * methods of the contract that delegate with fixed arguments.
 */
module SnsPort {
  import opened JavaLang

  /** A moment as the store records it. How it is formatted for display
      (DATE_FORMAT, DateTimeFormatter) is not part of this model. */
  type Timestamp = int

  /** A viewer's reaction to a post. Backends exchange it as the strings
      "NONE", "LIKE" and "DISLIKE"; NONE is what a missing entry means. */
  datatype Reaction = NONE | LIKE | DISLIKE

  /** The string a backend returns or stores for a reaction. */
  function ReactionName(r: Reaction): (s: string)
    ensures s == "NONE" || s == "LIKE" || s == "DISLIKE"
  {
    match r
    case NONE => "NONE"
    case LIKE => "LIKE"
    case DISLIKE => "DISLIKE"
  }

  /** Distinct reactions are shown as distinct strings. */
  lemma ReactionNameInjective(a: Reaction, b: Reaction)
    requires ReactionName(a) == ReactionName(b)
    ensures a == b
  {
  }

  /** Record UserView(userId, userName). */
  datatype UserView = UserView(userId: int, userName: string)

  /** Record PostView of the current contract: a post joined with its
      author's name, its reaction counts and the requesting viewer's state. */
  datatype PostView = PostView(
    postId: int,
    authorId: int,
    authorName: string,
    content: Option<string>,
    filePath: Option<string>,
    fileName: Option<string>,
    uploadTime: Timestamp,
    likeCount: int,
    dislikeCount: int,
    myState: Reaction)

  /** Record CommentView(id, authorName, text, time) of the current contract. */
  datatype CommentView = CommentView(id: int, authorName: string, text: string, time: Timestamp)

  /** The nine-field PostView of the older contract (no text body). The
      in-memory store and the older relational store build this one. */
  datatype LegacyPostView = LegacyPostView(
    postId: int,
    userId: int,
    authorName: string,
    filePath: Option<string>,
    fileName: Option<string>,
    uploadTime: Timestamp,
    likeCount: int,
    dislikeCount: int,
    myState: Reaction)

  /** CommentView(commentId, postId, userId, authorName, text) of the older
      contract. */
  datatype LegacyCommentView = LegacyCommentView(
    commentId: int, postId: int, userId: int, authorName: string, text: string)

  /** The exceptions a backend can throw to its caller. */
  datatype Failure = IllegalArgument | Unsupported

  /** A call that either returns a value or throws. */
  datatype Result<+T> = Ok(value: T) | Err(failure: Failure)

  /** The reaction state machine every backend implements: pressing the
      state the viewer already holds cancels it, anything else becomes the
      new state. */
  function Toggled(current: Reaction, requested: Reaction): (next: Reaction)
    ensures next == requested || next == NONE
    ensures current == requested ==> next == NONE
    ensures requested != NONE ==> (next == NONE <==> current == requested)
  {
    if current == requested then NONE else requested
  }

  /** Default register(username, password): the three-argument form with
      the e-mail address `username@local`. */
  function LocalEmail(username: string): (email: string)
    ensures |email| == |username| + 6
    ensures email[..|username|] == username && email[|username|..] == "@local"
  {
    username + "@local"
  }

  /** Default createPost(userId, path, name): the four-argument form with an
      empty text body. */
  const DefaultPostText: string := ""

  /** Default loginByEmail: no backend-specific support, so no user ever
      matches and "unsupported" looks exactly like "no such user". */
  function DefaultLoginByEmail(email: string, password: string): (r: Option<UserView>)
    ensures r.None?
  {
    None
  }

  /** Default register(username, email, password): throws
      UnsupportedOperationException, so sign-up needs an overriding backend. */
  function DefaultRegister(username: string, email: string, password: string): (r: Result<Option<UserView>>)
    ensures r.Err? && r.failure == Unsupported
  {
    Err(Unsupported)
  }

  /** Default register(username, password) on a backend that keeps the
      default three-argument form: it delegates and so throws as well. */
  function DefaultRegisterWithoutEmail(username: string, password: string): (r: Result<Option<UserView>>)
    ensures r == DefaultRegister(username, LocalEmail(username), password)
    ensures r.Err?
  {
    DefaultRegister(username, LocalEmail(username), password)
  }
}
