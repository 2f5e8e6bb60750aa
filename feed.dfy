/**
 * The feed objects the scraper reads (praw's Submission and Comment), as one
 * tagged variant with a uniform accessor surface instead of runtime type tests.
 */
module Feed {
  import opened Wrappers

  /**
   * A comment as the flattened, fully expanded comment tree yields it. A
   * deleted account has no author: reading `author.name` then fails.
   */
  datatype Comment = Comment(id: string, author: Option<string>, score: int, created: int, body: string)

  /** A submission together with every comment of its thread, in tree-flattening order. */
  datatype Submission = Submission(
    id: string,
    author: Option<string>,
    score: int,
    created: int,
    permalink: string,
    title: string,
    selftext: string,
    comments: seq<Comment>)

  /**
   * What the recipe check receives: a submission, or a comment together with
   * the submission its `link_id` names (the result of the feed's lookup by id).
   */
  datatype Post = SubmissionPost(submission: Submission) | CommentPost(comment: Comment, parent: Submission)
  {
    function Id(): string
    {
      match this
      case SubmissionPost(s) => s.id
      case CommentPost(c, _) => c.id
    }

    function Author(): Option<string>
    {
      match this
      case SubmissionPost(s) => s.author
      case CommentPost(c, _) => c.author
    }

    function Score(): int
    {
      match this
      case SubmissionPost(s) => s.score
      case CommentPost(c, _) => c.score
    }

    function Created(): int
    {
      match this
      case SubmissionPost(s) => s.created
      case CommentPost(c, _) => c.created
    }

    /** The text scanned for a recipe: a submission's selftext, a comment's body. */
    function Content(): string
    {
      match this
      case SubmissionPost(s) => s.selftext
      case CommentPost(c, _) => c.body
    }

    /** The submission whose thread the post belongs to: itself, or a comment's parent. */
    function Thread(): Submission
    {
      match this
      case SubmissionPost(s) => s
      case CommentPost(_, p) => p
    }

    /** A submission's own title, and the empty string for a comment. */
    function Title(): string
    {
      match this
      case SubmissionPost(s) => s.title
      case CommentPost(_, _) => ""
    }

    /** The link stored with a recipe: the permalink, or the parent's permalink followed by the comment id. */
    function Url(): (u: string)
      ensures SubmissionPost? ==> u == submission.permalink
      ensures CommentPost? ==> u == parent.permalink + comment.id
    {
      match this
      case SubmissionPost(s) => s.permalink
      case CommentPost(c, p) => p.permalink + c.id
    }
  }
}
