/** The responses the handlers produce, with the framework calls that build
    them (`jsonify`, `render_template`, `redirect`, `abort`) reduced to data. */
module Http {
  import opened Wrappers
  import opened Json
  import opened Posts

  /** The HTML templates the pages render. */
  datatype Template = IndexTemplate | NewPostTemplate | PostDetailTemplate | EditPostTemplate

  /** The context handed to a template. */
  datatype View =
    | ListView(posts: seq<Post>)
    | PostView(post: Post)
      /** A form shown again with an error and the values that were entered;
          `postId` is present on the edit form. */
    | FormView(error: string, postId: Option<int>, entered: Draft)

  /** Where a redirect points: the index, or the detail page of a post. */
  datatype Target = ToIndex | ToPostDetail(postId: int)

  datatype Response =
    | JsonResponse(status: int, body: Json)
    | Rendered(template: Template, view: View)
    | Redirect(target: Target)
      /** `abort(status)`: an HTTP error raised out of the handler. */
    | Aborted(status: int)

  const NotFoundMessage := "Not found"
  const CreateRequiredMessage := "title, author, content are required"
  const FormRequiredMessage := "All fields are required."

  /** The JSON error object `{"error": message}`. */
  function ErrorBody(message: string): Json {
    JObject(map["error" := JStr(message)])
  }

  /** The confirmation `{"status": "deleted", "id": id}`. */
  function DeletedBody(id: int): Json {
    JObject(map["status" := JStr("deleted"), "id" := JInt(id)])
  }

  /** `[post_to_dict(p) for p in posts]`. */
  function PostDicts(posts: seq<Post>): seq<Json> {
    seq(|posts|, i requires 0 <= i < |posts| => JObject(PostToDict(posts[i])))
  }
}
