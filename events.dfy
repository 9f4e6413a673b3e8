/** The inbound issue-comment event, as far as the bot looks at it, and the
    relevance filter that decides whether the bot should act on it. */
module Events {
  import opened Strings

  datatype Option<+T> = None | Some(value: T)

  /** A JSON value, for the `pull_request` field whose truthiness is tested. */
  datatype Json =
    | JNull
    | JBool(b: bool)
    | JNumber(n: int)
    | JString(s: string)
    | JArray(items: seq<Json>)
    | JObject(fields: map<string, Json>)

  /** The JSON values Python treats as false: `None`, `False`, `0`, `""`, `[]` and `{}`. */
  const FALSY: seq<Json> := [JNull, JBool(false), JNumber(0), JString(""), JArray([]), JObject(map[])]

  /** Python's truth value of a decoded JSON value: false exactly for the listed false values. */
  predicate Truthy(v: Json)
    ensures Truthy(v) <==> v !in FALSY
  {
    match v
    case JNull => false
    case JBool(b) => b
    case JNumber(n) => n != 0
    case JString(s) => s != ""
    case JArray(items) => items != []
    case JObject(fields) => fields != map[]
  }

  /** The `issue` object of the event; `None` stands for an absent key. */
  datatype IssuePayload = IssuePayload(pullRequest: Option<Json>, state: Option<string>)

  /** The `comment` object of the event; `None` stands for an absent key. */
  datatype CommentPayload = CommentPayload(body: Option<string>, issueUrl: Option<string>)

  /** The fields of a webhook event the bot reads; `None` stands for an absent key. */
  datatype Event = Event(action: Option<string>, issue: Option<IssuePayload>, comment: Option<CommentPayload>)

  const CREATED: string := "created"

  /** The mention that addresses the bot. */
  const MENTION: string := "@referencebot"

  /** `data.get('issue', {}).get('pull_request')`. */
  function PullRequestField(e: Event): Option<Json> {
    if e.issue.Some? then e.issue.value.pullRequest else None
  }

  /** `data.get('comment', {}).get('body', '')`. */
  function BodyOrEmpty(e: Event): string {
    if e.comment.Some? && e.comment.value.body.Some? then e.comment.value.body.value else ""
  }

  /** `is_relevant`: three checks in order, each a failed lookup counting as a failed check. */
  function IsRelevant(e: Event): (r: bool)
    ensures r <==>
      && e.action == Some(CREATED)
      && e.issue.Some? && e.issue.value.pullRequest.Some? && Truthy(e.issue.value.pullRequest.value)
      && e.comment.Some? && e.comment.value.body.Some?
      && Contains(Lower(e.comment.value.body.value), MENTION)
  {
    if e.action != Some(CREATED) then
      false
    else if !(PullRequestField(e).Some? && Truthy(PullRequestField(e).value)) then
      false
    else if !Contains(Lower(BodyOrEmpty(e)), MENTION) then
      false
    else
      true
  }

  /** `data['issue']['pull_request']['url']` can be looked up: the pull request
      is an object with a `url` key (any other value makes the lookup raise). */
  predicate HasPullRequestUrl(e: Event)
    ensures HasPullRequestUrl(e) ==> PullRequestField(e).Some? && Truthy(PullRequestField(e).value)
  {
    && e.issue.Some? && e.issue.value.pullRequest.Some?
    && e.issue.value.pullRequest.value.JObject?
    && "url" in e.issue.value.pullRequest.value.fields
  }

  /** A relevant event always has a comment body. */
  lemma RelevantHasBody(e: Event)
    requires IsRelevant(e)
    ensures e.comment.Some? && e.comment.value.body.Some?
    ensures BodyOrEmpty(e) == e.comment.value.body.value
  {
  }

  /** An event with no action, no issue, no comment or no body is never relevant. */
  lemma MissingFieldNotRelevant(e: Event)
    requires e.action.None? || e.issue.None? || e.comment.None? || e.comment.value.body.None?
    ensures !IsRelevant(e)
  {
  }

  /** The mention test ignores ASCII case: a body mentioning the bot in any
      capitalisation `t` (such as `@ReferenceBot`) passes it. */
  lemma MentionAnyCase(e: Event, t: string)
    requires e.action == Some(CREATED)
    requires e.issue.Some? && e.issue.value.pullRequest.Some? && Truthy(e.issue.value.pullRequest.value)
    requires e.comment.Some? && e.comment.value.body.Some?
    requires Lower(t) == MENTION && Contains(e.comment.value.body.value, t)
    ensures IsRelevant(e)
  {
    LowerKeepsContains(e.comment.value.body.value, t);
  }
}
