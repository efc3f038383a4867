/** The `aws_iam_user` table: the item built from a get query's key, listing
    users page by page, and the hydrates that shape tags, the permissions
    boundary and the attached policies. */
module IamUser {
  import opened Wrappers
  import opened Host
  import opened Paging
  import opened Tags
  import opened Hydrate

  /** The policy that bounds a user's permissions; the API sets its type
      whenever it sets its ARN. */
  datatype PermissionsBoundary = PermissionsBoundary(
    permissionsBoundaryArn: Option<string>,
    permissionsBoundaryType: string)

  /** An IAM user, the table's row item. Every field may be nil. */
  datatype User = User(
    arn: Option<string>,
    createDate: Option<Timestamp>,
    passwordLastUsed: Option<Timestamp>,
    path: Option<string>,
    permissionsBoundary: Option<PermissionsBoundary>,
    tags: Slice<Tag>,
    userId: Option<string>,
    userName: Option<string>)

  /** A user with no field set. */
  const Unset := User(None, None, None, None, None, None, None, None)

  /** The row item of a get query: a user named by the `name` key qualifier,
      with every other field unset until the get hydrate fills it in. */
  function UserFromKey(quals: map<string, QualValue>): (u: User)
    ensures u.userName == Some(QualString(quals, "name"))
    ensures u.(userName := None) == Unset
  {
    Unset.(userName := Some(QualString(quals, "name")))
  }

  /** The page callback of the list function: streams every user of the page,
      in order, and always asks for more. */
  method StreamUserPage(stream: RowStream<User>, page: seq<User>, lastPage: bool) returns (more: bool)
    modifies stream
    ensures stream.rows == old(stream.rows) + page
    ensures more
  {
    var j := 0;
    while j < |page|
      invariant 0 <= j <= |page|
      invariant stream.rows == old(stream.rows) + page[..j]
    {
      assert page[..j + 1] == page[..j] + [page[j]];
      stream.StreamListItem(page[j]);
      j := j + 1;
    }
    assert page[..|page|] == page;
    more := true;
  }

  /** The list function. `pages` are the users of each page `ListUsers`
      returns, in order; `failure` is the error of the request after the last
      of them, or `None` when that page was the last. The page driver hands
      every page to the callback, telling it whether the page is the last,
      and stops when the callback says so or the pages run out. */
  method ListUsers(stream: RowStream<User>, session: Result<()>, pages: seq<seq<User>>, failure: Option<Error>)
    returns (err: Option<Error>)
    modifies stream
    ensures session.Err? ==> err == Some(session.error) && stream.rows == old(stream.rows)
    ensures session.Ok? ==> err == failure
    ensures session.Ok? ==> stream.rows == old(stream.rows) + Flatten(pages)
  {
    if session.Err? {
      return Some(session.error);
    }
    var i := 0;
    var more := true;
    while i < |pages| && more
      invariant 0 <= i <= |pages|
      invariant more
      invariant stream.rows == old(stream.rows) + Flatten(pages[..i])
    {
      var lastPage := i == |pages| - 1 && failure.None?;
      more := StreamUserPage(stream, pages[i], lastPage);
      FlattenSnoc(pages[..i], pages[i]);
      assert pages[..i + 1] == pages[..i] + [pages[i]];
      i := i + 1;
    }
    assert pages[..|pages|] == pages;
    err := failure;
  }

  /** The `permissions_boundary_arn` and `permissions_boundary_type` values:
      both copied from the boundary when it and its ARN are set, both empty
      otherwise. */
  function BoundaryFields(boundary: Option<PermissionsBoundary>): (fields: (string, string))
    ensures boundary.Some? && boundary.value.permissionsBoundaryArn.Some? ==>
              fields == (boundary.value.permissionsBoundaryArn.value, boundary.value.permissionsBoundaryType)
    ensures !(boundary.Some? && boundary.value.permissionsBoundaryArn.Some?) ==> fields == ("", "")
  {
    if boundary.Some? && boundary.value.permissionsBoundaryArn.Some? then
      (boundary.value.permissionsBoundaryArn.value, boundary.value.permissionsBoundaryType)
    else
      ("", "")
  }

  /** What the user-data hydrate returns: the raw tag list, the tag map and
      the two boundary columns. */
  datatype UserData = UserData(
    tagsRaw: Slice<Tag>,
    tags: Option<map<string, string>>,
    permissionsBoundaryArn: string,
    permissionsBoundaryType: string)

  /** The user-data hydrate, given the session and the outcome of `GetUser`
      for the row's user name. A failed `GetUser` is reported (see
      `CheckedCall`). No tags leave both tag columns nil. */
  method GetUserData(session: Result<()>, response: Result<User>) returns (r: Result<UserData>)
    ensures r.Err? <==> session.Err? || response.Err?
    ensures session.Err? ==> r == Err(session.error)
    ensures session.Ok? && response.Err? ==> r == Err(response.error)
    ensures r.Ok? ==> r.value.tagsRaw == response.value.tags
    ensures r.Ok? ==> (r.value.tags.None? <==> response.value.tags.None?)
    ensures r.Ok? && response.value.tags.Some? ==> r.value.tags.value == TagMap(response.value.tags.value)
    ensures r.Ok? ==> (r.value.permissionsBoundaryArn, r.value.permissionsBoundaryType)
                      == BoundaryFields(response.value.permissionsBoundary)
  {
    var call := CheckedCall(session, response);
    if call.Err? {
      return Err(call.error);
    }
    var user := call.value;
    var tagsRaw: Slice<Tag> := None;
    var tags: Option<map<string, string>> := None;
    if user.tags.Some? {
      tagsRaw := user.tags;
      tags := TagListToTags(user.tags);
    }
    var (boundaryArn, boundaryType) := BoundaryFields(user.permissionsBoundary);
    r := Ok(UserData(tagsRaw, tags, boundaryArn, boundaryType));
  }

  /** A managed policy attached to a user; the API always sets both strings. */
  datatype AttachedPolicy = AttachedPolicy(policyArn: string, policyName: string)

  /** The attached-policies hydrate, given the session and the policies
      `ListAttachedUserPolicies` returns. The ARNs come out in the order of
      the policies, one each; no policies (a nil or an empty list) give a nil
      list. A failed call is reported (see `CheckedCall`). */
  method GetAttachedPolicyArns(session: Result<()>, response: Result<Slice<AttachedPolicy>>)
    returns (r: Result<Slice<string>>)
    ensures r.Err? <==> session.Err? || response.Err?
    ensures session.Err? ==> r == Err(session.error)
    ensures session.Ok? && response.Err? ==> r == Err(response.error)
    ensures r.Ok? ==> (r.value.None? <==> |Elems(response.value)| == 0)
    ensures r.Ok? ==> |Elems(r.value)| == |Elems(response.value)|
    ensures r.Ok? ==> forall i :: 0 <= i < |Elems(r.value)| ==> Elems(r.value)[i] == Elems(response.value)[i].policyArn
  {
    var call := CheckedCall(session, response);
    if call.Err? {
      return Err(call.error);
    }
    var arns: Slice<string> := None;
    if call.value.Some? {
      var policies := call.value.value;
      var i := 0;
      while i < |policies|
        invariant 0 <= i <= |policies|
        invariant arns.None? <==> i == 0
        invariant |Elems(arns)| == i
        invariant forall k :: 0 <= k < i ==> Elems(arns)[k] == policies[k].policyArn
      {
        arns := Append(arns, policies[i].policyArn);
        i := i + 1;
      }
    }
    r := Ok(arns);
  }
}
