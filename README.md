# AWS plugin tables: maintenance windows and IAM users

This project models the data-shaping logic of two tables in the Steampipe AWS plugin. The plugin exposes cloud resources as SQL tables to the Steampipe query engine.

- `aws_ssm_maintenance_window` (`aws/table_aws_ssm_maintenance_window.go`):
  - listing the windows page by page into the host's row stream;
  - the row item built for each listed window;
  - the id the get hydrate looks up;
  - the `akas` alias ARN;
  - the conversion of a tag list to the `tags` map.
- `aws_iam_user` (`aws/table_aws_iam_user.go`):
  - the item built from a get query's `name` key;
  - listing users page by page;
  - the tag and permissions-boundary columns;
  - the attached-policy ARNs;
  - the `inline_policies` column. That column fetches one policy per name concurrently and then aggregates the outcomes.

Every cloud call is given to the model as its outcome: a `Result` value, or a total function from a name to a `Result` when the call is made once per name. Creating a session is given the same way (`session: Result<()>`). A paginated listing is given as the items of each page, plus the error of the request after the last page (`None` when that page was the last).

The host's row stream (`d.StreamListItem`) is the class `Host.RowStream`, and the list functions append to its `rows`. The AWS SDK's page driver hands each page to the table's callback with an "is last page" flag, and it stops when the callback returns false or the pages run out. It is written as the loop of each list method. The callback is a method of its own.

Go's nil values are `Option`s. A nil slice and an empty slice are different values (`Wrappers.Slice`), and so are a nil map and an empty map. The tables return these to the host, which renders them differently (JSON `null` against `[]` or `{}`).

The concurrent inline-policy fetches are modelled by the order in which they finish: `order` lists the policy indices in completion order. Channel contents are the outcomes taken in that order. The results are proved for every such order.

## Model

| member | source | states |
|---|---|---|
| `Host.QualString` | aws/table_aws_iam_user.go:133-134 | a key qualifier's string value, or "" when the qualifier is missing or does not hold a string |
| `Paging.FlattenConcat` | aws/table_aws_ssm_maintenance_window.go:191-211 | the items listed depend only on the concatenation of the pages: splitting a run of pages anywhere lists the same items in the same order |
| `Paging.FlattenMembership` | aws/table_aws_iam_user.go:150-158 | an item is listed exactly when it is on some page, so nothing is lost or invented |
| `Paging.FlattenLength` | aws/table_aws_iam_user.go:153-155 | the number of items listed is the sum of the page sizes |
| `Tags.TagListToTags` | aws/table_aws_ssm_maintenance_window.go:329-343 | a nil tag list gives no map; a non-nil list, even an empty one, gives a map, equal to the list's tags applied in order |
| `Tags.TagMapKeys` | aws/table_aws_ssm_maintenance_window.go:337-339 | the map's keys are exactly the keys that occur in the list |
| `Tags.TagMapLastWins` | aws/table_aws_iam_user.go:214-216 | each key maps to the value of its last occurrence in the list |
| `Tags.TagMapValuesFromTags` | aws/table_aws_iam_user.go:213-216 | every entry of the map is a (key, value) pair that occurs in the list |
| `Hydrate.CheckedCall` | aws/table_aws_ssm_maintenance_window.go:152-170 | a hydrate fails exactly when the session or the call fails, with the session's error first, and otherwise returns the call's output unchanged |
| `Hydrate.DiscardingCall` | aws/table_aws_iam_user.go:197-204 | with the call's error discarded, the hydrate fails only when the session fails; after a failed call it carries on with no usable output (the SDK's zero-valued output) |
| `Hydrate.DiscardingCallLosesError` | aws/table_aws_iam_user.go:201-204 | with a working session and a failing call, the error is lost: the as-written form goes on with no usable output, and the checked form reports the error |
| `Hydrate.CallsAgreeOnSuccess` | aws/table_aws_iam_user.go:247-250 | when the call succeeds, the as-written and the checked forms agree |
| `SsmMaintenanceWindow.ListedWindow` | aws/table_aws_ssm_maintenance_window.go:195-206 | a listed window's row item copies the ten listed fields unchanged; the start and end dates, and the fields only the get call returns, are left unset |
| `SsmMaintenanceWindow.StreamWindowPage` | aws/table_aws_ssm_maintenance_window.go:193-210 | the callback streams one row item per window of the page, in page order, and continues unless the page is the last |
| `SsmMaintenanceWindow.ListWindows` | aws/table_aws_ssm_maintenance_window.go:175-214 | the rows streamed are the row items of every page's windows, in page order, and the request error, if any, is returned; a session failure streams nothing |
| `SsmMaintenanceWindow.LookupWindowId` | aws/table_aws_ssm_maintenance_window.go:144-150 | the id looked up is the row item's WindowId when there is an item, and otherwise the `window_id` key qualifier |
| `SsmMaintenanceWindow.GetWindow` | aws/table_aws_ssm_maintenance_window.go:134-171 | the get hydrate fails with the session's error, or returns whatever the get call returns for the chosen id |
| `SsmMaintenanceWindow.HydrateListedWindow` | aws/table_aws_ssm_maintenance_window.go:145-147 | hydrating a listed row fetches the window that was listed, whatever the query's qualifiers are |
| `SsmMaintenanceWindow.WindowAkas` | aws/table_aws_ssm_maintenance_window.go:216-227 | the aliases are exactly one ARN built from the partition, region, account and window id, or the common-columns error |
| `SsmMaintenanceWindow.WindowArnFields` | aws/table_aws_ssm_maintenance_window.go:224 | split at its colons, the alias reads back as `arn`, partition, `ssm`, region, account and `maintenancewindow/<id>` |
| `SsmMaintenanceWindow.WindowArnInjective` | aws/table_aws_ssm_maintenance_window.go:224 | within one partition, region and account, different window ids give different aliases |
| `IamUser.UserFromKey` | aws/table_aws_iam_user.go:132-139 | the get item's UserName is the `name` qualifier and every other field is unset |
| `IamUser.StreamUserPage` | aws/table_aws_iam_user.go:152-157 | the callback streams every user of the page in order and always asks for more |
| `IamUser.ListUsers` | aws/table_aws_iam_user.go:143-161 | the rows streamed are every user of every page, in page order, and the request error, if any, is returned |
| `IamUser.BoundaryFields` | aws/table_aws_iam_user.go:208-223 | the boundary ARN and type are copied when the boundary and its ARN are set, and both are "" otherwise |
| `IamUser.GetUserData` | aws/table_aws_iam_user.go:187-231 | when GetUser succeeds: TagsRaw is the user's tag list; Tags is nil exactly when that list is nil and is otherwise the last-wins tag map; the boundary columns follow `BoundaryFields`. A session or call failure is reported |
| `IamUser.GetAttachedPolicyArns` | aws/table_aws_iam_user.go:233-261 | the ARNs have the length and order of the attached policies, one PolicyArn each; no policies gives a nil list; failures are reported |
| `IamUserInlinePolicies.InlinePolicy` | aws/table_aws_iam_user.go:357-388 | a fetch fails exactly when the call, the URL-unescaping or the JSON decoding fails, with that error; with no document it gives an empty map; otherwise it gives a map of exactly PolicyDocument (the decoded document) and PolicyName |
| `IamUserInlinePolicies.Deliver` | aws/table_aws_iam_user.go:346-355 | each finished fetch puts its error on the error channel or its map on the policy channel, in completion order |
| `IamUserInlinePolicies.Drain` | aws/table_aws_iam_user.go:337-343 | the result holds every map of the policy channel in order, and is nil exactly when the channel is empty |
| `IamUserInlinePolicies.ErrorsExactlyWhenFailure` | aws/table_aws_iam_user.go:332-335 | the error channel is non-empty exactly when some fetch failed |
| `IamUserInlinePolicies.FirstErrorIsEarliest` | aws/table_aws_iam_user.go:332-334 | the first error received is that of the first failed fetch to finish |
| `IamUserInlinePolicies.PermutedSuccesses` | aws/table_aws_iam_user.go:339-341 | outcomes that are the same up to order give the same maps up to order |
| `IamUserInlinePolicies.PermutedFailures` | aws/table_aws_iam_user.go:350-351 | outcomes that are the same up to order fail together |
| `IamUserInlinePolicies.CompletionOrderPermutes` | aws/table_aws_iam_user.go:321-330 | taking the outcomes in any completion order permutes them |
| `IamUserInlinePolicies.FirstArrivedError` | aws/table_aws_iam_user.go:332-335 | when a fetch failed, the error returned belongs to a failed fetch, and every fetch that finished before it succeeded |
| `IamUserInlinePolicies.AllArrivedMaps` | aws/table_aws_iam_user.go:337-343 | when no fetch failed, one map per fetch arrives, the same maps as in name order |
| `IamUserInlinePolicies.Aggregate` | aws/table_aws_iam_user.go:318-344 | the aggregate fails exactly when some fetch fails, with the first error to arrive; otherwise it holds exactly one map per fetch as a multiset, and is nil for zero fetches |
| `IamUserInlinePolicies.GetUserInlinePolicies` | aws/table_aws_iam_user.go:307-344 | a session failure is returned; otherwise the column fails exactly when a policy's fetch fails, and otherwise holds one map per policy name, in no promised order, or nil for no names |

## Findings

| source | as written | input that shows it | evidently intended | confidence | as-written member | corrected member |
|---|---|---|---|---|---|---|
| aws/table_aws_iam_user.go:201 | The GetUser error is assigned to the blank identifier. The `err` test that follows checks the session error a second time. The same pattern is at line 247 (ListAttachedUserPolicies) and line 277 (ListGroupsForUser). | A working session and a failing call (e.g. access denied). The SDK (aws-sdk-go v1, line 9) returns its zero-valued output along with the error. Line 211 then dereferences the nil `User` field of that output and panics. At line 254 the nil `AttachedPolicies` gives `(nil, nil)`, so `attached_policy_arns` silently becomes null. The groups column likewise silently takes the empty output, and no error is reported in either case. | Assign the call's error to `err`, so the hydrate returns that error | high; not executed | `Hydrate.DiscardingCallLosesError` | `Hydrate.CheckedCall` |

The model's hydrates (`IamUser.GetUserData`, `IamUser.GetAttachedPolicyArns`) use the corrected `Hydrate.CheckedCall`.

## Left out

- Table and column declarations, transforms, hydrate dependency lists, region matrices and `ShouldIgnoreError`: the host engine interprets them, and they contain no logic of these files.
- `aws/plugin.go` (the static table registry and the default not-found error codes) is not part of this model.
- Session creation (`SsmService`, `IAMService`), `getCommonColumns` and logging: external. Their outcomes are parameters. The matrix region only selects the session.
- The AWS calls themselves (requests, retries, the network): their outcomes are parameters.
- Goroutines, the wait group and channel buffering are not modelled. Only the completion order of the fetches, a parameter, is kept.
- The internals of `url.QueryUnescape` and `json.Unmarshal` are not modelled. They are parameters, total functions returning a value or an error. JSON numbers keep their literal text instead of becoming floats.
- The pass-through hydrates are each `Hydrate.CheckedCall` on their own call, and have no member of their own. They are `getIamUser`, `getAwsSSMMaintenanceWindowTags`, `getMaintenanceWindowTargets`, `getMaintenanceWindowTasks` and `listAwsIamUserInlinePolicies`. `getAwsIamUserGroups` is `Hydrate.DiscardingCall` with the output returned unchanged (see Findings). `None` there stands for no usable output, the SDK's zero-valued output that a failed call returns.
- Nil dereferences of fields the API always sets are not modelled: tag keys and values, PolicyArn, the PolicyName of GetUserPolicy, and PermissionsBoundaryType. These fields are plain strings in the model. A nil there would panic in Go.
- Failing type assertions on hydrate items and transform values: the model's types rule them out.
- SsmMaintenanceWindow.WindowAkas: requires a WindowId when the common columns are fetched, because Go panics on a nil WindowId there.
- SsmMaintenanceWindow.LookupWindowId: requires a WindowId on a present item, because Go panics on a nil WindowId there. `SsmMaintenanceWindow.GetWindow` inherits this requirement.
- IamUserInlinePolicies.Aggregate: requires `order` to be a permutation of the policy indices. The Go runtime guarantees this, because each fetch sends exactly once.
- Stopping a listing early when the host needs no more rows is host behaviour and is not modelled. A list method here hands over every page.
- Every per-name fetch runs: `getAwsIamUserInlinePolicies` starts one goroutine per policy name (aws/table_aws_iam_user.go:321-324) before it reads any result, so a failing fetch does not stop the others.
