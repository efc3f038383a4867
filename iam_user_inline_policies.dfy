/** The `inline_policies` column of `aws_iam_user`: one fetch per inline policy
    name, run concurrently, then aggregated. The concurrency is modelled by the
    order in which the fetches finish, which the aggregation is given. */
module IamUserInlinePolicies {
  import opened Wrappers

  /** A decoded JSON value. Numbers keep their literal text. */
  datatype Json =
    | JNull
    | JBool(b: bool)
    | JNumber(literal: string)
    | JString(s: string)
    | JArray(items: seq<Json>)
    | JObject(members: map<string, Json>)

  /** One inline policy as the column shows it. */
  type PolicyMap = map<string, Json>

  /** What `GetUserPolicy` returns: the URL-encoded policy document, which may
      be missing, and the policy's name, which the API always sets. */
  datatype UserPolicyOutput = UserPolicyOutput(policyDocument: Option<string>, policyName: string)

  predicate HasDocument(response: Result<Option<UserPolicyOutput>>) {
    response.Ok? && response.value.Some? && response.value.value.policyDocument.Some?
  }

  /** Fetching one inline policy, given the outcome of `GetUserPolicy` for it
      (`None` for a nil output), the URL-unescaping and the JSON decoding.
      The fetch fails when the call, the unescaping or the decoding fails,
      with that error; without a document it yields an empty map; otherwise a
      map of exactly the decoded document and the policy's name. */
  function InlinePolicy(response: Result<Option<UserPolicyOutput>>,
                        unescape: string -> Result<string>, decode: string -> Result<Json>): (r: Result<PolicyMap>)
    ensures response.Err? ==> r == Err(response.error)
    ensures response.Ok? && !HasDocument(response) ==> r == Ok(map[])
    ensures HasDocument(response) ==>
              var unescaped := unescape(response.value.value.policyDocument.value);
              && (unescaped.Err? ==> r == Err(unescaped.error))
              && (unescaped.Ok? && decode(unescaped.value).Err? ==> r == Err(decode(unescaped.value).error))
              && (r.Ok? <==> unescaped.Ok? && decode(unescaped.value).Ok?)
    ensures HasDocument(response) && r.Ok? ==>
              && r.value.Keys == {"PolicyDocument", "PolicyName"}
              && r.value["PolicyName"] == JString(response.value.value.policyName)
              && r.value["PolicyDocument"] == decode(unescape(response.value.value.policyDocument.value).value).value
  {
    match response
    case Err(e) => Err(e)
    case Ok(output) =>
      if output.Some? && output.value.policyDocument.Some? then
        match unescape(output.value.policyDocument.value)
        case Err(e) => Err(e)
        case Ok(decoded) =>
          match decode(decoded)
          case Err(e) => Err(e)
          case Ok(rawPolicy) =>
            Ok(map["PolicyDocument" := rawPolicy, "PolicyName" := JString(output.value.policyName)])
      else
        Ok(map[])
  }

  predicate HasError<T>(outcomes: seq<Result<T>>) {
    exists i :: 0 <= i < |outcomes| && outcomes[i].Err?
  }

  /** The errors among some outcomes, in order. */
  function Errors<T>(outcomes: seq<Result<T>>): seq<Error> {
    if outcomes == [] then []
    else
      var last := outcomes[|outcomes| - 1];
      Errors(outcomes[..|outcomes| - 1]) + (if last.Err? then [last.error] else [])
  }

  /** The values of the successful outcomes, in order. */
  function Successes<T>(outcomes: seq<Result<T>>): seq<T> {
    if outcomes == [] then []
    else
      var last := outcomes[|outcomes| - 1];
      Successes(outcomes[..|outcomes| - 1]) + (if last.Ok? then [last.value] else [])
  }

  lemma {:induction false} ErrorsExactlyWhenFailure<T>(outcomes: seq<Result<T>>)
    ensures Errors(outcomes) != [] <==> HasError(outcomes)
    decreases |outcomes|
  {
    if outcomes != [] {
      var init := outcomes[..|outcomes| - 1];
      ErrorsExactlyWhenFailure(init);
      if HasError(init) {
        var i :| 0 <= i < |init| && init[i].Err?;
        assert outcomes[i].Err?;
      }
      if HasError(outcomes) && !outcomes[|outcomes| - 1].Err? {
        var i :| 0 <= i < |outcomes| && outcomes[i].Err?;
        assert init[i].Err?;
      }
    }
  }

  /** The first error listed is that of the first failed outcome. */
  lemma {:induction false} FirstErrorIsEarliest<T>(outcomes: seq<Result<T>>)
    requires Errors(outcomes) != []
    ensures exists k :: 0 <= k < |outcomes| && outcomes[k] == Err(Errors(outcomes)[0])
                        && forall j :: 0 <= j < k ==> outcomes[j].Ok?
    decreases |outcomes|
  {
    var init := outcomes[..|outcomes| - 1];
    if Errors(init) != [] {
      FirstErrorIsEarliest(init);
      var k :| 0 <= k < |init| && init[k] == Err(Errors(init)[0]) && forall j :: 0 <= j < k ==> init[j].Ok?;
      assert outcomes[k] == init[k];
      forall j | 0 <= j < k ensures outcomes[j].Ok? {
        assert outcomes[j] == init[j];
      }
    } else {
      ErrorsExactlyWhenFailure(init);
      forall j | 0 <= j < |init| ensures outcomes[j].Ok? {
        assert outcomes[j] == init[j];
      }
    }
  }

  /** Each value occurs among the successes as often as its success occurs
      among the outcomes. */
  lemma {:induction false} SuccessesCount<T>(outcomes: seq<Result<T>>, v: T)
    ensures multiset(Successes(outcomes))[v] == multiset(outcomes)[Ok(v)]
    decreases |outcomes|
  {
    if outcomes != [] {
      var init := outcomes[..|outcomes| - 1];
      SuccessesCount(init, v);
      assert outcomes == init + [outcomes[|outcomes| - 1]];
    }
  }

  /** With no failure, there is one success per outcome, in the same order. */
  lemma {:induction false} SuccessesOfSuccesses<T>(outcomes: seq<Result<T>>)
    requires !HasError(outcomes)
    ensures |Successes(outcomes)| == |outcomes|
    ensures forall i :: 0 <= i < |outcomes| ==> Successes(outcomes)[i] == outcomes[i].value
    decreases |outcomes|
  {
    if outcomes != [] {
      var init := outcomes[..|outcomes| - 1];
      assert !HasError(init) by {
        forall i | 0 <= i < |init| ensures init[i].Ok? {
          assert init[i] == outcomes[i];
        }
      }
      SuccessesOfSuccesses(init);
    }
  }

  lemma SameCounts<T>(x: seq<T>, y: seq<T>)
    requires forall v: T :: multiset(x)[v] == multiset(y)[v]
    ensures multiset(x) == multiset(y)
  {
  }

  /** Outcomes that are the same up to order have the same successes up to
      order. */
  lemma PermutedSuccesses<T>(a: seq<Result<T>>, b: seq<Result<T>>)
    requires multiset(a) == multiset(b)
    ensures multiset(Successes(a)) == multiset(Successes(b))
  {
    forall v: T ensures multiset(Successes(a))[v] == multiset(Successes(b))[v] {
      SuccessesCount(a, v);
      SuccessesCount(b, v);
      assert multiset(a)[Ok(v)] == multiset(b)[Ok(v)];
    }
    SameCounts(Successes(a), Successes(b));
  }

  /** Outcomes that are the same up to order fail together. */
  lemma PermutedFailures<T>(a: seq<Result<T>>, b: seq<Result<T>>)
    requires multiset(a) == multiset(b)
    ensures HasError(a) <==> HasError(b)
  {
    if HasError(a) {
      var i :| 0 <= i < |a| && a[i].Err?;
      assert a[i] in multiset(b);
    }
    if HasError(b) {
      var i :| 0 <= i < |b| && b[i].Err?;
      assert b[i] in multiset(a);
    }
  }

  /** The indices 0, 1, ..., n - 1. */
  function Indices(n: nat): seq<nat> {
    seq(n, i requires 0 <= i < n => i)
  }

  predicate IndicesBelow(p: seq<nat>, n: nat) {
    forall k :: 0 <= k < |p| ==> p[k] < n
  }

  /** The elements of `s` in the order `p` lists their indices. */
  function Reorder<T>(s: seq<T>, p: seq<nat>): (r: seq<T>)
    requires IndicesBelow(p, |s|)
    ensures |r| == |p|
  {
    seq(|p|, k requires 0 <= k < |p| => s[p[k]])
  }

  lemma ReorderConcat<T>(s: seq<T>, a: seq<nat>, b: seq<nat>)
    requires IndicesBelow(a, |s|) && IndicesBelow(b, |s|)
    ensures IndicesBelow(a + b, |s|)
    ensures Reorder(s, a + b) == Reorder(s, a) + Reorder(s, b)
  {
  }

  lemma MultisetWithout(q: seq<nat>, j: nat)
    requires j < |q|
    ensures multiset(q[..j] + q[j + 1..]) == multiset(q) - multiset{q[j]}
  {
    assert q == q[..j] + [q[j]] + q[j + 1..];
  }

  lemma ReorderFirst<T>(s: seq<T>, p: seq<nat>)
    requires IndicesBelow(p, |s|) && p != []
    ensures IndicesBelow(p[1..], |s|)
    ensures multiset(Reorder(s, p)) == multiset{s[p[0]]} + multiset(Reorder(s, p[1..]))
  {
    assert p == [p[0]] + p[1..];
    ReorderConcat(s, [p[0]], p[1..]);
  }

  lemma ReorderWithout<T>(s: seq<T>, q: seq<nat>, j: nat)
    requires IndicesBelow(q, |s|) && j < |q|
    ensures IndicesBelow(q[..j] + q[j + 1..], |s|)
    ensures multiset(Reorder(s, q)) == multiset{s[q[j]]} + multiset(Reorder(s, q[..j] + q[j + 1..]))
  {
    var rest := q[..j] + q[j + 1..];
    assert IndicesBelow(rest, |s|);
    var r, r' := Reorder(s, q), Reorder(s, rest);
    assert r[..j] == r'[..j];
    assert r[j + 1..] == r'[j..];
    assert r == r[..j] + [r[j]] + r[j + 1..];
    assert r' == r'[..j] + r'[j..];
  }

  lemma {:induction false} ReorderPreservesMultiset<T>(s: seq<T>, p: seq<nat>, q: seq<nat>)
    requires IndicesBelow(p, |s|) && IndicesBelow(q, |s|)
    requires multiset(p) == multiset(q)
    ensures multiset(Reorder(s, p)) == multiset(Reorder(s, q))
    decreases |p|
  {
    if p == [] {
      assert |q| == |multiset(q)| == 0;
    } else {
      var x := p[0];
      assert x in multiset(q);
      var j :| 0 <= j < |q| && q[j] == x;
      MultisetWithout(q, j);
      assert multiset(p[1..]) == multiset(p) - multiset{x} by {
        assert p == [x] + p[1..];
      }
      ReorderFirst(s, p);
      ReorderWithout(s, q, j);
      ReorderPreservesMultiset(s, p[1..], q[..j] + q[j + 1..]);
    }
  }

  /** An order in which all of `n` fetches finish lists each index below `n`
      exactly once. */
  predicate IsCompletionOrder(order: seq<nat>, n: nat) {
    multiset(order) == multiset(Indices(n))
  }

  /** Taking outcomes in a completion order permutes them. */
  lemma CompletionOrderPermutes<T>(outcomes: seq<Result<T>>, order: seq<nat>)
    requires IsCompletionOrder(order, |outcomes|)
    ensures IndicesBelow(order, |outcomes|)
    ensures |order| == |outcomes|
    ensures multiset(Reorder(outcomes, order)) == multiset(outcomes)
  {
    var n := |outcomes|;
    forall k | 0 <= k < |order| ensures order[k] < n {
      assert order[k] in multiset(Indices(n));
    }
    assert |order| == |multiset(order)| == |multiset(Indices(n))| == n;
    ReorderPreservesMultiset(outcomes, order, Indices(n));
    assert Reorder(outcomes, Indices(n)) == outcomes;
  }

  /** The fetches finishing in completion order, each one putting its error
      on the error channel or its map on the policy channel. */
  method Deliver(outcomes: seq<Result<PolicyMap>>, order: seq<nat>)
    returns (errorCh: seq<Error>, policyCh: seq<PolicyMap>)
    requires IndicesBelow(order, |outcomes|)
    ensures errorCh == Errors(Reorder(outcomes, order))
    ensures policyCh == Successes(Reorder(outcomes, order))
  {
    ghost var arrived := Reorder(outcomes, order);
    errorCh, policyCh := [], [];
    var k := 0;
    while k < |order|
      invariant 0 <= k <= |order|
      invariant errorCh == Errors(arrived[..k])
      invariant policyCh == Successes(arrived[..k])
    {
      var outcome := outcomes[order[k]];
      if outcome.Err? {
        errorCh := errorCh + [outcome.error];
      } else {
        policyCh := policyCh + [outcome.value];
      }
      assert arrived[..k + 1][..k] == arrived[..k];
      k := k + 1;
    }
    assert arrived[..|order|] == arrived;
  }

  /** Appends every map on the policy channel, in order, to a slice that
      starts out nil: the slice stays nil when the channel is empty. */
  method Drain(policyCh: seq<PolicyMap>) returns (userPolicies: Slice<PolicyMap>)
    ensures userPolicies.None? <==> policyCh == []
    ensures Elems(userPolicies) == policyCh
  {
    userPolicies := None;
    var i := 0;
    while i < |policyCh|
      invariant 0 <= i <= |policyCh|
      invariant userPolicies.None? <==> i == 0
      invariant Elems(userPolicies) == policyCh[..i]
    {
      userPolicies := Append(userPolicies, policyCh[i]);
      i := i + 1;
    }
    assert policyCh[..|policyCh|] == policyCh;
  }

  /** When some fetch failed, the first error to arrive is the error of a
      failed fetch, and every fetch that finished before it succeeded. */
  lemma FirstArrivedError(outcomes: seq<Result<PolicyMap>>, order: seq<nat>)
    requires IsCompletionOrder(order, |outcomes|)
    requires IndicesBelow(order, |outcomes|)
    requires Errors(Reorder(outcomes, order)) != []
    ensures HasError(outcomes)
    ensures var e := Errors(Reorder(outcomes, order))[0];
            && (exists i :: 0 <= i < |outcomes| && outcomes[i] == Err(e))
            && (exists k :: 0 <= k < |order| && order[k] < |outcomes| && outcomes[order[k]] == Err(e)
                            && forall j :: 0 <= j < k ==> order[j] < |outcomes| && outcomes[order[j]].Ok?)
  {
    var arrived := Reorder(outcomes, order);
    CompletionOrderPermutes(outcomes, order);
    FirstErrorIsEarliest(arrived);
    var k :| 0 <= k < |arrived| && arrived[k] == Err(Errors(arrived)[0])
             && forall j :: 0 <= j < k ==> arrived[j].Ok?;
    assert outcomes[order[k]] == arrived[k];
    assert forall j :: 0 <= j < k ==> outcomes[order[j]] == arrived[j];
    assert arrived[k] in multiset(outcomes);
  }

  /** When no fetch failed, the maps that arrived are one per fetch, the same
      maps as in name order, only perhaps reordered. */
  lemma AllArrivedMaps(outcomes: seq<Result<PolicyMap>>, order: seq<nat>)
    requires IsCompletionOrder(order, |outcomes|)
    requires IndicesBelow(order, |outcomes|)
    requires Errors(Reorder(outcomes, order)) == []
    ensures !HasError(outcomes)
    ensures |Successes(Reorder(outcomes, order))| == |outcomes|
    ensures multiset(Successes(Reorder(outcomes, order))) == multiset(Successes(outcomes))
  {
    var arrived := Reorder(outcomes, order);
    CompletionOrderPermutes(outcomes, order);
    ErrorsExactlyWhenFailure(arrived);
    PermutedFailures(arrived, outcomes);
    PermutedSuccesses(arrived, outcomes);
    SuccessesOfSuccesses(arrived);
  }

  /** The aggregation after all fetches have finished. `outcomes[i]` is the
      outcome of the fetch for the i-th policy name and `order` the order in
      which the fetches finished. The first error on the error channel is
      returned if there is one, else every map on the policy channel, in the
      order they arrived. */
  method Aggregate(outcomes: seq<Result<PolicyMap>>, order: seq<nat>) returns (r: Result<Slice<PolicyMap>>)
    requires IsCompletionOrder(order, |outcomes|)
    ensures r.Err? <==> HasError(outcomes)
    ensures r.Err? ==> exists i :: 0 <= i < |outcomes| && outcomes[i] == Err(r.error)
    ensures r.Err? ==> exists k :: 0 <= k < |order| && order[k] < |outcomes| && outcomes[order[k]] == Err(r.error)
                                   && forall j :: 0 <= j < k ==> order[j] < |outcomes| && outcomes[order[j]].Ok?
    ensures r.Ok? ==> (r.value.None? <==> |outcomes| == 0)
    ensures r.Ok? ==> |Elems(r.value)| == |outcomes|
    ensures r.Ok? ==> multiset(Elems(r.value)) == multiset(Successes(outcomes))
  {
    CompletionOrderPermutes(outcomes, order);
    var errorCh, policyCh := Deliver(outcomes, order);
    if errorCh != [] {
      FirstArrivedError(outcomes, order);
      return Err(errorCh[0]);
    }
    AllArrivedMaps(outcomes, order);
    var userPolicies := Drain(policyCh);
    r := Ok(userPolicies);
  }

  /** The outcome of the fetch for each policy name, in name order.
      `getUserPolicy` is `GetUserPolicy` for the row's user. */
  function Outcomes(policyNames: seq<string>, getUserPolicy: string -> Result<Option<UserPolicyOutput>>,
                    unescape: string -> Result<string>, decode: string -> Result<Json>): (os: seq<Result<PolicyMap>>)
    ensures |os| == |policyNames|
  {
    seq(|policyNames|, i requires 0 <= i < |policyNames| =>
      InlinePolicy(getUserPolicy(policyNames[i]), unescape, decode))
  }

  /** The inline-policies hydrate, given the session, the policy names the
      inline-policy listing hydrate found for the user, and the order in which
      the per-name fetches finish. Any failed fetch fails the column with one
      of the fetch errors; otherwise the column holds one map per name, in no
      promised order, and is nil when the user has no inline policy. */
  method GetUserInlinePolicies(session: Result<()>, policyNames: seq<string>,
                               getUserPolicy: string -> Result<Option<UserPolicyOutput>>,
                               unescape: string -> Result<string>, decode: string -> Result<Json>,
                               order: seq<nat>)
    returns (r: Result<Slice<PolicyMap>>)
    requires IsCompletionOrder(order, |policyNames|)
    ensures session.Err? ==> r == Err(session.error)
    ensures session.Ok? ==> (r.Err? <==> HasError(Outcomes(policyNames, getUserPolicy, unescape, decode)))
    ensures session.Ok? && r.Err? ==>
              exists i :: 0 <= i < |policyNames| && Outcomes(policyNames, getUserPolicy, unescape, decode)[i] == Err(r.error)
    ensures r.Ok? ==> (r.value.None? <==> |policyNames| == 0)
    ensures r.Ok? ==> |Elems(r.value)| == |policyNames|
    ensures r.Ok? ==> multiset(Elems(r.value)) == multiset(Successes(Outcomes(policyNames, getUserPolicy, unescape, decode)))
  {
    if session.Err? {
      return Err(session.error);
    }
    var outcomes := Outcomes(policyNames, getUserPolicy, unescape, decode);
    r := Aggregate(outcomes, order);
  }
}
