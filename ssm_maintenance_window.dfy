/** The `aws_ssm_maintenance_window` table: listing maintenance windows page by
    page, the get hydrate and its lookup id, and the `akas` column. */
module SsmMaintenanceWindow {
  import opened Wrappers
  import opened Host
  import opened Paging
  import opened Hydrate

  /** One window as `DescribeMaintenanceWindows` lists it. Every field may be nil. */
  datatype WindowIdentity = WindowIdentity(
    cutoff: Option<int>,
    description: Option<string>,
    duration: Option<int>,
    enabled: Option<bool>,
    endDate: Option<string>,
    name: Option<string>,
    nextExecutionTime: Option<string>,
    schedule: Option<string>,
    scheduleOffset: Option<int>,
    scheduleTimezone: Option<string>,
    startDate: Option<string>,
    windowId: Option<string>)

  /** One window as `GetMaintenanceWindow` returns it: the table's row item. */
  datatype MaintenanceWindow = MaintenanceWindow(
    allowUnassociatedTargets: Option<bool>,
    createdDate: Option<Timestamp>,
    cutoff: Option<int>,
    description: Option<string>,
    duration: Option<int>,
    enabled: Option<bool>,
    endDate: Option<string>,
    modifiedDate: Option<Timestamp>,
    name: Option<string>,
    nextExecutionTime: Option<string>,
    schedule: Option<string>,
    scheduleOffset: Option<int>,
    scheduleTimezone: Option<string>,
    startDate: Option<string>,
    windowId: Option<string>)

  /** The fields a row item shares with a listed window. */
  function IdentityOf(w: MaintenanceWindow): WindowIdentity {
    WindowIdentity(w.cutoff, w.description, w.duration, w.enabled, w.endDate, w.name,
                   w.nextExecutionTime, w.schedule, w.scheduleOffset, w.scheduleTimezone,
                   w.startDate, w.windowId)
  }

  /** The row item the list function streams for a listed window. It copies
      ten fields unchanged and leaves the start and end dates unset even
      though the listing has them; the fields only `GetMaintenanceWindow`
      returns are left for the get hydrate to supply. */
  function ListedWindow(id: WindowIdentity): (w: MaintenanceWindow)
    ensures IdentityOf(w) == id.(startDate := None, endDate := None)
    ensures w.allowUnassociatedTargets.None? && w.createdDate.None? && w.modifiedDate.None?
  {
    MaintenanceWindow(
      allowUnassociatedTargets := None,
      createdDate := None,
      cutoff := id.cutoff,
      description := id.description,
      duration := id.duration,
      enabled := id.enabled,
      endDate := None,
      modifiedDate := None,
      name := id.name,
      nextExecutionTime := id.nextExecutionTime,
      schedule := id.schedule,
      scheduleOffset := id.scheduleOffset,
      scheduleTimezone := id.scheduleTimezone,
      startDate := None,
      windowId := id.windowId)
  }

  /** The row items for a run of listed windows, in order. */
  function Listed(ids: seq<WindowIdentity>): seq<MaintenanceWindow> {
    seq(|ids|, i requires 0 <= i < |ids| => ListedWindow(ids[i]))
  }

  lemma ListedConcat(a: seq<WindowIdentity>, b: seq<WindowIdentity>)
    ensures Listed(a + b) == Listed(a) + Listed(b)
  {
  }

  /** The page callback of the list function: streams one row item per
      listed window of the page, in order, and asks for the next page unless
      this one is the last. */
  method StreamWindowPage(stream: RowStream<MaintenanceWindow>, page: seq<WindowIdentity>, isLast: bool)
    returns (more: bool)
    modifies stream
    ensures stream.rows == old(stream.rows) + Listed(page)
    ensures more == !isLast
  {
    var j := 0;
    while j < |page|
      invariant 0 <= j <= |page|
      invariant stream.rows == old(stream.rows) + Listed(page[..j])
    {
      assert page[..j + 1] == page[..j] + [page[j]];
      ListedConcat(page[..j], [page[j]]);
      stream.StreamListItem(ListedWindow(page[j]));
      j := j + 1;
    }
    assert page[..|page|] == page;
    more := !isLast;
  }

  /** The list function. `pages` are the windows of each page
      `DescribeMaintenanceWindows` returns, in order; `failure` is the error of
      the request after the last of them, or `None` when that page was the
      last. The page driver hands each page to the callback, telling it
      whether the page is the last, and stops when the callback says so or
      when the pages run out; it then returns the request error, if any.
      A session that cannot be created fails the listing before any page. */
  method ListWindows(stream: RowStream<MaintenanceWindow>, session: Result<()>,
                     pages: seq<seq<WindowIdentity>>, failure: Option<Error>)
    returns (err: Option<Error>)
    modifies stream
    ensures session.Err? ==> err == Some(session.error) && stream.rows == old(stream.rows)
    ensures session.Ok? ==> err == failure
    ensures session.Ok? ==> stream.rows == old(stream.rows) + Listed(Flatten(pages))
  {
    if session.Err? {
      return Some(session.error);
    }
    var i := 0;
    var more := true;
    while i < |pages| && more
      invariant 0 <= i <= |pages|
      invariant !more ==> i == |pages| && failure.None?
      invariant stream.rows == old(stream.rows) + Listed(Flatten(pages[..i]))
    {
      var isLast := i == |pages| - 1 && failure.None?;
      more := StreamWindowPage(stream, pages[i], isLast);
      FlattenSnoc(pages[..i], pages[i]);
      assert pages[..i + 1] == pages[..i] + [pages[i]];
      ListedConcat(Flatten(pages[..i]), pages[i]);
      i := i + 1;
    }
    assert pages[..|pages|] == pages;
    err := if more then failure else None;
  }

  /** The id the get hydrate looks up: the row item's window id when the
      hydrate runs for a listed item, else the `window_id` key qualifier of
      the query. */
  function LookupWindowId(item: Option<MaintenanceWindow>, quals: map<string, QualValue>): (id: string)
    requires item.Some? ==> item.value.windowId.Some?
    ensures item.Some? ==> id == item.value.windowId.value
    ensures item.None? ==> id == QualString(quals, "window_id")
  {
    if item.Some? then item.value.windowId.value else QualString(quals, "window_id")
  }

  /** The get hydrate: `getMaintenanceWindow` is the cloud call for one id. */
  function GetWindow(item: Option<MaintenanceWindow>, quals: map<string, QualValue>, session: Result<()>,
                     getMaintenanceWindow: string -> Result<MaintenanceWindow>): (r: Result<MaintenanceWindow>)
    requires item.Some? ==> item.value.windowId.Some?
    ensures session.Err? ==> r == Err(session.error)
    ensures session.Ok? ==> r == getMaintenanceWindow(LookupWindowId(item, quals))
  {
    CheckedCall(session, getMaintenanceWindow(LookupWindowId(item, quals)))
  }

  /** Hydrating a listed row fetches the very window that was listed, whatever
      the query's qualifiers say. */
  lemma HydrateListedWindow(id: WindowIdentity, quals: map<string, QualValue>, session: Result<()>,
                            getMaintenanceWindow: string -> Result<MaintenanceWindow>)
    requires id.windowId.Some?
    ensures session.Ok? ==>
              GetWindow(Some(ListedWindow(id)), quals, session, getMaintenanceWindow)
              == getMaintenanceWindow(id.windowId.value)
  {
  }

  /** The account-wide values every row carries. */
  datatype CommonColumns = CommonColumns(partition: string, region: string, accountId: string)

  /** The ARN of a maintenance window. */
  function MaintenanceWindowArn(partition: string, region: string, accountId: string, windowId: string): string {
    "arn:" + partition + ":ssm:" + region + ":" + accountId + ":maintenancewindow" + "/" + windowId
  }

  /** The `akas` hydrate: the window's ARN as the only alias, or the error of
      fetching the common columns. */
  function WindowAkas(window: MaintenanceWindow, common: Result<CommonColumns>): (r: Result<seq<string>>)
    requires common.Ok? ==> window.windowId.Some?
    ensures r.Err? <==> common.Err?
    ensures common.Err? ==> r == Err(common.error)
    ensures r.Ok? ==> |r.value| == 1
    ensures r.Ok? ==> r.value[0] == MaintenanceWindowArn(common.value.partition, common.value.region,
                                                         common.value.accountId, window.windowId.value)
  {
    if common.Err? then Err(common.error)
    else Ok([MaintenanceWindowArn(common.value.partition, common.value.region,
                                  common.value.accountId, window.windowId.value)])
  }

  /** The colon-separated fields of an ARN. */
  function Fields(s: string): (r: seq<string>)
    ensures |r| >= 1
    decreases |s|
  {
    if s == [] then [""]
    else
      var rest := Fields(s[1..]);
      if s[0] == ':' then [""] + rest else [[s[0]] + rest[0]] + rest[1..]
  }

  lemma {:induction false} FieldsOfPlain(s: string)
    requires ':' !in s
    ensures Fields(s) == [s]
    decreases |s|
  {
    if s != [] {
      FieldsOfPlain(s[1..]);
      assert s == [s[0]] + s[1..];
    }
  }

  lemma {:induction false} FieldsOfJoin(a: string, b: string)
    requires ':' !in a
    ensures Fields(a + ":" + b) == [a] + Fields(b)
    decreases |a|
  {
    if a == [] {
      assert a + ":" + b == ":" + b;
    } else {
      var s := a + ":" + b;
      assert s[0] == a[0] && s[1..] == a[1..] + ":" + b;
      FieldsOfJoin(a[1..], b);
      assert a == [a[0]] + a[1..];
    }
  }

  /** The ARN as the `arn` prefix joined by colons to the rest, each part
      nested to the right. Kept as a lemma of its own so that the solver meets
      the re-association apart from the field splitting. */
  lemma ArnNesting(partition: string, region: string, accountId: string, windowId: string)
    ensures MaintenanceWindowArn(partition, region, accountId, windowId)
            == "arn" + ":" + (partition + ":" + ("ssm" + ":" + (region + ":" + (accountId + ":" + ("maintenancewindow/" + windowId)))))
  {
  }

  /** The ARN reads back as its six fields: the `arn` prefix, the partition,
      the `ssm` service, the region, the account and the
      `maintenancewindow/<id>` resource, so long as none of the parts holds
      a colon. */
  lemma WindowArnFields(partition: string, region: string, accountId: string, windowId: string)
    requires ':' !in partition && ':' !in region && ':' !in accountId && ':' !in windowId
    ensures Fields(MaintenanceWindowArn(partition, region, accountId, windowId))
            == ["arn", partition, "ssm", region, accountId, "maintenancewindow/" + windowId]
  {
    var resource := "maintenancewindow/" + windowId;
    var s4 := accountId + ":" + resource;
    var s3 := region + ":" + s4;
    var s2 := "ssm" + ":" + s3;
    var s1 := partition + ":" + s2;
    ArnNesting(partition, region, accountId, windowId);
    FieldsOfPlain(resource);
    FieldsOfJoin(accountId, resource);
    FieldsOfJoin(region, s4);
    FieldsOfJoin("ssm", s3);
    FieldsOfJoin(partition, s2);
    FieldsOfJoin("arn", s1);
  }

  /** Distinct windows in one account and region have distinct aliases. */
  lemma WindowArnInjective(partition: string, region: string, accountId: string, id1: string, id2: string)
    requires MaintenanceWindowArn(partition, region, accountId, id1) == MaintenanceWindowArn(partition, region, accountId, id2)
    ensures id1 == id2
  {
    var prefix := "arn:" + partition + ":ssm:" + region + ":" + accountId + ":maintenancewindow" + "/";
    assert MaintenanceWindowArn(partition, region, accountId, id1) == prefix + id1;
    assert MaintenanceWindowArn(partition, region, accountId, id2) == prefix + id2;
    assert id1 == (prefix + id1)[|prefix|..];
    assert id2 == (prefix + id2)[|prefix|..];
  }
}
