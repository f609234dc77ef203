/** `lium dut list`: the DUT registry (identity to connection), and the
    status pass that re-resolves every registered DUT, classifies it, and in
    update mode drops the entries whose address now belongs to another DUT. */
module Fleet {
  import opened Results
  import opened DutTypes
  import opened Seqs

  datatype DutStatus = Online | Offline | AddressReused

  /** One line of the status report: the registered identity, its status,
      and the connection the registry holds for it. */
  datatype StatusRow = StatusRow(id: string, status: DutStatus, ssh: SshInfo)

  type Registry = map<string, SshInfo>

  /** A DUT is online when it resolves and reports the identity it is
      registered under, offline when it does not resolve, and its address
      is reused when it resolves to anything else, including a DUT that
      reports no `dut_id` at all. */
  function Classify(id: string, resolved: Result<DutInfo, string>): (status: DutStatus)
    ensures status == Offline <==> resolved.Err?
    ensures status == Online <==>
      resolved.Ok? && "dut_id" in resolved.value.info && resolved.value.info["dut_id"] == id
    ensures status == AddressReused <==>
      resolved.Ok? && ("dut_id" !in resolved.value.info || resolved.value.info["dut_id"] != id)
  {
    match resolved
    case Err(_) => Offline
    case Ok(dut) => if "dut_id" in dut.info && dut.info["dut_id"] == id then Online else AddressReused
  }

  /** `order` lists every key of the registry exactly once: the order in
      which the registry's entries are visited. */
  predicate IsEnumeration(order: seq<string>, registry: Registry) {
    && (forall k :: 0 <= k < |order| ==> order[k] in registry)
    && (forall id :: id in registry ==> id in order)
    && (forall i, j :: 0 <= i < j < |order| ==> order[i] != order[j])
  }

  /** The per-entry map of the status pass: every entry re-resolved by its
      identity and classified. */
  function ClassifyAll(registry: Registry, order: seq<string>,
                       resolve: string -> Result<DutInfo, string>): (rows: seq<StatusRow>)
    requires forall k :: 0 <= k < |order| ==> order[k] in registry
    ensures |rows| == |order|
    ensures forall k :: 0 <= k < |rows| ==>
      && rows[k].id == order[k]
      && rows[k].ssh == registry[order[k]]
      && rows[k].status == Classify(order[k], resolve(order[k]))
  {
    seq(|order|, k requires 0 <= k < |order| =>
      StatusRow(order[k], Classify(order[k], resolve(order[k])), registry[order[k]]))
  }

  /** Exactly one row per registry entry, carrying that entry's identity
      and cached connection unchanged. */
  lemma ClassifyAllOneRowPerEntry(registry: Registry, order: seq<string>,
                                  resolve: string -> Result<DutInfo, string>)
    requires IsEnumeration(order, registry)
    ensures var rows := ClassifyAll(registry, order, resolve);
      && (forall i, j :: 0 <= i < j < |rows| ==> rows[i].id != rows[j].id)
      && (forall id :: id in registry ==>
            exists k :: 0 <= k < |rows| && rows[k].id == id && rows[k].ssh == registry[id])
  {
    var rows := ClassifyAll(registry, order, resolve);
    forall id | id in registry
      ensures exists k :: 0 <= k < |rows| && rows[k].id == id && rows[k].ssh == registry[id]
    {
      var k :| 0 <= k < |order| && order[k] == id;
      assert rows[k].id == id;
    }
  }

  /** The rows whose status is (`reused`) or is not (`!reused`)
      AddressReused, in their original order. */
  function FilterReused(rows: seq<StatusRow>, reused: bool): (r: seq<StatusRow>)
    ensures |r| <= |rows|
    ensures forall x :: x in r <==> x in rows && (x.status == AddressReused) == reused
  {
    if |rows| == 0 then []
    else if (rows[0].status == AddressReused) == reused then [rows[0]] + FilterReused(rows[1..], reused)
    else FilterReused(rows[1..], reused)
  }

  /** The rows split into those to remove and those to keep. */
  datatype StatusReport = StatusReport(kept: seq<StatusRow>, removed: seq<StatusRow>)

  function SplitForUpdate(rows: seq<StatusRow>, update: bool): (report: StatusReport)
    ensures !update ==> report.removed == [] && report.kept == rows
    ensures update ==>
      && (forall x :: x in report.removed <==> x in rows && x.status == AddressReused)
      && (forall x :: x in report.kept <==> x in rows && x.status != AddressReused)
  {
    if update then StatusReport(FilterReused(rows, false), FilterReused(rows, true))
    else StatusReport(rows, [])
  }

  lemma {:induction false} FilterReusedInterleaves(rows: seq<StatusRow>)
    ensures Interleaves(rows, FilterReused(rows, false), FilterReused(rows, true))
  {
    if |rows| > 0 {
      FilterReusedInterleaves(rows[1..]);
    }
  }

  /** In update mode the report is a partition of the rows that keeps
      their order: kept and removed together are all rows, each row in
      exactly one of them. */
  lemma SplitForUpdatePartitions(rows: seq<StatusRow>, update: bool)
    ensures var report := SplitForUpdate(rows, update);
      && Interleaves(rows, report.kept, report.removed)
      && |report.kept| + |report.removed| == |rows|
      && multiset(report.kept) + multiset(report.removed) == multiset(rows)
  {
    var report := SplitForUpdate(rows, update);
    if update {
      FilterReusedInterleaves(rows);
    } else {
      NoRemovalInterleaves(rows);
    }
    InterleavesLength(rows, report.kept, report.removed);
  }

  /** Removing the identities one after another, as the update pass does;
      identities that are not registered are ignored. */
  function RemoveAll(registry: Registry, ids: seq<string>): (r: Registry)
    ensures forall id :: id in r <==> id in registry && id !in ids
    ensures forall id :: id in r ==> r[id] == registry[id]
  {
    if |ids| == 0 then registry else RemoveAll(registry - {ids[0]}, ids[1..])
  }

  function Ids(rows: seq<StatusRow>): (ids: seq<string>)
    ensures |ids| == |rows|
    ensures forall k :: 0 <= k < |rows| ==> ids[k] == rows[k].id
  {
    seq(|rows|, k requires 0 <= k < |rows| => rows[k].id)
  }

  /** The identities the status pass finds at a reused address. */
  function ReusedIds(registry: Registry, resolve: string -> Result<DutInfo, string>): set<string> {
    set id | id in registry && Classify(id, resolve(id)) == AddressReused
  }

  /** The status/update pass: classify every entry, split the rows, and in
      update mode remove the identities of the rows to be removed. After
      the pass the registry is the snapshot minus exactly the identities at
      a reused address: online and offline entries keep their connection,
      and in status mode nothing changes. */
  function Reconcile(registry: Registry, order: seq<string>,
                     resolve: string -> Result<DutInfo, string>, update: bool): (r: (StatusReport, Registry))
    requires IsEnumeration(order, registry)
    ensures r.0 == SplitForUpdate(ClassifyAll(registry, order, resolve), update)
    ensures update ==> r.1 == registry - ReusedIds(registry, resolve)
    ensures !update ==> r.1 == registry
    ensures forall id :: id in registry && Classify(id, resolve(id)) != AddressReused ==>
      id in r.1 && r.1[id] == registry[id]
  {
    var report := SplitForUpdate(ClassifyAll(registry, order, resolve), update);
    if update then
      RemoveReusedIds(registry, order, resolve);
      (report, RemoveAll(registry, Ids(report.removed)))
    else
      (report, RemoveAll(registry, Ids(report.removed)))
  }

  /** Removing the identities of the rows the update pass removes takes out
      exactly the identities at a reused address. */
  lemma RemoveReusedIds(registry: Registry, order: seq<string>,
                        resolve: string -> Result<DutInfo, string>)
    requires IsEnumeration(order, registry)
    ensures var removed := SplitForUpdate(ClassifyAll(registry, order, resolve), true).removed;
      RemoveAll(registry, Ids(removed)) == registry - ReusedIds(registry, resolve)
  {
    var ids := Ids(SplitForUpdate(ClassifyAll(registry, order, resolve), true).removed);
    var after := RemoveAll(registry, ids);
    var expected := registry - ReusedIds(registry, resolve);
    RemovedIdsAreReused(registry, order, resolve);
    forall id ensures id in after <==> id in expected {
      assert id in expected <==> id in registry && Classify(id, resolve(id)) != AddressReused;
    }
    SameMaps(after, expected);
  }

  /** A second update pass with the same answers removes nothing more:
      every identity left after the first pass is online or offline. */
  lemma ReconcileIdempotent(registry: Registry, order: seq<string>, order': seq<string>,
                            resolve: string -> Result<DutInfo, string>)
    requires IsEnumeration(order, registry)
    requires IsEnumeration(order', Reconcile(registry, order, resolve, true).1)
    ensures var after := Reconcile(registry, order, resolve, true).1;
      Reconcile(after, order', resolve, true).1 == after
  {
    var after := Reconcile(registry, order, resolve, true).1;
    assert ReusedIds(after, resolve) == {};
    SameMaps(after - ReusedIds(after, resolve), after);
  }

  /** In update mode an identity is removed exactly when its row says
      AddressReused. */
  lemma RemovedIdsAreReused(registry: Registry, order: seq<string>,
                            resolve: string -> Result<DutInfo, string>)
    requires IsEnumeration(order, registry)
    ensures var ids := Ids(SplitForUpdate(ClassifyAll(registry, order, resolve), true).removed);
      forall id :: id in registry ==> (id in ids <==> Classify(id, resolve(id)) == AddressReused)
  {
    var rows := ClassifyAll(registry, order, resolve);
    var removed := SplitForUpdate(rows, true).removed;
    var ids := Ids(removed);
    forall id | id in registry
      ensures id in ids <==> Classify(id, resolve(id)) == AddressReused
    {
      if Classify(id, resolve(id)) == AddressReused {
        ReusedIdIsRemoved(registry, order, resolve, id);
      }
      if id in ids {
        var j :| 0 <= j < |ids| && ids[j] == id;
        assert removed[j] in rows;
      }
    }
  }

  lemma ReusedIdIsRemoved(registry: Registry, order: seq<string>,
                          resolve: string -> Result<DutInfo, string>, id: string)
    requires IsEnumeration(order, registry)
    requires id in registry && Classify(id, resolve(id)) == AddressReused
    ensures id in Ids(SplitForUpdate(ClassifyAll(registry, order, resolve), true).removed)
  {
    var rows := ClassifyAll(registry, order, resolve);
    var removed := FilterReused(rows, true);
    var k :| 0 <= k < |order| && order[k] == id;
    var row := rows[k];
    assert row.status == AddressReused;
    assert row in removed;
    IdsHasRowId(removed, row);
  }

  lemma IdsHasRowId(rows: seq<StatusRow>, row: StatusRow)
    requires row in rows
    ensures row.id in Ids(rows)
  {
    var j :| 0 <= j < |rows| && rows[j] == row;
    assert Ids(rows)[j] == row.id;
  }


  datatype ListArgs = ListArgs(
    clear: bool, ids: bool, status: bool,
    add: Option<string>, remove: Option<string>, update: bool)

  datatype ListOutput =
    | Cleared
    | IdList(ids: seq<string>)
    | Added(id: string, ssh: SshInfo)
    | Removed(id: string)
    | Statuses(report: StatusReport)
    | Listing(entries: seq<(string, SshInfo)>)

  /** The registry after the command (`None` when it cannot be read) and
      what the command reports. */
  datatype ListRun = ListRun(cache: Option<Registry>, result: Result<ListOutput, DutError>)

  /** `lium dut list`. The flags are looked at in a fixed order: clear,
      ids, add, remove, status or update, and otherwise a plain listing.
      `order` is the order in which the registry yields its entries and
      `resolve` re-resolves a DUT by identity or address. */
  function RunDutList(args: ListArgs, cache: Option<Registry>, order: seq<string>,
                      resolve: string -> Result<DutInfo, string>): (run: ListRun)
    requires cache.Some? ==> IsEnumeration(order, cache.value)
    ensures args.clear ==> run == ListRun(Some(map[]), Ok(Cleared))
    ensures !args.clear && cache.None? ==> run == ListRun(None, Err(CacheNotInitialized))
    ensures !args.clear && cache.Some? ==> run.cache.Some?
    ensures !args.clear && cache.Some? && args.ids ==>
      run == ListRun(cache, Ok(IdList(order)))
    ensures !args.clear && cache.Some? && !args.ids && args.add.Some? ==>
      match resolve(args.add.value)
      case Err(e) => run == ListRun(cache, Err(Remote(e)))
      case Ok(dut) => run == ListRun(Some(cache.value[dut.id := dut.ssh]), Ok(Added(dut.id, dut.ssh)))
    ensures !args.clear && cache.Some? && !args.ids && args.add.None? && args.remove.Some? ==>
      && run.result == Ok(Removed(args.remove.value))
      && run.cache.value.Keys == cache.value.Keys - {args.remove.value}
      && (forall id :: id in run.cache.value ==> run.cache.value[id] == cache.value[id])
      && (args.remove.value !in cache.value ==> run.cache == cache)
    ensures (!args.clear && cache.Some? && !args.ids && args.add.None? && args.remove.None? &&
             (args.status || args.update)) ==>
      && run.result.Ok? && run.result.value.Statuses?
      && run.result.value.report == SplitForUpdate(ClassifyAll(cache.value, order, resolve), args.update)
      && (args.update ==> run.cache.value == cache.value - ReusedIds(cache.value, resolve))
      && (!args.update ==> run.cache == cache)
    ensures (!args.clear && cache.Some? && !args.ids && args.add.None? && args.remove.None? &&
             !args.status && !args.update) ==>
      && run.cache == cache
      && run.result.Ok? && run.result.value.Listing?
      && |run.result.value.entries| == |order|
      && forall k :: 0 <= k < |order| ==> run.result.value.entries[k] == (order[k], cache.value[order[k]])
  {
    if args.clear then ListRun(Some(map[]), Ok(Cleared))
    else if cache.None? then ListRun(None, Err(CacheNotInitialized))
    else
      var registry := cache.value;
      if args.ids then ListRun(cache, Ok(IdList(order)))
      else if args.add.Some? then
        match resolve(args.add.value)
        case Err(e) => ListRun(cache, Err(Remote(e)))
        case Ok(dut) => ListRun(Some(registry[dut.id := dut.ssh]), Ok(Added(dut.id, dut.ssh)))
      else if args.remove.Some? then
        assert args.remove.value !in registry ==> registry - {args.remove.value} == registry;
        ListRun(Some(registry - {args.remove.value}), Ok(Removed(args.remove.value)))
      else if args.status || args.update then
        var (report, after) := Reconcile(registry, order, resolve, args.update);
        ListRun(Some(after), Ok(Statuses(report)))
      else
        ListRun(cache, Ok(Listing(seq(|order|, k requires 0 <= k < |order| => (order[k], registry[order[k]])))))
  }
}
