/** The lifecycle of a `windns_a_record_set` resource: Create, Read, Update
    and Delete, each a sequence of client calls that stops at the first call
    that fails. The client is an oracle that answers a call given the calls
    the same operation issued before it; every operation reports the calls
    it issued, in order. */
module RecordSet {
  import opened Wrappers
  import opened Errors
  import opened Windns
  import opened ARecord
  import opened AddressSet
  import opened Provider

  /** The client: answers a call, knowing the calls issued before it. */
  type Oracle = (seq<Request>, Request) -> Result<Response, Error>

  /** `Set.List`: the order in which a set hands out its members. */
  type Lister = AddrSet -> seq<string>

  /** The state the framework keeps for one record set. An empty `id` means
      the resource is gone. */
  datatype Resource = Resource(id: string, name: string, zone: string, ttl: int, addresses: AddrSet)

  /** What an operation leaves behind: the state, the calls issued, the error returned. */
  datatype Outcome = Outcome(res: Resource, calls: seq<Request>, err: Option<Error>)

  /** Why a call counts as failed: the client returned an error, or the
      envelope carried a code other than 200. */
  datatype Failure = Failed(error: Error) | Refused(detail: string)

  function Judge(reply: Result<Response, Error>): (f: Option<Failure>)
    ensures f.None? <==> reply.Ok? && reply.value.code == 200
  {
    match reply
    case Err(e) => Some(Failed(e))
    case Ok(rsp) => if rsp.code != 200 then Some(Refused(rsp.detail)) else None
  }

  /** The error Create, Read and Delete return for a failed call. */
  function Plain(f: Failure): Error {
    match f
    case Failed(e) => e
    case Refused(detail) => Rejected(detail)
  }

  /** The error Update returns for a failed call: client errors are wrapped. */
  function Wrapped(f: Failure): Error {
    match f
    case Failed(e) => Updating(e)
    case Refused(detail) => Rejected(detail)
  }

  function AddCall(name: string, zone: string, ttl: int, address: string): Request {
    AddA(AddOptions("", name, address, zone, false, false, ttl))
  }

  function DeleteCall(name: string, zone: string, address: string): Request {
    DeleteA(DeleteOptions("", name, address, zone))
  }

  function ReadCall(name: string, zone: string): Request {
    ReadA(ReadOptions("", name, "", zone))
  }

  function Adds(name: string, zone: string, ttl: int, addrs: seq<string>): (rs: seq<Request>)
    ensures |rs| == |addrs|
    ensures forall i :: 0 <= i < |addrs| ==> rs[i] == AddCall(name, zone, ttl, addrs[i])
  {
    seq(|addrs|, i requires 0 <= i < |addrs| => AddCall(name, zone, ttl, addrs[i]))
  }

  function Deletes(name: string, zone: string, addrs: seq<string>): (rs: seq<Request>)
    ensures |rs| == |addrs|
    ensures forall i :: 0 <= i < |addrs| ==> rs[i] == DeleteCall(name, zone, addrs[i])
  {
    seq(|addrs|, i requires 0 <= i < |addrs| => DeleteCall(name, zone, addrs[i]))
  }

  /** The first `n` of `calls`, each issued after `hist` and the calls before
      it, were all answered with 200. */
  ghost predicate AllAccepted(o: Oracle, hist: seq<Request>, calls: seq<Request>, n: int)
    requires 0 <= n <= |calls|
  {
    forall i :: 0 <= i < n ==> Judge(o(hist + calls[..i], calls[i])).None?
  }

  /** The calls of one loop and the failure that ended it early, if any. */
  datatype Sweep = Sweep(calls: seq<Request>, failure: Option<Failure>)

  /** Issues `reqs` in order after `hist`, stopping at the first that fails. */
  function Issue(o: Oracle, hist: seq<Request>, reqs: seq<Request>): (s: Sweep)
    ensures s.calls <= reqs
    ensures s.failure.None? ==> s.calls == reqs
    ensures s.failure.Some? ==> |s.calls| > 0
    decreases |reqs|
  {
    if |reqs| == 0 then Sweep([], None)
    else
      match Judge(o(hist, reqs[0]))
      case Some(f) => Sweep([reqs[0]], Some(f))
      case None =>
        var rest := Issue(o, hist + [reqs[0]], reqs[1..]);
        assert reqs == [reqs[0]] + reqs[1..];
        Sweep([reqs[0]] + rest.calls, rest.failure)
  }

  /** Being accepted from the first call on is being accepted first, then
      from the second call on. */
  lemma AcceptedTail(o: Oracle, hist: seq<Request>, reqs: seq<Request>, n: int)
    requires 0 < n <= |reqs|
    ensures AllAccepted(o, hist, reqs, n) <==>
              Judge(o(hist, reqs[0])).None? && AllAccepted(o, hist + [reqs[0]], reqs[1..], n - 1)
    ensures forall i :: 1 <= i <= |reqs| ==> hist + reqs[..i] == (hist + [reqs[0]]) + reqs[1..][..i - 1]
  {
    assert hist + reqs[..0] == hist;
    forall i | 1 <= i <= |reqs|
      ensures hist + reqs[..i] == (hist + [reqs[0]]) + reqs[1..][..i - 1]
    {
      assert reqs[..i] == [reqs[0]] + reqs[1..][..i - 1];
    }
  }

  /** A loop whose calls are all accepted issues every call and reports no failure. */
  lemma {:induction false} IssueCompletes(o: Oracle, hist: seq<Request>, reqs: seq<Request>)
    requires AllAccepted(o, hist, reqs, |reqs|)
    ensures Issue(o, hist, reqs) == Sweep(reqs, None)
    decreases |reqs|
  {
    if |reqs| > 0 {
      AcceptedTail(o, hist, reqs, |reqs|);
      IssueCompletes(o, hist + [reqs[0]], reqs[1..]);
      assert reqs == [reqs[0]] + reqs[1..];
    }
  }

  /** A loop stops right after the first refused call: the calls before it
      and that call are issued, nothing after it, and its failure is reported. */
  lemma {:induction false} IssueStopsAtFirstFailure(o: Oracle, hist: seq<Request>, reqs: seq<Request>, n: nat)
    requires n < |reqs| && AllAccepted(o, hist, reqs, n)
    requires Judge(o(hist + reqs[..n], reqs[n])).Some?
    ensures Issue(o, hist, reqs) == Sweep(reqs[..n + 1], Judge(o(hist + reqs[..n], reqs[n])))
    decreases n
  {
    if n == 0 {
      assert hist + reqs[..0] == hist;
      assert reqs[..1] == [reqs[0]];
    } else {
      AcceptedTail(o, hist, reqs, n + 1);
      assert Judge(o(hist, reqs[0])).None? by {
        assert hist + reqs[..0] == hist;
      }
      AcceptedTail(o, hist, reqs, n);
      assert reqs[1..][n - 1] == reqs[n];
      IssueStopsAtFirstFailure(o, hist + [reqs[0]], reqs[1..], n - 1);
      assert reqs[..n + 1] == [reqs[0]] + reqs[1..][..n];
    }
  }

  /** The smallest TTL among the records. */
  function MinTtl(records: seq<Record>): (t: int)
    requires |records| > 0
    ensures forall i :: 0 <= i < |records| ==> t <= records[i].ttl
    ensures exists i :: 0 <= i < |records| && t == records[i].ttl
  {
    if |records| == 1 then records[0].ttl
    else
      var rest := MinTtl(records[1..]);
      assert forall i :: 1 <= i < |records| ==> records[i] == records[1..][i - 1];
      if records[0].ttl <= rest then records[0].ttl else rest
  }

  function DataOf(records: seq<Record>): (ds: seq<string>)
    ensures |ds| == |records|
    ensures forall i :: 0 <= i < |records| ==> ds[i] == records[i].data
  {
    seq(|records|, i requires 0 <= i < |records| => records[i].data)
  }

  /** The read that ends Create and Update, issued after `hist`. A reply
      other than 200 clears the identifier and is returned as an error; a
      200 without records clears it without an error. */
  function ReadAfter(res: Resource, o: Oracle, hist: seq<Request>, key: string -> int): (r: Outcome)
    ensures r.calls == hist + [ReadCall(res.name, res.zone)]
    ensures r.res.name == res.name && r.res.zone == res.zone
    ensures o(hist, ReadCall(res.name, res.zone)).Err? ==>
              r.res.id == "" && r.err == Some(o(hist, ReadCall(res.name, res.zone)).error)
    ensures o(hist, ReadCall(res.name, res.zone)).Ok? && o(hist, ReadCall(res.name, res.zone)).value.code != 200 ==>
              r.res.id == "" && r.err == Some(Rejected(o(hist, ReadCall(res.name, res.zone)).value.detail))
    ensures r.err.None? <==> o(hist, ReadCall(res.name, res.zone)).Ok? && o(hist, ReadCall(res.name, res.zone)).value.code == 200
    ensures r.err.None? ==> (r.res.id == "" <==> res.id == "" || |o(hist, ReadCall(res.name, res.zone)).value.records| == 0)
    ensures r.err.Some? ==> r.res.id == ""
  {
    var req := ReadCall(res.name, res.zone);
    var calls := hist + [req];
    match o(hist, req)
    case Err(e) => Outcome(res.(id := ""), calls, Some(e))
    case Ok(rsp) =>
      if rsp.code != 200 then Outcome(res.(id := ""), calls, Some(Rejected(rsp.detail)))
      else if |rsp.records| > 0 then
        Outcome(res.(addresses := FromList(DataOf(rsp.records), key), ttl := MinTtl(rsp.records)), calls, None)
      else Outcome(res.(id := ""), calls, None)
  }

  /** A read that finds records replaces the address set with one member
      per distinct key among them and the TTL with the smallest of theirs. */
  lemma ReadRefreshes(res: Resource, o: Oracle, hist: seq<Request>, key: string -> int)
    requires o(hist, ReadCall(res.name, res.zone)).Ok?
    requires o(hist, ReadCall(res.name, res.zone)).value.code == 200
    requires |o(hist, ReadCall(res.name, res.zone)).value.records| > 0
    ensures var records := o(hist, ReadCall(res.name, res.zone)).value.records;
            var r := ReadAfter(res, o, hist, key);
            && r.err.None? && r.res.id == res.id
            && WellKeyed(r.res.addresses, key)
            && r.res.addresses.Keys == (set i | 0 <= i < |records| :: key(records[i].data))
            && (forall k :: k in r.res.addresses ==> exists i :: 0 <= i < |records| && records[i].data == r.res.addresses[k])
            && (forall i :: 0 <= i < |records| ==> r.res.ttl <= records[i].ttl)
            && (exists i :: 0 <= i < |records| && r.res.ttl == records[i].ttl)
  {
    var records := o(hist, ReadCall(res.name, res.zone)).value.records;
    var data := DataOf(records);
    assert Keys(data, key) == set i | 0 <= i < |records| :: key(records[i].data) by {
      forall k | k in Keys(data, key) ensures k in set i | 0 <= i < |records| :: key(records[i].data) {
        var x :| x in data && key(x) == k;
        var i :| 0 <= i < |data| && data[i] == x;
      }
    }
    var s := FromList(data, key);
    forall k | k in s ensures exists i :: 0 <= i < |records| && records[i].data == s[k] {
      var i :| 0 <= i < |data| && data[i] == s[k];
    }
  }

  /** `resourceDnsARecordSetRead`. */
  function Read(res: Resource, meta: Option<Oracle>, key: string -> int): (r: Outcome)
    ensures meta.None? ==> r == Outcome(res, [], Some(NoClient))
    ensures meta.Some? ==> r.calls == [ReadCall(res.name, res.zone)]
    ensures meta.Some? && r.err.Some? ==> r.res.id == ""
    // the outcome is that of the one read, so ReadAfter's and ReadRefreshes' guarantees apply
    ensures meta.Some? ==> r == ReadAfter(res, meta.value, [], key)
    ensures meta.Some? ==> (r.err.None? <==> meta.value([], ReadCall(res.name, res.zone)).Ok?
                                             && meta.value([], ReadCall(res.name, res.zone)).value.code == 200)
  {
    match meta
    case None => Outcome(res, [], Some(NoClient))
    case Some(o) => ReadAfter(res, o, [], key)
  }

  /** `resourceDnsARecordSetCreate`: names the resource, adds every address
      with the resource's name, zone and TTL, then reads it back. */
  function Create(res: Resource, meta: Option<Oracle>, list: Lister, key: string -> int): (r: Outcome)
    ensures meta.None? ==> r == Outcome(res, [], Some(NoClient))
    // the adds, one per listed address, then the read, cut short by a failure
    ensures meta.Some? ==> r.calls <= Adds(res.name, res.zone, res.ttl, list(res.addresses)) + [ReadCall(res.name, res.zone)]
    ensures meta.Some? && r.err.None? ==> r.calls == Adds(res.name, res.zone, res.ttl, list(res.addresses)) + [ReadCall(res.name, res.zone)]
    ensures meta.Some? && r.err.Some? ==> |r.calls| > 0 && r.res.id == ""
    ensures meta.Some? && r.err.None? ==> r.res.id == "" || r.res.id == ResourceFqdn(res.name, res.zone)
  {
    match meta
    case None => Outcome(res, [], Some(NoClient))
    case Some(o) =>
      var named := res.(id := ResourceFqdn(res.name, res.zone));
      var adds := Adds(res.name, res.zone, res.ttl, list(res.addresses));
      var s := Issue(o, [], adds);
      match s.failure
      case Some(f) => Outcome(named.(id := ""), s.calls, Some(Plain(f)))
      case None => ReadAfter(named, o, s.calls, key)
  }

  /** Every call an update of a changed set makes when nothing fails. */
  function UpdateCalls(res: Resource, was: AddrSet, list: Lister): seq<Request> {
    var plan := Reconcile(was, res.addresses);
    Deletes(res.name, res.zone, list(plan.remove)) + Adds(res.name, res.zone, res.ttl, list(plan.add)) + [ReadCall(res.name, res.zone)]
  }

  /** `resourceDnsARecordSetUpdate`. `res` holds the new addresses and `was`
      the ones recorded before. Only when the set changed does it delete the
      addresses that went away, then add the new ones; it always reads back. */
  function Update(res: Resource, was: AddrSet, meta: Option<Oracle>, list: Lister, key: string -> int): (r: Outcome)
    ensures meta.None? ==> r == Outcome(res, [], Some(NoClient))
    ensures meta.Some? && was == res.addresses ==> r.calls == [ReadCall(res.name, res.zone)]
    // a changed set: the deletes of what left, the adds of what joined, the read, cut short by a failure
    ensures meta.Some? && was != res.addresses ==> r.calls <= UpdateCalls(res, was, list)
    ensures meta.Some? && was != res.addresses && r.err.None? ==> r.calls == UpdateCalls(res, was, list)
    ensures meta.Some? && r.err.Some? ==> |r.calls| > 0 && r.res.id == ""
  {
    match meta
    case None => Outcome(res, [], Some(NoClient))
    case Some(o) =>
      if was == res.addresses then ReadAfter(res, o, [], key)
      else
        var plan := Reconcile(was, res.addresses);
        var deletes := Deletes(res.name, res.zone, list(plan.remove));
        var adds := Adds(res.name, res.zone, res.ttl, list(plan.add));
        var removed := Issue(o, [], deletes);
        match removed.failure
        case Some(f) =>
          assert removed.calls <= deletes + adds + [ReadCall(res.name, res.zone)];
          Outcome(res.(id := ""), removed.calls, Some(Wrapped(f)))
        case None =>
          var added := Issue(o, removed.calls, adds);
          match added.failure
          case Some(f) =>
            assert removed.calls + added.calls <= deletes + adds + [ReadCall(res.name, res.zone)] by {
              assert deletes + adds + [ReadCall(res.name, res.zone)] == deletes + (adds + [ReadCall(res.name, res.zone)]);
            }
            Outcome(res.(id := ""), removed.calls + added.calls, Some(Wrapped(f)))
          case None => ReadAfter(res, o, removed.calls + added.calls, key)
  }

  /** `resourceDnsARecordSetDelete`: deletes every address, stopping at the first failure. */
  function Delete(res: Resource, meta: Option<Oracle>, list: Lister): (r: Outcome)
    ensures meta.None? ==> r == Outcome(res, [], Some(NoClient))
    ensures meta.Some? ==> r.calls <= Deletes(res.name, res.zone, list(res.addresses))
    ensures meta.Some? && r.err.None? ==> r.calls == Deletes(res.name, res.zone, list(res.addresses)) && r.res == res
    ensures meta.Some? && r.err.Some? ==> |r.calls| > 0 && r.res == res.(id := "")
  {
    match meta
    case None => Outcome(res, [], Some(NoClient))
    case Some(o) =>
      var s := Issue(o, [], Deletes(res.name, res.zone, list(res.addresses)));
      match s.failure
      case Some(f) => Outcome(res.(id := ""), s.calls, Some(Plain(f)))
      case None => Outcome(res, s.calls, None)
  }

  // ---- properties of the lifecycle ----

  /** When every add is accepted, Create adds each listed address with the
      resource's name, zone and TTL, then reads the record set back under
      its new identifier. */
  lemma CreateAddsThenReads(res: Resource, o: Oracle, list: Lister, key: string -> int)
    requires var adds := Adds(res.name, res.zone, res.ttl, list(res.addresses));
             AllAccepted(o, [], adds, |adds|)
    ensures var adds := Adds(res.name, res.zone, res.ttl, list(res.addresses));
            Create(res, Some(o), list, key) == ReadAfter(res.(id := ResourceFqdn(res.name, res.zone)), o, adds, key)
  {
    IssueCompletes(o, [], Adds(res.name, res.zone, res.ttl, list(res.addresses)));
  }

  /** Create stops at the first add that fails: the resource loses its
      identifier, no later address is tried, nothing is read back, and the
      failure is returned. */
  lemma CreateStopsAtFirstFailure(res: Resource, o: Oracle, list: Lister, key: string -> int, n: nat)
    requires var adds := Adds(res.name, res.zone, res.ttl, list(res.addresses));
             && n < |adds| && AllAccepted(o, [], adds, n)
             && Judge(o(adds[..n], adds[n])).Some?
    ensures var adds := Adds(res.name, res.zone, res.ttl, list(res.addresses));
            var r := Create(res, Some(o), list, key);
            && r.calls == adds[..n + 1]
            && r.res.id == ""
            && r.err == Some(Plain(Judge(o(adds[..n], adds[n])).value))
  {
    var adds := Adds(res.name, res.zone, res.ttl, list(res.addresses));
    assert [] + adds[..n] == adds[..n];
    IssueStopsAtFirstFailure(o, [], adds, n);
  }

  /** In the calls of an update, every delete comes before every add, the
      read comes last, and every call names the resource's record and zone. */
  lemma UpdateCallsOrdered(res: Resource, was: AddrSet, list: Lister)
    ensures var calls := UpdateCalls(res, was, list);
            && (forall i, j :: 0 <= i < j < |calls| && calls[j].DeleteA? ==> calls[i].DeleteA?)
            && (forall i :: 0 <= i < |calls| && calls[i].ReadA? ==> i == |calls| - 1)
            && (forall i :: 0 <= i < |calls| ==> calls[i].Name() == res.name && calls[i].ZoneName() == res.zone)
  {
    var plan := Reconcile(was, res.addresses);
    var deletes := Deletes(res.name, res.zone, list(plan.remove));
    var adds := Adds(res.name, res.zone, res.ttl, list(plan.add));
    var calls := UpdateCalls(res, was, list);
    forall i | 0 <= i < |calls|
      ensures i < |deletes| ==> calls[i] == deletes[i]
      ensures |deletes| <= i < |deletes| + |adds| ==> calls[i] == adds[i - |deletes|]
      ensures i == |deletes| + |adds| ==> calls[i] == ReadCall(res.name, res.zone)
    {
    }
  }

  /** Whatever the client answers, Update never adds before it has finished
      deleting, and reads only at the end. */
  lemma UpdateDeletesBeforeAdding(res: Resource, was: AddrSet, o: Oracle, list: Lister, key: string -> int)
    ensures var calls := Update(res, was, Some(o), list, key).calls;
            && (forall i, j :: 0 <= i < j < |calls| && calls[j].DeleteA? ==> calls[i].DeleteA?)
            && (forall i :: 0 <= i < |calls| && calls[i].ReadA? ==> i == |calls| - 1)
            && (forall i :: 0 <= i < |calls| ==> calls[i].Name() == res.name && calls[i].ZoneName() == res.zone)
  {
    var calls := Update(res, was, Some(o), list, key).calls;
    if was != res.addresses {
      var full := UpdateCalls(res, was, list);
      UpdateCallsOrdered(res, was, list);
      assert forall i :: 0 <= i < |calls| ==> calls[i] == full[i];
      forall i | 0 <= i < |calls| && calls[i].ReadA? ensures i == |calls| - 1 {
        assert i == |full| - 1;
      }
    }
  }

  /** An address set that changed only in the spelling of its members plans
      no deletes and no adds: Update only reads back. */
  lemma SameKeysOnlyReread(res: Resource, was: AddrSet, o: Oracle, list: Lister, key: string -> int)
    requires was.Keys == res.addresses.Keys
    requires IsListing(list(map[]), map[], key)
    ensures Update(res, was, Some(o), list, key).calls == [ReadCall(res.name, res.zone)]
  {
    SameKeysPlanNothing(was, res.addresses);
  }

  /** The keys of the addresses that `calls` delete, and that they add. */
  function DeletedKeys(calls: seq<Request>, key: string -> int): set<int> {
    set i | 0 <= i < |calls| && calls[i].DeleteA? :: key(calls[i].Address())
  }

  function AddedKeys(calls: seq<Request>, key: string -> int): set<int> {
    set i | 0 <= i < |calls| && calls[i].AddA? :: key(calls[i].Address())
  }

  /** Calls naming the elements of `xs` in order name the keys of `xs`. */
  lemma ListedKeys(xs: seq<string>, rs: seq<Request>, key: string -> int)
    requires |rs| == |xs| && forall i :: 0 <= i < |xs| ==> rs[i].Address() == xs[i]
    ensures (set i | 0 <= i < |rs| :: key(rs[i].Address())) == Keys(xs, key)
  {
    forall k | k in Keys(xs, key) ensures k in (set i | 0 <= i < |rs| :: key(rs[i].Address())) {
      var x :| x in xs && key(x) == k;
      var i :| 0 <= i < |xs| && xs[i] == x;
      assert key(rs[i].Address()) == k;
    }
  }

  /** In deletes, then adds, then a read, the deleted keys are those of the
      deletes and the added keys those of the adds. */
  lemma KeysOfUpdateCalls(deletes: seq<Request>, adds: seq<Request>, read: Request, key: string -> int)
    requires forall i :: 0 <= i < |deletes| ==> deletes[i].DeleteA?
    requires forall i :: 0 <= i < |adds| ==> adds[i].AddA?
    requires read.ReadA?
    ensures DeletedKeys(deletes + adds + [read], key) == set i | 0 <= i < |deletes| :: key(deletes[i].Address())
    ensures AddedKeys(deletes + adds + [read], key) == set i | 0 <= i < |adds| :: key(adds[i].Address())
  {
    var calls := deletes + adds + [read];
    forall i | 0 <= i < |calls|
      ensures i < |deletes| ==> calls[i] == deletes[i]
      ensures |deletes| <= i < |deletes| + |adds| ==> calls[i] == adds[i - |deletes|]
      ensures i == |deletes| + |adds| ==> calls[i] == read
    {
    }
    forall k | k in set i | 0 <= i < |adds| :: key(adds[i].Address()) ensures k in AddedKeys(calls, key) {
      var i :| 0 <= i < |adds| && k == key(adds[i].Address());
      assert calls[|deletes| + i] == adds[i];
    }
  }

  /** The calls of an update delete exactly the addresses whose keys left
      the set and add exactly those whose keys joined it, each add carrying
      the resource's TTL. */
  lemma UpdateCallsFollowReconcile(res: Resource, was: AddrSet, list: Lister, key: string -> int)
    requires Keys(list(Reconcile(was, res.addresses).remove), key) == Reconcile(was, res.addresses).remove.Keys
    requires Keys(list(Reconcile(was, res.addresses).add), key) == Reconcile(was, res.addresses).add.Keys
    ensures var calls := UpdateCalls(res, was, list);
            && DeletedKeys(calls, key) == was.Keys - res.addresses.Keys
            && AddedKeys(calls, key) == res.addresses.Keys - was.Keys
            && (forall i :: 0 <= i < |calls| && calls[i].AddA? ==> calls[i].add.ttl == res.ttl)
  {
    var plan := Reconcile(was, res.addresses);
    var removed := list(plan.remove);
    var added := list(plan.add);
    assert Keys(removed, key) == was.Keys - res.addresses.Keys;
    assert Keys(added, key) == res.addresses.Keys - was.Keys;
    var deletes := Deletes(res.name, res.zone, removed);
    var adds := Adds(res.name, res.zone, res.ttl, added);
    ListedKeys(removed, deletes, key);
    ListedKeys(added, adds, key);
    KeysOfUpdateCalls(deletes, adds, ReadCall(res.name, res.zone), key);
    assert UpdateCalls(res, was, list) == deletes + adds + [ReadCall(res.name, res.zone)];
  }

  /** A successful update of a changed set makes the calls of its plan. */
  lemma UpdateFollowsReconcile(res: Resource, was: AddrSet, o: Oracle, list: Lister, key: string -> int)
    requires was != res.addresses
    requires Keys(list(Reconcile(was, res.addresses).remove), key) == Reconcile(was, res.addresses).remove.Keys
    requires Keys(list(Reconcile(was, res.addresses).add), key) == Reconcile(was, res.addresses).add.Keys
    ensures var r := Update(res, was, Some(o), list, key);
            r.err.None? ==>
              && DeletedKeys(r.calls, key) == was.Keys - res.addresses.Keys
              && AddedKeys(r.calls, key) == res.addresses.Keys - was.Keys
  {
    UpdateCallsFollowReconcile(res, was, list, key);
  }

  /** An update that leaves the set as it was only reads the record set back. */
  lemma UnchangedUpdateOnlyReads(res: Resource, o: Oracle, list: Lister, key: string -> int)
    ensures Update(res, res.addresses, Some(o), list, key) == ReadAfter(res, o, [], key)
  {
  }

  /** When every delete and every add of a changed set is accepted, Update
      is the read that follows them all. */
  lemma UpdateAddsThenReads(res: Resource, was: AddrSet, o: Oracle, list: Lister, key: string -> int)
    requires was != res.addresses
    requires var deletes := Deletes(res.name, res.zone, list(Reconcile(was, res.addresses).remove));
             var adds := Adds(res.name, res.zone, res.ttl, list(Reconcile(was, res.addresses).add));
             AllAccepted(o, [], deletes, |deletes|) && AllAccepted(o, deletes, adds, |adds|)
    ensures var deletes := Deletes(res.name, res.zone, list(Reconcile(was, res.addresses).remove));
            var adds := Adds(res.name, res.zone, res.ttl, list(Reconcile(was, res.addresses).add));
            Update(res, was, Some(o), list, key) == ReadAfter(res, o, deletes + adds, key)
  {
    var deletes := Deletes(res.name, res.zone, list(Reconcile(was, res.addresses).remove));
    var adds := Adds(res.name, res.zone, res.ttl, list(Reconcile(was, res.addresses).add));
    IssueCompletes(o, [], deletes);
    IssueCompletes(o, deletes, adds);
  }

  /** Update stops at the first delete that fails: no address is added,
      nothing is read back, the identifier is cleared and a client error
      comes back wrapped as an update error. */
  lemma UpdateStopsAtFirstFailedDelete(res: Resource, was: AddrSet, o: Oracle, list: Lister, key: string -> int, n: nat)
    requires was != res.addresses
    requires var deletes := Deletes(res.name, res.zone, list(Reconcile(was, res.addresses).remove));
             && n < |deletes| && AllAccepted(o, [], deletes, n)
             && Judge(o(deletes[..n], deletes[n])).Some?
    ensures var deletes := Deletes(res.name, res.zone, list(Reconcile(was, res.addresses).remove));
            Update(res, was, Some(o), list, key) ==
              Outcome(res.(id := ""), deletes[..n + 1], Some(Wrapped(Judge(o(deletes[..n], deletes[n])).value)))
  {
    var deletes := Deletes(res.name, res.zone, list(Reconcile(was, res.addresses).remove));
    assert [] + deletes[..n] == deletes[..n];
    IssueStopsAtFirstFailure(o, [], deletes, n);
  }

  /** Once every delete went through, Update stops at the first add that
      fails: the adds after it are not issued, nothing is read back, the
      identifier is cleared and a client error comes back wrapped as an
      update error. */
  lemma UpdateStopsAtFirstFailedAdd(res: Resource, was: AddrSet, o: Oracle, list: Lister, key: string -> int, n: nat)
    requires was != res.addresses
    requires var deletes := Deletes(res.name, res.zone, list(Reconcile(was, res.addresses).remove));
             var adds := Adds(res.name, res.zone, res.ttl, list(Reconcile(was, res.addresses).add));
             && AllAccepted(o, [], deletes, |deletes|)
             && n < |adds| && AllAccepted(o, deletes, adds, n)
             && Judge(o(deletes + adds[..n], adds[n])).Some?
    ensures var deletes := Deletes(res.name, res.zone, list(Reconcile(was, res.addresses).remove));
            var adds := Adds(res.name, res.zone, res.ttl, list(Reconcile(was, res.addresses).add));
            Update(res, was, Some(o), list, key) ==
              Outcome(res.(id := ""), deletes + adds[..n + 1], Some(Wrapped(Judge(o(deletes + adds[..n], adds[n])).value)))
  {
    var deletes := Deletes(res.name, res.zone, list(Reconcile(was, res.addresses).remove));
    var adds := Adds(res.name, res.zone, res.ttl, list(Reconcile(was, res.addresses).add));
    IssueCompletes(o, [], deletes);
    IssueStopsAtFirstFailure(o, deletes, adds, n);
  }

  /** The deletes of a listing name every key of the listed set, each
      under the given record name and zone. */
  lemma DeletesCoverKeys(name: string, zone: string, xs: seq<string>, key: string -> int)
    ensures var deletes := Deletes(name, zone, xs);
            && DeletedKeys(deletes, key) == Keys(xs, key)
            && (forall i :: 0 <= i < |deletes| ==> deletes[i].DeleteA? && deletes[i].Name() == name && deletes[i].ZoneName() == zone)
  {
    var deletes := Deletes(name, zone, xs);
    ListedKeys(xs, deletes, key);
    assert DeletedKeys(deletes, key) == set i | 0 <= i < |deletes| :: key(deletes[i].Address());
  }

  /** A successful delete asks, under the resource's name and zone, for
      the removal of one address per member of the set, and of nothing else. */
  lemma DeleteRemovesEveryMember(res: Resource, o: Oracle, list: Lister, key: string -> int)
    requires IsListing(list(res.addresses), res.addresses, key)
    requires Delete(res, Some(o), list).err.None?
    ensures var calls := Delete(res, Some(o), list).calls;
            && |calls| == |res.addresses|
            && DeletedKeys(calls, key) == res.addresses.Keys
            && (forall i :: 0 <= i < |calls| ==> calls[i].DeleteA? && calls[i].Name() == res.name && calls[i].ZoneName() == res.zone)
  {
    var xs := list(res.addresses);
    assert |xs| == |res.addresses| && Keys(xs, key) == res.addresses.Keys;
    assert Delete(res, Some(o), list).calls == Deletes(res.name, res.zone, xs);
    DeletesCoverKeys(res.name, res.zone, xs, key);
  }

  /** Delete stops at the first delete that fails and clears the identifier. */
  lemma DeleteStopsAtFirstFailure(res: Resource, o: Oracle, list: Lister, n: nat)
    requires var deletes := Deletes(res.name, res.zone, list(res.addresses));
             && n < |deletes| && AllAccepted(o, [], deletes, n)
             && Judge(o(deletes[..n], deletes[n])).Some?
    ensures var deletes := Deletes(res.name, res.zone, list(res.addresses));
            Delete(res, Some(o), list) == Outcome(res.(id := ""), deletes[..n + 1], Some(Plain(Judge(o(deletes[..n], deletes[n])).value)))
  {
    var deletes := Deletes(res.name, res.zone, list(res.addresses));
    assert [] + deletes[..n] == deletes[..n];
    IssueStopsAtFirstFailure(o, [], deletes, n);
  }

  // ---- the lifecycle against the client facade ----

  /** The facade as the lifecycle's client: each call validated, prepared
      and run. `run` sees the calls made before. */
  function Through(c: Client, run: (seq<Request>, Request) -> RunOutcome, decode: Bytes -> Result<Response, string>)
    : (o: Oracle)
    ensures forall hist, req :: Validate(req).Some? ==> o(hist, req) == Err(Validate(req).value)
    ensures forall hist, req :: o(hist, req).Ok? ==>
              Validate(req).None? && run(hist, Prepare(req, c.options.dnsServer)).Exited?
              && run(hist, Prepare(req, c.options.dnsServer)).code == 0
  {
    (hist: seq<Request>, req: Request) => Execute(c, req, (p: Request) => run(hist, p), decode)
  }

  /** A record set without a name can never be created through the facade:
      whatever the runner does, the first call is refused for the missing
      name, and the runner is never reached. */
  lemma UnnamedRecordSetIsNeverCreated(res: Resource, c: Client, run: (seq<Request>, Request) -> RunOutcome,
                                       decode: Bytes -> Result<Response, string>, list: Lister, key: string -> int)
    requires res.name == ""
    ensures var r := Create(res, Some(Through(c, run, decode)), list, key);
            r.err == Some(Missing("name")) && r.res.id == "" && |r.calls| == 1
  {
    var o := Through(c, run, decode);
    var adds := Adds(res.name, res.zone, res.ttl, list(res.addresses));
    if |adds| > 0 {
      var first := adds[0];
      assert first.Name() == "";
      assert o([], first) == Execute(c, first, (p: Request) => run([], p), decode);
      assert o([] + adds[..0], first) == Err(Missing("name"));
      IssueStopsAtFirstFailure(o, [], adds, 0);
      assert Issue(o, [], adds) == Sweep(adds[..1], Some(Failed(Missing("name"))));
    } else {
      var read := ReadCall(res.name, res.zone);
      assert o([], read) == Execute(c, read, (p: Request) => run([], p), decode);
      assert o([], read) == Err(Missing("name"));
      assert Issue(o, [], adds) == Sweep([], None);
    }
  }
}
